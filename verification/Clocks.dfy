/** Clock factors expanded to one-bit sequences of a common length. */
module Clocks {
  datatype Factor = Factor(high: nat, low: nat, offset: nat)

  function Cycle(f: Factor): nat {
    f.high + f.low
  }

  // ---------- unsigned arithmetic ----------

  const WRAP: nat := 0x1_0000_0000

  function Wrap(n: nat): (r: nat)
    ensures r < WRAP
    ensures r == n <==> n < WRAP
  {
    n % WRAP
  }

  // ---------- divisibility ----------

  ghost predicate Divides(d: nat, n: int) {
    exists k: int :: n == d * k
  }

  lemma DividesTimes(d: nat, n: int, c: int)
    requires Divides(d, n)
    ensures Divides(d, c * n)
  {
    var k :| n == d * k;
    assert c * n == d * (c * k);
  }

  lemma DividesSum(d: nat, a: int, b: int)
    requires Divides(d, a) && Divides(d, b)
    ensures Divides(d, a + b)
  {
    var j :| a == d * j;
    var k :| b == d * k;
    assert a + b == d * (j + k);
  }

  lemma DividesTrans(d: nat, n: nat, m: int)
    requires Divides(d, n) && Divides(n, m)
    ensures Divides(d, m)
  {
    var k :| m == n * k;
    DividesTimes(d, n, k);
    assert m == k * n;
  }

  lemma DividesSelf(d: nat)
    ensures Divides(d, d)
  {
    assert d as int == d * 1;
  }

  lemma DividesMod(d: nat, n: nat)
    requires d > 0 && Divides(d, n)
    ensures n % d == 0 && n == d * (n / d)
  {
    var k :| n as int == d * k;
    Grows(d, k);
    ModOfMultiple(d, k);
  }

  lemma Grows(d: int, k: int)
    requires d > 0
    ensures k >= 1 ==> d * k >= d
    ensures k <= -1 ==> d * k <= -d
  {
  }

  lemma ModOfMultiple(d: nat, k: int)
    requires d > 0
    ensures (d * k) % d == 0 && (d * k) / d == k
  {
    var q, r := (d * k) / d, (d * k) % d;
    assert d * k == d * q + r;
    assert d * (k - q) == r;
    Grows(d, k - q);
  }

  // ---------- greatest common divisor ----------

  function Gcd(a: nat, b: nat): nat
    decreases b
  {
    if b == 0 then a else Gcd(b, a % b)
  }

  /** The result divides both arguments and is a combination of them. */
  lemma {:induction false} GcdDivides(a: nat, b: nat)
    ensures Divides(Gcd(a, b), a) && Divides(Gcd(a, b), b)
    decreases b
  {
    var g := Gcd(a, b);
    if b == 0 {
      DividesSelf(a);
      assert 0 == g * 0;
    } else {
      GcdDivides(b, a % b);
      DividesTimes(g, b, a / b);
      DividesSum(g, (a / b) * b, a % b);
      assert a == (a / b) * b + a % b;
    }
  }

  lemma {:induction false} Bezout(a: nat, b: nat) returns (x: int, y: int)
    ensures Gcd(a, b) == x * a + y * b
    decreases b
  {
    if b == 0 {
      x, y := 1, 0;
    } else {
      var u, v := Bezout(b, a % b);
      var q := a / b;
      x, y := v, u - v * q;
      assert a % b == a - q * b;
      assert u * b + v * (a - q * b) == v * a + (u - v * q) * b by { Rearranged(a, b, u, v, q); }
    }
  }

  lemma Rearranged(a: int, b: int, u: int, v: int, q: int)
    ensures u * b + v * (a - q * b) == v * a + (u - v * q) * b
  {
    assert v * (a - q * b) == v * a - v * (q * b);
    assert (u - v * q) * b == u * b - (v * q) * b;
    assert v * (q * b) == (v * q) * b;
  }

  lemma GcdPositive(a: nat, b: nat)
    requires a > 0
    ensures 0 < Gcd(a, b) <= a
  {
    GcdDivides(a, b);
    var g := Gcd(a, b);
    var k :| a as int == g * k;
    assert g * k == a;
    assert g > 0;
    Grows(g, k);
  }

  // ---------- least common multiple ----------

  /** One step of the loop in exact arithmetic. */
  function LcmOf(a: nat, b: nat): nat
    requires a > 0
  {
    GcdPositive(a, b);
    (a * b) / Gcd(a, b)
  }

  /** One step as the unsigned type computes it. */
  function LcmStep(a: nat, b: nat): nat
    requires a > 0
  {
    GcdPositive(a, b);
    Wrap(a * b) / Gcd(a, b)
  }

  lemma ProductSplits(a: nat, b: nat)
    requires a > 0
    ensures
      var g := Gcd(a, b);
      g > 0 && LcmOf(a, b) * g == a * b && Divides(a, LcmOf(a, b)) && Divides(b, LcmOf(a, b))
  {
    var g := Gcd(a, b);
    GcdPositive(a, b);
    GcdDivides(a, b);
    DividesTimes(g, a, b);
    assert b * a == a * b;
    DividesMod(g, a * b);
    DividesMod(g, a);
    DividesMod(g, b);
    var p, q := a / g, b / g;
    var l := LcmOf(a, b);
    assert l * g == a * b;
    assert a * b == a * (g * q) == (a * q) * g by { Regroup(a, g, q); }
    assert a * b == (g * p) * b == (b * p) * g by { Regroup(b, g, p); }
    CancelFactor(l, a * q, g);
    CancelFactor(l, b * p, g);
  }

  lemma Regroup(a: int, g: int, q: int)
    ensures a * (g * q) == (a * q) * g
  {
  }

  lemma CancelFactor(a: int, b: int, g: int)
    requires g > 0 && a * g == b * g
    ensures a == b
  {
    Grows(g, a - b);
    assert g * (a - b) == a * g - b * g;
  }

  /** The step's result divides every common multiple. */
  lemma LcmOfIsLeast(a: nat, b: nat, n: int)
    requires a > 0 && Divides(a, n) && Divides(b, n)
    ensures Divides(LcmOf(a, b), n)
  {
    var g, l := Gcd(a, b), LcmOf(a, b);
    ProductSplits(a, b);
    var x, y := Bezout(a, b);
    var j :| n == a * j;
    var k :| n == b * k;
    // n * g is a multiple of a * b == l * g
    CommonMultiple(a, b, j, k, x, y, n, g);
    assert n * g == (a * b) * (x * k + y * j);
    assert (l * g) * (x * k + y * j) == (l * (x * k + y * j)) * g by { Regroup2(l, g, x * k + y * j); }
    CancelFactor(n, l * (x * k + y * j), g);
  }

  lemma Regroup2(l: int, g: int, z: int)
    ensures (l * g) * z == (l * z) * g
  {
  }

  lemma CommonMultiple(a: int, b: int, j: int, k: int, x: int, y: int, n: int, g: int)
    requires n == a * j && n == b * k && g == x * a + y * b
    ensures n * g == (a * b) * (x * k + y * j)
  {
    assert n * (x * a + y * b) == n * (x * a) + n * (y * b);
    assert (b * k) * (x * a) == (a * b) * (x * k) by { Regroup4(a, b, x, k); }
    assert (a * j) * (y * b) == (a * b) * (y * j) by { Regroup4(b, a, y, j); Commute(a, b); }
    assert (a * b) * (x * k) + (a * b) * (y * j) == (a * b) * (x * k + y * j);
  }

  lemma Regroup4(a: int, b: int, x: int, k: int)
    ensures (b * k) * (x * a) == (a * b) * (x * k)
  {
    assert (b * k) * (x * a) == b * (k * (x * a));
    assert k * (x * a) == a * (x * k);
    assert b * (a * (x * k)) == (b * a) * (x * k);
  }

  lemma Commute(a: int, b: int)
    ensures a * b == b * a
  {
  }

  // ---------- the cycles of all clocks ----------

  ghost predicate CommonMultipleOf(cycles: seq<nat>, m: int) {
    forall i {:trigger cycles[i]} :: 0 <= i < |cycles| ==> Divides(cycles[i], m)
  }

  /** A positive common multiple that divides every common multiple. */
  ghost predicate IsLcm(cycles: seq<nat>, m: nat) {
    m > 0 && CommonMultipleOf(cycles, m) && forall n: int :: CommonMultipleOf(cycles, n) ==> Divides(m, n)
  }

  predicate AllPositive(cycles: seq<nat>) {
    forall i {:trigger cycles[i]} :: 0 <= i < |cycles| ==> cycles[i] > 0
  }

  /** The loop of lcm after n cycles, in exact arithmetic. */
  function ExactLcm(cycles: seq<nat>, n: nat): nat
    requires 1 <= n <= |cycles| && AllPositive(cycles)
  {
    if n == 1 then cycles[0] else LcmOf(cycles[n - 1], ExactLcm(cycles, n - 1))
  }

  ghost predicate FitsAt(cycles: seq<nat>, n: nat)
    requires 1 <= n < |cycles| && AllPositive(cycles)
  {
    cycles[n] * ExactLcm(cycles, n) < WRAP
  }

  /** No product of the loop exceeds the unsigned range. */
  ghost predicate Fits(cycles: seq<nat>)
    requires AllPositive(cycles)
  {
    forall n: nat :: 1 <= n < |cycles| ==> FitsAt(cycles, n)
  }

  lemma CommonPush(cycles: seq<nat>, n: nat, m: int)
    requires n < |cycles|
    ensures CommonMultipleOf(cycles[..n + 1], m) <==> CommonMultipleOf(cycles[..n], m) && Divides(cycles[n], m)
  {
    if CommonMultipleOf(cycles[..n + 1], m) {
      assert cycles[..n + 1][n] == cycles[n];
      forall i {:trigger cycles[..n][i]} | 0 <= i < n ensures Divides(cycles[..n][i], m) {
        assert cycles[..n + 1][i] == cycles[..n][i];
      }
    }
    if CommonMultipleOf(cycles[..n], m) && Divides(cycles[n], m) {
      forall i: nat {:trigger cycles[..n + 1][i]} | i < n + 1 ensures Divides(cycles[..n + 1][i], m) {
        if i < n { assert cycles[..n + 1][i] == cycles[..n][i]; }
      }
    }
  }

  lemma {:induction false} ExactIsLcm(cycles: seq<nat>, n: nat)
    requires 1 <= n <= |cycles| && AllPositive(cycles)
    ensures IsLcm(cycles[..n], ExactLcm(cycles, n))
  {
    var m := ExactLcm(cycles, n);
    if n == 1 {
      DividesSelf(cycles[0]);
      forall k: int | CommonMultipleOf(cycles[..1], k) ensures Divides(m, k) {
        assert cycles[..1][0] == cycles[0];
      }
    } else {
      ExactIsLcm(cycles, n - 1);
      ExactStep(cycles, n - 1);
    }
  }

  lemma ExactStep(cycles: seq<nat>, n: nat)
    requires 1 <= n < |cycles| && AllPositive(cycles) && IsLcm(cycles[..n], ExactLcm(cycles, n))
    ensures IsLcm(cycles[..n + 1], ExactLcm(cycles, n + 1))
  {
    var c, l, m := cycles[n], ExactLcm(cycles, n), ExactLcm(cycles, n + 1);
    ProductSplits(c, l);
    LcmPositive(c, l);
    forall i {:trigger cycles[..n][i]} | 0 <= i < n ensures Divides(cycles[..n][i], m) {
      DividesTrans(cycles[..n][i], l, m);
    }
    CommonPush(cycles, n, m);
    forall k: int | CommonMultipleOf(cycles[..n + 1], k) ensures Divides(m, k) {
      CommonPush(cycles, n, k);
      LcmOfIsLeast(c, l, k);
    }
  }

  lemma LcmPositive(a: nat, b: nat)
    requires a > 0 && b > 0
    ensures LcmOf(a, b) > 0
  {
    ProductSplits(a, b);
    Grows(a, b);
    assert LcmOf(a, b) * Gcd(a, b) > 0;
  }

  /** For one step the unsigned result is the least common multiple exactly when the product does not
      wrap around. */
  lemma StepIsExact(a: nat, b: nat)
    requires 0 < a < WRAP && b < WRAP
    ensures LcmStep(a, b) == LcmOf(a, b) <==> a * b < WRAP
  {
    var g, w := Gcd(a, b), Wrap(a * b);
    GcdPositive(a, b);
    ProductSplits(a, b);
    if a * b >= WRAP {
      assert w <= a * b - WRAP by { assert a * b == WRAP * ((a * b) / WRAP) + w; }
      var l := LcmOf(a, b);
      var s := LcmStep(a, b);
      assert s * g <= w;
      assert s * g < l * g;
    }
  }

  /** The loop after n cycles as the unsigned type computes it. */
  function UnsignedLcm(cycles: seq<nat>, n: nat): nat
    requires 1 <= n <= |cycles| && AllPositive(cycles)
  {
    if n == 1 then cycles[0] else LcmStep(cycles[n - 1], UnsignedLcm(cycles, n - 1))
  }

  lemma {:induction false} FitsIsExact(cycles: seq<nat>, n: nat)
    requires 1 <= n <= |cycles| && AllPositive(cycles) && Fits(cycles)
    ensures UnsignedLcm(cycles, n) == ExactLcm(cycles, n)
  {
    if n > 1 {
      var m: nat := n - 1;
      FitsIsExact(cycles, m);
      assert FitsAt(cycles, m);
    }
  }

  ghost predicate ExactAfter(cycles: seq<nat>, n: nat)
    requires 1 <= n <= |cycles| && AllPositive(cycles)
  {
    UnsignedLcm(cycles, n) == ExactLcm(cycles, n)
  }

  predicate InRange(cycles: seq<nat>) {
    forall i {:trigger cycles[i]} :: 0 <= i < |cycles| ==> cycles[i] < WRAP
  }

  /** The loop is exact after every step exactly when no product wraps around. That speaks of every
      step: after a product that wrapped, the final value can still be right (WrapsAndRecovers), and
      FinalValueIsLcm says when it is. */
  lemma LoopIsExact(cycles: seq<nat>)
    requires AllPositive(cycles) && InRange(cycles)
    ensures (forall n: nat :: 1 <= n <= |cycles| ==> ExactAfter(cycles, n)) <==> Fits(cycles)
  {
    if Fits(cycles) {
      forall n: nat | 1 <= n <= |cycles| ensures ExactAfter(cycles, n) { FitsIsExact(cycles, n); }
    }
    if forall n: nat :: 1 <= n <= |cycles| ==> ExactAfter(cycles, n) {
      forall n: nat | 1 <= n < |cycles| ensures FitsAt(cycles, n) {
        var m: nat := n + 1;
        assert ExactAfter(cycles, n) && ExactAfter(cycles, m);
        ExactStepFits(cycles, n);
      }
    }
  }

  lemma ExactStepFits(cycles: seq<nat>, n: nat)
    requires 1 <= n < |cycles| && AllPositive(cycles) && InRange(cycles) && ExactAfter(cycles, n)
    requires ExactAfter(cycles, n + 1)
    ensures FitsAt(cycles, n)
  {
    UnsignedInRange(cycles, n);
    StepIsExact(cycles[n], ExactLcm(cycles, n));
  }

  lemma UnsignedInRange(cycles: seq<nat>, n: nat)
    requires 1 <= n <= |cycles| && AllPositive(cycles) && InRange(cycles)
    ensures UnsignedLcm(cycles, n) < WRAP
  {
    if n > 1 { GcdPositive(cycles[n - 1], UnsignedLcm(cycles, n - 1)); }
  }

  /** lcm: the loop with unsigned products. */
  method Lcm(cycles: seq<nat>) returns (ans: nat)
    requires cycles != [] && AllPositive(cycles)
    ensures ans == UnsignedLcm(cycles, |cycles|)
    ensures Fits(cycles) ==> IsLcm(cycles, ans)
  {
    ans := cycles[0];
    var i := 1;
    while i < |cycles|
      invariant 1 <= i <= |cycles| && ans == UnsignedLcm(cycles, i)
    {
      ans := LcmStep(cycles[i], ans);
      i := i + 1;
    }
    ExactIsLcm(cycles, |cycles|);
    if Fits(cycles) { FitsIsExact(cycles, |cycles|); }
    assert cycles[..|cycles|] == cycles;
  }

  /** Two clocks whose cycles have a least common multiple well in range, and yet the product wraps
      around to nothing. */
  lemma WrapsToZero()
    ensures LcmStep(65536, 65536) == 0 && LcmOf(65536, 65536) == 65536
  {
    assert Gcd(65536, 65536) == Gcd(65536, 0) == 65536;
  }

  /** The first product wraps around and leaves 1, and yet the loop ends with the least common multiple. */
  lemma WrapsAndRecovers()
    ensures
      var cycles := [65537, 65537, 65537];
      && AllPositive(cycles) && InRange(cycles) && !Fits(cycles)
      && UnsignedLcm(cycles, 2) == 1 && UnsignedLcm(cycles, 3) == 65537 && IsLcm(cycles, 65537)
  {
    var cycles := [65537, 65537, 65537];
    assert Gcd(65537, 65537) == Gcd(65537, 0) == 65537;
    assert Gcd(65537, 1) == Gcd(1, 0) == 1;
    assert UnsignedLcm(cycles, 1) == 65537;
    assert UnsignedLcm(cycles, 2) == LcmStep(65537, 65537) == 1;
    assert UnsignedLcm(cycles, 3) == LcmStep(65537, 1) == 65537;
    assert !FitsAt(cycles, 1);
    DividesSelf(65537);
    forall k: int | CommonMultipleOf(cycles, k) ensures Divides(65537, k) {
      assert Divides(cycles[0], k);
    }
  }

  // ---------- the final value of a loop that wrapped ----------

  /** The product of step n, which brings in cycles[n], wraps around. */
  predicate WrapsAt(cycles: seq<nat>, n: nat)
    requires 1 <= n < |cycles| && AllPositive(cycles)
  {
    cycles[n] * UnsignedLcm(cycles, n) >= WRAP
  }

  /** The number of cycles used up, of the first n, when the last product wrapped around; one if none did. */
  function LastWrap(cycles: seq<nat>, n: nat): (k: nat)
    requires 1 <= n <= |cycles| && AllPositive(cycles)
    ensures 1 <= k <= n && (k > 1 ==> WrapsAt(cycles, k - 1))
    ensures forall m {:trigger WrapsAt(cycles, m)} :: k <= m < n ==> !WrapsAt(cycles, m)
  {
    if n == 1 || WrapsAt(cycles, n - 1) then n else LastWrap(cycles, n - 1)
  }

  /** What the loop still works on after the last wrap: the value it left, and the cycles to come. */
  function Left(cycles: seq<nat>): (s: seq<nat>)
    requires cycles != [] && AllPositive(cycles)
    ensures s != [] && s[0] == UnsignedLcm(cycles, LastWrap(cycles, |cycles|)) && (s[0] > 0 ==> AllPositive(s))
  {
    var k := LastWrap(cycles, |cycles|);
    [UnsignedLcm(cycles, k)] + cycles[k..]
  }

  lemma {:induction false} NoWrapIsExact(a: nat, b: nat)
    requires a > 0 && a * b < WRAP
    ensures LcmStep(a, b) == LcmOf(a, b) && (b == 0 ==> LcmStep(a, b) == 0)
  {
    GcdPositive(a, b);
  }

  lemma {:induction false} AfterTheLastWrap(cycles: seq<nat>, n: nat)
    requires cycles != [] && AllPositive(cycles) && LastWrap(cycles, |cycles|) <= n <= |cycles|
    ensures
      var k, rest := LastWrap(cycles, |cycles|), Left(cycles);
      if rest[0] == 0 then UnsignedLcm(cycles, n) == 0
      else AllPositive(rest) && UnsignedLcm(cycles, n) == ExactLcm(rest, n - k + 1)
  {
    var k, rest := LastWrap(cycles, |cycles|), Left(cycles);
    if n > k {
      var m: nat := n - 1;
      AfterTheLastWrap(cycles, m);
      assert !WrapsAt(cycles, m);
      NoWrapIsExact(cycles[m], UnsignedLcm(cycles, m));
      assert rest[n - k] == cycles[m];
    }
  }

  /** What the loop does after the last wrap is exact: it ends with the least common multiple of what was left. */
  lemma {:induction false} EndsWithLcmOfRest(cycles: seq<nat>)
    requires cycles != [] && AllPositive(cycles)
    ensures
      var rest, v := Left(cycles), UnsignedLcm(cycles, |cycles|);
      if rest[0] == 0 then v == 0 else AllPositive(rest) && v == ExactLcm(rest, |rest|) && IsLcm(rest, v)
  {
    var rest := Left(cycles);
    AfterTheLastWrap(cycles, |cycles|);
    if rest[0] > 0 {
      ExactIsLcm(rest, |rest|);
      assert rest[..|rest|] == rest;
    }
  }

  /** A multiple of all that was left is one of the cycles to come. */
  lemma {:induction false} RestAreCycles(cycles: seq<nat>, m: int)
    requires cycles != [] && AllPositive(cycles)
    ensures
      var k := LastWrap(cycles, |cycles|);
      CommonMultipleOf(Left(cycles), m) <==>
      Divides(Left(cycles)[0], m) && forall i {:trigger cycles[i]} :: k <= i < |cycles| ==> Divides(cycles[i], m)
  {
    var k, rest := LastWrap(cycles, |cycles|), Left(cycles);
    if CommonMultipleOf(rest, m) {
      forall i {:trigger cycles[i]} | k <= i < |cycles| ensures Divides(cycles[i], m) {
        assert rest[i - k + 1] == cycles[i];
      }
    }
    if Divides(rest[0], m) && forall i {:trigger cycles[i]} :: k <= i < |cycles| ==> Divides(cycles[i], m) {
      forall i {:trigger rest[i]} | 0 <= i < |rest| ensures Divides(rest[i], m) {
        if i > 0 { assert rest[i] == cycles[k + i - 1]; }
      }
    }
  }

  lemma {:induction false} DividesLcm(cycles: seq<nat>, l: nat, v: nat, u: nat)
    requires IsLcm(cycles, l) && CommonMultipleOf(cycles, v)
    requires v > 0 && (forall m: int :: CommonMultipleOf(cycles, m) && Divides(u, m) ==> Divides(v, m))
    ensures Divides(u, v) ==> (IsLcm(cycles, v) <==> Divides(u, l))
  {
    if Divides(u, v) && IsLcm(cycles, v) {
      DividesTrans(u, v, l);
    }
    if Divides(u, l) {
      forall m: int | CommonMultipleOf(cycles, m) ensures Divides(v, m) {
        DividesTrans(u, l, m);
      }
    }
  }

  /** The returned value is the least common multiple exactly when the value u left by the last product
      that wrapped is not 0 and divides it, and u with the later cycles makes up for each cycle used up
      before. */
  lemma {:induction false} FinalValueIsLcm(cycles: seq<nat>)
    requires cycles != [] && AllPositive(cycles)
    ensures
      var n := |cycles|;
      var k := LastWrap(cycles, n);
      var u := UnsignedLcm(cycles, k);
      IsLcm(cycles, UnsignedLcm(cycles, n)) <==>
      && u > 0 && Divides(u, ExactLcm(cycles, n))
      && forall i {:trigger cycles[i]} :: 0 <= i < k ==> Divides(cycles[i], ExactLcm(Left(cycles), |Left(cycles)|))
  {
    var n := |cycles|;
    var k, rest := LastWrap(cycles, n), Left(cycles);
    EndsWithLcmOfRest(cycles);
    if rest[0] > 0 {
      var v := UnsignedLcm(cycles, n);
      RestAreCycles(cycles, v);
      ExactIsLcm(cycles, n);
      assert cycles[..n] == cycles;
      if CommonMultipleOf(cycles, v) {
        forall m: int | CommonMultipleOf(cycles, m) && Divides(rest[0], m) ensures Divides(v, m) {
          RestAreCycles(cycles, m);
        }
        DividesLcm(cycles, ExactLcm(cycles, n), v, rest[0]);
      }
    }
  }

  // ---------- one clock ----------

  /** Element i of the sequence: the level of the clock after `offset + i` ticks. */
  predicate Level(f: Factor, i: nat)
    requires Cycle(f) > 0
  {
    (f.offset + i) % Cycle(f) < f.high
  }

  /** One period without offset: the high ticks, then the low ones. */
  function Period(f: Factor): (s: seq<bool>)
    ensures |s| == Cycle(f)
    ensures forall i :: 0 <= i < |s| ==> (s[i] <==> i < f.high)
  {
    seq(f.high, _ => true) + seq(f.low, _ => false)
  }

  lemma NextTick(n: nat, c: nat)
    requires c > 0
    ensures (n + 1) % c == (n % c + 1) % c
    ensures (n + 1) / c == n / c + (if n % c + 1 == c then 1 else 0)
  {
    var q, r := n / c, n % c;
    assert n + 1 == c * q + (r + 1);
    if r + 1 == c {
      assert n + 1 == c * (q + 1);
      ModOfMultiple(c, q + 1);
      ModOfMultiple(c, 1);
    } else {
      UniqueQuotient(c, q, r + 1, n + 1);
      UniqueQuotient(c, 0, r + 1, r + 1);
    }
  }

  lemma UniqueQuotient(c: nat, q: nat, r: nat, n: nat)
    requires r < c && n == c * q + r
    ensures n / c == q && n % c == r
  {
    var p, s := n / c, n % c;
    assert c * (p - q) == r - s;
    Grows(c, p - q);
  }

  /** After n ticks the index is at the offset for the given number of copies when n is that many periods. */
  lemma {:induction false} BackAtOffset(c: nat, offset: nat, n: nat, copies: nat)
    requires offset < c
    ensures (offset + n) % c == offset && (offset + n) / c == copies <==> n == c * copies
  {
    if n == c * copies { UniqueQuotient(c, copies, offset, offset + n); }
  }

  /** A result, or a failed assertion or a read outside a sequence. */
  datatype Outcome<T> = Done(value: T) | Aborts

  /** The length is a number of periods and, unless there is nothing to do, the offset lies in the period. */
  predicate Expandable(f: Factor, len: nat)
    requires Cycle(f) > 0
  {
    len % Cycle(f) == 0 && (len == 0 || f.offset < Cycle(f))
  }

  /** The wrap-around loop of one clock. */
  method Expand(f: Factor, len: nat) returns (r: Outcome<seq<bool>>)
    requires Cycle(f) > 0
    ensures r.Done? <==> Expandable(f, len)
    ensures r.Done? ==>
              |r.value| == len && forall i {:trigger r.value[i]} :: 0 <= i < len ==> (r.value[i] <==> Level(f, i))
  {
    var period := Period(f);
    var c := Cycle(f);
    if len % c != 0 { return Aborts; }
    var copies := len / c;
    var idx, copy, out := f.offset, 0, [];
    assert len == c * copies;
    if f.offset < c { UniqueQuotient(c, 0, f.offset, f.offset); }
    while !(idx == f.offset && copy == copies)
      invariant |out| <= len
      invariant if f.offset < c then idx == (f.offset + |out|) % c && copy == (f.offset + |out|) / c
                else out == [] && idx == f.offset && copy == 0
      invariant forall i {:trigger out[i]} :: 0 <= i < |out| ==> (out[i] <==> Level(f, i))
      decreases len - |out|
    {
      if idx >= |period| { return Aborts; }
      BackAtOffset(c, f.offset, |out|, copies);
      NextTick(f.offset + |out|, c);
      out := out + [period[idx]];
      if idx + 1 == c {
        copy := copy + 1;
      }
      idx := (idx + 1) % c;
    }
    if f.offset < c { BackAtOffset(c, f.offset, |out|, copies); }
    r := Done(out);
  }

  /** With an offset of a whole cycle or more the index never comes back to the offset. */
  lemma OffsetNotReached(f: Factor, k: nat)
    requires Cycle(f) > 0 && k > 0
    ensures f.offset >= Cycle(f) ==> (f.offset + k) % Cycle(f) != f.offset
    ensures f.offset < Cycle(f) ==> (f.offset + Cycle(f)) % Cycle(f) == f.offset
  {
    if f.offset < Cycle(f) { UniqueQuotient(Cycle(f), 1, f.offset, f.offset + Cycle(f)); }
  }

  // ---------- how often a clock is high ----------

  ghost function Highs(f: Factor, n: nat): nat
    requires Cycle(f) > 0
  {
    if n == 0 then 0 else Highs(f, n - 1) + (if Level(f, n - 1) then 1 else 0)
  }

  ghost function Count(s: seq<bool>): nat {
    if s == [] then 0 else Count(s[..|s| - 1]) + (if s[|s| - 1] then 1 else 0)
  }

  lemma {:induction false} CountIsHighs(f: Factor, s: seq<bool>)
    requires Cycle(f) > 0 && forall i {:trigger s[i]} :: 0 <= i < |s| ==> (s[i] <==> Level(f, i))
    ensures Count(s) == Highs(f, |s|)
  {
    if s != [] {
      CountIsHighs(f, s[..|s| - 1]);
    }
  }

  /** Ticks of a number of periods before the first wrap-around after position n. */
  ghost function HighTicks(f: Factor, n: nat): nat
    requires Cycle(f) > 0
  {
    (n / Cycle(f)) * f.high + (if n % Cycle(f) < f.high then n % Cycle(f) else f.high)
  }

  /** Highs from the offset on are the highs up to the end without those before the offset. */
  lemma {:induction false} HighsAre(f: Factor, n: nat)
    requires Cycle(f) > 0
    ensures Highs(f, n) == HighTicks(f, f.offset + n) - HighTicks(f, f.offset)
  {
    if n > 0 {
      HighsAre(f, n - 1);
      var m := f.offset + n - 1;
      NextTick(m, Cycle(f));
      OneMore(f, m);
    }
  }

  lemma OneMore(f: Factor, m: nat)
    requires Cycle(f) > 0
    ensures HighTicks(f, m + 1) == HighTicks(f, m) + (if m % Cycle(f) < f.high then 1 else 0)
  {
    var c := Cycle(f);
    var q := m / c;
    NextTick(m, c);
    assert (q + 1) * f.high == q * f.high + f.high;
    ModOfMultiple(c, 1);
  }

  /** Over whole periods a clock is high exactly `high` times a period. */
  lemma HighsOfPeriods(f: Factor, k: nat)
    requires Cycle(f) > 0 && f.offset < Cycle(f)
    ensures Highs(f, Cycle(f) * k) == f.high * k
  {
    var c := Cycle(f);
    HighsAre(f, c * k);
    UniqueQuotient(c, k, f.offset, f.offset + c * k);
    UniqueQuotient(c, 0, f.offset, f.offset);
    assert k * f.high == f.high * k;
  }

  // ---------- all clocks ----------

  datatype Clock = Clock(name: string, factor: Factor)

  /** The clocks of a map: no name twice, every cycle non-empty. */
  ghost predicate GoodClocks(clocks: seq<Clock>) {
    && (forall i, j :: 0 <= i < j < |clocks| ==> clocks[i].name != clocks[j].name)
    && (forall i {:trigger clocks[i]} :: 0 <= i < |clocks| ==> Cycle(clocks[i].factor) > 0)
  }

  function Cycles(clocks: seq<Clock>): (cs: seq<nat>)
    ensures |cs| == |clocks| && forall i {:trigger cs[i]} :: 0 <= i < |cs| ==> cs[i] == Cycle(clocks[i].factor)
  {
    seq(|clocks|, i requires 0 <= i < |clocks| => (var c: nat := Cycle(clocks[i].factor); c))
  }

  /** The sequence of one clock: element i is the level after `offset + i` ticks, and the clock is high
      in the share of ticks its factor says. */
  ghost predicate IsClock(f: Factor, s: seq<bool>, len: nat) {
    && Cycle(f) > 0 && |s| == len
    && (forall i {:trigger s[i]} :: 0 <= i < len ==> (s[i] <==> Level(f, i)))
    && Count(s) == f.high * (len / Cycle(f))
  }

  ghost predicate AllClocks(clocks: seq<Clock>, out: map<string, seq<bool>>, n: nat, len: nat)
    requires n <= |clocks|
  {
    forall i {:trigger clocks[i]} :: 0 <= i < n ==>
      clocks[i].name in out && IsClock(clocks[i].factor, out[clocks[i].name], len)
  }

  lemma {:induction false} LevelsAreClock(f: Factor, s: seq<bool>, len: nat)
    requires Cycle(f) > 0 && Expandable(f, len) && |s| == len
    requires forall i {:trigger s[i]} :: 0 <= i < len ==> (s[i] <==> Level(f, i))
    ensures IsClock(f, s, len)
  {
    var c := Cycle(f);
    var k := len / c;
    CountIsHighs(f, s);
    assert len == c * k;
    if len > 0 {
      HighsOfPeriods(f, k);
    } else {
      UniqueQuotient(c, 0, 0, 0);
    }
  }

  method Sequence(f: Factor, len: nat) returns (r: Outcome<seq<bool>>)
    requires Cycle(f) > 0
    ensures r.Done? <==> Expandable(f, len)
    ensures r.Done? ==> IsClock(f, r.value, len)
  {
    r := Expand(f, len);
    if r.Done? {
      LevelsAreClock(f, r.value, len);
    }
  }

  lemma AllClocksPush(clocks: seq<Clock>, out: map<string, seq<bool>>, n: nat, len: nat, s: seq<bool>)
    requires GoodClocks(clocks) && n < |clocks| && AllClocks(clocks, out, n, len) && IsClock(clocks[n].factor, s, len)
    ensures AllClocks(clocks, out[clocks[n].name := s], n + 1, len)
  {
  }

  ghost predicate AllExpandable(clocks: seq<Clock>, n: nat, len: nat)
    requires GoodClocks(clocks) && n <= |clocks|
  {
    forall i {:trigger clocks[i]} :: 0 <= i < n ==> Expandable(clocks[i].factor, len)
  }

  /** There are sequences for clocks only. */
  ghost predicate OnlyClocks(clocks: seq<Clock>, out: map<string, seq<bool>>) {
    forall x {:trigger x in out} :: x in out ==> exists i {:trigger clocks[i]} :: 0 <= i < |clocks| && clocks[i].name == x
  }

  datatype Conversion = NoClocks | Failed | Sequences(out: map<string, seq<bool>>, len: nat)

  /** JsonRfmapConvertFactorToSeq, with the clocks in the order of the map. */
  method ConvertFactorToSeq(clocks: seq<Clock>) returns (r: Conversion)
    requires GoodClocks(clocks)
    ensures r.NoClocks? <==> clocks == []
    ensures clocks != [] ==> (r.Sequences? <==> AllExpandable(clocks, |clocks|, UnsignedLcm(Cycles(clocks), |clocks|)))
    ensures r.Sequences? ==> r.len == UnsignedLcm(Cycles(clocks), |clocks|) && AllClocks(clocks, r.out, |clocks|, r.len)
    ensures r.Sequences? ==> OnlyClocks(clocks, r.out)
    ensures r.Sequences? && Fits(Cycles(clocks)) ==> IsLcm(Cycles(clocks), r.len)
  {
    if |clocks| == 0 {
      return NoClocks;
    }
    var len := Lcm(Cycles(clocks));
    var out: map<string, seq<bool>> := map[];
    var i := 0;
    while i != |clocks|
      invariant 0 <= i <= |clocks| && AllClocks(clocks, out, i, len) && AllExpandable(clocks, i, len)
      invariant OnlyClocks(clocks, out)
    {
      var s := Sequence(clocks[i].factor, len);
      if s.Aborts? {
        return Failed;
      }
      AllClocksPush(clocks, out, i, len, s.value);
      out := out[clocks[i].name := s.value];
      i := i + 1;
    }
    r := Sequences(out, len);
  }

  /** With products in range only the offsets decide, and the common length is the least common multiple. */
  lemma {:induction false} FitsIsExpandable(clocks: seq<Clock>)
    requires GoodClocks(clocks) && clocks != [] && Fits(Cycles(clocks))
    ensures
      var len := UnsignedLcm(Cycles(clocks), |clocks|);
      && IsLcm(Cycles(clocks), len)
      && (AllExpandable(clocks, |clocks|, len) <==>
          forall i {:trigger clocks[i]} :: 0 <= i < |clocks| ==> clocks[i].factor.offset < Cycle(clocks[i].factor))
  {
    var cs, n := Cycles(clocks), |clocks|;
    var len := UnsignedLcm(cs, n);
    FitsIsExact(cs, n);
    ExactIsLcm(cs, n);
    assert cs[..n] == cs;
    forall i {:trigger clocks[i]} | 0 <= i < n
      ensures Expandable(clocks[i].factor, len) <==> clocks[i].factor.offset < Cycle(clocks[i].factor)
    {
      assert Divides(cs[i], len);
      DividesMod(cs[i], len);
    }
  }
}
