/** The SC axiom and a single memory that takes the steps one at a time. */
module Sc {
  import opened Ast
  import opened Trace
  import opened Positions
  import opened Machine

  /** A linear order of all instruction steps. */
  ghost predicate Interleaving(p: Prog, order: seq<int>) {
    && NoRepeat(order)
    && (forall k :: 0 <= k < |order| ==> Inst(p, order[k]))
    && (forall i :: Inst(p, i) ==> At(order, i) < |order|)
  }

  ghost predicate Extends(p: Prog, t: Times, order: seq<int>)
    requires Timed(p, t)
  {
    && Interleaving(p, order)
    && forall j, k :: 0 <= j < k < |order| ==> t.ts[order[j]] <= t.ts[order[k]]
  }

  /** Memory after the first k steps, each performed at once. */
  ghost function MemoryAfter(p: Prog, order: seq<int>, k: nat): Memory
    requires k <= |order| && forall j :: 0 <= j < |order| ==> Inst(p, order[j])
  {
    if k == 0 then p.init else Commit(p, MemoryAfter(p, order, k - 1), order[k - 1])
  }

  /** Every load has the value memory holds when its step is reached. */
  ghost predicate Replays(p: Prog, order: seq<int>)
    requires Interleaving(p, order)
  {
    forall k, s, n {:trigger p.steps[order[k]].loads[s][n]} ::
      0 <= k < |order| && s in p.steps[order[k]].loads && 0 <= n < |p.steps[order[k]].loads[s]| ==>
      var ld := p.steps[order[k]].loads[s][n];
      ld.data == MemoryAfter(p, order, k)(s, ld.addr)
  }

  /** The last write of the pattern among the first k steps; 0 if there is none. */
  ghost function LastWrite(p: Prog, order: seq<int>, k: nat, q: Pattern): (w: int)
    requires k <= |order| && forall j :: 0 <= j < |order| ==> Inst(p, order[j])
    ensures Hits(p, w, q)
    ensures w != 0 ==> At(order, w) < k
  {
    if k == 0 then 0 else if Hits(p, order[k - 1], q) then order[k - 1] else LastWrite(p, order, k - 1, q)
  }

  lemma {:induction false} LastWriteIsLast(p: Prog, order: seq<int>, k: nat, q: Pattern, x: int)
    requires k <= |order| && Interleaving(p, order)
    requires Inst(p, x) && Hits(p, x, q) && At(order, x) < k
    ensures var w := LastWrite(p, order, k, q); w != 0 && At(order, x) <= At(order, w)
  {
    assert At(order, order[k - 1]) == k - 1;
    if At(order, x) < k - 1 {
      LastWriteIsLast(p, order, k - 1, q, x);
    }
  }

  lemma {:induction false} MemoryIsLastWrite(p: Prog, order: seq<int>, k: nat, s: string, a: Value)
    requires k <= |order| && Interleaving(p, order)
    ensures MemoryAfter(p, order, k)(s, a) == Datum(p, LastWrite(p, order, k, Pattern(s, false, a)), s, a)
  {
    if k > 0 {
      MemoryIsLastWrite(p, order, k - 1, s, a);
    }
  }

  // ---------- the order part of the axiom ----------

  /** `w` is the strictly latest write of the pattern before `r`, and no other one ties with `r`. */
  ghost predicate Latest(p: Prog, t: Times, r: int, q: Pattern, w: int)
    requires Timed(p, t) && Inst(p, r)
  {
    && w != r && Hits(p, w, q) && t.ts[w] < t.ts[r]
    && forall x :: x != w && x != r && Hits(p, x, q) ==> t.ts[x] < t.ts[w] || t.ts[r] < t.ts[x]
  }

  lemma ScReadFromSplits(p: Prog, t: Times, r: int, s: string, w: int)
    requires Timed(p, t) && OneAddress(p) && Inst(p, r) && s in p.steps[r].loads
    ensures ScReadFrom(p, t, r, s, w) <==> Latest(p, t, r, ReadPattern(p, r, s), w) && SameData(p, w, r, s)
  {
    forall x ensures Hits(p, x, ReadPattern(p, r, s)) <==>
        Writes(p, x, s) && SameAddress(p, x, r, s) && Decoded(p, x) {
      HitsIsSameAddress(p, x, r, s);
    }
  }

  /** In every order that extends the timestamps, the latest write is the one memory holds. */
  lemma LatestIsLastWrite(p: Prog, t: Times, order: seq<int>, r: int, q: Pattern, w: int)
    requires Timed(p, t) && Extends(p, t, order) && Inst(p, r) && Latest(p, t, r, q, w)
    ensures LastWrite(p, order, At(order, r), q) == w
  {
    var k := At(order, r);
    var x := LastWrite(p, order, k, q);
    if w != 0 {
      assert At(order, w) != k;
      LastWriteIsLast(p, order, k, q, w);
    }
    if x != 0 {
      assert t.ts[order[At(order, x)]] <= t.ts[order[k]];
    }
  }

  lemma ReplayedData(p: Prog, order: seq<int>, r: int, s: string, w: int)
    requires Interleaving(p, order) && OneAddress(p) && Inst(p, r) && s in p.steps[r].loads
    requires w == LastWrite(p, order, At(order, r), ReadPattern(p, r, s)) && w != r
    ensures SameData(p, w, r, s) <==>
            forall n :: 0 <= n < |p.steps[r].loads[s]| ==>
              p.steps[r].loads[s][n].data == MemoryAfter(p, order, At(order, r))(s, p.steps[r].loads[s][n].addr)
  {
    forall n | 0 <= n < |p.steps[r].loads[s]|
      ensures MemoryAfter(p, order, At(order, r))(s, p.steps[r].loads[s][n].addr) ==
              Datum(p, w, s, p.steps[r].loads[s][n].addr)
      ensures w != 0 ==> p.steps[w].stores[s].addr == p.steps[r].loads[s][n].addr {
      assert p.steps[r].loads[s][n].addr == p.steps[r].loads[s][0].addr;
      MemoryIsLastWrite(p, order, At(order, r), s, p.steps[r].loads[s][n].addr);
    }
  }

  /** Every read has one write it must take, whatever the values are. */
  ghost predicate SourcesDetermined(p: Prog, t: Times)
    requires Timed(p, t)
  {
    forall r, s :: Inst(p, r) && s in p.steps[r].loads ==> exists w :: Latest(p, t, r, ReadPattern(p, r, s), w)
  }

  lemma AxiomReplays(p: Prog, t: Times, order: seq<int>)
    requires Timed(p, t) && OneAddress(p) && ScAxioms(p, t) && Extends(p, t, order)
    ensures Replays(p, order)
  {
    forall k, s, n | 0 <= k < |order| && s in p.steps[order[k]].loads && 0 <= n < |p.steps[order[k]].loads[s]|
      ensures p.steps[order[k]].loads[s][n].data ==
              MemoryAfter(p, order, k)(s, p.steps[order[k]].loads[s][n].addr) {
      var r := order[k];
      assert Inst(p, r) && At(order, r) == k;
      var w :| ScReadFrom(p, t, r, s, w);
      ScReadFromSplits(p, t, r, s, w);
      LatestIsLastWrite(p, t, order, r, ReadPattern(p, r, s), w);
      ReplayedData(p, order, r, s, w);
    }
  }

  lemma ReplayGivesAxiom(p: Prog, t: Times, order: seq<int>)
    requires Timed(p, t) && OneAddress(p) && SourcesDetermined(p, t) && Extends(p, t, order) && Replays(p, order)
    ensures ScAxioms(p, t)
  {
    forall r, s | Inst(p, r) && s in p.steps[r].loads ensures exists w :: ScReadFrom(p, t, r, s, w) {
      var w :| Latest(p, t, r, ReadPattern(p, r, s), w);
      LatestIsLastWrite(p, t, order, r, ReadPattern(p, r, s), w);
      ReplayedData(p, order, r, s, w);
      var k := At(order, r);
      forall n | 0 <= n < |p.steps[r].loads[s]|
        ensures p.steps[r].loads[s][n].data == MemoryAfter(p, order, k)(s, p.steps[r].loads[s][n].addr) {
        assert p.steps[order[k]].loads[s][n] == p.steps[r].loads[s][n];
      }
      ScReadFromSplits(p, t, r, s, w);
    }
  }

  // ---------- some interleaving extends the timestamps ----------

  ghost function ArrangeSteps(p: Prog, key: int -> int, n: nat): seq<int> {
    if n <= 1 then [] else InsertBy(key, ArrangeSteps(p, key, n - 1), n - 1)
  }

  lemma {:induction false} ArrangeStepsHolds(p: Prog, key: int -> int, n: nat)
    ensures Ascending(key, ArrangeSteps(p, key, n))
    ensures forall i :: i in ArrangeSteps(p, key, n) <==> 1 <= i < n
  {
    if n > 1 {
      ArrangeStepsHolds(p, key, n - 1);
      InsertByHolds(key, ArrangeSteps(p, key, n - 1), n - 1);
      InsertByAscends(key, ArrangeSteps(p, key, n - 1), n - 1);
    }
  }

  lemma InterleavingExists(p: Prog, t: Times) returns (order: seq<int>)
    requires Timed(p, t)
    ensures Extends(p, t, order)
  {
    var key := (i: int) => if 0 <= i < |t.ts| then t.ts[i] else 0;
    order := ArrangeSteps(p, key, |p.steps|);
    ArrangeStepsHolds(p, key, |p.steps|);
    AscendingDoesNotRepeat(key, order);
    forall k | 0 <= k < |order| ensures Inst(p, order[k]) && key(order[k]) == t.ts[order[k]] {
      assert order[k] in order;
    }
  }

  // ---------- main results ----------

  /** The SC axiom holds exactly when every order that extends the timestamps replays on a
      single memory and the timestamps alone fix the write of every read. */
  lemma ScIsAtomicMemory(p: Prog, t: Times)
    requires Timed(p, t) && OneAddress(p)
    ensures ScAxioms(p, t) <==>
            (forall order :: Extends(p, t, order) ==> Replays(p, order)) && SourcesDetermined(p, t)
  {
    if ScAxioms(p, t) {
      forall order | Extends(p, t, order) ensures Replays(p, order) {
        AxiomReplays(p, t, order);
      }
      forall r, s | Inst(p, r) && s in p.steps[r].loads
        ensures exists w :: Latest(p, t, r, ReadPattern(p, r, s), w) {
        var w :| ScReadFrom(p, t, r, s, w);
        ScReadFromSplits(p, t, r, s, w);
      }
    }
    if (forall order :: Extends(p, t, order) ==> Replays(p, order)) && SourcesDetermined(p, t) {
      var order := InterleavingExists(p, t);
      ReplayGivesAxiom(p, t, order);
    }
  }

  /** A write and a read of the same register at the same time, with the initial value written
      again: every order replays, and yet the axiom fails. */
  lemma ReplayAloneIsNotEnough()
    ensures exists p, t :: Timed(p, t) && WellFormed(p) && OneAddress(p) && !ScAxioms(p, t) &&
                           forall order :: Extends(p, t, order) ==> Replays(p, order)
  {
    var init := Step("init", true, false, false, false, map[], map[]);
    var write := Step("a", true, false, false, false, map[], map["x" := Access(Register, BvV(0))]);
    var read := Step("b", true, false, false, false, map["x" := [Access(Register, BvV(0))]], map[]);
    var p := Prog((s: string, a: Value) => BvV(0), [init, write, read]);
    var t := Times([0, 1, 1], [0, 1, 1]);
    assert p.steps[2].loads["x"] == [Access(Register, BvV(0))];
    assert !ScAxioms(p, t) by {
      assert Inst(p, 2) && "x" in p.steps[2].loads;
      forall w ensures !ScReadFrom(p, t, 2, "x", w) {
        assert Writes(p, 1, "x") && SameAddress(p, 1, 2, "x") && Decoded(p, 1) by {
          assert p.steps[1].stores["x"].addr == p.steps[2].loads["x"][0].addr;
        }
      }
    }
    forall order | Extends(p, t, order) ensures Replays(p, order) {
      forall k, s, n | 0 <= k < |order| && s in p.steps[order[k]].loads && 0 <= n < |p.steps[order[k]].loads[s]|
        ensures p.steps[order[k]].loads[s][n].data ==
                MemoryAfter(p, order, k)(s, p.steps[order[k]].loads[s][n].addr) {
        MemoryIsLastWrite(p, order, k, s, p.steps[order[k]].loads[s][n].addr);
      }
    }
  }

  /** Timestamps 1, 2, 3, ... along an interleaving. */
  ghost function ScNumbered(p: Prog, order: seq<int>): (t: Times)
    requires |p.steps| > 0
    ensures Timed(p, t)
    ensures forall i :: Inst(p, i) ==> t.ts[i] == At(order, i) + 1
  {
    var ts := seq(|p.steps|, i requires 0 <= i < |p.steps| => if i == 0 then 0 else At(order, i) + 1);
    Times(ts, ts)
  }

  lemma NumberedIsDetermined(p: Prog, order: seq<int>, r: int, q: Pattern)
    requires |p.steps| > 0 && Interleaving(p, order) && Inst(p, r)
    ensures Latest(p, ScNumbered(p, order), r, q, LastWrite(p, order, At(order, r), q))
  {
    var t, k := ScNumbered(p, order), At(order, r);
    var w := LastWrite(p, order, k, q);
    forall x | x != w && x != r && Hits(p, x, q) ensures t.ts[x] < t.ts[w] || t.ts[r] < t.ts[x] {
      if x != 0 {
        assert At(order, x) != k;
        if At(order, x) < k {
          LastWriteIsLast(p, order, k, q, x);
        }
      }
    }
  }

  /** An interleaving replays on a single memory exactly when its numbering satisfies the axiom. */
  lemma InterleavingSatisfiesSc(p: Prog, order: seq<int>)
    requires |p.steps| > 0 && OneAddress(p) && Interleaving(p, order)
    ensures Replays(p, order) <==> ScAxioms(p, ScNumbered(p, order))
  {
    var t := ScNumbered(p, order);
    assert Extends(p, t, order);
    assert SourcesDetermined(p, t) by {
      forall r, s | Inst(p, r) && s in p.steps[r].loads
        ensures exists w :: Latest(p, t, r, ReadPattern(p, r, s), w) {
        NumberedIsDetermined(p, order, r, ReadPattern(p, r, s));
      }
    }
    if Replays(p, order) {
      ReplayGivesAxiom(p, t, order);
    }
    if ScAxioms(p, t) {
      AxiomReplays(p, t, order);
    }
  }

  // ---------- program order ----------

  ghost predicate ScAllowed(p: Prog) {
    exists t :: Timed(p, t) && ScAxioms(p, t) && ProgramOrdered(p, t)
  }

  /** A run of the atomic memory: an interleaving in program order that replays. */
  ghost predicate ScRun(p: Prog, order: seq<int>) {
    && Interleaving(p, order) && Replays(p, order)
    && forall i, j :: Before(p, i, j) ==> At(order, i) < At(order, j)
  }

  /** The SC constraints are satisfiable exactly when an atomic memory produces the values. */
  lemma ScIsInterleaving(p: Prog)
    requires |p.steps| > 0 && OneAddress(p)
    ensures ScAllowed(p) <==> exists order :: ScRun(p, order)
  {
    if ScAllowed(p) {
      var t :| Timed(p, t) && ScAxioms(p, t) && ProgramOrdered(p, t);
      var order := InterleavingExists(p, t);
      AxiomReplays(p, t, order);
      forall i, j | Before(p, i, j) ensures At(order, i) < At(order, j) {
        assert t.ts[order[At(order, i)]] < t.ts[order[At(order, j)]];
      }
      assert ScRun(p, order);
    }
    if order :| ScRun(p, order) {
      InterleavingSatisfiesSc(p, order);
      assert ProgramOrdered(p, ScNumbered(p, order));
    }
  }
}
