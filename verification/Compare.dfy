/** How the two memory models relate, and what TSO keeps of SC. */
module Compare {
  import opened Ast
  import opened Trace
  import opened Positions
  import opened Machine
  import opened Sc
  import opened TsoEquivalence

  // ---------- RMW ----------

  /** The writes of a core that are program-earlier than an RMW step are global before it. */
  lemma RmwDrainsBuffer(p: Prog, t: Times, i: int, w: int)
    requires WellFormed(p) && Timed(p, t) && TsoAxioms(p, t) && ProgramOrdered(p, t)
    requires Inst(p, i) && p.steps[i].rmw && Writer(p, w) && Before(p, w, i)
    ensures t.gts[w] < t.ts[i]
  {
    assert Writer(p, i) && SameCore(p, w, i);
  }

  /** No other write to the place an RMW reads becomes global between the write it reads from
      and its own write. */
  lemma RmwIsAtomic(p: Prog, t: Times, i: int, s: string, w: int, x: int)
    requires WellFormed(p) && OneAddress(p) && Timed(p, t) && TsoAxioms(p, t) && ProgramOrdered(p, t)
    requires Inst(p, i) && p.steps[i].rmw && s in p.steps[i].loads && TsoReadFrom(p, t, i, s, w)
    requires x != w && x != i && Hits(p, x, ReadPattern(p, i, s))
    ensures t.gts[w] < t.gts[i]
    ensures t.gts[x] < t.gts[w] || t.gts[i] < t.gts[x]
  {
    var q := ReadPattern(p, i, s);
    ProgramOrderedIsDistinct(p, t);
    ReadFromSplits(p, t, i, s, w);
    ValueRuleIsRfCoFr(p, t, i, q, w);
    IssueBeforeGlobal(p, t, x);
    IssueBeforeGlobal(p, t, w);
    assert Writer(p, i) && Writer(p, w) && Writer(p, x);
  }

  // ---------- every SC execution is a TSO execution ----------

  /** Facets strictly between the issue of the write and any later step; at the step for RMW. */
  ghost predicate FacetsPlaced(p: Prog, t: Times)
    requires Timed(p, t)
  {
    forall w :: Inst(p, w) && p.steps[w].stores != map[] ==>
      if p.steps[w].rmw then t.gts[w] == t.ts[w]
      else t.ts[w] < t.gts[w] && forall j :: Inst(p, j) && t.ts[w] < t.ts[j] ==> t.gts[w] < t.ts[j]
  }

  lemma PlacedFacetOrder(p: Prog, t: Times, w: int, x: int)
    requires WellFormed(p) && Timed(p, t) && FacetsPlaced(p, t)
    requires Writer(p, w) && 0 <= x < |p.steps| && t.ts[w] < t.ts[x]
    ensures t.gts[w] < t.ts[x]
    ensures Writer(p, x) ==> t.gts[w] < t.gts[x]
  {
  }

  lemma PlacedReadFrom(p: Prog, t: Times, r: int, s: string, w: int)
    requires WellFormed(p) && Timed(p, t) && FacetsPlaced(p, t)
    requires Inst(p, r) && s in p.steps[r].loads && ScReadFrom(p, t, r, s, w)
    ensures TsoReadFrom(p, t, r, s, w)
  {
    PlacedFacetOrder(p, t, w, r);
    forall x | x != w && x != r && Writes(p, x, s) && SameAddress(p, x, r, s) && Decoded(p, x)
      ensures CO(p, t, x, w) || FR(p, t, r, x) {
      if t.ts[x] < t.ts[w] {
        PlacedFacetOrder(p, t, x, w);
      } else {
        assert t.ts[r] < t.ts[x] <= t.gts[x];
      }
    }
  }

  /** Under such a placement the SC axiom implies all TSO axioms. */
  lemma ScGivesTso(p: Prog, t: Times)
    requires WellFormed(p) && Timed(p, t) && ScAxioms(p, t) && FacetsPlaced(p, t)
    ensures TsoAxioms(p, t)
  {
    forall w, x | Writer(p, w) && 0 <= x < |p.steps| && t.ts[w] < t.ts[x]
      ensures t.gts[w] < t.ts[x] && (Writer(p, x) ==> t.gts[w] < t.gts[x]) {
      PlacedFacetOrder(p, t, w, x);
    }
    forall r, s | Inst(p, r) && s in p.steps[r].loads ensures exists w :: TsoReadFrom(p, t, r, s, w) {
      var w :| ScReadFrom(p, t, r, s, w);
      PlacedReadFrom(p, t, r, s, w);
    }
  }

  /** Doubling the timestamps makes room for the facets. */
  ghost function Doubled(p: Prog, t: Times): (d: Times)
    requires Timed(p, t)
    ensures Timed(p, d)
  {
    Times(seq(|p.steps|, i requires 0 <= i < |p.steps| => 2 * t.ts[i]),
          seq(|p.steps|, i requires 0 <= i < |p.steps| =>
                if i == 0 || p.steps[i].rmw then 2 * t.ts[i] else 2 * t.ts[i] + 1))
  }

  lemma DoubledKeepsSc(p: Prog, t: Times)
    requires Timed(p, t) && ScAxioms(p, t)
    ensures ScAxioms(p, Doubled(p, t))
  {
    forall r, s | Inst(p, r) && s in p.steps[r].loads ensures exists w :: ScReadFrom(p, Doubled(p, t), r, s, w) {
      var w :| ScReadFrom(p, t, r, s, w);
      assert ScReadFrom(p, Doubled(p, t), r, s, w);
    }
  }

  lemma DoubledIsTso(p: Prog, t: Times) returns (d: Times)
    requires WellFormed(p) && Timed(p, t) && ScAxioms(p, t) && ProgramOrdered(p, t)
    ensures Timed(p, d) && TsoAxioms(p, d) && ProgramOrdered(p, d)
    ensures forall f, w :: Inst(p, f) && PureWriter(p, w) && t.ts[w] < t.ts[f] ==> d.gts[w] < d.ts[f]
  {
    d := Doubled(p, t);
    DoubledKeepsSc(p, t);
    ScGivesTso(p, d);
    assert ProgramOrdered(p, d);
  }

  /** Whatever SC allows, TSO allows. */
  lemma ScAllowedIsTsoAllowed(p: Prog)
    requires WellFormed(p) && ScAllowed(p)
    ensures TsoAllowed(p)
  {
    var t :| Timed(p, t) && ScAxioms(p, t) && ProgramOrdered(p, t);
    var d := DoubledIsTso(p, t);
  }

  // ---------- fenced TSO executions are SC executions ----------

  ghost predicate Reader(p: Prog, i: int) {
    Inst(p, i) && p.steps[i].loads != map[]
  }

  /** Between a non-RMW write and a later non-RMW read of its core stands a fence or an RMW. */
  ghost predicate Fenced(p: Prog) {
    forall w, r :: PureWriter(p, w) && Reader(p, r) && !p.steps[r].rmw && SameCore(p, w, r) && w < r ==>
      exists f :: w < f <= r && SameCore(p, f, r) && (p.steps[f].fence || p.steps[f].rmw)
  }

  ghost predicate ReadsOrWrites(p: Prog) {
    forall i :: Reader(p, i) ==> !PureWriter(p, i)
  }

  /** Every non-RMW write moved to its facet. */
  ghost function AtFacets(p: Prog, t: Times): (u: Times)
    requires Timed(p, t)
    ensures Timed(p, u)
    ensures forall i :: 0 <= i < |p.steps| ==> u.ts[i] == if PureWriter(p, i) then t.gts[i] else t.ts[i]
  {
    Times(seq(|p.steps|, i requires 0 <= i < |p.steps| => if PureWriter(p, i) then t.gts[i] else t.ts[i]), t.gts)
  }

  lemma FenceOrders(p: Prog, t: Times, w: int, r: int)
    requires WellFormed(p) && Timed(p, t) && TsoOrder(p, t) && ProgramOrdered(p, t) && Fenced(p)
    requires PureWriter(p, w) && Inst(p, r) && SameCore(p, w, r) && w < r
    requires Reader(p, r) || p.steps[r].fence || p.steps[r].rmw
    ensures t.gts[w] < t.ts[r]
  {
    var f := r;
    if !(p.steps[r].fence || p.steps[r].rmw) {
      f :| w < f <= r && SameCore(p, f, r) && (p.steps[f].fence || p.steps[f].rmw);
    }
    assert Before(p, w, f) && (f != r ==> Before(p, f, r));
    if p.steps[f].rmw {
      assert Writer(p, f) && SameCore(p, w, f);
    }
  }

  lemma PureWriterIsEarlier(p: Prog, t: Times, w: int, r: int)
    requires WellFormed(p) && Timed(p, t) && ProgramOrdered(p, t)
    requires PureWriter(p, w) && Inst(p, r) && SameCore(p, w, r) && t.ts[w] < t.ts[r]
    ensures w < r
  {
    assert w != r && !p.steps[w].final && !p.steps[r].final;
    assert !Before(p, r, w);
  }

  lemma FencedReadFrom(p: Prog, t: Times, r: int, s: string, w: int)
    requires WellFormed(p) && OneAddress(p) && Timed(p, t) && TsoAxioms(p, t) && ProgramOrdered(p, t)
    requires Fenced(p) && ReadsOrWrites(p)
    requires Inst(p, r) && s in p.steps[r].loads && TsoReadFrom(p, t, r, s, w)
    ensures ScReadFrom(p, AtFacets(p, t), r, s, w)
  {
    var u, q := AtFacets(p, t), ReadPattern(p, r, s);
    ProgramOrderedIsDistinct(p, t);
    ReadFromSplits(p, t, r, s, w);
    ScReadFromSplits(p, u, r, s, w);
    ValueRuleIsRfCoFr(p, t, r, q, w);
    assert Reader(p, r) && u.ts[r] == t.ts[r];
    forall x | Hits(p, x, q) ensures u.ts[x] == t.gts[x] && t.ts[x] <= t.gts[x] {
      IssueBeforeGlobal(p, t, x);
      assert x == 0 || p.steps[x].rmw || PureWriter(p, x);
    }
    assert t.gts[w] < t.ts[r] by {
      if PureWriter(p, w) && SameCore(p, w, r) {
        PureWriterIsEarlier(p, t, w, r);
        FenceOrders(p, t, w, r);
      }
    }
  }

  /** Moving each write to its facet turns a TSO execution of a fenced program into an SC one. */
  lemma FencedTsoIsSc(p: Prog, t: Times)
    requires WellFormed(p) && OneAddress(p) && Timed(p, t) && TsoAxioms(p, t) && ProgramOrdered(p, t)
    requires Fenced(p) && ReadsOrWrites(p)
    ensures ScAxioms(p, AtFacets(p, t))
  {
    forall r, s | Inst(p, r) && s in p.steps[r].loads
      ensures exists w :: ScReadFrom(p, AtFacets(p, t), r, s, w) {
      var w :| TsoReadFrom(p, t, r, s, w);
      FencedReadFrom(p, t, r, s, w);
    }
  }

  /** The steps whose place in the order matters to other cores. */
  ghost predicate Ordering(p: Prog, i: int) {
    Inst(p, i) && (p.steps[i].loads != map[] || p.steps[i].stores != map[] || p.steps[i].fence)
  }

  /** ... and it keeps the program order of the reads, the writes and the fences of a core. */
  lemma FencedKeepsProgramOrder(p: Prog, t: Times, i: int, j: int)
    requires WellFormed(p) && Timed(p, t) && TsoAxioms(p, t) && ProgramOrdered(p, t)
    requires Fenced(p) && ReadsOrWrites(p)
    requires Ordering(p, i) && Ordering(p, j) && SameCore(p, i, j) && i < j
    ensures AtFacets(p, t).ts[i] < AtFacets(p, t).ts[j]
  {
    assert Before(p, i, j);
    if PureWriter(p, i) {
      if PureWriter(p, j) {
        assert Writer(p, i) && Writer(p, j);
      } else {
        FenceOrders(p, t, i, j);
      }
    }
  }

  // ---------- the allowed values of a fenced program ----------

  /** Every write is global before a final step reads. */
  ghost predicate GlobalAtEnd(p: Prog, t: Times)
    requires Timed(p, t)
  {
    forall f, w :: Inst(p, f) && p.steps[f].final && PureWriter(p, w) ==> t.gts[w] < t.ts[f]
  }

  /** TSO allows the values in an execution in which the final step waits for all writes. */
  ghost predicate TsoAllowedAtEnd(p: Prog) {
    exists t :: Timed(p, t) && TsoAxioms(p, t) && ProgramOrdered(p, t) && GlobalAtEnd(p, t)
  }

  /** The latest facet of the writes of core `c` among the first n steps. */
  ghost function Drained(p: Prog, t: Times, c: string, n: nat): (d: int)
    requires Timed(p, t) && n <= |p.steps|
    ensures d >= 0
    ensures forall w :: PureWriter(p, w) && w < n && p.steps[w].core == c ==> t.gts[w] <= d
    ensures d == 0 || exists w :: PureWriter(p, w) && w < n && p.steps[w].core == c && t.gts[w] == d
  {
    if n == 0 then 0
    else
      var d := Drained(p, t, c, n - 1);
      if PureWriter(p, n - 1) && p.steps[n - 1].core == c && t.gts[n - 1] > d then t.gts[n - 1] else d
  }

  /** When a step takes place: a write at its facet, a step that orders nothing not before the
      writes that precede it. */
  ghost function Moment(p: Prog, t: Times, i: int): int
    requires Timed(p, t) && Inst(p, i)
  {
    if PureWriter(p, i) then t.gts[i]
    else if Ordering(p, i) || t.ts[i] >= Drained(p, t, p.steps[i].core, i) then t.ts[i]
    else Drained(p, t, p.steps[i].core, i)
  }

  /** Moments spread out, so that steps that order nothing fit after the moment they share. */
  ghost function Spread(p: Prog, t: Times): (u: Times)
    requires Timed(p, t)
    ensures |u.ts| == |u.gts| == |p.steps| && u.ts[0] == 0 && u.ts == u.gts
    ensures forall i :: Inst(p, i) ==>
              u.ts[i] == Moment(p, t, i) * |p.steps| + if Ordering(p, i) then 0 else i
  {
    var ts := seq(|p.steps|, i requires 0 <= i < |p.steps| =>
                  if i == 0 then 0 else Moment(p, t, i) * |p.steps| + if Ordering(p, i) then 0 else i);
    Times(ts, ts)
  }

  lemma ScaleOrder(a: int, b: int, n: int, x: int, y: int)
    requires 0 <= x < n && 0 <= y < n && (a < b || (a == b && x < y))
    ensures a * n + x < b * n + y
  {
    if a < b {
      var d := b - a;
      AtLeastOnce(d, n);
      assert (a + d) * n == a * n + d * n;
    }
  }

  lemma AtLeastOnce(d: int, n: int)
    requires d >= 1 && n >= 0
    ensures d * n >= n
  {
    if d > 1 {
      AtLeastOnce(d - 1, n);
      assert d * n == (d - 1) * n + n;
    }
  }

  lemma SpreadIsTimed(p: Prog, t: Times)
    requires Timed(p, t)
    ensures Timed(p, Spread(p, t))
  {
    forall i | Inst(p, i) ensures Spread(p, t).ts[i] > 0 {
      ScaleOrder(0, Moment(p, t, i), |p.steps|, 0, if Ordering(p, i) then 0 else i);
    }
  }

  lemma SpreadKeepsSc(p: Prog, t: Times)
    requires WellFormed(p) && Timed(p, t) && Timed(p, Spread(p, t)) && ScAxioms(p, AtFacets(p, t))
    ensures ScAxioms(p, Spread(p, t))
  {
    var a, u, n := AtFacets(p, t), Spread(p, t), |p.steps|;
    forall i, j | (i == 0 || Ordering(p, i)) && Ordering(p, j) && a.ts[i] < a.ts[j] ensures u.ts[i] < u.ts[j] {
      ScaleOrder(a.ts[i], a.ts[j], n, 0, 0);
    }
    forall r, s | Inst(p, r) && s in p.steps[r].loads ensures exists w :: ScReadFrom(p, u, r, s, w) {
      var w :| ScReadFrom(p, a, r, s, w);
      assert Ordering(p, r) && (w == 0 || Ordering(p, w));
      forall x | x != w && x != r && Writes(p, x, s) && SameAddress(p, x, r, s) && Decoded(p, x)
        ensures u.ts[x] < u.ts[w] || u.ts[r] < u.ts[x] {
        assert x == 0 || Ordering(p, x);
        assert a.ts[x] < a.ts[w] || a.ts[r] < a.ts[x];
      }
      assert ScReadFrom(p, u, r, s, w);
    }
  }

  lemma MomentsFollowProgramOrder(p: Prog, t: Times, i: int, j: int)
    requires WellFormed(p) && Timed(p, t) && TsoAxioms(p, t) && ProgramOrdered(p, t)
    requires Fenced(p) && ReadsOrWrites(p) && Before(p, i, j) && !p.steps[j].final
    ensures if Ordering(p, j) then Moment(p, t, i) < Moment(p, t, j) else Moment(p, t, i) <= Moment(p, t, j)
  {
    var c := p.steps[i].core;
    if Ordering(p, i) && Ordering(p, j) {
      FencedKeepsProgramOrder(p, t, i, j);
    } else if Ordering(p, j) {
      if Moment(p, t, i) != t.ts[i] {
        var w :| PureWriter(p, w) && w < i && p.steps[w].core == c && t.gts[w] == Moment(p, t, i);
        FencedKeepsProgramOrder(p, t, w, j);
      } else if PureWriter(p, j) {
        assert t.ts[j] < t.gts[j];
      }
    }
  }

  /** The final step comes after the moments of all other steps. */
  lemma FinalMomentIsLast(p: Prog, t: Times, i: int, j: int)
    requires WellFormed(p) && Timed(p, t) && ProgramOrdered(p, t) && GlobalAtEnd(p, t)
    requires Before(p, i, j) && p.steps[j].final
    ensures Moment(p, t, i) < Moment(p, t, j)
  {
    assert t.ts[j] <= Moment(p, t, j);
    if Moment(p, t, i) != t.ts[i] {
      var w :| PureWriter(p, w) && t.gts[w] == Moment(p, t, i);
    }
  }

  lemma SpreadFollowsProgramOrder(p: Prog, t: Times, i: int, j: int)
    requires WellFormed(p) && Timed(p, t) && TsoAxioms(p, t) && ProgramOrdered(p, t) && GlobalAtEnd(p, t)
    requires Fenced(p) && ReadsOrWrites(p) && Before(p, i, j)
    ensures Spread(p, t).ts[i] < Spread(p, t).ts[j]
  {
    if p.steps[j].final {
      FinalMomentIsLast(p, t, i, j);
    } else {
      MomentsFollowProgramOrder(p, t, i, j);
    }
    ScaleOrder(Moment(p, t, i), Moment(p, t, j), |p.steps|,
               if Ordering(p, i) then 0 else i, if Ordering(p, j) then 0 else j);
  }

  lemma SpreadIsProgramOrdered(p: Prog, t: Times)
    requires WellFormed(p) && Timed(p, t) && TsoAxioms(p, t) && ProgramOrdered(p, t) && GlobalAtEnd(p, t)
    requires Fenced(p) && ReadsOrWrites(p) && Timed(p, Spread(p, t))
    ensures ProgramOrdered(p, Spread(p, t))
  {
    forall i, j | Before(p, i, j) ensures Spread(p, t).ts[i] < Spread(p, t).ts[j] {
      SpreadFollowsProgramOrder(p, t, i, j);
    }
  }

  lemma ScIsGlobalAtEnd(p: Prog, t: Times)
    requires WellFormed(p) && Timed(p, t) && ScAxioms(p, t) && ProgramOrdered(p, t)
    ensures TsoAllowedAtEnd(p)
  {
    var d := DoubledIsTso(p, t);
    forall f, w | Inst(p, f) && p.steps[f].final && PureWriter(p, w) ensures d.gts[w] < d.ts[f] {
      assert Before(p, w, f);
    }
  }

  /** For fenced programs SC allows what TSO allows with all writes global at the end. */
  lemma FencedAtEndIsSc(p: Prog)
    requires WellFormed(p) && OneAddress(p) && Fenced(p) && ReadsOrWrites(p)
    ensures TsoAllowedAtEnd(p) <==> ScAllowed(p)
  {
    if ScAllowed(p) {
      var t :| Timed(p, t) && ScAxioms(p, t) && ProgramOrdered(p, t);
      ScIsGlobalAtEnd(p, t);
    }
    if TsoAllowedAtEnd(p) {
      var t :| Timed(p, t) && TsoAxioms(p, t) && ProgramOrdered(p, t) && GlobalAtEnd(p, t);
      FencedTsoIsSc(p, t);
      SpreadIsTimed(p, t);
      SpreadKeepsSc(p, t);
      SpreadIsProgramOrdered(p, t);
    }
  }

  ghost predicate NoFinal(p: Prog) {
    forall i :: Inst(p, i) ==> !p.steps[i].final
  }

  /** Without a final step the two models allow the same values. */
  lemma FencedModelsAgree(p: Prog)
    requires WellFormed(p) && OneAddress(p) && Fenced(p) && ReadsOrWrites(p) && NoFinal(p)
    ensures TsoAllowed(p) <==> ScAllowed(p)
  {
    FencedAtEndIsSc(p);
    if TsoAllowed(p) {
      var t :| Timed(p, t) && TsoAxioms(p, t) && ProgramOrdered(p, t);
      assert GlobalAtEnd(p, t);
    }
  }

  /** With a final step they do not: it may read the initial value while a store is still buffered. */
  lemma FinalStepMissesStore()
    ensures exists p :: WellFormed(p) && OneAddress(p) && Fenced(p) && ReadsOrWrites(p) && TsoAllowed(p) && !ScAllowed(p)
  {
    var init := Step("global", true, false, false, false, map[], map[]);
    var write := Step("a", true, false, false, false, map[], map["x" := Access(Register, BvV(1))]);
    var final := Step("global", true, false, false, true, map["x" := [Access(Register, BvV(0))]], map[]);
    var p := Prog((s: string, a: Value) => BvV(0), [init, write, final]);
    assert StoreThenFinal(p);
    StoreThenFinalIsFenced(p);
    BufferedAtEnd(p);
    StoreIsSeen(p);
  }

  ghost predicate StoreThenFinal(p: Prog) {
    && |p.steps| == 3 && p.init("x", Register) == BvV(0)
    && p.steps[0] == Step("global", true, false, false, false, map[], map[])
    && p.steps[1] == Step("a", true, false, false, false, map[], map["x" := Access(Register, BvV(1))])
    && p.steps[2] == Step("global", true, false, false, true, map["x" := [Access(Register, BvV(0))]], map[])
  }

  lemma StoreThenFinalIsFenced(p: Prog)
    requires StoreThenFinal(p)
    ensures WellFormed(p) && OneAddress(p) && Fenced(p) && ReadsOrWrites(p)
  {
  }

  lemma BufferedAtEnd(p: Prog)
    requires StoreThenFinal(p)
    ensures TsoAllowed(p)
  {
    var t := Times([0, 1, 2], [0, 3, 2]);
    assert Timed(p, t) && ProgramOrdered(p, t);
    BufferedReads(p, t);
    assert TsoOrder(p, t);
  }

  lemma BufferedReads(p: Prog, t: Times)
    requires StoreThenFinal(p) && t == Times([0, 1, 2], [0, 3, 2]) && Timed(p, t)
    ensures TsoRfCoFr(p, t)
  {
    forall r, s | Inst(p, r) && s in p.steps[r].loads ensures exists w :: TsoReadFrom(p, t, r, s, w) {
      assert TsoReadFrom(p, t, r, s, 0);
    }
  }

  lemma StoreIsSeen(p: Prog)
    requires StoreThenFinal(p)
    ensures !ScAllowed(p)
  {
    if t :| Timed(p, t) && ScAxioms(p, t) && ProgramOrdered(p, t) {
      assert Inst(p, 2) && "x" in p.steps[2].loads && Before(p, 1, 2);
      var w :| ScReadFrom(p, t, 2, "x", w);
      assert p.steps[1].stores["x"].addr == p.steps[2].loads["x"][0].addr;
      assert Writes(p, 1, "x") && SameAddress(p, 1, 2, "x") && Decoded(p, 1);
      assert false;
    }
  }
}
