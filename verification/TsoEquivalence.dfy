/** Complete runs of the store-buffer machine are exactly the executions the TSO axioms admit. */
module TsoEquivalence {
  import opened Ast
  import opened Trace
  import opened Machine
  import opened Positions
  import opened TsoMachine

  // ---------- from a run to timestamps ----------

  lemma RunEnumerates(p: Prog, run: seq<Event>)
    requires TsoRun(p, run)
    ensures Enumerates(p, run) && IssuedFirst(run, |run|)
  {
    forall k | 0 <= k < |run| ensures At(run, run[k]) == k && EventOf(p, run[k]) {
      AcceptedAt(p, run, |run|, k);
      BuffersHold(p, run, k);
      EventStep(p, run, k, After(p, run, k));
    }
    BuffersHold(p, run, |run|);
    forall ev | EventOf(p, ev) ensures At(run, ev) < |run| {
      match ev
      case Issue(i) =>
      case Perform(i) =>
        var c := p.steps[i].core;
        assert ContentsAre(p, run, |run|, c, Buffer(After(p, run, |run|), c));
        assert !Pending(p, run, |run|, c, i);
        assert At(run, Issue(i)) < |run|;
    }
  }

  lemma HeadIsOldest(p: Prog, run: seq<Event>, k: nat, c: string, b: seq<int>)
    requires b != [] && ContentsAre(p, run, k, c, b)
    ensures forall x :: Pending(p, run, k, c, x) ==> x == b[0] || At(run, Issue(b[0])) < At(run, Issue(x))
  {
    forall x | Pending(p, run, k, c, x) ensures x == b[0] || At(run, Issue(b[0])) < At(run, Issue(x)) {
      var j :| 0 <= j < |b| && b[j] == x;
    }
  }

  /** The oldest buffered write leaves first. */
  lemma LeavesInOrder(p: Prog, run: seq<Event>, w1: int, w2: int)
    requires TsoRun(p, run) && PureWriter(p, w1) && PureWriter(p, w2) && p.steps[w1].core == p.steps[w2].core
    requires At(run, Issue(w1)) < At(run, Issue(w2))
    ensures At(run, Perform(w1)) < At(run, Perform(w2))
  {
    RunEnumerates(p, run);
    var k, c := At(run, Perform(w2)), p.steps[w1].core;
    AcceptedAt(p, run, |run|, k);
    BuffersHold(p, run, k);
    var b := Buffer(After(p, run, k), c);
    assert ContentsAre(p, run, k, c, b);
    HeadIsOldest(p, run, k, c, b);
    assert !Pending(p, run, k, c, w1);
  }

  /** An event that waits for an empty buffer comes after every earlier write of its core. */
  lemma WaitsForBuffer(p: Prog, run: seq<Event>, w: int, f: int)
    requires TsoRun(p, run) && PureWriter(p, w) && Inst(p, f) && p.steps[w].core == p.steps[f].core
    requires p.steps[f].fence || p.steps[f].rmw
    requires At(run, Issue(w)) < At(run, Issue(f))
    ensures At(run, Perform(w)) < At(run, Issue(f))
  {
    RunEnumerates(p, run);
    var k, c := At(run, Issue(f)), p.steps[f].core;
    assert EventOf(p, Issue(f));
    AcceptedAt(p, run, |run|, k);
    BuffersHold(p, run, k);
    assert ContentsAre(p, run, k, c, Buffer(After(p, run, k), c));
    assert !Pending(p, run, k, c, w);
  }

  lemma RunKeepsStores(p: Prog, run: seq<Event>)
    requires WellFormed(p) && TsoRun(p, run)
    ensures TsoStore(p, Numbered(p, run))
  {
    RunEnumerates(p, run);
    var t := Numbered(p, run);
    forall w1, w2 | Writer(p, w1) && Writer(p, w2) && w1 != w2 && SameCore(p, w1, w2) && t.ts[w1] < t.ts[w2]
      ensures t.gts[w1] < t.gts[w2] {
      if PureWriter(p, w1) && PureWriter(p, w2) {
        LeavesInOrder(p, run, w1, w2);
      } else if PureWriter(p, w1) {
        WaitsForBuffer(p, run, w1, w2);
      } else if PureWriter(p, w2) {
        assert EventOf(p, Perform(w2));
      }
    }
  }

  lemma RunIsOrdered(p: Prog, run: seq<Event>)
    requires WellFormed(p) && TsoRun(p, run)
    ensures OrderedRun(p, run)
  {
    RunEnumerates(p, run);
    var t := Numbered(p, run);
    forall w | PureWriter(p, w) ensures t.ts[w] < t.gts[w] {
      assert EventOf(p, Perform(w));
    }
    RunKeepsStores(p, run);
    forall f, w | Inst(p, f) && p.steps[f].fence && Writer(p, w) && SameCore(p, w, f) && t.ts[w] < t.ts[f]
      ensures t.gts[w] < t.ts[f] {
      if PureWriter(p, w) {
        WaitsForBuffer(p, run, w, f);
      }
    }
  }

  lemma RunIsProgramOrdered(p: Prog, run: seq<Event>)
    requires WellFormed(p) && TsoRun(p, run)
    ensures ProgramOrdered(p, Numbered(p, run))
  {
    RunEnumerates(p, run);
    forall i, j | Before(p, i, j) ensures At(run, Issue(i)) < At(run, Issue(j)) {
      assert EventOf(p, Issue(j));
      AcceptedAt(p, run, |run|, At(run, Issue(j)));
      BuffersHold(p, run, At(run, Issue(j)));
    }
  }

  lemma NumbersDoNotTie(p: Prog, run: seq<Event>, r: int, q: Pattern, w: int)
    requires WellFormed(p) && Enumerates(p, run) && Inst(p, r) && 0 <= w < |p.steps|
    ensures NoTie(p, Numbered(p, run), r, q, w)
  {
    forall w2 | w2 != r && w2 != w && Hits(p, w2, q) && w2 != 0
      ensures At(run, GlobalEvent(p, w2)) != At(run, Issue(r)) {
      assert EventOf(p, Issue(r));
    }
  }

  /** What a step loads is what its source wrote. */
  lemma SourceHasData(p: Prog, run: seq<Event>, k: nat, r: int, s: string)
    requires WellFormed(p) && OneAddress(p) && k <= |run| && Accepted(p, run, k)
    requires Inst(p, r) && s in p.steps[r].loads && LoadsMatch(p, After(p, run, k), r)
    ensures
      var w := Source(p, run, k, p.steps[r].core, ReadPattern(p, r, s));
      Writes(p, w, s) && SameData(p, w, r, s)
  {
    var w := Source(p, run, k, p.steps[r].core, ReadPattern(p, r, s));
    var ls := p.steps[r].loads[s];
    forall n {:trigger ls[n]} | 0 <= n < |ls| ensures ls[n].data == Datum(p, w, s, ls[n].addr) {
      assert ls[n].addr == p.steps[r].loads[s][0].addr;
      LoadIsSource(p, run, k, p.steps[r].core, s, p.steps[r].loads[s][n].addr);
    }
  }

  lemma RunReads(p: Prog, run: seq<Event>, r: int, s: string)
    requires WellFormed(p) && OneAddress(p) && TsoRun(p, run) && Inst(p, r) && s in p.steps[r].loads
    ensures exists w :: TsoReadFrom(p, Numbered(p, run), r, s, w)
  {
    RunIsOrdered(p, run);
    RunIsProgramOrdered(p, run);
    var t, k, q := Numbered(p, run), At(run, Issue(r)), ReadPattern(p, r, s);
    ProgramOrderedIsDistinct(p, t);
    assert EventOf(p, Issue(r));
    AcceptedAt(p, run, |run|, k);
    BuffersHold(p, run, k);
    SourceObeysValueRule(p, run, r, q);
    var w := Source(p, run, k, p.steps[r].core, q);
    NumbersDoNotTie(p, run, r, q, w);
    ValueRuleIsRfCoFr(p, t, r, q, w);
    SourceHasData(p, run, k, r, s);
    ReadFromSplits(p, t, r, s, w);
  }

  /** Every complete machine run yields timestamps that satisfy all axioms. */
  lemma RunSatisfiesAxioms(p: Prog, run: seq<Event>)
    requires WellFormed(p) && OneAddress(p) && TsoRun(p, run)
    ensures TsoAxioms(p, Numbered(p, run)) && ProgramOrdered(p, Numbered(p, run)) && Enumerates(p, run)
  {
    RunIsOrdered(p, run);
    RunIsProgramOrdered(p, run);
    forall r, s | Inst(p, r) && s in p.steps[r].loads
      ensures exists w :: TsoReadFrom(p, Numbered(p, run), r, s, w) {
      RunReads(p, run, r, s);
    }
  }

  // ---------- from timestamps to a run ----------

  ghost predicate Admissible(p: Prog, run: seq<Event>) {
    && WellFormed(p) && OneAddress(p) && Enumerates(p, run)
    && TsoAxioms(p, Numbered(p, run)) && ProgramOrdered(p, Numbered(p, run))
  }

  lemma PerformEnabled(p: Prog, run: seq<Event>, k: nat, m: State, i: int)
    requires Admissible(p, run) && k < |run| && run[k] == Perform(i) && BuffersAre(p, run, k, m)
    ensures Enabled(p, m, run[k])
  {
    var c, t := p.steps[i].core, Numbered(p, run);
    var b := Buffer(m, c);
    assert EventOf(p, run[k]) && At(run, run[k]) == k;
    assert ContentsAre(p, run, k, c, b);
    assert t.ts[i] < t.gts[i];
    assert Pending(p, run, k, c, i);
    assert i in b;
    HeadIsOldest(p, run, k, c, b);
    assert b[0] in b && SameCore(p, b[0], i);
    assert t.gts[b[0]] >= t.gts[i];
  }

  lemma BufferEmptyAt(p: Prog, run: seq<Event>, k: nat, b: seq<int>, i: int)
    requires Admissible(p, run) && k < |run| && run[k] == Issue(i) && ContentsAre(p, run, k, p.steps[i].core, b)
    requires Inst(p, i) && (p.steps[i].fence || p.steps[i].rmw)
    ensures b == []
  {
    var t := Numbered(p, run);
    assert At(run, run[k]) == k;
    if b != [] {
      var x := b[0];
      assert Pending(p, run, k, p.steps[i].core, x) && SameCore(p, x, i);
    }
  }

  lemma LoadsMatchAt(p: Prog, run: seq<Event>, k: nat, i: int)
    requires Admissible(p, run) && k < |run| && run[k] == Issue(i) && Accepted(p, run, k)
    ensures LoadsMatch(p, After(p, run, k), i)
  {
    var t, m := Numbered(p, run), After(p, run, k);
    assert EventOf(p, run[k]) && At(run, run[k]) == k;
    ProgramOrderedIsDistinct(p, t);
    BuffersHold(p, run, k);
    forall s, n | s in p.steps[i].loads && 0 <= n < |p.steps[i].loads[s]|
      ensures p.steps[i].loads[s][n].data == LoadValue(p, m, p.steps[i].core, s, p.steps[i].loads[s][n].addr) {
      var q := ReadPattern(p, i, s);
      var w :| TsoReadFrom(p, t, i, s, w);
      ReadFromSplits(p, t, i, s, w);
      ValueRuleIsRfCoFr(p, t, i, q, w);
      SourceObeysValueRule(p, run, i, q);
      ValueRuleUnique(p, t, i, q, w, Source(p, run, k, p.steps[i].core, q));
      assert p.steps[i].loads[s][n].addr == p.steps[i].loads[s][0].addr;
      LoadIsSource(p, run, k, p.steps[i].core, s, p.steps[i].loads[s][n].addr);
    }
  }

  lemma EventEnabled(p: Prog, run: seq<Event>, k: nat)
    requires Admissible(p, run) && k < |run| && Accepted(p, run, k)
    ensures Enabled(p, After(p, run, k), run[k])
  {
    var m := After(p, run, k);
    BuffersHold(p, run, k);
    assert EventOf(p, run[k]) && At(run, run[k]) == k;
    match run[k]
    case Perform(i) => PerformEnabled(p, run, k, m, i);
    case Issue(i) =>
      LoadsMatchAt(p, run, k, i);
      forall j | Before(p, j, i) ensures j in m.issued {
        assert Numbered(p, run).ts[j] < Numbered(p, run).ts[i];
      }
      if p.steps[i].fence || p.steps[i].rmw {
        BufferEmptyAt(p, run, k, Buffer(m, p.steps[i].core), i);
      }
  }

  lemma AcceptedNext(p: Prog, run: seq<Event>, k: nat)
    requires k < |run| && Accepted(p, run, k) && Enabled(p, After(p, run, k), run[k])
    ensures Accepted(p, run, k + 1)
  {
  }

  lemma {:induction false} AxiomsAccept(p: Prog, run: seq<Event>, k: nat)
    requires Admissible(p, run) && k <= |run|
    ensures Accepted(p, run, k)
  {
    if k > 0 {
      AxiomsAccept(p, run, k - 1);
      EventEnabled(p, run, k - 1);
      AcceptedNext(p, run, k - 1);
    }
  }

  lemma EnumerationCompletes(p: Prog, run: seq<Event>)
    requires Enumerates(p, run) && Accepted(p, run, |run|)
    ensures Complete(p, run)
  {
    var m := After(p, run, |run|);
    BuffersHold(p, run, |run|);
    forall i | Inst(p, i) ensures i in m.issued && Buffer(m, p.steps[i].core) == [] {
      var c := p.steps[i].core;
      assert EventOf(p, Issue(i));
      assert ContentsAre(p, run, |run|, c, Buffer(m, c));
      if Buffer(m, c) != [] {
        var x := Buffer(m, c)[0];
        assert Pending(p, run, |run|, c, x) && EventOf(p, Perform(x));
      }
    }
  }

  /** A sequence of all events is a complete machine run exactly when the timestamps read off
      it satisfy the axioms and follow program order. */
  lemma RunsAreNumberedExecutions(p: Prog, run: seq<Event>)
    requires WellFormed(p) && OneAddress(p)
    ensures TsoRun(p, run) <==>
            Enumerates(p, run) && TsoAxioms(p, Numbered(p, run)) && ProgramOrdered(p, Numbered(p, run))
  {
    if TsoRun(p, run) {
      RunSatisfiesAxioms(p, run);
    }
    if Admissible(p, run) {
      AxiomsAccept(p, run, |run|);
      EnumerationCompletes(p, run);
    }
  }

  // ---------- from any timestamps to a run ----------

  lemma TimeOrdersPositions(p: Prog, t: Times, run: seq<Event>, a: Event, b: Event)
    requires Timed(p, t) && Linearises(p, t, run) && EventOf(p, a) && EventOf(p, b)
    requires EventTime(p, t, a) < EventTime(p, t, b)
    ensures At(run, a) < At(run, b)
  {
    assert At(run, a) != At(run, b);
  }

  /** Strict order of issue and of global performance survives the numbering. */
  lemma NumberingKeepsOrder(p: Prog, t: Times, run: seq<Event>, i: int, j: int)
    requires WellFormed(p) && Timed(p, t) && Linearises(p, t, run) && TsoRmw(p, t)
    requires 0 <= i < |p.steps| && 0 <= j < |p.steps|
    ensures Inst(p, j) && t.ts[i] < t.ts[j] ==> Numbered(p, run).ts[i] < Numbered(p, run).ts[j]
    ensures Writer(p, i) && Inst(p, j) && t.gts[i] < t.ts[j] ==> Numbered(p, run).gts[i] < Numbered(p, run).ts[j]
    ensures Inst(p, i) && Writer(p, j) && t.ts[i] < t.gts[j] ==> Numbered(p, run).ts[i] < Numbered(p, run).gts[j]
    ensures Writer(p, i) && Writer(p, j) && t.gts[i] < t.gts[j] ==> Numbered(p, run).gts[i] < Numbered(p, run).gts[j]
  {
    forall a, b | EventOf(p, a) && EventOf(p, b) && EventTime(p, t, a) < EventTime(p, t, b)
      ensures At(run, a) < At(run, b) {
      TimeOrdersPositions(p, t, run, a, b);
    }
    if Inst(p, i) {
      assert EventOf(p, Issue(i));
      assert Writer(p, i) ==> EventOf(p, GlobalEvent(p, i)) && EventTime(p, t, GlobalEvent(p, i)) == t.gts[i];
    }
    if Inst(p, j) {
      assert EventOf(p, Issue(j));
      assert Writer(p, j) ==> EventOf(p, GlobalEvent(p, j)) && EventTime(p, t, GlobalEvent(p, j)) == t.gts[j];
    }
  }

  lemma NumberingKeepsReads(p: Prog, t: Times, run: seq<Event>, r: int, s: string, w: int)
    requires WellFormed(p) && Timed(p, t) && Linearises(p, t, run) && TsoRmw(p, t)
    requires Inst(p, r) && s in p.steps[r].loads && TsoReadFrom(p, t, r, s, w)
    ensures TsoReadFrom(p, Numbered(p, run), r, s, w)
  {
    var n := Numbered(p, run);
    NumberingKeepsOrder(p, t, run, w, r);
    forall w2 | w2 != w && w2 != r && Writes(p, w2, s) && SameAddress(p, w2, r, s) && Decoded(p, w2)
      ensures CO(p, n, w2, w) || FR(p, n, r, w2) {
      NumberingKeepsOrder(p, t, run, w2, w);
      NumberingKeepsOrder(p, t, run, r, w2);
    }
  }

  lemma NumberingKeepsStoreAndFence(p: Prog, t: Times, run: seq<Event>)
    requires WellFormed(p) && Timed(p, t) && Linearises(p, t, run)
    requires TsoOrder(p, t) && CoreDistinct(p, t)
    ensures TsoOrder(p, Numbered(p, run))
  {
    var n := Numbered(p, run);
    forall w | PureWriter(p, w) ensures n.ts[w] < n.gts[w] {
      NumberingKeepsOrder(p, t, run, w, w);
    }
    forall w1, w2 | Writer(p, w1) && Writer(p, w2) && w1 != w2 && SameCore(p, w1, w2) && n.ts[w1] < n.ts[w2]
      ensures n.gts[w1] < n.gts[w2] {
      NumberingKeepsOrder(p, t, run, w2, w1);
      NumberingKeepsOrder(p, t, run, w1, w2);
    }
    forall f, w | Inst(p, f) && p.steps[f].fence && Writer(p, w) && SameCore(p, w, f) && n.ts[w] < n.ts[f]
      ensures n.gts[w] < n.ts[f] {
      NumberingKeepsOrder(p, t, run, f, w);
      NumberingKeepsOrder(p, t, run, w, f);
    }
  }

  /** Breaking ties in any way keeps the axioms. */
  lemma NumberingKeepsAxioms(p: Prog, t: Times, run: seq<Event>)
    requires WellFormed(p) && Timed(p, t) && Linearises(p, t, run)
    requires TsoAxioms(p, t) && ProgramOrdered(p, t)
    ensures TsoAxioms(p, Numbered(p, run)) && ProgramOrdered(p, Numbered(p, run))
  {
    var n := Numbered(p, run);
    ProgramOrderedIsDistinct(p, t);
    NumberingKeepsStoreAndFence(p, t, run);
    forall r, s | Inst(p, r) && s in p.steps[r].loads ensures exists w :: TsoReadFrom(p, n, r, s, w) {
      var w :| TsoReadFrom(p, t, r, s, w);
      NumberingKeepsReads(p, t, run, r, s, w);
    }
    forall i, j | Before(p, i, j) ensures n.ts[i] < n.ts[j] {
      NumberingKeepsOrder(p, t, run, i, j);
    }
  }

  /** Every order of the events that extends timestamps satisfying the axioms is a complete run
      of the store-buffer machine. */
  lemma AxiomsLinearise(p: Prog, t: Times, run: seq<Event>)
    requires WellFormed(p) && OneAddress(p) && Timed(p, t) && Linearises(p, t, run)
    requires TsoAxioms(p, t) && ProgramOrdered(p, t)
    ensures TsoRun(p, run)
  {
    NumberingKeepsAxioms(p, t, run);
    RunsAreNumberedExecutions(p, run);
  }

  // ---------- some order extends the timestamps ----------

  ghost function TimeKey(p: Prog, t: Times): Event -> int
    requires Timed(p, t)
  {
    ev => if EventOf(p, ev) then EventTime(p, t, ev) else 0
  }

  /** The events of steps below n, in time order. */
  ghost function Arrange(p: Prog, key: Event -> int, n: nat): seq<Event> {
    if n <= 1 then [] else InsertEvents(p, key, Arrange(p, key, n - 1), n - 1)
  }

  ghost function InsertEvents(p: Prog, key: Event -> int, s: seq<Event>, i: int): seq<Event> {
    var r := InsertBy(key, s, Issue(i));
    if PureWriter(p, i) then InsertBy(key, r, Perform(i)) else r
  }

  lemma InsertEventsHolds(p: Prog, key: Event -> int, s: seq<Event>, i: int)
    requires Ascending(key, s) && Issue(i) !in s && Perform(i) !in s
    ensures Ascending(key, InsertEvents(p, key, s, i))
    ensures forall e :: e in InsertEvents(p, key, s, i) <==>
                        e in s || e == Issue(i) || (PureWriter(p, i) && e == Perform(i))
  {
    var r := InsertBy(key, s, Issue(i));
    InsertByHolds(key, s, Issue(i));
    InsertByAscends(key, s, Issue(i));
    InsertByHolds(key, r, Perform(i));
    if PureWriter(p, i) {
      InsertByAscends(key, r, Perform(i));
    }
  }

  lemma {:induction false} ArrangeHolds(p: Prog, key: Event -> int, n: nat)
    requires n <= |p.steps|
    ensures Ascending(key, Arrange(p, key, n))
    ensures forall e :: e in Arrange(p, key, n) <==> EventOf(p, e) && e.step < n
  {
    if n > 1 {
      ArrangeHolds(p, key, n - 1);
      InsertEventsHolds(p, key, Arrange(p, key, n - 1), n - 1);
    }
  }

  lemma LinearisationExists(p: Prog, t: Times) returns (run: seq<Event>)
    requires Timed(p, t)
    ensures Linearises(p, t, run)
  {
    var key := TimeKey(p, t);
    run := Arrange(p, key, |p.steps|);
    ArrangeHolds(p, key, |p.steps|);
    AscendingDoesNotRepeat(key, run);
    forall k | 0 <= k < |run| ensures EventOf(p, run[k]) && EventTime(p, t, run[k]) == key(run[k]) {
      assert run[k] in run;
    }
    forall ev | EventOf(p, ev) ensures At(run, ev) < |run| {
      assert ev in run;
    }
  }

  /** The values of a candidate execution are allowed by the TSO constraints. */
  ghost predicate TsoAllowed(p: Prog) {
    exists t :: Timed(p, t) && TsoAxioms(p, t) && ProgramOrdered(p, t)
  }

  /** The TSO constraints are satisfiable exactly when a complete run of the store-buffer
      machine produces the values of the candidate execution. */
  lemma TsoIsStoreBufferMachine(p: Prog)
    requires WellFormed(p) && OneAddress(p)
    ensures TsoAllowed(p) <==> exists run :: TsoRun(p, run)
  {
    if TsoAllowed(p) {
      var t :| Timed(p, t) && TsoAxioms(p, t) && ProgramOrdered(p, t);
      var run := LinearisationExists(p, t);
      AxiomsLinearise(p, t, run);
    }
    if run :| TsoRun(p, run) {
      RunSatisfiesAxioms(p, run);
    }
  }
}
