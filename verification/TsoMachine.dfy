/** The TSO axioms and the store-buffer machine describe the same executions. */
module TsoMachine {
  import opened Ast
  import opened Trace
  import opened Machine
  import opened Positions

  // ---------- the buffers after k events ----------

  ghost predicate IssuedAre(p: Prog, run: seq<Event>, k: nat, m: State) {
    forall i :: Inst(p, i) ==> (i in m.issued <==> At(run, Issue(i)) < k)
  }

  /** Step `x` sits in the buffer of core `c` after k events. */
  ghost predicate Pending(p: Prog, run: seq<Event>, k: nat, c: string, x: int) {
    PureWriter(p, x) && p.steps[x].core == c && At(run, Issue(x)) < k <= At(run, Perform(x))
  }

  ghost predicate ContentsAre(p: Prog, run: seq<Event>, k: nat, c: string, b: seq<int>) {
    && (forall x :: x in b <==> Pending(p, run, k, c, x))
    && (forall i, j :: 0 <= i < j < |b| ==> At(run, Issue(b[i])) < At(run, Issue(b[j])))
  }

  ghost predicate IssuedFirst(run: seq<Event>, k: nat) {
    forall x :: At(run, Perform(x)) < k ==> At(run, Issue(x)) < At(run, Perform(x))
  }

  /** Buffers hold exactly the issued and not yet performed writes of their core, in the order
      they were issued. */
  ghost predicate BuffersAre(p: Prog, run: seq<Event>, k: nat, m: State) {
    && IssuedAre(p, run, k, m)
    && (forall c :: ContentsAre(p, run, k, c, Buffer(m, c)))
    && IssuedFirst(run, k)
  }

  lemma EventStep(p: Prog, run: seq<Event>, k: nat, m: State)
    requires k < |run| && BuffersAre(p, run, k, m) && Enabled(p, m, run[k])
    ensures At(run, run[k]) == k && EventOf(p, run[k])
    ensures IssuedFirst(run, k + 1)
  {
    match run[k]
    case Issue(i) =>
    case Perform(i) =>
      assert ContentsAre(p, run, k, p.steps[i].core, Buffer(m, p.steps[i].core));
      assert Pending(p, run, k, p.steps[i].core, i);
  }

  lemma BufferAfterIssue(p: Prog, run: seq<Event>, k: nat, c: string, b: seq<int>, i: int)
    requires k < |run| && run[k] == Issue(i) && At(run, Issue(i)) == k && IssuedFirst(run, k)
    requires ContentsAre(p, run, k, c, b)
    ensures ContentsAre(p, run, k + 1, c, if PureWriter(p, i) && p.steps[i].core == c then b + [i] else b)
  {
    forall j | 0 <= j < |b| ensures At(run, Issue(b[j])) < k {
      assert b[j] in b;
    }
    forall x ensures Pending(p, run, k + 1, c, x) <==>
        Pending(p, run, k, c, x) || (x == i && PureWriter(p, i) && p.steps[i].core == c) {
    }
  }

  lemma BufferAfterPerform(p: Prog, run: seq<Event>, k: nat, c: string, b: seq<int>, i: int)
    requires k < |run| && run[k] == Perform(i) && At(run, Perform(i)) == k && PureWriter(p, i)
    requires ContentsAre(p, run, k, c, b)
    requires p.steps[i].core == c ==> b != [] && b[0] == i
    ensures ContentsAre(p, run, k + 1, c, if p.steps[i].core == c then b[1..] else b)
  {
    var b' := if p.steps[i].core == c then b[1..] else b;
    forall x ensures x in b' <==> Pending(p, run, k + 1, c, x) {
      assert x in b <==> Pending(p, run, k, c, x);
      if p.steps[i].core == c {
        assert b == [i] + b';
        assert forall j :: 0 <= j < |b'| ==> b'[j] == b[j + 1];
      }
    }
  }

  lemma IssueChangesBuffer(p: Prog, m: State, i: int, c: string)
    requires Inst(p, i)
    ensures Buffer(Next(p, m, Issue(i)), c) ==
            if PureWriter(p, i) && p.steps[i].core == c then Buffer(m, c) + [i] else Buffer(m, c)
  {
  }

  lemma PerformChangesBuffer(p: Prog, m: State, i: int, c: string)
    requires Inst(p, i) && Buffer(m, p.steps[i].core) != []
    ensures Buffer(Next(p, m, Perform(i)), c) ==
            if p.steps[i].core == c then Buffer(m, c)[1..] else Buffer(m, c)
  {
  }

  lemma BuffersStep(p: Prog, run: seq<Event>, k: nat, m: State)
    requires k < |run| && BuffersAre(p, run, k, m) && Enabled(p, m, run[k])
    ensures BuffersAre(p, run, k + 1, Next(p, m, run[k]))
  {
    EventStep(p, run, k, m);
    var m' := Next(p, m, run[k]);
    forall c ensures ContentsAre(p, run, k + 1, c, Buffer(m', c)) {
      assert ContentsAre(p, run, k, c, Buffer(m, c));
      match run[k]
      case Issue(i) =>
        IssueChangesBuffer(p, m, i, c);
        BufferAfterIssue(p, run, k, c, Buffer(m, c), i);
      case Perform(i) =>
        PerformChangesBuffer(p, m, i, c);
        BufferAfterPerform(p, run, k, c, Buffer(m, c), i);
    }
    assert IssuedAre(p, run, k + 1, m');
  }

  lemma BuffersStart(p: Prog, run: seq<Event>, m: State)
    requires m.issued == {} && m.buffer == map[]
    ensures BuffersAre(p, run, 0, m)
  {
    forall c ensures ContentsAre(p, run, 0, c, Buffer(m, c)) {
      assert Buffer(m, c) == [];
    }
  }

  lemma {:induction false} BuffersHold(p: Prog, run: seq<Event>, k: nat)
    requires k <= |run| && Accepted(p, run, k)
    ensures BuffersAre(p, run, k, After(p, run, k))
  {
    if k == 0 {
      BuffersStart(p, run, After(p, run, 0));
    } else {
      BuffersHold(p, run, k - 1);
      BuffersStep(p, run, k - 1, After(p, run, k - 1));
    }
  }

  // ---------- where a load gets its value ----------

  /** The step whose write becomes global with the event; 0 if none does. */
  ghost function GlobalStep(p: Prog, ev: Event): (i: int)
    ensures i != 0 ==> Inst(p, i) && Writer(p, i) && ev == GlobalEvent(p, i)
  {
    match ev
    case Issue(i) => if Inst(p, i) && p.steps[i].rmw && p.steps[i].stores != map[] then i else 0
    case Perform(i) => if PureWriter(p, i) then i else 0
  }

  /** The last write of the pattern that is global after k events. */
  ghost function LastGlobal(p: Prog, run: seq<Event>, k: nat, q: Pattern): (w: int)
    requires k <= |run|
    ensures Hits(p, w, q)
    ensures w != 0 ==> Inst(p, w) && Writer(p, w)
  {
    if k == 0 then 0
    else if GlobalStep(p, run[k - 1]) != 0 && Hits(p, GlobalStep(p, run[k - 1]), q) then GlobalStep(p, run[k - 1])
    else LastGlobal(p, run, k - 1, q)
  }

  lemma MemoryStep(p: Prog, m: State, ev: Event, s: string, a: Value)
    requires WellFormed(p) && Enabled(p, m, ev) && EventOf(p, ev)
    ensures Next(p, m, ev).memory(s, a) ==
            var w := GlobalStep(p, ev);
            if w != 0 && Hits(p, w, Pattern(s, false, a)) then Datum(p, w, s, a) else m.memory(s, a)
  {
  }

  lemma {:induction false} MemoryHolds(p: Prog, run: seq<Event>, k: nat, s: string, a: Value)
    requires WellFormed(p) && k <= |run| && Accepted(p, run, k)
    ensures After(p, run, k).memory(s, a) == Datum(p, LastGlobal(p, run, k, Pattern(s, false, a)), s, a)
  {
    if k > 0 {
      MemoryHolds(p, run, k - 1, s, a);
      BuffersHold(p, run, k - 1);
      EventStep(p, run, k - 1, After(p, run, k - 1));
      MemoryStep(p, After(p, run, k - 1), run[k - 1], s, a);
    }
  }

  /** The write that the machine forwards or reads from memory. */
  ghost function Source(p: Prog, run: seq<Event>, k: nat, core: string, q: Pattern): (w: int)
    requires k <= |run|
    ensures Hits(p, w, q)
  {
    var w := Newest(p, Buffer(After(p, run, k), core), q);
    if w != 0 then w else LastGlobal(p, run, k, q)
  }

  lemma LoadIsSource(p: Prog, run: seq<Event>, k: nat, core: string, s: string, a: Value)
    requires WellFormed(p) && k <= |run| && Accepted(p, run, k)
    ensures LoadValue(p, After(p, run, k), core, s, a) ==
            Datum(p, Source(p, run, k, core, Pattern(s, false, a)), s, a)
  {
    MemoryHolds(p, run, k, s, a);
  }

  ghost predicate NewestAt(p: Prog, b: seq<int>, q: Pattern, j: int) {
    0 <= j < |b| && b[j] == Newest(p, b, q) && forall i :: j < i < |b| && b[i] != 0 ==> !Hits(p, b[i], q)
  }

  lemma NewestIsLast(p: Prog, b: seq<int>, q: Pattern)
    ensures Newest(p, b, q) == 0 ==> forall x :: x in b && x != 0 ==> !Hits(p, x, q)
    ensures Newest(p, b, q) != 0 ==> exists j :: NewestAt(p, b, q, j)
  {
    if b != [] && !(b[|b| - 1] != 0 && Hits(p, b[|b| - 1], q)) {
      var b' := b[..|b| - 1];
      NewestIsLast(p, b', q);
      if Newest(p, b', q) != 0 {
        var j :| NewestAt(p, b', q, j);
        assert NewestAt(p, b, q, j);
      }
    } else if b != [] {
      assert NewestAt(p, b, q, |b| - 1);
    }
  }

  lemma LastGlobalIsLast(p: Prog, run: seq<Event>, k: nat, q: Pattern, x: int)
    requires k <= |run| && NoRepeat(run)
    requires Inst(p, x) && Writer(p, x) && Hits(p, x, q) && At(run, GlobalEvent(p, x)) < k
    ensures var w := LastGlobal(p, run, k, q);
            w != 0 && At(run, GlobalEvent(p, x)) <= At(run, GlobalEvent(p, w)) < k
  {
    assert At(run, run[k - 1]) == k - 1;
    if At(run, GlobalEvent(p, x)) < k - 1 {
      LastGlobalIsLast(p, run, k - 1, q, x);
    } else {
      assert GlobalStep(p, run[k - 1]) == x;
    }
  }

  lemma LastGlobalIsGlobal(p: Prog, run: seq<Event>, k: nat, q: Pattern)
    requires k <= |run| && NoRepeat(run)
    ensures var w := LastGlobal(p, run, k, q); w != 0 ==> At(run, GlobalEvent(p, w)) < k
  {
    if k > 0 {
      assert At(run, run[k - 1]) == k - 1;
      LastGlobalIsGlobal(p, run, k - 1, q);
    }
  }

  // ---------- the machine obeys the Value rule ----------

  /** The timestamps of a run, for steps that are issued and writes that are performed. */
  ghost predicate OrderedRun(p: Prog, run: seq<Event>) {
    WellFormed(p) && Enumerates(p, run) && TsoOrder(p, Numbered(p, run))
  }

  /** `x` is global, or waits in the buffer of the core of `r`, when `r` issues. */
  ghost predicate SeenAt(p: Prog, run: seq<Event>, r: int, x: int)
    requires Inst(p, r) && Inst(p, x)
  {
    && x != r
    && (At(run, GlobalEvent(p, x)) < At(run, Issue(r)) || Pending(p, run, At(run, Issue(r)), p.steps[r].core, x))
  }

  lemma SeesIsSeenAt(p: Prog, run: seq<Event>, r: int, x: int)
    requires OrderedRun(p, run) && Inst(p, r) && Inst(p, x) && Writer(p, x)
    ensures Sees(p, Numbered(p, run), r, x) <==> SeenAt(p, run, r, x)
  {
    IssueBeforeGlobal(p, Numbered(p, run), x);
  }

  lemma NewestIssuedLast(p: Prog, run: seq<Event>, k: nat, c: string, b: seq<int>, q: Pattern, x: int)
    requires ContentsAre(p, run, k, c, b) && Newest(p, b, q) != 0
    requires x in b && x != 0 && x != Newest(p, b, q) && Hits(p, x, q)
    ensures At(run, Issue(x)) < At(run, Issue(Newest(p, b, q)))
  {
    NewestIsLast(p, b, q);
    var j :| NewestAt(p, b, q, j);
    var i :| 0 <= i < |b| && b[i] == x;
    assert i < j;
  }

  lemma ForwardedIsLatest(p: Prog, run: seq<Event>, r: int, q: Pattern, b: seq<int>, x: int)
    requires OrderedRun(p, run) && Inst(p, r) && ContentsAre(p, run, At(run, Issue(r)), p.steps[r].core, b)
    requires Newest(p, b, q) != 0
    requires Inst(p, x) && Writer(p, x) && x != Newest(p, b, q) && Hits(p, x, q) && SeenAt(p, run, r, x)
    ensures Numbered(p, run).gts[x] < Numbered(p, run).gts[Newest(p, b, q)]
  {
    var w := Newest(p, b, q);
    assert Pending(p, run, At(run, Issue(r)), p.steps[r].core, w);
    if x in b {
      NewestIssuedLast(p, run, At(run, Issue(r)), p.steps[r].core, b, q, x);
      assert SameCore(p, x, w);
    } else {
      assert !Pending(p, run, At(run, Issue(r)), p.steps[r].core, x);
    }
  }

  lemma MemoryIsLatest(p: Prog, run: seq<Event>, r: int, q: Pattern, b: seq<int>, x: int)
    requires OrderedRun(p, run) && Inst(p, r) && ContentsAre(p, run, At(run, Issue(r)), p.steps[r].core, b)
    requires Newest(p, b, q) == 0
    requires Inst(p, x) && Writer(p, x) && x != LastGlobal(p, run, At(run, Issue(r)), q)
    requires Hits(p, x, q) && SeenAt(p, run, r, x)
    ensures Numbered(p, run).gts[x] < Numbered(p, run).gts[LastGlobal(p, run, At(run, Issue(r)), q)]
  {
    NewestIsLast(p, b, q);
    LastGlobalIsLast(p, run, At(run, Issue(r)), q, x);
  }

  lemma SourceObeysValueRule(p: Prog, run: seq<Event>, r: int, q: Pattern)
    requires OrderedRun(p, run) && Inst(p, r)
    requires BuffersAre(p, run, At(run, Issue(r)), After(p, run, At(run, Issue(r))))
    ensures ValueRule(p, Numbered(p, run), r, q, Source(p, run, At(run, Issue(r)), p.steps[r].core, q))
  {
    var k, t := At(run, Issue(r)), Numbered(p, run);
    var b := Buffer(After(p, run, k), p.steps[r].core);
    assert ContentsAre(p, run, k, p.steps[r].core, b);
    LastGlobalIsGlobal(p, run, k, q);
    var w := Source(p, run, k, p.steps[r].core, q);
    if w != 0 {
      SeesIsSeenAt(p, run, r, w);
    }
    forall x | x != w && Hits(p, x, q) && Sees(p, t, r, x) ensures t.gts[x] < t.gts[w] {
      if x != 0 {
        SeesIsSeenAt(p, run, r, x);
        if Newest(p, b, q) != 0 {
          ForwardedIsLatest(p, run, r, q, b, x);
        } else {
          MemoryIsLatest(p, run, r, q, b, x);
        }
      }
    }
  }
}
