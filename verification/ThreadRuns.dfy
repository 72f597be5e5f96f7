/** The private states of one ILA: its steps are linked exactly when they follow a run of its instructions
    from the initial state, in program order or, for an unordered ILA, in the order of the timestamps. */
module ThreadRuns {
  import opened Ast
  import opened Ila
  import opened Trace
  import opened Constraints
  import opened PrivateState
  import opened LocalState
  import opened StepReads

  // ---------- the run of a thread ----------

  /** What a step sees: private states from the run, everything else from the step's own variables. */
  ghost function Seen(M: Model, host: string, priv: set<string>, st: Env, pos: int): Env {
    x => if x in priv then st(x) else M.env(host, pos)(x)
  }

  /** The states after an instruction that does nothing unless it decodes. */
  ghost function Executed(I: Interp, i: Instr, cur: Env): Env {
    x => if Truth(Eval(I, i.decode, cur)) then Eval(I, StateUpdCmpl(i, x), cur) else cur(x)
  }

  /** The states before step k: the initial ones, changed by the first k instructions. */
  ghost function ThreadState(M: Model, host: string, tss: seq<TraceStep>, priv: set<string>, k: nat): Env
    requires k <= |tss|
  {
    if k == 0 then M.env(host, 0)
    else Executed(M.interp, tss[k - 1].inst, Seen(M, host, priv, ThreadState(M, host, tss, priv, k - 1), tss[k - 1].pos))
  }

  /** The decode or an update of the instruction mentions the variable. */
  ghost predicate InstrMentions(i: Instr, x: string) {
    Mentions(i.decode, x) || exists u {:trigger i.updates[u]} :: 0 <= u < |i.updates| && Mentions(i.updates[u].value, x)
  }

  /** Step k has, of the private states it mentions, the values the run has before it. */
  ghost predicate StepFollows(M: Model, host: string, tss: seq<TraceStep>, priv: set<string>, k: nat)
    requires k < |tss|
  {
    forall x {:trigger x in priv} :: x in priv && InstrMentions(tss[k].inst, x) ==>
      M.env(host, tss[k].pos)(x) == ThreadState(M, host, tss, priv, k)(x)
  }

  ghost predicate FollowsTo(M: Model, host: string, tss: seq<TraceStep>, priv: set<string>, n: nat)
    requires n <= |tss|
  {
    forall k: nat :: k < n ==> StepFollows(M, host, tss, priv, k)
  }

  /** ... and the final values are those at the end of the run. */
  ghost predicate EndFollows(M: Model, host: string, tss: seq<TraceStep>, priv: set<string>) {
    forall x {:trigger x in priv} :: x in priv ==>
      M.env(host, FINAL_SUFFIX)(x) == ThreadState(M, host, tss, priv, |tss|)(x)
  }

  // ---------- instructions whose reads decide them ----------

  /** Every update of a private state is decided by what the instruction mentions: where it is a STORE to a
      private variable, that variable is mentioned elsewhere. */
  ghost predicate Anchored(i: Instr, priv: set<string>) {
    && NoBase(i.decode)
    && forall u {:trigger i.updates[u]} :: 0 <= u < |i.updates| && i.updates[u].state in priv ==>
         AnchoredUpdate(i, i.updates[u].value, priv)
  }

  ghost predicate AnchoredUpdate(i: Instr, e: Expr, priv: set<string>) {
    NoBase(e) || (StoresToVar(e) && (e.args[0].name in priv ==> InstrMentions(i, e.args[0].name)))
  }

  ghost predicate AllAnchored(tss: seq<TraceStep>, priv: set<string>) {
    forall k {:trigger tss[k]} :: 0 <= k < |tss| ==> Anchored(tss[k].inst, priv)
  }

  /** Environments that agree outside the private states and on the private states an instruction mentions
      give it the same decode and the same private updates. */
  ghost predicate AgreeFor(i: Instr, priv: set<string>, a: Env, b: Env) {
    forall x :: x !in priv || InstrMentions(i, x) ==> a(x) == b(x)
  }

  lemma SameDecode(I: Interp, i: Instr, priv: set<string>, a: Env, b: Env)
    requires Anchored(i, priv) && AgreeFor(i, priv, a, b)
    ensures Eval(I, i.decode, a) == Eval(I, i.decode, b)
  {
    MentionsDecide(I, i.decode, a, b);
  }

  lemma SameUpdate(I: Interp, i: Instr, priv: set<string>, a: Env, b: Env, x: string)
    requires Anchored(i, priv) && AgreeFor(i, priv, a, b) && x in priv && UpdateOf(i, x).Some?
    ensures Eval(I, UpdateOf(i, x).value, a) == Eval(I, UpdateOf(i, x).value, b)
  {
    var u := Find(i.updates, x);
    var e := i.updates[u].value;
    assert AnchoredUpdate(i, e, priv);
    forall y | Mentions(e, y) ensures a(y) == b(y) { assert InstrMentions(i, y); }
    if NoBase(e) { MentionsDecide(I, e, a, b); } else { StoreDecided(I, e, a, b); }
  }

  // ---------- the value held by a state ----------

  /** Instruction steps of one ILA, in the order in which they are taken. */
  ghost predicate TurnsOf(host: string, tss: seq<TraceStep>, nums: seq<nat>) {
    |nums| == |tss| && forall k {:trigger tss[k]} :: 0 <= k < |tss| ==> tss[k].kind == INST_EVT && tss[k].host == host
  }

  /** The value of the last decoded update before step k. */
  ghost function Held(M: Model, host: string, tss: seq<TraceStep>, nums: seq<nat>, x: string, k: nat): Value
    requires |nums| == |tss| && k <= |tss|
  {
    LastValue(LinesOf(M, host, tss, nums, x), k + 1)
  }

  lemma HeldFirst(M: Model, host: string, tss: seq<TraceStep>, nums: seq<nat>, x: string)
    requires |nums| == |tss|
    ensures Held(M, host, tss, nums, x, 0) == M.env(host, 0)(x)
  {
    var ls := LinesOf(M, host, tss, nums, x);
    assert ls[0] == InitialLine(M, host, x);
  }

  lemma HeldNext(M: Model, host: string, tss: seq<TraceStep>, nums: seq<nat>, x: string, k: nat)
    requires TurnsOf(host, tss, nums) && k < |tss|
    ensures Held(M, host, tss, nums, x, k + 1) ==
            if UpdateOf(tss[k].inst, x).Some? && Truth(Eval(M.interp, tss[k].inst.decode, M.env(host, tss[k].pos)))
            then Eval(M.interp, UpdateOf(tss[k].inst, x).value, M.env(host, tss[k].pos))
            else Held(M, host, tss, nums, x, k)
  {
    LineIs(M, host, tss, nums, x, k + 1);
  }

  ghost predicate HeldBefore(ls: seq<Line>, k: nat)
    requires Lines(ls) && k <= |ls|
  {
    forall r: nat {:trigger ls[r].isRead} :: 1 <= r < k && ls[r].isRead ==> ls[r].cur == LastValue(ls, r)
  }

  /** With covered steps, linked means that every read and the end have the value held. */
  lemma {:induction false} CarriedIsHeld(ls: seq<Line>, k: nat)
    requires Lines(ls) && Covered(ls) && 1 <= k <= |ls|
    ensures CarriedBefore(ls, k) <==> HeldBefore(ls, k)
  {
    if k > 1 {
      var j: nat := k - 1;
      CarriedIsHeld(ls, j);
      if CarriedBefore(ls, j) && ls[j].isRead {
        CarryIsLastDecoded(ls, j, j);
        LastValueIsDecoded(ls, j);
      }
    }
  }

  lemma OrderedIsHeld(ls: seq<Line>, fin: Value)
    requires Lines(ls) && Covered(ls)
    ensures OrderedLinks(ls, fin) <==> HeldBefore(ls, |ls|) && fin == LastValue(ls, |ls|)
  {
    CarriedIsHeld(ls, |ls|);
    assert OrderedLinks(ls, fin) <==> CarriedBefore(ls, |ls|) && fin == Carry(ls, |ls|);
    if CarriedBefore(ls, |ls|) {
      CarryIsLastDecoded(ls, |ls|, |ls|);
      LastValueIsDecoded(ls, |ls|);
    }
  }

  ghost predicate ReadsHeld(M: Model, host: string, tss: seq<TraceStep>, nums: seq<nat>, x: string, k: nat)
    requires |nums| == |tss| && k < |tss|
  {
    x in ReadSet(tss[k]) ==> M.env(host, tss[k].pos)(x) == Held(M, host, tss, nums, x, k)
  }

  lemma LineReadsHeld(M: Model, host: string, tss: seq<TraceStep>, nums: seq<nat>, x: string, k: nat)
    requires TurnsOf(host, tss, nums) && k < |tss|
    ensures var ls := LinesOf(M, host, tss, nums, x);
            ReadsHeld(M, host, tss, nums, x, k) <==>
            (ls[k + 1].isRead ==> ls[k + 1].cur == LastValue(ls, k + 1))
  {
    LineIs(M, host, tss, nums, x, k + 1);
  }

  ghost predicate StateHeld(M: Model, host: string, tss: seq<TraceStep>, nums: seq<nat>, x: string)
    requires |nums| == |tss|
  {
    forall k: nat :: k < |tss| ==> ReadsHeld(M, host, tss, nums, x, k)
  }

  lemma LinesReadHeld(M: Model, host: string, tss: seq<TraceStep>, nums: seq<nat>, x: string)
    requires TurnsOf(host, tss, nums)
    ensures StateHeld(M, host, tss, nums, x) <==> HeldBefore(LinesOf(M, host, tss, nums, x), |tss| + 1)
  {
    var ls := LinesOf(M, host, tss, nums, x);
    if StateHeld(M, host, tss, nums, x) {
      forall r: nat {:trigger ls[r].isRead} | 1 <= r < |ls| && ls[r].isRead ensures ls[r].cur == LastValue(ls, r) {
        var k: nat := r - 1;
        assert ReadsHeld(M, host, tss, nums, x, k);
        LineReadsHeld(M, host, tss, nums, x, k);
      }
    }
    if HeldBefore(ls, |tss| + 1) {
      forall k: nat | k < |tss| ensures ReadsHeld(M, host, tss, nums, x, k) {
        LineReadsHeld(M, host, tss, nums, x, k);
      }
    }
  }

  lemma StateIsHeldLinked(M: Model, host: string, tss: seq<TraceStep>, nums: seq<nat>, x: string)
    requires TurnsOf(host, tss, nums) && CoveredSteps(M, tss, x)
    ensures OrderedLinks(LinesOf(M, host, tss, nums, x), FinalValue(M, host, x)) <==>
            StateHeld(M, host, tss, nums, x) && M.env(host, FINAL_SUFFIX)(x) == Held(M, host, tss, nums, x, |tss|)
  {
    LinesCovered(M, host, tss, nums, x);
    OrderedIsHeld(LinesOf(M, host, tss, nums, x), FinalValue(M, host, x));
    LinesReadHeld(M, host, tss, nums, x);
  }

  // ---------- the run holds what the steps hold ----------

  lemma StepsAlike(M: Model, host: string, tss: seq<TraceStep>, priv: set<string>, k: nat)
    requires k < |tss| && StepFollows(M, host, tss, priv, k)
    ensures AgreeFor(tss[k].inst, priv, M.env(host, tss[k].pos),
                     Seen(M, host, priv, ThreadState(M, host, tss, priv, k), tss[k].pos))
  {
  }

  lemma StateNext(M: Model, host: string, tss: seq<TraceStep>, priv: set<string>, k: nat, x: string)
    requires k < |tss| && StepFollows(M, host, tss, priv, k) && Anchored(tss[k].inst, priv) && x in priv
    ensures ThreadState(M, host, tss, priv, k + 1)(x) ==
            if UpdateOf(tss[k].inst, x).Some? && Truth(Eval(M.interp, tss[k].inst.decode, M.env(host, tss[k].pos)))
            then Eval(M.interp, UpdateOf(tss[k].inst, x).value, M.env(host, tss[k].pos))
            else ThreadState(M, host, tss, priv, k)(x)
  {
    var frame, seen := M.env(host, tss[k].pos), Seen(M, host, priv, ThreadState(M, host, tss, priv, k), tss[k].pos);
    StepsAlike(M, host, tss, priv, k);
    SameDecode(M.interp, tss[k].inst, priv, frame, seen);
    if UpdateOf(tss[k].inst, x).Some? { SameUpdate(M.interp, tss[k].inst, priv, frame, seen, x); }
  }

  lemma StateNextIsHeld(M: Model, host: string, tss: seq<TraceStep>, nums: seq<nat>,
                        priv: set<string>, k: nat, x: string)
    requires TurnsOf(host, tss, nums) && k < |tss| && Anchored(tss[k].inst, priv) && x in priv
    requires StepFollows(M, host, tss, priv, k)
    requires ThreadState(M, host, tss, priv, k)(x) == Held(M, host, tss, nums, x, k)
    ensures ThreadState(M, host, tss, priv, k + 1)(x) == Held(M, host, tss, nums, x, k + 1)
  {
    StateNext(M, host, tss, priv, k, x);
    HeldNext(M, host, tss, nums, x, k);
  }

  lemma FollowsOneMore(M: Model, host: string, tss: seq<TraceStep>, priv: set<string>, k: nat)
    requires k < |tss|
    ensures FollowsTo(M, host, tss, priv, k + 1) <==>
            FollowsTo(M, host, tss, priv, k) && StepFollows(M, host, tss, priv, k)
  {
  }

  lemma {:induction false} StateIsHeld(M: Model, host: string, tss: seq<TraceStep>, nums: seq<nat>,
                                       priv: set<string>, k: nat, x: string)
    requires TurnsOf(host, tss, nums) && AllAnchored(tss, priv) && x in priv
    requires k <= |tss| && FollowsTo(M, host, tss, priv, k)
    ensures ThreadState(M, host, tss, priv, k)(x) == Held(M, host, tss, nums, x, k)
  {
    if k == 0 {
      HeldFirst(M, host, tss, nums, x);
    } else {
      var j: nat := k - 1;
      FollowsOneMore(M, host, tss, priv, j);
      StateIsHeld(M, host, tss, nums, priv, j, x);
      StateNextIsHeld(M, host, tss, nums, priv, j, x);
    }
  }

  lemma StepMentions(ts: TraceStep, x: string)
    requires ts.kind == INST_EVT
    ensures x in ReadSet(ts) <==> InstrMentions(ts.inst, x)
  {
    ReadSetMeaning(ts, x);
    if Mentions(ts.inst.decode, x) { assert Belongs(ts, ts.inst.decode); }
    if u :| 0 <= u < |ts.inst.updates| && Mentions(ts.inst.updates[u].value, x) {
      assert Belongs(ts, ts.inst.updates[u].value);
    }
  }

  /** Step k has the values held, of the private states it reads, exactly if it follows the run. */
  lemma FollowsIsHeld(M: Model, host: string, tss: seq<TraceStep>, nums: seq<nat>, priv: set<string>,
                      k: nat)
    requires TurnsOf(host, tss, nums) && AllAnchored(tss, priv)
    requires k < |tss| && FollowsTo(M, host, tss, priv, k)
    ensures StepFollows(M, host, tss, priv, k) <==> forall x :: x in priv ==> ReadsHeld(M, host, tss, nums, x, k)
  {
    forall x | x in priv
      ensures InstrMentions(tss[k].inst, x) <==> x in ReadSet(tss[k])
      ensures ThreadState(M, host, tss, priv, k)(x) == Held(M, host, tss, nums, x, k)
    {
      StepMentions(tss[k], x);
      StateIsHeld(M, host, tss, nums, priv, k, x);
    }
    if forall x :: x in priv ==> ReadsHeld(M, host, tss, nums, x, k) {
      forall x {:trigger x in priv} | x in priv && InstrMentions(tss[k].inst, x)
        ensures M.env(host, tss[k].pos)(x) == ThreadState(M, host, tss, priv, k)(x)
      {
        assert ReadsHeld(M, host, tss, nums, x, k);
      }
    }
  }

  ghost predicate HeldTo(M: Model, host: string, tss: seq<TraceStep>, nums: seq<nat>, priv: set<string>, n: nat)
    requires |nums| == |tss| && n <= |tss|
  {
    forall x, k: nat :: x in priv && k < n ==> ReadsHeld(M, host, tss, nums, x, k)
  }

  lemma HeldOneMore(M: Model, host: string, tss: seq<TraceStep>, nums: seq<nat>, priv: set<string>, k: nat)
    requires |nums| == |tss| && k < |tss|
    ensures HeldTo(M, host, tss, nums, priv, k + 1) <==>
            HeldTo(M, host, tss, nums, priv, k) && forall x :: x in priv ==> ReadsHeld(M, host, tss, nums, x, k)
  {
  }

  lemma {:induction false} HeldToIsFollowsTo(M: Model, host: string, tss: seq<TraceStep>,
                                             nums: seq<nat>, priv: set<string>, n: nat)
    requires TurnsOf(host, tss, nums) && AllAnchored(tss, priv) && n <= |tss|
    ensures HeldTo(M, host, tss, nums, priv, n) <==> FollowsTo(M, host, tss, priv, n)
  {
    if n > 0 {
      var k: nat := n - 1;
      HeldToIsFollowsTo(M, host, tss, nums, priv, k);
      HeldOneMore(M, host, tss, nums, priv, k);
      FollowsOneMore(M, host, tss, priv, k);
      if FollowsTo(M, host, tss, priv, k) { FollowsIsHeld(M, host, tss, nums, priv, k); }
    }
  }

  /** The private states are linked exactly when the steps follow the run of their instructions: the states a
      decode or an update mentions are the initial ones with all decoded updates before it applied, and so are
      the final ones. */
  lemma OrderedLinksAreRun(M: Model, host: string, tss: seq<TraceStep>, nums: seq<nat>, priv: set<string>)
    requires TurnsOf(host, tss, nums) && AllAnchored(tss, priv)
    requires forall x :: x in priv ==> CoveredSteps(M, tss, x)
    ensures (forall x :: x in priv ==> OrderedLinks(LinesOf(M, host, tss, nums, x), FinalValue(M, host, x))) <==>
            FollowsTo(M, host, tss, priv, |tss|) && EndFollows(M, host, tss, priv)
  {
    forall x | x in priv
      ensures OrderedLinks(LinesOf(M, host, tss, nums, x), FinalValue(M, host, x)) <==>
              StateHeld(M, host, tss, nums, x) && M.env(host, FINAL_SUFFIX)(x) == Held(M, host, tss, nums, x, |tss|)
    {
      StateIsHeldLinked(M, host, tss, nums, x);
    }
    HeldIsRun(M, host, tss, nums, priv);
  }

  /** The steps of an ordered ILA are linked exactly when they are chained and follow the run. */
  lemma LinkedIsRun(M: Model, host: string, tss: seq<TraceStep>, nums: seq<nat>, priv: set<string>)
    requires TurnsOf(host, tss, nums) && AllAnchored(tss, priv)
    requires forall x :: x in priv ==> CoveredSteps(M, tss, x)
    ensures OrderedLocalState(M, host, tss, nums, priv) <==>
            && FollowsTo(M, host, tss, priv, |tss|) && EndFollows(M, host, tss, priv)
            && forall k :: 0 <= k < |tss| ==> Chained(M, nums, k)
  {
    OrderedLinksAreRun(M, host, tss, nums, priv);
  }

  /** All reads and the ends have the values held exactly if the steps follow the run. */
  lemma HeldIsRun(M: Model, host: string, tss: seq<TraceStep>, nums: seq<nat>, priv: set<string>)
    requires TurnsOf(host, tss, nums) && AllAnchored(tss, priv)
    ensures (forall x :: x in priv ==>
               StateHeld(M, host, tss, nums, x) && M.env(host, FINAL_SUFFIX)(x) == Held(M, host, tss, nums, x, |tss|)) <==>
            FollowsTo(M, host, tss, priv, |tss|) && EndFollows(M, host, tss, priv)
  {
    AllHeld(M, host, tss, nums, priv);
    HeldToIsFollowsTo(M, host, tss, nums, priv, |tss|);
    if FollowsTo(M, host, tss, priv, |tss|) {
      forall x | x in priv ensures ThreadState(M, host, tss, priv, |tss|)(x) == Held(M, host, tss, nums, x, |tss|) {
        StateIsHeld(M, host, tss, nums, priv, |tss|, x);
      }
    }
  }

  lemma AllHeld(M: Model, host: string, tss: seq<TraceStep>, nums: seq<nat>, priv: set<string>)
    requires |nums| == |tss|
    ensures HeldTo(M, host, tss, nums, priv, |tss|) <==> forall x :: x in priv ==> StateHeld(M, host, tss, nums, x)
  {
  }

  // ---------- unordered ILAs ----------

  /** Every index once. */
  ghost predicate Permutes(order: seq<nat>, n: nat) {
    && |order| == n
    && (forall i {:trigger order[i]} :: 0 <= i < n ==> order[i] < n)
    && (forall i, j {:trigger order[i], order[j]} :: 0 <= i < j < n ==> order[i] != order[j])
    && (forall k: nat :: k < n ==> Taken(order, k))
  }

  ghost predicate Taken(order: seq<nat>, k: nat) {
    exists i {:trigger order[i]} :: 0 <= i < |order| && order[i] == k
  }

  /** b lists the lines of a in another order; line 0 stays. */
  ghost predicate Relisted(a: seq<Line>, b: seq<Line>, order: seq<nat>) {
    && |a| == |b| == |order| && |a| > 0 && Permutes(order, |a|) && order[0] == 0
    && forall i {:trigger b[i]} {:trigger order[i]} :: 0 <= i < |b| ==> b[i] == a[order[i]]
  }

  /** Every line of a is a line of b. */
  lemma RelistedLine(a: seq<Line>, b: seq<Line>, order: seq<nat>, v: nat) returns (i: nat)
    requires Relisted(a, b, order) && v < |a|
    ensures i < |b| && order[i] == v && b[i] == a[v]
  {
    assert Taken(order, v);
    i :| 0 <= i < |order| && order[i] == v;
  }

  lemma RelistedUndisturbed(a: seq<Line>, b: seq<Line>, order: seq<nat>, r: nat, w: nat)
    requires Relisted(a, b, order) && r < |b| && w < |b|
    ensures Undisturbed(b, r, w) <==> Undisturbed(a, order[r], order[w])
  {
    if Undisturbed(b, r, w) {
      forall v: nat | v < |a| && v != order[w] && v != order[r] && a[v].isWrite && a[v].decoded
        ensures a[v].ts < a[order[w]].ts || a[v].ts > a[order[r]].ts
      {
        var i := RelistedLine(a, b, order, v);
      }
    }
    if Undisturbed(a, order[r], order[w]) {
      forall i: nat | i < |b| && i != w && i != r && b[i].isWrite && b[i].decoded
        ensures b[i].ts < b[w].ts || b[i].ts > b[r].ts
      {
        assert order[i] != order[w] && order[i] != order[r];
      }
    }
  }

  lemma RelistedLast(a: seq<Line>, b: seq<Line>, order: seq<nat>, w: nat)
    requires Relisted(a, b, order) && w < |b|
    ensures LastWriter(b, w) <==> LastWriter(a, order[w])
  {
    if LastWriter(b, w) {
      forall v: nat | v < |a| && v != order[w] && a[v].isWrite && a[v].decoded ensures a[v].ts < a[order[w]].ts {
        var i := RelistedLine(a, b, order, v);
      }
    }
    if LastWriter(a, order[w]) {
      forall i: nat | i < |b| && i != w && b[i].isWrite && b[i].decoded ensures b[i].ts < b[w].ts {
        assert order[i] != order[w];
      }
    }
  }

  lemma RelistedRead(a: seq<Line>, b: seq<Line>, order: seq<nat>, r: nat)
    requires Relisted(a, b, order) && r < |b|
    ensures UnorderedRead(b, r) <==> UnorderedRead(a, order[r])
  {
    if UnorderedRead(b, r) {
      var w: nat :| w < |b| && Undisturbed(b, r, w) && b[r].cur == b[w].update;
      RelistedUndisturbed(a, b, order, r, w);
    }
    if UnorderedRead(a, order[r]) {
      var v: nat :| v < |a| && Undisturbed(a, order[r], v) && a[order[r]].cur == a[v].update;
      var w := RelistedLine(a, b, order, v);
      RelistedUndisturbed(a, b, order, r, w);
    }
  }

  lemma RelistedEnd(a: seq<Line>, b: seq<Line>, order: seq<nat>, fin: Value)
    requires Relisted(a, b, order)
    ensures (exists w :: 0 <= w < |b| && LastWriter(b, w) && fin == b[w].update) <==>
            (exists w :: 0 <= w < |a| && LastWriter(a, w) && fin == a[w].update)
  {
    if w: nat :| w < |b| && LastWriter(b, w) && fin == b[w].update { RelistedLast(a, b, order, w); }
    if v: nat :| v < |a| && LastWriter(a, v) && fin == a[v].update {
      var w := RelistedLine(a, b, order, v);
      RelistedLast(a, b, order, w);
    }
  }

  /** The unordered links do not depend on the order in which the lines are listed. */
  lemma RelistedLinks(a: seq<Line>, b: seq<Line>, order: seq<nat>, fin: Value)
    requires Relisted(a, b, order)
    ensures UnorderedLinks(b, fin) <==> UnorderedLinks(a, fin)
  {
    RelistedEnd(a, b, order, fin);
    forall r: nat | r < |b| ensures UnorderedRead(b, r) <==> UnorderedRead(a, order[r]) { RelistedRead(a, b, order, r); }
    if forall r :: 1 <= r < |b| && b[r].isRead ==> UnorderedRead(b, r) {
      forall v: nat | 1 <= v < |a| && a[v].isRead ensures UnorderedRead(a, v) {
        var r := RelistedLine(a, b, order, v);
        assert r != 0;
      }
    }
    if forall r :: 1 <= r < |a| && a[r].isRead ==> UnorderedRead(a, r) {
      forall r: nat | 1 <= r < |b| && b[r].isRead ensures UnorderedRead(b, r) {
        assert order[0] != order[r];
      }
    }
  }

  /** In the order of their timestamps the links are to the value held. */
  lemma UnorderedIsHeld(ls: seq<Line>, fin: Value)
    requires Lines(ls) && InOrder(ls)
    ensures UnorderedLinks(ls, fin) <==> HeldBefore(ls, |ls|) && fin == LastValue(ls, |ls|)
  {
    forall r: nat | 1 <= r < |ls| ensures UnorderedRead(ls, r) <==> ls[r].cur == LastValue(ls, r) {
      UnorderedReadIsLastDecoded(ls, r);
      LastValueIsDecoded(ls, r);
    }
    LastValueIsDecoded(ls, |ls|);
    LastWriterIsLastDecoded(ls, LastDecoded(ls, |ls|));
    if w :| 0 <= w < |ls| && LastWriter(ls, w) && fin == ls[w].update { LastWriterIsLastDecoded(ls, w); }
  }

  ghost function InTurn<T>(ts: seq<T>, order: seq<nat>): (r: seq<T>)
    requires Permutes(order, |ts|)
    ensures |r| == |ts| && forall i {:trigger r[i]} {:trigger order[i]} :: 0 <= i < |r| ==> r[i] == ts[order[i]]
  {
    seq(|ts|, i requires 0 <= i < |ts| => ts[order[i]])
  }

  /** The order lists the steps by ascending timestamps. */
  ghost predicate ByTime(M: Model, nums: seq<nat>, order: seq<nat>)
    requires Permutes(order, |nums|)
  {
    && (forall i {:trigger order[i]} :: 0 <= i < |order| ==> Time(M, Now(nums[order[i]])) > 0)
    && (forall i, j {:trigger order[i], order[j]} :: 0 <= i < j < |order| ==>
          Time(M, Now(nums[order[i]])) < Time(M, Now(nums[order[j]])))
  }

  /** The order of the lines: line 0 first. */
  ghost function Shifted(order: seq<nat>): (r: seq<nat>)
    ensures |r| == |order| + 1 && r[0] == 0
    ensures forall i {:trigger r[i]} :: 1 <= i <= |order| ==> r[i] == order[i - 1] + 1
  {
    seq(|order| + 1, i requires 0 <= i <= |order| => if i == 0 then 0 else order[i - 1] + 1)
  }

  lemma ShiftedPermutes(order: seq<nat>, n: nat)
    requires Permutes(order, n)
    ensures Permutes(Shifted(order), n + 1)
  {
    var s := Shifted(order);
    forall i, j {:trigger s[i], s[j]} | 0 <= i < j < n + 1 ensures s[i] != s[j] {
      if i > 0 { assert order[i - 1] != order[j - 1]; }
    }
    forall k: nat | k < n + 1 ensures Taken(s, k) {
      if k == 0 {
        assert s[0] == 0;
      } else {
        assert Taken(order, k - 1);
        var i :| 0 <= i < |order| && order[i] == k - 1;
        assert s[i + 1] == k;
      }
    }
  }

  lemma LineRelisted(M: Model, host: string, tss: seq<TraceStep>, nums: seq<nat>, order: seq<nat>, x: string, k: nat)
    requires |nums| == |tss| && Permutes(order, |tss|) && k < |tss|
    ensures LinesOf(M, host, InTurn(tss, order), InTurn(nums, order), x)[k + 1] ==
            LinesOf(M, host, tss, nums, x)[order[k] + 1]
  {
    LineIs(M, host, InTurn(tss, order), InTurn(nums, order), x, k + 1);
    LineIs(M, host, tss, nums, x, order[k] + 1);
    assert InTurn(tss, order)[k] == tss[order[k]] && InTurn(nums, order)[k] == nums[order[k]];
  }

  lemma LinesRelisted(M: Model, host: string, tss: seq<TraceStep>, nums: seq<nat>, order: seq<nat>, x: string)
    requires |nums| == |tss| && Permutes(order, |tss|)
    ensures Relisted(LinesOf(M, host, tss, nums, x), LinesOf(M, host, InTurn(tss, order), InTurn(nums, order), x),
                     Shifted(order))
  {
    var a, b, s := LinesOf(M, host, tss, nums, x), LinesOf(M, host, InTurn(tss, order), InTurn(nums, order), x), Shifted(order);
    ShiftedPermutes(order, |tss|);
    assert b[0] == a[0] == InitialLine(M, host, x);
    forall i: nat {:trigger b[i]} {:trigger s[i]} | i < |b| ensures b[i] == a[s[i]] {
      if i > 0 {
        var k: nat := i - 1;
        LineRelisted(M, host, tss, nums, order, x, k);
      }
    }
  }

  lemma TurnsInOrder(M: Model, host: string, tss: seq<TraceStep>, nums: seq<nat>, order: seq<nat>, x: string)
    requires |nums| == |tss| && Permutes(order, |tss|) && ByTime(M, nums, order)
    ensures InOrder(LinesOf(M, host, InTurn(tss, order), InTurn(nums, order), x))
  {
    var ptss, pnums := InTurn(tss, order), InTurn(nums, order);
    var ls := LinesOf(M, host, ptss, pnums, x);
    forall i: nat, j: nat | i < j < |ls| ensures ls[i].ts < ls[j].ts {
      LineIs(M, host, ptss, pnums, x, j);
      assert pnums[j - 1] == nums[order[j - 1]];
      if i > 0 {
        LineIs(M, host, ptss, pnums, x, i);
        assert pnums[i - 1] == nums[order[i - 1]];
      }
    }
  }

  /** The links of one state of an unordered ILA, in the order of the timestamps. */
  lemma StateIsHeldSearched(M: Model, host: string, tss: seq<TraceStep>, nums: seq<nat>, order: seq<nat>, x: string)
    requires TurnsOf(host, tss, nums) && Permutes(order, |tss|) && ByTime(M, nums, order)
    ensures
      var ptss, pnums := InTurn(tss, order), InTurn(nums, order);
      UnorderedLinks(LinesOf(M, host, tss, nums, x), FinalValue(M, host, x)) <==>
      StateHeld(M, host, ptss, pnums, x) && M.env(host, FINAL_SUFFIX)(x) == Held(M, host, ptss, pnums, x, |ptss|)
  {
    var ptss, pnums := InTurn(tss, order), InTurn(nums, order);
    LinesRelisted(M, host, tss, nums, order, x);
    RelistedLinks(LinesOf(M, host, tss, nums, x), LinesOf(M, host, ptss, pnums, x), Shifted(order), FinalValue(M, host, x));
    TurnsInOrder(M, host, tss, nums, order, x);
    UnorderedIsHeld(LinesOf(M, host, ptss, pnums, x), FinalValue(M, host, x));
    TurnsStay(host, tss, nums, order);
    LinesReadHeld(M, host, ptss, pnums, x);
  }

  lemma TurnsStay(host: string, tss: seq<TraceStep>, nums: seq<nat>, order: seq<nat>)
    requires TurnsOf(host, tss, nums) && Permutes(order, |tss|)
    ensures TurnsOf(host, InTurn(tss, order), InTurn(nums, order))
  {
    var ptss := InTurn(tss, order);
    forall k {:trigger ptss[k]} | 0 <= k < |ptss| ensures ptss[k].kind == INST_EVT && ptss[k].host == host {
      assert ptss[k] == tss[order[k]];
    }
  }

  /** The steps of an unordered ILA, at distinct times, are linked exactly when they follow the run of their
      instructions in the order of the timestamps. */
  lemma SearchedIsRun(M: Model, host: string, tss: seq<TraceStep>, nums: seq<nat>, priv: set<string>, order: seq<nat>)
    requires TurnsOf(host, tss, nums) && AllAnchored(tss, priv)
    requires Permutes(order, |tss|) && ByTime(M, nums, order)
    ensures UnorderedLocalState(M, host, tss, nums, priv) <==>
            FollowsTo(M, host, InTurn(tss, order), priv, |tss|) && EndFollows(M, host, InTurn(tss, order), priv)
  {
    var ptss, pnums := InTurn(tss, order), InTurn(nums, order);
    forall x | x in priv
      ensures UnorderedLinks(LinesOf(M, host, tss, nums, x), FinalValue(M, host, x)) <==>
              StateHeld(M, host, ptss, pnums, x) && M.env(host, FINAL_SUFFIX)(x) == Held(M, host, ptss, pnums, x, |ptss|)
    {
      StateIsHeldSearched(M, host, tss, nums, order, x);
    }
    TurnsStay(host, tss, nums, order);
    AnchoredStay(tss, priv, order);
    HeldIsRun(M, host, ptss, pnums, priv);
  }

  lemma AnchoredStay(tss: seq<TraceStep>, priv: set<string>, order: seq<nat>)
    requires AllAnchored(tss, priv) && Permutes(order, |tss|)
    ensures AllAnchored(InTurn(tss, order), priv)
  {
    var ptss := InTurn(tss, order);
    forall k {:trigger ptss[k]} | 0 <= k < |ptss| ensures Anchored(ptss[k].inst, priv) { assert ptss[k] == tss[order[k]]; }
  }
}
