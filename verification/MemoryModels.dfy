/** The memory models as the unroller builds them: registration of steps fills the step sets,
    and ApplyAxioms pushes the axioms as formulas. */
module MemoryModels {
  import opened Ast
  import opened Trace
  import opened Ila
  import opened Constraints
  import opened StepReads
  import opened RfCoFr

  // ---------- the axioms on facets ----------

  /** PureWrite_list: HB(w, w.wfe.global) */
  method WriteFacetOrderF(pures: set<nat>) returns (var13: Formula)
    ensures forall M: Model :: Holds(var13, M) <==> forall w :: w in pures ==> Holds(HbF(Now(w), WfeGlobal(w)), M)
  {
    var var12_L: seq<Formula> := [];
    var todo := pures;
    while todo != {}
      invariant todo <= pures
      invariant forall M: Model :: AllHold(var12_L, M) <==>
                  forall w :: w in pures - todo ==> Holds(HbF(Now(w), WfeGlobal(w)), M)
    {
      var w :| w in todo;
      AllHoldAppend(var12_L, HbF(Now(w), WfeGlobal(w)));
      var12_L := var12_L + [HbF(Now(w), WfeGlobal(w))];
      todo := todo - {w};
    }
    var13 := ForallList(var12_L);
  }

  /** RMW_list: Sync(i, i.wfe.global) */
  method RmwF(rmws: set<nat>) returns (var24: Formula)
    ensures forall M: Model :: Holds(var24, M) <==> forall i :: i in rmws ==> Holds(SyncF(Now(i), WfeGlobal(i)), M)
  {
    var var23_L: seq<Formula> := [];
    var todo := rmws;
    while todo != {}
      invariant todo <= rmws
      invariant forall M: Model :: AllHold(var23_L, M) <==>
                  forall i :: i in rmws - todo ==> Holds(SyncF(Now(i), WfeGlobal(i)), M)
    {
      var i :| i in todo;
      AllHoldAppend(var23_L, SyncF(Now(i), WfeGlobal(i)));
      var23_L := var23_L + [SyncF(Now(i), WfeGlobal(i))];
      todo := todo - {i};
    }
    var24 := ForallList(var23_L);
  }

  /** Two writes of a core become global in the order they are issued. */
  ghost predicate StoresInOrder(steps: seq<TraceStep>, M: Model, w1: nat, w2: nat)
    requires w1 < |steps| && w2 < |steps|
  {
    w1 != w2 && steps[w1].host == steps[w2].host && Holds(HbF(Now(w1), Now(w2)), M) ==>
      Holds(HbF(WfeGlobal(w1), WfeGlobal(w2)), M)
  }

  method StoresAfterF(steps: seq<TraceStep>, writes: set<nat>, w1: nat) returns (var16: Formula)
    requires w1 < |steps| && forall x :: x in writes ==> x < |steps|
    ensures forall M: Model :: Holds(var16, M) <==> forall w2 :: w2 in writes ==> StoresInOrder(steps, M, w1, w2)
  {
    var var15_L: seq<Formula> := [];
    var todo := writes;
    while todo != {}
      invariant todo <= writes
      invariant forall M: Model :: AllHold(var15_L, M) <==>
                  forall w2 :: w2 in writes - todo ==> StoresInOrder(steps, M, w1, w2)
    {
      var w2 :| w2 in todo;
      todo := todo - {w2};
      if w2 == w1 || steps[w1].host != steps[w2].host {
        continue;
      }
      var var14 := ImpliesF(HbF(Now(w1), Now(w2)), HbF(WfeGlobal(w1), WfeGlobal(w2)));
      assert forall M: Model :: Holds(var14, M) <==> StoresInOrder(steps, M, w1, w2);
      AllHoldAppend(var15_L, var14);
      var15_L := var15_L + [var14];
    }
    var16 := ForallList(var15_L);
  }

  method StoreF(steps: seq<TraceStep>, writes: set<nat>) returns (var18: Formula)
    requires forall x :: x in writes ==> x < |steps|
    ensures forall M: Model :: Holds(var18, M) <==>
              forall w1, w2 :: w1 in writes && w2 in writes ==> StoresInOrder(steps, M, w1, w2)
  {
    var var17_L: seq<Formula> := [];
    var todo := writes;
    while todo != {}
      invariant todo <= writes
      invariant forall M: Model :: AllHold(var17_L, M) <==>
                  forall w1, w2 :: w1 in writes - todo && w2 in writes ==> StoresInOrder(steps, M, w1, w2)
    {
      var w1 :| w1 in todo;
      var var16 := StoresAfterF(steps, writes, w1);
      AllHoldAppend(var17_L, var16);
      var17_L := var17_L + [var16];
      todo := todo - {w1};
    }
    var18 := ForallList(var17_L);
  }

  /** A write that precedes a fence of its core is global before the fence. */
  ghost predicate FenceWaits(steps: seq<TraceStep>, M: Model, f: nat, w: nat)
    requires f < |steps| && w < |steps|
  {
    steps[w].host == steps[f].host && Holds(HbF(Now(w), Now(f)), M) ==> Holds(HbF(WfeGlobal(w), Now(f)), M)
  }

  method FenceWaitsF(steps: seq<TraceStep>, writes: set<nat>, f: nat) returns (var20: Formula)
    requires f < |steps| && forall x :: x in writes ==> x < |steps|
    ensures forall M: Model :: Holds(var20, M) <==> forall w :: w in writes ==> FenceWaits(steps, M, f, w)
  {
    var var19_L: seq<Formula> := [];
    var todo := writes;
    while todo != {}
      invariant todo <= writes
      invariant forall M: Model :: AllHold(var19_L, M) <==>
                  forall w :: w in writes - todo ==> FenceWaits(steps, M, f, w)
    {
      var w :| w in todo;
      todo := todo - {w};
      if steps[w].host != steps[f].host {
        continue;
      }
      var one := ImpliesF(HbF(Now(w), Now(f)), HbF(WfeGlobal(w), Now(f)));
      assert forall M: Model :: Holds(one, M) <==> FenceWaits(steps, M, f, w);
      AllHoldAppend(var19_L, one);
      var19_L := var19_L + [one];
    }
    var20 := ForallList(var19_L);
  }

  method FenceF(steps: seq<TraceStep>, fences: set<nat>, writes: set<nat>) returns (var22: Formula)
    requires forall x :: x in writes || x in fences ==> x < |steps|
    ensures forall M: Model :: Holds(var22, M) <==>
              forall f, w :: f in fences && w in writes ==> FenceWaits(steps, M, f, w)
  {
    var var21_L: seq<Formula> := [];
    var todo := fences;
    while todo != {}
      invariant todo <= fences
      invariant forall M: Model :: AllHold(var21_L, M) <==>
                  forall f, w :: f in fences - todo && w in writes ==> FenceWaits(steps, M, f, w)
    {
      var f :| f in todo;
      var var20 := FenceWaitsF(steps, writes, f);
      AllHoldAppend(var21_L, var20);
      var21_L := var21_L + [var20];
      todo := todo - {f};
    }
    var22 := ForallList(var21_L);
  }

  // ---------- the step sets ----------

  datatype Lists = Lists(readers: set<nat>, writers: set<nat>, fences: set<nat>, rmws: set<nat>)

  function Single(b: bool, n: nat): set<nat> {
    if b then {n} else {}
  }

  function ReadsAny(sys: System, ts: TraceStep): bool {
    ReadSet(ts) * sys.shared != {}
  }

  function WritesAny(sys: System, ts: TraceStep): bool {
    WriteSet(ts) * sys.shared != {}
  }

  /** Step n is a read if its decode or an update mentions a shared state, a write if it updates one, and a fence
      or an RMW by its name. */
  ghost predicate Enters(sys: System, ts: TraceStep, n: nat, l: Lists) {
    && (n in l.readers <==> MentionsShared(sys, ts))
    && (n in l.writers <==> exists k {:trigger ts.inst.updates[k]} ::
          0 <= k < |ts.inst.updates| && ts.inst.updates[k].state in sys.shared)
    && (n in l.fences <==> ts.inst.name in {"fence", "Fence", "FENCE"})
    && (n in l.rmws <==> ts.inst.name in {"atomic_add", "atomic_and"})
  }

  ghost predicate MentionsShared(sys: System, ts: TraceStep) {
    exists s, e {:trigger Belongs(ts, e), Mentions(e, s)} :: s in sys.shared && Belongs(ts, e) && Mentions(e, s)
  }

  lemma ListedStep(sys: System, ts: TraceStep)
    requires ts.kind == INST_EVT
    ensures ReadsAny(sys, ts) <==> MentionsShared(sys, ts)
    ensures WritesAny(sys, ts) <==> exists k {:trigger ts.inst.updates[k]} ::
              0 <= k < |ts.inst.updates| && ts.inst.updates[k].state in sys.shared
  {
    if s :| s in ReadSet(ts) * sys.shared { ReadSetMeaning(ts, s); }
    if s, e :| s in sys.shared && Belongs(ts, e) && Mentions(e, s) {
      ReadSetMeaning(ts, s);
      assert s in ReadSet(ts) * sys.shared;
    }
    if s :| s in WriteSet(ts) * sys.shared { assert exists u :: u in ts.inst.updates && u.state == s; }
    if k :| 0 <= k < |ts.inst.updates| && ts.inst.updates[k].state in sys.shared {
      assert ts.inst.updates[k].state in WriteSet(ts) * sys.shared;
    }
  }

  /** The step sets hold the numbers of the registered steps of their kind. */
  ghost predicate ListsAre(sys: System, steps: seq<TraceStep>, l: Lists) {
    && (forall i :: i in l.readers <==> 1 <= i < |steps| && ReadsAny(sys, steps[i]))
    && (forall i :: i in l.writers <==> 1 <= i < |steps| && WritesAny(sys, steps[i]))
    && (forall i :: i in l.fences <==> 1 <= i < |steps| && IsFence(steps[i]))
    && (forall i :: i in l.rmws <==> 1 <= i < |steps| && IsRmw(steps[i]))
  }

  lemma StepEnters(sys: System, steps: seq<TraceStep>, ts: TraceStep, n: nat, l: Lists)
    requires ListsAre(sys, steps, l) && 1 <= n < |steps| && steps[n] == ts && ts.kind == INST_EVT
    ensures Enters(sys, ts, n, l)
  {
    ListedStep(sys, ts);
  }

  lemma AppendStep(sys: System, steps: seq<TraceStep>, ts: TraceStep, l: Lists)
    requires Registered(sys, steps) && WellBuilt(sys, ts) && ListsAre(sys, steps, l)
    ensures Registered(sys, steps + [ts])
    ensures var n := |steps|;
            ListsAre(sys, steps + [ts],
                     Lists(l.readers + Single(ReadsAny(sys, ts), n), l.writers + Single(WritesAny(sys, ts), n),
                           l.fences + Single(IsFence(ts), n), l.rmws + Single(IsRmw(ts), n)))
  {
    AppendRegistered(sys, steps, ts);
    AppendLists(sys, steps, ts, l);
  }

  lemma AppendRegistered(sys: System, steps: seq<TraceStep>, ts: TraceStep)
    requires Registered(sys, steps) && WellBuilt(sys, ts)
    ensures Registered(sys, steps + [ts])
  {
    forall i | 1 <= i < |steps| + 1 ensures WellBuilt(sys, (steps + [ts])[i]) {
    }
  }

  lemma AppendLists(sys: System, steps: seq<TraceStep>, ts: TraceStep, l: Lists)
    requires |steps| > 0 && ListsAre(sys, steps, l)
    ensures var n := |steps|;
            ListsAre(sys, steps + [ts],
                     Lists(l.readers + Single(ReadsAny(sys, ts), n), l.writers + Single(WritesAny(sys, ts), n),
                           l.fences + Single(IsFence(ts), n), l.rmws + Single(IsRmw(ts), n)))
  {
    AppendList(steps, ts, l.readers, t => ReadsAny(sys, t));
    AppendList(steps, ts, l.writers, t => WritesAny(sys, t));
    AppendList(steps, ts, l.fences, IsFence);
    AppendList(steps, ts, l.rmws, IsRmw);
  }

  lemma AppendList(steps: seq<TraceStep>, ts: TraceStep, l: set<nat>, kind: TraceStep -> bool)
    requires |steps| > 0 && forall i :: i in l <==> 1 <= i < |steps| && kind(steps[i])
    ensures forall i :: i in l + Single(kind(ts), |steps|) <==> 1 <= i < |steps| + 1 && kind((steps + [ts])[i])
  {
  }

  function InstStep(host: string, inst_seq: seq<Instr>, k: nat): TraceStep
    requires k < |inst_seq|
  {
    TraceStep(INST_EVT, host, inst_seq[k], k + 1, BoolConst(true))
  }

  ghost function InstSteps(host: string, inst_seq: seq<Instr>, n: nat): seq<TraceStep>
    requires n <= |inst_seq|
  {
    seq(n, k requires 0 <= k < n => InstStep(host, inst_seq, k))
  }

  lemma NextInstStep(host: string, inst_seq: seq<Instr>, k: nat)
    requires k < |inst_seq|
    ensures InstSteps(host, inst_seq, k + 1) == InstSteps(host, inst_seq, k) + [InstStep(host, inst_seq, k)]
  {
  }

  function FinalStep(sys: System, property: Expr): TraceStep {
    TraceStep(FINAL_EVT, sys.global, Instr("", BoolConst(true), []), FINAL_SUFFIX, property)
  }

  /** Step n comes after all steps with smaller numbers. */
  ghost predicate FinalLast(M: Model, n: nat) {
    forall j: nat :: j < n ==> Time(M, Now(j)) < Time(M, Now(n))
  }

  ghost predicate PropertyHolds(sys: System, M: Model, property: Expr) {
    Truth(ValueAt(M, Frame(sys.global, FINAL_SUFFIX), property))
  }

  /** What SetFinalProperty pushes for the final step, which has number n. */
  method FinalF(sys: System, property: Expr, n: nat) returns (cs: seq<Formula>)
    ensures forall M: Model :: AllHold(cs, M) <==> FinalLast(M, n) && PropertyHolds(sys, M, property)
  {
    cs := [];
    for i := 0 to n
      invariant forall M: Model :: AllHold(cs, M) <==>
                  forall j: nat :: j < i ==> Time(M, Now(j)) < Time(M, Now(n))
    {
      AllHoldAppend(cs, HbF(Now(i), Now(n)));
      cs := cs + [HbF(Now(i), Now(n))];
    }
    var holds := HoldsF(FrameOf(FinalStep(sys, property)), property);
    AllHoldAppend(cs, holds);
    cs := cs + [holds];
  }

  ghost predicate PositiveStep(sys: System, ts: TraceStep, n: nat, M: Model) {
    Time(M, Now(n)) > 0 && (WritesAny(sys, ts) ==> Time(M, Facet(n)) > 0)
  }

  /** Every step from number `from` on, and its facet, has a positive timestamp. */
  ghost predicate PositiveSteps(sys: System, steps: seq<TraceStep>, from: nat, M: Model) {
    forall i: nat :: from <= i < |steps| ==> PositiveStep(sys, steps[i], i, M)
  }

  lemma PositiveAppend(sys: System, steps: seq<TraceStep>, ts: TraceStep, from: nat)
    requires from <= |steps|
    ensures forall M: Model :: PositiveSteps(sys, steps + [ts], from, M) <==>
                               PositiveSteps(sys, steps, from, M) && PositiveStep(sys, ts, |steps|, M)
  {
    forall M: Model ensures PositiveSteps(sys, steps + [ts], from, M) <==>
                            PositiveSteps(sys, steps, from, M) && PositiveStep(sys, ts, |steps|, M) {
      assert (steps + [ts])[|steps|] == ts;
      forall i: nat | from <= i < |steps| ensures (steps + [ts])[i] == steps[i] {
      }
    }
  }

  /** What registration pushes: the timestamps of the steps from number `from` on are positive. */
  ghost predicate PushedPositive(sys: System, steps: seq<TraceStep>, from: nat, was: seq<Formula>, cs: seq<Formula>) {
    forall M: Model :: AllHold(cs, M) <==> AllHold(was, M) && PositiveSteps(sys, steps, from, M)
  }

  lemma PushedOneMore(sys: System, steps: seq<TraceStep>, ts: TraceStep, from: nat, was: seq<Formula>,
                      mid: seq<Formula>, cs: seq<Formula>)
    requires from <= |steps| && PushedPositive(sys, steps, from, was, mid)
    requires forall M: Model :: AllHold(cs, M) <==> AllHold(mid, M) && PositiveStep(sys, ts, |steps|, M)
    ensures PushedPositive(sys, steps + [ts], from, was, cs)
  {
    PositiveAppend(sys, steps, ts, from);
  }

  /** Without facets. */
  ghost predicate PositiveFrom(steps: seq<TraceStep>, from: nat, M: Model) {
    forall i: nat :: from <= i < |steps| ==> Time(M, Now(i)) > 0
  }

  ghost predicate PushedMoments(steps: seq<TraceStep>, from: nat, was: seq<Formula>, cs: seq<Formula>) {
    forall M: Model :: AllHold(cs, M) <==> AllHold(was, M) && PositiveFrom(steps, from, M)
  }

  lemma MomentOneMore(steps: seq<TraceStep>, ts: TraceStep, from: nat, was: seq<Formula>, mid: seq<Formula>,
                      cs: seq<Formula>)
    requires from <= |steps| && PushedMoments(steps, from, was, mid)
    requires forall M: Model :: AllHold(cs, M) <==> AllHold(mid, M) && Time(M, Now(|steps|)) > 0
    ensures PushedMoments(steps + [ts], from, was, cs)
  {
    forall M: Model
      ensures PositiveFrom(steps + [ts], from, M) <==> PositiveFrom(steps, from, M) && Time(M, Now(|steps|)) > 0
    {
      if PositiveFrom(steps + [ts], from, M) {
        var last: nat := |steps|;
        assert Time(M, Now(last)) > 0;
      }
    }
  }

  class Tso {
    const sys: System
    var steps: seq<TraceStep>
    var WRITE_list: set<nat>
    var READ_list: set<nat>
    var FENCE_list: set<nat>
    var RMW_list: set<nat>
    var PureWrite_list: set<nat>
    var finished: bool
    var constr: seq<Formula>

    ghost predicate Valid()
      reads this
    {
      && Registered(sys, steps)
      && ListsAre(sys, steps, Lists(READ_list, WRITE_list - {0}, FENCE_list, RMW_list))
      && (0 in WRITE_list <==> finished && sys.shared != {})
      && (finished ==> PureWrite_list == WRITE_list - {0} - RMW_list)
    }

    /** The initial step has number 0 from the start; FinishRegisterSteps enters it into
        WRITE_list. */
    constructor (sys: System, init: Instr)
      requires init.decode == BoolConst(true)
      requires forall s :: s in sys.shared ==> UpdateOf(init, s) == Some(Var(s))
      ensures Valid() && !finished && constr == []
      ensures this.sys == sys && steps == [TraceStep(INIT_EVT, sys.global, init, 0, BoolConst(true))]
    {
      this.sys := sys;
      steps := [TraceStep(INIT_EVT, sys.global, init, 0, BoolConst(true))];
      WRITE_list, READ_list, FENCE_list, RMW_list, PureWrite_list := {}, {}, {}, {}, {};
      finished := false;
      constr := [];
    }

    /** The step enters the step sets of its kind. */
    method Bookkeeping(ts: TraceStep)
      requires Valid() && !finished && WellBuilt(sys, ts) && ts.kind == INST_EVT
      modifies this
      ensures Valid() && !finished && steps == old(steps) + [ts] && constr == old(constr)
    {
      var n := |steps|;
      assert WRITE_list - {0} == WRITE_list;
      AppendStep(sys, steps, ts, Lists(READ_list, WRITE_list, FENCE_list, RMW_list));
      steps := steps + [ts];
      WRITE_list := WRITE_list + Single(WritesAny(sys, ts), n);
      assert WRITE_list - {0} == WRITE_list;
      READ_list := READ_list + Single(ReadsAny(sys, ts), n);
      FENCE_list := FENCE_list + Single(IsFence(ts), n);
      RMW_list := RMW_list + Single(IsRmw(ts), n);
    }

    /** Registering one step: the constructors of the step and of its facet push that their
        timestamps are positive. */
    method RegisterStep(ts: TraceStep)
      requires Valid() && !finished && WellBuilt(sys, ts) && ts.kind == INST_EVT
      modifies this
      ensures Valid() && !finished && steps == old(steps) + [ts]
      ensures Enters(sys, ts, |old(steps)|, Lists(READ_list, WRITE_list - {0}, FENCE_list, RMW_list))
      ensures forall M: Model :: AllHold(constr, M) <==>
                AllHold(old(constr), M) && PositiveStep(sys, ts, |old(steps)|, M)
    {
      var n := |steps|;
      Bookkeeping(ts);
      StepEnters(sys, steps, ts, n, Lists(READ_list, WRITE_list - {0}, FENCE_list, RMW_list));
      AllHoldAppend(constr, PositiveF(Now(n)));
      constr := constr + [PositiveF(Now(n))];
      if WritesAny(sys, ts) {
        AllHoldAppend(constr, PositiveF(Facet(n)));
        constr := constr + [PositiveF(Facet(n))];
      }
    }

    method RegisterSteps(host: string, inst_seq: seq<Instr>)
      requires Valid() && !finished && host != sys.global
      requires forall k :: 0 <= k < |inst_seq| ==> WellBuilt(sys, InstStep(host, inst_seq, k))
      modifies this
      ensures Valid() && !finished
      ensures steps == old(steps) + InstSteps(host, inst_seq, |inst_seq|)
      ensures forall M: Model :: AllHold(constr, M) <==>
                AllHold(old(constr), M) && PositiveSteps(sys, steps, |old(steps)|, M)
    {
      var k := 0;
      while k < |inst_seq|
        invariant 0 <= k <= |inst_seq|
        invariant Valid() && !finished
        invariant steps == old(steps) + InstSteps(host, inst_seq, k)
        invariant PushedPositive(sys, steps, |old(steps)|, old(constr), constr)
      {
        ghost var before, mid := steps, constr;
        RegisterStep(InstStep(host, inst_seq, k));
        PushedOneMore(sys, before, InstStep(host, inst_seq, k), |old(steps)|, old(constr), mid, constr);
        NextInstStep(host, inst_seq, k);
        k := k + 1;
      }
    }

    method FinishRegisterSteps()
      requires Valid() && !finished
      modifies this
      ensures Valid() && finished && steps == old(steps) && constr == old(constr)
    {
      PureWrite_list := WRITE_list - RMW_list;
      finished := true;
      if WritesAny(sys, steps[0]) {
        WRITE_list := WRITE_list + {0};
      }
      InitWritesShared(sys, steps);
    }

    /** The final step comes after every instruction step and the initial step, and the
        property holds on its variables. */
    method SetFinalProperty(property: Expr)
      requires Valid() && finished
      modifies this
      ensures Valid() && finished && steps == old(steps) + [FinalStep(sys, property)]
      ensures forall M: Model :: AllHold(constr, M) <==>
                AllHold(old(constr), M) && FinalLast(M, |old(steps)|) &&
                PropertyHolds(sys, M, property)
    {
      var ts := FinalStep(sys, property);
      var n := |steps|;
      var cs := FinalF(sys, property, n);
      AllHoldConcat(constr, cs);
      AppendStep(sys, steps, ts, Lists(READ_list, WRITE_list - {0}, FENCE_list, RMW_list));
      steps := steps + [ts];
      READ_list := READ_list + Single(ReadsAny(sys, ts), n);
      constr := constr + cs;
    }

    method Push(cs: seq<Formula>)
      requires Valid()
      modifies `constr
      ensures Valid() && constr == old(constr) + cs
    {
      constr := constr + cs;
    }

    /** The pushed formulas hold in a model exactly when its timestamps and values satisfy the
        TSO axioms. */
    method ApplyAxioms()
      requires Valid() && finished
      modifies `constr
      ensures Valid()
      ensures forall M: Model :: Good(sys, steps, M) ==>
                (AllHold(constr, M) <==> AllHold(old(constr), M) && TsoAxioms(ProgOf(sys, steps, M), M.t))
      ensures forall M: Model :: AllHold(constr, M) ==> AllHold(old(constr), M)
    {
      ghost var l := Lists(READ_list, WRITE_list - {0}, FENCE_list, RMW_list);
      ListsCover(sys, steps, l, WRITE_list);
      var var11 := RfCoFrF(TSO, sys, steps, READ_list, WRITE_list);
      var var13 := WriteFacetOrderF(PureWrite_list);
      var var18 := StoreF(steps, WRITE_list);
      var var22 := FenceF(steps, FENCE_list, WRITE_list);
      var var24 := RmwF(RMW_list);
      PushFive(constr, var11, var13, var18, var22, var24);
      constr := constr + [var11, var13, var18, var22, var24];
      forall M: Model | Good(sys, steps, M)
        ensures Holds(var11, M) && Holds(var13, M) && Holds(var18, M) && Holds(var22, M) && Holds(var24, M) <==>
                TsoAxioms(ProgOf(sys, steps, M), M.t) {
        ListsMeaning(sys, steps, l, M);
        KindMeaning(ProgOf(sys, steps, M), M.t);
        FacetOrderMeaning(ProgOf(sys, steps, M), steps, l, WRITE_list, M);
        StoreMeaning(ProgOf(sys, steps, M), steps, l, WRITE_list, M);
        FenceMeaning(ProgOf(sys, steps, M), steps, l, WRITE_list, M);
        RmwMeaning(ProgOf(sys, steps, M), steps, l, M);
      }
    }
  }

  /** The lists of a finished registration are what the axioms quantify over. */
  ghost predicate ListsFit(p: Prog, steps: seq<TraceStep>, l: Lists) {
    && |p.steps| == |steps|
    && (forall i :: 0 <= i < |steps| ==> p.steps[i].core == steps[i].host)
    && (forall i :: i in l.writers <==> i != 0 && Writer(p, i))
    && (forall i :: i in l.fences <==> Inst(p, i) && p.steps[i].fence)
    && (forall i :: i in l.rmws <==> Inst(p, i) && p.steps[i].rmw)
    && (forall i :: Inst(p, i) && p.steps[i].core == p.steps[0].core ==> !Writer(p, i) && !p.steps[i].fence)
  }

  lemma StepFits(sys: System, steps: seq<TraceStep>, M: Model, i: nat)
    requires Registered(sys, steps) && 1 <= i < |steps|
    ensures var st := ProgOf(sys, steps, M).steps[i];
            && (st.stores != map[] <==> WritesAny(sys, steps[i]))
            && (st.loads != map[] <==> ReadsAny(sys, steps[i]))
            && st.fence == IsFence(steps[i]) && st.rmw == IsRmw(steps[i])
            && (st.core == sys.global <==> steps[i].kind == FINAL_EVT)
            && st.final == (steps[i].kind == FINAL_EVT) && st.core == steps[i].host
  {
    StepOfProg(sys, steps, M, i);
    var st := ProgOf(sys, steps, M).steps[i];
    assert WellBuilt(sys, steps[i]);
    assert st.stores.Keys == WriteSet(steps[i]) * sys.shared;
    assert st.loads.Keys == ReadSet(steps[i]) * sys.shared;
  }

  lemma ListsMeaning(sys: System, steps: seq<TraceStep>, l: Lists, M: Model)
    requires Registered(sys, steps) && ListsAre(sys, steps, l)
    ensures ListsFit(ProgOf(sys, steps, M), steps, l)
  {
    forall i: nat | 1 <= i < |steps|
      ensures var st := ProgOf(sys, steps, M).steps[i];
              && (st.stores != map[] <==> WritesAny(sys, steps[i]))
              && st.fence == IsFence(steps[i]) && st.rmw == IsRmw(steps[i])
              && st.core == steps[i].host
              && (st.core == sys.global ==> st.stores == map[] && !st.fence) {
      StepFits(sys, steps, M, i);
    }
    HostMeaning(sys, steps, M, 0);
  }

  lemma FacetOrderMeaning(p: Prog, steps: seq<TraceStep>, l: Lists, writes: set<nat>, M: Model)
    requires Timed(p, M.t) && ListsFit(p, steps, l) && writes - {0} == l.writers
    ensures (forall w :: w in writes - {0} - l.rmws ==> Holds(HbF(Now(w), WfeGlobal(w)), M)) <==>
            TsoWriteFacetOrder(p, M.t)
  {
    forall w ensures w in writes - {0} - l.rmws <==> PureWriter(p, w) {
      assert w in l.writers <==> w in writes && w != 0;
    }
    forall w | PureWriter(p, w) ensures Holds(HbF(Now(w), WfeGlobal(w)), M) <==> M.t.ts[w] < M.t.gts[w] {
    }
  }

  lemma RmwMeaning(p: Prog, steps: seq<TraceStep>, l: Lists, M: Model)
    requires Timed(p, M.t) && ListsFit(p, steps, l)
    ensures (forall i :: i in l.rmws ==> Holds(SyncF(Now(i), WfeGlobal(i)), M)) <==> TsoRmw(p, M.t)
  {
    forall i | Inst(p, i) && p.steps[i].rmw
      ensures Holds(SyncF(Now(i), WfeGlobal(i)), M) <==> M.t.ts[i] == M.t.gts[i] {
    }
  }

  lemma StoreMeaning(p: Prog, steps: seq<TraceStep>, l: Lists, writes: set<nat>, M: Model)
    requires Timed(p, M.t) && ListsFit(p, steps, l) && writes - {0} == l.writers
    requires forall x :: x in writes ==> x < |steps|
    ensures (forall w1, w2 :: w1 in writes && w2 in writes ==> StoresInOrder(steps, M, w1, w2)) <==>
            TsoStore(p, M.t)
  {
    if forall w1, w2 :: w1 in writes && w2 in writes ==> StoresInOrder(steps, M, w1, w2) {
      forall w1, w2 | Writer(p, w1) && Writer(p, w2) && w1 != w2 && SameCore(p, w1, w2) && M.t.ts[w1] < M.t.ts[w2]
        ensures M.t.gts[w1] < M.t.gts[w2] {
        assert w1 != 0 && w2 != 0;
        assert StoresInOrder(steps, M, w1, w2);
      }
    }
  }

  lemma FenceMeaning(p: Prog, steps: seq<TraceStep>, l: Lists, writes: set<nat>, M: Model)
    requires Timed(p, M.t) && ListsFit(p, steps, l) && writes - {0} == l.writers
    requires forall x :: x in writes ==> x < |steps|
    ensures (forall f, w :: f in l.fences && w in writes ==> FenceWaits(steps, M, f, w)) <==> TsoFence(p, M.t)
  {
    if forall f, w :: f in l.fences && w in writes ==> FenceWaits(steps, M, f, w) {
      forall f, w | Inst(p, f) && p.steps[f].fence && Writer(p, w) && SameCore(p, w, f) && M.t.ts[w] < M.t.ts[f]
        ensures M.t.gts[w] < M.t.ts[f] {
        assert w != 0;
        assert FenceWaits(steps, M, f, w);
      }
    }
  }

  /** The SC model registers the same steps without facets and pushes one axiom. */
  class Sc {
    const sys: System
    var steps: seq<TraceStep>
    var WRITE_list: set<nat>
    var READ_list: set<nat>
    var finished: bool
    var constr: seq<Formula>
    ghost var fences: set<nat>
    ghost var rmws: set<nat>

    ghost predicate Valid()
      reads this
    {
      && Registered(sys, steps)
      && ListsAre(sys, steps, Lists(READ_list, WRITE_list - {0}, fences, rmws))
      && (0 in WRITE_list <==> finished && sys.shared != {})
    }

    constructor (sys: System, init: Instr)
      requires init.decode == BoolConst(true)
      requires forall s :: s in sys.shared ==> UpdateOf(init, s) == Some(Var(s))
      ensures Valid() && !finished && constr == []
      ensures this.sys == sys && steps == [TraceStep(INIT_EVT, sys.global, init, 0, BoolConst(true))]
    {
      this.sys := sys;
      steps := [TraceStep(INIT_EVT, sys.global, init, 0, BoolConst(true))];
      WRITE_list, READ_list, fences, rmws := {}, {}, {}, {};
      finished := false;
      constr := [];
    }

    method Bookkeeping(ts: TraceStep)
      requires Valid() && !finished && WellBuilt(sys, ts) && ts.kind == INST_EVT
      modifies this
      ensures Valid() && !finished && steps == old(steps) + [ts] && constr == old(constr)
    {
      var n := |steps|;
      assert WRITE_list - {0} == WRITE_list;
      AppendStep(sys, steps, ts, Lists(READ_list, WRITE_list, fences, rmws));
      steps := steps + [ts];
      WRITE_list := WRITE_list + Single(WritesAny(sys, ts), n);
      assert WRITE_list - {0} == WRITE_list;
      READ_list := READ_list + Single(ReadsAny(sys, ts), n);
      fences := fences + Single(IsFence(ts), n);
      rmws := rmws + Single(IsRmw(ts), n);
    }

    method RegisterStep(ts: TraceStep)
      requires Valid() && !finished && WellBuilt(sys, ts) && ts.kind == INST_EVT
      modifies this
      ensures Valid() && !finished && steps == old(steps) + [ts]
      ensures Enters(sys, ts, |old(steps)|, Lists(READ_list, WRITE_list - {0}, fences, rmws))
      ensures forall M: Model :: AllHold(constr, M) <==> AllHold(old(constr), M) && Time(M, Now(|old(steps)|)) > 0
    {
      var n := |steps|;
      Bookkeeping(ts);
      StepEnters(sys, steps, ts, n, Lists(READ_list, WRITE_list - {0}, fences, rmws));
      AllHoldAppend(constr, PositiveF(Now(n)));
      constr := constr + [PositiveF(Now(n))];
    }

    method RegisterSteps(host: string, inst_seq: seq<Instr>)
      requires Valid() && !finished && host != sys.global
      requires forall k :: 0 <= k < |inst_seq| ==> WellBuilt(sys, InstStep(host, inst_seq, k))
      modifies this
      ensures Valid() && !finished
      ensures steps == old(steps) + InstSteps(host, inst_seq, |inst_seq|)
      ensures forall M: Model :: AllHold(constr, M) <==>
                AllHold(old(constr), M) && PositiveFrom(steps, |old(steps)|, M)
    {
      var k := 0;
      while k < |inst_seq|
        invariant 0 <= k <= |inst_seq|
        invariant Valid() && !finished
        invariant steps == old(steps) + InstSteps(host, inst_seq, k)
        invariant PushedMoments(steps, |old(steps)|, old(constr), constr)
      {
        ghost var before, mid := steps, constr;
        RegisterStep(InstStep(host, inst_seq, k));
        MomentOneMore(before, InstStep(host, inst_seq, k), |old(steps)|, old(constr), mid, constr);
        NextInstStep(host, inst_seq, k);
        k := k + 1;
      }
    }

    method FinishRegisterSteps()
      requires Valid() && !finished
      modifies this
      ensures Valid() && finished && steps == old(steps) && constr == old(constr)
    {
      InitWritesShared(sys, steps);
      assert WRITE_list + {0} - {0} == WRITE_list - {0};
      finished := true;
      if WritesAny(sys, steps[0]) {
        WRITE_list := WRITE_list + {0};
      }
    }

    /** The final step comes after every instruction step and the initial step, and the
        property holds on its variables. */
    method SetFinalProperty(property: Expr)
      requires Valid() && finished
      modifies this
      ensures Valid() && finished && steps == old(steps) + [FinalStep(sys, property)]
      ensures forall M: Model :: AllHold(constr, M) <==>
                AllHold(old(constr), M) && FinalLast(M, |old(steps)|) && PropertyHolds(sys, M, property)
    {
      var ts := FinalStep(sys, property);
      var n := |steps|;
      var cs := FinalF(sys, property, n);
      AllHoldConcat(constr, cs);
      AppendStep(sys, steps, ts, Lists(READ_list, WRITE_list - {0}, fences, rmws));
      steps := steps + [ts];
      READ_list := READ_list + Single(ReadsAny(sys, ts), n);
      constr := constr + cs;
    }

    method Push(cs: seq<Formula>)
      requires Valid()
      modifies `constr
      ensures Valid() && constr == old(constr) + cs
    {
      constr := constr + cs;
    }

    method ApplyAxioms()
      requires Valid() && finished
      modifies `constr
      ensures Valid()
      ensures forall M: Model :: Good(sys, steps, M) ==>
                (AllHold(constr, M) <==> AllHold(old(constr), M) && ScAxioms(ProgOf(sys, steps, M), M.t))
      ensures forall M: Model :: AllHold(constr, M) ==> AllHold(old(constr), M)
    {
      ghost var l := Lists(READ_list, WRITE_list - {0}, fences, rmws);
      ListsCover(sys, steps, l, WRITE_list);
      var var11 := RfCoFrF(SC, sys, steps, READ_list, WRITE_list);
      AllHoldAppend(constr, var11);
      constr := constr + [var11];
      forall M: Model | Good(sys, steps, M)
        ensures Holds(var11, M) <==> ScAxioms(ProgOf(sys, steps, M), M.t) {
        KindMeaning(ProgOf(sys, steps, M), M.t);
      }
    }
  }

  lemma PushFive(l: seq<Formula>, a: Formula, b: Formula, c: Formula, d: Formula, e: Formula)
    ensures forall M: Model :: AllHold(l + [a, b, c, d, e], M) <==>
              AllHold(l, M) && Holds(a, M) && Holds(b, M) && Holds(c, M) && Holds(d, M) && Holds(e, M)
  {
    AllHoldAppend(l, a);
    AllHoldAppend(l + [a], b);
    AllHoldAppend(l + [a] + [b], c);
    AllHoldAppend(l + [a] + [b] + [c], d);
    AllHoldAppend(l + [a] + [b] + [c] + [d], e);
    assert l + [a] + [b] + [c] + [d] + [e] == l + [a, b, c, d, e];
  }

  lemma ListsCover(sys: System, steps: seq<TraceStep>, l: Lists, writes: set<nat>)
    requires Registered(sys, steps) && ListsAre(sys, steps, l)
    requires writes - {0} == l.writers && (0 in writes <==> sys.shared != {})
    ensures AllWriters(sys, steps, writes)
    ensures forall r :: r in l.readers ==> 1 <= r < |steps|
    ensures forall r, s :: ReadsShared(sys, steps, r, s) ==> r in l.readers
    ensures forall x :: x in writes || x in l.fences ==> x < |steps|
  {
    forall x, s | WritesShared(sys, steps, x, s) ensures x in writes {
      if x != 0 {
        assert s in WriteSet(steps[x]) * sys.shared;
      }
    }
    forall x | x in writes ensures x < |steps| && steps[x].kind != FINAL_EVT {
      if x != 0 {
        assert x in l.writers && WritesAny(sys, steps[x]);
      }
    }
    forall r, s | ReadsShared(sys, steps, r, s) ensures r in l.readers {
      assert s in ReadSet(steps[r]) * sys.shared;
    }
  }

  lemma InitWritesShared(sys: System, steps: seq<TraceStep>)
    requires Registered(sys, steps)
    ensures sys.shared <= WriteSet(steps[0])
  {
    forall s | s in sys.shared ensures s in WriteSet(steps[0]) {
      FindIsWritten(steps[0], s);
    }
  }
}
