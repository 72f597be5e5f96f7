/** The constraint language of the multi-ILA unroller: trace steps, the formulas that are pushed
    for them, and the helpers that pair the memory accesses of two steps. */
module Constraints {
  import opened Ast
  import opened Ila
  import opened Trace

  datatype StepKind = INST_EVT | INIT_EVT | FINAL_EVT

  /** `pos` is the suffix of the variables of the step; the final step has suffix -1. */
  datatype TraceStep = TraceStep(kind: StepKind, host: string, inst: Instr, pos: int, property: Expr)

  /** Shared state names, those of them that are memories, and the name of the global ILA. */
  datatype System = System(shared: set<string>, mems: set<string>, global: string)

  const FINAL_SUFFIX: int := -1

  // ---------- formulas ----------

  /** Step numbers identify timestamps; step 0 is the initial step, at time 0. */
  datatype Stamp = Now(step: nat) | Facet(step: nat)

  /** The variables of one host with one suffix. */
  datatype Frame = Frame(host: string, pos: int)

  datatype Formula =
    | BoolF(b: bool)
    | HbF(l: Stamp, r: Stamp)
    | SyncF(l: Stamp, r: Stamp)
    | PositiveF(s: Stamp)
    | HoldsF(f: Frame, e: Expr)
    | EqualF(lf: Frame, le: Expr, rf: Frame, re: Expr)
    | SelectF(mem: string, mf: Frame, f: Frame, addr: Expr, data: Expr)
    | AndF(p: Formula, q: Formula)
    | OrF(p: Formula, q: Formula)
    | ImpliesF(p: Formula, q: Formula)

  /** An assignment to all solver variables. */
  datatype Model = Model(interp: Interp, env: (string, int) -> Env, t: Times)

  ghost function Time(M: Model, s: Stamp): int {
    match s
    case Now(i) => if 0 < i < |M.t.ts| then M.t.ts[i] else 0
    case Facet(i) => if i < |M.t.gts| then M.t.gts[i] else 0
  }

  ghost function ValueAt(M: Model, f: Frame, e: Expr): Value {
    Eval(M.interp, e, M.env(f.host, f.pos))
  }

  ghost predicate Holds(f: Formula, M: Model) {
    match f
    case BoolF(b) => b
    case HbF(l, r) => Time(M, l) < Time(M, r)
    case SyncF(l, r) => Time(M, l) == Time(M, r)
    case PositiveF(s) => Time(M, s) > 0
    case HoldsF(fr, e) => Truth(ValueAt(M, fr, e))
    case EqualF(lf, le, rf, re) => ValueAt(M, lf, le) == ValueAt(M, rf, re)
    case SelectF(mem, mf, fr, addr, data) =>
      InitialWord(M, mf, mem, ValueAt(M, fr, addr)) == ValueAt(M, fr, data)
    case AndF(p, q) => Holds(p, M) && Holds(q, M)
    case OrF(p, q) => Holds(p, M) || Holds(q, M)
    case ImpliesF(p, q) => Holds(p, M) ==> Holds(q, M)
  }

  /** select(mem, addr) on the memory variable of a frame. */
  ghost function InitialWord(M: Model, f: Frame, mem: string, addr: Value): Value {
    BvV(Words(M.env(f.host, f.pos)(mem))[Word(addr)])
  }

  ghost predicate AllHold(fs: seq<Formula>, M: Model) {
    forall i {:trigger fs[i]} :: 0 <= i < |fs| ==> Holds(fs[i], M)
  }

  /** Z3ForallList: true without conjuncts. */
  method ForallList(l: seq<Formula>) returns (ret: Formula)
    ensures forall M: Model :: Holds(ret, M) <==> AllHold(l, M)
  {
    if |l| == 0 {
      return BoolF(true);
    }
    ret := l[0];
    var i := 1;
    while i < |l|
      invariant 1 <= i <= |l|
      invariant forall M: Model :: Holds(ret, M) <==> AllHold(l[..i], M)
    {
      assert l[..i + 1] == l[..i] + [l[i]];
      ret := AndF(ret, l[i]);
      i := i + 1;
    }
    assert l[..i] == l;
  }

  ghost predicate SomeHolds(fs: seq<Formula>, M: Model) {
    exists i {:trigger fs[i]} :: 0 <= i < |fs| && Holds(fs[i], M)
  }

  /** Z3ExistsList: false without disjuncts. */
  method ExistsList(l: seq<Formula>) returns (ret: Formula)
    ensures forall M: Model :: Holds(ret, M) <==> SomeHolds(l, M)
  {
    if |l| == 0 {
      return BoolF(false);
    }
    ret := l[0];
    var i := 1;
    assert forall M: Model :: SomeHolds(l[..1], M) <==> Holds(l[..1][0], M);
    while i < |l|
      invariant 1 <= i <= |l|
      invariant forall M: Model :: Holds(ret, M) <==> SomeHolds(l[..i], M)
    {
      SomeHoldsAppend(l[..i], l[i]);
      assert l[..i + 1] == l[..i] + [l[i]];
      ret := OrF(ret, l[i]);
      i := i + 1;
    }
    assert l[..i] == l;
  }

  lemma SomeHoldsAppend(l: seq<Formula>, f: Formula)
    ensures forall M: Model :: SomeHolds(l + [f], M) <==> SomeHolds(l, M) || Holds(f, M)
  {
    forall M: Model ensures SomeHolds(l + [f], M) <==> SomeHolds(l, M) || Holds(f, M) {
      if SomeHolds(l, M) {
        var i :| 0 <= i < |l| && Holds(l[i], M);
        assert (l + [f])[i] == l[i];
      }
      assert (l + [f])[|l|] == f;
    }
  }

  lemma AllHoldAppend(l: seq<Formula>, f: Formula)
    ensures forall M: Model :: AllHold(l + [f], M) <==> AllHold(l, M) && Holds(f, M)
  {
    forall M: Model ensures AllHold(l + [f], M) <==> AllHold(l, M) && Holds(f, M) {
      if AllHold(l + [f], M) {
        assert (l + [f])[|l|] == f;
        forall i | 0 <= i < |l| ensures Holds(l[i], M) {
          assert (l + [f])[i] == l[i];
        }
      }
    }
  }

  lemma AllHoldConcat(a: seq<Formula>, b: seq<Formula>)
    ensures forall M: Model :: AllHold(a + b, M) <==> AllHold(a, M) && AllHold(b, M)
  {
    forall M: Model ensures AllHold(a + b, M) <==> AllHold(a, M) && AllHold(b, M) {
      if AllHold(a + b, M) {
        forall i | 0 <= i < |a| ensures Holds(a[i], M) {
          assert (a + b)[i] == a[i];
        }
        forall i | 0 <= i < |b| ensures Holds(b[i], M) {
          assert (a + b)[|a| + i] == b[i];
        }
      }
    }
  }

  // ---------- what an instruction reads and writes ----------

  /** VarUseFinder: the base variable of a STORE is not a use. */
  function Uses(e: Expr): set<string> {
    match e
    case Var(x) => {x}
    case Const(_) => {}
    case App(op, args, _) =>
      if op == kStore && |args| > 0 && args[0].Var? then UsesOf(args[1..]) else UsesOf(args)
  }

  function UsesOf(es: seq<Expr>): set<string> {
    if es == [] then {} else Uses(es[0]) + UsesOf(es[1..])
  }

  datatype LoadExpr = LoadExpr(addr: Expr, data: Expr)

  /** The LOADs of memory variable `s`, in the order of the depth-first visit. */
  function LoadsIn(e: Expr, s: string): seq<LoadExpr> {
    match e
    case Var(_) => []
    case Const(_) => []
    case App(op, args, _) =>
      LoadsInAll(args, s) +
      if op == kLoad && |args| == 2 && args[0] == Var(s) then [LoadExpr(args[1], e)] else []
  }

  function LoadsInAll(es: seq<Expr>, s: string): seq<LoadExpr> {
    if es == [] then [] else LoadsIn(es[0], s) + LoadsInAll(es[1..], s)
  }

  function Values(us: seq<Update>): seq<Expr> {
    seq(|us|, k requires 0 <= k < |us| => us[k].value)
  }

  function Sources(ts: TraceStep): seq<Expr> {
    if ts.kind == FINAL_EVT then [ts.property] else [ts.inst.decode] + Values(ts.inst.updates)
  }

  function ReadSet(ts: TraceStep): set<string> {
    UsesOf(Sources(ts))
  }

  function WriteSet(ts: TraceStep): set<string> {
    if ts.kind == FINAL_EVT then {} else set u | u in ts.inst.updates :: u.state
  }

  function LoadsOf(ts: TraceStep, s: string): seq<LoadExpr> {
    LoadsInAll(Sources(ts), s)
  }

  /** CheckAndPeel for the top-level STORE of a memory update. */
  function Peel(e: Expr, arg: nat): Option<Expr> {
    if e.App? && e.op == kStore && arg < |e.args| then Some(e.args[arg]) else None
  }

  function FrameOf(ts: TraceStep): Frame {
    Frame(ts.host, ts.pos)
  }

  lemma FindIsWritten(ts: TraceStep, s: string)
    requires ts.kind != FINAL_EVT
    ensures s in WriteSet(ts) <==> UpdateOf(ts.inst, s).Some?
  {
  }

  // ---------- the values a model gives to a step ----------

  ghost function LoadValues(M: Model, f: Frame, ls: seq<LoadExpr>): seq<Access> {
    seq(|ls|, k requires 0 <= k < |ls| => Access(ValueAt(M, f, ls[k].addr), ValueAt(M, f, ls[k].data)))
  }

  ghost function WriteValue(sys: System, M: Model, ts: TraceStep, s: string): Access
    requires ts.kind != FINAL_EVT && s in WriteSet(ts)
  {
    FindIsWritten(ts, s);
    var u := UpdateOf(ts.inst, s).value;
    if s !in sys.mems then Access(Register, ValueAt(M, FrameOf(ts), u))
    else if Peel(u, 1).Some? && Peel(u, 2).Some?
    then Access(ValueAt(M, FrameOf(ts), Peel(u, 1).value), ValueAt(M, FrameOf(ts), Peel(u, 2).value))
    else Access(Register, Register)
  }

  ghost function ReadValues(sys: System, M: Model, ts: TraceStep, s: string): seq<Access> {
    if s in sys.mems then LoadValues(M, FrameOf(ts), LoadsOf(ts, s))
    else [Access(Register, ValueAt(M, FrameOf(ts), Var(s)))]
  }

  function IsFence(ts: TraceStep): bool {
    ts.kind == INST_EVT && ts.inst.name in {"fence", "Fence", "FENCE"}
  }

  function IsRmw(ts: TraceStep): bool {
    ts.kind == INST_EVT && ts.inst.name in {"atomic_add", "atomic_and"}
  }

  /** Fences and atomic steps are known by these names of instructions, and by no other. */
  lemma SpecialNames(ts: TraceStep)
    requires ts.kind == INST_EVT
    ensures IsFence(ts) <==> ts.inst.name == "fence" || ts.inst.name == "Fence" || ts.inst.name == "FENCE"
    ensures IsRmw(ts) <==> ts.inst.name == "atomic_add" || ts.inst.name == "atomic_and"
    ensures !(IsFence(ts) && IsRmw(ts))
  {
    if IsFence(ts) { assert ts.inst.name[0] != 'a'; }
    if IsRmw(ts) { assert ts.inst.name[0] == 'a'; }
  }

  ghost function StepValues(sys: System, M: Model, ts: TraceStep): Step {
    Step(ts.host, ts.kind == FINAL_EVT || Truth(ValueAt(M, FrameOf(ts), ts.inst.decode)),
         IsFence(ts), IsRmw(ts), ts.kind == FINAL_EVT,
         map s | s in ReadSet(ts) * sys.shared :: ReadValues(sys, M, ts, s),
         if ts.kind == FINAL_EVT then map[] else map s | s in WriteSet(ts) * sys.shared :: WriteValue(sys, M, ts, s))
  }

  ghost function InitialValues(sys: System, interp: Interp, env: (string, int) -> Env): (string, Value) -> Value {
    (s, a) => if s in sys.mems then BvV(Words(env(sys.global, 0)(s))[Word(a)]) else env(sys.global, 0)(s)
  }

  /** The candidate execution of a model; step 0 is the initial step. */
  ghost function ProgOf(sys: System, steps: seq<TraceStep>, M: Model): Prog
    requires |steps| > 0
  {
    Prog(InitialValues(sys, M.interp, M.env),
         [Step(sys.global, true, false, false, false, map[], map[])] +
         seq(|steps| - 1, i requires 0 <= i < |steps| - 1 => StepValues(sys, M, steps[i + 1])))
  }

  /** Timestamps do not matter for the values. */
  lemma ProgOfIgnoresTimes(sys: System, steps: seq<TraceStep>, M: Model, t: Times)
    requires |steps| > 0
    ensures ProgOf(sys, steps, M) == ProgOf(sys, steps, M.(t := t))
  {
    var N := M.(t := t);
    forall i | 1 <= i < |steps| ensures StepValues(sys, M, steps[i]) == StepValues(sys, N, steps[i]) {
      StepValuesIgnoreTimes(sys, M, N, steps[i]);
    }
    assert ProgOf(sys, steps, M).steps == ProgOf(sys, steps, N).steps;
  }

  lemma StepValuesIgnoreTimes(sys: System, M: Model, N: Model, ts: TraceStep)
    requires M.interp == N.interp && M.env == N.env
    ensures StepValues(sys, M, ts) == StepValues(sys, N, ts)
  {
    forall s ensures ReadValues(sys, M, ts, s) == ReadValues(sys, N, ts, s) {
    }
    assert StepValues(sys, M, ts).loads == StepValues(sys, N, ts).loads;
    assert StepValues(sys, M, ts).stores == StepValues(sys, N, ts).stores;
  }

  ghost predicate Fits(steps: seq<TraceStep>, M: Model) {
    |M.t.ts| == |M.t.gts| == |steps| && |steps| > 0 && M.t.ts[0] == 0 && M.t.gts[0] == 0
  }

  // ---------- SameAddress ----------

  ghost predicate SomeAddress(M: Model, wf: Frame, w: Expr, rf: Frame, ls: seq<LoadExpr>) {
    exists k :: 0 <= k < |ls| && ValueAt(M, wf, w) == ValueAt(M, rf, ls[k].addr)
  }

  method MatchAddress(wf: Frame, w: Expr, rf: Frame, ls: seq<LoadExpr>) returns (match_of_addr: Formula)
    ensures forall M: Model :: Holds(match_of_addr, M) <==> SomeAddress(M, wf, w, rf, ls)
  {
    match_of_addr := BoolF(false);
    for k := 0 to |ls|
      invariant forall M: Model :: Holds(match_of_addr, M) <==> SomeAddress(M, wf, w, rf, ls[..k])
    {
      match_of_addr := OrF(match_of_addr, EqualF(wf, w, rf, ls[k].addr));
      assert ls[..k + 1][k] == ls[k];
      assert forall j :: 0 <= j < k ==> ls[..k + 1][j] == ls[..k][j];
    }
    assert ls[..|ls|] == ls;
  }

  /** A write and a load have to agree on some address, in either direction; two writes have to
      agree when there is nothing else to pair. */
  ghost predicate AddressesMatch(M: Model, leftW: Option<Expr>, leftR: seq<LoadExpr>,
                                 rightW: Option<Expr>, rightR: seq<LoadExpr>, lf: Frame, rf: Frame) {
    if (leftW.None? && leftR == []) || (rightW.None? && rightR == []) then true
    else if (leftW.Some? && rightR != []) || (rightW.Some? && leftR != []) then
      && (leftW.Some? && rightR != [] ==> SomeAddress(M, lf, leftW.value, rf, rightR))
      && (rightW.Some? && leftR != [] ==> SomeAddress(M, rf, rightW.value, lf, leftR))
    else
      leftW.Some? && rightW.Some? ==> ValueAt(M, lf, leftW.value) == ValueAt(M, rf, rightW.value)
  }

  /** MemVarSameAddress.  Two plain reads always match: the disjunction starts from true. */
  method MemVarSameAddress(leftW: Option<Expr>, leftR: seq<LoadExpr>, rightW: Option<Expr>, rightR: seq<LoadExpr>,
                           lf: Frame, rf: Frame) returns (retVal: Formula)
    ensures forall M: Model :: Holds(retVal, M) <==> AddressesMatch(M, leftW, leftR, rightW, rightR, lf, rf)
  {
    retVal := BoolF(true);
    var rwMatchedFlag := false;
    if leftW.None? && leftR == [] {
      return;
    }
    if rightW.None? && rightR == [] {
      return;
    }
    if leftW.Some? && rightR != [] {
      rwMatchedFlag := true;
      var m := MatchAddress(lf, leftW.value, rf, rightR);
      retVal := AndF(retVal, m);
      assert forall M: Model :: Holds(retVal, M) <==> Holds(m, M);
    }
    if rightW.Some? && leftR != [] {
      rwMatchedFlag := true;
      var m := MatchAddress(rf, rightW.value, lf, leftR);
      retVal := AndF(retVal, m);
    }
    if !rwMatchedFlag {
      if leftW.Some? && rightW.Some? {
        retVal := EqualF(lf, leftW.value, rf, rightW.value);
      } else {
        for i := 0 to |leftR|
          invariant forall M: Model :: Holds(retVal, M)
        {
          for j := 0 to |rightR|
            invariant forall M: Model :: Holds(retVal, M)
          {
            retVal := OrF(retVal, EqualF(lf, leftR[i].addr, rf, rightR[j].addr));
          }
        }
      }
    }
  }

  // ---------- SameData ----------

  /** Every load whose address is the written one has the written data. */
  ghost predicate SameWords(M: Model, wf: Frame, a: Expr, d: Expr, rf: Frame, ls: seq<LoadExpr>) {
    forall k {:trigger ls[k]} :: 0 <= k < |ls| ==> SameWord(M, wf, a, d, rf, ls[k])
  }

  ghost predicate SameWord(M: Model, wf: Frame, a: Expr, d: Expr, rf: Frame, l: LoadExpr) {
    ValueAt(M, wf, a) == ValueAt(M, rf, l.addr) ==> ValueAt(M, wf, d) == ValueAt(M, rf, l.data)
  }

  /** Every load has the word that the initial memory holds at its address. */
  ghost predicate InitialWords(M: Model, mem: string, mf: Frame, rf: Frame, ls: seq<LoadExpr>) {
    forall k {:trigger ls[k]} :: 0 <= k < |ls| ==>
      InitialWord(M, mf, mem, ValueAt(M, rf, ls[k].addr)) == ValueAt(M, rf, ls[k].data)
  }

  method MatchData(wf: Frame, a: Expr, d: Expr, rf: Frame, ls: seq<LoadExpr>) returns (match_of_data: Formula)
    ensures forall M: Model :: Holds(match_of_data, M) <==> SameWords(M, wf, a, d, rf, ls)
  {
    match_of_data := BoolF(true);
    for k := 0 to |ls|
      invariant forall M: Model :: Holds(match_of_data, M) <==> SameWords(M, wf, a, d, rf, ls[..k])
    {
      var one := ImpliesF(EqualF(wf, a, rf, ls[k].addr), EqualF(wf, d, rf, ls[k].data));
      assert forall M: Model :: Holds(one, M) <==> SameWord(M, wf, a, d, rf, ls[k]);
      match_of_data := AndF(match_of_data, one);
      SameWordsPush(wf, a, d, rf, ls, k);
    }
    assert ls[..|ls|] == ls;
  }

  method MatchInitial(mem: string, mf: Frame, rf: Frame, ls: seq<LoadExpr>) returns (retVal: Formula)
    ensures forall M: Model :: Holds(retVal, M) <==> InitialWords(M, mem, mf, rf, ls)
  {
    retVal := BoolF(true);
    for k := 0 to |ls|
      invariant forall M: Model :: Holds(retVal, M) <==> InitialWords(M, mem, mf, rf, ls[..k])
    {
      retVal := AndF(retVal, SelectF(mem, mf, rf, ls[k].addr, ls[k].data));
      InitialWordsPush(mem, mf, rf, ls, k);
    }
    assert ls[..|ls|] == ls;
  }

  lemma InitialWordsPush(mem: string, mf: Frame, rf: Frame, ls: seq<LoadExpr>, k: nat)
    requires k < |ls|
    ensures forall M: Model :: InitialWords(M, mem, mf, rf, ls[..k + 1]) <==>
              InitialWords(M, mem, mf, rf, ls[..k]) && Holds(SelectF(mem, mf, rf, ls[k].addr, ls[k].data), M)
  {
    assert ls[..k + 1] == ls[..k] + [ls[k]];
  }

  lemma SameWordsPush(wf: Frame, a: Expr, d: Expr, rf: Frame, ls: seq<LoadExpr>, k: nat)
    requires k < |ls|
    ensures forall M: Model :: SameWords(M, wf, a, d, rf, ls[..k + 1]) <==>
              SameWords(M, wf, a, d, rf, ls[..k]) && SameWord(M, wf, a, d, rf, ls[k])
  {
    forall M: Model
      ensures SameWords(M, wf, a, d, rf, ls[..k + 1]) <==>
              SameWords(M, wf, a, d, rf, ls[..k]) && SameWord(M, wf, a, d, rf, ls[k])
    {
      OneWordMore(M, wf, a, d, rf, ls, k);
    }
  }

  lemma OneWordMore(M: Model, wf: Frame, a: Expr, d: Expr, rf: Frame, ls: seq<LoadExpr>, k: nat)
    requires k < |ls|
    ensures SameWords(M, wf, a, d, rf, ls[..k + 1]) <==>
            SameWords(M, wf, a, d, rf, ls[..k]) && SameWord(M, wf, a, d, rf, ls[k])
  {
    var less, more := ls[..k], ls[..k + 1];
    assert more[k] == ls[k] && forall i :: 0 <= i < k ==> more[i] == less[i];
    if SameWords(M, wf, a, d, rf, more) {
      forall i {:trigger less[i]} | 0 <= i < k ensures SameWord(M, wf, a, d, rf, less[i]) {
        assert SameWord(M, wf, a, d, rf, more[i]);
      }
    }
    if SameWords(M, wf, a, d, rf, less) && SameWord(M, wf, a, d, rf, ls[k]) {
      forall i {:trigger more[i]} | 0 <= i < k + 1 ensures SameWord(M, wf, a, d, rf, more[i]) {
        if i < k { assert SameWord(M, wf, a, d, rf, less[i]); }
      }
    }
  }

  /** Address and data of a write of the step itself: of at most one. */
  function WrittenWord(w: Option<LoadExpr>): seq<LoadExpr> {
    if w.Some? then [w.value] else []
  }

  /** All words of one side that have an address of the other have its data. */
  ghost predicate AllSameWords(M: Model, lf: Frame, ls: seq<LoadExpr>, rf: Frame, rs: seq<LoadExpr>) {
    forall i {:trigger ls[i]} :: 0 <= i < |ls| ==> SameWords(M, lf, ls[i].addr, ls[i].data, rf, rs)
  }

  /** What MemVarSameData says: writes are paired with the loads of the other side in both directions;
      two writes, or loads with loads, only if there is no such pair. */
  ghost predicate DataMatch(M: Model, leftW: Option<LoadExpr>, leftR: seq<LoadExpr>, rightW: Option<LoadExpr>,
                            rightR: seq<LoadExpr>, lf: Frame, rf: Frame) {
    if (leftW.Some? && rightR != []) || (rightW.Some? && leftR != []) then
      AllSameWords(M, lf, WrittenWord(leftW), rf, rightR) && AllSameWords(M, rf, WrittenWord(rightW), lf, leftR)
    else if leftW.Some? && rightW.Some? then AllSameWords(M, lf, WrittenWord(leftW), rf, WrittenWord(rightW))
    else AllSameWords(M, lf, leftR, rf, rightR)
  }

  lemma WrittenWords(M: Model, lf: Frame, w: LoadExpr, rf: Frame, rs: seq<LoadExpr>)
    ensures AllSameWords(M, lf, WrittenWord(Some(w)), rf, rs) <==> SameWords(M, lf, w.addr, w.data, rf, rs)
  {
    assert WrittenWord(Some(w))[0] == w;
  }

  lemma AllSameWordsPush(lf: Frame, ls: seq<LoadExpr>, rf: Frame, rs: seq<LoadExpr>, k: nat)
    requires k < |ls|
    ensures forall M: Model :: AllSameWords(M, lf, ls[..k + 1], rf, rs) <==>
              AllSameWords(M, lf, ls[..k], rf, rs) && SameWords(M, lf, ls[k].addr, ls[k].data, rf, rs)
  {
    var less, more := ls[..k], ls[..k + 1];
    assert more == less + [ls[k]];
    forall M: Model
      ensures AllSameWords(M, lf, more, rf, rs) <==>
              AllSameWords(M, lf, less, rf, rs) && SameWords(M, lf, ls[k].addr, ls[k].data, rf, rs)
    {
      if AllSameWords(M, lf, more, rf, rs) {
        forall i {:trigger less[i]} | 0 <= i < k ensures SameWords(M, lf, less[i].addr, less[i].data, rf, rs) {
          assert more[i] == less[i];
        }
        assert more[k] == ls[k];
      }
    }
  }

  /** The loop over the loads of both sides. */
  method MatchAll(lf: Frame, ls: seq<LoadExpr>, rf: Frame, rs: seq<LoadExpr>) returns (retVal: Formula)
    ensures forall M: Model :: Holds(retVal, M) <==> AllSameWords(M, lf, ls, rf, rs)
  {
    retVal := BoolF(true);
    for k := 0 to |ls|
      invariant forall M: Model :: Holds(retVal, M) <==> AllSameWords(M, lf, ls[..k], rf, rs)
    {
      var one := MatchData(lf, ls[k].addr, ls[k].data, rf, rs);
      retVal := AndF(retVal, one);
      AllSameWordsPush(lf, ls, rf, rs, k);
    }
    assert ls[..|ls|] == ls;
  }

  /** Words that the initial memory has to hold: of a write, if there is one, and of the loads. */
  method MatchInit(mem: string, mf: Frame, w: Option<LoadExpr>, ls: seq<LoadExpr>, f: Frame) returns (retVal: Formula)
    ensures forall M: Model :: Holds(retVal, M) <==> InitialWords(M, mem, mf, f, WrittenWord(w)) && InitialWords(M, mem, mf, f, ls)
  {
    var write := MatchInitial(mem, mf, f, WrittenWord(w));
    var loads := MatchInitial(mem, mf, f, ls);
    retVal := AndF(write, loads);
  }

  method MemVarSameData(leftInit: bool, leftW: Option<LoadExpr>, leftR: seq<LoadExpr>, rightInit: bool,
                        rightW: Option<LoadExpr>, rightR: seq<LoadExpr>, lf: Frame, rf: Frame, mem: string, mf: Frame)
    returns (retVal: Formula)
    ensures forall M: Model :: Holds(retVal, M) <==>
      if leftInit && rightInit then true
      else if leftInit then InitialWords(M, mem, mf, rf, WrittenWord(rightW)) && InitialWords(M, mem, mf, rf, rightR)
      else if rightInit then InitialWords(M, mem, mf, lf, WrittenWord(leftW)) && InitialWords(M, mem, mf, lf, leftR)
      else DataMatch(M, leftW, leftR, rightW, rightR, lf, rf)
  {
    retVal := BoolF(true);
    if leftInit && rightInit {
      return;
    }
    if leftInit {
      retVal := MatchInit(mem, mf, rightW, rightR, rf);
      return;
    }
    if rightInit {
      retVal := MatchInit(mem, mf, leftW, leftR, lf);
      return;
    }
    if leftW.None? && leftR == [] {
      return;
    }
    if rightW.None? && rightR == [] {
      return;
    }
    retVal := PairData(leftW, leftR, rightW, rightR, lf, rf);
  }

  method PairData(leftW: Option<LoadExpr>, leftR: seq<LoadExpr>, rightW: Option<LoadExpr>, rightR: seq<LoadExpr>,
                  lf: Frame, rf: Frame) returns (retVal: Formula)
    ensures forall M: Model :: Holds(retVal, M) <==> DataMatch(M, leftW, leftR, rightW, rightR, lf, rf)
  {
    var rwMatchedFlag := false;
    var there, back := BoolF(true), BoolF(true);
    if leftW.Some? && rightR != [] {
      rwMatchedFlag := true;
      there := MatchAll(lf, [leftW.value], rf, rightR);
    }
    if rightW.Some? && leftR != [] {
      rwMatchedFlag := true;
      back := MatchAll(rf, [rightW.value], lf, leftR);
    }
    retVal := AndF(there, back);
    if !rwMatchedFlag {
      if leftW.Some? && rightW.Some? {
        retVal := MatchAll(lf, [leftW.value], rf, [rightW.value]);
      } else {
        retVal := MatchAll(lf, leftR, rf, rightR);
      }
    }
  }

  // ---------- the helpers on trace steps ----------

  datatype Hint = HINT_READ | HINT_WRITE

  /** The address field of the update, unless the step is looked at as a read. */
  function WriteAddr(ts: TraceStep, s: string, hint: Hint): Option<Expr> {
    if hint == HINT_READ || UpdateOf(ts.inst, s).None? then None else Peel(UpdateOf(ts.inst, s).value, 1)
  }

  /** The loads of the step, unless it is looked at as a write. */
  function ReadLoads(ts: TraceStep, s: string, hint: Hint): seq<LoadExpr> {
    if hint == HINT_WRITE then [] else LoadsOf(ts, s)
  }

  method SameAddressF(sys: System, l: TraceStep, r: TraceStep, s: string, lhint: Hint, rhint: Hint)
    returns (f: Formula)
    ensures forall M: Model :: Holds(f, M) <==>
      s !in sys.mems || l.kind == INIT_EVT || r.kind == INIT_EVT ||
      AddressesMatch(M, WriteAddr(l, s, lhint), ReadLoads(l, s, lhint), WriteAddr(r, s, rhint), ReadLoads(r, s, rhint),
                     FrameOf(l), FrameOf(r))
  {
    if s !in sys.mems || l.kind == INIT_EVT || r.kind == INIT_EVT {
      return BoolF(true);
    }
    f := MemVarSameAddress(WriteAddr(l, s, lhint), ReadLoads(l, s, lhint), WriteAddr(r, s, rhint),
                           ReadLoads(r, s, rhint), FrameOf(l), FrameOf(r));
  }

  /** SameData(w, r, s, HINT_WRITE, HINT_READ). */
  method SameDataF(sys: System, w: TraceStep, r: TraceStep, s: string) returns (f: Formula)
    requires w.kind != FINAL_EVT && s in WriteSet(w) && s in ReadSet(r)
    requires s in sys.mems && w.kind != INIT_EVT ==>
      Peel(UpdateOf(w.inst, s).value, 1).Some? && Peel(UpdateOf(w.inst, s).value, 2).Some?
    ensures forall M: Model :: Holds(f, M) <==>
      (if s !in sys.mems then ValueAt(M, FrameOf(w), UpdateOf(w.inst, s).value) == ValueAt(M, FrameOf(r), Var(s))
       else if w.kind == INIT_EVT then
         r.kind != INIT_EVT ==> InitialWords(M, s, Frame(sys.global, 0), FrameOf(r), LoadsOf(r, s))
       else if r.kind == INIT_EVT then
         InitialWord(M, Frame(sys.global, 0), s,
                     ValueAt(M, FrameOf(w), Peel(UpdateOf(w.inst, s).value, 1).value)) ==
         ValueAt(M, FrameOf(w), Peel(UpdateOf(w.inst, s).value, 2).value)
       else SameWords(M, FrameOf(w), Peel(UpdateOf(w.inst, s).value, 1).value,
                      Peel(UpdateOf(w.inst, s).value, 2).value, FrameOf(r), LoadsOf(r, s)))
  {
    FindIsWritten(w, s);
    var u := UpdateOf(w.inst, s).value;
    if s !in sys.mems {
      return AndF(BoolF(true), EqualF(FrameOf(w), u, FrameOf(r), Var(s)));
    }
    var write := if w.kind == INIT_EVT then None else Some(LoadExpr(Peel(u, 1).value, Peel(u, 2).value));
    var rightR := LoadsOf(r, s);
    f := MemVarSameData(w.kind == INIT_EVT, write, [], r.kind == INIT_EVT, None, rightR, FrameOf(w), FrameOf(r), s,
                        Frame(sys.global, 0));
    if w.kind != INIT_EVT {
      WrittenAndLoaded(s, Frame(sys.global, 0), write.value, FrameOf(w), FrameOf(r), rightR);
    }
  }

  lemma WrittenAndLoaded(mem: string, mf: Frame, w: LoadExpr, lf: Frame, rf: Frame, ls: seq<LoadExpr>)
    ensures forall M: Model :: DataMatch(M, Some(w), [], None, ls, lf, rf) <==> SameWords(M, lf, w.addr, w.data, rf, ls)
    ensures forall M: Model :: InitialWords(M, mem, mf, lf, WrittenWord(Some(w))) && InitialWords(M, mem, mf, lf, []) <==>
              InitialWord(M, mf, mem, ValueAt(M, lf, w.addr)) == ValueAt(M, lf, w.data)
  {
    assert WrittenWord(Some(w))[0] == w;
    forall M: Model
      ensures DataMatch(M, Some(w), [], None, ls, lf, rf) <==> SameWords(M, lf, w.addr, w.data, rf, ls)
    {
      WrittenWords(M, lf, w, rf, ls);
    }
  }

  // ---------- the helpers mean what the axioms say ----------

  /** Step 0 is the initial step, the others are instruction steps with top-level STOREs for
      shared memories and, possibly, the final step; hosts other than the global ILA. */
  ghost predicate Registered(sys: System, steps: seq<TraceStep>) {
    && |steps| > 0
    && steps[0].kind == INIT_EVT && steps[0].host == sys.global && steps[0].pos == 0
    && steps[0].inst.decode == BoolConst(true)
    && (forall s :: s in sys.shared ==> UpdateOf(steps[0].inst, s) == Some(Var(s)))
    && forall i {:trigger steps[i]} :: 1 <= i < |steps| ==> WellBuilt(sys, steps[i])
  }

  ghost predicate WellBuilt(sys: System, ts: TraceStep) {
    && ts.kind != INIT_EVT
    && (ts.kind == FINAL_EVT <==> ts.host == sys.global)
    && (ts.kind == INST_EVT ==> forall s :: s in WriteSet(ts) * sys.shared * sys.mems ==> StoreUpdate(ts, s))
    && (IsRmw(ts) ==> WriteSet(ts) * sys.shared != {})
  }

  ghost predicate StoreUpdate(ts: TraceStep, s: string) {
    UpdateOf(ts.inst, s).Some? && Peel(UpdateOf(ts.inst, s).value, 1).Some? && Peel(UpdateOf(ts.inst, s).value, 2).Some?
  }

  ghost predicate WritesShared(sys: System, steps: seq<TraceStep>, w: int, s: string) {
    0 <= w < |steps| && steps[w].kind != FINAL_EVT && s in WriteSet(steps[w]) && s in sys.shared
  }

  ghost predicate ReadsShared(sys: System, steps: seq<TraceStep>, r: int, s: string) {
    1 <= r < |steps| && s in ReadSet(steps[r]) && s in sys.shared
  }

  lemma StepOfProg(sys: System, steps: seq<TraceStep>, M: Model, i: int)
    requires Registered(sys, steps) && 1 <= i < |steps|
    ensures Inst(ProgOf(sys, steps, M), i) && ProgOf(sys, steps, M).steps[i] == StepValues(sys, M, steps[i])
  {
  }

  lemma WritesMeaning(sys: System, steps: seq<TraceStep>, M: Model, w: int, s: string)
    requires Registered(sys, steps) && s in sys.shared
    ensures Writes(ProgOf(sys, steps, M), w, s) <==> WritesShared(sys, steps, w, s)
  {
    FindIsWritten(steps[0], s);
    if 1 <= w < |steps| {
      StepOfProg(sys, steps, M, w);
    }
  }

  /** What step w writes to a shared state, for a step that is no initial one. */
  lemma WrittenValue(sys: System, steps: seq<TraceStep>, M: Model, w: int, s: string)
    requires Registered(sys, steps) && WritesShared(sys, steps, w, s) && w != 0
    ensures Writes(ProgOf(sys, steps, M), w, s)
    ensures ProgOf(sys, steps, M).steps[w].stores[s] == WriteValue(sys, M, steps[w], s)
    ensures s in sys.mems ==> StoreUpdate(steps[w], s)
  {
    WritesMeaning(sys, steps, M, w, s);
    StepOfProg(sys, steps, M, w);
  }

  /** What step r reads of a shared state. */
  lemma ReadValue(sys: System, steps: seq<TraceStep>, M: Model, r: int, s: string)
    requires Registered(sys, steps) && ReadsShared(sys, steps, r, s)
    ensures
      var p := ProgOf(sys, steps, M);
      && Inst(p, r) && s in p.steps[r].loads && p.steps[r].loads[s] == ReadValues(sys, M, steps[r], s)
      && (s !in sys.mems ==> p.steps[r].loads[s] == [Access(Register, ValueAt(M, FrameOf(steps[r]), Var(s)))])
  {
    StepOfProg(sys, steps, M, r);
  }

  /** A write against loads, from either side. */
  lemma OneWriteMatches(M: Model, a: Expr, es: seq<LoadExpr>, wf: Frame, rf: Frame)
    ensures AddressesMatch(M, Some(a), [], None, es, wf, rf) <==> es == [] || SomeAddress(M, wf, a, rf, es)
    ensures AddressesMatch(M, None, es, Some(a), [], rf, wf) <==> es == [] || SomeAddress(M, wf, a, rf, es)
  {
  }

  lemma SomeLoadMatches(M: Model, f: Frame, es: seq<LoadExpr>, wf: Frame, a: Expr)
    ensures
      var ls := LoadValues(M, f, es);
      (exists k :: 0 <= k < |ls| && ValueAt(M, wf, a) == ls[k].addr) <==> SomeAddress(M, wf, a, f, es)
  {
    var ls := LoadValues(M, f, es);
    assert forall k :: 0 <= k < |es| ==> ls[k].addr == ValueAt(M, f, es[k].addr);
  }

  /** SameAddress, in terms of the expressions of the two steps. */
  lemma AddressOf(sys: System, steps: seq<TraceStep>, M: Model, w: int, r: int, s: string)
    requires Registered(sys, steps) && WritesShared(sys, steps, w, s) && ReadsShared(sys, steps, r, s)
    ensures Writes(ProgOf(sys, steps, M), w, s) && Inst(ProgOf(sys, steps, M), r)
    ensures s in ProgOf(sys, steps, M).steps[r].loads
    ensures s in sys.mems && w != 0 ==> WriteAddr(steps[w], s, HINT_WRITE).Some?
    ensures SameAddress(ProgOf(sys, steps, M), w, r, s) <==>
      (s !in sys.mems || w == 0 || LoadsOf(steps[r], s) == [] ||
       SomeAddress(M, FrameOf(steps[w]), WriteAddr(steps[w], s, HINT_WRITE).value, FrameOf(steps[r]), LoadsOf(steps[r], s)))
  {
    WritesMeaning(sys, steps, M, w, s);
    ReadValue(sys, steps, M, r, s);
    if w != 0 {
      WrittenValue(sys, steps, M, w, s);
      if s !in sys.mems {
        assert ProgOf(sys, steps, M).steps[r].loads[s][0].addr == Register;
      } else {
        SomeLoadMatches(M, FrameOf(steps[r]), LoadsOf(steps[r], s), FrameOf(steps[w]), WriteAddr(steps[w], s, HINT_WRITE).value);
      }
    }
  }

  lemma AddressMeaning(sys: System, steps: seq<TraceStep>, M: Model, w: int, r: int, s: string)
    requires Registered(sys, steps) && WritesShared(sys, steps, w, s) && ReadsShared(sys, steps, r, s)
    ensures Writes(ProgOf(sys, steps, M), w, s) && Inst(ProgOf(sys, steps, M), r)
    ensures s in ProgOf(sys, steps, M).steps[r].loads
    ensures SameAddress(ProgOf(sys, steps, M), w, r, s) <==>
      (s !in sys.mems || steps[w].kind == INIT_EVT ||
       AddressesMatch(M, WriteAddr(steps[w], s, HINT_WRITE), [], None, LoadsOf(steps[r], s),
                      FrameOf(steps[w]), FrameOf(steps[r])))
    ensures SameAddress(ProgOf(sys, steps, M), w, r, s) <==>
      (s !in sys.mems || steps[w].kind == INIT_EVT ||
       AddressesMatch(M, None, LoadsOf(steps[r], s), WriteAddr(steps[w], s, HINT_WRITE), [],
                      FrameOf(steps[r]), FrameOf(steps[w])))
  {
    AddressOf(sys, steps, M, w, r, s);
    assert w != 0 ==> WellBuilt(sys, steps[w]);
    if s in sys.mems && w != 0 {
      OneWriteMatches(M, WriteAddr(steps[w], s, HINT_WRITE).value, LoadsOf(steps[r], s), FrameOf(steps[w]), FrameOf(steps[r]));
    }
  }

  lemma LoadsAt(M: Model, f: Frame, es: seq<LoadExpr>)
    ensures
      var ls := LoadValues(M, f, es);
      |ls| == |es| && forall k {:trigger ls[k]} {:trigger es[k]} :: 0 <= k < |es| ==>
        ls[k] == Access(ValueAt(M, f, es[k].addr), ValueAt(M, f, es[k].data))
  {
  }

  lemma DataMeaning(sys: System, steps: seq<TraceStep>, M: Model, w: int, r: int, s: string)
    requires Registered(sys, steps) && WritesShared(sys, steps, w, s) && ReadsShared(sys, steps, r, s)
    ensures Writes(ProgOf(sys, steps, M), w, s) && Inst(ProgOf(sys, steps, M), r)
    ensures s in ProgOf(sys, steps, M).steps[r].loads
    ensures UpdateOf(steps[w].inst, s).Some?
    ensures SameData(ProgOf(sys, steps, M), w, r, s) <==>
      (if s !in sys.mems
       then ValueAt(M, FrameOf(steps[w]), UpdateOf(steps[w].inst, s).value) == ValueAt(M, FrameOf(steps[r]), Var(s))
       else if w == 0 then InitialWords(M, s, Frame(sys.global, 0), FrameOf(steps[r]), LoadsOf(steps[r], s))
       else StoreUpdate(steps[w], s) &&
            SameWords(M, FrameOf(steps[w]), Peel(UpdateOf(steps[w].inst, s).value, 1).value,
                      Peel(UpdateOf(steps[w].inst, s).value, 2).value, FrameOf(steps[r]), LoadsOf(steps[r], s)))
  {
    var p := ProgOf(sys, steps, M);
    WritesMeaning(sys, steps, M, w, s);
    ReadValue(sys, steps, M, r, s);
    FindIsWritten(steps[w], s);
    if w != 0 { WrittenValue(sys, steps, M, w, s); }
    if s !in sys.mems {
      assert p.steps[r].loads[s][0] == Access(Register, ValueAt(M, FrameOf(steps[r]), Var(s)));
    } else {
      LoadsAt(M, FrameOf(steps[r]), LoadsOf(steps[r], s));
    }
  }
}
