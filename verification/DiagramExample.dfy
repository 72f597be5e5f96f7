/** Two ILAs of one shape, compared by a commuting diagram: what the theorems about the query and the
    step checks assume can be met, by a diagram that commutes and by one that does not. */
module DiagramExample {
  import opened Ast
  import opened Ila
  import opened Frames
  import opened Unrolling
  import opened Encodings
  import opened MonoRuns
  import opened Refinement
  import opened StepChecks
  import opened Latching

  // ---------- the ILA ----------

  function Data(t: string): string { t + ".x" }

  function Done(t: string): string { t + ".d" }

  function Go(t: string): string { t + ".go" }

  /** On the command the data bit is inverted, without it the ILA notes that it is done. */
  function Work(t: string): Instr {
    Instr(t + ".work", Var(Go(t)), [Update(Data(t), Not(Var(Data(t)))), Update(Done(t), BoolConst(false))])
  }

  function Rest(t: string): Instr {
    Instr(t + ".rest", Not(Var(Go(t))), [Update(Done(t), BoolConst(true))])
  }

  function Worker(t: string, cmpl: Expr): Ref {
    Ref([Work(t), Rest(t)], t, [Data(t), Done(t)], [Data(t), Done(t)],
        And(Var(Go(t)), Not(Var(Done(t)))), Not(Var(Go(t))), cmpl, [])
  }

  function NotDone(t: string): Expr { Not(Var(Done(t))) }

  function Scope(t: string): set<string> {
    {Data(t), Done(t), Go(t), Nxt(Data(t)), Nxt(Done(t)), Sel(Work(t)), Sel(Rest(t)), DeadSel(t)}
  }

  /** The names of the encoding are longer than those of the ILA, and distinct. */
  lemma NamesDiffer(t: string)
    ensures forall x | x in {Data(t), Done(t), Go(t)} ::
              |x| < |t| + 4 && x !in {Nxt(Data(t)), Nxt(Done(t)), Sel(Work(t)), Sel(Rest(t)), DeadSel(t)}
    ensures Data(t) != Done(t) && Done(t) != Go(t) && Data(t) != Go(t)
    ensures Sel(Work(t)) != Sel(Rest(t)) && Sel(Rest(t)) != DeadSel(t) && Sel(Work(t)) != DeadSel(t)
  {
    assert Sel(Work(t))[|t| + 1] == 'w' && Sel(Rest(t))[|t| + 1] == 'r' && DeadSel(t)[|t| + 1] == 'd';
    assert Data(t)[|t| + 1] == 'x' && Done(t)[|t| + 1] == 'd';
    assert |Nxt(Data(t))| == |t| + 7 && |Sel(Work(t))| == |t| + 9;
  }

  lemma WorkerNames(t: string, cmpl: Expr)
    ensures Bits(Worker(t, cmpl).insts, t) == [Sel(Work(t)), Sel(Rest(t)), DeadSel(t)]
    ensures NextNames(Worker(t, cmpl).states) == [Nxt(Data(t)), Nxt(Done(t))]
  {
  }

  lemma OwnIsPlain(t: string, cmpl: Expr, x: string)
    requires x in {Data(t), Done(t), Go(t)}
    ensures !Fresh(FlushProblem(Worker(t, cmpl), 0, 0), x)
  {
    NamesDiffer(t);
    WorkerNames(t, cmpl);
    var bits, names := Bits(Worker(t, cmpl).insts, t), NextNames(Worker(t, cmpl).states);
    assert x !in bits && x !in names;
  }

  lemma {:induction false} PositionOf(vars: seq<string>, v: nat)
    requires v < |vars| && forall j :: 0 <= j < v ==> vars[j] != vars[v]
    ensures Position(vars, vars[v]) == v
  {
    var p := Position(vars, vars[v]);
    assert p <= v;
  }

  lemma WorkerIsDistinct(t: string, cmpl: Expr)
    ensures Distinct(Worker(t, cmpl).states) && Distinct(Bits(Worker(t, cmpl).insts, t))
  {
    NamesDiffer(t);
    WorkerNames(t, cmpl);
    var bits, states := Bits(Worker(t, cmpl).insts, t), Worker(t, cmpl).states;
    forall v: nat {:trigger bits[v]} | v < 3 ensures Position(bits, bits[v]) == v { PositionOf(bits, v); }
    forall v: nat {:trigger states[v]} | v < 2 ensures Position(states, states[v]) == v { PositionOf(states, v); }
  }

  lemma UpdatesOf(t: string)
    ensures StateUpdCmpl(Work(t), Data(t)) == Not(Var(Data(t))) && StateUpdCmpl(Work(t), Done(t)) == BoolConst(false)
    ensures StateUpdCmpl(Rest(t), Data(t)) == Var(Data(t)) && StateUpdCmpl(Rest(t), Done(t)) == BoolConst(true)
  {
    NamesDiffer(t);
    var us := Work(t).updates;
    assert Find(us, Data(t)) == 0 && Find(us, Done(t)) == 1;
    assert Find(Rest(t).updates, Data(t)) == 1 && Find(Rest(t).updates, Done(t)) == 0;
  }

  lemma NotNames(x: string)
    ensures Names(Not(Var(x))) == {x}
  {
    assert NamesOf([Var(x)]) == Names(Var(x)) + NamesOf([]);
  }

  lemma AndNames(a: Expr, b: Expr)
    ensures Names(And(a, b)) == Names(a) + Names(b)
  {
    assert [a, b][1..] == [b];
    assert NamesOf([b]) == Names(b) + NamesOf([]);
  }

  /** An expression over states and the command. */
  ghost predicate Own(t: string, e: Expr) {
    Names(e) <= {Data(t), Done(t), Go(t)}
  }

  lemma OwnExpr(t: string, cmpl: Expr, e: Expr)
    requires Own(t, e)
    ensures Plain(FlushProblem(Worker(t, cmpl), 0, 0), e) && Names(e) <= Scope(t)
  {
    forall x | x in Names(e) ensures !Fresh(FlushProblem(Worker(t, cmpl), 0, 0), x) {
      OwnIsPlain(t, cmpl, x);
    }
  }

  lemma WorkerOwns(t: string)
    ensures Own(t, Work(t).decode) && Own(t, Rest(t).decode)
    ensures Own(t, NotDone(t)) && Own(t, And(Var(Go(t)), Not(Var(Done(t)))))
    ensures forall x {:trigger StateUpdCmpl(Work(t), x)} {:trigger StateUpdCmpl(Rest(t), x)} ::
              x in [Data(t), Done(t)] ==> Own(t, StateUpdCmpl(Work(t), x)) && Own(t, StateUpdCmpl(Rest(t), x))
  {
    UpdatesOf(t);
    NotNames(Data(t));
    NotNames(Done(t));
    NotNames(Go(t));
    AndNames(Var(Go(t)), Not(Var(Done(t))));
  }

  lemma WorkerInstr(t: string, cmpl: Expr, i: Instr)
    requires i == Work(t) || i == Rest(t)
    ensures PlainInstr(FlushProblem(Worker(t, cmpl), 0, 0), i)
    ensures InstrIn(i, [Data(t), Done(t)], Scope(t))
  {
    WorkerOwns(t);
    OwnExpr(t, cmpl, i.decode);
    forall x {:trigger StateUpdCmpl(i, x)} | x in [Data(t), Done(t)]
      ensures Plain(FlushProblem(Worker(t, cmpl), 0, 0), StateUpdCmpl(i, x)) && Names(StateUpdCmpl(i, x)) <= Scope(t)
    {
      OwnExpr(t, cmpl, StateUpdCmpl(i, x));
    }
  }

  lemma WorkerIsClean(t: string, cmpl: Expr)
    ensures Clean(FlushProblem(Worker(t, cmpl), 0, 0))
  {
    var R, P := Worker(t, cmpl), FlushProblem(Worker(t, cmpl), 0, 0);
    WorkerIsDistinct(t, cmpl);
    forall v: nat {:trigger P.vars[v]} | v < |P.vars| ensures !Fresh(P, P.vars[v]) { OwnIsPlain(t, cmpl, P.vars[v]); }
    forall k: nat {:trigger P.target.insts[k]} | k < |P.target.insts| ensures PlainInstr(P, P.target.insts[k]) {
      WorkerInstr(t, cmpl, P.target.insts[k]);
    }
    forall k ensures AllPlain(P, StepExprs(P.step, k)) {
      StepExprsFlush(R, 0, 1, k);
      WorkerOwns(t);
      OwnExpr(t, cmpl, R.flush);
    }
  }

  lemma WorkerIsScoped(t: string, cmpl: Expr)
    requires Own(t, cmpl)
    ensures Scoped(Worker(t, cmpl), Scope(t))
  {
    var R := Worker(t, cmpl);
    WorkerIsClean(t, cmpl);
    WorkerOwns(t);
    OwnExpr(t, cmpl, R.appl);
    OwnExpr(t, cmpl, R.flush);
    OwnExpr(t, cmpl, cmpl);
    forall k {:trigger R.insts[k]} | 0 <= k < |R.insts| ensures InstrIn(R.insts[k], R.states, Scope(t)) {
      WorkerInstr(t, cmpl, R.insts[k]);
    }
  }

  // ---------- its steps and runs ----------

  ghost predicate WorkerNext(t: string, cur: Env, nxt: Env) {
    if On(cur, Go(t)) then nxt(Data(t)) == BoolV(!On(cur, Data(t))) && nxt(Done(t)) == BoolV(false)
    else nxt(Data(t)) == cur(Data(t)) && nxt(Done(t)) == BoolV(true)
  }

  lemma NotValue(I: Interp, x: string, env: Env)
    ensures Eval(I, Not(Var(x)), env) == BoolV(!On(env, x))
  {
    assert EvalAll(I, [Var(x)], env)[0] == Eval(I, Var(x), env);
  }

  lemma WorkExecutes(I: Interp, t: string, cur: Env, nxt: Env)
    ensures Executes(I, Work(t), [Data(t), Done(t)], cur, nxt) <==> On(cur, Go(t)) && WorkerNext(t, cur, nxt)
    ensures Executes(I, Rest(t), [Data(t), Done(t)], cur, nxt) <==> !On(cur, Go(t)) && WorkerNext(t, cur, nxt)
  {
    UpdatesOf(t);
    NotValue(I, Data(t), cur);
    NotValue(I, Go(t), cur);
    var vars := [Data(t), Done(t)];
    assert vars[0] == Data(t) && vars[1] == Done(t);
  }

  lemma WorkerStep(I: Interp, t: string, cmpl: Expr, cur: Env, nxt: Env)
    ensures MonoStep(I, Worker(t, cmpl).insts, Worker(t, cmpl).states, cur, nxt) <==> WorkerNext(t, cur, nxt)
  {
    var insts := Worker(t, cmpl).insts;
    WorkExecutes(I, t, cur, nxt);
    NotValue(I, Go(t), cur);
    assert insts[0] == Work(t) && insts[1] == Rest(t);
    assert Decodes(I, insts[0], cur) || Decodes(I, insts[1], cur);
  }

  ghost function At(t: string, x: bool, d: bool, go: bool): (env: Env)
    ensures On(env, Data(t)) == x && On(env, Done(t)) == d && On(env, Go(t)) == go
    ensures env(Data(t)) == BoolV(x) && env(Done(t)) == BoolV(d)
  {
    NamesDiffer(t);
    y => if y == Data(t) then BoolV(x) else if y == Done(t) then BoolV(d) else BoolV(go)
  }

  /** With the data bit set at first: flushing leaves it, the command clears it. */
  ghost function OrigState(t: string, i: int): Env {
    At(t, true, i > 0, false)
  }

  ghost function ApplState(t: string, i: int): Env {
    if i == 0 then At(t, true, false, true) else At(t, false, i > 1, false)
  }

  ghost function OrigRun(t: string, k: nat): (run: seq<Env>)
    ensures |run| == k + 1 && forall i {:trigger run[i]} :: 0 <= i < |run| ==> run[i] == OrigState(t, i)
  {
    seq<Env>(k + 1, i => OrigState(t, i))
  }

  ghost function ApplRun(t: string, k: nat): (run: seq<Env>)
    ensures |run| == k + 2 && forall i {:trigger run[i]} :: 0 <= i < |run| ==> run[i] == ApplState(t, i)
  {
    seq<Env>(k + 2, i => ApplState(t, i))
  }

  lemma OrigStates(I: Interp, t: string, cmpl: Expr, i: nat, j: nat)
    requires j == i + 1
    ensures MonoStep(I, Worker(t, cmpl).insts, Worker(t, cmpl).states, OrigState(t, i), OrigState(t, j))
    ensures Is(I, Worker(t, cmpl).flush, OrigState(t, i))
    ensures Is(I, NotDone(t), OrigState(t, i)) <==> i == 0
  {
    WorkerStep(I, t, cmpl, OrigState(t, i), OrigState(t, j));
    NotValue(I, Go(t), OrigState(t, i));
    NotValue(I, Done(t), OrigState(t, i));
  }

  lemma ApplStates(I: Interp, t: string, cmpl: Expr, i: nat, j: nat)
    requires j == i + 1
    ensures MonoStep(I, Worker(t, cmpl).insts, Worker(t, cmpl).states, ApplState(t, i), ApplState(t, j))
    ensures 1 <= i ==> Is(I, Worker(t, cmpl).flush, ApplState(t, i))
    ensures 1 <= i ==> (Is(I, NotDone(t), ApplState(t, i)) <==> i == 1)
  {
    WorkerStep(I, t, cmpl, ApplState(t, i), ApplState(t, j));
    NotValue(I, Go(t), ApplState(t, i));
    NotValue(I, Done(t), ApplState(t, i));
  }

  lemma OrigRunFlushes(I: Interp, t: string, cmpl: Expr, k: nat)
    ensures FlushRun(I, Worker(t, cmpl), OrigRun(t, k), 0)
  {
    var run := OrigRun(t, k);
    forall i: nat | i < |run| - 1 ensures Steps(I, Worker(t, cmpl), run, i) {
      OrigStates(I, t, cmpl, i, i + 1);
    }
    forall i: nat {:trigger run[i]} | i < |run| ensures Is(I, Worker(t, cmpl).flush, run[i]) {
      OrigStates(I, t, cmpl, i, i + 1);
    }
  }

  lemma ApplRunFlushes(I: Interp, t: string, cmpl: Expr, k: nat)
    ensures FlushRun(I, Worker(t, cmpl), ApplRun(t, k), 1)
  {
    var run := ApplRun(t, k);
    forall i: nat | i < |run| - 1 ensures Steps(I, Worker(t, cmpl), run, i) {
      ApplStates(I, t, cmpl, i, i + 1);
    }
    forall i: nat {:trigger run[i]} | i < |run| ensures 1 <= i ==> Is(I, Worker(t, cmpl).flush, run[i]) {
      ApplStates(I, t, cmpl, i, i + 1);
    }
  }

  lemma ApplReady(I: Interp, t: string, cmpl: Expr, env: Env)
    ensures Is(I, Worker(t, cmpl).appl, env) <==> On(env, Go(t)) && !On(env, Done(t))
  {
    AndMeaning(I, Var(Go(t)), Not(Var(Done(t))), env);
    NotValue(I, Done(t), env);
  }

  lemma RunsArePair(I: Interp, t: string, cmpl: Expr, kOrig: nat, kAppl: nat)
    ensures RunPair(I, Worker(t, cmpl), OrigRun(t, kOrig), ApplRun(t, kAppl))
  {
    OrigRunFlushes(I, t, cmpl, kOrig);
    ApplRunFlushes(I, t, cmpl, kAppl);
    ApplReady(I, t, cmpl, ApplState(t, 0));
    SameBits(t, OrigState(t, 0), ApplState(t, 0));
  }

  lemma SameBits(t: string, a: Env, b: Env)
    requires a(Data(t)) == b(Data(t)) && a(Done(t)) == b(Done(t))
    ensures SameStates([Data(t), Done(t)], a, b)
  {
  }

  // ---------- its completion ----------

  lemma WorkerLatches(I: Interp, t: string)
    ensures Latches(I, Worker(t, NotDone(t)), AnyState, Holds(I, Var(Done(t))))
  {
    var R := Worker(t, NotDone(t));
    forall cur, nxt | FlushStep(I, R, cur, nxt) ensures Is(I, Var(Done(t)), nxt) {
      WorkerStep(I, t, NotDone(t), cur, nxt);
      NotValue(I, Go(t), cur);
    }
    forall env ensures Is(I, Var(Done(t)), env) ==> !Is(I, R.cmpl, env) {
      NotValue(I, Done(t), env);
    }
  }

  lemma WorkerPasses(I: Interp, t: string, kOrig: nat, kAppl: nat)
    ensures OrigCompletes(I, Worker(t, NotDone(t)), kOrig) && ApplCompletes(I, Worker(t, NotDone(t)), kAppl)
  {
    var R := Worker(t, NotDone(t));
    forall A | OrigPath(I, R, A, kOrig) ensures SomeComplete(I, R, A, ORIG, 0, kOrig + 1) {
      var zero: nat := 0;
      ApplReady(I, t, NotDone(t), Frame(A, Curr(0, APPL)));
      assert R.states[1] == Done(t);
      NotValue(I, Done(t), Frame(A, Curr(zero, ORIG)));
    }
    WorkerOwns(t);
    WorkerIsScoped(t, NotDone(t));
    forall A | ApplPath(I, R, A, kAppl) ensures SomeComplete(I, R, A, APPL, 1, kAppl + 2) {
      var zero: nat, one: nat, run := 0, 1, RunOf(A, APPL, kAppl + 1);
      ModelIsFlushRun(I, R, A, APPL, kAppl + 1, 1, Scope(t));
      ApplReady(I, t, NotDone(t), run[zero]);
      assert Steps(I, R, run, zero);
      WorkerStep(I, t, NotDone(t), run[zero], run[one]);
      NotValue(I, Done(t), Frame(A, Curr(one, APPL)));
    }
  }

  /** Whatever the numbers of steps, the checks pass and all runs complete exactly once. */
  lemma WorkerCompletesOnce(I: Interp, t: string, kOrig: nat, kAppl: nat)
    ensures CompletesOnce(I, Worker(t, NotDone(t)), kOrig, kAppl)
  {
    WorkerOwns(t);
    WorkerIsScoped(t, NotDone(t));
    WorkerLatches(I, t);
    WorkerPasses(I, t, kOrig, kAppl);
    PassedAndLatched(I, Worker(t, NotDone(t)), kOrig, kAppl, Scope(t), AnyState, Holds(I, Var(Done(t))));
  }

  /** A leg of the diagram starts at its first completing states, and the command inverts the data bit. */
  lemma WorkerLeg(I: Interp, t: string, kOrig: nat, kAppl: nat, l: Leg)
    requires IsLeg(I, Worker(t, NotDone(t)), kOrig, kAppl, l)
    ensures l.i == 0 && l.j == 1 && l.appl[1](Data(t)) == BoolV(!On(l.orig[0], Data(t)))
  {
    var R := Worker(t, NotDone(t));
    assert R.states[0] == Data(t) && R.states[1] == Done(t);
    ApplReady(I, t, NotDone(t), l.appl[0]);
    NotValue(I, Done(t), l.orig[0]);
    assert Steps(I, R, l.appl, 0);
    WorkerStep(I, t, NotDone(t), l.appl[0], l.appl[1]);
    NotValue(I, Done(t), l.appl[1]);
  }

  ghost function LegOn(t: string, kOrig: nat, kAppl: nat): Leg {
    Leg(OrigRun(t, kOrig), ApplRun(t, kAppl), 0, 1)
  }

  lemma LegExists(I: Interp, t: string, kOrig: nat, kAppl: nat)
    ensures IsLeg(I, Worker(t, NotDone(t)), kOrig, kAppl, LegOn(t, kOrig, kAppl))
  {
    var o, a := OrigRun(t, kOrig), ApplRun(t, kAppl);
    RunsArePair(I, t, NotDone(t), kOrig, kAppl);
    forall i: nat {:trigger o[i]} | i < |o| ensures Is(I, NotDone(t), o[i]) <==> i == 0 {
      OrigStates(I, t, NotDone(t), i, i + 1);
    }
    forall i: nat {:trigger a[i]} | 1 <= i < |a| ensures Is(I, NotDone(t), a[i]) <==> i == 1 {
      ApplStates(I, t, NotDone(t), i, i + 1);
    }
  }

  // ---------- two of them ----------

  /** Two names of one length, such as "a" and "b". */
  ghost predicate Apart(s: string, t: string) {
    |s| == |t| && s != t
  }

  function Pair(s: string, t: string, relation: Expr): Crr {
    Crr(Worker(s, NotDone(s)), Worker(t, NotDone(t)), relation)
  }

  lemma ScopePrefix(t: string, x: string)
    requires x in Scope(t)
    ensures |x| >= |t| && x[..|t|] == t
  {
  }

  lemma PairIsWellFormed(s: string, t: string, relation: Expr)
    requires Apart(s, t) && Names(relation) <= {Data(s), Data(t)}
    ensures WellFormed(Pair(s, t, relation), Scope(s), Scope(t))
  {
    WorkerOwns(s);
    WorkerOwns(t);
    WorkerIsScoped(s, NotDone(s));
    WorkerIsScoped(t, NotDone(t));
    forall x | x in Scope(s) && x in Scope(t) ensures false {
      ScopePrefix(s, x);
      ScopePrefix(t, x);
    }
    DataIsTop(s, NotDone(s));
    DataIsTop(t, NotDone(t));
  }

  lemma DataIsTop(t: string, cmpl: Expr)
    ensures Data(t) in Worker(t, cmpl).stts
  {
    assert Worker(t, cmpl).stts[0] == Data(t);
  }

  /** The data bits of the two agree. */
  function SameData(s: string, t: string): Expr { Eq(Var(Data(s)), Var(Data(t))) }

  lemma SameDataNames(s: string, t: string)
    ensures Names(SameData(s, t)) == {Data(s), Data(t)}
  {
    var a, b := Var(Data(s)), Var(Data(t));
    assert [a, b][1..] == [b];
    assert NamesOf([b]) == Names(b) + NamesOf([]);
    assert Names(SameData(s, t)) == Names(a) + NamesOf([b]);
  }

  lemma JointData(s: string, t: string, relation: Expr, a: Env, b: Env)
    requires Apart(s, t)
    ensures Joint(Pair(s, t, relation), a, b)(Data(s)) == a(Data(s))
    ensures Joint(Pair(s, t, relation), a, b)(Data(t)) == b(Data(t))
  {
    DataIsTop(s, NotDone(s));
    assert Data(t)[..|t|] == t && Data(s)[..|s|] == s && Done(s)[..|s|] == s;
  }

  lemma SameDataRelates(I: Interp, s: string, t: string, a: Env, b: Env)
    requires Apart(s, t)
    ensures Related(I, Pair(s, t, SameData(s, t)), a, b) <==> a(Data(s)) == b(Data(t))
  {
    EqMeaning(I, Var(Data(s)), Var(Data(t)), Joint(Pair(s, t, SameData(s, t)), a, b));
    JointData(s, t, SameData(s, t), a, b);
  }

  lemma EqualBitsStayEqual(I: Interp, s: string, t: string, n: Bounds)
    requires Apart(s, t)
    ensures Commutes(I, Pair(s, t, SameData(s, t)), n)
  {
    var C := Pair(s, t, SameData(s, t));
    forall a, b | IsLeg(I, C.refA, n.origA, n.applA, a) && IsLeg(I, C.refB, n.origB, n.applB, b)
      ensures CommutesAt(I, C, a, b)
    {
      WorkerLeg(I, s, n.origA, n.applA, a);
      WorkerLeg(I, t, n.origB, n.applB, b);
      SameDataRelates(I, s, t, a.orig[0], b.orig[0]);
      SameDataRelates(I, s, t, a.appl[1], b.appl[1]);
    }
  }

  /** Both sides invert their bit, so equal bits stay equal: all that the theorem assumes holds, there
      are related legs, and the query has no model. */
  lemma EqualBitsCommute(I: Interp, s: string, t: string, n: Bounds)
    requires Apart(s, t)
    ensures
      var C := Pair(s, t, SameData(s, t));
      && WellFormed(C, Scope(s), Scope(t))
      && CompletesOnce(I, C.refA, n.origA, n.applA) && CompletesOnce(I, C.refB, n.origB, n.applB)
      && IsLeg(I, C.refA, n.origA, n.applA, LegOn(s, n.origA, n.applA))
      && IsLeg(I, C.refB, n.origB, n.applB, LegOn(t, n.origB, n.applB))
      && Related(I, C, OrigState(s, 0), OrigState(t, 0))
      && forall A :: !QueryModel(I, C, A, n)
  {
    SameDataNames(s, t);
    PairIsWellFormed(s, t, SameData(s, t));
    WorkerCompletesOnce(I, s, n.origA, n.applA);
    WorkerCompletesOnce(I, t, n.origB, n.applB);
    LegExists(I, s, n.origA, n.applA);
    LegExists(I, t, n.origB, n.applB);
    SameDataRelates(I, s, t, OrigState(s, 0), OrigState(t, 0));
    EqualBitsStayEqual(I, s, t, n);
    QueryIsDiagram(I, Pair(s, t, SameData(s, t)), n, Scope(s), Scope(t));
  }

  lemma SetBitRelates(I: Interp, s: string, t: string, a: Env, b: Env)
    requires Apart(s, t)
    ensures Related(I, Pair(s, t, Var(Data(s))), a, b) <==> Truth(a(Data(s)))
  {
    JointData(s, t, Var(Data(s)), a, b);
  }

  /** The two legs of the example: the bit is set before and not after. */
  lemma SetBitLegs(I: Interp, s: string, t: string, n: Bounds)
    requires Apart(s, t)
    ensures IsLeg(I, Worker(s, NotDone(s)), n.origA, n.applA, LegOn(s, n.origA, n.applA))
    ensures IsLeg(I, Worker(t, NotDone(t)), n.origB, n.applB, LegOn(t, n.origB, n.applB))
    ensures !CommutesAt(I, Pair(s, t, Var(Data(s))), LegOn(s, n.origA, n.applA), LegOn(t, n.origB, n.applB))
  {
    LegExists(I, s, n.origA, n.applA);
    LegExists(I, t, n.origB, n.applB);
    SetBitRelates(I, s, t, OrigState(s, 0), OrigState(t, 0));
    SetBitRelates(I, s, t, ApplState(s, 1), ApplState(t, 1));
  }

  /** That a bit is set is not kept: under the same assumptions the query has a model. */
  lemma SetBitBreaks(I: Interp, s: string, t: string, n: Bounds)
    requires Apart(s, t)
    ensures WellFormed(Pair(s, t, Var(Data(s))), Scope(s), Scope(t))
    ensures exists A :: QueryModel(I, Pair(s, t, Var(Data(s))), A, n)
  {
    var C, a, b := Pair(s, t, Var(Data(s))), LegOn(s, n.origA, n.applA), LegOn(t, n.origB, n.applB);
    PairIsWellFormed(s, t, Var(Data(s)));
    SetBitLegs(I, s, t, n);
    BrokenDiagramIsQueryModel(I, C, n, a, b, Scope(s), Scope(t));
  }

  // ---------- passed checks with two completions ----------

  /** An ILA that is always complete: both checks pass and on both sides a path completes twice. */
  lemma PassedAndTwice(I: Interp, t: string, k: nat)
    requires k > 0
    ensures Scoped(Worker(t, BoolConst(true)), Scope(t))
    ensures OrigCompletes(I, Worker(t, BoolConst(true)), k) && !OrigOnce(I, Worker(t, BoolConst(true)), k)
    ensures ApplCompletes(I, Worker(t, BoolConst(true)), k) && !ApplOnce(I, Worker(t, BoolConst(true)), k)
  {
    var R := Worker(t, BoolConst(true));
    WorkerIsScoped(t, BoolConst(true));
    RunsArePair(I, t, BoolConst(true), k, k);
    var M := PairIsPaths(I, R, k, k, Scope(t), OrigRun(t, k), ApplRun(t, k));
    AlwaysSome(I, R, ORIG, 0, k + 1);
    AlwaysSome(I, R, APPL, 1, k + 2);
    AlwaysTwice(I, R, RunOf(M, ORIG, k), 0);
    AlwaysTwice(I, R, RunOf(M, APPL, k + 1), 1);
  }

  lemma AlwaysSome(I: Interp, R: Ref, tag: string, start: nat, end: nat)
    requires R.cmpl == BoolConst(true) && start < end
    ensures forall A {:trigger SomeComplete(I, R, A, tag, start, end)} :: SomeComplete(I, R, A, tag, start, end)
  {
    forall A: Assignment {:trigger SomeComplete(I, R, A, tag, start, end)}
      ensures SomeComplete(I, R, A, tag, start, end)
    {
      assert Is(I, R.cmpl, Frame(A, Curr(start, tag)));
    }
  }

  lemma AlwaysTwice(I: Interp, R: Ref, run: seq<Env>, start: nat)
    requires R.cmpl == BoolConst(true) && start + 1 < |run|
    ensures !Once(I, R, run, start)
  {
    var next: nat := start + 1;
    assert Is(I, R.cmpl, run[start]) && Is(I, R.cmpl, run[next]);
  }
}
