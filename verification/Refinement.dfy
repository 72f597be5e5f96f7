/** Commuting diagrams between two ILAs: the runs they speak of and the models of the query that
    checks them. */
module Refinement {
  import opened Ast
  import opened Ila
  import opened Frames
  import opened Unrolling
  import opened Encodings
  import opened MonoRuns

  /** One side of a compositional refinement relation: an ILA (all its instructions, the name of its
      top level, all its states and those of the top level) with its apply, flush and complete
      conditions and invariants. */
  datatype Ref = Ref(insts: seq<Instr>, top: string, states: seq<string>, stts: seq<string>,
                     appl: Expr, flush: Expr, cmpl: Expr, inv: seq<Expr>)

  datatype Crr = Crr(refA: Ref, refB: Ref, relation: Expr)

  // ---------- runs ----------

  ghost predicate Is(I: Interp, e: Expr, env: Env) {
    Truth(Eval(I, e, env))
  }

  /** A run under the invariants that flushes from position `start` on. */
  ghost predicate FlushRun(I: Interp, R: Ref, run: seq<Env>, start: nat) {
    && |run| > 0
    && (forall i: nat :: i < |run| - 1 ==> Steps(I, R, run, i))
    && (forall i {:trigger run[i]} :: 0 <= i < |run| ==>
          AllTrue(I, R.inv, run[i]) && (start <= i ==> Is(I, R.flush, run[i])))
  }

  ghost predicate Steps(I: Interp, R: Ref, run: seq<Env>, i: nat)
    requires i + 1 < |run|
  {
    MonoStep(I, R.insts, R.states, run[i], run[i + 1])
  }

  /** The two runs compared on one side: from equal states, one flushes at once and the other applies
      first. */
  ghost predicate RunPair(I: Interp, R: Ref, orig: seq<Env>, appl: seq<Env>) {
    && FlushRun(I, R, orig, 0) && FlushRun(I, R, appl, 1)
    && Is(I, R.appl, appl[0]) && SameStates(R.states, orig[0], appl[0])
  }

  /** Position i is the only one in range at which the run completes. */
  ghost predicate CompletesAt(I: Interp, R: Ref, run: seq<Env>, start: nat, i: nat) {
    && start <= i < |run| && Is(I, R.cmpl, run[i])
    && forall j {:trigger run[j]} :: start <= j < |run| && Is(I, R.cmpl, run[j]) ==> j == i
  }

  ghost predicate Once(I: Interp, R: Ref, run: seq<Env>, start: nat) {
    exists i: nat :: CompletesAt(I, R, run, start, i)
  }

  /** The runs of these numbers of steps complete exactly once. The step checks look for paths that do
      not, without finding those that complete twice (StepChecks). */
  ghost predicate CompletesOnce(I: Interp, R: Ref, kOrig: nat, kAppl: nat) {
    forall orig, appl :: |orig| == kOrig + 1 && |appl| == kAppl + 2 && RunPair(I, R, orig, appl) ==>
      Once(I, R, orig, 0) && Once(I, R, appl, 1)
  }

  // ---------- the diagram ----------

  /** A state of each side. */
  ghost function Joint(C: Crr, a: Env, b: Env): Env {
    x => if x in C.refA.stts then a(x) else b(x)
  }

  ghost predicate Related(I: Interp, C: Crr, a: Env, b: Env) {
    Is(I, C.relation, Joint(C, a, b))
  }

  /** A pair of runs on one side with the positions at which they complete. */
  datatype Leg = Leg(orig: seq<Env>, appl: seq<Env>, i: nat, j: nat)

  ghost predicate IsLeg(I: Interp, R: Ref, kOrig: nat, kAppl: nat, l: Leg) {
    && |l.orig| == kOrig + 1 && |l.appl| == kAppl + 2 && RunPair(I, R, l.orig, l.appl)
    && CompletesAt(I, R, l.orig, 0, l.i) && CompletesAt(I, R, l.appl, 1, l.j)
  }

  /** If the flushed states are related, so are the states after apply and flush. */
  ghost predicate CommutesAt(I: Interp, C: Crr, a: Leg, b: Leg)
    requires a.i < |a.orig| && b.i < |b.orig| && a.j < |a.appl| && b.j < |b.appl|
  {
    Related(I, C, a.orig[a.i], b.orig[b.i]) ==> Related(I, C, a.appl[a.j], b.appl[b.j])
  }

  /** The numbers of steps the two runs of the two sides take to complete. */
  datatype Bounds = Bounds(origA: nat, applA: nat, origB: nat, applB: nat)

  ghost predicate Commutes(I: Interp, C: Crr, n: Bounds) {
    forall a, b | IsLeg(I, C.refA, n.origA, n.applA, a) && IsLeg(I, C.refB, n.origB, n.applB, b) ::
      CommutesAt(I, C, a, b)
  }

  // ---------- models of the query ----------

  const ORIG: string := "org"
  const APPL: string := "apl"

  /** The predicates UnrollFlush gives to the unroller. */
  function FlushSteps(R: Ref, start: nat, n: nat): map<int, seq<Expr>> {
    if n <= start then map[] else FlushSteps(R, start, n - 1)[n - 1 := [R.flush]]
  }

  function FlushProblem(R: Ref, len: nat, start: nat): Problem {
    Problem(Mono(R.insts, R.top), R.states, R.inv, [], FlushSteps(R, start, len + 1))
  }

  /** A completing step has the representative state. */
  ghost predicate MarkedAt(I: Interp, R: Ref, A: Assignment, tag: string, i: nat) {
    Is(I, R.cmpl, Frame(A, Curr(i, tag))) ==> SameStates(R.stts, Frame(A, Bare(tag)), Frame(A, Curr(i, tag)))
  }

  ghost predicate FlushModel(I: Interp, R: Ref, A: Assignment, tag: string, len: nat, start: nat) {
    && AssnModel(I, FlushProblem(R, len, start), A, tag, len, 0)
    && forall i: nat :: start <= i <= len ==> MarkedAt(I, R, A, tag, i)
  }

  ghost predicate InitModel(I: Interp, R: Ref, A: Assignment) {
    && Is(I, R.appl, Frame(A, Curr(0, APPL))) && Is(I, R.flush, Frame(A, Curr(0, ORIG)))
    && SameStates(R.states, Frame(A, Curr(0, ORIG)), Frame(A, Curr(0, APPL)))
  }

  ghost predicate TranModel(I: Interp, R: Ref, A: Assignment, kOrig: nat, kAppl: nat) {
    InitModel(I, R, A) && FlushModel(I, R, A, ORIG, kOrig, 0) && FlushModel(I, R, A, APPL, kAppl + 1, 1)
  }

  ghost predicate QueryModel(I: Interp, C: Crr, A: Assignment, n: Bounds) {
    && TranModel(I, C.refA, A, n.origA, n.applA) && TranModel(I, C.refB, A, n.origB, n.applB)
    && Is(I, C.relation, Frame(A, Bare(ORIG))) && !Is(I, C.relation, Frame(A, Bare(APPL)))
  }

  // ---------- well-formed relations ----------

  /** The names of one side: its problem is over S, and what it adds for the encoding is fresh. */
  ghost predicate Scoped(R: Ref, S: set<string>) {
    && Clean(FlushProblem(R, 0, 0))
    && Plain(FlushProblem(R, 0, 0), R.appl) && Plain(FlushProblem(R, 0, 0), R.cmpl)
    && Plain(FlushProblem(R, 0, 0), R.flush)
    && (forall k: nat :: k <= |R.insts| ==> Bit(R.insts, R.top, k) in S)
    && (forall v {:trigger R.states[v]} :: 0 <= v < |R.states| ==> R.states[v] in S && Nxt(R.states[v]) in S)
    && (forall k {:trigger R.insts[k]} :: 0 <= k < |R.insts| ==> InstrIn(R.insts[k], R.states, S))
    && AllIn(R.inv, S) && Names(R.appl) <= S && Names(R.flush) <= S && Names(R.cmpl) <= S
    && (forall x :: x in R.stts ==> x in R.states)
  }

  ghost predicate InstrIn(i: Instr, vars: seq<string>, S: set<string>) {
    Names(i.decode) <= S && forall x {:trigger StateUpdCmpl(i, x)} :: x in vars ==> Names(StateUpdCmpl(i, x)) <= S
  }

  ghost predicate AllIn(es: seq<Expr>, S: set<string>) {
    forall i {:trigger es[i]} :: 0 <= i < |es| ==> Names(es[i]) <= S
  }

  /** The ILAs have different names, hence no variable in common, and the relation is about states of
      the two top levels. */
  ghost predicate WellFormed(C: Crr, SA: set<string>, SB: set<string>) {
    && Scoped(C.refA, SA) && Scoped(C.refB, SB) && SA !! SB
    && forall x :: x in Names(C.relation) ==> x in C.refA.stts || x in C.refB.stts
  }

  lemma {:induction false} StepExprsFlush(R: Ref, start: nat, n: nat, k: int)
    ensures StepExprs(FlushSteps(R, start, n), k) == if start <= k < n then [R.flush] else []
  {
    if n > start { StepExprsFlush(R, start, n - 1, k); }
  }

  lemma FlushTrue(I: Interp, R: Ref, len: nat, start: nat, k: nat, env: Env)
    ensures AllTrue(I, StepExprs(FlushProblem(R, len, start).step, k), env) <==>
            (start <= k <= len ==> Is(I, R.flush, env))
  {
    var es := StepExprs(FlushProblem(R, len, start).step, k);
    StepExprsFlush(R, start, len + 1, k);
    if start <= k <= len { assert es[0] == R.flush; }
  }

  lemma CleanFlush(R: Ref, len: nat, start: nat, S: set<string>)
    requires Scoped(R, S)
    ensures Clean(FlushProblem(R, len, start))
    ensures forall x :: Fresh(FlushProblem(R, len, start), x) <==> Fresh(FlushProblem(R, 0, 0), x)
  {
    var P, Q := FlushProblem(R, len, start), FlushProblem(R, 0, 0);
    forall e: Expr | Plain(Q, e) ensures Plain(P, e) {
    }
    forall k {:trigger P.target.insts[k]} | 0 <= k < |P.target.insts| ensures PlainInstr(P, P.target.insts[k]) {
      assert PlainInstr(Q, Q.target.insts[k]);
    }
    assert AllPlain(P, P.glob) by { assert AllPlain(Q, Q.glob); }
    forall k ensures AllPlain(P, StepExprs(P.step, k)) {
      StepExprsFlush(R, start, len + 1, k);
    }
  }

  /** The unrolled flushing problem has exactly the flushing runs as runs. */
  lemma FlushRunIsMonoRun(I: Interp, R: Ref, run: seq<Env>, start: nat)
    requires |run| > 0
    ensures MonoRun(I, FlushProblem(R, |run| - 1, start), run) <==> FlushRun(I, R, run, start)
  {
    var len: nat := |run| - 1;
    var P := FlushProblem(R, len, start);
    forall i: nat | i < len
      ensures RunStep(I, P, run, i) <==>
              && Steps(I, R, run, i) && AllTrue(I, R.inv, run[i]) && (start <= i ==> Is(I, R.flush, run[i]))
    {
      FlushTrue(I, R, len, start, i, run[i]);
    }
    FlushTrue(I, R, len, start, len, run[len]);
    if MonoRun(I, P, run) {
      forall i: nat | i < len ensures Steps(I, R, run, i) { assert RunStep(I, P, run, i); }
      forall i: nat {:trigger run[i]} | i < |run|
        ensures AllTrue(I, R.inv, run[i]) && (start <= i ==> Is(I, R.flush, run[i]))
      {
        if i < len { assert RunStep(I, P, run, i); }
      }
    }
    if FlushRun(I, R, run, start) {
      forall i: nat | i < len ensures RunStep(I, P, run, i) { assert Steps(I, R, run, i); }
    }
  }

  // ---------- representatives ----------

  /** The frames of a tag, as a run. */
  ghost function RunOf(A: Assignment, tag: string, len: nat): (run: seq<Env>)
    ensures |run| == len + 1
    ensures forall i :: 0 <= i <= len ==> run[i] == Frame(A, Curr(i, tag))
  {
    seq(len + 1, i requires 0 <= i <= len => Frame(A, Curr(i, tag)))
  }

  lemma ModelIsFlushRun(I: Interp, R: Ref, A: Assignment, tag: string, len: nat, start: nat, S: set<string>)
    requires Scoped(R, S) && AssnModel(I, FlushProblem(R, len, start), A, tag, len, 0)
    ensures FlushRun(I, R, RunOf(A, tag, len), start)
  {
    var P, run := FlushProblem(R, len, start), RunOf(A, tag, len);
    CleanFlush(R, len, start, S);
    assert Shows(P, A, tag, run);
    ModelIsRun(I, P, A, tag, run, len);
    FlushRunIsMonoRun(I, R, run, start);
  }

  /** If the path completes at exactly one step, the marks determine the representative state: it is
      the state of that step. */
  lemma OneRepresentative(I: Interp, R: Ref, A: Assignment, tag: string, len: nat, start: nat, i: nat)
    requires AssnModel(I, FlushProblem(R, len, start), A, tag, len, 0)
    requires CompletesAt(I, R, RunOf(A, tag, len), start, i)
    ensures FlushModel(I, R, A, tag, len, start) <==>
            SameStates(R.stts, Frame(A, Bare(tag)), Frame(A, Curr(i, tag)))
  {
    var run := RunOf(A, tag, len);
    assert Is(I, R.cmpl, run[i]);
    if FlushModel(I, R, A, tag, len, start) {
      assert MarkedAt(I, R, A, tag, i);
    }
    if SameStates(R.stts, Frame(A, Bare(tag)), Frame(A, Curr(i, tag))) {
      forall j: nat | start <= j <= len ensures MarkedAt(I, R, A, tag, j) {
        assert run[j] == Frame(A, Curr(j, tag));
      }
    }
  }

  // ---------- a model of the query is a square that does not commute ----------

  ghost function LegOf(A: Assignment, kOrig: nat, kAppl: nat, i: nat, j: nat): Leg {
    Leg(RunOf(A, ORIG, kOrig), RunOf(A, APPL, kAppl + 1), i, j)
  }

  lemma ModelIsLeg(I: Interp, R: Ref, A: Assignment, kOrig: nat, kAppl: nat, S: set<string>) returns (l: Leg)
    requires Scoped(R, S) && TranModel(I, R, A, kOrig, kAppl) && CompletesOnce(I, R, kOrig, kAppl)
    ensures IsLeg(I, R, kOrig, kAppl, l)
    ensures SameStates(R.stts, Frame(A, Bare(ORIG)), l.orig[l.i])
    ensures SameStates(R.stts, Frame(A, Bare(APPL)), l.appl[l.j])
  {
    var orig, appl := RunOf(A, ORIG, kOrig), RunOf(A, APPL, kAppl + 1);
    ModelIsFlushRun(I, R, A, ORIG, kOrig, 0, S);
    ModelIsFlushRun(I, R, A, APPL, kAppl + 1, 1, S);
    assert RunPair(I, R, orig, appl);
    var i: nat :| CompletesAt(I, R, orig, 0, i);
    var j: nat :| CompletesAt(I, R, appl, 1, j);
    OneRepresentative(I, R, A, ORIG, kOrig, 0, i);
    OneRepresentative(I, R, A, APPL, kAppl + 1, 1, j);
    l := LegOf(A, kOrig, kAppl, i, j);
  }

  lemma RelatedByRepresentatives(I: Interp, C: Crr, env: Env, a: Env, b: Env, SA: set<string>, SB: set<string>)
    requires WellFormed(C, SA, SB) && SameStates(C.refA.stts, env, a) && SameStates(C.refB.stts, env, b)
    ensures Is(I, C.relation, env) <==> Related(I, C, a, b)
  {
    forall x | x in Names(C.relation) ensures env(x) == Joint(C, a, b)(x) {
      if x in C.refA.stts {
        var v :| 0 <= v < |C.refA.stts| && C.refA.stts[v] == x;
      } else {
        var v :| 0 <= v < |C.refB.stts| && C.refB.stts[v] == x;
      }
    }
    EvalSame(I, C.relation, env, Joint(C, a, b));
  }

  lemma QueryModelBreaksDiagram(I: Interp, C: Crr, A: Assignment, n: Bounds, SA: set<string>, SB: set<string>)
    requires WellFormed(C, SA, SB) && QueryModel(I, C, A, n)
    requires CompletesOnce(I, C.refA, n.origA, n.applA) && CompletesOnce(I, C.refB, n.origB, n.applB)
    ensures !Commutes(I, C, n)
  {
    var a := ModelIsLeg(I, C.refA, A, n.origA, n.applA, SA);
    var b := ModelIsLeg(I, C.refB, A, n.origB, n.applB, SB);
    RelatedByRepresentatives(I, C, Frame(A, Bare(ORIG)), a.orig[a.i], b.orig[b.i], SA, SB);
    RelatedByRepresentatives(I, C, Frame(A, Bare(APPL)), a.appl[a.j], b.appl[b.j], SA, SB);
    assert !CommutesAt(I, C, a, b);
  }

  // ---------- only the variables of the ILA matter ----------

  ghost predicate SameIn(S: set<string>, a: Env, b: Env) {
    forall x :: x in S ==> a(x) == b(x)
  }

  lemma AllInSame(I: Interp, es: seq<Expr>, S: set<string>, a: Env, b: Env)
    requires AllIn(es, S) && SameIn(S, a, b)
    ensures AllTrue(I, es, a) <==> AllTrue(I, es, b)
  {
    forall i | 0 <= i < |es| ensures Eval(I, es[i], a) == Eval(I, es[i], b) {
      EvalSame(I, es[i], a, b);
    }
  }

  lemma VarClausesLocal(I: Interp, R: Ref, S: set<string>, v: nat, a: Env, b: Env)
    requires Scoped(R, S) && SameIn(S, a, b) && v < |R.states| && VarClauses(I, R.insts, R.top, R.states[v], a)
    ensures VarClauses(I, R.insts, R.top, R.states[v], b)
  {
    var x := R.states[v];
    forall k: nat | k < |R.insts|
      ensures On(b, Sel(R.insts[k])) <==> On(a, Sel(R.insts[k]))
      ensures Decodes(I, R.insts[k], a) <==> Decodes(I, R.insts[k], b)
      ensures Eval(I, StateUpdCmpl(R.insts[k], x), a) == Eval(I, StateUpdCmpl(R.insts[k], x), b)
    {
      assert Bit(R.insts, R.top, k) in S;
      assert InstrIn(R.insts[k], R.states, S);
      EvalSame(I, R.insts[k].decode, a, b);
      EvalSame(I, StateUpdCmpl(R.insts[k], x), a, b);
    }
    assert Bit(R.insts, R.top, |R.insts|) in S;
  }

  lemma OneHotLocal(R: Ref, S: set<string>, a: Env, b: Env)
    requires Scoped(R, S) && SameIn(S, a, b) && OneHot(R.insts, R.top, a)
    ensures OneHot(R.insts, R.top, b)
  {
    forall k: nat | k <= |R.insts| ensures On(b, Bit(R.insts, R.top, k)) <==> On(a, Bit(R.insts, R.top, k)) {
      assert Bit(R.insts, R.top, k) in S;
    }
    assert On(b, Bit(R.insts, R.top, |R.insts|)) <==> On(a, DeadSel(R.top));
    forall k: nat | k < |R.insts| ensures On(b, Sel(R.insts[k])) <==> On(a, Sel(R.insts[k])) {
      assert Bit(R.insts, R.top, k) == Sel(R.insts[k]);
    }
    if !On(a, DeadSel(R.top)) {
      var k :| 0 <= k < |R.insts| && On(a, Sel(R.insts[k]));
      assert On(b, Sel(R.insts[k]));
    }
  }

  lemma MonoPredsLocal(I: Interp, R: Ref, S: set<string>, a: Env, b: Env)
    requires Scoped(R, S) && SameIn(S, a, b) && AllTrue(I, MonoPreds(R.insts, R.top, R.states), a)
    ensures AllTrue(I, MonoPreds(R.insts, R.top, R.states), b)
  {
    MonoPredsMeaning(I, R.insts, R.top, R.states, a);
    forall v {:trigger R.states[v]} | 0 <= v < |R.states| ensures VarClauses(I, R.insts, R.top, R.states[v], b) {
      VarClausesLocal(I, R, S, v, a, b);
    }
    OneHotLocal(R, S, a, b);
    MonoPredsMeaning(I, R.insts, R.top, R.states, b);
  }

  lemma StepLocal(I: Interp, R: Ref, S: set<string>, len: nat, start: nat, a: Env, b: Env, a': Env, b': Env, i: nat)
    requires Scoped(R, S) && SameIn(S, a, b) && SameIn(S, a', b') && i < len
    requires
      var P := FlushProblem(R, len, start);
      StepPreds(I, P, a, i) && Moves(I, P, a, a', i)
    ensures
      var P := FlushProblem(R, len, start);
      StepPreds(I, P, b, i) && Moves(I, P, b, b', i)
  {
    var P := FlushProblem(R, len, start);
    AllInSame(I, R.inv, S, a, b);
    FlushTrue(I, R, len, start, i, a);
    FlushTrue(I, R, len, start, i, b);
    EvalSame(I, R.flush, a, b);
    MonoPredsLocal(I, R, S, a, b);
    forall v {:trigger P.vars[v]} | 0 <= v < |P.vars|
      ensures b'(P.vars[v]) == Eval(I, NextOf(P.target, P.vars, i)[v], b)
    {
      assert a'(P.vars[v]) == Eval(I, NextOf(P.target, P.vars, i)[v], a);
      assert R.states[v] in S;
    }
  }

  lemma AssnStepLocal(I: Interp, R: Ref, S: set<string>, len: nat, start: nat, tag: string,
                      A: Assignment, B: Assignment, i: nat)
    requires Scoped(R, S) && i < len && AssnStep(I, FlushProblem(R, len, start), A, tag, 0, i)
    requires SameIn(S, Frame(A, Curr(i, tag)), Frame(B, Curr(i, tag)))
    requires SameIn(S, Frame(A, Curr(i + 1, tag)), Frame(B, Curr(i + 1, tag)))
    ensures AssnStep(I, FlushProblem(R, len, start), B, tag, 0, i)
  {
    var j: nat := i + 1;
    var b, b' := Frame(B, Curr(i, tag)), Frame(B, Curr(j, tag));
    StepLocal(I, R, S, len, start, Frame(A, Curr(i, tag)), b, Frame(A, Curr(j, tag)), b', i);
    AssnStepAt(I, FlushProblem(R, len, start), B, tag, i, b, b');
  }

  lemma EndLocal(I: Interp, R: Ref, S: set<string>, len: nat, start: nat, a: Env, b: Env)
    requires Scoped(R, S) && SameIn(S, a, b) && EndPreds(I, FlushProblem(R, len, start), a, len)
    ensures EndPreds(I, FlushProblem(R, len, start), b, len)
  {
    AllInSame(I, R.inv, S, a, b);
    FlushTrue(I, R, len, start, len, a);
    FlushTrue(I, R, len, start, len, b);
    EvalSame(I, R.flush, a, b);
  }

  /** Assignments that agree on the ILA's variables in the frames of a tag are models alike. */
  lemma AssnModelLocal(I: Interp, R: Ref, S: set<string>, len: nat, start: nat, tag: string, A: Assignment,
                       B: Assignment)
    requires Scoped(R, S) && AssnModel(I, FlushProblem(R, len, start), A, tag, len, 0)
    requires forall i: nat :: SameIn(S, Frame(A, Curr(i, tag)), Frame(B, Curr(i, tag)))
    ensures AssnModel(I, FlushProblem(R, len, start), B, tag, len, 0)
  {
    var P := FlushProblem(R, len, start);
    forall i: nat | i < len ensures AssnStep(I, P, B, tag, 0, i) {
      assert AssnStep(I, P, A, tag, 0, i);
      AssnStepLocal(I, R, S, len, start, tag, A, B, i);
    }
    EndLocal(I, R, S, len, start, Frame(A, Curr(len, tag)), Frame(B, Curr(len, tag)));
  }

  // ---------- a square that does not commute is a model of the query ----------

  /** In the ILA's variables the frames of a tag encode the run. */
  ghost predicate Encodes(I: Interp, R: Ref, S: set<string>, M: Assignment, tag: string, run: seq<Env>, start: nat)
    requires |run| > 0
  {
    var E := EncodedRun(I, FlushProblem(R, |run| - 1, start), tag, run);
    forall i: nat :: SameIn(S, Frame(E, Curr(i, tag)), Frame(M, Curr(i, tag)))
  }

  /** Expressions of the ILA have their values in the run. */
  lemma EncodedValue(I: Interp, R: Ref, S: set<string>, M: Assignment, tag: string, run: seq<Env>, start: nat,
                     i: nat, e: Expr)
    requires Scoped(R, S) && i < |run| && Encodes(I, R, S, M, tag, run, start)
    requires Names(e) <= S && Plain(FlushProblem(R, 0, 0), e)
    ensures Eval(I, e, Frame(M, Curr(i, tag))) == Eval(I, e, run[i])
  {
    var P := FlushProblem(R, |run| - 1, start);
    CleanFlush(R, |run| - 1, start, S);
    EncodedRunShows(I, P, tag, run);
    var E := Frame(EncodedRun(I, P, tag, run), Curr(i, tag));
    assert Agree(P, E, run[i]);
    PlainSame(I, P, e, E, run[i]);
    EvalSame(I, e, E, Frame(M, Curr(i, tag)));
  }

  lemma EncodedState(I: Interp, R: Ref, S: set<string>, M: Assignment, tag: string, run: seq<Env>, start: nat, i: nat)
    requires Scoped(R, S) && i < |run| && Encodes(I, R, S, M, tag, run, start)
    ensures SameStates(R.states, Frame(M, Curr(i, tag)), run[i])
    ensures SameStates(R.stts, Frame(M, Curr(i, tag)), run[i])
  {
    forall x | x in R.states ensures M(x, Curr(i, tag)) == run[i](x) {
      var v :| 0 <= v < |R.states| && R.states[v] == x;
      assert !Fresh(FlushProblem(R, 0, 0), R.states[v]);
      EncodedValue(I, R, S, M, tag, run, start, i, Var(x));
    }
  }

  /** What encodes a flushing run satisfies the unrolling and completes where the run does. */
  lemma EncodedPath(I: Interp, R: Ref, S: set<string>, M: Assignment, tag: string, run: seq<Env>, start: nat, len: nat)
    requires |run| == len + 1 && Scoped(R, S) && FlushRun(I, R, run, start) && Encodes(I, R, S, M, tag, run, start)
    ensures AssnModel(I, FlushProblem(R, len, start), M, tag, len, 0)
    ensures forall i: nat :: CompletesAt(I, R, RunOf(M, tag, len), start, i) <==> CompletesAt(I, R, run, start, i)
  {
    EncodedModel(I, R, S, M, tag, run, start, len);
    EncodedCompletes(I, R, S, M, tag, run, start, len);
  }

  lemma EncodedModel(I: Interp, R: Ref, S: set<string>, M: Assignment, tag: string, run: seq<Env>, start: nat, len: nat)
    requires |run| == len + 1 && Scoped(R, S) && FlushRun(I, R, run, start) && Encodes(I, R, S, M, tag, run, start)
    ensures AssnModel(I, FlushProblem(R, len, start), M, tag, len, 0)
  {
    RunCodeModel(I, R, S, tag, run, start, len);
    AssnModelLocal(I, R, S, len, start, tag, RunCode(I, R, tag, run, start), M);
  }

  lemma RunCodeModel(I: Interp, R: Ref, S: set<string>, tag: string, run: seq<Env>, start: nat, len: nat)
    requires |run| == len + 1 && Scoped(R, S) && FlushRun(I, R, run, start)
    ensures AssnModel(I, FlushProblem(R, len, start), RunCode(I, R, tag, run, start), tag, len, 0)
  {
    CleanFlush(R, len, start, S);
    FlushRunIsMonoRun(I, R, run, start);
    RunIsModel(I, FlushProblem(R, len, start), tag, run, len);
  }

  lemma EncodedCompletes(I: Interp, R: Ref, S: set<string>, M: Assignment, tag: string, run: seq<Env>, start: nat,
                         len: nat)
    requires |run| == len + 1 && Scoped(R, S) && Encodes(I, R, S, M, tag, run, start)
    ensures forall i: nat :: CompletesAt(I, R, RunOf(M, tag, len), start, i) <==> CompletesAt(I, R, run, start, i)
  {
    var frames := RunOf(M, tag, len);
    forall j: nat {:trigger frames[j]} | j <= len
      ensures Is(I, R.cmpl, frames[j]) <==> Is(I, R.cmpl, run[j])
    {
      EncodedValue(I, R, S, M, tag, run, start, j, R.cmpl);
    }
    CompletesAlike(I, R, frames, run, start);
  }

  lemma CompletesAlike(I: Interp, R: Ref, a: seq<Env>, b: seq<Env>, start: nat)
    requires |a| == |b|
    requires forall j {:trigger a[j]} {:trigger b[j]} :: 0 <= j < |a| ==> (Is(I, R.cmpl, a[j]) <==> Is(I, R.cmpl, b[j]))
    ensures forall i: nat :: CompletesAt(I, R, a, start, i) <==> CompletesAt(I, R, b, start, i)
  {
  }

  lemma EncodedFlush(I: Interp, R: Ref, S: set<string>, M: Assignment, tag: string, run: seq<Env>, start: nat,
                     i: nat, len: nat)
    requires |run| == len + 1 && Scoped(R, S) && FlushRun(I, R, run, start) && Encodes(I, R, S, M, tag, run, start)
    requires CompletesAt(I, R, run, start, i) && SameStates(R.stts, Frame(M, Bare(tag)), run[i])
    ensures FlushModel(I, R, M, tag, len, start)
  {
    EncodedPath(I, R, S, M, tag, run, start, len);
    EncodedState(I, R, S, M, tag, run, start, i);
    SameStatesTrans(R.stts, Frame(M, Bare(tag)), run[i], Frame(M, Curr(i, tag)));
    OneRepresentative(I, R, M, tag, len, start, i);
  }

  lemma SameStatesTrans(vars: seq<string>, a: Env, b: Env, c: Env)
    requires SameStates(vars, a, b) && (SameStates(vars, c, b) || SameStates(vars, b, c))
    ensures SameStates(vars, a, c)
  {
  }

  /** Equal states, of which one is about to flush and the other to apply. */
  ghost predicate TwinStates(I: Interp, R: Ref, orig: Env, appl: Env) {
    Is(I, R.flush, orig) && Is(I, R.appl, appl) && SameStates(R.states, orig, appl)
  }

  lemma TwinsAreInit(I: Interp, R: Ref, S: set<string>, M: Assignment, orig: seq<Env>, appl: seq<Env>)
    requires Scoped(R, S) && orig != [] && appl != [] && TwinStates(I, R, orig[0], appl[0])
    requires Encodes(I, R, S, M, ORIG, orig, 0) && Encodes(I, R, S, M, APPL, appl, 1)
    ensures InitModel(I, R, M)
  {
    EncodedValue(I, R, S, M, APPL, appl, 1, 0, R.appl);
    EncodedValue(I, R, S, M, ORIG, orig, 0, 0, R.flush);
    EncodedState(I, R, S, M, ORIG, orig, 0, 0);
    EncodedState(I, R, S, M, APPL, appl, 1, 0);
    SameStatesTrans(R.states, Frame(M, Curr(0, ORIG)), orig[0], appl[0]);
  }

  lemma PairIsTwins(I: Interp, R: Ref, orig: seq<Env>, appl: seq<Env>)
    requires RunPair(I, R, orig, appl)
    ensures TwinStates(I, R, orig[0], appl[0])
  {
  }

  lemma TranModelOf(I: Interp, R: Ref, M: Assignment, kOrig: nat, kAppl: nat)
    requires InitModel(I, R, M) && FlushModel(I, R, M, ORIG, kOrig, 0) && FlushModel(I, R, M, APPL, kAppl + 1, 1)
    ensures TranModel(I, R, M, kOrig, kAppl)
  {
  }

  lemma LegIsModel(I: Interp, R: Ref, S: set<string>, M: Assignment, kOrig: nat, kAppl: nat, l: Leg)
    requires Scoped(R, S) && IsLeg(I, R, kOrig, kAppl, l)
    requires Encodes(I, R, S, M, ORIG, l.orig, 0) && Encodes(I, R, S, M, APPL, l.appl, 1)
    requires SameStates(R.stts, Frame(M, Bare(ORIG)), l.orig[l.i])
    requires SameStates(R.stts, Frame(M, Bare(APPL)), l.appl[l.j])
    ensures TranModel(I, R, M, kOrig, kAppl)
  {
    PairIsTwins(I, R, l.orig, l.appl);
    TwinsAreInit(I, R, S, M, l.orig, l.appl);
    EncodedFlush(I, R, S, M, ORIG, l.orig, 0, l.i, kOrig);
    EncodedFlush(I, R, S, M, APPL, l.appl, 1, l.j, kAppl + 1);
    TranModelOf(I, R, M, kOrig, kAppl);
  }

  /** Assignments for the frames of the two ILAs and the representatives, in one: the ILAs share no
      variable. */
  ghost function Merge(S: set<string>, origA: Assignment, applA: Assignment, origB: Assignment, applB: Assignment,
                       orig: Env, appl: Env): Assignment
  {
    (x: string, f: Suffix) =>
      if f.Bare? then (if f.tag == ORIG then orig(x) else appl(x))
      else if x in S then (if f.tag == ORIG then origA(x, f) else applA(x, f))
      else (if f.tag == ORIG then origB(x, f) else applB(x, f))
  }

  ghost function RunCode(I: Interp, R: Ref, tag: string, run: seq<Env>, start: nat): Assignment
    requires |run| > 0
  {
    EncodedRun(I, FlushProblem(R, |run| - 1, start), tag, run)
  }

  ghost function Merged(I: Interp, C: Crr, SA: set<string>, a: Leg, b: Leg): Assignment
    requires a.i < |a.orig| && b.i < |b.orig| && a.j < |a.appl| && b.j < |b.appl|
  {
    Merge(SA, RunCode(I, C.refA, ORIG, a.orig, 0), RunCode(I, C.refA, APPL, a.appl, 1),
          RunCode(I, C.refB, ORIG, b.orig, 0), RunCode(I, C.refB, APPL, b.appl, 1),
          Joint(C, a.orig[a.i], b.orig[b.i]), Joint(C, a.appl[a.j], b.appl[b.j]))
  }

  lemma TagsDiffer()
    ensures ORIG != APPL
  {
    assert ORIG[0] == 'o' && APPL[0] == 'a';
  }

  /** Each part of a merged assignment is still there. */
  lemma MergeParts(SA: set<string>, SB: set<string>, origA: Assignment, applA: Assignment,
                   origB: Assignment, applB: Assignment, orig: Env, appl: Env, i: nat)
    requires SA !! SB
    ensures
      var M := Merge(SA, origA, applA, origB, applB, orig, appl);
      && SameIn(SA, Frame(origA, Curr(i, ORIG)), Frame(M, Curr(i, ORIG)))
      && SameIn(SA, Frame(applA, Curr(i, APPL)), Frame(M, Curr(i, APPL)))
      && SameIn(SB, Frame(origB, Curr(i, ORIG)), Frame(M, Curr(i, ORIG)))
      && SameIn(SB, Frame(applB, Curr(i, APPL)), Frame(M, Curr(i, APPL)))
      && SameEnv(Frame(M, Bare(ORIG)), orig) && SameEnv(Frame(M, Bare(APPL)), appl)
  {
    TagsDiffer();
  }

  lemma SttsIn(R: Ref, S: set<string>)
    requires Scoped(R, S)
    ensures forall x :: x in R.stts ==> x in S
  {
  }

  lemma JointParts(C: Crr, SA: set<string>, SB: set<string>, a: Env, b: Env)
    requires WellFormed(C, SA, SB)
    ensures SameStates(C.refA.stts, Joint(C, a, b), a) && SameStates(C.refB.stts, Joint(C, a, b), b)
  {
    SttsIn(C.refA, SA);
    SttsIn(C.refB, SB);
    assert forall x :: x in C.refB.stts ==> x in SB && x !in SA;
  }

  lemma MergedEncodes(I: Interp, C: Crr, a: Leg, b: Leg, SA: set<string>, SB: set<string>)
    requires SA !! SB && a.i < |a.orig| && b.i < |b.orig| && a.j < |a.appl| && b.j < |b.appl|
    ensures
      var M := Merged(I, C, SA, a, b);
      && Encodes(I, C.refA, SA, M, ORIG, a.orig, 0) && Encodes(I, C.refA, SA, M, APPL, a.appl, 1)
      && Encodes(I, C.refB, SB, M, ORIG, b.orig, 0) && Encodes(I, C.refB, SB, M, APPL, b.appl, 1)
      && SameEnv(Frame(M, Bare(ORIG)), Joint(C, a.orig[a.i], b.orig[b.i]))
      && SameEnv(Frame(M, Bare(APPL)), Joint(C, a.appl[a.j], b.appl[b.j]))
  {
    var M := Merged(I, C, SA, a, b);
    var oa, aa := RunCode(I, C.refA, ORIG, a.orig, 0), RunCode(I, C.refA, APPL, a.appl, 1);
    var ob, ab := RunCode(I, C.refB, ORIG, b.orig, 0), RunCode(I, C.refB, APPL, b.appl, 1);
    var orig, appl := Joint(C, a.orig[a.i], b.orig[b.i]), Joint(C, a.appl[a.j], b.appl[b.j]);
    forall i: nat
      ensures SameIn(SA, Frame(oa, Curr(i, ORIG)), Frame(M, Curr(i, ORIG)))
      ensures SameIn(SA, Frame(aa, Curr(i, APPL)), Frame(M, Curr(i, APPL)))
      ensures SameIn(SB, Frame(ob, Curr(i, ORIG)), Frame(M, Curr(i, ORIG)))
      ensures SameIn(SB, Frame(ab, Curr(i, APPL)), Frame(M, Curr(i, APPL)))
    {
      MergeParts(SA, SB, oa, aa, ob, ab, orig, appl, i);
    }
    MergeParts(SA, SB, oa, aa, ob, ab, orig, appl, 0);
  }

  lemma BrokenDiagramIsQueryModel(I: Interp, C: Crr, n: Bounds, a: Leg, b: Leg, SA: set<string>, SB: set<string>)
    requires WellFormed(C, SA, SB)
    requires IsLeg(I, C.refA, n.origA, n.applA, a) && IsLeg(I, C.refB, n.origB, n.applB, b)
    requires !CommutesAt(I, C, a, b)
    ensures QueryModel(I, C, Merged(I, C, SA, a, b), n)
  {
    var M := Merged(I, C, SA, a, b);
    MergedEncodes(I, C, a, b, SA, SB);
    MergedRelates(I, C, n, a, b, SA, SB);
    LegIsModel(I, C.refA, SA, M, n.origA, n.applA, a);
    LegIsModel(I, C.refB, SB, M, n.origB, n.applB, b);
  }

  lemma MergedRelates(I: Interp, C: Crr, n: Bounds, a: Leg, b: Leg, SA: set<string>, SB: set<string>)
    requires WellFormed(C, SA, SB)
    requires IsLeg(I, C.refA, n.origA, n.applA, a) && IsLeg(I, C.refB, n.origB, n.applB, b)
    requires !CommutesAt(I, C, a, b)
    ensures
      var M := Merged(I, C, SA, a, b);
      && Is(I, C.relation, Frame(M, Bare(ORIG))) && !Is(I, C.relation, Frame(M, Bare(APPL)))
      && SameStates(C.refA.stts, Frame(M, Bare(ORIG)), a.orig[a.i])
      && SameStates(C.refB.stts, Frame(M, Bare(ORIG)), b.orig[b.i])
      && SameStates(C.refA.stts, Frame(M, Bare(APPL)), a.appl[a.j])
      && SameStates(C.refB.stts, Frame(M, Bare(APPL)), b.appl[b.j])
  {
    var M := Merged(I, C, SA, a, b);
    var orig, appl := Joint(C, a.orig[a.i], b.orig[b.i]), Joint(C, a.appl[a.j], b.appl[b.j]);
    JointParts(C, SA, SB, a.orig[a.i], b.orig[b.i]);
    JointParts(C, SA, SB, a.appl[a.j], b.appl[b.j]);
    MergedEncodes(I, C, a, b, SA, SB);
    SameStatesSame(C.refA.stts, Frame(M, Bare(ORIG)), orig, a.orig[a.i]);
    SameStatesSame(C.refB.stts, Frame(M, Bare(ORIG)), orig, b.orig[b.i]);
    SameStatesSame(C.refA.stts, Frame(M, Bare(APPL)), appl, a.appl[a.j]);
    SameStatesSame(C.refB.stts, Frame(M, Bare(APPL)), appl, b.appl[b.j]);
    RelatedByRepresentatives(I, C, Frame(M, Bare(ORIG)), a.orig[a.i], b.orig[b.i], SA, SB);
    RelatedByRepresentatives(I, C, Frame(M, Bare(APPL)), a.appl[a.j], b.appl[b.j], SA, SB);
  }

  lemma SameStatesSame(vars: seq<string>, a: Env, b: Env, c: Env)
    requires SameEnv(a, b) && SameStates(vars, b, c)
    ensures SameStates(vars, a, c)
  {
  }

  /** If the admissible flushing runs complete exactly once, the query has no model exactly when the
      diagram commutes for all runs. */
  lemma QueryIsDiagram(I: Interp, C: Crr, n: Bounds, SA: set<string>, SB: set<string>)
    requires WellFormed(C, SA, SB)
    requires CompletesOnce(I, C.refA, n.origA, n.applA) && CompletesOnce(I, C.refB, n.origB, n.applB)
    ensures (forall A :: !QueryModel(I, C, A, n)) <==> Commutes(I, C, n)
  {
    if A :| QueryModel(I, C, A, n) {
      QueryModelBreaksDiagram(I, C, A, n, SA, SB);
    }
    if !Commutes(I, C, n) {
      var a, b :| IsLeg(I, C.refA, n.origA, n.applA, a) && IsLeg(I, C.refB, n.origB, n.applB, b) &&
        !CommutesAt(I, C, a, b);
      BrokenDiagramIsQueryModel(I, C, n, a, b, SA, SB);
    }
  }

  // ---------- from unrolled paths to runs ----------

  /** Every path that CheckStepOrig unrolls from the initial condition completes exactly once. */
  ghost predicate OrigOnce(I: Interp, R: Ref, k: nat) {
    forall A | InitModel(I, R, A) && AssnModel(I, FlushProblem(R, k, 0), A, ORIG, k, 0) ::
      Once(I, R, RunOf(A, ORIG, k), 0)
  }

  /** The same for CheckStepAppl. */
  ghost predicate ApplOnce(I: Interp, R: Ref, k: nat) {
    forall A | InitModel(I, R, A) && AssnModel(I, FlushProblem(R, k + 1, 1), A, APPL, k + 1, 0) ::
      Once(I, R, RunOf(A, APPL, k + 1), 1)
  }

  /** If all unrolled paths complete exactly once, so do all pairs of runs. */
  lemma PathsOnceGiveRunsOnce(I: Interp, R: Ref, kOrig: nat, kAppl: nat, S: set<string>)
    requires Scoped(R, S) && OrigOnce(I, R, kOrig) && ApplOnce(I, R, kAppl)
    ensures CompletesOnce(I, R, kOrig, kAppl)
  {
    forall orig, appl | |orig| == kOrig + 1 && |appl| == kAppl + 2 && RunPair(I, R, orig, appl)
      ensures Once(I, R, orig, 0) && Once(I, R, appl, 1)
    {
      PairCompletes(I, R, kOrig, kAppl, S, orig, appl);
    }
  }

  /** Two sequences that start in twin states are encoded in one assignment. */
  lemma TwinsHaveModel(I: Interp, R: Ref, S: set<string>, orig: seq<Env>, appl: seq<Env>) returns (M: Assignment)
    requires Scoped(R, S) && orig != [] && appl != [] && TwinStates(I, R, orig[0], appl[0])
    ensures InitModel(I, R, M)
    ensures Encodes(I, R, S, M, ORIG, orig, 0) && Encodes(I, R, S, M, APPL, appl, 1)
  {
    var o, a := RunCode(I, R, ORIG, orig, 0), RunCode(I, R, APPL, appl, 1);
    M := Merge(S, o, a, o, a, orig[0], appl[0]);
    forall i: nat
      ensures SameIn(S, Frame(o, Curr(i, ORIG)), Frame(M, Curr(i, ORIG)))
      ensures SameIn(S, Frame(a, Curr(i, APPL)), Frame(M, Curr(i, APPL)))
    {
      MergeParts(S, {}, o, a, o, a, orig[0], appl[0], i);
    }
    TwinsAreInit(I, R, S, M, orig, appl);
  }

  /** A pair of runs is the unrolling of both paths in one assignment. */
  lemma PairIsPaths(I: Interp, R: Ref, kOrig: nat, kAppl: nat, S: set<string>, orig: seq<Env>, appl: seq<Env>)
    returns (M: Assignment)
    requires Scoped(R, S) && |orig| == kOrig + 1 && |appl| == kAppl + 2 && RunPair(I, R, orig, appl)
    ensures InitModel(I, R, M)
    ensures AssnModel(I, FlushProblem(R, kOrig, 0), M, ORIG, kOrig, 0)
    ensures AssnModel(I, FlushProblem(R, kAppl + 1, 1), M, APPL, kAppl + 1, 0)
    ensures forall i: nat :: CompletesAt(I, R, RunOf(M, ORIG, kOrig), 0, i) <==> CompletesAt(I, R, orig, 0, i)
    ensures forall i: nat :: CompletesAt(I, R, RunOf(M, APPL, kAppl + 1), 1, i) <==> CompletesAt(I, R, appl, 1, i)
  {
    PairIsTwins(I, R, orig, appl);
    M := TwinsHaveModel(I, R, S, orig, appl);
    EncodedPath(I, R, S, M, ORIG, orig, 0, kOrig);
    EncodedPath(I, R, S, M, APPL, appl, 1, kAppl + 1);
  }

  lemma PairCompletes(I: Interp, R: Ref, kOrig: nat, kAppl: nat, S: set<string>, orig: seq<Env>, appl: seq<Env>)
    requires Scoped(R, S) && OrigOnce(I, R, kOrig) && ApplOnce(I, R, kAppl)
    requires |orig| == kOrig + 1 && |appl| == kAppl + 2 && RunPair(I, R, orig, appl)
    ensures Once(I, R, orig, 0) && Once(I, R, appl, 1)
  {
    var M := PairIsPaths(I, R, kOrig, kAppl, S, orig, appl);
    assert Once(I, R, RunOf(M, ORIG, kOrig), 0) && Once(I, R, RunOf(M, APPL, kAppl + 1), 1);
    var i: nat :| CompletesAt(I, R, RunOf(M, ORIG, kOrig), 0, i);
    var j: nat :| CompletesAt(I, R, RunOf(M, APPL, kAppl + 1), 1, j);
    assert CompletesAt(I, R, orig, 0, i) && CompletesAt(I, R, appl, 1, j);
  }
}
