/** The checks that determine the numbers of steps: the paths they unroll, what the two queries say
    together, and what the solver is really asked. */
module StepChecks {
  import opened Ast
  import opened Ila
  import opened Frames
  import opened Unrolling
  import opened Encodings
  import opened MonoRuns
  import opened Refinement

  // ---------- the paths ----------

  /** CheckStepOrig makes the flush condition a global predicate. */
  function OrigProblem(R: Ref): Problem {
    Problem(Mono(R.insts, R.top), R.states, [R.flush] + R.inv, [], map[])
  }

  /** CheckStepAppl makes the apply condition an initial predicate and flushes from step 1 on. */
  function ApplProblem(R: Ref, k: nat): Problem {
    Problem(Mono(R.insts, R.top), R.states, R.inv, [R.appl], FlushSteps(R, 1, k + 2))
  }

  ghost predicate OrigPath(I: Interp, R: Ref, A: Assignment, k: nat) {
    InitModel(I, R, A) && AssnModel(I, FlushProblem(R, k, 0), A, ORIG, k, 0)
  }

  ghost predicate ApplPath(I: Interp, R: Ref, A: Assignment, k: nat) {
    InitModel(I, R, A) && AssnModel(I, FlushProblem(R, k + 1, 1), A, APPL, k + 1, 0)
  }

  lemma AllTrueFirst(I: Interp, e: Expr, es: seq<Expr>, env: Env)
    ensures AllTrue(I, [e] + es, env) <==> Is(I, e, env) && AllTrue(I, es, env)
  {
    var all := [e] + es;
    if AllTrue(I, all, env) {
      assert all[0] == e;
      forall i {:trigger es[i]} | 0 <= i < |es| ensures Truth(Eval(I, es[i], env)) { assert all[i + 1] == es[i]; }
    }
  }

  lemma OrigStepIsFlush(I: Interp, R: Ref, A: Assignment, k: nat, i: nat)
    requires i < k
    ensures AssnStep(I, OrigProblem(R), A, ORIG, 0, i) <==> AssnStep(I, FlushProblem(R, k, 0), A, ORIG, 0, i)
  {
    AllTrueFirst(I, R.flush, R.inv, Frame(A, Curr(i, ORIG)));
    FlushTrue(I, R, k, 0, i, Frame(A, Curr(i, ORIG)));
  }

  /** A global flush condition unrolls to the flushing problem from position 0. */
  lemma OrigIsFlush(I: Interp, R: Ref, A: Assignment, k: nat)
    ensures AssnModel(I, OrigProblem(R), A, ORIG, k, 0) <==> AssnModel(I, FlushProblem(R, k, 0), A, ORIG, k, 0)
  {
    forall i: nat | i < k
      ensures AssnStep(I, OrigProblem(R), A, ORIG, 0, i) <==> AssnStep(I, FlushProblem(R, k, 0), A, ORIG, 0, i)
    {
      OrigStepIsFlush(I, R, A, k, i);
    }
    AllTrueFirst(I, R.flush, R.inv, Frame(A, Curr(k, ORIG)));
    FlushTrue(I, R, k, 0, k, Frame(A, Curr(k, ORIG)));
  }

  lemma ApplStepIsFlush(I: Interp, R: Ref, A: Assignment, k: nat, i: nat)
    requires i < k + 1
    ensures AssnStep(I, ApplProblem(R, k), A, APPL, 0, i) <==>
            AssnStep(I, FlushProblem(R, k + 1, 1), A, APPL, 0, i) && (i == 0 ==> Is(I, R.appl, Frame(A, Curr(0, APPL))))
  {
    AllTrueFirst(I, R.appl, [], Frame(A, Curr(0, APPL)));
    assert [R.appl] + [] == [R.appl];
  }

  /** With the initial condition, the apply predicate adds nothing to the flushing problem from position 1. */
  lemma ApplIsFlush(I: Interp, R: Ref, A: Assignment, k: nat)
    ensures AssnModel(I, ApplProblem(R, k), A, APPL, k + 1, 0) <==>
            AssnModel(I, FlushProblem(R, k + 1, 1), A, APPL, k + 1, 0) && Is(I, R.appl, Frame(A, Curr(0, APPL)))
  {
    forall i: nat | i < k + 1
      ensures AssnStep(I, ApplProblem(R, k), A, APPL, 0, i) <==>
              AssnStep(I, FlushProblem(R, k + 1, 1), A, APPL, 0, i) && (i == 0 ==> Is(I, R.appl, Frame(A, Curr(0, APPL))))
    {
      ApplStepIsFlush(I, R, A, k, i);
    }
    var zero, n: nat := 0, k + 1;
    if AssnModel(I, ApplProblem(R, k), A, APPL, n, 0) {
      assert AssnStep(I, ApplProblem(R, k), A, APPL, 0, zero);
      forall i: nat | i < n ensures AssnStep(I, FlushProblem(R, n, 1), A, APPL, 0, i) {
        assert AssnStep(I, ApplProblem(R, k), A, APPL, 0, i);
      }
    }
    if AssnModel(I, FlushProblem(R, n, 1), A, APPL, n, 0) && Is(I, R.appl, Frame(A, Curr(0, APPL))) {
      forall i: nat | i < n ensures AssnStep(I, ApplProblem(R, k), A, APPL, 0, i) {
        assert AssnStep(I, FlushProblem(R, n, 1), A, APPL, 0, i);
      }
    }
  }

  lemma CheckedAreClean(R: Ref, k: nat, S: set<string>)
    requires Scoped(R, S)
    ensures Clean(OrigProblem(R)) && Clean(ApplProblem(R, k))
  {
    var Q := FlushProblem(R, 0, 0);
    CleanFlush(R, k + 1, 1, S);
    SameClean(Q, OrigProblem(R));
    SameClean(FlushProblem(R, k + 1, 1), ApplProblem(R, k));
  }

  /** Problems of the same ILA have the same fresh names. */
  lemma SameClean(Q: Problem, P: Problem)
    requires Clean(Q) && P.target == Q.target && P.vars == Q.vars
    requires AllPlain(Q, P.init) && AllPlain(Q, P.glob) && forall k :: AllPlain(Q, StepExprs(P.step, k))
    ensures Clean(P)
  {
    forall e: Expr | Plain(Q, e) ensures Plain(P, e) {
    }
    forall k {:trigger P.target.insts[k]} | 0 <= k < |P.target.insts| ensures PlainInstr(P, P.target.insts[k]) {
      assert PlainInstr(Q, Q.target.insts[k]);
    }
    forall k ensures AllPlain(P, StepExprs(P.step, k)) {
      assert AllPlain(Q, StepExprs(P.step, k));
    }
  }

  // ---------- completion ----------

  /** Some position from `start` up to, and without, `end` completes. */
  ghost predicate SomeComplete(I: Interp, R: Ref, A: Assignment, tag: string, start: nat, end: nat) {
    exists i: nat {:trigger Curr(i, tag)} :: start <= i < end && Is(I, R.cmpl, Frame(A, Curr(i, tag)))
  }

  /** No two positions from `start` to `end` complete. */
  ghost predicate NotTwice(I: Interp, R: Ref, A: Assignment, tag: string, start: nat, end: nat) {
    forall a: nat, b: nat {:trigger Curr(a, tag), Curr(b, tag)} :: start <= a < b <= end ==>
      !(Is(I, R.cmpl, Frame(A, Curr(a, tag))) && Is(I, R.cmpl, Frame(A, Curr(b, tag))))
  }

  /** Once is some position and no two. */
  lemma OnceSplits(I: Interp, R: Ref, A: Assignment, tag: string, start: nat, len: nat)
    ensures Once(I, R, RunOf(A, tag, len), start) <==>
            SomeComplete(I, R, A, tag, start, len + 1) && NotTwice(I, R, A, tag, start, len)
  {
    var run := RunOf(A, tag, len);
    if Once(I, R, run, start) {
      var i: nat :| CompletesAt(I, R, run, start, i);
      assert Is(I, R.cmpl, Frame(A, Curr(i, tag)));
      forall a: nat, b: nat {:trigger Curr(a, tag), Curr(b, tag)} | start <= a < b <= len
        ensures !(Is(I, R.cmpl, Frame(A, Curr(a, tag))) && Is(I, R.cmpl, Frame(A, Curr(b, tag))))
      {
        assert run[a] == Frame(A, Curr(a, tag)) && run[b] == Frame(A, Curr(b, tag));
      }
    }
    if SomeComplete(I, R, A, tag, start, len + 1) && NotTwice(I, R, A, tag, start, len) {
      var i: nat :| start <= i < len + 1 && Is(I, R.cmpl, Frame(A, Curr(i, tag)));
      forall j {:trigger run[j]} | start <= j < |run| && Is(I, R.cmpl, run[j]) ensures j == i {
        var n: nat := j;
        assert Is(I, R.cmpl, Frame(A, Curr(n, tag)));
      }
      assert CompletesAt(I, R, run, start, i);
    }
  }

  /** Every path completes somewhere, which is what a passed check means. */
  ghost predicate OrigCompletes(I: Interp, R: Ref, k: nat) {
    forall A | OrigPath(I, R, A, k) :: SomeComplete(I, R, A, ORIG, 0, k + 1)
  }

  ghost predicate ApplCompletes(I: Interp, R: Ref, k: nat) {
    forall A | ApplPath(I, R, A, k) :: SomeComplete(I, R, A, APPL, 1, k + 2)
  }

  /** A passed check of the first kind means exactly once precisely when no path completes twice. */
  lemma PassedOrigIsOnce(I: Interp, R: Ref, k: nat)
    requires OrigCompletes(I, R, k)
    ensures OrigOnce(I, R, k) <==> forall A | OrigPath(I, R, A, k) :: NotTwice(I, R, A, ORIG, 0, k)
  {
    forall A | OrigPath(I, R, A, k)
      ensures Once(I, R, RunOf(A, ORIG, k), 0) <==> NotTwice(I, R, A, ORIG, 0, k)
    {
      OnceSplits(I, R, A, ORIG, 0, k);
    }
  }

  lemma PassedApplIsOnce(I: Interp, R: Ref, k: nat)
    requires ApplCompletes(I, R, k)
    ensures ApplOnce(I, R, k) <==> forall A | ApplPath(I, R, A, k) :: NotTwice(I, R, A, APPL, 1, k + 1)
  {
    forall A | ApplPath(I, R, A, k)
      ensures Once(I, R, RunOf(A, APPL, k + 1), 1) <==> NotTwice(I, R, A, APPL, 1, k + 1)
    {
      OnceSplits(I, R, A, APPL, 1, k + 1);
    }
    var n: nat := k + 1;
    if ApplOnce(I, R, k) {
      forall A | ApplPath(I, R, A, k) ensures NotTwice(I, R, A, APPL, 1, n) {
        assert Once(I, R, RunOf(A, APPL, n), 1);
      }
    }
    if forall A | ApplPath(I, R, A, k) :: NotTwice(I, R, A, APPL, 1, n) {
      forall A | InitModel(I, R, A) && AssnModel(I, FlushProblem(R, n, 1), A, APPL, n, 0)
        ensures Once(I, R, RunOf(A, APPL, n), 1)
      {
        assert ApplPath(I, R, A, k);
      }
    }
  }
}
