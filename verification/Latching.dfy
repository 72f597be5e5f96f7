/** When a passed step check means that runs complete exactly once, and how far the condition on single
    states and steps that gives this is from exact. */
module Latching {
  import opened Ast
  import opened Ila
  import opened Frames
  import opened Unrolling
  import opened MonoRuns
  import opened Refinement
  import opened StepChecks

  // ---------- a condition on single states and steps ----------

  type States = Env -> bool

  const AnyState: States := _ => true

  ghost function Holds(I: Interp, e: Expr): States {
    (env: Env) => Is(I, e, env)
  }

  /** The region is kept by flushing. In it `after` holds from a completion on for as long as the run
      flushes, and never together with another completion. */
  ghost predicate Latches(I: Interp, R: Ref, region: States, after: States) {
    && (forall cur, nxt | FlushStep(I, R, cur, nxt) && region(cur) ::
          region(nxt) && (Is(I, R.cmpl, cur) || after(cur) ==> after(nxt)))
    && (forall env | Flushes(I, R, env) && region(env) && after(env) :: !Is(I, R.cmpl, env))
  }

  ghost predicate Flushes(I: Interp, R: Ref, env: Env) {
    AllTrue(I, R.inv, env) && Is(I, R.flush, env)
  }

  ghost predicate FlushStep(I: Interp, R: Ref, cur: Env, nxt: Env) {
    Flushes(I, R, cur) && Flushes(I, R, nxt) && MonoStep(I, R.insts, R.states, cur, nxt)
  }

  // ---------- where flushing starts ----------

  /** A state from which one of the checks flushes: equal to one that can apply, or its successor. */
  ghost predicate Starts(I: Interp, R: Ref, env: Env) {
    OrigStart(I, R, env) || ApplStart(I, R, env)
  }

  ghost predicate OrigStart(I: Interp, R: Ref, env: Env) {
    exists appl: Env :: TwinStates(I, R, env, appl)
  }

  ghost predicate ApplStart(I: Interp, R: Ref, env: Env) {
    exists orig: Env, appl: Env {:trigger TwinStates(I, R, orig, appl)} ::
      TwinStates(I, R, orig, appl) && AllTrue(I, R.inv, appl) && MonoStep(I, R.insts, R.states, appl, env)
  }

  ghost predicate StartsIn(I: Interp, R: Ref, region: States) {
    forall env | Starts(I, R, env) && Flushes(I, R, env) :: region(env)
  }

  /** A run that flushes throughout, from a state in which flushing starts. */
  ghost predicate StartedRun(I: Interp, R: Ref, run: seq<Env>) {
    FlushRun(I, R, run, 0) && Starts(I, R, run[0])
  }

  ghost predicate Twice(I: Interp, R: Ref, run: seq<Env>) {
    exists a, b {:trigger run[a], run[b]} :: 0 <= a < b < |run| && Is(I, R.cmpl, run[a]) && Is(I, R.cmpl, run[b])
  }

  /** No such run, however long, completes twice. */
  ghost predicate NeverTwice(I: Interp, R: Ref) {
    forall run | StartedRun(I, R, run) :: !Twice(I, R, run)
  }

  // ---------- it is enough ----------

  lemma RunSteps(I: Interp, R: Ref, run: seq<Env>, i: nat)
    requires FlushRun(I, R, run, 0) && i + 1 < |run|
    ensures FlushStep(I, R, run[i], run[i + 1])
  {
    assert Steps(I, R, run, i);
  }

  lemma LatchStep(I: Interp, R: Ref, region: States, after: States, run: seq<Env>, i: nat)
    requires Latches(I, R, region, after) && FlushRun(I, R, run, 0) && i + 1 < |run| && region(run[i])
    ensures region(run[i + 1]) && (Is(I, R.cmpl, run[i]) || after(run[i]) ==> after(run[i + 1]))
  {
    RunSteps(I, R, run, i);
  }

  lemma {:induction false} StaysInRegion(I: Interp, R: Ref, region: States, after: States, run: seq<Env>, b: nat)
    requires Latches(I, R, region, after) && FlushRun(I, R, run, 0) && b < |run| && region(run[0])
    ensures region(run[b])
  {
    if b > 0 {
      StaysInRegion(I, R, region, after, run, b - 1);
      LatchStep(I, R, region, after, run, b - 1);
    }
  }

  lemma {:induction false} LatchedAfter(I: Interp, R: Ref, region: States, after: States, run: seq<Env>, a: nat, b: nat)
    requires Latches(I, R, region, after) && FlushRun(I, R, run, 0) && region(run[0])
    requires a < b < |run| && Is(I, R.cmpl, run[a])
    ensures after(run[b])
  {
    if a < b - 1 { LatchedAfter(I, R, region, after, run, a, b - 1); }
    StaysInRegion(I, R, region, after, run, b - 1);
    LatchStep(I, R, region, after, run, b - 1);
  }

  lemma LatchedNeverTwice(I: Interp, R: Ref, region: States, after: States)
    requires Latches(I, R, region, after) && StartsIn(I, R, region)
    ensures NeverTwice(I, R)
  {
    forall run | StartedRun(I, R, run) ensures !Twice(I, R, run) {
      assert Flushes(I, R, run[0]);
      forall a: nat, b: nat | a < b < |run| && Is(I, R.cmpl, run[a]) ensures !Is(I, R.cmpl, run[b]) {
        LatchedAfter(I, R, region, after, run, a, b);
        StaysInRegion(I, R, region, after, run, b);
        assert Flushes(I, R, run[b]);
      }
    }
  }

  // ---------- it is necessary ----------

  ghost predicate Reached(I: Interp, R: Ref, env: Env) {
    exists run :: StartedRun(I, R, run) && run[|run| - 1] == env
  }

  ghost predicate CompletesBefore(I: Interp, R: Ref, run: seq<Env>, n: nat) {
    exists a {:trigger run[a]} :: 0 <= a < n < |run| && Is(I, R.cmpl, run[a])
  }

  /** Reached by a run that has completed before. */
  ghost predicate Completed(I: Interp, R: Ref, env: Env) {
    exists run :: StartedRun(I, R, run) && run[|run| - 1] == env && CompletesBefore(I, R, run, |run| - 1)
  }

  ghost function ReachedStates(I: Interp, R: Ref): States {
    (env: Env) => Reached(I, R, env)
  }

  ghost function CompletedStates(I: Interp, R: Ref): States {
    (env: Env) => Completed(I, R, env)
  }

  lemma RunGoesOn(I: Interp, R: Ref, run: seq<Env>, nxt: Env)
    requires StartedRun(I, R, run) && FlushStep(I, R, run[|run| - 1], nxt)
    ensures StartedRun(I, R, run + [nxt])
  {
    var all := run + [nxt];
    forall i: nat | i < |all| - 1 ensures Steps(I, R, all, i) {
      if i < |run| - 1 { assert Steps(I, R, run, i); }
    }
  }

  lemma StartsAreReached(I: Interp, R: Ref)
    ensures StartsIn(I, R, ReachedStates(I, R))
  {
    forall env: Env | Starts(I, R, env) && Flushes(I, R, env) ensures Reached(I, R, env) {
      var run := [env];
      assert StartedRun(I, R, run) && run[|run| - 1] == env;
    }
  }

  lemma ReachedStays(I: Interp, R: Ref, cur: Env, nxt: Env)
    requires FlushStep(I, R, cur, nxt) && Reached(I, R, cur)
    ensures Reached(I, R, nxt)
  {
    var run :| StartedRun(I, R, run) && run[|run| - 1] == cur;
    RunGoesOn(I, R, run, nxt);
    var all := run + [nxt];
    assert all[|all| - 1] == nxt;
  }

  lemma CompletedStays(I: Interp, R: Ref, cur: Env, nxt: Env)
    requires FlushStep(I, R, cur, nxt) && (Completed(I, R, cur) || (Reached(I, R, cur) && Is(I, R.cmpl, cur)))
    ensures Completed(I, R, nxt)
  {
    var run :| StartedRun(I, R, run) && run[|run| - 1] == cur &&
      (CompletesBefore(I, R, run, |run| - 1) || Is(I, R.cmpl, cur));
    var all, last: nat := run + [nxt], |run| - 1;
    RunGoesOn(I, R, run, nxt);
    assert all[last] == cur && all[|all| - 1] == nxt;
    if !Is(I, R.cmpl, cur) {
      var a :| 0 <= a < last && Is(I, R.cmpl, run[a]);
      assert all[a] == run[a];
    }
    assert CompletesBefore(I, R, all, |all| - 1);
  }

  lemma CompletedAreDone(I: Interp, R: Ref, env: Env)
    requires NeverTwice(I, R) && Completed(I, R, env)
    ensures !Is(I, R.cmpl, env)
  {
    var run :| StartedRun(I, R, run) && run[|run| - 1] == env && CompletesBefore(I, R, run, |run| - 1);
    assert !Twice(I, R, run);
  }

  /** If no run completes twice, the states reached and those reached after a completion are a latch. */
  lemma NeverTwiceLatches(I: Interp, R: Ref)
    requires NeverTwice(I, R)
    ensures Latches(I, R, ReachedStates(I, R), CompletedStates(I, R))
  {
    forall cur, nxt | FlushStep(I, R, cur, nxt) && Reached(I, R, cur)
      ensures Reached(I, R, nxt) && (Is(I, R.cmpl, cur) || Completed(I, R, cur) ==> Completed(I, R, nxt))
    {
      ReachedStays(I, R, cur, nxt);
      if Is(I, R.cmpl, cur) || Completed(I, R, cur) { CompletedStays(I, R, cur, nxt); }
    }
    forall env | Completed(I, R, env) ensures !Is(I, R.cmpl, env) {
      CompletedAreDone(I, R, env);
    }
  }

  /** A latch on a region in which flushing starts exists exactly when no run completes twice. */
  lemma LatchIsExact(I: Interp, R: Ref)
    ensures NeverTwice(I, R) <==> exists region, after :: Latches(I, R, region, after) && StartsIn(I, R, region)
  {
    if NeverTwice(I, R) {
      NeverTwiceLatches(I, R);
      StartsAreReached(I, R);
    }
    if region, after :| Latches(I, R, region, after) && StartsIn(I, R, region) {
      LatchedNeverTwice(I, R, region, after);
    }
  }

  /** No region is needed if every flushing state is reached. */
  lemma LatchIsExactWhenReached(I: Interp, R: Ref)
    requires forall env | Flushes(I, R, env) :: Reached(I, R, env)
    ensures NeverTwice(I, R) <==> exists after :: Latches(I, R, AnyState, after)
  {
    if NeverTwice(I, R) {
      NeverTwiceLatches(I, R);
      assert Latches(I, R, AnyState, CompletedStates(I, R));
    }
    if after :| Latches(I, R, AnyState, after) {
      LatchedNeverTwice(I, R, AnyState, after);
    }
  }

  // ---------- what the checks unroll ----------

  lemma NotTwiceIsTwice(I: Interp, R: Ref, A: Assignment, tag: string, start: nat, len: nat)
    requires start <= len
    ensures NotTwice(I, R, A, tag, start, len) <==> !Twice(I, R, RunOf(A, tag, len)[start..])
  {
    var run := RunOf(A, tag, len)[start..];
    if !Twice(I, R, run) {
      forall a: nat, b: nat {:trigger Curr(a, tag), Curr(b, tag)} | start <= a < b <= len
        ensures !(Is(I, R.cmpl, Frame(A, Curr(a, tag))) && Is(I, R.cmpl, Frame(A, Curr(b, tag))))
      {
        assert run[a - start] == Frame(A, Curr(a, tag)) && run[b - start] == Frame(A, Curr(b, tag));
      }
    }
    if NotTwice(I, R, A, tag, start, len) {
      forall a: nat, b: nat | a < b < |run| ensures !(Is(I, R.cmpl, run[a]) && Is(I, R.cmpl, run[b])) {
        var i: nat, j: nat := start + a, start + b;
        assert run[a] == Frame(A, Curr(i, tag)) && run[b] == Frame(A, Curr(j, tag));
      }
    }
  }

  /** Dropping the first step of a run that flushes from position 1 on. */
  lemma FlushTail(I: Interp, R: Ref, run: seq<Env>)
    requires FlushRun(I, R, run, 1) && |run| > 1
    ensures FlushRun(I, R, run[1..], 0)
  {
    var tail := run[1..];
    forall i: nat | i < |tail| - 1 ensures Steps(I, R, tail, i) {
      var j: nat := i + 1;
      assert Steps(I, R, run, j);
    }
  }

  lemma OrigPathIsStarted(I: Interp, R: Ref, A: Assignment, k: nat, S: set<string>)
    requires Scoped(R, S) && OrigPath(I, R, A, k)
    ensures StartedRun(I, R, RunOf(A, ORIG, k))
  {
    ModelIsFlushRun(I, R, A, ORIG, k, 0, S);
    assert TwinStates(I, R, RunOf(A, ORIG, k)[0], Frame(A, Curr(0, APPL)));
  }

  lemma ApplPathIsStarted(I: Interp, R: Ref, A: Assignment, k: nat, S: set<string>)
    requires Scoped(R, S) && ApplPath(I, R, A, k)
    ensures StartedRun(I, R, RunOf(A, APPL, k + 1)[1..])
  {
    var run, zero: nat := RunOf(A, APPL, k + 1), 0;
    ModelIsFlushRun(I, R, A, APPL, k + 1, 1, S);
    FlushTail(I, R, run);
    assert TwinStates(I, R, Frame(A, Curr(0, ORIG)), run[0]);
    assert Steps(I, R, run, zero);
  }

  /** No path that a check unrolls, for any number of steps, completes twice. */
  ghost predicate PathsNeverTwice(I: Interp, R: Ref) {
    && (forall k: nat, A | OrigPath(I, R, A, k) :: NotTwice(I, R, A, ORIG, 0, k))
    && (forall k: nat, A | ApplPath(I, R, A, k) :: NotTwice(I, R, A, APPL, 1, k + 1))
  }

  lemma NeverTwicePaths(I: Interp, R: Ref, S: set<string>)
    requires Scoped(R, S) && NeverTwice(I, R)
    ensures PathsNeverTwice(I, R)
  {
    forall k: nat, A | OrigPath(I, R, A, k) ensures NotTwice(I, R, A, ORIG, 0, k) {
      OrigPathIsStarted(I, R, A, k, S);
      NotTwiceIsTwice(I, R, A, ORIG, 0, k);
      assert RunOf(A, ORIG, k)[0..] == RunOf(A, ORIG, k);
    }
    forall k: nat, A | ApplPath(I, R, A, k) ensures NotTwice(I, R, A, APPL, 1, k + 1) {
      ApplPathIsStarted(I, R, A, k, S);
      NotTwiceIsTwice(I, R, A, APPL, 1, k + 1);
    }
  }

  /** The frames complete where the run does. */
  lemma FrameCompletes(I: Interp, R: Ref, S: set<string>, A: Assignment, tag: string, run: seq<Env>, start: nat, i: nat)
    requires Scoped(R, S) && i < |run| && Encodes(I, R, S, A, tag, run, start)
    ensures Is(I, R.cmpl, Frame(A, Curr(i, tag))) <==> Is(I, R.cmpl, run[i])
  {
    EncodedValue(I, R, S, A, tag, run, start, i, R.cmpl);
  }

  lemma FramesNotBoth(I: Interp, R: Ref, S: set<string>, A: Assignment, tag: string, run: seq<Env>, start: nat,
                      i: nat, j: nat)
    requires Scoped(R, S) && start <= i < j < |run| && Encodes(I, R, S, A, tag, run, start)
    requires NotTwice(I, R, A, tag, start, |run| - 1)
    ensures !(Is(I, R.cmpl, run[i]) && Is(I, R.cmpl, run[j]))
  {
    FrameCompletes(I, R, S, A, tag, run, start, i);
    FrameCompletes(I, R, S, A, tag, run, start, j);
  }

  lemma FramesNotTwice(I: Interp, R: Ref, S: set<string>, A: Assignment, tag: string, run: seq<Env>, start: nat)
    requires Scoped(R, S) && start < |run| && Encodes(I, R, S, A, tag, run, start)
    requires NotTwice(I, R, A, tag, start, |run| - 1)
    ensures !Twice(I, R, run[start..])
  {
    forall i: nat, j: nat | start <= i < j < |run| ensures !(Is(I, R.cmpl, run[i]) && Is(I, R.cmpl, run[j])) {
      FramesNotBoth(I, R, S, A, tag, run, start, i, j);
    }
  }

  lemma OrigRunNotTwice(I: Interp, R: Ref, S: set<string>, run: seq<Env>)
    requires Scoped(R, S) && PathsNeverTwice(I, R) && FlushRun(I, R, run, 0) && OrigStart(I, R, run[0])
    ensures !Twice(I, R, run)
  {
    var appl :| TwinStates(I, R, run[0], appl);
    var k: nat := |run| - 1;
    var A := TwinsHaveModel(I, R, S, run, [appl]);
    EncodedModel(I, R, S, A, ORIG, run, 0, k);
    assert OrigPath(I, R, A, k);
    FramesNotTwice(I, R, S, A, ORIG, run, 0);
    assert run[0..] == run;
  }

  lemma ApplRunNotTwice(I: Interp, R: Ref, S: set<string>, run: seq<Env>)
    requires Scoped(R, S) && PathsNeverTwice(I, R) && FlushRun(I, R, run, 0) && ApplStart(I, R, run[0])
    ensures !Twice(I, R, run)
  {
    var orig: Env, appl: Env :| TwinStates(I, R, orig, appl) && AllTrue(I, R.inv, appl) &&
      MonoStep(I, R.insts, R.states, appl, run[0]);
    var all, k: nat := [appl] + run, |run| - 1;
    ApplFirst(I, R, appl, run);
    var A := TwinsHaveModel(I, R, S, [orig], all);
    EncodedModel(I, R, S, A, APPL, all, 1, k + 1);
    assert ApplPath(I, R, A, k);
    FramesNotTwice(I, R, S, A, APPL, all, 1);
    assert all[1..] == run;
  }

  lemma ApplFirst(I: Interp, R: Ref, appl: Env, run: seq<Env>)
    requires FlushRun(I, R, run, 0) && AllTrue(I, R.inv, appl) && MonoStep(I, R.insts, R.states, appl, run[0])
    ensures FlushRun(I, R, [appl] + run, 1)
  {
    var all := [appl] + run;
    forall i: nat | i < |all| - 1 ensures Steps(I, R, all, i) {
      if i > 0 {
        var h: nat := i - 1;
        assert Steps(I, R, run, h) && all[i] == run[h] && all[i + 1] == run[h + 1];
      }
    }
    forall i {:trigger all[i]} | 0 <= i < |all| ensures AllTrue(I, R.inv, all[i]) && (1 <= i ==> Is(I, R.flush, all[i])) {
      if i > 0 { assert all[i] == run[i - 1]; }
    }
  }

  /** The checks find no path that completes twice, whatever the number of steps, exactly when a latch
      exists: a condition on single states and steps that is neither too strong nor too weak. */
  lemma PathsLatch(I: Interp, R: Ref, S: set<string>)
    requires Scoped(R, S)
    ensures PathsNeverTwice(I, R) <==> exists region, after :: Latches(I, R, region, after) && StartsIn(I, R, region)
  {
    LatchIsExact(I, R);
    if NeverTwice(I, R) { NeverTwicePaths(I, R, S); }
    if PathsNeverTwice(I, R) {
      forall run | StartedRun(I, R, run) ensures !Twice(I, R, run) {
        if OrigStart(I, R, run[0]) { OrigRunNotTwice(I, R, S, run); } else { ApplRunNotTwice(I, R, S, run); }
      }
    }
  }

  /** Passed checks of an ILA whose completion latches give what the query relies on: every pair of
      runs completes exactly once. */
  lemma PassedAndLatched(I: Interp, R: Ref, kOrig: nat, kAppl: nat, S: set<string>, region: States, after: States)
    requires Scoped(R, S) && Latches(I, R, region, after) && StartsIn(I, R, region)
    requires OrigCompletes(I, R, kOrig) && ApplCompletes(I, R, kAppl)
    ensures CompletesOnce(I, R, kOrig, kAppl)
  {
    PathsLatch(I, R, S);
    PassedOrigIsOnce(I, R, kOrig);
    PassedApplIsOnce(I, R, kAppl);
    PathsOnceGiveRunsOnce(I, R, kOrig, kAppl, S);
  }
}
