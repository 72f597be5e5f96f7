/** The encoding of a path of instructions describes exactly the runs that execute them one after the other. */
module PathRuns {
  import opened Ast
  import opened Ila
  import opened Frames
  import opened Unrolling
  import opened Unrollers
  import opened Encodings
  import opened MonoRuns

  // ---------- runs ----------

  /** The instruction decodes, and every state becomes what the instruction makes of it. */
  ghost predicate Does(I: Interp, i: Instr, vars: seq<string>, cur: Env, nxt: Env) {
    && Truth(Eval(I, i.decode, cur))
    && forall v {:trigger vars[v]} :: 0 <= v < |vars| ==> Becomes(I, i, vars[v], cur, nxt(vars[v]))
  }

  ghost predicate PathStep(I: Interp, insts: seq<Instr>, P: Problem, run: seq<Env>, i: nat)
    requires i < |insts| && i + 1 < |run|
  {
    UserPreds(I, P, run[i], i) && Does(I, insts[i], P.vars, run[i], run[i + 1])
  }

  /** Step i of the run executes instruction i. */
  ghost predicate PathRun(I: Interp, insts: seq<Instr>, P: Problem, run: seq<Env>)
    requires |run| == |insts| + 1
  {
    && (forall i: nat :: i < |insts| ==> PathStep(I, insts, P, run, i))
    && EndPreds(I, P, run[|insts|], |insts|)
  }

  // ---------- models ----------

  /** The frames of the tag are the states of the run. */
  ghost predicate ShowsAll(A: Assignment, tag: string, run: seq<Env>) {
    forall i: nat {:trigger run[i]} :: i < |run| ==> SameEnv(Frame(A, Curr(i, tag)), run[i])
  }

  lemma DoesIsMoves(I: Interp, P: Problem, cur: Env, nxt: Env, i: nat)
    requires P.target.Path? && i < |P.target.insts|
    ensures Does(I, P.target.insts[i], P.vars, cur, nxt) <==>
            AllTrue(I, PredOf(P.target, P.vars, i), cur) && Moves(I, P, cur, nxt, i)
  {
    var instr := P.target.insts[i];
    assert PredOf(P.target, P.vars, i)[0] == instr.decode;
    forall v {:trigger P.vars[v]} | 0 <= v < |P.vars|
      ensures Becomes(I, instr, P.vars[v], cur, nxt(P.vars[v])) <==>
              nxt(P.vars[v]) == Eval(I, NextOf(P.target, P.vars, i)[v], cur)
    {
      CompletedMeaning(I, instr, P.vars[v], cur, nxt(P.vars[v]));
    }
  }

  lemma StepIsPathStep(I: Interp, P: Problem, A: Assignment, tag: string, run: seq<Env>, i: nat)
    requires P.target.Path? && i < |P.target.insts| && i + 1 < |run| && ShowsAll(A, tag, run)
    ensures AssnStep(I, P, A, tag, 0, i) <==> PathStep(I, P.target.insts, P, run, i)
  {
    var j: nat := i + 1;
    var cur, nxt := Frame(A, Curr(i, tag)), Frame(A, Curr(j, tag));
    assert SameEnv(cur, run[i]) && SameEnv(nxt, run[j]);
    DoesIsMoves(I, P, run[i], run[j], i);
    StepPredsSame(I, P, cur, run[i], i);
    if Moves(I, P, cur, nxt, i) { MovesSame(I, P, cur, nxt, run[i], run[j], i); }
    if Moves(I, P, run[i], run[j], i) { MovesSame(I, P, run[i], run[j], cur, nxt, i); }
  }

  lemma EndsAlike(I: Interp, P: Problem, a: Env, b: Env, len: nat)
    requires SameEnv(a, b)
    ensures EndPreds(I, P, a, len) <==> EndPreds(I, P, b, len)
  {
    AllTrueSame(I, P.glob, a, b);
    AllTrueSame(I, StepExprs(P.step, len), a, b);
  }

  /** A model that shows the run is one exactly if the run executes the path. */
  lemma ModelIsPathRun(I: Interp, P: Problem, A: Assignment, tag: string, run: seq<Env>, len: nat)
    requires P.target.Path? && len == |P.target.insts| && |run| == len + 1 && ShowsAll(A, tag, run)
    ensures AssnModel(I, P, A, tag, len, 0) <==> PathRun(I, P.target.insts, P, run)
  {
    forall i: nat | i < len
      ensures AssnStep(I, P, A, tag, 0, i) <==> PathStep(I, P.target.insts, P, run, i)
    {
      StepIsPathStep(I, P, A, tag, run, i);
    }
    assert SameEnv(Frame(A, Curr(len, tag)), run[len]);
    EndsAlike(I, P, Frame(A, Curr(len, tag)), run[len], len);
  }

  /** The assignment with the states of the run for frames. */
  ghost function Overlaid(A: Assignment, tag: string, run: seq<Env>): Assignment {
    (x: string, f: Suffix) => if f.Curr? && f.tag == tag && 0 <= f.t < |run| then run[f.t](x) else A(x, f)
  }

  lemma OverlaidShows(A: Assignment, tag: string, run: seq<Env>)
    ensures ShowsAll(Overlaid(A, tag, run), tag, run)
  {
  }

  /** From frame 0 the encoding of a path can be satisfied for a sequence of states exactly when it is a
      run that executes the path. */
  lemma PathEncodingIsRuns(I: Interp, P: Problem, tag: string, run: seq<Env>, len: nat)
    requires P.target.Path? && len == |P.target.insts| && |run| == len + 1
    ensures (exists A :: ShowsAll(A, tag, run) && AssnModel(I, P, A, tag, len, 0)) <==>
            PathRun(I, P.target.insts, P, run)
  {
    if A :| ShowsAll(A, tag, run) && AssnModel(I, P, A, tag, len, 0) {
      ModelIsPathRun(I, P, A, tag, run, len);
    }
    var B := Overlaid((x, f) => BoolV(false), tag, run);
    OverlaidShows((x, f) => BoolV(false), tag, run);
    ModelIsPathRun(I, P, B, tag, run, len);
  }

  // ---------- the substituted encoding ----------

  /** The run has the states of the first and of the last frame, and everywhere what is no state. */
  ghost predicate Projects(P: Problem, A: Assignment, tag: string, run: seq<Env>) {
    forall i: nat, x {:trigger run[i](x)} :: i < |run| && (i == 0 || i == |run| - 1 || x !in P.vars) ==>
      run[i](x) == A(x, Curr(i, tag))
  }

  ghost function FrameRun(A: Assignment, tag: string, len: nat): (run: seq<Env>)
    ensures |run| == len + 1 && forall i {:trigger run[i]} :: 0 <= i <= len ==> run[i] == Frame(A, Curr(i, tag))
  {
    seq(len + 1, i requires 0 <= i <= len => Frame(A, Curr(i, tag)))
  }

  lemma ExtensionProjects(P: Problem, A: Assignment, B: Assignment, tag: string, len: nat)
    requires Extends(P, A, B, tag, len)
    ensures Projects(P, A, tag, FrameRun(B, tag, len))
  {
  }

  lemma OverlaidExtends(P: Problem, A: Assignment, tag: string, run: seq<Env>, len: nat)
    requires |run| == len + 1 && Projects(P, A, tag, run)
    ensures Extends(P, A, Overlaid(A, tag, run), tag, len)
  {
    var B := Overlaid(A, tag, run);
    forall x, f ensures B(x, f) == A(x, f) || Intermediate(P, tag, len, x, f) {
      if f.Curr? && f.tag == tag && 0 <= f.t < |run| {
        assert run[f.t](x) == run[f.t](x);
      }
    }
  }

  /** An assignment satisfies the substituted encoding of a path exactly when the path has a run with its
      first and last states and its inputs. */
  lemma SubsIsPathRun(I: Interp, P: Problem, A: Assignment, tag: string, len: nat)
    requires P.target.Path? && len == |P.target.insts| && Distinct(P.vars)
    ensures SubsModel(I, P, A, tag, len, 0) <==>
            exists run: seq<Env> :: |run| == len + 1 && Projects(P, A, tag, run) && PathRun(I, P.target.insts, P, run)
  {
    SubsIsAssnProjected(I, P, A, tag, len);
    if B :| Extends(P, A, B, tag, len) && AssnModel(I, P, B, tag, len, 0) {
      var run := FrameRun(B, tag, len);
      ExtensionProjects(P, A, B, tag, len);
      ModelIsPathRun(I, P, B, tag, run, len);
    }
    if run: seq<Env> :| |run| == len + 1 && Projects(P, A, tag, run) && PathRun(I, P.target.insts, P, run) {
      OverlaidShows(A, tag, run);
      OverlaidExtends(P, A, tag, run, len);
      ModelIsPathRun(I, P, Overlaid(A, tag, run), tag, run, len);
    }
  }

  // ---------- PathUnroll ----------

  lemma PathTermIsRuns(P: Problem, tag: string, len: nat, c: Term)
    requires P.target.Path? && len == |P.target.insts|
    requires forall I: Interp, A: Assignment :: True(I, c, A) <==> AssnModel(I, P, A, tag, len, 0)
    ensures forall I: Interp, run: seq<Env> :: |run| == len + 1 ==>
              ((exists A :: ShowsAll(A, tag, run) && True(I, c, A)) <==> PathRun(I, P.target.insts, P, run))
  {
    forall I: Interp, run: seq<Env> | |run| == len + 1
      ensures (exists A :: ShowsAll(A, tag, run) && True(I, c, A)) <==> PathRun(I, P.target.insts, P, run)
    {
      PathEncodingIsRuns(I, P, tag, run, len);
      if A :| ShowsAll(A, tag, run) && AssnModel(I, P, A, tag, len, 0) {
        assert True(I, c, A);
      }
    }
  }

  /** Unroll a path from frame 0: the term describes the runs that execute the instructions in turn. */
  method PathAssn(u: Unroller, insts: seq<Instr>, states: seq<string>) returns (c: Term)
    requires states != []
    modifies u
    ensures u.Goal() == old(u.Goal()).(target := Path(insts), vars := states)
    ensures forall I: Interp, run: seq<Env> :: |run| == |insts| + 1 ==>
              ((exists A :: ShowsAll(A, u.tag, run) && True(I, c, A)) <==> PathRun(I, insts, u.Goal(), run))
  {
    u.target, u.states := Path(insts), states;
    c := u.UnrollAssn(|insts|, 0);
    PathTermIsRuns(u.Goal(), u.tag, |insts|, c);
  }

  /** The same with substituted states. */
  method PathSubs(u: Unroller, insts: seq<Instr>, states: seq<string>) returns (c: Term)
    requires states != [] && Distinct(states)
    modifies u
    ensures u.Goal() == old(u.Goal()).(target := Path(insts), vars := states)
    ensures forall I: Interp, A: Assignment :: True(I, c, A) <==>
              exists run: seq<Env> ::
                |run| == |insts| + 1 && Projects(u.Goal(), A, u.tag, run) && PathRun(I, insts, u.Goal(), run)
  {
    u.target, u.states := Path(insts), states;
    c := u.UnrollSubs(|insts|, 0);
    forall I: Interp, A: Assignment
      ensures True(I, c, A) <==>
              exists run: seq<Env> ::
                |run| == |insts| + 1 && Projects(u.Goal(), A, u.tag, run) && PathRun(I, insts, u.Goal(), run)
    {
      SubsIsPathRun(I, u.Goal(), A, u.tag, |insts|);
    }
  }
}
