/** The three encodings of a run from frame 0 agree: substituted states extend in exactly one way
    to asserted ones, and unconnected steps become a run once their frames are linked. */
module Encodings {
  import opened Ast
  import opened Ila
  import opened Frames
  import opened Unrolling

  ghost predicate SameEnv(a: Env, b: Env) {
    forall x :: a(x) == b(x)
  }

  lemma StepPredsSame(I: Interp, P: Problem, a: Env, b: Env, i: nat)
    requires Long(P, i + 1) && SameEnv(a, b)
    ensures StepPreds(I, P, a, i) <==> StepPreds(I, P, b, i)
  {
    AllTrueSame(I, P.init, a, b);
    AllTrueSame(I, P.glob, a, b);
    AllTrueSame(I, PredOf(P.target, P.vars, i), a, b);
    AllTrueSame(I, StepExprs(P.step, i), a, b);
  }

  lemma AllTrueSame(I: Interp, es: seq<Expr>, a: Env, b: Env)
    requires SameEnv(a, b)
    ensures AllTrue(I, es, a) <==> AllTrue(I, es, b)
  {
    forall i | 0 <= i < |es| ensures Eval(I, es[i], a) == Eval(I, es[i], b) {
      EvalSame(I, es[i], a, b);
    }
  }

  // ---------- substituted and asserted ----------

  /** One variable: a state has the value the transition gives it, anything else is as in the frame. */
  lemma AdvanceFollows(I: Interp, P: Problem, prev: Env, cur: Env, nxt: Env, j: nat, x: string)
    requires Long(P, j + 1) && Moves(I, P, cur, nxt, j) && SameEnv(prev, cur)
    ensures Advance(I, P, prev, nxt, j)(x) == nxt(x)
  {
    var v := Position(P.vars, x);
    if v < |P.vars| {
      EvalSame(I, NextOf(P.target, P.vars, j)[v], prev, cur);
      assert nxt(P.vars[v]) == nxt(x);
    }
  }

  /** If the frames of step j agree, so do those of step i, the next one. */
  lemma NextFrameFollows(I: Interp, P: Problem, A: Assignment, tag: string, j: nat, i: nat)
    requires i == j + 1 && Long(P, i)
    requires Moves(I, P, Frame(A, Curr(j, tag)), Frame(A, Curr(i, tag)), j)
    requires SameEnv(SubsFrame(I, P, A, tag, 0, j), Frame(A, Curr(j, tag)))
    ensures SameEnv(SubsFrame(I, P, A, tag, 0, i), Frame(A, Curr(i, tag)))
  {
    var prev, cur, nxt := SubsFrame(I, P, A, tag, 0, j), Frame(A, Curr(j, tag)), Frame(A, Curr(i, tag));
    assert SubsFrame(I, P, A, tag, 0, i) == Advance(I, P, prev, nxt, j);
    forall x ensures Advance(I, P, prev, nxt, j)(x) == nxt(x) {
      AdvanceFollows(I, P, prev, cur, nxt, j, x);
    }
  }

  /** In a model of the asserted encoding the substituted frames are the frames. */
  lemma {:induction false} FramesFollow(I: Interp, P: Problem, A: Assignment, tag: string, n: nat, i: nat)
    requires Long(P, n) && i <= n && AssnSteps(I, P, A, tag, 0, n)
    ensures SameEnv(SubsFrame(I, P, A, tag, 0, i), Frame(A, Curr(i, tag)))
  {
    if i > 0 {
      var j: nat := i - 1;
      FramesFollow(I, P, A, tag, n, j);
      AssnMoves(I, P, A, tag, n, j, i);
      NextFrameFollows(I, P, A, tag, j, i);
    }
  }

  lemma AssnMoves(I: Interp, P: Problem, A: Assignment, tag: string, n: nat, j: nat, i: nat)
    requires Long(P, n) && AssnSteps(I, P, A, tag, 0, n) && j < n && i == j + 1
    ensures Moves(I, P, Frame(A, Curr(j, tag)), Frame(A, Curr(i, tag)), j)
  {
    assert AssnStep(I, P, A, tag, 0, j);
  }

  /** Every model of the asserted encoding is a model of the substituted one. */
  lemma AssnGivesSubs(I: Interp, P: Problem, A: Assignment, tag: string, len: nat)
    requires Long(P, len) && AssnModel(I, P, A, tag, len, 0)
    ensures SubsModel(I, P, A, tag, len, 0)
  {
    forall i: nat | i < len ensures StepPreds(I, P, SubsFrame(I, P, A, tag, 0, i), i) {
      FramesFollow(I, P, A, tag, len, i);
      assert AssnStep(I, P, A, tag, 0, i);
      StepPredsSame(I, P, SubsFrame(I, P, A, tag, 0, i), Frame(A, Curr(i, tag)), i);
    }
    FramesFollow(I, P, A, tag, len, len);
  }

  /** The states of the frames strictly between the first and the last. */
  ghost predicate Intermediate(P: Problem, tag: string, len: nat, x: string, f: Suffix) {
    f.Curr? && f.tag == tag && 0 < f.t < len && x in P.vars
  }

  ghost function Extended(I: Interp, P: Problem, A: Assignment, tag: string, len: nat): Assignment
    requires Long(P, len)
  {
    (x, f) => if Intermediate(P, tag, len, x, f) then SubsFrame(I, P, A, tag, 0, f.t)(x) else A(x, f)
  }

  /** The extension of A has the substituted frames as its frames. */
  lemma ExtendedFrame(I: Interp, P: Problem, A: Assignment, tag: string, len: nat, i: nat)
    requires Long(P, len) && i <= len
    requires SameStates(P.vars, SubsFrame(I, P, A, tag, 0, len), Frame(A, Curr(len, tag)))
    ensures SameEnv(Frame(Extended(I, P, A, tag, len), Curr(i, tag)), SubsFrame(I, P, A, tag, 0, i))
  {
    var B := Extended(I, P, A, tag, len);
    forall x ensures B(x, Curr(i, tag)) == SubsFrame(I, P, A, tag, 0, i)(x) {
      var v := Position(P.vars, x);
      if v < |P.vars| && i == len {
        assert SubsFrame(I, P, A, tag, 0, len)(P.vars[v]) == Frame(A, Curr(len, tag))(P.vars[v]);
      }
    }
  }

  lemma SubsMoves(I: Interp, P: Problem, A: Assignment, tag: string, i: nat)
    requires Long(P, i + 1) && Distinct(P.vars)
    ensures Moves(I, P, SubsFrame(I, P, A, tag, 0, i), SubsFrame(I, P, A, tag, 0, i + 1), i)
  {
    var j: nat := i + 1;
    forall v {:trigger P.vars[v]} | 0 <= v < |P.vars|
      ensures SubsFrame(I, P, A, tag, 0, j)(P.vars[v]) ==
              Eval(I, NextOf(P.target, P.vars, i)[v], SubsFrame(I, P, A, tag, 0, i))
    {
      assert Position(P.vars, P.vars[v]) == v;
    }
  }

  lemma MovesSame(I: Interp, P: Problem, cur: Env, nxt: Env, cur': Env, nxt': Env, i: nat)
    requires Long(P, i + 1) && SameEnv(cur, cur') && SameEnv(nxt, nxt') && Moves(I, P, cur, nxt, i)
    ensures Moves(I, P, cur', nxt', i)
  {
    forall v {:trigger P.vars[v]} | 0 <= v < |P.vars|
      ensures nxt'(P.vars[v]) == Eval(I, NextOf(P.target, P.vars, i)[v], cur')
    {
      EvalSame(I, NextOf(P.target, P.vars, i)[v], cur, cur');
    }
  }

  lemma AssnStepAt(I: Interp, P: Problem, A: Assignment, tag: string, i: nat, cur: Env, nxt: Env)
    requires Long(P, i + 1) && cur == Frame(A, Curr(i, tag)) && nxt == Frame(A, Curr(i + 1, tag))
    requires StepPreds(I, P, cur, i) && Moves(I, P, cur, nxt, i)
    ensures AssnStep(I, P, A, tag, 0, i)
  {
  }

  lemma ExtendedStep(I: Interp, P: Problem, A: Assignment, tag: string, len: nat, i: nat)
    requires Long(P, len) && Distinct(P.vars) && SubsModel(I, P, A, tag, len, 0) && i < len
    ensures AssnStep(I, P, Extended(I, P, A, tag, len), tag, 0, i)
  {
    var B := Extended(I, P, A, tag, len);
    var j: nat := i + 1;
    ExtendedFrame(I, P, A, tag, len, i);
    ExtendedFrame(I, P, A, tag, len, j);
    SubsMoves(I, P, A, tag, i);
    var sub, next := SubsFrame(I, P, A, tag, 0, i), SubsFrame(I, P, A, tag, 0, j);
    var cur, nxt := Frame(B, Curr(i, tag)), Frame(B, Curr(j, tag));
    assert StepPreds(I, P, sub, i);
    StepPredsSame(I, P, cur, sub, i);
    MovesSame(I, P, sub, next, cur, nxt, i);
    AssnStepAt(I, P, B, tag, i, cur, nxt);
  }

  /** A model of the substituted encoding, extended, is a model of the asserted one. */
  lemma SubsGivesAssn(I: Interp, P: Problem, A: Assignment, tag: string, len: nat)
    requires Long(P, len) && Distinct(P.vars) && SubsModel(I, P, A, tag, len, 0)
    ensures AssnModel(I, P, Extended(I, P, A, tag, len), tag, len, 0)
  {
    forall i: nat | i < len ensures AssnStep(I, P, Extended(I, P, A, tag, len), tag, 0, i) {
      ExtendedStep(I, P, A, tag, len, i);
    }
    EndSame(I, P, A, Extended(I, P, A, tag, len), tag, len);
  }

  lemma EndSame(I: Interp, P: Problem, A: Assignment, B: Assignment, tag: string, len: nat)
    requires forall x :: A(x, Curr(len, tag)) == B(x, Curr(len, tag))
    ensures EndPreds(I, P, Frame(A, Curr(len, tag)), len) <==> EndPreds(I, P, Frame(B, Curr(len, tag)), len)
  {
    AllTrueSame(I, P.glob, Frame(A, Curr(len, tag)), Frame(B, Curr(len, tag)));
    AllTrueSame(I, StepExprs(P.step, len), Frame(A, Curr(len, tag)), Frame(B, Curr(len, tag)));
  }

  /** B may differ from A on the intermediate states only. */
  ghost predicate Extends(P: Problem, A: Assignment, B: Assignment, tag: string, len: nat) {
    forall x, f :: B(x, f) == A(x, f) || Intermediate(P, tag, len, x, f)
  }

  /** The substituted frames depend on the first frame and on what is no state. */
  lemma {:induction false} SubsFrameKept(I: Interp, P: Problem, A: Assignment, B: Assignment, tag: string, len: nat,
                                         i: nat)
    requires Long(P, len) && i <= len && Extends(P, A, B, tag, len)
    ensures SameEnv(SubsFrame(I, P, A, tag, 0, i), SubsFrame(I, P, B, tag, 0, i))
  {
    if i > 0 {
      SubsFrameKept(I, P, A, B, tag, len, i - 1);
      var a, b := SubsFrame(I, P, A, tag, 0, i - 1), SubsFrame(I, P, B, tag, 0, i - 1);
      forall x ensures SubsFrame(I, P, A, tag, 0, i)(x) == SubsFrame(I, P, B, tag, 0, i)(x) {
        var v := Position(P.vars, x);
        if v < |P.vars| {
          EvalSame(I, NextOf(P.target, P.vars, i - 1)[v], a, b);
        }
      }
    }
  }

  /** The only extension of A over the intermediate states that can satisfy the asserted encoding. */
  lemma ExtensionIsUnique(I: Interp, P: Problem, A: Assignment, B: Assignment, tag: string, len: nat)
    requires Long(P, len) && Extends(P, A, B, tag, len) && AssnModel(I, P, B, tag, len, 0)
    ensures forall x, f :: B(x, f) == Extended(I, P, A, tag, len)(x, f)
  {
    forall x, f ensures B(x, f) == Extended(I, P, A, tag, len)(x, f) {
      if Intermediate(P, tag, len, x, f) {
        FramesFollow(I, P, B, tag, len, f.t);
        SubsFrameKept(I, P, A, B, tag, len, f.t);
        assert SubsFrame(I, P, B, tag, 0, f.t)(x) == Frame(B, Curr(f.t, tag))(x);
      }
    }
  }

  /** At base position 0 an assignment satisfies the substituted encoding exactly when it extends over
      the intermediate states to one that satisfies the asserted encoding. */
  lemma SubsIsAssnProjected(I: Interp, P: Problem, A: Assignment, tag: string, len: nat)
    requires Long(P, len) && Distinct(P.vars)
    ensures SubsModel(I, P, A, tag, len, 0) <==>
            exists B :: Extends(P, A, B, tag, len) && AssnModel(I, P, B, tag, len, 0)
  {
    if SubsModel(I, P, A, tag, len, 0) {
      SubsGivesAssn(I, P, A, tag, len);
      assert Extends(P, A, Extended(I, P, A, tag, len), tag, len);
    }
    if B :| Extends(P, A, B, tag, len) && AssnModel(I, P, B, tag, len, 0) {
      AssnGivesSubs(I, P, B, tag, len);
      forall i: nat | i < len ensures StepPreds(I, P, SubsFrame(I, P, A, tag, 0, i), i) {
        SubsFrameKept(I, P, A, B, tag, len, i);
        StepPredsSame(I, P, SubsFrame(I, P, A, tag, 0, i), SubsFrame(I, P, B, tag, 0, i), i);
      }
      SubsFrameKept(I, P, A, B, tag, len, len);
      EndSame(I, P, A, B, tag, len);
      var last := SubsFrame(I, P, B, tag, 0, len);
      forall v {:trigger P.vars[v]} | 0 <= v < |P.vars|
        ensures SubsFrame(I, P, A, tag, 0, len)(P.vars[v]) == A(P.vars[v], Curr(len, tag))
      {
        assert last(P.vars[v]) == Frame(B, Curr(len, tag))(P.vars[v]);
      }
    }
  }

  // ---------- unconnected and asserted ----------

  /** Every step's next-state frame is the current frame of the following step. */
  ghost predicate Linked(P: Problem, A: Assignment, tag: string, len: nat) {
    forall i: nat {:trigger Curr(i, tag)} :: i < len ==>
      SameStates(P.vars, Frame(A, Next(i, tag)), Frame(A, Curr(i + 1, tag)))
  }

  lemma NoneLinkedIsAssn(I: Interp, P: Problem, A: Assignment, tag: string, len: nat)
    requires Long(P, len) && Linked(P, A, tag, len)
    ensures AssnModel(I, P, A, tag, len, 0) <==>
            NoneModel(I, P, A, tag, len, 0) && EndPreds(I, P, Frame(A, Curr(len, tag)), len)
  {
    forall i: nat | i < len ensures AssnStep(I, P, A, tag, 0, i) <==> NoneStep(I, P, A, tag, 0, i) {
      assert SameStates(P.vars, Frame(A, Next(i, tag)), Frame(A, Curr(i + 1, tag))) by {
        var f := Curr(i, tag);
      }
    }
  }
}
