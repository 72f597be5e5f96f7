/** The selection-bit encoding of MonoUnroll describes exactly the runs in which every step is an
    instruction that decodes, or a stutter when none does. */
module MonoRuns {
  import opened Ast
  import opened Ila
  import opened Frames
  import opened Unrolling
  import opened Unrollers
  import opened Encodings

  // ---------- runs ----------

  ghost predicate Decodes(I: Interp, i: Instr, cur: Env) {
    Truth(Eval(I, i.decode, cur))
  }

  /** One instruction decodes and every state gets its completed update. */
  ghost predicate Executes(I: Interp, i: Instr, vars: seq<string>, cur: Env, nxt: Env) {
    && Decodes(I, i, cur)
    && forall v {:trigger vars[v]} :: 0 <= v < |vars| ==> nxt(vars[v]) == Eval(I, StateUpdCmpl(i, vars[v]), cur)
  }

  ghost predicate Deadlocked(I: Interp, insts: seq<Instr>, cur: Env) {
    forall k {:trigger insts[k]} :: 0 <= k < |insts| ==> !Decodes(I, insts[k], cur)
  }

  ghost predicate MonoStep(I: Interp, insts: seq<Instr>, vars: seq<string>, cur: Env, nxt: Env) {
    || (exists k {:trigger insts[k]} :: 0 <= k < |insts| && Executes(I, insts[k], vars, cur, nxt))
    || (Deadlocked(I, insts, cur) && SameStates(vars, nxt, cur))
  }

  ghost predicate UserPreds(I: Interp, P: Problem, env: Env, i: nat) {
    && (i == 0 ==> AllTrue(I, P.init, env))
    && AllTrue(I, P.glob, env)
    && AllTrue(I, StepExprs(P.step, i), env)
  }

  ghost predicate RunStep(I: Interp, P: Problem, run: seq<Env>, i: nat)
    requires i + 1 < |run|
  {
    UserPreds(I, P, run[i], i) && MonoStep(I, P.target.insts, P.vars, run[i], run[i + 1])
  }

  ghost predicate MonoRun(I: Interp, P: Problem, run: seq<Env>)
    requires |run| > 0
  {
    && (forall i: nat :: i < |run| - 1 ==> RunStep(I, P, run, i))
    && EndPreds(I, P, run[|run| - 1], |run| - 1)
  }

  // ---------- what the step predicates of MonoUnroll say ----------

  ghost predicate On(env: Env, x: string) {
    Truth(env(x))
  }

  lemma {:induction false} NotDecMeaning(I: Interp, insts: seq<Instr>, env: Env, n: nat)
    requires n <= |insts|
    ensures Truth(Eval(I, NotDec(insts, n), env)) <==>
            forall k {:trigger insts[k]} :: 0 <= k < n ==> !Decodes(I, insts[k], env)
  {
    if n > 0 {
      NotDecMeaning(I, insts, env, n - 1);
      AndMeaning(I, NotDec(insts, n - 1), Not(insts[n - 1].decode), env);
      NotMeaning(I, insts[n - 1].decode, env);
    }
  }

  lemma {:induction false} AccDecMeaning(I: Interp, insts: seq<Instr>, env: Env, n: nat)
    requires n <= |insts|
    ensures Truth(Eval(I, AccDec(insts, n), env)) <==>
            forall k {:trigger insts[k]} :: 0 <= k < n && On(env, Sel(insts[k])) ==> Decodes(I, insts[k], env)
  {
    if n > 0 {
      AccDecMeaning(I, insts, env, n - 1);
      AndMeaning(I, AccDec(insts, n - 1), Imply(Var(Sel(insts[n - 1])), insts[n - 1].decode), env);
      ImplyMeaning(I, Var(Sel(insts[n - 1])), insts[n - 1].decode, env);
    }
  }

  lemma {:induction false} AccUpdMeaning(I: Interp, insts: seq<Instr>, x: string, env: Env, n: nat)
    requires n <= |insts|
    ensures Truth(Eval(I, AccUpd(insts, x, n), env)) <==>
            forall k {:trigger insts[k]} :: 0 <= k < n && On(env, Sel(insts[k])) ==>
              env(Nxt(x)) == Eval(I, StateUpdCmpl(insts[k], x), env)
  {
    if n > 0 {
      AccUpdMeaning(I, insts, x, env, n - 1);
      var equal := Eq(Var(Nxt(x)), StateUpdCmpl(insts[n - 1], x));
      AndMeaning(I, AccUpd(insts, x, n - 1), Imply(Var(Sel(insts[n - 1])), equal), env);
      ImplyMeaning(I, Var(Sel(insts[n - 1])), equal, env);
      EqMeaning(I, Var(Nxt(x)), StateUpdCmpl(insts[n - 1], x), env);
    }
  }

  lemma {:induction false} AtLeastOneMeaning(I: Interp, insts: seq<Instr>, top: string, env: Env, n: nat)
    requires n <= |insts|
    ensures Truth(Eval(I, AtLeastOne(insts, top, n), env)) <==>
            On(env, DeadSel(top)) || exists k {:trigger insts[k]} :: 0 <= k < n && On(env, Sel(insts[k]))
  {
    if n > 0 {
      AtLeastOneMeaning(I, insts, top, env, n - 1);
      OrMeaning(I, AtLeastOne(insts, top, n - 1), Var(Sel(insts[n - 1])), env);
      if On(env, Sel(insts[n - 1])) { assert 0 <= n - 1 < n && On(env, Sel(insts[n - 1])); }
    }
  }

  lemma {:induction false} NotBothMeaning(I: Interp, insts: seq<Instr>, acc: Expr, env: Env, i: nat, n: nat)
    requires i < n <= |insts|
    ensures Truth(Eval(I, NotBoth(insts, acc, i, n), env)) <==>
            && Truth(Eval(I, acc, env))
            && forall j {:trigger insts[j]} :: i < j < n ==> !(On(env, Sel(insts[i])) && On(env, Sel(insts[j])))
  {
    if n > i + 1 {
      NotBothMeaning(I, insts, acc, env, i, n - 1);
      var a, b := Var(Sel(insts[i])), Var(Sel(insts[n - 1]));
      AndMeaning(I, NotBoth(insts, acc, i, n - 1), Or(Not(a), Not(b)), env);
      OrMeaning(I, Not(a), Not(b), env);
      NotMeaning(I, a, env);
      NotMeaning(I, b, env);
    }
  }

  lemma {:induction false} AtMostOneMeaning(I: Interp, insts: seq<Instr>, env: Env, n: nat)
    requires n <= |insts|
    ensures Truth(Eval(I, AtMostOne(insts, n), env)) <==>
            forall i, j {:trigger insts[i], insts[j]} :: 0 <= i < n && i < j < |insts| ==>
              !(On(env, Sel(insts[i])) && On(env, Sel(insts[j])))
  {
    if n > 0 {
      AtMostOneMeaning(I, insts, env, n - 1);
      NotBothMeaning(I, insts, AtMostOne(insts, n - 1), env, n - 1, |insts|);
    }
  }

  lemma AndMeaning(I: Interp, a: Expr, b: Expr, env: Env)
    ensures Truth(Eval(I, And(a, b), env)) <==> Truth(Eval(I, a, env)) && Truth(Eval(I, b, env))
  {
    var vs := EvalAll(I, [a, b], env);
    assert vs[0] == Eval(I, a, env) && vs[1] == Eval(I, b, env);
  }

  lemma OrMeaning(I: Interp, a: Expr, b: Expr, env: Env)
    ensures Truth(Eval(I, Or(a, b), env)) <==> Truth(Eval(I, a, env)) || Truth(Eval(I, b, env))
  {
    var vs := EvalAll(I, [a, b], env);
    assert vs[0] == Eval(I, a, env) && vs[1] == Eval(I, b, env);
  }

  lemma ImplyMeaning(I: Interp, a: Expr, b: Expr, env: Env)
    ensures Truth(Eval(I, Imply(a, b), env)) <==> (Truth(Eval(I, a, env)) ==> Truth(Eval(I, b, env)))
  {
    var vs := EvalAll(I, [a, b], env);
    assert vs[0] == Eval(I, a, env) && vs[1] == Eval(I, b, env);
  }

  lemma NotMeaning(I: Interp, a: Expr, env: Env)
    ensures Truth(Eval(I, Not(a), env)) <==> !Truth(Eval(I, a, env))
  {
    assert EvalAll(I, [a], env)[0] == Eval(I, a, env);
  }

  lemma EqMeaning(I: Interp, a: Expr, b: Expr, env: Env)
    ensures Truth(Eval(I, Eq(a, b), env)) <==> Eval(I, a, env) == Eval(I, b, env)
  {
    var vs := EvalAll(I, [a, b], env);
    assert vs[0] == Eval(I, a, env) && vs[1] == Eval(I, b, env);
  }

  /** The clauses pushed for one state variable. */
  ghost predicate VarClauses(I: Interp, insts: seq<Instr>, top: string, x: string, env: Env) {
    && (forall k {:trigger insts[k]} :: 0 <= k < |insts| && On(env, Sel(insts[k])) ==>
          Decodes(I, insts[k], env) && env(Nxt(x)) == Eval(I, StateUpdCmpl(insts[k], x), env))
    && (On(env, DeadSel(top)) ==> Deadlocked(I, insts, env) && env(Nxt(x)) == env(x))
  }

  lemma DecodeClause(I: Interp, insts: seq<Instr>, top: string, env: Env)
    ensures Truth(Eval(I, DecodePred(insts, top), env)) <==>
            && (forall k {:trigger insts[k]} :: 0 <= k < |insts| && On(env, Sel(insts[k])) ==>
                  Decodes(I, insts[k], env))
            && (On(env, DeadSel(top)) ==> Deadlocked(I, insts, env))
  {
    var full := |insts|;
    AndMeaning(I, AccDec(insts, full), Imply(Var(DeadSel(top)), NotDec(insts, full)), env);
    ImplyMeaning(I, Var(DeadSel(top)), NotDec(insts, full), env);
    AccDecMeaning(I, insts, env, full);
    NotDecMeaning(I, insts, env, full);
  }

  lemma UpdateClause(I: Interp, insts: seq<Instr>, top: string, x: string, env: Env)
    ensures Truth(Eval(I, UpdatePred(insts, top, x), env)) <==>
            && (forall k {:trigger insts[k]} :: 0 <= k < |insts| && On(env, Sel(insts[k])) ==>
                  env(Nxt(x)) == Eval(I, StateUpdCmpl(insts[k], x), env))
            && (On(env, DeadSel(top)) ==> env(Nxt(x)) == env(x))
  {
    var full := |insts|;
    AndMeaning(I, AccUpd(insts, x, full), Imply(Var(DeadSel(top)), Eq(Var(Nxt(x)), Var(x))), env);
    ImplyMeaning(I, Var(DeadSel(top)), Eq(Var(Nxt(x)), Var(x)), env);
    EqMeaning(I, Var(Nxt(x)), Var(x), env);
    AccUpdMeaning(I, insts, x, env, full);
  }

  lemma VarClausesMeaning(I: Interp, insts: seq<Instr>, top: string, x: string, env: Env)
    ensures Truth(Eval(I, DecodePred(insts, top), env)) && Truth(Eval(I, UpdatePred(insts, top, x), env)) <==>
            VarClauses(I, insts, top, x, env)
  {
    DecodeClause(I, insts, top, env);
    UpdateClause(I, insts, top, x, env);
  }

  /** The clauses of the first n state variables. */
  ghost predicate AllClauses(I: Interp, insts: seq<Instr>, top: string, vars: seq<string>, env: Env, n: nat)
    requires n <= |vars|
  {
    forall v {:trigger vars[v]} :: 0 <= v < n ==> VarClauses(I, insts, top, vars[v], env)
  }

  lemma ClausesUpTo(I: Interp, insts: seq<Instr>, top: string, vars: seq<string>, env: Env, n: nat)
    requires 0 < n <= |vars|
    ensures AllClauses(I, insts, top, vars, env, n) <==>
            AllClauses(I, insts, top, vars, env, n - 1) && VarClauses(I, insts, top, vars[n - 1], env)
  {
    if AllClauses(I, insts, top, vars, env, n) {
      assert VarClauses(I, insts, top, vars[n - 1], env);
    }
  }

  lemma {:induction false} VarPredsMeaning(I: Interp, insts: seq<Instr>, top: string, vars: seq<string>, env: Env, n: nat)
    requires n <= |vars|
    ensures AllTrue(I, VarPreds(insts, top, vars, n), env) <==> AllClauses(I, insts, top, vars, env, n)
  {
    if n > 0 {
      var m: nat := n - 1;
      VarPredsMeaning(I, insts, top, vars, env, m);
      PushedClauses(I, insts, top, vars, env, n);
      ClausesUpTo(I, insts, top, vars, env, n);
    }
  }

  lemma PushedClauses(I: Interp, insts: seq<Instr>, top: string, vars: seq<string>, env: Env, n: nat)
    requires 0 < n <= |vars|
    ensures AllTrue(I, VarPreds(insts, top, vars, n), env) <==>
            AllTrue(I, VarPreds(insts, top, vars, n - 1), env) && VarClauses(I, insts, top, vars[n - 1], env)
  {
    AllTrueTwo(I, VarPreds(insts, top, vars, n - 1), DecodePred(insts, top), UpdatePred(insts, top, vars[n - 1]), env);
    VarClausesMeaning(I, insts, top, vars[n - 1], env);
  }

  lemma AllTrueTwo(I: Interp, es: seq<Expr>, a: Expr, b: Expr, env: Env)
    ensures AllTrue(I, es + [a, b], env) <==>
            AllTrue(I, es, env) && Truth(Eval(I, a, env)) && Truth(Eval(I, b, env))
  {
    var all := es + [a, b];
    if AllTrue(I, all, env) {
      forall i | 0 <= i < |es| ensures Truth(Eval(I, es[i], env)) { assert all[i] == es[i]; }
      assert all[|es|] == a && all[|es| + 1] == b;
    }
  }

  ghost predicate OneHot(insts: seq<Instr>, top: string, env: Env) {
    && (On(env, DeadSel(top)) || exists k {:trigger insts[k]} :: 0 <= k < |insts| && On(env, Sel(insts[k])))
    && (forall i, j {:trigger insts[i], insts[j]} :: 0 <= i < j < |insts| ==>
          !(On(env, Sel(insts[i])) && On(env, Sel(insts[j]))))
  }

  lemma MonoPredsMeaning(I: Interp, insts: seq<Instr>, top: string, vars: seq<string>, env: Env)
    ensures AllTrue(I, MonoPreds(insts, top, vars), env) <==>
            && (forall v {:trigger vars[v]} :: 0 <= v < |vars| ==> VarClauses(I, insts, top, vars[v], env))
            && OneHot(insts, top, env)
  {
    VarPredsMeaning(I, insts, top, vars, env, |vars|);
    AllTrueTwo(I, VarPreds(insts, top, vars, |vars|), AtLeastOne(insts, top, |insts|), AtMostOne(insts, |insts|), env);
    AtLeastOneMeaning(I, insts, top, env, |insts|);
    AtMostOneMeaning(I, insts, env, |insts|);
  }

  // ---------- exactly one selector ----------

  /** Selector k, the dummy after the last instruction's. */
  function Bit(insts: seq<Instr>, top: string, k: nat): string
    requires k <= |insts|
  {
    if k < |insts| then Sel(insts[k]) else DeadSel(top)
  }

  /** No clause forbids the dummy beside an instruction's selector, yet exactly one selector is true
      in every model: the dummy promises that nothing decodes. */
  lemma ExactlyOneSelector(I: Interp, insts: seq<Instr>, top: string, vars: seq<string>, env: Env)
    requires vars != [] && AllTrue(I, MonoPreds(insts, top, vars), env)
    ensures exists k: nat :: k <= |insts| && On(env, Bit(insts, top, k)) &&
              forall j: nat :: j <= |insts| && j != k ==> !On(env, Bit(insts, top, j))
  {
    MonoPredsMeaning(I, insts, top, vars, env);
    assert VarClauses(I, insts, top, vars[0], env);
    if On(env, DeadSel(top)) {
      forall j: nat | j < |insts| ensures !On(env, Bit(insts, top, j)) {
        assert !Decodes(I, insts[j], env);
      }
      assert On(env, Bit(insts, top, |insts|));
    } else {
      var k :| 0 <= k < |insts| && On(env, Sel(insts[k]));
      forall j: nat | j <= |insts| && j != k ensures !On(env, Bit(insts, top, j)) {
        if j < |insts| { var a, b := insts[j], insts[k]; }
      }
      assert On(env, Bit(insts, top, k));
    }
  }

  // ---------- names ----------

  ghost function Bits(insts: seq<Instr>, top: string): (r: seq<string>)
    ensures |r| == |insts| + 1
  {
    seq(|insts| + 1, k requires 0 <= k <= |insts| => Bit(insts, top, k))
  }

  ghost function NextNames(vars: seq<string>): (r: seq<string>)
    ensures |r| == |vars|
  {
    seq(|vars|, v requires 0 <= v < |vars| => Nxt(vars[v]))
  }

  /** A name the encoding introduces: a selector or a next-state variable. */
  ghost predicate Fresh(P: Problem, x: string) {
    Position(Bits(P.target.insts, Top(P.target)), x) <= |P.target.insts| || Position(NextNames(P.vars), x) < |P.vars|
  }

  ghost predicate Plain(P: Problem, e: Expr) {
    forall x :: x in Names(e) ==> !Fresh(P, x)
  }

  ghost predicate AllPlain(P: Problem, es: seq<Expr>) {
    forall i {:trigger es[i]} :: 0 <= i < |es| ==> Plain(P, es[i])
  }

  /** The introduced names clash neither with each other (no instruction of the top level is called "dead") nor with
      the names of the ILA. */
  ghost predicate Clean(P: Problem) {
    && P.target.Mono? && P.vars != [] && Distinct(P.vars) && Distinct(Bits(P.target.insts, Top(P.target)))
    && (forall v {:trigger P.vars[v]} :: 0 <= v < |P.vars| ==> !Fresh(P, P.vars[v]))
    && (forall k {:trigger P.target.insts[k]} :: 0 <= k < |P.target.insts| ==> PlainInstr(P, P.target.insts[k]))
    && AllPlain(P, P.init) && AllPlain(P, P.glob) && (forall k :: AllPlain(P, StepExprs(P.step, k)))
  }

  ghost predicate PlainInstr(P: Problem, i: Instr) {
    Plain(P, i.decode) && forall x {:trigger StateUpdCmpl(i, x)} :: x in P.vars ==> Plain(P, StateUpdCmpl(i, x))
  }

  /** Outside the introduced names the environments agree. */
  ghost predicate Agree(P: Problem, a: Env, b: Env) {
    forall x :: !Fresh(P, x) ==> a(x) == b(x)
  }

  lemma PlainSame(I: Interp, P: Problem, e: Expr, a: Env, b: Env)
    requires Plain(P, e) && Agree(P, a, b)
    ensures Eval(I, e, a) == Eval(I, e, b)
  {
    EvalSame(I, e, a, b);
  }

  lemma AllPlainSame(I: Interp, P: Problem, es: seq<Expr>, a: Env, b: Env)
    requires AllPlain(P, es) && Agree(P, a, b)
    ensures AllTrue(I, es, a) <==> AllTrue(I, es, b)
  {
    forall i | 0 <= i < |es| ensures Eval(I, es[i], a) == Eval(I, es[i], b) {
      PlainSame(I, P, es[i], a, b);
    }
  }

  lemma UserPredsSame(I: Interp, P: Problem, a: Env, b: Env, i: nat)
    requires Clean(P) && Agree(P, a, b)
    ensures UserPreds(I, P, a, i) <==> UserPreds(I, P, b, i)
    ensures EndPreds(I, P, a, i) <==> EndPreds(I, P, b, i)
  {
    AllPlainSame(I, P, P.init, a, b);
    AllPlainSame(I, P, P.glob, a, b);
    AllPlainSame(I, P, StepExprs(P.step, i), a, b);
  }

  lemma DecodesSame(I: Interp, P: Problem, a: Env, b: Env, k: nat)
    requires Clean(P) && Agree(P, a, b) && k < |P.target.insts|
    ensures Decodes(I, P.target.insts[k], a) <==> Decodes(I, P.target.insts[k], b)
  {
    PlainSame(I, P, P.target.insts[k].decode, a, b);
  }

  lemma UpdateSame(I: Interp, P: Problem, a: Env, b: Env, k: nat, v: nat)
    requires Clean(P) && Agree(P, a, b) && k < |P.target.insts| && v < |P.vars|
    ensures
      var e := StateUpdCmpl(P.target.insts[k], P.vars[v]);
      Eval(I, e, a) == Eval(I, e, b)
  {
    PlainSame(I, P, StateUpdCmpl(P.target.insts[k], P.vars[v]), a, b);
  }

  // ---------- from a model to a run ----------

  /** A frame that satisfies the step predicates, with its successor, is a step of the ILA. */
  lemma ModelStep(I: Interp, P: Problem, env: Env, succ: Env, cur: Env, nxt: Env)
    requires Clean(P) && Agree(P, env, cur) && Agree(P, succ, nxt)
    requires AllTrue(I, MonoPreds(P.target.insts, Top(P.target), P.vars), env)
    requires forall v {:trigger P.vars[v]} :: 0 <= v < |P.vars| ==> succ(P.vars[v]) == env(Nxt(P.vars[v]))
    ensures MonoStep(I, P.target.insts, P.vars, cur, nxt)
  {
    var insts, top, vars := P.target.insts, Top(P.target), P.vars;
    MonoPredsMeaning(I, insts, top, vars, env);
    if On(env, DeadSel(top)) {
      assert VarClauses(I, insts, top, vars[0], env);
      forall k | 0 <= k < |insts| ensures !Decodes(I, insts[k], cur) { DecodesSame(I, P, env, cur, k); }
      forall v {:trigger vars[v]} | 0 <= v < |vars| ensures nxt(vars[v]) == cur(vars[v]) {
        assert VarClauses(I, insts, top, vars[v], env);
      }
    } else {
      var k :| 0 <= k < |insts| && On(env, Sel(insts[k]));
      ModelExecutes(I, P, env, succ, cur, nxt, k);
    }
  }

  lemma ModelExecutes(I: Interp, P: Problem, env: Env, succ: Env, cur: Env, nxt: Env, k: nat)
    requires Clean(P) && Agree(P, env, cur) && Agree(P, succ, nxt)
    requires k < |P.target.insts| && On(env, Sel(P.target.insts[k]))
    requires forall v {:trigger P.vars[v]} :: 0 <= v < |P.vars| ==> VarClauses(I, P.target.insts, Top(P.target), P.vars[v], env)
    requires forall v {:trigger P.vars[v]} :: 0 <= v < |P.vars| ==> succ(P.vars[v]) == env(Nxt(P.vars[v]))
    ensures Executes(I, P.target.insts[k], P.vars, cur, nxt)
  {
    var insts, top, vars := P.target.insts, Top(P.target), P.vars;
    assert VarClauses(I, insts, top, vars[0], env);
    DecodesSame(I, P, env, cur, k);
    forall v {:trigger vars[v]} | 0 <= v < |vars|
      ensures nxt(vars[v]) == Eval(I, StateUpdCmpl(insts[k], vars[v]), cur)
    {
      assert VarClauses(I, insts, top, vars[v], env);
      UpdateSame(I, P, env, cur, k, v);
    }
  }

  /** The frames of an assignment have, outside the introduced names, the values of the run. */
  ghost predicate Shows(P: Problem, A: Assignment, tag: string, run: seq<Env>) {
    forall i {:trigger run[i]} :: 0 <= i < |run| ==> Agree(P, Frame(A, Curr(i, tag)), run[i])
  }

  lemma ModelStepIsRunStep(I: Interp, P: Problem, A: Assignment, tag: string, run: seq<Env>, i: nat)
    requires Clean(P) && i < |run| - 1 && Shows(P, A, tag, run) && AssnStep(I, P, A, tag, 0, i)
    ensures RunStep(I, P, run, i)
  {
    var env, succ := Frame(A, Curr(i, tag)), Frame(A, Curr(i + 1, tag));
    assert Agree(P, env, run[i]) && Agree(P, succ, run[i + 1]);
    UserPredsSame(I, P, env, run[i], i);
    ModelStep(I, P, env, succ, run[i], run[i + 1]);
  }

  lemma ModelIsRun(I: Interp, P: Problem, A: Assignment, tag: string, run: seq<Env>, n: nat)
    requires Clean(P) && |run| == n + 1 && Shows(P, A, tag, run) && AssnModel(I, P, A, tag, n, 0)
    ensures MonoRun(I, P, run)
  {
    forall i: nat | i < n ensures RunStep(I, P, run, i) {
      assert AssnStep(I, P, A, tag, 0, i);
      ModelStepIsRunStep(I, P, A, tag, run, i);
    }
    assert Agree(P, Frame(A, Curr(n, tag)), run[n]);
    UserPredsSame(I, P, Frame(A, Curr(n, tag)), run[n], n);
  }

  // ---------- from a run to a model ----------

  /** The instruction a step executes, or the dummy. */
  ghost function Choice(I: Interp, insts: seq<Instr>, vars: seq<string>, cur: Env, nxt: Env): (k: nat)
    ensures k <= |insts|
    ensures k < |insts| ==> Executes(I, insts[k], vars, cur, nxt)
    ensures k == |insts| && MonoStep(I, insts, vars, cur, nxt) ==>
              Deadlocked(I, insts, cur) && SameStates(vars, nxt, cur)
  {
    if exists k {:trigger insts[k]} :: 0 <= k < |insts| && Executes(I, insts[k], vars, cur, nxt) then
      var k :| 0 <= k < |insts| && Executes(I, insts[k], vars, cur, nxt);
      k
    else |insts|
  }

  /** A step's frame: the state, the selector of the executed instruction and the next state. */
  ghost function Encoded(I: Interp, P: Problem, cur: Env, nxt: Env): Env {
    x =>
      var b := Position(Bits(P.target.insts, Top(P.target)), x);
      var n := Position(NextNames(P.vars), x);
      if b <= |P.target.insts| then BoolV(b == Choice(I, P.target.insts, P.vars, cur, nxt))
      else if n < |P.vars| then nxt(P.vars[n])
      else cur(x)
  }

  lemma NextIsNoBit(insts: seq<Instr>, top: string, x: string, k: nat)
    requires k <= |insts|
    ensures Bit(insts, top, k) != Nxt(x)
  {
    var b, n := Bit(insts, top, k), Nxt(x);
    assert n[|n| - 1] == 't';
    assert b[|b| - 1] == 'l';
  }

  lemma NextInjective(x: string, y: string)
    requires Nxt(x) == Nxt(y)
    ensures x == y
  {
    assert Nxt(x)[..|x|] == x && Nxt(y)[..|y|] == y;
  }

  lemma EncodedBit(I: Interp, P: Problem, cur: Env, nxt: Env, k: nat)
    requires Clean(P) && k <= |P.target.insts|
    ensures On(Encoded(I, P, cur, nxt), Bit(P.target.insts, Top(P.target), k)) <==>
            k == Choice(I, P.target.insts, P.vars, cur, nxt)
  {
    var bits := Bits(P.target.insts, Top(P.target));
    assert bits[k] == Bit(P.target.insts, Top(P.target), k);
    assert Position(bits, bits[k]) == k;
  }

  lemma EncodedNext(I: Interp, P: Problem, cur: Env, nxt: Env, v: nat)
    requires Clean(P) && v < |P.vars|
    ensures Encoded(I, P, cur, nxt)(Nxt(P.vars[v])) == nxt(P.vars[v])
  {
    var x, names := Nxt(P.vars[v]), NextNames(P.vars);
    var b, n := Position(Bits(P.target.insts, Top(P.target)), x), Position(names, x);
    if b <= |P.target.insts| {
      NextIsNoBit(P.target.insts, Top(P.target), P.vars[v], b);
      assert false;
    }
    assert names[v] == x;
    assert n < |P.vars| && names[n] == x;
    NextInjective(P.vars[n], P.vars[v]);
  }

  lemma EncodedAgrees(I: Interp, P: Problem, cur: Env, nxt: Env)
    ensures Agree(P, Encoded(I, P, cur, nxt), cur)
  {
  }

  lemma EncodedClauses(I: Interp, P: Problem, cur: Env, nxt: Env, v: nat)
    requires Clean(P) && MonoStep(I, P.target.insts, P.vars, cur, nxt) && v < |P.vars|
    ensures VarClauses(I, P.target.insts, Top(P.target), P.vars[v], Encoded(I, P, cur, nxt))
  {
    var insts, top, env := P.target.insts, Top(P.target), Encoded(I, P, cur, nxt);
    var x := P.vars[v];
    EncodedAgrees(I, P, cur, nxt);
    EncodedNext(I, P, cur, nxt, v);
    forall k: nat | k < |insts| && On(env, Sel(insts[k]))
      ensures Decodes(I, insts[k], env) && env(Nxt(x)) == Eval(I, StateUpdCmpl(insts[k], x), env)
    {
      EncodedBit(I, P, cur, nxt, k);
      DecodesSame(I, P, env, cur, k);
      UpdateSame(I, P, env, cur, k, v);
    }
    EncodedBit(I, P, cur, nxt, |insts|);
    if On(env, DeadSel(top)) {
      forall k | 0 <= k < |insts| ensures !Decodes(I, insts[k], env) { DecodesSame(I, P, env, cur, k); }
      assert !Fresh(P, P.vars[v]);
    }
  }

  /** A step of the ILA, encoded, satisfies the step predicates. */
  lemma EncodedStep(I: Interp, P: Problem, cur: Env, nxt: Env)
    requires Clean(P) && MonoStep(I, P.target.insts, P.vars, cur, nxt)
    ensures AllTrue(I, MonoPreds(P.target.insts, Top(P.target), P.vars), Encoded(I, P, cur, nxt))
  {
    var insts, top, env := P.target.insts, Top(P.target), Encoded(I, P, cur, nxt);
    forall v {:trigger P.vars[v]} | 0 <= v < |P.vars| ensures VarClauses(I, insts, top, P.vars[v], env) {
      EncodedClauses(I, P, cur, nxt, v);
    }
    var c := Choice(I, insts, P.vars, cur, nxt);
    EncodedBit(I, P, cur, nxt, c);
    forall i, j {:trigger insts[i], insts[j]} | 0 <= i < j < |insts|
      ensures !(On(env, Sel(insts[i])) && On(env, Sel(insts[j])))
    {
      EncodedBit(I, P, cur, nxt, i);
      EncodedBit(I, P, cur, nxt, j);
    }
    if c < |insts| { assert On(env, Sel(insts[c])); }
    assert OneHot(insts, top, env);
    MonoPredsMeaning(I, insts, top, P.vars, env);
  }

  ghost function EncodedRun(I: Interp, P: Problem, tag: string, run: seq<Env>): Assignment
    requires |run| > 0
  {
    (x: string, f: Suffix) =>
      if f.Curr? && f.tag == tag && 0 <= f.t < |run| - 1 then Encoded(I, P, run[f.t], run[f.t + 1])(x)
      else run[|run| - 1](x)
  }

  lemma EncodedRunFrame(I: Interp, P: Problem, tag: string, run: seq<Env>, i: nat)
    requires i < |run| - 1
    ensures SameEnv(Frame(EncodedRun(I, P, tag, run), Curr(i, tag)), Encoded(I, P, run[i], run[i + 1]))
  {
  }

  lemma EncodedRunShows(I: Interp, P: Problem, tag: string, run: seq<Env>)
    requires |run| > 0
    ensures Shows(P, EncodedRun(I, P, tag, run), tag, run)
  {
    var A := EncodedRun(I, P, tag, run);
    forall i: nat {:trigger run[i]} | i < |run| ensures Agree(P, Frame(A, Curr(i, tag)), run[i]) {
      if i < |run| - 1 {
        EncodedRunFrame(I, P, tag, run, i);
        EncodedAgrees(I, P, run[i], run[i + 1]);
      }
    }
  }

  /** The next-state variables of an encoded step hold the next state. */
  lemma EncodedMoves(I: Interp, P: Problem, cur: Env, nxt: Env, env: Env, succ: Env, i: nat)
    requires Clean(P) && SameEnv(env, Encoded(I, P, cur, nxt)) && Agree(P, succ, nxt)
    ensures Moves(I, P, env, succ, i)
  {
    forall v {:trigger P.vars[v]} | 0 <= v < |P.vars|
      ensures succ(P.vars[v]) == Eval(I, NextOf(P.target, P.vars, i)[v], env)
    {
      EncodedNext(I, P, cur, nxt, v);
      assert !Fresh(P, P.vars[v]);
    }
  }

  /** A frame that encodes a step satisfies all predicates of the step and leads to the next frame. */
  lemma EncodedFrame(I: Interp, P: Problem, cur: Env, nxt: Env, env: Env, succ: Env, i: nat)
    requires Clean(P) && SameEnv(env, Encoded(I, P, cur, nxt)) && Agree(P, succ, nxt)
    requires UserPreds(I, P, cur, i) && MonoStep(I, P.target.insts, P.vars, cur, nxt)
    ensures StepPreds(I, P, env, i) && Moves(I, P, env, succ, i)
  {
    EncodedAgrees(I, P, cur, nxt);
    UserPredsSame(I, P, env, cur, i);
    EncodedStep(I, P, cur, nxt);
    AllTrueSame(I, MonoPreds(P.target.insts, Top(P.target), P.vars), env, Encoded(I, P, cur, nxt));
    EncodedMoves(I, P, cur, nxt, env, succ, i);
  }

  lemma RunStepIsModel(I: Interp, P: Problem, tag: string, run: seq<Env>, i: nat)
    requires Clean(P) && |run| > 0 && MonoRun(I, P, run) && i < |run| - 1
    ensures AssnStep(I, P, EncodedRun(I, P, tag, run), tag, 0, i)
  {
    var j: nat := i + 1;
    EncodedRunShows(I, P, tag, run);
    assert RunStep(I, P, run, i);
    assert Agree(P, Frame(EncodedRun(I, P, tag, run), Curr(j, tag)), run[j]);
    StepIsModel(I, P, tag, run, i);
  }

  lemma StepIsModel(I: Interp, P: Problem, tag: string, run: seq<Env>, i: nat)
    requires Clean(P) && i < |run| - 1 && RunStep(I, P, run, i)
    requires Agree(P, Frame(EncodedRun(I, P, tag, run), Curr(i + 1, tag)), run[i + 1])
    ensures AssnStep(I, P, EncodedRun(I, P, tag, run), tag, 0, i)
  {
    var A := EncodedRun(I, P, tag, run);
    var succ := Frame(A, Curr(i + 1, tag));
    EncodedRunFrame(I, P, tag, run, i);
    EncodedFrame(I, P, run[i], run[i + 1], Frame(A, Curr(i, tag)), succ, i);
    AssnStepAt(I, P, A, tag, i, Frame(A, Curr(i, tag)), succ);
  }

  lemma LastFrameIsModel(I: Interp, P: Problem, tag: string, run: seq<Env>, last: nat)
    requires Clean(P) && |run| == last + 1 && MonoRun(I, P, run)
    ensures AssnSteps(I, P, EncodedRun(I, P, tag, run), tag, 0, last) ==>
              AssnModel(I, P, EncodedRun(I, P, tag, run), tag, last, 0)
  {
    var env := Frame(EncodedRun(I, P, tag, run), Curr(last, tag));
    EncodedRunShows(I, P, tag, run);
    assert Agree(P, env, run[last]);
    UserPredsSame(I, P, env, run[last], last);
  }

  lemma RunIsModel(I: Interp, P: Problem, tag: string, run: seq<Env>, n: nat)
    requires Clean(P) && |run| == n + 1 && MonoRun(I, P, run)
    ensures AssnModel(I, P, EncodedRun(I, P, tag, run), tag, n, 0)
  {
    forall i: nat | i < n ensures AssnStep(I, P, EncodedRun(I, P, tag, run), tag, 0, i) {
      RunStepIsModel(I, P, tag, run, i);
    }
    LastFrameIsModel(I, P, tag, run, n);
  }

  /** From frame 0 the encoding of k steps can be satisfied for a sequence of states exactly when the
      sequence is a run. */
  lemma EncodingIsRuns(I: Interp, P: Problem, tag: string, run: seq<Env>, n: nat)
    requires Clean(P) && |run| == n + 1
    ensures (exists A :: Shows(P, A, tag, run) && AssnModel(I, P, A, tag, n, 0)) <==> MonoRun(I, P, run)
  {
    if A :| Shows(P, A, tag, run) && AssnModel(I, P, A, tag, n, 0) {
      ModelIsRun(I, P, A, tag, run, n);
    }
    if MonoRun(I, P, run) {
      EncodedRunShows(I, P, tag, run);
      RunIsModel(I, P, tag, run, n);
    }
  }

  lemma EncodingsAreRuns(P: Problem, tag: string, len: nat, c: Term)
    requires Clean(P)
    requires forall I: Interp, A: Assignment :: True(I, c, A) <==> AssnModel(I, P, A, tag, len, 0)
    ensures forall I: Interp, run: seq<Env> :: |run| == len + 1 ==>
              ((exists A :: Shows(P, A, tag, run) && True(I, c, A)) <==> MonoRun(I, P, run))
  {
    forall I: Interp, run: seq<Env> | |run| == len + 1
      ensures (exists A :: Shows(P, A, tag, run) && True(I, c, A)) <==> MonoRun(I, P, run)
    {
      EncodingIsRuns(I, P, tag, run, len);
      if A :| Shows(P, A, tag, run) && AssnModel(I, P, A, tag, len, 0) {
        assert True(I, c, A);
      }
    }
  }

  /** Unroll a whole ILA from frame 0: the term describes its runs of `len` steps. */
  method MonoAssn(u: Unroller, insts: seq<Instr>, top: string, states: seq<string>, len: nat) returns (c: Term)
    requires Clean(u.Goal().(target := Mono(insts, top), vars := states))
    modifies u
    ensures u.Goal() == old(u.Goal()).(target := Mono(insts, top), vars := states)
    ensures forall I: Interp, A: Assignment :: True(I, c, A) <==> AssnModel(I, u.Goal(), A, u.tag, len, 0)
    ensures forall I: Interp, run: seq<Env> :: |run| == len + 1 ==>
              ((exists A :: Shows(u.Goal(), A, u.tag, run) && True(I, c, A)) <==> MonoRun(I, u.Goal(), run))
  {
    u.target, u.states := Mono(insts, top), states;
    c := u.UnrollAssn(len, 0);
    EncodingsAreRuns(u.Goal(), u.tag, len, c);
  }
}
