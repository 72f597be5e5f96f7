/** Sorts of expressions, and what it means to replace an expression by another. */
module Sorts {
  import opened Ast

  datatype Sort = BoolS | BvS | MemS

  /** Sorts of the variables and of the results of the operators that no property depends on. */
  datatype Sig = Sig(vars: string -> Sort, ops: (string, seq<int>) -> Sort)

  function SortOf(S: Sig, e: Expr): Sort {
    match e
    case Var(x) => S.vars(x)
    case Const(BoolL(_)) => BoolS
    case Const(BvL(_, _)) => BvS
    case Const(MemL(_, _)) => MemS
    case App(op, args, params) =>
      match op
      case kNot | kAnd | kOr | kImply | kEqual => BoolS
      case kLoad => BvS
      case kStore => MemS
      case kIfThenElse => if |args| == 3 then SortOf(S, args[1]) else BoolS
      case Other(name) => S.ops(name, params)
  }

  function SortsOf(S: Sig, es: seq<Expr>): (ss: seq<Sort>)
    ensures |ss| == |es|
  {
    seq(|es|, i requires 0 <= i < |es| => SortOf(S, es[i]))
  }

  /** The argument sorts the constructor of an operator demands. */
  predicate Accepts(op: Op, ss: seq<Sort>, params: seq<int>) {
    match op
    case kNot => ss == [BoolS] && params == []
    case kAnd | kOr | kImply => ss == [BoolS, BoolS] && params == []
    case kEqual => |ss| == 2 && ss[0] == ss[1] && params == []
    case kLoad => ss == [MemS, BvS] && params == []
    case kStore => ss == [MemS, BvS, BvS] && params == []
    case kIfThenElse => |ss| == 3 && ss[0] == BoolS && ss[1] == ss[2] && params == []
    case Other(_) => true
  }

  predicate WellSorted(S: Sig, e: Expr) {
    match e
    case Var(_) => true
    case Const(_) => true
    case App(op, args, params) => AllSorted(S, args) && Accepts(op, SortsOf(S, args), params)
  }

  predicate AllSorted(S: Sig, es: seq<Expr>) {
    forall i {:trigger es[i]} :: 0 <= i < |es| ==> WellSorted(S, es[i])
  }

  ghost predicate HasSort(v: Value, s: Sort) {
    match s
    case BoolS => v.BoolV?
    case BvS => v.BvV?
    case MemS => v.MemV?
  }

  ghost predicate TypedEnv(S: Sig, env: Env) {
    forall x :: HasSort(env(x), S.vars(x))
  }

  ghost predicate TypedInterp(S: Sig, I: Interp) {
    forall name, params, vs :: HasSort(I(name, params, vs), S.ops(name, params))
  }

  lemma {:induction false} EvalHasSort(S: Sig, I: Interp, e: Expr, env: Env)
    requires WellSorted(S, e) && TypedEnv(S, env) && TypedInterp(S, I)
    ensures HasSort(Eval(I, e, env), SortOf(S, e))
  {
    match e
    case Var(_) =>
    case Const(_) =>
    case App(op, args, params) =>
      if op == kIfThenElse {
        assert SortsOf(S, args)[1] == SortsOf(S, args)[2];
        EvalHasSort(S, I, args[1], env);
        EvalHasSort(S, I, args[2], env);
      }
  }

  /** Same value in every environment. */
  ghost predicate SameMeaning(S: Sig, a: Expr, b: Expr) {
    forall I: Interp, env: Env :: TypedInterp(S, I) && TypedEnv(S, env) ==> Eval(I, a, env) == Eval(I, b, env)
  }

  /** `r` can stand for `e`: it is well sorted, of the same sort and has the same meaning. */
  ghost predicate Replaces(S: Sig, e: Expr, r: Expr) {
    WellSorted(S, e) && WellSorted(S, r) && SortOf(S, r) == SortOf(S, e) && SameMeaning(S, e, r)
  }

  ghost predicate AllReplace(S: Sig, es: seq<Expr>, rs: seq<Expr>) {
    |rs| == |es| && forall i {:trigger rs[i]} {:trigger es[i]} :: 0 <= i < |es| ==> Replaces(S, es[i], rs[i])
  }

  ghost function Blank(s: Sort): (v: Value)
    ensures HasSort(v, s)
  {
    match s
    case BoolS => BoolV(false)
    case BvS => BvV(0)
    case MemS => MemV(Filled(0, map[]))
  }

  ghost function BlankInterp(S: Sig): (I: Interp)
    ensures TypedInterp(S, I)
  {
    (name: string, params: seq<int>, vs: seq<Value>) => Blank(S.ops(name, params))
  }

  ghost function BlankEnv(S: Sig): (env: Env)
    ensures TypedEnv(S, env)
  {
    x => Blank(S.vars(x))
  }

  /** The sort of an expression is the kind of all its values. */
  lemma SortIsKind(S: Sig, e: Expr, s: Sort)
    requires WellSorted(S, e)
    ensures SortOf(S, e) == s <==>
            forall I: Interp, env: Env :: TypedInterp(S, I) && TypedEnv(S, env) ==> HasSort(Eval(I, e, env), s)
  {
    if SortOf(S, e) == s {
      forall I: Interp, env: Env | TypedInterp(S, I) && TypedEnv(S, env) ensures HasSort(Eval(I, e, env), s) {
        EvalHasSort(S, I, e, env);
      }
    } else {
      var I, env := BlankInterp(S), BlankEnv(S);
      EvalHasSort(S, I, e, env);
      assert !HasSort(Eval(I, e, env), s);
    }
  }

  lemma ReplacesTrans(S: Sig, a: Expr, b: Expr, c: Expr)
    requires Replaces(S, a, b) && Replaces(S, b, c)
    ensures Replaces(S, a, c)
  {
    forall I: Interp, env: Env | TypedInterp(S, I) && TypedEnv(S, env) ensures Eval(I, a, env) == Eval(I, c, env) {
      assert Eval(I, a, env) == Eval(I, b, env);
    }
  }

  /** Arguments can be replaced. */
  lemma ArgsReplaced(S: Sig, op: Op, args: seq<Expr>, rs: seq<Expr>, params: seq<int>)
    requires WellSorted(S, App(op, args, params)) && AllReplace(S, args, rs)
    ensures Replaces(S, App(op, args, params), App(op, rs, params))
  {
    assert SortsOf(S, args) == SortsOf(S, rs);
    forall I: Interp, env: Env | TypedInterp(S, I) && TypedEnv(S, env)
      ensures Eval(I, App(op, args, params), env) == Eval(I, App(op, rs, params), env)
    {
      forall i | 0 <= i < |args| ensures Eval(I, args[i], env) == Eval(I, rs[i], env) {
        assert Replaces(S, args[i], rs[i]);
      }
      assert EvalAll(I, args, env) == EvalAll(I, rs, env);
    }
    if op == kIfThenElse { assert Replaces(S, args[1], rs[1]); }
  }

  function Size(e: Expr): nat {
    if e.App? then 1 + SizeOf(e.args) else 0
  }

  function SizeOf(es: seq<Expr>): (n: nat)
    ensures forall i {:trigger es[i]} :: 0 <= i < |es| ==> Size(es[i]) <= n
  {
    if es == [] then 0 else Size(es[0]) + SizeOf(es[1..])
  }
}
