/** Solver terms over time-framed variables: translation of an expression to a frame, and
    simultaneous substitution. */
module Frames {
  import opened Ast

  /** SuffCurr(t), SuffNext(t) and the bare extra suffix of an unroller with tag `tag`. */
  datatype Suffix = Curr(t: int, tag: string) | Next(t: int, tag: string) | Bare(tag: string)

  datatype Term =
    | TVar(x: string, f: Suffix)
    | TConst(lit: Literal)
    | TApp(op: Op, args: seq<Term>, params: seq<int>)

  /** A value for every framed variable. */
  type Assignment = (string, Suffix) -> Value

  ghost function Frame(A: Assignment, f: Suffix): Env {
    x => A(x, f)
  }

  ghost function Meaning(I: Interp, z: Term, A: Assignment): Value {
    match z
    case TVar(x, f) => A(x, f)
    case TConst(l) => Denote(l)
    case TApp(op, args, params) => Apply(I, op, params, MeaningAll(I, args, A))
  }

  ghost function MeaningAll(I: Interp, zs: seq<Term>, A: Assignment): (vs: seq<Value>)
    ensures |vs| == |zs| && forall i :: 0 <= i < |zs| ==> vs[i] == Meaning(I, zs[i], A)
  {
    if zs == [] then [] else [Meaning(I, zs[0], A)] + MeaningAll(I, zs[1..], A)
  }

  ghost predicate True(I: Interp, z: Term, A: Assignment) {
    Truth(Meaning(I, z, A))
  }

  // ---------- GetExpr ----------

  function GetExpr(e: Expr, f: Suffix): Term {
    match e
    case Var(x) => TVar(x, f)
    case Const(l) => TConst(l)
    case App(op, args, params) => TApp(op, GetAll(args, f), params)
  }

  function GetAll(es: seq<Expr>, f: Suffix): (zs: seq<Term>)
    ensures |zs| == |es|
    ensures forall i :: 0 <= i < |es| ==> zs[i] == GetExpr(es[i], f)
  {
    if es == [] then [] else [GetExpr(es[0], f)] + GetAll(es[1..], f)
  }

  /** A translated expression means, in an assignment, what the expression means in the frame. */
  lemma {:induction false} GetExprMeaning(I: Interp, e: Expr, f: Suffix, A: Assignment)
    ensures Meaning(I, GetExpr(e, f), A) == Eval(I, e, Frame(A, f))
    decreases e, 1
  {
    match e
    case Var(_) =>
    case Const(_) =>
    case App(op, args, params) => GetAllMeaning(I, args, f, A);
  }

  lemma {:induction false} GetAllMeaning(I: Interp, es: seq<Expr>, f: Suffix, A: Assignment)
    ensures MeaningAll(I, GetAll(es, f), A) == EvalAll(I, es, Frame(A, f))
    decreases es, 0
  {
    if es != [] {
      GetExprMeaning(I, es[0], f, A);
      GetAllMeaning(I, es[1..], f, A);
      assert GetAll(es, f)[1..] == GetAll(es[1..], f);
    }
  }

  // ---------- substitute ----------

  /** Position of a framed variable among the sources of a substitution. */
  function IndexOf(src: seq<Term>, x: string, f: Suffix): (k: nat)
    ensures k <= |src|
    ensures k < |src| ==> src[k] == TVar(x, f)
    ensures forall j :: 0 <= j < k ==> src[j] != TVar(x, f)
  {
    if src == [] || src[0] == TVar(x, f) then 0 else 1 + IndexOf(src[1..], x, f)
  }

  /** z3::expr::substitute: all sources are replaced at once. */
  function Substitute(z: Term, src: seq<Term>, dst: seq<Term>): Term
    requires |src| == |dst|
  {
    match z
    case TVar(x, f) => var k := IndexOf(src, x, f); if k < |src| then dst[k] else z
    case TConst(_) => z
    case TApp(op, args, params) => TApp(op, SubstituteAll(args, src, dst), params)
  }

  function SubstituteAll(zs: seq<Term>, src: seq<Term>, dst: seq<Term>): (r: seq<Term>)
    requires |src| == |dst|
    ensures |r| == |zs|
    ensures forall i :: 0 <= i < |zs| ==> r[i] == Substitute(zs[i], src, dst)
  {
    if zs == [] then [] else [Substitute(zs[0], src, dst)] + SubstituteAll(zs[1..], src, dst)
  }

  /** The assignment in which the sources have the values of their replacements. */
  ghost function Updated(I: Interp, A: Assignment, src: seq<Term>, dst: seq<Term>): Assignment
    requires |src| == |dst|
  {
    (x, f) => var k := IndexOf(src, x, f); if k < |src| then Meaning(I, dst[k], A) else A(x, f)
  }

  lemma {:induction false} SubstituteMeaning(I: Interp, z: Term, src: seq<Term>, dst: seq<Term>, A: Assignment)
    requires |src| == |dst|
    ensures Meaning(I, Substitute(z, src, dst), A) == Meaning(I, z, Updated(I, A, src, dst))
    decreases z, 1
  {
    match z
    case TVar(_, _) =>
    case TConst(_) =>
    case TApp(op, args, params) => SubstituteAllMeaning(I, args, src, dst, A);
  }

  lemma {:induction false} SubstituteAllMeaning(I: Interp, zs: seq<Term>, src: seq<Term>, dst: seq<Term>, A: Assignment)
    requires |src| == |dst|
    ensures MeaningAll(I, SubstituteAll(zs, src, dst), A) == MeaningAll(I, zs, Updated(I, A, src, dst))
    decreases zs, 0
  {
    if zs != [] {
      SubstituteMeaning(I, zs[0], src, dst, A);
      SubstituteAllMeaning(I, zs[1..], src, dst, A);
      assert SubstituteAll(zs, src, dst)[1..] == SubstituteAll(zs[1..], src, dst);
    }
  }

  // ---------- only the values of named variables matter ----------

  function Names(e: Expr): set<string> {
    match e
    case Var(x) => {x}
    case Const(_) => {}
    case App(_, args, _) => NamesOf(args)
  }

  function NamesOf(es: seq<Expr>): set<string> {
    if es == [] then {} else Names(es[0]) + NamesOf(es[1..])
  }

  lemma {:induction false} EvalSame(I: Interp, e: Expr, a: Env, b: Env)
    requires forall x :: x in Names(e) ==> a(x) == b(x)
    ensures Eval(I, e, a) == Eval(I, e, b)
    decreases e, 1
  {
    match e
    case Var(_) =>
    case Const(_) =>
    case App(op, args, params) => EvalAllSame(I, args, a, b);
  }

  lemma {:induction false} EvalAllSame(I: Interp, es: seq<Expr>, a: Env, b: Env)
    requires forall x :: x in NamesOf(es) ==> a(x) == b(x)
    ensures EvalAll(I, es, a) == EvalAll(I, es, b)
    decreases es, 0
  {
    if es != [] {
      EvalSame(I, es[0], a, b);
      EvalAllSame(I, es[1..], a, b);
    }
  }
}
