/** ILA expressions and what they mean. */
module Ast {

  function WordAt(def: int, words: map<int, int>, a: int): int {
    if a in words then words[a] else def
  }

  ghost function Filled(def: int, words: map<int, int>): imap<int, int> {
    imap a: int :: WordAt(def, words, a)
  }

  /** A memory: one word for every address. */
  type Mem = m: imap<int, int> | forall a {:trigger a in m} :: a in m ghost witness Filled(0, map[])

  datatype Value = BoolV(b: bool) | BvV(n: int) | MemV(m: Mem)

  /** A memory constant is a default word and the words that differ from it. */
  datatype Literal = BoolL(b: bool) | BvL(n: int, width: nat) | MemL(def: int, words: map<int, int>)

  datatype Op = kNot | kAnd | kOr | kImply | kEqual | kLoad | kStore | kIfThenElse | Other(name: string)

  datatype Expr =
    | Var(name: string)
    | Const(lit: Literal)
    | App(op: Op, args: seq<Expr>, params: seq<int>)

  type Env = string -> Value

  /** The meaning of the operators that no property depends on. */
  type Interp = (string, seq<int>, seq<Value>) -> Value

  ghost function Truth(v: Value): bool {
    v.BoolV? && v.b
  }

  ghost function Word(v: Value): int {
    if v.BvV? then v.n else 0
  }

  ghost function Words(v: Value): Mem {
    match v
    case MemV(m) => m
    case _ => Filled(0, map[])
  }

  lemma SameMem(a: Mem, b: Mem)
    requires forall x: int {:trigger a[x]} :: a[x] == b[x]
    ensures a == b
  {
    forall x | x in a || x in b ensures x in a && x in b && a[x] == b[x] {
    }
  }

  ghost function Denote(l: Literal): Value {
    match l
    case BoolL(b) => BoolV(b)
    case BvL(n, _) => BvV(n)
    case MemL(def, words) => MemV(Filled(def, words))
  }

  ghost function Arity(op: Op): int {
    match op
    case kNot => 1
    case kAnd | kOr | kImply | kEqual | kLoad => 2
    case kStore | kIfThenElse => 3
    case Other(_) => -1
  }

  ghost function Apply(I: Interp, op: Op, params: seq<int>, vs: seq<Value>): Value {
    if op.Other? then I(op.name, params, vs)
    else if |vs| != Arity(op) then BoolV(false)
    else match op
      case kNot => BoolV(!Truth(vs[0]))
      case kAnd => BoolV(Truth(vs[0]) && Truth(vs[1]))
      case kOr => BoolV(Truth(vs[0]) || Truth(vs[1]))
      case kImply => BoolV(Truth(vs[0]) ==> Truth(vs[1]))
      case kEqual => BoolV(vs[0] == vs[1])
      case kLoad => BvV(Words(vs[0])[Word(vs[1])])
      case kStore => MemV(Words(vs[0])[Word(vs[1]) := Word(vs[2])])
      case kIfThenElse => if Truth(vs[0]) then vs[1] else vs[2]
  }

  ghost function Eval(I: Interp, e: Expr, env: Env): Value {
    match e
    case Var(x) => env(x)
    case Const(l) => Denote(l)
    case App(op, args, params) => Apply(I, op, params, EvalAll(I, args, env))
  }

  ghost function EvalAll(I: Interp, es: seq<Expr>, env: Env): (vs: seq<Value>)
    ensures |vs| == |es| && forall i :: 0 <= i < |es| ==> vs[i] == Eval(I, es[i], env)
  {
    if es == [] then [] else [Eval(I, es[0], env)] + EvalAll(I, es[1..], env)
  }

  // ---------- subterms ----------

  /** t is the expression or occurs in it. */
  ghost predicate Occurs(t: Expr, e: Expr)
    decreases e
  {
    t == e || (e.App? && exists i {:trigger e.args[i]} :: 0 <= i < |e.args| && Occurs(t, e.args[i]))
  }

  lemma {:induction false} OccursTrans(a: Expr, b: Expr, c: Expr)
    requires Occurs(a, b) && Occurs(b, c)
    ensures Occurs(a, c)
    decreases c
  {
    if b != c {
      var i :| 0 <= i < |c.args| && Occurs(b, c.args[i]);
      OccursTrans(a, b, c.args[i]);
    }
  }

  // ---------- constructors ----------

  function Not(a: Expr): Expr { App(kNot, [a], []) }

  function And(a: Expr, b: Expr): Expr { App(kAnd, [a, b], []) }

  function Or(a: Expr, b: Expr): Expr { App(kOr, [a, b], []) }

  function Imply(a: Expr, b: Expr): Expr { App(kImply, [a, b], []) }

  function Eq(a: Expr, b: Expr): Expr { App(kEqual, [a, b], []) }

  function Load(m: Expr, a: Expr): Expr { App(kLoad, [m, a], []) }

  function Store(m: Expr, a: Expr, d: Expr): Expr { App(kStore, [m, a, d], []) }

  function Ite(c: Expr, t: Expr, e: Expr): Expr { App(kIfThenElse, [c, t, e], []) }

  function BoolConst(b: bool): Expr { Const(BoolL(b)) }
}
