/** Refinement-map expressions: bottom-up rewriting with two explicit stacks, and the expansion of
    quantifiers. */
module RfExprs {
  // ---------- expressions ----------

  datatype Op = FORALL(x: string, width: nat) | EXIST(x: string, width: nat) | L_AND | L_OR | Other(name: string, params: seq<int>)

  datatype RfExpr =
    | RfVar(name: string)
    | RfConst(value: int, width: nat)
    | RfOp(op: Op, children: seq<RfExpr>)

  type Env = string -> int

  /** The meaning of the other operators. */
  type Interp = (string, seq<int>, seq<int>) -> int

  function Bind(env: Env, x: string, v: int): Env {
    y => if y == x then v else env(y)
  }

  function Pow2(w: nat): (n: nat)
    ensures n > 0
  {
    if w == 0 then 1 else 2 * Pow2(w - 1)
  }

  /** A word, its lowest bit first. */
  function WordOf(bits: seq<bool>): nat {
    if bits == [] then 0 else (if bits[0] then 1 else 0) + 2 * WordOf(bits[1..])
  }

  lemma {:induction false} WordInRange(bits: seq<bool>)
    ensures WordOf(bits) < Pow2(|bits|)
  {
    if bits != [] { WordInRange(bits[1..]); }
  }

  /** The word of w bits with value v. */
  function BitsOf(w: nat, v: nat): (bits: seq<bool>)
    requires v < Pow2(w)
    ensures |bits| == w && WordOf(bits) == v
  {
    if w == 0 then []
    else
      var rest := BitsOf(w - 1, v / 2);
      var bits := [v % 2 == 1] + rest;
      assert bits[1..] == rest;
      bits
  }

  /** The values a quantified variable of w bits ranges over are the words of w bits. */
  lemma RangeIsWords(w: nat, v: nat)
    ensures v < Pow2(w) <==> exists bits {:trigger WordOf(bits)} :: |bits| == w && WordOf(bits) == v
  {
    if v < Pow2(w) { assert WordOf(BitsOf(w, v)) == v; }
    if bits :| |bits| == w && WordOf(bits) == v { WordInRange(bits); }
  }

  function BoolVal(b: bool): int {
    if b then 1 else 0
  }

  /** Values of expressions; quantified variables range over the words of their width. */
  ghost function Eval(I: Interp, e: RfExpr, env: Env): int
    decreases e
  {
    match e
    case RfVar(x) => env(x)
    case RfConst(v, _) => v
    case RfOp(op, cs) =>
      match op
      case FORALL(x, w) =>
        BoolVal(|cs| == 1 && forall v: nat {:trigger Bind(env, x, v)} :: v < Pow2(w) ==> Eval(I, cs[0], Bind(env, x, v)) != 0)
      case EXIST(x, w) =>
        BoolVal(|cs| == 1 && exists v: nat {:trigger Bind(env, x, v)} :: v < Pow2(w) && Eval(I, cs[0], Bind(env, x, v)) != 0)
      case L_AND => BoolVal(|cs| == 2 && Eval(I, cs[0], env) != 0 && Eval(I, cs[1], env) != 0)
      case L_OR => BoolVal(|cs| == 2 && (Eval(I, cs[0], env) != 0 || Eval(I, cs[1], env) != 0))
      case Other(name, params) => I(name, params, EvalAll(I, cs, env))
  }

  ghost function EvalAll(I: Interp, es: seq<RfExpr>, env: Env): (vs: seq<int>)
    ensures |vs| == |es| && forall i {:trigger vs[i]} :: 0 <= i < |es| ==> vs[i] == Eval(I, es[i], env)
    decreases es
  {
    if es == [] then [] else [Eval(I, es[0], env)] + EvalAll(I, es[1..], env)
  }

  ghost predicate SameEnv(a: Env, b: Env) {
    forall x :: a(x) == b(x)
  }

  lemma {:induction false} EvalSame(I: Interp, e: RfExpr, a: Env, b: Env)
    requires SameEnv(a, b)
    ensures Eval(I, e, a) == Eval(I, e, b)
    decreases e
  {
    if e.RfOp? {
      var cs := e.children;
      match e.op
      case FORALL(x, _) =>
        forall v: nat ensures |cs| == 1 ==> Eval(I, cs[0], Bind(a, x, v)) == Eval(I, cs[0], Bind(b, x, v)) {
          if |cs| == 1 { EvalSame(I, cs[0], Bind(a, x, v), Bind(b, x, v)); }
        }
      case EXIST(x, _) =>
        forall v: nat ensures |cs| == 1 ==> Eval(I, cs[0], Bind(a, x, v)) == Eval(I, cs[0], Bind(b, x, v)) {
          if |cs| == 1 { EvalSame(I, cs[0], Bind(a, x, v), Bind(b, x, v)); }
        }
      case _ =>
        forall i | 0 <= i < |cs| ensures Eval(I, cs[i], a) == Eval(I, cs[i], b) {
          EvalSame(I, cs[i], a, b);
        }
        assert EvalAll(I, cs, a) == EvalAll(I, cs, b);
    }
  }

  predicate IsQuantifier(op: Op) {
    op.FORALL? || op.EXIST?
  }

  predicate QuantifierFree(e: RfExpr) {
    e.RfOp? ==> !IsQuantifier(e.op) && forall i {:trigger e.children[i]} :: 0 <= i < |e.children| ==> QuantifierFree(e.children[i])
  }

  // ---------- ReplaceQuantifiedVar ----------

  /** Replace the free occurrences of a variable; `bound` holds the variables quantified on the way. */
  function ReplaceQuantifiedVar(name: string, e: RfExpr, repl: RfExpr, bound: set<string>): RfExpr {
    match e
    case RfVar(n) => if n in bound then e else if n == name then repl else e
    case RfConst(_, _) => e
    case RfOp(op, cs) =>
      var inner := if IsQuantifier(op) then bound + {op.x} else bound;
      RfOp(op, ReplaceAll(name, cs, repl, inner))
  }

  function ReplaceAll(name: string, es: seq<RfExpr>, repl: RfExpr, bound: set<string>): (rs: seq<RfExpr>)
    ensures |rs| == |es|
    ensures forall i {:trigger rs[i]} {:trigger es[i]} :: 0 <= i < |es| ==> rs[i] == ReplaceQuantifiedVar(name, es[i], repl, bound)
  {
    if es == [] then [] else [ReplaceQuantifiedVar(name, es[0], repl, bound)] + ReplaceAll(name, es[1..], repl, bound)
  }

  /** A bound variable is not replaced. */
  lemma {:induction false} BoundIsKept(name: string, e: RfExpr, repl: RfExpr, bound: set<string>)
    requires name in bound
    ensures ReplaceQuantifiedVar(name, e, repl, bound) == e
    decreases e
  {
    if e.RfOp? {
      var inner := if IsQuantifier(e.op) then bound + {e.op.x} else bound;
      forall i | 0 <= i < |e.children|
        ensures ReplaceQuantifiedVar(name, e.children[i], repl, inner) == e.children[i]
      {
        BoundIsKept(name, e.children[i], repl, inner);
      }
      assert ReplaceAll(name, e.children, repl, inner) == e.children;
    }
  }

  /** Replacing a variable by a constant is binding it to the constant's value, shadowed or not. */
  lemma {:induction false} ReplaceIsBind(I: Interp, name: string, e: RfExpr, v: int, w: nat, bound: set<string>,
                                         env: Env)
    requires name !in bound
    ensures Eval(I, ReplaceQuantifiedVar(name, e, RfConst(v, w), bound), env) == Eval(I, e, Bind(env, name, v))
    decreases e
  {
    if e.RfOp? {
      if IsQuantifier(e.op) {
        if |e.children| == 1 {
          forall u: nat
            ensures Eval(I, ReplaceQuantifiedVar(name, e.children[0], RfConst(v, w), bound + {e.op.x}), Bind(env, e.op.x, u)) ==
                    Eval(I, e.children[0], Bind(Bind(env, name, v), e.op.x, u))
          {
            ReplaceInScope(I, name, e, v, w, bound, env, u);
          }
        }
      } else {
        var rs := ReplaceAll(name, e.children, RfConst(v, w), bound);
        forall i | 0 <= i < |e.children|
          ensures Eval(I, rs[i], env) == Eval(I, e.children[i], Bind(env, name, v))
        {
          ReplaceIsBind(I, name, e.children[i], v, w, bound, env);
        }
        assert EvalAll(I, rs, env) == EvalAll(I, e.children, Bind(env, name, v));
      }
    }
  }

  lemma {:induction false} ReplaceInScope(I: Interp, name: string, e: RfExpr, v: int, w: nat, bound: set<string>,
                                          env: Env, u: int)
    requires e.RfOp? && IsQuantifier(e.op) && |e.children| == 1 && name !in bound
    ensures Eval(I, ReplaceQuantifiedVar(name, e.children[0], RfConst(v, w), bound + {e.op.x}), Bind(env, e.op.x, u)) ==
            Eval(I, e.children[0], Bind(Bind(env, name, v), e.op.x, u))
    decreases e, 0
  {
    var c, x := e.children[0], e.op.x;
    var inner := Bind(env, x, u);
    if x == name {
      BoundIsKept(name, c, RfConst(v, w), bound + {x});
      EvalSame(I, c, inner, Bind(Bind(env, name, v), x, u));
    } else {
      ReplaceIsBind(I, name, c, v, w, bound + {x}, inner);
      EvalSame(I, c, Bind(inner, name, v), Bind(Bind(env, name, v), x, u));
    }
  }

  lemma {:induction false} ReplaceIsFree(name: string, e: RfExpr, v: int, w: nat, bound: set<string>)
    requires QuantifierFree(e)
    ensures QuantifierFree(ReplaceQuantifiedVar(name, e, RfConst(v, w), bound))
    decreases e
  {
    if e.RfOp? {
      forall i | 0 <= i < |e.children|
        ensures QuantifierFree(ReplaceQuantifiedVar(name, e.children[i], RfConst(v, w), bound))
      {
        ReplaceIsFree(name, e.children[i], v, w, bound);
      }
    }
  }

  // ---------- QuantifierInstantiation ----------

  /** The first n instances of a quantifier's body, joined. */
  function Instances(q: Op, body: RfExpr, n: nat): RfExpr
    requires IsQuantifier(q) && n > 0
  {
    var repl := ReplaceQuantifiedVar(q.x, body, RfConst(n - 1, q.width), {});
    if n == 1 then repl
    else RfOp(if q.FORALL? then L_AND else L_OR, [repl, Instances(q, body, n - 1)])
  }

  /** Expand a quantifier with one body; leave everything else. */
  function ExpandTop(e: RfExpr): RfExpr {
    if e.RfOp? && IsQuantifier(e.op) && |e.children| == 1 then Instances(e.op, e.children[0], Pow2(e.op.width)) else e
  }

  method QuantifierInstantiation(e: RfExpr) returns (ret: RfExpr)
    requires e.RfOp? && IsQuantifier(e.op) && |e.children| == 1
    ensures ret == ExpandTop(e)
  {
    var child, useAnd := e.children[0], e.op.FORALL?;
    var range := Pow2(e.op.width);
    ret := ReplaceQuantifiedVar(e.op.x, child, RfConst(0, e.op.width), {});
    var idx := 1;
    while idx < range
      invariant 1 <= idx <= range && ret == Instances(e.op, child, idx)
    {
      var repl := ReplaceQuantifiedVar(e.op.x, child, RfConst(idx, e.op.width), {});
      ret := RfOp(if useAnd then L_AND else L_OR, [repl, ret]);
      idx := idx + 1;
    }
  }

  /** The formula has the values 0 and 1 only. The type check warns about other bodies of quantifiers
      and goes on. */
  ghost predicate Boolean(I: Interp, e: RfExpr) {
    forall env: Env :: Eval(I, e, env) == 0 || Eval(I, e, env) == 1
  }

  /** The truth of the first n instances. */
  ghost predicate Joined(I: Interp, q: Op, body: RfExpr, n: nat, env: Env)
    requires IsQuantifier(q)
  {
    if q.FORALL? then forall v: nat {:trigger Bind(env, q.x, v)} :: v < n ==> Eval(I, body, Bind(env, q.x, v)) != 0
    else exists v: nat {:trigger Bind(env, q.x, v)} :: v < n && Eval(I, body, Bind(env, q.x, v)) != 0
  }

  lemma JoinedNext(I: Interp, q: Op, body: RfExpr, n: nat, env: Env)
    requires IsQuantifier(q)
    ensures
      var now := Eval(I, body, Bind(env, q.x, n)) != 0;
      Joined(I, q, body, n + 1, env) <==>
      if q.FORALL? then Joined(I, q, body, n, env) && now else Joined(I, q, body, n, env) || now
  {
  }

  /** The joined instances are true when they should be, and two or more give 0 or 1 whatever the body. */
  lemma {:induction false} InstancesMeaning(I: Interp, q: Op, body: RfExpr, n: nat, env: Env)
    requires IsQuantifier(q) && n > 0
    ensures Eval(I, Instances(q, body, n), env) != 0 <==> Joined(I, q, body, n, env)
    ensures n > 1 ==> Eval(I, Instances(q, body, n), env) == BoolVal(Joined(I, q, body, n, env))
    ensures n == 1 ==> Eval(I, Instances(q, body, n), env) == Eval(I, body, Bind(env, q.x, 0))
  {
    var m: nat := n - 1;
    ReplaceIsBind(I, q.x, body, m, q.width, {}, env);
    JoinedNext(I, q, body, m, env);
    if n > 1 { InstancesMeaning(I, q, body, m, env); }
  }

  lemma {:induction false} InstancesFree(q: Op, body: RfExpr, n: nat)
    requires IsQuantifier(q) && n > 0 && QuantifierFree(body)
    ensures QuantifierFree(Instances(q, body, n))
  {
    ReplaceIsFree(q.x, body, n - 1, q.width, {});
    if n > 1 { InstancesFree(q, body, n - 1); }
  }

  /** Expanding one quantifier keeps its value exactly when its width is positive or its only instance
      is 0 or 1. */
  lemma ExpandTopMeaning(I: Interp, e: RfExpr, env: Env)
    requires e.RfOp? && IsQuantifier(e.op) && |e.children| == 1
    ensures Eval(I, ExpandTop(e), env) == Eval(I, e, env) <==>
            (e.op.width == 0 ==> Eval(I, e.children[0], Bind(env, e.op.x, 0)) in {0, 1})
  {
    InstancesMeaning(I, e.op, e.children[0], Pow2(e.op.width), env);
    assert Eval(I, e, env) == BoolVal(Joined(I, e.op, e.children[0], Pow2(e.op.width), env));
  }

  // ---------- bottom-up rewriting ----------

  /** A function applied to every node, children first. */
  function BottomUp(f: RfExpr -> RfExpr, e: RfExpr): RfExpr {
    match e
    case RfVar(_) => f(e)
    case RfConst(_, _) => f(e)
    case RfOp(op, cs) => f(RfOp(op, BottomUpAll(f, cs)))
  }

  function BottomUpAll(f: RfExpr -> RfExpr, es: seq<RfExpr>): (rs: seq<RfExpr>)
    ensures |rs| == |es|
    ensures forall i {:trigger rs[i]} {:trigger es[i]} :: 0 <= i < |es| ==> rs[i] == BottomUp(f, es[i])
  {
    if es == [] then [] else [BottomUp(f, es[0])] + BottomUpAll(f, es[1..])
  }

  /** FindExpandQuantifier, as a function. */
  function Expanded(e: RfExpr): RfExpr {
    BottomUp(ExpandTop, e)
  }

  /** Every quantifier has one body, which is Boolean if the quantifier has no bits. */
  ghost predicate Typed(I: Interp, e: RfExpr) {
    e.RfOp? ==>
      && (IsQuantifier(e.op) ==> |e.children| == 1 && (e.op.width == 0 ==> Boolean(I, e.children[0])))
      && forall i {:trigger e.children[i]} :: 0 <= i < |e.children| ==> Typed(I, e.children[i])
  }

  /** Expansion keeps the value in every environment, whatever is nested or shadowed. */
  lemma {:induction false} ExpandedMeaning(I: Interp, e: RfExpr, env: Env)
    requires Typed(I, e)
    ensures Eval(I, Expanded(e), env) == Eval(I, e, env)
    decreases e
  {
    if e.RfOp? {
      var cs := BottomUpAll(ExpandTop, e.children);
      var n := RfOp(e.op, cs);
      forall i, a: Env | 0 <= i < |cs| ensures Eval(I, cs[i], a) == Eval(I, e.children[i], a) {
        assert cs[i] == Expanded(e.children[i]);
        ExpandedMeaning(I, e.children[i], a);
      }
      if IsQuantifier(e.op) {
        assert e.op.width == 0 ==> Boolean(I, cs[0]);
        ExpandTopMeaning(I, n, env);
      }
      SameChildren(I, e.op, cs, e.children, env);
    }
  }

  lemma SameChildren(I: Interp, op: Op, a: seq<RfExpr>, b: seq<RfExpr>, env: Env)
    requires |a| == |b| && forall i, c: Env {:trigger Eval(I, a[i], c)} :: 0 <= i < |a| ==> Eval(I, a[i], c) == Eval(I, b[i], c)
    ensures Eval(I, RfOp(op, a), env) == Eval(I, RfOp(op, b), env)
  {
    assert EvalAll(I, a, env) == EvalAll(I, b, env);
  }

  lemma {:induction false} ExpandedIsFree(e: RfExpr)
    requires OneBody(e)
    ensures QuantifierFree(Expanded(e))
    decreases e
  {
    if e.RfOp? {
      var cs := BottomUpAll(ExpandTop, e.children);
      forall i | 0 <= i < |cs| ensures QuantifierFree(cs[i]) {
        ExpandedIsFree(e.children[i]);
      }
      if IsQuantifier(e.op) {
        InstancesFree(e.op, cs[0], Pow2(e.op.width));
      }
    }
  }

  predicate OneBody(e: RfExpr) {
    e.RfOp? ==>
      && (IsQuantifier(e.op) ==> |e.children| == 1)
      && forall i {:trigger e.children[i]} :: 0 <= i < |e.children| ==> OneBody(e.children[i])
  }

  // ---------- the two-stack loop ----------

  /** A node on the parent stack with the number of its children that are done. */
  datatype Frame = Frame(e: RfExpr, idx: nat)

  function Children(e: RfExpr): seq<RfExpr> {
    if e.RfOp? then e.children else []
  }

  function MakeCopyWithNewChild(e: RfExpr, cs: seq<RfExpr>): RfExpr {
    if e.RfOp? then RfOp(e.op, cs) else e
  }

  lemma BottomUpCopy(f: RfExpr -> RfExpr, e: RfExpr)
    ensures BottomUp(f, e) == f(MakeCopyWithNewChild(e, BottomUpAll(f, Children(e))))
  {
  }

  /** Loop rounds that a node takes: one for leaving it, and for every child one for entering it. */
  function Rounds(e: RfExpr): nat {
    1 + (if e.RfOp? then RoundsOf(e.children) else 0)
  }

  function RoundsOf(es: seq<RfExpr>): nat {
    if es == [] then 0 else 1 + Rounds(es[0]) + RoundsOf(es[1..])
  }

  /** Rounds left when the top node is at child idx and the nodes below wait for theirs. */
  function Left(stack: seq<Frame>): nat
    requires forall k {:trigger stack[k]} :: 0 <= k < |stack| ==> stack[k].idx <= |Children(stack[k].e)|
  {
    if stack == [] then 0
    else
      var top := stack[|stack| - 1];
      1 + RoundsOf(Children(top.e)[top.idx..]) + Waiting(stack[..|stack| - 1])
  }

  function Waiting(stack: seq<Frame>): nat
    requires forall k {:trigger stack[k]} :: 0 <= k < |stack| ==> stack[k].idx <= |Children(stack[k].e)|
  {
    if stack == [] then 0
    else
      var top := stack[|stack| - 1];
      var rest := if top.idx < |Children(top.e)| then Children(top.e)[top.idx + 1..] else [];
      1 + RoundsOf(rest) + Waiting(stack[..|stack| - 1])
  }

  /** The parent stack is a path from the root; the child stack holds, level by level, the results of
      the children that are done. */
  ghost predicate Path(root: RfExpr, ps: seq<Frame>) {
    && (|ps| > 0 ==> ps[0].e == root)
    && (forall k {:trigger ps[k]} :: 0 <= k < |ps| ==> ps[k].idx <= |Children(ps[k].e)|)
    && (forall k: nat :: 0 < k < |ps| ==> ChildOf(ps, k))
  }

  /** Node k is the child its parent is waiting for. */
  ghost predicate ChildOf(ps: seq<Frame>, k: nat)
    requires 0 < k < |ps|
  {
    var p := ps[k - 1];
    p.idx < |Children(p.e)| && ps[k].e == Children(p.e)[p.idx]
  }

  ghost predicate Results(f: RfExpr -> RfExpr, root: RfExpr, ps: seq<Frame>, cs: seq<seq<RfExpr>>) {
    && |cs| == |ps| + 1
    && cs[0] == (if ps == [] then [BottomUp(f, root)] else [])
    && forall k: nat :: k < |ps| ==> ResultsAt(f, ps, cs, k)
  }

  ghost predicate ResultsAt(f: RfExpr -> RfExpr, ps: seq<Frame>, cs: seq<seq<RfExpr>>, k: nat)
    requires k < |ps| && |cs| == |ps| + 1
  {
    ps[k].idx <= |Children(ps[k].e)| && cs[k + 1] == BottomUpAll(f, Children(ps[k].e)[..ps[k].idx])
  }

  lemma {:induction false} BottomUpAllPush(f: RfExpr -> RfExpr, es: seq<RfExpr>, n: nat)
    requires n < |es|
    ensures BottomUpAll(f, es[..n + 1]) == BottomUpAll(f, es[..n]) + [BottomUp(f, es[n])]
  {
    var a, b := BottomUpAll(f, es[..n + 1]), BottomUpAll(f, es[..n]) + [BottomUp(f, es[n])];
    forall i: nat | i < n + 1 ensures a[i] == b[i] {
      if i < n { assert es[..n + 1][i] == es[..n][i]; }
    }
  }

  lemma LeftDrops(ps: seq<Frame>, child: RfExpr)
    requires ps != [] && forall k {:trigger ps[k]} :: 0 <= k < |ps| ==> ps[k].idx <= |Children(ps[k].e)|
    requires
      var top := ps[|ps| - 1];
      top.idx < |Children(top.e)| && child == Children(top.e)[top.idx]
    ensures Left(ps + [Frame(child, 0)]) < Left(ps)
  {
    var next := ps + [Frame(child, 0)];
    var top, below := ps[|ps| - 1], ps[..|ps| - 1];
    assert next[..|next| - 1] == ps && next[|next| - 1] == Frame(child, 0);
    assert Children(child)[0..] == Children(child);
    assert Left(next) == 1 + RoundsOf(Children(child)) + Waiting(ps);
    var kids, rest := Children(top.e)[top.idx..], Children(top.e)[top.idx + 1..];
    assert kids[0] == child && kids[1..] == rest;
    assert RoundsOf(kids) == 1 + Rounds(child) + RoundsOf(rest);
    assert Waiting(ps) == 1 + RoundsOf(rest) + Waiting(below);
    assert Rounds(child) == 1 + RoundsOf(Children(child));
  }

  /** Entering the next child of the top node. */
  lemma Entered(f: RfExpr -> RfExpr, root: RfExpr, ps: seq<Frame>, cs: seq<seq<RfExpr>>, child: RfExpr)
    requires Path(root, ps) && Results(f, root, ps, cs) && ps != []
    requires
      var top := ps[|ps| - 1];
      top.idx < |Children(top.e)| && child == Children(top.e)[top.idx]
    ensures Path(root, ps + [Frame(child, 0)]) && Results(f, root, ps + [Frame(child, 0)], cs + [[]])
  {
    var ps', cs' := ps + [Frame(child, 0)], cs + [[]];
    forall k: nat | 0 < k < |ps'| ensures ChildOf(ps', k) {
      if k < |ps| { assert ChildOf(ps, k); }
    }
    forall k: nat | k < |ps'| ensures ResultsAt(f, ps', cs', k) {
      if k < |ps| { assert ResultsAt(f, ps, cs, k); }
    }
  }

  /** The parent stack after the top node is left. */
  function Popped(ps: seq<Frame>): seq<Frame>
    requires ps != []
  {
    var below := ps[..|ps| - 1];
    if below == [] then []
    else below[..|below| - 1] + [below[|below| - 1].(idx := below[|below| - 1].idx + 1)]
  }

  function PoppedResults(cs: seq<seq<RfExpr>>, node: RfExpr): seq<seq<RfExpr>>
    requires |cs| >= 2
  {
    cs[..|cs| - 2] + [cs[|cs| - 2] + [node]]
  }

  /** Leaving the top node: its result goes to the level of its siblings. */
  lemma Leaving(f: RfExpr -> RfExpr, root: RfExpr, ps: seq<Frame>, cs: seq<seq<RfExpr>>, node: RfExpr)
    requires Path(root, ps) && Results(f, root, ps, cs) && ps != []
    requires
      var top := ps[|ps| - 1];
      top.idx == |Children(top.e)| && node == BottomUp(f, top.e)
    ensures Path(root, Popped(ps)) && Results(f, root, Popped(ps), PoppedResults(cs, node))
  {
    if |ps| > 1 {
      LeavingPath(root, ps);
      LeavingResults(f, root, ps, cs, node);
    }
  }

  lemma LeavingPath(root: RfExpr, ps: seq<Frame>)
    requires Path(root, ps) && |ps| > 1
    ensures Path(root, Popped(ps))
  {
    var ps' := Popped(ps);
    var n: nat := |ps| - 2;
    assert ChildOf(ps, n + 1);
    assert ps'[n] == Frame(ps[n].e, ps[n].idx + 1);
    assert forall k :: 0 <= k < n ==> ps'[k] == ps[k];
    forall k: nat | 0 < k < |ps'| ensures ChildOf(ps', k) {
      assert ChildOf(ps, k);
    }
  }

  lemma LeavingResults(f: RfExpr -> RfExpr, root: RfExpr, ps: seq<Frame>, cs: seq<seq<RfExpr>>, node: RfExpr)
    requires Path(root, ps) && Results(f, root, ps, cs) && |ps| > 1 && node == BottomUp(f, ps[|ps| - 1].e)
    ensures Results(f, root, Popped(ps), PoppedResults(cs, node))
  {
    var ps', cs' := Popped(ps), PoppedResults(cs, node);
    var n: nat := |ps| - 2;
    var p := ps[n];
    assert ChildOf(ps, n + 1);
    assert ResultsAt(f, ps, cs, n);
    BottomUpAllPush(f, Children(p.e), p.idx);
    assert ps'[n] == Frame(p.e, p.idx + 1);
    forall k: nat | k < |ps'| ensures ResultsAt(f, ps', cs', k) {
      if k < n { assert ps'[k] == ps[k] && ResultsAt(f, ps, cs, k); }
    }
  }

  lemma LeavingDrops(root: RfExpr, ps: seq<Frame>)
    requires Path(root, ps) && ps != [] && ps[|ps| - 1].idx == |Children(ps[|ps| - 1].e)|
    requires forall k {:trigger Popped(ps)[k]} :: 0 <= k < |Popped(ps)| ==> Popped(ps)[k].idx <= |Children(Popped(ps)[k].e)|
    ensures Left(Popped(ps)) < Left(ps)
  {
    var top := ps[|ps| - 1];
    assert Children(top.e)[top.idx..] == [];
    if |ps| > 1 {
      var below, ps' := ps[..|ps| - 1], Popped(ps);
      var n: nat := |ps| - 2;
      assert ChildOf(ps, n + 1);
      assert ps'[..|ps'| - 1] == below[..|below| - 1];
      assert ps'[|ps'| - 1] == Frame(ps[n].e, ps[n].idx + 1);
    }
  }

  /** The loop over the two stacks ends, and computes the bottom-up application of the function. */
  method TraverseRfExpr(root: RfExpr, f: RfExpr -> RfExpr) returns (r: RfExpr)
    ensures r == BottomUp(f, root)
  {
    var childStack: seq<seq<RfExpr>> := [[], []];
    var parentStack := [Frame(root, 0)];
    while parentStack != []
      invariant Path(root, parentStack) && Results(f, root, parentStack, childStack)
      decreases Left(parentStack)
    {
      var last := parentStack[|parentStack| - 1];
      var kids := Children(last.e);
      if last.idx >= |kids| {
        var newC := MakeCopyWithNewChild(last.e, childStack[|childStack| - 1]);
        var newNode := f(newC);
        assert ResultsAt(f, parentStack, childStack, |parentStack| - 1);
        assert kids[..last.idx] == kids;
        BottomUpCopy(f, last.e);
        Leaving(f, root, parentStack, childStack, newNode);
        LeavingDrops(root, parentStack);
        childStack := PoppedResults(childStack, newNode);
        parentStack := Popped(parentStack);
      } else {
        Entered(f, root, parentStack, childStack, kids[last.idx]);
        LeftDrops(parentStack, kids[last.idx]);
        parentStack := parentStack + [Frame(kids[last.idx], 0)];
        childStack := childStack + [[]];
      }
    }
    r := childStack[0][0];
  }

  /** Expand all quantifiers: none is left, and the value is the same in every environment. */
  method FindExpandQuantifier(e: RfExpr) returns (r: RfExpr)
    requires OneBody(e)
    ensures QuantifierFree(r)
    ensures forall I: Interp, env: Env :: Typed(I, e) ==> Eval(I, r, env) == Eval(I, e, env)
  {
    r := TraverseRfExpr(e, ExpandTop);
    ExpandedIsFree(e);
    forall I: Interp, env: Env | Typed(I, e) ensures Eval(I, r, env) == Eval(I, e, env) {
      ExpandedMeaning(I, e, env);
    }
  }
}
