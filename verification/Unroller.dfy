/** The unroller: it keeps tables of translated expressions and pushes constraints step by step.
    Each unrolling method returns a term that is true exactly in its encoding's models. */
module Unrollers {
  import opened Ast
  import opened Ila
  import opened Frames
  import opened Unrolling

  // ---------- lists of terms ----------

  ghost predicate Hold(I: Interp, zs: seq<Term>, A: Assignment) {
    forall i {:trigger zs[i]} :: 0 <= i < |zs| ==> True(I, zs[i], A)
  }

  ghost predicate EqualTo(I: Interp, zs: seq<Term>, vars: seq<string>, f: Suffix, A: Assignment)
    requires |zs| == |vars|
  {
    forall v {:trigger vars[v]} :: 0 <= v < |vars| ==> A(vars[v], f) == Meaning(I, zs[v], A)
  }

  /** A frame as it is seen through a substitution. */
  ghost function Through(I: Interp, A: Assignment, src: seq<Term>, dst: seq<Term>, f: Suffix): Env
    requires |src| == |dst|
  {
    Frame(Updated(I, A, src, dst), f)
  }

  function Vars(xs: seq<string>): (es: seq<Expr>)
    ensures |es| == |xs|
    ensures forall i :: 0 <= i < |xs| ==> es[i] == Var(xs[i])
  {
    seq(|xs|, i requires 0 <= i < |xs| => Var(xs[i]))
  }

  lemma HoldPush(I: Interp, zs: seq<Term>, z: Term, A: Assignment)
    ensures Hold(I, zs + [z], A) <==> Hold(I, zs, A) && True(I, z, A)
  {
    var all := zs + [z];
    if Hold(I, all, A) {
      forall i | 0 <= i < |zs| ensures True(I, zs[i], A) { assert all[i] == zs[i]; }
      assert all[|zs|] == z;
    }
  }

  lemma AllTruePush(I: Interp, es: seq<Expr>, e: Expr, env: Env)
    ensures AllTrue(I, es + [e], env) <==> AllTrue(I, es, env) && Truth(Eval(I, e, env))
  {
    var all := es + [e];
    if AllTrue(I, all, env) {
      forall i | 0 <= i < |es| ensures Truth(Eval(I, es[i], env)) { assert all[i] == es[i]; }
      assert all[|es|] == e;
    }
  }

  lemma EqualTerm(I: Interp, z: Term, x: string, f: Suffix, A: Assignment)
    ensures True(I, TApp(kEqual, [z, TVar(x, f)], []), A) <==> A(x, f) == Meaning(I, z, A)
  {
    var vs := MeaningAll(I, [z, TVar(x, f)], A);
    assert vs[0] == Meaning(I, z, A) && vs[1] == Meaning(I, TVar(x, f), A);
  }

  lemma AndTerm(I: Interp, a: Term, b: Term, A: Assignment)
    ensures True(I, TApp(kAnd, [a, b], []), A) <==> True(I, a, A) && True(I, b, A)
  {
    var vs := MeaningAll(I, [a, b], A);
    assert vs[0] == Meaning(I, a, A) && vs[1] == Meaning(I, b, A);
  }

  lemma SubstitutedMeaning(I: Interp, e: Expr, f: Suffix, src: seq<Term>, dst: seq<Term>, A: Assignment)
    requires |src| == |dst|
    ensures Meaning(I, Substitute(GetExpr(e, f), src, dst), A) == Eval(I, e, Through(I, A, src, dst, f))
  {
    SubstituteMeaning(I, GetExpr(e, f), src, dst, A);
    GetExprMeaning(I, e, f, Updated(I, A, src, dst));
  }

  // ---------- building lists of constraints ----------

  /** `c1` holds when `c0` does and the expressions are true in the frame. */
  ghost predicate Adds(c0: seq<Term>, es: seq<Expr>, f: Suffix, c1: seq<Term>) {
    forall I: Interp, A: Assignment :: Hold(I, c1, A) <==> Hold(I, c0, A) && AllTrue(I, es, Frame(A, f))
  }

  ghost predicate AddsEqual(c0: seq<Term>, a: seq<Term>, vars: seq<string>, f: Suffix, c1: seq<Term>)
    requires |a| == |vars|
  {
    forall I: Interp, A: Assignment :: Hold(I, c1, A) <==> Hold(I, c0, A) && EqualTo(I, a, vars, f, A)
  }

  ghost predicate AddsThrough(c0: seq<Term>, es: seq<Expr>, src: seq<Term>, dst: seq<Term>, f: Suffix, c1: seq<Term>)
    requires |src| == |dst|
  {
    forall I: Interp, A: Assignment :: Hold(I, c1, A) <==> Hold(I, c0, A) && AllTrue(I, es, Through(I, A, src, dst, f))
  }

  /** The expressions, translated to the frame, are appended to `dst`. */
  method IExprToZExpr(src: seq<Expr>, f: Suffix, dst: seq<Term>) returns (r: seq<Term>)
    ensures forall I: Interp, A: Assignment :: Hold(I, r, A) <==> Hold(I, dst, A) && AllTrue(I, src, Frame(A, f))
    ensures |r| == |dst| + |src|
    ensures forall i :: 0 <= i < |src| ==> r[|dst| + i] == GetExpr(src[i], f)
  {
    r := dst;
    var i := 0;
    while i < |src|
      invariant 0 <= i <= |src| && |r| == |dst| + i
      invariant forall j :: 0 <= j < i ==> r[|dst| + j] == GetExpr(src[j], f)
      invariant forall I: Interp, A: Assignment ::
                  Hold(I, r, A) <==> Hold(I, dst, A) && AllTrue(I, src[..i], Frame(A, f))
    {
      var zExpr := GetExpr(src[i], f);
      forall I: Interp, A: Assignment
        ensures Hold(I, r + [zExpr], A) <==> Hold(I, dst, A) && AllTrue(I, src[..i + 1], Frame(A, f))
      {
        HoldPush(I, r, zExpr, A);
        AllTruePush(I, src[..i], src[i], Frame(A, f));
        assert src[..i + 1] == src[..i] + [src[i]];
        GetExprMeaning(I, src[i], f, A);
      }
      r := r + [zExpr];
      i := i + 1;
    }
    assert src[..i] == src;
  }

  /** The same with the translated expressions rewritten by a substitution. */
  method IExprToZExprSubst(src: seq<Expr>, f: Suffix, dst: seq<Term>, subsSrc: seq<Term>, subsDst: seq<Term>)
    returns (r: seq<Term>)
    requires |subsSrc| == |subsDst|
    ensures forall I: Interp, A: Assignment ::
              Hold(I, r, A) <==> Hold(I, dst, A) && AllTrue(I, src, Through(I, A, subsSrc, subsDst, f))
    ensures |r| == |dst| + |src|
    ensures forall i :: 0 <= i < |src| ==> r[|dst| + i] == Substitute(GetExpr(src[i], f), subsSrc, subsDst)
  {
    r := dst;
    var i := 0;
    while i < |src|
      invariant 0 <= i <= |src| && |r| == |dst| + i
      invariant forall j :: 0 <= j < i ==> r[|dst| + j] == Substitute(GetExpr(src[j], f), subsSrc, subsDst)
      invariant forall I: Interp, A: Assignment ::
                  Hold(I, r, A) <==> Hold(I, dst, A) && AllTrue(I, src[..i], Through(I, A, subsSrc, subsDst, f))
    {
      var zExpr := GetExpr(src[i], f);
      var zSubs := Substitute(zExpr, subsSrc, subsDst);
      forall I: Interp, A: Assignment
        ensures Hold(I, r + [zSubs], A) <==>
                Hold(I, dst, A) && AllTrue(I, src[..i + 1], Through(I, A, subsSrc, subsDst, f))
      {
        HoldPush(I, r, zSubs, A);
        AllTruePush(I, src[..i], src[i], Through(I, A, subsSrc, subsDst, f));
        assert src[..i + 1] == src[..i] + [src[i]];
        SubstitutedMeaning(I, src[i], f, subsSrc, subsDst, A);
      }
      r := r + [zSubs];
      i := i + 1;
    }
    assert src[..i] == src;
  }

  /** The same for an empty destination: a table of translated expressions. */
  method Translate(src: seq<Expr>, f: Suffix) returns (r: seq<Term>)
    ensures |r| == |src| && forall i :: 0 <= i < |src| ==> r[i] == GetExpr(src[i], f)
  {
    var none: seq<Term> := [];
    r := IExprToZExpr(src, f, none);
    forall i | 0 <= i < |src| ensures r[i] == GetExpr(src[i], f) {
      assert r[|none| + i] == GetExpr(src[i], f);
    }
  }

  method TranslateSubst(src: seq<Expr>, f: Suffix, subsSrc: seq<Term>, subsDst: seq<Term>) returns (r: seq<Term>)
    requires |subsSrc| == |subsDst|
    ensures |r| == |src| && forall i :: 0 <= i < |src| ==> r[i] == Substitute(GetExpr(src[i], f), subsSrc, subsDst)
  {
    var none: seq<Term> := [];
    r := IExprToZExprSubst(src, f, none, subsSrc, subsDst);
    forall i | 0 <= i < |src| ensures r[i] == Substitute(GetExpr(src[i], f), subsSrc, subsDst) {
      assert r[|none| + i] == Substitute(GetExpr(src[i], f), subsSrc, subsDst);
    }
  }

  /** The translated expressions are appended to the constraints. */
  method AssertAll(src: seq<Expr>, f: Suffix, cstr: seq<Term>) returns (r: seq<Term>)
    ensures Adds(cstr, src, f, r)
  {
    r := IExprToZExpr(src, f, cstr);
  }

  method AssertAllSubst(src: seq<Expr>, f: Suffix, cstr: seq<Term>, subsSrc: seq<Term>, subsDst: seq<Term>)
    returns (r: seq<Term>)
    requires |subsSrc| == |subsDst|
    ensures AddsThrough(cstr, src, subsSrc, subsDst, f, r)
  {
    r := IExprToZExprSubst(src, f, cstr, subsSrc, subsDst);
  }

  /** The equations of the terms with the state variables of a frame are appended to `dst`. */
  method AssertEqual(a: seq<Term>, vars: seq<string>, f: Suffix, dst: seq<Term>) returns (r: seq<Term>)
    requires |a| == |vars|
    ensures AddsEqual(dst, a, vars, f, r)
  {
    r := dst;
    var i := 0;
    while i < |a|
      invariant 0 <= i <= |a|
      invariant forall I: Interp, A: Assignment ::
                  Hold(I, r, A) <==> Hold(I, dst, A) && EqualTo(I, a[..i], vars[..i], f, A)
    {
      var equal := TApp(kEqual, [a[i], GetExpr(Var(vars[i]), f)], []);
      forall I: Interp, A: Assignment
        ensures Hold(I, r + [equal], A) <==> Hold(I, dst, A) && EqualTo(I, a[..i + 1], vars[..i + 1], f, A)
      {
        HoldPush(I, r, equal, A);
        EqualTerm(I, a[i], vars[i], f, A);
        EqualToPush(I, a, vars, f, A, i);
      }
      r := r + [equal];
      i := i + 1;
    }
    assert a[..i] == a && vars[..i] == vars;
  }

  lemma EqualToPush(I: Interp, a: seq<Term>, vars: seq<string>, f: Suffix, A: Assignment, i: nat)
    requires |a| == |vars| && i < |a|
    ensures EqualTo(I, a[..i + 1], vars[..i + 1], f, A) <==>
            EqualTo(I, a[..i], vars[..i], f, A) && A(vars[i], f) == Meaning(I, a[i], A)
  {
    if EqualTo(I, a[..i + 1], vars[..i + 1], f, A) {
      forall v | 0 <= v < i ensures A(vars[..i][v], f) == Meaning(I, a[..i][v], A) {
        assert vars[..i + 1][v] == vars[..i][v];
      }
      assert vars[..i + 1][i] == vars[i];
    }
    if EqualTo(I, a[..i], vars[..i], f, A) && A(vars[i], f) == Meaning(I, a[i], A) {
      forall v {:trigger vars[..i + 1][v]} | 0 <= v < i + 1
        ensures A(vars[..i + 1][v], f) == Meaning(I, a[..i + 1][v], A)
      {
        if v < i { assert vars[..i + 1][v] == vars[..i][v]; }
      }
    }
  }

  method ConjPred(vec: seq<Term>) returns (conj: Term)
    ensures forall I: Interp, A: Assignment :: True(I, conj, A) <==> Hold(I, vec, A)
  {
    conj := TConst(BoolL(true));
    var i := 0;
    while i < |vec|
      invariant 0 <= i <= |vec|
      invariant forall I: Interp, A: Assignment :: True(I, conj, A) <==> Hold(I, vec[..i], A)
    {
      var longer := TApp(kAnd, [conj, vec[i]], []);
      forall I: Interp, A: Assignment
        ensures True(I, longer, A) <==> Hold(I, vec[..i + 1], A)
      {
        assert vec[..i + 1] == vec[..i] + [vec[i]];
        HoldPush(I, vec[..i], vec[i], A);
        AndTerm(I, conj, vec[i], A);
      }
      conj := longer;
      i := i + 1;
    }
    assert vec[..i] == vec;
  }

  // ---------- what the tables mean ----------

  function InitExprs(P: Problem, i: nat): seq<Expr> {
    if i == 0 then P.init else []
  }

  /** Equating the translated next-state functions with a frame is the transition into it. */
  lemma EqualToMoves(P: Problem, i: nat, f: Suffix, g: Suffix, zs: seq<Term>)
    requires Long(P, i + 1) && |zs| == |P.vars|
    requires forall v :: 0 <= v < |zs| ==> zs[v] == GetExpr(NextOf(P.target, P.vars, i)[v], f)
    ensures forall I: Interp, A: Assignment ::
              EqualTo(I, zs, P.vars, g, A) <==> Moves(I, P, Frame(A, f), Frame(A, g), i)
  {
    forall I: Interp, A: Assignment
      ensures EqualTo(I, zs, P.vars, g, A) <==> Moves(I, P, Frame(A, f), Frame(A, g), i)
    {
      forall v | 0 <= v < |zs|
        ensures Meaning(I, zs[v], A) == Eval(I, NextOf(P.target, P.vars, i)[v], Frame(A, f))
      {
        GetExprMeaning(I, NextOf(P.target, P.vars, i)[v], f, A);
      }
    }
  }

  /** The replacements of the state variables have the values of the substituted frame. */
  ghost predicate Replaces(I: Interp, P: Problem, A: Assignment, tag: string, pos: int, i: nat, dst: seq<Term>)
    requires Long(P, i)
  {
    && |dst| == |P.vars|
    && forall v {:trigger dst[v]} :: 0 <= v < |P.vars| ==>
         Meaning(I, dst[v], A) == SubsFrame(I, P, A, tag, pos, i)(P.vars[v])
  }

  ghost predicate AlwaysReplaces(P: Problem, tag: string, pos: int, i: nat, dst: seq<Term>)
    requires Long(P, i)
  {
    |dst| == |P.vars| && forall I: Interp, A: Assignment :: Replaces(I, P, A, tag, pos, i, dst)
  }

  lemma IndexOfVar(src: seq<Term>, xs: seq<string>, f: Suffix, x: string)
    requires |src| == |xs| && forall j :: 0 <= j < |xs| ==> src[j] == TVar(xs[j], f)
    ensures IndexOf(src, x, f) == Position(xs, x)
  {
    var k := IndexOf(src, x, f);
    if k < |xs| { assert xs[k] == x; }
    assert forall j :: 0 <= j < k ==> src[j] != TVar(x, f);
  }

  /** Seen through the substitution, a frame is the substituted frame. */
  lemma ThroughIsSubsFrame(I: Interp, P: Problem, A: Assignment, tag: string, pos: int, i: nat,
                           src: seq<Term>, dst: seq<Term>)
    requires Long(P, i) && |src| == |P.vars| && Replaces(I, P, A, tag, pos, i, dst)
    requires forall j :: 0 <= j < |src| ==> src[j] == TVar(P.vars[j], Curr(pos + i, tag))
    ensures forall x :: Through(I, A, src, dst, Curr(pos + i, tag))(x) == SubsFrame(I, P, A, tag, pos, i)(x)
  {
    var f := Curr(pos + i, tag);
    forall x ensures Through(I, A, src, dst, f)(x) == SubsFrame(I, P, A, tag, pos, i)(x) {
      IndexOfVar(src, P.vars, f, x);
    }
  }

  lemma AllTrueAgrees(I: Interp, es: seq<Expr>, a: Env, b: Env)
    requires forall x :: a(x) == b(x)
    ensures AllTrue(I, es, a) <==> AllTrue(I, es, b)
  {
    forall i | 0 <= i < |es| ensures Eval(I, es[i], a) == Eval(I, es[i], b) {
      EvalSame(I, es[i], a, b);
    }
  }

  lemma NextReplaces(P: Problem, tag: string, pos: int, i: nat, src: seq<Term>, dst: seq<Term>, next: seq<Term>)
    requires Long(P, i + 1) && Distinct(P.vars) && |src| == |P.vars| == |next| && AlwaysReplaces(P, tag, pos, i, dst)
    requires forall j :: 0 <= j < |src| ==> src[j] == TVar(P.vars[j], Curr(pos + i, tag))
    requires forall v :: 0 <= v < |next| ==>
               next[v] == Substitute(GetExpr(NextOf(P.target, P.vars, i)[v], Curr(pos + i, tag)), src, dst)
    ensures AlwaysReplaces(P, tag, pos, i + 1, next)
  {
    var f := Curr(pos + i, tag);
    var j: nat := i + 1;
    forall I: Interp, A: Assignment
      ensures Replaces(I, P, A, tag, pos, j, next)
    {
      assert Replaces(I, P, A, tag, pos, i, dst);
      ThroughIsSubsFrame(I, P, A, tag, pos, i, src, dst);
      var fr := SubsFrame(I, P, A, tag, pos, i);
      forall v | 0 <= v < |P.vars|
        ensures Meaning(I, next[v], A) == SubsFrame(I, P, A, tag, pos, j)(P.vars[v])
      {
        var e := NextOf(P.target, P.vars, i)[v];
        SubstitutedMeaning(I, e, f, src, dst, A);
        EvalSame(I, e, Through(I, A, src, dst, f), fr);
        assert Position(P.vars, P.vars[v]) == v;
      }
    }
  }

  lemma StartReplaces(P: Problem, tag: string, pos: int, zs: seq<Term>)
    requires |zs| == |P.vars| && forall v :: 0 <= v < |zs| ==> zs[v] == TVar(P.vars[v], Curr(pos, tag))
    ensures AlwaysReplaces(P, tag, pos, 0, zs) && SubsBuilt(P, tag, pos, 0, [])
  {
  }

  lemma EqualToSame(P: Problem, tag: string, pos: int, len: nat, dst: seq<Term>)
    requires Long(P, len) && AlwaysReplaces(P, tag, pos, len, dst)
    ensures forall I: Interp, A: Assignment ::
              EqualTo(I, dst, P.vars, Curr(len, tag), A) <==>
              SameStates(P.vars, SubsFrame(I, P, A, tag, pos, len), Frame(A, Curr(len, tag)))
  {
    forall I: Interp, A: Assignment {:trigger EqualTo(I, dst, P.vars, Curr(len, tag), A)}
      ensures EqualTo(I, dst, P.vars, Curr(len, tag), A) <==>
              SameStates(P.vars, SubsFrame(I, P, A, tag, pos, len), Frame(A, Curr(len, tag)))
    {
      assert Replaces(I, P, A, tag, pos, len, dst);
      forall v | 0 <= v < |dst|
        ensures Meaning(I, dst[v], A) == SubsFrame(I, P, A, tag, pos, len)(P.vars[v])
      {
      }
    }
  }

  // ---------- one round of each loop ----------

  lemma StepAdded(P: Problem, i: nat, f: Suffix, g: Suffix, c0: seq<Term>, c1: seq<Term>, c2: seq<Term>,
                  c3: seq<Term>, c4: seq<Term>, c5: seq<Term>, next: seq<Term>)
    requires Long(P, i + 1) && |next| == |P.vars|
    requires Adds(c0, InitExprs(P, i), f, c1) && Adds(c1, P.glob, f, c2) && AddsEqual(c4, next, P.vars, g, c5)
    requires
      || (Adds(c2, StepExprs(P.step, i), f, c3) && Adds(c3, PredOf(P.target, P.vars, i), f, c4))
      || (Adds(c2, PredOf(P.target, P.vars, i), f, c3) && Adds(c3, StepExprs(P.step, i), f, c4))
    requires forall v :: 0 <= v < |next| ==> next[v] == GetExpr(NextOf(P.target, P.vars, i)[v], f)
    ensures forall I: Interp, A: Assignment ::
              Hold(I, c5, A) <==>
              Hold(I, c0, A) && StepPreds(I, P, Frame(A, f), i) && Moves(I, P, Frame(A, f), Frame(A, g), i)
  {
    EqualToMoves(P, i, f, g, next);
    assert forall I: Interp, A: Assignment ::
      Hold(I, c4, A) <==> Hold(I, c0, A) && StepPreds(I, P, Frame(A, f), i);
  }

  lemma SubsAdded(P: Problem, tag: string, pos: int, i: nat, src: seq<Term>, dst: seq<Term>,
                  c0: seq<Term>, c1: seq<Term>, c2: seq<Term>, c3: seq<Term>, c4: seq<Term>)
    requires Long(P, i + 1) && |src| == |P.vars| && AlwaysReplaces(P, tag, pos, i, dst)
    requires forall j :: 0 <= j < |src| ==> src[j] == TVar(P.vars[j], Curr(pos + i, tag))
    requires
      var f := Curr(pos + i, tag);
      && AddsThrough(c0, InitExprs(P, i), src, dst, f, c1)
      && AddsThrough(c1, P.glob, src, dst, f, c2)
      && AddsThrough(c2, PredOf(P.target, P.vars, i), src, dst, f, c3)
      && AddsThrough(c3, StepExprs(P.step, i), src, dst, f, c4)
    ensures forall I: Interp, A: Assignment ::
              Hold(I, c4, A) <==> Hold(I, c0, A) && StepPreds(I, P, SubsFrame(I, P, A, tag, pos, i), i)
  {
    var f := Curr(pos + i, tag);
    forall I: Interp, A: Assignment
      ensures Hold(I, c4, A) <==> Hold(I, c0, A) && StepPreds(I, P, SubsFrame(I, P, A, tag, pos, i), i)
    {
      assert Replaces(I, P, A, tag, pos, i, dst);
      ThroughIsSubsFrame(I, P, A, tag, pos, i, src, dst);
      var env, fr := Through(I, A, src, dst, f), SubsFrame(I, P, A, tag, pos, i);
      AllTrueAgrees(I, InitExprs(P, i), env, fr);
      AllTrueAgrees(I, P.glob, env, fr);
      AllTrueAgrees(I, PredOf(P.target, P.vars, i), env, fr);
      AllTrueAgrees(I, StepExprs(P.step, i), env, fr);
      assert Hold(I, c3, A) <==>
        && Hold(I, c0, A) && AllTrue(I, InitExprs(P, i), env) && AllTrue(I, P.glob, env)
        && AllTrue(I, PredOf(P.target, P.vars, i), env);
    }
  }

  // ---------- how far the constraints are built ----------

  ghost predicate AssnBuilt(P: Problem, tag: string, pos: int, i: nat, c: seq<Term>)
    requires Long(P, i)
  {
    forall I: Interp, A: Assignment :: Hold(I, c, A) <==> AssnSteps(I, P, A, tag, pos, i)
  }

  ghost predicate NoneBuilt(P: Problem, tag: string, pos: int, i: nat, c: seq<Term>)
    requires Long(P, i)
  {
    forall I: Interp, A: Assignment :: Hold(I, c, A) <==> NoneModel(I, P, A, tag, i, pos)
  }

  ghost predicate SubsBuilt(P: Problem, tag: string, pos: int, i: nat, c: seq<Term>)
    requires Long(P, i)
  {
    forall I: Interp, A: Assignment :: Hold(I, c, A) <==> SubsSteps(I, P, A, tag, pos, i)
  }

  /** Both parts of the substituting loop's invariant. */
  ghost predicate SubsReached(P: Problem, tag: string, pos: int, i: nat, dst: seq<Term>, c: seq<Term>)
    requires Long(P, i)
  {
    AlwaysReplaces(P, tag, pos, i, dst) && SubsBuilt(P, tag, pos, i, c)
  }

  lemma AssnExtended(P: Problem, tag: string, pos: int, i: nat, c0: seq<Term>, c1: seq<Term>)
    requires Long(P, i + 1) && AssnBuilt(P, tag, pos, i, c0)
    requires
      var f, g := Curr(pos + i, tag), Curr(pos + i + 1, tag);
      forall I: Interp, A: Assignment ::
        Hold(I, c1, A) <==>
        Hold(I, c0, A) && StepPreds(I, P, Frame(A, f), i) && Moves(I, P, Frame(A, f), Frame(A, g), i)
    ensures AssnBuilt(P, tag, pos, i + 1, c1)
  {
    forall I: Interp, A: Assignment
      ensures Hold(I, c1, A) <==> AssnSteps(I, P, A, tag, pos, i + 1)
    {
      assert Hold(I, c1, A) <==> Hold(I, c0, A) && AssnStep(I, P, A, tag, pos, i);
      assert AssnSteps(I, P, A, tag, pos, i + 1) <==>
             AssnSteps(I, P, A, tag, pos, i) && AssnStep(I, P, A, tag, pos, i);
    }
  }

  lemma NoneExtended(P: Problem, tag: string, pos: int, i: nat, c0: seq<Term>, c1: seq<Term>)
    requires Long(P, i + 1) && NoneBuilt(P, tag, pos, i, c0)
    requires
      var f, g := Curr(pos + i, tag), Next(pos + i, tag);
      forall I: Interp, A: Assignment ::
        Hold(I, c1, A) <==>
        Hold(I, c0, A) && StepPreds(I, P, Frame(A, f), i) && Moves(I, P, Frame(A, f), Frame(A, g), i)
    ensures NoneBuilt(P, tag, pos, i + 1, c1)
  {
    forall I: Interp, A: Assignment
      ensures Hold(I, c1, A) <==> NoneModel(I, P, A, tag, i + 1, pos)
    {
      assert Hold(I, c1, A) <==> Hold(I, c0, A) && NoneStep(I, P, A, tag, pos, i);
      assert NoneModel(I, P, A, tag, i + 1, pos) <==>
             NoneModel(I, P, A, tag, i, pos) && NoneStep(I, P, A, tag, pos, i);
    }
  }

  lemma SubsExtended(P: Problem, tag: string, pos: int, i: nat, c0: seq<Term>, c1: seq<Term>)
    requires Long(P, i + 1) && SubsBuilt(P, tag, pos, i, c0)
    requires forall I: Interp, A: Assignment ::
               Hold(I, c1, A) <==> Hold(I, c0, A) && StepPreds(I, P, SubsFrame(I, P, A, tag, pos, i), i)
    ensures SubsBuilt(P, tag, pos, i + 1, c1)
  {
    forall I: Interp, A: Assignment
      ensures Hold(I, c1, A) <==> SubsSteps(I, P, A, tag, pos, i + 1)
    {
      assert Hold(I, c1, A) <==> Hold(I, c0, A) && StepPreds(I, P, SubsFrame(I, P, A, tag, pos, i), i);
      assert SubsSteps(I, P, A, tag, pos, i + 1) <==>
             SubsSteps(I, P, A, tag, pos, i) && StepPreds(I, P, SubsFrame(I, P, A, tag, pos, i), i);
    }
  }

  lemma EndAdded(P: Problem, tag: string, len: nat, c0: seq<Term>, c1: seq<Term>, c2: seq<Term>)
    requires Adds(c0, P.glob, Curr(len, tag), c1) && Adds(c1, StepExprs(P.step, len), Curr(len, tag), c2)
    ensures forall I: Interp, A: Assignment ::
              Hold(I, c2, A) <==> Hold(I, c0, A) && EndPreds(I, P, Frame(A, Curr(len, tag)), len)
  {
  }

  lemma AssnFinished(P: Problem, tag: string, pos: int, len: nat, c0: seq<Term>, c1: seq<Term>, c2: seq<Term>)
    requires Long(P, len) && AssnBuilt(P, tag, pos, len, c0)
    requires Adds(c0, P.glob, Curr(len, tag), c1) && Adds(c1, StepExprs(P.step, len), Curr(len, tag), c2)
    ensures forall I: Interp, A: Assignment :: Hold(I, c2, A) <==> AssnModel(I, P, A, tag, len, pos)
  {
    EndAdded(P, tag, len, c0, c1, c2);
  }

  lemma SubsFinished(P: Problem, tag: string, pos: int, len: nat, dst: seq<Term>,
                     c0: seq<Term>, c1: seq<Term>, c2: seq<Term>, c3: seq<Term>)
    requires Long(P, len) && AlwaysReplaces(P, tag, pos, len, dst) && SubsBuilt(P, tag, pos, len, c0)
    requires AddsEqual(c0, dst, P.vars, Curr(len, tag), c1)
    requires Adds(c1, P.glob, Curr(len, tag), c2) && Adds(c2, StepExprs(P.step, len), Curr(len, tag), c3)
    ensures forall I: Interp, A: Assignment :: Hold(I, c3, A) <==> SubsModel(I, P, A, tag, len, pos)
  {
    EqualToSame(P, tag, pos, len, dst);
    EndAdded(P, tag, len, c1, c2, c3);
  }

  lemma NothingAdded(c: seq<Term>, f: Suffix, src: seq<Term>, dst: seq<Term>)
    requires |src| == |dst|
    ensures Adds(c, [], f, c) && AddsThrough(c, [], src, dst, f, c)
  {
  }

  // ---------- the unroller ----------

  class Unroller {
    /** The extra suffix that keeps the variables of different unrollers apart. */
    const tag: string

    /** What is unrolled, and the states it depends on. */
    var target: Target
    var states: seq<string>
    var vars: seq<string>
    var kPred: seq<Expr>
    var kNext: seq<Expr>
    var gPred: seq<Expr>
    var iPred: seq<Expr>
    var sPred: map<int, seq<Expr>>
    var kPrevZ3: seq<Term>
    var kCurrZ3: seq<Term>
    var kNextZ3: seq<Term>
    var cstr: seq<Term>

    constructor (tag: string)
      ensures this.tag == tag
      ensures Goal() == Problem(Path([]), [], [], [], map[])
    {
      this.tag := tag;
      states := [];
      target, vars, kPred, kNext := Path([]), [], [], [];
      gPred, iPred, sPred := [], [], map[];
      kPrevZ3, kCurrZ3, kNextZ3, cstr := [], [], [], [];
    }

    /** What the next call unrolls. */
    ghost function Goal(): Problem
      reads this
    {
      Problem(target, states, gPred, iPred, sPred)
    }

    // ---------- predicates ----------

    method AddGlobPred(p: Expr)
      modifies this`gPred
      ensures Goal() == old(Goal()).(glob := old(gPred) + [p])
    {
      gPred := gPred + [p];
    }

    method AddInitPred(p: Expr)
      modifies this`iPred
      ensures Goal() == old(Goal()).(init := old(iPred) + [p])
    {
      iPred := iPred + [p];
    }

    method AddStepPred(p: Expr, k: int)
      modifies this`sPred
      ensures Goal() == old(Goal()).(step := old(sPred)[k := StepExprs(old(sPred), k) + [p]])
    {
      sPred := sPred[k := StepExprs(sPred, k) + [p]];
    }

    method ClearPred()
      modifies this`gPred, this`iPred, this`sPred
      ensures Goal() == old(Goal()).(glob := [], init := [], step := map[])
    {
      gPred := [];
      iPred := [];
      sPred := map[];
    }

    // ---------- tables ----------

    method DefineDepVar()
      modifies this`vars
      ensures vars == states
    {
      vars := states;
    }

    method BootStrap(pos: int)
      requires states != []
      modifies this`vars, this`kPred, this`kNext, this`kPrevZ3, this`kCurrZ3, this`kNextZ3, this`cstr
      ensures vars == states && kPred == [] && kNext == [] && cstr == []
      ensures |kPrevZ3| == |states| && forall v :: 0 <= v < |states| ==> kPrevZ3[v] == TVar(states[v], Curr(pos, tag))
    {
      DefineDepVar();
      var prev := Translate(Vars(vars), Curr(pos, tag));
      kPred, kNext, kCurrZ3, kNextZ3, cstr := [], [], [], [], [];
      kPrevZ3 := prev;
    }

    // ---------- transitions ----------

    /** The tables hold the transition of step idx. */
    ghost predicate Tables(idx: nat)
      reads this
      requires Long(Goal(), idx + 1)
    {
      kNext == NextOf(target, vars, idx) && kPred == PredOf(target, vars, idx)
    }

    /** PathUnroll rewrites the tables at every step; MonoUnroll fills them once. */
    method Transition(idx: nat)
      requires Long(Goal(), idx + 1) && vars != []
      requires target.Mono? ==> (kNext == [] && kPred == []) || Tables(idx)
      modifies this`kNext, this`kPred
      ensures Tables(idx)
    {
      if target.Path? {
        PathTransition(idx);
      } else if kNext == [] {
        MonoTransition();
      }
    }

    method PathTransition(idx: nat)
      requires target.Path? && idx < |target.insts|
      modifies this`kNext, this`kPred
      ensures Tables(idx)
      ensures kPred == [target.insts[idx].decode] && |kNext| == |vars|
      ensures forall v {:trigger vars[v]} :: 0 <= v < |vars| ==> kNext[v] == StateUpdCmpl(target.insts[idx], vars[v])
    {
      var instr := target.insts[idx];
      kNext := [];
      var v := 0;
      while v < |vars|
        invariant 0 <= v <= |vars|
        invariant kNext == Completed(instr, vars)[..v]
      {
        kNext := kNext + [StateUpdCmpl(instr, vars[v])];
        v := v + 1;
      }
      kPred := [instr.decode];
    }

    /** The accumulated decode and update constraints of one state variable. */
    method VarConstraints(sels: seq<Expr>, v: nat) returns (accDec: Expr, accUpd: Expr)
      requires target.Mono? && v < |vars| && |sels| == |target.insts|
      requires forall k :: 0 <= k < |sels| ==> sels[k] == Var(Sel(target.insts[k]))
      ensures VarPreds(target.insts, target.top, vars, v + 1) == VarPreds(target.insts, target.top, vars, v) + [accDec] + [accUpd]
    {
      var insts := target.insts;
      var next, dead := Var(Nxt(vars[v])), Var(DeadSel(target.top));
      var notDec := BoolConst(true);
      accDec, accUpd := BoolConst(true), BoolConst(true);
      var i := 0;
      while i < |insts|
        invariant 0 <= i <= |insts|
        invariant notDec == NotDec(insts, i)
        invariant accDec == AccDec(insts, i)
        invariant accUpd == AccUpd(insts, vars[v], i)
      {
        accDec := And(accDec, Imply(sels[i], insts[i].decode));
        notDec := And(notDec, Not(insts[i].decode));
        accUpd := And(accUpd, Imply(sels[i], Eq(next, StateUpdCmpl(insts[i], vars[v]))));
        i := i + 1;
      }
      accDec := And(accDec, Imply(dead, notDec));
      accUpd := And(accUpd, Imply(dead, Eq(next, Var(vars[v]))));
    }

    method SelBits() returns (sels: seq<Expr>)
      requires target.Mono?
      ensures |sels| == |target.insts|
      ensures forall k :: 0 <= k < |sels| ==> sels[k] == Var(Sel(target.insts[k]))
    {
      sels := [];
      var n := 0;
      while n < |target.insts|
        invariant 0 <= n <= |target.insts| && |sels| == n
        invariant forall k :: 0 <= k < n ==> sels[k] == Var(Sel(target.insts[k]))
      {
        sels := sels + [Var(Sel(target.insts[n]))];
        n := n + 1;
      }
    }

    method MonoTransition()
      requires target.Mono? && kNext == [] && kPred == []
      modifies this`kNext, this`kPred
      ensures Tables(0)
    {
      var sels := SelBits();
      var next: seq<Expr> := [];
      var pred: seq<Expr> := [];
      ghost var all := NextVars(vars);
      var v := 0;
      while v < |vars|
        invariant 0 <= v <= |vars|
        invariant next == all[..v]
        invariant pred == VarPreds(target.insts, target.top, vars, v)
      {
        next := next + [Var(Nxt(vars[v]))];
        assert all[..v + 1] == all[..v] + [all[v]];
        var accDec, accUpd := VarConstraints(sels, v);
        pred := pred + [accDec] + [accUpd];
        v := v + 1;
      }
      assert all[..v] == all;
      var some := OneHotAtLeastOne(sels);
      var most := OneHotAtMostOne(sels);
      assert pred + [some] + [most] == pred + [some, most];
      kNext := next;
      kPred := pred + [some] + [most];
    }

    method OneHotAtLeastOne(sels: seq<Expr>) returns (some: Expr)
      requires target.Mono? && |sels| == |target.insts|
      requires forall k :: 0 <= k < |sels| ==> sels[k] == Var(Sel(target.insts[k]))
      ensures some == AtLeastOne(target.insts, target.top, |target.insts|)
    {
      some := Var(DeadSel(target.top));
      var i := 0;
      while i < |sels|
        invariant 0 <= i <= |sels|
        invariant some == AtLeastOne(target.insts, target.top, i)
      {
        some := Or(some, sels[i]);
        i := i + 1;
      }
    }

    method OneHotAtMostOne(sels: seq<Expr>) returns (most: Expr)
      requires target.Mono? && |sels| == |target.insts|
      requires forall k :: 0 <= k < |sels| ==> sels[k] == Var(Sel(target.insts[k]))
      ensures most == AtMostOne(target.insts, |target.insts|)
    {
      most := BoolConst(true);
      var i := 0;
      while i < |sels|
        invariant 0 <= i <= |sels|
        invariant most == AtMostOne(target.insts, i)
      {
        var j := i + 1;
        while j < |sels|
          invariant i + 1 <= j <= |sels|
          invariant most == NotBoth(target.insts, AtMostOne(target.insts, i), i, j)
        {
          most := And(most, Or(Not(sels[i]), Not(sels[j])));
          j := j + 1;
        }
        i := i + 1;
      }
    }

    // ---------- unrolling ----------

    /** Before each step: the tables are empty or, for an ILA, still hold its transition. */
    ghost predicate Ready(i: nat)
      reads this
      requires Long(Goal(), i)
    {
      vars == states && (target.Mono? ==> (kNext == [] && kPred == []) || Tables(0))
    }

    method AssnConstraints(i: nat, pos: int, ghost P: Problem)
      requires P == Goal() && Long(P, i + 1) && vars == states && Tables(i) && AssnBuilt(P, tag, pos, i, cstr)
      modifies this`kNextZ3, this`cstr
      ensures AssnBuilt(P, tag, pos, i + 1, cstr)
    {
      var f, g := Curr(pos + i, tag), Curr(pos + i + 1, tag);
      var c1 := cstr;
      NothingAdded(cstr, f, [], []);
      if i == 0 {
        c1 := AssertAll(iPred, f, cstr);
      }
      var c2 := AssertAll(gPred, f, c1);
      var c3 := AssertAll(StepExprs(sPred, i), f, c2);
      var c4 := AssertAll(kPred, f, c3);
      var next := Translate(kNext, f);
      var c5 := AssertEqual(next, vars, g, c4);
      StepAdded(P, i, f, g, cstr, c1, c2, c3, c4, c5, next);
      AssnExtended(P, tag, pos, i, cstr, c5);
      kNextZ3, cstr := next, c5;
    }

    /** States are frame variables; consecutive frames are equated. */
    method UnrollAssn(len: nat, pos: int) returns (c: Term)
      requires states != [] && Long(Goal(), len)
      modifies this`vars, this`kPred, this`kNext, this`kPrevZ3, this`kCurrZ3, this`kNextZ3, this`cstr
      ensures forall I: Interp, A: Assignment :: True(I, c, A) <==> AssnModel(I, Goal(), A, tag, len, pos)
    {
      BootStrap(pos);
      ghost var P := Goal();
      var i := 0;
      while i != len
        invariant 0 <= i <= len && P == Goal() && Ready(i) && AssnBuilt(P, tag, pos, i, cstr)
      {
        Transition(i);
        AssnConstraints(i, pos, P);
        i := i + 1;
      }
      var c1 := AssertAll(gPred, Curr(len, tag), cstr);
      var c2 := AssertAll(StepExprs(sPred, len), Curr(len, tag), c1);
      AssnFinished(P, tag, pos, len, cstr, c1, c2);
      cstr := c2;
      c := ConjPred(cstr);
    }

    method NoneConstraints(i: nat, pos: int, ghost P: Problem)
      requires P == Goal() && Long(P, i + 1) && vars == states && Tables(i) && NoneBuilt(P, tag, pos, i, cstr)
      modifies this`kNextZ3, this`cstr
      ensures NoneBuilt(P, tag, pos, i + 1, cstr)
    {
      var f, g := Curr(pos + i, tag), Next(pos + i, tag);
      var c1 := cstr;
      NothingAdded(cstr, f, [], []);
      if i == 0 {
        c1 := AssertAll(iPred, f, cstr);
      }
      var c2 := AssertAll(gPred, f, c1);
      var c3 := AssertAll(kPred, f, c2);
      var c4 := AssertAll(StepExprs(sPred, i), f, c3);
      var next := Translate(kNext, f);
      var c5 := AssertEqual(next, vars, g, c4);
      StepAdded(P, i, f, g, cstr, c1, c2, c3, c4, c5, next);
      NoneExtended(P, tag, pos, i, cstr, c5);
      kNextZ3, cstr := next, c5;
    }

    /** Each step has its own next-state frame; nothing links the steps. */
    method UnrollNone(len: nat, pos: int) returns (c: Term)
      requires states != [] && Long(Goal(), len)
      modifies this`vars, this`kPred, this`kNext, this`kPrevZ3, this`kCurrZ3, this`kNextZ3, this`cstr
      ensures forall I: Interp, A: Assignment :: True(I, c, A) <==> NoneModel(I, Goal(), A, tag, len, pos)
    {
      BootStrap(pos);
      ghost var P := Goal();
      var i := 0;
      while i != len
        invariant 0 <= i <= len && P == Goal() && Ready(i) && NoneBuilt(P, tag, pos, i, cstr)
      {
        Transition(i);
        NoneConstraints(i, pos, P);
        i := i + 1;
      }
      c := ConjPred(cstr);
    }

    method SubsConstraints(i: nat, pos: int, ghost P: Problem)
      requires P == Goal() && Distinct(states) && Long(P, i + 1) && vars == states && Tables(i)
      requires SubsReached(P, tag, pos, i, kPrevZ3, cstr)
      modifies this`kPrevZ3, this`kCurrZ3, this`kNextZ3, this`cstr
      ensures SubsReached(P, tag, pos, i + 1, kPrevZ3, cstr)
    {
      var f := Curr(pos + i, tag);
      var src := Translate(Vars(vars), f);
      var dst := kPrevZ3;
      var c1 := cstr;
      NothingAdded(cstr, f, src, dst);
      if i == 0 {
        c1 := AssertAllSubst(iPred, f, cstr, src, dst);
      }
      var c2 := AssertAllSubst(gPred, f, c1, src, dst);
      var c3 := AssertAllSubst(kPred, f, c2, src, dst);
      var c4 := AssertAllSubst(StepExprs(sPred, i), f, c3, src, dst);
      var next := TranslateSubst(kNext, f, src, dst);
      SubsAdded(P, tag, pos, i, src, dst, cstr, c1, c2, c3, c4);
      SubsExtended(P, tag, pos, i, cstr, c4);
      NextReplaces(P, tag, pos, i, src, dst, next);
      kCurrZ3, kNextZ3, kPrevZ3, cstr := src, next, next, c4;
    }

    method SubsRound(i: nat, pos: int, ghost P: Problem)
      requires P == Goal() && states != [] && Distinct(states) && Long(P, i + 1) && Ready(i)
      requires SubsReached(P, tag, pos, i, kPrevZ3, cstr)
      modifies this`kPred, this`kNext, this`kPrevZ3, this`kCurrZ3, this`kNextZ3, this`cstr
      ensures P == Goal() && Ready(i + 1) && SubsReached(P, tag, pos, i + 1, kPrevZ3, cstr)
    {
      Transition(i);
      SubsConstraints(i, pos, P);
    }

    method SubsLoop(len: nat, pos: int, ghost P: Problem)
      requires P == Goal() && states != [] && Distinct(states) && Long(P, len) && Ready(0)
      requires SubsReached(P, tag, pos, 0, kPrevZ3, cstr)
      modifies this`kPred, this`kNext, this`kPrevZ3, this`kCurrZ3, this`kNextZ3, this`cstr
      ensures SubsReached(P, tag, pos, len, kPrevZ3, cstr)
    {
      var i := 0;
      while i != len
        invariant 0 <= i <= len && P == Goal() && Ready(i)
        invariant SubsReached(P, tag, pos, i, kPrevZ3, cstr)
      {
        SubsRound(i, pos, P);
        i := i + 1;
      }
    }

    /** States are expressions over the first frame; only the last ones are equated to a frame. */
    method UnrollSubs(len: nat, pos: int) returns (c: Term)
      requires states != [] && Distinct(states) && Long(Goal(), len)
      modifies this`vars, this`kPred, this`kNext, this`kPrevZ3, this`kCurrZ3, this`kNextZ3, this`cstr
      ensures forall I: Interp, A: Assignment :: True(I, c, A) <==> SubsModel(I, Goal(), A, tag, len, pos)
    {
      BootStrap(pos);
      ghost var P := Goal();
      StartReplaces(P, tag, pos, kPrevZ3);
      SubsLoop(len, pos, P);
      var c1 := AssertEqual(kPrevZ3, vars, Curr(len, tag), cstr);
      var c2 := AssertAll(gPred, Curr(len, tag), c1);
      var c3 := AssertAll(StepExprs(sPred, len), Curr(len, tag), c2);
      SubsFinished(P, tag, pos, len, kPrevZ3, cstr, c1, c2, c3);
      cstr := c3;
      c := ConjPred(c3);
    }
  }
}
