/** From two unrollers: the formulas of the step checks and the query of a commuting diagram. */
module CommutingDiagram {
  import opened Ast
  import opened Ila
  import opened Frames
  import opened Unrolling
  import opened Unrollers
  import opened MonoRuns
  import opened Refinement
  import opened StepChecks

  // ---------- connectives on terms ----------

  function AndZ(a: Term, b: Term): Term { TApp(kAnd, [a, b], []) }

  function OrZ(a: Term, b: Term): Term { TApp(kOr, [a, b], []) }

  function NotZ(a: Term): Term { TApp(kNot, [a], []) }

  function ImpliesZ(a: Term, b: Term): Term { TApp(kImply, [a, b], []) }

  function TrueZ(): Term { TConst(BoolL(true)) }

  function FalseZ(): Term { TConst(BoolL(false)) }

  lemma OrTerm(I: Interp, a: Term, b: Term, A: Assignment)
    ensures True(I, OrZ(a, b), A) <==> True(I, a, A) || True(I, b, A)
  {
    var vs := MeaningAll(I, [a, b], A);
    assert vs[0] == Meaning(I, a, A) && vs[1] == Meaning(I, b, A);
  }

  lemma NotTerm(I: Interp, a: Term, A: Assignment)
    ensures True(I, NotZ(a), A) <==> !True(I, a, A)
  {
    assert MeaningAll(I, [a], A)[0] == Meaning(I, a, A);
  }

  lemma ImpliesTerm(I: Interp, a: Term, b: Term, A: Assignment)
    ensures True(I, ImpliesZ(a, b), A) <==> (True(I, a, A) ==> True(I, b, A))
  {
    var vs := MeaningAll(I, [a, b], A);
    assert vs[0] == Meaning(I, a, A) && vs[1] == Meaning(I, b, A);
  }

  /** A term that says that a condition holds in a frame. */
  ghost predicate SaysIs(z: Term, e: Expr, f: Suffix) {
    forall I: Interp, A: Assignment :: True(I, z, A) <==> Is(I, e, Frame(A, f))
  }

  /** A term that says that two frames agree on variables. */
  ghost predicate SaysSame(z: Term, vars: seq<string>, f: Suffix, g: Suffix) {
    forall I: Interp, A: Assignment :: True(I, z, A) <==> SameStates(vars, Frame(A, f), Frame(A, g))
  }

  /** The condition in a frame of an unroller. */
  method GetZ3Expr(e: Expr, f: Suffix) returns (z: Term)
    ensures SaysIs(z, e, f)
  {
    z := GetExpr(e, f);
    forall I: Interp, A: Assignment ensures True(I, z, A) <==> Is(I, e, Frame(A, f)) {
      GetExprMeaning(I, e, f, A);
    }
  }

  /** The conjunction of x_f == x_g over variables. */
  method EqualStates(vars: seq<string>, f: Suffix, g: Suffix) returns (eq: Term)
    ensures SaysSame(eq, vars, f, g)
  {
    eq := TrueZ();
    var v := 0;
    assert SaysSame(eq, vars[..v], f, g);
    while v != |vars|
      invariant 0 <= v <= |vars|
      invariant SaysSame(eq, vars[..v], f, g)
    {
      var s, t := TVar(vars[v], f), TVar(vars[v], g);
      var longer := AndZ(eq, TApp(kEqual, [s, t], []));
      SameExtended(eq, vars, f, g, v);
      eq := longer;
      v := v + 1;
    }
    assert vars[..v] == vars;
  }

  lemma SameExtended(eq: Term, vars: seq<string>, f: Suffix, g: Suffix, v: nat)
    requires v < |vars| && SaysSame(eq, vars[..v], f, g)
    ensures SaysSame(AndZ(eq, TApp(kEqual, [TVar(vars[v], f), TVar(vars[v], g)], [])), vars[..v + 1], f, g)
  {
    var equal := TApp(kEqual, [TVar(vars[v], f), TVar(vars[v], g)], []);
    var n: nat := v + 1;
    forall I: Interp, A: Assignment
      ensures True(I, AndZ(eq, equal), A) <==> SameStates(vars[..n], Frame(A, f), Frame(A, g))
    {
      AndTerm(I, eq, equal, A);
      EqualTerm(I, TVar(vars[v], f), vars[v], g, A);
      assert vars[..n][v] == vars[v];
      forall k {:trigger vars[..n][k]} | 0 <= k < v ensures vars[..n][k] == vars[..v][k] {
      }
      if SameStates(vars[..n], Frame(A, f), Frame(A, g)) {
        forall k {:trigger vars[..v][k]} | 0 <= k < v ensures A(vars[..v][k], f) == A(vars[..v][k], g) {
          assert vars[..n][k] == vars[..v][k];
        }
      }
    }
  }

  // ---------- marks ----------

  /** The marks of the positions from `start` up to, and without, `end`. */
  ghost predicate SaysMarked(z: Term, R: Ref, tag: string, start: nat, end: nat) {
    forall I: Interp, A: Assignment ::
      True(I, z, A) <==> forall i: nat :: start <= i < end ==> MarkedAt(I, R, A, tag, i)
  }

  lemma MarkExtended(z: Term, cmpl: Term, eq: Term, R: Ref, tag: string, start: nat, i: nat)
    requires start <= i && SaysMarked(z, R, tag, start, i) && SaysIs(cmpl, R.cmpl, Curr(i, tag))
    requires SaysSame(eq, R.stts, Bare(tag), Curr(i, tag))
    ensures SaysMarked(AndZ(z, ImpliesZ(cmpl, eq)), R, tag, start, i + 1)
  {
    var mark := ImpliesZ(cmpl, eq);
    var n: nat := i + 1;
    forall I: Interp, A: Assignment
      ensures True(I, AndZ(z, mark), A) <==> forall j: nat :: start <= j < n ==> MarkedAt(I, R, A, tag, j)
    {
      AndTerm(I, z, mark, A);
      ImpliesTerm(I, cmpl, eq, A);
      assert True(I, mark, A) <==> MarkedAt(I, R, A, tag, i);
    }
  }

  // ---------- completion ----------

  method AtLeastOnce(u: Unroller, R: Ref, start: nat, end: nat) returns (cstr: Term)
    ensures forall I: Interp, A: Assignment :: True(I, cstr, A) <==> SomeComplete(I, R, A, u.tag, start, end + 1)
  {
    cstr := FalseZ();
    var i := start;
    while i <= end
      invariant start <= i && (start <= end ==> i <= end + 1) && (end < start ==> i == start)
      invariant forall I: Interp, A: Assignment :: True(I, cstr, A) <==> SomeComplete(I, R, A, u.tag, start, i)
      decreases end + 1 - i
    {
      var cmpl := GetZ3Expr(R.cmpl, Curr(i, u.tag));
      ghost var was, n := cstr, i + 1;
      cstr := OrZ(cstr, cmpl);
      forall I: Interp, A: Assignment ensures True(I, cstr, A) <==> SomeComplete(I, R, A, u.tag, start, n) {
        OrTerm(I, was, cmpl, A);
        assert True(I, cmpl, A) <==> Is(I, R.cmpl, Frame(A, Curr(i, u.tag)));
      }
      i := i + 1;
    }
  }

  /** No two positions complete of which the first is below i, or is i and the second is below j. */
  ghost predicate Exclusive(I: Interp, R: Ref, A: Assignment, tag: string, start: nat, end: nat, i: nat, j: nat) {
    forall a: nat, b: nat {:trigger Curr(a, tag), Curr(b, tag)} :: start <= a < b <= end && (a < i || (a == i && b < j)) ==>
      !(Is(I, R.cmpl, Frame(A, Curr(a, tag))) && Is(I, R.cmpl, Frame(A, Curr(b, tag))))
  }

  lemma ExclusiveNext(I: Interp, R: Ref, A: Assignment, tag: string, start: nat, end: nat, i: nat, j: nat)
    requires start <= i < j <= end
    ensures Exclusive(I, R, A, tag, start, end, i, j + 1) <==>
            && Exclusive(I, R, A, tag, start, end, i, j)
            && !(Is(I, R.cmpl, Frame(A, Curr(i, tag))) && Is(I, R.cmpl, Frame(A, Curr(j, tag))))
  {
  }

  ghost predicate SaysExclusive(z: Term, R: Ref, tag: string, start: nat, end: nat, i: nat, j: nat) {
    forall I: Interp, A: Assignment :: True(I, z, A) <==> Exclusive(I, R, A, tag, start, end, i, j)
  }

  lemma ExclusiveExtended(z: Term, a: Term, b: Term, R: Ref, tag: string, start: nat, end: nat, i: nat, j: nat)
    requires start <= i < j <= end && SaysExclusive(z, R, tag, start, end, i, j)
    requires SaysIs(a, R.cmpl, Curr(i, tag)) && SaysIs(b, R.cmpl, Curr(j, tag))
    ensures SaysExclusive(AndZ(z, OrZ(NotZ(a), NotZ(b))), R, tag, start, end, i, j + 1)
  {
    var clause := OrZ(NotZ(a), NotZ(b));
    var n: nat := j + 1;
    forall I: Interp, A: Assignment
      ensures True(I, AndZ(z, clause), A) <==> Exclusive(I, R, A, tag, start, end, i, n)
    {
      AndTerm(I, z, clause, A);
      OrTerm(I, NotZ(a), NotZ(b), A);
      NotTerm(I, a, A);
      NotTerm(I, b, A);
      ExclusiveNext(I, R, A, tag, start, end, i, j);
    }
  }

  /** The row of i is complete: start the row of i + 1. */
  lemma ExclusiveRow(z: Term, R: Ref, tag: string, start: nat, end: nat, i: nat)
    ensures SaysExclusive(z, R, tag, start, end, i, end + 1) <==> SaysExclusive(z, R, tag, start, end, i + 1, i + 2)
  {
    var n, m := i + 1, i + 2;
    forall I: Interp, A: Assignment
      ensures Exclusive(I, R, A, tag, start, end, i, end + 1) <==> Exclusive(I, R, A, tag, start, end, n, m)
    {
    }
  }

  lemma ExclusiveAll(I: Interp, R: Ref, A: Assignment, tag: string, start: nat, end: nat, i: nat)
    requires end < i
    ensures Exclusive(I, R, A, tag, start, end, i, i + 1) <==>
            NotTwice(I, R, A, tag, start, end)
  {
  }

  method AtMostOnce(u: Unroller, R: Ref, start: nat, end: nat) returns (cstr: Term)
    requires start <= end
    ensures SaysExclusive(cstr, R, u.tag, start, end, end + 1, end + 2)
  {
    cstr := TrueZ();
    var i := start;
    while i <= end
      invariant start <= i <= end + 1
      invariant SaysExclusive(cstr, R, u.tag, start, end, i, i + 1)
    {
      var cmplI := GetZ3Expr(R.cmpl, Curr(i, u.tag));
      var j := i + 1;
      while j <= end
        invariant i + 1 <= j <= end + 1
        invariant SaysExclusive(cstr, R, u.tag, start, end, i, j)
      {
        var cmplJ := GetZ3Expr(R.cmpl, Curr(j, u.tag));
        ExclusiveExtended(cstr, cmplI, cmplJ, R, u.tag, start, end, i, j);
        cstr := AndZ(cstr, OrZ(NotZ(cmplI), NotZ(cmplJ)));
        j := j + 1;
      }
      ExclusiveRow(cstr, R, u.tag, start, end, i);
      i := i + 1;
    }
  }

  // ---------- the terms of the step checks ----------

  ghost predicate SaysOrigPath(z: Term, R: Ref, k: nat) {
    forall I: Interp, A: Assignment :: True(I, z, A) <==> OrigPath(I, R, A, k)
  }

  ghost predicate SaysApplPath(z: Term, R: Ref, k: nat) {
    forall I: Interp, A: Assignment :: True(I, z, A) <==> ApplPath(I, R, A, k)
  }

  lemma OrigPathTerm(R: Ref, k: nat, init: Term, path: Term)
    requires forall I: Interp, A: Assignment :: True(I, init, A) <==> InitModel(I, R, A)
    requires forall I: Interp, A: Assignment :: True(I, path, A) <==> AssnModel(I, OrigProblem(R), A, ORIG, k, 0)
    ensures SaysOrigPath(AndZ(init, path), R, k)
  {
    forall I: Interp, A: Assignment ensures True(I, AndZ(init, path), A) <==> OrigPath(I, R, A, k) {
      AndTerm(I, init, path, A);
      OrigIsFlush(I, R, A, k);
    }
  }

  lemma ApplPathTerm(R: Ref, k: nat, init: Term, path: Term)
    requires forall I: Interp, A: Assignment :: True(I, init, A) <==> InitModel(I, R, A)
    requires forall I: Interp, A: Assignment :: True(I, path, A) <==> AssnModel(I, ApplProblem(R, k), A, APPL, k + 1, 0)
    ensures SaysApplPath(AndZ(init, path), R, k)
  {
    forall I: Interp, A: Assignment ensures True(I, AndZ(init, path), A) <==> ApplPath(I, R, A, k) {
      AndTerm(I, init, path, A);
      ApplIsFlush(I, R, A, k);
    }
  }

  lemma FirstTerm(I: Interp, A: Assignment, tran: Term, some: Term)
    ensures True(I, AndZ(tran, NotZ(some)), A) <==> True(I, tran, A) && !True(I, some, A)
  {
    AndTerm(I, tran, NotZ(some), A);
    NotTerm(I, some, A);
  }

  lemma SecondTerm(I: Interp, A: Assignment, first: Term, tran: Term, most: Term)
    ensures True(I, AndZ(first, AndZ(tran, NotZ(most))), A) <==>
            True(I, first, A) && True(I, tran, A) && !True(I, most, A)
  {
    AndTerm(I, first, AndZ(tran, NotZ(most)), A);
    FirstTerm(I, A, tran, most);
  }

  // ---------- the class ----------

  class CommDiag {
    const crr: Crr
    const orig: Unroller
    const appl: Unroller

    constructor (crr: Crr)
      ensures this.crr == crr && Valid() && fresh(orig) && fresh(appl)
    {
      var o := new Unroller(ORIG);
      var a := new Unroller(APPL);
      this.crr, this.orig, this.appl := crr, o, a;
    }

    ghost predicate Valid() {
      orig != appl && orig.tag == ORIG && appl.tag == APPL
    }

    /** Both unrollers start from the same states; one is about to apply, the other flushes. */
    method GenInit(R: Ref) returns (init: Term)
      requires Valid()
      ensures forall I: Interp, A: Assignment :: True(I, init, A) <==> InitModel(I, R, A)
    {
      var eq := EqualStates(R.states, Curr(0, orig.tag), Curr(0, appl.tag));
      var an := GetZ3Expr(R.appl, Curr(0, appl.tag));
      var fo := GetZ3Expr(R.flush, Curr(0, orig.tag));
      init := AndZ(AndZ(an, fo), eq);
      forall I: Interp, A: Assignment ensures True(I, init, A) <==> InitModel(I, R, A) {
        AndTerm(I, AndZ(an, fo), eq, A);
        AndTerm(I, an, fo, A);
        assert True(I, an, A) <==> Is(I, R.appl, Frame(A, Curr(0, APPL)));
        assert True(I, fo, A) <==> Is(I, R.flush, Frame(A, Curr(0, ORIG)));
      }
    }

    /** The predicates of CheckStepOrig. */
    method SetOrig(R: Ref)
      modifies orig
      ensures orig.Goal() == old(orig.Goal()).(glob := [R.flush] + R.inv, init := [], step := map[])
    {
      orig.ClearPred();
      orig.AddGlobPred(R.flush);
      assert [] + [R.flush] == [R.flush] + R.inv[..0];
      var i := 0;
      while i != |R.inv|
        invariant 0 <= i <= |R.inv|
        invariant orig.Goal() == old(orig.Goal()).(glob := [R.flush] + R.inv[..i], init := [], step := map[])
      {
        orig.AddGlobPred(R.inv[i]);
        assert [R.flush] + R.inv[..i] + [R.inv[i]] == [R.flush] + R.inv[..i + 1];
        i := i + 1;
      }
      assert R.inv[..i] == R.inv;
    }

    /** CheckStepOrig: the transition, and what the solver holds at its two queries. It is not reset
        between them. */
    method CheckStepOrig(R: Ref, k: nat, ghost S: set<string>) returns (tran: Term, first: Term, second: Term)
      requires Valid() && Scoped(R, S)
      modifies orig
      ensures SaysOrigPath(tran, R, k)
      ensures forall I: Interp, A: Assignment ::
                True(I, first, A) <==> OrigPath(I, R, A, k) && !SomeComplete(I, R, A, ORIG, 0, k + 1)
      ensures forall I: Interp, A: Assignment ::
                True(I, second, A) <==> True(I, first, A) && !NotTwice(I, R, A, ORIG, 0, k)
      ensures forall I: Interp ::
                (forall A :: !True(I, first, A) && !True(I, second, A)) <==> OrigCompletes(I, R, k)
    {
      CheckedAreClean(R, k, S);
      var init := GenInit(R);
      SetOrig(R);
      var path := MonoAssn(orig, R.insts, R.top, R.states, k);
      tran := AndZ(init, path);
      OrigPathTerm(R, k, init, path);
      var some := AtLeastOnce(orig, R, 0, k);
      first := AndZ(tran, NotZ(some));
      var most := AtMostOnce(orig, R, 0, k);
      second := AndZ(first, AndZ(tran, NotZ(most)));
      forall I: Interp, A: Assignment
        ensures True(I, first, A) <==> OrigPath(I, R, A, k) && !SomeComplete(I, R, A, ORIG, 0, k + 1)
        ensures True(I, second, A) <==> True(I, first, A) && !NotTwice(I, R, A, ORIG, 0, k)
      {
        FirstTerm(I, A, tran, some);
        SecondTerm(I, A, first, tran, most);
        assert True(I, tran, A) <==> OrigPath(I, R, A, k);
        ExclusiveAll(I, R, A, ORIG, 0, k, k + 1);
      }
    }

    /** CheckStepAppl, with the predicates of the apply step. */
    method CheckStepAppl(R: Ref, k: nat, ghost S: set<string>) returns (tran: Term, first: Term, second: Term)
      requires Valid() && Scoped(R, S)
      modifies appl
      ensures SaysApplPath(tran, R, k)
      ensures forall I: Interp, A: Assignment ::
                True(I, first, A) <==> ApplPath(I, R, A, k) && !SomeComplete(I, R, A, APPL, 1, k + 2)
      ensures forall I: Interp, A: Assignment ::
                True(I, second, A) <==> True(I, first, A) && !NotTwice(I, R, A, APPL, 1, k + 1)
      ensures forall I: Interp ::
                (forall A :: !True(I, first, A) && !True(I, second, A)) <==> ApplCompletes(I, R, k)
    {
      CheckedAreClean(R, k, S);
      var init := GenInit(R);
      SetFlush(appl, R, k + 1, 1);
      appl.AddInitPred(R.appl);
      assert [] + [R.appl] == [R.appl];
      var path := MonoAssn(appl, R.insts, R.top, R.states, k + 1);
      tran := AndZ(init, path);
      ApplPathTerm(R, k, init, path);
      var some := AtLeastOnce(appl, R, 1, k + 1);
      first := AndZ(tran, NotZ(some));
      var most := AtMostOnce(appl, R, 1, k + 1);
      second := AndZ(first, AndZ(tran, NotZ(most)));
      forall I: Interp, A: Assignment
        ensures True(I, first, A) <==> ApplPath(I, R, A, k) && !SomeComplete(I, R, A, APPL, 1, k + 2)
        ensures True(I, second, A) <==> True(I, first, A) && !NotTwice(I, R, A, APPL, 1, k + 1)
      {
        FirstTerm(I, A, tran, some);
        SecondTerm(I, A, first, tran, most);
        assert True(I, tran, A) <==> ApplPath(I, R, A, k);
        ExclusiveAll(I, R, A, APPL, 1, k + 1, k + 2);
      }
    }

    /** The predicates of a flushing unrolling. */
    method SetFlush(u: Unroller, R: Ref, length: nat, start: nat)
      requires start <= length
      modifies u
      ensures u.Goal() == old(u.Goal()).(glob := R.inv, init := [], step := FlushSteps(R, start, length + 1))
    {
      u.ClearPred();
      var i := 0;
      while i != |R.inv|
        invariant 0 <= i <= |R.inv|
        invariant u.Goal() == old(u.Goal()).(glob := R.inv[..i], init := [], step := map[])
      {
        u.AddGlobPred(R.inv[i]);
        assert R.inv[..i + 1] == R.inv[..i] + [R.inv[i]];
        i := i + 1;
      }
      assert R.inv[..i] == R.inv;
      i := start;
      while i <= length
        invariant start <= i <= length + 1
        invariant u.Goal() == old(u.Goal()).(glob := R.inv, init := [], step := FlushSteps(R, start, i))
      {
        StepExprsFlush(R, start, i, i);
        u.AddStepPred(R.flush, i);
        assert [] + [R.flush] == [R.flush];
        i := i + 1;
      }
    }

    /** Path and marks: every completing step has the representative state. */
    method UnrollFlush(u: Unroller, R: Ref, length: nat, start: nat) returns (c: Term)
      requires start <= length && Clean(FlushProblem(R, length, start))
      modifies u
      ensures forall I: Interp, A: Assignment :: True(I, c, A) <==> FlushModel(I, R, A, u.tag, length, start)
    {
      SetFlush(u, R, length, start);
      var path := MonoAssn(u, R.insts, R.top, R.states, length);
      var mark := MarkSteps(R, u.tag, length, start);
      c := AndZ(path, mark);
      PathAndMarks(R, u.tag, length, start, path, mark);
    }

    method MarkSteps(R: Ref, tag: string, length: nat, start: nat) returns (mark: Term)
      requires start <= length
      ensures SaysMarked(mark, R, tag, start, length + 1)
    {
      mark := TrueZ();
      var i := start;
      while i <= length
        invariant start <= i <= length + 1
        invariant SaysMarked(mark, R, tag, start, i)
      {
        var cmpl := GetZ3Expr(R.cmpl, Curr(i, tag));
        var eq := EqualStates(R.stts, Bare(tag), Curr(i, tag));
        MarkExtended(mark, cmpl, eq, R, tag, start, i);
        mark := AndZ(mark, ImpliesZ(cmpl, eq));
        i := i + 1;
      }
    }

    method GenTranRel(R: Ref, kOrig: nat, kAppl: nat) returns (tran: Term)
      requires Valid() && Clean(FlushProblem(R, kOrig, 0)) && Clean(FlushProblem(R, kAppl + 1, 1))
      modifies orig, appl
      ensures forall I: Interp, A: Assignment :: True(I, tran, A) <==> TranModel(I, R, A, kOrig, kAppl)
    {
      var init := GenInit(R);
      var o := UnrollFlush(orig, R, kOrig, 0);
      var a := UnrollFlush(appl, R, kAppl + 1, 1);
      tran := AndZ(AndZ(init, o), a);
      forall I: Interp, A: Assignment ensures True(I, tran, A) <==> TranModel(I, R, A, kOrig, kAppl) {
        AndTerm(I, AndZ(init, o), a, A);
        AndTerm(I, init, o, A);
      }
    }

    /** The formulas EqCheck gives to the solver: the transition relations of the two sides, each
        checked for being dead, and the query. */
    method EqCheck(n: Bounds, ghost SA: set<string>, ghost SB: set<string>) returns (tranA: Term, tranB: Term,
                   query: Term)
      requires Valid() && WellFormed(crr, SA, SB)
      modifies orig, appl
      ensures forall I: Interp, A: Assignment :: True(I, tranA, A) <==> TranModel(I, crr.refA, A, n.origA, n.applA)
      ensures forall I: Interp, A: Assignment :: True(I, tranB, A) <==> TranModel(I, crr.refB, A, n.origB, n.applB)
      ensures forall I: Interp ::
                CompletesOnce(I, crr.refA, n.origA, n.applA) && CompletesOnce(I, crr.refB, n.origB, n.applB) ==>
                ((forall A :: !True(I, query, A)) <==> Commutes(I, crr, n))
    {
      BothClean(crr.refA, n.origA, n.applA, SA);
      BothClean(crr.refB, n.origB, n.applB, SB);
      tranA := GenTranRel(crr.refA, n.origA, n.applA);
      tranB := GenTranRel(crr.refB, n.origB, n.applB);
      var assm, prop := GenAssmProp();
      query := AndZ(AndZ(AndZ(tranA, tranB), assm), NotZ(prop));
      QueryTerm(crr, n, tranA, tranB, assm, prop);
      QueryDecides(crr, n, query, SA, SB);
    }

    /** The relation of the flushed states and the relation of the states after apply and flush. */
    method GenAssmProp() returns (assm: Term, prop: Term)
      requires Valid()
      ensures SaysIs(assm, crr.relation, Bare(ORIG)) && SaysIs(prop, crr.relation, Bare(APPL))
    {
      assm := GetZ3Expr(crr.relation, Bare(orig.tag));
      prop := GetZ3Expr(crr.relation, Bare(appl.tag));
    }
  }

  lemma BothClean(R: Ref, kOrig: nat, kAppl: nat, S: set<string>)
    requires Scoped(R, S)
    ensures Clean(FlushProblem(R, kOrig, 0)) && Clean(FlushProblem(R, kAppl + 1, 1))
  {
    CleanFlush(R, kOrig, 0, S);
    CleanFlush(R, kAppl + 1, 1, S);
  }

  lemma PathAndMarks(R: Ref, tag: string, len: nat, start: nat, path: Term, mark: Term)
    requires forall I: Interp, A: Assignment ::
               True(I, path, A) <==> AssnModel(I, FlushProblem(R, len, start), A, tag, len, 0)
    requires SaysMarked(mark, R, tag, start, len + 1)
    ensures forall I: Interp, A: Assignment :: True(I, AndZ(path, mark), A) <==> FlushModel(I, R, A, tag, len, start)
  {
    forall I: Interp, A: Assignment
      ensures True(I, AndZ(path, mark), A) <==> FlushModel(I, R, A, tag, len, start)
    {
      AndTerm(I, path, mark, A);
      assert True(I, mark, A) <==> forall i: nat :: start <= i < len + 1 ==> MarkedAt(I, R, A, tag, i);
    }
  }

  lemma QueryTerm(C: Crr, n: Bounds, tranA: Term, tranB: Term, assm: Term, prop: Term)
    requires forall I: Interp, A: Assignment :: True(I, tranA, A) <==> TranModel(I, C.refA, A, n.origA, n.applA)
    requires forall I: Interp, A: Assignment :: True(I, tranB, A) <==> TranModel(I, C.refB, A, n.origB, n.applB)
    requires SaysIs(assm, C.relation, Bare(ORIG)) && SaysIs(prop, C.relation, Bare(APPL))
    ensures forall I: Interp, A: Assignment ::
              True(I, AndZ(AndZ(AndZ(tranA, tranB), assm), NotZ(prop)), A) <==> QueryModel(I, C, A, n)
  {
    forall I: Interp, A: Assignment
      ensures True(I, AndZ(AndZ(AndZ(tranA, tranB), assm), NotZ(prop)), A) <==> QueryModel(I, C, A, n)
    {
      AndTerm(I, AndZ(AndZ(tranA, tranB), assm), NotZ(prop), A);
      AndTerm(I, AndZ(tranA, tranB), assm, A);
      AndTerm(I, tranA, tranB, A);
      NotTerm(I, prop, A);
    }
  }

  lemma QueryDecides(C: Crr, n: Bounds, query: Term, SA: set<string>, SB: set<string>)
    requires WellFormed(C, SA, SB)
    requires forall I: Interp, A: Assignment :: True(I, query, A) <==> QueryModel(I, C, A, n)
    ensures forall I: Interp ::
              CompletesOnce(I, C.refA, n.origA, n.applA) && CompletesOnce(I, C.refB, n.origB, n.applB) ==>
              ((forall A :: !True(I, query, A)) <==> Commutes(I, C, n))
  {
    forall I: Interp | CompletesOnce(I, C.refA, n.origA, n.applA) && CompletesOnce(I, C.refB, n.origB, n.applB)
      ensures (forall A :: !True(I, query, A)) <==> Commutes(I, C, n)
    {
      QueryIsDiagram(I, C, n, SA, SB);
    }
  }
}
