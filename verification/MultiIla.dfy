/** InterIlaUnroller on a program template: what all constraints together say of a model, under either
    memory model. */
module MultiIla {
  import opened Ast
  import opened Trace
  import opened Ila
  import opened Constraints
  import opened RfCoFr
  import opened MemoryModels
  import opened LocalState

  /** One ILA: its name, its instruction sequence, its private states, and whether its steps are taken
      in program order. */
  datatype Thread = Thread(host: string, insts: seq<Instr>, priv: set<string>, ordered: bool)

  ghost predicate Template(sys: System, threads: seq<Thread>) {
    && (forall i :: 0 <= i < |threads| ==> threads[i].host != sys.global)
    && (forall i, j :: 0 <= i < j < |threads| ==> threads[i].host != threads[j].host)
    && forall i, k :: 0 <= i < |threads| && 0 <= k < |threads[i].insts| ==>
         WellBuilt(sys, InstStep(threads[i].host, threads[i].insts, k))
  }

  /** Number of the first step of thread n. */
  function First(threads: seq<Thread>, n: nat): nat
    requires n <= |threads|
  {
    if n == 0 then 1 else First(threads, n - 1) + |threads[n - 1].insts|
  }

  /** The steps of the first n threads lie one after the other. */
  ghost predicate Laid(threads: seq<Thread>, steps: seq<TraceStep>, n: nat)
    requires n <= |threads|
  {
    && |steps| == First(threads, n)
    && forall i, k :: 0 <= i < n && 0 <= k < |threads[i].insts| ==> Lies(threads, steps, i, k)
  }

  ghost predicate Lies(threads: seq<Thread>, steps: seq<TraceStep>, i: nat, k: nat)
    requires i < |threads| && k < |threads[i].insts|
  {
    First(threads, i) + k < |steps| && steps[First(threads, i) + k] == InstStep(threads[i].host, threads[i].insts, k)
  }

  lemma {:induction false} FirstGrows(threads: seq<Thread>, i: nat, n: nat)
    requires i < n <= |threads|
    ensures First(threads, i) + |threads[i].insts| <= First(threads, n)
  {
    if i < n - 1 {
      FirstGrows(threads, i, n - 1);
    }
  }

  function Numbers(threads: seq<Thread>, i: nat): seq<nat>
    requires i < |threads|
  {
    seq<nat>(|threads[i].insts|, k requires 0 <= k < |threads[i].insts| => var x: nat := First(threads, i) + k; x)
  }

  function Steps(threads: seq<Thread>, i: nat): seq<TraceStep>
    requires i < |threads|
  {
    seq(|threads[i].insts|, k requires 0 <= k < |threads[i].insts| => InstStep(threads[i].host, threads[i].insts, k))
  }

  /** The private states of thread i are linked; if it is ordered its steps follow one another. */
  ghost predicate ThreadLinked(M: Model, threads: seq<Thread>, i: nat)
    requires i < |threads|
  {
    if threads[i].ordered
    then OrderedLocalState(M, threads[i].host, Steps(threads, i), Numbers(threads, i), threads[i].priv)
    else UnorderedLocalState(M, threads[i].host, Steps(threads, i), Numbers(threads, i), threads[i].priv)
  }

  ghost predicate ThreadsLinked(M: Model, threads: seq<Thread>, n: nat)
    requires n <= |threads|
  {
    forall i: nat :: i < n ==> ThreadLinked(M, threads, i)
  }

  /** What the constraints say of a model. */
  ghost predicate Satisfies(sys: System, threads: seq<Thread>, steps: seq<TraceStep>, M: Model) {
    Good(sys, steps, M) && TsoAxioms(ProgOf(sys, steps, M), M.t) && ThreadsLinked(M, threads, |threads|)
  }

  ghost predicate SatisfiesSc(sys: System, threads: seq<Thread>, steps: seq<TraceStep>, M: Model) {
    Good(sys, steps, M) && ScAxioms(ProgOf(sys, steps, M), M.t) && ThreadsLinked(M, threads, |threads|)
  }

  /** The SC model has no facets: a model gives every write one time. */
  ghost predicate NoFacets(M: Model) {
    M.t.gts == M.t.ts
  }

  /** What a final property, if there is one, adds: step n comes last and the property holds on it. */
  ghost predicate Finally(sys: System, M: Model, n: nat, property: Option<Expr>) {
    property.Some? ==> FinalLast(M, n) && PropertyHolds(sys, M, property.value)
  }

  /** The steps of the threads, followed by the final step if there is a property. */
  ghost predicate Program(sys: System, threads: seq<Thread>, steps: seq<TraceStep>, property: Option<Expr>) {
    var n := First(threads, |threads|);
    && n <= |steps| && Laid(threads, steps[..n], |threads|)
    && steps[n..] == (if property.Some? then [FinalStep(sys, property.value)] else [])
  }

  lemma LaidIsProgram(sys: System, threads: seq<Thread>, laid: seq<TraceStep>, property: Option<Expr>)
    requires Laid(threads, laid, |threads|)
    ensures Program(sys, threads, laid + (if property.Some? then [FinalStep(sys, property.value)] else []), property)
  {
    var n := First(threads, |threads|);
    var steps := laid + (if property.Some? then [FinalStep(sys, property.value)] else []);
    assert steps[..n] == laid;
  }

  ghost predicate AllOrdered(threads: seq<Thread>) {
    forall i {:trigger threads[i]} :: 0 <= i < |threads| ==> threads[i].ordered
  }

  lemma PositiveIsTimed(sys: System, steps: seq<TraceStep>, M: Model)
    requires Registered(sys, steps) && Fits(steps, M)
    ensures PositiveSteps(sys, steps, 1, M) <==> Timed(ProgOf(sys, steps, M), M.t)
  {
    var p := ProgOf(sys, steps, M);
    HostMeaning(sys, steps, M, 0);
    forall i: nat | 1 <= i < |steps|
      ensures PositiveStep(sys, steps[i], i, M) <==> M.t.ts[i] > 0 && (p.steps[i].stores != map[] ==> M.t.gts[i] > 0) {
      StepFits(sys, steps, M, i);
    }
    if PositiveSteps(sys, steps, 1, M) {
      forall i | Inst(p, i) ensures M.t.ts[i] > 0 && (p.steps[i].stores != map[] ==> M.t.gts[i] > 0) {
        assert PositiveStep(sys, steps[i], i, M);
      }
    }
  }

  lemma LaidGrows(threads: seq<Thread>, steps: seq<TraceStep>, n: nat)
    requires n < |threads| && Laid(threads, steps, n)
    ensures Laid(threads, steps + InstSteps(threads[n].host, threads[n].insts, |threads[n].insts|), n + 1)
  {
    var r := steps + InstSteps(threads[n].host, threads[n].insts, |threads[n].insts|);
    forall i, k | 0 <= i < n + 1 && 0 <= k < |threads[i].insts| ensures Lies(threads, r, i, k) {
      if i < n {
        assert Lies(threads, steps, i, k);
      }
    }
  }

  lemma PositiveExtends(sys: System, a: seq<TraceStep>, b: seq<TraceStep>)
    requires |a| >= 1
    ensures forall M: Model :: PositiveSteps(sys, a + b, 1, M) <==>
              PositiveSteps(sys, a, 1, M) && PositiveSteps(sys, a + b, |a|, M)
  {
    forall M: Model ensures PositiveSteps(sys, a + b, 1, M) <==>
              PositiveSteps(sys, a, 1, M) && PositiveSteps(sys, a + b, |a|, M) {
      assert forall i: nat :: i < |a| ==> (a + b)[i] == a[i];
    }
  }

  /** RegisterSteps for every thread, in the order of the template. */
  method RegisterTso(tso: Tso, threads: seq<Thread>)
    requires tso.Valid() && !tso.finished && tso.constr == [] && |tso.steps| == 1
    requires Template(tso.sys, threads)
    modifies tso
    ensures tso.Valid() && tso.finished && Laid(threads, tso.steps, |threads|)
    ensures forall M: Model :: AllHold(tso.constr, M) <==> PositiveSteps(tso.sys, tso.steps, 1, M)
  {
    for n := 0 to |threads|
      invariant tso.Valid() && !tso.finished && Laid(threads, tso.steps, n)
      invariant forall M: Model :: AllHold(tso.constr, M) <==> PositiveSteps(tso.sys, tso.steps, 1, M)
    {
      LaidGrows(threads, tso.steps, n);
      PositiveExtends(tso.sys, tso.steps, InstSteps(threads[n].host, threads[n].insts, |threads[n].insts|));
      tso.RegisterSteps(threads[n].host, threads[n].insts);
    }
    tso.FinishRegisterSteps();
  }

  /** SetLocalState for one thread. */
  method SetThread(threads: seq<Thread>, n: nat) returns (cs: seq<Formula>)
    requires n < |threads|
    ensures forall M: Model :: AllHold(cs, M) <==> ThreadLinked(M, threads, n)
  {
    ThreadSteps(threads, n);
    var tss, nums := Steps(threads, n), Numbers(threads, n);
    if threads[n].ordered {
      cs := SetOrdered(threads[n].host, tss, nums, threads[n].priv);
    } else {
      cs := SetUnordered(threads[n].host, tss, nums, threads[n].priv);
    }
  }

  /** SetLocalState for every thread. */
  method LinkThreads(threads: seq<Thread>) returns (cs: seq<Formula>)
    ensures forall M: Model :: AllHold(cs, M) <==> ThreadsLinked(M, threads, |threads|)
  {
    cs := [];
    for n := 0 to |threads|
      invariant forall M: Model :: AllHold(cs, M) <==> ThreadsLinked(M, threads, n)
    {
      OneThreadMore(threads, n);
      var more := SetThread(threads, n);
      AllHoldConcat(cs, more);
      cs := cs + more;
    }
  }

  lemma OneThreadMore(threads: seq<Thread>, n: nat)
    requires n < |threads|
    ensures forall M: Model :: ThreadsLinked(M, threads, n + 1) <==>
              ThreadsLinked(M, threads, n) && ThreadLinked(M, threads, n)
  {
  }

  /** Unroll, SetFinalProperty if there is a property, and LinkStates. */
  method UnrollTso(tso: Tso, threads: seq<Thread>, property: Option<Expr>)
    requires tso.Valid() && !tso.finished && tso.constr == [] && |tso.steps| == 1
    requires Template(tso.sys, threads)
    modifies tso
    ensures tso.Valid() && Program(tso.sys, threads, tso.steps, property)
    ensures forall M: Model :: Fits(tso.steps, M) ==>
              (AllHold(tso.constr, M) <==>
               Satisfies(tso.sys, threads, tso.steps, M) && Finally(tso.sys, M, First(threads, |threads|), property))
  {
    RegisterTso(tso, threads);
    LaidIsProgram(tso.sys, threads, tso.steps, property);
    PositiveAreGood(tso.sys, tso.steps);
    if property.Some? {
      ghost var laid := tso.steps;
      tso.SetFinalProperty(property.value);
      FinalIsGood(tso.sys, laid, property.value);
    } else {
      assert tso.steps + [] == tso.steps;
    }
    tso.ApplyAxioms();
    var cs := LinkThreads(threads);
    AllHoldConcat(tso.constr, cs);
    tso.Push(cs);
  }

  /** The final step, later than the initial one, has a positive timestamp. */
  lemma FinalIsGood(sys: System, laid: seq<TraceStep>, property: Expr)
    requires Registered(sys, laid) && Registered(sys, laid + [FinalStep(sys, property)])
    ensures forall M: Model | Fits(laid + [FinalStep(sys, property)], M) && FinalLast(M, |laid|) ::
              PositiveSteps(sys, laid, 1, M) <==> Good(sys, laid + [FinalStep(sys, property)], M)
  {
    var ts := FinalStep(sys, property);
    var steps := laid + [ts];
    PositiveAreGood(sys, steps);
    PositiveAppend(sys, laid, ts, 1);
    forall M: Model | Fits(steps, M) && FinalLast(M, |laid|)
      ensures PositiveSteps(sys, laid, 1, M) <==> Good(sys, steps, M)
    {
      var zero: nat := 0;
      assert Time(M, Now(zero)) < Time(M, Now(|laid|));
    }
  }

  lemma PositiveAreGood(sys: System, steps: seq<TraceStep>)
    requires Registered(sys, steps)
    ensures forall M: Model :: Fits(steps, M) ==> (PositiveSteps(sys, steps, 1, M) <==> Good(sys, steps, M))
  {
    forall M: Model | Fits(steps, M) ensures PositiveSteps(sys, steps, 1, M) <==> Good(sys, steps, M) {
      PositiveIsTimed(sys, steps, M);
    }
  }

  // ---------- the SC model ----------

  lemma PositiveFromExtends(a: seq<TraceStep>, b: seq<TraceStep>)
    requires |a| >= 1
    ensures forall M: Model :: PositiveFrom(a + b, 1, M) <==> PositiveFrom(a, 1, M) && PositiveFrom(a + b, |a|, M)
  {
  }

  lemma ScPositiveAreGood(sys: System, steps: seq<TraceStep>)
    requires Registered(sys, steps)
    ensures forall M: Model :: Fits(steps, M) && NoFacets(M) ==> (PositiveFrom(steps, 1, M) <==> Good(sys, steps, M))
  {
    PositiveAreGood(sys, steps);
    forall M: Model | Fits(steps, M) && NoFacets(M) ensures PositiveFrom(steps, 1, M) <==> PositiveSteps(sys, steps, 1, M) {
      forall i: nat | 1 <= i < |steps| ensures PositiveStep(sys, steps[i], i, M) <==> Time(M, Now(i)) > 0 {
      }
    }
  }

  method RegisterSc(sc: Sc, threads: seq<Thread>)
    requires sc.Valid() && !sc.finished && sc.constr == [] && |sc.steps| == 1
    requires Template(sc.sys, threads)
    modifies sc
    ensures sc.Valid() && sc.finished && Laid(threads, sc.steps, |threads|)
    ensures forall M: Model :: AllHold(sc.constr, M) <==> PositiveFrom(sc.steps, 1, M)
  {
    for n := 0 to |threads|
      invariant sc.Valid() && !sc.finished && Laid(threads, sc.steps, n)
      invariant forall M: Model :: AllHold(sc.constr, M) <==> PositiveFrom(sc.steps, 1, M)
    {
      LaidGrows(threads, sc.steps, n);
      PositiveFromExtends(sc.steps, InstSteps(threads[n].host, threads[n].insts, |threads[n].insts|));
      sc.RegisterSteps(threads[n].host, threads[n].insts);
    }
    sc.FinishRegisterSteps();
  }

  lemma ScFinalIsGood(sys: System, laid: seq<TraceStep>, property: Expr)
    requires Registered(sys, laid) && Registered(sys, laid + [FinalStep(sys, property)])
    ensures var steps := laid + [FinalStep(sys, property)];
            forall M: Model | Fits(steps, M) && NoFacets(M) && FinalLast(M, |laid|) ::
              PositiveFrom(laid, 1, M) <==> Good(sys, steps, M)
  {
    var steps := laid + [FinalStep(sys, property)];
    ScPositiveAreGood(sys, steps);
    forall M: Model | Fits(steps, M) && NoFacets(M) && FinalLast(M, |laid|)
      ensures PositiveFrom(laid, 1, M) <==> Good(sys, steps, M)
    {
      LastIsPositive(laid, FinalStep(sys, property), M);
    }
  }

  lemma LastIsPositive(laid: seq<TraceStep>, ts: TraceStep, M: Model)
    requires laid != [] && FinalLast(M, |laid|) && Time(M, Now(0)) == 0
    ensures PositiveFrom(laid, 1, M) <==> PositiveFrom(laid + [ts], 1, M)
  {
    var zero: nat := 0;
    assert Time(M, Now(zero)) < Time(M, Now(|laid|));
  }

  /** The same under the SC model. */
  method UnrollSc(sc: Sc, threads: seq<Thread>, property: Option<Expr>)
    requires sc.Valid() && !sc.finished && sc.constr == [] && |sc.steps| == 1
    requires Template(sc.sys, threads)
    modifies sc
    ensures sc.Valid() && Program(sc.sys, threads, sc.steps, property)
    ensures forall M: Model :: Fits(sc.steps, M) && NoFacets(M) ==>
              (AllHold(sc.constr, M) <==>
               SatisfiesSc(sc.sys, threads, sc.steps, M) && Finally(sc.sys, M, First(threads, |threads|), property))
  {
    RegisterSc(sc, threads);
    LaidIsProgram(sc.sys, threads, sc.steps, property);
    ScPositiveAreGood(sc.sys, sc.steps);
    if property.Some? {
      ghost var laid := sc.steps;
      sc.SetFinalProperty(property.value);
      ScFinalIsGood(sc.sys, laid, property.value);
    } else {
      assert sc.steps + [] == sc.steps;
    }
    sc.ApplyAxioms();
    var cs := LinkThreads(threads);
    AllHoldConcat(sc.constr, cs);
    sc.Push(cs);
  }

  lemma ThreadSteps(threads: seq<Thread>, i: nat)
    requires i < |threads|
    ensures StepsOf(threads[i].host, Steps(threads, i), Numbers(threads, i))
  {
    FirstIsPositive(threads, i);
  }

  lemma FirstIsPositive(threads: seq<Thread>, n: nat)
    requires n <= |threads|
    ensures First(threads, n) >= 1
  {
  }
}
