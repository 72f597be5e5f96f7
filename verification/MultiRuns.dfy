/** The constraints of a program of ordered ILAs and the machines: they can be met with given values
    exactly when the private states are linked and a complete run of the machine has these values and
    ends in a state with the final property. */
module MultiRuns {
  import opened Ast
  import opened Trace
  import opened Ila
  import opened Constraints
  import opened RfCoFr
  import opened MemoryModels
  import opened LocalState
  import opened MultiIla
  import opened StepReads
  import PrivateState
  import Positions
  import opened Machine
  import opened TsoMachine
  import opened TsoEquivalence
  import Atomic = Sc

  // ---------- the steps of a program ----------

  lemma {:induction false} ThreadOfStep(threads: seq<Thread>, n: nat, j: nat) returns (i: nat, k: nat)
    requires n <= |threads| && 1 <= j < First(threads, n)
    ensures i < n && k < |threads[i].insts| && j == First(threads, i) + k
  {
    if j >= First(threads, n - 1) {
      i, k := n - 1, j - First(threads, n - 1);
    } else {
      i, k := ThreadOfStep(threads, n - 1, j);
    }
  }

  lemma {:induction false} StepAt(sys: System, threads: seq<Thread>, steps: seq<TraceStep>, property: Option<Expr>,
                                  i: nat, k: nat)
    requires Program(sys, threads, steps, property) && i < |threads| && k < |threads[i].insts|
    ensures Lies(threads, steps, i, k) && First(threads, i) + k < First(threads, |threads|)
  {
    FirstGrows(threads, i, |threads|);
    assert Lies(threads, steps[..First(threads, |threads|)], i, k);
  }

  /** Cores are hosts; the final step is step n. */
  ghost predicate Shaped(p: Prog, steps: seq<TraceStep>, n: nat) {
    && |p.steps| == |steps| && 1 <= n <= |steps| <= n + 1
    && forall j :: Inst(p, j) ==> p.steps[j].core == steps[j].host && (p.steps[j].final <==> j == n)
  }

  /** The steps of the threads are instruction steps; step n, if there is one, is the final step. */
  lemma {:induction false} KindOfStep(sys: System, threads: seq<Thread>, steps: seq<TraceStep>,
                                      property: Option<Expr>, j: nat)
    requires Registered(sys, steps) && Template(sys, threads) && Program(sys, threads, steps, property)
    requires 1 <= j < |steps|
    ensures steps[j].kind == FINAL_EVT <==> j == First(threads, |threads|)
  {
    if j < First(threads, |threads|) {
      var i, k := ThreadOfStep(threads, |threads|, j);
      StepAt(sys, threads, steps, property, i, k);
    } else {
      assert steps[j] == steps[First(threads, |threads|)..][j - First(threads, |threads|)];
    }
  }

  /** What Shaped and WellFormed ask of one step. */
  ghost predicate ShapedStep(sys: System, steps: seq<TraceStep>, st: Step, j: nat, n: nat)
    requires j < |steps|
  {
    && st.core == steps[j].host && (st.final <==> j == n) && (st.core == sys.global <==> j == n)
    && (st.final ==> st.stores == map[] && !st.rmw && !st.fence)
    && (st.rmw ==> st.stores != map[])
  }

  lemma {:induction false} StepIsShaped(sys: System, threads: seq<Thread>, steps: seq<TraceStep>,
                                        property: Option<Expr>, M: Model, j: nat)
    requires Registered(sys, steps) && Template(sys, threads) && Program(sys, threads, steps, property)
    requires 1 <= j < |steps|
    ensures Inst(ProgOf(sys, steps, M), j)
    ensures ShapedStep(sys, steps, ProgOf(sys, steps, M).steps[j], j, First(threads, |threads|))
  {
    KindOfStep(sys, threads, steps, property, j);
    StepOfProg(sys, steps, M, j);
    StepFits(sys, steps, M, j);
    assert WellBuilt(sys, steps[j]);
  }

  lemma {:induction false} ShapedIsWellFormed(sys: System, steps: seq<TraceStep>, p: Prog, n: nat)
    requires |p.steps| == |steps| && 1 <= n <= |steps| <= n + 1
    requires p.steps[0].core == sys.global && p.steps[0].loads == map[]
    requires forall j: nat :: 1 <= j < |steps| ==> ShapedStep(sys, steps, p.steps[j], j, n)
    ensures WellFormed(p) && Shaped(p, steps, n)
  {
  }

  lemma {:induction false} ProgramIsWellFormed(sys: System, threads: seq<Thread>, steps: seq<TraceStep>,
                                               property: Option<Expr>, M: Model)
    requires Registered(sys, steps) && Template(sys, threads) && Program(sys, threads, steps, property)
    ensures WellFormed(ProgOf(sys, steps, M)) && Shaped(ProgOf(sys, steps, M), steps, First(threads, |threads|))
  {
    var n := First(threads, |threads|);
    FirstIsPositive(threads, |threads|);
    forall j: nat | 1 <= j < |steps| ensures ShapedStep(sys, steps, ProgOf(sys, steps, M).steps[j], j, n) {
      StepIsShaped(sys, threads, steps, property, M, j);
    }
    assert |steps[n..]| <= 1;
    ShapedIsWellFormed(sys, steps, ProgOf(sys, steps, M), n);
  }

  /** Two steps of one core belong to one thread, in its order. */
  lemma {:induction false} SameThread(sys: System, threads: seq<Thread>, steps: seq<TraceStep>,
                                      property: Option<Expr>, p: Prog, a: nat, b: nat)
    returns (i: nat, k: nat, l: nat)
    requires Template(sys, threads) && Program(sys, threads, steps, property)
    requires Shaped(p, steps, First(threads, |threads|)) && Before(p, a, b) && !p.steps[b].final
    ensures i < |threads| && k < l < |threads[i].insts|
    ensures a == Numbers(threads, i)[k] && b == Numbers(threads, i)[l]
  {
    var j;
    i, k := ThreadOfStep(threads, |threads|, a);
    j, l := ThreadOfStep(threads, |threads|, b);
    StepAt(sys, threads, steps, property, i, k);
    StepAt(sys, threads, steps, property, j, l);
    assert threads[i].host == threads[j].host;
  }

  lemma {:induction false} NeighboursAreOrdered(sys: System, threads: seq<Thread>, steps: seq<TraceStep>,
                                                property: Option<Expr>, p: Prog, i: nat, k: nat)
    requires Program(sys, threads, steps, property) && Shaped(p, steps, First(threads, |threads|))
    requires i < |threads| && 0 < k < |threads[i].insts|
    ensures var nums := Numbers(threads, i);
            Before(p, nums[k - 1], nums[k]) && 1 <= nums[k - 1] && nums[k] < |steps|
  {
    FirstIsPositive(threads, i);
    StepAt(sys, threads, steps, property, i, k - 1);
    StepAt(sys, threads, steps, property, i, k);
  }

  // ---------- constraints on times are program order ----------

  lemma {:induction false} OrderedIsChained(M: Model, threads: seq<Thread>, i: nat)
    requires AllOrdered(threads) && ThreadsLinked(M, threads, |threads|) && i < |threads|
    ensures forall k :: 0 <= k < |threads[i].insts| ==> Chained(M, Numbers(threads, i), k)
  {
    assert ThreadLinked(M, threads, i);
  }

  lemma {:induction false} ChainsGiveProgramOrder(sys: System, threads: seq<Thread>, steps: seq<TraceStep>,
                                                  property: Option<Expr>, M: Model)
    requires Template(sys, threads) && Program(sys, threads, steps, property) && Good(sys, steps, M)
    requires AllOrdered(threads) && ThreadsLinked(M, threads, |threads|)
    requires Finally(sys, M, First(threads, |threads|), property)
    ensures ProgramOrdered(ProgOf(sys, steps, M), M.t)
  {
    var p, n := ProgOf(sys, steps, M), First(threads, |threads|);
    ProgramIsWellFormed(sys, threads, steps, property, M);
    forall a: nat, b: nat | Before(p, a, b) ensures M.t.ts[a] < M.t.ts[b] {
      if b == n {
        assert a < n && Time(M, Now(a)) < Time(M, Now(b));
      } else {
        var i, k, l := SameThread(sys, threads, steps, property, p, a, b);
        var nums := Numbers(threads, i);
        OrderedIsChained(M, threads, i);
        ChainIsOrder(M, nums, |nums|);
        assert Time(M, Now(nums[k])) < Time(M, Now(nums[l]));
      }
    }
  }

  /** The values alone: every private state of every thread is linked in program order. */
  ghost predicate PrivateLinked(M: Model, threads: seq<Thread>) {
    forall i, s :: 0 <= i < |threads| && s in threads[i].priv ==> StateOrdered(M, threads, i, s)
  }

  ghost predicate StateOrdered(M: Model, threads: seq<Thread>, i: nat, s: string)
    requires i < |threads|
  {
    PrivateState.OrderedLinks(LinesOf(M, threads[i].host, Steps(threads, i), Numbers(threads, i), s),
                              FinalValue(M, threads[i].host, s))
  }

  ghost predicate HasProperty(sys: System, M: Model, property: Option<Expr>) {
    property.Some? ==> PropertyHolds(sys, M, property.value)
  }

  lemma {:induction false} LinkedIsPrivate(M: Model, threads: seq<Thread>)
    requires AllOrdered(threads) && ThreadsLinked(M, threads, |threads|)
    ensures PrivateLinked(M, threads)
  {
    forall i: nat, s | i < |threads| && s in threads[i].priv ensures StateOrdered(M, threads, i, s) {
      assert ThreadLinked(M, threads, i);
    }
  }

  lemma {:induction false} LinksIgnoreTimes(M: Model, t: Times, threads: seq<Thread>)
    ensures PrivateLinked(M, threads) <==> PrivateLinked(M.(t := t), threads)
  {
    forall i, s | 0 <= i < |threads|
      ensures StateOrdered(M, threads, i, s) <==> StateOrdered(M.(t := t), threads, i, s) {
      LinksOfStateIgnoreTimes(M, t, threads[i].host, Steps(threads, i), Numbers(threads, i), s);
    }
  }

  lemma {:induction false} LinksOfStateIgnoreTimes(M: Model, t: Times, host: string, tss: seq<TraceStep>,
                                                   nums: seq<nat>, s: string)
    requires |nums| == |tss|
    ensures PrivateState.OrderedLinks(LinesOf(M, host, tss, nums, s), FinalValue(M, host, s)) <==>
            PrivateState.OrderedLinks(LinesOf(M.(t := t), host, tss, nums, s), FinalValue(M.(t := t), host, s))
  {
    var a, b := LinesOf(M, host, tss, nums, s), LinesOf(M.(t := t), host, tss, nums, s);
    forall k | 0 <= k < |a| ensures a[k] == b[k].(ts := a[k].ts) {
      if k == 0 {
        assert a[0] == InitialLine(M, host, s) && b[0] == InitialLine(M.(t := t), host, s);
      } else {
        assert a[k] == LineOf(M, tss[k - 1], nums[k - 1], s);
        LineIgnoresTimes(M, t, tss[k - 1], nums[k - 1], s);
      }
    }
    CarryIgnoresTimes(a, b, |tss| + 1);
  }

  lemma {:induction false} LineIgnoresTimes(M: Model, t: Times, ts: TraceStep, num: nat, s: string)
    ensures var l := LineOf(M, ts, num, s); l == LineOf(M.(t := t), ts, num, s).(ts := l.ts)
  {
  }

  lemma {:induction false} CarryIgnoresTimes(a: seq<PrivateState.Line>, b: seq<PrivateState.Line>, n: nat)
    requires PrivateState.Lines(a) && PrivateState.Lines(b) && |a| == |b| && n <= |a|
    requires forall k :: 0 <= k < |a| ==> a[k] == b[k].(ts := a[k].ts)
    ensures forall k :: 1 <= k <= n ==> PrivateState.Carry(a, k) == PrivateState.Carry(b, k)
  {
    if n > 1 {
      CarryIgnoresTimes(a, b, n - 1);
    }
  }

  /** Values that are linked, with times in program order, satisfy the links and put the final step last. */
  lemma {:induction false} ProgramOrderGivesLinks(sys: System, threads: seq<Thread>, steps: seq<TraceStep>,
                                                  property: Option<Expr>, M: Model, t: Times)
    requires Registered(sys, steps) && Template(sys, threads) && Program(sys, threads, steps, property)
    requires AllOrdered(threads) && PrivateLinked(M, threads) && HasProperty(sys, M, property)
    requires Timed(ProgOf(sys, steps, M), t) && ProgramOrdered(ProgOf(sys, steps, M), t)
    ensures ThreadsLinked(M.(t := t), threads, |threads|)
    ensures Finally(sys, M.(t := t), First(threads, |threads|), property)
  {
    var p, N, n := ProgOf(sys, steps, M), M.(t := t), First(threads, |threads|);
    ProgramIsWellFormed(sys, threads, steps, property, M);
    LinksIgnoreTimes(M, t, threads);
    forall i: nat | i < |threads| ensures ThreadLinked(N, threads, i) {
      forall k | 0 <= k < |threads[i].insts| ensures Chained(N, Numbers(threads, i), k) {
        if k > 0 {
          NeighboursAreOrdered(sys, threads, steps, property, p, i, k);
        }
      }
      forall s | s in threads[i].priv ensures StateOrdered(N, threads, i, s) {
      }
    }
    if property.Some? {
      assert |steps[n..]| == 1;
      forall j: nat | j < n ensures Time(N, Now(j)) < Time(N, Now(n)) {
        assert j > 0 ==> Before(p, j, n);
      }
    }
  }

  // ---------- satisfiable is allowed ----------

  /** Under TSO the constraints can be met with given values exactly when the private states are
      linked, the property holds and TSO allows the values. */
  lemma {:induction false} SatisfiableIsAllowed(sys: System, threads: seq<Thread>, steps: seq<TraceStep>,
                                                property: Option<Expr>, M: Model)
    requires Registered(sys, steps) && Template(sys, threads) && Program(sys, threads, steps, property)
    requires AllOrdered(threads)
    ensures (exists t :: Satisfies(sys, threads, steps, M.(t := t)) &&
                         Finally(sys, M.(t := t), First(threads, |threads|), property)) <==>
            PrivateLinked(M, threads) && HasProperty(sys, M, property) && TsoAllowed(ProgOf(sys, steps, M))
  {
    var p, n := ProgOf(sys, steps, M), First(threads, |threads|);
    if t :| Satisfies(sys, threads, steps, M.(t := t)) && Finally(sys, M.(t := t), n, property) {
      ProgOfIgnoresTimes(sys, steps, M, t);
      ChainsGiveProgramOrder(sys, threads, steps, property, M.(t := t));
      LinkedIsPrivate(M.(t := t), threads);
      LinksIgnoreTimes(M, t, threads);
    }
    if PrivateLinked(M, threads) && HasProperty(sys, M, property) && TsoAllowed(p) {
      var t :| Timed(p, t) && TsoAxioms(p, t) && ProgramOrdered(p, t);
      ProgOfIgnoresTimes(sys, steps, M, t);
      ProgramOrderGivesLinks(sys, threads, steps, property, M, t);
      assert Satisfies(sys, threads, steps, M.(t := t));
    }
  }

  lemma {:induction false} ScIgnoresFacets(p: Prog, t: Times)
    requires Timed(p, t) && ScAxioms(p, t) && ProgramOrdered(p, t)
    ensures var u := Times(t.ts, t.ts); Timed(p, u) && ScAxioms(p, u) && ProgramOrdered(p, u)
  {
    var u := Times(t.ts, t.ts);
    forall r, s | Inst(p, r) && s in p.steps[r].loads ensures exists w :: ScReadFrom(p, u, r, s, w) {
      var w :| ScReadFrom(p, t, r, s, w);
      assert ScReadFrom(p, u, r, s, w);
    }
  }

  /** The same under SC. */
  lemma {:induction false} ScSatisfiableIsAllowed(sys: System, threads: seq<Thread>, steps: seq<TraceStep>,
                                                  property: Option<Expr>, M: Model)
    requires Registered(sys, steps) && Template(sys, threads) && Program(sys, threads, steps, property)
    requires AllOrdered(threads)
    ensures (exists t :: NoFacets(M.(t := t)) && SatisfiesSc(sys, threads, steps, M.(t := t)) &&
                         Finally(sys, M.(t := t), First(threads, |threads|), property)) <==>
            PrivateLinked(M, threads) && HasProperty(sys, M, property) && Atomic.ScAllowed(ProgOf(sys, steps, M))
  {
    var p, n := ProgOf(sys, steps, M), First(threads, |threads|);
    if t :| NoFacets(M.(t := t)) && SatisfiesSc(sys, threads, steps, M.(t := t)) &&
            Finally(sys, M.(t := t), n, property)
    {
      ProgOfIgnoresTimes(sys, steps, M, t);
      ChainsGiveProgramOrder(sys, threads, steps, property, M.(t := t));
      LinkedIsPrivate(M.(t := t), threads);
      LinksIgnoreTimes(M, t, threads);
    }
    if PrivateLinked(M, threads) && HasProperty(sys, M, property) && Atomic.ScAllowed(p) {
      var t0 :| Timed(p, t0) && ScAxioms(p, t0) && ProgramOrdered(p, t0);
      ScIgnoresFacets(p, t0);
      var t := Times(t0.ts, t0.ts);
      ProgOfIgnoresTimes(sys, steps, M, t);
      ProgramOrderGivesLinks(sys, threads, steps, property, M, t);
      assert NoFacets(M.(t := t)) && SatisfiesSc(sys, threads, steps, M.(t := t));
    }
  }

  // ---------- the property and the state of the machine ----------

  /** Shared memories occur only in LOADs, and no variable is stored to. */
  predicate LoadsOnly(sys: System, e: Expr) {
    match e
    case Var(x) => x !in sys.shared || x !in sys.mems
    case Const(_) => true
    case App(op, args, _) =>
      && !(op == kStore && |args| > 0 && args[0].Var?)
      && forall i {:trigger args[i]} :: 0 <= i < |args| ==>
           (op == kLoad && |args| == 2 && i == 0 && args[0].Var?) || LoadsOnly(sys, args[i])
  }

  /** The addresses of the loads from shared memories are words. */
  ghost predicate WordAddresses(sys: System, I: Interp, env: Env, e: Expr) {
    forall s, ld {:trigger ld in LoadsIn(e, s)} :: s in sys.shared && s in sys.mems && ld in LoadsIn(e, s) ==>
      Eval(I, ld.addr, env).BvV?
  }

  /** The variables of a step when the shared states are those of a memory. */
  ghost function EndState(sys: System, env: Env, memory: Memory): Env {
    x => if x !in sys.shared then env(x)
         else if x in sys.mems then MemV(imap a: int :: Word(memory(x, BvV(a))))
         else memory(x, Register)
  }

  /** What an expression reads is in the memory. */
  ghost predicate Sees(sys: System, I: Interp, env: Env, e: Expr, memory: Memory) {
    && (forall x {:trigger x in Uses(e)} :: x in Uses(e) && x in sys.shared && x !in sys.mems ==>
          env(x) == memory(x, Register))
    && (forall s, ld {:trigger ld in LoadsIn(e, s)} :: s in sys.shared && s in sys.mems && ld in LoadsIn(e, s) ==>
          Eval(I, ld.data, env) == memory(s, Eval(I, ld.addr, env)))
  }

  lemma {:induction false} ArgumentParts(es: seq<Expr>, i: nat, s: string)
    requires i < |es|
    ensures Uses(es[i]) <= UsesOf(es)
    ensures forall ld :: ld in LoadsIn(es[i], s) ==> ld in LoadsInAll(es, s)
  {
    if i > 0 {
      ArgumentParts(es[1..], i - 1, s);
    }
  }

  lemma {:induction false} ArgumentSees(sys: System, I: Interp, env: Env, e: Expr, memory: Memory, i: nat)
    requires e.App? && LoadsOnly(sys, e) && i < |e.args|
    requires Sees(sys, I, env, e, memory) && WordAddresses(sys, I, env, e)
    ensures Sees(sys, I, env, e.args[i], memory) && WordAddresses(sys, I, env, e.args[i])
  {
    ArgumentParts(e.args, i, "");
    assert Uses(e.args[i]) <= Uses(e);
    forall s, ld | ld in LoadsIn(e.args[i], s) ensures ld in LoadsIn(e, s) {
      ArgumentParts(e.args, i, s);
    }
  }

  /** A LOAD from a shared memory. */
  predicate SharedLoad(sys: System, e: Expr) {
    && e.App? && e.op == kLoad && |e.args| == 2
    && e.args[0].Var? && e.args[0].name in sys.shared && e.args[0].name in sys.mems
  }

  lemma {:induction false} EndStateMeaning(sys: System, I: Interp, env: Env, e: Expr, memory: Memory)
    requires LoadsOnly(sys, e) && Sees(sys, I, env, e, memory) && WordAddresses(sys, I, env, e)
    ensures Eval(I, e, env) == Eval(I, e, EndState(sys, env, memory))
    decreases e
  {
    var end := EndState(sys, env, memory);
    match e
    case Var(x) => assert x in Uses(e);
    case Const(_) =>
    case App(op, args, params) =>
      if SharedLoad(sys, e) {
        assert LoadsOnly(sys, args[1]);
        ArgumentSees(sys, I, env, e, memory, 1);
        EndStateMeaning(sys, I, env, args[1], memory);
        LoadAtEnd(sys, I, env, e, memory);
      } else {
        forall i | 0 <= i < |args| ensures Eval(I, args[i], env) == Eval(I, args[i], end) {
          ArgumentSees(sys, I, env, e, memory, i);
          EndStateMeaning(sys, I, env, args[i], memory);
        }
        assert EvalAll(I, args, env) == EvalAll(I, args, end);
      }
  }

  lemma {:induction false} LoadAtEnd(sys: System, I: Interp, env: Env, e: Expr, memory: Memory)
    requires SharedLoad(sys, e) && Sees(sys, I, env, e, memory) && WordAddresses(sys, I, env, e)
    requires Eval(I, e.args[1], env) == Eval(I, e.args[1], EndState(sys, env, memory))
    ensures Eval(I, e, env) == Eval(I, e, EndState(sys, env, memory))
  {
    var s, ld := e.args[0].name, LoadExpr(e.args[1], e);
    assert ld in LoadsIn(e, s);
    var a := Eval(I, e.args[1], env);
    assert Eval(I, e, env) == memory(s, a) && a == BvV(a.n);
    var end := EndState(sys, env, memory);
    assert Words(end(s))[a.n] == Word(memory(s, BvV(a.n)));
    LoadMeaning(I, e, env);
    LoadMeaning(I, e, end);
  }

  lemma {:induction false} LoadMeaning(I: Interp, e: Expr, env: Env)
    requires e.App? && e.op == kLoad && |e.args| == 2
    ensures Eval(I, e, env) == BvV(Words(Eval(I, e.args[0], env))[Word(Eval(I, e.args[1], env))])
  {
  }

  /** The loads of a step match a memory. */
  ghost predicate LoadsFrom(p: Prog, n: nat, memory: Memory)
    requires Inst(p, n)
  {
    forall s, k {:trigger p.steps[n].loads[s][k]} :: s in p.steps[n].loads && 0 <= k < |p.steps[n].loads[s]| ==>
      p.steps[n].loads[s][k].data == memory(s, p.steps[n].loads[s][k].addr)
  }

  ghost predicate Readable(sys: System, M: Model, property: Expr) {
    LoadsOnly(sys, property) && WordAddresses(sys, M.interp, M.env(sys.global, FINAL_SUFFIX), property)
  }

  /** The property evaluated on the shared states of a memory. */
  ghost predicate PropertyOf(sys: System, M: Model, property: Expr, memory: Memory) {
    Truth(Eval(M.interp, property, EndState(sys, M.env(sys.global, FINAL_SUFFIX), memory)))
  }

  /** The decode, an update or the property of a step, or the address or the data of a store to a variable. */
  ghost predicate Part(ts: TraceStep, e: Expr) {
    exists f :: Belongs(ts, f) && (e == f || (StoresToVar(f) && (e == f.args[1] || e == f.args[2])))
  }

  /** What a part reads, the step reads. */
  lemma {:induction false} PartReads(ts: TraceStep, e: Expr)
    requires Part(ts, e)
    ensures forall x :: x in Uses(e) ==> x in ReadSet(ts)
    ensures forall s, ld :: ld in LoadsIn(e, s) ==> ld in LoadsOf(ts, s)
  {
    var f :| Belongs(ts, f) && (e == f || (StoresToVar(f) && (e == f.args[1] || e == f.args[2])));
    forall x | x in Uses(e) ensures x in ReadSet(ts) {
      UsesMeaning(e, x);
      if e != f { StoreMentions(f, x); }
      ReadSetMeaning(ts, x);
    }
    forall s, ld | ld in LoadsIn(e, s) ensures ld in LoadsOf(ts, s) {
      LoadsInMeaning(e, s, ld);
      if e != f { assert Occurs(e, f) by { assert Occurs(e, e); } }
      OccursTrans(ld.data, e, f);
      LoadsMeaning(ts, s, ld);
    }
  }

  /** A part of a step has the value it has in the state that the step's accesses match. */
  lemma {:induction false} PartIsOfMemory(sys: System, steps: seq<TraceStep>, M: Model, n: nat, e: Expr, memory: Memory)
    requires Registered(sys, steps) && 1 <= n < |steps| && Part(steps[n], e)
    requires LoadsFrom(ProgOf(sys, steps, M), n, memory)
    requires LoadsOnly(sys, e) && WordAddresses(sys, M.interp, M.env(steps[n].host, steps[n].pos), e)
    ensures
      var env := M.env(steps[n].host, steps[n].pos);
      Eval(M.interp, e, env) == Eval(M.interp, e, EndState(sys, env, memory))
  {
    var I, ts := M.interp, steps[n];
    var env := M.env(ts.host, ts.pos);
    var st := ProgOf(sys, steps, M).steps[n];
    StepOfProg(sys, steps, M, n);
    PartReads(ts, e);
    forall x | x in Uses(e) && x in sys.shared && x !in sys.mems ensures env(x) == memory(x, Register) {
      assert st.loads[x][0] == Access(Register, env(x));
    }
    forall s, ld | s in sys.shared && s in sys.mems && ld in LoadsIn(e, s)
      ensures Eval(I, ld.data, env) == memory(s, Eval(I, ld.addr, env))
    {
      LoadedIsUsed(e, s, ld);
      var k :| 0 <= k < |LoadsOf(ts, s)| && LoadsOf(ts, s)[k] == ld;
      assert st.loads[s][k] == Access(Eval(I, ld.addr, env), Eval(I, ld.data, env));
    }
    EndStateMeaning(sys, I, env, e, memory);
  }

  lemma {:induction false} PropertyIsOfMemory(sys: System, steps: seq<TraceStep>, M: Model, n: nat, property: Expr,
                                              memory: Memory)
    requires Registered(sys, steps) && 1 <= n < |steps| && steps[n] == FinalStep(sys, property)
    requires LoadsFrom(ProgOf(sys, steps, M), n, memory) && Readable(sys, M, property)
    ensures PropertyHolds(sys, M, property) <==> PropertyOf(sys, M, property, memory)
  {
    assert Belongs(steps[n], property);
    PartIsOfMemory(sys, steps, M, n, property, memory);
  }

  lemma {:induction false} LoadedIsUsed(e: Expr, s: string, ld: LoadExpr)
    requires ld in LoadsIn(e, s)
    ensures s in Uses(e)
    decreases e, 1
  {
    if ld in LoadsInAll(e.args, s) {
      if e.op == kStore && e.args[0].Var? {
        assert LoadsIn(e.args[0], s) == [];
        LoadedAreUsed(e.args[1..], s, ld);
      } else {
        LoadedAreUsed(e.args, s, ld);
      }
    } else {
      assert e.args[0] == Var(s) && s in Uses(e.args[0]);
    }
  }

  lemma {:induction false} LoadedAreUsed(es: seq<Expr>, s: string, ld: LoadExpr)
    requires ld in LoadsInAll(es, s)
    ensures s in UsesOf(es)
    decreases es, 0
  {
    if ld in LoadsIn(es[0], s) {
      LoadedIsUsed(es[0], s, ld);
    } else {
      LoadedAreUsed(es[1..], s, ld);
    }
  }

  // ---------- main results ----------

  /** When the final step is taken all other steps have been issued, and it reads memory. */
  lemma {:induction false} FinalReadsMemory(p: Prog, run: seq<Event>, n: nat)
    requires WellFormed(p) && TsoRun(p, run) && Inst(p, n) && p.steps[n].final
    ensures forall i :: Inst(p, i) && i != n ==> i in After(p, run, Positions.At(run, Issue(n))).issued
    ensures LoadsFrom(p, n, After(p, run, Positions.At(run, Issue(n))).memory)
  {
    RunEnumerates(p, run);
    var k, c := Positions.At(run, Issue(n)), p.steps[n].core;
    var m := After(p, run, k);
    assert EventOf(p, Issue(n));
    AcceptedAt(p, run, |run|, k);
    BuffersHold(p, run, k);
    forall i | Inst(p, i) && i != n ensures i in m.issued {
      assert Before(p, i, n);
    }
    assert ContentsAre(p, run, k, c, Buffer(m, c));
    assert forall x :: !Pending(p, run, k, c, x);
    assert forall x :: x !in Buffer(m, c);
  }

  /** The run ends with the property: evaluated on the memory the final step finds. */
  ghost predicate EndsWith(sys: System, p: Prog, M: Model, run: seq<Event>, n: nat, property: Option<Expr>) {
    property.Some? ==> PropertyOf(sys, M, property.value, After(p, run, Positions.At(run, Issue(n))).memory)
  }

  /** The constraints of ordered ILAs under TSO can be met with given values exactly when the private
      states are linked and some complete run of the store-buffer machine has these values and ends in
      a state with the property. */
  lemma {:induction false} SatisfiableIsRunnable(sys: System, threads: seq<Thread>, steps: seq<TraceStep>,
                                                 property: Option<Expr>, M: Model)
    requires Registered(sys, steps) && Template(sys, threads) && Program(sys, threads, steps, property)
    requires AllOrdered(threads) && OneAddress(ProgOf(sys, steps, M))
    requires property.Some? ==> Readable(sys, M, property.value)
    ensures
      var p, n := ProgOf(sys, steps, M), First(threads, |threads|);
      (exists t :: Satisfies(sys, threads, steps, M.(t := t)) && Finally(sys, M.(t := t), n, property)) <==>
      PrivateLinked(M, threads) && exists run :: TsoRun(p, run) && EndsWith(sys, p, M, run, n, property)
  {
    var p, n := ProgOf(sys, steps, M), First(threads, |threads|);
    SatisfiableIsAllowed(sys, threads, steps, property, M);
    ProgramIsWellFormed(sys, threads, steps, property, M);
    TsoIsStoreBufferMachine(p);
    forall run | TsoRun(p, run) ensures EndsWith(sys, p, M, run, n, property) <==> HasProperty(sys, M, property) {
      if property.Some? {
        assert |steps[n..]| == 1 && steps[n] == steps[n..][0];
        FinalReadsMemory(p, run, n);
        PropertyIsOfMemory(sys, steps, M, n, property.value, After(p, run, Positions.At(run, Issue(n))).memory);
      }
    }
  }

  lemma {:induction false} ScFinalReadsMemory(p: Prog, order: seq<int>, n: nat)
    requires Atomic.Interleaving(p, order) && Atomic.Replays(p, order) && Inst(p, n)
    ensures LoadsFrom(p, n, Atomic.MemoryAfter(p, order, Positions.At<int>(order, n)))
  {
    var k := Positions.At<int>(order, n);
    forall s, j | s in p.steps[n].loads && 0 <= j < |p.steps[n].loads[s]|
      ensures p.steps[n].loads[s][j].data == Atomic.MemoryAfter(p, order, k)(s, p.steps[n].loads[s][j].addr)
    {
      assert p.steps[order[k]].loads[s][j] == p.steps[n].loads[s][j];
    }
  }

  ghost predicate ScEndsWith(sys: System, p: Prog, M: Model, order: seq<int>, n: nat, property: Option<Expr>)
    requires Atomic.Interleaving(p, order)
  {
    property.Some? ==> PropertyOf(sys, M, property.value, Atomic.MemoryAfter(p, order, Positions.At<int>(order, n)))
  }

  /** ... and under SC exactly when some interleaving in program order replays them on one memory and
      ends in a state with the property. */
  lemma {:induction false} ScSatisfiableIsRunnable(sys: System, threads: seq<Thread>, steps: seq<TraceStep>,
                                                   property: Option<Expr>, M: Model)
    requires Registered(sys, steps) && Template(sys, threads) && Program(sys, threads, steps, property)
    requires AllOrdered(threads) && OneAddress(ProgOf(sys, steps, M))
    requires property.Some? ==> Readable(sys, M, property.value)
    ensures
      var p, n := ProgOf(sys, steps, M), First(threads, |threads|);
      (exists t :: NoFacets(M.(t := t)) && SatisfiesSc(sys, threads, steps, M.(t := t)) &&
                   Finally(sys, M.(t := t), n, property)) <==>
      PrivateLinked(M, threads) && exists order :: Atomic.ScRun(p, order) && ScEndsWith(sys, p, M, order, n, property)
  {
    var p, n := ProgOf(sys, steps, M), First(threads, |threads|);
    ScSatisfiableIsAllowed(sys, threads, steps, property, M);
    Atomic.ScIsInterleaving(p);
    forall order | Atomic.ScRun(p, order)
      ensures ScEndsWith(sys, p, M, order, n, property) <==> HasProperty(sys, M, property)
    {
      if property.Some? {
        assert |steps[n..]| == 1 && steps[n] == steps[n..][0];
        FirstIsPositive(threads, |threads|);
        ScFinalReadsMemory(p, order, n);
        PropertyIsOfMemory(sys, steps, M, n, property.value, Atomic.MemoryAfter(p, order, Positions.At<int>(order, n)));
      }
    }
  }
}
