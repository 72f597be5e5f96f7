/** Programs as they run: in every model of the constraints, each step of an ordered ILA decodes and updates
    as it does in the state it finds, its private states as its thread left them and the shared ones as its
    core sees them. */
module ProgramRuns {
  import opened Ast
  import opened Ila
  import opened Trace
  import opened Constraints
  import opened MemoryModels
  import opened PrivateState
  import opened LocalState
  import opened MultiIla
  import opened MultiRuns
  import opened StepReads
  import opened ThreadRuns
  import opened Machine
  import opened TsoMachine
  import opened TsoEquivalence
  import Positions
  import Atomic = Sc

  // ---------- threads ----------

  /** Step k of a thread is its instruction k, with suffix k + 1, which is no other step's and not the end's. */
  lemma StepsOfThread(threads: seq<Thread>, i: nat, k: nat)
    requires i < |threads| && k < |threads[i].insts|
    ensures |Steps(threads, i)| == |Numbers(threads, i)| == |threads[i].insts|
    ensures
      var ts := Steps(threads, i)[k];
      && ts.kind == INST_EVT && ts.host == threads[i].host && ts.inst == threads[i].insts[k]
      && ts.pos == k + 1 && ts.pos != FINAL_SUFFIX
  {
  }

  /** The states of a thread before its instruction k, from its initial states. */
  ghost function ThreadRun(M: Model, t: Thread, k: nat): Env
    requires k <= |t.insts|
  {
    if k == 0 then M.env(t.host, 0)
    else Executed(M.interp, t.insts[k - 1], Seen(M, t.host, t.priv, ThreadRun(M, t, k - 1), k))
  }

  lemma {:induction false} ThreadRunIsState(M: Model, threads: seq<Thread>, i: nat, k: nat)
    requires i < |threads| && k <= |threads[i].insts|
    ensures |Steps(threads, i)| == |threads[i].insts|
    ensures ThreadRun(M, threads[i], k) == ThreadState(M, threads[i].host, Steps(threads, i), threads[i].priv, k)
  {
    if k > 0 {
      var j: nat := k - 1;
      ThreadRunIsState(M, threads, i, j);
      StepsOfThread(threads, i, j);
    }
  }

  /** Instruction k has, of the private states it mentions, the values of the run. */
  ghost predicate InstrFollows(M: Model, t: Thread, k: nat)
    requires k < |t.insts|
  {
    forall x {:trigger x in t.priv} :: x in t.priv && InstrMentions(t.insts[k], x) ==>
      M.env(t.host, k + 1)(x) == ThreadRun(M, t, k)(x)
  }

  /** So has every instruction, and so has the end. */
  ghost predicate ThreadFollows(M: Model, t: Thread) {
    && (forall k: nat :: k < |t.insts| ==> InstrFollows(M, t, k))
    && (forall x {:trigger x in t.priv} :: x in t.priv ==>
          M.env(t.host, FINAL_SUFFIX)(x) == ThreadRun(M, t, |t.insts|)(x))
  }

  ghost predicate ThreadAnchored(t: Thread) {
    forall k {:trigger t.insts[k]} :: 0 <= k < |t.insts| ==> Anchored(t.insts[k], t.priv)
  }

  ghost predicate ThreadCovered(M: Model, threads: seq<Thread>, i: nat)
    requires i < |threads|
  {
    forall x :: x in threads[i].priv ==> CoveredSteps(M, Steps(threads, i), x)
  }

  lemma ThreadFollowsIs(M: Model, threads: seq<Thread>, i: nat)
    requires i < |threads|
    ensures
      var t, tss := threads[i], Steps(threads, i);
      ThreadFollows(M, t) <==> FollowsTo(M, t.host, tss, t.priv, |tss|) && EndFollows(M, t.host, tss, t.priv)
  {
    var t, tss := threads[i], Steps(threads, i);
    ThreadRunIsState(M, threads, i, |tss|);
    forall k: nat | k < |tss| ensures StepFollows(M, t.host, tss, t.priv, k) <==> InstrFollows(M, t, k) {
      StepsOfThread(threads, i, k);
      ThreadRunIsState(M, threads, i, k);
    }
  }

  lemma ThreadTurns(threads: seq<Thread>, i: nat)
    requires i < |threads|
    ensures TurnsOf(threads[i].host, Steps(threads, i), Numbers(threads, i))
    ensures ThreadAnchored(threads[i]) ==> AllAnchored(Steps(threads, i), threads[i].priv)
  {
    forall k: nat | k < |Steps(threads, i)| ensures Steps(threads, i)[k].inst == threads[i].insts[k] {
      StepsOfThread(threads, i, k);
    }
  }

  /** The steps of a thread follow one another. */
  ghost predicate ThreadChained(M: Model, threads: seq<Thread>, i: nat)
    requires i < |threads|
  {
    forall k :: 0 <= k < |Numbers(threads, i)| ==> Chained(M, Numbers(threads, i), k)
  }

  /** An ordered thread is linked exactly when its steps follow one another and its run. */
  lemma OrderedThreadIsRun(M: Model, threads: seq<Thread>, i: nat)
    requires i < |threads| && threads[i].ordered && ThreadAnchored(threads[i]) && ThreadCovered(M, threads, i)
    ensures ThreadLinked(M, threads, i) <==> ThreadChained(M, threads, i) && ThreadFollows(M, threads[i])
  {
    ThreadTurns(threads, i);
    ThreadFollowsIs(M, threads, i);
    LinkedIsRun(M, threads[i].host, Steps(threads, i), Numbers(threads, i), threads[i].priv);
  }

  /** An unordered one, at distinct times, exactly when its steps follow a run in the order of the timestamps. */
  lemma UnorderedThreadIsRun(M: Model, threads: seq<Thread>, i: nat, order: seq<nat>)
    requires i < |threads| && !threads[i].ordered && ThreadAnchored(threads[i])
    requires Permutes(order, |threads[i].insts|) && ByTime(M, Numbers(threads, i), order)
    ensures
      var t, tss := threads[i], InTurn(Steps(threads, i), order);
      ThreadLinked(M, threads, i) <==> FollowsTo(M, t.host, tss, t.priv, |tss|) && EndFollows(M, t.host, tss, t.priv)
  {
    ThreadTurns(threads, i);
    SearchedIsRun(M, threads[i].host, Steps(threads, i), Numbers(threads, i), threads[i].priv, order);
  }

  // ---------- whole programs ----------

  ghost predicate AllAnchoredThreads(threads: seq<Thread>) {
    forall i {:trigger threads[i]} :: 0 <= i < |threads| ==> ThreadAnchored(threads[i])
  }

  ghost predicate AllCovered(M: Model, threads: seq<Thread>) {
    forall i: nat :: i < |threads| ==> ThreadCovered(M, threads, i)
  }

  ghost predicate AllFollow(M: Model, threads: seq<Thread>) {
    forall i {:trigger threads[i]} :: 0 <= i < |threads| ==> ThreadFollows(M, threads[i])
  }

  lemma ThreadStatesAreRun(M: Model, threads: seq<Thread>, i: nat)
    requires i < |threads| && ThreadAnchored(threads[i]) && ThreadCovered(M, threads, i)
    ensures (forall x :: x in threads[i].priv ==> StateOrdered(M, threads, i, x)) <==> ThreadFollows(M, threads[i])
  {
    ThreadTurns(threads, i);
    ThreadFollowsIs(M, threads, i);
    OrderedLinksAreRun(M, threads[i].host, Steps(threads, i), Numbers(threads, i), threads[i].priv);
  }

  /** The values of the private states are linked exactly when every thread follows its run. */
  lemma PrivateLinkedIsRun(M: Model, threads: seq<Thread>)
    requires AllAnchoredThreads(threads) && AllCovered(M, threads)
    ensures PrivateLinked(M, threads) <==> AllFollow(M, threads)
  {
    forall i: nat {:trigger threads[i]} | i < |threads|
      ensures (forall x :: x in threads[i].priv ==> StateOrdered(M, threads, i, x)) <==> ThreadFollows(M, threads[i])
    {
      assert ThreadCovered(M, threads, i);
      ThreadStatesAreRun(M, threads, i);
    }
    if AllFollow(M, threads) {
      forall i, s | 0 <= i < |threads| && s in threads[i].priv ensures StateOrdered(M, threads, i, s) {
        assert ThreadFollows(M, threads[i]);
      }
    }
  }

  /** The constraints of ordered ILAs under TSO can be met with given values exactly when every thread follows
      the run of its instructions and some complete run of the store-buffer machine has these values and ends
      with the property. */
  lemma SatisfiableIsExecuted(sys: System, threads: seq<Thread>, steps: seq<TraceStep>, property: Option<Expr>,
                              M: Model)
    requires Registered(sys, steps) && Template(sys, threads) && Program(sys, threads, steps, property)
    requires AllOrdered(threads) && OneAddress(ProgOf(sys, steps, M))
    requires property.Some? ==> Readable(sys, M, property.value)
    requires AllAnchoredThreads(threads) && AllCovered(M, threads)
    ensures
      var p, n := ProgOf(sys, steps, M), First(threads, |threads|);
      (exists t :: Satisfies(sys, threads, steps, M.(t := t)) && Finally(sys, M.(t := t), n, property)) <==>
      AllFollow(M, threads) && exists run :: TsoRun(p, run) && EndsWith(sys, p, M, run, n, property)
  {
    SatisfiableIsRunnable(sys, threads, steps, property, M);
    PrivateLinkedIsRun(M, threads);
  }

  /** The same under SC, for an interleaving in program order on one memory. */
  lemma ScSatisfiableIsExecuted(sys: System, threads: seq<Thread>, steps: seq<TraceStep>, property: Option<Expr>,
                                M: Model)
    requires Registered(sys, steps) && Template(sys, threads) && Program(sys, threads, steps, property)
    requires AllOrdered(threads) && OneAddress(ProgOf(sys, steps, M))
    requires property.Some? ==> Readable(sys, M, property.value)
    requires AllAnchoredThreads(threads) && AllCovered(M, threads)
    ensures
      var p, n := ProgOf(sys, steps, M), First(threads, |threads|);
      (exists t :: NoFacets(M.(t := t)) && SatisfiesSc(sys, threads, steps, M.(t := t)) &&
                   Finally(sys, M.(t := t), n, property)) <==>
      AllFollow(M, threads) && exists order :: Atomic.ScRun(p, order) && ScEndsWith(sys, p, M, order, n, property)
  {
    ScSatisfiableIsRunnable(sys, threads, steps, property, M);
    PrivateLinkedIsRun(M, threads);
  }

  // ---------- stores that are lost ----------

  /** The one update of the instruction is a STORE to memory m. */
  ghost predicate IsStore(i: Instr, m: string) {
    |i.updates| == 1 && i.updates[0].state == m && NoBase(i.decode)
    && StoresToVar(i.updates[0].value) && i.updates[0].value.args[0] == Var(m)
  }

  function OneStore(host: string, i: Instr, priv: set<string>): Thread {
    Thread(host, [i], priv, true)
  }

  lemma OneStep(host: string, i: Instr, priv: set<string>)
    ensures
      var threads := [OneStore(host, i, priv)];
      Steps(threads, 0) == [TraceStep(INST_EVT, host, i, 1, BoolConst(true))] && Numbers(threads, 0) == [1]
  {
    var threads := [OneStore(host, i, priv)];
    assert First(threads, 0) == 1 && |threads[0].insts| == 1;
  }

  lemma OneStoreReads(host: string, i: Instr, x: string)
    ensures x in ReadSet(TraceStep(INST_EVT, host, i, 1, BoolConst(true))) <==> InstrMentions(i, x)
  {
    StepMentions(TraceStep(INST_EVT, host, i, 1, BoolConst(true)), x);
  }

  lemma OneUpdate(i: Instr, m: string, x: string)
    requires IsStore(i, m)
    ensures UpdateOf(i, x) == if x == m then Some(i.updates[0].value) else None
  {
    assert Find(i.updates, x) == if x == m then 0 else 1;
  }

  /** The lines of a private state. */
  lemma OneStoreLine(M: Model, host: string, i: Instr, priv: set<string>, m: string, x: string)
    requires IsStore(i, m)
    ensures
      var threads := [OneStore(host, i, priv)];
      var ls := LinesOf(M, host, Steps(threads, 0), Numbers(threads, 0), x);
      && |ls| == 2 && ls[0].cur == M.env(host, 0)(x) && ls[1].cur == M.env(host, 1)(x)
      && (ls[1].isRead <==> InstrMentions(i, x)) && (ls[1].isWrite <==> x == m)
      && (ls[1].decoded <==> Truth(Eval(M.interp, i.decode, M.env(host, 1))))
      && (x == m ==> ls[1].update == Eval(M.interp, i.updates[0].value, M.env(host, 1)))
  {
    var threads := [OneStore(host, i, priv)];
    OneStep(host, i, priv);
    OneStoreReads(host, i, x);
    var ls := LinesOf(M, host, Steps(threads, 0), Numbers(threads, 0), x);
    assert ls[0] == InitialLine(M, host, x);
    LineIs(M, host, Steps(threads, 0), Numbers(threads, 0), x, 1);
    OneUpdate(i, m, x);
  }

  lemma OneStoreAnchored(host: string, i: Instr, priv: set<string>, m: string)
    requires IsStore(i, m) && InstrMentions(i, m)
    ensures ThreadAnchored(OneStore(host, i, priv))
  {
  }

  /** A store that neither decodes nor is read is not overwritten. */
  lemma OneStoreDecodes(M: Model, host: string, i: Instr, priv: set<string>, m: string)
    requires IsStore(i, m) && m in priv && ThreadCovered(M, [OneStore(host, i, priv)], 0)
    ensures InstrMentions(i, m) || Truth(Eval(M.interp, i.decode, M.env(host, 1)))
  {
    var threads := [OneStore(host, i, priv)];
    OneStoreLine(M, host, i, priv, m, m);
    LinesCovered(M, host, Steps(threads, 0), Numbers(threads, 0), m);
    LastIsNotLoose(LinesOf(M, host, Steps(threads, 0), Numbers(threads, 0), m));
  }

  lemma LastIsNotLoose(ls: seq<Line>)
    requires Lines(ls) && |ls| == 2 && Covered(ls)
    ensures !Loose(ls, 1)
  {
    assert forall k :: !Overwrites(ls, 1, k);
  }

  /** The store finds another memory than the initial one. */
  ghost function Stray(I: Interp, i: Instr, m: string, env: Env): Model
    requires IsStore(i, m)
  {
    Model(I,
          (host: string, pos: int) =>
            (x: string) => if x != m then env(x)
                           else if pos == 0 then Blank(0)
                           else if pos == 1 then Blank(1)
                           else Eval(I, i.updates[0].value, y => if y == m then Blank(1) else env(y)),
          Times([0, 1], [0, 1]))
  }

  lemma StrayValues(I: Interp, host: string, i: Instr, m: string, env: Env, x: string)
    requires IsStore(i, m)
    ensures
      var M := Stray(I, i, m, env);
      && M.env(host, 0)(x) == (if x == m then Blank(0) else env(x))
      && M.env(host, 1)(x) == (if x == m then Blank(1) else env(x))
      && M.env(host, FINAL_SUFFIX)(x) ==
         (if x == m then Eval(I, i.updates[0].value, M.env(host, 1)) else env(x))
  {
    var M, b: Env := Stray(I, i, m, env), y => if y == m then Blank(1) else env(y);
    assert forall y :: b(y) == M.env(host, 1)(y);
    StoreDecided(I, i.updates[0].value, b, M.env(host, 1));
  }

  lemma StrayIsLinked(I: Interp, host: string, i: Instr, priv: set<string>, m: string, env: Env)
    requires IsStore(i, m) && !InstrMentions(i, m) && Truth(Eval(I, i.decode, env))
    ensures
      var M, threads := Stray(I, i, m, env), [OneStore(host, i, priv)];
      ThreadCovered(M, threads, 0) && ThreadLinked(M, threads, 0)
  {
    var M, threads := Stray(I, i, m, env), [OneStore(host, i, priv)];
    var tss, nums := Steps(threads, 0), Numbers(threads, 0);
    StrayDecodes(I, host, i, m, env, M.env(host, 1));
    OneStep(host, i, priv);
    forall x | x in priv
      ensures CoveredSteps(M, tss, x) && OrderedLinks(LinesOf(M, host, tss, nums, x), FinalValue(M, host, x))
    {
      StrayValues(I, host, i, m, env, x);
      OneStoreLine(M, host, i, priv, m, x);
      LinesCovered(M, host, tss, nums, x);
      TwoLines(LinesOf(M, host, tss, nums, x), FinalValue(M, host, x));
    }
  }

  lemma TwoLines(ls: seq<Line>, fin: Value)
    requires Lines(ls) && |ls| == 2 && ls[1].decoded
    requires ls[1].isRead ==> ls[1].cur == ls[0].cur
    requires fin == if ls[1].isWrite then ls[1].update else ls[0].cur
    ensures Covered(ls) && OrderedLinks(ls, fin)
  {
    assert Carry(ls, 1) == ls[0].cur && Carry(ls, 2) == fin;
  }

  lemma StrayStrays(I: Interp, host: string, i: Instr, priv: set<string>, m: string, env: Env)
    requires IsStore(i, m) && !InstrMentions(i, m) && Truth(Eval(I, i.decode, env)) && m in priv
    ensures !ThreadFollows(Stray(I, i, m, env), OneStore(host, i, priv))
  {
    var M, t, e := Stray(I, i, m, env), OneStore(host, i, priv), i.updates[0].value;
    var a, b := Seen(M, host, priv, ThreadRun(M, t, 0), 1), M.env(host, 1);
    forall x ensures a(x) == if x == m then Blank(0) else b(x) { StrayValues(I, host, i, m, env, x); }
    StrayValues(I, host, i, m, env, m);
    StrayDecodes(I, host, i, m, env, a);
    StoresDiffer(I, i, m, a, b);
    assert Find(i.updates, m) == 0;
    assert ThreadRun(M, t, 1)(m) == Eval(I, e, a) && M.env(host, FINAL_SUFFIX)(m) == Eval(I, e, b);
  }

  lemma StrayDecodes(I: Interp, host: string, i: Instr, m: string, env: Env, g: Env)
    requires IsStore(i, m) && !InstrMentions(i, m) && forall x :: x != m ==> g(x) == env(x)
    ensures Eval(I, i.decode, g) == Eval(I, i.decode, env)
  {
    MentionsDecide(I, i.decode, g, env);
  }

  lemma StoresDiffer(I: Interp, i: Instr, m: string, a: Env, b: Env)
    requires IsStore(i, m) && !InstrMentions(i, m) && a(m) == Blank(0) && b(m) == Blank(1)
    requires forall x :: x != m ==> a(x) == b(x)
    ensures Eval(I, i.updates[0].value, a) != Eval(I, i.updates[0].value, b)
  {
    var e := i.updates[0].value;
    assert !Mentions(e, m);
    StoreMentions(e, m);
    MentionsDecide(I, e.args[1], a, b);
    StoreValue(I, e, a);
    StoreValue(I, e, b);
    var n := Word(Eval(I, e.args[1], a)) + 1;
    assert Words(Eval(I, e, a))[n] == 0 && Words(Eval(I, e, b))[n] == 1;
  }

  /** If the constraints link the thread, it follows its run. */
  ghost predicate LinksAsRun(M: Model, t: Thread) {
    ThreadCovered(M, [t], 0) && ThreadLinked(M, [t], 0) ==> ThreadFollows(M, t)
  }

  /** The instruction mentions the memory or never decodes. */
  ghost predicate Harmless(I: Interp, i: Instr, m: string) {
    InstrMentions(i, m) || forall env: Env :: !Truth(Eval(I, i.decode, env))
  }

  lemma HarmlessLinks(M: Model, host: string, i: Instr, priv: set<string>, m: string)
    requires IsStore(i, m) && m in priv && Harmless(M.interp, i, m)
    ensures LinksAsRun(M, OneStore(host, i, priv))
  {
    if ThreadCovered(M, [OneStore(host, i, priv)], 0) {
      OneStoreDecodes(M, host, i, priv, m);
      OneStoreAnchored(host, i, priv, m);
      OrderedThreadIsRun(M, [OneStore(host, i, priv)], 0);
    }
  }

  lemma OthersStray(I: Interp, host: string, i: Instr, priv: set<string>, m: string)
    requires IsStore(i, m) && m in priv && !Harmless(I, i, m)
    ensures exists M: Model :: M.interp == I && !LinksAsRun(M, OneStore(host, i, priv))
  {
    var env: Env :| Truth(Eval(I, i.decode, env));
    StrayIsLinked(I, host, i, priv, m, env);
    StrayStrays(I, host, i, priv, m, env);
    assert !LinksAsRun(Stray(I, i, m, env), OneStore(host, i, priv));
  }

  /** One store to a private memory follows its run in all models that link it, if and only if the instruction
      mentions the memory or never decodes: otherwise the words it does not store may change as they like. */
  lemma StoreIsLinked(I: Interp, host: string, i: Instr, priv: set<string>, m: string)
    requires IsStore(i, m) && m in priv
    ensures (forall M: Model :: M.interp == I ==> LinksAsRun(M, OneStore(host, i, priv))) <==> Harmless(I, i, m)
  {
    if Harmless(I, i, m) {
      forall M: Model | M.interp == I ensures LinksAsRun(M, OneStore(host, i, priv)) {
        HarmlessLinks(M, host, i, priv, m);
      }
    } else {
      OthersStray(I, host, i, priv, m);
    }
  }

  // ---------- the shared states ----------

  /** Memory as a core sees it: its own newest buffered write, else memory. */
  ghost function View(p: Prog, m: State, core: string): Memory {
    (s: string, a: Value) => LoadValue(p, m, core, s, a)
  }

  /** The moment at which a step is issued. */
  ghost function Issued(p: Prog, run: seq<Event>, n: nat): State
    requires Positions.At(run, Issue(n)) <= |run|
  {
    After(p, run, Positions.At(run, Issue(n)))
  }

  lemma RunLoadsFromView(p: Prog, run: seq<Event>, n: nat)
    requires WellFormed(p) && TsoRun(p, run) && Inst(p, n)
    ensures Positions.At(run, Issue(n)) < |run|
    ensures LoadsFrom(p, n, View(p, Issued(p, run, n), p.steps[n].core))
  {
    RunEnumerates(p, run);
    var k := Positions.At(run, Issue(n));
    assert EventOf(p, Issue(n));
    AcceptedAt(p, run, |run|, k);
    assert LoadsMatch(p, After(p, run, k), n);
  }

  /** What a step can look at: its decode, its updates, and the addresses and the data of its stores, if no
      variable is stored to below them, and shared memories are only loaded from. */
  ghost predicate Look(sys: System, M: Model, ts: TraceStep, e: Expr) {
    && Part(ts, e) && NoBase(e) && LoadsOnly(sys, e)
    && WordAddresses(sys, M.interp, M.env(ts.host, ts.pos), e)
  }

  /** The state in which instruction k of a thread is taken: the shared states as given, the private ones of
      the thread's run, and its other variables. */
  ghost function Found(sys: System, M: Model, t: Thread, k: nat, memory: Memory): Env
    requires k < |t.insts|
  {
    EndState(sys, Seen(M, t.host, t.priv, ThreadRun(M, t, k), k + 1), memory)
  }

  lemma {:induction false} MentionedInInstr(ts: TraceStep, e: Expr, x: string)
    requires ts.kind == INST_EVT && Part(ts, e) && Mentions(e, x)
    ensures InstrMentions(ts.inst, x)
  {
    var f :| Belongs(ts, f) && (e == f || (StoresToVar(f) && (e == f.args[1] || e == f.args[2])));
    if e != f { StoreMentions(f, x); }
  }

  lemma LookAtState(sys: System, M: Model, t: Thread, k: nat, ts: TraceStep, e: Expr, memory: Memory)
    requires k < |t.insts| && ThreadFollows(M, t) && Look(sys, M, ts, e)
    requires ts.kind == INST_EVT && ts.host == t.host && ts.inst == t.insts[k] && ts.pos == k + 1
    requires
      var env := M.env(t.host, k + 1);
      Eval(M.interp, e, env) == Eval(M.interp, e, EndState(sys, env, memory))
    ensures Eval(M.interp, e, M.env(t.host, k + 1)) == Eval(M.interp, e, Found(sys, M, t, k, memory))
  {
    var a, b := EndState(sys, M.env(t.host, k + 1), memory), Found(sys, M, t, k, memory);
    assert InstrFollows(M, t, k);
    forall x | Mentions(e, x) ensures a(x) == b(x) {
      MentionedInInstr(ts, e, x);
    }
    MentionsDecide(M.interp, e, a, b);
  }

  // ---------- main results ----------

  /** Whatever instruction k of thread i looks at has in the model the value it has in the state with its
      thread's private states and the shared states its loads match. */
  lemma StepIsTaken(sys: System, threads: seq<Thread>, steps: seq<TraceStep>, property: Option<Expr>, M: Model,
                    i: nat, k: nat, e: Expr, memory: Memory)
    requires Registered(sys, steps) && Template(sys, threads) && Program(sys, threads, steps, property)
    requires i < |threads| && k < |threads[i].insts| && ThreadFollows(M, threads[i])
    requires Inst(ProgOf(sys, steps, M), Numbers(threads, i)[k])
    requires LoadsFrom(ProgOf(sys, steps, M), Numbers(threads, i)[k], memory) && Look(sys, M, Steps(threads, i)[k], e)
    ensures Eval(M.interp, e, M.env(threads[i].host, k + 1)) == Eval(M.interp, e, Found(sys, M, threads[i], k, memory))
  {
    StepLies(sys, threads, steps, property, M, i, k);
    StepsOfThread(threads, i, k);
    PartIsOfMemory(sys, steps, M, Numbers(threads, i)[k], e, memory);
    LookAtState(sys, M, threads[i], k, Steps(threads, i)[k], e, memory);
  }

  lemma StepLies(sys: System, threads: seq<Thread>, steps: seq<TraceStep>, property: Option<Expr>, M: Model,
                 i: nat, k: nat)
    requires Registered(sys, steps) && Template(sys, threads) && Program(sys, threads, steps, property)
    requires i < |threads| && k < |threads[i].insts|
    ensures
      var n := Numbers(threads, i)[k];
      && 1 <= n < |steps| && steps[n] == Steps(threads, i)[k]
      && Inst(ProgOf(sys, steps, M), n) && ProgOf(sys, steps, M).steps[n].core == threads[i].host
  {
    StepAt(sys, threads, steps, property, i, k);
    FirstIsPositive(threads, i);
    StepOfProg(sys, steps, M, Numbers(threads, i)[k]);
  }

  /** In a run of the store-buffer machine with linked private states, whatever instruction k of thread i looks
      at has in the model the value it has in the state the step finds: the private states its thread left, and
      memory as its core sees it when the step is issued. */
  lemma StepIsTakenInRun(sys: System, threads: seq<Thread>, steps: seq<TraceStep>, property: Option<Expr>, M: Model,
                         run: seq<Event>, i: nat, k: nat, e: Expr)
    requires Registered(sys, steps) && Template(sys, threads) && Program(sys, threads, steps, property)
    requires i < |threads| && k < |threads[i].insts| && ThreadFollows(M, threads[i])
    requires TsoRun(ProgOf(sys, steps, M), run) && Look(sys, M, Steps(threads, i)[k], e)
    ensures
      var p, n := ProgOf(sys, steps, M), Numbers(threads, i)[k];
      && Inst(p, n) && Positions.At(run, Issue(n)) < |run|
      && Eval(M.interp, e, M.env(threads[i].host, k + 1)) ==
         Eval(M.interp, e, Found(sys, M, threads[i], k, View(p, Issued(p, run, n), threads[i].host)))
  {
    var p, n := ProgOf(sys, steps, M), Numbers(threads, i)[k];
    ProgramIsWellFormed(sys, threads, steps, property, M);
    StepLies(sys, threads, steps, property, M, i, k);
    RunLoadsFromView(p, run, n);
    StepIsTaken(sys, threads, steps, property, M, i, k, e, View(p, Issued(p, run, n), threads[i].host));
  }

  /** The same in an interleaving on one memory. */
  lemma StepIsTakenInMemory(sys: System, threads: seq<Thread>, steps: seq<TraceStep>, property: Option<Expr>, M: Model,
                            order: seq<int>, i: nat, k: nat, e: Expr)
    requires Registered(sys, steps) && Template(sys, threads) && Program(sys, threads, steps, property)
    requires i < |threads| && k < |threads[i].insts| && ThreadFollows(M, threads[i])
    requires Atomic.ScRun(ProgOf(sys, steps, M), order) && Look(sys, M, Steps(threads, i)[k], e)
    ensures
      var p, n := ProgOf(sys, steps, M), Numbers(threads, i)[k];
      && Positions.At<int>(order, n) <= |order|
      && Eval(M.interp, e, M.env(threads[i].host, k + 1)) ==
         Eval(M.interp, e, Found(sys, M, threads[i], k, Atomic.MemoryAfter(p, order, Positions.At<int>(order, n))))
  {
    var p, n := ProgOf(sys, steps, M), Numbers(threads, i)[k];
    StepLies(sys, threads, steps, property, M, i, k);
    ScFinalReadsMemory(p, order, n);
    StepIsTaken(sys, threads, steps, property, M, i, k, e, Atomic.MemoryAfter(p, order, Positions.At<int>(order, n)));
  }

  // ---------- stores ----------

  /** An instruction step as the axioms see it: it decodes if its decode holds, it loads the shared states that it
      mentions and stores those that it updates. */
  lemma StepMeaning(sys: System, M: Model, ts: TraceStep, s: string)
    requires ts.kind == INST_EVT
    ensures
      var st := StepValues(sys, M, ts);
      && (st.decoded <==> Truth(Eval(M.interp, ts.inst.decode, M.env(ts.host, ts.pos))))
      && (s in st.loads <==> s in sys.shared && InstrMentions(ts.inst, s))
      && (s in st.stores <==> s in sys.shared && UpdateOf(ts.inst, s).Some?)
      && st.core == ts.host && !st.final
  {
    StepMentions(ts, s);
    if s in WriteSet(ts) { FindIsWritten(ts, s); }
  }

  /** The word or the register that an instruction leaves: its decode and its update are those of the state g in
      which it is taken. */
  ghost function Stored(sys: System, I: Interp, i: Instr, g: Env, memory: Memory, s: string, a: Value): Value {
    if UpdateOf(i, s).None? || s !in sys.shared || !Truth(Eval(I, i.decode, g)) then memory(s, a)
    else
      var u := UpdateOf(i, s).value;
      if s !in sys.mems then (if a == Register then Eval(I, u, g) else memory(s, a))
      else if StoresToVar(u) && a == Eval(I, u.args[1], g) then Eval(I, u.args[2], g)
      else memory(s, a)
  }

  lemma MemoryOfWords(sys: System, env: Env, memory: Memory, x: string, m: Mem)
    requires x in sys.shared && x in sys.mems
    requires forall a: int {:trigger m[a]} :: memory(x, BvV(a)) == BvV(m[a])
    ensures EndState(sys, env, memory)(x) == MemV(m)
  {
    var v := EndState(sys, env, memory)(x);
    forall a: int {:trigger v.m[a]} ensures v.m[a] == m[a] { assert memory(x, BvV(a)) == BvV(m[a]); }
    SameMem(v.m, m);
  }

  /** A run starts with the initial shared states. */
  lemma RunStartsInitially(sys: System, steps: seq<TraceStep>, M: Model, run: seq<Event>, env: Env, x: string)
    requires |steps| > 0 && x in sys.shared && (x in sys.mems ==> M.env(sys.global, 0)(x).MemV?)
    ensures EndState(sys, env, After(ProgOf(sys, steps, M), run, 0).memory)(x) == M.env(sys.global, 0)(x)
  {
    if x in sys.mems {
      MemoryOfWords(sys, env, InitialValues(sys, M.interp, M.env), x, M.env(sys.global, 0)(x).m);
    }
  }

  /** Everything an instruction needs for its decode and its update of s can be looked at. */
  ghost predicate Looks(sys: System, M: Model, ts: TraceStep, s: string) {
    && Look(sys, M, ts, ts.inst.decode)
    && (UpdateOf(ts.inst, s).Some? ==>
          var u := UpdateOf(ts.inst, s).value;
          if s in sys.mems then StoresToVar(u) && Look(sys, M, ts, u.args[1]) && Look(sys, M, ts, u.args[2])
          else Look(sys, M, ts, u))
  }

  /** What the step leaves in memory when it becomes global, by the values it has in the model. */
  lemma CommitIsStored(sys: System, steps: seq<TraceStep>, M: Model, n: nat, s: string, a: Value, memory: Memory)
    requires Registered(sys, steps) && 1 <= n < |steps| && steps[n].kind == INST_EVT
    requires s in sys.mems && UpdateOf(steps[n].inst, s).Some? ==> StoresToVar(UpdateOf(steps[n].inst, s).value)
    ensures Commit(ProgOf(sys, steps, M), memory, n)(s, a) ==
            Stored(sys, M.interp, steps[n].inst, M.env(steps[n].host, steps[n].pos), memory, s, a)
  {
    StepMeaning(sys, M, steps[n], s);
    assert ProgOf(sys, steps, M).steps[n] == StepValues(sys, M, steps[n]);
  }

  /** Whenever instruction k of thread i becomes global, it changes memory as it does in the state in which the
      thread takes it, and not at all if it does not decode there. */
  lemma StoreIsTaken(sys: System, threads: seq<Thread>, steps: seq<TraceStep>, property: Option<Expr>, M: Model,
                     i: nat, k: nat, found: Memory, s: string, a: Value, memory: Memory)
    requires Registered(sys, steps) && Template(sys, threads) && Program(sys, threads, steps, property)
    requires i < |threads| && k < |threads[i].insts| && ThreadFollows(M, threads[i])
    requires Inst(ProgOf(sys, steps, M), Numbers(threads, i)[k])
    requires LoadsFrom(ProgOf(sys, steps, M), Numbers(threads, i)[k], found) && Looks(sys, M, Steps(threads, i)[k], s)
    ensures Commit(ProgOf(sys, steps, M), memory, Numbers(threads, i)[k])(s, a) ==
            Stored(sys, M.interp, threads[i].insts[k], Found(sys, M, threads[i], k, found), memory, s, a)
  {
    var ts := Steps(threads, i)[k];
    StepLies(sys, threads, steps, property, M, i, k);
    StepsOfThread(threads, i, k);
    CommitIsStored(sys, steps, M, Numbers(threads, i)[k], s, a, memory);
    StepIsTaken(sys, threads, steps, property, M, i, k, ts.inst.decode, found);
    if UpdateOf(ts.inst, s).Some? {
      var u := UpdateOf(ts.inst, s).value;
      if s in sys.mems {
        StepIsTaken(sys, threads, steps, property, M, i, k, u.args[1], found);
        StepIsTaken(sys, threads, steps, property, M, i, k, u.args[2], found);
      } else {
        StepIsTaken(sys, threads, steps, property, M, i, k, u, found);
      }
    }
  }
}
