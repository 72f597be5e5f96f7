/** The machines the axioms are about: a store-buffer machine (TSO) and an atomic memory (SC).
    A run is a sequence of events, one per issued step and one per buffered write that reaches
    memory. */
module Machine {
  import opened Ast
  import opened Trace
  import opened Positions

  datatype Event = Issue(step: int) | Perform(step: int)

  type Memory = (string, Value) -> Value

  /** `buffer` holds, per core, the issued writes that have not reached memory, oldest first. */
  datatype State = State(memory: Memory, buffer: map<string, seq<int>>, issued: set<int>)

  ghost function Buffer(m: State, core: string): seq<int> {
    if core in m.buffer then m.buffer[core] else []
  }

  /** The newest entry of a buffer that hits the pattern. */
  ghost function Newest(p: Prog, b: seq<int>, q: Pattern): (w: int)
    ensures w == 0 || (w in b && Hits(p, w, q))
  {
    if |b| == 0 then 0
    else if b[|b| - 1] != 0 && Hits(p, b[|b| - 1], q) then b[|b| - 1]
    else Newest(p, b[..|b| - 1], q)
  }

  /** A load takes its own core's newest buffered write to the address, else memory. */
  ghost function LoadValue(p: Prog, m: State, core: string, s: string, a: Value): Value {
    var w := Newest(p, Buffer(m, core), Pattern(s, false, a));
    if w != 0 then p.steps[w].stores[s].data else m.memory(s, a)
  }

  /** Memory after step `w` became global; a step that does not decode changes nothing. */
  ghost function Commit(p: Prog, memory: Memory, w: int): Memory
    requires Inst(p, w)
  {
    var st := p.steps[w];
    (s: string, a: Value) => if st.decoded && s in st.stores && st.stores[s].addr == a then st.stores[s].data else memory(s, a)
  }

  ghost predicate LoadsMatch(p: Prog, m: State, i: int)
    requires Inst(p, i)
  {
    forall s, k {:trigger p.steps[i].loads[s][k]} :: s in p.steps[i].loads && 0 <= k < |p.steps[i].loads[s]| ==>
      p.steps[i].loads[s][k].data == LoadValue(p, m, p.steps[i].core, s, p.steps[i].loads[s][k].addr)
  }

  /** Cores issue in program order; a fence and an RMW wait for an empty buffer; the oldest
      buffered write is the one that reaches memory. */
  ghost predicate Enabled(p: Prog, m: State, ev: Event) {
    match ev
    case Issue(i) =>
      && Inst(p, i) && i !in m.issued
      && (forall j :: Before(p, j, i) ==> j in m.issued)
      && (p.steps[i].fence || p.steps[i].rmw ==> Buffer(m, p.steps[i].core) == [])
      && LoadsMatch(p, m, i)
    case Perform(i) =>
      && Inst(p, i)
      && var b := Buffer(m, p.steps[i].core);
         b != [] && b[0] == i
  }

  ghost function Next(p: Prog, m: State, ev: Event): State {
    match ev
    case Issue(i) =>
      if !Inst(p, i) then m
      else if p.steps[i].stores == map[] then m.(issued := m.issued + {i})
      else if p.steps[i].rmw then State(Commit(p, m.memory, i), m.buffer, m.issued + {i})
      else State(m.memory, m.buffer[p.steps[i].core := Buffer(m, p.steps[i].core) + [i]], m.issued + {i})
    case Perform(i) =>
      if !Inst(p, i) || Buffer(m, p.steps[i].core) == [] then m
      else State(Commit(p, m.memory, i), m.buffer[p.steps[i].core := Buffer(m, p.steps[i].core)[1..]], m.issued)
  }

  ghost function After(p: Prog, run: seq<Event>, k: nat): State
    requires k <= |run|
  {
    if k == 0 then State(p.init, map[], {}) else Next(p, After(p, run, k - 1), run[k - 1])
  }

  /** Each of the first k events could be taken when it was. */
  ghost predicate Accepted(p: Prog, run: seq<Event>, k: nat)
    requires k <= |run|
  {
    k == 0 || (Accepted(p, run, k - 1) && Enabled(p, After(p, run, k - 1), run[k - 1]))
  }

  lemma {:induction false} AcceptedAt(p: Prog, run: seq<Event>, k: nat, j: nat)
    requires j < k <= |run| && Accepted(p, run, k)
    ensures Accepted(p, run, j) && Enabled(p, After(p, run, j), run[j])
  {
    if j < k - 1 {
      AcceptedAt(p, run, k - 1, j);
    }
  }

  /** All steps are issued and all buffers are drained. */
  ghost predicate Complete(p: Prog, run: seq<Event>) {
    var m := After(p, run, |run|);
    && (forall i :: Inst(p, i) ==> i in m.issued)
    && (forall i :: Inst(p, i) ==> Buffer(m, p.steps[i].core) == [])
  }

  ghost predicate TsoRun(p: Prog, run: seq<Event>) {
    Accepted(p, run, |run|) && Complete(p, run)
  }

  // ---------- positions in a run ----------

  /** The events a complete run consists of. */
  ghost predicate EventOf(p: Prog, ev: Event) {
    match ev
    case Issue(i) => Inst(p, i)
    case Perform(i) => PureWriter(p, i)
  }

  /** Every event occurs exactly once and nothing else occurs. */
  ghost predicate Enumerates(p: Prog, run: seq<Event>) {
    && NoRepeat(run)
    && (forall k :: 0 <= k < |run| ==> EventOf(p, run[k]))
    && (forall ev :: EventOf(p, ev) ==> At(run, ev) < |run|)
  }

  /** The event at which a write becomes visible to all cores. */
  ghost function GlobalEvent(p: Prog, i: int): Event
    requires Inst(p, i)
  {
    if p.steps[i].rmw then Issue(i) else Perform(i)
  }

  /** Timestamps read off a run: events are numbered 1, 2, 3, ... */
  ghost function Numbered(p: Prog, run: seq<Event>): (t: Times)
    requires |p.steps| > 0
    ensures Timed(p, t)
    ensures forall i :: Inst(p, i) ==> t.ts[i] == At(run, Issue(i)) + 1
    ensures forall i :: Inst(p, i) ==> t.gts[i] == At(run, GlobalEvent(p, i)) + 1
  {
    Times(seq(|p.steps|, i requires 0 <= i < |p.steps| => if i == 0 then 0 else At(run, Issue(i)) + 1),
          seq(|p.steps|, i requires 0 <= i < |p.steps| => if i == 0 then 0 else At(run, GlobalEvent(p, i)) + 1))
  }

  ghost function EventTime(p: Prog, t: Times, ev: Event): int
    requires Timed(p, t) && EventOf(p, ev)
  {
    match ev
    case Issue(i) => t.ts[i]
    case Perform(i) => t.gts[i]
  }

  /** A linear order of all events that extends the timestamps. */
  ghost predicate Linearises(p: Prog, t: Times, run: seq<Event>)
    requires Timed(p, t)
  {
    && Enumerates(p, run)
    && forall j, k :: 0 <= j < k < |run| ==> EventTime(p, t, run[j]) <= EventTime(p, t, run[k])
  }
}
