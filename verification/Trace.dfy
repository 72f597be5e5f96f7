/** Multi-ILA trace steps with timestamps, and the SC and TSO axioms over them.

  A `Prog` is a candidate execution: the instruction steps of every core together with the
  values that the assignment gives to their decode, LOAD and STORE sub-expressions.
  A `Times` value is the rest of the assignment: the timestamp of every step and the
  timestamp of the "wfe.global" facet of every step that writes shared state. */
module Trace {
  import opened Ast

  /** A LOAD or the top-level STORE of a shared memory: address and value.  The read or the
      update of a shared register has address `Register`. */
  datatype Access = Access(addr: Value, data: Value)

  const Register: Value := BoolV(true)

  /** A trace step. `core` stands for the name of the host ILA.  `fence` and `rmw` say that the
      instruction's name puts it on FENCE_list or RMW_list.  `final` marks the step that reads
      the final property.  Only shared states appear in `loads` and `stores`. */
  datatype Step = Step(core: string, decoded: bool, fence: bool, rmw: bool, final: bool,
                       loads: map<string, seq<Access>>, stores: map<string, Access>)

  /** Step 0 is the global initial step; its values are those of `init`. */
  datatype Prog = Prog(init: (string, Value) -> Value, steps: seq<Step>)

  datatype Times = Times(ts: seq<int>, gts: seq<int>)

  /** What a read asks for: one address of a state, or (`whole`) the state without a LOAD. */
  datatype Pattern = Pattern(state: string, whole: bool, addr: Value)

  // ---------- static facts about the steps ----------

  ghost predicate Inst(p: Prog, i: int) {
    1 <= i < |p.steps|
  }

  /** WRITE_list restricted to steps that write shared state `s`. */
  ghost predicate Writes(p: Prog, i: int, s: string) {
    i == 0 || (Inst(p, i) && s in p.steps[i].stores)
  }

  /** Members of WRITE_list. */
  ghost predicate Writer(p: Prog, i: int) {
    i == 0 || (Inst(p, i) && p.steps[i].stores != map[])
  }

  /** Members of PureWrite_list. */
  ghost predicate PureWriter(p: Prog, i: int) {
    Inst(p, i) && p.steps[i].stores != map[] && !p.steps[i].rmw
  }

  ghost predicate Decoded(p: Prog, i: int) {
    i == 0 || (Inst(p, i) && p.steps[i].decoded)
  }

  ghost predicate SameCore(p: Prog, i: int, j: int)
    requires 0 <= i < |p.steps| && 0 <= j < |p.steps|
  {
    p.steps[i].core == p.steps[j].core
  }

  /** What the registration of steps guarantees: the initial step has a host of its own among
      the steps that write, an RMW step owns a facet, the final step writes nothing and no core
      shares its host. */
  ghost predicate WellFormed(p: Prog) {
    && |p.steps| > 0
    && p.steps[0].loads == map[]
    && (forall i {:trigger p.steps[i]} :: Inst(p, i) ==>
          && (p.steps[i].core == p.steps[0].core ==> p.steps[i].stores == map[] && p.steps[i].final)
          && (p.steps[i].rmw ==> p.steps[i].stores != map[])
          && (p.steps[i].final ==> p.steps[i].stores == map[] && !p.steps[i].rmw && !p.steps[i].fence))
    && (forall i, j {:trigger p.steps[i].core, p.steps[j].core} ::
          Inst(p, i) && Inst(p, j) && i != j && p.steps[i].core == p.steps[j].core ==> !p.steps[i].final)
  }

  /** At most one load address per memory per step. */
  ghost predicate OneAddress(p: Prog) {
    forall i, s, a, b {:trigger p.steps[i].loads[s][a], p.steps[i].loads[s][b]} ::
      Inst(p, i) && s in p.steps[i].loads && 0 <= a < |p.steps[i].loads[s]| && 0 <= b < |p.steps[i].loads[s]| ==>
      p.steps[i].loads[s][a].addr == p.steps[i].loads[s][b].addr
  }

  ghost predicate Timed(p: Prog, t: Times) {
    && |t.ts| == |t.gts| == |p.steps|
    && |p.steps| > 0
    && t.ts[0] == 0 && t.gts[0] == 0
    && (forall i {:trigger t.ts[i]} :: Inst(p, i) ==> t.ts[i] > 0)
    && (forall i {:trigger t.gts[i]} :: Inst(p, i) && p.steps[i].stores != map[] ==> t.gts[i] > 0)
  }

  // ---------- SameAddress and SameData, for a writer and a reader ----------

  /** Pairing the write of `w` with the loads of `r`: no constraint without a load or with the
      initial step, otherwise some load address has to match. */
  ghost predicate SameAddress(p: Prog, w: int, r: int, s: string)
    requires Writes(p, w, s) && Inst(p, r) && s in p.steps[r].loads
  {
    var ls := p.steps[r].loads[s];
    w == 0 || |ls| == 0 || exists k :: 0 <= k < |ls| && p.steps[w].stores[s].addr == ls[k].addr
  }

  /** The data of every load whose address matches; the initial step holds the value of every
      address. */
  ghost predicate SameData(p: Prog, w: int, r: int, s: string)
    requires Writes(p, w, s) && Inst(p, r) && s in p.steps[r].loads
  {
    var ls := p.steps[r].loads[s];
    forall k {:trigger ls[k]} :: 0 <= k < |ls| ==>
      if w == 0 then p.init(s, ls[k].addr) == ls[k].data
      else p.steps[w].stores[s].addr == ls[k].addr ==> p.steps[w].stores[s].data == ls[k].data
  }

  // ---------- the axioms ----------

  ghost predicate ScReadFrom(p: Prog, t: Times, r: int, s: string, w: int)
    requires Timed(p, t) && Inst(p, r) && s in p.steps[r].loads
  {
    && w != r && Writes(p, w, s)
    && SameAddress(p, w, r, s) && SameData(p, w, r, s) && Decoded(p, w)
    && t.ts[w] < t.ts[r]
    && forall w2 :: w2 != w && w2 != r && Writes(p, w2, s) && SameAddress(p, w2, r, s) && Decoded(p, w2) ==>
                    t.ts[w2] < t.ts[w] || t.ts[r] < t.ts[w2]
  }

  ghost predicate ScAxioms(p: Prog, t: Times)
    requires Timed(p, t)
  {
    forall r, s :: Inst(p, r) && s in p.steps[r].loads ==> exists w :: ScReadFrom(p, t, r, s, w)
  }

  ghost predicate RF(p: Prog, t: Times, w: int, r: int)
    requires Timed(p, t) && 0 <= w < |p.steps| && 0 <= r < |p.steps|
  {
    if SameCore(p, w, r) then t.ts[w] < t.ts[r] else t.gts[w] < t.ts[r]
  }

  ghost predicate FR(p: Prog, t: Times, r: int, w: int)
    requires Timed(p, t) && 0 <= w < |p.steps| && 0 <= r < |p.steps|
  {
    if SameCore(p, r, w) then t.ts[r] < t.ts[w] else t.ts[r] < t.gts[w]
  }

  ghost predicate CO(p: Prog, t: Times, w1: int, w2: int)
    requires Timed(p, t) && 0 <= w1 < |p.steps| && 0 <= w2 < |p.steps|
  {
    if SameCore(p, w1, w2) then t.ts[w1] < t.ts[w2] else t.gts[w1] < t.gts[w2]
  }

  ghost predicate TsoReadFrom(p: Prog, t: Times, r: int, s: string, w: int)
    requires Timed(p, t) && Inst(p, r) && s in p.steps[r].loads
  {
    && w != r && Writes(p, w, s)
    && SameAddress(p, w, r, s) && SameData(p, w, r, s) && Decoded(p, w)
    && RF(p, t, w, r)
    && forall w2 :: w2 != w && w2 != r && Writes(p, w2, s) && SameAddress(p, w2, r, s) && Decoded(p, w2) ==>
                    CO(p, t, w2, w) || FR(p, t, r, w2)
  }

  ghost predicate TsoRfCoFr(p: Prog, t: Times)
    requires Timed(p, t)
  {
    forall r, s :: Inst(p, r) && s in p.steps[r].loads ==> exists w :: TsoReadFrom(p, t, r, s, w)
  }

  ghost predicate TsoWriteFacetOrder(p: Prog, t: Times)
    requires Timed(p, t)
  {
    forall w :: PureWriter(p, w) ==> t.ts[w] < t.gts[w]
  }

  ghost predicate TsoStore(p: Prog, t: Times)
    requires Timed(p, t)
  {
    forall w1, w2 :: Writer(p, w1) && Writer(p, w2) && w1 != w2 && SameCore(p, w1, w2) && t.ts[w1] < t.ts[w2] ==>
                     t.gts[w1] < t.gts[w2]
  }

  ghost predicate TsoFence(p: Prog, t: Times)
    requires Timed(p, t)
  {
    forall f, w :: Inst(p, f) && p.steps[f].fence && Writer(p, w) && SameCore(p, w, f) && t.ts[w] < t.ts[f] ==>
                   t.gts[w] < t.ts[f]
  }

  ghost predicate TsoRmw(p: Prog, t: Times)
    requires Timed(p, t)
  {
    forall i :: Inst(p, i) && p.steps[i].rmw ==> t.ts[i] == t.gts[i]
  }

  /** The axioms that do not mention values. */
  ghost predicate TsoOrder(p: Prog, t: Times)
    requires Timed(p, t)
  {
    TsoWriteFacetOrder(p, t) && TsoStore(p, t) && TsoFence(p, t) && TsoRmw(p, t)
  }

  ghost predicate TsoAxioms(p: Prog, t: Times)
    requires Timed(p, t)
  {
    TsoRfCoFr(p, t) && TsoOrder(p, t)
  }

  // ---------- the order the cores impose ----------

  /** `i` has to come before `j`: it is earlier on the same core, or `j` is the final step. */
  ghost predicate Before(p: Prog, i: int, j: int) {
    && Inst(p, i) && Inst(p, j) && i != j
    && (if p.steps[j].final then true else p.steps[i].core == p.steps[j].core && i < j)
  }

  /** The chain of HB constraints on an ordered core, and those of the final step. */
  ghost predicate ProgramOrdered(p: Prog, t: Times)
    requires Timed(p, t)
  {
    forall i, j :: Before(p, i, j) ==> t.ts[i] < t.ts[j]
  }

  // ---------- reads as patterns ----------

  /** The one place a read of `s` by step `r` looks at. */
  ghost function ReadPattern(p: Prog, r: int, s: string): Pattern
    requires Inst(p, r) && s in p.steps[r].loads
  {
    var ls := p.steps[r].loads[s];
    if |ls| == 0 then Pattern(s, true, Register) else Pattern(s, false, ls[0].addr)
  }

  /** Step `w` is a decoded write of what `q` asks for. */
  ghost predicate Hits(p: Prog, w: int, q: Pattern) {
    && Writes(p, w, q.state) && Decoded(p, w)
    && (w == 0 || q.whole || p.steps[w].stores[q.state].addr == q.addr)
  }

  /** With one load address, "some load address matches" is "the write hits the pattern". */
  lemma HitsIsSameAddress(p: Prog, w: int, r: int, s: string)
    requires OneAddress(p) && Inst(p, r) && s in p.steps[r].loads
    ensures Hits(p, w, ReadPattern(p, r, s)) <==> Writes(p, w, s) && SameAddress(p, w, r, s) && Decoded(p, w)
  {
    if Writes(p, w, s) && w != 0 {
      var ls := p.steps[r].loads[s];
      if |ls| != 0 {
        assert forall k :: 0 <= k < |ls| ==> ls[k].addr == p.steps[r].loads[s][0].addr;
      }
    }
  }

  /** The value a write gives to a place. */
  ghost function Datum(p: Prog, w: int, s: string, a: Value): Value
    requires Writes(p, w, s)
  {
    if w == 0 then p.init(s, a) else p.steps[w].stores[s].data
  }

  // ---------- the Value rule ----------

  /** Write `w` is globally performed before `r`, or earlier on the core of `r`. */
  ghost predicate Sees(p: Prog, t: Times, r: int, w: int)
    requires Timed(p, t) && 0 <= w < |p.steps| && 0 <= r < |p.steps|
  {
    w != r && (t.gts[w] < t.ts[r] || (SameCore(p, w, r) && t.ts[w] < t.ts[r]))
  }

  /** `w` is the strict maximum, in the order of global performance, of the writes `r` sees. */
  ghost predicate ValueRule(p: Prog, t: Times, r: int, q: Pattern, w: int)
    requires Timed(p, t) && Inst(p, r)
  {
    && Hits(p, w, q) && Sees(p, t, r, w)
    && forall w2 :: w2 != w && Hits(p, w2, q) && Sees(p, t, r, w2) ==> t.gts[w2] < t.gts[w]
  }

  /** No write of another core becomes global at the very time of `r`, unless before `w`. */
  ghost predicate NoTie(p: Prog, t: Times, r: int, q: Pattern, w: int)
    requires Timed(p, t) && Inst(p, r) && 0 <= w < |p.steps|
  {
    forall w2 :: w2 != r && w2 != w && Hits(p, w2, q) && !SameCore(p, w2, r) && t.gts[w2] == t.ts[r] ==>
                 t.gts[w2] < t.gts[w]
  }

  /** The part of the RF_CO_FR axiom that orders the writes a read competes with. */
  ghost predicate OrderedSource(p: Prog, t: Times, r: int, q: Pattern, w: int)
    requires Timed(p, t) && Inst(p, r)
  {
    && w != r && Hits(p, w, q) && RF(p, t, w, r)
    && forall w2 :: w2 != w && w2 != r && Hits(p, w2, q) ==> CO(p, t, w2, w) || FR(p, t, r, w2)
  }

  ghost predicate CoreDistinct(p: Prog, t: Times)
    requires Timed(p, t)
  {
    forall i, j :: Inst(p, i) && Inst(p, j) && i != j && SameCore(p, i, j) ==> t.ts[i] != t.ts[j]
  }

  lemma ProgramOrderedIsDistinct(p: Prog, t: Times)
    requires WellFormed(p) && Timed(p, t) && ProgramOrdered(p, t)
    ensures CoreDistinct(p, t)
  {
    forall i, j | Inst(p, i) && Inst(p, j) && i != j && SameCore(p, i, j) ensures t.ts[i] != t.ts[j] {
      assert !p.steps[i].final && !p.steps[j].final;
      assert if i < j then Before(p, i, j) else Before(p, j, i);
    }
  }

  lemma ReadFromSplits(p: Prog, t: Times, r: int, s: string, w: int)
    requires Timed(p, t) && OneAddress(p) && Inst(p, r) && s in p.steps[r].loads
    ensures TsoReadFrom(p, t, r, s, w) <==>
            OrderedSource(p, t, r, ReadPattern(p, r, s), w) && SameData(p, w, r, s)
  {
    forall w2 ensures Hits(p, w2, ReadPattern(p, r, s)) <==>
        Writes(p, w2, s) && SameAddress(p, w2, r, s) && Decoded(p, w2) {
      HitsIsSameAddress(p, w2, r, s);
    }
  }

  lemma IssueBeforeGlobal(p: Prog, t: Times, w: int)
    requires Timed(p, t) && TsoWriteFacetOrder(p, t) && TsoRmw(p, t) && Writer(p, w)
    ensures t.ts[w] <= t.gts[w]
  {
    assert PureWriter(p, w) || w == 0 || p.steps[w].rmw;
  }

  /** The RF_CO_FR axiom picks exactly the write of the Value rule, and holds when moreover no
      competing write ties with the read. */
  lemma ValueRuleIsRfCoFr(p: Prog, t: Times, r: int, q: Pattern, w: int)
    requires WellFormed(p) && Timed(p, t) && TsoOrder(p, t) && CoreDistinct(p, t) && Inst(p, r)
    ensures OrderedSource(p, t, r, q, w) <==> ValueRule(p, t, r, q, w) && NoTie(p, t, r, q, w)
  {
    forall x | Hits(p, x, q) ensures t.ts[x] <= t.gts[x] && Writer(p, x) {
      IssueBeforeGlobal(p, t, x);
    }
    if Hits(p, w, q) && w != r {
      forall x | Hits(p, x, q) && x != w && SameCore(p, x, w)
        ensures t.ts[x] < t.ts[w] <==> t.gts[x] < t.gts[w] {
        StoreOrderIsGlobal(p, t, x, w);
      }
    }
  }

  lemma StoreOrderIsGlobal(p: Prog, t: Times, x: int, w: int)
    requires WellFormed(p) && Timed(p, t) && TsoStore(p, t) && CoreDistinct(p, t)
    requires Writer(p, x) && Writer(p, w) && x != w && SameCore(p, x, w)
    ensures t.ts[x] < t.ts[w] <==> t.gts[x] < t.gts[w]
  {
    assert x != 0 && w != 0;
  }

  lemma ValueRuleUnique(p: Prog, t: Times, r: int, q: Pattern, w: int, w': int)
    requires Timed(p, t) && Inst(p, r) && ValueRule(p, t, r, q, w) && ValueRule(p, t, r, q, w')
    ensures w == w'
  {
  }
}
