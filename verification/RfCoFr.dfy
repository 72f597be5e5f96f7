/** The RF_CO_FR axiom as the memory models push it: nested loops over the shared states and
    the step sets build a formula.  The SC and the TSO model differ in RF, FR and CO only. */
module RfCoFr {
  import opened Ast
  import opened Trace
  import opened Ila
  import opened Constraints

  datatype Kind = SC | TSO

  // ---------- the orders and the RF_CO_FR axiom of either model ----------

  ghost predicate RfOf(k: Kind, p: Prog, t: Times, w: int, r: int)
    requires Timed(p, t) && 0 <= w < |p.steps| && 0 <= r < |p.steps|
  {
    if k == SC then t.ts[w] < t.ts[r] else RF(p, t, w, r)
  }

  ghost predicate FrOf(k: Kind, p: Prog, t: Times, r: int, w: int)
    requires Timed(p, t) && 0 <= w < |p.steps| && 0 <= r < |p.steps|
  {
    if k == SC then t.ts[r] < t.ts[w] else FR(p, t, r, w)
  }

  ghost predicate CoOf(k: Kind, p: Prog, t: Times, w1: int, w2: int)
    requires Timed(p, t) && 0 <= w1 < |p.steps| && 0 <= w2 < |p.steps|
  {
    if k == SC then t.ts[w1] < t.ts[w2] else CO(p, t, w1, w2)
  }

  ghost predicate ReadFromOf(k: Kind, p: Prog, t: Times, r: int, s: string, w: int)
    requires Timed(p, t) && Inst(p, r) && s in p.steps[r].loads
  {
    && w != r && Writes(p, w, s)
    && SameAddress(p, w, r, s) && SameData(p, w, r, s) && Decoded(p, w)
    && RfOf(k, p, t, w, r)
    && forall x :: x != w && x != r && Writes(p, x, s) && SameAddress(p, x, r, s) && Decoded(p, x) ==>
                   CoOf(k, p, t, x, w) || FrOf(k, p, t, r, x)
  }

  ghost predicate RfCoFrOf(k: Kind, p: Prog, t: Times)
    requires Timed(p, t)
  {
    forall r, s :: Inst(p, r) && s in p.steps[r].loads ==> exists w :: ReadFromOf(k, p, t, r, s, w)
  }

  lemma KindMeaning(p: Prog, t: Times)
    requires Timed(p, t)
    ensures RfCoFrOf(SC, p, t) <==> ScAxioms(p, t)
    ensures RfCoFrOf(TSO, p, t) <==> TsoRfCoFr(p, t)
  {
    forall r, s, w | Inst(p, r) && s in p.steps[r].loads
      ensures ReadFromOf(SC, p, t, r, s, w) <==> ScReadFrom(p, t, r, s, w)
      ensures ReadFromOf(TSO, p, t, r, s, w) <==> TsoReadFrom(p, t, r, s, w) {
    }
  }

  // ---------- atoms ----------

  /** The facet of a write; the initial step is its own facet. */
  function WfeGlobal(i: nat): Stamp {
    if i == 0 then Now(0) else Facet(i)
  }

  function RfF(k: Kind, steps: seq<TraceStep>, w: nat, r: nat): Formula
    requires w < |steps| && r < |steps|
  {
    if k == SC || steps[w].host == steps[r].host then HbF(Now(w), Now(r)) else HbF(WfeGlobal(w), Now(r))
  }

  function FrF(k: Kind, steps: seq<TraceStep>, r: nat, w: nat): Formula
    requires w < |steps| && r < |steps|
  {
    if k == SC || steps[r].host == steps[w].host then HbF(Now(r), Now(w)) else HbF(Now(r), WfeGlobal(w))
  }

  function CoF(k: Kind, steps: seq<TraceStep>, w1: nat, w2: nat): Formula
    requires w1 < |steps| && w2 < |steps|
  {
    if k == SC || steps[w1].host == steps[w2].host then HbF(Now(w1), Now(w2)) else HbF(WfeGlobal(w1), WfeGlobal(w2))
  }

  function DecodeF(ts: TraceStep): Formula {
    if ts.kind == FINAL_EVT then BoolF(true) else HoldsF(FrameOf(ts), ts.inst.decode)
  }

  /** Models that give every registered step a timestamp of the right kind. */
  ghost predicate Good(sys: System, steps: seq<TraceStep>, M: Model) {
    Registered(sys, steps) && Fits(steps, M) && Timed(ProgOf(sys, steps, M), M.t)
  }

  lemma HostMeaning(sys: System, steps: seq<TraceStep>, M: Model, a: nat)
    requires Registered(sys, steps) && a < |steps|
    ensures |ProgOf(sys, steps, M).steps| == |steps| && ProgOf(sys, steps, M).steps[a].core == steps[a].host
  {
    if a > 0 {
      StepOfProg(sys, steps, M, a);
    }
  }

  lemma StampMeaning(sys: System, steps: seq<TraceStep>, M: Model, a: nat)
    requires Good(sys, steps, M) && a < |steps|
    ensures Time(M, Now(a)) == M.t.ts[a] && Time(M, WfeGlobal(a)) == M.t.gts[a]
  {
  }

  lemma OrderMeaning(k: Kind, sys: System, steps: seq<TraceStep>, M: Model, a: nat, b: nat)
    requires Good(sys, steps, M) && a < |steps| && b < |steps|
    ensures |ProgOf(sys, steps, M).steps| == |steps|
    ensures Holds(RfF(k, steps, a, b), M) <==> RfOf(k, ProgOf(sys, steps, M), M.t, a, b)
    ensures Holds(FrF(k, steps, a, b), M) <==> FrOf(k, ProgOf(sys, steps, M), M.t, a, b)
    ensures Holds(CoF(k, steps, a, b), M) <==> CoOf(k, ProgOf(sys, steps, M), M.t, a, b)
    ensures steps[a].host == steps[b].host <==> SameCore(ProgOf(sys, steps, M), a, b)
  {
    HostMeaning(sys, steps, M, a);
    HostMeaning(sys, steps, M, b);
    StampMeaning(sys, steps, M, a);
    StampMeaning(sys, steps, M, b);
  }

  lemma DecodeMeaning(sys: System, steps: seq<TraceStep>, M: Model, w: nat, s: string)
    requires Registered(sys, steps) && WritesShared(sys, steps, w, s)
    ensures Holds(DecodeF(steps[w]), M) <==> Decoded(ProgOf(sys, steps, M), w)
  {
    if w != 0 {
      StepOfProg(sys, steps, M, w);
    }
  }

  // ---------- the pieces of the RF_CO_FR axiom ----------

  lemma RegisteredAccesses(sys: System, steps: seq<TraceStep>, M: Model, r: int, w: int, s: string)
    requires Registered(sys, steps) && ReadsShared(sys, steps, r, s) && WritesShared(sys, steps, w, s)
    ensures var p := ProgOf(sys, steps, M);
            Inst(p, r) && s in p.steps[r].loads && Writes(p, w, s)
  {
    WritesMeaning(sys, steps, M, w, s);
    StepOfProg(sys, steps, M, r);
  }

  /** One competing write of a read and its source. */
  ghost predicate Competitor(k: Kind, sys: System, steps: seq<TraceStep>, M: Model, s: string, r: int, w: int, x: int)
    requires Good(sys, steps, M) && ReadsShared(sys, steps, r, s) && WritesShared(sys, steps, w, s)
  {
    var p := ProgOf(sys, steps, M);
    RegisteredAccesses(sys, steps, M, r, w, s);
    x != w && x != r && Writes(p, x, s) && SameAddress(p, x, r, s) && Decoded(p, x) ==>
      CoOf(k, p, M.t, x, w) || FrOf(k, p, M.t, r, x)
  }

  /** The source of a read satisfies the axiom as far as competing writes in `ws` go. */
  ghost predicate Competitors(k: Kind, sys: System, steps: seq<TraceStep>, M: Model, s: string, r: int, w: int,
                              ws: set<nat>)
    requires Good(sys, steps, M) && ReadsShared(sys, steps, r, s) && WritesShared(sys, steps, w, s)
  {
    forall x :: x in ws ==> Competitor(k, sys, steps, M, s, r, w, x)
  }

  ghost predicate Source(k: Kind, sys: System, steps: seq<TraceStep>, M: Model, s: string, r: int, w: int)
    requires Good(sys, steps, M) && ReadsShared(sys, steps, r, s)
  {
    StepOfProg(sys, steps, M, r);
    ReadFromOf(k, ProgOf(sys, steps, M), M.t, r, s, w)
  }

  /** The write of `x` and the read of `r` have the same address. */
  ghost predicate Paired(sys: System, steps: seq<TraceStep>, M: Model, x: int, r: int, s: string)
    requires Registered(sys, steps) && ReadsShared(sys, steps, r, s) && WritesShared(sys, steps, x, s)
  {
    RegisteredAccesses(sys, steps, M, r, x, s);
    SameAddress(ProgOf(sys, steps, M), x, r, s)
  }

  method ReadWriteAddressF(sys: System, steps: seq<TraceStep>, r: nat, x: nat, s: string) returns (f: Formula)
    requires Registered(sys, steps) && ReadsShared(sys, steps, r, s) && WritesShared(sys, steps, x, s)
    ensures forall M: Model :: Holds(f, M) <==> Paired(sys, steps, M, x, r, s)
  {
    f := SameAddressF(sys, steps[r], steps[x], s, HINT_READ, HINT_WRITE);
    forall M: Model ensures Holds(f, M) <==> Paired(sys, steps, M, x, r, s) {
      AddressMeaning(sys, steps, M, x, r, s);
    }
  }

  method WriteReadAddressF(sys: System, steps: seq<TraceStep>, x: nat, r: nat, s: string) returns (f: Formula)
    requires Registered(sys, steps) && ReadsShared(sys, steps, r, s) && WritesShared(sys, steps, x, s)
    ensures forall M: Model :: Holds(f, M) <==> Paired(sys, steps, M, x, r, s)
  {
    f := SameAddressF(sys, steps[x], steps[r], s, HINT_WRITE, HINT_READ);
    forall M: Model ensures Holds(f, M) <==> Paired(sys, steps, M, x, r, s) {
      AddressMeaning(sys, steps, M, x, r, s);
    }
  }

  lemma CompetitorMeaning(k: Kind, sys: System, steps: seq<TraceStep>, M: Model, s: string, r: nat, w: nat, x: nat)
    requires Good(sys, steps, M) && ReadsShared(sys, steps, r, s)
    requires WritesShared(sys, steps, w, s) && WritesShared(sys, steps, x, s) && x != w && x != r
    ensures Competitor(k, sys, steps, M, s, r, w, x) <==>
            (Paired(sys, steps, M, x, r, s) && Holds(DecodeF(steps[x]), M) ==>
               Holds(CoF(k, steps, x, w), M) || Holds(FrF(k, steps, r, x), M))
  {
    RegisteredAccesses(sys, steps, M, r, x, s);
    DecodeMeaning(sys, steps, M, x, s);
    OrderMeaning(k, sys, steps, M, x, w);
    OrderMeaning(k, sys, steps, M, r, x);
  }

  method CompetitorF(k: Kind, sys: System, steps: seq<TraceStep>, s: string, r: nat, w: nat,
                     x: nat) returns (f: Formula)
    requires Registered(sys, steps) && ReadsShared(sys, steps, r, s)
    requires WritesShared(sys, steps, w, s) && WritesShared(sys, steps, x, s) && x != w && x != r
    ensures forall M: Model :: Good(sys, steps, M) ==> (Holds(f, M) <==> Competitor(k, sys, steps, M, s, r, w, x))
  {
    var sa := ReadWriteAddressF(sys, steps, r, x, s);
    var decode, co, fr := DecodeF(steps[x]), CoF(k, steps, x, w), FrF(k, steps, r, x);
    f := ImpliesF(AndF(sa, decode), OrF(co, fr));
    ImpliesMeaning(sa, decode, co, fr);
    forall M: Model | Good(sys, steps, M) ensures Holds(f, M) <==> Competitor(k, sys, steps, M, s, r, w, x) {
      CompetitorMeaning(k, sys, steps, M, s, r, w, x);
    }
  }

  lemma ImpliesMeaning(a: Formula, b: Formula, c: Formula, d: Formula)
    ensures forall M: Model :: Holds(ImpliesF(AndF(a, b), OrF(c, d)), M) <==>
              (Holds(a, M) && Holds(b, M) ==> Holds(c, M) || Holds(d, M))
  {
  }

  /** forall w2 : WRITE_list */
  method CompetitorsF(k: Kind, sys: System, steps: seq<TraceStep>, writes: set<nat>, s: string, r: nat, w: nat)
    returns (var5: Formula)
    requires Registered(sys, steps) && ReadsShared(sys, steps, r, s) && WritesShared(sys, steps, w, s)
    requires forall x :: x in writes ==> x < |steps| && steps[x].kind != FINAL_EVT
    ensures forall M: Model :: Good(sys, steps, M) ==>
              (Holds(var5, M) <==> Competitors(k, sys, steps, M, s, r, w, writes))
  {
    var var4_L: seq<Formula> := [];
    var todo := writes;
    while todo != {}
      invariant todo <= writes
      invariant forall M: Model :: Good(sys, steps, M) ==>
                  (AllHold(var4_L, M) <==> Competitors(k, sys, steps, M, s, r, w, writes - todo))
    {
      var w2 :| w2 in todo;
      CompetitorsStep(k, sys, steps, s, r, w, writes - todo, w2);
      todo := todo - {w2};
      assert writes - todo == (writes - (todo + {w2})) + {w2};
      if w2 == w || w2 == r || s !in WriteSet(steps[w2]) {
        CompetitorSkipped(k, sys, steps, s, r, w, w2);
        continue;
      }
      var var3 := CompetitorF(k, sys, steps, s, r, w, w2);
      AllHoldAppend(var4_L, var3);
      var4_L := var4_L + [var3];
    }
    assert writes - todo == writes;
    var5 := ForallList(var4_L);
  }

  lemma CompetitorsStep(k: Kind, sys: System, steps: seq<TraceStep>, s: string, r: nat, w: nat, ws: set<nat>, x: nat)
    requires Registered(sys, steps) && ReadsShared(sys, steps, r, s) && WritesShared(sys, steps, w, s)
    ensures forall M: Model :: Good(sys, steps, M) ==>
              (Competitors(k, sys, steps, M, s, r, w, ws + {x}) <==>
               Competitors(k, sys, steps, M, s, r, w, ws) && Competitor(k, sys, steps, M, s, r, w, x))
  {
  }

  lemma CompetitorSkipped(k: Kind, sys: System, steps: seq<TraceStep>, s: string, r: nat, w: nat, x: nat)
    requires Registered(sys, steps) && ReadsShared(sys, steps, r, s) && WritesShared(sys, steps, w, s)
    requires x == w || x == r || !WritesShared(sys, steps, x, s)
    ensures forall M: Model :: Good(sys, steps, M) ==> Competitor(k, sys, steps, M, s, r, w, x)
  {
    forall M: Model | Good(sys, steps, M) ensures Competitor(k, sys, steps, M, s, r, w, x) {
      WritesMeaning(sys, steps, M, x, s);
    }
  }

  /** The data of the write of `w` is that of the read of `r`. */
  ghost predicate Carried(sys: System, steps: seq<TraceStep>, M: Model, w: int, r: int, s: string)
    requires Registered(sys, steps) && ReadsShared(sys, steps, r, s) && WritesShared(sys, steps, w, s)
  {
    RegisteredAccesses(sys, steps, M, r, w, s);
    SameData(ProgOf(sys, steps, M), w, r, s)
  }

  method WriteReadDataF(sys: System, steps: seq<TraceStep>, w: nat, r: nat, s: string) returns (f: Formula)
    requires Registered(sys, steps) && ReadsShared(sys, steps, r, s) && WritesShared(sys, steps, w, s)
    ensures forall M: Model :: Holds(f, M) <==> Carried(sys, steps, M, w, r, s)
  {
    FindIsWritten(steps[w], s);
    assert w != 0 && s in sys.mems ==> StoreUpdate(steps[w], s);
    f := SameDataF(sys, steps[w], steps[r], s);
    forall M: Model ensures Holds(f, M) <==> Carried(sys, steps, M, w, r, s) {
      DataMeaning(sys, steps, M, w, r, s);
    }
  }

  /** `writes` is WRITE_list as far as shared state is concerned. */
  ghost predicate AllWriters(sys: System, steps: seq<TraceStep>, writes: set<nat>) {
    && (forall x :: x in writes ==> x < |steps| && steps[x].kind != FINAL_EVT)
    && (forall x, s :: WritesShared(sys, steps, x, s) ==> x in writes)
  }

  lemma SourceMeaning(k: Kind, sys: System, steps: seq<TraceStep>, M: Model, writes: set<nat>, s: string, r: nat,
                      w: nat)
    requires Good(sys, steps, M) && AllWriters(sys, steps, writes)
    requires ReadsShared(sys, steps, r, s) && WritesShared(sys, steps, w, s) && w != r
    ensures Source(k, sys, steps, M, s, r, w) <==>
            Paired(sys, steps, M, w, r, s) && Carried(sys, steps, M, w, r, s) && Holds(DecodeF(steps[w]), M) &&
            Holds(RfF(k, steps, w, r), M) && Competitors(k, sys, steps, M, s, r, w, writes)
  {
    RegisteredAccesses(sys, steps, M, r, w, s);
    DecodeMeaning(sys, steps, M, w, s);
    OrderMeaning(k, sys, steps, M, w, r);
    var p := ProgOf(sys, steps, M);
    forall x | Writes(p, x, s) ensures x in writes {
      WritesMeaning(sys, steps, M, x, s);
    }
    if Competitors(k, sys, steps, M, s, r, w, writes) {
      forall x | x != w && x != r && Writes(p, x, s) && SameAddress(p, x, r, s) && Decoded(p, x)
        ensures CoOf(k, p, M.t, x, w) || FrOf(k, p, M.t, r, x) {
        assert Competitor(k, sys, steps, M, s, r, w, x);
      }
    }
  }

  lemma ConjunctionMeaning(a: Formula, b: Formula, c: Formula, d: Formula, e: Formula)
    ensures forall M: Model :: Holds(AndF(AndF(AndF(AndF(a, b), c), d), e), M) <==>
              Holds(a, M) && Holds(b, M) && Holds(c, M) && Holds(d, M) && Holds(e, M)
  {
    forall M: Model ensures Holds(AndF(AndF(AndF(AndF(a, b), c), d), e), M) <==>
              Holds(a, M) && Holds(b, M) && Holds(c, M) && Holds(d, M) && Holds(e, M) {
      assert Holds(AndF(AndF(AndF(a, b), c), d), M) <==> Holds(AndF(AndF(a, b), c), M) && Holds(d, M);
      assert Holds(AndF(AndF(a, b), c), M) <==> Holds(AndF(a, b), M) && Holds(c, M);
    }
  }

  method SourceF(k: Kind, sys: System, steps: seq<TraceStep>, writes: set<nat>, s: string, r: nat, w: nat)
    returns (var2: Formula)
    requires Registered(sys, steps) && AllWriters(sys, steps, writes)
    requires ReadsShared(sys, steps, r, s) && WritesShared(sys, steps, w, s) && w != r
    ensures forall M: Model :: Good(sys, steps, M) ==> (Holds(var2, M) <==> Source(k, sys, steps, M, s, r, w))
  {
    var var5 := CompetitorsF(k, sys, steps, writes, s, r, w);
    var sa := WriteReadAddressF(sys, steps, w, r, s);
    var sd := WriteReadDataF(sys, steps, w, r, s);
    var decode, rf := DecodeF(steps[w]), RfF(k, steps, w, r);
    var2 := AndF(AndF(AndF(AndF(sa, sd), decode), rf), var5);
    ConjunctionMeaning(sa, sd, decode, rf, var5);
    forall M: Model | Good(sys, steps, M) ensures Holds(var2, M) <==> Source(k, sys, steps, M, s, r, w) {
      SourceMeaning(k, sys, steps, M, writes, s, r, w);
    }
  }

  ghost predicate SourceAmong(k: Kind, sys: System, steps: seq<TraceStep>, M: Model, s: string, r: int, ws: set<nat>)
    requires Good(sys, steps, M) && ReadsShared(sys, steps, r, s)
  {
    exists w :: w in ws && Source(k, sys, steps, M, s, r, w)
  }

  lemma SourceAmongStep(k: Kind, sys: System, steps: seq<TraceStep>, s: string, r: nat, ws: set<nat>, w: nat)
    requires Registered(sys, steps) && ReadsShared(sys, steps, r, s)
    ensures forall M: Model :: Good(sys, steps, M) ==>
              (SourceAmong(k, sys, steps, M, s, r, ws + {w}) <==>
               SourceAmong(k, sys, steps, M, s, r, ws) || Source(k, sys, steps, M, s, r, w))
  {
  }

  lemma NoSource(k: Kind, sys: System, steps: seq<TraceStep>, s: string, r: nat, w: nat)
    requires Registered(sys, steps) && ReadsShared(sys, steps, r, s)
    requires w == r || !WritesShared(sys, steps, w, s)
    ensures forall M: Model :: Good(sys, steps, M) ==> !Source(k, sys, steps, M, s, r, w)
  {
    forall M: Model | Good(sys, steps, M) ensures !Source(k, sys, steps, M, s, r, w) {
      WritesMeaning(sys, steps, M, w, s);
    }
  }

  /** exists w : WRITE_list */
  method ReadF(k: Kind, sys: System, steps: seq<TraceStep>, writes: set<nat>, s: string, r: nat) returns (var7: Formula)
    requires Registered(sys, steps) && AllWriters(sys, steps, writes) && ReadsShared(sys, steps, r, s)
    ensures forall M: Model :: Good(sys, steps, M) ==>
              (Holds(var7, M) <==> SourceAmong(k, sys, steps, M, s, r, writes))
  {
    var var6_L: seq<Formula> := [];
    var todo := writes;
    while todo != {}
      invariant todo <= writes
      invariant forall M: Model :: Good(sys, steps, M) ==>
                  (SomeHolds(var6_L, M) <==> SourceAmong(k, sys, steps, M, s, r, writes - todo))
    {
      var w :| w in todo;
      SourceAmongStep(k, sys, steps, s, r, writes - todo, w);
      todo := todo - {w};
      assert writes - todo == (writes - (todo + {w})) + {w};
      if w == r || s !in WriteSet(steps[w]) {
        NoSource(k, sys, steps, s, r, w);
        continue;
      }
      var var2 := SourceF(k, sys, steps, writes, s, r, w);
      SomeHoldsAppend(var6_L, var2);
      var6_L := var6_L + [var2];
    }
    assert writes - todo == writes;
    var7 := ExistsList(var6_L);
  }

  ghost predicate ReadsHaveSource(k: Kind, sys: System, steps: seq<TraceStep>, M: Model, s: string, rs: set<nat>)
    requires Good(sys, steps, M)
  {
    forall r :: r in rs && ReadsShared(sys, steps, r, s) ==> exists w :: Source(k, sys, steps, M, s, r, w)
  }

  lemma SourceIsWriter(k: Kind, sys: System, steps: seq<TraceStep>, writes: set<nat>, s: string, r: nat)
    requires Registered(sys, steps) && AllWriters(sys, steps, writes) && ReadsShared(sys, steps, r, s)
    ensures forall M: Model :: Good(sys, steps, M) ==>
              (SourceAmong(k, sys, steps, M, s, r, writes) <==> exists w :: Source(k, sys, steps, M, s, r, w))
  {
    forall M: Model | Good(sys, steps, M)
      ensures SourceAmong(k, sys, steps, M, s, r, writes) <==> exists w :: Source(k, sys, steps, M, s, r, w) {
      if w :| Source(k, sys, steps, M, s, r, w) {
        WritesMeaning(sys, steps, M, w, s);
        assert w in writes;
      }
    }
  }

  lemma ReadsHaveSourceStep(k: Kind, sys: System, steps: seq<TraceStep>, s: string, rs: set<nat>, r: nat)
    requires Registered(sys, steps)
    ensures forall M: Model :: Good(sys, steps, M) ==>
              (ReadsHaveSource(k, sys, steps, M, s, rs + {r}) <==>
               ReadsHaveSource(k, sys, steps, M, s, rs) &&
               (ReadsShared(sys, steps, r, s) ==> exists w :: Source(k, sys, steps, M, s, r, w)))
  {
  }

  /** forall r : READ_list */
  method StateF(k: Kind, sys: System, steps: seq<TraceStep>, readers: set<nat>, writes: set<nat>, s: string)
    returns (var9: Formula)
    requires Registered(sys, steps) && AllWriters(sys, steps, writes) && s in sys.shared
    requires forall r :: r in readers ==> 1 <= r < |steps|
    ensures forall M: Model :: Good(sys, steps, M) ==>
              (Holds(var9, M) <==> ReadsHaveSource(k, sys, steps, M, s, readers))
  {
    var var8_L: seq<Formula> := [];
    var todo := readers;
    while todo != {}
      invariant todo <= readers
      invariant forall M: Model :: Good(sys, steps, M) ==>
                  (AllHold(var8_L, M) <==> ReadsHaveSource(k, sys, steps, M, s, readers - todo))
    {
      var r :| r in todo;
      ReadsHaveSourceStep(k, sys, steps, s, readers - todo, r);
      todo := todo - {r};
      assert readers - todo == (readers - (todo + {r})) + {r};
      if s !in ReadSet(steps[r]) {
        continue;
      }
      var var7 := ReadF(k, sys, steps, writes, s, r);
      SourceIsWriter(k, sys, steps, writes, s, r);
      AllHoldAppend(var8_L, var7);
      var8_L := var8_L + [var7];
    }
    assert readers - todo == readers;
    var9 := ForallList(var8_L);
  }

  ghost predicate StatesHaveSources(k: Kind, sys: System, steps: seq<TraceStep>, M: Model, readers: set<nat>,
                                    ss: set<string>)
    requires Good(sys, steps, M)
  {
    forall s :: s in ss ==> ReadsHaveSource(k, sys, steps, M, s, readers)
  }

  /** forall s : m_shared_state_names */
  method RfCoFrF(k: Kind, sys: System, steps: seq<TraceStep>, readers: set<nat>,
                 writes: set<nat>) returns (var11: Formula)
    requires Registered(sys, steps) && AllWriters(sys, steps, writes)
    requires forall r :: r in readers ==> 1 <= r < |steps|
    requires forall r, s :: ReadsShared(sys, steps, r, s) ==> r in readers
    ensures forall M: Model :: Good(sys, steps, M) ==>
              (Holds(var11, M) <==> RfCoFrOf(k, ProgOf(sys, steps, M), M.t))
  {
    var var10_L: seq<Formula> := [];
    var todo := sys.shared;
    while todo != {}
      invariant todo <= sys.shared
      invariant forall M: Model :: Good(sys, steps, M) ==>
                  (AllHold(var10_L, M) <==> StatesHaveSources(k, sys, steps, M, readers, sys.shared - todo))
    {
      var s :| s in todo;
      todo := todo - {s};
      var var9 := StateF(k, sys, steps, readers, writes, s);
      AllHoldAppend(var10_L, var9);
      var10_L := var10_L + [var9];
      assert sys.shared - todo == (sys.shared - (todo + {s})) + {s};
    }
    assert sys.shared - todo == sys.shared;
    var11 := ForallList(var10_L);
    RfCoFrMeaning(k, sys, steps, readers);
  }

  lemma RfCoFrMeaning(k: Kind, sys: System, steps: seq<TraceStep>, readers: set<nat>)
    requires Registered(sys, steps)
    requires forall r, s :: ReadsShared(sys, steps, r, s) ==> r in readers
    ensures forall M: Model :: Good(sys, steps, M) ==>
              (StatesHaveSources(k, sys, steps, M, readers, sys.shared) <==> RfCoFrOf(k, ProgOf(sys, steps, M), M.t))
  {
    forall M: Model | Good(sys, steps, M)
      ensures StatesHaveSources(k, sys, steps, M, readers, sys.shared) <==> RfCoFrOf(k, ProgOf(sys, steps, M), M.t) {
      var p := ProgOf(sys, steps, M);
      forall r, s ensures Inst(p, r) && s in p.steps[r].loads <==> ReadsShared(sys, steps, r, s) {
        if 1 <= r < |steps| {
          StepOfProg(sys, steps, M, r);
        }
      }
      forall r, s | ReadsShared(sys, steps, r, s)
        ensures (exists w :: Source(k, sys, steps, M, s, r, w)) <==> (exists w :: ReadFromOf(k, p, M.t, r, s, w)) {
        if w :| ReadFromOf(k, p, M.t, r, s, w) {
          assert Source(k, sys, steps, M, s, r, w);
        }
      }
    }
  }
}
