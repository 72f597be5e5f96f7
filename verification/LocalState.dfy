/** MemoryModel::SetLocalState: the constraints that link the private states of one ILA. */
module LocalState {
  import opened Ast
  import opened Trace
  import opened Ila
  import opened Constraints
  import opened PrivateState

  /** The instruction steps of one ILA with their numbers, in the order they were registered. */
  ghost predicate StepsOf(host: string, tss: seq<TraceStep>, nums: seq<nat>) {
    && |nums| == |tss|
    && forall k :: 0 <= k < |tss| ==>
         tss[k].kind == INST_EVT && tss[k].host == host && tss[k].pos == k + 1 && nums[k] >= 1
  }

  /** What a model gives to the steps for private state `s`. */
  ghost function LineOf(M: Model, ts: TraceStep, num: nat, s: string): Line {
    var u := UpdateOf(ts.inst, s);
    var cur := ValueAt(M, FrameOf(ts), Var(s));
    Line(u.Some?, s in ReadSet(ts), Truth(ValueAt(M, FrameOf(ts), ts.inst.decode)),
         if u.Some? then ValueAt(M, FrameOf(ts), u.value) else cur, cur, Time(M, Now(num)))
  }

  ghost function InitialLine(M: Model, host: string, s: string): (l: Line)
    ensures Initial(l)
  {
    var v := ValueAt(M, Frame(host, 0), Var(s));
    Line(true, false, true, v, v, 0)
  }

  ghost function LinesOf(M: Model, host: string, tss: seq<TraceStep>, nums: seq<nat>, s: string): (ls: seq<Line>)
    requires |nums| == |tss|
    ensures |ls| == |tss| + 1 && Lines(ls)
  {
    var ls := seq(|tss| + 1, k requires 0 <= k <= |tss| =>
                    if k == 0 then InitialLine(M, host, s) else LineOf(M, tss[k - 1], nums[k - 1], s));
    assert ls[0] == InitialLine(M, host, s);
    ls
  }

  ghost function FinalValue(M: Model, host: string, s: string): Value {
    ValueAt(M, Frame(host, FINAL_SUFFIX), Var(s))
  }

  // ---------- ordered ----------

  /** An expression and the suffix it is translated with. */
  datatype Definition = Definition(expr: Expr, pos: int)

  ghost predicate ReadLinked(M: Model, host: string, tss: seq<TraceStep>, nums: seq<nat>, s: string, k: nat)
    requires |nums| == |tss| && k < |tss|
  {
    var ls := LinesOf(M, host, tss, nums, s);
    s in ReadSet(tss[k]) ==> ls[k + 1].cur == Carry(ls, k + 1)
  }

  ghost predicate ReadsLinked(M: Model, host: string, tss: seq<TraceStep>, nums: seq<nat>, ss: set<string>, k: nat)
    requires |nums| == |tss| && k < |tss|
  {
    forall s :: s in ss ==> ReadLinked(M, host, tss, nums, s, k)
  }

  lemma ReadEquation(host: string, tss: seq<TraceStep>, nums: seq<nat>, s: string, d: Definition, k: nat)
    requires StepsOf(host, tss, nums) && k < |tss| && s in ReadSet(tss[k])
    requires LastUpdateIs(host, tss, nums, s, d, k + 1)
    ensures forall M: Model :: Holds(EqualF(FrameOf(tss[k]), Var(s), Frame(host, d.pos), d.expr), M) <==>
                               ReadLinked(M, host, tss, nums, s, k)
  {
    forall M: Model ensures Holds(EqualF(FrameOf(tss[k]), Var(s), Frame(host, d.pos), d.expr), M) <==>
                            ReadLinked(M, host, tss, nums, s, k) {
      assert IsLastUpdate(M, host, tss, nums, s, d, k + 1);
      ReadEquationFor(M, host, tss, nums, s, d, k);
    }
  }

  lemma ReadEquationFor(M: Model, host: string, tss: seq<TraceStep>, nums: seq<nat>, s: string, d: Definition, k: nat)
    requires |nums| == |tss| && k < |tss| && s in ReadSet(tss[k]) && IsLastUpdate(M, host, tss, nums, s, d, k + 1)
    ensures Holds(EqualF(FrameOf(tss[k]), Var(s), Frame(host, d.pos), d.expr), M) <==>
            ReadLinked(M, host, tss, nums, s, k)
  {
    CurrentValue(M, host, tss, nums, s, k);
  }

  lemma CurrentValue(M: Model, host: string, tss: seq<TraceStep>, nums: seq<nat>, s: string, k: nat)
    requires |nums| == |tss| && k < |tss|
    ensures LinesOf(M, host, tss, nums, s)[k + 1].cur == ValueAt(M, FrameOf(tss[k]), Var(s))
  {
    assert LinesOf(M, host, tss, nums, s)[k + 1] == LineOf(M, tss[k], nums[k], s);
  }

  lemma FinalEquation(host: string, tss: seq<TraceStep>, nums: seq<nat>, s: string, d: Definition)
    requires |nums| == |tss| && LastUpdateIs(host, tss, nums, s, d, |tss| + 1)
    ensures forall M: Model :: Holds(EqualF(Frame(host, FINAL_SUFFIX), Var(s), Frame(host, d.pos), d.expr), M) <==>
                               FinalLinked(M, host, tss, nums, s)
  {
    forall M: Model ensures Holds(EqualF(Frame(host, FINAL_SUFFIX), Var(s), Frame(host, d.pos), d.expr), M) <==>
                            FinalLinked(M, host, tss, nums, s) {
      assert IsLastUpdate(M, host, tss, nums, s, d, |tss| + 1);
    }
  }

  lemma ReadsLinkedStep(host: string, tss: seq<TraceStep>, nums: seq<nat>, ss: set<string>, s: string, k: nat)
    requires |nums| == |tss| && k < |tss|
    ensures forall M: Model :: ReadsLinked(M, host, tss, nums, ss + {s}, k) <==>
              ReadsLinked(M, host, tss, nums, ss, k) && ReadLinked(M, host, tss, nums, s, k)
  {
  }

  /** HB(prev_ts, ts) */
  ghost predicate Chained(M: Model, nums: seq<nat>, k: nat)
    requires k < |nums|
  {
    k > 0 ==> Time(M, Now(nums[k - 1])) < Time(M, Now(nums[k]))
  }

  /** The table entry of a state is its last update before line k. */
  ghost predicate IsLastUpdate(M: Model, host: string, tss: seq<TraceStep>, nums: seq<nat>, s: string, d: Definition,
                               k: nat)
    requires |nums| == |tss| && 1 <= k <= |tss| + 1
  {
    ValueAt(M, Frame(host, d.pos), d.expr) == Carry(LinesOf(M, host, tss, nums, s), k)
  }

  ghost predicate LastUpdateIs(host: string, tss: seq<TraceStep>, nums: seq<nat>, s: string, d: Definition, k: nat)
    requires |nums| == |tss| && 1 <= k <= |tss| + 1
  {
    forall M: Model :: IsLastUpdate(M, host, tss, nums, s, d, k)
  }

  ghost predicate TableIs(host: string, tss: seq<TraceStep>, nums: seq<nat>, priv: set<string>,
                          last: map<string, Definition>, k: nat)
    requires |nums| == |tss| && 1 <= k <= |tss| + 1
  {
    last.Keys == priv && forall s :: s in priv ==> LastUpdateIs(host, tss, nums, s, last[s], k)
  }

  /** Push v(step) == write_expr for every private state the step reads. */
  method LinkReads(host: string, tss: seq<TraceStep>, nums: seq<nat>, priv: set<string>,
                   last: map<string, Definition>, k: nat) returns (cs: seq<Formula>)
    requires StepsOf(host, tss, nums) && k < |tss| && TableIs(host, tss, nums, priv, last, k + 1)
    ensures forall M: Model :: AllHold(cs, M) <==> ReadsLinked(M, host, tss, nums, priv, k)
  {
    cs := [];
    var todo := ReadSet(tss[k]) * priv;
    while todo != {}
      invariant todo <= ReadSet(tss[k]) * priv
      invariant forall M: Model :: AllHold(cs, M) <==>
                  ReadsLinked(M, host, tss, nums, ReadSet(tss[k]) * priv - todo, k)
    {
      var s :| s in todo;
      todo := todo - {s};
      var d := last[s];
      var eq := EqualF(FrameOf(tss[k]), Var(s), Frame(host, d.pos), d.expr);
      ReadEquation(host, tss, nums, s, d, k);
      AllHoldAppend(cs, eq);
      ReadsLinkedStep(host, tss, nums, ReadSet(tss[k]) * priv - (todo + {s}), s, k);
      cs := cs + [eq];
      assert ReadSet(tss[k]) * priv - todo == (ReadSet(tss[k]) * priv - (todo + {s})) + {s};
    }
    assert ReadSet(tss[k]) * priv - todo == ReadSet(tss[k]) * priv;
  }

  lemma ConditionalUpdate(M: Model, f: Frame, d: Expr, u: Expr, s: string)
    ensures ValueAt(M, f, Ite(d, u, Var(s))) ==
            if Truth(ValueAt(M, f, d)) then ValueAt(M, f, u) else ValueAt(M, f, Var(s))
  {
    var env := M.env(f.host, f.pos);
    assert EvalAll(M.interp, [d, u, Var(s)], env) ==
           [Eval(M.interp, d, env), Eval(M.interp, u, env), Eval(M.interp, Var(s), env)];
  }

  /** Overwrite the table with ITE(decode, update, state) for every private state written. */
  method RecordWrites(host: string, tss: seq<TraceStep>, nums: seq<nat>, priv: set<string>,
                      last: map<string, Definition>, k: nat) returns (r: map<string, Definition>)
    requires StepsOf(host, tss, nums) && k < |tss| && TableIs(host, tss, nums, priv, last, k + 1)
    ensures TableIs(host, tss, nums, priv, r, k + 2)
  {
    r := last;
    var ts := tss[k];
    var writes := set u | u in ts.inst.updates && u.state in priv :: u.state;
    var todo := writes;
    while todo != {}
      invariant todo <= writes
      invariant r.Keys == priv
      invariant forall s :: s in priv && s !in writes - todo ==> r[s] == last[s]
      invariant forall s :: s in writes - todo ==> UpdateOf(ts.inst, s).Some?
      invariant forall s :: s in writes - todo ==>
                  r[s] == Definition(Ite(ts.inst.decode, UpdateOf(ts.inst, s).value, Var(s)), ts.pos)
    {
      var s :| s in todo;
      todo := todo - {s};
      FindIsWritten(ts, s);
      r := r[s := Definition(Ite(ts.inst.decode, UpdateOf(ts.inst, s).value, Var(s)), ts.pos)];
    }
    forall s | s in priv ensures LastUpdateIs(host, tss, nums, s, r[s], k + 2) {
      assert LastUpdateIs(host, tss, nums, s, last[s], k + 1);
      FindIsWritten(ts, s);
      if s in writes {
        NewLastUpdate(host, tss, nums, s, k);
      } else {
        OldLastUpdate(host, tss, nums, s, last[s], k);
      }
    }
  }

  lemma NewLastUpdate(host: string, tss: seq<TraceStep>, nums: seq<nat>, s: string, k: nat)
    requires StepsOf(host, tss, nums) && k < |tss| && UpdateOf(tss[k].inst, s).Some?
    ensures LastUpdateIs(host, tss, nums, s,
                         Definition(Ite(tss[k].inst.decode, UpdateOf(tss[k].inst, s).value, Var(s)), tss[k].pos), k + 2)
  {
    var ts := tss[k];
    forall M: Model ensures ValueAt(M, FrameOf(ts), Ite(ts.inst.decode, UpdateOf(ts.inst, s).value, Var(s))) ==
                            Carry(LinesOf(M, host, tss, nums, s), k + 2) {
      ConditionalUpdate(M, FrameOf(ts), ts.inst.decode, UpdateOf(ts.inst, s).value, s);
      assert LinesOf(M, host, tss, nums, s)[k + 1] == LineOf(M, ts, nums[k], s);
    }
  }

  lemma CarriedOver(M: Model, host: string, tss: seq<TraceStep>, nums: seq<nat>, s: string, k: nat)
    requires |nums| == |tss| && k < |tss| && UpdateOf(tss[k].inst, s).None?
    ensures Carry(LinesOf(M, host, tss, nums, s), k + 2) == Carry(LinesOf(M, host, tss, nums, s), k + 1)
  {
    assert LinesOf(M, host, tss, nums, s)[k + 1] == LineOf(M, tss[k], nums[k], s);
  }

  lemma OldLastUpdate(host: string, tss: seq<TraceStep>, nums: seq<nat>, s: string, d: Definition, k: nat)
    requires StepsOf(host, tss, nums) && k < |tss| && UpdateOf(tss[k].inst, s).None?
    requires LastUpdateIs(host, tss, nums, s, d, k + 1)
    ensures LastUpdateIs(host, tss, nums, s, d, k + 2)
  {
    var n := k + 2;
    forall M: Model ensures IsLastUpdate(M, host, tss, nums, s, d, n) {
      assert IsLastUpdate(M, host, tss, nums, s, d, k + 1);
      CarriedOver(M, host, tss, nums, s, k);
    }
  }

  ghost predicate LinkedUpTo(M: Model, host: string, tss: seq<TraceStep>, nums: seq<nat>, priv: set<string>, n: nat)
    requires |nums| == |tss| && n <= |tss|
  {
    forall k :: 0 <= k < n ==> ReadsLinked(M, host, tss, nums, priv, k) && Chained(M, nums, k)
  }

  ghost predicate FinalLinked(M: Model, host: string, tss: seq<TraceStep>, nums: seq<nat>, s: string)
    requires |nums| == |tss|
  {
    FinalValue(M, host, s) == Carry(LinesOf(M, host, tss, nums, s), |tss| + 1)
  }

  ghost predicate FinalsLinked(M: Model, host: string, tss: seq<TraceStep>, nums: seq<nat>, ss: set<string>)
    requires |nums| == |tss|
  {
    forall s :: s in ss ==> FinalLinked(M, host, tss, nums, s)
  }

  lemma FinalsLinkedStep(host: string, tss: seq<TraceStep>, nums: seq<nat>, ss: set<string>, s: string)
    requires |nums| == |tss|
    ensures forall M: Model :: FinalsLinked(M, host, tss, nums, ss + {s}) <==>
              FinalsLinked(M, host, tss, nums, ss) && FinalLinked(M, host, tss, nums, s)
  {
  }

  /** Push v(final) == write_expr for every private state. */
  method LinkFinals(host: string, tss: seq<TraceStep>, nums: seq<nat>, priv: set<string>,
                    last: map<string, Definition>) returns (cs: seq<Formula>)
    requires StepsOf(host, tss, nums) && TableIs(host, tss, nums, priv, last, |tss| + 1)
    ensures forall M: Model :: AllHold(cs, M) <==> FinalsLinked(M, host, tss, nums, priv)
  {
    cs := [];
    var todo := priv;
    while todo != {}
      invariant todo <= priv
      invariant forall M: Model :: AllHold(cs, M) <==> FinalsLinked(M, host, tss, nums, priv - todo)
    {
      var s :| s in todo;
      todo := todo - {s};
      var d := last[s];
      var eq := EqualF(Frame(host, FINAL_SUFFIX), Var(s), Frame(host, d.pos), d.expr);
      FinalEquation(host, tss, nums, s, d);
      AllHoldAppend(cs, eq);
      FinalsLinkedStep(host, tss, nums, priv - (todo + {s}), s);
      cs := cs + [eq];
      assert priv - todo == (priv - (todo + {s})) + {s};
    }
    assert priv - todo == priv;
  }

  /** SetLocalState for an ordered ILA: one pass over the steps with a table of last updates. */
  method SetOrdered(host: string, tss: seq<TraceStep>, nums: seq<nat>, priv: set<string>) returns (constr: seq<Formula>)
    requires StepsOf(host, tss, nums)
    ensures forall M: Model :: AllHold(constr, M) <==> OrderedLocalState(M, host, tss, nums, priv)
  {
    constr := [];
    var last_update_of_a_state := map s | s in priv :: Definition(Var(s), 0);
    forall s | s in priv ensures LastUpdateIs(host, tss, nums, s, last_update_of_a_state[s], 1) {
      InitialUpdate(host, tss, nums, s);
    }
    var k := 0;
    while k < |tss|
      invariant 0 <= k <= |tss|
      invariant TableIs(host, tss, nums, priv, last_update_of_a_state, k + 1)
      invariant forall M: Model :: AllHold(constr, M) <==> LinkedUpTo(M, host, tss, nums, priv, k)
    {
      var cs := LinkReads(host, tss, nums, priv, last_update_of_a_state, k);
      last_update_of_a_state := RecordWrites(host, tss, nums, priv, last_update_of_a_state, k);
      AllHoldConcat(constr, cs);
      constr := constr + cs;
      if k > 0 {
        AllHoldAppend(constr, HbF(Now(nums[k - 1]), Now(nums[k])));
        constr := constr + [HbF(Now(nums[k - 1]), Now(nums[k]))];
      }
      k := k + 1;
    }
    var fs := LinkFinals(host, tss, nums, priv, last_update_of_a_state);
    AllHoldConcat(constr, fs);
    constr := constr + fs;
    OrderedMeaning(host, tss, nums, priv);
  }

  lemma InitialUpdate(host: string, tss: seq<TraceStep>, nums: seq<nat>, s: string)
    requires |nums| == |tss|
    ensures LastUpdateIs(host, tss, nums, s, Definition(Var(s), 0), 1)
  {
    forall M: Model ensures IsLastUpdate(M, host, tss, nums, s, Definition(Var(s), 0), 1) {
      assert LinesOf(M, host, tss, nums, s)[0] == InitialLine(M, host, s);
    }
  }

  /** The private states of an ordered ILA are linked and its steps follow one another. */
  ghost predicate OrderedLocalState(M: Model, host: string, tss: seq<TraceStep>, nums: seq<nat>, priv: set<string>)
    requires |nums| == |tss|
  {
    && (forall s :: s in priv ==> OrderedLinks(LinesOf(M, host, tss, nums, s), FinalValue(M, host, s)))
    && (forall k :: 0 <= k < |tss| ==> Chained(M, nums, k))
  }

  ghost predicate StateReadsLinked(M: Model, host: string, tss: seq<TraceStep>, nums: seq<nat>, s: string)
    requires |nums| == |tss|
  {
    forall k :: 0 <= k < |tss| ==> ReadLinked(M, host, tss, nums, s, k)
  }

  lemma StateLinked(M: Model, host: string, tss: seq<TraceStep>, nums: seq<nat>, s: string)
    requires |nums| == |tss|
    ensures OrderedLinks(LinesOf(M, host, tss, nums, s), FinalValue(M, host, s)) <==>
            StateReadsLinked(M, host, tss, nums, s) && FinalLinked(M, host, tss, nums, s)
  {
    var ls := LinesOf(M, host, tss, nums, s);
    forall k | 0 <= k < |tss| ensures ls[k + 1].isRead == (s in ReadSet(tss[k])) {
      assert ls[k + 1] == LineOf(M, tss[k], nums[k], s);
    }
    if StateReadsLinked(M, host, tss, nums, s) {
      forall r | 1 <= r < |ls| && ls[r].isRead ensures ls[r].cur == Carry(ls, r) {
        assert ReadLinked(M, host, tss, nums, s, r - 1);
      }
    }
  }

  lemma SwapQuantifiers(M: Model, host: string, tss: seq<TraceStep>, nums: seq<nat>, priv: set<string>)
    requires |nums| == |tss|
    ensures (forall k :: 0 <= k < |tss| ==> ReadsLinked(M, host, tss, nums, priv, k)) <==>
            (forall s :: s in priv ==> StateReadsLinked(M, host, tss, nums, s))
  {
    if forall k :: 0 <= k < |tss| ==> ReadsLinked(M, host, tss, nums, priv, k) {
      forall k, s | 0 <= k < |tss| && s in priv ensures ReadLinked(M, host, tss, nums, s, k) {
        assert ReadsLinked(M, host, tss, nums, priv, k);
      }
    }
  }

  lemma OrderedMeaning(host: string, tss: seq<TraceStep>, nums: seq<nat>, priv: set<string>)
    requires |nums| == |tss|
    ensures forall M: Model ::
              LinkedUpTo(M, host, tss, nums, priv, |tss|) && FinalsLinked(M, host, tss, nums, priv) <==>
              OrderedLocalState(M, host, tss, nums, priv)
  {
    forall M: Model
      ensures LinkedUpTo(M, host, tss, nums, priv, |tss|) && FinalsLinked(M, host, tss, nums, priv) <==>
              OrderedLocalState(M, host, tss, nums, priv) {
      OrderedMeaningFor(M, host, tss, nums, priv);
    }
  }

  lemma OrderedMeaningFor(M: Model, host: string, tss: seq<TraceStep>, nums: seq<nat>, priv: set<string>)
    requires |nums| == |tss|
    ensures LinkedUpTo(M, host, tss, nums, priv, |tss|) && FinalsLinked(M, host, tss, nums, priv) <==>
            OrderedLocalState(M, host, tss, nums, priv)
  {
    SwapQuantifiers(M, host, tss, nums, priv);
    forall s | s in priv
      ensures OrderedLinks(LinesOf(M, host, tss, nums, s), FinalValue(M, host, s)) <==>
              StateReadsLinked(M, host, tss, nums, s) && FinalLinked(M, host, tss, nums, s) {
      StateLinked(M, host, tss, nums, s);
    }
  }

  // ---------- unordered ----------

  /** update, decode, timestamp, position */
  datatype Writer = Writer(expr: Expr, decode: Expr, time: Stamp, pos: int)

  /** The define list of a state: the initial value and the steps that write it. */
  ghost predicate DefinesAre(host: string, tss: seq<TraceStep>, nums: seq<nat>, s: string, ds: seq<Writer>, n: nat)
    requires |nums| == |tss| && n <= |tss|
  {
    && (forall i :: 0 <= i < |ds| ==> IsDefine(host, tss, nums, s, ds[i], n))
    && (forall i, j :: 0 <= i < j < |ds| ==> ds[i].pos != ds[j].pos)
    && (forall k :: 0 <= k <= n && Defines(tss, s, k) ==> exists i :: 0 <= i < |ds| && ds[i].pos == k)
  }

  ghost predicate Defines(tss: seq<TraceStep>, s: string, k: int) {
    k == 0 || (1 <= k <= |tss| && UpdateOf(tss[k - 1].inst, s).Some?)
  }

  ghost predicate IsDefine(host: string, tss: seq<TraceStep>, nums: seq<nat>, s: string, d: Writer, n: nat)
    requires |nums| == |tss| && n <= |tss|
  {
    && 0 <= d.pos <= n
    && if d.pos == 0 then d == Writer(Var(s), BoolConst(true), Now(0), 0)
       else UpdateOf(tss[d.pos - 1].inst, s).Some? &&
            d == Writer(UpdateOf(tss[d.pos - 1].inst, s).value, tss[d.pos - 1].inst.decode,
                        Now(nums[d.pos - 1]), d.pos)
  }

  /** One pass to collect the defines of every private state. */
  method CollectDefines(host: string, tss: seq<TraceStep>, nums: seq<nat>, priv: set<string>)
    returns (all_update_of_a_state: map<string, seq<Writer>>)
    requires StepsOf(host, tss, nums)
    ensures AllDefines(host, tss, nums, priv, all_update_of_a_state)
  {
    all_update_of_a_state := map s | s in priv :: [Writer(Var(s), BoolConst(true), Now(0), 0)];
    forall s | s in priv ensures DefinesAre(host, tss, nums, s, all_update_of_a_state[s], 0) {
      assert all_update_of_a_state[s][0].pos == 0;
    }
    var k := 0;
    while k < |tss|
      invariant 0 <= k <= |tss|
      invariant all_update_of_a_state.Keys == priv
      invariant forall s :: s in priv ==> DefinesAre(host, tss, nums, s, all_update_of_a_state[s], k)
    {
      all_update_of_a_state := AddDefines(host, tss, nums, priv, all_update_of_a_state, k);
      k := k + 1;
    }
  }

  method AddDefines(host: string, tss: seq<TraceStep>, nums: seq<nat>, priv: set<string>,
                    all: map<string, seq<Writer>>, k: nat) returns (r: map<string, seq<Writer>>)
    requires StepsOf(host, tss, nums) && k < |tss| && all.Keys == priv
    requires forall s :: s in priv ==> DefinesAre(host, tss, nums, s, all[s], k)
    ensures r.Keys == priv && forall s :: s in priv ==> DefinesAre(host, tss, nums, s, r[s], k + 1)
  {
    r := all;
    var ts := tss[k];
    var writes := set u | u in ts.inst.updates && u.state in priv :: u.state;
    var todo := writes;
    while todo != {}
      invariant todo <= writes && r.Keys == priv
      invariant forall s :: s in priv && s !in writes - todo ==> r[s] == all[s]
      invariant forall s :: s in writes - todo ==> UpdateOf(ts.inst, s).Some?
      invariant forall s :: s in writes - todo ==>
                  r[s] == all[s] + [Writer(UpdateOf(ts.inst, s).value, ts.inst.decode, Now(nums[k]), ts.pos)]
    {
      var s :| s in todo;
      todo := todo - {s};
      FindIsWritten(ts, s);
      r := r[s := r[s] + [Writer(UpdateOf(ts.inst, s).value, ts.inst.decode, Now(nums[k]), ts.pos)]];
    }
    forall s | s in priv ensures DefinesAre(host, tss, nums, s, r[s], k + 1) {
      FindIsWritten(ts, s);
      if s in writes {
        DefinesGrow(host, tss, nums, s, all[s], k);
      } else {
        DefinesStay(host, tss, nums, s, all[s], k);
      }
    }
  }

  lemma DefinesGrow(host: string, tss: seq<TraceStep>, nums: seq<nat>, s: string, ds: seq<Writer>, k: nat)
    requires StepsOf(host, tss, nums) && k < |tss| && UpdateOf(tss[k].inst, s).Some?
    requires DefinesAre(host, tss, nums, s, ds, k)
    ensures DefinesAre(host, tss, nums, s,
                       ds + [Writer(UpdateOf(tss[k].inst, s).value, tss[k].inst.decode, Now(nums[k]), tss[k].pos)], k + 1)
  {
    var r := ds + [Writer(UpdateOf(tss[k].inst, s).value, tss[k].inst.decode, Now(nums[k]), tss[k].pos)];
    forall i | 0 <= i < |r| ensures IsDefine(host, tss, nums, s, r[i], k + 1) {
      assert i < |ds| ==> IsDefine(host, tss, nums, s, ds[i], k);
    }
    forall j | 0 <= j <= k + 1 && Defines(tss, s, j) ensures exists i :: 0 <= i < |r| && r[i].pos == j {
      if j == k + 1 {
        assert r[|ds|].pos == j;
      } else {
        var i :| 0 <= i < |ds| && ds[i].pos == j;
        assert r[i].pos == j;
      }
    }
  }

  lemma DefinesStay(host: string, tss: seq<TraceStep>, nums: seq<nat>, s: string, ds: seq<Writer>, k: nat)
    requires StepsOf(host, tss, nums) && k < |tss| && UpdateOf(tss[k].inst, s).None?
    requires DefinesAre(host, tss, nums, s, ds, k)
    ensures DefinesAre(host, tss, nums, s, ds, k + 1)
  {
    forall i | 0 <= i < |ds| ensures IsDefine(host, tss, nums, s, ds[i], k + 1) {
      assert IsDefine(host, tss, nums, s, ds[i], k);
    }
  }

  // ---------- the unordered constraints ----------

  /** The define with position w is line w. */
  lemma DefineIsLine(M: Model, host: string, tss: seq<TraceStep>, nums: seq<nat>, s: string, d: Writer)
    requires StepsOf(host, tss, nums) && IsDefine(host, tss, nums, s, d, |tss|)
    ensures var l := LinesOf(M, host, tss, nums, s)[d.pos];
            && l.isWrite && l.ts == Time(M, d.time)
            && l.decoded == Truth(ValueAt(M, Frame(host, d.pos), d.decode))
            && l.update == ValueAt(M, Frame(host, d.pos), d.expr)
  {
    if d.pos > 0 { LineIs(M, host, tss, nums, s, d.pos); }
  }

  /** A decoded define i does not come between the writer and the read (`last`: ever after). */
  ghost predicate Clear(M: Model, host: string, w: Writer, i: Writer, last: bool, r: Stamp) {
    Truth(ValueAt(M, Frame(host, i.pos), i.decode)) ==>
      Time(M, i.time) < Time(M, w.time) || (!last && Time(M, i.time) > Time(M, r))
  }

  ghost predicate ClearOf(M: Model, host: string, ds: seq<Writer>, w: nat, skip: int, last: bool, r: Stamp, n: nat)
    requires w < |ds| && n <= |ds|
  {
    forall i :: 0 <= i < n && i != w && ds[i].pos != skip ==> Clear(M, host, ds[w], ds[i], last, r)
  }

  /** The interference loop; the final state has no timestamp and skips no position. */
  method NoInterferenceF(host: string, ds: seq<Writer>, w: nat, skip: int, last: bool, r: Stamp, base: Formula)
    returns (z3constr: Formula)
    requires w < |ds|
    ensures forall M: Model :: Holds(z3constr, M) <==> Holds(base, M) && ClearOf(M, host, ds, w, skip, last, r, |ds|)
  {
    z3constr := base;
    for i := 0 to |ds|
      invariant forall M: Model :: Holds(z3constr, M) <==> Holds(base, M) && ClearOf(M, host, ds, w, skip, last, r, i)
    {
      if i == w || ds[i].pos == skip {
        continue;
      }
      var one := ClearF(host, ds[w], ds[i], last, r);
      ClearOneMore(host, ds, w, skip, last, r, i);
      z3constr := AndF(z3constr, one);
    }
  }

  lemma ClearOneMore(host: string, ds: seq<Writer>, w: nat, skip: int, last: bool, r: Stamp, i: nat)
    requires w < |ds| && i < |ds| && i != w && ds[i].pos != skip
    ensures forall M: Model :: ClearOf(M, host, ds, w, skip, last, r, i + 1) <==>
                               ClearOf(M, host, ds, w, skip, last, r, i) && Clear(M, host, ds[w], ds[i], last, r)
  {
  }

  method ClearF(host: string, w: Writer, i: Writer, last: bool, r: Stamp) returns (f: Formula)
    ensures forall M: Model :: Holds(f, M) <==> Clear(M, host, w, i, last, r)
  {
    var before := HbF(i.time, w.time);
    var decode := HoldsF(Frame(host, i.pos), i.decode);
    if last {
      f := ImpliesF(decode, before);
    } else {
      var either := OrF(before, HbF(r, i.time));
      assert forall M: Model :: Holds(either, M) <==>
               Time(M, i.time) < Time(M, w.time) || Time(M, i.time) > Time(M, r);
      f := ImpliesF(decode, either);
    }
    assert forall M: Model :: Holds(decode, M) <==> Truth(ValueAt(M, Frame(host, i.pos), i.decode));
    assert forall M: Model :: Holds(before, M) <==> Time(M, i.time) < Time(M, w.time);
  }

  /** The read on line r takes the value of define w, and nothing interferes. */
  ghost predicate TakesFrom(M: Model, host: string, ds: seq<Writer>, ts: TraceStep, num: nat, s: string, w: nat)
    requires w < |ds|
  {
    && ValueAt(M, FrameOf(ts), Var(s)) == ValueAt(M, Frame(host, ds[w].pos), ds[w].expr)
    && Time(M, ds[w].time) < Time(M, Now(num))
    && Truth(ValueAt(M, Frame(host, ds[w].pos), ds[w].decode))
    && ClearOf(M, host, ds, w, ts.pos, false, Now(num), |ds|)
  }

  method TakesFromF(host: string, ds: seq<Writer>, ts: TraceStep, num: nat, s: string, w: nat) returns (f: Formula)
    requires w < |ds|
    ensures forall M: Model :: Holds(f, M) <==> TakesFrom(M, host, ds, ts, num, s, w)
  {
    var eq := EqualF(FrameOf(ts), Var(s), Frame(host, ds[w].pos), ds[w].expr);
    var hb := HbF(ds[w].time, Now(num));
    var decode := HoldsF(Frame(host, ds[w].pos), ds[w].decode);
    var base := AndF(AndF(eq, hb), decode);
    assert forall M: Model :: Holds(AndF(eq, hb), M) <==> Holds(eq, M) && Holds(hb, M);
    assert forall M: Model :: Holds(base, M) <==> Holds(AndF(eq, hb), M) && Holds(decode, M);
    assert forall M: Model :: Holds(eq, M) <==>
        ValueAt(M, FrameOf(ts), Var(s)) == ValueAt(M, Frame(host, ds[w].pos), ds[w].expr);
    assert forall M: Model :: Holds(base, M) <==>
        ValueAt(M, FrameOf(ts), Var(s)) == ValueAt(M, Frame(host, ds[w].pos), ds[w].expr) &&
        Time(M, ds[w].time) < Time(M, Now(num)) && Truth(ValueAt(M, Frame(host, ds[w].pos), ds[w].decode));
    f := NoInterferenceF(host, ds, w, ts.pos, false, Now(num), base);
  }

  ghost predicate SomeTake(M: Model, host: string, ds: seq<Writer>, ts: TraceStep, num: nat, s: string, n: nat)
    requires n <= |ds|
  {
    exists w :: 0 <= w < n && ds[w].pos != ts.pos && TakesFrom(M, host, ds, ts, num, s, w)
  }

  /** A read has some undisturbed writer among the defines. */
  method UnorderedReadF(host: string, ds: seq<Writer>, ts: TraceStep, num: nat, s: string) returns (f: Formula)
    ensures forall M: Model :: Holds(f, M) <==> SomeTake(M, host, ds, ts, num, s, |ds|)
  {
    f := BoolF(false);
    for w := 0 to |ds|
      invariant forall M: Model :: Holds(f, M) <==> SomeTake(M, host, ds, ts, num, s, w)
    {
      if ds[w].pos == ts.pos {
        continue;
      }
      var one := TakesFromF(host, ds, ts, num, s, w);
      f := OrF(f, one);
    }
  }

  ghost predicate Ends(M: Model, host: string, ds: seq<Writer>, s: string, w: nat)
    requires w < |ds|
  {
    && FinalValue(M, host, s) == ValueAt(M, Frame(host, ds[w].pos), ds[w].expr)
    && Truth(ValueAt(M, Frame(host, ds[w].pos), ds[w].decode))
    && ClearOf(M, host, ds, w, FINAL_SUFFIX, true, Now(0), |ds|)
  }

  ghost predicate SomeEnds(M: Model, host: string, ds: seq<Writer>, s: string, n: nat)
    requires n <= |ds|
  {
    exists w :: 0 <= w < n && Ends(M, host, ds, s, w)
  }

  /** The final value is that of the last decoded define. */
  method UnorderedFinalF(host: string, ds: seq<Writer>, s: string) returns (f: Formula)
    ensures forall M: Model :: Holds(f, M) <==> SomeEnds(M, host, ds, s, |ds|)
  {
    f := BoolF(false);
    for w := 0 to |ds|
      invariant forall M: Model :: Holds(f, M) <==> SomeEnds(M, host, ds, s, w)
    {
      var eq := EqualF(Frame(host, FINAL_SUFFIX), Var(s), Frame(host, ds[w].pos), ds[w].expr);
      var decode := HoldsF(Frame(host, ds[w].pos), ds[w].decode);
      assert forall M: Model :: Holds(AndF(eq, decode), M) <==>
               FinalValue(M, host, s) == ValueAt(M, Frame(host, ds[w].pos), ds[w].expr) &&
               Truth(ValueAt(M, Frame(host, ds[w].pos), ds[w].decode));
      var one := NoInterferenceF(host, ds, w, FINAL_SUFFIX, true, Now(0), AndF(eq, decode));
      assert forall M: Model :: Holds(one, M) <==> Ends(M, host, ds, s, w);
      f := OrF(f, one);
    }
  }

  // ---------- what they mean ----------

  lemma DefinesAreLines(M: Model, host: string, tss: seq<TraceStep>, nums: seq<nat>, s: string, ds: seq<Writer>)
    requires StepsOf(host, tss, nums) && DefinesAre(host, tss, nums, s, ds, |tss|)
    ensures
      var ls := LinesOf(M, host, tss, nums, s);
      forall i {:trigger ds[i]} :: 0 <= i < |ds| ==>
        && 0 <= ds[i].pos < |ls| && ls[ds[i].pos].isWrite && ls[ds[i].pos].ts == Time(M, ds[i].time)
        && ls[ds[i].pos].decoded == Truth(ValueAt(M, Frame(host, ds[i].pos), ds[i].decode))
  {
    var ls := LinesOf(M, host, tss, nums, s);
    forall i {:trigger ds[i]} | 0 <= i < |ds|
      ensures 0 <= ds[i].pos < |ls| && ls[ds[i].pos].isWrite && ls[ds[i].pos].ts == Time(M, ds[i].time)
      ensures ls[ds[i].pos].decoded == Truth(ValueAt(M, Frame(host, ds[i].pos), ds[i].decode))
    {
      assert IsDefine(host, tss, nums, s, ds[i], |tss|);
      DefineIsLine(M, host, tss, nums, s, ds[i]);
    }
  }

  /** A decoded write on line i does not come between line w and the read. */
  ghost predicate ClearLine(ls: seq<Line>, w: nat, i: nat, last: bool, t: int)
    requires w < |ls| && i < |ls|
  {
    ls[i].isWrite && ls[i].decoded ==> ls[i].ts < ls[w].ts || (!last && ls[i].ts > t)
  }

  ghost predicate AllClear(ls: seq<Line>, w: nat, skip: int, last: bool, t: int)
    requires w < |ls|
  {
    forall i: nat :: i < |ls| && i != w && i != skip ==> ClearLine(ls, w, i, last, t)
  }

  lemma ClearIsOrder(M: Model, host: string, tss: seq<TraceStep>, nums: seq<nat>, s: string, ds: seq<Writer>, w: nat,
                     skip: int, last: bool, r: Stamp)
    requires StepsOf(host, tss, nums) && DefinesAre(host, tss, nums, s, ds, |tss|) && w < |ds|
    ensures var ls := LinesOf(M, host, tss, nums, s);
            0 <= ds[w].pos < |ls| &&
            (ClearOf(M, host, ds, w, skip, last, r, |ds|) <==> AllClear(ls, ds[w].pos, skip, last, Time(M, r)))
  {
    var ls := LinesOf(M, host, tss, nums, s);
    DefinesAreLines(M, host, tss, nums, s, ds);
    if ClearOf(M, host, ds, w, skip, last, r, |ds|) {
      forall i: nat | i < |ls| && i != ds[w].pos && i != skip ensures ClearLine(ls, ds[w].pos, i, last, Time(M, r)) {
        if ls[i].isWrite {
          LineIsDefine(M, host, tss, nums, s, ds, i);
          var j :| 0 <= j < |ds| && ds[j].pos == i;
          assert Clear(M, host, ds[w], ds[j], last, r);
        }
      }
    }
    if AllClear(ls, ds[w].pos, skip, last, Time(M, r)) {
      forall j | 0 <= j < |ds| && j != w && ds[j].pos != skip ensures Clear(M, host, ds[w], ds[j], last, r) {
        assert ds[j].pos != ds[w].pos ==> ClearLine(ls, ds[w].pos, ds[j].pos, last, Time(M, r));
      }
    }
  }

  lemma LineIs(M: Model, host: string, tss: seq<TraceStep>, nums: seq<nat>, s: string, k: nat)
    requires |nums| == |tss| && 1 <= k <= |tss|
    ensures LinesOf(M, host, tss, nums, s)[k] == LineOf(M, tss[k - 1], nums[k - 1], s)
  {
  }

  lemma LineIsDefine(M: Model, host: string, tss: seq<TraceStep>, nums: seq<nat>, s: string, ds: seq<Writer>, i: nat)
    requires StepsOf(host, tss, nums) && DefinesAre(host, tss, nums, s, ds, |tss|) && i <= |tss|
    requires LinesOf(M, host, tss, nums, s)[i].isWrite
    ensures exists j :: 0 <= j < |ds| && ds[j].pos == i
  {
    if i > 0 { LineIs(M, host, tss, nums, s, i); }
    assert Defines(tss, s, i);
  }

  lemma UndisturbedIsClear(ls: seq<Line>, r: nat, w: nat)
    requires r < |ls| && w < |ls|
    ensures Undisturbed(ls, r, w) <==>
            && w != r && ls[w].isWrite && ls[w].decoded && ls[w].ts < ls[r].ts
            && AllClear(ls, w, r, false, ls[r].ts)
  {
    if Undisturbed(ls, r, w) {
      forall i: nat | i < |ls| && i != w && i != r ensures ClearLine(ls, w, i, false, ls[r].ts) {
        assert ls[i].isWrite && ls[i].decoded ==> ls[i].ts < ls[w].ts || ls[i].ts > ls[r].ts;
      }
    }
    if AllClear(ls, w, r, false, ls[r].ts) {
      forall i | 0 <= i < |ls| && i != w && i != r && ls[i].isWrite && ls[i].decoded
        ensures ls[i].ts < ls[w].ts || ls[i].ts > ls[r].ts
      {
        assert ClearLine(ls, w, i, false, ls[r].ts);
      }
    }
  }

  lemma LastIsClear(ls: seq<Line>, w: nat, t: int)
    requires w < |ls|
    ensures LastWriter(ls, w) <==> ls[w].isWrite && ls[w].decoded && AllClear(ls, w, FINAL_SUFFIX, true, t)
  {
    if LastWriter(ls, w) {
      forall i: nat | i < |ls| && i != w ensures ClearLine(ls, w, i, true, t) {
        assert ls[i].isWrite && ls[i].decoded ==> ls[i].ts < ls[w].ts;
      }
    }
    if AllClear(ls, w, FINAL_SUFFIX, true, t) {
      forall i | 0 <= i < |ls| && i != w && ls[i].isWrite && ls[i].decoded ensures ls[i].ts < ls[w].ts {
        assert ClearLine(ls, w, i, true, t);
      }
    }
  }

  /** The formula of a define speaks of the line it is and of the line of the read. */
  lemma TakesSpeaksOfLines(M: Model, host: string, tss: seq<TraceStep>, nums: seq<nat>, s: string, ds: seq<Writer>,
                           r: nat, w: nat)
    requires StepsOf(host, tss, nums) && DefinesAre(host, tss, nums, s, ds, |tss|) && r < |tss| && w < |ds|
    ensures var ls, now := LinesOf(M, host, tss, nums, s), Now(nums[r]);
            && 0 <= ds[w].pos < |ls| && ls[ds[w].pos].isWrite && tss[r].pos == r + 1 && ls[r + 1].ts == Time(M, now)
            && (TakesFrom(M, host, ds, tss[r], nums[r], s, w) <==>
                && ls[r + 1].cur == ls[ds[w].pos].update && ls[ds[w].pos].decoded && ls[ds[w].pos].ts < Time(M, now)
                && AllClear(ls, ds[w].pos, r + 1, false, Time(M, now)))
  {
    ClearIsOrder(M, host, tss, nums, s, ds, w, r + 1, false, Now(nums[r]));
    LineIs(M, host, tss, nums, s, r + 1);
    assert IsDefine(host, tss, nums, s, ds[w], |tss|);
    DefineIsLine(M, host, tss, nums, s, ds[w]);
  }

  /** One define as the source of a read. */
  lemma TakesIsUndisturbed(M: Model, host: string, tss: seq<TraceStep>, nums: seq<nat>, s: string, ds: seq<Writer>,
                           r: nat, w: nat)
    requires StepsOf(host, tss, nums) && DefinesAre(host, tss, nums, s, ds, |tss|) && r < |tss| && w < |ds|
    ensures var ls := LinesOf(M, host, tss, nums, s);
            && 0 <= ds[w].pos < |ls|
            && (ds[w].pos != tss[r].pos && TakesFrom(M, host, ds, tss[r], nums[r], s, w) <==>
                Undisturbed(ls, r + 1, ds[w].pos) && ls[r + 1].cur == ls[ds[w].pos].update)
  {
    TakesSpeaksOfLines(M, host, tss, nums, s, ds, r, w);
    UndisturbedIsClear(LinesOf(M, host, tss, nums, s), r + 1, ds[w].pos);
  }

  lemma TakesMeaning(M: Model, host: string, tss: seq<TraceStep>, nums: seq<nat>, s: string, ds: seq<Writer>, r: nat)
    requires StepsOf(host, tss, nums) && DefinesAre(host, tss, nums, s, ds, |tss|) && r < |tss|
    ensures SomeTake(M, host, ds, tss[r], nums[r], s, |ds|) <==> UnorderedRead(LinesOf(M, host, tss, nums, s), r + 1)
  {
    var ls := LinesOf(M, host, tss, nums, s);
    if SomeTake(M, host, ds, tss[r], nums[r], s, |ds|) {
      var w :| 0 <= w < |ds| && ds[w].pos != tss[r].pos && TakesFrom(M, host, ds, tss[r], nums[r], s, w);
      TakesIsUndisturbed(M, host, tss, nums, s, ds, r, w);
    }
    if UnorderedRead(ls, r + 1) {
      var w :| 0 <= w < |ls| && Undisturbed(ls, r + 1, w) && ls[r + 1].cur == ls[w].update;
      LineIsDefine(M, host, tss, nums, s, ds, w);
      var j :| 0 <= j < |ds| && ds[j].pos == w;
      TakesIsUndisturbed(M, host, tss, nums, s, ds, r, j);
    }
  }

  /** One define as the source of the final value. */
  lemma EndsIsLast(M: Model, host: string, tss: seq<TraceStep>, nums: seq<nat>, s: string, ds: seq<Writer>, w: nat)
    requires StepsOf(host, tss, nums) && DefinesAre(host, tss, nums, s, ds, |tss|) && w < |ds|
    ensures var ls := LinesOf(M, host, tss, nums, s);
            && 0 <= ds[w].pos < |ls|
            && (Ends(M, host, ds, s, w) <==> LastWriter(ls, ds[w].pos) && FinalValue(M, host, s) == ls[ds[w].pos].update)
  {
    assert IsDefine(host, tss, nums, s, ds[w], |tss|);
    DefineIsLine(M, host, tss, nums, s, ds[w]);
    ClearIsOrder(M, host, tss, nums, s, ds, w, FINAL_SUFFIX, true, Now(0));
    LastIsClear(LinesOf(M, host, tss, nums, s), ds[w].pos, Time(M, Now(0)));
  }

  lemma EndsMeaning(M: Model, host: string, tss: seq<TraceStep>, nums: seq<nat>, s: string, ds: seq<Writer>)
    requires StepsOf(host, tss, nums) && DefinesAre(host, tss, nums, s, ds, |tss|)
    ensures var ls := LinesOf(M, host, tss, nums, s);
            SomeEnds(M, host, ds, s, |ds|) <==>
            exists w :: 0 <= w < |ls| && LastWriter(ls, w) && FinalValue(M, host, s) == ls[w].update
  {
    var ls := LinesOf(M, host, tss, nums, s);
    if SomeEnds(M, host, ds, s, |ds|) {
      var w :| 0 <= w < |ds| && Ends(M, host, ds, s, w);
      EndsIsLast(M, host, tss, nums, s, ds, w);
    }
    if w :| 0 <= w < |ls| && LastWriter(ls, w) && FinalValue(M, host, s) == ls[w].update {
      LineIsDefine(M, host, tss, nums, s, ds, w);
      var j :| 0 <= j < |ds| && ds[j].pos == w;
      EndsIsLast(M, host, tss, nums, s, ds, j);
    }
  }

  ghost predicate ReadSearched(M: Model, host: string, tss: seq<TraceStep>, nums: seq<nat>, s: string, k: nat)
    requires |nums| == |tss| && k < |tss|
  {
    s in ReadSet(tss[k]) ==> UnorderedRead(LinesOf(M, host, tss, nums, s), k + 1)
  }

  ghost predicate ReadsSearched(M: Model, host: string, tss: seq<TraceStep>, nums: seq<nat>, ss: set<string>, k: nat)
    requires |nums| == |tss| && k < |tss|
  {
    forall s :: s in ss ==> ReadSearched(M, host, tss, nums, s, k)
  }

  lemma ReadsSearchedStep(host: string, tss: seq<TraceStep>, nums: seq<nat>, ss: set<string>, s: string, k: nat)
    requires |nums| == |tss| && k < |tss|
    ensures forall M: Model :: ReadsSearched(M, host, tss, nums, ss + {s}, k) <==>
              ReadsSearched(M, host, tss, nums, ss, k) && ReadSearched(M, host, tss, nums, s, k)
  {
  }

  ghost predicate AllDefines(host: string, tss: seq<TraceStep>, nums: seq<nat>, priv: set<string>,
                             all: map<string, seq<Writer>>)
    requires |nums| == |tss|
  {
    all.Keys == priv && forall s :: s in priv ==> DefinesAre(host, tss, nums, s, all[s], |tss|)
  }

  method SearchReads(host: string, tss: seq<TraceStep>, nums: seq<nat>, priv: set<string>,
                     all: map<string, seq<Writer>>, k: nat) returns (cs: seq<Formula>)
    requires StepsOf(host, tss, nums) && k < |tss| && AllDefines(host, tss, nums, priv, all)
    ensures forall M: Model :: AllHold(cs, M) <==> ReadsSearched(M, host, tss, nums, priv, k)
  {
    cs := [];
    var todo := ReadSet(tss[k]) * priv;
    while todo != {}
      invariant todo <= ReadSet(tss[k]) * priv
      invariant forall M: Model :: AllHold(cs, M) <==>
                  ReadsSearched(M, host, tss, nums, ReadSet(tss[k]) * priv - todo, k)
    {
      var s :| s in todo;
      todo := todo - {s};
      var c := UnorderedReadF(host, all[s], tss[k], nums[k], s);
      forall M: Model ensures Holds(c, M) <==> ReadSearched(M, host, tss, nums, s, k) {
        TakesMeaning(M, host, tss, nums, s, all[s], k);
      }
      AllHoldAppend(cs, c);
      ReadsSearchedStep(host, tss, nums, ReadSet(tss[k]) * priv - (todo + {s}), s, k);
      cs := cs + [c];
      assert ReadSet(tss[k]) * priv - todo == (ReadSet(tss[k]) * priv - (todo + {s})) + {s};
    }
    assert ReadSet(tss[k]) * priv - todo == ReadSet(tss[k]) * priv;
  }

  ghost predicate FinalSearched(M: Model, host: string, tss: seq<TraceStep>, nums: seq<nat>, s: string)
    requires |nums| == |tss|
  {
    var ls := LinesOf(M, host, tss, nums, s);
    exists w :: 0 <= w < |ls| && LastWriter(ls, w) && FinalValue(M, host, s) == ls[w].update
  }

  ghost predicate FinalsSearched(M: Model, host: string, tss: seq<TraceStep>, nums: seq<nat>, ss: set<string>)
    requires |nums| == |tss|
  {
    forall s :: s in ss ==> FinalSearched(M, host, tss, nums, s)
  }

  lemma FinalsSearchedStep(host: string, tss: seq<TraceStep>, nums: seq<nat>, ss: set<string>, s: string)
    requires |nums| == |tss|
    ensures forall M: Model :: FinalsSearched(M, host, tss, nums, ss + {s}) <==>
              FinalsSearched(M, host, tss, nums, ss) && FinalSearched(M, host, tss, nums, s)
  {
  }

  method SearchFinals(host: string, tss: seq<TraceStep>, nums: seq<nat>, priv: set<string>,
                      all: map<string, seq<Writer>>) returns (cs: seq<Formula>)
    requires StepsOf(host, tss, nums) && AllDefines(host, tss, nums, priv, all)
    ensures forall M: Model :: AllHold(cs, M) <==> FinalsSearched(M, host, tss, nums, priv)
  {
    cs := [];
    var todo := priv;
    while todo != {}
      invariant todo <= priv
      invariant forall M: Model :: AllHold(cs, M) <==> FinalsSearched(M, host, tss, nums, priv - todo)
    {
      var s :| s in todo;
      todo := todo - {s};
      var c := UnorderedFinalF(host, all[s], s);
      forall M: Model ensures Holds(c, M) <==> FinalSearched(M, host, tss, nums, s) {
        EndsMeaning(M, host, tss, nums, s, all[s]);
      }
      AllHoldAppend(cs, c);
      FinalsSearchedStep(host, tss, nums, priv - (todo + {s}), s);
      cs := cs + [c];
      assert priv - todo == (priv - (todo + {s})) + {s};
    }
    assert priv - todo == priv;
  }

  ghost predicate SearchedUpTo(M: Model, host: string, tss: seq<TraceStep>, nums: seq<nat>, priv: set<string>, n: nat)
    requires |nums| == |tss| && n <= |tss|
  {
    forall k :: 0 <= k < n ==> ReadsSearched(M, host, tss, nums, priv, k)
  }

  lemma SearchedUpToStep(host: string, tss: seq<TraceStep>, nums: seq<nat>, priv: set<string>, k: nat)
    requires |nums| == |tss| && k < |tss|
    ensures forall M: Model :: SearchedUpTo(M, host, tss, nums, priv, k + 1) <==>
              SearchedUpTo(M, host, tss, nums, priv, k) && ReadsSearched(M, host, tss, nums, priv, k)
  {
  }

  method SearchAllReads(host: string, tss: seq<TraceStep>, nums: seq<nat>, priv: set<string>,
                        all: map<string, seq<Writer>>) returns (constr: seq<Formula>)
    requires StepsOf(host, tss, nums) && AllDefines(host, tss, nums, priv, all)
    ensures forall M: Model :: AllHold(constr, M) <==> SearchedUpTo(M, host, tss, nums, priv, |tss|)
  {
    constr := [];
    var k := 0;
    while k < |tss|
      invariant 0 <= k <= |tss|
      invariant forall M: Model :: AllHold(constr, M) <==> SearchedUpTo(M, host, tss, nums, priv, k)
    {
      var cs := SearchReads(host, tss, nums, priv, all, k);
      AllHoldConcat(constr, cs);
      SearchedUpToStep(host, tss, nums, priv, k);
      constr := constr + cs;
      k := k + 1;
    }
  }

  /** The private states of an unordered ILA are linked. */
  ghost predicate UnorderedLocalState(M: Model, host: string, tss: seq<TraceStep>, nums: seq<nat>, priv: set<string>)
    requires |nums| == |tss|
  {
    forall s :: s in priv ==> UnorderedLinks(LinesOf(M, host, tss, nums, s), FinalValue(M, host, s))
  }

  /** SetLocalState for an unordered ILA: collect all defines, then search them for every read
      and for the final values. */
  method SetUnordered(host: string, tss: seq<TraceStep>, nums: seq<nat>, priv: set<string>)
    returns (constr: seq<Formula>)
    requires StepsOf(host, tss, nums)
    ensures forall M: Model :: AllHold(constr, M) <==> UnorderedLocalState(M, host, tss, nums, priv)
  {
    var all_update_of_a_state := CollectDefines(host, tss, nums, priv);
    constr := SearchAllReads(host, tss, nums, priv, all_update_of_a_state);
    var fs := SearchFinals(host, tss, nums, priv, all_update_of_a_state);
    AllHoldConcat(constr, fs);
    constr := constr + fs;
    UnorderedMeaning(host, tss, nums, priv);
  }

  ghost predicate StateSearched(M: Model, host: string, tss: seq<TraceStep>, nums: seq<nat>, s: string)
    requires |nums| == |tss|
  {
    forall k :: 0 <= k < |tss| ==> ReadSearched(M, host, tss, nums, s, k)
  }

  lemma StateSearchedIsReads(M: Model, host: string, tss: seq<TraceStep>, nums: seq<nat>, s: string)
    requires |nums| == |tss|
    ensures var ls := LinesOf(M, host, tss, nums, s);
            StateSearched(M, host, tss, nums, s) <==>
            forall r :: 1 <= r < |ls| && ls[r].isRead ==> UnorderedRead(ls, r)
  {
    var ls := LinesOf(M, host, tss, nums, s);
    if StateSearched(M, host, tss, nums, s) {
      forall r | 1 <= r < |ls| && ls[r].isRead ensures UnorderedRead(ls, r) {
        LineIs(M, host, tss, nums, s, r);
        assert ReadSearched(M, host, tss, nums, s, r - 1);
      }
    }
    if forall r :: 1 <= r < |ls| && ls[r].isRead ==> UnorderedRead(ls, r) {
      forall k | 0 <= k < |tss| ensures ReadSearched(M, host, tss, nums, s, k) {
        LineIs(M, host, tss, nums, s, k + 1);
      }
    }
  }

  lemma StateSearchedMeaning(M: Model, host: string, tss: seq<TraceStep>, nums: seq<nat>, s: string)
    requires |nums| == |tss|
    ensures StateSearched(M, host, tss, nums, s) && FinalSearched(M, host, tss, nums, s) <==>
            UnorderedLinks(LinesOf(M, host, tss, nums, s), FinalValue(M, host, s))
  {
    StateSearchedIsReads(M, host, tss, nums, s);
  }

  lemma UnorderedMeaningFor(M: Model, host: string, tss: seq<TraceStep>, nums: seq<nat>, priv: set<string>)
    requires |nums| == |tss|
    ensures SearchedUpTo(M, host, tss, nums, priv, |tss|) && FinalsSearched(M, host, tss, nums, priv) <==>
            UnorderedLocalState(M, host, tss, nums, priv)
  {
    assert SearchedUpTo(M, host, tss, nums, priv, |tss|) <==>
           forall s :: s in priv ==> StateSearched(M, host, tss, nums, s) by {
      if SearchedUpTo(M, host, tss, nums, priv, |tss|) {
        forall k, s | 0 <= k < |tss| && s in priv ensures ReadSearched(M, host, tss, nums, s, k) {
          assert ReadsSearched(M, host, tss, nums, priv, k);
        }
      }
    }
    forall s | s in priv
      ensures StateSearched(M, host, tss, nums, s) && FinalSearched(M, host, tss, nums, s) <==>
              UnorderedLinks(LinesOf(M, host, tss, nums, s), FinalValue(M, host, s)) {
      StateSearchedMeaning(M, host, tss, nums, s);
    }
  }

  lemma UnorderedMeaning(host: string, tss: seq<TraceStep>, nums: seq<nat>, priv: set<string>)
    requires |nums| == |tss|
    ensures forall M: Model ::
              SearchedUpTo(M, host, tss, nums, priv, |tss|) && FinalsSearched(M, host, tss, nums, priv) <==>
              UnorderedLocalState(M, host, tss, nums, priv)
  {
    forall M: Model
      ensures SearchedUpTo(M, host, tss, nums, priv, |tss|) && FinalsSearched(M, host, tss, nums, priv) <==>
              UnorderedLocalState(M, host, tss, nums, priv) {
      UnorderedMeaningFor(M, host, tss, nums, priv);
    }
  }

  // ---------- ordered and unordered linking ----------

  ghost predicate StepDecodes(M: Model, ts: TraceStep) {
    Truth(ValueAt(M, FrameOf(ts), ts.inst.decode))
  }

  /** Step k updates the state in its instruction but does not decode in the model, nor does it read
      the state. */
  ghost predicate LooseStep(M: Model, tss: seq<TraceStep>, s: string, k: int)
    requires 0 <= k < |tss|
  {
    UpdateOf(tss[k].inst, s).Some? && !StepDecodes(M, tss[k]) && s !in ReadSet(tss[k])
  }

  /** Step m, which decodes, overwrites what step k wrote before any step reads it. */
  ghost predicate OverwritingStep(M: Model, tss: seq<TraceStep>, s: string, k: int, m: int)
    requires 0 <= k < |tss|
  {
    && k < m < |tss| && UpdateOf(tss[m].inst, s).Some? && StepDecodes(M, tss[m])
    && forall j {:trigger tss[j]} :: k < j <= m ==> s !in ReadSet(tss[j])
  }

  /** Every loose step is overwritten before the state is read. */
  ghost predicate CoveredSteps(M: Model, tss: seq<TraceStep>, s: string) {
    forall k :: 0 <= k < |tss| && LooseStep(M, tss, s, k) ==> exists m :: OverwritingStep(M, tss, s, k, m)
  }

  /** A model whose timestamps follow program order satisfies the ordered constraints exactly
      when it satisfies the unordered ones. */
  lemma LocalStatesAgree(M: Model, host: string, tss: seq<TraceStep>, nums: seq<nat>, priv: set<string>)
    requires StepsOf(host, tss, nums)
    requires forall s :: s in priv ==> CoveredSteps(M, tss, s)
    requires forall k :: 0 <= k < |tss| ==> Time(M, Now(nums[k])) > 0 && Chained(M, nums, k)
    ensures OrderedLocalState(M, host, tss, nums, priv) <==> UnorderedLocalState(M, host, tss, nums, priv)
  {
    forall s | s in priv
      ensures OrderedLinks(LinesOf(M, host, tss, nums, s), FinalValue(M, host, s)) <==>
              UnorderedLinks(LinesOf(M, host, tss, nums, s), FinalValue(M, host, s)) {
      LinesFollow(M, host, tss, nums, s);
      LinesCovered(M, host, tss, nums, s);
      LinkingsAgree(LinesOf(M, host, tss, nums, s), FinalValue(M, host, s));
    }
  }

  lemma LinesFollow(M: Model, host: string, tss: seq<TraceStep>, nums: seq<nat>, s: string)
    requires |nums| == |tss| && forall k :: 0 <= k < |tss| ==> Time(M, Now(nums[k])) > 0 && Chained(M, nums, k)
    ensures InOrder(LinesOf(M, host, tss, nums, s))
  {
    var ls := LinesOf(M, host, tss, nums, s);
    ChainIsOrder(M, nums, |nums|);
    forall i, j | 0 <= i < j < |ls| ensures ls[i].ts < ls[j].ts {
      LineIs(M, host, tss, nums, s, j);
      if i > 0 { LineIs(M, host, tss, nums, s, i); }
    }
  }

  lemma LooseLine(M: Model, host: string, tss: seq<TraceStep>, nums: seq<nat>, s: string, k: nat)
    requires |nums| == |tss| && k <= |tss|
    ensures Loose(LinesOf(M, host, tss, nums, s), k) <==> k > 0 && LooseStep(M, tss, s, k - 1)
  {
    if k > 0 { LineIs(M, host, tss, nums, s, k); }
  }

  /** Line j is step i. */
  lemma LineOfStep(M: Model, host: string, tss: seq<TraceStep>, nums: seq<nat>, s: string, i: nat, j: nat)
    requires |nums| == |tss| && i < |tss| && j == i + 1
    ensures
      var l := LinesOf(M, host, tss, nums, s)[j];
      && (l.isRead <==> s in ReadSet(tss[i])) && (l.isWrite <==> UpdateOf(tss[i].inst, s).Some?)
      && (l.decoded <==> StepDecodes(M, tss[i]))
  {
    LineIs(M, host, tss, nums, s, j);
  }

  ghost predicate UnreadSteps(tss: seq<TraceStep>, s: string, k: int, m: int)
    requires 0 <= k && m < |tss|
  {
    forall j {:trigger tss[j]} :: k < j <= m ==> s !in ReadSet(tss[j])
  }

  ghost predicate UnreadLines(ls: seq<Line>, k: int, m: int)
    requires 0 <= k && m < |ls|
  {
    forall j {:trigger ls[j].isRead} :: k < j <= m ==> !ls[j].isRead
  }

  lemma UnreadAlike(M: Model, host: string, tss: seq<TraceStep>, nums: seq<nat>, s: string, k: nat, m: nat)
    requires |nums| == |tss| && m < |tss|
    ensures UnreadSteps(tss, s, k, m) <==> UnreadLines(LinesOf(M, host, tss, nums, s), k + 1, m + 1)
  {
    var ls := LinesOf(M, host, tss, nums, s);
    if UnreadSteps(tss, s, k, m) {
      forall j: nat {:trigger ls[j].isRead} | k + 1 < j <= m + 1 ensures !ls[j].isRead {
        LineOfStep(M, host, tss, nums, s, j - 1, j);
      }
    }
    if UnreadLines(ls, k + 1, m + 1) {
      forall j: nat {:trigger tss[j]} | k < j <= m ensures s !in ReadSet(tss[j]) {
        LineOfStep(M, host, tss, nums, s, j, j + 1);
      }
    }
  }

  lemma OverwritingLine(M: Model, host: string, tss: seq<TraceStep>, nums: seq<nat>, s: string, k: nat, m: nat,
                        p: nat, q: nat)
    requires |nums| == |tss| && k < m < |tss| && p == k + 1 && q == m + 1
    ensures Overwrites(LinesOf(M, host, tss, nums, s), p, q) <==> OverwritingStep(M, tss, s, k, m)
  {
    LineOfStep(M, host, tss, nums, s, m, q);
    UnreadAlike(M, host, tss, nums, s, k, m);
    OverwritesUnread(LinesOf(M, host, tss, nums, s), p, q);
  }

  lemma OverwritesUnread(ls: seq<Line>, k: nat, m: nat)
    requires k < m < |ls|
    ensures Overwrites(ls, k, m) <==> ls[m].isWrite && ls[m].decoded && UnreadLines(ls, k, m)
  {
  }

  ghost predicate HasOverwriting(M: Model, tss: seq<TraceStep>, s: string, k: int)
    requires 0 <= k < |tss|
  {
    exists m :: OverwritingStep(M, tss, s, k, m)
  }

  lemma LineHasOverwriting(M: Model, host: string, tss: seq<TraceStep>, nums: seq<nat>, s: string, k: nat, p: nat)
    requires |nums| == |tss| && k < |tss| && p == k + 1
    ensures HasOverwriting(M, tss, s, k) <==> exists m :: Overwrites(LinesOf(M, host, tss, nums, s), p, m)
  {
    var ls := LinesOf(M, host, tss, nums, s);
    if m :| OverwritingStep(M, tss, s, k, m) {
      var n: nat := m + 1;
      OverwritingLine(M, host, tss, nums, s, k, m, p, n);
      assert Overwrites(ls, p, n);
    }
    if m :| Overwrites(ls, p, m) {
      var n: nat := m - 1;
      OverwritingLine(M, host, tss, nums, s, k, n, p, m);
      assert OverwritingStep(M, tss, s, k, n);
    }
  }

  /** On the steps and on the lines of a state it is the same condition. */
  lemma LinesCovered(M: Model, host: string, tss: seq<TraceStep>, nums: seq<nat>, s: string)
    requires |nums| == |tss|
    ensures CoveredSteps(M, tss, s) <==> Covered(LinesOf(M, host, tss, nums, s))
  {
    var ls := LinesOf(M, host, tss, nums, s);
    LooseLine(M, host, tss, nums, s, 0);
    forall k: nat, p: nat | k < |tss| && p == k + 1
      ensures Loose(ls, p) <==> LooseStep(M, tss, s, k)
      ensures HasOverwriting(M, tss, s, k) <==> exists m :: Overwrites(ls, p, m)
    {
      LooseLine(M, host, tss, nums, s, p);
      LineHasOverwriting(M, host, tss, nums, s, k, p);
    }
    CoveredAlike(M, tss, s, ls);
  }

  lemma CoveredAlike(M: Model, tss: seq<TraceStep>, s: string, ls: seq<Line>)
    requires |ls| == |tss| + 1 && !Loose(ls, 0)
    requires forall k: nat, p: nat {:trigger LooseStep(M, tss, s, k), Loose(ls, p)} :: k < |tss| && p == k + 1 ==>
               && (Loose(ls, p) <==> LooseStep(M, tss, s, k))
               && (HasOverwriting(M, tss, s, k) <==> exists m :: Overwrites(ls, p, m))
    ensures CoveredSteps(M, tss, s) <==> Covered(ls)
  {
    if CoveredSteps(M, tss, s) {
      forall p: nat | p < |ls| && Loose(ls, p) ensures exists m :: Overwrites(ls, p, m) {
        assert LooseStep(M, tss, s, p - 1) && HasOverwriting(M, tss, s, p - 1);
      }
    }
    if Covered(ls) {
      forall k: nat | k < |tss| && LooseStep(M, tss, s, k) ensures exists m :: OverwritingStep(M, tss, s, k, m) {
        var p: nat := k + 1;
        assert Loose(ls, p);
      }
    }
  }

  lemma {:induction false} ChainIsOrder(M: Model, nums: seq<nat>, n: nat)
    requires n <= |nums| && forall k :: 0 <= k < |nums| ==> Chained(M, nums, k)
    ensures forall i, j :: 0 <= i < j < n ==> Time(M, Now(nums[i])) < Time(M, Now(nums[j]))
  {
    if n > 1 {
      ChainIsOrder(M, nums, n - 1);
      assert Chained(M, nums, n - 1);
    }
  }
}
