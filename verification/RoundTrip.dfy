/** What is written is read back: the same hierarchy, with the same expressions. */
module RoundTrip {
  import opened JsonDoc
  import opened DocReading
  import opened Deserializer
  import opened ReadBack
  import opened Serializer

  // ---------- what is to be read ----------

  /** The instruction with, for every state and nothing else, its update or, without one, the state itself. */
  ghost predicate InstrReadAs(i: InstrN, states: seq<Node>, r: RInstr)
    requires AllVars(states)
  {
    && r.name == i.name && r.decode == Forget(i.decode)
    && (forall k {:trigger states[k]} :: 0 <= k < |states| ==>
          && states[k].name in r.updates
          && r.updates[states[k].name] ==
             if states[k].name in i.updates then Forget(i.updates[states[k].name]) else Forget(states[k]))
    && (forall x {:trigger x in r.updates} :: x in r.updates ==>
          exists k {:trigger states[k]} :: 0 <= k < |states| && states[k].name == x)
  }

  /** The constant 1 of one bit stands for a missing fetch function. */
  ghost predicate FetchReadAs(fetch: Option<Node>, r: Option<RExpr>) {
    r == Some(if fetch.Some? then Forget(fetch.value) else RConst("bv1", "1"))
  }

  ghost predicate ListReadAs(ns: seq<Node>, rs: seq<RExpr>) {
    |rs| == |ns| && forall k {:trigger ns[k]} {:trigger rs[k]} :: 0 <= k < |ns| ==> rs[k] == Forget(ns[k])
  }

  ghost predicate IlaReadAs(u: Ila, r: RIla)
    requires AllVars(u.states)
  {
    && r.name == u.name && ListReadAs(u.inputs, r.inputs) && ListReadAs(u.states, r.states)
    && FetchReadAs(u.fetch, r.fetch) && r.valid == Some(Forget(u.valid)) && ListReadAs(u.init, r.init)
    && |r.instrs| == |u.instrs|
    && (forall k {:trigger u.instrs[k]} :: 0 <= k < |u.instrs| ==> InstrReadAs(u.instrs[k], u.states, r.instrs[k]))
    && |r.children| == |u.children|
    && (forall k {:trigger u.children[k]} :: 0 <= k < |u.children| ==> r.children[k] == u.children[k].name)
  }

  /** Every ILA of the hierarchy is read. */
  ghost predicate AllReadAs(u: Ila, ilas: map<string, RIla>)
    requires VarLists(u)
  {
    && u.name in ilas && IlaReadAs(u, ilas[u.name])
    && forall k {:trigger u.children[k]} :: 0 <= k < |u.children| ==> AllReadAs(u.children[k], ilas)
  }

  // ---------- and is ----------

  lemma {:induction false} FlatUpdatesHold(i: InstrN, states: seq<Node>, n: nat, k: nat)
    requires k < n <= |states| && AllVars(states) && DistinctNames(states)
    ensures states[k].name in FlatUpdates(i, states, n)
    ensures FlatUpdates(i, states, n)[states[k].name] == Forget(Next(i, states[k]))
  {
    if k < n - 1 {
      FlatUpdatesHold(i, states, n - 1, k);
      assert states[k].name != states[n - 1].name;
    }
  }

  lemma {:induction false} FlatUpdatesKeys(i: InstrN, states: seq<Node>, n: nat)
    requires n <= |states| && AllVars(states)
    ensures forall x :: x in FlatUpdates(i, states, n) ==> exists k {:trigger states[k]} :: 0 <= k < n && states[k].name == x
  {
    if n > 0 {
      FlatUpdatesKeys(i, states, n - 1);
      assert states[n - 1] == states[n - 1];
    }
  }

  lemma FlatInstrIsRead(i: InstrN, states: seq<Node>)
    requires AllVars(states) && DistinctNames(states)
    ensures InstrReadAs(i, states, FlatInstr(i, states))
  {
    forall k {:trigger states[k]} | 0 <= k < |states|
      ensures states[k].name in FlatUpdates(i, states, |states|)
      ensures FlatUpdates(i, states, |states|)[states[k].name] == Forget(Next(i, states[k]))
    {
      FlatUpdatesHold(i, states, |states|, k);
    }
    FlatUpdatesKeys(i, states, |states|);
  }

  lemma FlatIsRead(u: Ila, r: RIla)
    requires VarLists(u) && DistinctNames(u.states) && r == Flat(u)
    ensures IlaReadAs(u, r)
  {
    forall k {:trigger u.instrs[k]} | 0 <= k < |u.instrs| ensures InstrReadAs(u.instrs[k], u.states, r.instrs[k]) {
      FlatInstrIsRead(u.instrs[k], u.states);
    }
  }

  lemma {:induction false} FlatIsAllRead(u: Ila, s: Scope, U: set<Node>, ilas: map<string, RIla>)
    requires WellFormed(u, s, U) && VarLists(u) && FlatIn(u, ilas)
    ensures AllReadAs(u, ilas)
    decreases u
  {
    FlatIsRead(u, ilas[u.name]);
    forall k {:trigger u.children[k]} | 0 <= k < |u.children| ensures AllReadAs(u.children[k], ilas) {
      FlatIsAllRead(u.children[k], Inner(s, u), U, ilas);
    }
  }

  /** Written to a document and read again, every ILA has the variables, in their order, and the fetch,
      valid, decode, next-state and initial expressions it had, and no ILA is added or lost. */
  method WriteAndRead(u: Ila, ghost U: set<Node>) returns (ilas: map<string, RIla>)
    requires Graph(U) && WellFormed(u, Scope({}, [], []), U) && Declared(u, U)
    ensures VarLists(u) && AllReadAs(u, ilas) && ilas.Keys == Names(u)
  {
    var ser := new I2JSer();
    var d := ser.SerInstrLvlAbs(u, U);
    var des := new J2IDes();
    des.DesInstrLvlAbs(d, u, U, ser.nodes, ser.idIdx);
    ilas := des.ilas;
    FlatIsAllRead(u, Scope({}, [], []), U, ilas);
  }
}
