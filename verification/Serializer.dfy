/** Writing an ILA: every node once, arguments first. */
module Serializer {
  import opened JsonDoc

  lemma ListedPush(nodes: seq<Node>, arr: seq<JExpr>, idx: map<nat, nat>, U: set<Node>, n: Node)
    requires Graph(U) && Listed(nodes, arr, idx, U) && n in U && n.id !in idx
    requires forall a {:trigger a in Args(n)} :: a in Args(n) ==> a in nodes
    ensures Listed(nodes + [n], arr + [Unit(n)], idx[n.id := |arr|], U)
  {
    var more := nodes + [n];
    forall k: nat | k < |more| ensures ArgsBefore(more, k) {
      if k < |nodes| {
        assert ArgsBefore(nodes, k);
        assert more[..k] == nodes[..k];
      } else {
        assert more[..k] == nodes;
      }
    }
  }

  lemma KnownIsListed(nodes: seq<Node>, arr: seq<JExpr>, idx: map<nat, nat>, U: set<Node>, n: Node)
    requires Graph(U) && Listed(nodes, arr, idx, U) && n in U && n.id in idx
    ensures n in nodes && nodes[idx[n.id]] == n
  {
    assert nodes[idx[n.id]] in nodes;
  }

  class I2JSer {
    var idIdx: map<nat, nat>
    var exprArr: seq<JExpr>
    /** The nodes behind the objects of the array. */
    ghost var nodes: seq<Node>

    constructor ()
      ensures idIdx == map[] && exprArr == [] && nodes == []
    {
      idIdx, exprArr, nodes := map[], [], [];
    }

    ghost predicate Valid(U: set<Node>)
      reads this
    {
      Graph(U) && Listed(nodes, exprArr, idIdx, U)
    }

    method SerExprUnit(n: Node, ghost U: set<Node>)
      requires Valid(U) && n in U && forall a {:trigger a in Args(n)} :: a in Args(n) ==> a in nodes
      modifies this
      ensures Valid(U) && n in nodes && Extends(old(nodes), nodes, {n}) && Grown(old(idIdx), idIdx)
    {
      if n.id in idIdx {
        KnownIsListed(nodes, exprArr, idIdx, U, n);
      } else {
        ListedPush(nodes, exprArr, idIdx, U, n);
        idIdx := idIdx[n.id := |exprArr|];
        exprArr := exprArr + [Unit(n)];
        nodes := nodes + [n];
      }
    }

    /** Depth first: arguments before the node. */
    method DepthFirstVisit(n: Node, ghost U: set<Node>)
      requires Valid(U) && n in U
      modifies this
      ensures Valid(U) && n in nodes && Extends(old(nodes), nodes, Sub(n)) && Grown(old(idIdx), idIdx)
      decreases n, 2
    {
      if n.OpN? {
        VisitArgs(n, U);
      }
      ghost var was := nodes;
      SerExprUnit(n, U);
      ExtendsTrans(old(nodes), was, nodes, Sub(n), {n}, Sub(n));
    }

    method VisitArgs(n: Node, ghost U: set<Node>)
      requires Valid(U) && n in U && n.OpN?
      modifies this
      ensures Valid(U) && Extends(old(nodes), nodes, Sub(n)) && Grown(old(idIdx), idIdx)
      ensures forall a {:trigger a in n.args} :: a in n.args ==> a in nodes
      decreases n, 1
    {
      var i := 0;
      while i != |n.args|
        invariant 0 <= i <= |n.args| && Valid(U) && Extends(old(nodes), nodes, Sub(n)) && Grown(old(idIdx), idIdx)
        invariant AllListed(n.args[..i], nodes)
      {
        VisitArg(n, i, U);
        i := i + 1;
      }
      assert n.args[..i] == n.args;
    }

    method VisitArg(n: Node, i: nat, ghost U: set<Node>)
      requires Valid(U) && n in U && n.OpN? && i < |n.args| && AllListed(n.args[..i], nodes)
      modifies this
      ensures Valid(U) && Extends(old(nodes), nodes, Sub(n)) && Grown(old(idIdx), idIdx)
      ensures AllListed(n.args[..i + 1], nodes)
      decreases n, 0
    {
      assert n.args[i] in Args(n);
      DepthFirstVisit(n.args[i], U);
      AllListedKept(n.args[..i], old(nodes), nodes, Sub(n.args[i]));
      ExtendsTrans(old(nodes), nodes, nodes, Sub(n.args[i]), {}, Sub(n));
      assert n.args[..i + 1] == n.args[..i] + [n.args[i]];
    }

    /** The id of an expression whose nodes are all written. */
    method SerExpr(n: Node, ghost U: set<Node>) returns (id: nat)
      requires Valid(U) && n in U
      modifies this
      ensures Valid(U) && n in nodes && Extends(old(nodes), nodes, Sub(n)) && Grown(old(idIdx), idIdx) && id == n.id
    {
      DepthFirstVisit(n, U);
      id := n.id;
    }

    /** SerExpr in a loop; all nodes are in t. */
    method SerExprs(ns: seq<Node>, ghost U: set<Node>, ghost t: set<Node>) returns (ids: seq<nat>)
      requires Valid(U) && AllIn(ns, U) && SubAll(ns) <= t
      modifies this
      ensures Valid(U) && AllListed(ns, nodes) && Extends(old(nodes), nodes, t) && Grown(old(idIdx), idIdx)
      ensures ids == Ids(ns)
    {
      ids := [];
      var i := 0;
      assert ns[..i] == [];
      while i != |ns|
        invariant 0 <= i <= |ns| && Valid(U) && Extends(old(nodes), nodes, t) && Grown(old(idIdx), idIdx)
        invariant AllListed(ns[..i], nodes) && |ids| == i && forall j :: 0 <= j < i ==> ids[j] == ns[j].id
      {
        assert ns[i] in ns;
        ghost var n0, i0 := nodes, idIdx;
        var id := SerOne(ns[i], ns[..i], U, t);
        GrowthTrans(old(nodes), n0, nodes, old(idIdx), i0, idIdx, t);
        ids := ids + [id];
        assert ns[..i + 1] == ns[..i] + [ns[i]];
        i := i + 1;
      }
      assert ns[..i] == ns;
    }

    method SerOne(n: Node, ghost before: seq<Node>, ghost U: set<Node>, ghost t: set<Node>) returns (id: nat)
      requires Valid(U) && n in U && Sub(n) <= t && AllListed(before, nodes)
      modifies this
      ensures Valid(U) && AllListed(before + [n], nodes) && Extends(old(nodes), nodes, t) && Grown(old(idIdx), idIdx)
      ensures id == n.id
    {
      id := SerExpr(n, U);
      AllListedKept(before, old(nodes), nodes, Sub(n));
      ExtendsTrans(old(nodes), nodes, nodes, Sub(n), {}, t);
    }

    /** A list of variables: its new ones get ascending indices. */
    method SerVars(vs: seq<Node>, ghost from: nat, ghost U: set<Node>) returns (ids: seq<nat>)
      requires Valid(U) && AllIn(vs, U) && AllVars(vs) && DistinctIds(vs) && from <= |vs|
      requires forall k {:trigger vs[k]} :: from <= k < |vs| ==> vs[k].id !in idIdx
      modifies this
      ensures Valid(U) && AllListed(vs, nodes) && Extends(old(nodes), nodes, set v | v in vs)
      ensures Grown(old(idIdx), idIdx)
      ensures Ascending(idIdx, vs[from..]) && ids == Ids(vs)
    {
      ids := [];
      var i := 0;
      while i != |vs|
        invariant 0 <= i <= |vs| && Valid(U) && Extends(old(nodes), nodes, set v | v in vs) && Grown(old(idIdx), idIdx)
        invariant AllListed(vs[..i], nodes) && |ids| == i && forall j :: 0 <= j < i ==> ids[j] == vs[j].id
        invariant from <= i ==> Ascending(idIdx, vs[from..i])
        invariant forall k {:trigger vs[k]} :: from <= k < |vs| && i <= k ==> vs[k].id !in idIdx
      {
        var id := SerVar(vs, i, from, U);
        ids := ids + [id];
        i := i + 1;
      }
      assert vs[..i] == vs && vs[from..i] == vs[from..];
    }

    method SerVar(vs: seq<Node>, i: nat, ghost from: nat, ghost U: set<Node>) returns (id: nat)
      requires Valid(U) && i < |vs| && AllIn(vs, U) && AllVars(vs) && DistinctIds(vs) && AllListed(vs[..i], nodes)
      requires from <= i ==> Ascending(idIdx, vs[from..i])
      requires forall k {:trigger vs[k]} :: from <= k < |vs| && i <= k ==> vs[k].id !in idIdx
      modifies this
      ensures Valid(U) && AllListed(vs[..i + 1], nodes) && Grown(old(idIdx), idIdx) && id == vs[i].id
      ensures Extends(old(nodes), nodes, set v | v in vs)
      ensures from <= i + 1 ==> Ascending(idIdx, vs[from..i + 1])
      ensures forall k {:trigger vs[k]} :: from <= k < |vs| && i + 1 <= k ==> vs[k].id !in idIdx
    {
      ghost var all := set v | v in vs;
      assert vs[i] in vs && Sub(vs[i]) == {vs[i]};
      id := SerOne(vs[i], vs[..i], U, {vs[i]});
      assert vs[..i + 1] == vs[..i] + [vs[i]];
      ExtendsTrans(old(nodes), nodes, nodes, {vs[i]}, {}, all);
      OnlyNewKey(old(nodes), old(exprArr), old(idIdx), nodes, exprArr, idIdx, U, vs[i]);
      if from <= i {
        AscendingPush(old(nodes), old(idIdx), nodes, exprArr, idIdx, U, vs[from..i], vs[i]);
        assert vs[from..i + 1] == vs[from..i] + [vs[i]];
      } else {
        assert from <= i + 1 ==> vs[from..i + 1] == [];
      }
    }

    /** The ids of the next-state expressions. */
    method SerUpdates(i: InstrN, states: seq<Node>, ghost es: seq<Node>, ghost U: set<Node>, ghost t: set<Node>)
      returns (update: map<string, nat>)
      requires Valid(U) && AllVars(states) && EntriesOf(es, i, states)
      requires AllIn(es, U) && SubAll(es) <= t && ListedTo(es, 0, nodes)
      modifies this
      ensures Valid(U) && AllListed(es, nodes) && Extends(old(nodes), nodes, t)
      ensures Grown(old(idIdx), idIdx) && update == UpdateIds(i, states, |states|)
    {
      update := map[];
      var k := 0;
      while k != |states|
        invariant 0 <= k <= |states| && Valid(U) && Extends(old(nodes), nodes, t) && Grown(old(idIdx), idIdx)
        invariant ListedTo(es, k, nodes) && update == UpdateIds(i, states, k)
      {
        ghost var n0, i0 := nodes, idIdx;
        update := SerUpdate(i, states, k, update, es, U, t);
        GrowthTrans(old(nodes), n0, nodes, old(idIdx), i0, idIdx, t);
        k := k + 1;
      }
      assert es[..k + 1] == es;
    }

    method SerUpdate(i: InstrN, states: seq<Node>, k: nat, update: map<string, nat>, ghost es: seq<Node>,
                     ghost U: set<Node>, ghost t: set<Node>)
      returns (update': map<string, nat>)
      requires Valid(U) && AllVars(states) && k < |states| && update == UpdateIds(i, states, k)
      requires EntriesOf(es, i, states) && AllIn(es, U) && SubAll(es) <= t && ListedTo(es, k, nodes)
      modifies this
      ensures Valid(U) && ListedTo(es, k + 1, nodes) && Extends(old(nodes), nodes, t)
      ensures Grown(old(idIdx), idIdx) && update' == UpdateIds(i, states, k + 1)
    {
      ghost var m := k + 1;
      var next := Next(i, states[k]);
      assert EntryOf(es, i, states, k);
      assert es[m] in es;
      var id := SerOne(next, es[..m], U, t);
      assert es[..m + 1] == es[..m] + [es[m]];
      update' := update[states[k].name := id];
    }

    /** The decode and, for every state, the next-state expression of an instruction. */
    method SerInstr(i: InstrN, states: seq<Node>, ghost es: seq<Node>, ghost U: set<Node>, ghost t: set<Node>)
      returns (j: JInstr)
      requires Valid(U) && AllVars(states) && EntriesOf(es, i, states) && AllIn(es, U) && SubAll(es) <= t
      modifies this
      ensures Valid(U) && AllListed(es, nodes) && Extends(old(nodes), nodes, t)
      ensures Grown(old(idIdx), idIdx) && j == DocInstr(i, states)
      ensures DistinctNames(states) ==> InstrWritten(i, states, j)
    {
      assert es[0] in es;
      var decode := SerOne(i.decode, [], U, t);
      assert es[..1] == [] + [i.decode];
      ghost var was := nodes;
      var update := SerUpdates(i, states, es, U, t);
      ExtendsTrans(old(nodes), was, nodes, t, t, t);
      j := JInstr(i.name, decode, update);
      if DistinctNames(states) { DocInstrIsWritten(i, states); }
    }

    /** The inputs and the states of an ILA. Its own ones have not been seen before. */
    method SerLists(u: Ila, ghost s: Scope, ghost U: set<Node>) returns (inputs: seq<nat>, states: seq<nat>)
      requires Valid(U) && WellFormed(u, s, U) && ScopeOk(s) && Clear(nodes, {u.name})
      modifies this
      ensures Valid(U) && Extends(old(nodes), nodes, Hosted(U, s.names + {u.name})) && Grown(old(idIdx), idIdx)
      ensures AllListed(u.inputs, nodes) && AllListed(u.states, nodes)
      ensures Ascending(idIdx, u.inputs[|s.inputs|..]) && Ascending(idIdx, u.states[|s.states|..])
      ensures inputs == Ids(u.inputs) && states == Ids(u.states)
    {
      InnerOk(u, s);
      VarsHosted(u, s, U);
      SplitDistinct(u.inputs, u.states);
      OwnAreNew(nodes, exprArr, idIdx, U, u.inputs, |s.inputs|, u.name);
      OwnAreNew(nodes, exprArr, idIdx, U, u.states, |s.states|, u.name);
      ghost var ia, start := idIdx, nodes;
      inputs := SerVars(u.inputs, |s.inputs|, U);
      ghost var ib, middle := idIdx, nodes;
      StillNew(start, middle, exprArr, idIdx, U, ia, u.inputs, u.states, |s.states|);
      states := SerVars(u.states, |s.states|, U);
      ghost var t := Hosted(U, s.names + {u.name});
      AllListedKept(u.inputs, middle, nodes, set v | v in u.states);
      AscendingKept(ib, idIdx, u.inputs[|s.inputs|..]);
      ExtendsTrans(start, middle, nodes, (set v | v in u.inputs), (set v | v in u.states), t);
    }

    /** Fetch, valid, instructions and initial conditions. */
    method SerFetch(u: Ila, ghost U: set<Node>, ghost t: set<Node>) returns (fetch: Option<nat>)
      requires Valid(U) && AllIn(FetchGroup(u), U) && SubAll(FetchGroup(u)) <= t
      modifies this
      ensures Valid(U) && AllListed(FetchGroup(u), nodes) && Extends(old(nodes), nodes, t) && Grown(old(idIdx), idIdx)
      ensures fetch == if u.fetch.Some? then Some(u.fetch.value.id) else None
    {
      if u.fetch.Some? {
        assert FetchGroup(u)[0] in FetchGroup(u);
        var id := SerOne(u.fetch.value, [], U, t);
        assert [] + [u.fetch.value] == FetchGroup(u);
        fetch := Some(id);
      } else {
        fetch := None;
      }
    }

    method SerInstrs(u: Ila, ghost U: set<Node>, ghost t: set<Node>) returns (js: seq<JInstr>)
      requires Valid(U) && AllVars(u.states)
      requires forall k {:trigger u.instrs[k]} :: 0 <= k < |u.instrs| ==>
                 AllIn(OneInstrExprs(u.instrs[k], u.states), U) && SubAll(OneInstrExprs(u.instrs[k], u.states)) <= t
      modifies this
      ensures Valid(U) && InstrsListed(u, nodes, |u.instrs|) && Extends(old(nodes), nodes, t)
      ensures Grown(old(idIdx), idIdx)
      ensures js == DocInstrs(u.instrs, u.states)
    {
      js := [];
      var k := 0;
      while k != |u.instrs|
        invariant 0 <= k <= |u.instrs| && Valid(U) && Extends(old(nodes), nodes, t) && Grown(old(idIdx), idIdx)
        invariant InstrsListed(u, nodes, k)
        invariant |js| == k && forall j :: 0 <= j < k ==> js[j] == DocInstr(u.instrs[j], u.states)
      {
        ghost var was, ids := nodes, idIdx;
        ghost var es := OneInstrExprs(u.instrs[k], u.states);
        EntriesOfInstr(u.instrs[k], u.states);
        var j := SerInstr(u.instrs[k], u.states, es, U, t);
        js := js + [j];
        InstrsListedPush(u, was, nodes, k, t);
        GrowthTrans(old(nodes), was, nodes, old(idIdx), ids, idIdx, t);
        k := k + 1;
      }
    }

    /** Everything of an ILA but its variables and its children. */
    method SerOwn(u: Ila, ghost s: Scope, ghost U: set<Node>)
      returns (fetch: Option<nat>, valid: nat, instrs: seq<JInstr>, init: seq<nat>)
      requires Valid(U) && WellFormed(u, s, U) && ScopeOk(s)
      modifies this
      ensures Valid(U) && Extends(old(nodes), nodes, Hosted(U, s.names + {u.name})) && Grown(old(idIdx), idIdx)
      ensures GroupsListed(u, nodes)
      ensures fetch == (if u.fetch.Some? then Some(u.fetch.value.id) else None) && valid == u.valid.id
      ensures instrs == DocInstrs(u.instrs, u.states) && init == Ids(u.init)
    {
      ghost var t := Hosted(U, s.names + {u.name});
      GroupsHosted(u, s, U);
      fetch := SerFetch(u, U, t);
      ghost var n1 := nodes;
      assert [u.valid][0] in [u.valid];
      valid := SerOne(u.valid, FetchGroup(u), U, t);
      ghost var n2 := nodes;
      instrs := SerInstrs(u, U, t);
      ghost var n3 := nodes;
      init := SerExprs(u.init, U, t);
      OwnListed(u, old(nodes), n1, n2, n3, nodes, t);
    }

    /** An ILA with its children; their nodes go to the common array. */
    method SerInstrLvlAbsNoAst(u: Ila, ghost s: Scope, ghost U: set<Node>) returns (j: JIla)
      requires Valid(U) && WellFormed(u, s, U) && ScopeOk(s) && Clear(nodes, Names(u))
      modifies this
      ensures Valid(U) && Extends(old(nodes), nodes, Hosted(U, s.names + Names(u))) && Grown(old(idIdx), idIdx)
      ensures Written(u, s, nodes, idIdx) && VarLists(u) && j == DocIla(u)
      decreases u, 1
    {
      WellFormedHasLists(u, s, U);
      ghost var n0, i0 := nodes, idIdx;
      var inputs, states := SerLists(u, s, U);
      ghost var n1, i1 := nodes, idIdx;
      var fetch, valid, instrs, init := SerOwn(u, s, U);
      ghost var n2, i2 := nodes, idIdx;
      ghost var own := s.names + {u.name};
      OwnPart(u, s, n0, n1, n2, i1, i2, U);
      var children := SerChildren(u, s, U);
      WholePart(u, s, n0, n2, nodes, i2, idIdx, U);
      j := JIla(u.name, inputs, states, fetch, valid, instrs, init, children);
    }

    method SerChildren(u: Ila, ghost s: Scope, ghost U: set<Node>) returns (js: seq<JIla>)
      requires Valid(U) && WellFormed(u, s, U) && ScopeOk(Inner(s, u)) && Clear(nodes, NamesOf(u.children))
      requires VarLists(u)
      modifies this
      ensures Valid(U) && Extends(old(nodes), nodes, Hosted(U, s.names + Names(u))) && Grown(old(idIdx), idIdx)
      ensures ChildrenWritten(u, s, nodes, idIdx, |u.children|) && js == DocIlas(u.children)
      decreases u, 0
    {
      js := [];
      var k := 0;
      ghost var t := Hosted(U, s.names + Names(u));
      ClearChildren(u, nodes);
      while k != |u.children|
        invariant 0 <= k <= |u.children| && Valid(U) && Extends(old(nodes), nodes, t) && Grown(old(idIdx), idIdx)
        invariant ChildrenWritten(u, s, nodes, idIdx, k)
        invariant forall c {:trigger u.children[c]} :: k <= c < |u.children| ==> Clear(nodes, Names(u.children[c]))
        invariant |js| == k && forall c :: 0 <= c < k ==> js[c] == DocIla(u.children[c])
      {
        ghost var n0, i0 := nodes, idIdx;
        var j := SerInstrLvlAbsNoAst(u.children[k], Inner(s, u), U);
        js := js + [j];
        ChildDone(u, s, k, n0, nodes, i0, idIdx, U);
        GrowthTrans(old(nodes), n0, nodes, old(idIdx), i0, idIdx, t);
        k := k + 1;
      }
    }

    /** The whole document. */
    method SerInstrLvlAbs(u: Ila, ghost U: set<Node>) returns (d: Document)
      requires Valid(U) && nodes == [] && WellFormed(u, Scope({}, [], []), U)
      modifies this
      ensures Valid(U) && Written(u, Scope({}, [], []), nodes, idIdx) && VarLists(u)
      ensures d == Document(DocIla(u), exprArr) && Extends([], nodes, Hosted(U, Names(u)))
    {
      var top := SerInstrLvlAbsNoAst(u, Scope({}, [], []), U);
      assert {} + Names(u) == Names(u);
      d := Document(top, exprArr);
    }
  }

  ghost predicate ChildrenWritten(u: Ila, s: Scope, nodes: seq<Node>, idx: map<nat, nat>, n: nat)
    requires n <= |u.children|
  {
    forall k {:trigger u.children[k]} :: 0 <= k < n ==> Written(u.children[k], Inner(s, u), nodes, idx)
  }

  /** The ILA's own variables and expressions are listed. */
  ghost predicate OwnWritten(u: Ila, s: Scope, nodes: seq<Node>, idx: map<nat, nat>) {
    && |s.inputs| <= |u.inputs| && |s.states| <= |u.states|
    && AllListed(u.inputs, nodes) && AllListed(u.states, nodes) && GroupsListed(u, nodes)
    && Ascending(idx, u.inputs[|s.inputs|..]) && Ascending(idx, u.states[|s.states|..])
  }

  lemma OwnPart(u: Ila, s: Scope, n0: seq<Node>, n1: seq<Node>, n2: seq<Node>, i1: map<nat, nat>, i2: map<nat, nat>,
                U: set<Node>)
    requires WellFormed(u, s, U) && ScopeOk(s) && Clear(n0, Names(u))
    requires
      var t := Hosted(U, s.names + {u.name});
      Extends(n0, n1, t) && Extends(n1, n2, t)
    requires AllListed(u.inputs, n1) && AllListed(u.states, n1) && GroupsListed(u, n2) && Grown(i1, i2)
    requires Ascending(i1, u.inputs[|s.inputs|..]) && Ascending(i1, u.states[|s.states|..])
    ensures Extends(n0, n2, Hosted(U, s.names + {u.name})) && OwnWritten(u, s, n2, i2)
    ensures ScopeOk(Inner(s, u)) && Clear(n2, NamesOf(u.children))
  {
    var t := Hosted(U, s.names + {u.name});
    ExtendsTrans(n0, n1, n2, t, t, t);
    AllListedKept(u.inputs, n1, n2, t);
    AllListedKept(u.states, n1, n2, t);
    AscendingKept(i1, i2, u.inputs[|s.inputs|..]);
    AscendingKept(i1, i2, u.states[|s.states|..]);
    InnerOk(u, s);
    assert s.names + {u.name} !! NamesOf(u.children);
    assert Clear(n0, NamesOf(u.children));
    ClearKept(n0, n2, U, s.names + {u.name}, NamesOf(u.children));
  }

  lemma WholePart(u: Ila, s: Scope, n0: seq<Node>, n2: seq<Node>, n3: seq<Node>, i2: map<nat, nat>, i3: map<nat, nat>,
                  U: set<Node>)
    requires Extends(n0, n2, Hosted(U, s.names + {u.name})) && OwnWritten(u, s, n2, i2)
    requires Extends(n2, n3, Hosted(U, s.names + Names(u))) && Grown(i2, i3)
    requires ChildrenWritten(u, s, n3, i3, |u.children|)
    ensures Extends(n0, n3, Hosted(U, s.names + Names(u))) && Written(u, s, n3, i3)
  {
    var t := Hosted(U, s.names + Names(u));
    HostedMore(U, s.names + {u.name}, s.names + Names(u));
    ExtendsTrans(n0, n2, n3, Hosted(U, s.names + {u.name}), t, t);
    AllListedKept(u.inputs, n2, n3, t);
    AllListedKept(u.states, n2, n3, t);
    forall g {:trigger Groups(u)[g]} | 0 <= g < |Groups(u)| ensures AllListed(Groups(u)[g], n3) {
      AllListedKept(Groups(u)[g], n2, n3, t);
    }
    AscendingKept(i2, i3, u.inputs[|s.inputs|..]);
    AscendingKept(i2, i3, u.states[|s.states|..]);
  }

  lemma ClearChildren(u: Ila, nodes: seq<Node>)
    requires Clear(nodes, NamesOf(u.children))
    ensures forall c {:trigger u.children[c]} :: 0 <= c < |u.children| ==> Clear(nodes, Names(u.children[c]))
  {
    forall c {:trigger u.children[c]} | 0 <= c < |u.children| ensures Clear(nodes, Names(u.children[c])) {
      assert Names(u.children[c]) <= NamesOf(u.children);
    }
  }

  /** After a child its brothers are still unseen. */
  lemma ChildDone(u: Ila, s: Scope, k: nat, a: seq<Node>, b: seq<Node>, ia: map<nat, nat>, ib: map<nat, nat>,
                  U: set<Node>)
    requires WellFormed(u, s, U) && k < |u.children|
    requires ChildrenWritten(u, s, a, ia, k) && Written(u.children[k], Inner(s, u), b, ib) && Grown(ia, ib)
    requires Extends(a, b, Hosted(U, Inner(s, u).names + Names(u.children[k])))
    requires forall c {:trigger u.children[c]} :: k <= c < |u.children| ==> Clear(a, Names(u.children[c]))
    ensures ChildrenWritten(u, s, b, ib, k + 1) && Extends(a, b, Hosted(U, s.names + Names(u)))
    ensures forall c {:trigger u.children[c]} :: k + 1 <= c < |u.children| ==> Clear(b, Names(u.children[c]))
  {
    var hosts := Inner(s, u).names + Names(u.children[k]);
    forall c {:trigger u.children[c]} | 0 <= c < k + 1 ensures Written(u.children[c], Inner(s, u), b, ib) {
      if c < k { WrittenKept(u.children[c], Inner(s, u), a, ia, b, ib, Hosted(U, hosts)); }
    }
    forall c {:trigger u.children[c]} | k + 1 <= c < |u.children| ensures Clear(b, Names(u.children[c])) {
      assert Names(u.children[k]) !! Names(u.children[c]);
      assert WellFormed(u.children[c], Inner(s, u), U);
      ClearKept(a, b, U, hosts, Names(u.children[c]));
    }
    assert Names(u.children[k]) <= NamesOf(u.children);
    HostedMore(U, hosts, s.names + Names(u));
    ExtendsTrans(a, b, b, Hosted(U, hosts), {}, Hosted(U, s.names + Names(u)));
  }

  ghost predicate GroupsListed(u: Ila, nodes: seq<Node>) {
    forall g {:trigger Groups(u)[g]} :: 0 <= g < |Groups(u)| ==> AllListed(Groups(u)[g], nodes)
  }

  lemma GroupsHosted(u: Ila, s: Scope, U: set<Node>)
    requires Graph(U) && WellFormed(u, s, U) && ScopeOk(s)
    ensures
      var t := Hosted(U, s.names + {u.name});
      && AllIn(FetchGroup(u), U) && SubAll(FetchGroup(u)) <= t
      && AllIn([u.valid], U) && Sub(u.valid) <= t
      && AllIn(u.init, U) && SubAll(u.init) <= t
      && forall k {:trigger u.instrs[k]} :: 0 <= k < |u.instrs| ==>
           AllIn(OneInstrExprs(u.instrs[k], u.states), U) && SubAll(OneInstrExprs(u.instrs[k], u.states)) <= t
  {
    GroupsAre(u);
    InnerOk(u, s);
    forall g {:trigger Groups(u)[g]} | 0 <= g < |Groups(u)|
      ensures AllIn(Groups(u)[g], U) && SubAll(Groups(u)[g]) <= Hosted(U, s.names + {u.name})
    {
      GroupHosted(u, s, Groups(u)[g], U);
    }
    assert Sub([u.valid][0]) <= SubAll([u.valid]);
  }

  lemma OwnListed(u: Ila, n0: seq<Node>, n1: seq<Node>, n2: seq<Node>, n3: seq<Node>, n4: seq<Node>, t: set<Node>)
    requires Extends(n0, n1, t) && Extends(n1, n2, t) && Extends(n2, n3, t) && Extends(n3, n4, t)
    requires AllListed(FetchGroup(u), n1) && AllListed(FetchGroup(u) + [u.valid], n2)
    requires InstrsListed(u, n3, |u.instrs|) && AllListed(u.init, n4)
    ensures Extends(n0, n4, t) && GroupsListed(u, n4)
  {
    ExtendsTrans(n0, n1, n2, t, t, t);
    ExtendsTrans(n2, n3, n4, t, t, t);
    ExtendsTrans(n0, n2, n4, t, t, t);
    AllListedKept(FetchGroup(u) + [u.valid], n2, n4, t);
    InstrsListedKept(u, n3, n4, t);
    GroupsAre(u);
    var f := FetchGroup(u) + [u.valid];
    assert f[|f| - 1] == u.valid;
    assert forall k :: 0 <= k < |FetchGroup(u)| ==> f[k] == FetchGroup(u)[k];
    forall g {:trigger Groups(u)[g]} | 0 <= g < |Groups(u)| ensures AllListed(Groups(u)[g], n4) {
      if g >= 3 { assert Groups(u)[3 + (g - 3)] == OneInstrExprs(u.instrs[g - 3], u.states); }
    }
  }

  ghost predicate InstrsListed(u: Ila, nodes: seq<Node>, n: nat)
    requires n <= |u.instrs|
  {
    forall k {:trigger u.instrs[k]} :: 0 <= k < n ==> AllListed(OneInstrExprs(u.instrs[k], u.states), nodes)
  }

  lemma InstrsListedPush(u: Ila, a: seq<Node>, b: seq<Node>, n: nat, t: set<Node>)
    requires n < |u.instrs| && InstrsListed(u, a, n) && Extends(a, b, t)
    requires AllListed(OneInstrExprs(u.instrs[n], u.states), b)
    ensures InstrsListed(u, b, n + 1)
  {
    forall k {:trigger u.instrs[k]} | 0 <= k < n ensures AllListed(OneInstrExprs(u.instrs[k], u.states), b) {
      AllListedKept(OneInstrExprs(u.instrs[k], u.states), a, b, t);
    }
  }

  lemma InstrsListedKept(u: Ila, a: seq<Node>, b: seq<Node>, t: set<Node>)
    requires InstrsListed(u, a, |u.instrs|) && Extends(a, b, t)
    ensures InstrsListed(u, b, |u.instrs|)
  {
    forall k {:trigger u.instrs[k]} | 0 <= k < |u.instrs| ensures AllListed(OneInstrExprs(u.instrs[k], u.states), b) {
      AllListedKept(OneInstrExprs(u.instrs[k], u.states), a, b, t);
    }
  }

  lemma SplitDistinct(a: seq<Node>, b: seq<Node>)
    requires DistinctIds(a + b)
    ensures DistinctIds(a) && DistinctIds(b)
    ensures forall x, y {:trigger x in a, y in b} :: x in a && y in b ==> x.id != y.id
  {
    var c := a + b;
    forall i, j {:trigger a[i], a[j]} | 0 <= i < j < |a| ensures a[i].id != a[j].id { assert c[i] == a[i] && c[j] == a[j]; }
    forall i, j {:trigger b[i], b[j]} | 0 <= i < j < |b| ensures b[i].id != b[j].id {
      assert c[|a| + i] == b[i] && c[|a| + j] == b[j];
    }
    forall x, y {:trigger x in a, y in b} | x in a && y in b ensures x.id != y.id {
      var i :| 0 <= i < |a| && a[i] == x;
      var j :| 0 <= j < |b| && b[j] == y;
      assert c[i] == a[i] && c[|a| + j] == b[j];
    }
  }

  /** What an ILA declares has no id yet while nothing of it is listed. */
  lemma OwnAreNew(nodes: seq<Node>, arr: seq<JExpr>, idx: map<nat, nat>, U: set<Node>, vs: seq<Node>, from: nat,
                  name: string)
    requires Graph(U) && Listed(nodes, arr, idx, U) && Clear(nodes, {name}) && AllIn(vs, U) && AllVars(vs)
    requires forall k {:trigger vs[k]} :: from <= k < |vs| ==> vs[k].host == name
    ensures forall k {:trigger vs[k]} :: from <= k < |vs| ==> vs[k].id !in idx
  {
    forall k {:trigger vs[k]} | from <= k < |vs| ensures vs[k].id !in idx {
      assert vs[k] in vs;
      if vs[k].id in idx {
        KnownIsListed(nodes, arr, idx, U, vs[k]);
      }
    }
  }

  /** Writing the inputs has given no state an id. */
  lemma StillNew(a: seq<Node>, b: seq<Node>, arr: seq<JExpr>, ib: map<nat, nat>, U: set<Node>, ia: map<nat, nat>,
                 ins: seq<Node>, sts: seq<Node>, from: nat)
    requires Listed(b, arr, ib, U) && Extends(a, b, set v | v in ins)
    requires forall k {:trigger a[k]} :: 0 <= k < |a| ==> a[k].id in ia
    requires forall k {:trigger sts[k]} :: from <= k < |sts| ==> sts[k].id !in ia
    requires forall x, y {:trigger x in ins, y in sts} :: x in ins && y in sts ==> x.id != y.id
    ensures forall k {:trigger sts[k]} :: from <= k < |sts| ==> sts[k].id !in ib
  {
    forall j {:trigger b[j]} | 0 <= j < |b| ensures b[j].id in ia || b[j] in ins {
      if j < |a| { assert b[..|a|][j] == a[j]; }
    }
    forall k {:trigger sts[k]} | from <= k < |sts| ensures sts[k].id !in ib {
      assert sts[k] in sts;
    }
  }

  lemma AscendingKept(a: map<nat, nat>, b: map<nat, nat>, vs: seq<Node>)
    requires Ascending(a, vs) && Grown(a, b)
    ensures Ascending(b, vs)
  {
    forall i, j {:trigger vs[i], vs[j]} | 0 <= i < j < |vs| ensures b[vs[i].id] < b[vs[j].id] {
      assert a[vs[i].id] < a[vs[j].id];
    }
  }

  /** Writing one variable adds no other id. */
  lemma OnlyNewKey(a: seq<Node>, aa: seq<JExpr>, ia: map<nat, nat>, b: seq<Node>, ab: seq<JExpr>, ib: map<nat, nat>,
                   U: set<Node>, v: Node)
    requires Listed(a, aa, ia, U) && Listed(b, ab, ib, U) && Extends(a, b, {v})
    ensures forall id {:trigger id in ib} :: id in ib ==> id in ia || id == v.id
  {
    forall id {:trigger id in ib} | id in ib ensures id in ia || id == v.id {
      var k := ib[id];
      if k < |a| { assert b[..|a|][k] == a[k]; }
    }
  }

  lemma AscendingPush(a: seq<Node>, ia: map<nat, nat>, b: seq<Node>, ab: seq<JExpr>, ib: map<nat, nat>, U: set<Node>,
                      vs: seq<Node>, v: Node)
    requires Listed(b, ab, ib, U) && Extends(a, b, {v}) && Grown(ia, ib) && v in b && v.id !in ia
    requires Ascending(ia, vs) && forall id {:trigger ia[id]} :: id in ia ==> ia[id] < |a|
    requires forall k {:trigger a[k]} :: 0 <= k < |a| ==> a[k].id in ia
    ensures Ascending(ib, vs + [v])
  {
    var more := vs + [v];
    var k :| 0 <= k < |b| && b[k] == v;
    assert ib[v.id] == k;
    assert forall j {:trigger b[j]} :: 0 <= j < |a| ==> b[j] == b[..|a|][j];
    assert forall j {:trigger b[j]} :: 0 <= j < |a| ==> b[j].id != v.id;
    assert k >= |a|;
    forall i, j {:trigger more[i], more[j]} | 0 <= i < j < |more| ensures ib[more[i].id] < ib[more[j].id] {
      if j < |vs| { assert ia[vs[i].id] < ia[vs[j].id]; }
    }
  }
}