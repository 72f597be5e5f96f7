/** Reading what was written gives back the variables and the expressions of the hierarchy. */
module ReadBack {
  import opened JsonDoc
  import opened DocReading
  import opened Serializer

  // ---------- variables ----------

  /** Exactly the variables of the given ILAs, and those of `name` among the first n nodes, are read. */
  ghost predicate VarsReadTo(nodes: seq<Node>, ids: IdMap, names: set<string>, name: string, n: nat) {
    && (forall k {:trigger nodes[k]} :: 0 <= k < |nodes| && Due(nodes[k], k, names, name, n) ==>
          nodes[k].id in ids && ids[nodes[k].id] == Forget(nodes[k]))
    && (forall id {:trigger id in ids} :: id in ids ==> ReadFrom(nodes, names, name, n, id))
  }

  predicate Due(v: Node, k: int, names: set<string>, name: string, n: nat) {
    v.VarN? && (v.host in names || (v.host == name && k < n))
  }

  ghost predicate ReadFrom(nodes: seq<Node>, names: set<string>, name: string, n: nat, id: nat) {
    exists k {:trigger nodes[k]} :: 0 <= k < |nodes| && nodes[k].id == id && Due(nodes[k], k, names, name, n)
  }

  /** The setting of a scan: a listed graph, an ILA whose ancestors are read and which is not. */
  ghost predicate Scanning(u: Ila, s: Scope, U: set<Node>, nodes: seq<Node>, ast: seq<JExpr>, idx: map<nat, nat>,
                           names: set<string>) {
    && Graph(U) && Listed(nodes, ast, idx, U) && WellFormed(u, s, U) && ScopeOk(s) && Declared(u, U) && VarLists(u)
    && s.names <= names && u.name !in names
  }

  /** The document's ILA is the given one, as far as its variables go. */
  ghost predicate ListsOf(j: JIla, u: Ila) {
    j.name == u.name && j.inputs == Ids(u.inputs) && j.states == Ids(u.states)
  }

  lemma ListId(vs: seq<Node>, U: set<Node>, v: Node)
    requires Graph(U) && AllIn(vs, U) && v in U
    ensures v.id in Ids(vs) <==> v in vs
  {
    if v.id in Ids(vs) {
      var k :| 0 <= k < |vs| && Ids(vs)[k] == v.id;
      assert vs[k] in vs;
    }
    if v in vs {
      var k :| 0 <= k < |vs| && vs[k] == v;
      assert Ids(vs)[k] == v.id;
    }
  }

  /** The scan creates a variable exactly for the nodes the ILA declares. */
  lemma CreatesOwn(u: Ila, s: Scope, U: set<Node>, nodes: seq<Node>, ast: seq<JExpr>, idx: map<nat, nat>,
                   names: set<string>, ids: IdMap, j: JIla, n: nat)
    requires ListsOf(j, u) && Scanning(u, s, U, nodes, ast, idx, names) && n < |nodes|
    requires VarsReadTo(nodes, ids, names, u.name, n)
    ensures Creates(j, ast[n], ids) <==> nodes[n].VarN? && nodes[n].host == u.name
  {
    var v := nodes[n];
    assert v in nodes && v in U && ast[n] == Unit(v);
    ListId(u.inputs, U, v);
    ListId(u.states, U, v);
    InnerOk(u, s);
    if v.VarN? && v.host == u.name {
      DeclaredOwn(u, s, U, v);
      NotYetRead(U, nodes, ast, idx, names, u.name, ids, n);
    }
    if Creates(j, ast[n], ids) {
      if v in u.inputs {
        var k :| 0 <= k < |u.inputs| && u.inputs[k] == v;
        assert Inner(s, u).inputs[k] == v;
      } else {
        var k :| 0 <= k < |u.states| && u.states[k] == v;
        assert Inner(s, u).states[k] == v;
      }
    }
  }

  lemma NotYetRead(U: set<Node>, nodes: seq<Node>, ast: seq<JExpr>, idx: map<nat, nat>, names: set<string>,
                   name: string,
                   ids: IdMap, n: nat)
    requires Listed(nodes, ast, idx, U) && n < |nodes| && VarsReadTo(nodes, ids, names, name, n)
    requires nodes[n].VarN? && nodes[n].host == name && name !in names
    ensures nodes[n].id !in ids
  {
    assert !ReadFrom(nodes, names, name, n, nodes[n].id);
  }

  lemma {:induction false} ScanReads(u: Ila, s: Scope, U: set<Node>, nodes: seq<Node>, ast: seq<JExpr>, idx: map<nat,
                                     nat>,
                                     names: set<string>, ids: IdMap, j: JIla, n: nat)
    requires ListsOf(j, u) && Scanning(u, s, U, nodes, ast, idx, names) && n <= |nodes|
    requires VarsReadTo(nodes, ids, names, u.name, 0)
    ensures VarsReadTo(nodes, ScanIds(j, ast, n, ids), names, u.name, n)
  {
    if n > 0 {
      var m: nat := n - 1;
      var prev := ScanIds(j, ast, m, ids);
      ScanReads(u, s, U, nodes, ast, idx, names, ids, j, m);
      CreatesOwn(u, s, U, nodes, ast, idx, names, prev, j, m);
      ReadOneMore(u.name, U, nodes, ast, idx, names, prev, j, m);
    }
  }

  lemma ReadOneMore(name: string, U: set<Node>, nodes: seq<Node>, ast: seq<JExpr>, idx: map<nat, nat>,
                    names: set<string>, prev: IdMap, j: JIla, m: nat)
    requires Listed(nodes, ast, idx, U) && m < |nodes| && VarsReadTo(nodes, prev, names, name, m) && j.name == name
    requires Creates(j, ast[m], prev) <==> nodes[m].VarN? && nodes[m].host == name
    ensures
      var next := if Creates(j, ast[m], prev) then prev[ast[m].id := NewVar(j, ast[m])] else prev;
      VarsReadTo(nodes, next, names, name, m + 1)
  {
    var next := if Creates(j, ast[m], prev) then prev[ast[m].id := NewVar(j, ast[m])] else prev;
    var k1: nat := m + 1;
    assert ast[m] == Unit(nodes[m]);
    forall id {:trigger id in next} | id in next ensures ReadFrom(nodes, names, name, k1, id) {
      if id in prev {
        assert ReadFrom(nodes, names, name, m, id);
        var k :| 0 <= k < |nodes| && nodes[k].id == id && Due(nodes[k], k, names, name, m);
        assert Due(nodes[k], k, names, name, k1);
      } else {
        assert Due(nodes[m], m, names, name, k1);
      }
    }
    forall k {:trigger nodes[k]} | 0 <= k < |nodes| && Due(nodes[k], k, names, name, k1)
      ensures nodes[k].id in next && next[nodes[k].id] == Forget(nodes[k])
    {
      assert k != m ==> nodes[k].id != nodes[m].id;
    }
  }

  /** The expressions of the listed nodes that are in a list. */
  function Pick(nodes: seq<Node>, n: nat, own: seq<Node>): seq<RExpr>
    requires n <= |nodes|
  {
    if n == 0 then [] else Pick(nodes, n - 1, own) + (if nodes[n - 1] in own then [Forget(nodes[n - 1])] else [])
  }

  /** The first c nodes of a list are those with an index below n. */
  ghost predicate SplitAt(idx: map<nat, nat>, own: seq<Node>, n: int, c: int) {
    forall i {:trigger own[i]} :: 0 <= i < |own| ==> own[i].id in idx && (idx[own[i].id] < n <==> i < c)
  }

  lemma {:induction false} SplitHit(idx: map<nat, nat>, own: seq<Node>, m: nat, d: nat)
    requires Ascending(idx, own) && SplitAt(idx, own, m + 1, d + 1) && d < |own| && idx[own[d].id] == m
    ensures SplitAt(idx, own, m, d)
  {
    forall i {:trigger own[i]} | 0 <= i < |own| ensures idx[own[i].id] < m <==> i < d {
      if i < d { assert idx[own[i].id] < idx[own[d].id]; }
      if i > d { assert idx[own[d].id] < idx[own[i].id]; }
    }
  }

  lemma {:induction false} SplitMiss(idx: map<nat, nat>, own: seq<Node>, m: nat, c: nat)
    requires Ascending(idx, own) && SplitAt(idx, own, m + 1, c) && c <= |own|
    requires c > 0 ==> idx[own[c - 1].id] != m
    ensures SplitAt(idx, own, m, c) && forall i {:trigger own[i]} :: 0 <= i < |own| ==> idx[own[i].id] != m
  {
    forall i {:trigger own[i]} | 0 <= i < |own| ensures idx[own[i].id] != m {
      if i < c - 1 { assert idx[own[i].id] < idx[own[c - 1].id]; }
    }
  }

  lemma {:induction false} PickPush(nodes: seq<Node>, own: seq<Node>, m: nat, d: nat)
    requires m < |nodes| && d < |own| && nodes[m] == own[d] && Pick(nodes, m, own) == ForgetAll(own[..d])
    ensures Pick(nodes, m + 1, own) == ForgetAll(own[..d + 1])
  {
    assert own[..d + 1] == own[..d] + [own[d]];
    ForgetPush(own[..d], own[d]);
  }

  /** Nodes are where the index says. */
  ghost predicate Placed(nodes: seq<Node>, idx: map<nat, nat>, own: seq<Node>) {
    && (forall k {:trigger nodes[k]} :: 0 <= k < |nodes| ==> nodes[k].id in idx && idx[nodes[k].id] == k)
    && (forall i {:trigger own[i]} :: 0 <= i < |own| ==>
          own[i].id in idx && idx[own[i].id] < |nodes| && nodes[idx[own[i].id]] == own[i])
  }

  lemma {:induction false} ListedArePlaced(nodes: seq<Node>, ast: seq<JExpr>, idx: map<nat, nat>, U: set<Node>,
                                           own: seq<Node>)
    requires Listed(nodes, ast, idx, U) && AllListed(own, nodes)
    ensures Placed(nodes, idx, own)
  {
    forall i {:trigger own[i]} | 0 <= i < |own|
      ensures own[i].id in idx && idx[own[i].id] < |nodes| && nodes[idx[own[i].id]] == own[i]
    {
      var k :| 0 <= k < |nodes| && nodes[k] == own[i];
    }
  }

  /** In a list with unique ids, what ascends is picked in its order. */
  lemma {:induction false} PickIsOwn(nodes: seq<Node>, idx: map<nat, nat>, own: seq<Node>, n: nat, c: nat)
    requires Placed(nodes, idx, own) && Ascending(idx, own) && n <= |nodes| && c <= |own|
    requires SplitAt(idx, own, n, c)
    ensures Pick(nodes, n, own) == ForgetAll(own[..c])
  {
    if n == 0 {
      assert c == 0 by { assert |own| > 0 ==> !(idx[own[0].id] < 0); }
    } else {
      var m: nat := n - 1;
      if c > 0 && idx[own[c - 1].id] == m {
        var d: nat := c - 1;
        SplitHit(idx, own, m, d);
        PickIsOwn(nodes, idx, own, m, d);
        PickPush(nodes, own, m, d);
      } else {
        SplitMiss(idx, own, m, c);
        PickIsOwn(nodes, idx, own, m, c);
        NodeIsElsewhere(nodes, idx, own, m);
        PickSkip(nodes, own, m);
      }
    }
  }

  lemma {:induction false} PickSkip(nodes: seq<Node>, own: seq<Node>, m: nat)
    requires m < |nodes| && nodes[m] !in own
    ensures Pick(nodes, m + 1, own) == Pick(nodes, m, own)
  {
  }

  lemma {:induction false} NodeIsElsewhere(nodes: seq<Node>, idx: map<nat, nat>, own: seq<Node>, m: nat)
    requires Placed(nodes, idx, own) && m < |nodes|
    requires forall i {:trigger own[i]} :: 0 <= i < |own| ==> idx[own[i].id] != m
    ensures nodes[m] !in own
  {
    assert idx[nodes[m].id] == m;
  }

  lemma {:induction false} ForgetPush(ns: seq<Node>, n: Node)
    ensures ForgetAll(ns + [n]) == ForgetAll(ns) + [Forget(n)]
  {
    var all := ns + [n];
    var a, b := ForgetAll(all), ForgetAll(ns) + [Forget(n)];
    forall i | 0 <= i < |a| ensures a[i] == b[i] {
      assert a[i] == Forget(all[i]);
    }
  }

  lemma {:induction false} ForgetJoin(a: seq<Node>, b: seq<Node>)
    ensures ForgetAll(a + b) == ForgetAll(a) + ForgetAll(b)
  {
    var c := a + b;
    var l, r := ForgetAll(c), ForgetAll(a) + ForgetAll(b);
    forall i | 0 <= i < |l| ensures l[i] == r[i] {
      assert l[i] == Forget(c[i]);
    }
  }

  /** Of a list that starts with the parent's, exactly the rest is the ILA's own. */
  lemma OwnPart(u: Ila, parent: seq<Node>, vs: seq<Node>, names: set<string>, v: Node)
    requires Inherits(u.name, parent, vs) && u.name !in names
    requires forall k {:trigger parent[k]} :: 0 <= k < |parent| ==> parent[k].VarN? && parent[k].host in names
    ensures v in vs[|parent|..] <==> v in vs && v.VarN? && v.host == u.name
  {
    if v in vs[|parent|..] {
      var k :| 0 <= k < |vs| - |parent| && vs[|parent|..][k] == v;
      assert vs[|parent| + k] == v;
    }
    if v in vs && v.VarN? && v.host == u.name {
      var k :| 0 <= k < |vs| && vs[k] == v;
      assert vs[|parent|..][k - |parent|] == v;
    }
  }

  lemma {:induction false} StatesPicked(u: Ila, s: Scope, U: set<Node>, nodes: seq<Node>, ast: seq<JExpr>,
                                        idx: map<nat, nat>,
                                        names: set<string>, ids: IdMap, j: JIla, n: nat)
    requires ListsOf(j, u) && Scanning(u, s, U, nodes, ast, idx, names) && n <= |nodes|
    requires VarsReadTo(nodes, ids, names, u.name, 0)
    ensures ScanStates(j, ast, n, ids) == Pick(nodes, n, u.states[|s.states|..])
  {
    if n > 0 {
      var m: nat := n - 1;
      StatesPicked(u, s, U, nodes, ast, idx, names, ids, j, m);
      NextStatePicked(u, s, U, nodes, ast, idx, names, ids, j, m);
    }
  }

  lemma {:induction false} NextStatePicked(u: Ila, s: Scope, U: set<Node>, nodes: seq<Node>, ast: seq<JExpr>,
                                           idx: map<nat, nat>, names: set<string>, ids: IdMap, j: JIla, m: nat)
    requires ListsOf(j, u) && Scanning(u, s, U, nodes, ast, idx, names) && m < |nodes|
    requires VarsReadTo(nodes, ids, names, u.name, 0)
    requires ScanStates(j, ast, m, ids) == Pick(nodes, m, u.states[|s.states|..])
    ensures ScanStates(j, ast, m + 1, ids) == Pick(nodes, m + 1, u.states[|s.states|..])
  {
    StateTurn(u, s, U, nodes, ast, idx, names, ids, j, m);
    StatesStep(nodes, j, ast, m, ids, u.states[|s.states|..]);
  }

  lemma StateTurn(u: Ila, s: Scope, U: set<Node>, nodes: seq<Node>, ast: seq<JExpr>, idx: map<nat, nat>,
                  names: set<string>, ids: IdMap, j: JIla, m: nat)
    requires ListsOf(j, u) && Scanning(u, s, U, nodes, ast, idx, names) && m < |nodes|
    requires VarsReadTo(nodes, ids, names, u.name, 0)
    ensures Creates(j, ast[m], ScanIds(j, ast, m, ids)) && ast[m].id in j.states <==> nodes[m] in u.states[|s.states|..]
    ensures nodes[m] in u.states[|s.states|..] ==> NewVar(j, ast[m]) == Forget(nodes[m])
  {
    var prev := ScanIds(j, ast, m, ids);
    ScanReads(u, s, U, nodes, ast, idx, names, ids, j, m);
    CreatesOwn(u, s, U, nodes, ast, idx, names, prev, j, m);
    StatePicked(u, s, U, nodes, ast, idx, names, prev, j, m);
  }

  lemma StatesStep(nodes: seq<Node>, j: JIla, ast: seq<JExpr>, m: nat, ids: IdMap, own: seq<Node>)
    requires m < |nodes| == |ast| && ScanStates(j, ast, m, ids) == Pick(nodes, m, own)
    requires Creates(j, ast[m], ScanIds(j, ast, m, ids)) && ast[m].id in j.states <==> nodes[m] in own
    requires nodes[m] in own ==> NewVar(j, ast[m]) == Forget(nodes[m])
    ensures ScanStates(j, ast, m + 1, ids) == Pick(nodes, m + 1, own)
  {
  }

  lemma InputsStep(nodes: seq<Node>, j: JIla, ast: seq<JExpr>, m: nat, ids: IdMap, own: seq<Node>)
    requires m < |nodes| == |ast| && ScanInputs(j, ast, m, ids) == Pick(nodes, m, own)
    requires Creates(j, ast[m], ScanIds(j, ast, m, ids)) && ast[m].id !in j.states <==> nodes[m] in own
    requires nodes[m] in own ==> NewVar(j, ast[m]) == Forget(nodes[m])
    ensures ScanInputs(j, ast, m + 1, ids) == Pick(nodes, m + 1, own)
  {
  }

  lemma StatePicked(u: Ila, s: Scope, U: set<Node>, nodes: seq<Node>, ast: seq<JExpr>, idx: map<nat, nat>,
                    names: set<string>, prev: IdMap, j: JIla, m: nat)
    requires ListsOf(j, u) && Scanning(u, s, U, nodes, ast, idx, names) && m < |nodes|
    requires Creates(j, ast[m], prev) <==> nodes[m].VarN? && nodes[m].host == u.name
    ensures Creates(j, ast[m], prev) && ast[m].id in j.states <==> nodes[m] in u.states[|s.states|..]
    ensures Creates(j, ast[m], prev) ==> NewVar(j, ast[m]) == Forget(nodes[m])
  {
    var v := nodes[m];
    assert v in nodes && v in U && ast[m] == Unit(v);
    ListId(u.states, U, v);
    OwnPart(u, s.states, u.states, s.names, v);
  }

  lemma {:induction false} InputsPicked(u: Ila, s: Scope, U: set<Node>, nodes: seq<Node>, ast: seq<JExpr>,
                                        idx: map<nat, nat>,
                                        names: set<string>, ids: IdMap, j: JIla, n: nat)
    requires ListsOf(j, u) && Scanning(u, s, U, nodes, ast, idx, names) && n <= |nodes|
    requires VarsReadTo(nodes, ids, names, u.name, 0)
    ensures ScanInputs(j, ast, n, ids) == Pick(nodes, n, u.inputs[|s.inputs|..])
  {
    if n > 0 {
      var m: nat := n - 1;
      InputsPicked(u, s, U, nodes, ast, idx, names, ids, j, m);
      NextInputPicked(u, s, U, nodes, ast, idx, names, ids, j, m);
    }
  }

  lemma {:induction false} NextInputPicked(u: Ila, s: Scope, U: set<Node>, nodes: seq<Node>, ast: seq<JExpr>,
                                           idx: map<nat, nat>, names: set<string>, ids: IdMap, j: JIla, m: nat)
    requires ListsOf(j, u) && Scanning(u, s, U, nodes, ast, idx, names) && m < |nodes|
    requires VarsReadTo(nodes, ids, names, u.name, 0)
    requires ScanInputs(j, ast, m, ids) == Pick(nodes, m, u.inputs[|s.inputs|..])
    ensures ScanInputs(j, ast, m + 1, ids) == Pick(nodes, m + 1, u.inputs[|s.inputs|..])
  {
    InputTurn(u, s, U, nodes, ast, idx, names, ids, j, m);
    InputsStep(nodes, j, ast, m, ids, u.inputs[|s.inputs|..]);
  }

  lemma InputTurn(u: Ila, s: Scope, U: set<Node>, nodes: seq<Node>, ast: seq<JExpr>, idx: map<nat, nat>,
                  names: set<string>, ids: IdMap, j: JIla, m: nat)
    requires ListsOf(j, u) && Scanning(u, s, U, nodes, ast, idx, names) && m < |nodes|
    requires VarsReadTo(nodes, ids, names, u.name, 0)
    ensures Creates(j, ast[m], ScanIds(j, ast, m, ids)) && ast[m].id !in j.states <==> nodes[m] in u.inputs[|s.inputs|..]
    ensures nodes[m] in u.inputs[|s.inputs|..] ==> NewVar(j, ast[m]) == Forget(nodes[m])
  {
    var prev := ScanIds(j, ast, m, ids);
    ScanReads(u, s, U, nodes, ast, idx, names, ids, j, m);
    CreatesOwn(u, s, U, nodes, ast, idx, names, prev, j, m);
    InputPicked(u, s, U, nodes, ast, idx, names, prev, j, m);
  }

  lemma InputPicked(u: Ila, s: Scope, U: set<Node>, nodes: seq<Node>, ast: seq<JExpr>, idx: map<nat, nat>,
                    names: set<string>, prev: IdMap, j: JIla, m: nat)
    requires ListsOf(j, u) && Scanning(u, s, U, nodes, ast, idx, names) && m < |nodes|
    requires Creates(j, ast[m], prev) <==> nodes[m].VarN? && nodes[m].host == u.name
    ensures Creates(j, ast[m], prev) && ast[m].id !in j.states <==> nodes[m] in u.inputs[|s.inputs|..]
    ensures Creates(j, ast[m], prev) ==> NewVar(j, ast[m]) == Forget(nodes[m])
  {
    var v := nodes[m];
    assert v in nodes && v in U && ast[m] == Unit(v);
    ListId(u.states, U, v);
    ListId(u.inputs, U, v);
    SplitDistinct(u.inputs, u.states);
    OwnPart(u, s.inputs, u.inputs, s.names, v);
  }

  /** After the scan the ILA has all variables of the original, in the same order. */
  lemma ScanIsOwn(u: Ila, s: Scope, U: set<Node>, nodes: seq<Node>, ast: seq<JExpr>, idx: map<nat, nat>,
                  names: set<string>, ids: IdMap, j: JIla)
    requires ListsOf(j, u) && Scanning(u, s, U, nodes, ast, idx, names) && VarsReadTo(nodes, ids, names, u.name, 0)
    requires Written(u, s, nodes, idx)
    ensures ForgetAll(s.states) + ScanStates(j, ast, |ast|, ids) == ForgetAll(u.states)
    ensures ForgetAll(s.inputs) + ScanInputs(j, ast, |ast|, ids) == ForgetAll(u.inputs)
  {
    StatesPicked(u, s, U, nodes, ast, idx, names, ids, j, |nodes|);
    InputsPicked(u, s, U, nodes, ast, idx, names, ids, j, |nodes|);
    AllPicked(U, nodes, ast, idx, s.states, u.states);
    AllPicked(U, nodes, ast, idx, s.inputs, u.inputs);
  }

  lemma {:induction false} AllPicked(U: set<Node>, nodes: seq<Node>, ast: seq<JExpr>, idx: map<nat, nat>,
                                     parent: seq<Node>, vs: seq<Node>)
    requires Listed(nodes, ast, idx, U) && AllListed(vs, nodes) && |parent| <= |vs| && vs[..|parent|] == parent
    requires Ascending(idx, vs[|parent|..])
    ensures ForgetAll(parent) + Pick(nodes, |nodes|, vs[|parent|..]) == ForgetAll(vs)
  {
    RestIsPlaced(U, nodes, ast, idx, parent, vs);
    AllOwnPicked(nodes, idx, vs[|parent|..]);
    ForgetRest(parent, vs);
  }

  lemma {:induction false} RestIsPlaced(U: set<Node>, nodes: seq<Node>, ast: seq<JExpr>, idx: map<nat, nat>,
                                        parent: seq<Node>, vs: seq<Node>)
    requires Listed(nodes, ast, idx, U) && AllListed(vs, nodes) && |parent| <= |vs|
    ensures Placed(nodes, idx, vs[|parent|..])
  {
    var own := vs[|parent|..];
    forall k {:trigger own[k]} | 0 <= k < |own| ensures own[k] in nodes { assert own[k] == vs[|parent| + k]; }
    ListedArePlaced(nodes, ast, idx, U, own);
  }

  lemma {:induction false} ForgetRest(parent: seq<Node>, vs: seq<Node>)
    requires |parent| <= |vs| && vs[..|parent|] == parent
    ensures ForgetAll(parent) + ForgetAll(vs[|parent|..]) == ForgetAll(vs)
  {
    ForgetJoin(parent, vs[|parent|..]);
    assert vs == parent + vs[|parent|..];
  }

  lemma {:induction false} AllOwnPicked(nodes: seq<Node>, idx: map<nat, nat>, own: seq<Node>)
    requires Placed(nodes, idx, own) && Ascending(idx, own)
    ensures Pick(nodes, |nodes|, own) == ForgetAll(own)
  {
    PickIsOwn(nodes, idx, own, |nodes|, |own|);
    assert own[..|own|] == own;
  }

  /** Exactly the variables of the given ILAs are read. */
  ghost predicate VarsRead(nodes: seq<Node>, ids: IdMap, names: set<string>) {
    VarsReadTo(nodes, ids, names, "", 0)
  }

  lemma NoneDue(nodes: seq<Node>, ids: IdMap, names: set<string>, name: string)
    requires VarsRead(nodes, ids, names)
    ensures VarsReadTo(nodes, ids, names, name, 0)
  {
    forall k {:trigger nodes[k]} | 0 <= k < |nodes| && Due(nodes[k], k, names, name, 0)
      ensures nodes[k].id in ids && ids[nodes[k].id] == Forget(nodes[k])
    {
      assert Due(nodes[k], k, names, "", 0);
    }
    forall id {:trigger id in ids} | id in ids ensures ReadFrom(nodes, names, name, 0, id) {
      assert ReadFrom(nodes, names, "", 0, id);
      var k :| 0 <= k < |nodes| && nodes[k].id == id && Due(nodes[k], k, names, "", 0);
      assert Due(nodes[k], k, names, name, 0);
    }
  }

  lemma AllDue(nodes: seq<Node>, ids: IdMap, names: set<string>, name: string)
    requires VarsReadTo(nodes, ids, names, name, |nodes|)
    ensures VarsRead(nodes, ids, names + {name})
  {
    forall k {:trigger nodes[k]} | 0 <= k < |nodes| && Due(nodes[k], k, names + {name}, "", 0)
      ensures nodes[k].id in ids && ids[nodes[k].id] == Forget(nodes[k])
    {
      assert Due(nodes[k], k, names, name, |nodes|);
    }
    forall id {:trigger id in ids} | id in ids ensures ReadFrom(nodes, names + {name}, "", 0, id) {
      assert ReadFrom(nodes, names, name, |nodes|, id);
      var k :| 0 <= k < |nodes| && nodes[k].id == id && Due(nodes[k], k, names, name, |nodes|);
      assert Due(nodes[k], k, names + {name}, "", 0);
    }
  }

  // ---------- expressions ----------

  /** What is read is right, and all variables and the first n nodes are read. */
  ghost predicate ReadTo(nodes: seq<Node>, ids: IdMap, n: nat) {
    && (forall k {:trigger nodes[k]} :: 0 <= k < |nodes| && (nodes[k].VarN? || k < n) ==> nodes[k].id in ids)
    && (forall k {:trigger nodes[k]} :: 0 <= k < |nodes| && nodes[k].id in ids ==> ids[nodes[k].id] == Forget(nodes[k]))
  }

  lemma VarsThenNodes(nodes: seq<Node>, ast: seq<JExpr>, idx: map<nat, nat>, U: set<Node>, ids: IdMap,
                      names: set<string>)
    requires Listed(nodes, ast, idx, U) && VarsRead(nodes, ids, names)
    requires forall k {:trigger nodes[k]} :: 0 <= k < |nodes| && nodes[k].VarN? ==> nodes[k].host in names
    ensures ReadTo(nodes, ids, 0)
  {
    forall k {:trigger nodes[k]} | 0 <= k < |nodes| && nodes[k].id in ids ensures ids[nodes[k].id] == Forget(nodes[k]) {
      assert ReadFrom(nodes, names, "", 0, nodes[k].id);
      var i :| 0 <= i < |nodes| && nodes[i].id == nodes[k].id && Due(nodes[i], i, names, "", 0);
      assert i == k;
    }
  }

  /** Entry n can be read, and gives the node's expression. */
  lemma NodeReads(nodes: seq<Node>, ast: seq<JExpr>, idx: map<nat, nat>, U: set<Node>, ids: IdMap, n: nat)
    requires Listed(nodes, ast, idx, U) && ReadTo(nodes, ids, n) && n < |nodes|
    ensures Readable(ids, ast[n]) && (nodes[n].id !in ids ==> Read(ids, ast[n]) == Forget(nodes[n]))
    ensures ReadTo(nodes, if ast[n].id in ids then ids else ids[ast[n].id := Read(ids, ast[n])], n + 1)
  {
    var v := nodes[n];
    assert ast[n] == Unit(v);
    assert ArgsBefore(nodes, n);
    if v.OpN? {
      forall k {:trigger v.args[k]} | 0 <= k < |v.args|
        ensures v.args[k].id in ids && ids[v.args[k].id] == Forget(v.args[k])
      {
        assert v.args[k] in Args(v);
        var i :| 0 <= i < n && nodes[..n][i] == v.args[k];
        assert nodes[i] == v.args[k];
      }
      ArgsRead(ids, v.args);
    }
    var next := if v.id in ids then ids else ids[v.id := Read(ids, ast[n])];
    forall k {:trigger nodes[k]} | 0 <= k < |nodes| ensures k != n ==> nodes[k].id != v.id {
    }
  }

  lemma ArgsRead(ids: IdMap, args: seq<Node>)
    requires forall k {:trigger args[k]} :: 0 <= k < |args| ==> args[k].id in ids && ids[args[k].id] == Forget(args[k])
    ensures forall k {:trigger Ids(args)[k]} :: 0 <= k < |args| ==> Ids(args)[k] in ids
    ensures LookUpAll(ids, Ids(args)) == ForgetAll(args)
  {
    forall k {:trigger Ids(args)[k]} | 0 <= k < |args| ensures Ids(args)[k] in ids && ids[Ids(args)[k]] == Forget(args[k]) {
      assert Ids(args)[k] == args[k].id;
    }
  }

  /** Every listed node is read as its expression. */
  ghost predicate AllRead(nodes: seq<Node>, ids: IdMap) {
    forall n {:trigger n in nodes} :: n in nodes ==> n.id in ids && ids[n.id] == Forget(n)
  }

  // ---------- the ILAs that are read ----------

  function FlatUpdates(i: InstrN, states: seq<Node>, n: nat): map<string, RExpr>
    requires n <= |states| && AllVars(states)
  {
    if n == 0 then map[] else FlatUpdates(i, states, n - 1)[states[n - 1].name := Forget(Next(i, states[n - 1]))]
  }

  /** An instruction with the next-state expression of every state: an unchanged state is its own. */
  function FlatInstr(i: InstrN, states: seq<Node>): RInstr
    requires AllVars(states)
  {
    RInstr(i.name, Forget(i.decode), FlatUpdates(i, states, |states|))
  }

  function FlatInstrs(is_: seq<InstrN>, states: seq<Node>): (rs: seq<RInstr>)
    requires AllVars(states)
    ensures |rs| == |is_| && forall k {:trigger rs[k]} {:trigger is_[k]} :: 0 <= k < |rs| ==> rs[k] == FlatInstr(is_[k], states)
  {
    seq(|is_|, k requires 0 <= k < |is_| => FlatInstr(is_[k], states))
  }

  function ChildNames(u: Ila): (cs: seq<string>)
    ensures |cs| == |u.children| && forall k {:trigger cs[k]} {:trigger u.children[k]} :: 0 <= k < |cs| ==> cs[k] == u.children[k].name
  {
    seq(|u.children|, k requires 0 <= k < |u.children| => u.children[k].name)
  }

  /** The ILA with its variables only. */
  function Bare(u: Ila): RIla {
    RIla(u.name, ForgetAll(u.inputs), ForgetAll(u.states), None, None, [], [], ChildNames(u))
  }

  /** The ILA with everything. */
  function Flat(u: Ila): RIla
    requires VarLists(u)
  {
    RIla(u.name, ForgetAll(u.inputs), ForgetAll(u.states),
         Some(if u.fetch.Some? then Forget(u.fetch.value) else DEFAULT_FETCH), Some(Forget(u.valid)),
         FlatInstrs(u.instrs, u.states), ForgetAll(u.init), ChildNames(u))
  }

  ghost predicate BareIn(u: Ila, ilas: map<string, RIla>) {
    && u.name in ilas && ilas[u.name] == Bare(u)
    && forall k {:trigger u.children[k]} :: 0 <= k < |u.children| ==> BareIn(u.children[k], ilas)
  }

  /** The ILAs that are read are the ILAs of the hierarchy. */
  ghost predicate FlatIn(u: Ila, ilas: map<string, RIla>)
    requires VarLists(u)
  {
    && u.name in ilas && ilas[u.name] == Flat(u)
    && forall k {:trigger u.children[k]} :: 0 <= k < |u.children| ==> FlatIn(u.children[k], ilas)
  }

  /** Only the ILAs of the given names differ. */
  ghost predicate SameBut(a: map<string, RIla>, b: map<string, RIla>, names: set<string>) {
    forall m {:trigger m in a} {:trigger m in b} :: m !in names ==> (m in a <==> m in b) && (m in a ==> a[m] == b[m])
  }

  lemma {:induction false} BareKept(u: Ila, a: map<string, RIla>, b: map<string, RIla>, names: set<string>)
    requires BareIn(u, a) && SameBut(a, b, names) && Names(u) !! names
    ensures BareIn(u, b)
    decreases u
  {
    assert u.name in Names(u);
    forall k {:trigger u.children[k]} | 0 <= k < |u.children| ensures BareIn(u.children[k], b) {
      assert Names(u.children[k]) <= NamesOf(u.children);
      BareKept(u.children[k], a, b, names);
    }
  }

  lemma {:induction false} FlatKept(u: Ila, a: map<string, RIla>, b: map<string, RIla>, names: set<string>)
    requires VarLists(u) && FlatIn(u, a) && SameBut(a, b, names) && Names(u) !! names
    ensures FlatIn(u, b)
    decreases u
  {
    assert u.name in Names(u);
    forall k {:trigger u.children[k]} | 0 <= k < |u.children| ensures FlatIn(u.children[k], b) {
      assert Names(u.children[k]) <= NamesOf(u.children);
      FlatKept(u.children[k], a, b, names);
    }
  }

  // ---------- one ILA after another ----------

  /** A written hierarchy. */
  ghost predicate Reading(u: Ila, s: Scope, U: set<Node>, nodes: seq<Node>, ast: seq<JExpr>, idx: map<nat, nat>) {
    && Graph(U) && Listed(nodes, ast, idx, U) && WellFormed(u, s, U) && ScopeOk(s) && Declared(u, U) && VarLists(u)
    && Written(u, s, nodes, idx)
  }

  lemma ChildReading(u: Ila, s: Scope, U: set<Node>, nodes: seq<Node>, ast: seq<JExpr>, idx: map<nat, nat>, k: nat)
    requires Reading(u, s, U, nodes, ast, idx) && k < |u.children|
    ensures Reading(u.children[k], Inner(s, u), U, nodes, ast, idx)
  {
    InnerOk(u, s);
    DeclaredChild(u, s, U, k);
  }

  /** What a child inherits is there. */
  ghost predicate ParentHas(parent: Option<string>, s: Scope, ilas: map<string, RIla>) {
    match parent
    case None => s.inputs == [] && s.states == []
    case Some(p) => p in ilas && ilas[p].inputs == ForgetAll(s.inputs) && ilas[p].states == ForgetAll(s.states)
  }

  /** The parent has one child more. */
  ghost predicate ParentGets(parent: Option<string>, a: map<string, RIla>, b: map<string, RIla>, name: string) {
    parent.Some? ==>
      && parent.value in a && parent.value in b
      && b[parent.value] == a[parent.value].(children := a[parent.value].children + [name])
  }

  function ParentName(parent: Option<string>): set<string> {
    if parent.Some? then {parent.value} else {}
  }

  /** The ILA and its first k children have their variables. */
  ghost predicate VarsDone(u: Ila, k: nat, parent: Option<string>, a: map<string, RIla>, b: map<string, RIla>)
    requires k <= |u.children|
  {
    && b.Keys == a.Keys + {u.name} + NamesOf(u.children[..k])
    && u.name in b && b[u.name] == Bare(u).(children := ChildNames(u)[..k])
    && (forall c {:trigger u.children[c]} :: 0 <= c < k ==> BareIn(u.children[c], b))
    && ParentGets(parent, a, b, u.name) && SameBut(a, b, Names(u) + ParentName(parent))
  }

  /** ... and all their variables have been read. */
  ghost predicate VarsUpTo(u: Ila, k: nat, parent: Option<string>, a: map<string, RIla>, b: map<string, RIla>,
                           nodes: seq<Node>, ids: IdMap)
    requires k <= |u.children|
  {
    VarsDone(u, k, parent, a, b) && VarsRead(nodes, ids, b.Keys)
  }

  lemma {:induction false} NamesPush(us: seq<Ila>, u: Ila)
    ensures NamesOf(us + [u]) == NamesOf(us) + Names(u)
  {
    if us == [] {
      assert us + [u] == [u];
    } else {
      NamesPush(us[1..], u);
      assert (us + [u])[1..] == us[1..] + [u];
    }
  }

  /** The next child is not read yet. */
  lemma ChildUnread(u: Ila, s: Scope, U: set<Node>, k: nat, names: set<string>)
    requires WellFormed(u, s, U) && k < |u.children| && Names(u) !! names
    ensures Names(u.children[k]) !! names + {u.name} + NamesOf(u.children[..k])
  {
    var c := u.children[k];
    assert Names(c) <= NamesOf(u.children);
    EarlierUnlike(u.children, k, k);
  }

  lemma {:induction false} EarlierUnlike(us: seq<Ila>, k: nat, n: nat)
    requires n <= k < |us|
    requires forall i, j {:trigger us[i], us[j]} :: 0 <= i < j < |us| ==> Names(us[i]) !! Names(us[j])
    ensures Names(us[k]) !! NamesOf(us[..n])
  {
    if n > 0 {
      var m: nat := n - 1;
      EarlierUnlike(us, k, m);
      NamesPush(us[..m], us[m]);
      assert us[..n] == us[..m] + [us[m]];
      assert Names(us[m]) !! Names(us[k]);
    }
  }

  lemma SameTwice(a: map<string, RIla>, b: map<string, RIla>, c: map<string, RIla>, x: set<string>, y: set<string>,
                  z: set<string>)
    requires SameBut(a, b, x) && SameBut(b, c, y) && x <= z && y <= z
    ensures SameBut(a, c, z)
  {
  }

  /** A parent outside the hierarchy is not touched by its grandchildren. */
  lemma ParentKept(parent: Option<string>, was: map<string, RIla>, a: map<string, RIla>, b: map<string, RIla>,
                   name: string,
                   names: set<string>)
    requires ParentGets(parent, was, a, name) && SameBut(a, b, names) && (parent.Some? ==> parent.value !in names)
    ensures ParentGets(parent, was, b, name)
  {
  }

  lemma BareStep(u: Ila, s: Scope, U: set<Node>, k: nat, a: map<string, RIla>, b: map<string, RIla>)
    requires WellFormed(u, s, U) && k < |u.children| && BareIn(u.children[k], b)
    requires forall c {:trigger u.children[c]} :: 0 <= c < k ==> BareIn(u.children[c], a)
    requires SameBut(a, b, Names(u.children[k]) + {u.name})
    ensures forall c {:trigger u.children[c]} :: 0 <= c < k + 1 ==> BareIn(u.children[c], b)
  {
    var c := u.children[k];
    forall i {:trigger u.children[i]} | 0 <= i < k + 1 ensures BareIn(u.children[i], b) {
      if i < k {
        assert Names(u.children[i]) !! Names(c);
        assert Names(u.children[i]) <= NamesOf(u.children);
        BareKept(u.children[i], a, b, Names(c) + {u.name});
      }
    }
  }

  lemma VarsStep(u: Ila, s: Scope, U: set<Node>, k: nat, parent: Option<string>, was: map<string, RIla>,
                 a: map<string, RIla>, b: map<string, RIla>)
    requires WellFormed(u, s, U) && k < |u.children| && VarsDone(u, k, parent, was, a) && Names(u) !! was.Keys
    requires BareIn(u.children[k], b) && b.Keys == a.Keys + Names(u.children[k])
    requires ParentGets(Some(u.name), a, b, u.children[k].name) && SameBut(a, b, Names(u.children[k]) + {u.name})
    ensures VarsDone(u, k + 1, parent, was, b)
  {
    BareStep(u, s, U, k, a, b);
    OneChildMore(u, k, parent, was, a, b);
    RestKept(u, k, parent, was, a, b);
  }

  lemma OneChildMore(u: Ila, k: nat, parent: Option<string>, was: map<string, RIla>, a: map<string, RIla>,
                     b: map<string, RIla>)
    requires k < |u.children| && VarsDone(u, k, parent, was, a)
    requires b.Keys == a.Keys + Names(u.children[k]) && ParentGets(Some(u.name), a, b, u.children[k].name)
    ensures b.Keys == was.Keys + {u.name} + NamesOf(u.children[..k + 1])
    ensures u.name in b && b[u.name] == Bare(u).(children := ChildNames(u)[..k + 1])
  {
    NamesPush(u.children[..k], u.children[k]);
    assert u.children[..k + 1] == u.children[..k] + [u.children[k]];
    NameMore(ChildNames(u), k, a[u.name].children, u.children[k].name);
  }

  lemma NameMore(names: seq<string>, k: nat, before: seq<string>, name: string)
    requires k < |names| && before == names[..k] && name == names[k]
    ensures before + [name] == names[..k + 1]
  {
  }

  lemma RestKept(u: Ila, k: nat, parent: Option<string>, was: map<string, RIla>, a: map<string, RIla>, b: map<string,
                 RIla>)
    requires k < |u.children| && VarsDone(u, k, parent, was, a) && Names(u) !! was.Keys
    requires SameBut(a, b, Names(u.children[k]) + {u.name})
    ensures ParentGets(parent, was, b, u.name) && SameBut(was, b, Names(u) + ParentName(parent))
  {
    var n := Names(u.children[k]) + {u.name};
    assert Names(u.children[k]) <= NamesOf(u.children);
    SameTwice(was, a, b, Names(u) + ParentName(parent), n, Names(u) + ParentName(parent));
    assert parent.Some? ==> parent.value in was.Keys;
    ParentKept(parent, was, a, b, u.name, n);
  }

  /** A child can be read after its elder brothers. */
  lemma ChildNext(u: Ila, s: Scope, U: set<Node>, nodes: seq<Node>, ast: seq<JExpr>, idx: map<nat, nat>, k: nat,
                  parent: Option<string>, was: map<string, RIla>, a: map<string, RIla>)
    requires Reading(u, s, U, nodes, ast, idx) && k < |u.children| && VarsDone(u, k, parent, was, a)
    requires Unread(u, s, was.Keys)
    ensures Reading(u.children[k], Inner(s, u), U, nodes, ast, idx) && DocIla(u).children[k] == DocIla(u.children[k])
    ensures Unread(u.children[k], Inner(s, u), a.Keys) && ParentHas(Some(u.name), Inner(s, u), a)
  {
    ChildReading(u, s, U, nodes, ast, idx, k);
    ChildUnread(u, s, U, k, was.Keys);
  }

  /** The ancestors are read, the ILA and what is below it are not. */
  predicate Unread(u: Ila, s: Scope, names: set<string>) {
    s.names <= names && Names(u) !! names
  }

  /** The scan for an ILA. */
  lemma ScanDone(u: Ila, s: Scope, U: set<Node>, nodes: seq<Node>, ast: seq<JExpr>, idx: map<nat, nat>, j: JIla,
                 names: set<string>, ids: IdMap)
    requires Reading(u, s, U, nodes, ast, idx) && ListsOf(j, u) && Unread(u, s, names) && VarsRead(nodes, ids, names)
    ensures VarsRead(nodes, ScanIds(j, ast, |ast|, ids), names + {u.name})
    ensures ForgetAll(s.states) + ScanStates(j, ast, |ast|, ids) == ForgetAll(u.states)
    ensures ForgetAll(s.inputs) + ScanInputs(j, ast, |ast|, ids) == ForgetAll(u.inputs)
  {
    assert u.name in Names(u);
    NoneDue(nodes, ids, names, u.name);
    ScanReads(u, s, U, nodes, ast, idx, names, ids, j, |nodes|);
    AllDue(nodes, ScanIds(j, ast, |ast|, ids), names, u.name);
    ScanIsOwn(u, s, U, nodes, ast, idx, names, ids, j);
  }

  /** A new ILA with the scanned variables is bare. */
  lemma OwnVars(u: Ila, s: Scope, U: set<Node>, nodes: seq<Node>, ast: seq<JExpr>, idx: map<nat, nat>, j: JIla,
                parent: Option<string>, was: map<string, RIla>, ids: IdMap, mid: map<string, RIla>, now: map<string, RIla>)
    requires Reading(u, s, U, nodes, ast, idx) && ListsOf(j, u) && Unread(u, s, was.Keys)
    requires VarsRead(nodes, ids, was.Keys)
    requires NewFor(u.name, s, parent, was, mid)
    requires Extended(u.name, mid, now, ScanInputs(j, ast, |ast|, ids), ScanStates(j, ast, |ast|, ids))
    ensures VarsUpTo(u, 0, parent, was, now, nodes, ScanIds(j, ast, |ast|, ids))
  {
    ScanDone(u, s, U, nodes, ast, idx, j, was.Keys, ids);
    assert now.Keys == was.Keys + {u.name};
    assert u.name in Names(u);
    BareFirst(u, parent, was, mid, now);
  }

  /** The lists of an ILA are extended. */
  ghost predicate Extended(name: string, a: map<string, RIla>, b: map<string, RIla>, inputs: seq<RExpr>,
                           states: seq<RExpr>) {
    && name in a
    && b == a[name := a[name].(inputs := a[name].inputs + inputs, states := a[name].states + states)]
  }

  /** The ILA is new, and its parent's child. */
  ghost predicate NewFor(name: string, s: Scope, parent: Option<string>, was: map<string, RIla>, mid: map<string,
                         RIla>) {
    && name !in was && (parent.Some? ==> parent.value in was)
    && ParentGets(parent, was, mid, name) && mid.Keys == was.Keys + {name} && SameBut(was, mid, {name} + ParentName(parent))
    && mid[name] == RIla(name, ForgetAll(s.inputs), ForgetAll(s.states), None, None, [], [], [])
  }

  lemma BareFirst(u: Ila, parent: Option<string>, was: map<string, RIla>, mid: map<string, RIla>, now: map<string,
                  RIla>)
    requires ParentGets(parent, was, mid, u.name) && u.name !in was && (parent.Some? ==> parent.value in was)
    requires mid.Keys == was.Keys + {u.name} && SameBut(was, mid, {u.name} + ParentName(parent))
    requires now == mid[u.name := Bare(u).(children := [])]
    ensures VarsDone(u, 0, parent, was, now)
  {
    assert u.children[..0] == [];
    SameTwice(was, mid, now, {u.name} + ParentName(parent), {u.name}, Names(u) + ParentName(parent));
    ParentKept(parent, was, mid, now, u.name, {u.name});
  }

  /** A new ILA, as its parent's child. */
  /** The ILA is new; as a child it inherits the variables of its parent. */
  ghost predicate Created(name: string, parent: Option<string>, a: map<string, RIla>, b: map<string, RIla>) {
    match parent
    case None => b == a[name := RIla(name, [], [], None, None, [], [], [])]
    case Some(pn) =>
      && pn in a
      && var p := a[pn];
         b == a[pn := p.(children := p.children + [name])][name := RIla(name, p.inputs, p.states, None, None, [], [], [])]
  }

  lemma OwnNameIsNew(u: Ila, s: Scope, names: set<string>)
    requires Unread(u, s, names)
    ensures u.name !in names
  {
    assert u.name in Names(u);
  }

  lemma NewIsFirst(name: string, s: Scope, parent: Option<string>, was: map<string, RIla>, mid: map<string, RIla>)
    requires name !in was && ParentHas(parent, s, was) && Created(name, parent, was, mid)
    ensures NewFor(name, s, parent, was, mid)
  {
  }

  lemma VarsAllDone(u: Ila, parent: Option<string>, a: map<string, RIla>, b: map<string, RIla>)
    requires VarsDone(u, |u.children|, parent, a, b)
    ensures BareIn(u, b) && b.Keys == a.Keys + Names(u)
  {
    assert u.children[..|u.children|] == u.children;
    assert ChildNames(u)[..|u.children|] == ChildNames(u);
  }

  // ---------- the rest of an ILA ----------

  /** Every group of the ILA is read. */
  lemma GroupsAreRead(u: Ila, nodes: seq<Node>, ids: IdMap)
    requires GroupsListed(u, nodes) && AllRead(nodes, ids)
    ensures u.fetch.Some? ==> u.fetch.value.id in ids && ids[u.fetch.value.id] == Forget(u.fetch.value)
    ensures u.valid.id in ids && ids[u.valid.id] == Forget(u.valid)
    ensures ListRead(u.init, ids)
    ensures forall k {:trigger u.instrs[k]} :: 0 <= k < |u.instrs| ==> ListRead(OneInstrExprs(u.instrs[k], u.states), ids)
  {
    GroupsAre(u);
    var f := Groups(u)[0];
    assert u.fetch.Some? ==> f[0] == u.fetch.value;
    var v := Groups(u)[1];
    assert v[0] == u.valid;
    assert AllListed(Groups(u)[2], nodes);
    forall k {:trigger u.instrs[k]} | 0 <= k < |u.instrs| ensures ListRead(OneInstrExprs(u.instrs[k], u.states), ids) {
      assert AllListed(Groups(u)[3 + k], nodes);
    }
  }

  ghost predicate ListRead(ns: seq<Node>, ids: IdMap) {
    forall k {:trigger ns[k]} :: 0 <= k < |ns| ==> ns[k].id in ids && ids[ns[k].id] == Forget(ns[k])
  }

  ghost predicate NextRead(i: InstrN, states: seq<Node>, ids: IdMap, k: nat)
    requires k < |states| && AllVars(states)
  {
    && UpdateFound(ids, UpdateIds(i, states, |states|), ForgetAll(states)[k])
    && Next(i, states[k]).id in ids && ids[Next(i, states[k]).id] == Forget(Next(i, states[k]))
  }

  /** An instruction of the document is found, and is read as the original. */
  lemma InstrIsRead(i: InstrN, states: seq<Node>, ids: IdMap)
    requires AllVars(states) && DistinctNames(states) && ListRead(OneInstrExprs(i, states), ids)
    ensures InstrFound(ids, DocInstr(i, states), ForgetAll(states))
    ensures ReadInstr(ids, DocInstr(i, states), ForgetAll(states)) == FlatInstr(i, states)
  {
    var es := OneInstrExprs(i, states);
    assert es[0] == i.decode;
    forall k: nat | k < |states| ensures NextRead(i, states, ids, k) {
      assert es[1 + k] == Next(i, states[k]);
      UpdateIdsHold(i, states, |states|, k);
    }
    forall k {:trigger ForgetAll(states)[k]} | 0 <= k < |states|
      ensures UpdateFound(ids, UpdateIds(i, states, |states|), ForgetAll(states)[k])
    {
      assert NextRead(i, states, ids, k);
    }
    UpdatesAreRead(i, states, ids, |states|);
  }

  lemma {:induction false} UpdateIsRead(i: InstrN, states: seq<Node>, ids: IdMap, m: nat)
    requires m < |states| && AllVars(states) && DistinctNames(states) && NextRead(i, states, ids, m)
    ensures
      var s := ForgetAll(states)[m];
      && UpdateFound(ids, UpdateIds(i, states, |states|), s) && s.name == states[m].name
      && ids[UpdateIds(i, states, |states|)[s.name]] == Forget(Next(i, states[m]))
  {
    UpdateIdsHold(i, states, |states|, m);
    assert ForgetAll(states)[m] == Forget(states[m]);
  }

  lemma {:induction false} OneUpdateMore(i: InstrN, states: seq<Node>, ids: IdMap, m: nat)
    requires m < |states| && AllVars(states) && DistinctNames(states) && NextRead(i, states, ids, m)
    requires forall k {:trigger ForgetAll(states)[k]} :: 0 <= k < m ==>
               UpdateFound(ids, UpdateIds(i, states, |states|), ForgetAll(states)[k])
    requires ReadUpdates(ids, UpdateIds(i, states, |states|), ForgetAll(states), m) == FlatUpdates(i, states, m)
    ensures UpdateFound(ids, UpdateIds(i, states, |states|), ForgetAll(states)[m])
    ensures ReadUpdates(ids, UpdateIds(i, states, |states|), ForgetAll(states), m + 1) == FlatUpdates(i, states, m + 1)
  {
    UpdateIsRead(i, states, ids, m);
  }

  lemma {:induction false} UpdatesAreRead(i: InstrN, states: seq<Node>, ids: IdMap, n: nat)
    requires n <= |states| && AllVars(states) && DistinctNames(states)
    requires forall k: nat :: k < |states| ==> NextRead(i, states, ids, k)
    requires forall k {:trigger ForgetAll(states)[k]} :: 0 <= k < n ==>
               UpdateFound(ids, UpdateIds(i, states, |states|), ForgetAll(states)[k])
    ensures ReadUpdates(ids, UpdateIds(i, states, |states|), ForgetAll(states), n) == FlatUpdates(i, states, n)
  {
    if n > 0 {
      var m: nat := n - 1;
      UpdatesAreRead(i, states, ids, m);
      OneUpdateMore(i, states, ids, m);
    }
  }

  // ---------- ILA after ILA ----------

  ghost predicate FlatDone(u: Ila, k: nat, a: map<string, RIla>, b: map<string, RIla>)
    requires VarLists(u) && k <= |u.children|
  {
    && u.name in b && b[u.name] == Flat(u) && SameBut(a, b, Names(u)) && a.Keys == b.Keys
    && (forall c {:trigger u.children[c]} :: 0 <= c < k ==> FlatIn(u.children[c], b))
    && (forall c {:trigger u.children[c]} :: k <= c < |u.children| ==> BareIn(u.children[c], b))
  }

  lemma FlatFirst(u: Ila, s: Scope, U: set<Node>, a: map<string, RIla>, b: map<string, RIla>)
    requires VarLists(u) && WellFormed(u, s, U) && BareIn(u, a) && b == a[u.name := Flat(u)]
    ensures FlatDone(u, 0, a, b)
  {
    forall c {:trigger u.children[c]} | 0 <= c < |u.children| ensures BareIn(u.children[c], b) {
      assert Names(u.children[c]) <= NamesOf(u.children);
      BareKept(u.children[c], a, b, {u.name});
    }
  }

  lemma FlatStep(u: Ila, s: Scope, U: set<Node>, k: nat, was: map<string, RIla>, a: map<string, RIla>, b: map<string,
                 RIla>)
    requires VarLists(u) && WellFormed(u, s, U) && k < |u.children| && FlatDone(u, k, was, a)
    requires FlatIn(u.children[k], b) && SameBut(a, b, Names(u.children[k])) && a.Keys == b.Keys
    ensures FlatDone(u, k + 1, was, b)
  {
    var n := Names(u.children[k]);
    assert n <= NamesOf(u.children);
    forall c {:trigger u.children[c]} | 0 <= c < k ensures FlatIn(u.children[c], b) {
      assert Names(u.children[c]) !! n;
      FlatKept(u.children[c], a, b, n);
    }
    forall c {:trigger u.children[c]} | k + 1 <= c < |u.children| ensures BareIn(u.children[c], b) {
      assert n !! Names(u.children[c]);
      BareKept(u.children[c], a, b, n);
    }
  }

  lemma ReadingHas(u: Ila, s: Scope, U: set<Node>, nodes: seq<Node>, ast: seq<JExpr>, idx: map<nat, nat>)
    requires Reading(u, s, U, nodes, ast, idx)
    ensures DistinctNames(u.states) && GroupsListed(u, nodes)
  {
  }
}
