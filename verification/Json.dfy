/** ILAs as graphs of numbered nodes, and the JSON documents they are written to. */
module JsonDoc {
  datatype Option<T> = None | Some(value: T)

  // ---------- ILAs ----------

  /** An expression node with its id. A variable belongs to the ILA that declared it. */
  datatype Node =
    | VarN(id: nat, host: string, name: string, sort: string)
    | ConstN(id: nat, sort: string, value: string)
    | OpN(id: nat, op: string, args: seq<Node>, params: seq<int>)

  /** An instruction; a state without an update is unchanged. */
  datatype InstrN = InstrN(name: string, decode: Node, updates: map<string, Node>)

  datatype Ila = Ila(name: string, inputs: seq<Node>, states: seq<Node>, fetch: Option<Node>, valid: Node,
                     instrs: seq<InstrN>, init: seq<Node>, children: seq<Ila>)

  // ---------- documents ----------

  datatype JExpr =
    | JVar(id: nat, sort: string, name: string)
    | JConst(id: nat, sort: string, value: string)
    | JOp(id: nat, op: string, args: seq<nat>, params: seq<int>)

  datatype JInstr = JInstr(name: string, decode: nat, update: map<string, nat>)

  datatype JIla = JIla(name: string, inputs: seq<nat>, states: seq<nat>, fetch: Option<nat>, valid: nat,
                       instrs: seq<JInstr>, init: seq<nat>, children: seq<JIla>)

  datatype Document = Document(top: JIla, ast: seq<JExpr>)

  // ---------- what a document is read into ----------

  /** An expression without ids: variables are known by their ILA and their name. */
  datatype RExpr =
    | RVar(host: string, name: string, sort: string)
    | RConst(sort: string, value: string)
    | ROp(op: string, args: seq<RExpr>, params: seq<int>)

  datatype RInstr = RInstr(name: string, decode: RExpr, updates: map<string, RExpr>)

  /** An ILA of the hierarchy that is read; children are known by name. */
  datatype RIla = RIla(name: string, inputs: seq<RExpr>, states: seq<RExpr>, fetch: Option<RExpr>, valid: Option<RExpr>,
                       instrs: seq<RInstr>, init: seq<RExpr>, children: seq<string>)

  function Forget(n: Node): RExpr {
    match n
    case VarN(_, host, name, sort) => RVar(host, name, sort)
    case ConstN(_, sort, value) => RConst(sort, value)
    case OpN(_, op, args, params) => ROp(op, ForgetAll(args), params)
  }

  function ForgetAll(ns: seq<Node>): (rs: seq<RExpr>)
    ensures |rs| == |ns| && forall i {:trigger rs[i]} {:trigger ns[i]} :: 0 <= i < |ns| ==> rs[i] == Forget(ns[i])
  {
    if ns == [] then [] else [Forget(ns[0])] + ForgetAll(ns[1..])
  }

  /** One tree, up to the ids: the same variable, the same constant, or the same operator with the same parameters
      on arguments that are one tree each. */
  ghost predicate SameTree(a: Node, b: Node) {
    match (a, b)
    case (VarN(_, h, x, s), VarN(_, g, y, t)) => h == g && x == y && s == t
    case (ConstN(_, s, v), ConstN(_, t, w)) => s == t && v == w
    case (OpN(_, f, as_, ps), OpN(_, g, bs, qs)) =>
      f == g && ps == qs && |as_| == |bs| && forall i {:trigger as_[i]} {:trigger bs[i]} :: 0 <= i < |as_| ==> SameTree(as_[i], bs[i])
    case _ => false
  }

  /** Nothing but the ids is forgotten. */
  lemma {:induction false} ForgetIsExact(a: Node, b: Node)
    ensures Forget(a) == Forget(b) <==> SameTree(a, b)
    decreases a
  {
    if a.OpN? && b.OpN? && |a.args| == |b.args| {
      forall i {:trigger a.args[i]} {:trigger b.args[i]} | 0 <= i < |a.args|
        ensures Forget(a.args[i]) == Forget(b.args[i]) <==> SameTree(a.args[i], b.args[i])
      {
        ForgetIsExact(a.args[i], b.args[i]);
      }
      var x, y := ForgetAll(a.args), ForgetAll(b.args);
      assert x == y <==> forall i {:trigger a.args[i]} {:trigger b.args[i]} :: 0 <= i < |a.args| ==> x[i] == y[i];
    }
  }

  function Ids(ns: seq<Node>): (ids: seq<nat>)
    ensures |ids| == |ns| && forall i {:trigger ids[i]} {:trigger ns[i]} :: 0 <= i < |ns| ==> ids[i] == ns[i].id
  {
    seq(|ns|, i requires 0 <= i < |ns| => (var k: nat := ns[i].id; k))
  }

  /** The JSON object of one node. */
  function Unit(n: Node): JExpr {
    match n
    case VarN(id, _, name, sort) => JVar(id, sort, name)
    case ConstN(id, sort, value) => JConst(id, sort, value)
    case OpN(id, op, args, params) => JOp(id, op, Ids(args), params)
  }

  function Args(n: Node): seq<Node> {
    if n.OpN? then n.args else []
  }

  // ---------- graphs with unique ids ----------

  /** Nodes that are closed under arguments and have unique ids. */
  ghost predicate Graph(U: set<Node>) {
    && (forall a, b :: a in U && b in U && a.id == b.id ==> a == b)
    && (forall n, a {:trigger n in U, a in Args(n)} :: n in U && a in Args(n) ==> a in U)
  }

  ghost predicate AllIn(ns: seq<Node>, U: set<Node>) {
    forall n {:trigger n in ns} :: n in ns ==> n in U
  }

  /** A node list with the index of each id, as the writer keeps it: no id twice, arguments before
      their users. */
  ghost predicate Listed(nodes: seq<Node>, arr: seq<JExpr>, idx: map<nat, nat>, U: set<Node>) {
    && |arr| == |nodes| && AllIn(nodes, U)
    && (forall k {:trigger nodes[k]} {:trigger arr[k]} :: 0 <= k < |nodes| ==> arr[k] == Unit(nodes[k]))
    && (forall k {:trigger nodes[k]} :: 0 <= k < |nodes| ==> nodes[k].id in idx && idx[nodes[k].id] == k)
    && (forall id {:trigger idx[id]} {:trigger id in idx} :: id in idx ==> idx[id] < |nodes| && nodes[idx[id]].id == id)
    && (forall k: nat :: k < |nodes| ==> ArgsBefore(nodes, k))
  }

  ghost predicate ArgsBefore(nodes: seq<Node>, k: nat)
    requires k < |nodes|
  {
    forall a {:trigger a in Args(nodes[k])} :: a in Args(nodes[k]) ==> a in nodes[..k]
  }

  /** The nodes of an expression. */
  ghost function Sub(n: Node): set<Node> {
    match n
    case OpN(_, _, args, _) => {n} + SubAll(args)
    case _ => {n}
  }

  ghost function SubAll(ns: seq<Node>): (s: set<Node>)
    ensures forall i {:trigger ns[i]} :: 0 <= i < |ns| ==> Sub(ns[i]) <= s
  {
    if ns == [] then {} else Sub(ns[0]) + SubAll(ns[1..])
  }

  /** The list only grows, by nodes of the given kind. */
  ghost predicate Extends(a: seq<Node>, b: seq<Node>, new_: set<Node>) {
    && |a| <= |b| && b[..|a|] == a
    && forall k {:trigger b[k]} :: |a| <= k < |b| ==> b[k] in new_
  }

  lemma ExtendsTrans(a: seq<Node>, b: seq<Node>, c: seq<Node>, s: set<Node>, t: set<Node>, u: set<Node>)
    requires Extends(a, b, s) && Extends(b, c, t) && s <= u && t <= u
    ensures Extends(a, c, u)
  {
    assert c[..|a|] == c[..|b|][..|a|];
    forall k {:trigger c[k]} | |a| <= k < |c| ensures c[k] in u {
      if k < |b| { assert c[k] == c[..|b|][k]; }
    }
  }

  lemma ExtendsHolds(a: seq<Node>, b: seq<Node>, s: set<Node>, n: Node)
    requires Extends(a, b, s) && n in a
    ensures n in b
  {
    assert n in b[..|a|];
  }

  // ---------- the document of a hierarchy ----------

  /** The next-state expression of a state: NULL is unchanged. */
  function Next(i: InstrN, s: Node): Node
    requires s.VarN?
  {
    if s.name in i.updates then i.updates[s.name] else s
  }

  predicate AllVars(ns: seq<Node>) {
    forall i {:trigger ns[i]} :: 0 <= i < |ns| ==> ns[i].VarN?
  }

  /** State names and ids of next-state expressions, for the first n states. */
  function UpdateIds(i: InstrN, states: seq<Node>, n: nat): map<string, nat>
    requires n <= |states| && AllVars(states)
  {
    if n == 0 then map[] else UpdateIds(i, states, n - 1)[states[n - 1].name := Next(i, states[n - 1]).id]
  }

  lemma {:induction false} UpdateIdsHold(i: InstrN, states: seq<Node>, n: nat, k: nat)
    requires k < n <= |states| && AllVars(states) && DistinctNames(states)
    ensures states[k].name in UpdateIds(i, states, n)
    ensures UpdateIds(i, states, n)[states[k].name] == Next(i, states[k]).id
  {
    if k < n - 1 {
      UpdateIdsHold(i, states, n - 1, k);
      assert states[k].name != states[n - 1].name;
    }
  }

  lemma {:induction false} UpdateIdsKeys(i: InstrN, states: seq<Node>, n: nat)
    requires n <= |states| && AllVars(states)
    ensures forall x :: x in UpdateIds(i, states, n) ==> exists k {:trigger states[k]} :: 0 <= k < n && states[k].name == x
  {
    if n > 0 {
      UpdateIdsKeys(i, states, n - 1);
      assert states[n - 1] == states[n - 1];
    }
  }

  /** The object of an instruction: its decode, and for every state, and nothing else, the id of its update
      or, without one, its own. */
  ghost predicate InstrWritten(i: InstrN, states: seq<Node>, j: JInstr)
    requires AllVars(states)
  {
    && j.name == i.name && j.decode == i.decode.id
    && (forall k {:trigger states[k]} :: 0 <= k < |states| ==>
          && states[k].name in j.update
          && j.update[states[k].name] ==
             if states[k].name in i.updates then i.updates[states[k].name].id else states[k].id)
    && (forall x {:trigger x in j.update} :: x in j.update ==>
          exists k {:trigger states[k]} :: 0 <= k < |states| && states[k].name == x)
  }

  lemma DocInstrIsWritten(i: InstrN, states: seq<Node>)
    requires AllVars(states) && DistinctNames(states)
    ensures InstrWritten(i, states, DocInstr(i, states))
  {
    forall k {:trigger states[k]} | 0 <= k < |states|
      ensures states[k].name in UpdateIds(i, states, |states|)
      ensures UpdateIds(i, states, |states|)[states[k].name] == Next(i, states[k]).id
    {
      UpdateIdsHold(i, states, |states|, k);
    }
    UpdateIdsKeys(i, states, |states|);
  }

  function DocInstr(i: InstrN, states: seq<Node>): JInstr
    requires AllVars(states)
  {
    JInstr(i.name, i.decode.id, UpdateIds(i, states, |states|))
  }

  function DocInstrs(is_: seq<InstrN>, states: seq<Node>): (js: seq<JInstr>)
    requires AllVars(states)
    ensures |js| == |is_| && forall k {:trigger js[k]} {:trigger is_[k]} :: 0 <= k < |js| ==> js[k] == DocInstr(is_[k], states)
  {
    seq(|is_|, k requires 0 <= k < |is_| => DocInstr(is_[k], states))
  }

  function DocIla(u: Ila): JIla
    requires VarLists(u)
  {
    JIla(u.name, Ids(u.inputs), Ids(u.states), if u.fetch.Some? then Some(u.fetch.value.id) else None, u.valid.id,
         DocInstrs(u.instrs, u.states), Ids(u.init), DocIlas(u.children))
  }

  function DocIlas(us: seq<Ila>): (js: seq<JIla>)
    requires forall k {:trigger us[k]} :: 0 <= k < |us| ==> VarLists(us[k])
    ensures |js| == |us| && forall k {:trigger js[k]} {:trigger us[k]} :: 0 <= k < |js| ==> js[k] == DocIla(us[k])
  {
    if us == [] then [] else [DocIla(us[0])] + DocIlas(us[1..])
  }

  predicate VarLists(u: Ila) {
    AllVars(u.inputs) && AllVars(u.states) && forall k {:trigger u.children[k]} :: 0 <= k < |u.children| ==> VarLists(u.children[k])
  }

  // ---------- well-formed hierarchies ----------

  function Names(u: Ila): set<string> {
    {u.name} + NamesOf(u.children)
  }

  function NamesOf(us: seq<Ila>): (s: set<string>)
    ensures forall k {:trigger us[k]} :: 0 <= k < |us| ==> Names(us[k]) <= s
  {
    if us == [] then {} else Names(us[0]) + NamesOf(us[1..])
  }

  /** The expressions of an ILA itself: fetch, valid, initial conditions and those of each instruction. */
  function Groups(u: Ila): (gs: seq<seq<Node>>)
    ensures |gs| == 3 + |u.instrs|
  {
    [FetchGroup(u), [u.valid], u.init] +
    seq(|u.instrs|, k requires 0 <= k < |u.instrs| => OneInstrExprs(u.instrs[k], u.states))
  }

  function FetchGroup(u: Ila): seq<Node> {
    if u.fetch.Some? then [u.fetch.value] else []
  }

  lemma GroupsAre(u: Ila)
    ensures Groups(u)[0] == FetchGroup(u) && Groups(u)[1] == [u.valid] && Groups(u)[2] == u.init
    ensures forall k {:trigger u.instrs[k]} :: 0 <= k < |u.instrs| ==> Groups(u)[3 + k] == OneInstrExprs(u.instrs[k], u.states)
  {
  }

  function OneInstrExprs(i: InstrN, states: seq<Node>): (es: seq<Node>)
    ensures |es| == 1 + |states|
  {
    [i.decode] + seq(|states|, k requires 0 <= k < |states| => if states[k].VarN? then Next(i, states[k]) else states[k])
  }

  /** The decode and the next-state expressions of an instruction, in the writer's order. */
  ghost predicate EntriesOf(es: seq<Node>, i: InstrN, states: seq<Node>)
    requires AllVars(states)
  {
    |es| == 1 + |states| && es[0] == i.decode && forall k: nat :: k < |states| ==> EntryOf(es, i, states, k)
  }

  ghost predicate EntryOf(es: seq<Node>, i: InstrN, states: seq<Node>, k: nat)
    requires AllVars(states) && k < |states| && k + 1 < |es|
  {
    es[k + 1] == Next(i, states[k])
  }

  lemma EntriesOfInstr(i: InstrN, states: seq<Node>)
    requires AllVars(states)
    ensures EntriesOf(OneInstrExprs(i, states), i, states)
  {
  }

  /** What the ancestors declare. */
  datatype Scope = Scope(names: set<string>, inputs: seq<Node>, states: seq<Node>)

  function Inner(s: Scope, u: Ila): Scope {
    Scope(s.names + {u.name}, u.inputs, u.states)
  }

  ghost predicate DistinctIds(ns: seq<Node>) {
    forall i, j {:trigger ns[i], ns[j]} :: 0 <= i < j < |ns| ==> ns[i].id != ns[j].id
  }

  ghost predicate DistinctNames(ns: seq<Node>)
    requires AllVars(ns)
  {
    forall i, j {:trigger ns[i], ns[j]} :: 0 <= i < j < |ns| ==> ns[i].name != ns[j].name
  }

  /** A list inherits the parent's list and goes on with variables of its own. */
  ghost predicate Inherits(name: string, parent: seq<Node>, ns: seq<Node>) {
    && |parent| <= |ns| && ns[..|parent|] == parent && AllVars(ns)
    && forall k {:trigger ns[k]} :: |parent| <= k < |ns| ==> ns[k].host == name
  }

  /** Expressions of the graph without free variables. */
  ghost predicate GroupOk(u: Ila, es: seq<Node>, U: set<Node>) {
    AllIn(es, U) && forall v {:trigger v in SubAll(es)} :: v in SubAll(es) && v.VarN? ==> v in u.inputs || v in u.states
  }

  /** Unique ILA names, no free variables, and each ILA has the variables of its parent. */
  ghost predicate WellFormed(u: Ila, s: Scope, U: set<Node>)
    decreases u
  {
    && Names(u) !! s.names && u.name !in NamesOf(u.children)
    && Inherits(u.name, s.inputs, u.inputs) && Inherits(u.name, s.states, u.states)
    && DistinctIds(u.inputs + u.states) && DistinctNames(u.states)
    && AllIn(u.inputs, U) && AllIn(u.states, U)
    && (forall g {:trigger Groups(u)[g]} :: 0 <= g < |Groups(u)| ==> GroupOk(u, Groups(u)[g], U))
    && (forall k {:trigger u.children[k]} :: 0 <= k < |u.children| ==> WellFormed(u.children[k], Inner(s, u), U))
    && (forall i, j {:trigger u.children[i], u.children[j]} :: 0 <= i < j < |u.children| ==>
          Names(u.children[i]) !! Names(u.children[j]))
  }

  lemma {:induction false} WellFormedHasLists(u: Ila, s: Scope, U: set<Node>)
    requires WellFormed(u, s, U)
    ensures VarLists(u)
    decreases u
  {
    forall k | 0 <= k < |u.children| ensures VarLists(u.children[k]) {
      WellFormedHasLists(u.children[k], Inner(s, u), U);
    }
  }

  /** Nodes of the graph whose variables belong to the given ILAs. */
  ghost function Hosted(U: set<Node>, names: set<string>): set<Node> {
    set n | n in U && (n.VarN? ==> n.host in names)
  }

  // ---------- what a writer has written ----------

  /** The indices of the nodes ascend. */
  ghost predicate Ascending(idx: map<nat, nat>, ns: seq<Node>) {
    && (forall i {:trigger ns[i]} :: 0 <= i < |ns| ==> ns[i].id in idx)
    && (forall i, j {:trigger ns[i], ns[j]} :: 0 <= i < j < |ns| ==> idx[ns[i].id] < idx[ns[j].id])
  }

  /** All nodes of the hierarchy are listed, and the own variables of each ILA in their order. */
  ghost predicate Written(u: Ila, s: Scope, nodes: seq<Node>, idx: map<nat, nat>)
    decreases u
  {
    && |s.inputs| <= |u.inputs| && |s.states| <= |u.states|
    && AllListed(u.inputs, nodes) && AllListed(u.states, nodes)
    && (forall g {:trigger Groups(u)[g]} :: 0 <= g < |Groups(u)| ==> AllListed(Groups(u)[g], nodes))
    && Ascending(idx, u.inputs[|s.inputs|..]) && Ascending(idx, u.states[|s.states|..])
    && forall k {:trigger u.children[k]} :: 0 <= k < |u.children| ==> Written(u.children[k], Inner(s, u), nodes, idx)
  }

  ghost predicate AllListed(ns: seq<Node>, nodes: seq<Node>) {
    forall k {:trigger ns[k]} :: 0 <= k < |ns| ==> ns[k] in nodes
  }

  /** Ids keep their indices. */
  ghost predicate Grown(a: map<nat, nat>, b: map<nat, nat>) {
    forall id {:trigger a[id]} {:trigger b[id]} :: id in a ==> id in b && b[id] == a[id]
  }

  /** What is written grows from a by b to c. */
  lemma GrowthTrans(a: seq<Node>, b: seq<Node>, c: seq<Node>, ia: map<nat, nat>, ib: map<nat, nat>, ic: map<nat, nat>,
                    t: set<Node>)
    requires Extends(a, b, t) && Extends(b, c, t) && Grown(ia, ib) && Grown(ib, ic)
    ensures Extends(a, c, t) && Grown(ia, ic)
  {
    ExtendsTrans(a, b, c, t, t, t);
  }

  /** The entries up to and with k are listed. */
  ghost predicate ListedTo(es: seq<Node>, k: nat, nodes: seq<Node>)
    requires k < |es|
  {
    AllListed(es[..k + 1], nodes)
  }

  lemma AllListedKept(ns: seq<Node>, a: seq<Node>, b: seq<Node>, t: set<Node>)
    requires AllListed(ns, a) && Extends(a, b, t)
    ensures AllListed(ns, b)
  {
    forall k {:trigger ns[k]} | 0 <= k < |ns| ensures ns[k] in b { ExtendsHolds(a, b, t, ns[k]); }
  }

  lemma {:induction false} WrittenKept(u: Ila, s: Scope, a: seq<Node>, ia: map<nat, nat>, b: seq<Node>, ib: map<nat,
                                       nat>, t: set<Node>)
    requires Written(u, s, a, ia) && Extends(a, b, t) && Grown(ia, ib)
    ensures Written(u, s, b, ib)
    decreases u
  {
    AllListedKept(u.inputs, a, b, t);
    AllListedKept(u.states, a, b, t);
    forall g {:trigger Groups(u)[g]} | 0 <= g < |Groups(u)| ensures AllListed(Groups(u)[g], b) {
      AllListedKept(Groups(u)[g], a, b, t);
    }
    forall k {:trigger u.children[k]} | 0 <= k < |u.children| ensures Written(u.children[k], Inner(s, u), b, ib) {
      WrittenKept(u.children[k], Inner(s, u), a, ia, b, ib, t);
    }
  }

  // ---------- scopes ----------

  ghost predicate ScopeOk(s: Scope) {
    && (forall k {:trigger s.inputs[k]} :: 0 <= k < |s.inputs| ==> s.inputs[k].VarN? && s.inputs[k].host in s.names)
    && (forall k {:trigger s.states[k]} :: 0 <= k < |s.states| ==> s.states[k].VarN? && s.states[k].host in s.names)
  }

  lemma InnerOk(u: Ila, s: Scope)
    requires ScopeOk(s) && Inherits(u.name, s.inputs, u.inputs) && Inherits(u.name, s.states, u.states)
    ensures ScopeOk(Inner(s, u))
  {
    forall k {:trigger u.inputs[k]} | 0 <= k < |u.inputs| ensures u.inputs[k].host in s.names + {u.name} {
      if k < |s.inputs| { assert u.inputs[k] == u.inputs[..|s.inputs|][k]; }
    }
    forall k {:trigger u.states[k]} | 0 <= k < |u.states| ensures u.states[k].host in s.names + {u.name} {
      if k < |s.states| { assert u.states[k] == u.states[..|s.states|][k]; }
    }
  }

  lemma {:induction false} SubInGraph(n: Node, U: set<Node>)
    requires Graph(U) && n in U
    ensures Sub(n) <= U
    decreases n, 1
  {
    if n.OpN? {
      forall a {:trigger a in n.args} | a in n.args ensures a in U { assert a in Args(n); }
      SubAllInGraph(n.args, U);
    }
  }

  lemma {:induction false} SubAllInGraph(ns: seq<Node>, U: set<Node>)
    requires Graph(U) && AllIn(ns, U)
    ensures SubAll(ns) <= U
    decreases ns, 0
  {
    if ns != [] {
      assert ns[0] in ns;
      SubInGraph(ns[0], U);
      forall n {:trigger n in ns[1..]} | n in ns[1..] ensures n in U { assert n in ns; }
      SubAllInGraph(ns[1..], U);
    }
  }

  /** The nodes of an ILA's own expressions have variables of the ILA or its ancestors only. */
  lemma GroupHosted(u: Ila, s: Scope, es: seq<Node>, U: set<Node>)
    requires Graph(U) && GroupOk(u, es, U) && ScopeOk(Inner(s, u))
    ensures SubAll(es) <= Hosted(U, s.names + {u.name})
  {
    SubAllInGraph(es, U);
    forall v | v in SubAll(es) ensures v in Hosted(U, s.names + {u.name}) {
      if v.VarN? {
        if v in u.inputs {
          var k :| 0 <= k < |u.inputs| && u.inputs[k] == v;
          assert Inner(s, u).inputs[k] == v;
        } else {
          var k :| 0 <= k < |u.states| && u.states[k] == v;
          assert Inner(s, u).states[k] == v;
        }
      }
    }
  }

  lemma VarsHosted(u: Ila, s: Scope, U: set<Node>)
    requires ScopeOk(Inner(s, u)) && AllIn(u.inputs, U) && AllIn(u.states, U)
    ensures (set v | v in u.inputs) <= Hosted(U, s.names + {u.name})
    ensures (set v | v in u.states) <= Hosted(U, s.names + {u.name})
  {
    forall v | v in u.inputs ensures v in Hosted(U, s.names + {u.name}) {
      var k :| 0 <= k < |u.inputs| && u.inputs[k] == v;
      assert Inner(s, u).inputs[k] == v;
    }
    forall v | v in u.states ensures v in Hosted(U, s.names + {u.name}) {
      var k :| 0 <= k < |u.states| && u.states[k] == v;
      assert Inner(s, u).states[k] == v;
    }
  }

  /** No variable of the given ILAs is listed. */
  ghost predicate Clear(nodes: seq<Node>, names: set<string>) {
    forall k {:trigger nodes[k]} :: 0 <= k < |nodes| && nodes[k].VarN? ==> nodes[k].host !in names
  }

  lemma ClearKept(a: seq<Node>, b: seq<Node>, U: set<Node>, hosts: set<string>, names: set<string>)
    requires Clear(a, names) && Extends(a, b, Hosted(U, hosts)) && hosts !! names
    ensures Clear(b, names)
  {
    forall k {:trigger b[k]} | 0 <= k < |b| && b[k].VarN? ensures b[k].host !in names {
      if k < |a| { assert b[k] == b[..|a|][k]; }
    }
  }

  lemma HostedMore(U: set<Node>, a: set<string>, b: set<string>)
    requires a <= b
    ensures Hosted(U, a) <= Hosted(U, b)
  {
  }

  /** The ILA that declares a variable lists it. */
  predicate DeclaredIn(u: Ila, v: Node) {
    v.VarN? && ((v.host == u.name && (v in u.inputs || v in u.states)) ||
                exists k {:trigger u.children[k]} :: 0 <= k < |u.children| && DeclaredIn(u.children[k], v))
  }

  /** Every variable of the graph that belongs to an ILA of the hierarchy is declared there. */
  ghost predicate Declared(u: Ila, U: set<Node>) {
    forall v {:trigger v in U} :: v in U && v.VarN? && v.host in Names(u) ==> DeclaredIn(u, v)
  }

  lemma {:induction false} DeclaredHost(u: Ila, v: Node)
    requires DeclaredIn(u, v)
    ensures v.host in Names(u)
    decreases u
  {
    if v.host != u.name || (v !in u.inputs && v !in u.states) {
      var k :| 0 <= k < |u.children| && DeclaredIn(u.children[k], v);
      DeclaredHost(u.children[k], v);
    }
  }

  lemma DeclaredOwn(u: Ila, s: Scope, U: set<Node>, v: Node)
    requires WellFormed(u, s, U) && Declared(u, U) && v in U && v.VarN? && v.host == u.name
    ensures v in u.inputs || v in u.states
  {
    assert DeclaredIn(u, v);
    forall k | 0 <= k < |u.children| ensures !DeclaredIn(u.children[k], v) {
      assert v.host !in Names(u.children[k]);
      if DeclaredIn(u.children[k], v) { DeclaredHost(u.children[k], v); }
    }
  }

  lemma DeclaredChild(u: Ila, s: Scope, U: set<Node>, k: nat)
    requires WellFormed(u, s, U) && Declared(u, U) && k < |u.children|
    ensures Declared(u.children[k], U)
  {
    var c := u.children[k];
    assert Names(c) <= NamesOf(u.children);
    forall v | v in U && v.VarN? && v.host in Names(c) ensures DeclaredIn(c, v) {
      assert DeclaredIn(u, v) && v.host != u.name;
      forall i | 0 <= i < |u.children| && i != k ensures !DeclaredIn(u.children[i], v) {
        assert Names(u.children[i]) !! Names(c);
        if DeclaredIn(u.children[i], v) { DeclaredHost(u.children[i], v); }
      }
    }
  }
}
