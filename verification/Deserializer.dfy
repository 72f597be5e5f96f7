/** Reading a document: variables ILA by ILA, then all expressions in order, then the ILAs. */
module Deserializer {
  import opened JsonDoc
  import opened DocReading
  import opened ReadBack
  import opened Serializer

  class J2IDes {
    var idExpr: IdMap
    var ilas: map<string, RIla>

    constructor ()
      ensures idExpr == map[] && ilas == map[]
    {
      idExpr, ilas := map[], map[];
    }

    /** A new ILA, as a child of its parent, inherits the parent's variables. */
    method NewIla(name: string, parent: Option<string>)
      requires name !in ilas && (parent.Some? ==> parent.value in ilas)
      modifies this`ilas
      ensures Created(name, parent, old(ilas), ilas)
    {
      if parent.Some? {
        var p := ilas[parent.value];
        ilas := ilas[parent.value := p.(children := p.children + [name])];
        ilas := ilas[name := RIla(name, p.inputs, p.states, None, None, [], [], [])];
      } else {
        ilas := ilas[name := RIla(name, [], [], None, None, [], [], [])];
      }
    }

    /** The variables an ILA declares, in the order of the array. */
    method DesVarUnit(j: JIla, ast: seq<JExpr>)
      requires j.name in ilas
      modifies this
      ensures idExpr == ScanIds(j, ast, |ast|, old(idExpr))
      ensures Extended(j.name, old(ilas), ilas, ScanInputs(j, ast, |ast|, old(idExpr)),
                       ScanStates(j, ast, |ast|, old(idExpr)))
    {
      ghost var ids0 := idExpr;
      var m := ilas[j.name];
      var inputs, states: seq<RExpr> := [], [];
      var n := 0;
      while n != |ast|
        invariant 0 <= n <= |ast| && ilas == old(ilas) && idExpr == ScanIds(j, ast, n, ids0)
        invariant inputs == ScanInputs(j, ast, n, ids0) && states == ScanStates(j, ast, n, ids0)
      {
        var e := ast[n];
        if e.id !in idExpr && e.JVar? {
          if e.id in j.states {
            states := states + [NewVar(j, e)];
            idExpr := idExpr[e.id := NewVar(j, e)];
          } else if e.id in j.inputs {
            inputs := inputs + [NewVar(j, e)];
            idExpr := idExpr[e.id := NewVar(j, e)];
          }
        }
        n := n + 1;
      }
      ilas := ilas[j.name := m.(inputs := m.inputs + inputs, states := m.states + states)];
    }

    method DesExpr(e: JExpr)
      requires Readable(idExpr, e)
      modifies this`idExpr
      ensures idExpr == if e.id in old(idExpr) then old(idExpr) else old(idExpr)[e.id := Read(old(idExpr), e)]
    {
      if e.id !in idExpr {
        idExpr := idExpr[e.id := Read(idExpr, e)];
      }
    }

    method DesInstr(j: JInstr, states: seq<RExpr>) returns (i: RInstr)
      requires InstrFound(idExpr, j, states)
      ensures i == ReadInstr(idExpr, j, states)
    {
      var updates: map<string, RExpr> := map[];
      var k := 0;
      while k != |states|
        invariant 0 <= k <= |states| && updates == ReadUpdates(idExpr, j.update, states, k)
      {
        assert UpdateFound(idExpr, j.update, states[k]);
        updates := updates[states[k].name := idExpr[j.update[states[k].name]]];
        k := k + 1;
      }
      i := RInstr(j.name, idExpr[j.decode], updates);
    }

    // The remaining methods are given the hierarchy behind the document.

    /** The variables of an ILA and of the ILAs below it, parents first. */
    method DesVarHier(j: JIla, ast: seq<JExpr>, parent: Option<string>, ghost u: Ila, ghost s: Scope,
                      ghost U: set<Node>,
                      ghost nodes: seq<Node>, ghost idx: map<nat, nat>)
      requires Reading(u, s, U, nodes, ast, idx) && j == DocIla(u)
      requires Unread(u, s, ilas.Keys) && VarsRead(nodes, idExpr, ilas.Keys) && ParentHas(parent, s, ilas)
      modifies this
      ensures VarsRead(nodes, idExpr, ilas.Keys) && ilas.Keys == old(ilas.Keys) + Names(u) && BareIn(u, ilas)
      ensures ParentGets(parent, old(ilas), ilas, u.name) && SameBut(old(ilas), ilas, Names(u) + ParentName(parent))
      decreases u, 2
    {
      ghost var was := ilas;
      DesVarOwn(j, ast, parent, u, s, U, nodes, idx);
      DesVarChildren(j, ast, parent, was, u, s, U, nodes, idx);
      VarsAllDone(u, parent, was, ilas);
    }

    method DesVarChildren(j: JIla, ast: seq<JExpr>, ghost parent: Option<string>, ghost was: map<string, RIla>,
                          ghost u: Ila,
                          ghost s: Scope, ghost U: set<Node>, ghost nodes: seq<Node>, ghost idx: map<nat, nat>)
      requires Reading(u, s, U, nodes, ast, idx) && j == DocIla(u) && |j.children| == |u.children|
      requires Unread(u, s, was.Keys) && VarsUpTo(u, 0, parent, was, ilas, nodes, idExpr)
      modifies this
      ensures VarsUpTo(u, |u.children|, parent, was, ilas, nodes, idExpr)
      decreases u, 1
    {
      var k := 0;
      while k != |j.children|
        invariant 0 <= k <= |u.children| && VarsUpTo(u, k, parent, was, ilas, nodes, idExpr)
      {
        DesVarChild(j, ast, k, parent, was, u, s, U, nodes, idx);
        k := k + 1;
      }
    }

    method DesVarChild(j: JIla, ast: seq<JExpr>, k: nat, ghost parent: Option<string>, ghost was: map<string, RIla>,
                       ghost u: Ila,
                       ghost s: Scope, ghost U: set<Node>, ghost nodes: seq<Node>, ghost idx: map<nat, nat>)
      requires Reading(u, s, U, nodes, ast, idx) && j == DocIla(u) && k < |u.children|
      requires Unread(u, s, was.Keys) && VarsUpTo(u, k, parent, was, ilas, nodes, idExpr)
      modifies this
      ensures VarsUpTo(u, k + 1, parent, was, ilas, nodes, idExpr)
      decreases u, 0
    {
      ghost var before := ilas;
      ChildNext(u, s, U, nodes, ast, idx, k, parent, was, ilas);
      DesVarHier(j.children[k], ast, Some(j.name), u.children[k], Inner(s, u), U, nodes, idx);
      VarsStep(u, s, U, k, parent, was, before, ilas);
    }

    /** The variables of the ILA itself. */
    method DesVarOwn(j: JIla, ast: seq<JExpr>, parent: Option<string>, ghost u: Ila, ghost s: Scope, ghost U: set<Node>,
                     ghost nodes: seq<Node>, ghost idx: map<nat, nat>)
      requires Reading(u, s, U, nodes, ast, idx) && ListsOf(j, u)
      requires Unread(u, s, ilas.Keys) && VarsRead(nodes, idExpr, ilas.Keys) && ParentHas(parent, s, ilas)
      modifies this
      ensures VarsUpTo(u, 0, parent, old(ilas), ilas, nodes, idExpr)
    {
      ghost var was, ids := ilas, idExpr;
      OwnNameIsNew(u, s, was.Keys);
      NewIla(j.name, parent);
      ghost var mid := ilas;
      NewIsFirst(u.name, s, parent, was, mid);
      DesVarUnit(j, ast);
      OwnVars(u, s, U, nodes, ast, idx, j, parent, was, ids, mid, ilas);
    }

    /** All entries, arguments before their users. */
    method DesExprs(ast: seq<JExpr>, ghost nodes: seq<Node>, ghost idx: map<nat, nat>, ghost U: set<Node>)
      requires Listed(nodes, ast, idx, U) && ReadTo(nodes, idExpr, 0)
      modifies this`idExpr
      ensures AllRead(nodes, idExpr)
    {
      var n := 0;
      while n != |ast|
        invariant 0 <= n <= |ast| && ReadTo(nodes, idExpr, n)
      {
        NodeReads(nodes, ast, idx, U, idExpr, n);
        DesExpr(ast[n]);
        n := n + 1;
      }
    }

    /** Fetch, valid, instructions and initial conditions of an ILA that has its variables. */
    method DesIlaUnit(j: JIla, ghost u: Ila, ghost nodes: seq<Node>)
      requires VarLists(u) && j == DocIla(u) && DistinctNames(u.states)
      requires j.name in ilas && ilas[j.name] == Bare(u) && GroupsListed(u, nodes) && AllRead(nodes, idExpr)
      modifies this`ilas
      ensures ilas == old(ilas)[u.name := Flat(u)]
    {
      GroupsAreRead(u, nodes, idExpr);
      var m := ilas[j.name];
      var fetch := if j.fetch.Some? then idExpr[j.fetch.value] else DEFAULT_FETCH;
      var valid := idExpr[j.valid];
      var instrs := DesInstrs(j.instrs, m.states, u);
      var init := DesInit(j.init, u.init);
      assert m.instrs + instrs == instrs && m.init + init == init;
      ilas := ilas[j.name := m.(fetch := Some(fetch), valid := Some(valid), instrs := m.instrs + instrs, init := m.init + init)];
    }

    method DesInstrs(js: seq<JInstr>, states: seq<RExpr>, ghost u: Ila) returns (instrs: seq<RInstr>)
      requires AllVars(u.states) && DistinctNames(u.states) && js == DocInstrs(u.instrs, u.states)
      requires states == ForgetAll(u.states)
      requires forall k {:trigger u.instrs[k]} :: 0 <= k < |u.instrs| ==> ListRead(OneInstrExprs(u.instrs[k], u.states), idExpr)
      ensures instrs == FlatInstrs(u.instrs, u.states)
    {
      instrs := [];
      var k := 0;
      while k != |js|
        invariant 0 <= k <= |js| && |instrs| == k
        invariant forall i {:trigger instrs[i]} :: 0 <= i < k ==> instrs[i] == FlatInstr(u.instrs[i], u.states)
      {
        InstrIsRead(u.instrs[k], u.states, idExpr);
        var instr := DesInstr(js[k], states);
        instrs := instrs + [instr];
        k := k + 1;
      }
    }

    method DesInit(ids: seq<nat>, ghost init: seq<Node>) returns (es: seq<RExpr>)
      requires ids == Ids(init) && ListRead(init, idExpr)
      ensures es == ForgetAll(init)
    {
      es := [];
      var k := 0;
      while k != |ids|
        invariant 0 <= k <= |ids| && |es| == k
        invariant forall i {:trigger es[i]} :: 0 <= i < k ==> es[i] == Forget(init[i])
      {
        assert ids[k] == init[k].id;
        es := es + [idExpr[ids[k]]];
        k := k + 1;
      }
    }

    /** Everything else of an ILA and of the ILAs below it. */
    method DesIlaHier(j: JIla, ghost u: Ila, ghost s: Scope, ghost U: set<Node>, ghost nodes: seq<Node>,
                      ghost ast: seq<JExpr>, ghost idx: map<nat, nat>)
      requires Reading(u, s, U, nodes, ast, idx) && j == DocIla(u)
      requires BareIn(u, ilas) && AllRead(nodes, idExpr)
      modifies this`ilas
      ensures FlatIn(u, ilas) && SameBut(old(ilas), ilas, Names(u)) && ilas.Keys == old(ilas.Keys)
      decreases u, 2
    {
      ghost var was := ilas;
      ReadingHas(u, s, U, nodes, ast, idx);
      DesIlaUnit(j, u, nodes);
      FlatFirst(u, s, U, was, ilas);
      DesIlaChildren(j, was, u, s, U, nodes, ast, idx);
    }

    method DesIlaChildren(j: JIla, ghost was: map<string, RIla>, ghost u: Ila, ghost s: Scope, ghost U: set<Node>,
                          ghost nodes: seq<Node>, ghost ast: seq<JExpr>, ghost idx: map<nat, nat>)
      requires Reading(u, s, U, nodes, ast, idx) && j == DocIla(u)
      requires FlatDone(u, 0, was, ilas) && AllRead(nodes, idExpr)
      modifies this`ilas
      ensures FlatDone(u, |u.children|, was, ilas)
      decreases u, 1
    {
      var k := 0;
      while k != |j.children|
        invariant 0 <= k <= |u.children| && FlatDone(u, k, was, ilas)
      {
        DesIlaChild(j, k, was, u, s, U, nodes, ast, idx);
        k := k + 1;
      }
    }

    method DesIlaChild(j: JIla, k: nat, ghost was: map<string, RIla>, ghost u: Ila, ghost s: Scope, ghost U: set<Node>,
                       ghost nodes: seq<Node>, ghost ast: seq<JExpr>, ghost idx: map<nat, nat>)
      requires Reading(u, s, U, nodes, ast, idx) && j == DocIla(u) && k < |u.children|
      requires FlatDone(u, k, was, ilas) && AllRead(nodes, idExpr)
      modifies this`ilas
      ensures FlatDone(u, k + 1, was, ilas)
      decreases u, 0
    {
      ghost var before := ilas;
      ChildReading(u, s, U, nodes, ast, idx, k);
      DesIlaHier(j.children[k], u.children[k], Inner(s, u), U, nodes, ast, idx);
      FlatStep(u, s, U, k, was, before, ilas);
    }

    /** The whole document. */
    method DesInstrLvlAbs(d: Document, ghost u: Ila, ghost U: set<Node>, ghost nodes: seq<Node>, ghost idx: map<nat,
                          nat>)
      requires Reading(u, Scope({}, [], []), U, nodes, d.ast, idx) && d.top == DocIla(u)
      requires Extends([], nodes, Hosted(U, Names(u))) && ilas == map[] && idExpr == map[]
      modifies this
      ensures FlatIn(u, ilas) && ilas.Keys == Names(u)
    {
      DesVarHier(d.top, d.ast, None, u, Scope({}, [], []), U, nodes, idx);
      VarsThenNodes(nodes, d.ast, idx, U, idExpr, ilas.Keys);
      DesExprs(d.ast, nodes, idx, U);
      DesIlaHier(d.top, u, Scope({}, [], []), U, nodes, d.ast, idx);
    }
  }
}
