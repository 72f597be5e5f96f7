/** The pass over an ILA hierarchy: decodes, updates, valid and fetch conditions are overwritten in
    place, and the transition relation is what it was. */
module RewritePass {
  import opened Ast
  import opened Ila
  import opened Sorts
  import opened Rewriter
  import opened Redexes
  import opened Unrolling
  import opened MonoRuns

  // ---------- ILAs ----------

  class InstrNode {
    const name: string
    var decode: Expr
    var updates: seq<Update>

    constructor (name: string, decode: Expr, updates: seq<Update>)
      ensures Value() == Instr(name, decode, updates)
    {
      this.name, this.decode, this.updates := name, decode, updates;
    }

    ghost function Value(): Instr
      reads this
    {
      Instr(name, decode, updates)
    }
  }

  class IlaNode {
    const instrs: seq<InstrNode>
    var valid: Option<Expr>
    var fetch: Option<Expr>

    constructor (instrs: seq<InstrNode>, valid: Option<Expr>, fetch: Option<Expr>)
      ensures this.instrs == instrs && this.valid == valid && this.fetch == fetch
    {
      this.instrs, this.valid, this.fetch := instrs, valid, fetch;
    }
  }

  datatype Hierarchy = Hierarchy(ila: IlaNode, children: seq<Hierarchy>)

  ghost function Ilas(h: Hierarchy): set<IlaNode> {
    {h.ila} + IlasOf(h.children)
  }

  ghost function IlasOf(hs: seq<Hierarchy>): (s: set<IlaNode>)
    ensures forall i {:trigger hs[i]} :: 0 <= i < |hs| ==> Ilas(hs[i]) <= s
  {
    if hs == [] then {} else Ilas(hs[0]) + IlasOf(hs[1..])
  }

  ghost function Members(ns: seq<InstrNode>): set<InstrNode> {
    set n | n in ns
  }

  ghost function Instrs(h: Hierarchy): set<InstrNode> {
    Members(h.ila.instrs) + InstrsOf(h.children)
  }

  ghost function InstrsOf(hs: seq<Hierarchy>): (s: set<InstrNode>)
    ensures forall i {:trigger hs[i]} :: 0 <= i < |hs| ==> Instrs(hs[i]) <= s
  {
    if hs == [] then {} else Instrs(hs[0]) + InstrsOf(hs[1..])
  }

  // ---------- replacing ----------

  ghost predicate UpdatesReplace(S: Sig, us: seq<Update>, vs: seq<Update>) {
    |vs| == |us| && forall i {:trigger us[i]} {:trigger vs[i]} :: 0 <= i < |us| ==>
      vs[i].state == us[i].state && Replaces(S, us[i].value, vs[i].value)
  }

  /** The same instruction with expressions that stand for its expressions. */
  ghost predicate InstrReplaces(S: Sig, i: Instr, j: Instr) {
    j.name == i.name && Replaces(S, i.decode, j.decode) && UpdatesReplace(S, i.updates, j.updates)
  }

  ghost predicate OptionReplaces(S: Sig, e: Option<Expr>, r: Option<Expr>) {
    match (e, r)
    case (None, None) => true
    case (Some(a), Some(b)) => Replaces(S, a, b)
    case _ => false
  }

  predicate SortedInstr(S: Sig, i: Instr) {
    && WellSorted(S, i.decode)
    && forall k {:trigger i.updates[k]} :: 0 <= k < |i.updates| ==> WellSorted(S, i.updates[k].value)
  }

  predicate SortedOption(S: Sig, e: Option<Expr>) {
    e.Some? ==> WellSorted(S, e.value)
  }

  lemma InstrReplacesTrans(S: Sig, a: Instr, b: Instr, c: Instr)
    requires InstrReplaces(S, a, b) && InstrReplaces(S, b, c)
    ensures InstrReplaces(S, a, c)
  {
    ReplacesTrans(S, a.decode, b.decode, c.decode);
    forall i {:trigger a.updates[i]} | 0 <= i < |a.updates|
      ensures Replaces(S, a.updates[i].value, c.updates[i].value)
    {
      ReplacesTrans(S, a.updates[i].value, b.updates[i].value, c.updates[i].value);
    }
  }

  lemma OptionReplacesTrans(S: Sig, a: Option<Expr>, b: Option<Expr>, c: Option<Expr>)
    requires OptionReplaces(S, a, b) && OptionReplaces(S, b, c)
    ensures OptionReplaces(S, a, c)
  {
    if a.Some? { ReplacesTrans(S, a.value, b.value, c.value); }
  }

  // ---------- what the pass is to do ----------

  ghost function RewrittenUpdates(p: Pass, S: Sig, us: seq<Update>): (vs: seq<Update>)
    requires forall k {:trigger us[k]} :: 0 <= k < |us| ==> WellSorted(S, us[k].value)
    ensures |vs| == |us| && forall k {:trigger vs[k]} {:trigger us[k]} :: 0 <= k < |us| ==>
              vs[k] == Update(us[k].state, Rewritten(p, S, us[k].value))
  {
    seq(|us|, k requires 0 <= k < |us| => Update(us[k].state, Rewritten(p, S, us[k].value)))
  }

  ghost function RewrittenInstr(p: Pass, S: Sig, i: Instr): Instr
    requires SortedInstr(S, i)
  {
    Instr(i.name, Rewritten(p, S, i.decode), RewrittenUpdates(p, S, i.updates))
  }

  ghost function RewrittenOption(p: Pass, S: Sig, e: Option<Expr>): Option<Expr>
    requires SortedOption(S, e)
  {
    if e.Some? then Some(Rewritten(p, S, e.value)) else None
  }

  lemma RewrittenReplaces(p: Pass, S: Sig, i: Instr)
    requires SortedInstr(S, i)
    ensures InstrReplaces(S, i, RewrittenInstr(p, S, i))
  {
  }

  lemma InstrSorted(S: Sig, i: Instr, j: Instr)
    requires InstrReplaces(S, i, j)
    ensures SortedInstr(S, j)
  {
    forall k {:trigger j.updates[k]} | 0 <= k < |j.updates| ensures WellSorted(S, j.updates[k].value) {
      assert Replaces(S, i.updates[k].value, j.updates[k].value);
    }
  }

  /** An instruction rewritten k times. */
  ghost function Again(p: Pass, S: Sig, i: Instr, k: nat): (j: Instr)
    requires SortedInstr(S, i)
    ensures SortedInstr(S, j)
  {
    if k == 0 then i
    else
      RewrittenReplaces(p, S, Again(p, S, i, k - 1));
      InstrSorted(S, Again(p, S, i, k - 1), RewrittenInstr(p, S, Again(p, S, i, k - 1)));
      RewrittenInstr(p, S, Again(p, S, i, k - 1))
  }

  ghost function AgainOption(p: Pass, S: Sig, e: Option<Expr>, k: nat): (r: Option<Expr>)
    requires SortedOption(S, e)
    ensures SortedOption(S, r)
  {
    if k == 0 then e else RewrittenOption(p, S, AgainOption(p, S, e, k - 1))
  }

  /** However often it is rewritten, the instruction can stand for what it was. */
  lemma {:induction false} AgainReplaces(p: Pass, S: Sig, i: Instr, k: nat)
    requires SortedInstr(S, i)
    ensures InstrReplaces(S, i, Again(p, S, i, k))
  {
    if k > 0 {
      AgainReplaces(p, S, i, k - 1);
      RewrittenReplaces(p, S, Again(p, S, i, k - 1));
      InstrReplacesTrans(S, i, Again(p, S, i, k - 1), Again(p, S, i, k));
    }
  }

  lemma {:induction false} AgainOptionReplaces(p: Pass, S: Sig, e: Option<Expr>, k: nat)
    requires SortedOption(S, e)
    ensures OptionReplaces(S, e, AgainOption(p, S, e, k))
  {
    if k > 0 {
      AgainOptionReplaces(p, S, e, k - 1);
      OptionReplacesTrans(S, e, AgainOption(p, S, e, k - 1), AgainOption(p, S, e, k));
    }
  }

  // ---------- what rewriting again achieves ----------

  /** Rewriting does not touch what it does not get to. */
  ghost predicate SameReach(p: Pass, e: Expr, r: Expr) {
    p == StoreLoad ==> (PlainAddresses(r) <==> PlainAddresses(e))
  }

  lemma OnceMoreAchieves(p: Pass, S: Sig, e: Expr, r: Expr)
    requires WellSorted(S, r) && SameReach(p, e, r)
    ensures Achieves(p, S, e, Rewritten(p, S, r)) && SameReach(p, e, Rewritten(p, S, r))
  {
    RewritingAchieves(p, S, r);
    if p == StoreLoad { ResultIsLoadFree(S, r); }
  }

  ghost predicate InstrReach(p: Pass, i: Instr, j: Instr) {
    && SameReach(p, i.decode, j.decode) && |j.updates| == |i.updates|
    && forall k {:trigger i.updates[k]} {:trigger j.updates[k]} :: 0 <= k < |i.updates| ==>
         SameReach(p, i.updates[k].value, j.updates[k].value)
  }

  /** The pass has achieved what it can on the decode and on every update. */
  ghost predicate InstrAchieved(p: Pass, S: Sig, i: Instr, j: Instr) {
    && Achieves(p, S, i.decode, j.decode) && |j.updates| == |i.updates|
    && forall k {:trigger i.updates[k]} {:trigger j.updates[k]} :: 0 <= k < |i.updates| ==>
         Achieves(p, S, i.updates[k].value, j.updates[k].value)
  }

  lemma InstrOnceMoreAchieves(p: Pass, S: Sig, i: Instr, j: Instr)
    requires SortedInstr(S, j) && InstrReach(p, i, j)
    ensures InstrAchieved(p, S, i, RewrittenInstr(p, S, j)) && InstrReach(p, i, RewrittenInstr(p, S, j))
  {
    OnceMoreAchieves(p, S, i.decode, j.decode);
    var r := RewrittenInstr(p, S, j);
    forall k {:trigger i.updates[k]} {:trigger r.updates[k]} | 0 <= k < |i.updates|
      ensures Achieves(p, S, i.updates[k].value, r.updates[k].value)
      ensures SameReach(p, i.updates[k].value, r.updates[k].value)
    {
      OnceMoreAchieves(p, S, i.updates[k].value, j.updates[k].value);
    }
  }

  lemma {:induction false} AgainAchieves(p: Pass, S: Sig, i: Instr, k: nat)
    requires SortedInstr(S, i)
    ensures InstrReach(p, i, Again(p, S, i, k))
    ensures k > 0 ==> InstrAchieved(p, S, i, Again(p, S, i, k))
  {
    if k > 0 {
      var h: nat := k - 1;
      AgainAchieves(p, S, i, h);
      InstrOnceMoreAchieves(p, S, i, Again(p, S, i, h));
      InstrOnceMore(p, S, i, h, Again(p, S, i, h), RewrittenInstr(p, S, Again(p, S, i, h)));
    }
  }

  ghost predicate OptionReach(p: Pass, e: Option<Expr>, r: Option<Expr>) {
    (e.Some? <==> r.Some?) && (e.Some? ==> SameReach(p, e.value, r.value))
  }

  ghost predicate OptionAchieved(p: Pass, S: Sig, e: Option<Expr>, r: Option<Expr>) {
    (e.Some? <==> r.Some?) && (e.Some? ==> Achieves(p, S, e.value, r.value))
  }

  lemma OptionOnceMoreAchieves(p: Pass, S: Sig, e: Option<Expr>, r: Option<Expr>)
    requires SortedOption(S, r) && OptionReach(p, e, r)
    ensures OptionReach(p, e, RewrittenOption(p, S, r)) && OptionAchieved(p, S, e, RewrittenOption(p, S, r))
  {
    if e.Some? { OnceMoreAchieves(p, S, e.value, r.value); }
  }

  lemma {:induction false} AgainOptionAchieves(p: Pass, S: Sig, e: Option<Expr>, k: nat)
    requires SortedOption(S, e)
    ensures OptionReach(p, e, AgainOption(p, S, e, k))
    ensures k > 0 ==> OptionAchieved(p, S, e, AgainOption(p, S, e, k))
  {
    if k > 0 {
      var h: nat := k - 1;
      AgainOptionAchieves(p, S, e, h);
      OptionOnceMoreAchieves(p, S, e, AgainOption(p, S, e, h));
      OptionOnceMore(p, S, e, h, AgainOption(p, S, e, h), RewrittenOption(p, S, AgainOption(p, S, e, h)));
    }
  }

  // ---------- the pass ----------

  method RewriteInstr(n: InstrNode, f: FuncObjRewrExpr)
    requires SortedInstr(f.sig, n.Value()) && Exact(f.pass, f.sig, f.rule)
    modifies n, f
    ensures Exact(f.pass, f.sig, f.rule) && n.Value() == RewrittenInstr(f.pass, f.sig, old(n.Value()))
  {
    ghost var us := n.updates;
    n.decode := f.Rewr(n.decode);
    var i := 0;
    while i != |n.updates|
      invariant 0 <= i <= |n.updates| == |us| && Exact(f.pass, f.sig, f.rule)
      invariant n.decode == Rewritten(f.pass, f.sig, old(n.decode))
      invariant forall j {:trigger n.updates[j]} :: 0 <= j < i ==>
                  n.updates[j] == Update(us[j].state, Rewritten(f.pass, f.sig, us[j].value))
      invariant forall j {:trigger n.updates[j]} :: i <= j < |n.updates| ==> n.updates[j] == us[j]
    {
      var u := n.updates[i];
      assert u == us[i];
      var r := f.Rewr(u.value);
      n.updates := n.updates[i := Update(u.state, r)];
      i := i + 1;
    }
    assert n.updates == RewrittenUpdates(f.pass, f.sig, us);
  }

  method RewriteOption(e: Option<Expr>, f: FuncObjRewrExpr) returns (r: Option<Expr>)
    requires SortedOption(f.sig, e) && Exact(f.pass, f.sig, f.rule)
    modifies f
    ensures Exact(f.pass, f.sig, f.rule) && r == RewrittenOption(f.pass, f.sig, e)
  {
    if e.Some? {
      var x := f.Rewr(e.value);
      r := Some(x);
    } else {
      r := None;
    }
  }

  /** The conditions of an ILA before the pass. */
  datatype Conditions = Conditions(valid: Option<Expr>, fetch: Option<Expr>)

  /** The instructions and the conditions before the pass. */
  datatype Before = Before(instrs: map<InstrNode, Instr>, conds: map<IlaNode, Conditions>)

  /** How often an instruction or the conditions of an ILA have been rewritten. */
  datatype Counts = Counts(instrs: map<InstrNode, nat>, ilas: map<IlaNode, nat>)

  /** Every instruction and every condition is what it was, rewritten as often as counted. */
  ghost predicate Counted(p: Pass, S: Sig, was: Before, c: Counts)
    reads was.instrs.Keys, was.conds.Keys
  {
    && (forall n {:trigger n in was.instrs} :: n in was.instrs ==>
          n in c.instrs && InstrCounted(p, S, n, was.instrs[n], c.instrs[n]))
    && (forall m {:trigger m in was.conds} :: m in was.conds ==> m in c.ilas && CondsCounted(p, S, m, was.conds[m], c.ilas[m]))
  }

  ghost predicate InstrCounted(p: Pass, S: Sig, n: InstrNode, was: Instr, k: nat)
    reads n
  {
    SortedInstr(S, was) && n.Value() == Again(p, S, was, k)
  }

  lemma InstrOnceMore(p: Pass, S: Sig, was: Instr, k: nat, now: Instr, next: Instr)
    requires SortedInstr(S, was) && now == Again(p, S, was, k) && next == RewrittenInstr(p, S, now)
    ensures next == Again(p, S, was, k + 1)
  {
  }

  lemma OptionOnceMore(p: Pass, S: Sig, was: Option<Expr>, k: nat, now: Option<Expr>, next: Option<Expr>)
    requires SortedOption(S, was) && now == AgainOption(p, S, was, k) && next == RewrittenOption(p, S, now)
    ensures next == AgainOption(p, S, was, k + 1)
  {
  }

  ghost predicate CondsCounted(p: Pass, S: Sig, m: IlaNode, was: Conditions, k: nat)
    reads m
  {
    && SortedOption(S, was.valid) && SortedOption(S, was.fetch)
    && m.valid == AgainOption(p, S, was.valid, k) && m.fetch == AgainOption(p, S, was.fetch, k)
  }

  /** Nothing is rewritten less often, and the given instructions and ILAs more often. */
  ghost predicate More(was: Before, a: Counts, b: Counts, ns: set<InstrNode>, ms: set<IlaNode>) {
    && (forall n {:trigger n in was.instrs} :: n in was.instrs ==>
          n in a.instrs && n in b.instrs && b.instrs[n] >= a.instrs[n] && (n in ns ==> b.instrs[n] > a.instrs[n]))
    && (forall m {:trigger m in was.conds} :: m in was.conds ==>
          m in a.ilas && m in b.ilas && b.ilas[m] >= a.ilas[m] && (m in ms ==> b.ilas[m] > a.ilas[m]))
  }

  lemma MoreTrans(was: Before, a: Counts, b: Counts, c: Counts, ns: set<InstrNode>, ms: set<IlaNode>, ns': set<InstrNode>,
                  ms': set<IlaNode>)
    requires More(was, a, b, ns, ms) && More(was, b, c, ns', ms')
    ensures More(was, a, c, ns + ns', ms + ms')
  {
  }

  ghost predicate Within(h: Hierarchy, was: Before) {
    Instrs(h) <= was.instrs.Keys && Ilas(h) <= was.conds.Keys
  }

  method RewriteConditions(m: IlaNode, f: FuncObjRewrExpr, ghost was: Conditions, ghost k: nat)
    requires Exact(f.pass, f.sig, f.rule) && CondsCounted(f.pass, f.sig, m, was, k)
    modifies f, m
    ensures Exact(f.pass, f.sig, f.rule) && CondsCounted(f.pass, f.sig, m, was, k + 1)
  {
    ghost var v, e := m.valid, m.fetch;
    var valid := RewriteOption(m.valid, f);
    var fetch := RewriteOption(m.fetch, f);
    OptionOnceMore(f.pass, f.sig, was.valid, k, v, valid);
    OptionOnceMore(f.pass, f.sig, was.fetch, k, e, fetch);
    m.valid, m.fetch := valid, fetch;
  }

  /** The same, counted. */
  method RewriteConds(m: IlaNode, f: FuncObjRewrExpr, ghost was: Before, ghost c: Counts) returns (ghost c': Counts)
    requires m in was.conds && Exact(f.pass, f.sig, f.rule) && Counted(f.pass, f.sig, was, c)
    modifies f, m
    ensures Exact(f.pass, f.sig, f.rule) && Counted(f.pass, f.sig, was, c') && More(was, c, c', {}, {m})
  {
    RewriteConditions(m, f, was.conds[m], c.ilas[m]);
    c' := c.(ilas := c.ilas[m := c.ilas[m] + 1]);
    forall x {:trigger x in was.conds} | x in was.conds
      ensures x in c'.ilas && CondsCounted(f.pass, f.sig, x, was.conds[x], c'.ilas[x])
    {
      if x != m { assert CondsCounted(f.pass, f.sig, x, was.conds[x], c.ilas[x]); }
    }
  }

  /** One rewriting more. */
  method RewriteCounted(n: InstrNode, f: FuncObjRewrExpr, ghost was: Instr, ghost k: nat)
    requires Exact(f.pass, f.sig, f.rule) && InstrCounted(f.pass, f.sig, n, was, k)
    modifies f, n
    ensures Exact(f.pass, f.sig, f.rule) && InstrCounted(f.pass, f.sig, n, was, k + 1)
  {
    ghost var now := n.Value();
    RewriteInstr(n, f);
    InstrOnceMore(f.pass, f.sig, was, k, now, n.Value());
  }

  method RewriteOne(n: InstrNode, f: FuncObjRewrExpr, ghost was: Before, ghost c: Counts) returns (ghost c': Counts)
    requires n in was.instrs && Exact(f.pass, f.sig, f.rule) && Counted(f.pass, f.sig, was, c)
    modifies f, n
    ensures Exact(f.pass, f.sig, f.rule) && Counted(f.pass, f.sig, was, c') && More(was, c, c', {n}, {})
  {
    RewriteCounted(n, f, was.instrs[n], c.instrs[n]);
    c' := c.(instrs := c.instrs[n := c.instrs[n] + 1]);
    forall x {:trigger x in was.instrs} | x in was.instrs
      ensures x in c'.instrs && InstrCounted(f.pass, f.sig, x, was.instrs[x], c'.instrs[x])
    {
      if x != n {
        assert old(InstrCounted(f.pass, f.sig, x, was.instrs[x], c.instrs[x]));
        assert c'.instrs[x] == c.instrs[x];
      }
    }
    forall m {:trigger m in was.conds} | m in was.conds
      ensures m in c'.ilas && CondsCounted(f.pass, f.sig, m, was.conds[m], c'.ilas[m])
    {
      assert old(CondsCounted(f.pass, f.sig, m, was.conds[m], c.ilas[m]));
    }
  }

  lemma MembersPush(ns: seq<InstrNode>, i: nat)
    requires i < |ns|
    ensures Members(ns[..i + 1]) == Members(ns[..i]) + {ns[i]}
  {
    assert ns[..i + 1] == ns[..i] + [ns[i]];
  }

  method RewriteInstrs(ns: seq<InstrNode>, f: FuncObjRewrExpr, ghost was: Before, ghost c: Counts) returns (ghost c': Counts)
    requires Members(ns) <= was.instrs.Keys
    requires Exact(f.pass, f.sig, f.rule) && Counted(f.pass, f.sig, was, c)
    modifies f, ns
    ensures Exact(f.pass, f.sig, f.rule) && Counted(f.pass, f.sig, was, c') && More(was, c, c', Members(ns), {})
  {
    c' := c;
    var i := 0;
    while i != |ns|
      invariant 0 <= i <= |ns| && Exact(f.pass, f.sig, f.rule) && Counted(f.pass, f.sig, was, c')
      invariant More(was, c, c', Members(ns[..i]), {})
    {
      assert ns[i] in Members(ns);
      ghost var before := c';
      c' := RewriteOne(ns[i], f, was, c');
      MoreTrans(was, c, before, c', Members(ns[..i]), {}, {ns[i]}, {});
      MembersPush(ns, i);
      i := i + 1;
    }
    assert ns[..i] == ns;
  }

  /** Every instruction and every condition of the hierarchy is rewritten. */
  method RewriteGeneric(h: Hierarchy, f: FuncObjRewrExpr, ghost was: Before, ghost c: Counts) returns (ghost c': Counts)
    requires Within(h, was) && Exact(f.pass, f.sig, f.rule) && Counted(f.pass, f.sig, was, c)
    modifies f, was.instrs.Keys, was.conds.Keys
    ensures Exact(f.pass, f.sig, f.rule) && Counted(f.pass, f.sig, was, c') && More(was, c, c', Instrs(h), Ilas(h))
    decreases h
  {
    ghost var own := Members(h.ila.instrs);
    assert own <= Instrs(h);
    ghost var c1 := RewriteConds(h.ila, f, was, c);
    ghost var c2 := RewriteInstrs(h.ila.instrs, f, was, c1);
    MoreTrans(was, c, c1, c2, {}, {h.ila}, own, {});
    c' := c2;
    var i := 0;
    while i != |h.children|
      invariant 0 <= i <= |h.children| && Exact(f.pass, f.sig, f.rule) && Counted(f.pass, f.sig, was, c')
      invariant More(was, c, c', own + InstrsOf(h.children[..i]), {h.ila} + IlasOf(h.children[..i]))
    {
      assert Instrs(h.children[i]) <= Instrs(h) && Ilas(h.children[i]) <= Ilas(h);
      ghost var before := c';
      c' := RewriteGeneric(h.children[i], f, was, c');
      OneChildMore(h, i, was, c, before, c');
      i := i + 1;
    }
    assert h.children[..i] == h.children;
  }

  lemma OneChildMore(h: Hierarchy, i: nat, was: Before, a: Counts, b: Counts, c: Counts)
    requires i < |h.children| && More(was, b, c, Instrs(h.children[i]), Ilas(h.children[i]))
    requires
      var own := Members(h.ila.instrs);
      More(was, a, b, own + InstrsOf(h.children[..i]), {h.ila} + IlasOf(h.children[..i]))
    ensures
      var own := Members(h.ila.instrs);
      More(was, a, c, own + InstrsOf(h.children[..i + 1]), {h.ila} + IlasOf(h.children[..i + 1]))
  {
    var own := Members(h.ila.instrs);
    var k := h.children[i];
    MoreTrans(was, a, b, c, own + InstrsOf(h.children[..i]), {h.ila} + IlasOf(h.children[..i]), Instrs(k), Ilas(k));
    assert h.children[..i + 1] == h.children[..i] + [k];
    InstrsPush(h.children[..i], k);
  }

  lemma {:induction false} InstrsPush(hs: seq<Hierarchy>, h: Hierarchy)
    ensures InstrsOf(hs + [h]) == InstrsOf(hs) + Instrs(h) && IlasOf(hs + [h]) == IlasOf(hs) + Ilas(h)
  {
    if hs == [] {
      assert hs + [h] == [h];
    } else {
      InstrsPush(hs[1..], h);
      assert (hs + [h])[1..] == hs[1..] + [h];
    }
  }

  /** The instructions and the conditions as they are. */
  ghost predicate Snapshot(was: Before, ns: set<InstrNode>, ms: set<IlaNode>)
    reads ns, ms
  {
    && was.instrs.Keys == ns && was.conds.Keys == ms
    && (forall n {:trigger n in ns} :: n in ns ==> was.instrs[n] == n.Value())
    && (forall m {:trigger m in ms} :: m in ms ==> was.conds[m] == Conditions(m.valid, m.fetch))
  }

  ghost predicate SortedBefore(S: Sig, was: Before) {
    && (forall n {:trigger n in was.instrs} :: n in was.instrs ==> SortedInstr(S, was.instrs[n]))
    && (forall m {:trigger m in was.conds} :: m in was.conds ==>
          SortedOption(S, was.conds[m].valid) && SortedOption(S, was.conds[m].fetch))
  }

  lemma Uncounted(p: Pass, S: Sig, was: Before, ns: set<InstrNode>, ms: set<IlaNode>)
    requires Snapshot(was, ns, ms) && SortedBefore(S, was)
    ensures Counted(p, S, was, Counts(map n | n in ns :: 0, map m | m in ms :: 0))
  {
    forall n {:trigger n in was.instrs} | n in was.instrs ensures InstrCounted(p, S, n, was.instrs[n], 0) {
      assert n in ns;
    }
    forall m {:trigger m in was.conds} | m in was.conds ensures CondsCounted(p, S, m, was.conds[m], 0) {
      assert m in ms;
    }
  }

  /** An instruction has been rewritten, can stand for what it was, and what the pass removes is gone. */
  ghost predicate InstrDone(p: Pass, S: Sig, n: InstrNode, was: Instr, inside: bool)
    requires SortedInstr(S, was)
    reads n
  {
    && InstrReplaces(S, was, n.Value())
    && (inside ==> InstrAchieved(p, S, was, n.Value()) && exists k: nat :: k > 0 && n.Value() == Again(p, S, was, k))
  }

  ghost predicate CondsDone(p: Pass, S: Sig, m: IlaNode, was: Conditions, inside: bool)
    reads m
  {
    && OptionReplaces(S, was.valid, m.valid) && OptionReplaces(S, was.fetch, m.fetch)
    && (inside ==> OptionAchieved(p, S, was.valid, m.valid) && OptionAchieved(p, S, was.fetch, m.fetch))
    && (inside ==> exists k: nat :: k > 0 && CondsCounted(p, S, m, was, k))
  }

  lemma InstrIsDone(p: Pass, S: Sig, n: InstrNode, was: Instr, k: nat)
    requires InstrCounted(p, S, n, was, k)
    ensures InstrDone(p, S, n, was, k > 0)
  {
    AgainReplaces(p, S, was, k);
    AgainAchieves(p, S, was, k);
  }

  lemma CondsAreDone(p: Pass, S: Sig, m: IlaNode, was: Conditions, k: nat)
    requires CondsCounted(p, S, m, was, k)
    ensures CondsDone(p, S, m, was, k > 0)
  {
    AgainOptionReplaces(p, S, was.valid, k);
    AgainOptionReplaces(p, S, was.fetch, k);
    AgainOptionAchieves(p, S, was.valid, k);
    AgainOptionAchieves(p, S, was.fetch, k);
  }

  /** A whole pass over well-sorted ILAs: every decode, update and condition of the hierarchy has been
      rewritten, by the simple form, can stand for what it was, and has none of the patterns the pass
      removes (where it gets to). */
  method RunPass(p: Pass, sig: Sig, h: Hierarchy, ghost was: Before, ghost ns: set<InstrNode>, ghost ms: set<IlaNode>)
    requires Instrs(h) <= ns && Ilas(h) <= ms && Snapshot(was, ns, ms) && SortedBefore(sig, was)
    modifies ns, ms
    ensures forall n {:trigger n in ns} :: n in ns ==> InstrDone(p, sig, n, was.instrs[n], n in Instrs(h))
    ensures forall m {:trigger m in ms} :: m in ms ==> CondsDone(p, sig, m, was.conds[m], m in Ilas(h))
  {
    var f := new FuncObjRewrExpr(p, sig);
    Uncounted(p, sig, was, ns, ms);
    ghost var none := Counts(map n | n in ns :: 0, map m | m in ms :: 0);
    ghost var c := RewriteGeneric(h, f, was, none);
    forall n {:trigger n in ns} | n in ns ensures InstrDone(p, sig, n, was.instrs[n], n in Instrs(h)) {
      assert n in was.instrs;
      InstrIsDone(p, sig, n, was.instrs[n], c.instrs[n]);
    }
    forall m {:trigger m in ms} | m in ms ensures CondsDone(p, sig, m, was.conds[m], m in Ilas(h)) {
      assert m in was.conds;
      CondsAreDone(p, sig, m, was.conds[m], c.ilas[m]);
    }
  }

  // ---------- the transition relation ----------

  ghost predicate AllInstrReplace(S: Sig, a: seq<Instr>, b: seq<Instr>) {
    |b| == |a| && forall k {:trigger a[k]} {:trigger b[k]} :: 0 <= k < |a| ==> InstrReplaces(S, a[k], b[k])
  }

  lemma DecodesKept(S: Sig, I: Interp, a: Instr, b: Instr, cur: Env)
    requires TypedInterp(S, I) && TypedEnv(S, cur) && InstrReplaces(S, a, b)
    ensures Decodes(I, a, cur) <==> Decodes(I, b, cur)
  {
    assert Eval(I, a.decode, cur) == Eval(I, b.decode, cur);
  }

  lemma {:induction false} FindKept(S: Sig, us: seq<Update>, vs: seq<Update>, x: string)
    requires UpdatesReplace(S, us, vs)
    ensures Find(us, x) == Find(vs, x)
  {
    if us != [] && us[0].state != x {
      FindKept(S, us[1..], vs[1..], x);
    }
  }

  lemma UpdateKept(S: Sig, I: Interp, a: Instr, b: Instr, cur: Env, x: string)
    requires TypedInterp(S, I) && TypedEnv(S, cur) && InstrReplaces(S, a, b)
    ensures Eval(I, StateUpdCmpl(a, x), cur) == Eval(I, StateUpdCmpl(b, x), cur)
  {
    FindKept(S, a.updates, b.updates, x);
    var k := Find(a.updates, x);
    if k < |a.updates| {
      assert Replaces(S, a.updates[k].value, b.updates[k].value);
    }
  }

  lemma ExecutesKept(S: Sig, I: Interp, a: Instr, b: Instr, vars: seq<string>, cur: Env, nxt: Env)
    requires TypedInterp(S, I) && TypedEnv(S, cur) && InstrReplaces(S, a, b)
    ensures Executes(I, a, vars, cur, nxt) <==> Executes(I, b, vars, cur, nxt)
  {
    DecodesKept(S, I, a, b, cur);
    forall v {:trigger vars[v]} | 0 <= v < |vars|
      ensures Eval(I, StateUpdCmpl(a, vars[v]), cur) == Eval(I, StateUpdCmpl(b, vars[v]), cur)
    {
      UpdateKept(S, I, a, b, cur, vars[v]);
    }
  }

  /** From every well-typed state the rewritten instructions allow exactly the same steps. */
  lemma TransitionKept(S: Sig, I: Interp, a: seq<Instr>, b: seq<Instr>, vars: seq<string>, cur: Env, nxt: Env)
    requires TypedInterp(S, I) && TypedEnv(S, cur) && AllInstrReplace(S, a, b)
    ensures MonoStep(I, a, vars, cur, nxt) <==> MonoStep(I, b, vars, cur, nxt)
  {
    forall k {:trigger a[k]} {:trigger b[k]} | 0 <= k < |a|
      ensures Executes(I, a[k], vars, cur, nxt) <==> Executes(I, b[k], vars, cur, nxt)
      ensures Decodes(I, a[k], cur) <==> Decodes(I, b[k], cur)
    {
      ExecutesKept(S, I, a[k], b[k], vars, cur, nxt);
      DecodesKept(S, I, a[k], b[k], cur);
    }
    assert Deadlocked(I, a, cur) <==> Deadlocked(I, b, cur);
  }
}
