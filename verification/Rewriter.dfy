/** Memoised rewriting of expression graphs: conditional stores and loads from stores. */
module Rewriter {
  import opened Ast
  import opened Ila
  import opened Sorts
  import opened Redexes

  datatype Pass = CondStore | StoreLoad

  // ---------- rewriting one node, its arguments being in the table ----------

  predicate IsVarOrConst(e: Expr) {
    e.Var? || e.Const?
  }

  predicate IsStore(e: Expr) {
    e.App? && e.op == kStore && |e.args| == 3
  }

  /** get: the result in the table. */
  function Get(rule: map<Expr, Expr>, e: Expr): Expr
    requires e in rule
  {
    rule[e]
  }

  function GetAll(rule: map<Expr, Expr>, es: seq<Expr>): (rs: seq<Expr>)
    requires forall i {:trigger es[i]} :: 0 <= i < |es| ==> es[i] in rule
    ensures |rs| == |es| && forall i :: 0 <= i < |es| ==> rs[i] == rule[es[i]]
  {
    seq(|es|, i requires 0 <= i < |es| => Get(rule, es[i]))
  }

  predicate ArgsIn(rule: map<Expr, Expr>, e: Expr) {
    e.App? ==> forall i {:trigger e.args[i]} :: 0 <= i < |e.args| ==> e.args[i] in rule
  }

  /** The default: the same operator on the rewritten arguments. */
  function RewriteOp(rule: map<Expr, Expr>, e: Expr): Expr
    requires e.App? && ArgsIn(rule, e)
  {
    App(e.op, GetAll(rule, e.args), e.params)
  }

  /** Patterns 0 to 2 of ITE over memories. */
  function RewriteCondMem(S: Sig, rule: map<Expr, Expr>, e: Expr): Expr
    requires e.App? && e.op == kIfThenElse && WellSorted(S, e) && ArgsIn(rule, e)
    requires forall i {:trigger e.args[i]} :: 0 <= i < |e.args| ==> WellSorted(S, rule[e.args[i]])
  {
    var cond, mem1, mem2 := Get(rule, e.args[0]), Get(rule, e.args[1]), Get(rule, e.args[2]);
    if mem1 == mem2 then mem1
    else if IsStore(mem1) && IsVarOrConst(mem2) && mem1.args[0] == mem2 then
      Store(mem2, mem1.args[1], Ite(cond, mem1.args[2], Load(mem2, mem1.args[1])))
    else if IsVarOrConst(mem1) && IsStore(mem2) && mem2.args[0] == mem1 then
      Store(mem1, mem2.args[1], Ite(cond, Load(mem1, mem2.args[1]), mem2.args[2]))
    else if IsStore(mem1) && IsStore(mem2) && mem1.args[0] == mem2.args[0] then
      Store(mem1.args[0], Ite(cond, mem1.args[1], mem2.args[1]), Ite(cond, mem1.args[2], mem2.args[2]))
    else RewriteOp(rule, e)
  }

  /** Pattern 0 of LOAD: loading from a single store. */
  function RewriteLoad(S: Sig, rule: map<Expr, Expr>, e: Expr): Expr
    requires e.App? && e.op == kLoad && WellSorted(S, e) && ArgsIn(rule, e)
    requires forall i {:trigger e.args[i]} :: 0 <= i < |e.args| ==> WellSorted(S, rule[e.args[i]])
  {
    var mem := Get(rule, e.args[0]);
    if IsVarOrConst(mem) then e
    else if IsStore(mem) && IsVarOrConst(mem.args[0]) then
      var addr := Get(rule, e.args[1]);
      Ite(Eq(addr, mem.args[1]), mem.args[2], Load(mem.args[0], addr))
    else RewriteOp(rule, e)
  }

  function Rewrite(p: Pass, S: Sig, rule: map<Expr, Expr>, e: Expr): Expr
    requires WellSorted(S, e) && ArgsIn(rule, e)
    requires e.App? ==> forall i {:trigger e.args[i]} :: 0 <= i < |e.args| ==> WellSorted(S, rule[e.args[i]])
  {
    if IsVarOrConst(e) then e
    else if p == CondStore && e.op == kIfThenElse && SortOf(S, e) == MemS then RewriteCondMem(S, rule, e)
    else if p == StoreLoad && e.op == kLoad then RewriteLoad(S, rule, e)
    else RewriteOp(rule, e)
  }

  // ---------- each pattern keeps the meaning ----------

  lemma EvalLoad(I: Interp, m: Expr, a: Expr, env: Env)
    ensures Eval(I, Load(m, a), env) == BvV(Words(Eval(I, m, env))[Word(Eval(I, a, env))])
  {
    assert EvalAll(I, [m, a], env) == [Eval(I, m, env), Eval(I, a, env)];
  }

  lemma EvalEq(I: Interp, a: Expr, b: Expr, env: Env)
    ensures Eval(I, Eq(a, b), env) == BoolV(Eval(I, a, env) == Eval(I, b, env))
  {
    assert EvalAll(I, [a, b], env) == [Eval(I, a, env), Eval(I, b, env)];
  }

  lemma EvalStore(I: Interp, m: Expr, a: Expr, d: Expr, env: Env)
    ensures Eval(I, Store(m, a, d), env) ==
            MemV(Words(Eval(I, m, env))[Word(Eval(I, a, env)) := Word(Eval(I, d, env))])
  {
    EvalThree(I, m, a, d, env);
  }

  lemma EvalThree(I: Interp, c: Expr, a: Expr, b: Expr, env: Env)
    ensures EvalAll(I, [c, a, b], env) == [Eval(I, c, env), Eval(I, a, env), Eval(I, b, env)]
  {
  }

  lemma ApplyIte(I: Interp, vs: seq<Value>)
    requires |vs| == 3
    ensures Apply(I, kIfThenElse, [], vs) == if Truth(vs[0]) then vs[1] else vs[2]
  {
  }

  lemma EvalIte(I: Interp, c: Expr, a: Expr, b: Expr, env: Env)
    ensures Eval(I, Ite(c, a, b), env) == if Truth(Eval(I, c, env)) then Eval(I, a, env) else Eval(I, b, env)
  {
    var vs := EvalAll(I, [c, a, b], env);
    EvalThree(I, c, a, b, env);
    ApplyIte(I, vs);
    assert Eval(I, Ite(c, a, b), env) == Apply(I, kIfThenElse, [], vs);
  }

  /** A well-sorted store, taken apart. */
  lemma StoreParts(S: Sig, e: Expr)
    requires IsStore(e) && WellSorted(S, e)
    ensures |e.args| == 3 && e == Store(e.args[0], e.args[1], e.args[2])
    ensures WellSorted(S, e.args[0]) && WellSorted(S, e.args[1]) && WellSorted(S, e.args[2])
    ensures SortOf(S, e.args[0]) == MemS && SortOf(S, e.args[1]) == BvS && SortOf(S, e.args[2]) == BvS
  {
    var ss := SortsOf(S, e.args);
    assert ss[0] == MemS && ss[1] == BvS && ss[2] == BvS;
  }

  lemma SortsOf2(S: Sig, a: Expr, b: Expr)
    ensures SortsOf(S, [a, b]) == [SortOf(S, a), SortOf(S, b)]
  {
  }

  lemma SortsOf3(S: Sig, a: Expr, b: Expr, c: Expr)
    ensures SortsOf(S, [a, b, c]) == [SortOf(S, a), SortOf(S, b), SortOf(S, c)]
  {
  }

  lemma IteSorted(S: Sig, c: Expr, a: Expr, b: Expr)
    requires WellSorted(S, c) && WellSorted(S, a) && WellSorted(S, b)
    requires SortOf(S, c) == BoolS && SortOf(S, a) == SortOf(S, b)
    ensures WellSorted(S, Ite(c, a, b)) && SortOf(S, Ite(c, a, b)) == SortOf(S, a)
  {
    SortsOf3(S, c, a, b);
  }

  lemma LoadSorted(S: Sig, m: Expr, a: Expr)
    requires WellSorted(S, m) && WellSorted(S, a) && SortOf(S, m) == MemS && SortOf(S, a) == BvS
    ensures WellSorted(S, Load(m, a)) && SortOf(S, Load(m, a)) == BvS
  {
    SortsOf2(S, m, a);
  }

  lemma StoreSorted(S: Sig, m: Expr, a: Expr, d: Expr)
    requires WellSorted(S, m) && WellSorted(S, a) && WellSorted(S, d)
    requires SortOf(S, m) == MemS && SortOf(S, a) == BvS && SortOf(S, d) == BvS
    ensures WellSorted(S, Store(m, a, d)) && SortOf(S, Store(m, a, d)) == MemS
  {
    SortsOf3(S, m, a, d);
  }

  lemma EqSorted(S: Sig, a: Expr, b: Expr)
    requires WellSorted(S, a) && WellSorted(S, b) && SortOf(S, a) == SortOf(S, b)
    ensures WellSorted(S, Eq(a, b)) && SortOf(S, Eq(a, b)) == BoolS
  {
    SortsOf2(S, a, b);
  }

  /** Storing what is there changes nothing. */
  lemma StoreBack(m: Mem, a: int)
    ensures m[a := m[a]] == m
  {
  }

  /** ITE(c, m, m) is m. */
  lemma IdenticalBranches(S: Sig, c: Expr, m: Expr)
    requires WellSorted(S, Ite(c, m, m))
    ensures Replaces(S, Ite(c, m, m), m)
  {
    SortsOf3(S, c, m, m);
    assert WellSorted(S, [c, m, m][1]);
    forall I: Interp, env: Env | TypedInterp(S, I) && TypedEnv(S, env) ensures Eval(I, Ite(c, m, m), env) == Eval(I, m, env) {
      EvalIte(I, c, m, m, env);
    }
  }

  /** ITE(c, ST(m, a, d), m) is ST(m, a, ITE(c, d, LD(m, a))). */
  lemma StoreOrKeep(S: Sig, c: Expr, m: Expr, a: Expr, d: Expr)
    requires WellSorted(S, c) && WellSorted(S, Store(m, a, d)) && SortOf(S, c) == BoolS
    ensures Replaces(S, Ite(c, Store(m, a, d), m), Store(m, a, Ite(c, d, Load(m, a))))
  {
    StoreParts(S, Store(m, a, d));
    IteSorted(S, c, Store(m, a, d), m);
    LoadSorted(S, m, a);
    IteSorted(S, c, d, Load(m, a));
    StoreSorted(S, m, a, Ite(c, d, Load(m, a)));
    forall I: Interp, env: Env | TypedInterp(S, I) && TypedEnv(S, env)
      ensures Eval(I, Ite(c, Store(m, a, d), m), env) == Eval(I, Store(m, a, Ite(c, d, Load(m, a))), env)
    {
      EvalHasSort(S, I, m, env);
      EvalHasSort(S, I, d, env);
      StoreBack(Words(Eval(I, m, env)), Word(Eval(I, a, env)));
      EvalIte(I, c, Store(m, a, d), m, env);
      EvalStore(I, m, a, d, env);
      EvalStore(I, m, a, Ite(c, d, Load(m, a)), env);
      EvalIte(I, c, d, Load(m, a), env);
      EvalLoad(I, m, a, env);
    }
  }

  /** ITE(c, m, ST(m, a, d)) is ST(m, a, ITE(c, LD(m, a), d)). */
  lemma KeepOrStore(S: Sig, c: Expr, m: Expr, a: Expr, d: Expr)
    requires WellSorted(S, c) && WellSorted(S, Store(m, a, d)) && SortOf(S, c) == BoolS
    ensures Replaces(S, Ite(c, m, Store(m, a, d)), Store(m, a, Ite(c, Load(m, a), d)))
  {
    StoreParts(S, Store(m, a, d));
    IteSorted(S, c, m, Store(m, a, d));
    LoadSorted(S, m, a);
    IteSorted(S, c, Load(m, a), d);
    StoreSorted(S, m, a, Ite(c, Load(m, a), d));
    forall I: Interp, env: Env | TypedInterp(S, I) && TypedEnv(S, env)
      ensures Eval(I, Ite(c, m, Store(m, a, d)), env) == Eval(I, Store(m, a, Ite(c, Load(m, a), d)), env)
    {
      EvalHasSort(S, I, m, env);
      EvalHasSort(S, I, d, env);
      StoreBack(Words(Eval(I, m, env)), Word(Eval(I, a, env)));
      EvalIte(I, c, m, Store(m, a, d), env);
      EvalStore(I, m, a, d, env);
      EvalStore(I, m, a, Ite(c, Load(m, a), d), env);
      EvalIte(I, c, Load(m, a), d, env);
      EvalLoad(I, m, a, env);
    }
  }

  /** ITE(c, ST(m, a, d), ST(m, b, g)) is ST(m, ITE(c, a, b), ITE(c, d, g)). */
  lemma StoreEither(S: Sig, c: Expr, m: Expr, a: Expr, d: Expr, b: Expr, g: Expr)
    requires WellSorted(S, c) && WellSorted(S, Store(m, a, d)) && WellSorted(S, Store(m, b, g)) && SortOf(S, c) == BoolS
    ensures Replaces(S, Ite(c, Store(m, a, d), Store(m, b, g)), Store(m, Ite(c, a, b), Ite(c, d, g)))
  {
    StoreParts(S, Store(m, a, d));
    StoreParts(S, Store(m, b, g));
    IteSorted(S, c, Store(m, a, d), Store(m, b, g));
    IteSorted(S, c, a, b);
    IteSorted(S, c, d, g);
    StoreSorted(S, m, Ite(c, a, b), Ite(c, d, g));
    forall I: Interp, env: Env | TypedInterp(S, I) && TypedEnv(S, env)
      ensures Eval(I, Ite(c, Store(m, a, d), Store(m, b, g)), env) == Eval(I, Store(m, Ite(c, a, b), Ite(c, d, g)), env)
    {
      EvalIte(I, c, Store(m, a, d), Store(m, b, g), env);
      EvalStore(I, m, a, d, env);
      EvalStore(I, m, b, g, env);
      EvalStore(I, m, Ite(c, a, b), Ite(c, d, g), env);
      EvalIte(I, c, a, b, env);
      EvalIte(I, c, d, g, env);
    }
  }

  /** LD(ST(m, a, d), b) is ITE(b == a, d, LD(m, b)). */
  lemma LoadFromStore(S: Sig, m: Expr, a: Expr, d: Expr, b: Expr)
    requires WellSorted(S, Store(m, a, d)) && WellSorted(S, b) && SortOf(S, b) == BvS
    ensures Replaces(S, Load(Store(m, a, d), b), Ite(Eq(b, a), d, Load(m, b)))
  {
    StoreParts(S, Store(m, a, d));
    LoadSorted(S, Store(m, a, d), b);
    LoadSorted(S, m, b);
    EqSorted(S, b, a);
    IteSorted(S, Eq(b, a), d, Load(m, b));
    forall I: Interp, env: Env | TypedInterp(S, I) && TypedEnv(S, env)
      ensures Eval(I, Load(Store(m, a, d), b), env) == Eval(I, Ite(Eq(b, a), d, Load(m, b)), env)
    {
      EvalHasSort(S, I, a, env);
      EvalHasSort(S, I, b, env);
      EvalHasSort(S, I, d, env);
      EvalLoad(I, Store(m, a, d), b, env);
      EvalStore(I, m, a, d, env);
      EvalIte(I, Eq(b, a), d, Load(m, b), env);
      EvalEq(I, b, a, env);
      EvalLoad(I, m, b, env);
    }
  }

  // ---------- each rewriting step keeps the meaning ----------

  /** Every entry of the table can stand for its key. */
  ghost predicate Sound(S: Sig, rule: map<Expr, Expr>) {
    forall k {:trigger rule[k]} {:trigger k in rule} :: k in rule ==> Replaces(S, k, rule[k])
  }

  lemma DefaultReplaces(S: Sig, rule: map<Expr, Expr>, e: Expr)
    requires e.App? && WellSorted(S, e) && ArgsIn(rule, e) && Sound(S, rule)
    ensures Replaces(S, e, RewriteOp(rule, e))
  {
    var rs := GetAll(rule, e.args);
    forall i {:trigger rs[i]} | 0 <= i < |e.args| ensures Replaces(S, e.args[i], rs[i]) {
      assert e.args[i] in rule;
    }
    ArgsReplaced(S, e.op, e.args, rs, e.params);
  }

  lemma CondMemReplaces(S: Sig, rule: map<Expr, Expr>, e: Expr)
    requires e.App? && e.op == kIfThenElse && WellSorted(S, e) && ArgsIn(rule, e) && Sound(S, rule)
    ensures Replaces(S, e, RewriteCondMem(S, rule, e))
  {
    DefaultReplaces(S, rule, e);
    var c, m, n := rule[e.args[0]], rule[e.args[1]], rule[e.args[2]];
    var d := RewriteOp(rule, e);
    assert d == Ite(c, m, n);
    assert Replaces(S, e.args[0], c) && Replaces(S, e.args[1], m) && Replaces(S, e.args[2], n);
    assert SortsOf(S, e.args)[0] == BoolS;
    if IsStore(m) { StoreParts(S, m); }
    if IsStore(n) { StoreParts(S, n); }
    if m == n {
      IdenticalBranches(S, c, m);
    } else if IsStore(m) && IsVarOrConst(n) && m.args[0] == n {
      StoreOrKeep(S, c, n, m.args[1], m.args[2]);
    } else if IsVarOrConst(m) && IsStore(n) && n.args[0] == m {
      KeepOrStore(S, c, m, n.args[1], n.args[2]);
    } else if IsStore(m) && IsStore(n) && m.args[0] == n.args[0] {
      StoreEither(S, c, m.args[0], m.args[1], m.args[2], n.args[1], n.args[2]);
    } else {
      return;
    }
    ReplacesTrans(S, e, d, RewriteCondMem(S, rule, e));
  }

  lemma LoadReplaces(S: Sig, rule: map<Expr, Expr>, e: Expr)
    requires e.App? && e.op == kLoad && WellSorted(S, e) && ArgsIn(rule, e) && Sound(S, rule)
    ensures Replaces(S, e, RewriteLoad(S, rule, e))
  {
    DefaultReplaces(S, rule, e);
    var m, b := rule[e.args[0]], rule[e.args[1]];
    assert RewriteOp(rule, e) == Load(m, b);
    assert Replaces(S, e.args[0], m) && Replaces(S, e.args[1], b);
    assert SortsOf(S, e.args)[1] == BvS;
    if !IsVarOrConst(m) && IsStore(m) && IsVarOrConst(m.args[0]) {
      StoreParts(S, m);
      LoadFromStore(S, m.args[0], m.args[1], m.args[2], b);
      ReplacesTrans(S, e, Load(m, b), RewriteLoad(S, rule, e));
    }
  }

  /** One step of either pass. */
  lemma RewriteReplaces(p: Pass, S: Sig, rule: map<Expr, Expr>, e: Expr)
    requires WellSorted(S, e) && ArgsIn(rule, e) && Sound(S, rule)
    ensures e.App? ==> forall i {:trigger e.args[i]} :: 0 <= i < |e.args| ==> WellSorted(S, rule[e.args[i]])
    ensures Replaces(S, e, Rewrite(p, S, rule, e))
  {
    if e.App? {
      DefaultReplaces(S, rule, e);
      if p == CondStore && e.op == kIfThenElse { CondMemReplaces(S, rule, e); }
      if p == StoreLoad && e.op == kLoad { LoadReplaces(S, rule, e); }
    }
  }

  // ---------- the simple form: rewriting a tree from its leaves ----------

  /** The results for the arguments of an expression. */
  ghost function ArgResults(p: Pass, S: Sig, e: Expr): (m: map<Expr, Expr>)
    requires e.App? && WellSorted(S, e)
    ensures ArgsIn(m, e) && Sound(S, m)
    ensures forall i {:trigger e.args[i]} :: 0 <= i < |e.args| ==> m[e.args[i]] == Rewritten(p, S, e.args[i])
    decreases Size(e), 0
  {
    ArgsAreSmaller(S, e);
    map a | a in e.args :: Rewritten(p, S, a)
  }

  /** Every node is rewritten over its rewritten arguments, wherever it occurs. */
  ghost function Rewritten(p: Pass, S: Sig, e: Expr): (r: Expr)
    requires WellSorted(S, e)
    ensures Replaces(S, e, r)
    decreases Size(e), 1
  {
    if IsVarOrConst(e) then e
    else
      RewriteReplaces(p, S, ArgResults(p, S, e), e);
      Rewrite(p, S, ArgResults(p, S, e), e)
  }

  lemma ArgsAreSmaller(S: Sig, e: Expr)
    requires e.App? && WellSorted(S, e)
    ensures forall a {:trigger a in e.args} :: a in e.args ==> WellSorted(S, a) && Size(a) < Size(e)
  {
    forall a {:trigger a in e.args} | a in e.args ensures WellSorted(S, a) && Size(a) < Size(e) {
      var i :| 0 <= i < |e.args| && e.args[i] == a;
      assert Size(e.args[i]) <= SizeOf(e.args);
    }
  }

  /** The table holds what the simple form gives. */
  ghost predicate Exact(p: Pass, S: Sig, rule: map<Expr, Expr>) {
    forall k {:trigger rule[k]} {:trigger k in rule} :: k in rule ==> WellSorted(S, k) && rule[k] == Rewritten(p, S, k)
  }

  lemma ExactIsSound(p: Pass, S: Sig, rule: map<Expr, Expr>)
    requires Exact(p, S, rule)
    ensures Sound(S, rule)
  {
  }

  /** Through an exact table a node is rewritten as the simple form rewrites it. */
  lemma RewriteIsRewritten(p: Pass, S: Sig, rule: map<Expr, Expr>, e: Expr)
    requires WellSorted(S, e) && ArgsIn(rule, e) && Exact(p, S, rule)
    ensures e.App? ==> forall i {:trigger e.args[i]} :: 0 <= i < |e.args| ==> WellSorted(S, rule[e.args[i]])
    ensures Rewrite(p, S, rule, e) == Rewritten(p, S, e)
  {
    ExactIsSound(p, S, rule);
    RewriteReplaces(p, S, rule, e);
    if e.App? {
      var m := ArgResults(p, S, e);
      RewriteReplaces(p, S, m, e);
      forall i {:trigger e.args[i]} | 0 <= i < |e.args| ensures rule[e.args[i]] == m[e.args[i]] {
      }
      SameArgs(p, S, rule, m, e);
    }
  }

  /** Rewriting a node asks the table for its arguments only. */
  lemma SameArgs(p: Pass, S: Sig, a: map<Expr, Expr>, b: map<Expr, Expr>, e: Expr)
    requires e.App? && WellSorted(S, e) && ArgsIn(a, e) && ArgsIn(b, e)
    requires forall i {:trigger e.args[i]} :: 0 <= i < |e.args| ==> a[e.args[i]] == b[e.args[i]] && WellSorted(S, a[e.args[i]])
    ensures Rewrite(p, S, a, e) == Rewrite(p, S, b, e)
  {
    assert GetAll(a, e.args) == GetAll(b, e.args);
  }

  // ---------- what rewriting achieves ----------

  /** No conditional store of a known pattern is left; no load from a single store is left exactly if none
      was in the address of a load from a variable or constant, which is returned as it is. */
  ghost predicate Achieves(p: Pass, S: Sig, e: Expr, r: Expr) {
    match p
    case CondStore => CondFree(S, r)
    case StoreLoad => LoadFree(r) <==> PlainAddresses(e)
  }

  /** Patterns 1 and 2: what is built has no memory ITE of its own. */
  lemma OneStoreFree(S: Sig, c: Expr, m: Expr, a: Expr, d: Expr, g: Expr)
    requires CondFree(S, c) && CondFree(S, m) && CondFree(S, a) && CondFree(S, d) && CondFree(S, g)
    requires SortOf(S, d) != MemS
    ensures CondFree(S, Store(m, a, Ite(c, d, g)))
  {
    CondFreeIte(S, c, d, g);
    CondFreeStore(S, m, a, Ite(c, d, g));
  }

  lemma TwoStoresFree(S: Sig, c: Expr, m: Expr, n: Expr)
    requires IsStore(m) && IsStore(n) && WellSorted(S, m) && WellSorted(S, n)
    requires CondFree(S, c) && CondFree(S, m) && CondFree(S, n)
    ensures CondFree(S, Store(m.args[0], Ite(c, m.args[1], n.args[1]), Ite(c, m.args[2], n.args[2])))
  {
    StoreParts(S, m);
    StoreParts(S, n);
    CondFreeStore(S, m.args[0], m.args[1], m.args[2]);
    CondFreeStore(S, n.args[0], n.args[1], n.args[2]);
    CondFreeIte(S, c, m.args[1], n.args[1]);
    CondFreeIte(S, c, m.args[2], n.args[2]);
    CondFreeStore(S, m.args[0], Ite(c, m.args[1], n.args[1]), Ite(c, m.args[2], n.args[2]));
  }

  lemma StoreAndAtomFree(S: Sig, c: Expr, m: Expr, n: Expr)
    requires IsStore(m) && WellSorted(S, m) && m.args[0] == n && CondFree(S, c) && CondFree(S, m)
    ensures CondFree(S, Store(n, m.args[1], Ite(c, m.args[2], Load(n, m.args[1]))))
    ensures CondFree(S, Store(n, m.args[1], Ite(c, Load(n, m.args[1]), m.args[2])))
  {
    StoreParts(S, m);
    CondFreeStore(S, n, m.args[1], m.args[2]);
    CondFreeLoad(S, n, m.args[1]);
    OneStoreFree(S, c, n, m.args[1], m.args[2], Load(n, m.args[1]));
    OneStoreFree(S, c, n, m.args[1], Load(n, m.args[1]), m.args[2]);
  }

  /** An ITE that no pattern describes. */
  lemma OtherIteFree(S: Sig, c: Expr, m: Expr, n: Expr)
    requires CondFree(S, c) && CondFree(S, m) && CondFree(S, n) && m != n
    requires !(IsStore(m) && IsVarOrConst(n) && m.args[0] == n) && !(IsVarOrConst(m) && IsStore(n) && n.args[0] == m)
    requires !(IsStore(m) && IsStore(n) && m.args[0] == n.args[0])
    ensures CondFree(S, Ite(c, m, n))
  {
    CondFreeNode(S, Ite(c, m, n));
    CondFreeThree(S, c, m, n);
  }

  /** Patterns 0 to 2 make no new one, and what they leave is none. */
  lemma CondMemFree(S: Sig, rule: map<Expr, Expr>, e: Expr)
    requires e.App? && e.op == kIfThenElse && WellSorted(S, e) && ArgsIn(rule, e) && Sound(S, rule)
    requires forall i {:trigger e.args[i]} :: 0 <= i < |e.args| ==> CondFree(S, rule[e.args[i]])
    ensures CondFree(S, RewriteCondMem(S, rule, e))
  {
    assert |SortsOf(S, e.args)| == 3;
    var c, m, n := rule[e.args[0]], rule[e.args[1]], rule[e.args[2]];
    assert Replaces(S, e.args[0], c) && Replaces(S, e.args[1], m) && Replaces(S, e.args[2], n);
    if m == n {
    } else if IsStore(m) && IsVarOrConst(n) && m.args[0] == n {
      StoreAndAtomFree(S, c, m, n);
    } else if IsVarOrConst(m) && IsStore(n) && n.args[0] == m {
      StoreAndAtomFree(S, c, n, m);
    } else if IsStore(m) && IsStore(n) && m.args[0] == n.args[0] {
      TwoStoresFree(S, c, m, n);
    } else {
      OtherIteFree(S, c, m, n);
      assert RewriteOp(rule, e) == Ite(c, m, n);
    }
  }

  lemma DefaultCondFree(S: Sig, rule: map<Expr, Expr>, e: Expr)
    requires e.App? && WellSorted(S, e) && ArgsIn(rule, e) && Sound(S, rule)
    requires forall i {:trigger e.args[i]} :: 0 <= i < |e.args| ==> CondFree(S, rule[e.args[i]])
    requires e.op != kIfThenElse || SortOf(S, e) != MemS
    ensures CondFree(S, RewriteOp(rule, e))
  {
    var d := RewriteOp(rule, e);
    DefaultReplaces(S, rule, e);
    forall i {:trigger d.args[i]} | 0 <= i < |d.args| ensures CondFree(S, d.args[i]) {
      assert d.args[i] == rule[e.args[i]];
    }
    CondFreeNode(S, d);
  }

  /** The conditional-store pass leaves none of its patterns in an expression. */
  lemma {:induction false} ResultIsCondFree(S: Sig, e: Expr)
    requires WellSorted(S, e)
    ensures CondFree(S, Rewritten(CondStore, S, e))
    decreases Size(e)
  {
    if !e.App? {
      AtomIsFree(S, e);
    } else {
      var rule := ArgResults(CondStore, S, e);
      RewriteReplaces(CondStore, S, rule, e);
      forall i {:trigger e.args[i]} | 0 <= i < |e.args| ensures CondFree(S, rule[e.args[i]]) {
        ArgIsSmaller(S, e, i);
        ResultIsCondFree(S, e.args[i]);
      }
      if e.op == kIfThenElse && SortOf(S, e) == MemS {
        CondMemFree(S, rule, e);
      } else {
        DefaultCondFree(S, rule, e);
      }
    }
  }

  /** What is applied to arguments stays an application. */
  lemma StoreLoadKeepsApps(S: Sig, e: Expr)
    requires WellSorted(S, e)
    ensures Rewritten(StoreLoad, S, e).App? <==> e.App?
  {
    if e.App? {
      var rule := ArgResults(StoreLoad, S, e);
      RewriteReplaces(StoreLoad, S, rule, e);
    }
  }

  lemma DefaultLoadFree(rule: map<Expr, Expr>, e: Expr)
    requires e.App? && ArgsIn(rule, e) && !LoadRedex(RewriteOp(rule, e)) && !PlainLoad(RewriteOp(rule, e))
    ensures LoadFree(RewriteOp(rule, e)) <==> AllLoadFree(GetAll(rule, e.args))
    ensures PlainAddresses(RewriteOp(rule, e)) <==> AllPlain(GetAll(rule, e.args))
  {
    LoadFreeNode(RewriteOp(rule, e));
    PlainAddressesNode(RewriteOp(rule, e));
  }

  /** Loading from a single store leaves the parts of the store and the address. */
  lemma FromStoreFree(x: Expr, a: Expr, d: Expr, b: Expr)
    requires !x.App?
    ensures LoadFree(Ite(Eq(b, a), d, Load(x, b))) <==> LoadFree(Store(x, a, d)) && LoadFree(b)
    ensures PlainAddresses(Ite(Eq(b, a), d, Load(x, b))) ==> PlainAddresses(Store(x, a, d)) && PlainAddresses(b)
  {
    LoadFreeNode(x);
    PlainAddressesNode(x);
    LoadFreeStore(x, a, d);
    LoadFreeEq(b, a);
    LoadFreePlainLoad(x, b);
    LoadFreeIte(Eq(b, a), d, Load(x, b));
  }

  /** A load that is rewritten: what is left is free if the arguments are, and only then. */
  lemma LoadResultFree(S: Sig, rule: map<Expr, Expr>, e: Expr)
    requires e.App? && e.op == kLoad && WellSorted(S, e) && ArgsIn(rule, e) && Sound(S, rule)
    requires |e.args| == 2 && rule[e.args[0]].App?
    ensures LoadFree(RewriteLoad(S, rule, e)) <==> LoadFree(rule[e.args[0]]) && LoadFree(rule[e.args[1]])
    ensures PlainAddresses(RewriteLoad(S, rule, e)) ==> PlainAddresses(rule[e.args[0]]) && PlainAddresses(rule[e.args[1]])
  {
    var m, b := rule[e.args[0]], rule[e.args[1]];
    assert Replaces(S, e.args[0], m) && Replaces(S, e.args[1], b);
    if IsStore(m) && IsVarOrConst(m.args[0]) {
      StoreParts(S, m);
      FromStoreFree(m.args[0], m.args[1], m.args[2], b);
    } else {
      assert GetAll(rule, e.args) == [m, b];
      DefaultLoadFree(rule, e);
      LoadFreeTwo(m, b);
    }
  }

  /** A load from a variable or constant is returned as it is. */
  lemma PlainLoadStays(S: Sig, e: Expr)
    requires WellSorted(S, e) && PlainLoad(e)
    ensures Rewritten(StoreLoad, S, e) == e
  {
    var rule := ArgResults(StoreLoad, S, e);
    RewriteReplaces(StoreLoad, S, rule, e);
    StoreLoadKeepsApps(S, e.args[0]);
  }

  ghost predicate ResultAchieved(S: Sig, e: Expr) {
    && WellSorted(S, e)
    && (LoadFree(Rewritten(StoreLoad, S, e)) <==> PlainAddresses(e))
    && (PlainAddresses(Rewritten(StoreLoad, S, e)) <==> PlainAddresses(e))
  }

  lemma LoadAchieved(S: Sig, e: Expr)
    requires e.App? && e.op == kLoad && WellSorted(S, e) && !PlainLoad(e) && |e.args| == 2
    requires ResultAchieved(S, e.args[0]) && ResultAchieved(S, e.args[1])
    ensures ResultAchieved(S, e)
  {
    var rule, r := ArgResults(StoreLoad, S, e), Rewritten(StoreLoad, S, e);
    RewriteReplaces(StoreLoad, S, rule, e);
    assert r == RewriteLoad(S, rule, e);
    StoreLoadKeepsApps(S, e.args[0]);
    LoadResultFree(S, rule, e);
    LoadIsPlain(S, e);
    if LoadFree(r) { FreeIsPlain(r); }
  }

  lemma LoadIsPlain(S: Sig, e: Expr)
    requires e.App? && e.op == kLoad && WellSorted(S, e) && !PlainLoad(e) && |e.args| == 2
    ensures PlainAddresses(e) <==> PlainAddresses(e.args[0]) && PlainAddresses(e.args[1])
  {
    LoadArgs(S, e);
    PlainAddressesNode(e);
    LoadFreeTwo(e.args[0], e.args[1]);
  }

  lemma OtherAchieved(S: Sig, e: Expr)
    requires e.App? && e.op != kLoad && WellSorted(S, e)
    requires forall i {:trigger e.args[i]} :: 0 <= i < |e.args| ==> ResultAchieved(S, e.args[i])
    ensures ResultAchieved(S, e)
  {
    var rule := ArgResults(StoreLoad, S, e);
    RewriteReplaces(StoreLoad, S, rule, e);
    DefaultLoadFree(rule, e);
    PlainAddressesNode(e);
    var rs := GetAll(rule, e.args);
    assert forall i {:trigger e.args[i]} {:trigger rs[i]} :: 0 <= i < |e.args| ==> rs[i] == Rewritten(StoreLoad, S, e.args[i]);
  }

  /** The store-load pass leaves no load from a single store exactly if there was none in the address of a
      load from a variable or constant. */
  lemma {:induction false} ResultIsLoadFree(S: Sig, e: Expr)
    requires WellSorted(S, e)
    ensures ResultAchieved(S, e)
    decreases Size(e)
  {
    if !e.App? {
      AtomIsFree(S, e);
    } else if PlainLoad(e) {
      PlainLoadStays(S, e);
      LoadArgs(S, e);
      LoadFreePlainLoad(e.args[0], e.args[1]);
    } else {
      forall i {:trigger e.args[i]} | 0 <= i < |e.args| ensures ResultAchieved(S, e.args[i]) {
        ArgIsSmaller(S, e, i);
        ResultIsLoadFree(S, e.args[i]);
      }
      if e.op == kLoad {
        LoadArgs(S, e);
        LoadAchieved(S, e);
      } else {
        OtherAchieved(S, e);
      }
    }
  }

  lemma LoadArgs(S: Sig, e: Expr)
    requires e.App? && e.op == kLoad && WellSorted(S, e)
    ensures |e.args| == 2 && e == Load(e.args[0], e.args[1])
  {
    assert |SortsOf(S, e.args)| == 2;
  }

  lemma RewritingAchieves(p: Pass, S: Sig, e: Expr)
    requires WellSorted(S, e)
    ensures Achieves(p, S, e, Rewritten(p, S, e))
  {
    match p
    case CondStore => ResultIsCondFree(S, e);
    case StoreLoad => ResultIsLoadFree(S, e);
  }

  /** A load the pass does not get to: it looks into no address of a load from a variable. */
  lemma AddressIsMissed(S: Sig, m: string, a: Expr, d: Expr, b: Expr)
    requires S.vars(m) == MemS && WellSorted(S, Store(Var(m), a, d)) && WellSorted(S, b) && SortOf(S, b) == BvS
    ensures
      var redex := Load(Store(Var(m), a, d), b);
      var e := Load(Var(m), redex);
      WellSorted(S, e) && Rewritten(StoreLoad, S, e) == e && LoadRedex(redex) && Occurs(redex, e)
  {
    var redex := Load(Store(Var(m), a, d), b);
    var e := Load(Var(m), redex);
    StoreParts(S, Store(Var(m), a, d));
    LoadSorted(S, Store(Var(m), a, d), b);
    LoadSorted(S, Var(m), redex);
    PlainLoadStays(S, e);
    assert e.args[1] == redex && Occurs(redex, redex);
    assert StoresTo(redex.args[0], Var(m));
  }

  // ---------- the function object ----------

  /** No entry is redefined, and what is added is smaller than n. */
  ghost predicate GrownBelow(a: map<Expr, Expr>, b: map<Expr, Expr>, n: nat) {
    && (forall k {:trigger k in a} {:trigger b[k]} :: k in a ==> k in b && b[k] == a[k])
    && (forall k {:trigger k in b} :: k in b ==> k in a || Size(k) < n)
  }

  lemma GrownMore(a: map<Expr, Expr>, b: map<Expr, Expr>, c: map<Expr, Expr>, m: nat, n: nat)
    requires GrownBelow(a, b, n) && GrownBelow(b, c, m) && m <= n
    ensures GrownBelow(a, c, n)
  {
  }

  ghost predicate AllKnown(rule: map<Expr, Expr>, es: seq<Expr>) {
    forall i {:trigger es[i]} :: 0 <= i < |es| ==> es[i] in rule
  }

  lemma ArgIsSmaller(S: Sig, e: Expr, i: nat)
    requires e.App? && WellSorted(S, e) && i < |e.args|
    ensures WellSorted(S, e.args[i]) && Size(e.args[i]) < Size(e)
  {
    ArgsAreSmaller(S, e);
    assert e.args[i] in e.args;
  }

  lemma OneMoreKnown(a: map<Expr, Expr>, b: map<Expr, Expr>, c: map<Expr, Expr>, e: Expr, i: nat)
    requires e.App? && i < |e.args| && e.args[i] in c && Size(e.args[i]) < Size(e) && AllKnown(b, e.args[..i])
    requires GrownBelow(a, b, Size(e)) && GrownBelow(b, c, Size(e.args[i]) + 1)
    ensures GrownBelow(a, c, Size(e)) && AllKnown(c, e.args[..i + 1])
  {
    GrownMore(a, b, c, Size(e.args[i]) + 1, Size(e));
    assert e.args[..i + 1] == e.args[..i] + [e.args[i]];
    forall j {:trigger e.args[..i][j]} | 0 <= j < i ensures e.args[..i][j] in c {
    }
  }

  lemma AllArgsKnown(rule: map<Expr, Expr>, e: Expr)
    requires e.App? && AllKnown(rule, e.args[..|e.args|])
    ensures ArgsIn(rule, e)
  {
    assert e.args[..|e.args|] == e.args;
  }

  class FuncObjRewrExpr {
    const pass: Pass
    const sig: Sig
    var rule: map<Expr, Expr>

    constructor (pass: Pass, sig: Sig)
      ensures this.pass == pass && this.sig == sig && rule == map[]
    {
      this.pass, this.sig, rule := pass, sig, map[];
    }

    method Post(e: Expr)
      requires WellSorted(sig, e) && ArgsIn(rule, e) && Exact(pass, sig, rule) && e !in rule
      modifies this
      ensures Exact(pass, sig, rule) && rule == old(rule)[e := Rewritten(pass, sig, e)]
    {
      RewriteIsRewritten(pass, sig, rule, e);
      rule := rule[e := Rewrite(pass, sig, rule, e)];
    }

    /** Visit what has not been visited, arguments first. No entry is ever redefined: everything that
        is added while the arguments are visited is smaller than the expression. */
    method DepthFirstVisitPrePost(e: Expr)
      requires WellSorted(sig, e) && Exact(pass, sig, rule)
      modifies this
      ensures Exact(pass, sig, rule) && e in rule && GrownBelow(old(rule), rule, Size(e) + 1)
      decreases Size(e), 1
    {
      if e in rule {
        return;
      }
      if e.App? {
        VisitArgs(e);
      }
      Post(e);
    }

    method VisitArgs(e: Expr)
      requires e.App? && WellSorted(sig, e) && Exact(pass, sig, rule)
      modifies this
      ensures Exact(pass, sig, rule) && ArgsIn(rule, e) && GrownBelow(old(rule), rule, Size(e))
      decreases Size(e), 0
    {
      var i := 0;
      while i != |e.args|
        invariant 0 <= i <= |e.args| && Exact(pass, sig, rule)
        invariant GrownBelow(old(rule), rule, Size(e)) && AllKnown(rule, e.args[..i])
      {
        ghost var before := rule;
        ArgIsSmaller(sig, e, i);
        DepthFirstVisitPrePost(e.args[i]);
        OneMoreKnown(old(rule), before, rule, e, i);
        i := i + 1;
      }
      AllArgsKnown(rule, e);
    }

    /** Rewrite an expression through the table. */
    method Rewr(e: Expr) returns (r: Expr)
      requires WellSorted(sig, e) && Exact(pass, sig, rule)
      modifies this
      ensures Exact(pass, sig, rule) && r == Rewritten(pass, sig, e) && Replaces(sig, e, r)
      ensures Achieves(pass, sig, e, r)
    {
      DepthFirstVisitPrePost(e);
      RewritingAchieves(pass, sig, e);
      r := Get(rule, e);
    }
  }
}
