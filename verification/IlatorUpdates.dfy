/** Update functions of instructions: holders and maps first, then one commit after the other. Their
    effect is that of all updates evaluated on the state before. */
module IlatorUpdates {
  import opened Ast
  import opened Ila
  import opened Sorts
  import opened CxxCode
  import opened IlatorGen

  // ---------- loads from stores ----------

  function HasLoadFromStore(e: Expr): bool {
    e.App? && ((e.op == kLoad && |e.args| > 0 && e.args[0].App?) || AnyLoadFromStore(e.args))
  }

  function AnyLoadFromStore(es: seq<Expr>): (b: bool)
    ensures b <==> exists i {:trigger es[i]} :: 0 <= i < |es| && HasLoadFromStore(es[i])
  {
    es != [] && (HasLoadFromStore(es[0]) || AnyLoadFromStore(es[1..]))
  }

  /** A load from what is no variable and no constant. */
  ghost predicate FromOp(t: Expr) {
    t.App? && t.op == kLoad && |t.args| > 0 && t.args[0].App?
  }

  ghost predicate LoadsFromOp(e: Expr) {
    exists t :: Occurs(t, e) && FromOp(t)
  }

  /** The check finds exactly the expressions in which such a load occurs. */
  lemma {:induction false} LoadFromStoreMeaning(e: Expr)
    ensures HasLoadFromStore(e) <==> LoadsFromOp(e)
    decreases e
  {
    if e.App? {
      forall i {:trigger e.args[i]} | 0 <= i < |e.args| ensures HasLoadFromStore(e.args[i]) <==> LoadsFromOp(e.args[i]) {
        LoadFromStoreMeaning(e.args[i]);
      }
      assert Occurs(e, e);
      if i :| 0 <= i < |e.args| && LoadsFromOp(e.args[i]) {
        var t :| Occurs(t, e.args[i]) && FromOp(t);
        assert Occurs(t, e);
      }
    }
  }

  /** A value in which memory operations occur, if at all, as the memories of loads. */
  predicate Shaped(S: Sig, e: Expr) {
    match e
    case Var(_) => true
    case Const(l) => l.MemL? ==> l.def == 0
    case App(op, args, _) =>
      && op != kImply && !MemOp(S, e)
      && forall i {:trigger args[i]} :: 0 <= i < |args| ==> (op == kLoad && i == 0 && args[0].App?) || Shaped(S, args[i])
  }

  predicate ShapedUpdate(S: Sig, e: Expr, x: string) {
    match e
    case Var(y) => y == x
    case Const(_) => false
    case App(op, args, _) =>
      && |args| == 3 && MemOp(S, e)
      && (op == kStore ==> ShapedUpdate(S, args[0], x) && Shaped(S, args[1]) && Shaped(S, args[2]))
      && (op == kIfThenElse ==> Shaped(S, args[0]) && ShapedUpdate(S, args[1], x) && ShapedUpdate(S, args[2], x))
  }

  /** What passes the check has no memory operation inside. */
  lemma {:induction false} CheckedIsPure(S: Sig, e: Expr)
    requires Shaped(S, e) && !HasLoadFromStore(e)
    ensures Pure(S, e)
  {
    if e.App? {
      forall i | 0 <= i < |e.args| ensures Pure(S, e.args[i]) { CheckedIsPure(S, e.args[i]); }
    }
  }

  lemma {:induction false} CheckedIsUpdate(S: Sig, e: Expr, x: string)
    requires ShapedUpdate(S, e, x) && !HasLoadFromStore(e)
    ensures MemUpdate(S, e, x)
  {
    if e.App? {
      assert !HasLoadFromStore(e.args[0]) && !HasLoadFromStore(e.args[1]) && !HasLoadFromStore(e.args[2]);
      if e.op == kStore {
        CheckedIsUpdate(S, e.args[0], x);
        CheckedIsPure(S, e.args[1]);
        CheckedIsPure(S, e.args[2]);
      } else {
        CheckedIsPure(S, e.args[0]);
        CheckedIsUpdate(S, e.args[1], x);
        CheckedIsUpdate(S, e.args[2], x);
      }
    }
  }

  /** What a load that is not from a variable or constant loads from is a store or a memory ITE. */
  ghost predicate LoadsFromMemOps(S: Sig, e: Expr) {
    forall t :: Occurs(t, e) && FromOp(t) ==> MemOp(S, t.args[0])
  }

  lemma {:induction false} PureInside(S: Sig, e: Expr, t: Expr)
    requires Pure(S, e) && Occurs(t, e)
    ensures Pure(S, t)
    decreases e
  {
    if t != e {
      var i :| 0 <= i < |e.args| && Occurs(t, e.args[i]);
      PureInside(S, e.args[i], t);
    }
  }

  lemma {:induction false} UpdateInside(S: Sig, e: Expr, x: string, t: Expr)
    requires MemUpdate(S, e, x) && Occurs(t, e)
    ensures Pure(S, t) || MemUpdate(S, t, x)
    decreases e
  {
    if t != e {
      var i :| 0 <= i < |e.args| && Occurs(t, e.args[i]);
      if Pure(S, e.args[i]) { PureInside(S, e.args[i], t); } else { UpdateInside(S, e.args[i], x, t); }
    }
  }

  lemma PureMemory(S: Sig, t: Expr)
    requires Pure(S, t) && FromOp(t)
    ensures !MemOp(S, t.args[0])
  {
    assert Pure(S, t.args[0]);
  }

  lemma InsideLoadsFromNoOp(S: Sig, e: Expr, x: string)
    requires LoadsFromMemOps(S, e) && (Pure(S, e) || MemUpdate(S, e, x))
    ensures !LoadsFromOp(e)
  {
    forall t | Occurs(t, e) ensures !FromOp(t) {
      if Pure(S, e) { PureInside(S, e, t); } else { UpdateInside(S, e, x, t); }
      if Pure(S, t) && FromOp(t) { PureMemory(S, t); }
    }
  }

  /** Unless a memory is the result of a function, the check finds exactly the expressions with a memory
      operation inside. */
  lemma CheckIsExact(S: Sig, e: Expr, x: string)
    requires LoadsFromMemOps(S, e)
    ensures Shaped(S, e) ==> (!HasLoadFromStore(e) <==> Pure(S, e))
    ensures ShapedUpdate(S, e, x) ==> (!HasLoadFromStore(e) <==> MemUpdate(S, e, x))
  {
    LoadFromStoreMeaning(e);
    if Shaped(S, e) {
      if Pure(S, e) { InsideLoadsFromNoOp(S, e, x); }
      if !HasLoadFromStore(e) { CheckedIsPure(S, e); }
    }
    if ShapedUpdate(S, e, x) {
      if MemUpdate(S, e, x) { InsideLoadsFromNoOp(S, e, x); }
      if !HasLoadFromStore(e) { CheckedIsUpdate(S, e, x); }
    }
  }

  // ---------- instructions that can be generated ----------

  predicate IsMem(S: Sig, e: Expr) {
    SortOf(S, e) == MemS
  }

  /** The values treated as memories are those that are memories in every well-typed state. */
  lemma MemoryIsMem(S: Sig, e: Expr)
    requires WellSorted(S, e)
    ensures IsMem(S, e) <==> forall I: Interp, g: Env :: TypedInterp(S, I) && TypedEnv(S, g) ==> Eval(I, e, g).MemV?
  {
    SortIsKind(S, e, MemS);
  }

  ghost predicate DistinctStates(us: seq<Update>) {
    forall k {:trigger us[k]} :: 0 <= k < |us| ==> Find(us, us[k].state) == k
  }

  predicate GoodUpdate(S: Sig, u: Update) {
    if IsMem(S, u.value) then u.value.App? && ShapedUpdate(S, u.value, u.state) else Pure(S, u.value)
  }

  ghost predicate GoodUpdates(S: Sig, us: seq<Update>) {
    DistinctStates(us) && forall k {:trigger us[k]} :: 0 <= k < |us| ==> GoodUpdate(S, us[k])
  }

  // ---------- the first phase ----------

  /** The holder or the map of an update has what the state is to become. */
  ghost predicate HeldAt(S: Sig, I: Interp, u: Update, lut: Lut, m: Machine, g: Env) {
    && u.value in lut
    && if IsMem(S, u.value) then
         lut[u.value].Local? && lut[u.value].n in m.temps && Yields(g(u.state), m.temps[lut[u.value].n], Eval(I, u.value, g))
       else lut[u.value] in m.held && m.held[lut[u.value]] == Eval(I, u.value, g)
  }

  ghost predicate AfterPhase(S: Sig, I: Interp, us: seq<Update>, n: nat, lut: Lut, m: Machine, g: Env)
    requires n <= |us|
  {
    && m.globals == g && Sound(S, I, lut, m)
    && forall j {:trigger us[j]} :: 0 <= j < n ==> HeldAt(S, I, us[j], lut, m, g)
  }

  ghost predicate MemCallsOk(S: Sig, I: Interp, F: Table, fuel: nat, us: seq<Update>, n: nat)
    requires n <= |us|
  {
    forall j {:trigger us[j]} :: 0 <= j < n && IsMem(S, us[j].value) ==> CallOk(I, F, fuel, us[j].value, us[j].state)
  }

  ghost predicate PhaseOne(S: Sig, us: seq<Update>, n: nat, lut: Lut, code: seq<Stmt>)
    requires n <= |us|
  {
    && Numbered(lut)
    && forall I: Interp, F: Table, fuel: nat, g: Env :: MemCallsOk(S, I, F, fuel, us, n) ==>
         AfterPhase(S, I, us, n, lut, Run(I, F, fuel, code, Entry(g, map[])), g)
  }

  lemma PhaseOneStart(S: Sig, us: seq<Update>)
    ensures PhaseOne(S, us, 0, map[], [])
  {
  }

  /** One machine of the value case: render, then hold. */
  lemma HoldStep(S: Sig, I: Interp, us: seq<Update>, n: nat, lut: Lut, lut1: Lut, m: Machine, m1: Machine, g: Env)
    requires n < |us| && GoodUpdates(S, us) && AfterPhase(S, I, us, n, lut, m, g) && Grows(lut, lut1)
    requires Sound(S, I, lut1, m1) && OnlyLocals(|lut|, m, m1)
    requires us[n].value in lut1 && !IsMem(S, us[n].value)
    ensures
      var r := lut1[us[n].value];
      AfterPhase(S, I, us, n + 1, lut1, m1.(held := m1.held[r := RefValue(r, m1)]), g)
  {
    var r := lut1[us[n].value];
    var m2 := m1.(held := m1.held[r := RefValue(r, m1)]);
    forall k | k in lut1 && !MemOp(S, k) ensures RefValue(lut1[k], m2) == Eval(I, k, g) {
    }
    forall j {:trigger us[j]} | 0 <= j < n + 1 ensures HeldAt(S, I, us[j], lut1, m2, g) {
      if j < n { assert HeldAt(S, I, us[j], lut, m, g); }
      if !IsMem(S, us[j].value) { assert !MemOp(S, us[j].value); }
    }
  }

  lemma ValuePhase(S: Sig, us: seq<Update>, n: nat, lut: Lut, code: seq<Stmt>, lut1: Lut, more: seq<Stmt>)
    requires n < |us| && GoodUpdates(S, us) && PhaseOne(S, us, n, lut, code) && Renders(S, lut, lut1, more)
    requires us[n].value in lut1 && !IsMem(S, us[n].value)
    ensures PhaseOne(S, us, n + 1, lut1, code + more + [Hold(lut1[us[n].value])])
  {
    var r, k := lut1[us[n].value], n + 1;
    forall I: Interp, F: Table, fuel: nat, g: Env | MemCallsOk(S, I, F, fuel, us, k)
      ensures AfterPhase(S, I, us, k, lut1, Run(I, F, fuel, code + more + [Hold(r)], Entry(g, map[])), g)
    {
      var m := Run(I, F, fuel, code, Entry(g, map[]));
      assert MemCallsOk(S, I, F, fuel, us, n);
      assert AfterPhase(S, I, us, n, lut, m, g);
      assert RunsSoundly(S, I, F, fuel, lut, lut1, more, m);
      var m1 := Run(I, F, fuel, more, m);
      RunAppend(I, F, fuel, code, more, Entry(g, map[]));
      RunPush(I, F, fuel, code + more, Hold(r), Entry(g, map[]));
      HoldStep(S, I, us, n, lut, lut1, m, m1, g);
    }
  }

  /** One machine of the memory case: a new map is filled. */
  lemma FillStep(S: Sig, I: Interp, us: seq<Update>, n: nat, lut: Lut, m: Machine, d: Delta, g: Env)
    requires n < |us| && GoodUpdates(S, us) && AfterPhase(S, I, us, n, lut, m, g) && Numbered(lut)
    requires us[n].value !in lut && IsMem(S, us[n].value) && MemOp(S, us[n].value)
    requires Yields(g(us[n].state), d, Eval(I, us[n].value, g))
    ensures AfterPhase(S, I, us, n + 1, lut[us[n].value := Local(|lut|)], m.(temps := m.temps[|lut| := d]), g)
  {
    var lut1, m1 := lut[us[n].value := Local(|lut|)], m.(temps := m.temps[|lut| := d]);
    FillSound(S, I, lut, m, us[n].value, d);
    forall j {:trigger us[j]} | 0 <= j < n + 1 ensures HeldAt(S, I, us[j], lut1, m1, g) {
      if j < n { FillHeld(S, I, us[j], lut, m, us[n].value, d, g); }
    }
  }

  lemma FillSound(S: Sig, I: Interp, lut: Lut, m: Machine, e: Expr, d: Delta)
    requires Sound(S, I, lut, m) && Numbered(lut) && e !in lut && MemOp(S, e)
    ensures Sound(S, I, lut[e := Local(|lut|)], m.(temps := m.temps[|lut| := d]))
  {
    var lut1, m1 := lut[e := Local(|lut|)], m.(temps := m.temps[|lut| := d]);
    forall k | k in lut1 && !MemOp(S, k) ensures RefValue(lut1[k], m1) == Eval(I, k, m1.globals) {
    }
  }

  lemma FillHeld(S: Sig, I: Interp, u: Update, lut: Lut, m: Machine, e: Expr, d: Delta, g: Env)
    requires HeldAt(S, I, u, lut, m, g) && Numbered(lut) && e !in lut
    ensures HeldAt(S, I, u, lut[e := Local(|lut|)], m.(temps := m.temps[|lut| := d]), g)
  {
  }

  lemma MemIsMemOp(S: Sig, e: Expr, x: string)
    requires MemUpdate(S, e, x) && e.App?
    ensures MemOp(S, e)
  {
  }

  lemma MemPhase(S: Sig, us: seq<Update>, n: nat, lut: Lut, code: seq<Stmt>)
    requires n < |us| && GoodUpdates(S, us) && PhaseOne(S, us, n, lut, code)
    requires us[n].value !in lut && IsMem(S, us[n].value) && MemOp(S, us[n].value)
    ensures PhaseOne(S, us, n + 1, lut[us[n].value := Local(|lut|)], code + [FillTemp(|lut|, us[n].value)])
  {
    var e, k := us[n].value, n + 1;
    var lut1, s := lut[e := Local(|lut|)], FillTemp(|lut|, e);
    forall I: Interp, F: Table, fuel: nat, g: Env | MemCallsOk(S, I, F, fuel, us, k)
      ensures AfterPhase(S, I, us, k, lut1, Run(I, F, fuel, code + [s], Entry(g, map[])), g)
    {
      var m := Run(I, F, fuel, code, Entry(g, map[]));
      assert MemCallsOk(S, I, F, fuel, us, n);
      assert AfterPhase(S, I, us, n, lut, m, g);
      assert CallOk(I, F, fuel, us[n].value, us[n].state);
      RunPush(I, F, fuel, code, s, Entry(g, map[]));
      FillEffect(I, F, fuel, |lut|, e, m);
      FillStep(S, I, us, n, lut, m, Call(I, F, fuel, e, g, map[]), g);
    }
  }

  lemma FillEffect(I: Interp, F: Table, fuel: nat, n: nat, e: Expr, m: Machine)
    ensures Step(I, F, fuel, FillTemp(n, e), m) == m.(temps := m.temps[n := Call(I, F, fuel, e, m.globals, map[])])
  {
  }

  /** An update that another state has already: its holder or map serves again. */
  lemma SharedPhase(S: Sig, us: seq<Update>, n: nat, j: nat, lut: Lut, code: seq<Stmt>)
    requires j < n < |us| && GoodUpdates(S, us) && PhaseOne(S, us, n, lut, code) && us[j].value == us[n].value
    requires IsMem(S, us[n].value) ==> MemUpdate(S, us[n].value, us[n].state) && MemUpdate(S, us[j].value, us[j].state)
    ensures PhaseOne(S, us, n + 1, lut, code)
  {
    var k := n + 1;
    if IsMem(S, us[n].value) {
      BaseIs(S, us[n].value, us[n].state);
      BaseIs(S, us[j].value, us[j].state);
    }
    forall I: Interp, F: Table, fuel: nat, g: Env | MemCallsOk(S, I, F, fuel, us, k)
      ensures AfterPhase(S, I, us, k, lut, Run(I, F, fuel, code, Entry(g, map[])), g)
    {
      assert MemCallsOk(S, I, F, fuel, us, n);
      assert HeldAt(S, I, us[j], lut, Run(I, F, fuel, code, Entry(g, map[])), g);
    }
  }

  // ---------- the second phase ----------

  ghost predicate MemStates(S: Sig, us: seq<Update>, g: Env) {
    forall j {:trigger us[j]} :: 0 <= j < |us| && IsMem(S, us[j].value) ==> g(us[j].state).MemV?
  }

  lemma {:induction false} UpdateIsMemory(S: Sig, I: Interp, e: Expr, x: string, g: Env)
    requires MemUpdate(S, e, x) && g(x).MemV?
    ensures Eval(I, e, g).MemV?
    decreases e
  {
    if e.App? && e.op == kIfThenElse {
      UpdateIsMemory(S, I, e.args[1], x, g);
      UpdateIsMemory(S, I, e.args[2], x, g);
      IteValue(I, e, g);
    }
  }

  lemma MergeSame(m: Mem, d: Delta, t: Mem)
    requires forall a: int {:trigger t[a]} :: t[a] == if a in d then d[a] else m[a]
    ensures Merge(m, d) == t
  {
    var r := Merge(m, d);
    forall a: int {:trigger r[a]} ensures r[a] == t[a] {
    }
    SameMem(r, t);
  }

  lemma YieldsWords(base: Value, d: Delta, target: Value, a: int)
    requires base.MemV? && target.MemV? && Yields(base, d, target)
    ensures target.m[a] == if a in d then d[a] else base.m[a]
  {
    assert At(target, a) == target.m[a];
  }

  lemma AllYieldsWords(base: Value, d: Delta, target: Value)
    requires base.MemV? && target.MemV? && Yields(base, d, target)
    ensures forall a: int {:trigger target.m[a]} :: target.m[a] == if a in d then d[a] else base.m[a]
  {
    forall a: int {:trigger target.m[a]} ensures target.m[a] == if a in d then d[a] else base.m[a] {
      YieldsWords(base, d, target, a);
    }
  }

  lemma MergeIsMem(base: Value, d: Delta, target: Value)
    requires base.MemV? && target.MemV?
    requires forall a: int {:trigger target.m[a]} :: target.m[a] == if a in d then d[a] else base.m[a]
    ensures MemV(Merge(base.m, d)) == target
  {
    MergeSame(base.m, d, target.m);
  }

  lemma MergeIsValue(base: Value, d: Delta, target: Value)
    requires base.MemV? && target.MemV? && Yields(base, d, target)
    ensures MergeValue(base, d) == target
  {
    AllYieldsWords(base, d, target);
    MergeIsMem(base, d, target);
  }

  /** The globals when the first n states are committed. */
  ghost predicate Committed(I: Interp, us: seq<Update>, n: nat, g: Env, globals: Env) {
    forall x :: globals(x) == if Find(us, x) < n && Find(us, x) < |us| then Eval(I, us[Find(us, x)].value, g) else g(x)
  }

  function CommitStmt(S: Sig, u: Update, lut: Lut): Stmt
    requires u.value in lut
    requires IsMem(S, u.value) ==> lut[u.value].Local?
  {
    if IsMem(S, u.value) then MergeInto(u.state, lut[u.value].n) else Assign(u.state, lut[u.value])
  }

  /** One commit sets its state and nothing else. */
  lemma CommitEffect(S: Sig, I: Interp, F: Table, fuel: nat, u: Update, lut: Lut, m: Machine, g: Env)
    requires HeldAt(S, I, u, lut, m, g) && m.globals(u.state) == g(u.state)
    requires IsMem(S, u.value) ==> g(u.state).MemV? && Eval(I, u.value, g).MemV?
    ensures
      var m' := Step(I, F, fuel, CommitStmt(S, u, lut), m);
      && m'.held == m.held && m'.temps == m.temps
      && forall x :: m'.globals(x) == if x == u.state then Eval(I, u.value, g) else m.globals(x)
  {
    if IsMem(S, u.value) {
      MergeIsValue(g(u.state), m.temps[lut[u.value].n], Eval(I, u.value, g));
    }
  }

  lemma CommittedNext(I: Interp, us: seq<Update>, n: nat, g: Env, a: Env, b: Env)
    requires n < |us| && DistinctStates(us) && Committed(I, us, n, g, a)
    requires forall x :: b(x) == if x == us[n].state then Eval(I, us[n].value, g) else a(x)
    ensures Committed(I, us, n + 1, g, b)
  {
    assert Find(us, us[n].state) == n;
    forall x
      ensures b(x) == if Find(us, x) < n + 1 && Find(us, x) < |us| then Eval(I, us[Find(us, x)].value, g) else g(x)
    {
      if x != us[n].state { assert Find(us, x) != n; }
    }
  }

  lemma NotCommitted(I: Interp, us: seq<Update>, n: nat, g: Env, a: Env)
    requires n < |us| && DistinctStates(us) && Committed(I, us, n, g, a)
    ensures a(us[n].state) == g(us[n].state)
  {
    assert Find(us, us[n].state) == n;
  }

  // ---------- generation ----------

  /** The code of the second phase, from the state the first one leaves. */
  ghost predicate Commits(S: Sig, us: seq<Update>, n: nat, lut: Lut, code: seq<Stmt>)
    requires n <= |us|
  {
    forall I: Interp, F: Table, fuel: nat, m: Machine, g: Env :: Ready(S, I, us, lut, m, g) ==>
      var m' := Run(I, F, fuel, code, m);
      m'.held == m.held && m'.temps == m.temps && Committed(I, us, n, g, m'.globals)
  }

  ghost predicate Ready(S: Sig, I: Interp, us: seq<Update>, lut: Lut, m: Machine, g: Env) {
    AfterPhase(S, I, us, |us|, lut, m, g) && MemStates(S, us, g)
  }

  lemma CommitsPush(S: Sig, us: seq<Update>, n: nat, lut: Lut, code: seq<Stmt>)
    requires n < |us| && GoodUpdates(S, us) && Commits(S, us, n, lut, code) && us[n].value in lut
    requires IsMem(S, us[n].value) ==> MemUpdate(S, us[n].value, us[n].state) && lut[us[n].value].Local?
    ensures Commits(S, us, n + 1, lut, code + [CommitStmt(S, us[n], lut)])
  {
    var k, s := n + 1, CommitStmt(S, us[n], lut);
    forall I: Interp, F: Table, fuel: nat, m: Machine, g: Env | Ready(S, I, us, lut, m, g)
      ensures
        var m' := Run(I, F, fuel, code + [s], m);
        m'.held == m.held && m'.temps == m.temps && Committed(I, us, k, g, m'.globals)
    {
      var m1 := Run(I, F, fuel, code, m);
      RunPush(I, F, fuel, code, s, m);
      assert HeldAt(S, I, us[n], lut, m, g);
      if IsMem(S, us[n].value) { UpdateIsMemory(S, I, us[n].value, us[n].state, g); }
      NotCommitted(I, us, n, g, m1.globals);
      assert HeldAt(S, I, us[n], lut, m1, g);
      CommitEffect(S, I, F, fuel, us[n], lut, m1, g);
      CommittedNext(I, us, n, g, m1.globals, Step(I, F, fuel, s, m1).globals);
    }
  }

  /** What the generated function does: every state gets its completed update, evaluated on the state
      before. */
  ghost predicate Simulates(S: Sig, i: Instr, code: seq<Stmt>, F: Table) {
    forall I: Interp, fuel: nat, g: Env :: Deep(S, i, fuel) && MemStates(S, i.updates, g) ==>
      forall x :: Run(I, F, fuel, code, Entry(g, map[])).globals(x) == Eval(I, StateUpdCmpl(i, x), g)
  }

  /** Enough fuel for the calls of the instruction's memory update functions. */
  ghost predicate Deep(S: Sig, i: Instr, fuel: nat) {
    forall k {:trigger i.updates[k]} :: 0 <= k < |i.updates| ==> fuel > Size(i.updates[k].value)
  }

  /** Every call of the instruction's memory functions leaves the changes in its map. */
  lemma AllCallsWork(S: Sig, I: Interp, F: Table, fuel: nat, i: Instr, fns: set<Expr>)
    requires TableFor(S, F, fns) && Deep(S, i, fuel)
    requires forall k {:trigger i.updates[k]} :: 0 <= k < |i.updates| && IsMem(S, i.updates[k].value) ==>
               i.updates[k].value in fns && MemUpdate(S, i.updates[k].value, i.updates[k].state)
    ensures MemCallsOk(S, I, F, fuel, i.updates, |i.updates|)
  {
    forall j {:trigger i.updates[j]} | 0 <= j < |i.updates| && IsMem(S, i.updates[j].value)
      ensures CallOk(I, F, fuel, i.updates[j].value, i.updates[j].state)
    {
      CallsWork(S, I, F, fuel - 1, fns, i.updates[j].value, i.updates[j].state);
    }
  }

  /** The placeholders of the first phase are what the commits write. */
  lemma PhasesCommit(S: Sig, I: Interp, F: Table, fuel: nat, us: seq<Update>, lut: Lut, code: seq<Stmt>,
                     more: seq<Stmt>, g: Env)
    requires PhaseOne(S, us, |us|, lut, code) && Commits(S, us, |us|, lut, more)
    requires MemCallsOk(S, I, F, fuel, us, |us|) && MemStates(S, us, g)
    ensures Committed(I, us, |us|, g, Run(I, F, fuel, code + more, Entry(g, map[])).globals)
  {
    var m := Run(I, F, fuel, code, Entry(g, map[]));
    assert Ready(S, I, us, lut, m, g);
    RunAppend(I, F, fuel, code, more, Entry(g, map[]));
  }

  lemma CommittedIsUpdate(I: Interp, i: Instr, g: Env, globals: Env, x: string)
    requires Committed(I, i.updates, |i.updates|, g, globals)
    ensures globals(x) == Eval(I, StateUpdCmpl(i, x), g)
  {
  }

  lemma PhasesSimulate(S: Sig, i: Instr, lut: Lut, code: seq<Stmt>, more: seq<Stmt>, F: Table, fns: set<Expr>)
    requires GoodUpdates(S, i.updates) && TableFor(S, F, fns)
    requires PhaseOne(S, i.updates, |i.updates|, lut, code) && Commits(S, i.updates, |i.updates|, lut, more)
    requires forall k {:trigger i.updates[k]} :: 0 <= k < |i.updates| && IsMem(S, i.updates[k].value) ==>
               i.updates[k].value in fns && MemUpdate(S, i.updates[k].value, i.updates[k].state)
    ensures Simulates(S, i, code + more, F)
  {
    forall I: Interp, fuel: nat, g: Env | Deep(S, i, fuel) && MemStates(S, i.updates, g)
      ensures forall x :: Run(I, F, fuel, code + more, Entry(g, map[])).globals(x) == Eval(I, StateUpdCmpl(i, x), g)
    {
      AllCallsWork(S, I, F, fuel, i, fns);
      PhasesCommit(S, I, F, fuel, i.updates, lut, code, more, g);
      forall x ensures Run(I, F, fuel, code + more, Entry(g, map[])).globals(x) == Eval(I, StateUpdCmpl(i, x), g) {
        CommittedIsUpdate(I, i, g, Run(I, F, fuel, code + more, Entry(g, map[])).globals, x);
      }
    }
  }

  /** What the first loop knows after n updates. */
  ghost predicate Tracked(S: Sig, us: seq<Update>, n: nat, lut: Lut, visited: set<Expr>, fns: set<Expr>)
    requires n <= |us|
  {
    && (forall j {:trigger us[j]} :: 0 <= j < n ==> TrackedAt(S, us[j], lut, visited, fns))
    && (forall v {:trigger v in visited} :: v in visited ==> exists j {:trigger us[j]} :: 0 <= j < n && us[j].value == v)
    && (forall k {:trigger k in lut} :: k in lut ==> Pure(S, k) || k in visited)
  }

  ghost predicate TrackedAt(S: Sig, u: Update, lut: Lut, visited: set<Expr>, fns: set<Expr>) {
    && u.value in lut && u.value in visited
    && (IsMem(S, u.value) ==> MemUpdate(S, u.value, u.state) && u.value in fns && lut[u.value].Local?)
  }

  lemma TrackedMore(S: Sig, us: seq<Update>, n: nat, lut: Lut, visited: set<Expr>, fns: set<Expr>, lut': Lut,
                    fns': set<Expr>)
    requires n < |us| && Tracked(S, us, n, lut, visited, fns) && fns <= fns'
    requires forall k {:trigger lut[k]} {:trigger lut'[k]} :: k in lut ==> k in lut' && lut'[k] == lut[k]
    requires forall k {:trigger k in lut'} :: k in lut' ==> k in lut || Pure(S, k) || k == us[n].value
    requires TrackedAt(S, us[n], lut', visited + {us[n].value}, fns')
    ensures Tracked(S, us, n + 1, lut', visited + {us[n].value}, fns')
  {
    var more := visited + {us[n].value};
    forall j {:trigger us[j]} | 0 <= j < n + 1 ensures TrackedAt(S, us[j], lut', more, fns') {
      if j < n { assert TrackedAt(S, us[j], lut, visited, fns); }
    }
    forall v {:trigger v in more} | v in more ensures exists j {:trigger us[j]} :: 0 <= j < n + 1 && us[j].value == v {
      if v in visited {
        var j :| 0 <= j < n && us[j].value == v;
      } else {
        assert us[n].value == v;
      }
    }
  }

  /** The value of an update is rendered and held. */
  method HoldValue(gen: Ilator, ghost us: seq<Update>, ghost n: nat, e: Expr, buff: seq<Stmt>, lut: Lut,
                   ghost visited: set<Expr>)
    returns (buff': seq<Stmt>, lut': Lut)
    requires n < |us| && GoodUpdates(gen.sig, us) && e == us[n].value && !IsMem(gen.sig, e)
    requires PhaseOne(gen.sig, us, n, lut, buff) && Tracked(gen.sig, us, n, lut, visited, gen.memoryUpdates)
    ensures PhaseOne(gen.sig, us, n + 1, lut', buff')
    ensures Tracked(gen.sig, us, n + 1, lut', visited + {e}, gen.memoryUpdates)
  {
    assert GoodUpdate(gen.sig, us[n]);
    var b;
    ghost var code;
    b, lut', code := gen.RenderExpr(e, true, buff, lut);
    ValuePhase(gen.sig, us, n, lut, buff, lut', code);
    TrackedMore(gen.sig, us, n, lut, visited, gen.memoryUpdates, lut', gen.memoryUpdates);
    buff' := b + [Hold(lut'[e])];
  }

  /** A map is filled by the memory's own function. */
  method FillMemory(gen: Ilator, ghost us: seq<Update>, ghost n: nat, e: Expr, buff: seq<Stmt>, lut: Lut,
                    ghost visited: set<Expr>)
    returns (buff': seq<Stmt>, lut': Lut)
    requires n < |us| && GoodUpdates(gen.sig, us) && e == us[n].value && IsMem(gen.sig, e) && !HasLoadFromStore(e)
    requires PhaseOne(gen.sig, us, n, lut, buff) && Tracked(gen.sig, us, n, lut, visited, gen.memoryUpdates)
    requires e !in visited && gen.Closed()
    modifies gen
    ensures gen.Closed() && old(gen.memoryUpdates) <= gen.memoryUpdates
    ensures PhaseOne(gen.sig, us, n + 1, lut', buff')
    ensures Tracked(gen.sig, us, n + 1, lut', visited + {e}, gen.memoryUpdates)
  {
    assert GoodUpdate(gen.sig, us[n]);
    CheckedIsUpdate(gen.sig, e, us[n].state);
    MemIsMemOp(gen.sig, e, us[n].state);
    MemUpdateIsNotPure(gen.sig, e, us[n].state);
    var place := |lut|;
    gen.RegisterUpdate(e, us[n].state);
    MemPhase(gen.sig, us, n, lut, buff);
    lut' := lut[e := Local(place)];
    buff' := buff + [FillTemp(place, e)];
    TrackedMore(gen.sig, us, n, lut, visited, old(gen.memoryUpdates), lut', gen.memoryUpdates);
  }

  /** No load from what is no variable and no constant occurs in the memory updates among the first n. */
  ghost predicate NoLoads(S: Sig, us: seq<Update>, n: nat)
    requires n <= |us|
  {
    forall k {:trigger us[k]} :: 0 <= k < n && IsMem(S, us[k].value) ==> !LoadsFromOp(us[k].value)
  }

  lemma NoLoadsMore(S: Sig, us: seq<Update>, n: nat, lut: Lut, visited: set<Expr>, fns: set<Expr>)
    requires n < |us| && Tracked(S, us, n, lut, visited, fns) && NoLoads(S, us, n)
    requires us[n].value !in visited && IsMem(S, us[n].value) ==> !LoadsFromOp(us[n].value)
    ensures NoLoads(S, us, n + 1)
  {
    if us[n].value in visited {
      var j :| 0 <= j < n && us[j].value == us[n].value;
    }
  }

  /** Placeholders for all updates, each expression once. It fails exactly on a memory update with a load
      from a memory that is no variable or constant. */
  method FirstPhase(gen: Ilator, us: seq<Update>) returns (ok: bool, buff: seq<Stmt>, lut: Lut)
    requires GoodUpdates(gen.sig, us) && gen.Closed()
    modifies gen
    ensures gen.Closed() && old(gen.memoryUpdates) <= gen.memoryUpdates
    ensures ok <==> NoLoads(gen.sig, us, |us|)
    ensures ok ==> PhaseOne(gen.sig, us, |us|, lut, buff)
    ensures ok ==> exists v: set<Expr> :: Tracked(gen.sig, us, |us|, lut, v, gen.memoryUpdates)
  {
    buff, lut := [], map[];
    var visited: set<Expr> := {};
    PhaseOneStart(gen.sig, us);
    var n := 0;
    while n != |us|
      invariant 0 <= n <= |us| && gen.Closed() && old(gen.memoryUpdates) <= gen.memoryUpdates
      invariant NoLoads(gen.sig, us, n)
      invariant PhaseOne(gen.sig, us, n, lut, buff) && Tracked(gen.sig, us, n, lut, visited, gen.memoryUpdates)
    {
      var e := us[n].value;
      LoadFromStoreMeaning(e);
      if e !in visited && IsMem(gen.sig, e) && HasLoadFromStore(e) {
        return false, buff, lut;
      }
      NoLoadsMore(gen.sig, us, n, lut, visited, gen.memoryUpdates);
      buff, lut := Placeholder(gen, us, n, e, buff, lut, visited);
      visited := visited + {e};
      n := n + 1;
    }
    ok := true;
  }

  /** The placeholder of one update, unless its expression has one. */
  method Placeholder(gen: Ilator, ghost us: seq<Update>, ghost n: nat, e: Expr, buff: seq<Stmt>, lut: Lut,
                     visited: set<Expr>)
    returns (buff': seq<Stmt>, lut': Lut)
    requires n < |us| && GoodUpdates(gen.sig, us) && e == us[n].value && gen.Closed()
    requires PhaseOne(gen.sig, us, n, lut, buff) && Tracked(gen.sig, us, n, lut, visited, gen.memoryUpdates)
    requires e !in visited && IsMem(gen.sig, e) ==> !HasLoadFromStore(e)
    modifies gen
    ensures gen.Closed() && old(gen.memoryUpdates) <= gen.memoryUpdates
    ensures PhaseOne(gen.sig, us, n + 1, lut', buff')
    ensures Tracked(gen.sig, us, n + 1, lut', visited + {e}, gen.memoryUpdates)
  {
    if e in visited {
      ghost var j :| 0 <= j < n && us[j].value == e;
      Shared(gen.sig, us, n, j, buff, lut, visited, gen.memoryUpdates);
      assert visited + {e} == visited;
      buff', lut' := buff, lut;
    } else if !IsMem(gen.sig, e) {
      buff', lut' := HoldValue(gen, us, n, e, buff, lut, visited);
    } else {
      buff', lut' := FillMemory(gen, us, n, e, buff, lut, visited);
    }
  }

  lemma {:induction false} ShapedBase(S: Sig, e: Expr, x: string)
    requires ShapedUpdate(S, e, x)
    ensures BaseOf(e) == x
    decreases e
  {
    if e.App? {
      if e.op == kStore { ShapedBase(S, e.args[0], x); } else { ShapedBase(S, e.args[1], x); }
    }
  }

  /** A memory is shared by no two states: the chain ends in the state it updates. */
  lemma Shared(S: Sig, us: seq<Update>, n: nat, j: nat, buff: seq<Stmt>, lut: Lut, visited: set<Expr>, fns: set<Expr>)
    requires j < n < |us| && GoodUpdates(S, us) && us[j].value == us[n].value && us[n].value in visited
    requires PhaseOne(S, us, n, lut, buff) && Tracked(S, us, n, lut, visited, fns)
    ensures PhaseOne(S, us, n + 1, lut, buff) && Tracked(S, us, n + 1, lut, visited, fns)
  {
    assert TrackedAt(S, us[j], lut, visited, fns);
    if IsMem(S, us[n].value) {
      assert GoodUpdate(S, us[j]) && GoodUpdate(S, us[n]);
      ShapedBase(S, us[n].value, us[n].state);
      ShapedBase(S, us[j].value, us[j].state);
    }
    SharedPhase(S, us, n, j, lut, buff);
    TrackedMore(S, us, n, lut, visited, fns, lut, fns);
    assert visited + {us[n].value} == visited;
  }

  /** The commits, state by state. */
  method SecondPhase(gen: Ilator, us: seq<Update>, lut: Lut, ghost visited: set<Expr>) returns (code: seq<Stmt>)
    requires GoodUpdates(gen.sig, us) && Tracked(gen.sig, us, |us|, lut, visited, gen.memoryUpdates)
    ensures Commits(gen.sig, us, |us|, lut, code)
  {
    code := [];
    var n := 0;
    while n != |us|
      invariant 0 <= n <= |us| && Commits(gen.sig, us, n, lut, code)
    {
      assert TrackedAt(gen.sig, us[n], lut, visited, gen.memoryUpdates);
      CommitsPush(gen.sig, us, n, lut, code);
      code := code + [CommitStmt(gen.sig, us[n], lut)];
      n := n + 1;
    }
  }

  /** Every memory update is a chain of stores and ITEs with no memory operation in its values. */
  ghost predicate MemUpdates(S: Sig, us: seq<Update>) {
    forall k {:trigger us[k]} :: 0 <= k < |us| && IsMem(S, us[k].value) ==> MemUpdate(S, us[k].value, us[k].state)
  }

  lemma ChecksAreExact(S: Sig, us: seq<Update>)
    requires GoodUpdates(S, us)
    requires forall k {:trigger us[k]} :: 0 <= k < |us| ==> LoadsFromMemOps(S, us[k].value)
    ensures NoLoads(S, us, |us|) <==> MemUpdates(S, us)
  {
    forall k {:trigger us[k]} | 0 <= k < |us| && IsMem(S, us[k].value)
      ensures !LoadsFromOp(us[k].value) <==> MemUpdate(S, us[k].value, us[k].state)
    {
      assert GoodUpdate(S, us[k]);
      LoadFromStoreMeaning(us[k].value);
      CheckIsExact(S, us[k].value, us[k].state);
    }
  }

  /** The update function of an instruction and all memory update functions. It fails exactly if a load from
      what is no variable or constant occurs in a memory update; otherwise the code simulates the
      instruction. */
  method GenerateUpdate(sig: Sig, i: Instr) returns (ok: bool, code: seq<Stmt>, F: Table)
    requires GoodUpdates(sig, i.updates)
    ensures ok <==> NoLoads(sig, i.updates, |i.updates|)
    ensures (forall k {:trigger i.updates[k]} :: 0 <= k < |i.updates| ==> LoadsFromMemOps(sig, i.updates[k].value)) ==>
              (ok <==> MemUpdates(sig, i.updates))
    ensures ok ==> Simulates(sig, i, code, F)
  {
    if forall k {:trigger i.updates[k]} :: 0 <= k < |i.updates| ==> LoadsFromMemOps(sig, i.updates[k].value) {
      ChecksAreExact(sig, i.updates);
    }
    var gen := new Ilator(sig);
    var one, lut;
    ok, one, lut := FirstPhase(gen, i.updates);
    code, F := [], map[];
    if ok {
      ghost var visited: set<Expr> :| Tracked(sig, i.updates, |i.updates|, lut, visited, gen.memoryUpdates);
      var two := SecondPhase(gen, i.updates, lut, visited);
      F := gen.GenerateMemoryUpdate();
      forall k {:trigger i.updates[k]} | 0 <= k < |i.updates| && IsMem(sig, i.updates[k].value)
        ensures i.updates[k].value in gen.memoryUpdates && MemUpdate(sig, i.updates[k].value, i.updates[k].state)
      {
        assert TrackedAt(sig, i.updates[k], lut, visited, gen.memoryUpdates);
      }
      PhasesSimulate(sig, i, lut, one, two, F, gen.memoryUpdates);
      code := one + two;
    }
  }
}
