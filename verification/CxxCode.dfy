/** The code of generated update functions, what it does, and what it has to do. */
module CxxCode {
  import opened Ast
  import opened Ila
  import opened Sorts

  // ---------- code ----------

  /** A name in generated code: a state or input of the module, or local variable n. */
  datatype Ref = Global(x: string) | Local(n: nat)

  datatype Stmt =
    | Constant(n: nat, lit: Literal)
    | Define(n: nat, op: Op, args: seq<Ref>, params: seq<int>)
    | Hold(r: Ref)                                               // auto r_nxt_holder = r
    | FillTemp(n: nat, fn: Expr)                                 // map n; fn(n)
    | StoreTmp(addr: Ref, data: Ref)                             // tmp_memory[addr] = data
    | CallTmp(fn: Expr)                                          // fn(tmp_memory)
    | Branch(cond: Ref, yes: seq<Stmt>, no: seq<Stmt>)
    | Assign(x: string, r: Ref)                                  // x = r_nxt_holder
    | MergeInto(x: string, n: nat)                               // for (it : n) x[it.first] = it.second

  /** Words that are to be written over a memory. */
  type Delta = map<int, int>

  datatype Machine = Machine(globals: Env, locals: map<nat, Value>, held: map<Ref, Value>,
                             temps: map<nat, Delta>, tmp: Delta)

  /** The bodies of the memory update functions, by the memory expression they compute. */
  type Table = map<Expr, seq<Stmt>>

  // ---------- execution ----------

  ghost function RefValue(r: Ref, m: Machine): Value {
    match r
    case Global(x) => m.globals(x)
    case Local(n) => if n in m.locals then m.locals[n] else BoolV(false)
  }

  ghost function RefValues(rs: seq<Ref>, m: Machine): (vs: seq<Value>)
    ensures |vs| == |rs|
  {
    seq(|rs|, i requires 0 <= i < |rs| => RefValue(rs[i], m))
  }

  /** The operators as they are written out. Implication is written !a & b. */
  ghost function CxxApply(I: Interp, op: Op, params: seq<int>, vs: seq<Value>): Value {
    if op == kImply && |vs| == 2 then BoolV(!Truth(vs[0]) && Truth(vs[1])) else Apply(I, op, params, vs)
  }

  /** Constants as they are written out: of a memory constant only the listed words. */
  ghost function CxxDenote(l: Literal): Value {
    match l
    case MemL(_, words) => Denote(MemL(0, words))
    case _ => Denote(l)
  }

  ghost function Merge(base: Mem, d: Delta): Mem {
    imap a: int :: if a in d then d[a] else base[a]
  }

  ghost function MergeValue(v: Value, d: Delta): Value {
    if v.MemV? then MemV(Merge(v.m, d)) else v
  }

  ghost function Set(env: Env, x: string, v: Value): Env {
    y => if y == x then v else env(y)
  }

  /** A memory update function starts with no local variables. */
  ghost function Entry(g: Env, tmp: Delta): Machine {
    Machine(g, map[], map[], map[], tmp)
  }

  /** Fuel bounds the depth of calls of memory update functions. */
  ghost function Exec(I: Interp, F: Table, fuel: nat, ss: seq<Stmt>, m: Machine): Machine
    decreases fuel, ss, 1
  {
    if ss == [] then m else Exec(I, F, fuel, ss[1..], Step(I, F, fuel, ss[0], m))
  }

  ghost function Step(I: Interp, F: Table, fuel: nat, s: Stmt, m: Machine): Machine
    decreases fuel, s, 0
  {
    match s
    case Constant(n, lit) => m.(locals := m.locals[n := CxxDenote(lit)])
    case Define(n, op, args, params) => m.(locals := m.locals[n := CxxApply(I, op, params, RefValues(args, m))])
    case Hold(r) => m.(held := m.held[r := RefValue(r, m)])
    case FillTemp(n, fn) =>
      var d := if fuel == 0 || fn !in F then map[] else Exec(I, F, fuel - 1, F[fn], Entry(m.globals, map[])).tmp;
      m.(temps := m.temps[n := d])
    case StoreTmp(a, d) => m.(tmp := m.tmp[Word(RefValue(a, m)) := Word(RefValue(d, m))])
    case CallTmp(fn) =>
      if fuel == 0 || fn !in F then m else m.(tmp := Exec(I, F, fuel - 1, F[fn], Entry(m.globals, m.tmp)).tmp)
    case Branch(c, yes, no) =>
      // the branches have their own scope
      var r := if Truth(RefValue(c, m)) then Exec(I, F, fuel, yes, m) else Exec(I, F, fuel, no, m);
      m.(tmp := r.tmp)
    case Assign(x, r) => m.(globals := Set(m.globals, x, if r in m.held then m.held[r] else BoolV(false)))
    case MergeInto(x, n) =>
      m.(globals := Set(m.globals, x, MergeValue(m.globals(x), if n in m.temps then m.temps[n] else map[])))
  }

  ghost function Run(I: Interp, F: Table, fuel: nat, ss: seq<Stmt>, m: Machine): Machine {
    Exec(I, F, fuel, ss, m)
  }

  /** The map that a memory update function leaves. */
  ghost function Call(I: Interp, F: Table, fuel: nat, fn: Expr, g: Env, tmp: Delta): Delta {
    if fuel == 0 || fn !in F then tmp else Run(I, F, fuel - 1, F[fn], Entry(g, tmp)).tmp
  }

  lemma {:induction false} ExecAppend(I: Interp, F: Table, fuel: nat, a: seq<Stmt>, b: seq<Stmt>, m: Machine)
    ensures Exec(I, F, fuel, a + b, m) == Exec(I, F, fuel, b, Exec(I, F, fuel, a, m))
  {
    if a == [] {
      assert a + b == b;
    } else {
      assert (a + b)[1..] == a[1..] + b;
      ExecAppend(I, F, fuel, a[1..], b, Step(I, F, fuel, a[0], m));
    }
  }

  lemma RunAppend(I: Interp, F: Table, fuel: nat, a: seq<Stmt>, b: seq<Stmt>, m: Machine)
    ensures Run(I, F, fuel, a + b, m) == Run(I, F, fuel, b, Run(I, F, fuel, a, m))
  {
    ExecAppend(I, F, fuel, a, b, m);
  }

  lemma RunOne(I: Interp, F: Table, fuel: nat, s: Stmt, m: Machine)
    ensures Run(I, F, fuel, [s], m) == Step(I, F, fuel, s, m)
  {
    assert [s][1..] == [];
    assert Exec(I, F, fuel, [s], m) == Exec(I, F, fuel, [], Step(I, F, fuel, s, m));
  }

  lemma RunPush(I: Interp, F: Table, fuel: nat, a: seq<Stmt>, s: Stmt, m: Machine)
    ensures Run(I, F, fuel, a + [s], m) == Step(I, F, fuel, s, Run(I, F, fuel, a, m))
  {
    RunAppend(I, F, fuel, a, [s], m);
    RunOne(I, F, fuel, s, Run(I, F, fuel, a, m));
  }

  /** Implication as it is written out is right exactly when its sides differ. */
  lemma ImplyRendering(I: Interp, a: bool, b: bool)
    ensures CxxApply(I, kImply, [], [BoolV(a), BoolV(b)]) == Apply(I, kImply, [], [BoolV(a), BoolV(b)]) <==> a != b
  {
  }

  /** Some address is beyond finitely many. */
  lemma {:induction false} Beyond(addresses: set<int>) returns (a: int)
    ensures forall b :: b in addresses ==> b < a
  {
    if b :| b in addresses {
      var rest := Beyond(addresses - {b});
      a := if rest > b then rest else b + 1;
      assert forall c :: c in addresses ==> c == b || c in addresses - {b};
    } else {
      a := 0;
    }
  }

  /** A memory constant as it is written out is right exactly when its default word is 0. */
  lemma ConstantMemoryRendering(def: int, words: map<int, int>)
    ensures CxxDenote(MemL(def, words)) == Denote(MemL(def, words)) <==> def == 0
  {
    var a := Beyond(words.Keys);
    assert Filled(0, words)[a] == 0 && Filled(def, words)[a] == def;
  }

  /** The words of a map are committed to the state they are meant for, whatever memory the update was
      built on: that is right exactly when the two agree on all other words. */
  lemma CommitIgnoresBase(state: Mem, base: Mem, d: Delta)
    ensures Merge(state, d) == Merge(base, d) <==> forall a: int :: a in d || state[a] == base[a]
  {
    if Merge(state, d) == Merge(base, d) {
      forall a: int ensures a in d || state[a] == base[a] {
        assert Merge(state, d)[a] == Merge(base, d)[a];
      }
    }
    if forall a: int :: a in d || state[a] == base[a] {
      var s, b := Merge(state, d), Merge(base, d);
      assert forall a: int {:trigger s[a]} {:trigger b[a]} :: s[a] == b[a];
      assert forall a: int {:trigger a in s} {:trigger a in b} :: a in s && a in b;
      assert s == b;
    }
  }

  // ---------- expressions that are supported ----------

  /** A store, or an ITE between memories. */
  predicate MemOp(S: Sig, e: Expr) {
    e.App? && (e.op == kStore || (e.op == kIfThenElse && SortOf(S, e) == MemS))
  }

  /** Rendered as a value: no implication, no memory operation inside, memory constants without a
      default word. */
  predicate Pure(S: Sig, e: Expr) {
    match e
    case Var(_) => true
    case Const(l) => l.MemL? ==> l.def == 0
    case App(op, args, _) =>
      && op != kImply && !MemOp(S, e)
      && forall i {:trigger args[i]} :: 0 <= i < |args| ==> Pure(S, args[i])
  }

  /** A chain of stores and ITEs that ends, on every branch, in memory state x. */
  predicate MemUpdate(S: Sig, e: Expr, x: string) {
    match e
    case Var(y) => y == x
    case Const(_) => false
    case App(op, args, _) =>
      && |args| == 3 && MemOp(S, e)
      && (op == kStore ==> MemUpdate(S, args[0], x) && Pure(S, args[1]) && Pure(S, args[2]))
      && (op == kIfThenElse ==> Pure(S, args[0]) && MemUpdate(S, args[1], x) && MemUpdate(S, args[2], x))
  }

  lemma MemUpdateIsNotPure(S: Sig, e: Expr, x: string)
    requires MemUpdate(S, e, x) && e.App?
    ensures !Pure(S, e)
  {
  }

  // ---------- what rendered code has to do ----------

  type Lut = map<Expr, Ref>

  /** Names of local variables are numbered by the size of the look-up table. */
  ghost predicate Numbered(lut: Lut) {
    forall k {:trigger lut[k]} :: k in lut && lut[k].Local? ==> lut[k].n < |lut|
  }

  /** The names of values in the table have the values of their expressions. */
  ghost predicate Sound(S: Sig, I: Interp, lut: Lut, m: Machine) {
    forall k {:trigger lut[k]} {:trigger k in lut} :: k in lut && !MemOp(S, k) ==>
      (lut[k].Local? ==> lut[k].n in m.locals) && RefValue(lut[k], m) == Eval(I, k, m.globals)
  }

  ghost predicate Grows(a: Lut, b: Lut) {
    && Numbered(b) && |a| <= |b|
    && forall k {:trigger a[k]} {:trigger b[k]} :: k in a ==> k in b && b[k] == a[k]
  }

  /** Only local variables have changed, and none that the table of size n knows. */
  ghost predicate OnlyLocals(n: nat, m: Machine, m': Machine) {
    && m'.globals == m.globals && m'.held == m.held && m'.temps == m.temps && m'.tmp == m.tmp
    && forall i {:trigger m.locals[i]} {:trigger m'.locals[i]} :: i < n && i in m.locals ==>
         i in m'.locals && m'.locals[i] == m.locals[i]
  }

  ghost predicate Renders(S: Sig, lut: Lut, lut': Lut, code: seq<Stmt>) {
    && Grows(lut, lut')
    && forall I: Interp, F: Table, fuel: nat, m: Machine :: Sound(S, I, lut, m) ==>
         RunsSoundly(S, I, F, fuel, lut, lut', code, m)
  }

  ghost predicate RunsSoundly(S: Sig, I: Interp, F: Table, fuel: nat, lut: Lut, lut': Lut, code: seq<Stmt>,
                              m: Machine) {
    var m' := Run(I, F, fuel, code, m);
    Sound(S, I, lut', m') && OnlyLocals(|lut|, m, m')
  }

  lemma RendersNothing(S: Sig, lut: Lut)
    requires Numbered(lut)
    ensures Renders(S, lut, lut, [])
  {
  }

  lemma RendersTrans(S: Sig, a: Lut, b: Lut, c: Lut, code: seq<Stmt>, more: seq<Stmt>)
    requires Renders(S, a, b, code) && Renders(S, b, c, more)
    ensures Renders(S, a, c, code + more)
  {
    forall I: Interp, F: Table, fuel: nat, m: Machine | Sound(S, I, a, m)
      ensures RunsSoundly(S, I, F, fuel, a, c, code + more, m)
    {
      var n := Run(I, F, fuel, code, m);
      assert RunsSoundly(S, I, F, fuel, a, b, code, m);
      assert RunsSoundly(S, I, F, fuel, b, c, more, n);
      RunAppend(I, F, fuel, code, more, m);
    }
  }
}
