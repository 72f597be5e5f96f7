/** The generator of update functions: values are rendered once into local variables, memories are
    updated through maps of changed words, and all states are committed at the end. */
module IlatorGen {
  import opened Ast
  import opened Ila
  import opened Sorts
  import opened CxxCode

  // ---------- one rendered node ----------

  ghost predicate ArgsKnown(lut: Lut, e: Expr) {
    e.App? ==> forall i {:trigger e.args[i]} :: 0 <= i < |e.args| ==> e.args[i] in lut
  }

  lemma VarRenders(S: Sig, lut: Lut, x: string)
    requires Numbered(lut) && Var(x) !in lut
    ensures Renders(S, lut, lut[Var(x) := Global(x)], [])
  {
  }

  lemma ConstRenders(S: Sig, lut: Lut, l: Literal)
    requires Numbered(lut) && Const(l) !in lut && Pure(S, Const(l))
    ensures Renders(S, lut, lut[Const(l) := Local(|lut|)], [Constant(|lut|, l)])
  {
    var lut', code := lut[Const(l) := Local(|lut|)], [Constant(|lut|, l)];
    forall I: Interp, F: Table, fuel: nat, m: Machine | Sound(S, I, lut, m)
      ensures RunsSoundly(S, I, F, fuel, lut, lut', code, m)
    {
      RunOne(I, F, fuel, code[0], m);
    }
  }

  lemma ArgValues(S: Sig, I: Interp, lut: Lut, e: Expr, rs: seq<Ref>, m: Machine)
    requires e.App? && Pure(S, e) && ArgsKnown(lut, e) && Sound(S, I, lut, m)
    requires |rs| == |e.args| && forall i :: 0 <= i < |rs| ==> rs[i] == lut[e.args[i]]
    ensures CxxApply(I, e.op, e.params, RefValues(rs, m)) == Eval(I, e, m.globals)
  {
    forall i | 0 <= i < |rs| ensures RefValues(rs, m)[i] == EvalAll(I, e.args, m.globals)[i] {
      assert Pure(S, e.args[i]);
      assert !MemOp(S, e.args[i]);
    }
    assert RefValues(rs, m) == EvalAll(I, e.args, m.globals);
  }

  lemma OpRenders(S: Sig, lut: Lut, e: Expr, rs: seq<Ref>)
    requires e.App? && Pure(S, e) && Numbered(lut) && e !in lut && ArgsKnown(lut, e)
    requires |rs| == |e.args| && forall i :: 0 <= i < |rs| ==> rs[i] == lut[e.args[i]]
    ensures Renders(S, lut, lut[e := Local(|lut|)], [Define(|lut|, e.op, rs, e.params)])
  {
    var lut', code := lut[e := Local(|lut|)], [Define(|lut|, e.op, rs, e.params)];
    forall I: Interp, F: Table, fuel: nat, m: Machine | Sound(S, I, lut, m)
      ensures RunsSoundly(S, I, F, fuel, lut, lut', code, m)
    {
      RunOne(I, F, fuel, code[0], m);
      ArgValues(S, I, lut, e, rs, m);
    }
  }

  // ---------- which functions a memory update needs ----------

  /** The ITEs between memories on the chain of an update. */
  function MemItes(e: Expr): set<Expr> {
    if e.App? && e.op == kStore && |e.args| == 3 then MemItes(e.args[0])
    else if e.App? && e.op == kIfThenElse && |e.args| == 3 then {e} + MemItes(e.args[1]) + MemItes(e.args[2])
    else {}
  }

  /** The functions that are called while an update's own function runs. */
  function Needs(e: Expr): set<Expr> {
    if e.App? && e.op == kStore && |e.args| == 3 then MemItes(e.args[0])
    else if e.App? && e.op == kIfThenElse && |e.args| == 3 then MemItes(e.args[1]) + MemItes(e.args[2])
    else {}
  }

  lemma {:induction false} MemItesAreSmaller(S: Sig, e: Expr, x: string, k: Expr)
    requires MemUpdate(S, e, x) && k in MemItes(e)
    ensures MemUpdate(S, k, x) && k.App? && MemOp(S, k) && Size(k) <= Size(e) && Needs(k) <= MemItes(e)
    decreases e
  {
    assert Size(e.args[0]) <= SizeOf(e.args) && Size(e.args[1]) <= SizeOf(e.args) && Size(e.args[2]) <= SizeOf(e.args);
    if e.op == kStore {
      MemItesAreSmaller(S, e.args[0], x, k);
    } else if k != e {
      if k in MemItes(e.args[1]) { MemItesAreSmaller(S, e.args[1], x, k); } else { MemItesAreSmaller(S, e.args[2], x, k); }
    }
  }

  lemma NeedsAreSmaller(S: Sig, e: Expr, x: string, k: Expr)
    requires MemUpdate(S, e, x) && e.App? && k in Needs(e)
    ensures MemUpdate(S, k, x) && k.App? && MemOp(S, k) && Size(k) < Size(e)
  {
    assert Size(e.args[0]) <= SizeOf(e.args) && Size(e.args[1]) <= SizeOf(e.args) && Size(e.args[2]) <= SizeOf(e.args);
    if e.op == kStore {
      MemItesAreSmaller(S, e.args[0], x, k);
    } else if k in MemItes(e.args[1]) {
      MemItesAreSmaller(S, e.args[1], x, k);
    } else {
      MemItesAreSmaller(S, e.args[2], x, k);
    }
  }

  // ---------- what memory code has to do ----------

  /** Writing the words over `base` gives `target`. */
  ghost predicate Yields(base: Value, d: Delta, target: Value) {
    forall a: int {:trigger At(target, a)} :: At(target, a) == if a in d then d[a] else At(base, a)
  }

  /** The word of a memory at an address. */
  ghost function At(v: Value, a: int): int {
    Words(v)[a]
  }

  /** Calling the function of e leaves what has to be written over x to get e. */
  ghost predicate CallOk(I: Interp, F: Table, fuel: nat, e: Expr, x: string) {
    forall g: Env :: Yields(g(x), Call(I, F, fuel, e, g, map[]), Eval(I, e, g))
  }

  ghost predicate CallsOk(I: Interp, F: Table, fuel: nat, es: set<Expr>, x: string) {
    forall e {:trigger e in es} :: e in es ==> CallOk(I, F, fuel, e, x)
  }

  ghost predicate OnlyLocalsAndTmp(n: nat, m: Machine, m': Machine) {
    && m'.globals == m.globals && m'.held == m.held && m'.temps == m.temps
    && forall i {:trigger m.locals[i]} {:trigger m'.locals[i]} :: i < n && i in m.locals ==>
         i in m'.locals && m'.locals[i] == m.locals[i]
  }

  ghost predicate MemRuns(S: Sig, I: Interp, F: Table, fuel: nat, x: string, e: Expr, lut: Lut, lut': Lut,
                          code: seq<Stmt>, m: Machine) {
    var m' := Run(I, F, fuel, code, m);
    && Sound(S, I, lut', m') && OnlyLocalsAndTmp(|lut|, m, m')
    && Yields(m.globals(x), m'.tmp, Eval(I, e, m.globals))
  }

  /** From an empty map the code leaves what has to be written over x to get e. */
  ghost predicate MemRenders(S: Sig, x: string, e: Expr, lut: Lut, lut': Lut, code: seq<Stmt>) {
    && Grows(lut, lut')
    && forall I: Interp, F: Table, fuel: nat, m: Machine ::
         Sound(S, I, lut, m) && m.tmp == map[] && CallsOk(I, F, fuel, MemItes(e), x) ==>
           MemRuns(S, I, F, fuel, x, e, lut, lut', code, m)
  }

  /** The body of the function of e. */
  ghost predicate BodyOf(e: Expr, x: string, body: seq<Stmt>) {
    forall I: Interp, F: Table, fuel: nat, g: Env :: CallsOk(I, F, fuel, Needs(e), x) ==>
      Yields(g(x), Run(I, F, fuel, body, Entry(g, map[])).tmp, Eval(I, e, g))
  }

  lemma YieldsPut(base: Value, d: Delta, target: Value, target': Value, a: int, w: int)
    requires Yields(base, d, target) && forall b: int :: At(target', b) == if b == a then w else At(target, b)
    ensures Yields(base, d[a := w], target')
  {
  }

  /** The end of the chain: nothing is written. */
  lemma BaseRenders(S: Sig, x: string, lut: Lut, lut': Lut, code: seq<Stmt>)
    requires Renders(S, lut, lut', code)
    ensures MemRenders(S, x, Var(x), lut, lut', code)
  {
    forall I: Interp, F: Table, fuel: nat, m: Machine | Sound(S, I, lut, m) && m.tmp == map[]
      ensures MemRuns(S, I, F, fuel, x, Var(x), lut, lut', code, m)
    {
      assert RunsSoundly(S, I, F, fuel, lut, lut', code, m);
    }
  }

  lemma SoundTmp(S: Sig, I: Interp, lut: Lut, m: Machine, d: Delta)
    requires Sound(S, I, lut, m)
    ensures Sound(S, I, lut, m.(tmp := d))
  {
    forall k | k in lut && !MemOp(S, k) ensures RefValue(lut[k], m.(tmp := d)) == Eval(I, k, m.globals) {
    }
  }

  /** An ITE: its function is called on the map. */
  lemma CallRenders(S: Sig, x: string, e: Expr, lut: Lut)
    requires Numbered(lut) && e in MemItes(e)
    ensures MemRenders(S, x, e, lut, lut, [CallTmp(e)])
  {
    forall I: Interp, F: Table, fuel: nat, m: Machine
      | Sound(S, I, lut, m) && m.tmp == map[] && CallsOk(I, F, fuel, MemItes(e), x)
      ensures MemRuns(S, I, F, fuel, x, e, lut, lut, [CallTmp(e)], m)
    {
      assert CallOk(I, F, fuel, e, x);
      CallRuns(S, I, F, fuel, x, e, lut, m);
    }
  }

  lemma CallRuns(S: Sig, I: Interp, F: Table, fuel: nat, x: string, e: Expr, lut: Lut, m: Machine)
    requires Sound(S, I, lut, m) && m.tmp == map[] && CallOk(I, F, fuel, e, x)
    ensures MemRuns(S, I, F, fuel, x, e, lut, lut, [CallTmp(e)], m)
  {
    var d := Call(I, F, fuel, e, m.globals, map[]);
    RunOne(I, F, fuel, CallTmp(e), m);
    assert Run(I, F, fuel, [CallTmp(e)], m) == m.(tmp := d);
    SoundTmp(S, I, lut, m, d);
    assert Yields(m.globals(x), d, Eval(I, e, m.globals));
  }

  /** Values rendered after the memory do not disturb the map. */
  lemma MemThenValue(S: Sig, x: string, e: Expr, lut: Lut, lut1: Lut, lut2: Lut, code: seq<Stmt>, more: seq<Stmt>)
    requires MemRenders(S, x, e, lut, lut1, code) && Renders(S, lut1, lut2, more)
    ensures MemRenders(S, x, e, lut, lut2, code + more)
  {
    forall I: Interp, F: Table, fuel: nat, m: Machine
      | Sound(S, I, lut, m) && m.tmp == map[] && CallsOk(I, F, fuel, MemItes(e), x)
      ensures MemRuns(S, I, F, fuel, x, e, lut, lut2, code + more, m)
    {
      assert MemRuns(S, I, F, fuel, x, e, lut, lut1, code, m);
      assert RunsSoundly(S, I, F, fuel, lut1, lut2, more, Run(I, F, fuel, code, m));
      RunAppend(I, F, fuel, code, more, m);
    }
  }

  /** A store, after its memory and its values. */
  lemma StoreRenders(S: Sig, x: string, e: Expr, lut: Lut, lut': Lut, code: seq<Stmt>)
    requires e.App? && e.op == kStore && |e.args| == 3 && MemRenders(S, x, e.args[0], lut, lut', code)
    requires e.args[1] in lut' && e.args[2] in lut' && Pure(S, e.args[1]) && Pure(S, e.args[2])
    ensures MemRenders(S, x, e, lut, lut', code + [StoreTmp(lut'[e.args[1]], lut'[e.args[2]])])
  {
    var s := StoreTmp(lut'[e.args[1]], lut'[e.args[2]]);
    forall I: Interp, F: Table, fuel: nat, m: Machine
      | Sound(S, I, lut, m) && m.tmp == map[] && CallsOk(I, F, fuel, MemItes(e), x)
      ensures MemRuns(S, I, F, fuel, x, e, lut, lut', code + [s], m)
    {
      assert MemItes(e) == MemItes(e.args[0]);
      assert MemRuns(S, I, F, fuel, x, e.args[0], lut, lut', code, m);
      StoreRuns(S, I, F, fuel, x, e, lut, lut', code, m);
    }
  }

  ghost function Stored(a: Ref, d: Ref, n: Machine): Machine {
    n.(tmp := n.tmp[Word(RefValue(a, n)) := Word(RefValue(d, n))])
  }

  lemma StoreRuns(S: Sig, I: Interp, F: Table, fuel: nat, x: string, e: Expr, lut: Lut, lut': Lut, code: seq<Stmt>,
                  m: Machine)
    requires e.App? && e.op == kStore && |e.args| == 3 && MemRuns(S, I, F, fuel, x, e.args[0], lut, lut', code, m)
    requires e.args[1] in lut' && e.args[2] in lut' && Pure(S, e.args[1]) && Pure(S, e.args[2])
    ensures MemRuns(S, I, F, fuel, x, e, lut, lut', code + [StoreTmp(lut'[e.args[1]], lut'[e.args[2]])], m)
  {
    var a, d := lut'[e.args[1]], lut'[e.args[2]];
    var n := Run(I, F, fuel, code, m);
    AfterStore(S, I, x, e, |lut|, lut', m, n);
    StoreExec(I, F, fuel, code, a, d, m, n);
    MemRunsOf(S, I, F, fuel, x, e, lut, lut', code + [StoreTmp(a, d)], m, Stored(a, d, n));
  }

  lemma StoreExec(I: Interp, F: Table, fuel: nat, code: seq<Stmt>, a: Ref, d: Ref, m: Machine, n: Machine)
    requires n == Run(I, F, fuel, code, m)
    ensures Run(I, F, fuel, code + [StoreTmp(a, d)], m) == Stored(a, d, n)
  {
    RunPush(I, F, fuel, code, StoreTmp(a, d), m);
  }

  lemma AfterStore(S: Sig, I: Interp, x: string, e: Expr, k: nat, lut: Lut, m: Machine, n: Machine)
    requires e.App? && e.op == kStore && |e.args| == 3 && Sound(S, I, lut, n) && OnlyLocalsAndTmp(k, m, n)
    requires e.args[1] in lut && e.args[2] in lut && Pure(S, e.args[1]) && Pure(S, e.args[2])
    requires Yields(m.globals(x), n.tmp, Eval(I, e.args[0], m.globals))
    ensures
      var n' := Stored(lut[e.args[1]], lut[e.args[2]], n);
      && Sound(S, I, lut, n') && OnlyLocalsAndTmp(k, m, n')
      && Yields(m.globals(x), n'.tmp, Eval(I, e, m.globals))
  {
    var d := Stored(lut[e.args[1]], lut[e.args[2]], n).tmp;
    SoundTmp(S, I, lut, n, d);
    TmpIsFree(k, m, n, d);
    StoreYields(S, I, e, lut, n, m.globals(x));
  }

  lemma TmpIsFree(k: nat, m: Machine, n: Machine, d: Delta)
    requires OnlyLocalsAndTmp(k, m, n)
    ensures OnlyLocalsAndTmp(k, m, n.(tmp := d))
  {
  }

  lemma MemRunsOf(S: Sig, I: Interp, F: Table, fuel: nat, x: string, e: Expr, lut: Lut, lut': Lut,
                  code: seq<Stmt>, m: Machine, m': Machine)
    requires m' == Run(I, F, fuel, code, m) && Sound(S, I, lut', m') && OnlyLocalsAndTmp(|lut|, m, m')
    requires Yields(m.globals(x), m'.tmp, Eval(I, e, m.globals))
    ensures MemRuns(S, I, F, fuel, x, e, lut, lut', code, m)
  {
  }

  lemma StoreYields(S: Sig, I: Interp, e: Expr, lut: Lut, n: Machine, base: Value)
    requires e.App? && e.op == kStore && |e.args| == 3 && Sound(S, I, lut, n)
    requires e.args[1] in lut && e.args[2] in lut && Pure(S, e.args[1]) && Pure(S, e.args[2])
    requires Yields(base, n.tmp, Eval(I, e.args[0], n.globals))
    ensures Yields(base, n.tmp[Word(RefValue(lut[e.args[1]], n)) := Word(RefValue(lut[e.args[2]], n))],
                   Eval(I, e, n.globals))
  {
    var a, w := Word(RefValue(lut[e.args[1]], n)), Word(RefValue(lut[e.args[2]], n));
    StoreAt(S, I, e, lut, n);
    YieldsPut(base, n.tmp, Eval(I, e.args[0], n.globals), Eval(I, e, n.globals), a, w);
  }

  lemma StoreAt(S: Sig, I: Interp, e: Expr, lut: Lut, n: Machine)
    requires e.App? && e.op == kStore && |e.args| == 3 && Sound(S, I, lut, n)
    requires e.args[1] in lut && e.args[2] in lut && Pure(S, e.args[1]) && Pure(S, e.args[2])
    ensures forall b: int :: At(Eval(I, e, n.globals), b) ==
              if b == Word(RefValue(lut[e.args[1]], n)) then Word(RefValue(lut[e.args[2]], n))
              else At(Eval(I, e.args[0], n.globals), b)
  {
    assert !MemOp(S, e.args[1]) && !MemOp(S, e.args[2]);
    var vs := EvalAll(I, e.args, n.globals);
    assert vs[0] == Eval(I, e.args[0], n.globals);
  }

  lemma Regroup(b: seq<Stmt>, c: seq<Stmt>, d: seq<Stmt>, s: Stmt)
    ensures b + c + d + [s] == b + (c + d + [s])
  {
  }

  lemma StoreAfterWords(S: Sig, x: string, e: Expr, lut: Lut, lut1: Lut, lut2: Lut, code: seq<Stmt>, more: seq<Stmt>)
    requires e.App? && e.op == kStore && |e.args| == 3 && MemRenders(S, x, e.args[0], lut, lut1, code)
    requires Renders(S, lut1, lut2, more) && Pure(S, e.args[1]) && Pure(S, e.args[2])
    requires e.args[1] in lut2 && e.args[2] in lut2
    ensures MemRenders(S, x, e, lut, lut2, code + more + [StoreTmp(lut2[e.args[1]], lut2[e.args[2]])])
  {
    MemThenValue(S, x, e.args[0], lut, lut1, lut2, code, more);
    StoreRenders(S, x, e, lut, lut2, code + more);
  }

  // ---------- bodies and the table of functions ----------

  /** The memory state at the end of the chain. */
  function BaseOf(e: Expr): string {
    match e
    case Var(x) => x
    case Const(_) => ""
    case App(op, args, _) =>
      if op == kStore && |args| == 3 then BaseOf(args[0])
      else if op == kIfThenElse && |args| == 3 then BaseOf(args[1])
      else ""
  }

  lemma {:induction false} BaseIs(S: Sig, e: Expr, x: string)
    requires MemUpdate(S, e, x)
    ensures BaseOf(e) == x
    decreases e
  {
    if e.App? {
      if e.op == kStore { BaseIs(S, e.args[0], x); } else { BaseIs(S, e.args[1], x); }
    }
  }

  lemma EntrySound(S: Sig, I: Interp, g: Env)
    ensures Sound(S, I, map[], Entry(g, map[]))
  {
  }

  lemma StoreBody(S: Sig, e: Expr, x: string, lut: Lut, code: seq<Stmt>)
    requires e.App? && e.op == kStore && |e.args| == 3 && MemRenders(S, x, e, map[], lut, code)
    ensures BodyOf(e, x, code)
  {
    forall I: Interp, F: Table, fuel: nat, g: Env | CallsOk(I, F, fuel, Needs(e), x)
      ensures Yields(g(x), Run(I, F, fuel, code, Entry(g, map[])).tmp, Eval(I, e, g))
    {
      EntrySound(S, I, g);
      assert MemRuns(S, I, F, fuel, x, e, map[], lut, code, Entry(g, map[]));
    }
  }

  lemma IteBody(S: Sig, e: Expr, x: string, lut: Lut, code: seq<Stmt>, lut1: Lut, yes: seq<Stmt>, lut2: Lut,
                no: seq<Stmt>)
    requires e.App? && e.op == kIfThenElse && MemUpdate(S, e, x) && Renders(S, map[], lut, code) && e.args[0] in lut
    requires MemRenders(S, x, e.args[1], lut, lut1, yes) && MemRenders(S, x, e.args[2], lut, lut2, no)
    ensures BodyOf(e, x, code + [Branch(lut[e.args[0]], yes, no)])
  {
    var body := code + [Branch(lut[e.args[0]], yes, no)];
    forall I: Interp, F: Table, fuel: nat, g: Env | CallsOk(I, F, fuel, Needs(e), x)
      ensures Yields(g(x), Run(I, F, fuel, body, Entry(g, map[])).tmp, Eval(I, e, g))
    {
      var m := Entry(g, map[]);
      var n := Run(I, F, fuel, code, m);
      EntrySound(S, I, g);
      assert RunsSoundly(S, I, F, fuel, map[], lut, code, m);
      assert MemRuns(S, I, F, fuel, x, e.args[1], lut, lut1, yes, n);
      assert MemRuns(S, I, F, fuel, x, e.args[2], lut, lut2, no, n);
      RunPush(I, F, fuel, code, Branch(lut[e.args[0]], yes, no), m);
      BranchTmp(I, F, fuel, lut[e.args[0]], yes, no, n);
      IteValue(I, e, g);
      assert !MemOp(S, e.args[0]);
    }
  }

  lemma BranchTmp(I: Interp, F: Table, fuel: nat, c: Ref, yes: seq<Stmt>, no: seq<Stmt>, n: Machine)
    ensures Step(I, F, fuel, Branch(c, yes, no), n).tmp ==
            if Truth(RefValue(c, n)) then Run(I, F, fuel, yes, n).tmp else Run(I, F, fuel, no, n).tmp
  {
  }

  lemma IteValue(I: Interp, e: Expr, g: Env)
    requires e.App? && e.op == kIfThenElse && |e.args| == 3
    ensures Eval(I, e, g) == if Truth(Eval(I, e.args[0], g)) then Eval(I, e.args[1], g) else Eval(I, e.args[2], g)
  {
    var vs := EvalAll(I, e.args, g);
    assert vs[0] == Eval(I, e.args[0], g);
  }

  /** Every registered function has a body, and so have the functions it calls. */
  ghost predicate TableFor(S: Sig, F: Table, fns: set<Expr>) {
    forall e {:trigger EntryFor(S, F, fns, e)} :: e in fns ==> EntryFor(S, F, fns, e)
  }

  ghost predicate EntryFor(S: Sig, F: Table, fns: set<Expr>, e: Expr) {
    e in F && e.App? && MemUpdate(S, e, BaseOf(e)) && BodyOf(e, BaseOf(e), F[e]) && Needs(e) <= fns
  }

  lemma BodyCall(I: Interp, F: Table, fuel: nat, e: Expr, x: string)
    requires e in F && BodyOf(e, x, F[e]) && CallsOk(I, F, fuel, Needs(e), x)
    ensures CallOk(I, F, fuel + 1, e, x)
  {
    forall g: Env ensures Yields(g(x), Call(I, F, fuel + 1, e, g, map[]), Eval(I, e, g)) {
      assert Yields(g(x), Run(I, F, fuel, F[e], Entry(g, map[])).tmp, Eval(I, e, g));
    }
  }

  /** With enough fuel every function of the table does what it has to. */
  lemma {:induction false} CallsWork(S: Sig, I: Interp, F: Table, less: nat, fns: set<Expr>, e: Expr, x: string)
    requires TableFor(S, F, fns) && e in fns && MemUpdate(S, e, x) && less >= Size(e)
    ensures CallOk(I, F, less + 1, e, x)
    decreases Size(e), 2
  {
    EntryOf(S, F, fns, e, x);
    NeedsWork(S, I, F, less, fns, e, x);
    BodyCall(I, F, less, e, x);
  }

  lemma {:induction false} NeedsWork(S: Sig, I: Interp, F: Table, fuel: nat, fns: set<Expr>, e: Expr, x: string)
    requires TableFor(S, F, fns) && e in fns && MemUpdate(S, e, x) && fuel >= Size(e)
    ensures CallsOk(I, F, fuel, Needs(e), x)
    decreases Size(e), 1
  {
    forall k {:trigger k in Needs(e)} | k in Needs(e) ensures CallOk(I, F, fuel, k, x) {
      NeedWorks(S, I, F, fuel, fns, e, k, x);
    }
  }

  lemma {:induction false} NeedWorks(S: Sig, I: Interp, F: Table, fuel: nat, fns: set<Expr>, e: Expr, k: Expr, x: string)
    requires TableFor(S, F, fns) && e in fns && MemUpdate(S, e, x) && fuel >= Size(e) && k in Needs(e)
    ensures CallOk(I, F, fuel, k, x)
    decreases Size(e), 0
  {
    EntryOf(S, F, fns, e, x);
    assert EntryFor(S, F, fns, e);
    NeedsAreSmaller(S, e, x, k);
    var less: nat := fuel - 1;
    CallsWork(S, I, F, less, fns, k, x);
  }

  lemma EntryOf(S: Sig, F: Table, fns: set<Expr>, e: Expr, x: string)
    requires TableFor(S, F, fns) && e in fns && MemUpdate(S, e, x)
    ensures e in F && BodyOf(e, x, F[e]) && Needs(e) <= fns
  {
    assert EntryFor(S, F, fns, e);
    BaseIs(S, e, x);
  }

  // ---------- rendering more than one node ----------

  /** Only values have been entered. */
  ghost predicate NewPure(S: Sig, a: Lut, b: Lut) {
    forall k {:trigger k in b} :: k in b ==> k in a || Pure(S, k)
  }

  /** Code has been appended, and it renders what the table has gained. */
  ghost predicate Rendered(S: Sig, buff: seq<Stmt>, lut: Lut, buff': seq<Stmt>, lut': Lut, code: seq<Stmt>) {
    buff' == buff + code && Renders(S, lut, lut', code) && NewPure(S, lut, lut')
  }

  lemma RenderedTrans(S: Sig, buff: seq<Stmt>, lut: Lut, buff1: seq<Stmt>, lut1: Lut, code: seq<Stmt>,
                      buff2: seq<Stmt>, lut2: Lut, more: seq<Stmt>)
    requires Rendered(S, buff, lut, buff1, lut1, code) && Rendered(S, buff1, lut1, buff2, lut2, more)
    ensures Rendered(S, buff, lut, buff2, lut2, code + more)
  {
    RendersTrans(S, lut, lut1, lut2, code, more);
  }

  lemma RenderedNothing(S: Sig, buff: seq<Stmt>, lut: Lut)
    requires Numbered(lut)
    ensures Rendered(S, buff, lut, buff, lut, [])
  {
    RendersNothing(S, lut);
  }

  ghost predicate InLut(lut: Lut, es: seq<Expr>, n: nat)
    requires n <= |es|
  {
    forall j {:trigger es[j]} :: 0 <= j < n ==> es[j] in lut
  }

  lemma InLutPush(a: Lut, b: Lut, es: seq<Expr>, n: nat)
    requires n < |es| && InLut(a, es, n) && Grows(a, b) && es[n] in b
    ensures InLut(b, es, n + 1)
  {
  }

  // ---------- the generator ----------

  class Ilator {
    const sig: Sig
    /** The memory update functions that have to be defined. */
    var memoryUpdates: set<Expr>

    constructor (sig: Sig)
      ensures this.sig == sig && memoryUpdates == {}
    {
      this.sig, memoryUpdates := sig, {};
    }

    /** Names of the arguments. */
    method LookUpAll(es: seq<Expr>, lut: Lut) returns (rs: seq<Ref>)
      requires forall i {:trigger es[i]} :: 0 <= i < |es| ==> es[i] in lut
      ensures |rs| == |es| && forall i :: 0 <= i < |rs| ==> rs[i] == lut[es[i]]
    {
      rs := [];
      var i := 0;
      while i != |es|
        invariant 0 <= i <= |es| && |rs| == i
        invariant forall j :: 0 <= j < i ==> rs[j] == lut[es[j]]
      {
        rs := rs + [lut[es[i]]];
        i := i + 1;
      }
    }

    /** A variable, a constant or an operator on values. */
    method DfsValue(e: Expr, buff: seq<Stmt>, lut: Lut) returns (buff': seq<Stmt>, lut': Lut, ghost code: seq<Stmt>)
      requires Pure(sig, e) && Numbered(lut) && ArgsKnown(lut, e)
      ensures Rendered(sig, buff, lut, buff', lut', code) && e in lut'
    {
      buff', lut', code := buff, lut, [];
      if e in lut {
        RendersNothing(sig, lut);
      } else if e.Var? {
        VarRenders(sig, lut, e.name);
        lut' := lut[e := Global(e.name)];
      } else if e.Const? {
        ConstRenders(sig, lut, e.lit);
        code := [Constant(|lut|, e.lit)];
        buff' := buff + [Constant(|lut|, e.lit)];
        lut' := lut[e := Local(|lut|)];
      } else {
        var rs := LookUpAll(e.args, lut);
        OpRenders(sig, lut, e, rs);
        code := [Define(|lut|, e.op, rs, e.params)];
        buff' := buff + [Define(|lut|, e.op, rs, e.params)];
        lut' := lut[e := Local(|lut|)];
      }
    }

    /** A store writes to the map; an ITE calls its own function, which is registered. */
    method DfsOpMemory(e: Expr, buff: seq<Stmt>, lut: Lut) returns (buff': seq<Stmt>)
      requires MemOp(sig, e) && |e.args| == 3
      requires e.op == kStore ==> e.args[1] in lut && e.args[2] in lut
      modifies this
      ensures e.op == kStore ==> buff' == buff + [StoreTmp(lut[e.args[1]], lut[e.args[2]])] && memoryUpdates == old(memoryUpdates)
      ensures e.op != kStore ==> buff' == buff + [CallTmp(e)] && memoryUpdates == old(memoryUpdates) + {e}
    {
      if e.op == kStore {
        buff' := buff + [StoreTmp(lut[e.args[1]], lut[e.args[2]])];
      } else {
        memoryUpdates := memoryUpdates + {e};
        buff' := buff + [CallTmp(e)];
      }
    }

    /** Render a value. With `prune` what the table knows is not visited again; without, it is visited
        but not rendered twice. */
    method RenderExpr(e: Expr, prune: bool, buff: seq<Stmt>, lut: Lut) returns (buff': seq<Stmt>, lut': Lut,
                      ghost code: seq<Stmt>)
      requires Pure(sig, e) && Numbered(lut)
      ensures Rendered(sig, buff, lut, buff', lut', code) && e in lut'
      decreases e, 1
    {
      if prune && e in lut {
        RenderedNothing(sig, buff, lut);
        buff', lut', code := buff, lut, [];
        return;
      }
      var buff1, lut1;
      ghost var code1, code2;
      if e.App? {
        buff1, lut1, code1 := RenderArgs(e, prune, buff, lut);
      } else {
        RenderedNothing(sig, buff, lut);
        buff1, lut1, code1 := buff, lut, [];
      }
      buff', lut', code2 := DfsValue(e, buff1, lut1);
      RenderedTrans(sig, buff, lut, buff1, lut1, code1, buff', lut', code2);
      code := code1 + code2;
    }

    method RenderArgs(e: Expr, prune: bool, buff: seq<Stmt>, lut: Lut) returns (buff': seq<Stmt>, lut': Lut,
                      ghost code: seq<Stmt>)
      requires e.App? && Pure(sig, e) && Numbered(lut)
      ensures Rendered(sig, buff, lut, buff', lut', code) && InLut(lut', e.args, |e.args|)
      decreases e, 0
    {
      buff', lut', code := buff, lut, [];
      RenderedNothing(sig, buff, lut);
      var i := 0;
      while i != |e.args|
        invariant 0 <= i <= |e.args|
        invariant Rendered(sig, buff, lut, buff', lut', code) && InLut(lut', e.args, i)
      {
        var b, l;
        ghost var more;
        b, l, more := RenderExpr(e.args[i], prune, buff', lut');
        RenderedTrans(sig, buff, lut, buff', lut', code, b, l, more);
        InLutPush(lut', l, e.args, i);
        buff', lut', code := b, l, code + more;
        i := i + 1;
      }
    }

    /** Memory code: the chain below first, then address and data, then the write. */
    method RenderMemUpdate(e: Expr, ghost x: string, buff: seq<Stmt>, lut: Lut)
      returns (buff': seq<Stmt>, lut': Lut, ghost code: seq<Stmt>)
      requires MemUpdate(sig, e, x) && Numbered(lut) && MemItes(e) <= memoryUpdates
      modifies this
      ensures memoryUpdates == old(memoryUpdates)
      ensures buff' == buff + code && MemRenders(sig, x, e, lut, lut', code)
      decreases e, 1
    {
      if e.Var? {
        buff', lut', code := DfsValue(e, buff, lut);
        BaseRenders(sig, x, lut, lut', code);
      } else if e.op == kIfThenElse {
        buff' := DfsOpMemory(e, buff, lut);
        lut', code := lut, [CallTmp(e)];
        CallRenders(sig, x, e, lut);
      } else {
        buff', lut', code := RenderStore(e, x, buff, lut);
      }
    }

    method RenderStore(e: Expr, ghost x: string, buff: seq<Stmt>, lut: Lut)
      returns (buff': seq<Stmt>, lut': Lut, ghost code: seq<Stmt>)
      requires e.App? && e.op == kStore && MemUpdate(sig, e, x) && Numbered(lut) && MemItes(e) <= memoryUpdates
      modifies this
      ensures memoryUpdates == old(memoryUpdates)
      ensures buff' == buff + code && MemRenders(sig, x, e, lut, lut', code)
      decreases e, 0
    {
      var b1, l1, b2;
      ghost var c1, c2;
      b1, l1, c1 := RenderMemUpdate(e.args[0], x, buff, lut);
      b2, lut', c2 := RenderWords(e, b1, l1);
      StoreAfterWords(sig, x, e, lut, l1, lut', c1, c2);
      code := c1 + c2 + [StoreTmp(lut'[e.args[1]], lut'[e.args[2]])];
      buff' := DfsOpMemory(e, b2, lut');
      Regroup(buff, c1, c2, StoreTmp(lut'[e.args[1]], lut'[e.args[2]]));
    }

    /** The address and the data of a store. */
    method RenderWords(e: Expr, buff: seq<Stmt>, lut: Lut) returns (buff': seq<Stmt>, lut': Lut, ghost code: seq<Stmt>)
      requires e.App? && |e.args| == 3 && Pure(sig, e.args[1]) && Pure(sig, e.args[2]) && Numbered(lut)
      ensures Rendered(sig, buff, lut, buff', lut', code) && e.args[1] in lut' && e.args[2] in lut'
    {
      var b, l;
      ghost var c, d;
      b, l, c := RenderExpr(e.args[1], false, buff, lut);
      buff', lut', d := RenderExpr(e.args[2], false, b, l);
      RenderedTrans(sig, buff, lut, b, l, c, buff', lut', d);
      code := c + d;
    }

    /** The definition of one memory update function. */
    method GenerateFunction(e: Expr, ghost x: string) returns (body: seq<Stmt>)
      requires e.App? && MemUpdate(sig, e, x) && Needs(e) <= memoryUpdates
      modifies this
      ensures memoryUpdates == old(memoryUpdates) && BodyOf(e, x, body)
    {
      var lut: Lut;
      if e.op == kStore {
        ghost var code;
        body, lut, code := RenderMemUpdate(e, x, [], map[]);
        assert body == code;
        StoreBody(sig, e, x, lut, body);
      } else {
        var yes, no, l1, l2;
        ghost var code, c1, c2;
        body, lut, code := RenderExpr(e.args[0], true, [], map[]);
        yes, l1, c1 := RenderMemUpdate(e.args[1], x, [], lut);
        no, l2, c2 := RenderMemUpdate(e.args[2], x, [], lut);
        assert body == code && yes == c1 && no == c2;
        IteBody(sig, e, x, lut, body, l1, yes, l2, no);
        body := body + [Branch(lut[e.args[0]], yes, no)];
      }
    }

    /** What can be registered: updates of one memory state, with all they call. */
    ghost predicate Closed()
      reads this
    {
      forall e {:trigger e in memoryUpdates} :: e in memoryUpdates ==>
        e.App? && MemUpdate(sig, e, BaseOf(e)) && Needs(e) <= memoryUpdates
    }

    method GenerateMemoryUpdate() returns (F: Table)
      requires Closed()
      modifies this
      ensures memoryUpdates == old(memoryUpdates) && TableFor(sig, F, memoryUpdates)
    {
      F := map[];
      var todo := memoryUpdates;
      while todo != {}
        invariant todo <= memoryUpdates == old(memoryUpdates)
        invariant forall e {:trigger e in F} :: e in memoryUpdates && e !in todo ==> e in F && BodyOf(e, BaseOf(e), F[e])
        decreases |todo|
      {
        var e :| e in todo;
        todo := todo - {e};
        var body := GenerateFunction(e, BaseOf(e));
        F := F[e := body];
      }
      forall e {:trigger EntryFor(sig, F, memoryUpdates, e)} | e in memoryUpdates ensures EntryFor(sig, F, memoryUpdates, e) {
      }
    }

    /** RenderExpr on a memory, which is done for what it registers. */
    method RenderMemExpr(e: Expr, ghost x: string, buff: seq<Stmt>, lut: Lut) returns (buff': seq<Stmt>, lut': Lut)
      requires MemUpdate(sig, e, x) && Numbered(lut)
      modifies this
      ensures Numbered(lut') && memoryUpdates == old(memoryUpdates) + MemItes(e)
      decreases e
    {
      ghost var c;
      if e.Var? {
        buff', lut', c := DfsValue(e, buff, lut);
      } else if e.op == kIfThenElse {
        buff', lut', c := RenderExpr(e.args[0], true, buff, lut);
        buff', lut' := RenderMemExpr(e.args[1], x, buff', lut');
        buff', lut' := RenderMemExpr(e.args[2], x, buff', lut');
        buff' := DfsOpMemory(e, buff', lut');
      } else {
        buff', lut' := RenderMemExpr(e.args[0], x, buff, lut);
        buff', lut', c := RenderWords(e, buff', lut');
        buff' := DfsOpMemory(e, buff', lut');
      }
    }

    /** RegisterMemoryUpdate for an update, and for all functions it calls. */
    method RegisterUpdate(e: Expr, ghost x: string)
      requires e.App? && MemUpdate(sig, e, x) && Closed()
      modifies this
      ensures Closed() && e in memoryUpdates && old(memoryUpdates) <= memoryUpdates
    {
      memoryUpdates := memoryUpdates + {e};
      var buff, lut := RenderMemExpr(e, x, [], map[]);
      forall k {:trigger k in memoryUpdates} | k in memoryUpdates
        ensures k.App? && MemUpdate(sig, k, BaseOf(k)) && Needs(k) <= memoryUpdates
      {
        if k !in old(memoryUpdates) {
          if k == e { BaseIs(sig, e, x); NeedsInItes(e); } else { MemItesAreSmaller(sig, e, x, k); BaseIs(sig, k, x); }
        }
      }
    }
  }

  lemma NeedsInItes(e: Expr)
    ensures Needs(e) <= MemItes(e)
  {
  }
}
