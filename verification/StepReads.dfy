/** What a trace step reads: the variables and the loads of its decode and of its updates, and that nothing
    else decides what the step does. */
module StepReads {
  import opened Ast
  import opened Ila
  import opened Constraints

  // ---------- variables ----------

  /** The variable that a STORE changes. */
  predicate IsBase(e: Expr, i: int) {
    e.App? && e.op == kStore && i == 0 && |e.args| > 0 && e.args[0].Var?
  }

  /** The variable occurs in the expression other than as what a STORE changes. */
  ghost predicate Mentions(e: Expr, x: string)
    decreases e
  {
    match e
    case Var(y) => y == x
    case Const(_) => false
    case App(_, args, _) => exists i {:trigger args[i]} :: 0 <= i < |args| && !IsBase(e, i) && Mentions(args[i], x)
  }

  lemma {:induction false} UsesMeaning(e: Expr, x: string)
    ensures x in Uses(e) <==> Mentions(e, x)
    decreases e, 1
  {
    if e.App? {
      if IsBase(e, 0) {
        var rest := e.args[1..];
        UsesOfMeaning(rest, x);
        if i :| 0 <= i < |rest| && Mentions(rest[i], x) { assert e.args[i + 1] == rest[i]; }
        if i :| 0 <= i < |e.args| && !IsBase(e, i) && Mentions(e.args[i], x) { assert e.args[i] == rest[i - 1]; }
      } else {
        UsesOfMeaning(e.args, x);
      }
    }
  }

  lemma {:induction false} UsesOfMeaning(es: seq<Expr>, x: string)
    ensures x in UsesOf(es) <==> exists i {:trigger es[i]} :: 0 <= i < |es| && Mentions(es[i], x)
    decreases es, 0
  {
    if es != [] {
      var rest := es[1..];
      UsesMeaning(es[0], x);
      UsesOfMeaning(rest, x);
      if i :| 0 <= i < |rest| && Mentions(rest[i], x) { assert es[i + 1] == rest[i]; }
      if i :| 0 <= i < |es| && Mentions(es[i], x) && i > 0 { assert es[i] == rest[i - 1]; }
    }
  }

  // ---------- what belongs to a step ----------

  /** The decode or the value of an update; for the final step, the property. */
  ghost predicate Belongs(ts: TraceStep, e: Expr) {
    if ts.kind == FINAL_EVT then e == ts.property
    else e == ts.inst.decode ||
         exists k {:trigger ts.inst.updates[k]} :: 0 <= k < |ts.inst.updates| && ts.inst.updates[k].value == e
  }

  lemma SourcesBelong(ts: TraceStep, e: Expr)
    ensures Belongs(ts, e) <==> exists i {:trigger Sources(ts)[i]} :: 0 <= i < |Sources(ts)| && Sources(ts)[i] == e
  {
    var es := Sources(ts);
    if ts.kind == FINAL_EVT {
      assert es[0] == ts.property;
    } else {
      assert es[0] == ts.inst.decode;
      if k :| 0 <= k < |ts.inst.updates| && ts.inst.updates[k].value == e { assert es[k + 1] == e; }
      if i :| 0 <= i < |es| && es[i] == e && i > 0 { assert ts.inst.updates[i - 1].value == e; }
    }
  }

  /** A step reads exactly the variables that its decode and its updates mention. */
  lemma ReadSetMeaning(ts: TraceStep, x: string)
    ensures x in ReadSet(ts) <==> exists e :: Belongs(ts, e) && Mentions(e, x)
  {
    var es := Sources(ts);
    UsesOfMeaning(es, x);
    if i :| 0 <= i < |es| && Mentions(es[i], x) { SourcesBelong(ts, es[i]); }
    if e :| Belongs(ts, e) && Mentions(e, x) {
      SourcesBelong(ts, e);
      var i :| 0 <= i < |es| && es[i] == e;
    }
  }

  // ---------- loads ----------

  /** A LOAD of memory variable s, with its address. */
  predicate IsLoadOf(ld: LoadExpr, s: string) {
    ld.data.App? && ld.data.op == kLoad && |ld.data.args| == 2 && ld.data.args[0] == Var(s) && ld.data.args[1] == ld.addr
  }

  lemma {:induction false} LoadsInMeaning(e: Expr, s: string, ld: LoadExpr)
    ensures ld in LoadsIn(e, s) <==> IsLoadOf(ld, s) && Occurs(ld.data, e)
    decreases e, 1
  {
    if e.App? {
      LoadsInAllMeaning(e.args, s, ld);
    }
  }

  lemma {:induction false} LoadsInAllMeaning(es: seq<Expr>, s: string, ld: LoadExpr)
    ensures ld in LoadsInAll(es, s) <==>
            IsLoadOf(ld, s) && exists i {:trigger es[i]} :: 0 <= i < |es| && Occurs(ld.data, es[i])
    decreases es, 0
  {
    if es != [] {
      var rest := es[1..];
      LoadsInMeaning(es[0], s, ld);
      LoadsInAllMeaning(rest, s, ld);
      if i :| 0 <= i < |rest| && Occurs(ld.data, rest[i]) { assert es[i + 1] == rest[i]; }
      if i :| 0 <= i < |es| && Occurs(ld.data, es[i]) && i > 0 { assert es[i] == rest[i - 1]; }
    }
  }

  /** The loads of a step are exactly those that occur in its decode and its updates. */
  lemma LoadsMeaning(ts: TraceStep, s: string, ld: LoadExpr)
    ensures ld in LoadsOf(ts, s) <==> IsLoadOf(ld, s) && exists e :: Belongs(ts, e) && Occurs(ld.data, e)
  {
    var es := Sources(ts);
    LoadsInAllMeaning(es, s, ld);
    if i :| 0 <= i < |es| && Occurs(ld.data, es[i]) { SourcesBelong(ts, es[i]); }
    if e :| Belongs(ts, e) && Occurs(ld.data, e) {
      SourcesBelong(ts, e);
      var i :| 0 <= i < |es| && es[i] == e;
    }
  }

  // ---------- nothing else matters ----------

  /** No STORE changes a variable directly. */
  predicate NoBase(e: Expr) {
    match e
    case Var(_) => true
    case Const(_) => true
    case App(_, args, _) => !IsBase(e, 0) && forall i {:trigger args[i]} :: 0 <= i < |args| ==> NoBase(args[i])
  }

  lemma {:induction false} MentionsDecide(I: Interp, e: Expr, a: Env, b: Env)
    requires NoBase(e) && forall x :: Mentions(e, x) ==> a(x) == b(x)
    ensures Eval(I, e, a) == Eval(I, e, b)
    decreases e
  {
    match e
    case Var(x) => assert Mentions(e, x);
    case Const(_) =>
    case App(_, args, _) =>
      forall i {:trigger args[i]} | 0 <= i < |args| ensures Eval(I, args[i], a) == Eval(I, args[i], b) {
        forall x | Mentions(args[i], x) ensures a(x) == b(x) { assert Mentions(e, x); }
        MentionsDecide(I, args[i], a, b);
      }
      assert EvalAll(I, args, a) == EvalAll(I, args, b);
  }

  /** STORE(m, addr, data) for a variable m. */
  predicate StoresToVar(e: Expr) {
    e.App? && e.op == kStore && |e.args| == 3 && e.args[0].Var? && NoBase(e.args[1]) && NoBase(e.args[2])
  }

  lemma StoreMentions(e: Expr, x: string)
    requires StoresToVar(e)
    ensures Mentions(e, x) <==> Mentions(e.args[1], x) || Mentions(e.args[2], x)
  {
    assert !IsBase(e, 1) && !IsBase(e, 2) && IsBase(e, 0);
    if Mentions(e.args[1], x) || Mentions(e.args[2], x) { assert Mentions(e, x); }
  }

  lemma StoreValue(I: Interp, e: Expr, env: Env)
    requires StoresToVar(e)
    ensures Eval(I, e, env) ==
            MemV(Words(env(e.args[0].name))[Word(Eval(I, e.args[1], env)) := Word(Eval(I, e.args[2], env))])
  {
    var vs := EvalAll(I, e.args, env);
    assert vs[0] == env(e.args[0].name) && vs[1] == Eval(I, e.args[1], env) && vs[2] == Eval(I, e.args[2], env);
  }

  /** A store to a variable is decided by what it mentions and by that variable. */
  lemma StoreDecided(I: Interp, e: Expr, a: Env, b: Env)
    requires StoresToVar(e) && a(e.args[0].name) == b(e.args[0].name)
    requires forall x :: Mentions(e, x) ==> a(x) == b(x)
    ensures Eval(I, e, a) == Eval(I, e, b)
  {
    forall x ensures Mentions(e.args[1], x) || Mentions(e.args[2], x) ==> a(x) == b(x) { StoreMentions(e, x); }
    MentionsDecide(I, e.args[1], a, b);
    MentionsDecide(I, e.args[2], a, b);
    StoreValue(I, e, a);
    StoreValue(I, e, b);
  }

  /** The same word everywhere. */
  ghost function Blank(n: int): Value {
    MemV(Filled(n, map[]))
  }

  /** What a step reads decides the value of a store to a variable exactly if the variable is mentioned: the
      base of a STORE does not count as read. */
  lemma BaseIsNoUse(I: Interp, e: Expr)
    requires StoresToVar(e)
    ensures
      var m := e.args[0].name;
      Mentions(e, m) <==>
      forall a: Env, b: Env :: (forall x :: Mentions(e, x) ==> a(x) == b(x)) ==> Eval(I, e, a) == Eval(I, e, b)
  {
    var m := e.args[0].name;
    if Mentions(e, m) {
      forall a: Env, b: Env | forall x :: Mentions(e, x) ==> a(x) == b(x) ensures Eval(I, e, a) == Eval(I, e, b) {
        StoreDecided(I, e, a, b);
      }
    } else {
      BlankDiffers(I, e);
    }
  }

  lemma BlankDiffers(I: Interp, e: Expr)
    requires StoresToVar(e) && !Mentions(e, e.args[0].name)
    ensures
      var a: Env, b: Env := _ => Blank(0), x => if x == e.args[0].name then Blank(1) else Blank(0);
      (forall x :: Mentions(e, x) ==> a(x) == b(x)) && Eval(I, e, a) != Eval(I, e, b)
  {
    var a: Env, b: Env := _ => Blank(0), x => if x == e.args[0].name then Blank(1) else Blank(0);
    StoreValue(I, e, a);
    StoreValue(I, e, b);
    var n := Word(Eval(I, e.args[1], a));
    forall x ensures Mentions(e.args[1], x) || Mentions(e.args[2], x) ==> a(x) == b(x) { StoreMentions(e, x); }
    MentionsDecide(I, e.args[1], a, b);
    assert Words(Eval(I, e, a))[n + 1] == 0 && Words(Eval(I, e, b))[n + 1] == 1;
  }

  // ---------- accesses ----------

  /** The access of a write is the update: for a register the new value, for a memory the one word in which
      it differs from what it was. */
  lemma WriteIsUpdate(sys: System, M: Model, ts: TraceStep, s: string)
    requires ts.kind != FINAL_EVT && s in WriteSet(ts)
    ensures
      var u := UpdateOf(ts.inst, s);
      && u.Some?
      && (s !in sys.mems ==> WriteValue(sys, M, ts, s).data == ValueAt(M, FrameOf(ts), u.value))
      && (s in sys.mems && StoresToVar(u.value) && u.value.args[0] == Var(s) ==>
            var w := WriteValue(sys, M, ts, s);
            ValueAt(M, FrameOf(ts), u.value) ==
            MemV(Words(M.env(ts.host, ts.pos)(s))[Word(w.addr) := Word(w.data)]))
  {
    FindIsWritten(ts, s);
    var u := UpdateOf(ts.inst, s).value;
    if s in sys.mems && StoresToVar(u) && u.args[0] == Var(s) { StoreValue(M.interp, u, M.env(ts.host, ts.pos)); }
  }
}
