/** Instructions: a decode function and the update functions of the states they change. */
module Ila {
  import opened Ast

  datatype Option<T> = None | Some(value: T)

  datatype Update = Update(state: string, value: Expr)

  datatype Instr = Instr(name: string, decode: Expr, updates: seq<Update>)

  function Find(us: seq<Update>, s: string): (k: nat)
    ensures k <= |us|
    ensures k < |us| ==> us[k].state == s
    ensures k == |us| ==> forall j :: 0 <= j < |us| ==> us[j].state != s
  {
    if us == [] || us[0].state == s then 0 else 1 + Find(us[1..], s)
  }

  function UpdateOf(i: Instr, s: string): Option<Expr> {
    var k := Find(i.updates, s);
    if k < |i.updates| then Some(i.updates[k].value) else None
  }

  /** StateUpdCmpl: a state without an update function keeps its value. */
  function StateUpdCmpl(i: Instr, s: string): Expr {
    match UpdateOf(i, s)
    case Some(e) => e
    case None => Var(s)
  }

  // ---------- what an instruction does to a state ----------

  /** Update k is the one of state x: the first that names it. */
  ghost predicate Updates(us: seq<Update>, k: int, x: string) {
    0 <= k < |us| && us[k].state == x && forall j {:trigger us[j]} :: 0 <= j < k ==> us[j].state != x
  }

  /** Value v is what state x becomes: the value of its update, or the value it has. */
  ghost predicate Becomes(I: Interp, i: Instr, x: string, cur: Env, v: Value) {
    && (forall k {:trigger i.updates[k]} :: Updates(i.updates, k, x) ==> v == Eval(I, i.updates[k].value, cur))
    && ((forall k {:trigger i.updates[k]} :: 0 <= k < |i.updates| ==> i.updates[k].state != x) ==> v == cur(x))
  }

  /** A completed update evaluates to what the state becomes, and to nothing else. */
  lemma CompletedMeaning(I: Interp, i: Instr, x: string, cur: Env, v: Value)
    ensures Becomes(I, i, x, cur, v) <==> v == Eval(I, StateUpdCmpl(i, x), cur)
  {
    var k := Find(i.updates, x);
    FindIsFirst(i.updates, x);
    if k < |i.updates| {
      assert Updates(i.updates, k, x);
      assert i.updates[k] == i.updates[k];
    }
  }

  lemma {:induction false} FindIsFirst(us: seq<Update>, x: string)
    ensures Find(us, x) < |us| ==> Updates(us, Find(us, x), x)
    ensures forall k :: Updates(us, k, x) ==> k == Find(us, x)
  {
    if us != [] && us[0].state != x {
      FindIsFirst(us[1..], x);
      assert forall j {:trigger us[j]} :: 1 <= j < |us| ==> us[j] == us[1..][j - 1];
    }
    forall k | Updates(us, k, x) ensures k == Find(us, x) {
      var n := Find(us, x);
      if n < |us| { assert us[n].state == x; }
      assert us[k].state == x;
    }
  }
}
