/** What the rewriting passes are to remove: memory ITEs over stores, and loads from a single store. */
module Redexes {
  import opened Ast
  import opened Sorts

  // ---------- conditional stores ----------

  /** A store to the given memory. */
  predicate StoresTo(e: Expr, m: Expr) {
    e.App? && e.op == kStore && |e.args| == 3 && e.args[0] == m
  }

  /** A memory ITE with equal branches, with one branch a store to the other, a variable or constant, or with
      both branches stores to one memory. */
  ghost predicate CondRedex(S: Sig, t: Expr) {
    t.App? && t.op == kIfThenElse && |t.args| == 3 && SortOf(S, t) == MemS &&
    var m, n := t.args[1], t.args[2];
    || m == n
    || (StoresTo(m, n) && !n.App?)
    || (StoresTo(n, m) && !m.App?)
    || exists x :: StoresTo(m, x) && StoresTo(n, x)
  }

  ghost predicate CondFree(S: Sig, e: Expr) {
    forall t :: Occurs(t, e) ==> !CondRedex(S, t)
  }

  ghost predicate AllCondFree(S: Sig, es: seq<Expr>) {
    forall i {:trigger es[i]} :: 0 <= i < |es| ==> CondFree(S, es[i])
  }

  /** A node is free if it is no such ITE and its arguments are free. */
  lemma CondFreeNode(S: Sig, e: Expr)
    ensures CondFree(S, e) <==> !CondRedex(S, e) && (e.App? ==> AllCondFree(S, e.args))
  {
    if CondFree(S, e) && e.App? {
      assert Occurs(e, e);
      forall i {:trigger e.args[i]} | 0 <= i < |e.args| ensures CondFree(S, e.args[i]) {
        forall t | Occurs(t, e.args[i]) ensures !CondRedex(S, t) { assert Occurs(t, e); }
      }
    }
  }

  // ---------- loads from stores ----------

  /** A load from a single store to a variable or constant. */
  ghost predicate LoadRedex(t: Expr) {
    t.App? && t.op == kLoad && |t.args| == 2 && exists x: Expr :: StoresTo(t.args[0], x) && !x.App?
  }

  ghost predicate LoadFree(e: Expr) {
    forall t :: Occurs(t, e) ==> !LoadRedex(t)
  }

  /** A load from a variable or constant. */
  predicate PlainLoad(t: Expr) {
    t.App? && t.op == kLoad && |t.args| == 2 && !t.args[0].App?
  }

  /** Nothing is to be done in the addresses of loads from variables and constants. */
  ghost predicate PlainAddresses(e: Expr) {
    forall t :: Occurs(t, e) && PlainLoad(t) ==> LoadFree(t.args[1])
  }

  ghost predicate AllLoadFree(es: seq<Expr>) {
    forall i {:trigger es[i]} :: 0 <= i < |es| ==> LoadFree(es[i])
  }

  ghost predicate AllPlain(es: seq<Expr>) {
    forall i {:trigger es[i]} :: 0 <= i < |es| ==> PlainAddresses(es[i])
  }

  lemma LoadFreeNode(e: Expr)
    ensures LoadFree(e) <==> !LoadRedex(e) && (e.App? ==> AllLoadFree(e.args))
  {
    if LoadFree(e) && e.App? {
      assert Occurs(e, e);
      forall i {:trigger e.args[i]} | 0 <= i < |e.args| ensures LoadFree(e.args[i]) {
        forall t | Occurs(t, e.args[i]) ensures !LoadRedex(t) { assert Occurs(t, e); }
      }
    }
  }

  lemma PlainAddressesNode(e: Expr)
    ensures PlainAddresses(e) <==>
            (PlainLoad(e) ==> LoadFree(e.args[1])) && (e.App? ==> AllPlain(e.args))
  {
    if PlainAddresses(e) && e.App? {
      assert Occurs(e, e);
      forall i {:trigger e.args[i]} | 0 <= i < |e.args| ensures PlainAddresses(e.args[i]) {
        forall t | Occurs(t, e.args[i]) && PlainLoad(t) ensures LoadFree(t.args[1]) { assert Occurs(t, e); }
      }
    }
  }

  lemma FreeIsPlain(e: Expr)
    requires LoadFree(e)
    ensures PlainAddresses(e)
  {
    forall t | Occurs(t, e) && PlainLoad(t) ensures LoadFree(t.args[1]) {
      forall s | Occurs(s, t.args[1]) ensures !LoadRedex(s) {
        assert Occurs(s, t);
        OccursTrans(s, t, e);
      }
    }
  }

  lemma AtomIsFree(S: Sig, e: Expr)
    requires !e.App?
    ensures CondFree(S, e) && LoadFree(e) && PlainAddresses(e)
  {
    CondFreeNode(S, e);
    LoadFreeNode(e);
    PlainAddressesNode(e);
  }

  // ---------- two and three arguments ----------

  lemma CondFreeTwo(S: Sig, a: Expr, b: Expr)
    ensures AllCondFree(S, [a, b]) <==> CondFree(S, a) && CondFree(S, b)
  {
    assert [a, b][0] == a && [a, b][1] == b;
  }

  lemma CondFreeThree(S: Sig, a: Expr, b: Expr, c: Expr)
    ensures AllCondFree(S, [a, b, c]) <==> CondFree(S, a) && CondFree(S, b) && CondFree(S, c)
  {
    assert [a, b, c][0] == a && [a, b, c][1] == b && [a, b, c][2] == c;
  }

  lemma LoadFreeTwo(a: Expr, b: Expr)
    ensures AllLoadFree([a, b]) <==> LoadFree(a) && LoadFree(b)
    ensures AllPlain([a, b]) <==> PlainAddresses(a) && PlainAddresses(b)
  {
    assert [a, b][0] == a && [a, b][1] == b;
  }

  lemma LoadFreeThree(a: Expr, b: Expr, c: Expr)
    ensures AllLoadFree([a, b, c]) <==> LoadFree(a) && LoadFree(b) && LoadFree(c)
    ensures AllPlain([a, b, c]) <==> PlainAddresses(a) && PlainAddresses(b) && PlainAddresses(c)
  {
    assert [a, b, c][0] == a && [a, b, c][1] == b && [a, b, c][2] == c;
  }

  // ---------- the nodes the passes build ----------

  lemma CondFreeStore(S: Sig, m: Expr, a: Expr, d: Expr)
    ensures CondFree(S, Store(m, a, d)) <==> CondFree(S, m) && CondFree(S, a) && CondFree(S, d)
  {
    CondFreeNode(S, Store(m, a, d));
    CondFreeThree(S, m, a, d);
  }

  lemma CondFreeIte(S: Sig, c: Expr, a: Expr, b: Expr)
    requires CondFree(S, c) && CondFree(S, a) && CondFree(S, b) && SortOf(S, a) != MemS
    ensures CondFree(S, Ite(c, a, b))
  {
    CondFreeNode(S, Ite(c, a, b));
    CondFreeThree(S, c, a, b);
  }

  lemma CondFreeLoad(S: Sig, m: Expr, a: Expr)
    requires CondFree(S, m) && CondFree(S, a)
    ensures CondFree(S, Load(m, a))
  {
    CondFreeNode(S, Load(m, a));
    CondFreeTwo(S, m, a);
  }

  lemma LoadFreeStore(m: Expr, a: Expr, d: Expr)
    ensures LoadFree(Store(m, a, d)) <==> LoadFree(m) && LoadFree(a) && LoadFree(d)
    ensures PlainAddresses(Store(m, a, d)) <==> PlainAddresses(m) && PlainAddresses(a) && PlainAddresses(d)
  {
    LoadFreeNode(Store(m, a, d));
    PlainAddressesNode(Store(m, a, d));
    LoadFreeThree(m, a, d);
  }

  lemma LoadFreeIte(c: Expr, a: Expr, b: Expr)
    ensures LoadFree(Ite(c, a, b)) <==> LoadFree(c) && LoadFree(a) && LoadFree(b)
    ensures PlainAddresses(Ite(c, a, b)) <==> PlainAddresses(c) && PlainAddresses(a) && PlainAddresses(b)
  {
    LoadFreeNode(Ite(c, a, b));
    PlainAddressesNode(Ite(c, a, b));
    LoadFreeThree(c, a, b);
  }

  lemma LoadFreeEq(a: Expr, b: Expr)
    ensures LoadFree(Eq(a, b)) <==> LoadFree(a) && LoadFree(b)
    ensures PlainAddresses(Eq(a, b)) <==> PlainAddresses(a) && PlainAddresses(b)
  {
    LoadFreeNode(Eq(a, b));
    PlainAddressesNode(Eq(a, b));
    LoadFreeTwo(a, b);
  }

  lemma LoadFreePlainLoad(m: Expr, a: Expr)
    requires !m.App?
    ensures LoadFree(Load(m, a)) <==> LoadFree(a)
    ensures PlainAddresses(Load(m, a)) <==> LoadFree(a)
  {
    LoadFreeNode(Load(m, a));
    PlainAddressesNode(Load(m, a));
    LoadFreeTwo(m, a);
    LoadFreeNode(m);
    PlainAddressesNode(m);
    if LoadFree(a) { FreeIsPlain(a); }
  }
}
