/** The two ways to link a private state of an ILA across its steps: by the last update in
    program order, or by an unordered search for a writer that nothing overwrites. */
module PrivateState {
  import opened Ast

  /** One step as far as one private state goes.  `update` is the value of its update function,
      `cur` the value of the state variable on the step. */
  datatype Line = Line(isWrite: bool, isRead: bool, decoded: bool, update: Value, cur: Value, ts: int)

  ghost predicate Initial(l: Line) {
    l.isWrite && !l.isRead && l.decoded && l.update == l.cur && l.ts == 0
  }

  /** Line 0 gives the initial value; the steps follow in program order. */
  ghost predicate Lines(ls: seq<Line>) {
    |ls| > 0 && Initial(ls[0])
  }

  ghost predicate InOrder(ls: seq<Line>) {
    forall i, j :: 0 <= i < j < |ls| ==> ls[i].ts < ls[j].ts
  }

  // ---------- ordered ----------

  /** The last update expression before line k: the update if its step decodes, else the value
      the state has on that step. */
  ghost function Carry(ls: seq<Line>, k: nat): Value
    requires Lines(ls) && 1 <= k <= |ls|
  {
    var l := ls[k - 1];
    if l.isWrite then (if l.decoded then l.update else l.cur)
    else if k == 1 then ls[0].cur
    else Carry(ls, k - 1)
  }

  ghost predicate OrderedLinks(ls: seq<Line>, fin: Value)
    requires Lines(ls)
  {
    && (forall k {:trigger ls[k].isRead} :: 1 <= k < |ls| && ls[k].isRead ==> ls[k].cur == Carry(ls, k))
    && fin == Carry(ls, |ls|)
  }

  // ---------- unordered ----------

  /** `w` is a decoded writer before `r` that no other decoded writer overwrites before `r`. */
  ghost predicate Undisturbed(ls: seq<Line>, r: int, w: int)
    requires 0 <= r < |ls| && 0 <= w < |ls|
  {
    && w != r && ls[w].isWrite && ls[w].decoded && ls[w].ts < ls[r].ts
    && forall i :: 0 <= i < |ls| && i != w && i != r && ls[i].isWrite && ls[i].decoded ==>
                   ls[i].ts < ls[w].ts || ls[i].ts > ls[r].ts
  }

  ghost predicate LastWriter(ls: seq<Line>, w: int)
    requires 0 <= w < |ls|
  {
    && ls[w].isWrite && ls[w].decoded
    && forall i :: 0 <= i < |ls| && i != w && ls[i].isWrite && ls[i].decoded ==> ls[i].ts < ls[w].ts
  }

  ghost predicate UnorderedRead(ls: seq<Line>, r: int)
    requires 0 <= r < |ls|
  {
    exists w :: 0 <= w < |ls| && Undisturbed(ls, r, w) && ls[r].cur == ls[w].update
  }

  ghost predicate UnorderedLinks(ls: seq<Line>, fin: Value) {
    && (forall r :: 1 <= r < |ls| && ls[r].isRead ==> UnorderedRead(ls, r))
    && exists w :: 0 <= w < |ls| && LastWriter(ls, w) && fin == ls[w].update
  }

  // ---------- they agree ----------

  /** Line k writes the state without decoding and without reading it: nothing ties its value down. */
  ghost predicate Loose(ls: seq<Line>, k: int)
    requires 0 <= k < |ls|
  {
    ls[k].isWrite && !ls[k].decoded && !ls[k].isRead
  }

  /** Line m overwrites line k before any line reads the state. */
  ghost predicate Overwrites(ls: seq<Line>, k: int, m: int)
    requires 0 <= k < |ls|
  {
    && k < m < |ls| && ls[m].isWrite && ls[m].decoded && !ls[m].isRead
    && forall j {:trigger ls[j].isRead} :: k < j < m ==> !ls[j].isRead
  }

  /** Every loose line is overwritten before the state is read. */
  ghost predicate Covered(ls: seq<Line>) {
    forall k :: 0 <= k < |ls| && Loose(ls, k) ==> exists m :: Overwrites(ls, k, m)
  }

  /** The last decoded writer before line k. */
  ghost function LastDecoded(ls: seq<Line>, k: nat): (w: nat)
    requires Lines(ls) && 1 <= k <= |ls|
    ensures w < k && ls[w].isWrite && ls[w].decoded
    ensures forall i :: w < i < k ==> !(ls[i].isWrite && ls[i].decoded)
  {
    if ls[k - 1].isWrite && ls[k - 1].decoded then k - 1 else LastDecoded(ls, k - 1)
  }

  /** The value of the last decoded update before line k. */
  ghost function LastValue(ls: seq<Line>, k: nat): Value
    requires Lines(ls) && 1 <= k <= |ls|
  {
    var l := ls[k - 1];
    if l.isWrite && l.decoded then l.update else LastValue(ls, k - 1)
  }

  lemma {:induction false} LastValueIsDecoded(ls: seq<Line>, k: nat)
    requires Lines(ls) && 1 <= k <= |ls|
    ensures LastValue(ls, k) == ls[LastDecoded(ls, k)].update
  {
    if !(ls[k - 1].isWrite && ls[k - 1].decoded) { LastValueIsDecoded(ls, k - 1); }
  }

  /** From line p up to, and without, line r nothing decodes a write. */
  ghost predicate NoneDecoded(ls: seq<Line>, p: int, r: int)
    requires 0 <= p <= r <= |ls|
  {
    forall j :: p <= j < r ==> !(ls[j].isWrite && ls[j].decoded)
  }

  /** A loose line would have to be overwritten beyond the next read, or beyond the last line. */
  lemma NotLooseBefore(ls: seq<Line>, k: nat, p: nat, r: nat)
    requires Covered(ls) && p == k + 1 && p <= r <= |ls| && NoneDecoded(ls, p, r)
    requires r == |ls| || ls[r].isRead
    ensures !Loose(ls, k)
  {
  }

  /** With linked reads, what the ordered linking carries to a read or to the end is the last decoded
      update: seen from line p, if nothing decodes a write from there on. */
  lemma {:induction false} CarryIsLastDecoded(ls: seq<Line>, p: nat, r: nat)
    requires Lines(ls) && Covered(ls) && 1 <= p <= r <= |ls| && (r == |ls| || ls[r].isRead)
    requires NoneDecoded(ls, p, r) && CarriedBefore(ls, p)
    ensures Carry(ls, p) == ls[LastDecoded(ls, p)].update
  {
    var k: nat := p - 1;
    if k > 0 && !(ls[k].isWrite && ls[k].decoded) {
      NotLooseBefore(ls, k, p, r);
      CarryIsLastDecoded(ls, k, if ls[k].isWrite then k else r);
    }
  }

  /** In program order the only undisturbed writer is the last decoded one. */
  lemma UndisturbedIsLastDecoded(ls: seq<Line>, r: nat, w: nat)
    requires Lines(ls) && InOrder(ls) && 1 <= r < |ls| && w < |ls|
    ensures Undisturbed(ls, r, w) <==> w == LastDecoded(ls, r)
  {
    assert ls[LastDecoded(ls, r)].ts < ls[r].ts;
  }

  lemma LastWriterIsLastDecoded(ls: seq<Line>, w: nat)
    requires Lines(ls) && InOrder(ls) && w < |ls|
    ensures LastWriter(ls, w) <==> w == LastDecoded(ls, |ls|)
  {
    assert LastDecoded(ls, |ls|) < |ls|;
  }

  lemma UnorderedReadIsLastDecoded(ls: seq<Line>, r: nat)
    requires Lines(ls) && InOrder(ls) && 1 <= r < |ls|
    ensures UnorderedRead(ls, r) <==> ls[r].cur == ls[LastDecoded(ls, r)].update
  {
    UndisturbedIsLastDecoded(ls, r, LastDecoded(ls, r));
    if UnorderedRead(ls, r) {
      var w :| 0 <= w < |ls| && Undisturbed(ls, r, w) && ls[r].cur == ls[w].update;
      UndisturbedIsLastDecoded(ls, r, w);
    }
  }

  ghost predicate CarriedBefore(ls: seq<Line>, k: nat)
    requires Lines(ls) && k <= |ls|
  {
    forall r :: 1 <= r < k && ls[r].isRead ==> ls[r].cur == Carry(ls, r)
  }

  ghost predicate SearchedBefore(ls: seq<Line>, k: nat)
    requires k <= |ls|
  {
    forall r :: 1 <= r < k && ls[r].isRead ==> UnorderedRead(ls, r)
  }

  lemma {:induction false} ReadsAgree(ls: seq<Line>, k: nat)
    requires Lines(ls) && InOrder(ls) && Covered(ls) && 1 <= k <= |ls|
    ensures CarriedBefore(ls, k) <==> SearchedBefore(ls, k)
  {
    if k > 1 {
      var j: nat := k - 1;
      ReadsAgree(ls, j);
      if CarriedBefore(ls, j) && ls[j].isRead { ReadAgrees(ls, j); }
    }
  }

  lemma ReadAgrees(ls: seq<Line>, r: nat)
    requires Lines(ls) && InOrder(ls) && Covered(ls) && 1 <= r < |ls| && ls[r].isRead && CarriedBefore(ls, r)
    ensures ls[r].cur == Carry(ls, r) <==> UnorderedRead(ls, r)
  {
    UnorderedReadIsLastDecoded(ls, r);
    CarryIsLastDecoded(ls, r, r);
  }

  /** When timestamps follow program order and loose lines are covered, both linkings accept the same
      values. */
  lemma LinkingsAgree(ls: seq<Line>, fin: Value)
    requires Lines(ls) && InOrder(ls) && Covered(ls)
    ensures OrderedLinks(ls, fin) <==> UnorderedLinks(ls, fin)
  {
    ReadsAgree(ls, |ls|);
    LastWriterIsLastDecoded(ls, LastDecoded(ls, |ls|));
    assert OrderedLinks(ls, fin) <==> CarriedBefore(ls, |ls|) && fin == Carry(ls, |ls|);
    if CarriedBefore(ls, |ls|) {
      CarryIsLastDecoded(ls, |ls|, |ls|);
      if w :| 0 <= w < |ls| && LastWriter(ls, w) && fin == ls[w].update {
        LastWriterIsLastDecoded(ls, w);
      }
    }
  }

  // ---------- and not otherwise ----------

  /** The lines differ at most in the values of states and updates. */
  ghost predicate SameShape(a: seq<Line>, b: seq<Line>) {
    && |a| == |b|
    && forall i {:trigger a[i]} {:trigger b[i]} :: 0 <= i < |a| ==>
         b[i] == a[i].(update := b[i].update, cur := b[i].cur)
  }

  /** Line k makes up the value 1: the state is 0 before it and 1 from it on. */
  ghost function Invented(ls: seq<Line>, k: nat): (r: seq<Line>)
    ensures |r| == |ls|
    ensures forall i {:trigger r[i]} :: 0 <= i < |ls| ==>
              r[i] == ls[i].(update := BvV(if i <= k then 0 else 1), cur := BvV(if i < k then 0 else 1))
  {
    seq(|ls|, i requires 0 <= i < |ls| =>
                ls[i].(update := BvV(if i <= k then 0 else 1), cur := BvV(if i < k then 0 else 1)))
  }

  lemma {:induction false} InventedCarry(ls: seq<Line>, k: nat, p: nat)
    requires Lines(ls) && 1 <= k < |ls| && Loose(ls, k) && 1 <= p <= |ls|
    requires Lines(Invented(ls, k))
    ensures Carry(Invented(ls, k), p) == BvV(if p <= k then 0 else 1)
  {
    var r := Invented(ls, k);
    assert r[p - 1] == r[p - 1] && r[0].cur == BvV(0);
    if p > 1 && !ls[p - 1].isWrite { InventedCarry(ls, k, p - 1); }
  }

  /** The made-up value passes the ordered linking. */
  lemma InventedIsOrdered(ls: seq<Line>, k: nat)
    requires Lines(ls) && 1 <= k < |ls| && Loose(ls, k)
    ensures Lines(Invented(ls, k)) && OrderedLinks(Invented(ls, k), BvV(1))
  {
    var r := Invented(ls, k);
    assert r[0] == r[0];
    forall p: nat {:trigger r[p].isRead} | 1 <= p < |r| && r[p].isRead ensures r[p].cur == Carry(r, p) {
      InventedCarry(ls, k, p);
    }
    InventedCarry(ls, k, |ls|);
  }

  /** The first line after k that reads the state, or the number of lines. */
  ghost function NextRead(ls: seq<Line>, k: nat): (r: nat)
    requires k < |ls|
    ensures k < r <= |ls| && (r < |ls| ==> ls[r].isRead)
    ensures forall j {:trigger ls[j].isRead} :: k < j < r ==> !ls[j].isRead
    decreases |ls| - k
  {
    if k + 1 == |ls| || ls[k + 1].isRead then k + 1 else NextRead(ls, k + 1)
  }

  /** If nothing overwrites it, the next read, or the end, finds an older write. */
  lemma UncoveredFindsOlder(ls: seq<Line>, k: nat)
    requires Lines(ls) && 1 <= k < |ls| && Loose(ls, k) && forall m :: !Overwrites(ls, k, m)
    ensures LastDecoded(ls, NextRead(ls, k)) < k
  {
    var w := LastDecoded(ls, NextRead(ls, k));
    assert !Overwrites(ls, k, w);
  }

  lemma {:induction false} SameShapeLastDecoded(a: seq<Line>, b: seq<Line>, p: nat)
    requires Lines(a) && Lines(b) && SameShape(a, b) && 1 <= p <= |a|
    ensures LastDecoded(a, p) == LastDecoded(b, p)
  {
    assert a[p - 1] == a[p - 1];
    if !(a[p - 1].isWrite && a[p - 1].decoded) { SameShapeLastDecoded(a, b, p - 1); }
  }

  lemma SameShapeInOrder(a: seq<Line>, b: seq<Line>)
    requires SameShape(a, b) && InOrder(a)
    ensures InOrder(b)
  {
    forall i, j | 0 <= i < j < |b| ensures b[i].ts < b[j].ts {
      assert a[i].ts < a[j].ts;
    }
  }

  lemma InventedIsNotUnordered(ls: seq<Line>, k: nat)
    requires Lines(ls) && InOrder(ls) && 1 <= k < |ls| && Loose(ls, k) && forall m :: !Overwrites(ls, k, m)
    ensures !UnorderedLinks(Invented(ls, k), BvV(1))
  {
    var r, p := Invented(ls, k), NextRead(ls, k);
    InventedIsOrdered(ls, k);
    UncoveredFindsOlder(ls, k);
    SameShapeLastDecoded(ls, r, p);
    SameShapeInOrder(ls, r);
    assert r[LastDecoded(r, p)].update == BvV(0);
    if p < |ls| {
      UnorderedReadIsLastDecoded(r, p);
      assert r[p].isRead && r[p].cur == BvV(1);
    } else {
      forall w: nat | w < |r| && LastWriter(r, w) ensures r[w].update == BvV(0) {
        LastWriterIsLastDecoded(r, w);
      }
    }
  }

  lemma SameShapeCovered(a: seq<Line>, b: seq<Line>)
    requires SameShape(a, b) && Covered(a)
    ensures Covered(b)
  {
    forall k: nat | k < |b| && Loose(b, k) ensures exists m :: Overwrites(b, k, m) {
      assert Loose(a, k);
      var m :| Overwrites(a, k, m);
      assert Overwrites(b, k, m);
    }
  }

  /** What is read and written, what decodes and when decides: the linkings agree on all values exactly
      when every loose line is covered. */
  lemma LinkingsAgreeExactly(ls: seq<Line>)
    requires Lines(ls) && InOrder(ls)
    ensures Covered(ls) <==>
            forall other, fin | SameShape(ls, other) && Lines(other) ::
              OrderedLinks(other, fin) <==> UnorderedLinks(other, fin)
  {
    if Covered(ls) {
      forall other, fin | SameShape(ls, other) && Lines(other)
        ensures OrderedLinks(other, fin) <==> UnorderedLinks(other, fin)
      {
        SameShapeCovered(ls, other);
        SameShapeInOrder(ls, other);
        LinkingsAgree(other, fin);
      }
    } else {
      var k :| 0 <= k < |ls| && Loose(ls, k) && forall m :: !Overwrites(ls, k, m);
      InventedIsOrdered(ls, k);
      InventedIsNotUnordered(ls, k);
      assert SameShape(ls, Invented(ls, k));
    }
  }

  /** Every step that writes the state decodes or reads it. */
  ghost predicate Settled(ls: seq<Line>) {
    forall k {:trigger ls[k].isWrite} :: 0 <= k < |ls| && ls[k].isWrite ==> ls[k].decoded || ls[k].isRead
  }

  /** Settled lines need no look at what overwrites what: the linkings agree on them. */
  lemma SettledLinkingsAgree(ls: seq<Line>, fin: Value)
    requires Lines(ls) && InOrder(ls) && Settled(ls)
    ensures OrderedLinks(ls, fin) <==> UnorderedLinks(ls, fin)
  {
    assert Covered(ls);
    LinkingsAgree(ls, fin);
  }

  /** And not only on them: a loose line that a later one overwrites is covered all the same. */
  lemma OverwrittenIsCovered(init: Value, a: Value, b: Value, c: Value, d: Value)
    ensures
      var ls := [Line(true, false, true, init, init, 0), Line(true, false, false, a, b, 1),
                 Line(true, false, true, c, d, 2)];
      Lines(ls) && InOrder(ls) && Loose(ls, 1) && !Settled(ls) && Covered(ls)
  {
    var ls := [Line(true, false, true, init, init, 0), Line(true, false, false, a, b, 1),
               Line(true, false, true, c, d, 2)];
    assert Overwrites(ls, 1, 2);
  }

  /** A loose step at the end hands on any value to the ordered linking. */
  lemma LooseWriterInventsValue(v: Value)
    ensures exists ls: seq<Line> :: Lines(ls) && InOrder(ls) && !Covered(ls) && ls[0].cur == BvV(0) &&
                         OrderedLinks(ls, v) && (UnorderedLinks(ls, v) <==> v == BvV(0))
  {
    var ls := [Line(true, false, true, BvV(0), BvV(0), 0), Line(true, false, false, BvV(1), v, 1)];
    LastWriterIsLastDecoded(ls, 0);
    LastWriterIsLastDecoded(ls, 1);
    assert Loose(ls, 1) && forall m :: !Overwrites(ls, 1, m);
    assert Lines(ls) && InOrder(ls) && !Covered(ls) && ls[0].cur == BvV(0);
    assert OrderedLinks(ls, v);
    if v == BvV(0) {
      assert LastWriter(ls, 0) && v == ls[0].update;
    }
    assert UnorderedLinks(ls, v) <==> v == BvV(0);
  }
}
