/** Positions of elements in a sequence, and sequences arranged by a key. */
module Positions {

  ghost function FirstFrom<T>(run: seq<T>, ev: T, i: nat): (k: nat)
    requires i <= |run|
    ensures i <= k <= |run|
    ensures k < |run| ==> run[k] == ev
    ensures forall j :: i <= j < k ==> run[j] != ev
    decreases |run| - i
  {
    if i == |run| || run[i] == ev then i else FirstFrom(run, ev, i + 1)
  }

  /** The first position of an element, or the length of the sequence. */
  ghost function At<T>(run: seq<T>, ev: T): (k: nat)
    ensures k <= |run|
    ensures k < |run| ==> run[k] == ev
    ensures forall j :: 0 <= j < k ==> run[j] != ev
  {
    FirstFrom(run, ev, 0)
  }

  ghost predicate NoRepeat<T>(run: seq<T>) {
    forall k {:trigger run[k]} :: 0 <= k < |run| ==> At(run, run[k]) == k
  }

  ghost predicate Ascending<T(!new)>(key: T -> int, s: seq<T>) {
    forall j, k :: 0 <= j < k < |s| ==> s[j] != s[k] && key(s[j]) <= key(s[k])
  }

  /** Put `x` after the last element that is not larger. */
  ghost function InsertBy<T(!new)>(key: T -> int, s: seq<T>, x: T): seq<T> {
    if s == [] then [x]
    else if key(s[|s| - 1]) <= key(x) then s + [x]
    else InsertBy(key, s[..|s| - 1], x) + [s[|s| - 1]]
  }

  lemma {:induction false} InsertByHolds<T(!new)>(key: T -> int, s: seq<T>, x: T)
    ensures forall y :: y in InsertBy(key, s, x) <==> y == x || y in s
  {
    if s != [] && key(s[|s| - 1]) > key(x) {
      InsertByHolds(key, s[..|s| - 1], x);
      assert s == s[..|s| - 1] + [s[|s| - 1]];
    }
  }

  lemma {:induction false} InsertByAscends<T(!new)>(key: T -> int, s: seq<T>, x: T)
    requires Ascending(key, s) && x !in s
    ensures Ascending(key, InsertBy(key, s, x))
  {
    if s != [] && key(s[|s| - 1]) > key(x) {
      var s' := s[..|s| - 1];
      InsertByAscends(key, s', x);
      InsertByHolds(key, s', x);
      var r := InsertBy(key, s', x);
      forall k | 0 <= k < |r| ensures r[k] != s[|s| - 1] && key(r[k]) <= key(s[|s| - 1]) {
        assert r[k] in r;
      }
    }
  }

  lemma AscendingDoesNotRepeat<T(!new)>(key: T -> int, s: seq<T>)
    requires Ascending(key, s)
    ensures NoRepeat(s) && forall x :: x in s ==> At(s, x) < |s|
  {
    forall k | 0 <= k < |s| ensures At(s, s[k]) == k {
      assert s[At(s, s[k])] == s[k];
    }
  }
}
