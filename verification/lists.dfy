/** Python list operations used on participant and id lists. */
module Lists {

  /** No value occurs twice: what a primary key or a toggled selection guarantees. */
  predicate NoDup<T(==)>(s: seq<T>) {
    forall i, j :: 0 <= i < j < |s| ==> s[i] != s[j]
  }

  /** Index of the first `x` in `s`, or `|s|` when there is none. */
  function Position<T(==)>(s: seq<T>, x: T): (k: nat)
    ensures k <= |s|
    ensures k < |s| ==> s[k] == x
    ensures forall i :: 0 <= i < k ==> s[i] != x
  {
    if s == [] then 0 else if s[0] == x then 0 else 1 + Position(s[1..], x)
  }

  /**
   * Python's `list.remove(x)`: drops the first occurrence of `x`, if any, and
   * keeps every other element in its order.
   */
  function RemoveFirst<T(==)>(s: seq<T>, x: T): (r: seq<T>)
    ensures multiset(r) == multiset(s) - multiset{x}
    ensures x in s ==> |r| == |s| - 1 && r == s[..Position(s, x)] + s[Position(s, x) + 1..]
    ensures x !in s ==> r == s
  {
    var k := Position(s, x);
    if k < |s| then
      assert s == s[..k] + [x] + s[k + 1..];
      s[..k] + s[k + 1..]
    else
      s
  }

  lemma NoDupTail<T>(s: seq<T>)
    requires s != [] && NoDup(s)
    ensures s[0] !in s[1..] && NoDup(s[1..])
  {
    forall k | 0 <= k < |s| - 1 ensures s[1..][k] != s[0] {
      assert s[1..][k] == s[k + 1];
    }
  }

  lemma NoDupCons<T>(a: T, t: seq<T>)
    requires a !in t && NoDup(t)
    ensures NoDup([a] + t)
  {
    var r := [a] + t;
    forall i, j | 0 <= i < j < |r| ensures r[i] != r[j] {
      assert r[j] == t[j - 1];
      if i > 0 { assert r[i] == t[i - 1]; }
    }
  }

  /** Appending a new value keeps a list duplicate-free. */
  lemma NoDupSnoc<T>(s: seq<T>, x: T)
    requires NoDup(s) && x !in s
    ensures NoDup(s + [x])
  {
  }

  /** Removing a value just appended to a list that did not hold it gives the list back. */
  lemma RemoveFirstLast<T>(s: seq<T>, x: T)
    requires x !in s
    ensures RemoveFirst(s + [x], x) == s
  {
    assert (s + [x])[|s|] == x;
    assert Position(s + [x], x) == |s|;
  }

  /** On a duplicate-free list, removing `x` leaves a duplicate-free list without `x`. */
  lemma RemoveFirstNoDup<T>(s: seq<T>, x: T)
    requires NoDup(s)
    ensures NoDup(RemoveFirst(s, x)) && x !in RemoveFirst(s, x)
  {
    var k := Position(s, x);
    if k < |s| {
      var r := RemoveFirst(s, x);
      assert forall i :: 0 <= i < |r| ==> r[i] == s[if i < k then i else i + 1];
      forall i, j | 0 <= i < j < |r| ensures r[i] != r[j] {
        assert r[i] == s[if i < k then i else i + 1] && r[j] == s[if j < k then j else j + 1];
      }
      forall i | 0 <= i < |r| ensures r[i] != x {
        assert r[i] == s[if i < k then i else i + 1];
      }
    }
  }

  /** Number of occurrences of `x` in `s`. */
  function Count<T(==)>(s: seq<T>, x: T): nat {
    if s == [] then 0 else (if s[0] == x then 1 else 0) + Count(s[1..], x)
  }

  lemma {:induction false} CountIsMultiplicity<T>(s: seq<T>, x: T)
    ensures Count(s, x) == multiset(s)[x]
  {
    if s != [] {
      assert s == [s[0]] + s[1..];
      CountIsMultiplicity(s[1..], x);
    }
  }
}
