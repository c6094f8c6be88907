/** The document-store queries the handlers issue, over a collection kept as a sequence
    in insertion order, taken as the order queries return (one order MongoDB may use; it
    guarantees none without a sort): `find` with an equality filter and `findOne`, which
    returns the first match. */
module Tables {
  import opened Wrappers

  /** A document's `_id`. */
  type Id = nat

  /** `find(filter)`: the documents that match, in collection order. */
  function Filter<T(!new)>(s: seq<T>, matches: T -> bool): (r: seq<T>)
    ensures |r| <= |s|
    ensures forall x :: x in r <==> x in s && matches(x)
  {
    if s == [] then []
    else if matches(s[0]) then [s[0]] + Filter(s[1..], matches)
    else Filter(s[1..], matches)
  }

  /** `findOne(filter)`: the position of the first matching document, if any. */
  function FindFirst<T>(s: seq<T>, matches: T -> bool): (r: Option<nat>)
    ensures r.Some? ==> r.value < |s| && matches(s[r.value])
                        && forall j :: 0 <= j < r.value ==> !matches(s[j])
    ensures r.None? <==> forall j :: 0 <= j < |s| ==> !matches(s[j])
  {
    if s == [] then None
    else if matches(s[0]) then Some(0)
    else match FindFirst(s[1..], matches)
      case None => None
      case Some(k) => Some(k + 1)
  }

  /** A filter nothing matches returns no document. */
  lemma {:induction false} FilterNone<T(!new)>(s: seq<T>, matches: T -> bool)
    requires forall x :: x in s ==> !matches(x)
    ensures Filter(s, matches) == []
  {
    if s != [] {
      assert s[0] in s;
      FilterNone(s[1..], matches);
    }
  }

  /** Filtering a collection with one more document at its end: the new document is
      listed last exactly when it matches. */
  lemma {:induction false} FilterAppend<T(!new)>(s: seq<T>, x: T, matches: T -> bool)
    ensures Filter(s + [x], matches) == Filter(s, matches) + (if matches(x) then [x] else [])
  {
    if s == [] {
      assert s + [x] == [x];
      assert [x][1..] == [];
    } else {
      assert (s + [x])[0] == s[0];
      assert (s + [x])[1..] == s[1..] + [x];
      FilterAppend(s[1..], x, matches);
    }
  }

  /** No two documents of `s` share a value of `key` (a unique index). */
  ghost predicate Distinct<T, K>(s: seq<T>, key: T -> K) {
    forall i, j :: 0 <= i < j < |s| ==> key(s[i]) != key(s[j])
  }

  /** Every document's `key` is below `bound` (ids handed out so far). */
  ghost predicate AllBelow<T>(s: seq<T>, key: T -> Id, bound: Id) {
    forall i :: 0 <= i < |s| ==> key(s[i]) < bound
  }

  /** Deleting documents keeps a unique index unique. */
  lemma {:induction false} FilterKeepsDistinct<T(!new), K>(s: seq<T>, matches: T -> bool, key: T -> K)
    requires Distinct(s, key)
    ensures Distinct(Filter(s, matches), key)
  {
    if s != [] {
      var tail := Filter(s[1..], matches);
      FilterKeepsDistinct(s[1..], matches, key);
      if matches(s[0]) {
        var r := [s[0]] + tail;
        forall i, j | 0 <= i < j < |r| ensures key(r[i]) != key(r[j]) {
          if i == 0 {
            assert r[j] == tail[j - 1];
            assert r[j] in s[1..];
            var k :| 0 <= k < |s[1..]| && s[1..][k] == r[j];
            assert s[k + 1] == r[j];
          } else {
            assert r[i] == tail[i - 1] && r[j] == tail[j - 1];
          }
        }
      }
    }
  }

  /** Deleting documents keeps the ids below the bound. */
  lemma FilterKeepsBelow<T(!new)>(s: seq<T>, matches: T -> bool, key: T -> Id, bound: Id)
    requires AllBelow(s, key, bound)
    ensures AllBelow(Filter(s, matches), key, bound)
  {
    var r := Filter(s, matches);
    forall i | 0 <= i < |r| ensures key(r[i]) < bound {
      assert r[i] in s;
    }
  }

  /** Inserting a document whose key is new keeps a unique index unique. */
  lemma AppendKeepsDistinct<T, K>(s: seq<T>, x: T, key: T -> K)
    requires Distinct(s, key)
    requires forall i :: 0 <= i < |s| ==> key(s[i]) != key(x)
    ensures Distinct(s + [x], key)
  {
    var r := s + [x];
    forall i, j | 0 <= i < j < |r| ensures key(r[i]) != key(r[j]) {
      assert r[i] == s[i];
      if j < |s| { assert r[j] == s[j]; }
    }
  }

  /** Replacing a document by one with the same key keeps a unique index unique. */
  lemma UpdateKeepsDistinct<T, K>(s: seq<T>, k: nat, x: T, key: T -> K)
    requires k < |s| && Distinct(s, key) && key(x) == key(s[k])
    ensures Distinct(s[k := x], key)
  {
  }

  /** Under a unique index, two positions with the same key are the same position. */
  lemma DistinctAt<T, K>(s: seq<T>, key: T -> K, i: nat, j: nat)
    requires Distinct(s, key) && i < |s| && j < |s| && key(s[i]) == key(s[j])
    ensures i == j
  {
  }

  /** `findByIdAndDelete`: removing the document at position `k` of a collection with a
      unique key removes exactly the document with that key; every other one stays, in
      order, and the index stays unique. */
  lemma RemoveAt<T(!new), K>(s: seq<T>, k: nat, key: T -> K)
    requires Distinct(s, key) && k < |s|
    ensures Distinct(s[..k] + s[k + 1..], key)
    ensures forall x :: x in s[..k] + s[k + 1..] <==> x in s && key(x) != key(s[k])
  {
    var r := s[..k] + s[k + 1..];
    assert forall m :: 0 <= m < |r| ==> r[m] == (if m < k then s[m] else s[m + 1]);
    forall x | x in s && key(x) != key(s[k]) ensures x in r {
      var m :| 0 <= m < |s| && s[m] == x;
      if m < k { assert r[m] == x; } else { assert m != k; assert r[m - 1] == x; }
    }
  }

  lemma RemoveAtKeepsBelow<T>(s: seq<T>, k: nat, key: T -> Id, bound: Id)
    requires AllBelow(s, key, bound) && k < |s|
    ensures AllBelow(s[..k] + s[k + 1..], key, bound)
  {
    var r := s[..k] + s[k + 1..];
    assert forall m :: 0 <= m < |r| ==> r[m] == (if m < k then s[m] else s[m + 1]);
  }
}
