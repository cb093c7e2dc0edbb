/**
 * The list helpers the configuration service relies on: the PopSingle
 * extension method, and the List/LINQ operations it calls on channel and
 * section lists (Any/Count, the first match, SingleOrDefault, RemoveAll,
 * RemoveAt), written as functions over sequences with a predicate.
 */
module Tools {
  import opened Outcomes

  /** How many elements of `s` satisfy `p`. */
  function Count<T>(s: seq<T>, p: T -> bool): (n: nat)
    ensures n <= |s|
    ensures n == 0 <==> forall i :: 0 <= i < |s| ==> !p(s[i])
  {
    if s == [] then 0 else (if p(s[0]) then 1 else 0) + Count(s[1..], p)
  }

  /** Counting distributes over concatenation. */
  lemma {:induction false} CountConcat<T>(a: seq<T>, b: seq<T>, p: T -> bool)
    ensures Count(a + b, p) == Count(a, p) + Count(b, p)
  {
    if a == [] {
      assert a + b == b;
    } else {
      assert (a + b)[1..] == a[1..] + b;
      CountConcat(a[1..], b, p);
    }
  }

  /** Two distinct positions satisfying `p` are witnessed by any count above one. */
  lemma {:induction false} TwoMatches<T>(s: seq<T>, p: T -> bool)
    requires Count(s, p) > 1
    ensures exists i, j :: 0 <= i < j < |s| && p(s[i]) && p(s[j])
  {
    if p(s[0]) {
      var j :| 0 <= j < |s[1..]| && p(s[1..][j]);
      assert p(s[j + 1]);
    } else {
      TwoMatches(s[1..], p);
      var i, j :| 0 <= i < j < |s[1..]| && p(s[1..][i]) && p(s[1..][j]);
      assert p(s[i + 1]) && p(s[j + 1]);
    }
  }

  /** With exactly one match, any two matching positions coincide. */
  lemma {:induction false} SingleMatch<T>(s: seq<T>, p: T -> bool, i: nat, j: nat)
    requires Count(s, p) == 1
    requires i < |s| && j < |s| && p(s[i]) && p(s[j])
    ensures i == j
  {
    if i != j {
      var lo, hi := if i < j then i else j, if i < j then j else i;
      assert s == s[..hi] + s[hi..];
      CountConcat(s[..hi], s[hi..], p);
    }
  }

  /** The position of the first element satisfying `p`, if there is one. */
  function FirstIndex<T>(s: seq<T>, p: T -> bool): (r: Option<nat>)
    ensures r.Some? ==> r.value < |s| && p(s[r.value])
    ensures r.Some? ==> forall j :: 0 <= j < r.value ==> !p(s[j])
    ensures r.None? <==> Count(s, p) == 0
  {
    if s == [] then None
    else if p(s[0]) then Some(0)
    else match FirstIndex(s[1..], p)
      case None => None
      case Some(k) => Some(k + 1)
  }

  /** When the second part of a concatenation adds no match, the first match is the first part's. */
  lemma {:induction false} FirstIndexPrefix<T>(a: seq<T>, b: seq<T>, p: T -> bool)
    requires Count(a, p) > 0 || Count(b, p) == 0
    ensures FirstIndex(a + b, p) == FirstIndex(a, p)
  {
    if a == [] {
      assert a + b == b;
    } else if !p(a[0]) {
      assert (a + b)[1..] == a[1..] + b;
      FirstIndexPrefix(a[1..], b, p);
    }
  }

  /**
   * Enumerable.SingleOrDefault, reporting a position: no match gives None,
   * exactly one match gives its position, and a second match is an error.
   */
  function SingleIndex<T>(s: seq<T>, p: T -> bool): (r: Result<Option<nat>>)
    ensures r == Ok(None) <==> Count(s, p) == 0
    ensures r == Err(MoreThanOneMatch) <==> Count(s, p) > 1
    ensures r.Ok? && r.value.Some? ==> r.value == FirstIndex(s, p)
    ensures r.Ok? && r.value.Some? ==> r.value.value < |s| && p(s[r.value.value])
    ensures r.Ok? && r.value.Some? ==> forall j :: 0 <= j < |s| && j != r.value.value ==> !p(s[j])
  {
    var n := Count(s, p);
    if n == 0 then Ok(None)
    else if n > 1 then Err(MoreThanOneMatch)
    else
      var k := FirstIndex(s, p).value;
      assert forall j :: 0 <= j < |s| && j != k ==> !p(s[j]) by {
        forall j | 0 <= j < |s| && j != k && p(s[j]) ensures false {
          SingleMatch(s, p, j, k);
        }
      }
      Ok(Some(k))
  }

  /** List.RemoveAll: the elements that do not satisfy `p`, in their original order. */
  function RemoveAll<T>(s: seq<T>, p: T -> bool): (r: seq<T>)
    ensures |r| == |s| - Count(s, p)
    ensures forall i :: 0 <= i < |r| ==> r[i] in s && !p(r[i])
    ensures forall i :: 0 <= i < |s| && !p(s[i]) ==> s[i] in r
  {
    if s == [] then [] else (if p(s[0]) then [] else [s[0]]) + RemoveAll(s[1..], p)
  }

  /** RemoveAll filters each part of a concatenation separately, so it keeps relative order. */
  lemma {:induction false} RemoveAllConcat<T>(a: seq<T>, b: seq<T>, p: T -> bool)
    ensures RemoveAll(a + b, p) == RemoveAll(a, p) + RemoveAll(b, p)
  {
    if a == [] {
      assert a + b == b;
    } else {
      assert (a + b)[1..] == a[1..] + b;
      RemoveAllConcat(a[1..], b, p);
    }
  }

  /** RemoveAll with nothing to remove leaves the list as it was. */
  lemma {:induction false} RemoveAllNone<T>(s: seq<T>, p: T -> bool)
    requires Count(s, p) == 0
    ensures RemoveAll(s, p) == s
  {
    if s != [] {
      assert Count(s[1..], p) == 0;
      RemoveAllNone(s[1..], p);
    }
  }

  /** An element appended after none that match is the one and first match. */
  lemma {:induction false} AppendedIsOnlyMatch<T>(s: seq<T>, x: T, p: T -> bool)
    requires Count(s, p) == 0 && p(x)
    ensures Count(s + [x], p) == 1
    ensures FirstIndex(s + [x], p) == Some(|s|)
  {
    CountConcat(s, [x], p);
    assert Count([x], p) == 1 by {
      assert [x][1..] == [];
    }
    assert forall i :: 0 <= i < |s| ==> (s + [x])[i] == s[i];
  }

  /** No two elements of `s` share a key. */
  ghost predicate DistinctBy<T, K>(s: seq<T>, key: T -> K) {
    forall i, j :: 0 <= i < j < |s| ==> key(s[i]) != key(s[j])
  }

  /** A list with distinct keys stays so when an element with a new key goes in front. */
  lemma {:induction false} DistinctPrepend<T, K>(x: T, rest: seq<T>, key: T -> K)
    requires DistinctBy(rest, key)
    requires forall i :: 0 <= i < |rest| ==> key(rest[i]) != key(x)
    ensures DistinctBy([x] + rest, key)
  {
    var r := [x] + rest;
    forall i, j | 0 <= i < j < |r| ensures key(r[i]) != key(r[j]) {
      assert r[j] == rest[j - 1];
      if i > 0 {
        assert r[i] == rest[i - 1];
      }
    }
  }

  /** What RemoveAll keeps still has distinct keys: it only drops elements. */
  lemma {:induction false} RemoveAllKeepsDistinct<T, K>(s: seq<T>, p: T -> bool, key: T -> K)
    requires DistinctBy(s, key)
    ensures DistinctBy(RemoveAll(s, p), key)
  {
    if s != [] {
      var tail := s[1..];
      assert DistinctBy(tail, key) by {
        forall i, j | 0 <= i < j < |tail| ensures key(tail[i]) != key(tail[j]) {
          assert tail[i] == s[i + 1] && tail[j] == s[j + 1];
        }
      }
      RemoveAllKeepsDistinct(tail, p, key);
      var rest := RemoveAll(tail, p);
      if !p(s[0]) {
        forall i | 0 <= i < |rest| ensures key(rest[i]) != key(s[0]) {
          var k :| 0 <= k < |tail| && tail[k] == rest[i];
          assert s[k + 1] == rest[i];
        }
        DistinctPrepend(s[0], rest, key);
      }
    }
  }

  /** List.RemoveAt: the list without position `i`. */
  function RemoveAt<T>(s: seq<T>, i: nat): (r: seq<T>)
    requires i < |s|
    ensures |r| == |s| - 1
    ensures forall j :: 0 <= j < i ==> r[j] == s[j]
    ensures forall j :: i <= j < |r| ==> r[j] == s[j + 1]
  {
    s[..i] + s[i + 1..]
  }

  /** Removing the one element that satisfies `p` leaves none that does. */
  lemma {:induction false} RemoveSingleMatch<T>(s: seq<T>, p: T -> bool, k: nat)
    requires Count(s, p) == 1 && k < |s| && p(s[k])
    ensures k == FirstIndex(s, p).value
    ensures forall j :: 0 <= j < |RemoveAt(s, k)| ==> !p(RemoveAt(s, k)[j])
  {
    SingleMatch(s, p, k, FirstIndex(s, p).value);
    assert s == s[..k] + s[k..];
    CountConcat(s[..k], s[k..], p);
    assert s[k..][1..] == s[k + 1..];
    CountConcat(s[..k], s[k + 1..], p);
  }

  /**
   * PopSingle: scans the list from its end, collecting the positions of the
   * elements that satisfy `condition`; fails unless there is exactly one,
   * and otherwise removes that element and returns it. The list is a value
   * here: `rest` is the list after the removal.
   */
  method PopSingle<T>(list: seq<T>, condition: T -> bool) returns (r: Result<T>, rest: seq<T>)
    ensures Count(list, condition) == 0 ==> r == Err(NoItemsFound) && rest == list
    ensures Count(list, condition) > 1 ==> r == Err(MultipleItemsFound) && rest == list
    ensures Count(list, condition) == 1 ==>
      var i := FirstIndex(list, condition).value;
      r == Ok(list[i]) && rest == RemoveAt(list, i)
    ensures r.Ok? ==> condition(r.value) && |rest| == |list| - 1
    ensures r.Ok? ==> forall j :: 0 <= j < |rest| ==> !condition(rest[j])
  {
    var indices: seq<nat> := [];
    var i: int := |list| - 1;
    // The collected positions are distinct, descending, all matches past `i`,
    // and as many as there are matches past `i`: exactly those matches.
    while i >= 0
      invariant -1 <= i < |list|
      invariant |indices| == Count(list[i + 1..], condition)
      invariant forall j :: 0 <= j < |indices| ==> i < indices[j] < |list| && condition(list[indices[j]])
      invariant forall j, k :: 0 <= j < k < |indices| ==> indices[j] > indices[k]
    {
      assert list[i..][1..] == list[i + 1..];
      if condition(list[i]) {
        indices := indices + [i];
      }
      i := i - 1;
    }
    assert list[0..] == list;
    assert |indices| == Count(list, condition);
    if |indices| == 0 {
      r, rest := Err(NoItemsFound), list;
    } else if |indices| > 1 {
      r, rest := Err(MultipleItemsFound), list;
    } else {
      var k := indices[0];
      r := Ok(list[k]);
      rest := RemoveAt(list, k);
      RemoveSingleMatch(list, condition, k);
    }
  }
}
