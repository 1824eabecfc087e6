/** `Array.prototype.indexOf` and `Array.prototype.splice(start, 1)` on sequences. */
module JsArrays {

  /** No element occurs twice: each element is missing from the list before it. */
  predicate Distinct<T(==)>(s: seq<T>)
    decreases |s|
  {
    s != [] ==> Distinct(s[..|s| - 1]) && s[|s| - 1] !in s[..|s| - 1]
  }

  /** Distinct means that no two positions hold the same element. */
  lemma {:induction false} DistinctIndices<T>(s: seq<T>)
    ensures Distinct(s) <==> forall i, j :: 0 <= i < j < |s| ==> s[i] != s[j]
    decreases |s|
  {
    if s != [] {
      var init := s[..|s| - 1];
      DistinctIndices(init);
      if forall i, j :: 0 <= i < j < |s| ==> s[i] != s[j] {
        assert forall i, j :: 0 <= i < j < |init| ==> init[i] != init[j] by {
          forall i, j | 0 <= i < j < |init| ensures init[i] != init[j] {
            assert init[i] == s[i] && init[j] == s[j];
          }
        }
        forall k | 0 <= k < |init| ensures init[k] != s[|s| - 1] {
          assert init[k] == s[k];
        }
      }
    }
  }

  /** Two distinct lists with no common element concatenate to a distinct list. */
  lemma {:induction false} DistinctAppend<T>(a: seq<T>, b: seq<T>)
    requires Distinct(a) && Distinct(b)
    requires forall x <- b :: x !in a
    ensures Distinct(a + b)
    decreases |b|
  {
    if b == [] {
      assert a + b == a;
    } else {
      var init := b[..|b| - 1];
      DistinctAppend(a, init);
      assert (a + b)[..|a + b| - 1] == a + init;
      assert b[|b| - 1] in b;
    }
  }

  /** `s.indexOf(x)`: the first index holding `x`, or -1. */
  function IndexOf<T(==)>(s: seq<T>, x: T): (k: int)
    ensures -1 <= k < |s|
    ensures k == -1 <==> x !in s
    ensures k >= 0 ==> s[k] == x && forall j :: 0 <= j < k ==> s[j] != x
  {
    if |s| == 0 then -1
    else if s[0] == x then 0
    else
      var k := IndexOf(s[1..], x);
      if k == -1 then -1 else k + 1
  }

  /** Where `splice(start, ...)` starts: a negative start counts from the end, both are clamped. */
  function SpliceStart(length: nat, start: int): (k: nat)
    ensures k <= length
    ensures 0 <= start <= length ==> k == start
    ensures start < 0 && length + start >= 0 ==> k == length + start
  {
    if start < 0 then (if length + start < 0 then 0 else length + start)
    else if start > length then length
    else start
  }

  /** The array left by `s.splice(start, 1)`. */
  function SpliceOne<T>(s: seq<T>, start: int): (r: seq<T>)
    ensures |s| > 0 && -|s| <= start < |s| ==> |r| == |s| - 1
    ensures |s| == 0 ==> r == []
    ensures multiset(r) <= multiset(s)
  {
    var k := SpliceStart(|s|, start);
    if k < |s| then
      assert s == s[..k] + [s[k]] + s[k + 1..];
      s[..k] + s[k + 1..]
    else s
  }

  /** Removing position `k` keeps the other positions pairwise different. */
  lemma RemoveAtPairwise<T>(s: seq<T>, k: int)
    requires 0 <= k < |s|
    requires forall i, j :: 0 <= i < j < |s| ==> s[i] != s[j]
    ensures var r := s[..k] + s[k + 1..]; forall i, j :: 0 <= i < j < |r| ==> r[i] != r[j]
  {
    var r := s[..k] + s[k + 1..];
    forall i, j | 0 <= i < j < |r| ensures r[i] != r[j] {
      var i' := if i < k then i else i + 1;
      var j' := if j < k then j else j + 1;
      assert r[i] == s[i'] && r[j] == s[j'];
    }
  }

  /** Removing one element keeps the others distinct. */
  lemma SpliceOneDistinct<T>(s: seq<T>, start: int)
    requires Distinct(s)
    ensures Distinct(SpliceOne(s, start))
  {
    var k := SpliceStart(|s|, start);
    if k < |s| {
      DistinctIndices(s);
      RemoveAtPairwise(s, k);
      DistinctIndices(s[..k] + s[k + 1..]);
    }
  }

  /** In a distinct list, the element at `k` occurs nowhere else. */
  lemma DistinctElsewhere<T>(s: seq<T>, k: int)
    requires Distinct(s) && 0 <= k < |s|
    ensures s[k] !in s[..k] + s[k + 1..]
  {
    DistinctIndices(s);
    var r := s[..k] + s[k + 1..];
    forall i | 0 <= i < |r| ensures r[i] != s[k] {
      var i' := if i < k then i else i + 1;
      assert r[i] == s[i'] && i' != k;
    }
  }

  /** Removing position `k` removes one occurrence of its element. */
  lemma RemoveAtCounts<T>(s: seq<T>, k: int)
    requires 0 <= k < |s|
    ensures multiset(s[..k] + s[k + 1..]) == multiset(s) - multiset{s[k]}
  {
    assert s == s[..k] + [s[k]] + s[k + 1..];
  }

  /** `s.splice(s.indexOf(x), 1)` on a list without duplicates removes exactly `x` when it is there. */
  lemma SpliceIndexOfPresent<T>(s: seq<T>, x: T)
    requires Distinct(s) && x in s
    ensures SpliceOne(s, IndexOf(s, x)) == s[..IndexOf(s, x)] + s[IndexOf(s, x) + 1..]
    ensures x !in SpliceOne(s, IndexOf(s, x))
    ensures multiset(SpliceOne(s, IndexOf(s, x))) == multiset(s) - multiset{x}
  {
    var k := IndexOf(s, x);
    assert SpliceOne(s, k) == s[..k] + s[k + 1..];
    RemoveAtCounts(s, k);
    DistinctElsewhere(s, k);
  }

  /** When `x` is not in the list, `indexOf` gives -1 and `splice(-1, 1)` drops the LAST element. */
  lemma SpliceIndexOfAbsent<T>(s: seq<T>, x: T)
    requires x !in s && |s| > 0
    ensures SpliceOne(s, IndexOf(s, x)) == s[..|s| - 1]
  {
  }

}
