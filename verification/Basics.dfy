/** Small vocabulary shared by the component models. */
module Basics {

  datatype Option<+T> = None | Some(value: T)

  /** No element occurs twice. */
  ghost predicate NoDup<T>(s: seq<T>) {
    forall i, j :: 0 <= i < j < |s| ==> s[i] != s[j]
  }

  /** Index of the first occurrence of `x`, or -1. */
  function IndexOf<T(==)>(s: seq<T>, x: T): (i: int)
    ensures i == -1 <==> x !in s
    ensures i != -1 ==> 0 <= i < |s| && s[i] == x && x !in s[..i]
  {
    if s == [] then -1
    else if s[0] == x then 0
    else
      var r := IndexOf(s[1..], x);
      assert s == [s[0]] + s[1..];
      assert r != -1 ==> s[..r + 1] == [s[0]] + s[1..][..r];
      if r == -1 then -1 else r + 1
  }

  /** `splice(index, 0, x)`: the index is clamped to the length. */
  function SpliceIn<T(!new)>(s: seq<T>, index: nat, x: T): (r: seq<T>)
    ensures |r| == |s| + 1 && (index >= |s| ==> r == s + [x])
    ensures forall y :: y in r <==> y in s || y == x
  {
    assert index < |s| ==> s == s[..index] + s[index..];
    if index < |s| then s[..index] + [x] + s[index..] else s + [x]
  }

  /** `indexOf` followed by `splice(i, 1)` when found. */
  function Without<T(==, !new)>(s: seq<T>, x: T): (r: seq<T>)
    ensures forall y :: y in r ==> y in s
    ensures forall y :: y in s && y != x ==> y in r
  {
    assert IndexOf(s, x) != -1 ==> s == s[..IndexOf(s, x)] + [x] + s[IndexOf(s, x) + 1..];
    var i := IndexOf(s, x);
    if i == -1 then s else s[..i] + s[i + 1..]
  }

  lemma WithoutProperties<T(!new)>(s: seq<T>, x: T)
    requires NoDup(s)
    ensures NoDup(Without(s, x)) && x !in Without(s, x)
  {
  }

  lemma IndexOfIs<T>(s: seq<T>, x: T, k: nat)
    requires k < |s| && s[k] == x && x !in s[..k]
    ensures IndexOf(s, x) == k
  {
    if k > 0 {
      assert s[..k] == [s[0]] + s[1..][..k - 1];
      IndexOfIs(s[1..], x, k - 1);
    }
  }

  lemma WithoutFirst<T(!new)>(s: seq<T>)
    requires s != []
    ensures Without(s, s[0]) == s[1..]
  {
    IndexOfIs(s, s[0], 0);
  }

  /** Removing an element beyond a prefix that does not hold it leaves the prefix alone. */
  lemma WithoutSuffix<T(!new)>(a: seq<T>, b: seq<T>, x: T)
    requires x !in a
    ensures Without(a + b, x) == a + Without(b, x)
  {
    hide IndexOf;
    var j := IndexOf(b, x);
    if j == -1 {
      assert x !in a + b;
    } else {
      var all := a + b;
      assert all[..|a| + j] == a + b[..j] && all[|a| + j + 1..] == b[j + 1..];
      IndexOfIs(all, x, |a| + j);
      assert a + (b[..j] + b[j + 1..]) == a + b[..j] + b[j + 1..];
    }
  }

  lemma SpliceInProperties<T(!new)>(s: seq<T>, index: nat, x: T)
    requires NoDup(s) && x !in s
    ensures NoDup(SpliceIn(s, index, x))
  {
  }

  lemma SpliceInBetween<T(!new)>(a: seq<T>, b: seq<T>, x: T)
    ensures SpliceIn(a + b, |a|, x) == a + [x] + b
  {
    assert b == [] ==> a + b == a;
  }

  lemma NoDupParts<T>(a: seq<T>, b: seq<T>)
    requires NoDup(a + b)
    ensures NoDup(b)
  {
    forall i, j | 0 <= i < j < |b| ensures b[i] != b[j] {
      assert (a + b)[|a| + i] == b[i] && (a + b)[|a| + j] == b[j];
    }
  }

  lemma SliceOfSlice<T>(s: seq<T>, a: nat, b: nat, c: nat, d: nat)
    requires a <= b <= |s| && c <= d <= b - a
    ensures s[a..b][c..d] == s[a + c..a + d]
  {
    var x, y := s[a..b][c..d], s[a + c..a + d];
    assert |x| == |y|;
    forall i | 0 <= i < |x| ensures x[i] == y[i] {
      assert x[i] == s[a..b][c + i];
    }
  }

  lemma SameSlice<T>(s: seq<T>, t: seq<T>, a: nat, b: nat)
    requires a <= b <= |s| && b <= |t| && forall k :: a <= k < b ==> s[k] == t[k]
    ensures s[a..b] == t[a..b]
  {
  }

  lemma Reassociate<T>(a: seq<T>, b: seq<T>, c: seq<T>, d: seq<T>)
    ensures a + (b + c + d) == a + b + c + d
  {
  }
}
