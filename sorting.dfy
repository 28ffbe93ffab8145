/** `Array.prototype.sort((a, b) => key(b) - key(a))` as the feed queries use it: an in-place
    sort of an array into non-increasing order of an integer key. */
module Sorting {

  predicate SortedDesc<T>(s: seq<T>, key: T -> int)
  {
    forall i, j :: 0 <= i < j < |s| ==> key(s[i]) >= key(s[j])
  }

  /** Exchanging two elements keeps the multiset of a sequence. */
  lemma SwapKeepsElements<T>(s: seq<T>, i: nat, j: nat)
    requires i < j < |s|
    ensures multiset(s[i := s[j]][j := s[i]]) == multiset(s)
  {
    var t := s[i := s[j]][j := s[i]];
    assert s == s[..i] + [s[i]] + s[i + 1..j] + [s[j]] + s[j + 1..];
    assert t == s[..i] + [s[j]] + s[i + 1..j] + [s[i]] + s[j + 1..];
  }

  /** Insertion sort by adjacent exchanges. */
  method SortDesc<T>(a: array<T>, key: T -> int)
    modifies a
    ensures SortedDesc(a[..], key)
    ensures multiset(a[..]) == multiset(old(a[..]))
  {
    var i := 0;
    while i < a.Length
      invariant 0 <= i <= a.Length
      invariant SortedDesc(a[..i], key)
      invariant multiset(a[..]) == multiset(old(a[..]))
    {
      Insert(a, key, i);
      i := i + 1;
    }
    assert a[..i] == a[..];
  }

  /** The sort on a copy of a sequence: `array.sort` on the array the query built. */
  method SortedCopy<T>(s: seq<T>, key: T -> int) returns (r: seq<T>)
    ensures |r| == |s| && SortedDesc(r, key) && multiset(r) == multiset(s)
  {
    var a := new T[|s|](i requires 0 <= i < |s| => s[i]);
    assert a[..] == s;
    SortDesc(a, key);
    r := a[..];
    assert |r| == |multiset(r)| == |multiset(s)| == |s|;
  }

  /** Midway through a pass that sinks the element now at j: a[..i + 1] without position j is
      in order, and the sinking element's key is above every key after it. */
  predicate Sinking<T>(s: seq<T>, key: T -> int, i: nat, j: nat)
    requires j <= i < |s|
  {
    && (forall p, q :: 0 <= p < q <= i && p != j && q != j ==> key(s[p]) >= key(s[q]))
    && (forall q :: j < q <= i ==> key(s[j]) > key(s[q]))
  }

  lemma SinkStart<T>(s: seq<T>, key: T -> int, i: nat)
    requires i < |s| && SortedDesc(s[..i], key)
    ensures Sinking(s, key, i, i)
  {
    assert forall p :: 0 <= p < i ==> s[..i][p] == s[p];
  }

  lemma SinkStep<T>(s: seq<T>, key: T -> int, i: nat, j: nat)
    requires 0 < j <= i < |s| && Sinking(s, key, i, j) && key(s[j - 1]) < key(s[j])
    ensures Sinking(s[j - 1 := s[j]][j := s[j - 1]], key, i, j - 1)
  {
  }

  lemma SinkDone<T>(s: seq<T>, key: T -> int, i: nat, j: nat)
    requires j <= i < |s| && Sinking(s, key, i, j) && (j == 0 || key(s[j - 1]) >= key(s[j]))
    ensures SortedDesc(s[..i + 1], key)
  {
    forall p, q | 0 <= p < q <= i
      ensures key(s[p]) >= key(s[q])
    {
      if q == j && p < j - 1 {
        assert key(s[p]) >= key(s[j - 1]);
      }
    }
  }

  method Swap<T>(a: array<T>, i: nat, j: nat)
    requires i < j < a.Length
    modifies a
    ensures a[..] == old(a[..])[i := old(a[j])][j := old(a[i])]
    ensures multiset(a[..]) == multiset(old(a[..]))
  {
    SwapKeepsElements(a[..], i, j);
    a[i], a[j] := a[j], a[i];
  }

  /** One pass of the sort: move a[i] left past the smaller keys before it. */
  method Insert<T>(a: array<T>, key: T -> int, i: nat)
    requires i < a.Length && SortedDesc(a[..i], key)
    modifies a
    ensures SortedDesc(a[..i + 1], key)
    ensures multiset(a[..]) == multiset(old(a[..]))
  {
    var j := i;
    SinkStart(a[..], key, i);
    while j > 0 && key(a[j - 1]) < key(a[j])
      invariant 0 <= j <= i
      invariant Sinking(a[..], key, i, j)
      invariant multiset(a[..]) == multiset(old(a[..]))
    {
      SinkStep(a[..], key, i, j);
      Swap(a, j - 1, j);
      j := j - 1;
    }
    SinkDone(a[..], key, i, j);
  }

  /** A prefix of a sorted sequence keeps its greatest elements: whatever it leaves out has a
      key no greater than any key it keeps. */
  lemma PrefixKeepsGreatest<T>(s: seq<T>, key: T -> int, n: nat)
    requires n <= |s| && SortedDesc(s, key)
    ensures SortedDesc(s[..n], key)
    ensures multiset(s[..n]) <= multiset(s)
    ensures forall x :: x in multiset(s) - multiset(s[..n]) ==> forall i :: 0 <= i < n ==> key(x) <= key(s[i])
  {
    assert s == s[..n] + s[n..];
    assert multiset(s) == multiset(s[..n]) + multiset(s[n..]);
    assert multiset(s) - multiset(s[..n]) == multiset(s[n..]);
    forall x | x in multiset(s[n..])
      ensures forall i :: 0 <= i < n ==> key(x) <= key(s[i])
    {
      assert x in s[n..];
      var q :| n <= q < |s| && s[q] == x;
    }
  }
}
