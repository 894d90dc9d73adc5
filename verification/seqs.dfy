/** Sequence operations that describe both the browser's tab order and the
    order of tab views in the document. */
module Seqs {
  // All the sequences of the model are sequences of tab ids.

  predicate NoDup(s: seq<int>)
  {
    forall i, j :: 0 <= i < j < |s| ==> s[i] != s[j]
  }

  function InsertAt(s: seq<int>, i: int, x: int): (r: seq<int>)
    requires 0 <= i <= |s|
    ensures |r| == |s| + 1 && r[i] == x
    ensures forall k :: 0 <= k < i ==> r[k] == s[k]
    ensures forall k :: i < k < |r| ==> r[k] == s[k - 1]
  {
    s[..i] + [x] + s[i..]
  }

  function RemoveAt(s: seq<int>, i: int): (r: seq<int>)
    requires 0 <= i < |s|
    ensures |r| == |s| - 1
    ensures forall k :: 0 <= k < i ==> r[k] == s[k]
    ensures forall k :: i <= k < |r| ==> r[k] == s[k + 1]
  {
    s[..i] + s[i + 1..]
  }

  /** The browser's move: the element at `from` ends up at index `to`, the
      others keep their relative order. */
  function Move(s: seq<int>, from: int, to: int): (r: seq<int>)
    requires 0 <= from < |s| && 0 <= to < |s|
    ensures |r| == |s| && r[to] == s[from]
  {
    InsertAt(RemoveAt(s, from), to, s[from])
  }

  /** `s` with every occurrence of `x` taken out. */
  function Without(s: seq<int>, x: int): (r: seq<int>)
    ensures forall y :: y in r <==> y in s && y != x
    ensures |r| <= |s|
  {
    if |s| == 0 then []
    else if s[0] == x then Without(s[1..], x)
    else [s[0]] + Without(s[1..], x)
  }

  /** `Array.prototype.indexOf`: the first index holding `x`, or -1. */
  function IndexOf(s: seq<int>, x: int): (k: int)
    ensures -1 <= k < |s|
    ensures k >= 0 ==> s[k] == x && x !in s[..k]
    ensures k == -1 <==> x !in s
  {
    if |s| == 0 then -1
    else if s[0] == x then 0
    else
      var k := IndexOf(s[1..], x);
      if k == -1 then -1
      else
        assert s[..k + 1] == [s[0]] + s[1..][..k];
        k + 1
  }

  lemma WithoutAbsent(s: seq<int>, x: int)
    requires x !in s
    ensures Without(s, x) == s
  {
    if |s| > 0 {
      WithoutAbsent(s[1..], x);
      assert s == [s[0]] + s[1..];
    }
  }

  lemma {:induction false} WithoutAt(s: seq<int>, k: int)
    requires NoDup(s) && 0 <= k < |s|
    ensures Without(s, s[k]) == RemoveAt(s, k)
    decreases |s|
  {
    if k == 0 {
      WithoutAbsent(s[1..], s[0]);
      assert RemoveAt(s, 0) == s[1..];
    } else {
      assert NoDup(s[1..]);
      assert s[1..][k - 1] == s[k];
      WithoutAt(s[1..], k - 1);
      assert RemoveAt(s, k) == [s[0]] + RemoveAt(s[1..], k - 1);
    }
  }

  lemma IndexOfNoDup(s: seq<int>, k: int)
    requires NoDup(s) && 0 <= k < |s|
    ensures IndexOf(s, s[k]) == k
  {
    var j := IndexOf(s, s[k]);
    assert s[j] == s[k];
  }

  lemma NoDupInsert(s: seq<int>, i: int, x: int)
    requires NoDup(s) && x !in s && 0 <= i <= |s|
    ensures NoDup(InsertAt(s, i, x))
  {
    var r := InsertAt(s, i, x);
    forall a, b | 0 <= a < b < |r|
      ensures r[a] != r[b]
    {
      if a == i {
        assert r[b] == s[b - 1];
      } else if b == i {
        assert r[a] == s[a];
      }
    }
  }

  lemma NoDupRemove(s: seq<int>, i: int)
    requires NoDup(s) && 0 <= i < |s|
    ensures NoDup(RemoveAt(s, i))
  {
  }

  lemma NoDupWithout(s: seq<int>, x: int)
    requires NoDup(s)
    ensures NoDup(Without(s, x))
  {
    if x in s {
      var k := IndexOf(s, x);
      WithoutAt(s, k);
      NoDupRemove(s, k);
    } else {
      WithoutAbsent(s, x);
    }
  }

  lemma InsertAtMembers(s: seq<int>, i: int, x: int)
    requires 0 <= i <= |s|
    ensures forall y :: y in InsertAt(s, i, x) <==> y == x || y in s
  {
    var r := InsertAt(s, i, x);
    forall y | y in s
      ensures y in r
    {
      var k :| 0 <= k < |s| && s[k] == y;
      if k < i { assert r[k] == y; } else { assert r[k + 1] == y; }
    }
  }

  lemma RemoveAtMembers(s: seq<int>, i: int)
    requires NoDup(s) && 0 <= i < |s|
    ensures forall y :: y in RemoveAt(s, i) <==> y in s && y != s[i]
  {
    WithoutAt(s, i);
  }

  /** Taking out element `from` shifts every later element down by one. */
  lemma IndexAfterRemove(s: seq<int>, from: int, k: int)
    requires NoDup(s) && 0 <= from < |s| && 0 <= k < |s| && k != from
    ensures IndexOf(RemoveAt(s, from), s[k]) == if k < from then k else k - 1
  {
    var r := RemoveAt(s, from);
    NoDupRemove(s, from);
    var k' := if k < from then k else k - 1;
    assert r[k'] == s[k];
    IndexOfNoDup(r, k');
  }

  lemma NoDupAppend(a: seq<int>, b: seq<int>)
    requires NoDup(a) && NoDup(b) && forall x :: x in a ==> x !in b
    ensures NoDup(a + b)
  {
    var s := a + b;
    forall i, j | 0 <= i < j < |s|
      ensures s[i] != s[j]
    {
      if i < |a| && j >= |a| {
        assert s[i] in a && s[j] in b;
      }
    }
  }

  lemma NoDupSplit(a: seq<int>, b: seq<int>)
    requires NoDup(a + b)
    ensures NoDup(a) && NoDup(b) && forall x :: x in a ==> x !in b
  {
    var s := a + b;
    assert forall i :: 0 <= i < |a| ==> s[i] == a[i];
    assert forall j :: 0 <= j < |b| ==> s[|a| + j] == b[j];
    forall x | x in a
      ensures x !in b
    {
      var i :| 0 <= i < |a| && a[i] == x;
      forall j | 0 <= j < |b|
        ensures b[j] != x
      {
        assert s[i] == a[i] && s[|a| + j] == b[j];
      }
    }
  }

  /** Moving the last element to the front. */
  lemma MoveLastToFront(s: seq<int>, x: int)
    ensures Move(s + [x], |s|, 0) == [x] + s
  {
    assert RemoveAt(s + [x], |s|) == s;
  }

  /** Moving the first element to the back keeps the elements distinct. */
  lemma NoDupRotate(x: int, s: seq<int>)
    requires NoDup([x] + s)
    ensures NoDup(s + [x])
  {
    NoDupSplit([x], s);
    NoDupAppend(s, [x]);
  }

  /** The elements of `s`, as a set. */
  function Members(s: seq<int>): (m: set<int>)
    ensures forall x :: x in m <==> x in s
  {
    set x | x in s
  }

  /** A sequence without repetitions has as many elements as members. */
  lemma {:induction false} MembersCard(s: seq<int>)
    requires NoDup(s)
    ensures |Members(s)| == |s|
  {
    if |s| > 0 {
      var t := s[1..];
      assert forall i :: 0 <= i < |t| ==> t[i] == s[i + 1];
      assert NoDup(t);
      assert s[0] !in t;
      assert Members(s) == {s[0]} + Members(t);
      MembersCard(t);
    }
  }

  /** A move inside the front part of a sequence leaves the back part in
      place. */
  lemma MoveFront(a: seq<int>, b: seq<int>, from: int, to: int)
    requires 0 <= from < |a| && 0 <= to < |a|
    ensures Move(a + b, from, to) == Move(a, from, to) + b
  {
    assert RemoveAt(a + b, from) == RemoveAt(a, from) + b;
    assert (a + b)[from] == a[from];
    assert InsertAt(RemoveAt(a, from) + b, to, a[from]) == InsertAt(RemoveAt(a, from), to, a[from]) + b;
  }

  /** A move inside the back part of a sequence leaves the front part in
      place. */
  lemma MoveBack(a: seq<int>, b: seq<int>, from: int, to: int)
    requires 0 <= from < |b| && 0 <= to < |b|
    ensures Move(a + b, |a| + from, |a| + to) == a + Move(b, from, to)
  {
    assert RemoveAt(a + b, |a| + from) == a + RemoveAt(b, from);
    assert (a + b)[|a| + from] == b[from];
    assert InsertAt(a + RemoveAt(b, from), |a| + to, b[from]) == a + InsertAt(RemoveAt(b, from), to, b[from]);
  }

  /** Inserting into the front or the back part of a sequence. */
  lemma InsertFront(a: seq<int>, b: seq<int>, i: int, x: int)
    requires 0 <= i <= |a|
    ensures InsertAt(a + b, i, x) == InsertAt(a, i, x) + b
  {
  }

  lemma InsertBack(a: seq<int>, b: seq<int>, i: int, x: int)
    requires 0 <= i <= |b|
    ensures InsertAt(a + b, |a| + i, x) == a + InsertAt(b, i, x)
  {
  }

  /** Taking an element out of a concatenation takes it out of each part. */
  lemma {:induction false} WithoutAppend(a: seq<int>, b: seq<int>, x: int)
    ensures Without(a + b, x) == Without(a, x) + Without(b, x)
  {
    if |a| > 0 {
      assert (a + b)[1..] == a[1..] + b;
      WithoutAppend(a[1..], b, x);
    } else {
      assert a + b == b;
    }
  }
}
