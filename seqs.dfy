/**
 The list operations of java.util.ArrayList that the download service relies
 on, stated over Dafny sequences: indexOf, add(i, x), remove(i) and
 remove(Object). Elements are compared with `==`, which for handles is
 identity (see module Domain).
 */
module Seqs {

  datatype Option<+T> = None | Some(value: T)

  /** ArrayList.indexOf: the first position holding x, or -1 when there is none. */
  function IndexOf<T(==)>(s: seq<T>, x: T): (r: int)
    ensures -1 <= r < |s|
    ensures r == -1 <==> x !in s
    ensures 0 <= r ==> s[r] == x && x !in s[..r]
  {
    IndexFrom(s, x, 0)
  }

  /** The scan of indexOf from position i on. */
  function IndexFrom<T(==)>(s: seq<T>, x: T, i: nat): (r: int)
    requires i <= |s|
    requires x !in s[..i]
    ensures -1 <= r < |s|
    ensures r == -1 <==> x !in s
    ensures 0 <= r ==> i <= r && s[r] == x && x !in s[..r]
    decreases |s| - i
  {
    if i == |s| then
      assert s[..i] == s;
      -1
    else if s[i] == x then i
    else
      assert s[..i + 1] == s[..i] + [s[i]];
      IndexFrom(s, x, i + 1)
  }

  /** ArrayList.add(i, x): x lands at position i and everything from i on moves one to the right. */
  function InsertAt<T>(s: seq<T>, i: nat, x: T): (r: seq<T>)
    requires i <= |s|
    ensures |r| == |s| + 1 && r[i] == x
    ensures multiset(r) == multiset(s) + multiset{x}
  {
    var r := seq(|s| + 1, j requires 0 <= j <= |s| => if j < i then s[j] else if j == i then x else s[j - 1]);
    assert r == s[..i] + [x] + s[i..];
    assert s == s[..i] + s[i..];
    r
  }

  /** Positions before i are untouched by add(i, x); those after it hold what was one to the left. */
  lemma InsertAtElements<T>(s: seq<T>, i: nat, x: T)
    requires i <= |s|
    ensures forall j :: 0 <= j < i ==> InsertAt(s, i, x)[j] == s[j]
    ensures forall j :: i < j <= |s| ==> InsertAt(s, i, x)[j] == s[j - 1]
  {
  }

  /** A slice grows by one element at its end. */
  lemma SliceExtend<T>(s: seq<T>, from: nat, to: nat)
    requires from <= to < |s|
    ensures s[from..to + 1] == s[from..to] + [s[to]]
  {
  }

  /** ArrayList.remove(int): drops the element at position i. */
  function RemoveAt<T>(s: seq<T>, i: nat): (r: seq<T>)
    requires i < |s|
    ensures |r| == |s| - 1
    ensures forall j :: 0 <= j < i ==> r[j] == s[j]
    ensures forall j :: i <= j < |r| ==> r[j] == s[j + 1]
    ensures multiset(r) == multiset(s) - multiset{s[i]}
  {
    assert s == s[..i] + [s[i]] + s[i + 1..];
    s[..i] + s[i + 1..]
  }

  /** ArrayList.remove(Object): drops the first occurrence of x; no change when x is absent. */
  function RemoveFirst<T(==)>(s: seq<T>, x: T): (r: seq<T>)
  {
    var i := IndexOf(s, x);
    if i == -1 then s else RemoveAt(s, i)
  }

  /** What remove(Object) leaves: one occurrence fewer of x, every other element kept in order. */
  lemma RemoveFirstSpec<T>(s: seq<T>, x: T)
    ensures x !in s ==> RemoveFirst(s, x) == s
    ensures x in s ==> |RemoveFirst(s, x)| == |s| - 1
    ensures multiset(RemoveFirst(s, x)) == multiset(s) - multiset{x}
    ensures forall y :: y != x ==> multiset(RemoveFirst(s, x))[y] == multiset(s)[y]
  {
    if x !in s {
      assert multiset(s)[x] == 0;
    }
  }

  /** remove(Object) only takes elements away. */
  lemma RemoveFirstMembers<T>(s: seq<T>, x: T)
    ensures forall y :: y in RemoveFirst(s, x) ==> y in s
  {
    var i := IndexOf(s, x);
    if i != -1 {
      forall y | y in RemoveFirst(s, x) ensures y in s {
        var j :| 0 <= j < |s| - 1 && RemoveFirst(s, x)[j] == y;
        assert y == if j < i then s[j] else s[j + 1];
      }
    }
  }

  /**
   Moving an element to the front after the first occurrence has been taken
   out keeps the multiset: this is what shuffle does with the current track.
   */
  lemma MoveToFrontPermutes<T>(s: seq<T>, x: T)
    requires x in s
    ensures multiset(InsertAt(RemoveFirst(s, x), 0, x)) == multiset(s)
    ensures InsertAt(RemoveFirst(s, x), 0, x)[0] == x
  {
    RemoveFirstSpec(s, x);
    assert x in multiset(s);
  }

  /** The position of x after an insertion at or before its first occurrence moves one to the right. */
  lemma {:induction false} IndexOfAfterInsert<T>(s: seq<T>, i: nat, y: T, x: T)
    requires i <= |s| && y != x && x in s && i <= IndexOf(s, x)
    ensures IndexOf(InsertAt(s, i, y), x) == IndexOf(s, x) + 1
  {
    var r := InsertAt(s, i, y);
    var k := IndexOf(s, x);
    InsertAtElements(s, i, y);
    assert r[k + 1] == x;
    forall j | 0 <= j < k + 1
      ensures r[j] != x
    {
      if j < i {
        assert r[j] == s[j] && s[j] in s[..k];
      } else if j > i {
        assert r[j] == s[j - 1] && s[j - 1] in s[..k];
      }
    }
    IndexOfIsFirst(r, x, k + 1);
  }

  /** The position of x is unchanged by an insertion strictly after its first occurrence. */
  lemma IndexOfInsertAfter<T>(s: seq<T>, i: nat, y: T, x: T)
    requires i <= |s| && x in s && IndexOf(s, x) < i
    ensures IndexOf(InsertAt(s, i, y), x) == IndexOf(s, x)
  {
    var r := InsertAt(s, i, y);
    var k := IndexOf(s, x);
    InsertAtElements(s, i, y);
    forall j | 0 <= j < k ensures r[j] != x {
      assert s[j] in s[..k];
    }
    IndexOfIsFirst(r, x, k);
  }

  /** Any position that holds x and has no earlier x is what IndexOf returns. */
  lemma {:induction false} IndexOfIsFirst<T>(s: seq<T>, x: T, k: nat)
    requires k < |s| && s[k] == x
    requires forall j :: 0 <= j < k ==> s[j] != x
    ensures IndexOf(s, x) == k
  {
    if k > 0 {
      IndexOfIsFirst(s[1..], x, k - 1);
    }
  }

  /** Sequences with the same multiset have the same members. */
  lemma SameMembers<T>(a: seq<T>, b: seq<T>)
    requires multiset(a) == multiset(b)
    ensures forall x :: x in a <==> x in b
  {
    forall x ensures x in a <==> x in b {
      assert x in a <==> x in multiset(a);
      assert x in b <==> x in multiset(b);
    }
  }

  /** Appending after the first occurrence of x does not move it. */
  lemma IndexOfAppend<T>(s: seq<T>, t: seq<T>, x: T)
    requires x in s
    ensures IndexOf(s + t, x) == IndexOf(s, x)
  {
    var k := IndexOf(s, x);
    forall j | 0 <= j < k ensures (s + t)[j] != x {
      assert s[j] in s[..k];
    }
    IndexOfIsFirst(s + t, x, k);
  }

  /** Dropping m elements in front of the first occurrence of x moves it m places to the left. */
  lemma IndexOfDropFront<T>(s: seq<T>, m: nat, x: T)
    requires x in s && m <= IndexOf(s, x)
    ensures IndexOf(s[m..], x) == IndexOf(s, x) - m
  {
    var k := IndexOf(s, x);
    forall j | 0 <= j < k - m ensures s[m..][j] != x {
      assert s[m + j] in s[..k];
    }
    IndexOfIsFirst(s[m..], x, k - m);
  }
}
