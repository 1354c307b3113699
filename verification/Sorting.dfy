/** Stable comparison sorting, as JavaScript's `Array.prototype.sort` performs it.

  `before(x, y)` stands for "the comparator returns zero or less for (x, y)".
 */
module Sorting {

  function Insert<T>(x: T, s: seq<T>, before: (T, T) -> bool): seq<T> {
    if s == [] || before(x, s[0]) then [x] + s else [s[0]] + Insert(x, s[1..], before)
  }

  function SortBy<T>(s: seq<T>, before: (T, T) -> bool): seq<T> {
    if s == [] then [] else Insert(s[0], SortBy(s[1..], before), before)
  }

  ghost predicate Ordered<T>(s: seq<T>, le: (T, T) -> bool) {
    forall i, j | 0 <= i < j < |s| :: le(s[i], s[j])
  }

  ghost predicate Transitive<T(!new)>(le: (T, T) -> bool) {
    forall x, y, z :: le(x, y) && le(y, z) ==> le(x, z)
  }

  /** `le` is what `before` decides, ties included. */
  ghost predicate Decides<T(!new)>(before: (T, T) -> bool, le: (T, T) -> bool) {
    forall x, y :: if before(x, y) then le(x, y) else le(y, x)
  }

  lemma {:induction false} InsertPermutes<T>(x: T, s: seq<T>, before: (T, T) -> bool)
    ensures multiset(Insert(x, s, before)) == multiset(s) + multiset{x}
  {
    if s == [] || before(x, s[0]) {
    } else {
      assert s == [s[0]] + s[1..];
      InsertPermutes(x, s[1..], before);
    }
  }

  lemma {:induction false} SortPermutes<T>(s: seq<T>, before: (T, T) -> bool)
    ensures multiset(SortBy(s, before)) == multiset(s)
    ensures |SortBy(s, before)| == |s|
  {
    if s != [] {
      assert s == [s[0]] + s[1..];
      SortPermutes(s[1..], before);
      InsertPermutes(s[0], SortBy(s[1..], before), before);
      assert |multiset(SortBy(s, before))| == |multiset(s)|;
    }
  }

  lemma {:induction false} InsertOrders<T(!new)>(x: T, s: seq<T>, before: (T, T) -> bool, le: (T, T) -> bool)
    requires Decides(before, le) && Transitive(le) && Ordered(s, le)
    ensures Ordered(Insert(x, s, before), le)
  {
    if s == [] {
    } else if before(x, s[0]) {
      assert le(x, s[0]);
    } else {
      var t := s[1..];
      InsertOrders(x, t, before, le);
      InsertPermutes(x, t, before);
      var r := Insert(x, t, before);
      forall j | 0 <= j < |r| ensures le(s[0], r[j]) {
        assert r[j] in multiset(r);
        assert r[j] == x || r[j] in t;
      }
    }
  }

  /** The sorted sequence is ordered by every preorder the comparator decides. */
  lemma {:induction false} SortOrders<T(!new)>(s: seq<T>, before: (T, T) -> bool, le: (T, T) -> bool)
    requires Decides(before, le) && Transitive(le)
    ensures Ordered(SortBy(s, before), le)
  {
    if s != [] {
      SortOrders(s[1..], before, le);
      InsertOrders(s[0], SortBy(s[1..], before), before, le);
    }
  }

  /** A sorted arrangement is unique once no two different elements tie. */
  lemma {:induction false} SortedIsCanonical<T(!new)>(s: seq<T>, t: seq<T>, le: (T, T) -> bool)
    requires Ordered(s, le) && Ordered(t, le) && multiset(s) == multiset(t)
    requires forall x, y :: le(x, y) && le(y, x) ==> x == y
    ensures s == t
  {
    assert |multiset(s)| == |multiset(t)|;
    if s != [] {
      assert s[0] in multiset(t) && t[0] in multiset(s);
      assert s[0] == t[0];
      WithoutFirst(s);
      WithoutFirst(t);
      SortedIsCanonical(s[1..], t[1..], le);
    }
  }

  lemma WithoutFirst<T>(s: seq<T>)
    requires s != []
    ensures s == [s[0]] + s[1..] && multiset(s[1..]) == multiset(s) - multiset{s[0]}
  {
    assert s == [s[0]] + s[1..];
  }

  ghost predicate Distinct<T>(s: seq<T>) {
    forall i, j | 0 <= i < j < |s| :: s[i] != s[j]
  }

  lemma {:induction false} DistinctOnce<T>(s: seq<T>, x: T)
    requires Distinct(s)
    ensures multiset(s)[x] == if x in s then 1 else 0
  {
    if s != [] {
      assert s == [s[0]] + s[1..];
      DistinctOnce(s[1..], x);
    }
  }

  ghost predicate TotalOrder<T(!new)>(le: (T, T) -> bool) {
    && Transitive(le)
    && (forall x, y :: le(x, y) || le(y, x))
    && (forall x, y :: le(x, y) && le(y, x) ==> x == y)
  }

  lemma Twice<T>(s: seq<T>, i: nat, j: nat)
    requires i < j < |s| && s[i] == s[j]
    ensures multiset(s)[s[i]] >= 2
  {
    var x := s[i];
    assert s == s[..i] + [x] + s[i + 1..j] + [x] + s[j + 1..];
  }

  lemma DistinctPermutation<T>(s: seq<T>, t: seq<T>)
    requires Distinct(s) && multiset(s) == multiset(t)
    ensures Distinct(t) && forall x :: x in t <==> x in s
  {
    forall i, j | 0 <= i < j < |t| ensures t[i] != t[j] {
      DistinctOnce(s, t[i]);
      if t[i] == t[j] { Twice(t, i, j); }
    }
    forall x ensures x in t <==> x in s {
      assert x in t <==> x in multiset(t);
      assert x in s <==> x in multiset(s);
    }
  }
}
