/** The stable sort behind JavaScript's `Array.prototype.sort`, over any total preorder. */
module Sorting {
  type Rank<!T> = (T, T) -> bool

  ghost predicate TotalPreorder<T(!new)>(le: Rank<T>) {
    && (forall a, b :: le(a, b) || le(b, a))
    && (forall a, b, c :: le(a, b) && le(b, c) ==> le(a, c))
  }

  /** Before the first element it does not come after, so equal elements keep their order. */
  function Insert<T>(x: T, s: seq<T>, le: Rank<T>): seq<T> {
    if s == [] || le(x, s[0]) then [x] + s else [s[0]] + Insert(x, s[1..], le)
  }

  function Sort<T>(s: seq<T>, le: Rank<T>): (r: seq<T>)
    ensures |r| == |s|
  {
    if s == [] then []
    else
      InsertPermutes(s[0], Sort(s[1..], le), le);
      Insert(s[0], Sort(s[1..], le), le)
  }

  ghost predicate Sorted<T(!new)>(s: seq<T>, le: Rank<T>) {
    forall i, j :: 0 <= i < j < |s| ==> le(s[i], s[j])
  }

  /** No two elements rank the same. */
  ghost predicate DistinctRanks<T>(s: seq<T>, le: Rank<T>) {
    forall i, j :: 0 <= i < j < |s| ==> !(le(s[i], s[j]) && le(s[j], s[i]))
  }

  lemma {:induction false} InsertPermutes<T>(x: T, s: seq<T>, le: Rank<T>)
    ensures multiset(Insert(x, s, le)) == multiset{x} + multiset(s)
    ensures |Insert(x, s, le)| == |s| + 1
  {
    if s != [] && !le(x, s[0]) {
      InsertPermutes(x, s[1..], le);
      assert s == [s[0]] + s[1..];
    }
  }

  lemma {:induction false} SortPermutes<T>(s: seq<T>, le: Rank<T>)
    ensures multiset(Sort(s, le)) == multiset(s)
  {
    if s != [] {
      SortPermutes(s[1..], le);
      InsertPermutes(s[0], Sort(s[1..], le), le);
      assert s == [s[0]] + s[1..];
    }
  }

  /** The elements that rank with `x`, in order. */
  function Ties<T>(s: seq<T>, x: T, le: Rank<T>): seq<T> {
    if s == [] then []
    else if le(x, s[0]) && le(s[0], x) then [s[0]] + Ties(s[1..], x, le)
    else Ties(s[1..], x, le)
  }

  lemma {:induction false} InsertIsStable<T(!new)>(y: T, s: seq<T>, x: T, le: Rank<T>)
    requires TotalPreorder(le)
    ensures Ties(Insert(y, s, le), x, le) == Ties([y] + s, x, le)
  {
    if s != [] && !le(y, s[0]) {
      InsertIsStable(y, s[1..], x, le);
      assert ([s[0]] + Insert(y, s[1..], le))[1..] == Insert(y, s[1..], le);
      assert ([y] + s)[1..] == s;
      assert ([y] + s[1..])[1..] == s[1..];
    }
  }

  /** The sort is stable: elements of one rank keep the order they came in. */
  lemma {:induction false} SortIsStable<T(!new)>(s: seq<T>, x: T, le: Rank<T>)
    requires TotalPreorder(le)
    ensures Ties(Sort(s, le), x, le) == Ties(s, x, le)
  {
    if s != [] {
      SortIsStable(s[1..], x, le);
      InsertIsStable(s[0], Sort(s[1..], le), x, le);
      var rest := Sort(s[1..], le);
      assert ([s[0]] + rest)[1..] == rest;
    }
  }

  lemma SameElements<T>(a: seq<T>, b: seq<T>)
    requires multiset(a) == multiset(b)
    ensures forall x :: x in a <==> x in b
  {
    forall x ensures x in a <==> x in b {
      assert x in a <==> x in multiset(a);
      assert x in b <==> x in multiset(b);
    }
  }

  lemma {:induction false} InsertSorts<T(!new)>(x: T, s: seq<T>, le: Rank<T>)
    requires TotalPreorder(le) && Sorted(s, le)
    ensures Sorted(Insert(x, s, le), le)
  {
    if s != [] && !le(x, s[0]) {
      InsertSorts(x, s[1..], le);
      InsertPermutes(x, s[1..], le);
      var rest := Insert(x, s[1..], le);
      forall j | 0 <= j < |rest| ensures le(s[0], rest[j]) {
        assert rest[j] in multiset(rest);
        assert rest[j] == x || rest[j] in s[1..];
      }
    }
  }

  lemma {:induction false} SortSorts<T(!new)>(s: seq<T>, le: Rank<T>)
    requires TotalPreorder(le)
    ensures Sorted(Sort(s, le), le)
  {
    if s != [] {
      SortSorts(s[1..], le);
      InsertSorts(s[0], Sort(s[1..], le), le);
    }
  }

  /** A sorted list whose elements all rank differently is determined by its elements. */
  lemma {:induction false} SortedIsUnique<T(!new)>(a: seq<T>, b: seq<T>, le: Rank<T>)
    requires TotalPreorder(le) && Sorted(a, le) && Sorted(b, le) && DistinctRanks(a, le) && DistinctRanks(b, le)
    requires forall x :: x in a <==> x in b
    ensures a == b
  {
    assert a != [] ==> a[0] in b;
    assert b != [] ==> b[0] in a;
    if a != [] {
      var i :| 0 <= i < |b| && b[i] == a[0];
      var j :| 0 <= j < |a| && a[j] == b[0];
      assert a[0] == b[0];
      forall x ensures x in a[1..] <==> x in b[1..] {
        assert x in a <==> x == a[0] || x in a[1..];
        assert x in b <==> x == b[0] || x in b[1..];
        HeadOnce(a, le);
        HeadOnce(b, le);
      }
      SortedIsUnique(a[1..], b[1..], le);
      assert a == [a[0]] + a[1..] && b == [b[0]] + b[1..];
    }
  }

  lemma HeadOnce<T(!new)>(s: seq<T>, le: Rank<T>)
    requires TotalPreorder(le) && s != [] && DistinctRanks(s, le)
    ensures s[0] !in s[1..]
  {
  }

  /** Elements that differ pairwise, by whatever measure, still do after sorting. */
  lemma {:induction false} SortKeepsRanksDistinct<T(!new)>(s: seq<T>, le: Rank<T>, rank: Rank<T>)
    requires DistinctRanks(s, rank)
    ensures DistinctRanks(Sort(s, le), rank)
  {
    if s != [] {
      var rest := Sort(s[1..], le);
      SortKeepsRanksDistinct(s[1..], le, rank);
      SortPermutes(s[1..], le);
      SameElements(rest, s[1..]);
      forall k | 0 <= k < |rest| ensures !(rank(s[0], rest[k]) && rank(rest[k], s[0])) {
        assert rest[k] in s[1..];
      }
      InsertKeepsRanksDistinct(s[0], rest, le, rank);
    }
  }

  lemma {:induction false} InsertKeepsRanksDistinct<T(!new)>(x: T, s: seq<T>, le: Rank<T>, rank: Rank<T>)
    requires DistinctRanks(s, rank) && forall k :: 0 <= k < |s| ==> !(rank(x, s[k]) && rank(s[k], x))
    ensures DistinctRanks(Insert(x, s, le), rank)
  {
    if s != [] && !le(x, s[0]) {
      InsertKeepsRanksDistinct(x, s[1..], le, rank);
      InsertPermutes(x, s[1..], le);
      var rest := Insert(x, s[1..], le);
      forall k | 0 <= k < |rest| ensures !(rank(s[0], rest[k]) && rank(rest[k], s[0])) {
        assert rest[k] in multiset(rest);
        assert rest[k] == x || rest[k] in s[1..];
      }
    }
  }

  /** So the order the elements came in does not matter to the sort. */
  lemma SortIgnoresInputOrder<T(!new)>(s: seq<T>, t: seq<T>, le: Rank<T>)
    requires TotalPreorder(le) && DistinctRanks(s, le) && DistinctRanks(t, le) && multiset(s) == multiset(t)
    ensures Sort(s, le) == Sort(t, le)
  {
    SortPermutes(s, le);
    SortPermutes(t, le);
    SortSorts(s, le);
    SortSorts(t, le);
    SortKeepsRanksDistinct(s, le, le);
    SortKeepsRanksDistinct(t, le, le);
    SameElements(Sort(s, le), Sort(t, le));
    SortedIsUnique(Sort(s, le), Sort(t, le), le);
  }
}
