/** Orders and sorting: what Python's `sorted` promises. */
module Sorting {

  ghost predicate TotalPreorder<T(!new)>(le: (T, T) -> bool) {
    && (forall x, y :: le(x, y) || le(y, x))
    && (forall x, y, z :: le(x, y) && le(y, z) ==> le(x, z))
  }

  ghost predicate Antisymmetric<T(!new)>(le: (T, T) -> bool) {
    forall x, y :: le(x, y) && le(y, x) ==> x == y
  }

  ghost predicate SortedBy<T>(s: seq<T>, le: (T, T) -> bool) {
    forall i, j :: 0 <= i < j < |s| ==> le(s[i], s[j])
  }

  /** Insert `x` behind everything it does not come before: equal elements keep their order. */
  function InsertBy<T>(s: seq<T>, x: T, le: (T, T) -> bool): (r: seq<T>)
    ensures |r| == |s| + 1
    ensures multiset(r) == multiset(s) + multiset{x}
  {
    if s == [] then [x]
    else
      var s0 := s[..|s| - 1];
      assert s == s0 + [s[|s| - 1]];
      if le(s[|s| - 1], x) then s + [x] else InsertBy(s0, x, le) + [s[|s| - 1]]
  }

  function SortBy<T>(s: seq<T>, le: (T, T) -> bool): (r: seq<T>)
    ensures |r| == |s|
    ensures multiset(r) == multiset(s)
  {
    if s == [] then []
    else
      assert s == s[..|s| - 1] + [s[|s| - 1]];
      InsertBy(SortBy(s[..|s| - 1], le), s[|s| - 1], le)
  }

  lemma {:induction false} InsertByMembers<T>(s: seq<T>, x: T, le: (T, T) -> bool)
    ensures forall y :: y in InsertBy(s, x, le) ==> y == x || y in s
  {
    if s != [] && !le(s[|s| - 1], x) {
      InsertByMembers(s[..|s| - 1], x, le);
    }
  }

  lemma {:induction false} SortedSnoc<T>(s: seq<T>, x: T, le: (T, T) -> bool)
    requires SortedBy(s, le) && forall y :: y in s ==> le(y, x)
    ensures SortedBy(s + [x], le)
  {
  }

  lemma {:induction false} InsertBySorted<T(!new)>(s: seq<T>, x: T, le: (T, T) -> bool)
    requires TotalPreorder(le) && SortedBy(s, le)
    ensures SortedBy(InsertBy(s, x, le), le)
  {
    if s == [] {
    } else {
      var front, last := s[..|s| - 1], s[|s| - 1];
      forall y | y in s
        ensures le(y, last)
      {
        LastIsGreatest(s, y, le);
      }
      if le(last, x) {
        SortedSnoc(s, x, le);
      } else {
        InsertBySorted(front, x, le);
        InsertByMembers(front, x, le);
        SortedSnoc(InsertBy(front, x, le), last, le);
      }
    }
  }

  lemma {:induction false} SortBySorted<T(!new)>(s: seq<T>, le: (T, T) -> bool)
    requires TotalPreorder(le)
    ensures SortedBy(SortBy(s, le), le)
  {
    if s != [] {
      SortBySorted(s[..|s| - 1], le);
      InsertBySorted(SortBy(s[..|s| - 1], le), s[|s| - 1], le);
    }
  }

  lemma {:induction false} LastIsGreatest<T(!new)>(s: seq<T>, y: T, le: (T, T) -> bool)
    requires TotalPreorder(le) && SortedBy(s, le) && y in s
    ensures le(y, s[|s| - 1])
  {
    var i :| 0 <= i < |s| && s[i] == y;
    assert le(y, y);
  }

  lemma {:induction false} DropLast<T>(s: seq<T>)
    requires s != []
    ensures multiset(s[..|s| - 1]) == multiset(s) - multiset{s[|s| - 1]}
  {
    assert s == s[..|s| - 1] + [s[|s| - 1]];
  }

  /** There is only one sorted arrangement of a bag. */
  lemma {:induction false} SortedUnique<T(!new)>(a: seq<T>, b: seq<T>, le: (T, T) -> bool)
    requires TotalPreorder(le) && Antisymmetric(le)
    requires SortedBy(a, le) && SortedBy(b, le) && multiset(a) == multiset(b)
    ensures a == b
  {
    SameBagSameElements(a, b);
    if a != [] {
      var x, y := a[|a| - 1], b[|b| - 1];
      LastIsGreatest(a, y, le);
      LastIsGreatest(b, x, le);
      assert x == y;
      DropLast(a);
      DropLast(b);
      SortedUnique(a[..|a| - 1], b[..|b| - 1], le);
      assert a == a[..|a| - 1] + [x] && b == b[..|b| - 1] + [y];
    }
  }

  /** So sorting forgets the order it was given. */
  lemma {:induction false} SortForgetsOrder<T(!new)>(a: seq<T>, b: seq<T>, le: (T, T) -> bool)
    requires TotalPreorder(le) && Antisymmetric(le) && multiset(a) == multiset(b)
    ensures SortBy(a, le) == SortBy(b, le)
  {
    SortBySorted(a, le);
    SortBySorted(b, le);
    SortedUnique(SortBy(a, le), SortBy(b, le), le);
  }

  // ---- the orders in use --------------------------------------------------------------

  predicate IntLe(a: int, b: int) { a <= b }

  /** Python's order on strings: by code point, a prefix first. */
  predicate StrLe(a: string, b: string) {
    a == [] || (b != [] && (a[0] < b[0] || (a[0] == b[0] && StrLe(a[1..], b[1..]))))
  }

  lemma {:induction false} StrLeTotal(a: string, b: string)
    ensures StrLe(a, b) || StrLe(b, a)
  {
    if a != [] && b != [] {
      StrLeTotal(a[1..], b[1..]);
    }
  }

  lemma {:induction false} StrLeTransitive(a: string, b: string, c: string)
    requires StrLe(a, b) && StrLe(b, c)
    ensures StrLe(a, c)
  {
    if a != [] && a[0] == b[0] && b[0] == c[0] {
      StrLeTransitive(a[1..], b[1..], c[1..]);
    }
  }

  lemma {:induction false} StrLeAntisymmetric(a: string, b: string)
    requires StrLe(a, b) && StrLe(b, a)
    ensures a == b
  {
    if a != [] {
      StrLeAntisymmetric(a[1..], b[1..]);
      assert a == [a[0]] + a[1..] && b == [b[0]] + b[1..];
    }
  }

  lemma {:induction false} StrLeOrder()
    ensures TotalPreorder(StrLe) && Antisymmetric(StrLe)
  {
    forall x, y
      ensures StrLe(x, y) || StrLe(y, x)
    {
      StrLeTotal(x, y);
    }
    forall x, y, z | StrLe(x, y) && StrLe(y, z)
      ensures StrLe(x, z)
    {
      StrLeTransitive(x, y, z);
    }
    forall x, y | StrLe(x, y) && StrLe(y, x)
      ensures x == y
    {
      StrLeAntisymmetric(x, y);
    }
  }

  /** By code point, at the first place the texts differ; a text comes ahead of its continuations. */
  lemma {:induction false} StrLeIff(a: string, b: string)
    ensures StrLe(a, b) <==> a <= b || exists k: nat :: SmallerAt(a, b, k)
  {
    if a != [] && b != [] && a[0] == b[0] {
      StrLeIff(a[1..], b[1..]);
      SmallerFurtherOn(a, b);
      assert a <= b <==> a[1..] <= b[1..];
    } else if a != [] && b != [] {
      assert SmallerAt(a, b, 0) <==> a[0] < b[0];
      forall k: nat | SmallerAt(a, b, k)
        ensures k == 0 || a[0] == b[0]
      {
        SameHead(a, b, k);
      }
    }
  }

  lemma {:induction false} SameHead(a: string, b: string, k: nat)
    requires SmallerAt(a, b, k)
    ensures k == 0 || a[0] == b[0]
  {
    if k > 0 {
      assert a[..k][0] == b[..k][0];
    }
  }

  ghost predicate SmallerAt(a: string, b: string, k: nat) {
    k < |a| && k < |b| && a[..k] == b[..k] && a[k] < b[k]
  }

  lemma {:induction false} SmallerFurtherOn(a: string, b: string)
    requires a != [] && b != [] && a[0] == b[0]
    ensures (exists k: nat :: SmallerAt(a, b, k)) <==> exists k: nat :: SmallerAt(a[1..], b[1..], k)
  {
    if k: nat :| SmallerAt(a, b, k) {
      assert a[1..][..k - 1] == a[..k][1..] && b[1..][..k - 1] == b[..k][1..];
      assert SmallerAt(a[1..], b[1..], k - 1);
    }
    if k: nat :| SmallerAt(a[1..], b[1..], k) {
      assert a[..k + 1] == [a[0]] + a[1..][..k] && b[..k + 1] == [b[0]] + b[1..][..k];
      assert SmallerAt(a, b, k + 1);
    }
  }

  /** So of two texts that differ at one place first, the one with the smaller character there is ahead. */
  lemma {:induction false} SmallerIsAhead(p: string, c: char, x: string, d: char, y: string)
    requires c < d
    ensures StrLe(p + [c] + x, p + [d] + y) && !StrLe(p + [d] + y, p + [c] + x)
  {
    var a, b := p + [c] + x, p + [d] + y;
    assert SmallerAt(a, b, |p|);
    StrLeIff(a, b);
    if StrLe(b, a) {
      StrLeAntisymmetric(a, b);
    }
  }

  lemma {:induction false} IntLeOrder()
    ensures TotalPreorder(IntLe) && Antisymmetric(IntLe)
  {
  }

  // ---- bags ---------------------------------------------------------------------------

  function ConcatMap<T, E>(xs: seq<T>, f: T -> seq<E>): seq<E> {
    if xs == [] then [] else f(xs[0]) + ConcatMap(xs[1..], f)
  }

  lemma {:induction false} ConcatMapConcat<T, E>(a: seq<T>, b: seq<T>, f: T -> seq<E>)
    ensures ConcatMap(a + b, f) == ConcatMap(a, f) + ConcatMap(b, f)
  {
    if a == [] {
      assert a + b == b;
    } else {
      assert (a + b)[1..] == a[1..] + b;
      ConcatMapConcat(a[1..], b, f);
    }
  }

  lemma {:induction false} ConcatMapSnoc<T, E>(a: seq<T>, x: T, f: T -> seq<E>)
    ensures ConcatMap(a + [x], f) == ConcatMap(a, f) + f(x)
  {
    ConcatMapConcat(a, [x], f);
    assert [x][1..] == [];
  }

  lemma {:induction false} ConcatMapMiddle<T, E>(a: seq<T>, x: T, b: seq<T>, f: T -> seq<E>)
    ensures multiset(ConcatMap(a + [x] + b, f)) == multiset(f(x)) + multiset(ConcatMap(a + b, f))
  {
    ConcatMapConcat(a + [x], b, f);
    ConcatMapSnoc(a, x, f);
    ConcatMapConcat(a, b, f);
  }

  lemma {:induction false} DropMiddle<T>(a: seq<T>, x: T, b: seq<T>)
    ensures multiset(a + b) == multiset(a + [x] + b) - multiset{x}
  {
  }

  /** Take the head of one list out of another list of the same bag. */
  lemma {:induction false} TakeHeadOut<T>(a: seq<T>, b: seq<T>) returns (i: nat)
    requires a != [] && multiset(a) == multiset(b)
    ensures i < |b| && b[i] == a[0]
    ensures multiset(a[1..]) == multiset(b[..i] + b[i + 1..])
  {
    SameBagSameElements(a, b);
    assert a[0] in b;
    i :| 0 <= i < |b| && b[i] == a[0];
    DropMiddle(b[..i], b[i], b[i + 1..]);
    assert b == b[..i] + [b[i]] + b[i + 1..];
    DropMiddle([], a[0], a[1..]);
    assert a == [] + [a[0]] + a[1..] && [] + a[1..] == a[1..];
  }

  /** Mapping a bag gives a bag: the order of the arguments only orders the results. */
  lemma {:induction false} ConcatMapBag<T, E>(a: seq<T>, b: seq<T>, f: T -> seq<E>)
    requires multiset(a) == multiset(b)
    ensures multiset(ConcatMap(a, f)) == multiset(ConcatMap(b, f))
  {
    if a == [] {
      SameBagSameElements(a, b);
    } else {
      var i := TakeHeadOut(a, b);
      ConcatMapBag(a[1..], b[..i] + b[i + 1..], f);
      ConcatMapMiddle(b[..i], b[i], b[i + 1..], f);
      assert b == b[..i] + [b[i]] + b[i + 1..];
    }
  }

  lemma {:induction false} SameBagSameElements<T>(a: seq<T>, b: seq<T>)
    requires multiset(a) == multiset(b)
    ensures |a| == |b| && forall x :: x in a <==> x in b
  {
    assert |multiset(a)| == |a| && |multiset(b)| == |b|;
    forall x
      ensures x in a <==> x in b
    {
      assert x in a <==> x in multiset(a);
      assert x in b <==> x in multiset(b);
    }
  }

  lemma {:induction false} SubsetCount<T>(a: set<T>, b: set<T>)
    requires a <= b
    ensures |a| <= |b|
  {
    assert b == a + (b - a);
  }

  predicate NoRepeats<T(==)>(s: seq<T>) {
    forall i, j :: 0 <= i < j < |s| ==> s[i] != s[j]
  }

  /** Lists without repeats over the same elements are the same bag. */
  lemma {:induction false} NoRepeatsSameBag<T>(a: seq<T>, b: seq<T>)
    requires NoRepeats(a) && NoRepeats(b) && forall x :: x in a <==> x in b
    ensures multiset(a) == multiset(b)
  {
    forall x
      ensures multiset(a)[x] == multiset(b)[x]
    {
      NoRepeatsCountsOne(a, x);
      NoRepeatsCountsOne(b, x);
    }
  }

  lemma {:induction false} NoRepeatsCountsOne<T>(s: seq<T>, x: T)
    requires NoRepeats(s)
    ensures multiset(s)[x] == if x in s then 1 else 0
  {
    if s != [] {
      NoRepeatsCountsOne(s[1..], x);
      assert s == [s[0]] + s[1..];
    }
  }
}
