/** Merging hits forgets the order the scan found them in, exactly when the distance is not negative. */
module HitOrder {
  import opened Common
  import opened Sorting
  import opened HitMerge

  // ---- the order the hits are found in ------------------------------------------------

  datatype Place = Place(file: string, line: nat)

  predicate PlaceLe(a: Place, b: Place) {
    StrLe(a.file, b.file) && (a.file == b.file ==> a.line <= b.line)
  }

  function PlaceOf(): Hit -> seq<Place> { (h: Hit) => [Place(h.file, h.line)] }

  lemma {:induction false} PlaceLeOrder()
    ensures TotalPreorder(PlaceLe) && Antisymmetric(PlaceLe)
  {
    forall a, b
      ensures PlaceLe(a, b) || PlaceLe(b, a)
      ensures PlaceLe(a, b) && PlaceLe(b, a) ==> a == b
    {
      StrLeTotal(a.file, b.file);
      if PlaceLe(a, b) && PlaceLe(b, a) {
        StrLeAntisymmetric(a.file, b.file);
      }
    }
    forall a, b, c | PlaceLe(a, b) && PlaceLe(b, c)
      ensures PlaceLe(a, c)
    {
      StrLeTransitive(a.file, b.file, c.file);
      if a.file == c.file {
        StrLeAntisymmetric(a.file, b.file);
      }
    }
  }

  lemma {:induction false} PlacesAt(s: seq<Hit>)
    ensures |ConcatMap(s, PlaceOf())| == |s|
    ensures forall i :: 0 <= i < |s| ==> ConcatMap(s, PlaceOf())[i] == Place(s[i].file, s[i].line)
  {
    if s != [] {
      PlacesAt(s[1..]);
    }
  }

  /** Two lists of hits that agree on where each hit is. */
  ghost predicate Alike(a: seq<Hit>, b: seq<Hit>) {
    |a| == |b| && forall i :: 0 <= i < |a| ==> SameLine(a[i], b[i])
  }

  lemma {:induction false} OrderedAlike(s: seq<Hit>, t: seq<Hit>)
    requires Ordered(s) && Ordered(t) && multiset(s) == multiset(t)
    ensures Alike(s, t)
  {
    PlacesAt(s);
    PlacesAt(t);
    ConcatMapBag(s, t, PlaceOf());
    PlaceLeOrder();
    var ps, pt := ConcatMap(s, PlaceOf()), ConcatMap(t, PlaceOf());
    PlacesSorted(s);
    PlacesSorted(t);
    SortedUnique(ps, pt, PlaceLe);
    forall i | 0 <= i < |s|
      ensures SameLine(s[i], t[i])
    {
      assert ps[i] == pt[i];
    }
  }

  lemma {:induction false} PlacesSorted(s: seq<Hit>)
    requires Ordered(s)
    ensures SortedBy(ConcatMap(s, PlaceOf()), PlaceLe)
  {
    PlacesAt(s);
    var ps := ConcatMap(s, PlaceOf());
    forall i, j | 0 <= i < j < |ps|
      ensures PlaceLe(ps[i], ps[j])
    {
      assert HitLe(s[i], s[j]);
    }
  }

  ghost predicate SameShape(x: seq<seq<Hit>>, y: seq<seq<Hit>>) {
    |x| == |y| && forall q :: 0 <= q < |x| ==> Alike(x[q], y[q])
  }

  lemma {:induction false} EndAlike(a: seq<Hit>, b: seq<Hit>)
    requires a != [] && Alike(a, b)
    ensures EndOf(a) == EndOf(b)
  {
    if |a| > 1 {
      EndAlike(a[..|a| - 1], b[..|b| - 1]);
    }
    assert SameLine(a[|a| - 1], b[|b| - 1]);
  }

  lemma {:induction false} ShapeGrows(x: seq<seq<Hit>>, y: seq<seq<Hit>>, g: Hit, h: Hit, joins: bool)
    requires SameShape(x, y) && SameLine(g, h) && (joins ==> x != [])
    ensures SameShape(Grown(x, g, joins), Grown(y, h, joins))
  {
    if joins {
      assert Alike(x[|x| - 1], y[|y| - 1]);
      assert Alike(x[|x| - 1] + [g], y[|y| - 1] + [h]);
    } else {
      assert Alike([g], [h]);
    }
  }

  /** Where the cuts fall depends on the places alone. */
  lemma {:induction false} ShapesAgree(s: seq<Hit>, t: seq<Hit>, distance: int)
    requires Alike(s, t)
    ensures SameShape(Blocks(s, distance), Blocks(t, distance))
  {
    if s != [] {
      var s0, t0, g, h := s[..|s| - 1], t[..|t| - 1], s[|s| - 1], t[|t| - 1];
      ShapesAgree(s0, t0, distance);
      assert SameLine(g, h);
      assert s == s0 + [g] && t == t0 + [h];
      BlocksSnoc(s0, g, distance);
      BlocksSnoc(t0, h, distance);
      var x, y := Blocks(s0, distance), Blocks(t0, distance);
      if x != [] {
        JoinsAlike(x[|x| - 1], y[|y| - 1], g, h, distance);
      }
      ShapeGrows(x, y, g, h, JoinsLast(x, g, distance));
    }
  }

  lemma {:induction false} JoinsAlike(a: seq<Hit>, b: seq<Hit>, g: Hit, h: Hit, distance: int)
    requires a != [] && Alike(a, b) && SameLine(g, h)
    ensures Joins(a, g, distance) <==> Joins(b, h, distance)
  {
    EndAlike(a, b);
    assert SameLine(a[0], b[0]);
  }

  /** A line's hits are never spread over two events, if lines at distance 0 merge at all. */
  lemma {:induction false} NotElsewhere(blocks: seq<seq<Hit>>, distance: int, q: nat, y: Hit, x: Hit)
    requires distance >= 0 && AllSpans(blocks) && AllApart(blocks, distance)
    requires q < |blocks| && y in blocks[q] && SameLine(x, y)
    ensures forall p :: 0 <= p < |blocks| && p != q ==> x !in blocks[p]
  {
    assert Span(blocks[q]);
    forall p, z | 0 <= p < |blocks| && p != q && z in blocks[p]
      ensures !SameLine(z, y)
    {
      assert Span(blocks[p]);
      if p < q {
        assert Apart(blocks[p], blocks[q], distance);
      } else {
        assert Apart(blocks[q], blocks[p], distance);
      }
    }
  }

  lemma {:induction false} CountInFlatten(blocks: seq<seq<Hit>>, x: Hit)
    ensures (forall p :: 0 <= p < |blocks| ==> x !in blocks[p]) ==> multiset(Flatten(blocks))[x] == 0
    ensures forall q :: 0 <= q < |blocks| && (forall p :: 0 <= p < |blocks| && p != q ==> x !in blocks[p]) ==>
      multiset(Flatten(blocks))[x] == multiset(blocks[q])[x]
  {
    if blocks != [] {
      var front, last := blocks[..|blocks| - 1], blocks[|blocks| - 1];
      CountInFlatten(front, x);
      assert Flatten(blocks) == Flatten(front) + last;
      forall q | 0 <= q < |blocks| && (forall p :: 0 <= p < |blocks| && p != q ==> x !in blocks[p])
        ensures multiset(Flatten(blocks))[x] == multiset(blocks[q])[x]
      {
        assert forall p :: 0 <= p < |front| && p != q ==> x !in front[p];
        if q < |front| {
          assert x !in blocks[|blocks| - 1];
          assert multiset(last)[x] == 0;
        } else {
          assert multiset(Flatten(front))[x] == 0;
        }
      }
    }
  }

  /** An event takes all hits on the lines it covers. */
  lemma {:induction false} BlockTakesWholeLines(s: seq<Hit>, distance: int, q: nat, x: Hit)
    requires Ordered(s) && distance >= 0 && q < |Blocks(s, distance)|
    ensures multiset(Blocks(s, distance)[q])[x] ==
      if exists y :: y in Blocks(s, distance)[q] && SameLine(x, y) then multiset(s)[x] else 0
  {
    var blocks := Blocks(s, distance);
    if y :| y in blocks[q] && SameLine(x, y) {
      BlocksAreSpans(s, distance);
      NotElsewhere(blocks, distance, q, y, x);
      CountInFlatten(blocks, x);
      BlocksPartition(s, distance);
    } else {
      assert SameLine(x, x);
    }
  }

  lemma {:induction false} BagsAgree(s: seq<Hit>, t: seq<Hit>, distance: int, q: nat)
    requires Ordered(s) && Ordered(t) && distance >= 0 && multiset(s) == multiset(t)
    requires SameShape(Blocks(s, distance), Blocks(t, distance)) && q < |Blocks(s, distance)|
    ensures multiset(Blocks(s, distance)[q]) == multiset(Blocks(t, distance)[q])
  {
    var a, b := Blocks(s, distance)[q], Blocks(t, distance)[q];
    assert Alike(a, b);
    forall x
      ensures multiset(a)[x] == multiset(b)[x]
    {
      BlockTakesWholeLines(s, distance, q, x);
      BlockTakesWholeLines(t, distance, q, x);
      AlikeLines(a, b, x);
      AlikeLines(b, a, x);
    }
  }

  lemma {:induction false} AlikeLines(a: seq<Hit>, b: seq<Hit>, x: Hit)
    requires Alike(a, b)
    ensures (exists y :: y in a && SameLine(x, y)) ==> (exists y :: y in b && SameLine(x, y))
  {
    if y :| y in a && SameLine(x, y) {
      var i :| 0 <= i < |a| && a[i] == y;
      assert SameLine(a[i], b[i]) && b[i] in b;
    }
  }

  lemma {:induction false} SeverityForgetsOrder(a: seq<Hit>, b: seq<Hit>)
    requires a != [] && b != [] && forall h :: h in a <==> h in b
    ensures SeverityOf(a) == SeverityOf(b)
  {
    EventIsMaximum(a);
    EventIsMaximum(b);
    var h :| h in a && h.severity == EventOf(a).severity;
    var g :| g in b && g.severity == EventOf(b).severity;
    assert Rank(h.severity) <= Rank(g.severity) <= Rank(h.severity);
  }

  /** An event depends on the places of its hits in order, and on the bag of its hits. */
  lemma {:induction false} EventForgetsTies(a: seq<Hit>, b: seq<Hit>)
    requires a != [] && Alike(a, b) && multiset(a) == multiset(b)
    ensures EventOf(a) == EventOf(b)
  {
    EndAlike(a, b);
    SameBagSameElements(a, b);
    SeverityForgetsOrder(a, b);
    assert SameLine(a[0], b[0]);
    assert forall i :: 0 <= i < |a| ==> SameLine(a[i], b[i]);
    assert LinesOf(a) == LinesOf(b);
    assert KeywordsOf(a) == KeywordsOf(b);
  }

  /** The order hits are found in does not matter when the distance is not negative. */
  lemma {:induction false} MergeForgetsOrder(a: seq<Hit>, b: seq<Hit>, distance: int)
    requires distance >= 0 && multiset(a) == multiset(b)
    ensures Events(a, distance) == Events(b, distance)
  {
    HitLeOrder();
    SortBySorted(a, HitLe);
    SortBySorted(b, HitLe);
    var s, t := InOrder(a), InOrder(b);
    OrderedAlike(s, t);
    ShapesAgree(s, t, distance);
    forall q | 0 <= q < |Blocks(s, distance)|
      ensures EventOf(Blocks(s, distance)[q]) == EventOf(Blocks(t, distance)[q])
    {
      BagsAgree(s, t, distance, q);
      EventForgetsTies(Blocks(s, distance)[q], Blocks(t, distance)[q]);
    }
  }

  /** With a negative distance even two hits on one line stay apart, in the order they were found. */
  lemma {:induction false} NegativeDistanceRemembersOrder(distance: int, g: Hit, h: Hit)
    requires distance < 0 && SameLine(g, h)
    ensures Events([g, h], distance) == [EventOf([g]), EventOf([h])]
  {
    assert StrLe(g.file, h.file) by { StrLeTotal(g.file, h.file); }
    assert [g, h][..1] == [g] && [g][..0] == [];
    assert SortBy([g], HitLe) == [g];
    assert InOrder([g, h]) == [g, h];
    BlocksSnoc([], g, distance);
    BlocksSnoc([g], h, distance);
    assert [] + [g] == [g] && [g] + [h] == [g, h];
  }

  lemma {:induction false} OrderMattersBelowZero(distance: int, g: Hit, h: Hit)
    requires distance < 0 && SameLine(g, h) && g.severity != h.severity
    ensures Events([g, h], distance) != Events([h, g], distance)
  {
    NegativeDistanceRemembersOrder(distance, g, h);
    NegativeDistanceRemembersOrder(distance, h, g);
    assert EventOf([g]).severity != EventOf([h]).severity;
    assert [EventOf([g]), EventOf([h])][0] != [EventOf([h]), EventOf([g])][0];
  }

  ghost predicate OrderForgotten(distance: int) {
    forall a: seq<Hit>, b: seq<Hit> :: multiset(a) == multiset(b) ==> Events(a, distance) == Events(b, distance)
  }

  lemma {:induction false} OrderRemembered(distance: int)
    requires distance < 0
    ensures !OrderForgotten(distance)
  {
    var g: Hit := Hit([], 0, [], [], Medium);
    var h: Hit := g.(severity := Critical);
    var a, b := [g, h], [h, g];
    assert multiset(a) == multiset(b);
    assert Events(a, distance) != Events(b, distance) by {
      OrderMattersBelowZero(distance, g, h);
    }
  }

  lemma {:induction false} OrderForgottenIff(distance: int)
    ensures OrderForgotten(distance) <==> distance >= 0
  {
    if distance >= 0 {
      forall a: seq<Hit>, b: seq<Hit> | multiset(a) == multiset(b)
        ensures Events(a, distance) == Events(b, distance)
      {
        MergeForgetsOrder(a, b, distance);
      }
    } else {
      OrderRemembered(distance);
    }
  }
}
