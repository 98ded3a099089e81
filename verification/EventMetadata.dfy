/** Metadata of an event: what the matching line nearest to its center says. */
module EventMetadata {
  import opened Common

  /** The value the first matching pattern takes from a line, stripped; `None` when no pattern matches. */
  type Matcher = string -> Option<string>

  function Distance(i: int, center: int): nat { if i >= center then i - center else center - i }

  predicate Closer(i: int, j: int, center: int) {
    Distance(i, center) < Distance(j, center) || (Distance(i, center) == Distance(j, center) && i <= j)
  }

  predicate InRadius(lines: seq<string>, center: int, radius: int, i: int) {
    0 <= i < |lines| && center - radius <= i <= center + radius
  }

  /** Line `i` is the match closest to the center, the earlier of two equally close ones. */
  ghost predicate Nearest(matcher: Matcher, lines: seq<string>, center: int, radius: int, i: int) {
    && InRadius(lines, center, radius, i) && matcher(lines[i]).Some?
    && forall j :: InRadius(lines, center, radius, j) && matcher(lines[j]).Some? ==> Closer(i, j, center)
  }

  /**
    * In plain numbers: the match at `i`, `d` lines from the center, is the nearest when no match within the radius lies
    * strictly between the lines `d` before and `d` after the center, nor on the one before if `i` is the one after.
    */
  lemma {:induction false} NearestIff(matcher: Matcher, lines: seq<string>, center: int, radius: int, i: int, d: nat)
    requires i == center - d || i == center + d
    ensures Nearest(matcher, lines, center, radius, i) <==>
      && 0 <= i < |lines| && d <= radius && matcher(lines[i]).Some?
      && forall j :: 0 <= j < |lines| && -radius <= j - center <= radius && matcher(lines[j]).Some? ==>
           (j <= center - d || j >= center + d) && (j == center - d ==> i == j)
    ensures Nearest(matcher, lines, center, radius, i) && i == center + d && 0 < d <= center && center - d < |lines| ==>
      matcher(lines[center - d]).None?
  {
  }

  method NearestMatchValue(matcher: Matcher, lines: seq<string>, center: int, radius: int) returns (best: string)
    ensures (exists i :: Nearest(matcher, lines, center, radius, i) && matcher(lines[i]) == Some(best))
      || (best == "" && forall i :: InRadius(lines, center, radius, i) ==> matcher(lines[i]).None?)
  {
    best := "";
    var bestDistance := radius + 1;
    ghost var at := -1;
    var lo := if center - radius > 0 then center - radius else 0;
    var hi := if center + radius < |lines| - 1 then center + radius else |lines| - 1;
    var i := lo;
    while i <= hi
      invariant lo <= i && (i <= hi + 1 || i == lo)
      invariant at == -1 ==>
        (best == "" && bestDistance == radius + 1
         && forall j :: lo <= j < i && j <= hi ==> matcher(lines[j]).None?)
      invariant at != -1 ==>
        (lo <= at < i && at <= hi && matcher(lines[at]) == Some(best)
         && bestDistance == Distance(at, center)
         && forall j :: lo <= j < i && j <= hi && matcher(lines[j]).Some? ==> Closer(at, j, center))
      decreases hi - i
    {
      var distance := Distance(i, center);
      if distance <= bestDistance && matcher(lines[i]).Some? && distance < bestDistance {
        best, bestDistance := matcher(lines[i]).value, distance;
        at := i;
      }
      i := i + 1;
    }
    if at != -1 {
      assert Nearest(matcher, lines, center, radius, at);
    }
  }
}
