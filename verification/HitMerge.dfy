/** Merging nearby keyword hits of a log into events. */
module HitMerge {
  import opened Common
  import opened Sorting

  datatype Severity = Critical | High | Medium
  datatype Hit = Hit(file: string, line: nat, text: string, rule: string, severity: Severity)
  datatype Event = Event(file: string, start: nat, end: nat, lines: seq<nat>, keywords: set<string>, severity: Severity)

  function Rank(s: Severity): nat {
    match s
    case Critical => 3
    case High => 2
    case Medium => 1
  }

  function ChooseSeverity(a: Severity, b: Severity): Severity {
    if Rank(a) >= Rank(b) then a else b
  }

  // ---- the order hits are taken in ----------------------------------------------------

  predicate HitLe(a: Hit, b: Hit) {
    StrLe(a.file, b.file) && (a.file == b.file ==> a.line <= b.line)
  }

  predicate SameLine(a: Hit, b: Hit) { a.file == b.file && a.line == b.line }

  lemma {:induction false} HitLeOrder()
    ensures TotalPreorder(HitLe)
    ensures forall a, b :: HitLe(a, b) && HitLe(b, a) ==> SameLine(a, b)
  {
    StrLeOrder();
    forall a, b
      ensures HitLe(a, b) || HitLe(b, a)
      ensures HitLe(a, b) && HitLe(b, a) ==> SameLine(a, b)
    {
      StrLeTotal(a.file, b.file);
    }
    forall a, b, c | HitLe(a, b) && HitLe(b, c)
      ensures HitLe(a, c)
    {
      StrLeTransitive(a.file, b.file, c.file);
      if a.file == c.file {
        StrLeAntisymmetric(a.file, b.file);
      }
    }
  }

  function InOrder(hits: seq<Hit>): seq<Hit> { SortBy(hits, HitLe) }

  ghost predicate Ordered(s: seq<Hit>) { SortedBy(s, HitLe) }

  // ---- the greedy merge as a function -------------------------------------------------

  function EndOf(block: seq<Hit>): nat
    requires block != []
  {
    if |block| == 1 then block[0].line
    else
      var before := EndOf(block[..|block| - 1]);
      if before >= block[|block| - 1].line then before else block[|block| - 1].line
  }

  function SeverityOf(block: seq<Hit>): Severity
    requires block != []
  {
    if |block| == 1 then block[0].severity
    else ChooseSeverity(SeverityOf(block[..|block| - 1]), block[|block| - 1].severity)
  }

  function LinesOf(block: seq<Hit>): seq<nat> {
    seq(|block|, i requires 0 <= i < |block| => block[i].line)
  }

  function KeywordsOf(block: seq<Hit>): set<string> {
    set h | h in block :: h.rule
  }

  function EventOf(block: seq<Hit>): Event
    requires block != []
  {
    Event(block[0].file, block[0].line, EndOf(block), LinesOf(block), KeywordsOf(block), SeverityOf(block))
  }

  predicate Joins(block: seq<Hit>, h: Hit, distance: int)
    requires block != []
  {
    h.file == block[0].file && h.line <= EndOf(block) + distance
  }

  predicate JoinsLast(blocks: seq<seq<Hit>>, h: Hit, distance: int)
    requires forall q :: 0 <= q < |blocks| ==> blocks[q] != []
  {
    blocks != [] && Joins(blocks[|blocks| - 1], h, distance)
  }

  function Grown(blocks: seq<seq<Hit>>, h: Hit, joins: bool): seq<seq<Hit>>
    requires joins ==> blocks != []
  {
    if joins then blocks[..|blocks| - 1] + [blocks[|blocks| - 1] + [h]] else blocks + [[h]]
  }

  function Blocks(s: seq<Hit>, distance: int): (r: seq<seq<Hit>>)
    ensures forall q :: 0 <= q < |r| ==> r[q] != []
    ensures s != [] ==> r != []
  {
    if s == [] then []
    else
      var r0, h := Blocks(s[..|s| - 1], distance), s[|s| - 1];
      Grown(r0, h, JoinsLast(r0, h, distance))
  }

  function EventsOf(blocks: seq<seq<Hit>>): seq<Event>
    requires forall q :: 0 <= q < |blocks| ==> blocks[q] != []
  {
    seq(|blocks|, q requires 0 <= q < |blocks| => EventOf(blocks[q]))
  }

  function Events(hits: seq<Hit>, distance: int): seq<Event> { EventsOf(Blocks(InOrder(hits), distance)) }

  // ---- the program: a list whose last event grows in place ----------------------------

  class MergedEvent {
    const file: string
    const start: nat
    var end: nat
    var lines: seq<nat>
    var keywords: set<string>
    var severity: Severity

    function Value(): Event
      reads this
    {
      Event(file, start, end, lines, keywords, severity)
    }

    constructor (h: Hit)
      ensures Value() == EventOf([h])
    {
      file, start, end, lines, severity := h.file, h.line, h.line, [h.line], h.severity;
      keywords := {h.rule};
      new;
      assert KeywordsOf([h]) == {h.rule} by { assert h in [h]; }
    }

    method Absorb(h: Hit, ghost block: seq<Hit>)
      requires block != [] && Value() == EventOf(block)
      modifies this
      ensures Value() == EventOf(block + [h])
    {
      end := if end >= h.line then end else h.line;
      lines := lines + [h.line];
      keywords := keywords + {h.rule};
      severity := ChooseSeverity(severity, h.severity);
      EventSnoc(block, h);
    }
  }

  lemma {:induction false} EventSnoc(block: seq<Hit>, h: Hit)
    requires block != []
    ensures EventOf(block + [h]) == Event(
      block[0].file, block[0].line,
      if EndOf(block) >= h.line then EndOf(block) else h.line,
      LinesOf(block) + [h.line], KeywordsOf(block) + {h.rule}, ChooseSeverity(SeverityOf(block), h.severity))
  {
    assert (block + [h])[..|block|] == block;
    assert LinesOf(block + [h]) == LinesOf(block) + [h.line];
    assert forall x :: x in block + [h] <==> x in block || x == h;
    assert KeywordsOf(block + [h]) == KeywordsOf(block) + {h.rule};
  }

  /** The list of events describes the blocks, one distinct event object per block. */
  ghost predicate Describes(merged: seq<MergedEvent>, blocks: seq<seq<Hit>>)
    reads merged
  {
    && |merged| == |blocks|
    && (forall q :: 0 <= q < |merged| ==> blocks[q] != [] && merged[q].Value() == EventOf(blocks[q]))
    && (forall p, q :: 0 <= p < q < |merged| ==> merged[p] != merged[q])
  }

  lemma {:induction false} BlocksSnoc(s: seq<Hit>, h: Hit, distance: int)
    ensures var r := Blocks(s, distance);
      Blocks(s + [h], distance) == Grown(r, h, JoinsLast(r, h, distance))
  {
    assert (s + [h])[..|s|] == s;
  }

  /** Merging one hit into the last event. */
  method Extend(merged: seq<MergedEvent>, h: Hit, ghost blocks: seq<seq<Hit>>)
    requires merged != [] && Describes(merged, blocks)
    modifies merged[|merged| - 1]
    ensures Describes(merged, Grown(blocks, h, true))
  {
    var last := merged[|merged| - 1];
    assert last.Value() == EventOf(blocks[|blocks| - 1]);
    last.Absorb(h, blocks[|blocks| - 1]);
  }

  /** A hit that starts an event of its own. */
  method Start(merged: seq<MergedEvent>, h: Hit, ghost blocks: seq<seq<Hit>>) returns (event: MergedEvent)
    requires Describes(merged, blocks)
    ensures fresh(event)
    ensures Describes(merged + [event], Grown(blocks, h, false))
  {
    event := new MergedEvent(h);
    forall q | 0 <= q < |merged| + 1
      ensures (merged + [event])[q].Value() == EventOf((blocks + [[h]])[q])
    {
    }
  }

  /** One turn of the loop: the hit joins the last event or starts one. */
  method Take(merged: seq<MergedEvent>, h: Hit, distance: int, ghost before: seq<Hit>)
    returns (r: seq<MergedEvent>)
    requires Describes(merged, Blocks(before, distance))
    modifies merged
    ensures Describes(r, Blocks(before + [h], distance))
    ensures r == merged || (|r| == |merged| + 1 && r[..|merged|] == merged && fresh(r[|merged|]))
  {
    ghost var blocks := Blocks(before, distance);
    BlocksSnoc(before, h, distance);
    if merged != [] {
      var last := merged[|merged| - 1];
      assert last.Value() == EventOf(blocks[|blocks| - 1]);
      if h.file == last.file && h.line <= last.end + distance {
        assert JoinsLast(blocks, h, distance);
        Extend(merged, h, blocks);
        return merged;
      }
    }
    assert !JoinsLast(blocks, h, distance);
    var event := Start(merged, h, blocks);
    r := merged + [event];
  }

  lemma {:induction false} NothingYet(distance: int)
    ensures Describes([], Blocks([], distance))
  {
  }

  method MergeSorted(sorted: seq<Hit>, distance: int) returns (merged: seq<MergedEvent>)
    ensures fresh(merged)
    ensures Describes(merged, Blocks(sorted, distance))
  {
    hide *;
    merged := [];
    ghost var before: seq<Hit> := [];
    NothingYet(distance);
    for i := 0 to |sorted|
      invariant fresh(merged)
      invariant before == sorted[..i]
      invariant Describes(merged, Blocks(before, distance))
    {
      var r := Take(merged, sorted[i], distance, before);
      before := before + [sorted[i]];
      assert forall k :: 0 <= k < |merged| ==> r[k] == merged[k];
      merged := r;
    }
    assert before == sorted;
  }

  method MergeHits(hits: seq<Hit>, distance: int) returns (merged: seq<MergedEvent>)
    ensures fresh(merged)
    ensures Describes(merged, Blocks(InOrder(hits), distance))
  {
    merged := MergeSorted(InOrder(hits), distance);
  }

  // ---- nothing is lost ----------------------------------------------------------------

  lemma {:induction false} FlattenGrowsLast(blocks: seq<seq<Hit>>, h: Hit)
    requires blocks != []
    ensures Flatten(blocks[..|blocks| - 1] + [blocks[|blocks| - 1] + [h]]) == Flatten(blocks) + [h]
  {
    FlattenSnoc(blocks[..|blocks| - 1], blocks[|blocks| - 1] + [h]);
  }

  lemma {:induction false} BlocksPartition(s: seq<Hit>, distance: int)
    ensures Flatten(Blocks(s, distance)) == s
  {
    if s != [] {
      var front, h := s[..|s| - 1], s[|s| - 1];
      BlocksPartition(front, distance);
      var r := Blocks(front, distance);
      assert s == front + [h];
      if r != [] && Joins(r[|r| - 1], h, distance) {
        FlattenGrowsLast(r, h);
      } else {
        FlattenSnoc(r, [h]);
      }
    }
  }

  /** Every hit ends up in exactly one event, whatever order the hits came in. */
  lemma {:induction false} EveryHitInOneEvent(hits: seq<Hit>, distance: int)
    ensures multiset(Flatten(Blocks(InOrder(hits), distance))) == multiset(hits)
  {
    BlocksPartition(InOrder(hits), distance);
  }

  // ---- events are the connected components --------------------------------------------

  /** Two hits of one file at most `distance` lines apart. */
  predicate Near(a: Hit, b: Hit, distance: int) {
    a.file == b.file && -distance <= b.line - a.line <= distance
  }

  /** A walk over positions in which each step goes between near hits. */
  ghost predicate Chain(s: seq<Hit>, path: seq<nat>, distance: int) {
    && (forall k :: 0 <= k < |path| ==> path[k] < |s|)
    && forall k :: 0 <= k < |path| - 1 ==> Near(s[path[k]], s[path[k + 1]], distance)
  }

  ghost predicate Linked(s: seq<Hit>, i: nat, j: nat, distance: int) {
    exists path: seq<nat> :: Chain(s, path, distance) && path != [] && path[0] == i && path[|path| - 1] == j
  }

  /** Position `i` of the flattened list lies in block `q`. */
  ghost predicate Lies(blocks: seq<seq<Hit>>, q: nat, i: nat) {
    q < |blocks| && |Flatten(blocks[..q])| <= i < |Flatten(blocks[..q + 1])|
  }

  lemma {:induction false} EndSnoc(block: seq<Hit>, h: Hit)
    requires block != [] && EndOf(block) <= h.line
    ensures EndOf(block + [h]) == h.line
  {
    assert (block + [h])[..|block|] == block;
  }

  /** In ordered input the last block ends with the last hit, all in its file. */
  lemma {:induction false} LastBlock(s: seq<Hit>, distance: int)
    requires s != [] && Ordered(s)
    ensures var r := Blocks(s, distance); var b := r[|r| - 1];
      && b[|b| - 1] == s[|s| - 1]
      && EndOf(b) == s[|s| - 1].line
      && b[0].file == s[|s| - 1].file
  {
    var front, h := s[..|s| - 1], s[|s| - 1];
    if front != [] {
      LastBlock(front, distance);
      assert HitLe(front[|front| - 1], h);
      var r0 := Blocks(front, distance);
      if Joins(r0[|r0| - 1], h, distance) {
        EndSnoc(r0[|r0| - 1], h);
      }
    }
  }

  /** A hit joins the last block exactly when it is near the hit before it. */
  lemma {:induction false} JoinsIffNear(s: seq<Hit>, h: Hit, distance: int)
    requires s != [] && Ordered(s + [h])
    ensures Ordered(s)
    ensures var r := Blocks(s, distance);
      Joins(r[|r| - 1], h, distance) <==> Near(s[|s| - 1], h, distance)
  {
    assert forall i :: 0 <= i < |s| ==> (s + [h])[i] == s[i];
    assert HitLe((s + [h])[|s| - 1], (s + [h])[|s|]);
    LastBlock(s, distance);
  }

  /** The number of the block position `i` is in. */
  ghost function BlockIndex(s: seq<Hit>, distance: int, i: nat): nat
    requires i < |s|
  {
    |Blocks(s[..i + 1], distance)| - 1
  }

  lemma {:induction false} StepIndex(s: seq<Hit>, distance: int, i: nat)
    requires Ordered(s) && i + 1 < |s|
    ensures BlockIndex(s, distance, i + 1) ==
      BlockIndex(s, distance, i) + if Near(s[i], s[i + 1], distance) then 0 else 1
  {
    var front := s[..i + 1];
    assert s[..i + 2] == front + [s[i + 1]] && s[..i + 2][..i + 1] == front;
    JoinsIffNear(front, s[i + 1], distance);
  }

  /** Between two hits in one block every step is near, and conversely. */
  lemma {:induction false} SameIndexIff(s: seq<Hit>, distance: int, i: nat, j: nat)
    requires Ordered(s) && i <= j < |s|
    ensures BlockIndex(s, distance, i) <= BlockIndex(s, distance, j)
    ensures BlockIndex(s, distance, i) == BlockIndex(s, distance, j) <==>
      forall k :: i <= k < j ==> Near(s[k], s[k + 1], distance)
    decreases j - i
  {
    hide *;
    if i < j {
      SameIndexIff(s, distance, i, j - 1);
      StepIndex(s, distance, j - 1);
    }
  }

  /** Two near hits have only near steps between them. */
  lemma {:induction false} NearAcross(s: seq<Hit>, distance: int, i: nat, j: nat, k: nat)
    requires Ordered(s) && i <= k < j < |s| && Near(s[i], s[j], distance)
    ensures Near(s[k], s[k + 1], distance)
  {
    FilesAreContiguous(s, i, k, j);
    FilesAreContiguous(s, i, k + 1, j);
    assert HitLe(s[k], s[k + 1]);
    assert i < k ==> HitLe(s[i], s[k]);
    assert k + 1 < j ==> HitLe(s[k + 1], s[j]);
  }

  lemma {:induction false} FilesAreContiguous(s: seq<Hit>, i: nat, k: nat, j: nat)
    requires Ordered(s) && i <= k <= j < |s| && s[i].file == s[j].file
    ensures s[k].file == s[i].file
  {
    if i < k < j {
      assert HitLe(s[i], s[k]) && HitLe(s[k], s[j]);
      StrLeAntisymmetric(s[i].file, s[k].file);
    }
  }

  lemma {:induction false} NearSameIndex(s: seq<Hit>, distance: int, i: nat, j: nat)
    requires Ordered(s) && i < |s| && j < |s| && Near(s[i], s[j], distance)
    ensures BlockIndex(s, distance, i) == BlockIndex(s, distance, j)
  {
    var lo, hi := if i <= j then i else j, if i <= j then j else i;
    forall k | lo <= k < hi
      ensures Near(s[k], s[k + 1], distance)
    {
      NearAcross(s, distance, lo, hi, k);
    }
    SameIndexIff(s, distance, lo, hi);
  }

  lemma {:induction false} ChainSameIndex(s: seq<Hit>, distance: int, path: seq<nat>)
    requires Ordered(s) && path != [] && Chain(s, path, distance)
    ensures BlockIndex(s, distance, path[0]) == BlockIndex(s, distance, path[|path| - 1])
    decreases |path|
  {
    if |path| > 1 {
      var front := path[..|path| - 1];
      forall k | 0 <= k < |front| - 1
        ensures Near(s[front[k]], s[front[k + 1]], distance)
      {
        assert Near(s[path[k]], s[path[k + 1]], distance);
      }
      ChainSameIndex(s, distance, front);
      assert Near(s[path[|path| - 2]], s[path[|path| - 2 + 1]], distance);
      NearSameIndex(s, distance, path[|path| - 2], path[|path| - 1]);
    }
  }

  lemma {:induction false} SameIndexLinked(s: seq<Hit>, distance: int, i: nat, j: nat)
    requires Ordered(s) && i < |s| && j < |s|
    requires BlockIndex(s, distance, i) == BlockIndex(s, distance, j)
    ensures Linked(s, i, j, distance)
  {
    if i <= j {
      SameIndexIff(s, distance, i, j);
      var path := seq(j - i + 1, k requires 0 <= k < j - i + 1 => i + k);
      assert Chain(s, path, distance) && path[0] == i && path[|path| - 1] == j;
    } else {
      SameIndexIff(s, distance, j, i);
      var path: seq<nat> := seq(i - j + 1, k requires 0 <= k < i - j + 1 => i - k);
      forall k | 0 <= k < |path| - 1
        ensures Near(s[path[k]], s[path[k + 1]], distance)
      {
        assert Near(s[i - k - 1], s[i - k - 1 + 1], distance);
      }
      assert Chain(s, path, distance) && path[0] == i && path[|path| - 1] == j;
    }
  }

  lemma {:induction false} LastLies(s: seq<Hit>, distance: int)
    requires s != []
    ensures Lies(Blocks(s, distance), |Blocks(s, distance)| - 1, |s| - 1)
  {
    var r := Blocks(s, distance);
    BlocksPartition(s, distance);
    assert r[..|r|] == r;
    assert Flatten(r) == Flatten(r[..|r| - 1]) + r[|r| - 1];
  }

  /** The block number of a position is the block it really lies in. */
  lemma {:induction false} LiesInItsBlock(s: seq<Hit>, distance: int, i: nat)
    requires i < |s|
    ensures Lies(Blocks(s, distance), BlockIndex(s, distance, i), i)
  {
    if i == |s| - 1 {
      assert s[..i + 1] == s;
      LastLies(s, distance);
    } else {
      var front := s[..|s| - 1];
      LiesInItsBlock(front, distance, i);
      assert front[..i + 1] == s[..i + 1];
      LiesStill(Blocks(front, distance), Blocks(s, distance), s[|s| - 1], BlockIndex(s, distance, i), i);
    }
  }

  lemma {:induction false} LiesStill(r0: seq<seq<Hit>>, r: seq<seq<Hit>>, h: Hit, q: nat, i: nat)
    requires Lies(r0, q, i)
    requires r == r0 + [[h]] || (r0 != [] && r == r0[..|r0| - 1] + [r0[|r0| - 1] + [h]])
    ensures Lies(r, q, i)
  {
    assert r[..q] == r0[..q];
    assert r[..q + 1][..q] == r[..q] && r0[..q + 1][..q] == r0[..q];
  }

  lemma {:induction false} FlattenGrows(blocks: seq<seq<Hit>>, p: nat, q: nat)
    requires p <= q <= |blocks|
    ensures |Flatten(blocks[..p])| <= |Flatten(blocks[..q])|
    decreases q - p
  {
    if p < q {
      assert blocks[..q][..q - 1] == blocks[..q - 1];
      FlattenGrows(blocks, p, q - 1);
    }
  }

  lemma {:induction false} LiesInOne(blocks: seq<seq<Hit>>, p: nat, q: nat, i: nat)
    requires Lies(blocks, p, i) && Lies(blocks, q, i)
    ensures p == q
  {
    if p < q {
      FlattenGrows(blocks, p + 1, q);
    } else if q < p {
      FlattenGrows(blocks, q + 1, p);
    }
  }

  /** Two hits share an event exactly when a chain of near hits links them; events come in order. */
  lemma {:induction false} EventsAreComponents(hits: seq<Hit>, distance: int, i: nat, j: nat, p: nat, q: nat)
    requires i < |hits| && j < |hits|
    requires Lies(Blocks(InOrder(hits), distance), p, i) && Lies(Blocks(InOrder(hits), distance), q, j)
    ensures p == q <==> Linked(InOrder(hits), i, j, distance)
    ensures i <= j ==> p <= q
  {
    var s := InOrder(hits);
    HitLeOrder();
    SortBySorted(hits, HitLe);
    LiesInItsBlock(s, distance, i);
    LiesInItsBlock(s, distance, j);
    LiesInOne(Blocks(s, distance), p, BlockIndex(s, distance, i), i);
    LiesInOne(Blocks(s, distance), q, BlockIndex(s, distance, j), j);
    if i <= j {
      SameIndexIff(s, distance, i, j);
    }
    if p == q {
      SameIndexLinked(s, distance, i, j);
    }
    if Linked(s, i, j, distance) {
      var path: seq<nat> :| Chain(s, path, distance) && path != [] && path[0] == i && path[|path| - 1] == j;
      ChainSameIndex(s, distance, path);
    }
  }

  // ---- what an event says about its hits ----------------------------------------------

  lemma {:induction false} SeverityIsMaximum(block: seq<Hit>)
    requires block != []
    ensures forall h :: h in block ==> Rank(h.severity) <= Rank(SeverityOf(block))
    ensures exists h :: h in block && h.severity == SeverityOf(block)
  {
    var front, last := block[..|block| - 1], block[|block| - 1];
    assert last in block;
    if front != [] {
      SeverityIsMaximum(front);
      var a :| a in front && a.severity == SeverityOf(front);
      assert a in block;
      assert forall h :: h in block ==> h in front || h == last;
    }
  }

  lemma {:induction false} EndIsMaximum(block: seq<Hit>)
    requires block != []
    ensures forall h :: h in block ==> h.line <= EndOf(block)
    ensures exists h :: h in block && h.line == EndOf(block)
  {
    var front, last := block[..|block| - 1], block[|block| - 1];
    assert last in block;
    if front != [] {
      EndIsMaximum(front);
      var a :| a in front && a.line == EndOf(front);
      assert a in block;
      assert forall h :: h in block ==> h in front || h == last;
    }
  }

  /** The severities from the least: one critical hit makes an event critical, and only medium hits leave it medium. */
  lemma {:induction false} SeverityReads(block: seq<Hit>)
    requires block != []
    ensures SeverityOf(block) == Critical <==> exists h :: h in block && h.severity == Critical
    ensures SeverityOf(block) == Medium <==> forall h :: h in block ==> h.severity == Medium
  {
    SeverityIsMaximum(block);
  }

  /** Severity and end are the greatest of the event's hits, and some hit has them; the keywords are the hits'. */
  lemma {:induction false} EventIsMaximum(block: seq<Hit>)
    requires block != []
    ensures EventOf(block).severity == Critical <==> exists h :: h in block && h.severity == Critical
    ensures EventOf(block).severity == High <==>
      (exists h :: h in block && h.severity == High) && forall h :: h in block ==> h.severity != Critical
    ensures EventOf(block).severity == Medium <==> forall h :: h in block ==> h.severity == Medium
    ensures forall h :: h in block ==> h.line <= EventOf(block).end
    ensures exists h :: h in block && h.line == EventOf(block).end
    ensures forall k :: k in EventOf(block).keywords <==> exists h :: h in block && h.rule == k
  {
    SeverityIsMaximum(block);
    SeverityReads(block);
    EndIsMaximum(block);
  }

  /** An event starts with its first hit, and lists the line of every hit in the order they were merged. */
  lemma {:induction false} EventListsItsHits(block: seq<Hit>)
    requires block != []
    ensures var e := EventOf(block);
      && e.file == block[0].file && e.start == block[0].line
      && |e.lines| == |block| && forall i :: 0 <= i < |block| ==> e.lines[i] == block[i].line
  {
  }

  /** All of a block is in one file, from its first line to its last. */
  ghost predicate Span(block: seq<Hit>) {
    && block != []
    && forall h :: h in block ==> h.file == block[0].file && block[0].line <= h.line <= EndOf(block)
  }

  /** A later block is in a later file, or starts more than the distance after the earlier one ends. */
  ghost predicate Apart(a: seq<Hit>, b: seq<Hit>, distance: int) {
    && a != [] && b != []
    && StrLe(a[0].file, b[0].file)
    && (a[0].file == b[0].file ==> b[0].line > EndOf(a) + distance && b[0].line >= EndOf(a))
  }

  ghost predicate AllSpans(blocks: seq<seq<Hit>>) {
    forall q :: 0 <= q < |blocks| ==> Span(blocks[q])
  }

  ghost predicate AllApart(blocks: seq<seq<Hit>>, distance: int) {
    forall p, q :: 0 <= p < q < |blocks| ==> Apart(blocks[p], blocks[q], distance)
  }

  lemma {:induction false} SpanSnoc(front: seq<Hit>, h: Hit, distance: int)
    requires front != [] && Ordered(front + [h])
    requires var r := Blocks(front, distance); Span(r[|r| - 1]) && Joins(r[|r| - 1], h, distance)
    ensures var r := Blocks(front, distance); Span(r[|r| - 1] + [h])
  {
    JoinsIffNear(front, h, distance);
    LastBlock(front, distance);
    var r := Blocks(front, distance);
    var block := r[|r| - 1];
    assert HitLe((front + [h])[|front| - 1], (front + [h])[|front|]);
    assert (block + [h])[..|block|] == block;
    assert block[0] in block;
    assert forall x :: x in block + [h] <==> x in block || x == h;
  }

  lemma {:induction false} ApartFromNew(front: seq<Hit>, h: Hit, distance: int, p: nat)
    requires front != [] && Ordered(front + [h]) && p < |Blocks(front, distance)|
    requires var r := Blocks(front, distance);
      && Span(r[|r| - 1]) && !Joins(r[|r| - 1], h, distance)
      && (p < |r| - 1 ==> Apart(r[p], r[|r| - 1], distance))
    ensures Apart(Blocks(front, distance)[p], [h], distance)
  {
    JoinsIffNear(front, h, distance);
    LastBlock(front, distance);
    assert HitLe((front + [h])[|front| - 1], (front + [h])[|front|]);
    var r := Blocks(front, distance);
    var a: seq<Hit>, last: seq<Hit> := r[p], r[|r| - 1];
    assert last[|last| - 1] in last;
    if p < |r| - 1 {
      StrLeTransitive(a[0].file, last[0].file, h.file);
      if a[0].file == h.file {
        StrLeAntisymmetric(a[0].file, last[0].file);
      }
    }
  }

  lemma {:induction false} ApartGrow(r: seq<seq<Hit>>, h: Hit, distance: int)
    requires r != [] && AllApart(r, distance)
    ensures AllApart(r[..|r| - 1] + [r[|r| - 1] + [h]], distance)
  {
    forall p | 0 <= p < |r| - 1
      ensures Apart(r[p], r[|r| - 1] + [h], distance)
    {
      assert Apart(r[p], r[|r| - 1], distance);
    }
  }

  lemma {:induction false} BlocksAreSpans(s: seq<Hit>, distance: int)
    requires Ordered(s)
    ensures AllSpans(Blocks(s, distance)) && AllApart(Blocks(s, distance), distance)
  {
    if s != [] {
      var front, h := s[..|s| - 1], s[|s| - 1];
      BlocksAreSpans(front, distance);
      assert front + [h] == s;
      BlocksSnoc(front, h, distance);
      if JoinsLast(Blocks(front, distance), h, distance) {
        WiderSpan(front, h, distance);
      } else {
        NewSpan(front, h, distance);
      }
    }
  }

  lemma {:induction false} WiderSpan(front: seq<Hit>, h: Hit, distance: int)
    requires Ordered(front + [h])
    requires AllSpans(Blocks(front, distance)) && AllApart(Blocks(front, distance), distance)
    requires JoinsLast(Blocks(front, distance), h, distance)
    ensures AllSpans(Grown(Blocks(front, distance), h, true)) && AllApart(Grown(Blocks(front, distance), h, true), distance)
  {
    var r := Blocks(front, distance);
    assert front != [];
    SpanSnoc(front, h, distance);
    ApartGrow(r, h, distance);
  }

  lemma {:induction false} NewSpan(front: seq<Hit>, h: Hit, distance: int)
    requires Ordered(front + [h])
    requires AllSpans(Blocks(front, distance)) && AllApart(Blocks(front, distance), distance)
    requires !JoinsLast(Blocks(front, distance), h, distance)
    ensures AllSpans(Grown(Blocks(front, distance), h, false)) && AllApart(Grown(Blocks(front, distance), h, false), distance)
  {
    var r := Blocks(front, distance);
    forall p | 0 <= p < |r|
      ensures Apart(r[p], [h], distance)
    {
      assert front != [];
      ApartFromNew(front, h, distance, p);
    }
  }

  /** Events come file by file, and in one file each starts more than the distance after the one before ended. */
  lemma {:induction false} EventsAreApart(hits: seq<Hit>, distance: int, p: nat, q: nat)
    requires p < q < |Events(hits, distance)|
    ensures var e := Events(hits, distance);
      && StrLe(e[p].file, e[q].file)
      && (e[p].file == e[q].file ==> e[q].start > e[p].end + distance && e[q].start >= e[p].end)
  {
    HitLeOrder();
    SortBySorted(hits, HitLe);
    BlocksAreSpans(InOrder(hits), distance);
    var blocks := Blocks(InOrder(hits), distance);
    assert Apart(blocks[p], blocks[q], distance);
  }
}
