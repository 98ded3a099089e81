/** The server-side snapshot history: a bounded ring, an append-only file, and the reload after a restart. */
module SnapshotStore {
  import opened Common
  import opened SnapshotModel
  import opened SnapshotRing

  /** A parser event as it reaches the store. */
  datatype StoreEvent =
    | Full(snapshot: Snapshot)
    | Change(delta: Delta)
    | Unrelated

  datatype State = State(ring: seq<Snapshot>, latest: Option<Snapshot>, file: seq<Snapshot>, appends: nat, ringMax: nat)
  {
    function Compact(): State {
      this.(file := ring, appends := 0)
    }

    function Persist(s: Snapshot): State {
      var st := this.(file := file + [s], appends := appends + 1);
      if st.appends >= ringMax then st.Compact() else st
    }

    /** When the timestamp moves on, the snapshot before it is complete and goes to the file. */
    function FinalizeIfBoundary(newTs: string): State {
      if latest.Some? && Ts(latest.value) != newTs then Persist(latest.value) else this
    }

    function Show(s: Snapshot): State {
      this.(latest := Some(s), ring := Upsert(ring, s, ringMax))
    }

    function Observe(event: StoreEvent): State {
      match event
      case Full(s) => FinalizeIfBoundary(Ts(s)).Show(s)
      case Change(delta) =>
        if latest.None? then this
        else
          var next := Reconstruct(latest.value, delta);
          FinalizeIfBoundary(Ts(next)).Show(next)
      case Unrelated => this
    }

    /** Everything handed to the store and not yet superseded: the file, then the snapshot still open. */
    function History(): seq<Snapshot> {
      file + if latest.Some? then [latest.value] else []
    }

    /** What holds between any two calls. */
    ghost predicate Inv() {
      && ring == Newest(History(), ringMax)
      && |file| <= ringMax + appends
      && (appends == 0 || appends < ringMax)
    }
  }

  /** The ring a restart reads back out of a file. */
  function LoadTail(file: seq<Snapshot>, n: nat): seq<Snapshot> {
    Newest(LastN(file, n), n)
  }

  function Boot(file: seq<Snapshot>, n: nat): State {
    State(LoadTail(file, n), None, file, 0, n).Compact()
  }

  // ---- what reaches the file ----------------------------------------------------------

  /** A snapshot is appended, except that every `ringMax`-th time the file is written anew from the ring. */
  lemma {:induction false} FiledOrRewritten(st: State, s: Snapshot)
    ensures var after := st.Persist(s);
      && after.ring == st.ring && after.latest == st.latest && after.ringMax == st.ringMax
      && (st.appends + 1 < st.ringMax ==> after.file == st.file + [s] && after.appends == st.appends + 1)
      && (st.ringMax <= st.appends + 1 ==> after.file == st.ring && after.appends == 0)
  {
  }

  /** A snapshot reaches the file when the one behind it has another timestamp, and not before. */
  lemma {:induction false} FiledWhenComplete(st: State, next: Snapshot)
    ensures var after := st.Observe(Full(next));
      && after.latest == Some(next) && after.ringMax == st.ringMax
      && (st.latest.None? || st.latest.value.reading.deviceTs == next.reading.deviceTs ==>
            after.file == st.file && after.appends == st.appends)
      && (st.latest.Some? && st.latest.value.reading.deviceTs != next.reading.deviceTs ==>
            after.file == (if st.appends + 1 < st.ringMax then st.file + [st.latest.value] else st.ring))
  {
  }

  /** A change is the full snapshot it makes of the open one; without an open one, and for other events, nothing happens. */
  lemma {:induction false} ChangeIsFull(st: State, delta: Delta)
    ensures st.Observe(Change(delta)) ==
            if st.latest.None? then st else st.Observe(Full(Reconstruct(st.latest.value, delta)))
    ensures st.Observe(Unrelated) == st
  {
  }

  // ---- what every operation keeps -----------------------------------------------------

  lemma {:induction false} BootKeepsInv(file: seq<Snapshot>, n: nat)
    ensures Boot(file, n).Inv()
  {
    var st := Boot(file, n);
    assert st.History() == st.ring;
    NewestIdempotent(LastN(file, n), n);
  }

  lemma {:induction false} PersistKeepsRing(st: State, s: Snapshot)
    requires st.Inv() && st.latest == Some(s)
    ensures var p := st.Persist(s);
            p.ring == st.ring && Newest(p.file, st.ringMax) == p.ring &&
            |p.file| <= p.ringMax + p.appends && (p.appends == 0 || p.appends < p.ringMax)
  {
    assert st.History() == st.file + [s];
    NewestIdempotent(st.History(), st.ringMax);
  }

  lemma {:induction false} ShowKeepsInv(st: State, s: Snapshot)
    requires st.Inv()
    ensures st.FinalizeIfBoundary(Ts(s)).Show(s).Inv()
  {
    var f := st.FinalizeIfBoundary(Ts(s));
    assert f.Show(s).History() == f.file + [s];
    if st.latest.Some? && Ts(st.latest.value) != Ts(s) {
      PersistKeepsRing(st, st.latest.value);
      NewestSnoc(f.file, s, f.ringMax);
    } else if st.latest.Some? {
      NewestSnoc(st.History(), s, st.ringMax);
      assert st.History() == st.file + [st.latest.value];
      NewestReplaces(st.file, st.latest.value, s, st.ringMax);
    } else {
      assert st.History() == st.file;
      NewestSnoc(st.file, s, st.ringMax);
    }
  }

  /** Ring and file agree after every event: the ring is the newest window over the file and the open snapshot. */
  lemma {:induction false} ObserveKeepsInv(st: State, event: StoreEvent)
    requires st.Inv()
    ensures st.Observe(event).Inv()
    ensures st.Observe(event).ringMax == st.ringMax
  {
    match event
    case Full(s) => ShowKeepsInv(st, s);
    case Change(delta) =>
      if st.latest.Some? {
        ShowKeepsInv(st, Reconstruct(st.latest.value, delta));
      }
    case Unrelated =>
  }

  function ObserveAll(st: State, events: seq<StoreEvent>): State {
    if events == [] then st else ObserveAll(st, events[..|events| - 1]).Observe(events[|events| - 1])
  }

  lemma {:induction false} ObserveAllConcat(st: State, a: seq<StoreEvent>, b: seq<StoreEvent>)
    ensures ObserveAll(st, a + b) == ObserveAll(ObserveAll(st, a), b)
  {
    if b == [] {
      assert a + b == a;
    } else {
      assert (a + b)[..|a + b| - 1] == a + b[..|b| - 1];
      ObserveAllConcat(st, a, b[..|b| - 1]);
    }
  }

  /** Over every run from a boot: the ring is exact, and the file never exceeds 2N - 1 lines. */
  lemma {:induction false} RunInvariant(file: seq<Snapshot>, n: nat, events: seq<StoreEvent>)
    ensures var st := ObserveAll(Boot(file, n), events);
            st.Inv() && st.ringMax == n &&
            st.ring == Newest(st.History(), n) &&
            (n == 0 ==> st.file == []) &&
            (n > 0 ==> |st.file| <= 2 * n - 1)
  {
    if events == [] {
      BootKeepsInv(file, n);
    } else {
      RunInvariant(file, n, events[..|events| - 1]);
      ObserveKeepsInv(ObserveAll(Boot(file, n), events[..|events| - 1]), events[|events| - 1]);
    }
  }

  // ---- restart ------------------------------------------------------------------------

  /** A reload never invents, reorders or skips: it is a suffix of the true newest window of the file. */
  lemma {:induction false} ReloadIsSuffix(file: seq<Snapshot>, n: nat)
    ensures var whole, back := Newest(file, n), LoadTail(file, n);
            |back| <= |whole| && back == whole[|whole| - |back|..]
    ensures LoadTail(file, n) == Dedup(LastN(file, n))
    ensures LoadTail(file, n) == LastN(Dedup(file), |LoadTail(file, n)|)
  {
    DedupNoLonger(LastN(file, n));
    if |file| > n {
      var older, tail := file[..|file| - n], file[|file| - n..];
      assert file == older + tail;
      DedupSuffix(older, tail);
    }
  }

  lemma {:induction false} DedupNoLonger(xs: seq<Snapshot>)
    ensures |Dedup(xs)| <= |xs|
    ensures |Dedup(xs)| == |xs| <==> Distinct(xs)
  {
    if xs != [] {
      var x0, x := xs[..|xs| - 1], xs[|xs| - 1];
      DedupNoLonger(x0);
      DedupDistinct(x0);
      if Ts(x) in Stamps(x0) {
        WithoutPresent(Dedup(x0), Ts(x));
      } else {
        WithoutAbsent(Dedup(x0), Ts(x));
      }
    }
  }

  /** Deduplicating a longer history leaves what deduplicating its end gives at the end. */
  lemma {:induction false} DedupSuffix(a: seq<Snapshot>, b: seq<Snapshot>)
    ensures |Dedup(b)| <= |Dedup(a + b)|
    ensures Dedup(b) == LastN(Dedup(a + b), |Dedup(b)|)
    ensures |Dedup(b)| == |Dedup(a + b)| <==> Stamps(a) <= Stamps(b)
  {
    KeepLastSuffix(a, b);
    DedupIsKeepLast(b);
    DedupIsKeepLast(a + b);
  }

  lemma {:induction false} KeepLastSuffix(a: seq<Snapshot>, b: seq<Snapshot>)
    ensures |KeepLast(b)| <= |KeepLast(a + b)|
    ensures KeepLast(b) == LastN(KeepLast(a + b), |KeepLast(b)|)
    ensures |KeepLast(b)| == |KeepLast(a + b)| <==> Stamps(a) <= Stamps(b)
  {
    if a == [] {
      assert a + b == b;
    } else {
      var rest := a[1..];
      assert (a + b)[1..] == rest + b && (a + b)[0] == a[0];
      KeepLastSuffix(rest, b);
      StampsConcat(rest, b);
      assert a == [a[0]] + rest;
      StampsConcat([a[0]], rest);
      assert [a[0]][..0] == [];
      assert Stamps([a[0]]) == {Ts(a[0])};
    }
  }

  /**
   * The reload gives back the whole newest window exactly when the last N lines repeat no timestamp, or every
   * timestamp of the file occurs among them.
   */
  lemma {:induction false} ReloadExactIff(file: seq<Snapshot>, n: nat)
    ensures LoadTail(file, n) == Newest(file, n) <==>
            Distinct(LastN(file, n)) || Stamps(file) == Stamps(LastN(file, n))
  {
    ReloadIsSuffix(file, n);
    var tail := LastN(file, n);
    DedupNoLonger(tail);
    if |file| > n {
      var older := file[..|file| - n];
      assert file == older + tail;
      DedupSuffix(older, tail);
      StampsConcat(older, tail);
    }
  }

  /** Crash at any point between calls and start again: a suffix of what the file deserves, capped at N. */
  lemma {:induction false} CrashAndReload(file: seq<Snapshot>, n: nat, events: seq<StoreEvent>)
    ensures var crashed := ObserveAll(Boot(file, n), events);
            var reborn := Boot(crashed.file, n);
            reborn.Inv() && reborn.latest == None &&
            reborn.file == reborn.ring &&
            |reborn.ring| <= |Newest(crashed.file, n)| &&
            reborn.ring == LastN(Newest(crashed.file, n), |reborn.ring|) &&
            (Distinct(LastN(crashed.file, n)) ==> reborn.ring == Newest(crashed.file, n))
  {
    var crashed := ObserveAll(Boot(file, n), events);
    BootKeepsInv(crashed.file, n);
    ReloadIsSuffix(crashed.file, n);
    ReloadExactIff(crashed.file, n);
  }

  /** A file whose last lines repeat a timestamp loses an entry on reload. */
  lemma {:induction false} ReloadCanLose(a: Snapshot, b: Snapshot)
    requires Ts(a) != Ts(b)
    ensures LoadTail([a, b, b], 2) == [b] && Newest([a, b, b], 2) == [a, b]
  {
    WithoutOne(a, Ts(b));
    WithoutOne(b, Ts(b));
    WithoutConcat([a], [b], Ts(b));
    assert [a] + [b] == [a, b];
    hide Without;
    assert Dedup([a]) == [a] && Dedup([b]) == [b];
    assert [b, b][..1] == [b] && [a, b][..1] == [a];
    assert Dedup([b, b]) == [b] && Dedup([a, b]) == [a, b];
    assert [a, b, b][..2] == [a, b];
    assert Dedup([a, b, b]) == [a, b];
    hide Dedup;
    assert LastN([a, b, b], 2) == [b, b];
  }

  // ---- the class ----------------------------------------------------------------------

  class Store {
    const ringMax: nat
    var ring: seq<Snapshot>
    var latest: Option<Snapshot>
    /** The JSONL file, one record a line. */
    var file: seq<Snapshot>
    var appendsSinceCompact: nat

    function Abs(): State
      reads this
    {
      State(ring, latest, file, appendsSinceCompact, ringMax)
    }

    constructor (existing: seq<Snapshot>, ringMax: nat)
      ensures Abs() == Boot(existing, ringMax)
      ensures Abs().Inv()
    {
      this.ringMax := ringMax;
      ring, latest, file, appendsSinceCompact := [], None, existing, 0;
      new;
      ReadTail();
      Compact();
      BootKeepsInv(existing, ringMax);
    }

    method ReadTail()
      requires ring == []
      modifies this`ring
      ensures ring == LoadTail(file, ringMax)
    {
      var tail := LastN(file, ringMax);
      for i := 0 to |tail|
        invariant ring == Dedup(tail[..i])
      {
        assert tail[..i + 1][..i] == tail[..i];
        ring := Without(ring, Ts(tail[i])) + [tail[i]];
      }
      assert tail[..|tail|] == tail;
      Evict();
    }

    method Evict()
      modifies this`ring
      ensures ring == LastN(old(ring), ringMax)
    {
      ghost var before := ring;
      while |ring| > ringMax
        invariant |ring| <= |before| && ring == before[|before| - |ring|..]
        invariant |before| <= ringMax ==> ring == before
        invariant |before| > ringMax ==> |ring| >= ringMax
        decreases |ring|
      {
        ring := ring[1..];
      }
    }

    method Insert(s: Snapshot)
      modifies this`ring
      ensures ring == Upsert(old(ring), s, ringMax)
    {
      ring := Without(ring, Ts(s)) + [s];
      Evict();
    }

    method Compact()
      modifies this`file, this`appendsSinceCompact
      ensures Abs() == old(Abs()).Compact()
    {
      var tmp: seq<Snapshot> := [];
      for i := 0 to |ring|
        invariant tmp == ring[..i]
      {
        tmp := tmp + [ring[i]];
      }
      file := tmp;
      appendsSinceCompact := 0;
    }

    method Append(s: Snapshot)
      modifies this`file, this`appendsSinceCompact
      ensures Abs() == old(Abs()).Persist(s)
    {
      file := file + [s];
      appendsSinceCompact := appendsSinceCompact + 1;
      if appendsSinceCompact >= ringMax {
        Compact();
      }
    }

    method FinalizeIfBoundary(newTs: string)
      modifies this`file, this`appendsSinceCompact
      ensures Abs() == old(Abs()).FinalizeIfBoundary(newTs)
    {
      if latest.Some? && Ts(latest.value) != newTs {
        Append(latest.value);
      }
    }

    method ApplyFull(s: Snapshot)
      modifies this
      ensures Abs() == old(Abs()).FinalizeIfBoundary(Ts(s)).Show(s)
    {
      FinalizeIfBoundary(Ts(s));
      latest := Some(s);
      Insert(s);
    }

    method ApplyChange(delta: Delta)
      modifies this
      ensures Abs() == old(Abs()).Observe(Change(delta))
    {
      if latest.None? {
        return;
      }
      var newTs := delta.deviceTs.GetOr(Ts(latest.value));
      FinalizeIfBoundary(newTs);
      var next := ApplyDelta(latest.value, delta);
      latest := Some(next);
      Insert(next);
    }

    /** One event from the stream. */
    method Observe(event: StoreEvent)
      modifies this
      ensures Abs() == old(Abs()).Observe(event)
    {
      match event
      case Full(s) => ApplyFull(s);
      case Change(delta) => ApplyChange(delta);
      case Unrelated =>
    }

    /** The newest `limit` entries, or all of them when no positive limit is given. */
    method Recent(limit: int) returns (snapshots: seq<Snapshot>)
      requires Abs().Inv()
      ensures limit > 0 ==> snapshots == LastN(Newest(Abs().History(), ringMax), limit)
      ensures limit <= 0 ==> snapshots == Newest(Abs().History(), ringMax)
    {
      snapshots := ring;
      if limit > 0 {
        snapshots := LastN(snapshots, limit);
      }
    }
  }
}
