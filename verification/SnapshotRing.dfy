/** Histories keyed by `device_ts`: the simple thing the store's ring and file have to agree with. */
module SnapshotRing {
  import opened Common
  import opened SnapshotModel

  function Ts(s: Snapshot): string { s.reading.deviceTs }

  /** The timestamps a history mentions. */
  function Stamps(xs: seq<Snapshot>): set<string> {
    if xs == [] then {} else Stamps(xs[..|xs| - 1]) + {Ts(xs[|xs| - 1])}
  }

  predicate Distinct(xs: seq<Snapshot>) {
    xs != [] ==> Distinct(xs[..|xs| - 1]) && Ts(xs[|xs| - 1]) !in Stamps(xs[..|xs| - 1])
  }

  /** The entries of `xs` whose timestamp is not `ts`, in order. */
  function Without(xs: seq<Snapshot>, ts: string): (r: seq<Snapshot>)
    ensures Stamps(r) == Stamps(xs) - {ts}
    ensures |r| <= |xs|
  {
    if xs == [] then []
    else
      var r0 := Without(xs[..|xs| - 1], ts);
      var x := xs[|xs| - 1];
      assert (r0 + [x])[..|r0|] == r0;
      if Ts(x) == ts then r0 else r0 + [x]
  }

  /** One entry per timestamp, the last one, in order of last appearance. */
  function Dedup(xs: seq<Snapshot>): (r: seq<Snapshot>) {
    if xs == [] then [] else Without(Dedup(xs[..|xs| - 1]), Ts(xs[|xs| - 1])) + [xs[|xs| - 1]]
  }

  /** The history a viewer should see: the newest `n` distinct timestamps. */
  function Newest(xs: seq<Snapshot>, n: nat): seq<Snapshot> { LastN(Dedup(xs), n) }

  /** Insert or refresh one entry at the young end of a bounded ring. */
  function Upsert(ring: seq<Snapshot>, s: Snapshot, n: nat): seq<Snapshot> {
    LastN(Without(ring, Ts(s)) + [s], n)
  }

  // ---- Stamps, Distinct, Without ------------------------------------------------------

  lemma {:induction false} StampsConcat(a: seq<Snapshot>, b: seq<Snapshot>)
    ensures Stamps(a + b) == Stamps(a) + Stamps(b)
  {
    if b == [] {
      assert a + b == a;
    } else {
      var b0 := b[..|b| - 1];
      assert (a + b)[..|a + b| - 1] == a + b0;
      StampsConcat(a, b0);
    }
  }

  lemma {:induction false} DistinctConcat(a: seq<Snapshot>, b: seq<Snapshot>)
    ensures Distinct(a + b) <==> Distinct(a) && Distinct(b) && Stamps(a) !! Stamps(b)
  {
    if b == [] {
      assert a + b == a;
    } else {
      var b0 := b[..|b| - 1];
      assert (a + b)[..|a + b| - 1] == a + b0;
      DistinctConcat(a, b0);
      StampsConcat(a, b0);
    }
  }

  lemma {:induction false} WithoutConcat(a: seq<Snapshot>, b: seq<Snapshot>, ts: string)
    ensures Without(a + b, ts) == Without(a, ts) + Without(b, ts)
  {
    if b == [] {
      assert a + b == a;
    } else {
      var b0, x := b[..|b| - 1], b[|b| - 1];
      assert (a + b)[..|a + b| - 1] == a + b0;
      WithoutConcat(a, b0, ts);
    }
  }

  lemma {:induction false} WithoutOne(x: Snapshot, ts: string)
    ensures Without([x], ts) == if Ts(x) == ts then [] else [x]
  {
    assert [x][..0] == [];
  }

  lemma {:induction false} WithoutAbsent(xs: seq<Snapshot>, ts: string)
    requires ts !in Stamps(xs)
    ensures Without(xs, ts) == xs
  {
    if xs != [] {
      WithoutAbsent(xs[..|xs| - 1], ts);
      assert xs == xs[..|xs| - 1] + [xs[|xs| - 1]];
    }
  }

  lemma {:induction false} WithoutPresent(xs: seq<Snapshot>, ts: string)
    requires Distinct(xs) && ts in Stamps(xs)
    ensures |Without(xs, ts)| == |xs| - 1
  {
    var x0 := xs[..|xs| - 1];
    if Ts(xs[|xs| - 1]) == ts {
      WithoutAbsent(x0, ts);
    } else {
      WithoutPresent(x0, ts);
    }
  }

  lemma {:induction false} WithoutKeepsDistinct(xs: seq<Snapshot>, ts: string)
    requires Distinct(xs)
    ensures Distinct(Without(xs, ts))
  {
    if xs != [] {
      var r0, x := Without(xs[..|xs| - 1], ts), xs[|xs| - 1];
      WithoutKeepsDistinct(xs[..|xs| - 1], ts);
      assert (r0 + [x])[..|r0|] == r0;
    }
  }

  // ---- Dedup --------------------------------------------------------------------------

  lemma {:induction false} DedupDistinct(xs: seq<Snapshot>)
    ensures Distinct(Dedup(xs))
    ensures Stamps(Dedup(xs)) == Stamps(xs)
  {
    if xs != [] {
      var x0, x := xs[..|xs| - 1], xs[|xs| - 1];
      DedupDistinct(x0);
      WithoutKeepsDistinct(Dedup(x0), Ts(x));
      assert Dedup(xs)[..|Dedup(xs)| - 1] == Without(Dedup(x0), Ts(x));
    }
  }

  lemma {:induction false} DedupOfDistinct(xs: seq<Snapshot>)
    requires Distinct(xs)
    ensures Dedup(xs) == xs
  {
    if xs != [] {
      DedupOfDistinct(xs[..|xs| - 1]);
      WithoutAbsent(xs[..|xs| - 1], Ts(xs[|xs| - 1]));
      assert xs == xs[..|xs| - 1] + [xs[|xs| - 1]];
    }
  }

  /** An independent reading of `Dedup`: drop an entry exactly when a later one has its timestamp. */
  function KeepLast(xs: seq<Snapshot>): seq<Snapshot> {
    if xs == [] then []
    else if Ts(xs[0]) in Stamps(xs[1..]) then KeepLast(xs[1..])
    else [xs[0]] + KeepLast(xs[1..])
  }

  lemma {:induction false} KeepLastSnoc(xs: seq<Snapshot>, x: Snapshot)
    ensures KeepLast(xs + [x]) == Without(KeepLast(xs), Ts(x)) + [x]
  {
    if xs == [] {
      assert xs + [x] == [x];
    } else {
      var y, ys, longer := xs[0], xs[1..], xs + [x];
      assert longer[1..] == ys + [x] && longer[0] == y;
      StampsSnoc(ys, x);
      KeepLastSnoc(ys, x);
      if Ts(y) !in Stamps(ys) {
        WithoutConcat([y], KeepLast(ys), Ts(x));
        WithoutOne(y, Ts(x));
      }
    }
  }

  lemma {:induction false} StampsSnoc(xs: seq<Snapshot>, x: Snapshot)
    ensures Stamps(xs + [x]) == Stamps(xs) + {Ts(x)}
  {
    assert (xs + [x])[..|xs|] == xs;
  }

  /** The stepwise deduplication is the declarative one. */
  lemma {:induction false} DedupIsKeepLast(xs: seq<Snapshot>)
    ensures Dedup(xs) == KeepLast(xs)
  {
    if xs != [] {
      DedupIsKeepLast(xs[..|xs| - 1]);
      KeepLastSnoc(xs[..|xs| - 1], xs[|xs| - 1]);
      assert xs[..|xs| - 1] + [xs[|xs| - 1]] == xs;
    }
  }

  // ---- bounded rings ------------------------------------------------------------------

  /** Evicting before or after refreshing one entry makes no difference. */
  lemma {:induction false} UpsertLastN(d: seq<Snapshot>, s: Snapshot, n: nat)
    requires Distinct(d)
    ensures Upsert(LastN(d, n), s, n) == LastN(Without(d, Ts(s)) + [s], n)
  {
    if |d| > n {
      assert d == d[..|d| - n] + d[|d| - n..];
      UpsertWindow(d[..|d| - n], d[|d| - n..], s);
    }
  }

  lemma {:induction false} UpsertWindow(aged: seq<Snapshot>, young: seq<Snapshot>, s: Snapshot)
    requires Distinct(aged + young)
    ensures Upsert(young, s, |young|) == LastN(Without(aged + young, Ts(s)) + [s], |young|)
  {
    WithoutConcat(aged, young, Ts(s));
    DistinctConcat(aged, young);
    var a, y := Without(aged, Ts(s)), Without(young, Ts(s));
    assert a + y + [s] == a + (y + [s]);
    if Ts(s) in Stamps(young) {
      WithoutPresent(young, Ts(s));
      LastNOfConcat(a, y + [s], |young|);
    } else {
      WithoutAbsent(young, Ts(s));
      LastNOfConcat(a, y + [s], |young|);
    }
  }

  lemma {:induction false} LastNOfConcat<T>(a: seq<T>, b: seq<T>, n: nat)
    requires n <= |b|
    ensures LastN(a + b, n) == LastN(b, n)
  {
  }

  lemma {:induction false} DistinctLastN(d: seq<Snapshot>, n: nat)
    requires Distinct(d)
    ensures Distinct(LastN(d, n))
  {
    if |d| > n {
      assert d == d[..|d| - n] + d[|d| - n..];
      DistinctConcat(d[..|d| - n], d[|d| - n..]);
    }
  }

  /** Recording one more entry: the newest window over a longer history is an `Upsert` on the old window. */
  lemma {:induction false} NewestSnoc(h: seq<Snapshot>, s: Snapshot, n: nat)
    ensures Newest(h + [s], n) == Upsert(Newest(h, n), s, n)
  {
    assert (h + [s])[..|h|] == h;
    DedupDistinct(h);
    UpsertLastN(Dedup(h), s, n);
  }

  lemma {:induction false} NewestIdempotent(h: seq<Snapshot>, n: nat)
    ensures Newest(Newest(h, n), n) == Newest(h, n)
  {
    DedupDistinct(h);
    DistinctLastN(Dedup(h), n);
    DedupOfDistinct(Newest(h, n));
  }

  /** Only the newest window of the past matters for any future. */
  lemma {:induction false} NewestForgetsThePast(a: seq<Snapshot>, b: seq<Snapshot>, n: nat)
    ensures Newest(a + b, n) == Newest(Newest(a, n) + b, n)
  {
    if b == [] {
      assert a + b == a && Newest(a, n) + b == Newest(a, n);
      NewestIdempotent(a, n);
    } else {
      var b0, x := b[..|b| - 1], b[|b| - 1];
      NewestForgetsThePast(a, b0, n);
      assert a + b == (a + b0) + [x];
      assert Newest(a, n) + b == (Newest(a, n) + b0) + [x];
      NewestSnoc(a + b0, x, n);
      NewestSnoc(Newest(a, n) + b0, x, n);
    }
  }

  /** A later entry with the same timestamp makes the one just before it irrelevant. */
  lemma {:induction false} NewestReplaces(h: seq<Snapshot>, a: Snapshot, b: Snapshot, n: nat)
    requires Ts(a) == Ts(b)
    ensures Newest(h + [a] + [b], n) == Newest(h + [b], n)
  {
    var ha := h + [a];
    assert (ha + [b])[..|ha|] == ha && ha[..|h|] == h && (h + [b])[..|h|] == h;
    var w := Without(Dedup(h), Ts(a));
    assert Dedup(ha) == w + [a];
    WithoutConcat(w, [a], Ts(b));
    WithoutAbsent(w, Ts(a));
    WithoutOne(a, Ts(b));
    assert Without(Dedup(ha), Ts(b)) == w;
  }
}
