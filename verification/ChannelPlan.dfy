/** Recommending a channel per band from what the neighbouring access points put on the air. */
module ChannelPlan {
  import opened Common
  import opened Sorting
  import opened Text

  datatype Neighbour = Neighbour(
    bssid: Option<string>, band: Option<string>, channel: Option<int>, signal: Option<real>)
  datatype Vap = Vap(
    iface: Option<string>, bssid: Option<string>, band: Option<string>, channel: Option<int>)

  datatype Reason =
    | NothingHeard
    | AlreadyLeast(channel: int, load: nat)
    | LessOccupied(channel: int, load: nat, left: int, leftLoad: nat)

  /** Loads are counted in fifths, so that the 2.4 GHz overlap weights are whole numbers. */
  datatype Row = Row(
    band: string, iface: Option<string>, current: int, recommended: int, load: nat,
    occupancy: map<int, nat>, reason: Reason)

  const BAND_24G := "2.4GHz"
  const NONOVERLAP_24G: set<int> := {1, 6, 11}

  // ---- weights ------------------------------------------------------------------------

  function SignalWeight(signal: Option<real>): nat {
    if signal.None? then 1
    else if signal.value >= -60.0 then 3
    else if signal.value >= -75.0 then 2
    else 1
  }

  /** How many fifths of its weight a transmission reaches `delta` channel numbers away. */
  function Overlap(band: string, delta: int): nat {
    if band == BAND_24G then
      var distance := if delta < 0 then -delta else delta;
      if distance < 5 then 5 - distance else 0
    else if delta == 0 then 5
    else 0
  }

  function Weight(n: Neighbour, band: string, channel: int): nat {
    if n.channel.None? then 0
    else SignalWeight(n.signal) * Overlap(band, channel - n.channel.value)
  }

  /** What all the neighbours together put on one channel. */
  function Load(heard: seq<Neighbour>, band: string, channel: int): nat {
    if heard == [] then 0
    else Load(heard[..|heard| - 1], band, channel) + Weight(heard[|heard| - 1], band, channel)
  }

  // ---- who counts ---------------------------------------------------------------------

  function OwnBssids(vaps: seq<Vap>): set<string> {
    set v | v in vaps && v.bssid.Some? && v.bssid.value != "" :: Lower(v.bssid.value)
  }

  /** A neighbour of the band that is not one of the device's own access points. */
  predicate Counts(n: Neighbour, band: string, own: set<string>) {
    n.band == Some(band) && Lower(n.bssid.GetOr("")) !in own
  }

  function Kept(band: string, own: set<string>): Neighbour -> seq<Neighbour> {
    (n: Neighbour) => if Counts(n, band, own) then [n] else []
  }

  function Heard(neighbours: seq<Neighbour>, band: string, own: set<string>): seq<Neighbour> {
    ConcatMap(neighbours, Kept(band, own))
  }

  function Channels(heard: seq<Neighbour>): set<int> {
    set n | n in heard && n.channel.Some? :: n.channel.value
  }

  predicate Usable(v: Vap) { v.band.Some? && v.channel.Some? }

  predicate HasBand(vaps: seq<Vap>, band: string) {
    exists i :: 0 <= i < |vaps| && vaps[i].band == Some(band)
  }

  /** The first usable access point of each band. */
  function BandVaps(vaps: seq<Vap>): (r: seq<Vap>)
    ensures forall i :: 0 <= i < |r| ==> Usable(r[i]) && r[i] in vaps
  {
    if vaps == [] then []
    else
      var before := BandVaps(vaps[..|vaps| - 1]);
      var v := vaps[|vaps| - 1];
      if !Usable(v) || HasBand(before, v.band.value) then before else before + [v]
  }

  // ---- the plan -----------------------------------------------------------------------

  function Grid(current: int): set<int> {
    {1, 2, 3, 4, 5, 6, 7, 8, 9, 10, 11, 12, 13} + {current}
  }

  function Scored(heard: seq<Neighbour>, band: string, current: int): set<int> {
    if band == BAND_24G then Grid(current) else Channels(heard)
  }

  function Candidates(heard: seq<Neighbour>, band: string, current: int): set<int> {
    if band == BAND_24G then NONOVERLAP_24G + {current}
    else (set c | c in Channels(heard) && c != 0) + {current}
  }

  function Occupancy(heard: seq<Neighbour>, band: string, current: int): map<int, nat> {
    map c | c in Scored(heard, band, current) :: Load(heard, band, c)
  }

  /** `a` is no worse than `b`: less load first, then staying put, then the lower number. */
  predicate NoWorse(heard: seq<Neighbour>, band: string, current: int, a: int, b: int) {
    var la, lb := Load(heard, band, a), Load(heard, band, b);
    la < lb || (la == lb && (a == current || (b != current && a <= b)))
  }

  predicate Best(heard: seq<Neighbour>, band: string, current: int, c: int) {
    && c in Candidates(heard, band, current)
    && forall d :: d in Candidates(heard, band, current) ==> NoWorse(heard, band, current, c, d)
  }

  function Why(heard: seq<Neighbour>, band: string, current: int, c: int): Reason {
    if heard == [] then NothingHeard
    else if c == current then AlreadyLeast(current, Load(heard, band, c))
    else LessOccupied(c, Load(heard, band, c), current, Load(heard, band, current))
  }

  predicate RowFor(row: Row, vap: Vap, heard: seq<Neighbour>)
    requires Usable(vap)
  {
    var band, current := vap.band.value, vap.channel.value;
    && row.band == band && row.iface == vap.iface && row.current == current
    && Best(heard, band, current, row.recommended)
    && row.load == Load(heard, band, row.recommended)
    && row.occupancy == Occupancy(heard, band, current)
    && row.reason == Why(heard, band, current, row.recommended)
  }

  ghost predicate Plan(rows: seq<Row>, neighbours: seq<Neighbour>, vaps: seq<Vap>) {
    var chosen := BandVaps(vaps);
    && |rows| == |chosen|
    && forall i :: 0 <= i < |rows| ==>
         RowFor(rows[i], chosen[i], Heard(neighbours, chosen[i].band.value, OwnBssids(vaps)))
  }

  // ---- loads --------------------------------------------------------------------------

  lemma {:induction false} LoadConcat(a: seq<Neighbour>, b: seq<Neighbour>, band: string, c: int)
    ensures Load(a + b, band, c) == Load(a, band, c) + Load(b, band, c)
  {
    if b == [] {
      assert a + b == a;
    } else {
      assert (a + b)[..|a + b| - 1] == a + b[..|b| - 1];
      LoadConcat(a, b[..|b| - 1], band, c);
    }
  }

  lemma {:induction false} LoadOfOne(n: Neighbour, band: string, c: int)
    ensures Load([n], band, c) == Weight(n, band, c)
  {
    assert [n][..0] == [];
  }

  lemma {:induction false} LoadForgetsOrder(a: seq<Neighbour>, b: seq<Neighbour>, band: string, c: int)
    requires multiset(a) == multiset(b)
    ensures Load(a, band, c) == Load(b, band, c)
  {
    if a == [] {
      SameBagSameElements(a, b);
    } else {
      var i := TakeHeadOut(a, b);
      LoadForgetsOrder(a[1..], b[..i] + b[i + 1..], band, c);
      LoadSplit(a, 0, band, c);
      LoadSplit(b, i, band, c);
      assert a[..0] + a[1..] == a[1..];
    }
  }

  lemma {:induction false} LoadSplit(s: seq<Neighbour>, i: nat, band: string, c: int)
    requires i < |s|
    ensures Load(s, band, c) == Load(s[..i] + s[i + 1..], band, c) + Weight(s[i], band, c)
  {
    assert s == s[..i] + ([s[i]] + s[i + 1..]);
    LoadConcat(s[..i], [s[i]] + s[i + 1..], band, c);
    LoadConcat([s[i]], s[i + 1..], band, c);
    LoadConcat(s[..i], s[i + 1..], band, c);
    LoadOfOne(s[i], band, c);
  }

  /** Away from 2.4 GHz a channel carries load exactly when somebody sits on it. */
  lemma {:induction false} LoadedIffObserved(heard: seq<Neighbour>, band: string, c: int)
    requires band != BAND_24G
    ensures c in Channels(heard) <==> Load(heard, band, c) > 0
    ensures c in Channels(heard) ==> Load(heard, band, c) >= 5
  {
    if heard != [] {
      var front, n := heard[..|heard| - 1], heard[|heard| - 1];
      LoadedIffObserved(front, band, c);
      assert heard == front + [n];
      ChannelsSnoc(front, n);
    }
  }

  // ---- the program's loops ------------------------------------------------------------

  method CollectBandVaps(vaps: seq<Vap>) returns (r: seq<Vap>)
    ensures r == BandVaps(vaps)
  {
    r := [];
    var seen: set<string> := {};
    for i := 0 to |vaps|
      invariant r == BandVaps(vaps[..i])
      invariant forall b :: b in seen <==> HasBand(r, b)
    {
      assert vaps[..i + 1][..i] == vaps[..i];
      var v := vaps[i];
      if v.band.None? || v.channel.None? || v.band.value in seen {
        continue;
      }
      ghost var before := r;
      seen := seen + {v.band.value};
      r := r + [v];
      forall b
        ensures HasBand(r, b) <==> HasBand(before, b) || b == v.band.value
      {
        HasBandSnoc(before, v, b);
      }
    }
    assert vaps[..|vaps|] == vaps;
  }

  lemma {:induction false} HasBandSnoc(s: seq<Vap>, v: Vap, band: string)
    ensures HasBand(s + [v], band) <==> HasBand(s, band) || v.band == Some(band)
  {
    if HasBand(s, band) {
      var i :| 0 <= i < |s| && s[i].band == Some(band);
      assert (s + [v])[i].band == Some(band);
    }
    if v.band == Some(band) {
      assert (s + [v])[|s|].band == Some(band);
    }
  }

  lemma {:induction false} HeardSnoc(s: seq<Neighbour>, n: Neighbour, band: string, own: set<string>)
    ensures Heard(s + [n], band, own) == Heard(s, band, own) + (if Counts(n, band, own) then [n] else [])
  {
    ConcatMapConcat(s, [n], Kept(band, own));
    assert [n][1..] == [];
  }

  method CollectHeard(neighbours: seq<Neighbour>, band: string, own: set<string>) returns (r: seq<Neighbour>)
    ensures r == Heard(neighbours, band, own)
  {
    r := [];
    for i := 0 to |neighbours|
      invariant r == Heard(neighbours[..i], band, own)
    {
      HeardSnoc(neighbours[..i], neighbours[i], band, own);
      assert neighbours[..i + 1] == neighbours[..i] + [neighbours[i]];
      if Counts(neighbours[i], band, own) {
        r := r + [neighbours[i]];
      }
    }
    assert neighbours[..|neighbours|] == neighbours;
  }

  method TotalLoad(heard: seq<Neighbour>, band: string, channel: int) returns (total: nat)
    ensures total == Load(heard, band, channel)
  {
    total := 0;
    for i := 0 to |heard|
      invariant total == Load(heard[..i], band, channel)
    {
      assert heard[..i + 1][..i] == heard[..i];
      total := total + Weight(heard[i], band, channel);
    }
    assert heard[..|heard|] == heard;
  }

  /** 2.4 GHz: every channel of the grid gets the sum of what reaches it. */
  method ScoreGrid(heard: seq<Neighbour>, current: int) returns (occupancy: map<int, nat>)
    ensures occupancy == Occupancy(heard, BAND_24G, current)
  {
    occupancy := map[];
    var todo := Grid(current);
    while todo != {}
      invariant todo <= Grid(current)
      invariant occupancy.Keys == Grid(current) - todo
      invariant forall c :: c in occupancy ==> occupancy[c] == Load(heard, BAND_24G, c)
    {
      var c :| c in todo;
      var total := TotalLoad(heard, BAND_24G, c);
      occupancy := occupancy[c := total];
      todo := todo - {c};
    }
  }

  lemma {:induction false} ChannelsSnoc(s: seq<Neighbour>, n: Neighbour)
    ensures Channels(s + [n]) == Channels(s) + (if n.channel.Some? then {n.channel.value} else {})
  {
    assert forall x :: x in s + [n] <==> x in s || x == n;
  }

  lemma {:induction false} OccupancySnoc(s: seq<Neighbour>, n: Neighbour, band: string, current: int)
    requires band != BAND_24G
    ensures var o := Occupancy(s, band, current);
      Occupancy(s + [n], band, current) ==
      if n.channel.None? then o
      else
        var ch := n.channel.value;
        o[ch := (if ch in o then o[ch] else 0) + 5 * SignalWeight(n.signal)]
  {
    ChannelsSnoc(s, n);
    assert (s + [n])[..|s|] == s;
    assert forall c :: Load(s + [n], band, c) == Load(s, band, c) + Weight(n, band, c);
    if n.channel.Some? {
      LoadedIffObserved(s, band, n.channel.value);
    }
  }

  /** 5 and 6 GHz: every neighbour adds to the channel it sits on and to no other. */
  method ScoreObserved(heard: seq<Neighbour>, band: string, current: int) returns (occupancy: map<int, nat>)
    requires band != BAND_24G
    ensures occupancy == Occupancy(heard, band, current)
  {
    occupancy := map[];
    for i := 0 to |heard|
      invariant occupancy == Occupancy(heard[..i], band, current)
    {
      var n := heard[i];
      OccupancySnoc(heard[..i], n, band, current);
      assert heard[..i + 1] == heard[..i] + [n];
      if n.channel.Some? {
        var ch := n.channel.value;
        occupancy := occupancy[ch := (if ch in occupancy then occupancy[ch] else 0) + 5 * SignalWeight(n.signal)];
      }
    }
    assert heard[..|heard|] == heard;
  }

  method PickLeast(heard: seq<Neighbour>, band: string, current: int, occupancy: map<int, nat>) returns (best: int)
    requires occupancy == Occupancy(heard, band, current)
    ensures Best(heard, band, current, best)
  {
    var todo := Candidates(heard, band, current);
    best := current;
    todo := todo - {current};
    while todo != {}
      invariant todo <= Candidates(heard, band, current)
      invariant best in Candidates(heard, band, current)
      invariant forall d :: d in Candidates(heard, band, current) ==> d in todo || NoWorse(heard, band, current, best, d)
    {
      var c :| c in todo;
      OccupancyReadsLoad(heard, band, current, c);
      OccupancyReadsLoad(heard, band, current, best);
      var lc := if c in occupancy then occupancy[c] else 0;
      var lb := if best in occupancy then occupancy[best] else 0;
      if lc < lb || (lc == lb && (c == current || (best != current && c < best))) {
        forall d | NoWorse(heard, band, current, best, d)
          ensures NoWorse(heard, band, current, c, d)
        {
        }
        best := c;
      }
      todo := todo - {c};
    }
  }

  /** Asking the occupancy table with 0 for a missing channel reads the load of every candidate. */
  lemma {:induction false} OccupancyReadsLoad(heard: seq<Neighbour>, band: string, current: int, c: int)
    requires c in Candidates(heard, band, current)
    ensures var o := Occupancy(heard, band, current);
      (if c in o then o[c] else 0) == Load(heard, band, c)
  {
    if band != BAND_24G {
      LoadedIffObserved(heard, band, c);
    }
  }

  method ChannelRecommendation(neighbours: seq<Neighbour>, vaps: seq<Vap>) returns (rows: seq<Row>)
    ensures Plan(rows, neighbours, vaps)
  {
    var own := OwnBssids(vaps);
    var chosen := CollectBandVaps(vaps);
    rows := [];
    for i := 0 to |chosen|
      invariant |rows| == i
      invariant forall k :: 0 <= k < i ==>
        RowFor(rows[k], chosen[k], Heard(neighbours, chosen[k].band.value, own))
    {
      var band, current := chosen[i].band.value, chosen[i].channel.value;
      var heard := CollectHeard(neighbours, band, own);
      var occupancy;
      if band == BAND_24G {
        occupancy := ScoreGrid(heard, current);
      } else {
        occupancy := ScoreObserved(heard, band, current);
      }
      var best := PickLeast(heard, band, current, occupancy);
      OccupancyReadsLoad(heard, band, current, best);
      OccupancyReadsLoad(heard, band, current, current);
      var load := if best in occupancy then occupancy[best] else 0;
      var left := if current in occupancy then occupancy[current] else 0;
      var reason := if heard == [] then NothingHeard
                    else if best == current then AlreadyLeast(current, load)
                    else LessOccupied(best, load, current, left);
      rows := rows + [Row(band, chosen[i].iface, current, best, load, occupancy, reason)];
    }
  }

  // ---- what the plan promises ---------------------------------------------------------

  /** The first usable access point of a band is the one that stands for it. */
  ghost predicate FirstOfBand(v: Vap, vaps: seq<Vap>) {
    exists i :: 0 <= i < |vaps| && vaps[i] == v && Usable(v)
      && forall j :: 0 <= j < i ==> !(Usable(vaps[j]) && vaps[j].band == v.band)
  }

  lemma {:induction false} BandVapsAreFirst(vaps: seq<Vap>)
    ensures forall v :: v in BandVaps(vaps) <==> FirstOfBand(v, vaps)
    ensures forall i, j :: 0 <= i < j < |BandVaps(vaps)| ==> BandVaps(vaps)[i].band != BandVaps(vaps)[j].band
  {
    if vaps != [] {
      var front, last := vaps[..|vaps| - 1], vaps[|vaps| - 1];
      BandVapsAreFirst(front);
      var before := BandVaps(front);
      forall v
        ensures v in BandVaps(vaps) <==> FirstOfBand(v, vaps)
      {
        FirstOfBandSnoc(v, front, last);
        assert vaps == front + [last];
      }
      if Usable(last) && !HasBand(before, last.band.value) {
        assert forall i :: 0 <= i < |before| ==> before[i].band != Some(last.band.value);
      }
    }
  }

  lemma {:induction false} FirstOfBandSnoc(v: Vap, front: seq<Vap>, last: Vap)
    requires forall u :: u in BandVaps(front) <==> FirstOfBand(u, front)
    ensures FirstOfBand(v, front + [last]) <==>
      FirstOfBand(v, front) || (v == last && Usable(last) && !HasBand(BandVaps(front), last.band.value))
  {
    var all := front + [last];
    if FirstOfBand(v, front) {
      var i :| 0 <= i < |front| && front[i] == v && Usable(v)
        && forall j :: 0 <= j < i ==> !(Usable(front[j]) && front[j].band == v.band);
      assert all[i] == v;
    }
    if v == last && Usable(last) && !HasBand(BandVaps(front), last.band.value) {
      forall j | 0 <= j < |front|
        ensures !(Usable(front[j]) && front[j].band == v.band)
      {
        if Usable(front[j]) {
          BandIsRepresented(front, j);
        }
      }
      assert all[|front|] == v;
    }
    if FirstOfBand(v, all) {
      var i :| 0 <= i < |all| && all[i] == v && Usable(v)
        && forall j :: 0 <= j < i ==> !(Usable(all[j]) && all[j].band == v.band);
      if i < |front| {
        assert front[i] == v;
        assert forall j :: 0 <= j < i ==> all[j] == front[j];
      } else {
        forall k | 0 <= k < |BandVaps(front)|
          ensures BandVaps(front)[k].band != v.band
        {
          var u := BandVaps(front)[k];
          var j :| 0 <= j < |front| && front[j] == u;
          assert all[j] == u;
        }
      }
    }
  }

  lemma {:induction false} BandIsRepresented(vaps: seq<Vap>, j: nat)
    requires j < |vaps| && Usable(vaps[j])
    ensures HasBand(BandVaps(vaps), vaps[j].band.value)
  {
    var front, last := vaps[..|vaps| - 1], vaps[|vaps| - 1];
    if j < |front| {
      BandIsRepresented(front, j);
      if BandVaps(vaps) != BandVaps(front) {
        HasBandSnoc(BandVaps(front), last, vaps[j].band.value);
      }
    } else if BandVaps(vaps) != BandVaps(front) {
      HasBandSnoc(BandVaps(front), last, vaps[j].band.value);
    }
  }

  /** The row is about the first access point of its band. */
  ghost predicate HasFirst(row: Row, vaps: seq<Vap>) {
    exists v | FirstOfBand(v, vaps) :: v.band == Some(row.band) && v.iface == row.iface && v.channel == Some(row.current)
  }

  /** Which access point each row stands for. */
  ghost predicate StandsFor(rows: seq<Row>, chosen: seq<Vap>) {
    && |rows| == |chosen|
    && forall i :: 0 <= i < |rows| ==>
         chosen[i].band == Some(rows[i].band) && chosen[i].iface == rows[i].iface
         && chosen[i].channel == Some(rows[i].current)
  }

  lemma {:induction false} PlanStandsFor(rows: seq<Row>, neighbours: seq<Neighbour>, vaps: seq<Vap>)
    requires Plan(rows, neighbours, vaps)
    ensures StandsFor(rows, BandVaps(vaps))
  {
    var chosen := BandVaps(vaps);
    forall i | 0 <= i < |rows|
      ensures chosen[i].band == Some(rows[i].band) && chosen[i].iface == rows[i].iface
        && chosen[i].channel == Some(rows[i].current)
    {
      assert RowFor(rows[i], chosen[i], Heard(neighbours, chosen[i].band.value, OwnBssids(vaps)));
    }
  }

  lemma {:induction false} RowsAreFirst(rows: seq<Row>, vaps: seq<Vap>)
    requires StandsFor(rows, BandVaps(vaps))
    ensures forall i, j :: 0 <= i < j < |rows| ==> rows[i].band != rows[j].band
    ensures forall i :: 0 <= i < |rows| ==> HasFirst(rows[i], vaps)
  {
    BandVapsAreFirst(vaps);
    var chosen := BandVaps(vaps);
    forall i | 0 <= i < |rows|
      ensures HasFirst(rows[i], vaps)
    {
      assert FirstOfBand(chosen[i], vaps);
    }
    forall i, j | 0 <= i < j < |rows|
      ensures rows[i].band != rows[j].band
    {
      assert chosen[i].band != chosen[j].band;
    }
  }

  lemma {:induction false} EveryBandHasARow(rows: seq<Row>, vaps: seq<Vap>, j: nat)
    requires StandsFor(rows, BandVaps(vaps)) && j < |vaps| && Usable(vaps[j])
    ensures exists i :: 0 <= i < |rows| && rows[i].band == vaps[j].band.value
  {
    BandIsRepresented(vaps, j);
    var chosen := BandVaps(vaps);
    var i :| 0 <= i < |chosen| && chosen[i].band == Some(vaps[j].band.value);
    assert rows[i].band == vaps[j].band.value;
  }

  /** One row per band that has a usable access point, no band twice, each for the band's first access point. */
  lemma {:induction false} OneRowPerBand(rows: seq<Row>, neighbours: seq<Neighbour>, vaps: seq<Vap>)
    requires Plan(rows, neighbours, vaps)
    ensures forall i, j :: 0 <= i < j < |rows| ==> rows[i].band != rows[j].band
    ensures forall i :: 0 <= i < |rows| ==> HasFirst(rows[i], vaps)
    ensures forall j :: 0 <= j < |vaps| && Usable(vaps[j]) ==>
      exists i :: 0 <= i < |rows| && rows[i].band == vaps[j].band.value
  {
    PlanStandsFor(rows, neighbours, vaps);
    RowsAreFirst(rows, vaps);
    forall j | 0 <= j < |vaps| && Usable(vaps[j])
      ensures exists i :: 0 <= i < |rows| && rows[i].band == vaps[j].band.value
    {
      EveryBandHasARow(rows, vaps, j);
    }
  }

  /**
    * The recommendation is the least loaded candidate; it leaves the current channel only for a strictly
    * smaller load, and the reason given is then true.
    */
  lemma {:induction false} RecommendsTheLeastLoaded(row: Row, vap: Vap, heard: seq<Neighbour>)
    requires Usable(vap) && RowFor(row, vap, heard)
    ensures forall c :: c in Candidates(heard, row.band, row.current) ==> row.load <= Load(heard, row.band, c)
    ensures row.recommended == row.current <==> row.load == Load(heard, row.band, row.current)
    ensures heard == [] ==> row.recommended == row.current && row.load == 0
    ensures row.reason.LessOccupied? ==> row.reason.load < row.reason.leftLoad
    ensures row.reason.LessOccupied? <==> row.recommended != row.current
  {
    assert NoWorse(heard, row.band, row.current, row.recommended, row.current);
    if heard == [] {
      assert Load(heard, row.band, row.recommended) == 0 == Load(heard, row.band, row.current);
    }
  }

  /** There is only one plan: no loop order and no tie can change it. */
  lemma {:induction false} PlanIsUnique(
      a: seq<Row>, b: seq<Row>, neighbours: seq<Neighbour>, vaps: seq<Vap>)
    requires Plan(a, neighbours, vaps) && Plan(b, neighbours, vaps)
    ensures a == b
  {
    var chosen := BandVaps(vaps);
    forall i | 0 <= i < |a|
      ensures a[i] == b[i]
    {
      var heard := Heard(neighbours, chosen[i].band.value, OwnBssids(vaps));
      assert RowFor(a[i], chosen[i], heard) && RowFor(b[i], chosen[i], heard);
      BestIsUnique(heard, chosen[i].band.value, chosen[i].channel.value, a[i].recommended, b[i].recommended);
    }
  }

  lemma {:induction false} BestIsUnique(heard: seq<Neighbour>, band: string, current: int, a: int, b: int)
    requires Best(heard, band, current, a) && Best(heard, band, current, b)
    ensures a == b
  {
    assert NoWorse(heard, band, current, a, b) && NoWorse(heard, band, current, b, a);
  }

  /** The order the scan reported its neighbours in does not matter. */
  lemma {:induction false} PlanForgetsNeighbourOrder(
      rows: seq<Row>, a: seq<Neighbour>, b: seq<Neighbour>, vaps: seq<Vap>)
    requires Plan(rows, a, vaps) && multiset(a) == multiset(b)
    ensures Plan(rows, b, vaps)
  {
    var chosen, own := BandVaps(vaps), OwnBssids(vaps);
    forall i | 0 <= i < |rows|
      ensures RowFor(rows[i], chosen[i], Heard(b, chosen[i].band.value, own))
    {
      var band := chosen[i].band.value;
      ConcatMapBag(a, b, Kept(band, own));
      assert RowFor(rows[i], chosen[i], Heard(a, band, own));
      RowForgetsOrder(rows[i], chosen[i], Heard(a, band, own), Heard(b, band, own));
    }
  }

  lemma {:induction false} RowForgetsOrder(row: Row, vap: Vap, a: seq<Neighbour>, b: seq<Neighbour>)
    requires Usable(vap) && RowFor(row, vap, a) && multiset(a) == multiset(b)
    ensures RowFor(row, vap, b)
  {
    var band, current := vap.band.value, vap.channel.value;
    SameBagSameElements(a, b);
    assert Channels(a) == Channels(b);
    forall c
      ensures Load(a, band, c) == Load(b, band, c)
    {
      LoadForgetsOrder(a, b, band, c);
    }
    forall d | d in Candidates(b, band, current)
      ensures NoWorse(b, band, current, row.recommended, d)
    {
      assert NoWorse(a, band, current, row.recommended, d);
    }
  }

  /** The scan without the device's own beacons. */
  function WithoutOwn(neighbours: seq<Neighbour>, own: set<string>): seq<Neighbour> {
    if neighbours == [] then []
    else (if Lower(neighbours[0].bssid.GetOr("")) in own then [] else [neighbours[0]]) + WithoutOwn(neighbours[1..], own)
  }

  lemma {:induction false} HeardWithoutOwn(neighbours: seq<Neighbour>, band: string, own: set<string>)
    ensures Heard(WithoutOwn(neighbours, own), band, own) == Heard(neighbours, band, own)
  {
    if neighbours != [] {
      HeardWithoutOwn(neighbours[1..], band, own);
      var rest := WithoutOwn(neighbours[1..], own);
      assert ([neighbours[0]] + rest)[1..] == rest && [] + rest == rest;
    }
  }

  /** Hearing itself, in whatever letter case, changes nothing. */
  lemma {:induction false} OwnBeaconsDoNotMatter(rows: seq<Row>, neighbours: seq<Neighbour>, vaps: seq<Vap>)
    ensures Plan(rows, neighbours, vaps) <==> Plan(rows, WithoutOwn(neighbours, OwnBssids(vaps)), vaps)
  {
    forall i | 0 <= i < |BandVaps(vaps)|
      ensures var band := BandVaps(vaps)[i].band.value;
        Heard(WithoutOwn(neighbours, OwnBssids(vaps)), band, OwnBssids(vaps)) ==
        Heard(neighbours, band, OwnBssids(vaps))
    {
      HeardWithoutOwn(neighbours, BandVaps(vaps)[i].band.value, OwnBssids(vaps));
    }
  }

  lemma {:induction false} LoadMiddle(a: seq<Neighbour>, m: seq<Neighbour>, b: seq<Neighbour>, band: string, c: int)
    ensures Load(a + m + b, band, c) == Load(a + b, band, c) + Load(m, band, c)
  {
    LoadConcat(a + m, b, band, c);
    LoadConcat(a, m, band, c);
    LoadConcat(a, b, band, c);
  }

  lemma {:induction false} HeardMiddle(
      a: seq<Neighbour>, n: Neighbour, b: seq<Neighbour>, band: string, own: set<string>)
    ensures Heard(a + [n] + b, band, own) ==
      Heard(a, band, own) + (if Counts(n, band, own) then [n] else []) + Heard(b, band, own)
  {
    ConcatMapConcat(a + [n], b, Kept(band, own));
    HeardSnoc(a, n, band, own);
  }

  /** One more neighbour, wherever the scan reports it, adds exactly its weight: no channel gets clearer. */
  lemma {:induction false} OneMoreNeighbour(
      a: seq<Neighbour>, n: Neighbour, b: seq<Neighbour>, band: string, own: set<string>, c: int)
    ensures Load(Heard(a + [n] + b, band, own), band, c) ==
      Load(Heard(a + b, band, own), band, c) + (if Counts(n, band, own) then Weight(n, band, c) else 0)
  {
    HeardMiddle(a, n, b, band, own);
    ConcatMapConcat(a, b, Kept(band, own));
    var kept := if Counts(n, band, own) then [n] else [];
    LoadMiddle(Heard(a, band, own), kept, Heard(b, band, own), band, c);
    LoadOfOne(n, band, c);
  }

  /** Away from 2.4 GHz the plan only ever moves onto a channel somebody already uses. */
  lemma {:induction false} NeverMovesToAnUnheardChannel(row: Row, vap: Vap, heard: seq<Neighbour>)
    requires Usable(vap) && RowFor(row, vap, heard) && row.band != BAND_24G
    requires row.recommended != row.current
    ensures row.recommended in Channels(heard) && row.load >= 5
    ensures Load(heard, row.band, row.current) > 5
  {
    LoadedIffObserved(heard, row.band, row.recommended);
    RecommendsTheLeastLoaded(row, vap, heard);
  }

  // ---- following the advice -----------------------------------------------------------

  function Moved(v: Vap, choice: map<string, int>): Vap {
    if Usable(v) && v.band.value in choice then v.(channel := Some(choice[v.band.value])) else v
  }

  /** Every access point of a band shares its radio, so all of them change channel together. */
  function MoveAll(vaps: seq<Vap>, choice: map<string, int>): seq<Vap> {
    seq(|vaps|, i requires 0 <= i < |vaps| => Moved(vaps[i], choice))
  }

  lemma {:induction false} MovingKeepsBandVaps(vaps: seq<Vap>, choice: map<string, int>)
    ensures BandVaps(MoveAll(vaps, choice)) == MoveAll(BandVaps(vaps), choice)
  {
    if vaps != [] {
      var front, last := vaps[..|vaps| - 1], vaps[|vaps| - 1];
      MovingKeepsBandVaps(front, choice);
      var moved, before := MoveAll(vaps, choice), BandVaps(front);
      assert moved[..|moved| - 1] == MoveAll(front, choice);
      assert moved[|moved| - 1] == Moved(last, choice);
      if Usable(last) {
        MovingKeepsBands(before, choice, last.band.value);
      }
    }
  }

  lemma {:induction false} MovingKeepsBands(vaps: seq<Vap>, choice: map<string, int>, band: string)
    ensures HasBand(MoveAll(vaps, choice), band) <==> HasBand(vaps, band)
  {
    var moved := MoveAll(vaps, choice);
    assert forall i :: 0 <= i < |vaps| ==> moved[i].band == vaps[i].band;
    if HasBand(vaps, band) {
      var i :| 0 <= i < |vaps| && vaps[i].band == Some(band);
      assert moved[i].band == Some(band);
    }
  }

  lemma {:induction false} MovingKeepsBssids(vaps: seq<Vap>, choice: map<string, int>)
    ensures OwnBssids(MoveAll(vaps, choice)) == OwnBssids(vaps)
  {
    var moved := MoveAll(vaps, choice);
    assert forall i :: 0 <= i < |vaps| ==> moved[i].bssid == vaps[i].bssid;
    forall b
      ensures b in OwnBssids(moved) <==> b in OwnBssids(vaps)
    {
      if b in OwnBssids(moved) {
        var v :| v in moved && v.bssid.Some? && v.bssid.value != "" && Lower(v.bssid.value) == b;
        var i :| 0 <= i < |moved| && moved[i] == v;
        assert vaps[i] in vaps;
      }
      if b in OwnBssids(vaps) {
        var v :| v in vaps && v.bssid.Some? && v.bssid.value != "" && Lower(v.bssid.value) == b;
        var i :| 0 <= i < |vaps| && vaps[i] == v;
        assert moved[i] in moved;
      }
    }
  }

  /** What the rows advise, band by band. */
  function Advice(rows: seq<Row>): map<string, int> {
    if rows == [] then map[]
    else Advice(rows[..|rows| - 1])[rows[|rows| - 1].band := rows[|rows| - 1].recommended]
  }

  lemma {:induction false} AdviceReads(rows: seq<Row>, i: nat)
    requires i < |rows| && forall j, k :: 0 <= j < k < |rows| ==> rows[j].band != rows[k].band
    ensures rows[i].band in Advice(rows) && Advice(rows)[rows[i].band] == rows[i].recommended
  {
    if i < |rows| - 1 {
      AdviceReads(rows[..|rows| - 1], i);
    }
  }

  /** The least loaded candidate stays the best one when it becomes the current channel. */
  lemma {:induction false} BestStays(heard: seq<Neighbour>, band: string, current: int, c: int)
    requires Best(heard, band, current, c)
    ensures Best(heard, band, c, c)
  {
    forall d | d in Candidates(heard, band, c)
      ensures NoWorse(heard, band, c, c, d)
    {
      assert d in Candidates(heard, band, current);
      assert NoWorse(heard, band, current, c, d);
    }
  }

  /** Having moved every radio as advised, with the same neighbours around, the advice is to stay. */
  lemma {:induction false} AdviceIsStable(
      rows: seq<Row>, again: seq<Row>, neighbours: seq<Neighbour>, vaps: seq<Vap>)
    requires Plan(rows, neighbours, vaps)
    requires Plan(again, neighbours, MoveAll(vaps, Advice(rows)))
    ensures |again| == |rows|
    ensures forall i :: 0 <= i < |rows| ==>
      again[i].band == rows[i].band && again[i].current == rows[i].recommended == again[i].recommended
  {
    var choice := Advice(rows);
    var chosen, own := BandVaps(vaps), OwnBssids(vaps);
    OneRowPerBand(rows, neighbours, vaps);
    MovingKeepsBandVaps(vaps, choice);
    MovingKeepsBssids(vaps, choice);
    forall i | 0 <= i < |rows|
      ensures again[i].band == rows[i].band && again[i].current == rows[i].recommended == again[i].recommended
    {
      var band := chosen[i].band.value;
      var heard := Heard(neighbours, band, own);
      assert RowFor(rows[i], chosen[i], heard);
      AdviceReads(rows, i);
      var moved := BandVaps(MoveAll(vaps, choice))[i];
      assert moved == Moved(chosen[i], choice);
      assert RowFor(again[i], moved, heard);
      BestStays(heard, band, rows[i].current, rows[i].recommended);
      BestIsUnique(heard, band, rows[i].recommended, rows[i].recommended, again[i].recommended);
    }
  }

  // ---- the weights, and who counts, in so many words ----------------------------------

  /** Three classes of signal: from -60 dBm up, from -75 dBm up, and the rest, an unknown signal among them. */
  lemma {:induction false} SignalWeights(signal: Option<real>)
    ensures SignalWeight(signal) == 3 <==> signal.Some? && signal.value >= -60.0
    ensures SignalWeight(signal) == 2 <==> signal.Some? && -75.0 <= signal.value < -60.0
    ensures SignalWeight(signal) == 1 <==> signal.None? || signal.value < -75.0
  {
  }

  /** A stronger neighbour never weighs less. */
  lemma {:induction false} StrongerWeighsMore(a: real, b: real)
    requires a <= b
    ensures SignalWeight(Some(a)) <= SignalWeight(Some(b)) && SignalWeight(None) <= SignalWeight(Some(a))
  {
  }

  /** At 2.4 GHz a transmission fades by a fifth for each channel number, to nothing five away; else it stays put. */
  lemma {:induction false} OverlapFades(band: string, delta: int)
    ensures Overlap(band, 0) == 5 && Overlap(band, delta) == Overlap(band, -delta)
    ensures band == "2.4GHz" && 0 <= delta < 5 ==> Overlap(band, delta + 1) + 1 == Overlap(band, delta)
    ensures delta >= 5 || (band != "2.4GHz" && delta != 0) ==> Overlap(band, delta) == 0
  {
  }

  /** The three channels that are always candidates do not reach each other. */
  lemma {:induction false} GridIsClean(c: int, d: int)
    requires c in {1, 6, 11} && d in {1, 6, 11} && c != d
    ensures Overlap("2.4GHz", c - d) == 0
  {
  }

  /** What one neighbour puts on a channel. */
  lemma {:induction false} WeightIs(n: Neighbour, band: string, c: int)
    ensures n.channel.None? ==> Weight(n, band, c) == 0
    ensures n.channel.Some? ==> Weight(n, band, c) == SignalWeight(n.signal) * Overlap(band, n.channel.value - c)
  {
    if n.channel.Some? {
      OverlapFades(band, n.channel.value - c);
    }
  }

  /** Who counts: a neighbour of the band with the address of none of the device's access points, in any letter case. */
  lemma {:induction false} CountsIff(n: Neighbour, band: string, vaps: seq<Vap>)
    ensures Counts(n, band, OwnBssids(vaps)) <==>
      && n.band == Some(band)
      && forall v :: v in vaps && v.bssid.Some? && v.bssid.value != "" ==> Lower(v.bssid.value) != Lower(n.bssid.GetOr(""))
  {
    var address := Lower(n.bssid.GetOr(""));
    if address in OwnBssids(vaps) {
      var v :| v in vaps && v.bssid.Some? && v.bssid.value != "" && Lower(v.bssid.value) == address;
    }
  }

  /** A beacon with the address of one of the device's access points, in whatever case, changes no plan. */
  lemma {:induction false} OwnBeaconChangesNothing(
      rows: seq<Row>, a: seq<Neighbour>, n: Neighbour, b: seq<Neighbour>, vaps: seq<Vap>, v: Vap)
    requires v in vaps && v.bssid.Some? && v.bssid.value != "" && n.bssid.Some?
    requires Lower(n.bssid.value) == Lower(v.bssid.value)
    ensures Plan(rows, a + [n] + b, vaps) <==> Plan(rows, a + b, vaps)
  {
    var own := OwnBssids(vaps);
    assert Lower(v.bssid.value) in own;
    hide Heard, RowFor, OwnBssids;
    forall band
      ensures Heard(a + [n] + b, band, own) == Heard(a + b, band, own)
    {
      UncountedIsUnheard(a, n, b, band, own);
    }
  }

  /** Nor does a beacon of a band in which the device has no access point. */
  lemma {:induction false} OtherBandChangesNothing(
      rows: seq<Row>, a: seq<Neighbour>, n: Neighbour, b: seq<Neighbour>, vaps: seq<Vap>)
    requires forall v :: v in vaps ==> v.band.None? || v.band != n.band
    ensures Plan(rows, a + [n] + b, vaps) <==> Plan(rows, a + b, vaps)
  {
    hide BandVaps, Heard, RowFor, OwnBssids;
    var chosen, own := BandVaps(vaps), OwnBssids(vaps);
    forall i | 0 <= i < |chosen|
      ensures Heard(a + [n] + b, chosen[i].band.value, own) == Heard(a + b, chosen[i].band.value, own)
    {
      assert Usable(chosen[i]) && chosen[i] in vaps;
      UncountedIsUnheard(a, n, b, chosen[i].band.value, own);
    }
  }

  lemma {:induction false} UncountedIsUnheard(
      a: seq<Neighbour>, n: Neighbour, b: seq<Neighbour>, band: string, own: set<string>)
    requires !Counts(n, band, own)
    ensures Heard(a + [n] + b, band, own) == Heard(a + b, band, own)
  {
    HeardMiddle(a, n, b, band, own);
    ConcatMapConcat(a, b, Kept(band, own));
  }

  lemma {:induction false} CandidatesIff(heard: seq<Neighbour>, band: string, current: int, c: int)
    ensures c in Candidates(heard, band, current) <==>
      || c == current
      || (band == "2.4GHz" && c in {1, 6, 11})
      || (band != "2.4GHz" && c != 0 && exists n :: n in heard && n.channel == Some(c))
  {
    if n :| n in heard && n.channel == Some(c) {
      assert n.channel.value in Channels(heard);
    }
  }

  /** What a row promises: the channels it scores, their loads, and the lowest number among equals. */
  lemma {:induction false} RowPromises(row: Row, vap: Vap, heard: seq<Neighbour>)
    requires Usable(vap) && RowFor(row, vap, heard)
    ensures Some(row.band) == vap.band && Some(row.current) == vap.channel && row.iface == vap.iface
    ensures forall c :: c in row.occupancy <==>
      if row.band == "2.4GHz" then 1 <= c <= 13 || c == row.current else exists n :: n in heard && n.channel == Some(c)
    ensures forall c :: c in row.occupancy ==> row.occupancy[c] == Load(heard, row.band, c)
    ensures row.recommended != row.current ==>
      forall c :: c in Candidates(heard, row.band, row.current) && Load(heard, row.band, c) == row.load ==> row.recommended <= c
    ensures row.reason == NothingHeard <==> heard == []
    ensures heard != [] && row.recommended == row.current ==> row.reason == AlreadyLeast(row.current, row.load)
    ensures heard != [] && row.recommended != row.current ==>
      row.reason == LessOccupied(row.recommended, row.load, row.current, Load(heard, row.band, row.current))
  {
    forall c
      ensures (exists n :: n in heard && n.channel == Some(c)) <==> c in Channels(heard)
    {
      if n :| n in heard && n.channel == Some(c) {
        assert n.channel.value in Channels(heard);
      }
    }
    forall c | c in Candidates(heard, row.band, row.current) && row.recommended != row.current
      && Load(heard, row.band, c) == row.load
      ensures row.recommended <= c
    {
      assert NoWorse(heard, row.band, row.current, row.recommended, c);
      assert NoWorse(heard, row.band, row.current, row.recommended, row.current);
    }
  }

  // ---- two scans ----------------------------------------------------------------------

  const RADIO: Vap := Vap(Some("ath0"), Some("aa:aa:aa:aa:aa:01"), Some("2.4GHz"), Some(1))

  function Strong(bssid: string, channel: int): Neighbour {
    Neighbour(Some(bssid), Some("2.4GHz"), Some(channel), Some(-50.0))
  }

  /** One strong neighbour on channel 6: 3.0 there, 2.4 and 1.8 beside it, nothing on 1 and 11. */
  lemma {:induction false} OneNeighbourFades()
    ensures var heard := [Strong("11:11:11:11:11:01", 6)];
      && Load(heard, "2.4GHz", 6) == 15
      && Load(heard, "2.4GHz", 5) == 12 == Load(heard, "2.4GHz", 7)
      && Load(heard, "2.4GHz", 4) == 9 == Load(heard, "2.4GHz", 8)
      && Load(heard, "2.4GHz", 1) == 0 == Load(heard, "2.4GHz", 11)
  {
    var heard := [Strong("11:11:11:11:11:01", 6)];
    assert heard[..0] == [];
  }

  /** Neighbours on 3 and 13, none on the grid: both ends of it are polluted, and the advice is channel 6. */
  lemma {:induction false} BleedingMovesTheAdvice(row: Row)
    requires RowFor(row, RADIO, [Strong("11:11:11:11:11:01", 3), Strong("11:11:11:11:11:02", 13)])
    ensures row.recommended == 6 && row.load == 6
    ensures row.occupancy[1] == 9 && row.occupancy[6] == 6 && row.occupancy[11] == 9
  {
    var heard := [Strong("11:11:11:11:11:01", 3), Strong("11:11:11:11:11:02", 13)];
    assert heard[..1] == [heard[0]] && heard[..1][..0] == [];
    forall c | c in {1, 6, 11}
      ensures Load(heard, "2.4GHz", c) == if c == 6 then 6 else 9
    {
      assert Load(heard[..1], "2.4GHz", c) == Weight(heard[0], "2.4GHz", c);
    }
    assert row.recommended in Candidates(heard, "2.4GHz", 1);
    assert NoWorse(heard, "2.4GHz", 1, row.recommended, 6);
  }
}
