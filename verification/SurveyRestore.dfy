/** Surveys written through to disk, and the recommendation cache a restart rebuilds from them. */
module SurveyRestore {
  import opened Common
  import opened Sorting
  import opened SurveyNames
  import ChannelPlan

  type Rows = seq<ChannelPlan.Row>
  type Neighbours = seq<ChannelPlan.Neighbour>
  type Vaps = seq<ChannelPlan.Vap>

  /** What the cache remembers of one device. */
  datatype Entry = Entry(recommendations: Rows, capturedAt: string)

  /** `computed` is missing in files written before the flag existed. */
  datatype Content =
    | Snapshot(recommendations: Rows, computed: Option<bool>, neighbours: Neighbours, vaps: Vaps, capturedAt: string)
    | EmptyState(capturedAt: string, stamp: string)
    | Table(neighbours: Neighbours)
    | Unreadable

  type Directory = map<string, Content>
  type Cache = map<string, Entry>
  datatype Tomb = Tomb(stamp: string, capturedAt: string)

  // ---- writing ------------------------------------------------------------------------

  /** A computed empty answer leaves a tombstone; a survey that saw nothing leaves no snapshot. */
  function WriteSnapshot(
      dir: Directory, dut: string, rows: Rows, neighbours: Neighbours, vaps: Vaps, capturedAt: string, computed: bool,
      tombStamp: string, stamp: string): Directory
  {
    var d1 := if computed && rows == [] then dir[EmptyName(dut) := EmptyState(capturedAt, tombStamp)] else dir;
    if rows == [] && neighbours == [] && vaps == [] then d1
    else
      var d2 := d1[SnapshotName(dut, stamp, Json) := Snapshot(rows, Some(computed), neighbours, vaps, capturedAt)];
      if neighbours == [] then d2 else d2[SnapshotName(dut, stamp, Csv) := Table(neighbours)]
  }

  // ---- reading ------------------------------------------------------------------------

  /** A snapshot file's answer, if it can be read and was computed. */
  function ReadSnapshot(c: Content): Option<Entry> {
    match c
    case Snapshot(rows, computed, _, _, capturedAt) =>
      if computed == Some(false) then None else Some(Entry(rows, capturedAt))
    case EmptyState(capturedAt, _) => Some(Entry([], capturedAt))
    case _ => None
  }

  function EntryAt(dir: Directory, dut: string, stamp: string): Option<Entry> {
    var name := SnapshotName(dut, stamp, Json);
    if name in dir then ReadSnapshot(dir[name]) else None
  }

  function TombAt(dir: Directory, dut: string): Option<Tomb> {
    var name := EmptyName(dut);
    if name in dir && dir[name].EmptyState? then Some(Tomb(dir[name].stamp, dir[name].capturedAt)) else None
  }

  predicate IsJsonName(name: string) { ParseSnapshot(name).Some? && ParseSnapshot(name).value.ext == Json }

  function Stamps(dir: Directory, dut: string): set<string> {
    set name | name in dir && IsJsonName(name) && ParseSnapshot(name).value.dut == dut :: ParseSnapshot(name).value.stamp
  }

  function SnapshotDuts(dir: Directory): set<string> {
    set name | name in dir && IsJsonName(name) :: ParseSnapshot(name).value.dut
  }

  function EmptyDuts(dir: Directory): set<string> {
    set name | name in dir && ParseEmpty(name).Some? :: ParseEmpty(name).value
  }

  function Duts(dir: Directory): set<string> { SnapshotDuts(dir) + EmptyDuts(dir) }

  /** The computed answers on disk for one device, by stamp. */
  function Computed(dir: Directory, dut: string): map<string, Entry> {
    map stamp | stamp in Stamps(dir, dut) && EntryAt(dir, dut, stamp).Some? :: EntryAt(dir, dut, stamp).value
  }

  predicate Before(a: string, b: string) { StrLe(a, b) && a != b }

  ghost predicate TombWins(good: map<string, Entry>, tomb: Option<Tomb>) {
    tomb.Some? && forall u :: u in good ==> Before(u, tomb.value.stamp)
  }

  ghost predicate IsNewest(good: map<string, Entry>, stamp: string) {
    stamp in good && forall u :: u in good ==> StrLe(u, stamp)
  }

  /** In the numbers of the calendar and the clock: every other answer is of an earlier moment. */
  ghost predicate NewestMoment(good: map<string, Entry>, stamp: string) {
    && stamp in good && IsStamp(stamp)
    && forall u :: u in good ==> IsStamp(u) && (u == stamp || Earlier(MomentOf(u), MomentOf(stamp)))
  }

  lemma {:induction false} StampsAreStamps(dir: Directory, dut: string)
    ensures forall u :: u in Stamps(dir, dut) ==> IsStamp(u)
  {
  }

  lemma {:induction false} NewestIsLastMoment(dir: Directory, dut: string, stamp: string)
    requires stamp in Computed(dir, dut)
    ensures IsNewest(Computed(dir, dut), stamp) <==> NewestMoment(Computed(dir, dut), stamp)
  {
    hide Stamps, EntryAt, MomentOf, IsStamp, Earlier;
    StampsAreStamps(dir, dut);
    forall u | u in Computed(dir, dut)
      ensures IsStamp(u) && (StrLe(u, stamp) <==> u == stamp || Earlier(MomentOf(u), MomentOf(stamp)))
    {
      StampsInOrder(u, stamp);
      StrLeTotal(u, u);
    }
  }

  /** A tombstone stands when it is of a later moment than every answer. */
  ghost predicate LaterTomb(good: map<string, Entry>, tomb: Tomb) {
    && IsStamp(tomb.stamp)
    && forall u :: u in good ==> IsStamp(u) && Earlier(MomentOf(u), MomentOf(tomb.stamp))
  }

  lemma {:induction false} TombIsLater(dir: Directory, dut: string, tomb: Tomb)
    requires IsStamp(tomb.stamp)
    ensures TombWins(Computed(dir, dut), Some(tomb)) <==> LaterTomb(Computed(dir, dut), tomb)
  {
    hide Stamps, EntryAt, MomentOf, IsStamp, Earlier;
    StampsAreStamps(dir, dut);
    forall u | u in Computed(dir, dut)
      ensures IsStamp(u) && (Before(u, tomb.stamp) <==> Earlier(MomentOf(u), MomentOf(tomb.stamp)))
    {
      StampsInOrder(u, tomb.stamp);
    }
  }

  /** The newest computed state: a tombstone only when it is strictly newer than every computed snapshot. */
  ghost predicate IsLatest(good: map<string, Entry>, tomb: Option<Tomb>, e: Entry) {
    if TombWins(good, tomb) then e == Entry([], tomb.value.capturedAt)
    else exists stamp :: IsNewest(good, stamp) && good[stamp] == e
  }

  lemma {:induction false} GreatestExists(s: set<string>) returns (top: string)
    requires s != {}
    ensures top in s && forall u :: u in s ==> StrLe(u, top)
    decreases s
  {
    top :| top in s;
    StrLeTotal(top, top);
    if s != {top} {
      var other := GreatestExists(s - {top});
      StrLeTotal(top, other);
      if StrLe(top, other) {
        top := other;
      } else {
        forall u | u in s
          ensures StrLe(u, top)
        {
          if u != top {
            StrLeTransitive(u, other, top);
          }
        }
      }
    }
  }

  lemma {:induction false} LatestExists(good: map<string, Entry>, tomb: Option<Tomb>)
    requires good != map[] || tomb.Some?
    ensures exists e :: IsLatest(good, tomb, e)
  {
    if TombWins(good, tomb) {
      assert IsLatest(good, tomb, Entry([], tomb.value.capturedAt));
    } else {
      var top := GreatestExists(good.Keys);
      assert IsNewest(good, top);
      assert IsLatest(good, tomb, good[top]);
    }
  }

  lemma {:induction false} LatestUnique(good: map<string, Entry>, tomb: Option<Tomb>, a: Entry, b: Entry)
    requires IsLatest(good, tomb, a) && IsLatest(good, tomb, b)
    ensures a == b
  {
    if !TombWins(good, tomb) {
      var s :| IsNewest(good, s) && good[s] == a;
      var t :| IsNewest(good, t) && good[t] == b;
      StrLeAntisymmetric(s, t);
    }
  }

  ghost function Latest(good: map<string, Entry>, tomb: Option<Tomb>): (e: Entry)
    requires good != map[] || tomb.Some?
    ensures IsLatest(good, tomb, e)
  {
    LatestExists(good, tomb);
    var e :| IsLatest(good, tomb, e);
    e
  }

  predicate Remembered(dir: Directory, dut: string) {
    dut in Duts(dir) && (Computed(dir, dut) != map[] || TombAt(dir, dut).Some?)
  }

  /** The cache a restart rebuilds. */
  ghost function Restored(dir: Directory): Cache {
    map dut | dut in Duts(dir) && Remembered(dir, dut) :: Latest(Computed(dir, dut), TombAt(dir, dut))
  }

  /**
    * What a restart restores, in those numbers: the tombstone if it is of a later moment than every computed answer,
    * and if not the answer of the last moment of all.
    */
  ghost predicate ByMoment(dir: Directory, dut: string, e: Entry) {
    var good, tomb := Computed(dir, dut), TombAt(dir, dut);
    (tomb.Some? ==> IsStamp(tomb.value.stamp)) ==>
      if tomb.Some? && LaterTomb(good, tomb.value) then e == Entry([], tomb.value.capturedAt)
      else exists stamp :: NewestMoment(good, stamp) && good[stamp] == e
  }

  lemma {:induction false} RestoredByMoment(dir: Directory, dut: string)
    requires dut in Restored(dir)
    ensures ByMoment(dir, dut, Restored(dir)[dut])
  {
    var good, tomb := Computed(dir, dut), TombAt(dir, dut);
    hide Computed, TombAt, NewestMoment, LaterTomb, IsStamp;
    if tomb.Some? ==> IsStamp(tomb.value.stamp) {
      if tomb.Some? {
        TombIsLater(dir, dut, tomb.value);
      }
      if !TombWins(good, tomb) {
        var stamp :| IsNewest(good, stamp) && good[stamp] == Restored(dir)[dut];
        NewestIsLastMoment(dir, dut, stamp);
      }
    }
  }

  /** A snapshot counts as computed unless it says it is not; what cannot be read says nothing. */
  lemma {:induction false} FilesRead(c: Content, rows: Rows, neighbours: Neighbours, vaps: Vaps, capturedAt: string)
    ensures ReadSnapshot(Snapshot(rows, Some(true), neighbours, vaps, capturedAt)) == Some(Entry(rows, capturedAt))
    ensures ReadSnapshot(Snapshot(rows, None, neighbours, vaps, capturedAt)) == Some(Entry(rows, capturedAt))
    ensures ReadSnapshot(Snapshot(rows, Some(false), neighbours, vaps, capturedAt)) == None
    ensures c.Table? || c.Unreadable? ==> ReadSnapshot(c) == None
  {
  }

  // ---- what is on disk, by name -------------------------------------------------------

  /** The file of one survey. */
  ghost function FileOf(dut: string, stamp: string, ending: string): string { "site-survey-" + dut + "-" + stamp + ending }

  lemma {:induction false} FileNames(dut: string, stamp: string)
    ensures FileOf(dut, stamp, ".json") == SnapshotName(dut, stamp, Json)
    ensures FileOf(dut, stamp, ".csv") == SnapshotName(dut, stamp, Csv)
  {
  }

  /** A computed answer is what a device's snapshot file of that stamp reads as. */
  lemma {:induction false} ComputedIff(dir: Directory, dut: string, stamp: string, e: Entry)
    ensures stamp in Computed(dir, dut) && Computed(dir, dut)[stamp] == e <==>
      && IsStamp(stamp) && dut != "" && '\n' !in dut
      && var file := FileOf(dut, stamp, ".json"); file in dir && ReadSnapshot(dir[file]) == Some(e)
  {
    FileNames(dut, stamp);
    StampIff(dir, dut, stamp);
    hide IsStamp, ReadSnapshot, FileOf, SnapshotName, Stamps;
  }

  lemma {:induction false} StampIff(dir: Directory, dut: string, stamp: string)
    ensures stamp in Stamps(dir, dut) <==> IsStamp(stamp) && IsDutPart(dut) && SnapshotName(dut, stamp, Json) in dir
  {
    hide IsStamp, IsDutPart, SnapshotName, ParseSnapshot;
    if stamp in Stamps(dir, dut) {
      StampOfName(dir, dut, stamp);
    }
    if IsStamp(stamp) && IsDutPart(dut) && SnapshotName(dut, stamp, Json) in dir {
      ParseUndoesName(dut, stamp, Json);
      assert IsJsonName(SnapshotName(dut, stamp, Json));
    }
  }

  lemma {:induction false} TombIff(dir: Directory, dut: string, tomb: Tomb)
    ensures TombAt(dir, dut) == Some(tomb) <==>
            var file := "site-survey-" + dut + ".empty.json"; file in dir && dir[file] == EmptyState(tomb.capturedAt, tomb.stamp)
  {
  }

  /** A device is remembered exactly when it has a computed answer or a tombstone, and a name files can be named by. */
  lemma {:induction false} RestoredIff(dir: Directory, dut: string)
    ensures dut in Restored(dir) <==>
      IsDutPart(dut) && (TombAt(dir, dut).Some? || exists stamp :: stamp in Computed(dir, dut))
  {
    hide IsStamp, IsDutPart, SnapshotName, EmptyName, ParseSnapshot, ParseEmpty, EntryAt, IsLatest;
    assert Computed(dir, dut) == map[] <==> forall stamp :: stamp !in Computed(dir, dut);
    if stamp :| stamp in Computed(dir, dut) {
      assert stamp in Stamps(dir, dut);
      StampIff(dir, dut, stamp);
    }
    if IsDutPart(dut) && TombAt(dir, dut).Some? {
      EmptyParses(dut);
      assert EmptyName(dut) in dir;
    }
    if dut in Duts(dir) {
      DutIsPart(dir, dut);
    }
  }

  lemma {:induction false} DutIsPart(dir: Directory, dut: string)
    requires dut in Duts(dir)
    ensures IsDutPart(dut)
  {
    hide IsStamp, IsDutPart, SnapshotName, ParseSnapshot;
    if dut in SnapshotDuts(dir) {
      var name :| name in dir && IsJsonName(name) && ParseSnapshot(name).value.dut == dut;
      NameUndoesParse(name);
    }
  }

  /** Every file besides three is as it was. */
  ghost predicate OtherFilesStay(a: Directory, b: Directory, files: set<string>) {
    forall file :: file !in files ==> (file in a <==> file in b) && (file in a ==> a[file] == b[file])
  }

  /**
    * A write leaves a tombstone if the answer is computed and empty, a snapshot unless nothing at all was seen, and a
    * table if there are neighbours; and it leaves every other file alone.
    */
  lemma {:induction false} WrittenFiles(
      dir: Directory, dut: string, rows: Rows, neighbours: Neighbours, vaps: Vaps, capturedAt: string, computed: bool,
      tombStamp: string, stamp: string)
    requires IsStamp(stamp)
    ensures var after := WriteSnapshot(dir, dut, rows, neighbours, vaps, capturedAt, computed, tombStamp, stamp);
      var json, csv, empty := FileOf(dut, stamp, ".json"), FileOf(dut, stamp, ".csv"), "site-survey-" + dut + ".empty.json";
      && OtherFilesStay(dir, after, {json, csv, empty})
      && (if computed && rows == [] then empty in after && after[empty] == EmptyState(capturedAt, tombStamp)
          else OtherFilesStay(dir, after, {json, csv}))
      && (if rows == [] && neighbours == [] && vaps == [] then OtherFilesStay(dir, after, {empty})
          else json in after && after[json] == Snapshot(rows, Some(computed), neighbours, vaps, capturedAt))
      && (if neighbours == [] then OtherFilesStay(dir, after, {json, empty}) else csv in after && after[csv] == Table(neighbours))
  {
    FileNames(dut, stamp);
    assert "site-survey-" + dut + ".empty.json" == EmptyName(dut);
    NamesApart(dut, stamp);
    hide SnapshotName, EmptyName, FileOf, IsStamp;
  }

  lemma {:induction false} NamesApart(dut: string, stamp: string)
    requires IsStamp(stamp)
    ensures SnapshotName(dut, stamp, Json) != EmptyName(dut) && SnapshotName(dut, stamp, Csv) != EmptyName(dut)
    ensures SnapshotName(dut, stamp, Json) != SnapshotName(dut, stamp, Csv)
  {
    LastOfStamp(dut, stamp, Json);
    LastOfStamp(dut, stamp, Csv);
    var json, csv, empty := SnapshotName(dut, stamp, Json), SnapshotName(dut, stamp, Csv), EmptyName(dut);
    assert EndsWith(empty, EMPTY_SUFFIX);
    assert json[|json| - 1] == 'n' && csv[|csv| - 1] == 'v';
  }

  // ---- the program --------------------------------------------------------------------

  /** Newest first, passing over what is unreadable or was never computed. */
  method NewestComputed(dir: Directory, dut: string, stamps: set<string>) returns (r: Option<(string, Entry)>)
    requires stamps == Stamps(dir, dut)
    ensures r.None? ==> Computed(dir, dut) == map[]
    ensures r.Some? ==> IsNewest(Computed(dir, dut), r.value.0) && Computed(dir, dut)[r.value.0] == r.value.1
    ensures r.Some? ==> NewestMoment(Computed(dir, dut), r.value.0)
  {
    var todo := stamps;
    while todo != {}
      invariant todo <= stamps
      invariant forall u :: u in stamps && u !in todo ==> EntryAt(dir, dut, u).None?
      decreases todo
    {
      ghost var top := GreatestExists(todo);
      var stamp :| stamp in todo && forall u :: u in todo ==> StrLe(u, stamp);
      var e := EntryAt(dir, dut, stamp);
      if e.Some? {
        assert IsNewest(Computed(dir, dut), stamp);
        NewestIsLastMoment(dir, dut, stamp);
        return Some((stamp, e.value));
      }
      todo := todo - {stamp};
    }
    return None;
  }

  class Surveys {
    var dir: Directory
    var cache: Cache

    constructor (dir: Directory)
      ensures this.dir == dir && cache == map[]
    {
      this.dir, cache := dir, map[];
    }

    method RememberRecommendation(dut: string, rows: Rows, capturedAt: string)
      modifies this`cache
      ensures cache == old(cache)[dut := Entry(rows, capturedAt)]
    {
      cache := cache[dut := Entry(rows, capturedAt)];
    }

    method WriteEmptyState(dut: string, capturedAt: string, stamp: string)
      modifies this`dir
      ensures dir == old(dir)[EmptyName(dut) := EmptyState(capturedAt, stamp)]
    {
      dir := dir[EmptyName(dut) := EmptyState(capturedAt, stamp)];
    }

    method Write(
        dut: string, rows: Rows, neighbours: Neighbours, vaps: Vaps, capturedAt: string, computed: bool,
        tombStamp: string, stamp: string)
      modifies this`dir
      ensures dir == WriteSnapshot(old(dir), dut, rows, neighbours, vaps, capturedAt, computed, tombStamp, stamp)
    {
      if computed && rows == [] {
        WriteEmptyState(dut, capturedAt, tombStamp);
      }
      if rows == [] && neighbours == [] && vaps == [] {
        return;
      }
      dir := dir[SnapshotName(dut, stamp, Json) := Snapshot(rows, Some(computed), neighbours, vaps, capturedAt)];
      if neighbours == [] {
        return;
      }
      dir := dir[SnapshotName(dut, stamp, Csv) := Table(neighbours)];
    }

    /** Into an empty cache: every device's newest computed state, and nothing else. */
    method RestoreCache()
      requires cache == map[]
      modifies this`cache
      ensures cache == Restored(dir)
      ensures forall dut :: dut in cache ==> ByMoment(dir, dut, cache[dut])
    {
      var todo := Duts(dir);
      while todo != {}
        invariant todo <= Duts(dir)
        invariant cache.Keys <= Duts(dir) - todo
        invariant forall d :: d in Duts(dir) - todo ==> (d in cache <==> Remembered(dir, d))
        invariant forall d :: d in cache ==> IsLatest(Computed(dir, d), TombAt(dir, d), cache[d])
        decreases todo
      {
        var dut :| dut in todo;
        var newest := NewestComputed(dir, dut, Stamps(dir, dut));
        var tomb := TombAt(dir, dut);
        ghost var good := Computed(dir, dut);
        if tomb.Some? && (newest.None? || Before(newest.value.0, tomb.value.stamp)) {
          assert TombWins(good, tomb) by {
            if newest.Some? {
              BeforeAll(good, newest.value.0, tomb.value.stamp);
            }
          }
          RememberRecommendation(dut, [], tomb.value.capturedAt);
        } else if newest.Some? {
          assert !TombWins(good, tomb);
          assert IsNewest(good, newest.value.0);
          RememberRecommendation(dut, newest.value.1.recommendations, newest.value.1.capturedAt);
        }
        todo := todo - {dut};
      }
      assert Duts(dir) - {} == Duts(dir);
      forall d | d in cache
        ensures d in Restored(dir) && cache[d] == Restored(dir)[d]
      {
        LatestUnique(Computed(dir, d), TombAt(dir, d), cache[d], Restored(dir)[d]);
      }
      forall d | d in cache
        ensures ByMoment(dir, d, cache[d])
      {
        RestoredByMoment(dir, d);
      }
    }
  }

  lemma {:induction false} BeforeAll(good: map<string, Entry>, top: string, stamp: string)
    requires IsNewest(good, top) && Before(top, stamp)
    ensures forall u :: u in good ==> Before(u, stamp)
  {
    forall u | u in good
      ensures Before(u, stamp)
    {
      BeforeTransitive(u, top, stamp);
    }
  }

  lemma {:induction false} BeforeTransitive(a: string, b: string, c: string)
    requires StrLe(a, b) && Before(b, c)
    ensures Before(a, c)
  {
    StrLeTransitive(a, b, c);
    if a == c {
      StrLeAntisymmetric(a, b);
    }
  }

  // ---- what a write changes -----------------------------------------------------------

  lemma {:induction false} WriteJson(dir: Directory, dut: string, stamp: string, c: Content, other: string)
    requires IsDutPart(dut) && IsStamp(stamp)
    ensures var after := dir[SnapshotName(dut, stamp, Json) := c];
      && Stamps(after, other) == Stamps(dir, other) + (if other == dut then {stamp} else {})
      && Duts(after) == Duts(dir) + {dut}
      && TombAt(after, other) == TombAt(dir, other)
  {
    var name := SnapshotName(dut, stamp, Json);
    var after := dir[name := c];
    ParseUndoesName(dut, stamp, Json);
    SnapshotIsNoTombstone(name);
    assert name in after;
    assert forall n :: n in after <==> n in dir || n == name;
    assert EmptyName(other) != name by {
      EmptyNameEnds(other);
      if EmptyName(other) == name {
        TombstoneIsNoSnapshot(name);
      }
    }
  }

  lemma {:induction false} EmptyNameEnds(dut: string)
    ensures EndsWith(EmptyName(dut), EMPTY_SUFFIX)
  {
  }

  /** A table of neighbours never bears on what is restored. */
  lemma {:induction false} WriteCsv(dir: Directory, dut: string, stamp: string, c: Content, other: string)
    requires IsDutPart(dut) && IsStamp(stamp)
    ensures var after := dir[SnapshotName(dut, stamp, Csv) := c];
      && Stamps(after, other) == Stamps(dir, other)
      && Duts(after) == Duts(dir)
      && TombAt(after, other) == TombAt(dir, other)
      && Computed(after, other) == Computed(dir, other)
  {
    hide SnapshotName;
    var after := dir[SnapshotName(dut, stamp, Csv) := c];
    CsvIsNoSnapshot(dir, dut, stamp, c, other);
    EmptyNameDiffersFrom(other, dut, stamp, Csv);
    forall u | u in Stamps(dir, other)
      ensures EntryAt(after, other, u) == EntryAt(dir, other, u)
    {
      OtherEntry(dir, dut, stamp, Csv, c, other, u);
    }
  }

  lemma {:induction false} EmptyNameDiffersFrom(other: string, dut: string, stamp: string, ext: Extension)
    requires IsDutPart(dut) && IsStamp(stamp)
    ensures EmptyName(other) != SnapshotName(dut, stamp, ext)
  {
    ParseUndoesName(dut, stamp, ext);
    EmptyNameDiffers(other, SnapshotName(dut, stamp, ext));
  }

  lemma {:induction false} CsvIsNoSnapshot(dir: Directory, dut: string, stamp: string, c: Content, other: string)
    requires IsDutPart(dut) && IsStamp(stamp)
    ensures var after := dir[SnapshotName(dut, stamp, Csv) := c];
      Stamps(after, other) == Stamps(dir, other) && Duts(after) == Duts(dir)
  {
    var name := SnapshotName(dut, stamp, Csv);
    ParseUndoesName(dut, stamp, Csv);
    SnapshotIsNoTombstone(name);
    assert forall n :: n in dir[name := c] <==> n in dir || n == name;
  }

  /** Writing one snapshot file leaves every other one as it was. */
  lemma {:induction false} OtherEntry(
      dir: Directory, dut: string, stamp: string, ext: Extension, c: Content, other: string, u: string)
    requires IsDutPart(dut) && IsStamp(stamp) && u in Stamps(dir, other) && (other, u, Json) != (dut, stamp, ext)
    ensures EntryAt(dir[SnapshotName(dut, stamp, ext) := c], other, u) == EntryAt(dir, other, u)
  {
    StampOfName(dir, other, u);
    ParseUndoesName(other, u, Json);
    ParseUndoesName(dut, stamp, ext);
  }

  lemma {:induction false} StampOfName(dir: Directory, dut: string, stamp: string)
    requires stamp in Stamps(dir, dut)
    ensures IsDutPart(dut) && IsStamp(stamp) && SnapshotName(dut, stamp, Json) in dir
  {
    var name :| name in dir && IsJsonName(name) && ParseSnapshot(name).value.dut == dut
      && ParseSnapshot(name).value.stamp == stamp;
    NameUndoesParse(name);
  }

  lemma {:induction false} EmptyNameDiffers(dut: string, name: string)
    requires ParseSnapshot(name).Some?
    ensures EmptyName(dut) != name
  {
    EmptyNameEnds(dut);
    if EmptyName(dut) == name {
      TombstoneIsNoSnapshot(name);
      assert false;
    }
  }

  lemma {:induction false} WriteTomb(dir: Directory, dut: string, c: Content, other: string)
    requires IsDutPart(dut)
    ensures var after := dir[EmptyName(dut) := c];
      && Stamps(after, other) == Stamps(dir, other)
      && Duts(after) == Duts(dir) + {dut}
      && TombAt(after, other) ==
           (if other != dut then TombAt(dir, other)
            else if c.EmptyState? then Some(Tomb(c.stamp, c.capturedAt)) else None)
      && Computed(after, other) == Computed(dir, other)
  {
    var name := EmptyName(dut);
    var after := dir[name := c];
    EmptyParses(dut);
    assert name in after;
    assert forall n :: n in after <==> n in dir || n == name;
    if EmptyName(other) == name {
      EmptyNamesDiffer(other, dut);
    }
    forall u | u in Stamps(dir, other)
      ensures EntryAt(after, other, u) == EntryAt(dir, other, u)
    {
      StampOfName(dir, other, u);
      ParseUndoesName(other, u, Json);
    }
  }

  /** A snapshot file decides its own stamp: its answer if it has one, none otherwise. Nothing else moves. */
  lemma {:induction false} WriteJsonComputed(dir: Directory, dut: string, stamp: string, c: Content, other: string)
    requires IsDutPart(dut) && IsStamp(stamp)
    ensures var after := dir[SnapshotName(dut, stamp, Json) := c];
      Computed(after, other) ==
      if other != dut then Computed(dir, other)
      else if ReadSnapshot(c).Some? then Computed(dir, other)[stamp := ReadSnapshot(c).value]
      else Computed(dir, other) - {stamp}
  {
    hide Stamps, SnapshotName, TombAt, Duts;
    var after := dir[SnapshotName(dut, stamp, Json) := c];
    WriteJson(dir, dut, stamp, c, other);
    forall u | u in Stamps(dir, other) && (other != dut || u != stamp)
      ensures EntryAt(after, other, u) == EntryAt(dir, other, u)
    {
      OtherEntry(dir, dut, stamp, Json, c, other, u);
    }
  }
}
