/** Restart equivalence of the recommendation cache: exactly which writes keep it, over every run. */
module SurveyRestart {
  import opened Common
  import opened Sorting
  import opened SurveyNames
  import opened SurveyRestore

  type Answers = map<string, Entry>

  // ---- one device's answers, as values ------------------------------------------------

  /** What the answers and the tombstone of one device come to. */
  ghost function Answer(good: Answers, tomb: Option<Tomb>): Option<Entry> {
    if good == map[] && tomb.None? then None else Some(Latest(good, tomb))
  }

  ghost predicate Says(good: Answers, tomb: Option<Tomb>, e: Entry) { Answer(good, tomb) == Some(e) }

  /** Nothing answered or came up empty after `stamp`. */
  ghost predicate Foremost(good: Answers, tomb: Option<Tomb>, stamp: string) {
    (forall u :: u in good ==> StrLe(u, stamp)) && (tomb.Some? ==> StrLe(tomb.value.stamp, stamp))
  }

  /** The answer under `stamp` is the one that is shown. */
  ghost predicate Shown(good: Answers, tomb: Option<Tomb>, stamp: string) {
    IsNewest(good, stamp) && !TombWins(good, tomb)
  }

  lemma {:induction false} SaysIff(good: Answers, tomb: Option<Tomb>, e: Entry)
    ensures Says(good, tomb, e) <==> (good != map[] || tomb.Some?) && IsLatest(good, tomb, e)
  {
    if (good != map[] || tomb.Some?) && IsLatest(good, tomb, e) {
      LatestUnique(good, tomb, e, Latest(good, tomb));
    }
  }

  lemma {:induction false} ShownSays(good: Answers, tomb: Option<Tomb>, stamp: string)
    requires Shown(good, tomb, stamp)
    ensures Says(good, tomb, good[stamp])
  {
    SaysIff(good, tomb, good[stamp]);
  }

  /** Something is shown: the tombstone or the newest answer. */
  lemma {:induction false} ShownExists(good: Answers, tomb: Option<Tomb>) returns (stamp: string)
    requires !TombWins(good, tomb) && good != map[]
    ensures Shown(good, tomb, stamp)
  {
    stamp := GreatestExists(good.Keys);
  }

  /** An answer above `stamp`, or a tombstone above everything, is shown with or without the one under `stamp`. */
  lemma {:induction false} AboveStays(good: Answers, tomb: Option<Tomb>, stamp: string, e: Entry)
    requires stamp !in good && !Foremost(good, tomb, stamp)
    ensures Answer(good[stamp := e], tomb) == Answer(good, tomb)
  {
    var more := good[stamp := e];
    if TombWins(more, tomb) {
      assert TombWins(good, tomb);
      SaysIff(good, tomb, Entry([], tomb.value.capturedAt));
      SaysIff(more, tomb, Entry([], tomb.value.capturedAt));
    } else {
      assert stamp in more;
      var top := ShownExists(more, tomb);
      TopIsAbove(good, tomb, stamp, e, top);
      assert good[top] == more[top];
      ShownSays(more, tomb, top);
      ShownSays(good, tomb, top);
    }
  }

  lemma {:induction false} TopIsAbove(good: Answers, tomb: Option<Tomb>, stamp: string, e: Entry, top: string)
    requires stamp !in good && !Foremost(good, tomb, stamp) && Shown(good[stamp := e], tomb, top)
    ensures top != stamp && Shown(good, tomb, top)
  {
    var more := good[stamp := e];
    assert forall u :: u in good ==> u in more && StrLe(u, top);
    if top == stamp {
      if tomb.Some? {
        StrLeTotal(tomb.value.stamp, stamp);
        BeforeAll(more, top, tomb.value.stamp);
      }
      assert false;
    }
    assert IsNewest(good, top) by {
      forall u | u in good
        ensures StrLe(u, top)
      {
        assert u in more;
      }
    }
    if TombWins(good, tomb) {
      assert stamp in more && StrLe(stamp, top);
      BeforeAll(more, top, tomb.value.stamp);
      assert false;
    }
  }

  /** An answer written under `stamp` is what is shown if and only if nothing is later, or what is later says the same. */
  lemma {:induction false} PutIff(good: Answers, tomb: Option<Tomb>, stamp: string, e: Entry)
    requires stamp !in good
    ensures Says(good[stamp := e], tomb, e) <==> Foremost(good, tomb, stamp) || Says(good, tomb, e)
  {
    if Foremost(good, tomb, stamp) {
      NewestIsLatest(good, tomb, stamp, e);
      SaysIff(good[stamp := e], tomb, e);
    } else {
      AboveStays(good, tomb, stamp, e);
    }
  }

  /** A snapshot no older than anything else, its own call's tombstone included, is the latest state. */
  lemma {:induction false} NewestIsLatest(good: Answers, tomb: Option<Tomb>, stamp: string, e: Entry)
    requires Foremost(good, tomb, stamp)
    ensures IsLatest(good[stamp := e], tomb, e)
  {
    var after := good[stamp := e];
    StrLeTotal(stamp, stamp);
    assert IsNewest(after, stamp);
    if TombWins(after, tomb) {
      assert Before(stamp, tomb.value.stamp);
      StrLeAntisymmetric(stamp, tomb.value.stamp);
    }
  }

  /** A tombstone is what is shown if and only if every answer is strictly older, or the newest one is as empty. */
  lemma {:induction false} TombIff(good: Answers, tomb: Tomb)
    ensures Says(good, Some(tomb), Entry([], tomb.capturedAt)) <==>
      || (forall u :: u in good ==> Before(u, tomb.stamp))
      || exists u :: IsNewest(good, u) && good[u] == Entry([], tomb.capturedAt)
  {
    SaysIff(good, Some(tomb), Entry([], tomb.capturedAt));
  }

  /** Taking the answer under `stamp` away changes nothing if and only if it was not shown, or the rest says the same. */
  lemma {:induction false} DropIff(good: Answers, tomb: Option<Tomb>, stamp: string)
    ensures Answer(good - {stamp}, tomb) == Answer(good, tomb) <==>
      !Shown(good, tomb, stamp) || Says(good - {stamp}, tomb, good[stamp])
  {
    var rest := good - {stamp};
    if stamp !in good {
      assert rest == good;
    } else {
      assert rest[stamp := good[stamp]] == good;
      if Shown(good, tomb, stamp) {
        ShownSays(good, tomb, stamp);
      } else {
        NotShownIsBelow(good, tomb, stamp);
        AboveStays(rest, tomb, stamp, good[stamp]);
      }
    }
  }

  lemma {:induction false} NotShownIsBelow(good: Answers, tomb: Option<Tomb>, stamp: string)
    requires stamp in good && !Shown(good, tomb, stamp)
    ensures !Foremost(good - {stamp}, tomb, stamp)
  {
    StrLeTotal(stamp, stamp);
    if Foremost(good - {stamp}, tomb, stamp) {
      assert IsNewest(good, stamp);
      assert TombWins(good, tomb);
      StrLeAntisymmetric(stamp, tomb.value.stamp);
    }
  }

  // ---- one device, on disk ------------------------------------------------------------

  function LookUp(cache: Cache, dut: string): Option<Entry> { if dut in cache then Some(cache[dut]) else None }

  /** What a restart gives one device. */
  ghost function Disk(dir: Directory, dut: string): Option<Entry> { LookUp(Restored(dir), dut) }

  lemma {:induction false} SameLookUps(a: Cache, b: Cache)
    requires forall dut :: LookUp(a, dut) == LookUp(b, dut)
    ensures a == b
  {
    forall dut
      ensures (dut in a <==> dut in b) && (dut in a ==> a[dut] == b[dut])
    {
      assert LookUp(a, dut) == LookUp(b, dut);
    }
  }

  /** A device with an answer or a tombstone on disk is always found, if its id can stand in a name at all. */
  lemma {:induction false} DiskIsAnswer(dir: Directory, dut: string)
    requires IsDutPart(dut)
    ensures Disk(dir, dut) == Answer(Computed(dir, dut), TombAt(dir, dut))
  {
    if Computed(dir, dut) != map[] {
      var u :| u in Computed(dir, dut);
      assert u in Stamps(dir, dut);
      assert dut in SnapshotDuts(dir);
    }
    if TombAt(dir, dut).Some? {
      EmptyParses(dut);
      assert dut in EmptyDuts(dir);
    }
  }

  lemma {:induction false} StrayIsNotFound(dir: Directory, dut: string)
    requires !IsDutPart(dut)
    ensures Disk(dir, dut) == None
  {
    if dut in SnapshotDuts(dir) {
      var name :| name in dir && IsJsonName(name) && ParseSnapshot(name).value.dut == dut;
      NameUndoesParse(name);
    }
  }

  lemma {:induction false} SameFilesSameDisk(a: Directory, b: Directory, dut: string)
    requires IsDutPart(dut) ==> Computed(a, dut) == Computed(b, dut) && TombAt(a, dut) == TombAt(b, dut)
    ensures Disk(a, dut) == Disk(b, dut)
  {
    hide Disk, Computed, TombAt;
    if IsDutPart(dut) {
      DiskIsAnswer(a, dut);
      DiskIsAnswer(b, dut);
    } else {
      StrayIsNotFound(a, dut);
      StrayIsNotFound(b, dut);
    }
  }

  // ---- what one write leaves ----------------------------------------------------------

  ghost function AnswersAfter(good: Answers, rows: Rows, neighbours: Neighbours, vaps: Vaps, capturedAt: string,
                              computed: bool, stamp: string): Answers {
    if rows == [] && neighbours == [] && vaps == [] then good
    else if computed then good[stamp := Entry(rows, capturedAt)]
    else good - {stamp}
  }

  ghost function TombAfter(tomb: Option<Tomb>, rows: Rows, capturedAt: string, computed: bool, tombStamp: string)
    : Option<Tomb>
  {
    if computed && rows == [] then Some(Tomb(tombStamp, capturedAt)) else tomb
  }

  lemma {:induction false} WriteLeaves(
      dir: Directory, dut: string, rows: Rows, neighbours: Neighbours, vaps: Vaps, capturedAt: string, computed: bool,
      tombStamp: string, stamp: string, other: string)
    requires IsDutPart(dut) && IsStamp(stamp)
    ensures var after := WriteSnapshot(dir, dut, rows, neighbours, vaps, capturedAt, computed, tombStamp, stamp);
      && Computed(after, other) ==
           (if other != dut then Computed(dir, other)
            else AnswersAfter(Computed(dir, dut), rows, neighbours, vaps, capturedAt, computed, stamp))
      && TombAt(after, other) ==
           (if other != dut then TombAt(dir, other) else TombAfter(TombAt(dir, dut), rows, capturedAt, computed, tombStamp))
  {
    hide Computed, TombAt, Stamps, Duts, SnapshotName, EmptyName;
    var d1 := if computed && rows == [] then dir[EmptyName(dut) := EmptyState(capturedAt, tombStamp)] else dir;
    WriteTomb(dir, dut, EmptyState(capturedAt, tombStamp), other);
    var c := Snapshot(rows, Some(computed), neighbours, vaps, capturedAt);
    WriteJson(d1, dut, stamp, c, other);
    WriteJsonComputed(d1, dut, stamp, c, other);
    WriteCsv(d1[SnapshotName(dut, stamp, Json) := c], dut, stamp, Table(neighbours), other);
  }

  /** A file no pattern reads bears on nobody. */
  lemma {:induction false} StrayFile(dir: Directory, name: string, c: Content, other: string)
    requires ParseSnapshot(name).None? && ParseEmpty(name).None? && IsDutPart(other)
    ensures var after := dir[name := c];
      Computed(after, other) == Computed(dir, other) && TombAt(after, other) == TombAt(dir, other)
  {
    var after := dir[name := c];
    assert forall n :: n in after <==> n in dir || n == name;
    EmptyParses(other);
    assert Stamps(after, other) == Stamps(dir, other);
    forall u | u in Stamps(dir, other)
      ensures EntryAt(after, other, u) == EntryAt(dir, other, u)
    {
      StampOfName(dir, other, u);
      ParseUndoesName(other, u, Json);
    }
  }

  lemma {:induction false} StrayWrite(
      dir: Directory, dut: string, rows: Rows, neighbours: Neighbours, vaps: Vaps, capturedAt: string, computed: bool,
      tombStamp: string, stamp: string, other: string)
    requires !IsDutPart(dut) && IsStamp(stamp)
    ensures Disk(WriteSnapshot(dir, dut, rows, neighbours, vaps, capturedAt, computed, tombStamp, stamp), other) ==
      Disk(dir, other)
  {
    hide Computed, TombAt, Disk, SnapshotName, EmptyName;
    var after := WriteSnapshot(dir, dut, rows, neighbours, vaps, capturedAt, computed, tombStamp, stamp);
    if IsDutPart(other) {
      StrayEmptyName(dut);
      StrayName(dut, stamp, Json);
      StrayName(dut, stamp, Csv);
      var d1 := if computed && rows == [] then dir[EmptyName(dut) := EmptyState(capturedAt, tombStamp)] else dir;
      StrayFile(dir, EmptyName(dut), EmptyState(capturedAt, tombStamp), other);
      var c := Snapshot(rows, Some(computed), neighbours, vaps, capturedAt);
      StrayFile(d1, SnapshotName(dut, stamp, Json), c, other);
      StrayFile(d1[SnapshotName(dut, stamp, Json) := c], SnapshotName(dut, stamp, Csv), Table(neighbours), other);
    }
    SameFilesSameDisk(dir, after, other);
  }

  /** A device the write is not about keeps what it is restored to, whatever the stamps. */
  lemma {:induction false} OthersKeep(
      dir: Directory, dut: string, rows: Rows, neighbours: Neighbours, vaps: Vaps, capturedAt: string, computed: bool,
      tombStamp: string, stamp: string, other: string)
    requires IsStamp(stamp) && other != dut
    ensures Disk(WriteSnapshot(dir, dut, rows, neighbours, vaps, capturedAt, computed, tombStamp, stamp), other) ==
      Disk(dir, other)
  {
    hide Computed, TombAt, Disk, WriteSnapshot;
    if IsDutPart(dut) {
      WriteLeaves(dir, dut, rows, neighbours, vaps, capturedAt, computed, tombStamp, stamp, other);
      SameFilesSameDisk(
        dir, WriteSnapshot(dir, dut, rows, neighbours, vaps, capturedAt, computed, tombStamp, stamp), other);
    } else {
      StrayWrite(dir, dut, rows, neighbours, vaps, capturedAt, computed, tombStamp, stamp, other);
    }
  }

  // ---- exactly when a write is restored -----------------------------------------------

  /**
    * When a computed answer will be what its device is restored to. An answer that leaves only a tombstone must be
    * strictly later than every answer on disk; one that leaves a snapshot no earlier than any other and than the
    * tombstone. Or what would be shown instead says the same anyway.
    */
  ghost predicate Lands(good: Answers, tomb: Option<Tomb>, rows: Rows, neighbours: Neighbours, vaps: Vaps,
                        capturedAt: string, tombStamp: string, stamp: string) {
    var e := Entry(rows, capturedAt);
    if rows == [] && neighbours == [] && vaps == [] then
      || (forall u :: u in good ==> Before(u, tombStamp))
      || exists u :: IsNewest(good, u) && good[u] == e
    else
      var mark := TombAfter(tomb, rows, capturedAt, true, tombStamp);
      Foremost(good - {stamp}, mark, stamp) || Says(good - {stamp}, mark, e)
  }

  lemma {:induction false} RecommendGivesIff(
      dir: Directory, dut: string, rows: Rows, neighbours: Neighbours, vaps: Vaps, capturedAt: string,
      tombStamp: string, stamp: string)
    requires IsStamp(stamp)
    ensures Disk(WriteSnapshot(dir, dut, rows, neighbours, vaps, capturedAt, true, tombStamp, stamp), dut) ==
              Some(Entry(rows, capturedAt)) <==>
            IsDutPart(dut) &&
            Lands(Computed(dir, dut), TombAt(dir, dut), rows, neighbours, vaps, capturedAt, tombStamp, stamp)
  {
    hide Computed, TombAt, Disk, WriteSnapshot;
    var after := WriteSnapshot(dir, dut, rows, neighbours, vaps, capturedAt, true, tombStamp, stamp);
    if IsDutPart(dut) {
      WriteLeaves(dir, dut, rows, neighbours, vaps, capturedAt, true, tombStamp, stamp, dut);
      DiskIsAnswer(after, dut);
      LandsIff(Computed(dir, dut), TombAt(dir, dut), rows, neighbours, vaps, capturedAt, tombStamp, stamp);
    } else {
      StrayIsNotFound(after, dut);
    }
  }

  lemma {:induction false} LandsIff(
      good: Answers, tomb: Option<Tomb>, rows: Rows, neighbours: Neighbours, vaps: Vaps, capturedAt: string,
      tombStamp: string, stamp: string)
    ensures Says(AnswersAfter(good, rows, neighbours, vaps, capturedAt, true, stamp),
                 TombAfter(tomb, rows, capturedAt, true, tombStamp), Entry(rows, capturedAt)) <==>
            Lands(good, tomb, rows, neighbours, vaps, capturedAt, tombStamp, stamp)
  {
    hide Answer, IsLatest;
    var e := Entry(rows, capturedAt);
    if rows == [] && neighbours == [] && vaps == [] {
      TombIff(good, Tomb(tombStamp, capturedAt));
    } else {
      PutIff(good - {stamp}, TombAfter(tomb, rows, capturedAt, true, tombStamp), stamp, e);
      assert (good - {stamp})[stamp := e] == good[stamp := e];
    }
  }

  /** When a survey that computed nothing leaves its device's answer alone: it must not overwrite the one shown. */
  ghost predicate Spares(good: Answers, tomb: Option<Tomb>, neighbours: Neighbours, vaps: Vaps, stamp: string) {
    || (neighbours == [] && vaps == [])
    || !Shown(good, tomb, stamp)
    || Says(good - {stamp}, tomb, good[stamp])
  }

  lemma {:induction false} SurveyGivesIff(
      dir: Directory, dut: string, neighbours: Neighbours, vaps: Vaps, capturedAt: string, stamp: string)
    requires IsStamp(stamp)
    ensures Disk(WriteSnapshot(dir, dut, [], neighbours, vaps, capturedAt, false, stamp, stamp), dut) == Disk(dir, dut) <==>
            !IsDutPart(dut) || Spares(Computed(dir, dut), TombAt(dir, dut), neighbours, vaps, stamp)
  {
    hide Computed, TombAt, Disk, WriteSnapshot, Answer, Shown;
    var after := WriteSnapshot(dir, dut, [], neighbours, vaps, capturedAt, false, stamp, stamp);
    if IsDutPart(dut) {
      WriteLeaves(dir, dut, [], neighbours, vaps, capturedAt, false, stamp, stamp, dut);
      DiskIsAnswer(after, dut);
      DiskIsAnswer(dir, dut);
      DropIff(Computed(dir, dut), TombAt(dir, dut), stamp);
    } else {
      StrayWrite(dir, dut, [], neighbours, vaps, capturedAt, false, stamp, stamp, dut);
    }
  }

  // ---- runs ---------------------------------------------------------------------------

  /**
    * What can happen between two starts. A recommendation that ran leaves its result in the cache and on disk; a
    * bare survey only on disk. The two stamps of one write are two readings of the clock.
    */
  datatype Op =
    | Recommend(dut: string, rows: Rows, neighbours: Neighbours, vaps: Vaps, capturedAt: string,
                tombStamp: string, stamp: string)
    | Survey(dut: string, neighbours: Neighbours, vaps: Vaps, capturedAt: string, stamp: string)
    | Restart

  datatype State = State(dir: Directory, cache: Cache)

  ghost function Step(st: State, op: Op): State {
    match op
    case Recommend(dut, rows, neighbours, vaps, capturedAt, tombStamp, stamp) =>
      State(WriteSnapshot(st.dir, dut, rows, neighbours, vaps, capturedAt, true, tombStamp, stamp),
            st.cache[dut := Entry(rows, capturedAt)])
    case Survey(dut, neighbours, vaps, capturedAt, stamp) =>
      st.(dir := WriteSnapshot(st.dir, dut, [], neighbours, vaps, capturedAt, false, stamp, stamp))
    case Restart => st.(cache := Restored(st.dir))
  }

  ghost function Run(st: State, ops: seq<Op>): State
    decreases |ops|
  {
    if ops == [] then st else Step(Run(st, ops[..|ops| - 1]), ops[|ops| - 1])
  }

  /** The clock reads like a clock. */
  predicate Stamped(op: Op) { op.Restart? || IsStamp(op.stamp) }

  /** A restart at this moment would rebuild exactly the cache there is. */
  ghost predicate Faithful(st: State) { st.cache == Restored(st.dir) }

  /** Whether a step keeps it so, from the files of the step's own device alone. */
  ghost predicate Keeps(st: State, op: Op) {
    match op
    case Recommend(dut, rows, neighbours, vaps, capturedAt, tombStamp, stamp) =>
      IsDutPart(dut) &&
      Lands(Computed(st.dir, dut), TombAt(st.dir, dut), rows, neighbours, vaps, capturedAt, tombStamp, stamp)
    case Survey(dut, neighbours, vaps, _, stamp) =>
      !IsDutPart(dut) || Spares(Computed(st.dir, dut), TombAt(st.dir, dut), neighbours, vaps, stamp)
    case Restart => true
  }

  /** One step from a faithful state is faithful if and only if it keeps to its device's stamps. */
  lemma {:induction false} StepKeepsIff(st: State, op: Op)
    requires Faithful(st) && Stamped(op)
    ensures Faithful(Step(st, op)) <==> Keeps(st, op)
  {
    hide Lands, Spares, Computed, TombAt, Restored, WriteSnapshot;
    var after := Step(st, op);
    match op
    case Recommend(d, rows, neighbours, vaps, capturedAt, tombStamp, stamp) =>
      RecommendGivesIff(st.dir, d, rows, neighbours, vaps, capturedAt, tombStamp, stamp);
      forall dut | dut != d
        ensures LookUp(after.cache, dut) == Disk(after.dir, dut)
      {
        OthersKeep(st.dir, d, rows, neighbours, vaps, capturedAt, true, tombStamp, stamp, dut);
      }
      FaithfulIffAt(after, d);
    case Survey(d, neighbours, vaps, capturedAt, stamp) =>
      SurveyGivesIff(st.dir, d, neighbours, vaps, capturedAt, stamp);
      forall dut | dut != d
        ensures LookUp(after.cache, dut) == Disk(after.dir, dut)
      {
        OthersKeep(st.dir, d, [], neighbours, vaps, capturedAt, false, stamp, stamp, dut);
      }
      FaithfulIffAt(after, d);
    case Restart =>
  }

  lemma {:induction false} FaithfulIffAt(st: State, d: string)
    requires forall dut :: dut != d ==> LookUp(st.cache, dut) == Disk(st.dir, dut)
    ensures Faithful(st) <==> LookUp(st.cache, d) == Disk(st.dir, d)
  {
    hide Restored;
    if LookUp(st.cache, d) == Disk(st.dir, d) {
      SameLookUps(st.cache, Restored(st.dir));
    }
  }

  ghost predicate AlwaysFaithful(st: State, ops: seq<Op>)
    decreases |ops|
  {
    Faithful(Run(st, ops)) && (ops != [] ==> AlwaysFaithful(st, ops[..|ops| - 1]))
  }

  ghost predicate AllKeep(st: State, ops: seq<Op>)
    decreases |ops|
  {
    ops != [] ==> AllKeep(st, ops[..|ops| - 1]) && Keeps(Run(st, ops[..|ops| - 1]), ops[|ops| - 1])
  }

  /**
    * Restart equivalence. Started on any directory, however old or damaged its files, and run through any surveys of
    * either kind, on any devices, and any restarts: a restart at any moment would rebuild exactly the cache there is
    * if and only if every step keeps to the stamps of its own device.
    */
  lemma {:induction false} RestartEquivalenceIff(dir: Directory, ops: seq<Op>)
    requires forall i :: 0 <= i < |ops| ==> Stamped(ops[i])
    ensures AlwaysFaithful(State(dir, Restored(dir)), ops) <==> AllKeep(State(dir, Restored(dir)), ops)
    decreases |ops|
  {
    hide Keeps, Restored, Stamped;
    if ops != [] {
      var boot, front := State(dir, Restored(dir)), ops[..|ops| - 1];
      assert forall i :: 0 <= i < |front| ==> front[i] == ops[i];
      RestartEquivalenceIff(dir, front);
      if AllKeep(boot, front) {
        AlwaysNow(boot, front);
        StepKeepsIff(Run(boot, front), ops[|ops| - 1]);
      }
    }
  }

  lemma {:induction false} AlwaysNow(st: State, ops: seq<Op>)
    requires AlwaysFaithful(st, ops)
    ensures Faithful(Run(st, ops))
  {
  }

  // ---- a clock that moves on ----------------------------------------------------------

  /** Everything on disk about this device is older; other devices may share the second. */
  ghost predicate OwnBefore(dir: Directory, dut: string, stamp: string) {
    && (forall u :: u in Computed(dir, dut) ==> Before(u, stamp))
    && (TombAt(dir, dut).Some? ==> Before(TombAt(dir, dut).value.stamp, stamp))
  }

  /** The clock has moved on since this device's last survey. */
  ghost predicate Timely(st: State, op: Op) {
    match op
    case Recommend(dut, _, _, _, _, tombStamp, stamp) =>
      IsDutPart(dut) && StrLe(tombStamp, stamp) && OwnBefore(st.dir, dut, tombStamp)
    case Survey(dut, _, _, _, stamp) => OwnBefore(st.dir, dut, stamp)
    case Restart => true
  }

  lemma {:induction false} TimelyKeeps(st: State, op: Op)
    requires Timely(st, op)
    ensures Keeps(st, op)
  {
    hide Computed, TombAt, Says;
    match op
    case Recommend(dut, _, _, _, _, tombStamp, stamp) =>
      var good, tomb := Computed(st.dir, dut), TombAt(st.dir, dut);
      StrLeTotal(tombStamp, tombStamp);
      forall u | u in good
        ensures StrLe(u, stamp)
      {
        StrLeTransitive(u, tombStamp, stamp);
      }
      if tomb.Some? {
        StrLeTransitive(tomb.value.stamp, tombStamp, stamp);
      }
    case Survey(_, _, _, _, _) =>
    case Restart =>
  }

  ghost predicate AllTimely(st: State, ops: seq<Op>)
    decreases |ops|
  {
    ops != [] ==> AllTimely(st, ops[..|ops| - 1]) && Timely(Run(st, ops[..|ops| - 1]), ops[|ops| - 1])
  }

  /** So with a clock that moves on between the surveys of one device, every run is faithful throughout. */
  lemma {:induction false} RestartEquivalence(dir: Directory, ops: seq<Op>)
    requires forall i :: 0 <= i < |ops| ==> Stamped(ops[i])
    requires AllTimely(State(dir, Restored(dir)), ops)
    ensures AlwaysFaithful(State(dir, Restored(dir)), ops)
  {
    AllTimelyKeep(State(dir, Restored(dir)), ops);
    RestartEquivalenceIff(dir, ops);
  }

  lemma {:induction false} AllTimelyKeep(st: State, ops: seq<Op>)
    requires AllTimely(st, ops)
    ensures AllKeep(st, ops)
    decreases |ops|
  {
    hide Timely, Keeps;
    if ops != [] {
      AllTimelyKeep(st, ops[..|ops| - 1]);
      TimelyKeeps(Run(st, ops[..|ops| - 1]), ops[|ops| - 1]);
    }
  }

  /** The same by the calendar: everything on disk about this device is of an earlier moment. */
  ghost predicate OwnEarlier(dir: Directory, dut: string, stamp: string)
    requires IsStamp(stamp)
  {
    && (forall u :: u in Computed(dir, dut) ==> IsStamp(u) && Earlier(MomentOf(u), MomentOf(stamp)))
    && var tomb := TombAt(dir, dut);
       tomb.Some? ==> IsStamp(tomb.value.stamp) && Earlier(MomentOf(tomb.value.stamp), MomentOf(stamp))
  }

  lemma {:induction false} EarlierIsBefore(dir: Directory, dut: string, stamp: string)
    requires IsStamp(stamp) && OwnEarlier(dir, dut, stamp)
    ensures OwnBefore(dir, dut, stamp)
  {
    hide Computed, TombAt, MomentOf, IsStamp, Earlier;
    forall u | u in Computed(dir, dut)
      ensures Before(u, stamp)
    {
      StampsInOrder(u, stamp);
    }
    if TombAt(dir, dut).Some? {
      StampsInOrder(TombAt(dir, dut).value.stamp, stamp);
    }
  }

  /** The calendar has moved on since this device's last survey; within one write it does not go back. */
  ghost predicate Ticking(st: State, op: Op) {
    match op
    case Recommend(dut, _, _, _, _, tombStamp, stamp) =>
      && IsDutPart(dut) && IsStamp(tombStamp) && IsStamp(stamp) && !Earlier(MomentOf(stamp), MomentOf(tombStamp))
      && OwnEarlier(st.dir, dut, tombStamp)
    case Survey(dut, _, _, _, stamp) => IsStamp(stamp) && OwnEarlier(st.dir, dut, stamp)
    case Restart => true
  }

  lemma {:induction false} TickingIsTimely(st: State, op: Op)
    requires Ticking(st, op)
    ensures Timely(st, op)
  {
    hide OwnEarlier, OwnBefore, MomentOf, IsStamp, Earlier;
    match op
    case Recommend(dut, _, _, _, _, tombStamp, stamp) =>
      StampsInOrder(tombStamp, stamp);
      EarlierIsBefore(st.dir, dut, tombStamp);
    case Survey(dut, _, _, _, stamp) => EarlierIsBefore(st.dir, dut, stamp);
    case Restart =>
  }

  ghost predicate AllTicking(st: State, ops: seq<Op>)
    decreases |ops|
  {
    ops != [] ==> AllTicking(st, ops[..|ops| - 1]) && Ticking(Run(st, ops[..|ops| - 1]), ops[|ops| - 1])
  }

  lemma {:induction false} AllTickingTimely(st: State, ops: seq<Op>)
    requires AllTicking(st, ops)
    ensures AllTimely(st, ops) && forall i :: 0 <= i < |ops| ==> Stamped(ops[i])
    decreases |ops|
  {
    hide Timely, Step;
    if ops != [] {
      var front := ops[..|ops| - 1];
      AllTickingTimely(st, front);
      TickingIsTimely(Run(st, front), ops[|ops| - 1]);
      assert forall i :: 0 <= i < |front| ==> front[i] == ops[i];
    }
  }

  /** Restart equivalence by the calendar: when the moments of one device's surveys move on, every run is faithful. */
  lemma {:induction false} RestartEquivalenceByMoment(dir: Directory, ops: seq<Op>)
    requires AllTicking(State(dir, Restored(dir)), ops)
    ensures AlwaysFaithful(State(dir, Restored(dir)), ops)
  {
    AllTickingTimely(State(dir, Restored(dir)), ops);
    RestartEquivalence(dir, ops);
  }

  // ---- and one that does not ----------------------------------------------------------

  /**
    * An all-empty answer within the second of a non-empty one ties with its snapshot and loses: a restart brings the
    * older rows back.
    */
  lemma {:induction false} SameSecondResurrects(
      dir: Directory, dut: string, rows: Rows, neighbours: Neighbours, vaps: Vaps, first: string, second: string,
      stamp: string)
    requires IsDutPart(dut) && IsStamp(stamp) && OwnBefore(dir, dut, stamp) && rows != []
    ensures var d1 := WriteSnapshot(dir, dut, rows, neighbours, vaps, first, true, stamp, stamp);
      Disk(WriteSnapshot(d1, dut, [], [], [], second, true, stamp, stamp), dut) == Some(Entry(rows, first))
  {
    hide Computed, TombAt, Disk, WriteSnapshot;
    var d1 := WriteSnapshot(dir, dut, rows, neighbours, vaps, first, true, stamp, stamp);
    WriteLeaves(dir, dut, rows, neighbours, vaps, first, true, stamp, stamp, dut);
    WriteLeaves(d1, dut, [], [], [], second, true, stamp, stamp, dut);
    DiskIsAnswer(WriteSnapshot(d1, dut, [], [], [], second, true, stamp, stamp), dut);
    StrLeTotal(stamp, stamp);
    var good := Computed(dir, dut);
    assert Foremost(good, Some(Tomb(stamp, second)), stamp);
    NewestIsLatest(good, Some(Tomb(stamp, second)), stamp, Entry(rows, first));
    SaysIff(good[stamp := Entry(rows, first)], Some(Tomb(stamp, second)), Entry(rows, first));
  }

  /**
    * A bare survey within the second of its device's computed answer takes over the answer's file: a restart brings
    * back what was there before the answer, or nothing.
    */
  lemma {:induction false} SameSecondErases(
      dir: Directory, dut: string, rows: Rows, neighbours: Neighbours, vaps: Vaps, first: string,
      heard: Neighbours, own: Vaps, second: string, stamp: string)
    requires IsDutPart(dut) && IsStamp(stamp) && OwnBefore(dir, dut, stamp) && rows != [] && (heard != [] || own != [])
    ensures var d1 := WriteSnapshot(dir, dut, rows, neighbours, vaps, first, true, stamp, stamp);
      Disk(d1, dut) == Some(Entry(rows, first)) &&
      Disk(WriteSnapshot(d1, dut, [], heard, own, second, false, stamp, stamp), dut) == Disk(dir, dut)
  {
    hide Computed, TombAt, Disk, WriteSnapshot;
    var d1 := WriteSnapshot(dir, dut, rows, neighbours, vaps, first, true, stamp, stamp);
    StrLeTotal(stamp, stamp);
    assert Lands(Computed(dir, dut), TombAt(dir, dut), rows, neighbours, vaps, first, stamp, stamp);
    RecommendGivesIff(dir, dut, rows, neighbours, vaps, first, stamp, stamp);
    WriteLeaves(dir, dut, rows, neighbours, vaps, first, true, stamp, stamp, dut);
    var d2 := WriteSnapshot(d1, dut, [], heard, own, second, false, stamp, stamp);
    WriteLeaves(d1, dut, [], heard, own, second, false, stamp, stamp, dut);
    assert stamp !in Computed(dir, dut);
    assert Computed(d2, dut) == Computed(dir, dut);
    SameFilesSameDisk(d2, dir, dut);
  }

  /** An answer for an id with a line break is remembered and never restored. */
  lemma {:induction false} LineBreakIsForgotten(
      dir: Directory, dut: string, rows: Rows, neighbours: Neighbours, vaps: Vaps, capturedAt: string, stamp: string)
    requires IsAdmitted(dut) && !IsDutId(dut) && IsStamp(stamp)
    ensures Disk(WriteSnapshot(dir, dut, rows, neighbours, vaps, capturedAt, true, stamp, stamp), dut) == None
  {
    AdmittedIsDutPartIff(dut);
    StrayIsNotFound(WriteSnapshot(dir, dut, rows, neighbours, vaps, capturedAt, true, stamp, stamp), dut);
  }
}
