/** Folding the remote nodes that already exist into the collector model. */
module CollectorMigration {
  import opened Common
  import opened DutConsoles
  import opened Fields
  import opened Sorting
  import opened SurveyNames
  import opened Text
  import C = Collectors
  import P = DutPersistence

  // ---- ids derived from addresses -----------------------------------------------------

  predicate IsSlugChar(c: char) { 'a' <= c <= 'z' || IsDigit(c) }

  function SkipUnsafe(s: string): (r: string)
    ensures |r| <= |s|
  {
    if s != [] && !IsSlugChar(s[0]) then SkipUnsafe(s[1..]) else s
  }

  /** Every run of characters an id may not hold becomes one hyphen. */
  function Dashed(s: string): string
    decreases |s|
  {
    if s == [] then [] else if IsSlugChar(s[0]) then [s[0]] + Dashed(s[1..]) else "-" + Dashed(SkipUnsafe(s[1..]))
  }

  function LDash(s: string): string { if s != [] && s[0] == '-' then LDash(s[1..]) else s }
  function RDash(s: string): string { if s != [] && s[|s| - 1] == '-' then RDash(s[..|s| - 1]) else s }
  function StripDash(s: string): string { LDash(RDash(s)) }

  function IdForHost(host: string): string {
    var slug := StripDash(Dashed(Lower(Strip(host))));
    var named := if slug == [] || !IsAlnum(slug[0]) then StripDash("pi-" + slug) else slug;
    var cut := if |named| > 32 then named[..32] else named;
    if cut == [] then "collector" else cut
  }

  predicate IsSlug(s: string) { forall i :: 0 <= i < |s| ==> IsSlugChar(s[i]) || s[i] == '-' }

  lemma {:induction false} DashedIsSlug(s: string)
    ensures IsSlug(Dashed(s))
    decreases |s|
  {
    if s != [] {
      if IsSlugChar(s[0]) {
        DashedIsSlug(s[1..]);
      } else {
        DashedIsSlug(SkipUnsafe(s[1..]));
      }
    }
  }

  lemma {:induction false} RDashIsSlug(s: string)
    requires IsSlug(s)
    ensures IsSlug(RDash(s))
  {
    if s != [] && s[|s| - 1] == '-' {
      RDashIsSlug(s[..|s| - 1]);
    }
  }

  lemma {:induction false} LDashIsSlug(s: string)
    requires IsSlug(s)
    ensures IsSlug(LDash(s)) && (LDash(s) == [] || LDash(s)[0] != '-')
  {
    if s != [] && s[0] == '-' {
      LDashIsSlug(s[1..]);
    }
  }

  /** Every address whatever gives a legal id. */
  lemma {:induction false} IdForHostIsId(host: string)
    ensures IsDutId(IdForHost(host)) && IsTrimmed(IdForHost(host))
  {
    var dashed := Dashed(Lower(Strip(host)));
    DashedIsSlug(dashed);
    DashedIsSlug(Lower(Strip(host)));
    RDashIsSlug(dashed);
    LDashIsSlug(RDash(dashed));
    var slug := StripDash(dashed);
    if slug == [] {
      PiIsSlug();
    }
    var named := if slug == [] || !IsAlnum(slug[0]) then StripDash("pi-" + slug) else slug;
    IdOfSlug(named);
  }

  lemma {:induction false} PiIsSlug()
    ensures StripDash("pi-" + []) == "pi"
  {
    assert "pi-" + [] == "pi-" && "pi-"[..2] == "pi";
    assert RDash("pi-") == RDash("pi") == "pi";
  }

  lemma {:induction false} IdOfSlug(named: string)
    requires IsSlug(named) && (named == [] || named[0] != '-')
    ensures var cut := if |named| > 32 then named[..32] else named;
      var id := if cut == [] then "collector" else cut; IsDutId(id) && IsTrimmed(id)
  {
    var cut := if |named| > 32 then named[..32] else named;
    if cut != [] {
      assert forall i :: 0 <= i < |cut| ==> cut[i] == named[i];
      assert forall i :: 0 <= i < |cut| ==> IsIdChar(cut[i]) && !IsSpace(cut[i]);
    }
  }

  function Candidate(wanted: string, k: nat): string {
    (if |wanted| > 29 then wanted[..29] else wanted) + "-" + Decimal(k)
  }

  /** The first suffixed variant nothing else is using, of those from `k` up to 99. */
  function FreeFrom(ids: seq<string>, wanted: string, k: nat): Option<string>
    decreases 100 - k
  {
    if k >= 100 then None
    else if Candidate(wanted, k) !in ids then Some(Candidate(wanted, k))
    else FreeFrom(ids, wanted, k + 1)
  }

  function FreeId(ids: seq<string>, wanted: string): Option<string> {
    if wanted !in ids then Some(wanted) else FreeFrom(ids, wanted, 2)
  }

  lemma {:induction false} CandidatesDiffer(wanted: string, j: nat, k: nat)
    requires Candidate(wanted, j) == Candidate(wanted, k)
    ensures j == k
  {
    var head := (if |wanted| > 29 then wanted[..29] else wanted) + "-";
    assert Candidate(wanted, j)[|head|..] == Decimal(j) && Candidate(wanted, k)[|head|..] == Decimal(k);
    DecimalInjective(j, k);
  }

  lemma {:induction false} FreeFromTaken(ids: seq<string>, wanted: string, k: nat, top: nat)
    requires k <= top <= 100 && forall j :: k <= j < top ==> Candidate(wanted, j) in ids
    ensures |ids| >= top - k
    decreases top - k
  {
    var taken := set j | k <= j < top :: Candidate(wanted, j);
    TakenCount(wanted, k, top);
    var all := set id | id in ids;
    assert taken <= all;
    SubsetCount(taken, all);
    SeqSetSize(ids);
  }

  lemma {:induction false} SeqSetSize(ids: seq<string>)
    ensures |set id | id in ids| <= |ids|
  {
    if ids != [] {
      SeqSetSize(ids[1..]);
      assert (set id | id in ids) == {ids[0]} + set id | id in ids[1..];
    }
  }

  lemma {:induction false} TakenCount(wanted: string, k: nat, top: nat)
    requires k <= top
    ensures |set j | k <= j < top :: Candidate(wanted, j)| == top - k
    decreases top - k
  {
    if k < top {
      TakenCount(wanted, k + 1, top);
      var rest := set j | k + 1 <= j < top :: Candidate(wanted, j);
      assert (set j | k <= j < top :: Candidate(wanted, j)) == {Candidate(wanted, k)} + rest;
      if Candidate(wanted, k) in rest {
        var j :| k + 1 <= j < top && Candidate(wanted, j) == Candidate(wanted, k);
        CandidatesDiffer(wanted, j, k);
      }
    }
  }

  /** The search ends on a free id, or on none only when all of its ids are taken. */
  lemma {:induction false} FreeFromSearch(ids: seq<string>, wanted: string, k: nat)
    requires k <= 100
    ensures FreeFrom(ids, wanted, k).None? ==> forall j :: k <= j < 100 ==> Candidate(wanted, j) in ids
    ensures FreeFrom(ids, wanted, k).Some? ==>
      FreeFrom(ids, wanted, k).value !in ids && exists j :: k <= j < 100 && FreeFrom(ids, wanted, k).value == Candidate(wanted, j)
    decreases 100 - k
  {
    hide Candidate;
    if k < 100 {
      FreeFromSearch(ids, wanted, k + 1);
    }
  }

  /** With fewer than 98 collectors the search cannot fail; what it finds is legal and unused. */
  lemma {:induction false} FreeIdSucceeds(ids: seq<string>, wanted: string)
    requires |ids| < 98 && IsDutId(wanted) && IsTrimmed(wanted)
    ensures FreeId(ids, wanted).Some?
    ensures var id := FreeId(ids, wanted).value; id !in ids && IsDutId(id) && IsTrimmed(id)
  {
    FreeFromSearch(ids, wanted, 2);
    if FreeFrom(ids, wanted, 2).None? {
      FreeFromTaken(ids, wanted, 2, 100);
      assert false;
    } else if wanted in ids {
      var j :| 2 <= j < 100 && FreeFrom(ids, wanted, 2).value == Candidate(wanted, j);
      CandidateIsId(wanted, j);
    }
  }

  lemma {:induction false} CandidateIsId(wanted: string, k: nat)
    requires IsDutId(wanted) && k < 100
    ensures IsDutId(Candidate(wanted, k)) && IsTrimmed(Candidate(wanted, k))
  {
    var head := if |wanted| > 29 then wanted[..29] else wanted;
    var digits := Decimal(k);
    assert |digits| <= 2 by {
      if k >= 10 {
        assert Decimal(k) == Decimal(k / 10) + [DigitChar(k % 10)];
      }
    }
    var id := Candidate(wanted, k);
    assert id == head + "-" + digits;
    assert forall i :: 0 <= i < |head| ==> id[i] == wanted[i];
    assert forall i :: |head| < i < |id| ==> id[i] == digits[i - |head| - 1];
    assert IsDigit(id[|id| - 1]);
  }

  // ---- the migration ------------------------------------------------------------------

  datatype World = World(duts: Contexts, collectors: C.State)

  datatype Report = Report(dut: string, collector: Option<string>)

  predicate Matches(c: C.Collector, r: Remote) {
    c.ip == r.host && c.user == r.user && c.port == r.port && c.auth == C.ByKey && c.keyPath == Some(r.keyPath)
  }

  /** The first record, in the order they were added, that is this login on this box. */
  function MatchIn(order: seq<string>, records: map<string, C.Collector>, r: Remote): Option<string> {
    if order == [] then None
    else if order[0] in records && Matches(records[order[0]], r) then Some(order[0])
    else MatchIn(order[1..], records, r)
  }

  function Matching(st: C.State, r: Remote): Option<string> { MatchIn(st.order, st.records, r) }

  /** A key-authenticated remote node nobody has given a collector yet. */
  predicate Eligible(duts: Contexts, dut: string) {
    && dut in duts && duts[dut].remote.Some?
    && duts[dut].remote.value.collectorId.None? && duts[dut].remote.value.keyPath != ""
  }

  function PayloadFor(r: Remote, id: string): C.Payload {
    C.Payload(Str(id), Str("Collector " + r.host), Str(r.host), Null, Str(r.user), Number(r.port), Str("key"), Str(r.keyPath))
  }

  /** The registry's own re-configuration, with the collector named. */
  function Attach(w: World, dut: string, r: Remote, id: string): (World, Report) {
    var cleaned := P.CleanRemote(P.RawOfRemote(Some(r.(collectorId := Some(id)))));
    if cleaned.None? || dut !in w.duts then (w, Report(dut, None))
    else (w.(duts := w.duts[dut := Repoint(w.duts[dut], cleaned.value)]), Report(dut, Some(id)))
  }

  function MigrateOne(w: World, dut: string): (World, seq<Report>) {
    if !Eligible(w.duts, dut) then (w, [])
    else
      var r := w.duts[dut].remote.value;
      var existing := Matching(w.collectors, r);
      if existing.Some? then
        var (after, report) := Attach(w, dut, r, existing.value);
        (after, [report])
      else if |w.collectors.order| >= C.MAX_COLLECTORS then (w, [Report(dut, None)])
      else
        var free := FreeId(w.collectors.order, IdForHost(r.host));
        if free.None? then (w, [Report(dut, None)])
        else
          var (collectors, result) := C.Configure(w.collectors, PayloadFor(r, free.value), None);
          if result.Refused? then (w.(collectors := collectors), [Report(dut, None)])
          else
            var (after, report) := Attach(w.(collectors := collectors), dut, r, free.value);
            (after, [report])
  }

  function Migrate(w: World, ids: seq<string>): (World, seq<Report>) {
    if ids == [] then (w, [])
    else
      var (before, reports) := Migrate(w, ids[..|ids| - 1]);
      var (after, more) := MigrateOne(before, ids[|ids| - 1]);
      (after, reports + more)
  }

  // ---- one node -----------------------------------------------------------------------

  ghost predicate Ok(w: World) {
    && C.Inv(w.collectors)
    && forall dut :: dut in w.duts && w.duts[dut].remote.Some? ==> P.IsRemote(w.duts[dut].remote.value)
  }

  lemma {:induction false} AttachIs(w: World, dut: string, id: string)
    requires Ok(w) && Eligible(w.duts, dut) && IsDutId(id) && IsTrimmed(id)
    ensures var ctx := w.duts[dut]; var r := ctx.remote.value;
      var after := r.(collectorId := Some(id));
      && P.IsRemote(after)
      && Attach(w, dut, r, id) ==
           (w.(duts := w.duts[dut := ctx.(remote := Some(after))]), Report(dut, Some(id)))
  {
    var r := w.duts[dut].remote.value;
    P.CleanRemoteIdempotent(r.(collectorId := Some(id)));
  }

  lemma {:induction false} MatchInOf(order: seq<string>, records: map<string, C.Collector>, r: Remote)
    ensures MatchIn(order, records, r).Some? ==>
      var id := MatchIn(order, records, r).value; id in order && id in records && Matches(records[id], r)
    ensures MatchIn(order, records, r).None? ==> forall id :: id in order && id in records ==> !Matches(records[id], r)
  {
    if order != [] {
      MatchInOf(order[1..], records, r);
      assert forall id :: id in order <==> id == order[0] || id in order[1..];
    }
  }

  /** A record added at the end is only found when nothing before it matches. */
  lemma {:induction false} MatchInAppended(order: seq<string>, records: map<string, C.Collector>, c: C.Collector, r: Remote)
    requires c.id !in order && c.id !in records && forall id :: id in order ==> id in records
    ensures MatchIn(order + [c.id], records[c.id := c], r) ==
      if MatchIn(order, records, r).Some? then MatchIn(order, records, r)
      else if Matches(c, r) then Some(c.id) else None
  {
    if order == [] {
      assert [c.id][1..] == [];
    } else {
      assert (order + [c.id])[1..] == order[1..] + [c.id];
      MatchInAppended(order[1..], records, c, r);
    }
  }

  /** The record a node gets when none matches. */
  function NewRecord(r: Remote, id: string): C.Collector {
    var shown := "Collector " + r.host;
    C.Collector(id, if |shown| > C.MAX_LABEL then shown[..C.MAX_LABEL] else shown, r.host, None, r.user, r.port, C.ByKey,
                Some(r.keyPath))
  }

  lemma {:induction false} LabelOfHost(host: string)
    requires IsToken(host) && IsTrimmed(host)
    ensures C.TextOf(Str("Collector " + host)) == Some("Collector " + host)
  {
    var shown := "Collector " + host;
    assert shown[0] == 'C' && shown[|shown| - 1] == host[|host| - 1];
    StripOfTrimmed(shown);
  }

  /** What the node's texts are to a cleaning. */
  lemma {:induction false} TextsFor(r: Remote, id: string)
    requires P.IsRemote(r) && r.keyPath != "" && IsDutId(id) && IsTrimmed(id)
    ensures var p := PayloadFor(r, id);
      && C.TextOf(p.id) == Some(id) && C.TextOf(p.ip) == Some(r.host) && C.TextOf(p.user) == Some(r.user)
      && C.TextOf(p.keyPath) == Some(r.keyPath) && C.TextOf(p.hostname) == None
      && C.TextOf(p.displayName) == Some("Collector " + r.host)
      && IsToken(r.host) && 1 <= r.port <= 65535
  {
    assert IsToken(r.host) && IsToken(r.user) && IsTrimmed(r.host) && IsTrimmed(r.user) && IsTrimmed(r.keyPath);
    hide C.TextOf, IsTrimmed;
    C.TextOfText(id);
    C.TextOfText(r.host);
    C.TextOfText(r.user);
    C.TextOfText(r.keyPath);
    C.NothingIsNoText();
    LabelOfHost(r.host);
  }

  lemma {:induction false} CleanPayloadFor(r: Remote, id: string)
    requires P.IsRemote(r) && r.keyPath != "" && IsDutId(id) && IsTrimmed(id)
    ensures C.Clean(PayloadFor(r, id)) ==
      if C.IsUser(r.user) then C.Ok(NewRecord(r, id)) else C.Refused(C.BadUser)
  {
    TextsFor(r, id);
    C.AuthNames(Some(r.keyPath));
    hide C.TextOf, C.AuthOf, C.IsUser, IsDutId, IsToken, P.IsRemote, IsTrimmed;
  }

  lemma {:induction false} OrderSize(st: C.State)
    requires C.Inv(st)
    ensures |st.order| == |st.records|
  {
    hide C.IsCollector, C.Current;
    SeqSetExact(st.order);
    assert (set id | id in st.order) == st.records.Keys;
    assert |st.records.Keys| == |st.records|;
  }

  lemma {:induction false} SeqSetExact(ids: seq<string>)
    requires NoRepeats(ids)
    ensures |set id | id in ids| == |ids|
  {
    if ids != [] {
      SeqSetExact(ids[1..]);
      assert (set id | id in ids) == {ids[0]} + set id | id in ids[1..];
      assert ids[0] !in ids[1..];
    }
  }

  /** Why an eligible node stays one: a full table, or a login name the collector model does not accept. */
  predicate Refusable(st: C.State, r: Remote) {
    Matching(st, r).None? && (|st.order| >= C.MAX_COLLECTORS || !C.IsUser(r.user))
  }

  /** What one turn does, case by case. */
  ghost predicate TurnOf(w: World, dut: string, after: World, reports: seq<Report>) {
    if !Eligible(w.duts, dut) then after == w && reports == []
    else
      var ctx := w.duts[dut];
      var r := ctx.remote.value;
      if Refusable(w.collectors, r) then after == w && reports == [Report(dut, None)]
      else
        exists id :: GivesCollector(w, dut, after, id) && reports == [Report(dut, Some(id))]
  }

  ghost predicate GivesCollector(w: World, dut: string, after: World, id: string)
    requires Eligible(w.duts, dut)
  {
    var r := w.duts[dut].remote.value;
    && after.duts == w.duts[dut := w.duts[dut].(remote := Some(r.(collectorId := Some(id))))]
    && P.IsRemote(r.(collectorId := Some(id)))
    && if Matching(w.collectors, r).Some? then
         Matching(w.collectors, r) == Some(id) && after.collectors == w.collectors
       else
         id !in w.collectors.order && C.IsCollector(NewRecord(r, id))
         && FreeId(w.collectors.order, IdForHost(r.host)) == Some(id)
         && after.collectors == C.Put(w.collectors, NewRecord(r, id))
  }

  lemma {:induction false} MigrateOneIs(w: World, dut: string)
    requires Ok(w)
    ensures TurnOf(w, dut, MigrateOne(w, dut).0, MigrateOne(w, dut).1)
  {
    if Eligible(w.duts, dut) {
      var r := w.duts[dut].remote.value;
      var existing := Matching(w.collectors, r);
      MatchInOf(w.collectors.order, w.collectors.records, r);
      if existing.Some? {
        RecordIsNamed(w.collectors, existing.value);
        AttachIs(w, dut, existing.value);
        assert GivesCollector(w, dut, MigrateOne(w, dut).0, existing.value);
      } else if |w.collectors.order| < C.MAX_COLLECTORS {
        NewCollector(w, dut);
      }
    }
  }

  lemma {:induction false} RecordIsNamed(st: C.State, id: string)
    requires C.Inv(st) && id in st.records
    ensures IsDutId(id) && IsTrimmed(id)
  {
    assert C.IsCollector(st.records[id]);
  }

  lemma {:induction false} NewCollector(w: World, dut: string)
    requires Ok(w) && Eligible(w.duts, dut)
    requires Matching(w.collectors, w.duts[dut].remote.value).None? && |w.collectors.order| < C.MAX_COLLECTORS
    ensures TurnOf(w, dut, MigrateOne(w, dut).0, MigrateOne(w, dut).1)
  {
    hide P.IsRemote, P.CleanRemote, C.Clean, C.IsCollector, IdForHost, FreeId, IsDutId, Matching, NewRecord, Attach;
    var r := w.duts[dut].remote.value;
    IdForHostIsId(r.host);
    FreeIdSucceeds(w.collectors.order, IdForHost(r.host));
    var id := FreeId(w.collectors.order, IdForHost(r.host)).value;
    CleanPayloadFor(r, id);
    if C.IsUser(r.user) {
      C.CleanIs(PayloadFor(r, id));
      OrderSize(w.collectors);
      NewRecordIsNew(w.collectors, r, id);
      AttachIs(w, dut, id);
      AttachKeepsCollectors(w, C.Put(w.collectors, NewRecord(r, id)), dut, r, id);
      assert GivesCollector(w, dut, MigrateOne(w, dut).0, id);
    }
  }

  lemma {:induction false} NewRecordIsNew(st: C.State, r: Remote, id: string)
    requires C.Inv(st) && id !in st.order
    ensures NewRecord(r, id).id == id && id !in st.records
    ensures C.Repointed(st, NewRecord(r, id)) == st
  {
    hide C.Clean;
  }

  lemma {:induction false} AttachKeepsCollectors(w: World, collectors: C.State, dut: string, r: Remote, id: string)
    ensures var (after, report) := Attach(w, dut, r, id);
      Attach(w.(collectors := collectors), dut, r, id) == (after.(collectors := collectors), report)
  {
  }

  // ---- the program --------------------------------------------------------------------

  method AttachNode(devices: DutRegistry, dut: string, r: Remote, id: string) returns (report: Report)
    requires devices.Valid()
    modifies devices.duts.Values
    ensures forall collectors ::
      (World(devices.Abs(), collectors), report) == Attach(World(old(devices.Abs()), collectors), dut, r, id)
  {
    hide P.CleanRemote, Repoint;
    var cleaned := P.CleanRemote(P.RawOfRemote(Some(r.(collectorId := Some(id)))));
    if cleaned.None? {
      return Report(dut, None);
    }
    var ok := devices.ConfigureRemote(dut, cleaned.value);
    report := Report(dut, if ok then Some(id) else None);
  }

  method MigrateNode(devices: DutRegistry, collectors: C.CollectorRegistry, dut: string) returns (reports: seq<Report>)
    requires devices.Valid()
    modifies devices.duts.Values, collectors
    ensures (World(devices.Abs(), collectors.Abs()), reports) ==
      MigrateOne(World(old(devices.Abs()), old(collectors.Abs())), dut)
  {
    hide Attach, C.Configure, FreeId, IdForHost, PayloadFor;
    if dut !in devices.duts {
      return [];
    }
    var remote := devices.duts[dut].remote;
    if remote.None? || remote.value.collectorId.Some? || remote.value.keyPath == "" {
      return [];
    }
    var r := remote.value;
    var id := MatchIn(collectors.order, collectors.records, r);
    if id.None? {
      if |collectors.order| >= C.MAX_COLLECTORS {
        return [Report(dut, None)];
      }
      id := FreeId(collectors.order, IdForHost(r.host));
      if id.None? {
        return [Report(dut, None)];
      }
      var result := collectors.ConfigureCollector(PayloadFor(r, id.value), None);
      if result.Refused? {
        return [Report(dut, None)];
      }
    }
    var report := AttachNode(devices, dut, r, id.value);
    return [report];
  }

  method MigrateRemoteNodes(devices: DutRegistry, collectors: C.CollectorRegistry, ids: seq<string>)
    returns (reports: seq<Report>)
    requires devices.Valid()
    modifies devices.duts.Values, collectors
    ensures (World(devices.Abs(), collectors.Abs()), reports) ==
      Migrate(World(old(devices.Abs()), old(collectors.Abs())), ids)
  {
    hide MigrateOne;
    reports := [];
    ghost var w := World(devices.Abs(), collectors.Abs());
    for i := 0 to |ids|
      invariant (World(devices.Abs(), collectors.Abs()), reports) == Migrate(w, ids[..i])
    {
      assert ids[..i + 1][..i] == ids[..i];
      var more := MigrateNode(devices, collectors, ids[i]);
      reports := reports + more;
    }
    assert ids[..|ids|] == ids;
  }

  // ---- what a whole run keeps ---------------------------------------------------------

  /** Records are only ever added; no record, password, session or note that was there changes. */
  ghost predicate Grew(before: C.State, after: C.State) {
    && |before.order| <= |after.order| && after.order[..|before.order|] == before.order
    && (forall id :: id in before.records ==> id in after.records && after.records[id] == before.records[id])
    && after.passwords == before.passwords && after.sessions == before.sessions && after.detail == before.detail
    && after.setFor == before.setFor
  }

  /** A node either stays as it was, or differs in naming the first collector that is its login. */
  ghost predicate Moved(before: Context, after: Context, st: C.State) {
    || after == before
    || (before.remote.Some? && before.remote.value.collectorId.None? && before.remote.value.keyPath != ""
        && Matching(st, before.remote.value).Some?
        && after == before.(remote := Some(before.remote.value.(collectorId := Matching(st, before.remote.value)))))
  }

  ghost predicate AllMoved(before: Contexts, w: World) {
    && w.duts.Keys == before.Keys
    && forall dut :: dut in before ==> Moved(before[dut], w.duts[dut], w.collectors)
  }

  /** Those already visited and still without a collector cannot have one. */
  ghost predicate Settled(w: World, visited: seq<string>) {
    forall dut :: dut in visited && Eligible(w.duts, dut) ==> Refusable(w.collectors, w.duts[dut].remote.value)
  }

  /** No added record is a second one for its login. */
  ghost predicate OncePerLogin(before: C.State, after: C.State) {
    forall a, b :: a in after.records && b in after.records && a != b && a !in before.records ==>
      C.LoginOf(after.records[a]) != C.LoginOf(after.records[b])
  }

  ghost predicate Reported(before: Contexts, w: World, visited: seq<string>, reports: seq<Report>) {
    forall i :: 0 <= i < |reports| ==> reports[i].dut in visited && ReportHolds(before, w, reports[i])
  }

  ghost predicate ReportHolds(before: Contexts, w: World, report: Report) {
    && report.dut in w.duts && report.dut in before
    && if report.collector.None? then w.duts[report.dut] == before[report.dut] && Eligible(w.duts, report.dut)
       else w.duts[report.dut].remote.Some? && w.duts[report.dut].remote.value.collectorId == report.collector
  }

  ghost predicate Migrating(w0: World, w: World, visited: seq<string>, reports: seq<Report>) {
    && Ok(w) && Grew(w0.collectors, w.collectors) && AllMoved(w0.duts, w) && Settled(w, visited)
    && OncePerLogin(w0.collectors, w.collectors) && Reported(w0.duts, w, visited, reports)
  }

  lemma {:induction false} MatchingAppended(st: C.State, c: C.Collector, r: Remote)
    requires C.Inv(st) && c.id !in st.records
    ensures Matching(C.Put(st, c), r) ==
      if Matching(st, r).Some? then Matching(st, r) else if Matches(c, r) then Some(c.id) else None
  {
    MatchInAppended(st.order, st.records, c, r);
  }

  lemma {:induction false} MovedStays(before: Context, after: Context, st: C.State, c: C.Collector)
    requires C.Inv(st) && c.id !in st.records && Moved(before, after, st)
    ensures Moved(before, after, C.Put(st, c))
  {
    if before.remote.Some? {
      MatchingAppended(st, c, before.remote.value);
    }
  }

  /** A refusal lasts: a full table takes nobody in, and a new record is never a refused login. */
  lemma {:induction false} RefusableStays(st: C.State, r: Remote, c: C.Collector)
    requires C.Inv(st) && c.id !in st.records && |st.order| < C.MAX_COLLECTORS && C.IsCollector(c) && Refusable(st, r)
    ensures Refusable(C.Put(st, c), r)
  {
    MatchingAppended(st, c, r);
  }

  lemma {:induction false} NewLoginIsNew(st: C.State, r: Remote, id: string)
    requires C.Inv(st) && Matching(st, r).None?
    ensures forall other :: other in st.records ==> C.LoginOf(st.records[other]) != C.LoginOf(NewRecord(r, id))
  {
    MatchInOf(st.order, st.records, r);
  }

  /** The table takes one record more. */
  lemma {:induction false} PutGrows(w0: C.State, st: C.State, r: Remote, id: string)
    requires C.Inv(st) && Grew(w0, st) && OncePerLogin(w0, st) && id !in st.order && Matching(st, r).None?
    requires C.IsCollector(NewRecord(r, id)) && |st.order| < C.MAX_COLLECTORS
    ensures C.Inv(C.Put(st, NewRecord(r, id))) && Grew(w0, C.Put(st, NewRecord(r, id)))
    ensures OncePerLogin(w0, C.Put(st, NewRecord(r, id)))
  {
    hide C.IsCollector, Matching, Grew, OncePerLogin, C.Current, NewRecord, C.Put;
    OrderSize(st);
    NewRecordIsNew(st, r, id);
    NewLoginIsNew(st, r, id);
    HeldIsListed(st);
    C.PutKeepsInv(st, NewRecord(r, id));
    PutIsGrowth(w0, st, NewRecord(r, id));
    PutIsOnce(w0, st, NewRecord(r, id));
  }

  lemma {:induction false} HeldIsListed(st: C.State)
    requires C.Inv(st)
    ensures forall id :: id in st.passwords || id in st.sessions ==> id in st.records
  {
  }

  lemma {:induction false} PutIsGrowth(w0: C.State, st: C.State, c: C.Collector)
    requires Grew(w0, st) && c.id !in st.records
    ensures Grew(w0, C.Put(st, c))
  {
  }

  lemma {:induction false} PutIsOnce(w0: C.State, st: C.State, c: C.Collector)
    requires OncePerLogin(w0, st) && c.id !in st.records
    requires forall other :: other in st.records ==> C.LoginOf(st.records[other]) != C.LoginOf(c)
    ensures OncePerLogin(w0, C.Put(st, c))
  {
    hide C.LoginOf;
  }

  lemma {:induction false} TurnKeeps(
      w0: World, w: World, visited: seq<string>, reports: seq<Report>, dut: string, after: World, more: seq<Report>)
    requires Migrating(w0, w, visited, reports) && TurnOf(w, dut, after, more)
    ensures Migrating(w0, after, visited + [dut], reports + more)
  {
    if Eligible(w.duts, dut) && !Refusable(w.collectors, w.duts[dut].remote.value) {
      var id :| GivesCollector(w, dut, after, id) && more == [Report(dut, Some(id))];
      GiftKeeps(w0, w, visited, reports, dut, after, id);
    } else {
      StayKeeps(w0, w, visited, reports, dut, more);
    }
  }

  lemma {:induction false} StayKeeps(
      w0: World, w: World, visited: seq<string>, reports: seq<Report>, dut: string, more: seq<Report>)
    requires Migrating(w0, w, visited, reports) && TurnOf(w, dut, w, more)
    requires Eligible(w.duts, dut) ==> Refusable(w.collectors, w.duts[dut].remote.value)
    ensures Migrating(w0, w, visited + [dut], reports + more)
  {
    hide Ok, Grew, OncePerLogin, Refusable;
    if Eligible(w.duts, dut) {
      assert Moved(w0.duts[dut], w.duts[dut], w.collectors);
    }
    assert forall d :: d in visited + [dut] <==> d in visited || d == dut;
  }

  lemma {:induction false} GiftKeeps(
      w0: World, w: World, visited: seq<string>, reports: seq<Report>, dut: string, after: World, id: string)
    requires Migrating(w0, w, visited, reports) && Eligible(w.duts, dut)
    requires !Refusable(w.collectors, w.duts[dut].remote.value) && GivesCollector(w, dut, after, id)
    ensures Migrating(w0, after, visited + [dut], reports + [Report(dut, Some(id))])
  {
    hide Ok, Grew, AllMoved, OncePerLogin, Eligible, GivesCollector, Refusable, ReportHolds;
    GiftKeepsTable(w0, w, dut, after, id);
    GiftKeepsNodes(w0, w, dut, after, id);
    GiftKeepsSettled(w, visited, dut, after, id);
    assert dut !in visited;
    GiftKeepsReports(w0, w, visited, reports, dut, after, id);
  }

  lemma {:induction false} GiftKeepsTable(w0: World, w: World, dut: string, after: World, id: string)
    requires Ok(w) && Grew(w0.collectors, w.collectors) && OncePerLogin(w0.collectors, w.collectors)
    requires Eligible(w.duts, dut) && !Refusable(w.collectors, w.duts[dut].remote.value) && GivesCollector(w, dut, after, id)
    ensures Ok(after) && Grew(w0.collectors, after.collectors) && OncePerLogin(w0.collectors, after.collectors)
  {
    hide C.IsCollector, P.IsRemote, C.IsUser;
    var r := w.duts[dut].remote.value;
    if Matching(w.collectors, r).None? {
      PutGrows(w0.collectors, w.collectors, r, id);
    }
  }

  lemma {:induction false} GiftKeepsNodes(w0: World, w: World, dut: string, after: World, id: string)
    requires Ok(w) && AllMoved(w0.duts, w)
    requires Eligible(w.duts, dut) && GivesCollector(w, dut, after, id)
    ensures AllMoved(w0.duts, after)
  {
    hide C.IsCollector, P.IsRemote, Matching;
    var r := w.duts[dut].remote.value;
    var c := NewRecord(r, id);
    MatchingAppendedHere(w.collectors, r, id);
    forall d | d in w0.duts
      ensures Moved(w0.duts[d], after.duts[d], after.collectors)
    {
      assert Moved(w0.duts[d], w.duts[d], w.collectors);
      if Matching(w.collectors, r).None? {
        MovedStays(w0.duts[d], w.duts[d], w.collectors, c);
      }
    }
  }

  lemma {:induction false} MatchingAppendedHere(st: C.State, r: Remote, id: string)
    requires C.Inv(st)
    ensures id !in st.order && Matching(st, r).None? ==>
      id !in st.records && Matching(C.Put(st, NewRecord(r, id)), r) == Some(id)
  {
    if id !in st.order && Matching(st, r).None? {
      MatchingAppended(st, NewRecord(r, id), r);
    }
  }

  lemma {:induction false} GiftKeepsSettled(w: World, visited: seq<string>, dut: string, after: World, id: string)
    requires Ok(w) && Settled(w, visited)
    requires Eligible(w.duts, dut) && !Refusable(w.collectors, w.duts[dut].remote.value) && GivesCollector(w, dut, after, id)
    ensures Settled(after, visited + [dut])
  {
    hide C.IsCollector, P.IsRemote, C.IsUser, Matching;
    var r := w.duts[dut].remote.value;
    forall d | d in visited + [dut] && Eligible(after.duts, d)
      ensures Refusable(after.collectors, after.duts[d].remote.value)
    {
      assert d != dut;
      assert d in visited && Eligible(w.duts, d);
      if Matching(w.collectors, r).None? {
        RefusableStays(w.collectors, w.duts[d].remote.value, NewRecord(r, id));
      }
    }
  }

  lemma {:induction false} GiftKeepsReports(
      w0: World, w: World, visited: seq<string>, reports: seq<Report>, dut: string, after: World, id: string)
    requires AllMoved(w0.duts, w) && Reported(w0.duts, w, visited, reports) && dut !in visited
    requires Eligible(w.duts, dut) && GivesCollector(w, dut, after, id)
    ensures Reported(w0.duts, after, visited + [dut], reports + [Report(dut, Some(id))])
  {
    hide P.IsRemote, C.IsCollector, Matching, Moved;
    forall i | 0 <= i < |reports|
      ensures ReportHolds(w0.duts, after, reports[i])
    {
      assert ReportHolds(w0.duts, w, reports[i]);
    }
  }

  lemma {:induction false} MigrateSnoc(w: World, front: seq<string>, dut: string)
    ensures var before := Migrate(w, front);
      Migrate(w, front + [dut]) == (MigrateOne(before.0, dut).0, before.1 + MigrateOne(before.0, dut).1)
  {
    hide MigrateOne;
    assert (front + [dut])[..|front|] == front;
  }

  lemma {:induction false} MigrationKeeps(w: World, ids: seq<string>)
    requires Ok(w)
    ensures Migrating(w, Migrate(w, ids).0, ids, Migrate(w, ids).1)
  {
    hide *;
    if ids == [] {
      MigratingAtStart(w);
    } else {
      var front, dut := ids[..|ids| - 1], ids[|ids| - 1];
      assert ids == front + [dut];
      MigrationKeeps(w, front);
      var before := Migrate(w, front);
      MigrateSnoc(w, front, dut);
      MigratingIsOk(w, before.0, front, before.1);
      MigrateOneIs(before.0, dut);
      TurnKeeps(w, before.0, front, before.1, dut, MigrateOne(before.0, dut).0, MigrateOne(before.0, dut).1);
    }
  }

  lemma {:induction false} MigratingAtStart(w: World)
    requires Ok(w)
    ensures Migrating(w, Migrate(w, []).0, [], Migrate(w, []).1)
  {
    hide C.IsCollector, P.IsRemote;
  }

  lemma {:induction false} MigratingIsOk(w0: World, w: World, visited: seq<string>, reports: seq<Report>)
    requires Migrating(w0, w, visited, reports)
    ensures Ok(w)
  {
  }

  // ---- the promises -------------------------------------------------------------------

  /**
    * Whatever nodes are visited: no record, password or session that was there is touched; no added record is a
    * second one for its login; the table stays within bounds; and what is reported is what happened.
    */
  lemma {:induction false} MigrationIsAdditive(w: World, ids: seq<string>)
    requires Ok(w)
    ensures var (after, reports) := Migrate(w, ids);
      && Grew(w.collectors, after.collectors) && OncePerLogin(w.collectors, after.collectors)
      && |after.collectors.records| <= C.MAX_COLLECTORS
      && forall i :: 0 <= i < |reports| ==> reports[i].dut in ids && ReportHolds(w.duts, after, reports[i])
  {
    MigrationKeeps(w, ids);
  }

  /** A node loses nothing: same console, same tokens, same readings, whether or not it was converted. */
  lemma {:induction false} NodesKeepTheirReadings(w: World, ids: seq<string>, dut: string)
    requires Ok(w) && dut in w.duts
    ensures var after := Migrate(w, ids).0;
      && dut in after.duts
      && var ctx, now := w.duts[dut], after.duts[dut];
      && now.(remote := ctx.remote) == ctx
      && IdOf(now.remote) == IdOf(ctx.remote)
      && (forall mode :: TokenOf(now, mode) == TokenOf(ctx, mode))
      && (Anchored(ctx) ==> Anchored(now))
  {
    MigrationKeeps(w, ids);
    var after := Migrate(w, ids).0;
    hide Migrate, Ok, Grew, OncePerLogin, Settled, Reported;
    assert Moved(w.duts[dut], after.duts[dut], after.collectors);
    MovedKeepsId(w.duts[dut], after.duts[dut], after.collectors);
    hide Moved, IdOf, TokenOf, Anchored;
    SameIdSameTokens(w.duts[dut], after.duts[dut]);
  }

  lemma {:induction false} MovedKeepsId(ctx: Context, now: Context, st: C.State)
    requires Moved(ctx, now, st)
    ensures now.(remote := ctx.remote) == ctx && IdOf(now.remote) == IdOf(ctx.remote)
  {
  }

  lemma {:induction false} SameIdSameTokens(ctx: Context, now: Context)
    requires now.(remote := ctx.remote) == ctx && IdOf(now.remote) == IdOf(ctx.remote)
    ensures forall mode :: TokenOf(now, mode) == TokenOf(ctx, mode)
    ensures Anchored(ctx) ==> Anchored(now)
  {
    forall mode
      ensures TokenOf(now, mode) == TokenOf(ctx, mode)
    {
      assert now.remote.Some? <==> ctx.remote.Some?;
    }
    assert TokenOf(now, OnSerial) == TokenOf(ctx, OnSerial) && TokenOf(now, OnSsh) == TokenOf(ctx, OnSsh);
  }

  /** Two nodes that gained a collector share it exactly when they are one login. */
  lemma {:induction false} OneCollectorPerLogin(w: World, ids: seq<string>, a: string, b: string)
    requires Ok(w) && Eligible(w.duts, a) && Eligible(w.duts, b)
    requires var after := Migrate(w, ids).0;
      && a in after.duts && b in after.duts && !Eligible(after.duts, a) && !Eligible(after.duts, b)
    ensures var after := Migrate(w, ids).0;
      && after.duts[a].remote.Some? && after.duts[b].remote.Some?
      && (after.duts[a].remote.value.collectorId == after.duts[b].remote.value.collectorId <==>
          SameLogin(w.duts[a].remote.value, w.duts[b].remote.value))
  {
    MigrationKeeps(w, ids);
    var after := Migrate(w, ids).0;
    hide Migrate, Grew, OncePerLogin, Settled, Reported, P.IsRemote, C.IsCollector;
    assert Moved(w.duts[a], after.duts[a], after.collectors) && Moved(w.duts[b], after.duts[b], after.collectors);
    MatchingIsByLogin(after.collectors, w.duts[a].remote.value, w.duts[b].remote.value);
  }

  predicate SameLogin(q: Remote, r: Remote) {
    q.host == r.host && q.user == r.user && q.port == r.port && q.keyPath == r.keyPath
  }

  lemma {:induction false} MatchingIsByLogin(st: C.State, q: Remote, r: Remote)
    requires Matching(st, q).Some? && Matching(st, r).Some?
    ensures Matching(st, q) == Matching(st, r) <==> SameLogin(q, r)
  {
    MatchInOf(st.order, st.records, q);
    MatchInOf(st.order, st.records, r);
    if SameLogin(q, r) {
      SameMatch(st.order, st.records, q, r);
    }
  }

  lemma {:induction false} SameMatch(order: seq<string>, records: map<string, C.Collector>, q: Remote, r: Remote)
    requires SameLogin(q, r)
    ensures MatchIn(order, records, q) == MatchIn(order, records, r)
  {
    if order != [] {
      SameMatch(order[1..], records, q, r);
    }
  }

  /** A visited node is left over exactly when nobody is its login and the table is full or its login name is refused. */
  lemma {:induction false} LeftOverIff(w: World, ids: seq<string>, dut: string)
    requires Ok(w) && dut in ids && Eligible(w.duts, dut)
    ensures var after := Migrate(w, ids).0;
      Eligible(after.duts, dut) <==> Refusable(after.collectors, w.duts[dut].remote.value)
  {
    MigrationKeeps(w, ids);
    var after := Migrate(w, ids).0;
    hide Migrate, Grew, OncePerLogin, Reported, P.IsRemote, C.IsCollector, Matching, C.IsUser;
    assert Moved(w.duts[dut], after.duts[dut], after.collectors);
  }

  /** Run again, it finds nothing to do. */
  lemma {:induction false} TwiceIsOnce(w: World, ids: seq<string>)
    requires Ok(w)
    ensures Migrate(Migrate(w, ids).0, ids).0 == Migrate(w, ids).0
  {
    MigrationKeeps(w, ids);
    NothingLeft(Migrate(w, ids).0, ids, ids);
  }

  lemma {:induction false} NothingLeft(w: World, visited: seq<string>, ids: seq<string>)
    requires Ok(w) && Settled(w, visited) && forall dut :: dut in ids ==> dut in visited
    ensures Migrate(w, ids).0 == w
  {
    if ids != [] {
      var front, dut := ids[..|ids| - 1], ids[|ids| - 1];
      assert dut in ids;
      NothingLeft(w, visited, front);
      MigrateOneIs(w, dut);
      hide MigrateOne, Ok, Refusable;
    }
  }

  // ---- the id an address gives --------------------------------------------------------

  /** A run of small letters and digits, and a run of anything else. */
  ghost predicate IsWord(s: string) {
    s != [] && forall i :: 0 <= i < |s| ==> 'a' <= s[i] <= 'z' || '0' <= s[i] <= '9'
  }

  ghost predicate IsGap(s: string) {
    forall i :: 0 <= i < |s| ==> !('a' <= s[i] <= 'z') && !('0' <= s[i] <= '9')
  }

  /** Words with gaps around them; only the first and the last gap may be empty. */
  ghost predicate Alternate(words: seq<string>, gaps: seq<string>) {
    && |gaps| == |words| + 1
    && (forall i :: 0 <= i < |words| ==> IsWord(words[i]))
    && (forall i :: 0 <= i < |gaps| ==> IsGap(gaps[i]) && (0 < i < |words| ==> gaps[i] != []))
  }

  function Woven(words: seq<string>, gaps: seq<string>): string
    requires |gaps| == |words| + 1
  {
    if words == [] then gaps[0] else gaps[0] + words[0] + Woven(words[1..], gaps[1..])
  }

  function Hyphened(words: seq<string>): string {
    if words == [] then [] else if |words| == 1 then words[0] else words[0] + "-" + Hyphened(words[1..])
  }

  lemma {:induction false} SlugCharIff(c: char)
    ensures IsSlugChar(c) <==> 'a' <= c <= 'z' || '0' <= c <= '9'
  {
  }

  lemma {:induction false} DashedWord(word: string, rest: string)
    requires forall i :: 0 <= i < |word| ==> IsSlugChar(word[i])
    ensures Dashed(word + rest) == word + Dashed(rest)
  {
    if word == [] {
      assert word + rest == rest;
    } else {
      assert (word + rest)[1..] == word[1..] + rest;
      DashedWord(word[1..], rest);
    }
  }

  lemma {:induction false} SkipGap(gap: string, rest: string)
    requires forall i :: 0 <= i < |gap| ==> !IsSlugChar(gap[i])
    requires rest == [] || IsSlugChar(rest[0])
    ensures SkipUnsafe(gap + rest) == rest
  {
    if gap == [] {
      assert gap + rest == rest;
    } else {
      assert (gap + rest)[1..] == gap[1..] + rest;
      SkipGap(gap[1..], rest);
    }
  }

  /** What a gap becomes. */
  function Hyphen(gap: string): string { if gap == [] then [] else "-" }

  lemma {:induction false} DashedGap(gap: string, rest: string)
    requires forall i :: 0 <= i < |gap| ==> !IsSlugChar(gap[i])
    requires rest == [] || IsSlugChar(rest[0])
    ensures Dashed(gap + rest) == Hyphen(gap) + Dashed(rest)
  {
    if gap == [] {
      assert gap + rest == rest;
    } else {
      assert (gap + rest)[1..] == gap[1..] + rest;
      SkipGap(gap[1..], rest);
    }
  }

  lemma {:induction false} AlternateParts(words: seq<string>, gaps: seq<string>)
    requires Alternate(words, gaps)
    ensures forall i :: 0 <= i < |gaps[0]| ==> !IsSlugChar(gaps[0][i])
    ensures words != [] ==>
      && words[0] != [] && (forall i :: 0 <= i < |words[0]| ==> IsSlugChar(words[0][i]))
      && Alternate(words[1..], gaps[1..]) && (|words| > 1 ==> gaps[1] != [])
  {
    assert IsGap(gaps[0]);
    assert words != [] ==> IsWord(words[0]);
  }

  lemma {:induction false} DashedWoven(words: seq<string>, gaps: seq<string>)
    requires Alternate(words, gaps)
    ensures Dashed(Woven(words, gaps)) ==
            if words == [] then Hyphen(gaps[0]) else Hyphen(gaps[0]) + Hyphened(words) + Hyphen(gaps[|words|])
    decreases |words|
  {
    AlternateParts(words, gaps);
    hide Alternate, Dashed;
    assert |gaps| == |words| + 1 by { AlternateSize(words, gaps); }
    if words == [] {
      assert gaps[0] + [] == gaps[0];
      DashedGap(gaps[0], []);
      EmptyDashed();
    } else {
      var rest := Woven(words[1..], gaps[1..]);
      DashedWoven(words[1..], gaps[1..]);
      assert (words[0] + rest)[0] == words[0][0];
      assert Woven(words, gaps) == gaps[0] + (words[0] + rest);
      DashedGap(gaps[0], words[0] + rest);
      DashedWord(words[0], rest);
      HyphenedOn(words, gaps, Dashed(rest));
    }
  }

  lemma {:induction false} AlternateSize(words: seq<string>, gaps: seq<string>)
    requires Alternate(words, gaps)
    ensures |gaps| == |words| + 1
  {
  }

  lemma {:induction false} EmptyDashed()
    ensures Dashed([]) == []
  {
  }

  lemma {:induction false} HyphenedOn(words: seq<string>, gaps: seq<string>, dashed: string)
    requires words != [] && |gaps| == |words| + 1 && (|words| > 1 ==> gaps[1] != [])
    requires var rest := words[1..];
      dashed == if rest == [] then Hyphen(gaps[1..][0]) else Hyphen(gaps[1..][0]) + Hyphened(rest) + Hyphen(gaps[1..][|rest|])
    ensures Hyphen(gaps[0]) + (words[0] + dashed) == Hyphen(gaps[0]) + Hyphened(words) + Hyphen(gaps[|words|])
  {
    if |words| > 1 {
      assert words[0] + ("-" + Hyphened(words[1..]) + Hyphen(gaps[|words|])) ==
             words[0] + "-" + Hyphened(words[1..]) + Hyphen(gaps[|words|]);
    }
  }

  lemma {:induction false} HyphenedEnds(words: seq<string>)
    requires words != [] && forall i :: 0 <= i < |words| ==> IsWord(words[i])
    ensures var h := Hyphened(words); h != [] && IsSlugChar(h[0]) && IsSlugChar(h[|h| - 1])
  {
    assert IsWord(words[0]);
    if |words| > 1 {
      HyphenedEnds(words[1..]);
    }
  }

  lemma {:induction false} StripHyphens(a: string, h: string, b: string)
    requires a in {"", "-"} && b in {"", "-"}
    requires h != [] && h[0] != '-' && h[|h| - 1] != '-'
    ensures StripDash(a + h + b) == h
  {
    var s, left := a + h + b, a + h;
    assert left[|left| - 1] == h[|h| - 1];
    assert RDash(left) == left;
    if b == "-" {
      assert s[|s| - 1] == '-' && s[..|s| - 1] == left;
    } else {
      assert s == left;
    }
    assert LDash(h) == h;
    if a == "-" {
      assert left[0] == '-' && left[1..] == h;
    } else {
      assert left == h;
    }
  }

  /** The id of an address: its words in lower case, joined by hyphens and cut after 32 characters; `pi` for none. */
  lemma {:induction false} IdOfWords(host: string, words: seq<string>, gaps: seq<string>)
    requires Alternate(words, gaps) && Lower(Strip(host)) == Woven(words, gaps)
    ensures words == [] ==> IdForHost(host) == "pi"
    ensures words != [] ==> IdForHost(host) <= Hyphened(words)
    ensures words != [] ==> |IdForHost(host)| == if |Hyphened(words)| < 32 then |Hyphened(words)| else 32
  {
    hide Strip, Lower, Dashed, Alternate, Woven;
    DashedWoven(words, gaps);
    AlternateSize(words, gaps);
    if words == [] {
      assert RDash("-") == [] by { assert "-"[..0] == []; }
      PiIsSlug();
      assert "pi-" + [] == "pi-";
    } else {
      WordsAreWords(words, gaps);
      HyphenedEnds(words);
      StripHyphens(Hyphen(gaps[0]), Hyphened(words), Hyphen(gaps[|words|]));
    }
  }

  lemma {:induction false} WordsAreWords(words: seq<string>, gaps: seq<string>)
    requires Alternate(words, gaps)
    ensures forall i :: 0 <= i < |words| ==> IsWord(words[i])
  {
  }

  /** Every address falls into words and gaps, so that is what every address gives. */
  lemma {:induction false} FallsIntoWords(s: string) returns (words: seq<string>, gaps: seq<string>)
    ensures Alternate(words, gaps) && Woven(words, gaps) == s
    ensures s != [] && IsSlugChar(s[0]) ==> words != [] && gaps[0] == []
  {
    if s == [] {
      words, gaps := [], [[]];
    } else {
      words, gaps := FallsIntoWords(s[1..]);
      if IsSlugChar(s[0]) {
        words, gaps := OneLetterMore(s[0], words, gaps);
      } else {
        gaps := OneBlankMore(s[0], words, gaps);
      }
    }
  }

  lemma {:induction false} OneBlankMore(c: char, words: seq<string>, gaps0: seq<string>) returns (gaps: seq<string>)
    requires Alternate(words, gaps0) && !IsSlugChar(c)
    ensures Alternate(words, gaps) && Woven(words, gaps) == [c] + Woven(words, gaps0)
  {
    gaps := gaps0[0 := [c] + gaps0[0]];
    assert gaps[1..] == gaps0[1..];
    assert words != [] ==>
        [c] + gaps0[0] + words[0] + Woven(words[1..], gaps[1..]) ==
        [c] + (gaps0[0] + words[0] + Woven(words[1..], gaps0[1..]));
  }

  lemma {:induction false} OneLetterMore(c: char, words0: seq<string>, gaps0: seq<string>)
    returns (words: seq<string>, gaps: seq<string>)
    requires Alternate(words0, gaps0) && IsSlugChar(c)
    ensures Alternate(words, gaps) && Woven(words, gaps) == [c] + Woven(words0, gaps0)
    ensures words != [] && gaps[0] == []
  {
    if words0 != [] && gaps0[0] == [] {
      words, gaps := words0[0 := [c] + words0[0]], gaps0;
      assert IsWord(words0[0]);
      assert words[1..] == words0[1..];
      assert [] + ([c] + words0[0]) + Woven(words0[1..], gaps0[1..]) == [c] + ([] + words0[0] + Woven(words0[1..], gaps0[1..]));
    } else {
      words, gaps := [[c]] + words0, [[]] + gaps0;
      assert words[1..] == words0 && gaps[1..] == gaps0;
    }
  }

  /** The ids the documentation promises. */
  lemma {:induction false} IdsOfTheBench()
    ensures IdForHost("10.0.0.24") == "10-0-0-24"
    ensures IdForHost("pi-node-1.local") == "pi-node-1-local"
    ensures IdForHost("PI-NODE-1") == "pi-node-1"
  {
    AddressId();
    NameId();
    UpperId();
  }

  lemma {:induction false} ThreeWords(a: string, b: string, c: string, x: string, y: string, lead: string)
    requires IsWord(a) && IsWord(b) && IsWord(c) && IsGap(x) && x != [] && IsGap(y) && y != [] && IsGap(lead)
    ensures Alternate([a, b, c], [lead, x, y, ""])
    ensures Woven([a, b, c], [lead, x, y, ""]) == lead + a + x + b + y + c
    ensures Hyphened([a, b, c]) == a + "-" + b + "-" + c
  {
    hide IsWord, IsGap;
    var words, gaps := [a, b, c], [lead, x, y, ""];
    assert IsGap("") by { EmptyIsGap(); }
    assert words[1..] == [b, c] && [b, c][1..] == [c] && [c][1..] == [];
    assert gaps[1..] == [x, y, ""] && [x, y, ""][1..] == [y, ""] && [y, ""][1..] == [""];
    assert Woven([c], [y, ""]) == y + c;
    assert Woven([b, c], [x, y, ""]) == x + b + y + c;
    assert Woven(words, gaps) == lead + a + (x + b + y + c);
    assert Hyphened([b, c]) == b + "-" + c;
    assert Hyphened(words) == a + "-" + (b + "-" + c);
  }

  lemma {:induction false} EmptyIsGap()
    ensures IsGap("")
  {
  }

  lemma {:induction false} FourWords(a: string, b: string, c: string, d: string, x: string, y: string, z: string)
    requires IsWord(a) && IsWord(b) && IsWord(c) && IsWord(d)
    requires IsGap(x) && x != [] && IsGap(y) && y != [] && IsGap(z) && z != []
    ensures Alternate([a, b, c, d], ["", x, y, z, ""])
    ensures Woven([a, b, c, d], ["", x, y, z, ""]) == a + x + b + y + c + z + d
    ensures Hyphened([a, b, c, d]) == a + "-" + b + "-" + c + "-" + d
  {
    hide IsWord, IsGap;
    ThreeWords(b, c, d, y, z, x);
    EmptyIsGap();
    var words, gaps := [a, b, c, d], ["", x, y, z, ""];
    assert words[1..] == [b, c, d] && gaps[1..] == [x, y, z, ""];
    assert Woven(words, gaps) == "" + a + (x + b + y + c + z + d);
  }

  lemma {:induction false} IdOfFewWords(host: string, words: seq<string>, gaps: seq<string>, id: string)
    requires Alternate(words, gaps) && words != [] && IsTrimmed(host) && Lower(host) == Woven(words, gaps)
    requires id == Hyphened(words) && |id| <= 32
    ensures IdForHost(host) == id
  {
    hide IdForHost, Alternate, Woven, Hyphened, Lower, IsTrimmed;
    StripOfTrimmed(host);
    IdOfWords(host, words, gaps);
  }

  lemma {:induction false} AddressId()
    ensures IdForHost("10.0.0.24") == "10-0-0-24"
  {
    hide IdForHost, Alternate, Woven, Hyphened;
    FourWords("10", "0", "0", "24", ".", ".", ".");
    assert Lower("10.0.0.24") == "10.0.0.24";
    hide Lower;
    IdOfFewWords("10.0.0.24", ["10", "0", "0", "24"], ["", ".", ".", ".", ""], "10-0-0-24");
  }

  lemma {:induction false} NameId()
    ensures IdForHost("pi-node-1.local") == "pi-node-1-local"
  {
    hide IdForHost, Alternate, Woven, Hyphened;
    FourWords("pi", "node", "1", "local", "-", "-", ".");
    NameInLower();
    hide Lower;
    IdOfFewWords("pi-node-1.local", ["pi", "node", "1", "local"], ["", "-", "-", ".", ""], "pi-node-1-local");
  }

  lemma {:induction false} NameInLower()
    ensures Lower("pi-node-1.local") == "pi-node-1.local"
  {
  }

  lemma {:induction false} UpperId()
    ensures IdForHost("PI-NODE-1") == "pi-node-1"
  {
    hide IdForHost, Alternate, Woven, Hyphened;
    ThreeWords("pi", "node", "1", "-", "-", "");
    assert Lower("PI-NODE-1") == "pi-node-1";
    hide Lower;
    IdOfFewWords("PI-NODE-1", ["pi", "node", "1"], ["", "-", "-", ""], "pi-node-1");
  }

  /** The suffixed id with number `k`. */
  ghost predicate IsSuffixed(id: string, wanted: string, k: nat) {
    exists head :: head <= wanted && |head| == (if |wanted| < 29 then |wanted| else 29) && id == head + "-" + Decimal(k)
  }

  lemma {:induction false} SuffixedIff(id: string, wanted: string, k: nat)
    ensures id == Candidate(wanted, k) <==> IsSuffixed(id, wanted, k)
  {
  }

  /** Where the search ends: on the first of its ids from 2 to 99 that nobody has. */
  lemma {:induction false} SearchEnds(ids: seq<string>, wanted: string, k: nat, id: string)
    requires k <= 100
    ensures FreeFrom(ids, wanted, k) == Some(id) <==>
            id !in ids && exists n: nat :: k <= n < 100 && id == Candidate(wanted, n)
                                           && forall j: nat :: k <= j < n ==> Candidate(wanted, j) in ids
    decreases 100 - k
  {
    if k < 100 {
      SearchEnds(ids, wanted, k + 1, id);
      if Candidate(wanted, k) !in ids && Candidate(wanted, k) == id {
        assert id !in ids && k <= k < 100 && id == Candidate(wanted, k);
      }
    }
  }

  /** The id a new collector gets: the wanted one, or with the first suffix from 2 up that is free. */
  lemma {:induction false} FreeIdIff(ids: seq<string>, wanted: string, id: string)
    ensures FreeId(ids, wanted) == Some(id) <==>
      && id !in ids
      && if wanted !in ids then id == wanted
         else exists n: nat :: 2 <= n < 100 && IsSuffixed(id, wanted, n)
                               && forall j: nat, other :: 2 <= j < n && IsSuffixed(other, wanted, j) ==> other in ids
  {
    hide Candidate, IsSuffixed, FreeFrom;
    SearchEnds(ids, wanted, 2, id);
    forall n: nat
      ensures IsSuffixed(id, wanted, n) <==> id == Candidate(wanted, n)
      ensures (forall j: nat, other :: 2 <= j < n && IsSuffixed(other, wanted, j) ==> other in ids) <==>
              (forall j: nat :: 2 <= j < n ==> Candidate(wanted, j) in ids)
    {
      SuffixedIff(id, wanted, n);
      EarlierTaken(ids, wanted, n);
    }
  }

  lemma {:induction false} EarlierTaken(ids: seq<string>, wanted: string, n: nat)
    ensures (forall j: nat, other :: 2 <= j < n && IsSuffixed(other, wanted, j) ==> other in ids) <==>
            (forall j: nat :: 2 <= j < n ==> Candidate(wanted, j) in ids)
  {
    hide Candidate, IsSuffixed;
    forall j: nat, other
      ensures IsSuffixed(other, wanted, j) <==> other == Candidate(wanted, j)
    {
      SuffixedIff(other, wanted, j);
    }
    forall j: nat
      ensures IsSuffixed(Candidate(wanted, j), wanted, j)
    {
      SuffixedIff(Candidate(wanted, j), wanted, j);
    }
  }

  // ---- what a migrated node becomes ---------------------------------------------------

  /** A record is the login a node used: same address, name, port and key. */
  ghost predicate IsLoginOf(c: C.Collector, r: Remote) {
    c.ip == r.host && c.user == r.user && c.port == r.port && c.auth == C.ByKey && c.keyPath == Some(r.keyPath)
  }

  /** The first of the records, in the order they were added, that is the node's login. */
  ghost predicate IsFirstMatch(st: C.State, r: Remote, id: string) {
    exists i :: 0 <= i < |st.order| && st.order[i] == id && id in st.records && IsLoginOf(st.records[id], r)
                && forall j :: 0 <= j < i && st.order[j] in st.records ==> !IsLoginOf(st.records[st.order[j]], r)
  }

  lemma {:induction false} MatchInIff(order: seq<string>, records: map<string, C.Collector>, r: Remote)
    ensures MatchIn(order, records, r).Some? ==>
      exists i :: 0 <= i < |order| && Some(order[i]) == MatchIn(order, records, r) && order[i] in records
                  && IsLoginOf(records[order[i]], r)
                  && forall j :: 0 <= j < i && order[j] in records ==> !IsLoginOf(records[order[j]], r)
    ensures MatchIn(order, records, r).None? ==>
      forall i :: 0 <= i < |order| && order[i] in records ==> !IsLoginOf(records[order[i]], r)
  {
    if order != [] && !(order[0] in records && Matches(records[order[0]], r)) {
      MatchInIff(order[1..], records, r);
      if MatchIn(order[1..], records, r).Some? {
        var i :| 0 <= i < |order[1..]| && Some(order[1..][i]) == MatchIn(order[1..], records, r) && order[1..][i] in records
                 && IsLoginOf(records[order[1..][i]], r)
                 && forall j :: 0 <= j < i && order[1..][j] in records ==> !IsLoginOf(records[order[1..][j]], r);
        assert order[i + 1] == order[1..][i];
        forall j | 0 <= j < i + 1 && order[j] in records
          ensures !IsLoginOf(records[order[j]], r)
        {
          assert j > 0 ==> order[j] == order[1..][j - 1];
        }
      } else {
        assert forall i :: 0 < i < |order| ==> order[i] == order[1..][i - 1];
      }
    }
  }

  /** A new record for the node's box: its login, its label the box's address, and nobody's idea of its name. */
  ghost predicate IsBoxOf(c: C.Collector, r: Remote) {
    && IsLoginOf(c, r) && c.hostname.None?
    && c.displayName <= "Collector " + r.host
    && |c.displayName| == if |r.host| + 10 < 48 then |r.host| + 10 else 48
  }

  /** A node without a collector, with a key. */
  ghost predicate Waiting(duts: Contexts, dut: string, r: Remote) {
    dut in duts && duts[dut].remote == Some(r) && r.collectorId == None && r.keyPath != ""
  }

  /**
    * A waiting node joins the first record that is its login; failing that, and unless eight are registered or its
    * login name holds a colon, it gets a record of its own under the id its address gives or the first free variant.
    */
  lemma {:induction false} WhatANodeBecomes(w: World, dut: string, r: Remote)
    requires Ok(w) && Waiting(w.duts, dut, r)
    ensures var (after, reports) := MigrateOne(w, dut);
      if Matching(w.collectors, r).None? && (|w.collectors.order| >= 8 || !NoColon(r.user))
      then after == w && reports == [Report(dut, None)]
      else exists id :: Became(w, dut, r, after, id) && reports == [Report(dut, Some(id))]
    ensures Matching(w.collectors, r).None? <==>
            forall id :: id in w.collectors.order && id in w.collectors.records ==> !IsLoginOf(w.collectors.records[id], r)
  {
    hide Refusable, GivesCollector, Matching, C.IsCollector, P.IsRemote, IdForHost, FreeId, MigrateOne;
    MigrateOneIs(w, dut);
    RefusableIff(w, dut, r);
    MatchingIff(w.collectors, r);
    var (after, reports) := MigrateOne(w, dut);
    if !Refusable(w.collectors, r) {
      var id :| GivesCollector(w, dut, after, id) && reports == [Report(dut, Some(id))];
      GivenIsBecome(w, dut, r, after, id);
    }
  }

  /** Any other device is left alone, and not reported. */
  lemma {:induction false} OthersAreLeftAlone(w: World, dut: string)
    requires forall r :: !Waiting(w.duts, dut, r)
    ensures MigrateOne(w, dut) == (w, [])
  {
    if dut in w.duts && w.duts[dut].remote.Some? {
      assert !Waiting(w.duts, dut, w.duts[dut].remote.value);
    }
  }

  ghost predicate NoColon(user: string) { forall i :: 0 <= i < |user| ==> user[i] != ':' }

  ghost predicate Became(w: World, dut: string, r: Remote, after: World, id: string)
    requires dut in w.duts
  {
    && after.duts == w.duts[dut := w.duts[dut].(remote := Some(r.(collectorId := Some(id))))]
    && if IsFirstMatch(w.collectors, r, id) then after.collectors == w.collectors
       else
         && id !in w.collectors.records && Some(id) == FreeId(w.collectors.order, IdForHost(r.host))
         && after.collectors.order == w.collectors.order + [id]
         && id in after.collectors.records && IsBoxOf(after.collectors.records[id], r)
         && after.collectors == w.collectors.(order := after.collectors.order, records := after.collectors.records)
         && after.collectors.records == w.collectors.records[id := after.collectors.records[id]]
  }

  lemma {:induction false} RefusableIff(w: World, dut: string, r: Remote)
    requires Ok(w) && Waiting(w.duts, dut, r)
    ensures Eligible(w.duts, dut)
    ensures Refusable(w.collectors, r) <==> Matching(w.collectors, r).None? && (|w.collectors.order| >= 8 || !NoColon(r.user))
  {
    hide C.Inv;
    assert P.IsRemote(r);
    assert IsToken(r.user);
    hide P.IsRemote, IsToken, Matching;
  }

  lemma {:induction false} MatchingIff(st: C.State, r: Remote)
    ensures Matching(st, r).None? <==> forall id :: id in st.order && id in st.records ==> !IsLoginOf(st.records[id], r)
    ensures Matching(st, r).Some? ==> IsFirstMatch(st, r, Matching(st, r).value)
  {
    MatchInOf(st.order, st.records, r);
    MatchInIff(st.order, st.records, r);
    assert forall c :: IsLoginOf(c, r) <==> Matches(c, r);
  }

  lemma {:induction false} GivenIsBecome(w: World, dut: string, r: Remote, after: World, id: string)
    requires Ok(w) && Waiting(w.duts, dut, r) && Eligible(w.duts, dut) && GivesCollector(w, dut, after, id)
    ensures Became(w, dut, r, after, id)
  {
    MatchingIff(w.collectors, r);
    hide Matching, C.IsCollector, P.IsRemote, IdForHost, FreeId, IsFirstMatch;
    if Matching(w.collectors, r).None? {
      NoMatchNoFirst(w.collectors, r, id);
      NewRecordIsBox(r, id);
      assert id !in w.collectors.records;
    }
  }

  lemma {:induction false} NoMatchNoFirst(st: C.State, r: Remote, id: string)
    requires forall id :: id in st.order && id in st.records ==> !IsLoginOf(st.records[id], r)
    ensures !IsFirstMatch(st, r, id)
  {
  }

  lemma {:induction false} NewRecordIsBox(r: Remote, id: string)
    ensures IsBoxOf(NewRecord(r, id), r)
  {
  }
}
