/** What a restart brings back of the devices: the saved file, its cleaning, and the merge into a fresh registry. */
module DutPersistence {
  import opened Common
  import opened Sorting
  import opened Text
  import opened SurveyNames
  import opened DutConsoles
  import opened Fields

  datatype RawSerial = NoSerial | RawSerial(port: Value, baudrate: Value)
  datatype RawRemote = NoRemote | RawRemote(
    host: Value, user: Value, device: Value, keyPath: Value, collectorId: Value, port: Value, baudrate: Value,
    isMesh: Value, backhaulIface: Value)
  datatype RawEntry = RawEntry(
    id: Value, displayName: Value, lastSerial: RawSerial, mgmtUrl: Value, remote: RawRemote, model: Value,
    deviceId: Value)

  /** The parts this model leaves to the library: what is printable, and the two detectors. */
  datatype Library = Library(
    printable: char -> bool, detectModel: string -> Option<string>, detectDeviceId: string -> Option<string>)

  // ---- cleaning -----------------------------------------------------------------------

  const MAX_LABEL: nat := 48

  function CleanLabel(v: Value, lib: Library): Option<string> {
    if !v.Str? then None
    else
      var cleaned := Strip(Printed(v.s, lib.printable));
      if cleaned == [] || |cleaned| > MAX_LABEL then None else Some(cleaned)
  }

  function CleanSerial(raw: RawSerial): Option<Serial> {
    if raw.NoSerial? || !raw.port.Str? || raw.port.s == "" || !raw.baudrate.Number? || raw.baudrate.n <= 0 then None
    else Some(Serial(raw.port.s, raw.baudrate.n))
  }

  predicate IsDeviceChar(c: char) { IsAlnum(c) || c in "._/-" }

  predicate IsDevice(s: string) {
    && StartsWith(s, "/dev/") && |s| > 5
    && (forall i :: 5 <= i < |s| ==> IsDeviceChar(s[i]))
    && forall i :: 0 <= i < |s| - 1 ==> !(s[i] == '.' && s[i + 1] == '.')
  }

  predicate IsIface(s: string) { StartsWith(s, "ath") && |s| > 3 && AllDigits(s[3..]) }

  /** A number, with the default a missing field stands for. */
  function NumberOr(v: Value, default: int): Option<int> {
    match v
    case Absent => Some(default)
    case Number(n) => if n > 0 then Some(n) else None
    case _ => None
  }

  function KeyPath(raw: RawRemote): string
    requires raw.RawRemote?
  {
    if HasText(raw.keyPath) then Strip(raw.keyPath.s) else ""
  }

  /** A key, or a collector to go through. */
  predicate LoginOpen(raw: RawRemote)
    requires raw.RawRemote?
  {
    && (Given(raw.collectorId) ==> raw.collectorId.Str? && IsDutId(Strip(raw.collectorId.s)))
    && (HasText(raw.keyPath) || Given(raw.collectorId))
  }

  predicate LoginOk(raw: RawRemote)
    requires raw.RawRemote?
  {
    && HasText(raw.host) && HasText(raw.user) && HasText(raw.device) && LoginOpen(raw)
    && IsToken(Strip(raw.host.s)) && IsToken(Strip(raw.user.s))
    && IsDevice(Strip(raw.device.s))
  }

  predicate MeshOk(raw: RawRemote)
    requires raw.RawRemote?
  {
    && (raw.isMesh == Absent || raw.isMesh.Flag?)
    && (raw.backhaulIface.Str? ==> IsIface(Strip(raw.backhaulIface.s)))
    && ((raw.isMesh == Absent || raw.isMesh == Flag(true)) ==> raw.backhaulIface.Str?)
  }

  function CleanRemote(raw: RawRemote): Option<Remote> {
    if raw.NoRemote? || !LoginOk(raw) || !MeshOk(raw) then None
    else
      var port, baudrate := NumberOr(raw.port, 22), NumberOr(raw.baudrate, 115200);
      if port.None? || baudrate.None? || port.value > 65535 then None
      else
        Some(Remote(
          Strip(raw.host.s), Strip(raw.user.s), KeyPath(raw), port.value, Strip(raw.device.s), baudrate.value,
          raw.isMesh == Absent || raw.isMesh == Flag(true),
          if raw.backhaulIface.Str? then Some(Strip(raw.backhaulIface.s)) else None,
          if Given(raw.collectorId) then Some(Strip(raw.collectorId.s)) else None))
  }

  // ---- the file -----------------------------------------------------------------------

  function OptionalStr(x: Option<string>, otherwise: Value): Value {
    if x.None? then otherwise else Str(x.value)
  }

  function RawOfSerial(s: Option<Serial>): RawSerial {
    if s.None? then NoSerial else RawSerial(Str(s.value.port), Number(s.value.baudrate))
  }

  function RawOfRemote(r: Option<Remote>): RawRemote {
    if r.None? then NoRemote
    else
      var v := r.value;
      RawRemote(Str(v.host), Str(v.user), Str(v.device), Str(v.keyPath), OptionalStr(v.collectorId, Absent),
                Number(v.port), Number(v.baudrate), Flag(v.isMesh), OptionalStr(v.backhaulIface, Null))
  }

  predicate Truthy(x: Option<string>) { x.Some? && x.value != "" }

  function EntryFor(dut: string, ctx: Context): RawEntry {
    RawEntry(
      Str(dut), Str(ctx.displayName), RawOfSerial(ctx.lastSerial),
      if ctx.mgmtUrl != "" then Str(ctx.mgmtUrl) else Absent,
      RawOfRemote(ctx.remote),
      if Truthy(ctx.model) then Str(ctx.model.value) else Absent,
      if Truthy(ctx.deviceId) then Str(ctx.deviceId.value) else Absent)
  }

  const DEFAULT_LABEL := "Default"

  /** The default device is written only once it has something worth carrying across. */
  predicate WorthSaving(dut: string, ctx: Context) {
    || dut != DEFAULT_DUT || ctx.lastSerial.Some? || ctx.mgmtUrl != "" || ctx.remote.Some?
    || ctx.displayName != DEFAULT_LABEL || Truthy(ctx.model) || Truthy(ctx.deviceId)
  }

  /** The entries of a registry whose devices were added in the order of `ids`. */
  function Saved(ids: seq<string>, duts: Contexts): seq<RawEntry>
    requires forall dut :: dut in ids ==> dut in duts
  {
    if ids == [] then []
    else
      var before, dut := Saved(ids[..|ids| - 1], duts), ids[|ids| - 1];
      if WorthSaving(dut, duts[dut]) then before + [EntryFor(dut, duts[dut])] else before
  }

  datatype Registry = Registry(duts: Contexts, next: nat)

  /** A saved text through a detector; a missing one is asked about as an empty text. */
  function Detected(v: Value, detect: string -> Option<string>): Option<string> {
    detect(if v.Str? then v.s else "")
  }

  /** What an entry says about a device that is already there is merged, never cleared. */
  function Merged(ctx: Context, e: RawEntry, lib: Library): Context {
    var displayName, serial, remote := CleanLabel(e.displayName, lib), CleanSerial(e.lastSerial), CleanRemote(e.remote);
    var model, deviceId := Detected(e.model, lib.detectModel), Detected(e.deviceId, lib.detectDeviceId);
    ctx.(displayName := displayName.GetOr(ctx.displayName),
         lastSerial := if serial.Some? then serial else ctx.lastSerial,
         mgmtUrl := if e.mgmtUrl.Str? && e.mgmtUrl.s != "" then e.mgmtUrl.s else ctx.mgmtUrl,
         model := if model.Some? then model else ctx.model,
         deviceId := if deviceId.Some? then deviceId else ctx.deviceId,
         remote := if remote.Some? then remote else ctx.remote)
  }

  /** A device the entry creates: the management address is not among what is read back. */
  function Created(dut: string, e: RawEntry, lib: Library, registration: nat): Context {
    Fresh(CleanLabel(e.displayName, lib).GetOr(dut), registration).(
      lastSerial := CleanSerial(e.lastSerial), remote := CleanRemote(e.remote),
      model := Detected(e.model, lib.detectModel), deviceId := Detected(e.deviceId, lib.detectDeviceId))
  }

  function LoadEntry(r: Registry, e: RawEntry, lib: Library): Registry {
    if !e.id.Str? || !IsAdmitted(e.id.s) then r
    else
      var dut := e.id.s;
      if dut in r.duts then r.(duts := r.duts[dut := Merged(r.duts[dut], e, lib)])
      else Registry(r.duts[dut := Created(dut, e, lib, r.next)], r.next + 1)
  }

  function Load(r: Registry, entries: seq<RawEntry>, lib: Library): Registry {
    if entries == [] then r
    else LoadEntry(Load(r, entries[..|entries| - 1], lib), entries[|entries| - 1], lib)
  }

  /** A registry as a boot makes it, before the file is read. */
  const BOOT: Registry := Registry(map[DEFAULT_DUT := Fresh(DEFAULT_LABEL, 0)], 1)

  method SaveLocked(ids: seq<string>, duts: Contexts) returns (entries: seq<RawEntry>)
    requires forall dut :: dut in ids ==> dut in duts
    ensures entries == Saved(ids, duts)
  {
    entries := [];
    for i := 0 to |ids|
      invariant entries == Saved(ids[..i], duts)
    {
      assert ids[..i + 1][..i] == ids[..i];
      var ctx := duts[ids[i]];
      if WorthSaving(ids[i], ctx) {
        entries := entries + [EntryFor(ids[i], ctx)];
      }
    }
    assert ids[..|ids|] == ids;
  }

  method LoadPersisted(entries: seq<RawEntry>, lib: Library) returns (r: Registry)
    ensures r == Load(BOOT, entries, lib)
  {
    r := BOOT;
    for i := 0 to |entries|
      invariant r == Load(BOOT, entries[..i], lib)
    {
      assert entries[..i + 1][..i] == entries[..i];
      var e := entries[i];
      if !e.id.Str? || !IsAdmitted(e.id.s) {
        continue;
      }
      var dut := e.id.s;
      if dut in r.duts {
        r := r.(duts := r.duts[dut := Merged(r.duts[dut], e, lib)]);
        continue;
      }
      r := Registry(r.duts[dut := Created(dut, e, lib, r.next)], r.next + 1);
    }
    assert entries[..|entries|] == entries;
  }

  // ---- cleaning twice is cleaning once ------------------------------------------------

  /** A cleaned label passes its own cleaning unchanged. */
  lemma {:induction false} CleanLabelIdempotent(v: Value, lib: Library)
    requires CleanLabel(v, lib).Some?
    ensures CleanLabel(Str(CleanLabel(v, lib).value), lib) == CleanLabel(v, lib)
  {
    var cleaned := CleanLabel(v, lib).value;
    PrintedIsPrintable(v.s, lib.printable);
    StripTrims(Printed(v.s, lib.printable));
    PrintedOfPrintable(cleaned, lib.printable);
    StripOfTrimmed(cleaned);
  }

  /** Everything a cleaned remote configuration is. */
  predicate IsRemote(r: Remote) {
    && IsToken(r.host) && IsToken(r.user) && IsDevice(r.device)
    && IsTrimmed(r.host) && IsTrimmed(r.user) && IsTrimmed(r.device) && IsTrimmed(r.keyPath)
    && 1 <= r.port <= 65535 && r.baudrate > 0
    && (r.backhaulIface.Some? ==> IsIface(r.backhaulIface.value) && IsTrimmed(r.backhaulIface.value))
    && (r.isMesh ==> r.backhaulIface.Some?)
    && (r.collectorId.Some? ==> IsDutId(r.collectorId.value) && IsTrimmed(r.collectorId.value))
    && (r.keyPath == "" ==> r.collectorId.Some?)
  }

  lemma {:induction false} CleanRemoteIs(raw: RawRemote)
    requires CleanRemote(raw).Some?
    ensures IsRemote(CleanRemote(raw).value)
  {
    StripTrims(raw.host.s);
    StripTrims(raw.user.s);
    StripTrims(raw.device.s);
    if HasText(raw.keyPath) {
      StripTrims(raw.keyPath.s);
    }
    if raw.backhaulIface.Str? {
      StripTrims(raw.backhaulIface.s);
    }
    if Given(raw.collectorId) {
      StripTrims(raw.collectorId.s);
    }
  }

  /** A configuration is what some cleaning gave exactly when it satisfies the rules, and then it cleans to itself. */
  lemma {:induction false} CleanRemoteIdempotent(r: Remote)
    ensures IsRemote(r) <==> CleanRemote(RawOfRemote(Some(r))) == Some(r)
  {
    if IsRemote(r) {
      StripOfTrimmed(r.host);
      StripOfTrimmed(r.user);
      StripOfTrimmed(r.device);
      StripOfTrimmed(r.keyPath);
      if r.backhaulIface.Some? {
        StripOfTrimmed(r.backhaulIface.value);
      }
      if r.collectorId.Some? {
        StripOfTrimmed(r.collectorId.value);
      }
    } else if CleanRemote(RawOfRemote(Some(r))) == Some(r) {
      CleanRemoteIs(RawOfRemote(Some(r)));
    }
  }

  // ---- what cleaning takes, in the words of the file ----------------------------------

  /** A label: what is printable of the text, between white space, and not more than 48 characters of it. */
  lemma {:induction false} LabelIff(v: Value, lib: Library, shown: string)
    ensures CleanLabel(v, lib) == Some(shown) <==>
            v.Str? && 0 < |shown| < 49 && StripsTo(Printed(v.s, lib.printable), shown)
  {
    hide Strip, StripsTo, Printed;
    if v.Str? {
      StripIff(Printed(v.s, lib.printable), shown);
    }
  }

  lemma {:induction false} SerialIff(raw: RawSerial, s: Serial)
    ensures CleanSerial(raw) == Some(s) <==>
            raw == RawSerial(Str(s.port), Number(s.baudrate)) && s.port != "" && 0 < s.baudrate
  {
  }

  /** A device file: under `/dev/`, of letters, digits and `._/-`, and never two dots in a row. */
  lemma {:induction false} DeviceIff(s: string)
    ensures IsDevice(s) <==>
      && |s| >= 6 && s[..5] == "/dev/"
      && (forall i :: 5 <= i < |s| ==>
            s[i] in "._/-" || '0' <= s[i] <= '9' || 'a' <= s[i] <= 'z' || 'A' <= s[i] <= 'Z')
      && forall i, j :: 0 <= i < j < |s| && s[i] == '.' && s[j] == '.' ==> j > i + 1
  {
    if |s| >= 5 && (forall i, j :: 0 <= i < j < |s| && s[i] == '.' && s[j] == '.' ==> j > i + 1) {
      forall i | 0 <= i < |s| - 1
        ensures !(s[i] == '.' && s[i + 1] == '.')
      {
      }
    }
  }

  /** A backhaul interface: `ath` and a number. */
  lemma {:induction false} IfaceIff(s: string)
    ensures IsIface(s) <==>
            |s| >= 4 && s[0] == 'a' && s[1] == 't' && s[2] == 'h' && forall i :: 3 <= i < |s| ==> '0' <= s[i] <= '9'
  {
    if |s| > 3 {
      assert s[..3] == [s[0], s[1], s[2]];
      assert forall i :: 3 <= i < |s| ==> s[i] == s[3..][i - 3];
      assert forall i :: 0 <= i < |s| - 3 ==> s[3..][i] == s[i + 3];
    }
  }

  /** A number the file gives, or the one it stands for by giving none; never zero or less. */
  ghost predicate GivesNumber(v: Value, default: int, n: int) {
    n > 0 && (v == Number(n) || (v == Absent && n == default))
  }

  /** What is said of how to log in: a key, or a collector to go through, or both. */
  ghost predicate LoginSaid(raw: RawRemote, r: Remote)
    requires raw.RawRemote?
  {
    && (if raw.collectorId == Absent || raw.collectorId == Null then r.collectorId == None
        else exists id :: r.collectorId == Some(id) && raw.collectorId.Str? && StripsTo(raw.collectorId.s, id) && IsDutId(id))
    && (if r.keyPath == "" then r.collectorId.Some? && forall s :: !Says(raw.keyPath, s) else Says(raw.keyPath, r.keyPath))
  }

  /** And of the mesh: a node is on it unless it says it is not, and one that is names its backhaul. */
  ghost predicate MeshSaid(raw: RawRemote, r: Remote)
    requires raw.RawRemote?
  {
    && (raw.isMesh == Absent || raw.isMesh == Flag(true) || raw.isMesh == Flag(false))
    && (r.isMesh <==> raw.isMesh != Flag(false))
    && if raw.backhaulIface.Str?
       then exists name :: r.backhaulIface == Some(name) && StripsTo(raw.backhaulIface.s, name) && IsIface(name)
       else r.backhaulIface == None && !r.isMesh
  }

  /** A configuration comes out of a cleaning exactly when it is what the file says, and the file says enough. */
  ghost predicate RemoteSaid(raw: RawRemote, r: Remote) {
    && raw.RawRemote?
    && Says(raw.host, r.host) && IsToken(r.host) && Says(raw.user, r.user) && IsToken(r.user)
    && Says(raw.device, r.device) && IsDevice(r.device)
    && GivesNumber(raw.port, 22, r.port) && r.port < 65536 && GivesNumber(raw.baudrate, 115200, r.baudrate)
    && LoginSaid(raw, r) && MeshSaid(raw, r)
  }

  lemma {:induction false} RemoteIff(raw: RawRemote, r: Remote)
    ensures CleanRemote(raw) == Some(r) <==> RemoteSaid(raw, r)
  {
    if raw.RawRemote? {
      hide IsToken, IsDevice, IsIface, IsDutId, LoginSaid, MeshSaid, LoginOk, MeshOk, HasText, Strip, Says, GivesNumber, NumberOr;
      LoginIff(raw, r);
      MeshIff(raw, r);
      HasTextSays(raw.host);
      HasTextSays(raw.user);
      HasTextSays(raw.device);
      NumberIff(raw.port, 22, r.port);
      NumberIff(raw.baudrate, 115200, r.baudrate);
    }
  }

  lemma {:induction false} NumberIff(v: Value, default: int, n: int)
    requires default > 0
    ensures NumberOr(v, default) == Some(n) <==> GivesNumber(v, default, n)
  {
  }

  lemma {:induction false} LoginIff(raw: RawRemote, r: Remote)
    requires raw.RawRemote?
    ensures LoginOk(raw) <==>
      && HasText(raw.host) && IsToken(Strip(raw.host.s)) && HasText(raw.user) && IsToken(Strip(raw.user.s))
      && HasText(raw.device) && IsDevice(Strip(raw.device.s)) && LoginOpen(raw)
    ensures LoginSaid(raw, r) <==>
      && LoginOpen(raw) && r.keyPath == KeyPath(raw)
      && r.collectorId == if Given(raw.collectorId) then Some(Strip(raw.collectorId.s)) else None
  {
    hide IsToken, IsDevice, IsDutId, Strip, StripsTo;
    HasTextSays(raw.keyPath);
    if raw.collectorId.Str? {
      StripIff(raw.collectorId.s, Strip(raw.collectorId.s));
      if r.collectorId.Some? {
        StripIff(raw.collectorId.s, r.collectorId.value);
      }
    }
  }

  lemma {:induction false} MeshIff(raw: RawRemote, r: Remote)
    requires raw.RawRemote?
    ensures MeshSaid(raw, r) <==>
      && MeshOk(raw) && (r.isMesh <==> raw.isMesh == Absent || raw.isMesh == Flag(true))
      && r.backhaulIface == if raw.backhaulIface.Str? then Some(Strip(raw.backhaulIface.s)) else None
  {
    hide IsIface, Strip, StripsTo;
    if raw.backhaulIface.Str? {
      StripIff(raw.backhaulIface.s, Strip(raw.backhaulIface.s));
      if r.backhaulIface.Some? {
        StripIff(raw.backhaulIface.s, r.backhaulIface.value);
      }
    }
  }

  /** What is left out of the file: the default device as long as a boot would make it just so. */
  lemma {:induction false} LeftOutIff(dut: string, ctx: Context)
    ensures !WorthSaving(dut, ctx) <==>
      && dut == "default" && ctx.displayName == "Default" && ctx.lastSerial.None? && ctx.remote.None? && ctx.mgmtUrl == ""
      && ctx.model.GetOr("") == "" && ctx.deviceId.GetOr("") == ""
  {
  }

  // ---- what one entry of the file does ------------------------------------------------

  /** A field of the file, cleaned, over what was there: it replaces if it says something, and clears nothing. */
  ghost predicate Overlays<T(!new)>(before: Option<T>, said: Option<T>, after: Option<T>) {
    after == if said.None? then before else said
  }

  /**
    * An entry whose id is not admitted does nothing. One for a known device overlays what it says; one for another
    * creates it, without an address, under the next registration. No other device changes.
    */
  lemma {:induction false} EntryIsMerged(r: Registry, e: RawEntry, lib: Library)
    ensures !(e.id.Str? && IsAdmitted(e.id.s)) ==> LoadEntry(r, e, lib) == r
    ensures e.id.Str? && IsAdmitted(e.id.s) ==>
      var dut, after := e.id.s, LoadEntry(r, e, lib);
      && dut in after.duts
      && (forall d :: d != dut ==> (d in after.duts <==> d in r.duts) && (d in r.duts ==> after.duts[d] == r.duts[d]))
      && after.next == (if dut in r.duts then r.next else r.next + 1)
      && var before := if dut in r.duts then r.duts[dut] else Fresh(dut, r.next);
         EntryOverlays(before, e, after.duts[dut], lib, dut in r.duts)
  {
  }

  ghost predicate EntryOverlays(before: Context, e: RawEntry, after: Context, lib: Library, known: bool) {
    && after.displayName == CleanLabel(e.displayName, lib).GetOr(before.displayName)
    && Overlays(before.lastSerial, CleanSerial(e.lastSerial), after.lastSerial)
    && Overlays(before.remote, CleanRemote(e.remote), after.remote)
    && Overlays(before.model, lib.detectModel(if e.model.Str? then e.model.s else ""), after.model)
    && Overlays(before.deviceId, lib.detectDeviceId(if e.deviceId.Str? then e.deviceId.s else ""), after.deviceId)
    && (known && e.mgmtUrl.Str? && e.mgmtUrl.s != "" ==> after.mgmtUrl == e.mgmtUrl.s)
    && (!known || !e.mgmtUrl.Str? || e.mgmtUrl.s == "" ==> after.mgmtUrl == before.mgmtUrl)
    && after.registration == before.registration && SameReading(before, after) && after.deviceConsole == before.deviceConsole
  }

  /** A boot starts with one device, the default one, and nothing known about it. */
  lemma {:induction false} BootIsDefault()
    ensures BOOT.duts == map["default" := Fresh("Default", 0)] && BOOT.next > BOOT.duts["default"].registration
  {
  }

  // ---- save, then load ----------------------------------------------------------------

  ghost predicate Idempotent(detect: string -> Option<string>) {
    && detect("") == None
    && forall text, found :: detect(text) == Some(found) ==> found != "" && detect(found) == Some(found)
  }

  ghost predicate Lawful(lib: Library) {
    && Idempotent(lib.detectModel) && Idempotent(lib.detectDeviceId)
    && AllPrintable(DEFAULT_LABEL, lib.printable)
  }

  ghost predicate Found(x: Option<string>, detect: string -> Option<string>) {
    x.Some? ==> exists text :: detect(text) == x
  }

  /** What the registry's own setters let into a context. */
  ghost predicate Storable(ctx: Context, lib: Library) {
    && (ctx.lastSerial.Some? ==> IsSerial(ctx.lastSerial.value))
    && (ctx.remote.Some? ==> IsRemote(ctx.remote.value))
    && Found(ctx.model, lib.detectModel) && Found(ctx.deviceId, lib.detectDeviceId)
  }

  /** What a restart makes of one device. */
  ghost predicate Restored(dut: string, before: Context, after: Context, lib: Library) {
    && after.lastSerial == before.lastSerial && after.remote == before.remote
    && after.model == before.model && after.deviceId == before.deviceId
    && after.displayName ==
         CleanLabel(Str(before.displayName), lib).GetOr(if dut == DEFAULT_DUT then DEFAULT_LABEL else dut)
    && after.mgmtUrl == (if dut == DEFAULT_DUT then before.mgmtUrl else "")
    && WithoutBackhaul(after) == after && after.deviceConsole == None
  }

  lemma {:induction false} DetectedAgain(x: Option<string>, detect: string -> Option<string>)
    requires Idempotent(detect) && Found(x, detect)
    ensures Detected(if Truthy(x) then Str(x.value) else Absent, detect) == x
  {
  }

  lemma {:induction false} EntryReads(dut: string, ctx: Context, lib: Library)
    requires Lawful(lib) && Storable(ctx, lib)
    ensures var e := EntryFor(dut, ctx);
      && CleanSerial(e.lastSerial) == ctx.lastSerial && CleanRemote(e.remote) == ctx.remote
      && Detected(e.model, lib.detectModel) == ctx.model && Detected(e.deviceId, lib.detectDeviceId) == ctx.deviceId
  {
    hide CleanRemote, IsRemote, Idempotent, Found, Detected;
    DetectedAgain(ctx.model, lib.detectModel);
    DetectedAgain(ctx.deviceId, lib.detectDeviceId);
    if ctx.remote.Some? {
      CleanRemoteIdempotent(ctx.remote.value);
    } else {
      NoRemoteCleans();
    }
  }

  lemma {:induction false} NoRemoteCleans()
    ensures CleanRemote(NoRemote) == None
  {
  }

  lemma {:induction false} DefaultRestores(ctx: Context, lib: Library)
    requires Lawful(lib) && Storable(ctx, lib)
    ensures Restored(DEFAULT_DUT, ctx, Merged(Fresh(DEFAULT_LABEL, 0), EntryFor(DEFAULT_DUT, ctx), lib), lib)
    ensures !WorthSaving(DEFAULT_DUT, ctx) ==> Restored(DEFAULT_DUT, ctx, Fresh(DEFAULT_LABEL, 0), lib)
  {
    hide CleanRemote, CleanLabel, Detected, Idempotent, IsRemote;
    EntryReads(DEFAULT_DUT, ctx, lib);
    if !WorthSaving(DEFAULT_DUT, ctx) {
      NothingFound(ctx, lib);
      DefaultLabelStays(lib);
    }
  }

  lemma {:induction false} NothingFound(ctx: Context, lib: Library)
    requires Lawful(lib) && Storable(ctx, lib) && !Truthy(ctx.model) && !Truthy(ctx.deviceId)
    ensures ctx.model == None && ctx.deviceId == None
  {
  }

  /** The boot-time label is clean. */
  lemma {:induction false} DefaultLabelStays(lib: Library)
    requires Lawful(lib)
    ensures CleanLabel(Str(DEFAULT_LABEL), lib) == Some(DEFAULT_LABEL)
  {
    PrintedOfPrintable(DEFAULT_LABEL, lib.printable);
    assert DEFAULT_LABEL[0] == 'D' && DEFAULT_LABEL[6] == 't';
    StripOfTrimmed(DEFAULT_LABEL);
  }

  lemma {:induction false} OthersRestore(dut: string, ctx: Context, lib: Library, registration: nat)
    requires Lawful(lib) && Storable(ctx, lib) && dut != DEFAULT_DUT
    ensures Restored(dut, ctx, Created(dut, EntryFor(dut, ctx), lib, registration), lib)
  {
    hide CleanRemote, CleanLabel, Detected, Idempotent, IsRemote;
    EntryReads(dut, ctx, lib);
  }

  /** Part of the file read back: its devices are there, the rest is as the boot made it. */
  ghost predicate Progress(ids: seq<string>, duts: Contexts, r: Registry, lib: Library) {
    && (forall dut :: dut in r.duts <==> dut == DEFAULT_DUT || dut in ids)
    && (forall dut :: dut in ids && dut in duts ==> Restored(dut, duts[dut], r.duts[dut], lib))
    && (DEFAULT_DUT !in ids ==> r.duts[DEFAULT_DUT] == Fresh(DEFAULT_LABEL, 0))
  }

  lemma {:induction false} LoadOneMore(ids: seq<string>, dut: string, duts: Contexts, r: Registry, lib: Library)
    requires Lawful(lib) && dut !in ids && dut in duts && IsAdmitted(dut) && Storable(duts[dut], lib)
    requires Progress(ids, duts, r, lib)
    ensures Progress(ids + [dut], duts,
                     if WorthSaving(dut, duts[dut]) then LoadEntry(r, EntryFor(dut, duts[dut]), lib) else r, lib)
  {
    hide Restored, Merged, Created, Storable, Lawful, IsAdmitted;
    assert forall d :: d in ids + [dut] <==> d in ids || d == dut;
    if dut == DEFAULT_DUT {
      DefaultRestores(duts[dut], lib);
    } else {
      OthersRestore(dut, duts[dut], lib, r.next);
    }
  }

  /**
    * Save, then load into a fresh start: the same devices, each with its last serial console, remote console, model
    * and unit; its label as the cleaning leaves it; nothing measured. The management address comes back for the
    * default device only.
    */
  lemma {:induction false} SaveThenLoad(ids: seq<string>, duts: Contexts, lib: Library)
    requires Lawful(lib) && NoRepeats(ids) && DEFAULT_DUT in ids
    requires forall dut :: dut in ids <==> dut in duts
    requires forall dut :: dut in duts ==> IsAdmitted(dut) && Storable(duts[dut], lib)
    ensures var r := Load(BOOT, Saved(ids, duts), lib);
      && r.duts.Keys == duts.Keys
      && forall dut :: dut in duts ==> Restored(dut, duts[dut], r.duts[dut], lib)
  {
    hide Restored, Storable, Lawful, IsAdmitted;
    PrefixLoads(ids, duts, lib);
  }

  lemma {:induction false} PrefixLoads(ids: seq<string>, duts: Contexts, lib: Library)
    requires Lawful(lib) && NoRepeats(ids)
    requires forall dut :: dut in ids ==> dut in duts && IsAdmitted(dut) && Storable(duts[dut], lib)
    ensures Progress(ids, duts, Load(BOOT, Saved(ids, duts), lib), lib)
  {
    hide Restored, Storable, Lawful, IsAdmitted, WorthSaving, EntryFor, LoadEntry;
    if ids != [] {
      var front, dut := ids[..|ids| - 1], ids[|ids| - 1];
      assert ids == front + [dut];
      PrefixLoads(front, duts, lib);
      var before := Saved(front, duts);
      LoadOneMore(front, dut, duts, Load(BOOT, before, lib), lib);
      assert (before + [EntryFor(dut, duts[dut])])[..|before|] == before;
    }
  }

  /** A registry a save can meet: its devices in order, admitted, and holding what its setters let in. */
  ghost predicate Savable(ids: seq<string>, duts: Contexts, lib: Library) {
    && Lawful(lib) && NoRepeats(ids) && DEFAULT_DUT in ids
    && (forall dut :: dut in ids <==> dut in duts)
    && forall dut :: dut in duts ==> IsAdmitted(dut) && Storable(duts[dut], lib)
  }

  function Reloaded(ids: seq<string>, duts: Contexts, lib: Library): Contexts
    requires forall dut :: dut in ids ==> dut in duts
  {
    Load(BOOT, Saved(ids, duts), lib).duts
  }

  /** So a label survives exactly when it is already clean, or was refused and is the name the device falls back to. */
  lemma {:induction false} LabelSurvivesIff(ids: seq<string>, duts: Contexts, lib: Library, dut: string)
    requires Savable(ids, duts, lib) && dut in duts
    ensures var after, before := Reloaded(ids, duts, lib), duts[dut].displayName;
      && dut in after
      && (after[dut].displayName == before <==>
          || CleanLabel(Str(before), lib) == Some(before)
          || (CleanLabel(Str(before), lib).None? && before == if dut == DEFAULT_DUT then DEFAULT_LABEL else dut))
  {
    hide CleanLabel, Load, Saved, Storable, Lawful;
    SaveThenLoad(ids, duts, lib);
    assert Restored(dut, duts[dut], Reloaded(ids, duts, lib)[dut], lib);
  }

  /** A renamed device's label always survives: renaming cleans it first. */
  lemma {:induction false} RenamedLabelSurvives(ids: seq<string>, duts: Contexts, lib: Library, dut: string, typed: string)
    requires Savable(ids, duts, lib) && dut in duts && CleanLabel(Str(typed), lib).Some?
    ensures var renamed := duts[dut := duts[dut].(displayName := CleanLabel(Str(typed), lib).value)];
      var after := Reloaded(ids, renamed, lib);
      dut in after && after[dut].displayName == CleanLabel(Str(typed), lib).value
  {
    var renamed := duts[dut := duts[dut].(displayName := CleanLabel(Str(typed), lib).value)];
    RenamingKeepsStorable(duts[dut], CleanLabel(Str(typed), lib).value, lib);
    CleanLabelIdempotent(Str(typed), lib);
    hide CleanLabel, Storable, Lawful, IsAdmitted, Reloaded;
    LabelSurvivesIff(ids, renamed, lib, dut);
  }

  lemma {:induction false} RenamingKeepsStorable(ctx: Context, displayName: string, lib: Library)
    requires Storable(ctx, lib)
    ensures Storable(ctx.(displayName := displayName), lib)
  {
  }

  /** And the management address exactly when there is none or the device is the default one; the next save drops it. */
  lemma {:induction false} MgmtUrlSurvivesIff(ids: seq<string>, duts: Contexts, lib: Library, dut: string)
    requires Savable(ids, duts, lib) && dut in duts
    ensures var after := Reloaded(ids, duts, lib);
      && dut in after
      && (after[dut].mgmtUrl == duts[dut].mgmtUrl <==> dut == DEFAULT_DUT || duts[dut].mgmtUrl == "")
      && (EntryFor(dut, after[dut]).mgmtUrl == EntryFor(dut, duts[dut]).mgmtUrl <==>
          dut == DEFAULT_DUT || duts[dut].mgmtUrl == "")
  {
    hide CleanLabel, Load, Saved, Storable, Lawful;
    SaveThenLoad(ids, duts, lib);
    assert Restored(dut, duts[dut], Reloaded(ids, duts, lib)[dut], lib);
  }

  /** A registry of the default device and one other, to which an address was given. */
  function WithAddress(dut: string, url: string): Contexts {
    map[DEFAULT_DUT := Fresh(DEFAULT_LABEL, 0), dut := Fresh(dut, 1).(mgmtUrl := url)]
  }

  /** The address is in the file that is saved, and not in the registry that is read from it. */
  lemma {:induction false} AddressIsForgotten(dut: string, url: string, lib: Library)
    requires Lawful(lib) && IsAdmitted(dut) && dut != DEFAULT_DUT && url != ""
    ensures var ids, duts := [DEFAULT_DUT, dut], WithAddress(dut, url);
      && Savable(ids, duts, lib)
      && Saved(ids, duts) == [EntryFor(dut, duts[dut])] && EntryFor(dut, duts[dut]).mgmtUrl == Str(url)
      && dut in Reloaded(ids, duts, lib) && Reloaded(ids, duts, lib)[dut].mgmtUrl == ""
  {
    var ids, duts := [DEFAULT_DUT, dut], WithAddress(dut, url);
    DefaultIsAdmitted();
    FreshIsStorable(DEFAULT_LABEL, 0, lib);
    FreshIsStorable(dut, 1, lib);
    SavedWithAddress(dut, url);
    hide Lawful, Storable, IsAdmitted, Load, Saved;
    assert Savable(ids, duts, lib);
    SaveThenLoad(ids, duts, lib);
    assert Restored(dut, duts[dut], Reloaded(ids, duts, lib)[dut], lib);
  }

  lemma {:induction false} DefaultIsAdmitted()
    ensures IsAdmitted(DEFAULT_DUT)
  {
    assert IsDutId("default");
  }

  lemma {:induction false} FreshIsStorable(displayName: string, registration: nat, lib: Library)
    ensures Storable(Fresh(displayName, registration), lib)
    ensures forall url :: Storable(Fresh(displayName, registration).(mgmtUrl := url), lib)
  {
  }

  lemma {:induction false} SavedWithAddress(dut: string, url: string)
    requires dut != DEFAULT_DUT && url != ""
    ensures Saved([DEFAULT_DUT, dut], WithAddress(dut, url)) == [EntryFor(dut, WithAddress(dut, url)[dut])]
  {
    var ids, duts := [DEFAULT_DUT, dut], WithAddress(dut, url);
    hide EntryFor;
    assert ids[..1] == [DEFAULT_DUT] && [DEFAULT_DUT][..0] == [];
    assert !WorthSaving(DEFAULT_DUT, duts[DEFAULT_DUT]);
    assert Saved([DEFAULT_DUT], duts) == [];
  }
}
