/** One device under test: its configuration, what was captured on it, and which console that belongs to. */
module DutConsoles {
  import opened Common
  import SurveyNames

  datatype Remote = Remote(
    host: string, user: string, keyPath: string, port: int, device: string, baudrate: int, isMesh: bool,
    backhaulIface: Option<string>, collectorId: Option<string>)
  datatype Serial = Serial(port: string, baudrate: int)

  /** What makes a reading belong to one remote console: not the login, not the baud rate. */
  datatype ConsoleId = ConsoleId(host: string, port: int, device: string, isMesh: bool, iface: Option<string>)

  /** The worker's transport; `Idle` when the caller does not know it or nothing is open. */
  datatype Mode = Idle | OnSerial | OnSsh | OnReplay

  /** A console's identity. Hashing it is taken to lose nothing. */
  datatype Token =
    | OverReplay(registration: nat)
    | OverSsh(registration: nat, console: ConsoleId)
    | Local(registration: nat, port: Option<string>)

  datatype Link = Link(iface: string, rssi: Option<int>, peer: Option<string>)
  datatype Children = Children(iface: string, peers: seq<string>)
  datatype Role = Node | Root
  datatype Probe = Probe(mesh: bool, members: nat)

  datatype Context = Context(
    registration: nat,
    displayName: string,
    lastSerial: Option<Serial>,
    mgmtUrl: string,
    model: Option<string>,
    remote: Option<Remote>,
    uplink: Option<Link>,
    downlink: Option<Children>,
    role: Option<Role>,
    captured: bool,
    meshProbe: Option<Probe>,
    deviceId: Option<string>,
    deviceConsole: Option<Token>,
    console: Option<Token>)

  function Fresh(displayName: string, registration: nat): Context {
    Context(registration, displayName, None, "", None, None, None, None, None, false, None, None, None, None)
  }

  // ---- which console ------------------------------------------------------------------

  function IdOf(remote: Option<Remote>): Option<ConsoleId> {
    if remote.None? then None
    else
      var r := remote.value;
      Some(ConsoleId(r.host, r.port, r.device, r.isMesh, r.backhaulIface))
  }

  function TokenOf(ctx: Context, mode: Mode): Token {
    if mode == OnReplay then OverReplay(ctx.registration)
    else if ctx.remote.Some? && (mode == Idle || mode == OnSsh) then
      OverSsh(ctx.registration, IdOf(ctx.remote).value)
    else Local(ctx.registration, if ctx.lastSerial.Some? then Some(ctx.lastSerial.value.port) else None)
  }

  // ---- the rules for letting go -------------------------------------------------------

  function WithoutBackhaul(ctx: Context): Context {
    ctx.(uplink := None, downlink := None, role := None, captured := false, console := None, meshProbe := None)
  }

  function WithoutIdentity(ctx: Context): Context { ctx.(deviceId := None, deviceConsole := None) }

  /** Opening a console revokes what another one left behind; capture and identity have their own anchors. */
  function Opening(ctx: Context, token: Token): Context {
    var c := if ctx.console.Some? && ctx.console.value != token then WithoutBackhaul(ctx) else ctx;
    if c.deviceConsole.Some? && c.deviceConsole.value != token then WithoutIdentity(c) else c
  }

  predicate IsSerial(s: Serial) { s.port != "" && s.baudrate > 0 }

  function RecordSerial(ctx: Context, s: Serial): Context {
    if !IsSerial(s) then ctx
    else
      var c := ctx.(lastSerial := Some(s));
      Opening(c, TokenOf(c, OnSerial))
  }

  function NoteOpen(ctx: Context, mode: Mode): Context { Opening(ctx, TokenOf(ctx, mode)) }

  function Repoint(ctx: Context, remote: Remote): Context {
    (if IdOf(ctx.remote) != IdOf(Some(remote)) then WithoutBackhaul(ctx) else ctx).(remote := Some(remote))
  }

  /** The device said its name. `implied` is the model the name gives away, if it does. */
  function Identify(ctx: Context, name: string, mode: Mode, implied: Option<string>): Context {
    var token := TokenOf(ctx, mode);
    if ctx.deviceId == Some(name) then ctx.(deviceConsole := Some(token))
    else
      var c := if ctx.deviceId.Some? then WithoutBackhaul(ctx) else ctx;
      c.(deviceId := Some(name), deviceConsole := Some(token), model := if implied.Some? then implied else c.model)
  }

  function StoreReading(ctx: Context, token: Token, uplink: Option<Link>, role: Option<Role>): Context {
    ctx.(uplink := uplink, role := role, captured := true, console := Some(token))
  }

  // ---- what the rules come to ---------------------------------------------------------

  /** A console read over SSH, a log and a cable are three things; a device that has a remote node is reached over SSH. */
  lemma {:induction false} WaysDiffer(a: Context, b: Context)
    ensures TokenOf(a, OnReplay) != TokenOf(b, OnSerial) && TokenOf(a, OnReplay) != TokenOf(b, OnSsh)
    ensures a.remote.Some? ==> TokenOf(a, OnSsh) != TokenOf(b, OnSerial) && TokenOf(a, Idle) == TokenOf(a, OnSsh)
    ensures a.remote.None? ==> TokenOf(a, OnSsh) == TokenOf(a, OnSerial) && TokenOf(a, Idle) == TokenOf(a, OnSerial)
  {
  }

  /** When two configurations are one console: the cable, the login, the key and the baud rate of a node play no part. */
  lemma {:induction false} SameConsoleIff(a: Context, b: Context)
    ensures TokenOf(a, OnReplay) == TokenOf(b, OnReplay) <==> a.registration == b.registration
    ensures a.remote.Some? && b.remote.Some? ==>
      (TokenOf(a, OnSsh) == TokenOf(b, OnSsh) <==>
         && a.registration == b.registration
         && var q, r := a.remote.value, b.remote.value;
            && q.host == r.host && q.port == r.port && q.device == r.device && q.isMesh == r.isMesh
            && q.backhaulIface == r.backhaulIface)
    ensures a.lastSerial.Some? && b.lastSerial.Some? ==>
      (TokenOf(a, OnSerial) == TokenOf(b, OnSerial) <==>
         a.registration == b.registration && a.lastSerial.value.port == b.lastSerial.value.port)
    ensures TokenOf(a, OnSerial) == TokenOf(b, OnSerial) ==> (a.lastSerial.Some? <==> b.lastSerial.Some?)
  {
  }

  /** Nothing of a capture is left, not even who is on the mesh. */
  ghost predicate NoReading(ctx: Context) {
    && ctx.uplink.None? && ctx.downlink.None? && ctx.role.None? && !ctx.captured && ctx.console.None? && ctx.meshProbe.None?
  }

  ghost predicate SameReading(a: Context, b: Context) {
    && a.uplink == b.uplink && a.downlink == b.downlink && a.role == b.role && a.captured == b.captured
    && a.console == b.console && a.meshProbe == b.meshProbe
  }

  /** What is typed in, and the model: no opening changes it. */
  ghost predicate SameSettings(a: Context, b: Context) {
    && a.registration == b.registration && a.displayName == b.displayName && a.mgmtUrl == b.mgmtUrl && a.model == b.model
  }

  /** A console was opened: of a capture and of a name, each stays whole if it came from there and goes if it did not. */
  ghost predicate Opened(before: Context, after: Context, token: Token) {
    && (if before.console.None? || before.console == Some(token) then SameReading(before, after) else NoReading(after))
    && (if before.deviceConsole.None? || before.deviceConsole == Some(token)
        then after.deviceId == before.deviceId && after.deviceConsole == before.deviceConsole
        else after.deviceId.None? && after.deviceConsole.None?)
    && SameSettings(before, after)
  }

  lemma {:induction false} OpeningLetsGo(ctx: Context, mode: Mode)
    ensures Opened(ctx, NoteOpen(ctx, mode), TokenOf(ctx, mode))
    ensures NoteOpen(ctx, mode).remote == ctx.remote && NoteOpen(ctx, mode).lastSerial == ctx.lastSerial
  {
  }

  /** A cable with a port and a speed is noted and opens its console; anything less is not noted at all. */
  lemma {:induction false} CableLetsGo(ctx: Context, s: Serial)
    ensures s.port == "" || s.baudrate <= 0 ==> RecordSerial(ctx, s) == ctx
    ensures s.port != "" && 0 < s.baudrate ==>
      Opened(ctx, RecordSerial(ctx, s), Local(ctx.registration, Some(s.port)))
      && RecordSerial(ctx, s).lastSerial == Some(s) && RecordSerial(ctx, s).remote == ctx.remote
  {
  }

  /** A node pointed elsewhere loses its capture, and one edited in any other way keeps it; its name stays either way. */
  lemma {:induction false} RepointingLetsGo(ctx: Context, remote: Remote)
    ensures var now := Repoint(ctx, remote);
      && now.remote == Some(remote) && SameSettings(ctx, now) && now.lastSerial == ctx.lastSerial
      && now.deviceId == ctx.deviceId && now.deviceConsole == ctx.deviceConsole
      && if ctx.remote.Some? && (var r := ctx.remote.value;
             r.host == remote.host && r.port == remote.port && r.device == remote.device && r.isMesh == remote.isMesh
             && r.backhaulIface == remote.backhaulIface)
         then SameReading(ctx, now) else NoReading(now)
  {
  }

  /** A device says its name: another one than before takes the capture with it, and may tell the model. */
  lemma {:induction false} NamingLetsGo(ctx: Context, name: string, mode: Mode, implied: Option<string>)
    ensures var now := Identify(ctx, name, mode, implied);
      && now.deviceId == Some(name) && now.deviceConsole == Some(TokenOf(ctx, mode))
      && now.remote == ctx.remote && now.lastSerial == ctx.lastSerial && now.displayName == ctx.displayName
      && (if ctx.deviceId.None? || ctx.deviceId == Some(name) then SameReading(ctx, now) else NoReading(now))
      && now.model == if ctx.deviceId != Some(name) && implied.Some? then implied else ctx.model
  {
  }

  // ---- what every rule keeps ----------------------------------------------------------

  /**
    * A capture has a console, what it measured is part of a capture, and its console is one the configuration
    * still yields for some transport.
    */
  ghost predicate Anchored(ctx: Context) {
    && (ctx.captured <==> ctx.console.Some?)
    && (ctx.uplink.Some? || ctx.role.Some? ==> ctx.captured)
    && (ctx.console.Some? ==> Yields(ctx, ctx.console.value))
    && (ctx.deviceConsole.Some? ==> ctx.deviceId.Some?)
  }

  /** A console this configuration yields: by cable, over SSH, or as a log file. */
  predicate Yields(ctx: Context, token: Token) {
    token == TokenOf(ctx, OnSerial) || token == TokenOf(ctx, OnSsh) || token == TokenOf(ctx, OnReplay)
  }

  /** Whatever capture is left is the one there was. */
  ghost predicate KeepsReading(before: Context, after: Context) {
    && after.registration == before.registration
    && (after.captured ==>
          before.captured && after.console == before.console && after.uplink == before.uplink && after.role == before.role)
    && (after.downlink.Some? ==> after.downlink == before.downlink)
    && (before.captured && !after.captured ==> after.downlink == None)
  }

  lemma {:induction false} RecordSerialKeeps(ctx: Context, s: Serial)
    requires Anchored(ctx)
    ensures Anchored(RecordSerial(ctx, s)) && KeepsReading(ctx, RecordSerial(ctx, s))
  {
  }

  lemma {:induction false} NoteOpenKeeps(ctx: Context, mode: Mode)
    requires Anchored(ctx)
    ensures Anchored(NoteOpen(ctx, mode)) && KeepsReading(ctx, NoteOpen(ctx, mode))
  {
  }

  lemma {:induction false} RepointKeeps(ctx: Context, remote: Remote)
    requires Anchored(ctx)
    ensures Anchored(Repoint(ctx, remote)) && KeepsReading(ctx, Repoint(ctx, remote))
  {
  }

  lemma {:induction false} IdentifyKeeps(ctx: Context, name: string, mode: Mode, implied: Option<string>)
    requires Anchored(ctx)
    ensures Anchored(Identify(ctx, name, mode, implied)) && KeepsReading(ctx, Identify(ctx, name, mode, implied))
  {
  }

  lemma {:induction false} StoreKeepsAnchors(ctx: Context, mode: Mode, uplink: Option<Link>, role: Option<Role>)
    requires Anchored(ctx)
    ensures Anchored(StoreReading(ctx, TokenOf(ctx, mode), uplink, role))
  {
  }

  /** An open drops a capture exactly when it was taken on another console. */
  lemma {:induction false} OpenDropsIff(ctx: Context, mode: Mode)
    requires Anchored(ctx) && ctx.captured
    ensures NoteOpen(ctx, mode).captured <==> ctx.console == Some(TokenOf(ctx, mode))
  {
  }

  lemma {:induction false} OpenSerialDropsIff(ctx: Context, s: Serial)
    requires Anchored(ctx) && ctx.captured
    ensures RecordSerial(ctx, s).captured <==>
      !IsSerial(s) || ctx.console == Some(Local(ctx.registration, Some(s.port)))
  {
  }

  /** Changing how to log in, or how fast to talk, keeps the reading; changing what is at the other end drops it. */
  lemma {:induction false} RepointDropsIff(ctx: Context, remote: Remote)
    requires Anchored(ctx) && ctx.captured
    ensures Repoint(ctx, remote).captured <==>
      ctx.remote.Some? && ctx.remote.value.host == remote.host && ctx.remote.value.port == remote.port
      && ctx.remote.value.device == remote.device && ctx.remote.value.isMesh == remote.isMesh
      && ctx.remote.value.backhaulIface == remote.backhaulIface
  {
  }

  /** Another unit answering drops the capture; the first answer and a repeated one do not. */
  lemma {:induction false} IdentifyDropsIff(ctx: Context, name: string, mode: Mode, implied: Option<string>)
    requires Anchored(ctx) && ctx.captured
    ensures !Identify(ctx, name, mode, implied).captured <==> ctx.deviceId.Some? && ctx.deviceId != Some(name)
  {
  }

  // ---- in place -----------------------------------------------------------------------

  class DutContext {
    const registration: nat
    var displayName: string
    var lastSerial: Option<Serial>
    var mgmtUrl: string
    var model: Option<string>
    var remote: Option<Remote>
    var uplink: Option<Link>
    var downlink: Option<Children>
    var role: Option<Role>
    var captured: bool
    var meshProbe: Option<Probe>
    var deviceId: Option<string>
    var deviceConsole: Option<Token>
    var console: Option<Token>

    function Value(): Context
      reads this
    {
      Context(registration, displayName, lastSerial, mgmtUrl, model, remote, uplink, downlink, role, captured, meshProbe,
              deviceId, deviceConsole, console)
    }

    constructor (displayName: string, registration: nat)
      ensures Value() == Fresh(displayName, registration)
    {
      this.displayName, this.registration := displayName, registration;
      lastSerial, mgmtUrl, model, remote := None, "", None, None;
      uplink, downlink, role, captured, meshProbe := None, None, None, false, None;
      deviceId, deviceConsole, console := None, None, None;
    }

    method ForgetBackhaul()
      modifies this
      ensures Value() == WithoutBackhaul(old(Value()))
    {
      uplink := None;
      downlink := None;
      role := None;
      captured := false;
      console := None;
      meshProbe := None;
    }

    method ForgetDeviceIdentity()
      modifies this
      ensures Value() == WithoutIdentity(old(Value()))
    {
      deviceId := None;
      deviceConsole := None;
    }

    method ForgetIfAnotherConsole(opening: Token)
      modifies this
      ensures Value() == Opening(old(Value()), opening)
    {
      if console.Some? && console.value != opening {
        ForgetBackhaul();
      }
      if deviceConsole.Some? && deviceConsole.value != opening {
        ForgetDeviceIdentity();
      }
    }

    /** Answers the identity that was replaced, if one was. */
    method SetIdentity(name: string, mode: Mode, implied: Option<string>) returns (previous: Option<string>)
      modifies this
      ensures Value() == Identify(old(Value()), name, mode, implied)
      ensures previous == if old(deviceId) != Some(name) then old(deviceId) else None
    {
      var token := TokenOf(Value(), mode);
      if deviceId == Some(name) {
        deviceConsole := Some(token);
        return None;
      }
      previous := deviceId;
      if previous.Some? {
        ForgetBackhaul();
      }
      deviceId := Some(name);
      deviceConsole := Some(token);
      if implied.Some? {
        model := implied;
      }
    }

    method SetReading(token: Token, uplink: Option<Link>, role: Option<Role>)
      modifies this
      ensures Value() == StoreReading(old(Value()), token, uplink, role)
    {
      this.uplink := uplink;
      this.role := role;
      captured := true;
      console := Some(token);
    }
  }

  /** A registry as a value: what its contexts hold. */
  type Contexts = map<string, Context>

  const DEFAULT_DUT: string := "default"
  const MAX_DUTS: nat := 16

  function On(duts: Contexts, dut: string, f: Context -> Context): Contexts {
    if dut in duts then duts[dut := f(duts[dut])] else duts
  }

  predicate Holding(duts: Contexts, dut: string, token: Token, mode: Mode) {
    dut in duts && TokenOf(duts[dut], mode) == token
  }

  predicate CanRegister(duts: Contexts, dut: string) {
    SurveyNames.IsAdmitted(dut) && dut !in duts && |duts| < MAX_DUTS
  }

  /** A device joins under an id the routes admit and nobody has, while there are fewer than sixteen. */
  lemma {:induction false} JoinsIff(duts: Contexts, dut: string)
    ensures CanRegister(duts, dut) <==> SurveyNames.IsAdmitted(dut) && !(dut in duts) && 0 <= |duts| <= 15
  {
  }

  /** A new device has nothing but its label, under a registration of its own. */
  lemma {:induction false} FreshIsBlank(displayName: string, registration: nat)
    ensures var ctx := Fresh(displayName, registration);
      && ctx.displayName == displayName && ctx.registration == registration && ctx.mgmtUrl == ""
      && NoReading(ctx) && ctx.deviceId.None? && ctx.deviceConsole.None?
      && ctx.lastSerial.None? && ctx.remote.None? && ctx.model.None?
  {
  }

  class DutRegistry {
    var duts: map<string, DutContext>
    /** Every registration so far is below this: a fresh one repeats none. */
    var next: nat

    ghost predicate Valid()
      reads this
    {
      forall a, b :: a in duts && b in duts && a != b ==> duts[a] != duts[b]
    }

    ghost function Abs(): Contexts
      reads this, duts.Values
    {
      map dut | dut in duts :: duts[dut].Value()
    }

    constructor ()
      ensures Valid() && Abs() == map[] && next == 0
    {
      duts, next := map[], 0;
    }

    /** A new id under a registration of its own. */
    method Add(dut: string, displayName: string)
      requires Valid() && dut !in duts
      modifies this
      ensures Valid()
      ensures Abs() == old(Abs())[dut := Fresh(displayName, old(next))]
      ensures next == old(next) + 1
    {
      hide Fresh;
      var ctx := new DutContext(displayName, next);
      assert forall d :: d in duts ==> duts[d] != ctx;
      duts := duts[dut := ctx];
      next := next + 1;
    }

    method RegisterDut(dut: string, displayName: string) returns (ok: bool)
      requires Valid()
      modifies this
      ensures Valid()
      ensures ok <==> CanRegister(old(Abs()), dut)
      ensures Abs() == if ok then old(Abs())[dut := Fresh(displayName, old(next))] else old(Abs())
      ensures next == if ok then old(next) + 1 else old(next)
    {
      hide SurveyNames.IsAdmitted, Fresh, Valid;
      SameSize(Abs());
      if !SurveyNames.IsAdmitted(dut) || dut in duts || |duts| >= MAX_DUTS {
        return false;
      }
      Add(dut, displayName);
      return true;
    }

    lemma SameSize(values: Contexts)
      requires values.Keys == duts.Keys
      ensures |values| == |duts|
    {
      assert |values.Keys| == |values| && |duts.Keys| == |duts|;
    }

    method RemoveDut(dut: string) returns (ok: bool)
      requires Valid()
      modifies this
      ensures Valid() && next == old(next)
      ensures ok <==> dut != DEFAULT_DUT && dut in old(duts)
      ensures Abs() == if ok then old(Abs()) - {dut} else old(Abs())
    {
      if dut == DEFAULT_DUT || dut !in duts {
        return false;
      }
      duts := duts - {dut};
      return true;
    }

    method RecordSerialParams(dut: string, s: Serial)
      requires Valid()
      modifies duts.Values
      ensures Abs() == On(old(Abs()), dut, c => RecordSerial(c, s))
    {
      if !IsSerial(s) || dut !in duts {
        return;
      }
      var ctx := duts[dut];
      ctx.lastSerial := Some(s);
      ctx.ForgetIfAnotherConsole(TokenOf(ctx.Value(), OnSerial));
    }

    method NoteConsoleOpen(dut: string, mode: Mode)
      requires Valid()
      modifies duts.Values
      ensures Abs() == On(old(Abs()), dut, c => NoteOpen(c, mode))
    {
      if dut in duts {
        var ctx := duts[dut];
        ctx.ForgetIfAnotherConsole(TokenOf(ctx.Value(), mode));
      }
    }

    method ConfigureRemote(dut: string, remote: Remote) returns (ok: bool)
      requires Valid()
      modifies duts.Values
      ensures ok <==> dut in duts
      ensures Abs() == On(old(Abs()), dut, c => Repoint(c, remote))
    {
      if dut !in duts {
        return false;
      }
      var ctx := duts[dut];
      if IdOf(ctx.remote) != IdOf(Some(remote)) {
        ctx.ForgetBackhaul();
      }
      ctx.remote := Some(remote);
      return true;
    }

    method RecordDeviceId(dut: string, name: string, mode: Mode, implied: Option<string>) returns (previous: Option<string>)
      requires Valid()
      modifies duts.Values
      ensures Abs() == On(old(Abs()), dut, c => Identify(c, name, mode, implied))
      ensures previous == if dut in old(Abs()) && old(Abs())[dut].deviceId != Some(name) then old(Abs())[dut].deviceId else None
    {
      if dut !in duts {
        return None;
      }
      hide Identify;
      previous := duts[dut].SetIdentity(name, mode, implied);
    }

    method StoreBackhaulReading(dut: string, token: Token, mode: Mode, uplink: Option<Link>, role: Option<Role>)
      returns (ok: bool)
      requires Valid()
      modifies duts.Values
      ensures ok <==> Holding(old(Abs()), dut, token, mode)
      ensures Abs() == if ok then On(old(Abs()), dut, c => StoreReading(c, token, uplink, role)) else old(Abs())
    {
      if dut !in duts || TokenOf(duts[dut].Value(), mode) != token {
        return false;
      }
      hide StoreReading, TokenOf;
      duts[dut].SetReading(token, uplink, role);
      return true;
    }

    method StoreBackhaulDownlink(dut: string, token: Token, mode: Mode, downlink: Option<Children>) returns (ok: bool)
      requires Valid()
      modifies duts.Values
      ensures ok <==> Holding(old(Abs()), dut, token, mode)
      ensures Abs() == if ok then On(old(Abs()), dut, (c: Context) => c.(downlink := downlink)) else old(Abs())
    {
      if dut !in duts || TokenOf(duts[dut].Value(), mode) != token {
        return false;
      }
      var ctx := duts[dut];
      ctx.downlink := downlink;
      return true;
    }

    method StoreMeshProbe(dut: string, probe: Probe)
      requires Valid()
      modifies duts.Values
      ensures Abs() == On(old(Abs()), dut, (c: Context) => c.(meshProbe := Some(probe)))
    {
      if dut in duts {
        var ctx := duts[dut];
        ctx.meshProbe := Some(probe);
      }
    }
  }
}
