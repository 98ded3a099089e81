/**
  * Captures in flight: each takes seconds, commits in two halves, and any open, re-point, removal or
  * re-registration may fall between its first command and either commit.
  */
module DutCaptures {
  import opened Common
  import opened DutConsoles

  /** What a capture settles before its first command. */
  datatype Capture = Capture(dut: string, token: Token)

  /** What the last accepted commit wrote for a device, and which capture it came from. */
  datatype Filed = Filed(capture: nat, uplink: Option<Link>, role: Option<Role>)

  datatype State = State(duts: Contexts, next: nat, captures: seq<Capture>, filed: map<string, Filed>)

  datatype Op =
    | Register(dut: string, displayName: string)
    | Remove(dut: string)
    | OpenSerial(dut: string, serial: Serial)
    | OpenConsole(dut: string, mode: Mode)
    | Configure(dut: string, remote: Remote)
    | RecordIdentity(dut: string, name: string, mode: Mode, implied: Option<string>)
    | RecordProbe(dut: string, probe: Probe)
    | StartCapture(dut: string, mode: Mode)
    | CommitReading(capture: nat, mode: Mode, uplink: Option<Link>, role: Option<Role>)
    | CommitDownlink(capture: nat, mode: Mode, downlink: Option<Children>)

  function Changed(st: State, dut: string, f: Context -> Context): State { st.(duts := On(st.duts, dut, f)) }

  /** A remote node declared standalone is not measured at all. */
  predicate Measurable(ctx: Context) { ctx.remote.None? || ctx.remote.value.isMesh }

  predicate Accepts(st: State, capture: nat, mode: Mode) {
    capture < |st.captures| && Holding(st.duts, st.captures[capture].dut, st.captures[capture].token, mode)
  }

  function Step(st: State, op: Op): State {
    match op
    case Register(dut, displayName) =>
      if CanRegister(st.duts, dut) then st.(duts := st.duts[dut := Fresh(displayName, st.next)], next := st.next + 1)
      else st
    case Remove(dut) => if dut == DEFAULT_DUT then st else st.(duts := st.duts - {dut})
    case OpenSerial(dut, s) => Changed(st, dut, c => RecordSerial(c, s))
    case OpenConsole(dut, mode) => Changed(st, dut, c => NoteOpen(c, mode))
    case Configure(dut, remote) => Changed(st, dut, c => Repoint(c, remote))
    case RecordIdentity(dut, name, mode, implied) => Changed(st, dut, c => Identify(c, name, mode, implied))
    case RecordProbe(dut, probe) => Changed(st, dut, (c: Context) => c.(meshProbe := Some(probe)))
    case StartCapture(dut, mode) =>
      if dut in st.duts && Measurable(st.duts[dut])
        then st.(captures := st.captures + [Capture(dut, TokenOf(st.duts[dut], mode))]) else st
    case CommitReading(n, mode, uplink, role) =>
      if !Accepts(st, n, mode) then st
      else
        var c := st.captures[n];
        st.(duts := st.duts[c.dut := StoreReading(st.duts[c.dut], c.token, uplink, role)],
            filed := st.filed[c.dut := Filed(n, uplink, role)])
    case CommitDownlink(n, mode, downlink) =>
      if !Accepts(st, n, mode) then st
      else
        var c := st.captures[n];
        st.(duts := st.duts[c.dut := st.duts[c.dut].(downlink := downlink)])
  }

  function Run(st: State, ops: seq<Op>): State
    decreases |ops|
  {
    if ops == [] then st else Step(Run(st, ops[..|ops| - 1]), ops[|ops| - 1])
  }

  // ---- what holds between any two steps -----------------------------------------------

  /** A context's reading is the last one filed for it, under the token its capture started with. */
  ghost predicate IsFiled(st: State, dut: string, ctx: Context) {
    ctx.captured ==>
      && dut in st.filed && st.filed[dut].capture < |st.captures|
      && st.captures[st.filed[dut].capture].dut == dut
      && ctx.console == Some(st.captures[st.filed[dut].capture].token)
      && ctx.uplink == st.filed[dut].uplink && ctx.role == st.filed[dut].role
  }

  ghost predicate Inv(st: State) {
    && (forall dut :: dut in st.duts ==> Anchored(st.duts[dut]) && IsFiled(st, dut, st.duts[dut]))
    && (forall dut :: dut in st.duts ==> st.duts[dut].registration < st.next)
    && (forall a, b :: a in st.duts && b in st.duts && a != b ==> st.duts[a].registration != st.duts[b].registration)
    && (forall i :: 0 <= i < |st.captures| ==> st.captures[i].token.registration < st.next)
  }

  /** A start-up: whatever configuration was read back, nothing has been measured or identified on a console yet. */
  ghost predicate Booted(st: State) {
    && st.captures == [] && st.filed == map[]
    && (forall dut :: dut in st.duts ==>
          st.duts[dut].registration < st.next && WithoutBackhaul(st.duts[dut]) == st.duts[dut]
          && st.duts[dut].deviceConsole == None)
    && (forall a, b :: a in st.duts && b in st.duts && a != b ==> st.duts[a].registration != st.duts[b].registration)
  }

  lemma {:induction false} BootedInv(st: State)
    requires Booted(st)
    ensures Inv(st)
  {
    forall dut | dut in st.duts
      ensures Anchored(st.duts[dut]) && !st.duts[dut].captured
    {
      assert WithoutBackhaul(st.duts[dut]) == st.duts[dut];
    }
  }

  /** A rule that keeps anchors and readings keeps the invariant, whichever device it is applied to. */
  lemma {:induction false} ChangeKeepsInv(st: State, dut: string, f: Context -> Context)
    requires Inv(st)
    requires dut in st.duts ==> Anchored(f(st.duts[dut])) && KeepsReading(st.duts[dut], f(st.duts[dut]))
    ensures Inv(Changed(st, dut, f))
  {
    hide Anchored;
    var after := Changed(st, dut, f);
    forall d | d in after.duts
      ensures Anchored(after.duts[d]) && IsFiled(after, d, after.duts[d])
    {
      assert IsFiled(st, d, st.duts[d]);
    }
  }

  lemma {:induction false} RegisterKeepsInv(st: State, dut: string, displayName: string)
    requires Inv(st)
    ensures Inv(Step(st, Register(dut, displayName)))
  {
    if CanRegister(st.duts, dut) {
      var after := Step(st, Register(dut, displayName));
      forall d | d in after.duts
        ensures Anchored(after.duts[d]) && IsFiled(after, d, after.duts[d])
      {
        if d != dut {
          assert IsFiled(st, d, st.duts[d]);
        }
      }
    }
  }

  lemma {:induction false} StartKeepsInv(st: State, dut: string, mode: Mode)
    requires Inv(st)
    ensures Inv(Step(st, StartCapture(dut, mode)))
  {
    hide Anchored;
    var after := Step(st, StartCapture(dut, mode));
    forall d | d in after.duts
      ensures IsFiled(after, d, after.duts[d])
    {
      assert IsFiled(st, d, st.duts[d]);
    }
    if dut in st.duts {
      assert TokenOf(st.duts[dut], mode).registration == st.duts[dut].registration;
    }
  }

  lemma {:induction false} CommitKeepsInv(st: State, n: nat, mode: Mode, uplink: Option<Link>, role: Option<Role>)
    requires Inv(st)
    ensures Inv(Step(st, CommitReading(n, mode, uplink, role)))
  {
    if Accepts(st, n, mode) {
      var dut := st.captures[n].dut;
      var after := Step(st, CommitReading(n, mode, uplink, role));
      StoreKeepsAnchors(st.duts[dut], mode, uplink, role);
      hide Anchored;
      forall d | d in after.duts
        ensures Anchored(after.duts[d]) && IsFiled(after, d, after.duts[d])
      {
        if d != dut {
          assert IsFiled(st, d, st.duts[d]);
        }
      }
    }
  }

  lemma {:induction false} DownlinkKeepsInv(st: State, n: nat, mode: Mode, downlink: Option<Children>)
    requires Inv(st)
    ensures Inv(Step(st, CommitDownlink(n, mode, downlink)))
  {
    if Accepts(st, n, mode) {
      var dut := st.captures[n].dut;
      var after := Step(st, CommitDownlink(n, mode, downlink));
      assert TokenOf(after.duts[dut], OnSerial) == TokenOf(st.duts[dut], OnSerial);
      assert TokenOf(after.duts[dut], OnSsh) == TokenOf(st.duts[dut], OnSsh);
      assert TokenOf(after.duts[dut], OnReplay) == TokenOf(st.duts[dut], OnReplay);
      forall d | d in after.duts
        ensures Anchored(after.duts[d]) && IsFiled(after, d, after.duts[d])
      {
        assert IsFiled(st, d, st.duts[d]) && Anchored(st.duts[d]);
      }
    }
  }

  lemma {:induction false} StepKeepsInv(st: State, op: Op)
    requires Inv(st)
    ensures Inv(Step(st, op))
  {
    hide Inv, Anchored;
    match op
    case Register(dut, displayName) => RegisterKeepsInv(st, dut, displayName);
    case Remove(dut) => RemoveKeepsInv(st, dut);
    case OpenSerial(dut, s) =>
      if dut in st.duts { InvAnchors(st, dut); RecordSerialKeeps(st.duts[dut], s); }
      ChangeKeepsInv(st, dut, c => RecordSerial(c, s));
    case OpenConsole(dut, mode) =>
      if dut in st.duts { InvAnchors(st, dut); NoteOpenKeeps(st.duts[dut], mode); }
      ChangeKeepsInv(st, dut, c => NoteOpen(c, mode));
    case Configure(dut, remote) =>
      if dut in st.duts { InvAnchors(st, dut); RepointKeeps(st.duts[dut], remote); }
      ChangeKeepsInv(st, dut, c => Repoint(c, remote));
    case RecordIdentity(dut, name, mode, implied) =>
      if dut in st.duts { InvAnchors(st, dut); IdentifyKeeps(st.duts[dut], name, mode, implied); }
      ChangeKeepsInv(st, dut, c => Identify(c, name, mode, implied));
    case RecordProbe(dut, probe) =>
      if dut in st.duts { InvAnchors(st, dut); ProbeKeeps(st.duts[dut], probe); }
      ChangeKeepsInv(st, dut, (c: Context) => c.(meshProbe := Some(probe)));
    case StartCapture(dut, mode) => StartKeepsInv(st, dut, mode);
    case CommitReading(n, mode, uplink, role) => CommitKeepsInv(st, n, mode, uplink, role);
    case CommitDownlink(n, mode, downlink) => DownlinkKeepsInv(st, n, mode, downlink);
  }

  lemma {:induction false} InvAnchors(st: State, dut: string)
    requires Inv(st) && dut in st.duts
    ensures Anchored(st.duts[dut])
  {
  }

  lemma {:induction false} ProbeKeeps(ctx: Context, probe: Probe)
    requires Anchored(ctx)
    ensures Anchored(ctx.(meshProbe := Some(probe))) && KeepsReading(ctx, ctx.(meshProbe := Some(probe)))
  {
    var after := ctx.(meshProbe := Some(probe));
    assert TokenOf(after, OnSerial) == TokenOf(ctx, OnSerial) && TokenOf(after, OnSsh) == TokenOf(ctx, OnSsh);
  }

  lemma {:induction false} RemoveKeepsInv(st: State, dut: string)
    requires Inv(st)
    ensures Inv(Step(st, Remove(dut)))
  {
    hide Anchored;
    var after := Step(st, Remove(dut));
    forall d | d in after.duts
      ensures IsFiled(after, d, after.duts[d])
    {
      assert IsFiled(st, d, st.duts[d]);
    }
  }

  lemma {:induction false} RunKeepsInv(st: State, ops: seq<Op>)
    requires Inv(st)
    ensures Inv(Run(st, ops))
    decreases |ops|
  {
    hide Inv;
    if ops != [] {
      RunKeepsInv(st, ops[..|ops| - 1]);
      StepKeepsInv(Run(st, ops[..|ops| - 1]), ops[|ops| - 1]);
    }
  }

  // ---- what a run promises ------------------------------------------------------------

  /**
    * After any run from a start-up: a device is captured exactly when its reading has a console; an uplink or a role
    * is part of a capture; the reading is what the last accepted commit wrote, filed under the token computed before
    * its first command; and that console is one the configuration still yields for a cable or for SSH, exactly unless
    * the capture was begun over a log file.
    */
  lemma {:induction false} CapturesAreAnchored(boot: State, ops: seq<Op>, dut: string)
    requires Booted(boot) && dut in Run(boot, ops).duts
    ensures var st := Run(boot, ops); var ctx := st.duts[dut];
      && (ctx.captured <==> ctx.console.Some?)
      && (ctx.uplink.Some? || ctx.role.Some? ==> ctx.captured)
      && (ctx.captured ==>
            && dut in st.filed && st.filed[dut].capture < |st.captures|
            && st.captures[st.filed[dut].capture] == Capture(dut, ctx.console.value)
            && ctx.uplink == st.filed[dut].uplink && ctx.role == st.filed[dut].role)
      && (ctx.captured ==>
            (ctx.console == Some(TokenOf(ctx, OnSerial)) || ctx.console == Some(TokenOf(ctx, OnSsh)) <==>
             !st.captures[st.filed[dut].capture].token.OverReplay?))
  {
    BootedInv(boot);
    RunKeepsInv(boot, ops);
    assert IsFiled(Run(boot, ops), dut, Run(boot, ops).duts[dut]);
  }

  /** No capture was begun over a log file. */
  predicate BegunLive(ops: seq<Op>) {
    forall i :: 0 <= i < |ops| && ops[i].StartCapture? ==> ops[i].mode != OnReplay
  }

  lemma {:induction false} BegunLiveStayLive(boot: State, ops: seq<Op>)
    requires Booted(boot) && BegunLive(ops)
    ensures forall c :: c in Run(boot, ops).captures ==> !c.token.OverReplay?
    decreases |ops|
  {
    if ops != [] {
      BegunLiveStayLive(boot, ops[..|ops| - 1]);
      StepBegins(Run(boot, ops[..|ops| - 1]), ops[|ops| - 1]);
    }
  }

  lemma {:induction false} StepBegins(st: State, op: Op)
    ensures Step(st, op).captures == st.captures ||
      (op.StartCapture? && op.dut in st.duts
       && Step(st, op).captures == st.captures + [Capture(op.dut, TokenOf(st.duts[op.dut], op.mode))])
  {
  }

  /**
    * So when every capture was begun on a live console, every reading on file is one of a live console: whatever the
    * worker has turned to by the time of a commit, a replay included.
    */
  lemma {:induction false} CapturesAreLive(boot: State, ops: seq<Op>, dut: string)
    requires Booted(boot) && BegunLive(ops) && dut in Run(boot, ops).duts
    ensures var ctx := Run(boot, ops).duts[dut];
      ctx.captured ==> ctx.console == Some(TokenOf(ctx, OnSerial)) || ctx.console == Some(TokenOf(ctx, OnSsh))
  {
    CapturesAreAnchored(boot, ops, dut);
    BegunLiveStayLive(boot, ops);
  }

  /**
    * Begun while a log file was open, answered over a cable, committed while the log file is open again: the reading is
    * filed under the log file.
    */
  lemma {:induction false} FiledUnderAReplay(
      st: State, dut: string, s: Serial, uplink: Option<Link>, role: Option<Role>)
    requires dut in st.duts && Measurable(st.duts[dut]) && IsSerial(s)
    ensures var n := |st.captures|;
      var after := Run(st, [
        StartCapture(dut, OnReplay), OpenSerial(dut, s), OpenConsole(dut, OnReplay), CommitReading(n, OnReplay, uplink, role)]);
      && dut in after.duts && after.duts[dut].captured
      && after.duts[dut].console == Some(OverReplay(st.duts[dut].registration))
  {
    var n, a := |st.captures|, StartCapture(dut, OnReplay);
    var b, c, d := OpenSerial(dut, s), OpenConsole(dut, OnReplay), CommitReading(n, OnReplay, uplink, role);
    assert [a, b, c, d][..3] == [a, b, c] && [a, b, c][..2] == [a, b] && [a, b][..1] == [a] && [a][..0] == [];
    var s1 := Step(st, a);
    assert Run(st, [a]) == s1 by {
      assert Run(st, []) == st;
    }
    var s3 := Step(Step(s1, b), c);
    assert Run(st, [a, b, c]) == s3;
    RegistrationsKept(s1.duts[dut], b);
    RegistrationsKept(Step(s1, b).duts[dut], c);
    assert Accepts(s3, n, OnReplay);
  }

  /** Exactly when a step takes a device's reading away. */
  ghost predicate Revokes(ctx: Context, dut: string, op: Op) {
    match op
    case Remove(d) => d == dut && dut != DEFAULT_DUT
    case OpenSerial(d, s) => d == dut && IsSerial(s) && ctx.console != Some(Local(ctx.registration, Some(s.port)))
    case OpenConsole(d, mode) => d == dut && ctx.console != Some(TokenOf(ctx, mode))
    case Configure(d, r) =>
      d == dut && !(ctx.remote.Some? && ctx.remote.value.host == r.host && ctx.remote.value.port == r.port
                    && ctx.remote.value.device == r.device && ctx.remote.value.isMesh == r.isMesh
                    && ctx.remote.value.backhaulIface == r.backhaulIface)
    case RecordIdentity(d, name, _, _) => d == dut && ctx.deviceId.Some? && ctx.deviceId != Some(name)
    case _ => false
  }

  /** A rule applied to one context. */
  predicate IsChange(op: Op) { op.OpenSerial? || op.OpenConsole? || op.Configure? || op.RecordIdentity? }

  lemma {:induction false} ChangeRevokesIff(st: State, op: Op, dut: string)
    requires dut in st.duts && Anchored(st.duts[dut]) && st.duts[dut].captured && IsChange(op)
    ensures var after := Step(st, op);
      dut in after.duts && (after.duts[dut].captured <==> !Revokes(st.duts[dut], dut, op))
  {
    hide RecordSerial, NoteOpen, Repoint, Identify, TokenOf, Anchored;
    var ctx := st.duts[dut];
    match op
    case OpenSerial(_, s) => OpenSerialDropsIff(ctx, s);
    case OpenConsole(_, mode) => OpenDropsIff(ctx, mode);
    case Configure(_, r) => RepointDropsIff(ctx, r);
    case RecordIdentity(_, name, mode, implied) => IdentifyDropsIff(ctx, name, mode, implied);
  }

  lemma {:induction false} OthersRevokeIff(st: State, op: Op, dut: string)
    requires dut in st.duts && st.duts[dut].captured && !IsChange(op)
    ensures var after := Step(st, op);
      dut in after.duts && after.duts[dut].captured <==> !Revokes(st.duts[dut], dut, op)
  {
    hide TokenOf, CanRegister;
    if op.Register? {
      RegisterIsNew(st, op, dut);
    }
  }

  lemma {:induction false} RegisterIsNew(st: State, op: Op, dut: string)
    requires op.Register? && dut in st.duts
    ensures dut in Step(st, op).duts && Step(st, op).duts[dut] == st.duts[dut]
  {
  }

  /** After any run: a captured device stops being captured exactly by a step that revokes it. */
  lemma {:induction false} RevokedIff(boot: State, ops: seq<Op>, dut: string, op: Op)
    requires Booted(boot) && dut in Run(boot, ops).duts && Run(boot, ops).duts[dut].captured
    ensures var st := Run(boot, ops); var after := Step(st, op);
      dut in after.duts && after.duts[dut].captured <==> !Revokes(st.duts[dut], dut, op)
  {
    hide Inv, Anchored, Run, Booted, Step, Revokes;
    BootedInv(boot);
    RunKeepsInv(boot, ops);
    InvAnchors(Run(boot, ops), dut);
    if IsChange(op) {
      ChangeRevokesIff(Run(boot, ops), op, dut);
    } else {
      OthersRevokeIff(Run(boot, ops), op, dut);
    }
  }

  // ---- which unit it is ---------------------------------------------------------------

  /** The console a step opens on this device, if it opens one. */
  function OpenedBy(ctx: Context, dut: string, op: Op): Option<Token> {
    match op
    case OpenSerial(d, s) =>
      if d == dut && s.port != "" && s.baudrate > 0 then Some(Local(ctx.registration, Some(s.port))) else None
    case OpenConsole(d, mode) => if d == dut then Some(TokenOf(ctx, mode)) else None
    case _ => None
  }

  /** An open of a console besides the one the unit answered on. */
  predicate Forgets(ctx: Context, dut: string, op: Op) {
    ctx.deviceConsole.Some? && OpenedBy(ctx, dut, op).Some? && OpenedBy(ctx, dut, op) != ctx.deviceConsole
  }

  /** What a step makes of a unit's name and of the console it answered on, captured or not. */
  lemma {:induction false} IdentityAfter(st: State, dut: string, op: Op)
    requires dut in st.duts && !(op == Remove(dut) && dut != DEFAULT_DUT)
    ensures var before, after := st.duts[dut], Step(st, op);
      && dut in after.duts
      && (after.duts[dut].deviceId, after.duts[dut].deviceConsole) ==
         if op.RecordIdentity? && op.dut == dut then (Some(op.name), Some(TokenOf(before, op.mode)))
         else if Forgets(before, dut, op) then (None, None)
         else (before.deviceId, before.deviceConsole)
  {
    hide TokenOf, CanRegister;
    match op
    case Register(_, _) => RegisterIsNew(st, op, dut);
    case OpenSerial(d, s) =>
      if d == dut {
        SerialIdentity(st.duts[dut], s);
      }
    case _ =>
  }

  lemma {:induction false} SerialIdentity(ctx: Context, s: Serial)
    ensures var after := RecordSerial(ctx, s);
      && (if s.port != "" && s.baudrate > 0 && ctx.deviceConsole.Some?
             && ctx.deviceConsole != Some(Local(ctx.registration, Some(s.port)))
          then after.deviceId == None && after.deviceConsole == None
          else after.deviceId == ctx.deviceId && after.deviceConsole == ctx.deviceConsole)
  {
  }

  /**
    * After any run, a unit that answered on a console is forgotten exactly by its device's removal or by an open of
    * another console; only another answer changes its name otherwise.
    */
  lemma {:induction false} ForgottenIff(boot: State, ops: seq<Op>, dut: string, op: Op)
    requires Booted(boot) && dut in Run(boot, ops).duts && Run(boot, ops).duts[dut].deviceConsole.Some?
    ensures var st := Run(boot, ops); var ctx, after := st.duts[dut], Step(st, op);
      && ctx.deviceId.Some?
      && (dut !in after.duts || after.duts[dut].deviceId == None <==>
          (op == Remove(dut) && dut != DEFAULT_DUT) || Forgets(ctx, dut, op))
      && (dut in after.duts && after.duts[dut].deviceId.Some? && after.duts[dut].deviceId != ctx.deviceId ==>
          op.RecordIdentity? && op.dut == dut && after.duts[dut].deviceId == Some(op.name))
  {
    BootedInv(boot);
    RunKeepsInv(boot, ops);
    InvAnchors(Run(boot, ops), dut);
    hide Run, Booted, Inv, RecordSerial, NoteOpen, Repoint, Identify, TokenOf, OpenedBy;
    if !(op == Remove(dut) && dut != DEFAULT_DUT) {
      IdentityAfter(Run(boot, ops), dut, op);
      hide Step;
    }
  }

  /** The last name a device answered with in its present registration, and the console it answered on. */
  function LastAnswer(boot: State, ops: seq<Op>, dut: string): Option<(string, Token)>
    decreases |ops|
  {
    if ops == [] then None
    else
      var st, op := Run(boot, ops[..|ops| - 1]), ops[|ops| - 1];
      if op.RecordIdentity? && op.dut == dut && dut in st.duts then Some((op.name, TokenOf(st.duts[dut], op.mode)))
      else if dut !in st.duts then None
      else LastAnswer(boot, ops[..|ops| - 1], dut)
  }

  /** On every run, a unit's name with a console beside it is the last answer, and that console the one it came from. */
  lemma {:induction false} NamedByLastAnswer(boot: State, ops: seq<Op>, dut: string)
    requires Booted(boot) && dut in Run(boot, ops).duts && Run(boot, ops).duts[dut].deviceConsole.Some?
    ensures var ctx := Run(boot, ops).duts[dut];
      ctx.deviceId.Some? && LastAnswer(boot, ops, dut) == Some((ctx.deviceId.value, ctx.deviceConsole.value))
    decreases |ops|
  {
    if ops != [] {
      var st, op := Run(boot, ops[..|ops| - 1]), ops[|ops| - 1];
      if dut in st.duts {
        RemovedIsGone(st, dut, op);
        IdentityAfter(st, dut, op);
        hide Booted, Step, TokenOf, OpenedBy;
        if !(op.RecordIdentity? && op.dut == dut) {
          NamedByLastAnswer(boot, ops[..|ops| - 1], dut);
        }
      } else {
        OnlyRegisters(st, dut, op);
      }
    }
  }

  lemma {:induction false} RemovedIsGone(st: State, dut: string, op: Op)
    requires dut in Step(st, op).duts
    ensures !(op == Remove(dut) && dut != DEFAULT_DUT)
  {
  }

  lemma {:induction false} OnlyRegisters(st: State, dut: string, op: Op)
    requires dut !in st.duts && dut in Step(st, op).duts
    ensures Step(st, op).duts[dut].deviceConsole == None
  {
    hide RecordSerial, NoteOpen, Repoint, Identify, TokenOf, CanRegister;
  }

  // ---- a capture outlives its registration --------------------------------------------

  /** No context carries the registration the capture was started under. */
  ghost predicate Retired(st: State, n: nat) {
    && n < |st.captures|
    && st.captures[n].token.registration < st.next
    && forall dut :: dut in st.duts ==> st.duts[dut].registration != st.captures[n].token.registration
  }

  lemma {:induction false} RegistrationsKept(ctx: Context, op: Op)
    ensures match op
      case OpenSerial(_, s) => RecordSerial(ctx, s).registration == ctx.registration
      case OpenConsole(_, mode) => NoteOpen(ctx, mode).registration == ctx.registration
      case Configure(_, remote) => Repoint(ctx, remote).registration == ctx.registration
      case RecordIdentity(_, name, mode, implied) => Identify(ctx, name, mode, implied).registration == ctx.registration
      case _ => true
  {
  }

  lemma {:induction false} StepKeepsRetired(st: State, op: Op, n: nat)
    requires Retired(st, n)
    ensures Retired(Step(st, op), n)
  {
    hide RecordSerial, NoteOpen, Repoint, Identify, TokenOf;
    var after := Step(st, op);
    forall dut | dut in after.duts
      ensures after.duts[dut].registration == st.next || (dut in st.duts && after.duts[dut].registration == st.duts[dut].registration)
    {
      if dut in st.duts {
        RegistrationsKept(st.duts[dut], op);
      }
    }
    assert after.captures[n] == st.captures[n];
  }

  /** A removed device's captures never commit again, not even into a device registered under the same id. */
  lemma {:induction false} RemovedCapturesNeverCommit(
      st: State, n: nat, dut: string, ops: seq<Op>, mode: Mode, uplink: Option<Link>, role: Option<Role>,
      downlink: Option<Children>)
    requires Inv(st) && n < |st.captures| && dut in st.duts && dut != DEFAULT_DUT
    requires st.captures[n].token.registration == st.duts[dut].registration
    ensures var later := Run(Step(st, Remove(dut)), ops);
      && !Accepts(later, n, mode)
      && Step(later, CommitReading(n, mode, uplink, role)) == later
      && Step(later, CommitDownlink(n, mode, downlink)) == later
  {
    RemovalRetires(st, n, dut);
    RunKeepsRetired(Step(st, Remove(dut)), ops, n);
    RetiredIsRefused(Run(Step(st, Remove(dut)), ops), n, mode);
    hide Retired, Accepts, Run;
  }

  lemma {:induction false} RemovalRetires(st: State, n: nat, dut: string)
    requires Inv(st) && n < |st.captures| && dut in st.duts && dut != DEFAULT_DUT
    requires st.captures[n].token.registration == st.duts[dut].registration
    ensures Retired(Step(st, Remove(dut)), n)
  {
    hide Anchored;
  }

  lemma {:induction false} RetiredIsRefused(st: State, n: nat, mode: Mode)
    requires Retired(st, n)
    ensures !Accepts(st, n, mode)
  {
    var c := st.captures[n];
    if c.dut in st.duts {
      assert TokenOf(st.duts[c.dut], mode).registration == st.duts[c.dut].registration;
    }
  }

  lemma {:induction false} RunKeepsRetired(st: State, ops: seq<Op>, n: nat)
    requires Retired(st, n)
    ensures Retired(Run(st, ops), n)
    decreases |ops|
  {
    hide Retired;
    if ops != [] {
      RunKeepsRetired(st, ops[..|ops| - 1], n);
      StepKeepsRetired(Run(st, ops[..|ops| - 1]), ops[|ops| - 1], n);
    }
  }

  // ---- the second half of a capture ---------------------------------------------------

  /** Children are shown only as part of a capture. */
  ghost predicate DownlinksBelong(st: State) {
    forall dut :: dut in st.duts && st.duts[dut].downlink.Some? ==> st.duts[dut].captured
  }

  /** The guard the second commit does not have: the reading on file is the one this capture stored. */
  ghost predicate StillFiled(st: State, n: nat) {
    n < |st.captures| && st.captures[n].dut in st.duts
    && st.duts[st.captures[n].dut].console == Some(st.captures[n].token)
  }

  /** One accepted second commit leaves its children in a capture exactly when there is one. */
  lemma {:induction false} DownlinkBelongsIff(st: State, n: nat, mode: Mode, downlink: Children)
    requires Inv(st) && DownlinksBelong(st) && Accepts(st, n, mode)
    ensures DownlinksBelong(Step(st, CommitDownlink(n, mode, Some(downlink)))) <==>
      st.duts[st.captures[n].dut].captured
  {
    var after := Step(st, CommitDownlink(n, mode, Some(downlink)));
    var dut := st.captures[n].dut;
    assert after.duts[dut].downlink.Some? && after.duts[dut].captured == st.duts[dut].captured;
    assert forall d :: d in after.duts && d != dut ==> after.duts[d] == st.duts[d];
  }

  /** A second commit with children falls, if it is accepted, while its device is captured. */
  ghost predicate InTime(st: State, op: Op) {
    op.CommitDownlink? && op.downlink.Some? && Accepts(st, op.capture, op.mode) ==>
      st.duts[st.captures[op.capture].dut].captured
  }

  /** One step keeps children inside captures if and only if it is in time. */
  lemma {:induction false} StepBelongsIff(st: State, op: Op)
    requires Inv(st) && DownlinksBelong(st)
    ensures DownlinksBelong(Step(st, op)) <==> InTime(st, op)
  {
    hide Inv, DownlinksBelong;
    if op.CommitDownlink? && op.downlink.Some? && Accepts(st, op.capture, op.mode) {
      DownlinkBelongsIff(st, op.capture, op.mode, op.downlink.value);
    } else {
      StepKeepsDownlinks(st, op);
    }
  }

  lemma {:induction false} StepKeepsDownlinks(st: State, op: Op)
    requires Inv(st) && DownlinksBelong(st)
    requires !(op.CommitDownlink? && op.downlink.Some? && Accepts(st, op.capture, op.mode))
    ensures DownlinksBelong(Step(st, op))
  {
    hide RecordSerial, NoteOpen, Repoint, Identify, TokenOf, Inv, Anchored;
    var after := Step(st, op);
    forall dut | dut in after.duts && after.duts[dut].downlink.Some?
      ensures after.duts[dut].captured
    {
      if dut in st.duts {
        InvAnchors(st, dut);
        StepKeepsChildren(st.duts[dut], op);
      }
    }
  }

  lemma {:induction false} StepKeepsChildren(ctx: Context, op: Op)
    requires Anchored(ctx) && (ctx.downlink.Some? ==> ctx.captured)
    ensures match op
      case OpenSerial(_, s) => RecordSerial(ctx, s).downlink.Some? ==> RecordSerial(ctx, s).captured
      case OpenConsole(_, mode) => NoteOpen(ctx, mode).downlink.Some? ==> NoteOpen(ctx, mode).captured
      case Configure(_, remote) => Repoint(ctx, remote).downlink.Some? ==> Repoint(ctx, remote).captured
      case RecordIdentity(_, name, mode, implied) =>
        Identify(ctx, name, mode, implied).downlink.Some? ==> Identify(ctx, name, mode, implied).captured
      case _ => true
  {
  }

  /** After every prefix of a run, children are shown only as part of a capture. */
  ghost predicate AlwaysBelongs(st: State, ops: seq<Op>)
    decreases |ops|
  {
    DownlinksBelong(Run(st, ops)) && (ops != [] ==> AlwaysBelongs(st, ops[..|ops| - 1]))
  }

  ghost predicate AllInTime(st: State, ops: seq<Op>)
    decreases |ops|
  {
    ops != [] ==> AllInTime(st, ops[..|ops| - 1]) && InTime(Run(st, ops[..|ops| - 1]), ops[|ops| - 1])
  }

  /** Over whole runs: children are never shown without a capture if and only if every second commit is in time. */
  lemma {:induction false} ChildrenBelongIff(boot: State, ops: seq<Op>)
    requires Booted(boot)
    ensures AlwaysBelongs(boot, ops) <==> AllInTime(boot, ops)
    decreases |ops|
  {
    hide InTime, Inv, DownlinksBelong, Booted;
    if ops == [] {
      BootBelongs(boot);
    } else {
      var front := ops[..|ops| - 1];
      ChildrenBelongIff(boot, front);
      if AllInTime(boot, front) {
        BootedInv(boot);
        RunKeepsInv(boot, front);
        BelongsNow(boot, front);
        StepBelongsIff(Run(boot, front), ops[|ops| - 1]);
      }
    }
  }

  lemma {:induction false} BelongsNow(st: State, ops: seq<Op>)
    requires AlwaysBelongs(st, ops)
    ensures DownlinksBelong(Run(st, ops))
  {
  }

  lemma {:induction false} BootBelongs(boot: State)
    requires Booted(boot)
    ensures DownlinksBelong(boot)
  {
    forall dut | dut in boot.duts
      ensures boot.duts[dut].downlink == None
    {
      assert WithoutBackhaul(boot.duts[dut]) == boot.duts[dut];
    }
  }

  /** Every second commit behind the guard the program does not have. */
  ghost predicate Guarded(st: State, ops: seq<Op>)
    decreases |ops|
  {
    ops != [] ==>
      var before, op := Run(st, ops[..|ops| - 1]), ops[|ops| - 1];
      Guarded(st, ops[..|ops| - 1]) && (op.CommitDownlink? ==> StillFiled(before, op.capture))
  }

  lemma {:induction false} GuardedIsInTime(boot: State, ops: seq<Op>)
    requires Booted(boot) && Guarded(boot, ops)
    ensures AllInTime(boot, ops)
    decreases |ops|
  {
    if ops != [] {
      var front := ops[..|ops| - 1];
      GuardedIsInTime(boot, front);
      BootedInv(boot);
      RunKeepsInv(boot, front);
      FiledIsCaptured(Run(boot, front), ops[|ops| - 1]);
    }
  }

  lemma {:induction false} FiledIsCaptured(st: State, op: Op)
    requires Inv(st) && (op.CommitDownlink? ==> StillFiled(st, op.capture))
    ensures InTime(st, op)
  {
    if op.CommitDownlink? {
      InvAnchors(st, st.captures[op.capture].dut);
    }
  }

  /** With the guard, then, no run ever shows children without a capture. */
  lemma {:induction false} GuardedRunsKeepDownlinks(boot: State, ops: seq<Op>)
    requires Booted(boot) && Guarded(boot, ops)
    ensures AlwaysBelongs(boot, ops)
  {
    GuardedIsInTime(boot, ops);
    ChildrenBelongIff(boot, ops);
  }

  /** What seven steps leave of one device: opened, measured, left and returned to between the two commits. */
  function Returned(start: Context, here: Serial, away: Serial, uplink: Option<Link>, role: Option<Role>): Context {
    RecordSerial(RecordSerial(StoreReading(start, TokenOf(start, OnSerial), uplink, role), away), here)
  }

  lemma {:induction false} ReturnedIsBare(
      ctx: Context, here: Serial, away: Serial, uplink: Option<Link>, role: Option<Role>)
    requires IsSerial(here) && IsSerial(away) && here.port != away.port
    ensures var start := RecordSerial(ctx, here);
      var back := Returned(start, here, away, uplink, role);
      && TokenOf(back, OnSerial) == TokenOf(start, OnSerial) && back.registration == ctx.registration
      && back.console == None && !back.captured
  {
    hide RecordSerial, StoreReading;
    var start := RecordSerial(ctx, here);
    OpenedIsLocal(ctx, here);
    var stored := StoreReading(start, TokenOf(start, OnSerial), uplink, role);
    StoredIsCaptured(start, TokenOf(start, OnSerial), uplink, role);
    OpenedIsLocal(stored, away);
    LeavingDrops(stored, away);
    OpenedIsLocal(RecordSerial(stored, away), here);
    NothingToRevoke(RecordSerial(stored, away), here);
  }

  lemma {:induction false} RunSnoc(st: State, ops: seq<Op>, op: Op)
    ensures Run(st, ops + [op]) == Step(Run(st, ops), op)
  {
    assert (ops + [op])[..|ops|] == ops;
  }

  /** One device of a run: what its context is, and that its capture is under way. */
  ghost predicate At(st: State, dut: string, ctx: Context, captures: seq<Capture>) {
    dut in st.duts && st.duts[dut] == ctx && st.captures == captures
  }

  lemma {:induction false} OpenSerialAt(st: State, dut: string, ctx: Context, captures: seq<Capture>, s: Serial)
    requires At(st, dut, ctx, captures)
    ensures At(Step(st, OpenSerial(dut, s)), dut, RecordSerial(ctx, s), captures)
  {
  }

  lemma {:induction false} StartAt(st: State, dut: string, ctx: Context, captures: seq<Capture>)
    requires At(st, dut, ctx, captures) && Measurable(ctx)
    ensures At(Step(st, StartCapture(dut, OnSerial)), dut, ctx, captures + [Capture(dut, TokenOf(ctx, OnSerial))])
  {
  }

  lemma {:induction false} CommitReadingAt(
      st: State, dut: string, ctx: Context, captures: seq<Capture>, n: nat, uplink: Option<Link>, role: Option<Role>)
    requires At(st, dut, ctx, captures) && n < |captures| && captures[n] == Capture(dut, TokenOf(ctx, OnSerial))
    ensures At(Step(st, CommitReading(n, OnSerial, uplink, role)), dut,
               StoreReading(ctx, TokenOf(ctx, OnSerial), uplink, role), captures)
  {
  }

  lemma {:induction false} CommitDownlinkAt(
      st: State, dut: string, ctx: Context, captures: seq<Capture>, n: nat, downlink: Option<Children>)
    requires At(st, dut, ctx, captures) && n < |captures| && captures[n] == Capture(dut, TokenOf(ctx, OnSerial))
    ensures At(Step(st, CommitDownlink(n, OnSerial, downlink)), dut, ctx.(downlink := downlink), captures)
  {
  }

  lemma {:induction false} OpensAreSerial(ctx: Context, here: Serial)
    requires ctx.remote == None
    ensures Measurable(RecordSerial(ctx, here))
  {
  }

  /**
    * Without it: register a device, open its console, start a capture, commit its reading, leave the console and come
    * back, and the second commit is accepted into a device with no capture. No later opens, over a cable or anything
    * else, take those children away again: there is no capture to revoke.
    */
  lemma {:induction false} LeavingAndReturning(
      st: State, dut: string, displayName: string, here: Serial, away: Serial, uplink: Option<Link>, role: Option<Role>,
      children: Children, later: seq<Op>)
    requires CanRegister(st.duts, dut) && IsSerial(here) && IsSerial(away) && here.port != away.port
    requires forall i :: 0 <= i < |later| ==> later[i].OpenConsole? || later[i].OpenSerial?
    ensures var n := |st.captures|;
      var after := Run(st, [
        Register(dut, displayName), OpenSerial(dut, here), StartCapture(dut, OnSerial),
        CommitReading(n, OnSerial, uplink, role), OpenSerial(dut, away), OpenSerial(dut, here),
        CommitDownlink(n, OnSerial, Some(children))]);
      && dut in after.duts && !after.duts[dut].captured && after.duts[dut].downlink == Some(children)
      && dut in Run(after, later).duts && !Run(after, later).duts[dut].captured
      && Run(after, later).duts[dut].downlink == Some(children)
  {
    hide RecordSerial, NoteOpen, StoreReading, Step, Run, CanRegister, TokenOf, Returned, Measurable;
    var n, bare := |st.captures|, Fresh(displayName, st.next);
    var start := RecordSerial(bare, here);
    var token := TokenOf(start, OnSerial);
    var captures := st.captures + [Capture(dut, token)];
    var stored := StoreReading(start, token, uplink, role);
    ReturnedIsBare(bare, here, away, uplink, role);
    var s := Opened(st, dut, displayName, here);
    StartAt(s, dut, start, st.captures);
    var s3 := Step(s, StartCapture(dut, OnSerial));
    CommitReadingAt(s3, dut, start, captures, n, uplink, role);
    var s4 := Step(s3, CommitReading(n, OnSerial, uplink, role));
    OpenSerialAt(s4, dut, stored, captures, away);
    var s5 := Step(s4, OpenSerial(dut, away));
    OpenSerialAt(s5, dut, RecordSerial(stored, away), captures, here);
    var s6 := Step(s5, OpenSerial(dut, here));
    var back := RecordSerial(RecordSerial(stored, away), here);
    ReturnedIs(start, here, away, uplink, role);
    CommitDownlinkAt(s6, dut, back, captures, n, Some(children));
    var s7 := Step(s6, CommitDownlink(n, OnSerial, Some(children)));
    LaterKeepsChildren(s7, dut, back.(downlink := Some(children)), later);
    SevenSteps(st, Register(dut, displayName), OpenSerial(dut, here), StartCapture(dut, OnSerial),
               CommitReading(n, OnSerial, uplink, role), OpenSerial(dut, away), OpenSerial(dut, here),
               CommitDownlink(n, OnSerial, Some(children)));
  }

  lemma {:induction false} ReturnedIs(
      start: Context, here: Serial, away: Serial, uplink: Option<Link>, role: Option<Role>)
    ensures Returned(start, here, away, uplink, role) ==
      RecordSerial(RecordSerial(StoreReading(start, TokenOf(start, OnSerial), uplink, role), away), here)
  {
  }

  lemma {:induction false} Opened(st: State, dut: string, displayName: string, here: Serial) returns (s: State)
    requires CanRegister(st.duts, dut)
    ensures s == Step(Step(st, Register(dut, displayName)), OpenSerial(dut, here))
    ensures At(s, dut, RecordSerial(Fresh(displayName, st.next), here), st.captures)
    ensures Measurable(RecordSerial(Fresh(displayName, st.next), here))
  {
    hide RecordSerial;
    var registered := Step(st, Register(dut, displayName));
    OpenSerialAt(registered, dut, Fresh(displayName, st.next), st.captures, here);
    OpensAreSerial(Fresh(displayName, st.next), here);
    s := Step(registered, OpenSerial(dut, here));
  }

  /** A device without a capture, showing these children. */
  ghost predicate Stranded(st: State, dut: string, downlink: Option<Children>) {
    dut in st.duts && st.duts[dut].console == None && !st.duts[dut].captured && st.duts[dut].downlink == downlink
  }

  lemma {:induction false} OpenKeepsStranded(st: State, dut: string, downlink: Option<Children>, op: Op)
    requires Stranded(st, dut, downlink) && (op.OpenConsole? || op.OpenSerial?)
    ensures Stranded(Step(st, op), dut, downlink)
  {
    if op.OpenSerial? {
      NothingToRevoke(st.duts[dut], op.serial);
    }
  }

  lemma {:induction false} LaterKeepsChildren(st: State, dut: string, ctx: Context, later: seq<Op>)
    requires dut in st.duts && st.duts[dut] == ctx && ctx.console == None && !ctx.captured
    requires forall i :: 0 <= i < |later| ==> later[i].OpenConsole? || later[i].OpenSerial?
    ensures Stranded(Run(st, later), dut, ctx.downlink)
    decreases |later|
  {
    if later != [] {
      LaterKeepsChildren(st, dut, ctx, later[..|later| - 1]);
      OpenKeepsStranded(Run(st, later[..|later| - 1]), dut, ctx.downlink, later[|later| - 1]);
    }
  }

  lemma {:induction false} SevenSteps(st: State, a: Op, b: Op, c: Op, d: Op, e: Op, f: Op, g: Op)
    ensures Run(st, [a, b, c, d, e, f, g]) == Step(Step(Step(Step(Step(Step(Step(st, a), b), c), d), e), f), g)
  {
    hide Step;
    RunSnoc(st, [], a);
    RunSnoc(st, [a], b);
    RunSnoc(st, [a, b], c);
    RunSnoc(st, [a, b, c], d);
    RunSnoc(st, [a, b, c, d], e);
    RunSnoc(st, [a, b, c, d, e], f);
    RunSnoc(st, [a, b, c, d, e, f], g);
    assert [] + [a] == [a] && [a] + [b] == [a, b] && [a, b] + [c] == [a, b, c] && [a, b, c] + [d] == [a, b, c, d];
    assert [a, b, c, d] + [e] == [a, b, c, d, e] && [a, b, c, d, e] + [f] == [a, b, c, d, e, f];
    assert [a, b, c, d, e, f] + [g] == [a, b, c, d, e, f, g];
  }

  lemma {:induction false} OpenedIsLocal(ctx: Context, s: Serial)
    requires IsSerial(s)
    ensures TokenOf(RecordSerial(ctx, s), OnSerial) == Local(ctx.registration, Some(s.port))
    ensures RecordSerial(ctx, s).registration == ctx.registration
  {
  }

  lemma {:induction false} StoredIsCaptured(ctx: Context, token: Token, uplink: Option<Link>, role: Option<Role>)
    ensures StoreReading(ctx, token, uplink, role).console == Some(token)
    ensures StoreReading(ctx, token, uplink, role).registration == ctx.registration
  {
  }

  lemma {:induction false} LeavingDrops(ctx: Context, away: Serial)
    requires IsSerial(away) && ctx.console.Some? && ctx.console.value != Local(ctx.registration, Some(away.port))
    ensures var after := RecordSerial(ctx, away); after.console == None && !after.captured && after.downlink == None
  {
  }

  lemma {:induction false} NothingToRevoke(ctx: Context, s: Serial)
    requires ctx.console == None && !ctx.captured
    ensures var after := RecordSerial(ctx, s);
      after.console == None && !after.captured && after.downlink == ctx.downlink
  {
  }

  // ---- what a step does, and to whom --------------------------------------------------

  /** Every other device, and every capture begun, is as it was. */
  ghost predicate OnlyAt(before: State, after: State, dut: string) {
    && (forall d :: d != dut ==> (d in after.duts <==> d in before.duts) && (d in before.duts ==> after.duts[d] == before.duts[d]))
    && after.captures == before.captures && after.next == before.next
  }

  /** A capture begins on a registered device, with its console of the moment; not on a node declared standalone. */
  lemma {:induction false} CaptureBegins(st: State, dut: string, mode: Mode)
    ensures var after := Step(st, StartCapture(dut, mode));
      if dut in st.duts && !(st.duts[dut].remote.Some? && !st.duts[dut].remote.value.isMesh)
      then after == st.(captures := st.captures + [Capture(dut, TokenOf(st.duts[dut], mode))])
      else after == st
  {
  }

  /** A capture still holds: its device is registered, and on the console it was begun on. */
  ghost predicate StillThere(st: State, n: nat, mode: Mode) {
    && n < |st.captures| && st.captures[n].dut in st.duts
    && TokenOf(st.duts[st.captures[n].dut], mode) == st.captures[n].token
  }

  /** A first commit leaves what was measured, under that console, and nothing else; or it leaves nothing at all. */
  lemma {:induction false} ReadingIsStored(st: State, n: nat, mode: Mode, uplink: Option<Link>, role: Option<Role>)
    ensures var after := Step(st, CommitReading(n, mode, uplink, role));
      if !StillThere(st, n, mode) then after == st
      else
        var c := st.captures[n];
        && OnlyAt(st, after, c.dut) && c.dut in after.duts
        && after.duts[c.dut] ==
             st.duts[c.dut].(uplink := uplink, role := role, captured := true, console := Some(c.token))
  {
  }

  /** A second commit adds the children. */
  lemma {:induction false} ChildrenAreStored(st: State, n: nat, mode: Mode, downlink: Option<Children>)
    ensures var after := Step(st, CommitDownlink(n, mode, downlink));
      if !StillThere(st, n, mode) then after == st
      else
        var c := st.captures[n];
        && OnlyAt(st, after, c.dut) && c.dut in after.duts
        && after.duts[c.dut] == st.duts[c.dut].(downlink := downlink)
  {
  }

  /** The default device is never removed; any other is, with what it held. */
  lemma {:induction false} RemovalSpares(st: State, dut: string)
    ensures var after := Step(st, Remove(dut));
      OnlyAt(st, after, dut) && (dut in after.duts <==> dut == "default" && dut in st.duts)
      && (dut == "default" ==> after == st)
  {
  }

  /** What is told of one device is never told of another, nor of one nobody registered. */
  lemma {:induction false} OthersAreUntouched(st: State, dut: string, op: Op)
    requires match op
             case OpenSerial(d, _) => d == dut
             case OpenConsole(d, _) => d == dut
             case Configure(d, _) => d == dut
             case RecordIdentity(d, _, _, _) => d == dut
             case RecordProbe(d, _) => d == dut
             case _ => false
    ensures OnlyAt(st, Step(st, op), dut)
    ensures dut !in st.duts ==> Step(st, op) == st
  {
  }
}
