/** Edge log collectors: their records, the passwords held in memory for them, and their live sessions. */
module Collectors {
  import opened Common
  import opened Fields
  import opened Sorting
  import opened SurveyNames
  import opened Text

  const MAX_COLLECTORS: nat := 8
  const MAX_LABEL: nat := 48

  datatype Auth = ByKey | ByPassword

  datatype Collector = Collector(
    id: string, displayName: string, ip: string, hostname: Option<string>, user: string, port: int, auth: Auth,
    keyPath: Option<string>)

  /** What a login on a box is; everything else on a record is for show or for checking. */
  datatype Login = Login(ip: string, user: string, port: int, auth: Auth, keyPath: Option<string>)

  function LoginOf(c: Collector): Login { Login(c.ip, c.user, c.port, c.auth, c.keyPath) }

  datatype Refusal =
    | Required(field: string) | BadId | BadAddress | BadHostname | BadUser | BadPort | BadAuth | NoKeyPath
    | LimitReached | UnknownCollector | NoPassword | LoginFailed(detail: string)

  datatype Result<T> = Ok(value: T) | Refused(why: Refusal)

  // ---- cleaning -----------------------------------------------------------------------

  datatype Payload = Payload(
    id: Value, displayName: Value, ip: Value, hostname: Value, user: Value, port: Value, auth: Value, keyPath: Value)

  predicate IsHostnameChar(c: char) { IsAlnum(c) || c in "._-" }

  predicate IsHostname(s: string) {
    1 <= |s| <= 63 && IsAlnum(s[0]) && forall i :: 0 <= i < |s| ==> IsHostnameChar(s[i])
  }

  /** A login name is a token without a colon. */
  predicate IsUser(s: string) { IsToken(s) && ':' !in s }

  function TextOf(v: Value): Option<string> { if HasText(v) then Some(Strip(v.s)) else None }

  predicate Falsy(v: Value) {
    v == Absent || v == Null || v == Str("") || v == Flag(false) || v == Number(0)
  }

  function AuthOf(auth: Value, keyPath: Option<string>): Option<Auth> {
    if Falsy(auth) then Some(if keyPath.Some? then ByKey else ByPassword)
    else if auth == Str("key") then Some(ByKey)
    else if auth == Str("password") then Some(ByPassword)
    else None
  }

  function Clean(p: Payload): Result<Collector> {
    var id, ip, user, hostname, keyPath := TextOf(p.id), TextOf(p.ip), TextOf(p.user), TextOf(p.hostname), TextOf(p.keyPath);
    if id.None? then Refused(Required("id"))
    else if !IsDutId(id.value) then Refused(BadId)
    else if ip.None? then Refused(Required("ip"))
    else if !IsToken(ip.value) then Refused(BadAddress)
    else if hostname.Some? && !IsHostname(hostname.value) then Refused(BadHostname)
    else if user.None? then Refused(Required("user"))
    else if !IsUser(user.value) then Refused(BadUser)
    else
      var port := if p.port == Absent then Number(22) else p.port;
      if !port.Number? || !(1 <= port.n <= 65535) then Refused(BadPort)
      else
        var auth := AuthOf(p.auth, keyPath);
        if auth.None? then Refused(BadAuth)
        else if auth == Some(ByKey) && keyPath.None? then Refused(NoKeyPath)
        else
          var shown := TextOf(p.displayName);
          Ok(Collector(
            id.value,
            if shown.Some? then (if |shown.value| > MAX_LABEL then shown.value[..MAX_LABEL] else shown.value)
            else hostname.GetOr(ip.value),
            ip.value, hostname, user.value, port.n, auth.value,
            if auth.value == ByKey then keyPath else None))
  }

  function PayloadOf(c: Collector): Payload {
    Payload(Str(c.id), Str(c.displayName), Str(c.ip), if c.hostname.Some? then Str(c.hostname.value) else Null,
            Str(c.user), Number(c.port), Str(if c.auth == ByKey then "key" else "password"),
            if c.keyPath.Some? then Str(c.keyPath.value) else Null)
  }

  predicate IsText(s: string) { s != "" && IsTrimmed(s) }

  /** Everything a cleaned record is. */
  predicate IsCollector(c: Collector) {
    && IsDutId(c.id) && IsTrimmed(c.id) && IsToken(c.ip) && IsTrimmed(c.ip) && IsUser(c.user) && IsTrimmed(c.user)
    && (c.hostname.Some? ==> IsHostname(c.hostname.value) && IsTrimmed(c.hostname.value))
    && 1 <= c.port <= 65535
    && (c.auth == ByKey <==> c.keyPath.Some?)
    && (c.keyPath.Some? ==> IsText(c.keyPath.value))
    && c.displayName != ""
  }

  lemma {:induction false} CleanIs(p: Payload)
    requires Clean(p).Ok?
    ensures IsCollector(Clean(p).value)
  {
    TextIsTrimmed(p.id);
    TextIsTrimmed(p.ip);
    TextIsTrimmed(p.user);
    TextIsTrimmed(p.hostname);
    TextIsTrimmed(p.keyPath);
  }

  lemma {:induction false} TextIsTrimmed(v: Value)
    ensures TextOf(v).Some? ==> IsText(TextOf(v).value)
  {
    if HasText(v) {
      StripTrims(v.s);
    }
  }

  lemma {:induction false} TextOfText(s: string)
    requires IsText(s)
    ensures TextOf(Str(s)) == Some(s)
  {
    StripOfTrimmed(s);
  }

  /**
    * Saved and read back, a record comes back as it was exactly when its label is trimmed and within bounds: a label
    * cut at the bound may end in a blank, and one derived from a long address was never cut at all.
    */
  lemma {:induction false} CleanAgainIff(c: Collector)
    requires IsCollector(c)
    ensures Clean(PayloadOf(c)) == Ok(c) <==> IsTrimmed(c.displayName) && |c.displayName| <= MAX_LABEL
    ensures Clean(PayloadOf(c)).Ok? && LoginOf(Clean(PayloadOf(c)).value) == LoginOf(c)
  {
    hide Clean, IsDutId, IsToken, IsUser, IsHostname;
    CleanOfRecord(c);
    TextIsTrimmed(Str(c.displayName));
    if IsTrimmed(c.displayName) {
      TextOfText(c.displayName);
    } else {
      StrippedIsOther(c.displayName);
    }
  }

  /** What was posted comes back from the file: the label given is not cut at a blank, one derived is not cut at all. */
  predicate ComesBack(p: Payload) {
    match TextOf(p.displayName)
    case Some(shown) => |shown| <= MAX_LABEL || !IsSpace(shown[MAX_LABEL - 1])
    case None => |TextOf(p.hostname).GetOr(TextOf(p.ip).GetOr(""))| <= MAX_LABEL
  }

  /** The same at the input: a record accepted from a payload is saved and read back unchanged exactly then. */
  lemma {:induction false} ComesBackIff(p: Payload)
    requires Clean(p).Ok?
    ensures Clean(PayloadOf(Clean(p).value)) == Clean(p) <==> ComesBack(p)
  {
    hide IsDutId, TextOf, IsTrimmed;
    CleanIs(p);
    CleanAgainIff(Clean(p).value);
    LabelTrimmedIff(p);
  }

  lemma {:induction false} LabelTrimmedIff(p: Payload)
    requires Clean(p).Ok?
    ensures var name := Clean(p).value.displayName;
      IsTrimmed(name) && |name| <= MAX_LABEL <==> ComesBack(p)
  {
    hide IsDutId, IsUser, TextOf, AuthOf;
    TextIsTrimmed(p.displayName);
    if TextOf(p.displayName).None? {
      if TextOf(p.hostname).Some? {
        HostnamesHaveNoBlanks(TextOf(p.hostname).value);
      } else {
        TokensHaveNoBlanks(TextOf(p.ip).value);
      }
    }
  }

  lemma {:induction false} TokensHaveNoBlanks(s: string)
    requires IsToken(s)
    ensures IsTrimmed(s)
  {
    assert IsTokenChar(s[0]) && IsTokenChar(s[|s| - 1]);
  }

  lemma {:induction false} HostnamesHaveNoBlanks(s: string)
    requires IsHostname(s)
    ensures IsTrimmed(s)
  {
    assert IsHostnameChar(s[0]) && IsHostnameChar(s[|s| - 1]);
  }

  /** A box posted with an address, a login name, a port and no key. */
  function Posted(id: string, named: Value, ip: string, hostname: Value, user: string): Payload {
    Payload(Str(id), named, Str(ip), hostname, Str(user), Absent, Absent, Absent)
  }

  /** A label whose forty-eighth character is a blank is accepted, and comes back one character shorter or more. */
  lemma {:induction false} CutAtABlank(named: string)
    requires IsText(named) && |named| > MAX_LABEL && IsSpace(named[MAX_LABEL - 1])
    ensures var p := Posted("lab", Str(named), "10.0.0.5", Absent, "root");
      && Clean(p).Ok? && Clean(p).value.displayName == named[..MAX_LABEL]
      && Clean(PayloadOf(Clean(p).value)) != Clean(p)
  {
    hide Clean, IsText, TextOf, PayloadOf;
    var p := Posted("lab", Str(named), "10.0.0.5", Absent, "root");
    AbsentIsNoText();
    LabIsAccepted(Str(named), Absent);
    TextOfText(named);
    ComesBackIff(p);
  }

  /** A host name of more than forty-eight characters becomes an uncut label, and comes back cut. */
  lemma {:induction false} LongHostnameIsCut(hostname: string)
    requires IsHostname(hostname) && |hostname| > MAX_LABEL
    ensures var p := Posted("lab", Absent, "10.0.0.5", Str(hostname), "root");
      && Clean(p).Ok? && Clean(p).value.displayName == hostname
      && Clean(PayloadOf(Clean(p).value)) != Clean(p)
  {
    hide Clean, IsHostname, TextOf, PayloadOf;
    var p := Posted("lab", Absent, "10.0.0.5", Str(hostname), "root");
    HostnamesHaveNoBlanks(hostname);
    TextOfText(hostname);
    LabIsAccepted(Absent, Str(hostname));
    AbsentIsNoText();
    ComesBackIff(p);
  }

  lemma {:induction false} LabIsLegal()
    ensures IsDutId("lab") && IsText("lab") && IsToken("10.0.0.5") && IsText("10.0.0.5")
    ensures IsUser("root") && IsText("root")
  {
  }

  lemma {:induction false} AbsentIsNoText()
    ensures TextOf(Absent) == None
  {
  }

  lemma {:induction false} LabIsAccepted(named: Value, hostname: Value)
    requires TextOf(hostname).Some? ==> IsHostname(TextOf(hostname).value)
    ensures var p, shown := Posted("lab", named, "10.0.0.5", hostname, "root"), TextOf(named);
      && Clean(p).Ok?
      && Clean(p).value.displayName ==
           if shown.Some? then (if |shown.value| > MAX_LABEL then shown.value[..MAX_LABEL] else shown.value)
           else TextOf(hostname).GetOr("10.0.0.5")
  {
    hide IsDutId, IsToken, IsUser, IsHostname, TextOf;
    LabIsLegal();
    AbsentIsNoText();
    TextOfText("lab");
    TextOfText("10.0.0.5");
    TextOfText("root");
  }

  /** Reading a record back changes its label at most. */
  lemma {:induction false} CleanOfRecord(c: Collector)
    requires IsCollector(c)
    ensures var shown := TextOf(Str(c.displayName));
      Clean(PayloadOf(c)) ==
      Ok(c.(displayName :=
        if shown.None? then c.hostname.GetOr(c.ip)
        else if |shown.value| > MAX_LABEL then shown.value[..MAX_LABEL] else shown.value))
  {
    hide TextOf, AuthOf;
    AuthNames(c.keyPath);
    TextOfText(c.id);
    TextOfText(c.ip);
    TextOfText(c.user);
    if c.hostname.Some? {
      TextOfText(c.hostname.value);
    }
    if c.keyPath.Some? {
      TextOfText(c.keyPath.value);
    }
    NothingIsNoText();
  }

  lemma {:induction false} AuthNames(keyPath: Option<string>)
    ensures AuthOf(Str("key"), keyPath) == Some(ByKey) && AuthOf(Str("password"), keyPath) == Some(ByPassword)
  {
  }

  lemma {:induction false} NothingIsNoText()
    ensures TextOf(Null) == None
  {
  }

  /** Stripping an untrimmed text shortens it. */
  lemma {:induction false} StrippedIsOther(s: string)
    requires !IsTrimmed(s)
    ensures Strip(s) != s && |Strip(s)| < |s|
  {
    StripTrims(s);
    RStripNoLonger(s);
    LStripNoLonger(RStrip(s));
    if IsSpace(s[|s| - 1]) {
      RStripNoLonger(s[..|s| - 1]);
    } else {
      assert RStrip(s) == s;
      LStripNoLonger(s[1..]);
    }
  }

  lemma {:induction false} RStripNoLonger(s: string)
    ensures |RStrip(s)| <= |s|
  {
  }

  lemma {:induction false} LStripNoLonger(s: string)
    ensures |LStrip(s)| <= |s|
  {
  }

  // ---- the registry -------------------------------------------------------------------

  /** A session is on the login it was opened with, for as long as it lives. */
  datatype Session = Session(login: Login, reported: string, alive: bool)

  /**
    * `order` is the order the records were added in. `setFor` is history: the login each held password was given for.
    */
  datatype State = State(
    order: seq<string>, records: map<string, Collector>, passwords: map<string, string>, sessions: map<string, Session>,
    detail: map<string, string>, setFor: map<string, Login>)

  const EMPTY: State := State([], map[], map[], map[], map[], map[])

  function Drop(st: State, id: string): State { st.(sessions := st.sessions - {id}) }

  function Forget(st: State, id: string): State {
    st.(passwords := st.passwords - {id}, setFor := st.setFor - {id})
  }

  /** An empty text is no password. */
  function Hold(st: State, id: string, password: string): State
    requires id in st.records
  {
    if password == "" then Forget(st, id)
    else st.(passwords := st.passwords[id := password], setFor := st.setFor[id := LoginOf(st.records[id])])
  }

  function Put(st: State, c: Collector): State {
    st.(records := st.records[c.id := c], order := if c.id in st.records then st.order else st.order + [c.id])
  }

  /** Re-pointing an id at another login makes what was held for it somebody else's. */
  function Repointed(st: State, c: Collector): State {
    if c.id in st.records && LoginOf(st.records[c.id]) != LoginOf(c) then Forget(Drop(st, c.id), c.id) else st
  }

  function Configure(st: State, p: Payload, password: Option<string>): (State, Result<Collector>) {
    var cleaned := Clean(p);
    if cleaned.Refused? then (st, cleaned)
    else
      var c := cleaned.value;
      if c.id !in st.records && |st.records| >= MAX_COLLECTORS then (st, Refused(LimitReached))
      else
        var put := Put(Repointed(st, c), c);
        (if password.Some? then Hold(put, c.id, password.value) else put, cleaned)
  }

  function SetPassword(st: State, id: string, password: string): State {
    if id in st.records then Hold(st, id, password) else st
  }

  function RemoveId(order: seq<string>, id: string): seq<string> {
    if order == [] then []
    else (if order[0] == id then [] else [order[0]]) + RemoveId(order[1..], id)
  }

  function Remove(st: State, id: string): State {
    if id !in st.records then st
    else
      var s := Forget(Drop(st, id), id);
      s.(detail := s.detail - {id}, records := s.records - {id}, order := RemoveId(s.order, id))
  }

  /** What the login came to: the name the box answered with, or why there is none. */
  datatype Attempt = Answered(reported: string) | Failed(detail: string)

  function Greeting(c: Collector, reported: string): string {
    if c.hostname.None? || c.hostname.value == reported then ""
    else "Logged in, but the box calls itself " + reported + ", not " + c.hostname.value + "."
  }

  function Connect(st: State, id: string, attempt: Attempt): (State, Result<string>) {
    if id !in st.records then (st, Refused(UnknownCollector))
    else
      var c := st.records[id];
      if c.auth == ByPassword && id !in st.passwords then (st, Refused(NoPassword))
      else
        var s := Drop(st, id);
        match attempt
        case Failed(detail) => (s.(detail := s.detail[id := detail]), Refused(LoginFailed(detail)))
        case Answered(reported) =>
          (s.(sessions := s.sessions[id := Session(LoginOf(c), reported, true)],
              detail := s.detail[id := Greeting(c, reported)]), Ok(reported))
  }

  function Disconnect(st: State, id: string): State {
    if id !in st.records then st else Drop(st, id).(detail := st.detail[id := ""])
  }

  function CloseAll(st: State): State { st.(sessions := map[]) }

  /** A session may end at any moment; nothing is told. */
  function Dies(st: State, id: string): State {
    if id in st.sessions then st.(sessions := st.sessions[id := st.sessions[id].(alive := false)]) else st
  }

  /** Asking for a status finds a dead session out. */
  function Status(st: State, id: string): State {
    if id in st.records && id in st.sessions && !st.sessions[id].alive
      then Drop(st, id).(detail := st.detail[id := "The SSH session ended."]) else st
  }

  /** How to log in, handed to the transport: a key path or a password, never both. */
  function Credentials(st: State, id: string): Result<(string, string)> {
    if id !in st.records then Refused(UnknownCollector)
    else if st.records[id].auth == ByKey then Ok((st.records[id].keyPath.GetOr(""), ""))
    else if id in st.passwords then Ok(("", st.passwords[id]))
    else Refused(NoPassword)
  }

  /** The file a boot reads: entries that no longer validate are skipped, and a full table ends the reading. */
  function Load(st: State, entries: seq<Payload>): State
    decreases |entries|
  {
    if entries == [] then st
    else
      var cleaned := Clean(entries[0]);
      if cleaned.Refused? then Load(st, entries[1..])
      else if |st.records| >= MAX_COLLECTORS then st
      else Load(Put(st, cleaned.value), entries[1..])
  }

  // ---- what every operation keeps -----------------------------------------------------

  ghost predicate Listed(order: seq<string>, records: map<string, Collector>) {
    && NoRepeats(order) && (forall id :: id in order <==> id in records)
    && |records| <= MAX_COLLECTORS
    && (forall id :: id in records ==> IsCollector(records[id]) && records[id].id == id)
  }

  /** What is held belongs to a record and to the login the record names. */
  ghost predicate Current(st: State) {
    && st.passwords.Keys == st.setFor.Keys
    && (forall id :: id in st.passwords ==>
          id in st.records && st.passwords[id] != "" && st.setFor[id] == LoginOf(st.records[id]))
    && (forall id :: id in st.sessions ==> id in st.records && st.sessions[id].login == LoginOf(st.records[id]))
  }

  ghost predicate Inv(st: State) { Listed(st.order, st.records) && Current(st) }

  lemma {:induction false} PutKeepsListed(st: State, c: Collector)
    requires Listed(st.order, st.records) && IsCollector(c) && (c.id in st.records || |st.records| < MAX_COLLECTORS)
    ensures Listed(Put(st, c).order, Put(st, c).records)
  {
    hide IsCollector;
    var after := Put(st, c);
    if c.id in st.records {
      SameKeysSameSize(after.records, st.records);
    } else {
      NoRepeatsSnoc(st.order, c.id);
      OneMoreKey(st.records, c.id, c);
    }
  }

  lemma {:induction false} PutKeepsInv(st: State, c: Collector)
    requires Inv(st) && IsCollector(c) && (c.id in st.records || |st.records| < MAX_COLLECTORS)
    requires c.id in st.passwords || c.id in st.sessions ==> c.id in st.records && LoginOf(st.records[c.id]) == LoginOf(c)
    ensures Inv(Put(st, c))
  {
    hide IsCollector, Listed;
    PutKeepsListed(st, c);
  }

  lemma {:induction false} SameKeysSameSize(a: map<string, Collector>, b: map<string, Collector>)
    requires a.Keys == b.Keys
    ensures |a| == |b|
  {
    assert |a.Keys| == |a| && |b.Keys| == |b|;
  }

  lemma {:induction false} OneMoreKey(m: map<string, Collector>, id: string, c: Collector)
    requires id !in m
    ensures |m[id := c]| == |m| + 1
  {
    assert m[id := c].Keys == m.Keys + {id};
    assert |m[id := c].Keys| == |m[id := c]| && |m.Keys| == |m|;
  }

  lemma {:induction false} NoRepeatsSnoc(s: seq<string>, x: string)
    requires NoRepeats(s) && x !in s
    ensures NoRepeats(s + [x])
  {
  }

  lemma {:induction false} RepointedKeepsInv(st: State, c: Collector)
    requires Inv(st)
    ensures Inv(Repointed(st, c))
    ensures var s := Repointed(st, c);
      && s.records == st.records
      && (c.id in s.passwords || c.id in s.sessions ==> c.id in s.records && LoginOf(s.records[c.id]) == LoginOf(c))
  {
    hide Listed;
  }

  lemma {:induction false} HoldKeepsInv(st: State, id: string, password: string)
    requires Inv(st) && id in st.records
    ensures Inv(Hold(st, id, password))
  {
    hide Listed;
  }

  lemma {:induction false} ConfigureKeepsInv(st: State, p: Payload, password: Option<string>)
    requires Inv(st)
    ensures Inv(Configure(st, p, password).0)
  {
    hide Inv, Clean, IsCollector, Repointed;
    if Configure(st, p, password).1.Ok? {
      CleanIs(p);
      var c := Clean(p).value;
      RepointedKeepsInv(st, c);
      PutKeepsInv(Repointed(st, c), c);
      if password.Some? {
        HoldKeepsInv(Put(Repointed(st, c), c), c.id, password.value);
      }
    }
  }

  lemma {:induction false} RemoveIdRemoves(order: seq<string>, id: string)
    requires NoRepeats(order)
    ensures NoRepeats(RemoveId(order, id))
    ensures forall x :: x in RemoveId(order, id) <==> x in order && x != id
  {
    if order != [] {
      var head, rest := order[0], order[1..];
      assert forall x :: x in order <==> x == head || x in rest;
      assert head !in rest;
      RemoveIdRemoves(rest, id);
      if head != id {
        assert forall x :: x in [head] + RemoveId(rest, id) <==> x == head || x in RemoveId(rest, id);
      }
    }
  }

  lemma {:induction false} RemoveKeepsInv(st: State, id: string)
    requires Inv(st)
    ensures Inv(Remove(st, id))
    ensures id !in Remove(st, id).records && id !in Remove(st, id).passwords && id !in Remove(st, id).sessions
  {
    hide Listed;
    if id in st.records {
      RemovalKeepsListed(st, id);
    } else {
      assert id !in st.passwords && id !in st.sessions;
    }
  }

  lemma {:induction false} RemovalKeepsListed(st: State, id: string)
    requires Listed(st.order, st.records) && id in st.records
    ensures Listed(RemoveId(st.order, id), st.records - {id})
  {
    hide IsCollector, RemoveId;
    RemoveIdRemoves(st.order, id);
    assert st.records == (st.records - {id})[id := st.records[id]];
    OneMoreKey(st.records - {id}, id, st.records[id]);
  }

  lemma {:induction false} ConnectKeepsInv(st: State, id: string, attempt: Attempt)
    requires Inv(st)
    ensures Inv(Connect(st, id, attempt).0)
  {
    hide Listed, Greeting;
  }

  lemma {:induction false} LoadKeepsInv(st: State, entries: seq<Payload>)
    requires Inv(st) && st.passwords == map[] && st.sessions == map[]
    ensures Inv(Load(st, entries))
    ensures Load(st, entries).passwords == map[] && Load(st, entries).sessions == map[]
    decreases |entries|
  {
    hide Inv, Clean;
    if entries != [] {
      if Clean(entries[0]).Refused? {
        LoadKeepsInv(st, entries[1..]);
      } else if |st.records| < MAX_COLLECTORS {
        CleanIs(entries[0]);
        PutKeepsInv(st, Clean(entries[0]).value);
        LoadKeepsInv(Put(st, Clean(entries[0]).value), entries[1..]);
      }
    }
  }

  datatype Op =
    | DoConfigure(payload: Payload, given: Option<string>)
    | DoSetPassword(id: string, password: string)
    | DoForgetPassword(id: string)
    | DoRemove(id: string)
    | DoConnect(id: string, attempt: Attempt)
    | DoDisconnect(id: string)
    | DoCloseAll
    | DoStatus(id: string)
    | SessionEnds(id: string)

  function Step(st: State, op: Op): State {
    match op
    case DoConfigure(payload, password) => Configure(st, payload, password).0
    case DoSetPassword(id, password) => SetPassword(st, id, password)
    case DoForgetPassword(id) => Forget(st, id)
    case DoRemove(id) => Remove(st, id)
    case DoConnect(id, attempt) => Connect(st, id, attempt).0
    case DoDisconnect(id) => Disconnect(st, id)
    case DoCloseAll => CloseAll(st)
    case DoStatus(id) => Status(st, id)
    case SessionEnds(id) => Dies(st, id)
  }

  function Run(st: State, ops: seq<Op>): State
    decreases |ops|
  {
    if ops == [] then st else Step(Run(st, ops[..|ops| - 1]), ops[|ops| - 1])
  }

  lemma {:induction false} ForgetKeepsInv(st: State, id: string)
    requires Inv(st)
    ensures Inv(Forget(st, id))
  {
    hide Listed;
  }

  lemma {:induction false} DisconnectKeepsInv(st: State, id: string)
    requires Inv(st)
    ensures Inv(Disconnect(st, id))
  {
    hide Listed;
  }

  lemma {:induction false} StatusKeepsInv(st: State, id: string)
    requires Inv(st)
    ensures Inv(Status(st, id))
  {
    hide Listed;
  }

  lemma {:induction false} DyingKeepsInv(st: State, id: string)
    requires Inv(st)
    ensures Inv(Dies(st, id))
  {
    hide Listed;
  }

  lemma {:induction false} CloseAllKeepsInv(st: State)
    requires Inv(st)
    ensures Inv(CloseAll(st))
  {
    hide Listed;
  }

  lemma {:induction false} StepKeepsInv(st: State, op: Op)
    requires Inv(st)
    ensures Inv(Step(st, op))
  {
    hide Inv, Configure, Hold, Forget, Remove, Connect, Disconnect, CloseAll, Status, Dies;
    match op
    case DoConfigure(payload, password) => ConfigureKeepsInv(st, payload, password);
    case DoSetPassword(id, password) => SetPasswordKeepsInv(st, id, password);
    case DoForgetPassword(id) => ForgetKeepsInv(st, id);
    case DoRemove(id) => RemoveKeepsInv(st, id);
    case DoConnect(id, attempt) => ConnectKeepsInv(st, id, attempt);
    case DoDisconnect(id) => DisconnectKeepsInv(st, id);
    case DoCloseAll => CloseAllKeepsInv(st);
    case DoStatus(id) => StatusKeepsInv(st, id);
    case SessionEnds(id) => DyingKeepsInv(st, id);
  }

  lemma {:induction false} SetPasswordKeepsInv(st: State, id: string, password: string)
    requires Inv(st)
    ensures Inv(SetPassword(st, id, password))
  {
    if id in st.records {
      HoldKeepsInv(st, id, password);
    }
  }

  /**
    * From any boot, on every run: at most eight collectors; a session or a password is held only for a registered
    * one, no held password is empty, and each belongs to the login the record names now.
    */
  lemma {:induction false} HeldForTheCurrentLogin(entries: seq<Payload>, ops: seq<Op>)
    ensures var st := Run(Load(EMPTY, entries), ops);
      && |st.records| <= MAX_COLLECTORS
      && (forall id :: id in st.passwords ==>
            id in st.records && st.passwords[id] != "" && id in st.setFor && st.setFor[id] == LoginOf(st.records[id]))
      && (forall id :: id in st.sessions ==> id in st.records && st.sessions[id].login == LoginOf(st.records[id]))
  {
    LoadKeepsInv(EMPTY, entries);
    RunKeepsInv(Load(EMPTY, entries), ops);
  }

  lemma {:induction false} RunKeepsInv(st: State, ops: seq<Op>)
    requires Inv(st)
    ensures Inv(Run(st, ops))
    decreases |ops|
  {
    hide Inv;
    if ops != [] {
      RunKeepsInv(st, ops[..|ops| - 1]);
      StepKeepsInv(Run(st, ops[..|ops| - 1]), ops[|ops| - 1]);
    }
  }

  /** What a login is handed was given for that login, or names its key. */
  lemma {:induction false} CredentialsAreCurrent(st: State, id: string)
    requires Inv(st) && Credentials(st, id).Ok?
    ensures var (keyPath, password) := Credentials(st, id).value;
      && (st.records[id].auth == ByKey ==> keyPath != "" && Some(keyPath) == st.records[id].keyPath && password == "")
      && (st.records[id].auth == ByPassword ==>
            keyPath == "" && password != "" && id in st.setFor && st.setFor[id] == LoginOf(st.records[id]))
  {
  }

  /** An edit keeps what is held exactly when it leaves the login alone. */
  lemma {:induction false} EditKeepsIff(st: State, p: Payload)
    requires Inv(st) && Clean(p).Ok? && Clean(p).value.id in st.records
    ensures var id := Clean(p).value.id; var after := Configure(st, p, None).0;
      && (id in after.sessions <==> id in st.sessions && LoginOf(st.records[id]) == LoginOf(Clean(p).value))
      && (id in after.passwords <==> id in st.passwords && LoginOf(st.records[id]) == LoginOf(Clean(p).value))
      && forall other :: other != id ==>
           (other in after.sessions <==> other in st.sessions) && (other in after.passwords <==> other in st.passwords)
  {
    hide Clean, Listed;
  }

  // ---- in place -----------------------------------------------------------------------

  class CollectorRegistry {
    var order: seq<string>
    var records: map<string, Collector>
    var passwords: map<string, string>
    var sessions: map<string, Session>
    var detail: map<string, string>
    ghost var setFor: map<string, Login>

    ghost function Abs(): State
      reads this
    {
      State(order, records, passwords, sessions, detail, setFor)
    }

    constructor ()
      ensures Abs() == EMPTY
    {
      order, records, passwords, sessions, detail, setFor := [], map[], map[], map[], map[], map[];
    }

    method DisconnectLocked(id: string)
      modifies this`sessions
      ensures Abs() == Drop(old(Abs()), id)
    {
      sessions := sessions - {id};
    }

    method ForgetPassword(id: string)
      modifies this`passwords, this`setFor
      ensures Abs() == Forget(old(Abs()), id)
    {
      passwords := passwords - {id};
      setFor := setFor - {id};
    }

    method SetPasswordLocked(id: string, password: string)
      requires id in records
      modifies this`passwords, this`setFor
      ensures Abs() == Hold(old(Abs()), id, password)
    {
      if password == "" {
        ForgetPassword(id);
        return;
      }
      passwords := passwords[id := password];
      setFor := setFor[id := LoginOf(records[id])];
    }

    method StoreLocked(c: Collector)
      modifies this`order, this`records
      ensures Abs() == Put(old(Abs()), c)
    {
      if c.id !in records {
        order := order + [c.id];
      }
      records := records[c.id := c];
    }

    method ConfigureCollector(p: Payload, password: Option<string>) returns (r: Result<Collector>)
      modifies this
      ensures (Abs(), r) == Configure(old(Abs()), p, password)
    {
      r := Clean(p);
      if r.Refused? {
        return;
      }
      var c := r.value;
      if c.id !in records && |records| >= MAX_COLLECTORS {
        return Refused(LimitReached);
      }
      if c.id in records && LoginOf(records[c.id]) != LoginOf(c) {
        DisconnectLocked(c.id);
        ForgetPassword(c.id);
      }
      StoreLocked(c);
      if password.Some? {
        SetPasswordLocked(c.id, password.value);
      }
    }

    method SetPasswordOf(id: string, password: string) returns (ok: bool)
      modifies this`passwords, this`setFor
      ensures ok <==> id in records
      ensures Abs() == SetPassword(old(Abs()), id, password)
    {
      ok := id in records;
      if ok {
        SetPasswordLocked(id, password);
      }
    }

    method DisconnectFrom(id: string) returns (ok: bool)
      modifies this`sessions, this`detail
      ensures ok <==> id in records
      ensures Abs() == Disconnect(old(Abs()), id)
    {
      ok := id in records;
      if ok {
        DisconnectLocked(id);
        detail := detail[id := ""];
      }
    }

    method CredentialsFor(id: string) returns (r: Result<(string, string)>)
      ensures r == Credentials(Abs(), id)
    {
      if id !in records {
        return Refused(UnknownCollector);
      }
      if records[id].auth == ByKey {
        return Ok((records[id].keyPath.GetOr(""), ""));
      }
      r := if id in passwords then Ok(("", passwords[id])) else Refused(NoPassword);
    }

    method RemoveCollector(id: string) returns (ok: bool)
      modifies this
      ensures ok <==> id in old(records)
      ensures Abs() == Remove(old(Abs()), id)
    {
      if id !in records {
        return false;
      }
      DisconnectLocked(id);
      ForgetPassword(id);
      detail := detail - {id};
      records := records - {id};
      order := RemoveId(order, id);
      return true;
    }

    method ConnectTo(id: string, attempt: Attempt) returns (r: Result<string>)
      modifies this
      ensures (Abs(), r) == Connect(old(Abs()), id, attempt)
    {
      if id !in records {
        return Refused(UnknownCollector);
      }
      var c := records[id];
      if c.auth == ByPassword && id !in passwords {
        return Refused(NoPassword);
      }
      DisconnectLocked(id);
      match attempt
      case Failed(why) =>
        detail := detail[id := why];
        return Refused(LoginFailed(why));
      case Answered(reported) =>
        sessions := sessions[id := Session(LoginOf(c), reported, true)];
        detail := detail[id := Greeting(c, reported)];
        return Ok(reported);
    }

    method ReportStatus(id: string) returns (connected: bool)
      requires id in records
      modifies this`sessions, this`detail
      ensures Abs() == Status(old(Abs()), id)
      ensures connected <==> id in old(sessions) && old(sessions)[id].alive
    {
      connected := id in sessions && sessions[id].alive;
      if id in sessions && !connected {
        sessions := sessions - {id};
        detail := detail[id := "The SSH session ended."];
      }
    }

    /** Every held session is closed, one by one. */
    method CloseEverySession()
      modifies this`sessions
      ensures Abs() == CloseAll(old(Abs()))
    {
      var todo := sessions.Keys;
      while todo != {}
        invariant sessions.Keys == todo
        invariant Abs() == old(Abs()).(sessions := sessions)
        decreases todo
      {
        var id :| id in todo;
        DisconnectLocked(id);
        todo := todo - {id};
      }
      assert sessions == map[];
    }

    method LoadPersisted(entries: seq<Payload>)
      modifies this`order, this`records
      ensures Abs() == Load(old(Abs()), entries)
    {
      hide Clean;
      var i := 0;
      while i < |entries|
        invariant 0 <= i <= |entries|
        invariant Load(Abs(), entries[i..]) == Load(old(Abs()), entries)
      {
        var cleaned := Clean(entries[i]);
        assert entries[i..][1..] == entries[i + 1..];
        if cleaned.Ok? {
          if |records| >= MAX_COLLECTORS {
            return;
          }
          StoreLocked(cleaned.value);
        }
        i := i + 1;
      }
    }
  }

  // ---- what is accepted, in the words of the form -------------------------------------

  /** A host name: up to 63 letters, digits, dots, underscores and hyphens, a letter or a digit first. */
  lemma {:induction false} HostnameIff(s: string)
    ensures IsHostname(s) <==>
      && 0 < |s| < 64 && s[0] !in "._-"
      && forall i :: 0 <= i < |s| ==>
           s[i] in "._-" || '0' <= s[i] <= '9' || 'a' <= s[i] <= 'z' || 'A' <= s[i] <= 'Z'
  {
  }

  /** What a form has to say to be accepted. */
  ghost predicate Acceptable(p: Payload) {
    && (exists id :: Says(p.id, id) && IsDutId(id))
    && (exists ip :: Says(p.ip, ip) && IsToken(ip))
    && (forall hostname :: Says(p.hostname, hostname) ==> IsHostname(hostname))
    && (exists user :: Says(p.user, user) && IsToken(user) && forall i :: 0 <= i < |user| ==> user[i] != ':')
    && (p.port == Absent || (p.port.Number? && 0 < p.port.n < 0x1_0000))
    && (Undecided(p.auth) || p.auth == Str("password") || (p.auth == Str("key") && exists path :: Says(p.keyPath, path)))
  }

  /** A form that does not say how to log in: nothing, or what counts as nothing. */
  ghost predicate Undecided(auth: Value) { auth in {Absent, Null, Str(""), Flag(false), Number(0)} }

  lemma {:induction false} AuthIff(auth: Value, keyPath: Option<string>)
    ensures AuthOf(auth, keyPath) == Some(ByKey) <==> auth == Str("key") || (Undecided(auth) && keyPath.Some?)
    ensures AuthOf(auth, keyPath) == Some(ByPassword) <==> auth == Str("password") || (Undecided(auth) && keyPath.None?)
  {
  }

  lemma {:induction false} TextIff(v: Value)
    ensures TextOf(v).Some? ==> Says(v, TextOf(v).value)
    ensures forall s :: Says(v, s) ==> TextOf(v) == Some(s)
  {
    hide Says;
    HasTextSays(v);
  }

  /** A form is accepted exactly when it says all that. */
  lemma {:induction false} AcceptedIff(p: Payload)
    ensures Clean(p).Ok? <==> Acceptable(p)
  {
    AuthIff(p.auth, TextOf(p.keyPath));
    hide AuthOf, TextOf, IsDutId, IsToken, IsHostname, Undecided, Says;
    TextIff(p.id);
    TextIff(p.ip);
    TextIff(p.user);
    TextIff(p.hostname);
    TextIff(p.keyPath);
  }

  /**
    * And the record is what the form said: port 22 if it said none, a key exactly when it logs in by key, the label cut
    * after 48 characters, or for want of one the host name, or the address.
    */
  lemma {:induction false} AcceptedIs(p: Payload)
    requires Clean(p).Ok?
    ensures var c := Clean(p).value;
      && Says(p.id, c.id) && Says(p.ip, c.ip) && Says(p.user, c.user)
      && (p.port == Absent ==> c.port == 22) && (p.port != Absent ==> p.port == Number(c.port))
      && (forall s :: c.hostname == Some(s) <==> Says(p.hostname, s))
      && (c.auth == ByKey <==> p.auth == Str("key") || (Undecided(p.auth) && exists path :: Says(p.keyPath, path)))
      && (forall path :: c.keyPath == Some(path) <==> c.auth == ByKey && Says(p.keyPath, path))
      && IsLabel(p, c)
  {
    AuthIff(p.auth, TextOf(p.keyPath));
    hide AuthOf, TextOf, IsDutId, IsToken, IsHostname, Undecided, Says;
    TextIff(p.id);
    TextIff(p.ip);
    TextIff(p.user);
    TextIff(p.hostname);
    TextIff(p.keyPath);
    TextIff(p.displayName);
  }

  ghost predicate IsLabel(p: Payload, c: Collector) {
    && (forall s :: Says(p.displayName, s) ==> c.displayName <= s && |c.displayName| == if |s| < 48 then |s| else 48)
    && ((forall s :: !Says(p.displayName, s)) ==>
          && (forall s :: Says(p.hostname, s) ==> c.displayName == s)
          && ((forall s :: !Says(p.hostname, s)) ==> c.displayName == c.ip))
  }

  // ---- what is kept, in the words of the operator -------------------------------------

  /** Everything the two states hold for the other ids. */
  ghost predicate OthersStay(a: State, b: State, id: string) {
    && (forall x :: x != id ==> (x in a.records <==> x in b.records) && (x in a.records ==> a.records[x] == b.records[x]))
    && (forall x :: x != id ==> (x in a.passwords <==> x in b.passwords) && (x in a.passwords ==> a.passwords[x] == b.passwords[x]))
    && (forall x :: x != id ==> (x in a.sessions <==> x in b.sessions) && (x in a.sessions ==> a.sessions[x] == b.sessions[x]))
  }

  /** A record is stored, in its old place or behind the others, with the password given for it. */
  ghost predicate Stored(st: State, after: State, c: Collector, password: Option<string>) {
    && OthersStay(st, after, c.id)
    && after.records == st.records[c.id := c]
    && after.order == st.order + (if c.id in st.records then [] else [c.id])
    && (password.Some? && password.value != "" ==> c.id in after.passwords && after.passwords[c.id] == password.value)
    && (password == Some("") ==> c.id !in after.passwords)
  }

  /**
    * A form is refused for its content, or because eight collectors are registered and it is not one of them; and then
    * nothing changes. Otherwise its record is stored.
    */
  lemma {:induction false} ConfigureStores(st: State, p: Payload, password: Option<string>)
    requires Inv(st)
    ensures var (after, r) := Configure(st, p, password);
      && (r == Refused(LimitReached) <==> Clean(p).Ok? && Clean(p).value.id !in st.records && |st.order| >= 8)
      && (r.Refused? ==> after == st && (r == Clean(p) || r == Refused(LimitReached)))
      && (r.Ok? ==> r == Clean(p) && Stored(st, after, r.value, password))
  {
    NoFormIsOverTheLimit(p);
    OrderCount(st);
    if Clean(p).Ok? {
      PutStores(st, Clean(p).value, password);
    }
    hide Clean, Inv, Stored, Hold, Put, Repointed;
  }

  lemma {:induction false} PutStores(st: State, c: Collector, password: Option<string>)
    ensures var put := Put(Repointed(st, c), c);
      Stored(st, if password.Some? then Hold(put, c.id, password.value) else put, c, password)
  {
    hide OthersStay;
    var put := Put(Repointed(st, c), c);
    RepointedLeavesOthers(st, c);
    if password.Some? {
      HoldLeavesOthers(put, c.id, password.value);
      OthersStayStill(st, put, Hold(put, c.id, password.value), c.id);
    }
  }

  lemma {:induction false} RepointedLeavesOthers(st: State, c: Collector)
    ensures OthersStay(st, Put(Repointed(st, c), c), c.id)
  {
  }

  lemma {:induction false} HoldLeavesOthers(st: State, id: string, password: string)
    requires id in st.records
    ensures OthersStay(st, Hold(st, id, password), id)
  {
  }

  lemma {:induction false} OthersStayStill(a: State, b: State, c: State, id: string)
    requires OthersStay(a, b, id) && OthersStay(b, c, id)
    ensures OthersStay(a, c, id)
  {
  }

  lemma {:induction false} NoFormIsOverTheLimit(p: Payload)
    ensures Clean(p) != Refused(LimitReached)
  {
    hide IsDutId, IsToken, IsUser, IsHostname, TextOf, AuthOf;
  }

  lemma {:induction false} OrderCount(st: State)
    requires Inv(st)
    ensures |st.order| == |st.records|
  {
    hide IsCollector;
    DistinctCount(st.order, st.records.Keys);
    assert |st.records.Keys| == |st.records|;
  }

  lemma {:induction false} DistinctCount(order: seq<string>, ids: set<string>)
    requires NoRepeats(order) && forall id :: id in order <==> id in ids
    ensures |order| == |ids|
  {
    if order == [] {
      assert ids == {};
    } else {
      assert order[0] !in order[1..];
      assert forall id :: id in order[1..] <==> id in ids - {order[0]};
      DistinctCount(order[1..], ids - {order[0]});
    }
  }

  /** A password is held from the moment it is given for a registered collector; an empty one is forgotten. */
  lemma {:induction false} PasswordIsHeld(st: State, id: string, password: string)
    ensures var after := SetPassword(st, id, password);
      && (id in st.records && password != "" ==>
            after.passwords == st.passwords[id := password] && id in after.setFor && after.setFor[id] == LoginOf(st.records[id]))
      && (id in st.records && password == "" ==> after.passwords == st.passwords - {id})
      && (id !in st.records ==> after == st)
      && after.records == st.records && after.order == st.order && after.sessions == st.sessions
  {
  }

  /** How a login is made, read off the record: its key, or the password held, or not at all. */
  lemma {:induction false} CredentialsIff(st: State, id: string, keyPath: string, password: string)
    requires Inv(st)
    ensures Credentials(st, id) == Ok((keyPath, password)) <==>
      && id in st.records
      && if st.records[id].auth == ByKey then st.records[id].keyPath == Some(keyPath) && password == ""
         else id in st.passwords && st.passwords[id] == password && keyPath == ""
  {
    hide IsDutId, IsToken, IsUser, IsHostname, IsTrimmed;
  }

  /**
    * A login that the box answers leaves a live session on the login of the record; one that fails leaves none; one
    * that was never tried, for want of a record or of a password, leaves things as they were.
    */
  lemma {:induction false} ConnectHolds(st: State, id: string, attempt: Attempt)
    requires Inv(st)
    ensures var (after, r) := Connect(st, id, attempt); var tried := Credentials(st, id).Ok?;
      && (r.Ok? <==> tried && attempt.Answered?)
      && (r.Ok? ==>
            && r.value == attempt.reported && id in after.sessions
            && after.sessions[id] == Session(LoginOf(st.records[id]), attempt.reported, true)
            && (after.detail[id] == "" <==> st.records[id].hostname in {None, Some(attempt.reported)}))
      && (tried && attempt.Failed? ==>
            r == Refused(LoginFailed(attempt.detail)) && id !in after.sessions && after.detail[id] == attempt.detail)
      && (!tried ==> after == st)
      && OthersStay(st, after, id) && after.records == st.records && after.passwords == st.passwords
  {
    hide Inv, LoginOf;
    if id in st.records {
      GreetingIff(st.records[id], if attempt.Answered? then attempt.reported else "");
    }
    hide Greeting;
  }

  lemma {:induction false} GreetingIff(c: Collector, reported: string)
    ensures Greeting(c, reported) == "" <==> c.hostname in {None, Some(reported)}
  {
    var greeting := Greeting(c, reported);
    assert greeting != "" ==> greeting[0] == 'L';
  }

  /** The note on a login whose box calls itself otherwise names both. */
  lemma {:induction false} GreetingNames(c: Collector, reported: string, expected: string)
    requires c.hostname == Some(expected) && expected != reported
    ensures Greeting(c, reported) ==
            "Logged in, but the box calls itself " + (reported + (", not " + (expected + ".")))
  {
    var a, b := "Logged in, but the box calls itself ", ", not ";
    assert a + reported + b + expected + "." == a + (reported + (b + (expected + ".")));
  }

  /** A session is held until it is closed: asking for its status drops it exactly when it has ended. */
  lemma {:induction false} SessionsLast(st: State, id: string)
    requires Inv(st)
    ensures Status(st, id).sessions ==
            if id in st.sessions && !st.sessions[id].alive then st.sessions - {id} else st.sessions
    ensures id in st.records && id in st.sessions && !st.sessions[id].alive ==>
      Status(st, id).detail == st.detail[id := "The SSH session ended."]
    ensures id !in st.sessions || st.sessions[id].alive ==> Status(st, id) == st
    ensures Disconnect(st, id).sessions == st.sessions - {id}
    ensures Disconnect(st, id).detail == if id in st.records then st.detail[id := ""] else st.detail
    ensures CloseAll(st).sessions == map[] && CloseAll(st).records == st.records && CloseAll(st).passwords == st.passwords
  {
    hide Listed;
    assert Current(st);
    assert id in st.sessions ==> id in st.records;
    if id !in st.sessions {
      assert st.sessions - {id} == st.sessions;
    }
  }

  /** Removing a collector, or the end of its session, is nothing to the others. */
  lemma {:induction false} OthersStayWhenRemoved(st: State, id: string)
    ensures OthersStay(st, Remove(st, id), id) && OthersStay(st, Dies(st, id), id)
    ensures Dies(st, id).records == st.records && (id in st.sessions ==> id in Dies(st, id).sessions && !Dies(st, id).sessions[id].alive)
  {
  }
}
