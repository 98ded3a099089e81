/**
 * Parser and store wired together: what the incremental pipeline leaves in the ring is what cutting the whole
 * log into sections and reading each one on its own would give.
 */
module TelemetryPipeline {
  import opened Common
  import opened SnapshotModel
  import opened SnapshotRing
  import P = SysMonParser
  import S = SnapshotStore

  /**
   * One step of a run. `id` is the unit the registry knows when the step's snapshot event, if any, is emitted;
   * no step emits more than one.
   */
  datatype Op =
    | Feed(line: P.Line, id: DeviceId)
    | Flush(id: DeviceId)
    | Reopen(id: DeviceId)
    | TimerFlush

  datatype System = System(parser: P.State, store: S.State)

  function Act(p: P.State, op: Op): P.Outcome {
    match op
    case Feed(line, _) => P.Feed(p, line)
    case Flush(_) => P.Flush(p)
    case Reopen(_) => P.Reopen(p)
    case TimerFlush => P.FlushConsole(p)
  }

  function IdOf(op: Op): DeviceId { if op.TimerFlush? then None else op.id }

  /** Only a full update is stamped with the unit it was taken on. */
  function Stamp(e: P.Event, id: DeviceId): S.StoreEvent {
    match e
    case SnapshotUpdate(r) => S.Full(Snapshot(id, r))
    case SnapshotDelta(d) => S.Change(d)
    case _ => S.Unrelated
  }

  function StampAll(es: seq<P.Event>, id: DeviceId): seq<S.StoreEvent> {
    if es == [] then [] else StampAll(es[..|es| - 1], id) + [Stamp(es[|es| - 1], id)]
  }

  function Step(sys: System, op: Op): System {
    var o := Act(sys.parser, op);
    System(o.st, S.ObserveAll(sys.store, StampAll(o.events, IdOf(op))))
  }

  function Run(sys: System, ops: seq<Op>): System {
    if ops == [] then sys else Step(Run(sys, ops[..|ops| - 1]), ops[|ops| - 1])
  }

  // ---- the batch reading --------------------------------------------------------------

  datatype Stamped = Stamped(line: P.Line, id: DeviceId)
  /** One block of the log: its header and the lines up to the next one. `again`: the header before said the same. */
  datatype Section = Section(count: int, ts: string, again: bool, body: seq<Stamped>, closedBy: DeviceId)
  datatype Cut = Cut(done: seq<Section>, open: Option<Section>)

  /** The last header since the console was opened. */
  function LastHeader(ops: seq<Op>): Option<(int, string)> {
    if ops == [] then None
    else
      var op := ops[|ops| - 1];
      if op.Feed? && op.line.Header? then Some((op.line.count, op.line.ts))
      else if op.Reopen? then None
      else LastHeader(ops[..|ops| - 1])
  }

  function Close(c: Cut, id: DeviceId): Cut {
    Cut(if c.open.Some? then c.done + [c.open.value.(closedBy := id)] else c.done, None)
  }

  /** Cut a log at its headers; a flush ends the section it falls in. */
  function CutLog(ops: seq<Op>): Cut {
    if ops == [] then Cut([], None)
    else
      var c := CutLog(ops[..|ops| - 1]);
      var op := ops[|ops| - 1];
      match op
      case Feed(line, id) =>
        if line.Header? then
          var again := LastHeader(ops[..|ops| - 1]) == Some((line.count, line.ts));
          Close(c, id).(open := Some(Section(line.count, line.ts, again, [], None)))
        else if c.open.None? then c
        else c.(open := Some(c.open.value.(body := c.open.value.body + [Stamped(line, id)])))
      case Flush(id) => Close(c, id)
      case Reopen(id) => Close(c, id)
      case TimerFlush => c
  }

  function CpuOf(body: seq<Stamped>): map<string, CpuMetrics> {
    if body == [] then map[]
    else
      var line := body[|body| - 1].line;
      var before := CpuOf(body[..|body| - 1]);
      if line.Cpu? then before[line.core := line.metrics] else before
  }

  predicate IsMemory(line: P.Line) { line.Kilobytes? && line.key in P.MEM_KEYS }

  function MemoryOf(body: seq<Stamped>): map<string, int> {
    if body == [] then map[]
    else
      var line := body[|body| - 1].line;
      var before := MemoryOf(body[..|body| - 1]);
      if IsMemory(line) then before[line.key := line.value] else before
  }

  /** The radio whose client list the next JSON line belongs to. */
  function RadioAfter(body: seq<Stamped>): Option<string> {
    if body == [] then None
    else
      var line := body[|body| - 1].line;
      if line.ClientMarker? then Some(line.radio)
      else if line.Brace? then None
      else RadioAfter(body[..|body| - 1])
  }

  function WifiOf(body: seq<Stamped>): map<string, RadioClients> {
    if body == [] then map[]
    else
      var line := body[|body| - 1].line;
      var before, radio := WifiOf(body[..|body| - 1]), RadioAfter(body[..|body| - 1]);
      if line.Brace? && line.decoded.Some? && radio.Some? then before[radio.value := line.decoded.value] else before
  }

  predicate Announces(line: P.Line) { line.Cpu? || IsMemory(line) }

  /** The unit known when the section first announced itself, if it has yet. */
  function FirstStamp(body: seq<Stamped>): Option<DeviceId> {
    if body == [] then None
    else
      var before := FirstStamp(body[..|body| - 1]);
      if before.Some? then before
      else if Announces(body[|body| - 1].line) then Some(body[|body| - 1].id)
      else None
  }

  function ReadingOf(s: Section): Reading {
    Reading(s.count, s.ts, CpuOf(s.body), MemoryOf(s.body), WifiOf(s.body))
  }

  function SnapshotOf(s: Section): Snapshot {
    Snapshot(FirstStamp(s.body).GetOr(s.closedBy), ReadingOf(s))
  }

  /** A later block of the same header laid over what the earlier ones gave: only old memory shows through. */
  function Laid(under: Snapshot, over: Reading): Snapshot {
    Snapshot(under.deviceId, over.(memory := under.reading.memory + over.memory))
  }

  function Extend(told: seq<Snapshot>, s: Section): seq<Snapshot> {
    if s.again && told != [] then told[..|told| - 1] + [Laid(told[|told| - 1], ReadingOf(s))]
    else told + [SnapshotOf(s)]
  }

  /** One full snapshot per header, and one for all the blocks of a header that is repeated. */
  function Batch(sections: seq<Section>): seq<Snapshot> {
    if sections == [] then [] else Extend(Batch(sections[..|sections| - 1]), sections[|sections| - 1])
  }

  /** No header repeats the one before it, test count and timestamp both. */
  predicate HeadersDiffer(ops: seq<Op>) {
    ops != [] ==>
      var op := ops[|ops| - 1];
      HeadersDiffer(ops[..|ops| - 1]) &&
      (op.Feed? && op.line.Header? ==> LastHeader(ops[..|ops| - 1]) != Some((op.line.count, op.line.ts)))
  }

  // ---- what one step does to the store ------------------------------------------------

  /** The store's view of one snapshot emission. */
  function AfterEmit(p: P.State, store: S.State, id: DeviceId): S.State {
    var es := P.EmitUpdate(p).events;
    if es == [] then store else store.Observe(Stamp(es[0], id))
  }

  lemma {:induction false} StampOne(e: P.Event, id: DeviceId)
    ensures StampAll([e], id) == [Stamp(e, id)]
  {
    assert [e][..0] == [];
  }

  lemma {:induction false} StampConcat(a: seq<P.Event>, b: seq<P.Event>, id: DeviceId)
    ensures StampAll(a + b, id) == StampAll(a, id) + StampAll(b, id)
  {
    if b == [] {
      assert a + b == a;
    } else {
      assert (a + b)[..|a + b| - 1] == a + b[..|b| - 1];
      StampConcat(a, b[..|b| - 1], id);
    }
  }

  /** The store after a list of events, seen one list after another. */
  function Seen(store: S.State, es: seq<P.Event>, id: DeviceId): S.State {
    S.ObserveAll(store, StampAll(es, id))
  }

  lemma {:induction false} SeenConcat(store: S.State, a: seq<P.Event>, b: seq<P.Event>, id: DeviceId)
    ensures Seen(store, a + b, id) == Seen(Seen(store, a, id), b, id)
  {
    StampConcat(a, b, id);
    S.ObserveAllConcat(store, StampAll(a, id), StampAll(b, id));
  }

  lemma {:induction false} SeenOne(store: S.State, e: P.Event, id: DeviceId)
    ensures Seen(store, [e], id) == store.Observe(Stamp(e, id))
  {
    StampOne(e, id);
    var one := [Stamp(e, id)];
    assert one[..0] == [];
    assert S.ObserveAll(store, one[..0]) == store;
  }

  lemma {:induction false} ConsoleTextIsUnseen(store: S.State, p: P.State, text: string, id: DeviceId)
    ensures Seen(store, P.FlushConsole(p).events, id) == store
    ensures Seen(store, P.QueueConsole(p, text).events, id) == store
  {
    if p.pending != [] {
      SeenOne(store, P.ConsoleLineBatch(p.pending), id);
    }
    SeenOne(store, P.ConsoleLineBatch(p.pending + [text]), id);
  }

  lemma {:induction false} SeenEmit(store: S.State, p: P.State, id: DeviceId)
    ensures Seen(store, P.EmitUpdate(p).events, id) == AfterEmit(p, store, id)
  {
    var es := P.EmitUpdate(p).events;
    if es != [] {
      SeenOne(store, es[0], id);
    }
  }

  /** An emission reads and changes nothing but the reading in progress and the last one emitted. */
  lemma {:induction false} EmitReads(p: P.State, q: P.State)
    requires p.current == q.current && p.lastEmitted == q.lastEmitted
    ensures P.EmitUpdate(p).events == P.EmitUpdate(q).events
    ensures P.EmitUpdate(p).st.lastEmitted == P.EmitUpdate(q).st.lastEmitted
  {
  }

  lemma {:induction false} AfterEmitReads(p: P.State, q: P.State, store: S.State, id: DeviceId)
    requires p.current == q.current && p.lastEmitted == q.lastEmitted
    ensures AfterEmit(p, store, id) == AfterEmit(q, store, id)
  {
    hide P.EmitUpdate;
    EmitReads(p, q);
  }

  lemma {:induction false} FlushParts(p: P.State)
    ensures var a := P.FlushConsole(p);
            && a.st.current == p.current && a.st.lastEmitted == p.lastEmitted
            && P.Flush(p).events == a.events + P.EmitUpdate(a.st).events
            && P.Flush(p).st.current == None && P.Flush(p).st.lastEmitted == P.EmitUpdate(p).st.lastEmitted
  {
  }

  lemma {:induction false} SeenFlush(store: S.State, p: P.State, id: DeviceId)
    ensures Seen(store, P.Flush(p).events, id) == AfterEmit(p, store, id)
  {
    hide *;
    var a := P.FlushConsole(p);
    FlushParts(p);
    ConsoleTextIsUnseen(store, p, "", id);
    SeenConcat(store, a.events, P.EmitUpdate(a.st).events, id);
    SeenEmit(store, a.st, id);
    AfterEmitReads(a.st, p, store, id);
  }

  /** The parser's current reading after a line that is not a header, and whether the line announces it. */
  function Absorb(p: P.State, line: P.Line): Option<Reading> {
    if p.current.None? then None
    else
      var cur := p.current.value;
      Some(
        if line.Cpu? then cur.(cpu := cur.cpu[line.core := line.metrics])
        else if IsMemory(line) then cur.(memory := cur.memory[line.key := line.value])
        else if line.Brace? && line.decoded.Some? && p.pendingRadio.Some? then
          cur.(wifi := cur.wifi[p.pendingRadio.value := line.decoded.value])
        else cur)
  }

  /** What feeding a line that is not a header amounts to, console text left aside. */
  ghost predicate Absorbed(store: S.State, p: P.State, line: P.Line, id: DeviceId, o: P.Outcome) {
    && o.st.current == Absorb(p, line)
    && o.st.pendingRadio == (if line.ClientMarker? then Some(line.radio)
                             else if line.Brace? then None else p.pendingRadio)
    && if p.current.Some? && Announces(line) then
         var q := p.(current := Absorb(p, line));
         && o.st.lastEmitted == P.EmitUpdate(q).st.lastEmitted
         && Seen(store, o.events, id) == AfterEmit(q, store, id)
       else
         o.st.lastEmitted == p.lastEmitted && Seen(store, o.events, id) == store
  }

  lemma {:induction false} FeedInside(store: S.State, p: P.State, line: P.Line, id: DeviceId)
    requires !line.Header?
    ensures Absorbed(store, p, line, id, P.Feed(p, line))
  {
    hide Absorbed, P.Feed;
    if line.Brace? && p.pendingRadio.Some? {
      FeedBrace(store, p, line, id);
    } else if line.Cpu? && p.current.Some? {
      FeedCpu(store, p, line, id);
    } else if IsMemory(line) && p.current.Some? {
      FeedMemory(store, p, line, id);
    } else {
      FeedQuietly(store, p, line, id);
    }
  }

  lemma {:induction false} QuietParts(p: P.State, line: P.Line)
    requires !line.Header? && !(line.Brace? && p.pendingRadio.Some?) && !(Announces(line) && p.current.Some?)
    ensures var o := P.Feed(p, line);
            && o.st.current == Absorb(p, line) && o.st.lastEmitted == p.lastEmitted
            && o.st.pendingRadio == (if line.ClientMarker? then Some(line.radio)
                                     else if line.Brace? then None else p.pendingRadio)
            && (o.events == P.QueueConsole(p, line.text).events || o.events == [])
  {
  }

  lemma {:induction false} FeedQuietly(store: S.State, p: P.State, line: P.Line, id: DeviceId)
    requires !line.Header? && !(line.Brace? && p.pendingRadio.Some?) && !(Announces(line) && p.current.Some?)
    ensures Absorbed(store, p, line, id, P.Feed(p, line))
  {
    hide P.Feed, P.QueueConsole, AfterEmit, Absorb;
    QuietParts(p, line);
    ConsoleTextIsUnseen(store, p, line.text, id);
  }

  lemma {:induction false} BraceParts(p: P.State, line: P.Line)
    requires line.Brace? && p.pendingRadio.Some?
    ensures var o := P.Feed(p, line);
            && o.st.current == Absorb(p, line) && o.st.pendingRadio == None && o.st.lastEmitted == p.lastEmitted
            && o.events == P.FlushConsole(p).events +
                 if line.decoded.Some? then [P.WifiClientsUpdate(p.pendingRadio.value, line.decoded.value)] else []
  {
  }

  lemma {:induction false} FeedBrace(store: S.State, p: P.State, line: P.Line, id: DeviceId)
    requires line.Brace? && p.pendingRadio.Some?
    ensures Absorbed(store, p, line, id, P.Feed(p, line))
  {
    hide P.Feed, P.FlushConsole, Seen, AfterEmit;
    BraceParts(p, line);
    ConsoleTextIsUnseen(store, p, line.text, id);
    var es := P.FlushConsole(p).events;
    if line.decoded.Some? {
      var update := P.WifiClientsUpdate(p.pendingRadio.value, line.decoded.value);
      SeenConcat(store, es, [update], id);
      SeenOne(store, update, id);
      WifiIsUnseen(store, update, id);
    } else {
      assert es + [] == es;
    }
  }

  lemma {:induction false} WifiIsUnseen(store: S.State, e: P.Event, id: DeviceId)
    requires e.WifiClientsUpdate?
    ensures store.Observe(Stamp(e, id)) == store
  {
  }

  lemma {:induction false} CpuParts(p: P.State, line: P.Line)
    requires line.Cpu? && p.current.Some?
    ensures var o := P.FlushConsole(p);
            var q := o.st.(current := Absorb(p, line));
            && o.st.current == p.current && o.st.lastEmitted == p.lastEmitted && o.st.pendingRadio == p.pendingRadio
            && P.Feed(p, line).events == o.events + P.EmitUpdate(q).events
            && P.Feed(p, line).st == P.EmitUpdate(q).st
            && P.EmitUpdate(q).st.current == q.current && P.EmitUpdate(q).st.pendingRadio == q.pendingRadio
  {
  }

  lemma {:induction false} FeedCpu(store: S.State, p: P.State, line: P.Line, id: DeviceId)
    requires line.Cpu? && p.current.Some?
    ensures Absorbed(store, p, line, id, P.Feed(p, line))
  {
    hide P.Feed, P.EmitUpdate, P.FlushConsole, Seen, AfterEmit, Absorb, S.ObserveAll;
    ConsoleTextIsUnseen(store, p, line.text, id);
    CpuParts(p, line);
    var o := P.FlushConsole(p);
    var q := o.st.(current := Absorb(p, line));
    SeenConcat(store, o.events, P.EmitUpdate(q).events, id);
    SeenEmit(store, q, id);
    EmitReads(q, p.(current := Absorb(p, line)));
    AfterEmitReads(q, p.(current := Absorb(p, line)), store, id);
  }

  ghost predicate SameReading(a: P.State, b: P.State) {
    a.current == b.current && a.pendingRadio == b.pendingRadio && a.lastEmitted == b.lastEmitted
  }

  lemma {:induction false} QueueKeepsReading(p: P.State, text: string)
    ensures SameReading(P.QueueConsole(p, text).st, p)
  {
  }

  lemma {:induction false} SeenQuietTail(store: S.State, a: P.Outcome, text: string, id: DeviceId)
    ensures var both := P.Then(a, P.QueueConsole(a.st, text));
            Seen(store, both.events, id) == Seen(store, a.events, id) && SameReading(both.st, a.st)
  {
    SeenConcat(store, a.events, P.QueueConsole(a.st, text).events, id);
    ConsoleTextIsUnseen(Seen(store, a.events, id), a.st, text, id);
    QueueKeepsReading(a.st, text);
  }

  lemma {:induction false} SeenEmitThenQueue(store: S.State, q: P.State, text: string, id: DeviceId)
    ensures var o := P.EmitUpdate(q);
            var both := P.Then(o, P.QueueConsole(o.st, text));
            Seen(store, both.events, id) == AfterEmit(q, store, id) && SameReading(both.st, o.st)
  {
    SeenQuietTail(store, P.EmitUpdate(q), text, id);
    SeenEmit(store, q, id);
  }

  lemma {:induction false} FeedMemory(store: S.State, p: P.State, line: P.Line, id: DeviceId)
    requires IsMemory(line) && p.current.Some?
    ensures Absorbed(store, p, line, id, P.Feed(p, line))
  {
    SeenEmitThenQueue(store, p.(current := Absorb(p, line)), line.text, id);
  }

  // ---- the delta run invariant --------------------------------------------------------

  /** What the store's open snapshot owes the parser's last emission on every run. */
  ghost predicate Follows(p: P.State, store: S.State) {
    p.lastEmitted.Some? ==>
      && store.latest.Some?
      && var last, held := p.lastEmitted.value, store.latest.value.reading;
      && held.testCount == last.testCount && held.deviceTs == last.deviceTs
      && held.cpu == last.cpu && held.wifi == last.wifi
      && SubMap(last.memory, held.memory)
  }

  ghost predicate SubMap<V(!new)>(a: map<string, V>, b: map<string, V>) {
    forall k :: k in a ==> k in b && b[k] == a[k]
  }

  lemma {:induction false} EmitFollows(p: P.State, store: S.State, id: DeviceId)
    requires Follows(p, store)
    ensures Follows(P.EmitUpdate(p).st, AfterEmit(p, store, id))
  {
    if p.current.Some? && p.lastEmitted.Some? && !P.IsBoundary(p.lastEmitted.value, p.current.value) {
      var last, cur, held := p.lastEmitted.value, p.current.value, store.latest.value;
      var delta := Diff(last, cur);
      PatchUndoesChanged(last.cpu, cur.cpu);
      PatchUndoesChanged(last.wifi, cur.wifi);
      var memory := Patch(held.reading.memory, {}, delta.memory);
      forall k | k in cur.memory
        ensures k in memory && memory[k] == cur.memory[k]
      {
      }
    }
  }

  lemma {:induction false} FeedFollows(store: S.State, p: P.State, line: P.Line, id: DeviceId)
    requires Follows(p, store) && !line.Header?
    ensures var o := P.Feed(p, line); Follows(o.st, Seen(store, o.events, id))
  {
    FeedInside(store, p, line, id);
    if p.current.Some? && Announces(line) {
      EmitFollows(p.(current := Absorb(p, line)), store, id);
    }
  }

  lemma {:induction false} FlushFollows(store: S.State, p: P.State, id: DeviceId)
    requires Follows(p, store)
    ensures var o := P.Flush(p); Follows(o.st, Seen(store, o.events, id))
  {
    hide P.Flush, P.EmitUpdate, P.FlushConsole, Seen, AfterEmit;
    FlushParts(p);
    SeenFlush(store, p, id);
    EmitFollows(p, store, id);
  }

  lemma {:induction false} StepFollows(sys: System, op: Op)
    requires Follows(sys.parser, sys.store)
    ensures Follows(Step(sys, op).parser, Step(sys, op).store)
  {
    match op
    case Feed(line, id) =>
      if line.Header? {
        FlushFollows(sys.store, sys.parser, id);
      } else {
        FeedFollows(sys.store, sys.parser, line, id);
      }
    case Flush(id) => FlushFollows(sys.store, sys.parser, id);
    case Reopen(_) =>
    case TimerFlush => ConsoleTextIsUnseen(sys.store, sys.parser, "", None);
  }

  /** On every run, repeated headers included, the store holds everything the parser last said; memory may hold more. */
  lemma {:induction false} DeltaRunInvariant(store: S.State, ops: seq<Op>)
    ensures var sys := Run(System(P.INITIAL, store), ops);
            Follows(sys.parser, sys.store)
  {
    if ops != [] {
      DeltaRunInvariant(store, ops[..|ops| - 1]);
      StepFollows(Run(System(P.INITIAL, store), ops[..|ops| - 1]), ops[|ops| - 1]);
    }
  }

  /** The last full update among some events. */
  function LastFull(events: seq<S.StoreEvent>): Option<Snapshot> {
    if events == [] then None
    else if events[|events| - 1].Full? then Some(events[|events| - 1].snapshot)
    else LastFull(events[..|events| - 1])
  }

  /** Every snapshot rebuilt from deltas keeps the unit stamped on the update its chain started from. */
  lemma {:induction false} ChainKeepsDeviceId(store: S.State, events: seq<S.StoreEvent>)
    ensures var after := S.ObserveAll(store, events);
            if LastFull(events).Some? then
              after.latest.Some? && after.latest.value.deviceId == LastFull(events).value.deviceId
            else
              (after.latest.Some? <==> store.latest.Some?) &&
              (store.latest.Some? ==> after.latest.value.deviceId == store.latest.value.deviceId)
  {
    if events != [] {
      ChainKeepsDeviceId(store, events[..|events| - 1]);
    }
  }

  /** Everything the store observed during a run. */
  function EventsOf(p: P.State, ops: seq<Op>): (P.State, seq<S.StoreEvent>) {
    if ops == [] then (p, [])
    else
      var (q, events) := EventsOf(p, ops[..|ops| - 1]);
      var o := Act(q, ops[|ops| - 1]);
      (o.st, events + StampAll(o.events, IdOf(ops[|ops| - 1])))
  }

  /** On every run the open snapshot carries the stamp of the last full update the parser sent. */
  lemma {:induction false} RunKeepsDeviceId(store: S.State, ops: seq<Op>)
    ensures var sys := Run(System(P.INITIAL, store), ops);
            var (p, events) := EventsOf(P.INITIAL, ops);
            sys == System(p, S.ObserveAll(store, events)) &&
            (LastFull(events).Some? ==>
               sys.store.latest.Some? && sys.store.latest.value.deviceId == LastFull(events).value.deviceId)
  {
    if ops != [] {
      RunKeepsDeviceId(store, ops[..|ops| - 1]);
      var (q, events) := EventsOf(P.INITIAL, ops[..|ops| - 1]);
      var op := ops[|ops| - 1];
      S.ObserveAllConcat(store, events, StampAll(Act(q, op).events, IdOf(op)));
    }
    ChainKeepsDeviceId(store, EventsOf(P.INITIAL, ops).1);
  }

  // ---- one emission inside a block ----------------------------------------------------

  /** An emission reaches the store as the difference, or not at all when there is none. */
  lemma {:induction false} DeltaObserved(p: P.State, store: S.State, id: DeviceId)
    requires p.current.Some? && p.lastEmitted.Some? && store.latest.Some?
    requires !P.IsBoundary(p.lastEmitted.value, p.current.value)
    ensures var d := Diff(p.lastEmitted.value, p.current.value);
            if d.IsEmpty() then
              AfterEmit(p, store, id) == store && P.EmitUpdate(p).st.lastEmitted == p.lastEmitted
            else
              var s := Reconstruct(store.latest.value, d);
              AfterEmit(p, store, id) == store.FinalizeIfBoundary(Ts(s)).Show(s) &&
              P.EmitUpdate(p).st.lastEmitted == p.current
  {
    hide Diff, Reconstruct, S.State.FinalizeIfBoundary, S.State.Show;
  }

  lemma {:induction false} LatestHeader(p: P.State, store: S.State)
    requires Follows(p, store) && p.lastEmitted.Some?
    ensures store.latest.Some? && Ts(store.latest.value) == p.lastEmitted.value.deviceTs
  {
  }

  /** Whatever base the difference was taken against, the store ends with the current reading over its own memory. */
  lemma {:induction false} DeltaLays(p: P.State, store: S.State)
    requires Follows(p, store) && p.current.Some? && p.lastEmitted.Some?
    requires !P.IsBoundary(p.lastEmitted.value, p.current.value)
    ensures Reconstruct(store.latest.value, Diff(p.lastEmitted.value, p.current.value)) ==
            Laid(store.latest.value, p.current.value)
  {
    var last, cur, held := p.lastEmitted.value, p.current.value, store.latest.value;
    PatchUndoesChanged(last.cpu, cur.cpu);
    PatchUndoesChanged(last.wifi, cur.wifi);
    var memory := Patch(held.reading.memory, {}, Diff(last, cur).memory);
    assert memory.Keys == (held.reading.memory + cur.memory).Keys;
    assert memory == held.reading.memory + cur.memory;
  }

  /** When there is no difference, that is what the store holds already. */
  lemma {:induction false} NoDeltaLays(p: P.State, store: S.State)
    requires Follows(p, store) && p.current.Some? && p.lastEmitted.Some?
    requires Diff(p.lastEmitted.value, p.current.value).IsEmpty()
    ensures store.latest.value == Laid(store.latest.value, p.current.value)
  {
    var last, cur, held := p.lastEmitted.value, p.current.value, store.latest.value;
    EmptyDiff(last, cur);
    forall k | k in cur.memory
      ensures k in held.reading.memory && held.reading.memory[k] == cur.memory[k]
    {
      assert (last.memory + cur.memory)[k] == cur.memory[k];
    }
    assert held.reading.memory + cur.memory == held.reading.memory;
  }

  /** After any emission inside a block, on any run, the open snapshot is the current reading over the memory held. */
  lemma {:induction false} EmissionLays(p: P.State, store: S.State, id: DeviceId)
    requires Follows(p, store) && p.current.Some? && p.lastEmitted.Some?
    requires !P.IsBoundary(p.lastEmitted.value, p.current.value)
    ensures AfterEmit(p, store, id).latest == Some(Laid(store.latest.value, p.current.value))
  {
    hide P.EmitUpdate, AfterEmit, Diff, Reconstruct, Follows;
    LatestHeader(p, store);
    DeltaObserved(p, store, id);
    if Diff(p.lastEmitted.value, p.current.value).IsEmpty() {
      NoDeltaLays(p, store);
    } else {
      DeltaLays(p, store);
    }
  }

  /** So an emission inside a block is exact if and only if the current reading has every memory key the store holds. */
  lemma {:induction false} EmissionExactIff(p: P.State, store: S.State, id: DeviceId)
    requires Follows(p, store) && p.current.Some? && p.lastEmitted.Some?
    requires !P.IsBoundary(p.lastEmitted.value, p.current.value)
    ensures AfterEmit(p, store, id).latest.Some?
    ensures AfterEmit(p, store, id).latest.value.reading == p.current.value <==>
            store.latest.value.reading.memory.Keys <= p.current.value.memory.Keys
  {
    hide AfterEmit, Follows;
    LatestHeader(p, store);
    EmissionLays(p, store, id);
    LaysExactlyIff(store.latest.value, p.current.value);
  }

  lemma {:induction false} LaysExactlyIff(under: Snapshot, over: Reading)
    ensures Laid(under, over).reading == over <==> under.reading.memory.Keys <= over.memory.Keys
  {
    var m := under.reading.memory + over.memory;
    assert m.Keys == under.reading.memory.Keys + over.memory.Keys;
    if under.reading.memory.Keys <= over.memory.Keys {
      assert m == over.memory;
    }
  }

  // ---- incremental equals batch -------------------------------------------------------

  /** What stays of the snapshots told once an open section is added: a repeated header takes the last one's place. */
  function Behind(told: seq<Snapshot>, s: Section): seq<Snapshot> {
    if s.again && told != [] then told[..|told| - 1] else told
  }

  /** The snapshot a section leaves. */
  function Left(told: seq<Snapshot>, s: Section): Snapshot {
    if s.again && told != [] then Laid(told[|told| - 1], ReadingOf(s)) else SnapshotOf(s)
  }

  lemma {:induction false} ExtendParts(told: seq<Snapshot>, s: Section)
    ensures Extend(told, s) == Behind(told, s) + [Left(told, s)]
  {
  }

  predicate Started(s: Section) { s.again || FirstStamp(s.body).Some? }

  /** The reading hides whatever the held memory adds to `under`. */
  ghost predicate SameOver(held: map<string, int>, under: map<string, int>, over: map<string, int>) {
    held + over == under + over
  }

  /** A section the store has heard of: its snapshot is open, and one more emission makes it what it should be. */
  ghost predicate Underway(store: S.State, s: Section, seed: seq<Snapshot>, told: seq<Snapshot>) {
    && store.latest.Some?
    && store.ring == Newest(seed + Behind(told, s) + [store.latest.value], store.ringMax)
    && Started(s) && (s.again ==> told != [])
    && store.latest.value.deviceId == Left(told, s).deviceId
    && SameOver(store.latest.value.reading.memory,
                if s.again then told[|told| - 1].reading.memory else map[], MemoryOf(s.body))
  }

  function HeaderOf(r: Option<Reading>): Option<(int, string)> {
    if r.None? then None else Some((r.value.testCount, r.value.deviceTs))
  }

  /** Between sections: the ring is the batch so far, and the snapshot still open is its last one. */
  ghost predicate Between(p: P.State, store: S.State, header: Option<(int, string)>, seed: seq<Snapshot>, told: seq<Snapshot>) {
    && store.ring == Newest(seed + told, store.ringMax)
    && HeaderOf(p.lastEmitted) == header
    && (p.lastEmitted.Some? ==> told != [] && store.latest == Some(told[|told| - 1]))
  }

  /** Within a section: the parser holds its reading, and the store its snapshot once it has announced itself. */
  ghost predicate Within(p: P.State, store: S.State, s: Section, seed: seq<Snapshot>, told: seq<Snapshot>) {
    && p.current == Some(ReadingOf(s))
    && p.pendingRadio == RadioAfter(s.body)
    && if Started(s) then
         HeaderOf(p.lastEmitted) == Some((s.count, s.ts)) && Underway(store, s, seed, told)
       else
         HeaderOf(p.lastEmitted) != Some((s.count, s.ts)) && store.ring == Newest(seed + told, store.ringMax)
  }

  /** Where an incremental run stands against the cut log. `seed` is the ring the run started from. */
  ghost predicate Agrees(sys: System, ops: seq<Op>, seed: seq<Snapshot>) {
    var c, p := CutLog(ops), sys.parser;
    && Follows(p, sys.store)
    && if c.open.None? then
         p.current == None && Between(p, sys.store, LastHeader(ops), seed, Batch(c.done))
       else
         && LastHeader(ops) == Some((c.open.value.count, c.open.value.ts))
         && Within(p, sys.store, c.open.value, seed, Batch(c.done))
  }

  /** Held memory that a reading hides stays hidden as the reading grows, and once it has been laid over. */
  lemma {:induction false} SameOverGrows(held: map<string, int>, under: map<string, int>, over: map<string, int>, k: string, v: int)
    requires SameOver(held, under, over)
    ensures SameOver(held, under, over[k := v]) && SameOver(held + over, under, over)
  {
    assert held + over[k := v] == (held + over)[k := v];
    assert under + over[k := v] == (under + over)[k := v];
    assert held + over + over == held + over;
  }

  /** One emission of a section under way: the open snapshot becomes what the section leaves. */
  lemma {:induction false} EmitUnderway(
      p: P.State, store: S.State, id: DeviceId, s: Section, seed: seq<Snapshot>, told: seq<Snapshot>)
    requires Follows(p, store) && p.current == Some(ReadingOf(s))
    requires HeaderOf(p.lastEmitted) == Some((s.count, s.ts)) && Underway(store, s, seed, told)
    ensures var after := AfterEmit(p, store, id);
            && after.latest == Some(Left(told, s))
            && after.ringMax == store.ringMax
            && HeaderOf(P.EmitUpdate(p).st.lastEmitted) == Some((s.count, s.ts))
            && Underway(after, s, seed, told)
  {
    hide P.EmitUpdate, AfterEmit, Newest, Diff, Reconstruct, Follows, S.State.FinalizeIfBoundary, S.State.Show;
    var held, cur := store.latest.value, ReadingOf(s);
    DeltaObserved(p, store, id);
    EmissionLays(p, store, id);
    SameOverGrows(held.reading.memory, if s.again then told[|told| - 1].reading.memory else map[], cur.memory, "", 0);
    assert map[] + cur.memory == cur.memory;
    assert Laid(held, cur) == Left(told, s);
    if Diff(p.lastEmitted.value, cur).IsEmpty() {
    } else {
      DeltaLays(p, store);
      LatestHeader(p, store);
      ShowRefreshes(store, Laid(held, cur), seed + Behind(told, s));
    }
  }

  lemma {:induction false} FullObserved(p: P.State, store: S.State, id: DeviceId)
    requires p.current.Some? && HeaderOf(p.lastEmitted) != HeaderOf(p.current)
    ensures var shown := Snapshot(id, p.current.value);
            && AfterEmit(p, store, id) == store.FinalizeIfBoundary(Ts(shown)).Show(shown)
            && P.EmitUpdate(p).st.lastEmitted == p.current
  {
    hide S.State.FinalizeIfBoundary, S.State.Show;
  }

  /** The first emission of a section under a new header. */
  lemma {:induction false} EmitFirst(
      p: P.State, store: S.State, id: DeviceId, s: Section, seed: seq<Snapshot>, told: seq<Snapshot>)
    requires p.current == Some(ReadingOf(s)) && HeaderOf(p.lastEmitted) != Some((s.count, s.ts))
    requires store.ring == Newest(seed + told, store.ringMax)
    ensures var after := AfterEmit(p, store, id);
            && after.latest == Some(Snapshot(id, ReadingOf(s)))
            && after.ring == Newest(seed + told + [Snapshot(id, ReadingOf(s))], store.ringMax)
            && after.ringMax == store.ringMax
            && P.EmitUpdate(p).st.lastEmitted == p.current
  {
    hide Newest, P.EmitUpdate, AfterEmit;
    FullObserved(p, store, id);
    NewestSnoc(seed + told, Snapshot(id, ReadingOf(s)), store.ringMax);
  }

  /** Showing a snapshot under the timestamp already open replaces the open one. */
  lemma {:induction false} ShowRefreshes(store: S.State, shown: Snapshot, told: seq<Snapshot>)
    requires store.latest.Some? && Ts(store.latest.value) == Ts(shown)
    requires store.ring == Newest(told + [store.latest.value], store.ringMax)
    ensures store.FinalizeIfBoundary(Ts(shown)) == store
    ensures store.Show(shown).ring == Newest(told + [shown], store.ringMax)
    ensures store.Show(shown).latest == Some(shown) && store.Show(shown).ringMax == store.ringMax
  {
    NewestSnoc(told + [store.latest.value], shown, store.ringMax);
    NewestReplaces(told, store.latest.value, shown, store.ringMax);
  }

  lemma {:induction false} BatchSnoc(sections: seq<Section>, s: Section)
    ensures Batch(sections + [s]) == Extend(Batch(sections), s)
  {
    assert (sections + [s])[..|sections|] == sections;
  }

  lemma {:induction false} EmitNothing(p: P.State, store: S.State, id: DeviceId)
    ensures p.current.None? ==> P.EmitUpdate(p).st == p && AfterEmit(p, store, id) == store
  {
  }

  lemma {:induction false} CloseWithin(
      p: P.State, store: S.State, s: Section, seed: seq<Snapshot>, told: seq<Snapshot>, id: DeviceId)
    requires Follows(p, store) && Within(p, store, s, seed, told)
    ensures Between(P.EmitUpdate(p).st, AfterEmit(p, store, id), Some((s.count, s.ts)), seed, Extend(told, s.(closedBy := id)))
    ensures AfterEmit(p, store, id).ringMax == store.ringMax
  {
    hide P.EmitUpdate, AfterEmit, Newest, Follows;
    var closed := s.(closedBy := id);
    ExtendParts(told, closed);
    if Started(s) {
      EmitUnderway(p, store, id, s, seed, told);
      assert Left(told, closed) == Left(told, s) && Behind(told, closed) == Behind(told, s);
      assert seed + Extend(told, closed) == seed + Behind(told, s) + [Left(told, s)];
    } else {
      EmitFirst(p, store, id, s, seed, told);
      assert SnapshotOf(closed) == Snapshot(id, ReadingOf(s));
      assert seed + Extend(told, closed) == seed + told + [Snapshot(id, ReadingOf(s))];
    }
  }

  /** Closing whatever section is open. */
  lemma {:induction false} CloseAgrees(sys: System, ops: seq<Op>, seed: seq<Snapshot>, id: DeviceId)
    requires Agrees(sys, ops, seed)
    ensures var after, p := AfterEmit(sys.parser, sys.store, id), P.EmitUpdate(sys.parser).st;
            && Between(p, after, LastHeader(ops), seed, Batch(Close(CutLog(ops), id).done))
            && Follows(p, after)
  {
    hide P.EmitUpdate, AfterEmit, Newest, Follows, Within, Between;
    EmitNothing(sys.parser, sys.store, id);
    EmitFollows(sys.parser, sys.store, id);
    var c := CutLog(ops);
    if c.open.Some? {
      CloseWithin(sys.parser, sys.store, c.open.value, seed, Batch(c.done), id);
      BatchSnoc(c.done, c.open.value.(closedBy := id));
    }
  }

  lemma {:induction false} FeedWithin(
      store: S.State, p: P.State, s: Section, seed: seq<Snapshot>, told: seq<Snapshot>, line: P.Line, id: DeviceId)
    requires Follows(p, store) && Within(p, store, s, seed, told) && !line.Header?
    ensures var o := P.Feed(p, line);
            Within(o.st, Seen(store, o.events, id), s.(body := s.body + [Stamped(line, id)]), seed, told)
  {
    hide P.Feed, P.EmitUpdate, AfterEmit, Newest, Follows, Seen;
    var next := s.(body := s.body + [Stamped(line, id)]);
    assert next.body[..|s.body|] == s.body;
    FeedInside(store, p, line, id);
    var q := p.(current := Absorb(p, line));
    assert q.current == Some(ReadingOf(next));
    assert EmitState(q, p);
    if Started(s) {
      UnderwayGrows(store, s, seed, told, line, id);
      if Announces(line) {
        FollowsReads(p, q, store);
        EmitUnderway(q, store, id, next, seed, told);
      }
    } else if Announces(line) {
      EmitFirst(q, store, id, next, seed, told);
      assert SnapshotOf(next) == Snapshot(id, ReadingOf(next));
      SameOverSelf(MemoryOf(next.body));
    }
  }

  /** Two parser states with the same last emission. */
  predicate EmitState(a: P.State, b: P.State) { a.lastEmitted == b.lastEmitted }

  lemma {:induction false} FollowsReads(p: P.State, q: P.State, store: S.State)
    requires Follows(p, store) && EmitState(q, p)
    ensures Follows(q, store)
  {
  }

  lemma {:induction false} SameOverSelf(m: map<string, int>)
    ensures SameOver(m, map[], m)
  {
    assert m + m == map[] + m;
  }

  /** A further line of a section leaves it under way. */
  lemma {:induction false} UnderwayGrows(
      store: S.State, s: Section, seed: seq<Snapshot>, told: seq<Snapshot>, line: P.Line, id: DeviceId)
    requires Underway(store, s, seed, told)
    ensures Underway(store, s.(body := s.body + [Stamped(line, id)]), seed, told)
  {
    hide Newest;
    var body := s.body + [Stamped(line, id)];
    assert body[..|s.body|] == s.body;
    if IsMemory(line) {
      SameOverGrows(store.latest.value.reading.memory, if s.again then told[|told| - 1].reading.memory else map[],
                    MemoryOf(s.body), line.key, line.value);
    }
  }

  lemma {:induction false} FeedInsideAgrees(sys: System, ops: seq<Op>, seed: seq<Snapshot>, line: P.Line, id: DeviceId)
    requires Agrees(sys, ops, seed) && !line.Header? && CutLog(ops).open.Some?
    ensures Agrees(Step(sys, Feed(line, id)), ops + [Feed(line, id)], seed)
  {
    hide P.Feed, Within, Follows, Newest, Batch;
    assert (ops + [Feed(line, id)])[..|ops|] == ops;
    var c := CutLog(ops);
    FeedWithin(sys.store, sys.parser, c.open.value, seed, Batch(c.done), line, id);
    FeedFollows(sys.store, sys.parser, line, id);
  }

  lemma {:induction false} HeaderParts(p: P.State, line: P.Line)
    requires line.Header?
    ensures var o := P.Feed(p, line);
            && o.events == P.Flush(p).events
            && o.st.current == Some(P.FreshReading(line.count, line.ts)) && o.st.pendingRadio == None
            && o.st.lastEmitted == P.EmitUpdate(p).st.lastEmitted
  {
    hide P.EmitUpdate;
    EmitReads(p, P.FlushConsole(p).st);
  }

  /** A header opens a section; one that repeats the header before it goes on with the same snapshot. */
  lemma {:induction false} OpenWithin(
      p: P.State, store: S.State, header: Option<(int, string)>, seed: seq<Snapshot>, told: seq<Snapshot>, s: Section)
    requires Between(p, store, header, seed, told)
    requires s.body == [] && (s.again <==> header == Some((s.count, s.ts)))
    ensures Within(p.(current := Some(P.FreshReading(s.count, s.ts)), pendingRadio := None), store, s, seed, told)
  {
    hide Newest;
    if s.again {
      assert seed + Behind(told, s) + [store.latest.value] == seed + told;
    }
  }

  lemma {:induction false} FeedHeaderAgrees(sys: System, ops: seq<Op>, seed: seq<Snapshot>, line: P.Line, id: DeviceId)
    requires Agrees(sys, ops, seed) && line.Header?
    ensures Agrees(Step(sys, Feed(line, id)), ops + [Feed(line, id)], seed)
  {
    hide P.Feed, P.Flush, P.EmitUpdate, P.FlushConsole, AfterEmit, Newest, Batch, Between, Within, Follows;
    assert (ops + [Feed(line, id)])[..|ops|] == ops;
    HeaderParts(sys.parser, line);
    SeenFlush(sys.store, sys.parser, id);
    CloseAgrees(sys, ops, seed, id);
    var after := Step(sys, Feed(line, id));
    var s := Section(line.count, line.ts, LastHeader(ops) == Some((line.count, line.ts)), [], None);
    OpenWithin(P.EmitUpdate(sys.parser).st, after.store, LastHeader(ops), seed, Batch(Close(CutLog(ops), id).done), s);
    WithinReads(P.EmitUpdate(sys.parser).st.(current := Some(P.FreshReading(s.count, s.ts)), pendingRadio := None),
                after.parser, after.store, s, seed, Batch(Close(CutLog(ops), id).done));
    FollowsReads(P.EmitUpdate(sys.parser).st, after.parser, after.store);
  }

  /** Console text in the parser does not matter. */
  lemma {:induction false} WithinReads(
      p: P.State, q: P.State, store: S.State, s: Section, seed: seq<Snapshot>, told: seq<Snapshot>)
    requires SameReading(p, q) && Within(p, store, s, seed, told)
    ensures Within(q, store, s, seed, told)
  {
    hide Underway, Newest;
  }

  lemma {:induction false} ReopenAgrees(sys: System, ops: seq<Op>, seed: seq<Snapshot>, op: Op)
    requires Agrees(sys, ops, seed) && op.Reopen?
    ensures Agrees(Step(sys, op), ops + [op], seed)
  {
    hide P.Flush, P.EmitUpdate, P.FlushConsole, AfterEmit, Newest, Batch, Within;
    assert (ops + [op])[..|ops|] == ops;
    SeenFlush(sys.store, sys.parser, op.id);
    CloseAgrees(sys, ops, seed, op.id);
  }

  lemma {:induction false} FlushAgrees(sys: System, ops: seq<Op>, seed: seq<Snapshot>, op: Op)
    requires Agrees(sys, ops, seed) && op.Flush?
    ensures Agrees(Step(sys, op), ops + [op], seed)
  {
    hide P.Flush, P.EmitUpdate, P.FlushConsole, AfterEmit, Newest, Batch, Within, Follows;
    assert (ops + [op])[..|ops|] == ops;
    var after := Step(sys, op);
    FlushParts(sys.parser);
    SeenFlush(sys.store, sys.parser, op.id);
    CloseAgrees(sys, ops, seed, op.id);
    assert after.store == AfterEmit(sys.parser, sys.store, op.id);
    FollowsReads(P.EmitUpdate(sys.parser).st, after.parser, after.store);
    assert CutLog(ops + [op]) == Close(CutLog(ops), op.id);
    assert LastHeader(ops + [op]) == LastHeader(ops);
  }

  lemma {:induction false} FeedOutsideAgrees(sys: System, ops: seq<Op>, seed: seq<Snapshot>, line: P.Line, id: DeviceId)
    requires Agrees(sys, ops, seed) && !line.Header? && CutLog(ops).open.None?
    ensures Agrees(Step(sys, Feed(line, id)), ops + [Feed(line, id)], seed)
  {
    hide P.Feed, Newest, Batch, Within;
    assert (ops + [Feed(line, id)])[..|ops|] == ops;
    FeedInside(sys.store, sys.parser, line, id);
  }

  lemma {:induction false} TimerAgrees(sys: System, ops: seq<Op>, seed: seq<Snapshot>, op: Op)
    requires Agrees(sys, ops, seed) && op.TimerFlush?
    ensures Agrees(Step(sys, op), ops + [op], seed)
  {
    hide Newest, Batch, Underway;
    assert (ops + [op])[..|ops|] == ops;
    ConsoleTextIsUnseen(sys.store, sys.parser, "", None);
  }

  lemma {:induction false} StepAgrees(sys: System, ops: seq<Op>, seed: seq<Snapshot>, op: Op)
    requires Agrees(sys, ops, seed)
    ensures Agrees(Step(sys, op), ops + [op], seed)
  {
    hide Agrees, Step;
    if op.TimerFlush? {
      TimerAgrees(sys, ops, seed, op);
    } else if op.Flush? {
      FlushAgrees(sys, ops, seed, op);
    } else if op.Reopen? {
      ReopenAgrees(sys, ops, seed, op);
    } else if op.line.Header? {
      FeedHeaderAgrees(sys, ops, seed, op.line, op.id);
    } else if CutLog(ops).open.Some? {
      FeedInsideAgrees(sys, ops, seed, op.line, op.id);
    } else {
      FeedOutsideAgrees(sys, ops, seed, op.line, op.id);
    }
  }

  lemma {:induction false} RunAgrees(store: S.State, ops: seq<Op>)
    requires store.Inv()
    ensures Agrees(Run(System(P.INITIAL, store), ops), ops, store.ring)
    ensures Run(System(P.INITIAL, store), ops).store.ringMax == store.ringMax
  {
    if ops == [] {
      NewestIdempotent(store.History(), store.ringMax);
      assert store.ring + Batch([]) == store.ring;
    } else {
      var before, op := ops[..|ops| - 1], ops[|ops| - 1];
      assert before + [op] == ops;
      RunAgrees(store, before);
      StepAgrees(Run(System(P.INITIAL, store), before), before, store.ring, op);
      StepKeepsRingMax(Run(System(P.INITIAL, store), before), op);
    }
  }

  lemma {:induction false} StepKeepsRingMax(sys: System, op: Op)
    ensures Step(sys, op).store.ringMax == sys.store.ringMax
  {
    RingMaxFixed(sys.store, StampAll(Act(sys.parser, op).events, IdOf(op)));
  }

  lemma {:induction false} RingMaxFixed(store: S.State, events: seq<S.StoreEvent>)
    ensures S.ObserveAll(store, events).ringMax == store.ringMax
  {
    if events != [] {
      RingMaxFixed(store, events[..|events| - 1]);
    }
  }

  /**
   * Incremental equals batch. Whatever the store held before, and whatever headers the log repeats, a run that ends
   * with its last section closed leaves the ring a batch parse of the whole log would: the newest `ringMax` distinct
   * timestamps of the initial ring followed by one full snapshot per header, blocks of a repeated header laid over
   * each other.
   */
  lemma {:induction false} IncrementalEqualsBatch(store: S.State, ops: seq<Op>)
    requires store.Inv()
    requires ops != [] && (ops[|ops| - 1].Flush? || ops[|ops| - 1].Reopen?)
    ensures CutLog(ops).open == None
    ensures Run(System(P.INITIAL, store), ops).store.ring ==
            Newest(store.ring + Batch(CutLog(ops).done), store.ringMax)
  {
    RunAgrees(store, ops);
  }

  /** One full snapshot per section, nothing laid over anything. */
  function OneEach(sections: seq<Section>): (r: seq<Snapshot>)
    ensures |r| == |sections| && forall i :: 0 <= i < |r| ==> r[i] == SnapshotOf(sections[i])
  {
    if sections == [] then [] else OneEach(sections[..|sections| - 1]) + [SnapshotOf(sections[|sections| - 1])]
  }

  predicate NoneAgain(sections: seq<Section>) { forall s :: s in sections ==> !s.again }

  lemma {:induction false} NoneAgainOneEach(sections: seq<Section>)
    requires NoneAgain(sections)
    ensures Batch(sections) == OneEach(sections)
  {
    if sections != [] {
      NoneAgainOneEach(sections[..|sections| - 1]);
    }
  }

  lemma {:induction false} DifferentNoneAgain(ops: seq<Op>)
    requires HeadersDiffer(ops)
    ensures NoneAgain(CutLog(ops).done) && (CutLog(ops).open.Some? ==> !CutLog(ops).open.value.again)
  {
    if ops != [] {
      DifferentNoneAgain(ops[..|ops| - 1]);
    }
  }

  /** In particular, when no header repeats the one before it, one full snapshot for every header. */
  lemma {:induction false} OneSnapshotPerHeader(store: S.State, ops: seq<Op>)
    requires store.Inv() && HeadersDiffer(ops)
    requires ops != [] && (ops[|ops| - 1].Flush? || ops[|ops| - 1].Reopen?)
    ensures Run(System(P.INITIAL, store), ops).store.ring ==
            Newest(store.ring + OneEach(CutLog(ops).done), store.ringMax)
  {
    IncrementalEqualsBatch(store, ops);
    DifferentNoneAgain(ops);
    NoneAgainOneEach(CutLog(ops).done);
  }

  /** The store holds the last emission itself, and the block under way has lost no memory key of it. */
  ghost predicate Exact(p: P.State, store: S.State) {
    p.lastEmitted.Some? ==>
      && store.latest.Some? && store.latest.value.reading == p.lastEmitted.value
      && (p.current.Some? && !P.IsBoundary(p.lastEmitted.value, p.current.value) ==>
            p.lastEmitted.value.memory.Keys <= p.current.value.memory.Keys)
  }

  lemma {:induction false} EmitExact(p: P.State, store: S.State, id: DeviceId)
    requires Exact(p, store)
    ensures Exact(P.EmitUpdate(p).st, AfterEmit(p, store, id))
  {
    hide P.EmitUpdate, AfterEmit, Diff, Reconstruct, S.State.FinalizeIfBoundary;
    EmitNothing(p, store, id);
    EmitKeepsCurrent(p);
    if p.current.Some? && HeaderOf(p.lastEmitted) != HeaderOf(p.current) {
      FullObserved(p, store, id);
    } else if p.current.Some? {
      DeltaObserved(p, store, id);
      ReconstructExactIff(store.latest.value, p.current.value);
    }
  }

  lemma {:induction false} EmitKeepsCurrent(p: P.State)
    ensures P.EmitUpdate(p).st.current == p.current
  {
  }

  /** A line inside a block loses no memory key. */
  lemma {:induction false} AbsorbKeepsExact(p: P.State, store: S.State, line: P.Line)
    requires Exact(p, store)
    ensures Exact(p.(current := Absorb(p, line)), store)
  {
  }

  lemma {:induction false} StepSees(sys: System, op: Op)
    ensures Step(sys, op) == System(Act(sys.parser, op).st, Seen(sys.store, Act(sys.parser, op).events, IdOf(op)))
  {
  }

  lemma {:induction false} StepExact(sys: System, ops: seq<Op>, seed: seq<Snapshot>, op: Op)
    requires Exact(sys.parser, sys.store) && Agrees(sys, ops, seed) && HeadersDiffer(ops + [op])
    ensures Exact(Step(sys, op).parser, Step(sys, op).store)
  {
    hide P.Flush, P.EmitUpdate, P.FlushConsole, P.Feed, AfterEmit, Absorb, Seen, Agrees, S.ObserveAll, CutLog;
    assert (ops + [op])[..|ops|] == ops;
    StepSees(sys, op);
    EmitExact(sys.parser, sys.store, IdOf(op));
    match op
    case Feed(line, id) =>
      if line.Header? {
        HeaderParts(sys.parser, line);
        SeenFlush(sys.store, sys.parser, id);
        CloseAgrees(sys, ops, seed, id);
      } else {
        var q := sys.parser.(current := Absorb(sys.parser, line));
        FeedInside(sys.store, sys.parser, line, id);
        AbsorbKeepsExact(sys.parser, sys.store, line);
        EmitExact(q, sys.store, id);
        EmitKeepsCurrent(q);
      }
    case Flush(id) =>
      FlushParts(sys.parser);
      SeenFlush(sys.store, sys.parser, id);
    case Reopen(_) =>
    case TimerFlush =>
      TimerExact(sys, op);
  }

  lemma {:induction false} TimerExact(sys: System, op: Op)
    requires Exact(sys.parser, sys.store) && op.TimerFlush?
    ensures Exact(Step(sys, op).parser, Step(sys, op).store)
  {
    ConsoleTextIsUnseen(sys.store, sys.parser, "", None);
  }

  lemma {:induction false} RunExact(store: S.State, ops: seq<Op>)
    requires store.Inv() && HeadersDiffer(ops)
    ensures var sys := Run(System(P.INITIAL, store), ops);
            Exact(sys.parser, sys.store)
  {
    hide Agrees;
    if ops != [] {
      var before, op := ops[..|ops| - 1], ops[|ops| - 1];
      assert before + [op] == ops;
      RunExact(store, before);
      RunAgrees(store, before);
      StepExact(Run(System(P.INITIAL, store), before), before, store.ring, op);
    }
  }

  /** With no repeated header, the store's open snapshot is exactly the parser's last emission, memory included. */
  lemma {:induction false} DeltasAreExact(store: S.State, ops: seq<Op>)
    requires store.Inv() && HeadersDiffer(ops)
    ensures var sys := Run(System(P.INITIAL, store), ops);
            sys.parser.lastEmitted.Some? ==>
              sys.store.latest.Some? && sys.store.latest.value.reading == sys.parser.lastEmitted.value
  {
    RunExact(store, ops);
  }

  /** No delta can take a memory key away: under a repeated header it outlives the block that reported it. */
  lemma {:induction false} StaleMemoryKeySurvives(sys: System, id: DeviceId, key: string)
    requires Follows(sys.parser, sys.store)
    requires sys.parser.lastEmitted.Some? && sys.parser.current.Some?
    requires !P.IsBoundary(sys.parser.lastEmitted.value, sys.parser.current.value)
    requires key in sys.store.latest.value.reading.memory
    ensures var after := Step(sys, Flush(id)).store;
            after.latest.Some? && key in after.latest.value.reading.memory
  {
    hide P.EmitUpdate, P.Flush, AfterEmit, Diff, S.State.FinalizeIfBoundary;
    DeltaObserved(sys.parser, sys.store, id);
    SeenFlush(sys.store, sys.parser, id);
  }

  const HEADER: Op := Feed(P.Header("h", 1, "t"), None)
  const MEM_FREE: Op := Feed(P.Kilobytes("m", "MemFree", 7), None)
  const WITH_MEM_FREE: Reading := Reading(1, "t", map[], map["MemFree" := 7], map[])

  lemma {:induction false} HeaderThenMemory(store: S.State)
    ensures var sys := Step(Step(System(P.INITIAL, store), HEADER), MEM_FREE);
            sys.parser.current == Some(WITH_MEM_FREE) && sys.parser.lastEmitted == Some(WITH_MEM_FREE)
  {
    var sys := Step(System(P.INITIAL, store), HEADER);
    assert sys.parser == P.INITIAL.(current := Some(P.FreshReading(1, "t")));
    assert "MemFree" in P.MEM_KEYS;
    FeedInside(sys.store, sys.parser, MEM_FREE.line, None);
    assert Absorb(sys.parser, MEM_FREE.line) == Some(WITH_MEM_FREE);
  }

  lemma {:induction false} HeaderAgain(sys: System)
    requires sys.parser.current == Some(WITH_MEM_FREE) && sys.parser.lastEmitted == Some(WITH_MEM_FREE)
    ensures var after := Step(sys, HEADER);
            after.parser.current == Some(P.FreshReading(1, "t")) && after.parser.lastEmitted == Some(WITH_MEM_FREE)
  {
    SeenFlush(sys.store, sys.parser, None);
    EmptyDiff(WITH_MEM_FREE, WITH_MEM_FREE);
  }

  /** So the run "header, MemFree, same header, flush" leaves a key in the ring that its last block never had. */
  lemma {:induction false} RepeatedHeaderKeepsMemory(store: S.State)
    ensures var ops := [HEADER, MEM_FREE, HEADER, Flush(None)];
            var after := Run(System(P.INITIAL, store), ops).store;
            after.latest.Some? && "MemFree" in after.latest.value.reading.memory &&
            CutLog(ops).done ==
              [Section(1, "t", false, [Stamped(MEM_FREE.line, None)], None), Section(1, "t", true, [], None)]
  {
    var ops, two, three := [HEADER, MEM_FREE, HEADER, Flush(None)], [HEADER, MEM_FREE], [HEADER, MEM_FREE, HEADER];
    var sys0 := System(P.INITIAL, store);
    assert two[..1] == [HEADER] && [HEADER][..0] == [] && three[..2] == two && ops[..3] == three;
    assert Run(sys0, []) == sys0;
    assert Run(sys0, [HEADER]) == Step(sys0, HEADER);
    HeaderThenMemory(store);
    assert Run(sys0, two) == Step(Step(sys0, HEADER), MEM_FREE);
    HeaderAgain(Run(sys0, two));
    DeltaRunInvariant(store, three);
    StaleMemoryKeySurvives(Run(sys0, three), None, "MemFree");
    CutOfRepeat(HEADER, MEM_FREE);
  }

  lemma {:induction false} CutOfRepeat(header: Op, mem: Op)
    requires header.Feed? && header.line.Header? && mem.Feed? && !mem.line.Header?
    ensures var h := header.line;
            CutLog([header, mem, header, Flush(None)]).done ==
            [Section(h.count, h.ts, false, [Stamped(mem.line, mem.id)], header.id), Section(h.count, h.ts, true, [], None)]
  {
    var two, three := [header, mem], [header, mem, header];
    var ops := [header, mem, header, Flush(None)];
    assert two[..1] == [header] && [header][..0] == [] && three[..2] == two && ops[..3] == three;
    assert CutLog([]) == Cut([], None);
    var h := header.line;
    assert LastHeader([]) == None && LastHeader([header]) == Some((h.count, h.ts)) == LastHeader(two);
    assert CutLog([header]) == Cut([], Some(Section(h.count, h.ts, false, [], None)));
    assert CutLog(two).open.value.body == [Stamped(mem.line, mem.id)];
  }
}
