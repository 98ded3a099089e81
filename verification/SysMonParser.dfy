/** Console lines in, events out: full snapshots, deltas between them, and batches of plain console text. */
module SysMonParser {
  import opened Common
  import opened SnapshotModel

  /** A console line, already matched against the parser's patterns; `text` is the line itself. */
  datatype Line =
    | Header(text: string, count: int, ts: string)
    | ClientMarker(text: string, radio: string)
    | Brace(text: string, decoded: Option<RadioClients>)  // starts with "{"; `decoded` is what JSON made of it
    | Cpu(text: string, core: string, metrics: CpuMetrics)
    | Kilobytes(text: string, key: string, value: int)    // "<key>: <value> kB"
    | Plain(text: string)

  datatype Event =
    | ConsoleLineBatch(lines: seq<string>)
    | WifiClientsUpdate(radio: string, clients: RadioClients)
    | SnapshotUpdate(snapshot: Reading)
    | SnapshotDelta(delta: Delta)

  const MEM_KEYS: set<string> :=
    {"MemTotal", "MemFree", "MemAvailable", "Buffers", "Cached", "Slab", "SReclaimable", "SUnreclaim"}
  const CONSOLE_BATCH_SIZE: nat := 20

  datatype State = State(
    current: Option<Reading>,
    lastEmitted: Option<Reading>,
    pendingRadio: Option<string>,
    pending: seq<string>,
    timerArmed: bool,
    lineCount: nat,
    batchCount: nat,
    fullCount: nat,
    deltaCount: nat)

  /** A new state and the events handed to the callback on the way, in order. */
  datatype Outcome = Outcome(st: State, events: seq<Event>)

  const INITIAL: State := State(None, None, None, [], false, 0, 0, 0, 0)

  function FreshReading(count: int, ts: string): Reading {
    Reading(count, ts, map[], map[], map[])
  }

  function FlushConsole(st: State): Outcome {
    if st.pending == [] then Outcome(st.(timerArmed := false), [])
    else
      Outcome(
        st.(pending := [], timerArmed := false,
            lineCount := st.lineCount + |st.pending|, batchCount := st.batchCount + 1),
        [ConsoleLineBatch(st.pending)])
  }

  function QueueConsole(st: State, text: string): Outcome {
    var q := st.(pending := st.pending + [text]);
    if |q.pending| >= CONSOLE_BATCH_SIZE then FlushConsole(q.(timerArmed := false))
    else Outcome(q.(timerArmed := true), [])
  }

  predicate IsBoundary(previous: Reading, current: Reading) {
    previous.testCount != current.testCount || previous.deviceTs != current.deviceTs
  }

  function EmitUpdate(st: State): Outcome {
    if st.current.None? then Outcome(st, [])
    else
      var cur := st.current.value;
      if st.lastEmitted.None? || IsBoundary(st.lastEmitted.value, cur) then
        Outcome(st.(lastEmitted := Some(cur), fullCount := st.fullCount + 1), [SnapshotUpdate(cur)])
      else
        var delta := Diff(st.lastEmitted.value, cur);
        if delta.IsEmpty() then Outcome(st, [])
        else Outcome(st.(lastEmitted := Some(cur), deltaCount := st.deltaCount + 1), [SnapshotDelta(delta)])
  }

  function EmitCurrent(st: State): Outcome {
    var o := EmitUpdate(st);
    Outcome(o.st.(current := None), o.events)
  }

  function Then(a: Outcome, b: Outcome): Outcome {
    Outcome(b.st, a.events + b.events)
  }

  function Flush(st: State): Outcome {
    var a := FlushConsole(st);
    Then(a, EmitCurrent(a.st))
  }

  /** Starting a new console: what is open is closed off, and the parser forgets everything. */
  function Reopen(st: State): Outcome {
    Outcome(INITIAL, Flush(st).events)
  }

  function Feed(st: State, line: Line): Outcome {
    if line.Header? then
      var o := Flush(st);
      Outcome(o.st.(current := Some(FreshReading(line.count, line.ts)), pendingRadio := None), o.events)
    else if line.ClientMarker? then
      Outcome(st.(pendingRadio := Some(line.radio)), [])
    else if st.pendingRadio.Some? && line.Brace? then
      var o := FlushConsole(st);
      var radio := st.pendingRadio.value;
      if line.decoded.None? then Outcome(o.st.(pendingRadio := None), o.events)
      else
        Outcome(
          o.st.(pendingRadio := None,
                current := if st.current.None? then None
                           else Some(st.current.value.(wifi := st.current.value.wifi[radio := line.decoded.value]))),
          o.events + [WifiClientsUpdate(radio, line.decoded.value)])
    else if st.current.None? then
      QueueConsole(st, line.text)
    else if line.Cpu? then
      var o := FlushConsole(st);
      var cur := st.current.value;
      Then(o, EmitUpdate(o.st.(current := Some(cur.(cpu := cur.cpu[line.core := line.metrics])))))
    else if line.Kilobytes? && line.key in MEM_KEYS then
      var cur := st.current.value;
      var o := EmitUpdate(st.(current := Some(cur.(memory := cur.memory[line.key := line.value]))));
      Then(o, QueueConsole(o.st, line.text))
    else
      QueueConsole(st, line.text)
  }

  // ---- what becomes of a line ---------------------------------------------------------

  /** The eight figures of `/proc/meminfo` that are kept. */
  lemma {:induction false} MemKeysAre()
    ensures |MEM_KEYS| == 8
    ensures "MemTotal" in MEM_KEYS && "MemFree" in MEM_KEYS && "MemAvailable" in MEM_KEYS && "Buffers" in MEM_KEYS
    ensures "Cached" in MEM_KEYS && "Slab" in MEM_KEYS && "SReclaimable" in MEM_KEYS && "SUnreclaim" in MEM_KEYS
  {
    var some := {"MemTotal", "MemFree", "MemAvailable", "Buffers"};
    var others := {"Cached", "Slab", "SReclaimable", "SUnreclaim"};
    assert |some| == 4 by {
      assert some == {"MemTotal", "MemFree", "MemAvailable"} + {"Buffers"};
    }
    assert MEM_KEYS == some + others && some !! others;
  }

  /** Console text waits until there are twenty lines of it, and then goes out as one batch; a timer runs meanwhile. */
  lemma {:induction false} TextWaits(st: State, text: string)
    requires |st.pending| < 20
    ensures var o := QueueConsole(st, text);
      && |o.st.pending| < 20 && (o.st.timerArmed <==> o.st.pending != [])
      && (|st.pending| == 19 ==> o.events == [ConsoleLineBatch(st.pending + [text])] && o.st.pending == [])
      && (|st.pending| < 19 ==> o.events == [] && o.st.pending == st.pending + [text])
      && o.st.current == st.current && o.st.lastEmitted == st.lastEmitted && o.st.pendingRadio == st.pendingRadio
  {
  }

  /** Or until something else is to be told; nothing waiting is no batch. */
  lemma {:induction false} TextGoesOut(st: State)
    ensures var o := FlushConsole(st);
      && o.st.pending == [] && !o.st.timerArmed
      && o.events == (if st.pending == [] then [] else [ConsoleLineBatch(st.pending)])
      && o.st.lineCount - st.lineCount == |st.pending| && o.st.batchCount - st.batchCount == |o.events|
  {
  }

  /** A memory line under an open header is kept if its figure is, and shown on the console in either case. */
  lemma {:induction false} MemoryLine(st: State, text: string, key: string, value: int)
    requires st.current.Some? && |st.pending| < 20
    ensures var o := Feed(st, Kilobytes(text, key, value));
      && o.st.current.Some?
      && o.st.current.value.memory ==
           (if key in MEM_KEYS then st.current.value.memory[key := value] else st.current.value.memory)
      && o.st.current.value.cpu == st.current.value.cpu && o.st.current.value.wifi == st.current.value.wifi
      && (o.st.pending == st.pending + [text] || ConsoleLineBatch(st.pending + [text]) in o.events)
  {
    hide MEM_KEYS;
    if key in MEM_KEYS {
      var cur := st.current.value;
      EmitLeavesText(st.(current := Some(cur.(memory := cur.memory[key := value]))));
    }
  }

  /** The text that waits, as the batch it goes out in. */
  function Waiting(st: State): seq<Event> {
    if st.pending == [] then [] else [ConsoleLineBatch(st.pending)]
  }

  /** A header closes what is open, text first, and opens a blank reading of its own. */
  lemma {:induction false} HeaderLine(st: State, text: string, count: int, ts: string)
    ensures var o := Feed(st, Header(text, count, ts));
      && o.st.current == Some(Reading(count, ts, map[], map[], map[]))
      && o.st.pendingRadio == None && o.st.pending == []
      && o.events == Waiting(st) + EmitUpdate(st).events
  {
  }

  /** A marker says whose list comes next; it is neither shown nor told. */
  lemma {:induction false} MarkerLine(st: State, text: string, radio: string)
    ensures Feed(st, ClientMarker(text, radio)) == Outcome(st.(pendingRadio := Some(radio)), [])
  {
  }

  /**
    * The list behind a marker, if it can be read, is told for its radio, behind the text that waits, and enters the open
    * reading; it uses the marker up in either case, and is not console text.
    */
  lemma {:induction false} ListLine(st: State, text: string, decoded: Option<RadioClients>)
    requires st.pendingRadio.Some?
    ensures var o := Feed(st, Brace(text, decoded)); var radio := st.pendingRadio.value;
      && o.st.pendingRadio == None && o.st.pending == []
      && o.events == Waiting(st) + (if decoded.None? then [] else [WifiClientsUpdate(radio, decoded.value)])
      && (st.current.None? || decoded.None? ==> o.st.current == st.current)
      && (st.current.Some? && decoded.Some? ==>
            o.st.current == Some(st.current.value.(wifi := st.current.value.wifi[radio := decoded.value])))
  {
  }

  /** A CPU line under an open header enters the reading, which is told behind the text that waits. */
  lemma {:induction false} CpuLine(st: State, text: string, core: string, metrics: CpuMetrics)
    requires st.current.Some?
    ensures var o := Feed(st, Cpu(text, core, metrics));
      var cur := st.current.value.(cpu := st.current.value.cpu[core := metrics]);
      && o.st.current == Some(cur) && o.st.pending == [] && o.st.pendingRadio == st.pendingRadio
      && o.events == Waiting(st) + EmitUpdate(st.(current := Some(cur))).events
  {
  }

  /** Everything else is console text: any line without a header, a list nobody announced, a figure nobody keeps. */
  lemma {:induction false} OtherLine(st: State, line: Line)
    requires !line.Header? && !line.ClientMarker? && !(line.Brace? && st.pendingRadio.Some?)
    requires st.current.Some? ==> !line.Cpu? && !(line.Kilobytes? && line.key in MEM_KEYS)
    ensures Feed(st, line) == QueueConsole(st, line.text)
  {
    hide MEM_KEYS;
  }

  /** A parser that was just made, or reset: nothing open, nothing waiting, nothing counted. */
  lemma {:induction false} StartsBlank(st: State)
    ensures Reopen(st).st == INITIAL && Reopen(st).events == Waiting(st) + EmitUpdate(st).events
    ensures INITIAL.current == None && INITIAL.lastEmitted == None && INITIAL.pendingRadio == None
    ensures INITIAL.pending == [] && !INITIAL.timerArmed && INITIAL.lineCount == 0 && INITIAL.batchCount == 0
    ensures INITIAL.fullCount == 0 && INITIAL.deltaCount == 0
  {
  }

  /** How many of the events are of a kind. */
  function Fulls(events: seq<Event>): nat {
    if events == [] then 0 else (if events[0].SnapshotUpdate? then 1 else 0) + Fulls(events[1..])
  }

  function Deltas(events: seq<Event>): nat {
    if events == [] then 0 else (if events[0].SnapshotDelta? then 1 else 0) + Deltas(events[1..])
  }

  /** The efficiency counters count the updates told. */
  lemma {:induction false} CountersCount(st: State)
    ensures var o := EmitUpdate(st);
      && o.st.fullCount - st.fullCount == Fulls(o.events) && o.st.deltaCount - st.deltaCount == Deltas(o.events)
      && o.st.lineCount == st.lineCount && o.st.batchCount == st.batchCount
  {
    var events := EmitUpdate(st).events;
    assert events != [] ==> events[1..] == [];
  }

  lemma {:induction false} EmitLeavesText(st: State)
    ensures var o := EmitUpdate(st);
      && o.st.pending == st.pending && o.st.timerArmed == st.timerArmed && o.st.current == st.current
      && o.st.pendingRadio == st.pendingRadio && |o.events| <= 1
  {
  }

  // ---- the class ----------------------------------------------------------------------

  class Parser {
    var current: Option<Reading>
    var lastEmitted: Option<Reading>
    var pendingRadio: Option<string>
    var pendingLines: seq<string>
    var timerArmed: bool
    var lineCount: nat
    var batchCount: nat
    var fullCount: nat
    var deltaCount: nat
    /** Every event handed to the callback, in order. */
    var emitted: seq<Event>

    function Abs(): State
      reads this
    {
      State(current, lastEmitted, pendingRadio, pendingLines, timerArmed, lineCount, batchCount, fullCount, deltaCount)
    }

    /** Since `before`, the parser went through exactly this outcome. */
    twostate predicate Did(o: Outcome)
      reads this
    {
      Abs() == o.st && emitted == old(emitted) + o.events
    }

    constructor ()
      ensures Abs() == INITIAL && emitted == []
    {
      current, lastEmitted, pendingRadio, pendingLines, timerArmed := None, None, None, [], false;
      lineCount, batchCount, fullCount, deltaCount := 0, 0, 0, 0;
      emitted := [];
    }

    method Reset()
      modifies this
      ensures Did(Outcome(INITIAL, []))
    {
      timerArmed := false;
      current, lastEmitted, pendingRadio, pendingLines := None, None, None, [];
      lineCount, batchCount, fullCount, deltaCount := 0, 0, 0, 0;
    }

    method FlushConsoleLines()
      modifies this
      ensures Did(FlushConsole(old(Abs())))
    {
      if pendingLines == [] {
        timerArmed := false;
        return;
      }
      var lines := pendingLines;
      pendingLines := [];
      timerArmed := false;
      emitted := emitted + [ConsoleLineBatch(lines)];
      lineCount := lineCount + |lines|;
      batchCount := batchCount + 1;
    }

    method QueueConsoleLine(text: string)
      modifies this
      ensures Did(QueueConsole(old(Abs()), text))
    {
      pendingLines := pendingLines + [text];
      if |pendingLines| >= CONSOLE_BATCH_SIZE {
        timerArmed := false;
        FlushConsoleLines();
      } else {
        timerArmed := true;
      }
    }

    method EmitSnapshotUpdate()
      modifies this
      ensures Did(EmitUpdate(old(Abs())))
    {
      if current.None? {
        return;
      }
      var cur := current.value;
      if lastEmitted.None? || IsBoundary(lastEmitted.value, cur) {
        emitted := emitted + [SnapshotUpdate(cur)];
        lastEmitted := Some(cur);
        fullCount := fullCount + 1;
        return;
      }
      var delta := BuildDelta(lastEmitted.value, cur);
      if !delta.IsEmpty() {
        emitted := emitted + [SnapshotDelta(delta)];
        lastEmitted := Some(cur);
        deltaCount := deltaCount + 1;
      }
    }

    method EmitCurrentSnapshot()
      modifies this
      ensures Did(EmitCurrent(old(Abs())))
    {
      if current.None? {
        return;
      }
      EmitSnapshotUpdate();
      current := None;
    }

    method FlushAll()
      modifies this
      ensures Did(Flush(old(Abs())))
    {
      FlushConsoleLines();
      EmitCurrentSnapshot();
    }

    method ConsumeClientsJson(decoded: Option<RadioClients>)
      requires pendingRadio.Some?
      modifies this
      ensures Did(var st := old(Abs()); var radio := st.pendingRadio.value;
                  if decoded.None? then Outcome(st.(pendingRadio := None), [])
                  else Outcome(
                    st.(pendingRadio := None,
                        current := if st.current.None? then None
                                   else Some(st.current.value.(wifi := st.current.value.wifi[radio := decoded.value]))),
                    [WifiClientsUpdate(radio, decoded.value)]))
    {
      var radio := pendingRadio.value;
      pendingRadio := None;
      if decoded.None? {
        return;
      }
      emitted := emitted + [WifiClientsUpdate(radio, decoded.value)];
      if current.Some? {
        current := Some(current.value.(wifi := current.value.wifi[radio := decoded.value]));
      }
    }

    method FeedLine(line: Line)
      modifies this
      ensures Did(Feed(old(Abs()), line))
    {
      if line.Header? {
        FlushConsoleLines();
        EmitCurrentSnapshot();
        current := Some(FreshReading(line.count, line.ts));
        pendingRadio := None;
        return;
      }
      if line.ClientMarker? {
        pendingRadio := Some(line.radio);
        return;
      }
      if pendingRadio.Some? && line.Brace? {
        FlushConsoleLines();
        ConsumeClientsJson(line.decoded);
        return;
      }
      if current.None? {
        QueueConsoleLine(line.text);
        return;
      }
      if !line.Cpu? {
        if line.Kilobytes? && line.key in MEM_KEYS {
          current := Some(current.value.(memory := current.value.memory[line.key := line.value]));
          EmitSnapshotUpdate();
        }
        QueueConsoleLine(line.text);
        return;
      }
      FlushConsoleLines();
      current := Some(current.value.(cpu := current.value.cpu[line.core := line.metrics]));
      EmitSnapshotUpdate();
    }
  }
}
