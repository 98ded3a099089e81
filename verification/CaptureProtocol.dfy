/**
 * Running one shell command over a console that a monitor is reading: any number of callers, one gate, one
 * reader, and a sentinel that says where the output ends.
 */
module CaptureProtocol {
  import opened Common
  import opened Text

  type Caller = nat

  // ---- strings ------------------------------------------------------------------------

  /** The first place `p` occurs in `s`. */
  function FindSub(s: string, p: string): (r: Option<nat>)
    ensures r.Some? ==> r.value + |p| <= |s| && s[r.value..r.value + |p|] == p
    ensures r.Some? ==> forall i :: 0 <= i < r.value ==> !StartsWith(s[i..], p)
    ensures r.None? ==> forall i :: 0 <= i <= |s| ==> !StartsWith(s[i..], p)
  {
    if StartsWith(s, p) then Some(0)
    else if s == [] then None
    else
      var rest := FindSub(s[1..], p);
      assert forall i :: 0 < i <= |s| ==> s[i..] == s[1..][i - 1..];
      if rest.None? then None
      else
        SliceOfRest(s, rest.value, |p|);
        Some(rest.value + 1)
  }

  lemma {:induction false} SliceOfRest(s: string, i: nat, n: nat)
    requires i + n + 1 <= |s|
    ensures s[i + 1..i + 1 + n] == s[1..][i..i + n]
  {
  }

  predicate Contains(s: string, p: string) { FindSub(s, p).Some? }

  function EndWithNewline(s: string): string {
    if s != [] && s[|s| - 1] == '\n' then s else s + "\n"
  }

  // ---- what a caller is given ---------------------------------------------------------

  /** The echoed command line: input, not output. */
  predicate IsEcho(line: string, cmd: string, sentinel: string) {
    Contains(line, "echo " + sentinel) || Strip(line) == cmd
  }

  /** What one captured line contributes. */
  function Kept(line: string, cmd: string, sentinel: string): string {
    if IsEcho(line, cmd, sentinel) then ""
    else
      var at := FindSub(line, sentinel);
      if at.None? then line
      else if at.value == 0 then ""
      else EndWithNewline(line[..at.value])
  }

  function Output(lines: seq<string>, cmd: string, sentinel: string): string {
    if lines == [] then ""
    else Kept(lines[0], cmd, sentinel) + Output(lines[1..], cmd, sentinel)
  }

  method FilterLines(lines: seq<string>, cmd: string, sentinel: string) returns (out: string)
    ensures out == Output(lines, cmd, sentinel)
  {
    out := "";
    for i := 0 to |lines|
      invariant out == Output(lines[..i], cmd, sentinel)
    {
      var line := lines[i];
      OutputSnoc(lines, i, cmd, sentinel);
      if IsEcho(line, cmd, sentinel) {
        continue;
      }
      var at := FindSub(line, sentinel);
      if at.Some? {
        var head := line[..at.value];
        if head != "" {
          out := out + EndWithNewline(head);
        }
        continue;
      }
      out := out + line;
    }
    assert lines[..|lines|] == lines;
  }

  lemma {:induction false} OutputSnoc(lines: seq<string>, i: nat, cmd: string, sentinel: string)
    requires i < |lines|
    ensures Output(lines[..i + 1], cmd, sentinel) == Output(lines[..i], cmd, sentinel) + Kept(lines[i], cmd, sentinel)
  {
    assert lines[..i + 1] == lines[..i] + [lines[i]];
    OutputConcat(lines[..i], [lines[i]], cmd, sentinel);
    OutputOne(lines[i], cmd, sentinel);
  }

  /** The line that ends a capture: the sentinel, but not the command line that asked for it. */
  predicate EndsCapture(line: string, sentinel: string) {
    sentinel != [] && Contains(line, sentinel) && !Contains(line, "echo " + sentinel)
  }

  // ---- the output comes back unchanged ------------------------------------------------

  /** Complete lines, and the unfinished rest. */
  predicate IsLine(line: string) {
    line != [] && line[|line| - 1] == '\n' && forall i :: 0 <= i < |line| - 1 ==> line[i] != '\n'
  }

  predicate IsPart(part: string) { forall i :: 0 <= i < |part| ==> part[i] != '\n' }

  function Written(lines: seq<string>, part: string): string {
    if lines == [] then part else lines[0] + Written(lines[1..], part)
  }

  /** A text as its complete lines and the unfinished rest. */
  function Split(text: string): (seq<string>, string) {
    if text == [] then ([], [])
    else
      var (lines, part) := Split(text[1..]);
      if text[0] == '\n' then (["\n"] + lines, part)
      else if lines == [] then ([], [text[0]] + part)
      else ([[text[0]] + lines[0]] + lines[1..], part)
  }

  lemma {:induction false} SplitIsLines(text: string)
    ensures var (lines, part) := Split(text);
            (forall i :: 0 <= i < |lines| ==> IsLine(lines[i])) && IsPart(part) && Written(lines, part) == text
  {
    if text != [] {
      var (lines, part) := Split(text[1..]);
      SplitIsLines(text[1..]);
      if text[0] != '\n' && lines != [] {
        var longer := [[text[0]] + lines[0]] + lines[1..];
        assert IsLine(lines[0]);
        assert longer[1..] == lines[1..];
        assert Written(longer, part) == [text[0]] + Written(lines, part);
      } else if text[0] == '\n' {
        assert (["\n"] + lines)[1..] == lines;
      }
    }
  }

  /** The output a caller expects: what the command wrote, its last line finished. */
  function Restored(output: string): string {
    if output == [] then [] else EndWithNewline(output)
  }

  /** The lines the reader sees after the echo: the output's own, the last one fused with the sentinel. */
  function Received(lines: seq<string>, part: string, sentinel: string): seq<string> {
    lines + [part + sentinel + "\n"]
  }

  /** What is received is what was printed: the output and the sentinel's own line, cut at the line breaks. */
  lemma {:induction false} ReceivedIsPrinted(output: string, sentinel: string)
    requires IsPart(sentinel)
    ensures var (lines, part) := Split(output); var received := Received(lines, part, sentinel);
      && Written(received, "") == output + sentinel + "\n"
      && forall i :: 0 <= i < |received| ==> IsLine(received[i])
  {
    SplitIsLines(output);
    var (lines, part) := Split(output);
    WrittenMore(lines, [part + sentinel + "\n"]);
    WrittenConcat(lines, part);
    assert Written([part + sentinel + "\n"], "") == part + sentinel + "\n";
  }

  lemma {:induction false} WrittenMore(a: seq<string>, b: seq<string>)
    ensures Written(a + b, "") == Written(a, "") + Written(b, "")
  {
    if a == [] {
      assert a + b == b;
    } else {
      assert (a + b)[1..] == a[1..] + b;
      WrittenMore(a[1..], b);
    }
  }

  /** What is expected back is the output, but for a last line break it may have lacked. */
  lemma {:induction false} RestoredIs(output: string)
    ensures Restored(output) == if output == "" || output[|output| - 1] == '\n' then output else output + "\n"
  {
  }

  // ---- what that means, in terms of the texts alone -----------------------------------

  ghost predicate HoldsAt(s: string, p: string, i: nat) { i + |p| <= |s| && s[i..i + |p|] == p }

  ghost predicate Holds(s: string, p: string) { exists i: nat :: HoldsAt(s, p, i) }

  ghost predicate FirstAt(s: string, p: string, k: nat) {
    HoldsAt(s, p, k) && forall i :: 0 <= i < k ==> !HoldsAt(s, p, i)
  }

  /** The search finds the first place there is. */
  lemma {:induction false} FindSubIff(s: string, p: string, k: nat)
    ensures FindSub(s, p) == Some(k) <==> FirstAt(s, p, k)
  {
    FindSubAt(s, p);
  }

  lemma {:induction false} FindSubAt(s: string, p: string)
    ensures forall i :: 0 <= i <= |s| ==> (StartsWith(s[i..], p) <==> HoldsAt(s, p, i))
    ensures FindSub(s, p).Some? ==> HoldsAt(s, p, FindSub(s, p).value)
  {
    forall i | 0 <= i <= |s|
      ensures StartsWith(s[i..], p) <==> HoldsAt(s, p, i)
    {
      if i + |p| <= |s| {
        assert s[i..][..|p|] == s[i..i + |p|];
      }
    }
  }

  lemma {:induction false} ContainsIff(s: string, p: string)
    ensures Contains(s, p) <==> Holds(s, p)
  {
    FindSubAt(s, p);
    if i: nat :| HoldsAt(s, p, i) {
      assert i <= |s|;
    }
  }

  /** The command line echoed, or a line that is the bare command. */
  ghost predicate PassesForCommand(line: string, cmd: string, sentinel: string) {
    Holds(line, "echo " + sentinel) || StripsTo(line, cmd)
  }

  lemma {:induction false} IsEchoIff(line: string, cmd: string, sentinel: string)
    ensures IsEcho(line, cmd, sentinel) <==> PassesForCommand(line, cmd, sentinel)
  {
    hide Contains, Strip, Holds, StripsTo;
    ContainsIff(line, "echo " + sentinel);
    StripIff(line, cmd);
  }

  /**
    * What one captured line contributes to what the caller gets: nothing if it passes for the command; else all of it
    * ahead of the first sentinel, as a line of its own if there is anything; else the line itself.
    */
  lemma {:induction false} LineContributes(line: string, cmd: string, sentinel: string)
    ensures var out := Output([line], cmd, sentinel);
      && (PassesForCommand(line, cmd, sentinel) ==> out == "")
      && (!PassesForCommand(line, cmd, sentinel) && !Holds(line, sentinel) ==> out == line)
      && forall k: nat :: !PassesForCommand(line, cmd, sentinel) && FirstAt(line, sentinel, k) ==>
           out == if k == 0 then "" else if line[k - 1] == '\n' then line[..k] else line[..k] + "\n"
  {
    hide PassesForCommand, IsEcho;
    OutputOne(line, cmd, sentinel);
    IsEchoIff(line, cmd, sentinel);
    ContainsIff(line, sentinel);
    forall k: nat | FirstAt(line, sentinel, k)
      ensures FindSub(line, sentinel) == Some(k)
    {
      FindSubIff(line, sentinel, k);
    }
  }

  /** And a capture is over at the first line that holds the sentinel and not the command that asked for it. */
  lemma {:induction false} EndsCaptureIff(line: string, sentinel: string)
    ensures EndsCapture(line, sentinel) <==>
            sentinel != "" && Holds(line, sentinel) && !Holds(line, "echo " + sentinel)
  {
    hide Contains, Holds;
    ContainsIff(line, sentinel);
    ContainsIff(line, "echo " + sentinel);
  }

  /**
   * Nothing in the output passes for the command line or the sentinel, and the sentinel behind the unfinished last
   * line is the first one in it.
   */
  ghost predicate Faithful(lines: seq<string>, part: string, cmd: string, sentinel: string) {
    && (forall i :: 0 <= i < |lines| ==> !PassesForCommand(lines[i], cmd, sentinel) && !Holds(lines[i], sentinel))
    && (part != [] ==>
          var last := part + sentinel + "\n";
          !PassesForCommand(last, cmd, sentinel) && forall i :: 0 <= i < |part| ==> !HoldsAt(last, sentinel, i))
  }

  /** The same as the filter tests it. */
  ghost predicate Recognised(lines: seq<string>, part: string, cmd: string, sentinel: string) {
    && (forall i :: 0 <= i < |lines| ==> !IsEcho(lines[i], cmd, sentinel) && !Contains(lines[i], sentinel))
    && (part != [] ==>
          var last := part + sentinel + "\n";
          !IsEcho(last, cmd, sentinel) && FindSub(last, sentinel) == Some(|part|))
  }

  lemma {:induction false} FaithfulIff(lines: seq<string>, part: string, cmd: string, sentinel: string)
    ensures Faithful(lines, part, cmd, sentinel) <==> Recognised(lines, part, cmd, sentinel)
  {
    hide PassesForCommand, IsEcho, Holds, Contains, FindSub, HoldsAt;
    forall i | 0 <= i < |lines|
      ensures IsEcho(lines[i], cmd, sentinel) <==> PassesForCommand(lines[i], cmd, sentinel)
      ensures Contains(lines[i], sentinel) <==> Holds(lines[i], sentinel)
    {
      IsEchoIff(lines[i], cmd, sentinel);
      ContainsIff(lines[i], sentinel);
    }
    var last := part + sentinel + "\n";
    IsEchoIff(last, cmd, sentinel);
    FindSubIff(last, sentinel, |part|);
    SentinelHolds(part, sentinel);
  }

  lemma {:induction false} SentinelHolds(part: string, sentinel: string)
    ensures HoldsAt(part + sentinel + "\n", sentinel, |part|)
  {
    assert (part + sentinel + "\n")[|part|..|part| + |sentinel|] == sentinel;
  }

  lemma {:induction false} OutputConcat(a: seq<string>, b: seq<string>, cmd: string, sentinel: string)
    ensures Output(a + b, cmd, sentinel) == Output(a, cmd, sentinel) + Output(b, cmd, sentinel)
  {
    if a == [] {
      assert a + b == b;
    } else {
      assert (a + b)[1..] == a[1..] + b;
      OutputConcat(a[1..], b, cmd, sentinel);
    }
  }

  lemma {:induction false} OutputOne(line: string, cmd: string, sentinel: string)
    ensures Output([line], cmd, sentinel) == Kept(line, cmd, sentinel)
  {
    assert [line][1..] == [];
  }

  lemma {:induction false} EchoesVanish(echoes: seq<string>, cmd: string, sentinel: string)
    requires forall i :: 0 <= i < |echoes| ==> IsEcho(echoes[i], cmd, sentinel)
    ensures Output(echoes, cmd, sentinel) == ""
  {
    if echoes != [] {
      EchoesVanish(echoes[1..], cmd, sentinel);
    }
  }

  /** A complete line is kept whole or loses something. */
  lemma {:induction false} KeptLine(line: string, cmd: string, sentinel: string)
    requires IsLine(line) && sentinel != [] && IsPart(sentinel)
    ensures var k := Kept(line, cmd, sentinel);
            if !IsEcho(line, cmd, sentinel) && !Contains(line, sentinel) then k == line else |k| < |line|
  {
    var at := FindSub(line, sentinel);
    if at.Some? {
      assert line[at.value + |sentinel| - 1] == sentinel[|sentinel| - 1];
      assert at.value + |sentinel| < |line|;
    }
  }

  lemma {:induction false} KeptLines(lines: seq<string>, cmd: string, sentinel: string)
    requires (forall i :: 0 <= i < |lines| ==> IsLine(lines[i])) && sentinel != [] && IsPart(sentinel)
    ensures var out := Output(lines, cmd, sentinel);
            if forall i :: 0 <= i < |lines| ==> !IsEcho(lines[i], cmd, sentinel) && !Contains(lines[i], sentinel)
            then out == Written(lines, [])
            else |out| < |Written(lines, [])|
  {
    if lines != [] {
      KeptLine(lines[0], cmd, sentinel);
      KeptLines(lines[1..], cmd, sentinel);
    }
  }

  /** The fused last line gives back its unfinished part, finished, or loses something. */
  lemma {:induction false} KeptLast(part: string, cmd: string, sentinel: string)
    requires IsPart(part) && IsPart(sentinel) && sentinel != []
    ensures var last := part + sentinel + "\n";
            var k, due := Kept(last, cmd, sentinel), if part == [] then [] else part + "\n";
            if part == [] || (!IsEcho(last, cmd, sentinel) && FindSub(last, sentinel) == Some(|part|))
            then k == due else |k| < |due|
  {
    var last := part + sentinel + "\n";
    SentinelIsThere(part, sentinel);
    var at := FindSub(last, sentinel).value;
    assert last[..at] == part[..at];
  }

  lemma {:induction false} SentinelIsThere(part: string, sentinel: string)
    ensures var last := part + sentinel + "\n";
            FindSub(last, sentinel).Some? && FindSub(last, sentinel).value <= |part|
  {
    var last := part + sentinel + "\n";
    assert last[|part|..] == sentinel + "\n";
    assert StartsWith(last[|part|..], sentinel);
  }

  lemma {:induction false} WrittenConcat(lines: seq<string>, part: string)
    ensures Written(lines, part) == Written(lines, []) + part
  {
    if lines != [] {
      WrittenConcat(lines[1..], part);
    }
  }

  /**
   * The command's output is returned, with only its last newline restored, if and only if nothing in it passes for
   * the command line or the sentinel.
   */
  lemma {:induction false} OutputReturnedIff(echoes: seq<string>, output: string, cmd: string, sentinel: string)
    requires forall i :: 0 <= i < |echoes| ==> PassesForCommand(echoes[i], cmd, sentinel)
    requires IsPart(sentinel) && sentinel != []
    ensures var (lines, part) := Split(output);
            Output(echoes + Received(lines, part, sentinel), cmd, sentinel) ==
              Restored(output) <==>
            Faithful(lines, part, cmd, sentinel)
  {
    hide PassesForCommand, Faithful, IsEcho, Contains, FindSub;
    forall i | 0 <= i < |echoes|
      ensures IsEcho(echoes[i], cmd, sentinel)
    {
      IsEchoIff(echoes[i], cmd, sentinel);
    }
    var (lines, part) := Split(output);
    FaithfulIff(lines, part, cmd, sentinel);
    SplitIsLines(output);
    var last := part + sentinel + "\n";
    OutputConcat(echoes, Received(lines, part, sentinel), cmd, sentinel);
    EchoesVanish(echoes, cmd, sentinel);
    OutputConcat(lines, [last], cmd, sentinel);
    OutputOne(last, cmd, sentinel);
    KeptLines(lines, cmd, sentinel);
    KeptLast(part, cmd, sentinel);
    RestoredIsFinished(lines, part);
  }

  lemma {:induction false} RestoredIsFinished(lines: seq<string>, part: string)
    requires (forall i :: 0 <= i < |lines| ==> IsLine(lines[i])) && IsPart(part)
    ensures var text := Written(lines, part);
            Written(lines, []) + (if part == [] then [] else part + "\n") ==
            Restored(text)
  {
    WrittenConcat(lines, part);
    LinesEndLines(lines);
    if part != [] {
      var text := Written(lines, part);
      assert text[|text| - 1] == part[|part| - 1];
    }
  }

  lemma {:induction false} LinesEndLines(lines: seq<string>)
    requires forall i :: 0 <= i < |lines| ==> IsLine(lines[i])
    ensures var text := Written(lines, []); text != [] ==> text[|text| - 1] == '\n'
  {
    if lines != [] {
      LinesEndLines(lines[1..]);
      assert IsLine(lines[0]);
    }
  }

  /** A faithful output ends the capture with its fused last line and with no line before it. */
  lemma {:induction false} FaithfulEndsOnTime(lines: seq<string>, part: string, cmd: string, sentinel: string)
    requires Faithful(lines, part, cmd, sentinel)
    requires IsPart(part) && IsPart(sentinel) && sentinel != []
    ensures forall i :: 0 <= i < |lines| ==> !EndsCapture(lines[i], sentinel)
    ensures EndsCapture(part + sentinel + "\n", sentinel)
  {
    FaithfulIff(lines, part, cmd, sentinel);
    hide Faithful;
    var last := part + sentinel + "\n";
    SentinelIsThere(part, sentinel);
    if part == [] {
      BareSentinelHasNoEcho(sentinel);
    }
  }

  lemma {:induction false} BareSentinelHasNoEcho(sentinel: string)
    ensures !Contains([] + sentinel + "\n", "echo " + sentinel)
  {
    assert |"echo " + sentinel| == |sentinel| + 5;
  }

  /** An output that spells the start of the sentinel is cut short: the two overlap. */
  lemma {:induction false} OverlapIsLost()
    ensures var sentinel, part := "__DUTCAP_000001__", "__DUTCAP_000001";
            !Contains(part, sentinel) && Output(Received([], part, sentinel), "x", sentinel) == ""
  {
    var sentinel, part := "__DUTCAP_000001__", "__DUTCAP_000001";
    var last := part + sentinel + "\n";
    assert |part| < |sentinel|;
    assert last[..17] == sentinel;
    OutputOne(last, "x", sentinel);
    assert Received([], part, sentinel) == [last];
  }

  // ---- the protocol -------------------------------------------------------------------

  datatype Result = Ok(lines: seq<string>, from: nat, to: nat) | Failed

  /** Where a caller is; `from` is how many lines had been read when its command was written. */
  datatype Phase =
    | Queued(cmd: string, sentinel: string)
    | Entered(cmd: string, sentinel: string)
    | Capturing(cmd: string, sentinel: string, from: nat)
    | Failing(cmd: string, sentinel: string)
    | Leaving(cmd: string, sentinel: string, result: Result)
    | Finished(cmd: string, sentinel: string, result: Result)

  datatype LogEntry = LogLine(text: string) | LogRaw(text: string)

  /**
   * `read` is every line the reader has consumed, `diverted` for each of them whether it went to a capture;
   * `captured` and `parsed` are the two streams they went to, and `flushedTo` says how much of the second the parser
   * has been made to finish. `opens` counts the consoles opened, `announced` the losses told to the operator; the
   * three counts between them are tear-downs that have yet to wake a capture, to close up, to tell.
   */
  datatype Console = Console(
    isOpen: bool, terminal: bool, disconnected: bool, opens: nat, toWake: nat, toClose: nat, toAnnounce: nat,
    announced: nat)

  datatype Buffer = Buffer(active: bool, lines: seq<string>, sentinel: string, done: bool)

  datatype Streams = Streams(
    log: seq<LogEntry>, parsed: seq<string>, flushedTo: nat, captured: seq<string>, read: seq<string>,
    diverted: seq<bool>)

  datatype State = State(
    console: Console, gate: Option<Caller>, buffer: Buffer, callers: map<Caller, Phase>, streams: Streams)

  datatype Step =
    | Call(c: Caller, cmd: string, sentinel: string)
    | GiveUp(c: Caller)
    | Acquire(c: Caller)
    | Begin(c: Caller, written: bool)
    | TearDown(c: Caller)
    | Consume(line: string)
    | Collect(c: Caller)
    | Release(c: Caller)
    | RawBytes(text: string)
    | EnterTerminal
    | ExitTerminal
    | Lost
    | WakeUp
    | CloseLost
    | Announce
    | Open
    | Close

  const INITIAL: State := State(
    Console(false, false, false, 0, 0, 0, 0, 0), None, Buffer(false, [], "", false), map[], Streams([], [], 0, [], [], []))

  predicate Enabled(st: State, step: Step) {
    match step
    case Call(c, _, sentinel) => (c in st.callers ==> st.callers[c].Finished?) && sentinel != []
    case GiveUp(c) => c in st.callers && st.callers[c].Queued?
    case Acquire(c) => c in st.callers && st.callers[c].Queued? && st.gate.None?
    case Begin(c, _) => c in st.callers && st.callers[c].Entered?
    case TearDown(c) => c in st.callers && st.callers[c].Failing?
    case Consume(_) => st.console.isOpen && !st.console.terminal
    // Woken by the sentinel, or by the clock: the collect may come at any time.
    case Collect(c) => c in st.callers && st.callers[c].Capturing?
    case Release(c) => c in st.callers && st.callers[c].Leaving?
    case RawBytes(_) => st.console.isOpen && st.console.terminal
    case EnterTerminal => st.console.isOpen
    case ExitTerminal => true
    case Lost => st.console.opens > 0
    case WakeUp => st.console.toWake > 0
    case CloseLost => st.console.toClose > 0
    case Announce => st.console.toAnnounce > 0
    case Open => !st.console.isOpen
    case Close => true
  }

  /** The parser has finished all it was fed. */
  function Flushed(s: Streams): Streams { s.(flushedTo := |s.parsed|) }

  /** Whatever is open is closed, and the parser finishes what it was fed. */
  function ClosedUp(st: State): State {
    st.(console := st.console.(isOpen := false, terminal := false), streams := Flushed(st.streams))
  }

  /** The console is gone: the first to notice has it torn down, in steps of their own. */
  function Noticed(st: State): State {
    if st.console.disconnected then st
    else st.(console := st.console.(disconnected := true, toWake := st.console.toWake + 1))
  }

  /** A waiting capture is woken. */
  function Woken(st: State): State
    requires st.console.toWake > 0
  {
    st.(console := st.console.(toWake := st.console.toWake - 1, toClose := st.console.toClose + 1),
        buffer := st.buffer.(done := true))
  }

  /** The console is closed, whichever is open by now. */
  function LostClosed(st: State): State
    requires st.console.toClose > 0
  {
    var closed := ClosedUp(st);
    closed.(console := closed.console.(toClose := st.console.toClose - 1, toAnnounce := st.console.toAnnounce + 1))
  }

  /** The operator is told. */
  function Told(st: State): State
    requires st.console.toAnnounce > 0
  {
    st.(console := st.console.(toAnnounce := st.console.toAnnounce - 1, announced := st.console.announced + 1))
  }

  function Move(st: State, c: Caller, p: Phase): State { st.(callers := st.callers[c := p]) }

  /** One line read: logged, then diverted to the capture in flight or parsed. */
  function Consumed(st: State, line: string): State {
    var logged := Recorded(st.streams, line, st.buffer.active);
    if st.buffer.active then
      st.(buffer := Diverted(st.buffer, line), streams := logged.(captured := logged.captured + [line]))
    else st.(streams := logged.(parsed := logged.parsed + [line]))
  }

  function Recorded(s: Streams, line: string, active: bool): Streams {
    s.(log := s.log + [LogLine(line)], read := s.read + [line], diverted := s.diverted + [active])
  }

  function Diverted(b: Buffer, line: string): Buffer {
    b.(lines := b.lines + [line], done := b.done || EndsCapture(line, b.sentinel))
  }

  /** The buffer armed and the command written, on an open console outside terminal mode. */
  function Begun(st: State, c: Caller, written: bool): State
    requires c in st.callers
  {
    var p := st.callers[c];
    if !st.console.isOpen || st.console.terminal then Move(st, c, Leaving(p.cmd, p.sentinel, Failed))
    else
      Move(st.(buffer := Buffer(written, [], p.sentinel, false)), c,
           if written then Capturing(p.cmd, p.sentinel, |st.streams.read|) else Failing(p.cmd, p.sentinel))
  }

  /** The buffer taken and disarmed. */
  function Collected(st: State, c: Caller): State
    requires c in st.callers && st.callers[c].Capturing?
  {
    var p, b := st.callers[c], st.buffer;
    Move(st.(buffer := Buffer(false, [], "", b.done)), c,
         Leaving(p.cmd, p.sentinel, Ok(b.lines, p.from, |st.streams.read|)))
  }

  function Next(st: State, step: Step): State
    requires Enabled(st, step)
  {
    match step
    case Call(c, cmd, sentinel) => Move(st, c, Queued(cmd, sentinel))
    case GiveUp(c) => Move(st, c, Finished(st.callers[c].cmd, st.callers[c].sentinel, Failed))
    case Acquire(c) => Move(st.(gate := Some(c)), c, Entered(st.callers[c].cmd, st.callers[c].sentinel))
    case Begin(c, written) => Begun(st, c, written)
    case TearDown(c) => Move(Noticed(st), c, Leaving(st.callers[c].cmd, st.callers[c].sentinel, Failed))
    case Consume(line) => Consumed(st, line)
    case Collect(c) => Collected(st, c)
    case Release(c) =>
      var p := st.callers[c];
      Move(st.(gate := None), c, Finished(p.cmd, p.sentinel, p.result))
    case RawBytes(text) => st.(streams := st.streams.(log := st.streams.log + [LogRaw(text)]))
    case EnterTerminal => st.(console := st.console.(terminal := true))
    case ExitTerminal => st.(console := st.console.(terminal := false))
    case Lost => Noticed(st)
    case WakeUp => Woken(st)
    case CloseLost => LostClosed(st)
    case Announce => Told(st)
    case Open =>
      st.(console := st.console.(isOpen := true, disconnected := false, opens := st.console.opens + 1))
    case Close => ClosedUp(st)
  }

  /** The lines of `read` that went where `want` says. */
  function Side(read: seq<string>, diverted: seq<bool>, want: bool): seq<string>
    requires |read| == |diverted|
  {
    if read == [] then []
    else
      Side(read[..|read| - 1], diverted[..|read| - 1], want) +
      (if diverted[|read| - 1] == want then [read[|read| - 1]] else [])
  }

  function LoggedLines(log: seq<LogEntry>): seq<string> {
    if log == [] then []
    else LoggedLines(log[..|log| - 1]) + (if log[|log| - 1].LogLine? then [log[|log| - 1].text] else [])
  }

  /** Inside the gate. */
  predicate Inside(p: Phase) { p.Entered? || p.Capturing? || p.Failing? || p.Leaving? }

  /** The lines a result stands for are exactly those read between its command and its collection. */
  ghost predicate ResultIsWindow(r: Result, read: seq<string>, diverted: seq<bool>) {
    r.Ok? ==>
      && r.from <= r.to <= |read| && |read| == |diverted| && r.lines == read[r.from..r.to]
      && forall i :: r.from <= i < r.to ==> diverted[i]
  }

  /** The gate: whoever is inside holds it, so never two; and a capture is active exactly while its holder captures. */
  ghost predicate GateInv(st: State) {
    && (forall c :: c in st.callers ==> (Inside(st.callers[c]) <==> st.gate == Some(c)))
    && (st.gate.Some? ==> st.gate.value in st.callers)
    && (st.buffer.active <==> st.gate.Some? && st.callers[st.gate.value].Capturing?)
  }

  /** The log holds every line once, in order; captures and parser share the lines out. */
  ghost predicate StreamInv(st: State) { Shared(st.streams.log, st.streams.read, st.streams.diverted, st.streams.captured, st.streams.parsed) }

  ghost predicate Shared(
    log: seq<LogEntry>, read: seq<string>, diverted: seq<bool>, captured: seq<string>, parsed: seq<string>)
  {
    && |diverted| == |read|
    && LoggedLines(log) == read
    && Side(read, diverted, true) == captured
    && Side(read, diverted, false) == parsed
  }

  /** A capture's buffer is everything read since its command was written; a result is the buffer it collected. */
  ghost predicate CallerInv(p: Phase, st: State) {
    && p.sentinel != []
    && (p.Capturing? ==>
          && p.from <= |st.streams.read| && |st.streams.read| == |st.streams.diverted|
          && st.buffer.lines == st.streams.read[p.from..] && st.buffer.sentinel == p.sentinel
          && forall i :: p.from <= i < |st.streams.read| ==> st.streams.diverted[i])
    && ((p.Leaving? || p.Finished?) ==> ResultIsWindow(p.result, st.streams.read, st.streams.diverted))
  }

  /**
    * A lost console that is still open will be closed; whenever the console is closed the parser has finished all it
    * was fed; and each opening accounts for one announcement at most, made or under way.
    */
  ghost predicate LossInv(st: State) {
    var k := st.console;
    && (k.disconnected && k.isOpen ==> k.toWake + k.toClose > 0)
    && st.streams.flushedTo <= |st.streams.parsed| && (!k.isOpen ==> st.streams.flushedTo == |st.streams.parsed|)
    && if k.opens == 0 then
         !k.isOpen && !k.disconnected && k.announced + k.toWake + k.toClose + k.toAnnounce == 0
       else
         k.announced + k.toWake + k.toClose + k.toAnnounce + (if k.disconnected then 0 else 1) <= k.opens
  }

  ghost predicate Inv(st: State) {
    && GateInv(st) && StreamInv(st) && LossInv(st)
    && (forall c :: c in st.callers ==> CallerInv(st.callers[c], st) && (st.callers[c].Failing? ==> st.console.opens > 0))
  }

  lemma {:induction false} StepKeepsInv(st: State, step: Step)
    requires Inv(st) && Enabled(st, step)
    ensures Inv(Next(st, step))
  {
    StepKeepsStreams(st, step);
    StepKeepsGate(st, step);
    StepKeepsCallers(st, step);
    StepKeepsLoss(st, step);
  }

  lemma {:induction false} StepKeepsLoss(st: State, step: Step)
    requires Inv(st) && Enabled(st, step)
    ensures LossInv(Next(st, step))
    ensures forall c :: c in Next(st, step).callers && Next(st, step).callers[c].Failing? ==> Next(st, step).console.opens > 0
  {
    hide StreamInv, CallerInv, EndsCapture;
  }

  lemma {:induction false} StepKeepsGate(st: State, step: Step)
    requires GateInv(st) && Enabled(st, step)
    ensures GateInv(Next(st, step))
  {
    hide EndsCapture;
  }

  lemma {:induction false} StepKeepsStreams(st: State, step: Step)
    requires StreamInv(st) && Enabled(st, step)
    ensures StreamInv(Next(st, step))
  {
    hide Shared, EndsCapture;
    if step.Consume? {
      OneMoreLine(st.streams.log, st.streams.read, st.streams.diverted, st.streams.captured, st.streams.parsed, step.line, st.buffer.active);
    } else if step.RawBytes? {
      RawBytesAreNoLine(st.streams.log, st.streams.read, st.streams.diverted, st.streams.captured, st.streams.parsed, step.text);
    } else {
      OthersLeaveStreams(st, step);
    }
  }

  lemma {:induction false} OneMoreLine(
    log: seq<LogEntry>, read: seq<string>, diverted: seq<bool>, captured: seq<string>, parsed: seq<string>,
    line: string, active: bool)
    requires Shared(log, read, diverted, captured, parsed)
    ensures Shared(log + [LogLine(line)], read + [line], diverted + [active],
                   if active then captured + [line] else captured, if active then parsed else parsed + [line])
  {
    assert (log + [LogLine(line)])[..|log|] == log;
    assert (read + [line])[..|read|] == read && (diverted + [active])[..|diverted|] == diverted;
  }

  lemma {:induction false} RawBytesAreNoLine(
    log: seq<LogEntry>, read: seq<string>, diverted: seq<bool>, captured: seq<string>, parsed: seq<string>, text: string)
    requires Shared(log, read, diverted, captured, parsed)
    ensures Shared(log + [LogRaw(text)], read, diverted, captured, parsed)
  {
    assert (log + [LogRaw(text)])[..|log|] == log;
  }

  ghost predicate SameStreams(before: State, after: State) {
    && after.streams.read == before.streams.read && after.streams.diverted == before.streams.diverted && after.streams.captured == before.streams.captured
    && after.streams.parsed == before.streams.parsed
  }

  lemma {:induction false} OthersLeaveStreams(st: State, step: Step)
    requires Enabled(st, step) && !step.Consume?
    ensures var after := Next(st, step); SameStreams(st, after) && (step.RawBytes? || after.streams.log == st.streams.log)
  {
    hide Next, Enabled, SameStreams;
    if IsCallers(step) {
      CallersLeaveStreams(st, step);
    } else {
      ConsoleLeavesStreams(st, step);
    }
  }

  /** A step of one caller, as against one of the console. */
  predicate IsCallers(step: Step) {
    step.Call? || step.GiveUp? || step.Acquire? || step.Begin? || step.TearDown? || step.Collect? || step.Release?
  }

  lemma {:induction false} CallersLeaveStreams(st: State, step: Step)
    requires Enabled(st, step) && IsCallers(step)
    ensures var after := Next(st, step); SameStreams(st, after) && after.streams.log == st.streams.log
  {
    match step
    case Call(_, _, _) =>
    case GiveUp(_) =>
    case Acquire(_) =>
    case Begin(_, _) =>
    case TearDown(_) =>
    case Collect(_) =>
    case Release(_) =>
  }

  lemma {:induction false} ConsoleLeavesStreams(st: State, step: Step)
    requires Enabled(st, step) && !IsCallers(step) && !step.Consume?
    ensures var after := Next(st, step); SameStreams(st, after) && (step.RawBytes? || after.streams.log == st.streams.log)
  {
    match step
    case RawBytes(_) =>
    case EnterTerminal =>
    case ExitTerminal =>
    case Lost =>
    case WakeUp =>
    case CloseLost =>
    case Announce =>
    case Open =>
    case Close =>
  }

  lemma {:induction false} StepKeepsCallers(st: State, step: Step)
    requires Inv(st) && Enabled(st, step)
    ensures forall c :: c in Next(st, step).callers ==> CallerInv(Next(st, step).callers[c], Next(st, step))
  {
    hide Inv, CallerInv, Next, Enabled;
    forall c | c in Next(st, step).callers
      ensures CallerInv(Next(st, step).callers[c], Next(st, step))
    {
      StepKeepsCaller(st, step, c);
    }
  }

  lemma {:induction false} StepKeepsCaller(st: State, step: Step, c: Caller)
    requires Inv(st) && Enabled(st, step) && c in Next(st, step).callers
    ensures CallerInv(Next(st, step).callers[c], Next(st, step))
  {
    hide Inv, CallerInv, EndsCapture;
    if step.Consume? {
      ConsumeKeepsCaller(st, step.line, c);
    } else if step.Collect? {
      CollectKeepsCaller(st, step.c, c);
    } else if step.Begin? {
      BeginKeepsCaller(st, step.c, step.written, c);
    } else {
      OtherKeepsCaller(st, step, c);
    }
  }

  /** A caller moves on without a new window, or stays where it is. */
  ghost predicate MovesOn(before: Phase, after: Phase) {
    || after == before
    || (after.sentinel == before.sentinel && !after.Capturing?
        && (after.Leaving? || after.Finished? ==> after.result == Failed || (before.Leaving? && after.result == before.result)))
  }

  lemma {:induction false} OthersMoveOn(st: State, step: Step, c: Caller)
    requires Enabled(st, step) && c in Next(st, step).callers
    requires !step.Consume? && !step.Collect? && !step.Begin?
    ensures var after := Next(st, step);
            && after.buffer.lines == st.buffer.lines && after.buffer.sentinel == st.buffer.sentinel
            && if step.Call? && step.c == c then after.callers[c] == Queued(step.cmd, step.sentinel) && step.sentinel != []
               else c in st.callers && MovesOn(st.callers[c], after.callers[c])
  {
    hide Next, Enabled, MovesOn;
    if IsCallers(step) {
      CallersMoveOn(st, step, c);
    } else {
      ConsoleMovesNobody(st, step);
      StaysPut(st.callers[c]);
    }
  }

  lemma {:induction false} StaysPut(p: Phase)
    ensures MovesOn(p, p)
  {
  }

  lemma {:induction false} ConsoleMovesNobody(st: State, step: Step)
    requires Enabled(st, step) && !IsCallers(step) && !step.Consume?
    ensures var after := Next(st, step);
            after.callers == st.callers && after.buffer.lines == st.buffer.lines && after.buffer.sentinel == st.buffer.sentinel
  {
    match step
    case RawBytes(_) =>
    case EnterTerminal =>
    case ExitTerminal =>
    case Lost =>
    case WakeUp =>
    case CloseLost =>
    case Announce =>
    case Open =>
    case Close =>
  }

  lemma {:induction false} CallersMoveOn(st: State, step: Step, c: Caller)
    requires Enabled(st, step) && c in Next(st, step).callers
    requires IsCallers(step) && !step.Collect? && !step.Begin?
    ensures var after := Next(st, step);
            && after.buffer.lines == st.buffer.lines && after.buffer.sentinel == st.buffer.sentinel
            && if step.Call? && step.c == c then after.callers[c] == Queued(step.cmd, step.sentinel) && step.sentinel != []
               else c in st.callers && MovesOn(st.callers[c], after.callers[c])
  {
    hide EndsCapture;
    match step
    case Call(_, _, _) =>
    case GiveUp(_) =>
    case Acquire(_) =>
    case TearDown(_) =>
    case Release(_) =>
  }

  /** A step that neither reads, nor arms, nor collects, leaves streams and buffer alone. */
  lemma {:induction false} OtherKeepsCaller(st: State, step: Step, c: Caller)
    requires Inv(st) && Enabled(st, step) && c in Next(st, step).callers
    requires !step.Consume? && !step.Collect? && !step.Begin?
    ensures CallerInv(Next(st, step).callers[c], Next(st, step))
  {
    hide StreamInv, GateInv, LossInv, Next, Enabled, ResultIsWindow;
    OthersMoveOn(st, step, c);
    OthersLeaveStreams(st, step);
    FailedIsWindow(st.streams.read, st.streams.diverted);
    if c in st.callers {
      assert CallerInv(st.callers[c], st);
    }
  }

  lemma {:induction false} FailedIsWindow(read: seq<string>, diverted: seq<bool>)
    ensures ResultIsWindow(Failed, read, diverted)
  {
  }

  lemma {:induction false} BeginKeepsCaller(st: State, c: Caller, written: bool, d: Caller)
    requires Inv(st) && Enabled(st, Begin(c, written)) && d in st.callers
    ensures var after := Next(st, Begin(c, written)); CallerInv(after.callers[d], after)
  {
    assert st.gate == Some(c) && CallerInv(st.callers[d], st) && CallerInv(st.callers[c], st);
    assert d != c ==> !Inside(st.callers[d]);
  }

  lemma {:induction false} CollectKeepsCaller(st: State, c: Caller, d: Caller)
    requires Inv(st) && Enabled(st, Collect(c)) && d in st.callers
    ensures var after := Next(st, Collect(c)); CallerInv(after.callers[d], after)
  {
    assert st.gate == Some(c) && CallerInv(st.callers[d], st) && CallerInv(st.callers[c], st);
    assert d != c ==> !Inside(st.callers[d]);
    assert st.streams.read[st.callers[c].from..] == st.streams.read[st.callers[c].from..|st.streams.read|];
  }

  lemma {:induction false} SliceOfSnoc<T>(s: seq<T>, x: T, a: nat, b: nat)
    requires a <= b <= |s|
    ensures (s + [x])[a..b] == s[a..b] && (s + [x])[a..] == s[a..] + [x]
  {
  }

  lemma {:induction false} ConsumeKeepsCaller(st: State, line: string, c: Caller)
    requires Inv(st) && Enabled(st, Consume(line)) && c in st.callers
    ensures var after := Next(st, Consume(line)); CallerInv(after.callers[c], after)
  {
    hide EndsCapture, StreamInv, LossInv;
    var p := st.callers[c];
    assert CallerInv(p, st);
    if p.Capturing? {
      assert st.gate == Some(c);
      SliceOfSnoc(st.streams.read, line, p.from, p.from);
    } else if (p.Leaving? || p.Finished?) && p.result.Ok? {
      SliceOfSnoc(st.streams.read, line, p.result.from, p.result.to);
    }
  }

  predicate Legal(st: State, steps: seq<Step>)
    decreases |steps|
  {
    steps != [] ==> Enabled(st, steps[0]) && Legal(Next(st, steps[0]), steps[1..])
  }

  function Run(st: State, steps: seq<Step>): State
    requires Legal(st, steps)
    decreases |steps|
  {
    if steps == [] then st else Run(Next(st, steps[0]), steps[1..])
  }

  lemma {:induction false} RunKeepsInv(st: State, steps: seq<Step>)
    requires Inv(st) && Legal(st, steps)
    ensures Inv(Run(st, steps))
    decreases |steps|
  {
    if steps != [] {
      StepKeepsInv(st, steps[0]);
      RunKeepsInv(Next(st, steps[0]), steps[1..]);
    }
  }

  /** Every interleaving of any number of callers with the reader: one capture at a time, nothing lost or doubled. */
  lemma {:induction false} CaptureSafety(steps: seq<Step>)
    requires Legal(INITIAL, steps)
    ensures var st := Run(INITIAL, steps);
            && (forall c, d :: c in st.callers && d in st.callers && Inside(st.callers[c]) && Inside(st.callers[d]) ==> c == d)
            && LoggedLines(st.streams.log) == st.streams.read
            && |st.streams.diverted| == |st.streams.read|
            && Side(st.streams.read, st.streams.diverted, true) == st.streams.captured
            && Side(st.streams.read, st.streams.diverted, false) == st.streams.parsed
  {
    RunKeepsInv(INITIAL, steps);
  }

  /**
    * Every interleaving again: at most one announcement for each opening, nothing fed to the parser left unfinished
    * behind a closed console, and a lost console closed once no tear-down is under way.
    */
  lemma {:induction false} LossSafety(steps: seq<Step>)
    requires Legal(INITIAL, steps)
    ensures var st := Run(INITIAL, steps);
            && st.console.announced <= st.console.opens
            && (!st.console.isOpen ==> st.streams.flushedTo == |st.streams.parsed|)
            && (st.console.disconnected && st.console.toWake == 0 && st.console.toClose == 0 ==> !st.console.isOpen)
  {
    RunKeepsInv(INITIAL, steps);
  }

  /** A capture on a lost console has been woken, or will be. */
  ghost predicate Awake(st: State) {
    st.console.disconnected && st.buffer.active && !st.buffer.done ==> st.console.toWake > 0
  }

  /** A capture armed on a console already lost, behind the waking and ahead of the closing. */
  ghost predicate ArmsLate(st: State, step: Step) {
    && step.Begin? && step.written
    && st.console.isOpen && !st.console.terminal && st.console.disconnected && st.console.toWake == 0
  }

  lemma {:induction false} StepWakesIff(st: State, step: Step)
    requires Enabled(st, step) && Awake(st)
    ensures Awake(Next(st, step)) <==> !ArmsLate(st, step)
  {
    hide EndsCapture;
    if IsCallers(step) {
      CallersWakeIff(st, step);
    }
  }

  lemma {:induction false} CallersWakeIff(st: State, step: Step)
    requires Enabled(st, step) && Awake(st) && IsCallers(step)
    ensures Awake(Next(st, step)) <==> !ArmsLate(st, step)
  {
  }

  /** The whole tear-down by whoever notices first, nobody moving meanwhile. */
  function HandledLoss(st: State): State {
    if st.console.disconnected then st else Told(LostClosed(Woken(Noticed(st))))
  }

  /** And the caller whose write failed goes on to leave. */
  function HandledFailure(st: State, c: Caller): State
    requires c in st.callers
  {
    Move(HandledLoss(st), c, Leaving(st.callers[c].cmd, st.callers[c].sentinel, Failed))
  }

  lemma {:induction false} HandledInSteps(st: State, c: Caller)
    requires c in st.callers && st.callers[c].Failing? && !st.console.disconnected
    ensures var noticed := Next(st, TearDown(c));
      && Enabled(noticed, WakeUp) && Enabled(Woken(noticed), CloseLost) && Enabled(LostClosed(Woken(noticed)), Announce)
      && HandledFailure(st, c) == Told(LostClosed(Woken(noticed)))
  {
  }

  lemma {:induction false} HandledFailureKeepsInv(st: State, c: Caller)
    requires Inv(st) && c in st.callers && st.callers[c].Failing?
    ensures Inv(HandledFailure(st, c))
  {
    hide Inv, HandledFailure, Woken, LostClosed, Told;
    var noticed := Next(st, TearDown(c));
    StepKeepsInv(st, TearDown(c));
    if st.console.disconnected {
      HandledBefore(st, c);
    } else {
      HandledInSteps(st, c);
      StepKeepsInv(noticed, WakeUp);
      StepKeepsInv(Woken(noticed), CloseLost);
      StepKeepsInv(LostClosed(Woken(noticed)), Announce);
    }
  }

  lemma {:induction false} HandledBefore(st: State, c: Caller)
    requires c in st.callers && st.callers[c].Failing? && st.console.disconnected
    ensures HandledFailure(st, c) == Next(st, TearDown(c))
  {
  }

  ghost predicate AlwaysAwake(st: State, steps: seq<Step>)
    requires Legal(st, steps)
    decreases |steps|
  {
    Awake(st) && (steps != [] ==> AlwaysAwake(Next(st, steps[0]), steps[1..]))
  }

  ghost predicate NoneArmsLate(st: State, steps: seq<Step>)
    requires Legal(st, steps)
    decreases |steps|
  {
    steps != [] ==> !ArmsLate(st, steps[0]) && NoneArmsLate(Next(st, steps[0]), steps[1..])
  }

  /**
    * No run leaves a capture asleep on a lost console, nobody on the way to wake it, if and only if none is armed
    * between the waking and the closing of a tear-down.
    */
  lemma {:induction false} AlwaysAwakeIff(st: State, steps: seq<Step>)
    requires Legal(st, steps) && Awake(st)
    ensures AlwaysAwake(st, steps) <==> NoneArmsLate(st, steps)
    decreases |steps|
  {
    hide Awake, ArmsLate, Next, Enabled;
    if steps != [] {
      StepWakesIff(st, steps[0]);
      if Awake(Next(st, steps[0])) {
        AlwaysAwakeIff(Next(st, steps[0]), steps[1..]);
      } else {
        NeverAwake(Next(st, steps[0]), steps[1..]);
      }
    }
  }

  lemma {:induction false} NeverAwake(st: State, steps: seq<Step>)
    requires Legal(st, steps) && !Awake(st)
    ensures !AlwaysAwake(st, steps)
  {
  }

  /** What a finished caller is handed is made of exactly the lines read while it held the console. */
  lemma {:induction false} FinishedGetsItsWindow(steps: seq<Step>, c: Caller)
    requires Legal(INITIAL, steps)
    ensures var st := Run(INITIAL, steps);
            c in st.callers && st.callers[c].Finished? && st.callers[c].result.Ok? ==>
              var r := st.callers[c].result;
              && r.from <= r.to <= |st.streams.read| == |st.streams.diverted|
              && r.lines == st.streams.read[r.from..r.to]
              && forall i :: r.from <= i < r.to ==> st.streams.diverted[i]
  {
    RunKeepsInv(INITIAL, steps);
  }

  /**
   * End to end: if what the reader read during a caller's window is the echoed command, the command's output and the
   * sentinel, the caller gets the output, under the condition that makes it recognisable and only then.
   */
  lemma {:induction false} CaptureReturnsOutput(steps: seq<Step>, c: Caller, echoes: seq<string>, output: string)
    requires Legal(INITIAL, steps)
    requires var st := Run(INITIAL, steps);
             && c in st.callers && st.callers[c].Finished? && st.callers[c].result.Ok?
             && var p := st.callers[c];
             && p.result.from <= p.result.to <= |st.streams.read|
             && st.streams.read[p.result.from..p.result.to] ==
                echoes + Received(Split(output).0, Split(output).1, p.sentinel)
             && (forall i :: 0 <= i < |echoes| ==> PassesForCommand(echoes[i], p.cmd, p.sentinel))
             && IsPart(p.sentinel)
    ensures var p := Run(INITIAL, steps).callers[c];
            Output(p.result.lines, p.cmd, p.sentinel) == Restored(output) <==>
            Faithful(Split(output).0, Split(output).1, p.cmd, p.sentinel)
  {
    RunKeepsInv(INITIAL, steps);
    var p := Run(INITIAL, steps).callers[c];
    assert CallerInv(p, Run(INITIAL, steps));
    OutputReturnedIff(echoes, output, p.cmd, p.sentinel);
  }

  // ---- a console re-opened inside a window --------------------------------------------

  /** The openings the lines read during some steps came from, one number for each line. */
  function Origins(st: State, steps: seq<Step>): seq<nat>
    requires Legal(st, steps)
    decreases |steps|
  {
    if steps == [] then []
    else (if steps[0].Consume? then [st.console.opens] else []) + Origins(Next(st, steps[0]), steps[1..])
  }

  predicate Reads(steps: seq<Step>) { exists i :: 0 <= i < |steps| && steps[i].Consume? }

  /** No console is opened ahead of a line that is read. */
  predicate OneConsole(steps: seq<Step>)
    decreases |steps|
  {
    steps != [] ==> (steps[0].Open? ==> !Reads(steps[1..])) && OneConsole(steps[1..])
  }

  lemma {:induction false} OneConsoleIff(steps: seq<Step>)
    ensures OneConsole(steps) <==> forall i, j :: 0 <= i < j < |steps| && steps[i].Open? ==> !steps[j].Consume?
    decreases |steps|
  {
    if steps != [] {
      var rest := steps[1..];
      OneConsoleIff(rest);
      assert forall j :: 0 < j < |steps| ==> steps[j] == rest[j - 1];
      if OneConsole(steps) {
        forall i, j | 0 <= i < j < |steps| && steps[i].Open?
          ensures !steps[j].Consume?
        {
          assert steps[j] == rest[j - 1];
          if i > 0 {
            assert steps[i] == rest[i - 1];
          }
        }
      }
      if forall i, j :: 0 <= i < j < |steps| && steps[i].Open? ==> !steps[j].Consume? {
        forall i, j | 0 <= i < j < |rest| && rest[i].Open?
          ensures !rest[j].Consume?
        {
          assert rest[i] == steps[i + 1] && rest[j] == steps[j + 1];
        }
        if steps[0].Open? {
          forall j | 0 <= j < |rest|
            ensures !rest[j].Consume?
          {
            assert rest[j] == steps[j + 1];
          }
        }
      }
    }
  }

  lemma {:induction false} OpensGrow(st: State, step: Step)
    requires Enabled(st, step)
    ensures Next(st, step).console.opens == st.console.opens + if step.Open? then 1 else 0
    ensures |Next(st, step).streams.read| == |st.streams.read| + if step.Consume? then 1 else 0
  {
    if step.Consume? {
      ConsumeGrows(st, step.line);
      hide Consumed;
    } else {
      OthersLeaveStreams(st, step);
      OpensCounted(st, step);
      hide Next, Enabled;
    }
  }

  lemma {:induction false} ConsumeGrows(st: State, line: string)
    ensures var after := Consumed(st, line);
      after.console.opens == st.console.opens && |after.streams.read| == |st.streams.read| + 1 && after.callers == st.callers
  {
    hide EndsCapture;
  }

  lemma {:induction false} NoticedKeeps(st: State)
    ensures Noticed(st).console.opens == st.console.opens && Noticed(st).callers == st.callers
  {
  }

  lemma {:induction false} OpensCounted(st: State, step: Step)
    requires Enabled(st, step) && !step.Consume?
    ensures Next(st, step).console.opens == st.console.opens + if step.Open? then 1 else 0
  {
    if IsCallers(step) {
      CallersOpenNothing(st, step);
    } else {
      hide Noticed;
      NoticedKeeps(st);
    }
  }

  lemma {:induction false} CallersOpenNothing(st: State, step: Step)
    requires Enabled(st, step) && IsCallers(step)
    ensures Next(st, step).console.opens == st.console.opens
  {
    hide Noticed, Collected, Begun;
    NoticedKeeps(st);
    if step.Begin? {
      BegunKeeps(st, step.c, step.written);
    } else if step.Collect? {
      CollectedKeeps(st, step.c);
    }
  }

  lemma {:induction false} BegunKeeps(st: State, c: Caller, written: bool)
    requires c in st.callers
    ensures var after := Begun(st, c, written);
      after.console.opens == st.console.opens && forall d :: d in st.callers && d != c ==> d in after.callers && after.callers[d] == st.callers[d]
  {
  }

  lemma {:induction false} CollectedKeeps(st: State, c: Caller)
    requires c in st.callers && st.callers[c].Capturing?
    ensures var after := Collected(st, c);
      after.console.opens == st.console.opens && forall d :: d in st.callers && d != c ==> d in after.callers && after.callers[d] == st.callers[d]
  {
  }

  /** Every line read later came from this opening or a later one. */
  lemma {:induction false} OriginsGrow(st: State, steps: seq<Step>)
    requires Legal(st, steps)
    ensures forall k :: k in Origins(st, steps) ==> k >= st.console.opens
    ensures Origins(st, steps) != [] <==> Reads(steps)
    ensures |Run(st, steps).streams.read| == |st.streams.read| + |Origins(st, steps)|
    decreases |steps|
  {
    if steps != [] {
      OpensGrow(st, steps[0]);
      OriginsGrow(Next(st, steps[0]), steps[1..]);
      assert forall j :: 0 < j < |steps| ==> steps[j] == steps[1..][j - 1];
      if Reads(steps[1..]) {
        var i :| 0 <= i < |steps[1..]| && steps[1..][i].Consume?;
        assert steps[i + 1].Consume?;
      }
    }
  }

  /** Lines come from the console that is open now if and only if none is opened ahead of one of them. */
  lemma {:induction false} OriginsIff(st: State, steps: seq<Step>)
    requires Legal(st, steps)
    ensures (forall k :: k in Origins(st, steps) ==> k == st.console.opens) <==> OneConsole(steps)
    decreases |steps|
  {
    if steps != [] {
      var after := Next(st, steps[0]);
      hide Next, Reads;
      OpensGrow(st, steps[0]);
      OriginsIff(after, steps[1..]);
      OriginsGrow(after, steps[1..]);
      var later := Origins(after, steps[1..]);
      assert forall k :: k in Origins(st, steps) <==> k in later || (steps[0].Consume? && k == st.console.opens);
      if steps[0].Open? && later != [] {
        assert later[0] in later;
      }
    }
  }

  /** A caller whose capture is on stays so until it collects. */
  lemma {:induction false} CapturingStays(st: State, steps: seq<Step>, c: Caller)
    requires Legal(st, steps) && c in st.callers && st.callers[c].Capturing?
    requires forall i :: 0 <= i < |steps| ==> steps[i] != Collect(c)
    ensures var after := Run(st, steps); c in after.callers && after.callers[c] == st.callers[c]
    decreases |steps|
  {
    if steps != [] {
      CapturingStaysOnce(st, steps[0], c);
      assert forall j :: 0 < j < |steps| ==> steps[j] == steps[1..][j - 1];
      CapturingStays(Next(st, steps[0]), steps[1..], c);
    }
  }

  lemma {:induction false} CapturingStaysOnce(st: State, step: Step, c: Caller)
    requires Enabled(st, step) && c in st.callers && st.callers[c].Capturing? && step != Collect(c)
    ensures c in Next(st, step).callers && Next(st, step).callers[c] == st.callers[c]
  {
    if IsCallers(step) {
      AnothersStep(st, step, c);
    } else if step.Consume? {
      ConsumeGrows(st, step.line);
      hide Consumed;
    } else {
      ConsoleMovesNobody(st, step);
    }
  }

  lemma {:induction false} AnothersStep(st: State, step: Step, c: Caller)
    requires Enabled(st, step) && c in st.callers && st.callers[c].Capturing? && step != Collect(c) && IsCallers(step)
    ensures c in Next(st, step).callers && Next(st, step).callers[c] == st.callers[c]
  {
    if step.c == c {
      OwnStepCollects(st, step, c);
    } else {
      LeavesOthers(st, step, c);
    }
  }

  /** All a capturing caller can do is collect. */
  lemma {:induction false} OwnStepCollects(st: State, step: Step, c: Caller)
    requires Enabled(st, step) && c in st.callers && st.callers[c].Capturing? && IsCallers(step) && step.c == c
    ensures step == Collect(c)
  {
  }

  lemma {:induction false} LeavesOthers(st: State, step: Step, c: Caller)
    requires Enabled(st, step) && c in st.callers && IsCallers(step) && step.c != c
    ensures c in Next(st, step).callers && Next(st, step).callers[c] == st.callers[c]
  {
    hide Noticed, Collected, Begun;
    NoticedKeeps(st);
    if step.Begin? {
      BegunKeeps(st, step.c, step.written);
    } else if step.Collect? {
      CollectedKeeps(st, step.c);
    }
  }

  /**
    * What a caller collects, from the moment its command was written: exactly the lines read meanwhile, and all of them
    * from the console it wrote to if and only if no console was opened ahead of one of them. Closing and opening do
    * not end a capture.
    */
  lemma {:induction false} WindowIsOneConsoleIff(st: State, meanwhile: seq<Step>, c: Caller)
    requires Inv(st) && c in st.callers && st.callers[c].Capturing? && st.callers[c].from == |st.streams.read|
    requires Legal(st, meanwhile) && forall i :: 0 <= i < |meanwhile| ==> meanwhile[i] != Collect(c)
    ensures var late := Run(st, meanwhile);
      && Enabled(late, Collect(c))
      && Next(late, Collect(c)).callers[c].Leaving?
      && var r := Next(late, Collect(c)).callers[c].result;
      && |st.streams.read| <= |late.streams.read|
      && r.Ok? && r.lines == late.streams.read[|st.streams.read|..] && |r.lines| == |Origins(st, meanwhile)|
      && ((forall k :: k in Origins(st, meanwhile) ==> k == st.console.opens) <==>
          forall i, j :: 0 <= i < j < |meanwhile| && meanwhile[i].Open? ==> !meanwhile[j].Consume?)
  {
    RunKeepsInv(st, meanwhile);
    CapturingStays(st, meanwhile, c);
    OriginsGrow(st, meanwhile);
    OriginsIff(st, meanwhile);
    OneConsoleIff(meanwhile);
    hide OneConsole, Origins, Reads, GateInv, StreamInv, LossInv, Run, Legal;
    var late := Run(st, meanwhile);
    HolderCollects(late, c);
  }

  lemma {:induction false} HolderCollects(st: State, c: Caller)
    requires Inv(st) && c in st.callers && st.callers[c].Capturing?
    ensures Enabled(st, Collect(c))
    ensures var p := Next(st, Collect(c)).callers[c];
      p.Leaving? && p.result == Ok(st.streams.read[st.callers[c].from..], st.callers[c].from, |st.streams.read|)
  {
    hide GateInv, StreamInv, LossInv;
    assert CallerInv(st.callers[c], st);
  }

  /**
    * The console closed and opened again inside a capture: what the next one says goes to the waiting caller, and the
    * parser never sees it.
    */
  lemma {:induction false} NextConsoleAnswers(c: Caller, cmd: string, sentinel: string, line: string)
    requires sentinel != ""
    ensures var steps := [Step.Open, Step.Call(c, cmd, sentinel), Acquire(c), Begin(c, true), Step.Close, Step.Open,
                          Consume(line), Collect(c)];
      && Legal(INITIAL, steps)
      && var st := Run(INITIAL, steps);
      && st.console.opens == 2 && st.streams.parsed == [] && st.streams.read == [line]
      && c in st.callers && st.callers[c] == Leaving(cmd, sentinel, Ok([line], 0, 1))
  {
    var t4, head := Armed(c, cmd, sentinel), [Step.Open, Step.Call(c, cmd, sentinel), Acquire(c), Begin(c, true)];
    var tail := [Step.Close, Step.Open, Consume(line), Collect(c)];
    ArmedRun(c, cmd, sentinel);
    ReopenedRun(c, cmd, sentinel, line);
    RunInTwo(INITIAL, head, tail);
    assert head + tail == [Step.Open, Step.Call(c, cmd, sentinel), Acquire(c), Begin(c, true), Step.Close, Step.Open,
                           Consume(line), Collect(c)];
  }

  /** The first caller of the first console, its command written. */
  function Armed(c: Caller, cmd: string, sentinel: string): State {
    State(Console(true, false, false, 1, 0, 0, 0, 0), Some(c), Buffer(true, [], sentinel, false),
          map[c := Capturing(cmd, sentinel, 0)], INITIAL.streams)
  }

  lemma {:induction false} ArmedRun(c: Caller, cmd: string, sentinel: string)
    requires sentinel != ""
    ensures var steps := [Step.Open, Step.Call(c, cmd, sentinel), Acquire(c), Begin(c, true)];
      Legal(INITIAL, steps) && Run(INITIAL, steps) == Armed(c, cmd, sentinel)
  {
    var t1 := Next(INITIAL, Step.Open);
    var t2 := Next(t1, Step.Call(c, cmd, sentinel));
    var t3 := Next(t2, Acquire(c));
    var t4 := Next(t3, Begin(c, true));
    assert t4.callers == map[c := Capturing(cmd, sentinel, 0)];
    FourSteps(INITIAL, Step.Open, Step.Call(c, cmd, sentinel), Acquire(c), Begin(c, true));
  }

  lemma {:induction false} ReopenedRun(c: Caller, cmd: string, sentinel: string, line: string)
    ensures var st, steps := Armed(c, cmd, sentinel), [Step.Close, Step.Open, Consume(line), Collect(c)];
      && Legal(st, steps)
      && var after := Run(st, steps);
      && after.console.opens == 2 && after.streams.parsed == [] && after.streams.read == [line]
      && c in after.callers && after.callers[c] == Leaving(cmd, sentinel, Ok([line], 0, 1))
  {
    hide EndsCapture;
    var st := Armed(c, cmd, sentinel);
    var t1 := Next(st, Step.Close);
    var t2 := Next(t1, Step.Open);
    var t3 := Next(t2, Consume(line));
    FourSteps(st, Step.Close, Step.Open, Consume(line), Collect(c));
  }

  lemma {:induction false} FourSteps(st: State, a: Step, b: Step, c: Step, d: Step)
    requires Enabled(st, a) && Enabled(Next(st, a), b) && Enabled(Next(Next(st, a), b), c)
    requires Enabled(Next(Next(Next(st, a), b), c), d)
    ensures Legal(st, [a, b, c, d]) && Run(st, [a, b, c, d]) == Next(Next(Next(Next(st, a), b), c), d)
  {
    hide Next, Enabled;
    var t3 := Next(Next(Next(st, a), b), c);
    Ahead(t3, d, []);
    Ahead(Next(Next(st, a), b), c, [d]);
    Ahead(Next(st, a), b, [c, d]);
    Ahead(st, a, [b, c, d]);
    assert [d] + [] == [d] && [c] + [d] == [c, d] && [b] + [c, d] == [b, c, d] && [a] + [b, c, d] == [a, b, c, d];
  }

  lemma {:induction false} Ahead(st: State, step: Step, rest: seq<Step>)
    requires Enabled(st, step) && Legal(Next(st, step), rest)
    ensures Legal(st, [step] + rest) && Run(st, [step] + rest) == Run(Next(st, step), rest)
  {
    hide Next, Enabled;
    assert ([step] + rest)[1..] == rest;
  }

  lemma {:induction false} RunInTwo(st: State, head: seq<Step>, tail: seq<Step>)
    requires Legal(st, head) && Legal(Run(st, head), tail)
    ensures Legal(st, head + tail) && Run(st, head + tail) == Run(Run(st, head), tail)
    decreases |head|
  {
    hide Next, Enabled;
    if head == [] {
      assert head + tail == tail;
    } else {
      assert (head + tail)[1..] == head[1..] + tail;
      RunInTwo(Next(st, head[0]), head[1..], tail);
    }
  }

  /**
    * A loss is noticed and the waiting captures are woken; a caller arms its own before the console is closed, and
    * sleeps on a console that is gone until its clock runs out.
    */
  lemma {:induction false} AsleepOnALostConsole(c: Caller, cmd: string, sentinel: string)
    requires sentinel != ""
    ensures var steps := [Step.Open, Step.Call(c, cmd, sentinel), Acquire(c), Lost, WakeUp, Begin(c, true), CloseLost,
                          Announce];
      && Legal(INITIAL, steps)
      && var st := Run(INITIAL, steps);
      && c in st.callers && st.callers[c].Capturing? && st.buffer.active && !st.buffer.done
      && st.console.disconnected && !st.console.isOpen && st.console.announced == 1
  {
    var head := [Step.Open, Step.Call(c, cmd, sentinel), Acquire(c), Lost];
    var tail := [WakeUp, Begin(c, true), CloseLost, Announce];
    NoticedRun(c, cmd, sentinel);
    SleepingRun(c, cmd, sentinel);
    RunInTwo(INITIAL, head, tail);
    assert head + tail == [Step.Open, Step.Call(c, cmd, sentinel), Acquire(c), Lost, WakeUp, Begin(c, true), CloseLost,
                           Announce];
  }

  /** The first caller inside the gate, the loss noticed. */
  function InsideLost(c: Caller, cmd: string, sentinel: string): State {
    State(Console(true, false, true, 1, 1, 0, 0, 0), Some(c), INITIAL.buffer, map[c := Entered(cmd, sentinel)],
          INITIAL.streams)
  }

  lemma {:induction false} NoticedRun(c: Caller, cmd: string, sentinel: string)
    requires sentinel != ""
    ensures var steps := [Step.Open, Step.Call(c, cmd, sentinel), Acquire(c), Lost];
      Legal(INITIAL, steps) && Run(INITIAL, steps) == InsideLost(c, cmd, sentinel)
  {
    var t1 := Next(INITIAL, Step.Open);
    var t2 := Next(t1, Step.Call(c, cmd, sentinel));
    var t3 := Next(t2, Acquire(c));
    assert t3.callers == map[c := Entered(cmd, sentinel)];
    FourSteps(INITIAL, Step.Open, Step.Call(c, cmd, sentinel), Acquire(c), Lost);
  }

  lemma {:induction false} SleepingRun(c: Caller, cmd: string, sentinel: string)
    ensures var st, steps := InsideLost(c, cmd, sentinel), [WakeUp, Begin(c, true), CloseLost, Announce];
      && Legal(st, steps)
      && var after := Run(st, steps);
      && c in after.callers && after.callers[c].Capturing? && after.buffer.active && !after.buffer.done
      && after.console.disconnected && !after.console.isOpen && after.console.announced == 1
  {
    var st := InsideLost(c, cmd, sentinel);
    var t1 := Next(st, WakeUp);
    var t2 := Next(t1, Begin(c, true));
    FourSteps(st, WakeUp, Begin(c, true), CloseLost, Announce);
  }
}
