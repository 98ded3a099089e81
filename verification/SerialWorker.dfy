/** The worker that owns a console: each method is one critical section of a caller or of the reader. */
module SerialWorker {
  import opened Common
  import opened CaptureProtocol

  class Worker {
    var isOpen: bool
    var terminal: bool
    var gate: Option<Caller>
    var captureActive: bool
    var captureLines: seq<string>
    var captureSentinel: string
    var captureDone: bool
    var log: seq<LogEntry>
    /** What the parser has been fed, and how much of it has been finished. */
    var parsed: seq<string>
    var flushedTo: nat
    /** Set once per session, so that the reader and a failing writer do not both announce a loss. */
    var disconnected: bool
    /** How often the operator was told. */
    var announced: nat
    /** History: where each caller is, everything read, and where it went. */
    ghost var callers: map<Caller, Phase>
    ghost var captured: seq<string>
    ghost var read: seq<string>
    ghost var diverted: seq<bool>
    ghost var opens: nat
    /** Tear-downs other threads have under way. */
    ghost var toWake: nat
    ghost var toClose: nat
    ghost var toAnnounce: nat

    ghost function OnConsole(): Console
      reads this`isOpen, this`terminal, this`disconnected, this`opens
      reads this`toWake, this`toClose, this`toAnnounce, this`announced
    {
      Console(isOpen, terminal, disconnected, opens, toWake, toClose, toAnnounce, announced)
    }

    ghost function InBuffer(): Buffer
      reads this`captureActive, this`captureLines, this`captureSentinel, this`captureDone
    {
      Buffer(captureActive, captureLines, captureSentinel, captureDone)
    }

    ghost function InStreams(): Streams
      reads this`log, this`parsed, this`flushedTo, this`captured, this`read, this`diverted
    {
      Streams(log, parsed, flushedTo, captured, read, diverted)
    }

    ghost function Abs(): State
      reads this
    {
      State(OnConsole(), gate, InBuffer(), callers, InStreams())
    }

    constructor ()
      ensures Abs() == INITIAL
    {
      isOpen, terminal, gate := false, false, None;
      captureActive, captureLines, captureSentinel, captureDone := false, [], "", false;
      log, parsed, flushedTo, disconnected, announced := [], [], 0, false, 0;
      opens, toWake, toClose, toAnnounce := 0, 0, 0, 0;
      callers, captured, read, diverted := map[], [], [], [];
    }

    /** A caller asks for a capture; the sentinel is its own. */
    ghost method Call(c: Caller, cmd: string, sentinel: string)
      requires Enabled(Abs(), Step.Call(c, cmd, sentinel))
      modifies this`callers
      ensures Abs() == Next(old(Abs()), Step.Call(c, cmd, sentinel))
    {
      callers := callers[c := Queued(cmd, sentinel)];
    }

    /** The gate stayed taken for as long as the caller cared to wait. */
    ghost method Refuse(c: Caller)
      requires Enabled(Abs(), GiveUp(c))
      modifies this`callers
      ensures Abs() == Next(old(Abs()), GiveUp(c))
    {
      callers := callers[c := Finished(callers[c].cmd, callers[c].sentinel, Failed)];
    }

    method AcquireGate(c: Caller)
      requires Enabled(Abs(), Acquire(c))
      modifies this`gate, this`callers
      ensures Abs() == Next(old(Abs()), Acquire(c))
    {
      gate := Some(c);
      callers := callers[c := Entered(callers[c].cmd, callers[c].sentinel)];
    }

    /** An empty buffer, armed or not. */
    method SetBuffer(active: bool, sentinel: string, done: bool)
      modifies this`captureActive, this`captureLines, this`captureSentinel, this`captureDone
      ensures InBuffer() == Buffer(active, [], sentinel, done)
    {
      captureLines := [];
      captureSentinel := sentinel;
      captureDone := done;
      captureActive := active;
    }

    /**
      * Arm the buffer and write the command; `written` is false when the device was lost under the write, and then the
      * caller goes on to tear the console down.
      */
    method BeginCapture(c: Caller, sentinel: string, written: bool) returns (armed: bool)
      requires c in callers && callers[c].Entered? && sentinel == callers[c].sentinel
      modifies this`captureActive, this`captureLines, this`captureSentinel, this`captureDone, this`callers
      ensures Abs() == Begun(old(Abs()), c, written)
      ensures armed <==> old(isOpen) && !old(terminal) && written
    {
      hide InBuffer;
      ghost var p := callers[c];
      if !isOpen || terminal {
        callers := callers[c := Leaving(p.cmd, p.sentinel, Failed)];
        return false;
      }
      SetBuffer(written, sentinel, false);
      callers := callers[c := if written then Capturing(p.cmd, p.sentinel, |read|) else Failing(p.cmd, p.sentinel)];
      return written;
    }

    /** Into the capture buffer instead of the parser. */
    method DivertLine(decoded: string)
      modifies this`captureLines, this`captureDone, this`captured
      ensures InBuffer() == Diverted(old(InBuffer()), decoded) && captured == old(captured) + [decoded]
    {
      captureLines := captureLines + [decoded];
      captured := captured + [decoded];
      if EndsCapture(decoded, captureSentinel) {
        captureDone := true;
      }
    }

    /** Into the log, and into the history of what was read. */
    method WriteLogLine(decoded: string)
      modifies this`log, this`read, this`diverted
      ensures InStreams() == Recorded(old(InStreams()), decoded, captureActive)
    {
      log := log + [LogLine(decoded)];
      read := read + [decoded];
      diverted := diverted + [captureActive];
    }

    /** Log one line, then divert it to the capture in flight or feed it to the parser. */
    method ConsumeLine(decoded: string)
      modifies this`log, this`parsed, this`captureLines, this`captureDone, this`captured, this`read, this`diverted
      ensures Abs() == Consumed(old(Abs()), decoded)
    {
      hide Diverted, Recorded, OnConsole;
      WriteLogLine(decoded);
      if captureActive {
        DivertLine(decoded);
        return;
      }
      parsed := parsed + [decoded];
    }

    /** Woken or timed out: take the buffer, disarm, and make the output of it. */
    method CollectOutput(c: Caller, cmd: string, sentinel: string) returns (output: string)
      requires c in callers && callers[c].Capturing? && cmd == callers[c].cmd && sentinel == callers[c].sentinel
      modifies this`captureActive, this`captureLines, this`captureSentinel, this`captureDone, this`callers
      ensures Abs() == Collected(old(Abs()), c)
      ensures output == Output(old(captureLines), cmd, sentinel)
    {
      hide OnConsole;
      var lines := captureLines;
      SetBuffer(false, "", captureDone);
      ghost var p := callers[c];
      callers := callers[c := Leaving(p.cmd, p.sentinel, Ok(lines, p.from, |read|))];
      output := FilterLines(lines, cmd, sentinel);
    }

    method ReleaseGate(c: Caller)
      requires Enabled(Abs(), Release(c))
      modifies this`gate, this`callers
      ensures Abs() == Next(old(Abs()), Release(c))
    {
      gate := None;
      callers := callers[c := Finished(callers[c].cmd, callers[c].sentinel, callers[c].result)];
    }

    /** A requested open, behind a close. */
    method Open()
      requires Enabled(Abs(), Step.Open)
      modifies this`isOpen, this`disconnected, this`opens
      ensures Abs() == Next(old(Abs()), Step.Open)
    {
      hide InBuffer, InStreams;
      isOpen, disconnected := true, false;
      opens := opens + 1;
    }

    /** The parser finishes what it was fed. */
    method FinishParsing()
      modifies this`flushedTo
      ensures InStreams() == Flushed(old(InStreams()))
    {
      flushedTo := |parsed|;
    }

    /** What is open is closed, and the parser finishes what it was fed. A waiting capture is left to its clock. */
    method Close()
      modifies this`isOpen, this`terminal, this`flushedTo
      ensures Abs() == ClosedUp(old(Abs()))
    {
      hide InBuffer, InStreams, Flushed;
      isOpen, terminal := false, false;
      FinishParsing();
    }

    /** The first to notice a loss does all of the tear-down itself, one step after the other. */
    method HandleDeviceLost()
      modifies this`isOpen, this`terminal, this`captureDone, this`flushedTo, this`disconnected, this`announced
      ensures Abs() == HandledLoss(old(Abs()))
    {
      hide InStreams, Flushed;
      var alreadyHandled := disconnected;
      disconnected := true;
      if alreadyHandled {
        return;
      }
      captureDone := true;
      Close();
      announced := announced + 1;
    }

    /** The write failed: the caller is the one who noticed the loss. */
    method FailWrite(c: Caller)
      requires c in callers && callers[c].Failing?
      modifies this`isOpen, this`terminal, this`captureDone, this`flushedTo, this`disconnected, this`announced
      modifies this`callers
      ensures Abs() == HandledFailure(old(Abs()), c)
    {
      hide HandledLoss;
      HandleDeviceLost();
      callers := callers[c := Leaving(callers[c].cmd, callers[c].sentinel, Failed)];
    }
  }

  /** The reader at work while a capture is on: every line goes to its buffer. */
  method ReadReply(w: Worker, c: Caller, reply: seq<string>)
    requires Inv(w.Abs()) && w.isOpen && !w.terminal && w.captureActive && w.captureLines == []
    requires c in w.callers && w.callers[c].Capturing?
    modifies w
    ensures Inv(w.Abs())
    ensures w.callers == old(w.callers) && w.gate == old(w.gate)
    ensures w.captureLines == reply && w.parsed == old(w.parsed)
  {
    hide Inv;
    for i := 0 to |reply|
      invariant Inv(w.Abs()) && w.isOpen && !w.terminal && w.captureActive
      invariant w.callers == old(w.callers) && w.gate == old(w.gate)
      invariant w.captureLines == reply[..i] && w.parsed == old(w.parsed)
    {
      StepKeepsInv(w.Abs(), Consume(reply[i]));
      w.ConsumeLine(reply[i]);
    }
    assert reply[..|reply|] == reply;
  }

  /** Inside the gate: arm, read, collect; or find out why not. */
  method HoldConsole(w: Worker, c: Caller, cmd: string, sentinel: string, written: bool, reply: seq<string>)
    returns (output: Option<string>)
    requires Inv(w.Abs()) && c in w.callers && w.callers[c] == Entered(cmd, sentinel)
    modifies w
    ensures Inv(w.Abs()) && w.gate == old(w.gate) && c in w.callers && w.callers[c].Leaving?
    ensures output.Some? <==> old(w.isOpen) && !old(w.terminal) && written
    ensures output.Some? ==> output.value == Output(reply, cmd, sentinel)
    ensures output.None? ==> w.log == old(w.log)
    ensures w.parsed == old(w.parsed)
    ensures old(w.isOpen) && !old(w.terminal) && !written ==> w.disconnected && w.isOpen == old(w.disconnected)
  {
    hide Inv, Output, EndsCapture;
    output := None;
    var usable := w.isOpen && !w.terminal;
    StepKeepsInv(w.Abs(), Begin(c, written));
    var armed := w.BeginCapture(c, sentinel, written);
    if armed {
      ReadReply(w, c, reply);
      StepKeepsInv(w.Abs(), Collect(c));
      var text := w.CollectOutput(c, cmd, sentinel);
      output := Some(text);
    } else if usable {
      HandledFailureKeepsInv(w.Abs(), c);
      w.FailWrite(c);
    }
  }

  /**
    * One caller's whole way through the protocol, the reader consuming `reply` meanwhile. A gate that is taken stays
    * taken: the caller queues, runs out of patience and is refused.
    */
  method CaptureCommand(w: Worker, c: Caller, cmd: string, sentinel: string, written: bool, reply: seq<string>)
    returns (output: Option<string>)
    requires Inv(w.Abs()) && Enabled(w.Abs(), Step.Call(c, cmd, sentinel))
    modifies w
    ensures Inv(w.Abs()) && w.gate == old(w.gate)
    ensures output.Some? <==> old(w.gate).None? && old(w.isOpen) && !old(w.terminal) && written
    ensures output.Some? ==> output.value == Output(reply, cmd, sentinel)
    ensures output.None? ==> w.log == old(w.log)
    ensures w.parsed == old(w.parsed)
    ensures old(w.gate).None? && old(w.isOpen) && !old(w.terminal) && !written ==>
              w.disconnected && w.isOpen == old(w.disconnected)
  {
    hide Inv, Output, EndsCapture;
    StepKeepsInv(w.Abs(), Step.Call(c, cmd, sentinel));
    w.Call(c, cmd, sentinel);
    if w.gate.Some? {
      StepKeepsInv(w.Abs(), GiveUp(c));
      w.Refuse(c);
      return None;
    }
    StepKeepsInv(w.Abs(), Acquire(c));
    w.AcquireGate(c);
    output := HoldConsole(w, c, cmd, sentinel, written, reply);
    StepKeepsInv(w.Abs(), Release(c));
    w.ReleaseGate(c);
  }
}
