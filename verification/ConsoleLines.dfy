/**
 * Console text on its way to the browser: queued by the reader thread, taken in batches by the reader or by a
 * timer thread, and delivered by whichever thread took it into a bounded ring.
 */
module ConsoleLines {
  import opened Common
  import P = SysMonParser

  const CONSOLE_BUFFER_MAX: nat := 500

  /**
   * `queued`, `taken` and `delivered` are the whole history since the last reset: lines queued, batches taken out
   * of the pending list, batches handed to the callback. `inHand` are the batches some thread has taken and not
   * yet delivered.
   */
  datatype State = State(
    pending: seq<string>,
    readerMustFlush: bool,
    timerArmed: bool,
    inHand: seq<seq<string>>,
    buffer: seq<string>,
    queued: seq<string>,
    taken: seq<seq<string>>,
    delivered: seq<seq<string>>)

  /** One atomic step of one thread: a critical section, or one delivery. */
  datatype Step =
    | Queue(text: string)
    | ReaderTake
    | TimerTake
    | Deliver(which: nat)

  const EMPTY: State := State([], false, false, [], [], [], [], [])

  predicate Enabled(st: State, step: Step) {
    match step
    case Queue(_) => !st.readerMustFlush
    case ReaderTake => true
    case TimerTake => true
    case Deliver(i) => i < |st.inHand|
  }

  function Take(st: State): State {
    if st.pending == [] then st.(timerArmed := false)
    else st.(pending := [], timerArmed := false, inHand := st.inHand + [st.pending], taken := st.taken + [st.pending])
  }

  function Next(st: State, step: Step): State
    requires Enabled(st, step)
  {
    match step
    case Queue(text) =>
      var full := |st.pending| + 1 >= P.CONSOLE_BATCH_SIZE;
      st.(pending := st.pending + [text], queued := st.queued + [text], readerMustFlush := full, timerArmed := !full)
    case ReaderTake => Take(st).(readerMustFlush := false)
    case TimerTake => Take(st)
    case Deliver(i) =>
      st.(inHand := st.inHand[..i] + st.inHand[i + 1..],
          delivered := st.delivered + [st.inHand[i]],
          buffer := LastN(st.buffer + st.inHand[i], CONSOLE_BUFFER_MAX))
  }

  ghost predicate Inv(st: State) {
    // Every line is in exactly one place, in the order it was queued.
    && Flatten(st.taken) + st.pending == st.queued
    && (forall b :: b in st.taken ==> 1 <= |b| <= P.CONSOLE_BATCH_SIZE)
    && multiset(st.delivered) + multiset(st.inHand) == multiset(st.taken)
    && st.buffer == LastN(Flatten(st.delivered), CONSOLE_BUFFER_MAX)
    // A waiting line always has somebody who will take it.
    && (st.pending != [] ==> st.timerArmed || st.readerMustFlush)
    && (st.timerArmed ==> st.pending != [])
    && |st.pending| <= P.CONSOLE_BATCH_SIZE
    && (|st.pending| == P.CONSOLE_BATCH_SIZE ==> st.readerMustFlush)
  }

  lemma {:induction false} LastNAppend<T>(a: seq<T>, b: seq<T>, n: nat)
    ensures LastN(LastN(a, n) + b, n) == LastN(a + b, n)
  {
  }

  lemma {:induction false} StepKeepsInv(st: State, step: Step)
    requires Inv(st) && Enabled(st, step)
    ensures Inv(Next(st, step))
  {
    match step
    case Queue(text) =>
      assert Flatten(st.taken) + (st.pending + [text]) == st.queued + [text];
    case ReaderTake => TakeKeepsInv(st);
    case TimerTake => TakeKeepsInv(st);
    case Deliver(i) => DeliverKeepsInv(st, i);
  }

  lemma {:induction false} DeliverKeepsInv(st: State, i: nat)
    requires Inv(st) && i < |st.inHand|
    ensures Inv(Next(st, Deliver(i)))
  {
    FlattenSnoc(st.delivered, st.inHand[i]);
    LastNAppend(Flatten(st.delivered), st.inHand[i], CONSOLE_BUFFER_MAX);
    RemoveOne(st.inHand, i);
  }

  lemma {:induction false} RemoveOne<T>(s: seq<T>, i: nat)
    requires i < |s|
    ensures multiset(s[..i] + s[i + 1..]) + multiset{s[i]} == multiset(s)
  {
    assert s == s[..i] + [s[i]] + s[i + 1..];
  }

  lemma {:induction false} TakeKeepsInv(st: State)
    requires Inv(st)
    ensures Inv(Take(st)) && Take(st).pending == []
  {
    hide Flatten, LastN;
    FlattenSnoc(st.taken, st.pending);
    if st.pending != [] {
      var after := Take(st);
      assert multiset(after.inHand) == multiset(st.inHand) + multiset{st.pending};
      assert multiset(after.taken) == multiset(st.taken) + multiset{st.pending};
    }
  }

  predicate Legal(st: State, steps: seq<Step>)
    decreases |steps|
  {
    steps != [] ==> Enabled(st, steps[0]) && Legal(Next(st, steps[0]), steps[1..])
  }

  function Run(st: State, steps: seq<Step>): State
    requires Legal(st, steps)
    decreases |steps|
  {
    if steps == [] then st else Run(Next(st, steps[0]), steps[1..])
  }

  lemma {:induction false} RunKeepsInv(st: State, steps: seq<Step>)
    requires Inv(st) && Legal(st, steps)
    ensures Inv(Run(st, steps))
    decreases |steps|
  {
    if steps != [] {
      StepKeepsInv(st, steps[0]);
      RunKeepsInv(Next(st, steps[0]), steps[1..]);
    }
  }

  /** No interleaving of the reader with any number of late timers loses, repeats or reorders a line. */
  lemma {:induction false} LinesAreConserved(steps: seq<Step>)
    requires Legal(EMPTY, steps)
    ensures var st := Run(EMPTY, steps);
            && Flatten(st.taken) + st.pending == st.queued
            && (forall b :: b in st.taken ==> 1 <= |b| <= 20)
            && multiset(st.delivered) + multiset(st.inHand) == multiset(st.taken)
            && st.buffer == LastN(Flatten(st.delivered), 500)
            && (st.pending != [] ==> st.timerArmed || st.readerMustFlush)
            && (st.timerArmed ==> st.pending != []) && |st.pending| <= 20 && (st.readerMustFlush || |st.pending| < 20)
  {
    RunKeepsInv(EMPTY, steps);
  }

  /** When batches were delivered in the order they were taken, the ring is the newest of what was queued. */
  lemma {:induction false} OrderedDeliveryShowsNewest(steps: seq<Step>)
    requires Legal(EMPTY, steps)
    ensures var st := Run(EMPTY, steps);
            st.delivered == st.taken && st.pending == [] ==> st.buffer == LastN(st.queued, 500)
  {
    RunKeepsInv(EMPTY, steps);
  }

  /** A fresh console has nothing waiting, and nobody has to do anything about it. */
  lemma {:induction false} FreshConsole()
    ensures EMPTY.pending == [] && EMPTY.buffer == [] && EMPTY.inHand == [] && EMPTY.queued == []
    ensures EMPTY.taken == [] && EMPTY.delivered == [] && !EMPTY.timerArmed && !EMPTY.readerMustFlush
  {
  }

  /** Either thread may come for the waiting lines at any moment; only the reader, while it owes a flush, queues no more. */
  lemma {:induction false} AnybodyMayTake(st: State, text: string, i: nat)
    ensures Enabled(st, ReaderTake) && Enabled(st, TimerTake)
    ensures Enabled(st, Queue(text)) <==> !st.readerMustFlush
    ensures Enabled(st, Deliver(i)) <==> i < |st.inHand|
  {
  }

  // ---- the parser takes these steps ---------------------------------------------------

  function Batches(events: seq<P.Event>): seq<seq<string>> {
    if events == [] then []
    else
      Batches(events[..|events| - 1]) +
      (if events[|events| - 1].ConsoleLineBatch? then [events[|events| - 1].lines] else [])
  }

  /** The steps of the reader thread while it feeds one line, deliveries left out. */
  function StepsOf(p: P.State, line: P.Line): seq<Step> {
    if line.Header? then [ReaderTake]
    else if line.ClientMarker? then []
    else if p.pendingRadio.Some? && line.Brace? then [ReaderTake]
    else if p.current.Some? && line.Cpu? then [ReaderTake]
    else if |p.pending| + 1 >= P.CONSOLE_BATCH_SIZE then [Queue(line.text), ReaderTake]
    else [Queue(line.text)]
  }

  lemma {:induction false} BatchesConcat(a: seq<P.Event>, b: seq<P.Event>)
    ensures Batches(a + b) == Batches(a) + Batches(b)
  {
    if b == [] {
      assert a + b == a;
    } else {
      assert (a + b)[..|a + b| - 1] == a + b[..|b| - 1];
      BatchesConcat(a, b[..|b| - 1]);
    }
  }

  lemma {:induction false} BatchesOfOne(e: P.Event)
    ensures Batches([e]) == if e.ConsoleLineBatch? then [e.lines] else []
  {
    assert [e][..0] == [];
  }

  lemma {:induction false} EmitHasNoBatch(p: P.State)
    ensures Batches(P.EmitUpdate(p).events) == []
    ensures P.EmitUpdate(p).st.pending == p.pending
  {
    var es := P.EmitUpdate(p).events;
    if es != [] {
      BatchesOfOne(es[0]);
    }
  }

  lemma {:induction false} FlushBatches(p: P.State)
    ensures Batches(P.FlushConsole(p).events) == if p.pending == [] then [] else [p.pending]
    ensures P.FlushConsole(p).st.pending == []
  {
    if p.pending != [] {
      BatchesOfOne(P.ConsoleLineBatch(p.pending));
    }
  }

  lemma {:induction false} RunTake(st: State)
    ensures Legal(st, [ReaderTake]) && Run(st, [ReaderTake]) == Take(st).(readerMustFlush := false)
  {
    var one := [ReaderTake];
    assert one[1..] == [];
    assert Run(Next(st, ReaderTake), one[1..]) == Next(st, ReaderTake);
  }

  lemma {:induction false} RunQueue(st: State, text: string, rest: seq<Step>)
    requires !st.readerMustFlush && Legal(Next(st, Queue(text)), rest)
    ensures Legal(st, [Queue(text)] + rest) && Run(st, [Queue(text)] + rest) == Run(Next(st, Queue(text)), rest)
  {
    var steps := [Queue(text)] + rest;
    assert steps[1..] == rest;
  }

  /** `steps` takes the machine where `o` takes the parser: same pending list, same batches. */
  ghost predicate Mirrors(st: State, steps: seq<Step>, o: P.Outcome) {
    && Legal(st, steps)
    && var after := Run(st, steps);
    && after.pending == o.st.pending && !after.readerMustFlush
    && after.taken == st.taken + Batches(o.events)
    && after.inHand == st.inHand + Batches(o.events)
  }

  /** Feeding a line moves the machine as `StepsOf` says. */
  lemma {:induction false} FeedRefinesSteps(st: State, p: P.State, line: P.Line)
    requires st.pending == p.pending && !st.readerMustFlush
    ensures Mirrors(st, StepsOf(p, line), P.Feed(p, line))
  {
    if line.Header? {
      TakeThenMirrors(st, p, P.EmitCurrent(P.FlushConsole(p).st).events);
      EmitHasNoBatch(P.FlushConsole(p).st);
    } else if line.ClientMarker? {
    } else if p.pendingRadio.Some? && line.Brace? {
      var update := if line.decoded.None? then [] else
        [P.WifiClientsUpdate(p.pendingRadio.value, line.decoded.value)];
      if line.decoded.Some? {
        BatchesOfOne(update[0]);
      } else {
        assert P.FlushConsole(p).events + [] == P.FlushConsole(p).events;
      }
      TakeThenMirrors(st, p, update);
    } else if p.current.Some? && line.Cpu? {
      var cur := p.current.value;
      var q := P.FlushConsole(p).st.(current := Some(cur.(cpu := cur.cpu[line.core := line.metrics])));
      EmitHasNoBatch(q);
      TakeThenMirrors(st, p, P.EmitUpdate(q).events);
    } else if p.current.Some? && line.Kilobytes? && line.key in P.MEM_KEYS {
      MemoryMirrors(st, p, line);
    } else {
      QueueMirrors(st, p, line.text);
    }
  }

  lemma {:induction false} TakeThenMirrors(st: State, p: P.State, tail: seq<P.Event>)
    requires st.pending == p.pending && Batches(tail) == []
    ensures Mirrors(st, [ReaderTake], P.Outcome(P.FlushConsole(p).st, P.FlushConsole(p).events + tail))
  {
    FlushBatches(p);
    RunTake(st);
    BatchesConcat(P.FlushConsole(p).events, tail);
  }

  lemma {:induction false} MemoryMirrors(st: State, p: P.State, line: P.Line)
    requires st.pending == p.pending && !st.readerMustFlush
    requires p.pendingRadio.None? || !line.Brace?
    requires p.current.Some? && line.Kilobytes? && line.key in P.MEM_KEYS
    ensures Mirrors(st, StepsOf(p, line), P.Feed(p, line))
  {
    var cur := p.current.value;
    var q := p.(current := Some(cur.(memory := cur.memory[line.key := line.value])));
    EmitHasNoBatch(q);
    var e := P.EmitUpdate(q);
    BatchesConcat(e.events, P.QueueConsole(e.st, line.text).events);
    QueueMirrors(st, e.st, line.text);
  }

  lemma {:induction false} QueueMirrors(st: State, p: P.State, text: string)
    requires st.pending == p.pending && !st.readerMustFlush
    ensures var steps := if |p.pending| + 1 >= P.CONSOLE_BATCH_SIZE then [Queue(text), ReaderTake] else [Queue(text)];
            Mirrors(st, steps, P.QueueConsole(p, text))
  {
    var q := Next(st, Queue(text));
    if |p.pending| + 1 >= P.CONSOLE_BATCH_SIZE {
      RunTake(q);
      RunQueue(st, text, [ReaderTake]);
      assert [Queue(text)] + [ReaderTake] == [Queue(text), ReaderTake];
      BatchesOfOne(P.ConsoleLineBatch(p.pending + [text]));
    } else {
      RunQueue(st, text, []);
      assert [Queue(text)] + [] == [Queue(text)];
    }
  }

  // ---- the bounded ring ---------------------------------------------------------------

  class ConsoleBuffer {
    const maxlen: nat
    var lines: seq<string>
    /** History: every line ever delivered. */
    ghost var heard: seq<string>

    ghost predicate Valid()
      reads this
    {
      lines == LastN(heard, maxlen)
    }

    constructor (maxlen: nat := CONSOLE_BUFFER_MAX)
      ensures Valid() && heard == [] && this.maxlen == maxlen
    {
      this.maxlen := maxlen;
      lines, heard := [], [];
    }

    /** Append a batch line by line, the oldest line falling out whenever the ring is full. */
    method Observe(incoming: seq<string>)
      requires Valid()
      modifies this
      ensures Valid() && heard == old(heard) + incoming
    {
      for i := 0 to |incoming|
        invariant Valid() && heard == old(heard) + incoming[..i]
      {
        LastNAppend(heard, [incoming[i]], maxlen);
        assert old(heard) + incoming[..i] + [incoming[i]] == old(heard) + incoming[..i + 1];
        heard := heard + [incoming[i]];
        lines := lines + [incoming[i]];
        if |lines| > maxlen {
          lines := lines[1..];
        }
      }
      assert incoming[..|incoming|] == incoming;
    }

    /** The newest lines ever delivered: as many as asked for, or as many as are kept. */
    method Recent(limit: int) returns (r: seq<string>)
      requires Valid()
      ensures r == LastN(heard, if 0 < limit < maxlen then limit else maxlen)
    {
      r := lines;
      if limit > 0 {
        r := LastN(r, limit);
        LastNOfLastN(heard, maxlen, limit);
      }
    }
  }

  lemma {:induction false} LastNOfLastN<T>(s: seq<T>, m: nat, n: nat)
    ensures LastN(LastN(s, m), n) == LastN(s, if n < m then n else m)
  {
  }
}
