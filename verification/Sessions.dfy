/**
 Sessions: callbacks and workers one after the other, as a function of what happens. Every
 session of any program is a run of the step protocol, so what holds of all runs holds of it.
 */
module Sessions {
  import opened Bytes
  import opened KeyCodes
  import opened Messages
  import opened TokenTheory
  import opened Pipeline
  import opened EndToEnd
  import opened CallbackRuns
  import Decimal
  import Handshake

  /**
   What the outside world does next: input or a read error, a turn of the loop, or time for
   a worker, whose command may stop the handles.
   */
  datatype LoopEvent =
    | Input(chunk: seq<byte>)
    | ReadFailure(errno: int)
    | LoopTurn(outcomes: seq<Option<int>>, failure: Option<int>)
    | WorkerTime(outcome: Option<int>, stops: bool)

  /** The program between callbacks: its data, the commands that wait for a worker, the screen, and what is on. */
  datatype Config = Config(
    model: seq<byte>,
    channel: seq<Message>,
    parser: seq<byte>,
    work: seq<Command>,
    out: seq<seq<byte>>,
    reading: bool,
    checking: bool)

  /** The state in which init leaves the program: the parser keeps what came after the report. */
  function Start(leftover: seq<byte>): Config {
    Config([], [], leftover, [], [], true, true)
  }

  /** What publishing msg, on any thread, does. */
  function AfterPublish(handlers: Handlers, c: Config, msg: Message, outcome: Option<int>): Config {
    var (model', cmds) := PublishOne(handlers, c.model, msg);
    c.(model := model',
       work := c.work + (if outcome.Some? then [] else cmds),
       channel := c.channel + Refusal(cmds, outcome))
  }

  /** What an event does. */
  function AfterEvent(handlers: Handlers, home: (nat, nat), c: Config, event: LoopEvent): Config {
    match event
    case Input(chunk) =>
      if !c.reading then c
      else
        c.(channel := c.channel + Keypresses(Tokens(CODED_DIGITS, c.parser + chunk)),
           parser := Residue(CODED_DIGITS, c.parser + chunk))
    case ReadFailure(errno) =>
      if !c.reading then c else c.(channel := c.channel + [Error(errno)])
    case LoopTurn(outcomes, failure) =>
      if !c.checking then c
      else
        var d := Drain(handlers, c.model, c.channel, outcomes);
        c.(model := d.model, work := c.work + d.accepted, channel := WriteError(failure),
           out := c.out + Written(home, d.model, failure))
    case WorkerTime(outcome, stops) =>
      if c.work == [] then c
      else
        var cmd := c.work[0];
        var called := c.(work := c.work[1..],
                         reading := c.reading && !Halts(cmd, stops),
                         checking := c.checking && !Halts(cmd, stops));
        if ResultOf(cmd) == Terminate then AfterPublish(handlers, called, Terminate, outcome)
        else called.(channel := called.channel + [ResultOf(cmd)])
  }

  function AfterEvents(handlers: Handlers, home: (nat, nat), c: Config, events: seq<LoopEvent>): Config {
    if events == [] then c
    else AfterEvent(handlers, home, AfterEvents(handlers, home, c, events[..|events| - 1]), events[|events| - 1])
  }

  lemma AfterNext(handlers: Handlers, home: (nat, nat), c: Config, events: seq<LoopEvent>, i: nat)
    requires i < |events|
    ensures AfterEvents(handlers, home, c, events[..i + 1]) ==
            AfterEvent(handlers, home, AfterEvents(handlers, home, c, events[..i]), events[i])
  {
    assert events[..i + 1][..i] == events[..i];
  }

  /** The bytes that an event delivers. */
  function Delivered(c: Config, event: LoopEvent): seq<byte> {
    if event.Input? && c.reading then event.chunk else []
  }

  /** The bytes of the input events. */
  function InputOf(events: seq<LoopEvent>): seq<byte> {
    if events == [] then []
    else
      var last := events[|events| - 1];
      InputOf(events[..|events| - 1]) + if last.Input? then last.chunk else []
  }

  lemma InputOfNext(events: seq<LoopEvent>, i: nat)
    requires i < |events|
    ensures InputOf(events[..i + 1]) == InputOf(events[..i]) + if events[i].Input? then events[i].chunk else []
  {
    assert events[..i + 1][..i] == events[..i];
  }

  lemma {:induction false} InputOfPrefix(events: seq<LoopEvent>, i: nat)
    requires i <= |events|
    ensures |InputOf(events[..i])| <= |InputOf(events)|
    decreases |events| - i
  {
    if i == |events| {
      assert events[..i] == events;
    } else {
      InputOfNext(events, i);
      InputOfPrefix(events, i + 1);
    }
  }

  // ----- Every event is a run of the protocol

  /** A worker between callbacks: the first ones are done, and the others are queued for `work`. */
  function ParkedPc(done: int, work: seq<Command>, t: int): Pc
    requires t - done < |work|
  {
    if t < done then Done else Queued(work[t - done])
  }

  /** Threads between callbacks: the loop is idle, and no worker is halfway. */
  ghost predicate Parked(threads: seq<Pc>, work: seq<Command>) {
    && |threads| > |work|
    && threads[0] == Idle
    && forall t | 0 < t < |threads| :: threads[t] == ParkedPc(|threads| - |work|, work, t)
  }

  lemma ParkedMore(threads: seq<Pc>, work: seq<Command>, more: seq<Command>)
    requires Parked(threads, work)
    ensures Parked(threads + Spawn(more), work + more)
  {
    var all := threads + Spawn(more);
    forall t | 0 < t < |all| ensures all[t] == ParkedPc(|threads| - |work|, work + more, t) {
      if t < |threads| {
        assert all[t] == threads[t];
      } else {
        assert all[t] == Queued(more[t - |threads|]);
      }
    }
  }

  lemma ParkedFirst(threads: seq<Pc>, work: seq<Command>)
    requires Parked(threads, work) && work != []
    ensures var t := |threads| - |work|;
            threads[t] == Queued(work[0]) && Parked(threads[t := Done], work[1..])
  {
    var n := |threads| - |work|;
    var after := threads[n := Done];
    forall t | 0 < t < |after| ensures after[t] == ParkedPc(n + 1, work[1..], t) {
      assert t != n ==> after[t] == threads[t];
    }
  }

  /** The state s of the protocol shows the program between callbacks as c. */
  ghost predicate Matches(s: State, c: Config) {
    && s.model == c.model && s.channel == c.channel && s.parser == c.parser && s.frames == c.out
    && s.reading == c.reading && s.checking == c.checking
    && s.context.None? && s.inner.None? && Parked(s.threads, c.work)
  }

  /**
   What the callback or command of an event needs: a parser that does not meet a non-ASCII
   head, and a bound that allows the stop.
   */
  ghost predicate Ready(c: Config, event: LoopEvent) {
    && (event.Input? && c.reading ==> Drains(c.parser + event.chunk))
    && (event.WorkerTime? && c.work != [] ==> MayHalt(c.work[0], event.stops))
  }

  lemma InputRun(handlers: Handlers, s: State, c: Config, event: LoopEvent) returns (ls: seq<Label>, s': State)
    requires Matches(s, c) && event.Input? && c.reading && Ready(c, event)
    ensures Leads(handlers, s, ls, s') && Matches(s', AfterEvent(handlers, s.home, c, event))
    ensures s'.fed == s.fed + event.chunk && s'.home == s.home && s'.subscribed == s.subscribed
  {
    ls, s' := ReadRun(handlers, s, event.chunk);
  }

  lemma FailureRun(handlers: Handlers, s: State, c: Config, event: LoopEvent) returns (ls: seq<Label>, s': State)
    requires Matches(s, c) && event.ReadFailure? && c.reading
    ensures Leads(handlers, s, ls, s') && Matches(s', AfterEvent(handlers, s.home, c, event))
    ensures s'.fed == s.fed && s'.home == s.home && s'.subscribed == s.subscribed
  {
    ls, s' := ReadErrorRun(handlers, s, event.errno);
  }

  lemma TurnRun(handlers: Handlers, s: State, c: Config, event: LoopEvent) returns (ls: seq<Label>, s': State)
    requires Matches(s, c) && event.LoopTurn? && c.checking && handlers.Keys == s.subscribed
    ensures Leads(handlers, s, ls, s') && Matches(s', AfterEvent(handlers, s.home, c, event))
    ensures s'.fed == s.fed && s'.home == s.home && s'.subscribed == s.subscribed
  {
    ls, s' := CheckRun(handlers, s, event.outcomes, event.failure);
    ParkedMore(s.threads, c.work, Drain(handlers, c.model, c.channel, event.outcomes).accepted);
  }

  /** The first command that waits is done, and its thread has left more commands to do. */
  lemma ParkedAfter(threads: seq<Pc>, work: seq<Command>, more: seq<Command>)
    requires Parked(threads, work) && work != []
    ensures Parked(threads[|threads| - |work| := Done] + Spawn(more), work[1..] + more)
  {
    ParkedFirst(threads, work);
    ParkedMore(threads[|threads| - |work| := Done], work[1..], more);
  }

  /** What a command does is what the function of events says. */
  lemma CommandMatches(handlers: Handlers, s: State, s': State, c: Config, event: LoopEvent)
    requires Matches(s, c) && event.WorkerTime? && c.work != []
    requires s.threads[|s.threads| - |c.work|] == Queued(c.work[0])
    requires CommandEffect(handlers, s, s', |s.threads| - |c.work|, event.stops, event.outcome)
    ensures Matches(s', AfterEvent(handlers, s.home, c, event))
    ensures s'.fed == s.fed && s'.home == s.home && s'.subscribed == s.subscribed
  {
    var (_, cmds) := Answered(handlers, s.model, ResultOf(c.work[0]));
    var accepted := if event.outcome.Some? then [] else cmds;
    ParkedAfter(s.threads, c.work, accepted);
    if ResultOf(c.work[0]) != Terminate {
      assert c.work[1..] + accepted == c.work[1..];
    }
  }

  lemma FirstWorker(s: State, c: Config)
    requires Matches(s, c) && c.work != []
    ensures 0 < |s.threads| - |c.work| < |s.threads|
    ensures s.threads[|s.threads| - |c.work|] == Queued(c.work[0]) && s.context.None? && s.inner.None?
  {
    ParkedFirst(s.threads, c.work);
  }

  lemma WorkerRun(handlers: Handlers, s: State, c: Config, event: LoopEvent) returns (ls: seq<Label>, s': State)
    requires Matches(s, c) && event.WorkerTime? && c.work != [] && MayHalt(c.work[0], event.stops)
    requires handlers.Keys == s.subscribed
    ensures Leads(handlers, s, ls, s') && Matches(s', AfterEvent(handlers, s.home, c, event))
    ensures s'.fed == s.fed && s'.home == s.home && s'.subscribed == s.subscribed
  {
    FirstWorker(s, c);
    ls, s' := CommandRun(handlers, s, |s.threads| - |c.work|, event.stops, event.outcome);
    CommandMatches(handlers, s, s', c, event);
  }

  /** The function of events agrees with the protocol: what an event does can be done by steps. */
  lemma EventRun(handlers: Handlers, s: State, c: Config, event: LoopEvent) returns (ls: seq<Label>, s': State)
    requires Matches(s, c) && Ready(c, event) && handlers.Keys == s.subscribed
    ensures Leads(handlers, s, ls, s') && Matches(s', AfterEvent(handlers, s.home, c, event))
    ensures s'.fed == s.fed + Delivered(c, event) && s'.home == s.home && s'.subscribed == s.subscribed
  {
    ls, s' := [], s;
    assert s.fed + [] == s.fed;
    if event.Input? && c.reading {
      ls, s' := InputRun(handlers, s, c, event);
    } else if event.ReadFailure? && c.reading {
      ls, s' := FailureRun(handlers, s, c, event);
    } else if event.LoopTurn? && c.checking {
      ls, s' := TurnRun(handlers, s, c, event);
    } else if event.WorkerTime? && c.work != [] {
      ls, s' := WorkerRun(handlers, s, c, event);
    }
  }

  // ----- Every session is a run of the protocol

  /** The program after a session that begins as init leaves it. */
  function Session(handlers: Handlers, home: (nat, nat), q: seq<byte>, events: seq<LoopEvent>): Config {
    AfterEvents(handlers, home, Start(q), events)
  }

  /** Every event of the session finds what it needs. */
  ghost predicate Readable(handlers: Handlers, home: (nat, nat), q: seq<byte>, events: seq<LoopEvent>) {
    forall i | 0 <= i < |events| :: Ready(Session(handlers, home, q, events[..i]), events[i])
  }

  /** The bytes that a session has fed to the parser. */
  function FedBy(handlers: Handlers, home: (nat, nat), q: seq<byte>, events: seq<LoopEvent>): seq<byte> {
    if events == [] then q
    else
      var front := events[..|events| - 1];
      FedBy(handlers, home, q, front) + Delivered(Session(handlers, home, q, front), events[|events| - 1])
  }

  /** What was fed is an initial part of the input, and all of it while the program is reading. */
  predicate FedSoFar(q: seq<byte>, input: seq<byte>, fed: seq<byte>, reading: bool) {
    fed <= q + input && (reading ==> fed == q + input)
  }

  /** Nothing turns reading or checking on again. */
  lemma NeverRestarts(handlers: Handlers, home: (nat, nat), c: Config, event: LoopEvent)
    ensures AfterEvent(handlers, home, c, event).reading ==> c.reading
    ensures AfterEvent(handlers, home, c, event).checking ==> c.checking
  {
  }

  lemma FedAdvances(handlers: Handlers, home: (nat, nat), c: Config, event: LoopEvent,
                    q: seq<byte>, input: seq<byte>, fed: seq<byte>)
    requires FedSoFar(q, input, fed, c.reading)
    ensures FedSoFar(q, input + if event.Input? then event.chunk else [], fed + Delivered(c, event),
                     AfterEvent(handlers, home, c, event).reading)
  {
    Assoc(q, input, if event.Input? then event.chunk else []);
    assert fed + [] == fed;
    NeverRestarts(handlers, home, c, event);
  }

  /** Input is delivered for as long as the program is reading, and not after. */
  lemma {:induction false} FedIsInput(handlers: Handlers, home: (nat, nat), q: seq<byte>, events: seq<LoopEvent>)
    ensures FedSoFar(q, InputOf(events), FedBy(handlers, home, q, events), Session(handlers, home, q, events).reading)
    decreases |events|
  {
    if events == [] {
      assert q + [] == q;
    } else {
      var front, last := events[..|events| - 1], events[|events| - 1];
      FedIsInput(handlers, home, q, front);
      FedAdvances(handlers, home, Session(handlers, home, q, front), last,
                  q, InputOf(front), FedBy(handlers, home, q, front));
    }
  }

  /** The session so far has led the program to the state s. */
  ghost predicate Underway(handlers: Handlers, home: (nat, nat), q: seq<byte>, events: seq<LoopEvent>,
                           ls: seq<Label>, s: State)
  {
    && Leads(handlers, Initial(handlers.Keys, home, q), ls, s)
    && s.home == home && s.subscribed == handlers.Keys
    && Matches(s, Session(handlers, home, q, events)) && s.fed == FedBy(handlers, home, q, events)
  }

  lemma ReadablePrefix(handlers: Handlers, home: (nat, nat), q: seq<byte>, events: seq<LoopEvent>, i: nat)
    requires Readable(handlers, home, q, events) && i <= |events|
    ensures Readable(handlers, home, q, events[..i])
  {
    forall k | 0 <= k < i ensures Ready(Session(handlers, home, q, events[..i][..k]), events[..i][k]) {
      assert events[..i][..k] == events[..k];
      assert Ready(Session(handlers, home, q, events[..k]), events[k]);
    }
  }

  lemma ReadableSnoc(handlers: Handlers, home: (nat, nat), q: seq<byte>, events: seq<LoopEvent>, event: LoopEvent)
    requires Readable(handlers, home, q, events) && Ready(Session(handlers, home, q, events), event)
    ensures Readable(handlers, home, q, events + [event])
  {
    var all := events + [event];
    forall i | 0 <= i < |all| ensures Ready(Session(handlers, home, q, all[..i]), all[i]) {
      if i < |events| {
        assert all[..i] == events[..i];
        assert Ready(Session(handlers, home, q, events[..i]), events[i]);
      } else {
        assert all[..i] == events;
      }
    }
  }

  lemma Advances(handlers: Handlers, home: (nat, nat), q: seq<byte>, events: seq<LoopEvent>, ls: seq<Label>, s: State)
      returns (ls': seq<Label>, s': State)
    requires events != []
    requires var front := events[..|events| - 1];
             && Underway(handlers, home, q, front, ls, s)
             && Ready(Session(handlers, home, q, front), events[|events| - 1])
    ensures Underway(handlers, home, q, events, ls', s')
  {
    var front, last := events[..|events| - 1], events[|events| - 1];
    var more;
    more, s' := EventRun(handlers, s, Session(handlers, home, q, front), last);
    ls' := ls + more;
    Compose(handlers, Initial(handlers.Keys, home, q), ls, s, more, s');
  }

  lemma Begins(handlers: Handlers, home: (nat, nat), q: seq<byte>)
    ensures Underway(handlers, home, q, [], [], Initial(handlers.Keys, home, q))
  {
  }

  /**
   Every session of any program is a run of the protocol, with the same outcome, whatever
   the reads and their errors, the failures, the handlers and the commands.
   */
  lemma {:induction false} SessionIsRun(handlers: Handlers, home: (nat, nat), q: seq<byte>, events: seq<LoopEvent>)
      returns (ls: seq<Label>, s: State)
    requires Readable(handlers, home, q, events)
    ensures Underway(handlers, home, q, events, ls, s)
    decreases |events|
  {
    if events == [] {
      ls, s := [], Initial(handlers.Keys, home, q);
      Begins(handlers, home, q);
    } else {
      var front := events[..|events| - 1];
      ReadablePrefix(handlers, home, q, events, |events| - 1);
      ls, s := SessionIsRun(handlers, home, q, front);
      ls, s := Advances(handlers, home, q, events, ls, s);
    }
  }

  // ----- The sessions of main

  lemma UnderwayIsMain(home: (nat, nat), q: seq<byte>, events: seq<LoopEvent>, ls: seq<Label>, s: State)
    requires Underway(MAIN_HANDLERS, home, q, events, ls, s)
    ensures MainState(s)
  {
    InitialIsMain(home, q);
    assert MAIN_HANDLERS.Keys == {KeypressType};
    LeadsToMain(Initial({KeypressType}, home, q), ls, s);
  }

  lemma LeadsToMain(s: State, ls: seq<Label>, s': State)
    requires MainState(s) && Leads(MAIN_HANDLERS, s, ls, s')
    ensures MainState(s')
  {
    MainReachable(s, ls);
  }

  /** What the echo equation says between callbacks. */
  lemma EchoBetween(s: State)
    requires Echo(s) && s.threads[0] == Idle
    ensures Typed(s.fed) == s.model + Typed(Codes(s.channel) + s.parser)
  {
    var ahead := Codes(s.channel) + s.parser;
    assert [] + ahead == ahead;
  }

  /** What the screen shows is typed, if the model is an initial part of it. */
  lemma GrowingTyped(cursor: seq<byte>, frames: seq<seq<byte>>, model: seq<byte>, rest: seq<byte>, typed: seq<byte>)
    requires Growing(cursor, frames, model) && typed == model + rest
    ensures Growing(cursor, frames, typed)
  {
    GrowingModel(cursor, frames, model, rest);
  }

  /**
   After any session of main: the bytes fed, less every ETX, are the model followed by what
   is on its way; the screen shows longer and longer prefixes of them; reading and checking
   are both on or both off.
   */
  lemma SessionEcho(home: (nat, nat), q: seq<byte>, events: seq<LoopEvent>)
    requires Readable(MAIN_HANDLERS, home, q, events)
    ensures var c, fed := Session(MAIN_HANDLERS, home, q, events), FedBy(MAIN_HANDLERS, home, q, events);
            && Typed(fed) == c.model + Typed(Codes(c.channel) + c.parser)
            && Growing(Handshake.CursorTo(home.0, home.1) + [0x00], c.out, Typed(fed))
            && (c.reading <==> c.checking)
  {
    var ls, s := SessionIsRun(MAIN_HANDLERS, home, q, events);
    UnderwayIsMain(home, q, events, ls, s);
    EchoBetween(s);
    GrowingTyped(Cursor(home), s.frames, s.model, Typed(Codes(s.channel) + s.parser), Typed(s.fed));
  }

  /** The model never outgrows the input. */
  lemma ModelFits(home: (nat, nat), q: seq<byte>, events: seq<LoopEvent>, i: nat)
    requires Readable(MAIN_HANDLERS, home, q, events) && i <= |events|
    ensures |Session(MAIN_HANDLERS, home, q, events[..i]).model| <= |q| + |InputOf(events)|
  {
    ReadablePrefix(MAIN_HANDLERS, home, q, events, i);
    SessionEcho(home, q, events[..i]);
    EtxsTyped(FedBy(MAIN_HANDLERS, home, q, events[..i]));
    FedIsInput(MAIN_HANDLERS, home, q, events[..i]);
    InputOfPrefix(events, i);
  }

  /** A turn of the loop empties the channel, writes a frame and feeds nothing. */
  lemma TurnOf(handlers: Handlers, home: (nat, nat), q: seq<byte>, events: seq<LoopEvent>, outcomes: seq<Option<int>>)
    requires Session(handlers, home, q, events).checking
    ensures var c, all := Session(handlers, home, q, events), events + [LoopTurn(outcomes, None)];
            var c' := Session(handlers, home, q, all);
            && c'.out == c.out + [Frame(home, c'.model)] && c'.channel == [] && c'.parser == c.parser
            && FedBy(handlers, home, q, all) == FedBy(handlers, home, q, events)
  {
    var all := events + [LoopTurn(outcomes, None)];
    assert all[..|events|] == events;
    var fed := FedBy(handlers, home, q, events);
    assert fed + [] == fed;
  }

  /** The first buffer of every frame, in terms of the report that init decoded: its R replaced by H, and a NUL. */
  lemma CursorOfReport(report: seq<byte>, row: nat, col: nat)
    requires Handshake.Decode(CODED_DIGITS, report) == Handshake.Home(row, col)
    ensures Handshake.CursorTo(row, col) + [0x00] == report[..IndexOf(report, 0x52)] + [0x48, 0x00]
  {
    Handshake.DecodeExact(CODED_DIGITS, report, row, col);
    var r, c :| AllIn(r, CODED_DIGITS) && AllIn(c, CODED_DIGITS) && Report(r, c) <= report
                && Decimal.ParseIsize(r) == Some(row) && Decimal.ParseIsize(c) == Some(col);
    Handshake.CursorEcho(report, r, c, row, col);
    var n := |Report(r, c)| - 1;
    assert Report(r, c)[n] == 0x52 && Report(r, c) == report[..n + 1];
    forall k | 0 <= k < n ensures report[k] != 0x52 {
      ReportByte(CODED_DIGITS, r, c, k);
      assert report[k] == Report(r, c)[k];
    }
    IndexOfUnique(report, 0x52, n);
    assert Report(r, c)[..n] == report[..n];
  }

  /** The bytes of a frame: the report that init decoded with its R replaced by H, a NUL, the model and a NUL. */
  lemma FrameOfReport(report: seq<byte>, row: nat, col: nat, model: seq<byte>)
    requires Handshake.Decode(CODED_DIGITS, report) == Handshake.Home(row, col)
    ensures Frame((row, col), model) == report[..IndexOf(report, 0x52)] + [0x48, 0x00] + model + [0x00]
  {
    CursorOfReport(report, row, col);
    FrameBytes((row, col), model);
  }

  /**
   As long as main is reading, a turn of the loop brings the screen up to date: whatever the
   split of the input into chunks and the events between them, it writes one frame, which is
   the report that init received with its R replaced by H, a NUL, the model and a NUL; and
   the model is every byte typed except ETX and the incomplete key that the parser holds.
   */
  lemma ScreenShowsInput(report: seq<byte>, home: (nat, nat), q: seq<byte>, events: seq<LoopEvent>,
                         outcomes: seq<Option<int>>)
    requires Handshake.Decode(CODED_DIGITS, report) == Handshake.Home(home.0, home.1)
    requires Readable(MAIN_HANDLERS, home, q, events) && Session(MAIN_HANDLERS, home, q, events).reading
    ensures var c := Session(MAIN_HANDLERS, home, q, events + [LoopTurn(outcomes, None)]);
            && c.out == Session(MAIN_HANDLERS, home, q, events).out
                        + [report[..IndexOf(report, 0x52)] + [0x48, 0x00] + c.model + [0x00]]
            && Typed(q + InputOf(events)) == c.model + Typed(c.parser)
  {
    var turn := LoopTurn(outcomes, None);
    SessionEcho(home, q, events);
    ReadableSnoc(MAIN_HANDLERS, home, q, events, turn);
    SessionEcho(home, q, events + [turn]);
    TurnOf(MAIN_HANDLERS, home, q, events, outcomes);
    FedIsInput(MAIN_HANDLERS, home, q, events);
    FrameOfReport(report, home.0, home.1, Session(MAIN_HANDLERS, home, q, events + [turn]).model);
    var parser := Session(MAIN_HANDLERS, home, q, events).parser;
    assert [] + parser == parser;
  }

  // ----- ASCII input is always readable

  predicate Ascii(s: seq<byte>) {
    forall k | 0 <= k < |s| :: s[k] < 0x80
  }

  /** The parser comes to the end of ASCII input, and leaves ASCII. */
  lemma AsciiDrains(q: seq<byte>)
    requires Ascii(q)
    ensures Drains(q) && Ascii(Residue(CODED_DIGITS, q))
  {
    var residue := Residue(CODED_DIGITS, q);
    DrainConserves(CODED_DIGITS, q);
    var n := |q| - |residue|;
    assert forall k | 0 <= k < |residue| :: residue[k] == q[n + k];
  }

  /** Input that is ASCII, and commands that stop nothing unless they are Terminate. */
  predicate Plain(events: seq<LoopEvent>) {
    forall k | 0 <= k < |events| ::
      (events[k].Input? ==> Ascii(events[k].chunk)) && (events[k].WorkerTime? ==> !events[k].stops)
  }

  lemma AsciiEvent(handlers: Handlers, home: (nat, nat), c: Config, event: LoopEvent)
    requires Ascii(c.parser) && Plain([event])
    ensures Ready(c, event) && Ascii(AfterEvent(handlers, home, c, event).parser)
  {
    assert [event][0] == event;
    if event.Input? {
      AsciiDrains(c.parser + event.chunk);
    }
  }

  /** With ASCII input every event of every session finds what it needs. */
  lemma {:induction false} AsciiReadable(handlers: Handlers, home: (nat, nat), q: seq<byte>, events: seq<LoopEvent>)
    requires Ascii(q) && Plain(events)
    ensures Readable(handlers, home, q, events) && Ascii(Session(handlers, home, q, events).parser)
    decreases |events|
  {
    if events != [] {
      var front, last := events[..|events| - 1], events[|events| - 1];
      AsciiReadable(handlers, home, q, front);
      AsciiEvent(handlers, home, Session(handlers, home, q, front), last);
      ReadableSnoc(handlers, home, q, front, last);
      assert events == front + [last];
    }
  }

  // ----- What publishing keys does in main

  /** What the handler of main does with one key. */
  lemma PublishKey(model: seq<byte>, code: seq<byte>)
    requires IsCode(CODED_DIGITS, code)
    ensures PublishOne(MAIN_HANDLERS, model, Keypress(Classify(code))) ==
            (model + Typed(code), if code == [ETX] then [TerminateCommand] else [])
    ensures Etxs(code) == if code == [ETX] then 1 else 0
  {
    CodeEtx(code);
    CodeToken(CODED_DIGITS, code, []);
    assert Keypress(Classify(code)).Type() in MAIN_HANDLERS;
    assert model + [] == model;
  }

  /** Publishing these keys appends their bytes other than ETX, and asks to terminate once for each ETX. */
  ghost predicate Typewriter(model: seq<byte>, codes: seq<seq<byte>>) {
    var (model', cmds) := PublishAll(MAIN_HANDLERS, model, Keypresses(codes));
    && model' == model + Typed(Flatten(codes))
    && |cmds| == Etxs(Flatten(codes))
    && forall k | 0 <= k < |cmds| :: cmds[k] == TerminateCommand
  }

  lemma TypeOneMore(model: seq<byte>, codes: seq<seq<byte>>, code: seq<byte>)
    requires Typewriter(model, codes) && IsCode(CODED_DIGITS, code)
    ensures Typewriter(model, codes + [code])
  {
    var bytes := Flatten(codes);
    KeypressesSnoc(codes, code);
    PublishAllSnoc(MAIN_HANDLERS, model, Keypresses(codes), Keypress(Classify(code)));
    PublishKey(model + Typed(bytes), code);
    FlattenSnoc(codes, code);
    TypedAppend(bytes, code);
    EtxsAppend(bytes, code);
    Assoc(model, Typed(bytes), Typed(code));
  }

  /**
   Publishing the keys of a list of codes appends to the model every byte that is not ETX,
   and asks to terminate, and nothing else, once for each ETX.
   */
  lemma {:induction false} PublishKeys(model: seq<byte>, codes: seq<seq<byte>>)
    requires AllCodes(CODED_DIGITS, codes)
    ensures Typewriter(model, codes)
    decreases |codes|
  {
    if codes == [] {
      assert model + [] == model;
    } else {
      var n := |codes| - 1;
      PublishKeys(model, codes[..n]);
      TypeOneMore(model, codes[..n], codes[n]);
      assert codes[..n] + [codes[n]] == codes;
    }
  }

  /**
   Reading a stream in any portions and then publishing the keys appends to the model
   exactly the complete keys of the stream without its ETX bytes; no byte is lost.
   */
  lemma ReadThenCheck(model: seq<byte>, q: seq<byte>, chunks: seq<seq<byte>>)
    ensures var (codes, rest) := DrainChunks(CODED_DIGITS, q, chunks);
            && q + Flatten(chunks) == Flatten(codes) + rest
            && Typewriter(model, codes)
            && PublishAll(MAIN_HANDLERS, model, Keypresses(codes)).0 + Typed(rest) == model + Typed(q + Flatten(chunks))
  {
    var (codes, rest) := DrainChunks(CODED_DIGITS, q, chunks);
    var stream := q + Flatten(chunks);
    if chunks == [] {
      assert q + [] == q && [] + q == q;
    } else {
      ChunkingIndependence(CODED_DIGITS, q, chunks);
      DrainConserves(CODED_DIGITS, stream);
      DrainStops(CODED_DIGITS, stream);
    }
    PublishKeys(model, codes);
    TypedAppend(Flatten(codes), rest);
    Assoc(model, Typed(Flatten(codes)), Typed(rest));
  }
}
