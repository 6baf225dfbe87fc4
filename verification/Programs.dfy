/**
 The update broker, the callbacks that Program::run registers and the program of main.rs,
 as code that changes its objects in place. Callbacks and workers are taken here one after
 the other, and proved to compute a session; the sessions of main are runs of the step
 protocol, which also covers the interleavings.
 */
module Programs {
  import opened Bytes
  import opened KeyCodes
  import opened Messages
  import opened TokenTheory
  import KeyCodeParsing
  import Buffers
  import opened Handshake
  import opened Sessions
  import BufSpec
  import CallbackRuns
  import EndToEnd
  import Pipeline

  class UpdateBroker {
    var handlers: Handlers

    constructor ()
      ensures handlers == map[]
    {
      handlers := map[];
    }

    /** One handler for each message type: a later one replaces an earlier one. */
    method Subscribe(on: MessageType, handler: Handler)
      modifies this
      ensures handlers == old(handlers)[on := handler]
    {
      handlers := handlers[on := handler];
    }
  }

  class Program {
    const mem: Buffers.Memory
    const parser: KeyCodeParsing.KeyCodeParser
    const updates: UpdateBroker
    const home: (nat, nat)
    var model: seq<byte>
    var channel: seq<Message>
    var work: seq<Command>
    var out: seq<seq<byte>>
    var reading: bool
    var checking: bool

    /** The state in which init leaves the program: the parser keeps what came after the report. */
    constructor (mem: Buffers.Memory, parser: KeyCodeParsing.KeyCodeParser, home: (nat, nat))
      requires mem.Valid()
      ensures this.mem == mem && this.parser == parser && this.home == home && fresh(updates)
      ensures updates.handlers == map[]
      ensures model == [] && channel == [] && work == [] && out == [] && reading && checking
    {
      this.mem, this.parser, this.home := mem, parser, home;
      updates := new UpdateBroker();
      model, channel, work, out, reading, checking := [], [], [], [], true, true;
    }

    // ----- The callbacks

    /** The read callback: buffer the chunk, then send a message for every keycode the parser returns. */
    method OnRead(chunk: seq<byte>)
      requires mem.Valid() && |chunk| + 1 < BufSpec.U32_RANGE
      requires Pipeline.Drains(parser.buf + chunk)
      modifies this`channel, parser, mem
      ensures mem.Valid()
      ensures channel == old(channel) + Keypresses(Tokens(CODED_DIGITS, old(parser.buf) + chunk))
      ensures parser.buf == Residue(CODED_DIGITS, old(parser.buf) + chunk)
    {
      ghost var q := parser.buf + chunk;
      var buf := mem.From(chunk);
      var bytes := mem.AsBytes(buf);
      parser.Buffer(bytes);
      assert parser.buf == q;
      ghost var done: seq<seq<byte>> := [];
      while true
        invariant mem.Valid()
        invariant channel == old(channel) + Keypresses(done)
        invariant Tokens(CODED_DIGITS, q) == done + Tokens(CODED_DIGITS, parser.buf)
        invariant Residue(CODED_DIGITS, q) == Residue(CODED_DIGITS, parser.buf)
        decreases |parser.buf|
      {
        ghost var left := parser.buf;
        var keycode := parser.ParseKeycode();
        if keycode.None? {
          break;
        }
        channel := channel + [Keypress(keycode.value)];
        ghost var code := left[..TokenLen(CODED_DIGITS, left)];
        KeypressesSnoc(done, code);
        Assoc(done, [code], Tokens(CODED_DIGITS, parser.buf));
        done := done + [code];
      }
      assert done + [] == done;
    }

    /** The read callback on an error: send it on as a message. */
    method OnReadError(errno: int)
      modifies this`channel
      ensures channel == old(channel) + [Error(errno)]
    {
      channel := channel + [Error(errno)];
    }

    /** Run the handler of the message, if there is one, and queue the command it returns; a refusal is sent as an error. */
    method Publish(msg: Message, outcome: Option<int>) returns (asked: bool)
      modifies this`model, this`work, this`channel
      ensures var (model', cmds) := PublishOne(updates.handlers, old(model), msg);
              && model == model' && (asked <==> cmds != [])
              && work == old(work) + (if outcome.Some? then [] else cmds)
              && channel == old(channel) + Refusal(cmds, outcome)
    {
      asked := false;
      if msg.Type() in updates.handlers {
        var (model', cmd) := updates.handlers[msg.Type()](model, msg);
        model := model';
        if cmd.Some? {
          asked := true;
          if outcome.Some? {
            channel := channel + [Error(outcome.value)];
          } else {
            work := work + [cmd.value];
          }
        }
      }
    }

    /** The check callback: publish every message in the channel, then write a frame. */
    method OnCheck(outcomes: seq<Option<int>>, failure: Option<int>)
      requires mem.Valid()
      requires |CursorTo(home.0, home.1)| + 1 < BufSpec.U32_RANGE
      requires |Drain(updates.handlers, model, channel, outcomes).model| + 1 < BufSpec.U32_RANGE
      modifies this`channel, this`model, this`work, this`out, mem
      ensures mem.Valid()
      ensures var d := Drain(updates.handlers, old(model), old(channel), outcomes);
              && model == d.model && work == old(work) + d.accepted
              && out == old(out) + CallbackRuns.Written(home, d.model, failure)
              && channel == CallbackRuns.WriteError(failure)
    {
      PublishReceived(outcomes);
      Render(failure);
    }

    /** Receive and publish until the channel is empty. */
    method PublishReceived(outcomes: seq<Option<int>>)
      modifies this`channel, this`model, this`work
      ensures var d := Drain(updates.handlers, old(model), old(channel), outcomes);
              model == d.model && work == old(work) + d.accepted && channel == []
    {
      ghost var all := Drain(updates.handlers, model, channel, outcomes);
      var left := outcomes;
      while channel != []
        invariant var rest := Drain(updates.handlers, model, channel, left);
                  rest.model == all.model && work + rest.accepted == old(work) + all.accepted
        decreases 2 * |left| + |channel|
      {
        var message := channel[0];
        channel := channel[1..];
        var outcome := if left == [] then None else left[0];
        ghost var work0, cmds := work, PublishOne(updates.handlers, model, message).1;
        var asked := Publish(message, outcome);
        if asked && left != [] {
          left := left[1..];
        }
        Assoc(work0, if outcome.Some? then [] else cmds, Drain(updates.handlers, model, channel, left).accepted);
      }
    }

    /** Write the cursor command and the view, one buffer each; a failure is sent as an error. */
    method Render(failure: Option<int>)
      requires mem.Valid()
      requires |CursorTo(home.0, home.1)| + 1 < BufSpec.U32_RANGE && |model| + 1 < BufSpec.U32_RANGE
      modifies this`out, this`channel, mem
      ensures mem.Valid()
      ensures out == old(out) + CallbackRuns.Written(home, model, failure)
      ensures channel == old(channel) + CallbackRuns.WriteError(failure)
    {
      var position := mem.From(CursorTo(home.0, home.1));
      var view := mem.From(model);
      var first := mem.AsBytes(position);
      var second := mem.AsBytes(view);
      assert first == CursorTo(home.0, home.1) + [NUL] && second == model + [NUL];
      if failure.Some? {
        channel := channel + [Error(failure.value)];
      } else {
        out := out + [first + second];
      }
    }

    /** Stop reading and checking; nothing starts them again. */
    method Terminate()
      modifies this`reading, this`checking
      ensures !reading && !checking
    {
      reading, checking := false, false;
    }

    /**
     A worker runs the command that was queued first, which may stop the handles, and answers
     with its result, or publishes it if it is Terminate.
     */
    method Work(outcome: Option<int>, stops: bool)
      requires work != []
      modifies this`work, this`reading, this`checking, this`model, this`channel
      ensures View() == AfterEvent(updates.handlers, home, old(View()), WorkerTime(outcome, stops))
    {
      var cmd := work[0];
      work := work[1..];
      if cmd.TerminateCommand? || stops {
        Terminate();
      }
      if ResultOf(cmd) == Message.Terminate {
        var asked := Publish(Message.Terminate, outcome);
      } else {
        channel := channel + [ResultOf(cmd)];
      }
    }

    // ----- The program of main.rs

    /** The program between callbacks. */
    ghost function View(): Config
      reads this, parser
    {
      Config(model, channel, parser.buf, work, out, reading, checking)
    }

    /** Program::update: register a handler with the broker. */
    method Update(on: MessageType, handler: Handler)
      modifies updates
      ensures updates.handlers == old(updates.handlers)[on := handler]
    {
      updates.Subscribe(on, handler);
    }

    /** The loop delivers one event: callbacks run only while what they wait for is on. */
    method Happen(event: LoopEvent)
      requires mem.Valid() && |CursorTo(home.0, home.1)| + 1 < BufSpec.U32_RANGE
      requires Ready(View(), event) && (event.Input? ==> |event.chunk| + 1 < BufSpec.U32_RANGE)
      requires |AfterEvent(updates.handlers, home, View(), event).model| + 1 < BufSpec.U32_RANGE
      modifies this, parser, mem
      ensures mem.Valid() && View() == AfterEvent(updates.handlers, home, old(View()), event)
    {
      match event
      case Input(chunk) =>
        if reading {
          OnRead(chunk);
        }
      case ReadFailure(errno) =>
        if reading {
          OnReadError(errno);
        }
      case LoopTurn(outcomes, failure) =>
        if checking {
          OnCheck(outcomes, failure);
        }
      case WorkerTime(outcome, stops) =>
        if work != [] {
          Work(outcome, stops);
        }
    }

    /** The loop of main, until the events run out, computes the session of these events. */
    method Run(events: seq<LoopEvent>)
      requires mem.Valid() && updates.handlers == EndToEnd.MAIN_HANDLERS && View() == Start(parser.buf)
      requires |CursorTo(home.0, home.1)| + 1 < BufSpec.U32_RANGE
      requires Readable(EndToEnd.MAIN_HANDLERS, home, parser.buf, events)
      requires |parser.buf| + |InputOf(events)| + 1 < BufSpec.U32_RANGE
      modifies this, parser, mem
      ensures mem.Valid() && View() == Session(EndToEnd.MAIN_HANDLERS, home, old(parser.buf), events)
    {
      ghost var q := parser.buf;
      var i := 0;
      while i < |events|
        invariant i <= |events| && mem.Valid()
        invariant View() == Session(EndToEnd.MAIN_HANDLERS, home, q, events[..i])
      {
        assert Ready(Session(EndToEnd.MAIN_HANDLERS, home, q, events[..i]), events[i]);
        AfterNext(EndToEnd.MAIN_HANDLERS, home, Start(q), events, i);
        ModelFits(home, q, events, i + 1);
        InputOfNext(events, i);
        InputOfPrefix(events, i + 1);
        Happen(events[i]);
        i := i + 1;
      }
      assert events[..i] == events;
    }
  }

  /**
   The program of main.rs: init on the chunks of the report, one handler, then the loop. If
   init succeeds, what main computes is the session that starts from the bytes left after
   the report, so that the screen, the model and what is on its way make up what was typed.
   */
  method RunMain(report: seq<seq<byte>>, events: seq<LoopEvent>) returns (outcome: InitOutcome, program: Program?)
    requires forall k | 0 <= k < |report| :: |report[k]| + 1 < BufSpec.U32_RANGE
    requires var (got, _, step) := ReadAll([], report); step == Panic || (step == Stop && got[0] < 0x80)
    requires var home := Decode(CODED_DIGITS, ReadAll([], report).0);
             home.Home? ==>
               && Readable(EndToEnd.MAIN_HANDLERS, (home.row, home.col), LeftOver(report), events)
               && |LeftOver(report)| + |InputOf(events)| + 1 < BufSpec.U32_RANGE
    ensures var (got, _, step) := ReadAll([], report);
            outcome == if step == Panic then Panicked else Decode(CODED_DIGITS, got)
    ensures program != null <==> outcome.Home?
    ensures outcome.Home? ==>
              var got := ReadAll([], report).0;
              var home, leftover := (outcome.row, outcome.col), LeftOver(report);
              var fed := FedBy(EndToEnd.MAIN_HANDLERS, home, leftover, events);
              && program.View() == Session(EndToEnd.MAIN_HANDLERS, home, leftover, events)
              && EndToEnd.Typed(fed) == program.model + EndToEnd.Typed(EndToEnd.Codes(program.channel) + program.parser.buf)
              && EndToEnd.Growing(got[..IndexOf(got, 0x52)] + [0x48, 0x00], program.out, EndToEnd.Typed(fed))
              && (program.reading ==> fed == leftover + InputOf(events))
              && (program.reading <==> program.checking)
  {
    program := null;
    var parser;
    outcome, parser := Init(report);
    if outcome.Home? {
      ghost var leftover := LeftOver(report);
      ghost var home := (outcome.row, outcome.col);
      CursorLength(CODED_DIGITS, ReadAll([], report).0, outcome.row, outcome.col);
      var mem := new Buffers.Memory();
      program := new Program(mem, parser, (outcome.row, outcome.col));
      program.Update(KeypressType, EndToEnd.MAIN_HANDLERS[KeypressType]);
      program.Run(events);
      SessionEcho(home, leftover, events);
      CursorOfReport(ReadAll([], report).0, outcome.row, outcome.col);
      FedIsInput(EndToEnd.MAIN_HANDLERS, home, leftover, events);
    }
  }

  /** What init leaves in the parser: the bytes after the report. */
  function LeftOver(report: seq<seq<byte>>): seq<byte> {
    var got := ReadAll([], report).0;
    got[TokenLen(CODED_DIGITS, got)..]
  }
}
