/** Messages, the commands that handlers return, and what publishing messages to handlers means. */
module Messages {
  import opened Bytes
  import KeyCodes

  datatype MessageType = TerminateType | InterruptType | KeypressType | ErrorType

  datatype Message = Terminate | Interrupt | Keypress(keycode: KeyCodes.KeyCode) | Error(errno: int) {
    function Type(): MessageType {
      match this
      case Terminate => TerminateType
      case Interrupt => InterruptType
      case Keypress(_) => KeypressType
      case Error(_) => ErrorType
    }
  }

  /**
   A command: Terminate, or any other that makes at most `fuel` lock requests and stop
   calls, respecting the order context before inner, and then answers with `result`.
   */
  datatype Command = TerminateCommand | OtherCommand(fuel: nat, result: Message)

  function ResultOf(cmd: Command): Message {
    match cmd
    case TerminateCommand => Terminate
    case OtherCommand(_, result) => result
  }

  /** A handler: the new model and the command it asks for. */
  type Handler = (seq<byte>, Message) -> (seq<byte>, Option<Command>)

  /** The handlers of a program, at most one for each type of message. */
  type Handlers = map<MessageType, Handler>

  function Listed(cmd: Option<Command>): seq<Command> {
    if cmd.Some? then [cmd.value] else []
  }

  /** The messages among msgs for which there is a handler. */
  function Wanted(msgs: seq<Message>, subscribed: set<MessageType>): seq<Message> {
    if msgs == [] then []
    else
      var last := msgs[|msgs| - 1];
      Wanted(msgs[..|msgs| - 1], subscribed) + if last.Type() in subscribed then [last] else []
  }

  lemma {:induction false} WantedAppend(a: seq<Message>, b: seq<Message>, subscribed: set<MessageType>)
    ensures Wanted(a + b, subscribed) == Wanted(a, subscribed) + Wanted(b, subscribed)
    decreases |b|
  {
    if b == [] {
      assert a + b == a;
    } else {
      WantedAppend(a, b[..|b| - 1], subscribed);
      assert (a + b)[..|a + b| - 1] == a + b[..|b| - 1];
    }
  }

  /** What publishing a message does to the model, and the commands it asks for. */
  function PublishOne(handlers: Handlers, model: seq<byte>, msg: Message): (seq<byte>, seq<Command>) {
    if msg.Type() in handlers then
      var (model', cmd) := handlers[msg.Type()](model, msg);
      (model', Listed(cmd))
    else (model, [])
  }

  function PublishAll(handlers: Handlers, model: seq<byte>, msgs: seq<Message>): (seq<byte>, seq<Command>) {
    if msgs == [] then (model, [])
    else
      var (model1, cmds) := PublishAll(handlers, model, msgs[..|msgs| - 1]);
      var (model2, more) := PublishOne(handlers, model1, msgs[|msgs| - 1]);
      (model2, cmds + more)
  }

  lemma PublishAllSnoc(handlers: Handlers, model: seq<byte>, msgs: seq<Message>, msg: Message)
    ensures var (model1, cmds) := PublishAll(handlers, model, msgs);
            var (model2, more) := PublishOne(handlers, model1, msg);
            PublishAll(handlers, model, msgs + [msg]) == (model2, cmds + more)
  {
    assert (msgs + [msg])[..|msgs|] == msgs;
  }

  lemma {:induction false} PublishAllCons(handlers: Handlers, model: seq<byte>, msg: Message, msgs: seq<Message>)
    ensures var (model1, cmds) := PublishOne(handlers, model, msg);
            var (model2, more) := PublishAll(handlers, model1, msgs);
            PublishAll(handlers, model, [msg] + msgs) == (model2, cmds + more)
    decreases |msgs|
  {
    var (model1, cmds) := PublishOne(handlers, model, msg);
    if msgs == [] {
      PublishAllSnoc(handlers, model, [], msg);
      assert [msg] + [] == [] + [msg];
      assert [] + cmds == cmds + [];
    } else {
      var front, last := msgs[..|msgs| - 1], msgs[|msgs| - 1];
      PublishAllCons(handlers, model, msg, front);
      PublishAllSnoc(handlers, model, [msg] + front, last);
      ButLast([msg], msgs);
      var (model2, more) := PublishAll(handlers, model1, front);
      Assoc(cmds, more, PublishOne(handlers, model2, last).1);
    }
  }

  /** Publishing only the messages that have a handler comes to the same. */
  lemma {:induction false} PublishWanted(handlers: Handlers, model: seq<byte>, msgs: seq<Message>)
    ensures PublishAll(handlers, model, Wanted(msgs, handlers.Keys)) == PublishAll(handlers, model, msgs)
    decreases |msgs|
  {
    if msgs != [] {
      var front, last := msgs[..|msgs| - 1], msgs[|msgs| - 1];
      PublishWanted(handlers, model, front);
      var wanted := Wanted(front, handlers.Keys);
      if last.Type() in handlers {
        PublishAllSnoc(handlers, model, wanted, last);
      } else {
        var (model1, cmds) := PublishAll(handlers, model, front);
        assert wanted + [] == wanted && cmds + [] == cmds;
      }
    }
  }

  /**
   A message reaches the handler registered for its own type and no other: an error the one
   for errors, a keypress the one for keypresses, and so on; without it nothing happens.
   */
  lemma EachTypeHasItsHandler(others: Handlers, handler: Handler, model: seq<byte>, keycode: KeyCodes.KeyCode, errno: int)
    ensures Reaches(others[ErrorType := handler], others - {ErrorType}, handler, model, Error(errno))
    ensures Reaches(others[KeypressType := handler], others - {KeypressType}, handler, model, Keypress(keycode))
    ensures Reaches(others[TerminateType := handler], others - {TerminateType}, handler, model, Terminate)
    ensures Reaches(others[InterruptType := handler], others - {InterruptType}, handler, model, Interrupt)
  {
  }

  /** With these handlers, publishing msg runs `handler` on it; without it, it does nothing. */
  predicate Reaches(handlers: Handlers, without: Handlers, handler: Handler, model: seq<byte>, msg: Message) {
    && PublishOne(handlers, model, msg) == (handler(model, msg).0, Listed(handler(model, msg).1))
    && PublishOne(without, model, msg) == (model, [])
  }

  // ----- The drain loop of the check callback

  /** What draining the channel leaves behind and brings about. */
  datatype Drained = Drained(model: seq<byte>, received: seq<Message>, issued: seq<Command>, accepted: seq<Command>)

  /** The error message that a refused command leaves in the channel. */
  function Refusal(cmds: seq<Command>, outcome: Option<int>): seq<Message> {
    if cmds != [] && outcome.Some? then [Error(outcome.value)] else []
  }

  /** What queueing the commands of one message makes of it. */
  function Outcome(model: seq<byte>, msg: Message, cmds: seq<Command>, outcome: Option<int>): Drained {
    Drained(model, [msg], cmds, if outcome.Some? then [] else cmds)
  }

  function Join(first: Drained, rest: Drained): Drained {
    Drained(rest.model, first.received + rest.received, first.issued + rest.issued, first.accepted + rest.accepted)
  }

  /**
   Receiving and publishing until the channel is empty. The calls of queue_work turn out as
   `outcomes` says, and succeed beyond it; a failure sends an error on the same channel.
   */
  function Drain(handlers: Handlers, model: seq<byte>, channel: seq<Message>, outcomes: seq<Option<int>>): Drained
    decreases 2 * |outcomes| + |channel|
  {
    if channel == [] then Drained(model, [], [], [])
    else
      var (model1, cmds) := PublishOne(handlers, model, channel[0]);
      var outcome := if outcomes == [] then None else outcomes[0];
      var left := if cmds == [] || outcomes == [] then outcomes else outcomes[1..];
      Join(Outcome(model1, channel[0], cmds, outcome),
           Drain(handlers, model1, channel[1..] + Refusal(cmds, outcome), left))
  }

  /** Draining is publishing the messages received one after the other. */
  lemma {:induction false} DrainIsPublishAll(
      handlers: Handlers, model: seq<byte>, channel: seq<Message>, outcomes: seq<Option<int>>)
    ensures var d := Drain(handlers, model, channel, outcomes);
            (d.model, d.issued) == PublishAll(handlers, model, d.received)
    decreases 2 * |outcomes| + |channel|
  {
    if channel != [] {
      var (model1, cmds) := PublishOne(handlers, model, channel[0]);
      var outcome := if outcomes == [] then None else outcomes[0];
      var left := if cmds == [] || outcomes == [] then outcomes else outcomes[1..];
      var rest := channel[1..] + Refusal(cmds, outcome);
      DrainIsPublishAll(handlers, model1, rest, left);
      PublishAllCons(handlers, model, channel[0], Drain(handlers, model1, rest, left).received);
    }
  }

  /** The error messages for the outcomes that were failures, in order. */
  function Errors(outcomes: seq<Option<int>>): seq<Message> {
    if outcomes == [] then []
    else
      var last := outcomes[|outcomes| - 1];
      Errors(outcomes[..|outcomes| - 1]) + if last.Some? then [Error(last.value)] else []
  }

  lemma ErrorsSnoc(outcomes: seq<Option<int>>, outcome: Option<int>)
    ensures Errors(outcomes + [outcome]) == Errors(outcomes) + if outcome.Some? then [Error(outcome.value)] else []
  {
    assert (outcomes + [outcome])[..|outcomes|] == outcomes;
  }

  lemma {:induction false} ErrorsCons(outcome: Option<int>, outcomes: seq<Option<int>>)
    ensures Errors([outcome] + outcomes) == (if outcome.Some? then [Error(outcome.value)] else []) + Errors(outcomes)
    decreases |outcomes|
  {
    if outcomes == [] {
      assert [outcome] + outcomes == [] + [outcome];
      ErrorsSnoc([], outcome);
    } else {
      var front, last := outcomes[..|outcomes| - 1], outcomes[|outcomes| - 1];
      ErrorsCons(outcome, front);
      assert [outcome] + outcomes == [outcome] + front + [last];
      ErrorsSnoc([outcome] + front, last);
    }
  }

  /** The outcomes that the first n calls of queue_work meet. */
  function Met(outcomes: seq<Option<int>>, n: nat): seq<Option<int>> {
    if n <= |outcomes| then outcomes[..n] else outcomes
  }

  lemma MetCons(outcomes: seq<Option<int>>, n: nat)
    requires outcomes != []
    ensures Met(outcomes, 1 + n) == [outcomes[0]] + Met(outcomes[1..], n)
  {
  }

  /** One turn of the drain meets at most one outcome, and sends its error on the channel. */
  lemma MetNext(cmds: seq<Command>, outcomes: seq<Option<int>>, n: nat)
    requires |cmds| <= 1
    ensures var outcome := if outcomes == [] then None else outcomes[0];
            var left := if cmds == [] || outcomes == [] then outcomes else outcomes[1..];
            Errors(Met(outcomes, |cmds| + n)) == Refusal(cmds, outcome) + Errors(Met(left, n))
  {
    if cmds != [] && outcomes != [] {
      MetCons(outcomes, n);
      ErrorsCons(outcomes[0], Met(outcomes[1..], n));
    } else {
      var errors := Errors(Met(outcomes, n));
      assert [] + errors == errors;
    }
  }

  lemma ReceivedNext(channel: seq<Message>, refusal: seq<Message>, errors: seq<Message>)
    requires channel != []
    ensures [channel[0]] + (channel[1..] + refusal + errors) == channel + (refusal + errors)
  {
  }

  lemma OneCommand(handlers: Handlers, model: seq<byte>, msg: Message)
    ensures |PublishOne(handlers, model, msg).1| <= 1
  {
  }

  /** The channel was received in order, then the errors of the refused commands; all others were accepted. */
  predicate ReceivedAll(channel: seq<Message>, outcomes: seq<Option<int>>, d: Drained) {
    var errors := Errors(Met(outcomes, |d.issued|));
    d.received == channel + errors && |d.issued| == |d.accepted| + |errors|
  }

  lemma ReceivedOneMore(channel: seq<Message>, outcomes: seq<Option<int>>, model: seq<byte>, cmds: seq<Command>, rest: Drained)
    requires channel != [] && |cmds| <= 1
    requires var outcome := if outcomes == [] then None else outcomes[0];
             var left := if cmds == [] || outcomes == [] then outcomes else outcomes[1..];
             ReceivedAll(channel[1..] + Refusal(cmds, outcome), left, rest)
    ensures var outcome := if outcomes == [] then None else outcomes[0];
            ReceivedAll(channel, outcomes, Join(Outcome(model, channel[0], cmds, outcome), rest))
  {
    var outcome := if outcomes == [] then None else outcomes[0];
    var left := if cmds == [] || outcomes == [] then outcomes else outcomes[1..];
    MetNext(cmds, outcomes, |rest.issued|);
    ReceivedNext(channel, Refusal(cmds, outcome), Errors(Met(left, |rest.issued|)));
  }

  /**
   Everything in the channel is received, in order, and after it, in order, the errors of
   the commands that were refused; all other commands are accepted.
   */
  lemma {:induction false} DrainReceivesAll(
      handlers: Handlers, model: seq<byte>, channel: seq<Message>, outcomes: seq<Option<int>>)
    ensures ReceivedAll(channel, outcomes, Drain(handlers, model, channel, outcomes))
    decreases 2 * |outcomes| + |channel|
  {
    if channel == [] {
      assert Met(outcomes, 0) == [];
    } else {
      var (model1, cmds) := PublishOne(handlers, model, channel[0]);
      var outcome := if outcomes == [] then None else outcomes[0];
      var left := if cmds == [] || outcomes == [] then outcomes else outcomes[1..];
      var next := channel[1..] + Refusal(cmds, outcome);
      DrainReceivesAll(handlers, model1, next, left);
      OneCommand(handlers, model, channel[0]);
      ReceivedOneMore(channel, outcomes, model1, cmds, Drain(handlers, model1, next, left));
    }
  }

  /** When every queue_work succeeds, exactly the channel is received and every command is accepted. */
  lemma {:induction false} DrainAcceptsAll(
      handlers: Handlers, model: seq<byte>, channel: seq<Message>, outcomes: seq<Option<int>>)
    requires forall k | 0 <= k < |outcomes| :: outcomes[k] == None
    ensures var d := Drain(handlers, model, channel, outcomes); d.received == channel && d.accepted == d.issued
    decreases 2 * |outcomes| + |channel|
  {
    if channel != [] {
      var (model1, cmds) := PublishOne(handlers, model, channel[0]);
      var left := if cmds == [] || outcomes == [] then outcomes else outcomes[1..];
      DrainAcceptsAll(handlers, model1, channel[1..], left);
      assert channel[1..] + [] == channel[1..];
      assert channel == [channel[0]] + channel[1..];
    }
  }

  /** The keypress messages of a list of codes. */
  function Keypresses(codes: seq<seq<byte>>): seq<Message> {
    if codes == [] then [] else Keypresses(codes[..|codes| - 1]) + [Keypress(KeyCodes.Classify(codes[|codes| - 1]))]
  }

  lemma KeypressesSnoc(codes: seq<seq<byte>>, code: seq<byte>)
    ensures Keypresses(codes + [code]) == Keypresses(codes) + [Keypress(KeyCodes.Classify(code))]
  {
    assert (codes + [code])[..|codes|] == codes;
  }

  lemma {:induction false} KeypressesCons(code: seq<byte>, codes: seq<seq<byte>>)
    ensures Keypresses([code] + codes) == [Keypress(KeyCodes.Classify(code))] + Keypresses(codes)
  {
    if codes == [] {
      assert [code] + codes == [] + [code];
      KeypressesSnoc([], code);
    } else {
      var n := |codes| - 1;
      KeypressesCons(code, codes[..n]);
      assert [code] + codes == ([code] + codes[..n]) + [codes[n]];
      KeypressesSnoc([code] + codes[..n], codes[n]);
    }
  }
}
