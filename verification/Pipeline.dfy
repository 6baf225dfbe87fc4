/**
 The running program as a step protocol: the loop thread (thread 0) runs the read and
 check callbacks, every other thread runs one queued command. The threads share two
 mutexes, a FIFO channel and the handles of the loop.
 */
module Pipeline {
  import opened Bytes
  import opened KeyCodes
  import opened Messages
  import opened TokenTheory
  import Handshake

  /**
   Where a thread stands. A handler and a view take time: the thread reads the model when it
   enters (`seen`), and what it computes from it takes effect with a later step.
   */
  datatype Pc =
    // the loop thread
    | Idle
    | Reading
    | Draining
    | ViewWantContext
    | ViewWantInner
    | Viewing(seen: seq<byte>)
    | ViewDropInner
    | ViewDropContext
    // publish, on any thread
    | PublishWant(msg: Message)
    | Handling(msg: Message, seen: seq<byte>)
    | Queueing(cmd: Command)
    | PublishDrop
    // a worker
    | Queued(cmd: Command)
    | TerminateWant
    | Terminating
    | TerminateDrop
    | Calling(fuel: nat, result: Message, context: bool, inner: bool)
    | CallWantContext(fuel: nat, result: Message)
    | CallWantInner(fuel: nat, result: Message, context: bool)
    | Returned(msg: Message)
    | Done

  predicate HoldsContext(pc: Pc) {
    || pc.Handling? || pc.Queueing? || pc.PublishDrop?
    || pc.ViewWantInner? || pc.Viewing? || pc.ViewDropInner? || pc.ViewDropContext?
    || ((pc.Calling? || pc.CallWantInner?) && pc.context)
  }

  predicate HoldsInner(pc: Pc) {
    || pc.Viewing? || pc.ViewDropInner?
    || pc.Terminating? || pc.TerminateDrop?
    || (pc.Calling? && pc.inner)
  }

  predicate WantsContext(pc: Pc) {
    pc.ViewWantContext? || pc.PublishWant? || pc.CallWantContext?
  }

  predicate WantsInner(pc: Pc) {
    pc.ViewWantInner? || pc.TerminateWant? || pc.CallWantInner?
  }

  predicate Publishing(pc: Pc) {
    pc.PublishWant? || pc.Handling? || pc.Queueing? || pc.PublishDrop?
  }

  predicate LoopPc(pc: Pc) {
    || Publishing(pc) || pc.Idle? || pc.Reading? || pc.Draining?
    || pc.ViewWantContext? || pc.ViewWantInner? || pc.Viewing? || pc.ViewDropInner? || pc.ViewDropContext?
  }

  /** Who sent a message, and why. */
  datatype Sender =
    | Reader                 // a keypress or read error
    | Answer(thread: nat)    // the result of the command of that thread
    | QueueFailure           // work that could not be queued
    | ViewFailure            // a frame that could not be written

  datatype State = State(
    subscribed: set<MessageType>,
    home: (nat, nat),
    // the mutexes, with their owners
    context: Option<nat>,
    inner: Option<nat>,
    threads: seq<Pc>,
    // the handles
    reading: bool,
    checking: bool,
    writes: nat,
    // the data
    parser: seq<byte>,
    model: seq<byte>,
    channel: seq<Message>,
    // what has happened so far
    fed: seq<byte>,
    sent: seq<Message>,
    senders: seq<Sender>,
    received: seq<Message>,
    handled: seq<Message>,     // messages on which a handler ran
    handledBy: seq<nat>,       // the thread on which it did
    direct: seq<nat>,          // threads that published their result directly
    issued: seq<Command>,      // commands returned by handlers
    settled: seq<Option<int>>, // how queue_work refused them, if it did
    accepted: seq<Command>,    // the command of thread t is accepted[t - 1]
    stops: seq<nat>,           // threads that called terminate on the inner program
    checks: nat,               // check callbacks started
    views: seq<Option<int>>,   // how each attempt to write a frame failed, if it did
    frames: seq<seq<byte>>,    // what has been written
    completed: nat             // writes that have ended
  )

  datatype Label =
    | LockContext(t: nat)
    | LockInner(t: nat)
    | UnlockInner(t: nat)
    | UnlockContext(t: nat)
    | ReadStart(chunk: seq<byte>)
    | ReadError(errno: int)
    | ReadToken
    | ReadEnd
    | CheckStart
    | Receive
    | DrainEnd
    | Handle(t: nat, update: seq<byte>, cmd: Option<Command>)
    | QueueWork(t: nat, failure: Option<int>)
    | ViewWrite(failure: Option<int>)
    | WriteDone
    | Start(t: nat)
    | Stop(t: nat)
    | AskContext(t: nat)
    | AskInner(t: nat)
    | Return(t: nat)
    | Deliver(t: nat)

  /** Draining q ends: the parser does not meet a non-ASCII head. */
  predicate Drains(q: seq<byte>) {
    var r := Residue(CODED_DIGITS, q);
    r == [] || r[0] < 0x80
  }

  function PcOf(s: State, t: nat): Pc {
    if t < |s.threads| then s.threads[t] else Done
  }

  predicate Enabled(s: State, l: Label) {
    |s.threads| > 0 &&
    match l
    case LockContext(t) => WantsContext(PcOf(s, t)) && s.context.None?
    case LockInner(t) => WantsInner(PcOf(s, t)) && s.inner.None?
    case UnlockInner(t) =>
      var pc := PcOf(s, t);
      pc.ViewDropInner? || pc.TerminateDrop? || (pc.Calling? && pc.inner)
    case UnlockContext(t) =>
      var pc := PcOf(s, t);
      pc.ViewDropContext? || pc.PublishDrop? || (pc.Calling? && pc.context)
    case ReadStart(chunk) => s.threads[0].Idle? && s.reading && Drains(s.parser + chunk)
    case ReadError(_) => s.threads[0].Idle? && s.reading
    case ReadToken => s.threads[0].Reading? && TokenLen(CODED_DIGITS, s.parser) > 0
    case ReadEnd =>
      && s.threads[0].Reading? && TokenLen(CODED_DIGITS, s.parser) == 0
      && (s.parser == [] || s.parser[0] < 0x80)
    case CheckStart => s.threads[0].Idle? && s.checking
    case Receive => s.threads[0].Draining? && s.channel != []
    case DrainEnd => s.threads[0].Draining? && s.channel == []
    case Handle(t, _, _) => PcOf(s, t).Handling?
    case QueueWork(t, _) => PcOf(s, t).Queueing?
    case ViewWrite(_) => s.threads[0].Viewing?
    case WriteDone => s.writes > 0
    case Start(t) => PcOf(s, t).Queued?
    case Stop(t) =>
      var pc := PcOf(s, t);
      pc.Terminating? || (pc.Calling? && pc.inner && pc.fuel > 0)
    case AskContext(t) =>
      var pc := PcOf(s, t);
      pc.Calling? && pc.fuel > 0 && !pc.context && !pc.inner
    case AskInner(t) =>
      var pc := PcOf(s, t);
      pc.Calling? && pc.fuel > 0 && !pc.inner
    case Return(t) =>
      var pc := PcOf(s, t);
      pc.Calling? && !pc.context && !pc.inner
    case Deliver(t) => PcOf(s, t).Returned?
  }

  /** Where the thread of a lock step goes. */
  function WithContext(pc: Pc, model: seq<byte>): Pc
    requires WantsContext(pc)
  {
    match pc
    case ViewWantContext => ViewWantInner
    case PublishWant(msg) => Handling(msg, model)
    case CallWantContext(fuel, result) => Calling(fuel, result, true, false)
  }

  function WithInner(pc: Pc, model: seq<byte>): Pc
    requires WantsInner(pc)
  {
    match pc
    case ViewWantInner => Viewing(model)
    case TerminateWant => Terminating
    case CallWantInner(fuel, result, context) => Calling(fuel, result, context, true)
  }

  function WithoutInner(pc: Pc): Pc
    requires pc.ViewDropInner? || pc.TerminateDrop? || pc.Calling?
  {
    match pc
    case ViewDropInner => ViewDropContext
    case TerminateDrop => Returned(Terminate)
    case Calling(fuel, result, context, _) => Calling(fuel, result, context, false)
  }

  /** publish returns into the drain loop of the check callback, or ends the worker. */
  function WithoutContext(t: nat, pc: Pc): Pc
    requires pc.ViewDropContext? || pc.PublishDrop? || pc.Calling?
  {
    match pc
    case ViewDropContext => Idle
    case PublishDrop => if t == 0 then Draining else Done
    case Calling(fuel, result, _, inner) => Calling(fuel, result, false, inner)
  }

  // ----- What a step does, aspect by aspect

  /** The thread that a step moves. */
  function Actor(l: Label): nat {
    match l
    case LockContext(t) => t
    case LockInner(t) => t
    case UnlockInner(t) => t
    case UnlockContext(t) => t
    case Handle(t, _, _) => t
    case QueueWork(t, _) => t
    case Start(t) => t
    case Stop(t) => t
    case AskContext(t) => t
    case AskInner(t) => t
    case Return(t) => t
    case Deliver(t) => t
    case _ => 0
  }

  /** Steps that the outside world decides to take: input, a turn of the loop, the end of a write. */
  predicate FromOutside(l: Label) {
    l.ReadStart? || l.ReadError? || l.CheckStart? || l.WriteDone?
  }

  /** Where it moves to. publish returns into the drain loop of the check callback, or ends the worker. */
  function NextPc(s: State, l: Label): Pc
    requires Enabled(s, l)
  {
    var pc := PcOf(s, Actor(l));
    match l
    case LockContext(_) => WithContext(pc, s.model)
    case LockInner(_) => WithInner(pc, s.model)
    case UnlockInner(_) => WithoutInner(pc)
    case UnlockContext(t) => WithoutContext(t, pc)
    case ReadStart(_) => Reading
    case ReadEnd => Idle
    case CheckStart => Draining
    case Receive => if s.channel[0].Type() in s.subscribed then PublishWant(s.channel[0]) else Draining
    case DrainEnd => ViewWantContext
    case Handle(_, _, None) => PublishDrop
    case Handle(_, _, Some(cmd)) => Queueing(cmd)
    case QueueWork(_, _) => PublishDrop
    case ViewWrite(_) => ViewDropInner
    case Start(_) =>
      (match pc.cmd
       case TerminateCommand => TerminateWant
       case OtherCommand(fuel, result) => Calling(fuel, result, false, false))
    case Stop(_) =>
      if pc.Terminating? then TerminateDrop else Calling(pc.fuel - 1, pc.result, pc.context, pc.inner)
    case AskContext(_) => CallWantContext(pc.fuel - 1, pc.result)
    case AskInner(_) => CallWantInner(pc.fuel - 1, pc.result, pc.context)
    case Return(_) => Returned(pc.result)
    case Deliver(_) => if pc.msg.Terminate? && TerminateType in s.subscribed then PublishWant(pc.msg) else Done
    case ReadError(_) => pc
    case ReadToken => pc
    case WriteDone => pc
  }

  /** The command of the thread it creates. */
  function Creates(s: State, l: Label): seq<Command>
    requires Enabled(s, l)
  {
    if l.QueueWork? && l.failure.None? then [s.threads[l.t].cmd] else []
  }

  /** The message it sends on the channel, and who sends it. */
  function Sends(s: State, l: Label): seq<Message>
    requires Enabled(s, l)
  {
    match l
    case ReadToken => [Keypress(Classify(s.parser[..TokenLen(CODED_DIGITS, s.parser)]))]
    case ReadError(errno) => [Error(errno)]
    case QueueWork(_, Some(errno)) => [Error(errno)]
    case ViewWrite(Some(errno)) => [Error(errno)]
    case Deliver(t) => if s.threads[t].msg.Terminate? then [] else [s.threads[t].msg]
    case _ => []
  }

  function SentBy(s: State, l: Label): (from: seq<Sender>)
    requires Enabled(s, l)
    ensures |from| == |Sends(s, l)|
  {
    match l
    case ReadToken => [Reader]
    case ReadError(_) => [Reader]
    case QueueWork(_, Some(_)) => [QueueFailure]
    case ViewWrite(Some(_)) => [ViewFailure]
    case Deliver(t) => if s.threads[t].msg.Terminate? then [] else [Answer(t)]
    case _ => []
  }

  function Publishes(s: State, l: Label): seq<nat>
    requires Enabled(s, l)
  {
    if l.Deliver? && s.threads[l.t].msg.Terminate? then [l.t] else []
  }

  function Issues(l: Label): seq<Command> {
    if l.Handle? then Listed(l.cmd) else []
  }

  /** The message on which it runs a handler. */
  function Handles(s: State, l: Label): seq<Message>
    requires Enabled(s, l)
  {
    if l.Handle? then [s.threads[l.t].msg] else []
  }

  /** The queue of the parser. */
  function ParserAfter(s: State, l: Label): seq<byte> {
    match l
    case ReadStart(chunk) => s.parser + chunk
    case ReadToken => s.parser[TokenLen(CODED_DIGITS, s.parser)..]
    case _ => s.parser
  }

  /** One write: the buffer that moves the cursor home and the buffer of the view, each with its terminator. */
  function Frame(home: (nat, nat), model: seq<byte>): seq<byte> {
    Handshake.CursorTo(home.0, home.1) + [NUL] + (model + [NUL])
  }

  /** The two buffers of a write, one after the other. */
  lemma FrameBytes(home: (nat, nat), model: seq<byte>)
    ensures Frame(home, model) == Handshake.CursorTo(home.0, home.1) + [0x00] + model + [0x00]
  {
    Assoc(Handshake.CursorTo(home.0, home.1) + [0x00], model, [0x00]);
  }

  function Frames(s: State, l: Label): seq<seq<byte>>
    requires Enabled(s, l)
  {
    if l.ViewWrite? && l.failure.None? then [Frame(s.home, s.threads[0].seen)] else []
  }

  function Spawn(cmds: seq<Command>): (pcs: seq<Pc>)
    ensures |pcs| == |cmds| && forall k | 0 <= k < |cmds| :: pcs[k] == Queued(cmds[k])
  {
    if cmds == [] then [] else [Queued(cmds[0])] + Spawn(cmds[1..])
  }

  function Next(s: State, l: Label): State
    requires Enabled(s, l)
  {
    State(
      s.subscribed,
      s.home,
      if l.LockContext? then Some(l.t) else if l.UnlockContext? then None else s.context,
      if l.LockInner? then Some(l.t) else if l.UnlockInner? then None else s.inner,
      s.threads[Actor(l) := NextPc(s, l)] + Spawn(Creates(s, l)),
      s.reading && !l.Stop?,
      s.checking && !l.Stop?,
      if l.WriteDone? then s.writes - 1 else s.writes + |Frames(s, l)|,
      ParserAfter(s, l),
      if l.Handle? then l.update else s.model,
      (if l.Receive? then s.channel[1..] else s.channel) + Sends(s, l),
      s.fed + (if l.ReadStart? then l.chunk else []),
      s.sent + Sends(s, l),
      s.senders + SentBy(s, l),
      s.received + (if l.Receive? then [s.channel[0]] else []),
      s.handled + Handles(s, l),
      s.handledBy + (if l.Handle? then [l.t] else []),
      s.direct + Publishes(s, l),
      s.issued + Issues(l),
      s.settled + (if l.QueueWork? then [l.failure] else []),
      s.accepted + Creates(s, l),
      s.stops + (if l.Stop? then [l.t] else []),
      s.checks + (if l.CheckStart? then 1 else 0),
      s.views + (if l.ViewWrite? then [l.failure] else []),
      s.frames + Frames(s, l),
      s.completed + (if l.WriteDone? then 1 else 0))
  }

  /** run has started reading and checking; the parser still holds what init read beyond the report. */
  function Initial(subscribed: set<MessageType>, home: (nat, nat), leftover: seq<byte>): State {
    State(subscribed, home, None, None, [Idle], true, true, 0, leftover, [], [],
          leftover, [], [], [], [], [], [], [], [], [], [], 0, [], [], 0)
  }

  /** A sequence of steps that can be taken from s. */
  predicate Possible(s: State, ls: seq<Label>)
    decreases |ls|
  {
    ls == [] || (Enabled(s, ls[0]) && Possible(Next(s, ls[0]), ls[1..]))
  }

  function After(s: State, ls: seq<Label>): State
    requires Possible(s, ls)
    decreases |ls|
  {
    if ls == [] then s else After(Next(s, ls[0]), ls[1..])
  }

  /** Handle steps do what the handlers of the program say. */
  predicate Obeys(handlers: Handlers, s: State, l: Label) {
    l.Handle? && PcOf(s, l.t).Handling? ==>
      var Handling(msg, seen) := PcOf(s, l.t);
      msg.Type() in handlers && (l.update, l.cmd) == handlers[msg.Type()](seen, msg)
  }

  /** A sequence of steps that the program with these handlers can take from s. */
  predicate ObeyingRun(handlers: Handlers, s: State, ls: seq<Label>)
    ensures ObeyingRun(handlers, s, ls) ==> Possible(s, ls)
    decreases |ls|
  {
    ls == [] || (Enabled(s, ls[0]) && Obeys(handlers, s, ls[0]) && ObeyingRun(handlers, Next(s, ls[0]), ls[1..]))
  }
}
