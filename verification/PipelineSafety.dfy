/** What every reachable state of the running program satisfies, for any handlers and any number of workers. */
module PipelineSafety {
  import opened Bytes
  import opened KeyCodes
  import opened Messages
  import opened TokenTheory
  import opened Pipeline

  // ----- Roles: thread 0 runs callbacks, the others run commands

  ghost predicate Roles(s: State) {
    && |s.threads| > 0
    && LoopPc(s.threads[0])
    && forall t | 0 < t < |s.threads| :: WorkerPc(s.threads[t])
  }

  predicate WorkerPc(pc: Pc) {
    (Publishing(pc) || !LoopPc(pc)) && ((pc.PublishWant? || pc.Handling?) ==> pc.msg.Terminate?)
  }

  lemma RoleOfNextPc(s: State, l: Label)
    requires Roles(s) && Enabled(s, l)
    ensures if Actor(l) == 0 then LoopPc(NextPc(s, l)) else WorkerPc(NextPc(s, l))
  {
    assert Actor(l) < |s.threads|;
    assert Actor(l) > 0 ==> WorkerPc(s.threads[Actor(l)]);
  }

  lemma RolesStep(s: State, l: Label)
    requires Roles(s) && Enabled(s, l)
    ensures Roles(Next(s, l))
  {
    RoleOfNextPc(s, l);
    var a, pc, created := Actor(l), NextPc(s, l), Spawn(Creates(s, l));
    assert Next(s, l).threads == s.threads[a := pc] + created;
  }

  // ----- Locks: a mutex records as owner exactly the thread that is inside it

  ghost predicate Locks(s: State) {
    && (forall t: nat :: s.context == Some(t) <==> HoldsContext(PcOf(s, t)))
    && (forall t: nat :: s.inner == Some(t) <==> HoldsInner(PcOf(s, t)))
  }

  /** A step changes what its thread holds exactly by locking or unlocking that mutex. */
  lemma HoldsStep(s: State, l: Label)
    requires Enabled(s, l)
    ensures Actor(l) < |s.threads|
    ensures var had, has := HoldsContext(s.threads[Actor(l)]), HoldsContext(NextPc(s, l));
            if l.LockContext? then !had && has else if l.UnlockContext? then had && !has else had == has
    ensures var had, has := HoldsInner(s.threads[Actor(l)]), HoldsInner(NextPc(s, l));
            if l.LockInner? then !had && has else if l.UnlockInner? then had && !has else had == has
  {
  }

  lemma LocksStep(s: State, l: Label)
    requires Locks(s) && Enabled(s, l)
    ensures Locks(Next(s, l))
  {
    HoldsStep(s, l);
    var s' := Next(s, l);
    var a := Actor(l);
    forall u: nat
      ensures s'.context == Some(u) <==> HoldsContext(PcOf(s', u))
      ensures s'.inner == Some(u) <==> HoldsInner(PcOf(s', u))
    {
      assert u != a ==> PcOf(s', u) == PcOf(s, u) || PcOf(s', u).Queued?;
      assert s.context == Some(u) <==> HoldsContext(PcOf(s, u));
      assert s.inner == Some(u) <==> HoldsInner(PcOf(s, u));
      assert s.context == Some(a) <==> HoldsContext(PcOf(s, a));
      assert s.inner == Some(a) <==> HoldsInner(PcOf(s, a));
    }
  }

  /** A thread that has read the model and is about to act on what it read. */
  predicate UsesModel(pc: Pc) {
    pc.Handling? || pc.Viewing?
  }

  /** Mutual exclusion: no two handlers overlap, and no view overlaps a handler or another view. */
  lemma MutualExclusion(s: State, t: nat, u: nat)
    requires Locks(s) && UsesModel(PcOf(s, t)) && UsesModel(PcOf(s, u))
    ensures t == u
  {
    assert s.context == Some(t) && s.context == Some(u);
  }

  /** While a thread runs a handler or a view, no step of another thread changes the model. */
  lemma Undisturbed(s: State, l: Label, t: nat)
    requires Locks(s) && Enabled(s, l) && UsesModel(PcOf(s, t)) && Actor(l) != t
    ensures Next(s, l).model == s.model
  {
    if l.Handle? {
      MutualExclusion(s, t, l.t);
      assert false;
    }
  }

  /** What a handler or a view has read is still the model. */
  ghost predicate Seen(s: State) {
    forall t: nat :: SeenBy(s, t)
  }

  predicate SeenBy(s: State, t: nat) {
    UsesModel(PcOf(s, t)) ==> PcOf(s, t).seen == s.model
  }

  lemma SeenStep(s: State, l: Label)
    requires Locks(s) && Seen(s) && Enabled(s, l)
    ensures Seen(Next(s, l))
  {
    forall t: nat ensures SeenBy(Next(s, l), t) {
      assert SeenBy(s, t);
      if t == Actor(l) {
        SeenNextPc(s, l);
        NextThread(s, l, t);
      } else if UsesModel(PcOf(s, t)) {
        Undisturbed(s, l, t);
        NextThread(s, l, t);
      } else {
        NextThread(s, l, t);
      }
    }
  }

  /** A thread reads the model as it enters a handler or a view. */
  lemma SeenNextPc(s: State, l: Label)
    requires SeenBy(s, Actor(l)) && Enabled(s, l)
    ensures UsesModel(NextPc(s, l)) ==> NextPc(s, l).seen == s.model == Next(s, l).model
  {
  }

  /** A step moves its own thread only, and may create one that is queued. */
  lemma NextThread(s: State, l: Label, t: nat)
    requires Enabled(s, l)
    ensures Actor(l) < |s.threads|
    ensures var pc := PcOf(Next(s, l), t);
            if t == Actor(l) then pc == NextPc(s, l) else pc == PcOf(s, t) || (t >= |s.threads| && pc.Queued?)
  {
    var a, pc, created := Actor(l), NextPc(s, l), Spawn(Creates(s, l));
    assert t < |s.threads| ==> (s.threads[a := pc] + created)[t] == if t == a then pc else s.threads[t];
  }

  /** No thread waits for a mutex that it holds, and none waits for context while it holds inner. */
  lemma NoRelock(s: State, t: nat)
    requires Locks(s)
    ensures WantsContext(PcOf(s, t)) ==> s.context != Some(t) && s.inner != Some(t)
    ensures WantsInner(PcOf(s, t)) ==> s.inner != Some(t)
  {
  }

  // ----- Deadlock freedom

  predicate Finished(s: State, t: nat) {
    if t == 0 then PcOf(s, t).Idle? else PcOf(s, t).Done?
  }

  /** While the read callback runs, the parser is not stuck on a non-ASCII head. */
  ghost predicate Lexing(s: State) {
    |s.threads| > 0 && (s.threads[0].Reading? ==> Drains(s.parser))
  }

  lemma LexingStep(s: State, l: Label)
    requires Roles(s) && Lexing(s) && Enabled(s, l)
    ensures Lexing(Next(s, l))
  {
    var s' := Next(s, l);
    if l.ReadStart? || l.ReadToken? {
      assert Drains(s'.parser);
    } else {
      assert s'.parser == s.parser;
      assert s'.threads[0].Reading? ==> s.threads[0].Reading? by {
        assert s'.threads[0] == if Actor(l) == 0 then NextPc(s, l) else s.threads[0];
      }
    }
  }

  /** Only messages of a type that has a handler reach a handler. */
  ghost predicate Subscribed(s: State) {
    forall t | 0 <= t < |s.threads| && (s.threads[t].PublishWant? || s.threads[t].Handling?) ::
      s.threads[t].msg.Type() in s.subscribed
  }

  lemma SubscribedStep(s: State, l: Label)
    requires Subscribed(s) && Enabled(s, l)
    ensures Subscribed(Next(s, l))
  {
    var s' := Next(s, l);
    forall t | 0 <= t < |s'.threads| && (s'.threads[t].PublishWant? || s'.threads[t].Handling?)
      ensures s'.threads[t].msg.Type() in s'.subscribed
    {
      assert s'.threads[t] == if t == Actor(l) then NextPc(s, l) else s.threads[t];
    }
  }

  /** A step that thread t can take, doing what the handlers say. */
  predicate CanMove(handlers: Handlers, s: State, t: nat, l: Label) {
    Actor(l) == t && !FromOutside(l) && Enabled(s, l) && Obeys(handlers, s, l)
  }

  /** A thread that waits for no mutex has a step to take. */
  lemma RunningMoves(handlers: Handlers, s: State, t: nat) returns (l: Label)
    requires Roles(s) && Lexing(s) && Subscribed(s) && handlers.Keys == s.subscribed
    requires t < |s.threads| && !Finished(s, t) && !WantsContext(s.threads[t]) && !WantsInner(s.threads[t])
    ensures CanMove(handlers, s, t, l)
  {
    match s.threads[t]
    case Reading => l := if TokenLen(CODED_DIGITS, s.parser) > 0 then ReadToken else ReadEnd;
    case Draining => l := if s.channel != [] then Receive else DrainEnd;
    case Viewing(_) => l := ViewWrite(None);
    case ViewDropInner => l := UnlockInner(t);
    case ViewDropContext => l := UnlockContext(t);
    case Handling(msg, seen) =>
      var (update, cmd) := handlers[msg.Type()](seen, msg);
      l := Handle(t, update, cmd);
    case Queueing(_) => l := QueueWork(t, None);
    case PublishDrop => l := UnlockContext(t);
    case Queued(_) => l := Start(t);
    case Terminating => l := Stop(t);
    case TerminateDrop => l := UnlockInner(t);
    case Calling(_, _, context, inner) =>
      l := if inner then UnlockInner(t) else if context then UnlockContext(t) else Return(t);
    case Returned(_) => l := Deliver(t);
  }

  /** So does a thread whose mutex is free. */
  lemma UnblockedMoves(handlers: Handlers, s: State, t: nat) returns (l: Label)
    requires Roles(s) && Lexing(s) && Subscribed(s) && handlers.Keys == s.subscribed
    requires t < |s.threads| && !Finished(s, t)
    requires WantsContext(s.threads[t]) ==> s.context.None?
    requires WantsInner(s.threads[t]) ==> s.inner.None?
    ensures CanMove(handlers, s, t, l)
  {
    if WantsContext(s.threads[t]) {
      l := LockContext(t);
    } else if WantsInner(s.threads[t]) {
      l := LockInner(t);
    } else {
      l := RunningMoves(handlers, s, t);
    }
  }

  /** Deadlock freedom: as long as some thread is unfinished, some unfinished thread can step. */
  lemma DeadlockFree(handlers: Handlers, s: State, t: nat) returns (u: nat, l: Label)
    requires Roles(s) && Locks(s) && Lexing(s) && Subscribed(s) && handlers.Keys == s.subscribed
    requires t < |s.threads| && !Finished(s, t)
    ensures u < |s.threads| && !Finished(s, u) && CanMove(handlers, s, u, l)
  {
    if s.inner.Some? {
      u := s.inner.value;
      assert HoldsInner(PcOf(s, u));
    } else if s.context.Some? {
      u := s.context.value;
      assert HoldsContext(PcOf(s, u));
    } else {
      u := t;
    }
    l := UnblockedMoves(handlers, s, u);
  }

  // ----- The channel

  /** Every message sent was received once, in the order sent, or is still in the channel. */
  ghost predicate Fifo(s: State) {
    && s.sent == s.received + s.channel
    && |s.senders| == |s.sent|
  }

  lemma FifoStep(s: State, l: Label)
    requires Fifo(s) && Enabled(s, l)
    ensures Fifo(Next(s, l))
  {
    if l.Receive? {
      assert s.received + [s.channel[0]] + s.channel[1..] == s.received + s.channel;
    } else {
      Assoc(s.received, s.channel, Sends(s, l));
    }
  }

  // ----- Work conservation

  /** The commands that queue_work accepted, in order. */
  function Kept(cmds: seq<Command>, verdicts: seq<Option<int>>): seq<Command>
    requires |cmds| >= |verdicts|
    decreases |verdicts|
  {
    if verdicts == [] then []
    else
      var n := |verdicts| - 1;
      Kept(cmds, verdicts[..n]) + if verdicts[n].None? then [cmds[n]] else []
  }

  lemma {:induction false} KeptExtend(cmds: seq<Command>, cmd: Command, verdicts: seq<Option<int>>)
    requires |cmds| >= |verdicts|
    ensures Kept(cmds + [cmd], verdicts) == Kept(cmds, verdicts)
    decreases |verdicts|
  {
    if verdicts != [] {
      KeptExtend(cmds, cmd, verdicts[..|verdicts| - 1]);
    }
  }

  /** A thread that runs cmd can be at pc. */
  predicate Runs(cmd: Command, pc: Pc) {
    match pc
    case Queued(c) => c == cmd
    case TerminateWant => cmd.TerminateCommand?
    case Terminating => cmd.TerminateCommand?
    case TerminateDrop => cmd.TerminateCommand?
    case Calling(_, result, _, _) => cmd.OtherCommand? && cmd.result == result
    case CallWantContext(_, result) => cmd.OtherCommand? && cmd.result == result
    case CallWantInner(_, result, _) => cmd.OtherCommand? && cmd.result == result
    case Returned(msg) => msg == ResultOf(cmd)
    case _ => true
  }

  /** Delivery of a result is over once the worker publishes or is done. */
  predicate Delivered(pc: Pc) {
    Publishing(pc) || pc.Done?
  }

  /** The command being handed to queue_work, if any. */
  function Pending(s: State): seq<Command> {
    if s.context.Some? && PcOf(s, s.context.value).Queueing? then [PcOf(s, s.context.value).cmd] else []
  }

  /**
   Every command a handler returned is being queued, was refused, or was accepted, and
   commands are queued in the order in which they were returned.
   */
  ghost predicate Queue(s: State) {
    && |s.issued| == |s.settled| + |Pending(s)|
    && s.issued[|s.settled|..] == Pending(s)
    && s.accepted == Kept(s.issued, s.settled)
  }

  /** Each accepted command is the command of exactly one thread, which is at work on it or has finished. */
  ghost predicate Workers(s: State) {
    && |s.threads| == |s.accepted| + 1
    && forall t | 0 < t < |s.threads| :: Runs(s.accepted[t - 1], s.threads[t])
  }

  lemma PendingIs(s: State, t: nat)
    requires Locks(s) && HoldsContext(PcOf(s, t))
    ensures Pending(s) == if PcOf(s, t).Queueing? then [PcOf(s, t).cmd] else []
  {
    assert s.context == Some(t);
  }

  /** A step that is neither a handler's nor queue_work leaves the pending command alone. */
  lemma PendingKept(s: State, s': State)
    requires Locks(s) && Locks(s')
    requires forall t: nat :: PcOf(s, t).Queueing? || PcOf(s', t).Queueing? ==> PcOf(s', t) == PcOf(s, t)
    ensures Pending(s') == Pending(s)
  {
    if s.context.Some? && PcOf(s, s.context.value).Queueing? {
      PendingIs(s', s.context.value);
    } else {
      forall t: nat | s'.context == Some(t)
        ensures !PcOf(s', t).Queueing?
      {
        assert s.context == Some(t) <==> HoldsContext(PcOf(s, t));
      }
    }
  }

  lemma HandleQueues(s: State, l: Label)
    requires Locks(s) && Queue(s) && Enabled(s, l) && l.Handle?
    ensures Queue(Next(s, l))
  {
    var s' := Next(s, l);
    LocksStep(s, l);
    PendingIs(s, l.t);
    PendingIs(s', l.t);
    assert s'.settled == s.settled && s'.accepted == s.accepted;
    if l.cmd.Some? {
      KeptExtend(s.issued, l.cmd.value, s.settled);
    } else {
      assert s'.issued == s.issued;
    }
  }

  lemma QueueWorkSettles(s: State, l: Label)
    requires Locks(s) && Queue(s) && Enabled(s, l) && l.QueueWork?
    ensures Queue(Next(s, l))
  {
    var s' := Next(s, l);
    LocksStep(s, l);
    PendingIs(s, l.t);
    PendingIs(s', l.t);
    assert s.issued[|s.settled|..][0] == s.threads[l.t].cmd;
    assert s'.settled[..|s.settled|] == s.settled;
    assert s'.issued == s.issued;
  }

  lemma QueueStep(s: State, l: Label)
    requires Locks(s) && Queue(s) && Enabled(s, l)
    ensures Queue(Next(s, l))
  {
    if l.Handle? {
      HandleQueues(s, l);
    } else if l.QueueWork? {
      QueueWorkSettles(s, l);
    } else {
      var s' := Next(s, l);
      LocksStep(s, l);
      assert s'.issued == s.issued && s'.settled == s.settled && s'.accepted == s.accepted;
      forall t: nat
        ensures PcOf(s, t).Queueing? || PcOf(s', t).Queueing? ==> PcOf(s', t) == PcOf(s, t)
      {
        assert PcOf(s', t) == if t == Actor(l) then NextPc(s, l) else PcOf(s, t);
      }
      PendingKept(s, s');
    }
  }

  lemma WorkersStep(s: State, l: Label)
    requires Roles(s) && Workers(s) && Enabled(s, l)
    ensures Workers(Next(s, l))
  {
    var s' := Next(s, l);
    var a := Actor(l);
    assert a > 0 ==> Runs(s.accepted[a - 1], s.threads[a]) && WorkerPc(s.threads[a]);
    forall t | 0 < t < |s'.threads|
      ensures Runs(s'.accepted[t - 1], s'.threads[t])
    {
      if t < |s.threads| && t != a {
        assert Runs(s.accepted[t - 1], s.threads[t]);
      }
    }
  }

  // ----- Exactly one answer for each command

  predicate HasDelivered(s: State, t: nat) {
    0 < t < |s.threads| && Delivered(s.threads[t])
  }

  /** How often thread t sent its result, or published it. */
  function AnswerCount(s: State, t: nat): nat {
    multiset(s.senders)[Answer(t)] + multiset(s.direct)[t]
  }

  /** A worker answers once, when its call is over; no other thread ever does. */
  ghost predicate AnswersOnce(s: State) {
    forall t: nat :: AnswerCount(s, t) == if HasDelivered(s, t) then 1 else 0
  }

  /** An answer is the result of the command of its sender, and not a Terminate. */
  predicate RightAnswer(from: Sender, msg: Message, commands: seq<Command>) {
    from.Answer? ==>
      0 < from.thread <= |commands| && msg == ResultOf(commands[from.thread - 1]) && msg != Terminate
  }

  /** A result published directly is a Terminate. */
  predicate RightDirect(t: nat, commands: seq<Command>) {
    0 < t <= |commands| && ResultOf(commands[t - 1]) == Terminate
  }

  ghost predicate AnswersRight(s: State) {
    && |s.senders| == |s.sent|
    && (forall k | 0 <= k < |s.senders| :: RightAnswer(s.senders[k], s.sent[k], s.accepted))
    && (forall k | 0 <= k < |s.direct| :: RightDirect(s.direct[k], s.accepted))
  }

  lemma DeliveredPc(s: State, l: Label)
    requires Roles(s) && Enabled(s, l) && Actor(l) > 0
    ensures Actor(l) < |s.threads|
    ensures Delivered(NextPc(s, l)) <==> Delivered(s.threads[Actor(l)]) || l.Deliver?
  {
    assert WorkerPc(s.threads[Actor(l)]);
  }

  lemma DeliveredStep(s: State, l: Label, t: nat)
    requires Roles(s) && Enabled(s, l)
    ensures HasDelivered(Next(s, l), t) <==> HasDelivered(s, t) || (l.Deliver? && t == l.t)
  {
    var a, s' := Actor(l), Next(s, l);
    if a > 0 {
      DeliveredPc(s, l);
    }
    assert s'.threads == s.threads[a := NextPc(s, l)] + Spawn(Creates(s, l));
    assert t < |s.threads| ==> s'.threads[t] == if t == a then NextPc(s, l) else s.threads[t];
    assert |s.threads| <= t < |s'.threads| ==> s'.threads[t].Queued?;
  }

  /** The thread that delivers is a worker that has not delivered before. */
  lemma Deliverer(s: State, t: nat)
    requires Roles(s) && Workers(s) && Enabled(s, Deliver(t))
    ensures 0 < t <= |s.accepted| && !HasDelivered(s, t) && s.threads[t].msg == ResultOf(s.accepted[t - 1])
  {
    assert t > 0 && Runs(s.accepted[t - 1], s.threads[t]);
  }

  lemma CountAppend<T>(a: seq<T>, b: seq<T>, x: T)
    ensures multiset(a + b)[x] == multiset(a)[x] + multiset(b)[x]
  {
  }

  lemma AnswersOnceStep(s: State, l: Label)
    requires Roles(s) && Workers(s) && AnswersOnce(s) && Enabled(s, l)
    ensures AnswersOnce(Next(s, l))
  {
    if l.Deliver? {
      Deliverer(s, l.t);
    }
    var s' := Next(s, l);
    forall t: nat
      ensures AnswerCount(s', t) == if HasDelivered(s', t) then 1 else 0
    {
      DeliveredStep(s, l, t);
      AnswerCountStep(s, l, t);
      assert AnswerCount(s, t) == if HasDelivered(s, t) then 1 else 0;
    }
  }

  lemma AnswerCountStep(s: State, l: Label, t: nat)
    requires Enabled(s, l)
    ensures AnswerCount(Next(s, l), t) == AnswerCount(s, t) + if l.Deliver? && t == l.t then 1 else 0
  {
    CountAppend(s.senders, SentBy(s, l), Answer(t));
    CountAppend(s.direct, Publishes(s, l), t);
    AnswersOfStep(s, l, t);
  }

  lemma AnswersOfStep(s: State, l: Label, t: nat)
    requires Enabled(s, l)
    ensures multiset(SentBy(s, l))[Answer(t)] + multiset(Publishes(s, l))[t] == if l.Deliver? && t == l.t then 1 else 0
  {
  }

  lemma AnswersRightStep(s: State, l: Label)
    requires Roles(s) && Workers(s) && AnswersRight(s) && Enabled(s, l)
    ensures AnswersRight(Next(s, l))
  {
    if l.Deliver? {
      Deliverer(s, l.t);
    }
    AnswersExtend(s, Next(s, l), SentBy(s, l), Sends(s, l), Publishes(s, l), Creates(s, l));
  }

  lemma AnswersExtend(s: State, s': State, from: seq<Sender>, msgs: seq<Message>, direct: seq<nat>, created: seq<Command>)
    requires AnswersRight(s) && |from| == |msgs|
    requires s'.senders == s.senders + from && s'.sent == s.sent + msgs
    requires s'.direct == s.direct + direct && s'.accepted == s.accepted + created
    requires forall k | 0 <= k < |from| :: RightAnswer(from[k], msgs[k], s.accepted)
    requires forall k | 0 <= k < |direct| :: RightDirect(direct[k], s.accepted)
    ensures AnswersRight(s')
  {
    forall k | 0 <= k < |s'.senders|
      ensures RightAnswer(s'.senders[k], s'.sent[k], s'.accepted)
    {
      if k < |s.senders| {
        assert RightAnswer(s.senders[k], s.sent[k], s.accepted);
      } else {
        assert RightAnswer(from[k - |s.senders|], msgs[k - |s.senders|], s.accepted);
      }
    }
    forall k | 0 <= k < |s'.direct|
      ensures RightDirect(s'.direct[k], s'.accepted)
    {
      if k < |s.direct| {
        assert RightDirect(s.direct[k], s.accepted);
      } else {
        assert RightDirect(direct[k - |s.direct|], s.accepted);
      }
    }
  }

  // ----- Terminate stops the handles

  /** The thread of a Terminate command is past its call of terminate. */
  predicate AfterStop(pc: Pc) {
    pc.TerminateDrop? || pc.Returned? || Publishing(pc) || pc.Done?
  }

  /**
   Reading and checking are on exactly as long as no thread has called terminate, and the
   thread of a Terminate command has called it once by the time its call is over.
   */
  ghost predicate Stops(s: State) {
    && (s.reading <==> s.stops == [])
    && (s.checking <==> s.stops == [])
    && (forall t: nat | t == 0 || t >= |s.threads| :: multiset(s.stops)[t] == 0)
    && |s.threads| == |s.accepted| + 1
    && (forall t | 0 < t < |s.threads| :: StoppedBy(s, t))
  }

  predicate StoppedBy(s: State, t: nat)
    requires 0 < t < |s.threads| && |s.threads| == |s.accepted| + 1
  {
    s.accepted[t - 1].TerminateCommand? ==> multiset(s.stops)[t] == if AfterStop(s.threads[t]) then 1 else 0
  }

  lemma AfterStopNext(s: State, l: Label)
    requires Roles(s) && Workers(s) && Enabled(s, l) && 0 < Actor(l)
    ensures Actor(l) < |s.threads|
    ensures s.accepted[Actor(l) - 1].TerminateCommand? ==>
              (AfterStop(NextPc(s, l)) <==> AfterStop(s.threads[Actor(l)]) || l.Stop?)
              && (l.Stop? ==> !AfterStop(s.threads[Actor(l)]))
  {
    assert WorkerPc(s.threads[Actor(l)]);
    assert Runs(s.accepted[Actor(l) - 1], s.threads[Actor(l)]);
  }

  lemma StopsStep(s: State, l: Label)
    requires Roles(s) && Workers(s) && Stops(s) && Enabled(s, l)
    ensures Stops(Next(s, l))
  {
    if 0 < Actor(l) {
      AfterStopNext(s, l);
    }
    StopsShape(s, l);
    StopsExtend(s, Next(s, l), Actor(l), NextPc(s, l), Creates(s, l), if l.Stop? then [l.t] else []);
  }

  lemma StopsShape(s: State, l: Label)
    requires Roles(s) && Workers(s) && Enabled(s, l)
    ensures Actor(l) < |s.threads| && (l.Stop? ==> Actor(l) == l.t > 0)
    ensures var s' := Next(s, l);
            && s'.threads == s.threads[Actor(l) := NextPc(s, l)] + Spawn(Creates(s, l))
            && s'.accepted == s.accepted + Creates(s, l)
            && s'.stops == s.stops + (if l.Stop? then [l.t] else [])
            && s'.reading == (s.reading && !l.Stop?) && s'.checking == (s.checking && !l.Stop?)
  {
  }

  lemma StopsExtend(s: State, s': State, a: nat, pc: Pc, created: seq<Command>, called: seq<nat>)
    requires Stops(s) && a < |s.threads| && (called == [] || (called == [a] && a > 0))
    requires s'.threads == s.threads[a := pc] + Spawn(created) && s'.accepted == s.accepted + created
    requires s'.stops == s.stops + called
    requires s'.reading == (s.reading && called == []) && s'.checking == (s.checking && called == [])
    requires a > 0 && s.accepted[a - 1].TerminateCommand? ==>
               && (AfterStop(pc) <==> AfterStop(s.threads[a]) || called != [])
               && (called != [] ==> !AfterStop(s.threads[a]))
    ensures Stops(s')
  {
    forall t: nat ensures multiset(s'.stops)[t] == multiset(s.stops)[t] + if called == [t] then 1 else 0 {
      CountAppend(s.stops, called, t);
    }
    forall t | 0 < t < |s'.threads| ensures StoppedBy(s', t) {
      if t < |s.threads| {
        assert StoppedBy(s, t);
        assert s'.threads[t] == if t == a then pc else s.threads[t];
      } else {
        assert s'.threads[t] == Queued(created[t - |s.threads|]);
      }
    }
  }

  // ----- Check callbacks

  /** The loop thread is in a check callback that has not tried to write its frame yet. */
  predicate InCheck(pc: Pc) {
    pc.Draining? || Publishing(pc) || pc.ViewWantContext? || pc.ViewWantInner? || pc.Viewing?
  }

  /**
   Every check callback tries to write one frame, unless it is still on its way there, and
   each attempt that does not fail writes one, which is pending until it has ended.
   */
  ghost predicate Checks(s: State) {
    && |s.threads| > 0
    && s.checks == |s.views| + (if InCheck(s.threads[0]) then 1 else 0)
    && |s.views| == |s.frames| + |Errors(s.views)|
    && |s.frames| == s.writes + s.completed
  }

  lemma InCheckNext(s: State, l: Label)
    requires Enabled(s, l) && LoopPc(s.threads[0]) && Actor(l) == 0
    ensures InCheck(NextPc(s, l)) <==> l.CheckStart? || (InCheck(s.threads[0]) && !l.ViewWrite?)
    ensures l.CheckStart? ==> !InCheck(s.threads[0])
    ensures l.ViewWrite? ==> InCheck(s.threads[0])
  {
  }

  lemma ChecksStep(s: State, l: Label)
    requires Roles(s) && Checks(s) && Enabled(s, l)
    ensures Checks(Next(s, l))
  {
    if Actor(l) == 0 {
      InCheckNext(s, l);
    }
    ChecksShape(s, l);
    if l.ViewWrite? {
      ErrorsSnoc(s.views, l.failure);
    } else {
      assert s.views + [] == s.views;
    }
  }

  lemma ChecksShape(s: State, l: Label)
    requires Enabled(s, l)
    ensures var s' := Next(s, l);
            && |s'.threads| > 0 && s'.threads[0] == (if Actor(l) == 0 then NextPc(s, l) else s.threads[0])
            && s'.checks == s.checks + (if l.CheckStart? then 1 else 0)
            && s'.writes + s'.completed == s.writes + s.completed + |Frames(s, l)|
            && s'.frames == s.frames + Frames(s, l)
            && s'.views == s.views + (if l.ViewWrite? then [l.failure] else [])
  {
    var a, pc, created := Actor(l), NextPc(s, l), Spawn(Creates(s, l));
    assert (s.threads[a := pc] + created)[0] == if a == 0 then pc else s.threads[0];
  }

  // ----- Failures are reported

  /** The messages of one sender, in the order sent. */
  function Reports(sent: seq<Message>, senders: seq<Sender>, who: Sender): seq<Message>
    requires |sent| == |senders|
  {
    if sent == [] then []
    else
      var n := |sent| - 1;
      Reports(sent[..n], senders[..n], who) + if senders[n] == who then [sent[n]] else []
  }

  lemma ReportsSend(sent: seq<Message>, senders: seq<Sender>, msgs: seq<Message>, from: seq<Sender>, who: Sender)
    requires |sent| == |senders| && |msgs| == |from| <= 1
    ensures Reports(sent + msgs, senders + from, who) ==
            Reports(sent, senders, who) + if from == [who] then msgs else []
  {
    if msgs == [] {
      assert sent + msgs == sent && senders + from == senders;
    } else {
      assert (sent + msgs)[..|sent|] == sent && (senders + from)[..|sent|] == senders;
      assert msgs == [msgs[0]];
    }
  }

  /**
   The errors sent for refused commands are, in order, those that queue_work returned, and
   the errors sent for frames, in order, those that the writes returned.
   */
  ghost predicate Reported(s: State) {
    && |s.senders| == |s.sent|
    && Reports(s.sent, s.senders, QueueFailure) == Errors(s.settled)
    && Reports(s.sent, s.senders, ViewFailure) == Errors(s.views)
  }

  /** What a step reports, and for whom. */
  lemma ReportsOfStep(s: State, l: Label)
    requires Enabled(s, l)
    ensures SentBy(s, l) == [QueueFailure] <==> l.QueueWork? && l.failure.Some?
    ensures SentBy(s, l) == [ViewFailure] <==> l.ViewWrite? && l.failure.Some?
    ensures (l.QueueWork? || l.ViewWrite?) && l.failure.Some? ==> Sends(s, l) == [Error(l.failure.value)]
  {
  }

  lemma ReportedShape(s: State, l: Label)
    requires Enabled(s, l)
    ensures var s' := Next(s, l);
            && s'.sent == s.sent + Sends(s, l) && s'.senders == s.senders + SentBy(s, l)
            && s'.settled == s.settled + (if l.QueueWork? then [l.failure] else [])
            && s'.views == s.views + (if l.ViewWrite? then [l.failure] else [])
  {
  }

  lemma ReportedStep(s: State, l: Label)
    requires Reported(s) && Enabled(s, l)
    ensures Reported(Next(s, l))
  {
    ReportedShape(s, l);
    ReportsOfStep(s, l);
    ReportsSend(s.sent, s.senders, Sends(s, l), SentBy(s, l), QueueFailure);
    ReportsSend(s.sent, s.senders, Sends(s, l), SentBy(s, l), ViewFailure);
    assert s.settled + [] == s.settled && s.views + [] == s.views;
    if l.QueueWork? {
      ErrorsSnoc(s.settled, l.failure);
    } else if l.ViewWrite? {
      ErrorsSnoc(s.views, l.failure);
    }
  }

  // ----- The keys sent are those of the input stream

  /** The codes of the keypresses that the read callback sent, in order. */
  function ReadCodes(sent: seq<Message>, senders: seq<Sender>): seq<seq<byte>>
    requires |sent| == |senders|
  {
    if sent == [] then []
    else
      var n := |sent| - 1;
      ReadCodes(sent[..n], senders[..n])
      + if senders[n] == Reader && sent[n].Keypress? then [sent[n].keycode.code] else []
  }

  lemma ReadCodesSend(sent: seq<Message>, senders: seq<Sender>, msgs: seq<Message>, from: seq<Sender>)
    requires |sent| == |senders| && |msgs| == |from| <= 1
    ensures ReadCodes(sent + msgs, senders + from) ==
            ReadCodes(sent, senders)
            + if msgs != [] && from[0] == Reader && msgs[0].Keypress? then [msgs[0].keycode.code] else []
  {
    if msgs == [] {
      assert sent + msgs == sent && senders + from == senders;
    } else {
      assert (sent + msgs)[..|sent|] == sent && (senders + from)[..|sent|] == senders;
    }
  }

  /**
   However the input is split into reads and the threads interleave, the keypresses sent so
   far are an initial part of the tokenisation of the whole input, and the parser holds the rest.
   */
  ghost predicate Lexed(s: State) {
    |s.senders| == |s.sent| && Consistent(CODED_DIGITS, s.fed, ReadCodes(s.sent, s.senders), s.parser)
  }

  /** A token sends its code; no other step sends a keypress as the reader. */
  lemma LexedShape(s: State, l: Label)
    requires |s.senders| == |s.sent| && Enabled(s, l)
    ensures var s' := Next(s, l);
            && |s'.senders| == |s'.sent|
            && ReadCodes(s'.sent, s'.senders) ==
               ReadCodes(s.sent, s.senders)
               + if l.ReadToken? then [s.parser[..TokenLen(CODED_DIGITS, s.parser)]] else []
  {
    ReadCodesSend(s.sent, s.senders, Sends(s, l), SentBy(s, l));
  }

  lemma InputShape(s: State, l: Label)
    requires Enabled(s, l)
    ensures var s' := Next(s, l);
            && s'.parser == ParserAfter(s, l)
            && s'.fed == if l.ReadStart? then s.fed + l.chunk else s.fed
  {
    assert s.fed + [] == s.fed;
  }

  lemma LexedStep(s: State, l: Label)
    requires Lexed(s) && Enabled(s, l)
    ensures Lexed(Next(s, l))
  {
    var codes := ReadCodes(s.sent, s.senders);
    LexedShape(s, l);
    InputShape(s, l);
    if l.ReadToken? {
      ParseConsistent(CODED_DIGITS, s.fed, codes, s.parser);
    } else {
      assert codes + [] == codes;
      if l.ReadStart? {
        FeedConsistent(CODED_DIGITS, s.fed, codes, s.parser, l.chunk);
      }
    }
  }

  // ----- All together

  ghost predicate Invariant(s: State) {
    && Roles(s) && Locks(s) && Seen(s) && Lexing(s) && Subscribed(s)
    && Fifo(s) && Queue(s) && Workers(s) && AnswersOnce(s) && AnswersRight(s)
    && Stops(s) && Checks(s) && Reported(s) && Lexed(s)
  }

  lemma InvariantStep(s: State, l: Label)
    requires Invariant(s) && Enabled(s, l)
    ensures Invariant(Next(s, l))
  {
    RolesStep(s, l);
    LocksStep(s, l);
    SeenStep(s, l);
    LexingStep(s, l);
    SubscribedStep(s, l);
    FifoStep(s, l);
    QueueStep(s, l);
    WorkersStep(s, l);
    AnswersOnceStep(s, l);
    AnswersRightStep(s, l);
    StopsStep(s, l);
    ChecksStep(s, l);
    ReportedStep(s, l);
    LexedStep(s, l);
  }

  lemma InvariantInitial(subscribed: set<MessageType>, home: (nat, nat), leftover: seq<byte>)
    ensures Invariant(Initial(subscribed, home, leftover))
  {
  }

  /** Every reachable state, under every interleaving, satisfies the invariant. */
  lemma {:induction false} Reachable(s: State, ls: seq<Label>)
    requires Invariant(s) && Possible(s, ls)
    ensures Invariant(After(s, ls))
    decreases |ls|
  {
    if ls != [] {
      InvariantStep(s, ls[0]);
      Reachable(Next(s, ls[0]), ls[1..]);
    }
  }
}
