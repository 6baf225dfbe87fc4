/**
 Exactly-once publication: every message that has a handler reaches it once and in order,
 on the thread that has to publish it, and the threads together compute what publishing
 the handled messages one after the other computes. All for any handlers, any number of
 workers and every interleaving.
 */
module Publication {
  import opened Bytes
  import opened Messages
  import opened Pipeline
  import opened PipelineSafety

  /** The messages on which thread t ran a handler, in order. */
  function By(handled: seq<Message>, handledBy: seq<nat>, t: nat): seq<Message>
    requires |handled| == |handledBy|
  {
    if handled == [] then []
    else
      var n := |handled| - 1;
      By(handled[..n], handledBy[..n], t) + if handledBy[n] == t then [handled[n]] else []
  }

  lemma BySnoc(handled: seq<Message>, handledBy: seq<nat>, msg: Message, thread: nat, t: nat)
    requires |handled| == |handledBy|
    ensures By(handled + [msg], handledBy + [thread], t) == By(handled, handledBy, t) + if thread == t then [msg] else []
  {
    assert (handled + [msg])[..|handled|] == handled && (handledBy + [thread])[..|handled|] == handledBy;
  }

  /** The message that a thread is about to run a handler on. */
  function Hand(pc: Pc): seq<Message> {
    if pc.PublishWant? || pc.Handling? then [pc.msg] else []
  }

  /**
   What thread t has been given to publish so far: the loop thread what it received, a
   worker its Terminate result, and both only if there is a handler for it.
   */
  function Due(s: State, t: nat): seq<Message> {
    if t == 0 then Wanted(s.received, s.subscribed)
    else if t in s.direct then Wanted([Terminate], s.subscribed)
    else []
  }

  /** Every thread has handled what it was given, in order and once, except for the message in its hand. */
  ghost predicate Published(s: State) {
    |s.handled| == |s.handledBy| && forall t: nat :: PublishedBy(s, t)
  }

  ghost predicate PublishedBy(s: State, t: nat)
    requires |s.handled| == |s.handledBy|
  {
    By(s.handled, s.handledBy, t) + Hand(PcOf(s, t)) == Due(s, t)
  }

  lemma WantedOne(msg: Message, subscribed: set<MessageType>)
    ensures Wanted([msg], subscribed) == if msg.Type() in subscribed then [msg] else []
  {
    assert [msg][..0] == [];
  }

  /** What a step takes into the hand of its thread, beyond what it handles. */
  function Takes(s: State, l: Label): seq<Message>
    requires Enabled(s, l)
  {
    if l.Receive? then Wanted([s.channel[0]], s.subscribed)
    else if l.Deliver? && s.threads[l.t].msg.Terminate? then Wanted([Terminate], s.subscribed)
    else []
  }

  /** A step that receives, delivers or handles nothing leaves the hand of its thread alone. */
  lemma HandKept(s: State, l: Label)
    requires Enabled(s, l) && !l.Receive? && !l.Deliver? && !l.Handle?
    ensures Actor(l) < |s.threads| && Hand(NextPc(s, l)) == Hand(s.threads[Actor(l)])
  {
  }

  lemma HandNext(s: State, l: Label)
    requires Enabled(s, l)
    ensures Actor(l) < |s.threads|
    ensures Hand(s.threads[Actor(l)]) + Takes(s, l) == Handles(s, l) + Hand(NextPc(s, l))
  {
    if l.Receive? {
      WantedOne(s.channel[0], s.subscribed);
    } else if l.Deliver? {
      WantedOne(Terminate, s.subscribed);
    } else if !l.Handle? {
      HandKept(s, l);
    }
  }

  lemma HandShape(s: State, l: Label, t: nat)
    requires Enabled(s, l)
    ensures Hand(PcOf(Next(s, l), t)) == if t == Actor(l) then Hand(NextPc(s, l)) else Hand(PcOf(s, t))
  {
    NextThread(s, l, t);
  }

  lemma PublishedShape(s: State, l: Label)
    requires Enabled(s, l)
    ensures var s' := Next(s, l);
            && s'.handled == s.handled + Handles(s, l)
            && s'.handledBy == s.handledBy + (if l.Handle? then [l.t] else [])
            && s'.received == s.received + (if l.Receive? then [s.channel[0]] else [])
            && s'.direct == s.direct + Publishes(s, l) && s'.subscribed == s.subscribed
  {
  }

  lemma DueReceive(s: State, t: nat)
    requires Enabled(s, Receive)
    ensures Due(Next(s, Receive), t) == Due(s, t) + if t == 0 then Takes(s, Receive) else []
  {
    WantedAppend(s.received, [s.channel[0]], s.subscribed);
    assert s.direct + [] == s.direct;
    assert t > 0 ==> Due(s, t) + [] == Due(s, t);
  }

  /** What a thread is given grows by what the step takes into its hand. */
  lemma DueStep(s: State, l: Label, t: nat)
    requires Roles(s) && Workers(s) && AnswersOnce(s) && Enabled(s, l)
    ensures Due(Next(s, l), t) == Due(s, t) + if t == Actor(l) then Takes(s, l) else []
  {
    if l.Receive? {
      DueReceive(s, t);
    } else {
      assert s.received + [] == s.received;
      DueDirect(s, Next(s, l), t, Publishes(s, l));
      if l.Deliver? && s.threads[l.t].msg.Terminate? && t == l.t {
        NotYetDirect(s, t);
        assert [] + Takes(s, l) == Takes(s, l);
      } else {
        assert Due(s, t) + [] == Due(s, t);
      }
    }
  }

  lemma NotYetDirect(s: State, t: nat)
    requires Roles(s) && Workers(s) && AnswersOnce(s) && Enabled(s, Deliver(t))
    ensures t > 0 && t !in s.direct
  {
    Deliverer(s, t);
    assert AnswerCount(s, t) == 0;
  }

  lemma DueDirect(s: State, s': State, t: nat, direct: seq<nat>)
    requires s'.received == s.received && s'.subscribed == s.subscribed && s'.direct == s.direct + direct
    ensures t == 0 || t !in direct ==> Due(s', t) == Due(s, t)
    ensures t > 0 && t in direct && t !in s.direct ==> Due(s, t) == [] && Due(s', t) == Wanted([Terminate], s.subscribed)
  {
    assert t in s'.direct <==> t in s.direct || t in direct;
  }

  lemma ByStep(s: State, l: Label, t: nat)
    requires |s.handled| == |s.handledBy| && Enabled(s, l)
    ensures var s' := Next(s, l);
            && |s'.handled| == |s'.handledBy|
            && By(s'.handled, s'.handledBy, t) ==
               By(s.handled, s.handledBy, t) + if t == Actor(l) then Handles(s, l) else []
  {
    PublishedShape(s, l);
    var done := By(s.handled, s.handledBy, t);
    assert done + [] == done;
    if l.Handle? {
      BySnoc(s.handled, s.handledBy, s.threads[l.t].msg, l.t, t);
    } else {
      assert s.handled + [] == s.handled && s.handledBy + [] == s.handledBy;
    }
  }

  lemma PublishedByStep(s: State, l: Label, t: nat)
    requires Roles(s) && Workers(s) && AnswersOnce(s) && Enabled(s, l)
    requires |s.handled| == |s.handledBy| && PublishedBy(s, t)
    requires |Next(s, l).handled| == |Next(s, l).handledBy|
    ensures PublishedBy(Next(s, l), t)
  {
    HandNext(s, l);
    HandShape(s, l, t);
    DueStep(s, l, t);
    ByStep(s, l, t);
    PublishedByMoves(s, Next(s, l), t,
      if t == Actor(l) then Takes(s, l) else [], if t == Actor(l) then Handles(s, l) else []);
  }

  /** A message taken in hand is due; handling it leaves the hand and is done. */
  lemma PublishedByMoves(s: State, s': State, t: nat, taken: seq<Message>, handled: seq<Message>)
    requires |s.handled| == |s.handledBy| && PublishedBy(s, t) && |s'.handled| == |s'.handledBy|
    requires Hand(PcOf(s, t)) + taken == handled + Hand(PcOf(s', t))
    requires Due(s', t) == Due(s, t) + taken
    requires By(s'.handled, s'.handledBy, t) == By(s.handled, s.handledBy, t) + handled
    ensures PublishedBy(s', t)
  {
    var done := By(s.handled, s.handledBy, t);
    Assoc(done, handled, Hand(PcOf(s', t)));
    Assoc(done, Hand(PcOf(s, t)), taken);
  }

  lemma PublishedStep(s: State, l: Label)
    requires Roles(s) && Workers(s) && AnswersOnce(s) && Published(s) && Enabled(s, l)
    ensures Published(Next(s, l))
  {
    ByStep(s, l, 0);
    forall t: nat ensures PublishedBy(Next(s, l), t) {
      assert PublishedBy(s, t);
      PublishedByStep(s, l, t);
    }
  }

  lemma {:induction false} PublicationReachable(s: State, ls: seq<Label>)
    requires Invariant(s) && Published(s) && Possible(s, ls)
    ensures Invariant(After(s, ls)) && Published(After(s, ls))
    decreases |ls|
  {
    if ls != [] {
      InvariantStep(s, ls[0]);
      PublishedStep(s, ls[0]);
      PublicationReachable(Next(s, ls[0]), ls[1..]);
    }
  }

  /** From the state in which init leaves the program, under every interleaving. */
  lemma EveryState(subscribed: set<MessageType>, home: (nat, nat), leftover: seq<byte>, ls: seq<Label>)
    requires Possible(Initial(subscribed, home, leftover), ls)
    ensures var s := After(Initial(subscribed, home, leftover), ls); Invariant(s) && Published(s)
  {
    InvariantInitial(subscribed, home, leftover);
    PublicationReachable(Initial(subscribed, home, leftover), ls);
  }

  // ----- What this means for messages and for commands

  /**
   The messages sent that have a handler are, in the order sent: those the loop thread has
   handled, the one in its hand, and those still in the channel.
   */
  lemma ExactlyOnceInOrder(s: State)
    requires Fifo(s) && Published(s)
    ensures Wanted(s.sent, s.subscribed) ==
            By(s.handled, s.handledBy, 0) + Hand(PcOf(s, 0)) + Wanted(s.channel, s.subscribed)
  {
    assert PublishedBy(s, 0);
    WantedAppend(s.received, s.channel, s.subscribed);
  }

  lemma InitialPart(done: seq<Message>, hand: seq<Message>, due: seq<Message>)
    requires done + hand == due && (due == [] || due == [Terminate])
    ensures done == [] || (done == [Terminate] && due == [Terminate])
  {
    assert done == due[..|done|] && |done| <= 1;
  }

  /** A worker that published its result directly has delivered it, and it is a Terminate. */
  lemma DirectResult(s: State, t: nat)
    requires AnswersOnce(s) && AnswersRight(s) && Workers(s) && t in s.direct
    ensures HasDelivered(s, t) && ResultOf(s.accepted[t - 1]) == Terminate
  {
    assert AnswerCount(s, t) > 0;
    AnswersAre(s, t);
  }

  /** A worker handles at most one message, its Terminate result, and only after its call is over. */
  lemma WorkersHandleTerminate(s: State, t: nat)
    requires Invariant(s) && Published(s) && 0 < t
    ensures By(s.handled, s.handledBy, t) == [] || By(s.handled, s.handledBy, t) == [Terminate]
    ensures By(s.handled, s.handledBy, t) != [] ==>
              TerminateType in s.subscribed && HasDelivered(s, t) && ResultOf(s.accepted[t - 1]) == Terminate
  {
    assert PublishedBy(s, t);
    WantedOne(Terminate, s.subscribed);
    InitialPart(By(s.handled, s.handledBy, t), Hand(PcOf(s, t)), Due(s, t));
    if t in s.direct {
      DirectResult(s, t);
    }
  }

  /** Thread t sent nothing and ran the handler for Terminate once, if there is one. */
  ghost predicate PublishedOnce(s: State, t: nat)
    requires |s.handled| == |s.handledBy|
  {
    && multiset(s.senders)[Answer(t)] == 0
    && By(s.handled, s.handledBy, t) == if TerminateType in s.subscribed then [Terminate] else []
  }

  /** Thread t sent this message, once and nothing else, and ran no handler. */
  ghost predicate SentOnce(s: State, t: nat, result: Message)
    requires |s.handled| == |s.handledBy| && |s.senders| == |s.sent|
  {
    && multiset(s.senders)[Answer(t)] == 1
    && (forall k | 0 <= k < |s.senders| && s.senders[k] == Answer(t) :: s.sent[k] == result)
    && By(s.handled, s.handledBy, t) == []
  }

  /**
   When the thread of a command is done, its result was answered exactly once: a Terminate
   result by running its handler, if there is one, and any other by one message on the
   channel; a Terminate command has by then stopped reading and checking.
   */
  lemma FinishedCommand(s: State, t: nat)
    requires Invariant(s) && Published(s)
    requires 0 < t < |s.threads| && s.threads[t].Done?
    ensures |s.threads| == |s.accepted| + 1 && |s.senders| == |s.sent|
    ensures match s.accepted[t - 1]
            case TerminateCommand => PublishedOnce(s, t) && !s.reading && !s.checking && multiset(s.stops)[t] == 1
            case OtherCommand(_, result) => if result.Terminate? then PublishedOnce(s, t) else SentOnce(s, t, result)
  {
    assert HasDelivered(s, t);
    assert AnswerCount(s, t) == 1;
    assert PublishedBy(s, t);
    AnswersAre(s, t);
    WantedOne(Terminate, s.subscribed);
    if s.accepted[t - 1].TerminateCommand? {
      StopsAfter(s, t);
    }
  }

  lemma AnswersAre(s: State, t: nat)
    requires AnswersRight(s)
    ensures forall k | 0 <= k < |s.senders| && s.senders[k] == Answer(t) ::
              0 < t <= |s.accepted| && s.sent[k] == ResultOf(s.accepted[t - 1]) != Terminate
    ensures t in s.direct ==> 0 < t <= |s.accepted| && ResultOf(s.accepted[t - 1]) == Terminate
  {
    forall k | 0 <= k < |s.senders| && s.senders[k] == Answer(t)
      ensures 0 < t <= |s.accepted| && s.sent[k] == ResultOf(s.accepted[t - 1]) != Terminate
    {
      assert RightAnswer(s.senders[k], s.sent[k], s.accepted);
    }
    forall k | 0 <= k < |s.direct| && s.direct[k] == t
      ensures 0 < t <= |s.accepted| && ResultOf(s.accepted[t - 1]) == Terminate
    {
      assert RightDirect(s.direct[k], s.accepted);
    }
  }

  lemma StopsAfter(s: State, t: nat)
    requires Stops(s) && 0 < t < |s.threads| && AfterStop(s.threads[t]) && s.accepted[t - 1].TerminateCommand?
    ensures !s.reading && !s.checking && multiset(s.stops)[t] == 1
  {
    assert StoppedBy(s, t);
    assert t in s.stops;
  }

  // ----- The threads compute what publishing one message after the other computes

  /**
   The model and the commands issued are those of publishing the handled messages one after
   the other, in the order in which the handlers returned. A handler computes from the model
   it read on entry, so this rests on mutual exclusion.
   */
  ghost predicate Sequential(handlers: Handlers, model: seq<byte>, s: State) {
    (s.model, s.issued) == PublishAll(handlers, model, s.handled)
  }

  lemma SequentialStep(handlers: Handlers, model: seq<byte>, s: State, l: Label)
    requires Seen(s) && Sequential(handlers, model, s) && Enabled(s, l) && Obeys(handlers, s, l)
    ensures Sequential(handlers, model, Next(s, l))
  {
    var s' := Next(s, l);
    if l.Handle? {
      assert SeenBy(s, l.t);
      PublishAllSnoc(handlers, model, s.handled, s.threads[l.t].msg);
    } else {
      assert s'.model == s.model && s'.issued == s.issued && s'.handled == s.handled;
    }
  }

  lemma {:induction false} RunIsSequential(handlers: Handlers, model: seq<byte>, s: State, ls: seq<Label>)
    requires Locks(s) && Seen(s) && Sequential(handlers, model, s) && ObeyingRun(handlers, s, ls)
    ensures Sequential(handlers, model, After(s, ls))
    decreases |ls|
  {
    if ls != [] {
      LocksStep(s, ls[0]);
      SeenStep(s, ls[0]);
      SequentialStep(handlers, model, s, ls[0]);
      RunIsSequential(handlers, model, Next(s, ls[0]), ls[1..]);
    }
  }

  lemma {:induction false} ByAlone(handled: seq<Message>, handledBy: seq<nat>)
    requires |handled| == |handledBy|
    requires forall t: nat | t > 0 :: By(handled, handledBy, t) == []
    ensures By(handled, handledBy, 0) == handled
    decreases |handled|
  {
    if handled != [] {
      var n := |handled| - 1;
      forall t: nat | t > 0 ensures By(handled[..n], handledBy[..n], t) == [] {
        assert By(handled, handledBy, t) == [];
      }
      assert handledBy[n] > 0 ==> By(handled, handledBy, handledBy[n]) == [];
      ByAlone(handled[..n], handledBy[..n]);
      assert handled == handled[..n] + [handled[n]];
    }
  }

  /**
   Any program, under every interleaving of its threads: the model and the commands are
   those of publishing the handled messages one after the other; and if Terminate has no
   handler, these are the messages received, in order, less the one in hand.
   */
  lemma HandledInOrder(handlers: Handlers, home: (nat, nat), leftover: seq<byte>, ls: seq<Label>)
    requires ObeyingRun(handlers, Initial(handlers.Keys, home, leftover), ls)
    ensures var s := After(Initial(handlers.Keys, home, leftover), ls);
            && (s.model, s.issued) == PublishAll(handlers, [], s.handled)
            && (TerminateType !in handlers ==>
                  && s.handled + Hand(PcOf(s, 0)) == Wanted(s.received, handlers.Keys)
                  && (Hand(PcOf(s, 0)) == [] ==> (s.model, s.issued) == PublishAll(handlers, [], s.received)))
  {
    var s0 := Initial(handlers.Keys, home, leftover);
    InvariantInitial(handlers.Keys, home, leftover);
    RunIsSequential(handlers, [], s0, ls);
    EveryState(handlers.Keys, home, leftover, ls);
    SubscribedKept(s0, ls);
    if TerminateType !in handlers {
      LoopAlone(handlers, After(s0, ls));
    }
  }

  /** Without a handler for Terminate, only the loop thread publishes. */
  lemma LoopAlone(handlers: Handlers, s: State)
    requires Invariant(s) && Published(s) && s.subscribed == handlers.Keys && TerminateType !in handlers
    requires Sequential(handlers, [], s)
    ensures s.handled + Hand(PcOf(s, 0)) == Wanted(s.received, handlers.Keys)
    ensures Hand(PcOf(s, 0)) == [] ==> (s.model, s.issued) == PublishAll(handlers, [], s.received)
  {
    forall t: nat | t > 0 ensures By(s.handled, s.handledBy, t) == [] {
      WorkersHandleTerminate(s, t);
    }
    ByAlone(s.handled, s.handledBy);
    assert PublishedBy(s, 0);
    PublishWanted(handlers, [], s.received);
    assert s.handled + [] == s.handled;
  }

  lemma {:induction false} SubscribedKept(s: State, ls: seq<Label>)
    requires Possible(s, ls)
    ensures After(s, ls).subscribed == s.subscribed && After(s, ls).home == s.home
    decreases |ls|
  {
    if ls != [] {
      SubscribedKept(Next(s, ls[0]), ls[1..]);
    }
  }
}
