/**
 The read callback, the check callback and a Terminate command, each taken without
 interference, as runs of the step protocol that the handlers of the program allow.
 */
module CallbackRuns {
  import opened Bytes
  import opened KeyCodes
  import opened Messages
  import opened TokenTheory
  import opened Pipeline
  import Handshake

  // ----- Composing runs

  /** The program with these handlers can go from s to s' by the steps ls. */
  predicate Leads(handlers: Handlers, s: State, ls: seq<Label>, s': State) {
    ObeyingRun(handlers, s, ls) && After(s, ls) == s'
  }

  lemma OneStep(handlers: Handlers, s: State, l: Label, ls: seq<Label>, s': State)
    requires Enabled(s, l) && Obeys(handlers, s, l) && Leads(handlers, Next(s, l), ls, s')
    ensures Leads(handlers, s, [l] + ls, s')
  {
    assert ([l] + ls)[1..] == ls;
  }

  lemma {:induction false} Compose(handlers: Handlers, s: State, ls: seq<Label>, s1: State, more: seq<Label>, s2: State)
    requires Leads(handlers, s, ls, s1) && Leads(handlers, s1, more, s2)
    ensures Leads(handlers, s, ls + more, s2)
    decreases |ls|
  {
    if ls == [] {
      assert ls + more == more;
    } else {
      FirstThenRest(ls, more);
      Compose(handlers, Next(s, ls[0]), ls[1..], s1, more, s2);
      OneStep(handlers, s, ls[0], ls[1..] + more, s2);
    }
  }

  /** The error message that a failed write leaves in the channel. */
  function WriteError(failure: Option<int>): seq<Message> {
    if failure.Some? then [Error(failure.value)] else []
  }

  /** The frame that a write puts on the screen. */
  function Written(home: (nat, nat), model: seq<byte>, failure: Option<int>): seq<seq<byte>> {
    if failure.None? then [Frame(home, model)] else []
  }

  // ----- Plumbing: what a single step changes, one lemma for each kind of label

  lemma Unchanged(s: State)
    ensures s.channel + [] == s.channel && s.fed + [] == s.fed && s.sent + [] == s.sent && s.senders + [] == s.senders
    ensures s.received + [] == s.received && s.handled + [] == s.handled && s.handledBy + [] == s.handledBy
    ensures s.direct + [] == s.direct && s.issued + [] == s.issued && s.settled + [] == s.settled
    ensures s.accepted + [] == s.accepted && s.stops + [] == s.stops
    ensures s.views + [] == s.views && s.frames + [] == s.frames
  {
  }

  /** Steps that only move their thread, and lock or unlock for it. */
  predicate OnlyMoves(l: Label) {
    || l.LockContext? || l.LockInner? || l.UnlockInner? || l.UnlockContext?
    || l.ReadEnd? || l.DrainEnd? || l.Start? || l.AskInner? || l.Return?
  }

  lemma MoveIs(s: State, l: Label)
    requires Enabled(s, l) && OnlyMoves(l)
    ensures Actor(l) < |s.threads|
    ensures Next(s, l) == s.(
              threads := s.threads[Actor(l) := NextPc(s, l)],
              context := if l.LockContext? then Some(l.t) else if l.UnlockContext? then None else s.context,
              inner := if l.LockInner? then Some(l.t) else if l.UnlockInner? then None else s.inner)
  {
    Unchanged(s);
    assert s.threads[Actor(l) := NextPc(s, l)] + [] == s.threads[Actor(l) := NextPc(s, l)];
  }

  /** A step that only moves its thread, as a run. */
  lemma MoveRun(handlers: Handlers, s: State, l: Label) returns (s': State)
    requires Enabled(s, l) && OnlyMoves(l)
    ensures Leads(handlers, s, [l], s')
    ensures Actor(l) < |s.threads|
    ensures s' == s.(
              threads := s.threads[Actor(l) := NextPc(s, l)],
              context := if l.LockContext? then Some(l.t) else if l.UnlockContext? then None else s.context,
              inner := if l.LockInner? then Some(l.t) else if l.UnlockInner? then None else s.inner)
  {
    MoveIs(s, l);
    s' := Next(s, l);
    OneStep(handlers, s, l, [], s');
  }

  lemma LockContextRun(handlers: Handlers, s: State, t: nat) returns (s': State)
    requires t < |s.threads| && WantsContext(s.threads[t]) && s.context.None?
    ensures Leads(handlers, s, [LockContext(t)], s')
    ensures s' == s.(threads := s.threads[t := WithContext(s.threads[t], s.model)], context := Some(t))
  {
    s' := MoveRun(handlers, s, LockContext(t));
  }

  lemma LockInnerRun(handlers: Handlers, s: State, t: nat) returns (s': State)
    requires t < |s.threads| && WantsInner(s.threads[t]) && s.inner.None?
    ensures Leads(handlers, s, [LockInner(t)], s')
    ensures s' == s.(threads := s.threads[t := WithInner(s.threads[t], s.model)], inner := Some(t))
  {
    s' := MoveRun(handlers, s, LockInner(t));
  }

  lemma UnlockInnerRun(handlers: Handlers, s: State, t: nat) returns (s': State)
    requires t < |s.threads|
    requires s.threads[t].ViewDropInner? || s.threads[t].TerminateDrop? || (s.threads[t].Calling? && s.threads[t].inner)
    ensures Leads(handlers, s, [UnlockInner(t)], s')
    ensures s' == s.(threads := s.threads[t := WithoutInner(s.threads[t])], inner := None)
  {
    s' := MoveRun(handlers, s, UnlockInner(t));
  }

  lemma UnlockContextRun(handlers: Handlers, s: State, t: nat) returns (s': State)
    requires t < |s.threads| && (s.threads[t].ViewDropContext? || s.threads[t].PublishDrop?)
    ensures Leads(handlers, s, [UnlockContext(t)], s')
    ensures s' == s.(threads := s.threads[t := WithoutContext(t, s.threads[t])], context := None)
  {
    s' := MoveRun(handlers, s, UnlockContext(t));
  }

  lemma ReadStartIs(s: State, chunk: seq<byte>)
    requires Enabled(s, ReadStart(chunk))
    ensures Next(s, ReadStart(chunk)) ==
            s.(threads := s.threads[0 := Reading], parser := s.parser + chunk, fed := s.fed + chunk)
  {
    Unchanged(s);
    assert s.threads[0 := Reading] + [] == s.threads[0 := Reading];
  }

  lemma ReadTokenIs(s: State)
    requires Enabled(s, ReadToken)
    ensures var n := TokenLen(CODED_DIGITS, s.parser);
            var msgs := [Keypress(Classify(s.parser[..n]))];
            Next(s, ReadToken) ==
            s.(parser := s.parser[n..], channel := s.channel + msgs, sent := s.sent + msgs, senders := s.senders + [Reader])
  {
    Unchanged(s);
    assert s.threads[0 := s.threads[0]] + [] == s.threads;
  }

  lemma ReadErrorIs(s: State, errno: int)
    requires Enabled(s, ReadError(errno))
    ensures Next(s, ReadError(errno)) ==
            s.(channel := s.channel + [Error(errno)], sent := s.sent + [Error(errno)], senders := s.senders + [Reader])
  {
    Unchanged(s);
    assert s.threads[0 := s.threads[0]] + [] == s.threads;
  }

  lemma CheckStartIs(s: State)
    requires Enabled(s, CheckStart)
    ensures Next(s, CheckStart) == s.(threads := s.threads[0 := Draining], checks := s.checks + 1)
  {
    Unchanged(s);
    assert s.threads[0 := Draining] + [] == s.threads[0 := Draining];
  }

  lemma ReceiveIs(s: State)
    requires Enabled(s, Receive)
    ensures Next(s, Receive) == s.(
              threads := s.threads[0 := NextPc(s, Receive)],
              channel := s.channel[1..], received := s.received + [s.channel[0]])
  {
    Unchanged(s);
    assert s.threads[0 := NextPc(s, Receive)] + [] == s.threads[0 := NextPc(s, Receive)];
    assert s.channel[1..] + [] == s.channel[1..];
  }

  lemma HandleIs(s: State, t: nat, update: seq<byte>, cmd: Option<Command>)
    requires Enabled(s, Handle(t, update, cmd))
    ensures Next(s, Handle(t, update, cmd)) == s.(
              threads := s.threads[t := if cmd.Some? then Queueing(cmd.value) else PublishDrop],
              model := update, issued := s.issued + Listed(cmd),
              handled := s.handled + [s.threads[t].msg], handledBy := s.handledBy + [t])
  {
    Unchanged(s);
    var pc := NextPc(s, Handle(t, update, cmd));
    assert s.threads[t := pc] + [] == s.threads[t := pc];
  }

  lemma QueueWorkIs(s: State, t: nat, outcome: Option<int>)
    requires Enabled(s, QueueWork(t, outcome))
    ensures var cmds := [s.threads[t].cmd];
            var accepted := if outcome.Some? then [] else cmds;
            var refusal := Refusal(cmds, outcome);
            Next(s, QueueWork(t, outcome)) == s.(
              threads := s.threads[t := PublishDrop] + Spawn(accepted),
              channel := s.channel + refusal, sent := s.sent + refusal,
              senders := s.senders + (if outcome.Some? then [QueueFailure] else []),
              settled := s.settled + [outcome], accepted := s.accepted + accepted)
  {
    Unchanged(s);
  }

  lemma ViewWriteIs(s: State, failure: Option<int>)
    requires Enabled(s, ViewWrite(failure))
    ensures var msgs := WriteError(failure);
            var frames := Written(s.home, s.threads[0].seen, failure);
            Next(s, ViewWrite(failure)) == s.(
              threads := s.threads[0 := ViewDropInner], writes := s.writes + |frames|, frames := s.frames + frames,
              channel := s.channel + msgs, sent := s.sent + msgs, views := s.views + [failure],
              senders := s.senders + (if failure.Some? then [ViewFailure] else []))
  {
    Unchanged(s);
    assert s.threads[0 := ViewDropInner] + [] == s.threads[0 := ViewDropInner];
  }

  lemma StopIs(s: State, t: nat)
    requires Enabled(s, Stop(t))
    ensures Next(s, Stop(t)) == s.(
              threads := s.threads[t := NextPc(s, Stop(t))], reading := false, checking := false, stops := s.stops + [t])
  {
    Unchanged(s);
    assert s.threads[t := NextPc(s, Stop(t))] + [] == s.threads[t := NextPc(s, Stop(t))];
  }

  lemma DeliverIs(s: State, t: nat)
    requires Enabled(s, Deliver(t))
    ensures var msgs := if s.threads[t].msg.Terminate? then [] else [s.threads[t].msg];
            Next(s, Deliver(t)) == s.(
              threads := s.threads[t := NextPc(s, Deliver(t))],
              channel := s.channel + msgs, sent := s.sent + msgs,
              senders := s.senders + (if s.threads[t].msg.Terminate? then [] else [Answer(t)]),
              direct := s.direct + (if s.threads[t].msg.Terminate? then [t] else []))
  {
    Unchanged(s);
    assert s.threads[t := NextPc(s, Deliver(t))] + [] == s.threads[t := NextPc(s, Deliver(t))];
  }

  // ----- The read callback

  /** From s to s', only the parser, the bytes fed and the channel have changed, in this way. */
  predicate ReadEffect(s: State, s': State, fed: seq<byte>, msgs: seq<Message>, parser: seq<byte>) {
    && s'.fed == fed && s'.channel == s.channel + msgs && s'.parser == parser
    && s' == s.(fed := s'.fed, channel := s'.channel, parser := s'.parser, sent := s'.sent, senders := s'.senders)
  }

  /** The rest of a read callback: the steps that parse and send until no key is complete. */
  lemma {:induction false} ParseRun(handlers: Handlers, s: State) returns (ls: seq<Label>, s': State)
    requires |s.threads| > 0 && s.threads[0] == Reading && Drains(s.parser)
    ensures Leads(handlers, s, ls, s')
    ensures ReadEffect(s.(threads := s.threads[0 := Idle]), s', s.fed,
                       Keypresses(Tokens(CODED_DIGITS, s.parser)), Residue(CODED_DIGITS, s.parser))
    decreases |s.parser|
  {
    var n := TokenLen(CODED_DIGITS, s.parser);
    if n == 0 {
      ls := [ReadEnd];
      s' := MoveRun(handlers, s, ReadEnd);
      assert s.channel + [] == s.channel;
    } else {
      ReadTokenIs(s);
      var rest;
      rest, s' := ParseRun(handlers, Next(s, ReadToken));
      ls := [ReadToken] + rest;
      OneStep(handlers, s, ReadToken, rest, s');
      var code, codes := s.parser[..n], Tokens(CODED_DIGITS, s.parser[n..]);
      KeypressesCons(code, codes);
      Assoc(s.channel, [Keypress(Classify(code))], Keypresses(codes));
    }
  }

  /**
   The read callback is a run of the protocol: it sends the complete keys of the parser's
   queue extended by the chunk, in order, leaves the rest and touches nothing else.
   */
  lemma ReadRun(handlers: Handlers, s: State, chunk: seq<byte>) returns (ls: seq<Label>, s': State)
    requires Enabled(s, ReadStart(chunk))
    ensures Leads(handlers, s, ls, s')
    ensures var q := s.parser + chunk;
            ReadEffect(s, s', s.fed + chunk, Keypresses(Tokens(CODED_DIGITS, q)), Residue(CODED_DIGITS, q))
  {
    ReadStartIs(s, chunk);
    var rest;
    rest, s' := ParseRun(handlers, Next(s, ReadStart(chunk)));
    ls := [ReadStart(chunk)] + rest;
    OneStep(handlers, s, ReadStart(chunk), rest, s');
    assert s.threads[0 := Reading][0 := Idle] == s.threads;
  }

  /** A read error is sent on as a message. */
  lemma ReadErrorRun(handlers: Handlers, s: State, errno: int) returns (ls: seq<Label>, s': State)
    requires Enabled(s, ReadError(errno))
    ensures Leads(handlers, s, ls, s')
    ensures ReadEffect(s, s', s.fed, [Error(errno)], s.parser)
  {
    ReadErrorIs(s, errno);
    ls, s' := [ReadError(errno)], Next(s, ReadError(errno));
    OneStep(handlers, s, ReadError(errno), [], s');
  }

  // ----- Publishing on any thread

  /** Where publish returns to. */
  function Back(t: nat): Pc {
    if t == 0 then Draining else Done
  }

  /**
   From s to s' thread t has published a message: the handler has left `model` and asked for
   cmds, which were queued or refused; context is free again.
   */
  predicate PublishEffect(s: State, s': State, t: nat, model: seq<byte>, cmds: seq<Command>, outcome: Option<int>)
    requires t < |s.threads|
  {
    var accepted := if outcome.Some? then [] else cmds;
    && s'.threads == s.threads[t := Back(t)] + Spawn(accepted)
    && s'.model == model && s'.issued == s.issued + cmds && s'.accepted == s.accepted + accepted
    && s'.channel == s.channel + Refusal(cmds, outcome)
    && s' == s.(threads := s'.threads, context := None, model := s'.model, issued := s'.issued,
                channel := s'.channel, accepted := s'.accepted, sent := s'.sent, senders := s'.senders,
                handled := s'.handled, handledBy := s'.handledBy, settled := s'.settled)
  }

  /** queue_work succeeds, or an error is sent instead; then context is unlocked. */
  lemma QueueRun(handlers: Handlers, s: State, t: nat, outcome: Option<int>) returns (ls: seq<Label>, s': State)
    requires t < |s.threads| && s.threads[t].Queueing? && s.context == Some(t)
    ensures Leads(handlers, s, ls, s')
    ensures var cmds := [s.threads[t].cmd];
            var accepted := if outcome.Some? then [] else cmds;
            && s'.threads == s.threads[t := Back(t)] + Spawn(accepted)
            && s'.channel == s.channel + Refusal(cmds, outcome) && s'.accepted == s.accepted + accepted
            && s' == s.(threads := s'.threads, context := None, channel := s'.channel, accepted := s'.accepted,
                        sent := s'.sent, senders := s'.senders, settled := s'.settled)
  {
    QueueWorkIs(s, t, outcome);
    OverwriteFirst(s.threads, Spawn(if outcome.Some? then [] else [s.threads[t].cmd]), t, PublishDrop, Back(t));
    s' := UnlockContextRun(handlers, Next(s, QueueWork(t, outcome)), t);
    ls := [QueueWork(t, outcome)] + [UnlockContext(t)];
    OneStep(handlers, s, QueueWork(t, outcome), [UnlockContext(t)], s');
  }

  /** The handler returns, and its command, if any, is queued. */
  lemma HandleRun(handlers: Handlers, s: State, t: nat, outcome: Option<int>) returns (ls: seq<Label>, s': State)
    requires t < |s.threads| && s.threads[t].Handling? && s.threads[t].seen == s.model
    requires s.context == Some(t) && s.threads[t].msg.Type() in handlers
    ensures Leads(handlers, s, ls, s')
    ensures var (model1, cmds) := PublishOne(handlers, s.model, s.threads[t].msg);
            PublishEffect(s, s', t, model1, cmds, outcome)
  {
    var msg := s.threads[t].msg;
    var (update, cmd) := handlers[msg.Type()](s.model, msg);
    var l := Handle(t, update, cmd);
    HandleIs(s, t, update, cmd);
    var rest;
    if cmd.None? {
      Overwrite(s.threads, t, PublishDrop, Back(t));
      rest := [UnlockContext(t)];
      s' := UnlockContextRun(handlers, Next(s, l), t);
      Unchanged(s);
      assert s.threads[t := Back(t)] + [] == s.threads[t := Back(t)];
    } else {
      Overwrite(s.threads, t, Queueing(cmd.value), Back(t));
      rest, s' := QueueRun(handlers, Next(s, l), t, outcome);
    }
    ls := [l] + rest;
    OneStep(handlers, s, l, rest, s');
  }

  /** The whole of publish, for a message that has a handler: lock, handle, queue, unlock. */
  lemma LockedRun(handlers: Handlers, s: State, t: nat, outcome: Option<int>) returns (ls: seq<Label>, s': State)
    requires t < |s.threads| && s.threads[t].PublishWant? && s.context.None? && s.threads[t].msg.Type() in handlers
    ensures Leads(handlers, s, ls, s')
    ensures var (model1, cmds) := PublishOne(handlers, s.model, s.threads[t].msg);
            PublishEffect(s, s', t, model1, cmds, outcome)
  {
    var msg := s.threads[t].msg;
    var s1 := LockContextRun(handlers, s, t);
    var rest;
    rest, s' := HandleRun(handlers, s1, t, outcome);
    Overwrite(s.threads, t, Handling(msg, s.model), Back(t));
    ls := [LockContext(t)] + rest;
    Compose(handlers, s, [LockContext(t)], s1, rest, s');
  }

  // ----- The drain loop

  /** From s to s' the loop thread has drained what d says, and left `channel`. */
  predicate DrainEffect(s: State, s': State, channel: seq<Message>, d: Drained) {
    && s'.model == d.model && s'.channel == channel
    && s'.threads == s.threads + Spawn(d.accepted)
    && s'.received == s.received + d.received && s'.issued == s.issued + d.issued
    && s'.accepted == s.accepted + d.accepted
    && s' == s.(model := s'.model, channel := s'.channel, threads := s'.threads, received := s'.received,
                issued := s'.issued, accepted := s'.accepted, sent := s'.sent, senders := s'.senders,
                handled := s'.handled, handledBy := s'.handledBy, settled := s'.settled)
  }

  /** The loop thread is in its drain loop, and no other thread holds context. */
  predicate DrainsAlone(handlers: Handlers, s: State) {
    |s.threads| > 0 && s.threads[0] == Draining && s.context.None? && handlers.Keys == s.subscribed
  }

  /** One turn of the drain loop: receive a message and publish it. */
  lemma PublishRun(handlers: Handlers, s: State, outcome: Option<int>) returns (ls: seq<Label>, s': State)
    requires DrainsAlone(handlers, s) && s.channel != []
    ensures Leads(handlers, s, ls, s')
    ensures var (model1, cmds) := PublishOne(handlers, s.model, s.channel[0]);
            DrainEffect(s, s', s.channel[1..] + Refusal(cmds, outcome), Outcome(model1, s.channel[0], cmds, outcome))
  {
    var msg := s.channel[0];
    ReceiveIs(s);
    var s1 := Next(s, Receive);
    var rest;
    if msg.Type() in handlers {
      rest, s' := LockedRun(handlers, s1, 0, outcome);
      Overwrite(s.threads, 0, PublishWant(msg), Draining);
      assert s.threads[0 := Draining] == s.threads;
    } else {
      rest, s' := [], s1;
      Unchanged(s);
      assert s.threads[0 := Draining] + [] == s.threads;
      assert s.channel[1..] + [] == s.channel[1..];
    }
    ls := [Receive] + rest;
    OneStep(handlers, s, Receive, rest, s');
  }

  lemma {:induction false} SpawnAppend(cmds: seq<Command>, more: seq<Command>)
    ensures Spawn(cmds + more) == Spawn(cmds) + Spawn(more)
  {
    if cmds == [] {
      assert cmds + more == more && [] + Spawn(more) == Spawn(more);
    } else {
      SpawnAppend(cmds[1..], more);
      FirstThenRest(cmds, more);
      Assoc([Queued(cmds[0])], Spawn(cmds[1..]), Spawn(more));
    }
  }

  lemma DrainEffectsJoin(s: State, s1: State, s2: State, channel1: seq<Message>, channel2: seq<Message>,
                         d1: Drained, d2: Drained)
    requires DrainEffect(s, s1, channel1, d1) && DrainEffect(s1, s2, channel2, d2)
    ensures DrainEffect(s, s2, channel2, Join(d1, d2))
  {
    SpawnAppend(d1.accepted, d2.accepted);
    Assoc(s.threads, Spawn(d1.accepted), Spawn(d2.accepted));
    Assoc(s.received, d1.received, d2.received);
    Assoc(s.issued, d1.issued, d2.issued);
    Assoc(s.accepted, d1.accepted, d2.accepted);
  }

  lemma NoDrainEffect(s: State)
    ensures DrainEffect(s, s, s.channel, Drained(s.model, [], [], []))
  {
    Unchanged(s);
    assert s.threads + [] == s.threads;
  }

  /** The drain loop until the channel is empty. */
  lemma {:induction false} DrainRun(handlers: Handlers, s: State, outcomes: seq<Option<int>>)
      returns (ls: seq<Label>, s': State)
    requires DrainsAlone(handlers, s)
    ensures Leads(handlers, s, ls, s')
    ensures DrainEffect(s, s', [], Drain(handlers, s.model, s.channel, outcomes))
    decreases 2 * |outcomes| + |s.channel|
  {
    if s.channel == [] {
      ls, s' := [], s;
      NoDrainEffect(s);
    } else {
      var (model1, cmds) := PublishOne(handlers, s.model, s.channel[0]);
      var outcome := if outcomes == [] then None else outcomes[0];
      var left := if cmds == [] || outcomes == [] then outcomes else outcomes[1..];
      var first, s1 := PublishRun(handlers, s, outcome);
      var rest;
      rest, s' := DrainRun(handlers, s1, left);
      ls := first + rest;
      Compose(handlers, s, first, s1, rest, s');
      DrainEffectsJoin(s, s1, s', s1.channel, [], Outcome(model1, s.channel[0], cmds, outcome),
                       Drain(handlers, s1.model, s1.channel, left));
    }
  }

  // ----- The check callback

  lemma LockBothRun(handlers: Handlers, s: State) returns (ls: seq<Label>, s': State)
    requires |s.threads| > 0 && s.threads[0] == Draining && s.channel == [] && s.context.None? && s.inner.None?
    ensures Leads(handlers, s, ls, s')
    ensures s' == s.(threads := s.threads[0 := Viewing(s.model)], context := Some(0), inner := Some(0))
  {
    Overwrite(s.threads, 0, ViewWantContext, ViewWantInner);
    Overwrite(s.threads, 0, ViewWantInner, Viewing(s.model));
    var s1 := MoveRun(handlers, s, DrainEnd);
    var s2 := LockContextRun(handlers, s1, 0);
    s' := LockInnerRun(handlers, s2, 0);
    Compose(handlers, s1, [LockContext(0)], s2, [LockInner(0)], s');
    ls := [DrainEnd] + ([LockContext(0)] + [LockInner(0)]);
    Compose(handlers, s, [DrainEnd], s1, [LockContext(0)] + [LockInner(0)], s');
  }

  lemma UnlockBothRun(handlers: Handlers, s: State) returns (ls: seq<Label>, s': State)
    requires |s.threads| > 0 && s.threads[0] == ViewDropInner
    ensures Leads(handlers, s, ls, s')
    ensures s' == s.(threads := s.threads[0 := Idle], context := None, inner := None)
  {
    Overwrite(s.threads, 0, ViewDropContext, Idle);
    var s1 := UnlockInnerRun(handlers, s, 0);
    s' := UnlockContextRun(handlers, s1, 0);
    ls := [UnlockInner(0)] + [UnlockContext(0)];
    Compose(handlers, s, [UnlockInner(0)], s1, [UnlockContext(0)], s');
  }

  lemma WriteRun(handlers: Handlers, s: State, failure: Option<int>) returns (s': State)
    requires |s.threads| > 0 && s.threads[0] == Viewing(s.model)
    ensures Leads(handlers, s, [ViewWrite(failure)], s')
    ensures s'.channel == s.channel + WriteError(failure) && s'.frames == s.frames + Written(s.home, s.model, failure)
    ensures s' == s.(threads := s.threads[0 := ViewDropInner], channel := s'.channel, frames := s'.frames,
                     writes := s.writes + (if failure.None? then 1 else 0), sent := s'.sent, senders := s'.senders,
                     views := s.views + [failure])
  {
    ViewWriteIs(s, failure);
    s' := Next(s, ViewWrite(failure));
    OneStep(handlers, s, ViewWrite(failure), [], s');
  }

  /** From s to s' the loop thread has written a frame, or reported that it could not, and is idle. */
  predicate ViewEffect(s: State, s': State, failure: Option<int>)
    requires |s.threads| > 0
  {
    && s'.channel == s.channel + WriteError(failure) && s'.frames == s.frames + Written(s.home, s.model, failure)
    && s' == s.(threads := s.threads[0 := Idle], context := None, inner := None, channel := s'.channel,
                frames := s'.frames, writes := s.writes + (if failure.None? then 1 else 0),
                sent := s'.sent, senders := s'.senders, views := s.views + [failure])
  }

  lemma WriteAndUnlockRun(handlers: Handlers, s: State, failure: Option<int>) returns (ls: seq<Label>, s': State)
    requires |s.threads| > 0 && s.threads[0] == Viewing(s.model)
    ensures Leads(handlers, s, ls, s') && ViewEffect(s, s', failure)
  {
    Overwrite(s.threads, 0, ViewDropInner, Idle);
    var s1 := WriteRun(handlers, s, failure);
    var unlock;
    unlock, s' := UnlockBothRun(handlers, s1);
    ls := [ViewWrite(failure)] + unlock;
    Compose(handlers, s, [ViewWrite(failure)], s1, unlock, s');
  }

  /** What holds of the view under the locks holds of it from the step that asks for them. */
  lemma ViewFromLocks(s: State, s': State, failure: Option<int>)
    requires |s.threads| > 0
    requires var locked := s.(threads := s.threads[0 := Viewing(s.model)], context := Some(0), inner := Some(0));
             ViewEffect(locked, s', failure)
    ensures ViewEffect(s, s', failure)
  {
    Overwrite(s.threads, 0, Viewing(s.model), Idle);
  }

  /** The view: both mutexes are locked, one frame is written, and both are unlocked. */
  lemma ViewRun(handlers: Handlers, s: State, failure: Option<int>) returns (ls: seq<Label>, s': State)
    requires |s.threads| > 0 && s.threads[0] == Draining && s.channel == [] && s.context.None? && s.inner.None?
    ensures Leads(handlers, s, ls, s') && ViewEffect(s, s', failure)
  {
    var lock, s1 := LockBothRun(handlers, s);
    var write;
    write, s' := WriteAndUnlockRun(handlers, s1, failure);
    ViewFromLocks(s, s', failure);
    ls := lock + write;
    Compose(handlers, s, lock, s1, write, s');
  }

  /** From s to s' the check callback has drained what d says, and written a frame or failed to. */
  predicate CheckEffect(s: State, s': State, d: Drained, failure: Option<int>) {
    && s'.model == d.model && s'.channel == WriteError(failure)
    && s'.threads == s.threads + Spawn(d.accepted)
    && s'.received == s.received + d.received && s'.issued == s.issued + d.issued && s'.accepted == s.accepted + d.accepted
    && s'.checks == s.checks + 1
    && s'.frames == s.frames + Written(s.home, d.model, failure)
    && s'.writes == s.writes + (if failure.None? then 1 else 0)
    && s' == s.(model := s'.model, channel := s'.channel, threads := s'.threads, received := s'.received,
                issued := s'.issued, accepted := s'.accepted, sent := s'.sent, senders := s'.senders,
                handled := s'.handled, handledBy := s'.handledBy, settled := s'.settled,
                checks := s'.checks, frames := s'.frames, writes := s'.writes, views := s'.views)
  }

  /**
   The check callback is a run of the protocol: it publishes the messages in the channel one
   after the other until the channel is empty, writes one frame of the resulting model, or
   reports that it could not, and returns to the loop.
   */
  lemma CheckRun(handlers: Handlers, s: State, outcomes: seq<Option<int>>, failure: Option<int>)
      returns (ls: seq<Label>, s': State)
    requires Enabled(s, CheckStart) && s.context.None? && s.inner.None? && handlers.Keys == s.subscribed
    ensures Leads(handlers, s, ls, s')
    ensures var d := Drain(handlers, s.model, s.channel, outcomes);
            && CheckEffect(s, s', d, failure)
            && (failure.None? ==>
                  s'.frames == s.frames + [Handshake.CursorTo(s.home.0, s.home.1) + [0x00] + d.model + [0x00]])
  {
    CheckStartIs(s);
    FrameBytes(s.home, Drain(handlers, s.model, s.channel, outcomes).model);
    var s1 := Next(s, CheckStart);
    var drain, s2 := DrainRun(handlers, s1, outcomes);
    var view;
    view, s' := ViewRun(handlers, s2, failure);
    assert [] + WriteError(failure) == WriteError(failure);
    Compose(handlers, s1, drain, s2, view, s');
    ls := [CheckStart] + (drain + view);
    OneStep(handlers, s, CheckStart, drain + view, s');
    OverwriteFirst(s.threads, Spawn(Drain(handlers, s.model, s.channel, outcomes).accepted), 0, Draining, Idle);
    assert s.threads[0 := Idle] == s.threads;
  }

  // ----- A queued command

  /** Where a thread that holds inner to stop the handles goes next. */
  function Halted(pc: Pc): Pc
    requires pc.Terminating? || (pc.Calling? && pc.fuel > 0)
  {
    if pc.Terminating? then TerminateDrop else Calling(pc.fuel - 1, pc.result, pc.context, pc.inner)
  }

  lemma StopRun(handlers: Handlers, s: State, t: nat) returns (s': State)
    requires t < |s.threads|
    requires s.threads[t].Terminating? || (s.threads[t].Calling? && s.threads[t].inner && s.threads[t].fuel > 0)
    ensures Leads(handlers, s, [Stop(t)], s')
    ensures s' == s.(threads := s.threads[t := Halted(s.threads[t])], reading := false, checking := false,
                     stops := s.stops + [t])
  {
    StopIs(s, t);
    s' := Next(s, Stop(t));
    OneStep(handlers, s, Stop(t), [], s');
  }

  /** With inner locked, the handles are stopped and inner is unlocked. */
  lemma StopAndUnlockRun(handlers: Handlers, s: State, t: nat) returns (ls: seq<Label>, s': State)
    requires t < |s.threads|
    requires s.threads[t].Terminating? || (s.threads[t].Calling? && s.threads[t].inner && s.threads[t].fuel > 0)
    ensures Leads(handlers, s, ls, s')
    ensures s' == s.(threads := s.threads[t := WithoutInner(Halted(s.threads[t]))], inner := None,
                     reading := false, checking := false, stops := s.stops + [t])
  {
    var s1 := StopRun(handlers, s, t);
    s' := UnlockInnerRun(handlers, s1, t);
    Overwrite(s.threads, t, Halted(s.threads[t]), WithoutInner(Halted(s.threads[t])));
    ls := [Stop(t)] + [UnlockInner(t)];
    Compose(handlers, s, [Stop(t)], s1, [UnlockInner(t)], s');
  }

  /** A thread that waits for inner locks it, stops the handles and unlocks it. */
  lemma LockedStopRun(handlers: Handlers, s: State, t: nat) returns (ls: seq<Label>, s': State)
    requires t < |s.threads| && s.inner.None?
    requires s.threads[t].TerminateWant? || (s.threads[t].CallWantInner? && s.threads[t].fuel > 0)
    ensures Leads(handlers, s, ls, s')
    ensures s' == s.(threads := s.threads[t := WithoutInner(Halted(WithInner(s.threads[t], s.model)))],
                     reading := false, checking := false, stops := s.stops + [t])
  {
    var locked := WithInner(s.threads[t], s.model);
    var s1 := LockInnerRun(handlers, s, t);
    var rest;
    rest, s' := StopAndUnlockRun(handlers, s1, t);
    Overwrite(s.threads, t, locked, WithoutInner(Halted(locked)));
    ls := [LockInner(t)] + rest;
    Compose(handlers, s, [LockInner(t)], s1, rest, s');
  }

  /** Whether the call of a command stops the handles: Terminate does, any other command may. */
  predicate Halts(cmd: Command, stops: bool) {
    cmd.TerminateCommand? || stops
  }

  /** A command other than Terminate stops the handles only if its bound on requests allows it to. */
  predicate MayHalt(cmd: Command, stops: bool) {
    cmd.OtherCommand? && stops ==> cmd.fuel >= 2
  }

  lemma QuietCallRun(handlers: Handlers, s: State, t: nat) returns (ls: seq<Label>, s': State)
    requires t < |s.threads| && s.threads[t].Calling? && !s.threads[t].context && !s.threads[t].inner
    ensures Leads(handlers, s, ls, s')
    ensures s' == s.(threads := s.threads[t := Returned(s.threads[t].result)])
  {
    ls := [Return(t)];
    s' := MoveRun(handlers, s, Return(t));
  }

  lemma StopAndReturnRun(handlers: Handlers, s: State, t: nat) returns (ls: seq<Label>, s': State)
    requires t < |s.threads| && s.threads[t].CallWantInner? && !s.threads[t].context && s.threads[t].fuel > 0
    requires s.inner.None?
    ensures Leads(handlers, s, ls, s')
    ensures s' == s.(threads := s.threads[t := Returned(s.threads[t].result)],
                     reading := false, checking := false, stops := s.stops + [t])
  {
    var stop, s1 := LockedStopRun(handlers, s, t);
    var back;
    back, s' := QuietCallRun(handlers, s1, t);
    Overwrite(s.threads, t, s1.threads[t], Returned(s.threads[t].result));
    ls := stop + back;
    Compose(handlers, s, stop, s1, back, s');
  }

  lemma HaltingCallRun(handlers: Handlers, s: State, t: nat) returns (ls: seq<Label>, s': State)
    requires t < |s.threads| && s.threads[t].Calling? && !s.threads[t].context && !s.threads[t].inner
    requires s.threads[t].fuel >= 2 && s.inner.None?
    ensures Leads(handlers, s, ls, s')
    ensures s' == s.(threads := s.threads[t := Returned(s.threads[t].result)],
                     reading := false, checking := false, stops := s.stops + [t])
  {
    var s1 := MoveRun(handlers, s, AskInner(t));
    var rest;
    rest, s' := StopAndReturnRun(handlers, s1, t);
    Overwrite(s.threads, t, s1.threads[t], Returned(s.threads[t].result));
    ls := [AskInner(t)] + rest;
    Compose(handlers, s, [AskInner(t)], s1, rest, s');
  }

  /** The call of a queued command, until it returns. */
  lemma CallRun(handlers: Handlers, s: State, t: nat, stops: bool) returns (ls: seq<Label>, s': State)
    requires t < |s.threads| && s.threads[t].Queued? && s.inner.None? && MayHalt(s.threads[t].cmd, stops)
    ensures Leads(handlers, s, ls, s')
    ensures var cmd := s.threads[t].cmd;
            s' == s.(threads := s.threads[t := Returned(ResultOf(cmd))],
                     reading := s.reading && !Halts(cmd, stops), checking := s.checking && !Halts(cmd, stops),
                     stops := s'.stops)
  {
    var cmd := s.threads[t].cmd;
    var s1 := MoveRun(handlers, s, Start(t));
    var call;
    if cmd.TerminateCommand? {
      call, s' := LockedStopRun(handlers, s1, t);
    } else if stops {
      call, s' := HaltingCallRun(handlers, s1, t);
    } else {
      call, s' := QuietCallRun(handlers, s1, t);
    }
    Overwrite(s.threads, t, s1.threads[t], Returned(ResultOf(cmd)));
    ls := [Start(t)] + call;
    Compose(handlers, s, [Start(t)], s1, call, s');
  }

  /** What the result of a command does to the model, and the commands that its publication asks for. */
  function Answered(handlers: Handlers, model: seq<byte>, result: Message): (seq<byte>, seq<Command>) {
    if result == Terminate then PublishOne(handlers, model, Terminate) else (model, [])
  }

  /** From s to s' thread t has answered with its result: a Terminate is published, any other message is sent. */
  predicate AnswerEffect(handlers: Handlers, s: State, s': State, t: nat, result: Message, outcome: Option<int>)
    requires t < |s.threads|
  {
    var (model1, cmds) := Answered(handlers, s.model, result);
    var accepted := if outcome.Some? then [] else cmds;
    && s'.threads == s.threads[t := Done] + Spawn(accepted)
    && s'.model == model1 && s'.issued == s.issued + cmds && s'.accepted == s.accepted + accepted
    && s'.channel == s.channel + (if result == Terminate then Refusal(cmds, outcome) else [result])
    && s' == s.(threads := s'.threads, context := None, model := s'.model, issued := s'.issued,
                channel := s'.channel, accepted := s'.accepted, sent := s'.sent, senders := s'.senders,
                handled := s'.handled, handledBy := s'.handledBy, settled := s'.settled, direct := s'.direct)
  }

  /** The result of a command is published on its own thread if it is Terminate, and sent otherwise. */
  lemma AnswerRun(handlers: Handlers, s: State, t: nat, outcome: Option<int>) returns (ls: seq<Label>, s': State)
    requires 0 < t < |s.threads| && s.threads[t].Returned? && s.context.None? && handlers.Keys == s.subscribed
    ensures Leads(handlers, s, ls, s')
    ensures AnswerEffect(handlers, s, s', t, s.threads[t].msg, outcome)
  {
    var msg := s.threads[t].msg;
    DeliverIs(s, t);
    var s1 := Next(s, Deliver(t));
    if msg == Terminate && TerminateType in handlers {
      var rest;
      rest, s' := LockedRun(handlers, s1, t, outcome);
      Overwrite(s.threads, t, PublishWant(msg), Done);
      assert s.channel + [] == s.channel;
      ls := [Deliver(t)] + rest;
      OneStep(handlers, s, Deliver(t), rest, s');
    } else {
      ls, s' := [Deliver(t)], s1;
      OneStep(handlers, s, Deliver(t), [], s');
      Unchanged(s);
      assert s.threads[t := Done] + [] == s.threads[t := Done];
    }
  }

  /** From s to s' the command of thread t has been called and has answered. */
  predicate CommandEffect(handlers: Handlers, s: State, s': State, t: nat, stops: bool, outcome: Option<int>)
    requires t < |s.threads| && s.threads[t].Queued?
  {
    var cmd := s.threads[t].cmd;
    var (model1, cmds) := Answered(handlers, s.model, ResultOf(cmd));
    var accepted := if outcome.Some? then [] else cmds;
    && s'.threads == s.threads[t := Done] + Spawn(accepted)
    && s'.reading == (s.reading && !Halts(cmd, stops)) && s'.checking == (s.checking && !Halts(cmd, stops))
    && s'.model == model1 && s'.issued == s.issued + cmds && s'.accepted == s.accepted + accepted
    && s'.channel == s.channel + (if ResultOf(cmd) == Terminate then Refusal(cmds, outcome) else [ResultOf(cmd)])
    && s' == s.(threads := s'.threads, model := s'.model, issued := s'.issued, reading := s'.reading,
                checking := s'.checking, stops := s'.stops, channel := s'.channel, accepted := s'.accepted,
                sent := s'.sent, senders := s'.senders, handled := s'.handled, handledBy := s'.handledBy,
                settled := s'.settled, direct := s'.direct)
  }

  /**
   For any handlers and any command, a queued command is a run of the protocol: Terminate
   stops reading and checking, and so does another command that calls terminate; a result of
   Terminate is published on the thread, any other is sent, and the thread is done.
   */
  lemma CommandRun(handlers: Handlers, s: State, t: nat, stops: bool, outcome: Option<int>)
      returns (ls: seq<Label>, s': State)
    requires 0 < t < |s.threads| && s.threads[t].Queued? && MayHalt(s.threads[t].cmd, stops)
    requires s.context.None? && s.inner.None? && handlers.Keys == s.subscribed
    ensures Leads(handlers, s, ls, s')
    ensures CommandEffect(handlers, s, s', t, stops, outcome)
  {
    var call, s1 := CallRun(handlers, s, t, stops);
    var answer;
    answer, s' := AnswerRun(handlers, s1, t, outcome);
    Overwrite(s.threads, t, Returned(ResultOf(s.threads[t].cmd)), Done);
    ls := call + answer;
    Compose(handlers, s, call, s1, answer, s');
  }
}
