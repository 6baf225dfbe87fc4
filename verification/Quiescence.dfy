/**
 Once some thread has called terminate, the program runs out of work: when only
 keypresses are handled and no command answers with a keypress, every run ends, and it
 ends with nothing left for the loop to wait for.
 */
module Quiescence {
  import Bytes
  import opened Messages
  import opened Pipeline
  import opened PipelineSafety

  /** Some thread has called terminate on the inner program. */
  predicate Stopped(s: State) {
    s.stops != []
  }

  predicate Halted(s: State) {
    !s.reading && !s.checking
  }

  predicate QuietCommand(cmd: Command) {
    cmd.OtherCommand? ==> !cmd.result.Keypress?
  }

  predicate QuietPc(pc: Pc) {
    match pc
    case Queueing(cmd) => QuietCommand(cmd)
    case Queued(cmd) => QuietCommand(cmd)
    case Calling(_, result, _, _) => !result.Keypress?
    case CallWantContext(_, result) => !result.Keypress?
    case CallWantInner(_, result, _) => !result.Keypress?
    case Returned(msg) => !msg.Keypress?
    case _ => true
  }

  /** Only keypresses have a handler, and no command in flight answers with one. */
  ghost predicate Quiet(s: State) {
    && s.subscribed == {KeypressType}
    && |s.threads| > 0
    && (forall t | 0 <= t < |s.threads| :: QuietAt(t, s.threads[t]))
  }

  /** Handlers return quiet commands only. */
  predicate QuietLabel(l: Label) {
    l.Handle? && l.cmd.Some? ==> QuietCommand(l.cmd.value)
  }

  /** What the loop thread may publish, and that workers publish nothing. */
  predicate QuietAt(t: nat, pc: Pc) {
    && QuietPc(pc)
    && (t == 0 ==> (pc.PublishWant? || pc.Handling? ==> pc.msg.Keypress?))
    && (t > 0 ==> !Publishing(pc))
  }

  lemma QuietNextPc(s: State, l: Label)
    requires Roles(s) && Quiet(s) && Enabled(s, l) && QuietLabel(l)
    ensures Actor(l) < |s.threads| && QuietAt(Actor(l), NextPc(s, l))
    ensures forall k | 0 <= k < |Creates(s, l)| :: QuietCommand(Creates(s, l)[k])
  {
    var a := Actor(l);
    assert QuietAt(a, s.threads[a]);
    assert a > 0 ==> WorkerPc(s.threads[a]);
  }

  lemma QuietStep(s: State, l: Label)
    requires Roles(s) && Quiet(s) && Enabled(s, l) && QuietLabel(l)
    ensures Quiet(Next(s, l))
  {
    QuietNextPc(s, l);
    var s' := Next(s, l);
    forall t | 0 <= t < |s'.threads|
      ensures QuietAt(t, s'.threads[t])
    {
      if t < |s.threads| && t != Actor(l) {
        assert QuietAt(t, s.threads[t]);
      }
    }
  }

  // ----- The measure

  function KeyCount(channel: seq<Message>): nat {
    if channel == [] then 0
    else KeyCount(channel[..|channel| - 1]) + if channel[|channel| - 1].Keypress? then 1 else 0
  }

  lemma {:induction false} KeyCountTail(channel: seq<Message>)
    requires channel != []
    ensures KeyCount(channel) == KeyCount(channel[1..]) + if channel[0].Keypress? then 1 else 0
  {
    var n := |channel| - 1;
    if n > 0 {
      KeyCountTail(channel[..n]);
      assert channel[1..][..n - 1] == channel[..n][1..];
    }
  }

  lemma KeyCountSend(channel: seq<Message>, msgs: seq<Message>)
    requires |msgs| <= 1
    ensures KeyCount(channel + msgs) == KeyCount(channel) + if msgs != [] && msgs[0].Keypress? then 1 else 0
  {
    if msgs == [] {
      assert channel + msgs == channel;
    } else {
      assert (channel + msgs)[..|channel|] == channel;
    }
  }

  /** A bound on the handler calls to come: bytes being parsed, keypresses in the channel, and the one at hand. */
  function Calls(s: State): nat
    requires |s.threads| > 0
  {
    CallsAt(s.threads[0], s.parser) + 2 * KeyCount(s.channel)
  }

  function CommandRank(cmd: Command): nat {
    match cmd
    case TerminateCommand => 6
    case OtherCommand(fuel, _) => 4 + 4 * fuel
  }

  /** The steps a thread can still take before its next handler call. */
  function Rank(pc: Pc): nat {
    match pc
    case Idle => 0
    case Reading => 1
    case ViewDropContext => 1
    case ViewDropInner => 2
    case Viewing(_) => 4
    case ViewWantInner => 5
    case ViewWantContext => 6
    case Draining => 7
    case PublishDrop => 8
    case Queueing(cmd) => 9 + CommandRank(cmd)
    case Handling(_, _) => 0
    case PublishWant(_) => 1
    case Queued(cmd) => CommandRank(cmd)
    case TerminateWant => 5
    case Terminating => 4
    case TerminateDrop => 3
    case Calling(fuel, _, context, inner) => 3 + 4 * fuel + (if context then 1 else 0) + (if inner then 1 else 0)
    case CallWantContext(fuel, _) => 5 + 4 * fuel
    case CallWantInner(fuel, _, context) => 5 + 4 * fuel + (if context then 1 else 0)
    case Returned(_) => 2
    case Done => 0
  }

  function RankSum(pcs: seq<Pc>): nat {
    if pcs == [] then 0 else RankSum(pcs[..|pcs| - 1]) + Rank(pcs[|pcs| - 1])
  }

  lemma {:induction false} RankUpdate(pcs: seq<Pc>, t: nat, pc: Pc)
    requires t < |pcs|
    ensures RankSum(pcs[t := pc]) == RankSum(pcs) - Rank(pcs[t]) + Rank(pc)
    decreases |pcs|
  {
    var n := |pcs| - 1;
    if t < n {
      RankUpdate(pcs[..n], t, pc);
      assert pcs[t := pc][..n] == pcs[..n][t := pc];
    } else {
      assert pcs[t := pc][..n] == pcs[..n];
    }
  }

  lemma RankSpawn(pcs: seq<Pc>, cmds: seq<Command>)
    requires |cmds| <= 1
    ensures RankSum(pcs + Spawn(cmds)) == RankSum(pcs) + if cmds == [] then 0 else CommandRank(cmds[0])
  {
    if cmds == [] {
      assert pcs + Spawn(cmds) == pcs;
    } else {
      assert (pcs + Spawn(cmds))[..|pcs|] == pcs;
    }
  }

  /** The other work: threads, messages and writes. */
  function Load(s: State): int {
    RankSum(s.threads) + |s.channel| + s.writes
  }

  ghost predicate Less(s': State, s: State)
    requires |s.threads| > 0 && |s'.threads| > 0
  {
    Calls(s') < Calls(s) || (Calls(s') == Calls(s) && Load(s') < Load(s))
  }

  /** How far the step moves the rank of its thread. */
  lemma RankStep(s: State, l: Label)
    requires Roles(s) && Quiet(s) && Halted(s) && Enabled(s, l)
    ensures Actor(l) < |s.threads|
    ensures !CallStep(s, l) ==>
              Rank(NextPc(s, l)) + (if Creates(s, l) == [] then 0 else CommandRank(Creates(s, l)[0]))
              + |Sends(s, l)| + |Frames(s, l)|
              < Rank(s.threads[Actor(l)]) + if l.WriteDone? || l.Receive? then 1 else 0
  {
    var a := Actor(l);
    assert a > 0 ==> WorkerPc(s.threads[a]) && !Publishing(s.threads[a]);
  }

  lemma LoadStep(s: State, l: Label)
    requires Roles(s) && Quiet(s) && Halted(s) && Enabled(s, l)
    requires !CallStep(s, l)
    ensures Load(Next(s, l)) < Load(s)
  {
    var a, pc, created := Actor(l), NextPc(s, l), Creates(s, l);
    RankStep(s, l);
    RankUpdate(s.threads, a, pc);
    RankSpawn(s.threads[a := pc], created);
  }

  /** What the loop thread adds to the handler calls to come. */
  function CallsAt(pc: Pc, parser: seq<Bytes.byte>): nat {
    if pc.Reading? then 3 * |parser| else if pc.PublishWant? || pc.Handling? then 1 else 0
  }

  /** The steps that lead to a handler call, or make one. */
  predicate CallStep(s: State, l: Label) {
    l.ReadToken? || l.Handle? || (l.Receive? && s.channel != [] && s.channel[0].Keypress?)
  }

  lemma SendsNoKeypress(s: State, l: Label)
    requires Quiet(s) && Enabled(s, l) && !l.ReadToken?
    ensures Sends(s, l) != [] ==> !Sends(s, l)[0].Keypress?
  {
    assert QuietAt(Actor(l), PcOf(s, Actor(l)));
  }

  lemma CallsPcStep(s: State, l: Label)
    requires Roles(s) && Quiet(s) && Halted(s) && Enabled(s, l)
    ensures var now, then_ := CallsAt(s.threads[0], s.parser), CallsAt(Next(s, l).threads[0], Next(s, l).parser);
            if l.ReadToken? then then_ + 3 <= now
            else if l.Handle? then then_ + 1 <= now
            else if l.Receive? && s.channel[0].Keypress? then then_ <= now + 1
            else then_ <= now
  {
    var a := Actor(l);
    assert QuietAt(a, PcOf(s, a));
    assert a > 0 ==> WorkerPc(PcOf(s, a));
    assert Next(s, l).threads[0] == if a == 0 then NextPc(s, l) else s.threads[0];
  }

  lemma CallsStep(s: State, l: Label)
    requires Roles(s) && Quiet(s) && Halted(s) && Enabled(s, l)
    ensures |Next(s, l).threads| > 0
    ensures if CallStep(s, l) then Calls(Next(s, l)) < Calls(s) else Calls(Next(s, l)) <= Calls(s)
  {
    CallsPcStep(s, l);
    KeyCountSend(if l.Receive? then s.channel[1..] else s.channel, Sends(s, l));
    if l.Receive? {
      KeyCountTail(s.channel);
    }
    if !l.ReadToken? {
      SendsNoKeypress(s, l);
    }
  }

  /** Once terminate has been called, no callback starts, and each step gets closer to the end. */
  lemma StepsTowardsEnd(s: State, l: Label)
    requires Invariant(s) && Quiet(s) && Stopped(s) && Enabled(s, l) && QuietLabel(l)
    ensures !l.ReadStart? && !l.ReadError? && !l.CheckStart?
    ensures Invariant(Next(s, l)) && Quiet(Next(s, l)) && Stopped(Next(s, l))
    ensures Less(Next(s, l), s)
  {
    InvariantStep(s, l);
    CallsStep(s, l);
    QuietStep(s, l);
    if !CallStep(s, l) {
      LoadStep(s, l);
    }
  }

  ghost predicate IsStep(s: State, l: Label, s': State) {
    Enabled(s, l) && QuietLabel(l) && s' == Next(s, l)
  }

  /** In the sequence of states `run`, the step number n is one of the program. */
  ghost predicate StepAt(run: nat -> State, labels: nat -> Label, n: nat) {
    IsStep(run(n), labels(n), run(n + 1))
  }

  /** After terminate, no sequence of states and labels is an infinite run: some step of it is not one of the program. */
  lemma EveryRunEnds(run: nat -> State, labels: nat -> Label)
    requires Invariant(run(0)) && Quiet(run(0)) && Stopped(run(0))
    ensures exists n: nat :: !StepAt(run, labels, n)
  {
    if forall n: nat :: StepAt(run, labels, n) {
      Descend(run, labels, 0);
      assert false;
    }
  }

  lemma {:induction false} Descend(run: nat -> State, labels: nat -> Label, n: nat)
    requires forall k: nat :: StepAt(run, labels, k)
    requires Invariant(run(n)) && Quiet(run(n)) && Stopped(run(n))
    ensures false
    decreases Calls(run(n)), Load(run(n))
  {
    assert StepAt(run, labels, n);
    StepsTowardsEnd(run(n), labels(n));
    Descend(run, labels, n + 1);
  }

  /** Nothing is left for the loop to wait for. */
  predicate AtRest(s: State) {
    s.writes == 0 && forall t | 0 <= t < |s.threads| :: Finished(s, t)
  }

  lemma NothingToDo(s: State, l: Label)
    requires Halted(s) && AtRest(s)
    ensures !Enabled(s, l)
  {
    forall t: nat
      ensures PcOf(s, t).Idle? || PcOf(s, t).Done?
      ensures t == 0 && |s.threads| > 0 ==> s.threads[t].Idle?
    {
      assert t < |s.threads| ==> Finished(s, t);
    }
  }

  /** No step is left that the program with these handlers can take. */
  ghost predicate Stuck(handlers: Handlers, s: State) {
    forall l :: Enabled(s, l) ==> !Obeys(handlers, s, l)
  }

  /** After terminate, no step is left exactly when the loop has nothing to wait for and every command is done. */
  lemma EndIsQuiescence(handlers: Handlers, s: State)
    requires Invariant(s) && Stopped(s) && handlers.Keys == s.subscribed
    ensures Stuck(handlers, s) <==> AtRest(s)
  {
    if AtRest(s) {
      forall l ensures !Enabled(s, l) {
        NothingToDo(s, l);
      }
    } else if s.writes > 0 {
      assert Enabled(s, WriteDone) && Obeys(handlers, s, WriteDone);
    } else {
      var t :| 0 <= t < |s.threads| && !Finished(s, t);
      var u, l := DeadlockFree(handlers, s, t);
      assert Enabled(s, l) && Obeys(handlers, s, l);
    }
  }
}
