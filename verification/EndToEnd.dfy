/** The program of main.rs: its one handler, and what ends up in the model and on the screen. */
module EndToEnd {
  import opened Bytes
  import opened KeyCodes
  import opened Messages
  import opened TokenTheory
  import opened Pipeline
  import opened PipelineSafety
  import opened Publication
  import opened Quiescence
  import Handshake

  /** The handler: ETX asks to terminate, any other key is appended to the model. */
  function FrameUpdate(model: seq<byte>, msg: Message): (seq<byte>, Option<Command>) {
    match msg
    case Keypress(keycode) =>
      if |keycode.code| > 0 && keycode.code[0] == ETX then (model, Some(TerminateCommand))
      else (model + keycode.code, None)
    case _ => (model, None)
  }

  const MAIN_HANDLERS: Handlers := map[KeypressType := (model, msg) => FrameUpdate(model, msg)]

  /** A step that main can take. */
  predicate MainCan(s: State, l: Label) {
    Enabled(s, l) && Obeys(MAIN_HANDLERS, s, l)
  }

  /** s without its ETX bytes. */
  function Typed(s: seq<byte>): (r: seq<byte>) {
    if s == [] then []
    else Typed(s[..|s| - 1]) + if s[|s| - 1] == ETX then [] else [s[|s| - 1]]
  }

  lemma {:induction false} TypedAppend(a: seq<byte>, b: seq<byte>)
    ensures Typed(a + b) == Typed(a) + Typed(b)
    decreases |b|
  {
    if b == [] {
      assert a + b == a;
    } else {
      TypedAppend(a, b[..|b| - 1]);
      assert (a + b)[..|a + b| - 1] == a + b[..|b| - 1];
    }
  }

  /** How many bytes of s are ETX. */
  function Etxs(s: seq<byte>): nat {
    if s == [] then 0 else Etxs(s[..|s| - 1]) + if s[|s| - 1] == ETX then 1 else 0
  }

  lemma {:induction false} EtxsTyped(s: seq<byte>)
    ensures Etxs(s) + |Typed(s)| == |s|
  {
    if s != [] {
      EtxsTyped(s[..|s| - 1]);
    }
  }

  lemma EtxsAppend(a: seq<byte>, b: seq<byte>)
    ensures Etxs(a + b) == Etxs(a) + Etxs(b)
  {
    TypedAppend(a, b);
    EtxsTyped(a);
    EtxsTyped(b);
    EtxsTyped(a + b);
  }

  /** Removing and counting ETX, in bytes: byte 3 and no other is removed and counted, and order is kept. */
  lemma TypedBytes(x: byte, a: seq<byte>, b: seq<byte>)
    ensures Typed([x]) == (if x == 0x03 then [] else [x]) && Etxs([x]) == (if x == 0x03 then 1 else 0)
    ensures Typed(a + b) == Typed(a) + Typed(b) && Etxs(a + b) == Etxs(a) + Etxs(b)
  {
    assert [x][..0] == [];
    TypedAppend(a, b);
    EtxsAppend(a, b);
  }

  lemma {:induction false} TypedIdentity(s: seq<byte>)
    requires ETX !in s
    ensures Typed(s) == s
  {
    if s != [] {
      TypedIdentity(s[..|s| - 1]);
      assert s == s[..|s| - 1] + [s[|s| - 1]];
    }
  }

  lemma ReportWithoutEtx(row: seq<byte>, col: seq<byte>)
    requires AllIn(row, CODED_DIGITS) && AllIn(col, CODED_DIGITS)
    ensures ETX !in Report(row, col)
  {
    var c := Report(row, col);
    forall k | 0 <= k < |c| ensures c[k] != ETX {
      if k < |c| - 1 {
        ReportByte(CODED_DIGITS, row, col, k);
      }
    }
  }

  /** A code is the ETX key itself or contains no ETX. */
  lemma CodeEtx(c: seq<byte>)
    requires IsCode(CODED_DIGITS, c)
    ensures c[0] == ETX <==> c == [ETX]
    ensures Typed(c) == if c[0] == ETX then [] else c
    ensures Etxs(c) == if c[0] == ETX then 1 else 0
  {
    EtxsTyped(c);
    if IsSingle(c) {
      assert c[..0] == [] && c == [c[0]];
    } else {
      var row, col :| AllIn(row, CODED_DIGITS) && AllIn(col, CODED_DIGITS) && c == Report(row, col);
      ReportWithoutEtx(row, col);
      TypedIdentity(c);
    }
  }

  // ----- The messages and threads of main

  /** A message that the read callback can send, or an error. */
  ghost predicate MainMessage(msg: Message) {
    msg.Error? || (msg.Keypress? && IsCode(CODED_DIGITS, msg.keycode.code) && msg.keycode == Classify(msg.keycode.code))
  }

  ghost predicate MainPc(t: nat, pc: Pc) {
    && (t == 0 ==> (pc.PublishWant? || pc.Handling? ==> MainMessage(pc.msg) && pc.msg.Keypress?))
    && (t > 0 ==> !Publishing(pc))
    && (pc.Queueing? || pc.Queued? ==> pc.cmd == TerminateCommand)
    && !pc.Calling? && !pc.CallWantContext? && !pc.CallWantInner?
    && (pc.Returned? ==> pc.msg == Terminate)
  }

  ghost predicate Main(s: State) {
    && s.subscribed == {KeypressType}
    && |s.threads| > 0
    && (forall t | 0 <= t < |s.threads| :: MainPc(t, s.threads[t]))
    && (forall k | 0 <= k < |s.channel| :: MainMessage(s.channel[k]))
    && (forall cmd | cmd in s.issued :: cmd == TerminateCommand)
    && (forall cmd | cmd in s.accepted :: cmd == TerminateCommand)
  }

  lemma MainNextPc(s: State, l: Label)
    requires Roles(s) && Main(s) && MainCan(s, l)
    ensures Actor(l) < |s.threads| && MainPc(Actor(l), NextPc(s, l))
    ensures forall cmd | cmd in Creates(s, l) || cmd in Issues(l) :: cmd == TerminateCommand
  {
    var a := Actor(l);
    assert MainPc(a, s.threads[a]);
    assert a > 0 ==> WorkerPc(s.threads[a]);
    assert l.Receive? ==> MainMessage(s.channel[0]);
  }

  lemma MainSends(s: State, l: Label)
    requires Main(s) && Enabled(s, l)
    ensures forall k | 0 <= k < |Sends(s, l)| :: MainMessage(Sends(s, l)[k])
    ensures !l.ReadToken? ==> forall k | 0 <= k < |Sends(s, l)| :: !Sends(s, l)[k].Keypress?
  {
    assert MainPc(Actor(l), PcOf(s, Actor(l)));
    if l.ReadToken? {
      TokenIsCode(CODED_DIGITS, s.parser);
    }
  }

  lemma MainStep(s: State, l: Label)
    requires Roles(s) && Main(s) && MainCan(s, l)
    ensures Main(Next(s, l))
  {
    MainNextPc(s, l);
    MainSends(s, l);
    var s' := Next(s, l);
    forall t | 0 <= t < |s'.threads|
      ensures MainPc(t, s'.threads[t])
    {
      if t < |s.threads| && t != Actor(l) {
        assert MainPc(t, s.threads[t]);
      }
    }
    forall k | 0 <= k < |s'.channel|
      ensures MainMessage(s'.channel[k])
    {
      var rest := if l.Receive? then s.channel[1..] else s.channel;
      if k < |rest| {
        assert MainMessage(s.channel[if l.Receive? then k + 1 else k]);
      } else {
        assert MainMessage(Sends(s, l)[k - |rest|]);
      }
    }
  }

  // ----- Every byte typed is on its way

  function CodeOf(msg: Message): seq<byte> {
    if msg.Keypress? then msg.keycode.code else []
  }

  /** The bytes of the keypresses in the channel, in order. */
  function Codes(channel: seq<Message>): seq<byte> {
    if channel == [] then [] else Codes(channel[..|channel| - 1]) + CodeOf(channel[|channel| - 1])
  }

  lemma {:induction false} CodesTail(channel: seq<Message>)
    requires channel != []
    ensures Codes(channel) == CodeOf(channel[0]) + Codes(channel[1..])
  {
    var n := |channel| - 1;
    if n > 0 {
      CodesTail(channel[..n]);
      assert channel[1..][..n - 1] == channel[..n][1..];
      Assoc(CodeOf(channel[0]), Codes(channel[1..n]), CodeOf(channel[n]));
      assert channel[..n][1..] == channel[1..n];
    }
  }

  lemma CodesSend(channel: seq<Message>, msgs: seq<Message>)
    requires |msgs| <= 1
    ensures Codes(channel + msgs) == Codes(channel) + if msgs == [] then [] else CodeOf(msgs[0])
  {
    if msgs == [] {
      assert channel + msgs == channel;
    } else {
      assert (channel + msgs)[..|channel|] == channel;
    }
  }

  /** The code of the keypress that the loop thread has received and not handled yet. */
  function InHand(pc: Pc): seq<byte> {
    if pc.PublishWant? || pc.Handling? then CodeOf(pc.msg) else []
  }

  /** The bytes read and not yet handled, in the order in which they will be. */
  function Ahead(s: State): seq<byte>
    requires |s.threads| > 0
  {
    InHand(s.threads[0]) + (Codes(s.channel) + s.parser)
  }

  /**
   The bytes fed, with every ETX removed, are the model followed by the bytes still ahead:
   nothing typed is lost, duplicated or reordered, and nothing else gets into the model.
   Each ETX among them has been turned into a command to terminate or is still ahead.
   */
  ghost predicate Echo(s: State) {
    && |s.threads| > 0
    && Typed(s.fed) == s.model + Typed(Ahead(s))
    && Etxs(s.fed) == |s.issued| + Etxs(Ahead(s))
  }

  /** Parsing a key moves its code from the parser to the end of the channel. */
  lemma TokenAhead(s: State, s': State, code: seq<byte>)
    requires |s.threads| > 0 && s'.threads == s.threads
    requires s'.channel == s.channel + [Keypress(Classify(code))] && s.parser == code + s'.parser
    ensures Ahead(s') == Ahead(s)
  {
    CodesSend(s.channel, [Keypress(Classify(code))]);
    Assoc(Codes(s.channel), code, s'.parser);
  }

  lemma TokenShape(s: State)
    requires Enabled(s, ReadToken)
    ensures var s', code := Next(s, ReadToken), s.parser[..TokenLen(CODED_DIGITS, s.parser)];
            && s'.threads == s.threads
            && s'.channel == s.channel + [Keypress(Classify(code))] && s.parser == code + s'.parser
  {
  }

  lemma ReceiveShape(s: State)
    requires Main(s) && Enabled(s, Receive)
    ensures var s' := Next(s, Receive);
            && |s'.threads| > 0 && InHand(s.threads[0]) == [] && InHand(s'.threads[0]) == CodeOf(s.channel[0])
            && s'.channel == s.channel[1..] && s'.parser == s.parser
  {
    assert MainMessage(s.channel[0]);
    assert Next(s, Receive).threads[0] == NextPc(s, Receive);
  }

  lemma FromChannelToHand(code: seq<byte>, codes: seq<byte>, parser: seq<byte>)
    ensures code + (codes + parser) == [] + (code + codes + parser)
  {
  }

  /** Receiving a key moves its code from the front of the channel to the loop thread. */
  lemma ReceiveAhead(s: State, s': State)
    requires |s.threads| > 0 && |s'.threads| > 0 && s.channel != []
    requires InHand(s.threads[0]) == [] && InHand(s'.threads[0]) == CodeOf(s.channel[0])
    requires s'.channel == s.channel[1..] && s'.parser == s.parser
    ensures Ahead(s') == Ahead(s)
  {
    CodesTail(s.channel);
    FromChannelToHand(CodeOf(s.channel[0]), Codes(s'.channel), s.parser);
  }

  lemma InHandNext(s: State, l: Label)
    requires Enabled(s, l) && LoopPc(s.threads[0]) && Actor(l) == 0 && !l.Handle? && !l.Receive?
    ensures InHand(NextPc(s, l)) == InHand(s.threads[0])
  {
  }

  lemma OtherShape(s: State, l: Label)
    requires Roles(s) && Enabled(s, l) && !l.Handle? && !l.ReadStart? && !l.ReadToken? && !l.Receive?
    ensures var s' := Next(s, l);
            && |s'.threads| > 0 && InHand(s'.threads[0]) == InHand(s.threads[0])
            && s'.channel == s.channel + Sends(s, l) && s'.parser == s.parser
  {
    if Actor(l) == 0 {
      InHandNext(s, l);
    }
    assert Next(s, l).threads[0] == if Actor(l) == 0 then NextPc(s, l) else s.threads[0];
  }

  /** Any other step may send an error, which carries no bytes. */
  lemma OtherAhead(s: State, s': State, sends: seq<Message>)
    requires |s.threads| > 0 && |s'.threads| > 0 && InHand(s'.threads[0]) == InHand(s.threads[0])
    requires s'.channel == s.channel + sends && s'.parser == s.parser
    requires |sends| <= 1 && forall k | 0 <= k < |sends| :: !sends[k].Keypress?
    ensures Ahead(s') == Ahead(s)
  {
    CodesSend(s.channel, sends);
    assert Codes(s.channel) + [] == Codes(s.channel);
  }

  /** A step that handles no keypress and reads nothing moves bytes along without changing them. */
  lemma AheadKept(s: State, l: Label)
    requires Roles(s) && Main(s) && Enabled(s, l) && !l.Handle? && !l.ReadStart?
    ensures |Next(s, l).threads| > 0 && Ahead(Next(s, l)) == Ahead(s)
  {
    if l.ReadToken? {
      TokenShape(s);
      TokenAhead(s, Next(s, l), s.parser[..TokenLen(CODED_DIGITS, s.parser)]);
    } else if l.Receive? {
      ReceiveShape(s);
      ReceiveAhead(s, Next(s, l));
    } else {
      MainSends(s, l);
      OtherShape(s, l);
      OtherAhead(s, Next(s, l), Sends(s, l));
    }
  }

  lemma ReadAhead(s: State, chunk: seq<byte>)
    requires Enabled(s, ReadStart(chunk))
    ensures var s' := Next(s, ReadStart(chunk));
            && |s'.threads| > 0 && Ahead(s') == Ahead(s) + chunk
            && s'.fed == s.fed + chunk && s'.model == s.model && s'.issued == s.issued
  {
    var s' := Next(s, ReadStart(chunk));
    assert s'.channel == s.channel && s'.issued == s.issued;
    assert Ahead(s) == Codes(s.channel) + s.parser;
    Assoc(Codes(s.channel), s.parser, chunk);
  }

  lemma ReadEcho(s: State, s': State, chunk: seq<byte>)
    requires Echo(s) && |s'.threads| > 0 && Ahead(s') == Ahead(s) + chunk
    requires s'.fed == s.fed + chunk && s'.model == s.model && s'.issued == s.issued
    ensures Echo(s')
  {
    TypedAppend(s.fed, chunk);
    TypedAppend(Ahead(s), chunk);
    EtxsAppend(s.fed, chunk);
    EtxsAppend(Ahead(s), chunk);
    Assoc(s.model, Typed(Ahead(s)), Typed(chunk));
  }

  /** Handling a key takes its code from the bytes ahead into the model, or, if it is ETX, asks to terminate. */
  lemma HandleBytes(model: seq<byte>, code: seq<byte>, rest: seq<byte>)
    requires IsCode(CODED_DIGITS, code)
    ensures var (update, cmd) := FrameUpdate(model, Keypress(Classify(code)));
            && model + Typed(code + rest) == update + Typed(rest)
            && Etxs(code + rest) == |Listed(cmd)| + Etxs(rest)
  {
    CodeToken(CODED_DIGITS, code, []);
    TypedAppend(code, rest);
    EtxsAppend(code, rest);
    CodeEtx(code);
    Assoc(model, Typed(code), Typed(rest));
    assert model + [] == model;
  }

  /** The handler of main runs on the loop thread, on a keypress. */
  lemma HandleWhat(s: State, l: Label)
    requires Main(s) && MainCan(s, l) && l.Handle?
    ensures l.t == 0 && MainMessage(s.threads[0].msg) && s.threads[0].msg.Keypress?
    ensures (l.update, l.cmd) == FrameUpdate(s.threads[0].seen, s.threads[0].msg)
  {
    assert MainPc(l.t, s.threads[l.t]);
    assert s.threads[l.t].msg.Type() == KeypressType;
  }

  lemma HandleShape(s: State, l: Label)
    requires Seen(s) && Main(s) && MainCan(s, l) && l.Handle?
    ensures l.t == 0 && MainMessage(s.threads[0].msg) && s.threads[0].msg.Keypress?
    ensures (l.update, l.cmd) == FrameUpdate(s.model, s.threads[0].msg)
    ensures var s' := Next(s, l);
            && |s'.threads| > 0 && InHand(s'.threads[0]) == []
            && s'.channel == s.channel && s'.parser == s.parser && s'.fed == s.fed
            && s'.model == l.update && s'.issued == s.issued + Listed(l.cmd)
  {
    HandleWhat(s, l);
    assert SeenBy(s, 0);
    assert Next(s, l).threads[0] == NextPc(s, l);
  }

  lemma HandleEcho(s: State, s': State, cmd: Option<Command>)
    requires |s.threads| > 0 && |s'.threads| > 0 && Echo(s)
    requires s.threads[0].Handling? && MainMessage(s.threads[0].msg) && s.threads[0].msg.Keypress?
    requires InHand(s'.threads[0]) == []
    requires s'.channel == s.channel && s'.parser == s.parser && s'.fed == s.fed
    requires (s'.model, cmd) == FrameUpdate(s.model, s.threads[0].msg) && s'.issued == s.issued + Listed(cmd)
    ensures Echo(s')
  {
    var rest := Codes(s.channel) + s.parser;
    assert Ahead(s') == rest;
    HandleBytes(s.model, s.threads[0].msg.keycode.code, rest);
  }

  lemma EchoStep(s: State, l: Label)
    requires Roles(s) && Seen(s) && Main(s) && Echo(s) && MainCan(s, l)
    ensures Echo(Next(s, l))
  {
    if l.ReadStart? {
      ReadAhead(s, l.chunk);
      ReadEcho(s, Next(s, l), l.chunk);
    } else if l.Handle? {
      HandleShape(s, l);
      HandleEcho(s, Next(s, l), l.cmd);
    } else {
      AheadKept(s, l);
      NeitherReadNorHandle(s, l);
    }
  }

  lemma NeitherReadNorHandle(s: State, l: Label)
    requires Enabled(s, l) && !l.ReadStart? && !l.Handle?
    ensures var s' := Next(s, l); s'.fed == s.fed && s'.model == s.model && s'.issued == s.issued
  {
  }

  // ----- Frames

  /**
   Each frame is `cursor`, what it shows and a NUL; it shows a prefix of what the next frame
   shows, and the last one a prefix of the model.
   */
  ghost predicate Growing(cursor: seq<byte>, frames: seq<seq<byte>>, model: seq<byte>) {
    frames == [] ||
    exists n :: 0 <= n <= |model| && frames[|frames| - 1] == cursor + model[..n] + [0x00]
                && Growing(cursor, frames[..|frames| - 1], model[..n])
  }

  /** The first buffer of every write: the command that moves the cursor home, and a NUL. */
  function Cursor(home: (nat, nat)): seq<byte> {
    Handshake.CursorTo(home.0, home.1) + [0x00]
  }

  lemma GrowingModel(cursor: seq<byte>, frames: seq<seq<byte>>, model: seq<byte>, more: seq<byte>)
    requires Growing(cursor, frames, model)
    ensures Growing(cursor, frames, model + more)
  {
    if frames != [] {
      var n :| 0 <= n <= |model| && frames[|frames| - 1] == cursor + model[..n] + [0x00]
               && Growing(cursor, frames[..|frames| - 1], model[..n]);
      assert (model + more)[..n] == model[..n];
    }
  }

  lemma GrowingFrame(cursor: seq<byte>, frames: seq<seq<byte>>, model: seq<byte>)
    requires Growing(cursor, frames, model)
    ensures Growing(cursor, frames + [cursor + model + [0x00]], model)
  {
    assert (frames + [cursor + model + [0x00]])[..|frames|] == frames;
    assert model[..|model|] == model;
  }

  /** The handler of main lengthens the model or leaves it alone. */
  lemma GrowingUpdate(cursor: seq<byte>, frames: seq<seq<byte>>, model: seq<byte>, msg: Message)
    requires Growing(cursor, frames, model)
    ensures Growing(cursor, frames, FrameUpdate(model, msg).0)
  {
    GrowingModel(cursor, frames, model, CodeOf(msg));
  }

  lemma FramesShape(s: State, l: Label)
    requires Enabled(s, l)
    ensures var s' := Next(s, l); s'.home == s.home && s'.frames == s.frames + Frames(s, l)
  {
  }

  lemma ViewShape(s: State, l: Label)
    requires Seen(s) && Enabled(s, l) && !l.Handle?
    ensures var s' := Next(s, l);
            && s'.model == s.model && s'.home == s.home
            && s'.frames == s.frames + if l.ViewWrite? && l.failure.None? then [Cursor(s.home) + s.model + [0x00]] else []
  {
    assert SeenBy(s, 0);
    FramesShape(s, l);
    FrameBytes(s.home, s.model);
  }

  lemma GrowingStep(s: State, l: Label)
    requires Seen(s) && Main(s) && Growing(Cursor(s.home), s.frames, s.model) && MainCan(s, l)
    ensures var s' := Next(s, l); s'.home == s.home && Growing(Cursor(s.home), s'.frames, s'.model)
  {
    assert s.frames + [] == s.frames;
    if l.Handle? {
      HandleShape(s, l);
      FramesShape(s, l);
      GrowingUpdate(Cursor(s.home), s.frames, s.model, s.threads[0].msg);
    } else {
      ViewShape(s, l);
      GrowingFrame(Cursor(s.home), s.frames, s.model);
    }
  }

  /** Between check callbacks, if the last one could write its frame, this frame shows the whole model. */
  ghost predicate Current(s: State) {
    |s.threads| > 0 &&
    (!InCheck(s.threads[0]) && s.views != [] && s.views[|s.views| - 1] == None ==>
       s.frames != [] && s.frames[|s.frames| - 1] == Cursor(s.home) + s.model + [0x00])
  }

  lemma CurrentStep(s: State, l: Label)
    requires Roles(s) && Seen(s) && Main(s) && Current(s) && MainCan(s, l)
    ensures Current(Next(s, l))
  {
    if Actor(l) == 0 {
      InCheckNext(s, l);
    }
    ChecksShape(s, l);
    if l.Handle? {
      HandleWhat(s, l);
    } else {
      ViewShape(s, l);
      assert s.views + [] == s.views && s.frames + [] == s.frames;
    }
  }

  // ----- The end-to-end theorem

  /** What every reachable state of main satisfies, besides the invariant of every program. */
  ghost predicate MainInvariant(s: State) {
    Main(s) && Echo(s) && Growing(Cursor(s.home), s.frames, s.model) && Current(s)
  }

  lemma MainInvariantStep(s: State, l: Label)
    requires Roles(s) && Seen(s) && MainInvariant(s) && MainCan(s, l)
    ensures MainInvariant(Next(s, l))
  {
    MainStep(s, l);
    EchoStep(s, l);
    GrowingStep(s, l);
    CurrentStep(s, l);
  }

  lemma MainInvariantInitial(home: (nat, nat), leftover: seq<byte>)
    ensures MainInvariant(Initial({KeypressType}, home, leftover))
  {
    assert Ahead(Initial({KeypressType}, home, leftover)) == leftover;
  }

  /** All that is known of every state that main can reach. */
  ghost predicate MainState(s: State) {
    Invariant(s) && Published(s) && MainInvariant(s)
  }

  lemma InitialIsMain(home: (nat, nat), leftover: seq<byte>)
    ensures MainState(Initial({KeypressType}, home, leftover))
  {
    InvariantInitial({KeypressType}, home, leftover);
    MainInvariantInitial(home, leftover);
  }

  lemma {:induction false} MainReachable(s: State, ls: seq<Label>)
    requires MainState(s) && ObeyingRun(MAIN_HANDLERS, s, ls)
    ensures MainState(After(s, ls))
    decreases |ls|
  {
    if ls != [] {
      InvariantStep(s, ls[0]);
      PublishedStep(s, ls[0]);
      MainInvariantStep(s, ls[0]);
      MainReachable(Next(s, ls[0]), ls[1..]);
    }
  }

  /**
   From the state in which init leaves the program, whatever the reads, the interleaving of
   the threads and the failures of writes and of queue_work: all the invariants hold; the
   bytes typed are the model followed by the bytes still ahead; each ETX among them has
   asked to terminate once or is still ahead; the frames on the screen show longer and
   longer prefixes of the bytes typed, the last one the whole model.
   */
  lemma EndToEnd(home: (nat, nat), leftover: seq<byte>, ls: seq<Label>)
    requires ObeyingRun(MAIN_HANDLERS, Initial({KeypressType}, home, leftover), ls)
    ensures var s := After(Initial({KeypressType}, home, leftover), ls);
            && Invariant(s) && Published(s) && Main(s) && s.home == home
            && Typed(s.fed) == s.model + Typed(Ahead(s))
            && Etxs(s.fed) == |s.issued| + Etxs(Ahead(s))
            && (forall cmd | cmd in s.issued :: cmd == TerminateCommand)
            && Growing(Handshake.CursorTo(home.0, home.1) + [0x00], s.frames, Typed(s.fed))
            && Current(s)
  {
    var s0 := Initial({KeypressType}, home, leftover);
    var s := After(s0, ls);
    InitialIsMain(home, leftover);
    MainReachable(s0, ls);
    SubscribedKept(s0, ls);
    GrowingModel(Cursor(s.home), s.frames, s.model, Typed(Ahead(s)));
  }

  // ----- Termination of main

  /** The program of main meets the conditions under which a program that called terminate runs out of work. */
  lemma MainIsQuiet(s: State, l: Label)
    requires Main(s)
    ensures Quiet(s)
    ensures MainCan(s, l) ==> QuietLabel(l)
  {
    forall t | 0 <= t < |s.threads| ensures QuietAt(t, s.threads[t]) {
      assert MainPc(t, s.threads[t]);
    }
    if MainCan(s, l) && l.Handle? {
      HandleWhat(s, l);
    }
  }

  ghost predicate IsMainStep(s: State, l: Label, s': State) {
    MainCan(s, l) && s' == Next(s, l)
  }

  /** In the sequence of states `run`, the step number n is one of main. */
  ghost predicate MainStepAt(run: nat -> State, labels: nat -> Label, n: nat) {
    IsMainStep(run(n), labels(n), run(n + 1))
  }

  lemma MainStepTowardsEnd(s: State, l: Label, s': State)
    requires Invariant(s) && Main(s) && Stopped(s) && IsMainStep(s, l, s')
    ensures Invariant(s') && Main(s') && Stopped(s') && Less(s', s)
  {
    MainIsQuiet(s, l);
    StepsTowardsEnd(s, l);
    MainStep(s, l);
  }

  lemma {:induction false} MainDescends(run: nat -> State, labels: nat -> Label, n: nat)
    requires forall k: nat :: MainStepAt(run, labels, k)
    requires Invariant(run(n)) && Main(run(n)) && Stopped(run(n))
    ensures false
    decreases Calls(run(n)), Load(run(n))
  {
    assert MainStepAt(run, labels, n);
    MainStepTowardsEnd(run(n), labels(n), run(n + 1));
    MainDescends(run, labels, n + 1);
  }

  lemma MainRunEnds(run: nat -> State, labels: nat -> Label)
    requires Invariant(run(0)) && Main(run(0)) && Stopped(run(0))
    ensures exists n: nat :: !MainStepAt(run, labels, n)
  {
    if forall n: nat :: MainStepAt(run, labels, n) {
      MainDescends(run, labels, 0);
      assert false;
    }
  }

  /**
   Whatever was typed and however the threads interleaved: once some worker of main is past
   its call, reading and checking have stopped; main cannot run forever from there, and can
   only come to a halt with every thread finished and no write pending.
   */
  lemma MainTerminates(home: (nat, nat), leftover: seq<byte>, ls: seq<Label>, t: nat,
                       run: nat -> State, labels: nat -> Label)
    requires ObeyingRun(MAIN_HANDLERS, Initial({KeypressType}, home, leftover), ls)
    requires var s := After(Initial({KeypressType}, home, leftover), ls);
             0 < t < |s.threads| && AfterStop(s.threads[t]) && run(0) == s
    ensures Stopped(run(0)) && !run(0).reading && !run(0).checking && Quiet(run(0))
    ensures exists n: nat :: !MainStepAt(run, labels, n)
    ensures Stuck(MAIN_HANDLERS, run(0)) <==> AtRest(run(0))
  {
    EndToEnd(home, leftover, ls);
    PastStop(run(0), t);
    MainRunEnds(run, labels);
  }

  lemma PastStop(s: State, t: nat)
    requires Invariant(s) && Main(s) && 0 < t < |s.threads| && AfterStop(s.threads[t])
    ensures Stopped(s) && !s.reading && !s.checking && Quiet(s)
    ensures Stuck(MAIN_HANDLERS, s) <==> AtRest(s)
  {
    assert s.accepted[t - 1] in s.accepted;
    StopsAfter(s, t);
    MainIsQuiet(s, WriteDone);
    assert MAIN_HANDLERS.Keys == {KeypressType};
    EndIsQuiescence(MAIN_HANDLERS, s);
  }

  // ----- ETX stops main

  lemma {:induction false} KeptLength(cmds: seq<Command>, verdicts: seq<Option<int>>)
    requires |cmds| >= |verdicts|
    ensures |Kept(cmds, verdicts)| + |Errors(verdicts)| == |verdicts|
    decreases |verdicts|
  {
    if verdicts != [] {
      KeptLength(cmds, verdicts[..|verdicts| - 1]);
    }
  }

  /** Between callbacks with an empty channel, and with no worker on its way. */
  ghost predicate Settled(s: State) {
    && |s.threads| > 0 && s.threads[0] == Idle && s.channel == []
    && forall t | 0 < t < |s.threads| :: s.threads[t] == Done
  }

  /** Each complete ETX that was read has become a thread, or was refused by queue_work. */
  lemma EtxsAreThreads(s: State)
    requires Locks(s) && Queue(s) && Workers(s) && Echo(s) && Settled(s)
    ensures Etxs(s.fed) == |s.threads| - 1 + |Errors(s.settled)| + Etxs(s.parser)
  {
    assert Ahead(s) == s.parser by {
      assert [] + ([] + s.parser) == s.parser;
    }
    assert forall t: nat :: !PcOf(s, t).Queueing?;
    KeptLength(s.issued, s.settled);
  }

  /** If all commands are Terminate and no worker is on its way, the program has stopped exactly if it has had a worker. */
  lemma StoppedByWorkers(s: State)
    requires Stops(s) && Settled(s) && forall cmd | cmd in s.accepted :: cmd == TerminateCommand
    ensures s.stops != [] <==> |s.threads| > 1
  {
    if |s.threads| > 1 {
      assert s.accepted[0] in s.accepted;
      StopsAfter(s, 1);
    }
    if s.stops != [] {
      assert multiset(s.stops)[s.stops[0]] > 0;
    }
  }

  /**
   ETX, and nothing else, stops main: in a settled state reading and checking are off if and
   only if more complete ETX keys were read than commands refused by queue_work.
   */
  lemma EtxStops(s: State)
    requires MainState(s) && Settled(s)
    ensures !s.reading <==> Etxs(s.fed) > Etxs(s.parser) + |Errors(s.settled)|
    ensures !s.checking <==> Etxs(s.fed) > Etxs(s.parser) + |Errors(s.settled)|
  {
    EtxsAreThreads(s);
    StoppedByWorkers(s);
  }
}
