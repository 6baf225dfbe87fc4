/**
 Null-terminated buffers as values: the meaning of every Buf operation on a
 store that gives each header its bytes. An uninitialised header has none.
 */
module BufSpec {
  import opened Bytes

  type Handle = nat
  type Store = seq<seq<byte>>

  /** Truncation performed by the cast of a length to u32. */
  const U32_RANGE: nat := 0x1_0000_0000

  /** The bytes before the first NUL. */
  function Content(b: seq<byte>): (c: seq<byte>)
    ensures |c| <= |b| && NUL !in c
  {
    b[..IndexOf(b, NUL)]
  }

  /** Empty, or null-terminated somewhere: what non_null_len needs. */
  predicate WellFormed(b: seq<byte>) {
    b == [] || IndexOf(b, NUL) < |b|
  }

  /** Take the first n bytes, padding with zeros. */
  function Fit(b: seq<byte>, n: nat): (r: seq<byte>)
    ensures |r| == n
  {
    if n <= |b| then b[..n] else b + Zeros(n - |b|)
  }

  lemma ContentTerminated(c: seq<byte>, z: seq<byte>)
    requires NUL !in c && z != [] && z[0] == NUL
    ensures Content(c + z) == c && WellFormed(c + z)
  {
    assert (c + z)[|c|] == NUL;
    assert forall k | 0 <= k < |c| :: (c + z)[k] == c[k];
  }

  lemma ContentPrefix(b: seq<byte>, c: seq<byte>)
    requires |c| < |b| && b[..|c|] == c && NUL !in c && b[|c|] == NUL
    ensures Content(b) == c && WellFormed(b)
  {
    assert b == c + b[|c|..];
    ContentTerminated(c, b[|c|..]);
  }

  predicate InRange(s: Store, hs: seq<Handle>) {
    forall k | 0 <= k < |hs| :: hs[k] < |s|
  }

  function AppendSpec(s: Store, h: Handle, g: Handle): Store
    requires h < |s| && g < |s|
  {
    s[h := Content(s[h]) + Content(s[g]) + [NUL]][g := []]
  }

  /** Take the content of each buffer in turn, leaving it uninitialised. */
  function Consume(s: Store, hs: seq<Handle>): (r: (seq<byte>, Store))
    requires InRange(s, hs)
    ensures |r.1| == |s| && NUL !in r.0
  {
    if hs == [] then ([], s)
    else
      var (c, s') := Consume(s, hs[..|hs| - 1]);
      var h := hs[|hs| - 1];
      (c + Content(s'[h]), s'[h := []])
  }

  function JoinSpec(s: Store, hs: seq<Handle>): Store
    requires InRange(s, hs)
  {
    var (c, s') := Consume(s, hs);
    s' + [c + [NUL]]
  }

  function TotalLen(s: Store, hs: seq<Handle>): nat
    requires InRange(s, hs)
  {
    if hs == [] then 0 else TotalLen(s, hs[..|hs| - 1]) + |s[hs[|hs| - 1]]|
  }

  lemma {:induction false} TotalLenPrefix(s: Store, hs: seq<Handle>, i: nat)
    requires InRange(s, hs) && i <= |hs|
    ensures TotalLen(s, hs[..i]) <= TotalLen(s, hs)
    decreases |hs|
  {
    if i < |hs| {
      TotalLenPrefix(s, hs[..|hs| - 1], i);
      assert hs[..|hs| - 1][..i] == hs[..i];
    } else {
      assert hs[..i] == hs;
    }
  }

  /** After consuming, every listed buffer is uninitialised and every other one unchanged. */
  lemma {:induction false} ConsumeStore(s: Store, hs: seq<Handle>)
    requires InRange(s, hs)
    ensures forall h | 0 <= h < |s| :: Consume(s, hs).1[h] == if h in hs then [] else s[h]
    ensures |Consume(s, hs).0| <= TotalLen(s, hs)
  {
    if hs != [] {
      ConsumeStore(s, hs[..|hs| - 1]);
      assert hs == hs[..|hs| - 1] + [hs[|hs| - 1]];
    }
  }

  /** The handles of a list, each kept where it first occurs. */
  function FirstOccurrences(hs: seq<Handle>): (r: seq<Handle>)
    ensures forall h :: h in r <==> h in hs
    ensures forall i, j | 0 <= i < j < |r| :: r[i] != r[j]
  {
    if hs == [] then []
    else
      var init, h := hs[..|hs| - 1], hs[|hs| - 1];
      assert hs == init + [h];
      if h in init then FirstOccurrences(init) else FirstOccurrences(init) + [h]
  }

  function Contents(s: Store, hs: seq<Handle>): (r: seq<seq<byte>>)
    requires InRange(s, hs)
    ensures |r| == |hs|
  {
    if hs == [] then [] else Contents(s, hs[..|hs| - 1]) + [Content(s[hs[|hs| - 1]])]
  }

  lemma FirstInRange(s: Store, hs: seq<Handle>)
    requires InRange(s, hs)
    ensures InRange(s, FirstOccurrences(hs))
  {
    var r := FirstOccurrences(hs);
    forall k | 0 <= k < |r| ensures r[k] < |s| {
      assert r[k] in hs;
    }
  }

  /** join yields the contents of the first occurrence of each buffer, in order; a repeated handle adds nothing. */
  lemma {:induction false} JoinIsConcatenation(s: Store, hs: seq<Handle>)
    requires InRange(s, hs) && InRange(s, FirstOccurrences(hs))
    ensures Consume(s, hs).0 == Flatten(Contents(s, FirstOccurrences(hs)))
  {
    if hs != [] {
      var init, h := hs[..|hs| - 1], hs[|hs| - 1];
      FirstInRange(s, init);
      JoinIsConcatenation(s, init);
      assert Consume(s, init).1[h] == if h in init then [] else s[h] by {
        ConsumeStore(s, init);
      }
      if h !in init {
        ContentsSnoc(s, FirstOccurrences(init), h);
      }
    }
  }

  lemma {:induction false} DistinctOccurrences(hs: seq<Handle>)
    requires forall i, j | 0 <= i < j < |hs| :: hs[i] != hs[j]
    ensures FirstOccurrences(hs) == hs
  {
    if hs != [] {
      DistinctOccurrences(hs[..|hs| - 1]);
      assert hs == hs[..|hs| - 1] + [hs[|hs| - 1]];
    }
  }

  lemma {:induction false} ContentsAt(s: Store, hs: seq<Handle>, k: nat)
    requires InRange(s, hs) && k < |hs|
    ensures Contents(s, hs)[k] == Content(s[hs[k]])
  {
    if k < |hs| - 1 {
      ContentsAt(s, hs[..|hs| - 1], k);
    }
  }

  /** Without repeated handles, the new buffer holds all contents, in the order of the list, and one NUL. */
  lemma JoinDistinct(s: Store, hs: seq<Handle>)
    requires InRange(s, hs) && forall i, j | 0 <= i < j < |hs| :: hs[i] != hs[j]
    ensures |Contents(s, hs)| == |hs| && forall k | 0 <= k < |hs| :: Contents(s, hs)[k] == Content(s[hs[k]])
    ensures |JoinSpec(s, hs)| == |s| + 1 && JoinSpec(s, hs)[|s|] == Flatten(Contents(s, hs)) + [0x00]
  {
    DistinctOccurrences(hs);
    JoinIsConcatenation(s, hs);
    forall k | 0 <= k < |hs| ensures Contents(s, hs)[k] == Content(s[hs[k]]) {
      ContentsAt(s, hs, k);
    }
  }

  lemma ContentsSnoc(s: Store, hs: seq<Handle>, h: Handle)
    requires InRange(s, hs) && h < |s|
    ensures Flatten(Contents(s, hs + [h])) == Flatten(Contents(s, hs)) + Content(s[h])
  {
    assert (hs + [h])[..|hs|] == hs;
    FlattenSnoc(Contents(s, hs), Content(s[h]));
  }

  /** Appending the buffers of a list to r one after the other, passing over those uninitialised when their turn comes. */
  function FoldAppend(s: Store, r: Handle, hs: seq<Handle>): (s': Store)
    requires r < |s| && InRange(s, hs)
    ensures |s'| == |s|
  {
    if hs == [] then s
    else
      var s' := FoldAppend(s, r, hs[..|hs| - 1]);
      var h := hs[|hs| - 1];
      if s'[h] == [] then s' else AppendSpec(s', r, h)
  }

  lemma {:induction false} FoldAppendConsumes(s: Store, hs: seq<Handle>)
    requires InRange(s, hs)
    ensures var (c, s') := Consume(s, hs);
            FoldAppend(s + [[]], |s|, hs) == s' + [if TotalLen(s, hs) == 0 then [] else c + [NUL]]
  {
    if hs != [] {
      var init, h := hs[..|hs| - 1], hs[|hs| - 1];
      FoldAppendConsumes(s, init);
      ConsumeStore(s, init);
      var (c, s') := Consume(s, init);
      var acc := if TotalLen(s, init) == 0 then [] else c + [NUL];
      ContentTerminated(c, [NUL]);
      assert Content(acc) == c;
      if h in init {
        ConsumedIsCounted(s, init, h);
      }
      if s'[h] == [] {
        assert s'[h := []] == s' && c + Content([]) == c;
      } else {
        LastThenOther(s', acc, c + Content(s'[h]) + [NUL], h);
      }
    }
  }

  lemma LastThenOther(s: Store, a: seq<byte>, b: seq<byte>, h: Handle)
    requires h < |s|
    ensures (s + [a])[|s| := b][h := []] == s[h := []] + [b]
  {
  }

  lemma {:induction false} ConsumedIsCounted(s: Store, hs: seq<Handle>, h: Handle)
    requires InRange(s, hs) && h in hs
    ensures TotalLen(s, hs) >= |s[h]|
  {
    if h != hs[|hs| - 1] {
      ConsumedIsCounted(s, hs[..|hs| - 1], h);
    }
  }

  /** join is append folded over its arguments, starting from Buf::new(), as soon as one of them is initialised. */
  lemma JoinEqualsFoldedAppend(s: Store, hs: seq<Handle>)
    requires InRange(s, hs)
    ensures FoldAppend(s + [[]], |s|, hs) == JoinSpec(s, hs) <==> exists h :: h in hs && s[h] != []
  {
    FoldAppendConsumes(s, hs);
    if h :| h in hs && s[h] != [] {
      ConsumedIsCounted(s, hs, h);
    } else {
      NothingToConsume(s, hs);
      assert FoldAppend(s + [[]], |s|, hs)[|s|] != JoinSpec(s, hs)[|s|];
    }
  }

  lemma {:induction false} NothingToConsume(s: Store, hs: seq<Handle>)
    requires InRange(s, hs) && forall h | h in hs :: s[h] == []
    ensures TotalLen(s, hs) == 0
  {
    if hs != [] {
      NothingToConsume(s, hs[..|hs| - 1]);
    }
  }

  /** Copy src into b at off. */
  function Splice(b: seq<byte>, off: nat, src: seq<byte>): (r: seq<byte>)
    requires off + |src| <= |b|
    ensures |r| == |b|
  {
    b[..off] + src + b[off + |src|..]
  }

  lemma FitKeepsContent(x: seq<byte>, n: nat)
    requires |Content(x)| <= n
    ensures Fit(x, n)[..|Content(x)|] == Content(x)
  {
  }

  lemma SpliceTerminate(r: seq<byte>, off: nat, b: seq<byte>)
    requires |r| == off + |b| + 1
    ensures Splice(r, off, b)[off + |b| := NUL] == r[..off] + b + [NUL]
  {
  }

  lemma LastUpdateWins(s: Store, h: Handle, x: seq<byte>, y: seq<byte>)
    requires h < |s|
    ensures s[h := x][h := y] == s[h := y]
  {
  }

  /** append concatenates contents exactly when its two handles do not alias; otherwise it loses them. */
  lemma AppendConcatenates(s: Store, h: Handle, g: Handle)
    requires h < |s| && g < |s| && WellFormed(s[h]) && WellFormed(s[g])
    ensures var s' := AppendSpec(s, h, g);
            && (Content(s'[h]) == Content(s[h]) + Content(s[g]) <==> h != g || Content(s[h]) == [])
            && (h != g ==> s'[h] != [] && s'[h][|s'[h]| - 1] == NUL)
            && s'[g] == []
            && forall k | 0 <= k < |s| && k != h && k != g :: s'[k] == s[k]
  {
    ContentTerminated(Content(s[h]) + Content(s[g]), [NUL]);
  }

  /** Resizing keeps the content and the terminator exactly when the new length exceeds the content. */
  lemma ResizeKeepsContent(b: seq<byte>, n: nat)
    requires WellFormed(b) && b != []
    ensures |Content(b)| < n <==> WellFormed(Fit(b, n)) && Content(Fit(b, n)) == Content(b) && n > 0
    ensures 0 < n <= |Content(b)| ==> !WellFormed(Fit(b, n))
  {
    var c := Content(b);
    if |c| < n {
      assert Fit(b, n)[..|c|] == c;
      ContentPrefix(Fit(b, n), c);
    } else if n > 0 {
      var i := IndexOf(Fit(b, n), NUL);
      assert forall k | 0 <= k < n :: Fit(b, n)[k] == c[k];
    }
  }

  /** Resizing twice is resizing once, unless the first step cut bytes that the second asks for again. */
  lemma ResizeTwice(b: seq<byte>, n: nat, n': nat)
    ensures Fit(Fit(b, n), n') == Fit(b, n') <==> n' <= n || |b| <= n || forall k | n <= k < n' && k < |b| :: b[k] == 0
  {
    var twice, once := Fit(Fit(b, n), n'), Fit(b, n');
    if n < n' && n < |b| {
      assert forall k | 0 <= k < n :: twice[k] == once[k] == b[k];
      assert forall k | n <= k < n' :: twice[k] == 0 && once[k] == if k < |b| then b[k] else 0;
    }
  }

  // ----- The loop of join, which fills a zeroed buffer of the total length

  /** The store after the loop has seen the first i buffers. */
  function JoinLoop(s: Store, hs: seq<Handle>, i: nat, baselen: nat): Store
    requires InRange(s, hs) && i <= |hs|
  {
    var (c, s') := Consume(s, hs[..i]);
    s' + [Fit(c, baselen)]
  }

  lemma SpliceFit(c: seq<byte>, x: seq<byte>, n: nat)
    requires |c| + |x| <= n
    ensures Splice(Fit(c, n), |c|, x) == Fit(c + x, n)
  {
    assert Fit(c, n) == c + Zeros(n - |c|);
    assert Fit(c + x, n) == c + x + Zeros(n - |c| - |x|);
  }

  /** What the next buffer adds, and that there is room for it. */
  lemma ConsumeNext(s: Store, hs: seq<Handle>, i: nat)
    requires InRange(s, hs) && i < |hs| && WellFormed(s[hs[i]])
    ensures var (c, s') := Consume(s, hs[..i]);
            var h := hs[i];
            && Consume(s, hs[..i + 1]) == (c + Content(s'[h]), s'[h := []])
            && WellFormed(s'[h])
            && |c| + |Content(s'[h])| <= TotalLen(s, hs)
  {
    assert hs[..i + 1][..i] == hs[..i];
    ConsumeStore(s, hs[..i]);
    ConsumeStore(s, hs[..i + 1]);
    TotalLenPrefix(s, hs, i + 1);
  }

  /** One turn of the loop: nothing for an uninitialised buffer, otherwise an in-bounds copy and a release. */
  lemma JoinTurn(s: Store, hs: seq<Handle>, i: nat, baselen: nat)
    requires InRange(s, hs) && i < |hs| && baselen == TotalLen(s, hs)
    requires WellFormed(s[hs[i]])
    ensures var t := JoinLoop(s, hs, i, baselen);
            var off := |Consume(s, hs[..i]).0|;
            var h := hs[i];
            && WellFormed(t[h])
            && off + |Content(t[h])| == |Consume(s, hs[..i + 1]).0| <= baselen == |t[|s|]|
            && (t[h] == [] ==> JoinLoop(s, hs, i + 1, baselen) == t)
            && JoinLoop(s, hs, i + 1, baselen) == t[|s| := Splice(t[|s|], off, Content(t[h]))][h := []]
  {
    ConsumeNext(s, hs, i);
    var (c, s') := Consume(s, hs[..i]);
    var h, x := hs[i], Content(s'[hs[i]]);
    SpliceFit(c, x, baselen);
    LastThenOther(s', Fit(c, baselen), Fit(c + x, baselen), h);
    if s'[h] == [] {
      assert s'[h := []] == s' && c + x == c;
    }
  }

  /** After the loop the buffer is cut to its content and terminated. */
  lemma JoinEnd(s: Store, hs: seq<Handle>, baselen: nat)
    requires InRange(s, hs)
    requires |Consume(s, hs).0| <= baselen
    ensures var c := Consume(s, hs).0;
            var t := JoinLoop(s, hs, |hs|, baselen);
            t[|s| := Fit(t[|s|], |c|) + [NUL]] == JoinSpec(s, hs)
  {
    assert hs[..|hs|] == hs;
    var (c, s') := Consume(s, hs);
    assert Fit(Fit(c, baselen), |c|) == c;
    ReplaceLast(s', Fit(c, baselen), c + [NUL]);
  }

  lemma ReplaceLast(s: Store, a: seq<byte>, b: seq<byte>)
    ensures (s + [a])[|s| := b] == s + [b]
  {
  }

  // ----- Programs of buffer operations

  /** One operation on buffers. Handles are numbered in order of creation and may be used any number of times. */
  datatype Op =
    | New
    | NewWithLen(len: nat)
    | From(bytes: seq<byte>)
    | Clone(src: Handle)
    | Resize(buf: Handle, newlen: nat)
    | Append(dst: Handle, other: Handle)
    | Join(bufs: seq<Handle>)

  /** What the original demands of its callers, whatever the buffers contain. */
  predicate Structural(s: Store, op: Op) {
    match op
    case New => true
    case NewWithLen(len) => 0 < len < U32_RANGE
    case From(bytes) => |bytes| + 1 < U32_RANGE
    case Clone(src) => src < |s| && 0 < |s[src]| < U32_RANGE
    case Resize(buf, newlen) => buf < |s| && (newlen > 0 || s[buf] == [])
    case Append(dst, other) => dst < |s| && other < |s| && s[other] != []
    case Join(bufs) => InRange(s, bufs) && 0 < TotalLen(s, bufs) < U32_RANGE
  }

  /** Everything the original demands: append and join also rely on the terminators of their arguments. */
  predicate Allowed(s: Store, op: Op) {
    && Structural(s, op)
    && (op.Append? ==> WellFormed(s[op.dst]) && WellFormed(s[op.other]))
    && (op.Join? ==> forall k | 0 <= k < |op.bufs| :: WellFormed(s[op.bufs[k]]))
  }

  function Apply(s: Store, op: Op): Store
    requires Structural(s, op)
  {
    match op
    case New => s + [[]]
    case NewWithLen(len) => s + [Zeros(len)]
    case From(bytes) => s + [bytes + [NUL]]
    case Clone(src) => s + [s[src]]
    case Resize(buf, newlen) => s[buf := Fit(s[buf], newlen)]
    case Append(dst, other) => AppendSpec(s, dst, other)
    case Join(bufs) => JoinSpec(s, bufs)
  }

  predicate AllowedRun(s: Store, ops: seq<Op>)
    decreases |ops|
  {
    ops == [] || (Allowed(s, ops[0]) && AllowedRun(Apply(s, ops[0]), ops[1..]))
  }

  function Run(s: Store, ops: seq<Op>): Store
    requires AllowedRun(s, ops)
    decreases |ops|
  {
    if ops == [] then s else Run(Apply(s, ops[0]), ops[1..])
  }

  /** Shrinking a buffer into its content is the one way to lose every terminator. */
  predicate Cuts(s: Store, op: Op) {
    op.Resize? && op.buf < |s| && 0 < op.newlen <= |Content(s[op.buf])|
  }

  predicate AllWellFormed(s: Store) {
    forall h | 0 <= h < |s| :: WellFormed(s[h])
  }

  /** An operation on well-formed buffers leaves them well-formed if and only if it does not cut. */
  lemma StepWellFormed(s: Store, op: Op)
    requires AllWellFormed(s) && Allowed(s, op)
    ensures AllWellFormed(Apply(s, op)) <==> !Cuts(s, op)
  {
    var s' := Apply(s, op);
    match op
    case New =>
    case NewWithLen(len) =>
      ContentTerminated([], Zeros(len));
      assert [] + Zeros(len) == Zeros(len);
    case From(bytes) =>
      assert (bytes + [NUL])[|bytes|] == NUL;
    case Clone(src) =>
    case Resize(buf, newlen) =>
      if s[buf] == [] {
        assert newlen > 0 ==> Fit(s[buf], newlen)[0] == NUL;
      } else {
        ResizeKeepsContent(s[buf], newlen);
        assert s'[buf] == Fit(s[buf], newlen);
      }
    case Append(dst, other) =>
      ContentTerminated(Content(s[dst]) + Content(s[other]), [NUL]);
    case Join(bufs) =>
      ConsumeStore(s, bufs);
      ContentTerminated(Consume(s, bufs).0, [NUL]);
  }

  /** A program that meets the structural demands and never cuts. */
  predicate CleanRun(s: Store, ops: seq<Op>)
    decreases |ops|
  {
    ops == [] || (Structural(s, ops[0]) && !Cuts(s, ops[0]) && CleanRun(Apply(s, ops[0]), ops[1..]))
  }

  /** Such a program never meets a buffer without its terminator, so all its operations are allowed. */
  lemma {:induction false} CleanRunIsAllowed(s: Store, ops: seq<Op>)
    requires AllWellFormed(s) && CleanRun(s, ops)
    ensures AllowedRun(s, ops) && AllWellFormed(Run(s, ops))
    decreases |ops|
  {
    if ops != [] {
      assert Allowed(s, ops[0]);
      StepWellFormed(s, ops[0]);
      CleanRunIsAllowed(Apply(s, ops[0]), ops[1..]);
    }
  }
}
