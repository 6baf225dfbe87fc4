/**
 The language of the keycode parser, for any set of digit bytes: unique
 decodability, what happens at the head of a queue, and what draining a queue
 in arbitrary portions yields.
 */
module TokenTheory {
  import opened Bytes
  import opened KeyCodes

  /** The end of the run of digit bytes that starts at i. */
  function SkipDigits(d: Digits, q: seq<byte>, i: nat): (r: nat)
    requires i <= |q|
    ensures i <= r <= |q|
    ensures forall k | i <= k < r :: q[k] in d
    ensures r < |q| ==> q[r] !in d
    decreases |q| - i
  {
    if i < |q| && q[i] in d then SkipDigits(d, q, i + 1) else i
  }

  /** The length of the code at the head of q, or 0 when no code is complete there. */
  function TokenLen(d: Digits, q: seq<byte>): (n: nat)
    ensures n <= |q|
  {
    if q == [] || q[0] == NUL || q[0] >= 0x80 then 0
    else if q[0] != ESC then 1
    else if |q| < 2 || q[1] != LEFT_BRACKET then 0
    else
      var i := SkipDigits(d, q, 2);
      if i == |q| || q[i] != SEMICOLON then 0
      else
        var j := SkipDigits(d, q, i + 1);
        if j == |q| || q[j] != CPR_FINAL then 0 else j + 1
  }

  lemma TokenIsCode(d: Digits, q: seq<byte>)
    requires TokenLen(d, q) > 0
    ensures IsCode(d, q[..TokenLen(d, q)])
  {
    var n := TokenLen(d, q);
    if q[0] == ESC {
      var i := SkipDigits(d, q, 2);
      var row, col := q[2..i], q[i + 1..n - 1];
      assert AllIn(row, d) && AllIn(col, d) && q[..n] == Report(row, col);
    }
  }

  lemma ReportToken(d: Digits, row: seq<byte>, col: seq<byte>, x: seq<byte>)
    requires AllIn(row, d) && AllIn(col, d)
    ensures TokenLen(d, Report(row, col) + x) == |Report(row, col)|
  {
    var q := Report(row, col) + x;
    var semi := 2 + |row|;
    assert forall k | 2 <= k < semi :: q[k] == row[k - 2];
    assert q[semi] == SEMICOLON;
    assert SkipDigits(d, q, 2) == semi;
    assert forall k | semi < k < semi + 1 + |col| :: q[k] == col[k - semi - 1];
    assert q[semi + 1 + |col|] == CPR_FINAL;
    assert SkipDigits(d, q, semi + 1) == semi + 1 + |col|;
  }

  /** A code is recognised whatever follows it. */
  lemma CodeToken(d: Digits, c: seq<byte>, x: seq<byte>)
    requires IsCode(d, c)
    ensures TokenLen(d, c + x) == |c| > 0
  {
    if !IsSingle(c) {
      var row, col :| AllIn(row, d) && AllIn(col, d) && c == Report(row, col);
      ReportToken(d, row, col, x);
    }
  }

  /** The recogniser finds exactly the codes: it returns n if and only if q starts with a code of length n. */
  lemma TokenLenExact(d: Digits, q: seq<byte>, n: nat)
    requires 0 < n <= |q|
    ensures TokenLen(d, q) == n <==> IsCode(d, q[..n])
  {
    if TokenLen(d, q) == n {
      TokenIsCode(d, q);
    }
    if IsCode(d, q[..n]) {
      assert q == q[..n] + q[n..];
      CodeToken(d, q[..n], q[n..]);
    }
  }

  /** Unique decodability: no code is a proper prefix of another. */
  lemma PrefixFree(d: Digits, c: seq<byte>, c': seq<byte>)
    requires IsCode(d, c) && IsCode(d, c') && c <= c'
    ensures c == c'
  {
    CodeToken(d, c, c'[|c|..]);
    CodeToken(d, c', []);
    assert c' == c + c'[|c|..] && c' + [] == c';
  }

  /** Success is stable under extension of the queue. */
  lemma TokenStable(d: Digits, q: seq<byte>, x: seq<byte>)
    requires TokenLen(d, q) > 0
    ensures TokenLen(d, q + x) == TokenLen(d, q)
  {
    var n := TokenLen(d, q);
    TokenIsCode(d, q);
    CodeToken(d, q[..n], q[n..] + x);
    assert q + x == q[..n] + (q[n..] + x);
  }

  // ----- The head of a queue

  /** Some continuation of q completes a code, and q itself is not one yet. */
  ghost predicate IsPartial(d: Digits, q: seq<byte>) {
    exists x :: x != [] && IsCode(d, q + x)
  }

  /** No continuation of q ever lets the parser return a keycode. */
  ghost predicate IsDead(d: Digits, q: seq<byte>) {
    forall x :: TokenLen(d, q + x) == 0
  }

  /** The syntactic form of a dead queue: a NUL or non-ASCII head, or an ESC whose report is malformed. */
  predicate IsMalformed(d: Digits, q: seq<byte>) {
    q != [] &&
    if q[0] != ESC then q[0] == NUL || q[0] >= 0x80
    else if |q| < 2 then false
    else if q[1] != LEFT_BRACKET then true
    else
      var i := SkipDigits(d, q, 2);
      i < |q| &&
      (q[i] != SEMICOLON ||
       var j := SkipDigits(d, q, i + 1); j < |q| && q[j] != CPR_FINAL)
  }

  lemma SkipDigitsStable(d: Digits, q: seq<byte>, x: seq<byte>, i: nat)
    requires i <= |q| && SkipDigits(d, q, i) < |q|
    ensures SkipDigits(d, q + x, i) == SkipDigits(d, q, i)
  {
    var r, r' := SkipDigits(d, q, i), SkipDigits(d, q + x, i);
    assert forall k | i <= k < |q| :: (q + x)[k] == q[k];
  }

  lemma MalformedIsDead(d: Digits, q: seq<byte>)
    requires IsMalformed(d, q)
    ensures IsDead(d, q)
  {
    forall x
      ensures TokenLen(d, q + x) == 0
    {
      if q[0] == ESC && q[1] == LEFT_BRACKET {
        SkipDigitsStable(d, q, x, 2);
        var i := SkipDigits(d, q, 2);
        if q[i] == SEMICOLON {
          SkipDigitsStable(d, q, x, i + 1);
        }
      }
    }
  }

  /** A queue with neither a code nor a defect at its head can be completed to a code. */
  lemma CompletePartial(d: Digits, q: seq<byte>) returns (x: seq<byte>)
    requires TokenLen(d, q) == 0 && !IsMalformed(d, q)
    ensures x != [] && IsCode(d, q + x)
  {
    if q == [] {
      x := [0x20];
      assert IsSingle(q + x);
    } else if |q| == 1 {
      x := [LEFT_BRACKET, SEMICOLON, CPR_FINAL];
      assert q + x == Report([], []);
    } else {
      var i := SkipDigits(d, q, 2);
      if i == |q| {
        x := [SEMICOLON, CPR_FINAL];
        assert q + x == Report(q[2..], []);
      } else {
        x := [CPR_FINAL];
        assert q + x == Report(q[2..i], q[i + 1..]);
      }
    }
  }

  /** Every queue starts with a code, or is a proper prefix of one, or is dead; and exactly one of these. */
  lemma Trichotomy(d: Digits, q: seq<byte>)
    ensures TokenLen(d, q) > 0 <==> exists n :: 0 < n <= |q| && IsCode(d, q[..n])
    ensures TokenLen(d, q) > 0 ==> !IsPartial(d, q) && !IsDead(d, q)
    ensures TokenLen(d, q) == 0 ==> (IsPartial(d, q) <==> !IsDead(d, q))
    ensures IsDead(d, q) <==> IsMalformed(d, q)
  {
    forall n | 0 < n <= |q| ensures TokenLen(d, q) == n <==> IsCode(d, q[..n]) {
      TokenLenExact(d, q, n);
    }
    if TokenLen(d, q) > 0 {
      assert IsCode(d, q[..TokenLen(d, q)]);
    }
    assert q + [] == q;
    if IsPartial(d, q) {
      var x :| x != [] && IsCode(d, q + x);
      CodeToken(d, q + x, []);
      assert q + x + [] == q + x;
      if TokenLen(d, q) > 0 {
        TokenStable(d, q, x);
        assert false;
      }
    }
    if IsMalformed(d, q) {
      MalformedIsDead(d, q);
    } else if TokenLen(d, q) == 0 {
      var x := CompletePartial(d, q);
    }
  }

  // ----- Draining a queue

  /** The codes obtained by parsing until nothing is returned. */
  function Tokens(d: Digits, q: seq<byte>): seq<seq<byte>>
    decreases |q|
  {
    var n := TokenLen(d, q);
    if n == 0 then [] else [q[..n]] + Tokens(d, q[n..])
  }

  /** What is then left in the queue. */
  function Residue(d: Digits, q: seq<byte>): seq<byte>
    decreases |q|
  {
    var n := TokenLen(d, q);
    if n == 0 then q else Residue(d, q[n..])
  }

  ghost predicate AllCodes(d: Digits, codes: seq<seq<byte>>) {
    forall k | 0 <= k < |codes| :: IsCode(d, codes[k])
  }

  /** Draining loses, invents and reorders nothing. */
  lemma {:induction false} DrainConserves(d: Digits, q: seq<byte>)
    ensures Flatten(Tokens(d, q)) + Residue(d, q) == q
    decreases |q|
  {
    var n := TokenLen(d, q);
    if n > 0 {
      var t, rest, r := q[..n], Tokens(d, q[n..]), Residue(d, q[n..]);
      calc {
        Flatten(Tokens(d, q)) + Residue(d, q);
        Flatten([t] + rest) + r;
        { FlattenCons(t, rest); }
        t + Flatten(rest) + r;
        { Assoc(t, Flatten(rest), r); }
        t + (Flatten(rest) + r);
        { DrainConserves(d, q[n..]); }
        t + q[n..];
        q;
      }
    }
  }

  /** It emits codes only, stops only where no code is complete, and emits at most one keycode a byte. */
  lemma {:induction false} DrainStops(d: Digits, q: seq<byte>)
    ensures AllCodes(d, Tokens(d, q))
    ensures TokenLen(d, Residue(d, q)) == 0
    ensures |Tokens(d, q)| + |Residue(d, q)| <= |q|
    decreases |q|
  {
    if TokenLen(d, q) > 0 {
      TokenIsCode(d, q);
      DrainStops(d, q[TokenLen(d, q)..]);
    }
  }

  /** Draining q and then draining its residue extended by x is draining q + x. */
  lemma {:induction false} DrainSplit(d: Digits, q: seq<byte>, x: seq<byte>)
    ensures Tokens(d, q + x) == Tokens(d, q) + Tokens(d, Residue(d, q) + x)
    ensures Residue(d, q + x) == Residue(d, Residue(d, q) + x)
    decreases |q|
  {
    var n := TokenLen(d, q);
    if n > 0 {
      TokenStable(d, q, x);
      assert (q + x)[..n] == q[..n] && (q + x)[n..] == q[n..] + x;
      DrainSplit(d, q[n..], x);
      Assoc([q[..n]], Tokens(d, q[n..]), Tokens(d, Residue(d, q) + x));
    }
  }

  /** Round trip: draining the concatenation of any list of codes returns exactly that list. */
  lemma {:induction false} DrainRoundTrip(d: Digits, codes: seq<seq<byte>>)
    requires AllCodes(d, codes)
    ensures Tokens(d, Flatten(codes)) == codes
    ensures Residue(d, Flatten(codes)) == []
  {
    if codes != [] {
      var init, last := codes[..|codes| - 1], codes[|codes| - 1];
      DrainRoundTrip(d, init);
      DrainSplit(d, Flatten(init), last);
      CodeToken(d, last, []);
      assert last + [] == last && [] + last == last;
      assert last[|last|..] == [];
    }
  }

  /** A byte stream is the codes of at most one list of keys. */
  lemma UniqueDecoding(d: Digits, codes: seq<seq<byte>>, codes': seq<seq<byte>>)
    requires AllCodes(d, codes)
    requires AllCodes(d, codes')
    requires Flatten(codes) == Flatten(codes')
    ensures codes == codes'
  {
    DrainRoundTrip(d, codes);
    DrainRoundTrip(d, codes');
  }

  /** From a dead queue nothing is ever emitted again and every byte fed stays. */
  lemma DeadForever(d: Digits, q: seq<byte>, x: seq<byte>)
    requires IsDead(d, q)
    ensures Tokens(d, q + x) == [] && Residue(d, q + x) == q + x && IsDead(d, q + x)
  {
    forall y ensures TokenLen(d, q + x + y) == 0 {
      assert q + x + y == q + (x + y);
    }
  }

  /** Where a drain stops: an empty queue, a NUL or non-ASCII head, or an ESC with no complete report. */
  lemma ResidueHead(d: Digits, q: seq<byte>)
    ensures var r := Residue(d, q);
            || r == []
            || r[0] == NUL
            || r[0] >= 0x80
            || (r[0] == ESC && !exists n :: 0 < n <= |r| && IsReport(d, r[..n]))
  {
    var r := Residue(d, q);
    DrainStops(d, q);
    forall n | 0 < n <= |r| ensures !IsCode(d, r[..n]) {
      TokenLenExact(d, r, n);
    }
  }

  /** Every ASCII byte other than NUL and ESC is a key at once, whatever follows it, and no other byte is. */
  lemma ByteIsKey(b: byte, q: seq<byte>)
    ensures TokenLen(CODED_DIGITS, [b] + q) == 1 <==> 0x00 < b < 0x80 && b != 0x1b
  {
    assert ([b] + q)[..1] == [b];
    TokenLenExact(CODED_DIGITS, [b] + q, 1);
  }

  // ----- Feeding and parsing in any order

  /** One use of the parser: feed it some bytes, or ask it for a keycode. */
  datatype Event = Feed(bytes: seq<byte>) | Parse

  /** The bytes fed by a sequence of uses. */
  function Fed(es: seq<Event>): seq<byte> {
    if es == [] then []
    else
      var e := es[|es| - 1];
      Fed(es[..|es| - 1]) + (if e.Feed? then e.bytes else [])
  }

  /** The codes emitted and the queue left by a sequence of uses of a parser whose queue is q. */
  function Use(d: Digits, q: seq<byte>, es: seq<Event>): (seq<seq<byte>>, seq<byte>) {
    if es == [] then ([], q)
    else
      var (out, buf) := Use(d, q, es[..|es| - 1]);
      match es[|es| - 1]
      case Feed(bytes) => (out, buf + bytes)
      case Parse =>
        var n := TokenLen(d, buf);
        if n == 0 then (out, buf) else (out + [buf[..n]], buf[n..])
  }

  /** After reading `stream`, `out` has been emitted and `buf` is queued: nothing is lost and the rest is still to come. */
  ghost predicate Consistent(d: Digits, stream: seq<byte>, out: seq<seq<byte>>, buf: seq<byte>) {
    && Flatten(out) + buf == stream
    && Tokens(d, stream) == out + Tokens(d, buf)
    && Residue(d, stream) == Residue(d, buf)
  }

  lemma FeedConsistent(d: Digits, stream: seq<byte>, out: seq<seq<byte>>, buf: seq<byte>, x: seq<byte>)
    requires Consistent(d, stream, out, buf)
    ensures Consistent(d, stream + x, out, buf + x)
  {
    DrainSplit(d, stream, x);
    DrainSplit(d, buf, x);
    Assoc(out, Tokens(d, buf), Tokens(d, Residue(d, buf) + x));
    Assoc(Flatten(out), buf, x);
  }

  lemma ParseConsistent(d: Digits, stream: seq<byte>, out: seq<seq<byte>>, buf: seq<byte>)
    requires Consistent(d, stream, out, buf) && TokenLen(d, buf) > 0
    ensures var n := TokenLen(d, buf); Consistent(d, stream, out + [buf[..n]], buf[n..])
  {
    var n := TokenLen(d, buf);
    FlattenSnoc(out, buf[..n]);
    Assoc(Flatten(out), buf[..n], buf[n..]);
    assert buf[..n] + buf[n..] == buf;
    Assoc(out, [buf[..n]], Tokens(d, buf[n..]));
  }

  /**
   Whatever the interleaving of feeding and parsing, the codes emitted so far followed by
   what draining the queue would emit are the codes of the whole stream, and no byte is
   lost, invented or reordered.
   */
  lemma {:induction false} UseIsPrefixOfDrain(d: Digits, q: seq<byte>, es: seq<Event>)
    ensures var (out, buf) := Use(d, q, es); Consistent(d, q + Fed(es), out, buf)
  {
    if es == [] {
      assert q + [] == q;
    } else {
      var front := es[..|es| - 1];
      UseIsPrefixOfDrain(d, q, front);
      var (out, buf) := Use(d, q, front);
      match es[|es| - 1]
      case Feed(bytes) =>
        FeedConsistent(d, q + Fed(front), out, buf, bytes);
        Assoc(q, Fed(front), bytes);
      case Parse =>
        assert Fed(es) == Fed(front);
        if TokenLen(d, buf) > 0 {
          ParseConsistent(d, q + Fed(front), out, buf);
        }
    }
  }

  /** Buffering each chunk and draining after it, as the read callback does. */
  function DrainChunks(d: Digits, q: seq<byte>, chunks: seq<seq<byte>>): (seq<seq<byte>>, seq<byte>) {
    if chunks == [] then ([], q)
    else
      var (out, buf) := DrainChunks(d, q, chunks[..|chunks| - 1]);
      var buf' := buf + chunks[|chunks| - 1];
      (out + Tokens(d, buf'), Residue(d, buf'))
  }

  /**
   Chunking-independence: the split of the input into reads cannot be observed, unless
   nothing is read at all and the queue already holds a complete key.
   */
  lemma {:induction false} ChunkingIndependence(d: Digits, q: seq<byte>, chunks: seq<seq<byte>>)
    ensures DrainChunks(d, q, chunks) == (Tokens(d, q + Flatten(chunks)), Residue(d, q + Flatten(chunks))) <==>
            chunks != [] || TokenLen(d, q) == 0
  {
    if chunks == [] {
      assert q + [] == q;
    } else {
      var front, last := chunks[..|chunks| - 1], chunks[|chunks| - 1];
      Assoc(q, Flatten(front), last);
      if front == [] {
        assert q + [] == q && [] + Tokens(d, q + last) == Tokens(d, q + last);
      } else {
        ChunkingIndependence(d, q, front);
        DrainSplit(d, q + Flatten(front), last);
      }
    }
  }
}
