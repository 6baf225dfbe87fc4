/**
 Program::init: the cursor position report is accumulated from read callbacks, tokenised
 and decoded into the home position.
 */
module Handshake {
  import opened Bytes
  import opened KeyCodes
  import opened TokenTheory
  import KeyCodeParsing
  import opened BufSpec
  import Buffers
  import opened Decimal

  // ----- Decoding

  datatype InitOutcome =
    | Home(row: nat, col: nat)
    | InitError      // no keycode at the head of the report
    | InternalError  // a field that does not parse
    | Panicked       // a key that is not a report

  /** Slice the fields out of a keycode and parse them; a missing delimiter is a panic. */
  function DecodeKey(code: seq<byte>): InitOutcome {
    var semi := IndexOf(code, SEMICOLON);
    if semi == |code| || semi < 2 then Panicked
    else
      var row := ParseIsize(code[2..semi]);
      if row.None? then InternalError
      else
        var r := IndexOf(code, CPR_FINAL);
        if r == |code| || r < semi + 1 then Panicked
        else
          var col := ParseIsize(code[semi + 1..r]);
          if col.None? then InternalError else Home(row.value, col.value)
  }

  /** The outcome of initialisation when the report buffer holds q. */
  function Decode(d: Digits, q: seq<byte>): InitOutcome {
    var n := TokenLen(d, q);
    if n == 0 then InitError else DecodeKey(q[..n])
  }

  /** The position given by two fields, when both are numbers. */
  function Fields(row: seq<byte>, col: seq<byte>): InitOutcome {
    match (ParseIsize(row), ParseIsize(col))
    case (Some(r), Some(c)) => Home(r, c)
    case _ => InternalError
  }

  /** A report decodes to its two fields. */
  lemma DecodeReportKey(d: Digits, row: seq<byte>, col: seq<byte>)
    requires AllIn(row, d) && AllIn(col, d)
    ensures DecodeKey(Report(row, col)) == Fields(row, col)
  {
    var c := Report(row, col);
    var semi := 2 + |row|;
    assert forall k | 2 <= k < semi :: c[k] == row[k - 2];
    assert forall k | semi < k < |c| - 1 :: c[k] == col[k - semi - 1];
    IndexOfUnique(c, SEMICOLON, semi);
    IndexOfUnique(c, CPR_FINAL, |c| - 1);
    assert c[2..semi] == row && c[semi + 1..|c| - 1] == col;
  }

  /** The fields of the report at the head of a queue, and what decoding them yields. */
  lemma HeadReport(d: Digits, q: seq<byte>) returns (row: seq<byte>, col: seq<byte>)
    requires TokenLen(d, q) > 0 && !IsSingle(q[..TokenLen(d, q)])
    ensures AllIn(row, d) && AllIn(col, d) && Report(row, col) <= q
    ensures Decode(d, q) == Fields(row, col)
  {
    var code := q[..TokenLen(d, q)];
    TokenIsCode(d, q);
    row, col :| AllIn(row, d) && AllIn(col, d) && code == Report(row, col);
    DecodeReportKey(d, row, col);
  }

  lemma DecodeHead(d: Digits, q: seq<byte>, row: seq<byte>, col: seq<byte>)
    requires AllIn(row, d) && AllIn(col, d) && Report(row, col) <= q
    ensures Decode(d, q) == Fields(row, col) && TokenLen(d, q) == |Report(row, col)|
  {
    TokenLenExact(d, q, |Report(row, col)|);
    DecodeReportKey(d, row, col);
  }

  /** Initialisation succeeds exactly when the buffer starts with a report whose fields are numbers, and gives these. */
  lemma DecodeExact(d: Digits, q: seq<byte>, r: nat, c: nat)
    ensures Decode(d, q) == Home(r, c) <==>
            exists row, col ::
              && AllIn(row, d) && AllIn(col, d) && Report(row, col) <= q
              && ParseIsize(row) == Some(r) && ParseIsize(col) == Some(c)
  {
    if row, col :| AllIn(row, d) && AllIn(col, d) && Report(row, col) <= q
                   && ParseIsize(row) == Some(r) && ParseIsize(col) == Some(c) {
      DecodeHead(d, q, row, col);
    }
    if Decode(d, q) == Home(r, c) {
      var row, col := HeadReport(d, q);
    }
  }

  /** The other outcomes: no complete key, a key typed ahead of the report, a field that is empty or too large. */
  lemma DecodeFailures(d: Digits, q: seq<byte>)
    ensures Decode(d, q) == InitError <==> TokenLen(d, q) == 0
    ensures Decode(d, q) == Panicked <==> TokenLen(d, q) > 0 && IsSingle(q[..TokenLen(d, q)])
    ensures Decode(d, q) == InternalError <==>
            exists row, col :: AllIn(row, d) && AllIn(col, d) && Report(row, col) <= q
                               && Fields(row, col) == InternalError
  {
    if TokenLen(d, q) > 0 && !IsSingle(q[..TokenLen(d, q)]) {
      var row, col := HeadReport(d, q);
    }
    if row, col :| AllIn(row, d) && AllIn(col, d) && Report(row, col) <= q && Fields(row, col) == InternalError {
      DecodeHead(d, q, row, col);
    }
  }

  // ----- The positions a terminal reports

  /** The report a terminal sends when the cursor is at (r, c). */
  function ReportOf(r: nat, c: nat): seq<byte> {
    Report(Print(r), Print(c))
  }

  /**
   The report of a position is decoded to that position if and only if all the digits of
   both numerals are accepted by the parser. If not, initialisation fails, and no further
   input can make the parser return anything.
   */
  lemma ReportOfPosition(d: Digits, r: nat, c: nat)
    requires r <= ISIZE_MAX && c <= ISIZE_MAX
    ensures Decode(d, ReportOf(r, c)) == Home(r, c) <==> AllIn(Print(r), d) && AllIn(Print(c), d)
    ensures Decode(d, ReportOf(r, c)) == Home(r, c) || (Decode(d, ReportOf(r, c)) == InitError && IsDead(d, ReportOf(r, c)))
  {
    ValueOfPrint(r);
    ValueOfPrint(c);
    ReportOfNumerals(d, Print(r), Print(c));
  }

  lemma ReportOfNumerals(d: Digits, row: seq<byte>, col: seq<byte>)
    requires AllIn(row, DECIMAL_DIGITS) && AllIn(col, DECIMAL_DIGITS)
    requires ParseIsize(row).Some? && ParseIsize(col).Some?
    ensures if AllIn(row, d) && AllIn(col, d) then Decode(d, Report(row, col)) == Fields(row, col)
            else Decode(d, Report(row, col)) == InitError && IsDead(d, Report(row, col))
  {
    var q := Report(row, col);
    if AllIn(row, d) && AllIn(col, d) {
      DecodeHead(d, q, row, col);
    } else {
      BadDigitIsMalformed(d, row, col);
      MalformedIsDead(d, q);
      assert q + [] == q;
    }
  }

  lemma BadDigitIsMalformed(d: Digits, row: seq<byte>, col: seq<byte>)
    requires AllIn(row, DECIMAL_DIGITS) && AllIn(col, DECIMAL_DIGITS)
    requires !AllIn(row, d) || !AllIn(col, d)
    ensures IsMalformed(d, Report(row, col))
  {
    var q := Report(row, col);
    var semi := 2 + |row|;
    assert forall k | 2 <= k < semi :: q[k] == row[k - 2];
    assert forall k | semi < k < |q| - 1 :: q[k] == col[k - semi - 1];
    assert q[semi] == SEMICOLON && q[|q| - 1] == CPR_FINAL;
    var i := SkipDigits(d, q, 2);
    assert i <= semi;
    if i < semi {
      assert q[i] in DECIMAL_DIGITS;
    } else {
      assert AllIn(row, d) by {
        forall k | 0 <= k < |row| ensures row[k] in d {
          assert q[k + 2] in d;
        }
      }
      var j := SkipDigits(d, q, i + 1);
      var k :| 0 <= k < |col| && col[k] !in d;
      assert q[semi + 1 + k] !in d;
      assert j <= semi + 1 + k;
      assert q[j] in DECIMAL_DIGITS;
    }
  }

  /** The digits the parser accepts are the decimal ones except the first and the last. */
  lemma CodedDigits(s: seq<byte>)
    ensures AllIn(s, CODED_DIGITS) <==> AllIn(s, DECIMAL_DIGITS) && forall b | b in s :: b != 0x30 && b != 0x39
  {
    if AllIn(s, DECIMAL_DIGITS) && forall b | b in s :: b != 0x30 && b != 0x39 {
      forall k | 0 <= k < |s| ensures s[k] in CODED_DIGITS {
        assert s[k] in DECIMAL_DIGITS && s[k] in s;
      }
    }
    if AllIn(s, CODED_DIGITS) {
      assert forall k | 0 <= k < |s| :: s[k] in CODED_DIGITS && s[k] in DECIMAL_DIGITS;
    }
  }

  /** No digit of either coordinate is a 0 or a 9. */
  predicate Accepted(r: nat, c: nat) {
    forall b | b in Print(r) + Print(c) :: b != 0x30 && b != 0x39
  }

  lemma AcceptedDigits(r: nat, c: nat)
    ensures Accepted(r, c) <==> AllIn(Print(r), CODED_DIGITS) && AllIn(Print(c), CODED_DIGITS)
  {
    ValueOfPrint(r);
    ValueOfPrint(c);
    CodedDigits(Print(r));
    CodedDigits(Print(c));
    assert forall b :: b in Print(r) + Print(c) <==> b in Print(r) || b in Print(c);
  }

  /** As coded, the report of a position is decoded to it if and only if no digit of it is a 0 or a 9. */
  lemma CodedPositions(r: nat, c: nat)
    requires r <= ISIZE_MAX && c <= ISIZE_MAX
    ensures Decode(CODED_DIGITS, ReportOf(r, c)) == Home(r, c) <==> Accepted(r, c)
  {
    AcceptedDigits(r, c);
    ReportOfPosition(CODED_DIGITS, r, c);
  }

  /** The bytes of the report of (r, c). */
  lemma ReportBytes(r: nat, c: nat)
    ensures ReportOf(r, c) == [0x1b, 0x5b] + Print(r) + [0x3b] + Print(c) + [0x52]
  {
  }

  lemma FieldOfNumber(s: seq<byte>, n: nat)
    requires AllIn(s, CODED_DIGITS)
    ensures ParseIsize(s) == Some(n) <==> s == Print(n) && n <= 0x7fff_ffff_ffff_ffff
  {
    ValueOfPrint(n);
    if s != [] {
      CodedIsCanonical(s);
    }
  }

  /**
   Init as coded, in bytes: home is (r, c) if and only if the buffer starts with ESC [,
   the numeral of r, a semicolon, the numeral of c and R, where both fit isize and have no
   digit 0 or 9.
   */
  lemma HomeExactly(q: seq<byte>, r: nat, c: nat)
    ensures Decode(CODED_DIGITS, q) == Home(r, c) <==>
            && r <= 0x7fff_ffff_ffff_ffff && c <= 0x7fff_ffff_ffff_ffff
            && [0x1b, 0x5b] + Print(r) + [0x3b] + Print(c) + [0x52] <= q
            && Accepted(r, c)
  {
    AcceptedDigits(r, c);
    ReportBytes(r, c);
    if Decode(CODED_DIGITS, q) == Home(r, c) {
      DecodeExact(CODED_DIGITS, q, r, c);
      var row, col :| AllIn(row, CODED_DIGITS) && AllIn(col, CODED_DIGITS) && Report(row, col) <= q
                      && ParseIsize(row) == Some(r) && ParseIsize(col) == Some(c);
      FieldOfNumber(row, r);
      FieldOfNumber(col, c);
    } else if Accepted(r, c) && ReportOf(r, c) <= q && r <= ISIZE_MAX && c <= ISIZE_MAX {
      FieldOfNumber(Print(r), r);
      FieldOfNumber(Print(c), c);
      DecodeHead(CODED_DIGITS, q, Print(r), Print(c));
      assert false;
    }
  }

  /** As coded, initialisation fails whenever a coordinate contains a 0 or a 9: row 10, column 1 is such a position. */
  lemma RowTenFails()
    ensures Decode(CODED_DIGITS, ReportOf(10, 1)) == InitError
  {
    assert Print(10) == [0x31, 0x30];
    assert Print(10)[1] !in CODED_DIGITS;
    ReportOfPosition(CODED_DIGITS, 10, 1);
  }

  /** With the ten decimal digits accepted, every position would be decoded. */
  lemma DecimalDigitsDecodeAll(r: nat, c: nat)
    requires r <= ISIZE_MAX && c <= ISIZE_MAX
    ensures Decode(DECIMAL_DIGITS, ReportOf(r, c)) == Home(r, c)
  {
    ValueOfPrint(r);
    ValueOfPrint(c);
    ReportOfPosition(DECIMAL_DIGITS, r, c);
  }

  /** The cursor position command (CUP, section 8.3.21 of ECMA-48) that run writes for home. */
  function CursorTo(row: nat, col: nat): seq<byte> {
    [ESC, LEFT_BRACKET] + Print(row) + [SEMICOLON] + Print(col) + [CUP_FINAL]
  }

  /** The command for a home that init decoded is short. */
  lemma CursorLength(d: Digits, q: seq<byte>, row: nat, col: nat)
    requires Decode(d, q) == Home(row, col)
    ensures |CursorTo(row, col)| <= 42
  {
    DecodeExact(d, q, row, col);
    assert Pow10(4) == 10_000;
    assert Pow10(8) == 10_000 * Pow10(4);
    assert Pow10(12) == 10_000 * Pow10(8);
    assert Pow10(16) == 10_000 * Pow10(12);
    assert Pow10(19) == 1_000 * Pow10(16);
    PrintLength(row, 19);
    PrintLength(col, 19);
  }

  /** Cursor echo: the command written for the home decoded from a report is that report with its final byte replaced. */
  lemma CursorEcho(q: seq<byte>, row: seq<byte>, col: seq<byte>, r: nat, c: nat)
    requires AllIn(row, CODED_DIGITS) && AllIn(col, CODED_DIGITS) && Report(row, col) <= q
    requires Decode(CODED_DIGITS, q) == Home(r, c)
    ensures CursorTo(r, c) == Report(row, col)[..|Report(row, col)| - 1] + [CUP_FINAL]
  {
    DecodeHead(CODED_DIGITS, q, row, col);
    CodedIsCanonical(row);
    CodedIsCanonical(col);
    var p := [ESC, LEFT_BRACKET] + row + [SEMICOLON] + col;
    assert (p + [CPR_FINAL])[..|p|] == p;
  }

  // ----- Accumulating the report

  datatype ReadStep = Continue | Stop | Panic

  /** The verdict of the read callback on the bytes received so far. */
  function Verdict(got: seq<byte>): ReadStep {
    if got == [] then Panic else if got[|got| - 1] == CPR_FINAL then Stop else Continue
  }

  /** Deliver chunks until the callback stops: the bytes kept, the chunks used and the last verdict. */
  function ReadAll(got: seq<byte>, chunks: seq<seq<byte>>): (r: (seq<byte>, nat, ReadStep))
    ensures r.1 <= |chunks| && (r.2 == Stop ==> r.0 != [])
    decreases |chunks|
  {
    if chunks == [] then (got, 0, Continue)
    else
      var got' := got + Content(chunks[0]);
      if Verdict(got') != Continue then (got', 1, Verdict(got'))
      else
        var (all, n, step) := ReadAll(got', chunks[1..]);
        (all, n + 1, step)
  }

  /** A chunk up to its first NUL. */
  function CutAtNul(chunk: seq<byte>): seq<byte> {
    if chunk == [] || chunk[0] == 0x00 then [] else [chunk[0]] + CutAtNul(chunk[1..])
  }

  lemma {:induction false} ContentIsCut(chunk: seq<byte>)
    ensures Content(chunk) == CutAtNul(chunk)
  {
    if chunk == [] || chunk[0] == NUL {
    } else {
      var i := IndexOf(chunk[1..], NUL);
      ContentIsCut(chunk[1..]);
      assert forall k | 0 <= k < i :: chunk[1..][k] == chunk[1 + k];
      if i < |chunk| - 1 {
        IndexOfUnique(chunk, NUL, i + 1);
      }
      assert Content(chunk) == chunk[..i + 1];
      assert chunk[..i + 1] == [chunk[0]] + chunk[1..][..i];
    }
  }

  /** What is kept of a list of chunks. */
  function Kept(chunks: seq<seq<byte>>): seq<byte> {
    if chunks == [] then [] else CutAtNul(chunks[0]) + Kept(chunks[1..])
  }

  /** The text received so far does not end the report. */
  predicate GoesOn(got: seq<byte>) {
    got != [] && got[|got| - 1] != 0x52
  }

  lemma KeptTail(got: seq<byte>, chunks: seq<seq<byte>>, k: nat)
    requires 0 < k <= |chunks|
    ensures got + Kept(chunks[..k]) == got + CutAtNul(chunks[0]) + Kept(chunks[1..][..k - 1])
  {
    assert chunks[..k][1..] == chunks[1..][..k - 1];
    Assoc(got, CutAtNul(chunks[0]), Kept(chunks[1..][..k - 1]));
  }

  /**
   When reading stops: everything received is kept, each chunk up to its first NUL, and the
   callback stops at the first chunk after which the text ends with R (byte 0x52), wherever
   other Rs are, or panics at the first after which it is still empty.
   */
  lemma {:induction false} StopsAtFinalR(got: seq<byte>, chunks: seq<seq<byte>>)
    ensures var (all, n, step) := ReadAll(got, chunks);
            && all == got + Kept(chunks[..n])
            && (step == Stop ==> n > 0 && all != [] && all[|all| - 1] == 0x52)
            && (step == Panic ==> n > 0 && all == [])
            && (step == Continue ==> n == |chunks|)
            && (forall k | 0 < k < n || (k == n > 0 && step == Continue) :: GoesOn(got + Kept(chunks[..k])))
    decreases |chunks|
  {
    var (all, n, step) := ReadAll(got, chunks);
    assert got + [] == got;
    if chunks != [] {
      ContentIsCut(chunks[0]);
      var got' := got + CutAtNul(chunks[0]);
      KeptTail(got, chunks, 1);
      assert got' + [] == got';
      if Verdict(got') == Continue {
        StopsAtFinalR(got', chunks[1..]);
        KeptTail(got, chunks, n);
        forall k | 0 < k < n || (k == n && step == Continue) ensures GoesOn(got + Kept(chunks[..k])) {
          KeptTail(got, chunks, k);
        }
      }
    }
  }

  /** A report, however split into non-empty chunks, stops the callback exactly at its last chunk. */
  lemma {:induction false} AnyChunkingStops(got: seq<byte>, chunks: seq<seq<byte>>, w: seq<byte>)
    requires got + Flatten(chunks) == w && |got| < |w| && w[|w| - 1] == CPR_FINAL
    requires forall k | 0 <= k < |w| - 1 :: w[k] != CPR_FINAL
    requires forall k | 0 <= k < |w| :: w[k] != NUL
    requires forall k | 0 <= k < |chunks| :: chunks[k] != []
    ensures ReadAll(got, chunks) == (w, |chunks|, Stop)
    decreases |chunks|
  {
    assert Flatten([]) == [] && got + [] == got;
    var head, tail := chunks[0], chunks[1..];
    assert chunks == [head] + tail;
    FlattenCons(head, tail);
    Assoc(got, head, Flatten(tail));
    ChunkWithin(got, head, Flatten(tail), w);
    if |got + head| == |w| {
      if tail != [] {
        FlattenNonEmpty(tail);
        assert false;
      }
    } else {
      AnyChunkingStops(got + head, tail, w);
    }
  }

  /** A chunk of a NUL-free text is not cut, and the callback sees the final byte only when it has everything. */
  lemma ChunkWithin(got: seq<byte>, head: seq<byte>, rest: seq<byte>, w: seq<byte>)
    requires got + head + rest == w && head != []
    requires forall k | 0 <= k < |w| - 1 :: w[k] != CPR_FINAL
    requires forall k | 0 <= k < |w| :: w[k] != NUL
    ensures Content(head) == head
    ensures |got + head| == |w| ==> got + head == w && rest == []
    ensures |got + head| < |w| ==> (got + head)[|got + head| - 1] != CPR_FINAL
  {
    var got' := got + head;
    assert forall k | 0 <= k < |got'| :: got'[k] == w[k];
    assert forall k | 0 <= k < |head| :: head[k] == got'[|got| + k];
  }

  lemma FlattenNonEmpty(ss: seq<seq<byte>>)
    requires ss != [] && forall k | 0 <= k < |ss| :: ss[k] != []
    ensures Flatten(ss) != []
  {
    assert ss[|ss| - 1] != [];
  }

  /**
   The handshake: whatever the split of the report of (r, c) into non-empty chunks, every
   chunk is read, the report is kept whole, and home is (r, c) if and only if no digit of
   either coordinate is a 0 or a 9.
   */
  lemma HandshakeAnyChunking(r: nat, c: nat, chunks: seq<seq<byte>>)
    requires r <= ISIZE_MAX && c <= ISIZE_MAX
    requires Flatten(chunks) == [0x1b, 0x5b] + Print(r) + [0x3b] + Print(c) + [0x52]
    requires forall k | 0 <= k < |chunks| :: chunks[k] != []
    ensures ReadAll([], chunks) == (Flatten(chunks), |chunks|, Stop)
    ensures Decode(CODED_DIGITS, ReadAll([], chunks).0) == Home(r, c) <==>
            Accepted(r, c)
  {
    var w := ReportOf(r, c);
    ReportBytes(r, c);
    ValueOfPrint(r);
    ValueOfPrint(c);
    assert [] + Flatten(chunks) == w;
    forall k | 0 <= k < |w| - 1 ensures w[k] != CPR_FINAL && w[k] != NUL {
      ReportByte(DECIMAL_DIGITS, Print(r), Print(c), k);
    }
    AnyChunkingStops([], chunks, w);
    CodedPositions(r, c);
  }

  /** The state of init: the buffers, the report being accumulated, and whether reading is on. */
  class InitReader {
    const mem: Buffers.Memory
    const report: Handle
    var reading: bool

    /** The report buffer is uninitialised, or exactly the bytes received and one terminator. */
    ghost predicate Holds(got: seq<byte>)
      reads mem
    {
      && mem.Valid()
      && report < |mem.store|
      && NUL !in got
      && (mem.store[report] == got + [NUL] || (got == [] && mem.store[report] == []))
    }

    constructor (mem: Buffers.Memory)
      requires mem.Valid()
      modifies mem
      ensures this.mem == mem && reading && Holds([])
    {
      var h := mem.New();
      this.mem, report, reading := mem, h, true;
    }

    /** The read callback: append the chunk to the report and stop once the report ends with an R. */
    method OnRead(chunk: seq<byte>, ghost got: seq<byte>) returns (step: ReadStep)
      requires Holds(got) && |chunk| + 1 < U32_RANGE
      modifies this, mem
      ensures Holds(got + Content(chunk)) && step == Verdict(got + Content(chunk))
      ensures reading == (old(reading) && step != Stop)
    {
      ghost var old_report := mem.store[report];
      ContentOf(got, old_report);
      ContentOfChunk(chunk);
      var buf := mem.From(chunk);
      mem.Append(report, buf);
      assert mem.store[report] == got + Content(chunk) + [NUL];
      var len := mem.Len(report);
      if len < 2 {
        return Panic;
      }
      var bytes := mem.AsBytes(report);
      if bytes[len - 2] == CPR_FINAL {
        reading := false;
        return Stop;
      }
      return Continue;
    }

    /** The event loop: callbacks are delivered until reading stops. */
    method Run(chunks: seq<seq<byte>>) returns (used: nat, step: ReadStep)
      requires Holds([]) && reading
      requires forall k | 0 <= k < |chunks| :: |chunks[k]| + 1 < U32_RANGE
      modifies this, mem
      ensures Holds(ReadAll([], chunks).0)
      ensures (used, step) == (ReadAll([], chunks).1, ReadAll([], chunks).2)
      ensures reading <==> step != Stop
    {
      ghost var got: seq<byte> := [];
      used, step := 0, Continue;
      assert chunks[0..] == chunks;
      while used < |chunks| && step == Continue
        invariant used <= |chunks| && Holds(got) && (reading <==> step != Stop)
        invariant step == Continue ==>
                    var (all, n, last) := ReadAll(got, chunks[used..]);
                    ReadAll([], chunks) == (all, used + n, last)
        invariant step != Continue ==> ReadAll([], chunks) == (got, used, step)
        decreases |chunks| - used
      {
        assert chunks[used..][1..] == chunks[used + 1..];
        step := OnRead(chunks[used], got);
        got := got + Content(chunks[used]);
        used := used + 1;
      }
    }

    /** What init does once the loop has returned: tokenise the report and decode home. */
    method Finish(ghost got: seq<byte>) returns (outcome: InitOutcome, parser: KeyCodeParsing.KeyCodeParser)
      requires Holds(got) && got != [] && got[0] < 0x80
      ensures outcome == Decode(CODED_DIGITS, got)
      ensures fresh(parser) && parser.buf == got[TokenLen(CODED_DIGITS, got)..]
    {
      parser := new KeyCodeParsing.KeyCodeParser();
      var bytes := mem.AsBytes(report);
      parser.Buffer(bytes);
      assert parser.buf == got;
      var keycode := parser.ParseKeycode();
      if keycode.None? {
        return InitError, parser;
      }
      outcome := DecodeFields(keycode.value.code);
    }

    /** Locate the delimiters, parse the two fields between them; an absent delimiter panics. */
    method DecodeFields(code: seq<byte>) returns (outcome: InitOutcome)
      ensures outcome == DecodeKey(code)
    {
      var semi := IndexOf(code, SEMICOLON);
      if semi == |code| || semi < 2 {
        return Panicked;
      }
      var row := ParseIsize(code[2..semi]);
      if row.None? {
        return InternalError;
      }
      var r := IndexOf(code, CPR_FINAL);
      if r == |code| || r < semi + 1 {
        return Panicked;
      }
      var col := ParseIsize(code[semi + 1..r]);
      return if col.None? then InternalError else Home(row.value, col.value);
    }
  }

  /**
   Program::init, given the chunks that the terminal delivers: home and the parser with the
   bytes after the report, or the way in which it fails.
   */
  method Init(chunks: seq<seq<byte>>) returns (outcome: InitOutcome, parser: KeyCodeParsing.KeyCodeParser)
    requires forall k | 0 <= k < |chunks| :: |chunks[k]| + 1 < U32_RANGE
    requires var (got, _, step) := ReadAll([], chunks); step == Panic || (step == Stop && got[0] < 0x80)
    ensures fresh(parser)
    ensures var (got, _, step) := ReadAll([], chunks);
            if step == Panic then outcome == Panicked
            else outcome == Decode(CODED_DIGITS, got) && parser.buf == got[TokenLen(CODED_DIGITS, got)..]
  {
    var mem := new Buffers.Memory();
    var reader := new InitReader(mem);
    var used, step := reader.Run(chunks);
    if step == Panic {
      parser := new KeyCodeParsing.KeyCodeParser();
      return Panicked, parser;
    }
    outcome, parser := reader.Finish(ReadAll([], chunks).0);
  }

  lemma ContentOf(got: seq<byte>, b: seq<byte>)
    requires NUL !in got && (b == got + [NUL] || (got == [] && b == []))
    ensures Content(b) == got && WellFormed(b)
  {
    if b != [] {
      ContentTerminated(got, [NUL]);
    }
  }

  /** Converting a chunk to a buffer and reading its content back cuts it at its first NUL. */
  lemma ContentOfChunk(chunk: seq<byte>)
    ensures Content(chunk + [NUL]) == Content(chunk) && WellFormed(chunk + [NUL])
  {
    var b := chunk + [NUL];
    var i := IndexOf(chunk, NUL);
    assert b[i] == NUL && b[..i] == chunk[..i];
    ContentPrefix(b, chunk[..i]);
  }
}
