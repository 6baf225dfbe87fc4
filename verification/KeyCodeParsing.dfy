/** The incremental keycode parser: a byte queue and an undo log. */
module KeyCodeParsing {
  import opened Bytes
  import opened KeyCodes
  import opened TokenTheory

  class KeyCodeParser {
    var buf: seq<byte>
    var incomplete: seq<byte>

    constructor ()
      ensures buf == [] && incomplete == []
    {
      buf, incomplete := [], [];
    }

    /**
     Parse the keycode at the head of the queue. The original wraps the branches in a loop
     that never re-reads the head byte: with an ASCII head its body runs at most once, and
     with any other head it never ends, which the precondition excludes.
     */
    method ParseKeycode() returns (r: Option<KeyCode>)
      requires buf == [] || buf[0] < 0x80
      modifies this
      ensures var n := TokenLen(CODED_DIGITS, old(buf));
              && r == (if n == 0 then None else Some(Classify(old(buf)[..n])))
              && buf == old(buf)[n..]
      ensures r.None? ==> incomplete == []
    {
      ghost var q := buf;
      incomplete := [];
      var ch := Advance();
      if ch != 0 {
        assert q[..1] == [ch] && incomplete + buf == q;
        if ch == 0x07 {
          return Some(KeyCode(BEL, [ch], false, true, false));
        } else if ch == 0x08 {
          return Some(KeyCode(BS, [ch], false, true, false));
        } else if ch == 0x09 {
          return Some(KeyCode(HT, [ch], false, true, false));
        } else if ch == 0x0a {
          return Some(KeyCode(LF, [ch], false, true, false));
        } else if ch == 0x0b {
          return Some(KeyCode(VT, [ch], false, true, false));
        } else if ch == 0x0c {
          return Some(KeyCode(FF, [ch], false, true, false));
        } else if ch == 0x0d {
          return Some(KeyCode(CR, [ch], false, true, false));
        } else if ch == 0x1b {
          var complete := ParseReport();
          if complete {
            var code := CopyIncomplete();
            return Some(KeyCode(NONE, code, false, false, false));
          }
        } else if ch == 0x7f {
          return Some(KeyCode(DEL, [ch], false, true, false));
        } else if ch < 0x20 {
          return Some(KeyCode(NONE, [ch], false, true, false));
        } else {
          return Some(KeyCode(NONE, [ch], IsShift(ch), false, false));
        }
      }
      assert incomplete + buf == q;
      Rollback();
      return None;
    }

    /** Push every consumed byte back to the front of the queue, last one first. */
    method Rollback()
      modifies this
      ensures buf == old(incomplete + buf) && incomplete == []
    {
      var logged := |incomplete|;
      for i := 0 to logged
        invariant incomplete + buf == old(incomplete + buf)
        invariant |incomplete| == logged - i
      {
        var last := incomplete[logged - 1 - i];
        incomplete := incomplete[..logged - 1 - i];
        buf := [last] + buf;
      }
    }

    method CopyIncomplete() returns (code: seq<byte>)
      ensures code == incomplete
    {
      code := [];
      for i := 0 to |incomplete|
        invariant code == incomplete[..i]
      {
        code := code + [incomplete[i]];
      }
    }

    /** The ESC branch: consume the rest of a report, or fail somewhere inside it. */
    method ParseReport() returns (ok: bool)
      requires incomplete == [ESC]
      modifies this
      ensures incomplete + buf == old(incomplete + buf)
      ensures var q := old(incomplete + buf);
              var n := TokenLen(CODED_DIGITS, q);
              ok == (n > 0) && (ok ==> n > 1 && incomplete == q[..n] && buf == q[n..])
    {
      ghost var q := incomplete + buf;
      ok := Match(LEFT_BRACKET);
      if ok {
        ParseNum();
        ok := Match(SEMICOLON);
        if ok {
          ParseNum();
          ok := Match(CPR_FINAL);
          assert incomplete == q[..|incomplete|] && buf == q[|incomplete|..];
        }
      }
    }

    /** Consume the digits at the front of the queue. */
    method ParseNum()
      modifies this
      ensures incomplete + buf == old(incomplete + buf)
      ensures |incomplete| == SkipDigits(CODED_DIGITS, incomplete + buf, |old(incomplete)|)
    {
      while buf != []
        invariant incomplete + buf == old(incomplete + buf)
        invariant |incomplete| >= |old(incomplete)|
        invariant SkipDigits(CODED_DIGITS, incomplete + buf, |incomplete|)
               == SkipDigits(CODED_DIGITS, incomplete + buf, |old(incomplete)|)
        decreases |buf|
      {
        var ch := buf[0];
        if ch <= 0x30 || ch >= 0x39 { break; }
        var _ := Advance();
      }
    }

    /** Append the bytes of a buffer, without its null terminator. */
    method Buffer(bytes: seq<byte>)
      requires bytes != []
      modifies this
      ensures buf == old(buf) + bytes[..|bytes| - 1] && incomplete == old(incomplete)
    {
      buf := buf + bytes[..|bytes| - 1];
    }

    /** Consume one byte, whatever it is, and say whether it is the expected one. */
    method Match(expected: byte) returns (ok: bool)
      requires expected != 0
      modifies this
      ensures incomplete + buf == old(incomplete + buf)
      ensures |incomplete| == |old(incomplete)| + if old(buf) == [] then 0 else 1
      ensures ok <==> old(buf) != [] && old(buf)[0] == expected
    {
      var ch := Advance();
      ok := ch == expected;
    }

    /** Move the byte at the front of the queue to the undo log; 0 stands for an empty queue. */
    method Advance() returns (ch: byte)
      modifies this
      ensures old(buf) == [] ==> ch == 0 && buf == [] && incomplete == old(incomplete)
      ensures old(buf) != [] ==> ch == old(buf)[0] && buf == old(buf)[1..] && incomplete == old(incomplete) + [ch]
    {
      if buf == [] {
        return 0;
      }
      ch := buf[0];
      incomplete, buf := incomplete + [ch], buf[1..];
    }
  }
}
