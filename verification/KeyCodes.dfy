/** What a keycode is: the byte codes the parser recognises and how it classifies them. */
module KeyCodes {
  import opened Bytes

  /** The bytes accepted inside the two numeric fields of a cursor position report. */
  type Digits = d: set<byte> | SEMICOLON !in d && CPR_FINAL !in d witness {}

  /** The range tested by parse_num, which excludes both '0' and '9'. */
  const CODED_DIGITS: Digits := set b: byte | 0x31 <= b <= 0x38

  /** The decimal digits. */
  const DECIMAL_DIGITS: Digits := set b: byte | 0x30 <= b <= 0x39

  datatype KeyName = BEL | BS | HT | LF | VT | FF | CR | ESCAPE | DEL | NONE

  datatype KeyCode = KeyCode(key: KeyName, code: seq<byte>, shift: bool, ctrl: bool, alt: bool)

  /** A byte whose key is produced with the shift key held, on the layout the source assumes. */
  predicate IsShift(ch: byte) {
    || 0x41 <= ch <= 0x5a
    || 0x21 <= ch <= 0x26
    || 0x28 <= ch <= 0x2b
    || ch == 0x3a
    || ch == 0x3c
    || 0x3e <= ch <= 0x40
    || 0x5e <= ch <= 0x5f
    || 0x7b <= ch <= 0x7e
  }

  predicate AllIn(s: seq<byte>, d: set<byte>) {
    forall k | 0 <= k < |s| :: s[k] in d
  }

  /** A cursor position report (CPR, section 8.3.14 of ECMA-48) with the given parameter bytes. */
  function Report(row: seq<byte>, col: seq<byte>): seq<byte> {
    [ESC, LEFT_BRACKET] + row + [SEMICOLON] + col + [CPR_FINAL]
  }

  /** Before its final byte, a report holds only its delimiters and digits. */
  lemma ReportByte(d: Digits, row: seq<byte>, col: seq<byte>, k: nat)
    requires AllIn(row, d) && AllIn(col, d) && k < |Report(row, col)| - 1
    ensures var b := Report(row, col)[k]; b in d || b == ESC || b == LEFT_BRACKET || b == SEMICOLON
  {
    var start := [ESC, LEFT_BRACKET] + row + [SEMICOLON];
    assert Report(row, col) == start + (col + [CPR_FINAL]);
    if k >= |start| {
      assert Report(row, col)[k] == col[k - |start|];
    } else if 2 <= k < 2 + |row| {
      assert Report(row, col)[k] == start[k] == row[k - 2];
    }
  }

  predicate IsSingle(c: seq<byte>) {
    |c| == 1 && 0 < c[0] < 0x80 && c[0] != ESC
  }

  ghost predicate IsReport(d: Digits, c: seq<byte>) {
    exists row, col :: AllIn(row, d) && AllIn(col, d) && c == Report(row, col)
  }

  /** The codes of the keys: one ASCII byte other than NUL and ESC, or a whole report. */
  ghost predicate IsCode(d: Digits, c: seq<byte>) {
    IsSingle(c) || IsReport(d, c)
  }

  function ControlName(ch: byte): KeyName {
    if ch == 0x07 then BEL
    else if ch == 0x08 then BS
    else if ch == 0x09 then HT
    else if ch == 0x0a then LF
    else if ch == 0x0b then VT
    else if ch == 0x0c then FF
    else if ch == 0x0d then CR
    else if ch == 0x7f then DEL
    else NONE
  }

  /** The keycode a code stands for: every field is determined by the code. */
  function Classify(c: seq<byte>): KeyCode {
    if |c| == 1 then
      var ctrl := c[0] < 0x20 || c[0] == 0x7f;
      KeyCode(ControlName(c[0]), c, !ctrl && IsShift(c[0]), ctrl, false)
    else
      KeyCode(NONE, c, false, false, false)
  }

  // ----- What the classification says of each key

  /** The keys of single bytes: eight have a name, and control is held for those below space and for DEL. */
  lemma SingleByteKey(b: byte)
    requires 0 < b < 0x80 && b != 0x1b
    ensures var k := Classify([b]);
            && k.code == [b] && !k.alt && k.key != ESCAPE
            && (k.ctrl <==> b < 32 || b == 127)
            && (k.key == BEL <==> b == 7) && (k.key == BS <==> b == 8) && (k.key == HT <==> b == 9)
            && (k.key == LF <==> b == 10) && (k.key == VT <==> b == 11) && (k.key == FF <==> b == 12)
            && (k.key == CR <==> b == 13) && (k.key == DEL <==> b == 127)
            && (k.shift ==> 32 < b < 127)
  {
  }

  /** The bytes that one physical key sends: the first without the shift flag, the second with it. */
  predicate OneKey(plain: char, shifted: char)
    requires plain as int < 0x80 && shifted as int < 0x80
  {
    !Classify([plain as int as byte]).shift && Classify([shifted as int as byte]).shift
  }

  /** The shift flag of letters is that of a keyboard. */
  lemma LetterShift(letter: byte)
    requires 'A' as int <= letter as int <= 'Z' as int
    ensures Classify([letter]).shift && !Classify([letter + 0x20]).shift
  {
  }

  /** The shift flag of digits, punctuation and space is that of a US keyboard. */
  lemma SymbolShift()
    ensures OneKey('`', '~') && OneKey('1', '!') && OneKey('2', '@') && OneKey('3', '#') && OneKey('4', '$')
    ensures OneKey('5', '%') && OneKey('6', '^') && OneKey('7', '&') && OneKey('8', '*') && OneKey('9', '(')
    ensures OneKey('0', ')') && OneKey('-', '_') && OneKey('=', '+') && OneKey('[', '{') && OneKey(']', '}')
    ensures OneKey('\\', '|') && OneKey(';', ':') && OneKey('\'', '"') && OneKey(',', '<') && OneKey('.', '>')
    ensures OneKey('/', '?') && !Classify([' ' as int as byte]).shift
  {
  }

  /** A report is no named key, and no modifier is held for it. */
  lemma ReportKey(row: seq<byte>, col: seq<byte>)
    ensures var c := [0x1b, 0x5b] + row + [0x3b] + col + [0x52];
            Classify(c) == KeyCode(NONE, c, false, false, false)
  {
  }
}
