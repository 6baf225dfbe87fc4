/** Decimal numerals: what parsing to isize and formatting with "{}" compute. */
module Decimal {
  import opened Bytes
  import opened KeyCodes

  const ISIZE_MAX: nat := 0x7fff_ffff_ffff_ffff

  function DigitValue(b: byte): nat
    requires b in DECIMAL_DIGITS
  {
    b as int - 0x30
  }

  function DigitOf(n: nat): (b: byte)
    requires n < 10
    ensures b in DECIMAL_DIGITS && DigitValue(b) == n
  {
    (0x30 + n) as byte
  }

  /** The number denoted by a string of decimal digits. */
  function Value(s: seq<byte>): nat
    requires AllIn(s, DECIMAL_DIGITS)
  {
    if s == [] then 0 else 10 * Value(s[..|s| - 1]) + DigitValue(s[|s| - 1])
  }

  /** Parsing fails on the empty string, on a byte that is no digit, and on overflow. */
  function ParseIsize(s: seq<byte>): Option<nat> {
    if s == [] || !AllIn(s, DECIMAL_DIGITS) || Value(s) > ISIZE_MAX then None else Some(Value(s))
  }

  /** The shortest decimal numeral of n. */
  function Print(n: nat): seq<byte> {
    if n < 10 then [DigitOf(n)] else Print(n / 10) + [DigitOf(n % 10)]
  }

  function Pow10(k: nat): nat {
    if k == 0 then 1 else 10 * Pow10(k - 1)
  }

  /** A number below 10^k has at most k digits. */
  lemma {:induction false} PrintLength(n: nat, k: nat)
    requires 0 < k && n < Pow10(k)
    ensures |Print(n)| <= k
  {
    if n >= 10 {
      PrintLength(n / 10, k - 1);
    }
  }

  /** Without a leading zero, unless it is the numeral of zero. */
  predicate Canonical(s: seq<byte>) {
    s != [] && AllIn(s, DECIMAL_DIGITS) && (|s| > 1 ==> s[0] != 0x30)
  }

  /** Printing then parsing is the identity, and what is printed is canonical. */
  lemma {:induction false} ValueOfPrint(n: nat)
    ensures AllIn(Print(n), DECIMAL_DIGITS) && Value(Print(n)) == n
    ensures Canonical(Print(n)) && (n > 0 ==> Print(n)[0] != 0x30)
  {
    if n >= 10 {
      ValueOfPrint(n / 10);
      assert Print(n)[..|Print(n)| - 1] == Print(n / 10);
    } else {
      assert [DigitOf(n)][..0] == [];
    }
  }

  /** Numerals are compared by length, and those of one length by their first different byte. */
  predicate NumeralBelow(a: seq<byte>, b: seq<byte>) {
    || |a| < |b|
    || (|a| == |b| && exists k :: 0 <= k < |a| && a[..k] == b[..k] && a[k] < b[k])
  }

  lemma NumeralBelowSnoc(a: seq<byte>, b: seq<byte>, x: byte, y: byte)
    requires NumeralBelow(a, b)
    ensures NumeralBelow(a + [x], b + [y])
  {
    if |a| == |b| {
      var k :| 0 <= k < |a| && a[..k] == b[..k] && a[k] < b[k];
      assert (a + [x])[..k] == a[..k] && (b + [y])[..k] == b[..k];
    }
  }

  /**
   Numerals are strings of the bytes '0' to '9', ordered as their numbers are; as printing is
   injective and yields every canonical numeral, this fixes which digit stands for which value.
   */
  lemma {:induction false} PrintOrdered(n: nat, m: nat)
    requires n < m
    ensures NumeralBelow(Print(n), Print(m))
    ensures forall k | 0 <= k < |Print(n)| :: 0x30 <= Print(n)[k] <= 0x39
  {
    ValueOfPrint(n);
    if n / 10 < m / 10 {
      if n >= 10 {
        PrintOrdered(n / 10, m / 10);
        NumeralBelowSnoc(Print(n / 10), Print(m / 10), DigitOf(n % 10), DigitOf(m % 10));
      } else {
        ValueOfPrint(m / 10);
      }
    } else {
      var k := |Print(n)| - 1;
      assert n % 10 < m % 10;
      assert Print(n)[..k] == Print(m)[..k] && Print(n)[k] < Print(m)[k];
    }
  }

  lemma {:induction false} ValuePositive(s: seq<byte>)
    requires Canonical(s) && s[0] != 0x30
    ensures Value(s) > 0
  {
    if |s| > 1 {
      ValuePositive(s[..|s| - 1]);
    } else {
      assert s[..0] == [];
    }
  }

  lemma {:induction false} PrintOfCanonical(s: seq<byte>)
    requires Canonical(s)
    ensures Print(Value(s)) == s
  {
    var init, last := s[..|s| - 1], s[|s| - 1];
    if |s| == 1 {
      assert init == [] && s == [last];
    } else {
      PrintOfCanonical(init);
      ValuePositive(init);
      assert Value(s) / 10 == Value(init) && Value(s) % 10 == DigitValue(last);
      assert s == init + [last];
    }
  }

  /** Parsing then printing gives the digits back if and only if they are canonical. */
  lemma PrintOfValue(s: seq<byte>)
    requires AllIn(s, DECIMAL_DIGITS)
    ensures Print(Value(s)) == s <==> Canonical(s)
  {
    ValueOfPrint(Value(s));
    if Canonical(s) {
      PrintOfCanonical(s);
    }
  }

  /** Strings of the digits that the parser accepts are canonical as soon as they are not empty. */
  lemma CodedIsCanonical(s: seq<byte>)
    requires AllIn(s, CODED_DIGITS) && s != []
    ensures Canonical(s) && Print(Value(s)) == s
  {
    assert AllIn(s, DECIMAL_DIGITS) by {
      forall k | 0 <= k < |s| ensures s[k] in DECIMAL_DIGITS {
        assert s[k] in CODED_DIGITS;
      }
    }
    assert s[0] in CODED_DIGITS;
    PrintOfCanonical(s);
  }
}
