/** Bytes, options and the few sequence operations every component uses. */
module Bytes {
  newtype byte = b: int | 0 <= b < 256

  datatype Option<+T> = None | Some(value: T)

  const NUL: byte := 0x00
  const ETX: byte := 0x03
  const ESC: byte := 0x1b
  const SEMICOLON: byte := 0x3b
  const LEFT_BRACKET: byte := 0x5b
  const CPR_FINAL: byte := 0x52 // 'R'
  const CUP_FINAL: byte := 0x48 // 'H'

  /** The concatenation of a sequence of byte strings, in order. */
  function Flatten(ss: seq<seq<byte>>): seq<byte> {
    if ss == [] then [] else Flatten(ss[..|ss| - 1]) + ss[|ss| - 1]
  }

  lemma Assoc<T>(a: seq<T>, b: seq<T>, c: seq<T>)
    ensures a + b + c == a + (b + c)
  {
  }

  lemma FirstThenRest<T>(a: seq<T>, b: seq<T>)
    requires a != []
    ensures a + b == [a[0]] + (a[1..] + b)
  {
  }

  lemma ButLast<T>(a: seq<T>, b: seq<T>)
    requires b != []
    ensures a + b == a + b[..|b| - 1] + [b[|b| - 1]]
  {
  }

  lemma Overwrite<T>(a: seq<T>, i: nat, x: T, y: T)
    requires i < |a|
    ensures a[i := x][i := y] == a[i := y]
  {
  }

  lemma OverwriteFirst<T>(a: seq<T>, b: seq<T>, i: nat, x: T, y: T)
    requires i < |a|
    ensures (a[i := x] + b)[i := y] == a[i := y] + b
  {
  }

  lemma {:induction false} FlattenAppend(ss: seq<seq<byte>>, ts: seq<seq<byte>>)
    ensures Flatten(ss + ts) == Flatten(ss) + Flatten(ts)
  {
    if ts == [] {
      assert ss + ts == ss;
    } else {
      FlattenAppend(ss, ts[..|ts| - 1]);
      assert (ss + ts)[..|ss + ts| - 1] == ss + ts[..|ts| - 1];
    }
  }

  lemma FlattenCons(s: seq<byte>, ss: seq<seq<byte>>)
    ensures Flatten([s] + ss) == s + Flatten(ss)
  {
    FlattenOne(s);
    FlattenAppend([s], ss);
  }

  lemma FlattenSnoc(ss: seq<seq<byte>>, s: seq<byte>)
    ensures Flatten(ss + [s]) == Flatten(ss) + s
  {
    FlattenOne(s);
    FlattenAppend(ss, [s]);
  }

  lemma FlattenOne(s: seq<byte>)
    ensures Flatten([s]) == s
  {
    assert [s][..0] == [];
  }

  /** The first position of b in s, or |s| when b does not occur. */
  function IndexOf(s: seq<byte>, b: byte): (i: nat)
    ensures i <= |s| && forall k | 0 <= k < i :: s[k] != b
    ensures i < |s| ==> s[i] == b
  {
    IndexFrom(s, b, 0)
  }

  function IndexFrom(s: seq<byte>, b: byte, i: nat): (r: nat)
    requires i <= |s|
    ensures i <= r <= |s| && forall k | i <= k < r :: s[k] != b
    ensures r < |s| ==> s[r] == b
    decreases |s| - i
  {
    if i == |s| || s[i] == b then i else IndexFrom(s, b, i + 1)
  }

  lemma IndexOfUnique(s: seq<byte>, b: byte, i: nat)
    requires i < |s| && s[i] == b && forall k | 0 <= k < i :: s[k] != b
    ensures IndexOf(s, b) == i
  {
  }

  function Zeros(n: nat): (z: seq<byte>)
    ensures |z| == n && forall k | 0 <= k < n :: z[k] == 0
  {
    seq(n, _ => 0)
  }
}
