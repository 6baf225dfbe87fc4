/**
 Manually managed buffers. A Buf is a copyable handle on a header that holds a base
 pointer and a length; the bases are blocks of a heap, allocated and freed by hand.
 */
module Buffers {
  import opened Bytes
  import opened BufSpec

  type Ptr = nat
  const NULL: Ptr := 0

  datatype Header = Header(base: Ptr, len: nat)

  /** Headers are numbered in order of creation: the original never frees one. */
  datatype Mem = Mem(headers: seq<Header>, blocks: map<Ptr, seq<byte>>)

  predicate Owns(m: Mem, h: int) {
    0 <= h < |m.headers| && m.headers[h].len != 0
  }

  /** A header knows the size of its live block, or owns none. */
  predicate HeaderOk(m: Mem, h: int) {
    0 <= h < |m.headers| ==>
      if m.headers[h].len == 0 then m.headers[h].base == NULL
      else m.headers[h].base in m.blocks && |m.blocks[m.headers[h].base]| == m.headers[h].len
  }

  predicate Apart(m: Mem, g: int, h: int) {
    Owns(m, g) && Owns(m, h) && g != h ==> m.headers[g].base != m.headers[h].base
  }

  ghost predicate Owned(m: Mem, p: Ptr) {
    exists h :: Owns(m, h) && m.headers[h].base == p
  }

  /**
   Ownership: the initialised headers and the live blocks correspond one to one, and each
   header knows the size of its block. So no block is shared, dangling or leaked.
   */
  ghost predicate Inv(m: Mem) {
    && NULL !in m.blocks
    && (forall h :: HeaderOk(m, h))
    && (forall g, h :: Apart(m, g, h))
    && (forall p {:trigger Owned(m, p)} | p in m.blocks :: Owned(m, p))
  }

  function BytesOf(m: Mem, h: Handle): seq<byte>
    requires h < |m.headers|
  {
    if m.headers[h].len != 0 && m.headers[h].base in m.blocks then m.blocks[m.headers[h].base] else []
  }

  predicate Shows(m: Mem, s: Store, h: int)
    requires |s| == |m.headers|
  {
    0 <= h < |s| ==> s[h] == BytesOf(m, h)
  }

  /** The heap m represents the store s: ownership holds and every buffer has the bytes s gives it. */
  ghost predicate Represents(m: Mem, s: Store) {
    && Inv(m)
    && |s| == |m.headers|
    && forall h :: Shows(m, s, h)
  }

  /** The heap after a header, old or new, has been given a block p holding bytes in place of the one it had. */
  function Moved(m: Mem, h: Handle, p: Ptr, bytes: seq<byte>): Mem
    requires h <= |m.headers|
  {
    if h == |m.headers| then Mem(m.headers + [Header(p, |bytes|)], m.blocks[p := bytes])
    else Mem(m.headers[h := Header(p, |bytes|)], (m.blocks - {m.headers[h].base})[p := bytes])
  }

  /** Giving a header a block that no other header owns changes the bytes of that buffer only. */
  lemma MoveHeader(m: Mem, s: Store, h: Handle, p: Ptr, bytes: seq<byte>)
    requires Represents(m, s) && h <= |m.headers| && p != NULL && bytes != []
    requires p !in m.blocks || (Owns(m, h) && p == m.headers[h].base)
    ensures Represents(Moved(m, h, p, bytes), if h == |s| then s + [bytes] else s[h := bytes])
  {
    var m' := Moved(m, h, p, bytes);
    var s' := if h == |s| then s + [bytes] else s[h := bytes];
    forall g
      ensures HeaderOk(m', g) && Shows(m', s', g)
      ensures 0 <= g < |m.headers| && g != h ==> m'.headers[g] == m.headers[g]
      ensures Owns(m', g) && g != h ==> Owns(m, g) && m.headers[g].base in m.blocks && m.headers[g].base != p
    {
      assert HeaderOk(m, g) && HeaderOk(m, h) && Apart(m, g, h) && Shows(m, s, g);
    }
    forall f, g ensures Apart(m', f, g) {
      assert Apart(m, f, g);
    }
    forall q | q in m'.blocks ensures Owned(m', q) {
      assert Owns(m', h) && m'.headers[h].base == p;
      if q != p {
        assert Owned(m, q);
        var g :| Owns(m, g) && m.headers[g].base == q;
        assert Owns(m', g) && m'.headers[g].base == q;
      }
    }
  }

  /** Freeing the block of an initialised header and clearing it empties that buffer only. */
  lemma ClearHeader(m: Mem, s: Store, h: Handle)
    requires Represents(m, s) && Owns(m, h)
    ensures Represents(Mem(m.headers[h := Header(NULL, 0)], m.blocks - {m.headers[h].base}), s[h := []])
  {
    var m' := Mem(m.headers[h := Header(NULL, 0)], m.blocks - {m.headers[h].base});
    var s' := s[h := []];
    forall g ensures HeaderOk(m', g) && Shows(m', s', g) {
      assert HeaderOk(m, g) && HeaderOk(m, h) && Apart(m, g, h) && Shows(m, s, g);
    }
    forall f, g ensures Apart(m', f, g) {
      assert Apart(m, f, g);
    }
    forall q | q in m'.blocks ensures Owned(m', q) {
      assert Owned(m, q);
      var g :| Owns(m, g) && m.headers[g].base == q;
      assert Owns(m', g) && m'.headers[g].base == q;
    }
  }

  /** A header that owns nothing can be added freely. */
  lemma AddEmpty(m: Mem, s: Store)
    requires Represents(m, s)
    ensures Represents(Mem(m.headers + [Header(NULL, 0)], m.blocks), s + [[]])
  {
    var m' := Mem(m.headers + [Header(NULL, 0)], m.blocks);
    forall g ensures HeaderOk(m', g) && Shows(m', s + [[]], g) {
      assert HeaderOk(m, g) && Shows(m, s, g);
    }
    forall f, g ensures Apart(m', f, g) {
      assert Apart(m, f, g);
    }
    forall q | q in m'.blocks ensures Owned(m', q) {
      assert Owned(m, q);
      var g :| Owns(m, g) && m.headers[g].base == q;
      assert Owns(m', g) && m'.headers[g].base == q;
    }
  }

  /** Writing to the block of a header changes that buffer only. */
  lemma WriteBlock(m: Mem, s: Store, h: Handle, bytes: seq<byte>)
    requires Represents(m, s) && h < |s| && s[h] != [] && |bytes| == |s[h]|
    ensures Represents(Mem(m.headers, m.blocks[m.headers[h].base := bytes]), s[h := bytes])
  {
    var base := m.headers[h].base;
    BufferBlock(m, s, h);
    MoveHeader(m, s, h, base, bytes);
    assert m.headers[h := Header(base, |bytes|)] == m.headers;
    assert (m.blocks - {base})[base := bytes] == m.blocks[base := bytes];
  }

  /** What the header of a buffer says about the heap. */
  lemma BufferBlock(m: Mem, s: Store, h: Handle)
    requires Represents(m, s) && h < |s|
    ensures m.headers[h].len == |s[h]|
    ensures if s[h] == [] then m.headers[h].base == NULL
            else m.headers[h].base in m.blocks && m.blocks[m.headers[h].base] == s[h]
  {
    assert HeaderOk(m, h) && Shows(m, s, h);
  }

  /** The cast of a length to u32 respects ownership exactly for lengths that fit. */
  lemma LengthCast(m: Mem, s: Store, p: Ptr, n: nat)
    requires Represents(m, s) && p != NULL && p !in m.blocks && n > 0
    ensures Inv(Mem(m.headers + [Header(p, n % 0x1_0000_0000)], m.blocks[p := Zeros(n)])) <==> n < 0x1_0000_0000
  {
    var m' := Mem(m.headers + [Header(p, n % U32_RANGE)], m.blocks[p := Zeros(n)]);
    if n < U32_RANGE {
      assert n % U32_RANGE == n;
      MoveHeader(m, s, |m.headers|, p, Zeros(n));
    } else {
      assert !HeaderOk(m', |m.headers|);
    }
  }

  /** The C heap together with the headers that live in it. */
  class Memory {
    var headers: seq<Header>
    var blocks: map<Ptr, seq<byte>>
    var brk: Ptr
    ghost var store: Store

    ghost predicate Sound()
      reads this
    {
      brk != NULL && NULL !in blocks && forall p | p in blocks :: p < brk
    }

    ghost predicate Valid()
      reads this
    {
      Sound() && Represents(Mem(headers, blocks), store)
    }

    constructor ()
      ensures Valid() && store == []
    {
      headers, blocks, brk, store := [], map[], 1, [];
    }

    // ----- The allocator; callers rely only on these contracts

    method AllocBase(baselen: nat) returns (base: Ptr)
      requires Sound() && baselen > 0
      modifies this`blocks, this`brk
      ensures Sound() && base != NULL && base !in old(blocks)
      ensures blocks == old(blocks)[base := Zeros(baselen)]
    {
      base := brk;
      brk := brk + 1;
      blocks := blocks[base := Zeros(baselen)];
    }

    /** The block may stay where it is or move; the common prefix survives and the rest is zero. */
    method ReallocBase(base: Ptr, oldlen: nat, newlen: nat) returns (newbase: Ptr)
      requires Sound() && base in blocks && |blocks[base]| == oldlen && newlen > 0
      modifies this`blocks, this`brk
      ensures Sound() && newbase != NULL && (newbase == base || newbase !in old(blocks))
      ensures blocks == (old(blocks) - {base})[newbase := Fit(old(blocks)[base], newlen)]
    {
      newbase := brk;
      brk := brk + 1;
      blocks := (blocks - {base})[newbase := Fit(blocks[base], newlen)];
    }

    /** Freeing demands a live block and the size it was allocated with. */
    method DeallocBase(base: Ptr, baselen: nat)
      requires Sound() && base in blocks && |blocks[base]| == baselen
      modifies this`blocks
      ensures Sound() && blocks == old(blocks) - {base}
    {
      blocks := blocks - {base};
    }

    /** Copy n bytes between live blocks; every byte read and written is in bounds. */
    method CopyBytes(src: Ptr, dst: Ptr, off: nat, n: nat)
      requires Sound() && src in blocks && dst in blocks
      requires n <= |blocks[src]| && off + n <= |blocks[dst]|
      modifies this`blocks
      ensures Sound()
      ensures blocks == old(blocks)[dst := Splice(old(blocks)[dst], off, old(blocks)[src][..n])]
    {
      blocks := blocks[dst := Splice(blocks[dst], off, blocks[src][..n])];
    }

    /** Copy bytes from outside the heap into a live block. */
    method CopyIn(bytes: seq<byte>, dst: Ptr, off: nat)
      requires Sound() && dst in blocks && off + |bytes| <= |blocks[dst]|
      modifies this`blocks
      ensures Sound()
      ensures blocks == old(blocks)[dst := Splice(old(blocks)[dst], off, bytes)]
    {
      blocks := blocks[dst := Splice(blocks[dst], off, bytes)];
    }

    method WriteByte(base: Ptr, off: nat, b: byte)
      requires Sound() && base in blocks && off < |blocks[base]|
      modifies this`blocks
      ensures Sound() && blocks == old(blocks)[base := old(blocks)[base][off := b]]
    {
      blocks := blocks[base := blocks[base][off := b]];
    }

    // ----- Buf

    method New() returns (h: Handle)
      requires Valid()
      modifies this
      ensures Valid() && h == |old(store)| && store == old(store) + [[]]
    {
      h := |headers|;
      AddEmpty(Mem(headers, blocks), store);
      headers := headers + [Header(NULL, 0)];
      store := store + [[]];
    }

    method NewWithLen(baselen: nat) returns (h: Handle)
      requires Valid() && 0 < baselen < U32_RANGE
      modifies this
      ensures Valid() && h == |old(store)| && store == old(store) + [Zeros(baselen)]
    {
      ghost var before := Mem(headers, blocks);
      var base := AllocBase(baselen);
      h := |headers|;
      assert baselen % U32_RANGE == baselen;
      headers := headers + [Header(base, baselen % U32_RANGE)];
      MoveHeader(before, old(store), h, base, Zeros(baselen));
      store := store + [Zeros(baselen)];
    }

    method From(bytes: seq<byte>) returns (h: Handle)
      requires Valid() && |bytes| + 1 < U32_RANGE
      modifies this
      ensures Valid() && h == |old(store)| && store == old(store) + [bytes + [NUL]]
    {
      ghost var before := Mem(headers, blocks);
      var len := |bytes|;
      var baselen := len + 1;
      var base := AllocBase(baselen);
      CopyIn(bytes, base, 0);
      WriteByte(base, len, NUL);
      assert Splice(Zeros(baselen), 0, bytes)[len := NUL] == bytes + [NUL];
      assert blocks == before.blocks[base := bytes + [NUL]];
      h := |headers|;
      assert baselen % U32_RANGE == baselen;
      headers := headers + [Header(base, baselen % U32_RANGE)];
      MoveHeader(before, old(store), h, base, bytes + [NUL]);
      store := store + [bytes + [NUL]];
    }

    method Clone(src: Handle) returns (h: Handle)
      requires Valid() && src < |store| && 0 < |store[src]| < U32_RANGE
      modifies this
      ensures Valid() && h == |old(store)| && store == old(store) + [old(store)[src]]
    {
      ghost var before := Mem(headers, blocks);
      ghost var bytes := store[src];
      BufferBlock(before, store, src);
      var len := Len(src);
      var base := AllocBase(len);
      assert blocks[headers[src].base] == bytes == bytes[..len];
      assert Splice(Zeros(len), 0, bytes) == bytes;
      CopyBytes(headers[src].base, base, 0, len);
      assert blocks == before.blocks[base := bytes];
      h := |headers|;
      assert len % U32_RANGE == len;
      headers := headers + [Header(base, len % U32_RANGE)];
      MoveHeader(before, old(store), h, base, bytes);
      store := store + [bytes];
    }

    method Resize(h: Handle, newlen: nat)
      requires Valid() && h < |store| && (newlen > 0 || store[h] == [])
      modifies this
      ensures Valid() && store == old(store)[h := Fit(old(store)[h], newlen)]
    {
      ghost var before := Mem(headers, blocks);
      if newlen == Len(h) {
        assert Fit(store[h], newlen) == store[h];
        return;
      }
      var init := IsInitialized(h);
      if !init {
        var base := AllocBase(newlen);
        headers := headers[h := Header(base, newlen)];
        assert Fit([], newlen) == Zeros(newlen);
        BufferBlock(before, store, h);
        assert before.blocks - {NULL} == before.blocks;
        MoveHeader(before, old(store), h, base, Zeros(newlen));
        store := store[h := Zeros(newlen)];
      } else {
        BufferBlock(before, store, h);
        var newbase := ReallocBase(headers[h].base, headers[h].len, newlen);
        headers := headers[h := Header(newbase, newlen)];
        MoveHeader(before, old(store), h, newbase, Fit(old(store)[h], newlen));
        store := store[h := Fit(store[h], newlen)];
      }
    }

    /** Free the base of a buffer and zero its header, for every handle on it. */
    method Release(h: Handle)
      requires Valid() && h < |store| && store[h] != []
      modifies this
      ensures Valid() && store == old(store)[h := []]
    {
      BufferBlock(Mem(headers, blocks), store, h);
      ClearHeader(Mem(headers, blocks), store, h);
      DeallocBase(headers[h].base, headers[h].len);
      headers := headers[h := Header(NULL, 0)];
      store := store[h := []];
    }

    /** Copy the first n bytes of src into dst at off. */
    method CopyInto(src: Handle, dst: Handle, off: nat, n: nat)
      requires Valid() && src < |store| && dst < |store| && store[src] != [] && store[dst] != []
      requires n <= |store[src]| && off + n <= |store[dst]|
      modifies this
      ensures Valid()
      ensures store == old(store)[dst := Splice(old(store)[dst], off, old(store)[src][..n])]
    {
      BufferBlock(Mem(headers, blocks), store, src);
      BufferBlock(Mem(headers, blocks), store, dst);
      WriteBlock(Mem(headers, blocks), store, dst, Splice(store[dst], off, store[src][..n]));
      CopyBytes(headers[src].base, headers[dst].base, off, n);
      store := store[dst := Splice(store[dst], off, store[src][..n])];
    }

    method WriteInto(h: Handle, off: nat, b: byte)
      requires Valid() && h < |store| && off < |store[h]|
      modifies this
      ensures Valid() && store == old(store)[h := old(store)[h][off := b]]
    {
      BufferBlock(Mem(headers, blocks), store, h);
      WriteBlock(Mem(headers, blocks), store, h, store[h][off := b]);
      WriteByte(headers[h].base, off, b);
      store := store[h := store[h][off := b]];
    }

    /** Consumes its second argument. The two handles may alias, in which case both end up uninitialised. */
    method Append(h: Handle, other: Handle)
      requires Valid() && h < |store| && other < |store| && store[other] != []
      requires WellFormed(store[h]) && WellFormed(store[other])
      modifies this
      ensures Valid() && store == AppendSpec(old(store), h, other)
    {
      ghost var s := store;
      ghost var a, b := Content(s[h]), Content(s[other]);
      ghost var r := Fit(s[h], |a| + |b| + 1);
      var selflen := NonNullLen(h);
      var otherlen := NonNullLen(other);
      Resize(h, selflen + otherlen + 1);
      FitKeepsContent(s[h], |r|);
      assert store[other][..otherlen] == b;
      CopyAndTerminate(other, h, selflen, otherlen);
      LastUpdateWins(s, h, r, a + b + [NUL]);
      Release(other);
    }

    /** Copy the first n bytes of src to the end of dst, which has room for them and a terminator. */
    method CopyAndTerminate(src: Handle, dst: Handle, off: nat, n: nat)
      requires Valid() && src < |store| && dst < |store| && n <= |store[src]| && store[src] != []
      requires |store[dst]| == off + n + 1
      modifies this
      ensures Valid()
      ensures store == old(store)[dst := old(store)[dst][..off] + old(store)[src][..n] + [NUL]]
    {
      ghost var s := store;
      CopyInto(src, dst, off, n);
      WriteInto(dst, off + n, NUL);
      SpliceTerminate(s[dst], off, s[src][..n]);
      LastUpdateWins(s, dst, Splice(s[dst], off, s[src][..n]), s[dst][..off] + s[src][..n] + [NUL]);
    }

    /** Consumes its arguments; handles may repeat. */
    method Join(bufs: seq<Handle>) returns (result: Handle)
      requires Valid() && InRange(store, bufs) && 0 < TotalLen(store, bufs) < U32_RANGE
      requires forall k | 0 <= k < |bufs| :: WellFormed(store[bufs[k]])
      modifies this
      ensures Valid() && result == |old(store)| && store == JoinSpec(old(store), bufs)
    {
      ghost var s := store;
      var baselen := SumLen(bufs);
      result := NewWithLen(baselen);
      assert store == JoinLoop(s, bufs, 0, baselen) by {
        assert bufs[..0] == [] && Fit([], baselen) == Zeros(baselen);
      }
      var off := 0;
      for i := 0 to |bufs|
        invariant Valid()
        invariant off == |Consume(s, bufs[..i]).0| <= baselen
        invariant store == JoinLoop(s, bufs, i, baselen)
      {
        JoinTurn(s, bufs, i, baselen);
        off := JoinOne(bufs[i], result, off);
      }
      assert bufs[..|bufs|] == bufs;
      JoinEnd(s, bufs, baselen);
      CutAndTerminate(result, off);
    }

    /** Resize to n bytes and a terminator. */
    method CutAndTerminate(h: Handle, n: nat)
      requires Valid() && h < |store|
      modifies this
      ensures Valid() && store == old(store)[h := Fit(old(store)[h], n) + [NUL]]
    {
      Resize(h, n + 1);
      WriteInto(h, n, NUL);
      assert Fit(old(store)[h], n + 1)[n := NUL] == Fit(old(store)[h], n) + [NUL];
      LastUpdateWins(old(store), h, Fit(old(store)[h], n + 1), Fit(old(store)[h], n) + [NUL]);
    }

    /** One turn of the loop of join: skip the buffer if it is uninitialised by now, or move its content. */
    method JoinOne(buf: Handle, result: Handle, off: nat) returns (off': nat)
      requires Valid() && buf < result < |store| && WellFormed(store[buf])
      requires off + |Content(store[buf])| <= |store[result]| && store[result] != []
      modifies this
      ensures Valid() && off' == off + |Content(old(store)[buf])|
      ensures old(store)[buf] == [] ==> store == old(store)
      ensures old(store)[buf] != [] ==>
                store == old(store)[result := Splice(old(store)[result], off, Content(old(store)[buf]))][buf := []]
    {
      off' := off;
      var init := IsInitialized(buf);
      if init {
        var len := NonNullLen(buf);
        CopyInto(buf, result, off, len);
        Release(buf);
        off' := off + len;
      }
    }

    method SumLen(bufs: seq<Handle>) returns (sum: nat)
      requires Valid() && InRange(store, bufs)
      ensures sum == TotalLen(store, bufs)
    {
      sum := 0;
      for i := 0 to |bufs|
        invariant sum == TotalLen(store, bufs[..i])
      {
        assert bufs[..i + 1][..i] == bufs[..i];
        sum := sum + Len(bufs[i]);
      }
      assert bufs[..|bufs|] == bufs;
    }

    function Len(h: Handle): (n: nat)
      requires Valid() && h < |store|
      reads this
      ensures n == |store[h]|
    {
      BufferBlock(Mem(headers, blocks), store, h);
      headers[h].len
    }

    method IsInitialized(h: Handle) returns (r: bool)
      requires Valid() && h < |store|
      ensures r <==> store[h] != []
    {
      r := Len(h) != 0;
    }

    method AsBytes(h: Handle) returns (r: seq<byte>)
      requires Valid() && h < |store|
      ensures r == store[h]
    {
      BufferBlock(Mem(headers, blocks), store, h);
      var init := IsInitialized(h);
      if init { r := blocks[headers[h].base]; } else { r := []; }
    }

    method NonNullLen(h: Handle) returns (n: nat)
      requires Valid() && h < |store| && WellFormed(store[h])
      ensures n == |Content(store[h])|
      ensures store[h] != [] ==> n < |store[h]|
    {
      var bytes := AsBytes(h);
      n := IndexOf(bytes, NUL);
    }

    /**
     Any program of buffer operations that respects what the original demands of its callers
     keeps the heap valid and means what it means on values, whatever addresses the allocator
     picks and however often a handle is used.
     */
    method Execute(ops: seq<Op>)
      requires Valid() && AllowedRun(store, ops)
      modifies this
      ensures Valid() && store == Run(old(store), ops)
    {
      for i := 0 to |ops|
        invariant Valid() && AllowedRun(store, ops[i..])
        invariant Run(store, ops[i..]) == Run(old(store), ops)
      {
        assert ops[i..][1..] == ops[i + 1..];
        match ops[i]
        case New => var _ := New();
        case NewWithLen(len) => var _ := NewWithLen(len);
        case From(bytes) => var _ := From(bytes);
        case Clone(src) => var _ := Clone(src);
        case Resize(buf, newlen) => Resize(buf, newlen);
        case Append(dst, other) => Append(dst, other);
        case Join(bufs) => var _ := Join(bufs);
      }
    }
  }
}
