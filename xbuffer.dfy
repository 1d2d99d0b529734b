/**
 * XBuffer's binary access: a byte buffer with a read/write offset. A typed
 * write copies the bytes of a value at the offset, growing the buffer when
 * they do not fit, and a typed read copies them back out; both advance the
 * offset by the size of the type. Also the small numeric helpers of
 * xutil.h: SIGN, sqr and the BitSR stub.
 *
 * The model takes a value of type T as its object representation, the
 * `sizeof(T)` bytes memcpy copies.
 */
module XBuffers {
  import opened Wrappers

  type Byte = b: int | 0 <= b < 0x100

  /** `k` zero bytes. */
  function Zeros(k: nat): (z: seq<Byte>)
    ensures |z| == k && forall i :: 0 <= i < k ==> z[i] == 0
  {
    seq(k, i => 0)
  }

  /**
   * The buffer after handleOutOfSize has run until `need` bytes fit: the
   * old bytes followed by zero bytes. handleOutOfSize is defined in the
   * buffer's implementation file, which is not part of this model; the
   * model grows the buffer to exactly the size the write needs.
   */
  function Grown(buf: seq<Byte>, need: nat): (g: seq<Byte>)
    ensures |g| >= need && |g| >= |buf| && g[..|buf|] == buf
  {
    if need <= |buf| then buf else buf + Zeros(need - |buf|)
  }

  /** The buffer after the bytes `v` are copied in at `off`. */
  function Written(buf: seq<Byte>, off: nat, v: seq<Byte>): (w: seq<Byte>)
    ensures |w| >= off + |v| && |w| >= |buf|
  {
    var g := Grown(buf, off + |v|);
    g[..off] + v + g[off + |v|..]
  }

  /** A write puts its bytes at the offset and keeps every other byte the buffer had. */
  lemma WrittenPlacesBytes(buf: seq<Byte>, off: nat, v: seq<Byte>)
    ensures Written(buf, off, v)[off..off + |v|] == v
    ensures forall i :: 0 <= i < |buf| && !(off <= i < off + |v|) ==> Written(buf, off, v)[i] == buf[i]
    ensures |Written(buf, off, v)| == if off + |v| <= |buf| then |buf| else off + |v|
  {
    var g := Grown(buf, off + |v|);
    var w := Written(buf, off, v);
    assert w == g[..off] + v + g[off + |v|..];
    forall i | 0 <= i < |buf| && !(off <= i < off + |v|)
      ensures w[i] == buf[i]
    {
      assert g[i] == g[..|buf|][i];
    }
  }

  class XBuffer {
    var buffer: seq<Byte>
    var offset: U32

    /** The size of the buffer. */
    function Size(): nat
      reads this
    {
      |buffer|
    }

    /** tell. */
    function Tell(): (t: U32)
      reads this
      ensures t == offset
    {
      offset
    }

    /** end: the offset is past the last byte, strictly beyond the size. */
    predicate End()
      reads this
      ensures End() <==> Tell() > Size()
    {
      offset > |buffer|
    }

    /** write<T>: the bytes of the value go in at the offset, which then moves past them. */
    method Write(v: seq<Byte>)
      requires offset + |v| < Two32
      modifies this
      ensures buffer == Written(old(buffer), old(offset), v)
      ensures offset == old(offset) + |v|
      ensures !End()
    {
      if offset + |v| > |buffer| {
        buffer := buffer + Zeros(offset + |v| - |buffer|);
      }
      buffer := buffer[..offset] + v + buffer[offset + |v|..];
      offset := offset + |v|;
    }

    /**
     * read<T>: the `size` bytes at the offset, and the offset moves past
     * them. The source reads whatever memory lies there; the model demands
     * that the bytes are inside the buffer.
     */
    method Read(size: nat) returns (v: seq<Byte>)
      requires offset + size <= |buffer|
      modifies this
      ensures buffer == old(buffer)
      ensures v == old(buffer)[old(offset)..old(offset) + size] && |v| == size
      ensures offset == (old(offset) + size) % Two32
    {
      v := buffer[offset..offset + size];
      offset := (offset + size) % Two32;
    }

    /** operator+=: only the offset moves, wrapping as an unsigned 32-bit value. */
    method Advance(d: int)
      modifies this
      ensures offset == (old(offset) + d) % Two32 && buffer == old(buffer)
    {
      offset := (offset + d) % Two32;
    }

    /** operator-=. */
    method Retreat(d: int)
      modifies this
      ensures offset == (old(offset) - d) % Two32 && buffer == old(buffer)
    {
      offset := (offset - d) % Two32;
    }

    /** operator++. */
    method Increment()
      modifies this
      ensures offset == (old(offset) + 1) % Two32 && buffer == old(buffer)
    {
      Advance(1);
    }

    /** operator--: at offset 0 the unsigned offset wraps to 2^32 - 1. */
    method Decrement()
      modifies this
      ensures offset == (old(offset) - 1) % Two32 && buffer == old(buffer)
      ensures old(offset) == 0 ==> offset == Two32 - 1
    {
      Retreat(1);
    }
  }

  /**
   * A write, a step back over the written bytes and a read of the same size
   * give back the value, and leave the offset where the write left it.
   */
  method WriteRewindRead(b: XBuffer, v: seq<Byte>) returns (r: seq<Byte>)
    requires b.offset + |v| < Two32
    modifies b
    ensures r == v
    ensures b.offset == old(b.offset) + |v|
    ensures b.buffer == Written(old(b.buffer), old(b.offset), v)
  {
    ghost var off := b.offset;
    b.Write(v);
    WrittenPlacesBytes(old(b.buffer), off, v);
    assert b.buffer[off..off + |v|] == v;
    b.Retreat(|v|);
    assert b.offset == off;
    r := b.Read(|v|);
  }

  /** SIGN: -1, 0 or 1 by the sign of x. */
  function Sign(x: int): (r: int)
    ensures r == -1 || r == 0 || r == 1
    ensures (r == 0 <==> x == 0) && (r == 1 <==> x > 0)
    ensures r * Abs(x) == x
  {
    if x != 0 then (if x > 0 then 1 else -1) else 0
  }

  /** sqr. */
  function Sqr(x: int): int {
    x * x
  }

  /** sqr is never negative, is the same for x and -x, and is |x| times |x|. */
  lemma SqrProperties(x: int)
    ensures Sqr(x) >= 0 && Sqr(-x) == Sqr(x) && Sqr(x) == Abs(x) * Abs(x)
    ensures Sqr(x) == 0 <==> x == 0
  {
    if x < 0 {
      assert Sqr(x) == (-x) * (-x);
    }
  }

  /** BitSR: a stub whose assembly body is compiled out, so it returns 0 for every input. */
  function BitSR(x: int): (r: int)
    ensures r == 0
  {
    0
  }
}
