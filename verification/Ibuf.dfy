/** Growable message buffers: compat/recallocarray.c and ibuf_* of imsg-buffer.c. */
module Ibuf {
  import opened Common
  import opened ImsgWire

  const SIZE_MAX := 0xffff_ffff_ffff_ffff
  const MUL_NO_OVERFLOW := 0x1_0000_0000
  const PAGE_SIZE := 0x1000

  // ------------------------------------------------------------- recallocarray

  /** The overflow guard of recallocarray; a product below 2^32 by 2^32 is never divided. */
  predicate Overflows(n: nat, size: nat) {
    (n >= MUL_NO_OVERFLOW || size >= MUL_NO_OVERFLOW) && n > 0 && SIZE_MAX / n < size
  }

  lemma MulMono(x: nat, y: nat, n: nat)
    requires x <= y
    ensures x * n <= y * n
  {
  }

  lemma QuotientBounds(a: nat, n: nat)
    requires n > 0
    ensures (a / n) * n <= a < (a / n) * n + n
  {
  }

  lemma DivisionBound(a: nat, n: nat, size: nat)
    requires n > 0
    ensures a / n < size <==> size * n > a
  {
    var q := a / n;
    QuotientBounds(a, n);
    if q < size {
      MulMono(q + 1, size, n);
      assert (q + 1) * n == q * n + n;
    } else {
      MulMono(size, q, n);
    }
  }

  /** The guard rejects exactly the products that do not fit a size_t. */
  lemma GuardExact(n: nat, size: nat)
    ensures Overflows(n, size) <==> n * size > SIZE_MAX
  {
    if n > 0 { DivisionBound(SIZE_MAX, n, size); }
    if n < MUL_NO_OVERFLOW && size < MUL_NO_OVERFLOW {
      MulMono(n, MUL_NO_OVERFLOW, size);
      MulMono(size, MUL_NO_OVERFLOW, MUL_NO_OVERFLOW);
    }
  }

  /** The first `n` bytes of `s`, made up with zeros. */
  ghost function Resized(s: seq<byte>, n: nat): (r: seq<byte>)
    ensures |r| == n
  {
    if n <= |s| then s[..n] else s + seq(n - |s|, _ => 0)
  }

  /**
   * recallocarray, with memory always available: null exactly when a size does
   * not fit, otherwise the old bytes resized, and the old block wiped when a
   * new one replaces it.
   */
  method Recallocarray(ptr: array?<byte>, oldnmemb: nat, newnmemb: nat, size: nat) returns (p: array?<byte>)
    requires ptr != null && oldnmemb * size <= SIZE_MAX ==> oldnmemb * size <= ptr.Length
    modifies ptr
    ensures p == null <==> newnmemb * size > SIZE_MAX || (ptr != null && oldnmemb * size > SIZE_MAX)
    ensures p != null ==> newnmemb * size <= p.Length && (p == ptr || fresh(p))
    ensures p != null ==>
              p[..newnmemb * size] == Resized(if ptr == null then [] else old(ptr[..oldnmemb * size]), newnmemb * size)
    ensures p != null && ptr != null && p != ptr ==> forall i :: 0 <= i < oldnmemb * size ==> ptr[i] == 0
  {
    GuardExact(newnmemb, size);
    GuardExact(oldnmemb, size);
    var newsize := newnmemb * size;
    if ptr == null {
      if newsize > SIZE_MAX { return null; }
      p := new byte[newsize](_ => 0);
      return;
    }
    if Overflows(newnmemb, size) { return null; }
    if Overflows(oldnmemb, size) { return null; }
    var oldsize := oldnmemb * size;
    if newsize <= oldsize {
      var d := oldsize - newsize;
      if d < oldsize / 2 && d < PAGE_SIZE {
        forall i | newsize <= i < oldsize { ptr[i] := 0; }
        return ptr;
      }
    }
    p := new byte[newsize](i requires 0 <= i reads ptr => if i < oldsize && i < ptr.Length then ptr[i] else 0);
    forall i | 0 <= i < oldsize { ptr[i] := 0; }
  }

  // ---------------------------------------------------------------------- ibuf

  class Ibuf {
    var buf: array<byte>
    var size: nat
    var max: nat
    var wpos: nat
    var rpos: nat
    var fd: Option<Fd>

    ghost predicate Valid()
      reads this
    {
      rpos <= wpos <= size <= max <= SIZE_MAX && size <= buf.Length
    }

    /** Everything added so far. */
    ghost function Content(): seq<byte>
      requires Valid()
      reads this, buf
    {
      buf[..wpos]
    }

    /** The body of ibuf_dynamic once its argument check has passed. */
    constructor (len: nat, max: nat)
      requires len <= max <= SIZE_MAX
      ensures Valid() && Content() == [] && this.max == max && size == len && fd.None? && rpos == 0
      ensures fresh(buf)
    {
      buf := new byte[len](_ => 0);
      size, this.max, wpos, rpos, fd := len, max, 0, 0, None;
    }

    /** ibuf_realloc: room for `len` more bytes. */
    method Realloc(len: nat) returns (ok: bool)
      requires Valid() && wpos + len > size
      modifies this`buf, this`size, buf
      ensures Valid() && (buf == old(buf) || fresh(buf))
      ensures ok <==> wpos + len <= max
      ensures size == if ok then wpos + len else old(size)
      ensures Content() == old(Content())
    {
      if len > SIZE_MAX - wpos || wpos + len > max { return false; }
      ghost var was := buf[..size];
      var b := Recallocarray(buf, size, wpos + len, 1);
      assert b[..wpos] == Resized(was, wpos + len)[..wpos] == was[..wpos];
      buf := b;
      size := wpos + len;
      ok := true;
    }

    /** ibuf_reserve: `len` zeroed bytes at the end; null is -1. */
    method Reserve(len: nat) returns (at: int)
      requires Valid()
      modifies this`buf, this`size, this`wpos, buf
      ensures Valid() && (buf == old(buf) || fresh(buf))
      ensures old(wpos) + len > max ==> at == -1 && wpos == old(wpos) && Content() == old(Content())
      ensures old(wpos) + len <= max ==>
                at == old(wpos) && wpos == old(wpos) + len && Content() == old(Content()) + seq(len, _ => 0)
    {
      ghost var was := Content();
      if len > SIZE_MAX - wpos { return -1; }
      if wpos + len > size {
        var ok := Realloc(len);
        if !ok { return -1; }
      }
      at := wpos;
      wpos := wpos + len;
      forall i | at <= i < wpos { buf[i] := 0; }
      assert Content() == was + seq(len, _ => 0);
    }

    /** ibuf_add: succeeds exactly when the data fits below `max`. */
    method Add(data: seq<byte>) returns (ok: bool)
      requires Valid()
      modifies this`buf, this`size, this`wpos, buf
      ensures Valid() && (buf == old(buf) || fresh(buf))
      ensures ok <==> old(wpos) + |data| <= max
      ensures Content() == if ok then old(Content()) + data else old(Content())
    {
      ghost var was := Content();
      var b := Reserve(|data|);
      if b == -1 { return false; }
      forall i | 0 <= i < |data| { buf[b + i] := data[i]; }
      ok := true;
      assert Content() == was + data;
    }
  }
}
