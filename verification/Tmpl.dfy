/** The buffered template writer of template/tmpl.c. */
module Tmpl {
  import opened Common

  /** Chunks handed to the write function by tp_write, and the buffer it leaves. */
  function Fill<T>(buf: seq<T>, data: seq<T>, cap: nat): (r: (seq<seq<T>>, seq<T>))
    requires |buf| <= cap && cap > 0
    ensures |r.1| <= cap
    decreases |data|
  {
    if data == [] then ([], buf)
    else if |buf| == cap then
      var k := if |data| < cap then |data| else cap;
      var rest := Fill(data[..k], data[k..], cap);
      ([buf] + rest.0, rest.1)
    else
      var k := if |data| < cap - |buf| then |data| else cap - |buf|;
      Fill(buf + data[..k], data[k..], cap)
  }

  /** Buffering neither loses nor reorders anything. */
  lemma {:induction false} FillKeeps<T>(buf: seq<T>, data: seq<T>, cap: nat)
    requires |buf| <= cap && cap > 0
    ensures var r := Fill(buf, data, cap); Concat(r.0) + r.1 == buf + data
    decreases |data|
  {
    if data != [] {
      if |buf| == cap {
        var k := if |data| < cap then |data| else cap;
        FillKeeps(data[..k], data[k..], cap);
        var rest := Fill(data[..k], data[k..], cap);
        Rejoin(data, k);
        ConcatCons(buf, rest.0);
        Assoc(buf, Concat(rest.0), rest.1);
      } else {
        var k := if |data| < cap - |buf| then |data| else cap - |buf|;
        FillKeeps(buf + data[..k], data[k..], cap);
        Rejoin(data, k);
        Assoc(buf, data[..k], data[k..]);
      }
    }
  }

  class Template<T(0)> {
    const buf: array<T>
    var len: nat
    /** The calls of the write function so far: each chunk it was given, in order. */
    var chunks: seq<seq<T>>

    ghost predicate Valid()
      reads this
    {
      len <= buf.Length && buf.Length > 0
    }

    ghost function Pending(): seq<T>
      requires Valid()
      reads this, buf
    {
      buf[..len]
    }

    /** Everything written so far, flushed or not. */
    ghost function Total(): seq<T>
      requires Valid()
      reads this, buf
    {
      Concat(chunks) + Pending()
    }

    /** template. */
    constructor (cap: nat)
      requires cap > 0
      ensures Valid() && Total() == [] && chunks == [] && buf.Length == cap && fresh(buf)
    {
      buf := new T[cap];
      len, chunks := 0, [];
    }

    /** template_flush. */
    method Flush()
      requires Valid()
      modifies this
      ensures Valid() && Pending() == [] && Total() == old(Total())
      ensures chunks == if old(len) == 0 then old(chunks) else old(chunks) + [old(Pending())]
    {
      if len == 0 { return; }
      ConcatAppend(chunks, [buf[..len]]);
      ConcatCons(buf[..len], []);
      chunks := chunks + [buf[..len]];
      len := 0;
    }

    /** The memcpy of tp_write: `k` more elements that fit the buffer. */
    method Put(data: seq<T>)
      requires Valid() && |data| <= buf.Length - len
      modifies this`len, buf
      ensures Valid() && Pending() == old(Pending()) + data
    {
      ghost var was := Pending();
      forall i | 0 <= i < |data| { buf[len + i] := data[i]; }
      len := len + |data|;
      assert Pending() == was + data;
    }

    /** One turn of the tp_write loop. */
    method WriteSome(str: seq<T>) returns (rest: seq<T>)
      requires Valid() && str != []
      modifies this, buf
      ensures Valid() && |rest| < |str|
      ensures var r, r' := Fill(old(Pending()), str, buf.Length), Fill(Pending(), rest, buf.Length);
              r'.1 == r.1 && chunks + r'.0 == old(chunks) + r.0
    {
      var avail := buf.Length - len;
      ghost var c, was := chunks, Pending();
      if avail == 0 {
        Flush();
        avail := buf.Length;
      }
      if |str| < avail { avail := |str|; }
      assert [] + str[..avail] == str[..avail];
      Put(str[..avail]);
      rest := str[avail..];
      Assoc(c, [was], Fill(Pending(), rest, buf.Length).0);
    }

    /** tp_write. */
    method Write(data: seq<T>)
      requires Valid()
      modifies this, buf
      ensures Valid()
      ensures var r := Fill(old(Pending()), data, buf.Length);
              Pending() == r.1 && chunks == old(chunks) + r.0
      ensures Total() == old(Total()) + data
    {
      ghost var all := Fill(Pending(), data, buf.Length);
      var str := data;
      while |str| > 0
        invariant Valid()
        invariant var r := Fill(Pending(), str, buf.Length);
                  r.1 == all.1 && chunks + r.0 == old(chunks) + all.0
        decreases |str|
      {
        str := WriteSome(str);
      }
      FillKeeps(old(Pending()), data, buf.Length);
      ConcatAppend(old(chunks), all.0);
      Assoc(Concat(old(chunks)), Concat(all.0), all.1);
      Assoc(Concat(old(chunks)), old(Pending()), data);
    }

    /**
     * A call of the write function past the buffer, as clt_write_bufferevent
     * makes: what is buffered stays behind.
     */
    method Raw(data: seq<T>)
      requires Valid()
      modifies `chunks
      ensures Valid() && Pending() == old(Pending()) && chunks == old(chunks) + [data]
      ensures Total() == old(Concat(chunks)) + data + Pending()
    {
      ConcatAppend(chunks, [data]);
      ConcatCons(data, []);
      assert data + [] == data;
      chunks := chunks + [data];
    }
  }
}
