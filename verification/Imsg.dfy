/**
 * The imsgbuf: composing into the write queue, writing it out, reading and
 * taking messages (msgbuf_* of imsg-buffer.c, imsg.c). Each method changes the
 * object's state by the function of the transport model that bears its name.
 */
module Imsg {
  import opened Common
  import opened ImsgWire
  import opened ImsgTransport
  import opened Ibuf

  ghost function OutOf(b: Ibuf): Out
    requires b.Valid()
    reads b, b.buf
  {
    Out(b.buf[b.rpos..b.wpos], b.fd)
  }

  /** A queue of distinct, well-formed buffers with something left to send. */
  ghost predicate Queue(bufs: seq<Ibuf>)
    reads bufs
  {
    && (forall b :: b in bufs ==> b.Valid() && b.rpos < b.wpos)
    && (forall i, j :: 0 <= i < j < |bufs| ==> bufs[i] != bufs[j])
  }

  ghost function Arrays(bufs: seq<Ibuf>): set<array<byte>>
    reads bufs
  {
    set b | b in bufs :: b.buf
  }

  ghost function Outs(bufs: seq<Ibuf>): (s: seq<Out>)
    requires Queue(bufs)
    reads bufs, Arrays(bufs)
    ensures |s| == |bufs|
    ensures forall i :: 0 <= i < |s| ==> s[i] == OutOf(bufs[i])
  {
    seq(|bufs|, i requires 0 <= i < |bufs| && Queue(bufs) reads bufs, Arrays(bufs) => OutOf(bufs[i]))
  }

  function FdOf(o: Out): seq<Fd> {
    match o.fd
    case Some(fd) => [fd]
    case None => []
  }

  function FirstOf(fds: seq<Fd>): seq<Fd> {
    if fds == [] then [] else [fds[0]]
  }

  /** The queue after sendmsg returned `n`. */
  ghost function Written(q: seq<Out>, n: int): seq<Out> {
    if n > 0 && q != [] then Sent(q, n) else q
  }

  /** `q` after one turn of the drain loop, closing from `c` to `c'`, leaves the outcome of the loop alone. */
  ghost predicate SameDrain(q: seq<Out>, n: nat, c: seq<Fd>, q': seq<Out>, m: nat, c': seq<Fd>) {
    Drained(q', m) == Drained(q, n) && c' + Dropped(q', m) == c + Dropped(q, n)
  }

  /** The first buffer went out whole. */
  lemma DropWhole(q: seq<Out>, n: nat, c: seq<Fd>)
    requires q != [] && n > 0 && n >= |q[0].bytes|
    ensures SameDrain(q, n, c, q[1..], n - |q[0].bytes|, c + FdOf(q[0]))
  {
  }

  /** The first buffer went out in part. */
  lemma DropPart(q: seq<Out>, n: nat, c: seq<Fd>)
    requires q != [] && 0 < n < |q[0].bytes|
    ensures SameDrain(q, n, c, [q[0].(bytes := q[0].bytes[n..])] + q[1..], 0, c)
  {
  }

  lemma GatherStep(v: seq<Out>, i: nat)
    requires i < |v|
    ensures Gathered(v[i..], i) ==
            if i >= IOV_MAX || (i > 0 && v[i].fd.Some?) then 0 else 1 + Gathered(v[i + 1..], i + 1)
  {
    assert v[i..][0] == v[i] && v[i..][1..] == v[i + 1..];
  }

  /** Once its descriptor is cleared, a batch is drained without closing another. */
  lemma {:induction false} SentBatch(q: seq<Out>, n: nat)
    requires NonEmpty(q) && 1 <= n <= |Offered(q, 0)|
    ensures q != [] && Dropped([q[0].(fd := None)] + q[1..], n) == []
  {
    if q != [] {
      var q' := [q[0].(fd := None)] + q[1..];
      var g := Gathered(q, 0);
      assert q'[1..] == q[1..];
      assert q[..g][1..] == q'[..g][1..] && q[..g][0].bytes == q'[..g][0].bytes;
      assert Offered(q', 0) == Offered(q, 0);
      DrainDropsNothing(q', n, 0);
    }
  }

  lemma {:induction false} OutsNonEmpty(bufs: seq<Ibuf>)
    requires Queue(bufs)
    ensures NonEmpty(Outs(bufs))
  {
    forall i | 0 <= i < |bufs|
      ensures Outs(bufs)[i].bytes != []
    {
      assert bufs[i] in bufs;
    }
  }

  lemma Slices(a: array<byte>, n: nat, i: nat, j: nat)
    requires i <= j <= n <= a.Length
    ensures a[..n][i..j] == a[i..j]
  {
  }

  /** The fields of a header lie where they lie in the buffer. */
  lemma HeaderParts(s: seq<byte>)
    requires |s| >= HEADER_SIZE
    ensures var h := s[..HEADER_SIZE];
            && h[0..4] == s[0..4] && h[4..6] == s[4..6] && h[6..8] == s[6..8]
            && h[8..12] == s[8..12] && h[12..16] == s[12..16]
  {
  }

  function Stored16(s: seq<byte>, at: nat, x: u16): (t: seq<byte>)
    requires at + 2 <= |s|
    ensures |t| == |s|
  {
    s[..at] + Put16(x) + s[at + 2..]
  }

  /** A 16-bit field of a header written in place. */
  method Store16(a: array<byte>, n: nat, at: nat, x: u16)
    requires at + 2 <= n <= a.Length
    modifies a
    ensures a[..n] == Stored16(old(a[..n]), at, x)
  {
    var s := Put16(x);
    a[at], a[at + 1] := s[0], s[1];
  }

  /** Writing the length and the flags into a header that has neither completes the message. */
  lemma HeaderFilled(s: seq<byte>, m: Msg)
    requires Sendable(m) && s == Header(m.typ, 0, 0, m.peerid, m.pid) + m.data
    ensures Stored16(Stored16(s, 4, |s|), 6, Flags(m)) == Encode(m)
  {
    var ids := Put32(m.peerid) + Put32(m.pid);
    assert s[..4] == Put32(m.typ) && s[8..] == ids + m.data;
    assert Stored16(Stored16(s, 4, |s|), 6, Flags(m)) == s[..4] + Put16(|s|) + Put16(Flags(m)) + s[8..];
  }

  lemma OutsFirst(bufs: seq<Ibuf>)
    requires Queue(bufs) && bufs != []
    ensures Queue(bufs[1..]) && bufs[0] !in bufs[1..] && Outs(bufs)[1..] == Outs(bufs[1..])
  {
    assert forall b :: b in bufs[1..] ==> b in bufs;
  }

  /** Only the first element is another. */
  lemma OthersSame<T>(s: seq<T>, t: seq<T>, first: T)
    requires s != [] && |s| == |t| && s[0] == first && forall i :: 0 < i < |s| ==> s[i] == t[i]
    ensures s == [first] + t[1..]
  {
  }

  /** `n` more bytes of a buffer have been sent. */
  method Skip(b: Ibuf, n: nat)
    requires b.Valid() && n < b.wpos - b.rpos
    modifies b`rpos
    ensures b.Valid() && b.rpos < b.wpos
    ensures OutOf(b) == old(OutOf(b)).(bytes := old(OutOf(b)).bytes[n..])
  {
    b.rpos := b.rpos + n;
  }

  class Msgbuf {
    var bufs: seq<Ibuf>
    var queued: nat
    /** Descriptors handed to close(2), in order. */
    var closed: seq<Fd>
    /** The memory of every buffer enqueued so far. */
    ghost var arrays: set<array<byte>>

    ghost predicate Valid()
      reads this, bufs
    {
      Queue(bufs) && queued == |bufs| && forall b :: b in bufs ==> b.buf in arrays
    }

    ghost function View(): seq<Out>
      requires Valid()
      reads this, bufs, Arrays(bufs)
    {
      Outs(bufs)
    }

    /** msgbuf_init. */
    constructor ()
      ensures Valid() && View() == [] && closed == [] && arrays == {}
    {
      bufs, queued, closed, arrays := [], 0, [], {};
    }

    /** ibuf_close, that is, ibuf_enqueue. */
    method Enqueue(b: Ibuf)
      requires Valid() && b.Valid() && b.rpos < b.wpos && b !in bufs
      modifies this`bufs, this`queued, this`arrays
      ensures Valid() && View() == old(View()) + [OutOf(b)] && bufs == old(bufs) + [b]
      ensures arrays == old(arrays) + {b.buf}
    {
      arrays := arrays + {b.buf};
      bufs := bufs + [b];
      queued := queued + 1;
    }

    /** TAILQ_REMOVE of the first buffer. */
    method RemoveFirst() returns (b: Ibuf)
      requires Valid() && bufs != []
      modifies this`bufs, this`queued
      ensures Valid() && b == old(bufs)[0] && bufs == old(bufs)[1..] && b !in bufs && View() == old(View())[1..]
    {
      b := bufs[0];
      OutsFirst(bufs);
      bufs := bufs[1..];
      queued := queued - 1;
    }

    /** The close of a dequeued buffer's descriptor. */
    method CloseFd(b: Ibuf)
      requires Valid() && b !in bufs
      modifies this`closed, b`fd
      ensures Valid() && View() == old(View())
      ensures closed == old(closed) + match old(b.fd) case Some(fd) => [fd] case None => []
    {
      if b.fd.Some? {
        closed := closed + [b.fd.value];
        b.fd := None;
      }
    }

    /** ibuf_dequeue of the first buffer. */
    method DequeueFirst()
      requires Valid() && bufs != []
      modifies this`bufs, this`queued, this`closed, (bufs[0] as Ibuf)`fd
      ensures Valid() && bufs == old(bufs)[1..] && View() == old(View())[1..]
      ensures closed == old(closed) + FdOf(old(View())[0])
    {
      ghost var first := View()[0];
      assert first == OutOf(bufs[0]);
      var b := RemoveFirst();
      assert b.fd == first.fd;
      CloseFd(b);
    }

    /** The last step of msgbuf_drain: the first buffer is sent in part. */
    method Advance(n: nat)
      requires Valid() && bufs != [] && n < bufs[0].wpos - bufs[0].rpos
      modifies (bufs[0] as Ibuf)`rpos
      ensures Valid() && n < |old(View())[0].bytes|
      ensures View() == [old(View())[0].(bytes := old(View())[0].bytes[n..])] + old(View())[1..]
    {
      ghost var v := View();
      var b := bufs[0];
      assert b in bufs && v[0] == OutOf(b);
      Skip(b, n);
      forall x | x in bufs
        ensures x.Valid() && x.rpos < x.wpos && (x != b ==> OutOf(x) == old(OutOf(x)))
      {
        assert old(x.Valid());
      }
      assert Queue(bufs);
      OthersSame(View(), v, OutOf(b));
    }

    /** One turn of the msgbuf_drain loop. */
    method DrainOne(n: nat) returns (left: nat)
      requires Valid() && bufs != [] && n > 0
      modifies this`bufs, this`queued, this`closed, (bufs[0] as Ibuf)`rpos, (bufs[0] as Ibuf)`fd
      ensures Valid() && (bufs == old(bufs)[1..] || bufs == old(bufs))
      ensures SameDrain(old(View()), n, old(closed), View(), left, closed)
      ensures bufs == old(bufs) ==> left < n
    {
      var size := bufs[0].wpos - bufs[0].rpos;
      ghost var v, c := View(), closed;
      assert v[0] == OutOf(bufs[0]) && |v[0].bytes| == size;
      if n >= size {
        DropWhole(v, n, c);
        left := n - size;
        DequeueFirst();
      } else {
        DropPart(v, n, c);
        Advance(n);
        left := 0;
      }
    }

    /** msgbuf_drain. */
    method Drain(n0: nat)
      requires Valid()
      modifies this`bufs, this`queued, this`closed, bufs`rpos, bufs`fd
      ensures Valid() && View() == Drained(old(View()), n0)
      ensures closed == old(closed) + Dropped(old(View()), n0)
      ensures forall b :: b in bufs ==> b in old(bufs)
    {
      var n: nat := n0;
      while bufs != [] && n > 0
        invariant Valid() && forall b :: b in bufs ==> b in old(bufs)
        invariant SameDrain(old(View()), n0, old(closed), View(), n, closed)
        decreases |bufs|, n
      {
        assert bufs[0] in bufs;
        n := DrainOne(n);
      }
    }

    /** The loop of msgbuf_write that fills the iovec: how many buffers, and whose descriptor. */
    method Gather() returns (i: nat, buf0: Ibuf?)
      requires Valid()
      ensures i == Gathered(View(), 0)
      ensures buf0 == if bufs != [] && bufs[0].fd.Some? then bufs[0] else null
    {
      i, buf0 := 0, null;
      ghost var v := View();
      assert v[0..] == v;
      while i < |bufs|
        invariant v == View() && i <= |bufs| == |v| && Gathered(v, 0) == i + Gathered(v[i..], i)
        invariant buf0 == if i > 0 && bufs[0].fd.Some? then bufs[0] else null
      {
        var b := bufs[i];
        GatherStep(v, i);
        assert v[i].fd == b.fd;
        if i >= IOV_MAX { break; }
        if i > 0 && b.fd.Some? { break; }
        i := i + 1;
        if b.fd.Some? { buf0 := b; }
      }
      assert i == |v| ==> v[i..] == [] && Gathered(v[i..], i) == 0;
    }

    lemma ViewNonEmpty()
      requires Valid()
      ensures NonEmpty(View())
    {
      OutsNonEmpty(bufs);
    }

    /** After a successful sendmsg: the descriptor that went along is closed here. */
    method Passed(buf0: Ibuf?)
      requires Valid() && bufs != [] && buf0 == if bufs[0].fd.Some? then bufs[0] else null
      modifies this`closed, (bufs[0] as Ibuf)`fd
      ensures Valid() && View() == [old(View())[0].(fd := None)] + old(View())[1..]
      ensures closed == old(closed) + FdOf(old(View())[0])
    {
      if buf0 != null {
        closed := closed + [buf0.fd.value];
        buf0.fd := None;
      }
    }

    /**
     * msgbuf_write, where sendmsg returned `n`: the descriptor of the first
     * buffer is closed once it has been passed on, and no other.
     */
    method Write(n: int) returns (r: int)
      requires Valid() && -1 <= n <= |Offered(View(), 0)|
      modifies this`bufs, this`queued, this`closed, bufs`rpos, bufs`fd
      ensures Valid() && forall b :: b in bufs ==> b in old(bufs)
      ensures r == (if n > 0 then 1 else n) && View() == Written(old(View()), n)
      ensures n <= 0 ==> closed == old(closed)
      ensures n > 0 ==> old(View()) != [] && closed == old(closed) + FdOf(old(View())[0])
    {
      ghost var v := View();
      ViewNonEmpty();
      var _, buf0 := Gather();
      if n <= 0 { return n; }
      SentBatch(v, n);
      assert View() == v && v[0] == OutOf(bufs[0]);
      Passed(buf0);
      Drain(n);
      r := 1;
    }
  }

  class Imsgbuf {
    const w: Msgbuf
    const rbuf: array<byte>
    var wpos: nat
    var fds: seq<Fd>
    /** Descriptors received beyond the first of a read and handed to close(2). */
    var refused: seq<Fd>
    const pid: u32

    ghost predicate Valid()
      reads this, w, w.bufs
    {
      w.Valid() && rbuf.Length == READ_SIZE && wpos <= READ_SIZE && rbuf !in w.arrays
    }

    ghost function Reading(): Reader
      requires wpos <= rbuf.Length
      reads this, rbuf
    {
      Reader(rbuf[..wpos], fds)
    }

    /** imsg_init. */
    constructor (pid: u32)
      ensures Valid() && Reading() == Reader([], []) && w.View() == [] && fresh(w) && fresh(rbuf)
    {
      w := new Msgbuf();
      rbuf := new byte[READ_SIZE];
      wpos, fds, refused, this.pid := 0, [], [], pid;
    }

    // ----------------------------------------------------------------- reading

    /** The loop of imsg_read over the descriptors received: the first is kept, the others are closed. */
    method TakeFds(passed: seq<Fd>)
      modifies this`fds, this`refused
      ensures fds == old(fds) + FirstOf(passed)
      ensures refused == old(refused) + if passed == [] then [] else passed[1..]
    {
      var free := true;
      for i := 0 to |passed|
        invariant free <==> i == 0
        invariant fds == old(fds) + FirstOf(passed[..i])
        invariant refused == old(refused) + if i == 0 then [] else passed[1..i]
      {
        if free {
          fds := fds + [passed[i]];
          free := false;
        } else {
          refused := refused + [passed[i]];
        }
      }
      assert passed[..|passed|] == passed;
    }

    /** imsg_read, where recvmsg delivered `bytes` and the descriptors `passed`. */
    method Read(bytes: seq<byte>, passed: seq<Fd>)
      requires Valid() && |bytes| <= READ_SIZE - wpos
      modifies this`wpos, this`fds, this`refused, rbuf
      ensures Valid() && Reading() == Reader(old(Reading()).buf + bytes, old(Reading()).fds + FirstOf(passed))
      ensures refused == old(refused) + if passed == [] then [] else passed[1..]
    {
      ghost var was := rbuf[..wpos];
      forall i | 0 <= i < |bytes| { rbuf[wpos + i] := bytes[i]; }
      wpos := wpos + |bytes|;
      assert rbuf[..wpos] == was + bytes;
      TakeFds(passed);
    }

    /** imsg_get_fd. */
    method GetFd() returns (fd: Option<Fd>)
      modifies this`fds
      ensures fd == if old(fds) == [] then None else Some(old(fds)[0])
      ensures fds == if old(fds) == [] then [] else old(fds)[1..]
    {
      if fds == [] { return None; }
      fd := Some(fds[0]);
      fds := fds[1..];
    }

    /** The memmove that closes the gap left by a message of `len` bytes. */
    method Shift(len: nat)
      requires Valid() && len <= wpos
      modifies this`wpos, rbuf
      ensures Valid() && rbuf[..wpos] == old(rbuf[len..wpos])
    {
      var left := wpos - len;
      ghost var rest := rbuf[len..wpos];
      forall i | 0 <= i < left { rbuf[i] := rbuf[len + i]; }
      wpos := left;
      assert rbuf[..wpos] == rest;
    }

    /** imsg_get. */
    method Get() returns (r: GetResult)
      requires Valid()
      modifies this`wpos, this`fds, rbuf
      ensures Valid() && r == ImsgWire.Get(old(Reading()))
      ensures Reading() == if r.Got? then r.rest else old(Reading())
    {
      ghost var was := Reading();
      if wpos < HEADER_SIZE { return NeedMore; }
      var hdr := rbuf[..HEADER_SIZE];
      assert hdr == was.buf[..HEADER_SIZE];
      HeaderParts(was.buf);
      var len := Get16(hdr[4..6]);
      if len < HEADER_SIZE || len > MAX_IMSGSIZE { return Bad; }
      if len > wpos { return NeedMore; }
      var fd := None;
      if Get16(hdr[6..8]) % 2 == 1 {
        fd := GetFd();
      }
      var data := rbuf[HEADER_SIZE..len];
      ghost var rest := rbuf[len..wpos];
      assert rbuf[..wpos] == was.buf;
      Slices(rbuf, wpos, HEADER_SIZE, len);
      Slices(rbuf, wpos, len, wpos);
      assert was.buf[len..wpos] == was.buf[len..];
      Shift(len);
      assert rbuf[..wpos] == rest;
      r := Got(Msg(Get32(hdr[0..4]), Get32(hdr[8..12]), Get32(hdr[12..16]), data, fd), Reader(rbuf[..wpos], fds));
    }

    // ------------------------------------------------------- writing and composing

    /** msgbuf_write on this buffer's queue; what is being read is left alone. */
    method WriteQueue(n: int) returns (r: int)
      requires Valid() && -1 <= n <= |Offered(w.View(), 0)|
      modifies w`bufs, w`queued, w`closed, w.bufs`rpos, w.bufs`fd
      ensures Valid() && Reading() == old(Reading())
      ensures r == (if n > 0 then 1 else n) && w.View() == Written(old(w.View()), n)
    {
      ghost var q, reading := w.View(), Reading();
      r := w.Write(n);
      assert w.View() == Written(q, n);
      assert Reading() == reading;
    }

    function EffectivePid(p: u32): u32 {
      if p == 0 then pid else p
    }

    /** imsg_create; `datalen` is a uint16_t and its sum with the header size wraps. */
    method Create(typ: u32, peerid: u32, p: u32, datalen: u16) returns (wbuf: Ibuf?)
      ensures wbuf == null <==> (datalen + HEADER_SIZE) % 0x1_0000 > MAX_IMSGSIZE
      ensures wbuf != null ==>
                && fresh(wbuf) && wbuf.Valid() && fresh(wbuf.buf) && wbuf.max == MAX_IMSGSIZE
                && wbuf.rpos == 0 && wbuf.fd.None?
                && wbuf.Content() == Header(typ, 0, 0, peerid, EffectivePid(p))
    {
      var len := (datalen + HEADER_SIZE) % 0x1_0000;
      if len > MAX_IMSGSIZE { return null; }
      wbuf := new Ibuf(len, MAX_IMSGSIZE);
      var ok := wbuf.Add(Header(typ, 0, 0, peerid, EffectivePid(p)));
    }

    /** imsg_close's writes to the header: the length and the descriptor flag. */
    method FillHeader(msg: Ibuf, typ: u32, peerid: u32, p: u32, data: seq<byte>)
      requires msg.Valid() && msg.wpos == HEADER_SIZE + |data| <= MAX_IMSGSIZE && msg.rpos == 0
      requires msg.Content() == Header(typ, 0, 0, peerid, p) + data
      modifies msg.buf
      ensures msg.Valid() && OutOf(msg) == Out(Encode(Msg(typ, peerid, p, data, msg.fd)), msg.fd)
    {
      ghost var was := msg.Content();
      assert was == msg.buf[..msg.wpos];
      Store16(msg.buf, msg.wpos, 4, msg.wpos);
      Store16(msg.buf, msg.wpos, 6, if msg.fd.Some? then HASFD else 0);
      HeaderFilled(was, Msg(typ, peerid, p, data, msg.fd));
    }

    /** imsg_compose up to the enqueueing: null exactly for data that does not fit a message. */
    method Build(typ: u32, peerid: u32, p: u32, fd: Option<Fd>, data: seq<byte>) returns (wbuf: Ibuf?)
      requires |data| < 0x1_0000
      ensures wbuf == null <==> |data| + HEADER_SIZE > MAX_IMSGSIZE
      ensures wbuf != null ==>
                && fresh(wbuf) && fresh(wbuf.buf) && wbuf.Valid() && wbuf.rpos < wbuf.wpos
                && OutOf(wbuf) == Out(Encode(Msg(typ, peerid, EffectivePid(p), data, fd)), fd)
    {
      wbuf := Create(typ, peerid, p, |data|);
      if wbuf == null { return; }
      if |data| != 0 {
        var ok := wbuf.Add(data);
        if !ok { return null; }
      }
      wbuf.fd := fd;
      FillHeader(wbuf, typ, peerid, EffectivePid(p), data);
    }

    /**
     * imsg_compose succeeds exactly for data that fits a message with its
     * header, and then queues that message, wrap-around notwithstanding.
     */
    method Compose(typ: u32, peerid: u32, p: u32, fd: Option<Fd>, data: seq<byte>) returns (r: int)
      requires Valid() && |data| < 0x1_0000
      modifies w`bufs, w`queued, w`arrays
      ensures Valid() && Reading() == old(Reading())
      ensures r == if |data| + HEADER_SIZE <= MAX_IMSGSIZE then 1 else -1
      ensures r == -1 ==> w.bufs == old(w.bufs) && w.View() == old(w.View())
      ensures r == 1 ==>
                && |w.bufs| == |old(w.bufs)| + 1 && w.bufs[..|old(w.bufs)|] == old(w.bufs)
                && fresh(w.bufs[|old(w.bufs)|])
                && w.View() == old(w.View()) + [Out(Encode(Msg(typ, peerid, EffectivePid(p), data, fd)), fd)]
    {
      ghost var v := w.View();
      var wbuf := Build(typ, peerid, p, fd, data);
      assert w.View() == v;
      if wbuf == null { return -1; }
      ghost var o := OutOf(wbuf);
      w.Enqueue(wbuf);
      assert w.View() == v + [o];
      r := 1;
    }
  }
}
