/**
 * Two imsgbufs and the socket between them, as a step system: composing
 * messages, sendmsg of any length, recvmsg of any length, and imsg_get.
 */
module ImsgTransport {
  import opened Common
  import opened ImsgWire

  /** A queued ibuf: the bytes still to send and the descriptor still to pass. */
  datatype Out = Out(bytes: seq<byte>, fd: Option<Fd>)

  /** A byte in the socket, with the descriptor it was sent with. */
  datatype Cell = Cell(b: byte, fd: Option<Fd>)

  // ------------------------------------------------------ bytes and descriptors

  /** sendmsg attaches a descriptor to the first byte it sends. */
  ghost function Tag(s: seq<byte>, fd: Option<Fd>): seq<Cell> {
    seq(|s|, i requires 0 <= i < |s| => Cell(s[i], if i == 0 then fd else None))
  }

  ghost function Bytes(c: seq<Cell>): seq<byte> {
    seq(|c|, i requires 0 <= i < |c| => c[i].b)
  }

  ghost function Fds(c: seq<Cell>): seq<Fd> {
    if c == [] then []
    else Fds(c[..|c| - 1]) + if c[|c| - 1].fd.Some? then [c[|c| - 1].fd.value] else []
  }

  lemma {:induction false} FdsAppend(a: seq<Cell>, b: seq<Cell>)
    ensures Fds(a + b) == Fds(a) + Fds(b)
    decreases |b|
  {
    if b == [] {
      assert a + b == a;
    } else {
      var c := b[..|b| - 1];
      FdsAppend(a, c);
      assert (a + b)[..|a + b| - 1] == a + c;
    }
  }

  lemma {:induction false} FdsPlain(s: seq<byte>)
    ensures Fds(Tag(s, None)) == []
    decreases |s|
  {
    if s != [] {
      FdsPlain(s[..|s| - 1]);
      assert Tag(s, None)[..|s| - 1] == Tag(s[..|s| - 1], None);
    }
  }

  lemma {:induction false} FdsTag(s: seq<byte>, fd: Option<Fd>)
    requires s != []
    ensures Fds(Tag(s, fd)) == if fd.Some? then [fd.value] else []
  {
    var head, tail := [Cell(s[0], fd)], Tag(s[1..], None);
    assert Tag(s, fd) == head + tail;
    FdsAppend(head, tail);
    FdsPlain(s[1..]);
    assert Fds(head) == Fds(head[..0]) + if fd.Some? then [fd.value] else [];
  }

  lemma BytesAppend(a: seq<Cell>, b: seq<Cell>)
    ensures Bytes(a + b) == Bytes(a) + Bytes(b)
  {
  }

  lemma BytesTag(s: seq<byte>, fd: Option<Fd>)
    ensures Bytes(Tag(s, fd)) == s
  {
  }

  // -------------------------------------------------------------------- sending

  ghost function QueueCells(q: seq<Out>): seq<Cell> {
    if q == [] then [] else Tag(q[0].bytes, q[0].fd) + QueueCells(q[1..])
  }

  ghost function AllBytes(q: seq<Out>): seq<byte> {
    if q == [] then [] else q[0].bytes + AllBytes(q[1..])
  }

  /** How many more buffers msgbuf_write gathers when it already holds `i`. */
  function Gathered(q: seq<Out>, i: nat): (n: nat)
    ensures n <= |q|
    ensures i == 0 && q != [] ==> n >= 1
    decreases q
  {
    if q == [] || i >= IOV_MAX || (i > 0 && q[0].fd.Some?) then 0 else 1 + Gathered(q[1..], i + 1)
  }

  /** The bytes of one sendmsg call. */
  ghost function Offered(q: seq<Out>, i: nat): seq<byte> {
    AllBytes(q[..Gathered(q, i)])
  }

  /** msgbuf_drain. */
  function Drained(q: seq<Out>, n: nat): seq<Out> {
    if q == [] || n == 0 then q
    else if n >= |q[0].bytes| then Drained(q[1..], n - |q[0].bytes|)
    else [q[0].(bytes := q[0].bytes[n..])] + q[1..]
  }

  /** The queue after sendmsg accepted `n` bytes: the descriptor is gone first. */
  function Sent(q: seq<Out>, n: nat): seq<Out>
    requires q != []
  {
    Drained([q[0].(fd := None)] + q[1..], n)
  }

  ghost predicate NonEmpty(q: seq<Out>) {
    forall o :: o in q ==> o.bytes != []
  }

  lemma {:induction false} QueueCellsBytes(q: seq<Out>)
    ensures Bytes(QueueCells(q)) == AllBytes(q)
  {
    if q != [] { QueueCellsBytes(q[1..]); }
  }

  lemma Extended(c: seq<Cell>, x: seq<Cell>, n: nat)
    requires n <= |c|
    ensures (c + x)[..n] == c[..n] && (c + x)[n..] == c[n..] + x
  {
  }

  lemma {:induction false} QueueCellsAppend(q: seq<Out>, o: Out)
    ensures QueueCells(q + [o]) == QueueCells(q) + Tag(o.bytes, o.fd)
  {
    if q == [] {
      assert (q + [o])[1..] == [];
    } else {
      QueueCellsAppend(q[1..], o);
      assert (q + [o])[1..] == q[1..] + [o];
      Assoc(Tag(q[0].bytes, q[0].fd), QueueCells(q[1..]), Tag(o.bytes, o.fd));
    }
  }

  lemma TagAppend(a: seq<byte>, b: seq<byte>)
    ensures Tag(a + b, None) == Tag(a, None) + Tag(b, None)
  {
  }

  /** What is offered of a queue starts with its first buffer. */
  lemma {:induction false} OfferedFirst(q: seq<Out>, i: nat)
    requires q != [] && Gathered(q, i) > 0
    ensures Offered(q, i) == q[0].bytes + Offered(q[1..], i + 1)
  {
    var g := Gathered(q, i);
    assert q[..g][0] == q[0] && q[..g][1..] == q[1..][..g - 1];
  }

  /** Part of the first buffer is drained. */
  lemma {:induction false} DrainPart(o: Out, rest: seq<Out>, n: nat)
    requires o.fd.None? && n < |o.bytes|
    ensures QueueCells([o] + rest) ==
            Tag(AllBytes([o] + rest)[..n], None) + QueueCells([o.(bytes := o.bytes[n..])] + rest)
  {
    var b, d := o.bytes, [o.(bytes := o.bytes[n..])] + rest;
    assert ([o] + rest)[1..] == rest && d[1..] == rest;
    Rejoin(b, n);
    TagAppend(b[..n], b[n..]);
    assert AllBytes([o] + rest)[..n] == b[..n];
    Assoc(Tag(b[..n], None), Tag(b[n..], None), QueueCells(rest));
  }

  /** All of the first buffer is drained, and more. */
  lemma {:induction false} DrainAll(b: seq<byte>, rest: seq<byte>, n: nat, cells: seq<Cell>, left: seq<Cell>)
    requires |b| <= n <= |b| + |rest| && cells == Tag(rest[..n - |b|], None) + left
    ensures Tag(b, None) + cells == Tag((b + rest)[..n], None) + left
  {
    var k := n - |b|;
    assert (b + rest)[..n] == b + rest[..k];
    TagAppend(b, rest[..k]);
    Assoc(Tag(b, None), Tag(rest[..k], None), left);
  }

  /** Draining within one gathered batch that holds no descriptor loses nothing. */
  lemma {:induction false} DrainMoves(q: seq<Out>, n: nat, i: nat)
    requires NonEmpty(q) && n <= |Offered(q, i)| && (i == 0 && q != [] ==> q[0].fd.None?)
    ensures NonEmpty(Drained(q, n)) && n <= |AllBytes(q)|
    ensures QueueCells(q) == Tag(AllBytes(q)[..n], None) + QueueCells(Drained(q, n))
    decreases q
  {
    if q == [] || n == 0 {
      assert Tag(AllBytes(q)[..n], None) == [];
    } else {
      var o, rest := q[0], q[1..];
      OfferedFirst(q, i);
      if n >= |o.bytes| {
        DrainMoves(rest, n - |o.bytes|, i + 1);
        DrainAll(o.bytes, AllBytes(rest), n, QueueCells(rest), QueueCells(Drained(q, n)));
      } else {
        assert q == [o] + rest && o in q;
        DrainPart(o, rest, n);
      }
    }
  }

  /**
   * msgbuf_write: what sendmsg takes, tagged with the first buffer's
   * descriptor, and what stays queued make up the old queue.
   */
  lemma {:induction false} SendMoves(q: seq<Out>, n: nat)
    requires q != [] && NonEmpty(q) && 1 <= n <= |Offered(q, 0)|
    ensures NonEmpty(Sent(q, n)) && n <= |AllBytes(q)|
    ensures QueueCells(q) == Tag(AllBytes(q)[..n], q[0].fd) + QueueCells(Sent(q, n))
  {
    var q' := [q[0].(fd := None)] + q[1..];
    var g := Gathered(q, 0);
    assert q'[1..] == q[1..];
    assert q[..g][1..] == q'[..g][1..] && q[..g][0].bytes == q'[..g][0].bytes;
    assert Offered(q', 0) == Offered(q, 0);
    assert AllBytes(q') == AllBytes(q);
    DrainMoves(q', n, 0);
    var c, c' := Tag(AllBytes(q)[..n], q[0].fd), Tag(AllBytes(q)[..n], None);
    var rest := QueueCells(Sent(q, n));
    assert QueueCells(q') == c' + rest;
    forall i | 0 <= i < |QueueCells(q)|
      ensures QueueCells(q)[i] == (c + rest)[i]
    {
      if i > 0 { assert QueueCells(q)[i] == QueueCells(q')[i]; }
    }
  }

  /** The descriptors that msgbuf_drain closes with the buffers it takes off the queue. */
  function Dropped(q: seq<Out>, n: nat): seq<Fd> {
    if q == [] || n == 0 || n < |q[0].bytes| then []
    else (if q[0].fd.Some? then [q[0].fd.value] else []) + Dropped(q[1..], n - |q[0].bytes|)
  }

  /** Within one batch msgbuf_drain closes no descriptor that was not sent. */
  lemma {:induction false} DrainDropsNothing(q: seq<Out>, n: nat, i: nat)
    requires NonEmpty(q) && n <= |Offered(q, i)| && (i == 0 && q != [] ==> q[0].fd.None?)
    ensures Dropped(q, n) == []
    decreases q
  {
    if q != [] && n >= |q[0].bytes| && n > 0 {
      var g := Gathered(q, i);
      assert g > 0 && q[..g][0] == q[0] && q[..g][1..] == q[1..][..g - 1];
      assert Offered(q, i) == q[0].bytes + Offered(q[1..], i + 1);
      DrainDropsNothing(q[1..], n - |q[0].bytes|, i + 1);
    }
  }

  // ------------------------------------------------------------ the step system

  /** Writer queue, socket, reader, and the logs of composed and taken messages. */
  datatype Net = Net(queue: seq<Out>, chan: seq<Cell>, reader: Reader, sent: seq<Msg>, got: seq<Msg>)

  datatype Step = Compose(m: Msg) | Send(n: nat) | Recv(k: nat) | Take

  const INIT := Net([], [], Reader([], []), [], [])

  /**
   * sendmsg takes any nonzero part of a batch; recvmsg returns any nonzero part
   * of what is in the socket that fits the buffer, with at most one descriptor.
   */
  ghost predicate Enabled(s: Net, step: Step) {
    match step
    case Compose(m) => Sendable(m)
    case Send(n) => s.queue != [] && 1 <= n <= |Offered(s.queue, 0)| && n <= |AllBytes(s.queue)|
    case Recv(k) => 1 <= k <= |s.chan| && |s.reader.buf| + k <= READ_SIZE && |Fds(s.chan[..k])| <= 1
    case Take => true
  }

  ghost function Do(s: Net, step: Step): Net
    requires Enabled(s, step)
  {
    match step
    case Compose(m) => s.(queue := s.queue + [Out(Encode(m), m.fd)], sent := s.sent + [m])
    case Send(n) =>
      s.(queue := Sent(s.queue, n), chan := s.chan + Tag(AllBytes(s.queue)[..n], s.queue[0].fd))
    case Recv(k) =>
      s.(chan := s.chan[k..],
         reader := Reader(s.reader.buf + Bytes(s.chan[..k]), s.reader.fds + Fds(s.chan[..k])))
    case Take =>
      var g := Get(s.reader);
      if g.Got? then s.(reader := g.rest, got := s.got + [g.msg]) else s
  }

  ghost predicate Next(s: Net, s': Net) {
    exists step :: Enabled(s, step) && s' == Do(s, step)
  }

  /** Any interleaving of steps from the start. */
  ghost predicate IsRun(run: seq<Net>) {
    && run != [] && run[0] == INIT
    && forall i :: 0 <= i < |run| - 1 ==> Next(run[i], run[i + 1])
  }

  // -------------------------------------------------------------- the invariant

  ghost function MsgCells(ms: seq<Msg>): seq<Cell>
    requires forall m :: m in ms ==> Sendable(m)
  {
    if ms == [] then [] else Tag(Encode(ms[0]), ms[0].fd) + MsgCells(ms[1..])
  }

  lemma {:induction false} MsgCellsAppend(ms: seq<Msg>, m: Msg)
    requires (forall x :: x in ms ==> Sendable(x)) && Sendable(m)
    ensures MsgCells(ms + [m]) == MsgCells(ms) + Tag(Encode(m), m.fd)
  {
    if ms == [] {
      assert (ms + [m])[1..] == [] && Tag(Encode(m), m.fd) + [] == Tag(Encode(m), m.fd) == [] + Tag(Encode(m), m.fd);
    } else {
      MsgCellsAppend(ms[1..], m);
      assert (ms + [m])[1..] == ms[1..] + [m];
      Assoc(Tag(Encode(ms[0]), ms[0].fd), MsgCells(ms[1..]), Tag(Encode(m), m.fd));
    }
  }

  /** What the reader holds is a prefix `c` of the cells still to be taken. */
  ghost predicate Holds(r: Reader, c: seq<Cell>) {
    r.buf == Bytes(c) && r.fds == Fds(c)
  }

  /** The cells `c` lie in the reader, then in the socket, then in the queue. */
  ghost predicate Located(c: seq<Cell>, r: Reader, chan: seq<Cell>, queue: seq<Cell>) {
    var n := |r.buf|;
    n <= |c| && Holds(r, c[..n]) && c[n..] == chan + queue
  }

  /** The messages taken come first, and `c` are the cells of the others. */
  ghost predicate Holding(s: Net, c: seq<Cell>) {
    && NonEmpty(s.queue) && |s.got| <= |s.sent| && s.got == s.sent[..|s.got|]
    && Located(c, s.reader, s.chan, QueueCells(s.queue))
  }

  /**
   * The taken messages are a prefix of the composed ones, and the cells of the
   * others lie, in order, in the reader, the socket and the queue.
   */
  ghost predicate Inv(s: Net) {
    && (forall m :: m in s.sent ==> Sendable(m))
    && |s.got| <= |s.sent| && Holding(s, MsgCells(s.sent[|s.got|..]))
  }

  lemma {:induction false} ComposeKeeps(s: Net, m: Msg)
    requires Inv(s) && Sendable(m)
    ensures Inv(Do(s, Compose(m)))
  {
    var s', o := Do(s, Compose(m)), Out(Encode(m), m.fd);
    var rest, n := s.sent[|s.got|..], |s.reader.buf|;
    assert s'.sent[|s.got|..] == rest + [m];
    MsgCellsAppend(rest, m);
    QueueCellsAppend(s.queue, o);
    Extended(MsgCells(rest), Tag(o.bytes, o.fd), n);
    Assoc(s.chan, QueueCells(s.queue), Tag(o.bytes, o.fd));
  }

  lemma {:induction false} SendKeeps(s: Net, n: nat)
    requires Inv(s) && Enabled(s, Send(n))
    ensures Inv(Do(s, Send(n)))
  {
    SendMoves(s.queue, n);
    var c := Tag(AllBytes(s.queue)[..n], s.queue[0].fd);
    Assoc(s.chan, c, QueueCells(Sent(s.queue, n)));
  }

  lemma {:induction false} MoveBoundary(c: seq<Cell>, n: nat, chan: seq<Cell>, rest: seq<Cell>, k: nat)
    requires n <= |c| && c[n..] == chan + rest && k <= |chan|
    ensures n + k <= |c| && c[..n + k] == c[..n] + chan[..k]
    ensures c[n + k..] == chan[k..] + rest
  {
    assert c == c[..n] + (chan + rest);
    assert c[n + k..] == c[n..][k..];
  }

  lemma {:induction false} RecvMoves(c: seq<Cell>, r: Reader, chan: seq<Cell>, queue: seq<Cell>, k: nat)
    requires Located(c, r, chan, queue) && k <= |chan|
    ensures Located(c, Reader(r.buf + Bytes(chan[..k]), r.fds + Fds(chan[..k])), chan[k..], queue)
  {
    var n := |r.buf|;
    MoveBoundary(c, n, chan, queue, k);
    FdsAppend(c[..n], chan[..k]);
    BytesAppend(c[..n], chan[..k]);
  }

  lemma {:induction false} RecvKeeps(s: Net, k: nat)
    requires Inv(s) && Enabled(s, Recv(k))
    ensures Inv(Do(s, Recv(k)))
  {
    RecvMoves(MsgCells(s.sent[|s.got|..]), s.reader, s.chan, QueueCells(s.queue), k);
  }

  lemma {:induction false} TakeWhole(r: Reader, m: Msg, tail: seq<Cell>)
    requires Sendable(m) && Holds(r, Tag(Encode(m), m.fd) + tail)
    ensures var g := Get(r); g.Got? && g.msg == m && Holds(g.rest, tail)
  {
    var c := Tag(Encode(m), m.fd);
    FdsAppend(c, tail);
    BytesAppend(c, tail);
    FdsTag(Encode(m), m.fd);
    BytesTag(Encode(m), m.fd);
    GetEncoded(m, Bytes(tail), r.fds);
    assert r == Reader(Encode(m) + Bytes(tail), r.fds);
  }

  lemma {:induction false} TakePart(r: Reader, m: Msg, n: nat)
    requires Sendable(m) && n < |Encode(m)| && Holds(r, Tag(Encode(m), m.fd)[..n])
    ensures Get(r) == NeedMore
  {
    assert r.buf == Encode(m)[..n];
    GetPartial(m, n, r.fds);
  }

  /** Given its first `n` cells, a message is taken whole or waited for. */
  lemma {:induction false} TakeFirst(r: Reader, ms: seq<Msg>, n: nat)
    requires ms != [] && (forall m :: m in ms ==> Sendable(m))
    requires n <= |MsgCells(ms)| && Holds(r, MsgCells(ms)[..n])
    ensures if n < |Encode(ms[0])| then Get(r) == NeedMore
            else
              var g := Get(r);
              var left := n - |Encode(ms[0])|;
              && g.Got? && g.msg == ms[0] && left <= |MsgCells(ms[1..])|
              && Holds(g.rest, MsgCells(ms[1..])[..left])
  {
    var first, rest := Tag(Encode(ms[0]), ms[0].fd), MsgCells(ms[1..]);
    if n < |first| {
      assert (first + rest)[..n] == first[..n];
      TakePart(r, ms[0], n);
    } else {
      assert (first + rest)[..n] == first + rest[..n - |first|];
      TakeWhole(r, ms[0], rest[..n - |first|]);
    }
  }

  lemma {:induction false} DropFirst(ms: seq<Msg>, n: nat)
    requires ms != [] && (forall m :: m in ms ==> Sendable(m))
    requires |Encode(ms[0])| <= n <= |MsgCells(ms)|
    ensures MsgCells(ms)[n..] == MsgCells(ms[1..])[n - |Encode(ms[0])|..]
  {
  }

  lemma {:induction false} NothingToTake(s: Net)
    requires Inv(s) && s.sent[|s.got|..] == []
    ensures s.reader.buf == [] && s.reader.fds == [] && Get(s.reader) == NeedMore && s.got == s.sent
  {
    assert MsgCells(s.sent[|s.got|..]) == [];
  }

  /** With nothing queued or in flight, a message that is left can be taken. */
  lemma {:induction false} SomethingToTake(s: Net)
    requires Inv(s) && s.sent[|s.got|..] != [] && s.queue == [] && s.chan == []
    ensures Get(s.reader).Got?
  {
    var rest := s.sent[|s.got|..];
    assert QueueCells(s.queue) == [];
    assert MsgCells(rest)[|s.reader.buf|..] == [];
    TakeFirst(s.reader, rest, |s.reader.buf|);
  }

  /** Cells that follow a taken message are where they were. */
  lemma {:induction false} LocatedRest(
    c: seq<Cell>, d: seq<Cell>, r: Reader, r': Reader, chan: seq<Cell>, queue: seq<Cell>, len: nat)
    requires Located(c, r, chan, queue) && len <= |r.buf| && |r.buf| - len <= |d|
    requires c[|r.buf|..] == d[|r.buf| - len..] && Holds(r', d[..|r.buf| - len])
    ensures Located(d, r', chan, queue)
  {
    assert |r'.buf| == |r.buf| - len;
  }

  lemma PrefixGrows<T>(s: seq<T>, k: nat)
    requires k < |s|
    ensures s[..k] + [s[k..][0]] == s[..k + 1] && s[k..][1..] == s[k + 1..]
  {
  }

  /** After the next message has been taken, the cells of the others are where they were. */
  lemma {:induction false} TakenNext(s: Net, s': Net, c: seq<Cell>, d: seq<Cell>, len: nat)
    requires Holding(s, c) && |s.got| < |s.sent|
    requires s' == s.(reader := s'.reader, got := s.got + [s.sent[|s.got|..][0]])
    requires len <= |s.reader.buf| && |s.reader.buf| - len <= |d|
    requires c[|s.reader.buf|..] == d[|s.reader.buf| - len..] && Holds(s'.reader, d[..|s.reader.buf| - len])
    ensures Holding(s', d)
  {
    PrefixGrows(s.sent, |s.got|);
    LocatedRest(c, d, s.reader, s'.reader, s.chan, QueueCells(s.queue), len);
  }

  lemma {:induction false} TakeKeeps(s: Net)
    requires Inv(s)
    ensures Inv(Do(s, Take)) && !Get(s.reader).Bad?
  {
    var rest, n := s.sent[|s.got|..], |s.reader.buf|;
    if rest == [] {
      NothingToTake(s);
    } else {
      TakeFirst(s.reader, rest, n);
      if n >= |Encode(rest[0])| {
        DropFirst(rest, n);
        PrefixGrows(s.sent, |s.got|);
        TakenNext(s, Do(s, Take), MsgCells(rest), MsgCells(rest[1..]), |Encode(rest[0])|);
      }
    }
  }

  lemma StepKeeps(s: Net, step: Step)
    requires Inv(s) && Enabled(s, step)
    ensures Inv(Do(s, step))
  {
    match step
    case Compose(m) => ComposeKeeps(s, m);
    case Send(n) => SendKeeps(s, n);
    case Recv(k) => RecvKeeps(s, k);
    case Take => TakeKeeps(s);
  }

  lemma NextKeeps(s: Net, s': Net)
    requires Inv(s) && Next(s, s')
    ensures Inv(s')
  {
    var step :| Enabled(s, step) && s' == Do(s, step);
    StepKeeps(s, step);
  }

  lemma InitInv()
    ensures Inv(INIT)
  {
    assert INIT.sent[|INIT.got|..] == [];
    assert MsgCells([]) == [] && Fds([]) == [] && QueueCells([]) == [];
  }

  lemma {:induction false} InvAlways(run: seq<Net>)
    requires IsRun(run)
    ensures Inv(run[|run| - 1])
  {
    if |run| == 1 {
      InitInv();
    } else {
      InvAlways(run[..|run| - 1]);
      assert Next(run[|run| - 2], run[|run| - 2 + 1]);
      NextKeeps(run[|run| - 2], run[|run| - 1]);
    }
  }

  /**
   * Whatever the partial sends and receives, the messages taken are the first
   * messages composed, each with its own type, ids, data and descriptor; no
   * frame is ever rejected.
   */
  lemma {:induction false} InOrderDelivery(run: seq<Net>)
    requires IsRun(run)
    ensures var s := run[|run| - 1];
            |s.got| <= |s.sent| && s.got == s.sent[..|s.got|] && !Get(s.reader).Bad?
  {
    InvAlways(run);
    TakeKeeps(run[|run| - 1]);
  }

  /** Once nothing is queued or in flight and imsg_get wants more, all has arrived. */
  lemma {:induction false} NothingLost(run: seq<Net>)
    requires IsRun(run)
    ensures var s := run[|run| - 1];
            s.queue == [] && s.chan == [] && Get(s.reader).NeedMore? ==>
              s.got == s.sent && s.reader == Reader([], [])
  {
    InvAlways(run);
    var s := run[|run| - 1];
    if s.queue == [] && s.chan == [] {
      if s.sent[|s.got|..] == [] { NothingToTake(s); } else { SomethingToTake(s); }
    }
  }
}
