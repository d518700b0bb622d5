/**
 * The way out: template writes into a bounded buffer, the buffer into records
 * of at most 65535 bytes, many requests sharing one connection (tp_write and
 * template_flush of template/tmpl.c, clt_write and end_request of fcgi.c).
 */
module FcgiOut {
  import opened Common
  import opened FcgiRecord
  import opened Tmpl

  // -------------------------------------------------------------- what is meant

  /** What a web server sees of one request. */
  datatype Event = Byte(b: byte) | Ended(app: byte, proto: byte)

  ghost function BytesOf(s: seq<byte>): seq<Event> {
    seq(|s|, i requires 0 <= i < |s| => Byte(s[i]))
  }

  lemma BytesOfAppend(a: seq<byte>, b: seq<byte>)
    ensures BytesOf(a + b) == BytesOf(a) + BytesOf(b)
  {
  }

  /** One record, as seen by the request `id`. */
  ghost function EventsOf(r: Record, id: u16): seq<Event> {
    if r.id != id then []
    else if r.typ == STDOUT then BytesOf(r.content)
    else if r.typ == END_REQUEST && |r.content| == 8 then [Ended(r.content[3], r.content[4])]
    else []
  }

  /** A stream of records, grouped by request id. */
  ghost function Project(rs: seq<Record>, id: u16): seq<Event> {
    if rs == [] then [] else Project(rs[..|rs| - 1], id) + EventsOf(rs[|rs| - 1], id)
  }

  lemma {:induction false} ProjectAppend(a: seq<Record>, b: seq<Record>, id: u16)
    ensures Project(a + b, id) == Project(a, id) + Project(b, id)
    decreases |b|
  {
    if b == [] {
      assert a + b == a;
    } else {
      var c, e := b[..|b| - 1], EventsOf(b[|b| - 1], id);
      ProjectAppend(a, c, id);
      assert (a + b)[..|a + b| - 1] == a + c;
      Assoc(Project(a, id), Project(c, id), e);
    }
  }

  // ------------------------------------------------------------- clt_write

  function StdoutRecord(id: u16, data: seq<byte>): Record {
    Record(STDOUT, id, data, [])
  }

  /** The records clt_write sends for `data`. */
  function Frames(id: u16, data: seq<byte>): (rs: seq<Record>)
    ensures forall r :: r in rs ==> r.typ == STDOUT && r.id == id && 1 <= |r.content| <= MAX_CONTENT && r.padding == []
    decreases |data|
  {
    if data == [] then []
    else if |data| <= MAX_CONTENT then [StdoutRecord(id, data)]
    else [StdoutRecord(id, data[..MAX_CONTENT])] + Frames(id, data[MAX_CONTENT..])
  }

  lemma OneEvent(r: Record, id: u16)
    ensures Project([r], id) == EventsOf(r, id)
  {
    assert [r][..0] == [];
  }

  lemma {:induction false} FramesEvents(id: u16, data: seq<byte>, other: u16)
    ensures Project(Frames(id, data), other) == if other == id then BytesOf(data) else []
    decreases |data|
  {
    if data == [] {
    } else if |data| <= MAX_CONTENT {
      OneEvent(StdoutRecord(id, data), other);
    } else {
      var first, rest := data[..MAX_CONTENT], data[MAX_CONTENT..];
      FramesEvents(id, rest, other);
      OneEvent(StdoutRecord(id, first), other);
      ProjectAppend([StdoutRecord(id, first)], Frames(id, rest), other);
      BytesOfAppend(first, rest);
      assert data == first + rest;
    }
  }

  function FramesAll(id: u16, cs: seq<seq<byte>>): (rs: seq<Record>)
    ensures forall r :: r in rs ==> r.typ == STDOUT && r.id == id && 1 <= |r.content| <= MAX_CONTENT && r.padding == []
  {
    if cs == [] then [] else Frames(id, cs[0]) + FramesAll(id, cs[1..])
  }

  lemma {:induction false} FramesAllEvents(id: u16, cs: seq<seq<byte>>, other: u16)
    ensures Project(FramesAll(id, cs), other) == if other == id then BytesOf(Concat(cs)) else []
  {
    if cs != [] {
      FramesEvents(id, cs[0], other);
      FramesAllEvents(id, cs[1..], other);
      ProjectAppend(Frames(id, cs[0]), FramesAll(id, cs[1..]), other);
      BytesOfAppend(cs[0], Concat(cs[1..]));
    }
  }

  function EndRecord(id: u16, app: byte, proto: byte): Record {
    Record(END_REQUEST, id, [0, 0, 0, app, proto, 0, 0, 0], [])
  }

  // ---------------------------------------------------------- the step system

  /** The connection's records so far and the template buffer of every active request. */
  datatype Conn = Conn(out: seq<Record>, bufs: map<u16, seq<byte>>)

  datatype Op =
    | Begin(id: u16)
    | Write(id: u16, data: seq<byte>)
    | Flush(id: u16)
    | Raw(id: u16, data: seq<byte>)
    | End(id: u16, app: byte, proto: byte)
    | Refuse(id: u16, app: byte, proto: byte)

  /**
   * Operations on live requests; raw writes only follow a flush, as in
   * proxy_read. A BEGIN_REQUEST refused for its role may name a live request.
   */
  predicate Allowed(c: Conn, op: Op) {
    match op
    case Begin(id) => id !in c.bufs
    case Raw(id, _) => id in c.bufs && c.bufs[id] == []
    case Refuse(id, _, _) => id in c.bufs ==> c.bufs[id] == []
    case _ => op.id in c.bufs
  }

  ghost predicate Fits(c: Conn, cap: nat) {
    cap > 0 && forall id :: id in c.bufs ==> |c.bufs[id]| <= cap
  }

  function Do(c: Conn, op: Op, cap: nat): (c': Conn)
    requires Fits(c, cap) && Allowed(c, op)
    ensures Fits(c', cap)
  {
    match op
    case Begin(id) => c.(bufs := c.bufs[id := []])
    case Write(id, data) =>
      var r := Fill(c.bufs[id], data, cap);
      Conn(c.out + FramesAll(id, r.0), c.bufs[id := r.1])
    case Flush(id) => Conn(c.out + Frames(id, c.bufs[id]), c.bufs[id := []])
    case Raw(id, data) => c.(out := c.out + Frames(id, data))
    case End(id, app, proto) => Conn(c.out + Frames(id, c.bufs[id]) + [EndRecord(id, app, proto)], c.bufs - {id})
    case Refuse(id, app, proto) => c.(out := c.out + [EndRecord(id, app, proto)])
  }

  /** What the request `id` asked to be sent by one operation. */
  ghost function Asked(op: Op, id: u16): seq<Event> {
    if op.id != id then []
    else
      match op
      case Write(_, data) => BytesOf(data)
      case Raw(_, data) => BytesOf(data)
      case End(_, app, proto) => [Ended(app, proto)]
      case Refuse(_, app, proto) => [Ended(app, proto)]
      case _ => []
  }

  ghost function Held(c: Conn, id: u16): seq<Event> {
    if id in c.bufs then BytesOf(c.bufs[id]) else []
  }

  /** Sent and still buffered, in this order. */
  ghost function Seen(c: Conn, id: u16): seq<Event> {
    Project(c.out, id) + Held(c, id)
  }

  /** Sending `rs`, worth the bytes `sent` of request `w`, and leaving `left` in its buffer. */
  lemma {:induction false} SendAdds(c: Conn, w: u16, rs: seq<Record>, sent: seq<byte>, left: seq<byte>, id: u16)
    requires w in c.bufs && Project(rs, id) == if w == id then BytesOf(sent) else []
    ensures var c' := Conn(c.out + rs, c.bufs[w := left]);
            if w == id then Seen(c', id) == Project(c.out, id) + BytesOf(sent + left) else Seen(c', id) == Seen(c, id)
  {
    ProjectAppend(c.out, rs, id);
    BytesOfAppend(sent, left);
    Assoc(Project(c.out, id), BytesOf(sent), BytesOf(left));
  }

  lemma {:induction false} WriteAdds(c: Conn, w: u16, data: seq<byte>, cap: nat, id: u16)
    requires Fits(c, cap) && w in c.bufs
    ensures Seen(Do(c, Write(w, data), cap), id) == Seen(c, id) + Asked(Write(w, data), id)
  {
    var r := Fill(c.bufs[w], data, cap);
    FillKeeps(c.bufs[w], data, cap);
    FramesAllEvents(w, r.0, id);
    SendAdds(c, w, FramesAll(w, r.0), Concat(r.0), r.1, id);
    BytesOfAppend(c.bufs[w], data);
    Assoc(Project(c.out, id), BytesOf(c.bufs[w]), BytesOf(data));
  }

  lemma {:induction false} FlushAdds(c: Conn, w: u16, cap: nat, id: u16)
    requires Fits(c, cap) && w in c.bufs
    ensures Seen(Do(c, Flush(w), cap), id) == Seen(c, id)
  {
    FramesEvents(w, c.bufs[w], id);
    SendAdds(c, w, Frames(w, c.bufs[w]), c.bufs[w], [], id);
    assert c.bufs[w] + [] == c.bufs[w];
  }

  lemma {:induction false} RawAdds(c: Conn, w: u16, data: seq<byte>, cap: nat, id: u16)
    requires Fits(c, cap) && w in c.bufs && c.bufs[w] == []
    ensures Seen(Do(c, Raw(w, data), cap), id) == Seen(c, id) + Asked(Raw(w, data), id)
  {
    FramesEvents(w, data, id);
    SendAdds(c, w, Frames(w, data), data, [], id);
    assert c.bufs[w := []] == c.bufs && data + [] == data;
    assert Project(c.out, id) + BytesOf([]) == Project(c.out, id);
  }

  lemma {:induction false} ProjectOne(rs: seq<Record>, r: Record, id: u16)
    ensures Project(rs + [r], id) == Project(rs, id) + EventsOf(r, id)
  {
    assert (rs + [r])[..|rs|] == rs;
  }

  lemma {:induction false} LastRecord(c: Conn, w: u16, r: Record, id: u16)
    requires w in c.bufs && c.bufs[w] == [] && r.id == w
    ensures Seen(Conn(c.out + [r], c.bufs - {w}), id) == Seen(c, id) + EventsOf(r, id)
  {
    ProjectOne(c.out, r, id);
    assert BytesOf([]) == [];
    if w == id {
      assert Project(c.out, id) + [] == Project(c.out, id);
    } else {
      assert EventsOf(r, id) == [];
    }
  }

  lemma EndEvent(w: u16, app: byte, proto: byte, id: u16)
    ensures EventsOf(EndRecord(w, app, proto), id) == if w == id then [Ended(app, proto)] else []
  {
  }

  lemma {:induction false} FlushAndLast(c: Conn, w: u16, r: Record, cap: nat, id: u16)
    requires Fits(c, cap) && w in c.bufs && r.id == w
    ensures Seen(Conn(c.out + Frames(w, c.bufs[w]) + [r], c.bufs - {w}), id) == Seen(c, id) + EventsOf(r, id)
  {
    FlushAdds(c, w, cap, id);
    LastRecord(Do(c, Flush(w), cap), w, r, id);
    assert c.bufs[w := []] - {w} == c.bufs - {w};
  }

  lemma {:induction false} EndAdds(c: Conn, w: u16, app: byte, proto: byte, cap: nat, id: u16)
    requires Fits(c, cap) && w in c.bufs
    ensures Seen(Do(c, End(w, app, proto), cap), id) == Seen(c, id) + Asked(End(w, app, proto), id)
  {
    FlushAndLast(c, w, EndRecord(w, app, proto), cap, id);
    EndEvent(w, app, proto, id);
  }

  lemma {:induction false} RefuseAdds(c: Conn, w: u16, app: byte, proto: byte, id: u16)
    requires w in c.bufs ==> c.bufs[w] == []
    ensures Seen(c.(out := c.out + [EndRecord(w, app, proto)]), id) == Seen(c, id) + Asked(Refuse(w, app, proto), id)
  {
    ProjectOne(c.out, EndRecord(w, app, proto), id);
    EndEvent(w, app, proto, id);
    assert w == id ==> Held(c, id) == [];
  }

  /** One operation adds to the view of each request exactly what that request asked for. */
  lemma StepAdds(c: Conn, op: Op, cap: nat, id: u16)
    requires Fits(c, cap) && Allowed(c, op)
    ensures Seen(Do(c, op, cap), id) == Seen(c, id) + Asked(op, id)
  {
    match op
    case Begin(_) => assert BytesOf([]) == [];
    case Write(w, data) => WriteAdds(c, w, data, cap, id);
    case Flush(w) => FlushAdds(c, w, cap, id);
    case Raw(w, data) => RawAdds(c, w, data, cap, id);
    case End(w, app, proto) => EndAdds(c, w, app, proto, cap, id);
    case Refuse(w, app, proto) => RefuseAdds(c, w, app, proto, id);
  }

  // ------------------------------------------------------------------ whole runs

  /** `c` is reached from a new connection by `ops`. */
  ghost predicate Reaches(ops: seq<Op>, c: Conn, cap: nat)
    requires cap > 0
  {
    if ops == [] then c == Conn([], map[])
    else
      var op := ops[|ops| - 1];
      exists b :: Reaches(ops[..|ops| - 1], b, cap) && Fits(b, cap) && Allowed(b, op) && c == Do(b, op, cap)
  }

  ghost function AskedAll(ops: seq<Op>, id: u16): seq<Event> {
    if ops == [] then [] else AskedAll(ops[..|ops| - 1], id) + Asked(ops[|ops| - 1], id)
  }

  /** Records of the two kinds the server writes; none of them is an empty STDOUT record. */
  predicate Proper(r: Record) {
    r.padding == [] &&
    if r.typ == STDOUT then 1 <= |r.content| <= MAX_CONTENT else r.typ == END_REQUEST && |r.content| == 8
  }

  lemma DoProper(c: Conn, op: Op, cap: nat)
    requires Fits(c, cap) && Allowed(c, op) && forall r :: r in c.out ==> Proper(r)
    ensures forall r :: r in Do(c, op, cap).out ==> Proper(r)
  {
  }

  /**
   * For every interleaving of writes, flushes, raw writes and ends by any
   * requests, decoding the bytes sent and grouping the records by request id
   * gives, with what is still buffered, exactly what each request asked for in
   * order; no STDOUT record is empty, which would end a stream early.
   */
  lemma {:induction false} Delivered(ops: seq<Op>, c: Conn, cap: nat, id: u16)
    requires cap > 0 && Reaches(ops, c, cap)
    ensures Seen(c, id) == AskedAll(ops, id)
    ensures forall r :: r in c.out ==> Proper(r)
    ensures (forall r :: r in c.out ==> WellSized(r)) && Decode(EncodeAll(c.out)) == Some(c.out)
  {
    if ops != [] {
      var op := ops[|ops| - 1];
      var b :| Reaches(ops[..|ops| - 1], b, cap) && Fits(b, cap) && Allowed(b, op) && c == Do(b, op, cap);
      Delivered(ops[..|ops| - 1], b, cap, id);
      StepAdds(b, op, cap, id);
      DoProper(b, op, cap);
    }
    DecodeEncode(c.out);
  }

  /** After its END_REQUEST nothing of a request is left behind in a buffer. */
  lemma {:induction false} EndedComplete(ops: seq<Op>, c: Conn, cap: nat, id: u16)
    requires cap > 0 && Reaches(ops, c, cap) && id !in c.bufs
    ensures Project(c.out, id) == AskedAll(ops, id)
  {
    Delivered(ops, c, cap, id);
  }

  lemma {:induction false} Swapped(p: seq<Event>, x: seq<Event>, y: seq<Event>)
    ensures (p + x) + y == (p + y) + x <==> x + y == y + x
  {
    Assoc(p, x, y);
    Assoc(p, y, x);
    assert (p + (x + y))[|p|..] == x + y && (p + (y + x))[|p|..] == y + x;
  }

  lemma BytesOfInjective(a: seq<byte>, b: seq<byte>)
    requires BytesOf(a) == BytesOf(b)
    ensures a == b
  {
    assert |a| == |BytesOf(a)| == |BytesOf(b)| == |b|;
    forall i | 0 <= i < |a|
      ensures a[i] == b[i]
    {
      assert BytesOf(a)[i] == BytesOf(b)[i];
    }
  }

  /** Without the flush, a raw write overtakes what is buffered: the order is kept only if the two commute. */
  lemma {:induction false} RawNeedsFlush(c: Conn, w: u16, data: seq<byte>)
    requires w in c.bufs
    ensures Project(c.out + Frames(w, data), w) + BytesOf(c.bufs[w]) == Seen(c, w) + BytesOf(data)
            <==> data + c.bufs[w] == c.bufs[w] + data
  {
    var p, x, y := Project(c.out, w), BytesOf(data), BytesOf(c.bufs[w]);
    FramesEvents(w, data, w);
    ProjectAppend(c.out, Frames(w, data), w);
    BytesOfAppend(data, c.bufs[w]);
    BytesOfAppend(c.bufs[w], data);
    Swapped(p, x, y);
    if x + y == y + x { BytesOfInjective(data + c.bufs[w], c.bufs[w] + data); }
  }

  /**
   * The END_REQUEST of a refused role that names a live request overtakes what
   * that request has buffered: the order is kept only if there is nothing.
   */
  lemma {:induction false} RefuseNeedsEmpty(c: Conn, w: u16, app: byte, proto: byte)
    requires w in c.bufs
    ensures Seen(c.(out := c.out + [EndRecord(w, app, proto)]), w) == Seen(c, w) + Asked(Refuse(w, app, proto), w)
            <==> c.bufs[w] == []
  {
    if c.bufs[w] == [] {
      RefuseAdds(c, w, app, proto, w);
    } else {
      var p, e, y := Project(c.out, w), [Ended(app, proto)], BytesOf(c.bufs[w]);
      ProjectOne(c.out, EndRecord(w, app, proto), w);
      EndEvent(w, app, proto, w);
      assert (p + e + y)[|p|] == Ended(app, proto) && (p + y + e)[|p|] == Byte(c.bufs[w][0]);
    }
  }

  // ----------------------------------------------------------- the code's loops

  lemma {:induction false} FramesThenEnd(id: u16, data: seq<byte>, e: Record, out: seq<byte>)
    requires WellSized(e)
    ensures out + EncodeAll(Frames(id, data) + [e]) == (out + EncodeAll(Frames(id, data))) + Encode(e)
  {
    EncodeAllAppend(Frames(id, data), [e]);
    EncodeOne(e);
    Assoc(out, EncodeAll(Frames(id, data)), Encode(e));
  }

  /** A turn of clt_write sends the first of the frames that are left. */
  lemma {:induction false} FramesStep(id: u16, data: seq<byte>, avail: nat, out: seq<byte>)
    requires data != [] && avail == if |data| < MAX_CONTENT then |data| else MAX_CONTENT
    ensures out + EncodeAll(Frames(id, data)) ==
            (out + Encode(StdoutRecord(id, data[..avail]))) + EncodeAll(Frames(id, data[avail..]))
  {
    var first, rest := StdoutRecord(id, data[..avail]), Frames(id, data[avail..]);
    if |data| <= MAX_CONTENT {
      assert data[..avail] == data && data[avail..] == [];
    }
    assert Frames(id, data) == [first] + rest;
    EncodeAllAppend([first], rest);
    EncodeOne(first);
    Assoc(out, Encode(first), EncodeAll(rest));
  }

  lemma {:induction false} FramesAllFirst(id: u16, c: seq<byte>, cs: seq<seq<byte>>, out: seq<byte>)
    ensures out + EncodeAll(FramesAll(id, [c] + cs)) ==
            (out + EncodeAll(Frames(id, c))) + EncodeAll(FramesAll(id, cs))
  {
    assert ([c] + cs)[1..] == cs;
    EncodeAllAppend(Frames(id, c), FramesAll(id, cs));
    Assoc(out, EncodeAll(Frames(id, c)), EncodeAll(FramesAll(id, cs)));
  }

  /** The connection's output buffer. */
  class Output {
    var out: seq<byte>

    constructor ()
      ensures out == []
    {
      out := [];
    }

    /** dowrite. */
    method DoWrite(id: u16, data: seq<byte>)
      requires |data| <= MAX_CONTENT
      modifies this
      ensures out == old(out) + Encode(StdoutRecord(id, data))
    {
      out := out + [VERSION_1, STDOUT, id / 256, id % 256, |data| / 256, |data| % 256, 0, 0];
      out := out + data;
    }

    /** clt_write. */
    method CltWrite(id: u16, d: seq<byte>)
      modifies this
      ensures out == old(out) + EncodeAll(Frames(id, d))
    {
      var data := d;
      while |data| > 0
        invariant out + EncodeAll(Frames(id, data)) == old(out) + EncodeAll(Frames(id, d))
        decreases |data|
      {
        var avail := if |data| < MAX_CONTENT then |data| else MAX_CONTENT;
        FramesStep(id, data, avail, out);
        DoWrite(id, data[..avail]);
        data := data[avail..];
      }
    }

    /** fcgi_send_end_req: both statuses are cut to one byte. */
    method SendEndReq(id: u16, status: nat, proto: nat)
      modifies this
      ensures out == old(out) + Encode(EndRecord(id, status % 256, proto % 256))
    {
      out := out + [VERSION_1, END_REQUEST, id / 256, id % 256, 0, 8, 0, 0];
      out := out + [0, 0, 0, status % 256, proto % 256, 0, 0, 0];
      assert out == old(out) + Encode(EndRecord(id, status % 256, proto % 256));
    }

    /** template_flush with clt_write as the write function. */
    method FlushTo(id: u16, tp: Template<byte>)
      requires tp.Valid()
      modifies this, tp
      ensures tp.Valid() && tp.Pending() == []
      ensures out == old(out) + EncodeAll(Frames(id, old(tp.Pending())))
    {
      if tp.len != 0 {
        CltWrite(id, tp.buf[..tp.len]);
        tp.Flush();
      }
    }

    /** One turn of the tp_write loop with clt_write as the write function. */
    method WriteSomeTo(id: u16, tp: Template<byte>, str: seq<byte>) returns (rest: seq<byte>)
      requires tp.Valid() && str != []
      modifies this, tp, tp.buf
      ensures tp.Valid() && |rest| < |str|
      ensures var r := Fill(old(tp.Pending()), str, tp.buf.Length);
              var r' := Fill(tp.Pending(), rest, tp.buf.Length);
              && r'.1 == r.1
              && out + EncodeAll(FramesAll(id, r'.0)) == old(out) + EncodeAll(FramesAll(id, r.0))
    {
      var avail := tp.buf.Length - tp.len;
      ghost var o, was := out, tp.Pending();
      if avail == 0 {
        FlushTo(id, tp);
        avail := tp.buf.Length;
      }
      if |str| < avail { avail := |str|; }
      assert [] + str[..avail] == str[..avail];
      tp.Put(str[..avail]);
      rest := str[avail..];
      FramesAllFirst(id, was, Fill(tp.Pending(), rest, tp.buf.Length).0, o);
    }

    /** tp_write with clt_write as the write function. */
    method WriteTo(id: u16, tp: Template<byte>, data: seq<byte>)
      requires tp.Valid()
      modifies this, tp, tp.buf
      ensures tp.Valid() && tp.Pending() == Fill(old(tp.Pending()), data, tp.buf.Length).1
      ensures out == old(out) + EncodeAll(FramesAll(id, Fill(old(tp.Pending()), data, tp.buf.Length).0))
    {
      ghost var all := Fill(tp.Pending(), data, tp.buf.Length);
      var str := data;
      while |str| > 0
        invariant tp.Valid()
        invariant var r := Fill(tp.Pending(), str, tp.buf.Length);
                  r.1 == all.1 && out + EncodeAll(FramesAll(id, r.0)) == old(out) + EncodeAll(FramesAll(id, all.0))
        decreases |str|
      {
        str := WriteSomeTo(id, tp, str);
      }
    }

    /** end_request: what the template still holds, then the END_REQUEST record. */
    method EndRequest(id: u16, tp: Template<byte>, status: nat, proto: nat)
      requires tp.Valid()
      modifies this, tp
      ensures tp.Valid() && tp.Pending() == []
      ensures out == old(out) + EncodeAll(Frames(id, old(tp.Pending())) + [EndRecord(id, status % 256, proto % 256)])
    {
      FramesThenEnd(id, tp.Pending(), EndRecord(id, status % 256, proto % 256), out);
      FlushTo(id, tp);
      SendEndReq(id, status, proto);
    }
  }
}
