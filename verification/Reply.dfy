/**
 * From the upstream reply to the web server: however the reply is cut up and
 * whatever other requests send meanwhile, decoding the FastCGI stream gives
 * the request its page and one END_REQUEST.
 */
module Reply {
  import opened Common
  import B = Browser
  import D = DocumentText
  import opened FcgiOut
  import opened FcgiRecord
  import opened Gemtext
  import opened Html
  import opened Tmpl
  import P = ProxyRead
  import T = PageText

  /** Characters here are C chars: one byte each. */
  function Octets(s: string): seq<byte> {
    seq(|s|, i requires 0 <= i < |s| => s[i] as int % 256)
  }

  lemma OctetsAppend(a: string, b: string)
    ensures Octets(a + b) == Octets(a) + Octets(b)
  {
  }

  // ------------------------------------------------------------------ the whole text

  /** What has been written for a reply read so far. */
  function TextOf(r: P.Reading): string {
    match r
    case InGemtext(_, _, _, sent) => P.ContentType(P.HTML_TYPE) + Render(sent)
    case InBody(mime, body) => P.ContentType(mime) + body
    case _ => ""
  }

  /** What proxy_error writes at the end of the reply. */
  function LastText(r: P.Reading, conf: P.Conf): string {
    match r
    case InGemtext(hdr, _, f, _) => Render(AtEnd(f) + Foot(conf.pageOf(hdr)))
    case _ => ""
  }

  lemma {:induction false} RenderTail(a: string, x: seq<Piece>, y: seq<Piece>)
    ensures (a + Render(x)) + Render(y) == a + Render(x + y)
  {
    FlatMapAppend(x, y, PieceText);
    Assoc(a, Render(x), Render(y));
  }

  lemma {:induction false} GemtextText(
      hdr: string, digit: char, blanks: string, mime: string, body: string, chunks: seq<string>, conf: P.Conf)
    requires P.CrlfAt(hdr).None? && |hdr| <= 1024 && P.GemtextLine(hdr, digit, blanks, mime, conf)
    requires Concat(chunks) == hdr + "\r\n" + body
    ensures var r := P.FeedAll(P.AwaitHeader(""), chunks, conf);
            TextOf(r) + LastText(r, conf) ==
            P.ContentType(P.HTML_TYPE) + Render(Document(conf.pageOf(hdr), P.LinesOf(body), conf.site))
  {
    var r := P.FeedAll(P.AwaitHeader(""), chunks, conf);
    P.GemtextReply(hdr, digit, blanks, mime, body, chunks, conf);
    RenderTail(P.ContentType(P.HTML_TYPE), r.sent, AtEnd(r.f) + Foot(conf.pageOf(hdr)));
  }

  // ------------------------------------------------------ the request's own operations

  /** The operations of request `id` among all. */
  function Mine(ops: seq<Op>, id: u16): seq<Op> {
    if ops == [] then []
    else Mine(ops[..|ops| - 1], id) + if ops[|ops| - 1].id == id then [ops[|ops| - 1]] else []
  }

  lemma {:induction false} AskedAppend(a: seq<Op>, b: seq<Op>, id: u16)
    ensures AskedAll(a + b, id) == AskedAll(a, id) + AskedAll(b, id)
    decreases |b|
  {
    if b == [] {
      assert a + b == a;
    } else {
      var c := b[..|b| - 1];
      AskedAppend(a, c, id);
      assert (a + b)[..|a + b| - 1] == a + c;
      Assoc(AskedAll(a, id), AskedAll(c, id), Asked(b[|b| - 1], id));
    }
  }

  lemma AskedOne(op: Op, id: u16)
    ensures AskedAll([op], id) == Asked(op, id)
  {
    assert [op][..0] == [];
  }

  /** Other requests' operations ask nothing for this one. */
  lemma {:induction false} AskedMine(ops: seq<Op>, id: u16)
    ensures AskedAll(Mine(ops, id), id) == AskedAll(ops, id)
  {
    if ops != [] {
      var front, op := ops[..|ops| - 1], ops[|ops| - 1];
      AskedMine(front, id);
      if op.id == id {
        AskedAppend(Mine(front, id), [op], id);
        AskedOne(op, id);
      } else {
        assert Mine(front, id) + [] == Mine(front, id);
      }
    }
  }

  /** A text and one END_REQUEST with status 0. */
  ghost function Whole(text: string): seq<Event> {
    BytesOf(Octets(text)) + [Event.Ended(0, REQUEST_COMPLETE)]
  }

  /**
   * The operations under an id whose last request was begun, read its reply in
   * `chunks`, met the end of it and did `own` meanwhile; `before` are those of
   * earlier requests. Session.Serve shows that the code does such operations.
   */
  ghost predicate Serves(
    mine: seq<Op>, id: u16, before: seq<Op>, own: seq<Op>, chunks: seq<string>, conf: P.Conf)
  {
    var r := P.FeedAll(P.AwaitHeader(""), chunks, conf);
    mine == before + ([Op.Begin(id)] + own) && AskedAll(own, id) == Whole(TextOf(r) + LastText(r, conf))
  }

  /** Whatever else is sent on the connection, the request's records carry its text and then one END_REQUEST. */
  lemma {:induction false} ServedText(
    ops: seq<Op>, c: Conn, cap: nat, id: u16, before: seq<Op>, own: seq<Op>, chunks: seq<string>, conf: P.Conf)
    requires cap > 0 && Reaches(ops, c, cap) && id !in c.bufs
    requires Serves(Mine(ops, id), id, before, own, chunks, conf)
    ensures var r := P.FeedAll(P.AwaitHeader(""), chunks, conf);
            Project(c.out, id) == AskedAll(before, id) + Whole(TextOf(r) + LastText(r, conf))
  {
    EndedComplete(ops, c, cap, id);
    AskedMine(ops, id);
    AskedAppend(before, [Op.Begin(id)] + own, id);
    AskedAppend([Op.Begin(id)], own, id);
    AskedOne(Op.Begin(id), id);
    assert [] + AskedAll(own, id) == AskedAll(own, id);
  }

  /** The text of a page: its title and navigation, its lines, and the original URL. */
  function PageWords(pg: Page, lines: seq<string>): string {
    (D.TitleWords(pg) + D.NavWords(pg)) + (T.LinesWords(false, lines) + D.FootWords(pg))
  }

  /**
   * From end to end: for every way a gemtext reply arrives and every
   * interleaving with other requests, decoding the bytes on the connection
   * gives the request the page of its document, well nested, and one
   * END_REQUEST. A reader of the page sees the text of the lines, in order.
   */
  lemma {:induction false} GemtextDelivered(
    ops: seq<Op>, c: Conn, cap: nat, id: u16, before: seq<Op>, own: seq<Op>,
    hdr: string, digit: char, blanks: string, mime: string, body: string, chunks: seq<string>, conf: P.Conf)
    requires cap > 0 && Reaches(ops, c, cap) && id !in c.bufs
    requires Serves(Mine(ops, id), id, before, own, chunks, conf)
    requires P.CrlfAt(hdr).None? && |hdr| <= 1024 && P.GemtextLine(hdr, digit, blanks, mime, conf)
    requires Concat(chunks) == hdr + "\r\n" + body
    ensures var page := Render(Document(conf.pageOf(hdr), P.LinesOf(body), conf.site));
            && WellNested(page)
            && B.Words(B.Seen(page)) == PageWords(conf.pageOf(hdr), P.LinesOf(body))
            && (forall r :: r in c.out ==> WellSized(r)) && Decode(EncodeAll(c.out)) == Some(c.out)
            && Project(c.out, id) ==
               AskedAll(before, id) + Whole("Content-Type: " + "text/html;charset=utf-8" + "\r\n\r\n" + page)
  {
    FcgiOut.Delivered(ops, c, cap, id);
    ServedText(ops, c, cap, id, before, own, chunks, conf);
    GemtextText(hdr, digit, blanks, mime, body, chunks, conf);
    DocumentNests(conf.pageOf(hdr), P.LinesOf(body), conf.site);
    D.DocumentRead(conf.pageOf(hdr), P.LinesOf(body), conf.site);
  }

  /** The same for a reply that is not gemtext: its body arrives as it is. */
  lemma {:induction false} BodyDelivered(
    ops: seq<Op>, c: Conn, cap: nat, id: u16, before: seq<Op>, own: seq<Op>,
    hdr: string, digit: char, blanks: string, mime: string, body: string, chunks: seq<string>, conf: P.Conf)
    requires cap > 0 && Reaches(ops, c, cap) && id !in c.bufs
    requires Serves(Mine(ops, id), id, before, own, chunks, conf)
    requires P.CrlfAt(hdr).None? && |hdr| <= 1024 && P.BodyLine(hdr, digit, blanks, mime)
    requires Concat(chunks) == hdr + "\r\n" + body
    ensures (forall r :: r in c.out ==> WellSized(r)) && Decode(EncodeAll(c.out)) == Some(c.out)
    ensures Project(c.out, id) ==
            AskedAll(before, id) + Whole("Content-Type: " + mime + "\r\n\r\n" + body)
  {
    FcgiOut.Delivered(ops, c, cap, id);
    ServedText(ops, c, cap, id, before, own, chunks, conf);
    P.OtherReply(hdr, digit, blanks, mime, body, chunks, conf);
    var text := P.ContentType(mime) + body;
    assert text + "" == text;
  }

  // -------------------------------------------------------------------- the code

  /** A reading that has been answered stays so. */
  lemma {:induction false} EndedStays(chunks: seq<string>, i: nat, conf: P.Conf)
    requires i <= |chunks| && P.FeedAll(P.AwaitHeader(""), chunks[..i], conf).Ended?
    ensures P.FeedAll(P.AwaitHeader(""), chunks, conf).Ended?
    decreases |chunks| - i
  {
    if i == |chunks| {
      assert chunks[..i] == chunks;
    } else {
      assert chunks[..i + 1][..i] == chunks[..i];
      EndedStays(chunks, i + 1, conf);
    }
  }

  /** The operations that a template's calls of clt_write are. */
  ghost function Passed(id: u16, cs: seq<string>): seq<Op> {
    if cs == [] then [] else Passed(id, cs[..|cs| - 1]) + [Op.Raw(id, Octets(cs[|cs| - 1]))]
  }

  /** The records an operation sends for a request that has nothing buffered. */
  function Sends(op: Op): (rs: seq<Record>)
    ensures forall r :: r in rs ==> WellSized(r)
  {
    match op
    case Raw(id, data) => Frames(id, data)
    case End(id, app, proto) => [EndRecord(id, app, proto)]
    case _ => []
  }

  /** Their bytes. */
  function SentBy(op: Op): seq<byte> {
    EncodeAll(Sends(op))
  }

  /** On the connection, such an operation adds exactly these bytes. */
  lemma {:induction false} StepSends(c: Conn, op: Op, cap: nat)
    requires Fits(c, cap) && Allowed(c, op) && (op.Raw? || op.End?) && c.bufs[op.id] == []
    requires forall r :: r in c.out ==> WellSized(r)
    ensures var out := Do(c, op, cap).out;
            (forall r :: r in out ==> WellSized(r)) && EncodeAll(out) == EncodeAll(c.out) + SentBy(op)
  {
    assert Do(c, op, cap).out == c.out + Sends(op);
    EncodeAllAppend(c.out, Sends(op));
  }

  /** The operations `done` have been added to `own`, and what they send to `out`. */
  ghost predicate Progress(own: seq<Op>, own': seq<Op>, out: seq<byte>, out': seq<byte>, done: seq<Op>) {
    own' == own + done && out' == out + FlatMap(done, SentBy)
  }

  lemma NoProgress(own: seq<Op>, out: seq<byte>)
    ensures Progress(own, own, out, out, [])
  {
  }

  lemma {:induction false} ProgressTwice(
    own: seq<Op>, own': seq<Op>, own'': seq<Op>, out: seq<byte>, out': seq<byte>, out'': seq<byte>,
    a: seq<Op>, b: seq<Op>)
    requires Progress(own, own', out, out', a) && Progress(own', own'', out', out'', b)
    ensures Progress(own, own'', out, out'', a + b)
  {
    FlatMapAppend(a, b, SentBy);
    Assoc(out, FlatMap(a, SentBy), FlatMap(b, SentBy));
    Assoc(own, a, b);
  }

  lemma {:induction false} ProgressOne(own: seq<Op>, out: seq<byte>, op: Op)
    ensures Progress(own, own + [op], out, out + SentBy(op), [op])
  {
    FlatMapOne(op, SentBy);
  }

  lemma {:induction false} PassedNext(id: u16, cs: seq<string>, i: nat)
    requires i < |cs|
    ensures Passed(id, cs[..i + 1]) == Passed(id, cs[..i]) + [Op.Raw(id, Octets(cs[i]))]
  {
    assert cs[..i + 1][..i] == cs[..i];
  }

  lemma Joined(a: string, b: string)
    ensures BytesOf(Octets(a + b)) == BytesOf(Octets(a)) + BytesOf(Octets(b))
  {
    OctetsAppend(a, b);
    BytesOfAppend(Octets(a), Octets(b));
  }

  /** They ask for the text of the chunks. */
  lemma {:induction false} PassedText(id: u16, cs: seq<string>)
    ensures AskedAll(Passed(id, cs), id) == BytesOf(Octets(Concat(cs)))
  {
    if cs != [] {
      var front, last := cs[..|cs| - 1], cs[|cs| - 1];
      PassedText(id, front);
      ConcatLast(cs);
      Joined(Concat(front), last);
      AskedAppend(Passed(id, front), [Op.Raw(id, Octets(last))], id);
      AskedOne(Op.Raw(id, Octets(last)), id);
    }
  }

  /** With what is still in the template, and the end. */
  lemma {:induction false} EndedText(id: u16, cs: seq<string>, pending: string, ops: seq<Op>)
    requires ops == Passed(id, cs) + [Op.Raw(id, Octets(pending))] + [Op.End(id, 0, REQUEST_COMPLETE)]
    ensures AskedAll(ops, id) == Whole(Concat(cs) + pending)
  {
    var a, b, c := Passed(id, cs), [Op.Raw(id, Octets(pending))], [Op.End(id, 0, REQUEST_COMPLETE)];
    PassedText(id, cs);
    AskedAppend(a, b, id);
    AskedAppend(a + b, c, id);
    AskedOne(b[0], id);
    AskedOne(c[0], id);
    Joined(Concat(cs), pending);
  }

  /** A request between proxy_read and the connection: the template's write function is clt_write. */
  class Session {
    const id: u16
    const up: P.Upstream
    const out: Output
    /** How many of the template's chunks have been given to clt_write. */
    var given: nat
    /** The operations done so far. */
    ghost var own: seq<Op>

    constructor (id: u16, conf: P.Conf, out: Output, cap: nat)
      requires cap > 0
      ensures Valid() && this.id == id && this.out == out && up.conf == conf && own == []
      ensures up.State() == P.AwaitHeader("") && fresh(up) && fresh(up.tr) && fresh(up.tr.tp) && fresh(up.tr.tp.buf)
    {
      var tp := new Template<char>(cap);
      var tr := new Translator(tp, conf.site);
      this.id, this.out := id, out;
      up := new P.Upstream(conf, tr);
      given, own := 0, [];
    }

    /** Everything the template has handed on has been given to clt_write. */
    ghost predicate Given()
      reads this, up, up.tr, up.tr.tp
    {
      given == |up.tr.tp.chunks| && own == Passed(id, up.tr.tp.chunks)
    }

    ghost predicate Valid()
      reads this, up, up.tr, up.tr.tp, up.tr.tp.buf
    {
      up.Valid() && up.origin == "" && (!up.headersDone ==> up.body == "") && Given()
    }

    /** One call of clt_write. */
    method Give(data: string)
      modifies `own, out
      ensures own == old(own) + [Op.Raw(id, Octets(data))]
      ensures Progress(old(own), own, old(out.out), out.out, [Op.Raw(id, Octets(data))])
    {
      ghost var op := Op.Raw(id, Octets(data));
      ProgressOne(own, out.out, op);
      out.CltWrite(id, Octets(data));
      own := own + [op];
    }

    /** The calls of clt_write that the template makes meanwhile. */
    method PassOn(ghost was: seq<string>) returns (ghost done: seq<Op>)
      requires given == |was| && was <= up.tr.tp.chunks && own == Passed(id, was)
      modifies `given, `own, out
      ensures Given() && Progress(old(own), own, old(out.out), out.out, done)
    {
      var cs := up.tr.tp.chunks;
      done := [];
      assert cs[..given] == was;
      NoProgress(own, out.out);
      while given < |cs|
        invariant given <= |cs| && own == Passed(id, cs[..given])
        invariant Progress(old(own), own, old(out.out), out.out, done)
      {
        ghost var op, mid, sent := Op.Raw(id, Octets(cs[given])), own, out.out;
        PassedNext(id, cs, given);
        Give(cs[given]);
        ProgressTwice(old(own), mid, own, old(out.out), sent, out.out, done, [op]);
        done := done + [op];
        given := given + 1;
      }
      assert cs[..given] == cs;
    }

    /** What the template holds and has handed on is the text of the reading. */
    lemma TextWritten()
      requires Valid() && up.headersDone
      ensures up.tr.tp.Total() == TextOf(up.State())
    {
      assert forall s: string :: "" + s == s;
    }

    /** end_request: the template is flushed, the END_REQUEST follows. */
    method EndRequest(pending: string) returns (ghost done: seq<Op>)
      modifies `own, out
      ensures done == [Op.Raw(id, Octets(pending))] + [Op.End(id, 0, REQUEST_COMPLETE)]
      ensures Progress(old(own), own, old(out.out), out.out, done)
    {
      ghost var a, b := Op.Raw(id, Octets(pending)), Op.End(id, 0, REQUEST_COMPLETE);
      Give(pending);
      ghost var mid, sent := own, out.out;
      ProgressOne(mid, sent, b);
      EncodeOne(EndRecord(id, 0, REQUEST_COMPLETE));
      out.SendEndReq(id, 0, REQUEST_COMPLETE);
      own := own + [b];
      ProgressTwice(old(own), mid, own, old(out.out), sent, out.out, [a], [b]);
      done := [a] + [b];
    }

    /** More of the reply arrives: proxy_read, writing through the template and clt_write. */
    method Receive(chunk: string) returns (a: Option<P.Answer>, ghost done: seq<Op>)
      requires Valid()
      modifies this, up, up.tr, up.tr.tp, up.tr.tp.buf, out
      ensures match P.Feed(old(up.State()), chunk, up.conf)
              case Ended(answer) => a == Some(answer)
              case r => a == None && Valid() && up.State() == r
      ensures Progress(old(own), own, old(out.out), out.out, done)
    {
      ghost var was := up.tr.tp.chunks;
      a := up.Receive(chunk);
      done := PassOn(was);
    }

    /** proxy_error, up to the end of the request. */
    method Close() returns (ghost done: seq<Op>)
      requires Valid() && up.headersDone
      modifies this, up.tr, up.tr.tp, up.tr.tp.buf, out
      ensures Given() && up.tr.tp.Valid()
      ensures up.tr.tp.Total() == TextOf(old(up.State())) + LastText(old(up.State()), up.conf)
      ensures Progress(old(own), own, old(out.out), out.out, done)
    {
      ghost var was := up.tr.tp.chunks;
      TextWritten();
      up.Finish();
      done := PassOn(was);
    }

    /** The reply is over: proxy_error, then end_request. */
    method Finish() returns (ghost done: seq<Op>)
      requires Valid() && up.headersDone
      modifies this, up.tr, up.tr.tp, up.tr.tp.buf, out
      ensures AskedAll(own, id) == Whole(TextOf(old(up.State())) + LastText(old(up.State()), up.conf))
      ensures Progress(old(own), own, old(out.out), out.out, done)
    {
      done := Close();
      ghost var mid, sent, cs := own, out.out, up.tr.tp.chunks;
      var pending := up.tr.tp.buf[..up.tr.tp.len];
      ghost var more := EndRequest(pending);
      ProgressTwice(old(own), mid, own, old(out.out), sent, out.out, done, more);
      done := done + more;
      Assoc(mid, [Op.Raw(id, Octets(pending))], [Op.End(id, 0, REQUEST_COMPLETE)]);
      EndedText(id, cs, pending, own);
    }

    /** A reply so far, in whatever pieces it arrives; an answer ends it. */
    method ReceiveAll(chunks: seq<string>) returns (a: Option<P.Answer>)
      requires Valid() && up.State() == P.AwaitHeader("") && own == []
      modifies this, up, up.tr, up.tr.tp, up.tr.tp.buf, out
      ensures a.Some? <==> P.FeedAll(P.AwaitHeader(""), chunks, up.conf).Ended?
      ensures a.None? ==> Valid() && up.State() == P.FeedAll(P.AwaitHeader(""), chunks, up.conf)
      ensures Progress([], own, old(out.out), out.out, own)
    {
      var i := 0;
      a := None;
      NoProgress(own, out.out);
      while i < |chunks| && a.None?
        invariant 0 <= i <= |chunks| && Progress([], own, old(out.out), out.out, own)
        invariant a.None? ==> Valid() && up.State() == P.FeedAll(P.AwaitHeader(""), chunks[..i], up.conf)
        invariant a.Some? ==> P.FeedAll(P.AwaitHeader(""), chunks[..i], up.conf).Ended?
      {
        ghost var done, was, sent := [], own, out.out;
        P.FeedNext(chunks, i, up.conf);
        a, done := Receive(chunks[i]);
        ProgressTwice([], was, own, old(out.out), sent, out.out, was, done);
        i := i + 1;
      }
      if a.Some? { EndedStays(chunks, i, up.conf); } else { assert chunks[..i] == chunks; }
    }

    /**
     * A whole reply, up to its end. Unless it is answered with another page, or
     * has no header line, what the request does meanwhile serves it.
     */
    method Serve(chunks: seq<string>) returns (a: Option<P.Answer>)
      requires Valid() && up.State() == P.AwaitHeader("") && own == []
      modifies this, up, up.tr, up.tr.tp, up.tr.tp.buf, out
      ensures a.Some? <==> P.FeedAll(P.AwaitHeader(""), chunks, up.conf).Ended?
      ensures var r := P.FeedAll(P.AwaitHeader(""), chunks, up.conf);
              r.InGemtext? || r.InBody? ==>
                && Serves([Op.Begin(id)] + own, id, [], own, chunks, up.conf)
                && Progress([], own, old(out.out), out.out, own)
    {
      a := ReceiveAll(chunks);
      if a.None? && up.headersDone {
        ghost var was, sent := own, out.out;
        ghost var done := Finish();
        ProgressTwice([], was, own, old(out.out), sent, out.out, was, done);
      }
    }
  }
}
