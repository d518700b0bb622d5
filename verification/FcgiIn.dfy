/**
 * The way in: what each record does to the connection and the request it
 * names, and the code of fcgi_read that does it.
 */
module FcgiIn {
  import opened Common
  import opened FcgiFraming
  import opened FcgiRecord
  import opened FcgiParams

  const RESPONDER := 1
  const UNKNOWN_ROLE: byte := 3
  const FORM_MAX := 2047
  const AMPERSAND: byte := 38
  const CR: byte := 13

  // --------------------------------------------------------------- connections

  /** A live request; `lookups` counts the upstream operations begun for it. */
  datatype Slot = Slot(clt: Client, lookups: nat)

  datatype End = End(id: u16, app: byte, proto: byte)

  /** What a request is answered with on the spot. */
  datatype Reply =
    | ErrorPage(status: nat, reason: string)
    | Redirect(script: Option<seq<byte>>, rest: seq<byte>)

  /**
   * A connection between two records; `ends` are the END_REQUEST records
   * written, `pages` the replies written before them.
   */
  datatype Conn = Conn(
    keep: bool, done: bool, clients: map<u16, Slot>, ends: seq<End>, pages: seq<(u16, Reply)>)

  /** The hosts the server is configured for, and how parameters set the fields of a client. */
  datatype Env = Env(hosts: set<seq<byte>>, setting: Setting)

  const NEW_CLIENT := Client(None, None, None, None, UnknownMethod, None, 0, false)

  /** fcgi_end_request: one END_REQUEST record, and the request is gone. */
  function Finish(k: Conn, id: u16, app: byte, proto: byte): Conn {
    Conn(k.keep, k.done || !k.keep, k.clients - {id}, k.ends + [End(id, app, proto)], k.pages)
  }

  /** What proxy_start_request answers on the spot; None when it goes on to look up the upstream host. */
  function ReplyTo(c: Client, env: Env): Option<Reply> {
    if c.path.None? then Some(ErrorPage(501, "internal server error"))
    else if c.server.None? || c.server.value !in env.hosts then Some(ErrorPage(501, "unknown server"))
    else if c.bodyLen != 0 && c.body.None? then Some(ErrorPage(400, "bad request"))
    else if c.body.Some? then Some(Redirect(c.script, Drain(c.path.value, 1) + Str("?") + c.body.value))
    else None
  }

  function Start(k: Conn, id: u16, env: Env): Conn
    requires id in k.clients
  {
    var s := k.clients[id];
    match ReplyTo(s.clt, env)
    case None => k.(clients := k.clients[id := s.(lookups := s.lookups + 1)])
    case Some(reply) => Finish(k.(pages := k.pages + [(id, reply)]), id, 1, REQUEST_COMPLETE)
  }

  // ------------------------------------------------------------ form bodies

  /** Up to the next '&', else the next carriage return. */
  function UpToMark(s: seq<byte>): (seq<byte>, bool) {
    if AMPERSAND in s then (s[..IndexOf(s, AMPERSAND)], true)
    else if CR in s then (s[..IndexOf(s, CR)], true)
    else (s, false)
  }

  /** What follows the first "q=". */
  function AfterQuery(s: seq<byte>): Option<seq<byte>> {
    if |s| < 2 then None
    else if s[..2] == Str("q=") then Some(s[2..])
    else AfterQuery(s[1..])
  }

  /** fcgi_parse_form on the bytes it has copied out. */
  function Form(c: Client, data: seq<byte>): Client {
    var tmp := CStr(data);
    if c.bodyDone then c
    else if c.bodyLen > GEMINI_MAXLEN then c.(body := None)
    else if c.body.Some? then
      var (t, end) := UpToMark(tmp);
      c.(body := Some(c.body.value + t), bodyLen := c.bodyLen + |t|, bodyDone := end)
    else if c.bodyLen != 0 then c
    else
      match AfterQuery(tmp)
      case None => c
      case Some(s) =>
        var (t, end) := UpToMark(s);
        c.(body := Some(t), bodyLen := |t|, bodyDone := end)
  }

  function FormPart(content: seq<byte>): seq<byte> {
    if |content| <= FORM_MAX then content else content[..FORM_MAX]
  }

  // ------------------------------------------------------------------ one record

  function HandleBegin(k: Conn, id: u16, content: seq<byte>): Outcome<Conn> {
    if |content| != 8 then Dead
    else if Cat(content[1], content[0]) != RESPONDER then Live(k.(ends := k.ends + [End(id, 1, UNKNOWN_ROLE)]), 8)
    else if !k.keep then Dead
    else
      var k' := k.(keep := content[2] % 2 == 1);
      if id in k.clients then Live(k', 8) else Live(k'.(clients := k.clients[id := Slot(NEW_CLIENT, 0)]), 8)
  }

  function HandleParams(k: Conn, id: u16, src: seq<byte>, toread: nat, env: Env): Outcome<Conn>
    requires id in k.clients
  {
    var s := k.clients[id];
    if toread == 0 then
      if s.clt.meth == Get then Live(Start(k, id, env), 0) else Live(k, 0)
    else
      match Params(src, toread, s.clt, env.setting)
      case Done(c, n) => Live(k.(clients := k.clients[id := s.(clt := c)]), n)
      case Failed => Dead
      case Unknown => Outcome.Unknown
  }

  function HandleStdin(k: Conn, id: u16, content: seq<byte>, env: Env): Outcome<Conn>
    requires id in k.clients
  {
    var s := k.clients[id];
    if content == [] then
      Live(Start(k.(clients := k.clients[id := s.(clt := s.clt.(bodyDone := true))]), id, env), 0)
    else
      Live(k.(clients := k.clients[id := s.(clt := Form(s.clt, FormPart(content)))]), |FormPart(content)|)
  }

  predicate ReadsStdin(k: Conn, id: u16) {
    id in k.clients && k.clients[id].clt.meth == Post
  }

  /** What a record does, its content being the first `toread` bytes of `src`. */
  function Handle(k: Conn, typ: byte, id: u16, src: seq<byte>, toread: nat, env: Env): Outcome<Conn> {
    if typ == BEGIN_REQUEST then HandleBegin(k, id, InSight(src, toread))
    else if typ == PARAMS && id in k.clients then HandleParams(k, id, src, toread, env)
    else if typ == STDIN && ReadsStdin(k, id) then HandleStdin(k, id, InSight(src, toread), env)
    else if typ == ABORT_REQUEST && id in k.clients then Live(Finish(k, id, 1, REQUEST_COMPLETE), 0)
    else Live(k, toread)
  }

  function Reader(env: Env): Handler<Conn> {
    Handler((k, typ, id, src, toread) => Handle(k, typ, id, src, toread, env))
  }

  /** Parameters on which the loop ends the same whatever follows them. */
  ghost predicate Settled(content: seq<byte>) {
    Accepted(content) || TurnedDown(content, PairAt)
  }

  lemma {:induction false} SettledKnown(content: seq<byte>, c: Client, f: Setting)
    ensures Settled(content) <==> !Params(content, |content|, c, f).Unknown?
    ensures Params(content, |content|, c, f).Done? ==> Params(content, |content|, c, f).taken == |content|
  {
    PairAtLawful();
    UnknownIff(content, c, Grammar(f));
    DoneIff(content, c, Grammar(f));
  }

  lemma {:induction false} SameParams(content: seq<byte>, tail: seq<byte>, c: Client, f: Setting)
    requires Settled(content)
    ensures Params(content + tail, |content|, c, f) == Params(content, |content|, c, f)
  {
    SettledKnown(content, c, f);
    PairAtLawful();
    WalkMore(content, tail, |content|, c, Grammar(f));
  }

  lemma InSightAll(s: seq<byte>, tail: seq<byte>)
    ensures InSight(s + tail, |s|) == s && InSight(s, |s|) == s
  {
  }

  lemma SameInSight(k: Conn, r: Record, tail: seq<byte>, env: Env)
    requires r.typ == PARAMS && r.id in k.clients ==> Settled(r.content)
    ensures Handle(k, r.typ, r.id, r.content + tail, |r.content|, env) == Does(k, r, Reader(env))
  {
    InSightAll(r.content, tail);
    if r.typ == PARAMS && r.id in k.clients {
      SameParams(r.content, tail, k.clients[r.id].clt, env.setting);
    }
  }

  lemma {:induction false} ParamsUnknown(k: Conn, r: Record, env: Env)
    requires r.typ == PARAMS && r.id in k.clients
    ensures var c := k.clients[r.id].clt;
            Does(k, r, Reader(env)).Unknown? <==> Params(r.content, |r.content|, c, env.setting).Unknown?
  {
  }

  /**
   * A record is handled for itself, and taken off the input whole or refused,
   * exactly when it is no POST body beyond 2047 bytes, no abort of a live
   * request with a content, and no parameters for one other than encoded pairs
   * that are tame, or encoded pairs and a rest that is refused after them.
   */
  lemma {:induction false} ExactWhen(k: Conn, r: Record, env: Env)
    ensures Exact(k, r, Reader(env)) <==>
            && (r.typ == STDIN && ReadsStdin(k, r.id) ==> |r.content| <= 2047)
            && (r.typ == ABORT_REQUEST && r.id in k.clients ==> r.content == [])
            && (r.typ == PARAMS && r.id in k.clients ==> Settled(r.content))
  {
    InSightAll(r.content, []);
    if r.typ == PARAMS && r.id in k.clients {
      SettledKnown(r.content, k.clients[r.id].clt, env.setting);
      ParamsUnknown(k, r, env);
    }
    if r.typ == PARAMS && r.id in k.clients ==> Settled(r.content) {
      forall tail: seq<byte>
        ensures DoesBefore(k, r, tail, Reader(env)) == Does(k, r, Reader(env))
      {
        SameInSight(k, r, tail, env);
      }
    }
  }

  /** Records within the three limits of the reader, whatever the connection is doing. */
  ghost predicate Plain(r: Record) {
    && (r.typ == STDIN ==> |r.content| <= 2047)
    && (r.typ == ABORT_REQUEST ==> r.content == [])
    && (r.typ == PARAMS ==> Accepted(r.content))
  }

  lemma {:induction false} PlainExact(k: Conn, rs: seq<Record>, env: Env)
    requires forall r :: r in rs ==> Plain(r)
    ensures AllExact(k, rs, Reader(env))
    decreases |rs|
  {
    if rs != [] {
      var r := rs[0];
      assert Plain(r);
      ExactWhen(k, r, env);
      match Does(k, r, Reader(env))
      case Live(k', _) => PlainExact(k', rs[1..], env);
      case _ =>
    }
  }

  /**
   * For every sequence of plain records and every way of cutting its bytes up
   * that keeps padding with its content, the connection ends as if each record
   * had been handled whole, once and in order.
   */
  lemma {:induction false} ReadInOrder(k: Conn, rs: seq<Record>, chunks: seq<seq<byte>>, env: Env)
    requires AllSized(rs) && forall r :: r in rs ==> Plain(r)
    requires GoodCuts(rs, chunks) && Concat(chunks) == EncodeAll(rs)
    ensures FeedAll(Running(AtHeader([], k)), chunks, Reader(env)) == HandleAll(k, rs, Reader(env))
  {
    PlainExact(k, rs, env);
    Segmentation(k, rs, chunks, Reader(env));
  }

  // -------------------------------------------------------------------- the code

  /** A turn of the loop on a body that is all there. */
  lemma LoopBodyTurn(src: seq<byte>, toread: u16, padding: byte, typ: byte, id: u16, k: Conn, env: Env)
    requires |src| >= toread
    ensures Loop(AtBody(src, toread, padding, typ, id, k), Reader(env)) ==
            match Handle(k, typ, id, src, toread, env)
            case Live(k', n) => Loop(AtHeader(Drain(Drain(src, n), padding), k'), Reader(env))
            case o => Between(o)
  {
  }

  /** What parse_len has made of one of the lengths. */
  ghost predicate IsLen(len: Len, n: nat, top: nat, there: bool) {
    len.Range? && len.low == n && len.high == top && len.there == there
  }

  datatype Want = RecordHeader | RecordBody

  /** struct fcgi, with its unread input and the END_REQUEST records written. */
  class Fcgi {
    const env: Env
    var src: seq<byte>
    var want: Want
    var toread: int
    var padding: byte
    var typ: byte
    var recId: u16
    var keepConn: bool
    var done: bool
    var clients: map<u16, Slot>
    var ends: seq<End>
    var pages: seq<(u16, Reply)>

    /** fcgi_accept. */
    constructor (env: Env)
      ensures Valid() && this.env == env
      ensures State() == AtHeader([], Conn(true, false, map[], [], []))
    {
      this.env := env;
      src, want, toread, padding, typ, recId := [], RecordHeader, HEADER_LEN, 0, 0, 0;
      keepConn, done, clients, ends, pages := true, false, map[], [], [];
    }

    ghost predicate Valid()
      reads this
    {
      0 <= toread <= MAX_CONTENT && (want.RecordHeader? ==> toread == HEADER_LEN)
    }

    ghost function Connection(): Conn
      reads this
    {
      Conn(keepConn, done, clients, ends, pages)
    }

    ghost function State(): State<Conn>
      reads this
      requires Valid()
    {
      if want.RecordHeader? then AtHeader(src, Connection())
      else AtBody(src, toread, padding, typ, recId, Connection())
    }

    /**
     * parse_len. Bytes that have not arrived are whatever the variable holds:
     * the length is then `n` to `top`. Bad: it returns -1. Astray: it may take
     * one byte or four.
     */
    method ParseLen() returns (st: Status, n: nat, top: nat, there: bool)
      requires toread >= 0
      modifies this`src, this`toread
      ensures match LenAt(old(src), old(toread))
              case Refused => st == Bad
              case Ambiguous => st == Astray
              case Range(low, high, i, known) =>
                && st == Good && n == low && top == high && there == known
                && toread == old(toread) - i && src == Drain(old(src), i)
    {
      st, n, top, there := Good, 0, 127, false;
      toread := toread - 1;
      if |src| == 0 {
        if toread >= 3 { st := Astray; }
        return;
      }
      var c := src[0];
      src := src[1..];
      if c < 128 { return Good, c, c, true; }
      if toread < 3 { return Bad, 0, 0, true; }
      toread := toread - 3;
      there := |src| >= 3;
      if there {
        var x := [c] + src[..3];
        assert x == old(src)[..4];
        n, top := Wide(x), Wide(x);
      } else {
        assert [c] + src == old(src);
        n, top := Wide(Filled([c] + src, 0)), Wide(Filled([c] + src, 255));
      }
      src := Drain(src, 3);
    }

    /** Both lengths of a pair are read, its name, its value and `rest` come next. */
    ghost predicate AtPair(p: Pair, rest: seq<byte>, nlen: int, vlen: int)
      reads this
    {
      nlen == |p.name| && vlen == |p.value| && toread >= nlen + vlen && src == (p.name + p.value) + rest
    }

    /** Where the two calls of parse_len and the test after them lead. */
    ghost predicate LensRead(item: Item, all: seq<byte>, most: nat, st: Status, nlen: int, vlen: int)
      reads this
    {
      match item
      case Reject => st == Bad
      case Lost => st == Astray
      case Partly(left) => st == if left == 1 then Bad else Astray
      case Got(p, k) =>
        && st == Good && 0 < k <= |all| && k <= most
        && AtPair(p, all[k..], nlen, vlen) && toread == most - k + nlen + vlen
    }

    /**
     * The test that the pair is all there. Where its bytes have not all arrived
     * the loop goes on with none, and with one left on the counter it fails.
     */
    method CheckSum(nlen: nat, vlen: nat, top: nat, there: bool,
                    ghost name: Len, ghost value: Len, ghost all: seq<byte>, ghost most: nat)
      returns (st: Status)
      requires name.Range? && value.Range? && nlen == name.low && vlen == value.low && top == name.high + value.high
      requires there == (name.there && value.there)
      requires toread == most - name.size - value.size && src == Drain(all, name.size + value.size)
      requires there ==> 0 < name.size + value.size <= |all|
      ensures LensRead(PairAfter(src, name, value, toread), all, most, st, nlen, vlen)
    {
      if top >= INT_LIMIT { return Astray; }
      if toread < nlen + vlen { return Bad; }
      if !there { return Astray; }
      if |src| < nlen + vlen {
        return if toread - nlen - vlen + OffBy(nlen, vlen) == 1 then Bad else Astray;
      }
      TakeTake(src, nlen, vlen);
      DropDrop(all, name.size + value.size, nlen + vlen);
      st := Good;
    }

    /** The second call of parse_len, after the length `name`, and the test. */
    method ParseValueLen(nlen: nat, top: nat, there: bool, ghost name: Len, ghost all: seq<byte>, ghost most: nat)
      returns (st: Status, vlen: nat)
      requires IsLen(name, nlen, top, there) && name.size <= most && src == Drain(all, name.size)
      requires toread == most - name.size && 0 < name.size && (there ==> name.size <= |all|)
      modifies this`src, this`toread
      ensures LensRead(PairWith(all, most, name), all, most, st, nlen, vlen)
    {
      ghost var value := LenAt(src, toread);
      var vtop, vthere;
      st, vlen, vtop, vthere := ParseLen();
      if st == Good {
        DrainDrain(all, name.size, value.size);
        st := CheckSum(nlen, vlen, top + vtop, there && vthere, name, value, all, most);
      }
    }

    /** Both calls of parse_len and the test that the pair is all there. */
    method ParseLens() returns (st: Status, nlen: nat, vlen: nat)
      requires toread > 0
      modifies this`src, this`toread
      ensures LensRead(PairAt(old(src), old(toread)), old(src), old(toread), st, nlen, vlen)
    {
      ghost var all, most := src, toread;
      var top, there;
      st, nlen, top, there := ParseLen();
      vlen := 0;
      if st == Good {
        st, vlen := ParseValueLen(nlen, top, there, LenAt(all, most), all, most);
      }
    }

    /** Both evbuffer_remove calls of one pair. */
    method TakeBytes(nlen: int, vlen: int, ghost p: Pair, ghost rest: seq<byte>)
      returns (name: seq<byte>, value: seq<byte>)
      requires AtPair(p, rest, nlen, vlen)
      modifies this`src, this`toread
      ensures name == p.name && value == p.value && toread == old(toread) - nlen - vlen && src == rest
    {
      ThreeParts(p.name, p.value, rest);
      name, value := src[..nlen], src[nlen..nlen + vlen];
      toread := toread - nlen - vlen;
      src := src[nlen + vlen..];
    }

    /** A pair whose name does not fit is drained, and the counter adjusted. */
    method SkipPair(nlen: int, vlen: int, ghost p: Pair, ghost rest: seq<byte>)
      requires AtPair(p, rest, nlen, vlen)
      modifies this`src, this`toread
      ensures toread == old(toread) - nlen + vlen && src == rest
    {
      ThreeParts(p.name, p.value, rest);
      toread := toread - (nlen - vlen);
      src := src[nlen + vlen..];
    }

    method TakePair(clt: Client, nlen: int, vlen: int, ghost p: Pair, ghost rest: seq<byte>) returns (c: Client)
      requires AtPair(p, rest, nlen, vlen)
      modifies this`src, this`toread
      ensures c == OneParam(clt, p, env.setting) && src == rest
      ensures toread == old(toread) - nlen - vlen + Off(p)
    {
      c := clt;
      if nlen > NAME_MAX {
        SkipPair(nlen, vlen, p, rest);
      } else {
        var name, value := TakeBytes(nlen, vlen, p, rest);
        c := env.setting(c, name, value);
      }
    }

    /** Where the parameter loop is. */
    ghost function Now(c: Client): Point<Client>
      reads this
    {
      Point(src, if toread < 0 then 0 else toread, c)
    }

    /** One turn of the loop of fcgi_parse_params. */
    method ParseParam(clt: Client) returns (st: Status, c: Client)
      requires toread > 0
      modifies this`src, this`toread
      ensures st == Good ==> toread >= 0
      ensures Turn(old(Now(clt)), st, Now(c), Grammar(env.setting))
    {
      ghost var all, item := src, PairAt(src, toread);
      var nlen, vlen;
      c := clt;
      st, nlen, vlen := ParseLens();
      if st == Good {
        c := TakePair(clt, nlen, vlen, item.p, all[item.size..]);
      }
    }

    /** A turn of the loop, `turns` turns after `start`. */
    method ParseTurn(clt: Client, ghost start: Point<Client>, ghost turns: nat) returns (st: Status, c: Client)
      requires toread > 0 && Reached(start, turns, Now(clt), Grammar(env.setting))
      modifies this`src, this`toread
      ensures st == Good ==> toread >= 0 && |src| < |old(src)|
      ensures st == Good ==> Reached(start, turns + 1, Now(c), Grammar(env.setting))
      ensures st != Good ==>
                Ended(start, st, Now(c), Grammar(env.setting))
    {
      ghost var at := Now(clt);
      st, c := ParseParam(clt);
      ghost var to := Now(c);
      if st == Good {
        ReachedTurn(start, turns, at, to, Grammar(env.setting));
      } else {
        ReachedStop(start, turns, at, st, to, Grammar(env.setting));
      }
    }

    /** fcgi_parse_params: where the loop ends, for any input, and what it has then taken off. */
    method ParseParams(clt: Client) returns (st: Status, c: Client)
      requires toread >= 0
      modifies this`src, this`toread
      ensures st == Good ==> toread >= 0
      ensures Ended(old(Now(clt)), st, Now(c), Grammar(env.setting))
    {
      c := clt;
      ghost var start: Point<Client>, turns: nat := Now(clt), 0;
      ReachedStart(start, Grammar(env.setting));
      while toread > 0
        invariant toread >= 0 && Reached(start, turns, Now(c), Grammar(env.setting))
        decreases |src|
      {
        st, c := ParseTurn(c, start, turns);
        if st != Good {
          return;
        }
        turns := turns + 1;
      }
      ReachedEnd(start, turns, Now(c), Grammar(env.setting));
      st := Good;
    }

    /** fcgi_end_request, as far as the connection is concerned. */
    method EndRequest(id: u16, app: byte, proto: byte)
      requires id in clients
      modifies this`ends, this`clients, this`done
      ensures Connection() == Finish(old(Connection()), id, app, proto)
    {
      ends := ends + [End(id, app, proto)];
      clients := clients - {id};
      if !keepConn {
        done := true;
      }
    }

    /** A reply, then the end of the request. */
    method Answer(id: u16, reply: Reply)
      requires id in clients
      modifies this`ends, this`clients, this`done, this`pages
      ensures Connection() == Finish(old(Connection()).(pages := old(pages) + [(id, reply)]), id, 1, REQUEST_COMPLETE)
    {
      pages := pages + [(id, reply)];
      EndRequest(id, 1, REQUEST_COMPLETE);
    }

    /** proxy_start_request: every way of not needing the upstream host answers and ends the request at once. */
    method StartRequest(id: u16)
      requires id in clients
      modifies this`ends, this`clients, this`done, this`pages
      ensures Connection() == Start(old(Connection()), id, env)
    {
      var c := clients[id].clt;
      if c.path.None? {
        Answer(id, ErrorPage(501, "internal server error"));
      } else if c.server.None? || c.server.value !in env.hosts {
        Answer(id, ErrorPage(501, "unknown server"));
      } else if c.bodyLen != 0 && c.body.None? {
        Answer(id, ErrorPage(400, "bad request"));
      } else if c.body.Some? {
        Answer(id, Redirect(c.script, Drain(c.path.value, 1) + Str("?") + c.body.value));
      } else {
        clients := clients[id := clients[id].(lookups := clients[id].lookups + 1)];
      }
    }

    /** A BEGIN_REQUEST record. */
    method BeginRequest() returns (st: Status)
      requires 0 <= toread <= |src|
      modifies this`src, this`keepConn, this`clients, this`ends
      ensures match HandleBegin(old(Connection()), recId, InSight(old(src), toread))
              case Live(k, n) => st == Good && Connection() == k && src == Drain(old(src), n)
              case _ => st == Bad
    {
      if toread != 8 {
        return Bad;
      }
      var breq := src[..8];
      src := src[8..];
      if Cat(breq[1], breq[0]) != RESPONDER {
        ends := ends + [End(recId, 1, UNKNOWN_ROLE)];
        return Good;
      }
      if !keepConn {
        return Bad;
      }
      keepConn := breq[2] % 2 == 1;
      if recId !in clients {
        clients := clients[recId := Slot(NEW_CLIENT, 0)];
      }
      st := Good;
    }

    /** A PARAMS record for a live request. */
    method GotParams() returns (st: Status)
      requires recId in clients && toread >= 0
      modifies this`src, this`toread, this`clients, this`ends, this`done, this`pages
      ensures match HandleParams(old(Connection()), recId, old(src), old(toread), env)
              case Live(k, n) => st == Good && Connection() == k && src == Drain(old(src), n)
              case Dead => st == Bad
              case Unknown => st == Astray
    {
      if toread == 0 {
        assert Drain(src, 0) == src;
        if clients[recId].clt.meth == Get {
          StartRequest(recId);
        }
        return Good;
      }
      var c;
      st, c := ParseParams(clients[recId].clt);
      if st == Good {
        clients := clients[recId := clients[recId].(clt := c)];
      }
    }

    /** fcgi_parse_form, on a STDIN record of a POST request. */
    method ParseForm()
      requires recId in clients && 0 <= toread <= |src|
      modifies this`src, this`toread, this`clients, this`ends, this`done, this`pages
      ensures match HandleStdin(old(Connection()), recId, InSight(old(src), old(toread)), env)
              case Live(k, n) => Connection() == k && src == Drain(old(src), n)
              case _ => false
    {
      var slot := clients[recId];
      if toread == 0 {
        assert InSight(src, 0) == [] && Drain(src, 0) == src;
        clients := clients[recId := slot.(clt := slot.clt.(bodyDone := true))];
        StartRequest(recId);
        return;
      }
      var len := if FORM_MAX > toread then toread else FORM_MAX;
      assert InSight(src, toread) != [] && src[..len] == FormPart(InSight(src, toread));
      toread := toread - len;
      var tmp := src[..len];
      src := src[len..];
      clients := clients[recId := slot.(clt := Form(slot.clt, tmp))];
    }

    /** The switch on the record type. */
    method Dispatch() returns (st: Status)
      requires 0 <= toread <= |src|
      modifies this`src, this`toread, this`keepConn, this`clients, this`ends, this`done, this`pages
      ensures match Handle(old(Connection()), typ, recId, old(src), old(toread), env)
              case Live(k, n) => st == Good && Connection() == k && src == Drain(old(src), n)
              case Dead => st == Bad
              case Unknown => st == Astray
    {
      if typ == BEGIN_REQUEST {
        st := BeginRequest();
      } else if typ == PARAMS && recId in clients {
        st := GotParams();
      } else if typ == STDIN && recId in clients && clients[recId].clt.meth == Post {
        ParseForm();
        st := Good;
      } else if typ == ABORT_REQUEST && recId in clients {
        EndRequest(recId, 1, REQUEST_COMPLETE);
        assert Drain(src, 0) == src;
        st := Good;
      } else {
        src := src[toread..];
        st := Good;
      }
    }

    /** Taking off a header. */
    method ReadHeader() returns (ok: bool)
      requires Valid() && want.RecordHeader? && |src| >= HEADER_LEN
      modifies this`src, this`want, this`toread, this`padding, this`typ, this`recId
      ensures ok == (old(src)[0] == VERSION_1)
      ensures ok ==> Valid() && want.RecordBody? && src == old(src)[HEADER_LEN..]
      ensures ok ==> Loop(old(State()), Reader(env)) == Loop(State(), Reader(env))
    {
      want := RecordBody;
      var hdr := src[..HEADER_LEN];
      src := src[HEADER_LEN..];
      if hdr[0] != VERSION_1 {
        return false;
      }
      toread := Cat(hdr[5], hdr[4]);
      padding := hdr[6];
      typ := hdr[1];
      recId := Cat(hdr[3], hdr[2]);
      ok := true;
    }

    /** Handling a body, then preparing for the next record. */
    method ReadBody() returns (st: Status)
      requires Valid() && want.RecordBody? && |src| >= toread
      modifies this
      ensures st == Good ==> Valid() && want.RecordHeader? && |src| <= |old(src)|
      ensures st == Good ==> Loop(old(State()), Reader(env)) == Loop(State(), Reader(env))
      ensures st == Bad ==> Loop(old(State()), Reader(env)) == Closed
      ensures st == Astray ==> Loop(old(State()), Reader(env)).Lost?
    {
      LoopBodyTurn(src, toread, padding, typ, recId, Connection(), env);
      st := Dispatch();
      if st == Good {
        src := Drain(src, padding);
        want := RecordHeader;
        toread := HEADER_LEN;
      }
    }

    /**
     * fcgi_read. Bad: fcgi_error has torn the connection down. Where the model
     * is lost, the code asks for bytes that have not arrived.
     */
    method Read() returns (st: Status)
      requires Valid()
      modifies this
      ensures match Loop(old(State()), Reader(env))
              case Running(s) => st == Good && Valid() && State() == s
              case Closed => st == Bad
              case Lost => st == Astray
    {
      st := Good;
      while st == Good && |src| >= toread
        invariant st == Good ==> Valid() && Loop(State(), Reader(env)) == Loop(old(State()), Reader(env))
        invariant st == Bad ==> Loop(old(State()), Reader(env)) == Closed
        invariant st == Astray ==> Loop(old(State()), Reader(env)).Lost?
        decreases st == Good, |src|, want.RecordBody?
      {
        if want.RecordHeader? {
          var ok := ReadHeader();
          st := if ok then Good else Bad;
        } else {
          st := ReadBody();
        }
      }
    }

    /** Input arrives, and libevent calls fcgi_read. */
    method Receive(chunk: seq<byte>) returns (st: Status)
      requires Valid()
      modifies this
      ensures match Feed(Running(old(State())), chunk, Reader(env))
              case Running(s) => st == Good && Valid() && State() == s
              case Closed => st == Bad
              case Lost => st == Astray
    {
      src := src + chunk;
      st := Read();
    }
  }
}
