/**
 * Whole requests, from the bytes a web server sends: which parameters start a
 * request, and which form is answered with which redirect.
 */
module FcgiServed {
  import opened Common
  import opened FcgiFraming
  import opened FcgiIn
  import opened FcgiParams
  import opened FcgiRecord
  import opened FcgiRequests

  // ----------------------------------------------------------------- parameters

  lemma {:induction false} FoldAppend<C>(c: C, a: seq<Pair>, b: seq<Pair>, f: (C, Pair) -> C)
    ensures Fold(c, a + b, f) == Fold(Fold(c, a, f), b, f)
    decreases |b|
  {
    if b == [] {
      assert a + b == a;
    } else {
      var front, p := b[..|b| - 1], b[|b| - 1];
      FoldAppend(c, a, front, f);
      assert (a + b)[..|a + b| - 1] == a + front;
    }
  }

  /** Pairs that a record can hold and the reader takes. */
  predicate Sendable(ps: seq<Pair>) {
    ps != [] && AllCodable(ps) && AllTame(ps)
  }

  predicate AllSendable(pss: seq<seq<Pair>>) {
    forall i :: 0 <= i < |pss| ==> Sendable(pss[i])
  }

  /** A PARAMS record for every list of pairs. */
  function ParamRecords(id: u16, pss: seq<seq<Pair>>): seq<Record>
    requires AllSendable(pss)
  {
    if pss == [] then []
    else [Record(PARAMS, id, EncodePairs(pss[0]), [])] + ParamRecords(id, pss[1..])
  }

  /** A connection on which a client has got its fields set. */
  function WithClient(k: Conn, id: u16, c: Client): Conn
    requires id in k.clients
  {
    k.(clients := k.clients[id := k.clients[id].(clt := c)])
  }

  lemma {:induction false} OneRecord(k: Conn, id: u16, ps: seq<Pair>, env: Env)
    requires id in k.clients && Sendable(ps)
    ensures var r := Record(PARAMS, id, EncodePairs(ps), []);
            Does(k, r, Reader(env)) ==
            Live(WithClient(k, id, AllParams(k.clients[id].clt, ps, env.setting)), |r.content|)
  {
    EncodedIff(ps, k.clients[id].clt, env.setting);
    assert EncodePairs(ps) != [];
  }

  lemma {:induction false} HandleMore<K>(k: K, r: Record, rs: seq<Record>, h: Handler<K>)
    requires Does(k, r, h).Live?
    ensures HandleAll(k, [r] + rs, h) == HandleAll(Does(k, r, h).k, rs, h)
  {
    assert ([r] + rs)[1..] == rs;
  }

  lemma {:induction false} HandleAppend<K>(k: K, a: seq<Record>, b: seq<Record>, h: Handler<K>)
    requires HandleAll(k, a, h).Running? && HandleAll(k, a, h).s.AtHeader?
    ensures HandleAll(k, a + b, h) == HandleAll(HandleAll(k, a, h).s.k, b, h)
    decreases |a|
  {
    if a == [] {
      assert a + b == b;
    } else {
      var k' := Does(k, a[0], h).k;
      HandleAppend(k', a[1..], b, h);
      assert a + b == [a[0]] + (a[1..] + b);
      HandleMore(k, a[0], a[1..] + b, h);
    }
  }

  lemma WithTwice(k: Conn, id: u16, c: Client, d: Client)
    requires id in k.clients
    ensures WithClient(WithClient(k, id, c), id, d) == WithClient(k, id, d)
  {
    var s := k.clients[id];
    assert k.clients[id := s.(clt := c)][id := s.(clt := d)] == k.clients[id := s.(clt := d)];
  }

  lemma WithSame(k: Conn, id: u16)
    requires id in k.clients
    ensures WithClient(k, id, k.clients[id].clt) == k
  {
    assert k.clients[id := k.clients[id]] == k.clients;
  }

  /** However the pairs are spread over records, the client ends as all of them say. */
  lemma {:induction false} ParamsCollected(k: Conn, id: u16, pss: seq<seq<Pair>>, env: Env)
    requires id in k.clients && AllSendable(pss)
    ensures HandleAll(k, ParamRecords(id, pss), Reader(env)) ==
            Running(AtHeader([], WithClient(k, id, AllParams(k.clients[id].clt, Concat(pss), env.setting))))
    decreases |pss|
  {
    var c, f := k.clients[id].clt, env.setting;
    if pss == [] {
      WithSame(k, id);
    } else {
      var ps, rest := pss[0], pss[1..];
      var d := AllParams(c, ps, f);
      OneRecord(k, id, ps, env);
      ParamsCollected(WithClient(k, id, d), id, rest, env);
      HandleMore(k, Record(PARAMS, id, EncodePairs(ps), []), ParamRecords(id, rest), Reader(env));
      FoldAppend(c, ps, Concat(rest), Grammar(f).apply);
      WithTwice(k, id, d, AllParams(d, Concat(rest), f));
    }
  }

  // ------------------------------------------------------------------ GET requests

  /** The last acceptable method, path and server among the pairs. */
  function MethodIn(ps: seq<Pair>): Option<Pair> { Last(ps, p => GivesMethod(p)) }
  function PathIn(ps: seq<Pair>, lim: Limits): Option<Pair> { Last(ps, p => GivesPath(p, lim)) }
  function ServerIn(ps: seq<Pair>, lim: Limits): Option<Pair> { Last(ps, p => GivesServer(p, lim)) }

  /** The pairs ask for a page of a host the server knows. */
  predicate AsksForPage(ps: seq<Pair>, lim: Limits, hosts: set<seq<byte>>) {
    PathIn(ps, lim).Some? && ServerIn(ps, lim).Some? && CStr(ServerIn(ps, lim).value.value) in hosts
  }

  /** What a new request with these pairs comes to when its PARAMS are closed. */
  ghost predicate Decided(k: Conn, id: u16, ps: seq<Pair>, k': Conn, lim: Limits, hosts: set<seq<byte>>) {
    if MethodIn(ps).None? || !SaysGet(MethodIn(ps).value) then
      id in k'.clients && k'.clients[id].lookups == 0 && k'.ends == k.ends && k'.pages == k.pages
    else if AsksForPage(ps, lim, hosts) then
      && id in k'.clients && k'.clients[id].lookups == 1 && k'.ends == k.ends && k'.pages == k.pages
      && k'.clients[id].clt.path == Some(PathGiven(PathIn(ps, lim).value))
      && k'.clients[id].clt.server == Some(CStr(ServerIn(ps, lim).value.value))
    else
      && k'.clients == k.clients - {id} && k'.ends == k.ends + [End(id, 1, 0)]
      && k'.pages == k.pages + [(id, ErrorPage(501, if PathIn(ps, lim).None? then "internal server error"
                                                    else "unknown server"))]
  }

  lemma {:induction false} FieldsDecide(ps: seq<Pair>, lim: Limits, hosts: set<seq<byte>>)
    ensures var d := AllParams(NEW_CLIENT, ps, Fields(lim));
            && (d.meth == Get <==> MethodIn(ps).Some? && SaysGet(MethodIn(ps).value))
            && d.path == (match PathIn(ps, lim) case None => None case Some(p) => Some(PathGiven(p)))
            && d.server == (match ServerIn(ps, lim) case None => None case Some(p) => Some(CStr(p.value)))
            && d.body == None && d.bodyLen == 0
            && (Servable(d, hosts) <==> AsksForPage(ps, lim, hosts))
  {
    LastAcceptedWins(NEW_CLIENT, ps, lim);
  }

  lemma PagesAdded(k: Conn, k': Conn, id: u16, reply: Reply)
    requires |k'.pages| == |k.pages| + 1 && k'.pages[..|k.pages|] == k.pages && k'.pages[|k.pages|] == (id, reply)
    ensures k'.pages == k.pages + [(id, reply)]
  {
  }

  lemma {:induction false} CloseDecides(k: Conn, id: u16, ps: seq<Pair>, lim: Limits, env: Env)
    requires id in k.clients && k.clients[id] == Slot(AllParams(NEW_CLIENT, ps, Fields(lim)), 0)
    ensures var r := Record(PARAMS, id, [], []);
            Does(k, r, Reader(env)).Live? && Decided(k, id, ps, Does(k, r, Reader(env)).k, lim, env.hosts)
  {
    var r, d := Record(PARAMS, id, [], []), AllParams(NEW_CLIENT, ps, Fields(lim));
    FieldsDecide(ps, lim, env.hosts);
    if d.meth == Get {
      ClosedDecides(k, r, env);
      var k' := Does(k, r, Reader(env)).k;
      if !Servable(d, env.hosts) { PagesAdded(k, k', id, k'.pages[|k.pages|].1); }
    }
  }

  /**
   * A new request whose pairs arrive in PARAMS records, then an empty one: it
   * is started if the last method is "get" in any case and the last path and
   * server will do, answered with 501 if they will not, and waits for a form
   * otherwise.
   */
  lemma {:induction false} ParamsDecide(k: Conn, id: u16, pss: seq<seq<Pair>>, lim: Limits, env: Env)
    returns (k': Conn)
    requires env.setting == Fields(lim) && AllSendable(pss)
    requires id in k.clients && k.clients[id] == Slot(NEW_CLIENT, 0)
    ensures HandleAll(k, ParamRecords(id, pss) + [Record(PARAMS, id, [], [])], Reader(env)) == Running(AtHeader([], k'))
    ensures Decided(k, id, Concat(pss), k', lim, env.hosts) && k'.keep == k.keep
  {
    var r, ps := Record(PARAMS, id, [], []), Concat(pss);
    var k1 := WithClient(k, id, AllParams(NEW_CLIENT, ps, Fields(lim)));
    ParamsCollected(k, id, pss, env);
    HandleAppend(k, ParamRecords(id, pss), [r], Reader(env));
    CloseDecides(k1, id, ps, lim, env);
    k' := Does(k1, r, Reader(env)).k;
    OtherKeep(k1, r, env);
    assert k1.clients - {id} == k.clients - {id};
    assert [r] + [] == [r];
    HandleMore(k1, r, [], Reader(env));
  }

  // ------------------------------------------------------------- from the bytes on

  /** A BEGIN_REQUEST for a responder. */
  function BeginRecord(id: u16, flags: byte): Record {
    Record(BEGIN_REQUEST, id, [0, 1, flags, 0, 0, 0, 0, 0], [])
  }

  function GetRecords(id: u16, flags: byte, pss: seq<seq<Pair>>): seq<Record>
    requires AllSendable(pss)
  {
    [BeginRecord(id, flags)] + (ParamRecords(id, pss) + [Record(PARAMS, id, [], [])])
  }

  lemma {:induction false} EncodedAccepted(ps: seq<Pair>)
    requires Sendable(ps)
    ensures Accepted(EncodePairs(ps))
  {
  }

  lemma {:induction false} ParamsPlain(id: u16, pss: seq<seq<Pair>>)
    requires AllSendable(pss)
    ensures forall r :: r in ParamRecords(id, pss) ==> Plain(r)
    decreases |pss|
  {
    if pss != [] {
      EncodedAccepted(pss[0]);
      ParamsPlain(id, pss[1..]);
    }
  }

  lemma NothingAccepted()
    ensures Accepted([])
  {
    assert AllCodable([]) && AllTame([]) && EncodePairs([]) == [];
  }

  lemma {:induction false} GetPlain(id: u16, flags: byte, pss: seq<seq<Pair>>)
    requires AllSendable(pss)
    ensures forall r :: r in GetRecords(id, flags, pss) ==> Plain(r)
  {
    ParamsPlain(id, pss);
    NothingAccepted();
    assert Plain(BeginRecord(id, flags)) && Plain(Record(PARAMS, id, [], []));
  }

  /** The request a BEGIN_REQUEST adds. */
  lemma {:induction false} BeginTaken(k: Conn, id: u16, flags: byte, env: Env)
    requires k.keep && id !in k.clients
    ensures Does(k, BeginRecord(id, flags), Reader(env)) ==
            Live(k.(keep := flags % 2 == 1, clients := k.clients[id := Slot(NEW_CLIENT, 0)]), 8)
  {
  }

  /**
   * The same from the bytes on, however they are cut up as long as padding
   * stays with its content: a web server's whole GET request on a connection
   * that is kept, under an id not in use.
   */
  lemma {:induction false} GetServed(
      k: Conn, id: u16, flags: byte, pss: seq<seq<Pair>>, chunks: seq<seq<byte>>, lim: Limits, env: Env)
    returns (k': Conn)
    requires env.setting == Fields(lim) && AllSendable(pss) && k.keep && id !in k.clients
    requires AllSized(GetRecords(id, flags, pss)) && GoodCuts(GetRecords(id, flags, pss), chunks)
    requires Concat(chunks) == EncodeAll(GetRecords(id, flags, pss))
    ensures FeedAll(Running(AtHeader([], k)), chunks, Reader(env)) == Running(AtHeader([], k'))
    ensures Decided(k, id, Concat(pss), k', lim, env.hosts) && k'.keep == (flags % 2 == 1)
  {
    var rs, k1 := GetRecords(id, flags, pss), Does(k, BeginRecord(id, flags), Reader(env)).k;
    GetPlain(id, flags, pss);
    ReadInOrder(k, rs, chunks, env);
    BeginTaken(k, id, flags, env);
    HandleMore(k, BeginRecord(id, flags), ParamRecords(id, pss) + [Record(PARAMS, id, [], [])], Reader(env));
    k' := ParamsDecide(k1, id, pss, lim, env);
    assert k1.clients - {id} == k.clients - {id};
  }

  // ------------------------------------------------------------------------- forms

  /** "q=" at an index. */
  predicate QueryAt(s: seq<byte>, i: nat) {
    i + 2 <= |s| && s[i] == 113 && s[i + 1] == 61
  }

  lemma QueryIs()
    ensures Str("q=") == [113, 61]
  {
  }

  /** What AfterQuery finds follows the first "q=", at `n`. */
  lemma {:induction false} QueryExact(s: seq<byte>) returns (n: nat)
    ensures AfterQuery(s).None? ==> forall i :: !QueryAt(s, i)
    ensures AfterQuery(s).Some? ==>
              QueryAt(s, n) && AfterQuery(s).value == s[n + 2..] && forall i :: 0 <= i < n ==> !QueryAt(s, i)
  {
    n := 0;
    QueryIs();
    if |s| >= 2 && s[..2] != Str("q=") {
      var t := s[1..];
      n := QueryExact(t);
      n := n + 1;
      assert s[..2] == [s[0], s[1]];
      assert forall i: nat :: i > 0 ==> QueryAt(s, i) == QueryAt(t, i - 1);
      if AfterQuery(s).Some? { DropDrop(s, 1, n + 1); }
    } else if |s| >= 2 {
      assert s[..2][0] == s[0] && s[..2][1] == s[1];
    }
  }

  /** Up to the first '&'. */
  function UpToAmp(s: seq<byte>): seq<byte> {
    s[..IndexOf(s, 38)]
  }

  /** Bytes a browser puts into a form: neither NUL nor carriage return. */
  predicate Clean(s: seq<byte>) {
    0 !in s && 13 !in s
  }

  /** All the STDIN records of a form. */
  function FormAll(c: Client, ds: seq<seq<byte>>): Client
    decreases |ds|
  {
    if ds == [] then c else FormAll(Form(c, FormPart(ds[0])), ds[1..])
  }

  predicate FormRecord(d: seq<byte>) {
    d != [] && |d| <= 2047 && Clean(d)
  }

  predicate FormRecords(ds: seq<seq<byte>>) {
    forall i :: 0 <= i < |ds| ==> FormRecord(ds[i])
  }

  lemma CleanMark(s: seq<byte>)
    requires 13 !in s
    ensures UpToMark(s) == (UpToAmp(s), 38 in s)
  {
    if 38 !in s { assert s[..|s|] == s; }
  }

  lemma {:induction false} AmpCons(c: byte, s: seq<byte>)
    requires c != 38
    ensures UpToAmp([c] + s) == [c] + UpToAmp(s)
  {
    assert ([c] + s)[1..] == s;
  }

  lemma {:induction false} AmpAppend(s: seq<byte>, t: seq<byte>)
    ensures UpToAmp(s + t) == if 38 in s then UpToAmp(s) else s + UpToAmp(t)
  {
    if s == [] {
      assert s + t == t;
    } else if s[0] != 38 {
      var c, rest := s[0], s[1..];
      AmpAppend(rest, t);
      assert s + t == [c] + (rest + t) && s == [c] + rest;
      AmpCons(c, rest + t);
      AmpCons(c, rest);
    }
  }

  lemma {:induction false} FormDone(c: Client, ds: seq<seq<byte>>)
    requires c.bodyDone
    ensures FormAll(c, ds) == c
    decreases |ds|
  {
    if ds != [] { FormDone(c, ds[1..]); }
  }

  lemma {:induction false} FormOne(c: Client, d: seq<byte>)
    requires FormRecord(d) && c.body.Some? && !c.bodyDone && c.bodyLen <= 1025
    ensures Form(c, FormPart(d)) ==
            c.(body := Some(c.body.value + UpToAmp(d)), bodyLen := c.bodyLen + |UpToAmp(d)|, bodyDone := 38 in d)
  {
    CleanMark(d);
  }

  /** A field that has begun goes on to the next '&', over as many records as it takes. */
  lemma {:induction false} FormMore(c: Client, ds: seq<seq<byte>>)
    requires FormRecords(ds) && c.body.Some? && !c.bodyDone && c.bodyLen == |c.body.value|
    requires c.bodyLen + |UpToAmp(Concat(ds))| <= 1025
    ensures var v := UpToAmp(Concat(ds));
            FormAll(c, ds) ==
            c.(body := Some(c.body.value + v), bodyLen := c.bodyLen + |v|, bodyDone := 38 in Concat(ds))
    decreases |ds|
  {
    if ds == [] {
      assert c.body.value + [] == c.body.value;
    } else {
      var d, rest := ds[0], ds[1..];
      var c' := Form(c, FormPart(d));
      FormOne(c, d);
      AmpAppend(d, Concat(rest));
      if 38 in d {
        FormDone(c', rest);
      } else {
        assert UpToAmp(d) == d;
        FormMore(c', rest);
        Assoc(c.body.value, d, UpToAmp(Concat(rest)));
      }
    }
  }

  /** A form none of whose records has had "q=" yet. */
  predicate Unfilled(c: Client) {
    c.body.None? && c.bodyLen == 0 && !c.bodyDone
  }

  lemma {:induction false} FormFirst(c: Client, d: seq<byte>)
    requires FormRecord(d) && Unfilled(c)
    ensures Form(c, FormPart(d)) ==
            match AfterQuery(d)
            case None => c
            case Some(s) => c.(body := Some(UpToAmp(s)), bodyLen := |UpToAmp(s)|, bodyDone := 38 in s)
  {
    if AfterQuery(d).Some? {
      var n := QueryExact(d);
      CleanMark(AfterQuery(d).value);
    }
  }

  /** What follows the first "q=" that one record has, over all records. */
  function FieldText(ds: seq<seq<byte>>): Option<seq<byte>>
    decreases |ds|
  {
    if ds == [] then None
    else
      match AfterQuery(ds[0])
      case None => FieldText(ds[1..])
      case Some(s) => Some(s + Concat(ds[1..]))
  }

  /** A form's field "q", up to the next '&', if it has at most 1025 bytes. */
  lemma {:induction false} FormCollected(c: Client, ds: seq<seq<byte>>)
    requires FormRecords(ds) && Unfilled(c) && FieldText(ds).Some? && |UpToAmp(FieldText(ds).value)| <= 1025
    ensures var v := UpToAmp(FieldText(ds).value);
            FormAll(c, ds) == c.(body := Some(v), bodyLen := |v|, bodyDone := 38 in FieldText(ds).value)
    decreases |ds|
  {
    var d, rest := ds[0], ds[1..];
    FormFirst(c, d);
    if AfterQuery(d).None? {
      FormCollected(c, rest);
    } else {
      var s, c' := AfterQuery(d).value, Form(c, FormPart(d));
      AmpAppend(s, Concat(rest));
      if 38 in s {
        FormDone(c', rest);
      } else {
        assert UpToAmp(s) == s;
        FormMore(c', rest);
      }
    }
  }

  // --------------------------------------------------------------- POST requests

  function StdinRecords(id: u16, ds: seq<seq<byte>>): seq<Record> {
    if ds == [] then [] else [Record(STDIN, id, ds[0], [])] + StdinRecords(id, ds[1..])
  }

  lemma {:induction false} FormMethod(c: Client, d: seq<byte>)
    ensures Form(c, d).meth == c.meth && Form(c, d).path == c.path && Form(c, d).server == c.server
    ensures Form(c, d).script == c.script
  {
  }

  lemma {:induction false} StdinOne(k: Conn, id: u16, d: seq<byte>, env: Env)
    requires id in k.clients && k.clients[id].clt.meth == Post && FormRecord(d)
    ensures Does(k, Record(STDIN, id, d, []), Reader(env)) ==
            Live(WithClient(k, id, Form(k.clients[id].clt, FormPart(d))), |d|)
  {
    InSightAll(d, []);
  }

  lemma {:induction false} StdinCollected(k: Conn, id: u16, ds: seq<seq<byte>>, env: Env)
    requires id in k.clients && k.clients[id].clt.meth == Post && FormRecords(ds)
    ensures HandleAll(k, StdinRecords(id, ds), Reader(env)) ==
            Running(AtHeader([], WithClient(k, id, FormAll(k.clients[id].clt, ds))))
    decreases |ds|
  {
    var c := k.clients[id].clt;
    if ds == [] {
      WithSame(k, id);
    } else {
      var d, rest := ds[0], ds[1..];
      var c' := Form(c, FormPart(d));
      StdinOne(k, id, d, env);
      FormMethod(c, FormPart(d));
      StdinCollected(WithClient(k, id, c'), id, rest, env);
      HandleMore(k, Record(STDIN, id, d, []), StdinRecords(id, rest), Reader(env));
      WithTwice(k, id, c', FormAll(c', rest));
    }
  }

  lemma {:induction false} PostCloses(k: Conn, id: u16, v: seq<byte>, env: Env) returns (k': Conn)
    requires id in k.clients && k.clients[id].clt.meth == Post && k.clients[id].clt.body == Some(v)
    requires k.clients[id].clt.path.Some? && k.clients[id].clt.path.value != []
    requires k.clients[id].clt.server.Some? && k.clients[id].clt.server.value in env.hosts
    ensures Does(k, Record(STDIN, id, [], []), Reader(env)).Live?
    ensures k' == Does(k, Record(STDIN, id, [], []), Reader(env)).k
    ensures k'.clients == k.clients - {id} && k'.ends == k.ends + [End(id, 1, 0)]
    ensures var c := k.clients[id].clt;
            k'.pages == k.pages + [(id, Redirect(c.script, c.path.value[1..] + ([63] + v)))]
  {
    var r := Record(STDIN, id, [], []);
    ClosedDecides(k, r, env);
    k' := Does(k, r, Reader(env)).k;
    PagesAdded(k, k', id, k'.pages[|k.pages|].1);
  }

  /**
   * A POST request whose form arrives in STDIN records, then an empty one, is
   * answered with a redirect to its own address with the field "q" as query.
   */
  lemma {:induction false} PostRedirected(k: Conn, id: u16, ds: seq<seq<byte>>, env: Env) returns (k': Conn)
    requires id in k.clients && FormRecords(ds)
    requires var c := k.clients[id].clt;
             && c.meth == Post && Unfilled(c) && c.path.Some? && c.path.value != []
             && c.server.Some? && c.server.value in env.hosts
    requires FieldText(ds).Some? && |UpToAmp(FieldText(ds).value)| <= 1025
    ensures HandleAll(k, StdinRecords(id, ds) + [Record(STDIN, id, [], [])], Reader(env)) == Running(AtHeader([], k'))
    ensures k'.clients == k.clients - {id} && k'.ends == k.ends + [End(id, 1, 0)]
    ensures var c := k.clients[id].clt;
            k'.pages ==
            k.pages + [(id, Redirect(c.script, c.path.value[1..] + ([63] + UpToAmp(FieldText(ds).value))))]
  {
    var c, r := k.clients[id].clt, Record(STDIN, id, [], []);
    var k1 := WithClient(k, id, FormAll(c, ds));
    StdinCollected(k, id, ds, env);
    FormCollected(c, ds);
    HandleAppend(k, StdinRecords(id, ds), [r], Reader(env));
    k' := PostCloses(k1, id, UpToAmp(FieldText(ds).value), env);
    assert k1.clients - {id} == k.clients - {id};
    assert [r] + [] == [r];
    HandleMore(k1, r, [], Reader(env));
  }
}
