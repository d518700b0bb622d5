/**
 * Requests over the life of a connection: records arrive in any order, upstream
 * operations finish. Every BEGIN_REQUEST is accounted for, and it is known
 * exactly when a request is started more than once.
 */
module FcgiRequests {
  import opened Common
  import opened FcgiFraming
  import opened FcgiIn
  import opened FcgiParams
  import opened FcgiRecord

  /** How far the web server has got with the streams of a request. */
  datatype Phase = InParams | InStdin | Sent

  /**
   * A connection with its history: the streams closed, the BEGIN_REQUEST
   * records handled and those ignored, and for every live request the records
   * that closed it for its method.
   */
  datatype Life = Life(
    k: Conn, open: map<u16, Phase>, begun: multiset<u16>, ignored: multiset<u16>, closings: map<u16, nat>)

  datatype Event =
    | Got(r: Record)
    | Upstream(id: u16, app: byte, proto: byte)

  const NEW_LIFE := Life(Conn(true, false, map[], [], []), map[], multiset{}, multiset{}, map[])

  /** What an empty PARAMS or STDIN record closes. */
  function NextPhase(p: Phase, r: Record): Phase {
    if r.content != [] then p
    else if r.typ == PARAMS then InStdin
    else if r.typ == STDIN then Sent
    else p
  }

  function NewOpen(g: Life, r: Record, k': Conn): map<u16, Phase> {
    map id | id in k'.clients ::
      if id !in g.open then InParams else if id == r.id then NextPhase(g.open[id], r) else g.open[id]
  }

  /** A BEGIN_REQUEST for a request that is already live. */
  predicate Ignored(g: Life, r: Record) {
    r.typ == BEGIN_REQUEST && r.id in g.k.clients && |r.content| == 8 && Cat(r.content[1], r.content[0]) == RESPONDER
  }

  /** An empty PARAMS record for a GET request, or an empty STDIN record for a POST request. */
  predicate Closes(k: Conn, r: Record) {
    && r.id in k.clients && r.content == []
    && ((r.typ == PARAMS && k.clients[r.id].clt.meth == Get) || (r.typ == STDIN && k.clients[r.id].clt.meth == Post))
  }

  function NewClosings(g: Life, r: Record, k': Conn): map<u16, nat> {
    map id | id in k'.clients ::
      if id !in g.k.clients || id !in g.closings then 0
      else g.closings[id] + if id == r.id && Closes(g.k, r) then 1 else 0
  }

  function AfterRecord(g: Life, r: Record, k': Conn): Life {
    Life(k', NewOpen(g, r, k'),
         if r.typ == BEGIN_REQUEST then g.begun + multiset{r.id} else g.begun,
         if Ignored(g, r) then g.ignored + multiset{r.id} else g.ignored,
         NewClosings(g, r, k'))
  }

  /** What a whole record does to the connection. */
  function Took(k: Conn, r: Record, env: Env): Outcome<Conn> {
    Does(k, r, Reader(env))
  }

  /** One event on a connection that stays up. */
  ghost predicate Next(g: Life, e: Event, g': Life, env: Env) {
    match e
    case Got(r) => Took(g.k, r, env).Live? && g' == AfterRecord(g, r, Took(g.k, r, env).k)
    case Upstream(id, app, proto) =>
      && id in g.k.clients && g.k.clients[id].lookups > 0
      && g' == Life(Finish(g.k, id, app, proto), g.open - {id}, g.begun, g.ignored, g.closings - {id})
  }

  /** All states of a run, first to last. */
  ghost predicate IsRun(run: seq<Life>, evs: seq<Event>, env: Env) {
    |run| == |evs| + 1 && forall i :: 0 <= i < |evs| ==> Next(run[i], evs[i], run[i + 1], env)
  }

  function Ends(ends: seq<End>, id: u16): nat {
    if ends == [] then 0 else Ends(ends[..|ends| - 1], id) + if ends[|ends| - 1].id == id then 1 else 0
  }

  lemma {:induction false} EndsAdd(ends: seq<End>, e: End, id: u16)
    ensures Ends(ends + [e], id) == Ends(ends, id) + if e.id == id then 1 else 0
  {
    assert (ends + [e])[..|ends|] == ends;
  }

  ghost predicate Balanced(g: Life, id: u16) {
    g.begun[id] == Ends(g.k.ends, id) + (if id in g.k.clients then 1 else 0) + g.ignored[id]
  }

  /** Every request has one upstream operation for every record that closed it. */
  ghost predicate Inv(g: Life) {
    && g.open.Keys == g.k.clients.Keys && g.closings.Keys == g.k.clients.Keys
    && (forall id :: id in g.k.clients && id in g.closings ==> g.k.clients[id].lookups == g.closings[id])
    && (forall id :: Balanced(g, id))
  }

  // ------------------------------------------------------------- what one record does

  /** Records other than BEGIN_REQUEST keep the request, or end it with one END_REQUEST. */
  lemma {:induction false} OtherEffect(k: Conn, r: Record, env: Env)
    requires r.typ != BEGIN_REQUEST && Took(k, r, env).Live?
    ensures var k' := Took(k, r, env).k;
            || (k'.clients.Keys == k.clients.Keys && k'.ends == k.ends)
            || (&& r.id in k.clients && k'.clients == k.clients - {r.id}
                && k'.ends == k.ends + [End(r.id, 1, REQUEST_COMPLETE)])
  {
  }

  lemma OtherKeep(k: Conn, r: Record, env: Env)
    requires r.typ != BEGIN_REQUEST && Took(k, r, env).Live?
    ensures Took(k, r, env).k.keep == k.keep
  {
  }

  lemma OtherDone(k: Conn, r: Record, env: Env)
    requires r.typ != BEGIN_REQUEST && Took(k, r, env).Live?
    ensures var k' := Took(k, r, env).k; k'.done == (k.done || (!k.keep && k'.ends != k.ends))
  {
  }

  /** A record leaves the other requests alone. */
  lemma {:induction false} OthersKept(k: Conn, r: Record, env: Env, id: u16)
    requires Took(k, r, env).Live? && id != r.id
    ensures var k' := Took(k, r, env).k;
            (id in k'.clients <==> id in k.clients) && (id in k.clients ==> k'.clients[id] == k.clients[id])
  {
  }

  lemma NewRequest(k: Conn, r: Record, env: Env)
    requires Took(k, r, env).Live? && r.id !in k.clients && r.id in Took(k, r, env).k.clients
    ensures Took(k, r, env).k.clients[r.id] == Slot(NEW_CLIENT, 0)
  {
  }

  /** A request that was and stays live is started exactly by a record that closes it. */
  lemma {:induction false} StartedIffClosed(k: Conn, r: Record, env: Env)
    requires Took(k, r, env).Live? && r.id in k.clients && r.id in Took(k, r, env).k.clients
    ensures Took(k, r, env).k.clients[r.id].lookups == k.clients[r.id].lookups + if Closes(k, r) then 1 else 0
  {
  }

  lemma QuestionMark()
    ensures Str("?") == [63]
  {
  }

  /** What proxy_start_request needs to look up the upstream host. */
  predicate Servable(c: Client, hosts: set<seq<byte>>) {
    c.path.Some? && c.server.Some? && c.server.value in hosts && c.body.None? && c.bodyLen == 0
  }

  /** The one reply to a closed request that cannot be served. */
  predicate Answers(c: Client, hosts: set<seq<byte>>, reply: Reply) {
    if c.path.None? then reply == ErrorPage(501, "internal server error")
    else if c.server.None? || c.server.value !in hosts then reply == ErrorPage(501, "unknown server")
    else if c.body.None? then reply == ErrorPage(400, "bad request")
    else
      reply == Redirect(c.script, (if c.path.value == [] then [] else c.path.value[1..]) + ([63] + c.body.value))
  }

  lemma ReplyExact(c: Client, env: Env)
    ensures ReplyTo(c, env).None? <==> Servable(c, env.hosts)
    ensures ReplyTo(c, env).Some? ==> Answers(c, env.hosts, ReplyTo(c, env).value)
  {
    QuestionMark();
    if c.path.Some? && c.body.Some? {
      Assoc(if c.path.value == [] then [] else c.path.value[1..], [63], c.body.value);
    }
  }

  /**
   * A record that closes a live request: it stays live with one more upstream
   * operation exactly if it can be served, and otherwise one reply and one
   * END_REQUEST with status 1 are written for it and it is gone.
   */
  lemma {:induction false} ClosedDecides(k: Conn, r: Record, env: Env)
    requires Closes(k, r)
    ensures Took(k, r, env).Live?
    ensures var k', s := Took(k, r, env).k, k.clients[r.id];
            if Servable(s.clt, env.hosts) then
              && r.id in k'.clients && k'.clients[r.id].lookups == s.lookups + 1
              && k'.ends == k.ends && k'.pages == k.pages && k'.done == k.done
            else
              && k'.clients == k.clients - {r.id} && k'.ends == k.ends + [End(r.id, 1, 0)]
              && |k'.pages| == |k.pages| + 1 && k'.pages[..|k.pages|] == k.pages
              && k'.pages[|k.pages|].0 == r.id && Answers(s.clt, env.hosts, k'.pages[|k.pages|].1)
              && k'.done == (k.done || !k.keep)
  {
    var c := k.clients[r.id].clt;
    ReplyExact(c, env);
    ReplyExact(c.(bodyDone := true), env);
  }

  lemma {:induction false} OwnMethod(k: Conn, r: Record, env: Env)
    requires Took(k, r, env).Live? && r.id in k.clients && r.id in Took(k, r, env).k.clients
    requires r.typ != PARAMS || r.content == []
    ensures Took(k, r, env).k.clients[r.id].clt.meth == k.clients[r.id].clt.meth
  {
    var c := k.clients[r.id].clt;
    if r.typ == STDIN { assert Form(c, FormPart(r.content)).meth == c.meth; }
  }

  // ------------------------------------------------------------- what one step keeps

  lemma {:induction false} FinishBalance(g: Life, g': Life, w: u16, app: byte, proto: byte, id: u16)
    requires Balanced(g, id) && w in g.k.clients
    requires g'.k.clients == g.k.clients - {w} && g'.k.ends == g.k.ends + [End(w, app, proto)]
    requires g'.begun == g.begun && g'.ignored == g.ignored
    ensures Balanced(g', id)
  {
    EndsAdd(g.k.ends, End(w, app, proto), id);
  }

  lemma {:induction false} BeginBalance(g: Life, r: Record, id: u16, env: Env)
    requires Balanced(g, id) && r.typ == BEGIN_REQUEST && Took(g.k, r, env).Live?
    ensures Balanced(AfterRecord(g, r, Took(g.k, r, env).k), id)
  {
    EndsAdd(g.k.ends, End(r.id, 1, UNKNOWN_ROLE), id);
  }

  lemma {:induction false} RecordBalance(g: Life, r: Record, id: u16, env: Env)
    requires Balanced(g, id) && Took(g.k, r, env).Live?
    ensures Balanced(AfterRecord(g, r, Took(g.k, r, env).k), id)
  {
    if r.typ == BEGIN_REQUEST {
      BeginBalance(g, r, id, env);
    } else {
      var g' := AfterRecord(g, r, Took(g.k, r, env).k);
      OtherEffect(g.k, r, env);
      if g'.k.ends != g.k.ends { FinishBalance(g, g', r.id, 1, REQUEST_COMPLETE, id); }
    }
  }

  lemma {:induction false} RecordLookups(g: Life, r: Record, env: Env, id: u16)
    requires Inv(g) && Took(g.k, r, env).Live? && id in Took(g.k, r, env).k.clients
    ensures var k' := Took(g.k, r, env).k; k'.clients[id].lookups == NewClosings(g, r, k')[id]
  {
    if id != r.id {
      OthersKept(g.k, r, env, id);
    } else if id in g.k.clients {
      StartedIffClosed(g.k, r, env);
    } else {
      NewRequest(g.k, r, env);
    }
  }

  lemma {:induction false} RecordInv(g: Life, r: Record, env: Env)
    requires Inv(g) && Took(g.k, r, env).Live?
    ensures Inv(AfterRecord(g, r, Took(g.k, r, env).k))
  {
    var k' := Took(g.k, r, env).k;
    var g' := AfterRecord(g, r, k');
    assert g'.open.Keys == k'.clients.Keys && g'.closings.Keys == k'.clients.Keys;
    forall id | id in k'.clients && id in g'.closings
      ensures k'.clients[id].lookups == g'.closings[id]
    {
      RecordLookups(g, r, env, id);
    }
    forall id: u16
      ensures Balanced(g', id)
    {
      assert Balanced(g, id);
      RecordBalance(g, r, id, env);
    }
  }

  lemma {:induction false} UpstreamInv(g: Life, g': Life, w: u16, app: byte, proto: byte, env: Env)
    requires Inv(g) && Next(g, Upstream(w, app, proto), g', env)
    ensures Inv(g')
  {
    forall id: u16
      ensures Balanced(g', id)
    {
      assert Balanced(g, id);
      FinishBalance(g, g', w, app, proto, id);
    }
  }

  lemma {:induction false} InvNext(g: Life, e: Event, g': Life, env: Env)
    requires Inv(g) && Next(g, e, g', env)
    ensures Inv(g')
  {
    match e
    case Got(r) => RecordInv(g, r, env);
    case Upstream(w, app, proto) => UpstreamInv(g, g', w, app, proto, env);
  }

  // ------------------------------------------------------------------ whole runs

  lemma {:induction false} InvAlways(run: seq<Life>, evs: seq<Event>, env: Env)
    requires IsRun(run, evs, env) && run[0] == NEW_LIFE
    ensures Inv(run[|run| - 1])
    decreases |evs|
  {
    if evs == [] {
      assert NEW_LIFE.open.Keys == NEW_LIFE.k.clients.Keys && NEW_LIFE.closings.Keys == NEW_LIFE.k.clients.Keys;
    } else {
      var n := |evs| - 1;
      InvAlways(run[..|run| - 1], evs[..n], env);
      assert Next(run[n], evs[n], run[n + 1], env);
      InvNext(run[n], evs[n], run[n + 1], env);
    }
  }

  /**
   * In every run, for every id: the BEGIN_REQUEST records handled are the
   * END_REQUEST records written, plus one if the request is live, plus the
   * ones ignored because the id was in use.
   */
  lemma {:induction false} Conservation(run: seq<Life>, evs: seq<Event>, env: Env, id: u16)
    requires IsRun(run, evs, env) && run[0] == NEW_LIFE
    ensures var g := run[|run| - 1];
            g.begun[id] == Ends(g.k.ends, id) + (if id in g.k.clients then 1 else 0) + g.ignored[id]
  {
    InvAlways(run, evs, env);
    assert Balanced(run[|run| - 1], id);
  }

  /**
   * In every run, whatever order records come in: a live request has been
   * started once for every record that closed it since it began, no more and
   * no less.
   */
  lemma {:induction false} StartsAreClosings(run: seq<Life>, evs: seq<Event>, env: Env, id: u16)
    requires IsRun(run, evs, env) && run[0] == NEW_LIFE && id in run[|run| - 1].k.clients
    ensures var g := run[|run| - 1]; id in g.closings && g.k.clients[id].lookups == g.closings[id]
  {
    InvAlways(run, evs, env);
  }

  // -------------------------------------------------------------- well-behaved peers

  /** PARAMS before STDIN, and each stream closed once. */
  predicate InOrder(g: Life, r: Record) {
    r.id in g.open ==>
      && (r.typ == PARAMS ==> g.open[r.id] == InParams)
      && (r.typ == STDIN ==> g.open[r.id] == InStdin)
  }

  ghost predicate OrderlyRun(run: seq<Life>, evs: seq<Event>) {
    |run| == |evs| + 1 && forall i :: 0 <= i < |evs| && evs[i].Got? ==> InOrder(run[i], evs[i].r)
  }

  /** At most one upstream operation, and none before the request is complete. */
  predicate Tidy(p: Phase, s: Slot) {
    match p
    case InParams => s.lookups == 0
    case InStdin => s.lookups == 0 || (s.lookups == 1 && s.clt.meth == Get)
    case Sent => s.lookups <= 1
  }

  ghost predicate AllTidy(g: Life) {
    && g.open.Keys == g.k.clients.Keys
    && forall id :: id in g.open && id in g.k.clients ==> Tidy(g.open[id], g.k.clients[id])
  }

  lemma {:induction false} RecordTidy(g: Life, r: Record, env: Env, id: u16)
    requires AllTidy(g) && InOrder(g, r) && Took(g.k, r, env).Live? && id in Took(g.k, r, env).k.clients
    ensures var k' := Took(g.k, r, env).k; Tidy(NewOpen(g, r, k')[id], k'.clients[id])
  {
    if id != r.id {
      OthersKept(g.k, r, env, id);
    } else if id in g.k.clients {
      assert Tidy(g.open[id], g.k.clients[id]);
      StartedIffClosed(g.k, r, env);
      if r.typ != PARAMS || r.content == [] { OwnMethod(g.k, r, env); }
    } else {
      NewRequest(g.k, r, env);
    }
  }

  lemma {:induction false} TidyNext(g: Life, e: Event, g': Life, env: Env)
    requires AllTidy(g) && Next(g, e, g', env) && (e.Got? ==> InOrder(g, e.r))
    ensures AllTidy(g')
  {
    match e
    case Got(r) =>
      var k' := Took(g.k, r, env).k;
      assert g'.open.Keys == k'.clients.Keys;
      forall id | id in g'.open && id in k'.clients
        ensures Tidy(g'.open[id], k'.clients[id])
      {
        RecordTidy(g, r, env, id);
      }
    case Upstream(_, _, _) =>
  }

  lemma {:induction false} TidyAlways(run: seq<Life>, evs: seq<Event>, env: Env)
    requires IsRun(run, evs, env) && run[0] == NEW_LIFE && OrderlyRun(run, evs)
    ensures AllTidy(run[|run| - 1])
    decreases |evs|
  {
    if evs == [] {
      assert NEW_LIFE.open.Keys == NEW_LIFE.k.clients.Keys;
    } else {
      var n := |evs| - 1;
      TidyAlways(run[..|run| - 1], evs[..n], env);
      assert Next(run[n], evs[n], run[n + 1], env);
      TidyNext(run[n], evs[n], run[n + 1], env);
    }
  }

  /** No live request ever has two upstream operations, or one before the web server has closed its PARAMS. */
  lemma {:induction false} StartedOnce(run: seq<Life>, evs: seq<Event>, env: Env, id: u16)
    requires IsRun(run, evs, env) && run[0] == NEW_LIFE && OrderlyRun(run, evs) && id in run[|run| - 1].k.clients
    ensures var g := run[|run| - 1];
            id in g.open && g.k.clients[id].lookups <= 1 && (g.open[id] == InParams ==> g.k.clients[id].lookups == 0)
  {
    TidyAlways(run, evs, env);
  }

  /** A web server that closes the PARAMS of a GET request twice has it started twice. */
  lemma {:induction false} StartedTwice(g: Life, id: u16, env: Env) returns (g1: Life, g2: Life)
    requires Inv(g) && id in g.k.clients && g.k.clients[id].clt.meth == Get
    requires Servable(g.k.clients[id].clt, env.hosts)
    ensures var e := Event.Got(Record(PARAMS, id, [], [])); Next(g, e, g1, env) && Next(g1, e, g2, env)
    ensures id in g2.k.clients && g2.k.clients[id].lookups == g.k.clients[id].lookups + 2
  {
    var r := Record(PARAMS, id, [], []);
    g1 := AfterRecord(g, r, Took(g.k, r, env).k);
    g2 := AfterRecord(g1, r, Took(g1.k, r, env).k);
  }

  // ----------------------------------------------------------- connections not kept

  /** A BEGIN_REQUEST record for a responder. */
  predicate Begins(r: Record) {
    r.typ == 1 && |r.content| == 8 && r.content[0] == 0 && r.content[1] == 1
  }

  /** Bit 0 of its flags: the web server asks for the connection to be kept. */
  predicate Asks(r: Record) {
    |r.content| == 8 && r.content[2] % 2 == 1
  }

  /**
   * What a BEGIN_REQUEST does: one of the wrong size is an error, one for
   * another role is answered with FCGI_UNKNOWN_ROLE, and one on a connection
   * not to be kept is an error; any other adds a request, unless its id is in
   * use.
   */
  lemma {:induction false} BeginDecides(k: Conn, r: Record, env: Env)
    requires r.typ == 1
    ensures |r.content| != 8 || (Begins(r) && !k.keep) ==> Took(k, r, env) == Dead
    ensures |r.content| == 8 && !Begins(r) ==> Took(k, r, env) == Live(k.(ends := k.ends + [End(r.id, 1, 3)]), 8)
    ensures Begins(r) && k.keep ==>
              && Took(k, r, env).Live? && Took(k, r, env).taken == 8
              && Took(k, r, env).k ==
                 k.(keep := Asks(r),
                    clients := if r.id in k.clients then k.clients
                               else k.clients[r.id := Slot(NEW_CLIENT, 0)])
  {
    InSightAll(r.content, []);
  }

  /** An abort ends a live request with status 1, and nothing else. */
  lemma {:induction false} AbortDecides(k: Conn, r: Record, env: Env)
    requires r.typ == 2
    ensures Took(k, r, env).Live?
    ensures var k' := Took(k, r, env).k;
            if r.id in k.clients then
              && k'.clients == k.clients - {r.id} && k'.ends == k.ends + [End(r.id, 1, 0)] && k'.pages == k.pages
              && k'.done == (k.done || !k.keep) && k'.keep == k.keep
            else k' == k
  {
  }

  lemma {:induction false} KeptStep(g: Life, e: Event, g': Life, env: Env)
    requires Next(g, e, g', env)
    ensures g'.k.keep <==> g.k.keep && (e.Got? && Begins(e.r) ==> Asks(e.r))
  {
    match e
    case Got(r) => if r.typ != BEGIN_REQUEST { OtherKeep(g.k, r, env); }
    case Upstream(w, app, proto) =>
  }

  ghost predicate AllAsk(evs: seq<Event>) {
    forall e :: e in evs && e.Got? && Begins(e.r) ==> Asks(e.r)
  }

  /** The connection is kept exactly as long as every BEGIN_REQUEST it has accepted asks for that. */
  lemma {:induction false} KeptIff(run: seq<Life>, evs: seq<Event>, env: Env)
    requires IsRun(run, evs, env) && run[0] == NEW_LIFE
    ensures run[|run| - 1].k.keep <==> AllAsk(evs)
    decreases |evs|
  {
    if evs != [] {
      var n := |evs| - 1;
      KeptIff(run[..|run| - 1], evs[..n], env);
      assert Next(run[n], evs[n], run[n + 1], env);
      KeptStep(run[n], evs[n], run[n + 1], env);
      assert evs == evs[..n] + [evs[n]];
    }
  }

  lemma {:induction false} KeepOffStep(g: Life, e: Event, g': Life, env: Env)
    requires Next(g, e, g', env) && !g.k.keep
    ensures !g'.k.keep && g'.k.clients.Keys <= g.k.clients.Keys
  {
    match e
    case Got(r) => if r.typ != BEGIN_REQUEST { OtherKeep(g.k, r, env); OtherEffect(g.k, r, env); }
    case Upstream(w, app, proto) =>
  }

  /** Once the connection is not to be kept, no request is ever added to it again. */
  lemma {:induction false} KeepOff(run: seq<Life>, evs: seq<Event>, env: Env)
    requires IsRun(run, evs, env) && !run[0].k.keep
    ensures !run[|run| - 1].k.keep && run[|run| - 1].k.clients.Keys <= run[0].k.clients.Keys
    decreases |evs|
  {
    if evs != [] {
      var n := |evs| - 1;
      KeepOff(run[..|run| - 1], evs[..n], env);
      assert Next(run[n], evs[n], run[n + 1], env);
      KeepOffStep(run[n], evs[n], run[n + 1], env);
    }
  }

  lemma {:induction false} DoneStep(g: Life, e: Event, g': Life, env: Env)
    requires Next(g, e, g', env) && (g.k.done ==> !g.k.keep)
    ensures g'.k.done ==> !g'.k.keep
  {
    match e
    case Got(r) => if r.typ != BEGIN_REQUEST { OtherKeep(g.k, r, env); OtherDone(g.k, r, env); }
    case Upstream(w, app, proto) =>
  }

  /** A connection is marked done only when it is not to be kept. */
  lemma {:induction false} DoneMeansNotKept(run: seq<Life>, evs: seq<Event>, env: Env)
    requires IsRun(run, evs, env) && run[0] == NEW_LIFE
    ensures run[|run| - 1].k.done ==> !run[|run| - 1].k.keep
    decreases |evs|
  {
    if evs != [] {
      var n := |evs| - 1;
      DoneMeansNotKept(run[..|run| - 1], evs[..n], env);
      assert Next(run[n], evs[n], run[n + 1], env);
      DoneStep(run[n], evs[n], run[n + 1], env);
    }
  }
}
