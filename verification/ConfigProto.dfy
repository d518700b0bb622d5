/**
 * Configuration distribution: the parent sends each worker a reset, the proxies,
 * the socket and a done over a FIFO, counts the replies and broadcasts a start.
 * Any number of reloads, failed or overlapping, any interleaving.
 */
module ConfigProto {
  import opened Common

  /** struct proxy_config. */
  datatype Proxy = Proxy(host: string, addr: string, port: string, name: string, flags: nat)

  datatype Msg = Reset | Srv(p: Proxy) | Sock | Done | Start

  /**
   * A worker: its proxies in order, whether it has the socket and whether it
   * waits for connections on it, and each live client with the entry its
   * clt_pc points to.
   */
  datatype Worker = Worker(proxies: seq<Proxy>, sock: bool, listening: bool, clients: map<nat, Option<nat>>)

  /**
   * The parent, the channels to and from each worker, and for the statements
   * below the list last distributed, the number of distributions and of
   * start broadcasts.
   */
  datatype Sys = Sys(
    workers: seq<Worker>,
    chans: seq<seq<Msg>>,
    replies: seq<nat>,
    reload: nat,
    last: seq<Proxy>,
    rounds: nat,
    starts: nat)

  datatype Event =
    | Configure(list: seq<Proxy>, prefork: nat)
    | Reload(list: seq<Proxy>, prefork: nat)
    | FailedReload
    | Deliver(w: nat)
    | GetReply(w: nat)
    | Accept(w: nat, clt: nat)
    | Match(w: nat, clt: nat, entry: nat)
    | EndClient(w: nat, clt: nat)

  function Repeat<T>(n: nat, x: T): (s: seq<T>)
    ensures |s| == n && forall i :: 0 <= i < n ==> s[i] == x
  {
    seq(n, _ => x)
  }

  function Initial(n: nat): Sys {
    Sys(Repeat(n, Worker([], false, false, map[])), Repeat(n, []), Repeat(n, 0), 0, [], 0, 0)
  }

  // ---------------------------------------------------------------- one step

  function Servers(list: seq<Proxy>): seq<Msg> {
    if list == [] then [] else Servers(list[..|list| - 1]) + [Srv(list[|list| - 1])]
  }

  /** parent_configure. */
  function Batch(list: seq<Proxy>): seq<Msg> {
    Servers(list) + [Sock, Done]
  }

  function Broadcast(chans: seq<seq<Msg>>, batch: seq<Msg>): (cs: seq<seq<Msg>>)
    ensures |cs| == |chans| && forall i :: 0 <= i < |chans| ==> cs[i] == chans[i] + batch
  {
    seq(|chans|, i requires 0 <= i < |chans| => chans[i] + batch)
  }

  /**
   * proxy_dispatch_parent. config_purge on a reset ends every client before it
   * frees the proxies; the socket is only waited on once the done is there.
   */
  function Apply(w: Worker, m: Msg): Worker {
    match m
    case Reset => Worker([], false, false, map[])
    case Srv(p) => w.(proxies := w.proxies + [p])
    case Sock => w.(sock := true)
    case Done => w.(listening := w.sock)
    case Start => w
  }

  function Distributed(s: Sys, batch: seq<Msg>, list: seq<Proxy>, prefork: nat): Sys {
    s.(chans := Broadcast(s.chans, batch), reload := prefork, last := list, rounds := s.rounds + 1)
  }

  predicate WellSized(s: Sys) {
    |s.chans| == |s.workers| && |s.replies| == |s.workers|
  }

  function Delivered(s: Sys, i: nat): Sys
    requires WellSized(s) && i < |s.workers| && s.chans[i] != []
  {
    var m := s.chans[i][0];
    s.(workers := s.workers[i := Apply(s.workers[i], m)],
       chans := s.chans[i := s.chans[i][1..]],
       replies := if m == Done then s.replies[i := s.replies[i] + 1] else s.replies)
  }

  /** parent_configure_done. */
  function Counted(s: Sys, i: nat): Sys
    requires WellSized(s) && i < |s.workers| && s.replies[i] > 0
  {
    var t := s.(replies := s.replies[i := s.replies[i] - 1]);
    if s.reload == 0 then t
    else if s.reload > 1 then t.(reload := s.reload - 1)
    else t.(reload := 0, chans := Broadcast(s.chans, [Start]), starts := s.starts + 1)
  }

  predicate Live(s: Sys, i: nat, clt: nat) {
    i < |s.workers| && clt in s.workers[i].clients
  }

  ghost predicate Next(s: Sys, e: Event, s': Sys)
    requires WellSized(s)
  {
    match e
    case Configure(list, prefork) =>
      s.rounds == 0 && prefork > 0 && s' == Distributed(s, Batch(list), list, prefork)
    case Reload(list, prefork) =>
      s.rounds > 0 && prefork > 0 && s' == Distributed(s, [Reset] + Batch(list), list, prefork)
    case FailedReload => s' == s
    case Deliver(i) => i < |s.workers| && s.chans[i] != [] && s' == Delivered(s, i)
    case GetReply(i) => i < |s.workers| && s.replies[i] > 0 && s' == Counted(s, i)
    case Accept(i, c) =>
      && i < |s.workers| && c !in s.workers[i].clients
      && s' == s.(workers := s.workers[i := s.workers[i].(clients := s.workers[i].clients[c := None])])
    case Match(i, c, k) =>
      && Live(s, i, c) && k < |s.workers[i].proxies|
      && s' == s.(workers := s.workers[i := s.workers[i].(clients := s.workers[i].clients[c := Some(k)])])
    case EndClient(i, c) =>
      && Live(s, i, c)
      && s' == s.(workers := s.workers[i := s.workers[i].(clients := s.workers[i].clients - {c})])
  }

  ghost predicate IsRun(run: seq<Sys>, evs: seq<Event>) {
    && |run| == |evs| + 1
    && (forall i :: 0 <= i < |run| ==> WellSized(run[i]))
    && (forall i :: 0 <= i < |evs| ==> Next(run[i], evs[i], run[i + 1]))
  }

  // ------------------------------------------------------------------ convergence

  /** The proxies a worker will have once it has taken in everything sent to it. */
  function Pending(proxies: seq<Proxy>, chan: seq<Msg>): seq<Proxy>
    decreases |chan|
  {
    if chan == [] then proxies
    else
      match chan[0]
      case Reset => Pending([], chan[1..])
      case Srv(p) => Pending(proxies + [p], chan[1..])
      case _ => Pending(proxies, chan[1..])
  }

  lemma {:induction false} PendingAppend(proxies: seq<Proxy>, a: seq<Msg>, b: seq<Msg>)
    ensures Pending(proxies, a + b) == Pending(Pending(proxies, a), b)
    decreases |a|
  {
    if a == [] {
      assert a + b == b;
    } else {
      assert (a + b)[0] == a[0] && (a + b)[1..] == a[1..] + b;
      match a[0]
      case Reset => PendingAppend([], a[1..], b);
      case Srv(p) => PendingAppend(proxies + [p], a[1..], b);
      case _ => PendingAppend(proxies, a[1..], b);
    }
  }

  lemma PendingOne(proxies: seq<Proxy>, m: Msg)
    ensures Pending(proxies, [m]) == if m.Reset? then [] else if m.Srv? then proxies + [m.p] else proxies
  {
    assert [m][1..] == [];
  }

  lemma {:induction false} PendingServers(list: seq<Proxy>)
    ensures Pending([], Servers(list)) == list
  {
    if list != [] {
      var front, p := list[..|list| - 1], list[|list| - 1];
      PendingServers(front);
      PendingAppend([], Servers(front), [Srv(p)]);
      PendingOne(front, Srv(p));
      assert list == front + [p];
    }
  }

  lemma {:induction false} PendingBatch(list: seq<Proxy>)
    ensures Pending([], Batch(list)) == list
  {
    PendingServers(list);
    PendingAppend([], Servers(list), [Sock, Done]);
    assert [Sock, Done][1..] == [Done] && [Done][1..] == [];
  }

  lemma {:induction false} PendingReload(proxies: seq<Proxy>, list: seq<Proxy>)
    ensures Pending(proxies, [Reset] + Batch(list)) == list
  {
    PendingOne(proxies, Reset);
    PendingAppend(proxies, [Reset], Batch(list));
    PendingBatch(list);
  }

  /** What is on its way to a worker brings it to the list last distributed, and its clients point into its list. */
  ghost predicate Converging(s: Sys, i: nat)
    requires WellSized(s) && i < |s.workers|
  {
    && Pending(s.workers[i].proxies, s.chans[i]) == s.last
    && (forall c :: c in s.workers[i].clients && s.workers[i].clients[c].Some? ==>
          s.workers[i].clients[c].value < |s.workers[i].proxies|)
    && (s.rounds == 0 ==> s.workers[i].proxies == [] && s.chans[i] == [] && s.reload == 0)
  }

  lemma {:induction false} ConvergingDeliver(s: Sys, j: nat, i: nat)
    requires WellSized(s) && i < |s.workers| && j < |s.workers| && s.chans[j] != [] && Converging(s, i)
    ensures Converging(Delivered(s, j), i)
  {
  }

  lemma {:induction false} ConvergingNext(s: Sys, e: Event, s': Sys, i: nat)
    requires WellSized(s) && WellSized(s') && Next(s, e, s') && i < |s.workers| && Converging(s, i)
    ensures i < |s'.workers| && Converging(s', i)
  {
    match e
    case Configure(list, _) =>
      PendingBatch(list);
      assert [] + Batch(list) == Batch(list);
    case Reload(list, _) =>
      PendingAppend(s.workers[i].proxies, s.chans[i], [Reset] + Batch(list));
      PendingReload(s.last, list);
    case FailedReload =>
    case Deliver(j) => ConvergingDeliver(s, j, i);
    case GetReply(j) =>
      PendingAppend(s.workers[i].proxies, s.chans[i], [Start]);
      PendingOne(s.last, Start);
    case Accept(_, _) =>
    case Match(_, _, _) =>
    case EndClient(_, _) =>
  }

  lemma SameWorkers(s: Sys, e: Event, s': Sys)
    requires WellSized(s) && Next(s, e, s')
    ensures |s'.workers| == |s.workers|
  {
  }

  lemma {:induction false} ConvergingAlways(run: seq<Sys>, evs: seq<Event>, n: nat, i: nat)
    requires IsRun(run, evs) && run[0] == Initial(n) && i < n
    ensures var s := run[|run| - 1]; |s.workers| == n && Converging(s, i)
    decreases |evs|
  {
    if evs != [] {
      var k := |evs| - 1;
      ConvergingAlways(run[..k + 1], evs[..k], n, i);
      assert Next(run[k], evs[k], run[k + 1]);
      ConvergingNext(run[k], evs[k], run[k + 1], i);
      SameWorkers(run[k], evs[k], run[k + 1]);
    }
  }

  /**
   * In every run, with any number of reloads, failed or overlapping: a worker
   * that has taken in everything sent to it has exactly the list last
   * distributed, in order, and every live client's entry lies in the worker's list.
   */
  lemma {:induction false} Convergence(run: seq<Sys>, evs: seq<Event>, n: nat, i: nat)
    requires IsRun(run, evs) && run[0] == Initial(n) && i < n
    ensures var s := run[|run| - 1];
            && |s.workers| == n
            && (s.chans[i] == [] ==> s.workers[i].proxies == s.last)
            && (forall c :: c in s.workers[i].clients && s.workers[i].clients[c].Some? ==>
                  s.workers[i].clients[c].value < |s.workers[i].proxies|)
  {
    ConvergingAlways(run, evs, n, i);
  }

  // ----------------------------------------------------------------- the socket

  /** Whether a worker will have the socket, and wait on it, once it has taken in everything sent to it. */
  function Heard(sock: bool, listening: bool, chan: seq<Msg>): (bool, bool)
    decreases |chan|
  {
    if chan == [] then (sock, listening)
    else
      match chan[0]
      case Reset => Heard(false, false, chan[1..])
      case Sock => Heard(true, listening, chan[1..])
      case Done => Heard(sock, sock, chan[1..])
      case _ => Heard(sock, listening, chan[1..])
  }

  /** No socket arrives where there is one. */
  predicate OneSock(sock: bool, chan: seq<Msg>)
    decreases |chan|
  {
    chan == [] ||
    match chan[0]
    case Reset => OneSock(false, chan[1..])
    case Sock => !sock && OneSock(true, chan[1..])
    case _ => OneSock(sock, chan[1..])
  }

  lemma {:induction false} HeardAppend(sock: bool, listening: bool, a: seq<Msg>, b: seq<Msg>)
    ensures var (x, y) := Heard(sock, listening, a);
            Heard(sock, listening, a + b) == Heard(x, y, b) &&
            (OneSock(sock, a + b) <==> OneSock(sock, a) && OneSock(x, b))
    decreases |a|
  {
    if a == [] {
      assert a + b == b;
    } else {
      assert (a + b)[0] == a[0] && (a + b)[1..] == a[1..] + b;
      match a[0]
      case Reset => HeardAppend(false, false, a[1..], b);
      case Sock => HeardAppend(true, listening, a[1..], b);
      case Done => HeardAppend(sock, sock, a[1..], b);
      case _ => HeardAppend(sock, listening, a[1..], b);
    }
  }

  lemma {:induction false} HeardServers(sock: bool, listening: bool, list: seq<Proxy>)
    ensures Heard(sock, listening, Servers(list)) == (sock, listening) && OneSock(sock, Servers(list))
  {
    if list != [] {
      var front, p := list[..|list| - 1], list[|list| - 1];
      HeardServers(sock, listening, front);
      HeardAppend(sock, listening, Servers(front), [Srv(p)]);
      assert [Srv(p)][1..] == [];
    }
  }

  lemma {:induction false} HeardBatch(list: seq<Proxy>)
    ensures Heard(false, false, Batch(list)) == (true, true) && OneSock(false, Batch(list))
  {
    HeardServers(false, false, list);
    HeardAppend(false, false, Servers(list), [Sock, Done]);
    assert [Sock, Done][1..] == [Done] && [Done][1..] == [];
  }

  lemma {:induction false} HeardReload(sock: bool, listening: bool, list: seq<Proxy>)
    ensures Heard(sock, listening, [Reset] + Batch(list)) == (true, true) && OneSock(sock, [Reset] + Batch(list))
  {
    HeardBatch(list);
    assert ([Reset] + Batch(list))[1..] == Batch(list);
  }

  /** What is on its way to a worker makes it wait on the socket, and brings no second one. */
  ghost predicate Hearing(s: Sys, i: nat)
    requires WellSized(s) && i < |s.workers|
  {
    var w, chan := s.workers[i], s.chans[i];
    OneSock(w.sock, chan) &&
    if s.rounds == 0 then !w.sock && !w.listening && chan == [] && s.reload == 0
    else Heard(w.sock, w.listening, chan) == (true, true)
  }

  lemma {:induction false} HearingSent(s: Sys, s': Sys, i: nat, batch: seq<Msg>)
    requires WellSized(s) && WellSized(s') && i < |s.workers| == |s'.workers| && Hearing(s, i) && s.rounds > 0
    requires s'.workers == s.workers && s'.rounds > 0 && s'.chans[i] == s.chans[i] + batch
    requires Heard(true, true, batch) == (true, true) && OneSock(true, batch)
    ensures Hearing(s', i)
  {
    HeardAppend(s.workers[i].sock, s.workers[i].listening, s.chans[i], batch);
  }

  lemma {:induction false} HearingCounted(s: Sys, j: nat, i: nat)
    requires WellSized(s) && i < |s.workers| && j < |s.workers| && s.replies[j] > 0 && Hearing(s, i)
    ensures Hearing(Counted(s, j), i)
  {
    assert [Start][1..] == [];
    if s.reload == 1 { HearingSent(s, Counted(s, j), i, [Start]); }
  }

  lemma {:induction false} HearingDelivered(s: Sys, j: nat, i: nat)
    requires WellSized(s) && i < |s.workers| && j < |s.workers| && s.chans[j] != [] && Hearing(s, i)
    ensures Hearing(Delivered(s, j), i)
  {
  }

  lemma {:induction false} HearingNext(s: Sys, e: Event, s': Sys, i: nat)
    requires WellSized(s) && WellSized(s') && Next(s, e, s') && i < |s.workers| && Hearing(s, i)
    ensures i < |s'.workers| && Hearing(s', i)
  {
    match e
    case Configure(list, _) =>
      HeardBatch(list);
      assert [] + Batch(list) == Batch(list);
    case Reload(list, _) =>
      HeardReload(true, true, list);
      HearingSent(s, s', i, [Reset] + Batch(list));
    case FailedReload =>
    case Deliver(j) => HearingDelivered(s, j, i);
    case GetReply(j) => HearingCounted(s, j, i);
    case Accept(_, _) =>
    case Match(_, _, _) =>
    case EndClient(_, _) =>
  }

  lemma {:induction false} HearingAlways(run: seq<Sys>, evs: seq<Event>, n: nat, i: nat)
    requires IsRun(run, evs) && run[0] == Initial(n) && i < n
    ensures var s := run[|run| - 1]; |s.workers| == n && Hearing(s, i)
    decreases |evs|
  {
    if evs != [] {
      var k := |evs| - 1;
      HearingAlways(run[..k + 1], evs[..k], n, i);
      assert Next(run[k], evs[k], run[k + 1]);
      HearingNext(run[k], evs[k], run[k + 1], i);
      SameWorkers(run[k], evs[k], run[k + 1]);
    }
  }

  /**
   * In every run: once a configuration has been distributed, a worker that has
   * taken in everything sent to it waits on the socket, and a worker is never
   * sent a socket while it has one.
   */
  lemma {:induction false} Listening(run: seq<Sys>, evs: seq<Event>, n: nat, i: nat)
    requires IsRun(run, evs) && run[0] == Initial(n) && i < n
    ensures var s := run[|run| - 1];
            && |s.workers| == n
            && (s.rounds > 0 && s.chans[i] == [] ==> s.workers[i].listening)
            && (s.chans[i] != [] && s.chans[i][0] == Sock ==> !s.workers[i].sock)
  {
    HearingAlways(run, evs, n, i);
  }

  // ------------------------------------------------------------- counting replies

  function Dones(chan: seq<Msg>): nat {
    if chan == [] then 0 else (if chan[0] == Done then 1 else 0) + Dones(chan[1..])
  }

  lemma {:induction false} DonesAppend(a: seq<Msg>, b: seq<Msg>)
    ensures Dones(a + b) == Dones(a) + Dones(b)
  {
    if a == [] {
      assert a + b == b;
    } else {
      assert (a + b)[1..] == a[1..] + b;
      DonesAppend(a[1..], b);
    }
  }

  lemma DonesOne(m: Msg)
    ensures Dones([m]) == if m == Done then 1 else 0
  {
    assert [m][1..] == [];
  }

  lemma {:induction false} DonesServers(list: seq<Proxy>)
    ensures Dones(Servers(list)) == 0
  {
    if list != [] {
      DonesServers(list[..|list| - 1]);
      DonesAppend(Servers(list[..|list| - 1]), [Srv(list[|list| - 1])]);
      DonesOne(Srv(list[|list| - 1]));
    }
  }

  lemma {:induction false} DonesBatch(list: seq<Proxy>)
    ensures Dones(Batch(list)) == 1 && Dones([Reset] + Batch(list)) == 1
  {
    DonesServers(list);
    DonesAppend(Servers(list), [Sock, Done]);
    assert [Sock, Done][1..] == [Done];
    DonesOne(Done);
    DonesAppend([Reset], Batch(list));
    DonesOne(Reset);
  }

  function Sum(xs: seq<nat>): nat {
    if xs == [] then 0 else xs[0] + Sum(xs[1..])
  }

  lemma {:induction false} SumChange(xs: seq<nat>, ys: seq<nat>, i: nat)
    requires i < |xs| == |ys| && forall j :: 0 <= j < |xs| && j != i ==> xs[j] == ys[j]
    ensures Sum(ys) + xs[i] == Sum(xs) + ys[i]
  {
    if i == 0 {
      assert xs[1..] == ys[1..];
    } else {
      SumChange(xs[1..], ys[1..], i - 1);
    }
  }

  lemma {:induction false} SumAll(xs: seq<nat>, ys: seq<nat>)
    requires |xs| == |ys| && forall j :: 0 <= j < |xs| ==> ys[j] == xs[j] + 1
    ensures Sum(ys) == Sum(xs) + |xs|
  {
    if xs != [] { SumAll(xs[1..], ys[1..]); }
  }

  lemma {:induction false} SumZero(xs: seq<nat>)
    ensures Sum(xs) == 0 <==> forall i :: 0 <= i < |xs| ==> xs[i] == 0
  {
    if xs != [] {
      SumZero(xs[1..]);
      assert forall i :: 0 < i < |xs| ==> xs[i] == xs[1..][i - 1];
    }
  }

  /** The CFG_DONE replies each worker has yet to make or the parent to count. */
  function Owed(s: Sys): (xs: seq<nat>)
    requires WellSized(s)
    ensures |xs| == |s.workers| && forall i :: 0 <= i < |xs| ==> xs[i] == Dones(s.chans[i]) + s.replies[i]
  {
    seq(|s.workers|, i requires 0 <= i < |s.workers| => Dones(s.chans[i]) + s.replies[i])
  }

  lemma {:induction false} OwedDistributed(s: Sys, batch: seq<Msg>, list: seq<Proxy>, prefork: nat)
    requires WellSized(s) && Dones(batch) == 1
    ensures Sum(Owed(Distributed(s, batch, list, prefork))) == Sum(Owed(s)) + |s.workers|
  {
    var s' := Distributed(s, batch, list, prefork);
    forall i | 0 <= i < |s.workers|
      ensures Owed(s')[i] == Owed(s)[i] + 1
    {
      DonesAppend(s.chans[i], batch);
    }
    SumAll(Owed(s), Owed(s'));
  }

  lemma {:induction false} OwedDelivered(s: Sys, i: nat)
    requires WellSized(s) && i < |s.workers| && s.chans[i] != []
    ensures Sum(Owed(Delivered(s, i))) == Sum(Owed(s))
  {
    SumChange(Owed(s), Owed(Delivered(s, i)), i);
  }

  lemma {:induction false} OwedCounted(s: Sys, i: nat)
    requires WellSized(s) && i < |s.workers| && s.replies[i] > 0
    ensures Sum(Owed(Counted(s, i))) + 1 == Sum(Owed(s))
  {
    var s' := Counted(s, i);
    forall j | 0 <= j < |s.workers|
      ensures Dones(s'.chans[j]) == Dones(s.chans[j])
    {
      DonesAppend(s.chans[j], [Start]);
      DonesOne(Start);
    }
    SumChange(Owed(s), Owed(s'), i);
  }

  /** How a step moves the count of outstanding replies. */
  lemma {:induction false} OwedNext(s: Sys, e: Event, s': Sys)
    requires WellSized(s) && WellSized(s') && Next(s, e, s')
    ensures Sum(Owed(s')) ==
            if e.Configure? || e.Reload? then Sum(Owed(s)) + |s.workers|
            else if e.GetReply? then Sum(Owed(s)) - 1
            else Sum(Owed(s))
  {
    match e
    case Configure(list, prefork) => DonesBatch(list); OwedDistributed(s, Batch(list), list, prefork);
    case Reload(list, prefork) => DonesBatch(list); OwedDistributed(s, [Reset] + Batch(list), list, prefork);
    case Deliver(i) => OwedDelivered(s, i);
    case GetReply(i) => OwedCounted(s, i);
    case _ => assert Owed(s') == Owed(s);
  }

  predicate Distributes(e: Event) { e.Configure? || e.Reload? }

  /** A distribution whose count does not exceed the replies that will then be outstanding. */
  ghost predicate Within(s: Sys, e: Event)
    requires WellSized(s)
  {
    Distributes(e) ==> e.prefork <= Sum(Owed(s)) + |s.workers|
  }

  lemma {:induction false} BoundedStep(s: Sys, e: Event, s': Sys)
    requires WellSized(s) && WellSized(s') && Next(s, e, s') && s.reload <= Sum(Owed(s))
    ensures s'.reload <= Sum(Owed(s')) <==> Within(s, e)
  {
    OwedNext(s, e, s');
  }

  ghost predicate AllWithin(run: seq<Sys>, evs: seq<Event>)
    requires IsRun(run, evs)
  {
    forall i :: 0 <= i < |evs| ==> Within(run[i], evs[i])
  }

  ghost predicate AllBounded(run: seq<Sys>) {
    forall i :: 0 <= i < |run| ==> WellSized(run[i]) && run[i].reload <= Sum(Owed(run[i]))
  }

  lemma {:induction false} BoundedAt(run: seq<Sys>, evs: seq<Event>, n: nat, k: nat)
    requires IsRun(run, evs) && run[0] == Initial(n) && AllWithin(run, evs) && k < |run|
    ensures run[k].reload <= Sum(Owed(run[k]))
  {
    if k > 0 {
      BoundedAt(run, evs, n, k - 1);
      assert Next(run[k - 1], evs[k - 1], run[k - 1 + 1]) && Within(run[k - 1], evs[k - 1]);
      BoundedStep(run[k - 1], evs[k - 1], run[k]);
    }
  }

  /**
   * Overlapping reloads included: the count never exceeds the replies still to
   * come if and only if no distribution counts more replies than it will see.
   */
  lemma {:induction false} CountBoundedIff(run: seq<Sys>, evs: seq<Event>, n: nat)
    requires IsRun(run, evs) && run[0] == Initial(n)
    ensures AllBounded(run) <==> AllWithin(run, evs)
  {
    if AllWithin(run, evs) {
      forall k | 0 <= k < |run|
        ensures run[k].reload <= Sum(Owed(run[k]))
      {
        BoundedAt(run, evs, n, k);
      }
    }
    if AllBounded(run) {
      forall k | 0 <= k < |evs|
        ensures Within(run[k], evs[k])
      {
        assert Next(run[k], evs[k], run[k + 1]) && run[k + 1].reload <= Sum(Owed(run[k + 1]));
        BoundedStep(run[k], evs[k], run[k + 1]);
      }
    }
  }

  // ------------------------------------------------------- after one distribution

  /** A continuation in which nothing further is distributed. */
  ghost predicate QuietRun(s: Sys, run: seq<Sys>, evs: seq<Event>) {
    IsRun(run, evs) && run[0] == s && forall i :: 0 <= i < |evs| ==> !Distributes(evs[i])
  }

  /** How many more replies will come than are counted; negative when too many are counted. */
  ghost function Excess(s: Sys): int
    requires WellSized(s)
  {
    Sum(Owed(s)) - s.reload
  }

  /** While replies are being counted the excess stays the same, and no start goes out. */
  lemma {:induction false} QuietKeeps(s: Sys, run: seq<Sys>, evs: seq<Event>, k: nat)
    requires WellSized(s) && s.reload > 0 && QuietRun(s, run, evs) && k < |run|
    ensures |run[k].workers| == |s.workers|
    ensures run[k].reload > 0 ==> Excess(run[k]) == Excess(s) && run[k].starts == s.starts
    ensures run[k].reload == 0 ==> run[k].starts == s.starts + 1
  {
    if k > 0 {
      QuietKeeps(s, run, evs, k - 1);
      var a, e, b := run[k - 1], evs[k - 1], run[k];
      assert Next(a, e, run[k - 1 + 1]) && !Distributes(e);
      OwedNext(a, e, b);
      SameWorkers(a, e, b);
    }
  }

  ghost predicate Drained(s: Sys)
    requires WellSized(s)
  {
    forall i :: 0 <= i < |s.workers| ==> s.chans[i] == [] && s.replies[i] == 0
  }

  lemma {:induction false} DrainedOwesNothing(s: Sys)
    requires WellSized(s) && Drained(s)
    ensures Sum(Owed(s)) == 0
  {
    SumZero(Owed(s));
  }

  lemma {:induction false} StuckAbove(s: Sys, run: seq<Sys>, evs: seq<Event>, k: nat)
    requires WellSized(s) && s.reload > 0 && QuietRun(s, run, evs) && k < |run| && Excess(s) < 0
    ensures run[k].reload > 0
  {
    if k > 0 {
      StuckAbove(s, run, evs, k - 1);
      QuietKeeps(s, run, evs, k - 1);
      assert Next(run[k - 1], evs[k - 1], run[k - 1 + 1]);
      OwedNext(run[k - 1], evs[k - 1], run[k]);
    }
  }

  /**
   * Once everything sent has been taken in and every reply counted, the count
   * is back at zero and the start has gone out if and only if the distribution
   * counted no more replies than were to come; otherwise it is stuck for good.
   */
  lemma {:induction false} StuckIff(s: Sys, run: seq<Sys>, evs: seq<Event>)
    requires WellSized(s) && s.reload > 0 && QuietRun(s, run, evs) && Drained(run[|run| - 1])
    ensures var t := run[|run| - 1];
            (t.reload == 0 <==> Excess(s) >= 0) && t.starts == s.starts + (if Excess(s) >= 0 then 1 else 0)
  {
    var t := run[|run| - 1];
    QuietKeeps(s, run, evs, |run| - 1);
    DrainedOwesNothing(t);
    if Excess(s) < 0 { StuckAbove(s, run, evs, |run| - 1); }
  }

  // ------------------------------------------------------------------ the barrier

  predicate IsConfig(m: Msg) { m.Reset? || m.Srv? || m.Sock? }

  /** Every piece of configuration is followed by a done. */
  predicate Complete(chan: seq<Msg>) {
    chan == [] || (Complete(chan[1..]) && (IsConfig(chan[0]) ==> Dones(chan[1..]) > 0))
  }

  lemma {:induction false} CompleteAppend(a: seq<Msg>, b: seq<Msg>)
    requires Complete(a) && Complete(b)
    ensures Complete(a + b)
  {
    if a == [] {
      assert a + b == b;
    } else {
      assert (a + b)[1..] == a[1..] + b;
      CompleteAppend(a[1..], b);
      DonesAppend(a[1..], b);
    }
  }

  lemma {:induction false} CompleteServers(list: seq<Proxy>, rest: seq<Msg>)
    requires Complete(rest) && Dones(rest) > 0
    ensures Complete(Servers(list) + rest)
    decreases |list|
  {
    if list == [] {
      assert [] + rest == rest;
    } else {
      var front, m := list[..|list| - 1], Srv(list[|list| - 1]);
      var more := [m] + rest;
      assert more[1..] == rest;
      CompleteServers(front, more);
      assert Servers(list) + rest == Servers(front) + more;
    }
  }

  lemma {:induction false} CompleteBatch(list: seq<Proxy>)
    ensures Complete(Batch(list)) && Complete([Reset] + Batch(list))
  {
    assert [Sock, Done][1..] == [Done] && [Done][1..] == [];
    DonesOne(Done);
    CompleteServers(list, [Sock, Done]);
    DonesBatch(list);
    assert ([Reset] + Batch(list))[1..] == Batch(list);
  }

  lemma {:induction false} SettledWhenNoDone(chan: seq<Msg>)
    requires Complete(chan) && Dones(chan) == 0
    ensures forall m :: m in chan ==> m == Start
  {
    if chan != [] {
      SettledWhenNoDone(chan[1..]);
      assert chan == [chan[0]] + chan[1..];
    }
  }

  lemma {:induction false} PendingStarts(proxies: seq<Proxy>, chan: seq<Msg>)
    requires forall m :: m in chan ==> m == Start
    ensures Pending(proxies, chan) == proxies
    decreases |chan|
  {
    if chan != [] {
      assert chan[0] in chan && forall m :: m in chan[1..] ==> m in chan;
      PendingStarts(proxies, chan[1..]);
    }
  }

  ghost predicate AllComplete(s: Sys) {
    forall i :: 0 <= i < |s.chans| ==> Complete(s.chans[i])
  }

  lemma {:induction false} CompleteNext(s: Sys, e: Event, s': Sys)
    requires WellSized(s) && WellSized(s') && Next(s, e, s') && AllComplete(s)
    ensures AllComplete(s')
  {
    forall i | 0 <= i < |s'.chans|
      ensures Complete(s'.chans[i])
    {
      assert Complete(s.chans[i]);
      match e
      case Configure(list, _) => CompleteBatch(list); CompleteAppend(s.chans[i], Batch(list));
      case Reload(list, _) => CompleteBatch(list); CompleteAppend(s.chans[i], [Reset] + Batch(list));
      case GetReply(_) => assert Complete([Start]); CompleteAppend(s.chans[i], [Start]);
      case _ =>
    }
  }

  lemma {:induction false} CompleteAlways(run: seq<Sys>, evs: seq<Event>, n: nat, k: nat)
    requires IsRun(run, evs) && run[0] == Initial(n) && k < |run|
    ensures AllComplete(run[k]) && |run[k].workers| == n
  {
    if k > 0 {
      CompleteAlways(run, evs, n, k - 1);
      assert Next(run[k - 1], evs[k - 1], run[k - 1 + 1]);
      CompleteNext(run[k - 1], evs[k - 1], run[k]);
      SameWorkers(run[k - 1], evs[k - 1], run[k]);
    }
  }

  /** Distributions start only when none is pending, and count every worker. */
  ghost predicate Orderly(run: seq<Sys>, evs: seq<Event>, n: nat)
    requires IsRun(run, evs)
  {
    forall i :: 0 <= i < |evs| && Distributes(evs[i]) ==> evs[i].prefork == n && run[i].reload == 0
  }

  /** The count is exact, and one start answers each distribution. */
  ghost predicate Exact(s: Sys) {
    WellSized(s) && s.reload == Sum(Owed(s)) && s.rounds == s.starts + (if s.reload > 0 then 1 else 0)
  }

  lemma {:induction false} ExactStep(s: Sys, e: Event, s': Sys)
    requires WellSized(s) && WellSized(s') && Next(s, e, s') && Exact(s) && |s.workers| > 0
    ensures Exact(s') <==> (Distributes(e) ==> e.prefork == |s.workers| && s.reload == 0)
  {
    OwedNext(s, e, s');
  }

  lemma {:induction false} ExactAt(run: seq<Sys>, evs: seq<Event>, n: nat, k: nat)
    requires IsRun(run, evs) && run[0] == Initial(n) && n > 0 && Orderly(run, evs, n) && k < |run|
    ensures Exact(run[k]) && |run[k].workers| == n
  {
    if k == 0 {
      SumZero(Owed(Initial(n)));
    } else {
      ExactAt(run, evs, n, k - 1);
      assert Next(run[k - 1], evs[k - 1], run[k - 1 + 1]);
      ExactStep(run[k - 1], evs[k - 1], run[k]);
      SameWorkers(run[k - 1], evs[k - 1], run[k]);
    }
  }

  /**
   * In every state of a run the count is exactly the replies outstanding and
   * each distribution is answered by one start, if and only if every
   * distribution counts every worker and starts while none is pending.
   */
  lemma {:induction false} ExactIffOrderly(run: seq<Sys>, evs: seq<Event>, n: nat)
    requires IsRun(run, evs) && run[0] == Initial(n) && n > 0
    ensures (forall k :: 0 <= k < |run| ==> Exact(run[k])) <==> Orderly(run, evs, n)
  {
    if Orderly(run, evs, n) {
      forall k | 0 <= k < |run|
        ensures Exact(run[k])
      {
        ExactAt(run, evs, n, k);
      }
    }
    if forall k :: 0 <= k < |run| ==> Exact(run[k]) {
      forall k | 0 <= k < |evs| && Distributes(evs[k])
        ensures evs[k].prefork == n && run[k].reload == 0
      {
        assert Next(run[k], evs[k], run[k + 1]) && Exact(run[k]) && Exact(run[k + 1]);
        CompleteAlways(run, evs, n, k);
        ExactStep(run[k], evs[k], run[k + 1]);
      }
    }
  }

  /** Every worker has taken in its whole configuration; only starts may still be on their way. */
  ghost predicate Settled(s: Sys) {
    forall i, m :: 0 <= i < |s.chans| && m in s.chans[i] ==> m == Start
  }

  lemma {:induction false} NothingOwedSettled(s: Sys)
    requires WellSized(s) && AllComplete(s) && Sum(Owed(s)) == 0
    ensures Settled(s)
  {
    SumZero(Owed(s));
    forall i | 0 <= i < |s.chans|
      ensures forall m :: m in s.chans[i] ==> m == Start
    {
      assert Owed(s)[i] == 0 && Complete(s.chans[i]);
      SettledWhenNoDone(s.chans[i]);
    }
  }

  /** A settled worker has the list last distributed. */
  lemma {:induction false} SettledHasLast(run: seq<Sys>, evs: seq<Event>, n: nat, i: nat)
    requires IsRun(run, evs) && run[0] == Initial(n) && i < n && Settled(run[|run| - 1])
    ensures |run[|run| - 1].workers| == n && run[|run| - 1].workers[i].proxies == run[|run| - 1].last
  {
    var s := run[|run| - 1];
    ConvergingAlways(run, evs, n, i);
    PendingStarts(s.workers[i].proxies, s.chans[i]);
  }

  /**
   * The barrier: in an orderly run, when a start is broadcast every worker has
   * already taken in its whole configuration and has the list last distributed.
   */
  lemma {:induction false} Barrier(run: seq<Sys>, evs: seq<Event>, n: nat, i: nat)
    requires IsRun(run, evs) && run[0] == Initial(n) && n > 0 && Orderly(run, evs, n)
    requires evs != [] && run[|run| - 1].starts > run[|run| - 2].starts && i < n
    ensures var s := run[|run| - 1]; Settled(s) && |s.workers| == n && s.workers[i].proxies == s.last
  {
    var s := run[|run| - 1];
    ExactAt(run, evs, n, |run| - 1);
    CompleteAlways(run, evs, n, |run| - 1);
    assert Next(run[|run| - 2], evs[|evs| - 1], s);
    NothingOwedSettled(s);
    SettledHasLast(run, evs, n, i);
  }

  // ------------------------------------------------------ exactly when it holds

  /** Step `k` broadcasts a start. */
  predicate StartsAt(run: seq<Sys>, k: nat) {
    k + 1 < |run| && run[k + 1].starts > run[k].starts
  }

  /** In every continuation without a further distribution, a start finds every worker settled. */
  ghost predicate Safe(s: Sys) {
    forall run: seq<Sys>, evs: seq<Event>, k: nat :: QuietRun(s, run, evs) && StartsAt(run, k) ==> Settled(run[k + 1])
  }

  lemma {:induction false} CompleteQuiet(s: Sys, run: seq<Sys>, evs: seq<Event>, k: nat)
    requires WellSized(s) && AllComplete(s) && QuietRun(s, run, evs) && k < |run|
    ensures AllComplete(run[k])
  {
    if k > 0 {
      CompleteQuiet(s, run, evs, k - 1);
      assert Next(run[k - 1], evs[k - 1], run[k - 1 + 1]);
      CompleteNext(run[k - 1], evs[k - 1], run[k]);
    }
  }

  lemma {:induction false} EnoughCounted(s: Sys, run: seq<Sys>, evs: seq<Event>, k: nat)
    requires WellSized(s) && AllComplete(s) && s.reload > 0 && Excess(s) <= 0
    requires QuietRun(s, run, evs) && StartsAt(run, k)
    ensures Settled(run[k + 1])
  {
    QuietKeeps(s, run, evs, k);
    QuietKeeps(s, run, evs, k + 1);
    assert Next(run[k], evs[k], run[k + 1]);
    OwedNext(run[k], evs[k], run[k + 1]);
    CompleteQuiet(s, run, evs, k + 1);
    NothingOwedSettled(run[k + 1]);
  }

  function TotalLength(chans: seq<seq<Msg>>): nat {
    if chans == [] then 0 else |chans[0]| + TotalLength(chans[1..])
  }

  lemma {:induction false} TotalShrinks(chans: seq<seq<Msg>>, i: nat)
    requires i < |chans| && chans[i] != []
    ensures TotalLength(chans[i := chans[i][1..]]) < TotalLength(chans)
  {
    var c := chans[i := chans[i][1..]];
    if i == 0 {
      assert c[1..] == chans[1..];
    } else {
      TotalShrinks(chans[1..], i - 1);
      assert c[1..] == chans[1..][i - 1 := chans[i][1..]];
    }
  }

  lemma {:induction false} SumSingle(xs: seq<nat>, j: nat)
    requires j < |xs| && forall i :: 0 <= i < |xs| && i != j ==> xs[i] == 0
    ensures Sum(xs) == xs[j]
  {
    if j == 0 {
      SumZero(xs[1..]);
    } else {
      SumSingle(xs[1..], j - 1);
    }
  }

  /** Worker `j` still has `held` before it, a whole configuration, after the older messages `older`. */
  ghost predicate Holding(s: Sys, j: nat, older: seq<Msg>, held: seq<Msg>) {
    && WellSized(s) && j < |s.workers| && s.chans[j] == older + held
    && held != [] && held[0] == Reset && Dones(held) == 1
  }

  /** A reply to count, or a message to deliver that leaves the held configuration alone. */
  lemma {:induction false} SomeStep(s: Sys, j: nat, older: seq<Msg>, held: seq<Msg>) returns (e: Event)
    requires Holding(s, j, older, held) && Sum(Owed(s)) > 1
    ensures if e.GetReply? then e.w < |s.workers| && s.replies[e.w] > 0
            else e.Deliver? && e.w < |s.workers| && s.chans[e.w] != [] && (e.w == j ==> older != [])
  {
    if i :| 0 <= i < |s.workers| && s.replies[i] > 0 {
      e := GetReply(i);
    } else if older != [] {
      e := Deliver(j);
    } else if i :| 0 <= i < |s.workers| && i != j && s.chans[i] != [] {
      e := Deliver(i);
    } else {
      assert s.chans[j] == held;
      SumSingle(Owed(s), j);
      assert false;
    }
  }

  lemma {:induction false} StillHolding(s: Sys, e: Event, s': Sys, j: nat, older: seq<Msg>, held: seq<Msg>)
    returns (older': seq<Msg>)
    requires Holding(s, j, older, held) && Next(s, e, s')
    requires (e.GetReply? && s.reload > 1) || (e.Deliver? && (e.w == j ==> older != []))
    ensures Holding(s', j, older', held)
    ensures if e.GetReply? then s'.reload < s.reload
            else s'.reload == s.reload && TotalLength(s'.chans) < TotalLength(s.chans)
  {
    older' := if e.Deliver? && e.w == j then older[1..] else older;
    assert s'.chans[j] == older' + held;
    if e.Deliver? { TotalShrinks(s.chans, e.w); }
  }

  lemma {:induction false} QuietCons(s: Sys, e: Event, s': Sys, run: seq<Sys>, evs: seq<Event>)
    requires WellSized(s) && Next(s, e, s') && !Distributes(e) && QuietRun(s', run, evs)
    ensures QuietRun(s, [s] + run, [e] + evs)
  {
    var r, v := [s] + run, [e] + evs;
    forall i | 0 <= i < |v|
      ensures Next(r[i], v[i], r[i + 1])
    {
      if i > 0 { assert Next(run[i - 1], evs[i - 1], run[i - 1 + 1]); }
    }
  }

  /** A continuation whose last step broadcasts a start while worker `j` has yet to take in its reset. */
  ghost predicate EndsEarly(s: Sys, j: nat, run: seq<Sys>, evs: seq<Event>) {
    && QuietRun(s, run, evs) && evs != [] && StartsAt(run, |run| - 2)
    && j < |run[|run| - 1].chans| && Reset in run[|run| - 1].chans[j]
  }

  lemma {:induction false} EarlyCons(s: Sys, e: Event, s': Sys, j: nat, run: seq<Sys>, evs: seq<Event>)
    requires WellSized(s) && Next(s, e, s') && !Distributes(e) && EndsEarly(s', j, run, evs)
    ensures EndsEarly(s, j, [s] + run, [e] + evs)
  {
    QuietCons(s, e, s', run, evs);
    var r := [s] + run;
    assert r[|r| - 1] == run[|run| - 1] && r[|r| - 2] == run[|run| - 2];
  }

  lemma {:induction false} EarlyNow(s: Sys, w: nat, j: nat, older: seq<Msg>, held: seq<Msg>)
    requires Holding(s, j, older, held) && s.reload == 1 && w < |s.workers| && s.replies[w] > 0
    ensures EndsEarly(s, j, [s, Counted(s, w)], [GetReply(w)])
  {
    var s' := Counted(s, w);
    assert s'.chans[j] == (older + held) + [Start];
    assert s'.chans[j][|older|] == Reset;
  }

  /**
   * With more replies to come than are counted, the others' replies and the
   * older ones of worker `j` are enough for the start: it goes out while the
   * new configuration of `j` is still queued.
   */
  lemma {:induction false} StartEarly(s: Sys, j: nat, older: seq<Msg>, held: seq<Msg>)
    returns (run: seq<Sys>, evs: seq<Event>)
    requires Holding(s, j, older, held) && s.reload > 0 && Excess(s) > 0
    ensures EndsEarly(s, j, run, evs)
    decreases s.reload, TotalLength(s.chans)
  {
    var e := SomeStep(s, j, older, held);
    if e.GetReply? && s.reload == 1 {
      EarlyNow(s, e.w, j, older, held);
      run, evs := [s, Counted(s, e.w)], [e];
    } else {
      var s' := if e.GetReply? then Counted(s, e.w) else Delivered(s, e.w);
      OwedNext(s, e, s');
      var older' := StillHolding(s, e, s', j, older, held);
      run, evs := StartEarly(s', j, older', held);
      EarlyCons(s, e, s', j, run, evs);
      run, evs := [s] + run, [e] + evs;
    }
  }

  /**
   * The barrier holds after a reload if and only if the parent counts all the
   * replies then outstanding: those of every worker, and those that were still
   * outstanding when the reload started.
   */
  lemma {:induction false} BarrierIff(s: Sys, list: seq<Proxy>, prefork: nat, s': Sys)
    requires WellSized(s) && AllComplete(s) && |s.workers| > 0
    requires WellSized(s') && Next(s, Reload(list, prefork), s')
    ensures Safe(s') <==> prefork >= Sum(Owed(s)) + |s.workers|
  {
    OwedNext(s, Reload(list, prefork), s');
    CompleteNext(s, Reload(list, prefork), s');
    if Excess(s') <= 0 {
      forall run: seq<Sys>, evs: seq<Event>, k: nat | QuietRun(s', run, evs) && StartsAt(run, k)
        ensures Settled(run[k + 1])
      {
        EnoughCounted(s', run, evs, k);
      }
    } else {
      var held := [Reset] + Batch(list);
      DonesBatch(list);
      var run, evs := StartEarly(s', 0, s.chans[0], held);
      assert !Settled(run[|run| - 2 + 1]);
    }
  }

  /**
   * For the state of any orderly run and a reload that counts every worker, the
   * barrier holds if and only if no reload was pending, which is what
   * parent_reload looks at and goes on from.
   */
  lemma {:induction false} BarrierIffIdle(run: seq<Sys>, evs: seq<Event>, n: nat, list: seq<Proxy>, s': Sys)
    requires IsRun(run, evs) && run[0] == Initial(n) && n > 0 && Orderly(run, evs, n)
    requires WellSized(s') && Next(run[|run| - 1], Reload(list, n), s')
    ensures Safe(s') <==> run[|run| - 1].reload == 0
  {
    ExactAt(run, evs, n, |run| - 1);
    CompleteAlways(run, evs, n, |run| - 1);
    BarrierIff(run[|run| - 1], list, n, s');
  }

  /**
   * From an idle state, a reloaded file may change prefork: the barrier holds
   * if and only if it is at least the number of workers, and the start ever
   * goes out if and only if it is at most that.
   */
  lemma {:induction false} PreforkIff(s: Sys, list: seq<Proxy>, prefork: nat, s': Sys, run: seq<Sys>, evs: seq<Event>)
    requires WellSized(s) && AllComplete(s) && |s.workers| > 0 && Sum(Owed(s)) == 0
    requires WellSized(s') && Next(s, Reload(list, prefork), s')
    requires QuietRun(s', run, evs) && Drained(run[|run| - 1])
    ensures Safe(s') <==> prefork >= |s.workers|
    ensures run[|run| - 1].reload == 0 <==> prefork <= |s.workers|
    ensures run[|run| - 1].starts == s.starts + 1 <==> prefork <= |s.workers|
  {
    BarrierIff(s, list, prefork, s');
    OwedNext(s, Reload(list, prefork), s');
    StuckIff(s', run, evs);
  }

  const OTHER := Proxy("h", "a", "1965", "h", 0)

  /** One worker takes in its first configuration and answers. */
  lemma {:induction false} FirstRound() returns (s1: Sys, s2: Sys, s3: Sys)
    ensures WellSized(s1) && WellSized(s2) && WellSized(s3)
    ensures Next(Initial(1), Configure([], 1), s1) && Next(s1, Deliver(0), s2) && Next(s2, Deliver(0), s3)
    ensures |s3.workers| == 1 && s3.workers[0].proxies == []
    ensures s3.chans[0] == [] && s3.replies[0] == 1 && s3.rounds == 1
  {
    assert Servers([]) == [] && Batch([]) == [Sock, Done];
    s1 := Distributed(Initial(1), Batch([]), [], 1);
    assert s1.chans[0] == [] + [Sock, Done] == [Sock, Done];
    s2 := Delivered(s1, 0);
    assert s2.chans[0] == [Done];
    s3 := Delivered(s2, 0);
  }

  /** A start may go out while the newer configuration is still on its way. */
  lemma {:induction false} OverlapStartsEarly() returns (run: seq<Sys>, evs: seq<Event>)
    ensures IsRun(run, evs) && run[0] == Initial(1)
    ensures forall i :: 0 <= i < |evs| && Distributes(evs[i]) ==> evs[i].prefork == 1
    ensures evs != [] && run[|run| - 1].starts > run[|run| - 2].starts
    ensures var s := run[|run| - 1]; |s.workers| == 1 && s.workers[0].proxies != s.last && Reset in s.chans[0]
  {
    var s1, s2, s3 := FirstRound();
    var s4 := Distributed(s3, [Reset] + Batch([OTHER]), [OTHER], 1);
    assert s4.chans[0][0] == Reset;
    var s5 := Counted(s4, 0);
    assert s5.chans[0][0] == Reset;
    run := [Initial(1), s1, s2, s3, s4, s5];
    evs := [Configure([], 1), Deliver(0), Deliver(0), Reload([OTHER], 1), GetReply(0)];
  }
}
