/** The parent and worker ends of the configuration protocol, as the code runs them. */
module ConfigCode {
  import opened Common
  import opened ConfigProto

  // --------------------------------------------------------------------- the parent

  lemma BroadcastNothing(chans: seq<seq<Msg>>)
    ensures Broadcast(chans, []) == chans
  {
    assert forall i :: 0 <= i < |chans| ==> chans[i] + [] == chans[i];
  }

  lemma BroadcastMore(chans: seq<seq<Msg>>, a: seq<Msg>, b: seq<Msg>)
    ensures Broadcast(Broadcast(chans, a), b) == Broadcast(chans, a + b)
  {
    assert forall i :: 0 <= i < |chans| ==> (chans[i] + a) + b == chans[i] + (a + b);
  }

  /** What parse_config makes of a file: the proxies and the prefork number it sets, and whether it refuses a line. */
  datatype File = File(list: seq<Proxy>, number: Option<nat>, ok: bool)

  /**
   * The parent's struct galileo, with the message queue of every worker. `sys`
   * is the state of the whole system, of which the parent is a part.
   */
  class Parent {
    var proxies: seq<Proxy>
    var prefork: nat
    var reload: nat
    var chans: seq<seq<Msg>>
    ghost var sys: Sys

    ghost predicate Valid()
      reads this
    {
      WellSized(sys) && chans == sys.chans && reload == sys.reload
    }

    /** proc_compose: the message goes to every instance. */
    method Compose(m: Msg)
      modifies `chans
      ensures chans == Broadcast(old(chans), [m])
    {
      var n := 0;
      while n < |chans|
        invariant 0 <= n <= |chans| == |old(chans)|
        invariant forall i :: 0 <= i < n ==> chans[i] == old(chans)[i] + [m]
        invariant forall i :: n <= i < |chans| ==> chans[i] == old(chans)[i]
      {
        chans := chans[n := chans[n] + [m]];
        n := n + 1;
      }
    }

    /** parent_configure. */
    method Configure()
      modifies `proxies, `reload, `chans
      ensures chans == Broadcast(old(chans), Batch(old(proxies)))
      ensures reload == prefork && proxies == []
    {
      ghost var was := chans;
      BroadcastNothing(was);
      var i := 0;
      while i < |proxies|
        invariant 0 <= i <= |proxies| && proxies == old(proxies)
        invariant chans == Broadcast(was, Servers(proxies[..i]))
      {
        assert proxies[..i + 1][..i] == proxies[..i];
        BroadcastMore(was, Servers(proxies[..i]), [Srv(proxies[i])]);
        Compose(Srv(proxies[i]));
        i := i + 1;
      }
      assert proxies[..i] == proxies;
      BroadcastMore(was, Servers(proxies), [Sock]);
      Compose(Sock);
      reload := prefork;
      BroadcastMore(was, Servers(proxies) + [Sock], [Done]);
      Compose(Done);
      assert Servers(proxies) + [Sock] + [Done] == Batch(proxies);
      proxies := [];
    }

    /** main, once the workers are connected: a step of the protocol. */
    method FirstConfigure()
      requires Valid() && sys.rounds == 0 && prefork > 0
      modifies this
      ensures Valid() && Next(old(sys), Event.Configure(old(proxies), old(prefork)), sys)
    {
      sys := Distributed(sys, Batch(proxies), proxies, prefork);
      Configure();
    }

    /**
     * parent_reload: a step of the protocol. What parse_config has set before a
     * line that it refuses stays set, prefork included.
     */
    method ReloadConfig(file: File)
      requires Valid() && sys.rounds > 0 && prefork > 0 && (file.number.Some? ==> file.number.value > 0)
      modifies this
      ensures Valid() && prefork > 0
      ensures prefork == match file.number case None => old(prefork) case Some(n) => n
      ensures Next(old(sys), if file.ok then Reload(file.list, prefork) else FailedReload, sys)
      ensures proxies == if file.ok then [] else file.list
    {
      proxies := file.list;
      if file.number.Some? {
        prefork := file.number.value;
      }
      if !file.ok {
        return;
      }
      sys := Distributed(sys, [Reset] + Batch(proxies), proxies, prefork);
      BroadcastMore(chans, [Reset], Batch(proxies));
      Compose(Reset);
      Configure();
    }

    /** parent_configure_done, on a reply of worker `w`: a step of the protocol. */
    method ConfigureDone(ghost w: nat) returns (started: bool)
      requires Valid() && w < |sys.workers| && sys.replies[w] > 0
      modifies `reload, `chans, `sys
      ensures Valid() && Next(old(sys), GetReply(w), sys)
      ensures started == (sys.starts > old(sys).starts)
    {
      sys := Counted(sys, w);
      if reload == 0 {
        return false;
      }
      reload := reload - 1;
      started := reload == 0;
      if started {
        Compose(Start);
      }
    }
  }

  // --------------------------------------------------------------------- a worker

  /** Every request belongs to exactly one connection. */
  ghost predicate Owned(conns: map<nat, set<nat>>, entry: map<nat, Option<nat>>) {
    && (forall f, c :: f in conns && c in conns[f] ==> c in entry)
    && (forall c :: c in entry ==> exists f :: f in conns && c in conns[f])
    && (forall f, g, c :: f in conns && g in conns && c in conns[f] && c in conns[g] ==> f == g)
  }

  /** One request gone. */
  lemma OwnedWithout(conns: map<nat, set<nat>>, entry: map<nat, Option<nat>>, f: nat, c: nat)
    requires Owned(conns, entry) && f in conns && c in conns[f]
    ensures Owned(conns[f := conns[f] - {c}], entry - {c})
  {
    var now := conns[f := conns[f] - {c}];
    forall d | d in entry - {c}
      ensures exists g :: g in now && d in now[g]
    {
      var g :| g in conns && d in conns[g];
      assert g in now && d in now[g];
    }
  }

  /** One connection gone, with its requests. */
  lemma OwnedWithoutConn(conns: map<nat, set<nat>>, entry: map<nat, Option<nat>>, f: nat)
    requires Owned(conns, entry) && f in conns
    ensures Owned(conns - {f}, entry - conns[f])
  {
    forall d | d in entry - conns[f]
      ensures exists g :: g in conns - {f} && d in (conns - {f})[g]
    {
      var g :| g in conns && d in conns[g];
      assert g in conns - {f} && d in (conns - {f})[g];
    }
  }

  /** A worker's struct galileo: connections with their requests, and what each request's clt_pc points to. */
  class Proxyd {
    var conns: map<nat, set<nat>>
    var entry: map<nat, Option<nat>>
    var sockOpen: bool
    /** The socket's event is added. */
    var waiting: bool
    var proxies: seq<Proxy>
    /** Requests whose END_REQUEST cannot be written: the whole connection goes down with them. */
    const failing: nat -> bool

    ghost predicate Valid()
      reads this
    {
      Owned(conns, entry) && (waiting ==> sockOpen)
    }

    ghost function State(): Worker
      reads this
    {
      Worker(proxies, sockOpen, waiting, entry)
    }

    /** fcgi_abort_request; on failure fcgi_error has freed the connection and all its requests. */
    method AbortRequest(f: nat, c: nat) returns (ok: bool)
      requires Valid() && f in conns && c in conns[f]
      modifies `conns, `entry
      ensures Valid() && entry.Keys <= old(entry.Keys)
      ensures ok ==> conns == old(conns)[f := old(conns)[f] - {c}]
      ensures !ok ==> conns == old(conns) - {f}
    {
      if failing(c) {
        OwnedWithoutConn(conns, entry, f);
        entry := entry - conns[f];
        conns := conns - {f};
        ok := false;
      } else {
        OwnedWithout(conns, entry, f, c);
        entry := entry - {c};
        conns := conns[f := conns[f] - {c}];
        ok := true;
      }
    }

    /** The outer loop's body: one connection, request by request. */
    method PurgeOne()
      requires Valid() && conns != map[]
      modifies `conns, `entry
      ensures Valid() && conns.Keys < old(conns.Keys)
    {
      ghost var keys := conns.Keys;
      var f :| f in conns;
      var alive := true;
      while alive && conns[f] != {}
        invariant Valid()
        invariant alive ==> f in conns && conns.Keys == keys
        invariant !alive ==> conns.Keys == keys - {f}
        decreases alive, if f in conns then conns[f] else {}
      {
        var c :| c in conns[f];
        alive := AbortRequest(f, c);
      }
      if alive {
        OwnedWithoutConn(conns, entry, f);
        assert entry - conns[f] == entry;
        conns := conns - {f};
      }
    }

    /** config_purge: every request is ended before the proxies are freed. */
    method Purge()
      requires Valid()
      modifies `conns, `entry, `sockOpen, `waiting, `proxies
      ensures Valid() && conns == map[] && State() == Apply(old(State()), Reset)
    {
      while conns != map[]
        invariant Valid() && proxies == old(proxies) && sockOpen == old(sockOpen) && waiting == old(waiting)
        decreases conns.Keys
      {
        PurgeOne();
      }
      assert entry == map[];
      if sockOpen {
        waiting := false;
        sockOpen := false;
      }
      while proxies != []
        modifies `proxies
        decreases |proxies|
      {
        proxies := proxies[1..];
      }
    }

    /** proxy_dispatch_parent; a done is answered with a done. */
    method Dispatch(m: Msg) returns (reply: bool)
      requires Valid()
      modifies `conns, `entry, `sockOpen, `waiting, `proxies
      ensures Valid() && State() == Apply(old(State()), m) && reply == (m == Done)
    {
      reply := false;
      match m {
        case Reset => Purge();
        case Srv(p) => proxies := proxies + [p];
        case Sock => sockOpen := true;
        case Done =>
          reply := true;
          waiting := sockOpen;
        case Start =>
      }
    }
  }
}
