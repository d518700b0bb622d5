/** The event-driven side of an imsgbuf: proc_dispatch and imsg_event_add of proc.c. */
module ProcDispatch {
  import opened Common
  import opened ImsgWire
  import opened ImsgTransport
  import Imsg

  /** What recvmsg gave: nothing now, an error, the end of the stream, or bytes and descriptors. */
  datatype Incoming = Again | Failed | Eof | Data(bytes: seq<byte>, fds: seq<Fd>)

  /** What sendmsg gave: nothing now, an error, or the number of bytes it took. */
  datatype Outgoing = Later | Broken | Took(n: nat)

  datatype Outcome = Alive | PipeDead | Fatal

  const CTL_PROCFD := 8
  /** sizeof(struct privsep_fd). */
  const PF_SIZE := 8

  ghost function Received(r: Reader, input: Incoming): Reader {
    if input.Data? then Reader(r.buf + input.bytes, r.fds + Imsg.FirstOf(input.fds)) else r
  }

  /** What msgbuf_write sees of it. */
  function Count(sent: Outgoing): int {
    if sent.Took? then sent.n else -1
  }

  type Payload = s: seq<byte> | |s| < 0x1_0000

  /** A message composed on this very pipe. */
  datatype Send = Send(typ: u32, peerid: u32, pid: u32, fd: Option<Fd>, data: Payload)

  /** The process callback: for which messages it returns 0, what it composes on this pipe for each, and as whom. */
  datatype Callback = Callback(takes: Msg -> bool, sends: Msg -> seq<Send>, pid: u32)

  /** What one compose queues; nothing when the data does not fit a message. */
  function Queued(x: Send, pid: u32): seq<Out> {
    var m := Msg(x.typ, x.peerid, if x.pid == 0 then pid else x.pid, x.data, x.fd);
    if Sendable(m) then [Out(Encode(m), x.fd)] else []
  }

  function AllQueued(xs: seq<Send>, pid: u32): seq<Out> {
    if xs == [] then [] else AllQueued(xs[..|xs| - 1], pid) + Queued(xs[|xs| - 1], pid)
  }

  lemma {:induction false} QueuedNext(q: seq<Out>, xs: seq<Send>, i: nat, pid: u32)
    requires i < |xs|
    ensures q + AllQueued(xs[..i + 1], pid) == (q + AllQueued(xs[..i], pid)) + Queued(xs[i], pid)
  {
    assert xs[..i + 1][..i] == xs[..i];
    Assoc(q, AllQueued(xs[..i], pid), Queued(xs[i], pid));
  }

  /** A message the process callback takes, or else one that proc_dispatch itself accepts. */
  predicate Fit(m: Msg, cb: Callback) {
    cb.takes(m) || (m.typ == CTL_PROCFD && |m.data| >= PF_SIZE)
  }

  /** The messages the callback has seen and those accepted by proc_dispatch, in order, and the write queue. */
  datatype Log = Log(handled: seq<Msg>, accepted: seq<Msg>, queue: seq<Out>)

  /** The log after the callback and the generic handling have seen one more message. */
  function LogOne(log: Log, m: Msg, cb: Callback): Log {
    Log(log.handled + [m],
        log.accepted + (if cb.takes(m) || !Fit(m, cb) then [] else [m]),
        log.queue + AllQueued(cb.sends(m), cb.pid))
  }

  /** How the message loop ends: what the reader holds then, and whether the process goes on. */
  datatype Served = Served(log: Log, reader: Reader, ok: bool)

  ghost function Serve(r: Reader, cb: Callback, log: Log): Served
    decreases |r.buf|
  {
    match Get(r)
    case Got(m, rest) =>
      if Fit(m, cb) then Serve(rest, cb, LogOne(log, m, cb)) else Served(LogOne(log, m, cb), rest, false)
    case NeedMore => Served(log, r, true)
    case Bad => Served(log, r, false)
  }

  // ------------------------------------------------------ what the message loop does

  /** How many messages there are before the first that nobody takes. */
  function Fits(ms: seq<Msg>, cb: Callback): (n: nat)
    ensures n <= |ms|
  {
    if ms == [] || !Fit(ms[0], cb) then 0 else 1 + Fits(ms[1..], cb)
  }

  /** The messages the callback leaves to proc_dispatch. */
  function Left(ms: seq<Msg>, cb: Callback): seq<Msg> {
    if ms == [] then [] else (if cb.takes(ms[0]) then [] else [ms[0]]) + Left(ms[1..], cb)
  }

  /** The loop goes on exactly if every message there is is taken by somebody and the last bytes may start another. */
  lemma {:induction false} ServesAllIff(r: Reader, cb: Callback, log: Log)
    ensures var (ms, rest) := TakeAll(r); Serve(r, cb, log).ok <==> Fits(ms, cb) == |ms| && Get(rest).NeedMore?
    decreases |r.buf|
  {
    match Get(r)
    case Got(m, rest) =>
      var ms := TakeAll(rest).0;
      assert ([m] + ms)[1..] == ms;
      ServesAllIff(rest, cb, LogOne(log, m, cb));
    case _ =>
  }

  /** The log after the messages `ms`. */
  function LogAll(log: Log, ms: seq<Msg>, cb: Callback): Log
    decreases ms
  {
    if ms == [] then log
    else if Fit(ms[0], cb) then LogAll(LogOne(log, ms[0], cb), ms[1..], cb)
    else LogOne(log, ms[0], cb)
  }

  lemma {:induction false} LogFirst(log: Log, m: Msg, ms: seq<Msg>, cb: Callback)
    ensures LogAll(log, [m] + ms, cb) ==
            if Fit(m, cb) then LogAll(LogOne(log, m, cb), ms, cb) else LogOne(log, m, cb)
  {
    assert ([m] + ms)[1..] == ms;
  }

  /** The messages served are those the wire format has in the buffer. */
  lemma {:induction false} ServesAll(r: Reader, cb: Callback, log: Log)
    ensures Serve(r, cb, log).log == LogAll(log, TakeAll(r).0, cb)
    decreases |r.buf|
  {
    match Get(r)
    case Got(m, rest) =>
      ServesAll(rest, cb, LogOne(log, m, cb));
      LogFirst(log, m, TakeAll(rest).0, cb);
    case _ =>
  }

  /** The messages up to and including the first that nobody takes. */
  function Seen(ms: seq<Msg>, cb: Callback): seq<Msg> {
    var n := Fits(ms, cb);
    ms[..if n < |ms| then n + 1 else n]
  }

  lemma {:induction false} SeenFirst(m: Msg, ms: seq<Msg>, cb: Callback)
    ensures Seen([m] + ms, cb) == [m] + if Fit(m, cb) then Seen(ms, cb) else []
  {
    assert ([m] + ms)[1..] == ms;
  }

  /** The callback sees every message, in order, up to the first that nobody takes. */
  lemma {:induction false} SeenInOrder(log: Log, ms: seq<Msg>, cb: Callback)
    ensures LogAll(log, ms, cb).handled == log.handled + Seen(ms, cb)
    decreases ms
  {
    if ms != [] {
      var m, rest := ms[0], ms[1..];
      assert ms == [m] + rest;
      SeenFirst(m, rest, cb);
      if Fit(m, cb) {
        SeenInOrder(LogOne(log, m, cb), rest, cb);
        Assoc(log.handled, [m], Seen(rest, cb));
      }
    }
  }

  /** Exactly the messages the callback does not take, and that pass, are accepted. */
  lemma {:induction false} AcceptedLeft(log: Log, ms: seq<Msg>, cb: Callback)
    ensures LogAll(log, ms, cb).accepted == log.accepted + Left(ms[..Fits(ms, cb)], cb)
    decreases ms
  {
    if ms != [] {
      var m, rest := ms[0], ms[1..];
      var n := Fits(rest, cb);
      if Fit(m, cb) {
        AcceptedLeft(LogOne(log, m, cb), rest, cb);
        assert ms[..n + 1][1..] == rest[..n];
        Assoc(log.accepted, if cb.takes(m) then [] else [m], Left(rest[..n], cb));
      }
    }
  }

  /** What the callback composes for all the messages it sees. */
  function SentFor(ms: seq<Msg>, cb: Callback): seq<Out> {
    if ms == [] then [] else AllQueued(cb.sends(ms[0]), cb.pid) + SentFor(ms[1..], cb)
  }

  lemma {:induction false} SentFirst(m: Msg, ms: seq<Msg>, cb: Callback, q: seq<Out>)
    ensures q + SentFor([m] + ms, cb) == (q + AllQueued(cb.sends(m), cb.pid)) + SentFor(ms, cb)
  {
    assert ([m] + ms)[1..] == ms;
    Assoc(q, AllQueued(cb.sends(m), cb.pid), SentFor(ms, cb));
  }

  /** What is composed during the loop is queued behind what was there, in the order of the messages seen. */
  lemma {:induction false} QueuedInOrder(log: Log, ms: seq<Msg>, cb: Callback)
    ensures LogAll(log, ms, cb).queue == log.queue + SentFor(Seen(ms, cb), cb)
    decreases ms
  {
    if ms != [] {
      var m, rest := ms[0], ms[1..];
      assert ms == [m] + rest;
      var seen := if Fit(m, cb) then Seen(rest, cb) else [];
      SeenFirst(m, rest, cb);
      SentFirst(m, seen, cb, log.queue);
      LogFirst(log, m, rest, cb);
      if Fit(m, cb) { QueuedInOrder(LogOne(log, m, cb), rest, cb); }
    }
  }

  /** What is left when the loop goes on is what follows the last message, and leaves room to read. */
  lemma {:induction false} ServesRest(r: Reader, cb: Callback, log: Log)
    requires Serve(r, cb, log).ok
    ensures Serve(r, cb, log).reader == TakeAll(r).1 && |TakeAll(r).1.buf| < MAX_IMSGSIZE
    decreases |r.buf|
  {
    match Get(r)
    case Got(m, rest) => ServesRest(rest, cb, LogOne(log, m, cb));
    case _ => WaitingLeavesRoom(r);
  }

  /** How the two I/O parts end: an error is fatal, nothing read or nothing written means a dead pipe. */
  function IoOutcome(readable: bool, input: Incoming, writable: bool, sent: Outgoing): Outcome {
    if readable && input.Failed? then Fatal
    else if readable && input.Eof? then PipeDead
    else if writable && sent.Broken? then Fatal
    else if writable && sent == Took(0) then PipeDead
    else Alive
  }

  class Imsgev {
    const ibuf: Imsg.Imsgbuf
    /** EV_WRITE is set in iev->events; EV_READ always is. */
    var writeArmed: bool
    /** Messages passed to the process callback, and messages that carried a pipe to another process. */
    var handled: seq<Msg>
    var accepted: seq<Msg>

    ghost predicate Valid()
      reads this, ibuf, ibuf.w, ibuf.w.bufs
    {
      ibuf.Valid()
    }

    ghost function State(): Log
      requires Valid()
      reads this, ibuf, ibuf.w, ibuf.w.bufs, Imsg.Arrays(ibuf.w.bufs)
    {
      Log(handled, accepted, ibuf.w.View())
    }

    /** EV_WRITE is wanted exactly when there is something to write. */
    ghost predicate Armed()
      reads this, ibuf.w
    {
      writeArmed <==> ibuf.w.queued > 0
    }

    constructor (pid: u32)
      ensures Valid() && Armed() && ibuf.Reading() == Reader([], []) && State() == Log([], [], [])
    {
      ibuf := new Imsg.Imsgbuf(pid);
      writeArmed, handled, accepted := false, [], [];
    }

    /** imsg_event_add with a handler set. */
    method EventAdd()
      modifies this`writeArmed
      ensures Armed()
    {
      writeArmed := ibuf.w.queued > 0;
    }

    /** imsg_compose_event. */
    method ComposeEvent(typ: u32, peerid: u32, p: u32, fd: Option<Fd>, data: seq<byte>) returns (r: int)
      requires Valid() && Armed() && |data| < 0x1_0000
      modifies this`writeArmed, ibuf.w
      ensures Valid() && Armed() && ibuf.Reading() == old(ibuf.Reading())
      ensures r == if |data| + HEADER_SIZE <= MAX_IMSGSIZE then 1 else -1
      ensures ibuf.w.View() ==
              if r == 1
              then old(ibuf.w.View()) + [Out(Encode(Msg(typ, peerid, ibuf.EffectivePid(p), data, fd)), fd)]
              else old(ibuf.w.View())
    {
      r := ibuf.Compose(typ, peerid, p, fd, data);
      if r == -1 { return; }
      ghost var v := ibuf.w.View();
      EventAdd();
      assert ibuf.w.View() == v;
    }

    /** What the callback composes on this pipe. */
    method SendAll(xs: seq<Send>)
      requires Valid()
      modifies ibuf.w`bufs, ibuf.w`queued, ibuf.w`arrays
      ensures Valid() && ibuf.Reading() == old(ibuf.Reading())
      ensures ibuf.w.View() == old(ibuf.w.View()) + AllQueued(xs, ibuf.pid)
    {
      ghost var q := ibuf.w.View();
      assert q + [] == q;
      for i := 0 to |xs|
        invariant Valid() && ibuf.Reading() == old(ibuf.Reading())
        invariant ibuf.w.View() == q + AllQueued(xs[..i], ibuf.pid)
      {
        var x := xs[i];
        QueuedNext(q, xs, i, ibuf.pid);
        var r := ibuf.Compose(x.typ, x.peerid, x.pid, x.fd, x.data);
      }
      assert xs[..|xs|] == xs;
    }

    /** The generic handling of a message the callback does not take. */
    method Generic(m: Msg) returns (ok: bool)
      requires Valid()
      modifies this`accepted
      ensures Valid() && ibuf.Reading() == old(ibuf.Reading()) && ibuf.w.View() == old(ibuf.w.View())
      ensures ok == (m.typ == CTL_PROCFD && |m.data| >= PF_SIZE)
      ensures accepted == old(accepted) + if ok then [m] else []
    {
      ok := m.typ == CTL_PROCFD && |m.data| >= PF_SIZE;
      if ok { accepted := accepted + [m]; }
    }

    /** The call of the callback. */
    method Call(m: Msg, cb: Callback) returns (taken: bool)
      requires Valid() && cb.pid == ibuf.pid
      modifies this`handled, ibuf.w`bufs, ibuf.w`queued, ibuf.w`arrays
      ensures Valid() && ibuf.Reading() == old(ibuf.Reading()) && taken == cb.takes(m)
      ensures handled == old(handled) + [m]
      ensures ibuf.w.View() == old(ibuf.w.View()) + AllQueued(cb.sends(m), cb.pid)
    {
      SendAll(cb.sends(m));
      handled := handled + [m];
      taken := cb.takes(m);
    }

    /** The body of the message loop: the callback first, then the generic handling; false where that is fatal. */
    method HandleOne(m: Msg, cb: Callback) returns (ok: bool)
      requires Valid() && cb.pid == ibuf.pid
      modifies this`handled, this`accepted, ibuf.w`bufs, ibuf.w`queued, ibuf.w`arrays
      ensures Valid() && ibuf.Reading() == old(ibuf.Reading())
      ensures ok == Fit(m, cb) && State() == LogOne(old(State()), m, cb)
    {
      ok := Call(m, cb);
      if !ok { ok := Generic(m); }
    }

    /** imsg_get, in the loop. */
    method Next() returns (r: GetResult)
      requires Valid()
      modifies ibuf`wpos, ibuf`fds, ibuf.rbuf
      ensures Valid() && r == Get(old(ibuf.Reading()))
      ensures ibuf.Reading() == if r.Got? then r.rest else old(ibuf.Reading())
      ensures State() == old(State())
    {
      assert ibuf.rbuf !in Imsg.Arrays(ibuf.w.bufs);
      r := ibuf.Get();
    }

    /** One turn of the message loop; `stop` where it is left, for good unless `ok`. */
    method Turn(cb: Callback) returns (stop: bool, ok: bool)
      requires Valid() && cb.pid == ibuf.pid
      modifies this`handled, this`accepted, ibuf`wpos, ibuf`fds, ibuf.rbuf, ibuf.w`bufs, ibuf.w`queued, ibuf.w`arrays
      ensures Valid()
      ensures var s := Serve(old(ibuf.Reading()), cb, old(State()));
              if stop then s == Served(State(), ibuf.Reading(), ok)
              else s == Serve(ibuf.Reading(), cb, State()) && ibuf.wpos < old(ibuf.wpos)
    {
      var r := Next();
      if !r.Got? { return true, r.NeedMore?; }
      ok := HandleOne(r.msg, cb);
      stop := !ok;
    }

    /** The message loop of proc_dispatch; false where the process ends. */
    method HandleAll(cb: Callback) returns (ok: bool)
      requires Valid() && cb.pid == ibuf.pid
      modifies this`handled, this`accepted, ibuf`wpos, ibuf`fds, ibuf.rbuf, ibuf.w`bufs, ibuf.w`queued, ibuf.w`arrays
      ensures Valid() && Served(State(), ibuf.Reading(), ok) == Serve(old(ibuf.Reading()), cb, old(State()))
    {
      ghost var s := Serve(ibuf.Reading(), cb, State());
      var stop := false;
      ok := true;
      while !stop
        invariant Valid()
        invariant s == if stop then Served(State(), ibuf.Reading(), ok) else Serve(ibuf.Reading(), cb, State())
        decreases !stop, ibuf.wpos
      {
        stop, ok := Turn(cb);
      }
    }

    /** The EV_READ part of proc_dispatch; `o` is Alive where it goes on. */
    method ReadEvent(input: Incoming) returns (o: Outcome)
      requires Valid() && (input.Data? ==> 0 < |input.bytes| <= READ_SIZE - ibuf.wpos)
      modifies ibuf`wpos, ibuf`fds, ibuf`refused, ibuf.rbuf
      ensures Valid() && ibuf.w.View() == old(ibuf.w.View())
      ensures o == match input case Failed => Fatal case Eof => PipeDead case _ => Alive
      ensures ibuf.Reading() == Received(old(ibuf.Reading()), input)
    {
      assert ibuf.rbuf !in Imsg.Arrays(ibuf.w.bufs);
      if input.Failed? { return Fatal; }
      if input.Eof? { return PipeDead; }
      if input.Data? { ibuf.Read(input.bytes, input.fds); }
      o := Alive;
    }

    /** The EV_WRITE part of proc_dispatch. */
    method WriteEvent(sent: Outgoing) returns (o: Outcome)
      requires Valid() && Count(sent) <= |Offered(ibuf.w.View(), 0)|
      modifies ibuf.w`bufs, ibuf.w`queued, ibuf.w`closed, ibuf.w.bufs`rpos, ibuf.w.bufs`fd
      ensures Valid() && ibuf.Reading() == old(ibuf.Reading())
      ensures o == if sent.Broken? then Fatal else if sent == Took(0) then PipeDead else Alive
      ensures ibuf.w.View() == Imsg.Written(old(ibuf.w.View()), Count(sent))
    {
      var n := ibuf.WriteQueue(Count(sent));
      o := if n == -1 && sent.Broken? then Fatal else if n == 0 then PipeDead else Alive;
    }

    /** Where EV_WRITE is armed there is something to write. */
    lemma {:induction false} ArmedOffers()
      requires Valid() && Armed() && writeArmed
      ensures ibuf.w.View() != [] && Offered(ibuf.w.View(), 0) != []
    {
      var q := ibuf.w.View();
      ibuf.w.ViewNonEmpty();
      assert q[0] in q;
      OfferedFirst(q, 0);
    }

    /** Both I/O parts of proc_dispatch. */
    method Transfer(readable: bool, input: Incoming, writable: bool, sent: Outgoing) returns (o: Outcome)
      requires Valid() && (input.Data? ==> 0 < |input.bytes| <= READ_SIZE - ibuf.wpos)
      requires Count(sent) <= |Offered(ibuf.w.View(), 0)|
      modifies ibuf`wpos, ibuf`fds, ibuf`refused, ibuf.rbuf
      modifies ibuf.w`bufs, ibuf.w`queued, ibuf.w`closed, ibuf.w.bufs`rpos, ibuf.w.bufs`fd
      ensures Valid() && o == IoOutcome(readable, input, writable, sent)
      ensures o.Alive? ==>
                ibuf.Reading() == if readable then Received(old(ibuf.Reading()), input) else old(ibuf.Reading())
      ensures o.Alive? ==>
                ibuf.w.View() == Imsg.Written(old(ibuf.w.View()), if writable then Count(sent) else -1)
    {
      o := Alive;
      if readable {
        o := ReadEvent(input);
        if !o.Alive? { return; }
      }
      if writable { o := WriteEvent(sent); }
    }

    /** The message loop, then imsg_event_add. */
    method HandleAndArm(cb: Callback) returns (ok: bool)
      requires Valid() && cb.pid == ibuf.pid
      modifies this, ibuf`wpos, ibuf`fds, ibuf.rbuf, ibuf.w`bufs, ibuf.w`queued, ibuf.w`arrays
      ensures Valid() && Served(State(), ibuf.Reading(), ok) == Serve(old(ibuf.Reading()), cb, old(State()))
      ensures ok ==> Armed() && |ibuf.Reading().buf| < MAX_IMSGSIZE
    {
      ok := HandleAll(cb);
      if ok {
        ServesRest(old(ibuf.Reading()), cb, old(State()));
        EventAdd();
      }
    }

    /**
     * proc_dispatch. While the process goes on, the read buffer keeps room for
     * the next recvmsg and EV_WRITE is armed exactly for a queue that holds
     * something, so that sendmsg is never called with nothing to send.
     */
    method Dispatch(readable: bool, input: Incoming, writable: bool, sent: Outgoing, cb: Callback)
      returns (o: Outcome)
      requires Valid() && (input.Data? ==> 0 < |input.bytes| <= READ_SIZE - ibuf.wpos)
      requires Count(sent) <= |Offered(ibuf.w.View(), 0)| && cb.pid == ibuf.pid
      modifies this, ibuf, ibuf.rbuf, ibuf.w, ibuf.w.bufs`rpos, ibuf.w.bufs`fd
      ensures Valid() && (o.Alive? ==> Armed() && |ibuf.Reading().buf| < MAX_IMSGSIZE)
      ensures old(Armed()) && writable && old(writeArmed) ==> Offered(old(ibuf.w.View()), 0) != []
      ensures !IoOutcome(readable, input, writable, sent).Alive? ==>
                && o == IoOutcome(readable, input, writable, sent)
                && handled == old(handled) && accepted == old(accepted)
      ensures IoOutcome(readable, input, writable, sent).Alive? ==>
                var r := if readable then Received(old(ibuf.Reading()), input) else old(ibuf.Reading());
                var q := Imsg.Written(old(ibuf.w.View()), if writable then Count(sent) else -1);
                && !o.PipeDead?
                && Served(State(), ibuf.Reading(), o.Alive?) == Serve(r, cb, old(State()).(queue := q))
    {
      if Armed() && writeArmed { ArmedOffers(); }
      o := Transfer(readable, input, writable, sent);
      if !o.Alive? { return; }
      var ok := HandleAndArm(cb);
      if !ok { o := Fatal; }
    }
  }
}
