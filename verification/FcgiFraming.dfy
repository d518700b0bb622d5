/**
 * Record framing: the loop of fcgi_read, for whatever a record may do. Bytes
 * arrive in chunks; the loop takes off headers and bodies as they become
 * complete.
 */
module FcgiFraming {
  import opened Common
  import opened FcgiRecord

  /**
   * Live: the connection as it is then, and how many bytes were taken off the
   * input. Dead: the connection is torn down. Unknown: the code asks for bytes
   * that have not arrived, or an int overflows, and C leaves open what follows.
   */
  datatype Outcome<K> = Live(k: K, taken: nat) | Dead | Unknown

  /** What a record does, given the input from its content on and the content's length. */
  datatype Handler<!K> = Handler(run: (K, byte, u16, seq<byte>, nat) -> Outcome<K>)

  /** What a record does when nothing has arrived after its content. */
  function Does<K>(k: K, r: Record, h: Handler<K>): Outcome<K> {
    h.run(k, r.typ, r.id, r.content, |r.content|)
  }

  /** What it does when `tail` has. */
  function DoesBefore<K>(k: K, r: Record, tail: seq<byte>, h: Handler<K>): Outcome<K> {
    h.run(k, r.typ, r.id, r.content + tail, |r.content|)
  }

  /** What a record does does not depend on what follows its content. */
  ghost predicate Contained<K>(k: K, r: Record, h: Handler<K>) {
    forall tail: seq<byte> :: DoesBefore(k, r, tail, h) == Does(k, r, h)
  }

  /** It also takes exactly its content off the input, or ends the connection. */
  ghost predicate Exact<K>(k: K, r: Record, h: Handler<K>) {
    && Contained(k, r, h)
    && match Does(k, r, h) case Live(_, n) => n == |r.content| case Dead => true case Unknown => false
  }

  // ----------------------------------------------------------------- the machine

  /** fcg_want with the fields that are live in each case, and the unread input. */
  datatype State<K> =
    | AtHeader(src: seq<byte>, k: K)
    | AtBody(src: seq<byte>, toread: u16, padding: byte, typ: byte, id: u16, k: K)

  datatype Machine<K> = Running(s: State<K>) | Closed | Lost

  /** fcgi_read: the loop over whatever input there is. */
  function Loop<K>(s: State<K>, h: Handler<K>): Machine<K>
    decreases |s.src|, s.AtBody?
  {
    match s
    case AtHeader(src, k) =>
      if |src| < HEADER_LEN then Running(s)
      else if src[0] != VERSION_1 then Closed
      else Loop(AtBody(src[HEADER_LEN..], Cat(src[5], src[4]), src[6], src[1], Cat(src[3], src[2]), k), h)
    case AtBody(src, toread, padding, typ, id, k) =>
      if |src| < toread then Running(s)
      else
        match h.run(k, typ, id, src, toread)
        case Dead => Closed
        case Unknown => Lost
        case Live(k', taken) => Loop(AtHeader(Drain(Drain(src, taken), padding), k'), h)
  }

  /** More input arrives and fcgi_read is called. */
  function Feed<K>(m: Machine<K>, chunk: seq<byte>, h: Handler<K>): Machine<K> {
    match m
    case Running(s) => Loop(s.(src := s.src + chunk), h)
    case _ => m
  }

  function FeedAll<K>(m: Machine<K>, chunks: seq<seq<byte>>, h: Handler<K>): Machine<K> {
    if chunks == [] then m
    else Feed(FeedAll(m, chunks[..|chunks| - 1], h), chunks[|chunks| - 1], h)
  }

  // ----------------------------------------------------------------- what is meant

  /** The machine between two records. */
  function Between<K>(o: Outcome<K>): Machine<K> {
    match o
    case Live(k, _) => Running(AtHeader([], k))
    case Dead => Closed
    case Unknown => Lost
  }

  /** Every record handled once, in order, until one tears the connection down. */
  function HandleAll<K>(k: K, rs: seq<Record>, h: Handler<K>): Machine<K>
    decreases |rs|
  {
    if rs == [] then Running(AtHeader([], k))
    else
      match Does(k, rs[0], h)
      case Live(k', _) => HandleAll(k', rs[1..], h)
      case o => Between(o)
  }

  ghost predicate AllExact<K>(k: K, rs: seq<Record>, h: Handler<K>)
    decreases |rs|
  {
    rs == [] ||
    (Exact(k, rs[0], h) &&
     match Does(k, rs[0], h)
     case Live(k', _) => AllExact(k', rs[1..], h)
     case _ => true)
  }

  /** Where the stream may be cut: anywhere except between a content and the end of its padding. */
  predicate GoodCut(rs: seq<Record>, x: nat) {
    if rs == [] then x == 0
    else
      var body := HEADER_LEN + |rs[0].content|;
      x < body || (x >= body + |rs[0].padding| && GoodCut(rs[1..], x - body - |rs[0].padding|))
  }

  ghost predicate AllSized(rs: seq<Record>) {
    forall r :: r in rs ==> WellSized(r)
  }

  /** The state after the first `x` bytes of the records. */
  ghost function After<K>(k: K, rs: seq<Record>, x: nat, h: Handler<K>): Machine<K>
    requires AllSized(rs) && GoodCut(rs, x)
    decreases |rs|
  {
    if rs == [] then Running(AtHeader([], k))
    else
      var r := rs[0];
      var e := Encode(r);
      if x < HEADER_LEN then Running(AtHeader(e[..x], k))
      else if x < HEADER_LEN + |r.content| then
        Running(AtBody(e[HEADER_LEN..x], |r.content|, |r.padding|, r.typ, r.id, k))
      else
        match Does(k, r, h)
        case Live(k', _) => After(k', rs[1..], x - |e|, h)
        case o => Between(o)
  }

  lemma {:induction false} GoodCutInside(rs: seq<Record>, x: nat)
    requires AllSized(rs) && GoodCut(rs, x)
    ensures x <= |EncodeAll(rs)|
  {
    if rs != [] && x >= |Encode(rs[0])| {
      GoodCutInside(rs[1..], x - |Encode(rs[0])|);
    }
  }

  lemma FeedIdle<K>(k: K, chunk: seq<byte>, h: Handler<K>)
    ensures Feed(Running(AtHeader([], k)), chunk, h) == Loop(AtHeader(chunk, k), h)
  {
    assert [] + chunk == chunk;
  }

  /** A header taken off the input. */
  lemma {:induction false} LoopHeader<K>(r: Record, src: seq<byte>, k: K, h: Handler<K>)
    requires WellSized(r) && |src| >= HEADER_LEN && src[..HEADER_LEN] == Encode(r)[..HEADER_LEN]
    ensures Loop(AtHeader(src, k), h) ==
            Loop(AtBody(src[HEADER_LEN..], |r.content|, |r.padding|, r.typ, r.id, k), h)
  {
    var header := Header(r.typ, r.id, |r.content|, |r.padding|);
    assert src[..HEADER_LEN] == header;
    assert forall i :: 0 <= i < HEADER_LEN ==> src[i] == header[i];
    assert Cat(src[5], src[4]) == |r.content| && Cat(src[3], src[2]) == r.id;
  }

  lemma DropHeader(r: Record, tail: seq<byte>)
    requires WellSized(r)
    ensures (Encode(r) + tail)[HEADER_LEN..] == r.content + (r.padding + tail)
  {
  }

  lemma BodyParts(content: seq<byte>, tail: seq<byte>, u: nat)
    requires u <= |content|
    ensures (content + tail)[..|content|] == content && (content + tail)[u..] == content[u..] + tail
  {
  }

  /** A body and its padding taken off the input. */
  lemma {:induction false} LoopBody<K>(r: Record, tail: seq<byte>, k: K, h: Handler<K>)
    requires WellSized(r) && Exact(k, r, h)
    ensures Loop(AtBody(r.content + (r.padding + tail), |r.content|, |r.padding|, r.typ, r.id, k), h) ==
            match Does(k, r, h)
            case Live(k', _) => Loop(AtHeader(tail, k'), h)
            case o => Between(o)
  {
    BodyParts(r.content, r.padding + tail, |r.content|);
    assert DoesBefore(k, r, r.padding + tail, h) == Does(k, r, h);
    assert Drain(r.padding + tail, |r.padding|) == tail;
  }

  lemma {:induction false} LoopRecord<K>(r: Record, src: seq<byte>, tail: seq<byte>, k: K, h: Handler<K>)
    requires WellSized(r) && Exact(k, r, h) && src == Encode(r) + tail
    ensures Loop(AtHeader(src, k), h) ==
            match Does(k, r, h)
            case Live(k', _) => Loop(AtHeader(tail, k'), h)
            case o => Between(o)
  {
    LoopHeader(r, src, k, h);
    DropHeader(r, tail);
    LoopBody(r, tail, k, h);
  }

  lemma CutPrefix(e: seq<byte>, rest: seq<byte>, x: nat)
    requires x <= |e|
    ensures (e + rest)[..x] == e[..x]
  {
  }

  lemma CutPast(e: seq<byte>, rest: seq<byte>, x: nat)
    requires |e| <= x <= |e| + |rest|
    ensures (e + rest)[..x] == e + rest[..x - |e|]
  {
  }

  /** The first bytes of a record, its content still incomplete. */
  lemma {:induction false} LoopPartial<K>(r: Record, x: nat, k: K, h: Handler<K>)
    requires WellSized(r) && x < HEADER_LEN + |r.content|
    ensures Loop(AtHeader(Encode(r)[..x], k), h) ==
            Running(if x < HEADER_LEN then AtHeader(Encode(r)[..x], k)
                    else AtBody(Encode(r)[HEADER_LEN..x], |r.content|, |r.padding|, r.typ, r.id, k))
  {
    var src := Encode(r)[..x];
    if x >= HEADER_LEN {
      assert src[..HEADER_LEN] == Encode(r)[..HEADER_LEN] && src[HEADER_LEN..] == Encode(r)[HEADER_LEN..x];
      LoopHeader(r, src, k, h);
    }
  }

  /** A cut past the first record is a cut of the others. */
  lemma {:induction false} AfterFirst<K>(k: K, rs: seq<Record>, x: nat, h: Handler<K>)
    requires rs != [] && AllSized(rs) && GoodCut(rs, x) && x >= HEADER_LEN + |rs[0].content|
    ensures x >= |Encode(rs[0])| && GoodCut(rs[1..], x - |Encode(rs[0])|)
    ensures After(k, rs, x, h) ==
            match Does(k, rs[0], h)
            case Live(k', _) => After(k', rs[1..], x - |Encode(rs[0])|, h)
            case o => Between(o)
  {
  }

  /** The first record taken off a longer input. */
  lemma {:induction false} LoopFirst<K>(k: K, r: Record, rest: seq<byte>, x: nat, h: Handler<K>)
    requires WellSized(r) && Exact(k, r, h) && |Encode(r)| <= x <= |Encode(r)| + |rest|
    ensures Loop(AtHeader((Encode(r) + rest)[..x], k), h) ==
            match Does(k, r, h)
            case Live(k', _) => Loop(AtHeader(rest[..x - |Encode(r)|], k'), h)
            case o => Between(o)
  {
    CutPast(Encode(r), rest, x);
    LoopRecord(r, (Encode(r) + rest)[..x], rest[..x - |Encode(r)|], k, h);
  }

  /** All the bytes up to a good cut, in one go. */
  lemma {:induction false} LoopPrefix<K>(k: K, rs: seq<Record>, x: nat, h: Handler<K>)
    requires AllSized(rs) && AllExact(k, rs, h) && GoodCut(rs, x) && x <= |EncodeAll(rs)|
    ensures Loop(AtHeader(EncodeAll(rs)[..x], k), h) == After(k, rs, x, h)
    decreases |rs|
  {
    if rs == [] {
    } else if x < HEADER_LEN + |rs[0].content| {
      CutPrefix(Encode(rs[0]), EncodeAll(rs[1..]), x);
      LoopPartial(rs[0], x, k, h);
    } else {
      AfterFirst(k, rs, x, h);
      LoopFirst(k, rs[0], EncodeAll(rs[1..]), x, h);
      match Does(k, rs[0], h)
      case Live(k', _) => LoopPrefix(k', rs[1..], x - |Encode(rs[0])|, h);
      case _ =>
    }
  }

  lemma CutFirst(e: seq<byte>, rest: seq<byte>, h: nat, x: nat, y: nat)
    requires h <= x <= |e| && x <= y <= |e| + |rest|
    ensures e[h..x] + (e + rest)[x..y] == (e + rest)[..y][h..]
    ensures (e + rest)[..y][..h] == e[..h]
  {
  }

  lemma CutBeyond(e: seq<byte>, rest: seq<byte>, x: nat, y: nat)
    requires |e| <= x <= y <= |e| + |rest|
    ensures (e + rest)[x..y] == rest[x - |e|..y - |e|]
  {
  }

  /** Two good cuts, one after the other. */
  ghost predicate Cuts(rs: seq<Record>, x: nat, y: nat) {
    AllSized(rs) && GoodCut(rs, x) && GoodCut(rs, y) && x <= y <= |EncodeAll(rs)|
  }

  /** Feeding all the bytes between the two cuts leads from one to the other. */
  ghost predicate Leads<K>(k: K, rs: seq<Record>, x: nat, y: nat, h: Handler<K>)
    requires Cuts(rs, x, y)
  {
    Feed(After(k, rs, x, h), EncodeAll(rs)[x..y], h) == After(k, rs, y, h)
  }

  /** From a cut inside the first record. */
  lemma {:induction false} FeedFirst<K>(k: K, rs: seq<Record>, x: nat, y: nat, h: Handler<K>)
    requires rs != [] && Cuts(rs, x, y) && AllExact(k, rs, h) && x < HEADER_LEN + |rs[0].content|
    ensures Leads(k, rs, x, y, h)
  {
    var r, e, rest := rs[0], Encode(rs[0]), EncodeAll(rs[1..]);
    LoopPrefix(k, rs, y, h);
    if x < HEADER_LEN {
      CutFirst(e, rest, 0, x, y);
      assert e[0..x] == e[..x];
    } else {
      CutFirst(e, rest, HEADER_LEN, x, y);
      LoopHeader(r, (e + rest)[..y], k, h);
    }
  }

  lemma {:induction false} SameChunk(rs: seq<Record>, x: nat, y: nat, n: nat)
    requires rs != [] && AllSized(rs) && n == |Encode(rs[0])| <= x <= y <= |EncodeAll(rs)|
    ensures y - n <= |EncodeAll(rs[1..])| && EncodeAll(rs)[x..y] == EncodeAll(rs[1..])[x - n..y - n]
  {
    CutBeyond(Encode(rs[0]), EncodeAll(rs[1..]), x, y);
  }

  /** Beyond the first record nothing of it matters any more. */
  lemma {:induction false} AfterLive<K>(k: K, rs: seq<Record>, x: nat, k': K, n: nat, h: Handler<K>)
    requires rs != [] && AllSized(rs) && GoodCut(rs, x) && x >= HEADER_LEN + |rs[0].content|
    requires n == |Encode(rs[0])| && Does(k, rs[0], h).Live? && Does(k, rs[0], h).k == k'
    ensures x >= n && GoodCut(rs[1..], x - n) && After(k, rs, x, h) == After(k', rs[1..], x - n, h)
  {
    AfterFirst(k, rs, x, h);
  }

  lemma {:induction false} LeadsNothing<K>(k: K, h: Handler<K>)
    ensures Leads(k, [], 0, 0, h)
  {
    FeedIdle(k, [], h);
    assert EncodeAll([])[0..0] == [];
  }

  lemma {:induction false} CutsBeyond(rs: seq<Record>, x: nat, y: nat)
    requires rs != [] && Cuts(rs, x, y) && x >= HEADER_LEN + |rs[0].content|
    ensures var n := |Encode(rs[0])|; x >= n && Cuts(rs[1..], x - n, y - n)
  {
  }

  lemma {:induction false} LeadsBeyond<K>(k: K, rs: seq<Record>, x: nat, y: nat, k': K, n: nat, h: Handler<K>)
    requires rs != [] && Cuts(rs, x, y) && x >= HEADER_LEN + |rs[0].content| && n == |Encode(rs[0])| <= x
    requires Does(k, rs[0], h).Live? && Does(k, rs[0], h).k == k'
    requires Cuts(rs[1..], x - n, y - n) && Leads(k', rs[1..], x - n, y - n, h)
    ensures Leads(k, rs, x, y, h)
  {
    AfterLive(k, rs, x, k', n, h);
    AfterLive(k, rs, y, k', n, h);
    SameChunk(rs, x, y, n);
  }

  lemma {:induction false} LeadsStopped<K>(k: K, rs: seq<Record>, x: nat, y: nat, h: Handler<K>)
    requires rs != [] && Cuts(rs, x, y) && x >= HEADER_LEN + |rs[0].content| && !Does(k, rs[0], h).Live?
    ensures Leads(k, rs, x, y, h)
  {
    AfterFirst(k, rs, x, h);
    AfterFirst(k, rs, y, h);
  }

  lemma {:induction false} ExactRest<K>(k: K, rs: seq<Record>, k': K, h: Handler<K>)
    requires rs != [] && AllExact(k, rs, h) && Does(k, rs[0], h).Live? && Does(k, rs[0], h).k == k'
    ensures AllExact(k', rs[1..], h)
  {
  }

  /** From one good cut to a later one. */
  lemma {:induction false} FeedMore<K>(k: K, rs: seq<Record>, x: nat, y: nat, h: Handler<K>)
    requires Cuts(rs, x, y) && AllExact(k, rs, h)
    ensures Leads(k, rs, x, y, h)
    decreases |rs|, 1
  {
    if rs == [] {
      LeadsNothing(k, h);
    } else if x < HEADER_LEN + |rs[0].content| {
      FeedFirst(k, rs, x, y, h);
    } else {
      FeedAfter(k, rs, x, y, |Encode(rs[0])|, h);
    }
  }

  /** From a cut beyond the first record. */
  lemma {:induction false} FeedAfter<K>(k: K, rs: seq<Record>, x: nat, y: nat, n: nat, h: Handler<K>)
    requires rs != [] && Cuts(rs, x, y) && AllExact(k, rs, h) && x >= HEADER_LEN + |rs[0].content|
    requires n == |Encode(rs[0])|
    ensures Leads(k, rs, x, y, h)
    decreases |rs|, 0
  {
    CutsBeyond(rs, x, y);
    match Does(k, rs[0], h)
    case Live(k', _) =>
      ExactRest(k, rs, k', h);
      FeedMore(k', rs[1..], x - n, y - n, h);
      LeadsBeyond(k, rs, x, y, k', n, h);
    case _ => LeadsStopped(k, rs, x, y, h);
  }

  lemma {:induction false} AfterAll<K>(k: K, rs: seq<Record>, h: Handler<K>)
    requires AllSized(rs)
    ensures GoodCut(rs, |EncodeAll(rs)|)
    ensures After(k, rs, |EncodeAll(rs)|, h) == HandleAll(k, rs, h)
    decreases |rs|
  {
    if rs != [] {
      match Does(k, rs[0], h)
      case Live(k', _) => AfterAll(k', rs[1..], h);
      case _ => AfterAll(k, rs[1..], h);
    }
  }

  /** Every boundary between two chunks is a good cut. */
  ghost predicate GoodCuts(rs: seq<Record>, chunks: seq<seq<byte>>) {
    chunks == [] || (GoodCut(rs, |Concat(chunks)|) && GoodCuts(rs, chunks[..|chunks| - 1]))
  }

  lemma {:induction false} FeedOne<K>(k: K, rs: seq<Record>, x: nat, y: nat, chunk: seq<byte>, h: Handler<K>)
    requires Cuts(rs, x, y) && AllExact(k, rs, h) && chunk == EncodeAll(rs)[x..y]
    ensures Feed(After(k, rs, x, h), chunk, h) == After(k, rs, y, h)
  {
    FeedMore(k, rs, x, y, h);
  }

  lemma PrefixParts(a: seq<byte>, b: seq<byte>, s: seq<byte>)
    requires a + b <= s
    ensures a <= s && s[|a|..|a| + |b|] == b
  {
    assert s[..|a + b|] == a + b;
    assert s[..|a|] == (a + b)[..|a|];
    assert s[|a|..|a| + |b|] == (a + b)[|a|..];
  }

  lemma {:induction false} FeedChunks<K>(k: K, rs: seq<Record>, chunks: seq<seq<byte>>, h: Handler<K>)
    requires AllSized(rs) && AllExact(k, rs, h) && GoodCuts(rs, chunks)
    requires Concat(chunks) <= EncodeAll(rs)
    ensures GoodCut(rs, |Concat(chunks)|)
    ensures FeedAll(Running(AtHeader([], k)), chunks, h) == After(k, rs, |Concat(chunks)|, h)
  {
    if chunks != [] {
      var front, last := chunks[..|chunks| - 1], chunks[|chunks| - 1];
      ConcatLast(chunks);
      var x := |Concat(front)|;
      PrefixParts(Concat(front), last, EncodeAll(rs));
      FeedChunks(k, rs, front, h);
      FeedOne(k, rs, x, |Concat(chunks)|, last, h);
    }
  }

  /**
   * However the bytes of a record sequence are cut up, as long as padding
   * comes with its content, each record is handled exactly once and in order
   * and nothing is left over.
   */
  lemma {:induction false} Segmentation<K>(k: K, rs: seq<Record>, chunks: seq<seq<byte>>, h: Handler<K>)
    requires AllSized(rs) && AllExact(k, rs, h) && GoodCuts(rs, chunks)
    requires Concat(chunks) == EncodeAll(rs)
    ensures FeedAll(Running(AtHeader([], k)), chunks, h) == HandleAll(k, rs, h)
  {
    FeedChunks(k, rs, chunks, h);
    AfterAll(k, rs, h);
  }

  // ------------------------------------------------- where the conditions come from

  /** What is left of a content is read as the next record, padding or not. */
  lemma {:induction false} LeftoverIsNext<K>(k: K, r: Record, tail: seq<byte>, h: Handler<K>)
    requires WellSized(r) && Contained(k, r, h) && Does(k, r, h).Live? && Does(k, r, h).taken <= |r.content|
    ensures var left := r.content[Does(k, r, h).taken..] + (r.padding + tail);
            |left| >= |r.padding| &&
            Loop(AtHeader(Encode(r) + tail, k), h) == Loop(AtHeader(left[|r.padding|..], Does(k, r, h).k), h)
  {
    LoopHeader(r, Encode(r) + tail, k, h);
    DropHeader(r, tail);
    BodyParts(r.content, r.padding + tail, Does(k, r, h).taken);
    assert DoesBefore(k, r, r.padding + tail, h) == Does(k, r, h);
  }

  lemma CutRecord(r: Record, j: nat)
    requires WellSized(r) && j <= |r.padding|
    ensures var e, cut := Encode(r), HEADER_LEN + |r.content| + j;
            && e[..cut][..HEADER_LEN] == e[..HEADER_LEN]
            && e[..cut][HEADER_LEN..] == r.content + r.padding[..j]
            && e[cut..] == r.padding[j..]
  {
  }

  lemma {:induction false} FeedTwo<K>(m: Machine<K>, a: seq<byte>, b: seq<byte>, h: Handler<K>)
    ensures FeedAll(m, [a, b], h) == Feed(Feed(m, a, h), b, h)
  {
    assert [a, b][..1] == [a] && [a][..0] == [];
    assert FeedAll(m, [a], h) == Feed(FeedAll(m, [], h), a, h);
  }

  lemma {:induction false} ShortPadding<K>(r: Record, j: nat, k: K, h: Handler<K>)
    requires WellSized(r) && Exact(k, r, h) && Does(k, r, h).Live? && j <= |r.padding|
    ensures Loop(AtBody(r.content + r.padding[..j], |r.content|, |r.padding|, r.typ, r.id, k), h) ==
            Running(AtHeader([], Does(k, r, h).k))
  {
    var src := r.content + r.padding[..j];
    assert src[..|r.content|] == r.content;
    assert src[|r.content|..] == r.padding[..j];
    assert DoesBefore(k, r, r.padding[..j], h) == Does(k, r, h);
    assert Drain(r.padding[..j], |r.padding|) == [];
  }

  lemma {:induction false} EarlyPadding<K>(k: K, r: Record, j: nat, h: Handler<K>)
    requires WellSized(r) && Exact(k, r, h) && Does(k, r, h).Live? && j <= |r.padding|
    ensures Feed(Running(AtHeader([], k)), Encode(r)[..HEADER_LEN + |r.content| + j], h) ==
            Between(Does(k, r, h))
  {
    var first := Encode(r)[..HEADER_LEN + |r.content| + j];
    FeedIdle(k, first, h);
    CutRecord(r, j);
    LoopHeader(r, first, k, h);
    ShortPadding(r, j, k, h);
  }

  /** Padding is not waited for: bytes of it that come later are read as the next record. */
  lemma {:induction false} LatePadding<K>(k: K, r: Record, j: nat, h: Handler<K>)
    requires WellSized(r) && Exact(k, r, h) && Does(k, r, h).Live? && j <= |r.padding|
    ensures var e, cut := Encode(r), HEADER_LEN + |r.content| + j;
            FeedAll(Running(AtHeader([], k)), [e[..cut], e[cut..]], h) ==
            Loop(AtHeader(r.padding[j..], Does(k, r, h).k), h)
  {
    var e, cut := Encode(r), HEADER_LEN + |r.content| + j;
    CutRecord(r, j);
    EarlyPadding(k, r, j, h);
    FeedTwo(Running(AtHeader([], k)), e[..cut], e[cut..], h);
    FeedIdle(Does(k, r, h).k, e[cut..], h);
  }

  /**
   * With padding that does not look like a header, zeros for one, the stream
   * stays in step exactly when all of it came in time.
   */
  lemma {:induction false} PaddingInTime<K>(k: K, r: Record, j: nat, h: Handler<K>)
    requires WellSized(r) && Exact(k, r, h) && Does(k, r, h).Live?
    requires j <= |r.padding| && (j < |r.padding| ==> r.padding[j] != VERSION_1)
    ensures var e, cut := Encode(r), HEADER_LEN + |r.content| + j;
            (FeedAll(Running(AtHeader([], k)), [e[..cut], e[cut..]], h) == Between(Does(k, r, h))) <==> j == |r.padding|
  {
    LatePadding(k, r, j, h);
    assert |r.padding[j..]| == |r.padding| - j;
    if j < |r.padding| { assert r.padding[j..][0] == r.padding[j]; }
  }
}
