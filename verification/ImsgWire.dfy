/**
 * The imsg wire format and its transport between two processes: messages are
 * framed by a 16-byte header on a byte stream, descriptors travel beside the
 * stream (compat/imsg/imsg.c and imsg-buffer.c).
 */
module ImsgWire {
  import opened Common

  const HEADER_SIZE := 16
  const MAX_IMSGSIZE := 16384
  const READ_SIZE := 65535
  const IOV_MAX := 1024
  const HASFD := 1

  type u32 = x: int | 0 <= x < 0x1_0000_0000

  /** An open descriptor; the number -1 is None. */
  type Fd = nat
  /** A message as its composer meant it. */
  datatype Msg = Msg(typ: u32, peerid: u32, pid: u32, data: seq<byte>, fd: Option<Fd>)

  predicate Sendable(m: Msg) {
    |m.data| + HEADER_SIZE <= MAX_IMSGSIZE
  }

  // ------------------------------------------------------------------- framing

  function Put16(x: u16): (s: seq<byte>)
    ensures |s| == 2
  {
    [x % 256, x / 256]
  }

  function Put32(x: u32): (s: seq<byte>)
    ensures |s| == 4
  {
    [x % 256, x / 256 % 256, x / 0x1_0000 % 256, x / 0x100_0000]
  }

  function Get16(s: seq<byte>): (x: u16)
    requires |s| == 2
  {
    s[0] as int + 256 * s[1] as int
  }

  function Get32(s: seq<byte>): (x: u32)
    requires |s| == 4
  {
    s[0] as int + 256 * s[1] as int + 0x1_0000 * s[2] as int + 0x100_0000 * s[3] as int
  }

  lemma GetPut16(x: u16)
    ensures Get16(Put16(x)) == x
  {
  }

  lemma GetPut32(x: u32)
    ensures Get32(Put32(x)) == x
  {
    assert x / 0x1_0000 == x / 256 / 256 && x / 0x100_0000 == x / 256 / 256 / 256;
  }

  /** struct imsg_hdr in memory order. */
  function Header(typ: u32, len: u16, flags: u16, peerid: u32, pid: u32): (s: seq<byte>)
    ensures |s| == HEADER_SIZE
  {
    Put32(typ) + Put16(len) + Put16(flags) + Put32(peerid) + Put32(pid)
  }

  function Flags(m: Msg): u16 {
    if m.fd.Some? then HASFD else 0
  }

  function Encode(m: Msg): (s: seq<byte>)
    requires Sendable(m)
    ensures |s| == HEADER_SIZE + |m.data|
  {
    Header(m.typ, HEADER_SIZE + |m.data|, Flags(m), m.peerid, m.pid) + m.data
  }

  // ------------------------------------------------------------------ receiving

  datatype Reader = Reader(buf: seq<byte>, fds: seq<Fd>)

  datatype GetResult = NeedMore | Bad | Got(msg: Msg, rest: Reader)

  /** imsg_get. */
  function Get(r: Reader): (g: GetResult) {
    if |r.buf| < HEADER_SIZE then NeedMore
    else
      var len := Get16(r.buf[4..6]);
      if len < HEADER_SIZE || len > MAX_IMSGSIZE then Bad
      else if len > |r.buf| then NeedMore
      else
        var hasfd := Get16(r.buf[6..8]) % 2 == 1;
        var fd := if hasfd && r.fds != [] then Some(r.fds[0]) else None;
        Got(Msg(Get32(r.buf[0..4]), Get32(r.buf[8..12]), Get32(r.buf[12..16]), r.buf[HEADER_SIZE..len], fd),
            Reader(r.buf[len..], if fd.Some? then r.fds[1..] else r.fds))
  }

  lemma HeaderFields(typ: u32, len: u16, flags: u16, peerid: u32, pid: u32, tail: seq<byte>)
    ensures var s := Header(typ, len, flags, peerid, pid) + tail;
            && Get32(s[0..4]) == typ && Get16(s[4..6]) == len && Get16(s[6..8]) == flags
            && Get32(s[8..12]) == peerid && Get32(s[12..16]) == pid
  {
    var s := Header(typ, len, flags, peerid, pid) + tail;
    assert s[0..4] == Put32(typ) && s[4..6] == Put16(len) && s[6..8] == Put16(flags);
    assert s[8..12] == Put32(peerid) && s[12..16] == Put32(pid);
    GetPut32(typ);
    GetPut16(len);
    GetPut16(flags);
    GetPut32(peerid);
    GetPut32(pid);
  }

  /** A reader whose buffer starts with a message gets exactly that message. */
  lemma GetEncoded(m: Msg, tail: seq<byte>, fds: seq<Fd>)
    requires Sendable(m) && (m.fd.Some? ==> fds != [] && fds[0] == m.fd.value)
    ensures Get(Reader(Encode(m) + tail, fds)) == Got(m, Reader(tail, if m.fd.Some? then fds[1..] else fds))
  {
    var len := HEADER_SIZE + |m.data|;
    var s := Encode(m) + tail;
    HeaderFields(m.typ, len, Flags(m), m.peerid, m.pid, m.data + tail);
    assert s == Header(m.typ, len, Flags(m), m.peerid, m.pid) + (m.data + tail);
    assert s[HEADER_SIZE..len] == m.data && s[len..] == tail;
  }

  /** A proper prefix of a message is waited for, never misread. */
  lemma GetPartial(m: Msg, k: nat, fds: seq<Fd>)
    requires Sendable(m) && k < |Encode(m)|
    ensures Get(Reader(Encode(m)[..k], fds)) == NeedMore
  {
    var len := HEADER_SIZE + |m.data|;
    var s := Encode(m);
    HeaderFields(m.typ, len, Flags(m), m.peerid, m.pid, m.data);
    if k >= HEADER_SIZE { assert s[..k][4..6] == s[4..6]; }
  }

  /** Every complete message of a read buffer, and what is left. */
  function TakeAll(r: Reader): (t: (seq<Msg>, Reader))
    ensures !Get(t.1).Got? && |t.1.buf| <= |r.buf|
    decreases |r.buf|
  {
    match Get(r)
    case Got(m, rest) =>
      var (ms, left) := TakeAll(rest);
      ([m] + ms, left)
    case _ => ([], r)
  }

  /** A reader that waits for more holds less than one message of the largest size. */
  lemma WaitingLeavesRoom(r: Reader)
    requires Get(r).NeedMore?
    ensures |r.buf| < MAX_IMSGSIZE < READ_SIZE
  {
  }
}
