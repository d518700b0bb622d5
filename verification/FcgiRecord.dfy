/** FastCGI records as section 3.3 of the FastCGI Specification 1.0 lays them out. */
module FcgiRecord {
  import opened Common

  const VERSION_1 := 1
  const BEGIN_REQUEST := 1
  const ABORT_REQUEST := 2
  const END_REQUEST := 3
  const PARAMS := 4
  const STDIN := 5
  const STDOUT := 6
  const HEADER_LEN := 8
  const MAX_CONTENT := 65535
  const REQUEST_COMPLETE: byte := 0

  datatype Record = Record(typ: byte, id: u16, content: seq<byte>, padding: seq<byte>)

  predicate WellSized(r: Record) {
    |r.content| <= MAX_CONTENT && |r.padding| <= 255
  }

  /** The 8-byte record header. */
  function Header(typ: byte, id: u16, len: u16, padding: byte): (s: seq<byte>)
    ensures |s| == HEADER_LEN
  {
    [VERSION_1, typ, id / 256, id % 256, len / 256, len % 256, padding, 0]
  }

  function Encode(r: Record): (s: seq<byte>)
    requires WellSized(r)
    ensures |s| == HEADER_LEN + |r.content| + |r.padding|
  {
    Header(r.typ, r.id, |r.content|, |r.padding|) + r.content + r.padding
  }

  function EncodeAll(rs: seq<Record>): seq<byte>
    requires forall r :: r in rs ==> WellSized(r)
  {
    if rs == [] then [] else Encode(rs[0]) + EncodeAll(rs[1..])
  }

  /** evbuffer_drain: as much as is there. */
  function Drain(src: seq<byte>, n: nat): seq<byte> {
    if n <= |src| then src[n..] else []
  }

  /** CAT of fcgi.c: two bytes of a field, low byte first argument. */
  function Cat(low: byte, high: byte): u16 {
    low + 256 * high as int
  }

  /** Reading a byte stream record by record; None when it is not a whole number of records. */
  function Decode(s: seq<byte>): Option<seq<Record>>
    decreases |s|
  {
    if s == [] then Some([])
    else if |s| < HEADER_LEN || s[0] != VERSION_1 then None
    else
      var len, pad := Cat(s[5], s[4]), s[6];
      if |s| < HEADER_LEN + len + pad then None
      else
        var r := Record(s[1], Cat(s[3], s[2]), s[HEADER_LEN..HEADER_LEN + len],
                        s[HEADER_LEN + len..HEADER_LEN + len + pad]);
        match Decode(s[HEADER_LEN + len + pad..])
        case None => None
        case Some(rs) => Some([r] + rs)
  }

  lemma {:induction false} DecodeFirst(r: Record, tail: seq<byte>)
    requires WellSized(r)
    ensures Decode(Encode(r) + tail) ==
            match Decode(tail) case None => None case Some(rs) => Some([r] + rs)
  {
    var s := Encode(r) + tail;
    var len, pad := |r.content|, |r.padding|;
    assert s[0] == VERSION_1 && s[1] == r.typ && s[6] == pad;
    assert Cat(s[3], s[2]) == r.id && Cat(s[5], s[4]) == len;
    assert s[HEADER_LEN..HEADER_LEN + len] == r.content;
    assert s[HEADER_LEN + len..HEADER_LEN + len + pad] == r.padding;
    assert s[HEADER_LEN + len + pad..] == tail;
  }

  /** Decoding inverts encoding. */
  lemma {:induction false} DecodeEncode(rs: seq<Record>)
    requires forall r :: r in rs ==> WellSized(r)
    ensures Decode(EncodeAll(rs)) == Some(rs)
  {
    if rs != [] {
      DecodeEncode(rs[1..]);
      DecodeFirst(rs[0], EncodeAll(rs[1..]));
      assert rs == [rs[0]] + rs[1..];
    }
  }

  lemma {:induction false} EncodeAllAppend(a: seq<Record>, b: seq<Record>)
    requires (forall r :: r in a ==> WellSized(r)) && (forall r :: r in b ==> WellSized(r))
    ensures EncodeAll(a + b) == EncodeAll(a) + EncodeAll(b)
  {
    if a == [] {
      assert a + b == b;
    } else {
      assert (a + b)[1..] == a[1..] + b;
      EncodeAllAppend(a[1..], b);
    }
  }

  lemma {:induction false} EncodeOne(r: Record)
    requires WellSized(r)
    ensures EncodeAll([r]) == Encode(r)
  {
    assert [r][1..] == [];
  }
}
