/**
 * FCGI_PARAMS content: the name-value pairs of section 3.4 of the FastCGI
 * Specification 1.0, and the loop of fcgi_parse_params that reads them.
 */
module FcgiParams {
  import opened Common
  import opened FcgiRecord

  const INT_LIMIT := 0x8000_0000
  const NAME_MAX := 31
  const GEMINI_MAXLEN := 1025
  const METHOD_SIZE := 8
  const SLASH: byte := 47

  /** HOST_NAME_MAX + 1 and PATH_MAX, which the platform chooses. */
  datatype Limits = Limits(host: nat, path: nat)

  // ------------------------------------------------------------- the encoding

  /** A pair, with the width chosen for each of its two lengths. */
  datatype Pair = Pair(name: seq<byte>, value: seq<byte>, wideName: bool, wideValue: bool)

  function EncodeLen(n: nat, wide: bool): (s: seq<byte>)
    requires n < if wide then INT_LIMIT else 128
    ensures |s| == if wide then 4 else 1
  {
    if wide then [128 + n / 0x100_0000, n / 0x1_0000 % 256, n / 256 % 256, n % 256] else [n]
  }

  /** Lengths that fit their widths, and whose sum fits an int. */
  predicate Codable(p: Pair) {
    && |p.name| + |p.value| < INT_LIMIT
    && |p.name| < (if p.wideName then INT_LIMIT else 128)
    && |p.value| < (if p.wideValue then INT_LIMIT else 128)
  }

  function EncodePair(p: Pair): (s: seq<byte>)
    requires Codable(p)
    ensures s != []
  {
    EncodeLen(|p.name|, p.wideName) + (EncodeLen(|p.value|, p.wideValue) + (p.name + p.value))
  }

  function EncodePairs(ps: seq<Pair>): seq<byte>
    requires forall p :: p in ps ==> Codable(p)
  {
    if ps == [] then [] else EncodePair(ps[0]) + EncodePairs(ps[1..])
  }

  // ---------------------------------------------------------- reading one pair

  /** The four bytes of a long length. */
  function Wide(s: seq<byte>): (n: nat)
    requires |s| == 4 && s[0] >= 128
    ensures n < INT_LIMIT
  {
    (s[0] as int - 128) * 0x100_0000 + s[1] as int * 0x1_0000 + s[2] as int * 256 + s[3]
  }

  /** The first bytes of a long length, the others being `b`. */
  function Filled(s: seq<byte>, b: byte): (t: seq<byte>)
    requires 0 < |s| < 4
    ensures |t| == 4 && t[0] == s[0]
  {
    s + if |s| == 1 then [b, b, b] else if |s| == 2 then [b, b] else [b]
  }

  /**
   * What parse_len makes of the input `src` with its counter at `most`. Where
   * bytes are not `there`, it goes on with whatever the variable holds: the
   * length is `low` to `high`, or may take one byte or four (Ambiguous).
   */
  datatype Len = Range(low: nat, high: nat, size: nat, there: bool) | Refused | Ambiguous

  function LenAt(src: seq<byte>, most: nat): (r: Len)
    ensures r.Range? ==> r.low <= r.high < INT_LIMIT && 1 <= r.size && (most > 0 ==> r.size <= most)
    ensures r.Range? ==> if r.there then r.low == r.high && r.size <= |src| else |src| < r.size
  {
    if src == [] then (if most < 4 then Range(0, 127, 1, false) else Ambiguous)
    else if src[0] < 128 then Range(src[0], src[0], 1, true)
    else if most < 4 then Refused
    else if |src| < 4 then Range(Wide(Filled(src, 0)), Wide(Filled(src, 255)), 4, false)
    else Range(Wide(src[..4]), Wide(src[..4]), 4, true)
  }

  /** By how much the loop counter is off after a pair: an over-long name has its value added, not taken. */
  function OffBy(n: nat, v: nat): nat {
    if n > NAME_MAX then 2 * v else 0
  }

  function Off(p: Pair): nat {
    OffBy(|p.name|, |p.value|)
  }

  /**
   * What the input starts with, for the loop with its counter at `most`: a pair
   * and how many bytes spell it; a pair whose bytes have not all arrived, with
   * the counter that would be left; lengths that are refused whatever the bytes
   * not there are; or Lost: that depends on them, or an int sum may overflow.
   */
  datatype Item = Got(p: Pair, size: nat) | Partly(left: nat) | Reject | Lost

  /** The test after both calls of parse_len, `left` being the counter, and then the pair. */
  function PairAfter(t: seq<byte>, name: Len, value: Len, left: int): (r: Item)
    requires name.Range? && value.Range?
  {
    var n, v := name.low, value.low;
    if name.high + value.high >= INT_LIMIT then Lost
    else if left < n + v then Reject
    else if !name.there || !value.there then Lost
    else if |t| < n + v then Partly(left - n - v + OffBy(n, v))
    else Got(Pair(t[..n], t[n..n + v], name.size == 4, value.size == 4), name.size + value.size + n + v)
  }

  /** What follows the lengths `name` and then `value`, the counter being at `left` between the two. */
  function PairRest(src: seq<byte>, left: int, name: Len, value: Len): (r: Item)
    requires name.Range?
  {
    match value
    case Refused => Reject
    case Ambiguous => Lost
    case Range(_, _, j, _) => PairAfter(Drain(src, j), name, value, left - j)
  }

  /** What follows the length `name`. */
  function PairWith(src: seq<byte>, most: nat, name: Len): (r: Item)
    requires name.Range? ==> name.size <= most
  {
    match name
    case Refused => Reject
    case Ambiguous => Lost
    case Range(_, _, i, _) => PairRest(Drain(src, i), most - i, name, LenAt(Drain(src, i), most - i))
  }

  function PairAt(src: seq<byte>, most: nat): (r: Item) {
    if most == 0 then Reject else PairWith(src, most, LenAt(src, most))
  }

  lemma DropDrop<T>(s: seq<T>, i: nat, j: nat)
    requires i + j <= |s|
    ensures s[i..][j..] == s[i + j..]
  {
  }

  lemma TakeTake(u: seq<byte>, n: nat, v: nat)
    requires n + v <= |u|
    ensures u == (u[..n] + u[n..n + v]) + u[n + v..]
  {
  }

  lemma Regroup(a: seq<byte>, b: seq<byte>, c: seq<byte>, t: seq<byte>)
    ensures a + (b + (c + t)) == (a + (b + c)) + t
  {
    Assoc(b, c, t);
    Assoc(a, b + c, t);
  }

  lemma ThreeParts(a: seq<byte>, b: seq<byte>, c: seq<byte>)
    ensures var t := (a + b) + c; t[..|a|] == a && t[|a|..|a| + |b|] == b && t[|a| + |b|..] == c
  {
  }

  lemma Digits(a: int, b: int, c: int, d: int)
    requires 0 <= a < 128 && 0 <= b < 256 && 0 <= c < 256 && 0 <= d < 256
    ensures var n := a * 0x100_0000 + b * 0x1_0000 + c * 256 + d;
            n / 0x100_0000 == a && n / 0x1_0000 % 256 == b && n / 256 % 256 == c && n % 256 == d
  {
    var n := a * 0x100_0000 + b * 0x1_0000 + c * 256 + d;
    assert n / 256 == a * 0x1_0000 + b * 256 + c;
    assert n / 0x1_0000 == a * 256 + b;
  }

  lemma WideRoundTrip(n: nat)
    requires n < INT_LIMIT
    ensures EncodeLen(n, true)[0] >= 128 && Wide(EncodeLen(n, true)) == n
  {
    var a, b, c := n / 0x100_0000, n / 0x1_0000, n / 256;
    assert b == a * 256 + b % 256 && c == b * 256 + c % 256 && n == c * 256 + n % 256;
  }

  lemma LenRoundTrip(n: nat, wide: bool, t: seq<byte>, most: nat)
    requires n < (if wide then INT_LIMIT else 128) && |EncodeLen(n, wide)| <= most
    ensures var e := EncodeLen(n, wide); LenAt(e + t, most) == Range(n, n, |e|, true) && Drain(e + t, |e|) == t
  {
    var e := EncodeLen(n, wide);
    if wide {
      WideRoundTrip(n);
      assert (e + t)[..4] == e;
    }
  }

  /** A pair encoded with either width of each length is read back whole, whatever follows and whatever the counter. */
  lemma {:induction false} PairRoundTrip(p: Pair, t: seq<byte>, most: nat)
    requires Codable(p) && |EncodePair(p)| <= most
    ensures PairAt(EncodePair(p) + t, most) == Got(p, |EncodePair(p)|)
  {
    var ne, ve := EncodeLen(|p.name|, p.wideName), EncodeLen(|p.value|, p.wideValue);
    var body := (p.name + p.value) + t;
    Regroup(ne, ve, p.name + p.value, t);
    LenRoundTrip(|p.name|, p.wideName, ve + body, most);
    LenRoundTrip(|p.value|, p.wideValue, body, most - |ne|);
    ThreeParts(p.name, p.value, t);
  }

  lemma LenSpelled(s: seq<byte>, most: nat)
    requires LenAt(s, most).Range? && LenAt(s, most).there
    ensures var Range(n, _, i, _) := LenAt(s, most);
            (i == 1 || i == 4) && n < (if i == 4 then INT_LIMIT else 128) && s[..i] == EncodeLen(n, i == 4)
  {
    if s[0] >= 128 { Digits(s[0] as int - 128, s[1], s[2], s[3]); }
  }

  lemma FourParts(s: seq<byte>, i: nat, j: nat, n: nat, v: nat)
    requires i + j + n + v <= |s|
    ensures var t := s[i + j..];
            s[..i] + (s[i..i + j] + (t[..n] + t[n..n + v])) == s[..i + j + n + v]
  {
  }

  /** A pair and how many bytes spell it, at the start of `s`. */
  ghost predicate Spelled(s: seq<byte>, p: Pair, n: nat) {
    n <= |s| && Codable(p) && s[..n] == EncodePair(p)
  }

  lemma {:induction false} AfterSpelled(s: seq<byte>, n: nat, v: nat, i: nat, j: nat)
    requires i + j + n + v <= |s| && (i == 1 || i == 4) && (j == 1 || j == 4) && n + v < INT_LIMIT
    requires n < (if i == 4 then INT_LIMIT else 128) && v < (if j == 4 then INT_LIMIT else 128)
    requires s[..i] == EncodeLen(n, i == 4) && s[i..i + j] == EncodeLen(v, j == 4)
    ensures var t := s[i + j..]; Spelled(s, Pair(t[..n], t[n..n + v], i == 4, j == 4), i + j + n + v)
  {
    FourParts(s, i, j, n, v);
  }

  lemma DrainDrain(s: seq<byte>, i: nat, j: nat)
    ensures Drain(Drain(s, i), j) == Drain(s, i + j)
  {
  }

  /** A pair that is read has both lengths there, and as many bytes after them. */
  lemma {:induction false} AfterGot(t: seq<byte>, name: Len, value: Len, left: int)
    requires name.Range? && value.Range? && PairAfter(t, name, value, left).Got?
    ensures var Got(p, k) := PairAfter(t, name, value, left);
            var n, v := name.low, value.low;
            && name.there && value.there && n + v <= |t| && n + v <= left && name.high + value.high < INT_LIMIT
            && p == Pair(t[..n], t[n..n + v], name.size == 4, value.size == 4)
            && k == name.size + value.size + n + v
  {
  }

  lemma {:induction false} SpelledFrom(s: seq<byte>, t: seq<byte>, name: Len, value: Len, left: int)
    requires name.Range? && value.Range? && PairAfter(t, name, value, left).Got?
    requires var n, v, i, j := name.low, value.low, name.size, value.size;
             && i + j <= |s| && (i == 1 || i == 4) && (j == 1 || j == 4) && t == s[i + j..] && n + v < INT_LIMIT
             && n < (if i == 4 then INT_LIMIT else 128) && v < (if j == 4 then INT_LIMIT else 128)
             && s[..i] == EncodeLen(n, i == 4) && s[i..i + j] == EncodeLen(v, j == 4)
    ensures var Got(p, k) := PairAfter(t, name, value, left);
            Spelled(s, p, k) && k <= name.size + value.size + left
  {
    AfterGot(t, name, value, left);
    AfterSpelled(s, name.low, value.low, name.size, value.size);
  }

  lemma {:induction false} LensSpelled(s: seq<byte>, most: nat, r: seq<byte>, i: nat, j: nat)
    requires LenAt(s, most).Range? && LenAt(s, most).there && i == LenAt(s, most).size <= most && r == Drain(s, i)
    requires LenAt(r, most - i).Range? && LenAt(r, most - i).there && j == LenAt(r, most - i).size
    ensures var n, v := LenAt(s, most).low, LenAt(r, most - i).low;
            && i + j <= |s| && (i == 1 || i == 4) && (j == 1 || j == 4)
            && n < (if i == 4 then INT_LIMIT else 128) && v < (if j == 4 then INT_LIMIT else 128)
            && s[..i] == EncodeLen(n, i == 4) && s[i..i + j] == EncodeLen(v, j == 4)
  {
    LenSpelled(s, most);
    LenSpelled(r, most - i);
    assert r[..j] == s[i..i + j];
  }

  /** Whatever is read as a pair is the encoding of that pair, and within the counter. */
  lemma {:induction false} PairSpelled(s: seq<byte>, most: nat)
    requires PairAt(s, most).Got?
    ensures Spelled(s, PairAt(s, most).p, PairAt(s, most).size) && PairAt(s, most).size <= most
  {
    var name := LenAt(s, most);
    var i, r := name.size, Drain(s, name.size);
    var value := LenAt(r, most - i);
    var j := value.size;
    assert PairAt(s, most) == PairAfter(Drain(r, j), name, value, most - i - j);
    AfterGot(Drain(r, j), name, value, most - i - j);
    LensSpelled(s, most, r, i, j);
    DrainDrain(s, i, j);
    SpelledFrom(s, Drain(r, j), name, value, most - i - j);
  }

  // --------------------------------------------------- what more input can change

  lemma DrainMore(s: seq<byte>, t: seq<byte>, i: nat)
    ensures i <= |s| ==> Drain(s + t, i) == Drain(s, i) + t
    ensures i >= |s| ==> Drain(s, i) == []
  {
  }

  lemma FilledMore(s: seq<byte>, t: seq<byte>)
    requires 0 < |s| < 4 && s[0] >= 128
    ensures |s + t| >= 4 ==> Wide(Filled(s, 0)) <= Wide((s + t)[..4]) <= Wide(Filled(s, 255))
    ensures |s + t| < 4 ==>
              && Wide(Filled(s, 0)) <= Wide(Filled(s + t, 0))
              && Wide(Filled(s + t, 255)) <= Wide(Filled(s, 255))
  {
  }

  /** `b` is what the length `a` may become. */
  predicate Narrows(a: Len, b: Len) {
    match a
    case Refused => b == Refused
    case Ambiguous => true
    case Range(low, high, i, there) =>
      if there then b == a else b == Refused || (b.Range? && low <= b.low && b.high <= high && b.size == i)
  }

  /** With more input a length that is there stays, one that is refused stays refused, and a range can only narrow. */
  lemma {:induction false} LenMore(s: seq<byte>, t: seq<byte>, most: nat)
    ensures Narrows(LenAt(s, most), LenAt(s + t, most))
  {
    if s == [] {
      assert s + t == t;
    } else if |s| < 4 && s[0] >= 128 {
      FilledMore(s, t);
    } else if |s| >= 4 {
      assert (s + t)[..4] == s[..4];
    }
  }

  /** What `a` may become when more input arrives. */
  predicate Extends(a: Item, b: Item, most: nat) {
    match a
    case Got(_, _) => b == a
    case Reject => b == Reject
    case Partly(left) => b == a || (b.Got? && b.size <= most && most - b.size + Off(b.p) == left)
    case Lost => true
  }

  lemma {:induction false} AfterMore(
    t: seq<byte>, t': seq<byte>, name: Len, name': Len, value: Len, value': Len, left: int, most: nat)
    requires name.Range? && name'.Range? && value.Range? && value'.Range?
    requires name.low <= name'.low && name'.high <= name.high && name.size == name'.size
    requires value.low <= value'.low && value'.high <= value.high && value.size == value'.size
    requires name.there ==> name' == name
    requires value.there ==> value' == value
    requires name.there && value.there ==> t <= t'
    requires left == most - name.size - value.size
    ensures Extends(PairAfter(t, name, value, left), PairAfter(t', name', value', left), most)
  {
    var n, v := name.low, value.low;
    if name.there && value.there && n + v <= |t| {
      assert t'[..n] == t[..n] && t'[n..n + v] == t[n..n + v];
    }
  }

  lemma {:induction false} RestMore(
    r: seq<byte>, x: seq<byte>, left: int, a: Len, a': Len, b: Len, b': Len, most: nat)
    requires a.Range? && a'.Range? && Narrows(a, a') && Narrows(b, b') && left == most - a.size
    requires b.Range? && b.there ==> b.size <= |r|
    ensures Extends(PairRest(r, left, a, b), PairRest(r + x, left, a', b'), most)
  {
    if b.Range? && b'.Range? {
      var j := b.size;
      DrainMore(r, x, j);
      AfterMore(Drain(r, j), Drain(r + x, j), a, a', b, b', left - j, most);
    }
  }

  lemma {:induction false} WithMore(s: seq<byte>, t: seq<byte>, most: nat, a: Len, a': Len)
    requires Narrows(a, a') && (a.Range? ==> a.size <= most) && (a'.Range? ==> a'.size <= most)
    requires a.Range? ==> if a.there then a.size <= |s| else |s| < a.size
    ensures Extends(PairWith(s, most, a), PairWith(s + t, most, a'), most)
  {
    if a.Range? && a'.Range? {
      var i := a.size;
      var r := Drain(s, i);
      DrainMore(s, t, i);
      var x := if a.there then t else Drain(s + t, i);
      assert Drain(s + t, i) == r + x;
      LenMore(r, x, most - i);
      RestMore(r, x, most - i, a, a', LenAt(r, most - i), LenAt(r + x, most - i), most);
    }
  }

  /** A pair that has been read or refused has been so for good. */
  lemma {:induction false} PairMore(s: seq<byte>, t: seq<byte>, most: nat)
    ensures Extends(PairAt(s, most), PairAt(s + t, most), most)
  {
    LenMore(s, t, most);
    if most > 0 { WithMore(s, t, most, LenAt(s, most), LenAt(s + t, most)); }
  }

  /** With one byte left on the counter the next pair is refused whatever the input. */
  lemma OneLeft(s: seq<byte>)
    ensures PairAt(s, 1) == Reject
  {
  }

  /** With nothing there and more than one byte on the counter, anything may be read. */
  lemma NothingThere(most: nat)
    requires most >= 2
    ensures PairAt([], most) == Lost
  {
  }

  // --------------------------------------------- what is undecided may go either way

  function Zeros(n: nat): (s: seq<byte>)
    ensures |s| == n
  {
    seq(n, i => 0)
  }

  /** Both lengths are there, and their sum overflows an int. */
  ghost predicate Overflows(s: seq<byte>, most: nat) {
    most > 0 && LenAt(s, most).Range? && LenAt(s, most).there &&
    var i := LenAt(s, most).size;
    var value := LenAt(Drain(s, i), most - i);
    value.Range? && value.there && LenAt(s, most).low + value.low >= INT_LIMIT
  }

  /** All of `s` is one pair, after which the counter is not at one. */
  ghost predicate Whole(s: seq<byte>, most: nat, next: (seq<byte>, nat) -> Item) {
    next(s, most).Got? && next(s, most).size == |s| <= most && most - |s| + Off(next(s, most).p) != 1
  }

  ghost predicate WholePair(s: seq<byte>, most: nat) {
    Whole(s, most, PairAt)
  }

  lemma RangeWide(s: seq<byte>, most: nat)
    requires LenAt(s, most).Range? && !LenAt(s, most).there
    ensures LenAt(s, most).low < LenAt(s, most).high
  {
  }

  /** The bytes missing from a length can be such that it is the least, or the least but one. */
  lemma {:induction false} LenLow(s: seq<byte>, most: nat, k: nat) returns (t: seq<byte>)
    requires LenAt(s, most).Range? && !LenAt(s, most).there && k <= 1
    ensures var Range(low, _, i, _) := LenAt(s, most);
            |s + t| == i && LenAt(s + t, most) == Range(low + k, low + k, i, true)
  {
    if s == [] {
      t := [k];
      assert s + t == [k];
    } else {
      t := if |s| == 1 then [0, 0, k] else if |s| == 2 then [0, k] else [k];
      assert (s + t)[..4] == s + t;
    }
  }

  /** Or that it is the largest. */
  lemma {:induction false} LenHigh(s: seq<byte>, most: nat) returns (t: seq<byte>)
    requires LenAt(s, most).Range? && !LenAt(s, most).there
    ensures var Range(_, high, i, _) := LenAt(s, most);
            |s + t| == i && LenAt(s + t, most) == Range(high, high, i, true)
  {
    if s == [] {
      t := [127];
      assert s + t == [127];
    } else {
      t := if |s| == 1 then [255, 255, 255] else if |s| == 2 then [255, 255] else [255];
      assert (s + t)[..4] == s + t;
    }
  }

  /** Lengths that are there stay, and what follows them grows. */
  lemma {:induction false} SameLens(s: seq<byte>, t: seq<byte>, most: nat, name: Len, r: seq<byte>, value: Len)
    requires most > 0 && name == LenAt(s, most) && name.Range? && name.there && r == Drain(s, name.size)
    requires value == LenAt(r, most - name.size) && value.Range? && value.there
    ensures var left := most - name.size - value.size;
            && PairAt(s, most) == PairAfter(Drain(r, value.size), name, value, left)
            && PairAt(s + t, most) == PairAfter(Drain(r, value.size) + t, name, value, left)
  {
    LenMore(s, t, most);
    DrainMore(s, t, name.size);
    LenMore(r, t, most - name.size);
    DrainMore(r, t, value.size);
  }

  lemma WholeAfter(t: seq<byte>, name: Len, value: Len, left: int)
    requires name.Range? && value.Range? && name.there && value.there
    requires |t| == name.low + value.low <= left && name.high + value.high < INT_LIMIT
    ensures var b := PairAfter(t, name, value, left);
            b.Got? && b.size == name.size + value.size + |t| && Off(b.p) == OffBy(name.low, value.low)
  {
  }

  /** A pair whose lengths are there can be completed. */
  lemma {:induction false} Complete(s: seq<byte>, most: nat, name: Len, value: Len)
    requires most > 0 && name == LenAt(s, most) && name.Range? && name.there
    requires value == LenAt(Drain(s, name.size), most - name.size) && value.Range? && value.there
    requires var n, v, left := name.low, value.low, most - name.size - value.size;
             n + v < INT_LIMIT && n + v <= left && |s| == name.size + value.size && left - n - v + OffBy(n, v) != 1
    ensures WholePair(s + Zeros(name.low + value.low), most)
  {
    var t, r := Zeros(name.low + value.low), Drain(s, name.size);
    SameLens(s, t, most, name, r, value);
    assert Drain(r, value.size) == [] && [] + t == t;
    WholeAfter(t, name, value, most - name.size - value.size);
  }

  /** The value's length is not there, the name's is: `u` are the bytes of the former. */
  lemma {:induction false} WithValue(s: seq<byte>, u: seq<byte>, most: nat, name: Len, r: seq<byte>, v: nat, j: nat)
    requires most > 0 && name == LenAt(s, most) && name.Range? && name.there && r == Drain(s, name.size)
    requires |r + u| == j && LenAt(r + u, most - name.size) == Range(v, v, j, true)
    ensures LenAt(s + u, most) == name && Drain(s + u, name.size) == r + u && |s + u| == name.size + j
  {
    LenMore(s, u, most);
    DrainMore(s, u, name.size);
  }

  lemma {:induction false} ValueHigh(s: seq<byte>, most: nat, name: Len, r: seq<byte>, value: Len)
    returns (t: seq<byte>)
    requires most > 0 && name == LenAt(s, most) && name.Range? && name.there && r == Drain(s, name.size)
    requires value == LenAt(r, most - name.size) && value.Range? && !value.there
    requires name.low + value.high >= INT_LIMIT
    ensures Overflows(s + t, most)
  {
    t := LenHigh(r, most - name.size);
    WithValue(s, t, most, name, r, value.high, value.size);
  }

  lemma {:induction false} CompleteLow(s: seq<byte>, u: seq<byte>, most: nat, name: Len, value: Len)
    returns (t: seq<byte>)
    requires most > 0 && name == LenAt(s + u, most) && name.Range? && name.there
    requires value == LenAt(Drain(s + u, name.size), most - name.size) && value.Range? && value.there
    requires var n, v, left := name.low, value.low, most - name.size - value.size;
             && n + v < INT_LIMIT && n + v <= left && |s + u| == name.size + value.size
             && left - n - v + OffBy(n, v) != 1
    ensures WholePair(s + t, most)
  {
    var z := Zeros(name.low + value.low);
    Complete(s + u, most, name, value);
    t := u + z;
    Assoc(s, u, z);
  }

  lemma {:induction false} ValueLow(s: seq<byte>, most: nat, name: Len, r: seq<byte>, value: Len, v: nat)
    returns (t: seq<byte>)
    requires most > 0 && name == LenAt(s, most) && name.Range? && name.there && r == Drain(s, name.size)
    requires value == LenAt(r, most - name.size) && value.Range? && !value.there
    requires var n, left := name.low, most - name.size - value.size;
             && value.low <= v <= value.low + 1 && n + v < INT_LIMIT && n + v <= left
             && left - n - v + OffBy(n, v) != 1
    ensures WholePair(s + t, most)
  {
    var u := LenLow(r, most - name.size, v - value.low);
    WithValue(s, u, most, name, r, v, value.size);
    t := CompleteLow(s, u, most, name, Range(v, v, value.size, true));
  }

  lemma {:induction false} ValueOpen(s: seq<byte>, most: nat, name: Len, value: Len) returns (t: seq<byte>)
    requires most > 0 && name == LenAt(s, most) && name.Range? && name.there
    requires value == LenAt(Drain(s, name.size), most - name.size) && value.Range? && !value.there
    requires PairAt(s, most) == Lost
    ensures WholePair(s + t, most) || Overflows(s + t, most)
  {
    var n, r, left := name.low, Drain(s, name.size), most - name.size - value.size;
    assert PairAt(s, most) == PairAfter(Drain(r, value.size), name, value, left);
    if n + value.high >= INT_LIMIT {
      t := ValueHigh(s, most, name, r, value);
    } else {
      var v := if left - n - value.low + OffBy(n, value.low) == 1 then value.low + 1 else value.low;
      RangeWide(r, most - name.size);
      t := ValueLow(s, most, name, r, value, v);
    }
  }

  /** The value's length may take one byte or four. */
  lemma {:induction false} EitherOpen(s: seq<byte>, most: nat, name: Len) returns (t: seq<byte>)
    requires most > 0 && name == LenAt(s, most) && name.Range? && name.there && |s| == name.size && most - |s| >= 4
    ensures WholePair(s + t, most) || Overflows(s + t, most)
  {
    var n, i := name.low, name.size;
    t := if n == 0 then [0] else [255, 255, 255, 255];
    LenMore(s, t, most);
    DrainMore(s, t, i);
    assert Drain(s, i) == [] && [] + t == t;
    if n == 0 {
      Complete(s + t, most, name, Range(0, 0, 1, true));
      assert s + t + Zeros(0) == s + t;
    }
  }

  lemma {:induction false} NameThere(s: seq<byte>, most: nat, name: Len) returns (t: seq<byte>)
    requires most > 0 && name == LenAt(s, most) && name.Range? && name.there && PairAt(s, most) == Lost
    ensures WholePair(s + t, most) || Overflows(s + t, most)
  {
    var value := LenAt(Drain(s, name.size), most - name.size);
    if value == Ambiguous {
      t := EitherOpen(s, most, name);
    } else if value.there {
      t := [];
      assert s + t == s;
    } else {
      t := ValueOpen(s, most, name, value);
    }
  }

  /** What is lost can be completed to a pair after which the loop may end well, or to lengths that overflow. */
  lemma {:induction false} LostOpen(s: seq<byte>, most: nat) returns (t: seq<byte>)
    requires most > 0 && PairAt(s, most) == Lost
    ensures WholePair(s + t, most) || Overflows(s + t, most)
  {
    var name := LenAt(s, most);
    if name == Ambiguous {
      t := [0, 0];
      assert s + t == [0, 0] && Drain([0, 0], 1) == [0];
    } else if name.there {
      t := NameThere(s, most, name);
    } else {
      DrainMore(s, [], name.size);
      var value := LenAt([], most - name.size);
      var u;
      if value.Range? && name.high + value.high >= INT_LIMIT {
        u := LenHigh(s, most);
      } else {
        u := LenLow(s, most, 0);
      }
      DrainMore(s + u, [], name.size);
      var x := NameThere(s + u, most, LenAt(s + u, most));
      t := u + x;
      Assoc(s, u, x);
    }
  }

  lemma PartlyAfter(u: seq<byte>, name: Len, value: Len, left: int)
    requires name.Range? && value.Range? && PairAfter(u, name, value, left).Partly?
    ensures name.there && value.there && |u| < name.low + value.low <= left
    ensures var n, v := name.low, value.low;
            var b := PairAfter(u + Zeros(n + v - |u|), name, value, left);
            && b.Got? && b.size == name.size + value.size + n + v
            && left - n - v + Off(b.p) == PairAfter(u, name, value, left).left
  {
  }

  /** The bytes of a pair that have not arrived may arrive. */
  lemma {:induction false} PartlyOpen(s: seq<byte>, most: nat) returns (t: seq<byte>)
    requires most > 0 && PairAt(s, most).Partly? && PairAt(s, most).left != 1
    ensures WholePair(s + t, most)
  {
    var name := LenAt(s, most);
    var r := Drain(s, name.size);
    var value := LenAt(r, most - name.size);
    var u, left := Drain(r, value.size), most - name.size - value.size;
    PartlyAfter(u, name, value, left);
    t := Zeros(name.low + value.low - |u|);
    SameLens(s, t, most, name, r, value);
  }

  /** What is not settled at the end of the input may still turn out well, or overflow. */
  ghost predicate OpenAt(s: seq<byte>, most: nat, next: (seq<byte>, nat) -> Item) {
    most > 0 && (next(s, most) == Lost || (next(s, most).Partly? && next(s, most).left != 1)) ==>
      exists t :: Whole(s + t, most, next) || Overflows(s + t, most)
  }

  lemma {:induction false} PairAtOpen(s: seq<byte>, most: nat)
    ensures OpenAt(s, most, PairAt)
  {
    if most > 0 && PairAt(s, most) == Lost {
      var t := LostOpen(s, most);
      assert Whole(s + t, most, PairAt) || Overflows(s + t, most);
    } else if most > 0 && PairAt(s, most).Partly? && PairAt(s, most).left != 1 {
      var t := PartlyOpen(s, most);
      assert Whole(s + t, most, PairAt);
    }
  }

  // -------------------------------------------------------------------- the loop

  /** All the pairs, first to last, into whatever they are collected in. */
  function Fold<C>(c: C, ps: seq<Pair>, f: (C, Pair) -> C): C {
    if ps == [] then c else f(Fold(c, ps[..|ps| - 1], f), ps[|ps| - 1])
  }

  lemma {:induction false} FoldFirst<C>(c: C, p: Pair, ps: seq<Pair>, f: (C, Pair) -> C)
    ensures Fold(c, [p] + ps, f) == Fold(f(c, p), ps, f)
  {
    var all := [p] + ps;
    if ps == [] {
      assert all[..0] == [] && all == [p];
    } else {
      FoldFirst(c, p, ps[..|ps| - 1], f);
      assert all[..|all| - 1] == [p] + ps[..|ps| - 1];
    }
  }

  /**
   * Where the loop of fcgi_parse_params ends. Done: how many bytes it took.
   * Failed: whatever bytes may still arrive. Unknown: that depends on bytes
   * that have not arrived, or an int sum overflows.
   */
  datatype Parsed<C> = Done(c: C, taken: nat) | Failed | Unknown

  /** What is there of a content of `toread` bytes. */
  function InSight(src: seq<byte>, toread: nat): seq<byte> {
    if toread < |src| then src[..toread] else src
  }

  function Further<C>(n: nat, r: Parsed<C>): Parsed<C> {
    match r case Done(c, k) => Done(c, n + k) case _ => r
  }

  /** How records are cut into pairs, and what is done with each. */
  datatype Scheme<!C> = Scheme(next: (seq<byte>, nat) -> Item, apply: (C, Pair) -> C)

  /**
   * The loop on the input `src` with the counter at `toread`, which need not
   * match the record. A pair that has not all arrived ends the input, and then
   * the next turn fails for certain exactly if one byte is left on the counter.
   */
  function Walk<C>(src: seq<byte>, toread: nat, c: C, g: Scheme<C>): (r: Parsed<C>)
    ensures r.Done? ==> r.taken <= |src|
    decreases |src|
  {
    if toread == 0 then Done(c, 0)
    else
      match g.next(src, toread)
      case Reject => Failed
      case Lost => Unknown
      case Partly(left) => if left == 1 then Failed else Unknown
      case Got(p, n) =>
        if n == 0 || n > |src| || n > toread then Unknown
        else Further(n, Walk(src[n..], toread - n + Off(p), g.apply(c, p), g))
  }

  /** Only the encoding of a pair is read as one, and within the counter. */
  ghost predicate Reads(s: seq<byte>, most: nat, next: (seq<byte>, nat) -> Item) {
    next(s, most).Got? ==> Spelled(s, next(s, most).p, next(s, most).size) && next(s, most).size <= most
  }

  /** An encoded pair within the counter is read back. */
  ghost predicate ReadsBack(p: Pair, t: seq<byte>, most: nat, next: (seq<byte>, nat) -> Item) {
    Codable(p) && |EncodePair(p)| <= most ==> next(EncodePair(p) + t, most) == Got(p, |EncodePair(p)|)
  }

  /** More input changes nothing that is settled. */
  ghost predicate Settles(s: seq<byte>, t: seq<byte>, most: nat, next: (seq<byte>, nat) -> Item) {
    Extends(next(s, most), next(s + t, most), most)
  }

  /** One byte on the counter is never enough. */
  ghost predicate NeedsTwo(s: seq<byte>, next: (seq<byte>, nat) -> Item) {
    next(s, 1) == Reject
  }

  ghost predicate Lawful(next: (seq<byte>, nat) -> Item) {
    && (forall p, t, most :: ReadsBack(p, t, most, next))
    && (forall s, most :: Reads(s, most, next))
    && (forall s, t, most :: Settles(s, t, most, next))
    && (forall s :: NeedsTwo(s, next))
  }

  lemma {:induction false} PairAtLawful()
    ensures Lawful(PairAt)
  {
    forall p, t, most
      ensures ReadsBack(p, t, most, PairAt)
    {
      if Codable(p) && |EncodePair(p)| <= most { PairRoundTrip(p, t, most); }
    }
    forall s, most
      ensures Reads(s, most, PairAt)
    {
      if PairAt(s, most).Got? { PairSpelled(s, most); }
    }
    forall s, t, most
      ensures Settles(s, t, most, PairAt)
    {
      PairMore(s, t, most);
    }
    forall s
      ensures NeedsTwo(s, PairAt)
    {
      OneLeft(s);
    }
  }

  lemma DropFront(s: seq<byte>, tail: seq<byte>, n: nat)
    requires n <= |s|
    ensures (s + tail)[n..] == s[n..] + tail
  {
  }

  lemma {:induction false} OneLeftFails<C>(src: seq<byte>, c: C, g: Scheme<C>)
    requires Lawful(g.next)
    ensures Walk(src, 1, c, g) == Failed
  {
    assert NeedsTwo(src, g.next);
  }

  lemma {:induction false} PartlyFails<C>(src: seq<byte>, toread: nat, c: C, g: Scheme<C>)
    requires Lawful(g.next) && toread > 0 && Extends(Partly(1), g.next(src, toread), toread)
    ensures Walk(src, toread, c, g) == Failed
  {
    if g.next(src, toread).Got? {
      var Got(p, n) := g.next(src, toread);
      assert Reads(src, toread, g.next);
      OneLeftFails(src[n..], g.apply(c, p), g);
    }
  }

  lemma {:induction false} WalkGot<C>(src: seq<byte>, p: Pair, n: nat, toread: nat, c: C, g: Scheme<C>)
    requires toread > 0 && g.next(src, toread) == Got(p, n) && 0 < n <= |src| && n <= toread
    ensures Walk(src, toread, c, g) == Further(n, Walk(src[n..], toread - n + Off(p), g.apply(c, p), g))
  {
  }

  /** A loop that has ended has ended the same way whatever arrives. */
  lemma {:induction false} WalkMore<C>(src: seq<byte>, tail: seq<byte>, toread: nat, c: C, g: Scheme<C>)
    requires Lawful(g.next) && Walk(src, toread, c, g) != Unknown
    ensures Walk(src + tail, toread, c, g) == Walk(src, toread, c, g)
    decreases |src|
  {
    if toread > 0 {
      assert Settles(src, tail, toread, g.next);
      assert Reads(src, toread, g.next);
      match g.next(src, toread)
      case Got(p, n) =>
        WalkGot(src, p, n, toread, c, g);
        WalkGot(src + tail, p, n, toread, c, g);
        DropFront(src, tail, n);
        WalkMore(src[n..], tail, toread - n + Off(p), g.apply(c, p), g);
      case Partly(_) => PartlyFails(src + tail, toread, c, g);
      case Reject =>
    }
  }

  // --------------------------------------------- pairs, and what is left of a record

  predicate AllCodable(ps: seq<Pair>) {
    forall p :: p in ps ==> Codable(p)
  }

  /** Pairs the loop steps over exactly: an over-long name must come with an empty value. */
  predicate Tame(p: Pair) {
    |p.name| <= 31 || p.value == []
  }

  predicate AllTame(ps: seq<Pair>) {
    forall p :: p in ps ==> Tame(p)
  }

  /** By how much the counter is off after all of them. */
  function Excess(ps: seq<Pair>): nat {
    if ps == [] then 0 else Off(ps[0]) + Excess(ps[1..])
  }

  lemma OffTame(p: Pair)
    ensures Off(p) % 2 == 0 && (Off(p) == 0 <==> Tame(p))
  {
  }

  lemma TameFirst(ps: seq<Pair>)
    requires ps != []
    ensures AllTame(ps) <==> Tame(ps[0]) && AllTame(ps[1..])
  {
    assert ps == [ps[0]] + ps[1..];
  }

  lemma {:induction false} ExcessTame(ps: seq<Pair>)
    ensures Excess(ps) % 2 == 0 && (Excess(ps) == 0 <==> AllTame(ps))
  {
    if ps != [] {
      OffTame(ps[0]);
      TameFirst(ps);
      ExcessTame(ps[1..]);
    }
  }

  lemma {:induction false} WalkOver<C>(
    p: Pair, t: seq<byte>, src: seq<byte>, toread: nat, after: nat, c: C, g: Scheme<C>)
    requires Codable(p) && Lawful(g.next) && src == EncodePair(p) + t
    requires |EncodePair(p)| <= toread && after == toread - |EncodePair(p)| + Off(p)
    ensures Walk(src, toread, c, g) == Further(|EncodePair(p)|, Walk(t, after, g.apply(c, p), g))
  {
    assert ReadsBack(p, t, toread, g.next);
    assert src[|EncodePair(p)|..] == t;
  }

  lemma FurtherTwice<C>(m: nat, n: nat, r: Parsed<C>)
    ensures Further(m, Further(n, r)) == Further(m + n, r)
  {
  }

  lemma Sizes(ps: seq<Pair>)
    requires AllCodable(ps) && ps != []
    ensures AllCodable(ps[1..]) && |EncodePairs(ps)| == |EncodePair(ps[0])| + |EncodePairs(ps[1..])|
    ensures Excess(ps) == Off(ps[0]) + Excess(ps[1..]) && [ps[0]] + ps[1..] == ps
  {
  }

  /** Encoded pairs are read one by one, and the counter is then off by their excess. */
  lemma {:induction false} WalkEncoded<C>(
    ps: seq<Pair>, rest: seq<byte>, src: seq<byte>, toread: nat, left: nat, c: C, g: Scheme<C>)
    requires AllCodable(ps) && Lawful(g.next) && src == EncodePairs(ps) + rest
    requires toread + Excess(ps) == |EncodePairs(ps)| + left && |EncodePairs(ps)| <= toread
    ensures Walk(src, toread, c, g) == Further(|EncodePairs(ps)|, Walk(rest, left, Fold(c, ps, g.apply), g))
    decreases |ps|
  {
    if ps == [] {
      assert src == rest;
    } else {
      var p, tail := ps[0], ps[1..];
      var n, src' := |EncodePair(p)|, EncodePairs(tail) + rest;
      Sizes(ps);
      assert src == EncodePair(p) + src' by { Assoc(EncodePair(p), EncodePairs(tail), rest); }
      var after := toread - n + Off(p);
      WalkOver(p, src', src, toread, after, c, g);
      WalkEncoded(tail, rest, src', after, left, g.apply(c, p), g);
      FoldFirst(c, p, tail, g.apply);
      FurtherTwice(n, |EncodePairs(tail)|, Walk(rest, left, Fold(c, ps, g.apply), g));
    }
  }

  /** Encoded pairs, and then `rest`. */
  ghost predicate Parts(s: seq<byte>, ps: seq<Pair>, rest: seq<byte>) {
    AllCodable(ps) && s == EncodePairs(ps) + rest
  }

  /** Where the loop stops: the counter is at zero, or no pair comes next. */
  ghost predicate Stops(rest: seq<byte>, left: int, next: (seq<byte>, nat) -> Item) {
    left == 0 || (left > 0 && !next(rest, left).Got?)
  }

  /** Any input is encoded pairs, as far as the loop reads them, and a rest. */
  lemma {:induction false} Split(src: seq<byte>, toread: nat, next: (seq<byte>, nat) -> Item)
    returns (ps: seq<Pair>, rest: seq<byte>)
    requires Lawful(next)
    ensures Parts(src, ps, rest)
    ensures Stops(rest, toread - |EncodePairs(ps)| + Excess(ps), next)
    decreases |src|
  {
    ps, rest := [], src;
    if toread > 0 && next(src, toread).Got? {
      var Got(p, n) := next(src, toread);
      assert Reads(src, toread, next);
      Rejoin(src, n);
      var qs;
      qs, rest := Split(src[n..], toread - n + Off(p), next);
      ps := [p] + qs;
      assert ps[1..] == qs;
      Assoc(EncodePair(p), EncodePairs(qs), rest);
    }
  }

  /** The encoding of a list of tame pairs. */
  ghost predicate Accepted(s: seq<byte>) {
    exists ps :: AllCodable(ps) && AllTame(ps) && s == EncodePairs(ps)
  }

  /** What follows the pairs read is refused whatever more arrives, the counter being `left`. */
  predicate Refusing(rest: seq<byte>, left: nat, next: (seq<byte>, nat) -> Item) {
    left > 0 && (next(rest, left) == Reject || next(rest, left) == Partly(1))
  }

  /** Encoded pairs, tame or not, and a rest that is refused with the counter off by their excess. */
  ghost predicate TurnedDown(s: seq<byte>, next: (seq<byte>, nat) -> Item) {
    exists ps, rest :: Parts(s, ps, rest) && Refusing(rest, |rest| + Excess(ps), next)
  }

  lemma {:induction false} SplitWalk<C>(s: seq<byte>, ps: seq<Pair>, rest: seq<byte>, c: C, g: Scheme<C>)
    returns (n: nat)
    requires Lawful(g.next) && Parts(s, ps, rest)
    ensures n + |rest| == |s|
    ensures Walk(s, |s|, c, g) == Further(n, Walk(rest, |rest| + Excess(ps), Fold(c, ps, g.apply), g))
  {
    n := |EncodePairs(ps)|;
    WalkEncoded(ps, rest, s, |s|, |rest| + Excess(ps), c, g);
  }

  lemma {:induction false} SplitAll(s: seq<byte>, next: (seq<byte>, nat) -> Item)
    returns (ps: seq<Pair>, rest: seq<byte>)
    requires Lawful(next)
    ensures Parts(s, ps, rest) && Stops(rest, |rest| + Excess(ps), next)
  {
    ps, rest := Split(s, |s|, next);
  }

  lemma {:induction false} StopDone<C>(rest: seq<byte>, left: nat, c: C, g: Scheme<C>)
    requires Stops(rest, left, g.next)
    ensures Walk(rest, left, c, g).Done? <==> left == 0
    ensures left == 0 ==> Walk(rest, left, c, g).taken == 0
  {
  }

  lemma {:induction false} DoneAccepted<C>(s: seq<byte>, c: C, g: Scheme<C>)
    requires Lawful(g.next) && Walk(s, |s|, c, g).Done?
    ensures Accepted(s) && Walk(s, |s|, c, g).taken == |s|
  {
    var ps, rest := SplitAll(s, g.next);
    var n := SplitWalk(s, ps, rest, c, g);
    StopDone(rest, |rest| + Excess(ps), Fold(c, ps, g.apply), g);
    ExcessTame(ps);
    assert s == EncodePairs(ps);
  }

  lemma {:induction false} AcceptedDone<C>(s: seq<byte>, ps: seq<Pair>, c: C, g: Scheme<C>)
    requires Lawful(g.next) && AllCodable(ps) && AllTame(ps) && s == EncodePairs(ps)
    ensures Walk(s, |s|, c, g) == Done(Fold(c, ps, g.apply), |s|)
  {
    assert Parts(s, ps, []);
    var n := SplitWalk(s, ps, [], c, g);
    ExcessTame(ps);
  }

  /** A record is read to its end exactly if it is the encoding of tame pairs. */
  lemma {:induction false} DoneIff<C>(s: seq<byte>, c: C, g: Scheme<C>)
    requires Lawful(g.next)
    ensures Walk(s, |s|, c, g).Done? <==> Accepted(s)
    ensures Walk(s, |s|, c, g).Done? ==> Walk(s, |s|, c, g).taken == |s|
  {
    if Walk(s, |s|, c, g).Done? { DoneAccepted(s, c, g); }
    if ps :| AllCodable(ps) && AllTame(ps) && s == EncodePairs(ps) { AcceptedDone(s, ps, c, g); }
  }

  /** The encoding of pairs some of which are not tame. */
  lemma {:induction false} EncodedOpen<C>(s: seq<byte>, ps: seq<Pair>, c: C, g: Scheme<C>)
    requires Lawful(g.next) && AllCodable(ps) && s == EncodePairs(ps)
    requires Excess(ps) > 0 && g.next([], Excess(ps)) == Lost
    ensures Walk(s, |s|, c, g) == Unknown
  {
    assert Parts(s, ps, []);
    var n := SplitWalk(s, ps, [], c, g);
  }

  lemma {:induction false} StopFailed<C>(rest: seq<byte>, left: nat, c: C, g: Scheme<C>)
    requires Stops(rest, left, g.next) || Refusing(rest, left, g.next)
    ensures Walk(rest, left, c, g) == Failed <==> Refusing(rest, left, g.next)
  {
  }

  lemma {:induction false} FailedTurned<C>(s: seq<byte>, c: C, g: Scheme<C>)
    requires Lawful(g.next) && Walk(s, |s|, c, g) == Failed
    ensures TurnedDown(s, g.next)
  {
    var ps, rest := SplitAll(s, g.next);
    var n := SplitWalk(s, ps, rest, c, g);
    StopFailed(rest, |rest| + Excess(ps), Fold(c, ps, g.apply), g);
  }

  lemma {:induction false} TurnedFailed<C>(s: seq<byte>, ps: seq<Pair>, rest: seq<byte>, c: C, g: Scheme<C>)
    requires Lawful(g.next) && Parts(s, ps, rest) && Refusing(rest, |rest| + Excess(ps), g.next)
    ensures Walk(s, |s|, c, g) == Failed
  {
    var n := SplitWalk(s, ps, rest, c, g);
    StopFailed(rest, |rest| + Excess(ps), Fold(c, ps, g.apply), g);
  }

  /** It fails exactly if a rest of it is refused with the counter as the pairs before it left it. */
  lemma {:induction false} FailedIff<C>(s: seq<byte>, c: C, g: Scheme<C>)
    requires Lawful(g.next)
    ensures Walk(s, |s|, c, g) == Failed <==> TurnedDown(s, g.next)
  {
    if Walk(s, |s|, c, g) == Failed { FailedTurned(s, c, g); }
    if ps, rest :| Parts(s, ps, rest) && Refusing(rest, |rest| + Excess(ps), g.next) {
      TurnedFailed(s, ps, rest, c, g);
    }
  }

  /**
   * For any bytes at all: how the loop ends depends on bytes outside the record,
   * or on an overflow, exactly if the record is neither the encoding of tame
   * pairs nor pairs and a rest whose lengths are refused.
   */
  lemma {:induction false} UnknownIff<C>(s: seq<byte>, c: C, g: Scheme<C>)
    requires Lawful(g.next)
    ensures Walk(s, |s|, c, g) == Unknown <==> !Accepted(s) && !TurnedDown(s, g.next)
  {
    DoneIff(s, c, g);
    FailedIff(s, c, g);
  }

  /** With nothing there and not one byte on the counter, the loop may end well. */
  lemma {:induction false} MayEnd<C>(left: nat, c: C, g: Scheme<C>) returns (t: seq<byte>)
    requires Lawful(g.next) && left != 1
    ensures Walk(t, left, c, g).Done?
  {
    if left == 0 {
      t := [];
    } else {
      var p := Pair(if left == 3 then [0] else [], [], false, false);
      var u := MayEnd(left - |EncodePair(p)|, g.apply(c, p), g);
      t := EncodePair(p) + u;
      WalkOver(p, u, t, left, left - |EncodePair(p)|, c, g);
    }
  }

  lemma {:induction false} WholeMayEnd<C>(s: seq<byte>, left: nat, c: C, g: Scheme<C>) returns (u: seq<byte>)
    requires Lawful(g.next) && left > 0 && Whole(s, left, g.next)
    ensures Walk(s + u, left, c, g).Done?
  {
    var Got(p, n) := g.next(s, left);
    u := MayEnd(left - n + Off(p), g.apply(c, p), g);
    assert Settles(s, u, left, g.next) && Reads(s, left, g.next);
    assert (s + u)[n..] == u;
    WalkGot(s + u, p, n, left, c, g);
  }

  /** After the pairs the counter is at `left`. */
  ghost predicate Comes(ps: seq<Pair>, toread: nat, left: nat)
    requires AllCodable(ps)
  {
    |EncodePairs(ps)| <= toread && toread + Excess(ps) == |EncodePairs(ps)| + left
  }

  /** The loop comes to two lengths whose sum overflows. */
  ghost predicate Overflowing(src: seq<byte>, toread: nat) {
    exists ps, rest, left :: Parts(src, ps, rest) && Comes(ps, toread, left) && Overflows(rest, left)
  }

  lemma {:induction false} RestOpen<C>(rest: seq<byte>, left: nat, c: C, g: Scheme<C>) returns (t: seq<byte>)
    requires Lawful(g.next) && Stops(rest, left, g.next) && OpenAt(rest, left, g.next)
    requires Walk(rest, left, c, g) == Unknown
    ensures Walk(rest + t, left, c, g).Done? || Overflows(rest + t, left)
  {
    t :| Whole(rest + t, left, g.next) || Overflows(rest + t, left);
    if Whole(rest + t, left, g.next) {
      var u := WholeMayEnd(rest + t, left, c, g);
      Assoc(rest, t, u);
      t := t + u;
    }
  }

  /**
   * What is unknown is open indeed: bytes may follow with which the loop ends
   * well, or comes to a sum that overflows.
   */
  lemma {:induction false} UnknownOpen<C>(s: seq<byte>, c: C, g: Scheme<C>) returns (t: seq<byte>)
    requires Lawful(g.next) && (forall rest, left :: OpenAt(rest, left, g.next))
    requires Walk(s, |s|, c, g) == Unknown
    ensures Walk(s + t, |s|, c, g).Done? || Overflowing(s + t, |s|)
  {
    var ps, rest := SplitAll(s, g.next);
    var left := |rest| + Excess(ps);
    var d := Fold(c, ps, g.apply);
    var n := SplitWalk(s, ps, rest, c, g);
    assert OpenAt(rest, left, g.next);
    t := RestOpen(rest, left, d, g);
    Assoc(EncodePairs(ps), rest, t);
    assert Parts(s + t, ps, rest + t) && Comes(ps, |s|, left);
    WalkEncoded(ps, rest + t, s + t, |s|, left, c, g);
  }

  // ------------------------------------------------------------ turn by turn

  /** The loop between two turns. */
  datatype Point<C> = Point(src: seq<byte>, toread: nat, c: C)

  predicate GotPair(src: seq<byte>, toread: nat, next: (seq<byte>, nat) -> Item) {
    toread > 0 && next(src, toread).Got? && 0 < next(src, toread).size <= |src| && next(src, toread).size <= toread
  }

  /** Where the loop is after `turns` turns that got a pair. */
  function At<C>(start: Point<C>, turns: nat, g: Scheme<C>): Option<Point<C>> {
    if turns == 0 then Some(start)
    else
      match At(start, turns - 1, g)
      case None => None
      case Some(at) =>
        if !GotPair(at.src, at.toread, g.next) then None
        else
          var Got(p, n) := g.next(at.src, at.toread);
          Some(Point(at.src[n..], at.toread - n + Off(p), g.apply(at.c, p)))
  }

  /** How far the code got: on it goes, the connection must go, or C leaves open what follows. */
  datatype Status = Good | Bad | Astray

  /** What one turn of the loop makes of the point `at`. */
  ghost predicate Turn<C>(at: Point<C>, st: Status, to: Point<C>, g: Scheme<C>) {
    match g.next(at.src, at.toread)
    case Reject => st == Bad
    case Lost => st == Astray
    case Partly(left) => st == if left == 1 then Bad else Astray
    case Got(p, n) =>
      && st == Good && GotPair(at.src, at.toread, g.next)
      && to == Point(at.src[n..], at.toread - n + Off(p), g.apply(at.c, p))
  }

  /** `m` bytes further, what is left to do is the same loop from there. */
  ghost predicate Continues<C>(start: Point<C>, m: nat, at: Point<C>, g: Scheme<C>) {
    && m <= |start.src| && at.src == start.src[m..]
    && Walk(start.src, start.toread, start.c, g) == Further(m, Walk(at.src, at.toread, at.c, g))
  }

  lemma {:induction false} OneWalk<C>(at: Point<C>, to: Point<C>, g: Scheme<C>)
    requires at.toread > 0 && Turn(at, Good, to, g)
    ensures var n := g.next(at.src, at.toread).size;
            n <= |at.src| && to.src == at.src[n..] &&
            Walk(at.src, at.toread, at.c, g) == Further(n, Walk(to.src, to.toread, to.c, g))
  {
  }

  /** From one point to the next. */
  lemma {:induction false} WalkOn<C>(start: Point<C>, m: nat, at: Point<C>, to: Point<C>, g: Scheme<C>)
    requires Continues(start, m, at, g) && at.toread > 0 && Turn(at, Good, to, g)
    ensures Continues(start, m + g.next(at.src, at.toread).size, to, g)
  {
    var n := g.next(at.src, at.toread).size;
    OneWalk(at, to, g);
    DropDrop(start.src, m, n);
    FurtherTwice(m, n, Walk(to.src, to.toread, to.c, g));
  }

  lemma {:induction false} AtWalks<C>(start: Point<C>, turns: nat, g: Scheme<C>) returns (m: nat)
    requires At(start, turns, g).Some?
    ensures Continues(start, m, At(start, turns, g).value, g)
  {
    if turns == 0 {
      m := 0;
      assert start.src[0..] == start.src;
    } else {
      m := AtWalks(start, turns - 1, g);
      var at := At(start, turns - 1, g).value;
      WalkOn(start, m, at, At(start, turns, g).value, g);
      m := m + g.next(at.src, at.toread).size;
    }
  }

  /** What the whole loop makes of `start`. */
  ghost predicate Ended<C>(start: Point<C>, st: Status, to: Point<C>, g: Scheme<C>) {
    match Walk(start.src, start.toread, start.c, g)
    case Done(c, n) => st == Good && to == Point(start.src[n..], 0, c)
    case Failed => st == Bad
    case Unknown => st == Astray
  }

  /** The loop that started at `start` is at `at`. */
  ghost predicate Reached<C>(start: Point<C>, turns: nat, at: Point<C>, g: Scheme<C>) {
    At(start, turns, g) == Some(at)
  }

  lemma ReachedStart<C>(start: Point<C>, g: Scheme<C>)
    ensures Reached(start, 0, start, g)
  {
  }

  lemma {:induction false} ReachedTurn<C>(start: Point<C>, turns: nat, at: Point<C>, to: Point<C>, g: Scheme<C>)
    requires Reached(start, turns, at, g) && at.toread > 0 && Turn(at, Good, to, g)
    ensures Reached(start, turns + 1, to, g) && |to.src| < |at.src|
  {
  }

  lemma {:induction false} ReachedStop<C>(
      start: Point<C>, turns: nat, at: Point<C>, st: Status, to: Point<C>, g: Scheme<C>)
    requires Reached(start, turns, at, g) && at.toread > 0 && st != Good && Turn(at, st, to, g)
    ensures Ended(start, st, to, g)
  {
    var m := AtWalks(start, turns, g);
  }

  lemma {:induction false} ReachedEnd<C>(start: Point<C>, turns: nat, at: Point<C>, g: Scheme<C>)
    requires Reached(start, turns, at, g) && at.toread == 0
    ensures Ended(start, Good, at, g)
  {
    var m := AtWalks(start, turns, g);
  }

  // ------------------------------------------------------------- what it means

  datatype Method = UnknownMethod | Get | Post

  /** The parts of struct client that a web server's records fill in. */
  datatype Client = Client(
    server: Option<seq<byte>>,
    script: Option<seq<byte>>,
    path: Option<seq<byte>>,
    query: Option<seq<byte>>,
    meth: Method,
    body: Option<seq<byte>>,
    bodyLen: nat,
    bodyDone: bool)

  /** A C string literal. */
  function Str(s: string): seq<byte> {
    seq(|s|, i requires 0 <= i < |s| => s[i] as int % 256)
  }

  /** What C string functions see of a buffer: the bytes before the first NUL. */
  function CStr(s: seq<byte>): (r: seq<byte>)
    ensures 0 !in s ==> r == s
    ensures 0 !in r && r <= s && (|r| < |s| ==> s[|r|] == 0)
  {
    if s == [] || s[0] == 0 then [] else [s[0]] + CStr(s[1..])
  }

  predicate Named(name: seq<byte>, s: string) {
    CStr(name) == Str(s)
  }

  function Lower(s: seq<byte>): seq<byte> {
    seq(|s|, i requires 0 <= i < |s| => if 65 <= s[i] <= 90 then s[i] + 32 else s[i])
  }

  function MethodOf(value: seq<byte>, was: Method): Method {
    if Lower(CStr(value)) == Str("get") then Get
    else if Lower(CStr(value)) == Str("post") then Post
    else was
  }

  function ScriptOf(value: seq<byte>): seq<byte> {
    if value == [] || value[|value| - 1] != SLASH then CStr(value) + [SLASH] else CStr(value)
  }

  function PathOf(value: seq<byte>): seq<byte> {
    if value == [] || value[0] != SLASH then [SLASH] + CStr(value) else CStr(value)
  }

  /** One turn of the loop on a name that fits the name buffer. */
  function SetParam(c: Client, name: seq<byte>, value: seq<byte>, lim: Limits): Client {
    if Named(name, "SERVER_NAME") && |value| < lim.host then c.(server := Some(CStr(value)))
    else if Named(name, "SCRIPT_NAME") && |value| < lim.path then c.(script := Some(ScriptOf(value)))
    else if Named(name, "PATH_INFO") && |value| < lim.path then c.(path := Some(PathOf(value)))
    else if Named(name, "QUERY_STRING") && |value| < GEMINI_MAXLEN && |value| > 0 then c.(query := Some(CStr(value)))
    else if Named(name, "REQUEST_METHOD") && |value| < METHOD_SIZE then c.(meth := MethodOf(value, c.meth))
    else c
  }

  /** How the fields of a client are set by the name and the value of a pair. */
  type Setting = (Client, seq<byte>, seq<byte>) -> Client

  /** The setting of fcgi_parse_params. */
  function Fields(lim: Limits): Setting {
    (c, name, value) => SetParam(c, name, value, lim)
  }

  /** A pair whose name does not fit the name buffer is ignored. */
  function OneParam(c: Client, p: Pair, f: Setting): Client {
    if |p.name| > NAME_MAX then c else f(c, p.name, p.value)
  }

  /** How fcgi_parse_params reads pairs, and what it does with them. */
  function Grammar(f: Setting): Scheme<Client> {
    Scheme(PairAt, (c, p) => OneParam(c, p, f))
  }

  /** All the pairs of a record, first to last. */
  function AllParams(c: Client, ps: seq<Pair>, f: Setting): Client {
    Fold(c, ps, Grammar(f).apply)
  }

  /** The loop of fcgi_parse_params on the client's fields. */
  function Params(src: seq<byte>, toread: nat, c: Client, f: Setting): Parsed<Client> {
    Walk(src, toread, c, Grammar(f))
  }

  /**
   * For every list of pairs: its encoding is read to the end with every pair
   * applied in order if every name has at most 31 bytes or comes with an empty
   * value, and how the loop ends depends on what follows otherwise.
   */
  lemma {:induction false} EncodedIff(ps: seq<Pair>, c: Client, f: Setting)
    requires AllCodable(ps)
    ensures var s := EncodePairs(ps);
            Params(s, |s|, c, f) == if AllTame(ps) then Done(AllParams(c, ps, f), |s|) else Unknown
  {
    PairAtLawful();
    var s, g := EncodePairs(ps), Grammar(f);
    if AllTame(ps) {
      AcceptedDone(s, ps, c, g);
    } else {
      ExcessTame(ps);
      NothingThere(Excess(ps));
      EncodedOpen(s, ps, c, g);
    }
  }

  /** Records accepted are exactly the encodings of lists of tame pairs. */
  lemma {:induction false} AcceptedIffEncoded(s: seq<byte>, c: Client, f: Setting)
    ensures Params(s, |s|, c, f).Done? <==> exists ps :: AllCodable(ps) && AllTame(ps) && s == EncodePairs(ps)
  {
    PairAtLawful();
    DoneIff(s, c, Grammar(f));
  }

  /** A record is refused, whatever follows it, exactly if a rest of it is, with the counter as the pairs left it. */
  lemma {:induction false} RefusedIff(s: seq<byte>, c: Client, f: Setting)
    ensures Params(s, |s|, c, f) == Failed <==> TurnedDown(s, PairAt)
    ensures Params(s, |s|, c, f) == Failed ==> forall tail :: Params(s + tail, |s|, c, f) == Failed
  {
    PairAtLawful();
    FailedIff(s, c, Grammar(f));
    if Params(s, |s|, c, f) == Failed {
      forall tail
        ensures Params(s + tail, |s|, c, f) == Failed
      {
        WalkMore(s, tail, |s|, c, Grammar(f));
      }
    }
  }

  /**
   * How the loop ends depends on what follows exactly if the record is neither
   * accepted nor refused, and then something may follow with which it ends
   * well or a sum overflows.
   */
  lemma {:induction false} OpenIff(s: seq<byte>, c: Client, f: Setting)
    ensures Params(s, |s|, c, f) == Unknown <==> !Accepted(s) && !TurnedDown(s, PairAt)
    ensures Params(s, |s|, c, f) == Unknown ==>
              exists t :: Params(s + t, |s|, c, f).Done? || Overflowing(s + t, |s|)
  {
    PairAtLawful();
    UnknownIff(s, c, Grammar(f));
    if Params(s, |s|, c, f) == Unknown {
      forall rest, left
        ensures OpenAt(rest, left, PairAt)
      {
        PairAtOpen(rest, left);
      }
      var t := UnknownOpen(s, c, Grammar(f));
      assert Params(s + t, |s|, c, f).Done? || Overflowing(s + t, |s|);
    }
  }

  /** After an over-long name with a value, two short lengths beyond what the counter then has are refused. */
  lemma {:induction false} RefusedLater(p: Pair, n: byte, v: byte, c: Client, f: Setting)
    requires Codable(p) && !Tame(p) && n < 128 && v < 128 && n + v > Off(p)
    ensures var s := EncodePair(p) + [n, v]; Params(s, |s|, c, f) == Failed
  {
    var s, rest := EncodePair(p) + [n, v], [n, v];
    assert [p][1..] == [] && EncodePairs([p]) == EncodePair(p) + [] == EncodePair(p);
    assert Excess([p]) == Off(p);
    assert rest[1..] == [v];
    assert Parts(s, [p], rest) && Refusing(rest, |rest| + Excess([p]), PairAt);
    RefusedIff(s, c, f);
  }

  // ----------------------------------------------------- last accepted value wins

  /** The bytes are these characters. */
  predicate Spells(b: seq<byte>, s: string) {
    |b| == |s| && forall i :: 0 <= i < |b| ==> b[i] == s[i] as int
  }

  /** The bytes are these small letters, each of them or its capital. */
  predicate SpellsEither(b: seq<byte>, s: string) {
    |b| == |s| && forall i :: 0 <= i < |b| ==> b[i] == s[i] as int || b[i] == s[i] as int - 32
  }

  predicate For(p: Pair, name: string) {
    |p.name| <= 31 && Spells(CStr(p.name), name)
  }

  predicate GivesServer(p: Pair, lim: Limits) {
    For(p, "SERVER_NAME") && |p.value| < lim.host
  }

  predicate GivesScript(p: Pair, lim: Limits) {
    For(p, "SCRIPT_NAME") && |p.value| < lim.path
  }

  predicate GivesPath(p: Pair, lim: Limits) {
    For(p, "PATH_INFO") && |p.value| < lim.path
  }

  predicate GivesQuery(p: Pair) {
    For(p, "QUERY_STRING") && 0 < |p.value| < 1025
  }

  predicate SaysGet(p: Pair) { SpellsEither(CStr(p.value), "get") }
  predicate SaysPost(p: Pair) { SpellsEither(CStr(p.value), "post") }

  predicate GivesMethod(p: Pair) {
    For(p, "REQUEST_METHOD") && |p.value| < 8 && (SaysGet(p) || SaysPost(p))
  }

  /** The last pair that satisfies `ok`. */
  function Last(ps: seq<Pair>, ok: Pair -> bool): Option<Pair> {
    if ps == [] then None
    else if ok(ps[|ps| - 1]) then Some(ps[|ps| - 1])
    else Last(ps[..|ps| - 1], ok)
  }

  function Wins<T>(last: Option<Pair>, f: Pair -> T, was: T): T {
    match last case None => was case Some(p) => f(p)
  }

  predicate EndsInSlash(s: seq<byte>) { s != [] && s[|s| - 1] == 47 }
  predicate StartsInSlash(s: seq<byte>) { s != [] && s[0] == 47 }

  /** A script name: the value, with a slash after it if it does not end in one. */
  function ScriptGiven(p: Pair): seq<byte> {
    CStr(p.value) + if EndsInSlash(p.value) then [] else [47]
  }

  /** A path: the value, with a slash before it if it does not start with one. */
  function PathGiven(p: Pair): seq<byte> {
    (if StartsInSlash(p.value) then [] else [47]) + CStr(p.value)
  }

  ghost predicate LastWins(c: Client, ps: seq<Pair>, d: Client, lim: Limits) {
    && d.server == Wins(Last(ps, p => GivesServer(p, lim)), (p: Pair) => Some(CStr(p.value)), c.server)
    && d.script == Wins(Last(ps, p => GivesScript(p, lim)), (p: Pair) => Some(ScriptGiven(p)), c.script)
    && d.path == Wins(Last(ps, p => GivesPath(p, lim)), (p: Pair) => Some(PathGiven(p)), c.path)
    && d.query == Wins(Last(ps, p => GivesQuery(p)), (p: Pair) => Some(CStr(p.value)), c.query)
    && d.meth == Wins(Last(ps, p => GivesMethod(p)), (p: Pair) => if SaysGet(p) then Get else Post, c.meth)
    && d.body == c.body && d.bodyLen == c.bodyLen && d.bodyDone == c.bodyDone
  }

  predicate Ascii(s: string) {
    forall c :: c in s ==> (c as int) < 128
  }

  predicate SmallLetters(s: string) {
    forall c :: c in s ==> 'a' <= c <= 'z'
  }

  lemma SpellsStr(b: seq<byte>, s: string)
    requires Ascii(s)
    ensures b == Str(s) <==> Spells(b, s)
  {
    assert forall i :: 0 <= i < |s| ==> s[i] in s;
    if Spells(b, s) {
      assert forall i :: 0 <= i < |b| ==> b[i] == Str(s)[i];
    }
  }

  lemma LowerAt(x: byte, c: char)
    requires 'a' <= c <= 'z'
    ensures (if 65 <= x <= 90 then x + 32 else x) == c as int % 256 <==> x == c as int || x == c as int - 32
  {
  }

  lemma LowerStr(b: seq<byte>, s: string)
    requires SmallLetters(s)
    ensures Lower(b) == Str(s) <==> SpellsEither(b, s)
  {
    var x, y := Lower(b), Str(s);
    if |b| == |s| {
      forall i | 0 <= i < |b|
        ensures x[i] == y[i] <==> b[i] == s[i] as int || b[i] == s[i] as int - 32
      {
        assert s[i] in s;
        LowerAt(b[i], s[i]);
      }
      assert x == y <==> forall i :: 0 <= i < |b| ==> x[i] == y[i];
    } else {
      assert |x| != |y|;
    }
  }

  lemma ServerScriptSpelled(name: seq<byte>)
    ensures Named(name, "SERVER_NAME") <==> Spells(CStr(name), "SERVER_NAME")
    ensures Named(name, "SCRIPT_NAME") <==> Spells(CStr(name), "SCRIPT_NAME")
  {
    SpellsStr(CStr(name), "SERVER_NAME");
    SpellsStr(CStr(name), "SCRIPT_NAME");
  }

  lemma PathQuerySpelled(name: seq<byte>)
    ensures Named(name, "PATH_INFO") <==> Spells(CStr(name), "PATH_INFO")
    ensures Named(name, "QUERY_STRING") <==> Spells(CStr(name), "QUERY_STRING")
  {
    SpellsStr(CStr(name), "PATH_INFO");
    SpellsStr(CStr(name), "QUERY_STRING");
  }

  lemma MethodSpelled(name: seq<byte>)
    ensures Named(name, "REQUEST_METHOD") <==> Spells(CStr(name), "REQUEST_METHOD")
  {
    SpellsStr(CStr(name), "REQUEST_METHOD");
  }

  lemma MethodSaid(p: Pair, was: Method)
    ensures MethodOf(p.value, was) == if SaysGet(p) then Get else if SaysPost(p) then Post else was
  {
    LowerStr(CStr(p.value), "get");
    LowerStr(CStr(p.value), "post");
  }

  lemma SlashesGiven(p: Pair)
    ensures ScriptOf(p.value) == ScriptGiven(p) && PathOf(p.value) == PathGiven(p)
  {
  }

  /** The five names differ from each other. */
  lemma NamesDiffer()
    ensures Str("SERVER_NAME")[1] == 69 && Str("SCRIPT_NAME")[1] == 67
    ensures |Str("PATH_INFO")| == 9 && |Str("QUERY_STRING")| == 12 && |Str("REQUEST_METHOD")| == 14
    ensures |Str("SERVER_NAME")| == 11 && |Str("SCRIPT_NAME")| == 11
  {
  }

  /** A client after one more pair. */
  ghost predicate OneGives(c: Client, p: Pair, d: Client, lim: Limits) {
    && d.server == (if GivesServer(p, lim) then Some(CStr(p.value)) else c.server)
    && d.script == (if GivesScript(p, lim) then Some(ScriptGiven(p)) else c.script)
    && d.path == (if GivesPath(p, lim) then Some(PathGiven(p)) else c.path)
    && d.query == (if GivesQuery(p) then Some(CStr(p.value)) else c.query)
    && d.meth == (if GivesMethod(p) then (if SaysGet(p) then Get else Post) else c.meth)
    && d.body == c.body && d.bodyLen == c.bodyLen && d.bodyDone == c.bodyDone
  }

  /** No name is two of the five. */
  lemma NamedOnce(name: seq<byte>)
    ensures Named(name, "SERVER_NAME") ==> !Named(name, "SCRIPT_NAME") && |CStr(name)| == 11
    ensures Named(name, "SCRIPT_NAME") ==> |CStr(name)| == 11
    ensures Named(name, "PATH_INFO") ==> |CStr(name)| == 9
    ensures Named(name, "QUERY_STRING") ==> |CStr(name)| == 12
    ensures Named(name, "REQUEST_METHOD") ==> |CStr(name)| == 14
  {
    NamesDiffer();
  }

  /** What a name is for, and the fields of the client before and after. */
  ghost predicate Sets(c: Client, value: seq<byte>, d: Client, lim: Limits,
                       server: bool, script: bool, path: bool, query: bool, meth: bool) {
    && d.server == (if server && |value| < lim.host then Some(CStr(value)) else c.server)
    && d.script == (if script && |value| < lim.path then Some(ScriptOf(value)) else c.script)
    && d.path == (if path && |value| < lim.path then Some(PathOf(value)) else c.path)
    && d.query == (if query && 0 < |value| < 1025 then Some(CStr(value)) else c.query)
    && d.meth == (if meth && |value| < 8 then MethodOf(value, c.meth) else c.meth)
    && d.body == c.body && d.bodyLen == c.bodyLen && d.bodyDone == c.bodyDone
  }

  lemma {:induction false} SetSets(c: Client, name: seq<byte>, value: seq<byte>, lim: Limits)
    ensures Sets(c, value, SetParam(c, name, value, lim), lim,
                 Named(name, "SERVER_NAME"), Named(name, "SCRIPT_NAME"), Named(name, "PATH_INFO"),
                 Named(name, "QUERY_STRING"), Named(name, "REQUEST_METHOD"))
  {
    NamedOnce(name);
  }

  lemma NamesSpelled(name: seq<byte>)
    ensures Named(name, "SERVER_NAME") <==> Spells(CStr(name), "SERVER_NAME")
    ensures Named(name, "SCRIPT_NAME") <==> Spells(CStr(name), "SCRIPT_NAME")
    ensures Named(name, "PATH_INFO") <==> Spells(CStr(name), "PATH_INFO")
    ensures Named(name, "QUERY_STRING") <==> Spells(CStr(name), "QUERY_STRING")
    ensures Named(name, "REQUEST_METHOD") <==> Spells(CStr(name), "REQUEST_METHOD")
  {
    ServerScriptSpelled(name);
    PathQuerySpelled(name);
    MethodSpelled(name);
  }

  lemma {:induction false} SetsGives(c: Client, p: Pair, d: Client, lim: Limits)
    requires |p.name| <= 31
    requires Sets(c, p.value, d, lim, For(p, "SERVER_NAME"), For(p, "SCRIPT_NAME"), For(p, "PATH_INFO"),
                  For(p, "QUERY_STRING"), For(p, "REQUEST_METHOD"))
    ensures OneGives(c, p, d, lim)
  {
    MethodSaid(p, c.meth);
    SlashesGiven(p);
  }

  lemma {:induction false} OneWins(c: Client, p: Pair, lim: Limits)
    ensures OneGives(c, p, OneParam(c, p, Fields(lim)), lim)
  {
    if |p.name| <= 31 {
      SetSets(c, p.name, p.value, lim);
      NamesSpelled(p.name);
      SetsGives(c, p, SetParam(c, p.name, p.value, lim), lim);
    }
  }

  /** Each field ends as the last acceptable pair for it says, or as it was. */
  lemma {:induction false} LastAcceptedWins(c: Client, ps: seq<Pair>, lim: Limits)
    ensures LastWins(c, ps, AllParams(c, ps, Fields(lim)), lim)
  {
    if ps != [] {
      var front, p := ps[..|ps| - 1], ps[|ps| - 1];
      LastAcceptedWins(c, front, lim);
      OneWins(AllParams(c, front, Fields(lim)), p, lim);
    }
  }

  // ------------------------------------------------------------------ the slashes

  ghost predicate Slashed(c: Client) {
    && (c.script.Some? ==> EndsInSlash(c.script.value))
    && (c.path.Some? ==> StartsInSlash(c.path.value))
  }

  /** A script name misses its final slash exactly when one after a NUL stood in for it. */
  lemma ScriptSlash(value: seq<byte>)
    ensures EndsInSlash(ScriptOf(value)) <==> (EndsInSlash(value) ==> EndsInSlash(CStr(value)))
  {
  }

  lemma PathSlash(value: seq<byte>)
    ensures StartsInSlash(PathOf(value))
  {
    if StartsInSlash(value) { assert CStr(value)[0] == SLASH; }
  }

  predicate NulFree(p: Pair) { 0 !in p.value }

  lemma {:induction false} OneSlashed(c: Client, p: Pair, lim: Limits)
    requires Slashed(c) && NulFree(p)
    ensures Slashed(OneParam(c, p, Fields(lim)))
  {
    OneWins(c, p, lim);
    SlashesGiven(p);
    ScriptSlash(p.value);
    PathSlash(p.value);
  }

  /** Whatever pairs arrive, script names end and paths start with a slash. */
  lemma {:induction false} AlwaysSlashed(c: Client, ps: seq<Pair>, lim: Limits)
    requires Slashed(c) && forall p :: p in ps ==> NulFree(p)
    ensures Slashed(AllParams(c, ps, Fields(lim)))
  {
    if ps != [] {
      var front, p := ps[..|ps| - 1], ps[|ps| - 1];
      AlwaysSlashed(c, front, lim);
      OneSlashed(AllParams(c, front, Fields(lim)), p, lim);
    }
  }
}
