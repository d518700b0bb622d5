/** Bytes, optional values, decimal digits, and sequences put together. */
module Common {

  type byte = x: int | 0 <= x < 256
  type u16 = x: int | 0 <= x < 0x1_0000

  function Digits(n: nat): (s: string)
    ensures s != ""
  {
    (if n < 10 then "" else Digits(n / 10)) + [('0' as int + n % 10) as char]
  }

  datatype Option<+T> = None | Some(value: T)

  function Concat<T>(cs: seq<seq<T>>): seq<T> {
    if cs == [] then [] else cs[0] + Concat(cs[1..])
  }

  lemma Assoc<T>(a: seq<T>, b: seq<T>, c: seq<T>)
    ensures (a + b) + c == a + (b + c)
  {
  }

  lemma {:induction false} ConcatAppend<T>(a: seq<seq<T>>, b: seq<seq<T>>)
    ensures Concat(a + b) == Concat(a) + Concat(b)
  {
    if a == [] {
      assert a + b == b;
    } else {
      assert (a + b)[1..] == a[1..] + b;
      ConcatAppend(a[1..], b);
      Assoc(a[0], Concat(a[1..]), Concat(b));
    }
  }

  /** `f` of every element, one after the other. */
  function FlatMap<A, B>(s: seq<A>, f: A -> seq<B>): seq<B> {
    if s == [] then [] else f(s[0]) + FlatMap(s[1..], f)
  }

  lemma {:induction false} FlatMapAppend<A, B>(a: seq<A>, b: seq<A>, f: A -> seq<B>)
    ensures FlatMap(a + b, f) == FlatMap(a, f) + FlatMap(b, f)
  {
    if a == [] {
      assert a + b == b;
    } else {
      FlatMapAppend(a[1..], b, f);
      assert (a + b)[1..] == a[1..] + b;
      Assoc(f(a[0]), FlatMap(a[1..], f), FlatMap(b, f));
    }
  }

  lemma {:induction false} FlatMapOne<A, B>(x: A, f: A -> seq<B>)
    ensures FlatMap([x], f) == f(x)
  {
    assert [x][1..] == [] && f(x) + [] == f(x);
  }

  lemma {:induction false} ConcatCons<T>(c: seq<T>, cs: seq<seq<T>>)
    ensures Concat([c] + cs) == c + Concat(cs)
  {
    assert ([c] + cs)[1..] == cs;
  }

  lemma {:induction false} ConcatLast<T>(cs: seq<seq<T>>)
    requires cs != []
    ensures Concat(cs) == Concat(cs[..|cs| - 1]) + cs[|cs| - 1]
  {
    var front, last := cs[..|cs| - 1], cs[|cs| - 1];
    assert cs == front + [last];
    ConcatAppend(front, [last]);
    ConcatCons(last, []);
    assert last + [] == last;
  }

  lemma Rejoin<T>(s: seq<T>, k: nat)
    requires k <= |s|
    ensures s[..k] + s[k..] == s
  {
  }

  /** Where the first `x` is; the length if there is none. */
  function IndexOf<T(==)>(s: seq<T>, x: T): (i: nat)
    ensures i <= |s| && x !in s[..i] && (i < |s| ==> s[i] == x)
  {
    if s == [] || s[0] == x then 0 else 1 + IndexOf(s[1..], x)
  }

  lemma {:induction false} FirstIndex<T>(a: seq<T>, x: T, t: seq<T>)
    requires x !in a
    ensures IndexOf(a + ([x] + t), x) == |a|
  {
    if a == [] {
      assert a + ([x] + t) == [x] + t;
    } else {
      assert (a + ([x] + t))[1..] == a[1..] + ([x] + t);
      FirstIndex(a[1..], x, t);
    }
  }

  /** An index found in what follows `n` elements. */
  function Later(r: Option<nat>, n: nat): Option<nat> {
    match r case None => None case Some(i) => Some(i + n)
  }
}
