/**
 * The comparator of the two splay-tree indexes: `(int)a->id - b->id` on
 * unsigned 32-bit ids, where the subtraction wraps and the result is read back
 * as a signed int.
 */
module IdOrder {

  const WRAP := 0x1_0000_0000
  const HALF := 0x8000_0000

  /** A uint32_t identifier. */
  type Id = x: int | 0 <= x < 0x1_0000_0000

  /** fcgi_cmp and fcgi_client_cmp. */
  function IdCmp(a: Id, b: Id): (r: int)
    ensures -HALF <= r < HALF
    ensures r == 0 <==> a == b
  {
    var d := (a - b) % WRAP;
    if d < HALF then d else d - WRAP
  }

  /** How far `x` lies after `base` on the circle of ids. */
  function Rank(base: Id, x: Id): (r: nat)
    ensures r < WRAP
  {
    (x - base) % WRAP
  }

  /** `x` lies in the half circle that starts at `base`. */
  predicate InWindow(base: Id, x: Id) {
    Rank(base, x) < HALF
  }

  /** "Compares below zero" is a strict total order on `s`. */
  ghost predicate StrictTotalOrder(s: set<Id>) {
    && (forall a, b :: a in s && b in s && a != b ==> (IdCmp(a, b) < 0 <==> IdCmp(b, a) > 0))
    && (forall a, b, c :: a in s && b in s && c in s && IdCmp(a, b) < 0 && IdCmp(b, c) < 0 ==> IdCmp(a, c) < 0)
  }

  /** Inside one window the comparator is the order of the ranks. */
  lemma CmpIsRankOrder(base: Id, a: Id, b: Id)
    requires InWindow(base, a) && InWindow(base, b)
    ensures IdCmp(a, b) < 0 <==> Rank(base, a) < Rank(base, b)
    ensures IdCmp(a, b) > 0 <==> Rank(base, a) > Rank(base, b)
    ensures a == b <==> Rank(base, a) == Rank(base, b)
  {
    assert (a - b) % WRAP == (Rank(base, a) - Rank(base, b)) % WRAP;
  }

  /** A nonempty set totally ordered by the comparator has a least id. */
  lemma {:induction false} LeastId(s: set<Id>) returns (m: Id)
    requires s != {} && StrictTotalOrder(s)
    ensures m in s
    ensures forall x :: x in s && x != m ==> IdCmp(m, x) < 0
    decreases |s|
  {
    var x :| x in s;
    var rest := s - {x};
    if rest == {} {
      m := x;
      assert s == {x};
    } else {
      var r := LeastId(rest);
      m := if IdCmp(x, r) < 0 then x else r;
    }
  }

  /**
   * The exact condition under which the wrapping comparator may key a tree:
   * the ids in use fit in a half circle starting at one of them.
   */
  lemma OrderIffWindow(s: set<Id>)
    requires s != {}
    ensures StrictTotalOrder(s) <==> exists w :: w in s && forall x :: x in s ==> InWindow(w, x)
  {
    if StrictTotalOrder(s) {
      var m := LeastId(s);
      forall x | x in s
        ensures InWindow(m, x)
      {
        if x != m {
          assert IdCmp(m, x) < 0 && IdCmp(x, m) > 0;
        }
      }
    }
    if w :| w in s && forall x :: x in s ==> InWindow(w, x) {
      forall a, b | a in s && b in s
        ensures IdCmp(a, b) < 0 <==> Rank(w, a) < Rank(w, b)
        ensures IdCmp(a, b) > 0 <==> Rank(w, a) > Rank(w, b)
        ensures a == b <==> Rank(w, a) == Rank(w, b)
      {
        CmpIsRankOrder(w, a, b);
      }
    }
  }

  /** FastCGI request ids are 16 bits wide, so the window at 0 holds them all. */
  lemma RequestIdsOrdered(s: set<Id>)
    requires forall x :: x in s ==> x < 0x1_0000
    ensures StrictTotalOrder(s)
  {
    forall a, b | a in s && b in s
      ensures IdCmp(a, b) < 0 <==> a < b
      ensures IdCmp(a, b) > 0 <==> a > b
    {
      CmpIsRankOrder(0, a, b);
    }
  }
}
