/**
 * The top-down splay tree of compat/sys/tree.h.
 *
 * The heap structure is described by a ghost `Tree` of node references. The
 * effect of every macro is a function on such trees; the methods rewrite the
 * pointers in place and are proved to leave the heap in the shape the function
 * computes. What the tree promises is then proved about the functions.
 */
module SplayShape {
  import opened IdOrder

  /** SPLAY_ENTRY together with the id its comparator reads. */
  class Node {
    const key: Id
    var left: Node?
    var right: Node?

    constructor (key: Id)
      ensures this.key == key && left == null && right == null
    {
      this.key := key;
      left, right := null, null;
    }
  }

  datatype Tree = Leaf | Br(l: Tree, n: Node, r: Tree)

  /**
   * A tree under construction during a splay: `n` was linked last, `sub` hangs
   * on its finished side and its other side is the hole the next link fills.
   */
  datatype Spine = Bottom | Grow(up: Spine, sub: Tree, n: Node)

  /** The three trees of a splay in progress. */
  datatype View = View(ls: Spine, cur: Tree, rs: Spine)

  // ---------------------------------------------------------------- contents

  ghost function Nodes(t: Tree): (s: set<Node>)
    ensures t.Br? ==> t.n in s
  {
    if t.Leaf? then {} else Nodes(t.l) + {t.n} + Nodes(t.r)
  }

  ghost function Inorder(t: Tree): seq<Node> {
    if t.Leaf? then [] else Inorder(t.l) + [t.n] + Inorder(t.r)
  }

  ghost function SpineNodes(s: Spine): (r: set<Node>)
    ensures s.Grow? ==> s.n in r
  {
    if s.Bottom? then {} else SpineNodes(s.up) + Nodes(s.sub) + {s.n}
  }

  /** In-order contents of a left spine, whose hole is on the far right. */
  ghost function LeftOrder(s: Spine): seq<Node> {
    if s.Bottom? then [] else LeftOrder(s.up) + Inorder(s.sub) + [s.n]
  }

  /** In-order contents of a right spine, whose hole is on the far left. */
  ghost function RightOrder(s: Spine): seq<Node> {
    if s.Bottom? then [] else [s.n] + Inorder(s.sub) + RightOrder(s.up)
  }

  ghost function ViewOrder(v: View): seq<Node> {
    LeftOrder(v.ls) + Inorder(v.cur) + RightOrder(v.rs)
  }

  // -------------------------------------------------- the macros, as functions

  ghost function RotatedRight(v: View): View
    requires v.cur.Br? && v.cur.l.Br?
  {
    var c := v.cur;
    v.(cur := Br(c.l.l, c.l.n, Br(c.l.r, c.n, c.r)))
  }

  ghost function RotatedLeft(v: View): View
    requires v.cur.Br? && v.cur.r.Br?
  {
    var c := v.cur;
    v.(cur := Br(Br(c.l, c.n, c.r.l), c.r.n, c.r.r))
  }

  /** SPLAY_LINKLEFT: the root and its right side join the right spine. */
  ghost function LinkedLeft(v: View): View
    requires v.cur.Br?
  {
    View(v.ls, v.cur.l, Grow(v.rs, v.cur.r, v.cur.n))
  }

  /** SPLAY_LINKRIGHT: the root and its left side join the left spine. */
  ghost function LinkedRight(v: View): View
    requires v.cur.Br?
  {
    View(Grow(v.ls, v.cur.l, v.cur.n), v.cur.r, v.rs)
  }

  ghost function PlugLeft(s: Spine, t: Tree): Tree {
    if s.Bottom? then t else PlugLeft(s.up, Br(s.sub, s.n, t))
  }

  ghost function PlugRight(s: Spine, t: Tree): Tree {
    if s.Bottom? then t else PlugRight(s.up, Br(t, s.n, s.sub))
  }

  ghost function Assembled(v: View): Tree
    requires v.cur.Br?
  {
    Br(PlugLeft(v.ls, v.cur.l), v.cur.n, PlugRight(v.rs, v.cur.r))
  }

  /** Where the SPLAY loop stops when it is entered in state `v`. */
  ghost function SplayLoop(v: View, k: Id): (r: View)
    requires v.cur.Br?
    ensures r.cur.Br?
    decreases v.cur
  {
    var c := IdCmp(k, v.cur.n.key);
    if c < 0 && v.cur.l.Br? then
      if IdCmp(k, v.cur.l.n.key) < 0 then
        var w := RotatedRight(v);
        if w.cur.l.Leaf? then w else SplayLoop(LinkedLeft(w), k)
      else
        SplayLoop(LinkedLeft(v), k)
    else if c > 0 && v.cur.r.Br? then
      if IdCmp(k, v.cur.r.n.key) > 0 then
        var w := RotatedLeft(v);
        if w.cur.r.Leaf? then w else SplayLoop(LinkedRight(w), k)
      else
        SplayLoop(LinkedRight(v), k)
    else
      v
  }

  /** Where the SPLAY_MINMAX loop stops; `comp` is not zero. */
  ghost function MinMaxLoop(v: View, comp: int): (r: View)
    requires v.cur.Br?
    ensures r.cur.Br?
    decreases v.cur
  {
    if comp < 0 && v.cur.l.Br? then
      var w := RotatedRight(v);
      if w.cur.l.Leaf? then w else MinMaxLoop(LinkedLeft(w), comp)
    else if comp > 0 && v.cur.r.Br? then
      var w := RotatedLeft(v);
      if w.cur.r.Leaf? then w else MinMaxLoop(LinkedRight(w), comp)
    else
      v
  }

  ghost function Splayed(t: Tree, k: Id): (r: Tree)
    requires t.Br?
    ensures r.Br?
  {
    Assembled(SplayLoop(View(Bottom, t, Bottom), k))
  }

  ghost function SplayedMinMax(t: Tree, comp: int): (r: Tree)
    requires t.Br?
    ensures r.Br?
  {
    Assembled(MinMaxLoop(View(Bottom, t, Bottom), comp))
  }

  // ------------------------------------------------------- order is preserved

  lemma RotationsKeepOrder(v: View)
    requires v.cur.Br?
    ensures v.cur.l.Br? ==> ViewOrder(RotatedRight(v)) == ViewOrder(v)
    ensures v.cur.r.Br? ==> ViewOrder(RotatedLeft(v)) == ViewOrder(v)
  {
    if v.cur.l.Br? { assert Inorder(RotatedRight(v).cur) == Inorder(v.cur); }
    if v.cur.r.Br? { assert Inorder(RotatedLeft(v).cur) == Inorder(v.cur); }
  }

  lemma LinksKeepOrder(v: View)
    requires v.cur.Br?
    ensures ViewOrder(LinkedLeft(v)) == ViewOrder(v)
    ensures ViewOrder(LinkedRight(v)) == ViewOrder(v)
  {
  }

  /** The loop keeps in-order(left) ++ in-order(current) ++ in-order(right). */
  lemma {:induction false} LoopKeepsOrder(v: View, k: Id)
    requires v.cur.Br?
    ensures ViewOrder(SplayLoop(v, k)) == ViewOrder(v)
    decreases v.cur
  {
    RotationsKeepOrder(v);
    LinksKeepOrder(v);
    var c := IdCmp(k, v.cur.n.key);
    if c < 0 && v.cur.l.Br? {
      if IdCmp(k, v.cur.l.n.key) < 0 {
        var w := RotatedRight(v);
        LinksKeepOrder(w);
        if w.cur.l.Br? { LoopKeepsOrder(LinkedLeft(w), k); }
      } else {
        LoopKeepsOrder(LinkedLeft(v), k);
      }
    } else if c > 0 && v.cur.r.Br? {
      if IdCmp(k, v.cur.r.n.key) > 0 {
        var w := RotatedLeft(v);
        LinksKeepOrder(w);
        if w.cur.r.Br? { LoopKeepsOrder(LinkedRight(w), k); }
      } else {
        LoopKeepsOrder(LinkedRight(v), k);
      }
    }
  }

  lemma {:induction false} PlugLeftOrder(s: Spine, t: Tree)
    ensures Inorder(PlugLeft(s, t)) == LeftOrder(s) + Inorder(t)
  {
    if s.Grow? {
      PlugLeftOrder(s.up, Br(s.sub, s.n, t));
    }
  }

  lemma {:induction false} PlugRightOrder(s: Spine, t: Tree)
    ensures Inorder(PlugRight(s, t)) == Inorder(t) + RightOrder(s)
  {
    if s.Grow? {
      PlugRightOrder(s.up, Br(t, s.n, s.sub));
    }
  }

  lemma {:induction false} AssembledOrder(v: View)
    requires v.cur.Br?
    ensures Inorder(Assembled(v)) == ViewOrder(v)
  {
    PlugLeftOrder(v.ls, v.cur.l);
    PlugRightOrder(v.rs, v.cur.r);
  }

  /** A splay never changes the in-order sequence of the tree. */
  lemma {:induction false} SplayedKeepsOrder(t: Tree, k: Id)
    requires t.Br?
    ensures Inorder(Splayed(t, k)) == Inorder(t)
  {
    var v := View(Bottom, t, Bottom);
    LoopKeepsOrder(v, k);
    AssembledOrder(SplayLoop(v, k));
  }

  // ------------------------------------------------------------- search order

  /** Ids ascend along `s`, all inside the window at `base`. */
  ghost predicate Sorted(base: Id, s: seq<Node>) {
    && (forall i :: 0 <= i < |s| ==> InWindow(base, s[i].key))
    && (forall i, j :: 0 <= i < j < |s| ==> Rank(base, s[i].key) < Rank(base, s[j].key))
  }

  ghost predicate AllBelow(base: Id, s: seq<Node>, k: Id) {
    forall n :: n in s ==> Rank(base, n.key) < Rank(base, k)
  }

  ghost predicate AllAbove(base: Id, s: seq<Node>, k: Id) {
    forall n :: n in s ==> Rank(base, k) < Rank(base, n.key)
  }

  lemma {:induction false} SortedMiddle(base: Id, a: seq<Node>, l: seq<Node>, n: Node, r: seq<Node>, b: seq<Node>)
    requires Sorted(base, a + (l + [n] + r) + b)
    ensures InWindow(base, n.key)
    ensures AllBelow(base, l, n.key) && AllAbove(base, r, n.key)
  {
    var s := a + (l + [n] + r) + b;
    assert s[|a| + |l|] == n;
    forall x | x in l
      ensures Rank(base, x.key) < Rank(base, n.key)
    {
      var i :| 0 <= i < |l| && l[i] == x;
      assert s[|a| + i] == x;
    }
    forall x | x in r
      ensures Rank(base, n.key) < Rank(base, x.key)
    {
      var i :| 0 <= i < |r| && r[i] == x;
      assert s[|a| + |l| + 1 + i] == x;
    }
  }

  /** The spines hold only ids on their own side of `k`. */
  ghost predicate Bracketed(base: Id, v: View, k: Id) {
    && Sorted(base, ViewOrder(v))
    && AllBelow(base, LeftOrder(v.ls), k)
    && AllAbove(base, RightOrder(v.rs), k)
  }

  lemma {:induction false} LinkLeftBrackets(base: Id, v: View, k: Id)
    requires v.cur.Br? && Bracketed(base, v, k) && InWindow(base, k)
    requires IdCmp(k, v.cur.n.key) < 0
    ensures Bracketed(base, LinkedLeft(v), k)
  {
    LinksKeepOrder(v);
    SortedMiddle(base, LeftOrder(v.ls), Inorder(v.cur.l), v.cur.n, Inorder(v.cur.r), RightOrder(v.rs));
    CmpIsRankOrder(base, k, v.cur.n.key);
  }

  lemma {:induction false} LinkRightBrackets(base: Id, v: View, k: Id)
    requires v.cur.Br? && Bracketed(base, v, k) && InWindow(base, k)
    requires IdCmp(k, v.cur.n.key) > 0
    ensures Bracketed(base, LinkedRight(v), k)
  {
    LinksKeepOrder(v);
    SortedMiddle(base, LeftOrder(v.ls), Inorder(v.cur.l), v.cur.n, Inorder(v.cur.r), RightOrder(v.rs));
    CmpIsRankOrder(base, k, v.cur.n.key);
  }

  /** The loop stops at the id looked for or at a neighbour of its place. */
  ghost predicate Stopped(v: View, k: Id)
    requires v.cur.Br?
  {
    var c := IdCmp(k, v.cur.n.key);
    c == 0 || (c < 0 && v.cur.l.Leaf?) || (c > 0 && v.cur.r.Leaf?)
  }

  lemma {:induction false} LoopBrackets(base: Id, v: View, k: Id)
    requires v.cur.Br? && Bracketed(base, v, k) && InWindow(base, k)
    ensures Bracketed(base, SplayLoop(v, k), k)
    ensures Stopped(SplayLoop(v, k), k)
    decreases v.cur
  {
    RotationsKeepOrder(v);
    var c := IdCmp(k, v.cur.n.key);
    if c < 0 && v.cur.l.Br? {
      if IdCmp(k, v.cur.l.n.key) < 0 {
        var w := RotatedRight(v);
        if w.cur.l.Br? {
          LinkLeftBrackets(base, w, k);
          LoopBrackets(base, LinkedLeft(w), k);
        }
      } else {
        LinkLeftBrackets(base, v, k);
        LoopBrackets(base, LinkedLeft(v), k);
      }
    } else if c > 0 && v.cur.r.Br? {
      if IdCmp(k, v.cur.r.n.key) > 0 {
        var w := RotatedLeft(v);
        if w.cur.r.Br? {
          LinkRightBrackets(base, w, k);
          LoopBrackets(base, LinkedRight(w), k);
        }
      } else {
        LinkRightBrackets(base, v, k);
        LoopBrackets(base, LinkedRight(v), k);
      }
    }
  }

  lemma {:induction false} SortedAtRoot(base: Id, t: Tree)
    requires t.Br? && Sorted(base, Inorder(t))
    ensures InWindow(base, t.n.key)
    ensures AllBelow(base, Inorder(t.l), t.n.key) && AllAbove(base, Inorder(t.r), t.n.key)
    ensures Sorted(base, Inorder(t.l))
  {
    var s, l := Inorder(t), Inorder(t.l);
    assert s == [] + (l + [t.n] + Inorder(t.r)) + [];
    SortedMiddle(base, [], l, t.n, Inorder(t.r), []);
    assert forall i :: 0 <= i < |l| ==> l[i] == s[i];
  }

  lemma BelowTrans(base: Id, s: seq<Node>, j: Id, k: Id)
    ensures AllBelow(base, s, j) && Rank(base, j) <= Rank(base, k) ==> AllBelow(base, s, k)
    ensures AllAbove(base, s, j) && Rank(base, k) <= Rank(base, j) ==> AllAbove(base, s, k)
  {
  }

  /**
   * After a splay for `k` everything left of the root is below `k` and
   * everything right of it is above: the root is `k` or a neighbour of its place.
   */
  lemma {:induction false} SplayedSplits(base: Id, t: Tree, k: Id)
    requires t.Br? && Sorted(base, Inorder(t)) && InWindow(base, k)
    ensures AllBelow(base, Inorder(Splayed(t, k).l), k)
    ensures AllAbove(base, Inorder(Splayed(t, k).r), k)
  {
    var v := View(Bottom, t, Bottom);
    assert ViewOrder(v) == Inorder(t);
    LoopBrackets(base, v, k);
    var w, r := SplayLoop(v, k), Splayed(t, k);
    PlugLeftOrder(w.ls, w.cur.l);
    PlugRightOrder(w.rs, w.cur.r);
    SplayedKeepsOrder(t, k);
    SortedAtRoot(base, r);
    CmpIsRankOrder(base, k, r.n.key);
    BelowTrans(base, Inorder(r.l), r.n.key, k);
    BelowTrans(base, Inorder(r.r), r.n.key, k);
  }

  /** MINMAX keeps the order and brings the extreme element to the root. */
  lemma {:induction false} MinMaxLoopFinds(v: View, comp: int)
    requires v.cur.Br?
    ensures ViewOrder(MinMaxLoop(v, comp)) == ViewOrder(v)
    ensures comp < 0 ==> MinMaxLoop(v, comp).ls == v.ls && MinMaxLoop(v, comp).cur.l.Leaf?
    ensures comp > 0 ==> MinMaxLoop(v, comp).rs == v.rs && MinMaxLoop(v, comp).cur.r.Leaf?
    decreases v.cur
  {
    RotationsKeepOrder(v);
    if comp < 0 && v.cur.l.Br? {
      var w := RotatedRight(v);
      LinksKeepOrder(w);
      if w.cur.l.Br? { MinMaxLoopFinds(LinkedLeft(w), comp); }
    } else if comp > 0 && v.cur.r.Br? {
      var w := RotatedLeft(v);
      LinksKeepOrder(w);
      if w.cur.r.Br? { MinMaxLoopFinds(LinkedRight(w), comp); }
    }
  }

  lemma {:induction false} SplayedMinMaxFinds(t: Tree, comp: int)
    requires t.Br?
    ensures Inorder(SplayedMinMax(t, comp)) == Inorder(t)
    ensures comp < 0 ==> SplayedMinMax(t, comp).n == Inorder(t)[0]
    ensures comp > 0 ==> SplayedMinMax(t, comp).n == Inorder(t)[|Inorder(t)| - 1]
  {
    var v := View(Bottom, t, Bottom);
    MinMaxLoopFinds(v, comp);
    AssembledOrder(MinMaxLoop(v, comp));
  }

  // ------------------------------------------------------ the map it implements

  /** The finite map from ids to elements that a tree stands for. */
  ghost function Lookup(s: seq<Node>): map<Id, Node> {
    if s == [] then map[] else Lookup(s[..|s| - 1])[s[|s| - 1].key := s[|s| - 1]]
  }

  ghost predicate Sound(s: seq<Node>, m: map<Id, Node>) {
    && (forall n :: n in s ==> n.key in m && m[n.key] == n)
    && (forall k :: k in m ==> m[k] in s && m[k].key == k)
  }

  ghost predicate UniqueKeys(s: seq<Node>) {
    forall i, j :: 0 <= i < j < |s| ==> s[i].key != s[j].key
  }

  lemma SortedUnique(base: Id, s: seq<Node>)
    requires Sorted(base, s)
    ensures UniqueKeys(s)
  {
  }

  lemma {:induction false} LookupSound(s: seq<Node>)
    requires UniqueKeys(s)
    ensures Sound(s, Lookup(s))
  {
    if s != [] {
      var t := s[..|s| - 1];
      LookupSound(t);
      assert s == t + [s[|s| - 1]];
    }
  }

  lemma SoundUnique(s: seq<Node>, m: map<Id, Node>, m': map<Id, Node>)
    requires Sound(s, m) && Sound(s, m')
    ensures m == m'
  {
  }

  /** Adding an element with a new id anywhere adds one entry to the map. */
  lemma {:induction false} LookupSplit(a: seq<Node>, e: Node, b: seq<Node>)
    requires UniqueKeys(a + [e] + b)
    ensures e.key !in Lookup(a + b)
    ensures Lookup(a + [e] + b) == Lookup(a + b)[e.key := e]
  {
    var s, t := a + [e] + b, a + b;
    assert UniqueKeys(t) by {
      assert forall i :: 0 <= i < |t| ==> t[i] == s[if i < |a| then i else i + 1];
    }
    forall n | n in t
      ensures n.key != e.key
    {
      var i :| 0 <= i < |t| && t[i] == n;
      assert s[|a|] == e && n == s[if i < |a| then i else i + 1];
    }
    LookupSound(s);
    LookupSound(t);
    SoundUnique(s, Lookup(s), Lookup(t)[e.key := e]);
  }

  lemma {:induction false} SortedDrop(base: Id, a: seq<Node>, e: Node, b: seq<Node>)
    requires Sorted(base, a + [e] + b)
    ensures Sorted(base, a + b)
  {
    var s, t := a + [e] + b, a + b;
    assert forall i :: 0 <= i < |t| ==> t[i] == s[if i < |a| then i else i + 1];
  }

  /** Placing `e` between smaller and larger ids keeps the order. */
  lemma {:induction false} SortedInsert(base: Id, a: seq<Node>, e: Node, b: seq<Node>)
    requires Sorted(base, a + b) && InWindow(base, e.key)
    requires AllBelow(base, a, e.key) && AllAbove(base, b, e.key)
    ensures Sorted(base, a + [e] + b)
  {
    var s, t := a + [e] + b, a + b;
    assert forall i :: 0 <= i < |s| && i != |a| ==> s[i] == t[if i < |a| then i else i - 1];
    assert forall i :: 0 <= i < |a| ==> s[i] in a;
    assert forall i :: |a| < i < |s| ==> s[i] in b;
  }

  /** Looking at the root after a splay answers the lookup. */
  lemma {:induction false} SplayedLookup(base: Id, t: Tree, k: Id)
    requires t.Br? && Sorted(base, Inorder(t)) && InWindow(base, k)
    ensures k in Lookup(Inorder(t)) <==> IdCmp(k, Splayed(t, k).n.key) == 0
    ensures k in Lookup(Inorder(t)) ==> Lookup(Inorder(t))[k] == Splayed(t, k).n
  {
    var r, s := Splayed(t, k), Inorder(t);
    SplayedKeepsOrder(t, k);
    SplayedSplits(base, t, k);
    SortedUnique(base, s);
    LookupSound(s);
    var at := |Inorder(r.l)|;
    assert s == Inorder(r.l) + [r.n] + Inorder(r.r);
    assert s[at] == r.n;
    assert forall n :: n in s && n.key == k ==> n == r.n;
  }

  /** SPLAY_INSERT's last step: the new element takes over a splayed root. */
  ghost function AtRoot(t: Tree, e: Node): Tree
    requires t.Br?
  {
    if IdCmp(e.key, t.n.key) < 0
    then Br(t.l, e, Br(Leaf, t.n, t.r))
    else Br(Br(t.l, t.n, Leaf), e, t.r)
  }

  /** The tree SPLAY_INSERT leaves behind. */
  ghost function Inserted(t: Tree, e: Node): Tree {
    if t.Leaf? then Br(Leaf, e, Leaf)
    else
      var r := Splayed(t, e.key);
      if IdCmp(e.key, r.n.key) == 0 then r else AtRoot(r, e)
  }

  /** The tree SPLAY_REMOVE leaves behind; its last write drops the old right side of `u`. */
  ghost function Removed(t: Tree, k: Id): Tree {
    if t.Leaf? then t
    else
      var r := Splayed(t, k);
      if IdCmp(k, r.n.key) != 0 then r
      else if r.l.Leaf? then r.r
      else
        var u := Splayed(r.l, k);
        Br(u.l, u.n, r.r)
  }

  lemma BelowSnoc(base: Id, s: seq<Node>, n: Node, k: Id)
    requires Rank(base, n.key) < Rank(base, k) && AllBelow(base, s, n.key)
    ensures AllBelow(base, s + [n], k)
  {
  }

  lemma AboveCons(base: Id, s: seq<Node>, n: Node, k: Id)
    requires Rank(base, k) < Rank(base, n.key) && AllAbove(base, s, n.key)
    ensures AllAbove(base, [n] + s, k)
  {
  }

  lemma {:induction false} PlaceBetween(base: Id, a: seq<Node>, e: Node, b: seq<Node>)
    requires Sorted(base, a + b) && InWindow(base, e.key)
    requires AllBelow(base, a, e.key) && AllAbove(base, b, e.key)
    ensures Sorted(base, a + [e] + b)
    ensures Lookup(a + [e] + b) == Lookup(a + b)[e.key := e]
  {
    SortedInsert(base, a, e, b);
    SortedUnique(base, a + [e] + b);
    LookupSplit(a, e, b);
  }

  lemma {:induction false} AtRootOrder(t: Tree, e: Node)
    requires t.Br?
    ensures Inorder(AtRoot(t, e)) ==
            if IdCmp(e.key, t.n.key) < 0
            then Inorder(t.l) + [e] + ([t.n] + Inorder(t.r))
            else Inorder(t.l) + [t.n] + [e] + Inorder(t.r)
  {
    assert Inorder(Br(Leaf, t.n, t.r)) == [t.n] + Inorder(t.r);
    assert Inorder(Br(t.l, t.n, Leaf)) == Inorder(t.l) + [t.n];
  }

  lemma {:induction false} AtRootRefines(base: Id, t: Tree, e: Node)
    requires t.Br? && Sorted(base, Inorder(t)) && InWindow(base, e.key)
    requires AllBelow(base, Inorder(t.l), e.key) && AllAbove(base, Inorder(t.r), e.key)
    requires IdCmp(e.key, t.n.key) != 0
    ensures Sorted(base, Inorder(AtRoot(t, e)))
    ensures Lookup(Inorder(AtRoot(t, e))) == Lookup(Inorder(t))[e.key := e]
  {
    var l, n, r := Inorder(t.l), t.n, Inorder(t.r);
    SortedAtRoot(base, t);
    AtRootOrder(t, e);
    if IdCmp(e.key, n.key) < 0 {
      assert Inorder(t) == l + ([n] + r);
      PlaceBetween(base, l, e, [n] + r) by {
        CmpIsRankOrder(base, e.key, n.key);
        AboveCons(base, r, n, e.key);
      }
    } else {
      PlaceBetween(base, l + [n], e, r) by {
        CmpIsRankOrder(base, e.key, n.key);
        BelowSnoc(base, l, n, e.key);
      }
    }
  }

  /** SPLAY_INSERT implements insertion into a finite map. */
  lemma {:induction false} InsertRefines(base: Id, t: Tree, e: Node)
    requires Sorted(base, Inorder(t)) && InWindow(base, e.key)
    ensures Sorted(base, Inorder(Inserted(t, e)))
    ensures var m := Lookup(Inorder(t));
            Lookup(Inorder(Inserted(t, e))) == if e.key in m then m else m[e.key := e]
  {
    if t.Leaf? {
      assert Inorder(Inserted(t, e)) == [e];
    } else {
      SplayedKeepsOrder(t, e.key);
      SplayedLookup(base, t, e.key);
      SplayedSplits(base, t, e.key);
      if e.key !in Lookup(Inorder(t)) { AtRootRefines(base, Splayed(t, e.key), e); }
    }
  }

  lemma BelowNotAbove(base: Id, t: Tree, k: Id)
    requires t.Br? && t.r.Br? && AllBelow(base, Inorder(t), k)
    ensures !AllAbove(base, Inorder(t.r), k)
  {
    assert t.r.n in Inorder(t.r) && t.r.n in Inorder(t);
  }

  /** In the splayed left subtree of a removed id, nothing is right of the root. */
  lemma {:induction false} SplayedMaxHasNoRight(base: Id, t: Tree, k: Id)
    requires t.Br? && Sorted(base, Inorder(t)) && InWindow(base, k)
    requires AllBelow(base, Inorder(t), k)
    ensures Splayed(t, k).r.Leaf?
  {
    SplayedKeepsOrder(t, k);
    SplayedSplits(base, t, k);
    var r := Splayed(t, k);
    if r.r.Br? { BelowNotAbove(base, r, k); }
  }

  /** Removing the root of a splayed tree drops its id from the map. */
  lemma {:induction false} DropRoot(base: Id, t: Tree)
    requires t.Br? && Sorted(base, Inorder(t))
    ensures Sorted(base, Inorder(t.l) + Inorder(t.r))
    ensures Lookup(Inorder(t.l) + Inorder(t.r)) == Lookup(Inorder(t)) - {t.n.key}
  {
    SortedDrop(base, Inorder(t.l), t.n, Inorder(t.r));
    SortedUnique(base, Inorder(t));
    LookupSplit(Inorder(t.l), t.n, Inorder(t.r));
  }

  lemma {:induction false} RemovedOrder(base: Id, t: Tree, k: Id)
    requires t.Br? && Sorted(base, Inorder(t)) && InWindow(base, k)
    requires IdCmp(k, Splayed(t, k).n.key) == 0
    ensures var r := Splayed(t, k); Inorder(Removed(t, k)) == Inorder(r.l) + Inorder(r.r)
  {
    var r := Splayed(t, k);
    SplayedKeepsOrder(t, k);
    SortedAtRoot(base, r);
    if r.l.Br? {
      SplayedMaxHasNoRight(base, r.l, k);
      SplayedKeepsOrder(r.l, k);
      var u := Splayed(r.l, k);
      assert Inorder(r.l) == Inorder(u.l) + [u.n];
    }
  }

  /** SPLAY_REMOVE implements removal from a finite map. */
  lemma {:induction false} RemoveRefines(base: Id, t: Tree, k: Id)
    requires Sorted(base, Inorder(t)) && InWindow(base, k)
    ensures Sorted(base, Inorder(Removed(t, k)))
    ensures Lookup(Inorder(Removed(t, k))) == Lookup(Inorder(t)) - {k}
    ensures |Inorder(Removed(t, k))| == |Inorder(t)| - if k in Lookup(Inorder(t)) then 1 else 0
  {
    if t.Br? {
      SplayedKeepsOrder(t, k);
      SplayedLookup(base, t, k);
      if k in Lookup(Inorder(t)) {
        RemovedOrder(base, t, k);
        DropRoot(base, Splayed(t, k));
      }
    }
  }

  lemma FirstAtRoot(base: Id, l: seq<Node>, n: Node, r: seq<Node>)
    requires Sorted(base, l + [n] + r) && (l + [n] + r)[0].key == n.key
    ensures l == [] && (l + [n] + r)[1..] == l + r
  {
    var s := l + [n] + r;
    assert s[|l|] == n;
  }

  /** Removing the least element of a nonempty tree leaves the others, in order. */
  lemma {:induction false} DrainStep(base: Id, t: Tree)
    requires Sorted(base, Inorder(t)) && Inorder(t) != []
    ensures var u := Removed(t, Inorder(t)[0].key);
            Sorted(base, Inorder(u)) && Inorder(u) == Inorder(t)[1..]
  {
    var s, k := Inorder(t), Inorder(t)[0].key;
    SortedUnique(base, s);
    LookupSound(s);
    RemoveRefines(base, t, k);
    SplayedLookup(base, t, k);
    SplayedKeepsOrder(t, k);
    RemovedOrder(base, t, k);
    var r := Splayed(t, k);
    FirstAtRoot(base, Inorder(r.l), r.n, Inorder(r.r));
  }

  // ------------------------------------------------------------ moving windows

  /** All the ids fit the half circle at `base`. */
  ghost predicate AllIn(base: Id, ids: set<Id>) {
    forall x :: x in ids ==> InWindow(base, x)
  }

  /** The ids fit some half circle. */
  ghost predicate FitWindow(ids: set<Id>) {
    exists base: Id :: AllIn(base, ids)
  }

  /** Fitting a half circle is exactly what makes the comparator a strict total order on the ids. */
  lemma {:induction false} FitIffOrdered(ids: set<Id>)
    ensures FitWindow(ids) <==> StrictTotalOrder(ids)
  {
    if FitWindow(ids) {
      var base: Id :| AllIn(base, ids);
      forall a, b | a in ids && b in ids
        ensures IdCmp(a, b) < 0 <==> Rank(base, a) < Rank(base, b)
        ensures IdCmp(a, b) > 0 <==> Rank(base, a) > Rank(base, b)
      {
        CmpIsRankOrder(base, a, b);
      }
    } else if ids == {} {
      assert AllIn(0, ids);
    } else {
      OrderIffWindow(ids);
      assert forall w: Id :: w in ids ==> !AllIn(w, ids);
    }
  }

  /** Ids taken from a counter fit as long as fewer than 2^31 of it lie between the oldest in use and the newest. */
  lemma {:induction false} CounterFits(counts: set<nat>, oldest: nat)
    requires forall c :: c in counts ==> oldest <= c < oldest + HALF
    ensures FitWindow(set c | c in counts :: c % WRAP)
  {
    var base := oldest % WRAP;
    forall c | c in counts
      ensures InWindow(base, c % WRAP)
    {
      assert (c % WRAP - base) % WRAP == c - oldest;
    }
    assert AllIn(base, set c | c in counts :: c % WRAP);
  }

  ghost function Keys(s: seq<Node>): set<Id> {
    set n | n in s :: n.key
  }

  ghost predicate Ordered(s: seq<Node>) {
    exists base: Id :: Sorted(base, s)
  }

  lemma LookupKeys(s: seq<Node>)
    requires UniqueKeys(s)
    ensures Lookup(s).Keys == Keys(s)
  {
    LookupSound(s);
  }

  /** The order does not depend on the window, only the ids must fit it. */
  lemma {:induction false} Rebase(base: Id, s: seq<Node>, base': Id)
    requires Sorted(base, s) && AllIn(base', Keys(s))
    ensures Sorted(base', s)
  {
    forall i | 0 <= i < |s|
      ensures InWindow(base', s[i].key)
    {
      assert s[i] in s && s[i].key in Keys(s);
    }
    forall i, j | 0 <= i < j < |s|
      ensures Rank(base', s[i].key) < Rank(base', s[j].key)
    {
      CmpIsRankOrder(base, s[i].key, s[j].key);
      CmpIsRankOrder(base', s[i].key, s[j].key);
    }
  }

  /** A window that holds the live ids and one more. */
  lemma {:induction false} CommonWindow(s: seq<Node>, k: Id) returns (base: Id)
    requires Ordered(s) && FitWindow(Lookup(s).Keys + {k})
    ensures Sorted(base, s) && InWindow(base, k)
  {
    var b: Id :| Sorted(b, s);
    SortedUnique(b, s);
    LookupKeys(s);
    base :| AllIn(base, Lookup(s).Keys + {k});
    Rebase(b, s, base);
  }

  // -------------------------------------------------- whole runs of operations

  datatype Op = Insert(e: Node) | Remove(k: Id) | Find(k: Id) | Min | Max

  /** The tree an operation leaves behind. */
  ghost function Apply(t: Tree, op: Op): Tree {
    match op
    case Insert(e) => Inserted(t, e)
    case Remove(k) => Removed(t, k)
    case Find(k) => if t.Leaf? then t else Splayed(t, k)
    case Min => if t.Leaf? then t else SplayedMinMax(t, -1)
    case Max => if t.Leaf? then t else SplayedMinMax(t, 1)
  }

  ghost function AtKey(t: Tree, k: Id): Node? {
    if t.Br? && IdCmp(k, Splayed(t, k).n.key) == 0 then Splayed(t, k).n else null
  }

  /** The element an operation meets: the equal one, or the least or greatest. */
  ghost function Answer(t: Tree, op: Op): Node? {
    match op
    case Insert(e) => AtKey(t, e.key)
    case Remove(k) => AtKey(t, k)
    case Find(k) => AtKey(t, k)
    case Min => if t.Leaf? then null else SplayedMinMax(t, -1).n
    case Max => if t.Leaf? then null else SplayedMinMax(t, 1).n
  }

  /** The same operations on a finite map. */
  ghost function MapApply(m: map<Id, Node>, op: Op): map<Id, Node> {
    match op
    case Insert(e) => if e.key in m then m else m[e.key := e]
    case Remove(k) => m - {k}
    case _ => m
  }

  ghost function AtEntry(m: map<Id, Node>, k: Id): Node? {
    if k in m then m[k] else null
  }

  /** The least entry by the comparator, or the greatest. */
  ghost predicate Extreme(m: map<Id, Node>, r: Node?, least: bool) {
    if m == map[] then r == null
    else
      && r != null && r.key in m && m[r.key] == r
      && forall x :: x in m && x != r.key ==> if least then IdCmp(r.key, x) < 0 else IdCmp(r.key, x) > 0
  }

  ghost predicate MapAnswer(m: map<Id, Node>, op: Op, r: Node?) {
    match op
    case Insert(e) => r == AtEntry(m, e.key)
    case Remove(k) => r == AtEntry(m, k)
    case Find(k) => r == AtEntry(m, k)
    case Min => Extreme(m, r, true)
    case Max => Extreme(m, r, false)
  }

  ghost function Operand(op: Op): set<Id> {
    match op
    case Insert(e) => {e.key}
    case Remove(k) => {k}
    case Find(k) => {k}
    case _ => {}
  }

  ghost predicate Refines(t: Tree, op: Op) {
    && Ordered(Inorder(Apply(t, op)))
    && Lookup(Inorder(Apply(t, op))) == MapApply(Lookup(Inorder(t)), op)
    && MapAnswer(Lookup(Inorder(t)), op, Answer(t, op))
  }

  lemma {:induction false} AtKeyIsEntry(base: Id, t: Tree, k: Id)
    requires Sorted(base, Inorder(t)) && InWindow(base, k)
    ensures AtKey(t, k) == AtEntry(Lookup(Inorder(t)), k)
  {
    if t.Br? { SplayedLookup(base, t, k); }
  }

  /** The first and last elements of a sorted tree are extreme by the comparator. */
  lemma {:induction false} EndsExtreme(base: Id, s: seq<Node>)
    requires Sorted(base, s) && s != []
    ensures Extreme(Lookup(s), s[0], true) && Extreme(Lookup(s), s[|s| - 1], false)
  {
    SortedUnique(base, s);
    LookupSound(s);
    var m := Lookup(s);
    assert s[0] in s && s[|s| - 1] in s;
    forall x | x in m
      ensures x != s[0].key ==> IdCmp(s[0].key, x) < 0
      ensures x != s[|s| - 1].key ==> IdCmp(s[|s| - 1].key, x) > 0
    {
      var i :| 0 <= i < |s| && s[i] == m[x];
      CmpIsRankOrder(base, s[0].key, x);
      CmpIsRankOrder(base, s[|s| - 1].key, x);
    }
  }

  lemma {:induction false} MinMaxRefines(t: Tree, op: Op)
    requires Ordered(Inorder(t)) && (op.Min? || op.Max?)
    ensures Refines(t, op)
  {
    var base: Id :| Sorted(base, Inorder(t));
    if t.Br? {
      SplayedMinMaxFinds(t, if op.Min? then -1 else 1);
      EndsExtreme(base, Inorder(t));
    }
  }

  lemma {:induction false} KeyedRefines(base: Id, t: Tree, op: Op, k: Id)
    requires Sorted(base, Inorder(t)) && InWindow(base, k) && Operand(op) == {k}
    ensures Refines(t, op)
  {
    assert k in Operand(op);
    AtKeyIsEntry(base, t, k);
    match op
    case Insert(e) => InsertRefines(base, t, e);
    case Remove(_) => RemoveRefines(base, t, k);
    case Find(_) => if t.Br? { SplayedKeepsOrder(t, k); }
  }

  /** An operation whose operand fits a window with the live ids is that operation on the finite map. */
  lemma {:induction false} StepRefines(t: Tree, op: Op)
    requires Ordered(Inorder(t)) && FitWindow(Lookup(Inorder(t)).Keys + Operand(op))
    ensures Refines(t, op)
  {
    match op
    case Insert(e) => var base := CommonWindow(Inorder(t), e.key); KeyedRefines(base, t, op, e.key);
    case Remove(k) => var base := CommonWindow(Inorder(t), k); KeyedRefines(base, t, op, k);
    case Find(k) => var base := CommonWindow(Inorder(t), k); KeyedRefines(base, t, op, k);
    case _ => MinMaxRefines(t, op);
  }

  ghost function Run(ops: seq<Op>): Tree {
    if ops == [] then Leaf else Apply(Run(ops[..|ops| - 1]), ops[|ops| - 1])
  }

  ghost function MapRun(ops: seq<Op>): map<Id, Node> {
    if ops == [] then map[] else MapApply(MapRun(ops[..|ops| - 1]), ops[|ops| - 1])
  }

  /** At every step the ids then in the map and the operand fit some half circle, not always the same one. */
  ghost predicate FitRun(ops: seq<Op>) {
    forall i {:trigger ops[i]} :: 0 <= i < |ops| ==> FitWindow(MapRun(ops[..i]).Keys + Operand(ops[i]))
  }

  /**
   * Any sequence of inserts, removes, finds, minima and maxima refines a finite
   * map, however far the ids travel around the circle: at every step the tree
   * stands for the map's state and the operation gives the map's answer.
   */
  lemma {:induction false} RunRefines(ops: seq<Op>)
    requires FitRun(ops)
    ensures Ordered(Inorder(Run(ops))) && Lookup(Inorder(Run(ops))) == MapRun(ops)
    ensures ops != [] ==>
              MapAnswer(MapRun(ops[..|ops| - 1]), ops[|ops| - 1], Answer(Run(ops[..|ops| - 1]), ops[|ops| - 1]))
  {
    if ops == [] {
      assert Sorted(0, Inorder(Leaf));
    } else {
      var n := |ops| - 1;
      var front := ops[..n];
      assert forall i :: 0 <= i < n ==> front[i] == ops[i] && front[..i] == ops[..i];
      RunRefines(front);
      assert FitWindow(MapRun(ops[..n]).Keys + Operand(ops[n]));
      StepRefines(Run(front), ops[n]);
    }
  }
}
