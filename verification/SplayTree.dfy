/**
 * The splay tree on the heap: pointers rewritten in place by the macros.
 *
 * `Snap` is the heap's view of a set of nodes as a map; what it means for a map
 * to hold a tree is stated and proved on maps, so that each macro only has to
 * say which entries it changed.
 */
module SplayTree {
  import opened IdOrder
  import opened SplayShape

  datatype Cell = Cell(left: Node?, right: Node?)
  type Heap = map<Node, Cell>

  ghost function Snap(s: set<Node>): Heap
    reads s
  {
    map n | n in s :: Cell(n.left, n.right)
  }

  // ----------------------------------------------------- trees stored in a heap

  /** The pointer `p` is the root of a tree shaped like `t`. */
  ghost predicate Rep(m: Heap, p: Node?, t: Tree) {
    match t
    case Leaf => p == null
    case Br(l, n, r) => p == n && n in m && Rep(m, m[n].left, l) && Rep(m, m[n].right, r)
  }

  ghost predicate Distinct(t: Tree) {
    t.Br? ==>
      && t.n !in Nodes(t.l) && t.n !in Nodes(t.r) && Nodes(t.l) !! Nodes(t.r)
      && Distinct(t.l) && Distinct(t.r)
  }

  ghost predicate SpineDistinct(s: Spine) {
    s.Grow? ==>
      && s.n !in Nodes(s.sub) && s.n !in SpineNodes(s.up) && Nodes(s.sub) !! SpineNodes(s.up)
      && Distinct(s.sub) && SpineDistinct(s.up)
  }

  /** The node whose free side the next link fills; `node` is the stack dummy. */
  ghost function End(s: Spine, node: Node): Node {
    if s.Bottom? then node else s.n
  }

  ghost predicate RepLeft(m: Heap, s: Spine, node: Node) {
    && End(s, node) in m
    && (s.Grow? ==> Rep(m, m[s.n].left, s.sub) && RepLeft(m, s.up, node) && m[End(s.up, node)].right == s.n)
  }

  ghost predicate RepRight(m: Heap, s: Spine, node: Node) {
    && End(s, node) in m
    && (s.Grow? ==> Rep(m, m[s.n].right, s.sub) && RepRight(m, s.up, node) && m[End(s.up, node)].left == s.n)
  }

  ghost function ViewNodes(v: View): set<Node> {
    SpineNodes(v.ls) + Nodes(v.cur) + SpineNodes(v.rs)
  }

  ghost predicate Apart(v: View, node: Node) {
    && Distinct(v.cur) && SpineDistinct(v.ls) && SpineDistinct(v.rs)
    && SpineNodes(v.ls) !! Nodes(v.cur) && SpineNodes(v.ls) !! SpineNodes(v.rs)
    && Nodes(v.cur) !! SpineNodes(v.rs)
    && node !in ViewNodes(v)
  }

  /** The three trees of a splay in progress. */
  ghost predicate Linked(m: Heap, v: View, root: Node?, node: Node, left: Node, right: Node) {
    && Apart(v, node)
    && Rep(m, root, v.cur) && RepLeft(m, v.ls, node) && RepRight(m, v.rs, node)
    && left == End(v.ls, node) && right == End(v.rs, node)
  }

  /** A tree is unaffected by changes elsewhere. */
  lemma {:induction false} RepFrame(m: Heap, m': Heap, p: Node?, t: Tree)
    requires Rep(m, p, t)
    requires forall n :: n in Nodes(t) && n in m ==> n in m' && m'[n] == m[n]
    ensures Rep(m', p, t)
  {
    if t.Br? {
      RepFrame(m, m', m[t.n].left, t.l);
      RepFrame(m, m', m[t.n].right, t.r);
    }
  }

  /** Nor is a left spine, even by a change of the pointer in its hole. */
  lemma {:induction false} LeftFrame(m: Heap, m': Heap, s: Spine, node: Node)
    requires SpineDistinct(s) && node !in SpineNodes(s) && RepLeft(m, s, node)
    requires node in m && node in m'
    requires s.Grow? ==> s.n in m' && m'[s.n].left == m[s.n].left && m'[node].right == m[node].right
    requires forall n :: n in SpineNodes(s) && n in m && n != End(s, node) ==> n in m' && m'[n] == m[n]
    ensures RepLeft(m', s, node)
  {
    if s.Grow? {
      RepFrame(m, m', m[s.n].left, s.sub);
      LeftFrame(m, m', s.up, node);
    }
  }

  lemma {:induction false} RightFrame(m: Heap, m': Heap, s: Spine, node: Node)
    requires SpineDistinct(s) && node !in SpineNodes(s) && RepRight(m, s, node)
    requires node in m && node in m'
    requires s.Grow? ==> s.n in m' && m'[s.n].right == m[s.n].right && m'[node].left == m[node].left
    requires forall n :: n in SpineNodes(s) && n in m && n != End(s, node) ==> n in m' && m'[n] == m[n]
    ensures RepRight(m', s, node)
  {
    if s.Grow? {
      RepFrame(m, m', m[s.n].right, s.sub);
      RightFrame(m, m', s.up, node);
    }
  }

  // ---------------------------------------------------- the macros, on the map

  lemma RotationsApart(v: View, node: Node)
    requires v.cur.Br? && Apart(v, node)
    ensures v.cur.l.Br? ==> Apart(RotatedRight(v), node) && Nodes(RotatedRight(v).cur) == Nodes(v.cur)
    ensures v.cur.r.Br? ==> Apart(RotatedLeft(v), node) && Nodes(RotatedLeft(v).cur) == Nodes(v.cur)
  {
    var c := v.cur;
    assert Distinct(c.l) && Distinct(c.r);
    if c.l.Br? {
      assert Nodes(c.l) == Nodes(c.l.l) + {c.l.n} + Nodes(c.l.r);
      assert Nodes(Br(c.l.r, c.n, c.r)) == Nodes(c.l.r) + {c.n} + Nodes(c.r);
    }
    if c.r.Br? {
      assert Nodes(c.r) == Nodes(c.r.l) + {c.r.n} + Nodes(c.r.r);
      assert Nodes(Br(c.l, c.n, c.r.l)) == Nodes(c.l) + {c.n} + Nodes(c.r.l);
    }
  }

  lemma LinksApart(v: View, node: Node)
    requires v.cur.Br? && Apart(v, node)
    ensures Apart(LinkedLeft(v), node) && ViewNodes(LinkedLeft(v)) == ViewNodes(v)
    ensures Apart(LinkedRight(v), node) && ViewNodes(LinkedRight(v)) == ViewNodes(v)
  {
  }

  /** Both spines survive a change confined to the current tree. */
  lemma SpinesFrame(m: Heap, m': Heap, v: View, node: Node)
    requires Apart(v, node) && RepLeft(m, v.ls, node) && RepRight(m, v.rs, node)
    requires node in m && forall n :: n in m && n !in Nodes(v.cur) ==> n in m' && m'[n] == m[n]
    ensures RepLeft(m', v.ls, node) && RepRight(m', v.rs, node)
  {
    LeftFrame(m, m', v.ls, node);
    RightFrame(m, m', v.rs, node);
  }

  lemma {:induction false} RotateRightMap(m: Heap, v: View, root: Node?, node: Node, left: Node, right: Node)
    requires v.cur.Br? && v.cur.l.Br? && node in m && Linked(m, v, root, node, left, right)
    ensures var n, t := v.cur.n, v.cur.l.n;
            && t in m
            && Linked(m[n := m[n].(left := m[t].right)][t := m[t].(right := n)],
                      RotatedRight(v), t, node, left, right)
  {
    var c := v.cur;
    var n, t := c.n, c.l.n;
    assert Rep(m, m[n].left, c.l) && Rep(m, m[n].right, c.r);
    var m' := m[n := m[n].(left := m[t].right)][t := m[t].(right := n)];
    RotationsApart(v, node);
    RepFrame(m, m', m[t].left, c.l.l);
    RepFrame(m, m', m[t].right, c.l.r);
    RepFrame(m, m', m[n].right, c.r);
    SpinesFrame(m, m', v, node);
  }

  lemma {:induction false} RotateLeftMap(m: Heap, v: View, root: Node?, node: Node, left: Node, right: Node)
    requires v.cur.Br? && v.cur.r.Br? && node in m && Linked(m, v, root, node, left, right)
    ensures var n, t := v.cur.n, v.cur.r.n;
            && t in m
            && Linked(m[n := m[n].(right := m[t].left)][t := m[t].(left := n)],
                      RotatedLeft(v), t, node, left, right)
  {
    var c := v.cur;
    var n, t := c.n, c.r.n;
    assert Rep(m, m[n].left, c.l) && Rep(m, m[n].right, c.r);
    var m' := m[n := m[n].(right := m[t].left)][t := m[t].(left := n)];
    RotationsApart(v, node);
    RepFrame(m, m', m[t].left, c.r.l);
    RepFrame(m, m', m[t].right, c.r.r);
    RepFrame(m, m', m[n].left, c.l);
    SpinesFrame(m, m', v, node);
  }

  lemma {:induction false} LinkLeftMap(m: Heap, v: View, root: Node?, node: Node, left: Node, right: Node)
    requires v.cur.Br? && node in m && Linked(m, v, root, node, left, right)
    ensures Linked(m[right := m[right].(left := root)], LinkedLeft(v), m[v.cur.n].left, node, left, v.cur.n)
  {
    var c := v.cur;
    var m' := m[right := m[right].(left := root)];
    LinksApart(v, node);
    RepFrame(m, m', m[c.n].left, c.l);
    RepFrame(m, m', m[c.n].right, c.r);
    LeftFrame(m, m', v.ls, node);
    RightFrame(m, m', v.rs, node);
  }

  lemma {:induction false} LinkRightMap(m: Heap, v: View, root: Node?, node: Node, left: Node, right: Node)
    requires v.cur.Br? && node in m && Linked(m, v, root, node, left, right)
    ensures Linked(m[left := m[left].(right := root)], LinkedRight(v), m[v.cur.n].right, node, v.cur.n, right)
  {
    var c := v.cur;
    var m' := m[left := m[left].(right := root)];
    LinksApart(v, node);
    RepFrame(m, m', m[c.n].left, c.l);
    RepFrame(m, m', m[c.n].right, c.r);
    LeftFrame(m, m', v.ls, node);
    RightFrame(m, m', v.rs, node);
  }

  lemma {:induction false} PlugLeftDistinct(s: Spine, t: Tree)
    requires SpineDistinct(s) && Distinct(t) && SpineNodes(s) !! Nodes(t)
    ensures Distinct(PlugLeft(s, t)) && Nodes(PlugLeft(s, t)) == SpineNodes(s) + Nodes(t)
  {
    if s.Grow? { PlugLeftDistinct(s.up, Br(s.sub, s.n, t)); }
  }

  lemma {:induction false} PlugRightDistinct(s: Spine, t: Tree)
    requires SpineDistinct(s) && Distinct(t) && SpineNodes(s) !! Nodes(t)
    ensures Distinct(PlugRight(s, t)) && Nodes(PlugRight(s, t)) == SpineNodes(s) + Nodes(t)
  {
    if s.Grow? { PlugRightDistinct(s.up, Br(t, s.n, s.sub)); }
  }

  /** Once its hole holds `t`, a left spine is a tree hanging off the dummy. */
  lemma {:induction false} CloseLeft(m: Heap, s: Spine, t: Tree, node: Node)
    requires RepLeft(m, s, node) && Rep(m, m[End(s, node)].right, t)
    ensures node in m && Rep(m, m[node].right, PlugLeft(s, t))
  {
    if s.Grow? { CloseLeft(m, s.up, Br(s.sub, s.n, t), node); }
  }

  lemma {:induction false} CloseRight(m: Heap, s: Spine, t: Tree, node: Node)
    requires RepRight(m, s, node) && Rep(m, m[End(s, node)].left, t)
    ensures node in m && Rep(m, m[node].left, PlugRight(s, t))
  {
    if s.Grow? { CloseRight(m, s.up, Br(t, s.n, s.sub), node); }
  }

  /** The first half of SPLAY_ASSEMBLE: both holes receive the root's subtrees. */
  lemma {:induction false} FillMap(m: Heap, v: View, root: Node?, node: Node, left: Node, right: Node)
    requires v.cur.Br? && node in m && Linked(m, v, root, node, left, right)
    ensures var m1 := m[left := m[left].(right := m[v.cur.n].left)];
            var m2 := m1[right := m1[right].(left := m[v.cur.n].right)];
            && m2[v.cur.n] == m[v.cur.n]
            && Rep(m2, m2[node].right, PlugLeft(v.ls, v.cur.l))
            && Rep(m2, m2[node].left, PlugRight(v.rs, v.cur.r))
  {
    var c := v.cur;
    var m1 := m[left := m[left].(right := m[c.n].left)];
    var m2 := m1[right := m1[right].(left := m[c.n].right)];
    assert left !in Nodes(c) && right !in Nodes(c);
    RepFrame(m, m2, m[c.n].left, c.l);
    RepFrame(m, m2, m[c.n].right, c.r);
    LeftFrame(m, m2, v.ls, node);
    RightFrame(m, m2, v.rs, node);
    CloseLeft(m2, v.ls, c.l, node);
    CloseRight(m2, v.rs, c.r, node);
  }

  /** SPLAY_ASSEMBLE. */
  lemma {:induction false} AssembleMap(m: Heap, v: View, root: Node?, node: Node, left: Node, right: Node)
    requires v.cur.Br? && node in m && Linked(m, v, root, node, left, right)
    ensures var m1 := m[left := m[left].(right := m[v.cur.n].left)];
            var m2 := m1[right := m1[right].(left := m[v.cur.n].right)];
            Rep(m2[v.cur.n := Cell(m2[node].right, m2[node].left)], root, Assembled(v))
    ensures Distinct(Assembled(v)) && Nodes(Assembled(v)) == ViewNodes(v)
  {
    FillMap(m, v, root, node, left, right);
    PlugLeftDistinct(v.ls, v.cur.l);
    PlugRightDistinct(v.rs, v.cur.r);
    var m1 := m[left := m[left].(right := m[v.cur.n].left)];
    var m2 := m1[right := m1[right].(left := m[v.cur.n].right)];
    var m3 := m2[v.cur.n := Cell(m2[node].right, m2[node].left)];
    RepFrame(m2, m3, m2[node].right, PlugLeft(v.ls, v.cur.l));
    RepFrame(m2, m3, m2[node].left, PlugRight(v.rs, v.cur.r));
  }

  /** SPLAY_INSERT's pointer writes once the tree has been splayed. */
  lemma {:induction false} InsertMap(m: Heap, t: Tree, e: Node)
    requires t.Br? && Distinct(t) && Rep(m, t.n, t) && e !in Nodes(t)
    ensures Distinct(AtRoot(t, e)) && Nodes(AtRoot(t, e)) == Nodes(t) + {e}
    ensures var m' := if IdCmp(e.key, t.n.key) < 0
                      then m[e := Cell(m[t.n].left, t.n)][t.n := m[t.n].(left := null)]
                      else m[e := Cell(t.n, m[t.n].right)][t.n := m[t.n].(right := null)];
            Rep(m', e, AtRoot(t, e))
  {
    var m' := if IdCmp(e.key, t.n.key) < 0
              then m[e := Cell(m[t.n].left, t.n)][t.n := m[t.n].(left := null)]
              else m[e := Cell(t.n, m[t.n].right)][t.n := m[t.n].(right := null)];
    RepFrame(m, m', m[t.n].left, t.l);
    RepFrame(m, m', m[t.n].right, t.r);
    assert Nodes(Br(Leaf, t.n, t.r)) == {t.n} + Nodes(t.r);
    assert Nodes(Br(t.l, t.n, Leaf)) == Nodes(t.l) + {t.n};
  }

  // ---------------------------------------------------------------- the macros

  method RotateRight(head: Head, tmp: Node, ghost s: set<Node>, ghost v: View, node: Node, left: Node, right: Node)
    requires v.cur.Br? && v.cur.l.Br? && tmp == v.cur.l.n && node in s
    requires Linked(Snap(s), v, head.root, node, left, right)
    modifies head`root, head.root, tmp
    ensures Linked(Snap(s), RotatedRight(v), head.root, node, left, right)
  {
    ghost var m, n := Snap(s), head.root;
    RotateRightMap(m, v, n, node, left, right);
    head.root.left := tmp.right;
    tmp.right := head.root;
    head.root := tmp;
    assert Snap(s) == m[n := m[n].(left := m[tmp].right)][tmp := m[tmp].(right := n)];
  }

  method RotateLeft(head: Head, tmp: Node, ghost s: set<Node>, ghost v: View, node: Node, left: Node, right: Node)
    requires v.cur.Br? && v.cur.r.Br? && tmp == v.cur.r.n && node in s
    requires Linked(Snap(s), v, head.root, node, left, right)
    modifies head`root, head.root, tmp
    ensures Linked(Snap(s), RotatedLeft(v), head.root, node, left, right)
  {
    ghost var m, n := Snap(s), head.root;
    RotateLeftMap(m, v, n, node, left, right);
    head.root.right := tmp.left;
    tmp.left := head.root;
    head.root := tmp;
    assert Snap(s) == m[n := m[n].(right := m[tmp].left)][tmp := m[tmp].(left := n)];
  }

  method LinkLeft(head: Head, ghost s: set<Node>, ghost v: View, node: Node, left: Node, right: Node)
    returns (last: Node)
    requires v.cur.Br? && node in s && Linked(Snap(s), v, head.root, node, left, right)
    modifies head`root, right`left
    ensures Linked(Snap(s), LinkedLeft(v), head.root, node, left, last)
  {
    ghost var m := Snap(s);
    LinkLeftMap(m, v, head.root, node, left, right);
    last := head.root;
    right.left := head.root;
    head.root := head.root.left;
    assert Snap(s) == m[right := m[right].(left := last)];
  }

  method LinkRight(head: Head, ghost s: set<Node>, ghost v: View, node: Node, left: Node, right: Node)
    returns (last: Node)
    requires v.cur.Br? && node in s && Linked(Snap(s), v, head.root, node, left, right)
    modifies head`root, left`right
    ensures Linked(Snap(s), LinkedRight(v), head.root, node, last, right)
  {
    ghost var m := Snap(s);
    LinkRightMap(m, v, head.root, node, left, right);
    last := head.root;
    left.right := head.root;
    head.root := head.root.right;
    assert Snap(s) == m[left := m[left].(right := last)];
  }

  method Assemble(head: Head, node: Node, ghost s: set<Node>, ghost v: View, left: Node, right: Node)
    requires v.cur.Br? && node in s && Linked(Snap(s), v, head.root, node, left, right)
    modifies left`right, right`left, head.root
    ensures Rep(Snap(s), head.root, Assembled(v))
    ensures Distinct(Assembled(v)) && Nodes(Assembled(v)) == ViewNodes(v)
  {
    ghost var m := Snap(s);
    AssembleMap(m, v, head.root, node, left, right);
    ghost var m1 := m[left := m[left].(right := m[v.cur.n].left)];
    ghost var m2 := m1[right := m1[right].(left := m[v.cur.n].right)];
    left.right := head.root.left;
    right.left := head.root.right;
    assert Snap(s) == m2;
    head.root.left := node.right;
    head.root.right := node.left;
    assert Snap(s) == m2[v.cur.n := Cell(m2[node].right, m2[node].left)];
  }

  // ------------------------------------------------------------- the operations

  /** The ends of an ordered tree are its extreme elements. */
  lemma {:induction false} EndsOf(t: Tree)
    ensures Ordered(Inorder(t)) && t.Br? ==>
              var s := Inorder(t);
              s != [] && Extreme(Lookup(s), s[0], true) && Extreme(Lookup(s), s[|s| - 1], false)
  {
    if Ordered(Inorder(t)) && t.Br? {
      var base: Id :| Sorted(base, Inorder(t));
      assert t.n in Inorder(t);
      EndsExtreme(base, Inorder(t));
    }
  }

  lemma {:induction false} NodesInorder(t: Tree, n: Node)
    ensures n in Nodes(t) <==> n in Inorder(t)
  {
    if t.Br? {
      NodesInorder(t.l, n);
      NodesInorder(t.r, n);
    }
  }

  /** An element of a tree in order is in the map it stands for. */
  lemma {:induction false} MemberFound(t: Tree, n: Node)
    requires Ordered(Inorder(t)) && n in Nodes(t)
    ensures n.key in Lookup(Inorder(t)) && Lookup(Inorder(t))[n.key] == n
  {
    NodesInorder(t, n);
    var base :| Sorted(base, Inorder(t));
    SortedUnique(base, Inorder(t));
    LookupSound(Inorder(t));
  }

  class Head {
    var root: Node?
    ghost var shape: Tree
    ghost var nodes: set<Node>

    /** `root` points at a heap tree shaped like `shape`, made of `nodes`. */
    ghost predicate Valid()
      reads this, nodes
    {
      nodes == Nodes(shape) && Distinct(shape) && Rep(Snap(nodes), root, shape)
    }

    /** The finite map the tree stands for. */
    ghost function Index(): map<Id, Node>
      reads this
    {
      Lookup(Inorder(shape))
    }

    /** The tree is in order, and the ids in it fit a half circle together with `ids`. */
    ghost predicate Fits(ids: set<Id>)
      reads this
    {
      Ordered(Inorder(shape)) && FitWindow(Index().Keys + ids)
    }

    /** SPLAY_INIT. */
    constructor ()
      ensures Valid() && shape == Leaf
    {
      root := null;
      shape, nodes := Leaf, {};
    }

    /** The loop body of SPLAY for an id below the root's. */
    method StepLeft(key: Id, ghost s: set<Node>, ghost v: View, node: Node, left: Node, right: Node)
      returns (stop: bool, last: Node, ghost w: View)
      requires v.cur.Br? && node in s && Linked(Snap(s), v, root, node, left, right)
      requires IdCmp(key, root.key) < 0
      modifies this`root, ViewNodes(v), node
      ensures w.cur.Br? && Linked(Snap(s), w, root, node, left, last) && ViewNodes(w) == ViewNodes(v)
      ensures SplayLoop(w, key) == SplayLoop(v, key)
      ensures if stop then SplayLoop(w, key) == w else w.cur < v.cur
    {
      w, last := v, right;
      var tmp := root.left;
      assert Rep(Snap(s), tmp, v.cur.l);
      if tmp == null { return true, last, w; }
      if IdCmp(key, tmp.key) < 0 {
        RotationsApart(v, node);
        RotateRight(this, tmp, s, w, node, left, right);
        w := RotatedRight(w);
        assert Rep(Snap(s), root.left, w.cur.l);
        if root.left == null { return true, last, w; }
      }
      LinksApart(w, node);
      last := LinkLeft(this, s, w, node, left, right);
      stop, w := false, LinkedLeft(w);
    }

    /** The loop body of SPLAY for an id above the root's. */
    method StepRight(key: Id, ghost s: set<Node>, ghost v: View, node: Node, left: Node, right: Node)
      returns (stop: bool, last: Node, ghost w: View)
      requires v.cur.Br? && node in s && Linked(Snap(s), v, root, node, left, right)
      requires IdCmp(key, root.key) > 0
      modifies this`root, ViewNodes(v), node
      ensures w.cur.Br? && Linked(Snap(s), w, root, node, last, right) && ViewNodes(w) == ViewNodes(v)
      ensures SplayLoop(w, key) == SplayLoop(v, key)
      ensures if stop then SplayLoop(w, key) == w else w.cur < v.cur
    {
      w, last := v, left;
      var tmp := root.right;
      assert Rep(Snap(s), tmp, v.cur.r);
      if tmp == null { return true, last, w; }
      if IdCmp(key, tmp.key) > 0 {
        RotationsApart(v, node);
        RotateLeft(this, tmp, s, w, node, left, right);
        w := RotatedLeft(w);
        assert Rep(Snap(s), root.right, w.cur.r);
        if root.right == null { return true, last, w; }
      }
      LinksApart(w, node);
      last := LinkRight(this, s, w, node, left, right);
      stop, w := false, LinkedRight(w);
    }

    /** The stack dummy joins the heap and both spines start at it. */
    method Begin(key: Id) returns (node: Node, ghost s: set<Node>)
      requires Valid()
      ensures fresh(node) && s == nodes + {node}
      ensures Linked(Snap(s), View(Bottom, shape, Bottom), root, node, node, node)
    {
      node := new Node(key);
      s := nodes + {node};
      RepFrame(Snap(nodes), Snap(s), root, shape);
    }

    /** The three trees become one again. */
    method Finish(node: Node, ghost s: set<Node>, ghost v: View, left: Node, right: Node)
      requires v.cur.Br? && node in s && nodes <= s && ViewNodes(v) == nodes
      requires Linked(Snap(s), v, root, node, left, right)
      modifies this`shape, nodes, node
      ensures Valid() && shape == Assembled(v)
    {
      Assemble(this, node, s, v, left, right);
      shape := Assembled(v);
      RepFrame(Snap(s), Snap(nodes), root, shape);
    }

    /** SPLAY: only the id of the element looked for is read. */
    method Splay(key: Id)
      requires Valid() && root != null
      modifies this, nodes
      ensures Valid() && nodes == old(nodes)
      ensures old(shape).Br? && shape == Splayed(old(shape), key)
    {
      var node, s := Begin(key);
      var left, right, stop := node, node, false;
      ghost var v := View(Bottom, shape, Bottom);
      while IdCmp(key, root.key) != 0 && !stop
        invariant v.cur.Br? && Linked(Snap(s), v, root, node, left, right)
        invariant ViewNodes(v) == nodes == old(nodes) && shape == old(shape) && fresh(node)
        invariant SplayLoop(v, key) == SplayLoop(View(Bottom, shape, Bottom), key)
        invariant stop ==> SplayLoop(v, key) == v
        decreases !stop, v.cur
      {
        if IdCmp(key, root.key) < 0 {
          stop, right, v := StepLeft(key, s, v, node, left, right);
        } else {
          stop, left, v := StepRight(key, s, v, node, left, right);
        }
      }
      Finish(node, s, v, left, right);
    }

    /** The loop body of SPLAY_MINMAX. */
    method MinMaxStep(comp: int, ghost s: set<Node>, ghost v: View, node: Node, left: Node, right: Node)
      returns (stop: bool, left': Node, right': Node, ghost w: View)
      requires comp != 0
      requires v.cur.Br? && node in s && Linked(Snap(s), v, root, node, left, right)
      modifies this`root, ViewNodes(v), node
      ensures w.cur.Br? && Linked(Snap(s), w, root, node, left', right') && ViewNodes(w) == ViewNodes(v)
      ensures MinMaxLoop(w, comp) == MinMaxLoop(v, comp)
      ensures if stop then MinMaxLoop(w, comp) == w else w.cur < v.cur
    {
      w, left', right', stop := v, left, right, true;
      RotationsApart(v, node);
      assert Rep(Snap(s), root.left, v.cur.l) && Rep(Snap(s), root.right, v.cur.r);
      if comp < 0 {
        var tmp := root.left;
        if tmp == null { return; }
        RotateRight(this, tmp, s, w, node, left, right);
        w := RotatedRight(w);
        assert Rep(Snap(s), root.left, w.cur.l);
        if root.left == null { return; }
        LinksApart(w, node);
        right' := LinkLeft(this, s, w, node, left, right);
        stop, w := false, LinkedLeft(w);
      } else {
        var tmp := root.right;
        if tmp == null { return; }
        RotateLeft(this, tmp, s, w, node, left, right);
        w := RotatedLeft(w);
        assert Rep(Snap(s), root.right, w.cur.r);
        if root.right == null { return; }
        LinksApart(w, node);
        left' := LinkRight(this, s, w, node, left, right);
        stop, w := false, LinkedRight(w);
      }
    }

    /** SPLAY_MINMAX. */
    method SplayMinMax(comp: int)
      requires Valid() && root != null && comp != 0
      modifies this, nodes
      ensures Valid() && nodes == old(nodes) && old(shape).Br? && shape == SplayedMinMax(old(shape), comp)
    {
      var node, s := Begin(root.key);
      var left, right, stop := node, node, false;
      ghost var v := View(Bottom, shape, Bottom);
      while !stop
        invariant v.cur.Br? && Linked(Snap(s), v, root, node, left, right)
        invariant ViewNodes(v) == nodes == old(nodes) && shape == old(shape) && fresh(node)
        invariant MinMaxLoop(v, comp) == MinMaxLoop(View(Bottom, shape, Bottom), comp)
        invariant stop ==> MinMaxLoop(v, comp) == v
        decreases !stop, v.cur
      {
        stop, left, right, v := MinMaxStep(comp, s, v, node, left, right);
      }
      Finish(node, s, v, left, right);
    }

    /** SPLAY_MIN for comp < 0 and SPLAY_MAX for comp > 0. */
    method MinMax(comp: int) returns (r: Node?)
      requires Valid() && comp != 0
      modifies this, nodes
      ensures Valid() && nodes == old(nodes) && Inorder(shape) == old(Inorder(shape))
      ensures r == null <==> nodes == {}
      ensures r != null && comp < 0 ==> Inorder(shape) != [] && r == Inorder(shape)[0]
      ensures r != null && comp > 0 ==> Inorder(shape) != [] && r == Inorder(shape)[|Inorder(shape)| - 1]
      ensures old(Ordered(Inorder(shape))) ==> Index() == old(Index()) && Extreme(Index(), r, comp < 0)
    {
      if root == null { return null; }
      EndsOf(shape);
      SplayedMinMaxFinds(shape, comp);
      SplayMinMax(comp);
      r := root;
    }

    /** SPLAY_FIND. */
    method Find(key: Id) returns (r: Node?)
      requires Valid()
      modifies this, nodes
      ensures Valid() && nodes == old(nodes)
      ensures if old(shape).Leaf? then r == null && shape == Leaf
              else shape == Splayed(old(shape), key) && r == if IdCmp(key, shape.n.key) == 0 then shape.n else null
      ensures old(Fits({key})) ==> Ordered(Inorder(shape)) && Index() == old(Index()) && r == AtEntry(Index(), key)
    {
      if Fits({key}) { StepRefines(shape, Op.Find(key)); }
      if root == null { return null; }
      Splay(key);
      r := if IdCmp(key, root.key) == 0 then root else null;
    }

    /** SPLAY_INSERT below the splay: `elm` becomes the root. */
    method InsertAtRoot(elm: Node)
      requires Valid() && root != null && elm !in nodes && IdCmp(elm.key, root.key) != 0
      modifies this, root, elm
      ensures Valid() && nodes == old(nodes) + {elm}
      ensures old(shape).Br? && shape == AtRoot(old(shape), elm)
    {
      ghost var m, n := Snap(nodes), root;
      InsertMap(m, shape, elm);
      if IdCmp(elm.key, root.key) < 0 {
        elm.left := root.left;
        elm.right := root;
        root.left := null;
      } else {
        elm.right := root.right;
        elm.left := root;
        root.right := null;
      }
      root := elm;
      shape, nodes := AtRoot(shape, elm), nodes + {elm};
      assert Snap(nodes) == if IdCmp(elm.key, n.key) < 0
                            then m[elm := Cell(m[n].left, n)][n := m[n].(left := null)]
                            else m[elm := Cell(n, m[n].right)][n := m[n].(right := null)];
    }

    /** SPLAY_INSERT: the equal element already present, or null. */
    method Insert(elm: Node) returns (r: Node?)
      requires Valid() && (elm in nodes ==> Fits({elm.key}))
      modifies this, nodes, elm
      ensures Valid() && shape == Inserted(old(shape), elm)
      ensures nodes == if r == null then old(nodes) + {elm} else old(nodes)
      ensures r == if shape.n == elm && elm !in old(nodes) then null else shape.n
      ensures old(Fits({elm.key})) ==>
                && Ordered(Inorder(shape)) && Index() == MapApply(old(Index()), Op.Insert(elm))
                && r == AtEntry(old(Index()), elm.key)
    {
      if Fits({elm.key}) {
        StepRefines(shape, Op.Insert(elm));
        if elm in nodes { MemberFound(shape, elm); }
      }
      if root == null {
        elm.left, elm.right := null, null;
        root := elm;
        shape, nodes := Br(Leaf, elm, Leaf), {elm};
      } else {
        Splay(elm.key);
        if IdCmp(elm.key, root.key) == 0 { return root; }
        InsertAtRoot(elm);
      }
      r := null;
    }

    /** The root's right side is overwritten by the tree `r`, kept apart so far. */
    method ReplaceRight(tmp: Node?, ghost r: Tree)
      requires Valid() && shape.Br? && Distinct(r) && Nodes(r) !! nodes && Rep(Snap(Nodes(r)), tmp, r)
      modifies this, root
      ensures Valid() && nodes <= old(nodes) + Nodes(r)
      ensures shape == Br(old(shape).l, old(shape).n, r)
    {
      ghost var m1, m2, u := Snap(nodes), Snap(Nodes(r)), shape;
      root.right := tmp;
      shape := Br(u.l, u.n, r);
      nodes := Nodes(shape);
      RepFrame(m1, Snap(nodes), root.left, u.l);
      RepFrame(m2, Snap(nodes), tmp, r);
    }

    /** SPLAY_REMOVE's second splay and relinking, on a nonempty left subtree. */
    method JoinBelow(key: Id)
      requires Valid() && shape.Br? && shape.l.Br?
      modifies this, nodes
      ensures Valid() && nodes < old(nodes)
      ensures var t := old(shape); var u := Splayed(t.l, key); shape == Br(u.l, u.n, t.r)
    {
      ghost var t, m := shape, Snap(nodes);
      assert Rep(m, root.left, t.l) && Rep(m, root.right, t.r);
      var tmp := root.right;
      root := root.left;
      shape, nodes := t.l, Nodes(t.l);
      RepFrame(m, Snap(nodes), root, t.l);
      Splay(key);
      RepFrame(m, Snap(Nodes(t.r)), tmp, t.r);
      ReplaceRight(tmp, t.r);
    }

    /** SPLAY_REMOVE once the element is at the root. */
    method DropRoot(key: Id)
      requires Valid() && shape.Br?
      modifies this, nodes
      ensures Valid() && nodes <= old(nodes)
      ensures var t := old(shape);
              shape == if t.l.Leaf? then t.r else var u := Splayed(t.l, key); Br(u.l, u.n, t.r)
    {
      assert Rep(Snap(nodes), root.left, shape.l) && Rep(Snap(nodes), root.right, shape.r);
      if root.left == null {
        RepFrame(Snap(nodes), Snap(Nodes(shape.r)), root.right, shape.r);
        root := root.right;
        shape, nodes := shape.r, Nodes(shape.r);
      } else {
        JoinBelow(key);
      }
    }

    /** SPLAY_REMOVE returns its argument when an equal element was removed. */
    method Remove(elm: Node) returns (r: Node?)
      requires Valid()
      modifies this, nodes
      ensures Valid() && nodes <= old(nodes) && shape == Removed(old(shape), elm.key)
      ensures var t := old(shape);
              r == if t.Br? && IdCmp(elm.key, Splayed(t, elm.key).n.key) == 0 then elm else null
      ensures old(Fits({elm.key})) ==>
                && Ordered(Inorder(shape)) && Index() == old(Index()) - {elm.key}
                && r == if elm.key in old(Index()) then elm else null
    {
      if Fits({elm.key}) { StepRefines(shape, Op.Remove(elm.key)); }
      if root == null { return null; }
      Splay(elm.key);
      if IdCmp(elm.key, root.key) != 0 { return null; }
      DropRoot(elm.key);
      r := elm;
    }

    /**
     * The drain loop of fcgi_error and config_purge: take the least element,
     * remove it, until none is left.
     */
    method Drain()
      requires Valid() && Ordered(Inorder(shape))
      modifies this, nodes
      ensures Valid() && shape == Leaf && root == null
    {
      var elm := MinMax(-1);
      while elm != null
        invariant Valid() && Ordered(Inorder(shape)) && nodes <= old(nodes)
        invariant elm == null <==> nodes == {}
        invariant elm != null ==> Inorder(shape) != [] && elm == Inorder(shape)[0]
        decreases |Inorder(shape)|
      {
        ghost var base: Id :| Sorted(base, Inorder(shape));
        DrainStep(base, shape);
        var _ := Remove(elm);
        elm := MinMax(-1);
      }
    }
  }
}
