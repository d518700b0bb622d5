/** The red-black tree on the heap: links and colours rewritten in place. */
module RedBlackTree {
  import opened RedBlackShape

  datatype Cell = Cell(left: Node?, right: Node?, parent: Node?, red: bool)
  type Heap = map<Node, Cell>

  ghost function Snap(s: set<Node>): Heap
    reads s
  {
    map n | n in s :: Cell(n.left, n.right, n.parent, n.red)
  }

  // ----------------------------------------------------- trees stored in a heap

  ghost function Nodes(t: Tree): (s: set<Node>)
    ensures t.Br? ==> t.n in s
  {
    if t.Leaf? then {} else Nodes(t.l) + {t.n} + Nodes(t.r)
  }

  ghost function PathNodes(p: Path): (s: set<Node>)
    ensures !p.Top? ==> p.n in s
  {
    match p
    case Top => {}
    case InLeft(_, n, r, up) => {n} + Nodes(r) + PathNodes(up)
    case InRight(_, l, n, up) => {n} + Nodes(l) + PathNodes(up)
  }

  ghost predicate Distinct(t: Tree) {
    t.Br? ==>
      && t.n !in Nodes(t.l) && t.n !in Nodes(t.r) && Nodes(t.l) !! Nodes(t.r)
      && Distinct(t.l) && Distinct(t.r)
  }

  ghost function Sibling(p: Path): Tree
    requires !p.Top?
  {
    if p.InLeft? then p.r else p.l
  }

  ghost predicate PathDistinct(p: Path) {
    !p.Top? ==>
      && p.n !in Nodes(Sibling(p)) && p.n !in PathNodes(p.up) && Nodes(Sibling(p)) !! PathNodes(p.up)
      && Distinct(Sibling(p)) && PathDistinct(p.up)
  }

  ghost function ParentOf(p: Path): Node? {
    if p.Top? then null else p.n
  }

  /** `x` is the root of a tree shaped and coloured like `t`, hanging below `par`. */
  ghost predicate Rep(m: Heap, x: Node?, t: Tree, par: Node?)
    ensures Rep(m, x, t, par) ==> x == NodeOf(t)
  {
    match t
    case Leaf => x == null
    case Br(red, l, n, r) =>
      && x == n && n in m && m[n].red == red && m[n].parent == par
      && Rep(m, m[n].left, l, n) && Rep(m, m[n].right, r, n)
  }

  /** Everything outside the hole of `p`, with `x` hanging in the hole. */
  ghost predicate RepPath(m: Heap, root: Node?, p: Path, x: Node?) {
    match p
    case Top => root == x
    case InLeft(red, n, r, up) =>
      && n in m && m[n].left == x && m[n].red == red && m[n].parent == ParentOf(up)
      && Rep(m, m[n].right, r, n) && RepPath(m, root, up, n)
    case InRight(red, l, n, up) =>
      && n in m && m[n].right == x && m[n].red == red && m[n].parent == ParentOf(up)
      && Rep(m, m[n].left, l, n) && RepPath(m, root, up, n)
  }

  ghost predicate Apart(p: Path, t: Tree) {
    PathDistinct(p) && Distinct(t) && PathNodes(p) !! Nodes(t)
  }

  /** A stored tree, seen from one of its subtrees. */
  ghost predicate At(m: Heap, root: Node?, p: Path, t: Tree) {
    Apart(p, t) && RepPath(m, root, p, NodeOf(t)) && Rep(m, NodeOf(t), t, ParentOf(p))
  }

  ghost predicate Stored(m: Heap, root: Node?, t: Tree) {
    Distinct(t) && Rep(m, root, t, null)
  }

  /** Looking at a stored tree from any of its subtrees gives the same facts. */
  lemma {:induction false} Focus(m: Heap, root: Node?, p: Path, t: Tree)
    ensures Stored(m, root, Plug(p, t)) <==> At(m, root, p, t)
    ensures Nodes(Plug(p, t)) == PathNodes(p) + Nodes(t)
  {
    match p
    case Top =>
    case InLeft(red, n, r, up) => Focus(m, root, up, Br(red, t, n, r));
    case InRight(red, l, n, up) => Focus(m, root, up, Br(red, l, n, t));
  }

  // ------------------------------------------------------------------- framing

  lemma {:induction false} RepFrame(m: Heap, m': Heap, x: Node?, t: Tree, par: Node?)
    requires Rep(m, x, t, par)
    requires forall n :: n in Nodes(t) && n in m ==> n in m' && m'[n] == m[n]
    ensures Rep(m', x, t, par)
  {
    if t.Br? {
      RepFrame(m, m', m[t.n].left, t.l, t.n);
      RepFrame(m, m', m[t.n].right, t.r, t.n);
    }
  }

  /** A subtree that only gets a new parent. */
  lemma {:induction false} Reparent(m: Heap, m': Heap, x: Node?, t: Tree, par: Node?, par': Node?)
    requires Rep(m, x, t, par) && Distinct(t)
    requires t.Br? ==> t.n in m' && m'[t.n] == m[t.n].(parent := par')
    requires forall n :: n in Nodes(t) && n in m && n != x ==> n in m' && m'[n] == m[n]
    ensures Rep(m', x, t, par')
  {
    if t.Br? {
      RepFrame(m, m', m[t.n].left, t.l, t.n);
      RepFrame(m, m', m[t.n].right, t.r, t.n);
    }
  }

  /** The heap after the pointer in the hole of `p` has been set to `x`. */
  ghost function SetHole(m: Heap, p: Path, x: Node?): Heap
    requires p.Top? || p.n in m
  {
    match p
    case Top => m
    case InLeft(_, n, _, _) => m[n := m[n].(left := x)]
    case InRight(_, _, n, _) => m[n := m[n].(right := x)]
  }

  ghost function RootAfter(root: Node?, p: Path, x: Node?): Node? {
    if p.Top? then x else root
  }

  lemma {:induction false} PathFrame(m: Heap, m': Heap, root: Node?, p: Path, x: Node?)
    requires RepPath(m, root, p, x)
    requires forall n :: n in PathNodes(p) && n in m ==> n in m' && m'[n] == m[n]
    ensures RepPath(m', root, p, x)
  {
    if !p.Top? {
      RepFrame(m, m', NodeOf(Sibling(p)), Sibling(p), p.n);
      PathFrame(m, m', root, p.up, p.n);
    }
  }

  lemma {:induction false} HoleSet(m: Heap, m': Heap, root: Node?, p: Path, x: Node?, x': Node?)
    requires PathDistinct(p) && RepPath(m, root, p, x)
    requires forall n :: n in PathNodes(p) && n in m ==> n in m' && m'[n] == SetHole(m, p, x')[n]
    ensures RepPath(m', RootAfter(root, p, x'), p, x')
  {
    if !p.Top? {
      RepFrame(m, m', NodeOf(Sibling(p)), Sibling(p), p.n);
      PathFrame(m, m', root, p.up, p.n);
    }
  }

  // ---------------------------------------------------- the macros, on the map

  lemma {:induction false} RecolorMap(m: Heap, root: Node?, p: Path, t: Tree, red: bool)
    requires At(m, root, p, t) && t.Br?
    ensures At(m[t.n := m[t.n].(red := red)], root, p, t.(red := red))
  {
    var m' := m[t.n := m[t.n].(red := red)];
    RepFrame(m, m', m[t.n].left, t.l, t.n);
    RepFrame(m, m', m[t.n].right, t.r, t.n);
    PathFrame(m, m', root, p, t.n);
  }

  lemma {:induction false} RecolorStored(m: Heap, root: Node?, p: Path, t: Tree, red: bool)
    requires Stored(m, root, Plug(p, t)) && t.Br?
    ensures t.n in m && Stored(m[t.n := m[t.n].(red := red)], root, Plug(p, t.(red := red)))
    ensures Nodes(Plug(p, t.(red := red))) == Nodes(Plug(p, t))
  {
    Focus(m, root, p, t);
    RecolorMap(m, root, p, t, red);
    Focus(m[t.n := m[t.n].(red := red)], root, p, t.(red := red));
  }

  ghost function RotatedLeft(t: Tree): Tree
    requires t.Br? && t.r.Br?
  {
    Br(t.r.red, Br(t.red, t.l, t.n, t.r.l), t.r.n, t.r.r)
  }

  ghost function RotatedRight(t: Tree): Tree
    requires t.Br? && t.l.Br?
  {
    Br(t.l.red, t.l.l, t.l.n, Br(t.red, t.l.r, t.n, t.r))
  }

  lemma RotationsApart(p: Path, t: Tree)
    requires Apart(p, t) && t.Br?
    ensures t.r.Br? ==> Apart(p, RotatedLeft(t)) && Nodes(RotatedLeft(t)) == Nodes(t)
    ensures t.l.Br? ==> Apart(p, RotatedRight(t)) && Nodes(RotatedRight(t)) == Nodes(t)
  {
    assert Distinct(t.l) && Distinct(t.r);
    if t.r.Br? {
      assert Nodes(t.r) == Nodes(t.r.l) + {t.r.n} + Nodes(t.r.r);
      assert Nodes(Br(t.red, t.l, t.n, t.r.l)) == Nodes(t.l) + {t.n} + Nodes(t.r.l);
    }
    if t.l.Br? {
      assert Nodes(t.l) == Nodes(t.l.l) + {t.l.n} + Nodes(t.l.r);
      assert Nodes(Br(t.red, t.l.r, t.n, t.r)) == Nodes(t.l.r) + {t.n} + Nodes(t.r);
    }
  }

  /** The writes of RB_ROTATE_LEFT. */
  ghost predicate LeftRotation(m: Heap, m': Heap, p: Path, t: Tree)
    requires t.Br? && t.r.Br?
  {
    var x, y, b := t.n, t.r.n, t.r.l;
    && m'.Keys == m.Keys && x in m && y in m && (p.Top? || p.n in m) && (b.Leaf? || b.n in m)
    && m'[x] == Cell(m[x].left, NodeOf(b), y, m[x].red)
    && m'[y] == Cell(x, m[y].right, ParentOf(p), m[y].red)
    && (b.Br? ==> m'[b.n] == m[b.n].(parent := x))
    && forall n :: n in m && n != x && n != y && n != NodeOf(b) ==> m'[n] == SetHole(m, p, y)[n]
  }

  /** The subtree's own part in a left rotation. */
  lemma {:induction false} RotateLeftRep(m: Heap, m': Heap, t: Tree, par: Node?)
    requires t.Br? && t.r.Br? && Distinct(t) && Rep(m, t.n, t, par)
    requires t.n in m' && t.r.n in m && t.r.n in m'
    requires m'[t.n] == Cell(m[t.n].left, NodeOf(t.r.l), t.r.n, m[t.n].red)
    requires m'[t.r.n] == Cell(t.n, m[t.r.n].right, par, m[t.r.n].red)
    requires t.r.l.Br? ==> t.r.l.n in m && t.r.l.n in m' && m'[t.r.l.n] == m[t.r.l.n].(parent := t.n)
    requires forall n :: n in Nodes(t) && n in m && n != t.n && n != t.r.n && n != NodeOf(t.r.l) ==>
               n in m' && m'[n] == m[n]
    ensures Rep(m', t.r.n, RotatedLeft(t), par)
  {
    var x, y := t.n, t.r.n;
    assert Rep(m, m[x].left, t.l, x) && Rep(m, m[x].right, t.r, x);
    assert Nodes(t.r) == Nodes(t.r.l) + {y} + Nodes(t.r.r) && Distinct(t.r);
    RepFrame(m, m', m[x].left, t.l, x);
    Reparent(m, m', m[y].left, t.r.l, y, x);
    RepFrame(m, m', m[y].right, t.r.r, y);
  }

  lemma {:induction false} RotateLeftMap(m: Heap, m': Heap, root: Node?, p: Path, t: Tree)
    requires At(m, root, p, t) && t.Br? && t.r.Br? && LeftRotation(m, m', p, t)
    ensures At(m', RootAfter(root, p, t.r.n), p, RotatedLeft(t))
  {
    RotationsApart(p, t);
    assert Nodes(t.r) == Nodes(t.r.l) + {t.r.n} + Nodes(t.r.r);
    RotateLeftRep(m, m', t, ParentOf(p));
    HoleSet(m, m', root, p, t.n, t.r.n);
  }

  /** The writes of RB_ROTATE_RIGHT. */
  ghost predicate RightRotation(m: Heap, m': Heap, p: Path, t: Tree)
    requires t.Br? && t.l.Br?
  {
    var x, y, b := t.n, t.l.n, t.l.r;
    && m'.Keys == m.Keys && x in m && y in m && (p.Top? || p.n in m) && (b.Leaf? || b.n in m)
    && m'[x] == Cell(NodeOf(b), m[x].right, y, m[x].red)
    && m'[y] == Cell(m[y].left, x, ParentOf(p), m[y].red)
    && (b.Br? ==> m'[b.n] == m[b.n].(parent := x))
    && forall n :: n in m && n != x && n != y && n != NodeOf(b) ==> m'[n] == SetHole(m, p, y)[n]
  }

  lemma {:induction false} RotateRightRep(m: Heap, m': Heap, t: Tree, par: Node?)
    requires t.Br? && t.l.Br? && Distinct(t) && Rep(m, t.n, t, par)
    requires t.n in m' && t.l.n in m && t.l.n in m'
    requires m'[t.n] == Cell(NodeOf(t.l.r), m[t.n].right, t.l.n, m[t.n].red)
    requires m'[t.l.n] == Cell(m[t.l.n].left, t.n, par, m[t.l.n].red)
    requires t.l.r.Br? ==> t.l.r.n in m && t.l.r.n in m' && m'[t.l.r.n] == m[t.l.r.n].(parent := t.n)
    requires forall n :: n in Nodes(t) && n in m && n != t.n && n != t.l.n && n != NodeOf(t.l.r) ==>
               n in m' && m'[n] == m[n]
    ensures Rep(m', t.l.n, RotatedRight(t), par)
  {
    var x, y := t.n, t.l.n;
    assert Rep(m, m[x].left, t.l, x) && Rep(m, m[x].right, t.r, x);
    assert Nodes(t.l) == Nodes(t.l.l) + {y} + Nodes(t.l.r) && Distinct(t.l);
    RepFrame(m, m', m[x].right, t.r, x);
    Reparent(m, m', m[y].right, t.l.r, y, x);
    RepFrame(m, m', m[y].left, t.l.l, y);
  }

  lemma {:induction false} RotateRightMap(m: Heap, m': Heap, root: Node?, p: Path, t: Tree)
    requires At(m, root, p, t) && t.Br? && t.l.Br? && RightRotation(m, m', p, t)
    ensures At(m', RootAfter(root, p, t.l.n), p, RotatedRight(t))
  {
    RotationsApart(p, t);
    assert Nodes(t.l) == Nodes(t.l.l) + {t.l.n} + Nodes(t.l.r);
    RotateRightRep(m, m', t, ParentOf(p));
    HoleSet(m, m', root, p, t.n, t.l.n);
  }

  /** The pointer in the hole of `p` leads to `x`, and no other pointer of that node does. */
  ghost predicate Hangs(m: Heap, p: Path, x: Node?) {
    match p
    case Top => true
    case InLeft(_, n, _, _) => n in m && m[n].left == x
    case InRight(_, _, n, _) => n in m && m[n].right == x && (x != null ==> m[n].left != x)
  }

  lemma AtHangs(m: Heap, root: Node?, p: Path, t: Tree)
    requires At(m, root, p, t)
    ensures Hangs(m, p, NodeOf(t))
    ensures p.Top? ==> root == NodeOf(t)
    ensures t.Br? ==> t.n in m && m[t.n] == Cell(NodeOf(t.l), NodeOf(t.r), ParentOf(p), t.red)
    ensures !p.Top? ==> p.n !in Nodes(t) && m[p.n].parent == ParentOf(p.up) && m[p.n].red == p.red
  {
  }

  /** What a left rotation relies on. */
  lemma {:induction false} LeftReady(m: Heap, root: Node?, p: Path, t: Tree)
    requires Stored(m, root, Plug(p, t)) && t.Br? && t.r.Br?
    ensures t.n in m && t.r.n in m && m[t.n].right == t.r.n && t.n != t.r.n && m[t.n].parent == ParentOf(p)
    ensures m[t.r.n].left == NodeOf(t.r.l) && (t.r.l.Br? ==> t.r.l.n in m && t.r.l.n !in {t.n, t.r.n})
    ensures Hangs(m, p, t.n) && (!p.Top? ==> p.n !in {t.n, t.r.n} && p.n != NodeOf(t.r.l))
  {
    var q := InRight(t.red, t.l, t.n, p);
    Focus(m, root, p, t);
    AtHangs(m, root, p, t);
    Focus(m, root, q, t.r);
    AtHangs(m, root, q, t.r);
    Focus(m, root, InLeft(t.r.red, t.r.n, t.r.r, q), t.r.l);
    AtHangs(m, root, InLeft(t.r.red, t.r.n, t.r.r, q), t.r.l);
    assert Nodes(t.r) == Nodes(t.r.l) + {t.r.n} + Nodes(t.r.r) && Distinct(t.r);
  }

  lemma {:induction false} LeftStored(m: Heap, m': Heap, root: Node?, p: Path, t: Tree)
    requires Stored(m, root, Plug(p, t)) && t.Br? && t.r.Br? && LeftRotation(m, m', p, t)
    ensures Stored(m', RootAfter(root, p, t.r.n), Plug(p, RotatedLeft(t)))
    ensures Nodes(Plug(p, RotatedLeft(t))) == Nodes(Plug(p, t))
  {
    Focus(m, root, p, t);
    RotateLeftMap(m, m', root, p, t);
    RotationsApart(p, t);
    Focus(m', RootAfter(root, p, t.r.n), p, RotatedLeft(t));
  }

  /** What a right rotation relies on. */
  lemma {:induction false} RightReady(m: Heap, root: Node?, p: Path, t: Tree)
    requires Stored(m, root, Plug(p, t)) && t.Br? && t.l.Br?
    ensures t.n in m && t.l.n in m && m[t.n].left == t.l.n && t.n != t.l.n && m[t.n].parent == ParentOf(p)
    ensures m[t.l.n].right == NodeOf(t.l.r) && (t.l.r.Br? ==> t.l.r.n in m && t.l.r.n !in {t.n, t.l.n})
    ensures Hangs(m, p, t.n) && (!p.Top? ==> p.n !in {t.n, t.l.n} && p.n != NodeOf(t.l.r))
  {
    var q := InLeft(t.red, t.n, t.r, p);
    Focus(m, root, p, t);
    AtHangs(m, root, p, t);
    Focus(m, root, q, t.l);
    AtHangs(m, root, q, t.l);
    Focus(m, root, InRight(t.l.red, t.l.l, t.l.n, q), t.l.r);
    AtHangs(m, root, InRight(t.l.red, t.l.l, t.l.n, q), t.l.r);
    assert Nodes(t.l) == Nodes(t.l.r) + {t.l.n} + Nodes(t.l.l) && Distinct(t.l);
  }

  lemma {:induction false} RightStored(m: Heap, m': Heap, root: Node?, p: Path, t: Tree)
    requires Stored(m, root, Plug(p, t)) && t.Br? && t.l.Br? && RightRotation(m, m', p, t)
    ensures Stored(m', RootAfter(root, p, t.l.n), Plug(p, RotatedRight(t)))
    ensures Nodes(Plug(p, RotatedRight(t))) == Nodes(Plug(p, t))
  {
    Focus(m, root, p, t);
    RotateRightMap(m, m', root, p, t);
    RotationsApart(p, t);
    Focus(m', RootAfter(root, p, t.l.n), p, RotatedRight(t));
  }

  /** Linking a new red node into an empty place. */
  lemma {:induction false} LinkMap(m: Heap, m': Heap, root: Node?, p: Path, e: Node)
    requires At(m, root, p, Leaf) && e !in PathNodes(p) && (p.Top? || p.n in m)
    requires e in m' && m'[e] == Cell(null, null, ParentOf(p), true)
    requires forall n :: n in m && n != e ==> n in m' && m'[n] == SetHole(m, p, e)[n]
    ensures At(m', RootAfter(root, p, e), p, Br(true, Leaf, e, Leaf))
  {
    HoleSet(m, m', root, p, null, e);
  }

  lemma {:induction false} LinkStored(m: Heap, m': Heap, root: Node?, p: Path, e: Node)
    requires Stored(m, root, Plug(p, Leaf)) && e !in Nodes(Plug(p, Leaf))
    requires p.Top? || p.n in m
    requires e in m' && m'[e] == Cell(null, null, ParentOf(p), true)
    requires forall n :: n in m && n != e ==> n in m' && m'[n] == SetHole(m, p, e)[n]
    ensures Stored(m', RootAfter(root, p, e), Plug(p, Br(true, Leaf, e, Leaf)))
    ensures Nodes(Plug(p, Br(true, Leaf, e, Leaf))) == Nodes(Plug(p, Leaf)) + {e}
  {
    Focus(m, root, p, Leaf);
    LinkMap(m, m', root, p, e);
    Focus(m', RootAfter(root, p, e), p, Br(true, Leaf, e, Leaf));
  }

  /** The writes by which `child` takes the place of `x`. */
  ghost predicate UnlinkWrites(m: Heap, m': Heap, p: Path, x: Node, child: Node?) {
    && (p.Top? || p.n in m)
    && (child != null ==> child in m && child in m' && m'[child] == m[child].(parent := ParentOf(p)))
    && forall n :: n in m && n != x && n != child ==> n in m' && m'[n] == SetHole(m, p, child)[n]
  }

  /** The writes by which `e` takes over place, colour and links of `x`. */
  ghost predicate ReplaceWrites(m: Heap, m': Heap, p: Path, x: Node, l: Node?, r: Node?, e: Node) {
    && (p.Top? || p.n in m)
    && x in m && e in m' && m'[e] == m[x]
    && (l != null ==> l in m && l in m' && m'[l] == m[l].(parent := e))
    && (r != null ==> r in m && r in m' && m'[r] == m[r].(parent := e))
    && forall n :: n in m && n !in {x, e} && n != l && n != r ==> n in m' && m'[n] == SetHole(m, p, e)[n]
  }

  /** A node with one child gives its place to that child. */
  lemma {:induction false} UnlinkStored(m: Heap, m': Heap, root: Node?, p: Path, t: Tree, c: Tree)
    requires Stored(m, root, Plug(p, t)) && t.Br?
    requires (t.l.Leaf? && c == t.r) || (t.r.Leaf? && c == t.l)
    requires UnlinkWrites(m, m', p, t.n, NodeOf(c))
    ensures Stored(m', RootAfter(root, p, NodeOf(c)), Plug(p, c))
    ensures Nodes(Plug(p, c)) == Nodes(Plug(p, t)) - {t.n}
  {
    Focus(m, root, p, t);
    assert Rep(m, m[t.n].left, t.l, t.n) && Rep(m, m[t.n].right, t.r, t.n);
    Reparent(m, m', NodeOf(c), c, t.n, ParentOf(p));
    HoleSet(m, m', root, p, t.n, NodeOf(c));
    Focus(m', RootAfter(root, p, NodeOf(c)), p, c);
  }

  /** Another node takes over the place, colour and links of the root of `t`. */
  lemma {:induction false} ReplaceMap(m: Heap, m': Heap, root: Node?, p: Path, t: Tree, e: Node)
    requires At(m, root, p, t) && t.Br? && e !in Nodes(t) && e !in PathNodes(p)
    requires ReplaceWrites(m, m', p, t.n, NodeOf(t.l), NodeOf(t.r), e)
    ensures At(m', RootAfter(root, p, e), p, t.(n := e))
  {
    Reparent(m, m', m[t.n].left, t.l, t.n, e);
    Reparent(m, m', m[t.n].right, t.r, t.n, e);
    HoleSet(m, m', root, p, t.n, e);
  }

  lemma {:induction false} ReplaceStored(m: Heap, m': Heap, root: Node?, p: Path, t: Tree, e: Node)
    requires Stored(m, root, Plug(p, t)) && t.Br? && e !in Nodes(Plug(p, t))
    requires ReplaceWrites(m, m', p, t.n, NodeOf(t.l), NodeOf(t.r), e)
    ensures Stored(m', RootAfter(root, p, e), Plug(p, t.(n := e)))
    ensures Nodes(Plug(p, t.(n := e))) == Nodes(Plug(p, t)) - {t.n} + {e}
  {
    Focus(m, root, p, t);
    ReplaceMap(m, m', root, p, t, e);
    Focus(m', RootAfter(root, p, e), p, t.(n := e));
  }

  /** The cells around the root of a subtree, and that they are different cells. */
  lemma {:induction false} Around(m: Heap, root: Node?, p: Path, t: Tree)
    requires Stored(m, root, Plug(p, t)) && t.Br?
    ensures Hangs(m, p, t.n) && t.n in m
    ensures m[t.n] == Cell(NodeOf(t.l), NodeOf(t.r), ParentOf(p), t.red)
    ensures !p.Top? ==> p.n != t.n && p.n != NodeOf(t.l) && p.n != NodeOf(t.r)
    ensures t.l.Br? ==> t.l.n in m && t.l.n != t.n && t.l.n != NodeOf(t.r)
    ensures t.r.Br? ==> t.r.n in m && t.r.n != t.n
  {
    Focus(m, root, p, t);
    AtHangs(m, root, p, t);
    assert Rep(m, m[t.n].left, t.l, t.n) && Rep(m, m[t.n].right, t.r, t.n);
    assert t.l.Br? ==> t.l.n in Nodes(t);
    assert t.r.Br? ==> t.r.n in Nodes(t);
  }

  lemma {:induction false} AroundOnlyChild(m: Heap, root: Node?, p: Path, t: Tree, c: Tree)
    requires Stored(m, root, Plug(p, t)) && t.Br?
    requires (t.l.Leaf? && c == t.r) || (t.r.Leaf? && c == t.l)
    ensures Hangs(m, p, t.n) && t.n in m && m[t.n].parent == ParentOf(p) && m[t.n].red == t.red
    ensures !p.Top? ==> p.n != t.n && p.n != NodeOf(c)
    ensures NodeOf(c) != t.n && (c.Br? ==> c.n in m)
  {
    Around(m, root, p, t);
  }

  /** Where the gap is once the successor `elm` of the root of `t` stands in its place. */
  lemma {:induction false} SuccessorPlace(p: Path, t: Tree, elm: Node)
    requires t.Br? && t.l.Br? && t.r.Br? && elm == MinZip(InRight(t.red, t.l, t.n, p), t.r).cur.n
    ensures var z, z' := MinZip(InRight(t.red, t.l, t.n, p), t.r), MinZip(InRight(t.red, t.l, elm, p), t.r);
            && z'.cur == z.cur && Plug(z'.path, z'.cur.r) == Plug(p, Br(t.red, t.l, elm, WithoutMin(t.r)))
            && Removed(p, t) == Unlinked(z'.path, z'.cur.red, z'.cur.r)
            && ParentOf(z'.path) == if t.r.l.Leaf? then elm else ParentOf(z.path)
  {
    var q, q' := InRight(t.red, t.l, t.n, p), InRight(t.red, t.l, elm, p);
    MinZipSame(q, q', t.r);
    MinZipSame(q, Top, t.r);
    MinZipPlug(q', t.r);
    MinZipParent(q, q', t.r);
    MinZipParent(q', q, t.r);
  }

  lemma {:induction false} NodesInorder(t: Tree, n: Node)
    ensures n in Nodes(t) <==> n in Inorder(t)
  {
    if t.Br? {
      NodesInorder(t.l, n);
      NodesInorder(t.r, n);
    }
  }

  /** Below the top, the root is a node of the path. */
  lemma {:induction false} RootOnPath(m: Heap, root: Node?, p: Path, x: Node?)
    requires RepPath(m, root, p, x) && !p.Top?
    ensures root != null && root in PathNodes(p)
  {
    if !p.up.Top? { RootOnPath(m, root, p.up, p.n); }
  }

  // ------------------------------------------------------------- the operations

  class Head {
    var root: Node?
    ghost var shape: Tree
    ghost var nodes: set<Node>

    /** `root` points at a heap tree shaped like `shape`, made of `nodes`. */
    ghost predicate Valid()
      reads this, nodes
    {
      nodes == Nodes(shape) && Stored(Snap(nodes), root, shape)
    }

    /** RB_INIT. */
    constructor ()
      ensures Valid() && shape == Leaf
    {
      root := null;
      shape, nodes := Leaf, {};
    }

    /** What the pointers around a subtree of the tree are. */
    lemma Look(p: Path, t: Tree)
      requires Valid() && shape == Plug(p, t)
      ensures p.Top? ==> root == NodeOf(t)
      ensures t.Br? ==>
                && t.n in nodes && t.n.left == NodeOf(t.l) && t.n.right == NodeOf(t.r)
                && t.n.parent == ParentOf(p) && t.n.red == t.red
      ensures !p.Top? ==> p.n in nodes && p.n.red == p.red && p.n.parent == ParentOf(p.up)
      ensures p.InLeft? ==> p.n.left == NodeOf(t) && p.n.right == NodeOf(p.r)
      ensures p.InRight? ==> p.n.right == NodeOf(t) && p.n.left == NodeOf(p.l)
      ensures p.InRight? && t.Br? ==> p.n.left != t.n
      ensures p.InLeft? && t.Br? ==> p.n.right != t.n
      ensures !p.Top? && p.up.Top? ==> root == p.n
      ensures !p.Top? ==> root != null && root != NodeOf(t)
    {
      Focus(Snap(nodes), root, p, t);
      if !p.Top? { RootOnPath(Snap(nodes), root, p, NodeOf(t)); }
      AtHangs(Snap(nodes), root, p, t);
      if p.InLeft? {
        Focus(Snap(nodes), root, p.up, Br(p.red, t, p.n, p.r));
        AtHangs(Snap(nodes), root, p.up, Br(p.red, t, p.n, p.r));
      } else if p.InRight? {
        Focus(Snap(nodes), root, p.up, Br(p.red, p.l, p.n, t));
        AtHangs(Snap(nodes), root, p.up, Br(p.red, p.l, p.n, t));
      }
    }

    /** Writing RB_COLOR of the node at the root of `t`. */
    method SetColor(n: Node, red: bool, ghost p: Path, ghost t: Tree)
      requires Valid() && shape == Plug(p, t) && t.Br? && n == t.n
      modifies this`shape, nodes
      ensures Valid() && shape == Plug(p, t.(red := red))
    {
      ghost var m := Snap(nodes);
      RecolorStored(m, root, p, t, red);
      n.red := red;
      ghost var m' := Snap(nodes);
      assert m' == m[n := m[n].(red := red)];
      shape := Plug(p, t.(red := red));
      assert Snap(nodes) == m';
    }

    /**
     * The branch of the macros that replaces the child `was` of `parent`, or
     * the root, by `now`.
     */
    method Relink(parent: Node?, was: Node, now: Node?, ghost p: Path)
      requires parent == ParentOf(p)
      requires p.InLeft? ==> parent.left == was
      requires p.InRight? ==> parent.right == was && parent.left != was
      modifies this`root, parent
      ensures parent != null ==> parent.parent == old(parent.parent) && parent.red == old(parent.red)
      ensures root == RootAfter(old(root), p, now)
      ensures p.InLeft? ==> parent.left == now && parent.right == old(parent.right)
      ensures p.InRight? ==> parent.right == now && parent.left == old(parent.left)
    {
      if parent != null {
        if parent.left == was {
          parent.left := now;
        } else {
          parent.right := now;
        }
      } else {
        root := now;
      }
    }

    method RotateLeftLinks(elm: Node, ghost tmp: Node, ghost b: Node?, ghost p: Path)
      requires elm.right == tmp && tmp.left == b && elm.parent == ParentOf(p)
      requires elm != tmp && b != elm && b != tmp && (!p.Top? ==> p.n != elm && p.n != tmp && p.n != b)
      requires p.InLeft? ==> p.n.left == elm
      requires p.InRight? ==> p.n.right == elm && p.n.left != elm
      modifies this`root, elm, tmp, b, elm.parent
      ensures elm.left == old(elm.left) && elm.right == b && elm.parent == tmp && elm.red == old(elm.red)
      ensures tmp.left == elm && tmp.right == old(tmp.right) && tmp.parent == ParentOf(p) && tmp.red == old(tmp.red)
      ensures b != null ==> b.parent == elm && b.left == old(b.left) && b.right == old(b.right) && b.red == old(b.red)
      ensures !p.Top? ==> p.n.parent == old(p.n.parent) && p.n.red == old(p.n.red)
      ensures p.InLeft? ==> p.n.left == tmp && p.n.right == old(p.n.right)
      ensures p.InRight? ==> p.n.right == tmp && p.n.left == old(p.n.left)
      ensures root == RootAfter(old(root), p, tmp)
    {
      var tmp := elm.right;
      elm.right := tmp.left;
      if tmp.left != null {
        tmp.left.parent := elm;
      }
      tmp.parent := elm.parent;
      Relink(elm.parent, elm, tmp, p);
      tmp.left := elm;
      elm.parent := tmp;
    }

    method RotateLeftCells(elm: Node, ghost p: Path, ghost t: Tree, ghost s: set<Node>)
      requires t.Br? && t.r.Br? && elm == t.n && elm in s && t.r.n in s && elm.right == t.r.n && t.n != t.r.n
      requires t.r.n.left == NodeOf(t.r.l) && (t.r.l.Br? ==> t.r.l.n in s && t.r.l.n !in {t.n, t.r.n})
      requires elm.parent == ParentOf(p) && Hangs(Snap(s), p, elm)
      requires !p.Top? ==> p.n !in {t.n, t.r.n} && p.n != NodeOf(t.r.l)
      modifies this`root, s
      ensures LeftRotation(old(Snap(s)), Snap(s), p, t) && root == RootAfter(old(root), p, t.r.n)
    {
      RotateLeftLinks(elm, t.r.n, NodeOf(t.r.l), p);
    }

    /** RB_ROTATE_LEFT. */
    method RotateLeft(elm: Node, ghost p: Path, ghost t: Tree)
      requires Valid() && shape == Plug(p, t) && t.Br? && t.r.Br? && elm == t.n
      modifies this`root, this`shape, nodes
      ensures Valid() && shape == Plug(p, RotatedLeft(t))
    {
      ghost var m, r := Snap(nodes), root;
      LeftReady(m, root, p, t);
      RotateLeftCells(elm, p, t, nodes);
      LeftStored(m, Snap(nodes), r, p, t);
      shape := Plug(p, RotatedLeft(t));
    }

    method RotateRightLinks(elm: Node, ghost tmp: Node, ghost b: Node?, ghost p: Path)
      requires elm.left == tmp && tmp.right == b && elm.parent == ParentOf(p)
      requires elm != tmp && b != elm && b != tmp && (!p.Top? ==> p.n != elm && p.n != tmp && p.n != b)
      requires p.InLeft? ==> p.n.left == elm
      requires p.InRight? ==> p.n.right == elm && p.n.left != elm
      modifies this`root, elm, tmp, b, elm.parent
      ensures elm.right == old(elm.right) && elm.left == b && elm.parent == tmp && elm.red == old(elm.red)
      ensures tmp.right == elm && tmp.left == old(tmp.left) && tmp.parent == ParentOf(p) && tmp.red == old(tmp.red)
      ensures b != null ==> b.parent == elm && b.right == old(b.right) && b.left == old(b.left) && b.red == old(b.red)
      ensures !p.Top? ==> p.n.parent == old(p.n.parent) && p.n.red == old(p.n.red)
      ensures p.InLeft? ==> p.n.left == tmp && p.n.right == old(p.n.right)
      ensures p.InRight? ==> p.n.right == tmp && p.n.left == old(p.n.left)
      ensures root == RootAfter(old(root), p, tmp)
    {
      var tmp := elm.left;
      elm.left := tmp.right;
      if tmp.right != null {
        tmp.right.parent := elm;
      }
      tmp.parent := elm.parent;
      Relink(elm.parent, elm, tmp, p);
      tmp.right := elm;
      elm.parent := tmp;
    }

    method RotateRightCells(elm: Node, ghost p: Path, ghost t: Tree, ghost s: set<Node>)
      requires t.Br? && t.l.Br? && elm == t.n && elm in s && t.l.n in s && elm.left == t.l.n && t.n != t.l.n
      requires t.l.n.right == NodeOf(t.l.r) && (t.l.r.Br? ==> t.l.r.n in s && t.l.r.n !in {t.n, t.l.n})
      requires elm.parent == ParentOf(p) && Hangs(Snap(s), p, elm)
      requires !p.Top? ==> p.n !in {t.n, t.l.n} && p.n != NodeOf(t.l.r)
      modifies this`root, s
      ensures RightRotation(old(Snap(s)), Snap(s), p, t) && root == RootAfter(old(root), p, t.l.n)
    {
      RotateRightLinks(elm, t.l.n, NodeOf(t.l.r), p);
    }

    /** RB_ROTATE_RIGHT. */
    method RotateRight(elm: Node, ghost p: Path, ghost t: Tree)
      requires Valid() && shape == Plug(p, t) && t.Br? && t.l.Br? && elm == t.n
      modifies this`root, this`shape, nodes
      ensures Valid() && shape == Plug(p, RotatedRight(t))
    {
      ghost var m, r := Snap(nodes), root;
      RightReady(m, root, p, t);
      RotateRightCells(elm, p, t, nodes);
      RightStored(m, Snap(nodes), r, p, t);
      shape := Plug(p, RotatedRight(t));
    }

    // --------------------------------------------------------------- insertion

    /** RB_INSERT_COLOR with a red uncle, the parent being a left child. */
    method RecolorLeft(tmp: Node, parent: Node, gparent: Node, ghost g: Path, ghost x: Tree)
      requires Valid() && g.InLeft? && g.r.Br? && x.Br? && shape == Plug(g, x)
      requires tmp == g.r.n && parent == x.n && gparent == g.n
      modifies this`shape, nodes
      ensures Valid() && shape == Plug(g.up, Br(true, x.(red := false), g.n, Black(g.r)))
    {
      SetColor(tmp, false, InRight(g.red, x, g.n, g.up), g.r);
      SetColor(parent, false, InLeft(g.red, g.n, Black(g.r), g.up), x);
      SetColor(gparent, true, g.up, Br(g.red, x.(red := false), g.n, Black(g.r)));
    }

    /** RB_INSERT_COLOR's last rotation, the parent `x.n` being a left child. */
    method LiftLeft(parent: Node, gparent: Node, ghost g: Path, ghost x: Tree)
      requires Valid() && g.InLeft? && x.Br? && shape == Plug(g, x)
      requires parent == x.n && gparent == g.n
      modifies this`root, this`shape, nodes
      ensures Valid() && shape == Plug(g.up, Br(false, x.l, x.n, Br(true, x.r, g.n, g.r)))
    {
      SetColor(parent, false, g, x);
      SetColor(gparent, true, g.up, Br(g.red, x.(red := false), g.n, g.r));
      RotateRight(gparent, g.up, Br(true, x.(red := false), g.n, g.r));
    }

    /** RB_INSERT_COLOR without a red uncle, the parent being a left child. */
    method InsertLastLeft(elm: Node, parent: Node, gparent: Node, ghost p: Path, ghost t: Tree, ghost x: Tree)
      returns (elm': Node, ghost p': Path, ghost t': Tree)
      requires Valid() && shape == Plug(p, t) && IsRed(t) && RedPath(p) && p.up.InLeft? && !IsRed(p.up.r)
      requires elm == t.n && parent == p.n && gparent == p.up.n
      requires x == if p.InLeft? then Br(true, t, p.n, p.r) else Br(true, p.l, p.n, t)
      modifies this`root, this`shape, nodes
      ensures Valid() && shape == Plug(p', t') && IsRed(t') && elm' == t'.n
      ensures Plug(p', t') == InsertFix(p, t) && p'.InLeft? && !p'.red && p'.up == p.up.up
    {
      ghost var g := p.up;
      Look(p, t);
      if parent.right == elm {
        RotateLeft(parent, g, x);
        LiftLeft(elm, gparent, g, RotatedLeft(x));
        elm', p', t' := parent, InLeft(false, t.n, Br(true, t.r, g.n, g.r), g.up), Br(true, p.l, p.n, t.l);
      } else {
        LiftLeft(parent, gparent, g, x);
        elm', p', t' := elm, InLeft(false, p.n, Br(true, p.r, g.n, g.r), g.up), t;
      }
    }

    /** One turn of the RB_INSERT_COLOR loop, the parent being a left child. */
    method InsertTurnLeft(elm: Node, parent: Node, gparent: Node, ghost p: Path, ghost t: Tree)
      returns (elm': Node, ghost p': Path, ghost t': Tree)
      requires Valid() && shape == Plug(p, t) && IsRed(t) && RedPath(p) && p.up.InLeft?
      requires elm == t.n && parent == p.n && gparent == p.up.n && NoRedTop(p)
      modifies this`root, this`shape, nodes
      ensures Valid() && shape == Plug(p', t') && IsRed(t') && elm' == t'.n && NoRedTop(p')
      ensures InsertFix(p', t') == InsertFix(p, t) && Length(p') < Length(p)
    {
      ghost var g := p.up;
      ghost var x := if p.InLeft? then Br(true, t, p.n, p.r) else Br(true, p.l, p.n, t);
      assert NoRedTop(g) && NoRedTop(g.up);
      Look(g, x);
      Look(InRight(g.red, x, g.n, g.up), g.r);
      var tmp := gparent.right;
      if tmp != null && tmp.red {
        RecolorLeft(tmp, parent, gparent, g, x);
        elm', p', t' := gparent, g.up, Br(true, x.(red := false), g.n, Black(g.r));
      } else {
        elm', p', t' := InsertLastLeft(elm, parent, gparent, p, t, x);
      }
    }

    /** RB_INSERT_COLOR with a red uncle, the parent being a right child. */
    method RecolorRight(tmp: Node, parent: Node, gparent: Node, ghost g: Path, ghost x: Tree)
      requires Valid() && g.InRight? && g.l.Br? && x.Br? && shape == Plug(g, x)
      requires tmp == g.l.n && parent == x.n && gparent == g.n
      modifies this`shape, nodes
      ensures Valid() && shape == Plug(g.up, Br(true, Black(g.l), g.n, x.(red := false)))
    {
      SetColor(tmp, false, InLeft(g.red, g.n, x, g.up), g.l);
      SetColor(parent, false, InRight(g.red, Black(g.l), g.n, g.up), x);
      SetColor(gparent, true, g.up, Br(g.red, Black(g.l), g.n, x.(red := false)));
    }

    /** RB_INSERT_COLOR's last rotation, the parent `x.n` being a right child. */
    method LiftRight(parent: Node, gparent: Node, ghost g: Path, ghost x: Tree)
      requires Valid() && g.InRight? && x.Br? && shape == Plug(g, x)
      requires parent == x.n && gparent == g.n
      modifies this`root, this`shape, nodes
      ensures Valid() && shape == Plug(g.up, Br(false, Br(true, g.l, g.n, x.l), x.n, x.r))
    {
      SetColor(parent, false, g, x);
      SetColor(gparent, true, g.up, Br(g.red, g.l, g.n, x.(red := false)));
      RotateLeft(gparent, g.up, Br(true, g.l, g.n, x.(red := false)));
    }

    /** RB_INSERT_COLOR without a red uncle, the parent being a right child. */
    method InsertLastRight(elm: Node, parent: Node, gparent: Node, ghost p: Path, ghost t: Tree, ghost x: Tree)
      returns (elm': Node, ghost p': Path, ghost t': Tree)
      requires Valid() && shape == Plug(p, t) && IsRed(t) && RedPath(p) && p.up.InRight? && !IsRed(p.up.l)
      requires elm == t.n && parent == p.n && gparent == p.up.n
      requires x == if p.InRight? then Br(true, p.l, p.n, t) else Br(true, t, p.n, p.r)
      modifies this`root, this`shape, nodes
      ensures Valid() && shape == Plug(p', t') && IsRed(t') && elm' == t'.n
      ensures Plug(p', t') == InsertFix(p, t) && p'.InRight? && !p'.red && p'.up == p.up.up
    {
      ghost var g := p.up;
      Look(p, t);
      if parent.left == elm {
        RotateRight(parent, g, x);
        LiftRight(elm, gparent, g, RotatedRight(x));
        elm', p', t' := parent, InRight(false, Br(true, g.l, g.n, t.l), t.n, g.up), Br(true, t.r, p.n, p.r);
      } else {
        LiftRight(parent, gparent, g, x);
        elm', p', t' := elm, InRight(false, Br(true, g.l, g.n, p.l), p.n, g.up), t;
      }
    }

    /** One turn of the RB_INSERT_COLOR loop, the parent being a right child. */
    method InsertTurnRight(elm: Node, parent: Node, gparent: Node, ghost p: Path, ghost t: Tree)
      returns (elm': Node, ghost p': Path, ghost t': Tree)
      requires Valid() && shape == Plug(p, t) && IsRed(t) && RedPath(p) && p.up.InRight?
      requires elm == t.n && parent == p.n && gparent == p.up.n && NoRedTop(p)
      modifies this`root, this`shape, nodes
      ensures Valid() && shape == Plug(p', t') && IsRed(t') && elm' == t'.n && NoRedTop(p')
      ensures InsertFix(p', t') == InsertFix(p, t) && Length(p') < Length(p)
    {
      ghost var g := p.up;
      ghost var x := if p.InRight? then Br(true, p.l, p.n, t) else Br(true, t, p.n, p.r);
      assert NoRedTop(g) && NoRedTop(g.up);
      Look(g, x);
      Look(InLeft(g.red, g.n, x, g.up), g.l);
      var tmp := gparent.left;
      if tmp != null && tmp.red {
        RecolorRight(tmp, parent, gparent, g, x);
        elm', p', t' := gparent, g.up, Br(true, Black(g.l), g.n, x.(red := false));
      } else {
        elm', p', t' := InsertLastRight(elm, parent, gparent, p, t, x);
      }
    }

    /** RB_INSERT_COLOR. */
    method InsertColor(e: Node, ghost p0: Path, ghost t0: Tree)
      requires Valid() && shape == Plug(p0, t0) && IsRed(t0) && e == t0.n && NoRedTop(p0)
      modifies this`root, this`shape, nodes
      ensures Valid() && shape == Black(InsertFix(p0, t0))
    {
      var elm := e;
      ghost var p, t := p0, t0;
      Look(p, t);
      while elm.parent != null && elm.parent.red
        invariant Valid() && shape == Plug(p, t) && IsRed(t) && elm == t.n && NoRedTop(p)
        invariant elm.parent == ParentOf(p) && (elm.parent != null ==> elm.parent.red == p.red)
        invariant InsertFix(p, t) == InsertFix(p0, t0)
        decreases Length(p)
      {
        var parent := elm.parent;
        Look(p.up, if p.InLeft? then Br(p.red, t, p.n, p.r) else Br(p.red, p.l, p.n, t));
        var gparent := parent.parent;
        if parent == gparent.left {
          elm, p, t := InsertTurnLeft(elm, parent, gparent, p, t);
        } else {
          elm, p, t := InsertTurnRight(elm, parent, gparent, p, t);
        }
        Look(p, t);
      }
      Look(Top, shape);
      SetColor(root, false, Top, shape);
    }

    /** RB_FIND. */
    method Find(key: int) returns (r: Node?)
      requires Valid() && Sorted(Inorder(shape))
      ensures FoundIn(Inorder(shape), key, r)
    {
      var tmp := root;
      ghost var p, t := Top, shape;
      SearchFinds(shape, key);
      Look(p, t);
      while tmp != null
        invariant shape == Plug(p, t) && tmp == NodeOf(t)
        invariant Descend(p, t, key) == Descend(Top, shape, key)
        decreases t
      {
        Look(p, t);
        var comp := key - tmp.key;
        if comp < 0 {
          tmp := tmp.left;
          p, t := InLeft(t.red, t.n, t.r, p), t.l;
        } else if comp > 0 {
          tmp := tmp.right;
          p, t := InRight(t.red, t.l, t.n, p), t.r;
        } else {
          return tmp;
        }
      }
      r := null;
    }

    /** RB_SET and the write that hangs the new element below `parent`. */
    method LinkCells(elm: Node, parent: Node?, comp: int, ghost p: Path, ghost s: set<Node>)
      requires elm !in s && parent == ParentOf(p) && (!p.Top? ==> p.n in s && (comp < 0 <==> p.InLeft?))
      modifies this`root, parent, elm
      ensures root == RootAfter(old(root), p, elm)
      ensures Snap(s + {elm})[elm] == Cell(null, null, parent, true)
      ensures forall n :: n in s ==> Snap(s + {elm})[n] == SetHole(old(Snap(s)), p, elm)[n]
    {
      elm.parent := parent;
      elm.left, elm.right := null, null;
      elm.red := true;
      if parent != null {
        if comp < 0 {
          parent.left := elm;
        } else {
          parent.right := elm;
        }
      } else {
        root := elm;
      }
    }

    method Link(elm: Node, parent: Node?, comp: int, ghost p: Path)
      requires Valid() && shape == Plug(p, Leaf) && elm !in nodes && parent == ParentOf(p)
      requires !p.Top? ==> (comp < 0 <==> p.InLeft?)
      modifies this, nodes, elm
      ensures Valid() && shape == Plug(p, Br(true, Leaf, elm, Leaf)) && nodes == old(nodes) + {elm}
    {
      ghost var m, r, s := Snap(nodes), root, nodes;
      Look(p, Leaf);
      LinkCells(elm, parent, comp, p, s);
      ghost var m' := Snap(s + {elm});
      LinkStored(m, m', r, p, elm);
      shape, nodes := Plug(p, Br(true, Leaf, elm, Leaf)), s + {elm};
      assert Snap(nodes) == m';
    }

    /** The search loop of RB_INSERT. */
    method Search(key: int) returns (tmp: Node?, parent: Node?, comp: int, ghost p: Path)
      requires Valid()
      ensures shape == Plug(p, Descend(Top, shape, key).cur) && p == Descend(Top, shape, key).path
      ensures tmp == NodeOf(Descend(Top, shape, key).cur)
      ensures tmp == null ==> parent == ParentOf(p) && (!p.Top? ==> (comp < 0 <==> p.InLeft?))
    {
      tmp, parent, comp := root, null, 0;
      p := Top;
      ghost var t := shape;
      Look(p, t);
      while tmp != null
        invariant shape == Plug(p, t) && tmp == NodeOf(t) && parent == ParentOf(p)
        invariant Descend(p, t, key) == Descend(Top, shape, key)
        invariant !p.Top? ==> (comp < 0 <==> p.InLeft?)
        decreases t
      {
        Look(p, t);
        parent := tmp;
        comp := key - parent.key;
        if comp < 0 {
          tmp := tmp.left;
          p, t := InLeft(t.red, t.n, t.r, p), t.l;
        } else if comp > 0 {
          tmp := tmp.right;
          p, t := InRight(t.red, t.l, t.n, p), t.r;
        } else {
          return;
        }
      }
    }

    /** The new element in its place, and the tree repaired. */
    method Place(elm: Node, parent: Node?, comp: int, ghost p: Path)
      requires Valid() && RedBlack(shape) && shape == Plug(p, Leaf) && elm !in nodes && parent == ParentOf(p)
      requires !p.Top? ==> (comp < 0 <==> p.InLeft?)
      modifies this, nodes, elm
      ensures Valid() && shape == Black(InsertFix(p, Br(true, Leaf, elm, Leaf))) && nodes == old(nodes) + {elm}
    {
      ghost var h := UnplugRB(p, Leaf);
      RBPathNoRedTop(p, h);
      Link(elm, parent, comp, p);
      InsertColor(elm, p, Br(true, Leaf, elm, Leaf));
    }

    /** RB_INSERT returns the element with an equal key, or null. */
    method Insert(elm: Node) returns (r: Node?)
      requires Valid() && RedBlack(shape) && (elm in nodes ==> Sorted(Inorder(shape)))
      modifies this, nodes, elm
      ensures Valid() && RedBlack(shape) && shape == Inserted(old(shape), elm)
      ensures nodes == if r == null then old(nodes) + {elm} else old(nodes)
      ensures r == NodeOf(Descend(Top, old(shape), elm.key).cur)
      ensures old(Sorted(Inorder(shape))) ==> InsertAdds(old(Inorder(shape)), elm, Inorder(shape), r)
    {
      InsertedRB(shape, elm);
      if Sorted(Inorder(shape)) { InsertAnswers(shape, elm); }
      NodesInorder(shape, elm);
      var tmp, parent, comp;
      ghost var p;
      tmp, parent, comp, p := Search(elm.key);
      if tmp != null { return tmp; }
      Place(elm, parent, comp, p);
      r := null;
    }

    // ----------------------------------------------------------------- removal

    /** The sibling's red child is the far one: a single rotation ends the loop. */
    method FarRedRight(parent: Node, tmp: Node, ghost red: bool, ghost t: Tree, ghost s: Tree, ghost up: Path)
      requires s.Br? && Valid() && shape == Plug(up, Br(red, t, parent, s)) && tmp == s.n && s.r.Br?
      modifies this`root, this`shape, nodes
      ensures Valid() && shape == Plug(up, Br(red, Br(false, t, parent, s.l), s.n, Black(s.r)))
    {
      Look(up, Br(red, t, parent, s));
      SetColor(tmp, parent.red, InRight(red, t, parent, up), s);
      SetColor(parent, false, up, Br(red, t, parent, s.(red := red)));
      ghost var q := InRight(false, t, parent, up);
      Look(q, s.(red := red));
      if tmp.right != null {
        SetColor(tmp.right, false, InRight(red, s.l, s.n, q), s.r);
      }
      RotateLeft(parent, up, Br(false, t, parent, Br(red, s.l, s.n, Black(s.r))));
    }

    /** The sibling's red child is the near one: a rotation brings it to the far side. */
    method NearRedRight(parent: Node, tmp: Node, ghost red: bool, ghost t: Tree, ghost s: Tree, ghost up: Path)
      requires s.Br? && Valid() && shape == Plug(up, Br(red, t, parent, s)) && tmp == s.n && s.l.Br?
      modifies this`root, this`shape, nodes
      ensures Valid()
      ensures shape == Plug(up, Br(red, Br(false, t, parent, s.l.l), s.l.n, Br(false, s.l.r, s.n, s.r)))
    {
      ghost var q := InRight(red, t, parent, up);
      Look(q, s);
      var oleft := tmp.left;
      if oleft != null {
        SetColor(oleft, false, InLeft(s.red, s.n, s.r, q), s.l);
      }
      ghost var u := Br(s.red, Black(s.l), s.n, s.r);
      SetColor(tmp, true, q, u);
      RotateRight(tmp, q, u.(red := true));
      ghost var v := RotatedRight(u.(red := true));
      Look(q, v);
      FarRedRight(parent, parent.right, red, t, v, up);
    }

    /** The colours of the children of a subtree's root, as RB_COLOR finds them. */
    lemma Children(p: Path, t: Tree)
      requires Valid() && shape == Plug(p, t) && t.Br?
      ensures (t.n.left != null && t.n.left.red) <==> IsRed(t.l)
      ensures (t.n.right != null && t.n.right.red) <==> IsRed(t.r)
    {
      Look(p, t);
      Look(InLeft(t.red, t.n, t.r, p), t.l);
      Look(InRight(t.red, t.l, t.n, p), t.r);
    }

    /** RB_REMOVE_COLOR with a black sibling on the right. */
    method BlackSiblingRight(parent: Node, tmp: Node, ghost red: bool, ghost t: Tree, ghost s: Tree, ghost up: Path)
      returns (stop: bool)
      requires s.Br? && Valid() && shape == Plug(up, Br(red, t, parent, s)) && tmp == s.n
      modifies this`root, this`shape, nodes
      ensures Valid() && shape == Outcome(TurnLeft(red, t, parent, s, up))
      ensures stop == TurnLeft(red, t, parent, s, up).Done?
    {
      ghost var q := InRight(red, t, parent, up);
      Children(q, s);
      if (tmp.left == null || !tmp.left.red) && (tmp.right == null || !tmp.right.red) {
        SetColor(tmp, true, q, s);
        stop := false;
      } else {
        stop := true;
        if tmp.right == null || !tmp.right.red {
          NearRedRight(parent, tmp, red, t, s, up);
        } else {
          FarRedRight(parent, tmp, red, t, s, up);
        }
      }
    }

    /** One turn of the RB_REMOVE_COLOR loop, the short subtree being a left child. */
    method RemoveTurnLeft(parent: Node, ghost p: Path, ghost t: Tree) returns (stop: bool)
      requires Valid() && shape == Plug(p, t) && p.InLeft? && parent == p.n && Siblings(p)
      modifies this`root, this`shape, nodes
      ensures Valid() && shape == Outcome(RemoveTurn(p, t)) && stop == RemoveTurn(p, t).Done?
    {
      ghost var s := p.r;
      Look(p, t);
      Look(InRight(p.red, t, p.n, p.up), s);
      var tmp := parent.right;
      if tmp.red {
        SetColor(tmp, false, InRight(p.red, t, p.n, p.up), s);
        SetColor(parent, true, p.up, Br(p.red, t, p.n, Black(s)));
        RotateLeft(parent, p.up, Br(true, t, p.n, Black(s)));
        Look(InLeft(false, s.n, s.r, p.up), Br(true, t, p.n, s.l));
        stop := BlackSiblingRight(parent, parent.right, true, t, s.l, InLeft(false, s.n, s.r, p.up));
      } else {
        stop := BlackSiblingRight(parent, tmp, p.red, t, s, p.up);
      }
    }

    /** The sibling's red child is the far one: a single rotation ends the loop. */
    method FarRedLeft(parent: Node, tmp: Node, ghost red: bool, ghost t: Tree, ghost s: Tree, ghost up: Path)
      requires s.Br? && Valid() && shape == Plug(up, Br(red, s, parent, t)) && tmp == s.n && s.l.Br?
      modifies this`root, this`shape, nodes
      ensures Valid() && shape == Plug(up, Br(red, Black(s.l), s.n, Br(false, s.r, parent, t)))
    {
      Look(up, Br(red, s, parent, t));
      SetColor(tmp, parent.red, InLeft(red, parent, t, up), s);
      SetColor(parent, false, up, Br(red, s.(red := red), parent, t));
      ghost var q := InLeft(false, parent, t, up);
      Look(q, s.(red := red));
      if tmp.left != null {
        SetColor(tmp.left, false, InLeft(red, s.n, s.r, q), s.l);
      }
      RotateRight(parent, up, Br(false, Br(red, Black(s.l), s.n, s.r), parent, t));
    }

    /** The sibling's red child is the near one: a rotation brings it to the far side. */
    method NearRedLeft(parent: Node, tmp: Node, ghost red: bool, ghost t: Tree, ghost s: Tree, ghost up: Path)
      requires s.Br? && Valid() && shape == Plug(up, Br(red, s, parent, t)) && tmp == s.n && s.r.Br?
      modifies this`root, this`shape, nodes
      ensures Valid()
      ensures shape == Plug(up, Br(red, Br(false, s.l, s.n, s.r.l), s.r.n, Br(false, s.r.r, parent, t)))
    {
      ghost var q := InLeft(red, parent, t, up);
      Look(q, s);
      var oright := tmp.right;
      if oright != null {
        SetColor(oright, false, InRight(s.red, s.l, s.n, q), s.r);
      }
      ghost var u := Br(s.red, s.l, s.n, Black(s.r));
      SetColor(tmp, true, q, u);
      RotateLeft(tmp, q, u.(red := true));
      ghost var v := RotatedLeft(u.(red := true));
      Look(q, v);
      FarRedLeft(parent, parent.left, red, t, v, up);
    }

    /** RB_REMOVE_COLOR with a black sibling on the left. */
    method BlackSiblingLeft(parent: Node, tmp: Node, ghost red: bool, ghost t: Tree, ghost s: Tree, ghost up: Path)
      returns (stop: bool)
      requires s.Br? && Valid() && shape == Plug(up, Br(red, s, parent, t)) && tmp == s.n
      modifies this`root, this`shape, nodes
      ensures Valid() && shape == Outcome(TurnRight(red, s, parent, t, up))
      ensures stop == TurnRight(red, s, parent, t, up).Done?
    {
      ghost var q := InLeft(red, parent, t, up);
      Children(q, s);
      if (tmp.right == null || !tmp.right.red) && (tmp.left == null || !tmp.left.red) {
        SetColor(tmp, true, q, s);
        stop := false;
      } else {
        stop := true;
        if tmp.left == null || !tmp.left.red {
          NearRedLeft(parent, tmp, red, t, s, up);
        } else {
          FarRedLeft(parent, tmp, red, t, s, up);
        }
      }
    }

    /** One turn of the RB_REMOVE_COLOR loop, the short subtree being a right child. */
    method RemoveTurnRight(parent: Node, ghost p: Path, ghost t: Tree) returns (stop: bool)
      requires Valid() && shape == Plug(p, t) && p.InRight? && parent == p.n && Siblings(p)
      modifies this`root, this`shape, nodes
      ensures Valid() && shape == Outcome(RemoveTurn(p, t)) && stop == RemoveTurn(p, t).Done?
    {
      ghost var s := p.l;
      Look(p, t);
      Look(InLeft(p.red, p.n, t, p.up), s);
      var tmp := parent.left;
      if tmp.red {
        SetColor(tmp, false, InLeft(p.red, p.n, t, p.up), s);
        SetColor(parent, true, p.up, Br(p.red, Black(s), p.n, t));
        RotateRight(parent, p.up, Br(true, Black(s), p.n, t));
        Look(InRight(false, s.l, s.n, p.up), Br(true, s.r, p.n, t));
        stop := BlackSiblingLeft(parent, parent.left, true, t, s.r, InRight(false, s.l, s.n, p.up));
      } else {
        stop := BlackSiblingLeft(parent, tmp, p.red, t, s, p.up);
      }
    }

    /** The short subtree is on one side or the other. */
    method RemoveTurnAt(elm: Node?, parent: Node, ghost p: Path, ghost t: Tree) returns (stop: bool)
      requires Valid() && shape == Plug(p, t) && elm == NodeOf(t) && parent == ParentOf(p) && Siblings(p)
      modifies this`root, this`shape, nodes
      ensures Valid() && shape == Outcome(RemoveTurn(p, t)) && stop == RemoveTurn(p, t).Done?
    {
      Look(p, t);
      if parent.left == elm {
        stop := RemoveTurnLeft(parent, p, t);
      } else {
        stop := RemoveTurnRight(parent, p, t);
      }
    }

    /** One turn of the RB_REMOVE_COLOR loop. */
    method RemoveColorTurn(elm: Node?, parent: Node, ghost p: Path, ghost t: Tree, ghost h: nat)
      returns (stop: bool, elm': Node?, parent': Node?, ghost p': Path, ghost t': Tree, ghost h': nat)
      requires Valid() && shape == Plug(p, t) && elm == NodeOf(t) && parent == ParentOf(p)
      requires Short(p, t, h) && !IsRed(t)
      modifies this`root, this`shape, nodes
      ensures Valid()
      ensures if stop then elm' == root && Black(shape) == RemoveFix(p, t)
              else
                && shape == Plug(p', t') && elm' == NodeOf(t') && parent' == ParentOf(p')
                && Short(p', t', h') && RemoveFix(p', t') == RemoveFix(p, t)
                && (Length(p') < Length(p) || (Length(p') == Length(p) && IsRed(t')))
    {
      p', t', h', parent' := p, t, h, parent;
      ShortHasSiblings(p, t, h);
      RemoveTurnRB(p, t, h);
      stop := RemoveTurnAt(elm, parent, p, t);
      if stop {
        elm' := root;
      } else {
        p', t' := RemoveTurn(p, t).path, RemoveTurn(p, t).cur;
        h' :| Short(p', t', h');
        Look(p', t');
        elm' := parent;
        parent' := parent.parent;
      }
    }

    /** RB_REMOVE_COLOR. */
    method RemoveColor(par: Node?, e: Node?, ghost p0: Path, ghost t0: Tree, ghost h0: nat)
      requires Valid() && shape == Plug(p0, t0) && e == NodeOf(t0) && par == ParentOf(p0) && Short(p0, t0, h0)
      modifies this`root, this`shape, nodes
      ensures Valid() && shape == RemoveFix(p0, t0)
    {
      var elm, parent, stop := e, par, false;
      ghost var p, t, h := p0, t0, h0;
      Look(p, t);
      while (elm == null || !elm.red) && elm != root && !stop
        invariant Valid()
        invariant !stop ==>
                    && shape == Plug(p, t) && elm == NodeOf(t) && parent == ParentOf(p)
                    && Short(p, t, h) && RemoveFix(p, t) == RemoveFix(p0, t0)
        invariant !stop ==> (elm != null ==> elm.red == t.red) && (elm == root <==> p.Top?)
        invariant stop ==> elm == root && Black(shape) == RemoveFix(p0, t0)
        decreases !stop, Length(p), if IsRed(t) then 0 else 1
      {
        stop, elm, parent, p, t, h := RemoveColorTurn(elm, parent, p, t, h);
        if !stop { Look(p, t); }
      }
      if stop {
        p, t := Top, shape;
        Look(p, t);
      }
      if elm != null {
        SetColor(elm, false, p, t);
      }
    }

    /** RB_REMOVE's splice: `child` takes the place of `elm`, whose only child it is. */
    method UnlinkCells(elm: Node, child: Node?, parent: Node?, ghost p: Path, ghost s: set<Node>)
      requires elm in s && parent == elm.parent == ParentOf(p) && Hangs(Snap(s), p, elm)
      requires child != elm && (child != null ==> child in s && (!p.Top? ==> p.n != child)) && (!p.Top? ==> p.n != elm)
      modifies this`root, s
      ensures root == RootAfter(old(root), p, child)
      ensures UnlinkWrites(old(Snap(s)), Snap(s - {elm}), p, elm, child)
      ensures elm.parent == parent
    {
      if child != null {
        child.parent := parent;
      }
      Relink(parent, elm, child, p);
    }

    method Unlink(elm: Node, child: Node?, ghost p: Path, ghost t: Tree, ghost c: Tree)
      returns (parent: Node?, red: bool)
      requires Valid() && shape == Plug(p, t) && t.Br? && elm == t.n && child == NodeOf(c)
      requires (t.l.Leaf? && c == t.r) || (t.r.Leaf? && c == t.l)
      modifies this, nodes
      ensures Valid() && shape == Plug(p, c) && nodes == old(nodes) - {elm}
      ensures parent == ParentOf(p) == elm.parent && red == t.red
    {
      ghost var m, r, s := Snap(nodes), root, nodes;
      AroundOnlyChild(m, root, p, t, c);
      parent, red := elm.parent, elm.red;
      UnlinkCells(elm, child, parent, p, s);
      ghost var m' := Snap(s - {elm});
      UnlinkStored(m, m', r, p, t, c);
      shape, nodes := Plug(p, c), s - {elm};
      assert Snap(nodes) == m';
    }

    /** RB_REMOVE's exchange: `elm` takes over the links and colour of `was`. */
    method ReplaceLinks(was: Node, elm: Node, ghost l: Node, ghost r: Node?, ghost p: Path)
      requires was.parent == ParentOf(p) && was.left == l && was.right == r
      requires was != elm && l !in {was, elm} && r != was && r != elm && r != l
      requires !p.Top? ==> p.n !in {was, elm, l} && p.n != r
      requires p.InLeft? ==> p.n.left == was
      requires p.InRight? ==> p.n.right == was && p.n.left != was
      modifies this`root, elm, was.parent, l, r
      ensures root == RootAfter(old(root), p, elm)
      ensures elm.left == l && elm.right == r && elm.parent == ParentOf(p) && elm.red == old(was.red)
      ensures l.parent == elm && l.left == old(l.left) && l.right == old(l.right) && l.red == old(l.red)
      ensures r != null ==> r.parent == elm && r.left == old(r.left) && r.right == old(r.right) && r.red == old(r.red)
      ensures !p.Top? ==> p.n.parent == old(p.n.parent) && p.n.red == old(p.n.red)
      ensures p.InLeft? ==> p.n.left == elm && p.n.right == old(p.n.right)
      ensures p.InRight? ==> p.n.right == elm && p.n.left == old(p.n.left)
    {
      elm.left, elm.right, elm.parent, elm.red := was.left, was.right, was.parent, was.red;
      Relink(was.parent, was, elm, p);
      was.left.parent := elm;
      if was.right != null {
        was.right.parent := elm;
      }
    }

    method ReplaceCells(was: Node, elm: Node, ghost p: Path, ghost s: set<Node>)
      requires was in s && elm !in s && was.parent == ParentOf(p) && Hangs(Snap(s), p, was)
      requires was.left != null && was.left in s && was.left != was && was.right != was && was.left != was.right
      requires was.right != null ==> was.right in s
      requires !p.Top? ==> p.n != was && p.n != was.left && p.n != was.right && p.n in s
      modifies this`root, s, elm
      ensures root == RootAfter(old(root), p, elm)
      ensures ReplaceWrites(old(Snap(s)), Snap(s - {was} + {elm}), p, was, old(was.left), old(was.right), elm)
    {
      ReplaceLinks(was, elm, was.left, was.right, p);
    }

    method Replace(was: Node, elm: Node, ghost p: Path, ghost t: Tree)
      requires Valid() && shape == Plug(p, t) && t.Br? && t.l.Br? && was == t.n && elm !in nodes
      modifies this, nodes, elm
      ensures Valid() && shape == Plug(p, t.(n := elm)) && nodes == old(nodes) - {was} + {elm}
    {
      ghost var m, r, s := Snap(nodes), root, nodes;
      Around(m, root, p, t);
      ReplaceCells(was, elm, p, s);
      ghost var m' := Snap(s - {was} + {elm});
      ReplaceStored(m, m', r, p, t, elm);
      shape, nodes := Plug(p, t.(n := elm)), s - {was} + {elm};
      assert Snap(nodes) == m';
    }

    /** RB_REMOVE of a node with at most one child. */
    method RemoveOne(elm: Node, child: Node?, ghost p: Path, ghost t: Tree, ghost c: Tree, ghost h: nat)
      requires Valid() && shape == Plug(p, t) && t.Br? && elm == t.n && child == NodeOf(c) && FitsHole(p, t, h)
      requires (t.l.Leaf? && c == t.r) || (t.r.Leaf? && c == t.l)
      modifies this, nodes
      ensures Valid() && shape == Unlinked(p, t.red, c) && nodes == old(nodes) - {elm}
    {
      var parent, red := Unlink(elm, child, p, t, c);
      if !red {
        OnlyChildShort(p, t, c, h);
        RemoveColor(parent, child, p, c, h - 1);
      }
    }

    /** RB_REMOVE's walk to the in-order successor of a node with two children. */
    method Successor(was: Node, ghost p: Path, ghost t: Tree) returns (elm: Node)
      requires Valid() && shape == Plug(p, t) && t.Br? && t.r.Br? && was == t.n
      ensures elm == MinZip(InRight(t.red, t.l, t.n, p), t.r).cur.n
    {
      Look(p, t);
      elm := was.right;
      ghost var q, u := InRight(t.red, t.l, t.n, p), t.r;
      Look(q, u);
      while elm.left != null
        invariant shape == Plug(q, u) && u.Br? && elm == u.n && elm.left == NodeOf(u.l)
        invariant MinZip(q, u) == MinZip(InRight(t.red, t.l, t.n, p), t.r)
        decreases u
      {
        elm := elm.left;
        q, u := InLeft(u.red, u.n, u.r, q), u.l;
        Look(q, u);
      }
    }

    /** The successor is another node, and its parent is the removed one only when it is its child. */
    lemma SuccessorApart(p: Path, t: Tree, z: Zip)
      requires Valid() && shape == Plug(p, t) && t.Br? && t.r.Br?
      requires z == MinZip(InRight(t.red, t.l, t.n, p), t.r)
      ensures z.cur.n in nodes && z.cur.n != t.n
      ensures ParentOf(z.path) == t.n <==> t.r.l.Leaf?
    {
      var q := InRight(t.red, t.l, t.n, p);
      Focus(Snap(nodes), root, p, t);
      MinZipPlug(q, t.r);
      MinZipParent(q, q, t.r);
      MinZipOrder(q, t.r);
      assert z.cur.n in Inorder(t.r) by { MinZipMember(q, t.r); }
      NodesInorder(t.r, z.cur.n);
      NodesInorder(t.r, t.n);
    }

    /** RB_REMOVE of a node with two children, up to the call of RB_REMOVE_COLOR. */
    method Exchange(was: Node, elm: Node, child: Node?, ghost p: Path, ghost t: Tree, ghost z: Zip, ghost q: Path)
      returns (parent: Node?, red: bool)
      requires Valid() && shape == Plug(p, t) && t.Br? && t.l.Br? && t.r.Br? && was == t.n
      requires q == InRight(t.red, t.l, was, p) && z == MinZip(q, t.r) && elm == z.cur.n && child == NodeOf(z.cur.r)
      modifies this, nodes
      ensures Valid() && nodes == old(nodes) - {was} && red == z.cur.red
      ensures shape == Plug(p, Br(t.red, t.l, elm, WithoutMin(t.r)))
      ensures parent == if t.r.l.Leaf? then elm else ParentOf(z.path)
    {
      MinZipPlug(q, t.r);
      SuccessorApart(p, t, z);
      parent, red := Unlink(elm, child, z.path, z.cur, z.cur.r);
      if elm.parent == was {
        parent := elm;
      }
      Replace(was, elm, p, Br(t.red, t.l, was, WithoutMin(t.r)));
    }

    /** RB_REMOVE of a node with two children: its in-order successor takes its place. */
    method RemoveTwo(was: Node, ghost p: Path, ghost t: Tree, ghost h: nat)
      requires Valid() && shape == Plug(p, t) && t.Br? && t.l.Br? && t.r.Br? && was == t.n && FitsHole(p, t, h)
      modifies this, nodes
      ensures Valid() && shape == Removed(p, t) && nodes == old(nodes) - {was}
    {
      ghost var q := InRight(t.red, t.l, was, p);
      ghost var z := MinZip(q, t.r);
      var elm := Successor(was, p, t);
      MinZipPlug(q, t.r);
      Look(z.path, z.cur);
      var child := elm.right;
      var parent, red := Exchange(was, elm, child, p, t, z, q);
      SuccessorPlace(p, t, elm);
      if !red {
        ghost var q' := InRight(t.red, t.l, elm, p);
        ghost var z' := MinZip(q', t.r);
        ghost var g := MinZipFits(q', t.r, if t.red then h else h - 1);
        OnlyChildShort(z'.path, z'.cur, z'.cur.r, g);
        RemoveColor(parent, child, z'.path, z'.cur.r, g - 1);
      }
    }

    /** RB_REMOVE; `p` and `t` are where the element was. */
    method Remove(elm: Node) returns (r: Node, ghost p: Path, ghost t: Tree)
      requires Valid() && RedBlack(shape) && elm in nodes
      modifies this, nodes
      ensures Valid() && RedBlack(shape) && nodes == old(nodes) - {elm} && r == elm
      ensures t.Br? && t.n == elm && old(shape) == Plug(p, t) && shape == Removed(p, t)
      ensures old(Sorted(Inorder(shape))) ==> RemoveDrops(old(Inorder(shape)), elm, Inorder(shape))
    {
      NodesInorder(shape, elm);
      p, t := Locate(shape, elm, Top);
      RemovedRB(p, t);
      if Sorted(Inorder(shape)) { RemoveFound(p, t); }
      ghost var h := UnplugRB(p, t);
      Look(p, t);
      if elm.left == null {
        RemoveOne(elm, elm.right, p, t, t.r, h);
      } else if elm.right == null {
        RemoveOne(elm, elm.left, p, t, t.l, h);
      } else {
        RemoveTwo(elm, p, t, h);
      }
      r := elm;
    }
  }
}
