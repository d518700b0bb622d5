/**
 * The red-black tree of compat/sys/tree.h, as functions on ghost trees of node
 * references: what each loop computes, and why colours, order and contents come
 * out right. Keys are integers compared by the comparator's sign; any total
 * order on the finitely many keys of a tree embeds in them.
 */
module RedBlackShape {

  /** RB_ENTRY together with the key its comparator reads. */
  class Node {
    const key: int
    var left: Node?
    var right: Node?
    var parent: Node?
    var red: bool

    constructor (key: int)
      ensures this.key == key
    {
      this.key := key;
      left, right, parent, red := null, null, null, false;
    }
  }

  datatype Tree = Leaf | Br(red: bool, l: Tree, n: Node, r: Tree)

  /** The way from a subtree back up to the root. */
  datatype Path =
    | Top
    | InLeft(red: bool, n: Node, r: Tree, up: Path)
    | InRight(red: bool, l: Tree, n: Node, up: Path)

  datatype Zip = Zip(path: Path, cur: Tree)

  ghost function Plug(p: Path, t: Tree): Tree {
    match p
    case Top => t
    case InLeft(red, n, r, up) => Plug(up, Br(red, t, n, r))
    case InRight(red, l, n, up) => Plug(up, Br(red, l, n, t))
  }

  ghost predicate IsRed(t: Tree) { t.Br? && t.red }

  ghost predicate RedPath(p: Path) { !p.Top? && p.red }

  ghost function Black(t: Tree): Tree {
    if t.Leaf? then t else t.(red := false)
  }

  ghost function Length(p: Path): nat {
    if p.Top? then 0 else 1 + Length(p.up)
  }

  // ------------------------------------------------------------------ contents

  ghost function Inorder(t: Tree): seq<Node> {
    if t.Leaf? then [] else Inorder(t.l) + [t.n] + Inorder(t.r)
  }

  ghost function Before(p: Path): seq<Node> {
    match p
    case Top => []
    case InLeft(_, _, _, up) => Before(up)
    case InRight(_, l, n, up) => Before(up) + Inorder(l) + [n]
  }

  ghost function After(p: Path): seq<Node> {
    match p
    case Top => []
    case InLeft(_, n, r, up) => [n] + Inorder(r) + After(up)
    case InRight(_, _, _, up) => After(up)
  }

  lemma {:induction false} Assoc(a: seq<Node>, b: seq<Node>, c: seq<Node>, d: seq<Node>, e: seq<Node>)
    ensures a + (b + c + d) + e == a + b + (c + d + e)
    ensures (b + c + d) + e == b + (c + d + e)
    ensures a + (b + c + d) + e == a + b + c + d + e
    ensures a + (b + c + d) + e == a + b + c + (d + e)
  {
  }

  lemma {:induction false} PlugOrder(p: Path, t: Tree)
    ensures Inorder(Plug(p, t)) == Before(p) + Inorder(t) + After(p)
  {
    match p
    case Top =>
    case InLeft(red, n, r, up) =>
      PlugOrder(up, Br(red, t, n, r));
      Assoc(Before(up), Inorder(t), [n], Inorder(r), After(up));
    case InRight(red, l, n, up) =>
      PlugOrder(up, Br(red, l, n, t));
      Assoc(Before(up), Inorder(l), [n], Inorder(t), After(up));
  }

  /** Plugging sees only the in-order contents of what is plugged in. */
  lemma {:induction false} SameOrder(p: Path, t: Tree, t': Tree)
    requires Inorder(t) == Inorder(t')
    ensures Inorder(Plug(p, t)) == Inorder(Plug(p, t'))
  {
    PlugOrder(p, t);
    PlugOrder(p, t');
  }

  /** Neither a rotation nor a change of colours moves an element. */
  lemma {:induction false} RotationOrder(t: Tree, t': Tree)
    requires t.Br? && t.l.Br? && t'.Br? && t'.r.Br?
    requires t.n == t'.r.n && t.l.n == t'.n
    requires Inorder(t.l.l) == Inorder(t'.l) && Inorder(t.l.r) == Inorder(t'.r.l) && Inorder(t.r) == Inorder(t'.r.r)
    ensures Inorder(t) == Inorder(t')
  {
    var a, b, c := Inorder(t.l.l), Inorder(t.l.r), Inorder(t.r);
    assert (a + [t'.n] + b) + [t.n] + c == a + [t'.n] + (b + [t.n] + c);
  }

  // ------------------------------------------------------ red-black conditions

  /**
   * Every path down from `t` meets `h` black nodes and no red node has a red
   * child.
   */
  ghost predicate RB(t: Tree, h: nat) {
    match t
    case Leaf => h == 0
    case Br(red, l, _, r) =>
      if red then !IsRed(l) && !IsRed(r) && RB(l, h) && RB(r, h)
      else h > 0 && RB(l, h - 1) && RB(r, h - 1)
  }

  /** A hole of black height `h` is all that keeps the rest from being valid. */
  ghost predicate RBPath(p: Path, h: nat) {
    match p
    case Top => true
    case InLeft(red, _, r, up) =>
      RB(r, h) && (red ==> !IsRed(r) && !up.Top? && !up.red) && RBPath(up, if red then h else h + 1)
    case InRight(red, l, _, up) =>
      RB(l, h) && (red ==> !IsRed(l) && !up.Top? && !up.red) && RBPath(up, if red then h else h + 1)
  }

  /** The conditions of the header's opening comment, with a black root. */
  ghost predicate RedBlack(t: Tree) {
    !IsRed(t) && exists h: nat :: RB(t, h)
  }

  ghost predicate FitsHole(p: Path, t: Tree, h: nat) {
    RB(t, h) && RBPath(p, h) && (IsRed(t) ==> !p.Top? && !p.red)
  }

  lemma {:induction false} PlugRB(p: Path, t: Tree, h: nat)
    requires FitsHole(p, t, h)
    ensures RedBlack(Plug(p, t))
  {
    match p
    case Top =>
    case InLeft(red, n, r, up) => PlugRB(up, Br(red, t, n, r), if red then h else h + 1);
    case InRight(red, l, n, up) => PlugRB(up, Br(red, l, n, t), if red then h else h + 1);
  }

  /** Any spot of a valid tree is a hole that its subtree fits. */
  lemma {:induction false} UnplugRB(p: Path, t: Tree) returns (h: nat)
    requires RedBlack(Plug(p, t))
    ensures FitsHole(p, t, h)
  {
    match p
    case Top =>
      h :| RB(t, h);
    case InLeft(red, n, r, up) =>
      var g := UnplugRB(up, Br(red, t, n, r));
      h := if red then g else g - 1;
    case InRight(red, l, n, up) =>
      var g := UnplugRB(up, Br(red, l, n, t));
      h := if red then g else g - 1;
  }

  // -------------------------------------------------------------- height bound

  ghost function Max(a: nat, b: nat): nat { if a < b then b else a }

  ghost function Height(t: Tree): nat {
    if t.Leaf? then 0 else 1 + Max(Height(t.l), Height(t.r))
  }

  ghost function Pow2(n: nat): nat {
    if n == 0 then 1 else 2 * Pow2(n - 1)
  }

  lemma {:induction false} PowAdd(a: nat, b: nat)
    ensures Pow2(a + b) == Pow2(a) * Pow2(b)
  {
    if a > 0 { PowAdd(a - 1, b); }
  }

  lemma {:induction false} PowMono(a: nat, b: nat)
    requires a <= b
    ensures Pow2(a) <= Pow2(b)
    decreases b
  {
    if a < b { PowMono(a, b - 1); }
  }

  lemma SquareMono(a: nat, b: nat)
    requires a <= b
    ensures a * a <= b * b
  {
    assert a * a <= a * b <= b * b;
  }

  lemma {:induction false} HeightAndSize(t: Tree, h: nat)
    requires RB(t, h)
    ensures Height(t) <= 2 * h + if IsRed(t) then 1 else 0
    ensures |Inorder(t)| + 1 >= Pow2(h)
  {
    if t.Br? {
      var g := if t.red then h else h - 1;
      HeightAndSize(t.l, g);
      HeightAndSize(t.r, g);
    }
  }

  /** A valid tree of n elements is at most 2 lg (n + 1) high. */
  lemma {:induction false} HeightBound(t: Tree)
    requires RedBlack(t)
    ensures var n := |Inorder(t)|; Pow2(Height(t)) <= (n + 1) * (n + 1)
  {
    var h: nat :| RB(t, h);
    HeightAndSize(t, h);
    PowMono(Height(t), h + h);
    PowAdd(h, h);
    SquareMono(Pow2(h), |Inorder(t)| + 1);
  }

  // ----------------------------------------------------------- RB_INSERT_COLOR

  /**
   * The tree in which the RB_INSERT_COLOR loop stops, entered at the red
   * subtree `t` (the trailing write of the root's colour not included).
   */
  ghost function InsertFix(p: Path, t: Tree): Tree
    decreases p
  {
    match p
    case InLeft(true, pn, pr, InLeft(_, g, uncle, up)) =>
      if IsRed(uncle) then InsertFix(up, Br(true, Br(false, t, pn, pr), g, Black(uncle)))
      else Plug(up, Br(false, t, pn, Br(true, pr, g, uncle)))
    case InRight(true, pl, pn, InLeft(_, g, uncle, up)) =>
      if IsRed(uncle) then InsertFix(up, Br(true, Br(false, pl, pn, t), g, Black(uncle)))
      else if t.Leaf? then Plug(p, t)
      else Plug(up, Br(false, Br(true, pl, pn, t.l), t.n, Br(true, t.r, g, uncle)))
    case InRight(true, pl, pn, InRight(_, uncle, g, up)) =>
      if IsRed(uncle) then InsertFix(up, Br(true, Black(uncle), g, Br(false, pl, pn, t)))
      else Plug(up, Br(false, Br(true, uncle, g, pl), pn, t))
    case InLeft(true, pn, pr, InRight(_, uncle, g, up)) =>
      if IsRed(uncle) then InsertFix(up, Br(true, Black(uncle), g, Br(false, t, pn, pr)))
      else if t.Leaf? then Plug(p, t)
      else Plug(up, Br(false, Br(true, uncle, g, t.l), t.n, Br(true, t.r, pn, pr)))
    case _ => Plug(p, t)
  }

  /** No frame of the path is a red root, so a red parent has a parent. */
  ghost predicate NoRedTop(p: Path) {
    !p.Top? ==> (p.red ==> !p.up.Top?) && NoRedTop(p.up)
  }

  lemma {:induction false} RBPathNoRedTop(p: Path, h: nat)
    requires RBPath(p, h)
    ensures NoRedTop(p)
    decreases p
  {
    if !p.Top? { RBPathNoRedTop(p.up, if p.red then h else h + 1); }
  }

  /** Where the search of RB_INSERT and RB_FIND ends. */
  ghost function Descend(p: Path, t: Tree, k: int): Zip
    decreases t
  {
    if t.Leaf? || t.n.key == k then Zip(p, t)
    else if k < t.n.key then Descend(InLeft(t.red, t.n, t.r, p), t.l, k)
    else Descend(InRight(t.red, t.l, t.n, p), t.r, k)
  }

  /** The tree RB_INSERT leaves behind. */
  ghost function Inserted(t: Tree, e: Node): Tree {
    var z := Descend(Top, t, e.key);
    if z.cur.Br? then t else Black(InsertFix(z.path, Br(true, Leaf, e, Leaf)))
  }

  lemma {:induction false} InsertFixOrder(p: Path, t: Tree)
    ensures Inorder(InsertFix(p, t)) == Inorder(Plug(p, t))
    decreases p
  {
    match p
    case InLeft(true, pn, pr, InLeft(gr, g, uncle, up)) =>
      var was := Br(gr, Br(true, t, pn, pr), g, uncle);
      if IsRed(uncle) {
        var now := Br(true, Br(false, t, pn, pr), g, Black(uncle));
        InsertFixOrder(up, now);
        SameOrder(up, was, now);
      } else {
        var now := Br(false, t, pn, Br(true, pr, g, uncle));
        RotationOrder(was, now);
        SameOrder(up, was, now);
      }
    case InRight(true, pl, pn, InLeft(gr, g, uncle, up)) =>
      var was := Br(gr, Br(true, pl, pn, t), g, uncle);
      if IsRed(uncle) {
        var now := Br(true, Br(false, pl, pn, t), g, Black(uncle));
        InsertFixOrder(up, now);
        SameOrder(up, was, now);
      } else if t.Br? {
        var mid := Br(gr, Br(true, Br(true, pl, pn, t.l), t.n, t.r), g, uncle);
        var now := Br(false, Br(true, pl, pn, t.l), t.n, Br(true, t.r, g, uncle));
        RotationOrder(mid.l, Br(true, pl, pn, t));
        RotationOrder(mid, now);
        SameOrder(up, was, now);
      }
    case InRight(true, pl, pn, InRight(gr, uncle, g, up)) =>
      var was := Br(gr, uncle, g, Br(true, pl, pn, t));
      if IsRed(uncle) {
        var now := Br(true, Black(uncle), g, Br(false, pl, pn, t));
        InsertFixOrder(up, now);
        SameOrder(up, was, now);
      } else {
        var now := Br(false, Br(true, uncle, g, pl), pn, t);
        RotationOrder(now, was);
        SameOrder(up, was, now);
      }
    case InLeft(true, pn, pr, InRight(gr, uncle, g, up)) =>
      var was := Br(gr, uncle, g, Br(true, t, pn, pr));
      if IsRed(uncle) {
        var now := Br(true, Black(uncle), g, Br(false, t, pn, pr));
        InsertFixOrder(up, now);
        SameOrder(up, was, now);
      } else if t.Br? {
        var mid := Br(gr, uncle, g, Br(true, t.l, t.n, Br(true, t.r, pn, pr)));
        var now := Br(false, Br(true, uncle, g, t.l), t.n, Br(true, t.r, pn, pr));
        RotationOrder(Br(true, t, pn, pr), mid.r);
        RotationOrder(now, mid);
        SameOrder(up, was, now);
      }
    case _ =>
  }

  lemma BlackRB(t: Tree, h: nat)
    requires RB(t, h)
    ensures exists g: nat :: RB(Black(t), g)
  {
    assert RB(Black(t), if IsRed(t) then h + 1 else h);
  }

  /** A red subtree anywhere in an otherwise valid tree is repaired. */
  lemma {:induction false} InsertFixRB(p: Path, t: Tree, h: nat)
    requires RB(t, h) && RBPath(p, h) && IsRed(t)
    ensures RedBlack(Black(InsertFix(p, t)))
    decreases p
  {
    match p
    case Top =>
      BlackRB(t, h);
    case InLeft(true, pn, pr, InLeft(_, g, uncle, up)) =>
      if IsRed(uncle) {
        InsertFixRB(up, Br(true, Br(false, t, pn, pr), g, Black(uncle)), h + 1);
      } else {
        PlugRB(up, Br(false, t, pn, Br(true, pr, g, uncle)), h + 1);
      }
    case InRight(true, pl, pn, InLeft(_, g, uncle, up)) =>
      if IsRed(uncle) {
        InsertFixRB(up, Br(true, Br(false, pl, pn, t), g, Black(uncle)), h + 1);
      } else {
        PlugRB(up, Br(false, Br(true, pl, pn, t.l), t.n, Br(true, t.r, g, uncle)), h + 1);
      }
    case InRight(true, pl, pn, InRight(_, uncle, g, up)) =>
      if IsRed(uncle) {
        InsertFixRB(up, Br(true, Black(uncle), g, Br(false, pl, pn, t)), h + 1);
      } else {
        PlugRB(up, Br(false, Br(true, uncle, g, pl), pn, t), h + 1);
      }
    case InLeft(true, pn, pr, InRight(_, uncle, g, up)) =>
      if IsRed(uncle) {
        InsertFixRB(up, Br(true, Black(uncle), g, Br(false, t, pn, pr)), h + 1);
      } else {
        PlugRB(up, Br(false, Br(true, uncle, g, t.l), t.n, Br(true, t.r, pn, pr)), h + 1);
      }
    case _ =>
      PlugRB(p, t, h);
  }

  // ----------------------------------------------------------- searching by key

  ghost predicate Sorted(s: seq<Node>) {
    forall i, j :: 0 <= i < j < |s| ==> s[i].key < s[j].key
  }

  ghost predicate AllBelow(s: seq<Node>, k: int) {
    forall n :: n in s ==> n.key < k
  }

  ghost predicate AllAbove(s: seq<Node>, k: int) {
    forall n :: n in s ==> k < n.key
  }

  lemma {:induction false} SortedMiddle(a: seq<Node>, l: seq<Node>, n: Node, r: seq<Node>, b: seq<Node>)
    requires Sorted(a + (l + [n] + r) + b)
    ensures AllBelow(l, n.key) && AllAbove(r, n.key)
  {
    var s := a + (l + [n] + r) + b;
    assert s[|a| + |l|] == n;
    forall x | x in l
      ensures x.key < n.key
    {
      var i :| 0 <= i < |l| && l[i] == x;
      assert s[|a| + i] == x;
    }
    forall x | x in r
      ensures n.key < x.key
    {
      var i :| 0 <= i < |r| && r[i] == x;
      assert s[|a| + |l| + 1 + i] == x;
    }
  }

  /** `s'` is `s` with `e` put in at position `i`. */
  ghost predicate AddedAt(s: seq<Node>, i: nat, e: Node, s': seq<Node>) {
    i <= |s| && s' == s[..i] + [e] + s[i..]
  }

  /** `s'` is `s` without its element at position `i`. */
  ghost predicate DroppedAt(s: seq<Node>, i: nat, s': seq<Node>) {
    i < |s| && s' == s[..i] + s[i + 1..]
  }

  /** What lies on either side of the search path lies on either side of `k`. */
  lemma {:induction false} DescendSplits(p: Path, t: Tree, k: int)
    requires Sorted(Inorder(Plug(p, t))) && AllBelow(Before(p), k) && AllAbove(After(p), k)
    ensures var z := Descend(p, t, k);
            && Plug(z.path, z.cur) == Plug(p, t)
            && AllBelow(Before(z.path), k) && AllAbove(After(z.path), k)
            && (z.cur.Br? ==> z.cur.n.key == k)
    decreases t
  {
    if t.Br? && t.n.key != k {
      PlugOrder(p, t);
      SortedMiddle(Before(p), Inorder(t.l), t.n, Inorder(t.r), After(p));
      if k < t.n.key {
        DescendSplits(InLeft(t.red, t.n, t.r, p), t.l, k);
      } else {
        DescendSplits(InRight(t.red, t.l, t.n, p), t.r, k);
      }
    }
  }

  /** The search finds an element exactly when its key is present. */
  lemma {:induction false} SearchFinds(t: Tree, k: int)
    requires Sorted(Inorder(t))
    ensures var z := Descend(Top, t, k);
            && (z.cur.Br? <==> exists n :: n in Inorder(t) && n.key == k)
            && (z.cur.Br? ==> z.cur.n in Inorder(t) && z.cur.n.key == k)
  {
    DescendSplits(Top, t, k);
    var z := Descend(Top, t, k);
    PlugOrder(z.path, z.cur);
  }

  lemma {:induction false} SortedInsert(a: seq<Node>, e: Node, b: seq<Node>)
    requires Sorted(a + b) && AllBelow(a, e.key) && AllAbove(b, e.key)
    ensures Sorted(a + [e] + b)
  {
    var s, t := a + [e] + b, a + b;
    assert forall i :: 0 <= i < |s| && i != |a| ==> s[i] == t[if i < |a| then i else i - 1];
    assert forall i :: 0 <= i < |a| ==> s[i] in a;
    assert forall i :: |a| < i < |s| ==> s[i] in b;
  }

  /** An absent key: the search stops at a gap, which the new element fills. */
  lemma {:induction false} InsertAbsent(t: Tree, e: Node) returns (a: seq<Node>, b: seq<Node>)
    requires RedBlack(t) && Sorted(Inorder(t)) && Descend(Top, t, e.key).cur.Leaf?
    ensures RedBlack(Inserted(t, e))
    ensures Inorder(t) == a + b && Inorder(Inserted(t, e)) == a + [e] + b
    ensures AllBelow(a, e.key) && AllAbove(b, e.key)
  {
    DescendSplits(Top, t, e.key);
    var z := Descend(Top, t, e.key);
    var h := UnplugRB(z.path, z.cur);
    var x := Br(true, Leaf, e, Leaf);
    InsertFixRB(z.path, x, h);
    InsertFixOrder(z.path, x);
    PlugOrder(z.path, z.cur);
    PlugOrder(z.path, x);
    a, b := Before(z.path), After(z.path);
    assert Inorder(x) == [e];
    assert a + [] + b == a + b;
  }

  /**
   * RB_INSERT keeps every red-black condition and the search order, and adds
   * exactly the new element; on an equal key it leaves the tree as it is.
   */
  lemma {:induction false} InsertRefines(t: Tree, e: Node)
    requires RedBlack(t) && Sorted(Inorder(t))
    ensures RedBlack(Inserted(t, e)) && Sorted(Inorder(Inserted(t, e)))
    ensures if exists n :: n in Inorder(t) && n.key == e.key then Inserted(t, e) == t
            else exists i: nat :: AddedAt(Inorder(t), i, e, Inorder(Inserted(t, e)))
  {
    SearchFinds(t, e.key);
    if Descend(Top, t, e.key).cur.Leaf? {
      var a, b := InsertAbsent(t, e);
      SortedInsert(a, e, b);
      assert AddedAt(Inorder(t), |a|, e, Inorder(Inserted(t, e)));
    }
  }

  lemma {:induction false} DescendPlug(p: Path, t: Tree, k: int)
    ensures var z := Descend(p, t, k); Plug(z.path, z.cur) == Plug(p, t)
    decreases t
  {
    if t.Br? && t.n.key != k {
      if k < t.n.key {
        DescendPlug(InLeft(t.red, t.n, t.r, p), t.l, k);
      } else {
        DescendPlug(InRight(t.red, t.l, t.n, p), t.r, k);
      }
    }
  }

  /** RB_INSERT keeps the red-black conditions, sorted or not. */
  lemma {:induction false} InsertedRB(t: Tree, e: Node)
    requires RedBlack(t)
    ensures RedBlack(Inserted(t, e))
  {
    DescendPlug(Top, t, e.key);
    var z := Descend(Top, t, e.key);
    if z.cur.Leaf? {
      var h := UnplugRB(z.path, z.cur);
      InsertFixRB(z.path, Br(true, Leaf, e, Leaf), h);
    }
  }

  /** `r` is the element of `s` with the key `k`, or null when there is none. */
  ghost predicate FoundIn(s: seq<Node>, k: int, r: Node?) {
    if r != null then r in s && r.key == k else forall n :: n in s ==> n.key != k
  }

  /** What RB_INSERT promises: nothing changes on an equal key, otherwise exactly `e` is added. */
  ghost predicate InsertAdds(s: seq<Node>, e: Node, s': seq<Node>, r: Node?) {
    && Sorted(s') && FoundIn(s, e.key, r)
    && if r != null then s' == s else exists i: nat :: AddedAt(s, i, e, s')
  }

  ghost function NodeOf(t: Tree): Node? {
    if t.Leaf? then null else t.n
  }

  lemma {:induction false} InsertAnswers(t: Tree, e: Node)
    requires RedBlack(t) && Sorted(Inorder(t))
    ensures InsertAdds(Inorder(t), e, Inorder(Inserted(t, e)), NodeOf(Descend(Top, t, e.key).cur))
  {
    SearchFinds(t, e.key);
    InsertRefines(t, e);
  }

  // ----------------------------------------------------------- RB_REMOVE_COLOR

  /** One turn of the RB_REMOVE_COLOR loop: finished, or on with a subtree further up. */
  datatype Turn = Done(tree: Tree) | Again(path: Path, cur: Tree)

  ghost function Outcome(a: Turn): Tree {
    match a
    case Done(u) => u
    case Again(q, u) => Plug(q, u)
  }

  /** A turn with a black sibling `s` on the right; `t` is one black node short. */
  ghost function TurnLeft(red: bool, t: Tree, n: Node, s: Tree, up: Path): Turn
    requires s.Br?
  {
    if !IsRed(s.l) && !IsRed(s.r) then
      Again(up, Br(red, t, n, s.(red := true)))
    else if !IsRed(s.r) then
      Done(Plug(up, Br(red, Br(false, t, n, s.l.l), s.l.n, Br(false, s.l.r, s.n, s.r))))
    else
      Done(Plug(up, Br(red, Br(false, t, n, s.l), s.n, Black(s.r))))
  }

  /** A turn with a black sibling `s` on the left. */
  ghost function TurnRight(red: bool, s: Tree, n: Node, t: Tree, up: Path): Turn
    requires s.Br?
  {
    if !IsRed(s.l) && !IsRed(s.r) then
      Again(up, Br(red, s.(red := true), n, t))
    else if !IsRed(s.l) then
      Done(Plug(up, Br(red, Br(false, s.l, s.n, s.r.l), s.r.n, Br(false, s.r.r, n, t))))
    else
      Done(Plug(up, Br(red, Black(s.l), s.n, Br(false, s.r, n, t))))
  }

  /** The sibling dereferenced by the code is not null, nor is its near child when it is red. */
  ghost predicate Siblings(p: Path) {
    match p
    case Top => false
    case InLeft(_, _, s, _) => s.Br? && (s.red ==> s.l.Br?)
    case InRight(_, s, _, _) => s.Br? && (s.red ==> s.r.Br?)
  }

  /** A turn at a path that is not at the top, with siblings where the code looks for them. */
  ghost function RemoveTurn(p: Path, t: Tree): Turn
    requires Siblings(p)
  {
    match p
    case InLeft(red, n, s, up) =>
      if s.red then TurnLeft(true, t, n, s.l, InLeft(false, s.n, s.r, up))
      else TurnLeft(red, t, n, s, up)
    case InRight(red, s, n, up) =>
      if s.red then TurnRight(true, s.r, n, t, InRight(false, s.l, s.n, up))
      else TurnRight(red, s, n, t, up)
  }

  /**
   * The tree RB_REMOVE_COLOR leaves behind, entered at the subtree `t`. Without
   * the siblings of a valid tree the code would follow a null pointer.
   */
  ghost function RemoveFix(p: Path, t: Tree): Tree
    decreases Length(p), if IsRed(t) then 0 else 1
  {
    if IsRed(t) || p.Top? then Plug(p, Black(t))
    else if !Siblings(p) then Plug(p, t)
    else
      match RemoveTurn(p, t)
      case Done(u) => Black(u)
      case Again(q, u) => RemoveFix(q, u)
  }

  lemma {:induction false} TurnLeftOrder(red: bool, t: Tree, n: Node, s: Tree, up: Path)
    requires s.Br?
    ensures Inorder(Outcome(TurnLeft(red, t, n, s, up))) == Inorder(Plug(up, Br(red, t, n, s)))
  {
    var was := Br(red, t, n, s);
    if !IsRed(s.l) && !IsRed(s.r) {
      SameOrder(up, was, Br(red, t, n, s.(red := true)));
    } else if !IsRed(s.r) {
      var mid := Br(red, t, n, Br(s.red, s.l.l, s.l.n, Br(s.red, s.l.r, s.n, s.r)));
      var now := Br(red, Br(false, t, n, s.l.l), s.l.n, Br(false, s.l.r, s.n, s.r));
      RotationOrder(s, mid.r);
      RotationOrder(now, mid);
      SameOrder(up, was, now);
    } else {
      var now := Br(red, Br(false, t, n, s.l), s.n, Black(s.r));
      RotationOrder(now, was);
      SameOrder(up, was, now);
    }
  }

  lemma {:induction false} TurnRightOrder(red: bool, s: Tree, n: Node, t: Tree, up: Path)
    requires s.Br?
    ensures Inorder(Outcome(TurnRight(red, s, n, t, up))) == Inorder(Plug(up, Br(red, s, n, t)))
  {
    var was := Br(red, s, n, t);
    if !IsRed(s.l) && !IsRed(s.r) {
      SameOrder(up, was, Br(red, s.(red := true), n, t));
    } else if !IsRed(s.l) {
      var mid := Br(red, Br(s.red, Br(s.red, s.l, s.n, s.r.l), s.r.n, s.r.r), n, t);
      var now := Br(red, Br(false, s.l, s.n, s.r.l), s.r.n, Br(false, s.r.r, n, t));
      RotationOrder(mid.l, s);
      RotationOrder(mid, now);
      SameOrder(up, was, now);
    } else {
      var now := Br(red, Black(s.l), s.n, Br(false, s.r, n, t));
      RotationOrder(was, now);
      SameOrder(up, was, now);
    }
  }

  lemma {:induction false} RemoveTurnOrder(p: Path, t: Tree)
    requires Siblings(p)
    ensures Inorder(Outcome(RemoveTurn(p, t))) == Inorder(Plug(p, t))
  {
    match p
    case InLeft(red, n, s, up) =>
      if s.red {
        TurnLeftOrder(true, t, n, s.l, InLeft(false, s.n, s.r, up));
        var now := Br(false, Br(true, t, n, s.l), s.n, s.r);
        RotationOrder(now, Br(red, t, n, s));
        SameOrder(up, Br(red, t, n, s), now);
      } else {
        TurnLeftOrder(red, t, n, s, up);
      }
    case InRight(red, s, n, up) =>
      if s.red {
        TurnRightOrder(true, s.r, n, t, InRight(false, s.l, s.n, up));
        var now := Br(false, s.l, s.n, Br(true, s.r, n, t));
        RotationOrder(Br(red, s, n, t), now);
        SameOrder(up, Br(red, s, n, t), now);
      } else {
        TurnRightOrder(red, s, n, t, up);
      }
  }

  lemma {:induction false} RemoveFixOrder(p: Path, t: Tree)
    ensures Inorder(RemoveFix(p, t)) == Inorder(Plug(p, t))
    decreases Length(p), if IsRed(t) then 0 else 1
  {
    if IsRed(t) || p.Top? {
      SameOrder(p, t, Black(t));
    } else if Siblings(p) {
      RemoveTurnOrder(p, t);
      match RemoveTurn(p, t)
      case Done(u) =>
      case Again(q, u) => RemoveFixOrder(q, u);
    }
  }

  /** `t` is one black node short of what its place calls for, or red and easily blackened. */
  ghost predicate Short(p: Path, t: Tree, h: nat) {
    RBPath(p, h + 1) && if IsRed(t) then RB(Black(t), h + 1) else RB(t, h)
  }

  /** In a valid tree the sibling of a short subtree exists when it is dereferenced. */
  lemma ShortHasSiblings(p: Path, t: Tree, h: nat)
    requires Short(p, t, h) && !p.Top?
    ensures Siblings(p)
  {
    match p
    case InLeft(_, _, s, _) =>
      assert RB(s, h + 1);
      if s.red { assert RB(s.l, h + 1); }
    case InRight(_, s, _, _) =>
      assert RB(s, h + 1);
      if s.red { assert RB(s.r, h + 1); }
  }

  lemma {:induction false} TurnLeftRB(red: bool, t: Tree, n: Node, s: Tree, up: Path, h: nat)
    requires RB(t, h) && !IsRed(t) && s.Br? && !s.red && RB(s, h + 1)
    requires RBPath(up, if red then h + 1 else h + 2) && (red ==> !up.Top? && !up.red)
    ensures match TurnLeft(red, t, n, s, up)
            case Done(u) => RedBlack(u)
            case Again(q, u) => Short(q, u, if red then h else h + 1)
  {
    if !IsRed(s.l) && !IsRed(s.r) {
    } else if !IsRed(s.r) {
      PlugRB(up, Br(red, Br(false, t, n, s.l.l), s.l.n, Br(false, s.l.r, s.n, s.r)), if red then h + 1 else h + 2);
    } else {
      PlugRB(up, Br(red, Br(false, t, n, s.l), s.n, Black(s.r)), if red then h + 1 else h + 2);
    }
  }

  lemma {:induction false} TurnRightRB(red: bool, s: Tree, n: Node, t: Tree, up: Path, h: nat)
    requires RB(t, h) && !IsRed(t) && s.Br? && !s.red && RB(s, h + 1)
    requires RBPath(up, if red then h + 1 else h + 2) && (red ==> !up.Top? && !up.red)
    ensures match TurnRight(red, s, n, t, up)
            case Done(u) => RedBlack(u)
            case Again(q, u) => Short(q, u, if red then h else h + 1)
  {
    if !IsRed(s.l) && !IsRed(s.r) {
    } else if !IsRed(s.l) {
      PlugRB(up, Br(red, Br(false, s.l, s.n, s.r.l), s.r.n, Br(false, s.r.r, n, t)), if red then h + 1 else h + 2);
    } else {
      PlugRB(up, Br(red, Black(s.l), s.n, Br(false, s.r, n, t)), if red then h + 1 else h + 2);
    }
  }

  lemma {:induction false} RemoveTurnRB(p: Path, t: Tree, h: nat)
    requires Short(p, t, h) && !IsRed(t) && Siblings(p)
    ensures match RemoveTurn(p, t)
            case Done(u) => RedBlack(u)
            case Again(q, u) => exists g: nat :: Short(q, u, g)
  {
    match p
    case InLeft(red, n, s, up) =>
      if s.red {
        TurnLeftRB(true, t, n, s.l, InLeft(false, s.n, s.r, up), h);
      } else {
        TurnLeftRB(red, t, n, s, up, h);
      }
    case InRight(red, s, n, up) =>
      if s.red {
        TurnRightRB(true, s.r, n, t, InRight(false, s.l, s.n, up), h);
      } else {
        TurnRightRB(red, s, n, t, up, h);
      }
  }

  /** Every short subtree of an otherwise valid tree is repaired. */
  lemma {:induction false} RemoveFixRB(p: Path, t: Tree, h: nat)
    requires Short(p, t, h)
    ensures RedBlack(RemoveFix(p, t))
    decreases Length(p), if IsRed(t) then 0 else 1
  {
    if IsRed(t) {
      PlugRB(p, Black(t), h + 1);
    } else if p.Top? {
      PlugRB(p, t, h);
    } else {
      ShortHasSiblings(p, t, h);
      RemoveTurnRB(p, t, h);
      match RemoveTurn(p, t)
      case Done(u) =>
      case Again(q, u) =>
        var g: nat :| Short(q, u, g);
        RemoveFixRB(q, u, g);
    }
  }

  // ----------------------------------------------------------------- RB_REMOVE

  /** The leftmost node below `t`, reached from the path `q`. */
  ghost function MinZip(q: Path, t: Tree): (z: Zip)
    requires t.Br?
    ensures z.cur.Br? && z.cur.l.Leaf?
    decreases t
  {
    if t.l.Leaf? then Zip(q, t) else MinZip(InLeft(t.red, t.n, t.r, q), t.l)
  }

  /** A node with at most one child is replaced by that child. */
  ghost function Unlinked(p: Path, red: bool, child: Tree): Tree {
    if red then Plug(p, child) else RemoveFix(p, child)
  }

  /** The tree RB_REMOVE leaves behind after removing the root of `t`. */
  ghost function Removed(p: Path, t: Tree): Tree
    requires t.Br?
  {
    if t.l.Leaf? then Unlinked(p, t.red, t.r)
    else if t.r.Leaf? then Unlinked(p, t.red, t.l)
    else
      var next := MinZip(Top, t.r).cur.n;
      var z := MinZip(InRight(t.red, t.l, next, p), t.r);
      Unlinked(z.path, z.cur.red, z.cur.r)
  }

  lemma {:induction false} MinZipOrder(q: Path, t: Tree)
    requires t.Br?
    ensures var z := MinZip(q, t);
            && Before(z.path) == Before(q)
            && [z.cur.n] + Inorder(z.cur.r) + After(z.path) == Inorder(t) + After(q)
    decreases t
  {
    if t.l.Br? {
      MinZipOrder(InLeft(t.red, t.n, t.r, q), t.l);
      Assoc([], Inorder(t.l), [t.n], Inorder(t.r), After(q));
    }
  }

  /** The successor found does not depend on the path it is reached from. */
  lemma {:induction false} MinZipSame(q: Path, q': Path, t: Tree)
    requires t.Br?
    ensures MinZip(q, t).cur == MinZip(q', t).cur
    decreases t
  {
    if t.l.Br? { MinZipSame(InLeft(t.red, t.n, t.r, q), InLeft(t.red, t.n, t.r, q'), t.l); }
  }

  lemma {:induction false} MinZipFits(q: Path, t: Tree, h: nat) returns (g: nat)
    requires t.Br? && FitsHole(q, t, h)
    ensures var z := MinZip(q, t); FitsHole(z.path, z.cur, g)
    decreases t
  {
    g := h;
    if t.l.Br? { g := MinZipFits(InLeft(t.red, t.n, t.r, q), t.l, if t.red then h else h - 1); }
  }

  lemma UnlinkedOrder(p: Path, red: bool, child: Tree)
    ensures Inorder(Unlinked(p, red, child)) == Before(p) + Inorder(child) + After(p)
  {
    PlugOrder(p, child);
    RemoveFixOrder(p, child);
  }

  /** A black node replaced by its only child leaves that child one short. */
  lemma {:induction false} OnlyChildShort(p: Path, t: Tree, child: Tree, h: nat)
    requires t.Br? && !t.red && FitsHole(p, t, h)
    requires (t.l.Leaf? && child == t.r) || (t.r.Leaf? && child == t.l)
    ensures h > 0 && Short(p, child, h - 1)
  {
    assert RB(child, h - 1);
    if IsRed(child) { assert RB(Black(child), h); }
  }

  lemma {:induction false} UnlinkedRB(p: Path, t: Tree, child: Tree, h: nat)
    requires t.Br? && FitsHole(p, t, h)
    requires (t.l.Leaf? && child == t.r) || (t.r.Leaf? && child == t.l)
    ensures RedBlack(Unlinked(p, t.red, child))
  {
    if t.red {
      PlugRB(p, child, h);
    } else {
      OnlyChildShort(p, t, child, h);
      RemoveFixRB(p, child, h - 1);
    }
  }

  /** RB_REMOVE of any member of a valid tree gives a valid tree ... */
  lemma {:induction false} RemovedRB(p: Path, t: Tree)
    requires t.Br? && RedBlack(Plug(p, t))
    ensures RedBlack(Removed(p, t))
  {
    var h := UnplugRB(p, t);
    if t.l.Leaf? {
      UnlinkedRB(p, t, t.r, h);
    } else if t.r.Leaf? {
      UnlinkedRB(p, t, t.l, h);
    } else {
      var q := InRight(t.red, t.l, MinZip(Top, t.r).cur.n, p);
      var g := MinZipFits(q, t.r, if t.red then h else h - 1);
      var z := MinZip(q, t.r);
      UnlinkedRB(z.path, z.cur, z.cur.r, g);
    }
  }

  /** Moving the successor into the removed node's place closes the gap. */
  lemma {:induction false} SuccessorOrder(p: Path, t: Tree)
    requires t.Br? && t.l.Br? && t.r.Br?
    ensures Inorder(Removed(p, t)) == Before(p) + Inorder(t.l) + (Inorder(t.r) + After(p))
  {
    var next := MinZip(Top, t.r).cur.n;
    var q := InRight(t.red, t.l, next, p);
    var z := MinZip(q, t.r);
    MinZipOrder(q, t.r);
    MinZipSame(Top, q, t.r);
    UnlinkedOrder(z.path, z.cur.red, z.cur.r);
    var a, x, y := Before(p) + Inorder(t.l), Inorder(z.cur.r), After(z.path);
    assert (a + [next]) + x + y == a + ([next] + x + y);
  }

  /** ... that holds exactly the other elements, in their old order. */
  lemma {:induction false} RemovedOrder(p: Path, t: Tree)
    requires t.Br?
    ensures var a, b := Before(p) + Inorder(t.l), Inorder(t.r) + After(p);
            && Inorder(Plug(p, t)) == a + [t.n] + b
            && Inorder(Removed(p, t)) == a + b
  {
    PlugOrder(p, t);
    Assoc(Before(p), Inorder(t.l), [t.n], Inorder(t.r), After(p));
    if t.l.Leaf? {
      UnlinkedOrder(p, t.red, t.r);
      assert Before(p) + Inorder(t.r) + After(p) == Before(p) + Inorder(t.l) + (Inorder(t.r) + After(p));
    } else if t.r.Leaf? {
      UnlinkedOrder(p, t.red, t.l);
      assert Before(p) + Inorder(t.l) + After(p) == Before(p) + Inorder(t.l) + (Inorder(t.r) + After(p));
    } else {
      SuccessorOrder(p, t);
    }
  }

  /** A tree with its leftmost node replaced by that node's right subtree. */
  ghost function WithoutMin(t: Tree): Tree
    requires t.Br?
  {
    if t.l.Leaf? then t.r else Br(t.red, WithoutMin(t.l), t.n, t.r)
  }

  lemma {:induction false} MinZipPlug(q: Path, t: Tree)
    requires t.Br?
    ensures var z := MinZip(q, t);
            Plug(z.path, z.cur) == Plug(q, t) && Plug(z.path, z.cur.r) == Plug(q, WithoutMin(t))
    decreases t
  {
    if t.l.Br? { MinZipPlug(InLeft(t.red, t.n, t.r, q), t.l); }
  }

  /** The parent of the leftmost node lies inside the tree, unless the root is that node. */
  lemma {:induction false} MinZipParent(q: Path, q': Path, t: Tree)
    requires t.Br?
    ensures if t.l.Leaf? then MinZip(q, t) == Zip(q, t)
            else var a, b := MinZip(q, t).path, MinZip(q', t).path;
                 !a.Top? && !b.Top? && a.n == b.n && a.n in Inorder(t)
    decreases t
  {
    if t.l.Br? { MinZipParent(InLeft(t.red, t.n, t.r, q), InLeft(t.red, t.n, t.r, q'), t.l); }
  }

  /** Every element of a tree can be looked at in place. */
  lemma {:induction false} Locate(t: Tree, n: Node, q: Path) returns (p: Path, u: Tree)
    requires n in Inorder(t)
    ensures u.Br? && u.n == n && Plug(p, u) == Plug(q, t)
    decreases t
  {
    if t.n == n {
      p, u := q, t;
    } else if n in Inorder(t.l) {
      p, u := Locate(t.l, n, InLeft(t.red, t.n, t.r, q));
    } else {
      p, u := Locate(t.r, n, InRight(t.red, t.l, t.n, q));
    }
  }

  lemma {:induction false} MinZipMember(q: Path, t: Tree)
    requires t.Br?
    ensures MinZip(q, t).cur.n in Inorder(t)
    decreases t
  {
    if t.l.Br? { MinZipMember(InLeft(t.red, t.n, t.r, q), t.l); }
  }

  // --------------------------------------------------- whole runs of operations

  datatype Op = Insert(e: Node) | Remove(key: int)

  /** RB_INSERT, or RB_FIND followed by RB_REMOVE of what it found. */
  ghost function Apply(t: Tree, op: Op): Tree {
    match op
    case Insert(e) => Inserted(t, e)
    case Remove(k) =>
      var z := Descend(Top, t, k);
      if z.cur.Leaf? then t else Removed(z.path, z.cur)
  }

  ghost function Run(ops: seq<Op>): Tree {
    if ops == [] then Leaf else Apply(Run(ops[..|ops| - 1]), ops[|ops| - 1])
  }

  lemma {:induction false} Drop(a: seq<Node>, e: Node, b: seq<Node>)
    requires Sorted(a + [e] + b)
    ensures Sorted(a + b)
    ensures DroppedAt(a + [e] + b, |a|, a + b) && (a + [e] + b)[|a|] == e
  {
    var s, t := a + [e] + b, a + b;
    assert s[..|a|] == a && s[|a| + 1..] == b;
    assert forall i :: 0 <= i < |t| ==> t[i] == s[if i < |a| then i else i + 1];
  }

  lemma {:induction false} RemoveFound(p: Path, t: Tree)
    requires t.Br? && RedBlack(Plug(p, t)) && Sorted(Inorder(Plug(p, t)))
    ensures RedBlack(Removed(p, t)) && Sorted(Inorder(Removed(p, t)))
    ensures var s, i := Inorder(Plug(p, t)), |Before(p) + Inorder(t.l)|;
            DroppedAt(s, i, Inorder(Removed(p, t))) && s[i] == t.n
  {
    RemovedRB(p, t);
    RemovedOrder(p, t);
    Drop(Before(p) + Inorder(t.l), t.n, Inorder(t.r) + After(p));
  }

  /** What RB_REMOVE promises: exactly `e` is gone. */
  ghost predicate RemoveDrops(s: seq<Node>, e: Node, s': seq<Node>) {
    Sorted(s') && exists i: nat :: DroppedAt(s, i, s') && s[i] == e
  }

  /** RB_REMOVE of a key: valid, sorted, and the same elements but the one with that key. */
  lemma {:induction false} RemoveRefines(t: Tree, k: int)
    requires RedBlack(t) && Sorted(Inorder(t))
    ensures RedBlack(Apply(t, Remove(k))) && Sorted(Inorder(Apply(t, Remove(k))))
    ensures if exists n :: n in Inorder(t) && n.key == k
            then exists i: nat :: DroppedAt(Inorder(t), i, Inorder(Apply(t, Remove(k)))) && Inorder(t)[i].key == k
            else Apply(t, Remove(k)) == t
  {
    SearchFinds(t, k);
    DescendSplits(Top, t, k);
    var z := Descend(Top, t, k);
    if z.cur.Br? { RemoveFound(z.path, z.cur); }
  }

  /**
   * Every tree built by inserts and removes satisfies the red-black
   * conditions, is in search order and is at most 2 lg (n + 1) high.
   */
  lemma {:induction false} RunValid(ops: seq<Op>)
    ensures RedBlack(Run(ops)) && Sorted(Inorder(Run(ops)))
    ensures var n := |Inorder(Run(ops))|; Pow2(Height(Run(ops))) <= (n + 1) * (n + 1)
  {
    if ops == [] {
      assert RB(Leaf, 0);
    } else {
      var t, op := Run(ops[..|ops| - 1]), ops[|ops| - 1];
      RunValid(ops[..|ops| - 1]);
      match op
      case Insert(e) => InsertRefines(t, e);
      case Remove(k) => RemoveRefines(t, k);
    }
    HeightBound(Run(ops));
  }
}
