/**
  The red-black index on the heap: parent-pointer nodes rewritten in place by rotations,
  insertion and the insert fixup, each proved against the trees of RedBlack.
 */
module RedBlackIndex {
  import opened Common
  import opened RedBlack

  // ------------------------------------------------ trees and paths in memory

  function RefOf(t: Tree): RbNode? { if t.Leaf? then null else t.tag.ref }

  /** The objects carry exactly this tree, every child pointing back to its parent. */
  ghost predicate Linked(t: Tree, parent: RbNode?)
    reads Refs(t)
  {
    t.Node? ==>
      var n := t.tag.ref;
      && Carries(n, t.tag) && n.left == RefOf(t.left) && n.right == RefOf(t.right) && n.parent == parent
      && Linked(t.left, n) && Linked(t.right, n)
  }

  ghost predicate Carries(n: RbNode, tag: Tag)
    reads n
  {
    n == tag.ref && n.color == tag.color && n.hash == tag.hash && n.list == tag.list
  }

  ghost function PathRefs(path: Path): set<RbNode> {
    if path.Top? then {} else {path.frame.tag.ref} + Refs(path.frame.sibling) + PathRefs(path.up)
  }

  /** The node just above the hole. */
  function Above(path: Path): RbNode? { if path.Top? then null else path.frame.tag.ref }

  ghost predicate LinkedPath(path: Path, child: RbNode?)
    reads PathRefs(path)
  {
    path.Hole? ==>
      var f := path.frame;
      var n := f.tag.ref;
      && Carries(n, f.tag) && n.parent == Above(path.up)
      && (if f.isLeft then n.left == child && n.right == RefOf(f.sibling)
        else n.right == child && n.left == RefOf(f.sibling))
      && Linked(f.sibling, n) && LinkedPath(path.up, n)
  }

  ghost predicate DistinctPath(path: Path) {
    path.Hole? ==>
      var f := path.frame;
      && Distinct(f.sibling) && f.tag.ref !in Refs(f.sibling) && f.tag.ref !in PathRefs(path.up)
      && Refs(f.sibling) !! PathRefs(path.up) && DistinctPath(path.up)
  }

  ghost predicate Apart(path: Path, t: Tree) {
    Distinct(t) && DistinctPath(path) && PathRefs(path) !! Refs(t)
  }

  ghost function All(path: Path, t: Tree): set<RbNode> { PathRefs(path) + Refs(t) }

  /** Memory holds the tree `Plug(path, t)`, seen from the hole. */
  ghost predicate At(path: Path, t: Tree)
    reads All(path, t)
  {
    Apart(path, t) && Linked(t, Above(path)) && LinkedPath(path, RefOf(t))
  }

  /** Moving the view one level up changes nothing in memory. */
  lemma UpDown(f: Frame, up: Path, t: Tree)
    ensures All(up, Close(f, t)) == All(Hole(f, up), t)
    ensures At(up, Close(f, t)) <==> At(Hole(f, up), t)
  {}

  lemma {:induction false} ToRoot(path: Path, t: Tree)
    ensures At(Top, Plug(path, t)) <==> At(path, t)
    ensures All(Top, Plug(path, t)) == All(path, t)
  {
    if path.Hole? {
      UpDown(path.frame, path.up, t);
      ToRoot(path.up, Close(path.frame, t));
    }
  }

  /** The root object is the subtree's own only when there is nothing above it. */
  lemma {:induction false} RootAbove(path: Path, t: Tree, u: Tree)
    requires t.Node? && u.Node?
    ensures path.Top? ==> RefOf(Plug(path, t)) == RefOf(t)
    ensures path.Hole? ==> RefOf(Plug(path, t)) == RefOf(Plug(path, u)) && RefOf(Plug(path, t)) in PathRefs(path)
  {
    if path.Hole? { RootAbove(path.up, Close(path.frame, t), Close(path.frame, u)); }
  }

  // --------------------------------------------------------- pointer surgery

  /** Points a subtree at a new parent. */
  method Reparent(n: RbNode?, parent: RbNode, ghost t: Tree, ghost was: RbNode?)
    requires n == RefOf(t) && Linked(t, was) && Distinct(t) && parent !in Refs(t)
    modifies if n != null then {n} else {}
    ensures Linked(t, parent)
    ensures n != null ==> n.left == old(n.left) && n.right == old(n.right)
  {
    if n != null { n.parent := parent; }
  }

  /** Replaces the child below the path; returns the root. */
  method Redirect(root: RbNode, x: RbNode, y: RbNode, parent: RbNode?, ghost path: Path) returns (r: RbNode)
    requires DistinctPath(path) && LinkedPath(path, x) && parent == Above(path) && x !in PathRefs(path)
    modifies if parent != null then {parent} else {}
    ensures LinkedPath(path, y) && (r == if path.Top? then y else root)
    ensures parent != null ==> parent.color == old(parent.color)
  {
    r := root;
    if parent == null {
      r := y;
    } else if x == parent.left {
      parent.left := y;
    } else {
      parent.right := y;
    }
  }

  /** Two nodes, one the child of the other, and the three subtrees below them, none sharing an object with another. */
  ghost predicate Pieces(x: RbNode, y: RbNode, a: Tree, b: Tree, c: Tree, path: Path) {
    && x != y && Distinct(a) && Distinct(b) && Distinct(c) && DistinctPath(path)
    && x !in Refs(a) && x !in Refs(b) && x !in Refs(c) && x !in PathRefs(path)
    && y !in Refs(a) && y !in Refs(b) && y !in Refs(c) && y !in PathRefs(path)
    && Refs(a) !! Refs(b) && Refs(a) !! Refs(c) && Refs(b) !! Refs(c)
    && Refs(a) !! PathRefs(path) && Refs(b) !! PathRefs(path) && Refs(c) !! PathRefs(path)
  }

  lemma RightPieces(path: Path, t: Tree)
    requires t.Node? && t.right.Node?
    ensures Apart(path, t) <==> Pieces(t.tag.ref, t.right.tag.ref, t.left, t.right.left, t.right.right, path)
  {
    assert Refs(t.right) == {t.right.tag.ref} + Refs(t.right.left) + Refs(t.right.right);
    assert Distinct(t.right) <==> Distinct(Node(t.right.left, t.right.tag, t.right.right));
  }

  lemma LeftPieces(path: Path, t: Tree)
    requires t.Node? && t.left.Node?
    ensures Apart(path, t) <==> Pieces(t.tag.ref, t.left.tag.ref, t.left.left, t.left.right, t.right, path)
  {
    assert Refs(t.left) == {t.left.tag.ref} + Refs(t.left.left) + Refs(t.left.right);
    assert Distinct(t.left) <==> Distinct(Node(t.left.left, t.left.tag, t.left.right));
  }

  lemma PiecesApart(x: RbNode, y: RbNode, a: Tree, b: Tree, c: Tree, path: Path)
    requires Pieces(x, y, a, b, c, path)
    ensures b.Node? ==> b.tag.ref in Refs(b) && b.tag.ref !in {x, y} + Refs(a) + Refs(c) + PathRefs(path)
    ensures path.Hole? ==> Above(path) in PathRefs(path) && Above(path) !in {x, y} + Refs(a) + Refs(b) + Refs(c)
  {}

  /** Lifts `y` into the place of `x` below the path, then hangs `x` under it on the given side. */
  method Hoist(root: RbNode, x: RbNode, y: RbNode, xUnderLeft: bool, ghost path: Path) returns (r: RbNode)
    requires DistinctPath(path) && LinkedPath(path, x) && x.parent == Above(path) && x != y
    requires x !in PathRefs(path) && y !in PathRefs(path) && (path.Hole? ==> Above(path) in PathRefs(path))
    modifies {x, y} + (if x.parent != null then {x.parent} else {})
    ensures LinkedPath(path, y) && x.parent == y && y.parent == Above(path) && (r == if path.Top? then y else root)
    ensures x.left == old(x.left) && x.right == old(x.right)
    ensures if xUnderLeft then y.left == x && y.right == old(y.right) else y.right == x && y.left == old(y.left)
    ensures SameTag(x, old(x.color), old(x.hash), old(x.list)) && SameTag(y, old(y.color), old(y.hash), old(y.list))
  {
    hide PathRefs;
    hide LinkedPath;
    hide DistinctPath;
    assert allocated(PathRefs(path));
    y.parent := x.parent;
    r := Redirect(root, x, y, x.parent, path);
    if xUnderLeft { y.left := x; } else { y.right := x; }
    x.parent := y;
  }

  /** The pointer writes of a left rotation: `y`, the right child of `x`, takes its place. */
  method LeftPointers(root: RbNode, x: RbNode, y: RbNode, ghost path: Path, ghost a: Tree, ghost b: Tree, ghost c: Tree)
    returns (r: RbNode)
    requires Pieces(x, y, a, b, c, path)
    requires Linked(a, x) && Linked(b, y) && Linked(c, y) && LinkedPath(path, x)
    requires x.left == RefOf(a) && x.right == y && y.left == RefOf(b) && y.right == RefOf(c) && x.parent == Above(path)
    modifies x, y, Refs(b), PathRefs(path)
    ensures Linked(a, x) && Linked(b, x) && Linked(c, y) && LinkedPath(path, y)
    ensures x.left == RefOf(a) && x.right == RefOf(b) && y.left == x && y.right == RefOf(c) && x.parent == y
    ensures y.parent == Above(path)
    ensures SameTag(x, old(x.color), old(x.hash), old(x.list)) && SameTag(y, old(y.color), old(y.hash), old(y.list))
    ensures r == if path.Top? then y else root
  {
    hide Refs;
    hide PathRefs;
    hide Linked;
    hide LinkedPath;
    hide Distinct;
    hide DistinctPath;
    PiecesApart(x, y, a, b, c, path);
    assert allocated(Refs(a)) && allocated(Refs(b)) && allocated(Refs(c)) && allocated(PathRefs(path));
    x.right := y.left;
    Reparent(y.left, x, b, y);
    r := Hoist(root, x, y, true, path);
  }

  predicate SameTag(n: RbNode, color: Color, hash: nat, list: ListNode)
    reads n
  {
    n.color == color && n.hash == hash && n.list == list
  }

  method LeftRotate(root: RbNode, x: RbNode, ghost path: Path, ghost t: Tree) returns (r: RbNode)
    requires t.Node? && t.right.Node? && x == t.tag.ref && At(path, t)
    requires root == RefOf(Plug(path, t))
    modifies All(path, t)
    ensures At(path, RotateLeft(t)) && r == RefOf(Plug(path, RotateLeft(t)))
    ensures All(path, RotateLeft(t)) == All(path, t)
  {
    RightPieces(path, t);
    LeftPieces(path, RotateLeft(t));
    RootAbove(path, t, RotateLeft(t));
    ghost var y := t.right.tag.ref;
    assert Linked(t.right, x);
    assert All(path, t) == {x, y} + Refs(t.left) + Refs(t.right.left) + Refs(t.right.right) + PathRefs(path);
    assert All(path, RotateLeft(t)) == All(path, t);
    r := LeftPointers(root, x, x.right, path, t.left, t.right.left, t.right.right);
    assert Linked(RotateLeft(t).left, y);
  }

  /** The pointer writes of a right rotation: `x`, the left child of `y`, takes its place. */
  method RightPointers(root: RbNode, y: RbNode, x: RbNode, ghost path: Path, ghost a: Tree, ghost b: Tree,
                       ghost c: Tree)
    returns (r: RbNode)
    requires Pieces(y, x, a, b, c, path)
    requires Linked(a, x) && Linked(b, x) && Linked(c, y) && LinkedPath(path, y)
    requires y.left == x && y.right == RefOf(c) && x.left == RefOf(a) && x.right == RefOf(b) && y.parent == Above(path)
    modifies x, y, Refs(b), PathRefs(path)
    ensures Linked(a, x) && Linked(b, y) && Linked(c, y) && LinkedPath(path, x)
    ensures x.left == RefOf(a) && x.right == y && y.left == RefOf(b) && y.right == RefOf(c) && y.parent == x
    ensures x.parent == Above(path)
    ensures SameTag(x, old(x.color), old(x.hash), old(x.list)) && SameTag(y, old(y.color), old(y.hash), old(y.list))
    ensures r == if path.Top? then x else root
  {
    hide Refs;
    hide PathRefs;
    hide Linked;
    hide LinkedPath;
    hide Distinct;
    hide DistinctPath;
    PiecesApart(y, x, a, b, c, path);
    assert allocated(Refs(a)) && allocated(Refs(b)) && allocated(Refs(c)) && allocated(PathRefs(path));
    y.left := x.right;
    Reparent(x.right, y, b, x);
    r := Hoist(root, y, x, false, path);
  }

  method RightRotate(root: RbNode, y: RbNode, ghost path: Path, ghost t: Tree) returns (r: RbNode)
    requires t.Node? && t.left.Node? && y == t.tag.ref && At(path, t)
    requires root == RefOf(Plug(path, t))
    modifies All(path, t)
    ensures At(path, RotateRight(t)) && r == RefOf(Plug(path, RotateRight(t)))
    ensures All(path, RotateRight(t)) == All(path, t)
  {
    LeftPieces(path, t);
    RightPieces(path, RotateRight(t));
    RootAbove(path, t, RotateRight(t));
    ghost var x := t.left.tag.ref;
    assert Linked(t.left, y);
    assert All(path, t) == {x, y} + Refs(t.left.left) + Refs(t.left.right) + Refs(t.right) + PathRefs(path);
    assert All(path, RotateRight(t)) == All(path, t);
    r := RightPointers(root, y, y.left, path, t.left.left, t.left.right, t.right);
    assert Linked(RotateRight(t).right, x);
  }

  // ------------------------------------------------------------ insert fixup

  function Painted(t: Tree, c: Color): Tree { if t.Leaf? then t else Node(t.left, Paint(t.tag, c), t.right) }

  method SetColor(n: RbNode, c: Color, ghost path: Path, ghost t: Tree)
    requires t.Node? && n == t.tag.ref && At(path, t)
    modifies n
    ensures At(path, Painted(t, c)) && All(path, Painted(t, c)) == All(path, t)
    ensures RefOf(Plug(path, Painted(t, c))) == RefOf(Plug(path, t))
  {
    RootAbove(path, t, Painted(t, c));
    assert allocated(All(path, t));
    n.color := c;
  }

  /** The other child of a frame, seen as the hole. */
  function Flip(f: Frame, t: Tree): Frame { Frame(!f.isLeft, f.tag, t) }

  lemma FlipCloses(f: Frame, t: Tree)
    ensures Close(Flip(f, t), f.sibling) == Close(f, t)
  {}

  /** Red uncle: repaint parent, uncle and grandparent, and go on from the grandparent. */
  method Repaint(z: RbNode, ghost path: Path, ghost t: Tree) returns (g: RbNode)
    requires t.Node? && z == t.tag.ref && At(path, t)
    requires path.Hole? && path.up.Hole? && path.up.frame.sibling.Node?
    modifies All(path, t)
    ensures var r := Recolored(Close(path.up.frame, Close(path.frame, t)));
            && At(path.up.up, r) && g == r.tag.ref && All(path.up.up, r) == All(path, t)
            && RefOf(Plug(path.up.up, r)) == RefOf(Plug(path, t))
  {
    hide At;
    hide All;
    ghost var f, gf, up := path.frame, path.up.frame, path.up.up;
    ghost var p, u := Close(f, t), gf.sibling;
    UpDown(f, path.up, t);
    ParentRefs(path, t);
    var parent := z.parent;
    g := parent.parent;
    var uncle := if parent == g.left then g.right else g.left;
    SetColor(parent, Black, path.up, p);
    ghost var p' := Painted(p, Black);
    FlipCloses(gf, p');
    UpDown(gf, up, p');
    UpDown(Flip(gf, p'), up, u);
    assert path.up == Hole(gf, up);
    SetColor(uncle, Black, Hole(Flip(gf, p'), up), u);
    ghost var u' := Painted(u, Black);
    UpDown(Flip(gf, p'), up, u');
    SetColor(g, Red, up, Close(Flip(gf, p'), u'));
  }

  /** The objects around a red-red edge: parent, grandparent and uncle. */
  lemma ParentRefs(path: Path, t: Tree)
    requires t.Node? && At(path, t) && path.Hole? && path.up.Hole?
    ensures var z, f, g := t.tag.ref, path.frame, path.up.frame;
            var p, gp := f.tag.ref, g.tag.ref;
            && z in All(path, t) && p in All(path, t) && gp in All(path, t)
            && z.parent == p && p.parent == gp && p.color == f.tag.color
            && (g.isLeft <==> p == gp.left)
            && (if g.isLeft then gp.right else gp.left) == RefOf(g.sibling)
            && (g.sibling.Node? ==> g.sibling.tag.ref in All(path, t) && g.sibling.tag.ref.color == g.sibling.tag.color)
            && (f.isLeft ==> p.left == z && p.right != z) && (!f.isLeft ==> p.right == z && p.left != z)
  {
    var f, g := path.frame, path.up.frame;
    assert LinkedPath(path.up, f.tag.ref) && Linked(g.sibling, g.tag.ref) && Linked(f.sibling, f.tag.ref);
    assert PathRefs(path.up) == {g.tag.ref} + Refs(g.sibling) + PathRefs(path.up.up);
    assert f.sibling.Node? ==> f.sibling.tag.ref in Refs(f.sibling);
    assert g.sibling.Node? ==> g.sibling.tag.ref in Refs(g.sibling);
    assert t.tag.ref in Refs(t);
  }

  /** Black uncle: turn the red edge outwards if needed, then rotate the grandparent down. */
  method Rebalance(root: RbNode, z0: RbNode, ghost path: Path, ghost t: Tree) returns (r: RbNode, z: RbNode)
    requires t.Node? && z0 == t.tag.ref && At(path, t) && root == RefOf(Plug(path, t))
    requires path.Hole? && path.up.Hole?
    modifies All(path, t)
    ensures var s := Settled(path.up.frame, Straightened(path.frame, path.up.frame.isLeft, t));
            && At(path.up.up, s) && r == RefOf(Plug(path.up.up, s)) && All(path.up.up, s) == All(path, t)
            && z == (if path.up.frame.isLeft then s.left.tag.ref else s.right.tag.ref)
  {
    hide At;
    hide All;
    hide Refs;
    ghost var f, g, up := path.frame, path.up.frame, path.up.up;
    ghost var p := Close(f, t);
    UpDown(f, path.up, t);
    ParentRefs(path, t);
    r, z := root, z0;
    var parent := z.parent;
    var grand := parent.parent;
    var onLeft := parent == grand.left;
    if onLeft {
      if z == parent.right {
        z := parent;
        r := LeftRotate(r, z, path.up, p);
      }
    } else {
      if z == parent.left {
        z := parent;
        r := RightRotate(r, z, path.up, p);
      }
    }
    ghost var s := Straightened(f, g.isLeft, t);
    assert path.up == Hole(g, up);
    OuterChild(path.up, s);
    parent := z.parent;
    grand := parent.parent;
    SetColor(parent, Black, path.up, s);
    UpDown(g, up, Painted(s, Black));
    SetColor(grand, Red, up, Close(g, Painted(s, Black)));
    ghost var turned := Painted(Close(g, Painted(s, Black)), Red);
    if onLeft { r := RightRotate(r, grand, up, turned); } else { r := LeftRotate(r, grand, up, turned); }
  }

  /** The children and the parent of the node at the hole. */
  lemma OuterChild(path: Path, t: Tree)
    requires t.Node? && At(path, t) && path.Hole?
    ensures var n := t.tag.ref;
            && n in All(path, t) && n.parent == path.frame.tag.ref && path.frame.tag.ref in All(path, t)
            && (t.left.Node? ==> t.left.tag.ref in All(path, t) && t.left.tag.ref.parent == n)
            && (t.right.Node? ==> t.right.tag.ref in All(path, t) && t.right.tag.ref.parent == n)
  {
    assert Linked(t.left, t.tag.ref) && Linked(t.right, t.tag.ref);
    assert t.left.Node? ==> t.left.tag.ref in Refs(t.left);
    assert t.right.Node? ==> t.right.tag.ref in Refs(t.right);
  }

  // ------------------------------------------------------------ insert fixup

  /** After the last rotation the red child sits below a black node and the fixup is over. */
  lemma AfterRebalance(path: Path, t: Tree)
    requires IsRed(t) && Balanced(t) && PathBalanced(path, BlackHeight(t))
    requires path.Hole? && path.frame.tag.color == Red && !IsRed(path.up.frame.sibling)
    ensures var g := path.up.frame;
            var s := Settled(g, Straightened(path.frame, g.isLeft, t));
            var f := Frame(g.isLeft, s.tag, if g.isLeft then s.right else s.left);
            var u := if g.isLeft then s.left else s.right;
            && Close(f, u) == s && IsRed(u) && Balanced(u) && PathBalanced(Hole(f, path.up.up), BlackHeight(u))
            && f.tag.color == Black && Fix(Hole(f, path.up.up), u) == Fix(path, t)
  {
    assert PathBalanced(path.up, BlackHeight(t));
    SettledBalanced(path.frame, path.up.frame, t);
  }

  ghost function Depth(path: Path): nat { if path.Top? then 0 else 1 + Depth(path.up) }

  /** Restores the red-black shape around a new red node, in place. */
  method InsertFixup(root: RbNode, z: RbNode, ghost path: Path, ghost t: Tree) returns (r: RbNode)
    requires IsRed(t) && Balanced(t) && PathBalanced(path, BlackHeight(t))
    requires z == t.tag.ref && At(path, t) && root == RefOf(Plug(path, t))
    modifies All(path, t)
    ensures At(Top, Fix(path, t)) && r == RefOf(Fix(path, t)) && All(Top, Fix(path, t)) == All(path, t)
  {
    hide At;
    hide All;
    r := root;
    var cur := z;
    ghost var p, u := path, t;
    RootOrBelow(p, u);
    while cur != r && cur.parent.color == Red
      invariant IsRed(u) && Balanced(u) && PathBalanced(p, BlackHeight(u))
      invariant cur == u.tag.ref && At(p, u) && r == RefOf(Plug(p, u)) && All(p, u) == All(path, t)
      invariant Fix(p, u) == Fix(path, t)
      invariant cur == r <==> p.Top?
      invariant p.Hole? ==> cur.parent == p.frame.tag.ref && cur.parent.color == p.frame.tag.color
      decreases Depth(p)
    {
      ParentRefs(p, u);
      assert Depth(p) == 2 + Depth(p.up.up);
      var uncle := if cur.parent == cur.parent.parent.left then cur.parent.parent.right else cur.parent.parent.left;
      if uncle != null && uncle.color == Red {
        assert PathBalanced(p.up, BlackHeight(u));
        RecoloredBalanced(p.frame, p.up.frame, u);
        cur := Repaint(cur, p, u);
        u := Recolored(Close(p.up.frame, Close(p.frame, u)));
        p := p.up.up;
      } else {
        AfterRebalance(p, u);
        r, cur := Rebalance(r, cur, p, u);
        ghost var g, up := p.up.frame, p.up.up;
        ghost var s := Settled(g, Straightened(p.frame, g.isLeft, u));
        p := Hole(Frame(g.isLeft, s.tag, if g.isLeft then s.right else s.left), up);
        u := if g.isLeft then s.left else s.right;
        UpDown(p.frame, up, u);
      }
      RootOrBelow(p, u);
    }
    RootOrBelow(p, u);
    ToRoot(p, u);
    SetColor(r, Black, Top, Plug(p, u));
  }

  lemma RootOrBelow(path: Path, t: Tree)
    requires t.Node? && At(path, t)
    ensures t.tag.ref == RefOf(Plug(path, t)) <==> path.Top?
    ensures path.Hole? ==> t.tag.ref.parent == path.frame.tag.ref && t.tag.ref.parent.color == path.frame.tag.color
    ensures t.tag.ref in All(path, t) && (path.Hole? ==> path.frame.tag.ref in All(path, t))
    ensures RefOf(Plug(path, t)) in All(path, t)
  {
    RootAbove(path, t, t);
  }

  // ------------------------------------------------------------- the index

  /** Looks a key up in a collision list: the first match, newest entries first. */
  method ListGet(list: ListNode?, key: Key) returns (v: Value)
    requires list != null ==> list.Valid()
    ensures v == FirstMatch(if list == null then [] else list.contents, key)
  {
    var current := list;
    while current != null
      invariant current != null ==> current.Valid()
      invariant FirstMatch(if list == null then [] else list.contents, key)
                == FirstMatch(if current == null then [] else current.contents, key)
      decreases if current == null then 0 else |current.contents|
    {
      if current.key == key { return current.val; }
      assert current.contents[1..] == if current.next == null then [] else current.next.contents;
      current := current.next;
    }
    v := 0;
  }

  /** A new node in front of the list; the list itself is unchanged. */
  method ListPrepend(list: ListNode?, key: Key, val: Value) returns (head: ListNode)
    requires list != null ==> list.Valid()
    ensures head.Valid() && head.contents == [(key, val)] + (if list == null then [] else list.contents)
  {
    head := new ListNode(key, val, list);
  }

  const HASHES := 0x1_0000_0000

  /**
    Each hash ever inserted has a node whose list holds the first insertion with that hash, and nothing else is
    there.
   */
  ghost predicate Holds(t: Tree, ops: seq<(Key, Value)>) {
    forall hash: nat ::
      match FirstWith(ops, hash)
      case None => Find(t, hash).None?
      case Some(op) => Find(t, hash).Some? && Find(t, hash).value.1.Valid() && Find(t, hash).value.1.contents == [op]
  }

  class Index {
    var root: RbNode?
    ghost var tree: Tree
    ghost var ops: seq<(Key, Value)>   // every insertion so far

    ghost predicate Valid()
      reads this, Refs(tree)
    {
      && At(Top, tree) && root == RefOf(tree)
      && Balanced(tree) && !IsRed(tree) && Bst(tree, -1, HASHES) && Holds(tree, ops)
    }

    constructor ()
      ensures Valid() && ops == [] && tree == Leaf
    {
      root, tree, ops := null, Leaf, [];
    }

    /** The node for a hash, if any. */
    method GetNode(hash: nat) returns (n: RbNode?)
      requires Valid()
      ensures n == null <==> Find(tree, hash).None?
      ensures n != null ==> n in Refs(tree) && Find(tree, hash) == Some((n.hash, n.list, n)) && n.hash == hash
    {
      n := root;
      ghost var t, parent := tree, null;
      while n != null && n.hash != hash
        invariant n == RefOf(t) && Linked(t, parent) && Refs(t) <= Refs(tree) && Find(t, hash) == Find(tree, hash)
        decreases t
      {
        parent := n;
        if hash < n.hash { n, t := n.left, t.left; } else { n, t := n.right, t.right; }
      }
    }

    /** A lookup answers with the first insertion of the key's hash, if that was this key. */
    method Get(key: Key) returns (v: Value)
      requires Valid()
      ensures v == FirstWins(ops, key)
    {
      var n := GetNode(Hash(key));
      if n == null { return 0; }
      v := ListGet(n.list, key);
      assert n.list.contents[1..] == [];
    }

    /** The walk for a new hash ends at a leaf below the returned node. */
    method Descend(hash: nat) returns (y: RbNode?, ghost path: Path)
      requires Valid() && Find(tree, hash).None?
      ensures path == PathTo(tree, hash, Top) && At(path, Leaf) && Plug(path, Leaf) == tree
      ensures All(path, Leaf) == Refs(tree)
      ensures y == Above(path) && (path.Hole? ==> (path.frame.isLeft <==> hash < path.frame.tag.hash))
    {
      y := null;
      var x := root;
      ghost var t := tree;
      path := Top;
      while x != null
        invariant x == RefOf(t) && y == Above(path) && At(path, t) && All(path, t) == Refs(tree)
        invariant PathTo(t, hash, path) == PathTo(tree, hash, Top) && Plug(path, t) == tree
        invariant path.Hole? ==> (path.frame.isLeft <==> hash < path.frame.tag.hash)
        decreases t
      {
        y := x;
        if hash < x.hash {
          UpDown(Frame(true, t.tag, t.right), path, t.left);
          x := x.left;
          path, t := Hole(Frame(true, t.tag, t.right), path), t.left;
        } else {
          UpDown(Frame(false, t.tag, t.left), path, t.right);
          x := x.right;
          path, t := Hole(Frame(false, t.tag, t.left), path), t.right;
        }
      }
    }

    /** A new hash gains a node of its own. */
    method AddNode(key: Key, value: Value)
      requires Valid() && Find(tree, Hash(key)).None?
      modifies this, Refs(tree)
      ensures Valid() && ops == old(ops) + [(key, value)] && (forall x <- Refs(tree) - old(Refs(tree)) :: fresh(x))
    {
      hide At;
      hide Balanced;
      hide Bst;
      hide Holds;
      hide Find;
      hide Fix;
      hide PathTo;
      hide Plug;
      hide Refs;
      hide All;
      hide Hash;
      var hash := Hash(key);
      var y, path := Descend(hash);
      assert allocated(All(path, Leaf));
      LeafRefs(path);
      var list := ListPrepend(null, key, value);
      var z := new RbNode(hash, list);
      ghost var tag := Tag(Red, hash, list, z);
      InsertedBalanced(tree, tag);
      InsertedHolds(tree, ops, key, value, tag);
      PathToBalanced(tree, hash, Top);
      NewNode(path, tag);
      var r := Attach(root, z, y, hash, path, tag);
      root := InsertFixup(r, z, path, Node(Leaf, tag, Leaf));
      tree := Inserted(tree, tag);
      ops := ops + [(key, value)];
      LeafRefs(Top);
    }

    /**
      Inserts a pair. For a new hash the tree gains one node; for a hash already present the
      new list node is built and dropped, so the index does not change.
     */
    method Insert(key: Key, value: Value)
      requires Valid()
      modifies this, Refs(tree)
      ensures Valid() && ops == old(ops) + [(key, value)] && (forall x <- Refs(tree) - old(Refs(tree)) :: fresh(x))
      ensures old(Find(tree, Hash(key))).Some? ==> tree == old(tree)
    {
      hide At;
      hide Balanced;
      hide Bst;
      hide Holds;
      hide Find;
      hide All;
      hide Hash;
      LeafRefs(Top);
      assert allocated(All(Top, tree));
      var node := GetNode(Hash(key));
      if node == null {
        AddNode(key, value);
        return;
      }
      HeldStays(tree, ops, key, value);
      var _ := ListPrepend(node.list, key, value);
      ops := ops + [(key, value)];
    }
  }

  lemma LeafRefs(path: Path)
    ensures All(path, Leaf) == PathRefs(path)
    ensures forall t: Tree :: All(Top, t) == Refs(t)
  {}

  /** A red node without children fits below any balanced path. */
  lemma NewNode(path: Path, tag: Tag)
    requires tag.color == Red
    ensures var t := Node(Leaf, tag, Leaf);
            IsRed(t) && Balanced(t) && BlackHeight(t) == 0 && All(path, t) == PathRefs(path) + {tag.ref}
  {
    assert Refs(Node(Leaf, tag, Leaf)) == {tag.ref};
  }

  /** Hangs a fresh node below the end of the path. */
  method Attach(root: RbNode?, z: RbNode, y: RbNode?, hash: nat, ghost path: Path, ghost tag: Tag) returns (r: RbNode)
    requires At(path, Leaf) && y == Above(path) && Carries(z, tag) && tag.hash == hash && z.left == null == z.right
    requires z !in PathRefs(path) && (path.Hole? ==> (path.frame.isLeft <==> hash < path.frame.tag.hash))
    requires root == RefOf(Plug(path, Leaf))
    modifies z, PathRefs(path)
    ensures At(path, Node(Leaf, tag, Leaf)) && r == RefOf(Plug(path, Node(Leaf, tag, Leaf)))
  {
    ghost var t := Node(Leaf, tag, Leaf);
    assert allocated(PathRefs(path));
    z.parent := y;
    if y == null {
      r := z;
    } else {
      RootBelow(path, t);
      r := root;
      if hash < y.hash { y.left := z; } else { y.right := z; }
    }
  }

  lemma {:induction false} RootBelow(path: Path, t: Tree)
    requires path.Hole?
    ensures RefOf(Plug(path, Leaf)) == RefOf(Plug(path, t)) != null
  {
    RootAbove(path.up, Close(path.frame, Leaf), Close(path.frame, t));
  }

  lemma HeldStays(t: Tree, ops: seq<(Key, Value)>, key: Key, value: Value)
    requires Holds(t, ops) && Find(t, Hash(key)).Some?
    ensures Holds(t, ops + [(key, value)])
  {
    forall hash: nat
      ensures FirstWith(ops + [(key, value)], hash) == FirstWith(ops, hash)
    {
      FirstWithSnoc(ops, (key, value), hash);
    }
  }

  lemma InsertedHolds(t: Tree, ops: seq<(Key, Value)>, key: Key, value: Value, tag: Tag)
    requires Holds(t, ops) && Bst(t, -1, HASHES) && Find(t, Hash(key)).None?
    requires tag.hash == Hash(key) && tag.list.Valid() && tag.list.contents == [(key, value)]
    ensures Bst(Inserted(t, tag), -1, HASHES) && Holds(Inserted(t, tag), ops + [(key, value)])
  {
    InsertedFind(t, tag, -1, HASHES, 0);
    forall hash: nat
      ensures Find(Inserted(t, tag), hash) == if hash == tag.hash then Some((tag.hash, tag.list, tag.ref))
                                              else Find(t, hash)
      ensures FirstWith(ops + [(key, value)], hash) == if hash == tag.hash then Some((key, value))
                                                       else FirstWith(ops, hash)
    {
      InsertedFind(t, tag, -1, HASHES, hash);
      FirstWithSnoc(ops, (key, value), hash);
      assert FirstWith(ops, tag.hash).None?;
    }
  }
}
