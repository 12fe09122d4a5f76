/**
  The red-black index from hashes to collision lists, as values: trees, the zipper that
  insertion walks, the insert fixup as a function of the zipper, and what it keeps.
 */
module RedBlack {
  import opened Common

  type Key = seq<byte>
  type Value = nat          // a pointer; 0 is NULL

  datatype Color = Red | Black

  /** A node of the collision list; a list is only ever extended at its head, so nodes never change. */
  class ListNode {
    const key: Key
    const val: Value
    const next: ListNode?
    ghost const contents: seq<(Key, Value)>

    constructor (key: Key, val: Value, next: ListNode?)
      ensures this.key == key && this.val == val && this.next == next
      ensures contents == [(key, val)] + (if next == null then [] else next.contents)
    {
      this.key, this.val, this.next := key, val, next;
      contents := [(key, val)] + (if next == null then [] else next.contents);
    }

    ghost predicate Valid()
      decreases |contents|
    {
      && contents == [(key, val)] + (if next == null then [] else next.contents)
      && (next != null ==> next.Valid())
    }
  }

  class RbNode {
    var color: Color
    var hash: nat
    var list: ListNode
    var left: RbNode?
    var right: RbNode?
    var parent: RbNode?

    constructor (hash: nat, list: ListNode)
      ensures color == Red && this.hash == hash && this.list == list && left == null == right == parent
    {
      color, this.hash, this.list, left, right, parent := Red, hash, list, null, null, null;
    }
  }

  /** The value of one node: colour, hash, collision list and the object that carries them. */
  datatype Tag = Tag(color: Color, hash: nat, list: ListNode, ref: RbNode)

  datatype Tree = Leaf | Node(left: Tree, tag: Tag, right: Tree)

  // ----------------------------------------------------------- trees as values

  function Paint(l: Tag, c: Color): Tag { l.(color := c) }

  predicate IsRed(t: Tree) { t.Node? && t.tag.color == Red }

  function Blacken(t: Tree): Tree { if t.Leaf? then t else Node(t.left, Paint(t.tag, Black), t.right) }

  /** Labels in order, colours ignored. */
  function Inorder(t: Tree): seq<(nat, ListNode, RbNode)> {
    if t.Leaf? then [] else Inorder(t.left) + [(t.tag.hash, t.tag.list, t.tag.ref)] + Inorder(t.right)
  }

  function BlackHeight(t: Tree): nat {
    if t.Leaf? then 0 else BlackHeight(t.left) + (if t.tag.color == Black then 1 else 0)
  }

  /** No red node has a red child, and every path down has the same number of black nodes. */
  predicate Balanced(t: Tree) {
    t.Node? ==>
      && Balanced(t.left) && Balanced(t.right) && BlackHeight(t.left) == BlackHeight(t.right)
      && (t.tag.color == Red ==> !IsRed(t.left) && !IsRed(t.right))
  }

  predicate Bst(t: Tree, lo: int, hi: int) {
    t.Node? ==> lo < t.tag.hash < hi && Bst(t.left, lo, t.tag.hash) && Bst(t.right, t.tag.hash, hi)
  }

  ghost function Refs(t: Tree): set<RbNode> {
    if t.Leaf? then {} else {t.tag.ref} + Refs(t.left) + Refs(t.right)
  }

  /** No object occurs twice in the tree. */
  ghost predicate Distinct(t: Tree) {
    t.Node? ==>
      && Distinct(t.left) && Distinct(t.right) && Refs(t.left) !! Refs(t.right)
      && t.tag.ref !in Refs(t.left) && t.tag.ref !in Refs(t.right)
  }

  // ------------------------------------------------------------------- zipper

  /** One step up: the parent's tag, which child the hole is, and the other child. */
  datatype Frame = Frame(isLeft: bool, tag: Tag, sibling: Tree)

  datatype Path = Top | Hole(frame: Frame, up: Path)

  function Close(f: Frame, t: Tree): Tree {
    if f.isLeft then Node(t, f.tag, f.sibling) else Node(f.sibling, f.tag, t)
  }

  function Plug(path: Path, t: Tree): Tree {
    if path.Top? then t else Plug(path.up, Close(path.frame, t))
  }

  /** The path to the leaf where a hash belongs. */
  function PathTo(t: Tree, hash: nat, path: Path): Path {
    if t.Leaf? then path
    else if hash < t.tag.hash then PathTo(t.left, hash, Hole(Frame(true, t.tag, t.right), path))
    else PathTo(t.right, hash, Hole(Frame(false, t.tag, t.left), path))
  }

  function RotateLeft(t: Tree): Tree
    requires t.Node? && t.right.Node?
  {
    Node(Node(t.left, t.tag, t.right.left), t.right.tag, t.right.right)
  }

  function RotateRight(t: Tree): Tree
    requires t.Node? && t.left.Node?
  {
    Node(t.left.left, t.left.tag, Node(t.left.right, t.tag, t.right))
  }

  /** Repaints the grandparent red and both its children black. */
  function Recolored(g: Tree): Tree
    requires g.Node? && g.left.Node? && g.right.Node?
  {
    Node(Blacken(g.left), Paint(g.tag, Red), Blacken(g.right))
  }

  /** The last rotation of the fixup: the parent becomes black above a red grandparent. */
  function Settled(f: Frame, parent: Tree): Tree
    requires parent.Node?
    requires if f.isLeft then parent.left.Node? else parent.right.Node?
  {
    var g := Close(f.(tag := Paint(f.tag, Red)), Blacken(parent));
    if f.isLeft then RotateRight(g) else RotateLeft(g)
  }

  /** The parent with the new red child on the outside. */
  function Straightened(f: Frame, isLeft: bool, t: Tree): Tree
    requires t.Node?
  {
    var parent := Close(f, t);
    if f.isLeft == isLeft then parent
    else if f.isLeft then RotateRight(parent) else RotateLeft(parent)
  }

  /** The tree that the insert fixup produces from a red node `t` at the end of `path`. */
  function Fix(path: Path, t: Tree): Tree
    requires t.Node?
  {
    if path.Top? || path.frame.tag.color == Black || path.up.Top? then Blacken(Plug(path, t))
    else
      var f, g := path.frame, path.up.frame;
      if IsRed(g.sibling) then Fix(path.up.up, Recolored(Close(g, Close(f, t))))
      else Blacken(Plug(path.up.up, Settled(g, Straightened(f, g.isLeft, t))))
  }

  /** The tree after a new hash goes in. */
  function Inserted(t: Tree, tag: Tag): Tree {
    Fix(PathTo(t, tag.hash, Top), Node(Leaf, Paint(tag, Red), Leaf))
  }

  // ------------------------------------------------ the fixup restores balance

  /** The context is balanced for a subtree of black height `h`, and ends in a black root. */
  predicate PathBalanced(path: Path, h: nat) {
    path.Hole? ==>
      && Balanced(path.frame.sibling) && BlackHeight(path.frame.sibling) == h
      && (path.frame.tag.color == Red ==>
            !IsRed(path.frame.sibling) && path.up.Hole? && path.up.frame.tag.color == Black)
      && PathBalanced(path.up, h + (if path.frame.tag.color == Black then 1 else 0))
  }

  lemma {:induction false} PlugBalanced(path: Path, t: Tree)
    requires Balanced(t) && PathBalanced(path, BlackHeight(t))
    requires path.Hole? && path.frame.tag.color == Red ==> !IsRed(t)
    ensures Balanced(Plug(path, t)) && (path.Hole? ==> !IsRed(Plug(path, t)))
  {
    if path.Hole? {
      PlugBalanced(path.up, Close(path.frame, t));
      if path.up.Top? { assert path.frame.tag.color == Black; }
    }
  }

  lemma BlackenBalanced(t: Tree)
    requires Balanced(t)
    ensures Balanced(Blacken(t)) && !IsRed(Blacken(t))
  {}

  lemma SettledBalanced(f: Frame, g: Frame, t: Tree)
    requires IsRed(t) && Balanced(t) && f.tag.color == Red && g.tag.color == Black
    requires Balanced(f.sibling) && !IsRed(f.sibling) && BlackHeight(f.sibling) == BlackHeight(t)
    requires Balanced(g.sibling) && !IsRed(g.sibling) && BlackHeight(g.sibling) == BlackHeight(t)
    ensures var s := Settled(g, Straightened(f, g.isLeft, t));
            Balanced(s) && !IsRed(s) && BlackHeight(s) == BlackHeight(t) + 1
  {}

  lemma RecoloredBalanced(f: Frame, g: Frame, t: Tree)
    requires IsRed(t) && Balanced(t) && f.tag.color == Red && g.tag.color == Black
    requires Balanced(f.sibling) && !IsRed(f.sibling) && BlackHeight(f.sibling) == BlackHeight(t)
    requires Balanced(g.sibling) && IsRed(g.sibling) && BlackHeight(g.sibling) == BlackHeight(t)
    ensures var r := Recolored(Close(g, Close(f, t)));
            Balanced(r) && IsRed(r) && BlackHeight(r) == BlackHeight(t) + 1
  {}

  /** From a red node on a balanced path the fixup ends balanced with a black root. */
  lemma {:induction false} FixBalanced(path: Path, t: Tree)
    requires IsRed(t) && Balanced(t) && PathBalanced(path, BlackHeight(t))
    ensures Balanced(Fix(path, t)) && !IsRed(Fix(path, t))
    decreases path
  {
    if path.Top? {
      BlackenBalanced(t);
    } else if path.frame.tag.color == Black {
      PlugBalanced(path, t);
      BlackenBalanced(Plug(path, t));
    } else {
      var f, g := path.frame, path.up.frame;
      assert PathBalanced(path.up, BlackHeight(t));
      if IsRed(g.sibling) {
        RecoloredBalanced(f, g, t);
        FixBalanced(path.up.up, Recolored(Close(g, Close(f, t))));
      } else {
        SettledBalanced(f, g, t);
        var s := Settled(g, Straightened(f, g.isLeft, t));
        PlugBalanced(path.up.up, s);
        BlackenBalanced(Plug(path.up.up, s));
      }
    }
  }

  lemma {:induction false} PathToBalanced(t: Tree, hash: nat, path: Path)
    requires Balanced(t) && PathBalanced(path, BlackHeight(t))
    requires path.Hole? && path.frame.tag.color == Red ==> !IsRed(t)
    requires path.Top? ==> !IsRed(t)
    ensures PathBalanced(PathTo(t, hash, path), 0)
  {
    if t.Node? {
      if hash < t.tag.hash {
        PathToBalanced(t.left, hash, Hole(Frame(true, t.tag, t.right), path));
      } else {
        PathToBalanced(t.right, hash, Hole(Frame(false, t.tag, t.left), path));
      }
    }
  }

  /** Insertion keeps the red-black shape: black root, no red-red edge, equal black heights. */
  lemma InsertedBalanced(t: Tree, tag: Tag)
    requires Balanced(t) && !IsRed(t)
    ensures Balanced(Inserted(t, tag)) && !IsRed(Inserted(t, tag))
  {
    PathToBalanced(t, tag.hash, Top);
    FixBalanced(PathTo(t, tag.hash, Top), Node(Leaf, Paint(tag, Red), Leaf));
  }

  // ------------------------------------- the fixup keeps order and membership

  type Entry = (nat, ListNode, RbNode)

  ghost predicate Sorted(s: seq<Entry>, lo: int, hi: int) {
    && (forall i :: 0 <= i < |s| ==> lo < s[i].0 < hi)
    && (forall i, j :: 0 <= i < j < |s| ==> s[i].0 < s[j].0)
  }

  /** Search-tree order is exactly sortedness of the in-order sequence. */
  lemma {:induction false} BstIffSorted(t: Tree, lo: int, hi: int)
    ensures Bst(t, lo, hi) <==> Sorted(Inorder(t), lo, hi)
  {
    if t.Node? {
      var a, x, b := Inorder(t.left), (t.tag.hash, t.tag.list, t.tag.ref), Inorder(t.right);
      BstIffSorted(t.left, lo, t.tag.hash);
      BstIffSorted(t.right, t.tag.hash, hi);
      SortedJoin(a, x, b, lo, hi);
    }
  }

  lemma SortedJoin(a: seq<Entry>, x: Entry, b: seq<Entry>, lo: int, hi: int)
    ensures Sorted(a + [x] + b, lo, hi) <==> lo < x.0 < hi && Sorted(a, lo, x.0) && Sorted(b, x.0, hi)
  {
    if Sorted(a + [x] + b, lo, hi) { SortedParts(a, x, b, lo, hi); }
    if lo < x.0 < hi && Sorted(a, lo, x.0) && Sorted(b, x.0, hi) { SortedWhole(a, x, b, lo, hi); }
  }

  lemma SortedParts(a: seq<Entry>, x: Entry, b: seq<Entry>, lo: int, hi: int)
    requires Sorted(a + [x] + b, lo, hi)
    ensures lo < x.0 < hi && Sorted(a, lo, x.0) && Sorted(b, x.0, hi)
  {
    var s := a + [x] + b;
    assert s[|a|] == x;
    forall i | 0 <= i < |a| ensures lo < a[i].0 < x.0 { assert s[i] == a[i]; }
    forall i | 0 <= i < |b| ensures x.0 < b[i].0 < hi { assert s[|a| + 1 + i] == b[i]; }
    forall i, j | 0 <= i < j < |a| ensures a[i].0 < a[j].0 { assert s[i] == a[i] && s[j] == a[j]; }
    forall i, j | 0 <= i < j < |b| ensures b[i].0 < b[j].0 { assert s[|a| + 1 + i] == b[i] && s[|a| + 1 + j] == b[j]; }
  }

  lemma SortedWhole(a: seq<Entry>, x: Entry, b: seq<Entry>, lo: int, hi: int)
    requires lo < x.0 < hi && Sorted(a, lo, x.0) && Sorted(b, x.0, hi)
    ensures Sorted(a + [x] + b, lo, hi)
  {
    var s := a + [x] + b;
    forall i | 0 <= i < |s| ensures s[i] == if i < |a| then a[i] else if i == |a| then x else b[i - |a| - 1] {}
    forall i | 0 <= i < |s| ensures lo < s[i].0 < hi {}
    forall i, j | 0 <= i < j < |s| ensures s[i].0 < s[j].0 {
      assert i < |a| ==> s[i].0 < x.0;
      assert j > |a| ==> x.0 < s[j].0;
    }
  }

  /** In-order sequences are all that plugging, painting and rotating depend on. */
  lemma {:induction false} PlugInorder(path: Path, t: Tree, u: Tree)
    requires Inorder(t) == Inorder(u)
    ensures Inorder(Plug(path, t)) == Inorder(Plug(path, u))
  {
    if path.Hole? {
      PlugInorder(path.up, Close(path.frame, t), Close(path.frame, u));
    }
  }

  lemma RotationsInorder(t: Tree)
    ensures t.Node? && t.right.Node? ==> Inorder(RotateLeft(t)) == Inorder(t)
    ensures t.Node? && t.left.Node? ==> Inorder(RotateRight(t)) == Inorder(t)
    ensures Inorder(Blacken(t)) == Inorder(t)
  {
    if t.Node? && t.right.Node? {
      Regroup(Inorder(t.left), EntryOf(t.tag), Inorder(t.right.left), EntryOf(t.right.tag), Inorder(t.right.right));
    }
    if t.Node? && t.left.Node? {
      Regroup(Inorder(t.left.left), EntryOf(t.left.tag), Inorder(t.left.right), EntryOf(t.tag), Inorder(t.right));
    }
  }

  function EntryOf(tag: Tag): Entry { (tag.hash, tag.list, tag.ref) }

  lemma Regroup(a: seq<Entry>, x: Entry, b: seq<Entry>, y: Entry, c: seq<Entry>)
    ensures (a + [x] + b) + [y] + c == a + [x] + (b + [y] + c)
  {}

  lemma SettledInorder(f: Frame, g: Frame, t: Tree)
    requires t.Node?
    ensures Inorder(Settled(g, Straightened(f, g.isLeft, t))) == Inorder(Close(g, Close(f, t)))
  {
    var parent := Close(f, t);
    RotationsInorder(parent);
    var p := Straightened(f, g.isLeft, t);
    assert Inorder(p) == Inorder(parent);
    RotationsInorder(p);
    RotationsInorder(Close(g.(tag := Paint(g.tag, Red)), Blacken(p)));
  }

  /** The fixup moves and paints nodes but neither adds, drops nor reorders them. */
  lemma {:induction false} FixInorder(path: Path, t: Tree)
    requires t.Node?
    ensures Inorder(Fix(path, t)) == Inorder(Plug(path, t))
    decreases path
  {
    RotationsInorder(Plug(path, t));
    if path.Hole? && path.up.Hole? && path.frame.tag.color == Red {
      var f, g := path.frame, path.up.frame;
      var whole := Close(g, Close(f, t));
      if IsRed(g.sibling) {
        FixInorder(path.up.up, Recolored(whole));
        PlugInorder(path.up.up, whole, Recolored(whole));
      } else {
        var s := Settled(g, Straightened(f, g.isLeft, t));
        SettledInorder(f, g, t);
        PlugInorder(path.up.up, whole, s);
        RotationsInorder(Plug(path.up.up, s));
      }
    }
  }

  // ------------------------------------------------------------------ lookup

  function Find(t: Tree, hash: nat): Option<Entry> {
    if t.Leaf? then None
    else if hash == t.tag.hash then Some((t.tag.hash, t.tag.list, t.tag.ref))
    else if hash < t.tag.hash then Find(t.left, hash) else Find(t.right, hash)
  }

  /** A walk down a search tree finds exactly the entries of the tree. */
  lemma {:induction false} FindIffMember(t: Tree, lo: int, hi: int, x: Entry)
    requires Bst(t, lo, hi)
    ensures x in Inorder(t) <==> Find(t, x.0) == Some(x)
    ensures x in Inorder(t) ==> lo < x.0 < hi
  {
    if t.Node? {
      FindIffMember(t.left, lo, t.tag.hash, x);
      FindIffMember(t.right, t.tag.hash, hi, x);
    }
  }

  lemma {:induction false} FindHasHash(t: Tree, hash: nat)
    requires Find(t, hash).Some?
    ensures Find(t, hash).value.0 == hash
  {
    if hash != t.tag.hash { if hash < t.tag.hash { FindHasHash(t.left, hash); } else { FindHasHash(t.right, hash); } }
  }

  /** Search trees with the same entries answer every search alike. */
  lemma FindByInorder(t: Tree, u: Tree, lo: int, hi: int, hash: nat)
    requires Bst(t, lo, hi) && Inorder(t) == Inorder(u)
    ensures Bst(u, lo, hi) && Find(t, hash) == Find(u, hash)
  {
    BstIffSorted(t, lo, hi);
    BstIffSorted(u, lo, hi);
    if Find(t, hash).Some? {
      FindHasHash(t, hash);
      FindIffMember(t, lo, hi, Find(t, hash).value);
      FindIffMember(u, lo, hi, Find(t, hash).value);
    } else if Find(u, hash).Some? {
      FindHasHash(u, hash);
      FindIffMember(t, lo, hi, Find(u, hash).value);
      FindIffMember(u, lo, hi, Find(u, hash).value);
    }
  }

  /** The tree with a new leaf hung where the walk for its hash ends. */
  function Grown(t: Tree, tag: Tag): Tree {
    if t.Leaf? then Node(Leaf, tag, Leaf)
    else if tag.hash < t.tag.hash then Node(Grown(t.left, tag), t.tag, t.right)
    else Node(t.left, t.tag, Grown(t.right, tag))
  }

  lemma {:induction false} PlugPathTo(t: Tree, tag: Tag, path: Path)
    ensures Plug(PathTo(t, tag.hash, path), Node(Leaf, tag, Leaf)) == Plug(path, Grown(t, tag))
  {
    if t.Node? {
      if tag.hash < t.tag.hash {
        PlugPathTo(t.left, tag, Hole(Frame(true, t.tag, t.right), path));
      } else {
        PlugPathTo(t.right, tag, Hole(Frame(false, t.tag, t.left), path));
      }
    }
  }

  lemma {:induction false} GrownFind(t: Tree, tag: Tag, lo: int, hi: int, hash: nat)
    requires Bst(t, lo, hi) && lo < tag.hash < hi && Find(t, tag.hash).None?
    ensures Bst(Grown(t, tag), lo, hi)
    ensures Find(Grown(t, tag), hash) == if hash == tag.hash then Some((tag.hash, tag.list, tag.ref)) else Find(t, hash)
  {
    if t.Node? {
      if tag.hash < t.tag.hash {
        GrownFind(t.left, tag, lo, t.tag.hash, hash);
      } else {
        GrownFind(t.right, tag, t.tag.hash, hi, hash);
      }
    }
  }

  /** Inserting a new hash adds exactly that entry and keeps search order. */
  lemma InsertedFind(t: Tree, tag: Tag, lo: int, hi: int, hash: nat)
    requires Bst(t, lo, hi) && lo < tag.hash < hi && Find(t, tag.hash).None?
    ensures Bst(Inserted(t, tag), lo, hi)
    ensures Find(Inserted(t, tag), hash) == if hash == tag.hash then Some((tag.hash, tag.list, tag.ref))
                                            else Find(t, hash)
  {
    var red := Paint(tag, Red);
    var path := PathTo(t, tag.hash, Top);
    FixInorder(path, Node(Leaf, red, Leaf));
    PlugPathTo(t, red, Top);
    GrownFind(t, red, lo, hi, hash);
    FindByInorder(Grown(t, red), Inserted(t, tag), lo, hi, hash);
  }

  // -------------------------------------------------- what lookups answer

  /** The signed value of a `char`. */
  function Signed(b: byte): int {
    var v: int := b;
    if v < 128 then v else v - 256
  }

  /** Multiply-by-131 hash with 32-bit wrap-around. */
  function Hash(key: Key): (h: nat)
    ensures h < 0x1_0000_0000
  {
    if key == [] then 0 else (Hash(key[..|key| - 1]) * 131 + Signed(key[|key| - 1])) % 0x1_0000_0000
  }

  /** The value of the first list entry with the key, or NULL. */
  function FirstMatch(list: seq<(Key, Value)>, key: Key): Value {
    if list == [] then 0 else if list[0].0 == key then list[0].1 else FirstMatch(list[1..], key)
  }

  /** The first insertion whose key has this hash. */
  function FirstWith(ops: seq<(Key, Value)>, hash: nat): Option<(Key, Value)> {
    if ops == [] then None else if Hash(ops[0].0) == hash then Some(ops[0]) else FirstWith(ops[1..], hash)
  }

  /** What a lookup answers after a run of insertions: only the first one with a hash ever counts. */
  function FirstWins(ops: seq<(Key, Value)>, key: Key): Value {
    match FirstWith(ops, Hash(key))
    case None => 0
    case Some(op) => if op.0 == key then op.1 else 0
  }

  /** What a newest-first association list would answer. */
  function NewestWins(ops: seq<(Key, Value)>, key: Key): Value {
    if ops == [] then 0
    else if ops[|ops| - 1].0 == key then ops[|ops| - 1].1 else NewestWins(ops[..|ops| - 1], key)
  }

  lemma {:induction false} FirstWithSnoc(ops: seq<(Key, Value)>, op: (Key, Value), hash: nat)
    ensures FirstWith(ops + [op], hash) ==
            if FirstWith(ops, hash).Some? then FirstWith(ops, hash) else if Hash(op.0) == hash then Some(op) else None
  {
    if ops == [] {
      assert ([] + [op])[1..] == [];
    } else {
      assert (ops + [op])[1..] == ops[1..] + [op];
      FirstWithSnoc(ops[1..], op, hash);
    }
  }

  ghost predicate Agrees(ops: seq<(Key, Value)>) {
    forall key :: FirstWins(ops, key) == NewestWins(ops, key)
  }

  /** The insertion is not lost: its hash is new, or the index already answers its key with its value. */
  predicate Effective(ops: seq<(Key, Value)>, op: (Key, Value)) {
    FirstWith(ops, Hash(op.0)).None? || FirstWins(ops, op.0) == op.1
  }

  /** One insertion behaves like prepending to an association list exactly when it is effective. */
  lemma InsertionTakesEffectIff(ops: seq<(Key, Value)>, op: (Key, Value))
    ensures Effective(ops, op) <==>
            forall key :: FirstWins(ops + [op], key) == if key == op.0 then op.1 else FirstWins(ops, key)
  {
    forall key ensures FirstWith(ops + [op], Hash(key)) ==
      if FirstWith(ops, Hash(key)).Some? then FirstWith(ops, Hash(key))
      else if Hash(op.0) == Hash(key) then Some(op) else None
    {
      FirstWithSnoc(ops, op, Hash(key));
    }
    FirstWithSnoc(ops, op, Hash(op.0));
  }

  /** The index agrees with the newest-first list throughout a run exactly when every insertion in it is effective. */
  lemma {:induction false} AgreesThroughoutIff(ops: seq<(Key, Value)>)
    ensures (forall n :: 0 <= n <= |ops| ==> Agrees(ops[..n])) <==>
              (forall i :: 0 <= i < |ops| ==> Effective(ops[..i], ops[i]))
  {
    if ops == [] {
      assert ops[..0] == [];
    } else {
      var m := |ops| - 1;
      var front, op := ops[..m], ops[m];
      AgreesThroughoutIff(front);
      assert forall n :: 0 <= n <= m ==> front[..n] == ops[..n];
      assert ops[..m + 1] == ops == front + [op];
      InsertionTakesEffectIff(front, op);
      SnocNewest(front, op);
      if Agrees(front) { assert Agrees(ops) <==> Effective(front, op); }
      assert front[..m] == front;
    }
  }

  lemma SnocNewest(ops: seq<(Key, Value)>, op: (Key, Value))
    ensures forall key :: NewestWins(ops + [op], key) == if key == op.0 then op.1 else NewestWins(ops, key)
  {}

  /** Storing a second value under a key is lost: the lookup still answers the first. */
  lemma ReinsertionIsLost(key: Key)
    ensures var ops := [(key, 1), (key, 2)];
            FirstWins(ops, key) == 1 && NewestWins(ops, key) == 2 && !Effective(ops[..1], ops[1])
  {
    var ops := [(key, 1), (key, 2)];
    assert ops == [(key, 1)] + [(key, 2)];
    SnocNewest([(key, 1)], (key, 2));
    assert ops[..1] == [(key, 1)];
  }

  /** Two different keys with one hash: the later one is never found. */
  lemma CollisionIsLost()
    ensures var a, b := [1, 100], [2, 225];
            a != b && Hash(a) == Hash(b) && FirstWins([(a, 1), (b, 2)], b) == 0 && NewestWins([(a, 1), (b, 2)], b) == 2
  {
    var a: Key, b: Key := [1, 100], [2, 225];
    assert a[..1] == [1] && b[..1] == [2] && [1][..0] == [] && [2][..0] == [];
    assert Hash([1]) == 1 && Hash([2]) == 2;
    assert [(a, 1), (b, 2)] == [(a, 1)] + [(b, 2)];
    SnocNewest([(a, 1)], (b, 2));
  }
}
