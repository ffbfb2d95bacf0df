/** The linked nodes of avltree.c: the mathematical tree, a path into it, and how both are laid out in node contents. */
module AvlZipper {

  class Node {
    var val: int
    var left: Node?
    var right: Node?
    var parent: Node?
    var height: int

    /** make_node. */
    constructor (val: int, parent: Node?)
      ensures this.val == val && this.parent == parent && height == 1 && left == right == null
    {
      this.val, this.parent, height, left, right := val, parent, 1, null, null;
    }
  }

  /** The contents of one node. */
  datatype Cell = Cell(val: int, left: Node?, right: Node?, parent: Node?, height: int)

  type Memory = map<Node?, Cell>

  ghost function Read(s: set<Node>): (m: Memory)
    reads s
  {
    map n: Node? | n in s :: Cell(n.val, n.left, n.right, n.parent, n.height)
  }

  datatype Tree = Leaf | Branch(left: Tree, node: Node, val: int, height: int, right: Tree)

  /** The ancestors of a subtree, innermost first, each with the subtree on its other side. */
  datatype Path =
    | Top
    | GoLeft(node: Node, val: int, height: int, right: Tree, up: Path)
    | GoRight(left: Tree, node: Node, val: int, height: int, up: Path)

  ghost function Sibling(c: Path): Tree
    requires !c.Top?
  {
    if c.GoLeft? then c.right else c.left
  }

  ghost function Up(c: Path, t: Tree): Tree
    requires !c.Top?
  {
    if c.GoLeft? then Branch(t, c.node, c.val, c.height, c.right) else Branch(c.left, c.node, c.val, c.height, t)
  }

  ghost function Plug(c: Path, t: Tree): Tree {
    if c.Top? then t else Plug(c.up, Up(c, t))
  }

  ghost function Addr(t: Tree): Node? { if t.Leaf? then null else t.node }

  ghost function Hole(c: Path): Node? { if c.Top? then null else c.node }

  ghost function Nodes(t: Tree): set<Node> {
    if t.Leaf? then {} else Nodes(t.left) + {t.node} + Nodes(t.right)
  }

  ghost function Above(c: Path): set<Node> {
    if c.Top? then {} else {c.node} + Nodes(Sibling(c)) + Above(c.up)
  }

  ghost predicate Distinct(t: Tree) {
    t.Branch? ==>
      && Distinct(t.left) && Distinct(t.right) && Nodes(t.left) !! Nodes(t.right)
      && t.node !in Nodes(t.left) && t.node !in Nodes(t.right)
  }

  ghost predicate DistinctPath(c: Path) {
    !c.Top? ==>
      && Distinct(Sibling(c)) && DistinctPath(c.up) && Nodes(Sibling(c)) !! Above(c.up)
      && c.node !in Nodes(Sibling(c)) && c.node !in Above(c.up)
  }

  ghost predicate IsTree(m: Memory, t: Tree, p: Node?) {
    t.Branch? ==>
      && t.node in m && m[t.node] == Cell(t.val, Addr(t.left), Addr(t.right), p, t.height)
      && IsTree(m, t.left, t.node) && IsTree(m, t.right, t.node)
  }

  ghost predicate IsPath(m: Memory, c: Path, child: Node?) {
    !c.Top? ==>
      && c.node in m && IsTree(m, Sibling(c), c.node) && IsPath(m, c.up, c.node)
      && m[c.node] == if c.GoLeft? then Cell(c.val, child, Addr(c.right), Hole(c.up), c.height)
                      else Cell(c.val, Addr(c.left), child, Hole(c.up), c.height)
  }

  /** The nodes are laid out as the tree `Plug(c, t)`, no node used twice. */
  ghost predicate At(m: Memory, c: Path, t: Tree) {
    && IsPath(m, c, Addr(t)) && IsTree(m, t, Hole(c))
    && Distinct(t) && DistinctPath(c) && Nodes(t) !! Above(c)
  }

  lemma MoveUp(m: Memory, c: Path, t: Tree)
    requires !c.Top?
    ensures At(m, c, t) <==> At(m, c.up, Up(c, t))
    ensures Nodes(t) + Above(c) == Nodes(Up(c, t)) + Above(c.up)
  {
  }

  // ----- what may change without disturbing the layout

  ghost predicate Holds(m: Memory, n: Node?, cell: Cell) { n in m && m[n] == cell }

  /** Node n has been given the parent p. */
  ghost predicate Adopted(m: Memory, m': Memory, n: Node?, p: Node?) {
    n in m && n in m' && m'[n] == m[n].(parent := p)
  }

  /** The link that led to the hole of c leads to `child`. */
  ghost predicate Turned(m: Memory, m': Memory, c: Path, child: Node?) {
    !c.Top? ==>
      && c.node in m && c.node in m'
      && m'[c.node] == if c.GoLeft? then m[c.node].(left := child) else m[c.node].(right := child)
  }

  /** Memory is the same except at the four given nodes. */
  ghost predicate Same(m: Memory, m': Memory, x: Node?, y: Node?, b: Node?, p: Node?) {
    forall n :: n in m && n != x && n != y && n != b && n != p ==> n in m' && m'[n] == m[n]
  }

  lemma FrameTree(m: Memory, m': Memory, x: Node?, y: Node?, b: Node?, p: Node?, t: Tree, q: Node?)
    requires IsTree(m, t, q) && Same(m, m', x, y, b, p)
    requires x !in Nodes(t) && y !in Nodes(t) && b !in Nodes(t) && p !in Nodes(t)
    ensures IsTree(m', t, q)
  {
  }

  lemma FramePath(m: Memory, m': Memory, x: Node?, y: Node?, b: Node?, p: Node?, c: Path, child: Node?)
    requires IsPath(m, c, child) && Same(m, m', x, y, b, p)
    requires x !in Above(c) && y !in Above(c) && b !in Above(c) && p !in Above(c)
    ensures IsPath(m', c, child)
  {
    if !c.Top? {
      FrameTree(m, m', x, y, b, p, Sibling(c), c.node);
      FramePath(m, m', x, y, b, p, c.up, c.node);
    }
  }

  lemma Relinked(m: Memory, m': Memory, x: Node?, y: Node?, b: Node?, c: Path, child: Node?, child': Node?)
    requires IsPath(m, c, child) && DistinctPath(c) && Turned(m, m', c, child')
    requires Same(m, m', x, y, b, Hole(c)) && x !in Above(c) && y !in Above(c) && b !in Above(c)
    ensures IsPath(m', c, child')
  {
    if !c.Top? {
      FrameTree(m, m', x, y, b, c.node, Sibling(c), c.node);
      FramePath(m, m', x, y, b, c.node, c.up, c.node);
    }
  }

  lemma Reparented(m: Memory, m': Memory, x: Node?, y: Node?, p: Node?, t: Tree, q: Node?, q': Node?)
    requires IsTree(m, t, q) && Distinct(t) && (t.Branch? ==> Adopted(m, m', t.node, q'))
    requires Same(m, m', x, y, Addr(t), p) && x !in Nodes(t) && y !in Nodes(t) && p !in Nodes(t)
    ensures IsTree(m', t, q')
  {
    if t.Branch? {
      FrameTree(m, m', x, y, t.node, p, t.left, t.node);
      FrameTree(m, m', x, y, t.node, p, t.right, t.node);
    }
  }

  // ----- layout of the single steps

  /** The nodes around a rotation lie apart, so that the writes to them do not meet. */
  ghost predicate Apart(x: Node?, y: Node?, b: Node?, p: Node?) {
    x != y && b != x && b != y && p != x && p != y && (p != null ==> p != b)
  }

  /** What a rotation of x under y does around them: b changes sides and the link in c follows. */
  ghost predicate Rotated(m: Memory, m': Memory, c: Path, x: Node?, y: Node?, b: Node?) {
    Same(m, m', x, y, b, Hole(c)) && (b != null ==> Adopted(m, m', b, x)) && Turned(m, m', c, y)
  }

  /** The links after a rotation, every height as it was. */
  ghost function RotL(t: Tree): Tree
    requires t.Branch? && t.right.Branch?
  {
    var y := t.right;
    Branch(Branch(t.left, t.node, t.val, t.height, y.left), y.node, y.val, y.height, y.right)
  }

  ghost function RotR(t: Tree): Tree
    requires t.Branch? && t.left.Branch?
  {
    var y := t.left;
    Branch(y.left, y.node, y.val, y.height, Branch(y.right, t.node, t.val, t.height, t.right))
  }

  lemma AroundLeft(m: Memory, c: Path, t: Tree)
    requires At(m, c, t) && t.Branch? && t.right.Branch?
    ensures
      var y, b := t.right, Addr(t.right.left);
      && Apart(t.node, y.node, b, Hole(c)) && Holds(m, y.node, Cell(y.val, b, Addr(y.right), t.node, y.height))
      && (b != null ==> b in m)
  {
    assert IsTree(m, t.right, t.node) && Distinct(t.right);
    assert IsTree(m, t.right.left, t.right.node);
  }

  lemma AroundRight(m: Memory, c: Path, t: Tree)
    requires At(m, c, t) && t.Branch? && t.left.Branch?
    ensures
      var y, b := t.left, Addr(t.left.right);
      && Apart(t.node, y.node, b, Hole(c)) && Holds(m, y.node, Cell(y.val, Addr(y.left), b, t.node, y.height))
      && (b != null ==> b in m)
  {
    assert IsTree(m, t.left, t.node) && Distinct(t.left);
    assert IsTree(m, t.left.right, t.left.node);
  }

  lemma RotatedLeft(m: Memory, m': Memory, c: Path, t: Tree)
    requires At(m, c, t) && t.Branch? && t.right.Branch?
    requires Rotated(m, m', c, t.node, t.right.node, Addr(t.right.left))
    requires Holds(m', t.node, Cell(t.val, Addr(t.left), Addr(t.right.left), t.right.node, t.height))
    requires Holds(m', t.right.node, Cell(t.right.val, t.node, Addr(t.right.right), Hole(c), t.right.height))
    ensures At(m', c, RotL(t)) && Nodes(RotL(t)) == Nodes(t)
  {
    var x, y, b := t.node, t.right.node, t.right.left;
    var p := Hole(c);
    assert IsTree(m, t.right, x) && Distinct(t.right);
    FrameTree(m, m', x, y, Addr(b), p, t.left, x);
    FrameTree(m, m', x, y, Addr(b), p, t.right.right, y);
    Reparented(m, m', x, y, p, b, y, x);
    Relinked(m, m', x, y, Addr(b), c, x, y);
  }

  lemma RotatedRight(m: Memory, m': Memory, c: Path, t: Tree)
    requires At(m, c, t) && t.Branch? && t.left.Branch?
    requires Rotated(m, m', c, t.node, t.left.node, Addr(t.left.right))
    requires Holds(m', t.node, Cell(t.val, Addr(t.left.right), Addr(t.right), t.left.node, t.height))
    requires Holds(m', t.left.node, Cell(t.left.val, Addr(t.left.left), t.node, Hole(c), t.left.height))
    ensures At(m', c, RotR(t)) && Nodes(RotR(t)) == Nodes(t)
  {
    var x, y, b := t.node, t.left.node, t.left.right;
    var p := Hole(c);
    assert IsTree(m, t.left, x) && Distinct(t.left);
    FrameTree(m, m', x, y, Addr(b), p, t.right, x);
    FrameTree(m, m', x, y, Addr(b), p, t.left.left, y);
    Reparented(m, m', x, y, p, b, y, x);
    Relinked(m, m', x, y, Addr(b), c, x, y);
  }

  lemma Restamped(m: Memory, m': Memory, c: Path, t: Tree, height: int)
    requires At(m, c, t) && t.Branch? && Same(m, m', t.node, null, null, null)
    requires t.node in m' && m'[t.node] == m[t.node].(height := height)
    ensures At(m', c, t.(height := height)) && Nodes(t.(height := height)) == Nodes(t)
  {
    FrameTree(m, m', t.node, null, null, null, t.left, t.node);
    FrameTree(m, m', t.node, null, null, null, t.right, t.node);
    FramePath(m, m', t.node, null, null, null, c, t.node);
  }

  lemma Linked(m: Memory, m': Memory, c: Path, x: Node, val: int)
    requires At(m, c, Leaf) && x !in Above(c) && x !in m
    requires Holds(m', x, Cell(val, null, null, Hole(c), 1))
    requires Same(m, m', Hole(c), null, null, null)
    requires Turned(m, m', c, x)
    ensures At(m', c, Branch(Leaf, x, val, 1, Leaf))
  {
    Relinked(m, m', null, null, null, c, null, x);
  }
}
