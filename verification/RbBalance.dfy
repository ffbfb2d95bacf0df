/** Order, colours and black heights of trees, and what they look like from inside a zipper. */
module RbBalance {
  import BitIo
  import opened Common
  import opened RbZipper

  ghost predicate IsRed(t: Tree) { t.Branch? && t.red }

  /** Black nodes on the leftmost way down; in a balanced tree, on every way down. */
  ghost function BlackHeight(t: Tree): nat {
    if t.Leaf? then 0 else BlackHeight(t.left) + if t.red then 0 else 1
  }

  ghost predicate Balanced(t: Tree) {
    t.Branch? ==> BlackHeight(t.left) == BlackHeight(t.right) && Balanced(t.left) && Balanced(t.right)
  }

  ghost predicate NoRedRed(t: Tree) {
    t.Branch? ==>
      NoRedRed(t.left) && NoRedRed(t.right) && (t.red ==> !IsRed(t.left) && !IsRed(t.right))
  }

  ghost predicate RedBlack(t: Tree) {
    Balanced(t) && NoRedRed(t) && !IsRed(t)
  }

  ghost function InOrder(t: Tree): seq<Node> {
    if t.Leaf? then [] else InOrder(t.left) + [t.node] + InOrder(t.right)
  }

  ghost function Blacken(t: Tree): Tree {
    if t.Leaf? then Leaf else t.(red := false)
  }

  // ----- the same seen from a hole

  ghost function Before(c: Path): seq<Node> {
    match c
    case Top => []
    case GoLeft(_, _, _, up) => Before(up)
    case GoRight(l, x, _, up) => Before(up) + InOrder(l) + [x]
  }

  ghost function After(c: Path): seq<Node> {
    match c
    case Top => []
    case GoLeft(x, _, r, up) => [x] + InOrder(r) + After(up)
    case GoRight(_, _, _, up) => After(up)
  }

  ghost predicate RedAbove(c: Path) { !c.Top? && c.red }

  /** A balanced tree of black height h fits into the hole. */
  ghost predicate Fits(c: Path, h: nat) {
    !c.Top? ==>
      && Balanced(Sibling(c)) && BlackHeight(Sibling(c)) == h
      && Fits(c.up, h + if c.red then 0 else 1)
  }

  /** No red node of the path has a red neighbour in it, and the outermost node is black. */
  ghost predicate PathOk(c: Path) {
    !c.Top? ==>
      && NoRedRed(Sibling(c)) && PathOk(c.up)
      && (c.red ==> !IsRed(Sibling(c)) && !c.up.Top? && !c.up.red)
  }

  lemma Regroup(a: seq<Node>, b: seq<Node>, x: Node, d: seq<Node>, e: seq<Node>)
    ensures a + (b + [x] + d) + e == a + b + ([x] + d + e)
    ensures a + (b + [x] + d) + e == (a + b + [x]) + d + e
  {
  }

  lemma PlugOrder(c: Path, t: Tree)
    ensures InOrder(Plug(c, t)) == Before(c) + InOrder(t) + After(c)
    decreases c
  {
    if !c.Top? {
      PlugOrder(c.up, Up(c, t));
      var u := Up(c, t);
      Regroup(Before(c.up), InOrder(u.left), c.node, InOrder(u.right), After(c.up));
    }
  }

  lemma Split(a: seq<Node>, b: seq<Node>, x: Node, d: seq<Node>, e: seq<Node>)
    ensures a + (b + [x] + d) + e == (a + b) + [x] + (d + e)
    ensures [x] + d + e == [x] + (d + e)
  {
  }

  /** The order around a node, and around the holes to its left and right. */
  lemma OrderAround(c: Path, t: Tree)
    requires t.Branch?
    ensures
      var l, r := Before(c) + InOrder(t.left), InOrder(t.right) + After(c);
      && InOrder(Plug(c, t)) == l + [t.node] + r
      && After(GoLeft(t.node, t.red, t.right, c)) == [t.node] + r
      && Before(GoRight(t.left, t.node, t.red, c)) == l + [t.node]
  {
    PlugOrder(c, t);
    Split(Before(c), InOrder(t.left), t.node, InOrder(t.right), After(c));
  }

  lemma StepDown(c: Path, t: Tree)
    requires t.Branch?
    ensures Before(GoLeft(t.node, t.red, t.right, c)) == Before(c)
    ensures After(GoRight(t.left, t.node, t.red, c)) == After(c)
    ensures Plug(GoLeft(t.node, t.red, t.right, c), t.left) == Plug(c, t)
    ensures Plug(GoRight(t.left, t.node, t.red, c), t.right) == Plug(c, t)
  {
  }

  lemma OrderAtGap(c: Path)
    ensures InOrder(Plug(c, Leaf)) == Before(c) + After(c)
  {
    PlugOrder(c, Leaf);
  }

  lemma PlugRedBlack(c: Path, t: Tree)
    requires Balanced(t) && NoRedRed(t) && Fits(c, BlackHeight(t)) && PathOk(c)
    requires IsRed(t) ==> !RedAbove(c)
    ensures Balanced(Plug(c, t)) && NoRedRed(Plug(c, t)) && (!c.Top? ==> !IsRed(Plug(c, t)))
    decreases c
  {
    if !c.Top? {
      PlugRedBlack(c.up, Up(c, t));
    }
  }

  lemma UnplugRedBlack(c: Path, t: Tree)
    requires Balanced(Plug(c, t)) && NoRedRed(Plug(c, t)) && !IsRed(Plug(c, t))
    ensures Balanced(t) && NoRedRed(t) && Fits(c, BlackHeight(t)) && PathOk(c)
    ensures IsRed(t) ==> !c.Top? && !c.red
    decreases c
  {
    if !c.Top? {
      UnplugRedBlack(c.up, Up(c, t));
    }
  }

  lemma BlackenedRoot(t: Tree)
    requires Balanced(t) && NoRedRed(t)
    ensures RedBlack(Blacken(t)) && InOrder(Blacken(t)) == InOrder(t)
  {
  }

  // ----- rb_insert_color

  /** t is a red node and all is in order, except that the node above it may be red too. */
  ghost predicate RedAt(c: Path, t: Tree) {
    IsRed(t) && NoRedRed(t) && Balanced(t) && Fits(c, BlackHeight(t)) && PathOk(c)
  }

  /** Grandparent c, its children t and Sibling(c): blackness moves from c to both children. */
  ghost function PushedDown(c: Path, t: Tree): Tree
    requires !c.Top?
  {
    if c.GoLeft? then Branch(Blacken(t), c.node, true, Blacken(c.right))
    else Branch(Blacken(c.left), c.node, true, Blacken(t))
  }

  lemma PushedDownOk(c: Path, t: Tree)
    requires RedAt(c, t) && RedAbove(c) && IsRed(Sibling(c.up))
    ensures RedAt(c.up.up, PushedDown(c.up, Up(c, t)))
    ensures InOrder(PushedDown(c.up, Up(c, t))) == InOrder(Up(c.up, Up(c, t)))
  {
    assert Fits(c.up, BlackHeight(t)) && PathOk(c.up);
    assert NoRedRed(Sibling(c.up)) && Balanced(Sibling(c.up));
    var p := Up(c, t);
    assert NoRedRed(Blacken(p)) && Balanced(Blacken(p));
  }

  /** The grandparent's subtree when the parent p is its black left child, turned to the right. */
  lemma TurnedRightOk(up: Path, p: Tree, g: Node, u: Tree)
    requires p.Branch? && RedAt(GoLeft(p.node, true, p.right, GoLeft(g, false, u, up)), p.left) && !IsRed(u)
    ensures RedAt(GoLeft(p.node, false, Branch(p.right, g, true, u), up), p.left)
  {
    var c := GoLeft(g, false, u, up);
    assert Fits(c, BlackHeight(p.left)) && PathOk(c);
  }

  lemma TurnedLeftOk(up: Path, p: Tree, g: Node, u: Tree)
    requires p.Branch? && RedAt(GoRight(p.left, p.node, true, GoRight(u, g, false, up)), p.right) && !IsRed(u)
    ensures RedAt(GoRight(Branch(u, g, true, p.left), p.node, false, up), p.right)
  {
    var c := GoRight(u, g, false, up);
    assert Fits(c, BlackHeight(p.right)) && PathOk(c);
  }

  lemma {:induction false} RotateOrder(t: Tree)
    ensures t.Branch? && t.right.Branch? ==> InOrder(RotL(t)) == InOrder(t)
    ensures t.Branch? && t.left.Branch? ==> InOrder(RotR(t)) == InOrder(t)
  {
    if t.Branch? && t.right.Branch? {
      Reorder(InOrder(t.left), t.node, InOrder(t.right.left), t.right.node, InOrder(t.right.right));
    }
    if t.Branch? && t.left.Branch? {
      Reorder(InOrder(t.left.left), t.left.node, InOrder(t.left.right), t.node, InOrder(t.right));
    }
  }

  lemma Reorder(a: seq<Node>, x: Node, b: seq<Node>, y: Node, c: seq<Node>)
    ensures (a + [x] + b) + [y] + c == a + [x] + (b + [y] + c)
  {
  }

  lemma SameOrder(c: Path, t: Tree, t': Tree)
    requires InOrder(t) == InOrder(t')
    ensures InOrder(Plug(c, t)) == InOrder(Plug(c, t'))
  {
    PlugOrder(c, t);
    PlugOrder(c, t');
  }

  // ----- __rb_erase_color

  /** The subtree t is one black node short; apart from that, and from a red top of t under a red parent, all is in
      order. */
  ghost predicate Short(c: Path, t: Tree) {
    Balanced(t) && NoRedRed(Blacken(t)) && Fits(c, BlackHeight(t) + 1) && PathOk(c)
  }

  lemma ShortMended(c: Path, t: Tree)
    requires Short(c, t) && (c.Top? || IsRed(t))
    ensures RedBlack(Plug(c, Blacken(t))) && InOrder(Plug(c, Blacken(t))) == InOrder(Plug(c, t))
  {
    PlugRedBlack(c, Blacken(t));
    SameOrder(c, Blacken(t), t);
  }

  /** A red sibling: it is turned above the parent, and the new sibling is black. */
  lemma RedSiblingLeft(c: Path, t: Tree)
    requires Short(c, t) && c.GoLeft? && IsRed(c.right)
    ensures !c.red && Short(GoLeft(c.node, true, c.right.left, GoLeft(c.right.node, false, c.right.right, c.up)), t)
    ensures !IsRed(c.right.left)
  {
    var s := c.right;
    assert NoRedRed(s) && Balanced(s);
    var c1 := GoLeft(s.node, false, s.right, c.up);
    assert Fits(c1, BlackHeight(t) + 1) && PathOk(c1);
  }

  lemma RedSiblingRight(c: Path, t: Tree)
    requires Short(c, t) && c.GoRight? && IsRed(c.left)
    ensures !c.red && Short(GoRight(c.left.right, c.node, true, GoRight(c.left.left, c.left.node, false, c.up)), t)
    ensures !IsRed(c.left.right)
  {
    var s := c.left;
    assert NoRedRed(s) && Balanced(s);
    var c1 := GoRight(s.left, s.node, false, c.up);
    assert Fits(c1, BlackHeight(t) + 1) && PathOk(c1);
  }

  /** A black sibling with black children turns red: now the parent's subtree is short. */
  lemma ShortMovedUp(c: Path, t: Tree)
    requires Short(c, t) && !c.Top? && Sibling(c).Branch? && !IsRed(Sibling(c)) && !IsRed(t)
    requires !IsRed(Sibling(c).left) && !IsRed(Sibling(c).right)
    ensures
      var s := Sibling(c).(red := true);
      var p := if c.GoLeft? then Branch(t, c.node, c.red, s) else Branch(s, c.node, c.red, t);
      Short(c.up, p) && InOrder(p) == InOrder(Up(c, t))
  {
    assert NoRedRed(Sibling(c)) && Balanced(Sibling(c));
    assert InOrder(Sibling(c).(red := true)) == InOrder(Sibling(c));
  }

  /** A black sibling whose far child is black and near child red: the near child is turned up. */
  lemma NearNephewLeft(c: Path, t: Tree)
    requires Short(c, t) && c.GoLeft? && c.right.Branch? && !c.right.red && IsRed(c.right.left)
    requires !IsRed(c.right.right)
    ensures var s := RotR(c.right.(red := true, left := Blacken(c.right.left)));
      && Short(c.(right := s), t) && !s.red && IsRed(s.right) && InOrder(s) == InOrder(c.right)
  {
    var s := c.right;
    assert NoRedRed(s) && Balanced(s) && NoRedRed(s.left) && Balanced(s.left);
  }

  lemma NearNephewRight(c: Path, t: Tree)
    requires Short(c, t) && c.GoRight? && c.left.Branch? && !c.left.red && IsRed(c.left.right)
    requires !IsRed(c.left.left)
    ensures var s := RotL(c.left.(red := true, right := Blacken(c.left.right)));
      && Short(c.(left := s), t) && !s.red && IsRed(s.left) && InOrder(s) == InOrder(c.left)
  {
    var s := c.left;
    assert NoRedRed(s) && Balanced(s) && NoRedRed(s.right) && Balanced(s.right);
  }

  /** A black sibling with a red far child: turning the parent down makes up for the missing node. */
  lemma FarNephewLeft(c: Path, t: Tree)
    requires Short(c, t) && c.GoLeft? && c.right.Branch? && !c.right.red && IsRed(c.right.right) && !IsRed(t)
    ensures
      var p := Branch(Branch(t, c.node, false, c.right.left), c.right.node, c.red, Blacken(c.right.right));
      RedBlack(Plug(c.up, p)) && InOrder(p) == InOrder(Up(c, t))
  {
    var s := c.right;
    assert NoRedRed(s) && Balanced(s) && NoRedRed(s.right) && Balanced(s.right);
    var p := Branch(Branch(t, c.node, false, s.left), s.node, c.red, Blacken(s.right));
    assert BlackHeight(p) == BlackHeight(t) + 1 + if c.red then 0 else 1;
    PlugRedBlack(c.up, p);
    RotateOrder(Up(c, t));
  }

  lemma FarNephewRight(c: Path, t: Tree)
    requires Short(c, t) && c.GoRight? && c.left.Branch? && !c.left.red && IsRed(c.left.left) && !IsRed(t)
    ensures
      var p := Branch(Blacken(c.left.left), c.left.node, c.red, Branch(c.left.right, c.node, false, t));
      RedBlack(Plug(c.up, p)) && InOrder(p) == InOrder(Up(c, t))
  {
    var s := c.left;
    assert NoRedRed(s) && Balanced(s) && NoRedRed(s.left) && Balanced(s.left);
    var p := Branch(Blacken(s.left), s.node, c.red, Branch(s.right, c.node, false, t));
    assert BlackHeight(p) == BlackHeight(t) + 1 + if c.red then 0 else 1;
    PlugRedBlack(c.up, p);
    RotateOrder(Up(c, t));
  }

  // ----- rb_erase

  /** All steps of the path go left. */
  ghost predicate Spine(d: Path) {
    !d.Top? ==> d.GoLeft? && Spine(d.up)
  }

  lemma SpineOrder(d: Path, t: Tree)
    requires Spine(d)
    ensures InOrder(Plug(d, t)) == InOrder(t) + After(d)
  {
    PlugOrder(d, t);
    SpineBefore(d);
  }

  lemma SpineBefore(d: Path)
    requires Spine(d)
    ensures Before(d) == []
  {
    if !d.Top? {
      SpineBefore(d.up);
    }
  }

  /** Which node stands at the bend of a path matters neither to colours nor to heights. */
  lemma Renamed(d: Path, b: Path, x: Node, h: nat)
    requires !b.Top?
    ensures Fits(Append(d, b.(node := x)), h) <==> Fits(Append(d, b), h)
    ensures PathOk(Append(d, b.(node := x))) <==> PathOk(Append(d, b))
    ensures RedAbove(Append(d, b.(node := x))) <==> RedAbove(Append(d, b))
    decreases d
  {
    if !d.Top? {
      Renamed(d.up, b, x, h + if d.red then 0 else 1);
    }
  }

  /** Taking out a node with at most one child d leaves the path short exactly if it was black. */
  lemma TakenOut(c: Path, t: Tree, d: Tree)
    requires RedBlack(Plug(c, t)) && t.Branch?
    requires (t.left.Leaf? && d == t.right) || (t.right.Leaf? && d == t.left)
    ensures if t.red then Balanced(d) && NoRedRed(d) && Fits(c, BlackHeight(d)) && PathOk(c) && !IsRed(d)
            else Short(c, d)
  {
    hide Fits, PathOk, Plug, Balanced, NoRedRed, BlackHeight;
    UnplugRedBlack(c, t);
    OnlyChild(t, d);
  }

  /** What is known of a child without a sibling. */
  lemma OnlyChild(t: Tree, d: Tree)
    requires Balanced(t) && NoRedRed(t) && t.Branch?
    requires (t.left.Leaf? && d == t.right) || (t.right.Leaf? && d == t.left)
    ensures Balanced(d) && NoRedRed(d) && NoRedRed(Blacken(d)) && (t.red ==> !IsRed(d))
    ensures BlackHeight(t) == BlackHeight(d) + if t.red then 0 else 1
  {
  }

  lemma WithoutAt(a: seq<Node>, x: Node, b: seq<Node>)
    requires x !in a
    ensures Without(a + [x] + b, x) == a + b
  {
    if a == [] {
      assert a + [x] + b == [x] + b && a + b == b;
    } else {
      assert (a + [x] + b)[1..] == a[1..] + [x] + b;
      WithoutAt(a[1..], x, b);
      assert [a[0]] + (a[1..] + b) == a + b;
    }
  }

  lemma WithoutMiddle(p: seq<Node>, l: seq<Node>, x: Node, r: seq<Node>, q: seq<Node>)
    requires x !in p && x !in l
    ensures Without(p + (l + [x] + r) + q, x) == p + (l + r) + q
  {
    hide Without;
    WithoutAt(p + l, x, r + q);
    Split(p, l, x, r, q);
    assert p + (l + r) + q == (p + l) + (r + q);
  }

  lemma OrderHas(t: Tree, n: Node)
    ensures n in InOrder(t) <==> n in Nodes(t)
  {
  }

  lemma BeforeIsAbove(c: Path, n: Node)
    requires n in Before(c)
    ensures n in Above(c)
  {
    if c.GoLeft? {
      BeforeIsAbove(c.up, n);
    } else if n in Before(c.up) {
      BeforeIsAbove(c.up, n);
    } else {
      OrderHas(c.left, n);
    }
  }

  lemma ErasedOrder(c: Path, t: Tree, t': Tree)
    requires Distinct(t) && Nodes(t) !! Above(c) && t.Branch?
    requires InOrder(t') == InOrder(t.left) + InOrder(t.right)
    ensures InOrder(Plug(c, t')) == Without(InOrder(Plug(c, t)), t.node)
  {
    PlugOrder(c, t);
    PlugOrder(c, t');
    OrderHas(t.left, t.node);
    if t.node in Before(c) {
      BeforeIsAbove(c, t.node);
    }
    WithoutMiddle(Before(c), InOrder(t.left), t.node, InOrder(t.right), After(c));
  }

  /** Taking out the successor s of t's top, and putting it in the top's place. */
  lemma SuccessorOk(c: Path, t: Tree, d: Path, s: Tree)
    requires RedBlack(Plug(c, t)) && t.Branch? && Plug(d, s) == t.right && s.Branch? && s.left.Leaf?
    ensures
      var e := Append(d, GoRight(t.left, s.node, t.red, c));
      if s.red then
        Balanced(s.right) && NoRedRed(s.right) && Fits(e, BlackHeight(s.right)) && PathOk(e) && !IsRed(s.right)
      else
        Short(e, s.right)
  {
    var b := GoRight(t.left, t.node, t.red, c);
    AppendPlug(d, b, s);
    TakenOut(Append(d, b), s, s.right);
    Renamed(d, b, s.node, BlackHeight(s.right) + if s.red then 0 else 1);
  }

  lemma SuccessorOrder(c: Path, t: Tree, d: Path, s: Tree)
    requires Distinct(t) && Nodes(t) !! Above(c) && t.Branch?
    requires Spine(d) && Plug(d, s) == t.right && s.Branch? && s.left.Leaf?
    ensures
      InOrder(Plug(Append(d, GoRight(t.left, s.node, t.red, c)), s.right)) == Without(InOrder(Plug(c, t)), t.node)
  {
    var b, t' := GoRight(t.left, s.node, t.red, c), Branch(t.left, s.node, t.red, Plug(d, s.right));
    AppendPlug(d, b, s.right);
    SpineOrder(d, s);
    SpineOrder(d, s.right);
    Shift(InOrder(t.left), s.node, InOrder(s.right), After(d));
    ErasedOrder(c, t, t');
  }

  lemma Shift(l: seq<Node>, x: Node, r: seq<Node>, a: seq<Node>)
    ensures l + [x] + (r + a) == l + (([] + [x] + r) + a)
  {
  }

  lemma AppendPlug(d: Path, b: Path, t: Tree)
    ensures Plug(Append(d, b), t) == Plug(b, Plug(d, t))
    decreases d
  {
    if !d.Top? {
      assert Up(Append(d, b), t) == Up(d, t);
      AppendPlug(d.up, b, Up(d, t));
    }
  }

  lemma PlugBranch(d: Path, t: Tree)
    requires !d.Top?
    ensures Plug(d, t).Branch?
    decreases d
  {
    if !d.up.Top? {
      PlugBranch(d.up, Up(d, t));
    }
  }

  /** The innermost node of a path is the bend only if nothing lies below the bend. */
  lemma WasIsBend(m: Memory, root: Node?, d: Path, b: Path, t: Tree)
    requires At(m, root, Append(d, b), t) && !b.Top? && Hole(Append(d, b)) == b.node
    ensures d.Top?
  {
    if !d.Top? {
      AppendAbove(d.up, b);
    }
  }

  lemma AppendAbove(d: Path, b: Path)
    ensures Above(b) <= Above(Append(d, b))
  {
  }

  // ----- the order as a sequence

  lemma OrderNoTwice(t: Tree)
    requires Distinct(t)
    ensures NoTwice(InOrder(t))
  {
    if t.Branch? {
      OrderNoTwice(t.left);
      OrderNoTwice(t.right);
      var l, s := InOrder(t.left), InOrder(t);
      forall i, j | 0 <= i < j < |s|
        ensures s[i] != s[j]
      {
        OrderHas(t.left, s[i]);
        OrderHas(t.right, s[j]);
      }
    }
  }

  /** Where a node stands in the order. */
  lemma IndexAt(c: Path, t: Tree, i: nat)
    requires t.Branch? && Distinct(Plug(c, t))
    requires i < |InOrder(Plug(c, t))| && InOrder(Plug(c, t))[i] == t.node
    ensures InOrder(Plug(c, t))[i + 1..] == InOrder(t.right) + After(c)
  {
    PlugOrder(c, t);
    OrderNoTwice(Plug(c, t));
    IndexIn(Before(c), InOrder(t.left), t.node, InOrder(t.right), After(c), i);
  }

  lemma IndexIn(p: seq<Node>, l: seq<Node>, x: Node, r: seq<Node>, q: seq<Node>, i: nat)
    requires var s := p + (l + [x] + r) + q; NoTwice(s) && i < |s| && s[i] == x
    ensures (p + (l + [x] + r) + q)[i + 1..] == r + q
  {
    var s := p + (l + [x] + r) + q;
    assert s[|p| + |l|] == x;
  }

  // ----- balance bounds the height

  ghost function Height(t: Tree): nat {
    if t.Leaf? then 0 else 1 + if Height(t.left) > Height(t.right) then Height(t.left) else Height(t.right)
  }

  lemma HeightByBlacks(t: Tree)
    requires Balanced(t) && NoRedRed(t)
    ensures Height(t) <= 2 * BlackHeight(t) + if IsRed(t) then 1 else 0
  {
  }

  lemma {:induction false} SizeByBlacks(t: Tree)
    requires Balanced(t)
    ensures |InOrder(t)| + 1 >= BitIo.Pow2(BlackHeight(t))
  {
    match t
    case Leaf =>
    case Branch(l, _, _, r) =>
      SizeByBlacks(l);
      SizeByBlacks(r);
  }

  lemma PowSquare(n: nat, h: nat)
    requires h <= 2 * n
    ensures 1 <= BitIo.Pow2(h) <= BitIo.Pow2(n) * BitIo.Pow2(n)
    decreases n
  {
    if n == 0 {
    } else if h < 2 {
      PowSquare(n - 1, 0);
      Doubled(BitIo.Pow2(n - 1));
    } else {
      PowSquare(n - 1, h - 2);
      Doubled(BitIo.Pow2(n - 1));
    }
  }

  lemma Doubled(a: nat)
    ensures (2 * a) * (2 * a) == 4 * (a * a)
  {
  }

  lemma SquareGrows(a: nat, b: nat)
    requires a <= b
    ensures a * a <= b * b
  {
    assert a * a <= a * b <= b * b;
  }

  /** A red-black tree of n nodes has height at most 2 log2(n + 1). */
  lemma HeightIsLogarithmic(t: Tree)
    requires RedBlack(t)
    ensures BitIo.Pow2(Height(t)) <= (|InOrder(t)| + 1) * (|InOrder(t)| + 1)
  {
    HeightByBlacks(t);
    SizeByBlacks(t);
    PowSquare(BlackHeight(t), Height(t));
    SquareGrows(BitIo.Pow2(BlackHeight(t)), |InOrder(t)| + 1);
  }
}
