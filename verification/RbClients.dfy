/** The two users of the tree: a set of strings and a queue of timers. */
module RbStrings {
  import opened RbZipper
  import opened RbBalance
  import opened RbTree

  /** strcmp on strings without NUL. */
  function Strcmp(a: string, b: string): int {
    if a == [] && b == [] then 0
    else if a == [] then -1
    else if b == [] then 1
    else if a[0] < b[0] then -1
    else if a[0] > b[0] then 1
    else Strcmp(a[1..], b[1..])
  }

  lemma StrcmpEqual(a: string, b: string)
    ensures Strcmp(a, b) == 0 <==> a == b
  {
    if a != [] && b != [] && a[0] == b[0] {
      StrcmpEqual(a[1..], b[1..]);
      assert a == [a[0]] + a[1..] && b == [b[0]] + b[1..];
    }
  }

  /** The first difference decides, and a string comes behind its own beginnings. */
  lemma {:induction false} StrcmpFirst(p: string, a: string, b: string)
    ensures Strcmp(p + a, p + b) == Strcmp(a, b)
    ensures a != [] && b != [] && a[0] != b[0] ==> (Strcmp(p + a, p + b) < 0 <==> a[0] < b[0])
    ensures b != [] ==> Strcmp(p, p + b) < 0
  {
    if p == [] {
      assert p + a == a && p + b == b;
    } else {
      StrcmpFirst(p[1..], a, b);
      assert (p + a)[1..] == p[1..] + a && (p + b)[1..] == p[1..] + b;
    }
  }

  lemma StrcmpReverse(a: string, b: string)
    ensures Strcmp(a, b) == -Strcmp(b, a)
  {
  }

  lemma StrcmpTransitive(a: string, b: string, c: string)
    requires Strcmp(a, b) < 0 && Strcmp(b, c) < 0
    ensures Strcmp(a, c) < 0
  {
  }

  ghost predicate AllBelow(keys: map<Node, string>, s: seq<Node>, key: string) {
    forall i :: 0 <= i < |s| ==> s[i] in keys && Strcmp(keys[s[i]], key) < 0
  }

  ghost predicate AllAbove(keys: map<Node, string>, s: seq<Node>, key: string) {
    forall i :: 0 <= i < |s| ==> s[i] in keys && Strcmp(key, keys[s[i]]) < 0
  }

  ghost predicate Ascending(keys: map<Node, string>, s: seq<Node>) {
    && (forall i :: 0 <= i < |s| ==> s[i] in keys)
    && (forall i, j :: 0 <= i < j < |s| ==> Strcmp(keys[s[i]], keys[s[j]]) < 0)
  }

  /** A key below (above) that of x is below (above) everything from x on (up to x). */
  lemma SplitAt(keys: map<Node, string>, l: seq<Node>, x: Node, r: seq<Node>, key: string)
    requires Ascending(keys, l + [x] + r) && x in keys
    ensures Strcmp(key, keys[x]) < 0 ==> AllAbove(keys, [x] + r, key)
    ensures Strcmp(key, keys[x]) > 0 ==> AllBelow(keys, l + [x], key)
  {
    var s := l + [x] + r;
    assert s[|l|] == x;
    StrcmpReverse(key, keys[x]);
    forall i | 0 <= i < |r|
      ensures r[i] in keys && (Strcmp(key, keys[x]) < 0 ==> Strcmp(key, keys[r[i]]) < 0)
    {
      assert s[|l| + 1 + i] == r[i];
      if Strcmp(key, keys[x]) < 0 {
        StrcmpTransitive(key, keys[x], keys[r[i]]);
      }
    }
    forall i | 0 <= i < |l|
      ensures l[i] in keys && (Strcmp(key, keys[x]) > 0 ==> Strcmp(keys[l[i]], key) < 0)
    {
      assert s[i] == l[i];
      if Strcmp(key, keys[x]) > 0 {
        StrcmpTransitive(keys[l[i]], keys[x], key);
      }
    }
  }

  /** A new node with a key in the gap between l and r may be put there. */
  lemma Joined(keys: map<Node, string>, l: seq<Node>, x: Node, r: seq<Node>, key: string)
    requires Ascending(keys, l + r) && x !in keys && AllBelow(keys, l, key) && AllAbove(keys, r, key)
    ensures Ascending(keys[x := key], l + [x] + r)
  {
    var s, o := l + [x] + r, l + r;
    forall i | 0 <= i < |o|
      ensures o[i] in keys && o[i] == s[if i < |l| then i else i + 1]
    {
    }
    forall i, j | 0 <= i < j < |s|
      ensures Strcmp(keys[x := key][s[i]], keys[x := key][s[j]]) < 0
    {
      var i', j' := if i < |l| then i else i - 1, if j < |l| then j else j - 1;
      if i != |l| && j != |l| {
        assert s[i] == o[i'] && s[j] == o[j'];
      }
    }
  }

  /** struct mynode: `keys` leads from an embedded node to the string of its record. */
  class StringTree {
    const tree: Root
    var keys: map<Node, string>

    constructor ()
      ensures Valid() && keys == map[]
    {
      tree := new Root();
      keys := map[];
    }

    ghost predicate Valid()
      reads this, tree, tree.nodes
    {
      tree.Valid() && keys.Keys == tree.nodes && Ascending(keys, tree.Order())
    }

    /** The way down to the place of `key`. */
    ghost predicate Between(key: string, c: Path, t: Tree)
      reads this, tree, tree.nodes
    {
      && tree.Here(c, t) && Plug(c, t) == tree.tree
      && AllBelow(keys, Before(c), key) && AllAbove(keys, After(c), key)
    }

    lemma Descend(key: string, c: Path, t: Tree)
      requires Valid() && Between(key, c, t) && t.Branch?
      ensures t.node in keys
      ensures Strcmp(key, keys[t.node]) < 0 ==> Between(key, GoLeft(t.node, t.red, t.right, c), t.left)
      ensures Strcmp(key, keys[t.node]) > 0 ==> Between(key, GoRight(t.left, t.node, t.red, c), t.right)
    {
      hide At, InOrder, Before, After, Plug;
      OrderAround(c, t);
      assert tree.Order() == InOrder(Plug(c, t));
      SplitAt(keys, Before(c) + InOrder(t.left), t.node, InOrder(t.right) + After(c), key);
      StepDown(c, t);
      tree.Focus(GoLeft(t.node, t.red, t.right, c), t.left);
      tree.Focus(GoRight(t.left, t.node, t.red, c), t.right);
    }

    lemma Absent(key: string, c: Path)
      requires Valid() && Between(key, c, Leaf)
      ensures key !in keys.Values
    {
      PlugOrder(c, Leaf);
      forall n | n in keys
        ensures keys[n] != key
      {
        OrderHas(tree.tree, n);
        StrcmpEqual(keys[n], key);
        StrcmpEqual(key, keys[n]);
      }
    }

    /** my_search. */
    method Search(key: string) returns (node: Node?)
      requires Valid()
      ensures node != null ==> node in keys && keys[node] == key
      ensures node == null ==> key !in keys.Values
    {
      node := tree.root;
      ghost var c, t := Top, tree.tree;
      tree.RootIsTop(t);
      while node != null
        invariant Between(key, c, t) && Addr(t) == node
        decreases t
      {
        Descend(key, c, t);
        tree.LookAt(c, t);
        var result := Strcmp(key, keys[node]);
        if result < 0 {
          node := node.left;
          c, t := GoLeft(t.node, t.red, t.right, c), t.left;
        } else if result > 0 {
          node := node.right;
          c, t := GoRight(t.left, t.node, t.red, c), t.right;
        } else {
          StrcmpEqual(key, keys[node]);
          return;
        }
      }
      Absent(key, c);
    }

    /** The loop of my_insert: the place for a new key, or nothing if the key is there. */
    method Place(key: string) returns (found: bool, parent: Node?, left: bool, ghost c: Path)
      requires Valid()
      ensures found <==> key in keys.Values
      ensures !found ==> Between(key, c, Leaf) && Hole(c) == parent && (!c.Top? ==> left == c.GoLeft?)
    {
      hide At;
      var link := tree.root;
      parent, left := null, false;
      ghost var t := tree.tree;
      c := Top;
      tree.RootIsTop(t);
      while link != null
        invariant Between(key, c, t) && Addr(t) == link && Hole(c) == parent && (!c.Top? ==> left == c.GoLeft?)
        decreases t
      {
        Descend(key, c, t);
        tree.LookAt(c, t);
        var result := Strcmp(key, keys[link]);
        parent := link;
        if result < 0 {
          link, left := link.left, true;
          c, t := GoLeft(t.node, t.red, t.right, c), t.left;
        } else if result > 0 {
          link, left := link.right, false;
          c, t := GoRight(t.left, t.node, t.red, c), t.right;
        } else {
          StrcmpEqual(key, keys[link]);
          return true, parent, left, c;
        }
      }
      Absent(key, c);
      found := false;
    }

    /** my_insert: `data` is a record outside the tree holding the string `key`. */
    method Insert(data: Node, key: string) returns (inserted: bool)
      requires Valid() && data !in keys
      modifies this, tree, tree.nodes, data
      ensures Valid()
      ensures inserted <==> key !in old(keys.Values)
      ensures keys == if inserted then old(keys)[data := key] else old(keys)
      ensures !inserted ==> tree.tree == old(tree.tree) && tree.nodes == old(tree.nodes)
    {
      hide At, RedBlack, InOrder, Before, After, Plug, Ascending, AllBelow, AllAbove;
      var found, parent, left;
      ghost var c;
      found, parent, left, c := Place(key);
      if found {
        return false;
      }
      OrderAtGap(c);
      tree.Attach(data, parent, left, c);
      Joined(keys, Before(c), data, After(c), key);
      keys := keys[data := key];
      return true;
    }
  }
}

module RbTimers {
  import opened Common
  import opened RbZipper
  import opened RbBalance
  import opened RbTree

  ghost predicate NoneLater(expires: map<Node, int>, s: seq<Node>, time: int) {
    forall i :: 0 <= i < |s| ==> s[i] in expires && expires[s[i]] <= time
  }

  ghost predicate AllLater(expires: map<Node, int>, s: seq<Node>, time: int) {
    forall i :: 0 <= i < |s| ==> s[i] in expires && time < expires[s[i]]
  }

  ghost predicate ByTime(expires: map<Node, int>, s: seq<Node>) {
    && (forall i :: 0 <= i < |s| ==> s[i] in expires)
    && (forall i, j :: 0 <= i < j < |s| ==> expires[s[i]] <= expires[s[j]])
  }

  lemma SplitAt(expires: map<Node, int>, l: seq<Node>, x: Node, r: seq<Node>, time: int)
    requires ByTime(expires, l + [x] + r) && x in expires
    ensures time < expires[x] ==> AllLater(expires, [x] + r, time)
    ensures time >= expires[x] ==> NoneLater(expires, l + [x], time)
  {
    var s := l + [x] + r;
    assert s[|l|] == x;
    forall i | 0 <= i < |r|
      ensures r[i] in expires && expires[x] <= expires[r[i]]
    {
      assert s[|l| + 1 + i] == r[i];
    }
    forall i | 0 <= i < |l|
      ensures l[i] in expires && expires[l[i]] <= expires[x]
    {
      assert s[i] == l[i];
    }
  }

  lemma Joined(expires: map<Node, int>, l: seq<Node>, x: Node, r: seq<Node>, time: int)
    requires ByTime(expires, l + r) && x !in expires && NoneLater(expires, l, time) && AllLater(expires, r, time)
    ensures ByTime(expires[x := time], l + [x] + r)
  {
    var s, o := l + [x] + r, l + r;
    forall i | 0 <= i < |o|
      ensures o[i] in expires && o[i] == s[if i < |l| then i else i + 1]
    {
    }
    forall i, j | 0 <= i < j < |s|
      ensures expires[x := time][s[i]] <= expires[x := time][s[j]]
    {
      var i', j' := if i < |l| then i else i - 1, if j < |l| then j else j - 1;
      if i != |l| && j != |l| {
        assert s[i] == o[i'] && s[j] == o[j'];
      }
    }
  }

  lemma Removed(expires: map<Node, int>, s: seq<Node>, x: Node)
    requires ByTime(expires, s) && NoTwice(s)
    ensures ByTime(expires - {x}, Without(s, x)) && x !in Without(s, x)
    ensures forall y :: y in Without(s, x) ==> y in s
  {
    if s != [] {
      var u := s[1..];
      assert forall i :: 0 <= i < |u| ==> u[i] == s[i + 1];
      if s[0] != x {
        Removed(expires, u, x);
        var w := Without(u, x);
        forall i | 0 <= i < |w|
          ensures expires[s[0]] <= expires[w[i]]
        {
          assert w[i] in w;
          var k :| 0 <= k < |u| && u[k] == w[i];
        }
      }
    }
  }

  /** struct timerqueue_head: `expires` leads from an embedded node to the time of its timer. */
  class TimerQueue {
    const head: Root
    var next: Node?
    var expires: map<Node, int>

    constructor ()
      ensures Valid() && expires == map[]
    {
      head := new Root();
      next, expires := null, map[];
    }

    /** The timers stand by time, and `next` is the first of them. */
    ghost predicate Valid()
      reads this, head, head.nodes
    {
      && head.Valid() && expires.Keys == head.nodes && ByTime(expires, head.Order())
      && next == if head.Order() == [] then null else head.Order()[0]
    }

    ghost predicate Between(time: int, c: Path, t: Tree)
      reads this, head, head.nodes
    {
      && head.Here(c, t) && Plug(c, t) == head.tree
      && NoneLater(expires, Before(c), time) && AllLater(expires, After(c), time)
    }

    lemma Descend(time: int, c: Path, t: Tree)
      requires Valid() && Between(time, c, t) && t.Branch?
      ensures t.node in expires
      ensures time < expires[t.node] ==> Between(time, GoLeft(t.node, t.red, t.right, c), t.left)
      ensures time >= expires[t.node] ==> Between(time, GoRight(t.left, t.node, t.red, c), t.right)
    {
      hide At, InOrder, Before, After, Plug;
      OrderAround(c, t);
      assert head.Order() == InOrder(Plug(c, t));
      SplitAt(expires, Before(c) + InOrder(t.left), t.node, InOrder(t.right) + After(c), time);
      StepDown(c, t);
      head.Focus(GoLeft(t.node, t.red, t.right, c), t.left);
      head.Focus(GoRight(t.left, t.node, t.red, c), t.right);
    }

    /** The loop of timerqueue_add. */
    method Place(time: int) returns (parent: Node?, left: bool, ghost c: Path)
      requires Valid()
      ensures Between(time, c, Leaf) && Hole(c) == parent && (!c.Top? ==> left == c.GoLeft?)
    {
      hide At;
      var link := head.root;
      parent, left := null, false;
      ghost var t := head.tree;
      c := Top;
      head.RootIsTop(t);
      while link != null
        invariant Between(time, c, t) && Addr(t) == link && Hole(c) == parent && (!c.Top? ==> left == c.GoLeft?)
        decreases t
      {
        Descend(time, c, t);
        head.LookAt(c, t);
        parent := link;
        if time < expires[parent] {
          link, left := link.left, true;
          c, t := GoLeft(t.node, t.red, t.right, c), t.left;
        } else {
          link, left := link.right, false;
          c, t := GoRight(t.left, t.node, t.red, c), t.right;
        }
      }
    }

    /** timerqueue_add: the new timer goes behind all that expire no later. */
    method Add(node: Node, time: int) returns (ghost l: seq<Node>, ghost r: seq<Node>)
      requires Valid() && node !in expires
      modifies this, head, head.nodes, node
      ensures Valid() && expires == old(expires)[node := time]
      ensures old(head.Order()) == l + r && head.Order() == l + [node] + r
      ensures NoneLater(old(expires), l, time) && AllLater(old(expires), r, time)
    {
      hide At, RedBlack, InOrder, Before, After, Plug, ByTime;
      var parent, left;
      ghost var c;
      parent, left, c := Place(time);
      OrderAtGap(c);
      l, r := Before(c), After(c);
      head.Attach(node, parent, left, c);
      Joined(expires, l, node, r, time);
      assert l != [] ==> next == l[0];
      assert l == [] && r != [] ==> next == r[0];
      if next == null || time < expires[next] {
        next := node;
      }
      expires := expires[node := time];
    }

    /** timerqueue_del. */
    method Delete(node: Node)
      requires Valid() && node in expires
      modifies this, head, head.nodes
      ensures Valid() && expires == old(expires) - {node}
      ensures head.Order() == Without(old(head.Order()), node)
      ensures node.parent == node
    {
      hide At, RedBlack, InOrder, ByTime, Nodes;
      head.NoNodeTwice();
      OrderHas(head.tree, node);
      Removed(expires, head.Order(), node);
      if next == node {
        next := head.Next(node, 0);
      }
      head.Erase(node);
      node.parent := node;
      expires := expires - {node};
    }

    /** timerqueue_iterate_next. */
    method IterateNext(node: Node?, ghost i: nat) returns (n: Node?)
      requires Valid()
      requires node != null ==>
        if node in expires then i < |head.Order()| && head.Order()[i] == node else node.parent == node
      ensures n == if node != null && node in expires && i + 1 < |head.Order()| then head.Order()[i + 1] else null
    {
      if node == null {
        return null;
      }
      n := head.Next(node, i);
    }

    /** Following timerqueue_iterate_next from timerqueue_getnext meets all timers, by time. */
    method Pending() returns (timers: seq<Node>)
      requires Valid()
      ensures timers == head.Order() && ByTime(expires, timers)
    {
      timers := [];
      var node := next;
      while node != null
        invariant timers <= head.Order()
        invariant node == if |timers| < |head.Order()| then head.Order()[|timers|] else null
        decreases |head.Order()| - |timers|
      {
        timers := timers + [node];
        node := IterateNext(node, |timers| - 1);
      }
    }
  }
}
