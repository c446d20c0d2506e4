/** The active tree of a service tree as the scheduler keeps it: entities linked by left,
    right and parent pointers, each caching the minimum start time of its subtree. Every
    operation is proved against the value trees of FinishTree. */
module ActiveTree {
  import opened Basics
  import opened FinishTree

  class Entity {
    var start: int
    var finish: int
    var minStart: int
    var left: Entity?
    var right: Entity?
    var parent: Entity?

    constructor (start: int, finish: int)
      ensures this.start == start && this.finish == finish
      ensures left == null && right == null && parent == null
    {
      this.start, this.finish, this.minStart := start, finish, start;
      left, right, parent := null, null, null;
    }
  }

  type Shape = Tree<Entity>

  ghost function Root(t: Shape): (e: Entity?) {
    if t.Leaf? then null else t.it.k
  }

  /** The pointers and keys in the heap below `p` spell out the tree `t`. */
  ghost predicate Linked(t: Shape, p: Entity?)
    reads Keys(t)`left, Keys(t)`right, Keys(t)`parent, Keys(t)`start, Keys(t)`finish
  {
    t.Node? ==>
      && t.it.k.parent == p
      && t.it.k.left == Root(t.left) && t.it.k.right == Root(t.right)
      && t.it.k.start == t.it.start && t.it.k.finish == t.it.finish
      && Linked(t.left, t.it.k) && Linked(t.right, t.it.k)
  }

  /** Every node of `t` caches the exact minimum start time of its subtree. */
  ghost predicate MinOk(t: Shape)
    reads Keys(t)`minStart
  {
    t.Node? ==> t.it.k.minStart == MinStart(t) && MinOk(t.left) && MinOk(t.right)
  }

  // ---------------------------------------------------------------- contexts

  /** A tree with a hole: the path from the hole up to the root. */
  datatype Path =
    | Top
    | InLeft(up: Path, it: Item<Entity>, right: Shape)
    | InRight(up: Path, left: Shape, it: Item<Entity>)

  ghost function Plug(c: Path, t: Shape): (r: Shape) {
    match c
    case Top => t
    case InLeft(up, it, r) => Plug(up, Node(t, it, r))
    case InRight(up, l, it) => Plug(up, Node(l, it, t))
  }

  ghost function PathKeys(c: Path): (s: set<Entity>) {
    match c
    case Top => {}
    case InLeft(up, it, r) => PathKeys(up) + {it.k} + Keys(r)
    case InRight(up, l, it) => PathKeys(up) + {it.k} + Keys(l)
  }

  ghost function Above(c: Path): (e: Entity?) {
    if c.Top? then null else c.it.k
  }

  ghost predicate PathUnique(c: Path) {
    match c
    case Top => true
    case InLeft(up, it, r) =>
      PathUnique(up) && Unique(r) && it.k !in PathKeys(up) && it.k !in Keys(r) && PathKeys(up) !! Keys(r)
    case InRight(up, l, it) =>
      PathUnique(up) && Unique(l) && it.k !in PathKeys(up) && it.k !in Keys(l) && PathKeys(up) !! Keys(l)
  }

  /** The links of the path, with `child` in the hole. */
  ghost predicate PathLinked(c: Path, child: Entity?)
    reads PathKeys(c)`left, PathKeys(c)`right, PathKeys(c)`parent, PathKeys(c)`start, PathKeys(c)`finish
  {
    match c
    case Top => true
    case InLeft(up, it, r) =>
      && it.k.parent == Above(up) && it.k.left == child && it.k.right == Root(r)
      && it.k.start == it.start && it.k.finish == it.finish
      && Linked(r, it.k) && PathLinked(up, it.k)
    case InRight(up, l, it) =>
      && it.k.parent == Above(up) && it.k.left == Root(l) && it.k.right == child
      && it.k.start == it.start && it.k.finish == it.finish
      && Linked(l, it.k) && PathLinked(up, it.k)
  }

  /** The subtrees hanging off the path cache correct minima; nothing is said of the path itself. */
  ghost predicate PathMinOk(c: Path)
    reads PathKeys(c)`minStart
  {
    match c
    case Top => true
    case InLeft(up, _, r) => MinOk(r) && PathMinOk(up)
    case InRight(up, l, _) => MinOk(l) && PathMinOk(up)
  }

  lemma {:induction false} PlugKeys(c: Path, t: Shape)
    ensures Keys(Plug(c, t)) == PathKeys(c) + Keys(t)
  {
    match c
    case Top =>
    case InLeft(up, it, r) => PlugKeys(up, Node(t, it, r));
    case InRight(up, l, it) => PlugKeys(up, Node(l, it, t));
  }

  lemma {:induction false} PlugUnique(c: Path, t: Shape)
    ensures Unique(Plug(c, t)) <==> PathUnique(c) && Unique(t) && PathKeys(c) !! Keys(t)
  {
    match c
    case Top =>
    case InLeft(up, it, r) => PlugUnique(up, Node(t, it, r));
    case InRight(up, l, it) => PlugUnique(up, Node(l, it, t));
  }

  lemma {:induction false} PlugLinked(c: Path, t: Shape)
    ensures Linked(Plug(c, t), null) <==> PathLinked(c, Root(t)) && Linked(t, Above(c))
    ensures Root(Plug(c, t)) == if c.Top? then Root(t) else TopOf(c)
  {
    match c
    case Top =>
    case InLeft(up, it, r) => PlugLinked(up, Node(t, it, r));
    case InRight(up, l, it) => PlugLinked(up, Node(l, it, t));
  }

  /** The root of the tree a non-empty path belongs to. */
  ghost function TopOf(c: Path): (e: Entity?) {
    if c.Top? then null else if c.up.Top? then c.it.k else TopOf(c.up)
  }

  lemma {:induction false} PlugMinOk(c: Path, t: Shape)
    ensures MinOk(Plug(c, t)) ==> PathMinOk(c) && MinOk(t)
  {
    match c
    case Top =>
    case InLeft(up, it, r) => PlugMinOk(up, Node(t, it, r));
    case InRight(up, l, it) => PlugMinOk(up, Node(l, it, t));
  }

  // Locating a node, and the left spine that leads to its successor.

  ghost function PathTo(t: Shape, e: Entity, above: Path): (c: Path)
    requires e in Keys(t)
  {
    if t.it.k == e then above
    else if e in Keys(t.left) then PathTo(t.left, e, InLeft(above, t.it, t.right))
    else PathTo(t.right, e, InRight(above, t.left, t.it))
  }

  ghost function Subtree(t: Shape, e: Entity): (s: Shape)
    requires e in Keys(t)
  {
    if t.it.k == e then t
    else if e in Keys(t.left) then Subtree(t.left, e)
    else Subtree(t.right, e)
  }

  lemma {:induction false} PathToRemoves(t: Shape, e: Entity, above: Path)
    requires e in Keys(t) && Unique(t)
    ensures var c, s := PathTo(t, e, above), Subtree(t, e);
            && s.Node? && s.it.k == e
            && Plug(c, s) == Plug(above, t)
            && Plug(c, Join(s.left, s.right)) == Plug(above, Remove(t, e))
  {
    if t.it.k != e {
      if e in Keys(t.left) {
        PathToRemoves(t.left, e, InLeft(above, t.it, t.right));
      } else {
        PathToRemoves(t.right, e, InRight(above, t.left, t.it));
      }
    }
  }

  ghost function LeftSpine(r: Shape, base: Path): (c: Path)
    requires r.Node?
  {
    if r.left.Leaf? then base else LeftSpine(r.left, InLeft(base, r.it, r.right))
  }

  ghost function FirstRight(r: Shape): (t: Shape)
    requires r.Node?
  {
    if r.left.Leaf? then r.right else FirstRight(r.left)
  }

  lemma {:induction false} SpinePlugs(r: Shape, base: Path)
    requires r.Node?
    ensures Plug(LeftSpine(r, base), Node(Leaf, First(r), FirstRight(r))) == Plug(base, r)
    ensures Plug(LeftSpine(r, base), FirstRight(r)) == Plug(base, DropFirst(r))
    ensures r.left.Node? ==> LeftSpine(r, base).InLeft?
  {
    if r.left.Node? {
      SpinePlugs(r.left, InLeft(base, r.it, r.right));
      SpineGrows(r.left, InLeft(base, r.it, r.right));
    }
  }

  lemma {:induction false} SpineGrows(r: Shape, base: Path)
    requires r.Node? && base.InLeft?
    ensures LeftSpine(r, base).InLeft?
  {
    if r.left.Node? {
      SpineGrows(r.left, InLeft(base, r.it, r.right));
    }
  }

  lemma {:induction false} SpineSameParent(r: Shape, base: Path, base': Path)
    requires r.Node? && r.left.Node?
    ensures LeftSpine(r, base).InLeft? && LeftSpine(r, base').InLeft?
    ensures LeftSpine(r, base).it == LeftSpine(r, base').it
    ensures LeftSpine(r, base).it.k in Keys(r)
  {
    var b, b' := InLeft(base, r.it, r.right), InLeft(base', r.it, r.right);
    if r.left.left.Node? {
      SpineSameParent(r.left, b, b');
    }
  }

  lemma {:induction false} SpineMinOk(r: Shape, base: Path)
    requires r.Node? && MinOk(r) && PathMinOk(base)
    ensures PathMinOk(LeftSpine(r, base)) && MinOk(FirstRight(r))
  {
    if r.left.Node? {
      SpineMinOk(r.left, InLeft(base, r.it, r.right));
    }
  }

  /** The deepest node whose subtree changes when a node with subtrees `l` and `r` is taken out
      at `c`, and where it sits afterwards: the place from which the walk must start. */
  ghost function Deepest(c: Path, l: Shape, r: Shape): (spot: (Path, Shape)) {
    if l.Leaf? && r.Leaf? then
      match c
      case Top => (Top, Leaf)
      case InLeft(up, it, right) => (up, Node(Leaf, it, right))
      case InRight(up, left, it) => (up, Node(left, it, Leaf))
    else if r.Leaf? then (c, l)
    else if l.Leaf? then (c, r)
    else
      var spine := LeftSpine(r, InRight(c, l, First(r)));
      if FirstRight(r).Node? then (spine, FirstRight(r))
      else if r.left.Node? && spine.InLeft? then (spine.up, Node(Leaf, spine.it, spine.right))
      else (c, Node(l, First(r), Leaf))
  }

  /** That place is in the tree the removal leaves, and everything off the way up from it still
      caches what it cached before. */
  lemma DeepestSpot(c: Path, l: Shape, r: Shape)
    requires MinOk(l) && MinOk(r) && PathMinOk(c)
    ensures var (d, t) := Deepest(c, l, r);
            && Plug(d, t) == Plug(c, Join(l, r))
            && PathMinOk(d)
            && (t.Node? ==> MinOk(t.left) && MinOk(t.right))
            && (t.Leaf? ==> Plug(c, Join(l, r)) == Leaf)
  {
    if l.Node? && r.Node? {
      SpinePlugs(r, InRight(c, l, First(r)));
      SpineMinOk(r, InRight(c, l, First(r)));
    }
  }

  // ---------------------------------------------------------------- the tree

  /** bfq_update_active_node: the minimum start time of a subtree from its root and children. */
  function Refreshed(e: Entity): (m: int)
    reads e, e.left, e.right
  {
    var a := if e.right != null && e.start > e.right.minStart then e.right.minStart else e.start;
    if e.left != null && a > e.left.minStart then e.left.minStart else a
  }

  lemma RefreshedExact(t: Shape, p: Entity?)
    requires t.Node? && Linked(t, p) && MinOk(t.left) && MinOk(t.right)
    ensures Refreshed(t.it.k) == MinStart(t)
  {
  }

  lemma {:induction false} LinkedItem(t: Shape, p: Entity?, it: Item<Entity>)
    requires Linked(t, p) && it in InOrder(t)
    ensures it.k in Keys(t) && it.k.start == it.start && it.k.finish == it.finish
  {
    if it in InOrder(t.left) {
      LinkedItem(t.left, t.it.k, it);
    } else if it in InOrder(t.right) {
      LinkedItem(t.right, t.it.k, it);
    }
  }

  class ActiveTree {
    var root: Entity?
    ghost var shape: Shape

    ghost predicate Wired()
      reads this, Keys(shape)
    {
      Unique(shape) && Linked(shape, null) && root == Root(shape)
    }

    ghost predicate Valid()
      reads this, Keys(shape)
    {
      Wired() && Sorted(shape) && MinOk(shape)
    }

    constructor ()
      ensures Valid() && shape == Leaf
    {
      root := null;
      shape := Leaf;
    }

    /** Where a walk towards the root stands: at the root of `t`, with everything off the path
        and everything below that node already correct. */
    ghost predicate ClimbingAt(c: Path, t: Shape)
      reads this, Keys(shape), PathKeys(c), Keys(t)
    {
      && Wired() && shape == Plug(c, t) && t.Node?
      && MinOk(t.left) && MinOk(t.right) && PathMinOk(c)
    }

    method RefreshNode(node: Entity, ghost c: Path, ghost t: Shape)
      requires ClimbingAt(c, t) && t.it.k == node
      modifies Keys(shape)`minStart
      ensures ClimbingAt(c, t) && MinOk(t)
    {
      PlugKeys(c, t);
      PlugUnique(c, t);
      PlugLinked(c, t);
      RefreshedExact(t, Above(c));
      node.minStart := Refreshed(node);
    }

    method RefreshSibling(node: Entity, parent: Entity, ghost c: Path, ghost t: Shape)
      requires ClimbingAt(c, t) && t.it.k == node && MinOk(t) && Above(c) == parent
      modifies Keys(shape)`minStart
      ensures ClimbingAt(c, t) && MinOk(t)
    {
      PlugKeys(c, t);
      PlugUnique(c, t);
      PlugLinked(c, t);
      ghost var sibling := if c.InLeft? then c.right else c.left;
      RefreshedExact(t, parent);
      if sibling.Node? {
        RefreshedExact(sibling, parent);
      }
      if node == parent.left && parent.right != null {
        parent.right.minStart := Refreshed(parent.right);
      } else if parent.left != null {
        parent.left.minStart := Refreshed(parent.left);
      }
    }

    /** bfq_update_active_tree: walk from the deepest changed node to the root, refreshing each
        node on the way and its sibling. It repairs the whole tree as soon as everything off
        the path, and everything below the first node, is correct. */
    method UpdateTree(start: Entity, ghost c0: Path, ghost t0: Shape)
      requires ClimbingAt(c0, t0) && t0.it.k == start
      modifies Keys(shape)`minStart
      ensures Wired() && MinOk(shape)
    {
      var node := start;
      ghost var c, t := c0, t0;
      while true
        invariant ClimbingAt(c, t) && t.it.k == node
        decreases c
      {
        RefreshNode(node, c, t);
        PlugLinked(c, t);
        var parent := node.parent;
        if parent == null {
          return;
        }
        RefreshSibling(node, parent, c, t);
        t := if c.InLeft? then Node(t, c.it, c.right) else Node(c.left, c.it, t);
        c := c.up;
        node := parent;
      }
    }

    /** The descent of bfq_insert: the empty place for an entity with this finish time. */
    method FindPlace(finish: int, ghost it: Item<Entity>)
      returns (parent: Entity?, goLeft: bool, ghost c: Path)
      requires Valid() && it.finish == finish
      ensures Valid()
      ensures shape == Plug(c, Leaf) && parent == Above(c) && (c.Top? || (goLeft <==> c.InLeft?))
      ensures FinishTree.Insert(shape, it) == Plug(c, Node(Leaf, it, Leaf))
    {
      parent, goLeft := null, false;
      var node := root;
      ghost var t := shape;
      c := Top;
      while node != null
        invariant Valid() && shape == Plug(c, t) && node == Root(t) && parent == Above(c)
        invariant FinishTree.Insert(shape, it) == Plug(c, FinishTree.Insert(t, it))
        invariant c.Top? || (goLeft <==> c.InLeft?)
        decreases t
      {
        PlugLinked(c, t);
        parent := node;
        goLeft := node.finish > finish;
        if goLeft {
          c, t, node := InLeft(c, t.it, t.right), t.left, node.left;
        } else {
          c, t, node := InRight(c, t.left, t.it), t.right, node.right;
        }
      }
    }

    method SetLink(child: Entity?, parent: Entity?, asLeft: bool, ghost c: Path, ghost t: Shape,
                   ghost was: Entity?, ghost keep: Shape)
      requires PathUnique(c) && PathKeys(c) !! Keys(t)
      requires PathLinked(c, was) && Linked(t, parent) && MinOk(keep)
      requires parent == Above(c) && (c.Top? || (asLeft <==> c.InLeft?))
      modifies this`root, if parent == null then {} else {parent}
      ensures PathLinked(c, child) && Linked(t, parent) && MinOk(keep)
      ensures root == if c.Top? then child else old(root)
    {
      if parent == null {
        root := child;
      } else if asLeft {
        parent.left := child;
      } else {
        parent.right := child;
      }
    }

    /** Point the last link of a path, or the root, at the root of the subtree `t`, whose parent
        link is already right. No link change touches a cached minimum: whatever shape `keep`
        was correct stays so. */
    method Hang(child: Entity?, parent: Entity?, asLeft: bool, ghost c: Path, ghost t: Shape,
                ghost was: Entity?, ghost keep: Shape)
      requires PathUnique(c) && Unique(t) && PathKeys(c) !! Keys(t)
      requires PathLinked(c, was) && Linked(t, parent) && child == Root(t)
      requires parent == Above(c) && (c.Top? || (asLeft <==> c.InLeft?))
      requires c.Top? || root == TopOf(c)
      requires MinOk(keep)
      modifies this, PathKeys(c)
      ensures shape == Plug(c, t) && Wired() && MinOk(keep)
    {
      SetLink(child, parent, asLeft, c, t, was, keep);
      shape := Plug(c, t);
      PlugUnique(c, t);
      PlugLinked(c, t);
    }

    /** rb_link_node: hang the new node into the empty place the descent found. */
    method LinkNew(e: Entity, parent: Entity?, asLeft: bool, ghost c: Path, ghost keep: Shape)
      requires PathUnique(c) && PathLinked(c, null) && MinOk(keep) && e !in PathKeys(c)
      requires root == TopOf(c)
      requires parent == Above(c) && (c.Top? || (asLeft <==> c.InLeft?))
      modifies this, PathKeys(c), e
      ensures shape == Plug(c, Node(Leaf, Item(e, e.start, e.finish), Leaf))
      ensures Wired() && MinOk(keep)
      ensures e.start == old(e.start) && e.finish == old(e.finish)
    {
      e.parent, e.left, e.right := parent, null, null;
      Hang(e, parent, asLeft, c, Node(Leaf, Item(e, e.start, e.finish), Leaf), null, keep);
    }

    /** bfq_active_insert. A node just linked into a plain search tree has no children, so the
        walk that repairs min_start begins at the node itself. */
    method Insert(e: Entity)
      requires Valid() && e !in Keys(shape)
      modifies this, Keys(shape), e
      ensures Valid()
      ensures e.start == old(e.start) && e.finish == old(e.finish)
      ensures shape == FinishTree.Insert(old(shape), Item(e, e.start, e.finish))
    {
      ghost var was, it := shape, Item(e, e.start, e.finish);
      FinishTree.InsertInOrder(was, it);
      FinishTree.InsertItemSorted(InOrder(was), it);
      var parent, goLeft, c := FindPlace(e.finish, it);
      PlugKeys(c, Leaf);
      PlugUnique(c, Leaf);
      PlugLinked(c, Leaf);
      LinkNew(e, parent, goLeft, c, was);
      PlugMinOk(c, Leaf);
      PlugKeys(c, Node(Leaf, it, Leaf));
      UpdateTree(e, c, Node(Leaf, it, Leaf));
    }

    /** Put the child subtree `t` of `u` where `u` was. */
    method Transplant(u: Entity, v: Entity?, ghost c: Path, ghost t: Shape, ghost keep: Shape)
      requires PathUnique(c) && Unique(t) && PathKeys(c) !! Keys(t) && u !in PathKeys(c) && u !in Keys(t)
      requires PathLinked(c, u) && Linked(t, u) && u.parent == Above(c) && v == Root(t)
      requires c.Top? || root == TopOf(c)
      requires MinOk(keep)
      modifies this, PathKeys(c), Keys(t)
      ensures Wired() && shape == Plug(c, t) && MinOk(keep)
    {
      var parent := u.parent;
      assert c.InRight? ==> Root(c.left) != u;
      if v != null {
        v.parent := parent;
      }
      assert Linked(t, parent);
      Hang(v, parent, parent != null && parent.left == u, c, t, u, keep);
    }

    /** Give the subtree `t` another parent; another subtree and the path stay as they are. */
    method SetParent(v: Entity?, parent: Entity?, ghost t: Shape, ghost was: Entity?,
                     ghost other: Shape, ghost q: Entity?, ghost c: Path, ghost child: Entity?, ghost keep: Shape)
      requires Unique(t) && Linked(t, was) && v == Root(t) && MinOk(keep)
      requires Linked(other, q) && Keys(t) !! Keys(other)
      requires PathLinked(c, child) && Keys(t) !! PathKeys(c)
      modifies if v == null then {} else {v}
      ensures Linked(t, parent) && Linked(other, q) && PathLinked(c, child) && MinOk(keep)
    {
      if v != null {
        v.parent := parent;
      }
    }

    /** Let `s` take over the subtrees and the parent of `e`. */
    method Adopt(e: Entity, s: Entity, ghost c: Path, ghost l: Shape, ghost r: Shape, ghost keep: Shape)
      requires Unique(l) && Unique(r)
      requires PathKeys(c) !! Keys(l) && PathKeys(c) !! Keys(r) && Keys(l) !! Keys(r)
      requires e !in Keys(l) && e !in Keys(r) && s !in Keys(l) && s !in Keys(r) && s !in PathKeys(c) && s != e
      requires PathLinked(c, e) && Linked(l, e) && Linked(r, e) && e.left == Root(l) && e.right == Root(r)
      requires MinOk(keep)
      modifies Keys(l), Keys(r), s
      ensures s.start == old(s.start) && s.finish == old(s.finish)
      ensures Linked(Node(l, Item(s, s.start, s.finish), r), e.parent)
      ensures PathLinked(c, e) && MinOk(keep)
    {
      s.left, s.right, s.parent := e.left, e.right, e.parent;
      SetParent(s.left, s, l, e, r, e, c, e, keep);
      SetParent(s.right, s, r, e, l, s, c, e, keep);
    }

    /** Put `s`, which is in no tree, where `e` is. */
    method Replace(e: Entity, s: Entity, ghost c: Path, ghost l: Shape, ghost r: Shape, ghost keep: Shape)
      requires PathUnique(c) && Unique(l) && Unique(r)
      requires PathKeys(c) !! Keys(l) && PathKeys(c) !! Keys(r) && Keys(l) !! Keys(r)
      requires e !in PathKeys(c) && e !in Keys(l) && e !in Keys(r)
      requires s !in PathKeys(c) && s !in Keys(l) && s !in Keys(r) && s != e
      requires PathLinked(c, e) && Linked(l, e) && Linked(r, e) && e.parent == Above(c)
      requires e.left == Root(l) && e.right == Root(r)
      requires c.Top? || root == TopOf(c)
      requires MinOk(keep)
      modifies this, PathKeys(c), Keys(l), Keys(r), s
      ensures s.start == old(s.start) && s.finish == old(s.finish)
      ensures Wired() && shape == Plug(c, Node(l, Item(s, s.start, s.finish), r)) && MinOk(keep)
    {
      var parent := e.parent;
      Adopt(e, s, c, l, r, keep);
      assert c.InRight? ==> Root(c.left) != e;
      Hang(s, parent, parent != null && parent.left == e, c, Node(l, Item(s, s.start, s.finish), r), e, keep);
    }

    /** rb_next for a node with a right child: the leftmost node below `node`. */
    method Leftmost(node: Entity, ghost base: Path, ghost r: Shape, ghost keep: Shape) returns (m: Entity)
      requires Wired() && shape == Plug(base, r) && r.Node? && r.it.k == node && MinOk(keep)
      ensures m == First(r).k && MinOk(keep)
      ensures Wired() && m.left == null && m.right == Root(FirstRight(r)) && m.parent == Above(LeftSpine(r, base))
      ensures Linked(FirstRight(r), m)
    {
      m := node;
      ghost var c, t := base, r;
      PlugLinked(c, t);
      while m.left != null
        invariant Wired() && MinOk(keep)
        invariant shape == Plug(c, t) && t.Node? && t.it.k == m && Linked(t, Above(c))
        invariant First(t) == First(r) && FirstRight(t) == FirstRight(r)
        invariant LeftSpine(t, c) == LeftSpine(r, base)
        decreases t
      {
        m, c, t := m.left, InLeft(c, t.it, t.right), t.left;
        PlugLinked(c, t);
      }
    }

    /** bfq_find_deepest, called before the removal. */
    method FindDeepest(node: Entity, ghost c: Path, ghost t: Shape) returns (deepest: Entity?)
      requires Wired() && MinOk(shape) && shape == Plug(c, t) && t.Node? && t.it.k == node
      ensures Wired() && MinOk(shape) && deepest == Root(Deepest(c, t.left, t.right).1)
    {
      PlugLinked(c, t);
      PlugUnique(c, t);
      if node.right == null && node.left == null {
        deepest := node.parent;
      } else if node.right == null {
        deepest := node.left;
      } else if node.left == null {
        deepest := node.right;
      } else {
        ghost var base := InRight(c, t.left, t.it);
        var next := Leftmost(node.right, base, t.right, shape);
        if t.right.left.Node? {
          SpineSameParent(t.right, base, InRight(c, t.left, First(t.right)));
        }
        deepest := next;
        if deepest.right != null {
          deepest := deepest.right;
        } else if deepest.parent != node {
          deepest := deepest.parent;
        }
      }
    }

    /** Cut the successor of `e` out of the right subtree of `e`. */
    method CutSuccessor(e: Entity, ghost c: Path, ghost t: Shape, ghost keep: Shape) returns (s: Entity)
      requires Wired() && shape == Plug(c, t) && t.Node? && t.it.k == e && MinOk(keep)
      requires t.right.Node?
      modifies this, Keys(shape)
      ensures Wired() && shape == Plug(c, Node(t.left, t.it, DropFirst(t.right))) && MinOk(keep)
      ensures Item(s, s.start, s.finish) == First(t.right)
    {
      ghost var r, base := t.right, InRight(c, t.left, t.it);
      ghost var spine, rest := LeftSpine(r, base), FirstRight(r);
      ghost var cut := Node(Leaf, First(r), rest);
      PlugLinked(c, t);
      s := Leftmost(e.right, base, r, keep);
      SpinePlugs(r, base);
      PlugKeys(spine, cut);
      PlugUnique(spine, cut);
      PlugLinked(spine, cut);
      Transplant(s, s.right, spine, rest, keep);
    }

    /** rb_erase for a node with two children: its successor is cut out and put in its place. */
    method EraseInner(e: Entity, ghost c: Path, ghost t: Shape, ghost keep: Shape)
      requires Wired() && shape == Plug(c, t) && t.Node? && t.it.k == e && MinOk(keep)
      requires t.left.Node? && t.right.Node?
      modifies this, Keys(shape)
      ensures Wired() && shape == Plug(c, Join(t.left, t.right)) && MinOk(keep)
    {
      PlugKeys(c, t);
      PlugUnique(c, t);
      DropFirstUnique(t.right);
      DropFirstInOrder(t.right);
      var s := CutSuccessor(e, c, t, keep);
      ghost var t' := Node(t.left, t.it, DropFirst(t.right));
      PlugKeys(c, t');
      PlugUnique(c, t');
      PlugLinked(c, t');
      Replace(e, s, c, t.left, DropFirst(t.right), keep);
    }

    /** rb_erase without rebalancing. */
    method Erase(e: Entity, ghost c: Path, ghost t: Shape, ghost keep: Shape)
      requires Wired() && shape == Plug(c, t) && t.Node? && t.it.k == e && MinOk(keep)
      modifies this, Keys(shape)
      ensures Wired() && shape == Plug(c, Join(t.left, t.right)) && MinOk(keep)
    {
      PlugKeys(c, t);
      PlugUnique(c, t);
      PlugLinked(c, t);
      if e.right == null {
        Transplant(e, e.left, c, t.left, keep);
      } else if e.left == null {
        Transplant(e, e.right, c, t.right, keep);
      } else {
        EraseInner(e, c, t, keep);
      }
    }

    /** Find the deepest changed node, erase, repair from there. */
    method ExtractAt(e: Entity, ghost c: Path, ghost t: Shape)
      requires Wired() && MinOk(shape) && shape == Plug(c, t) && t.Node? && t.it.k == e
      modifies this, Keys(shape)
      ensures Wired() && MinOk(shape) && shape == Plug(c, Join(t.left, t.right))
    {
      var node := FindDeepest(e, c, t);
      PlugKeys(c, t);
      PlugKeys(c, Join(t.left, t.right));
      JoinInOrder(t.left, t.right);
      Erase(e, c, t, shape);
      PlugMinOk(c, t);
      DeepestSpot(c, t.left, t.right);
      if node != null {
        ghost var (c', t') := Deepest(c, t.left, t.right);
        UpdateTree(node, c', t');
      }
    }

    /** bfq_active_extract. */
    method Extract(e: Entity)
      requires Valid() && e in Keys(shape)
      modifies this, Keys(shape)
      ensures Valid() && shape == Remove(old(shape), e)
    {
      ghost var c, t := PathTo(shape, e, Top), Subtree(shape, e);
      PathToRemoves(shape, e, Top);
      EditsKeepOrder(shape, t.it, e);
      ExtractAt(e, c, t);
    }

    /** bfq_first_active_entity: the same search on the pointers, trusting the cached minima. */
    method FirstActive(vtime: int) returns (first: Entity?)
      requires Wired() && MinOk(shape)
      ensures Wired() && MinOk(shape)
      ensures first == (match Search(shape, vtime, None) case None => null case Some(it) => it.k)
    {
      first := null;
      var node := root;
      ghost var c, t := Top, shape;
      ghost var best: Option<Item<Entity>> := None;
      while node != null
        invariant Wired() && MinOk(shape) && shape == Plug(c, t) && node == Root(t)
        invariant first == if best.Some? then best.value.k else null
        invariant Search(shape, vtime, None) == Search(t, vtime, best)
        decreases t
      {
        PlugLinked(c, t);
        PlugMinOk(c, t);
        if node.start <= vtime {
          first, best := node, Some(t.it);
        }
        if node.left != null && node.left.minStart <= vtime {
          node, c, t := node.left, InLeft(c, t.it, t.right), t.left;
        } else if first != null {
          return;
        } else {
          node, c, t := node.right, InRight(c, t.left, t.it), t.right;
        }
      }
    }

    /** __bfq_lookup_next_entity: jump, then search. On a non-empty tree it always finds a
        member that is eligible at the jumped time. */
    method LookupNext(vtime: int) returns (v: int, e: Entity?)
      requires Valid()
      ensures root == null ==> e == null && v == vtime
      ensures root != null ==>
                && v == VtimeJump(shape, vtime) && e != null && e in Keys(shape) && e.start <= v
                && Search(shape, v, None).Some? && Search(shape, v, None).value.k == e
    {
      v, e := vtime, null;
      if root != null {
        v := if root.minStart > vtime then root.minStart else vtime;
        e := FirstActive(v);
        SearchFindsEligible(shape, v, None);
        KeysInOrder(shape);
        LinkedItem(shape, null, Search(shape, v, None).value);
      }
    }
  }
}
