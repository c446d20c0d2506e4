/** The service trees of B-WF2Q+ as values: binary search trees ordered by virtual
    finish time, searched with the help of the minimum start time of each subtree.

    The tree is a plain search tree: rebalancing is not part of the model. */
module FinishTree {
  import opened Basics

  /** What a tree node knows about an entity. */
  datatype Item<K> = Item(k: K, start: int, finish: int)

  datatype Tree<K> = Leaf | Node(left: Tree<K>, it: Item<K>, right: Tree<K>)

  function InOrder<K>(t: Tree<K>): (s: seq<Item<K>>) {
    match t
    case Leaf => []
    case Node(l, it, r) => InOrder(l) + [it] + InOrder(r)
  }

  function Keys<K>(t: Tree<K>): (s: set<K>) {
    match t
    case Leaf => {}
    case Node(l, it, r) => Keys(l) + {it.k} + Keys(r)
  }

  /** No key is in the tree twice. */
  predicate Unique<K(==)>(t: Tree<K>) {
    match t
    case Leaf => true
    case Node(l, it, r) =>
      && Unique(l) && Unique(r)
      && it.k !in Keys(l) && it.k !in Keys(r) && Keys(l) !! Keys(r)
  }

  ghost predicate SortedItems<K>(s: seq<Item<K>>) {
    forall i, j :: 0 <= i < j < |s| ==> s[i].finish <= s[j].finish
  }

  /** The search order: finish times never decrease from left to right. */
  ghost predicate Sorted<K>(t: Tree<K>) {
    SortedItems(InOrder(t))
  }

  /** The value that min_start must hold at the root of `t`. */
  function MinStart<K>(t: Tree<K>): (m: int)
    requires t.Node?
  {
    var a := if t.left.Node? && MinStart(t.left) < t.it.start then MinStart(t.left) else t.it.start;
    if t.right.Node? && MinStart(t.right) < a then MinStart(t.right) else a
  }

  // ---------------------------------------------------------------- edits

  /** bfq_insert: left of entries that finish strictly later, right of all others. */
  function Insert<K>(t: Tree<K>, it: Item<K>): (r: Tree<K>) {
    match t
    case Leaf => Node(Leaf, it, Leaf)
    case Node(l, x, r) =>
      if x.finish > it.finish then Node(Insert(l, it), x, r) else Node(l, x, Insert(r, it))
  }

  /** The leftmost item of `t`, the successor of the parent `t` hangs from. */
  function First<K>(t: Tree<K>): (it: Item<K>)
    requires t.Node?
  {
    if t.left.Leaf? then t.it else First(t.left)
  }

  function Last<K>(t: Tree<K>): (it: Item<K>)
    requires t.Node?
  {
    if t.right.Leaf? then t.it else Last(t.right)
  }

  function DropFirst<K>(t: Tree<K>): (r: Tree<K>)
    requires t.Node?
  {
    if t.left.Leaf? then t.right else Node(DropFirst(t.left), t.it, t.right)
  }

  /** What takes the place of a removed node whose subtrees were `l` and `r`. */
  function Join<K>(l: Tree<K>, r: Tree<K>): (t: Tree<K>) {
    if r.Leaf? then l
    else if l.Leaf? then r
    else Node(l, First(r), DropFirst(r))
  }

  function Remove<K(==)>(t: Tree<K>, k: K): (r: Tree<K>) {
    match t
    case Leaf => Leaf
    case Node(l, x, r) =>
      if x.k == k then Join(l, r)
      else if k in Keys(l) then Node(Remove(l, k), x, r)
      else Node(l, x, Remove(r, k))
  }

  // Reference definitions on the sequence of items.

  function InsertItem<K>(s: seq<Item<K>>, it: Item<K>): (r: seq<Item<K>>) {
    if s == [] then [it]
    else if s[0].finish > it.finish then [it] + s
    else [s[0]] + InsertItem(s[1..], it)
  }

  function Without<K(==)>(s: seq<Item<K>>, k: K): (r: seq<Item<K>>) {
    if s == [] then []
    else if s[0].k == k then Without(s[1..], k)
    else [s[0]] + Without(s[1..], k)
  }

  lemma {:induction false} KeysInOrder<K>(t: Tree<K>)
    ensures Keys(t) == set x | x in InOrder(t) :: x.k
  {
    if t.Node? {
      KeysInOrder(t.left);
      KeysInOrder(t.right);
      var a, b := InOrder(t.left), InOrder(t.right);
      assert forall x :: x in InOrder(t) <==> x in a || x == t.it || x in b;
    }
  }

  lemma {:induction false} InsertItemLeft<K>(a: seq<Item<K>>, x: Item<K>, b: seq<Item<K>>, it: Item<K>)
    requires x.finish > it.finish
    ensures InsertItem(a + [x] + b, it) == InsertItem(a, it) + [x] + b
  {
    var s := a + [x] + b;
    if a == [] {
      assert s == [x] + b;
    } else if a[0].finish <= it.finish {
      assert s[1..] == a[1..] + [x] + b;
      InsertItemLeft(a[1..], x, b, it);
    } else {
      assert s[0] == a[0];
      assert InsertItem(a, it) + [x] + b == [it] + s;
    }
  }

  lemma {:induction false} InsertItemRight<K>(a: seq<Item<K>>, b: seq<Item<K>>, it: Item<K>)
    requires forall i :: 0 <= i < |a| ==> a[i].finish <= it.finish
    ensures InsertItem(a + b, it) == a + InsertItem(b, it)
  {
    if a == [] {
      assert a + b == b;
    } else {
      assert (a + b)[1..] == a[1..] + b;
      InsertItemRight(a[1..], b, it);
      assert a + InsertItem(b, it) == [a[0]] + (a[1..] + InsertItem(b, it));
    }
  }

  /** Inserting into the tree is inserting into the sorted list of items, behind equals. */
  lemma {:induction false} InsertInOrder<K>(t: Tree<K>, it: Item<K>)
    requires Sorted(t)
    ensures InOrder(Insert(t, it)) == InsertItem(InOrder(t), it)
    ensures Keys(Insert(t, it)) == Keys(t) + {it.k}
  {
    if t.Node? {
      var a, b := InOrder(t.left), InOrder(t.right);
      var s := InOrder(t);
      SortedParts(a, t.it, b);
      if t.it.finish > it.finish {
        InsertInOrder(t.left, it);
        InsertItemLeft(a, t.it, b, it);
      } else {
        InsertInOrder(t.right, it);
        InsertItemRight(a + [t.it], b, it);
      }
    }
  }

  lemma SortedParts<K>(a: seq<Item<K>>, x: Item<K>, b: seq<Item<K>>)
    requires SortedItems(a + [x] + b)
    ensures SortedItems(a) && SortedItems(b)
    ensures forall i :: 0 <= i < |a| ==> a[i].finish <= x.finish
    ensures forall i :: 0 <= i < |b| ==> x.finish <= b[i].finish
  {
    var s := a + [x] + b;
    forall i, j | 0 <= i < j < |a| ensures a[i].finish <= a[j].finish {
      assert s[i] == a[i] && s[j] == a[j];
    }
    forall i, j | 0 <= i < j < |b| ensures b[i].finish <= b[j].finish {
      assert s[|a| + 1 + i] == b[i] && s[|a| + 1 + j] == b[j];
    }
    assert s[|a|] == x;
    forall i | 0 <= i < |a| ensures a[i].finish <= x.finish {
      assert s[i] == a[i];
    }
    forall i | 0 <= i < |b| ensures x.finish <= b[i].finish {
      assert s[|a| + 1 + i] == b[i];
    }
  }

  lemma {:induction false} InsertItemSorted<K>(s: seq<Item<K>>, it: Item<K>)
    requires SortedItems(s)
    ensures SortedItems(InsertItem(s, it))
  {
    if s != [] && s[0].finish <= it.finish {
      var r := InsertItem(s[1..], it);
      InsertItemSorted(s[1..], it);
      HeadLeast(s);
      forall y | y in r ensures s[0].finish <= y.finish {
        InsertItemMember(s[1..], it, y);
      }
      SortedCons(s[0], r);
    }
  }

  lemma {:induction false} InsertItemMember<K>(s: seq<Item<K>>, it: Item<K>, x: Item<K>)
    ensures x in InsertItem(s, it) <==> x in s || x == it
  {
    if s != [] {
      InsertItemMember(s[1..], it, x);
      assert s == [s[0]] + s[1..];
    }
  }

  lemma {:induction false} WithoutMember<K>(s: seq<Item<K>>, k: K, x: Item<K>)
    ensures x in Without(s, k) <==> x in s && x.k != k
  {
    if s != [] {
      WithoutMember(s[1..], k, x);
      assert s == [s[0]] + s[1..];
    }
  }

  lemma HeadLeast<K>(s: seq<Item<K>>)
    requires SortedItems(s) && s != []
    ensures SortedItems(s[1..]) && forall y :: y in s[1..] ==> s[0].finish <= y.finish
  {
    forall y | y in s[1..] ensures s[0].finish <= y.finish {
      var i :| 0 <= i < |s| - 1 && s[1..][i] == y;
      assert s[i + 1] == y;
    }
  }

  lemma SortedCons<K>(x: Item<K>, s: seq<Item<K>>)
    requires SortedItems(s) && forall y :: y in s ==> x.finish <= y.finish
    ensures SortedItems([x] + s)
  {
    var r := [x] + s;
    forall i, j | 0 <= i < j < |r| ensures r[i].finish <= r[j].finish {
      assert r[j] == s[j - 1] && s[j - 1] in s;
      if i > 0 {
        assert r[i] == s[i - 1];
      }
    }
  }

  lemma {:induction false} DropFirstInOrder<K>(t: Tree<K>)
    requires t.Node?
    ensures InOrder(t) == [First(t)] + InOrder(DropFirst(t))
    ensures Keys(t) == {First(t).k} + Keys(DropFirst(t))
  {
    if t.left.Node? {
      DropFirstInOrder(t.left);
    }
  }

  lemma JoinInOrder<K>(l: Tree<K>, r: Tree<K>)
    ensures InOrder(Join(l, r)) == InOrder(l) + InOrder(r)
    ensures Keys(Join(l, r)) == Keys(l) + Keys(r)
  {
    if r.Node? {
      DropFirstInOrder(r);
      assert InOrder(l) + [First(r)] + InOrder(DropFirst(r)) == InOrder(l) + InOrder(r);
    }
  }

  lemma {:induction false} WithoutConcat<K>(a: seq<Item<K>>, b: seq<Item<K>>, k: K)
    ensures Without(a + b, k) == Without(a, k) + Without(b, k)
  {
    if a == [] {
      assert a + b == b;
    } else {
      assert (a + b)[1..] == a[1..] + b;
      WithoutConcat(a[1..], b, k);
    }
  }

  lemma WithoutNode<K>(t: Tree<K>, k: K)
    requires t.Node?
    ensures Without(InOrder(t), k)
         == Without(InOrder(t.left), k) + (if t.it.k == k then [] else [t.it]) + Without(InOrder(t.right), k)
  {
    var a, b := InOrder(t.left), InOrder(t.right);
    WithoutConcat(a + [t.it], b, k);
    WithoutConcat(a, [t.it], k);
    assert Without([t.it], k) == if t.it.k == k then [] else [t.it];
  }

  lemma {:induction false} WithoutAbsent<K>(t: Tree<K>, k: K)
    requires k !in Keys(t)
    ensures Without(InOrder(t), k) == InOrder(t)
  {
    if t.Node? {
      WithoutAbsent(t.left, k);
      WithoutAbsent(t.right, k);
      WithoutNode(t, k);
    }
  }

  lemma RemoveRootInOrder<K>(t: Tree<K>)
    requires t.Node? && Unique(t)
    ensures InOrder(Join(t.left, t.right)) == Without(InOrder(t), t.it.k)
  {
    WithoutNode(t, t.it.k);
    WithoutAbsent(t.left, t.it.k);
    WithoutAbsent(t.right, t.it.k);
    JoinInOrder(t.left, t.right);
    assert InOrder(t.left) + [] == InOrder(t.left);
  }

  /** Removing from the tree removes exactly that entity and keeps the order of the rest. */
  lemma {:induction false} RemoveInOrder<K>(t: Tree<K>, k: K)
    requires Unique(t)
    ensures InOrder(Remove(t, k)) == Without(InOrder(t), k)
  {
    if t.Node? {
      if t.it.k == k {
        RemoveRootInOrder(t);
      } else {
        WithoutNode(t, k);
        if k in Keys(t.left) {
          RemoveInOrder(t.left, k);
          WithoutAbsent(t.right, k);
        } else {
          WithoutAbsent(t.left, k);
          RemoveInOrder(t.right, k);
        }
      }
    }
  }

  lemma {:induction false} RemoveKeys<K>(t: Tree<K>, k: K)
    requires Unique(t)
    ensures Keys(Remove(t, k)) == Keys(t) - {k} && Unique(Remove(t, k))
  {
    if t.Node? {
      if t.it.k == k {
        JoinInOrder(t.left, t.right);
        JoinUnique(t.left, t.right);
      } else if k in Keys(t.left) {
        RemoveKeys(t.left, k);
      } else {
        RemoveKeys(t.right, k);
      }
    }
  }

  lemma {:induction false} DropFirstUnique<K>(t: Tree<K>)
    requires t.Node? && Unique(t)
    ensures Unique(DropFirst(t)) && First(t).k !in Keys(DropFirst(t))
  {
    DropFirstInOrder(t);
    if t.left.Node? {
      DropFirstUnique(t.left);
      DropFirstInOrder(t.left);
    }
  }

  lemma JoinUnique<K>(l: Tree<K>, r: Tree<K>)
    requires Unique(l) && Unique(r) && Keys(l) !! Keys(r)
    ensures Unique(Join(l, r))
  {
    if r.Node? {
      DropFirstUnique(r);
      DropFirstInOrder(r);
    }
  }

  lemma {:induction false} InsertUnique<K>(t: Tree<K>, it: Item<K>)
    requires Unique(t) && it.k !in Keys(t)
    ensures Unique(Insert(t, it)) && Keys(Insert(t, it)) == Keys(t) + {it.k}
  {
    if t.Node? {
      if t.it.finish > it.finish {
        InsertUnique(t.left, it);
      } else {
        InsertUnique(t.right, it);
      }
    }
  }

  lemma {:induction false} WithoutSorted<K>(s: seq<Item<K>>, k: K)
    requires SortedItems(s)
    ensures SortedItems(Without(s, k))
  {
    if s != [] {
      WithoutSorted(s[1..], k);
      assert s == [s[0]] + s[1..];
      HeadLeast(s);
      var r := Without(s[1..], k);
      forall y | y in r ensures s[0].finish <= y.finish {
        WithoutMember(s[1..], k, y);
      }
      SortedCons(s[0], r);
    }
  }

  /** Both edits keep the search order. */
  lemma EditsKeepOrder<K>(t: Tree<K>, it: Item<K>, k: K)
    requires Sorted(t) && Unique(t)
    ensures Sorted(Insert(t, it))
    ensures Sorted(Remove(t, k))
  {
    InsertInOrder(t, it);
    InsertItemSorted(InOrder(t), it);
    RemoveInOrder(t, k);
    WithoutSorted(InOrder(t), k);
  }

  /** The tree as a set of items. */
  ghost function Items<K>(t: Tree<K>): (s: set<Item<K>>) {
    match t
    case Leaf => {}
    case Node(l, it, r) => Items(l) + {it} + Items(r)
  }

  lemma {:induction false} ItemsInOrder<K>(t: Tree<K>, x: Item<K>)
    ensures x in Items(t) <==> x in InOrder(t)
    ensures x in Items(t) ==> x.k in Keys(t)
  {
    if t.Node? {
      ItemsInOrder(t.left, x);
      ItemsInOrder(t.right, x);
      InOrderMember(t, x);
    }
  }

  lemma {:induction false} KeyItem<K>(t: Tree<K>, k: K) returns (x: Item<K>)
    requires k in Keys(t)
    ensures x in Items(t) && x.k == k
  {
    x := t.it;
    if k in Keys(t.left) {
      x := KeyItem(t.left, k);
    } else if k in Keys(t.right) {
      x := KeyItem(t.right, k);
    }
  }

  lemma {:induction false} InsertItems<K>(t: Tree<K>, it: Item<K>)
    ensures Items(Insert(t, it)) == Items(t) + {it}
  {
    if t.Node? {
      if t.it.finish > it.finish {
        InsertItems(t.left, it);
      } else {
        InsertItems(t.right, it);
      }
    }
  }

  lemma {:induction false} DropFirstItems<K>(t: Tree<K>)
    requires t.Node?
    ensures Items(t) == Items(DropFirst(t)) + {First(t)}
  {
    if t.left.Node? {
      DropFirstItems(t.left);
    }
  }

  lemma JoinItems<K>(l: Tree<K>, r: Tree<K>)
    ensures Items(Join(l, r)) == Items(l) + Items(r)
  {
    if r.Node? {
      DropFirstItems(r);
    }
  }

  lemma {:induction false} RemoveItems<K>(t: Tree<K>, x: Item<K>)
    requires Unique(t) && x in Items(t)
    ensures Items(Remove(t, x.k)) == Items(t) - {x}
  {
    ItemsInOrder(t.left, x);
    ItemsInOrder(t.right, x);
    if t.it.k == x.k {
      ItemsInOrder(t.left, t.it);
      ItemsInOrder(t.right, t.it);
      JoinItems(t.left, t.right);
    } else if x in Items(t.left) {
      ItemsInOrder(t.left, t.it);
      RemoveItems(t.left, x);
    } else {
      RemoveItems(t.right, x);
    }
  }

  /** Both edits keep a tree in order, and change its content as they should. */
  lemma InsertFacts<K>(t: Tree<K>, it: Item<K>)
    requires Sorted(t) && Unique(t) && it.k !in Keys(t)
    ensures Sorted(Insert(t, it)) && Unique(Insert(t, it))
    ensures Items(Insert(t, it)) == Items(t) + {it}
  {
    EditsKeepOrder(t, it, it.k);
    InsertUnique(t, it);
    InsertItems(t, it);
  }

  lemma RemoveFacts<K>(t: Tree<K>, x: Item<K>)
    requires Sorted(t) && Unique(t) && x in Items(t)
    ensures Sorted(Remove(t, x.k)) && Unique(Remove(t, x.k))
    ensures Items(Remove(t, x.k)) == Items(t) - {x}
  {
    EditsKeepOrder(t, x, x.k);
    RemoveKeys(t, x.k);
    RemoveItems(t, x);
  }

  /** rb_next and rb_prev: the neighbours of an entity in the order of the tree. */
  function NextKey<K(==)>(s: seq<Item<K>>, k: K): (r: Option<K>) {
    if |s| < 2 then None
    else if s[0].k == k then Some(s[1].k)
    else NextKey(s[1..], k)
  }

  function PrevKey<K(==)>(s: seq<Item<K>>, k: K): (r: Option<K>) {
    if |s| < 2 then None
    else if s[1].k == k then Some(s[0].k)
    else PrevKey(s[1..], k)
  }

  lemma FirstIsHead<K>(t: Tree<K>)
    requires t.Node?
    ensures InOrder(t) != [] && InOrder(t)[0] == First(t)
  {
    DropFirstInOrder(t);
  }

  lemma FirstAfterInsert<K>(t: Tree<K>, it: Item<K>)
    requires Sorted(t)
    ensures Insert(t, it).Node?
    ensures First(Insert(t, it)) == if t.Leaf? || First(t).finish > it.finish then it else First(t)
  {
    InsertInOrder(t, it);
    FirstIsHead(Insert(t, it));
    if t.Node? {
      FirstIsHead(t);
    }
  }

  /** Taking out the first entity makes its successor the first one; taking out another one
      leaves the first in place. */
  lemma FirstAfterRemove<K>(t: Tree<K>, k: K)
    requires Unique(t) && k in Keys(t)
    ensures var r := Remove(t, k);
            && (First(t).k == k && r.Leaf? ==> NextKey(InOrder(t), k) == None)
            && (First(t).k == k && r.Node? ==> NextKey(InOrder(t), k) == Some(First(r).k))
            && (First(t).k != k ==> r.Node? && First(r) == First(t))
  {
    var r := Remove(t, k);
    RemoveInOrder(t, k);
    FirstIsHead(t);
    var s := InOrder(t);
    if First(t).k == k {
      HeadApart(t);
      assert Without(s, k) == s[1..];
    }
    if r.Node? {
      FirstIsHead(r);
    } else {
      assert InOrder(r) == [];
    }
  }

  lemma HeadApart<K>(t: Tree<K>)
    requires t.Node? && Unique(t)
    ensures InOrder(t) != [] && Without(InOrder(t), First(t).k) == InOrder(t)[1..]
  {
    FirstIsHead(t);
    DropFirstInOrder(t);
    DropFirstUnique(t);
    WithoutAbsent(DropFirst(t), First(t).k);
    assert InOrder(t)[1..] == InOrder(DropFirst(t));
  }

  function KeySet<K(==)>(s: seq<Item<K>>): (r: set<K>) {
    if s == [] then {} else {s[0].k} + KeySet(s[1..])
  }

  predicate DistinctKeys<K(==)>(s: seq<Item<K>>) {
    s == [] || (s[0].k !in KeySet(s[1..]) && DistinctKeys(s[1..]))
  }

  lemma {:induction false} DistinctConcat<K>(a: seq<Item<K>>, b: seq<Item<K>>)
    ensures KeySet(a + b) == KeySet(a) + KeySet(b)
    ensures DistinctKeys(a) && DistinctKeys(b) && KeySet(a) !! KeySet(b) ==> DistinctKeys(a + b)
  {
    if a == [] {
      assert a + b == b;
    } else {
      assert (a + b)[1..] == a[1..] + b;
      DistinctConcat(a[1..], b);
    }
  }

  lemma {:induction false} UniqueDistinct<K>(t: Tree<K>)
    requires Unique(t)
    ensures DistinctKeys(InOrder(t)) && KeySet(InOrder(t)) == Keys(t)
  {
    if t.Node? {
      UniqueDistinct(t.left);
      UniqueDistinct(t.right);
      assert [t.it][1..] == [] && DistinctKeys([t.it]) && KeySet([t.it]) == {t.it.k};
      DistinctConcat(InOrder(t.left), [t.it]);
      DistinctConcat(InOrder(t.left) + [t.it], InOrder(t.right));
    }
  }

  lemma {:induction false} PrevKeyMember<K>(s: seq<Item<K>>, k: K)
    requires DistinctKeys(s) && PrevKey(s, k).Some?
    ensures PrevKey(s, k).value != k && PrevKey(s, k).value in KeySet(s)
  {
    if s[1].k != k {
      PrevKeyMember(s[1..], k);
    }
  }

  // ---------------------------------------------------------------- lookup

  predicate Eligible<K>(it: Item<K>, vtime: int) {
    it.start <= vtime
  }

  /** bfq_calc_vtime_jump: the first time at or after `vtime` with an eligible entity. */
  function VtimeJump<K>(t: Tree<K>, vtime: int): (v: int)
    requires t.Node?
  {
    if MinStart(t) > vtime then MinStart(t) else vtime
  }

  /** bfq_first_active_entity, started at `t` with the candidate found so far: go left while
      an eligible entity is there, and right only as long as there is no candidate. */
  function Search<K>(t: Tree<K>, vtime: int, first: Option<Item<K>>): (r: Option<Item<K>>) {
    if t.Leaf? then first
    else
      var first' := if Eligible(t.it, vtime) then Some(t.it) else first;
      if t.left.Node? && MinStart(t.left) <= vtime then Search(t.left, vtime, first')
      else if first'.Some? then first'
      else Search(t.right, vtime, None)
  }

  /** The node on which that search stops. */
  function LastVisited<K>(t: Tree<K>, vtime: int, first: Option<Item<K>>): (r: Item<K>)
    requires t.Node? && MinStart(t) <= vtime
  {
    var first' := if Eligible(t.it, vtime) then Some(t.it) else first;
    if t.left.Node? && MinStart(t.left) <= vtime then LastVisited(t.left, vtime, first')
    else if first'.Some? then t.it
    else LastVisited(t.right, vtime, None)
  }

  /** The right subtree of that node, which the search does not enter. */
  function RightOfStop<K>(t: Tree<K>, vtime: int, first: Option<Item<K>>): (r: Tree<K>)
    requires t.Node? && MinStart(t) <= vtime
  {
    var first' := if Eligible(t.it, vtime) then Some(t.it) else first;
    if t.left.Node? && MinStart(t.left) <= vtime then RightOfStop(t.left, vtime, first')
    else if first'.Some? then t.right
    else RightOfStop(t.right, vtime, None)
  }

  /** Reference: the first eligible item of the sorted list. */
  function FirstEligible<K>(s: seq<Item<K>>, vtime: int): (r: Option<Item<K>>)
    ensures r.Some? ==> r.value in s && Eligible(r.value, vtime)
    ensures r.None? ==> forall x :: x in s ==> !Eligible(x, vtime)
  {
    if s == [] then None
    else if Eligible(s[0], vtime) then Some(s[0])
    else FirstEligible(s[1..], vtime)
  }

  lemma {:induction false} FirstEligibleConcat<K>(a: seq<Item<K>>, b: seq<Item<K>>, vtime: int)
    ensures FirstEligible(a + b, vtime)
         == if FirstEligible(a, vtime).Some? then FirstEligible(a, vtime) else FirstEligible(b, vtime)
  {
    if a == [] {
      assert a + b == b;
    } else {
      assert (a + b)[1..] == a[1..] + b;
      FirstEligibleConcat(a[1..], b, vtime);
    }
  }

  lemma InOrderMember<K>(t: Tree<K>, x: Item<K>)
    requires t.Node?
    ensures x in InOrder(t) <==> x in InOrder(t.left) || x == t.it || x in InOrder(t.right)
  {
  }

  lemma {:induction false} MinStartAttained<K>(t: Tree<K>) returns (x: Item<K>)
    requires t.Node?
    ensures x in InOrder(t) && x.start == MinStart(t)
  {
    x := t.it;
    if t.left.Node? && MinStart(t.left) == MinStart(t) {
      x := MinStartAttained(t.left);
    } else if t.right.Node? && MinStart(t.right) == MinStart(t) {
      x := MinStartAttained(t.right);
    }
  }

  lemma {:induction false} MinStartLower<K>(t: Tree<K>, x: Item<K>)
    requires x in InOrder(t)
    ensures t.Node? && MinStart(t) <= x.start
  {
    InOrderMember(t, x);
    if x in InOrder(t.left) {
      MinStartLower(t.left, x);
    } else if x in InOrder(t.right) {
      MinStartLower(t.right, x);
    }
  }

  /** min_start is the exact test for the presence of an eligible entity. */
  lemma MinStartExact<K>(t: Tree<K>, vtime: int)
    requires t.Node?
    ensures MinStart(t) <= vtime <==> FirstEligible(InOrder(t), vtime).Some?
  {
    var x := MinStartAttained(t);
    var f := FirstEligible(InOrder(t), vtime);
    if f.Some? {
      MinStartLower(t, f.value);
    }
  }

  /** If some entity is eligible, the search returns a member of the tree that is. */
  lemma {:induction false} SearchFindsEligible<K>(t: Tree<K>, vtime: int, first: Option<Item<K>>)
    requires t.Node? && MinStart(t) <= vtime
    ensures Search(t, vtime, first).Some?
    ensures var r := Search(t, vtime, first).value;
            (r in InOrder(t) && Eligible(r, vtime)) || first == Some(r)
    ensures first.None? ==> Search(t, vtime, first).value in InOrder(t)
                            && Eligible(Search(t, vtime, first).value, vtime)
  {
    var first' := if Eligible(t.it, vtime) then Some(t.it) else first;
    if t.left.Node? && MinStart(t.left) <= vtime {
      SearchFindsEligible(t.left, vtime, first');
    } else if first'.None? {
      SearchFindsEligible(t.right, vtime, None);
    }
  }

  /** The vtime jump makes some entity eligible, at the earliest time from `vtime` on. */
  lemma JumpIsEarliest<K>(t: Tree<K>, vtime: int)
    requires t.Node?
    ensures vtime <= VtimeJump(t, vtime)
    ensures FirstEligible(InOrder(t), VtimeJump(t, vtime)).Some?
    ensures forall v :: vtime <= v < VtimeJump(t, vtime) ==> FirstEligible(InOrder(t), v).None?
  {
    MinStartExact(t, VtimeJump(t, vtime));
    forall v | vtime <= v < VtimeJump(t, vtime) ensures FirstEligible(InOrder(t), v).None? {
      MinStartExact(t, v);
    }
  }

  /** The early stop of the search, exactly: it returns the leftmost eligible entity if and
      only if the node on which it stops is itself eligible. When it is not, that node lies
      left of every eligible entity below it. */
  lemma {:induction false} SearchExact<K>(t: Tree<K>, vtime: int, first: Option<Item<K>>)
    requires t.Node? && MinStart(t) <= vtime && Sorted(t) && Unique(t)
    requires first.Some? ==> first.value !in InOrder(t)
    ensures Search(t, vtime, first) == FirstEligible(InOrder(t), vtime)
       <==> Eligible(LastVisited(t, vtime, first), vtime)
    ensures var n := LastVisited(t, vtime, first);
            n in InOrder(t)
            && (!Eligible(n, vtime) ==>
                  && FirstEligible(InOrder(t), vtime).Some?
                  && n.finish <= FirstEligible(InOrder(t), vtime).value.finish)
  {
    var a, b := InOrder(t.left), InOrder(t.right);
    SortedParts(a, t.it, b);
    FirstEligibleConcat(a + [t.it], b, vtime);
    FirstEligibleConcat(a, [t.it], vtime);
    MinStartExact(t, vtime);
    if t.left.Node? {
      MinStartExact(t.left, vtime);
    }
    if t.right.Node? {
      MinStartExact(t.right, vtime);
    }
    NodeApart(t);
    var first' := if Eligible(t.it, vtime) then Some(t.it) else first;
    if t.left.Node? && MinStart(t.left) <= vtime {
      SearchExact(t.left, vtime, first');
    } else if first'.None? {
      SearchExact(t.right, vtime, None);
    } else if !Eligible(t.it, vtime) {
      var y := FirstEligible(b, vtime).value;
      assert y in b;
    }
  }

  lemma NodeApart<K>(t: Tree<K>)
    requires t.Node? && Unique(t)
    ensures t.it !in InOrder(t.left) && t.it !in InOrder(t.right)
  {
    KeysInOrder(t.left);
    KeysInOrder(t.right);
  }

  ghost predicate MinimalFinish<K>(r: Item<K>, s: seq<Item<K>>, vtime: int) {
    forall x :: x in s && Eligible(x, vtime) ==> r.finish <= x.finish
  }

  lemma {:induction false} FirstEligibleMinimal<K>(s: seq<Item<K>>, vtime: int)
    requires SortedItems(s) && FirstEligible(s, vtime).Some?
    ensures MinimalFinish(FirstEligible(s, vtime).value, s, vtime)
  {
    if !Eligible(s[0], vtime) {
      FirstEligibleMinimal(s[1..], vtime);
      assert s == [s[0]] + s[1..];
    }
  }

  /** Where an eligible entity with the smallest finish time is: on the node where the search stops,
      which is then the result, or else right below it. */
  lemma {:induction false} SmallestFinish<K>(t: Tree<K>, vtime: int, first: Option<Item<K>>) returns (z: Item<K>)
    requires t.Node? && MinStart(t) <= vtime && Sorted(t)
    ensures z in InOrder(t) && Eligible(z, vtime) && MinimalFinish(z, InOrder(t), vtime)
    ensures var stop, below := LastVisited(t, vtime, first), InOrder(RightOfStop(t, vtime, first));
            && stop in InOrder(t) && (forall x :: x in below ==> x in InOrder(t) && stop.finish <= x.finish)
            && if Eligible(stop, vtime) then z == stop && Search(t, vtime, first) == Some(z) else z in below
  {
    var a, b := InOrder(t.left), InOrder(t.right);
    SortedParts(a, t.it, b);
    MinStartExact(t, vtime);
    if t.left.Node? {
      MinStartExact(t.left, vtime);
    }
    var first' := if Eligible(t.it, vtime) then Some(t.it) else first;
    if t.left.Node? && MinStart(t.left) <= vtime {
      z := SmallestFinish(t.left, vtime, first');
    } else if first'.None? {
      z := SmallestFinish(t.right, vtime, None);
    } else if Eligible(t.it, vtime) {
      z := t.it;
    } else {
      FirstEligibleMinimal(b, vtime);
      z := FirstEligible(b, vtime).value;
    }
  }

  /** When the search keeps what its description promises, the smallest finish time among the
      eligible entities: exactly if it stops on an eligible node, or if nothing eligible right below
      that node finishes before the result. It does if no ineligible entity finishes before an
      eligible one. */
  lemma SearchMinimal<K>(t: Tree<K>, vtime: int)
    requires t.Node? && MinStart(t) <= vtime && Sorted(t)
    ensures Search(t, vtime, None).Some?
    ensures var r := Search(t, vtime, None).value;
            var s := InOrder(t);
            && (MinimalFinish(r, s, vtime) <==>
                  || Eligible(LastVisited(t, vtime, None), vtime)
                  || MinimalFinish(r, InOrder(RightOfStop(t, vtime, None)), vtime))
            && ((forall x, y :: x in s && y in s && !Eligible(x, vtime) && Eligible(y, vtime)
                                ==> y.finish <= x.finish) ==> MinimalFinish(r, s, vtime))
  {
    SearchFindsEligible(t, vtime, None);
    var r := Search(t, vtime, None).value;
    var z := SmallestFinish(t, vtime, None);
    var stop := LastVisited(t, vtime, None);
    assert r in InOrder(t) && Eligible(r, vtime);
  }

  /** The description does not hold for every tree: after the insertion of 'f', 'n' and 'c', entity 'c'
      is eligible and finishes before 'f', but the search stops at the ineligible 'n' above it and
      returns 'f'. */
  lemma SearchMissesEarlierFinish()
    ensures var c, n, f := Item(1, 0, 12), Item(2, 10, 11), Item(3, 0, 13);
            var t := Insert(Insert(Insert(Leaf, f), n), c);
            && c.start <= c.finish && n.start <= n.finish && f.start <= f.finish
            && Sorted(t) && Unique(t) && MinStart(t) <= 0
            && Search(t, 0, None) == Some(f)
            && Eligible(c, 0) && c in InOrder(t) && c.finish < f.finish
  {
    var c, n, f := Item(1, 0, 12), Item(2, 10, 11), Item(3, 0, 13);
    var u := Node(Leaf, c, Leaf);
    var l := Node(Leaf, n, u);
    var t := Node(l, f, Leaf);
    assert Insert(Insert(Leaf, f), n) == Node(Node(Leaf, n, Leaf), f, Leaf);
    assert Insert(Node(Leaf, n, Leaf), c) == l;
    assert t == Insert(Insert(Insert(Leaf, f), n), c);
    assert InOrder(u) == [c];
    assert InOrder(l) == [n, c];
    assert InOrder(t) == [n, c, f];
    assert MinStart(u) == 0 && MinStart(l) == 0;
    assert Search(l, 0, Some(f)) == Some(f);
  }

  // ---------------------------------------------------------------- wrap-around

  /** bfq_gt on 64-bit timestamps. */
  predicate WrapGt(a: nat, b: nat) {
    0 < (a - b) % 0x1_0000_0000_0000_0000 < 0x8000_0000_0000_0000
  }

  /** Unbounded timestamps stand for the 64-bit ones as long as compared values are less
      than 2^63 apart. */
  lemma WrapGtExact(a: int, b: int)
    requires -0x8000_0000_0000_0000 < a - b < 0x8000_0000_0000_0000
    ensures WrapGt(a % 0x1_0000_0000_0000_0000, b % 0x1_0000_0000_0000_0000) <==> a > b
  {
    var m := 0x1_0000_0000_0000_0000;
    var q, p := a / m, b / m;
    assert a == q * m + a % m && b == p * m + b % m;
    assert (a % m - b % m) - (a - b) == (p - q) * m;
  }
}
