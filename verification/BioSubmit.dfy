/** Submission of stacked bios without recursion: while one driver is active, new bios are put on a
    list of the task and handled after it has returned. The references are the recursive walk and,
    where blk-mq serves the first device, the walk level by level. */
module BioSubmit {
  /** One submission: the queue it goes to, whether its device has a driver of its own or is served
      by blk-mq, and the bios that are submitted in turn while it is handled. */
  datatype Bio = Bio(id: int, queue: int, hasSubmit: bool, subs: seq<Bio>)

  /** The number of bios in some trees. */
  function Size(s: seq<Bio>): (n: nat) {
    if s == [] then 0 else 1 + Size(s[0].subs) + Size(s[1..])
  }

  /** All bios of some trees, children in the order of their submission. */
  function All(s: seq<Bio>): (r: seq<Bio>) {
    if s == [] then [] else [s[0]] + All(s[0].subs) + All(s[1..])
  }

  lemma {:induction false} SizeConcat(a: seq<Bio>, b: seq<Bio>)
    ensures Size(a + b) == Size(a) + Size(b)
  {
    if a == [] {
      assert a + b == b;
    } else {
      assert (a + b)[1..] == a[1..] + b;
      SizeConcat(a[1..], b);
    }
  }

  lemma {:induction false} AllConcat(a: seq<Bio>, b: seq<Bio>)
    ensures All(a + b) == All(a) + All(b)
  {
    if a == [] {
      assert a + b == b;
    } else {
      assert (a + b)[1..] == a[1..] + b;
      AllConcat(a[1..], b);
    }
  }

  lemma Assoc(x: seq<Bio>, y: seq<Bio>, z: seq<Bio>)
    ensures (x + y) + z == x + (y + z)
  {
  }

  // ---------------------------------------------------------------- the order of the children

  /** The bios of a list for queue `q`, or those for any other. */
  function Pick(s: seq<Bio>, q: int, same: bool): (r: seq<Bio>) {
    if s == [] then []
    else (if (s[0].queue == q) == same then [s[0]] else []) + Pick(s[1..], q, same)
  }

  /** Lower queues first, then the same queue, each in the order of submission. */
  function Reordered(s: seq<Bio>, q: int): (r: seq<Bio>) {
    Pick(s, q, false) + Pick(s, q, true)
  }

  lemma PickStep(done: seq<Bio>, s: seq<Bio>, q: int, same: bool)
    requires s != []
    ensures done + Pick(s, q, same) ==
              (if (s[0].queue == q) == same then done + [s[0]] else done) + Pick(s[1..], q, same)
  {
  }

  /** Picking loses and repeats nothing. */
  lemma {:induction false} PickParts(s: seq<Bio>, q: int)
    ensures Size(Pick(s, q, false)) + Size(Pick(s, q, true)) == Size(s)
    ensures multiset(All(Pick(s, q, false))) + multiset(All(Pick(s, q, true))) == multiset(All(s))
  {
    if s != [] {
      PickParts(s[1..], q);
      var same := s[0].queue == q;
      assert ([s[0]] + Pick(s[1..], q, same))[1..] == Pick(s[1..], q, same);
      assert Pick(s, q, !same) == Pick(s[1..], q, !same);
      assert Pick(s, q, same) == [s[0]] + Pick(s[1..], q, same);
    }
  }

  lemma ReorderedParts(s: seq<Bio>, q: int)
    ensures Size(Reordered(s, q)) == Size(s)
    ensures multiset(All(Reordered(s, q))) == multiset(All(s))
  {
    PickParts(s, q);
    SizeConcat(Pick(s, q, false), Pick(s, q, true));
    AllConcat(Pick(s, q, false), Pick(s, q, true));
  }

  /** `f` says from where in `s` each bio of `r` comes, never twice from one place. */
  ghost predicate ComesFrom(r: seq<Bio>, s: seq<Bio>, f: seq<nat>) {
    && |f| == |r| && (forall i :: 0 <= i < |r| ==> f[i] < |s| && r[i] == s[f[i]])
    && (forall i, j :: 0 <= i < j < |r| ==> f[i] != f[j])
  }

  /** Once a bio for queue `q` comes, no other one follows; and on either side the order is that of
      submission. */
  ghost predicate LowerFirst(r: seq<Bio>, q: int, f: seq<nat>) {
    && |f| == |r|
    && (forall i, j :: 0 <= i < j < |r| && r[i].queue == q ==> r[j].queue == q)
    && (forall i, j :: 0 <= i < j < |r| && (r[i].queue == q <==> r[j].queue == q) ==> f[i] < f[j])
  }

  /** The bios of `r`, all on one side, come from increasing places of `s`. */
  ghost predicate PickedFrom(r: seq<Bio>, s: seq<Bio>, q: int, same: bool, f: seq<nat>) {
    && |f| == |r| && (forall i :: 0 <= i < |r| ==> f[i] < |s| && r[i] == s[f[i]])
    && (forall i :: 0 <= i < |r| ==> (r[i].queue == q <==> same))
    && (forall i, j :: 0 <= i < j < |r| ==> f[i] < f[j])
  }

  lemma PickedLater(r: seq<Bio>, s: seq<Bio>, q: int, same: bool, g: seq<nat>, f: seq<nat>)
    requires s != [] && PickedFrom(r, s[1..], q, same, g) && |f| == |g|
    requires forall i :: 0 <= i < |g| ==> f[i] == g[i] + 1
    ensures PickedFrom(r, s, q, same, f)
    ensures (s[0].queue == q <==> same) ==> PickedFrom([s[0]] + r, s, q, same, [0] + f)
  {
  }

  lemma {:induction false} PickFrom(s: seq<Bio>, q: int, same: bool) returns (f: seq<nat>)
    ensures PickedFrom(Pick(s, q, same), s, q, same, f)
  {
    if s == [] {
      f := [];
    } else {
      var g := PickFrom(s[1..], q, same);
      f := seq(|g|, i requires 0 <= i < |g| => g[i] + 1);
      var r := Pick(s[1..], q, same);
      PickedLater(r, s, q, same, g, f);
      if (s[0].queue == q) == same {
        f := [0] + f;
      } else {
        assert Pick(s, q, same) == r;
      }
    }
  }

  /** The children as they are handled: all of them, those for other queues first, and on either side in
      the order of submission. */
  lemma ReorderedOrder(s: seq<Bio>, q: int) returns (f: seq<nat>)
    ensures var r := Reordered(s, q); |r| == |s| && ComesFrom(r, s, f) && LowerFirst(r, q, f)
  {
    var a := PickFrom(s, q, false);
    var b := PickFrom(s, q, true);
    PickLength(s, q);
    f := a + b;
    var r, n := Reordered(s, q), |a|;
    assert forall i :: 0 <= i < n ==> r[i] == Pick(s, q, false)[i];
    assert forall i :: n <= i < |r| ==> r[i] == Pick(s, q, true)[i - n];
  }

  lemma {:induction false} PickLength(s: seq<Bio>, q: int)
    ensures |Pick(s, q, false)| + |Pick(s, q, true)| == |s|
  {
    if s != [] {
      PickLength(s[1..], q);
    }
  }

  // ---------------------------------------------------------------- the recursive walk

  /** Each bio, then everything below it, then its next brothers. */
  function Preorder(s: seq<Bio>): (r: seq<Bio>)
    decreases Size(s)
  {
    if s == [] then []
    else
      ReorderedParts(s[0].subs, s[0].queue);
      [s[0]] + Preorder(Reordered(s[0].subs, s[0].queue)) + Preorder(s[1..])
  }

  lemma {:induction false} PreorderConcat(a: seq<Bio>, b: seq<Bio>)
    ensures Preorder(a + b) == Preorder(a) + Preorder(b)
  {
    if a == [] {
      assert a + b == b;
    } else {
      assert (a + b)[1..] == a[1..] + b;
      PreorderConcat(a[1..], b);
    }
  }

  /** The walk meets every bio of the trees exactly once. */
  lemma {:induction false} PreorderOnce(s: seq<Bio>)
    ensures multiset(Preorder(s)) == multiset(All(s))
    decreases Size(s)
  {
    if s != [] {
      var subs := Reordered(s[0].subs, s[0].queue);
      ReorderedParts(s[0].subs, s[0].queue);
      PreorderOnce(subs);
      PreorderOnce(s[1..]);
    }
  }

  /** Everything below `b` in two parts: below the children for other queues, and below those for the
      queue of `b`. */
  ghost predicate InTwoParts(b: Bio, lower: seq<Bio>, same: seq<Bio>) {
    && (forall x :: x in b.subs ==> multiset(All([x])) <= multiset(if x.queue == b.queue then same else lower))
    && multiset(lower) + multiset(same) == multiset(All(b.subs))
  }

  lemma {:induction false} PickAll(s: seq<Bio>, q: int, same: bool, x: Bio)
    requires x in s && (x.queue == q <==> same)
    ensures multiset(All([x])) <= multiset(All(Pick(s, q, same)))
  {
    assert s == [s[0]] + s[1..];
    var r := Pick(s[1..], q, same);
    if x == s[0] {
      assert Pick(s, q, same) == [x] + r;
      AllConcat([x], r);
    } else {
      PickAll(s[1..], q, same, x);
      AllConcat(if (s[0].queue == q) == same then [s[0]] else [], r);
    }
  }

  lemma PreorderOne(b: Bio)
    ensures Preorder([b]) == [b] + Preorder(Reordered(b.subs, b.queue))
  {
    assert [b][0] == b && [b][1..] == [];
  }

  lemma BelowInTwoParts(b: Bio, lower: seq<Bio>, same: seq<Bio>)
    requires multiset(lower) == multiset(All(Pick(b.subs, b.queue, false)))
    requires multiset(same) == multiset(All(Pick(b.subs, b.queue, true)))
    ensures InTwoParts(b, lower, same)
  {
    PickParts(b.subs, b.queue);
    forall x | x in b.subs ensures multiset(All([x])) <= multiset(if x.queue == b.queue then same else lower) {
      PickAll(b.subs, b.queue, x.queue == b.queue, x);
    }
  }

  /** The walk handles a bio, then all that is below its children for other queues, and only then what is
      below those for its own. */
  lemma LowerWalkedFirst(b: Bio) returns (lower: seq<Bio>, same: seq<Bio>)
    ensures Preorder([b]) == [b] + lower + same && InTwoParts(b, lower, same)
  {
    var l, r := Pick(b.subs, b.queue, false), Pick(b.subs, b.queue, true);
    lower, same := Preorder(l), Preorder(r);
    PreorderOne(b);
    PreorderConcat(l, r);
    Assoc([b], lower, same);
    PreorderOnce(l);
    PreorderOnce(r);
    BelowInTwoParts(b, lower, same);
  }

  lemma PreorderFirst(l: seq<Bio>, subs: seq<Bio>)
    requires l != [] && subs == Reordered(l[0].subs, l[0].queue)
    ensures Preorder(l) == [l[0]] + (Preorder(subs) + Preorder(l[1..]))
  {
    assert [l[0]] + Preorder(subs) + Preorder(l[1..]) == [l[0]] + (Preorder(subs) + Preorder(l[1..]));
  }

  lemma SizeFirst(l: seq<Bio>, subs: seq<Bio>)
    requires l != [] && subs == Reordered(l[0].subs, l[0].queue)
    ensures Size(subs + l[1..]) < Size(l)
  {
    ReorderedParts(l[0].subs, l[0].queue);
    SizeConcat(subs, l[1..]);
  }

  /** One turn of the loop: what the driver of `b` submitted goes in front of what was there. */
  lemma PreorderTurn(b: Bio, s: seq<Bio>, subs: seq<Bio>)
    requires subs == Reordered(b.subs, b.queue)
    ensures Preorder([b] + s) == [b] + Preorder(subs + s)
    ensures Size(subs + s) < Size([b] + s)
  {
    var l := [b] + s;
    assert l[0] == b && l[1..] == s;
    PreorderFirst(l, subs);
    SizeFirst(l, subs);
    PreorderConcat(subs, s);
  }

  // ---------------------------------------------------------------- the walk by levels

  /** What the drivers of some bios submit. */
  function Below(s: seq<Bio>): (r: seq<Bio>)
    ensures s != [] ==> Size(r) < Size(s)
  {
    if s == [] then []
    else
      SizeConcat(s[0].subs, Below(s[1..]));
      s[0].subs + Below(s[1..])
  }

  function Levels(s: seq<Bio>): (r: seq<Bio>)
    decreases Size(s)
  {
    if s == [] then [] else s + Levels(Below(s))
  }

  /** First in, first out. */
  function Fifo(s: seq<Bio>): (r: seq<Bio>)
    decreases Size(s)
  {
    if s == [] then []
    else
      SizeConcat(s[1..], s[0].subs);
      [s[0]] + Fifo(s[1..] + s[0].subs)
  }

  lemma FifoFirst(s: seq<Bio>)
    requires s != []
    ensures Fifo(s) == [s[0]] + Fifo(s[1..] + s[0].subs)
    ensures Size(s[1..] + s[0].subs) < Size(s)
  {
    SizeConcat(s[1..], s[0].subs);
  }

  lemma FirstOf(a: seq<Bio>, b: seq<Bio>)
    requires a != []
    ensures (a + b)[0] == a[0] && (a + b)[1..] == a[1..] + b
  {
  }

  lemma PutBack(a: seq<Bio>, r: seq<Bio>)
    requires a != []
    ensures [a[0]] + (a[1..] + r) == a + r
  {
    assert [a[0]] + a[1..] == a;
  }

  /** Taking a whole level off the front. */
  lemma {:induction false} FifoLevel(a: seq<Bio>, b: seq<Bio>)
    ensures Fifo(a + b) == a + Fifo(b + Below(a))
    decreases |a|
  {
    if a == [] {
      assert a + b == b && b + Below(a) == b;
    } else {
      var x, t := a[0].subs, a[1..];
      calc {
        Fifo(a + b);
      ==  { FifoFirst(a + b); FirstOf(a, b); }
        [a[0]] + Fifo((t + b) + x);
      ==  { Assoc(t, b, x); }
        [a[0]] + Fifo(t + (b + x));
      ==  { FifoLevel(t, b + x); }
        [a[0]] + (t + Fifo((b + x) + Below(t)));
      ==  { Assoc(b, x, Below(t)); }
        [a[0]] + (t + Fifo(b + Below(a)));
      ==  { PutBack(a, Fifo(b + Below(a))); }
        a + Fifo(b + Below(a));
      }
    }
  }

  lemma {:induction false} FifoIsLevels(s: seq<Bio>)
    ensures Fifo(s) == Levels(s)
    decreases Size(s)
  {
    if s != [] {
      FifoLevel(s, []);
      assert s + [] == s && [] + Below(s) == Below(s);
      FifoIsLevels(Below(s));
    }
  }

  lemma {:induction false} BelowAll(s: seq<Bio>)
    ensures multiset(All(s)) == multiset(s) + multiset(All(Below(s)))
  {
    if s != [] {
      BelowAll(s[1..]);
      AllConcat(s[0].subs, Below(s[1..]));
      assert multiset(s) == multiset{s[0]} + multiset(s[1..]) by {
        assert s == [s[0]] + s[1..];
      }
      assert All(s) == [s[0]] + All(s[0].subs) + All(s[1..]);
      assert All(Below(s)) == All(s[0].subs) + All(Below(s[1..]));
    }
  }

  lemma {:induction false} LevelsOnce(s: seq<Bio>)
    ensures multiset(Levels(s)) == multiset(All(s))
    decreases Size(s)
  {
    if s != [] {
      BelowAll(s);
      LevelsOnce(Below(s));
    }
  }

  // ---------------------------------------------------------------- the task

  /** What is done and what is to come make up the whole. */
  ghost predicate Ends(log: seq<Bio>, rest: seq<Bio>, whole: seq<Bio>) {
    log + rest == whole
  }

  lemma EndsShift(log: seq<Bio>, b: Bio, rest: seq<Bio>, whole: seq<Bio>)
    requires Ends(log, [b] + rest, whole)
    ensures Ends(log + [b], rest, whole)
  {
    assert log + [b] + rest == log + ([b] + rest);
  }

  class Task {
    /** Whether `current->bio_list` is set, and the two lists it points to. */
    var active: bool
    var added: seq<Bio>
    var older: seq<Bio>
    /** The bios handed to their drivers so far, and the number of drivers active. */
    var log: seq<Bio>
    var drivers: nat

    /** submit_bio_noacct_nocheck: only queued while a driver of this task is active. */
    method Submit(b: Bio)
      requires active ==> drivers == 1
      requires !active ==> drivers == 0
      modifies this
      ensures active == old(active) && drivers == old(drivers)
      ensures old(active) ==> added == old(added) + [b] && older == old(older) && log == old(log)
      ensures !old(active) ==> log == old(log) + if b.hasSubmit then Preorder([b]) else Levels([b])
      decreases !active, 1
    {
      if active {
        added := added + [b];
      } else if !b.hasSubmit {
        SubmitMq(b);
      } else {
        SubmitStacked(b);
      }
    }

    /** __submit_bio: the driver submits further bios, which are only queued. Never are two drivers
        of a task active at a time. */
    method Handle(b: Bio)
      requires active && drivers == 0
      modifies this
      ensures active && drivers == 0
      ensures added == old(added) + b.subs && older == old(older) && log == old(log) + [b]
      decreases false, 2
    {
      log := log + [b];
      drivers := 1;
      var i := 0;
      while i < |b.subs|
        invariant 0 <= i <= |b.subs| && active && drivers == 1
        invariant added == old(added) + b.subs[..i] && older == old(older) && log == old(log) + [b]
      {
        Submit(b.subs[i]);
        i := i + 1;
      }
      drivers := 0;
    }

    /** The sorting loop of __submit_bio_noacct. */
    method Sort(q: int, ghost s: seq<Bio>) returns (lower: seq<Bio>, same: seq<Bio>)
      requires added == s
      modifies this`added
      ensures lower == Pick(s, q, false) && same == Pick(s, q, true) && added == []
    {
      lower, same := [], [];
      while added != []
        invariant lower + Pick(added, q, false) == Pick(s, q, false)
        invariant same + Pick(added, q, true) == Pick(s, q, true)
        decreases |added|
      {
        var b := added[0];
        PickStep(lower, added, q, false);
        PickStep(same, added, q, true);
        added := added[1..];
        if b.queue == q {
          same := same + [b];
        } else {
          lower := lower + [b];
        }
      }
    }

    /** The body of that loop: the new bios, sorted, in front of those that were there. */
    method HandleSorted(b: Bio)
      requires active && drivers == 0
      modifies this
      ensures active && drivers == 0 && log == old(log) + [b]
      ensures added == Reordered(b.subs, b.queue) + old(added)
      decreases false, 3
    {
      ghost var was := added;
      older := added;
      added := [];
      Handle(b);
      assert added == b.subs;
      var lower, same := Sort(b.queue, b.subs);
      assert older == was;
      added := added + lower;
      assert added == lower;
      added := added + same;
      added := added + older;
    }

    /** __submit_bio_noacct: the loop with two lists visits the bios in the order of the recursive
        walk, what is for lower queues first. */
    method SubmitStacked(first: Bio)
      requires !active && drivers == 0
      modifies this
      ensures !active && drivers == 0 && log == old(log) + Preorder([first])
      ensures exists lower, same {:trigger InTwoParts(first, lower, same)} ::
                InTwoParts(first, lower, same) && log == old(log) + ([first] + lower + same)
      decreases true, 0
    {
      active, added := true, [];
      var b := first;
      ghost var todo := [first];
      ghost var whole := log + Preorder(todo);
      while true
        invariant active && drivers == 0 && todo == [b] + added
        invariant Ends(log, Preorder(todo), whole)
        decreases Size(todo)
      {
        ghost var subs := Reordered(b.subs, b.queue);
        PreorderTurn(b, added, subs);
        todo := subs + added;
        EndsShift(log, b, Preorder(todo), whole);
        HandleSorted(b);
        if added == [] {
          break;
        }
        b, added := added[0], added[1..];
      }
      assert Preorder(todo) == [];
      active := false;
      ghost var lower, same := LowerWalkedFirst(first);
      assert InTwoParts(first, lower, same);
    }

    /** __submit_bio_noacct_mq: the loop with one list goes level by level. */
    method SubmitMq(first: Bio)
      requires !active && drivers == 0
      modifies this
      ensures !active && drivers == 0 && log == old(log) + Levels([first])
      decreases true, 0
    {
      active, added, older := true, [], [];
      var b := first;
      ghost var todo := [first];
      FifoIsLevels(todo);
      while true
        invariant active && drivers == 0 && todo == [b] + added
        invariant Ends(log, Fifo(todo), old(log) + Levels([first]))
        decreases Size(todo)
      {
        FifoFirst(todo);
        assert todo[0] == b && todo[1..] == added;
        EndsShift(log, b, Fifo(added + b.subs), old(log) + Levels([first]));
        Handle(b);
        todo := added;
        if added == [] {
          break;
        }
        b, added := added[0], added[1..];
      }
      active := false;
    }
  }
}
