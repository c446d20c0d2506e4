/** The walk over all descendants of a process, which keeps no stack: it finds its way back through
    the parent and leader pointers. The reference is the recursive walk in preorder. */
module WalkTree {
  type Id = int

  /** The links between tasks, which do not change under the lock. `children` and `threads` are the
      lists hanging off a task and off a group leader. */
  datatype Tasks = Tasks(leader: map<Id, Id>, parent: map<Id, Id>,
                         threads: map<Id, seq<Id>>, children: map<Id, seq<Id>>)

  /** A visitor sees one task after the other and may remember all it has seen: its answer to the
      last task is a function of the whole log. */
  type Visitor = seq<Id> -> int

  predicate Distinct(s: seq<Id>) {
    forall i, j :: 0 <= i < j < |s| ==> s[i] != s[j]
  }

  /** A thread of process `l`: it knows its leader, and its children are leaders of processes that
      know their parent and are lower in the tree. */
  ghost predicate ThreadOk(w: Tasks, height: Id -> nat, l: Id, t: Id) {
    && t in w.leader && w.leader[t] == l && t in w.children && Distinct(w.children[t])
    && forall c :: c in w.children[t] ==> ChildOk(w, height, l, t, c)
  }

  ghost predicate ChildOk(w: Tasks, height: Id -> nat, l: Id, t: Id, c: Id) {
    c in w.parent && w.parent[c] == t && c in w.threads && height(c) < height(l)
  }

  /** The tasks form a forest: every process has a height above its children. */
  ghost predicate Forest(w: Tasks, height: Id -> nat) {
    forall l :: l in w.threads ==>
      Distinct(w.threads[l]) && forall t :: t in w.threads[l] ==> ThreadOk(w, height, l, t)
  }

  /** The children of some threads, in order. */
  ghost function KidsOf(w: Tasks, ts: seq<Id>): (r: seq<Id>) {
    if ts == [] then [] else (if ts[0] in w.children then w.children[ts[0]] else []) + KidsOf(w, ts[1..])
  }

  ghost predicate Below(w: Tasks, height: Id -> nat, l: Id, cs: seq<Id>) {
    forall c :: c in cs ==> c in w.threads && height(c) < height(l)
  }

  lemma {:induction false} KidsBelow(w: Tasks, height: Id -> nat, l: Id, ts: seq<Id>)
    requires Forest(w, height) && l in w.threads && forall t :: t in ts ==> t in w.threads[l]
    ensures Below(w, height, l, KidsOf(w, ts))
  {
    if ts != [] {
      KidsBelow(w, height, l, ts[1..]);
      assert ThreadOk(w, height, l, ts[0]);
    }
  }

  // ---------------------------------------------------------------- the recursive walk

  datatype Trace = Trace(log: seq<Id>, stopped: bool)

  /** Visit the processes `cs`, children of `l`, in order: descend where the visitor is positive,
      stop at once where it is negative. */
  ghost function Preorder(w: Tasks, height: Id -> nat, v: Visitor, l: Id, cs: seq<Id>, log: seq<Id>): (r: Trace)
    requires Forest(w, height) && Below(w, height, l, cs)
    decreases height(l), |cs|
  {
    if cs == [] then Trace(log, false)
    else
      var c, seen := cs[0], log + [cs[0]];
      if v(seen) < 0 then Trace(seen, true)
      else
        KidsBelow(w, height, c, w.threads[c]);
        var below := if v(seen) > 0 then Preorder(w, height, v, c, KidsOf(w, w.threads[c]), seen)
                     else Trace(seen, false);
        if below.stopped then below else Preorder(w, height, v, l, cs[1..], below.log)
  }

  /** Position `i` of a log was visited with this answer. */
  function AnswerAt(v: Visitor, log: seq<Id>, i: nat): (a: int)
    requires i < |log|
  {
    v(log[..i + 1])
  }

  /** From position `from` on, only the last visit may be answered by a negative number, and the walk is
      stopped exactly if it was. */
  ghost predicate StopsAtOnce(v: Visitor, r: Trace, from: nat) {
    && from <= |r.log|
    && (forall i :: from <= i < |r.log| && AnswerAt(v, r.log, i) < 0 ==> r.stopped && i == |r.log| - 1)
    && (r.stopped ==> from < |r.log| && AnswerAt(v, r.log, |r.log| - 1) < 0)
  }

  /** Every visited task is one of `cs`, or a child of a process visited before with a positive answer. */
  ghost predicate OnlyBelow(w: Tasks, v: Visitor, r: Trace, from: nat, cs: seq<Id>) {
    forall i {:trigger Reached(w, v, r.log, from, cs, i)} :: from <= i < |r.log| ==> Reached(w, v, r.log, from, cs, i)
  }

  ghost predicate Reached(w: Tasks, v: Visitor, log: seq<Id>, from: nat, cs: seq<Id>, i: nat)
    requires i < |log|
  {
    log[i] in cs || exists j :: from <= j < i && AnswerAt(v, log, j) > 0 && IsKid(w, log[j], log[i])
  }

  ghost predicate IsKid(w: Tasks, p: Id, c: Id) {
    p in w.threads && c in KidsOf(w, w.threads[p])
  }

  /** If the walk is not stopped, it visits all of `cs`, and all children of each process that it visits
      with a positive answer. */
  ghost predicate AllBelow(w: Tasks, v: Visitor, r: Trace, from: nat, cs: seq<Id>) {
    !r.stopped && from <= |r.log| ==>
      && (forall c :: c in cs ==> c in r.log[from..])
      && (forall i, c {:trigger IsKid(w, r.log[i], c)} ::
            from <= i < |r.log| && AnswerAt(v, r.log, i) > 0 && IsKid(w, r.log[i], c) ==> c in r.log[from..])
  }

  ghost predicate WalkOk(w: Tasks, v: Visitor, r: Trace, log: seq<Id>, cs: seq<Id>) {
    log <= r.log && StopsAtOnce(v, r, |log|) && OnlyBelow(w, v, r, |log|, cs) && AllBelow(w, v, r, |log|, cs)
  }

  lemma PrefixAnswer(v: Visitor, a: seq<Id>, b: seq<Id>, i: nat)
    requires a <= b && i < |a|
    ensures AnswerAt(v, b, i) == AnswerAt(v, a, i) && b[i] == a[i]
  {
    assert b[..i + 1] == a[..i + 1];
  }

  /** What is reached below a longer list, or from an earlier position, is still reached. */
  lemma ReachedMore(w: Tasks, v: Visitor, a: seq<Id>, b: seq<Id>, from: nat, from': nat, cs: seq<Id>, cs': seq<Id>,
                    i: nat)
    requires a <= b && i < |a| && from' <= from && Reached(w, v, a, from, cs, i)
    requires forall c :: c in cs ==> c in cs' || exists j :: from' <= j < from && j < i && AnswerAt(v, a, j) > 0
                                                             && IsKid(w, a[j], c)
    ensures Reached(w, v, b, from', cs', i)
  {
    PrefixAnswer(v, a, b, i);
    if a[i] in cs {
      if a[i] !in cs' {
        var j :| from' <= j < from && j < i && AnswerAt(v, a, j) > 0 && IsKid(w, a[j], a[i]);
        PrefixAnswer(v, a, b, j);
      }
    } else {
      var j :| from <= j < i && AnswerAt(v, a, j) > 0 && IsKid(w, a[j], a[i]);
      PrefixAnswer(v, a, b, j);
    }
  }

  /** The first process of a list and what is below it. */
  lemma WalkFirst(w: Tasks, v: Visitor, log: seq<Id>, c: Id, below: Trace)
    requires var seen := log + [c];
             && v(seen) >= 0 && c in w.threads
             && if v(seen) > 0 then WalkOk(w, v, below, seen, KidsOf(w, w.threads[c])) else below == Trace(seen, false)
    ensures WalkOk(w, v, below, log, [c])
  {
    var seen, n := log + [c], |log|;
    assert seen <= below.log && below.log[n] == c && below.log[..n + 1] == seen;
    assert AnswerAt(v, below.log, n) == v(seen);
    forall i | n <= i < |below.log| ensures Reached(w, v, below.log, n, [c], i) {
      if i > n {
        assert Reached(w, v, below.log, n + 1, KidsOf(w, w.threads[c]), i);
        if below.log[i] in KidsOf(w, w.threads[c]) {
          assert IsKid(w, below.log[n], below.log[i]);
        }
      }
    }
    if !below.stopped {
      assert below.log[n..] == [c] + below.log[n + 1..];
    }
  }

  /** And then the rest of the list. */
  lemma WalkThen(w: Tasks, v: Visitor, log: seq<Id>, cs: seq<Id>, below: Trace, r: Trace)
    requires cs != [] && WalkOk(w, v, below, log, [cs[0]])
    requires if below.stopped then r == below else WalkOk(w, v, r, below.log, cs[1..])
    ensures WalkOk(w, v, r, log, cs)
  {
    var n, m := |log|, |below.log|;
    assert cs == [cs[0]] + cs[1..];
    forall i | n <= i < |r.log| ensures Reached(w, v, r.log, n, cs, i) {
      if i < m {
        assert Reached(w, v, below.log, n, [cs[0]], i);
        ReachedMore(w, v, below.log, r.log, n, n, [cs[0]], cs, i);
      } else {
        assert Reached(w, v, r.log, m, cs[1..], i);
        ReachedMore(w, v, r.log, r.log, m, n, cs[1..], cs, i);
      }
    }
    if !below.stopped {
      ThenStops(v, below, r, n);
      if !r.stopped {
        ThenAll(w, v, log, cs, below, r);
      }
    }
  }

  lemma ThenStops(v: Visitor, below: Trace, r: Trace, n: nat)
    requires n <= |below.log| && below.log <= r.log && !below.stopped
    requires StopsAtOnce(v, below, n) && StopsAtOnce(v, r, |below.log|)
    ensures StopsAtOnce(v, r, n)
  {
    forall i | n <= i < |r.log| && AnswerAt(v, r.log, i) < 0 ensures r.stopped && i == |r.log| - 1 {
      if i < |below.log| {
        PrefixAnswer(v, below.log, r.log, i);
      }
    }
  }

  lemma ThenAll(w: Tasks, v: Visitor, log: seq<Id>, cs: seq<Id>, below: Trace, r: Trace)
    requires cs != [] && log <= below.log <= r.log && !below.stopped && !r.stopped
    requires AllBelow(w, v, below, |log|, [cs[0]]) && AllBelow(w, v, r, |below.log|, cs[1..])
    ensures AllBelow(w, v, r, |log|, cs)
  {
    var n, m := |log|, |below.log|;
    assert cs == [cs[0]] + cs[1..];
    assert r.log[n..] == below.log[n..] + r.log[m..];
    forall i, c | n <= i < |r.log| && AnswerAt(v, r.log, i) > 0 && IsKid(w, r.log[i], c) ensures c in r.log[n..] {
      if i < m {
        PrefixAnswer(v, below.log, r.log, i);
        assert IsKid(w, below.log[i], c);
      }
    }
    forall c | c in cs ensures c in r.log[n..] {
      if c == cs[0] {
        assert c in below.log[n..];
      } else {
        assert c in cs[1..];
      }
    }
  }

  /** What the walk does, without saying in which order: it stops with the first negative answer; it visits
      nothing but the given processes and children of processes with a positive answer; and all of these,
      if it is not stopped. */
  lemma {:induction false} PreorderMeans(w: Tasks, height: Id -> nat, v: Visitor, l: Id, cs: seq<Id>, log: seq<Id>)
    requires Forest(w, height) && Below(w, height, l, cs)
    ensures WalkOk(w, v, Preorder(w, height, v, l, cs, log), log, cs)
    decreases height(l), |cs|
  {
    if cs != [] {
      var c, seen := cs[0], log + [cs[0]];
      if v(seen) < 0 {
        assert seen[..|log| + 1] == seen;
        assert Reached(w, v, seen, |log|, cs, |log|);
      } else {
        KidsBelow(w, height, c, w.threads[c]);
        var below := if v(seen) > 0 then Preorder(w, height, v, c, KidsOf(w, w.threads[c]), seen)
                     else Trace(seen, false);
        if v(seen) > 0 {
          PreorderMeans(w, height, v, c, KidsOf(w, w.threads[c]), seen);
        }
        WalkFirst(w, v, log, c, below);
        if !below.stopped {
          PreorderMeans(w, height, v, l, cs[1..], below.log);
        }
        WalkThen(w, v, log, cs, below, Preorder(w, height, v, l, cs, log));
      }
    }
  }

  // ---------------------------------------------------------------- what is left to do

  /** A process being walked: its threads and, of the current thread, its children still to come. */
  datatype Frame = Frame(leader: Id, threads: seq<Id>, children: seq<Id>)

  ghost function Rest(w: Tasks, f: Frame): (r: seq<Id>) {
    f.children + KidsOf(w, f.threads)
  }

  ghost predicate FrameOk(w: Tasks, height: Id -> nat, f: Frame) {
    && f.leader in w.threads
    && (forall t :: t in f.threads ==> t in w.threads[f.leader])
    && Below(w, height, f.leader, f.children)
  }

  lemma RestBelow(w: Tasks, height: Id -> nat, f: Frame)
    requires Forest(w, height) && FrameOk(w, height, f)
    ensures Below(w, height, f.leader, Rest(w, f))
  {
    KidsBelow(w, height, f.leader, f.threads);
  }

  ghost predicate StackOk(w: Tasks, height: Id -> nat, fs: seq<Frame>) {
    forall i :: 0 <= i < |fs| ==> FrameOk(w, height, fs[i])
  }

  /** The recursive walk picked up in the middle, with the innermost process last. */
  ghost function Unwind(w: Tasks, height: Id -> nat, v: Visitor, fs: seq<Frame>, log: seq<Id>): (r: Trace)
    requires Forest(w, height) && StackOk(w, height, fs)
    decreases |fs|
  {
    if fs == [] then Trace(log, false)
    else
      var f := fs[|fs| - 1];
      RestBelow(w, height, f);
      var inner := Preorder(w, height, v, f.leader, Rest(w, f), log);
      if inner.stopped then inner else Unwind(w, height, v, fs[..|fs| - 1], inner.log)
  }

  /** How many turns of the loop it takes to walk the processes `cs`. */
  ghost function Cost(w: Tasks, height: Id -> nat, l: Id, cs: seq<Id>): (n: nat)
    requires Forest(w, height) && Below(w, height, l, cs)
    decreases height(l), |cs|
  {
    if cs == [] then 0
    else
      KidsBelow(w, height, cs[0], w.threads[cs[0]]);
      2 + |w.threads[cs[0]]| + Cost(w, height, cs[0], KidsOf(w, w.threads[cs[0]])) + Cost(w, height, l, cs[1..])
  }

  ghost function FrameCost(w: Tasks, height: Id -> nat, f: Frame): (n: nat)
    requires Forest(w, height) && FrameOk(w, height, f)
  {
    RestBelow(w, height, f);
    1 + |f.threads| + Cost(w, height, f.leader, Rest(w, f))
  }

  ghost function TotalCost(w: Tasks, height: Id -> nat, fs: seq<Frame>): (n: nat)
    requires Forest(w, height) && StackOk(w, height, fs)
  {
    if fs == [] then 0 else TotalCost(w, height, fs[..|fs| - 1]) + FrameCost(w, height, fs[|fs| - 1])
  }

  // ---------------------------------------------------------------- the way back

  /** The rest of a list behind one of its members: where its link points to. */
  function After(s: seq<Id>, x: Id): (r: seq<Id>) {
    if s == [] then [] else if s[0] == x then s[1..] else After(s[1..], x)
  }

  lemma {:induction false} AfterAt(s: seq<Id>, j: nat)
    requires Distinct(s) && j < |s|
    ensures After(s, s[j]) == s[j + 1..]
  {
    if j > 0 {
      AfterAt(s[1..], j - 1);
    }
  }

  /** The pointers of `inner` lead back to the frame `f` below it. */
  ghost predicate LeadsTo(w: Tasks, inner: Id, f: Frame) {
    && inner in w.parent && w.parent[inner] in w.leader && w.parent[inner] in w.children
    && w.leader[w.parent[inner]] == f.leader && f.leader in w.threads
    && w.parent[inner] in w.threads[f.leader]
    && After(w.threads[f.leader], w.parent[inner]) == f.threads
    && After(w.children[w.parent[inner]], inner) == f.children
  }

  /** Every frame can be found again from the leader of the next one, and the first belongs to
      `top`, which is not reached again. */
  ghost predicate Linked(w: Tasks, height: Id -> nat, fs: seq<Frame>, top: Id) {
    && |fs| > 0 && fs[0].leader == top
    && (forall i :: 0 < i < |fs| ==> LeadsTo(w, fs[i].leader, fs[i - 1]))
    && (forall i :: 0 < i < |fs| ==> height(fs[i].leader) < height(top))
  }

  // ---------------------------------------------------------------- the turns of the loop

  /** A turn that changes nothing but the innermost frame. */
  lemma SameRest(w: Tasks, height: Id -> nat, v: Visitor, fs: seq<Frame>, f: Frame, g: Frame, log: seq<Id>)
    requires Forest(w, height) && StackOk(w, height, fs) && FrameOk(w, height, f) && FrameOk(w, height, g)
    requires f.leader == g.leader && Rest(w, f) == Rest(w, g)
    ensures StackOk(w, height, fs + [f]) && StackOk(w, height, fs + [g])
    ensures Unwind(w, height, v, fs + [f], log) == Unwind(w, height, v, fs + [g], log)
    ensures TotalCost(w, height, fs + [f]) - |f.threads| == TotalCost(w, height, fs + [g]) - |g.threads|
  {
    assert (fs + [f])[..|fs|] == fs && (fs + [g])[..|fs|] == fs;
    RestBelow(w, height, f);
    RestBelow(w, height, g);
  }

  /** The inner loop is through with a thread: on to the next. */
  lemma NextThread(w: Tasks, height: Id -> nat, v: Visitor, fs: seq<Frame>, f: Frame, log: seq<Id>)
    requires Forest(w, height) && StackOk(w, height, fs) && FrameOk(w, height, f)
    requires f.children == [] && f.threads != []
    ensures f.threads[0] in w.children && f.threads[0] in w.leader
    ensures var g := Frame(f.leader, f.threads[1..], w.children[f.threads[0]]);
            && FrameOk(w, height, g) && StackOk(w, height, fs + [f]) && StackOk(w, height, fs + [g])
            && Unwind(w, height, v, fs + [f], log) == Unwind(w, height, v, fs + [g], log)
            && TotalCost(w, height, fs + [g]) < TotalCost(w, height, fs + [f])
  {
    assert ThreadOk(w, height, f.leader, f.threads[0]);
    var g := Frame(f.leader, f.threads[1..], w.children[f.threads[0]]);
    SameRest(w, height, v, fs, f, g, log);
  }

  /** Both loops are through: back to the process below. */
  lemma Back(w: Tasks, height: Id -> nat, v: Visitor, fs: seq<Frame>, f: Frame, log: seq<Id>)
    requires Forest(w, height) && StackOk(w, height, fs) && FrameOk(w, height, f)
    requires f.children == [] && f.threads == []
    ensures StackOk(w, height, fs + [f])
    ensures Unwind(w, height, v, fs + [f], log) == Unwind(w, height, v, fs, log)
    ensures TotalCost(w, height, fs) < TotalCost(w, height, fs + [f])
  {
    assert (fs + [f])[..|fs|] == fs;
    assert Rest(w, f) == [];
  }

  /** A visit: what happens depends on the sign of the answer. */
  lemma Visit(w: Tasks, height: Id -> nat, v: Visitor, fs: seq<Frame>, f: Frame, log: seq<Id>)
    requires Forest(w, height) && StackOk(w, height, fs) && FrameOk(w, height, f) && f.children != []
    ensures var c, seen := f.children[0], log + [f.children[0]];
            var g, h := f.(children := f.children[1..]), Frame(c, w.threads[c], []);
            && FrameOk(w, height, g) && FrameOk(w, height, h)
            && StackOk(w, height, fs + [f]) && StackOk(w, height, fs + [g]) && StackOk(w, height, fs + [g] + [h])
            && (v(seen) < 0 ==> Unwind(w, height, v, fs + [f], log) == Trace(seen, true))
            && (v(seen) == 0 ==> Unwind(w, height, v, fs + [f], log) == Unwind(w, height, v, fs + [g], seen))
            && (v(seen) > 0 ==> Unwind(w, height, v, fs + [f], log) == Unwind(w, height, v, fs + [g] + [h], seen))
            && TotalCost(w, height, fs + [g]) < TotalCost(w, height, fs + [f])
            && TotalCost(w, height, fs + [g] + [h]) < TotalCost(w, height, fs + [f])
  {
    var c, seen := f.children[0], log + [f.children[0]];
    var g, h := f.(children := f.children[1..]), Frame(c, w.threads[c], []);
    assert (fs + [f])[..|fs|] == fs && (fs + [g])[..|fs|] == fs && (fs + [g] + [h])[..|fs| + 1] == fs + [g];
    assert Rest(w, f) == [c] + Rest(w, g);
    assert Rest(w, f)[1..] == Rest(w, g);
    assert Rest(w, h) == KidsOf(w, w.threads[c]);
    RestBelow(w, height, f);
    RestBelow(w, height, g);
    RestBelow(w, height, h);
  }

  /** Before the first turn. */
  lemma Start(w: Tasks, height: Id -> nat, v: Visitor, f: Frame)
    requires Forest(w, height) && FrameOk(w, height, f)
    ensures StackOk(w, height, [f]) && Below(w, height, f.leader, Rest(w, f))
    ensures Unwind(w, height, v, [f], []) == Preorder(w, height, v, f.leader, Rest(w, f), [])
  {
    RestBelow(w, height, f);
    assert [f][..0] == [];
  }

  ghost predicate Suffix(s: seq<Id>, r: seq<Id>) {
    exists i :: 0 <= i <= |s| && r == s[i..]
  }

  /** The position of the loops: the threads still to come are the end of the list, the children
      still to come are the last ones of a thread, and the threads stand behind that one. */
  ghost predicate Position(w: Tasks, f: Frame, parent: Id) {
    && f.leader in w.threads && Suffix(w.threads[f.leader], f.threads)
    && (f.children != [] ==>
          && parent in w.threads[f.leader] && parent in w.children
          && f.threads == After(w.threads[f.leader], parent)
          && Suffix(w.children[parent], f.children))
  }

  lemma {:induction false} AfterSuffix(s: seq<Id>, x: Id)
    ensures Suffix(s, After(s, x))
  {
    if s == [] {
      assert After(s, x) == s[0..];
    } else if s[0] != x {
      AfterSuffix(s[1..], x);
      var i :| 0 <= i <= |s[1..]| && After(s[1..], x) == s[1..][i..];
      assert After(s, x) == s[i + 1..];
    }
  }

  lemma SuffixTail(s: seq<Id>, r: seq<Id>)
    requires Suffix(s, r) && r != []
    ensures Suffix(s, r[1..]) && r[0] in s
    ensures Distinct(s) ==> After(s, r[0]) == r[1..]
  {
    var i :| 0 <= i <= |s| && r == s[i..];
    assert r[1..] == s[i + 1..];
    if Distinct(s) {
      AfterAt(s, i);
    }
  }

  /** The child at hand knows the way back. */
  lemma KnowsBack(w: Tasks, height: Id -> nat, f: Frame, parent: Id)
    requires Forest(w, height) && Position(w, f, parent) && f.children != []
    ensures var g := f.(children := f.children[1..]);
            Position(w, g, parent) && LeadsTo(w, f.children[0], g) && height(f.children[0]) < height(f.leader)
  {
    assert ThreadOk(w, height, f.leader, parent);
    SuffixTail(w.children[parent], f.children);
    assert ChildOk(w, height, f.leader, parent, f.children[0]);
  }

  /** The next thread, with all its children still to come. */
  lemma NewThread(w: Tasks, height: Id -> nat, f: Frame)
    requires Forest(w, height) && FrameOk(w, height, f) && Suffix(w.threads[f.leader], f.threads) && f.threads != []
    ensures f.threads[0] in w.children
    ensures Position(w, Frame(f.leader, f.threads[1..], w.children[f.threads[0]]), f.threads[0])
  {
    assert ThreadOk(w, height, f.leader, f.threads[0]);
    SuffixTail(w.threads[f.leader], f.threads);
    assert w.children[f.threads[0]] == w.children[f.threads[0]][0..];
  }

  /** Going back along the pointers leads to the frame below. */
  lemma BackPosition(w: Tasks, inner: Id, f: Frame)
    requires LeadsTo(w, inner, f)
    ensures Position(w, f, w.parent[inner])
  {
    AfterSuffix(w.threads[f.leader], w.parent[inner]);
    AfterSuffix(w.children[w.parent[inner]], inner);
  }

  lemma LinkedSame(w: Tasks, height: Id -> nat, fs: seq<Frame>, f: Frame, g: Frame, top: Id)
    requires Linked(w, height, fs + [f], top) && f.leader == g.leader
    ensures Linked(w, height, fs + [g], top)
  {
    var a, b := fs + [f], fs + [g];
    assert b[0].leader == a[0].leader;
    forall i | 0 < i < |b| ensures LeadsTo(w, b[i].leader, b[i - 1]) && height(b[i].leader) < height(top) {
      assert b[i].leader == a[i].leader && b[i - 1] == a[i - 1];
    }
  }

  lemma LinkedPush(w: Tasks, height: Id -> nat, fs: seq<Frame>, h: Frame, top: Id)
    requires Linked(w, height, fs, top) && LeadsTo(w, h.leader, fs[|fs| - 1])
    requires height(h.leader) < height(fs[|fs| - 1].leader)
    ensures Linked(w, height, fs + [h], top)
  {
    var b := fs + [h];
    assert height(fs[|fs| - 1].leader) <= height(top);
    forall i | 0 < i < |b| ensures LeadsTo(w, b[i].leader, b[i - 1]) && height(b[i].leader) < height(top) {
      assert b[i - 1] == fs[i - 1];
    }
  }

  /** Not in the outermost process: the pointers lead to the frame below. */
  lemma LinkedPop(w: Tasks, height: Id -> nat, fs: seq<Frame>, f: Frame, top: Id)
    requires Linked(w, height, fs + [f], top)
    ensures f.leader == top <==> fs == []
    ensures fs != [] ==> Linked(w, height, fs, top) && LeadsTo(w, f.leader, fs[|fs| - 1])
  {
    var b := fs + [f];
    if fs != [] {
      assert b[|fs|] == f && b[|fs| - 1] == fs[|fs| - 1];
      forall i | 0 < i < |fs| ensures LeadsTo(w, fs[i].leader, fs[i - 1]) && height(fs[i].leader) < height(top) {
        assert b[i] == fs[i] && b[i - 1] == fs[i - 1];
      }
    }
  }

  /** The loop stands in the middle of the walk `whole`, in frame `f` with `fs` around it. */
  ghost predicate Midway(w: Tasks, height: Id -> nat, v: Visitor, fs: seq<Frame>, f: Frame, parent: Id, top: Id,
                         log: seq<Id>, whole: Trace)
  {
    && Forest(w, height) && FrameOk(w, height, f) && StackOk(w, height, fs) && StackOk(w, height, fs + [f])
    && Linked(w, height, fs + [f], top) && Position(w, f, parent)
    && whole == Unwind(w, height, v, fs + [f], log)
  }

  lemma VisitTurn(w: Tasks, height: Id -> nat, v: Visitor, fs: seq<Frame>, f: Frame, parent: Id, top: Id,
                  log: seq<Id>, whole: Trace)
    requires Midway(w, height, v, fs, f, parent, top, log, whole) && f.children != []
    ensures var c, seen := f.children[0], log + [f.children[0]];
            && c in w.threads
            && var g, h := f.(children := f.children[1..]), Frame(c, w.threads[c], []);
               && (v(seen) < 0 ==> whole == Trace(seen, true))
               && (v(seen) == 0 ==> Midway(w, height, v, fs, g, parent, top, seen, whole)
                                    && TotalCost(w, height, fs + [g]) < TotalCost(w, height, fs + [f]))
               && (v(seen) > 0 ==> Midway(w, height, v, fs + [g], h, parent, top, seen, whole)
                                   && TotalCost(w, height, fs + [g] + [h]) < TotalCost(w, height, fs + [f]))
  {
    Visit(w, height, v, fs, f, log);
    KnowsBack(w, height, f, parent);
    var c := f.children[0];
    var g, h := f.(children := f.children[1..]), Frame(c, w.threads[c], []);
    LinkedSame(w, height, fs, f, g, top);
    LinkedPush(w, height, fs + [g], h, top);
    assert w.threads[c] == w.threads[c][0..];
  }

  lemma ThreadTurn(w: Tasks, height: Id -> nat, v: Visitor, fs: seq<Frame>, f: Frame, parent: Id, top: Id,
                   log: seq<Id>, whole: Trace)
    requires Midway(w, height, v, fs, f, parent, top, log, whole) && f.children == [] && f.threads != []
    ensures f.threads[0] in w.children
    ensures var g := Frame(f.leader, f.threads[1..], w.children[f.threads[0]]);
            && Midway(w, height, v, fs, g, f.threads[0], top, log, whole)
            && TotalCost(w, height, fs + [g]) < TotalCost(w, height, fs + [f])
  {
    NextThread(w, height, v, fs, f, log);
    NewThread(w, height, f);
    LinkedSame(w, height, fs, f, Frame(f.leader, f.threads[1..], w.children[f.threads[0]]), top);
  }

  lemma BackTurn(w: Tasks, height: Id -> nat, v: Visitor, fs: seq<Frame>, f: Frame, parent: Id, top: Id,
                 log: seq<Id>, whole: Trace)
    requires Midway(w, height, v, fs, f, parent, top, log, whole) && f.children == [] && f.threads == []
    ensures f.leader == top ==> whole.log == log
    ensures f.leader != top ==>
              && fs != [] && LeadsTo(w, f.leader, fs[|fs| - 1])
              && Midway(w, height, v, fs[..|fs| - 1], fs[|fs| - 1], w.parent[f.leader], top, log, whole)
              && TotalCost(w, height, fs[..|fs| - 1] + [fs[|fs| - 1]]) < TotalCost(w, height, fs + [f])
  {
    Back(w, height, v, fs, f, log);
    LinkedPop(w, height, fs, f, top);
    if f.leader != top {
      BackPosition(w, f.leader, fs[|fs| - 1]);
      assert fs == fs[..|fs| - 1] + [fs[|fs| - 1]];
    }
  }

  lemma FirstTurn(w: Tasks, height: Id -> nat, v: Visitor, top: Id)
    requires Forest(w, height) && top in w.threads
    ensures Below(w, height, top, KidsOf(w, w.threads[top]))
    ensures Midway(w, height, v, [], Frame(top, w.threads[top], []), top, top, [],
                   Preorder(w, height, v, top, KidsOf(w, w.threads[top]), []))
  {
    var f := Frame(top, w.threads[top], []);
    KidsBelow(w, height, top, w.threads[top]);
    assert Rest(w, f) == KidsOf(w, w.threads[top]);
    Start(w, height, v, f);
    assert [] + [f] == [f];
    assert w.threads[top] == w.threads[top][0..];
  }

  /** walk_process_tree. The visitor is called on exactly the tasks of the recursive walk, in its
      order, whatever the visitor answers. */
  method WalkProcessTree(w: Tasks, task: Id, v: Visitor, ghost height: Id -> nat) returns (log: seq<Id>)
    requires Forest(w, height) && task in w.leader && w.leader[task] in w.threads
    ensures var top := w.leader[task];
            && Below(w, height, top, KidsOf(w, w.threads[top]))
            && log == Preorder(w, height, v, top, KidsOf(w, w.threads[top]), []).log
            && WalkOk(w, v, Preorder(w, height, v, top, KidsOf(w, w.threads[top]), []), [], KidsOf(w, w.threads[top]))
  {
    var top := w.leader[task];
    var leader, parent := top, top;
    var threads, children := w.threads[leader], [];
    log := [];
    FirstTurn(w, height, v, top);
    ghost var whole := Preorder(w, height, v, top, KidsOf(w, w.threads[top]), []);
    PreorderMeans(w, height, v, top, KidsOf(w, w.threads[top]), []);
    ghost var fs: seq<Frame> := [];
    while true
      invariant Midway(w, height, v, fs, Frame(leader, threads, children), parent, top, log, whole)
      decreases TotalCost(w, height, fs + [Frame(leader, threads, children)])
    {
      ghost var f := Frame(leader, threads, children);
      if children != [] {
        VisitTurn(w, height, v, fs, f, parent, top, log, whole);
        var child := children[0];
        log := log + [child];
        var res := v(log);
        if res < 0 {
          break;
        }
        children := children[1..];
        if res > 0 {
          fs := fs + [f.(children := children)];
          leader, threads, children := child, w.threads[child], [];
        }
      } else if threads != [] {
        ThreadTurn(w, height, v, fs, f, parent, top, log, whole);
        parent := threads[0];
        threads, children := threads[1..], w.children[parent];
      } else {
        BackTurn(w, height, v, fs, f, parent, top, log, whole);
        if leader == top {
          break;
        }
        var child := leader;
        parent := w.parent[child];
        leader := w.leader[parent];
        threads, children := After(w.threads[leader], parent), After(w.children[parent], child);
        fs := fs[..|fs| - 1];
      }
    }
  }
}
