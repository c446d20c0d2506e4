/** Chained completion of bios: a chained bio, when it is done, completes its parent, in a loop that
    climbs the chain. */
module BioChain {
  type Id = int

  /** `bi_end_io` and `bi_private`: nothing, a callback of the owner, or the chain to a parent. */
  datatype EndIo = NoEnd | Callback | ChainTo(parent: Id)

  datatype Bio = Bio(remaining: int, chained: bool, status: int, endIo: EndIo)

  // ---------------------------------------------------------------- counting completions

  /** The bios chained to `p` that are not done. */
  ghost function Open(bios: map<Id, Bio>, done: set<Id>, p: Id): (r: set<Id>) {
    set b | b in bios && bios[b].endIo == ChainTo(p) && b !in done
  }

  /** The completions that a bio still waits for: its own and one for each chained bio. */
  ghost function Awaited(bios: map<Id, Bio>, own: set<Id>, done: set<Id>, b: Id): (n: nat) {
    |Open(bios, done, b)| + if b in own then 0 else 1
  }

  /** The counter of a live bio is what it waits for and what is on its way to it; it is one, and the
      flag down, as long as nothing has been chained to the bio. A bio is done when nothing is left
      to wait for or to arrive. */
  ghost predicate BioOk(bios: map<Id, Bio>, own: set<Id>, done: set<Id>, flight: multiset<Id>, b: Id)
    requires b in bios
  {
    && (bios[b].endIo.ChainTo? ==> bios[b].endIo.parent in bios)
    && (b in done <==> Awaited(bios, own, done, b) + flight[b] == 0)
    && (b !in done ==> bios[b].remaining == Awaited(bios, own, done, b) + flight[b])
    && (b !in done && !bios[b].chained ==> bios[b].remaining == 1)
  }

  /** `flight` holds the completions that have been sent and have not arrived at their bio yet. */
  ghost predicate Balanced(bios: map<Id, Bio>, own: set<Id>, done: set<Id>, flight: multiset<Id>) {
    && own <= bios.Keys && done <= own && (forall b :: b in flight ==> b in bios)
    && forall b {:trigger BioOk(bios, own, done, flight, b)} :: b in bios ==> BioOk(bios, own, done, flight, b)
  }

  /** Only the chains matter for who waits for whom. */
  ghost predicate SameChains(bios: map<Id, Bio>, bios': map<Id, Bio>) {
    && bios'.Keys == bios.Keys
    && forall b :: b in bios ==> bios'[b].endIo == bios[b].endIo
  }

  lemma SameOpen(bios: map<Id, Bio>, bios': map<Id, Bio>, done: set<Id>, p: Id)
    requires SameChains(bios, bios')
    ensures Open(bios, done, p) == Open(bios', done, p)
  {
    forall b ensures b in Open(bios, done, p) <==> b in Open(bios', done, p) {
    }
  }

  lemma KeepOk(bios: map<Id, Bio>, bios': map<Id, Bio>, own: set<Id>, done: set<Id>, flight: multiset<Id>, b: Id)
    requires SameChains(bios, bios') && b in bios && BioOk(bios, own, done, flight, b)
    requires bios'[b].remaining == bios[b].remaining && bios'[b].chained == bios[b].chained
    ensures BioOk(bios', own, done, flight, b)
  {
    SameOpen(bios, bios', done, b);
  }

  /** The own completion of `x` is sent. */
  lemma OwnSent(bios: map<Id, Bio>, own: set<Id>, done: set<Id>, flight: multiset<Id>, x: Id)
    requires Balanced(bios, own, done, flight) && x in bios && x !in own
    ensures Balanced(bios, own + {x}, done, flight + multiset{x})
  {
    forall b | b in bios ensures BioOk(bios, own + {x}, done, flight + multiset{x}, b) {
      assert BioOk(bios, own, done, flight, b);
    }
  }

  /** A completion is counted, and others are still to come. */
  lemma CountedDown(bios: map<Id, Bio>, own: set<Id>, done: set<Id>, flight: multiset<Id>, x: Id, bios': map<Id, Bio>)
    requires Balanced(bios, own, done, flight) && x in flight && x !in done && bios[x].remaining != 1
    requires bios' == bios[x := bios[x].(remaining := bios[x].remaining - 1)]
    ensures Balanced(bios', own, done, Onwards(flight, x, NoEnd))
  {
    forall b | b in bios' ensures BioOk(bios', own, done, Onwards(flight, x, NoEnd), b) {
      assert BioOk(bios, own, done, flight, b);
      SameOpen(bios, bios', done, b);
    }
  }

  /** Marking `x` done takes it off what its parent waits for, and changes nothing else. */
  lemma OpenAfter(bios: map<Id, Bio>, done: set<Id>, x: Id, p: Id)
    requires x in bios && x !in done
    ensures bios[x].endIo != ChainTo(p) ==> Open(bios, done + {x}, p) == Open(bios, done, p)
    ensures bios[x].endIo == ChainTo(p) ==>
              Open(bios, done + {x}, p) == Open(bios, done, p) - {x} && x in Open(bios, done, p)
  {
  }

  /** What is on its way after the last completion of `x` has arrived: one to its parent, if it is
      chained. */
  function Onwards(flight: multiset<Id>, x: Id, endIo: EndIo): (r: multiset<Id>) {
    (flight - multiset{x}) + if endIo.ChainTo? then multiset{endIo.parent} else multiset{}
  }

  lemma OnwardsFrom(base: multiset<Id>, x: Id, endIo: EndIo)
    ensures Onwards(base + multiset{x}, x, endIo)
         == base + if endIo.ChainTo? then multiset{endIo.parent} else multiset{}
  {
    assert (base + multiset{x}) - multiset{x} == base;
  }

  /** As long as a chained bio is not done, neither is its parent. */
  lemma ParentWaits(bios: map<Id, Bio>, own: set<Id>, done: set<Id>, flight: multiset<Id>, x: Id)
    requires Balanced(bios, own, done, flight) && x in flight && x !in done
    requires bios[x].remaining == 1 && bios[x].endIo.ChainTo?
    ensures var p := bios[x].endIo.parent; p in bios && p !in done && p != x
  {
    var p := bios[x].endIo.parent;
    assert x in Open(bios, done, p);
    assert BioOk(bios, own, done, flight, x) && BioOk(bios, own, done, flight, p);
  }

  lemma NowDone(bios: map<Id, Bio>, own: set<Id>, done: set<Id>, flight: multiset<Id>, x: Id, bios': map<Id, Bio>)
    requires Balanced(bios, own, done, flight) && x in flight && x !in done && bios[x].remaining == 1
    requires SameChains(bios, bios')
    requires forall b :: b in bios && b != x ==>
               bios'[b].remaining == bios[b].remaining && bios'[b].chained == bios[b].chained
    ensures Balanced(bios', own, done + {x}, Onwards(flight, x, bios[x].endIo))
  {
    assert BioOk(bios, own, done, flight, x);
    if bios[x].endIo.ChainTo? {
      ParentWaits(bios, own, done, flight, x);
    }
    forall b | b in bios' ensures BioOk(bios', own, done + {x}, Onwards(flight, x, bios[x].endIo), b) {
      assert BioOk(bios, own, done, flight, b);
      SameOpen(bios, bios', done, b);
      OpenAfter(bios', done, x, b);
    }
  }

  /** A new bio waits for itself alone. */
  lemma Allocated(bios: map<Id, Bio>, own: set<Id>, done: set<Id>, flight: multiset<Id>, x: Id, bios': map<Id, Bio>)
    requires Balanced(bios, own, done, flight) && x !in bios
    requires x in bios' && bios' == bios[x := bios'[x]]
    requires bios'[x].remaining == 1 && !bios'[x].chained && !bios'[x].endIo.ChainTo?
    ensures Balanced(bios', own, done, flight)
  {
    assert Open(bios', done, x) == {} by {
      forall b | b in bios ensures bios[b].endIo != ChainTo(x) {
        assert BioOk(bios, own, done, flight, b);
      }
    }
    forall b | b in bios ensures BioOk(bios', own, done, flight, b) {
      assert BioOk(bios, own, done, flight, b);
      assert Open(bios', done, b) == Open(bios, done, b);
    }
  }

  lemma OpenLinked(bios: map<Id, Bio>, done: set<Id>, c: Id, p: Id, linked: map<Id, Bio>, b: Id)
    requires c in bios && c !in done && bios[c].endIo == NoEnd && linked == bios[c := bios[c].(endIo := ChainTo(p))]
    ensures |Open(linked, done, b)| == |Open(bios, done, b)| + if b == p then 1 else 0
  {
    if b == p {
      assert Open(linked, done, b) == Open(bios, done, b) + {c} && c !in Open(bios, done, b);
    } else {
      assert Open(linked, done, b) == Open(bios, done, b);
    }
  }

  /** Chaining `c` to `p` makes `p` wait for `c` too. */
  lemma Chained(bios: map<Id, Bio>, own: set<Id>, done: set<Id>, flight: multiset<Id>, c: Id, p: Id,
                linked: map<Id, Bio>, bios': map<Id, Bio>)
    requires Balanced(bios, own, done, flight) && c in bios && p in bios && c !in done && p !in done
    requires bios[c].endIo == NoEnd && linked == bios[c := bios[c].(endIo := ChainTo(p))]
    requires bios' == linked[p := linked[p].(remaining := linked[p].remaining + 1, chained := true)]
    ensures Balanced(bios', own, done, flight)
  {
    forall b | b in bios' ensures BioOk(bios', own, done, flight, b) {
      assert BioOk(bios, own, done, flight, b);
      OpenLinked(bios, done, c, p, linked, b);
      SameOpen(linked, bios', done, b);
      ChainedOne(bios, own, done, flight, c, p, linked, bios', b);
    }
  }

  lemma ChainedOne(bios: map<Id, Bio>, own: set<Id>, done: set<Id>, flight: multiset<Id>, c: Id, p: Id,
                   linked: map<Id, Bio>, bios': map<Id, Bio>, b: Id)
    requires c in bios && p in bios && c !in done && p !in done && b in bios && BioOk(bios, own, done, flight, b)
    requires bios[c].endIo == NoEnd && linked == bios[c := bios[c].(endIo := ChainTo(p))]
    requires bios' == linked[p := linked[p].(remaining := linked[p].remaining + 1, chained := true)]
    requires |Open(bios', done, b)| == |Open(bios, done, b)| + if b == p then 1 else 0
    ensures BioOk(bios', own, done, flight, b)
  {
  }

  // ---------------------------------------------------------------- done means all below complete

  /** A chain of bios, each chained to the next. */
  ghost predicate Path(bios: map<Id, Bio>, path: seq<Id>) {
    && |path| > 0 && (forall i :: 0 <= i < |path| ==> path[i] in bios)
    && forall i :: 0 <= i < |path| - 1 ==> bios[path[i]].endIo == ChainTo(path[i + 1])
  }

  /** The chains lead upwards and never back. */
  ghost predicate Acyclic(bios: map<Id, Bio>, rank: Id -> nat) {
    forall b :: b in bios && bios[b].endIo.ChainTo? ==> rank(b) < rank(bios[b].endIo.parent)
  }

  /** All bios below `b`, and `b` itself, have had their own completion, and nothing is on its way
      to any of them. */
  ghost predicate AllIn(bios: map<Id, Bio>, own: set<Id>, flight: multiset<Id>, b: Id) {
    forall path :: Path(bios, path) && path[|path| - 1] == b ==> path[0] in own && path[0] !in flight
  }

  lemma {:induction false} DoneBelow(bios: map<Id, Bio>, own: set<Id>, done: set<Id>, flight: multiset<Id>,
                                     path: seq<Id>)
    requires Balanced(bios, own, done, flight) && Path(bios, path) && path[|path| - 1] in done
    ensures path[0] in done && path[0] in own && path[0] !in flight
    decreases |path|
  {
    assert BioOk(bios, own, done, flight, path[|path| - 1]);
    if |path| > 1 {
      var c, b := path[|path| - 2], path[|path| - 1];
      assert c in Open(bios, done, b) || c in done;
      DoneBelow(bios, own, done, flight, path[..|path| - 1]);
    }
  }

  lemma Pick(s: set<Id>) returns (c: Id)
    requires |s| != 0
    ensures c in s
  {
    if forall x :: x !in s {
      assert false;
    }
    c :| c in s;
  }

  lemma {:induction false} NotDoneBelow(bios: map<Id, Bio>, own: set<Id>, done: set<Id>, flight: multiset<Id>,
                                        rank: Id -> nat, b: Id)
    returns (path: seq<Id>)
    requires Balanced(bios, own, done, flight) && Acyclic(bios, rank) && b in bios && b !in done
    ensures Path(bios, path) && path[|path| - 1] == b && (path[0] !in own || path[0] in flight)
    decreases rank(b)
  {
    assert BioOk(bios, own, done, flight, b);
    if b !in own || b in flight {
      path := [b];
    } else {
      var c := Pick(Open(bios, done, b));
      var below := NotDoneBelow(bios, own, done, flight, rank, c);
      path := below + [b];
    }
  }

  /** In an acyclic forest a bio is done exactly when the own completions of all bios below it, and
      its own, have come in. */
  lemma DoneIff(bios: map<Id, Bio>, own: set<Id>, done: set<Id>, flight: multiset<Id>, rank: Id -> nat, b: Id)
    requires Balanced(bios, own, done, flight) && Acyclic(bios, rank) && b in bios
    ensures b in done <==> AllIn(bios, own, flight, b)
  {
    if b in done {
      forall path | Path(bios, path) && path[|path| - 1] == b ensures path[0] in own && path[0] !in flight {
        DoneBelow(bios, own, done, flight, path);
      }
    } else {
      var path := NotDoneBelow(bios, own, done, flight, rank, b);
    }
  }

  // ---------------------------------------------------------------- errors

  /** An error goes up when a chained bio is done. `erred` holds the errors set by the owners, and
      `cleared` the bios whose owner has set the status back to zero. */
  ghost predicate ErrorOk(bios: map<Id, Bio>, done: set<Id>, erred: map<Id, int>, cleared: set<Id>, b: Id)
    requires b in bios
  {
    && (b in erred ==> erred[b] != 0)
    && (b in erred && b !in cleared ==> bios[b].status != 0)
    && (b in done && bios[b].status != 0 && bios[b].endIo.ChainTo? ==>
          var p := bios[b].endIo.parent; p in bios && (p in cleared || bios[p].status != 0))
    && (bios[b].status != 0 ==>
          (b in erred && erred[b] == bios[b].status) || PassedUp(bios, done, b))
  }

  /** The status of `b` is that of a bio chained to it. */
  ghost predicate PassedUp(bios: map<Id, Bio>, done: set<Id>, b: Id)
    requires b in bios
  {
    exists c :: c in bios && c in done && bios[c].endIo == ChainTo(b) && bios[c].status == bios[b].status
  }

  ghost predicate Errors(bios: map<Id, Bio>, done: set<Id>, erred: map<Id, int>, cleared: set<Id>) {
    && erred.Keys <= bios.Keys && cleared <= bios.Keys
    && forall b {:trigger ErrorOk(bios, done, erred, cleared, b)} ::
         b in bios ==> ErrorOk(bios, done, erred, cleared, b)
  }

  /** An error anywhere below a bio that is done shows in its status, unless an owner on the way
      has cleared it. */
  lemma {:induction false} ErrorReaches(bios: map<Id, Bio>, own: set<Id>, done: set<Id>, flight: multiset<Id>,
                                        erred: map<Id, int>, cleared: set<Id>, path: seq<Id>)
    requires Balanced(bios, own, done, flight) && Errors(bios, done, erred, cleared)
    requires Path(bios, path) && path[|path| - 1] in done && path[0] in erred
    requires forall i :: 0 <= i < |path| ==> path[i] !in cleared
    ensures bios[path[|path| - 1]].status != 0
    decreases |path|
  {
    assert ErrorOk(bios, done, erred, cleared, path[0]);
    if |path| > 1 {
      var c := path[|path| - 2];
      DoneBelow(bios, own, done, flight, [c, path[|path| - 1]]);
      ErrorReaches(bios, own, done, flight, erred, cleared, path[..|path| - 1]);
      assert ErrorOk(bios, done, erred, cleared, c);
    }
  }

  /** And an error in a status is the error of an owner somewhere below. */
  lemma {:induction false} ErrorComes(bios: map<Id, Bio>, done: set<Id>, erred: map<Id, int>, cleared: set<Id>,
                                      rank: Id -> nat, b: Id) returns (path: seq<Id>)
    requires Errors(bios, done, erred, cleared) && Acyclic(bios, rank) && b in bios && bios[b].status != 0
    ensures Path(bios, path) && path[|path| - 1] == b && path[0] in erred && erred[path[0]] == bios[b].status
    decreases rank(b)
  {
    assert ErrorOk(bios, done, erred, cleared, b);
    if b in erred && erred[b] == bios[b].status {
      path := [b];
    } else {
      var c :| c in bios && c in done && bios[c].endIo == ChainTo(b) && bios[c].status == bios[b].status;
      var below := ErrorComes(bios, done, erred, cleared, rank, c);
      path := below + [b];
    }
  }

  /** The owner of `x`, not complete yet, sets its status. */
  lemma StatusSet(bios: map<Id, Bio>, done: set<Id>, erred: map<Id, int>, cleared: set<Id>, x: Id, status: int,
                  bios': map<Id, Bio>, erred': map<Id, int>, cleared': set<Id>)
    requires Errors(bios, done, erred, cleared) && x in bios && x !in done
    requires bios' == bios[x := bios[x].(status := status)]
    requires erred' == if status != 0 then erred[x := status] else erred
    requires cleared' == if status == 0 then cleared + {x} else cleared
    ensures Errors(bios', done, erred', cleared')
  {
    forall b | b in bios' ensures ErrorOk(bios', done, erred', cleared', b) {
      assert ErrorOk(bios, done, erred, cleared, b);
      if b != x && PassedUp(bios, done, b) {
        var c :| c in bios && c in done && bios[c].endIo == ChainTo(b) && bios[c].status == bios[b].status;
        assert bios'[c] == bios[c];
      }
    }
  }

  /** New bios and new chains do not touch any status. */
  lemma ErrorKept(bios: map<Id, Bio>, bios': map<Id, Bio>, done: set<Id>, erred: map<Id, int>, cleared: set<Id>, b: Id)
    requires b in bios && ErrorOk(bios, done, erred, cleared, b)
    requires bios.Keys <= bios'.Keys && forall c :: c in bios ==> bios'[c].status == bios[c].status
    requires forall c :: c in bios && c in done ==> bios'[c].endIo == bios[c].endIo
    ensures ErrorOk(bios', done, erred, cleared, b)
  {
  }

  lemma ErrorsKept(bios: map<Id, Bio>, bios': map<Id, Bio>, done: set<Id>, erred: map<Id, int>, cleared: set<Id>)
    requires Errors(bios, done, erred, cleared) && bios'.Keys == bios.Keys
    requires forall c :: c in bios ==> bios'[c].status == bios[c].status
    requires forall c :: c in bios && c in done ==> bios'[c].endIo == bios[c].endIo
    ensures Errors(bios', done, erred, cleared)
  {
    forall b | b in bios' ensures ErrorOk(bios', done, erred, cleared, b) {
      ErrorKept(bios, bios', done, erred, cleared, b);
    }
  }

  /** Chaining changes no status, and nothing of a bio that is done. */
  lemma LinksOnly(bios: map<Id, Bio>, linked: map<Id, Bio>, bios': map<Id, Bio>, done: set<Id>, c: Id, p: Id)
    requires c in bios && p in bios && c !in done && p !in done
    requires linked == bios[c := bios[c].(endIo := ChainTo(p))]
    requires bios' == linked[p := linked[p].(remaining := linked[p].remaining + 1, chained := true)]
    ensures bios'.Keys == bios.Keys
    ensures forall b :: b in bios ==> bios'[b].status == bios[b].status
    ensures forall b :: b in bios && b in done ==> bios'[b] == bios[b]
  {
  }

  /** The parent takes over the status of a chained bio, unless it has one. */
  function Merged(parent: Bio, status: int): (r: Bio) {
    if status != 0 && parent.status == 0 then parent.(status := status) else parent
  }

  /** A bio is done and passes its error up; counters and flags may change. */
  lemma ErrorPassed(bios: map<Id, Bio>, done: set<Id>, erred: map<Id, int>, cleared: set<Id>, x: Id,
                    bios': map<Id, Bio>)
    requires Errors(bios, done, erred, cleared) && x in bios && x !in done && SameChains(bios, bios')
    requires bios[x].endIo.ChainTo? ==>
               var p := bios[x].endIo.parent;
               p in bios && p !in done && p != x && bios'[p].status == Merged(bios[p], bios[x].status).status
    requires forall b :: b in bios && bios[x].endIo != ChainTo(b) ==> bios'[b].status == bios[b].status
    ensures Errors(bios', done + {x}, erred, cleared)
  {
    forall b | b in bios' ensures ErrorOk(bios', done + {x}, erred, cleared, b) {
      assert ErrorOk(bios, done, erred, cleared, b);
      if PassedUp(bios, done, b) {
        var c :| c in bios && c in done && bios[c].endIo == ChainTo(b) && bios[c].status == bios[b].status;
        assert bios'[c].status == bios[c].status;
      }
      if bios[x].endIo == ChainTo(b) && bios[b].status == 0 {
        assert bios'[x].status == bios[x].status;
      }
    }
  }

  /** The record of a bio whose last completion has been counted. */
  function Counted(bio: Bio): (r: Bio) {
    if bio.chained then bio.(remaining := bio.remaining - 1, chained := false) else bio
  }

  /** All records after that: the parent has taken over the status. */
  function AfterEnd(bios: map<Id, Bio>, x: Id): (r: map<Id, Bio>)
    requires x in bios && (bios[x].endIo.ChainTo? ==> bios[x].endIo.parent in bios)
  {
    var counted := bios[x := Counted(bios[x])];
    if bios[x].endIo.ChainTo? then
      counted[bios[x].endIo.parent := Merged(counted[bios[x].endIo.parent], bios[x].status)]
    else counted
  }

  // ---------------------------------------------------------------- the first error

  /** The first of some statuses that is an error, or zero. */
  function FirstError(s: seq<int>): (status: int) {
    if s == [] then 0 else if s[0] != 0 then s[0] else FirstError(s[1..])
  }

  lemma {:induction false} FirstErrorNext(s: seq<int>, status: int)
    ensures FirstError(s + [status]) == if FirstError(s) != 0 then FirstError(s) else status
  {
    if s == [] {
      assert s + [status] == [status] && [status][1..] == [];
    } else {
      assert (s + [status])[1..] == s[1..] + [status];
      FirstErrorNext(s[1..], status);
    }
  }

  ghost predicate StatusIsFirst(bios: map<Id, Bio>, reached: map<Id, seq<int>>, b: Id) {
    b in bios && b in reached && bios[b].status == FirstError(reached[b])
  }

  /** `reached` has, for each bio, what its owner last set its status to and the statuses of the chained
      bios that have ended since. The status is the first error among these. */
  ghost predicate FirstErrors(bios: map<Id, Bio>, reached: map<Id, seq<int>>) {
    && reached.Keys == bios.Keys
    && forall b {:trigger StatusIsFirst(bios, reached, b)} :: b in bios ==> StatusIsFirst(bios, reached, b)
  }

  /** What has reached each bio after one with this status and end has ended. */
  function ReachedNext(reached: map<Id, seq<int>>, endIo: EndIo, status: int): (r: map<Id, seq<int>>) {
    if endIo.ChainTo? && endIo.parent in reached
    then reached[endIo.parent := reached[endIo.parent] + [status]] else reached
  }

  ghost predicate ErrorStays(bios: map<Id, Bio>, bios': map<Id, Bio>, b: Id) {
    b in bios && bios[b].status != 0 ==> b in bios' && bios'[b].status == bios[b].status
  }

  /** No error is overwritten. */
  ghost predicate ErrorsStay(bios: map<Id, Bio>, bios': map<Id, Bio>) {
    forall b {:trigger ErrorStays(bios, bios', b)} :: ErrorStays(bios, bios', b)
  }

  lemma ErrorsStayNext(bios: map<Id, Bio>, bios': map<Id, Bio>, bios'': map<Id, Bio>)
    requires ErrorsStay(bios, bios') && ErrorsStay(bios', bios'')
    ensures ErrorsStay(bios, bios'')
  {
    forall b ensures ErrorStays(bios, bios'', b) {
      assert ErrorStays(bios, bios', b) && ErrorStays(bios', bios'', b);
    }
  }

  /** A new status, set by the owner of a bio that may be new. */
  lemma FirstErrorsSet(bios: map<Id, Bio>, reached: map<Id, seq<int>>, x: Id, bio: Bio, s: seq<int>)
    requires FirstErrors(bios, reached) && bio.status == FirstError(s)
    ensures FirstErrors(bios[x := bio], reached[x := s])
  {
    var bios', reached' := bios[x := bio], reached[x := s];
    forall b | b in bios' ensures StatusIsFirst(bios', reached', b) {
      assert b != x ==> StatusIsFirst(bios, reached, b);
    }
  }

  lemma FirstErrorsKept(bios: map<Id, Bio>, reached: map<Id, seq<int>>, bios': map<Id, Bio>)
    requires FirstErrors(bios, reached) && bios'.Keys == bios.Keys
    requires forall b :: b in bios ==> bios'[b].status == bios[b].status
    ensures FirstErrors(bios', reached) && ErrorsStay(bios, bios')
  {
    forall b | b in bios' ensures StatusIsFirst(bios', reached, b) {
      assert StatusIsFirst(bios, reached, b);
    }
  }

  lemma ErrorStaysMerged(bios: map<Id, Bio>, counted: map<Id, Bio>, p: Id, status: int)
    requires ErrorsStay(bios, counted) && p in counted
    ensures ErrorsStay(bios, counted[p := Merged(counted[p], status)])
  {
    var merged := counted[p := Merged(counted[p], status)];
    forall b ensures ErrorStays(bios, merged, b) {
      assert ErrorStays(bios, counted, b);
    }
  }

  /** Bio `x` ends: its status reaches its parent. */
  lemma FirstErrorsNext(bios: map<Id, Bio>, reached: map<Id, seq<int>>, x: Id, bios': map<Id, Bio>)
    requires FirstErrors(bios, reached) && x in bios
    requires bios[x].endIo.ChainTo? ==> bios[x].endIo.parent in bios && bios[x].endIo.parent != x
    requires bios' == AfterEnd(bios, x)
    ensures FirstErrors(bios', ReachedNext(reached, bios[x].endIo, bios[x].status)) && ErrorsStay(bios, bios')
  {
    var counted := bios[x := Counted(bios[x])];
    FirstErrorsKept(bios, reached, counted);
    if bios[x].endIo.ChainTo? {
      var p := bios[x].endIo.parent;
      FirstErrorNext(reached[p], bios[x].status);
      assert StatusIsFirst(counted, reached, p);
      ErrorStaysMerged(bios, counted, p, bios[x].status);
      FirstErrorsSet(counted, reached, p, bios'[p], reached[p] + [bios[x].status]);
    }
  }

  // ---------------------------------------------------------------- callbacks and puts

  datatype Ended = Ended(id: Id, status: int)

  /** Each bio with a callback gets it once, when it is done, with its last status; each chained
      bio is put once, when it is done. */
  ghost predicate Logged(bios: map<Id, Bio>, done: set<Id>, ended: multiset<Ended>, puts: multiset<Id>) {
    && (forall e: Ended :: ended[e] == if Due(bios, done, e) then 1 else 0)
    && (forall b: Id :: puts[b] == if Gone(bios, done, b) then 1 else 0)
  }

  predicate Due(bios: map<Id, Bio>, done: set<Id>, e: Ended) {
    e.id in bios && e.id in done && bios[e.id].endIo == Callback && bios[e.id].status == e.status
  }

  predicate Gone(bios: map<Id, Bio>, done: set<Id>, b: Id) {
    b in bios && b in done && bios[b].endIo.ChainTo?
  }

  /** Nothing that is done is touched. */
  lemma LoggedSame(bios: map<Id, Bio>, done: set<Id>, ended: multiset<Ended>, puts: multiset<Id>, bios': map<Id, Bio>)
    requires Logged(bios, done, ended, puts) && done <= bios.Keys && done <= bios'.Keys
    requires forall b :: b in done ==> bios'[b].endIo == bios[b].endIo && bios'[b].status == bios[b].status
    ensures Logged(bios', done, ended, puts)
  {
  }

  /** The callbacks and puts after bio `x` has ended. */
  function CalledBack(ended: multiset<Ended>, x: Id, bio: Bio): (r: multiset<Ended>) {
    if bio.endIo == Callback then ended + multiset{Ended(x, bio.status)} else ended
  }

  function Put(puts: multiset<Id>, x: Id, bio: Bio): (r: multiset<Id>) {
    if bio.endIo.ChainTo? then puts + multiset{x} else puts
  }

  lemma LoggedDone(bios: map<Id, Bio>, done: set<Id>, ended: multiset<Ended>, puts: multiset<Id>, x: Id)
    requires Logged(bios, done, ended, puts) && x in bios && x !in done
    ensures Logged(bios, done + {x}, CalledBack(ended, x, bios[x]), Put(puts, x, bios[x]))
  {
  }

  /** The last completion of `x` has come in. */
  lemma EndBalanced(bios: map<Id, Bio>, own: set<Id>, done: set<Id>, flight: multiset<Id>, x: Id, bios': map<Id, Bio>)
    requires Balanced(bios, own, done, flight) && x in flight && x !in done && bios[x].remaining == 1
    requires bios[x].endIo.ChainTo? ==> bios[x].endIo.parent in bios
    requires bios' == AfterEnd(bios, x)
    ensures Balanced(bios', own, done + {x}, Onwards(flight, x, bios[x].endIo))
    ensures SameChains(bios, bios') && bios'[x] == Counted(bios[x])
    ensures bios[x].endIo.ChainTo? ==> bios[x].endIo.parent !in done && bios[x].endIo.parent != x
  {
    if bios[x].endIo.ChainTo? {
      ParentWaits(bios, own, done, flight, x);
    }
    assert bios'[x] == Counted(bios[x]);
    NowDone(bios, own, done, flight, x, bios');
  }

  lemma EndErrors(bios: map<Id, Bio>, done: set<Id>, erred: map<Id, int>, cleared: set<Id>, x: Id, bios': map<Id, Bio>)
    requires Errors(bios, done, erred, cleared) && x in bios && x !in done
    requires bios[x].endIo.ChainTo? ==>
               bios[x].endIo.parent in bios && bios[x].endIo.parent !in done && bios[x].endIo.parent != x
    requires bios' == AfterEnd(bios, x) && SameChains(bios, bios') && bios'[x] == Counted(bios[x])
    ensures Errors(bios', done + {x}, erred, cleared)
  {
    ErrorPassed(bios, done, erred, cleared, x, bios');
  }

  lemma EndLogged(bios: map<Id, Bio>, done: set<Id>, ended: multiset<Ended>, puts: multiset<Id>, x: Id,
                  bios': map<Id, Bio>)
    requires Logged(bios, done, ended, puts) && x in bios && x !in done && done <= bios.Keys
    requires bios[x].endIo.ChainTo? ==>
               bios[x].endIo.parent in bios && bios[x].endIo.parent !in done && bios[x].endIo.parent != x
    requires bios' == AfterEnd(bios, x) && SameChains(bios, bios') && bios'[x] == Counted(bios[x])
    ensures Logged(bios', done + {x}, CalledBack(ended, x, bios[x]), Put(puts, x, bios[x]))
  {
    LoggedSame(bios, done, ended, puts, bios');
    LoggedDone(bios', done, ended, puts, x);
  }

  // ---------------------------------------------------------------- all of it

  ghost predicate AllOk(bios: map<Id, Bio>, own: set<Id>, done: set<Id>, flight: multiset<Id>, erred: map<Id, int>,
                        cleared: set<Id>, ended: multiset<Ended>, puts: multiset<Id>, reached: map<Id, seq<int>>)
  {
    && Balanced(bios, own, done, flight) && Errors(bios, done, erred, cleared) && Logged(bios, done, ended, puts)
    && FirstErrors(bios, reached)
  }

  /** The last completion of `x` arrives. */
  lemma EndOk(bios: map<Id, Bio>, own: set<Id>, done: set<Id>, flight: multiset<Id>, erred: map<Id, int>,
              cleared: set<Id>, ended: multiset<Ended>, puts: multiset<Id>, reached: map<Id, seq<int>>, x: Id)
    requires AllOk(bios, own, done, flight, erred, cleared, ended, puts, reached)
    requires x in flight && x !in done && bios[x].remaining == 1
    ensures bios[x].endIo.ChainTo? ==> bios[x].endIo.parent in bios
    ensures var bios', e := AfterEnd(bios, x), bios[x].endIo;
            && SameChains(bios, bios') && ErrorsStay(bios, bios')
            && AllOk(bios', own, done + {x}, Onwards(flight, x, e), erred, cleared, CalledBack(ended, x, bios[x]),
                     Put(puts, x, bios[x]), ReachedNext(reached, e, bios[x].status))
  {
    assert BioOk(bios, own, done, flight, x);
    var bios' := AfterEnd(bios, x);
    EndBalanced(bios, own, done, flight, x, bios');
    EndErrors(bios, done, erred, cleared, x, bios');
    EndLogged(bios, done, ended, puts, x, bios');
    FirstErrorsNext(bios, reached, x, bios');
  }

  /** The owner of `x`, not complete yet, sets its status. */
  lemma StatusOk(bios: map<Id, Bio>, own: set<Id>, done: set<Id>, flight: multiset<Id>, erred: map<Id, int>,
                 cleared: set<Id>, ended: multiset<Ended>, puts: multiset<Id>, reached: map<Id, seq<int>>,
                 x: Id, status: int)
    requires AllOk(bios, own, done, flight, erred, cleared, ended, puts, reached) && x in bios && x !in own
    ensures AllOk(bios[x := bios[x].(status := status)], own, done, flight,
                  if status != 0 then erred[x := status] else erred, if status == 0 then cleared + {x} else cleared,
                  ended, puts, reached[x := [status]])
  {
    var bios' := bios[x := bios[x].(status := status)];
    StatusSet(bios, done, erred, cleared, x, status, bios', if status != 0 then erred[x := status] else erred,
              if status == 0 then cleared + {x} else cleared);
    forall b | b in bios' ensures BioOk(bios', own, done, flight, b) {
      KeepOk(bios, bios', own, done, flight, b);
    }
    LoggedSame(bios, done, ended, puts, bios');
    FirstErrorsSet(bios, reached, x, bios'[x], [status]);
  }

  lemma TakeOut(s: seq<Id>, k: nat)
    requires k < |s|
    ensures multiset(s[..k] + s[k + 1..]) == multiset(s) - multiset{s[k]} && s[k] in multiset(s)
  {
    assert s == s[..k] + [s[k]] + s[k + 1..];
  }
}
