/** The bios themselves, whose fields are changed in place. */
module ChainedBios {
  import opened BioChain

  datatype Step =
    | Allocate(id: Id, callback: bool)
    | Chain(child: Id, parent: Id)
    | SetStatus(id: Id, status: int)
    | Complete(id: Id)
    | Move(index: nat)

  /** The owner of `b` sets its status. */
  predicate SetsStatus(step: Step, b: Id) {
    step.SetStatus? && step.id == b
  }

  class Bios {
    var bios: map<Id, Bio>
    /** The bios whose own completion has come in, those that are done, and what the owners did to
        the status. */
    var own: set<Id>
    var done: set<Id>
    /** The completions on their way. */
    ghost var flight: multiset<Id>
    ghost var erred: map<Id, int>
    ghost var cleared: set<Id>
    /** What the owner last set the status of a bio to, and the statuses that have been passed up since. */
    ghost var reached: map<Id, seq<int>>
    /** The callbacks made and the bios put. */
    var ended: multiset<Ended>
    var puts: multiset<Id>

    ghost predicate Valid()
      reads this
    {
      AllOk(bios, own, done, flight, erred, cleared, ended, puts, reached)
    }

    constructor ()
      ensures Valid() && bios == map[]
    {
      bios, own, done, flight := map[], {}, {}, multiset{};
      erred, cleared, ended, puts, reached := map[], {}, multiset{}, multiset{}, map[];
    }

    /** bio_init, and the callback that the owner may set. */
    method Init(id: Id, callback: bool)
      requires Valid() && id !in bios
      modifies this
      ensures Valid() && bios == old(bios)[id := Bio(1, false, 0, if callback then Callback else NoEnd)]
      ensures reached == old(reached)[id := []]
      ensures own == old(own) && done == old(done) && flight == old(flight) && ended == old(ended) && puts == old(puts)
    {
      ghost var was := bios;
      bios := bios[id := Bio(1, false, 0, if callback then Callback else NoEnd)];
      FirstErrorsSet(was, reached, id, bios[id], []);
      reached := reached[id := []];
      Allocated(was, own, done, flight, id, bios);
      forall b | b in bios ensures ErrorOk(bios, done, erred, cleared, b) {
        if b != id {
          assert ErrorOk(was, done, erred, cleared, b);
          ErrorKept(was, bios, done, erred, cleared, b);
        }
      }
      LoggedSame(was, done, ended, puts, bios);
    }

    /** bio_chain. */
    method ChainBios(child: Id, parent: Id)
      requires Valid() && child in bios && parent in bios && child !in done && parent !in done
      requires bios[child].endIo == NoEnd
      modifies this
      ensures Valid()
      ensures var linked := old(bios)[child := old(bios)[child].(endIo := ChainTo(parent))];
              bios == linked[parent := linked[parent].(remaining := linked[parent].remaining + 1, chained := true)]
      ensures reached == old(reached)
      ensures own == old(own) && done == old(done) && flight == old(flight) && ended == old(ended) && puts == old(puts)
    {
      ghost var was := bios;
      bios := bios[child := bios[child].(endIo := ChainTo(parent))];
      ghost var linked := bios;
      bios := bios[parent := bios[parent].(chained := true, remaining := bios[parent].remaining + 1)];
      Chained(was, own, done, flight, child, parent, linked, bios);
      LinksOnly(was, linked, bios, done, child, parent);
      ErrorsKept(was, bios, done, erred, cleared);
      LoggedSame(was, done, ended, puts, bios);
      FirstErrorsKept(was, reached, bios);
    }

    /** The owner sets the status before it completes the bio. */
    method PutStatus(id: Id, status: int)
      requires Valid() && id in bios && id !in own
      modifies this
      ensures Valid() && bios == old(bios)[id := old(bios)[id].(status := status)]
      ensures reached == old(reached)[id := [status]]
      ensures own == old(own) && done == old(done) && flight == old(flight) && ended == old(ended) && puts == old(puts)
    {
      StatusOk(bios, own, done, flight, erred, cleared, ended, puts, reached, id, status);
      bios := bios[id := bios[id].(status := status)];
      reached := reached[id := [status]];
      if status != 0 {
        erred := erred[id := status];
      } else {
        cleared := cleared + {id};
      }
    }

    /** bio_remaining_done, with its BUG_ON. */
    method RemainingDone(x: Id) returns (r: bool)
      requires Balanced(bios, own, done, flight) && x in flight
      modifies this`bios
      ensures x !in done && (r <==> old(bios)[x].remaining == 1)
      ensures bios == old(bios)[x := if r then Counted(old(bios)[x])
                                     else old(bios)[x].(remaining := old(bios)[x].remaining - 1)]
    {
      assert BioOk(bios, own, done, flight, x);
      if !bios[x].chained {
        return true;
      }
      assert bios[x].remaining > 0;
      bios := bios[x := bios[x].(remaining := bios[x].remaining - 1)];
      if bios[x].remaining == 0 {
        bios := bios[x := bios[x].(chained := false)];
        return true;
      }
      return false;
    }

    /** __bio_chain_endio: the status goes up, the bio is put. */
    method ChainEndio(x: Id) returns (parent: Id)
      requires x in bios && bios[x].endIo.ChainTo? && bios[x].endIo.parent in bios
      modifies this`bios, this`puts
      ensures parent == old(bios)[x].endIo.parent && puts == old(puts) + multiset{x}
      ensures bios == old(bios)[parent := Merged(old(bios)[parent], old(bios)[x].status)]
      ensures var was, status := old(bios)[parent].status, old(bios)[x].status;
              bios[parent].status == if was != 0 then was else status
    {
      parent := bios[x].endIo.parent;
      if bios[x].status != 0 && bios[parent].status == 0 {
        bios := bios[parent := bios[parent].(status := bios[x].status)];
      }
      puts := puts + multiset{x};
    }

    /** One turn of the loop of bio_endio: a completion arrives at `x`, and goes on to the parent if
        it was the last one. */
    method Arrive(x: Id) returns (next: Id, more: bool)
      requires Valid() && x in flight
      modifies this`bios, this`done, this`flight, this`ended, this`puts, this`reached
      ensures Valid() && SameChains(old(bios), bios) && ErrorsStay(old(bios), bios)
      ensures reached == ReachedNext(old(reached), if more then ChainTo(next) else NoEnd, old(bios)[x].status)
      ensures x !in old(done) && (done == old(done) + {x} || (!more && done == old(done)))
      ensures flight == Onwards(old(flight), x, if more then ChainTo(next) else NoEnd)
    {
      ghost var was := bios;
      var last := RemainingDone(x);
      if last {
        next, more := LastArrived(x, was);
      } else {
        StillWaiting(x, was);
        next, more := x, false;
      }
    }

    /** The completion was the last one. */
    method LastArrived(x: Id, ghost was: map<Id, Bio>) returns (next: Id, more: bool)
      requires AllOk(was, own, done, flight, erred, cleared, ended, puts, reached)
      requires x in flight && x !in done && was[x].remaining == 1 && bios == was[x := Counted(was[x])]
      modifies this`bios, this`done, this`flight, this`ended, this`puts, this`reached
      ensures Valid() && SameChains(was, bios) && done == old(done) + {x} && ErrorsStay(was, bios)
      ensures more == was[x].endIo.ChainTo? && (more ==> next == was[x].endIo.parent)
      ensures reached == ReachedNext(old(reached), was[x].endIo, was[x].status)
      ensures flight == Onwards(old(flight), x, was[x].endIo)
    {
      ghost var d, f, e, p, r := done, flight, ended, puts, reached;
      assert BioOk(was, own, d, f, x);
      next, more := EndBio(x, was);
      reached := ReachedNext(reached, was[x].endIo, was[x].status);
      flight := Onwards(flight, x, was[x].endIo);
      done := done + {x};
      EndOk(was, own, d, f, erred, cleared, e, p, r, x);
    }

    /** The completion was not the last one. */
    ghost method StillWaiting(x: Id, was: map<Id, Bio>)
      requires Balanced(was, own, done, flight) && Errors(was, done, erred, cleared) && Logged(was, done, ended, puts)
      requires x in flight && x !in done && was[x].remaining != 1
      requires bios == was[x := was[x].(remaining := was[x].remaining - 1)] && FirstErrors(was, reached)
      modifies this`flight
      ensures Valid() && SameChains(was, bios) && flight == Onwards(old(flight), x, NoEnd) && ErrorsStay(was, bios)
    {
      CountedDown(was, own, done, flight, x, bios);
      ErrorsKept(was, bios, done, erred, cleared);
      LoggedSame(was, done, ended, puts, bios);
      FirstErrorsKept(was, reached, bios);
      flight := Onwards(flight, x, NoEnd);
    }

    /** The rest of that turn, when the last completion of `x` has been counted: a chained bio is
        put and its parent is next; otherwise the callback is due. */
    method EndBio(x: Id, ghost was: map<Id, Bio>) returns (next: Id, more: bool)
      requires x in was && (was[x].endIo.ChainTo? ==> was[x].endIo.parent in was)
      requires bios == was[x := Counted(was[x])]
      modifies this`bios, this`ended, this`puts
      ensures bios == AfterEnd(was, x)
      ensures ended == CalledBack(old(ended), x, was[x]) && puts == Put(old(puts), x, was[x])
      ensures more == was[x].endIo.ChainTo? && (more ==> next == was[x].endIo.parent)
    {
      if bios[x].endIo.ChainTo? {
        next := ChainEndio(x);
        more := true;
      } else {
        if bios[x].endIo == Callback {
          ended := ended + multiset{Ended(x, bios[x].status)};
        }
        next, more := x, false;
      }
    }

    /** The owner of `id` calls bio_endio. */
    method Send(id: Id)
      requires Valid() && id in bios && id !in own
      modifies this`own, this`flight
      ensures Valid() && own == old(own) + {id} && flight == old(flight) + multiset{id}
    {
      OwnSent(bios, own, done, flight, id);
      own := own + {id};
      flight := flight + multiset{id};
    }

    /** bio_endio, when nobody interferes: the own completion of `id`, and the climb along the
        chain. */
    method BioEndio(id: Id)
      requires Valid() && id in bios && id !in own
      modifies this
      ensures Valid() && own == old(own) + {id} && old(done) <= done && flight == old(flight)
      ensures SameChains(old(bios), bios) && erred == old(erred) && cleared == old(cleared)
      ensures ErrorsStay(old(bios), bios)
    {
      Send(id);
      var x := id;
      var more := true;
      while more
        invariant Valid() && own == old(own) + {id} && old(done) <= done
        invariant erred == old(erred) && cleared == old(cleared) && SameChains(old(bios), bios)
        invariant ErrorsStay(old(bios), bios)
        invariant flight == old(flight) + if more then multiset{x} else multiset{}
        decreases more, old(bios).Keys - done
      {
        ghost var was, from := bios, x;
        x, more := Arrive(x);
        OnwardsFrom(old(flight), from, if more then ChainTo(x) else NoEnd);
        ErrorsStayNext(old(bios), was, bios);
      }
    }

    /** A callback has been made, once, exactly when the own completions of the bio and of all bios
        below it have come in; a chained bio has been put, once, on the same condition. */
    lemma EndsOnce(rank: Id -> nat, b: Id)
      requires Valid() && Acyclic(bios, rank) && b in bios
      ensures bios[b].endIo == Callback ==>
                (if AllIn(bios, own, flight, b)
                 then forall e: Ended :: e.id == b ==> ended[e] == if e.status == bios[b].status then 1 else 0
                 else forall e: Ended :: e.id == b ==> ended[e] == 0)
      ensures bios[b].endIo.ChainTo? ==> puts[b] == if AllIn(bios, own, flight, b) then 1 else 0
    {
      DoneIff(bios, own, done, flight, rank, b);
    }

    /** A completion on its way arrives. */
    method MoveOn(k: nat, before: seq<Id>) returns (moving: seq<Id>)
      requires Valid() && multiset(before) == flight && k < |before|
      modifies this`bios, this`done, this`flight, this`ended, this`puts, this`reached
      ensures Valid() && multiset(moving) == flight && old(done) <= done && ErrorsStay(old(bios), bios)
      ensures |before| - 1 <= |moving| && moving[..|before| - 1] == before[..k] + before[k + 1..]
    {
      TakeOut(before, k);
      var next, more := Arrive(before[k]);
      moving := before[..k] + before[k + 1..] + if more then [next] else [];
    }

    /** What each step does, in short, if it can be taken. */
    ghost predicate Happened(was: map<Id, Bio>, wasOwn: set<Id>, wasDone: set<Id>, before: seq<Id>, moving: seq<Id>,
                             step: Step)
      reads this
    {
      match step
      case Allocate(id, _) => id in bios
      case Chain(c, p) =>
        c in was && p in was && c !in wasDone && p !in wasDone && was[c].endIo == NoEnd ==>
          c in bios && bios[c].endIo == ChainTo(p)
      case SetStatus(id, status) => id in was && id !in wasOwn ==> id in bios && bios[id].status == status
      case Complete(id) => id in was ==> id in own
      case Move(k) =>
        k < |before| ==> |before| - 1 <= |moving| && moving[..|before| - 1] == before[..k] + before[k + 1..]
    }

    /** One step, if it can be taken. `moving` is the list of the completions on their way. */
    method Step(step: Step, before: seq<Id>) returns (moving: seq<Id>)
      requires Valid() && multiset(before) == flight
      modifies this
      ensures Valid() && multiset(moving) == flight && old(own) <= own && old(done) <= done
      ensures forall b {:trigger ErrorStays(old(bios), bios, b)} ::
                ErrorStays(old(bios), bios, b) || SetsStatus(step, b)
      ensures Happened(old(bios), old(own), old(done), before, moving, step)
    {
      moving := before;
      match step {
        case Allocate(id, callback) =>
          if id !in bios {
            Init(id, callback);
          }
        case Chain(c, p) =>
          if c in bios && p in bios && c !in done && p !in done && bios[c].endIo == NoEnd {
            ChainBios(c, p);
          }
        case SetStatus(id, status) =>
          if id in bios && id !in own {
            PutStatus(id, status);
          }
        case Complete(id) =>
          if id in bios && id !in own {
            Send(id);
            moving := moving + [id];
          }
        case Move(k) =>
          if k < |moving| {
            moving := MoveOn(k, moving);
          }
      }
    }

    /** Any run of allocations, chainings, completions sent and completions arriving, in any order. An
        error that a bio has is its first since its owner last set the status, and stays until the owner
        sets it again. */
    method Run(steps: seq<Step>, before: seq<Id>) returns (moving: seq<Id>)
      requires Valid() && multiset(before) == flight
      modifies this
      ensures Valid() && multiset(moving) == flight && old(own) <= own && old(done) <= done
      ensures forall b {:trigger ErrorStays(old(bios), bios, b)} ::
                ErrorStays(old(bios), bios, b) || exists i :: 0 <= i < |steps| && SetsStatus(steps[i], b)
    {
      moving := before;
      var i := 0;
      while i < |steps|
        invariant 0 <= i <= |steps| && Valid() && multiset(moving) == flight && old(own) <= own && old(done) <= done
        invariant forall b {:trigger ErrorStays(old(bios), bios, b)} ::
                    ErrorStays(old(bios), bios, b) || exists j :: 0 <= j < i && SetsStatus(steps[j], b)
      {
        ghost var was := bios;
        moving := Step(steps[i], moving);
        forall b ensures ErrorStays(old(bios), bios, b) || exists j :: 0 <= j < i + 1 && SetsStatus(steps[j], b) {
          assert ErrorStays(old(bios), was, b) || exists j :: 0 <= j < i && SetsStatus(steps[j], b);
          assert ErrorStays(was, bios, b) || SetsStatus(steps[i], b);
        }
        i := i + 1;
      }
    }
  }
}
