/** The B-WF2Q+ scheduler over one level of queues: three service classes, one queue in service, a cached
    next queue, busy counters and reference counts. */
module FlatScheduler {
  import opened Basics
  import opened FinishTree
  import opened SchedulerQueues
  import opened SchedulerSteps

  class Scheduler {
    var queues: Queues
    var trees: seq<ServiceTree>
    /** sd->in_service_entity */
    var serving: Option<Id>
    /** bfqd->in_service_queue */
    var owner: Option<Id>
    /** sd->next_in_service */
    var next: Option<Id>
    var busyQueues: seq<nat>
    /** The last lookup went straight to the idle class. */
    ghost var byTurn: bool

    ghost predicate Consistent(limbo: Option<Id>)
      reads this
    {
      TreesOk(trees, queues) && QueuesOk(queues, serving, owner, limbo)
    }

    method ActiveInsert(k: Id)
      requires Consistent(Some(k)) && queues[k].place == Off
      modifies this`queues, this`trees
      ensures Consistent(None)
      ensures queues == old(queues)[k := At(old(queues[k]), OnActive)]
      ensures var c := old(queues[k]).cls;
              c < CLASSES && trees == old(trees)[c := ActiveInserted(old(trees)[c], k, queues[k])]
    {
      var q := At(queues[k], OnActive);
      assert QueueOk(k, queues[k], serving, owner, Some(k));
      assert TreeOk(trees[q.cls], queues, q.cls);
      var st := ActiveInserted(trees[q.cls], k, q);
      TreeActiveInsert(trees[q.cls], queues, q.cls, k, q);
      TreesMove(trees, queues, k, q, st);
      QueuesSet(queues, serving, owner, Some(k), None, k, q);
      queues, trees := queues[k := q], trees[q.cls := st];
    }

    method ActiveExtract(k: Id)
      requires Consistent(None) && k in queues && queues[k].place == OnActive
      modifies this`queues, this`trees
      ensures Consistent(Some(k))
      ensures queues == old(queues)[k := At(old(queues[k]), Off)]
      ensures Shrunk(old(trees), trees)
      ensures var c := old(queues[k]).cls; c < CLASSES && trees == old(trees)[c := ActiveExtracted(old(trees)[c], k)]
    {
      var q := At(queues[k], Off);
      assert QueueOk(k, queues[k], serving, owner, None);
      assert TreeOk(trees[q.cls], queues, q.cls);
      var st := ActiveExtracted(trees[q.cls], k);
      ExtractShrinks(trees, queues, k);
      TreeActiveExtract(trees[q.cls], queues, q.cls, k, q);
      TreesMove(trees, queues, k, q, st);
      QueuesSet(queues, serving, owner, None, Some(k), k, q);
      queues, trees := queues[k := q], trees[q.cls := st];
    }

    method IdleInsert(k: Id)
      requires Consistent(Some(k)) && queues[k].place == Off && !queues[k].busy
      modifies this`queues, this`trees
      ensures Consistent(None) && SameActive(old(trees), trees) && SameVtime(old(trees), trees)
      ensures queues == old(queues)[k := At(old(queues[k]), OnIdle)]
    {
      var q := At(queues[k], OnIdle);
      assert QueueOk(k, queues[k], serving, owner, Some(k));
      assert TreeOk(trees[q.cls], queues, q.cls);
      TreeIdleInsert(trees[q.cls], queues, q.cls, k, q);
      var st := IdleInserted(trees[q.cls], queues, k, q);
      TreesMove(trees, queues, k, q, st);
      QueuesSet(queues, serving, owner, Some(k), None, k, q);
      queues, trees := queues[k := q], trees[q.cls := st];
    }

    method IdleExtract(k: Id)
      requires Consistent(None) && k in queues && queues[k].place == OnIdle
      modifies this`queues, this`trees
      ensures Consistent(Some(k)) && SameActive(old(trees), trees) && SameVtime(old(trees), trees)
      ensures queues == old(queues)[k := At(old(queues[k]), Off)]
    {
      var q := At(queues[k], Off);
      assert QueueOk(k, queues[k], serving, owner, None);
      assert TreeOk(trees[q.cls], queues, q.cls);
      var st := IdleExtracted(trees[q.cls], k);
      TreeIdleExtract(trees[q.cls], queues, q.cls, k, q);
      TreesMove(trees, queues, k, q, st);
      QueuesSet(queues, serving, owner, None, Some(k), k, q);
      queues, trees := queues[k := q], trees[q.cls := st];
    }

    /** bfq_forget_entity. */
    method Forget(k: Id, isInService: bool)
      requires Consistent(Some(k)) && queues[k].place == Off && serving != Some(k)
      requires isInService <==> owner == Some(k)
      modifies this`queues, this`trees
      ensures Consistent(None) && SameActive(old(trees), trees) && SameVtime(old(trees), trees)
      ensures queues == Forgotten(old(queues), k, isInService)
      ensures var q := old(queues[k]);
              && Elsewhere(old(queues), queues, k) && (k !in queues <==> !isInService && q.refs == 1)
              && (k in queues ==> queues[k] == q.(onStOrInServ := false, refs := q.refs - if isInService then 0 else 1))
    {
      assert QueueOk(k, queues[k], serving, owner, Some(k));
      TreesForgotten(trees, queues, k, isInService);
      QueuesForget(queues, serving, owner, k, isInService);
      queues, trees := Forgotten(queues, k, isInService), Unweighted(trees, queues[k]);
    }

    /** bfq_put_idle_entity. */
    method PutIdle(k: Id)
      requires Consistent(None) && k in queues && queues[k].place == OnIdle
      requires serving != Some(k) && owner != Some(k)
      modifies this`queues, this`trees
      ensures Consistent(None) && SameActive(old(trees), trees) && SameVtime(old(trees), trees)
      ensures queues == IdleForgotten(old(queues), k)
      ensures Forgot(old(queues), queues) && Elsewhere(old(queues), queues, k)
      ensures var q := old(queues[k]);
              && (k !in queues <==> q.refs == 1)
              && (k in queues ==> queues[k] == q.(place := Off, onStOrInServ := false, refs := q.refs - 1))
    {
      assert QueueOk(k, queues[k], serving, owner, None);
      IdleForgottenForgot(queues, k);
      IdleExtract(k);
      Forget(k, serving == Some(k));
    }

    /** No queue that is being served sits on the idle tree. */
    ghost predicate ServedNotIdle()
      reads this
      requires Consistent(None)
    {
      && (serving.Some? ==> queues[serving.value].place != OnIdle)
      && (owner.Some? ==> queues[owner.value].place != OnIdle)
    }

    method SetVtime(c: nat, v: int)
      requires Consistent(None) && c < CLASSES
      modifies this`trees
      ensures Consistent(None) && trees == old(trees)[c := old(trees)[c].(vtime := v)]
    {
      forall d | 0 <= d < CLASSES ensures TreeOk(trees[d].(vtime := if d == c then v else trees[d].vtime), queues, d) {
        assert TreeOk(trees[d], queues, d);
      }
      trees := trees[c := trees[c].(vtime := v)];
    }

    /** bfq_forget_idle: with an empty active tree the virtual time falls back to the finish time
        of the last idle entity, and the first idle entity is forgotten once it is in the past. */
    method ForgetIdle(c: nat)
      requires Consistent(None) && ServedNotIdle() && c < CLASSES
      modifies this`queues, this`trees
      ensures Consistent(None) && ServedNotIdle()
      ensures SameActive(old(trees), trees) && Forgot(old(queues), queues)
      ensures FellBack(old(trees)[c], old(queues), trees[c].vtime)
      ensures forall d :: 0 <= d < CLASSES && d != c ==> trees[d].vtime == old(trees)[d].vtime
      ensures FirstForgotten(old(trees)[c], old(queues), trees[c].vtime, queues)
    {
      var first, last := trees[c].firstIdle, trees[c].lastIdle;
      assert TreeOk(trees[c], queues, c);
      EndsInMap(trees[c], queues, c);
      if trees[c].active.Leaf? && last.Some? && queues[last.value].finish <= trees[c].vtime {
        SetVtime(c, queues[last.value].finish);
      }
      if first.Some? && queues[first.value].finish <= trees[c].vtime {
        PutIdle(first.value);
      }
    }

    /** bfq_update_vtime. */
    method UpdateVtime(c: nat, v: int)
      requires Consistent(None) && ServedNotIdle() && c < CLASSES
      modifies this`queues, this`trees
      ensures Consistent(None) && ServedNotIdle()
      ensures SameActive(old(trees), trees) && Forgot(old(queues), queues)
      ensures v <= old(trees)[c].vtime ==> trees == old(trees) && queues == old(queues)
      ensures v > old(trees)[c].vtime ==>
                && FellBack(old(trees)[c].(vtime := v), old(queues), trees[c].vtime)
                && FirstForgotten(old(trees)[c], old(queues), trees[c].vtime, queues)
    {
      if v > trees[c].vtime {
        SetVtime(c, v);
        ForgetIdle(c);
      }
    }

    /** __bfq_lookup_next_entity. */
    method LookupClass(c: nat, inService: bool) returns (e: Option<Id>)
      requires Consistent(None) && ServedNotIdle() && c < CLASSES
      modifies this`queues, this`trees
      ensures Consistent(None) && ServedNotIdle()
      ensures SameActive(old(trees), trees) && Forgot(old(queues), queues)
      ensures e.None? <==> old(trees)[c].active.Leaf?
      ensures e.None? || inService ==> trees == old(trees) && queues == old(queues)
      ensures e.Some? && !inService ==> trees[c].vtime == VtimeJump(old(trees)[c].active, old(trees)[c].vtime)
      ensures e.Some? ==> e.value in queues && In(queues[e.value], c, OnActive)
      ensures e.Some? ==> Leads(old(trees)[c], e.value, queues[e.value]) && Soonest(trees[c], queues[e.value])
      ensures e.Some? && !inService ==> queues[e.value].start <= trees[c].vtime
    {
      e := None;
      assert TreeOk(trees[c], queues, c);
      if trees[c].active.Node? {
        var v := VtimeJump(trees[c].active, trees[c].vtime);
        if !inService {
          UpdateVtime(c, v);
        }
        assert TreeOk(trees[c], queues, c);
        SearchFindsEligible(trees[c].active, v, None);
        var x := Search(trees[c].active, v, None).value;
        ItemsInOrder(trees[c].active, x);
        WantMember(queues, c, OnActive, x);
        e := Some(x.k);
      }
    }

    /** The loop of bfq_lookup_next_entity from class `from` on. */
    method LookupFrom(from: nat, inService: bool) returns (e: Option<Id>)
      requires Consistent(None) && ServedNotIdle() && from <= CLASSES
      modifies this`queues, this`trees
      ensures Consistent(None) && ServedNotIdle()
      ensures SameActive(old(trees), trees) && Forgot(old(queues), queues)
      ensures e.None? ==> EmptyBetween(old(trees), from, CLASSES)
      ensures e.Some? ==>
                && e.value in queues && queues[e.value].place == OnActive
                && from <= queues[e.value].cls < CLASSES && EmptyBetween(old(trees), from, queues[e.value].cls)
                && Leads(old(trees)[queues[e.value].cls], e.value, queues[e.value])
                && Soonest(trees[queues[e.value].cls], queues[e.value])
      ensures e.None? || inService ==> trees == old(trees) && queues == old(queues)
      ensures e.Some? && !inService ==> queues[e.value].start <= trees[queues[e.value].cls].vtime
    {
      var c := from;
      while c < CLASSES
        invariant from <= c <= CLASSES && Consistent(None) && ServedNotIdle()
        invariant queues == old(queues) && trees == old(trees)
        invariant EmptyBetween(trees, from, c)
      {
        e := LookupClass(c, inService);
        if e.Some? {
          return;
        }
        EmptyExtend(trees, from, c);
        c := c + 1;
      }
      e := None;
    }

    /** bfq_lookup_next_entity. `idleTurn` says that the idle class has waited long enough. */
    method Lookup(expiration: bool, idleTurn: bool) returns (e: Option<Id>)
      requires Consistent(None) && ServedNotIdle()
      modifies this`queues, this`trees
      ensures Consistent(None) && ServedNotIdle()
      ensures SameActive(old(trees), trees) && Forgot(old(queues), queues)
      ensures e.None? <==> AllEmpty(old(trees))
      ensures e.Some? ==> e.value in queues && queues[e.value].place == OnActive
      ensures e.Some? ==> Chosen(old(trees), e.value, queues[e.value], idleTurn)
      ensures e.Some? ==> Soonest(trees[queues[e.value].cls], queues[e.value])
      ensures e.None? || (serving.Some? && !expiration) ==> trees == old(trees) && queues == old(queues)
      ensures e.Some? && (serving.None? || expiration) ==> queues[e.value].start <= trees[queues[e.value].cls].vtime
    {
      var from := if idleTurn && trees[IDLE_CLASS].active.Node? then IDLE_CLASS else 0;
      e := LookupFrom(from, serving.Some? && !expiration);
    }

    ghost predicate NextOk()
      reads this
    {
      NextFits(trees, queues, next, byTurn)
    }

    /** The queue that moved takes the place of next_in_service without a lookup. */
    predicate Overtakes(moved: Option<Id>)
      reads this
    {
      && moved.Some? && moved != next
      && (next.None?
          || (&& moved.value in queues && next.value in queues
              && var x, y := queues[moved.value], queues[next.value];
                 x.cls < |trees| && x.cls == y.cls && x.start <= trees[x.cls].vtime && y.finish > x.finish))
    }

    /** The first queue of all does so; another one exactly if it could have been taken instead: it is in
        the same class, eligible, and finishes earlier. */
    lemma OvertakesIff(k: Id)
      requires Consistent(None) && k in queues && queues[k].cls < CLASSES && next != Some(k)
      requires next.Some? ==> next.value in queues
      ensures next.None? ==> Overtakes(Some(k))
      ensures next.Some? ==>
                (Overtakes(Some(k)) <==> && queues[k].cls == queues[next.value].cls
                                         && Eligible(ItemOf(k, queues[k]), trees[queues[k].cls].vtime)
                                         && queues[k].finish < queues[next.value].finish)
    {
    }

    /** next_in_service is looked up again. */
    method LookAgain(expiration: bool, idleTurn: bool)
      requires Consistent(None) && ServedNotIdle()
      modifies this`queues, this`trees, this`next, this`byTurn
      ensures Consistent(None) && ServedNotIdle() && NextOk()
      ensures SameActive(old(trees), trees) && Forgot(old(queues), queues)
      ensures byTurn ==> idleTurn
      ensures next.Some? ==> Chosen(old(trees), next.value, queues[next.value], idleTurn)
      ensures serving.Some? && !expiration ==> queues == old(queues) && trees == old(trees)
      ensures next.Some? && (serving.None? || expiration) ==>
                queues[next.value].start <= trees[queues[next.value].cls].vtime
    {
      byTurn := idleTurn && trees[IDLE_CLASS].active.Node?;
      next := Lookup(expiration, idleTurn);
      assert AllEmpty(old(trees)) <==> AllEmpty(trees);
      if next.Some? {
        SameNoneFilled(old(trees), old(trees), trees);
        ForemostKept(old(trees), trees, queues[next.value].cls, byTurn);
      }
    }

    /** bfq_update_next_in_service. */
    method UpdateNext(moved: Option<Id>, expiration: bool, idleTurn: bool)
      requires Consistent(None) && ServedNotIdle()
      requires moved.Some? ==> moved.value in queues && queues[moved.value].place == OnActive
      requires moved.Some? && next.Some? ==> next.value in queues
      requires Overtakes(moved) ==>
                 var q := queues[moved.value];
                 q.cls < CLASSES && Foremost(trees, q.cls, byTurn) && Soonest(trees[q.cls], q)
      modifies this`queues, this`trees, this`next, this`byTurn
      ensures Consistent(None) && ServedNotIdle() && NextOk()
      ensures SameActive(old(trees), trees) && Forgot(old(queues), queues)
      ensures byTurn ==> old(byTurn) || idleTurn
      ensures if old(Overtakes(moved)) then next == moved && queues == old(queues) && trees == old(trees)
              else next.Some? ==> Chosen(old(trees), next.value, queues[next.value], idleTurn)
      ensures serving.Some? && !expiration ==> queues == old(queues) && trees == old(trees)
      ensures next.Some? && !old(Overtakes(moved)) && (serving.None? || expiration) ==>
                queues[next.value].start <= trees[queues[next.value].cls].vtime
    {
      if Overtakes(moved) {
        ActiveSome(trees, queues, moved.value, serving, owner);
        next := moved;
      } else {
        LookAgain(expiration, idleTurn);
      }
    }

    /** __bfq_entity_update_weight_prio for a queue that is on no tree. */
    method UpdateWeightPrio(k: Id, classToo: bool, ghost limbo: Option<Id>)
      requires Consistent(limbo) && k in queues && queues[k].place == Off && queues[k].onStOrInServ
      modifies this`queues, this`trees
      ensures Consistent(limbo) && SameActive(old(trees), trees) && SameVtime(old(trees), trees)
      ensures old(queues[k]).cls < CLASSES && old(queues[k]).newCls < CLASSES
      ensures queues == old(queues)[k := Reprioritized(old(queues[k]), classToo, old(trees))]
      ensures var q, r := old(queues[k]), queues[k];
              if q.prioChanged then
                && r.weight == r.origWeight * q.wrCoeff && r.cls == (if classToo then q.newCls else q.cls)
                && (1 <= q.newWeight <= 1000 ==> r.origWeight == q.newWeight) && 1 <= r.origWeight <= 1000
              else r == q
    {
      var q := queues[k];
      assert QueueOk(k, q, serving, owner, limbo);
      if q.prioChanged {
        ReprioritizedOk(k, q, classToo, trees, serving, owner, limbo);
        TreesReweighted(trees, queues, k, Reprioritized(q, classToo, trees));
        QueuesSet(queues, serving, owner, limbo, limbo, k, Reprioritized(q, classToo, trees));
        var q' := Reprioritized(q, classToo, trees);
        queues, trees := queues[k := q'], Reweighted(trees, q, q');
      } else {
        assert queues == queues[k := q];
      }
    }

    /** New timestamps for a queue that is on no tree. */
    method SetTimes(k: Id, start: int, finish: int, ghost limbo: Option<Id>)
      requires Consistent(limbo) && k in queues && queues[k].place == Off
      modifies this`queues
      ensures Consistent(limbo)
      ensures queues == old(queues)[k := old(queues[k]).(start := start, finish := finish)]
    {
      var q := queues[k].(start := start, finish := finish);
      assert QueueOk(k, queues[k], serving, owner, limbo);
      TreesSame(trees, queues, k, q);
      QueuesSet(queues, serving, owner, limbo, limbo, k, q);
      queues := queues[k := q];
    }

    /** bfq_update_fin_time_enqueue. */
    method Enqueue(k: Id, backshifted: bool)
      requires Consistent(Some(k)) && queues[k].place == Off
      modifies this`queues, this`trees
      ensures Consistent(None) && k in queues && queues == old(queues)[k := queues[k]]
      ensures queues[k].place == OnActive && queues[k].busy == old(queues[k].busy)
      ensures Stamped(old(queues[k]), backshifted, old(trees), queues[k])
      ensures FilledAt(old(trees), trees, queues[k].cls) && SameVtime(old(trees), trees)
    {
      assert QueueOk(k, queues[k], serving, owner, Some(k));
      UpdateWeightPrio(k, true, Some(k));
      var q := queues[k];
      assert QueueOk(k, q, serving, owner, Some(k));
      var start, finish := q.start, q.start + Delta(q.budget, q.weight);
      var vtime := trees[q.cls].vtime;
      if backshifted && vtime > finish {
        var delta := (vtime - finish) / q.wrCoeff;
        start, finish := start + delta, finish + delta;
      }
      assert Stamped(old(queues[k]), backshifted, old(trees), q.(start := start, finish := finish, place := OnActive));
      SetTimes(k, start, finish, Some(k));
      Overwrite(old(queues), k, q, queues[k]);
      Overwrite(old(queues), k, queues[k], At(queues[k], OnActive));
      ghost var t := trees;
      ActiveInsert(k);
      SameNoneFilled(old(trees), old(trees), t);
      NoneThenAt(old(trees), t, trees, q.cls);
    }

    /** Take the service reference and count the weight of a queue that was not scheduled. */
    method EnterService(k: Id)
      requires Consistent(None) && k in queues && queues[k].place == Off && !queues[k].onStOrInServ
      requires owner != Some(k)
      modifies this`queues, this`trees
      ensures Consistent(Some(k)) && SameActive(old(trees), trees)
      ensures var q := old(queues[k]); queues == old(queues)[k := q.(onStOrInServ := true, refs := q.refs + 1)]
      ensures forall c :: 0 <= c < CLASSES ==> trees[c].vtime == old(trees)[c].vtime
    {
      var q := queues[k].(onStOrInServ := true, refs := queues[k].refs + 1);
      assert QueueOk(k, queues[k], serving, owner, None);
      var st := WithSum(trees[q.cls], trees[q.cls].wsum + q.weight);
      TreeUntouched(trees[q.cls], trees[q.cls].wsum + q.weight, queues, q.cls, k, q);
      TreesMove(trees, queues, k, q, st);
      QueuesSet(queues, serving, owner, None, Some(k), k, q);
      queues, trees := queues[k := q], trees[q.cls := st];
    }

    /** The first half of __bfq_activate_entity: off the idle tree, or with a new service reference. */
    method Enter(k: Id, nonBlocking: bool)
      requires Consistent(None) && k in queues && queues[k].place != OnActive
      requires serving != Some(k) && owner != Some(k)
      modifies this`queues, this`trees
      ensures Consistent(Some(k)) && SameActive(old(trees), trees) && SameVtime(old(trees), trees)
      ensures old(queues[k]).cls < CLASSES
      ensures queues == old(queues)[k := Entering(old(queues[k]), old(trees)[old(queues[k]).cls].vtime, nonBlocking)]
    {
      var q := queues[k];
      assert QueueOk(k, queues[k], serving, owner, None);
      var vtime := trees[q.cls].vtime;
      var minVstart := if nonBlocking && vtime > q.finish then q.finish else vtime;
      if q.place == OnIdle {
        IdleExtract(k);
        SetTimes(k, if minVstart > q.finish then minVstart else q.finish, q.finish, Some(k));
      } else {
        EnterService(k);
        SetTimes(k, minVstart, q.finish, Some(k));
      }
    }

    /** __bfq_activate_entity. */
    method ActivateEntity(k: Id, nonBlocking: bool)
      requires Consistent(None) && k in queues && queues[k].place != OnActive
      requires serving != Some(k) && owner != Some(k)
      modifies this`queues, this`trees
      ensures Consistent(None) && k in queues && queues == old(queues)[k := queues[k]]
      ensures queues[k].place == OnActive && queues[k].busy == old(queues[k].busy)
      ensures old(queues[k]).cls < CLASSES
      ensures var vtime := old(trees)[old(queues[k]).cls].vtime;
              Stamped(Entering(old(queues[k]), vtime, nonBlocking), nonBlocking && vtime > old(queues[k]).finish,
                      old(trees), queues[k])
      ensures FilledAt(old(trees), trees, queues[k].cls) && SameVtime(old(trees), trees)
      ensures EntersAt(old(queues[k]), nonBlocking, old(trees), queues[k])
    {
      var q := queues[k];
      assert QueueOk(k, queues[k], serving, owner, None);
      var vtime := trees[q.cls].vtime;
      Enter(k, nonBlocking);
      ghost var t, e := trees, queues[k];
      Enqueue(k, nonBlocking && vtime > q.finish);
      Overwrite(old(queues), k, e, queues[k]);
      StampedSame(e, nonBlocking && vtime > q.finish, t, old(trees), queues[k]);
      EnteringTimes(q, nonBlocking, old(trees), queues[k]);
      SameNoneFilled(old(trees), old(trees), t);
      NoneThenAt(old(trees), t, trees, queues[k].cls);
    }

    /** __bfq_requeue_entity. */
    method RequeueEntity(k: Id)
      requires Consistent(None) && k in queues
      requires if serving == Some(k) then queues[k].place == Off else queues[k].place == OnActive
      modifies this`queues, this`trees
      ensures Consistent(None) && k in queues && queues == old(queues)[k := queues[k]]
      ensures queues[k].place == OnActive && queues[k].busy == old(queues[k].busy)
      ensures old(queues[k]).service >= 0 && old(queues[k]).weight > 0
      ensures Stamped(Requeued(old(queues[k]), serving == Some(k)), false, old(trees), queues[k])
      ensures serving == Some(k) ==> Pays(old(queues[k]), old(trees), queues[k])
      ensures FilledAt(old(trees), trees, queues[k].cls) && SameVtime(old(trees), trees)
    {
      var q := queues[k];
      assert QueueOk(k, queues[k], serving, owner, None);
      if serving == Some(k) {
        var finish := q.start + Delta(q.service, q.weight);
        SetTimes(k, finish, finish, None);
        SameShrunk(old(trees), trees);
        LimboServing(queues, owner, k);
      } else {
        ActiveExtract(k);
      }
      ghost var t := trees;
      Enqueue(k, false);
      StampedSame(Requeued(q, serving == Some(k)), false, t, old(trees), queues[k]);
      if serving == Some(k) {
        RequeuedPays(q, old(trees), queues[k]);
      }
      ShrunkNone(old(trees), t);
      NoneThenAt(old(trees), t, trees, queues[k].cls);
    }

    /** __bfq_activate_requeue_entity. */
    method BackOnTree(k: Id, nonBlocking: bool)
      requires Consistent(None) && k in queues && owner == serving
      requires serving == Some(k) ==> queues[k].place == Off
      modifies this`queues, this`trees
      ensures Consistent(None) && k in queues && queues == old(queues)[k := queues[k]]
      ensures queues[k].place == OnActive && queues[k].busy == old(queues[k].busy) && queues[k].cls < CLASSES
      ensures Returned(old(queues[k]), nonBlocking, serving == Some(k), old(trees), queues[k])
      ensures FilledAt(old(trees), trees, queues[k].cls) && SameVtime(old(trees), trees)
    {
      assert QueueOk(k, queues[k], serving, owner, None);
      if serving == Some(k) || queues[k].place == OnActive {
        RequeueEntity(k);
      } else {
        ActivateEntity(k, nonBlocking);
      }
      assert QueueOk(k, queues[k], serving, owner, None);
    }

    /** bfq_activate_requeue_entity. */
    method ActivateRequeue(k: Id, nonBlocking: bool, expiration: bool, idleTurn: bool)
      requires Consistent(None) && ServedNotIdle() && NextOk() && k in queues && owner == serving
      requires serving == Some(k) ==> queues[k].place == Off
      modifies this`queues, this`trees, this`next, this`byTurn
      ensures Consistent(None) && ServedNotIdle() && NextOk() && (byTurn ==> old(byTurn) || idleTurn)
      ensures k in queues && Forgot(old(queues)[k := queues[k]], queues)
      ensures queues[k].place == OnActive && queues[k].busy == old(queues[k].busy)
      ensures Returned(old(queues[k]), nonBlocking, old(serving) == Some(k), old(trees), queues[k])
      ensures old(next).None? || (serving.Some? && !expiration) ==>
                queues == old(queues)[k := queues[k]] && SameVtime(old(trees), trees)
    {
      BackOnTree(k, nonBlocking);
      if Overtakes(Some(k)) {
        ForemostFilled(old(trees), trees, queues[k].cls, byTurn);
        CameSoonest(old(trees), trees, old(queues), k, queues[k], serving, owner);
      }
      UpdateNext(Some(k), expiration, idleTurn);
    }

    /** The first half of __bfq_deactivate_entity: take the queue off its tree or out of service
        and compute its finish time from the service it received. */
    method LeaveTree(k: Id)
      requires Consistent(None) && k in queues && queues[k].onStOrInServ
      requires (serving == Some(k) <==> owner == Some(k)) && (serving == Some(k) ==> queues[k].place == Off)
      modifies this`queues, this`trees, this`serving
      ensures Consistent(Some(k)) && k in queues && queues == old(queues)[k := queues[k]]
      ensures old(queues[k]).service >= 0 && old(queues[k]).weight > 0
      ensures queues[k] == Leaving(old(queues[k]), old(serving) == Some(k))
      ensures serving == if old(serving) == Some(k) then None else old(serving)
      ensures Shrunk(old(trees), trees) && SameVtime(old(trees), trees)
    {
      var q := queues[k];
      assert QueueOk(k, queues[k], serving, owner, None);
      if serving == Some(k) {
        LimboServing(queues, owner, k);
        LimboAlone(queues, owner, k);
        serving := None;
        SameShrunk(old(trees), trees);
        assert old(queues) == old(queues)[k := q];
      } else if q.place == OnActive {
        ActiveExtract(k);
      } else {
        IdleExtract(k);
        SameShrunk(old(trees), trees);
      }
      q := queues[k];
      SetTimes(k, q.start, q.start + Delta(q.service, q.weight), Some(k));
      Overwrite(old(queues), k, q, queues[k]);
      if owner != Some(k) {
        Overwrite(old(queues), k, queues[k], queues[k].(service := 0));
        ResetService(k, Some(k));
      }
    }

    method ResetService(k: Id, ghost limbo: Option<Id>)
      requires Consistent(limbo) && k in queues
      modifies this`queues
      ensures Consistent(limbo) && queues == old(queues)[k := old(queues[k]).(service := 0)]
    {
      var q := queues[k].(service := 0);
      assert QueueOk(k, queues[k], serving, owner, limbo);
      TreesSame(trees, queues, k, q);
      QueuesSet(queues, serving, owner, limbo, limbo, k, q);
      queues := queues[k := q];
    }

    /** __bfq_deactivate_entity, for a queue that is not busy (any more). */
    method DeactivateEntity(k: Id, insIntoIdleTree: bool)
      requires Consistent(None) && k in queues && queues[k].onStOrInServ && !queues[k].busy
      requires (serving == Some(k) <==> owner == Some(k)) && (serving == Some(k) ==> queues[k].place == Off)
      modifies this`queues, this`trees, this`serving
      ensures Consistent(None)
      ensures serving == if old(serving) == Some(k) then None else old(serving)
      ensures Elsewhere(old(queues), queues, k) && Total(queues, Busy) == old(Total(queues, Busy))
      ensures k in queues ==> queues[k].place != OnActive && !queues[k].busy
      ensures k in queues && !insIntoIdleTree ==> !queues[k].onStOrInServ
      ensures Shrunk(old(trees), trees) && SameVtime(old(trees), trees)
      ensures var q := old(queues[k]);
              && q.service >= 0 && q.weight > 0 && q.cls < CLASSES
              && queues == Departed(old(queues), k, old(serving) == Some(k), insIntoIdleTree, old(trees)[q.cls].vtime)
    {
      var isInService := serving == Some(k);
      assert QueueOk(k, queues[k], serving, owner, None);
      LeaveTree(k);
      assert QueueOk(k, queues[k], serving, owner, Some(k));
      ghost var t, q := trees, queues[k];
      TotalSet(old(queues), Busy, k, q);
      if !insIntoIdleTree || queues[k].finish <= trees[queues[k].cls].vtime {
        ForgottenBusy(queues, k, isInService);
        ElsewhereForgotten(old(queues), k, q, isInService);
        Forget(k, isInService);
      } else {
        TotalSet(queues, Busy, k, At(queues[k], OnIdle));
        Overwrite(old(queues), k, q, At(q, OnIdle));
        ElsewhereSet(old(queues), k, At(q, OnIdle));
        IdleInsert(k);
      }
      ShrunkSame(old(trees), t, trees);
    }

    // -------------------------------------------------------------- operations

    /** A queue is busy exactly when it waits on an active tree or is being served. */
    ghost predicate BusyOk()
      reads this
    {
      BusyFits(queues, serving)
    }

    /** The busy counters, each of which wraps at 2^32 and may drift with class changes, add up
        to the number of busy queues. */
    ghost predicate Counted()
      reads this
    {
      |busyQueues| == CLASSES && SameCount(TotBusy(busyQueues), Total(queues, Busy))
    }

    /** What holds between operations. */
    ghost predicate Valid()
      reads this
    {
      && Consistent(None) && NextOk() && BusyOk() && Counted()
      && owner == serving && (serving.Some? ==> queues[serving.value].place == Off)
    }

    /** Set or clear the busy flag and adjust the counter of the queue's present class. */
    method MarkBusy(k: Id, busy: bool)
      requires Consistent(None) && k in queues && queues[k].busy != busy && queues[k].place != OnIdle
      requires Counted()
      modifies this`queues, this`busyQueues
      ensures Consistent(None) && Counted() && (old(NextOk()) ==> NextOk())
      ensures queues == old(queues)[k := old(queues[k]).(busy := busy)]
    {
      var q := queues[k].(busy := busy);
      assert QueueOk(k, queues[k], serving, owner, None);
      TreesSame(trees, queues, k, q);
      QueuesSet(queues, serving, owner, None, None, k, q);
      TotalSet(queues, Busy, k, q);
      Bump(busyQueues, q.cls, if busy then 1 else -1, Total(queues, Busy));
      busyQueues := Bumped(busyQueues, q.cls, if busy then 1 else -1);
      queues := queues[k := q];
    }

    /** The part of bfq_del_bfqq_busy before next_in_service is looked at. */
    method StopBeingBusy(k: Id)
      requires Valid() && k in queues && queues[k].busy
      modifies this`queues, this`trees, this`serving, this`busyQueues
      ensures Consistent(None) && BusyOk() && Counted()
      ensures serving == if old(serving) == Some(k) then None else old(serving)
      ensures serving.Some? ==> queues[serving.value].place == Off
      ensures next != Some(k) ==> NextOk()
      ensures SameVtime(old(trees), trees)
      ensures k in queues ==> !queues[k].busy && queues[k].place != OnActive
      ensures var q := old(queues[k]);
              && q.service >= 0 && q.weight > 0 && q.cls < CLASSES
              && queues == Departed(old(queues)[k := q.(busy := false)], k, old(serving) == Some(k), true,
                                    old(trees)[q.cls].vtime)
    {
      assert QueueOk(k, queues[k], serving, owner, None);
      MarkBusy(k, false);
      ElsewhereSet(old(queues), k, queues[k]);
      DeactivateEntity(k, true);
      BusyLeave(old(queues), queues, k, old(serving));
      if next != Some(k) {
        NextKept(old(trees), trees, old(queues), queues, next, byTurn);
      }
    }

    /** bfq_del_bfqq_busy. */
    method DelBusy(k: Id, expiration: bool, idleTurn: bool)
      requires Valid() && k in queues && queues[k].busy
      modifies this
      ensures Consistent(None) && NextOk() && BusyOk() && Counted()
      ensures owner == old(owner) && serving == if old(serving) == Some(k) then None else old(serving)
      ensures serving.Some? ==> queues[serving.value].place == Off
      ensures k in queues ==> !queues[k].busy
      ensures byTurn ==> old(byTurn) || idleTurn
      ensures var q := old(queues[k]);
              && q.service >= 0 && q.weight > 0 && q.cls < CLASSES
              && var m := Departed(old(queues)[k := q.(busy := false)], k, old(serving) == Some(k), true,
                                   old(trees)[q.cls].vtime);
                 if old(next) == Some(k) then Forgot(m, queues)
                 else queues == m && next == old(next) && SameVtime(old(trees), trees)
    {
      StopBeingBusy(k);
      if next == Some(k) {
        ghost var m := queues;
        UpdateNext(None, expiration, idleTurn);
        BusyForgot(m, queues, serving);
      }
    }

    constructor ()
      ensures Valid() && queues == map[] && !byTurn && serving == None && next == None
      ensures forall c :: 0 <= c < CLASSES ==> trees[c].vtime == 1
    {
      queues, byTurn := map[], false;
      trees := seq(CLASSES, c => ServiceTree(Leaf, Leaf, None, None, 1, 0));
      serving, owner, next := None, None, None;
      busyQueues := [0, 0, 0];
    }

    /** The activation in bfq_add_bfqq_busy, before the queue is marked busy. */
    method ComeBack(k: Id, nonBlocking: bool, idleTurn: bool)
      requires Valid() && k in queues && !queues[k].busy
      modifies this`queues, this`trees, this`next, this`byTurn
      ensures Consistent(None) && NextOk() && Counted() && (byTurn ==> old(byTurn) || idleTurn)
      ensures serving.Some? ==> queues[serving.value].place == Off
      ensures k in queues && !queues[k].busy && queues[k].place == OnActive
      ensures Returned(old(queues[k]), nonBlocking, false, old(trees), queues[k])
      ensures var b := queues[k].(busy := true);
              && BusyFits(queues[k := b], serving) && Forgot(old(queues)[k := b], queues[k := b])
              && (old(next).None? || serving.Some? ==>
                    queues[k := b] == old(queues)[k := b] && SameVtime(old(trees), trees))
    {
      ActivateRequeue(k, nonBlocking, false, idleTurn);
      EnterCounts(old(queues), queues[k], queues, k, serving);
      Overwrite(old(queues), k, queues[k], queues[k].(busy := true));
    }

    /** bfq_add_bfqq_busy. Of the other queues at most some idle ones are forgotten, and none if no
        lookup moves the virtual time. */
    method AddBusy(k: Id, nonBlocking: bool, idleTurn: bool)
      requires Valid() && k in queues && !queues[k].busy
      modifies this
      ensures Valid() && k in queues && queues[k].busy && queues[k].place == OnActive
      ensures serving == old(serving) && (byTurn ==> old(byTurn) || idleTurn)
      ensures Returned(old(queues[k]), nonBlocking, false, old(trees), queues[k].(busy := false))
      ensures Forgot(old(queues)[k := queues[k]], queues)
      ensures old(next).None? || serving.Some? ==>
                queues == old(queues)[k := queues[k]] && SameVtime(old(trees), trees)
    {
      ComeBack(k, nonBlocking, idleTurn);
      ghost var q := queues[k];
      MarkBusy(k, true);
      assert queues[k].(busy := false) == q;
    }

    /** bfq_requeue_bfqq for a queue that waits on an active tree: its new budget moves it. */
    method Reposition(k: Id, budget: nat, idleTurn: bool)
      requires Valid() && k in queues && queues[k].place == OnActive
      modifies this
      ensures Valid() && k in queues && queues[k].place == OnActive
      ensures serving == old(serving) && (byTurn ==> old(byTurn) || idleTurn)
      ensures Returned(old(queues[k]).(budget := budget), false, false, old(trees), queues[k])
      ensures Forgot(old(queues)[k := queues[k]], queues)
    {
      SetBudget(k, budget);
      ghost var m := queues;
      ActivateRequeue(k, false, false, idleTurn);
      Overwrite(old(queues), k, m[k], queues[k]);
      ReplaceCounts(m, queues[k], queues, k, serving);
    }

    /** The service starts from zero when a queue is activated. */
    method Refill(k: Id, budget: nat)
      requires Valid() && k in queues
      modifies this`queues
      ensures Valid() && queues == old(queues)[k := old(queues[k]).(budget := budget, service := 0)]
    {
      SetBudget(k, budget);
      Overwrite(old(queues), k, queues[k], queues[k].(service := 0));
      SetService(k, 0);
    }

    method SetBudget(k: Id, budget: nat)
      requires Valid() && k in queues
      modifies this`queues
      ensures Valid() && queues == old(queues)[k := old(queues[k]).(budget := budget)]
    {
      var q := queues[k].(budget := budget);
      assert QueueOk(k, queues[k], serving, owner, None);
      TreesSame(trees, queues, k, q);
      QueuesSet(queues, serving, owner, None, None, k, q);
      TotalSet(queues, Busy, k, q);
      queues := queues[k := q];
    }

    method SetService(k: Id, service: nat)
      requires Valid() && k in queues
      modifies this`queues
      ensures Valid() && queues == old(queues)[k := old(queues[k]).(service := service)]
    {
      var q := queues[k].(service := service);
      assert QueueOk(k, queues[k], serving, owner, None);
      TreesSame(trees, queues, k, q);
      QueuesSet(queues, serving, owner, None, None, k, q);
      TotalSet(queues, Busy, k, q);
      queues := queues[k := q];
    }

    /** __bfq_bfqd_reset_in_service, the last step of an expiration. The service reference goes
        now if the queue was forgotten while in service. */
    method ResetInService() returns (freed: bool)
      requires Consistent(None) && NextOk() && Counted() && owner.Some?
      requires BusyFits(queues, None)
      requires serving.None? || (serving == owner && queues[owner.value].place == OnActive)
      modifies this`queues, this`serving, this`owner
      ensures Valid() && owner == None
      ensures freed <==> old(owner).value !in queues
      ensures freed <==> old(!queues[owner.value].onStOrInServ && queues[owner.value].refs == 1)
      ensures queues == if old(queues[owner.value].onStOrInServ) then old(queues)
                        else PutQueue(old(queues), old(owner).value)
    {
      var k := owner.value;
      assert QueueOk(k, queues[k], serving, owner, None);
      owner, serving := None, None;
      freed := false;
      if queues[k].onStOrInServ {
        QueuesUnserved(queues, k, old(serving));
      } else {
        QueuesReleased(queues, k, old(serving));
        TreesPut(trees, queues, k);
        PutBusy(queues, k);
        freed := queues[k].refs == 1;
        queues := PutQueue(queues, k);
      }
    }

    /** bfq_requeue_bfqq for the queue in service, on its expiration. */
    method RequeueInService(idleTurn: bool)
      requires Valid() && owner.Some?
      modifies this`queues, this`trees, this`next, this`byTurn
      ensures Consistent(None) && NextOk() && Counted() && BusyFits(queues, None)
      ensures byTurn ==> old(byTurn) || idleTurn
      ensures owner.value in queues && queues[owner.value].place == OnActive
      ensures Forgot(old(queues)[owner.value := queues[owner.value]], queues)
      ensures Returned(old(queues[owner.value]), false, true, old(trees), queues[owner.value])
    {
      var k := owner.value;
      ActivateRequeue(k, false, true, idleTurn);
      ReplaceCounts(old(queues), queues[k], queues, k, serving);
      BusyOut(queues, k);
    }

    /** __bfq_bfqq_expire: an empty queue stops being busy, another one is requeued; either way it is out
        of service afterwards. It is freed exactly if it does not stay busy, no reference but the service
        one is left and its finish time is not ahead. */
    method LeaveService(keepBusy: bool, idleTurn: bool) returns (freed: bool)
      requires Valid() && owner.Some?
      modifies this
      ensures Valid() && owner == None && (byTurn ==> old(byTurn) || idleTurn)
      ensures freed <==> old(owner).value !in queues
      ensures keepBusy ==>
                && !freed && Forgot(old(queues)[old(owner).value := queues[old(owner).value]], queues)
                && Returned(old(queues[owner.value]), false, true, old(trees), queues[old(owner).value])
      ensures !keepBusy ==>
                var k, q := old(owner).value, old(queues[owner.value]);
                && q.service >= 0 && q.weight > 0 && q.cls < CLASSES
                && var late := Leaving(q, true).finish <= old(trees)[q.cls].vtime;
                   && (freed <==> late && q.users == 0)
                   && var m := Departed(old(queues)[k := q.(busy := false)], k, true, true, old(trees)[q.cls].vtime);
                      && k in m && queues == (if late then PutQueue(m, k) else m)
                      && SameVtime(old(trees), trees) && next == old(next)
    {
      var k := owner.value;
      assert QueueOk(k, queues[k], serving, owner, None);
      if keepBusy {
        RequeueInService(idleTurn);
        assert QueueOk(k, queues[k], serving, owner, None);
      } else {
        DelBusy(k, true, idleTurn);
      }
      freed := ResetInService();
    }

    /** The queue in service expires with requests left. It has paid for its service and starts a new
        round. */
    method ExpireBusy(idleTurn: bool)
      requires Valid() && owner.Some?
      modifies this
      ensures Valid() && owner == None && (byTurn ==> old(byTurn) || idleTurn)
      ensures var q, k := old(queues[owner.value]), old(owner).value;
              && k in queues && Forgot(old(queues)[k := queues[k]], queues)
              && queues[k].service == 0 && Pays(q, old(trees), queues[k])
              && Returned(q, false, true, old(trees), queues[k].(service := q.service))
    {
      var k := owner.value;
      ghost var q := queues[k];
      assert QueueOk(k, q, serving, owner, None);
      var freed := LeaveService(true, idleTurn);
      ghost var m := queues;
      RequeuedPays(q, old(trees), m[k]);
      ServiceCleared(old(queues), m, k);
      SetService(k, 0);
      assert queues[k].(service := q.service) == m[k];
    }

    /** It expires empty. It keeps its service only if it may go on with its budget, which `waits` says. */
    method ExpireEmpty(waits: bool, idleTurn: bool) returns (freed: bool)
      requires Valid() && owner.Some?
      modifies this
      ensures Valid() && owner == None && (byTurn ==> old(byTurn) || idleTurn)
      ensures freed <==> old(owner).value !in queues
      ensures var k, q := old(owner).value, old(queues[owner.value]);
              && q.service >= 0 && q.weight > 0 && q.cls < CLASSES
              && var late := Leaving(q, true).finish <= old(trees)[q.cls].vtime;
                 && (freed <==> late && q.users == 0)
                 && var m := Departed(old(queues)[k := q.(busy := false)], k, true, true, old(trees)[q.cls].vtime);
                    && k in m && queues == Rested(if late then PutQueue(m, k) else m, k, waits)
                    && SameVtime(old(trees), trees) && next == old(next)
    {
      var k := owner.value;
      freed := LeaveService(false, idleTurn);
      if !freed && !waits {
        SetService(k, 0);
      }
    }

    /** The scheduling part of bfq_bfqq_expire. */
    method Expire(keepBusy: bool, waits: bool, idleTurn: bool) returns (freed: bool)
      requires Valid() && owner.Some?
      modifies this
      ensures Valid() && owner == None && (byTurn ==> old(byTurn) || idleTurn)
      ensures freed <==> old(owner).value !in queues
      ensures keepBusy ==>
                var q, k := old(queues[owner.value]), old(owner).value;
                && k in queues && Forgot(old(queues)[k := queues[k]], queues)
                && queues[k].service == 0 && Pays(q, old(trees), queues[k])
                && Returned(q, false, true, old(trees), queues[k].(service := q.service))
      ensures !keepBusy ==>
                var k, q := old(owner).value, old(queues[owner.value]);
                && q.service >= 0 && q.weight > 0 && q.cls < CLASSES
                && var late := Leaving(q, true).finish <= old(trees)[q.cls].vtime;
                   && (freed <==> late && q.users == 0)
                   && var m := Departed(old(queues)[k := q.(busy := false)], k, true, true, old(trees)[q.cls].vtime);
                      && k in m && queues == Rested(if late then PutQueue(m, k) else m, k, waits)
                      && SameVtime(old(trees), trees) && next == old(next)
    {
      if keepBusy {
        ExpireBusy(idleTurn);
        freed := false;
      } else {
        freed := ExpireEmpty(waits, idleTurn);
      }
    }

    /** A queue that is busy while none is served waits on an active tree, so the cache is set. */
    lemma NextExists()
      requires Valid() && owner == None && TotBusy(busyQueues) % TWO32 != 0
      ensures next.Some?
    {
      if AllEmpty(trees) {
        forall k | k in queues ensures Read(Busy, queues[k]) == 0 {
          if queues[k].place == OnActive {
            ActiveSome(trees, queues, k, serving, owner);
          }
        }
        TotalNone(queues, Busy);
      }
    }

    /** sd->in_service_entity is set and the entity leaves its active tree. */
    method StartServing(k: Id)
      requires Valid() && owner == None && k in queues && queues[k].place == OnActive
      modifies this`queues, this`trees, this`serving
      ensures Consistent(None) && ServedNotIdle() && Counted() && BusyOk()
      ensures serving == Some(k) && queues == old(queues)[k := At(old(queues[k]), Off)]
      ensures SameVtime(old(trees), trees)
    {
      ServingActive(queues, k);
      serving := Some(k);
      ActiveExtract(k);
      ServingLimbo(queues, owner, k);
      TotalSet(old(queues), Busy, k, queues[k]);
    }

    /** bfq_get_next_queue and bfq_set_in_service_queue. With no queue in service it returns one
        as soon as the 32-bit busy count is not zero: the cached queue is never missing. */
    method GetNextQueue(idleTurn: bool) returns (k: Option<Id>)
      requires Valid() && owner == None
      modifies this
      ensures Valid() && owner == k && (byTurn ==> old(byTurn) || idleTurn)
      ensures k.None? <==> TotBusy(old(busyQueues)) % TWO32 == 0
      ensures k.None? ==> queues == old(queues) && trees == old(trees)
      ensures k.Some? ==>
                && k == old(next) && k.value in old(queues)
                && queues == old(queues)[k.value := At(old(queues)[k.value], Off)] && SameVtime(old(trees), trees)
                && var c := old(queues)[k.value].cls;
                   && c < CLASSES && Foremost(old(trees), c, old(byTurn))
                   && (queues[k.value].start <= trees[c].vtime <==>
                         exists j :: j in old(queues) && In(old(queues)[j], c, OnActive)
                                     && old(queues)[j].start <= trees[c].vtime)
    {
      k := None;
      if TotBusy(busyQueues) % TWO32 != 0 {
        NextExists();
        k := next;
        NextEligible(trees, queues, next, byTurn);
        StartServing(k.value);
        UpdateNext(None, false, idleTurn);
        QueuesOwned(queues, k.value);
        owner := k;
      }
    }

    /** The weight sum a charge divides by covers at least the charged queue. */
    lemma WsumCovers(k: Id)
      requires Consistent(None) && k in queues && queues[k].onStOrInServ
      ensures queues[k].cls < CLASSES && trees[queues[k].cls].wsum >= queues[k].weight > 0
    {
      var c := queues[k].cls;
      assert QueueOk(k, queues[k], serving, owner, None);
      forall j | j in queues ensures Read(WeightOf(c), queues[j]) >= 0 {
        assert QueueOk(j, queues[j], serving, owner, None);
      }
      TotalLower(queues, WeightOf(c), k);
      assert TreeOk(trees[c], queues, c);
    }

    method AdvanceVtime(c: nat, v: int)
      requires Valid() && c < CLASSES && trees[c].vtime <= v
      modifies this`trees
      ensures Valid() && trees == old(trees)[c := old(trees)[c].(vtime := v)]
    {
      SetVtime(c, v);
      assert forall d :: 0 <= d < CLASSES ==> ShrunkTree(old(trees)[d], trees[d]);
      NextKept(old(trees), trees, queues, queues, next, byTurn);
    }

    method ExpireIdle(c: nat)
      requires Valid() && c < CLASSES
      modifies this`queues, this`trees
      ensures Valid() && Forgot(old(queues), queues)
      ensures |trees| == |old(trees)| == CLASSES && FellBack(old(trees)[c], old(queues), trees[c].vtime)
      ensures FirstForgotten(old(trees)[c], old(queues), trees[c].vtime, queues)
    {
      ForgetIdle(c);
      BusyForgot(old(queues), queues, serving);
      assert forall d :: 0 <= d < CLASSES ==> ShrunkTree(old(trees)[d], trees[d]);
      NextKept(old(trees), trees, old(queues), queues, next, byTurn);
    }

    /** bfq_bfqq_served: charge a busy queue, in service or not, and advance the virtual time of
        its class by the service over the weight sum, which is never zero. */
    method Served(k: Id, amount: nat)
      requires Valid() && k in queues && queues[k].busy
      modifies this`queues, this`trees
      ensures Valid()
      ensures k in queues && queues[k] == old(queues[k]).(service := old(queues[k]).service + amount)
      ensures var c := old(queues[k]).cls;
              && c < CLASSES && |trees| == |old(trees)| == CLASSES && old(trees)[c].wsum > 0
              && var v := old(trees)[c].vtime + Delta(amount, old(trees)[c].wsum);
                 && Paid(amount, old(trees)[c].wsum, v - old(trees)[c].vtime)
                 && FellBack(old(trees)[c].(vtime := v), old(queues), trees[c].vtime)
                 && FirstForgotten(old(trees)[c], old(queues)[k := queues[k]], trees[c].vtime, queues)
    {
      assert QueueOk(k, queues[k], serving, owner, None);
      SetService(k, queues[k].service + amount);
      assert QueueOk(k, queues[k], serving, owner, None);
      WsumCovers(k);
      var c := queues[k].cls;
      DeltaPaid(amount, trees[c].wsum);
      AdvanceVtime(c, trees[c].vtime + Delta(amount, trees[c].wsum));
      ExpireIdle(c);
    }

    /** A request to change weight, weight-raising factor or class; nothing is applied yet. */
    method RequestPrio(k: Id, newWeight: int, newCls: nat, wrCoeff: int)
      requires Valid() && k in queues && newCls < CLASSES && wrCoeff >= 1
      modifies this`queues
      ensures Valid()
      ensures queues == old(queues)[k := old(queues[k]).(newWeight := newWeight, newCls := newCls,
                                                         wrCoeff := wrCoeff, prioChanged := true)]
    {
      var q := queues[k].(newWeight := newWeight, newCls := newCls, wrCoeff := wrCoeff, prioChanged := true);
      assert QueueOk(k, queues[k], serving, owner, None);
      TreesSame(trees, queues, k, q);
      QueuesSet(queues, serving, owner, None, None, k, q);
      TotalSet(queues, Busy, k, q);
      queues := queues[k := q];
    }

    /** bfq_update_wr_data: the queue in service takes over its new weight, but not its class. */
    method UpdateServedWeight()
      requires Valid() && owner.Some?
      modifies this`queues, this`trees
      ensures Valid()
      ensures var q := old(queues[owner.value]);
              && q.cls < CLASSES && q.newCls < CLASSES && |old(trees)| == CLASSES
              && queues == old(queues)[owner.value := Reprioritized(q, false, old(trees))]
              && SameVtime(old(trees), trees)
    {
      var k := owner.value;
      assert QueueOk(k, queues[k], serving, owner, None);
      TotalSet(queues, Busy, k, Reprioritized(queues[k], false, trees));
      UpdateWeightPrio(k, false, None);
    }

    /** bfq_deactivate_bfqq on an idle queue, as when the scheduler exits. */
    method DropIdle(k: Id)
      requires Valid() && k in queues && queues[k].place == OnIdle
      modifies this`queues, this`trees, this`serving
      ensures Valid() && serving == old(serving)
      ensures Elsewhere(old(queues), queues, k)
      ensures k in queues ==> !queues[k].onStOrInServ && !queues[k].busy && queues[k].place == Off
    {
      assert QueueOk(k, queues[k], serving, owner, None);
      DeactivateEntity(k, false);
      BusyLeave(old(queues), queues, k, serving);
      NextKept(old(trees), trees, old(queues), queues, next, byTurn);
    }

    /** A new queue, held by the process that created it. */
    method Create(k: Id, weight: int, cls: nat)
      requires Valid() && k !in queues && MIN_WEIGHT <= weight <= MAX_WEIGHT && cls < CLASSES
      modifies this`queues
      ensures Valid() && queues == old(queues)[k := Created(weight, cls)]
      ensures var q := queues[k];
              q.weight == weight && q.cls == cls && q.users == 1 && !q.busy && q.place == Off && !q.prioChanged
    {
      var q := Created(weight, cls);
      TreesCreate(trees, queues, k, q);
      TotalSet(queues, Busy, k, q);
      queues := queues[k := q];
    }

    /** Another user takes a reference. */
    method GetRef(k: Id)
      requires Valid() && k in queues
      modifies this`queues
      ensures Valid()
      ensures var q := old(queues[k]); queues == old(queues)[k := q.(refs := q.refs + 1, users := q.users + 1)]
    {
      var q := queues[k].(refs := queues[k].refs + 1, users := queues[k].users + 1);
      assert QueueOk(k, queues[k], serving, owner, None);
      TreesSame(trees, queues, k, q);
      QueuesSet(queues, serving, owner, None, None, k, q);
      TotalSet(queues, Busy, k, q);
      queues := queues[k := q];
    }

    /** bfq_put_queue by a user: the queue is freed exactly when no other reference is left, and
        then it is on no tree, not in service and not busy. */
    method PutRef(k: Id) returns (freed: bool)
      requires Valid() && k in queues && queues[k].users > 0
      modifies this`queues
      ensures Valid()
      ensures freed <==> k !in queues
      ensures freed <==> old(queues[k]).users == 1 && !old(queues[k]).onStOrInServ
      ensures var q := old(queues[k]);
              queues == if freed then old(queues) - {k}
                        else old(queues)[k := q.(refs := q.refs - 1, users := q.users - 1)]
    {
      var q := queues[k].(users := queues[k].users - 1);
      assert QueueOk(k, queues[k], serving, owner, None);
      freed := q.refs == 1;
      if freed {
        QueuesDrop(queues, serving, owner, k);
        forall c | 0 <= c < CLASSES ensures TreeOk(trees[c], queues - {k}, c) {
          TreeDrop(trees[c], queues, c, k);
        }
        TotalAt(queues, Busy, k);
        queues := queues - {k};
      } else {
        q := q.(refs := q.refs - 1);
        TreesSame(trees, queues, k, q);
        QueuesSet(queues, serving, owner, None, None, k, q);
        TotalSet(queues, Busy, k, q);
        queues := queues[k := q];
      }
    }

    /** What each operation does, in short, if its precondition holds. */
    ghost predicate Happened(m: Queues, served: Option<Id>, op: Op)
      reads this
    {
      match op
      case Create(k, weight, cls) => MIN_WEIGHT <= weight <= MAX_WEIGHT && cls < CLASSES ==> k in queues
      case GetRef(k) => k in m ==> k in queues && queues[k].users == m[k].users + 1
      case PutRef(k) => k in m && m[k].users > 0 && k in queues ==> queues[k].users == m[k].users - 1
      case RequestPrio(k, w, cls, wr) =>
        k in m && cls < CLASSES && wr >= 1 ==>
          k in queues && queues[k].prioChanged && queues[k].newWeight == w && queues[k].newCls == cls
          && queues[k].wrCoeff == wr
      case AddBusy(k, budget, _, _) =>
        k in m && !m[k].busy ==> k in queues && queues[k].busy && queues[k].budget == budget
      case DelBusy(k, _) => k in m && k in queues && served != Some(k) ==> !queues[k].busy
      case Reposition(k, budget, _) => k in m && m[k].place == OnActive ==> k in queues && queues[k].budget == budget
      case Expire(keepBusy, _, _) =>
        serving == None && (served.Some? && served.value in queues ==> queues[served.value].busy == keepBusy)
      case DropIdle(k) => k in m && k in queues ==> queues[k].place != OnIdle
      case _ => true
    }

    /** Activation of a queue with a new budget. */
    method Arrive(k: Id, budget: nat, nonBlocking: bool, idleTurn: bool)
      requires Valid() && k in queues && !queues[k].busy
      modifies this
      ensures Valid() && (byTurn ==> old(byTurn) || idleTurn)
      ensures AllMoved(old(queues), queues, Op.AddBusy(k, budget, nonBlocking, idleTurn), old(serving))
      ensures k in queues && queues[k].busy && queues[k].budget == budget
    {
      Refill(k, budget);
      ghost var m, op := queues, Op.AddBusy(k, budget, nonBlocking, idleTurn);
      AddBusy(k, nonBlocking, idleTurn);
      MovedForgot(m, queues[k], queues, k, op, serving);
      MovedOther(old(queues), m, queues, k, op, serving);
    }

    /** A queue out of service runs empty. */
    method RunEmpty(k: Id, idleTurn: bool)
      requires Valid() && k in queues && queues[k].busy && owner != Some(k)
      modifies this
      ensures Valid() && (byTurn ==> old(byTurn) || idleTurn)
      ensures AllMoved(old(queues), queues, Op.DelBusy(k, idleTurn), old(serving)) && (k in queues ==> !queues[k].busy)
    {
      DelBusy(k, false, idleTurn);
      MovedDeparted(old(queues), queues, k, old(trees), Op.DelBusy(k, idleTurn), old(serving));
    }

    /** Its budget follows its next request. */
    method Follow(k: Id, budget: nat, idleTurn: bool)
      requires Valid() && k in queues && queues[k].place == OnActive
      modifies this
      ensures Valid() && (byTurn ==> old(byTurn) || idleTurn)
      ensures AllMoved(old(queues), queues, Op.Reposition(k, budget, idleTurn), old(serving))
      ensures k in queues && queues[k].budget == budget
    {
      Reposition(k, budget, idleTurn);
      MovedKept(old(queues[k]).(budget := budget), old(trees), queues[k]);
      MovedForgot(old(queues), queues[k], queues, k, Op.Reposition(k, budget, idleTurn), serving);
    }

    /** A queue is taken into service. */
    method Select(idleTurn: bool)
      requires Valid() && owner == None
      modifies this
      ensures Valid() && (byTurn ==> old(byTurn) || idleTurn)
      ensures AllMoved(old(queues), queues, Op.GetNext(idleTurn), old(serving))
    {
      var k := GetNextQueue(idleTurn);
      if k.Some? {
        MovedSet(old(queues), k.value, queues[k.value], Op.GetNext(idleTurn), None);
      }
    }

    /** Expiration of the queue in service. */
    method Finish(keepBusy: bool, waits: bool, idleTurn: bool)
      requires Valid() && owner.Some?
      modifies this
      ensures Valid() && (byTurn ==> old(byTurn) || idleTurn)
      ensures AllMoved(old(queues), queues, Op.Expire(keepBusy, waits, idleTurn), old(serving))
      ensures serving == None && (old(owner).value in queues ==> queues[old(owner).value].busy == keepBusy)
    {
      ghost var k, op := owner.value, Op.Expire(keepBusy, waits, idleTurn);
      var _ := Expire(keepBusy, waits, idleTurn);
      if keepBusy {
        MovedForgot(old(queues), queues[k], queues, k, op, old(serving));
      } else {
        MovedRested(old(queues), queues, k, old(trees), waits, op, old(serving));
      }
    }

    /** One operation after which the next queue may be looked up, if its precondition in the C code
        holds; otherwise nothing happens. */
    method Reschedule(op: Op)
      requires Valid() && !op.Serve?
      requires op.AddBusy? || op.DelBusy? || op.Reposition? || op.GetNext? || op.Expire?
      modifies this
      ensures Valid() && (byTurn ==> old(byTurn) || TakesTurn(op))
      ensures AllMoved(old(queues), queues, op, old(serving)) && Happened(old(queues), old(serving), op)
    {
      match op
      case AddBusy(k, budget, nonBlocking, idleTurn) =>
        if k in queues && !queues[k].busy { Arrive(k, budget, nonBlocking, idleTurn); }
      case DelBusy(k, idleTurn) =>
        if k in queues && queues[k].busy && owner != Some(k) { RunEmpty(k, idleTurn); }
      case Reposition(k, budget, idleTurn) =>
        if k in queues && queues[k].place == OnActive { Follow(k, budget, idleTurn); }
      case GetNext(idleTurn) => if owner == None { Select(idleTurn); }
      case Expire(keepBusy, waits, idleTurn) => if owner.Some? { Finish(keepBusy, waits, idleTurn); }
    }

    /** Charging a queue. */
    method Charge(k: Id, amount: nat)
      requires Valid() && k in queues && queues[k].busy
      modifies this`queues, this`trees
      ensures Valid() && AllMoved(old(queues), queues, Op.Serve(k, amount), serving)
    {
      ghost var c := queues[k].cls;
      assert QueueOk(k, queues[k], serving, owner, None);
      assert TreeOk(trees[c], queues, c);
      EndsInMap(trees[c], queues, c);
      Served(k, amount);
      MovedServed(old(queues), queues, k, amount, old(trees)[c], trees[c].vtime, serving);
    }

    /** One operation on the references of a queue, or a request. */
    method Manage(op: Op)
      requires Valid() && (op.Create? || op.GetRef? || op.PutRef? || op.RequestPrio?)
      modifies this
      ensures Valid() && byTurn == old(byTurn) && AllMoved(old(queues), queues, op, old(serving))
      ensures Happened(old(queues), old(serving), op)
    {
      match op
      case Create(k, weight, cls) =>
        if k !in queues && MIN_WEIGHT <= weight <= MAX_WEIGHT && cls < CLASSES {
          Create(k, weight, cls);
          MovedSet(old(queues), k, queues[k], op, serving);
        }
      case GetRef(k) =>
        if k in queues {
          GetRef(k);
          MovedSet(old(queues), k, queues[k], op, serving);
        }
      case PutRef(k) =>
        if k in queues && queues[k].users > 0 {
          var freed := PutRef(k);
          MovedSet(old(queues), k, if freed then old(queues[k]) else queues[k], op, serving);
        }
      case RequestPrio(k, w, cls, wr) =>
        if k in queues && cls < CLASSES && wr >= 1 {
          RequestPrio(k, w, cls, wr);
          MovedSet(old(queues), k, queues[k], op, serving);
        }
    }

    /** Any operation. */
    method Step(op: Op)
      requires Valid()
      modifies this
      ensures Valid() && (byTurn ==> old(byTurn) || TakesTurn(op))
      ensures AllMoved(old(queues), queues, op, old(serving)) && Happened(old(queues), old(serving), op)
    {
      if op.Create? || op.GetRef? || op.PutRef? || op.RequestPrio? {
        Manage(op);
      } else if op.Serve? {
        if op.k in queues && queues[op.k].busy {
          Charge(op.k, op.amount);
        }
      } else if op.UpdateWeight? {
        if owner.Some? {
          UpdateServedWeight();
          MovedSet(old(queues), owner.value, queues[owner.value], op, serving);
        }
      } else if op.DropIdle? {
        if op.k in queues && queues[op.k].place == OnIdle {
          DropIdle(op.k);
          ForgotNothing(queues);
          MovedElsewhere(old(queues), queues, queues, op.k, op, serving);
        }
      } else {
        Reschedule(op);
      }
    }

    /** Any run from the empty scheduler stays valid; and as long as the idle class does not get a turn,
        next_in_service belongs to the first class with a waiting queue. `trace` has what is between the
        operations. */
    method Run(ops: seq<Op>) returns (ghost trace: seq<Moment>)
      requires Valid()
      modifies this
      ensures Valid()
      ensures !old(byTurn) && (forall i :: 0 <= i < |ops| ==> !TakesTurn(ops[i])) && next.Some? ==>
                EmptyBetween(trees, 0, queues[next.value].cls)
      ensures Follows(trace, ops) && trace[0] == old(Now()) && trace[|ops|] == Now()
    {
      trace := [Now()];
      for i := 0 to |ops|
        invariant Valid() && Follows(trace, ops[..i]) && trace[0] == old(Now()) && trace[i] == Now()
        invariant !old(byTurn) && (forall j :: 0 <= j < i ==> !TakesTurn(ops[j])) ==> !byTurn
      {
        Step(ops[i]);
        FollowsNext(trace, ops[..i], ops[i], Now());
        assert ops[..i + 1] == ops[..i] + [ops[i]];
        trace := trace + [Now()];
      }
      assert ops[..|ops|] == ops;
    }

    ghost function Now(): (n: Moment)
      reads this
    {
      Moment(queues, serving)
    }
  }

  // ---------------------------------------------------------------- a run

  lemma TotalOne(k: Id, q: Queue, g: Gauge)
    ensures Total(map[k := q], g) == Read(g, q)
  {
    TotalSet(map[], g, k, q);
    assert map[][k := q] == map[k := q];
  }

  /** The service tree of the class of the only queue, while this is in service. */
  lemma TreeOfOne(trees: seq<ServiceTree>, k: Id, q: Queue)
    requires TreesOk(trees, map[k := q]) && q.place == Off && q.onStOrInServ && q.cls < CLASSES
    ensures var st := trees[q.cls]; st.wsum == q.weight && st.active.Leaf? && st.firstIdle.None? && st.lastIdle.None?
  {
    var m, c := map[k := q], q.cls;
    assert TreeOk(trees[c], m, c);
    TotalOne(k, q, WeightOf(c));
    assert Want(m, c, OnActive) == {} && Want(m, c, OnIdle) == {};
  }

  /** The only queue is in service; what matters of it. */
  ghost predicate OneServed(s: Scheduler, weight: int, service: int, vtime: int)
    reads s
  {
    && s.Valid() && s.owner == Some(0) && s.next == None && s.trees[0].vtime == vtime
    && 0 in s.queues && s.queues == map[0 := s.queues[0]]
    && var q := s.queues[0];
       && q.start == 1 && q.weight == weight && q.service == service && q.cls == q.newCls == 0 && q.wrCoeff == 1
       && q.origWeight == weight && q.newWeight == weight && !q.prioChanged && q.onStOrInServ && q.busy
  }

  method ServeOne() returns (s: Scheduler)
    ensures fresh(s) && OneServed(s, 10, 0, 1)
  {
    s := new Scheduler();
    s.Create(0, 10, 0);
    s.AddBusy(0, false, false);
    assert s.queues == map[0 := s.queues[0]];
    TotalOne(0, s.queues[0], Busy);
    var k := s.GetNextQueue(false);
  }

  method LowerWeight(s: Scheduler)
    requires OneServed(s, 10, 0, 1)
    modifies s
    ensures OneServed(s, 1, 10, 1 + SERVICE_UNIT)
  {
    TreeOfOne(s.trees, 0, s.queues[0]);
    s.Served(0, 10);
    s.RequestPrio(0, 1, 0, 1);
    s.UpdateServedWeight();
  }

  /** A queue is served, its weight is lowered meanwhile, and it runs empty: it is idle and has to wait
      for a later virtual time. */
  method ServedAndIdle() returns (s: Scheduler)
    ensures fresh(s) && s.Valid() && s.serving == None && s.next == None && s.trees[0].vtime == 1 + SERVICE_UNIT
    ensures 0 in s.queues && s.queues == map[0 := s.queues[0]]
    ensures var q := s.queues[0];
            && q.place == OnIdle && q.finish == 1 + 10 * SERVICE_UNIT && q.cls == 0 && !q.prioChanged && !q.busy
  {
    s := ServeOne();
    LowerWeight(s);
    var freed := s.Expire(false, true, false);
  }

  /** The queue in service need not be eligible: the idle queue comes back, is the only one, and is set
      in service without a lookup that would move the virtual time to its start. */
  method ServedEarly() returns (s: Scheduler)
    ensures fresh(s) && s.Valid() && s.owner == Some(0) && 0 in s.queues && s.queues[0].cls == 0
    ensures s.queues[0].start > s.trees[0].vtime
  {
    s := ServedAndIdle();
    s.AddBusy(0, false, false);
    assert s.queues == map[0 := s.queues[0]];
    TotalOne(0, s.queues[0], Busy);
    var k := s.GetNextQueue(false);
  }
}
