/** The operations of the scheduler, what each does to the service that a queue has paid for, and which
    queue comes next. */
module SchedulerSteps {
  import opened Basics
  import opened FinishTree
  import opened SchedulerQueues

  datatype Op =
    | Create(k: Id, weight: int, cls: nat)
    | GetRef(k: Id)
    | PutRef(k: Id)
    | RequestPrio(k: Id, newWeight: int, newCls: nat, wrCoeff: int)
    | AddBusy(k: Id, budget: nat, nonBlocking: bool, idleTurn: bool)
    | DelBusy(k: Id, idleTurn: bool)
    | Reposition(k: Id, budget: nat, idleTurn: bool)
    | GetNext(idleTurn: bool)
    | Serve(k: Id, amount: nat)
    | UpdateWeight
    | Expire(keepBusy: bool, waits: bool, idleTurn: bool)
    | DropIdle(k: Id)

  function Created(weight: int, cls: nat): (q: Queue) {
    Queue(weight, weight, weight, false, 1, cls, cls, 0, 0, 0, 0, Off, false, false, 1, 1)
  }

  /** The service of a queue that does not go on with its budget is forgotten. */
  function Rested(m: Queues, k: Id, waits: bool): (r: Queues) {
    if k in m && !waits then m[k := m[k].(service := 0)] else m
  }

  lemma ServiceCleared(m: Queues, m': Queues, k: Id)
    requires k in m && k in m' && Forgot(m[k := m'[k]], m') && m'[k].place == OnActive
    ensures var q := m'[k].(service := 0); Forgot(m[k := q], m'[k := q])
  {
    var q := m'[k].(service := 0);
    TotalSet(m, Busy, k, m'[k]);
    TotalSet(m, Busy, k, q);
    TotalSet(m', Busy, k, q);
  }

  /** The operation looks for the next queue while the idle class has waited long enough. */
  predicate TakesTurn(op: Op) {
    match op
    case AddBusy(_, _, _, idleTurn) => idleTurn
    case DelBusy(_, idleTurn) => idleTurn
    case Reposition(_, _, idleTurn) => idleTurn
    case GetNext(idleTurn) => idleTurn
    case Expire(_, _, idleTurn) => idleTurn
    case _ => false
  }

  // ---------------------------------------------------------------- paying for service

  /** What an operation charges a queue. */
  function ChargeOf(op: Op, k: Id): (n: nat) {
    if op.Serve? && op.k == k then op.amount else 0
  }

  /** The queue in service expires. */
  predicate Expires(op: Op, k: Id, serving: Option<Id>) {
    op.Expire? && serving == Some(k)
  }

  /** A queue stays busy, at one weight and in one class. */
  predicate Continues(q: Queue, r: Queue) {
    q.busy && r.busy && q.weight == r.weight && q.cls == r.cls
  }

  /** Its start moves only when it expires, and then it has paid for all its service. */
  ghost predicate Moved(q: Queue, r: Queue, amount: nat, expires: bool) {
    Continues(q, r) ==>
      if expires then r.service == 0 && Paid(q.service, q.weight, r.start - q.start)
      else r.start == q.start && r.service == q.service + amount
  }

  ghost predicate AllMoved(m: Queues, m': Queues, op: Op, serving: Option<Id>) {
    forall j :: j in m && j in m' ==> Moved(m[j], m'[j], ChargeOf(op, j), Expires(op, j, serving))
  }

  /** Only `k` changes, and idle queues. */
  lemma MovedForgot(m: Queues, q: Queue, m': Queues, k: Id, op: Op, serving: Option<Id>)
    requires k in m && Forgot(m[k := q], m') && !op.Serve? && (op.Expire? ==> serving == Some(k))
    requires Moved(m[k], q, 0, Expires(op, k, serving)) && k in m' && m'[k] == q
    ensures AllMoved(m, m', op, serving)
  {
    forall j | j in m && j in m' ensures Moved(m[j], m'[j], ChargeOf(op, j), Expires(op, j, serving)) {
      if j != k {
        assert m[k := q][j] == m[j];
      }
    }
  }

  lemma MovedSet(m: Queues, k: Id, q: Queue, op: Op, serving: Option<Id>)
    requires !op.Serve? && !op.Expire?
    requires k in m && Continues(m[k], q) ==> q.start == m[k].start && q.service == m[k].service
    ensures AllMoved(m, m[k := q], op, serving) && AllMoved(m, m - {k}, op, serving) && AllMoved(m, m, op, serving)
  {
  }

  /** The same seen from before `k` was changed, where it was not busy. */
  lemma MovedOther(m: Queues, m': Queues, m'': Queues, k: Id, op: Op, serving: Option<Id>)
    requires k in m && !m[k].busy && Elsewhere(m, m', k) && AllMoved(m', m'', op, serving)
    ensures AllMoved(m, m'', op, serving)
  {
  }

  lemma MovedElsewhere(m: Queues, m': Queues, m'': Queues, k: Id, op: Op, serving: Option<Id>)
    requires Elsewhere(m, m', k) && Forgot(m', m'') && !op.Serve? && (op.Expire? ==> serving == Some(k))
    requires k in m'' ==> !m''[k].busy
    ensures AllMoved(m, m'', op, serving)
  {
  }

  /** Queue `k` left and is not busy. */
  lemma MovedDeparted(m: Queues, m': Queues, k: Id, trees: seq<ServiceTree>, op: Op, serving: Option<Id>)
    requires k in m && m[k].service >= 0 && m[k].weight > 0 && m[k].cls < |trees|
    requires op.DelBusy? && (k in m' ==> !m'[k].busy)
    requires var u := Departed(m[k := m[k].(busy := false)], k, serving == Some(k), true, trees[m[k].cls].vtime);
             m' == u || Forgot(u, m')
    ensures AllMoved(m, m', op, serving)
  {
    var n := m[k := m[k].(busy := false)];
    var u := Departed(n, k, serving == Some(k), true, trees[m[k].cls].vtime);
    DepartedElsewhere(m, m[k].(busy := false), k, serving == Some(k), true, trees[m[k].cls].vtime);
    ForgotNothing(u);
    MovedElsewhere(m, u, m', k, op, serving);
  }

  lemma ForgotNothing(m: Queues)
    ensures Forgot(m, m)
  {
  }

  lemma MovedRested(m: Queues, m': Queues, k: Id, trees: seq<ServiceTree>, waits: bool, op: Op, serving: Option<Id>)
    requires k in m && m[k].service >= 0 && m[k].weight > 0 && m[k].cls < |trees|
    requires op.Expire? && serving == Some(k)
    requires var u := Departed(m[k := m[k].(busy := false)], k, true, true, trees[m[k].cls].vtime);
             var late := Leaving(m[k], true).finish <= trees[m[k].cls].vtime;
             k in u && m' == Rested(if late then PutQueue(u, k) else u, k, waits)
    ensures AllMoved(m, m', op, serving)
  {
    DepartedElsewhere(m, m[k].(busy := false), k, true, true, trees[m[k].cls].vtime);
    ForgotNothing(m');
    var u := Departed(m[k := m[k].(busy := false)], k, true, true, trees[m[k].cls].vtime);
    assert !u[k].busy;
    MovedElsewhere(m, m', m', k, op, serving);
  }

  /** Putting back a queue that waits does not move its start. */
  lemma MovedKept(q: Queue, trees: seq<ServiceTree>, r: Queue)
    requires Returned(q, false, false, trees, r) && q.place == OnActive
    ensures r.cls == q.cls ==> r.start == q.start
    ensures r.service == q.service
  {
  }

  lemma MovedServed(m: Queues, m': Queues, k: Id, amount: nat, st: ServiceTree, vtime: int, serving: Option<Id>)
    requires k in m && k in m' && m'[k] == m[k].(service := m[k].service + amount)
    requires st.firstIdle.Some? && st.firstIdle.value in m ==> !m[st.firstIdle.value].busy && st.firstIdle.value != k
    requires FirstForgotten(st, m[k := m'[k]], vtime, m')
    ensures AllMoved(m, m', Serve(k, amount), serving)
  {
  }

  /** The queues, and which is in service. */
  datatype Moment = Moment(queues: Queues, serving: Option<Id>)

  ghost predicate Follows(trace: seq<Moment>, ops: seq<Op>) {
    && |trace| == |ops| + 1
    && forall i {:trigger ops[i]} :: 0 <= i < |ops| ==>
         AllMoved(trace[i].queues, trace[i + 1].queues, ops[i], trace[i].serving)
  }

  lemma FollowsNext(trace: seq<Moment>, ops: seq<Op>, op: Op, n: Moment)
    requires Follows(trace, ops) && AllMoved(trace[|ops|].queues, n.queues, op, trace[|ops|].serving)
    ensures Follows(trace + [n], ops + [op])
  {
  }

  /** The service charged to a queue between two moments, and how often it expired. */
  function ChargedIn(ops: seq<Op>, i: nat, j: nat, k: Id): (n: nat)
    requires i <= j <= |ops|
    decreases j
  {
    if i == j then 0 else ChargedIn(ops, i, j - 1, k) + ChargeOf(ops[j - 1], k)
  }

  function RoundsIn(trace: seq<Moment>, ops: seq<Op>, i: nat, j: nat, k: Id): (n: nat)
    requires i <= j <= |ops| && |trace| == |ops| + 1
    decreases j
  {
    if i == j then 0
    else RoundsIn(trace, ops, i, j - 1, k) + if Expires(ops[j - 1], k, trace[j - 1].serving) then 1 else 0
  }

  /** The queue is busy at one weight and in one class from moment `i` to moment `j`. */
  ghost predicate Steady(trace: seq<Moment>, i: nat, j: nat, k: Id) {
    && i <= j < |trace|
    && (forall x :: i <= x <= j ==> k in trace[x].queues)
    && (forall x :: i <= x <= j ==> trace[x].queues[k].busy && trace[x].queues[k].weight == trace[i].queues[k].weight
                                    && trace[x].queues[k].cls == trace[i].queues[k].cls)
  }

  /** Over any stretch of a run in which a queue stays busy at one weight, its start moves by the service
      charged to it over its weight: what it has not paid for is the service of its present round, and
      less than one weight for each time it expired. */
  lemma {:induction false} ServicePaid(trace: seq<Moment>, ops: seq<Op>, i: nat, j: nat, k: Id)
    requires Follows(trace, ops) && Steady(trace, i, j, k)
    ensures var q, r := trace[i].queues[k], trace[j].queues[k];
            var due := (q.service + ChargedIn(ops, i, j, k) - r.service) * 0x40_0000 - q.weight * (r.start - q.start);
            0 <= due <= RoundsIn(trace, ops, i, j, k) * (q.weight - 1)
    decreases j
  {
    if i < j {
      ServicePaid(trace, ops, i, j - 1, k);
      var op := ops[j - 1];
      var q, p, r := trace[i].queues[k], trace[j - 1].queues[k], trace[j].queues[k];
      assert Moved(p, r, ChargeOf(op, k), Expires(op, k, trace[j - 1].serving));
      PaidOnce(q, p, r, ChargedIn(ops, i, j - 1, k), ChargeOf(op, k), RoundsIn(trace, ops, i, j - 1, k),
               Expires(op, k, trace[j - 1].serving));
    }
  }

  lemma PaidOnce(q: Queue, p: Queue, r: Queue, charged: int, amount: nat, rounds: nat, expires: bool)
    requires Moved(p, r, amount, expires) && Continues(p, r) && q.weight == p.weight && (expires ==> amount == 0)
    requires 0 <= (q.service + charged - p.service) * 0x40_0000 - q.weight * (p.start - q.start)
               <= rounds * (q.weight - 1)
    ensures var n := rounds + if expires then 1 else 0;
            0 <= (q.service + charged + amount - r.service) * 0x40_0000 - q.weight * (r.start - q.start)
              <= n * (q.weight - 1)
  {
    var w := q.weight;
    assert w * (r.start - q.start) == w * (r.start - p.start) + w * (p.start - q.start);
  }

  // ---------------------------------------------------------------- choosing the next queue

  /** Queue `k` is what the search of the tree finds at the virtual time it jumps to. */
  ghost predicate Leads(st: ServiceTree, k: Id, q: Queue) {
    && st.active.Node?
    && Search(st.active, VtimeJump(st.active, st.vtime), None) == Some(ItemOf(k, q))
  }

  /** No class before `c` has a waiting queue, unless `c` is the idle class and it was its turn. */
  ghost predicate Foremost(trees: seq<ServiceTree>, c: nat, byTurn: bool) {
    EmptyBetween(trees, 0, c) || (byTurn && c == IDLE_CLASS)
  }

  /** What a lookup chooses: the idle class when its turn has come and it has a waiting queue, else the
      first class that has one; and in that class the queue the search finds. */
  ghost predicate Chosen(trees: seq<ServiceTree>, k: Id, q: Queue, idleTurn: bool) {
    && |trees| == CLASSES && q.cls < CLASSES && Leads(trees[q.cls], k, q)
    && if idleTurn && trees[IDLE_CLASS].active.Node? then q.cls == IDLE_CLASS else EmptyBetween(trees, 0, q.cls)
  }

  lemma ForemostKept(trees: seq<ServiceTree>, trees': seq<ServiceTree>, c: nat, byTurn: bool)
    requires Foremost(trees, c, byTurn) && NoneFilled(trees, trees')
    ensures Foremost(trees', c, byTurn)
  {
  }

  /** A queue is eligible now, or as soon as any of the tree is. */
  ghost predicate Soonest(st: ServiceTree, q: Queue) {
    st.active.Node? && q.start <= VtimeJump(st.active, st.vtime)
  }

  /** An active tree has lost members at most, and its virtual time has not gone back. */
  ghost predicate ShrunkTree(st: ServiceTree, st': ServiceTree) {
    Items(st'.active) <= Items(st.active) && (st'.active.Node? ==> st.vtime <= st'.vtime)
  }

  ghost predicate Shrunk(trees: seq<ServiceTree>, trees': seq<ServiceTree>) {
    |trees'| == |trees| &&
    forall c {:trigger ShrunkTree(trees[c], trees'[c])} :: 0 <= c < |trees| ==> ShrunkTree(trees[c], trees'[c])
  }

  lemma ExtractShrinks(trees: seq<ServiceTree>, m: Queues, k: Id)
    requires TreesOk(trees, m) && k in m && m[k].place == OnActive && m[k].cls < CLASSES
    ensures Shrunk(trees, trees[m[k].cls := ActiveExtracted(trees[m[k].cls], k)])
  {
    var c := m[k].cls;
    assert TreeOk(trees[c], m, c);
    HoldsKey(trees[c].active, m, c, OnActive, k);
    RemoveFacts(trees[c].active, ItemOf(k, m[k]));
    var t := trees[c := ActiveExtracted(trees[c], k)];
    forall d | 0 <= d < |trees| ensures ShrunkTree(trees[d], t[d]) {
    }
  }

  lemma SoonestKept(st: ServiceTree, st': ServiceTree, q: Queue)
    requires Soonest(st, q) && ShrunkTree(st, st') && st'.active.Node?
    ensures Soonest(st', q)
  {
    var x := MinStartAttained(st'.active);
    ItemsInOrder(st'.active, x);
    ItemsInOrder(st.active, x);
    MinStartLower(st.active, x);
  }

  lemma ShrunkNone(trees: seq<ServiceTree>, trees': seq<ServiceTree>)
    requires Shrunk(trees, trees')
    ensures NoneFilled(trees, trees')
  {
    forall c | 0 <= c < |trees| && trees[c].active.Leaf? ensures trees'[c].active.Leaf? {
      assert ShrunkTree(trees[c], trees'[c]);
      assert Items(trees'[c].active) == {};
    }
  }

  lemma ShrunkSame(trees: seq<ServiceTree>, trees': seq<ServiceTree>, trees'': seq<ServiceTree>)
    requires Shrunk(trees, trees') && SameActive(trees', trees'') && SameVtime(trees', trees'')
    ensures Shrunk(trees, trees'')
  {
    forall c | 0 <= c < |trees| ensures ShrunkTree(trees[c], trees''[c]) {
      assert ShrunkTree(trees[c], trees'[c]);
    }
  }

  lemma SameShrunk(trees: seq<ServiceTree>, trees': seq<ServiceTree>)
    requires SameActive(trees, trees') && SameVtime(trees, trees')
    ensures Shrunk(trees, trees')
  {
    forall c | 0 <= c < |trees| ensures ShrunkTree(trees[c], trees'[c]) {
    }
  }

  /** next_in_service is set exactly when some active tree is not empty, to a queue on one. No class
      before that of this queue has a waiting queue unless it was the idle class's turn. If the queue is
      not eligible, no other of its class is, and it will be as soon as one is. */
  ghost predicate NextFits(trees: seq<ServiceTree>, m: Queues, next: Option<Id>, byTurn: bool) {
    && (next.None? <==> AllEmpty(trees))
    && (next.Some? ==>
          && next.value in m && m[next.value].place == OnActive && m[next.value].cls < |trees|
          && Foremost(trees, m[next.value].cls, byTurn) && Soonest(trees[m[next.value].cls], m[next.value]))
  }

  /** It stays right while queues leave the trees and virtual times grow. */
  lemma NextKept(trees: seq<ServiceTree>, trees': seq<ServiceTree>, m: Queues, m': Queues, next: Option<Id>,
                 byTurn: bool)
    requires NextFits(trees, m, next, byTurn) && Shrunk(trees, trees') && TreesOk(trees', m')
    requires next.Some? ==> next.value in m' && m'[next.value].place == OnActive
                            && m'[next.value].cls == m[next.value].cls && m'[next.value].start == m[next.value].start
    ensures NextFits(trees', m', next, byTurn)
  {
    ShrunkNone(trees, trees');
    if next.Some? {
      var c := m[next.value].cls;
      assert TreeOk(trees'[c], m', c);
      HoldsKey(trees'[c].active, m', c, OnActive, next.value);
      assert ShrunkTree(trees[c], trees'[c]);
      SoonestKept(trees[c], trees'[c], m[next.value]);
      ForemostKept(trees, trees', c, byTurn);
    }
  }

  /** The only waiting queue of a class is as soon as any. */
  lemma AloneSoonest(trees: seq<ServiceTree>, m: Queues, k: Id)
    requires TreesOk(trees, m) && k in m && m[k].place == OnActive && m[k].cls < CLASSES
    requires forall j :: j in m && j != k ==> m[j].place != OnActive
    ensures Soonest(trees[m[k].cls], m[k])
  {
    var c := m[k].cls;
    assert TreeOk(trees[c], m, c);
    HoldsKey(trees[c].active, m, c, OnActive, k);
    var x := MinStartAttained(trees[c].active);
    ItemsInOrder(trees[c].active, x);
    WantMember(m, c, OnActive, x);
  }

  /** Where all active trees are empty no queue waits. */
  lemma NoneWaits(trees: seq<ServiceTree>, m: Queues, serving: Option<Id>, owner: Option<Id>, j: Id)
    requires TreesOk(trees, m) && QueuesOk(m, serving, owner, None) && AllEmpty(trees) && j in m
    ensures m[j].place != OnActive
  {
    if m[j].place == OnActive {
      ActiveSome(trees, m, j, serving, owner);
    }
  }

  /** The queue next_in_service is eligible exactly if some queue of its class is. */
  lemma NextEligible(trees: seq<ServiceTree>, m: Queues, next: Option<Id>, byTurn: bool)
    requires TreesOk(trees, m) && NextFits(trees, m, next, byTurn) && next.Some?
    ensures var c := m[next.value].cls;
            m[next.value].start <= trees[c].vtime <==>
              exists j :: j in m && In(m[j], c, OnActive) && m[j].start <= trees[c].vtime
  {
    var k := next.value;
    var c := m[k].cls;
    assert In(m[k], c, OnActive);
    if j :| j in m && In(m[j], c, OnActive) && m[j].start <= trees[c].vtime {
      assert TreeOk(trees[c], m, c);
      HoldsKey(trees[c].active, m, c, OnActive, j);
      ItemsInOrder(trees[c].active, ItemOf(j, m[j]));
      MinStartLower(trees[c].active, ItemOf(j, m[j]));
    }
  }

  /** A queue that came back and is eligible, or found all trees empty. */
  lemma CameSoonest(trees: seq<ServiceTree>, trees': seq<ServiceTree>, m: Queues, k: Id, q: Queue,
                    serving: Option<Id>, owner: Option<Id>)
    requires TreesOk(trees, m) && QueuesOk(m, serving, owner, None) && TreesOk(trees', m[k := q])
    requires k in m && q.place == OnActive && q.cls < CLASSES
    requires AllEmpty(trees) || q.start <= trees'[q.cls].vtime
    ensures Soonest(trees'[q.cls], q)
  {
    var m' := m[k := q];
    if AllEmpty(trees) {
      forall j | j in m' && j != k ensures m'[j].place != OnActive {
        NoneWaits(trees, m, serving, owner, j);
      }
      AloneSoonest(trees', m', k);
    } else {
      assert TreeOk(trees'[q.cls], m', q.cls);
      HoldsKey(trees'[q.cls].active, m', q.cls, OnActive, k);
    }
  }

  /** No active tree but that of class `c` has become non-empty. */
  ghost predicate FilledAt(trees: seq<ServiceTree>, trees': seq<ServiceTree>, c: nat) {
    |trees'| == |trees| && forall d :: 0 <= d < |trees| && d != c && trees[d].active.Leaf? ==> trees'[d].active.Leaf?
  }

  lemma NoneThenAt(trees: seq<ServiceTree>, trees': seq<ServiceTree>, trees'': seq<ServiceTree>, c: nat)
    requires NoneFilled(trees, trees') && FilledAt(trees', trees'', c)
    ensures FilledAt(trees, trees'', c)
  {
    forall d | 0 <= d < |trees| && d != c && trees[d].active.Leaf? ensures trees''[d].active.Leaf? {
      assert trees'[d].active.Leaf?;
    }
  }

  /** Filling class `c` itself does not put anything before it. */
  lemma ForemostFilled(trees: seq<ServiceTree>, trees': seq<ServiceTree>, c: nat, byTurn: bool)
    requires FilledAt(trees, trees', c) && c <= |trees| && (AllEmpty(trees) || Foremost(trees, c, byTurn))
    ensures Foremost(trees', c, byTurn)
  {
  }
}
