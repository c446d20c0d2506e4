/** The queues of the B-WF2Q+ scheduler over one level, as values: three service classes, each with an
    active tree, an idle tree, a virtual time and a weight sum; what the trees hold, weights, timestamps,
    references and busy counts. */
module SchedulerQueues {
  import opened Basics
  import opened FinishTree

  const CLASSES: nat := 3
  const IDLE_CLASS: nat := 2
  const MIN_WEIGHT: int := 1
  const MAX_WEIGHT: int := 1000
  /** 2^WFQ_SERVICE_SHIFT. */
  const SERVICE_UNIT: int := 0x40_0000

  type Id = nat

  /** The tree an entity is linked into (entity->tree). */
  datatype Place = Off | OnActive | OnIdle

  /** A queue with its scheduling entity. `users` counts the references that are not the
      service reference; the C code has only the sum `refs`. */
  datatype Queue = Queue(
    weight: int, origWeight: int, newWeight: int, prioChanged: bool, wrCoeff: int,
    cls: nat, newCls: nat,
    start: int, finish: int, service: int, budget: int,
    place: Place, onStOrInServ: bool, busy: bool,
    refs: int, users: int)

  datatype ServiceTree = ServiceTree(
    active: Tree<Id>, idle: Tree<Id>, firstIdle: Option<Id>, lastIdle: Option<Id>,
    vtime: int, wsum: int)

  type Queues = map<Id, Queue>

  /** bfq_delta. */
  function Delta(service: int, weight: int): (d: int)
    requires service >= 0 && weight > 0
    ensures d >= 0
  {
    service * SERVICE_UNIT / weight
  }

  /** Virtual time moves by the service over the weight, in units of 2^-22 sectors, rounded down. */
  ghost predicate Paid(service: int, weight: int, advance: int) {
    0 <= service * 0x40_0000 - weight * advance < weight
  }

  lemma DeltaPaid(service: int, weight: int)
    requires service >= 0 && weight > 0
    ensures Paid(service, weight, Delta(service, weight))
  {
    DivBetween(service * SERVICE_UNIT, weight);
  }

  // ---------------------------------------------------------------- sums over all queues

  /** What is summed: the weight of scheduled queues of a class, or one for each busy queue. */
  datatype Gauge = WeightOf(c: nat) | Busy

  function Read(g: Gauge, q: Queue): (n: int) {
    match g
    case WeightOf(c) => if q.onStOrInServ && q.cls == c then q.weight else 0
    case Busy => if q.busy then 1 else 0
  }

  ghost function Total(m: Queues, g: Gauge): (n: int)
    decreases |m|
  {
    if m == map[] then 0
    else
      var k :| k in m;
      assert |m - {k}| < |m| by { DropSize(m, k); }
      Read(g, m[k]) + Total(m - {k}, g)
  }

  lemma DropSize(m: Queues, k: Id)
    requires k in m
    ensures |m - {k}| == |m| - 1
  {
    assert (m - {k}).Keys == m.Keys - {k};
    assert |(m - {k}).Keys| == |m.Keys| - 1;
  }

  /** Any queue can be the one taken out first. */
  lemma {:induction false} TotalAt(m: Queues, g: Gauge, k: Id)
    requires k in m
    ensures Total(m, g) == Read(g, m[k]) + Total(m - {k}, g)
    decreases |m|
  {
    var j :| j in m && Total(m, g) == Read(g, m[j]) + Total(m - {j}, g);
    if j != k {
      DropSize(m, j);
      DropSize(m, k);
      TotalAt(m - {j}, g, k);
      TotalAt(m - {k}, g, j);
      assert (m - {j}) - {k} == (m - {k}) - {j};
    }
  }

  lemma TotalSet(m: Queues, g: Gauge, k: Id, q: Queue)
    ensures k in m ==> Total(m[k := q], g) == Total(m, g) - Read(g, m[k]) + Read(g, q)
    ensures k !in m ==> Total(m[k := q], g) == Total(m, g) + Read(g, q)
  {
    TotalAt(m[k := q], g, k);
    assert m[k := q] - {k} == m - {k};
    if k in m {
      TotalAt(m, g, k);
    } else {
      assert m - {k} == m;
    }
  }

  lemma {:induction false} TotalNone(m: Queues, g: Gauge)
    requires forall k :: k in m ==> Read(g, m[k]) == 0
    ensures Total(m, g) == 0
    decreases |m|
  {
    if k :| k in m {
      TotalAt(m, g, k);
      DropSize(m, k);
      TotalNone(m - {k}, g);
    }
  }

  lemma {:induction false} TotalLower(m: Queues, g: Gauge, k: Id)
    requires k in m && forall j :: j in m ==> Read(g, m[j]) >= 0
    ensures Total(m, g) >= Read(g, m[k])
    decreases |m|
  {
    TotalAt(m, g, k);
    DropSize(m, k);
    if j :| j in m - {k} {
      TotalLower(m - {k}, g, j);
    }
  }

  // ---------------------------------------------------------------- trees against queues

  predicate In(q: Queue, c: nat, p: Place) {
    q.place == p && q.cls == c
  }

  function ItemOf(k: Id, q: Queue): (x: Item<Id>) {
    Item(k, q.start, q.finish)
  }

  /** The items a tree of class `c` must hold. */
  ghost function Want(m: Queues, c: nat, p: Place): (s: set<Item<Id>>) {
    set k | k in m && In(m[k], c, p) :: ItemOf(k, m[k])
  }

  /** Tree `t` holds exactly the queues of class `c` whose place is `p`, under their own keys. */
  ghost predicate Holds(t: Tree<Id>, m: Queues, c: nat, p: Place) {
    Unique(t) && Sorted(t) && Items(t) == Want(m, c, p)
  }

  lemma WantMember(m: Queues, c: nat, p: Place, x: Item<Id>)
    ensures x in Want(m, c, p) <==> x.k in m && In(m[x.k], c, p) && x == ItemOf(x.k, m[x.k])
  {
  }

  lemma HoldsKey(t: Tree<Id>, m: Queues, c: nat, p: Place, k: Id)
    requires Holds(t, m, c, p)
    ensures k in Keys(t) <==> k in m && In(m[k], c, p)
    ensures k in Keys(t) ==> ItemOf(k, m[k]) in Items(t)
  {
    if k in Keys(t) {
      var x := KeyItem(t, k);
      WantMember(m, c, p, x);
    }
    if k in m && In(m[k], c, p) {
      WantMember(m, c, p, ItemOf(k, m[k]));
      ItemsInOrder(t, ItemOf(k, m[k]));
    }
  }

  /** A change that this tree's items do not show. */
  lemma WantSame(m: Queues, c: nat, p: Place, k: Id, q: Queue)
    requires k in m && (In(q, c, p) <==> In(m[k], c, p)) && (In(q, c, p) ==> ItemOf(k, q) == ItemOf(k, m[k]))
    ensures Want(m[k := q], c, p) == Want(m, c, p)
  {
    forall x ensures x in Want(m[k := q], c, p) <==> x in Want(m, c, p) {
      WantMember(m, c, p, x);
      WantMember(m[k := q], c, p, x);
    }
  }

  lemma WantEnter(m: Queues, c: nat, p: Place, k: Id, q: Queue)
    requires k in m && !In(m[k], c, p) && In(q, c, p)
    ensures Want(m[k := q], c, p) == Want(m, c, p) + {ItemOf(k, q)}
  {
    forall x ensures x in Want(m[k := q], c, p) <==> x in Want(m, c, p) + {ItemOf(k, q)} {
      WantMember(m, c, p, x);
      WantMember(m[k := q], c, p, x);
    }
  }

  lemma WantLeave(m: Queues, c: nat, p: Place, k: Id, q: Queue)
    requires k in m && In(m[k], c, p) && !In(q, c, p)
    ensures Want(m[k := q], c, p) == Want(m, c, p) - {ItemOf(k, m[k])}
  {
    forall x ensures x in Want(m[k := q], c, p) <==> x in Want(m, c, p) - {ItemOf(k, m[k])} {
      WantMember(m, c, p, x);
      WantMember(m[k := q], c, p, x);
    }
  }

  lemma WantDrop(m: Queues, c: nat, p: Place, k: Id)
    requires k in m && !In(m[k], c, p)
    ensures Want(m - {k}, c, p) == Want(m, c, p)
  {
    forall x ensures x in Want(m - {k}, c, p) <==> x in Want(m, c, p) {
      WantMember(m, c, p, x);
      WantMember(m - {k}, c, p, x);
    }
  }

  lemma HoldsInsert(t: Tree<Id>, m: Queues, c: nat, p: Place, k: Id, q: Queue)
    requires Holds(t, m, c, p) && k in m && !In(m[k], c, p) && In(q, c, p)
    ensures k !in Keys(t) && Holds(Insert(t, ItemOf(k, q)), m[k := q], c, p)
  {
    HoldsKey(t, m, c, p, k);
    InsertFacts(t, ItemOf(k, q));
    WantEnter(m, c, p, k, q);
  }

  lemma HoldsRemove(t: Tree<Id>, m: Queues, c: nat, p: Place, k: Id, q: Queue)
    requires Holds(t, m, c, p) && k in m && In(m[k], c, p) && !In(q, c, p)
    ensures Holds(Remove(t, k), m[k := q], c, p)
  {
    HoldsKey(t, m, c, p, k);
    RemoveFacts(t, ItemOf(k, m[k]));
    WantLeave(m, c, p, k, q);
  }

  // ---------------------------------------------------------------- edits of one service tree

  function ActiveInserted(st: ServiceTree, k: Id, q: Queue): (r: ServiceTree) {
    st.(active := Insert(st.active, ItemOf(k, q)))
  }

  function ActiveExtracted(st: ServiceTree, k: Id): (r: ServiceTree) {
    st.(active := Remove(st.active, k))
  }

  function WithSum(st: ServiceTree, w: int): (r: ServiceTree) {
    st.(wsum := w)
  }

  function At(q: Queue, p: Place): (r: Queue) {
    q.(place := p)
  }

  /** bfq_idle_insert. */
  function IdleInserted(st: ServiceTree, m: Queues, k: Id, q: Queue): (r: ServiceTree)
    requires st.firstIdle.Some? ==> st.firstIdle.value in m
    requires st.lastIdle.Some? ==> st.lastIdle.value in m
  {
    var first := if st.firstIdle.None? || m[st.firstIdle.value].finish > q.finish then Some(k) else st.firstIdle;
    var last := if st.lastIdle.None? || q.finish > m[st.lastIdle.value].finish then Some(k) else st.lastIdle;
    st.(idle := Insert(st.idle, ItemOf(k, q)), firstIdle := first, lastIdle := last)
  }

  /** bfq_idle_extract. */
  function IdleExtracted(st: ServiceTree, k: Id): (r: ServiceTree) {
    var first := if st.firstIdle == Some(k) then NextKey(InOrder(st.idle), k) else st.firstIdle;
    var last := if st.lastIdle == Some(k) then PrevKey(InOrder(st.idle), k) else st.lastIdle;
    st.(idle := Remove(st.idle, k), firstIdle := first, lastIdle := last)
  }

  /** first_idle is the leftmost idle entity; last_idle, if set, is some idle entity. */
  ghost predicate EndsOk(st: ServiceTree) {
    && st.firstIdle == (if st.idle.Leaf? then None else Some(First(st.idle).k))
    && (st.lastIdle.Some? ==> st.lastIdle.value in Keys(st.idle))
  }

  /** One service tree agrees with the queues of its class. */
  ghost predicate TreeOk(st: ServiceTree, m: Queues, c: nat) {
    && Holds(st.active, m, c, OnActive)
    && Holds(st.idle, m, c, OnIdle)
    && EndsOk(st)
    && st.wsum == Total(m, WeightOf(c))
  }

  ghost predicate TreesOk(trees: seq<ServiceTree>, m: Queues) {
    |trees| == CLASSES && forall c {:trigger TreeOk(trees[c], m, c)} :: 0 <= c < CLASSES ==> TreeOk(trees[c], m, c)
  }

  lemma EndsInMap(st: ServiceTree, m: Queues, c: nat)
    requires TreeOk(st, m, c)
    ensures st.firstIdle.Some? ==> st.firstIdle.value in m && In(m[st.firstIdle.value], c, OnIdle)
    ensures st.lastIdle.Some? ==> st.lastIdle.value in m && In(m[st.lastIdle.value], c, OnIdle)
    ensures st.idle.Node? ==>
              var x := First(st.idle); x.k in m && m[x.k].finish == x.finish && m[x.k].start == x.start
  {
    if st.idle.Node? {
      FirstIsHead(st.idle);
      ItemsInOrder(st.idle, First(st.idle));
      WantMember(m, c, OnIdle, First(st.idle));
    }
    if st.lastIdle.Some? {
      HoldsKey(st.idle, m, c, OnIdle, st.lastIdle.value);
    }
  }

  /** A queue changes in a way no tree of class `c` sees. */
  lemma TreeUntouched(st: ServiceTree, w: int, m: Queues, c: nat, k: Id, q: Queue)
    requires TreeOk(st, m, c) && k in m
    requires w == st.wsum - Read(WeightOf(c), m[k]) + Read(WeightOf(c), q)
    requires !In(m[k], c, OnActive) && !In(m[k], c, OnIdle) && !In(q, c, OnActive) && !In(q, c, OnIdle)
    ensures TreeOk(WithSum(st, w), m[k := q], c)
  {
    WantSame(m, c, OnActive, k, q);
    WantSame(m, c, OnIdle, k, q);
    TotalSet(m, WeightOf(c), k, q);
  }

  lemma TreeActiveInsert(st: ServiceTree, m: Queues, c: nat, k: Id, q: Queue)
    requires TreeOk(st, m, c) && k in m && m[k].place == Off && m[k].cls == c
    requires q == At(m[k], OnActive)
    ensures TreeOk(ActiveInserted(st, k, q), m[k := q], c)
  {
    HoldsInsert(st.active, m, c, OnActive, k, q);
    WantSame(m, c, OnIdle, k, q);
    TotalSet(m, WeightOf(c), k, q);
  }

  lemma TreeActiveExtract(st: ServiceTree, m: Queues, c: nat, k: Id, q: Queue)
    requires TreeOk(st, m, c) && k in m && In(m[k], c, OnActive)
    requires q == At(m[k], Off)
    ensures TreeOk(ActiveExtracted(st, k), m[k := q], c)
  {
    HoldsRemove(st.active, m, c, OnActive, k, q);
    WantSame(m, c, OnIdle, k, q);
    TotalSet(m, WeightOf(c), k, q);
  }

  lemma EndsIdleInsert(st: ServiceTree, m: Queues, c: nat, k: Id, q: Queue)
    requires TreeOk(st, m, c) && k !in Keys(st.idle)
    ensures st.firstIdle.Some? ==> st.firstIdle.value in m
    ensures st.lastIdle.Some? ==> st.lastIdle.value in m
    ensures EndsOk(IdleInserted(st, m, k, q))
  {
    EndsInMap(st, m, c);
    FirstAfterInsert(st.idle, ItemOf(k, q));
    InsertUnique(st.idle, ItemOf(k, q));
  }

  lemma TreeIdleInsert(st: ServiceTree, m: Queues, c: nat, k: Id, q: Queue)
    requires TreeOk(st, m, c) && k in m && m[k].place == Off && m[k].cls == c
    requires q == At(m[k], OnIdle)
    ensures st.firstIdle.Some? ==> st.firstIdle.value in m
    ensures st.lastIdle.Some? ==> st.lastIdle.value in m
    ensures TreeOk(IdleInserted(st, m, k, q), m[k := q], c)
  {
    HoldsInsert(st.idle, m, c, OnIdle, k, q);
    EndsIdleInsert(st, m, c, k, q);
    WantSame(m, c, OnActive, k, q);
    TotalSet(m, WeightOf(c), k, q);
  }

  lemma EndsIdleExtract(st: ServiceTree, k: Id)
    requires EndsOk(st) && Unique(st.idle) && k in Keys(st.idle)
    ensures EndsOk(IdleExtracted(st, k))
  {
    FirstAfterRemove(st.idle, k);
    RemoveKeys(st.idle, k);
    UniqueDistinct(st.idle);
    if PrevKey(InOrder(st.idle), k).Some? {
      PrevKeyMember(InOrder(st.idle), k);
    }
  }

  lemma TreeIdleExtract(st: ServiceTree, m: Queues, c: nat, k: Id, q: Queue)
    requires TreeOk(st, m, c) && k in m && In(m[k], c, OnIdle)
    requires q == At(m[k], Off)
    ensures TreeOk(IdleExtracted(st, k), m[k := q], c)
  {
    HoldsKey(st.idle, m, c, OnIdle, k);
    EndsIdleExtract(st, k);
    HoldsRemove(st.idle, m, c, OnIdle, k, q);
    WantSame(m, c, OnActive, k, q);
    TotalSet(m, WeightOf(c), k, q);
  }

  /** A queue that no tree holds and that carries no weight disappears. */
  lemma TreeDrop(st: ServiceTree, m: Queues, c: nat, k: Id)
    requires TreeOk(st, m, c) && k in m && m[k].place == Off && !m[k].onStOrInServ
    ensures TreeOk(st, m - {k}, c)
  {
    WantDrop(m, c, OnActive, k);
    WantDrop(m, c, OnIdle, k);
    TotalAt(m, WeightOf(c), k);
  }

  /** A change of a queue that leaves place, class, weight and, on a tree, the keys alone. */
  lemma TreesSame(trees: seq<ServiceTree>, m: Queues, k: Id, q: Queue)
    requires TreesOk(trees, m) && k in m
    requires q.place == m[k].place && q.cls == m[k].cls && q.weight == m[k].weight
    requires q.onStOrInServ == m[k].onStOrInServ
    requires q.place == Off || (q.start == m[k].start && q.finish == m[k].finish)
    ensures TreesOk(trees, m[k := q])
  {
    forall c | 0 <= c < CLASSES ensures TreeOk(trees[c], m[k := q], c) {
      assert TreeOk(trees[c], m, c);
      WantSame(m, c, OnActive, k, q);
      WantSame(m, c, OnIdle, k, q);
      TotalSet(m, WeightOf(c), k, q);
    }
  }

  /** A queue moves between trees of its own class: the other classes do not notice. */
  lemma TreesMove(trees: seq<ServiceTree>, m: Queues, k: Id, q: Queue, st: ServiceTree)
    requires TreesOk(trees, m) && k in m && q.cls == m[k].cls < CLASSES
    requires TreeOk(st, m[k := q], q.cls)
    ensures TreesOk(trees[q.cls := st], m[k := q])
  {
    forall c | 0 <= c < CLASSES && c != q.cls ensures TreeOk(trees[c], m[k := q], c) {
      TreeUntouched(trees[c], trees[c].wsum, m, c, k, q);
      assert WithSum(trees[c], trees[c].wsum) == trees[c];
    }
  }

  // ---------------------------------------------------------------- the queues

  /** The weight is the base weight times the weight-raising factor, unless a change is pending. */
  ghost predicate WeightOk(q: Queue) {
    q.prioChanged || (q.weight == q.origWeight * q.wrCoeff && q.newWeight == q.origWeight && q.newCls == q.cls)
  }

  ghost predicate QueueOk(k: Id, q: Queue, serving: Option<Id>, owner: Option<Id>, limbo: Option<Id>) {
    && q.weight > 0 && MIN_WEIGHT <= q.origWeight <= MAX_WEIGHT && q.wrCoeff >= 1 && WeightOk(q)
    && q.cls < CLASSES && q.newCls < CLASSES
    && q.service >= 0 && q.budget >= 0 && q.users >= 0
    && !(q.place == OnIdle && q.busy)
    && (q.onStOrInServ <==> q.place != Off || serving == Some(k) || limbo == Some(k))
    && q.refs == q.users + (if q.onStOrInServ || owner == Some(k) then 1 else 0)
    && q.refs > 0
  }

  /** Every queue is well formed. `limbo` names a queue that an operation has taken off its tree
      and not yet put back or forgotten. */
  ghost predicate QueuesOk(m: Queues, serving: Option<Id>, owner: Option<Id>, limbo: Option<Id>) {
    && (forall k {:trigger QueueOk(k, m[k], serving, owner, limbo)} ::
          k in m ==> QueueOk(k, m[k], serving, owner, limbo))
    && (serving.Some? ==> serving.value in m)
    && (owner.Some? ==> owner.value in m)
    && (limbo.Some? ==> limbo.value in m)
  }

  /** A change of one queue; the others are well formed as before. */
  lemma QueuesSet(m: Queues, serving: Option<Id>, owner: Option<Id>, limbo: Option<Id>, limbo': Option<Id>,
                  k: Id, q: Queue)
    requires QueuesOk(m, serving, owner, limbo) && k in m
    requires limbo == limbo' || (limbo == Some(k) && limbo' == None) || (limbo == None && limbo' == Some(k))
    requires QueueOk(k, q, serving, owner, limbo')
    ensures QueuesOk(m[k := q], serving, owner, limbo')
  {
    var m' := m[k := q];
    forall j | j in m' ensures QueueOk(j, m'[j], serving, owner, limbo') {
      if j != k {
        assert QueueOk(j, m[j], serving, owner, limbo);
      }
    }
  }

  lemma Overwrite(m: Queues, k: Id, q: Queue, q': Queue)
    ensures m[k := q][k := q'] == m[k := q']
  {
  }

  /** bfq_put_queue: the last reference frees the queue. */
  function PutQueue(m: Queues, k: Id): (r: Queues)
    requires k in m
  {
    if m[k].refs == 1 then m - {k} else m[k := m[k].(refs := m[k].refs - 1)]
  }

  /** A forgotten queue that something else still refers to. */
  function Dropped(q: Queue): (r: Queue) {
    q.(place := Off, onStOrInServ := false, refs := q.refs - 1)
  }

  function Unweighted(trees: seq<ServiceTree>, q: Queue): (r: seq<ServiceTree>)
    requires q.cls < |trees|
  {
    trees[q.cls := WithSum(trees[q.cls], trees[q.cls].wsum - q.weight)]
  }

  lemma TreesForget(trees: seq<ServiceTree>, m: Queues, k: Id)
    requires TreesOk(trees, m) && k in m && m[k].place == Off && m[k].onStOrInServ && m[k].cls < CLASSES
    ensures TreesOk(Unweighted(trees, m[k]), m[k := m[k].(onStOrInServ := false)])
  {
    var c, q := m[k].cls, m[k].(onStOrInServ := false);
    var w := trees[c].wsum - m[k].weight;
    TreeUntouched(trees[c], w, m, c, k, q);
    assert Unweighted(trees, m[k]) == trees[q.cls := WithSum(trees[c], w)];
    TreesMove(trees, m, k, q, WithSum(trees[c], w));
  }

  lemma TreesPut(trees: seq<ServiceTree>, m: Queues, k: Id)
    requires TreesOk(trees, m) && k in m && m[k].place == Off && !m[k].onStOrInServ
    ensures TreesOk(trees, PutQueue(m, k))
  {
    if m[k].refs == 1 {
      forall d | 0 <= d < CLASSES ensures TreeOk(trees[d], m - {k}, d) {
        TreeDrop(trees[d], m, d, k);
      }
    } else {
      TreesSame(trees, m, k, m[k].(refs := m[k].refs - 1));
    }
  }

  /** bfq_forget_entity, seen from the map of queues. */
  function Forgotten(m: Queues, k: Id, isInService: bool): (r: Queues)
    requires k in m
  {
    var m' := m[k := m[k].(onStOrInServ := false)];
    if isInService then m' else PutQueue(m', k)
  }

  lemma QueuesForget(m: Queues, serving: Option<Id>, owner: Option<Id>, k: Id, isInService: bool)
    requires QueuesOk(m, serving, owner, Some(k)) && m[k].place == Off && serving != Some(k)
    requires isInService <==> owner == Some(k)
    ensures QueuesOk(Forgotten(m, k, isInService), serving, owner, None)
  {
    var r := Forgotten(m, k, isInService);
    assert QueueOk(k, m[k], serving, owner, Some(k));
    forall j | j in r ensures QueueOk(j, r[j], serving, owner, None) {
      assert QueueOk(j, m[j], serving, owner, Some(k));
    }
  }

  lemma ForgottenBusy(m: Queues, k: Id, isInService: bool)
    requires k in m && !m[k].busy
    ensures Total(Forgotten(m, k, isInService), Busy) == Total(m, Busy)
  {
    var q := m[k].(onStOrInServ := false);
    var m' := m[k := q];
    TotalSet(m, Busy, k, q);
    if !isInService {
      if q.refs == 1 {
        TotalAt(m', Busy, k);
      } else {
        TotalSet(m', Busy, k, q.(refs := q.refs - 1));
      }
    }
  }

  lemma TreesForgotten(trees: seq<ServiceTree>, m: Queues, k: Id, isInService: bool)
    requires TreesOk(trees, m) && k in m && m[k].place == Off && m[k].onStOrInServ && m[k].cls < CLASSES
    ensures TreesOk(Unweighted(trees, m[k]), Forgotten(m, k, isInService))
  {
    TreesForget(trees, m, k);
    if !isInService {
      TreesPut(Unweighted(trees, m[k]), m[k := m[k].(onStOrInServ := false)], k);
    }
  }

  /** At most some idle queues were forgotten. */
  ghost predicate Forgot(m: Queues, m': Queues) {
    && Total(m', Busy) == Total(m, Busy)
    && (forall k :: k in m && m[k].place != OnIdle ==> k in m' && m'[k] == m[k])
    && (forall k :: k in m' ==> k in m && (m'[k] == m[k] || (m[k].place == OnIdle && m'[k] == Dropped(m[k]))))
  }

  ghost predicate Elsewhere(m: Queues, m': Queues, k: Id) {
    forall j :: j != k ==> (j in m <==> j in m') && (j in m ==> m'[j] == m[j])
  }

  ghost predicate SameActive(trees: seq<ServiceTree>, trees': seq<ServiceTree>) {
    |trees'| == |trees| && forall c :: 0 <= c < |trees| ==> trees'[c].active == trees[c].active
  }

  lemma ElsewhereSet(m: Queues, k: Id, q: Queue)
    ensures Elsewhere(m, m[k := q], k)
  {
  }

  lemma ElsewhereForgotten(m: Queues, k: Id, q: Queue, isInService: bool)
    ensures Elsewhere(m, Forgotten(m[k := q], k, isInService), k)
  {
    var m' := m[k := q];
    Overwrite(m, k, q, q.(onStOrInServ := false));
  }

  /** No active tree has become non-empty. */
  ghost predicate NoneFilled(trees: seq<ServiceTree>, trees': seq<ServiceTree>) {
    |trees'| == |trees| && forall c :: 0 <= c < |trees| && trees[c].active.Leaf? ==> trees'[c].active.Leaf?
  }

  lemma SameNoneFilled(trees: seq<ServiceTree>, trees': seq<ServiceTree>, trees'': seq<ServiceTree>)
    requires NoneFilled(trees, trees') && SameActive(trees', trees'')
    ensures NoneFilled(trees, trees'')
  {
    forall c | 0 <= c < |trees| && trees[c].active.Leaf? ensures trees''[c].active.Leaf? {
      assert trees'[c].active.Leaf?;
    }
  }

  ghost predicate SameVtime(trees: seq<ServiceTree>, trees': seq<ServiceTree>) {
    |trees'| == |trees| && forall c :: 0 <= c < |trees| ==> trees'[c].vtime == trees[c].vtime
  }

  ghost predicate EmptyBetween(trees: seq<ServiceTree>, a: nat, b: nat) {
    b <= |trees| && forall d :: a <= d < b ==> trees[d].active.Leaf?
  }

  lemma EmptyExtend(trees: seq<ServiceTree>, a: nat, b: nat)
    requires EmptyBetween(trees, a, b) && b < |trees| && trees[b].active.Leaf?
    ensures EmptyBetween(trees, a, b + 1)
  {
  }

  ghost predicate AllEmpty(trees: seq<ServiceTree>) {
    forall c :: 0 <= c < |trees| ==> trees[c].active.Leaf?
  }

  // ---------------------------------------------------------------- weight and class updates

  function Clamp(w: int): (r: int)
    ensures MIN_WEIGHT <= r <= MAX_WEIGHT
    ensures MIN_WEIGHT <= w <= MAX_WEIGHT ==> r == w
  {
    if w < MIN_WEIGHT then MIN_WEIGHT else if w > MAX_WEIGHT then MAX_WEIGHT else w
  }

  /** __bfq_entity_update_weight_prio, what happens to the queue. */
  function Reprioritized(q: Queue, classToo: bool, trees: seq<ServiceTree>): (r: Queue)
    requires q.cls < |trees| && q.newCls < |trees|
  {
    if !q.prioChanged then q
    else
      var newWeight := if q.newWeight != q.origWeight then Clamp(q.newWeight) else q.newWeight;
      var cls := if classToo then q.newCls else q.cls;
      var weight := newWeight * q.wrCoeff;
      q.(newWeight := newWeight, origWeight := newWeight, weight := weight,
         cls := cls, prioChanged := cls != q.newCls,
         start := if cls != q.cls then trees[cls].vtime else q.start)
  }

  lemma ReprioritizedOk(k: Id, q: Queue, classToo: bool, trees: seq<ServiceTree>,
                        serving: Option<Id>, owner: Option<Id>, limbo: Option<Id>)
    requires QueueOk(k, q, serving, owner, limbo) && |trees| == CLASSES && q.place == Off
    ensures QueueOk(k, Reprioritized(q, classToo, trees), serving, owner, limbo)
  {
    var w := if q.newWeight != q.origWeight then Clamp(q.newWeight) else q.newWeight;
    Positive(w, q.wrCoeff);
  }

  lemma Positive(a: int, b: int)
    requires a >= 1 && b >= 1
    ensures a * b > 0
  {
  }

  /** The same, what happens to the weight sums. */
  function Reweighted(trees: seq<ServiceTree>, q: Queue, q': Queue): (r: seq<ServiceTree>)
    requires q.cls < |trees| && q'.cls < |trees|
  {
    var t := trees[q.cls := WithSum(trees[q.cls], trees[q.cls].wsum - q.weight)];
    t[q'.cls := WithSum(t[q'.cls], t[q'.cls].wsum + q'.weight)]
  }

  /** Moving a weight between classes keeps every sum exact, provided no tree holds the queue. */
  lemma TreesReweighted(trees: seq<ServiceTree>, m: Queues, k: Id, q: Queue)
    requires TreesOk(trees, m) && k in m && m[k].place == Off && q.place == Off
    requires m[k].onStOrInServ && q.onStOrInServ && m[k].cls < CLASSES && q.cls < CLASSES
    ensures TreesOk(Reweighted(trees, m[k], q), m[k := q])
    ensures SameActive(trees, Reweighted(trees, m[k], q))
  {
    var t := Reweighted(trees, m[k], q);
    forall c | 0 <= c < CLASSES ensures TreeOk(t[c], m[k := q], c) {
      var w := trees[c].wsum - Read(WeightOf(c), m[k]) + Read(WeightOf(c), q);
      assert t[c] == WithSum(trees[c], w);
      TreeUntouched(trees[c], w, m, c, k, q);
    }
  }

  // ---------------------------------------------------------------- timestamps

  /** A queue as it comes back to the active tree: it starts at the virtual time, but not before its
      last finish time if it is still idle; and if it was waited for, where it left off. */
  function Entering(q: Queue, vtime: int, nonBlocking: bool): (r: Queue) {
    var minStart := if nonBlocking && vtime > q.finish then q.finish else vtime;
    if q.place == OnIdle then q.(place := Off, start := if minStart > q.finish then minStart else q.finish)
    else q.(onStOrInServ := true, refs := q.refs + 1, start := minStart)
  }

  /** A queue that was served starts again where its service ends; one that waits keeps its start. */
  function Requeued(q: Queue, served: bool): (r: Queue)
    requires q.service >= 0 && q.weight > 0
  {
    if served then
      var finish := q.start + Delta(q.service, q.weight);
      q.(start := finish, finish := finish)
    else q.(place := Off)
  }

  /** A queue on its way out: it finishes where the service it received takes it. */
  function Leaving(q: Queue, served: bool): (r: Queue)
    requires q.service >= 0 && q.weight > 0
  {
    q.(place := Off, finish := q.start + Delta(q.service, q.weight), service := if served then q.service else 0)
  }

  /** The queues after `k` left: it waits on the idle tree if it may and its finish time is still ahead,
      and is forgotten otherwise. */
  function Departed(m: Queues, k: Id, served: bool, intoIdle: bool, vtime: int): (r: Queues)
    requires k in m && m[k].service >= 0 && m[k].weight > 0
  {
    var q := Leaving(m[k], served);
    if intoIdle && q.finish > vtime then m[k := At(q, OnIdle)] else Forgotten(m[k := q], k, served)
  }

  lemma PaidUnique(service: int, weight: int, a: int, b: int)
    requires Paid(service, weight, a) && Paid(service, weight, b)
    ensures a == b
  {
    if a < b {
      MulLe(weight, a + 1, b);
    } else if b < a {
      MulLe(weight, b + 1, a);
    }
  }

  /** Where a queue goes that stops being scheduled: with the finish time `f` at which it has paid for its
      service, it is idle exactly if it may be and `f` is after the virtual time, and otherwise on no tree,
      and freed exactly with its last reference. */
  lemma DepartedMeans(m: Queues, k: Id, served: bool, intoIdle: bool, vtime: int, f: int)
    requires k in m && m[k].service >= 0 && m[k].weight > 0 && Paid(m[k].service, m[k].weight, f - m[k].start)
    ensures var q, u := m[k], Departed(m, k, served, intoIdle, vtime);
            && Elsewhere(m, u, k)
            && if intoIdle && f > vtime then
                 k in u && u[k] == q.(place := OnIdle, finish := f, service := if served then q.service else 0)
               else
                 && (k !in u <==> !served && q.refs == 1)
                 && (k in u ==> u[k].place == Off && !u[k].onStOrInServ && u[k].finish == f
                                && u[k].refs == q.refs - if served then 0 else 1)
  {
    DeltaPaid(m[k].service, m[k].weight);
    PaidUnique(m[k].service, m[k].weight, f - m[k].start, Delta(m[k].service, m[k].weight));
    DepartedElsewhere(m, m[k], k, served, intoIdle, vtime);
    assert m[k := m[k]] == m;
  }

  lemma DepartedElsewhere(m: Queues, q: Queue, k: Id, served: bool, intoIdle: bool, vtime: int)
    requires q.service >= 0 && q.weight > 0
    ensures Elsewhere(m, Departed(m[k := q], k, served, intoIdle, vtime), k)
  {
    var n, r := m[k := q], Leaving(q, served);
    Overwrite(m, k, q, r);
    Overwrite(m, k, q, At(r, OnIdle));
    ElsewhereForgotten(m, k, r, served);
  }

  /** What bfq_update_fin_time_enqueue makes of a queue: new weight and class, a stretch of virtual
      time as long as its budget over its weight, and a back-shifted stretch that ends before the
      virtual time pushed up by its share of the gap. */
  ghost predicate Stamped(q0: Queue, backshifted: bool, trees: seq<ServiceTree>, q: Queue) {
    && q0.cls < |trees| && q0.newCls < |trees|
    && var b := Reprioritized(q0, true, trees);
       && b.cls < |trees| && b.weight > 0 && b.budget >= 0 && b.wrCoeff >= 1
       && var vtime, finish := trees[b.cls].vtime, b.start + Delta(b.budget, b.weight);
          && q == b.(place := OnActive, start := q.start, finish := q.finish)
          && q.finish == q.start + Delta(q.budget, q.weight)
          && q.start == b.start + if backshifted && vtime > finish then (vtime - finish) / b.wrCoeff else 0
  }

  /** Either way back to the active tree. */
  ghost predicate Returned(q: Queue, nonBlocking: bool, served: bool, trees: seq<ServiceTree>, r: Queue) {
    && q.cls < |trees| && q.service >= 0 && q.weight > 0
    && if served || q.place == OnActive then Stamped(Requeued(q, served), false, trees, r)
       else
         var vtime := trees[q.cls].vtime;
         Stamped(Entering(q, vtime, nonBlocking), nonBlocking && vtime > q.finish, trees, r)
  }

  /** A queue pays for its service when it is put back after it was served: its start moves by the service
      over the weight that it had, unless it changes class, where it starts at the virtual time. */
  ghost predicate Pays(q: Queue, trees: seq<ServiceTree>, r: Queue) {
    if r.cls == q.cls then Paid(q.service, q.weight, r.start - q.start)
    else r.cls < |trees| && r.start == trees[r.cls].vtime
  }

  lemma RequeuedPays(q: Queue, trees: seq<ServiceTree>, r: Queue)
    requires q.service >= 0 && q.weight > 0 && Stamped(Requeued(q, true), false, trees, r)
    ensures Pays(q, trees, r) && r.service == q.service
  {
    DeltaPaid(q.service, q.weight);
  }

  /** When a queue that was not on an active tree comes back: in another class it starts at the virtual
      time there. In its own it starts at the virtual time, but not before its last finish time if it was
      idle. If it was waited for and its finish time is past, it starts from that finish time, pushed up
      by the distance of its stretch to the virtual time over the weight-raising factor. */
  ghost predicate EntersAt(q: Queue, nonBlocking: bool, trees: seq<ServiceTree>, r: Queue) {
    && q.cls < |trees| && r.cls < |trees| && Paid(q.budget, r.weight, r.finish - r.start)
    && var vtime := trees[q.cls].vtime;
       if r.cls != q.cls then r.start == trees[r.cls].vtime
       else if nonBlocking && vtime > q.finish then
         var gap := vtime - (q.finish + r.finish - r.start);
         if gap <= 0 then r.start == q.finish else 0 <= gap - q.wrCoeff * (r.start - q.finish) < q.wrCoeff
       else r.start == if q.place == OnIdle then Max(q.finish, vtime) else vtime
  }

  lemma EnteringTimes(q: Queue, nonBlocking: bool, trees: seq<ServiceTree>, r: Queue)
    requires q.cls < |trees| && (!q.prioChanged ==> q.newCls == q.cls)
    requires var vtime := trees[q.cls].vtime;
             Stamped(Entering(q, vtime, nonBlocking), nonBlocking && vtime > q.finish, trees, r)
    ensures EntersAt(q, nonBlocking, trees, r)
  {
    var vtime := trees[q.cls].vtime;
    var e := Entering(q, vtime, nonBlocking);
    var b := Reprioritized(e, true, trees);
    DeltaPaid(b.budget, b.weight);
    var gap := trees[b.cls].vtime - (b.start + Delta(b.budget, b.weight));
    if gap > 0 {
      ShareOf(gap, b.wrCoeff);
    }
  }

  /** Pushing up never goes beyond the virtual time, and reaches it unless the weight is raised. */
  lemma StampedBounds(q0: Queue, backshifted: bool, trees: seq<ServiceTree>, q: Queue)
    requires Stamped(q0, backshifted, trees, q)
    ensures var b := Reprioritized(q0, true, trees);
            var vtime, finish := trees[b.cls].vtime, b.start + Delta(b.budget, b.weight);
            if backshifted && vtime > finish then
              b.start <= q.start && finish <= q.finish <= vtime && (b.wrCoeff == 1 ==> q.finish == vtime)
            else q.start == b.start && q.finish == finish
  {
    var b := Reprioritized(q0, true, trees);
    var gap := trees[b.cls].vtime - (b.start + Delta(b.budget, b.weight));
    if gap > 0 {
      ShareOf(gap, b.wrCoeff);
    }
  }

  lemma ShareOf(gap: int, n: int)
    requires gap >= 0 && n >= 1
    ensures 0 <= gap / n <= gap && (n == 1 ==> gap / n == gap) && 0 <= gap - n * (gap / n) < n
  {
    assert gap == n * (gap / n) + gap % n;
  }

  /** Only the virtual times of the trees matter for that. */
  lemma StampedSame(q0: Queue, backshifted: bool, trees: seq<ServiceTree>, trees': seq<ServiceTree>, q: Queue)
    requires Stamped(q0, backshifted, trees, q) && SameVtime(trees', trees) && |trees| == |trees'|
    ensures Stamped(q0, backshifted, trees', q)
  {
  }

  /** With an empty active tree the virtual time falls back to the last idle finish time. */
  ghost predicate FellBack(st: ServiceTree, m: Queues, vtime: int) {
    vtime == if st.active.Leaf? && st.lastIdle.Some? && st.lastIdle.value in m
                && m[st.lastIdle.value].finish <= st.vtime
             then m[st.lastIdle.value].finish else st.vtime
  }

  /** It is the smaller of the two then, and does not change while a queue waits. */
  lemma FellBackMeans(st: ServiceTree, m: Queues, vtime: int)
    requires FellBack(st, m, vtime)
    ensures st.active.Node? || st.lastIdle.None? ==> vtime == st.vtime
    ensures st.active.Leaf? && st.lastIdle.Some? && st.lastIdle.value in m ==>
              vtime == Min(st.vtime, m[st.lastIdle.value].finish)
  {
  }

  /** A queue leaves the idle tree for good. */
  function IdleForgotten(m: Queues, k: Id): (r: Queues)
    requires k in m
  {
    Forgotten(m[k := At(m[k], Off)], k, false)
  }

  lemma IdleForgottenForgot(m: Queues, k: Id)
    requires k in m && m[k].place == OnIdle && !m[k].busy
    ensures Forgot(m, IdleForgotten(m, k)) && Elsewhere(m, IdleForgotten(m, k), k)
    ensures k in IdleForgotten(m, k) ==> !IdleForgotten(m, k)[k].onStOrInServ
  {
    TotalSet(m, Busy, k, At(m[k], Off));
    ForgottenBusy(m[k := At(m[k], Off)], k, false);
  }

  /** The first idle queue is forgotten once it is in the past; nothing else happens. */
  ghost predicate FirstForgotten(st: ServiceTree, m: Queues, vtime: int, m': Queues) {
    m' == if st.firstIdle.Some? && st.firstIdle.value in m && m[st.firstIdle.value].finish <= vtime
          then IdleForgotten(m, st.firstIdle.value) else m
  }

  /** So a queue changes only if it is the first idle one and in the past, and then it loses the service
      reference, and is gone exactly if that was its last. */
  lemma FirstForgottenMeans(st: ServiceTree, m: Queues, vtime: int, m': Queues, k: Id)
    requires FirstForgotten(st, m, vtime, m') && k in m
    ensures if st.firstIdle == Some(k) && m[k].finish <= vtime then
              && (k !in m' <==> m[k].refs == 1)
              && (k in m' ==> m'[k] == m[k].(place := Off, onStOrInServ := false, refs := m[k].refs - 1))
            else k in m' && m'[k] == m[k]
  {
  }

  // ---------------------------------------------------------------- what validity means

  ghost predicate OnTree(trees: seq<ServiceTree>, k: Id) {
    exists c :: 0 <= c < |trees| && (k in Keys(trees[c].active) || k in Keys(trees[c].idle))
  }

  /** A queue is on at most one of the six trees. */
  lemma OneTree(trees: seq<ServiceTree>, m: Queues, k: Id, c: nat, d: nat)
    requires TreesOk(trees, m) && c < CLASSES && d < CLASSES
    ensures !(k in Keys(trees[c].active) && k in Keys(trees[d].idle))
    ensures k in Keys(trees[c].active) && k in Keys(trees[d].active) ==> c == d
    ensures k in Keys(trees[c].idle) && k in Keys(trees[d].idle) ==> c == d
  {
    assert TreeOk(trees[c], m, c) && TreeOk(trees[d], m, d);
    HoldsKey(trees[c].active, m, c, OnActive, k);
    HoldsKey(trees[d].active, m, d, OnActive, k);
    HoldsKey(trees[c].idle, m, c, OnIdle, k);
    HoldsKey(trees[d].idle, m, d, OnIdle, k);
  }

  /** on_st_or_in_serv is exact, and the service reference is held exactly while it is set. */
  lemma FlagExact(trees: seq<ServiceTree>, m: Queues, serving: Option<Id>, k: Id)
    requires TreesOk(trees, m) && QueuesOk(m, serving, serving, None) && k in m
    ensures m[k].onStOrInServ <==> OnTree(trees, k) || serving == Some(k)
    ensures m[k].refs == m[k].users + if OnTree(trees, k) || serving == Some(k) then 1 else 0
  {
    assert QueueOk(k, m[k], serving, serving, None);
    var c := m[k].cls;
    assert TreeOk(trees[c], m, c);
    HoldsKey(trees[c].active, m, c, OnActive, k);
    HoldsKey(trees[c].idle, m, c, OnIdle, k);
    if OnTree(trees, k) {
      var d :| 0 <= d < |trees| && (k in Keys(trees[d].active) || k in Keys(trees[d].idle));
      assert TreeOk(trees[d], m, d);
      HoldsKey(trees[d].active, m, d, OnActive, k);
      HoldsKey(trees[d].idle, m, d, OnIdle, k);
    }
  }

  // ---------------------------------------------------------------- last_idle

  /** What the declaration of last_idle says: it is an idle entity with the largest finish time. */
  ghost predicate LastIsMax(s: seq<Item<Id>>, last: Option<Id>) {
    if s == [] then last.None?
    else last.Some? && exists i :: 0 <= i < |s| && s[i].k == last.value && s[i].finish == s[|s| - 1].finish
  }

  lemma {:induction false} NeighboursAt(s: seq<Item<Id>>, i: nat)
    requires DistinctKeys(s) && i < |s|
    ensures Without(s, s[i].k) == s[..i] + s[i + 1..]
    ensures PrevKey(s, s[i].k) == if i == 0 then None else Some(s[i - 1].k)
  {
    if i == 0 {
      AbsentKept(s[1..], s[0].k);
    } else {
      KeySetAt(s[1..], i - 1);
      NeighboursAt(s[1..], i - 1);
      assert s[1..][i - 1] == s[i];
      if i >= 2 {
        KeySetAt(s[1..][1..], i - 2);
      }
      assert [s[0]] + (s[1..][..i - 1] + s[1..][i..]) == s[..i] + s[i + 1..];
    }
  }

  lemma {:induction false} KeySetAt(s: seq<Item<Id>>, i: nat)
    requires i < |s|
    ensures s[i].k in KeySet(s)
  {
    if i > 0 {
      KeySetAt(s[1..], i - 1);
    }
  }

  lemma {:induction false} AbsentKept(s: seq<Item<Id>>, k: Id)
    requires k !in KeySet(s)
    ensures Without(s, k) == s && PrevKey(s, k) == None
  {
    if s != [] {
      AbsentKept(s[1..], k);
      if |s| >= 2 {
        KeySetAt(s[1..], 0);
      }
    }
  }

  lemma LastIsMaxAt(r: seq<Item<Id>>, p: nat)
    requires p < |r| && forall j :: 0 <= j < |r| && r[j].k == r[p].k ==> j == p
    ensures LastIsMax(r, Some(r[p].k)) <==> r[p].finish == r[|r| - 1].finish
  {
  }

  lemma DropAt(s: seq<Item<Id>>, i: nat, r: seq<Item<Id>>, j: nat)
    requires i < |s| && r == s[..i] + s[i + 1..] && j < |s| - 1
    ensures r[j] == if j < i then s[j] else s[j + 1]
  {
  }

  /** Taking out position `i` and falling back to its left neighbour, when `i` held the largest
      finish time. */
  lemma LastAfterDrop(s: seq<Item<Id>>, i: nat, r: seq<Item<Id>>)
    requires 0 < i < |s| && s[i].finish == s[|s| - 1].finish && r == s[..i] + s[i + 1..]
    requires forall j :: 0 <= j < |s| && s[j].k == s[i - 1].k ==> j == i - 1
    ensures LastIsMax(r, Some(s[i - 1].k)) <==> i == |s| - 1 || s[i - 1].finish == s[i].finish
  {
    var n := |s| - 1;
    DropAt(s, i, r, i - 1);
    DropAt(s, i, r, n - 1);
    forall j | 0 <= j < n && r[j].k == r[i - 1].k ensures j == i - 1 {
      DropAt(s, i, r, j);
    }
    LastIsMaxAt(r, i - 1);
  }

  /** Extracting last_idle keeps that promise if and only if it was the only idle entity, or it was
      rightmost, or its left neighbour has the same finish time. */
  lemma LastIdleExact(st: ServiceTree, i: nat)
    requires Unique(st.idle) && Sorted(st.idle) && i < |InOrder(st.idle)|
    requires st.lastIdle == Some(InOrder(st.idle)[i].k) && LastIsMax(InOrder(st.idle), st.lastIdle)
    ensures var s := InOrder(st.idle);
            var r := IdleExtracted(st, s[i].k);
            LastIsMax(InOrder(r.idle), r.lastIdle) <==>
              (|s| == 1 || (i > 0 && (i == |s| - 1 || s[i - 1].finish == s[i].finish)))
  {
    var t := st.idle;
    var s := InOrder(t);
    RemoveInOrder(t, s[i].k);
    UniqueDistinct(t);
    NeighboursAt(s, i);
    DistinctAt(s, i);
    if i > 0 {
      DistinctAt(s, i - 1);
      LastAfterDrop(s, i, s[..i] + s[i + 1..]);
    }
  }

  /** In a sorted list that is some item which none finishes after. */
  lemma LastIsMaxMember(s: seq<Item<Id>>, x: Item<Id>)
    requires SortedItems(s) && x in s && forall y :: y in s ==> y.finish <= x.finish
    ensures LastIsMax(s, Some(x.k))
  {
    var i :| 0 <= i < |s| && s[i] == x;
    assert s[|s| - 1] in s;
    assert s[i].finish <= s[|s| - 1].finish;
  }

  lemma LastIsMaxItem(s: seq<Item<Id>>, last: Option<Id>) returns (x: Item<Id>)
    requires SortedItems(s) && LastIsMax(s, last) && last.Some? && s != []
    ensures x in s && x.k == last.value && forall y :: y in s ==> y.finish <= x.finish
  {
    var i :| 0 <= i < |s| && s[i].k == last.value && s[i].finish == s[|s| - 1].finish;
    x := s[i];
    forall y | y in s ensures y.finish <= x.finish {
      var j :| 0 <= j < |s| && s[j] == y;
      assert j < |s| - 1 ==> s[j].finish <= s[|s| - 1].finish;
    }
  }

  /** Inserting an idle entity keeps the promise always. */
  lemma LastIdleInserted(st: ServiceTree, m: Queues, c: nat, k: Id, q: Queue)
    requires TreeOk(st, m, c) && k !in Keys(st.idle) && LastIsMax(InOrder(st.idle), st.lastIdle)
    ensures st.firstIdle.Some? ==> st.firstIdle.value in m
    ensures st.lastIdle.Some? ==> st.lastIdle.value in m
    ensures var r := IdleInserted(st, m, k, q); LastIsMax(InOrder(r.idle), r.lastIdle)
  {
    EndsInMap(st, m, c);
    var it, s := ItemOf(k, q), InOrder(st.idle);
    var r := InOrder(Insert(st.idle, it));
    InsertFacts(st.idle, it);
    forall y ensures y in r <==> y in s || y == it {
      ItemsInOrder(Insert(st.idle, it), y);
      ItemsInOrder(st.idle, y);
    }
    if s == [] {
      LastIsMaxMember(r, it);
    } else {
      var x := LastIsMaxItem(s, st.lastIdle);
      ItemsInOrder(st.idle, x);
      WantMember(m, c, OnIdle, x);
      LastIsMaxMember(r, if it.finish > x.finish then it else x);
    }
  }

  lemma {:induction false} DistinctAt(s: seq<Item<Id>>, i: nat)
    requires DistinctKeys(s) && i < |s|
    ensures forall j :: 0 <= j < |s| && s[j].k == s[i].k ==> j == i
  {
    if i == 0 {
      forall j | 0 < j < |s| ensures s[j].k != s[0].k {
        KeySetAt(s[1..], j - 1);
      }
    } else {
      DistinctAt(s[1..], i - 1);
      KeySetAt(s[1..], i - 1);
      forall j | 0 <= j < |s| && s[j].k == s[i].k ensures j == i {
        if j > 0 {
          assert s[1..][j - 1] == s[j];
        }
      }
    }
  }

  /** It can be lost: of two idle entities with equal finish times the older one is last_idle, and
      when it is extracted last_idle becomes NULL although the other one is still there. */
  lemma LastIdleLost()
    ensures var a, b := Item(1, 0, 5), Item(2, 0, 5);
            var st := ServiceTree(Leaf, Node(Leaf, a, Node(Leaf, b, Leaf)), Some(1), Some(1), 0, 20);
            && EndsOk(st) && LastIsMax(InOrder(st.idle), st.lastIdle)
            && st.idle == Insert(Insert(Leaf, a), b)
            && IdleExtracted(st, 1).idle.Node? && IdleExtracted(st, 1).lastIdle == None
  {
    var a, b := Item(1, 0, 5), Item(2, 0, 5);
    var u := Node(Leaf, b, Leaf);
    var t := Node(Leaf, a, u);
    assert InOrder(u) == [b];
    assert InOrder(t) == [a, b];
    assert InOrder(t)[0].finish == InOrder(t)[1].finish;
    assert PrevKey([a, b], 1) == PrevKey([b], 1);
  }

  // ---------------------------------------------------------------- entering and leaving service

  lemma TreesCreate(trees: seq<ServiceTree>, m: Queues, k: Id, q: Queue)
    requires TreesOk(trees, m) && k !in m && q.place == Off && !q.onStOrInServ
    ensures TreesOk(trees, m[k := q])
  {
    forall c | 0 <= c < CLASSES ensures TreeOk(trees[c], m[k := q], c) {
      assert TreeOk(trees[c], m, c);
      assert m[k := q] - {k} == m;
      WantDrop(m[k := q], c, OnActive, k);
      WantDrop(m[k := q], c, OnIdle, k);
      TotalSet(m, WeightOf(c), k, q);
    }
  }

  lemma QueuesDrop(m: Queues, serving: Option<Id>, owner: Option<Id>, k: Id)
    requires QueuesOk(m, serving, owner, None) && serving != Some(k) && owner != Some(k)
    ensures QueuesOk(m - {k}, serving, owner, None)
  {
    var r := m - {k};
    forall j | j in r ensures QueueOk(j, r[j], serving, owner, None) {
      assert QueueOk(j, m[j], serving, owner, None);
    }
  }

  /** Entering service while still on the active tree: the flag stays exact. */
  lemma ServingActive(m: Queues, k: Id)
    requires QueuesOk(m, None, None, None) && k in m && m[k].place == OnActive
    ensures QueuesOk(m, Some(k), None, None)
  {
    forall j | j in m ensures QueueOk(j, m[j], Some(k), None, None) {
      assert QueueOk(j, m[j], None, None, None);
    }
  }

  /** The flag of a queue in service is set anyway. */
  lemma LimboServing(m: Queues, owner: Option<Id>, k: Id)
    requires QueuesOk(m, Some(k), owner, None) && k in m
    ensures QueuesOk(m, Some(k), owner, Some(k))
  {
    forall j | j in m ensures QueueOk(j, m[j], Some(k), owner, Some(k)) {
      assert QueueOk(j, m[j], Some(k), owner, None);
    }
  }

  lemma ServingLimbo(m: Queues, owner: Option<Id>, k: Id)
    requires QueuesOk(m, Some(k), owner, Some(k)) && k in m
    ensures QueuesOk(m, Some(k), owner, None)
  {
    forall j | j in m ensures QueueOk(j, m[j], Some(k), owner, None) {
      assert QueueOk(j, m[j], Some(k), owner, Some(k));
    }
  }

  /** And stays so while the queue is in nobody's hands. */
  lemma LimboAlone(m: Queues, owner: Option<Id>, k: Id)
    requires QueuesOk(m, Some(k), owner, Some(k)) && k in m
    ensures QueuesOk(m, None, owner, Some(k))
  {
    forall j | j in m ensures QueueOk(j, m[j], None, owner, Some(k)) {
      assert QueueOk(j, m[j], Some(k), owner, Some(k));
    }
  }

  lemma QueuesOwned(m: Queues, k: Id)
    requires QueuesOk(m, Some(k), None, None) && k in m
    ensures QueuesOk(m, Some(k), Some(k), None)
  {
    forall j | j in m ensures QueueOk(j, m[j], Some(k), Some(k), None) {
      assert QueueOk(j, m[j], Some(k), None, None);
    }
  }

  lemma QueuesUnserved(m: Queues, k: Id, serving: Option<Id>)
    requires QueuesOk(m, serving, Some(k), None) && k in m && m[k].onStOrInServ
    requires serving.None? || (serving == Some(k) && m[k].place == OnActive)
    ensures QueuesOk(m, None, None, None)
  {
    forall j | j in m ensures QueueOk(j, m[j], None, None, None) {
      assert QueueOk(j, m[j], serving, Some(k), None);
    }
  }

  lemma QueuesReleased(m: Queues, k: Id, serving: Option<Id>)
    requires QueuesOk(m, serving, Some(k), None) && k in m && !m[k].onStOrInServ
    requires serving.None? || (serving == Some(k) && m[k].place == OnActive)
    ensures QueuesOk(PutQueue(m, k), None, None, None)
  {
    var r := PutQueue(m, k);
    assert QueueOk(k, m[k], serving, Some(k), None);
    forall j | j in r ensures QueueOk(j, r[j], None, None, None) {
      assert QueueOk(j, m[j], serving, Some(k), None);
    }
  }

  /** A queue whose place is the active tree is on one. */
  lemma ActiveSome(trees: seq<ServiceTree>, m: Queues, k: Id, serving: Option<Id>, owner: Option<Id>)
    requires TreesOk(trees, m) && QueuesOk(m, serving, owner, None) && k in m && m[k].place == OnActive
    ensures !AllEmpty(trees)
  {
    assert QueueOk(k, m[k], serving, owner, None);
    assert TreeOk(trees[m[k].cls], m, m[k].cls);
    HoldsKey(trees[m[k].cls].active, m, m[k].cls, OnActive, k);
  }

  // ---------------------------------------------------------------- busy queues

  ghost predicate BusyFits(m: Queues, serving: Option<Id>) {
    forall k :: k in m ==> (m[k].busy <==> m[k].place == OnActive || serving == Some(k))
  }

  /** A queue comes back to the active tree and is then marked busy. */
  lemma EnterCounts(m: Queues, q: Queue, m': Queues, k: Id, serving: Option<Id>)
    requires BusyFits(m, serving) && k in m && !m[k].busy && Forgot(m[k := q], m')
    requires k in m' && m'[k] == q && q.place == OnActive && !q.busy
    ensures Total(m', Busy) == Total(m, Busy)
    ensures var b := q.(busy := true); BusyFits(m'[k := b], serving) && Forgot(m[k := b], m'[k := b])
  {
    var b := q.(busy := true);
    TotalSet(m, Busy, k, q);
    TotalSet(m, Busy, k, b);
    TotalSet(m', Busy, k, b);
  }

  /** A busy queue is put back on an active tree. */
  lemma ReplaceCounts(m: Queues, q: Queue, m': Queues, k: Id, serving: Option<Id>)
    requires BusyFits(m, serving) && k in m && m[k].busy && Forgot(m[k := q], m')
    requires k in m' && m'[k] == q && q.place == OnActive && q.busy
    ensures Total(m', Busy) == Total(m, Busy) && BusyFits(m', serving)
  {
    TotalSet(m, Busy, k, q);
  }

  lemma BusyOut(m: Queues, k: Id)
    requires BusyFits(m, Some(k)) && k in m && m[k].place == OnActive
    ensures BusyFits(m, None)
  {
  }

  lemma BusyLeave(m: Queues, m': Queues, k: Id, serving: Option<Id>)
    requires BusyFits(m, serving) && Elsewhere(m, m', k)
    requires k in m' ==> !m'[k].busy && m'[k].place != OnActive
    ensures BusyFits(m', if serving == Some(k) then None else serving)
  {
  }

  lemma BusyForgot(m: Queues, m': Queues, serving: Option<Id>)
    requires BusyFits(m, serving) && Forgot(m, m')
    ensures BusyFits(m', serving)
  {
  }

  lemma PutBusy(m: Queues, k: Id)
    requires k in m && !m[k].busy
    ensures Total(PutQueue(m, k), Busy) == Total(m, Busy)
  {
    if m[k].refs == 1 {
      TotalAt(m, Busy, k);
    } else {
      TotalSet(m, Busy, k, m[k].(refs := m[k].refs - 1));
    }
  }

  /** bfq_tot_busy_queues, before it is truncated to 32 bits. */
  function TotBusy(b: seq<nat>): (n: int)
    requires |b| == CLASSES
  {
    b[0] + b[1] + b[2]
  }

  predicate SameCount(a: int, b: int) {
    a % TWO32 == b % TWO32
  }

  function Bumped(b: seq<nat>, c: nat, d: int): (r: seq<nat>)
    requires c < |b|
  {
    b[c := (b[c] + d) % TWO32]
  }

  lemma Bump(b: seq<nat>, c: nat, d: int, n: int)
    requires |b| == CLASSES && c < CLASSES && SameCount(TotBusy(b), n)
    ensures SameCount(TotBusy(Bumped(b, c, d)), n + d)
  {
    var r := Bumped(b, c, d);
    var t := b[c] + d;
    assert t == (t / TWO32) * TWO32 + t % TWO32;
    assert TotBusy(b) + d == TotBusy(r) + (t / TWO32) * TWO32;
    ModShift(TotBusy(r), t / TWO32);
    ModAdd(TotBusy(b), n, d);
  }

  lemma ModShift(a: int, q: int)
    ensures SameCount(a + q * TWO32, a)
  {
    assert a + q * TWO32 == (a / TWO32 + q) * TWO32 + a % TWO32;
  }

  lemma ModAdd(a: int, b: int, d: int)
    requires SameCount(a, b)
    ensures SameCount(a + d, b + d)
  {
    var q := a / TWO32 - b / TWO32;
    assert a == b + q * TWO32;
    ModShift(b + d, q);
  }
}
