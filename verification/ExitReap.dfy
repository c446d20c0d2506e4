/** The end of untraced tasks: exit, reparenting, waiting and release, in any interleaving of the
    steps that hold the task-list lock; and the fault counters that move up the process tree. */
module ExitReap {
  import opened Basics

  /** The exit state of a task; a released task is gone from its thread group. */
  datatype Life = Running | Zombie | Dead | Released

  /** A thread: its process, its own fault counter, and how often it has been released. */
  datatype Task = Task(proc: nat, life: Life, faults: nat, releases: nat)

  /** A process, that is, what its threads share: the leader, the parent thread, the faults of its
      released threads, and those of the children it has waited for. Kept for the proofs: how often
      its parent was notified, how often of that because it was reparented, which process was told
      last, who waited for it, and all faults its threads ever made. */
  datatype Proc = Proc(leader: nat, parent: nat, faults: nat, childFaults: nat,
                       notified: nat, renotified: nat, told: Option<nat>, takenBy: Option<nat>, made: nat)

  /** All tasks and processes that ever were; the dead tasks whose release is due; and the processes
      that a waiter has claimed but not collected yet, with the waiting thread. */
  datatype State = State(tasks: seq<Task>, procs: seq<Proc>, releasing: set<nat>, claims: map<nat, nat>)

  /** thread_group_empty: all threads but the leader are released. */
  predicate Alone(tasks: seq<Task>, p: nat, leader: nat) {
    forall i :: 0 <= i < |tasks| && tasks[i].proc == p && i != leader ==> tasks[i].life == Released
  }

  // ---------------------------------------------------------------- sums

  function HeldBy(t: Task, p: nat): (n: nat) {
    if t.proc == p && t.life != Released then t.faults else 0
  }

  /** The faults still in the counters of the threads of `p`. */
  function Held(tasks: seq<Task>, p: nat): (n: nat) {
    if tasks == [] then 0 else Held(tasks[..|tasks| - 1], p) + HeldBy(tasks[|tasks| - 1], p)
  }

  /** All faults of a process and of those it has waited for, and they for, and so on. */
  function Total(q: Proc): (n: nat) {
    q.made + q.childFaults
  }

  function TakenFrom(q: Proc, p: nat): (n: nat) {
    if q.takenBy == Some(p) then Total(q) else 0
  }

  /** The totals of the processes that `p` has waited for. */
  function Taken(procs: seq<Proc>, p: nat): (n: nat) {
    if procs == [] then 0 else Taken(procs[..|procs| - 1], p) + TakenFrom(procs[|procs| - 1], p)
  }

  lemma {:induction false} HeldUpdate(tasks: seq<Task>, i: nat, t: Task, p: nat)
    requires i < |tasks|
    ensures Held(tasks[i := t], p) == Held(tasks, p) - HeldBy(tasks[i], p) + HeldBy(t, p)
  {
    var n := |tasks| - 1;
    if i < n {
      assert tasks[i := t][..n] == tasks[..n][i := t];
      HeldUpdate(tasks[..n], i, t, p);
    } else {
      assert tasks[i := t][..n] == tasks[..n];
    }
  }

  lemma HeldAdded(tasks: seq<Task>, t: Task, p: nat)
    ensures Held(tasks + [t], p) == Held(tasks, p) + HeldBy(t, p)
  {
    assert (tasks + [t])[..|tasks|] == tasks;
  }

  lemma {:induction false} TakenUpdate(procs: seq<Proc>, i: nat, q: Proc, p: nat)
    requires i < |procs|
    ensures Taken(procs[i := q], p) == Taken(procs, p) - TakenFrom(procs[i], p) + TakenFrom(q, p)
  {
    var n := |procs| - 1;
    if i < n {
      assert procs[i := q][..n] == procs[..n][i := q];
      TakenUpdate(procs[..n], i, q, p);
    } else {
      assert procs[i := q][..n] == procs[..n];
    }
  }

  lemma TakenAdded(procs: seq<Proc>, q: Proc, p: nat)
    ensures Taken(procs + [q], p) == Taken(procs, p) + TakenFrom(q, p)
  {
    assert (procs + [q])[..|procs|] == procs;
  }

  /** When only the leader is left, the counters of the threads are its own. */
  lemma {:induction false} HeldAlone(tasks: seq<Task>, p: nat, leader: nat)
    requires leader < |tasks| && tasks[leader].proc == p && Alone(tasks, p, leader)
    ensures Held(tasks, p) == HeldBy(tasks[leader], p)
  {
    var n := |tasks| - 1;
    if leader < n {
      assert tasks[n].proc == p ==> tasks[n].life == Released;
      HeldAlone(tasks[..n], p, leader);
    } else {
      NothingHeld(tasks[..n], p);
    }
  }

  lemma {:induction false} NothingHeld(tasks: seq<Task>, p: nat)
    requires forall i :: 0 <= i < |tasks| && tasks[i].proc == p ==> tasks[i].life == Released
    ensures Held(tasks, p) == 0
  {
    if tasks != [] {
      var n := |tasks| - 1;
      assert tasks[n].proc == p ==> tasks[n].life == Released;
      NothingHeld(tasks[..n], p);
    }
  }

  // ---------------------------------------------------------------- the invariant

  /** A task is dead exactly while someone owns its end: a release that is due, or a waiter that has
      claimed its process, and not both. Only leaders are zombies. No task is released twice. */
  ghost predicate TaskOk(s: State, i: nat)
    requires i < |s.tasks|
  {
    var t := s.tasks[i];
    && t.proc < |s.procs|
    && (t.life == Dead <==> i in s.releasing || (t.proc in s.claims && s.procs[t.proc].leader == i))
    && !(i in s.releasing && t.proc in s.claims && s.procs[t.proc].leader == i)
    && (t.life == Zombie ==> s.procs[t.proc].leader == i)
    && t.releases == if t.life == Released then 1 else 0
  }

  /** Whether the end of a process has come: its leader has exited and its other threads are gone. */
  predicate Over(tasks: seq<Task>, p: nat, leader: nat)
    requires leader < |tasks|
  {
    tasks[leader].life != Running && Alone(tasks, p, leader)
  }

  ghost predicate ProcOk(s: State, p: nat)
    requires p < |s.procs|
  {
    var q := s.procs[p];
    && q.leader < |s.tasks| && s.tasks[q.leader].proc == p && q.parent < |s.tasks|
    && (s.tasks[q.leader].life == Dead || s.tasks[q.leader].life == Released ==> Alone(s.tasks, p, q.leader))
    && q.notified == q.renotified + (if Over(s.tasks, p, q.leader) then 1 else 0)
    && (Over(s.tasks, p, q.leader) && s.tasks[q.leader].life == Zombie ==> q.told == Some(s.tasks[q.parent].proc))
    && (q.takenBy.Some? ==>
          q.takenBy.value < |s.procs| && p !in s.claims
          && (s.tasks[q.leader].life == Dead || s.tasks[q.leader].life == Released))
    && q.made == q.faults + Held(s.tasks, p)
    && q.childFaults == Taken(s.procs, p)
    && (p in s.claims ==>
          q.takenBy == None && s.tasks[q.leader].life == Dead && s.claims[p] < |s.tasks|
          && s.tasks[s.claims[p]].life == Running && s.tasks[s.claims[p]].proc < |s.procs|)
  }

  ghost predicate Good(s: State) {
    && (forall i :: i in s.releasing ==> i < |s.tasks|)
    && (forall p :: p in s.claims ==> p < |s.procs|)
    && (forall i {:trigger TaskOk(s, i)} :: 0 <= i < |s.tasks| ==> TaskOk(s, i))
    && (forall p {:trigger ProcOk(s, p)} :: 0 <= p < |s.procs| ==> ProcOk(s, p))
  }

  // ---------------------------------------------------------------- the steps

  /** A running thread takes a page fault. */
  function Faulted(s: State, t: nat): (r: State)
    requires t < |s.tasks| && s.tasks[t].proc < |s.procs|
  {
    var p := s.tasks[t].proc;
    s.(tasks := s.tasks[t := s.tasks[t].(faults := s.tasks[t].faults + 1)],
       procs := s.procs[p := s.procs[p].(made := s.procs[p].made + 1)])
  }

  /** A new process, its counters at zero. */
  function Forked(s: State, t: nat): (r: State) {
    s.(tasks := s.tasks + [Task(|s.procs|, Running, 0, 0)],
       procs := s.procs + [Proc(|s.tasks|, t, 0, 0, 0, 0, None, None, 0)])
  }

  /** A new thread, its counter at zero. */
  function Threaded(s: State, t: nat): (r: State)
    requires t < |s.tasks|
  {
    s.(tasks := s.tasks + [Task(s.tasks[t].proc, Running, 0, 0)])
  }

  function MarkedDead(s: State, t: nat): (r: State)
    requires t < |s.tasks|
  {
    s.(tasks := s.tasks[t := s.tasks[t].(life := Dead)], releasing := s.releasing + {t})
  }

  /** do_notify_parent: the process of the parent is told. */
  function Notified(q: Proc, tasks: seq<Task>): (r: Proc)
    requires q.parent < |tasks|
  {
    q.(notified := q.notified + 1, told := Some(tasks[q.parent].proc))
  }

  /** A process gets a new parent; if that is in another process (`cross`), it is notified of a child
      that is over. `quiet` says that it ignores its children. */
  function Reparented(s: State, p: nat, reaper: nat, cross: bool, quiet: bool): (r: State)
    requires p < |s.procs| && s.procs[p].leader < |s.tasks| && reaper < |s.tasks|
  {
    var q := s.procs[p].(parent := reaper);
    if cross && s.tasks[q.leader].life == Zombie && Alone(s.tasks, p, q.leader) then
      var s' := s.(procs := s.procs[p := Notified(q, s.tasks).(renotified := q.renotified + 1)]);
      if quiet then MarkedDead(s', q.leader) else s'
    else s.(procs := s.procs[p := q])
  }

  /** The exit of a thread: a leader on its own notifies the parent, any other thread is dead. */
  function Exited(s: State, t: nat, quiet: bool): (r: State)
    requires t < |s.tasks| && s.tasks[t].proc < |s.procs| && s.procs[s.tasks[t].proc].parent < |s.tasks|
  {
    var p := s.tasks[t].proc;
    var z := s.(tasks := s.tasks[t := s.tasks[t].(life := Zombie)]);
    if s.procs[p].leader != t then MarkedDead(z, t)
    else if Alone(s.tasks, p, t) then
      var n := z.(procs := s.procs[p := Notified(s.procs[p], s.tasks)]);
      if quiet then MarkedDead(n, t) else n
    else z
  }

  /** The release of a thread: its counter goes to its process. The last one behind a zombie leader
      notifies the parent. */
  function ReleasedOne(s: State, t: nat, quiet: bool): (r: State)
    requires t < |s.tasks| && s.tasks[t].proc < |s.procs| && s.procs[s.tasks[t].proc].leader < |s.tasks|
    requires s.procs[s.tasks[t].proc].parent < |s.tasks|
  {
    var p := s.tasks[t].proc;
    var q := s.procs[p].(faults := s.procs[p].faults + s.tasks[t].faults);
    var tasks := s.tasks[t := s.tasks[t].(life := Released, releases := s.tasks[t].releases + 1)];
    var g := s.(tasks := tasks, procs := s.procs[p := q], releasing := s.releasing - {t});
    if q.leader != t && Alone(tasks, p, q.leader) && tasks[q.leader].life == Zombie then
      var n := g.(procs := s.procs[p := Notified(q, tasks)]);
      if quiet then MarkedDead(n, q.leader) else n
    else g
  }

  /** Thread `w` claims the end of a child process. */
  function Claimed(s: State, w: nat, p: nat): (r: State)
    requires p < |s.procs| && s.procs[p].leader < |s.tasks|
  {
    var l := s.procs[p].leader;
    s.(tasks := s.tasks[l := s.tasks[l].(life := Dead)], claims := s.claims[p := w])
  }

  /** All that a waiter refers to exists. */
  ghost predicate Collects(s: State, p: nat) {
    && p < |s.procs| && s.procs[p].leader < |s.tasks| && p in s.claims && s.claims[p] < |s.tasks|
    && s.tasks[s.claims[p]].proc < |s.procs|
  }

  /** The waiter adds the counters of the child to those of its own process. */
  function Collected(s: State, p: nat): (r: State)
    requires Collects(s, p)
  {
    var q := s.procs[p];
    var w := s.tasks[s.claims[p]].proc;
    var sum := s.tasks[q.leader].faults + q.faults + q.childFaults;
    var procs := s.procs[w := s.procs[w].(childFaults := s.procs[w].childFaults + sum)];
    s.(procs := procs[p := procs[p].(takenBy := Some(w))], releasing := s.releasing + {q.leader},
       claims := map x | x in s.claims && x != p :: s.claims[x])
  }

  /** A change that releases nobody does not concern who is alone. */
  lemma SameAlone(tasks: seq<Task>, i: nat, t: Task, x: nat, l: nat)
    requires i < |tasks| && tasks[i].proc == t.proc && (tasks[i].life == Released <==> t.life == Released)
    ensures Alone(tasks[i := t], x, l) <==> Alone(tasks, x, l)
  {
    var tasks' := tasks[i := t];
    assert forall k :: 0 <= k < |tasks| && k != i ==> tasks'[k] == tasks[k];
    assert tasks'[i] == t;
  }

  /** A thread that is no leader is dead at once; a leader is a zombie until its threads are gone, and
      after that too unless the parent ignores its children. */
  lemma ExitedLife(s: State, t: nat, quiet: bool)
    requires t < |s.tasks| && s.tasks[t].proc < |s.procs| && s.procs[s.tasks[t].proc].parent < |s.tasks|
    requires s.tasks[t].life == Running
    ensures var r, p := Exited(s, t, quiet), s.tasks[t].proc;
            && |r.tasks| == |s.tasks| && |r.procs| == |s.procs| && r.tasks[t].proc == p
            && r.procs[p].leader == s.procs[p].leader
            && r.tasks[t].life == (if s.procs[p].leader != t || (Alone(r.tasks, p, t) && quiet) then Dead else Zombie)
            && (r.tasks[t].life == Dead ==> t in r.releasing)
  {
    var r, p := Exited(s, t, quiet), s.tasks[t].proc;
    SameAlone(s.tasks, t, r.tasks[t], p, t);
    assert r.tasks == s.tasks[t := r.tasks[t]];
  }

  /** The thread is gone, and a zombie leader that is now on its own is dead exactly if the parent ignores
      its children. */
  lemma ReleasedLife(s: State, t: nat, quiet: bool)
    requires t < |s.tasks| && s.tasks[t].proc < |s.procs| && s.procs[s.tasks[t].proc].leader < |s.tasks|
    requires s.procs[s.tasks[t].proc].parent < |s.tasks|
    ensures var r, l := ReleasedOne(s, t, quiet), s.procs[s.tasks[t].proc].leader;
            && |r.tasks| == |s.tasks| && r.tasks[t].life == Released && t !in r.releasing
            && (l != t ==>
                  var over := s.tasks[l].life == Zombie && Alone(r.tasks, s.tasks[t].proc, l);
                  && r.tasks[l].life == (if over && quiet then Dead else s.tasks[l].life)
                  && (over && quiet ==> l in r.releasing))
  {
    var r, p := ReleasedOne(s, t, quiet), s.tasks[t].proc;
    var l := s.procs[p].leader;
    if l != t && r.tasks[l].life == Dead && s.tasks[l].life == Zombie && s.tasks[l].proc == p {
      SameAlone(s.tasks[t := r.tasks[t]], l, r.tasks[l], p, l);
      assert r.tasks == s.tasks[t := r.tasks[t]][l := r.tasks[l]];
    }
  }

  // ---------------------------------------------------------------- the steps keep the invariant

  /** A change of one task does not concern the other processes. */
  lemma OtherProc(tasks: seq<Task>, i: nat, t: Task, x: nat, l: nat)
    requires i < |tasks| && tasks[i].proc == t.proc != x
    ensures Alone(tasks[i := t], x, l) <==> Alone(tasks, x, l)
    ensures Held(tasks[i := t], x) == Held(tasks, x)
  {
    HeldUpdate(tasks, i, t, x);
    var tasks' := tasks[i := t];
    assert forall k :: 0 <= k < |tasks| && k != i ==> tasks'[k] == tasks[k];
    assert tasks'[i].proc != x && tasks[i].proc != x;
  }

  /** As long as a thread of a process is alive, nobody has waited for the process. */
  lemma RunningNotTaken(s: State, t: nat)
    requires Good(s) && t < |s.tasks| && s.tasks[t].life == Running
    ensures s.tasks[t].proc < |s.procs|
    ensures var q := s.procs[s.tasks[t].proc];
            && q.takenBy == None && q.leader < |s.tasks|
            && s.tasks[q.leader].life != Dead && s.tasks[q.leader].life != Released
  {
    assert TaskOk(s, t);
    assert ProcOk(s, s.tasks[t].proc);
  }

  lemma FaultedGood(s: State, t: nat)
    requires Good(s) && t < |s.tasks| && s.tasks[t].life == Running && s.tasks[t].proc < |s.procs|
    ensures Good(Faulted(s, t))
  {
    var p, r := s.tasks[t].proc, Faulted(s, t);
    RunningNotTaken(s, t);
    forall i | 0 <= i < |r.tasks| ensures TaskOk(r, i) {
      assert TaskOk(s, i);
    }
    forall x | 0 <= x < |r.procs| ensures ProcOk(r, x) {
      assert ProcOk(s, x);
      SameAlone(s.tasks, t, r.tasks[t], x, s.procs[x].leader);
      HeldUpdate(s.tasks, t, r.tasks[t], x);
      TakenUpdate(s.procs, p, r.procs[p], x);
    }
  }

  /** A new task of process `n` concerns no other process. */
  lemma AddedOther(tasks: seq<Task>, t: Task, x: nat, l: nat)
    requires t.proc != x || (t.faults == 0 && !Alone(tasks, x, l))
    ensures Alone(tasks + [t], x, l) <==> Alone(tasks, x, l)
    ensures Held(tasks + [t], x) == Held(tasks, x)
  {
    HeldAdded(tasks, t, x);
    var tasks' := tasks + [t];
    assert forall k :: 0 <= k < |tasks| ==> tasks'[k] == tasks[k];
    assert tasks'[|tasks|] == t;
  }

  lemma ForkedGood(s: State, t: nat)
    requires Good(s) && t < |s.tasks|
    ensures Good(Forked(s, t))
  {
    var r, n := Forked(s, t), |s.procs|;
    forall i | 0 <= i < |r.tasks| ensures TaskOk(r, i) {
      if i < |s.tasks| {
        assert TaskOk(s, i);
      }
    }
    forall x | 0 <= x < |r.procs| ensures ProcOk(r, x) {
      TakenAdded(s.procs, r.procs[n], x);
      if x < n {
        assert ProcOk(s, x);
        AddedOther(s.tasks, r.tasks[|s.tasks|], x, s.procs[x].leader);
      } else {
        NewProc(s, n);
        HeldAdded(s.tasks, r.tasks[|s.tasks|], n);
      }
    }
  }

  /** Nothing refers to a process that does not exist yet. */
  lemma NewProc(s: State, n: nat)
    requires Good(s) && n == |s.procs|
    ensures Held(s.tasks, n) == 0 && Taken(s.procs, n) == 0
    ensures forall i :: 0 <= i < |s.tasks| ==> s.tasks[i].proc != n
  {
    forall i | 0 <= i < |s.tasks| ensures s.tasks[i].proc != n {
      assert TaskOk(s, i);
    }
    NothingHeld(s.tasks, n);
    forall x | 0 <= x < |s.procs| ensures s.procs[x].takenBy != Some(n) {
      assert ProcOk(s, x);
    }
    NothingTaken(s.procs, n);
  }

  lemma {:induction false} NothingTaken(procs: seq<Proc>, p: nat)
    requires forall x :: 0 <= x < |procs| ==> procs[x].takenBy != Some(p)
    ensures Taken(procs, p) == 0
  {
    if procs != [] {
      NothingTaken(procs[..|procs| - 1], p);
    }
  }

  /** As long as another thread is alive, the leader is not alone. */
  lemma NotAlone(s: State, t: nat)
    requires Good(s) && t < |s.tasks| && s.tasks[t].life == Running && s.tasks[t].proc < |s.procs|
    ensures var p := s.tasks[t].proc; s.procs[p].leader < |s.tasks| && !Over(s.tasks, p, s.procs[p].leader)
  {
    assert ProcOk(s, s.tasks[t].proc);
  }

  lemma ThreadedGood(s: State, t: nat)
    requires Good(s) && t < |s.tasks| && s.tasks[t].life == Running
    ensures Good(Threaded(s, t))
  {
    var r := Threaded(s, t);
    assert TaskOk(s, t);
    RunningNotTaken(s, t);
    NotAlone(s, t);
    forall i | 0 <= i < |r.tasks| ensures TaskOk(r, i) {
      if i < |s.tasks| {
        assert TaskOk(s, i);
      }
    }
    forall x | 0 <= x < |r.procs| ensures ProcOk(r, x) {
      assert ProcOk(s, x);
      HeldAdded(s.tasks, r.tasks[|s.tasks|], x);
      if x != s.tasks[t].proc {
        AddedOther(s.tasks, r.tasks[|s.tasks|], x, s.procs[x].leader);
      } else {
        assert r.tasks[|s.tasks|].life == Running && r.tasks[|s.tasks|].proc == x;
      }
    }
  }

  /** The end of a zombie leader on its own falls to whoever marks it dead. */
  lemma MarkDeadGood(s: State, p: nat)
    requires Good(s) && p < |s.procs| && s.procs[p].leader < |s.tasks|
    requires s.tasks[s.procs[p].leader].life == Zombie && Alone(s.tasks, p, s.procs[p].leader)
    ensures Good(MarkedDead(s, s.procs[p].leader))
  {
    var l := s.procs[p].leader;
    var r := MarkedDead(s, l);
    assert TaskOk(s, l) && ProcOk(s, p);
    forall i | 0 <= i < |r.tasks| ensures TaskOk(r, i) {
      assert TaskOk(s, i);
    }
    forall x | 0 <= x < |r.procs| ensures ProcOk(r, x) {
      assert ProcOk(s, x);
      SameAlone(s.tasks, l, r.tasks[l], x, s.procs[x].leader);
      HeldUpdate(s.tasks, l, r.tasks[l], x);
    }
  }

  /** A change in the record of one process that keeps its counters and who waited for it. */
  lemma ProcChanged(s: State, p: nat, q: Proc)
    requires Good(s) && p < |s.procs|
    requires q.leader == s.procs[p].leader && q.parent < |s.tasks| && q.takenBy == s.procs[p].takenBy
    requires q.made == s.procs[p].made && q.childFaults == s.procs[p].childFaults && q.faults == s.procs[p].faults
    requires q.notified - q.renotified == s.procs[p].notified - s.procs[p].renotified
    requires q.told == Some(s.tasks[q.parent].proc)
             || (q.told == s.procs[p].told && (s.procs[p].parent < |s.tasks| && q.leader < |s.tasks| ==>
                   s.tasks[q.parent].proc == s.tasks[s.procs[p].parent].proc || s.tasks[q.leader].life != Zombie
                   || !Alone(s.tasks, p, q.leader)))
    ensures Good(s.(procs := s.procs[p := q]))
  {
    var r := s.(procs := s.procs[p := q]);
    forall i | 0 <= i < |r.tasks| ensures TaskOk(r, i) {
      assert TaskOk(s, i);
    }
    forall x | 0 <= x < |r.procs| ensures ProcOk(r, x) {
      assert ProcOk(s, x);
      TakenUpdate(s.procs, p, q, x);
    }
  }

  lemma ReparentedGood(s: State, p: nat, reaper: nat, cross: bool, quiet: bool)
    requires Good(s) && p < |s.procs| && s.procs[p].leader < |s.tasks| && reaper < |s.tasks|
    requires s.procs[p].parent < |s.tasks| && (!cross ==> s.tasks[reaper].proc == s.tasks[s.procs[p].parent].proc)
    ensures Good(Reparented(s, p, reaper, cross, quiet))
  {
    var q := s.procs[p].(parent := reaper);
    if cross && s.tasks[q.leader].life == Zombie && Alone(s.tasks, p, q.leader) {
      var q' := Notified(q, s.tasks).(renotified := q.renotified + 1);
      ProcChanged(s, p, q');
      if quiet {
        MarkDeadGood(s.(procs := s.procs[p := q']), p);
      }
    } else {
      ProcChanged(s, p, q);
    }
  }

  /** A thread that is not a leader exits: it is dead at once. */
  lemma ThreadExits(s: State, t: nat)
    requires Good(s) && t < |s.tasks| && s.tasks[t].life == Running && s.tasks[t].proc < |s.procs|
    requires s.procs[s.tasks[t].proc].leader != t && t !in s.claims.Values
    ensures Good(s.(tasks := s.tasks[t := s.tasks[t].(life := Dead)], releasing := s.releasing + {t}))
  {
    var r := s.(tasks := s.tasks[t := s.tasks[t].(life := Dead)], releasing := s.releasing + {t});
    assert TaskOk(s, t);
    forall i | 0 <= i < |r.tasks| ensures TaskOk(r, i) {
      assert TaskOk(s, i);
    }
    forall x | 0 <= x < |r.procs| ensures ProcOk(r, x) {
      assert ProcOk(s, x);
      SameAlone(s.tasks, t, r.tasks[t], x, s.procs[x].leader);
      HeldUpdate(s.tasks, t, r.tasks[t], x);
      if x in s.claims {
        assert s.claims[x] in s.claims.Values;
      }
    }
  }

  /** A leader exits: it is a zombie, and if it is on its own its parent is notified. */
  lemma LeaderExits(s: State, t: nat)
    requires Good(s) && t < |s.tasks| && s.tasks[t].life == Running && s.tasks[t].proc < |s.procs|
    requires s.procs[s.tasks[t].proc].leader == t && t !in s.claims.Values
    requires s.procs[s.tasks[t].proc].parent < |s.tasks|
    ensures var p := s.tasks[t].proc;
            Good(s.(tasks := s.tasks[t := s.tasks[t].(life := Zombie)],
                    procs := if Alone(s.tasks, p, t) then s.procs[p := Notified(s.procs[p], s.tasks)] else s.procs))
  {
    var p := s.tasks[t].proc;
    var procs := if Alone(s.tasks, p, t) then s.procs[p := Notified(s.procs[p], s.tasks)] else s.procs;
    var r := s.(tasks := s.tasks[t := s.tasks[t].(life := Zombie)], procs := procs);
    assert TaskOk(s, t);
    forall i | 0 <= i < |r.tasks| ensures TaskOk(r, i) {
      assert TaskOk(s, i);
    }
    forall x | 0 <= x < |r.procs| ensures ProcOk(r, x) {
      assert ProcOk(s, x);
      SameAlone(s.tasks, t, r.tasks[t], x, s.procs[x].leader);
      HeldUpdate(s.tasks, t, r.tasks[t], x);
      TakenUpdate(s.procs, p, Notified(s.procs[p], s.tasks), x);
      if x in s.claims {
        assert s.claims[x] in s.claims.Values;
      }
    }
  }

  lemma ExitedGood(s: State, t: nat, quiet: bool)
    requires Good(s) && t < |s.tasks| && s.tasks[t].life == Running && s.tasks[t].proc < |s.procs|
    requires t !in s.claims.Values && s.procs[s.tasks[t].proc].parent < |s.tasks|
    ensures Good(Exited(s, t, quiet))
  {
    var p := s.tasks[t].proc;
    var z := s.(tasks := s.tasks[t := s.tasks[t].(life := Zombie)]);
    if s.procs[p].leader != t {
      ThreadExits(s, t);
      assert MarkedDead(z, t).tasks == s.tasks[t := s.tasks[t].(life := Dead)];
    } else {
      LeaderExits(s, t);
      if Alone(s.tasks, p, t) && quiet {
        SameAlone(s.tasks, t, z.tasks[t], p, t);
        MarkDeadGood(z.(procs := s.procs[p := Notified(s.procs[p], s.tasks)]), p);
      }
    }
  }

  lemma ClaimedGood(s: State, w: nat, p: nat)
    requires Good(s) && p < |s.procs| && s.procs[p].leader < |s.tasks| && w < |s.tasks| && s.tasks[w].life == Running
    requires s.tasks[s.procs[p].leader].life == Zombie && Alone(s.tasks, p, s.procs[p].leader)
    ensures Good(Claimed(s, w, p))
  {
    var l, r := s.procs[p].leader, Claimed(s, w, p);
    assert TaskOk(s, l) && TaskOk(s, w) && ProcOk(s, p);
    forall i | 0 <= i < |r.tasks| ensures TaskOk(r, i) {
      assert TaskOk(s, i);
    }
    forall x | 0 <= x < |r.procs| ensures ProcOk(r, x) {
      assert ProcOk(s, x);
      SameAlone(s.tasks, l, r.tasks[l], x, s.procs[x].leader);
      HeldUpdate(s.tasks, l, r.tasks[l], x);
    }
  }

  /** Releasing one thread: only its own process is concerned. */
  lemma AloneAfterRelease(tasks: seq<Task>, t: nat, r: Task, l: nat)
    requires t < |tasks| && tasks[t].life != Released && r.proc == tasks[t].proc && r.life == Released
    ensures t != l ==> !Alone(tasks, r.proc, l)
    ensures t == l ==> (Alone(tasks[t := r], r.proc, l) <==> Alone(tasks, r.proc, l))
  {
    var tasks' := tasks[t := r];
    assert forall k :: 0 <= k < |tasks| && k != t ==> tasks'[k] == tasks[k];
  }

  lemma ReleaseBase(s: State, t: nat, tasks: seq<Task>, q: Proc)
    requires Good(s) && t in s.releasing && t < |s.tasks| && s.tasks[t].proc < |s.procs|
    requires tasks == s.tasks[t := s.tasks[t].(life := Released, releases := s.tasks[t].releases + 1)]
    requires var p := s.tasks[t].proc;
             && s.procs[p].leader < |s.tasks|
             && s.procs[p].parent < |s.tasks|
             && var b := s.procs[p].(faults := s.procs[p].faults + s.tasks[t].faults);
                q == if b.leader != t && Alone(tasks, p, b.leader) && tasks[b.leader].life == Zombie
                     then Notified(b, tasks) else b
    ensures Good(s.(tasks := tasks, procs := s.procs[s.tasks[t].proc := q], releasing := s.releasing - {t}))
  {
    var p := s.tasks[t].proc;
    var r := s.(tasks := tasks, procs := s.procs[p := q], releasing := s.releasing - {t});
    assert TaskOk(s, t) && ProcOk(s, p);
    forall i | 0 <= i < |r.tasks| ensures TaskOk(r, i) {
      assert TaskOk(s, i);
    }
    forall x | 0 <= x < |r.procs| ensures ProcOk(r, x) {
      assert ProcOk(s, x);
      HeldUpdate(s.tasks, t, tasks[t], x);
      TakenUpdate(s.procs, p, q, x);
      if x != p {
        OtherProc(s.tasks, t, tasks[t], x, s.procs[x].leader);
      } else {
        AloneAfterRelease(s.tasks, t, tasks[t], q.leader);
      }
    }
  }

  lemma ReleasedGood(s: State, t: nat, quiet: bool)
    requires Good(s) && t in s.releasing && t < |s.tasks| && s.tasks[t].proc < |s.procs|
    requires s.procs[s.tasks[t].proc].leader < |s.tasks| && s.procs[s.tasks[t].proc].parent < |s.tasks|
    ensures Good(ReleasedOne(s, t, quiet))
  {
    var p := s.tasks[t].proc;
    var q := s.procs[p].(faults := s.procs[p].faults + s.tasks[t].faults);
    var tasks := s.tasks[t := s.tasks[t].(life := Released, releases := s.tasks[t].releases + 1)];
    if q.leader != t && Alone(tasks, p, q.leader) && tasks[q.leader].life == Zombie {
      ReleaseBase(s, t, tasks, Notified(q, tasks));
      if quiet {
        MarkDeadGood(s.(tasks := tasks, procs := s.procs[p := Notified(q, tasks)], releasing := s.releasing - {t}), p);
      }
    } else {
      ReleaseBase(s, t, tasks, q);
    }
  }

  /** What a waiter collects is all that the process and those it waited for ever made. */
  lemma CollectsTotal(s: State, p: nat)
    requires Good(s) && p in s.claims
    ensures p < |s.procs| && s.procs[p].leader < |s.tasks|
    ensures s.tasks[s.procs[p].leader].faults + s.procs[p].faults + s.procs[p].childFaults == Total(s.procs[p])
  {
    assert ProcOk(s, p);
    HeldAlone(s.tasks, p, s.procs[p].leader);
  }

  lemma CollectedGood(s: State, p: nat)
    requires Good(s) && p in s.claims && p < |s.procs| && s.procs[p].leader < |s.tasks| && s.claims[p] < |s.tasks|
    requires s.tasks[s.claims[p]].proc < |s.procs|
    ensures Good(Collected(s, p))
  {
    var r, w, l := Collected(s, p), s.tasks[s.claims[p]].proc, s.procs[p].leader;
    assert ProcOk(s, p) && ProcOk(s, w) && TaskOk(s, l);
    RunningNotTaken(s, s.claims[p]);
    CollectsTotal(s, p);
    assert w != p;
    var procs := s.procs[w := r.procs[w]];
    assert r.procs == procs[p := r.procs[p]];
    forall i | 0 <= i < |r.tasks| ensures TaskOk(r, i) {
      assert TaskOk(s, i);
    }
    forall x | 0 <= x < |r.procs| ensures ProcOk(r, x) {
      assert ProcOk(s, x);
      TakenUpdate(s.procs, w, r.procs[w], x);
      TakenUpdate(procs, p, r.procs[p], x);
    }
  }

  // ---------------------------------------------------------------- what follows

  /** No task is released twice, a leader never before its other threads, and a parent is notified
      of the end of a process that was not reparented exactly once, when it is over. A zombie that can be
      waited for was last told to the process that can wait for it. */
  lemma EndsInOrder(s: State, i: nat)
    requires Good(s) && i < |s.tasks|
    ensures s.tasks[i].releases <= 1 && s.tasks[i].proc < |s.procs|
    ensures var p := s.tasks[i].proc;
            var q := s.procs[p];
            && q.leader < |s.tasks|
            && (s.tasks[q.leader].life == Released && i != q.leader ==> s.tasks[i].life == Released)
            && (q.renotified == 0 ==> q.notified == if Over(s.tasks, p, q.leader) then 1 else 0)
            && (Over(s.tasks, p, q.leader) && s.tasks[q.leader].life == Zombie ==>
                  q.parent < |s.tasks| && q.told == Some(s.tasks[q.parent].proc))
  {
    assert TaskOk(s, i);
    assert ProcOk(s, s.tasks[i].proc);
  }

  function AllMade(procs: seq<Proc>): (n: nat) {
    if procs == [] then 0 else AllMade(procs[..|procs| - 1]) + procs[|procs| - 1].made
  }

  /** The totals of all processes that somebody, or nobody, has waited for. */
  function Totals(procs: seq<Proc>, taken: bool): (n: nat) {
    if procs == [] then 0
    else
      var q := procs[|procs| - 1];
      Totals(procs[..|procs| - 1], taken) + if q.takenBy.Some? == taken then Total(q) else 0
  }

  function ChildFaults(procs: seq<Proc>): (n: nat) {
    if procs == [] then 0 else ChildFaults(procs[..|procs| - 1]) + procs[|procs| - 1].childFaults
  }

  /** What the first `n` processes have taken from those of a list. */
  function TakenByFirst(procs: seq<Proc>, n: nat): (r: nat) {
    if n == 0 then 0 else TakenByFirst(procs, n - 1) + Taken(procs, n - 1)
  }

  lemma {:induction false} TotalsSplit(procs: seq<Proc>)
    ensures Totals(procs, true) + Totals(procs, false) == AllMade(procs) + ChildFaults(procs)
  {
    if procs != [] {
      TotalsSplit(procs[..|procs| - 1]);
    }
  }

  lemma {:induction false} TakenByFirstStep(procs: seq<Proc>, n: nat)
    requires procs != []
    ensures var q := procs[|procs| - 1];
            TakenByFirst(procs, n) == TakenByFirst(procs[..|procs| - 1], n)
                                      + if q.takenBy.Some? && q.takenBy.value < n then Total(q) else 0
  {
    if n > 0 {
      TakenByFirstStep(procs, n - 1);
    }
  }

  /** Summed over the takers or over the taken, it is the same. */
  lemma {:induction false} TakenExchange(procs: seq<Proc>, n: nat)
    requires forall x :: 0 <= x < |procs| && procs[x].takenBy.Some? ==> procs[x].takenBy.value < n
    ensures TakenByFirst(procs, n) == Totals(procs, true)
  {
    if procs == [] {
      TakenByFirstNone(n);
    } else {
      TakenByFirstStep(procs, n);
      TakenExchange(procs[..|procs| - 1], n);
    }
  }

  lemma {:induction false} TakenByFirstNone(n: nat)
    ensures TakenByFirst([], n) == 0
  {
    if n > 0 {
      TakenByFirstNone(n - 1);
    }
  }

  lemma {:induction false} ChildFaultsTaken(all: seq<Proc>, n: nat)
    requires n <= |all| && forall x :: 0 <= x < n ==> all[x].childFaults == Taken(all, x)
    ensures ChildFaults(all[..n]) == TakenByFirst(all, n)
  {
    if n > 0 {
      assert all[..n][..n - 1] == all[..n - 1];
      ChildFaultsTaken(all, n - 1);
    }
  }

  /** All that is in the counters of processes nobody has waited for: of their threads, of their
      released threads, and of the children they have waited for. */
  function Outstanding(tasks: seq<Task>, procs: seq<Proc>, n: nat): (r: nat)
    requires n <= |procs|
  {
    if n == 0 then 0
    else
      var q := procs[n - 1];
      Outstanding(tasks, procs, n - 1) + if q.takenBy.None? then Held(tasks, n - 1) + q.faults + q.childFaults else 0
  }

  lemma {:induction false} OutstandingTotals(s: State, n: nat)
    requires Good(s) && n <= |s.procs|
    ensures Outstanding(s.tasks, s.procs, n) == Totals(s.procs[..n], false)
  {
    if n > 0 {
      assert ProcOk(s, n - 1);
      assert s.procs[..n][..n - 1] == s.procs[..n - 1];
      OutstandingTotals(s, n - 1);
    }
  }

  /** Conservation: no fault is lost and none is counted twice. */
  lemma Conservation(s: State)
    requires Good(s)
    ensures Outstanding(s.tasks, s.procs, |s.procs|) == AllMade(s.procs)
  {
    var n := |s.procs|;
    forall x | 0 <= x < n
      ensures s.procs[x].childFaults == Taken(s.procs, x)
      ensures s.procs[x].takenBy.Some? ==> s.procs[x].takenBy.value < n
    {
      assert ProcOk(s, x);
    }
    assert s.procs[..n] == s.procs;
    OutstandingTotals(s, n);
    ChildFaultsTaken(s.procs, n);
    TakenExchange(s.procs, n);
    TotalsSplit(s.procs);
  }

  // ---------------------------------------------------------------- the tables

  /** A process is on the list of children of a thread until it is released. */
  predicate IsChild(s: State, p: nat, father: nat) {
    && p < |s.procs| && s.procs[p].leader < |s.tasks|
    && s.procs[p].parent == father && s.tasks[s.procs[p].leader].life != Released
  }

  /** The children of thread `father` among the first `n` processes go to `reaper`. */
  function ReparentedAll(s: State, father: nat, reaper: nat, cross: bool, quiet: set<nat>, n: nat): (r: State)
    requires reaper < |s.tasks|
    ensures |r.tasks| == |s.tasks|
  {
    if n == 0 then s
    else
      var r := ReparentedAll(s, father, reaper, cross, quiet, n - 1);
      if IsChild(r, n - 1, father) then Reparented(r, n - 1, reaper, cross, n - 1 in quiet) else r
  }

  /** After that no process is left behind with its old parent. */
  lemma {:induction false} NoChildLeft(s: State, father: nat, reaper: nat, cross: bool, quiet: set<nat>, n: nat, p: nat)
    requires p < n && reaper != father && reaper < |s.tasks|
    ensures !IsChild(ReparentedAll(s, father, reaper, cross, quiet, n), p, father)
  {
    if p < n - 1 {
      NoChildLeft(s, father, reaper, cross, quiet, n - 1, p);
    }
  }

  /** Process `p` and its leader are as before. */
  ghost predicate Untouched(s: State, r: State, p: nat) {
    && p < |s.procs| == |r.procs| && s.procs[p].leader < |s.tasks| == |r.tasks| && r.procs[p] == s.procs[p]
    && var l := s.procs[p].leader;
       r.tasks[l] == s.tasks[l] && (l in r.releasing <==> l in s.releasing)
  }

  /** Process `p` has a new parent. If that is in another process and the child is a zombie whose threads
      are gone, it is told of, and the child is dead and to be released exactly if the new parent ignores
      its children. Otherwise nobody is told and nothing happens to the child. */
  ghost predicate HandedOver(s: State, r: State, p: nat, reaper: nat, cross: bool, quiet: bool) {
    && p < |s.procs| == |r.procs| && s.procs[p].leader < |s.tasks| == |r.tasks| && reaper < |s.tasks|
    && var q, q', l := s.procs[p], r.procs[p], s.procs[p].leader;
       && q'.parent == reaper && q'.leader == l && q'.takenBy == q.takenBy && q'.made == q.made
       && if cross && s.tasks[l].life == Zombie && Over(s.tasks, p, l) then
            && q'.notified == q.notified + 1 && q'.renotified == q.renotified + 1
            && q'.told == Some(s.tasks[reaper].proc)
            && r.tasks[l].life == (if quiet then Dead else Zombie) && (l in r.releasing <==> quiet)
          else
            && q'.notified == q.notified && q'.renotified == q.renotified && q'.told == q.told
            && r.tasks[l] == s.tasks[l] && (l in r.releasing <==> l in s.releasing)
  }

  /** Reparenting one process leaves the others alone. */
  lemma ReparentedOne(s: State, p: nat, reaper: nat, cross: bool, quiet: bool, x: nat)
    requires Good(s) && p < |s.procs| && s.procs[p].leader < |s.tasks| && reaper < |s.tasks| && x < |s.procs|
    ensures var r := Reparented(s, p, reaper, cross, quiet);
            if x == p then HandedOver(s, r, p, reaper, cross, quiet)
            else Untouched(s, r, x) && (Alone(r.tasks, x, s.procs[x].leader) <==> Alone(s.tasks, x, s.procs[x].leader))
    ensures forall i :: 0 <= i < |s.tasks| ==> Reparented(s, p, reaper, cross, quiet).tasks[i].proc == s.tasks[i].proc
  {
    assert ProcOk(s, p) && ProcOk(s, x) && TaskOk(s, s.procs[p].leader);
    var r, l := Reparented(s, p, reaper, cross, quiet), s.procs[p].leader;
    if r.tasks != s.tasks {
      SameAlone(s.tasks, l, r.tasks[l], x, s.procs[x].leader);
    }
  }

  ghost predicate SameProcs(s: State, r: State) {
    |r.tasks| == |s.tasks| && |r.procs| == |s.procs|
    && forall i :: 0 <= i < |s.tasks| ==> r.tasks[i].proc == s.tasks[i].proc
  }

  /** Seen from the other states of a chain of three. */
  lemma HandedLater(s: State, u: State, r: State, p: nat, reaper: nat, cross: bool, quiet: bool)
    requires HandedOver(u, r, p, reaper, cross, quiet) && Untouched(s, u, p) && SameProcs(s, u)
    requires Alone(u.tasks, p, s.procs[p].leader) <==> Alone(s.tasks, p, s.procs[p].leader)
    ensures HandedOver(s, r, p, reaper, cross, quiet)
  {
  }

  lemma HandedBefore(s: State, u: State, r: State, p: nat, reaper: nat, cross: bool, quiet: bool)
    requires HandedOver(s, u, p, reaper, cross, quiet) && Untouched(u, r, p)
    ensures HandedOver(s, r, p, reaper, cross, quiet)
  {
  }

  lemma {:induction false} ReparentedAllGood(s: State, father: nat, reaper: nat, cross: bool, quiet: set<nat>, n: nat)
    requires Good(s) && n <= |s.procs| && father < |s.tasks| && reaper < |s.tasks|
    requires cross <==> s.tasks[reaper].proc != s.tasks[father].proc
    ensures var r := ReparentedAll(s, father, reaper, cross, quiet, n); Good(r) && SameProcs(s, r)
  {
    if n > 0 {
      var y := n - 1;
      ReparentedAllGood(s, father, reaper, cross, quiet, y);
      var u := ReparentedAll(s, father, reaper, cross, quiet, y);
      assert ProcOk(u, y);
      if IsChild(u, y, father) {
        ReparentedGood(u, y, reaper, cross, y in quiet);
        ReparentedOne(u, y, reaper, cross, y in quiet, y);
      }
    }
  }

  /** After all of it, exactly the children of `father` are handed over. */
  lemma {:induction false} AllHandedOver(s: State, father: nat, reaper: nat, cross: bool, quiet: set<nat>, n: nat,
                                         x: nat)
    requires Good(s) && n <= |s.procs| && x < |s.procs| && father < |s.tasks| && reaper < |s.tasks|
    requires cross <==> s.tasks[reaper].proc != s.tasks[father].proc
    ensures var r := ReparentedAll(s, father, reaper, cross, quiet, n);
            if x < n && IsChild(s, x, father) then HandedOver(s, r, x, reaper, cross, x in quiet)
            else Untouched(s, r, x) && (Alone(r.tasks, x, s.procs[x].leader) <==> Alone(s.tasks, x, s.procs[x].leader))
  {
    assert ProcOk(s, x);
    if n > 0 {
      var y := n - 1;
      var u, r := ReparentedAll(s, father, reaper, cross, quiet, y), ReparentedAll(s, father, reaper, cross, quiet, n);
      AllHandedOver(s, father, reaper, cross, quiet, y, x);
      ReparentedAllGood(s, father, reaper, cross, quiet, y);
      if IsChild(u, y, father) {
        ReparentedOne(u, y, reaper, cross, y in quiet, x);
        if x == y {
          HandedLater(s, u, r, x, reaper, cross, x in quiet);
        } else if x < y && IsChild(s, x, father) {
          HandedBefore(s, u, r, x, reaper, cross, x in quiet);
        }
      }
    }
  }

  /** The same for all processes. */
  ghost predicate ChildrenHandedOver(s: State, r: State, father: nat, reaper: nat, quiet: set<nat>)
    requires father < |s.tasks| && reaper < |s.tasks|
  {
    forall p {:trigger IsChild(s, p, father)} :: 0 <= p < |s.procs| ==>
      if IsChild(s, p, father)
      then HandedOver(s, r, p, reaper, s.tasks[reaper].proc != s.tasks[father].proc, p in quiet)
      else Untouched(s, r, p)
  }

  lemma EachHandedOver(s: State, father: nat, reaper: nat, cross: bool, quiet: set<nat>)
    requires Good(s) && father < |s.tasks| && reaper < |s.tasks|
    requires cross <==> s.tasks[reaper].proc != s.tasks[father].proc
    ensures var r := ReparentedAll(s, father, reaper, cross, quiet, |s.procs|);
            && ChildrenHandedOver(s, r, father, reaper, quiet)
            && (reaper != father ==> forall p :: 0 <= p < |s.procs| ==> !IsChild(r, p, father))
  {
    var n := |s.procs|;
    forall x | 0 <= x < n
      ensures var r := ReparentedAll(s, father, reaper, cross, quiet, n);
              && (if IsChild(s, x, father) then HandedOver(s, r, x, reaper, cross, x in quiet) else Untouched(s, r, x))
              && (reaper != father ==> !IsChild(r, x, father))
    {
      AllHandedOver(s, father, reaper, cross, quiet, n, x);
      if reaper != father {
        NoChildLeft(s, father, reaper, cross, quiet, n, x);
      }
    }
  }

  lemma {:induction false} MadeUpdate(procs: seq<Proc>, i: nat, q: Proc)
    requires i < |procs|
    ensures AllMade(procs[i := q]) == AllMade(procs) - procs[i].made + q.made
  {
    var n := |procs| - 1;
    if i < n {
      assert procs[i := q][..n] == procs[..n][i := q];
      MadeUpdate(procs[..n], i, q);
    } else {
      assert procs[i := q][..n] == procs[..n];
    }
  }

  /** Reparenting moves no counter and leaves running threads alone. */
  lemma {:induction false} ReparentedAllKeeps(s: State, father: nat, reaper: nat, cross: bool, quiet: set<nat>, n: nat)
    requires reaper < |s.tasks|
    ensures var r := ReparentedAll(s, father, reaper, cross, quiet, n);
            && AllMade(r.procs) == AllMade(s.procs) && r.claims == s.claims
            && forall i :: 0 <= i < |s.tasks| && s.tasks[i].life == Running ==> r.tasks[i] == s.tasks[i]
  {
    if n > 0 {
      ReparentedAllKeeps(s, father, reaper, cross, quiet, n - 1);
      var u := ReparentedAll(s, father, reaper, cross, quiet, n - 1);
      var r := ReparentedAll(s, father, reaper, cross, quiet, n);
      if IsChild(u, n - 1, father) {
        MadeUpdate(u.procs, n - 1, r.procs[n - 1]);
        assert r.procs == u.procs[n - 1 := r.procs[n - 1]];
      }
    }
  }

  /** A release only moves a counter. */
  lemma MadeReleased(s: State, t: nat, quiet: bool)
    requires t < |s.tasks| && s.tasks[t].proc < |s.procs| && s.procs[s.tasks[t].proc].leader < |s.tasks|
    requires s.procs[s.tasks[t].proc].parent < |s.tasks|
    ensures AllMade(ReleasedOne(s, t, quiet).procs) == AllMade(s.procs)
  {
    var p := s.tasks[t].proc;
    var q := s.procs[p].(faults := s.procs[p].faults + s.tasks[t].faults);
    var tasks := s.tasks[t := s.tasks[t].(life := Released, releases := s.tasks[t].releases + 1)];
    MadeUpdate(s.procs, p, q);
    MadeUpdate(s.procs, p, Notified(q, tasks));
  }

  datatype Step =
    | Fault(t: nat)
    | NewProcess(t: nat)
    | NewThread(t: nat)
    | Exit(t: nat, reaper: nat, quietKids: set<nat>, quiet: bool)
    | Release(t: nat, quiet: bool)
    | Consider(w: nat, p: nat)
    | Collect(p: nat)

  /** Whether thread `t` runs. */
  predicate Runs(s: State, t: nat) {
    t < |s.tasks| && s.tasks[t].life == Running
  }

  /** Whether a step can be taken. */
  ghost predicate Enabled(s: State, step: Step) {
    match step
    case Fault(t) => Runs(s, t)
    case NewProcess(t) => Runs(s, t)
    case NewThread(t) => Runs(s, t)
    case Exit(t, reaper, _, _) => Runs(s, t) && t !in s.claims.Values && reaper != t && Runs(s, reaper)
    case Release(t, _) => t in s.releasing
    case Consider(w, p) =>
      && Runs(s, w) && p < |s.procs| && s.procs[p].leader < |s.tasks| && s.procs[p].parent < |s.tasks|
      && s.tasks[s.procs[p].parent].proc == s.tasks[w].proc
      && s.tasks[s.procs[p].leader].life == Zombie && Alone(s.tasks, p, s.procs[p].leader)
    case Collect(p) => p in s.claims
  }

  class TaskTable {
    var tasks: seq<Task>
    var procs: seq<Proc>
    var releasing: set<nat>
    var claims: map<nat, nat>

    ghost function Snapshot(): (s: State)
      reads this
    {
      State(tasks, procs, releasing, claims)
    }

    ghost predicate Valid()
      reads this
    {
      Good(Snapshot())
    }

    /** A single process with a single thread. */
    constructor ()
      ensures Valid() && |tasks| == |procs| == 1 && tasks[0].life == Running && procs[0].made == 0
    {
      tasks, procs := [Task(0, Running, 0, 0)], [Proc(0, 0, 0, 0, 0, 0, None, None, 0)];
      releasing, claims := {}, map[];
      new;
      assert tasks[..0] == [] && procs[..0] == [];
      assert TaskOk(Snapshot(), 0) && ProcOk(Snapshot(), 0);
    }

    method PageFault(t: nat)
      requires Valid() && t < |tasks| && tasks[t].life == Running
      modifies this
      ensures Valid() && AllMade(procs) == AllMade(old(procs)) + 1
      ensures old(tasks)[t].proc < |old(procs)| && Snapshot() == Faulted(old(Snapshot()), t)
    {
      ghost var s := Snapshot();
      assert TaskOk(s, t);
      FaultedGood(s, t);
      var p := tasks[t].proc;
      MadeUpdate(procs, p, procs[p].(made := procs[p].made + 1));
      tasks := tasks[t := tasks[t].(faults := tasks[t].faults + 1)];
      procs := procs[p := procs[p].(made := procs[p].made + 1)];
    }

    /** copy_process for a new process: copy_mm and copy_signal start its counters at zero. */
    method Fork(t: nat)
      requires Valid() && t < |tasks| && tasks[t].life == Running
      modifies this
      ensures Valid() && Snapshot() == Forked(old(Snapshot()), t) && AllMade(procs) == AllMade(old(procs))
      ensures var n, p := |old(tasks)|, |old(procs)|;
              && |tasks| == n + 1 && |procs| == p + 1 && tasks[..n] == old(tasks) && procs[..p] == old(procs)
              && tasks[n].proc == p && tasks[n].life == Running && procs[p].leader == n && procs[p].parent == t
              && tasks[n].faults == procs[p].faults == procs[p].childFaults == 0
    {
      ForkedGood(Snapshot(), t);
      assert (procs + [Proc(|tasks|, t, 0, 0, 0, 0, None, None, 0)])[..|procs|] == procs;
      tasks, procs := tasks + [Task(|procs|, Running, 0, 0)], procs + [Proc(|tasks|, t, 0, 0, 0, 0, None, None, 0)];
    }

    /** copy_process for a new thread. */
    method CloneThread(t: nat)
      requires Valid() && t < |tasks| && tasks[t].life == Running
      modifies this
      ensures Valid() && Snapshot() == Threaded(old(Snapshot()), t) && procs == old(procs)
      ensures var n := |old(tasks)|;
              && |tasks| == n + 1 && tasks[..n] == old(tasks) && tasks[n].proc == tasks[t].proc
              && tasks[n].life == Running && tasks[n].faults == 0
    {
      ThreadedGood(Snapshot(), t);
      tasks := tasks + [Task(tasks[t].proc, Running, 0, 0)];
    }

    /** One child in forget_original_parent, and reparent_leader. */
    method ReparentChild(p: nat, reaper: nat, cross: bool, quiet: bool)
      requires Valid() && p < |procs| && reaper < |tasks| && procs[p].leader < |tasks| && procs[p].parent < |tasks|
      requires !cross ==> tasks[reaper].proc == tasks[procs[p].parent].proc
      modifies this
      ensures Valid() && Snapshot() == Reparented(old(Snapshot()), p, reaper, cross, quiet)
    {
      ReparentedGood(Snapshot(), p, reaper, cross, quiet);
      var leader := procs[p].leader;
      var q := procs[p].(parent := reaper);
      if cross && tasks[leader].life == Zombie && Alone(tasks, p, leader) {
        q := q.(notified := q.notified + 1, renotified := q.renotified + 1, told := Some(tasks[reaper].proc));
        if quiet {
          tasks := tasks[leader := tasks[leader].(life := Dead)];
          releasing := releasing + {leader};
        }
      }
      procs := procs[p := q];
    }

    /** The loop of forget_original_parent. */
    method ReparentChildren(t: nat, reaper: nat, cross: bool, quiet: set<nat>)
      requires Valid() && t < |tasks| && reaper < |tasks| && (cross <==> tasks[reaper].proc != tasks[t].proc)
      modifies this
      ensures Valid() && Snapshot() == ReparentedAll(old(Snapshot()), t, reaper, cross, quiet, |old(procs)|)
    {
      ghost var s := Snapshot();
      var p, n := 0, |procs|;
      while p < n
        invariant 0 <= p <= n == |s.procs| && Snapshot() == ReparentedAll(s, t, reaper, cross, quiet, p)
      {
        ReparentedAllGood(s, t, reaper, cross, quiet, p);
        assert ProcOk(Snapshot(), p);
        if procs[p].parent == t && tasks[procs[p].leader].life != Released {
          ReparentChild(p, reaper, cross, p in quiet);
        }
        p := p + 1;
      }
      ReparentedAllGood(s, t, reaper, cross, quiet, n);
    }

    /** forget_original_parent: every child of `t` that is not released yet goes to the reaper, which is told
        of those that are over if it is in another process; nothing happens to other processes. */
    method ForgetOriginalParent(t: nat, reaper: nat, quiet: set<nat>)
      requires Valid() && t < |tasks| && reaper < |tasks|
      modifies this
      ensures var cross := old(tasks)[reaper].proc != old(tasks)[t].proc;
              Valid() && Snapshot() == ReparentedAll(old(Snapshot()), t, reaper, cross, quiet, |old(procs)|)
      ensures ChildrenHandedOver(old(Snapshot()), Snapshot(), t, reaper, quiet)
      ensures AllMade(procs) == AllMade(old(procs)) && claims == old(claims)
      ensures |tasks| == |old(tasks)| && |procs| == |old(procs)|
      ensures forall i :: 0 <= i < |tasks| && old(tasks)[i].life == Running ==> tasks[i] == old(tasks)[i]
      ensures reaper != t ==> forall p :: 0 <= p < |procs| ==> !IsChild(Snapshot(), p, t)
    {
      var cross := tasks[reaper].proc != tasks[t].proc;
      EachHandedOver(Snapshot(), t, reaper, cross, quiet);
      ReparentedAllGood(Snapshot(), t, reaper, cross, quiet, |procs|);
      ReparentedAllKeeps(Snapshot(), t, reaper, cross, quiet, |procs|);
      ReparentChildren(t, reaper, cross, quiet);
    }

    /** exit_notify: the children are given away first; a leader on its own notifies its parent. */
    method ExitNotify(t: nat, reaper: nat, quietKids: set<nat>, quiet: bool)
      requires Valid() && t < |tasks| && tasks[t].life == Running && t !in claims.Values
      requires reaper < |tasks| && reaper != t && tasks[reaper].life == Running
      modifies this
      ensures Valid() && AllMade(procs) == AllMade(old(procs))
      ensures var r := ReparentedAll(old(Snapshot()), t, reaper, old(tasks)[reaper].proc != old(tasks)[t].proc,
                                     quietKids, |old(procs)|);
              && t < |r.tasks| && r.tasks[t].proc < |r.procs| && r.procs[r.tasks[t].proc].parent < |r.tasks|
              && Snapshot() == Exited(r, t, quiet)
      ensures |tasks| == |old(tasks)| && tasks[t].proc == old(tasks)[t].proc < |procs|
      ensures var leader := procs[tasks[t].proc].leader;
              tasks[t].life == if leader != t || (Alone(tasks, tasks[t].proc, t) && quiet) then Dead else Zombie
      ensures tasks[t].life == Dead ==> t in releasing
    {
      ForgetOriginalParent(t, reaper, quietKids);
      ghost var r := Snapshot();
      assert TaskOk(r, t);
      var p := tasks[t].proc;
      assert ProcOk(r, p);
      ExitedGood(r, t, quiet);
      var autoreap := true;
      ghost var before := procs;
      if procs[p].leader == t {
        autoreap := Alone(tasks, p, t);
        if autoreap {
          procs := procs[p := procs[p].(notified := procs[p].notified + 1, told := Some(tasks[procs[p].parent].proc))];
          MadeUpdate(before, p, procs[p]);
          autoreap := quiet;
        }
      }
      tasks := tasks[t := tasks[t].(life := Zombie)];
      if autoreap {
        tasks := tasks[t := tasks[t].(life := Dead)];
        releasing := releasing + {t};
      }
      assert Snapshot() == Exited(r, t, quiet);
      ExitedLife(r, t, quiet);
    }

    /** One turn of release_task: the thread leaves its group, and the last one behind a zombie
        leader notifies the parent, which may leave the leader to be released next. */
    method ReleaseTask(t: nat, quiet: bool)
      requires Valid() && t in releasing
      modifies this
      ensures Valid() && AllMade(procs) == AllMade(old(procs))
      ensures t < |old(tasks)| && old(tasks)[t].proc < |old(procs)|
      ensures old(procs)[old(tasks)[t].proc].leader < |old(tasks)|
      ensures old(procs)[old(tasks)[t].proc].parent < |old(tasks)|
      ensures Snapshot() == ReleasedOne(old(Snapshot()), t, quiet)
      ensures |tasks| == |old(tasks)| && tasks[t].life == Released && t !in releasing
      ensures var leader := old(procs)[old(tasks)[t].proc].leader;
              leader != t ==>
                var over := old(tasks)[leader].life == Zombie && Alone(tasks, old(tasks)[t].proc, leader);
                && tasks[leader].life == (if over && quiet then Dead else old(tasks)[leader].life)
                && (over && quiet ==> leader in releasing)
    {
      ghost var s := Snapshot();
      assert TaskOk(s, t) && ProcOk(s, tasks[t].proc);
      ReleasedGood(s, t, quiet);
      MadeReleased(s, t, quiet);
      var p := tasks[t].proc;
      var leader := procs[p].leader;
      var q := procs[p].(faults := procs[p].faults + tasks[t].faults);
      tasks := tasks[t := tasks[t].(life := Released, releases := tasks[t].releases + 1)];
      releasing := releasing - {t};
      var last := leader != t && Alone(tasks, p, leader) && tasks[leader].life == Zombie;
      if last {
        q := q.(notified := q.notified + 1, told := Some(tasks[q.parent].proc));
      }
      procs := procs[p := q];
      if last && quiet {
        tasks := tasks[leader := tasks[leader].(life := Dead)];
        releasing := releasing + {leader};
      }
      assert Snapshot() == ReleasedOne(s, t, quiet);
      ReleasedLife(s, t, quiet);
    }

    /** wait_consider_task and the first part of wait_task_zombie, up to where the lock is dropped: one
        waiter at most gets the child. */
    method ConsiderTask(w: nat, p: nat) returns (claimed: bool)
      requires Valid() && w < |tasks| && tasks[w].life == Running && p < |procs|
      modifies this
      ensures Valid() && procs == old(procs)
      ensures claimed ==> old(procs)[p].leader < |old(tasks)| && Snapshot() == Claimed(old(Snapshot()), w, p)
      ensures claimed ==> p in claims && claims[p] == w && |tasks| == |old(tasks)|
      ensures claimed ==> tasks[procs[p].leader].life == Dead
      ensures !claimed ==> Snapshot() == old(Snapshot())
      ensures claimed <==> && old(procs)[p].leader < |old(tasks)| && old(procs)[p].parent < |old(tasks)|
                           && old(tasks)[old(procs)[p].parent].proc == old(tasks)[w].proc
                           && old(tasks)[old(procs)[p].leader].life == Zombie
                           && Alone(old(tasks), p, old(procs)[p].leader)
    {
      assert ProcOk(Snapshot(), p);
      var leader := procs[p].leader;
      if tasks[procs[p].parent].proc != tasks[w].proc || tasks[leader].life != Zombie || !Alone(tasks, p, leader) {
        return false;
      }
      ClaimedGood(Snapshot(), w, p);
      tasks := tasks[leader := tasks[leader].(life := Dead)];
      claims := claims[p := w];
      claimed := true;
    }

    /** The rest of wait_task_zombie: the counters of the child go to the waiter's process, once, and
        its release is due. */
    method CollectChild(p: nat)
      requires Valid() && p in claims
      modifies this
      ensures Valid() && AllMade(procs) == AllMade(old(procs)) && tasks == old(tasks)
      ensures Collects(old(Snapshot()), p) && Snapshot() == Collected(old(Snapshot()), p)
      ensures p < |procs| == |old(procs)| && old(claims)[p] < |tasks| && tasks[old(claims)[p]].proc < |procs|
      ensures var w := tasks[old(claims)[p]].proc;
              && procs[w].childFaults == old(procs)[w].childFaults + Total(old(procs)[p])
              && procs[p].takenBy == Some(w) && old(procs)[p].takenBy == None
              && p !in claims && procs[p].leader in releasing
    {
      ghost var s := Snapshot();
      assert ProcOk(s, p);
      CollectsTotal(s, p);
      CollectedGood(s, p);
      RunningNotTaken(s, claims[p]);
      var q := procs[p];
      var w := tasks[claims[p]].proc;
      var sum := tasks[q.leader].faults + q.faults + q.childFaults;
      MadeUpdate(procs, w, procs[w].(childFaults := procs[w].childFaults + sum));
      procs := procs[w := procs[w].(childFaults := procs[w].childFaults + sum)];
      MadeUpdate(procs, p, procs[p].(takenBy := Some(w)));
      procs := procs[p := procs[p].(takenBy := Some(w))];
      releasing := releasing + {q.leader};
      claims := map x | x in claims && x != p :: claims[x];
    }

    /** One step of a run, if it can be taken; `n` counts the page faults. */
    method Step(step: Step, n: nat) returns (m: nat)
      requires Valid()
      modifies this
      ensures Valid() && AllMade(procs) == AllMade(old(procs)) + m - n
      ensures m == n + if step.Fault? && Enabled(old(Snapshot()), step) then 1 else 0
      ensures Snapshot() == old(Snapshot()) <==> !Enabled(old(Snapshot()), step)
    {
      m := n;
      match step {
        case Fault(t) =>
          if t < |tasks| && tasks[t].life == Running {
            PageFault(t);
            m := n + 1;
          }
        case NewProcess(t) =>
          if t < |tasks| && tasks[t].life == Running {
            Fork(t);
          }
        case NewThread(t) =>
          if t < |tasks| && tasks[t].life == Running {
            CloneThread(t);
          }
        case Exit(t, reaper, quietKids, quiet) =>
          if t < |tasks| && tasks[t].life == Running && t !in claims.Values && reaper < |tasks| && reaper != t
             && tasks[reaper].life == Running {
            ExitNotify(t, reaper, quietKids, quiet);
          }
        case Release(t, quiet) =>
          if t in releasing {
            ReleaseTask(t, quiet);
          }
        case Consider(w, p) =>
          if w < |tasks| && tasks[w].life == Running && p < |procs| {
            var claimed := ConsiderTask(w, p);
          }
        case Collect(p) =>
          if p in claims {
            CollectChild(p);
          }
      }
    }

    /** Any run, in any interleaving: every fault ever made is in exactly one counter that nobody has
        passed on yet. */
    method Run(steps: seq<Step>) returns (faults: nat)
      requires Valid()
      modifies this
      ensures Valid()
      ensures Outstanding(tasks, procs, |procs|) == Outstanding(old(tasks), old(procs), |old(procs)|) + faults
    {
      Conservation(Snapshot());
      faults := 0;
      var i := 0;
      while i < |steps|
        invariant 0 <= i <= |steps| && Valid() && AllMade(procs) == AllMade(old(procs)) + faults
      {
        faults := Step(steps[i], faults);
        i := i + 1;
      }
      Conservation(Snapshot());
    }
  }
}
