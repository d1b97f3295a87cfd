/** A mutex per key, its lock objects created on first use and dropped with their last user. */
module KeyedMutex {
  import opened Common

  type Key = string

  /** Lock objects, named by the order of their creation. */
  type LockId = nat

  /** One call of `mutex` in flight. */
  type Task = nat

  // ---- The table of locks ---------------------------------------------------------------------------

  datatype Table = Table(locks: map<Key, LockId>, refCount: map<Key, int>, created: nat) {
    function Count(key: Key): int { if key in refCount then refCount[key] else 0 }
  }

  function GetLock(t: Table, key: Key): Table {
    var counted := t.(refCount := t.refCount[key := t.Count(key) + 1]);
    if key in t.locks then counted else counted.(locks := t.locks[key := t.created], created := t.created + 1)
  }

  function ReleaseLock(t: Table, key: Key): Table {
    if t.Count(key) - 1 <= 0 then t.(refCount := t.refCount - {key}, locks := t.locks - {key})
    else t.(refCount := t.refCount[key := t.Count(key) - 1])
  }

  /** The object: both methods run under a guard that no task holds across an await, so each is one step. */
  class LockTable {
    var locks: map<Key, LockId>
    var refCount: map<Key, int>
    var created: nat

    function View(): Table
      reads this
    {
      Table(locks, refCount, created)
    }

    constructor ()
      ensures View() == Table(map[], map[], 0)
    {
      locks, refCount, created := map[], map[], 0;
    }

    method Get(key: Key) returns (lock: LockId)
      modifies this
      ensures View() == GetLock(old(View()), key) && key in locks && lock == locks[key]
    {
      if key !in locks {
        locks := locks[key := created];
        created := created + 1;
      }
      refCount := refCount[key := (if key in refCount then refCount[key] else 0) + 1];
      lock := locks[key];
    }

    method Release(key: Key)
      modifies this
      ensures View() == ReleaseLock(old(View()), key)
    {
      var count := (if key in refCount then refCount[key] else 0) - 1;
      refCount := refCount[key := count];
      if count <= 0 {
        refCount := refCount - {key};
        locks := locks - {key};
      }
      assert count <= 0 ==> refCount == old(refCount) - {key};
    }
  }

  // ---- All interleavings ----------------------------------------------------------------------------

  /** Where a call is: waiting for its lock, running its task under it, or about to give its reference back. */
  datatype Place = Waiting(key: Key, lock: LockId) | Critical(key: Key, lock: LockId) | Leaving(key: Key)

  datatype System = System(table: Table, tasks: map<Task, Place>, held: map<LockId, Task>)

  const INITIAL: System := System(Table(map[], map[], 0), map[], map[])

  /** Cancel is a call that is cancelled while it waits; its finally clause still gives the reference back. */
  datatype Step = Arrive(task: Task, key: Key) | Enter(task: Task) | Exit(task: Task) | Cancel(task: Task) | Depart(task: Task)

  /** A step that is not enabled does nothing. */
  function Next(s: System, step: Step): System {
    var t := step.task;
    match step
    case Arrive(_, key) =>
      if t in s.tasks then s else
      var table := GetLock(s.table, key);
      s.(table := table, tasks := s.tasks[t := Waiting(key, table.locks[key])])
    case Enter(_) =>
      if t !in s.tasks || !s.tasks[t].Waiting? || s.tasks[t].lock in s.held then s else
      s.(tasks := s.tasks[t := Critical(s.tasks[t].key, s.tasks[t].lock)], held := s.held[s.tasks[t].lock := t])
    case Exit(_) =>
      if t !in s.tasks || !s.tasks[t].Critical? then s else
      s.(tasks := s.tasks[t := Leaving(s.tasks[t].key)], held := s.held - {s.tasks[t].lock})
    case Cancel(_) =>
      if t !in s.tasks || !s.tasks[t].Waiting? then s else
      s.(tasks := s.tasks[t := Leaving(s.tasks[t].key)])
    case Depart(_) =>
      if t !in s.tasks || !s.tasks[t].Leaving? then s else
      s.(table := ReleaseLock(s.table, s.tasks[t].key), tasks := s.tasks - {t})
  }

  function Run(s: System, steps: seq<Step>): System
    decreases |steps|
  {
    if steps == [] then s else Run(Next(s, steps[0]), steps[1..])
  }

  /** The calls between acquiring and giving back a reference for one key. */
  function Users(tasks: map<Task, Place>, key: Key): set<Task> {
    set t | t in tasks && tasks[t].key == key
  }

  /** An entry exists exactly while it has users, and counts them. */
  ghost predicate Counted(s: System) {
    forall k :: s.table.Count(k) == |Users(s.tasks, k)|
      && (k in s.table.refCount <==> k in s.table.locks)
      && (k in s.table.locks <==> Users(s.tasks, k) != {})
  }

  /** All users of a key that have a lock have the one in the table, and different keys have different locks. */
  ghost predicate Shared(s: System) {
    && (forall t :: t in s.tasks && !s.tasks[t].Leaving? ==>
          s.tasks[t].key in s.table.locks && s.tasks[t].lock == s.table.locks[s.tasks[t].key])
    && (forall k :: k in s.table.locks ==> s.table.locks[k] < s.table.created)
    && (forall j, k :: j in s.table.locks && k in s.table.locks && s.table.locks[j] == s.table.locks[k] ==> j == k)
  }

  /** A lock is held by the task that is critical under it. */
  ghost predicate Owned(s: System) {
    && (forall l :: l in s.held ==> s.held[l] in s.tasks && s.tasks[s.held[l]].Critical? && s.tasks[s.held[l]].lock == l)
    && (forall t :: t in s.tasks && s.tasks[t].Critical? ==> s.tasks[t].lock in s.held && s.held[s.tasks[t].lock] == t)
  }

  ghost predicate Invariant(s: System) {
    Counted(s) && Shared(s) && Owned(s)
  }

  lemma UsersAdd(tasks: map<Task, Place>, t: Task, p: Place, k: Key)
    requires t !in tasks
    ensures Users(tasks[t := p], k) == if p.key == k then Users(tasks, k) + {t} else Users(tasks, k)
  {
  }

  lemma UsersMove(tasks: map<Task, Place>, t: Task, p: Place, k: Key)
    requires t in tasks && tasks[t].key == p.key
    ensures Users(tasks[t := p], k) == Users(tasks, k)
  {
  }

  lemma UsersRemove(tasks: map<Task, Place>, t: Task, k: Key)
    requires t in tasks
    ensures Users(tasks - {t}, k) == Users(tasks, k) - {t}
  {
  }

  lemma ArriveCounted(s: System, t: Task, key: Key)
    requires Invariant(s) && t !in s.tasks
    ensures Counted(Next(s, Arrive(t, key)))
  {
    hide Shared, Owned;
    var r := Next(s, Arrive(t, key));
    forall k
      ensures r.table.Count(k) == |Users(r.tasks, k)|
        && (k in r.table.refCount <==> k in r.table.locks)
        && (k in r.table.locks <==> Users(r.tasks, k) != {})
    {
      UsersAdd(s.tasks, t, r.tasks[t], k);
      assert s.table.Count(k) == |Users(s.tasks, k)|;
    }
  }

  lemma ArriveShared(s: System, t: Task, key: Key)
    requires Invariant(s) && t !in s.tasks
    ensures Shared(Next(s, Arrive(t, key)))
  {
    hide Counted, Owned;
  }

  lemma ArriveOwned(s: System, t: Task, key: Key)
    requires Invariant(s) && t !in s.tasks
    ensures Owned(Next(s, Arrive(t, key)))
  {
    hide Counted, Shared;
  }

  lemma MoveCounted(s: System, r: System, t: Task, p: Place)
    requires Counted(s) && t in s.tasks && s.tasks[t].key == p.key
    requires r.table == s.table && r.tasks == s.tasks[t := p]
    ensures Counted(r)
  {
    forall k
      ensures Users(r.tasks, k) == Users(s.tasks, k)
    {
      UsersMove(s.tasks, t, p, k);
    }
  }

  lemma DepartCounted(s: System, t: Task)
    requires Invariant(s) && t in s.tasks && s.tasks[t].Leaving?
    ensures Counted(Next(s, Depart(t)))
  {
    var r := Next(s, Depart(t));
    forall k
      ensures r.table.Count(k) == |Users(r.tasks, k)|
        && (k in r.table.refCount <==> k in r.table.locks)
        && (k in r.table.locks <==> Users(r.tasks, k) != {})
    {
      UsersRemove(s.tasks, t, k);
      assert s.table.Count(k) == |Users(s.tasks, k)|;
      assert t in Users(s.tasks, s.tasks[t].key);
      if k != s.tasks[t].key {
        assert Users(s.tasks, k) - {t} == Users(s.tasks, k);
      }
    }
  }

  /** A lock object is dropped only when no other user is left to hold or await it. */
  lemma DepartShared(s: System, t: Task)
    requires Invariant(s) && t in s.tasks && s.tasks[t].Leaving?
    ensures Shared(Next(s, Depart(t)))
  {
    var r, key := Next(s, Depart(t)), s.tasks[t].key;
    forall u | u in r.tasks && !r.tasks[u].Leaving?
      ensures r.tasks[u].key in r.table.locks && r.tasks[u].lock == r.table.locks[r.tasks[u].key]
    {
      if r.tasks[u].key == key {
        assert {t, u} <= Users(s.tasks, key);
        assert |{t, u}| == 2;
        SubsetSize({t, u}, Users(s.tasks, key));
        assert s.table.Count(key) == |Users(s.tasks, key)|;
      }
    }
  }

  lemma MoveShared(s: System, r: System, t: Task, p: Place)
    requires Shared(s) && t in s.tasks && s.tasks[t].key == p.key
    requires !p.Leaving? ==> !s.tasks[t].Leaving? && p.lock == s.tasks[t].lock
    requires r.table == s.table && r.tasks == s.tasks[t := p]
    ensures Shared(r)
  {
  }

  lemma MoveOwned(s: System, step: Step)
    requires Shared(s) && Owned(s) && !step.Arrive?
    ensures Owned(Next(s, step))
  {
    hide GetLock, ReleaseLock;
  }

  lemma NextKeeps(s: System, step: Step)
    requires Invariant(s)
    ensures Invariant(Next(s, step))
  {
    hide Counted, Shared, Owned, GetLock, ReleaseLock;
    var t, r := step.task, Next(s, step);
    if r != s {
      match step {
        case Arrive(_, key) =>
          ArriveCounted(s, t, key);
          ArriveShared(s, t, key);
          ArriveOwned(s, t, key);
        case Depart(_) =>
          DepartCounted(s, t);
          DepartShared(s, t);
          MoveOwned(s, step);
        case Enter(_) =>
          MoveCounted(s, r, t, r.tasks[t]);
          MoveShared(s, r, t, r.tasks[t]);
          MoveOwned(s, step);
        case Exit(_) =>
          MoveCounted(s, r, t, r.tasks[t]);
          MoveShared(s, r, t, r.tasks[t]);
          MoveOwned(s, step);
        case Cancel(_) =>
          MoveCounted(s, r, t, r.tasks[t]);
          MoveShared(s, r, t, r.tasks[t]);
          MoveOwned(s, step);
      }
    }
  }

  lemma {:induction false} RunKeeps(s: System, steps: seq<Step>)
    requires Invariant(s)
    ensures Invariant(Run(s, steps))
    decreases |steps|
  {
    if steps != [] {
      NextKeeps(s, steps[0]);
      RunKeeps(Next(s, steps[0]), steps[1..]);
    }
  }

  ghost predicate Busy(s: System, key: Key) {
    exists u :: u in s.tasks && s.tasks[u].Critical? && s.tasks[u].key == key
  }

  lemma HeldIsBusy(s: System, t: Task)
    requires Shared(s) && Owned(s) && t in s.tasks && s.tasks[t].Waiting? && s.tasks[t].lock in s.held
    ensures Busy(s, s.tasks[t].key)
  {
    var u := s.held[s.tasks[t].lock];
    assert s.table.locks[s.tasks[u].key] == s.table.locks[s.tasks[t].key];
  }

  /** Over every interleaving: a waiting call may enter exactly while no call is in the critical section of its key. */
  lemma EntersExactlyWhenFree(steps: seq<Step>, t: Task)
    requires t in Run(INITIAL, steps).tasks && Run(INITIAL, steps).tasks[t].Waiting?
    ensures var s := Run(INITIAL, steps);
      if Busy(s, s.tasks[t].key) then Next(s, Enter(t)) == s
      else Next(s, Enter(t)).tasks == s.tasks[t := Critical(s.tasks[t].key, s.tasks[t].lock)]
  {
    hide Run;
    RunKeeps(INITIAL, steps);
    var s := Run(INITIAL, steps);
    if u :| u in s.tasks && s.tasks[u].Critical? && s.tasks[u].key == s.tasks[t].key {
      assert s.tasks[u].lock == s.tasks[t].lock && s.tasks[u].lock in s.held;
    }
    if s.tasks[t].lock in s.held {
      HeldIsBusy(s, t);
    }
  }

  /** A call that leaves its critical section lets the next waiting one in, whichever that is. */
  lemma ExitLetsIn(steps: seq<Step>, t: Task, u: Task)
    requires var s := Run(INITIAL, steps);
      && t in s.tasks && s.tasks[t].Critical?
      && u in s.tasks && s.tasks[u].Waiting? && s.tasks[u].key == s.tasks[t].key
    ensures var s := Run(INITIAL, steps);
      var r := Next(Next(s, Exit(t)), Enter(u));
      && r.tasks[t] == Leaving(s.tasks[t].key)
      && r.tasks[u] == Critical(s.tasks[u].key, s.tasks[u].lock)
  {
    hide Run;
    RunKeeps(INITIAL, steps);
    var s := Run(INITIAL, steps);
    assert s.tasks[u].lock == s.tasks[t].lock;
  }

  /** Over every interleaving: two calls are never in the critical section of one key. */
  lemma MutualExclusion(steps: seq<Step>, t: Task, u: Task)
    requires var s := Run(INITIAL, steps);
      && t in s.tasks && u in s.tasks && s.tasks[t].Critical? && s.tasks[u].Critical?
      && s.tasks[t].key == s.tasks[u].key
    ensures t == u
  {
    RunKeeps(INITIAL, steps);
  }

  /** A call for the key that waits for its lock or runs under it. */
  predicate HasLock(s: System, t: Task, key: Key) {
    t in s.tasks && s.tasks[t].key == key && !s.tasks[t].Leaving?
  }

  /**
   * Over every interleaving: the reference count is the number of calls, and a lock exists just while it is positive,
   * shared by all calls that wait for it or run under it.
   */
  lemma CountsUsers(steps: seq<Step>, key: Key)
    ensures var s := Run(INITIAL, steps);
      && s.table.Count(key) == |Users(s.tasks, key)|
      && (key in s.table.locks <==> s.table.Count(key) > 0)
      && (forall t, u :: HasLock(s, t, key) && HasLock(s, u, key) ==> s.tasks[t].lock == s.tasks[u].lock)
  {
    RunKeeps(INITIAL, steps);
  }

  /** When no call is in flight no entry is left behind. */
  lemma NothingLeaks(steps: seq<Step>)
    requires Run(INITIAL, steps).tasks == map[]
    ensures Run(INITIAL, steps).table.locks == map[] && Run(INITIAL, steps).table.refCount == map[]
  {
    RunKeeps(INITIAL, steps);
    var s := Run(INITIAL, steps);
    forall k
      ensures k !in s.table.locks && k !in s.table.refCount
    {
      assert Users(s.tasks, k) == {};
    }
    assert s.table.locks.Keys == {} && s.table.refCount.Keys == {};
  }
}
