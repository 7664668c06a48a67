/**
 * The read-through cache (CacheManager in framework/cache.py) as concurrent tasks over a
 * backend that may drop any entry at any time and never fails.  Every stretch of code
 * between two awaits is one action.
 */
module CacheProtocol {

  type TaskId = int
  type LockId = int

  /** make_key: the namespace, its generation when the key was made, and the payload's digest. */
  datatype Key = Key(namespace: string, generation: nat, digest: string)

  /** What a caller wants read: the payload of make_key, by its digest, in a namespace. */
  datatype Query = Query(namespace: string, digest: string)

  /**
   * A loaded value: the tick at which its loader started, how many writes to the namespace
   * it reflects, and the query that its loader ran.
   */
  datatype Value = Value(started: nat, asOf: nat, query: Query)

  datatype Option<+T> = None | Some(value: T)

  /** Where a task stands in get_or_set_json, _load_locked or _refresh. */
  datatype Stage =
    | Keyed                                    // has its key, has not read the backend
    | Queued                                   // about to call _lock_for
    | Waiting(lock: LockId)                    // borrowed the lock, waits to acquire it
    | Locked(lock: LockId)
    | Loading(lock: LockId, since: nat, seen: nat)
    | Storing(lock: LockId, loaded: Value)
    | Releasing(lock: LockId, result: Option<Value>)
    | Done(answer: Option<Value>)              // None: the loader failed or the call was cancelled

  /** A caller, or a background refresh that was handed the loader of a caller: it loads the query. */
  datatype Task = Task(query: Query, key: Key, background: bool, stage: Stage)

  datatype Users = Users(lock: LockId, count: int)

  /** What happened to a namespace when a generation was installed. */
  datatype Install = Install(tick: nat, writes: nat)

  /** Everything that only grows. */
  datatype History = History(
    tick: nat,
    writes: map<string, nat>,                  // committed writes per namespace
    generations: map<string, nat>,             // the backend's generation counters
    installs: map<(string, nat), Install>)

  datatype State = State(
    h: History,
    store: map<Key, Value>,
    tasks: map<TaskId, Task>,
    locks: map<Key, Users>,
    owners: map<LockId, TaskId>,
    nextLock: LockId,
    refreshing: set<Key>)

  datatype Action =
    | Write(namespace: string)
    | Invalidate(namespace: string)
    | Lose(key: Key)
    | MakeKey(t: TaskId, namespace: string, digest: string)
    | ReadFresh(t: TaskId)
    | ReadStale(t: TaskId, refresher: TaskId)
    | ReadMiss(t: TaskId)
    | Borrow(t: TaskId)
    | Acquire(t: TaskId)
    | RereadFresh(t: TaskId)
    | StartLoader(t: TaskId)
    | LoaderReturns(t: TaskId, asOf: nat)
    | StoreValue(t: TaskId)
    | Abort(t: TaskId)
    | GiveBack(t: TaskId)
    | Forget(t: TaskId)

  function GenerationOf(h: History, namespace: string): nat
  {
    if namespace in h.generations then h.generations[namespace] else 0
  }

  function WritesOf(h: History, namespace: string): nat
  {
    if namespace in h.writes then h.writes[namespace] else 0
  }

  /** Generation 0 is in force from the start. */
  function InstallOf(h: History, namespace: string, generation: nat): Install
  {
    if (namespace, generation) in h.installs then h.installs[(namespace, generation)] else Install(0, 0)
  }

  // ---------------------------------------------------------------- the lock registry

  /** _lock_for (cache.py:152-166) */
  function BorrowLock(locks: map<Key, Users>, nextLock: LockId, key: Key): (map<Key, Users>, LockId, LockId)
  {
    if key in locks then (locks[key := Users(locks[key].lock, locks[key].count + 1)], locks[key].lock, nextLock)
    else (locks[key := Users(nextLock, 1)], nextLock, nextLock + 1)
  }

  /** _release_lock (cache.py:168-177) */
  function ReturnLock(locks: map<Key, Users>, key: Key, lock: LockId): map<Key, Users>
  {
    if key !in locks || locks[key].lock != lock then locks
    else if locks[key].count - 1 <= 0 then locks - {key}
    else locks[key := Users(lock, locks[key].count - 1)]
  }

  /** The fields of CacheManager that the two guards protect. */
  class CacheManager {
    var locks: map<Key, Users>
    var nextLock: LockId      // identity of the next asyncio.Lock()
    var refreshing: set<Key>

    constructor ()
      ensures locks == map[] && refreshing == {}
    {
      locks, nextLock, refreshing := map[], 0, {};
    }

    method LockFor(key: Key) returns (lock: LockId)
      modifies this
      ensures (locks, lock, nextLock) == old(BorrowLock(locks, nextLock, key)) && refreshing == old(refreshing)
    {
      if key !in locks {
        lock := nextLock;
        nextLock := nextLock + 1;
        locks := locks[key := Users(lock, 1)];
        return;
      }
      var entry := locks[key];
      locks := locks[key := Users(entry.lock, entry.count + 1)];
      lock := entry.lock;
    }

    method ReleaseLock(key: Key, lock: LockId)
      modifies this`locks
      ensures locks == old(ReturnLock(locks, key, lock))
    {
      if key !in locks || locks[key].lock != lock { return; }
      var users := locks[key].count - 1;
      if users <= 0 {
        locks := locks - {key};
      } else {
        locks := locks[key := Users(lock, users)];
      }
    }

    /** The manager's fields are those of the machine in state s. */
    ghost predicate Mirrors(s: State)
      reads this
    {
      locks == s.locks && nextLock == s.nextLock && refreshing == s.refreshing
    }

    /**
     * cache.py:286-289: claim the background refresh of the key that task t found stale; r is the
     * background task that a successful claim starts. The claim succeeds exactly if no task is
     * refreshing the key, and the step taken is the machine's.
     */
    method ClaimRefresh(key: Key, ghost s: State, ghost t: TaskId, ghost r: TaskId) returns (mine: bool)
      requires Mirrors(s) && RefreshOk(s) && Enabled(s, ReadStale(t, r)) && s.tasks[t].key == key
      modifies this`refreshing
      ensures mine <==> !exists u :: RefreshesKey(s.tasks, u, key)
      ensures Mirrors(Apply(s, ReadStale(t, r)))
      ensures mine <==> RefreshesKey(Apply(s, ReadStale(t, r)).tasks, r, key)
    {
      mine := key !in refreshing;
      refreshing := refreshing + {key};
    }

    /** cache.py:278-279 */
    method EndRefresh(key: Key)
      modifies this`refreshing
      ensures refreshing == old(refreshing) - {key}
    {
      refreshing := refreshing - {key};
    }
  }

  // ---------------------------------------------------------------- actions

  predicate HoldsLock(stage: Stage)
  {
    stage.Locked? || stage.Loading? || stage.Storing?
  }

  ghost predicate Enabled(s: State, a: Action)
  {
    match a
    case Write(_) => true
    case Invalidate(_) => true
    case Lose(_) => true
    case MakeKey(t, _, _) => t !in s.tasks
    case ReadFresh(t) => t in s.tasks && s.tasks[t].stage.Keyed? && s.tasks[t].key in s.store
    case ReadStale(t, r) =>
      t in s.tasks && s.tasks[t].stage.Keyed? && s.tasks[t].key in s.store && r !in s.tasks
    case ReadMiss(t) => t in s.tasks && s.tasks[t].stage.Keyed?
    case Borrow(t) => t in s.tasks && s.tasks[t].stage.Queued?
    case Acquire(t) => t in s.tasks && s.tasks[t].stage.Waiting? && s.tasks[t].stage.lock !in s.owners
    case RereadFresh(t) => t in s.tasks && s.tasks[t].stage.Locked? && s.tasks[t].key in s.store
    case StartLoader(t) => t in s.tasks && s.tasks[t].stage.Locked?
    case LoaderReturns(t, asOf) =>
      // a loader reads the data at some moments while it runs
      t in s.tasks && s.tasks[t].stage.Loading?
      && s.tasks[t].stage.seen <= asOf <= WritesOf(s.h, s.tasks[t].key.namespace)
    case StoreValue(t) => t in s.tasks && s.tasks[t].stage.Storing?
    case Abort(t) => t in s.tasks && (s.tasks[t].stage.Waiting? || HoldsLock(s.tasks[t].stage))
    case GiveBack(t) => t in s.tasks && s.tasks[t].stage.Releasing?
    case Forget(t) => t in s.tasks && s.tasks[t].stage.Done?
  }

  function Move(s: State, t: TaskId, stage: Stage): State
    requires t in s.tasks
  {
    s.(tasks := s.tasks[t := s.tasks[t].(stage := stage)])
  }

  /** Leave `async with lock`: release it if held, then go on to _release_lock. */
  function LeaveLock(s: State, t: TaskId, result: Option<Value>): State
    requires t in s.tasks && (s.tasks[t].stage.Waiting? || HoldsLock(s.tasks[t].stage))
  {
    var lock := s.tasks[t].stage.lock;
    Move(s, t, Releasing(lock, result)).(owners := if HoldsLock(s.tasks[t].stage) then s.owners - {lock} else s.owners)
  }

  /** backend.bump_generation: atomic, and remembered in the history. */
  function Bump(h: History, ns: string): History
  {
    var g := GenerationOf(h, ns) + 1;
    h.(generations := h.generations[ns := g], installs := h.installs[(ns, g) := Install(h.tick, WritesOf(h, ns))])
  }

  ghost function Effect(s: State, a: Action): State
    requires Enabled(s, a)
  {
    match a
    case Write(ns) => s.(h := s.h.(writes := s.h.writes[ns := WritesOf(s.h, ns) + 1]))
    case Invalidate(ns) => s.(h := Bump(s.h, ns))
    case Lose(key) => s.(store := s.store - {key})
    case MakeKey(t, ns, digest) =>
      s.(tasks := s.tasks[t := Task(Query(ns, digest), Key(ns, GenerationOf(s.h, ns), digest), false, Keyed)])
    case ReadFresh(t) => Move(s, t, Done(Some(s.store[s.tasks[t].key])))
    case ReadStale(t, r) =>
      var key := s.tasks[t].key;
      var answered := Move(s, t, Done(Some(s.store[key])));
      if key in s.refreshing then answered
      else answered.(refreshing := s.refreshing + {key},
                     tasks := answered.tasks[r := Task(s.tasks[t].query, key, true, Queued)])
    case ReadMiss(t) => Move(s, t, Queued)
    case Borrow(t) =>
      var (locks, lock, nextLock) := BorrowLock(s.locks, s.nextLock, s.tasks[t].key);
      Move(s, t, Waiting(lock)).(locks := locks, nextLock := nextLock)
    case Acquire(t) =>
      var lock := s.tasks[t].stage.lock;
      Move(s, t, Locked(lock)).(owners := s.owners[lock := t])
    case RereadFresh(t) => LeaveLock(s, t, Some(s.store[s.tasks[t].key]))
    case StartLoader(t) =>
      Move(s, t, Loading(s.tasks[t].stage.lock, s.h.tick, WritesOf(s.h, s.tasks[t].key.namespace)))
    case LoaderReturns(t, asOf) =>
      Move(s, t, Storing(s.tasks[t].stage.lock, Value(s.tasks[t].stage.since, asOf, s.tasks[t].query)))
    case StoreValue(t) =>
      LeaveLock(s, t, Some(s.tasks[t].stage.loaded))
        .(store := s.store[s.tasks[t].key := s.tasks[t].stage.loaded])
    case Abort(t) => LeaveLock(s, t, None)
    case GiveBack(t) =>
      var task := s.tasks[t];
      Move(s, t, Done(task.stage.result)).(
        locks := ReturnLock(s.locks, task.key, task.stage.lock),
        refreshing := if task.background then s.refreshing - {task.key} else s.refreshing)
    case Forget(t) => s.(tasks := s.tasks - {t})
  }

  ghost function Apply(s: State, a: Action): State
    requires Enabled(s, a)
  {
    var u := Effect(s, a);
    u.(h := u.h.(tick := s.h.tick + 1))
  }

  ghost predicate Init(s: State)
  {
    s.h == History(0, map[], map[], map[]) && s.store == map[]
    && s.tasks == map[] && s.locks == map[] && s.owners == map[] && s.refreshing == {}
  }

  // ---------------------------------------------------------------- invariant

  function QueryOf(key: Key): Query
  {
    Query(key.namespace, key.digest)
  }

  /** The value came from a loader of the key's query that started after its generation was installed. */
  ghost predicate FreshFor(h: History, key: Key, v: Value)
  {
    && v.query == QueryOf(key)
    && key.generation <= GenerationOf(h, key.namespace)
    && InstallOf(h, key.namespace, key.generation).tick <= v.started < h.tick
    && InstallOf(h, key.namespace, key.generation).writes <= v.asOf <= WritesOf(h, key.namespace)
  }

  /** The value a task carries, or the one its loader will return at the earliest. */
  function Carried(task: Task): Option<Value>
  {
    match task.stage
    case Loading(_, since, seen) => Some(Value(since, seen, task.query))
    case Storing(_, v) => Some(v)
    case Releasing(_, result) => result
    case Done(answer) => answer
    case _ => None
  }

  ghost predicate StageFresh(h: History, task: Task)
  {
    && task.query == QueryOf(task.key)
    && task.key.generation <= GenerationOf(h, task.key.namespace)
    && (Carried(task).Some? ==> FreshFor(h, task.key, Carried(task).value))
  }

  ghost predicate HistoryOk(h: History)
  {
    forall ns, g {:trigger (ns, g) in h.installs} :: (ns, g) in h.installs ==>
      && g <= GenerationOf(h, ns) && h.installs[(ns, g)].tick < h.tick
      && h.installs[(ns, g)].writes <= WritesOf(h, ns)
  }

  ghost predicate Freshness(s: State)
  {
    && HistoryOk(s.h)
    && (forall key :: key in s.store ==> FreshFor(s.h, key, s.store[key]))
    && (forall t :: t in s.tasks ==> StageFresh(s.h, s.tasks[t]))
  }

  /** Between _lock_for and _release_lock. */
  predicate Borrows(stage: Stage)
  {
    stage.Waiting? || HoldsLock(stage) || stage.Releasing?
  }

  ghost function Borrowers(tasks: map<TaskId, Task>, key: Key): set<TaskId>
  {
    set t | t in tasks && tasks[t].key == key && Borrows(tasks[t].stage)
  }

  ghost predicate RegistryOk(locks: map<Key, Users>, tasks: map<TaskId, Task>, key: Key)
  {
    && (key in locks ==> locks[key].count == |Borrowers(tasks, key)| && Borrowers(tasks, key) != {})
    && (key !in locks ==> Borrowers(tasks, key) == {})
    && (forall t :: t in Borrowers(tasks, key) ==> key in locks && tasks[t].stage.lock == locks[key].lock)
  }

  ghost predicate LocksOk(s: State)
  {
    && (forall key :: RegistryOk(s.locks, s.tasks, key))
    && (forall k, l :: k in s.locks && l in s.locks && s.locks[k].lock == s.locks[l].lock ==> k == l)
    && (forall k :: k in s.locks ==> s.locks[k].lock < s.nextLock)
    && (forall lock :: lock in s.owners ==>
          s.owners[lock] in s.tasks && HoldsLock(s.tasks[s.owners[lock]].stage)
          && s.tasks[s.owners[lock]].stage.lock == lock)
    && (forall t :: t in s.tasks && HoldsLock(s.tasks[t].stage) ==>
          s.tasks[t].stage.lock in s.owners && s.owners[s.tasks[t].stage.lock] == t)
  }

  /** A background refresh that has not ended. */
  predicate Refreshes(task: Task)
  {
    task.background && !task.stage.Done?
  }

  ghost predicate RefreshesKey(tasks: map<TaskId, Task>, t: TaskId, key: Key)
  {
    t in tasks && Refreshes(tasks[t]) && tasks[t].key == key
  }

  ghost predicate RefreshOk(s: State)
  {
    && (forall t :: t in s.tasks && Refreshes(s.tasks[t]) ==> s.tasks[t].key in s.refreshing && !s.tasks[t].stage.Keyed?)
    && (forall t, u, key :: RefreshesKey(s.tasks, t, key) && RefreshesKey(s.tasks, u, key) ==> t == u)
    && (forall key :: key in s.refreshing ==> exists t :: RefreshesKey(s.tasks, t, key))
  }

  ghost predicate Inv(s: State)
  {
    Freshness(s) && LocksOk(s) && RefreshOk(s)
  }
}
