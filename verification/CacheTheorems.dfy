/** Freshness, single flight and the lock registry of the read-through cache, over all runs. */
module CacheTheorems {
  import opened CacheProtocol

  lemma InitInv(s: State)
    requires Init(s)
    ensures Inv(s)
  {
    forall key ensures RegistryOk(s.locks, s.tasks, key) {
      assert Borrowers(s.tasks, key) == {};
    }
  }

  // ---------------------------------------------------------------- freshness

  ghost predicate Later(h: History, h': History)
  {
    && h.tick < h'.tick
    && (forall ns :: GenerationOf(h, ns) <= GenerationOf(h', ns) && WritesOf(h, ns) <= WritesOf(h', ns))
    && (forall ns, g: nat :: g <= GenerationOf(h, ns) ==> InstallOf(h', ns, g) == InstallOf(h, ns, g))
  }

  lemma StepIsLater(s: State, a: Action)
    requires HistoryOk(s.h) && Enabled(s, a)
    ensures Later(s.h, Apply(s, a).h) && HistoryOk(Apply(s, a).h)
  {
    if a.Invalidate? {
      BumpIsLater(s.h, a.namespace);
    } else {
      var w := if a.Write? then s.h.writes[a.namespace := WritesOf(s.h, a.namespace) + 1] else s.h.writes;
      assert Apply(s, a).h == s.h.(writes := w, tick := s.h.tick + 1);
      WritesAreLater(s.h, w);
    }
  }

  lemma WritesAreLater(h: History, w: map<string, nat>)
    requires HistoryOk(h) && forall ns :: WritesOf(h, ns) <= WritesOf(h.(writes := w), ns)
    ensures Later(h, h.(writes := w, tick := h.tick + 1)) && HistoryOk(h.(writes := w, tick := h.tick + 1))
  {
  }

  lemma BumpIsLater(h: History, namespace: string)
    requires HistoryOk(h)
    ensures Later(h, Bump(h, namespace).(tick := h.tick + 1)) && HistoryOk(Bump(h, namespace).(tick := h.tick + 1))
  {
  }

  lemma StageKept(h: History, h': History, task: Task)
    requires Later(h, h') && StageFresh(h, task)
    ensures StageFresh(h', task)
  {
  }

  /** A loader that starts now starts after the key's generation was installed. */
  lemma NewLoaderIsFresh(h: History, h': History, key: Key)
    requires HistoryOk(h) && Later(h, h') && key.generation <= GenerationOf(h, key.namespace)
    ensures FreshFor(h', key, Value(h.tick, WritesOf(h, key.namespace), QueryOf(key)))
  {
  }

  /** Where the value that a moved task carries comes from. */
  lemma CarriedFrom(s: State, a: Action)
    requires Enabled(s, a) && !a.Write? && !a.Invalidate? && !a.Lose? && !a.Forget? && !a.MakeKey?
    ensures a.t in Apply(s, a).tasks && Apply(s, a).tasks[a.t].key == s.tasks[a.t].key
    ensures Apply(s, a).tasks[a.t].query == s.tasks[a.t].query
    ensures var was, now := Carried(s.tasks[a.t]), Carried(Apply(s, a).tasks[a.t]);
            || now.None? || now == was
            || (s.tasks[a.t].key in s.store && now.value == s.store[s.tasks[a.t].key])
            || (a.StartLoader? && now.value == Value(s.h.tick, WritesOf(s.h, s.tasks[a.t].key.namespace), s.tasks[a.t].query))
            || (a.LoaderReturns? && was.Some? && now.value.started == was.value.started
                && now.value.query == s.tasks[a.t].query
                && was.value.asOf <= now.value.asOf <= WritesOf(s.h, s.tasks[a.t].key.namespace))
  {
  }

  /** The task that moves carries only what it read from the store or loaded. */
  lemma MoveFresh(s: State, a: Action)
    requires Freshness(s) && Enabled(s, a) && !a.Write? && !a.Invalidate? && !a.Lose? && !a.Forget? && !a.MakeKey?
    ensures a.t in Apply(s, a).tasks && StageFresh(Apply(s, a).h, Apply(s, a).tasks[a.t])
  {
    var h, h', task := s.h, Apply(s, a).h, s.tasks[a.t];
    StepIsLater(s, a);
    CarriedFrom(s, a);
    assert StageFresh(h, task);
    NewLoaderIsFresh(h, h', task.key);
  }

  /** A new task carries nothing, under a generation that is or was current. */
  lemma NewTaskFresh(s: State, a: Action, t: TaskId)
    requires Freshness(s) && Enabled(s, a) && (a.MakeKey? || a.ReadStale?) && t !in s.tasks && t in Apply(s, a).tasks
    ensures StageFresh(Apply(s, a).h, Apply(s, a).tasks[t])
  {
    if a.ReadStale? { assert StageFresh(s.h, s.tasks[a.t]); }
    hide HistoryOk;
    hide FreshFor;
  }

  predicate MovesTask(a: Action)
  {
    !a.Write? && !a.Invalidate? && !a.Lose? && !a.Forget? && !a.MakeKey?
  }

  /** A task after a step is as before, new, or the one that moved. */
  lemma WhoChanged(s: State, a: Action, t: TaskId)
    requires Enabled(s, a) && t in Apply(s, a).tasks
    ensures || (t in s.tasks && Apply(s, a).tasks[t] == s.tasks[t])
            || (t !in s.tasks && (a.MakeKey? || a.ReadStale?))
            || (MovesTask(a) && t == a.t)
  {
    hide BorrowLock;
    hide ReturnLock;
    hide Bump;
  }

  lemma TasksFresh(s: State, a: Action, t: TaskId)
    requires Freshness(s) && Enabled(s, a) && t in Apply(s, a).tasks
    ensures StageFresh(Apply(s, a).h, Apply(s, a).tasks[t])
  {
    StepIsLater(s, a);
    WhoChanged(s, a, t);
    hide StageFresh;
    hide HistoryOk;
    hide Apply;
    hide Enabled;
    hide Later;
    if t in s.tasks && Apply(s, a).tasks[t] == s.tasks[t] {
      StageKept(s.h, Apply(s, a).h, s.tasks[t]);
    } else if t !in s.tasks && (a.MakeKey? || a.ReadStale?) {
      NewTaskFresh(s, a, t);
    } else {
      MoveFresh(s, a);
    }
  }

  lemma FreshKept(h: History, h': History, key: Key, v: Value)
    requires Later(h, h') && FreshFor(h, key, v)
    ensures FreshFor(h', key, v)
  {
  }

  /** What is stored was stored before or carried by the task that stores it. */
  lemma StoredFrom(s: State, a: Action, key: Key)
    requires Enabled(s, a) && key in Apply(s, a).store
    ensures || (key in s.store && Apply(s, a).store[key] == s.store[key])
            || (a.StoreValue? && s.tasks[a.t].key == key && Carried(s.tasks[a.t]) == Some(Apply(s, a).store[key]))
  {
    hide BorrowLock;
    hide ReturnLock;
    hide Bump;
  }

  lemma StoreFresh(s: State, a: Action, key: Key)
    requires Freshness(s) && Enabled(s, a) && key in Apply(s, a).store
    ensures FreshFor(Apply(s, a).h, key, Apply(s, a).store[key])
  {
    StepIsLater(s, a);
    StoredFrom(s, a, key);
    assert a.StoreValue? ==> StageFresh(s.h, s.tasks[a.t]);
    hide Apply;
    hide Enabled;
    hide Later;
    hide HistoryOk;
    hide FreshFor;
    FreshKept(s.h, Apply(s, a).h, key, Apply(s, a).store[key]);
  }

  lemma FreshnessKept(s: State, a: Action)
    requires Freshness(s) && Enabled(s, a)
    ensures Freshness(Apply(s, a))
  {
    var u := Apply(s, a);
    StepIsLater(s, a);
    forall key | key in u.store ensures FreshFor(u.h, key, u.store[key]) { StoreFresh(s, a, key); }
    forall t | t in u.tasks ensures StageFresh(u.h, u.tasks[t]) { TasksFresh(s, a, t); }
  }

  // ---------------------------------------------------------------- locks

  /** A move of one task between stages that borrow the same lock, or that borrow none. */
  ghost predicate SameBorrowing(s: State, u: State, t: TaskId)
  {
    && t in s.tasks && t in u.tasks && u.tasks == s.tasks[t := u.tasks[t]]
    && u.tasks[t].key == s.tasks[t].key && u.locks == s.locks && u.nextLock == s.nextLock
    && (Borrows(u.tasks[t].stage) <==> Borrows(s.tasks[t].stage))
    && (Borrows(s.tasks[t].stage) ==> u.tasks[t].stage.lock == s.tasks[t].stage.lock)
  }

  lemma SameBorrowingRegistry(s: State, u: State, t: TaskId)
    requires LocksOk(s) && SameBorrowing(s, u, t)
    ensures forall key :: RegistryOk(u.locks, u.tasks, key)
  {
    forall key ensures RegistryOk(u.locks, u.tasks, key) {
      assert RegistryOk(s.locks, s.tasks, key);
      assert Borrowers(u.tasks, key) == Borrowers(s.tasks, key);
    }
  }

  ghost predicate OwnersOk(s: State)
  {
    && (forall lock :: lock in s.owners ==>
          s.owners[lock] in s.tasks && HoldsLock(s.tasks[s.owners[lock]].stage)
          && s.tasks[s.owners[lock]].stage.lock == lock)
    && (forall t :: t in s.tasks && HoldsLock(s.tasks[t].stage) ==>
          s.tasks[t].stage.lock in s.owners && s.owners[s.tasks[t].stage.lock] == t)
  }

  /** Actions that do not touch the registry. */
  predicate LeavesRegistry(a: Action)
  {
    a.ReadFresh? || a.ReadMiss? || a.Acquire? || a.RereadFresh? || a.StartLoader? || a.LoaderReturns?
    || a.StoreValue? || a.Abort?
  }

  lemma StageMoveLocks(s: State, a: Action)
    requires LocksOk(s) && Enabled(s, a) && LeavesRegistry(a)
    ensures LocksOk(Apply(s, a))
  {
    var u := Apply(s, a);
    StageMoveOwners(s, a);
    hide RegistryOk;
    assert SameBorrowing(s, u, a.t);
    SameBorrowingRegistry(s, u, a.t);
  }

  lemma StageMoveOwners(s: State, a: Action)
    requires LocksOk(s) && Enabled(s, a) && LeavesRegistry(a)
    ensures OwnersOk(Apply(s, a))
  {
    hide RegistryOk;
  }

  lemma QuietLocks(s: State, a: Action)
    requires LocksOk(s) && Enabled(s, a) && (a.Write? || a.Invalidate? || a.Lose?)
    ensures LocksOk(Apply(s, a))
  {
  }

  ghost predicate Borrowing(tasks: map<TaskId, Task>, t: TaskId)
  {
    t in tasks && Borrows(tasks[t].stage)
  }

  ghost predicate SameBorrowers(tasks: map<TaskId, Task>, tasks': map<TaskId, Task>)
  {
    forall t {:trigger Borrowing(tasks, t)} {:trigger Borrowing(tasks', t)} ::
      (Borrowing(tasks, t) <==> Borrowing(tasks', t)) && (Borrowing(tasks, t) ==> tasks'[t] == tasks[t])
  }

  /** Tasks that do not borrow come and go. */
  lemma BystanderLocks(s: State, u: State)
    requires LocksOk(s) && u.locks == s.locks && u.owners == s.owners && u.nextLock == s.nextLock
    requires SameBorrowers(s.tasks, u.tasks)
    ensures LocksOk(u)
  {
    forall key ensures RegistryOk(u.locks, u.tasks, key) {
      assert RegistryOk(s.locks, s.tasks, key);
      forall t ensures t in Borrowers(u.tasks, key) <==> t in Borrowers(s.tasks, key) {
        assert Borrowing(s.tasks, t) <==> Borrowing(u.tasks, t);
      }
      assert Borrowers(u.tasks, key) == Borrowers(s.tasks, key);
      assert forall t :: t in Borrowers(u.tasks, key) ==> Borrowing(u.tasks, t);
    }
    assert forall lock :: lock in s.owners ==> Borrowing(s.tasks, s.owners[lock]);
    assert forall t :: t in u.tasks && HoldsLock(u.tasks[t].stage) ==> Borrowing(u.tasks, t);
    assert OwnersOk(u);
  }

  /** A new borrower gets the lock that all others have, or a new one if there are none. */
  lemma BorrowMine(locks: map<Key, Users>, nextLock: LockId, tasks: map<TaskId, Task>, t: TaskId)
    requires t in tasks && !Borrows(tasks[t].stage) && RegistryOk(locks, tasks, tasks[t].key)
    ensures var key, lock := tasks[t].key, BorrowLock(locks, nextLock, tasks[t].key).1;
            RegistryOk(BorrowLock(locks, nextLock, key).0, tasks[t := tasks[t].(stage := Waiting(lock))], key)
  {
    var key := tasks[t].key;
    var tasks' := tasks[t := tasks[t].(stage := Waiting(BorrowLock(locks, nextLock, key).1))];
    assert Borrowers(tasks', key) == Borrowers(tasks, key) + {t};
  }

  lemma BorrowOther(locks: map<Key, Users>, nextLock: LockId, tasks: map<TaskId, Task>, t: TaskId, key: Key)
    requires t in tasks && tasks[t].key != key && RegistryOk(locks, tasks, key)
    ensures var lock := BorrowLock(locks, nextLock, tasks[t].key).1;
            RegistryOk(BorrowLock(locks, nextLock, tasks[t].key).0, tasks[t := tasks[t].(stage := Waiting(lock))], key)
  {
    var lock := BorrowLock(locks, nextLock, tasks[t].key).1;
    assert Borrowers(tasks[t := tasks[t].(stage := Waiting(lock))], key) == Borrowers(tasks, key);
  }

  lemma BorrowLocks(s: State, a: Action)
    requires LocksOk(s) && Enabled(s, a) && a.Borrow?
    ensures LocksOk(Apply(s, a))
  {
    var u := Apply(s, a);
    forall key ensures RegistryOk(u.locks, u.tasks, key) {
      assert RegistryOk(s.locks, s.tasks, key);
      if key == s.tasks[a.t].key {
        BorrowMine(s.locks, s.nextLock, s.tasks, a.t);
      } else {
        BorrowOther(s.locks, s.nextLock, s.tasks, a.t, key);
      }
    }
    assert u.owners == s.owners && u.tasks == s.tasks[a.t := u.tasks[a.t]] && !HoldsLock(u.tasks[a.t].stage);
    assert OwnersOk(u);
  }

  lemma GiveBackLocks(s: State, a: Action)
    requires LocksOk(s) && Enabled(s, a) && a.GiveBack?
    ensures LocksOk(Apply(s, a))
  {
    var u := Apply(s, a);
    var mine := s.tasks[a.t].key;
    assert RegistryOk(s.locks, s.tasks, mine) && a.t in Borrowers(s.tasks, mine);
    forall key ensures RegistryOk(u.locks, u.tasks, key) {
      assert RegistryOk(s.locks, s.tasks, key);
      if key == mine {
        assert Borrowers(u.tasks, key) == Borrowers(s.tasks, key) - {a.t};
      } else {
        assert Borrowers(u.tasks, key) == Borrowers(s.tasks, key);
      }
    }
    assert OwnersOk(u);
  }

  lemma LocksKept(s: State, a: Action)
    requires LocksOk(s) && Enabled(s, a)
    ensures LocksOk(Apply(s, a))
  {
    match a
    case Write(_) => QuietLocks(s, a);
    case Invalidate(_) => QuietLocks(s, a);
    case Lose(_) => QuietLocks(s, a);
    case MakeKey(_, _, _) => BystanderLocks(s, Apply(s, a));
    case ReadStale(_, _) => BystanderLocks(s, Apply(s, a));
    case Forget(_) => BystanderLocks(s, Apply(s, a));
    case Borrow(_) => BorrowLocks(s, a);
    case GiveBack(_) => GiveBackLocks(s, a);
    case _ => StageMoveLocks(s, a);
  }

  // ---------------------------------------------------------------- refreshes

  lemma RefreshKept(s: State, a: Action)
    requires RefreshOk(s) && Enabled(s, a)
    ensures RefreshOk(Apply(s, a))
  {
    var u := Apply(s, a);
    if a.Write? || a.Invalidate? || a.Lose? {
      assert u.tasks == s.tasks && u.refreshing == s.refreshing;
    } else if a.MakeKey? || a.Forget? {
      RefreshersSame(s, u);
    } else if a.ReadStale? && s.tasks[a.t].key !in s.refreshing {
      RefreshClaimed(s, u, a);
    } else if a.GiveBack? && s.tasks[a.t].background {
      RefreshEnded(s, u, a);
    } else {
      RefreshersSame(s, u);
    }
  }

  /** The live refreshes are the same tasks as before. */
  lemma RefreshersSame(s: State, u: State)
    requires RefreshOk(s) && u.refreshing == s.refreshing
    requires forall t, key :: RefreshesKey(u.tasks, t, key) <==> RefreshesKey(s.tasks, t, key)
    requires forall t :: t in u.tasks && Refreshes(u.tasks[t]) ==> !u.tasks[t].stage.Keyed?
    ensures RefreshOk(u)
  {
    forall t | t in u.tasks && Refreshes(u.tasks[t]) ensures u.tasks[t].key in u.refreshing {
      assert RefreshesKey(u.tasks, t, u.tasks[t].key);
    }
    forall key | key in u.refreshing ensures exists t :: RefreshesKey(u.tasks, t, key) {
      var t :| RefreshesKey(s.tasks, t, key);
      assert RefreshesKey(u.tasks, t, key);
    }
  }

  lemma RefreshClaimed(s: State, u: State, a: Action)
    requires RefreshOk(s) && a.ReadStale? && Enabled(s, a) && u == Apply(s, a) && s.tasks[a.t].key !in s.refreshing
    ensures RefreshOk(u)
  {
    var mine := s.tasks[a.t].key;
    forall t, key ensures RefreshesKey(u.tasks, t, key) <==> RefreshesKey(s.tasks, t, key) || (t == a.refresher && key == mine) { }
    forall t, v, key | RefreshesKey(u.tasks, t, key) && RefreshesKey(u.tasks, v, key) ensures t == v { }
    forall key | key in u.refreshing ensures exists t :: RefreshesKey(u.tasks, t, key) {
      if key == mine {
        assert RefreshesKey(u.tasks, a.refresher, key);
      } else {
        var t :| RefreshesKey(s.tasks, t, key);
        assert RefreshesKey(u.tasks, t, key);
      }
    }
  }

  lemma RefreshEnded(s: State, u: State, a: Action)
    requires RefreshOk(s) && a.GiveBack? && Enabled(s, a) && u == Apply(s, a) && s.tasks[a.t].background
    ensures RefreshOk(u)
  {
    var mine := s.tasks[a.t].key;
    assert RefreshesKey(s.tasks, a.t, mine);
    forall t, key ensures RefreshesKey(u.tasks, t, key) <==> RefreshesKey(s.tasks, t, key) && t != a.t { }
    forall t | t in u.tasks && Refreshes(u.tasks[t]) ensures u.tasks[t].key in u.refreshing {
      assert RefreshesKey(s.tasks, t, u.tasks[t].key);
    }
    forall key | key in u.refreshing ensures exists t :: RefreshesKey(u.tasks, t, key) {
      var t :| RefreshesKey(s.tasks, t, key);
      assert RefreshesKey(u.tasks, t, key);
    }
  }

  lemma StepInv(s: State, a: Action)
    requires Inv(s) && Enabled(s, a)
    ensures Inv(Apply(s, a))
  {
    FreshnessKept(s, a);
    LocksKept(s, a);
    RefreshKept(s, a);
  }

  // ---------------------------------------------------------------- runs

  ghost predicate Run(s: State, acts: seq<Action>, u: State)
    decreases |acts|
  {
    if acts == [] then s == u
    else Enabled(s, acts[0]) && Run(Apply(s, acts[0]), acts[1..], u)
  }

  lemma {:induction false} RunInv(s: State, acts: seq<Action>, u: State)
    requires Inv(s) && Run(s, acts, u)
    ensures Inv(u)
    decreases |acts|
  {
    if acts != [] {
      StepInv(s, acts[0]);
      RunInv(Apply(s, acts[0]), acts[1..], u);
    }
  }

  ghost predicate NotEarlier(h: History, h': History)
  {
    h == h' || Later(h, h')
  }

  lemma {:induction false} RunHistory(s: State, acts: seq<Action>, u: State)
    requires Inv(s) && Run(s, acts, u)
    ensures NotEarlier(s.h, u.h)
    decreases |acts|
  {
    if acts != [] {
      StepInv(s, acts[0]);
      StepIsLater(s, acts[0]);
      RunHistory(Apply(s, acts[0]), acts[1..], u);
      LaterTrans(s.h, Apply(s, acts[0]).h, u.h);
    }
  }

  lemma LaterTrans(a: History, b: History, c: History)
    requires Later(a, b) && NotEarlier(b, c)
    ensures Later(a, c)
  {
  }

  /** Later generations were installed later. */
  ghost predicate InstallsInOrder(h: History)
  {
    forall ns, g: nat, k: nat {:trigger InstallOf(h, ns, g), InstallOf(h, ns, k)} ::
      g <= k <= GenerationOf(h, ns) ==>
        InstallOf(h, ns, g).tick <= InstallOf(h, ns, k).tick && InstallOf(h, ns, g).writes <= InstallOf(h, ns, k).writes
  }

  lemma OrderStep(s: State, a: Action)
    requires HistoryOk(s.h) && Enabled(s, a) && InstallsInOrder(s.h)
    ensures InstallsInOrder(Apply(s, a).h)
  {
    var h, h' := s.h, Apply(s, a).h;
    StepIsLater(s, a);
    forall ns, g: nat, k: nat {:trigger InstallOf(h', ns, g), InstallOf(h', ns, k)} | g <= k <= GenerationOf(h', ns)
      ensures InstallOf(h', ns, g).tick <= InstallOf(h', ns, k).tick
      ensures InstallOf(h', ns, g).writes <= InstallOf(h', ns, k).writes
    {
      if k <= GenerationOf(h, ns) {
        assert InstallOf(h', ns, g) == InstallOf(h, ns, g) && InstallOf(h', ns, k) == InstallOf(h, ns, k);
      } else if g < k {
        assert InstallOf(h', ns, g) == InstallOf(h, ns, g);
        assert InstallOf(h', ns, k) == Install(h.tick, WritesOf(h, ns));
      }
    }
  }

  lemma {:induction false} RunOrder(s: State, acts: seq<Action>, u: State)
    requires Inv(s) && Run(s, acts, u) && InstallsInOrder(s.h)
    ensures InstallsInOrder(u.h)
    decreases |acts|
  {
    if acts != [] {
      OrderStep(s, acts[0]);
      StepInv(s, acts[0]);
      RunOrder(Apply(s, acts[0]), acts[1..], u);
    }
  }

  lemma InitFacts(s: State)
    requires Init(s)
    ensures Inv(s) && InstallsInOrder(s.h)
  {
  }

  lemma RunFacts(s: State, acts: seq<Action>, u: State)
    requires Inv(s) && InstallsInOrder(s.h) && Run(s, acts, u)
    ensures Inv(u) && HistoryOk(u.h) && InstallsInOrder(u.h) && NotEarlier(s.h, u.h)
  {
    RunInv(s, acts, u);
    RunOrder(s, acts, u);
    RunHistory(s, acts, u);
  }

  lemma StepFacts(s: State, a: Action)
    requires Inv(s) && InstallsInOrder(s.h) && Enabled(s, a)
    ensures Inv(Apply(s, a)) && InstallsInOrder(Apply(s, a).h) && NotEarlier(s.h, Apply(s, a).h)
    ensures a.Invalidate? ==> Apply(s, a).h == Bump(s.h, a.namespace).(tick := s.h.tick + 1)
  {
    StepInv(s, a);
    OrderStep(s, a);
    StepIsLater(s, a);
  }

  lemma NotEarlierTrans(a: History, b: History, c: History)
    requires NotEarlier(a, b) && NotEarlier(b, c)
    ensures NotEarlier(a, c)
  {
  }

  /** A fresh enough value, seen from the invalidation that preceded the making of its key. */
  lemma FreshSince(h1: History, h2: History, h3: History, ns: string, key: Key, v: Value)
    requires HistoryOk(h1) && HistoryOk(h2) && InstallsInOrder(h2) && NotEarlier(Bump(h1, ns).(tick := h1.tick + 1), h2)
    requires NotEarlier(h2, h3) && key.namespace == ns && key.generation == GenerationOf(h2, ns) && FreshFor(h3, key, v)
    ensures h1.tick <= v.started && WritesOf(h1, ns) <= v.asOf <= WritesOf(h3, ns)
  {
    var h1' := Bump(h1, ns).(tick := h1.tick + 1);
    var g := GenerationOf(h1', ns);
    assert InstallOf(h1', ns, g) == Install(h1.tick, WritesOf(h1, ns));
    assert InstallOf(h2, ns, g) == InstallOf(h1', ns, g);
    assert g <= key.generation;
    assert InstallOf(h2, ns, g).tick <= InstallOf(h2, ns, key.generation).tick;
    assert InstallOf(h3, ns, key.generation) == InstallOf(h2, ns, key.generation);
  }

  lemma AnswerIsFresh(s: State, t: TaskId, answer: Value)
    requires Inv(s) && t in s.tasks && s.tasks[t].stage == Done(Some(answer))
    ensures FreshFor(s.h, s.tasks[t].key, answer) && answer.query == s.tasks[t].query
  {
    assert StageFresh(s.h, s.tasks[t]);
  }

  // ---------------------------------------------------------------- a task and its request

  /** No step of the run forgets task t. */
  ghost predicate Remembers(acts: seq<Action>, t: TaskId)
  {
    forall i :: 0 <= i < |acts| ==> acts[i] != Forget(t)
  }

  lemma RequestKeptStep(s: State, a: Action, t: TaskId)
    requires Enabled(s, a) && t in s.tasks && a != Forget(t)
    ensures t in Apply(s, a).tasks && Apply(s, a).tasks[t].(stage := Keyed) == s.tasks[t].(stage := Keyed)
  {
    hide BorrowLock;
    hide ReturnLock;
    hide Bump;
  }

  /** A task works on the same request as long as it lives. */
  lemma {:induction false} RequestKept(s: State, acts: seq<Action>, u: State, t: TaskId)
    requires Run(s, acts, u) && t in s.tasks && Remembers(acts, t)
    ensures t in u.tasks && u.tasks[t].(stage := Keyed) == s.tasks[t].(stage := Keyed)
    decreases |acts|
  {
    if acts != [] {
      assert acts[0] != Forget(t);
      RequestKeptStep(s, acts[0], t);
      RequestKept(Apply(s, acts[0]), acts[1..], u, t);
    }
  }

  /** The key of a request is made of its namespace, the generation at that moment and its digest. */
  lemma KeyOfRequest(s: State, t: TaskId, namespace: string, digest: string, acts: seq<Action>, u: State)
    requires Enabled(s, MakeKey(t, namespace, digest))
    requires Run(Apply(s, MakeKey(t, namespace, digest)), acts, u) && Remembers(acts, t)
    ensures t in u.tasks && u.tasks[t].query == Query(namespace, digest)
    ensures u.tasks[t].key == Key(namespace, GenerationOf(s.h, namespace), digest)
  {
    RequestKept(Apply(s, MakeKey(t, namespace, digest)), acts, u, t);
  }

  /** How often an action occurs in a run. */
  function Times(acts: seq<Action>, a: Action): nat
  {
    if acts == [] then 0 else (if acts[0] == a then 1 else 0) + Times(acts[1..], a)
  }

  lemma CountedStep(s: State, a: Action, namespace: string)
    requires Enabled(s, a)
    ensures WritesOf(Apply(s, a).h, namespace) == WritesOf(s.h, namespace) + if a == Write(namespace) then 1 else 0
    ensures GenerationOf(Apply(s, a).h, namespace) == GenerationOf(s.h, namespace) + if a == Invalidate(namespace) then 1 else 0
  {
    hide BorrowLock;
    hide ReturnLock;
  }

  /** Every write of a run counts, and every invalidation moves its namespace to the next generation. */
  lemma {:induction false} WritesAreCounted(s: State, acts: seq<Action>, u: State, namespace: string)
    requires Run(s, acts, u)
    ensures WritesOf(u.h, namespace) == WritesOf(s.h, namespace) + Times(acts, Write(namespace))
    ensures GenerationOf(u.h, namespace) == GenerationOf(s.h, namespace) + Times(acts, Invalidate(namespace))
    decreases |acts|
  {
    if acts != [] {
      CountedStep(s, acts[0], namespace);
      hide Apply;
      hide Enabled;
      WritesAreCounted(Apply(s, acts[0]), acts[1..], u, namespace);
    }
  }

  /**
   * Freshness.  An invalidation of a namespace completes in a reachable state s1; a request for a
   * query makes its key later, in s2, and later still, in s3, it has an answer.  The key is made of
   * the namespace, its generation and the digest.  The answer comes from a loader of that very
   * query, which began after the invalidation, and reflects every write that was committed before it.
   */
  lemma AnswersAreFresh(
    s0: State, before: seq<Action>, s1: State, namespace: string, s1': State,
    between: seq<Action>, s2: State, t: TaskId, digest: string, s2': State,
    after: seq<Action>, s3: State, answer: Value)
    requires Init(s0) && Run(s0, before, s1)
    requires Enabled(s1, Invalidate(namespace)) && s1' == Apply(s1, Invalidate(namespace))
    requires Run(s1', between, s2)
    requires Enabled(s2, MakeKey(t, namespace, digest)) && s2' == Apply(s2, MakeKey(t, namespace, digest))
    requires Run(s2', after, s3) && Remembers(after, t)
    requires t in s3.tasks && s3.tasks[t].stage == Done(Some(answer))
    ensures s3.tasks[t].key == Key(namespace, GenerationOf(s2.h, namespace), digest)
    ensures answer.query == Query(namespace, digest)
    ensures s1.h.tick <= answer.started
    ensures WritesOf(s1.h, namespace) <= answer.asOf <= WritesOf(s3.h, namespace)
  {
    hide *;
    KeyOfRequest(s2, t, namespace, digest, after, s3);
    InitFacts(s0);
    RunFacts(s0, before, s1);
    StepFacts(s1, Invalidate(namespace));
    RunFacts(s1', between, s2);
    StepFacts(s2, MakeKey(t, namespace, digest));
    RunFacts(s2', after, s3);
    NotEarlierTrans(s2.h, s2'.h, s3.h);
    AnswerIsFresh(s3, t, answer);
    FreshSince(s1.h, s2.h, s3.h, namespace, s3.tasks[t].key, answer);
  }

  /** With no write since the key's generation was installed, a cached answer is what a loader would return now. */
  lemma AnswersMatchTheLoader(s0: State, acts: seq<Action>, s: State, t: TaskId, answer: Value)
    requires Init(s0) && Run(s0, acts, s) && t in s.tasks && s.tasks[t].stage == Done(Some(answer))
    requires var key := s.tasks[t].key;
             InstallOf(s.h, key.namespace, key.generation).writes == WritesOf(s.h, key.namespace)
    ensures answer.asOf == WritesOf(s.h, s.tasks[t].key.namespace)
  {
    InitInv(s0);
    RunInv(s0, acts, s);
    assert StageFresh(s.h, s.tasks[t]);
  }

  // ---------------------------------------------------------------- what caching gives

  /** No step drops the entry of the key or stores another. */
  ghost predicate Undisturbed(s: State, acts: seq<Action>, key: Key)
    decreases |acts|
  {
    acts != [] ==>
      && Enabled(s, acts[0]) && acts[0] != Lose(key)
      && (acts[0].StoreValue? ==> s.tasks[acts[0].t].key != key)
      && Undisturbed(Apply(s, acts[0]), acts[1..], key)
  }

  lemma EntryKeptStep(s: State, a: Action, key: Key)
    requires Enabled(s, a) && key in s.store && a != Lose(key) && (a.StoreValue? ==> s.tasks[a.t].key != key)
    ensures key in Apply(s, a).store && Apply(s, a).store[key] == s.store[key]
  {
  }

  lemma {:induction false} EntryKept(s: State, acts: seq<Action>, u: State, key: Key)
    requires Run(s, acts, u) && Undisturbed(s, acts, key) && key in s.store
    ensures key in u.store && u.store[key] == s.store[key]
    decreases |acts|
  {
    if acts != [] {
      EntryKeptStep(s, acts[0], key);
      EntryKept(Apply(s, acts[0]), acts[1..], u, key);
    }
  }

  /** Whatever reads the key of task v, it is given the value. */
  ghost predicate Given(u: State, v: TaskId, value: Value)
    requires v in u.tasks
  {
    && (u.tasks[v].stage.Keyed? ==>
          Enabled(u, ReadFresh(v)) && TaskAt(Apply(u, ReadFresh(v)), v, Done(Some(value))))
    && (u.tasks[v].stage.Keyed? ==> forall r :: r !in u.tasks ==>
          Enabled(u, ReadStale(v, r)) && TaskAt(Apply(u, ReadStale(v, r)), v, Done(Some(value))))
    && (u.tasks[v].stage.Locked? ==>
          Enabled(u, RereadFresh(v))
          && TaskAt(Apply(u, RereadFresh(v)), v, Releasing(u.tasks[v].stage.lock, Some(value))))
  }

  lemma GivenWhatIsStored(u: State, v: TaskId)
    requires v in u.tasks && u.tasks[v].key in u.store
    ensures Given(u, v, u.store[u.tasks[v].key])
  {
  }

  lemma StoreEntry(s: State, t: TaskId)
    requires Enabled(s, StoreValue(t))
    ensures s.tasks[t].key in Apply(s, StoreValue(t)).store
    ensures Apply(s, StoreValue(t)).store[s.tasks[t].key] == s.tasks[t].stage.loaded
  {
  }

  /** What a task loads is what the next readers of its key are given. */
  lemma LoadedOnce(s: State, t: TaskId, acts: seq<Action>, u: State, v: TaskId)
    requires t in s.tasks && s.tasks[t].stage.Storing? && Enabled(s, StoreValue(t))
    requires Run(Apply(s, StoreValue(t)), acts, u) && Undisturbed(Apply(s, StoreValue(t)), acts, s.tasks[t].key)
    requires v in u.tasks && u.tasks[v].key == s.tasks[t].key
    ensures Given(u, v, s.tasks[t].stage.loaded)
  {
    hide *;
    StoreEntry(s, t);
    EntryKept(Apply(s, StoreValue(t)), acts, u, s.tasks[t].key);
    GivenWhatIsStored(u, v);
  }

  /** An entry is there after a step if it was there and is not lost, or if it has just been stored. */
  lemma EntryIff(s: State, a: Action, key: Key)
    requires Enabled(s, a)
    ensures key in Apply(s, a).store <==>
            (key in s.store && a != Lose(key)) || (a.StoreValue? && s.tasks[a.t].key == key)
  {
    hide BorrowLock;
    hide ReturnLock;
    hide Bump;
  }

  lemma Aborts(s: State, t: TaskId) returns (u: State)
    requires t in s.tasks && HoldsLock(s.tasks[t].stage) && s.tasks[t].stage.lock in s.owners
    ensures Enabled(s, Abort(t)) && u == Apply(s, Abort(t))
    ensures u.tasks == s.tasks[t := s.tasks[t].(stage := Releasing(s.tasks[t].stage.lock, None))]
    ensures u.owners == s.owners - {s.tasks[t].stage.lock} && u.store == s.store
  {
    u := Apply(s, Abort(t));
  }

  lemma GivesBack(s: State, t: TaskId, lock: LockId, answer: Option<Value>) returns (u: State)
    requires TaskAt(s, t, Releasing(lock, answer))
    ensures Enabled(s, GiveBack(t)) && u == Apply(s, GiveBack(t))
    ensures u.tasks == s.tasks[t := s.tasks[t].(stage := Done(answer))] && u.owners == s.owners && u.store == s.store
    ensures s.tasks[t].background ==> s.tasks[t].key !in u.refreshing
  {
    u := Apply(s, GiveBack(t));
  }

  /** A lock that nobody owns can be acquired by whoever waits for it. */
  lemma WaiterCanGoOn(s: State, w: TaskId, lock: LockId)
    requires TaskAt(s, w, Waiting(lock)) && lock !in s.owners
    ensures Enabled(s, Acquire(w))
  {
  }

  /**
   * A caller whose loader fails, or that is cancelled, gets no answer and frees the lock: nobody owns
   * it, and whoever waits for it can go on.
   */
  lemma FailureFreesTheLock(s: State, t: TaskId) returns (u: State)
    requires Inv(s) && t in s.tasks && HoldsLock(s.tasks[t].stage)
    ensures Run(s, [Abort(t), GiveBack(t)], u) && TaskAt(u, t, Done(None)) && u.store == s.store
    ensures s.tasks[t].stage.lock in s.owners && u.owners == s.owners - {s.tasks[t].stage.lock}
    ensures forall w :: TaskAt(s, w, Waiting(s.tasks[t].stage.lock)) ==> TaskAt(u, w, Waiting(s.tasks[t].stage.lock)) && Enabled(u, Acquire(w))
    ensures s.tasks[t].background ==> s.tasks[t].key !in u.refreshing
  {
    var lock := s.tasks[t].stage.lock;
    assert lock in s.owners;
    hide Inv;
    hide Apply;
    hide Enabled;
    var v := Aborts(s, t);
    u := GivesBack(v, t, lock, None);
    RunOne(v, GiveBack(t), u);
    assert [Abort(t), GiveBack(t)][1..] == [GiveBack(t)];
    forall w | TaskAt(s, w, Waiting(lock)) ensures TaskAt(u, w, Waiting(lock)) && Enabled(u, Acquire(w)) {
      WaiterCanGoOn(u, w, lock);
    }
  }

  /**
   * Writes, invalidations, losses and new requests may come at any time, and a caller that waits for the
   * lock may be cancelled, which leaves it without an answer.
   */
  lemma WhateverMayCome(s: State, key: Key, t: TaskId, w: TaskId, lock: LockId)
    ensures Enabled(s, Write(key.namespace)) && Enabled(s, Invalidate(key.namespace)) && Enabled(s, Lose(key))
    ensures t !in s.tasks ==> Enabled(s, MakeKey(t, key.namespace, key.digest))
    ensures TaskAt(s, w, Waiting(lock)) ==>
              Enabled(s, Abort(w)) && Enabled(Apply(s, Abort(w)), GiveBack(w))
              && TaskAt(Apply(Apply(s, Abort(w)), GiveBack(w)), w, Done(None))
              && Apply(Apply(s, Abort(w)), GiveBack(w)).owners == s.owners
  {
  }

  // ---------------------------------------------------------------- a load by itself

  ghost predicate TaskAt(s: State, t: TaskId, stage: Stage)
  {
    t in s.tasks && s.tasks[t].stage == stage
  }

  /** u is s but for the stage of task t, and the lock it holds as the only user of its key. */
  ghost predicate Alone(s: State, u: State, t: TaskId, lock: LockId)
  {
    && t in s.tasks && t in u.tasks && u.tasks == s.tasks[t := s.tasks[t].(stage := u.tasks[t].stage)]
    && s.tasks[t].key !in s.locks && u.locks == s.locks[s.tasks[t].key := Users(lock, 1)]
    && lock !in s.owners && u.owners == s.owners[lock := t]
    && u.refreshing == s.refreshing
  }

  /** A caller that finds nothing, and nobody else at its key, can take the lock. */
  lemma TakesLock(s: State, t: TaskId) returns (u: State, lock: LockId)
    requires LocksOk(s) && TaskAt(s, t, Keyed) && s.tasks[t].key !in s.locks
    ensures Run(s, [ReadMiss(t), Borrow(t), Acquire(t)], u) && Alone(s, u, t, lock) && TaskAt(u, t, Locked(lock))
    ensures u.store == s.store && u.h == s.h.(tick := s.h.tick + 3)
  {
    var s1 := Apply(s, ReadMiss(t));
    var s2 := Apply(s1, Borrow(t));
    lock := s.nextLock;
    NewLockIsFree(s);
    u := Apply(s2, Acquire(t));
    RunThree(s, ReadMiss(t), s1, Borrow(t), s2, Acquire(t), u);
  }

  lemma NewLockIsFree(s: State)
    requires LocksOk(s)
    ensures s.nextLock !in s.owners
  {
    forall lock | lock in s.owners ensures lock < s.nextLock {
      var o := s.owners[lock];
      assert RegistryOk(s.locks, s.tasks, s.tasks[o].key);
      assert o in Borrowers(s.tasks, s.tasks[o].key);
    }
  }

  lemma RunOne(s: State, a: Action, u: State)
    requires Enabled(s, a) && u == Apply(s, a)
    ensures Run(s, [a], u)
  {
    hide Apply;
    hide Enabled;
    assert [a][1..] == [] && Run(u, [], u);
  }

  lemma RunThree(s: State, a: Action, u: State, b: Action, v: State, c: Action, w: State)
    requires Enabled(s, a) && u == Apply(s, a) && Enabled(u, b) && v == Apply(u, b) && Enabled(v, c) && w == Apply(v, c)
    ensures Run(s, [a, b, c], w)
  {
    hide Apply;
    hide Enabled;
    RunOne(v, c, w);
    assert [b, c][1..] == [c] && Run(u, [b, c], w);
    assert [a, b, c][1..] == [b, c];
  }

  /** The holder of the lock runs its loader, stores what it returned and is answered with it. */
  lemma Loads(s: State, v: State, t: TaskId, lock: LockId) returns (u: State)
    requires Alone(s, v, t, lock) && TaskAt(v, t, Locked(lock))
    ensures Run(v, [StartLoader(t), LoaderReturns(t, WritesOf(v.h, s.tasks[t].key.namespace)), StoreValue(t)], u)
    ensures var value := Value(v.h.tick, WritesOf(v.h, s.tasks[t].key.namespace), s.tasks[t].query);
            && u.tasks == s.tasks[t := s.tasks[t].(stage := Releasing(lock, Some(value)))]
            && u.store == v.store[s.tasks[t].key := value]
    ensures u.locks == s.locks[s.tasks[t].key := Users(lock, 1)] && u.owners == s.owners && u.refreshing == s.refreshing
  {
    var asOf := WritesOf(v.h, s.tasks[t].key.namespace);
    var s1 := Apply(v, StartLoader(t));
    var s2 := Apply(s1, LoaderReturns(t, asOf));
    u := Apply(s2, StoreValue(t));
    RunThree(v, StartLoader(t), s1, LoaderReturns(t, asOf), s2, StoreValue(t), u);
  }

  lemma {:induction false} RunThen(s: State, acts: seq<Action>, u: State, more: seq<Action>, v: State)
    requires Run(s, acts, u) && Run(u, more, v)
    ensures Run(s, acts + more, v)
    decreases |acts|
  {
    if acts == [] {
      assert acts + more == more;
    } else {
      assert (acts + more)[1..] == acts[1..] + more;
      RunThen(Apply(s, acts[0]), acts[1..], u, more, v);
    }
  }

  /** Give the lock back, with nobody else at the key. */
  lemma Leaves(s: State, w: State, t: TaskId, lock: LockId, answer: Option<Value>) returns (u: State)
    requires t in s.tasks && !s.tasks[t].background && s.tasks[t].key !in s.locks
    requires w.tasks == s.tasks[t := s.tasks[t].(stage := Releasing(lock, answer))]
    requires w.locks == s.locks[s.tasks[t].key := Users(lock, 1)]
    ensures Run(w, [GiveBack(t)], u)
    ensures u.tasks == s.tasks[t := s.tasks[t].(stage := Done(answer))] && u.locks == s.locks
    ensures u.store == w.store && u.owners == w.owners && u.refreshing == w.refreshing
  {
    u := Apply(w, GiveBack(t));
    RunOne(w, GiveBack(t), u);
  }

  /**
   * A caller that finds nothing can load by itself, whatever else is going on: its answer is what its
   * loader returned, which is stored under its key, and it leaves no lock behind.
   */
  lemma MissIsLoaded(s: State, t: TaskId) returns (acts: seq<Action>, u: State)
    requires Inv(s) && TaskAt(s, t, Keyed) && s.tasks[t].key !in s.locks
    ensures Run(s, acts, u)
    ensures var key := s.tasks[t].key;
            var value := Value(s.h.tick + 3, WritesOf(s.h, key.namespace), QueryOf(key));
            && u.tasks == s.tasks[t := s.tasks[t].(stage := Done(Some(value)))]
            && u.store == s.store[key := value] && u.locks == s.locks && u.owners == s.owners && u.refreshing == s.refreshing
  {
    assert t in s.tasks;
    hide *;
    StartsClean(s, t);
    var key := s.tasks[t].key;
    var v, lock := TakesLock(s, t);
    var w := Loads(s, v, t, lock);
    SameWrites(s.h, v.h, key.namespace);
    u := Leaves(s, w, t, lock, Some(Value(s.h.tick + 3, WritesOf(s.h, key.namespace), QueryOf(key))));
    var first := [ReadMiss(t), Borrow(t), Acquire(t)];
    var second := [StartLoader(t), LoaderReturns(t, WritesOf(v.h, key.namespace)), StoreValue(t)];
    acts := first + second + [GiveBack(t)];
    RunThen(s, first, v, second, w);
    RunThen(s, first + second, w, [GiveBack(t)], u);
  }

  lemma StartsClean(s: State, t: TaskId)
    requires Inv(s) && TaskAt(s, t, Keyed)
    ensures LocksOk(s) && s.tasks[t].query == QueryOf(s.tasks[t].key) && !s.tasks[t].background
  {
    assert StageFresh(s.h, s.tasks[t]);
    hide Freshness;
    hide LocksOk;
  }

  lemma SameWrites(h: History, h': History, namespace: string)
    requires h'.writes == h.writes
    ensures WritesOf(h', namespace) == WritesOf(h, namespace)
  {
  }

  /** At most one loader per key runs at a time. */
  lemma SingleFlight(s0: State, acts: seq<Action>, s: State, t: TaskId, u: TaskId)
    requires Init(s0) && Run(s0, acts, s) && t in s.tasks && u in s.tasks
    requires s.tasks[t].key == s.tasks[u].key && s.tasks[t].stage.Loading? && s.tasks[u].stage.Loading?
    ensures t == u
  {
    InitInv(s0);
    RunInv(s0, acts, s);
    var key := s.tasks[t].key;
    assert RegistryOk(s.locks, s.tasks, key);
    assert t in Borrowers(s.tasks, key) && u in Borrowers(s.tasks, key);
  }

  /** The registry: one lock per key, counted, and gone when nobody uses it. */
  lemma Registry(s0: State, acts: seq<Action>, s: State, key: Key)
    requires Init(s0) && Run(s0, acts, s)
    ensures key in s.locks <==> Borrowers(s.tasks, key) != {}
    ensures key in s.locks ==> s.locks[key].count == |Borrowers(s.tasks, key)|
    ensures forall t, u :: t in Borrowers(s.tasks, key) && u in Borrowers(s.tasks, key) ==>
              s.tasks[t].stage.lock == s.tasks[u].stage.lock == s.locks[key].lock
    ensures forall k :: k in s.locks && key in s.locks && s.locks[k].lock == s.locks[key].lock ==> k == key
  {
    InitInv(s0);
    RunInv(s0, acts, s);
    assert RegistryOk(s.locks, s.tasks, key);
  }

  /** At most one background refresh per key is live, and exactly then the key is marked. */
  lemma OneRefresh(s0: State, acts: seq<Action>, s: State, key: Key)
    requires Init(s0) && Run(s0, acts, s)
    ensures key in s.refreshing <==> exists t :: RefreshesKey(s.tasks, t, key)
    ensures forall t, u :: RefreshesKey(s.tasks, t, key) && RefreshesKey(s.tasks, u, key) ==> t == u
  {
    InitInv(s0);
    RunInv(s0, acts, s);
  }
}
