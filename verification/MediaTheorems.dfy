/** What interleaved saves and deletes keep. */
module MediaTheorems {
  import opened Media

  // ---------------------------------------------------------------- sums of an owner's rows

  lemma OwnedAfterInsert(media: map<string, MediaRow>, row: MediaRow, account: Account)
    requires row.id !in media && forall id :: id in media ==> media[id].id == id
    ensures Total(Owned(media[row.id := row], account)) ==
            Total(Owned(media, account)) + if AccountOf(row) == account then row.size else 0
  {
    var after := media[row.id := row];
    forall r ensures r in Owned(after, account) && r != row <==> r in Owned(media, account) {
      if r in Owned(media, account) {
        var id :| id in media && media[id] == r;
        assert after[id] == r;
      }
    }
    if AccountOf(row) == account {
      assert row == after[row.id];
      TotalSplit(Owned(after, account), row);
      assert Owned(after, account) - {row} == Owned(media, account);
    } else {
      assert Owned(after, account) == Owned(media, account);
    }
  }

  lemma OwnedAfterDelete(media: map<string, MediaRow>, row: MediaRow, account: Account)
    requires row.id in media && media[row.id] == row && forall id :: id in media ==> media[id].id == id
    ensures Total(Owned(media, account)) ==
            Total(Owned(media - {row.id}, account)) + if AccountOf(row) == account then row.size else 0
  {
    var after := media - {row.id};
    assert media == after[row.id := row];
    OwnedAfterInsert(after, row, account);
  }

  // ---------------------------------------------------------------- each action keeps the invariant

  lemma AccountsSame(s: State, s': State, account: Account)
    requires Accounted(s, account)
    requires s'.tables.media == s.tables.media && s'.tables.usage == s.tables.usage
    requires forall t :: t in s'.tasks && s'.tasks[t].Inserting? ==> t in s.tasks && s'.tasks[t] == s.tasks[t]
    ensures Accounted(s', account)
  {
  }

  lemma StartInv(cfg: Config, s: State, a: Action)
    requires Inv(cfg, s) && Enabled(cfg, s, a) && (a.StartSave? || a.StartDelete?)
    ensures Inv(cfg, Apply(cfg, s, a))
  {
    hide Total;
    hide Owned;
    var s' := Apply(cfg, s, a);
    forall account ensures cfg.limit > 0 ==> Accounted(s', account) {
      if cfg.limit > 0 { AccountsSame(s, s', account); }
    }
  }

  /** Objects and tasks, whatever a step does. */
  lemma StepTasks(cfg: Config, s: State, t: int)
    requires Inv(cfg, s) && Enabled(cfg, s, Step(t))
    ensures RowsHaveObjects(Apply(cfg, s, Step(t)).tables) && TasksOk(Apply(cfg, s, Step(t)))
  {
    hide Total;
    hide Owned;
    hide Accounted;
    var s' := Apply(cfg, s, Step(t));
    var before, after := s.tasks[t], s'.tasks[t];
    assert TaskOk(s.tables, before);
    assert TaskOk(s'.tables, after);
    forall u | u in s.tasks && u != t
      ensures TaskOk(s'.tables, s.tasks[u]) && Apart(after, s.tasks[u]) && Apart(s.tasks[u], after)
    {
      assert TaskOk(s.tables, s.tasks[u]) && Apart(before, s.tasks[u]) && Apart(s.tasks[u], before);
    }
  }

  lemma ReservedAccounts(cfg: Config, s: State, t: int, account: Account)
    requires Inv(cfg, s) && Enabled(cfg, s, Step(t)) && cfg.limit > 0 && s.tasks[t].Reserving?
    ensures Accounted(Apply(cfg, s, Step(t)), account)
  {
    var s', row := Apply(cfg, s, Step(t)), s.tasks[t].row;
    assert Accounted(s, account) && TaskOk(s.tables, s.tasks[t]);
    if s'.tables.media != s.tables.media { OwnedAfterInsert(s.tables.media, row, account); }
    hide Total;
    hide Owned;
  }

  lemma RemovedAccounts(cfg: Config, s: State, t: int, account: Account)
    requires Inv(cfg, s) && Enabled(cfg, s, Step(t)) && cfg.limit > 0 && s.tasks[t].Deleting?
    ensures Accounted(Apply(cfg, s, Step(t)), account)
  {
    var row := s.tasks[t].row;
    assert Accounted(s, account) && TaskOk(s.tables, s.tasks[t]);
    if row.id in s.tables.media { OwnedAfterDelete(s.tables.media, row, account); }
    hide Total;
    hide Owned;
  }

  lemma InsertedAccounts(cfg: Config, s: State, t: int, account: Account)
    requires Inv(cfg, s) && Enabled(cfg, s, Step(t)) && cfg.limit > 0 && (s.tasks[t].Summing? || s.tasks[t].Inserting?)
    ensures Accounted(Apply(cfg, s, Step(t)), account)
  {
    assert Accounted(s, account);
    hide Total;
    hide Owned;
  }

  lemma StepAccounts(cfg: Config, s: State, t: int, account: Account)
    requires Inv(cfg, s) && Enabled(cfg, s, Step(t)) && cfg.limit > 0
    ensures Accounted(Apply(cfg, s, Step(t)), account)
  {
    var task := s.tasks[t];
    if task.Reserving? {
      ReservedAccounts(cfg, s, t, account);
    } else if task.Deleting? {
      RemovedAccounts(cfg, s, t, account);
    } else if task.Summing? || task.Inserting? {
      InsertedAccounts(cfg, s, t, account);
    } else {
      assert Accounted(s, account);
      AccountsSame(s, Apply(cfg, s, Step(t)), account);
    }
  }

  lemma StepInv(cfg: Config, s: State, a: Action)
    requires Inv(cfg, s) && Enabled(cfg, s, a)
    ensures Inv(cfg, Apply(cfg, s, a))
  {
    match a
    case Step(t) =>
      StepTasks(cfg, s, t);
      forall account ensures cfg.limit > 0 ==> Accounted(Apply(cfg, s, a), account) {
        if cfg.limit > 0 { StepAccounts(cfg, s, t, account); }
      }
    case StartSave(_, _) => StartInv(cfg, s, a);
    case StartDelete(_, _, _) => StartInv(cfg, s, a);
    case TransactionBreaks(t) => EndsInv(cfg, s, a, t);
    case UnlinkFails(t) => EndsInv(cfg, s, a, t);
  }

  lemma EndsInv(cfg: Config, s: State, a: Action, t: int)
    requires Inv(cfg, s) && Enabled(cfg, s, a) && (a == TransactionBreaks(t) || a == UnlinkFails(t))
    ensures Inv(cfg, Apply(cfg, s, a))
  {
    hide Total;
    hide Owned;
    var s' := Apply(cfg, s, a);
    forall account ensures cfg.limit > 0 ==> Accounted(s', account) {
      if cfg.limit > 0 { AccountsSame(s, s', account); }
    }
  }

  // ---------------------------------------------------------------- whole runs

  ghost predicate Run(cfg: Config, s: State, actions: seq<Action>, end: State)
    decreases |actions|
  {
    if actions == [] then end == s
    else Enabled(cfg, s, actions[0]) && Run(cfg, Apply(cfg, s, actions[0]), actions[1..], end)
  }

  /** Rows already there need their objects and, if there are usage rows, honest ones. */
  ghost predicate Init(cfg: Config, s: State)
  {
    && s.tasks == map[] && RowsHaveObjects(s.tables)
    && forall account :: account in s.tables.usage ==> Total(Owned(s.tables.media, account)) <= s.tables.usage[account]
  }

  lemma {:induction false} RunInv(cfg: Config, s: State, actions: seq<Action>, end: State)
    requires Inv(cfg, s) && Run(cfg, s, actions, end)
    ensures Inv(cfg, end)
    decreases |actions|
  {
    if actions != [] {
      StepInv(cfg, s, actions[0]);
      hide Inv;
      hide Enabled;
      hide Apply;
      RunInv(cfg, Apply(cfg, s, actions[0]), actions[1..], end);
    }
  }

  /**
   * In every reachable state each committed row has its object, and once an owner's usage row
   * exists it counts at least what the owner stores, however its creation raced.
   */
  lemma Reachable(cfg: Config, s: State, actions: seq<Action>, end: State)
    requires Init(cfg, s) && Run(cfg, s, actions, end)
    ensures forall id :: id in end.tables.media ==> id in end.tables.objects
    ensures cfg.limit > 0 ==>
              forall account :: account in end.tables.usage ==>
                Total(Owned(end.tables.media, account)) <= end.tables.usage[account]
  {
    RunInv(cfg, s, actions, end);
    if cfg.limit > 0 {
      forall account | account in end.tables.usage
        ensures Total(Owned(end.tables.media, account)) <= end.tables.usage[account]
      {
        assert Accounted(end, account);
      }
    }
  }

  /** A save that succeeds leaves its owner within the quota, and every other owner as it was. */
  lemma SaveStaysWithinQuota(cfg: Config, s: State, t: int)
    requires cfg.limit > 0 && Inv(cfg, s) && Enabled(cfg, s, Step(t)) && s.tasks[t].Reserving?
    requires Apply(cfg, s, Step(t)).tasks[t].Saved?
    ensures var s', row := Apply(cfg, s, Step(t)), s.tasks[t].row;
            && row.id in s'.tables.media && row.id in s'.tables.objects
            && Total(Owned(s'.tables.media, AccountOf(row))) <= s'.tables.usage[AccountOf(row)] <= cfg.limit
            && forall account :: account != AccountOf(row) ==>
                 Total(Owned(s'.tables.media, account)) == Total(Owned(s.tables.media, account))
  {
    var row := s.tasks[t].row;
    StepAccounts(cfg, s, t, AccountOf(row));
    assert TaskOk(s.tables, s.tasks[t]);
    forall account | account != AccountOf(row)
      ensures Total(Owned(Apply(cfg, s, Step(t)).tables.media, account)) == Total(Owned(s.tables.media, account))
    {
      OwnedAfterInsert(s.tables.media, row, account);
    }
  }

  /** One action raises what an owner stores only up to the quota. */
  lemma StoredRisesWithinQuota(cfg: Config, s: State, a: Action, account: Account)
    requires cfg.limit > 0 && Inv(cfg, s) && Enabled(cfg, s, a)
    ensures var before, after := Total(Owned(s.tables.media, account)), Total(Owned(Apply(cfg, s, a).tables.media, account));
            after <= before || after <= cfg.limit
  {
    var s' := Apply(cfg, s, a);
    if a.Step? && s.tasks[a.t].Reserving? && s'.tasks[a.t].Saved? {
      SaveStaysWithinQuota(cfg, s, a.t);
    } else if a.Step? && s.tasks[a.t].Deleting? && s'.tasks[a.t].Unlinking? {
      assert TaskOk(s.tables, s.tasks[a.t]);
      OwnedAfterDelete(s.tables.media, s.tasks[a.t].row, account);
    } else {
      assert s'.tables.media == s.tables.media;
    }
  }

  /** Over any run an owner stores at most the quota, or no more than at the start. */
  lemma {:induction false} NobodyExceedsQuota(cfg: Config, s: State, actions: seq<Action>, end: State, account: Account)
    requires cfg.limit > 0 && Inv(cfg, s) && Run(cfg, s, actions, end)
    ensures var before, after := Total(Owned(s.tables.media, account)), Total(Owned(end.tables.media, account));
            after <= before || after <= cfg.limit
    decreases |actions|
  {
    if actions != [] {
      StoredRisesWithinQuota(cfg, s, actions[0], account);
      StepInv(cfg, s, actions[0]);
      hide Inv;
      hide Enabled;
      hide Apply;
      hide Total;
      NobodyExceedsQuota(cfg, Apply(cfg, s, actions[0]), actions[1..], end, account);
    }
  }

  /** The CASE that keeps used_bytes from going below zero never has to. */
  lemma DeleteNeverCutsShort(cfg: Config, s: State, t: int)
    requires cfg.limit > 0 && Inv(cfg, s) && Enabled(cfg, s, Step(t)) && s.tasks[t].Deleting?
    requires s.tasks[t].row.id in s.tables.media && AccountOf(s.tasks[t].row) in s.tables.usage
    ensures s.tables.usage[AccountOf(s.tasks[t].row)] >= s.tasks[t].row.size
  {
    var row := s.tasks[t].row;
    assert Accounted(s, AccountOf(row)) && TaskOk(s.tables, s.tasks[t]);
    OwnedAfterDelete(s.tables.media, row, AccountOf(row));
  }

  /** A delete that finds its row gives the owner exactly its bytes back, and nobody else anything. */
  lemma DeleteGivesBack(cfg: Config, s: State, t: int)
    requires cfg.limit > 0 && Inv(cfg, s) && Enabled(cfg, s, Step(t)) && s.tasks[t].Deleting? && s.tasks[t].row.id in s.tables.media
    ensures var s', row, account := Apply(cfg, s, Step(t)), s.tasks[t].row, AccountOf(s.tasks[t].row);
            && s'.tasks[t] == Unlinking(row) && s'.tables.media == s.tables.media - {row.id}
            && s'.tables.usage == (if account in s.tables.usage then s.tables.usage[account := s.tables.usage[account] - row.size]
                                   else s.tables.usage)
            && Total(Owned(s'.tables.media, account)) == Total(Owned(s.tables.media, account)) - row.size
  {
    var row := s.tasks[t].row;
    if AccountOf(row) in s.tables.usage { DeleteNeverCutsShort(cfg, s, t); }
    assert TaskOk(s.tables, s.tasks[t]);
    OwnedAfterDelete(s.tables.media, row, AccountOf(row));
    hide Total;
    hide Owned;
  }

  /** What a usage row counts beyond what is stored. */
  ghost function Slack(s: State, account: Account): int
    requires account in s.tables.usage
  {
    s.tables.usage[account] - Total(Owned(s.tables.media, account))
  }

  lemma SlackKept(cfg: Config, s: State, a: Action, account: Account)
    requires cfg.limit > 0 && Inv(cfg, s) && Enabled(cfg, s, a) && account in s.tables.usage
    ensures account in Apply(cfg, s, a).tables.usage && Slack(Apply(cfg, s, a), account) == Slack(s, account)
  {
    var s' := Apply(cfg, s, a);
    if a.Step? && s.tasks[a.t].Reserving? && s'.tasks[a.t].Saved? {
      assert TaskOk(s.tables, s.tasks[a.t]);
      OwnedAfterInsert(s.tables.media, s.tasks[a.t].row, account);
    } else if a.Step? && s.tasks[a.t].Deleting? && s'.tasks[a.t].Unlinking? {
      DeleteGivesBack(cfg, s, a.t);
      assert TaskOk(s.tables, s.tasks[a.t]);
      OwnedAfterDelete(s.tables.media, s.tasks[a.t].row, account);
    } else {
      assert s'.tables.media == s.tables.media;
      assert account in s'.tables.usage && s'.tables.usage[account] == s.tables.usage[account];
    }
    hide Total;
    hide Owned;
  }

  /**
   * Once an owner has a usage row, it goes up and down with what is stored, over any run: saves charge
   * and deletes give back their bytes to the last one, and a row that is exact stays so.
   */
  lemma {:induction false} UsageFollowsStorage(cfg: Config, s: State, actions: seq<Action>, end: State, account: Account)
    requires cfg.limit > 0 && Inv(cfg, s) && Run(cfg, s, actions, end) && account in s.tables.usage
    ensures account in end.tables.usage && Slack(end, account) == Slack(s, account)
    decreases |actions|
  {
    if actions != [] {
      SlackKept(cfg, s, actions[0], account);
      StepInv(cfg, s, actions[0]);
      hide Inv;
      hide Enabled;
      hide Apply;
      hide Slack;
      UsageFollowsStorage(cfg, Apply(cfg, s, actions[0]), actions[1..], end, account);
    }
  }

  /** After a failed or refused save nothing of it is left but, perhaps, its owner's usage row. */
  lemma AbortedSaveLeavesNothing(cfg: Config, s: State, t: int)
    requires Inv(cfg, s) && Enabled(cfg, s, Step(t)) && s.tasks[t].Aborting?
    ensures var s', row := Apply(cfg, s, Step(t)), s.tasks[t].row;
            && row.id !in s'.tables.media && row.id !in s'.tables.objects
            && s'.tables.media == s.tables.media && s'.tables.usage == s.tables.usage
  {
  }

  lemma InitInv(cfg: Config, s: State)
    requires Init(cfg, s)
    ensures Inv(cfg, s)
  {
  }
}
