/**
 * The same calls as code over the tables and the object store (framework/media.py:95-181,
 * 203-223), each equal to the steps of the protocol run without interruption.
 */
module MediaServices {
  import opened Media
  import opened MediaTheorems

  class MediaService {
    var media: map<string, MediaRow>
    var usage: map<Account, int>
    var objects: set<string>
    var ids: set<string>

    ghost function Contents(): Tables
      reads this
    {
      Tables(media, usage, objects, ids)
    }

    /** SELECT coalesce(sum(size), 0) */
    method StoredBytes(account: Account) returns (used: nat)
      ensures used == Total(Owned(media, account))
    {
      var rows := Owned(media, account);
      used := 0;
      while rows != {}
        invariant used + Total(rows) == Total(Owned(media, account))
        decreases |rows|
      {
        var r :| r in rows;
        TotalSplit(rows, r);
        used, rows := used + r.size, rows - {r};
      }
    }

    /** _ensure_usage_row */
    method EnsureUsageRow(account: Account)
      modifies this`usage
      ensures usage == if account in old(usage) then old(usage)
                       else old(usage)[account := Total(Owned(media, account))]
    {
      if account in usage {
        return;
      }
      var used := StoredBytes(account);
      usage := usage[account := used];
    }

    /**
     * _reserve_usage, as the machine's transaction does it: where usage counts what is stored, a
     * reservation sets the upload's bytes aside on top of that and within the limit.
     */
    method ReserveUsage(cfg: Config, row: MediaRow) returns (reserved: bool)
      requires cfg.limit > 0
      modifies this`usage
      ensures reserved <==> Reserve(cfg, old(Contents()), row).Some?
      ensures usage == if reserved then Reserve(cfg, old(Contents()), row).value.usage else old(usage)
      ensures var account, stored := AccountOf(row), Total(Owned(media, AccountOf(row)));
              reserved && stored <= old(usage)[account] ==> stored + row.size <= usage[account] <= cfg.limit
    {
      var account := AccountOf(row);
      if account in usage && usage[account] + row.size <= cfg.limit {
        usage := usage[account := usage[account] + row.size];
        return true;
      }
      return false;
    }

    /** row.id is new; the upload is already within max_upload_bytes. */
    method SaveMedia(cfg: Config, row: MediaRow) returns (outcome: Task)
      requires row.id !in ids && row.size <= cfg.maxUpload
      modifies this
      ensures (Contents(), outcome) ==
              Finish(cfg, old(Contents()).(objects := old(objects) + {row.id}, ids := old(ids) + {row.id}), Deduplicating(row))
    {
      ids, objects := ids + {row.id}, objects + {row.id};
      ghost var uploaded := Contents();
      if HasDuplicate(cfg, Tables(media, usage, objects, ids), row) {
        objects := objects - {row.id};
        OneStep(cfg, uploaded, Deduplicating(row));
        return Duplicate;
      }
      OneStep(cfg, uploaded, Deduplicating(row));
      if cfg.limit > 0 {
        EnsureUsageRow(AccountOf(row));
        EnsuredByTheSteps(cfg, uploaded, row);
        assert Finish(cfg, uploaded, Deduplicating(row)) == Finish(cfg, Contents(), Reserving(row));
        ReservingEnds(cfg, Contents(), row);
        var reserved := ReserveUsage(cfg, row);
        if !reserved {
          objects := objects - {row.id};
          return Failed;
        }
      }
      if cfg.limit == 0 {
        ReservingEnds(cfg, Contents(), row);
      }
      media := media[row.id := row];
      outcome := Saved(row);
    }

    method DeleteMedia(cfg: Config, project: string, id: string) returns (outcome: Task)
      requires RowsHaveObjects(Contents())
      modifies this
      ensures if id in old(media) && old(media)[id].project == project
              then (Contents(), outcome) == Finish(cfg, old(Contents()), Deleting(old(media)[id]))
              else outcome == Missing && Contents() == old(Contents())
      ensures id in old(media) && old(media)[id].project == project ==>
                var row := old(media)[id];
                && outcome == Deleted && media == old(media) - {id} && objects == old(objects) - {id}
                && (AccountOf(row) !in old(usage) ==> usage == old(usage))
                && (AccountOf(row) in old(usage) && old(usage)[AccountOf(row)] >= row.size ==>
                      usage == old(usage)[AccountOf(row) := old(usage)[AccountOf(row)] - row.size])
    {
      if id !in media || media[id].project != project {
        return Missing;
      }
      var row := media[id];
      ghost var found := Contents();
      DeletingEnds(cfg, found, row);
      var account := AccountOf(row);
      media := media - {id};
      if account in usage {
        usage := usage[account := if usage[account] >= row.size then usage[account] - row.size else 0];
      }
      objects := objects - {id};
      outcome := Deleted;
    }
  }

  // ---------------------------------------------------------------- uninterrupted steps

  lemma OneStep(cfg: Config, tables: Tables, task: Task)
    requires Live(task)
    ensures var next := Advance(cfg, tables, task);
            Finish(cfg, tables, task) == (if Live(next.1) then Finish(cfg, next.0, next.1) else next)
  {
  }

  /** Checking, summing and inserting come to what EnsureUsageRow does. */
  lemma EnsuredByTheSteps(cfg: Config, tables: Tables, row: MediaRow)
    ensures Finish(cfg, tables, Checking(row)) ==
            Finish(cfg, if AccountOf(row) in tables.usage then tables
                        else tables.(usage := tables.usage[AccountOf(row) := Total(Owned(tables.media, AccountOf(row)))]),
                   Reserving(row))
  {
    OneStep(cfg, tables, Checking(row));
    if AccountOf(row) !in tables.usage {
      OneStep(cfg, tables, Summing(row));
      OneStep(cfg, tables, Inserting(row, Total(Owned(tables.media, AccountOf(row)))));
    }
  }

  lemma ReservingEnds(cfg: Config, tables: Tables, row: MediaRow)
    ensures Finish(cfg, tables, Reserving(row)) ==
            var done := Reserve(cfg, tables, row);
            if done.Some? then (done.value, Saved(row)) else (tables.(objects := tables.objects - {row.id}), Failed)
  {
    OneStep(cfg, tables, Reserving(row));
    OneStep(cfg, tables, Aborting(row));
  }

  lemma DeletingEnds(cfg: Config, tables: Tables, row: MediaRow)
    ensures Finish(cfg, tables, Deleting(row)) ==
            var done := Remove(tables, row);
            if done.Some? then (done.value.(objects := done.value.objects - {row.id}), Deleted) else (tables, Missing)
  {
    OneStep(cfg, tables, Deleting(row));
    var done := Remove(tables, row);
    if done.Some? { OneStep(cfg, done.value, Unlinking(row)); }
  }

  /** Some committed row of the project has the same content, and the same owner if that is the scope. */
  ghost predicate Known(cfg: Config, media: map<string, MediaRow>, row: MediaRow)
  {
    !cfg.deduplicate.Off?
    && exists id :: id in media && media[id].project == row.project && media[id].sha == row.sha
                    && (cfg.deduplicate.WithinOwner? ==> media[id].owner == row.owner)
  }

  lemma SaveEnds(cfg: Config, start: Tables, row: MediaRow)
    ensures var a := AccountOf(row);
            var ready := if cfg.limit == 0 || a in start.usage then start
                         else start.(usage := start.usage[a := Total(Owned(start.media, a))]);
            var unlinked, done := start.(objects := start.objects - {row.id}), Reserve(cfg, ready, row);
            Finish(cfg, start, Deduplicating(row)) ==
              if HasDuplicate(cfg, start, row) then (unlinked, Duplicate)
              else if done.Some? then (done.value, Saved(row))
              else (ready.(objects := ready.objects - {row.id}), Failed)
  {
    var a := AccountOf(row);
    var ready := if cfg.limit == 0 || a in start.usage then start
                 else start.(usage := start.usage[a := Total(Owned(start.media, a))]);
    OneStep(cfg, start, Deduplicating(row));
    EnsuredByTheSteps(cfg, start, row);
    ReservingEnds(cfg, ready, row);
    hide HasDuplicate;
    hide Reserve;
    hide Total;
  }

  /**
   * What an uninterrupted save comes to, when rows and usage are in order before it: the same upload is
   * not stored twice where deduplication says so, a new one is stored if there is room for it.
   */
  lemma UninterruptedSave(cfg: Config, tables: Tables, row: MediaRow)
    requires row.id !in tables.ids && RowsHaveObjects(tables) && row.id !in tables.objects
    ensures var a := AccountOf(row);
            var used := if a in tables.usage then tables.usage[a] else Total(Owned(tables.media, a));
            var known := Known(cfg, tables.media, row);
            var end := Finish(cfg, tables.(objects := tables.objects + {row.id}, ids := tables.ids + {row.id}), Deduplicating(row));
            && (end.1 == Duplicate <==> known)
            && (end.1 == Saved(row) <==> !known && (cfg.limit == 0 || used + row.size <= cfg.limit))
            && (end.1 == Saved(row) ==>
                  end.0.media == tables.media[row.id := row] && end.0.objects == tables.objects + {row.id}
                  && end.0.usage == if cfg.limit == 0 then tables.usage else tables.usage[a := used + row.size])
            && (end.1 != Saved(row) ==>
                  (end.1 == Duplicate || end.1 == Failed) && end.0.media == tables.media && end.0.objects == tables.objects)
            && (end.1 == Duplicate ==> end.0.usage == tables.usage)
  {
    var start := tables.(objects := tables.objects + {row.id}, ids := tables.ids + {row.id});
    SaveEnds(cfg, start, row);
    hide Finish;
    hide Total;
    assert HasDuplicate(cfg, start, row) <==> Known(cfg, tables.media, row);
    hide HasDuplicate;
    hide Known;
    assert start.objects - {row.id} == tables.objects;
  }

  /** An uninterrupted call is a run of the machine, by steps of that call. */
  lemma {:induction false} FinishIsARun(cfg: Config, s: State, t: int) returns (actions: seq<Action>)
    requires t in s.tasks
    ensures var end := Finish(cfg, s.tables, s.tasks[t]); Run(cfg, s, actions, State(end.0, s.tasks[t := end.1]))
    ensures forall a :: a in actions ==> a == Step(t)
    decreases Rank(s.tasks[t])
  {
    if !Live(s.tasks[t]) {
      actions := [];
      assert s.tasks[t := s.tasks[t]] == s.tasks;
    } else {
      var next := Apply(cfg, s, Step(t));
      var rest := FinishIsARun(cfg, next, t);
      actions := [Step(t)] + rest;
      var end := Finish(cfg, s.tables, s.tasks[t]);
      assert next.tasks[t := end.1] == s.tasks[t := end.1];
      assert actions[1..] == rest;
    }
  }

  /** A delete of a stored object can always go through: row, object and bytes are gone. */
  lemma DeletedByRun(cfg: Config, s: State, t: int, id: string) returns (actions: seq<Action>, end: State)
    requires Inv(cfg, s) && t !in s.tasks && id in s.tables.media
    ensures Run(cfg, s, [StartDelete(t, s.tables.media[id].project, id)] + actions, end)
    ensures end.tasks == s.tasks[t := Deleted]
    ensures end.tables.media == s.tables.media - {id} && end.tables.objects == s.tables.objects - {id}
    ensures var row := s.tables.media[id];
            cfg.limit > 0 && AccountOf(row) in s.tables.usage ==>
              end.tables.usage == s.tables.usage[AccountOf(row) := s.tables.usage[AccountOf(row)] - row.size]
  {
    var row := s.tables.media[id];
    var first := StartDelete(t, row.project, id);
    var begun := Apply(cfg, s, first);
    assert row.id == id;
    if cfg.limit > 0 && AccountOf(row) in s.tables.usage {
      StepInv(cfg, s, first);
      DeleteNeverCutsShort(cfg, begun, t);
    }
    DeletingEnds(cfg, begun.tables, row);
    actions := FinishIsARun(cfg, begun, t);
    var done := Finish(cfg, begun.tables, begun.tasks[t]);
    end := State(done.0, begun.tasks[t := done.1]);
    assert ([first] + actions)[1..] == actions;
    hide Inv;
    hide Finish;
  }

  /** A save by itself is a run, which ends as UninterruptedSave tells. */
  lemma SavedByRun(cfg: Config, s: State, t: int, row: MediaRow) returns (actions: seq<Action>, end: State)
    requires t !in s.tasks && row.id !in s.tables.ids && row.size <= cfg.maxUpload
    ensures Run(cfg, s, [StartSave(t, row)] + actions, end)
    ensures var start := s.tables.(objects := s.tables.objects + {row.id}, ids := s.tables.ids + {row.id});
            && end.tables == Finish(cfg, start, Deduplicating(row)).0
            && end.tasks == s.tasks[t := Finish(cfg, start, Deduplicating(row)).1]
  {
    var begun := Apply(cfg, s, StartSave(t, row));
    actions := FinishIsARun(cfg, begun, t);
    var done := Finish(cfg, begun.tables, begun.tasks[t]);
    end := State(done.0, begun.tasks[t := done.1]);
    assert ([StartSave(t, row)] + actions)[1..] == actions;
    hide Finish;
  }
}
