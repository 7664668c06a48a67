/**
 * Media uploads and owner quotas (framework/media.py:38-75, 95-181, 203-223): save and delete
 * calls interleave at every await; a transaction, a query and a file operation are one step each.
 * The storage key holds the media id, which is random and taken to be new, so an object is named
 * by that id here.
 */
module Media {

  datatype Option<+T> = None | Some(value: T)

  datatype MediaRow = MediaRow(id: string, project: string, owner: string, size: nat, sha: string)

  datatype Scope = Off | WithinProject | WithinOwner

  /** limit is max_owner_bytes, 0 for none. */
  datatype Config = Config(limit: nat, maxUpload: nat, deduplicate: Scope)

  type Account = (string, string)

  datatype Tables = Tables(
    media: map<string, MediaRow>, usage: map<Account, int>, objects: set<string>, ids: set<string>)

  /** Where a call stands: before it runs the step named. */
  datatype Task =
    | Deduplicating(row: MediaRow)
    | Checking(row: MediaRow)
    | Summing(row: MediaRow)
    | Inserting(row: MediaRow, used: int)
    | Reserving(row: MediaRow)
    | Aborting(row: MediaRow)
    | Deleting(row: MediaRow)
    | Unlinking(row: MediaRow)
    | Saved(row: MediaRow)
    | Duplicate
    | Failed
    | Deleted
    | Missing

  datatype State = State(tables: Tables, tasks: map<int, Task>)

  datatype Action =
    | StartSave(t: int, row: MediaRow)
    | StartDelete(t: int, project: string, id: string)
    | Step(t: int)
    | TransactionBreaks(t: int)
    | UnlinkFails(t: int)

  // ---------------------------------------------------------------- sums

  function AccountOf(row: MediaRow): Account
  {
    (row.project, row.owner)
  }

  function Owned(media: map<string, MediaRow>, account: Account): set<MediaRow>
  {
    set id | id in media && AccountOf(media[id]) == account :: media[id]
  }

  /** The sum of the sizes. */
  ghost function Total(rows: set<MediaRow>): (n: nat)
    decreases |rows|
  {
    if rows == {} then 0
    else
      var r :| r in rows;
      r.size + Total(rows - {r})
  }

  lemma {:induction false} TotalSplit(rows: set<MediaRow>, r: MediaRow)
    requires r in rows
    ensures Total(rows) == r.size + Total(rows - {r})
    decreases |rows|
  {
    var first :| first in rows && Total(rows) == first.size + Total(rows - {first});
    if first != r {
      TotalSplit(rows - {first}, r);
      TotalSplit(rows - {r}, first);
      assert rows - {first} - {r} == rows - {r} - {first};
    }
  }

  // ---------------------------------------------------------------- the steps

  predicate SameContent(cfg: Config, row: MediaRow, other: MediaRow)
  {
    && other.project == row.project && other.sha == row.sha
    && (cfg.deduplicate.WithinOwner? ==> other.owner == row.owner)
  }

  predicate HasDuplicate(cfg: Config, tables: Tables, row: MediaRow)
  {
    !cfg.deduplicate.Off? && exists id :: id in tables.media && SameContent(cfg, row, tables.media[id])
  }

  /** The transaction of save_media: the conditional update, then the insert. */
  function Reserve(cfg: Config, tables: Tables, row: MediaRow): Option<Tables>
  {
    var a := AccountOf(row);
    if cfg.limit == 0 then Some(tables.(media := tables.media[row.id := row]))
    else if a in tables.usage && tables.usage[a] + row.size <= cfg.limit then
      Some(tables.(media := tables.media[row.id := row], usage := tables.usage[a := tables.usage[a] + row.size]))
    else None
  }

  /** The transaction of delete_media. */
  function Remove(tables: Tables, row: MediaRow): Option<Tables>
  {
    var a := AccountOf(row);
    if row.id !in tables.media then None
    else
      var usage :=
        if a !in tables.usage then tables.usage
        else tables.usage[a := if tables.usage[a] >= row.size then tables.usage[a] - row.size else 0];
      Some(tables.(media := tables.media - {row.id}, usage := usage))
  }

  predicate Live(task: Task)
  {
    !task.Saved? && !task.Duplicate? && !task.Failed? && !task.Deleted? && !task.Missing?
  }

  /** The next step of a call. */
  ghost function Advance(cfg: Config, tables: Tables, task: Task): (Tables, Task)
    requires Live(task)
  {
    match task
    case Deduplicating(row) =>
      if HasDuplicate(cfg, tables, row) then (tables.(objects := tables.objects - {row.id}), Duplicate)
      else (tables, if cfg.limit > 0 then Checking(row) else Reserving(row))
    case Checking(row) => (tables, if AccountOf(row) in tables.usage then Reserving(row) else Summing(row))
    case Summing(row) => (tables, Inserting(row, Total(Owned(tables.media, AccountOf(row)))))
    case Inserting(row, used) =>
      (if AccountOf(row) in tables.usage then tables else tables.(usage := tables.usage[AccountOf(row) := used]), Reserving(row))
    case Reserving(row) =>
      var done := Reserve(cfg, tables, row);
      if done.Some? then (done.value, Saved(row)) else (tables, Aborting(row))
    case Aborting(row) => (tables.(objects := tables.objects - {row.id}), Failed)
    case Deleting(row) =>
      var done := Remove(tables, row);
      if done.Some? then (done.value, Unlinking(row)) else (tables, Missing)
    case Unlinking(row) => (tables.(objects := tables.objects - {row.id}), Deleted)
  }

  function Rank(task: Task): nat
  {
    match task
    case Deduplicating(_) => 6
    case Checking(_) => 5
    case Summing(_) => 4
    case Inserting(_, _) => 3
    case Reserving(_) => 2
    case Aborting(_) => 1
    case Deleting(_) => 2
    case Unlinking(_) => 1
    case _ => 0
  }

  /** A call that no other call interrupts. */
  ghost function Finish(cfg: Config, tables: Tables, task: Task): (Tables, Task)
    decreases Rank(task)
  {
    if !Live(task) then (tables, task)
    else
      var next := Advance(cfg, tables, task);
      Finish(cfg, next.0, next.1)
  }

  predicate Enabled(cfg: Config, s: State, a: Action)
  {
    match a
    case StartSave(t, row) => t !in s.tasks && row.id !in s.tables.ids && row.size <= cfg.maxUpload
    case StartDelete(t, _, _) => t !in s.tasks
    case Step(t) => t in s.tasks && Live(s.tasks[t])
    case TransactionBreaks(t) => t in s.tasks && s.tasks[t].Reserving?
    case UnlinkFails(t) => t in s.tasks && s.tasks[t].Unlinking?
  }

  ghost function Apply(cfg: Config, s: State, a: Action): State
    requires Enabled(cfg, s, a)
  {
    match a
    case StartSave(t, row) =>
      State(s.tables.(objects := s.tables.objects + {row.id}, ids := s.tables.ids + {row.id}),
            s.tasks[t := Deduplicating(row)])
    case StartDelete(t, project, id) =>
      s.(tasks := s.tasks[t := if id in s.tables.media && s.tables.media[id].project == project
                               then Deleting(s.tables.media[id]) else Missing])
    case Step(t) =>
      var (tables, task) := Advance(cfg, s.tables, s.tasks[t]);
      State(tables, s.tasks[t := task])
    case TransactionBreaks(t) => s.(tasks := s.tasks[t := Aborting(s.tasks[t].row)])
    case UnlinkFails(t) => s.(tasks := s.tasks[t := Deleted])
  }

  // ---------------------------------------------------------------- the invariant

  /** A save whose row is not committed yet, or never will be. */
  predicate Pending(task: Task)
  {
    task.Deduplicating? || task.Checking? || task.Summing? || task.Inserting? || task.Reserving? || task.Aborting?
  }

  predicate InDelete(task: Task)
  {
    task.Deleting? || task.Unlinking?
  }

  /** Every committed row has its object. */
  ghost predicate RowsHaveObjects(tables: Tables)
  {
    forall id :: id in tables.media ==> tables.media[id].id == id && id in tables.objects && id in tables.ids
  }

  ghost predicate TaskOk(tables: Tables, task: Task)
  {
    && (Pending(task) || InDelete(task) ==> task.row.id in tables.ids)
    && (Pending(task) || task.Unlinking? ==> task.row.id !in tables.media)
    && (Pending(task) && !task.Aborting? ==> task.row.id in tables.objects)
    && (task.Deleting? && task.row.id in tables.media ==> tables.media[task.row.id] == task.row)
  }

  /** The object of a pending save is nobody else's. */
  ghost predicate Apart(a: Task, b: Task)
  {
    Pending(a) && (Pending(b) || InDelete(b)) ==> a.row.id != b.row.id
  }

  ghost predicate TasksOk(s: State)
  {
    && (forall t :: t in s.tasks ==> TaskOk(s.tables, s.tasks[t]))
    && (forall t, u :: t in s.tasks && u in s.tasks && t != u ==> Apart(s.tasks[t], s.tasks[u]))
  }

  /** A usage row counts at least what its owner stores; before there is one, so does every sum about to be inserted. */
  ghost predicate Accounted(s: State, account: Account)
  {
    var stored := Total(Owned(s.tables.media, account));
    if account in s.tables.usage then stored <= s.tables.usage[account]
    else forall t :: t in s.tasks && s.tasks[t].Inserting? && AccountOf(s.tasks[t].row) == account ==> stored <= s.tasks[t].used
  }

  ghost predicate Inv(cfg: Config, s: State)
  {
    && RowsHaveObjects(s.tables)
    && TasksOk(s)
    && (cfg.limit > 0 ==> forall account :: Accounted(s, account))
  }
}
