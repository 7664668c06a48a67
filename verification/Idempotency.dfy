/**
 * The idempotency ledger (framework/operations.py:62-68, 261-345). A transaction is one step: it
 * commits the effect and the ledger row together, or leaves both as they were.
 */
module Idempotency {
  import opened Operations

  /** The columns of the unique constraint; the digest is taken as injective. */
  datatype Slot = Slot(project: string, operation: string, digest: string)

  /** The operation of a slot, as configured. */
  datatype Config = Config(ttl: real, batchSize: nat, maxBytes: nat)

  datatype Row = Row(id: nat, fingerprint: string, complete: bool, response: Option<map<string, Value>>, updated: real)

  type Ledger = map<Slot, Row>

  /**
   * One call: `now` is read before the transaction, `done` when the row is completed; mono and
   * monoEnd are what the monotonic clock shows at the two places it is read.
   */
  datatype Attempt<!B> = Attempt(
    slot: Slot, cfg: Config, fingerprint: string, statements: seq<Statement<B>>,
    now: real, done: real, mono: real, monoEnd: real)

  /** The tables, the next row id, and when a cleanup is due again for (project, operation). */
  datatype State<B> = State(business: B, ledger: Ledger, nextId: nat, cleanupAfter: map<(string, string), real>)

  datatype Outcome = Executed(output: map<string, Value>) | Refused(why: Failure) | IntegrityError

  datatype Answer = Replayed(output: map<string, Value>) | Conflict | InProgress | Reraised

  // ---------------------------------------------------------------- cleanup

  function Interval(ttl: real): real
  {
    var most := if 60.0 >= ttl / 10.0 then 60.0 else ttl / 10.0;
    if 600.0 <= most then 600.0 else most
  }

  predicate Due(after: map<(string, string), real>, key: (string, string), mono: real)
  {
    !(mono < if key in after then after[key] else 0.0)
  }

  predicate Expired(row: Row, cutoff: real) { row.updated < cutoff }

  function Cutoff<B>(a: Attempt<B>): real { a.now - a.cfg.ttl }

  /** The rows of the attempt's project and operation that are past its cutoff. */
  function Stale<B>(ledger: Ledger, a: Attempt<B>): set<Slot>
  {
    set s | s in ledger && s.project == a.slot.project && s.operation == a.slot.operation && Expired(ledger[s], Cutoff(a))
  }

  /** ORDER BY updated_at, id */
  predicate Older(r: Row, s: Row)
  {
    r.updated < s.updated || (r.updated == s.updated && r.id <= s.id)
  }

  /** What SELECT ... ORDER BY ... LIMIT chooses. */
  ghost predicate OldestOf(ledger: Ledger, chosen: set<Slot>, stale: set<Slot>, limit: nat)
  {
    && chosen <= stale && stale <= ledger.Keys
    && |chosen| == (if |stale| <= limit then |stale| else limit)
    && forall s, t :: s in chosen && t in stale - chosen ==> Older(ledger[s], ledger[t])
  }

  // ---------------------------------------------------------------- one transaction

  function AfterCleanup<B>(after: map<(string, string), real>, a: Attempt<B>, chosen: set<Slot>): map<(string, string), real>
  {
    var key := (a.slot.project, a.slot.operation);
    if !Due(after, key, a.mono) then after
    else if |chosen| >= a.cfg.batchSize then after[key := a.monoEnd + 1.0]
    else after[key := a.mono + Interval(a.cfg.ttl)]
  }

  /** The ledger as the insert finds it. */
  function Swept<B>(s: State<B>, a: Attempt<B>, chosen: set<Slot>): Ledger
  {
    var key := (a.slot.project, a.slot.operation);
    var kept := if Due(s.cleanupAfter, key, a.mono) then s.ledger - chosen else s.ledger;
    if a.slot in kept && Expired(kept[a.slot], Cutoff(a)) then kept - {a.slot} else kept
  }

  function Attempted<B>(s: State<B>, a: Attempt<B>, chosen: set<Slot>, size: map<string, Value> -> nat): (State<B>, Outcome)
  {
    var rolledBack := s.(cleanupAfter := AfterCleanup(s.cleanupAfter, a, chosen));
    var ledger := Swept(s, a, chosen);
    if a.slot in ledger then (rolledBack, IntegrityError)
    else
      match ExecuteAll(a.statements, s.business)
      case Failed(why) => (rolledBack, Refused(why))
      case Violation => (rolledBack, IntegrityError)
      case Finished(db, output) =>
        if size(output) > a.cfg.maxBytes then (rolledBack, Refused(TooLarge))
        else
          (State(db, ledger[a.slot := Row(s.nextId, a.fingerprint, true, Some(output), a.done)], s.nextId + 1,
                 rolledBack.cleanupAfter),
           Executed(output))
  }

  /** What the caller is told after an integrity error, from the row found then. */
  function LookUp<B>(ledger: Ledger, a: Attempt<B>): Answer
  {
    if a.slot !in ledger then Reraised
    else if ledger[a.slot].fingerprint != a.fingerprint then Conflict
    else if ledger[a.slot].complete && ledger[a.slot].response.Some? then Replayed(ledger[a.slot].response.value)
    else InProgress
  }

  // ---------------------------------------------------------------- the class

  class OperationLedger<B> {
    var business: B
    var ledger: Ledger
    var nextId: nat
    var cleanupAfter: map<(string, string), real>
    const size: map<string, Value> -> nat

    ghost function Contents(): State<B>
      reads this
    {
      State(business, ledger, nextId, cleanupAfter)
    }

    constructor (business: B, size: map<string, Value> -> nat)
      ensures Contents() == State(business, map[], 0, map[]) && this.size == size
    {
      this.business, ledger, nextId, cleanupAfter := business, map[], 0, map[];
      this.size := size;
    }

    /** _idempotency_cleanup_due */
    method CleanupDue(project: string, operation: string, cfg: Config, mono: real) returns (due: bool)
      modifies this`cleanupAfter
      ensures due == Due(old(cleanupAfter), (project, operation), mono)
      ensures cleanupAfter ==
              if due then old(cleanupAfter)[(project, operation) := mono + Interval(cfg.ttl)] else old(cleanupAfter)
    {
      if mono < (if (project, operation) in cleanupAfter then cleanupAfter[(project, operation)] else 0.0) {
        return false;
      }
      cleanupAfter := cleanupAfter[(project, operation) := mono + Interval(cfg.ttl)];
      return true;
    }

    /** The oldest of the stale rows, one by one up to the limit. */
    method SelectOldest(stale: set<Slot>, limit: nat) returns (chosen: set<Slot>)
      requires stale <= ledger.Keys
      ensures OldestOf(ledger, chosen, stale, limit)
    {
      chosen := {};
      var rest := stale;
      while rest != {} && |chosen| < limit
        invariant chosen + rest == stale && chosen !! rest && |chosen| <= limit
        invariant forall s, t :: s in chosen && t in rest ==> Older(ledger[s], ledger[t])
        decreases |rest|
      {
        OldestExists(ledger, rest);
        var s :| s in rest && forall t :: t in rest ==> Older(ledger[s], ledger[t]);
        chosen, rest := chosen + {s}, rest - {s};
      }
      assert stale - chosen == rest;
      assert |stale| == |chosen| + |rest|;
    }

    /** The cleanup when it is due, and the delete of the attempt's own expired row. */
    method SweepExpired(a: Attempt<B>) returns (work: Ledger, ghost chosen: set<Slot>)
      modifies this`cleanupAfter
      ensures chosen == {} || OldestOf(ledger, chosen, Stale(ledger, a), a.cfg.batchSize)
      ensures Due(old(cleanupAfter), (a.slot.project, a.slot.operation), a.mono) ==>
                OldestOf(ledger, chosen, Stale(ledger, a), a.cfg.batchSize)
      ensures work == Swept(old(Contents()), a, chosen)
      ensures cleanupAfter == AfterCleanup(old(cleanupAfter), a, chosen)
    {
      var due := CleanupDue(a.slot.project, a.slot.operation, a.cfg, a.mono);
      work, chosen := ledger, {};
      if due {
        var expired := SelectOldest(Stale(ledger, a), a.cfg.batchSize);
        chosen := expired;
        hide OldestOf;
        work := work - expired;
        if |expired| >= a.cfg.batchSize {
          cleanupAfter := cleanupAfter[(a.slot.project, a.slot.operation) := a.monoEnd + 1.0];
        }
      }
      if a.slot in work && Expired(work[a.slot], Cutoff(a)) {
        work := work - {a.slot};
      }
    }

    /** The body of `async with engine.begin()`. */
    method Transaction(a: Attempt<B>) returns (outcome: Outcome, ghost chosen: set<Slot>)
      modifies this
      ensures OldestOf(old(ledger), chosen, Stale(old(ledger), a), a.cfg.batchSize) || chosen == {}
      ensures Due(old(cleanupAfter), (a.slot.project, a.slot.operation), a.mono) ==>
                OldestOf(old(ledger), chosen, Stale(old(ledger), a), a.cfg.batchSize)
      ensures (Contents(), outcome) == Attempted(old(Contents()), a, chosen, size)
    {
      var work;
      work, chosen := SweepExpired(a);
      ghost var swept := work;
      if a.slot in work {
        return IntegrityError, chosen;
      }
      work := work[a.slot := Row(nextId, a.fingerprint, false, None, a.now)];
      var r := ExecuteOnConnection(a.statements, business);
      match r
      case Failed(why) =>
        return Refused(why), chosen;
      case Violation =>
        return IntegrityError, chosen;
      case Finished(db, output) =>
        if size(output) > a.cfg.maxBytes {
          return Refused(TooLarge), chosen;
        }
        work := work[a.slot := work[a.slot].(complete := true, response := Some(output), updated := a.done)];
        assert work == swept[a.slot := Row(nextId, a.fingerprint, true, Some(output), a.done)];
        business, ledger, nextId := db, work, nextId + 1;
        outcome := Executed(output);
    }

    /** The lookup on a new connection after an IntegrityError. */
    method Recover(a: Attempt<B>) returns (answer: Answer)
      ensures answer == LookUp(ledger, a)
    {
      if a.slot !in ledger {
        return Reraised;
      }
      var row := ledger[a.slot];
      if row.fingerprint != a.fingerprint {
        return Conflict;
      }
      if row.complete && row.response.Some? {
        return Replayed(row.response.value);
      }
      return InProgress;
    }
  }

  lemma {:induction false} OldestExists(ledger: Ledger, rest: set<Slot>)
    requires rest != {} && rest <= ledger.Keys
    ensures exists s :: s in rest && forall t :: t in rest ==> Older(ledger[s], ledger[t])
    decreases |rest|
  {
    var one :| one in rest;
    var others := rest - {one};
    assert forall t :: t in rest ==> t == one || t in others;
    if others == {} {
      assert forall t :: t in rest ==> Older(ledger[one], ledger[t]);
    } else {
      OldestExists(ledger, others);
      var s :| s in others && forall t :: t in others ==> Older(ledger[s], ledger[t]);
      var least := if Older(ledger[one], ledger[s]) then one else s;
      assert forall t :: t in rest ==> Older(ledger[least], ledger[t]);
    }
  }
}
