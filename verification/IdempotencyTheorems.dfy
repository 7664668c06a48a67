/** What the ledger promises over any sequence of transactions. */
module IdempotencyTheorems {
  import opened Operations
  import opened Idempotency

  /** A transaction, and the rows its cleanup chose. */
  datatype Event<!B> = Event(a: Attempt<B>, chosen: set<Slot>)

  /** The last committed execution of a slot. */
  datatype Done = Done(time: real, fingerprint: string, output: map<string, Value>)

  ghost predicate LawfulEvent<B>(s: State<B>, e: Event<B>, cfgOf: (string, string) -> Config, clock: real)
  {
    && clock <= e.a.done && e.a.now <= e.a.done
    && e.a.cfg == cfgOf(e.a.slot.project, e.a.slot.operation) && e.a.cfg.ttl >= 0.0
    && (Due(s.cleanupAfter, (e.a.slot.project, e.a.slot.operation), e.a.mono) ==>
          OldestOf(s.ledger, e.chosen, Stale(s.ledger, e.a), e.a.cfg.batchSize))
  }

  /** Completion times never go back; settings do not change. */
  ghost predicate Lawful<B>(
    s: State<B>, events: seq<Event<B>>, cfgOf: (string, string) -> Config, clock: real, size: map<string, Value> -> nat)
    decreases |events|
  {
    events == []
    || (&& LawfulEvent(s, events[0], cfgOf, clock)
        && Lawful(After(s, events[0], size), events[1..], cfgOf, events[0].a.done, size))
  }

  function After<B>(s: State<B>, e: Event<B>, size: map<string, Value> -> nat): State<B>
  {
    Attempted(s, e.a, e.chosen, size).0
  }

  function OutcomeOf<B>(s: State<B>, e: Event<B>, size: map<string, Value> -> nat): Outcome
  {
    Attempted(s, e.a, e.chosen, size).1
  }

  function Run<B>(s: State<B>, events: seq<Event<B>>, size: map<string, Value> -> nat): State<B>
    decreases |events|
  {
    if events == [] then s else Run(After(s, events[0], size), events[1..], size)
  }

  function Outcomes<B>(s: State<B>, events: seq<Event<B>>, size: map<string, Value> -> nat): (outcomes: seq<Outcome>)
    ensures |outcomes| == |events|
    decreases |events|
  {
    if events == [] then []
    else [OutcomeOf(s, events[0], size)] + Outcomes(After(s, events[0], size), events[1..], size)
  }

  // ---------------------------------------------------------------- one transaction

  /** Ledger and business state change together: only when the operation executed. */
  lemma AllOrNothing<B>(s: State<B>, e: Event<B>, size: map<string, Value> -> nat)
    ensures var s', outcome := After(s, e, size), OutcomeOf(s, e, size);
            if outcome.Executed? then
              && ExecuteAll(e.a.statements, s.business) == Finished(s'.business, outcome.output)
              && e.a.slot in s'.ledger
              && s'.ledger[e.a.slot] == Row(s.nextId, e.a.fingerprint, true, Some(outcome.output), e.a.done)
            else s'.business == s.business && s'.ledger == s.ledger
  {
  }

  /** No transaction removes or changes a row that has not expired. */
  lemma UnexpiredRowsStay<B>(s: State<B>, e: Event<B>, cfgOf: (string, string) -> Config, clock: real,
                             size: map<string, Value> -> nat, slot: Slot)
    requires LawfulEvent(s, e, cfgOf, clock)
    requires slot in s.ledger
    requires slot.project == e.a.slot.project && slot.operation == e.a.slot.operation ==> !Expired(s.ledger[slot], Cutoff(e.a))
    ensures slot in After(s, e, size).ledger && After(s, e, size).ledger[slot] == s.ledger[slot]
  {
  }

  /** Until its row expires, a key is answered from the row, whatever the request would do. */
  lemma WithinTtlNothingRuns<B>(s: State<B>, e: Event<B>, cfgOf: (string, string) -> Config, clock: real,
                                size: map<string, Value> -> nat, last: map<Slot, Done>)
    requires LawfulEvent(s, e, cfgOf, clock) && Tracks(s, last, cfgOf, clock)
    requires e.a.slot in s.ledger && !Expired(s.ledger[e.a.slot], Cutoff(e.a))
    ensures OutcomeOf(s, e, size) == IntegrityError
    ensures After(s, e, size).business == s.business && After(s, e, size).ledger == s.ledger
    ensures LookUp(After(s, e, size).ledger, e.a) ==
            if e.a.fingerprint == last[e.a.slot].fingerprint then Replayed(last[e.a.slot].output) else Conflict
  {
  }

  // ---------------------------------------------------------------- the invariant

  /** Rows are the last executions; an execution without its row lies more than the TTL back. */
  ghost predicate Tracks<B>(s: State<B>, last: map<Slot, Done>, cfgOf: (string, string) -> Config, clock: real)
  {
    && (forall slot :: slot in s.ledger ==>
          && slot in last && s.ledger[slot].complete
          && s.ledger[slot].response == Some(last[slot].output)
          && s.ledger[slot].fingerprint == last[slot].fingerprint
          && s.ledger[slot].updated == last[slot].time)
    && (forall slot :: slot in last ==> last[slot].time <= clock)
    && (forall slot :: slot in last && slot !in s.ledger ==>
          clock > last[slot].time + cfgOf(slot.project, slot.operation).ttl)
  }

  function Noted<B>(last: map<Slot, Done>, e: Event<B>, outcome: Outcome): map<Slot, Done>
  {
    if outcome.Executed? then last[e.a.slot := Done(e.a.done, e.a.fingerprint, outcome.output)] else last
  }

  /** What the insert does not find was executed more than the TTL ago, or never. */
  lemma SweptLongAgo<B>(s: State<B>, e: Event<B>, last: map<Slot, Done>, cfgOf: (string, string) -> Config, clock: real)
    requires LawfulEvent(s, e, cfgOf, clock) && Tracks(s, last, cfgOf, clock)
    ensures forall slot :: slot in last && slot !in Swept(s, e.a, e.chosen) ==>
              e.a.done > last[slot].time + cfgOf(slot.project, slot.operation).ttl
    ensures forall slot :: slot in Swept(s, e.a, e.chosen) ==>
              slot in s.ledger && Swept(s, e.a, e.chosen)[slot] == s.ledger[slot]
  {
  }

  lemma StepTracks<B>(s: State<B>, e: Event<B>, last: map<Slot, Done>, cfgOf: (string, string) -> Config, clock: real,
                      size: map<string, Value> -> nat)
    requires LawfulEvent(s, e, cfgOf, clock) && Tracks(s, last, cfgOf, clock)
    ensures Tracks(After(s, e, size), Noted(last, e, OutcomeOf(s, e, size)), cfgOf, e.a.done)
    ensures OutcomeOf(s, e, size).Executed? && e.a.slot in last ==> e.a.done > last[e.a.slot].time + e.a.cfg.ttl
  {
    assert clock <= e.a.done && e.a.cfg == cfgOf(e.a.slot.project, e.a.slot.operation);
    hide *;
    SweptLongAgo(s, e, last, cfgOf, clock);
    ExecutedFromSwept(s, e, size);
    TracksFromSwept(s, After(s, e, size), Swept(s, e.a, e.chosen), e, OutcomeOf(s, e, size), last, cfgOf, clock);
  }

  lemma TracksFromSwept<B>(s: State<B>, s': State<B>, swept: Ledger, e: Event<B>, outcome: Outcome,
                           last: map<Slot, Done>, cfgOf: (string, string) -> Config, clock: real)
    requires Tracks(s, last, cfgOf, clock) && clock <= e.a.done && e.a.cfg == cfgOf(e.a.slot.project, e.a.slot.operation)
    requires forall slot :: slot in last && slot !in swept ==>
               e.a.done > last[slot].time + cfgOf(slot.project, slot.operation).ttl
    requires forall slot :: slot in swept ==> slot in s.ledger && swept[slot] == s.ledger[slot]
    requires if outcome.Executed? then
               && e.a.slot !in swept
               && s'.ledger == swept[e.a.slot := Row(s.nextId, e.a.fingerprint, true, Some(outcome.output), e.a.done)]
             else s'.ledger == s.ledger
    ensures Tracks(s', Noted(last, e, outcome), cfgOf, e.a.done)
    ensures outcome.Executed? && e.a.slot in last ==> e.a.done > last[e.a.slot].time + e.a.cfg.ttl
  {
  }

  /** An execution puts its row into the swept ledger, where there was none; anything else leaves the ledger. */
  lemma ExecutedFromSwept<B>(s: State<B>, e: Event<B>, size: map<string, Value> -> nat)
    ensures var s', outcome, swept := After(s, e, size), OutcomeOf(s, e, size), Swept(s, e.a, e.chosen);
            if outcome.Executed? then
              && e.a.slot !in swept
              && s'.ledger == swept[e.a.slot := Row(s.nextId, e.a.fingerprint, true, Some(outcome.output), e.a.done)]
            else s'.ledger == s.ledger
  {
    hide ExecuteAll;
    hide AfterCleanup;
    hide Swept;
  }

  /** Every row that is ever visible is complete, so the answer is never "still in progress". */
  lemma NeverInProgress<B>(s: State<B>, last: map<Slot, Done>, cfgOf: (string, string) -> Config, clock: real, a: Attempt<B>)
    requires Tracks(s, last, cfgOf, clock)
    ensures LookUp(s.ledger, a) != InProgress
    ensures LookUp(s.ledger, a).Replayed? ==>
              && a.slot in last && last[a.slot].fingerprint == a.fingerprint
              && LookUp(s.ledger, a).output == last[a.slot].output
  {
  }

  // ---------------------------------------------------------------- whole runs

  /** Executions of a slot come more than the TTL after the last one and after each other. */
  ghost predicate Separated<B>(events: seq<Event<B>>, outcomes: seq<Outcome>, last: map<Slot, Done>)
    requires |outcomes| == |events|
  {
    && (forall j :: 0 <= j < |events| && outcomes[j].Executed? && events[j].a.slot in last ==>
          events[j].a.done > last[events[j].a.slot].time + events[j].a.cfg.ttl)
    && (forall i, j :: 0 <= i < j < |events| && outcomes[i].Executed? && outcomes[j].Executed?
                       && events[i].a.slot == events[j].a.slot ==>
          events[j].a.done > events[i].a.done + events[j].a.cfg.ttl)
  }

  lemma SeparatedAfter<B>(e: Event<B>, outcome: Outcome, rest: seq<Event<B>>, tail: seq<Outcome>, last: map<Slot, Done>)
    requires |tail| == |rest| && e.a.cfg.ttl >= 0.0 && Separated(rest, tail, Noted(last, e, outcome))
    requires outcome.Executed? && e.a.slot in last ==> e.a.done > last[e.a.slot].time + e.a.cfg.ttl
    ensures Separated([e] + rest, [outcome] + tail, last)
  {
    var events, outcomes := [e] + rest, [outcome] + tail;
    forall j | 0 < j < |events| && outcomes[j].Executed? && events[j].a.slot in Noted(last, e, outcome)
      ensures events[j].a.done > Noted(last, e, outcome)[events[j].a.slot].time + events[j].a.cfg.ttl
    {
      assert events[j] == rest[j - 1] && outcomes[j] == tail[j - 1];
    }
    forall i, j | 0 < i < j < |events| && outcomes[i].Executed? && outcomes[j].Executed? && events[i].a.slot == events[j].a.slot
      ensures events[j].a.done > events[i].a.done + events[j].a.cfg.ttl
    {
      assert events[i] == rest[i - 1] && outcomes[i] == tail[i - 1];
      assert events[j] == rest[j - 1] && outcomes[j] == tail[j - 1];
    }
  }

  lemma {:induction false} RunSeparates<B>(
    s: State<B>, events: seq<Event<B>>, last: map<Slot, Done>, cfgOf: (string, string) -> Config, clock: real,
    size: map<string, Value> -> nat)
    requires Lawful(s, events, cfgOf, clock, size) && Tracks(s, last, cfgOf, clock)
    ensures Separated(events, Outcomes(s, events, size), last)
    decreases |events|
  {
    if events != [] {
      var e, rest := events[0], events[1..];
      var s', outcome := After(s, e, size), OutcomeOf(s, e, size);
      StepTracks(s, e, last, cfgOf, clock, size);
      hide Attempted;
      hide Tracks;
      RunSeparates(s', rest, Noted(last, e, outcome), cfgOf, e.a.done, size);
      SeparatedAfter(e, outcome, rest, Outcomes(s', rest, size), last);
      assert [e] + rest == events;
    }
  }

  /** The history of a run: the last execution of each slot. */
  function History<B>(s: State<B>, events: seq<Event<B>>, last: map<Slot, Done>, size: map<string, Value> -> nat): map<Slot, Done>
    decreases |events|
  {
    if events == [] then last
    else History(After(s, events[0], size), events[1..], Noted(last, events[0], OutcomeOf(s, events[0], size)), size)
  }

  function EndTime<B>(events: seq<Event<B>>, clock: real): real
  {
    if events == [] then clock else events[|events| - 1].a.done
  }

  lemma {:induction false} RunTracks<B>(
    s: State<B>, events: seq<Event<B>>, last: map<Slot, Done>, cfgOf: (string, string) -> Config, clock: real,
    size: map<string, Value> -> nat)
    requires Lawful(s, events, cfgOf, clock, size) && Tracks(s, last, cfgOf, clock)
    ensures Tracks(Run(s, events, size), History(s, events, last, size), cfgOf, EndTime(events, clock))
    decreases |events|
  {
    if events != [] {
      StepTracks(s, events[0], last, cfgOf, clock, size);
      hide Tracks;
      RunTracks(After(s, events[0], size), events[1..], Noted(last, events[0], OutcomeOf(s, events[0], size)),
                cfgOf, events[0].a.done, size);
    }
  }

  ghost predicate LastExecution<B>(events: seq<Event<B>>, outcomes: seq<Outcome>, slot: Slot, k: int)
    requires |outcomes| == |events|
  {
    && 0 <= k < |events| && events[k].a.slot == slot && outcomes[k].Executed?
    && forall j :: k < j < |events| && events[j].a.slot == slot ==> !outcomes[j].Executed?
  }

  ghost predicate NeverExecuted<B>(events: seq<Event<B>>, outcomes: seq<Outcome>, slot: Slot)
    requires |outcomes| == |events|
  {
    forall j :: 0 <= j < |events| && events[j].a.slot == slot ==> !outcomes[j].Executed?
  }

  ghost predicate Records<B>(events: seq<Event<B>>, outcomes: seq<Outcome>, slot: Slot, d: Done, k: int)
    requires |outcomes| == |events|
  {
    && LastExecution(events, outcomes, slot, k)
    && d == Done(events[k].a.done, events[k].a.fingerprint, outcomes[k].output)
  }

  /** History is what it says: the last event that executed a slot. */
  lemma {:induction false} HistoryIsLastExecution<B>(
    s: State<B>, events: seq<Event<B>>, last: map<Slot, Done>, size: map<string, Value> -> nat, slot: Slot)
    requires slot in History(s, events, last, size)
    ensures var outcomes, d := Outcomes(s, events, size), History(s, events, last, size)[slot];
            || (slot in last && d == last[slot] && NeverExecuted(events, outcomes, slot))
            || exists k :: Records(events, outcomes, slot, d, k)
    decreases |events|
  {
    if events != [] {
      var e, rest := events[0], events[1..];
      var s', outcome := After(s, e, size), OutcomeOf(s, e, size);
      hide Attempted;
      HistoryIsLastExecution(s', rest, Noted(last, e, outcome), size, slot);
      var outcomes, tail := Outcomes(s, events, size), Outcomes(s', rest, size);
      var d := History(s, events, last, size)[slot];
      assert outcomes == [outcome] + tail;
      assert forall j :: 0 < j < |events| ==> events[j] == rest[j - 1] && outcomes[j] == tail[j - 1];
      if k :| Records(rest, tail, slot, d, k) {
        assert Records(events, outcomes, slot, d, k + 1);
      } else if outcome.Executed? && e.a.slot == slot {
        assert Records(events, outcomes, slot, d, 0);
      }
    }
  }

  /**
   * From an empty ledger, after any run: a replay is the response of the last committed execution
   * of that key, which had the same fingerprint; nobody is told that an execution is in progress.
   */
  lemma ReplaysTheLastExecution<B>(
    s: State<B>, events: seq<Event<B>>, cfgOf: (string, string) -> Config, clock: real,
    size: map<string, Value> -> nat, a: Attempt<B>)
    requires s.ledger == map[] && Lawful(s, events, cfgOf, clock, size)
    ensures var answer, outcomes := LookUp(Run(s, events, size).ledger, a), Outcomes(s, events, size);
            && !answer.InProgress?
            && (answer.Replayed? ==>
                  exists k :: LastExecution(events, outcomes, a.slot, k) && events[k].a.fingerprint == a.fingerprint
                              && outcomes[k] == Executed(answer.output))
  {
    var end, h := Run(s, events, size), History(s, events, map[], size);
    RunTracks(s, events, map[], cfgOf, clock, size);
    NeverInProgress(end, h, cfgOf, EndTime(events, clock), a);
    if LookUp(end.ledger, a).Replayed? {
      HistoryIsLastExecution(s, events, map[], size, a.slot);
      var k :| Records(events, Outcomes(s, events, size), a.slot, h[a.slot], k);
      assert LastExecution(events, Outcomes(s, events, size), a.slot, k);
    }
  }

  /** From an empty ledger: two executions of one key are always more than the TTL apart. */
  lemma ExecutionsAreSeparated<B>(
    s: State<B>, events: seq<Event<B>>, cfgOf: (string, string) -> Config, clock: real,
    size: map<string, Value> -> nat, i: int, j: int)
    requires s.ledger == map[] && Lawful(s, events, cfgOf, clock, size)
    requires 0 <= i < j < |events| && events[i].a.slot == events[j].a.slot
    requires Outcomes(s, events, size)[i].Executed? && Outcomes(s, events, size)[j].Executed?
    ensures events[j].a.done - events[i].a.done > events[j].a.cfg.ttl
  {
    RunSeparates(s, events, map[], cfgOf, clock, size);
  }

  /**
   * From an empty ledger: an attempt that completes within the TTL of its key's last execution
   * runs nothing. It is answered from that execution: its response for the same fingerprint, a
   * conflict for another.
   */
  lemma WithinTtlAnsweredFromTheRow<B>(
    s: State<B>, events: seq<Event<B>>, cfgOf: (string, string) -> Config, clock: real,
    size: map<string, Value> -> nat, e: Event<B>, k: int)
    requires s.ledger == map[] && Lawful(s, events, cfgOf, clock, size)
    requires LawfulEvent(Run(s, events, size), e, cfgOf, EndTime(events, clock))
    requires LastExecution(events, Outcomes(s, events, size), e.a.slot, k)
    requires e.a.done - events[k].a.done <= e.a.cfg.ttl
    ensures var now, outcomes := Run(s, events, size), Outcomes(s, events, size);
            && OutcomeOf(now, e, size) == IntegrityError
            && After(now, e, size).business == now.business && After(now, e, size).ledger == now.ledger
            && LookUp(now.ledger, e.a) == if e.a.fingerprint == events[k].a.fingerprint
                                          then Replayed(outcomes[k].output) else Conflict
  {
    var now, h := Run(s, events, size), History(s, events, map[], size);
    var outcomes := Outcomes(s, events, size);
    RunTracks(s, events, map[], cfgOf, clock, size);
    LastExecutionIsRecorded(s, events, map[], size, e.a.slot, k);
    HistoryIsLastExecution(s, events, map[], size, e.a.slot);
    var j :| Records(events, outcomes, e.a.slot, h[e.a.slot], j);
    OneLastExecution(events, outcomes, e.a.slot, j, k);
    WithinTtlNothingRuns(now, e, cfgOf, EndTime(events, clock), size, h);
  }

  lemma OneLastExecution<B>(events: seq<Event<B>>, outcomes: seq<Outcome>, slot: Slot, j: int, k: int)
    requires |outcomes| == |events|
    requires LastExecution(events, outcomes, slot, j) && LastExecution(events, outcomes, slot, k)
    ensures j == k
  {
  }

  lemma {:induction false} LastExecutionIsRecorded<B>(
    s: State<B>, events: seq<Event<B>>, last: map<Slot, Done>, size: map<string, Value> -> nat, slot: Slot, k: int)
    requires slot in last || LastExecution(events, Outcomes(s, events, size), slot, k)
    ensures slot in History(s, events, last, size)
    decreases |events|
  {
    if events != [] {
      var e, rest := events[0], events[1..];
      var s', outcome := After(s, e, size), OutcomeOf(s, e, size);
      hide Attempted;
      var outcomes, tail := Outcomes(s, events, size), Outcomes(s', rest, size);
      assert outcomes == [outcome] + tail;
      assert forall j :: 0 < j < |events| ==> events[j] == rest[j - 1] && outcomes[j] == tail[j - 1];
      if slot !in Noted(last, e, outcome) {
        assert forall j :: k - 1 < j < |rest| ==> rest[j] == events[j + 1] && tail[j] == outcomes[j + 1];
        assert LastExecution(rest, tail, slot, k - 1);
      }
      LastExecutionIsRecorded(s', rest, Noted(last, e, outcome), size, slot, k - 1);
    }
  }

  // ---------------------------------------------------------------- what does run

  /**
   * From an empty ledger: an attempt whose key was never executed, or last more than the TTL ago, runs
   * its statements, and what they do is committed and answered unless they fail or the answer is too big.
   */
  lemma NewOrExpiredRuns<B>(
    s: State<B>, events: seq<Event<B>>, cfgOf: (string, string) -> Config, clock: real,
    size: map<string, Value> -> nat, e: Event<B>)
    requires s.ledger == map[] && Lawful(s, events, cfgOf, clock, size)
    requires LawfulEvent(Run(s, events, size), e, cfgOf, EndTime(events, clock))
    requires forall k :: LastExecution(events, Outcomes(s, events, size), e.a.slot, k) ==> events[k].a.done + e.a.cfg.ttl < e.a.now
    ensures var now := Run(s, events, size);
            match ExecuteAll(e.a.statements, now.business)
            case Finished(db, output) =>
              if size(output) <= e.a.cfg.maxBytes then OutcomeOf(now, e, size) == Executed(output) && After(now, e, size).business == db
              else OutcomeOf(now, e, size) == Refused(TooLarge)
            case Failed(why) => OutcomeOf(now, e, size) == Refused(why)
            case Violation => OutcomeOf(now, e, size) == IntegrityError
  {
    var now, h := Run(s, events, size), History(s, events, map[], size);
    RunTracks(s, events, map[], cfgOf, clock, size);
    if e.a.slot in now.ledger {
      HistoryIsLastExecution(s, events, map[], size, e.a.slot);
      var k :| Records(events, Outcomes(s, events, size), e.a.slot, h[e.a.slot], k);
      assert LastExecution(events, Outcomes(s, events, size), e.a.slot, k);
      assert Expired(now.ledger[e.a.slot], Cutoff(e.a));
    }
    RunsUnlessLive(now, e, size);
  }

  lemma RunsUnlessLive<B>(s: State<B>, e: Event<B>, size: map<string, Value> -> nat)
    requires e.a.slot in s.ledger ==> Expired(s.ledger[e.a.slot], Cutoff(e.a))
    ensures match ExecuteAll(e.a.statements, s.business)
            case Finished(db, output) =>
              if size(output) <= e.a.cfg.maxBytes then OutcomeOf(s, e, size) == Executed(output) && After(s, e, size).business == db
              else OutcomeOf(s, e, size) == Refused(TooLarge)
            case Failed(why) => OutcomeOf(s, e, size) == Refused(why)
            case Violation => OutcomeOf(s, e, size) == IntegrityError
  {
    hide ExecuteAll;
    hide AfterCleanup;
    hide Expired;
  }

  // ---------------------------------------------------------------- expired rows

  /**
   * From an empty ledger: an attempt that finds its key's row expired is answered from that row
   * after all, exactly when its statements raise an integrity error. The rollback brings the row
   * back, and the lookup replays its response for the same fingerprint or reports a conflict.
   */
  lemma ExpiredReplayIffStatementsViolate<B>(
    s: State<B>, events: seq<Event<B>>, cfgOf: (string, string) -> Config, clock: real,
    size: map<string, Value> -> nat, e: Event<B>)
    requires s.ledger == map[] && Lawful(s, events, cfgOf, clock, size)
    requires LawfulEvent(Run(s, events, size), e, cfgOf, EndTime(events, clock))
    requires e.a.slot in Run(s, events, size).ledger && Expired(Run(s, events, size).ledger[e.a.slot], Cutoff(e.a))
    ensures var now, outcomes := Run(s, events, size), Outcomes(s, events, size);
            && (OutcomeOf(now, e, size) == IntegrityError <==> ExecuteAll(e.a.statements, now.business).Violation?)
            && (OutcomeOf(now, e, size) == IntegrityError ==>
                  exists k :: LastExecution(events, outcomes, e.a.slot, k) && events[k].a.done + e.a.cfg.ttl < e.a.now
                              && LookUp(After(now, e, size).ledger, e.a) ==
                                 if e.a.fingerprint == events[k].a.fingerprint
                                 then Replayed(outcomes[k].output) else Conflict)
  {
    var now, h := Run(s, events, size), History(s, events, map[], size);
    RunTracks(s, events, map[], cfgOf, clock, size);
    HistoryIsLastExecution(s, events, map[], size, e.a.slot);
    var k :| Records(events, Outcomes(s, events, size), e.a.slot, h[e.a.slot], k);
    assert LastExecution(events, Outcomes(s, events, size), e.a.slot, k);
    assert events[k].a.done + e.a.cfg.ttl < e.a.now;
  }

  /** An attempt of the same request on the one key there is, at a given time. */
  function AttemptAt(statements: seq<Statement<int>>, time: real): Attempt<int>
  {
    Attempt(Slot("shop", "pay", "key"), Config(60.0, 10, 1024), "same request", statements, time, time, time, time)
  }

  const ON_ITS_OWN: Statement<int> :=
    Statement(true, Execute, (db: int) => Ran(db + 1, 1, []), "done", 1, None, None)

  const ON_A_TAKEN_NAME: Statement<int> :=
    Statement(true, Execute, (db: int) => Violates, "done", 1, None, None)

  const KEY := Slot("shop", "pay", "key")

  /** The first attempt runs; its cleanup finds nothing. */
  const FIRST: Event<int> := Event(AttemptAt([ON_ITS_OWN], 0.0), {})

  /** The second comes 100 seconds later; its cleanup takes the one row away, until the rollback. */
  const SECOND: Event<int> := Event(AttemptAt([ON_A_TAKEN_NAME], 100.0), {KEY})

  const START: State<int> := State(0, map[], 0, map[])

  const PAID: map<string, Value> := map["done" := Count(1)]

  /** The state between the two. */
  lemma AfterFirst(size: map<string, Value> -> nat)
    requires size(PAID) <= 1024
    ensures LawfulEvent(START, FIRST, (_, _) => Config(60.0, 10, 1024), 0.0)
    ensures Attempted(START, FIRST.a, {}, size) ==
            (State(1, map[KEY := Row(0, "same request", true, Some(PAID), 0.0)], 1, map[("shop", "pay") := 60.0]), Executed(PAID))
  {
    RunsOnce();
    assert Stale(START.ledger, FIRST.a) == {};
    assert Swept(START, FIRST.a, {}) == map[];
  }

  lemma AfterSecond(s: State<int>, size: map<string, Value> -> nat)
    requires s == State(1, map[KEY := Row(0, "same request", true, Some(PAID), 0.0)], 1, map[("shop", "pay") := 60.0])
    ensures LawfulEvent(s, SECOND, (_, _) => Config(60.0, 10, 1024), 0.0)
    ensures OutcomeOf(s, SECOND, size) == IntegrityError && After(s, SECOND, size).ledger == s.ledger
  {
    RunsOnce();
    assert Stale(s.ledger, SECOND.a) == {KEY};
    assert Swept(s, SECOND.a, {KEY}) == map[];
  }

  /** An input for it: a request is executed and, more than the TTL later, replayed: not run, not refused. */
  lemma ExpiredReplayHappens(size: map<string, Value> -> nat)
    requires size(PAID) <= 1024
    ensures Lawful(START, [FIRST, SECOND], (_, _) => Config(60.0, 10, 1024), 0.0, size)
    ensures Outcomes(START, [FIRST, SECOND], size) == [Executed(PAID), IntegrityError]
    ensures LookUp(Run(START, [FIRST, SECOND], size).ledger, SECOND.a) == Replayed(PAID)
    ensures SECOND.a.now > FIRST.a.done + SECOND.a.cfg.ttl
  {
    AfterFirst(size);
    var s1 := After(START, FIRST, size);
    AfterSecond(s1, size);
    hide Attempted;
    assert [FIRST, SECOND][1..] == [SECOND] && [SECOND][1..] == [];
    assert Lawful(s1, [SECOND], (_, _) => Config(60.0, 10, 1024), 0.0, size);
    assert Run(s1, [SECOND], size) == After(s1, SECOND, size);
    assert Outcomes(s1, [SECOND], size) == [IntegrityError];
  }

  lemma RunsOnce()
    ensures ExecuteAll([ON_ITS_OWN], 0) == Finished(1, map["done" := Count(1)])
    ensures ExecuteAll([ON_A_TAKEN_NAME], 1) == Violation
  {
    assert [ON_ITS_OWN][1..] == [] && ON_ITS_OWN.effect(0) == Ran(1, 1, []);
    assert map[]["done" := Count(1)] == map["done" := Count(1)];
    assert ExecuteFrom([ON_ITS_OWN][1..], 1, map["done" := Count(1)], []) == Finished(1, map["done" := Count(1)]);
  }

  // ---------------------------------------------------------------- business state

  /** The business state is what the executed attempts, one after the other, make of it. */
  function Committed<B>(db: B, events: seq<Event<B>>, outcomes: seq<Outcome>): B
    requires |outcomes| == |events|
    decreases |events|
  {
    if events == [] then db
    else
      var r := ExecuteAll(events[0].a.statements, db);
      Committed(if outcomes[0].Executed? && r.Finished? then r.db else db, events[1..], outcomes[1..])
  }

  lemma {:induction false} BusinessIsWhatExecuted<B>(s: State<B>, events: seq<Event<B>>, size: map<string, Value> -> nat)
    ensures Run(s, events, size).business == Committed(s.business, events, Outcomes(s, events, size))
    decreases |events|
  {
    if events != [] {
      AllOrNothing(s, events[0], size);
      hide Attempted;
      BusinessIsWhatExecuted(After(s, events[0], size), events[1..], size);
      assert Outcomes(s, events, size)[1..] == Outcomes(After(s, events[0], size), events[1..], size);
    }
  }

  // ---------------------------------------------------------------- how often rows are swept

  /** An expired row of the project and operation of e. */
  ghost predicate Leftover<B>(ledger: Ledger, e: Event<B>, slot: Slot)
  {
    && slot in ledger && slot.project == e.a.slot.project && slot.operation == e.a.slot.operation
    && ledger[slot].updated < e.a.now - e.a.cfg.ttl
  }

  /**
   * A cleanup that is due, in a transaction that commits, removes the expired rows of its project and
   * operation, the oldest first, up to the size of the batch: a row that it leaves is no older than any
   * that it took, and it leaves one only if the batch was full.
   */
  lemma DueCleanupSweeps<B>(s: State<B>, e: Event<B>, cfgOf: (string, string) -> Config, clock: real,
                            size: map<string, Value> -> nat, slot: Slot)
    requires LawfulEvent(s, e, cfgOf, clock) && Due(s.cleanupAfter, (e.a.slot.project, e.a.slot.operation), e.a.mono)
    requires OutcomeOf(s, e, size).Executed? && slot != e.a.slot && Leftover(s.ledger, e, slot)
    ensures slot in After(s, e, size).ledger ==>
              |e.chosen| == e.a.cfg.batchSize
              && forall taken :: taken in e.chosen ==>
                   (taken == e.a.slot || taken !in After(s, e, size).ledger)
                   && Leftover(s.ledger, e, taken) && Older(s.ledger[taken], s.ledger[slot])
  {
    ExecutedFromSwept(s, e, size);
    hide Attempted;
    hide AfterCleanup;
    assert slot in Stale(s.ledger, e.a);
    if slot in After(s, e, size).ledger {
      assert slot !in e.chosen;
      NotAll(e.chosen, Stale(s.ledger, e.a), slot);
    }
  }

  lemma NotAll<T>(a: set<T>, b: set<T>, x: T)
    requires a <= b && x in b && x !in a
    ensures |a| < |b|
  {
    assert |b| == |a| + |b - a| by { assert a + (b - a) == b; }
    assert b - a != {};
  }

  /** The interval is a tenth of the TTL, but at least a minute and at most ten. */
  lemma IntervalIs(ttl: real)
    ensures ttl <= 600.0 ==> Interval(ttl) == 60.0
    ensures 600.0 <= ttl <= 6000.0 ==> 10.0 * Interval(ttl) == ttl
    ensures ttl >= 6000.0 ==> Interval(ttl) == 600.0
  {
  }

  /**
   * After a cleanup the next one of the same project and operation waits for the interval, or for
   * one second if the batch was full; a rollback does not take that back.
   */
  lemma CleanupWaits<B>(s: State<B>, e: Event<B>, size: map<string, Value> -> nat, later: real)
    requires Due(s.cleanupAfter, (e.a.slot.project, e.a.slot.operation), e.a.mono) && e.a.cfg.ttl >= 60.0
    ensures var key := (e.a.slot.project, e.a.slot.operation);
            Due(After(s, e, size).cleanupAfter, key, later) <==>
              (if |e.chosen| >= e.a.cfg.batchSize then later >= e.a.monoEnd + 1.0 else later >= e.a.mono + Interval(e.a.cfg.ttl))
    ensures 60.0 <= Interval(e.a.cfg.ttl) <= 600.0
    ensures forall key :: key != (e.a.slot.project, e.a.slot.operation) ==>
              (key in After(s, e, size).cleanupAfter <==> key in s.cleanupAfter)
              && (key in s.cleanupAfter ==> After(s, e, size).cleanupAfter[key] == s.cleanupAfter[key])
  {
  }
}
