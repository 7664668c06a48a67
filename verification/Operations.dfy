/**
 * The statements of an operation (framework/operations.py:164-209). What a statement does to the
 * database is an arbitrary function; its guards, its result and the failures are the source's.
 */
module Operations {

  datatype Option<+T> = None | Some(value: T)

  /** What the database answers to one statement. */
  datatype Effect<B> = Ran(db: B, rowcount: int, rows: seq<string>) | Violates | Breaks

  datatype Mode = Execute | FetchOne | FetchAll | Scalar

  /** safe: the SQL text passes _safe_sql. */
  datatype Statement<!B> = Statement(
    safe: bool, mode: Mode, effect: B -> Effect<B>, resultName: string,
    maxRows: nat, rowcountMin: Option<nat>, rowcountMax: Option<nat>)

  datatype Value = Count(n: nat) | One(row: Option<string>) | All(rows: seq<string>) | Many(values: seq<Value>)

  datatype Failure = Unsafe | Broken | BelowMinimum | AboveMaximum | TooManyRows | TooLarge

  /** Violation: the database raised an integrity error. */
  datatype Result<B> = Finished(db: B, output: map<string, Value>) | Failed(why: Failure) | Violation

  datatype Verdict = Answer(value: Value) | Refusal(why: Failure)

  function Positive(n: int): nat { if n > 0 then n else 0 }

  /** What one statement answers, or why the operation stops at it. */
  function Judge<B>(s: Statement<B>, rowcount: int, rows: seq<string>): Verdict
  {
    match s.mode
    case Execute =>
      if s.rowcountMin.Some? && Positive(rowcount) < s.rowcountMin.value then Refusal(BelowMinimum)
      else if s.rowcountMax.Some? && Positive(rowcount) > s.rowcountMax.value then Refusal(AboveMaximum)
      else Answer(Count(Positive(rowcount)))
    case FetchOne => Answer(One(if rows == [] then None else Some(rows[0])))
    case FetchAll => if |rows| > s.maxRows then Refusal(TooManyRows) else Answer(All(rows))
    case Scalar => Answer(One(if rows == [] then None else Some(rows[0])))
  }

  /** The loop of _execute_on_connection from some statement on. */
  function ExecuteFrom<B>(statements: seq<Statement<B>>, db: B, output: map<string, Value>, unnamed: seq<Value>): Result<B>
    decreases |statements|
  {
    if statements == [] then Finished(db, if unnamed == [] then output else output["results" := Many(unnamed)])
    else if !statements[0].safe then Failed(Unsafe)
    else
      match statements[0].effect(db)
      case Violates => Violation
      case Breaks => Failed(Broken)
      case Ran(next, rowcount, rows) =>
        match Judge(statements[0], rowcount, rows)
        case Refusal(why) => Failed(why)
        case Answer(value) =>
          if statements[0].resultName != "" then
            ExecuteFrom(statements[1..], next, output[statements[0].resultName := value], unnamed)
          else ExecuteFrom(statements[1..], next, output, unnamed + [value])
  }

  function ExecuteAll<B>(statements: seq<Statement<B>>, db: B): Result<B>
  {
    ExecuteFrom(statements, db, map[], [])
  }

  method ExecuteOnConnection<B>(statements: seq<Statement<B>>, db0: B) returns (r: Result<B>)
    ensures r == ExecuteAll(statements, db0)
  {
    var db, output, unnamed, i := db0, map[], [], 0;
    while i < |statements|
      invariant 0 <= i <= |statements|
      invariant ExecuteFrom(statements[i..], db, output, unnamed) == ExecuteAll(statements, db0)
    {
      var statement := statements[i];
      assert statements[i..][0] == statement && statements[i..][1..] == statements[i + 1..];
      if !statement.safe {
        return Failed(Unsafe);
      }
      var effect := statement.effect(db);
      if effect.Violates? {
        return Violation;
      } else if effect.Breaks? {
        return Failed(Broken);
      }
      var verdict := Judge(statement, effect.rowcount, effect.rows);
      if verdict.Refusal? {
        return Failed(verdict.why);
      }
      db := effect.db;
      if statement.resultName != "" {
        output := output[statement.resultName := verdict.value];
      } else {
        unnamed := unnamed + [verdict.value];
      }
      i := i + 1;
    }
    r := Finished(db, if unnamed == [] then output else output["results" := Many(unnamed)]);
  }

  // ---------------------------------------------------------------- what success means

  /** The statement ran from one database to the next and its guards held. */
  ghost predicate Passes<B>(s: Statement<B>, before: B, after: B)
  {
    && s.safe && s.effect(before).Ran? && s.effect(before).db == after
    && var n, rows := Positive(s.effect(before).rowcount), s.effect(before).rows;
       && (s.mode.Execute? && s.rowcountMin.Some? ==> n >= s.rowcountMin.value)
       && (s.mode.Execute? && s.rowcountMax.Some? ==> n <= s.rowcountMax.value)
       && (s.mode.FetchAll? ==> |rows| <= s.maxRows)
  }

  ghost predicate Passing<B>(statements: seq<Statement<B>>, dbs: seq<B>)
  {
    |dbs| == |statements| + 1 && forall i :: 0 <= i < |statements| ==> Passes(statements[i], dbs[i], dbs[i + 1])
  }

  /** An operation finishes exactly if every statement, run on what the ones before it left, passes its guards. */
  lemma {:induction false} FinishesIffAllPass<B(!new)>(
    statements: seq<Statement<B>>, db: B, output: map<string, Value>, unnamed: seq<Value>, end: B)
    ensures (ExecuteFrom(statements, db, output, unnamed).Finished? && ExecuteFrom(statements, db, output, unnamed).db == end)
              <==> exists dbs :: Passing(statements, dbs) && dbs[0] == db && dbs[|statements|] == end
    decreases |statements|
  {
    var r := ExecuteFrom(statements, db, output, unnamed);
    if statements == [] {
      assert db == end ==> Passing(statements, [db]);
    } else {
      var s, rest := statements[0], statements[1..];
      if s.safe && s.effect(db).Ran? && Judge(s, s.effect(db).rowcount, s.effect(db).rows).Answer? {
        var next := s.effect(db).db;
        var value := Judge(s, s.effect(db).rowcount, s.effect(db).rows).value;
        if s.resultName != "" {
          FinishesIffAllPass(rest, next, output[s.resultName := value], unnamed, end);
        } else {
          FinishesIffAllPass(rest, next, output, unnamed + [value], end);
        }
        PassingSplits(statements, db, next, end);
      } else {
        forall dbs | Passing(statements, dbs) ensures dbs[0] != db {
          assert Passes(statements[0], dbs[0], dbs[1]);
        }
      }
    }
  }

  lemma PassingSplits<B(!new)>(statements: seq<Statement<B>>, db: B, next: B, end: B)
    requires statements != [] && Passes(statements[0], db, next)
    ensures (exists dbs :: Passing(statements, dbs) && dbs[0] == db && dbs[|statements|] == end)
              <==> exists dbs :: Passing(statements[1..], dbs) && dbs[0] == next && dbs[|statements[1..]|] == end
  {
    var rest := statements[1..];
    if dbs :| Passing(statements, dbs) && dbs[0] == db && dbs[|statements|] == end {
      assert Passes(statements[0], dbs[0], dbs[1]);
      assert forall i :: 0 <= i < |rest| ==> Passes(statements[i + 1], dbs[i + 1], dbs[i + 2]) && rest[i] == statements[i + 1];
      assert Passing(rest, dbs[1..]);
    }
    if dbs :| Passing(rest, dbs) && dbs[0] == next && dbs[|rest|] == end {
      var all := [db] + dbs;
      forall i | 0 <= i < |statements| ensures Passes(statements[i], all[i], all[i + 1]) {
        if i > 0 { assert Passes(rest[i - 1], dbs[i - 1], dbs[i]); }
      }
      assert Passing(statements, all);
    }
  }

  // ---------------------------------------------------------------- what failure means

  /** The statement does not go through, for this reason. */
  ghost predicate Stops<B>(s: Statement<B>, before: B, r: Result<B>)
  {
    if !s.safe then r == Failed(Unsafe)
    else
      match s.effect(before)
      case Violates => r == Violation
      case Breaks => r == Failed(Broken)
      case Ran(_, rowcount, rows) =>
        var n := Positive(rowcount);
        || (s.mode.Execute? && s.rowcountMin.Some? && n < s.rowcountMin.value && r == Failed(BelowMinimum))
        || (s.mode.Execute? && s.rowcountMax.Some? && n > s.rowcountMax.value && r == Failed(AboveMaximum)
            && (s.rowcountMin.Some? ==> n >= s.rowcountMin.value))
        || (s.mode.FetchAll? && |rows| > s.maxRows && r == Failed(TooManyRows))
  }

  ghost predicate StopsAt<B>(statements: seq<Statement<B>>, dbs: seq<B>, k: nat, r: Result<B>)
  {
    k < |statements| && Passing(statements[..k], dbs) && Stops(statements[k], dbs[k], r)
  }

  /** An operation that does not finish ends as its first statement that does not go through. */
  lemma {:induction false} StopsAtFirst<B(!new)>(
    statements: seq<Statement<B>>, db: B, output: map<string, Value>, unnamed: seq<Value>) returns (k: nat, dbs: seq<B>)
    requires !ExecuteFrom(statements, db, output, unnamed).Finished?
    ensures StopsAt(statements, dbs, k, ExecuteFrom(statements, db, output, unnamed)) && dbs[0] == db
    decreases |statements|
  {
    var s, rest := statements[0], statements[1..];
    var r := ExecuteFrom(statements, db, output, unnamed);
    if s.safe && s.effect(db).Ran? && Judge(s, s.effect(db).rowcount, s.effect(db).rows).Answer? {
      var next := s.effect(db).db;
      var value := Judge(s, s.effect(db).rowcount, s.effect(db).rows).value;
      if s.resultName != "" {
        k, dbs := StopsAtFirst(rest, next, output[s.resultName := value], unnamed);
      } else {
        k, dbs := StopsAtFirst(rest, next, output, unnamed + [value]);
      }
      OneMorePasses(statements, db, dbs, k);
      k, dbs := k + 1, [db] + dbs;
    } else {
      k, dbs := 0, [db];
      assert Passing(statements[..0], [db]);
    }
  }

  lemma OneMorePasses<B>(statements: seq<Statement<B>>, db: B, dbs: seq<B>, k: nat)
    requires k < |statements| - 1 && Passing(statements[1..][..k], dbs) && Passes(statements[0], db, dbs[0])
    ensures Passing(statements[..k + 1], [db] + dbs)
  {
    hide Passes;
    var first, all := statements[..k + 1], [db] + dbs;
    forall i | 0 <= i < |first| ensures Passes(first[i], all[i], all[i + 1]) {
      if i > 0 {
        assert first[i] == statements[1..][..k][i - 1] && all[i] == dbs[i - 1] && all[i + 1] == dbs[i];
        assert Passes(statements[1..][..k][i - 1], dbs[i - 1], dbs[i]);
      }
    }
  }

  // ---------------------------------------------------------------- what the result holds

  /** What a statement that ran on a database reports: a count, its first row if there is one, or all rows. */
  ghost predicate Reports<B>(s: Statement<B>, before: B, value: Value)
  {
    && s.effect(before).Ran?
    && var n, rows := s.effect(before).rowcount, s.effect(before).rows;
       && (s.mode.Execute? ==> value.Count? && (n >= 0 ==> value.n == n) && (n < 0 ==> value.n == 0))
       && (s.mode.FetchAll? ==> value == All(rows))
       && (s.mode.FetchOne? || s.mode.Scalar? ==>
             value.One? && (rows == [] ==> value.row == None) && (rows != [] ==> value.row == Some(rows[0])))
  }

  lemma {:induction false} TraceReports<B(!new)>(statements: seq<Statement<B>>, dbs: seq<B>)
    requires Passing(statements, dbs)
    ensures |Trace(statements, dbs[0])| == |statements|
    ensures forall i :: 0 <= i < |statements| ==>
              Trace(statements, dbs[0])[i].0 == statements[i].resultName && Reports(statements[i], dbs[i], Trace(statements, dbs[0])[i].1)
    decreases |statements|
  {
    if statements != [] {
      var s, rest := statements[0], statements[1..];
      assert Passes(s, dbs[0], dbs[1]);
      assert forall i :: 0 <= i < |rest| ==> Passes(statements[i + 1], dbs[i + 1], dbs[i + 2]) && rest[i] == statements[i + 1];
      assert Passing(rest, dbs[1..]);
      TraceReports(rest, dbs[1..]);
      var trace, tail := Trace(statements, dbs[0]), Trace(rest, dbs[1]);
      assert |trace| > 0 && trace[0].0 == s.resultName && Reports(s, dbs[0], trace[0].1) && trace == [trace[0]] + tail;
      hide Reports;
      hide Trace;
      forall i | 0 <= i < |statements| ensures trace[i].0 == statements[i].resultName && Reports(statements[i], dbs[i], trace[i].1) {
        if i > 0 { assert trace[i] == tail[i - 1] && statements[i] == rest[i - 1] && dbs[i] == dbs[1..][i - 1]; }
      }
    }
  }

  /** The results of the statements in order, with the names they go under. */
  function Trace<B>(statements: seq<Statement<B>>, db: B): seq<(string, Value)>
    decreases |statements|
  {
    if statements == [] then []
    else
      var effect := statements[0].effect(db);
      if !effect.Ran? then []
      else
        match Judge(statements[0], effect.rowcount, effect.rows)
        case Refusal(_) => []
        case Answer(value) => [(statements[0].resultName, value)] + Trace(statements[1..], effect.db)
  }

  function Unnamed(trace: seq<(string, Value)>): seq<Value>
  {
    if trace == [] then []
    else (if trace[0].0 == "" then [trace[0].1] else []) + Unnamed(trace[1..])
  }

  /** Entry i is the last one under its name. */
  ghost predicate LastUnder(trace: seq<(string, Value)>, name: string, i: int)
  {
    0 <= i < |trace| && trace[i].0 == name && forall j :: i < j < |trace| ==> trace[j].0 != name
  }

  ghost predicate Absent(trace: seq<(string, Value)>, name: string)
  {
    forall i :: 0 <= i < |trace| ==> trace[i].0 != name
  }

  /** The output is the last result under each name, and the unnamed ones, in order, as "results". */
  ghost predicate Collects(output: map<string, Value>, trace: seq<(string, Value)>, start: map<string, Value>, unnamed: seq<Value>)
  {
    var rest := unnamed + Unnamed(trace);
    && (rest != [] ==> "results" in output && output["results"] == Many(rest))
    && (forall name, i :: LastUnder(trace, name, i) && name != "" && (name != "results" || rest == []) ==>
          name in output && output[name] == trace[i].1)
    && (forall name :: Absent(trace, name) && (name != "results" || rest == []) ==>
          (name in output <==> name in start) && (name in start ==> output[name] == start[name]))
  }

  lemma {:induction false} OutputCollects<B(!new)>(
    statements: seq<Statement<B>>, db: B, output: map<string, Value>, unnamed: seq<Value>)
    requires ExecuteFrom(statements, db, output, unnamed).Finished?
    ensures |Trace(statements, db)| == |statements|
    ensures Collects(ExecuteFrom(statements, db, output, unnamed).output, Trace(statements, db), output, unnamed)
    decreases |statements|
  {
    if statements == [] {
      assert unnamed + [] == unnamed;
    } else {
      var s, next := statements[0], statements[0].effect(db).db;
      var value := Judge(s, s.effect(db).rowcount, s.effect(db).rows).value;
      var name, rest := s.resultName, Trace(statements[1..], next);
      var output' := if name != "" then output[name := value] else output;
      var unnamed' := if name != "" then unnamed else unnamed + [value];
      OutputCollects(statements[1..], next, output', unnamed');
      TraceGrows(ExecuteFrom(statements, db, output, unnamed).output, name, value, rest, output, unnamed);
    }
  }

  /** One more entry at the front. */
  lemma TraceGrows(end: map<string, Value>, name: string, value: Value, rest: seq<(string, Value)>,
                   start: map<string, Value>, unnamed: seq<Value>)
    requires Collects(end, rest, if name != "" then start[name := value] else start,
                      if name != "" then unnamed else unnamed + [value])
    ensures Collects(end, [(name, value)] + rest, start, unnamed)
  {
    var trace := [(name, value)] + rest;
    assert Unnamed(trace) == (if name == "" then [value] else []) + Unnamed(rest);
    assert unnamed + Unnamed(trace) == (if name != "" then unnamed else unnamed + [value]) + Unnamed(rest);
    assert forall j :: 0 < j < |trace| ==> trace[j] == rest[j - 1];
    forall n, i | LastUnder(trace, n, i) ensures if i > 0 then LastUnder(rest, n, i - 1) else n == name && Absent(rest, n) {
      assert forall j :: 0 <= j < |rest| ==> rest[j] == trace[j + 1];
    }
    forall n | Absent(trace, n) ensures n != name && Absent(rest, n) {
      assert trace[0].0 == name;
      assert forall j :: 0 <= j < |rest| ==> rest[j] == trace[j + 1];
    }
  }

  /**
   * So the result of an operation is, by name, the last result of that name: trace[i] is what
   * statement i reported, under its name, when it ran on what the ones before it left.
   */
  lemma OutputIsByName<B(!new)>(statements: seq<Statement<B>>, dbs: seq<B>)
    requires Passing(statements, dbs)
    ensures ExecuteAll(statements, dbs[0]).Finished?
    ensures var trace := Trace(statements, dbs[0]);
            && |trace| == |statements|
            && (forall i :: 0 <= i < |statements| ==>
                  trace[i].0 == statements[i].resultName && Reports(statements[i], dbs[i], trace[i].1))
            && Collects(ExecuteAll(statements, dbs[0]).output, trace, map[], [])
  {
    FinishesIffAllPass(statements, dbs[0], map[], [], dbs[|statements|]);
    TraceReports(statements, dbs);
    OutputCollects(statements, dbs[0], map[], []);
  }
}
