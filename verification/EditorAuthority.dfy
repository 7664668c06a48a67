/**
 * Authority of editor members (framework/editor_identity.py:331-408, 737-770, 829-845): glob
 * scopes, what an access permits, and when a role is within a caller's authority.
 */
module EditorAuthority {
  import opened Delegation
  import Text

  // ---------------------------------------------------------------- globs

  /** fnmatch.fnmatchcase, for patterns without '['. */
  predicate Glob(s: string, pattern: string)
    decreases |pattern|, |s|
  {
    if pattern == [] then s == []
    else if pattern[0] == '*' then Glob(s, pattern[1..]) || (s != [] && Glob(s[1..], pattern))
    else s != [] && (pattern[0] == '?' || pattern[0] == s[0]) && Glob(s[1..], pattern[1..])
  }

  /** A star stands for any stretch of text. */
  lemma {:induction false} StarMatchesAnyStretch(s: string, rest: string)
    ensures Glob(s, ['*'] + rest) <==> exists k :: 0 <= k <= |s| && Glob(s[k..], rest)
    decreases |s|
  {
    var pattern := ['*'] + rest;
    assert pattern[1..] == rest && s[0..] == s;
    if s != [] {
      StarMatchesAnyStretch(s[1..], rest);
      if Glob(s[1..], pattern) {
        var k :| 0 <= k <= |s[1..]| && Glob(s[1..][k..], rest);
        assert s[1..][k..] == s[k + 1..];
      }
      forall k | 0 < k <= |s| && Glob(s[k..], rest) ensures Glob(s[1..], pattern) {
        assert s[1..][k - 1..] == s[k..];
      }
    }
  }

  predicate HasWildcard(pattern: string)
  {
    '*' in pattern || '?' in pattern
  }

  /** A pattern without wildcards matches itself only. */
  lemma {:induction false} LiteralMatchesItself(s: string, pattern: string)
    requires !HasWildcard(pattern)
    ensures Glob(s, pattern) <==> s == pattern
  {
    if pattern != [] {
      assert pattern[0] in pattern;
      assert forall c :: c in pattern[1..] ==> c in pattern;
      if s != [] {
        LiteralMatchesItself(s[1..], pattern[1..]);
        assert s == [s[0]] + s[1..] && pattern == [pattern[0]] + pattern[1..];
      }
    }
  }

  function Glued(pieces: seq<string>): string
  {
    if pieces == [] then "" else pieces[0] + Glued(pieces[1..])
  }

  /** The text cut in one piece per pattern character: any stretch for a star, one character for the others. */
  ghost predicate Aligned(s: string, pattern: string, pieces: seq<string>)
  {
    && |pieces| == |pattern| && s == Glued(pieces)
    && forall i :: 0 <= i < |pattern| ==>
         pattern[i] == '*' || (|pieces[i]| == 1 && (pattern[i] == '?' || pieces[i][0] == pattern[i]))
  }

  ghost predicate StandsFor(pattern: string, s: string)
  {
    exists pieces :: Aligned(s, pattern, pieces)
  }

  lemma AlignedRest(s: string, pattern: string, pieces: seq<string>)
    requires Aligned(s, pattern, pieces) && pattern != []
    ensures s == pieces[0] + Glued(pieces[1..]) && Aligned(Glued(pieces[1..]), pattern[1..], pieces[1..])
  {
    forall i | 0 <= i < |pattern[1..]|
      ensures pattern[1..][i] == '*' || (|pieces[1..][i]| == 1 && (pattern[1..][i] == '?' || pieces[1..][i][0] == pattern[1..][i]))
    {
      assert pattern[1..][i] == pattern[i + 1] && pieces[1..][i] == pieces[i + 1];
    }
  }

  /** A first piece more. */
  lemma AlignedMore(s: string, pattern: string, first: string, pieces: seq<string>)
    requires pattern != [] && Aligned(s, pattern[1..], pieces)
    requires pattern[0] == '*' || (|first| == 1 && (pattern[0] == '?' || first[0] == pattern[0]))
    ensures Aligned(first + s, pattern, [first] + pieces)
  {
    var all := [first] + pieces;
    assert all[1..] == pieces;
    forall i | 0 <= i < |pattern|
      ensures pattern[i] == '*' || (|all[i]| == 1 && (pattern[i] == '?' || all[i][0] == pattern[i]))
    {
      if i > 0 { assert pattern[i] == pattern[1..][i - 1] && all[i] == pieces[i - 1]; }
    }
  }

  /** The match is exactly that: the text can be cut so that each piece is what its character stands for. */
  lemma {:induction false} GlobIffStandsFor(s: string, pattern: string)
    ensures Glob(s, pattern) <==> StandsFor(pattern, s)
    decreases |pattern|, |s|
  {
    if pattern == [] {
      assert s == [] ==> Aligned(s, pattern, []);
    } else if pattern[0] == '*' {
      GlobToPieces(s, pattern);
      forall pieces | Aligned(s, pattern, pieces) ensures Glob(s, pattern) {
        AlignedRest(s, pattern, pieces);
        var rest, n := Glued(pieces[1..]), |pieces[0]|;
        GlobIffStandsFor(rest, pattern[1..]);
        assert s[n..] == rest && pattern == ['*'] + pattern[1..];
        StarMatchesAnyStretch(s, pattern[1..]);
      }
    } else {
      GlobToPieces(s, pattern);
      forall pieces | Aligned(s, pattern, pieces) ensures Glob(s, pattern) {
        AlignedRest(s, pattern, pieces);
        assert s[0] == pieces[0][0] && s[1..] == Glued(pieces[1..]);
        GlobIffStandsFor(s[1..], pattern[1..]);
      }
    }
  }

  lemma {:induction false} GlobToPieces(s: string, pattern: string)
    ensures Glob(s, pattern) ==> StandsFor(pattern, s)
    decreases |pattern|, |s|
  {
    if Glob(s, pattern) {
      if pattern == [] {
        assert Aligned(s, pattern, []);
      } else if pattern[0] == '*' {
        assert pattern == ['*'] + pattern[1..];
        StarMatchesAnyStretch(s, pattern[1..]);
        var k :| 0 <= k <= |s| && Glob(s[k..], pattern[1..]);
        GlobToPieces(s[k..], pattern[1..]);
        var pieces :| Aligned(s[k..], pattern[1..], pieces);
        AlignedMore(s[k..], pattern, s[..k], pieces);
        assert s == s[..k] + s[k..];
      } else {
        GlobToPieces(s[1..], pattern[1..]);
        var pieces :| Aligned(s[1..], pattern[1..], pieces);
        AlignedMore(s[1..], pattern, s[..1], pieces);
        assert s == s[..1] + s[1..];
      }
    }
  }

  predicate MatchesAny(key: string, patterns: set<string>)
  {
    exists p :: p in patterns && Glob(key, p)
  }

  /** _scope_pattern_within */
  predicate ScopeWithin(pattern: string, parents: set<string>)
  {
    if HasWildcard(pattern) then pattern in parents
    else MatchesAny(pattern, parents)
  }

  /** A scope within others reaches no key they do not reach. */
  lemma ScopeContained(pattern: string, parents: set<string>)
    requires ScopeWithin(pattern, parents)
    ensures forall key :: Glob(key, pattern) ==> MatchesAny(key, parents)
  {
    if !HasWildcard(pattern) {
      forall key | Glob(key, pattern) ensures MatchesAny(key, parents) {
        LiteralMatchesItself(key, pattern);
      }
    }
  }

  /** For a scope without wildcards the test is exact. */
  lemma LiteralScopeExact(pattern: string, parents: set<string>)
    requires !HasWildcard(pattern)
    ensures ScopeWithin(pattern, parents) <==> forall key :: Glob(key, pattern) ==> MatchesAny(key, parents)
  {
    forall key ensures Glob(key, pattern) <==> key == pattern {
      LiteralMatchesItself(key, pattern);
    }
  }

  /** For one with wildcards a match as text would not do: "?" matches the text "*", not all it stands for. */
  lemma WildcardsMustBeInherited()
    ensures MatchesAny("*", {"?"}) && !ScopeWithin("*", {"?"})
    ensures Glob("ab", "*") && !MatchesAny("ab", {"?"})
  {
  }

  // ---------------------------------------------------------------- roles and accesses

  /** The governed fields of a role; stored as JSON lists, compared as sets. */
  datatype Governed = Governed(
    rank: int, permissions: set<string>, documentAllow: set<string>, documentDeny: set<string>, databaseAllow: set<string>)

  datatype Person = Person(user: string, founder: bool, legacy: bool)

  datatype Access = Access(
    person: Person, permissions: set<string>, rank: int,
    documentAllow: set<string>, documentDeny: set<string>, databaseAllow: set<string>)

  function FounderAccess(person: Person): Access
  {
    Access(person, {"*"}, 1000, {"*"}, {}, {"*"})
  }

  predicate Permits(a: Access, permission: string)
  {
    a.person.founder || exists g :: g in a.permissions && Matches(g, permission)
  }

  predicate PermitsDocument(a: Access, path: string)
  {
    a.person.founder || (!MatchesAny(path, a.documentDeny) && MatchesAny(path, a.documentAllow))
  }

  predicate PermitsDatabase(a: Access, alias: string, table: string)
  {
    a.person.founder || MatchesAny(alias + [':'] + table, a.databaseAllow)
  }

  /** _role_within_authority */
  predicate RoleWithin(role: Governed, caller: Access)
  {
    || caller.person.founder
    || (&& role.rank < caller.rank
        && (forall p :: p in role.permissions ==> Permits(caller, p))
        && (forall p :: p in role.documentAllow ==> ScopeWithin(p, caller.documentAllow))
        && caller.documentDeny <= role.documentDeny
        && (forall p :: p in role.databaseAllow ==> ScopeWithin(p, caller.databaseAllow)))
  }

  /** What _access_with_connection accumulates over the roles a member holds. */
  ghost predicate Merges(a: Access, held: set<Governed>)
  {
    && a.permissions == (set r, p | r in held && p in r.permissions :: p)
    && a.documentAllow == (set r, p | r in held && p in r.documentAllow :: p)
    && a.documentDeny == (set r, p | r in held && p in r.documentDeny :: p)
    && a.databaseAllow == (set r, p | r in held && p in r.databaseAllow :: p)
    && a.rank >= 0 && (forall r :: r in held ==> r.rank <= a.rank)
    && (a.rank == 0 || exists r :: r in held && r.rank == a.rank)
  }

  function Ranked(rank: int, best: int): int { if rank > best then rank else best }

  /** One more turn of the loop over the rows. */
  function Joined(a: Access, row: Governed): Access
  {
    Access(a.person, a.permissions + row.permissions, Ranked(row.rank, a.rank),
           a.documentAllow + row.documentAllow, a.documentDeny + row.documentDeny, a.databaseAllow + row.databaseAllow)
  }

  /** The accumulated access is determined by the roles held. */
  lemma MergesUnique(a: Access, b: Access, held: set<Governed>)
    requires a.person == b.person && Merges(a, held) && Merges(b, held)
    ensures a == b
  {
  }

  lemma MergesNothing(person: Person)
    ensures Merges(Access(person, {}, 0, {}, {}, {}), {})
  {
  }

  lemma MergesOneMore(a: Access, held: set<Governed>, row: Governed)
    requires Merges(a, held)
    ensures Merges(Joined(a, row), held + {row})
  {
  }

  // ---------------------------------------------------------------- what an access permits

  ghost predicate InScope(held: set<Governed>, scope: Governed -> set<string>, key: string)
  {
    exists r, p :: r in held && p in scope(r) && StandsFor(p, key)
  }

  lemma MatchesIffInScope(patterns: set<string>, held: set<Governed>, scope: Governed -> set<string>, key: string)
    requires forall p :: p in patterns <==> exists r :: r in held && p in scope(r)
    ensures MatchesAny(key, patterns) <==> InScope(held, scope, key)
  {
    forall p ensures Glob(key, p) <==> StandsFor(p, key) {
      GlobIffStandsFor(key, p);
    }
    hide Glob;
    hide StandsFor;
  }

  /**
   * What a member may do is told by the roles held: a permission if some role grants it; a document
   * if some role allows its path and no role denies it; a table if some role allows it. The founder
   * may do everything.
   */
  lemma WhatAMemberMay(a: Access, held: set<Governed>, permission: string, path: string, alias: string, table: string)
    requires Merges(a, held)
    ensures Permits(a, permission) <==>
            a.person.founder || exists r, g :: r in held && g in r.permissions && Grants(g, permission)
    ensures PermitsDocument(a, path) <==>
            a.person.founder
            || (InScope(held, (r: Governed) => r.documentAllow, path) && !InScope(held, (r: Governed) => r.documentDeny, path))
    ensures PermitsDatabase(a, alias, table) <==>
            a.person.founder || InScope(held, (r: Governed) => r.databaseAllow, alias + ":" + table)
  {
    forall g ensures Matches(g, permission) <==> Grants(g, permission) {
      MatchesIffGrants(g, permission);
    }
    MatchesIffInScope(a.documentAllow, held, (r: Governed) => r.documentAllow, path);
    MatchesIffInScope(a.documentDeny, held, (r: Governed) => r.documentDeny, path);
    MatchesIffInScope(a.databaseAllow, held, (r: Governed) => r.databaseAllow, alias + ":" + table);
    hide Matches;
    hide Grants;
    hide MatchesAny;
    hide InScope;
  }

  lemma {:induction false} StarMatchesAll(s: string)
    ensures Glob(s, "*")
  {
    if s == [] {
      assert Glob("", "");
    } else {
      StarMatchesAll(s[1..]);
    }
  }

  ghost predicate PermitsEverything(a: Access)
  {
    && (forall permission :: Permits(a, permission))
    && (forall path :: PermitsDocument(a, path))
    && (forall alias, table :: PermitsDatabase(a, alias, table))
  }

  /** The access that founders and legacy members read. */
  lemma FounderAccessIsTotal(person: Person)
    ensures PermitsEverything(FounderAccess(person))
  {
    var a := FounderAccess(person);
    assert "*" in a.permissions && "*" in a.documentAllow && "*" in a.databaseAllow;
    forall permission ensures Permits(a, permission) {
      assert Matches("*", permission);
    }
    forall path ensures PermitsDocument(a, path) { StarMatchesAll(path); }
    forall alias, table ensures PermitsDatabase(a, alias, table) { StarMatchesAll(alias + [':'] + table); }
  }

  /** A caller may hand on, at a lower rank, any of its own rights with all of its denials. */
  lemma OwnRightsMayBeHandedOn(role: Governed, caller: Access)
    requires role.rank < caller.rank && role.permissions <= caller.permissions
    requires role.documentAllow <= caller.documentAllow && caller.documentDeny <= role.documentDeny
    requires role.databaseAllow <= caller.databaseAllow
    ensures RoleWithin(role, caller)
  {
    forall p | p in role.permissions ensures Permits(caller, p) {
      assert Matches(p, p);
    }
    forall p ensures !HasWildcard(p) ==> Glob(p, p) {
      if !HasWildcard(p) { LiteralMatchesItself(p, p); }
    }
    assert forall p :: p in role.documentAllow ==> ScopeWithin(p, caller.documentAllow);
    assert forall p :: p in role.databaseAllow ==> ScopeWithin(p, caller.databaseAllow);
  }

  // ---------------------------------------------------------------- containment

  /** Whatever a permits, b permits. */
  ghost predicate Contained(a: Access, b: Access)
  {
    && (forall p :: Permits(a, p) ==> Permits(b, p))
    && (forall path :: PermitsDocument(a, path) ==> PermitsDocument(b, path))
    && (forall alias, table :: PermitsDatabase(a, alias, table) ==> PermitsDatabase(b, alias, table))
  }

  ghost predicate AllWithin(held: set<Governed>, caller: Access)
  {
    forall r :: r in held ==> RoleWithin(r, caller)
  }

  /** A member all of whose roles are within a caller's authority is contained in the caller. */
  lemma MergedContained(a: Access, held: set<Governed>, caller: Access)
    requires !a.person.founder && Merges(a, held) && AllWithin(held, caller)
    ensures Contained(a, caller)
    ensures !caller.person.founder && caller.rank > 0 ==> a.rank < caller.rank
  {
    if !caller.person.founder {
      forall p | Permits(a, p) ensures Permits(caller, p) {
        var g :| g in a.permissions && Matches(g, p);
        var r :| r in held && g in r.permissions;
        assert RoleWithin(r, caller) && Permits(caller, g);
        var h :| h in caller.permissions && Matches(h, g);
        MatchesTransitive(h, g, p);
      }
      forall path | PermitsDocument(a, path) ensures PermitsDocument(caller, path) {
        MergedDocument(a, held, caller, path);
      }
      forall alias, table | PermitsDatabase(a, alias, table) ensures PermitsDatabase(caller, alias, table) {
        var key := alias + [':'] + table;
        var p :| p in a.databaseAllow && Glob(key, p);
        var r :| r in held && p in r.databaseAllow;
        assert RoleWithin(r, caller);
        ScopeContained(p, caller.databaseAllow);
      }
    }
  }

  lemma MergedDocument(a: Access, held: set<Governed>, caller: Access, path: string)
    requires !a.person.founder && Merges(a, held) && AllWithin(held, caller) && !caller.person.founder
    requires PermitsDocument(a, path)
    ensures PermitsDocument(caller, path)
  {
    var p :| p in a.documentAllow && Glob(path, p);
    var r :| r in held && p in r.documentAllow;
    assert RoleWithin(r, caller);
    ScopeContained(p, caller.documentAllow);
    assert caller.documentDeny <= a.documentDeny;
  }

  /** Authority handed on and on: each access is built from roles within the one before. */
  ghost predicate Handed(a: Access, held: set<Governed>, from: Access)
  {
    !a.person.founder && Merges(a, held) && AllWithin(held, from)
  }

  /** At any distance down the line nothing is permitted that the first does not permit. */
  lemma {:induction false} HandedOnStaysContained(accesses: seq<Access>, helds: seq<set<Governed>>)
    requires |accesses| == |helds| + 1
    requires forall i :: 0 <= i < |helds| ==> Handed(accesses[i + 1], helds[i], accesses[i])
    ensures Contained(accesses[|helds|], accesses[0])
    decreases |helds|
  {
    if helds != [] {
      var n := |helds| - 1;
      assert forall i :: 0 <= i < n ==> helds[..n][i] == helds[i] && accesses[..n + 1][i + 1] == accesses[i + 1];
      HandedOnStaysContained(accesses[..n + 1], helds[..n]);
      assert Handed(accesses[n + 1], helds[n], accesses[n]);
      MergedContained(accesses[n + 1], helds[n], accesses[n]);
    }
  }

  /** And by a caller who is not the founder, ranks only go down. */
  lemma {:induction false} HandedOnRanksFall(accesses: seq<Access>, helds: seq<set<Governed>>)
    requires |accesses| == |helds| + 1 && !accesses[0].person.founder
    requires forall i :: 0 <= i < |helds| ==> helds[i] != {} && Handed(accesses[i + 1], helds[i], accesses[i])
    requires forall i, r :: 0 <= i < |helds| && r in helds[i] ==> r.rank >= 1
    ensures accesses[0].rank >= accesses[|helds|].rank + |helds|
    decreases |helds|
  {
    if helds != [] {
      var n := |helds| - 1;
      assert forall i :: 0 <= i < n ==> helds[..n][i] == helds[i] && accesses[..n + 1][i + 1] == accesses[i + 1];
      HandedOnRanksFall(accesses[..n + 1], helds[..n]);
      assert Handed(accesses[n + 1], helds[n], accesses[n]) && helds[n] != {};
      assert !accesses[n].person.founder by {
        if n > 0 { assert Handed(accesses[n], helds[n - 1], accesses[n - 1]); }
      }
      var r :| r in helds[n] && r.rank == accesses[n + 1].rank;
      assert RoleWithin(r, accesses[n]);
    }
  }
}
