/**
 * Who owns a URL path: the conflict rule of framework/config.py and framework/reload.py,
 * the quarantine of load_config_resilient, the strict check of load_config, and the
 * prefix lookup of RuntimeManager.for_path.
 */
module Ownership {
  import opened Projects

  datatype Option<+T> = None | Some(value: T)

  predicate StartsWith(s: string, p: string)
  {
    |p| <= |s| && s[..|p|] == p
  }

  /** str.rstrip("/") */
  function RStrip(s: string): (r: string)
    ensures |r| > 0 ==> r[|r| - 1] != '/'
    ensures |r| <= |s| && s[..|r|] == r && forall i :: |r| <= i < |s| ==> s[i] == '/'
  {
    if |s| > 0 && s[|s| - 1] == '/' then RStrip(s[..|s| - 1]) else s
  }

  /** config.py:837, reload.py:204. */
  predicate Conflict(p: Project, q: Project)
  {
    var prefix, target := RStrip(p.prefix), RStrip(q.prefix);
    p.slug == q.slug || prefix == target || StartsWith(prefix, target + "/") || StartsWith(target, prefix + "/")
  }

  ghost predicate NoConflicts(ps: seq<Project>)
  {
    forall i, j :: 0 <= i < j < |ps| ==> !Conflict(ps[i], ps[j])
  }

  ghost predicate DistinctDirs(ps: seq<Project>)
  {
    forall i, j :: 0 <= i < j < |ps| ==> ps[i].dir != ps[j].dir
  }

  /** Some other directory claims an overlapping identity. */
  ghost predicate HasRival(p: Project, ps: seq<Project>)
  {
    exists q :: q in ps && q.dir != p.dir && Conflict(p, q)
  }

  lemma ConflictSymmetric(p: Project, q: Project)
    ensures Conflict(p, q) == Conflict(q, p)
  {
  }

  // ---------------------------------------------------------------- the checks

  /** ReloadingForge._check_ownership; ok is false where the source raises ValueError. */
  method CheckOwnership(projects: seq<Project>) returns (ok: bool)
    ensures ok <==> NoConflicts(projects)
  {
    for index := 0 to |projects|
      invariant forall i, j :: 0 <= i < index && i < j < |projects| ==> !Conflict(projects[i], projects[j])
    {
      for k := index + 1 to |projects|
        invariant forall j :: index < j < k ==> !Conflict(projects[index], projects[j])
      {
        if Conflict(projects[index], projects[k]) {
          return false;
        }
      }
    }
    ok := true;
  }

  datatype StrictError = NoProjects | DuplicateSlug | DuplicatePrefix | OverlappingPrefix

  /** What finalize_prefix (config.py:727-733) leaves: non-empty, no trailing slash. */
  predicate NormalPrefix(p: Project)
  {
    p.prefix != "" && p.prefix[|p.prefix| - 1] != '/'
  }

  ghost predicate SlugsDiffer(ps: seq<Project>)
  {
    ps != [] ==> forall i, j :: 0 <= i < j < |ps| ==> ps[i].slug != ps[j].slug
  }

  ghost predicate PrefixesDiffer(ps: seq<Project>)
  {
    ps != [] ==> forall i, j :: 0 <= i < j < |ps| ==> ps[i].prefix != ps[j].prefix
  }

  /** The final checks of load_config (config.py:862-874), on the enabled projects. */
  method LoadConfig(projects: seq<Project>) returns (error: Option<StrictError>)
    requires forall i :: 0 <= i < |projects| ==> NormalPrefix(projects[i])
    ensures error.None? <==> projects != [] && NoConflicts(projects)
    ensures error == Some(NoProjects) <==> projects == []
    ensures error == Some(DuplicateSlug) <==> !SlugsDiffer(projects)
    ensures error == Some(DuplicatePrefix) <==> SlugsDiffer(projects) && !PrefixesDiffer(projects)
  {
    if projects == [] { return Some(NoProjects); }
    for i := 0 to |projects|
      invariant forall a, b :: 0 <= a < i && a < b < |projects| ==> projects[a].slug != projects[b].slug
    {
      for j := i + 1 to |projects|
        invariant forall b :: i < b < j ==> projects[i].slug != projects[b].slug
      {
        if projects[i].slug == projects[j].slug {
          assert Conflict(projects[i], projects[j]);
          return Some(DuplicateSlug);
        }
      }
    }
    for i := 0 to |projects|
      invariant forall a, b :: 0 <= a < i && a < b < |projects| ==> projects[a].prefix != projects[b].prefix
    {
      for j := i + 1 to |projects|
        invariant forall b :: i < b < j ==> projects[i].prefix != projects[b].prefix
      {
        if projects[i].prefix == projects[j].prefix {
          assert Conflict(projects[i], projects[j]);
          return Some(DuplicatePrefix);
        }
      }
    }
    for i := 0 to |projects|
      invariant forall a, b :: 0 <= a < i && a < b < |projects| ==> !Conflict(projects[a], projects[b])
    {
      for j := i + 1 to |projects|
        invariant forall b :: i < b < j ==> !Conflict(projects[i], projects[b])
      {
        var prefix, other := RStrip(projects[i].prefix), RStrip(projects[j].prefix);
        NormalIsStripped(projects[i]);
        NormalIsStripped(projects[j]);
        if StartsWith(other, prefix + "/") || StartsWith(prefix, other + "/") {
          assert Conflict(projects[i], projects[j]);
          return Some(OverlappingPrefix);
        }
      }
    }
    error := None;
  }

  lemma NormalIsStripped(p: Project)
    requires NormalPrefix(p)
    ensures RStrip(p.prefix) == p.prefix
  {
  }

  // ---------------------------------------------------------------- quarantine

  /** One directory of the apps root as load_config_resilient meets it. */
  datatype Entry = Loaded(project: Project) | Disabled(dir: string) | Broken(dir: string)

  function EntryDir(e: Entry): string
  {
    match e
    case Loaded(p) => p.dir
    case Disabled(d) => d
    case Broken(d) => d
  }

  function LoadedOf(entries: seq<Entry>): (ps: seq<Project>)
    ensures forall p :: p in ps <==> Loaded(p) in entries
  {
    if entries == [] then []
    else (if entries[0].Loaded? then [entries[0].project] else []) + LoadedOf(entries[1..])
  }

  ghost function Unrivalled(ps: seq<Project>, among: seq<Project>): (kept: seq<Project>)
  {
    if ps == [] then []
    else (if HasRival(ps[0], among) then [] else [ps[0]]) + Unrivalled(ps[1..], among)
  }

  lemma {:induction false} UnrivalledStep(ps: seq<Project>, among: seq<Project>, n: nat)
    requires n < |ps|
    ensures Unrivalled(ps[..n + 1], among)
         == Unrivalled(ps[..n], among) + (if HasRival(ps[n], among) then [] else [ps[n]])
  {
    if n == 0 {
      assert ps[..1] == [ps[0]];
    } else {
      assert ps[..n + 1][1..] == ps[1..][..n] && ps[..n][1..] == ps[1..][..n - 1];
      UnrivalledStep(ps[1..], among, n - 1);
    }
  }

  lemma {:induction false} LoadedStep(entries: seq<Entry>, n: nat)
    requires n < |entries|
    ensures LoadedOf(entries[..n + 1])
         == LoadedOf(entries[..n]) + (if entries[n].Loaded? then [entries[n].project] else [])
  {
    if n == 0 {
      assert entries[..1] == [entries[0]];
    } else {
      assert entries[..n + 1][1..] == entries[1..][..n] && entries[..n][1..] == entries[1..][..n - 1];
      LoadedStep(entries[1..], n - 1);
    }
  }

  /** The directories that the pair loop marks. */
  ghost predicate Marked(d: string, ps: seq<Project>, i: nat, j: nat)
  {
    exists a, b :: 0 <= a < b < |ps| && (a < i || (a == i && b < j)) && Conflict(ps[a], ps[b])
                   && (d == ps[a].dir || d == ps[b].dir)
  }

  /** config.py:832-838 */
  method FindConflicts(projects: seq<Project>) returns (conflicts: set<string>)
    ensures forall d :: d in conflicts <==> Marked(d, projects, |projects|, 0)
  {
    conflicts := {};
    for index := 0 to |projects|
      invariant forall d :: d in conflicts <==> Marked(d, projects, index, 0)
    {
      for k := index + 1 to |projects|
        invariant forall d :: d in conflicts <==> Marked(d, projects, index, k)
      {
        ghost var before := conflicts;
        if Conflict(projects[index], projects[k]) {
          conflicts := conflicts + {projects[index].dir, projects[k].dir};
        }
        forall d ensures d in conflicts <==> Marked(d, projects, index, k + 1) {
          MarkedStep(d, projects, index, k);
        }
      }
      forall d ensures Marked(d, projects, index, |projects|) <==> Marked(d, projects, index + 1, 0) { }
    }
  }

  lemma MarkedStep(d: string, ps: seq<Project>, i: nat, k: nat)
    requires i < k < |ps|
    ensures Marked(d, ps, i, k + 1) <==>
            Marked(d, ps, i, k) || (Conflict(ps[i], ps[k]) && (d == ps[i].dir || d == ps[k].dir))
  {
  }

  lemma MarkedIsRival(p: Project, ps: seq<Project>)
    requires DistinctDirs(ps) && p in ps
    ensures Marked(p.dir, ps, |ps|, 0) <==> HasRival(p, ps)
  {
  }

  datatype Issue = LoadFailure | RouteOwnershipConflict

  /** The directory scan of load_config_resilient (config.py:818-829). */
  method ScanEntries(entries: seq<Entry>) returns (loaded: seq<Project>, broken: set<string>)
    ensures loaded == LoadedOf(entries)
    ensures forall d :: d in broken <==> Broken(d) in entries
  {
    loaded, broken := [], {};
    for i := 0 to |entries|
      invariant loaded == LoadedOf(entries[..i])
      invariant forall d :: d in broken <==> Broken(d) in entries[..i]
    {
      LoadedStep(entries, i);
      assert entries[..i + 1] == entries[..i] + [entries[i]];
      match entries[i]
      case Loaded(p) => loaded := loaded + [p];
      case Disabled(_) =>
      case Broken(d) => broken := broken + {d};
    }
    assert entries[..|entries|] == entries;
  }

  /** The quarantine of load_config_resilient (config.py:832-841). */
  method Quarantine(loaded: seq<Project>) returns (projects: seq<Project>, conflicts: set<string>)
    requires DistinctDirs(loaded)
    ensures projects == Unrivalled(loaded, loaded)
    ensures forall d :: d in conflicts <==> exists p :: p in loaded && p.dir == d && HasRival(p, loaded)
  {
    conflicts := FindConflicts(loaded);
    forall p | p in loaded ensures p.dir in conflicts <==> HasRival(p, loaded) { MarkedIsRival(p, loaded); }
    forall d | d in conflicts ensures exists p :: p in loaded && p.dir == d && HasRival(p, loaded) {
      var a, b :| 0 <= a < b < |loaded| && Conflict(loaded[a], loaded[b]) && (d == loaded[a].dir || d == loaded[b].dir);
      assert loaded[a] in loaded && loaded[b] in loaded;
    }
    projects := [];
    for i := 0 to |loaded|
      invariant projects == Unrivalled(loaded[..i], loaded)
    {
      UnrivalledStep(loaded, loaded, i);
      assert loaded[i] in loaded;
      if loaded[i].dir !in conflicts {
        projects := projects + [loaded[i]];
      }
    }
    assert loaded[..|loaded|] == loaded;
  }

  ghost predicate DistinctEntries(entries: seq<Entry>)
  {
    forall i, j :: 0 <= i < j < |entries| ==> EntryDir(entries[i]) != EntryDir(entries[j])
  }

  /**
   * load_config_resilient: every broken directory becomes an issue, and of the rest exactly
   * those that conflict with another directory are quarantined.
   */
  method LoadConfigResilient(entries: seq<Entry>) returns (projects: seq<Project>, issues: map<string, Issue>)
    requires DistinctEntries(entries)
    ensures projects == Unrivalled(LoadedOf(entries), LoadedOf(entries))
    ensures NoConflicts(projects) && DistinctDirs(projects)
    ensures forall d :: d in issues && issues[d] == LoadFailure <==> Broken(d) in entries
    ensures forall d :: d in issues && issues[d] == RouteOwnershipConflict <==>
              exists p :: p in LoadedOf(entries) && p.dir == d && HasRival(p, LoadedOf(entries))
    ensures forall p :: p in projects ==> p.dir !in issues
  {
    var loaded, broken := ScanEntries(entries);
    LoadedDirs(entries);
    LoadedApart(entries, loaded);
    var conflicts: set<string>;
    projects, conflicts := Quarantine(loaded);
    UnrivalledMembers(loaded, loaded);
    UnrivalledApart(loaded, loaded);
    hide LoadedOf;
    hide Unrivalled;
    hide HasRival;
    hide NoConflicts;
    hide DistinctDirs;
    hide DistinctEntries;
    forall d | d in conflicts ensures d !in broken && forall p :: p in projects ==> p.dir != d {
      var q :| q in loaded && q.dir == d && HasRival(q, loaded);
      assert forall p :: p in projects && p.dir == d ==> p == q;
    }
    issues := IssueMap(broken, conflicts);
  }

  function IssueMap(broken: set<string>, conflicts: set<string>): (issues: map<string, Issue>)
    requires broken !! conflicts
    ensures forall d :: d in issues && issues[d] == LoadFailure <==> d in broken
    ensures forall d :: d in issues && issues[d] == RouteOwnershipConflict <==> d in conflicts
    ensures issues.Keys == broken + conflicts
  {
    (map d | d in broken :: LoadFailure) + (map d | d in conflicts :: RouteOwnershipConflict)
  }

  /** What one directory holds is loaded or broken, once. */
  lemma LoadedApart(entries: seq<Entry>, loaded: seq<Project>)
    requires DistinctEntries(entries) && loaded == LoadedOf(entries)
    ensures forall p :: p in loaded ==> Broken(p.dir) !in entries
    ensures forall p, q :: p in loaded && q in loaded && p.dir == q.dir ==> p == q
  {
  }

  lemma {:induction false} LoadedDirs(entries: seq<Entry>)
    requires DistinctEntries(entries)
    ensures DistinctDirs(LoadedOf(entries))
  {
    if entries != [] {
      LoadedDirs(entries[1..]);
      var rest := LoadedOf(entries[1..]);
      forall k | 0 <= k < |rest| ensures rest[k].dir != EntryDir(entries[0]) {
        assert rest[k] in rest;
        var i :| 0 <= i < |entries[1..]| && entries[1..][i] == Loaded(rest[k]);
        assert entries[i + 1] == Loaded(rest[k]);
      }
    }
  }

  lemma {:induction false} UnrivalledMembers(ps: seq<Project>, among: seq<Project>)
    ensures forall p :: p in Unrivalled(ps, among) <==> p in ps && !HasRival(p, among)
  {
    if ps != [] { UnrivalledMembers(ps[1..], among); }
  }

  lemma {:induction false} UnrivalledApart(ps: seq<Project>, among: seq<Project>)
    requires DistinctDirs(ps) && forall p :: p in ps ==> p in among
    ensures NoConflicts(Unrivalled(ps, among)) && DistinctDirs(Unrivalled(ps, among))
  {
    if ps != [] {
      UnrivalledApart(ps[1..], among);
      var rest := Unrivalled(ps[1..], among);
      UnrivalledMembers(ps[1..], among);
      if !HasRival(ps[0], among) {
        forall k | 0 <= k < |rest| ensures ps[0].dir != rest[k].dir && !Conflict(ps[0], rest[k]) {
          assert rest[k] in rest;
          var i :| 0 <= i < |ps[1..]| && ps[1..][i] == rest[k];
          assert ps[i + 1] == rest[k];
        }
      }
    }
  }

  /** The strict loader accepts exactly the sets of apps of which the resilient one quarantines none. */
  lemma StrictIffNothingQuarantined(ps: seq<Project>)
    requires DistinctDirs(ps)
    ensures NoConflicts(ps) <==> Unrivalled(ps, ps) == ps
  {
    UnrivalledMembers(ps, ps);
    UnrivalledApart(ps, ps);
    if NoConflicts(ps) {
      forall p, q | p in ps && q in ps && p.dir != q.dir ensures !Conflict(p, q) {
        var i :| 0 <= i < |ps| && ps[i] == p;
        var j :| 0 <= j < |ps| && ps[j] == q;
        ConflictSymmetric(p, q);
      }
      AllKept(ps, ps);
    }
  }

  lemma {:induction false} AllKept(ps: seq<Project>, among: seq<Project>)
    requires forall p :: p in ps ==> !HasRival(p, among)
    ensures Unrivalled(ps, among) == ps
  {
    if ps != [] { AllKept(ps[1..], among); }
  }

  /** Directory order decides nothing: the same directories in another order keep the same apps. */
  lemma {:induction false} QuarantineOrderFree(ps: seq<Project>, qs: seq<Project>, among: seq<Project>, x: Project)
    requires forall p :: p in among <==> p in qs
    ensures multiset(Unrivalled(ps, among))[x] == if HasRival(x, qs) then 0 else multiset(ps)[x]
  {
    if ps != [] {
      QuarantineOrderFree(ps[1..], qs, among, x);
      assert ps == [ps[0]] + ps[1..];
      assert HasRival(ps[0], among) == HasRival(ps[0], qs);
    }
  }

  lemma QuarantineOrder(ps: seq<Project>, qs: seq<Project>)
    requires multiset(ps) == multiset(qs)
    ensures multiset(Unrivalled(ps, ps)) == multiset(Unrivalled(qs, qs))
  {
    SameMembers(ps, qs);
    forall x ensures multiset(Unrivalled(ps, ps))[x] == multiset(Unrivalled(qs, qs))[x] {
      QuarantineOrderFree(ps, qs, ps, x);
      QuarantineOrderFree(qs, qs, qs, x);
    }
  }

  lemma SameMembers<T>(ps: seq<T>, qs: seq<T>)
    requires multiset(ps) == multiset(qs)
    ensures forall p :: p in ps <==> p in qs
  {
    forall p ensures p in ps <==> p in qs {
      assert p in ps <==> p in multiset(ps);
      assert p in qs <==> p in multiset(qs);
    }
  }

  // ---------------------------------------------------------------- routing

  /** runtime.py:60: does a project's prefix cover a path? */
  predicate Covers(p: Project, path: string)
  {
    var prefix := RStrip(p.prefix);
    path == prefix || StartsWith(path, prefix + "/")
  }

  /** RuntimeManager.for_path: the first project, in the order given, that covers the path. */
  function ForPath(ps: seq<Project>, path: string): (r: Option<Project>)
    ensures r.None? <==> forall p :: p in ps ==> !Covers(p, path)
    ensures r.Some? ==> r.value in ps && Covers(r.value, path)
  {
    if ps == [] then None
    else if Covers(ps[0], path) then Some(ps[0])
    else ForPath(ps[1..], path)
  }

  /** Two projects share a path exactly if one normalized prefix extends the other at a slash. */
  lemma SharedPathIffComparable(p: Project, q: Project)
    ensures (exists path :: Covers(p, path) && Covers(q, path)) <==>
            (var a, b := RStrip(p.prefix), RStrip(q.prefix);
             a == b || StartsWith(a, b + "/") || StartsWith(b, a + "/"))
  {
    var a, b := RStrip(p.prefix), RStrip(q.prefix);
    if a == b || StartsWith(a, b + "/") {
      assert Covers(p, a) && Covers(q, a);
    } else if StartsWith(b, a + "/") {
      assert Covers(p, b) && Covers(q, b);
    }
    forall path | Covers(p, path) && Covers(q, path)
      ensures a == b || StartsWith(a, b + "/") || StartsWith(b, a + "/")
    {
      if |a| < |b| {
        assert b == path[..|b|] && path[|a|] == '/';
        assert b[..|a| + 1] == path[..|a| + 1] == a + "/";
      } else if |b| < |a| {
        assert a == path[..|a|] && path[|b|] == '/';
        assert a[..|b| + 1] == path[..|b| + 1] == b + "/";
      } else {
        assert a == path[..|a|] == b;
      }
    }
  }

  lemma {:induction false} StripsTo(base: string, slashes: string)
    requires (base != "" ==> base[|base| - 1] != '/') && forall c :: c in slashes ==> c == '/'
    ensures RStrip(base + slashes) == base
    decreases |slashes|
  {
    if slashes == [] {
      assert base + slashes == base;
    } else {
      var n := |slashes| - 1;
      assert slashes[n] in slashes && (base + slashes)[..|base| + n] == base + slashes[..n];
      assert forall c :: c in slashes[..n] ==> c in slashes;
      StripsTo(base, slashes[..n]);
    }
  }

  /**
   * An app whose api_prefix is base, with or without slashes at its end, serves the path base itself
   * and the paths below it, and no others.
   */
  lemma ServesItsPrefixAndBelow(p: Project, base: string, slashes: string, path: string)
    requires p.prefix == base + slashes && (base != "" ==> base[|base| - 1] != '/') && forall c :: c in slashes ==> c == '/'
    ensures Covers(p, path) <==> path == base || exists rest :: path == base + "/" + rest
  {
    StripsTo(base, slashes);
    if StartsWith(path, base + "/") {
      assert path == base + "/" + path[|base| + 1..];
    }
    forall rest | path == base + "/" + rest ensures StartsWith(path, base + "/") {
      assert path[..|base| + 1] == base + "/";
    }
  }

  /** The rule of ownership, told by what it is for: slugs differ, and no path is served by two apps. */
  lemma OwnershipIsApartness(ps: seq<Project>)
    ensures NoConflicts(ps) <==>
            forall i, j :: 0 <= i < j < |ps| ==>
              ps[i].slug != ps[j].slug && forall path :: !(Covers(ps[i], path) && Covers(ps[j], path))
  {
    forall i, j | 0 <= i < j < |ps|
      ensures Conflict(ps[i], ps[j]) <==> ps[i].slug == ps[j].slug || exists path :: Covers(ps[i], path) && Covers(ps[j], path)
    {
      SharedPathIffComparable(ps[i], ps[j]);
      hide Covers;
    }
    hide Covers;
    hide Conflict;
  }

  /** In a published configuration no path belongs to two projects. */
  lemma RoutingUnambiguous(ps: seq<Project>, path: string, i: nat, j: nat)
    requires NoConflicts(ps) && i < |ps| && j < |ps| && Covers(ps[i], path) && Covers(ps[j], path)
    ensures i == j
  {
    SharedPathIffComparable(ps[i], ps[j]);
    ConflictSymmetric(ps[i], ps[j]);
  }

  /** So the order in which for_path tries the prefixes does not matter. */
  lemma ForPathOrderFree(ps: seq<Project>, qs: seq<Project>, path: string)
    requires NoConflicts(ps) && multiset(ps) == multiset(qs)
    ensures ForPath(ps, path) == ForPath(qs, path)
  {
    SameMembers(ps, qs);
    if ForPath(ps, path).Some? {
      var p, q := ForPath(ps, path).value, ForPath(qs, path).value;
      var i :| 0 <= i < |ps| && ps[i] == p;
      var j :| 0 <= j < |ps| && ps[j] == q;
      RoutingUnambiguous(ps, path, i, j);
    }
  }
}
