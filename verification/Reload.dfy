/**
 * ReloadingForge.reload_now (framework/reload.py:117-205): which configuration a reload
 * publishes, and that a rejected reload publishes nothing.
 */
module Reload {
  import opened Projects
  import opened Ownership

  /** How a candidate's start went: an exception, or the slugs whose runtimes are available. */
  datatype Boot = Crash | Up(slugs: set<string>)

  datatype Error = ValueError | RuntimeReloadError | StartupError

  /** What load_config_resilient found on disk, or that it raised. */
  datatype Disk = Unreadable | Read(projects: seq<Project>, issues: set<string>)

  ghost predicate HasDir(ps: seq<Project>, d: string)
  {
    exists p :: p in ps && p.dir == d
  }

  /** The previous configurations whose directories have issues now (reload.py:142). */
  function Retained(previous: seq<Project>, issues: set<string>): (ps: seq<Project>)
    ensures forall p :: p in ps <==> p in previous && p.dir in issues
  {
    if previous == [] then []
    else (if previous[0].dir in issues then [previous[0]] else []) + Retained(previous[1..], issues)
  }

  lemma {:induction false} RetainedDirs(previous: seq<Project>, issues: set<string>)
    requires DistinctDirs(previous)
    ensures DistinctDirs(Retained(previous, issues))
  {
    if previous != [] {
      RetainedDirs(previous[1..], issues);
      var rest := Retained(previous[1..], issues);
      forall k | 0 <= k < |rest| ensures rest[k].dir != previous[0].dir {
        assert rest[k] in rest;
        var i :| 0 <= i < |previous[1..]| && previous[1..][i] == rest[k];
        assert previous[i + 1] == rest[k];
      }
    }
  }

  /** _failed_existing: slugs that were healthy by directory and are not available now. */
  function FailedExisting(ps: seq<Project>, up: set<string>, healthy: set<string>): (failed: set<string>)
    ensures forall slug :: slug in failed <==> slug !in up && exists p :: p in ps && p.slug == slug && p.dir in healthy
  {
    set p | p in ps && p.slug !in up && p.dir in healthy :: p.slug
  }

  function HealthyDirs(ps: seq<Project>, up: set<string>): (dirs: set<string>)
    ensures forall d :: d in dirs <==> exists p :: p in ps && p.dir == d && p.slug in up
  {
    set p | p in ps && p.slug in up :: p.dir
  }

  /** Where the projects of a new configuration come from. */
  ghost predicate Succession(before: seq<Project>, wasUp: set<string>, disk: Disk, after: seq<Project>)
    requires disk.Read?
  {
    // an app whose files fail to load goes on with its previous configuration
    && (forall p :: p in before && p.dir in disk.issues ==> p in after)
    // nothing comes from anywhere else
    && (forall p :: p in after ==> p in disk.projects || p in before)
    && (forall p :: p in after ==> HasDir(disk.projects, p.dir) || p.dir in disk.issues)
    // no directory is lost: an app that cannot run its new files and was up gets its old ones
    && (forall p :: p in disk.projects && p !in after ==>
          p.dir in wasUp && exists q :: q in before && q in after && q.dir == p.dir)
  }

  /** Every app whose directory was up is up. */
  ghost predicate StillUp(ps: seq<Project>, wasUp: set<string>, up: set<string>)
  {
    forall p :: p in ps && p.dir in wasUp ==> p.slug in up
  }

  /** The plan, with the apps that were up and are not replaced by what their directories ran before. */
  ghost predicate PutBack(before: seq<Project>, wasUp: set<string>, planned: seq<Project>, up: set<string>, after: seq<Project>)
  {
    && |after| == |planned|
    && forall i :: 0 <= i < |planned| ==>
         && after[i].dir == planned[i].dir
         && if planned[i].dir in wasUp && planned[i].slug !in up then after[i] in before else after[i] == planned[i]
  }

  /**
   * A reload that finds this on disk, and whose candidates start like this, has these projects to
   * publish, of which these are up: the plan if nothing that was up fails, and otherwise the plan with
   * what failed put back, if that starts in turn.
   */
  ghost predicate Publishes(
    before: seq<Project>, wasUp: set<string>, disk: Disk, first: Boot, second: Boot, after: seq<Project>, up: set<string>)
  {
    && disk.Read? && first.Up?
    && var plan := disk.projects + Retained(before, disk.issues);
       && NoConflicts(plan)
       && if StillUp(plan, wasUp, first.slugs) then after == plan && up == first.slugs
          else PutBack(before, wasUp, plan, first.slugs, after) && NoConflicts(after)
               && second.Up? && up == second.slugs && StillUp(after, wasUp, up)
  }

  class ReloadingForge {
    var config: seq<Project>     // self.current.config.projects
    var healthy: set<string>     // directories whose runtime of the current generation is available
    var observed: int            // self._observed, the signature last acted on
    var retired: nat             // |self._retired| after the pruning of reload.py:121-129
    var generation: nat
    var lastError: Option<Error>

    ghost predicate Valid()
      reads this
    {
      && DistinctDirs(config) && NoConflicts(config)
      && (forall d :: d in healthy ==> HasDir(config, d))
      && retired <= 2
    }

    constructor (config: seq<Project>, up: set<string>, signature: int)
      requires DistinctDirs(config) && NoConflicts(config)
      ensures Valid() && this.config == config && generation == 0 && retired == 0
    {
      this.config := config;
      healthy := HealthyDirs(config, up);
      observed, retired, generation, lastError := signature, 0, 0, None;
    }

    /** reload.py:150-156: put the previous configuration of every failed app back. */
    method Restore(projects: seq<Project>, failed: set<string>) returns (ok: bool, restored: seq<Project>)
      requires Valid() && DistinctDirs(projects)
      requires forall p :: p in projects && p.slug in failed ==> HasDir(config, p.dir)
      ensures ok && |restored| == |projects|
      ensures forall i :: 0 <= i < |projects| ==>
                && restored[i].dir == projects[i].dir
                && (if projects[i].slug in failed then restored[i] in config else restored[i] == projects[i])
    {
      restored := [];
      for i := 0 to |projects|
        invariant |restored| == i
        invariant forall k :: 0 <= k < i ==>
                    && restored[k].dir == projects[k].dir
                    && (if projects[k].slug in failed then restored[k] in config else restored[k] == projects[k])
      {
        if projects[i].slug in failed {
          assert projects[i] in projects;
          var j := 0;
          while j < |config| && config[j].dir != projects[i].dir
            invariant 0 <= j <= |config|
            invariant forall k :: 0 <= k < j ==> config[k].dir != projects[i].dir
          {
            j := j + 1;
          }
          if j == |config| {
            return false, projects;   // "Reload cannot replace another app's identity"
          }
          restored := restored + [config[j]];
        } else {
          restored := restored + [projects[i]];
        }
      }
      ok := true;
    }

    /** reload.py:179-186: give the candidate up; retry only after another file change. */
    method Fail(error: Error, signature: int)
      requires Valid()
      modifies this`lastError, this`observed
      ensures Valid() && lastError == Some(error) && observed == signature
    {
      lastError := Some(error);
      observed := signature;
    }

    /** This configuration follows one whose projects were before and whose apps up were wasUp. */
    ghost predicate Follows(before: seq<Project>, wasUp: set<string>, disk: Disk)
      reads this
      requires disk.Read?
    {
      Succession(before, wasUp, disk, config) && forall p :: p in config && p.dir in wasUp ==> p.dir in healthy
    }

    ghost predicate Sound(disk: Disk)
    {
      disk.Read? && DistinctDirs(disk.projects) && NoConflicts(disk.projects)
      && forall p :: p in disk.projects ==> p.dir !in disk.issues
    }

    /** reload.py:139-161: the configuration that the candidate finally started with. */
    method Plan(disk: Disk, first: Boot, second: Boot)
      returns (error: Option<Error>, projects: seq<Project>, up: set<string>)
      requires Valid() && Sound(disk)
      ensures error.None? ==> DistinctDirs(projects) && NoConflicts(projects) && Succession(config, healthy, disk, projects)
                              && forall p :: p in projects && p.dir in healthy ==> p.slug in up
      ensures error.None? ==> Publishes(config, healthy, disk, first, second, projects, up)
      ensures error.Some? ==> forall ps, alive :: !Publishes(config, healthy, disk, first, second, ps, alive)
    {
      projects, up := disk.projects + Retained(config, disk.issues), {};
      RetainedDirs(config, disk.issues);
      JoinDirs(disk.projects, Retained(config, disk.issues));
      var owned := CheckOwnership(projects);
      if !owned { return Some(ValueError), projects, up; }
      if first.Crash? { return Some(StartupError), projects, up; }
      up := first.slugs;
      var failed := FailedExisting(projects, up, healthy);
      NoneFailed(projects, up);
      if failed == {} { return None, projects, up; }
      ghost var planned := projects;
      FailedAreHealthy(projects, failed, up);
      var restored: bool;
      restored, projects := Restore(projects, failed);
      if restored { owned := CheckOwnership(projects); }
      FailedByDir(planned, up);
      assert PutBack(config, healthy, planned, up, projects);
      OnePutBack(planned, up, projects);
      if !restored || !owned { return Some(ValueError), projects, up; }
      if second.Crash? { return Some(StartupError), projects, up; }
      up := second.slugs;
      NoneFailed(projects, up);
      if FailedExisting(projects, up, healthy) != {} { return Some(RuntimeReloadError), projects, up; }
      RestoredKeeps(planned, projects, failed, disk);
      error := None;
    }

    /**
     * reload_now: signature is the first configuration signature (None: computing it
     * raised), after the one taken again before the switch.
     */
    method ReloadNow(signature: Option<int>, disk: Disk, first: Boot, second: Boot, after: Option<int>)
      returns (accepted: bool)
      requires Valid() && (disk.Read? ==> Sound(disk))
      modifies this
      ensures Valid()
      ensures !accepted ==> config == old(config) && healthy == old(healthy)
                            && generation == old(generation) && retired == old(retired)
      ensures accepted ==> disk.Read? && Follows(old(config), old(healthy), disk)
      ensures accepted <==>
                && old(retired) < 2 && signature.Some? && signature.value != old(observed) && after == signature
                && exists ps, up :: Publishes(old(config), old(healthy), disk, first, second, ps, up)
      ensures accepted ==> exists up :: Publishes(old(config), old(healthy), disk, first, second, config, up)
                                        && healthy == HealthyDirs(config, up)
      ensures old(retired) >= 2 || signature == Some(old(observed)) ==> observed == old(observed) && lastError == old(lastError)
      ensures old(retired) < 2 && signature.None? ==> observed == old(observed) && lastError == Some(ValueError)
      ensures old(retired) < 2 && signature.Some? && signature.value != old(observed) && !accepted ==>
                if after.Some? && after != signature && exists ps, up :: Publishes(old(config), old(healthy), disk, first, second, ps, up)
                then observed == old(observed) && lastError == old(lastError)
                else observed == signature.value && lastError.Some?
      ensures accepted ==> generation == old(generation) + 1 && retired == old(retired) + 1
                           && signature == after == Some(observed) && lastError == None
    {
      if retired >= 2 { return false; }
      if signature.None? {
        lastError := Some(ValueError);
        return false;
      }
      if signature.value == observed { return false; }
      if disk.Unreadable? {
        Fail(StartupError, signature.value);
        return false;
      }
      var error, projects, up := Plan(disk, first, second);
      if error.Some? || after.None? {
        Fail(if error.Some? then error.value else StartupError, signature.value);
        return false;
      }
      assert Publishes(config, healthy, disk, first, second, projects, up);
      if after.value != signature.value { return false; }
      config, healthy := projects, HealthyDirs(projects, up);
      generation, retired := generation + 1, retired + 1;
      observed, lastError := signature.value, None;
      accepted := true;
    }

    lemma NoneFailed(ps: seq<Project>, up: set<string>)
      ensures FailedExisting(ps, up, healthy) == {} <==> StillUp(ps, healthy, up)
    {
      if p :| p in ps && p.dir in healthy && p.slug !in up {
        assert p.slug in FailedExisting(ps, up, healthy);
      }
    }

    /** With one project per slug, a slug has failed if its own directory was up. */
    lemma FailedByDir(ps: seq<Project>, up: set<string>)
      requires NoConflicts(ps)
      ensures forall i :: 0 <= i < |ps| ==> (ps[i].slug in FailedExisting(ps, up, healthy) <==> ps[i].dir in healthy && ps[i].slug !in up)
    {
    }

    /** There is one way to put them back. */
    lemma OnePutBack(planned: seq<Project>, up: set<string>, after: seq<Project>)
      requires Valid() && PutBack(config, healthy, planned, up, after)
      ensures forall other :: PutBack(config, healthy, planned, up, other) ==> other == after
    {
      forall other | PutBack(config, healthy, planned, up, other) ensures other == after {
        forall i | 0 <= i < |planned| ensures other[i] == after[i] {
          if planned[i].dir in healthy && planned[i].slug !in up { SameDirSameProject(after[i], other[i]); }
        }
      }
    }

    /** A failed slug belongs to one project, whose directory was healthy before. */
    lemma FailedAreHealthy(projects: seq<Project>, failed: set<string>, up: set<string>)
      requires Valid() && NoConflicts(projects) && failed == FailedExisting(projects, up, healthy)
      ensures forall p :: p in projects && p.slug in failed ==> p.dir in healthy && HasDir(config, p.dir)
    {
    }

    /** Restoring previous configurations loses no app and keeps the retained ones. */
    lemma RestoredKeeps(planned: seq<Project>, projects: seq<Project>, failed: set<string>, disk: Disk)
      requires Valid() && disk.Read? && DistinctDirs(planned)
      requires planned == disk.projects + Retained(config, disk.issues) && |projects| == |planned|
      requires forall p :: p in planned && p.slug in failed ==> p.dir in healthy
      requires forall i :: 0 <= i < |planned| ==>
                 && projects[i].dir == planned[i].dir
                 && (if planned[i].slug in failed then projects[i] in config else projects[i] == planned[i])
      ensures DistinctDirs(projects)
      ensures Succession(config, healthy, disk, projects)
    {
      forall p | p in config && p.dir in disk.issues ensures p in projects {
        assert p in planned;
        var i :| 0 <= i < |planned| && planned[i] == p;
        SameDirSameProject(p, projects[i]);
      }
      forall p | p in projects
        ensures p in disk.projects || p in config
        ensures HasDir(disk.projects, p.dir) || p.dir in disk.issues
      {
        var i :| 0 <= i < |projects| && projects[i] == p;
        assert planned[i] in planned;
      }
      forall p | p in disk.projects && p !in projects
        ensures p.dir in healthy && exists q :: q in config && q in projects && q.dir == p.dir
      {
        assert p in planned;
        var i :| 0 <= i < |planned| && planned[i] == p;
        assert projects[i] in projects;
      }
    }

    lemma SameDirSameProject(p: Project, q: Project)
      requires Valid() && p in config && (q in config || q == p) && p.dir == q.dir
      ensures p == q
    {
    }

    /** reload.py:121-129: forget retired generations whose close has finished. */
    method Prune(finished: nat)
      requires Valid() && finished <= retired
      modifies this`retired
      ensures Valid() && retired == old(retired) - finished
    {
      retired := retired - finished;
    }
  }

  lemma JoinDirs(ps: seq<Project>, qs: seq<Project>)
    requires DistinctDirs(ps) && DistinctDirs(qs)
    requires forall p, q :: p in ps && q in qs ==> p.dir != q.dir
    ensures DistinctDirs(ps + qs)
  {
  }
}
