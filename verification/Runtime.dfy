/**
 * framework/runtime.py in its own form: ProjectRuntime objects shared between
 * RuntimeManager objects, with borrowing, starting, closing and path lookup.
 * Here each method runs without interruption; LeaseProtocol has the interleavings.
 */
module RuntimeManagers {
  import opened Projects
  import opened Ownership
  import opened LeaseProtocol

  class ProjectRuntime {
    const config: Project
    var available: bool
    var error: bool
    var leases: int
    var services: bool

    constructor (config: Project)
      ensures this.config == config
      ensures View() == Runtime(config, false, false, 0, false)
    {
      this.config := config;
      available, error, leases, services := false, false, 0, false;
    }

    function View(): Runtime
      reads this
    {
      Runtime(config, available, error, leases, services)
    }
  }

  /** What RuntimeManager.start does to one runtime; boots says whether its services come up. */
  function StartView(rt: Runtime, boots: bool): Runtime
  {
    if rt.error then rt
    else if rt.available then rt.(leases := rt.leases + 1)
    else if boots then rt.(available := true, services := true, leases := rt.leases + 1)
    else rt.(error := true, services := false)
  }

  /** What RuntimeManager.close does to one runtime. */
  function CloseView(rt: Runtime, leased: bool, borrowed: bool): Runtime
  {
    if leased && rt.leases > 1 then rt.(leases := rt.leases - 1)
    else if leased then rt.(leases := rt.leases - 1, available := false, services := false)
    else if borrowed then rt
    else rt.(available := false, services := false)
  }

  class RuntimeManager {
    var runtimes: seq<ProjectRuntime>
    var borrowed: set<ProjectRuntime>
    var leased: set<ProjectRuntime>
    var started: bool
    var closed: bool

    ghost predicate Valid()
      reads this
    {
      && (forall i, j :: 0 <= i < j < |runtimes| ==> runtimes[i] != runtimes[j])
      && (forall r :: r in borrowed ==> r in runtimes)
      && (forall r :: r in leased ==> r in runtimes)
    }

    /** Projects come with distinct slugs: load_config_resilient and _check_ownership see to it. */
    constructor (projects: seq<Project>, reuse: map<string, ProjectRuntime>)
      requires forall i, j :: 0 <= i < j < |projects| ==> projects[i].slug != projects[j].slug
      ensures Valid() && leased == {} && !started && !closed && |runtimes| == |projects|
      ensures forall i :: 0 <= i < |projects| ==>
                var p, r := projects[i], runtimes[i];
                if p.slug in reuse && reuse[p.slug].available && reuse[p.slug].config == p
                then r == reuse[p.slug] && r in borrowed
                else fresh(r) && r !in borrowed && r.View() == Runtime(p, false, false, 0, false)
    {
      started, closed, leased := false, false, {};
      var rs: seq<ProjectRuntime> := [];
      var loans: set<ProjectRuntime> := {};
      for i := 0 to |projects|
        invariant |rs| == i
        invariant forall k :: 0 <= k < i ==> rs[k].config == projects[k]
        invariant forall r :: r in loans ==> r in rs && !fresh(r)
        invariant forall k :: 0 <= k < i ==>
                    var p, r := projects[k], rs[k];
                    if p.slug in reuse && reuse[p.slug].available && reuse[p.slug].config == p
                    then r == reuse[p.slug] && r in loans
                    else fresh(r) && r !in loans && r.View() == Runtime(p, false, false, 0, false)
      {
        var p := projects[i];
        var r: ProjectRuntime;
        if p.slug in reuse && reuse[p.slug].available && reuse[p.slug].config == p {
          r := reuse[p.slug];
          loans := loans + {r};
        } else {
          r := new ProjectRuntime(p);
        }
        rs := rs + [r];
      }
      runtimes, borrowed := rs, loans;
    }

    /** runtime.py:98-118, one turn of the loop. */
    method StartOne(r: ProjectRuntime, boots: bool)
      modifies r, this`leased
      ensures r.View() == StartView(old(r.View()), boots)
      ensures leased == if r.error then old(leased) else old(leased) + {r}
    {
      if r.error { return; }
      if !r.available {
        if !boots {
          r.error, r.services := true, false;
          return;
        }
        r.services, r.available := true, true;
      }
      r.leases := r.leases + 1;
      leased := leased + {r};
    }

    /** RuntimeManager.start; boots(i) says whether the services of the i-th runtime come up. */
    method Start(boots: int -> bool)
      requires Valid() && leased == {}
      modifies this, runtimes
      ensures Valid() && runtimes == old(runtimes) && borrowed == old(borrowed) && started
      ensures old(started) ==> leased == {} && forall r :: r in runtimes ==> r.View() == old(r.View())
      ensures !old(started) ==> !closed && forall i :: 0 <= i < |runtimes| ==>
                && runtimes[i].View() == StartView(old(runtimes[i].View()), boots(i))
                && (runtimes[i] in leased <==> !runtimes[i].error)
      // an app that is up already, or whose services come up, is served and leased once more
      ensures !old(started) ==> forall i :: 0 <= i < |runtimes| && !old(runtimes[i].error) && (old(runtimes[i].available) || boots(i)) ==>
                && runtimes[i].available && !runtimes[i].error && runtimes[i] in leased
                && runtimes[i].leases == old(runtimes[i].leases) + 1
                && (runtimes[i].services == if old(runtimes[i].available) then old(runtimes[i].services) else true)
      // one whose services do not come up is out of service, and holds nothing
      ensures !old(started) ==> forall i :: 0 <= i < |runtimes| && !old(runtimes[i].error) && !old(runtimes[i].available) && !boots(i) ==>
                && runtimes[i].error && !runtimes[i].available && !runtimes[i].services && runtimes[i] !in leased
                && runtimes[i].leases == old(runtimes[i].leases)
      // one that create_app refused is left alone
      ensures !old(started) ==> forall i :: 0 <= i < |runtimes| && old(runtimes[i].error) ==>
                runtimes[i].View() == old(runtimes[i].View()) && runtimes[i] !in leased
    {
      if started { return; }
      closed := false;
      for i := 0 to |runtimes|
        modifies this`leased, runtimes
        invariant forall r :: r in leased ==> r in runtimes
        invariant forall k :: 0 <= k < i ==>
                    && runtimes[k].View() == StartView(old(runtimes[k].View()), boots(k))
                    && (runtimes[k] in leased <==> !runtimes[k].error)
        invariant forall k :: i <= k < |runtimes| ==>
                    runtimes[k].View() == old(runtimes[k].View()) && runtimes[k] !in leased
      {
        StartOne(runtimes[i], boots(i));
      }
      started := true;
    }

    /** runtime.py:152-161, one turn of the reversed loop. */
    method CloseOne(r: ProjectRuntime)
      modifies r, this`leased
      ensures r.View() == CloseView(old(r.View()), r in old(leased), r in borrowed)
      ensures leased == old(leased) - {r}
    {
      if r in leased {
        leased := leased - {r};
        r.leases := r.leases - 1;
        if r.leases > 0 { return; }
      } else if r in borrowed {
        return;
      }
      r.available := false;
      r.services := false;
    }

    /** RuntimeManager.close. */
    method Close()
      requires Valid()
      modifies this, runtimes
      ensures Valid() && runtimes == old(runtimes) && borrowed == old(borrowed) && closed
      ensures old(closed) ==> leased == old(leased) && forall r :: r in runtimes ==> r.View() == old(r.View())
      ensures !old(closed) ==> leased == {} && !started && forall i :: 0 <= i < |runtimes| ==>
                runtimes[i].View() == CloseView(old(runtimes[i].View()), runtimes[i] in old(leased), runtimes[i] in borrowed)
      // a lease is given back, and with the last one the services
      ensures !old(closed) ==> forall i :: 0 <= i < |runtimes| && runtimes[i] in old(leased) ==>
                && runtimes[i].leases == old(runtimes[i].leases) - 1
                && (if runtimes[i].leases > 0
                    then runtimes[i].available == old(runtimes[i].available) && runtimes[i].services == old(runtimes[i].services)
                    else !runtimes[i].available && !runtimes[i].services)
      // what was borrowed and never leased is left alone; what was made here and never leased goes
      ensures !old(closed) ==> forall i :: 0 <= i < |runtimes| && runtimes[i] !in old(leased) ==>
                if runtimes[i] in borrowed then runtimes[i].View() == old(runtimes[i].View())
                else !runtimes[i].available && !runtimes[i].services && runtimes[i].leases == old(runtimes[i].leases)
    {
      if closed { return; }
      closed := true;
      for k := |runtimes| downto 0
        modifies this`leased, runtimes
        invariant forall r :: r in leased ==> r in runtimes
        invariant forall i :: 0 <= i < k ==>
                    && runtimes[i].View() == old(runtimes[i].View())
                    && (runtimes[i] in leased <==> runtimes[i] in old(leased))
        invariant forall i :: k <= i < |runtimes| ==>
                    && runtimes[i] !in leased
                    && runtimes[i].View() == CloseView(old(runtimes[i].View()), runtimes[i] in old(leased), runtimes[i] in borrowed)
      {
        CloseOne(runtimes[k]);
      }
      assert forall r :: r in runtimes ==> r !in leased;
      started := false;
    }
  }

  /** A runtime that some started manager still leases. */
  ghost predicate Live(r: ProjectRuntime)
    reads r
  {
    r.available ==> r.leases >= 1 && r.services && !r.error
  }

  /**
   * reload.py:144-148: build a candidate on the current runtimes, start it and close it
   * again.  Nothing that the current generation serves with has changed.
   */
  method BuildStartClose(projects: seq<Project>, reuse: map<string, ProjectRuntime>, boots: int -> bool)
    returns (candidate: RuntimeManager)
    requires forall i, j :: 0 <= i < j < |projects| ==> projects[i].slug != projects[j].slug
    requires forall slug :: slug in reuse ==> Live(reuse[slug])
    modifies set slug | slug in reuse :: reuse[slug]
    ensures forall slug :: slug in reuse ==> reuse[slug].View() == old(reuse[slug].View())
    ensures candidate.Valid() && candidate.closed && candidate.leased == {}
    ensures forall r :: r in candidate.runtimes && r !in candidate.borrowed ==>
              fresh(r) && !r.available && !r.services && r.leases == 0
  {
    candidate := new RuntimeManager(projects, reuse);
    label built:
    candidate.Start(boots);
    label running:
    candidate.Close();
    forall slug | slug in reuse ensures reuse[slug].View() == old(reuse[slug].View()) {
      var r := reuse[slug];
      if r in candidate.runtimes {
        var k :| 0 <= k < |candidate.runtimes| && candidate.runtimes[k] == r;
        assert r in candidate.borrowed;
      }
    }
    forall r | r in candidate.runtimes && r !in candidate.borrowed
      ensures fresh(r) && !r.available && !r.services && r.leases == 0
    {
      var k :| 0 <= k < |candidate.runtimes| && candidate.runtimes[k] == r;
    }
  }
}
