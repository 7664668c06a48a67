/** What the lease protocol promises over whole runs. */
module LeaseTheorems {
  import opened Projects
  import opened LeaseProtocol
  import opened LeaseInvariant

  ghost predicate Run(s: State, acts: seq<Action>, t: State)
    decreases |acts|
  {
    if acts == [] then s == t
    else Enabled(s, acts[0]) && Run(Apply(s, acts[0]), acts[1..], t)
  }

  lemma {:induction false} RunInv(s: State, acts: seq<Action>, t: State)
    requires Inv(s) && Run(s, acts, t)
    ensures Inv(t)
    decreases |acts|
  {
    if acts != [] {
      StepInv(s, acts[0]);
      RunInv(Apply(s, acts[0]), acts[1..], t);
    }
  }

  /** Generations whose lifespan has not finished and that no longer take requests. */
  ghost function Lingering(s: State): set<GenId>
  {
    set g | g in s.gens && !s.gens[g].phase.Closed? && g != s.current && g !in s.candidate
  }

  lemma {:induction false} SeqAsSetSize<T>(q: seq<T>, xs: set<T>)
    requires forall x :: x in xs ==> x in q
    ensures |xs| <= |q|
  {
    if q != [] {
      var xs' := xs - {q[0]};
      forall x | x in xs' ensures x in q[1..] { }
      SeqAsSetSize(q[1..], xs');
    } else {
      assert xs == {};
    }
  }

  /** Books and safety in every reachable state. */
  lemma Reachable(s: State, plan: seq<Project>, refused: set<string>, acts: seq<Action>, t: State)
    requires Init(s, plan, refused) && Run(s, acts, t)
    ensures forall r :: r in t.rts ==> t.rts[r].leases == |set g | g in t.gens && r in t.gens[g].leased|
    ensures forall g, r :: g in t.gens && r in t.gens[g].leased ==>
              r in t.rts && t.rts[r].available && t.rts[r].services
    ensures forall g :: g in t.gens && (t.gens[g].phase.Closing? || t.gens[g].phase.Closed?) ==> t.gens[g].requests == 0
    ensures |Lingering(t)| <= 2
    ensures forall g, r :: g in t.gens && r in t.gens[g].runtimes && (t.gens[g].phase.Started? || t.gens[g].requests > 0) ==>
              r in t.rts && (t.rts[r].error || (t.rts[r].available && t.rts[r].services))
    ensures t.current in t.gens
    ensures (forall g :: g in t.gens ==> t.gens[g].phase.Closed?) ==>
              forall r :: r in t.rts ==> t.rts[r].leases == 0 && !t.rts[r].services && !t.rts[r].available
  {
    InitInv(s, plan, refused);
    RunInv(s, acts, t);
    forall r | r in t.rts ensures t.rts[r].leases == |set g | g in t.gens && r in t.gens[g].leased| {
      assert RuntimeOk(t.rts, t.gens, r);
    }
    forall g, r | g in t.gens && r in t.gens[g].leased
      ensures r in t.rts && t.rts[r].available && t.rts[r].services
    {
      LeasedIsUp(t, g, r);
    }
    forall g, r | g in t.gens && r in t.gens[g].runtimes && (t.gens[g].phase.Started? || t.gens[g].requests > 0)
      ensures r in t.rts && (t.rts[r].error || (t.rts[r].available && t.rts[r].services))
    {
      StartedServes(t, g, r);
    }
    SeqAsSetSize(t.retired, Lingering(t));
    if forall g :: g in t.gens ==> t.gens[g].phase.Closed? {
      forall r | r in t.rts ensures t.rts[r].leases == 0 && !t.rts[r].services && !t.rts[r].available {
        AllClosedNoServices(t, r);
      }
    }
  }

  /** Current or retired: while a generation is started, and so while requests are pinned to it, it serves. */
  lemma StartedServes(t: State, g: GenId, r: RtId)
    requires Inv(t) && g in t.gens && r in t.gens[g].runtimes && (t.gens[g].phase.Started? || t.gens[g].requests > 0)
    ensures r in t.rts && (t.rts[r].error || (t.rts[r].available && t.rts[r].services))
  {
    var m := t.gens[g];
    assert RequestsOk(m) && PhaseOk(t.rts, m);
    var j: nat :| j < |m.runtimes| && m.runtimes[j] == r;
    assert Settled(t.rts, m, m.runtimes[j]);
    if r in m.leased { LeasedIsUp(t, g, r); }
  }

  lemma LeasedIsUp(t: State, g: GenId, r: RtId)
    requires Inv(t) && g in t.gens && r in t.gens[g].leased
    ensures r in t.rts && t.rts[r].available && t.rts[r].services && !t.rts[r].error
  {
    assert Shape(t.rts, t.gens[g]);
    assert r in t.gens[g].runtimes;
    assert RuntimeOk(t.rts, t.gens, r);
    assert g in Holders(t.gens, r);
  }

  lemma AllClosedNoServices(t: State, r: RtId)
    requires Inv(t) && r in t.rts && forall g :: g in t.gens ==> t.gens[g].phase.Closed?
    ensures t.rts[r].leases == 0 && !t.rts[r].services && !t.rts[r].available
  {
    assert RuntimeOk(t.rts, t.gens, r);
    forall g | g in t.gens ensures r !in t.gens[g].leased {
      assert PhaseOk(t.rts, t.gens[g]);
    }
    assert Holders(t.gens, r) == {};
    assert forall g, j: nat :: !TouchedBy(t.gens, r, g, j);
  }

  /** A step that takes a service or the availability of a runtime away leaves no lease on it. */
  lemma TeardownOnlyUnleased(s: State, a: Action, r: RtId)
    requires Inv(s) && Enabled(s, a) && r in s.rts && r in Apply(s, a).rts
    requires (s.rts[r].services && !Apply(s, a).rts[r].services) || (s.rts[r].available && !Apply(s, a).rts[r].available)
    ensures forall g :: g in Apply(s, a).gens ==> r !in Apply(s, a).gens[g].leased
  {
    var t := Apply(s, a);
    StepInv(s, a);
    assert RuntimeOk(t.rts, t.gens, r);
    forall g | g in t.gens ensures r !in t.gens[g].leased {
      if r in t.gens[g].leased { LeasedIsUp(t, g, r); }
    }
  }

  // ---------------------------------------------------------------- draining

  /** g was current once and is no longer. */
  ghost predicate Old(s: State, g: GenId)
  {
    g in s.gens && g != s.current && g !in s.candidate
  }

  lemma OldStep(s: State, a: Action, g: GenId)
    requires RolesOk(s) && g in s.gens && RequestsOk(s.gens[g]) && Enabled(s, a) && Old(s, g)
    ensures Old(Apply(s, a), g) && Apply(s, a).gens[g].requests <= s.gens[g].requests
    ensures s.gens[g].phase.Started? && !Apply(s, a).gens[g].phase.Started? ==> s.gens[g].requests == 0
    ensures s.gens[g].phase.Closed? ==> Apply(s, a).gens[g].phase.Closed?
  {
  }

  /** After its replacement a generation only loses requests, and exits with none left. */
  lemma {:induction false} Draining(s: State, acts: seq<Action>, t: State, g: GenId)
    requires Inv(s) && Run(s, acts, t) && Old(s, g)
    ensures Old(t, g) && t.gens[g].requests <= s.gens[g].requests
    ensures !t.gens[g].phase.Started? && s.gens[g].phase.Started? ==> t.gens[g].requests == 0
    decreases |acts|
  {
    if acts != [] {
      StepInv(s, acts[0]);
      OldStep(s, acts[0], g);
      Draining(Apply(s, acts[0]), acts[1..], t, g);
    }
  }

  // ---------------------------------------------------------------- rollback

  /** No generation was swapped in and the listener was not shut down. */
  ghost predicate Unswapped(acts: seq<Action>)
  {
    forall i :: 0 <= i < |acts| ==> !acts[i].Swap? && !acts[i].Shutdown?
  }

  /** What has happened between s and u while candidates came and went. */
  ghost predicate Meanwhile(s: State, u: State)
  {
    && SameCurrent(s, u)
    && (forall g :: g in s.gens ==> OldGeneration(s, u, g))
    && (forall g :: g in u.gens && g !in s.gens ==> g in u.candidate || u.gens[g].phase.Closed?)
    && (forall r :: r in s.rts ==> r in u.rts && u.rts[r].config == s.rts[r].config)
  }

  ghost predicate SameCurrent(s: State, u: State)
  {
    && u.current == s.current && u.current in u.gens && s.current in s.gens
    && u.gens[u.current].(requests := 0, idle := false) == s.gens[s.current].(requests := 0, idle := false)
    && u.gens[u.current].phase.Started?
  }

  ghost predicate OldGeneration(s: State, u: State, g: GenId)
    requires g in s.gens
  {
    && g in u.gens && !u.gens[g].phase.Built? && !u.gens[g].phase.Starting?
    && g !in u.candidate && u.gens[g].leased <= s.gens[g].leased
  }

  lemma MeanwhileStep(s: State, u: State, a: Action)
    requires Inv(u) && Enabled(u, a) && Meanwhile(s, u) && !a.Swap? && !a.Shutdown?
    requires !u.down
    ensures Meanwhile(s, Apply(u, a)) && !Apply(u, a).down
  {
    MeanwhileCurrent(s, u, a);
    forall g | g in s.gens ensures OldGeneration(s, Apply(u, a), g) {
      MeanwhileOld(s, u, a, g);
    }
    MeanwhileNew(s, u, a);
    MeanwhileConfigs(s, u, a);
    assert SameCurrent(s, Apply(u, a));
    hide SameCurrent;
    hide OldGeneration;
  }

  lemma MeanwhileCurrent(s: State, u: State, a: Action)
    requires RolesOk(u) && Enabled(u, a) && SameCurrent(s, u) && !a.Swap? && !a.Shutdown? && !u.down
    ensures SameCurrent(s, Apply(u, a))
  {
  }

  lemma MeanwhileOld(s: State, u: State, a: Action, g: GenId)
    requires RolesOk(u) && Enabled(u, a) && !a.Swap? && !a.Shutdown? && !u.down
    requires g in s.gens && OldGeneration(s, u, g)
    ensures OldGeneration(s, Apply(u, a), g)
  {
  }

  lemma MeanwhileNew(s: State, u: State, a: Action)
    requires RolesOk(u) && Enabled(u, a) && Meanwhile(s, u) && !a.Swap? && !a.Shutdown? && !u.down
    ensures forall g :: g in Apply(u, a).gens && g !in s.gens ==> g in Apply(u, a).candidate || Apply(u, a).gens[g].phase.Closed?
    ensures !Apply(u, a).down
  {
    hide SameCurrent;
  }

  lemma MeanwhileConfigs(s: State, u: State, a: Action)
    requires Enabled(u, a)
    requires forall r :: r in s.rts ==> r in u.rts && u.rts[r].config == s.rts[r].config
    requires a.Build? ==> forall r :: r in u.rts ==> r < u.nextRt
    ensures forall r :: r in s.rts ==> r in Apply(u, a).rts && Apply(u, a).rts[r].config == s.rts[r].config
  {
  }

  lemma {:induction false} MeanwhileRun(s: State, u: State, acts: seq<Action>, t: State)
    requires Inv(u) && Run(u, acts, t) && Meanwhile(s, u) && Unswapped(acts) && !u.down
    ensures Meanwhile(s, t) && Inv(t)
    decreases |acts|
  {
    if acts != [] {
      assert !acts[0].Swap? && !acts[0].Shutdown?;
      StepInv(u, acts[0]);
      MeanwhileStep(s, u, acts[0]);
      MeanwhileRun(s, Apply(u, acts[0]), acts[1..], t);
    }
  }

  /**
   * A reload that ends without a swap has no net effect: the current generation keeps its
   * runtimes and leases, whatever it leases is still up, and every other lease that is
   * gone was given back by a retired generation.
   */
  lemma RejectedReload(s: State, acts: seq<Action>, t: State)
    requires Inv(s) && Run(s, acts, t) && Unswapped(acts) && !s.down
    requires s.candidate == {} && t.candidate == {} && s.gens[s.current].phase.Started?
    ensures t.current in t.gens && t.current == s.current && t.gens[t.current].leased == s.gens[s.current].leased
    ensures t.gens[t.current].runtimes == s.gens[s.current].runtimes
    ensures forall r :: r in s.gens[s.current].leased ==>
              && r in s.rts && r in t.rts && t.rts[r].config == s.rts[r].config
              && s.rts[r].available && t.rts[r].available && t.rts[r].services
    ensures forall r :: r in s.rts ==> r in t.rts && Holders(t.gens, r) <= Holders(s.gens, r)
    ensures forall r :: r in s.rts ==> Holders(s.gens, r) - Holders(t.gens, r) <= (set g | g in s.retired)
    ensures forall r :: r in s.rts && Holders(s.gens, r) == Holders(t.gens, r) ==>
              t.rts[r].leases == s.rts[r].leases && t.rts[r].available == s.rts[r].available
  {
    assert Meanwhile(s, s);
    MeanwhileRun(s, s, acts, t);
    forall r | r in s.gens[s.current].leased
      ensures r in s.rts && r in t.rts && t.rts[r].config == s.rts[r].config
      ensures s.rts[r].available && t.rts[r].available && t.rts[r].services
    {
      LeasedIsUp(s, s.current, r);
      LeasedIsUp(t, t.current, r);
    }
    forall r | r in s.rts
      ensures r in t.rts && Holders(t.gens, r) <= Holders(s.gens, r)
      ensures Holders(s.gens, r) - Holders(t.gens, r) <= (set g | g in s.retired)
      ensures Holders(s.gens, r) == Holders(t.gens, r) ==>
                t.rts[r].leases == s.rts[r].leases && t.rts[r].available == s.rts[r].available
    {
      HoldersAfterReject(s, t, r);
    }
  }

  lemma HoldersAfterReject(s: State, t: State, r: RtId)
    requires Inv(s) && Inv(t) && Meanwhile(s, t) && s.candidate == {} && t.candidate == {} && r in s.rts
    ensures r in t.rts && Holders(t.gens, r) <= Holders(s.gens, r)
    ensures Holders(s.gens, r) - Holders(t.gens, r) <= (set g | g in s.retired)
    ensures Holders(s.gens, r) == Holders(t.gens, r) ==>
              t.rts[r].leases == s.rts[r].leases && t.rts[r].available == s.rts[r].available
  {
    assert RuntimeOk(s.rts, s.gens, r) && RuntimeOk(t.rts, t.gens, r);
    forall g | g in Holders(t.gens, r) ensures g in Holders(s.gens, r) {
      assert PhaseOk(t.rts, t.gens[g]);
    }
    forall g | g in Holders(s.gens, r) - Holders(t.gens, r) ensures g in s.retired {
      assert PhaseOk(s.rts, s.gens[g]);
    }
  }

  // ---------------------------------------------------------------- pinned requests

  /** The current generation, told from the actions alone. */
  function CurrentAfter(current: GenId, acts: seq<Action>): GenId
    decreases |acts|
  {
    if acts == [] then current else CurrentAfter(if acts[0].Swap? then acts[0].g else current, acts[1..])
  }

  /** How many requests began while g was current. */
  function Begun(current: GenId, acts: seq<Action>, g: GenId): nat
    decreases |acts|
  {
    if acts == [] then 0
    else (if acts[0].BeginRequest? && current == g then 1 else 0)
         + Begun(if acts[0].Swap? then acts[0].g else current, acts[1..], g)
  }

  /** How many requests pinned to g ended. */
  function Ended(acts: seq<Action>, g: GenId): nat
  {
    if acts == [] then 0 else (if acts[0] == EndRequest(g) then 1 else 0) + Ended(acts[1..], g)
  }

  function RequestsOf(s: State, g: GenId): nat
  {
    if g in s.gens then s.gens[g].requests else 0
  }

  lemma RequestStep(s: State, a: Action, g: GenId)
    requires Enabled(s, a)
    ensures Apply(s, a).current == if a.Swap? then a.g else s.current
    ensures RequestsOf(Apply(s, a), g) ==
            RequestsOf(s, g) + (if a.BeginRequest? && s.current == g then 1 else 0) - (if a == EndRequest(g) then 1 else 0)
  {
  }

  /** A generation's count is the requests begun on it less those ended, counted from the actions. */
  lemma {:induction false} RequestsAreCounted(s: State, acts: seq<Action>, t: State, g: GenId)
    requires Run(s, acts, t)
    ensures t.current == CurrentAfter(s.current, acts)
    ensures RequestsOf(t, g) == RequestsOf(s, g) + Begun(s.current, acts, g) - Ended(acts, g)
    decreases |acts|
  {
    if acts != [] {
      RequestStep(s, acts[0], g);
      hide Apply;
      hide Enabled;
      RequestsAreCounted(Apply(s, acts[0]), acts[1..], t, g);
    }
  }

  /**
   * From the start of the process: a generation that was replaced begins to close exactly when it
   * may, once every request that began on it has ended.
   */
  lemma DrainsWhenAllEnded(s: State, plan: seq<Project>, refused: set<string>, acts: seq<Action>, t: State, g: GenId)
    requires Init(s, plan, refused) && Run(s, acts, t) && g in t.gens && t.gens[g].phase.Started?
    ensures Enabled(t, Drain(g)) <==>
            (g in t.retired || (t.down && g == t.current)) && Begun(0, acts, g) == Ended(acts, g)
  {
    InitInv(s, plan, refused);
    RunInv(s, acts, t);
    RequestsAreCounted(s, acts, t, g);
    assert RequestsOk(t.gens[g]);
  }

  /** And a request can end as long as it runs; new ones begin until the process shuts down. */
  lemma RequestsCanEnd(s: State, plan: seq<Project>, refused: set<string>, acts: seq<Action>, t: State, g: GenId)
    requires Init(s, plan, refused) && Run(s, acts, t) && g in t.gens
    ensures Enabled(t, EndRequest(g)) <==> Begun(0, acts, g) > Ended(acts, g)
    ensures Enabled(t, BeginRequest) <==> !t.down && t.current in t.gens && t.gens[t.current].phase.Started?
    ensures t.down <==> Shutdown in acts
  {
    RequestsAreCounted(s, acts, t, g);
    DownAfterShutdown(s, acts, t);
    hide Run;
    hide Begun;
    hide Ended;
  }

  lemma DownStep(s: State, a: Action)
    requires Enabled(s, a)
    ensures Apply(s, a).down <==> s.down || a == Shutdown
  {
  }

  lemma {:induction false} DownAfterShutdown(s: State, acts: seq<Action>, t: State)
    requires Run(s, acts, t)
    ensures t.down <==> s.down || Shutdown in acts
    decreases |acts|
  {
    if acts != [] {
      DownStep(s, acts[0]);
      assert Shutdown in acts <==> acts[0] == Shutdown || Shutdown in acts[1..];
      hide Apply;
      hide Enabled;
      DownAfterShutdown(Apply(s, acts[0]), acts[1..], t);
    }
  }

  // ---------------------------------------------------------------- building a candidate

  /** r is a runtime of the current generation that is up, for the app as it is now. */
  ghost predicate RunsAlready(s: State, project: Project, r: RtId)
  {
    && s.current in s.gens && r in s.gens[s.current].runtimes && r in s.rts
    && s.rts[r].available && s.rts[r].config == project
  }

  /** An app of a candidate is the running one if it is up, unchanged and not refused, and a new one otherwise. */
  lemma CandidateIsThePlan(s: State, a: Action, i: nat)
    requires Inv(s) && a.Build? && Enabled(s, a) && i < |a.plan|
    ensures var t, project := Apply(s, a), a.plan[i];
            && a.g in t.gens && |t.gens[a.g].runtimes| == |a.plan|
            && var r := t.gens[a.g].runtimes[i];
               if project.slug !in a.refused && exists o :: RunsAlready(s, project, o)
               then RunsAlready(s, project, r) && r in t.gens[a.g].borrowed && r in t.rts && t.rts[r] == s.rts[r]
               else r !in s.rts && r !in t.gens[a.g].borrowed && r in t.rts
                    && t.rts[r] == Runtime(project, false, project.slug in a.refused, 0, false)
  {
    ChosenRuntime(s, a.plan[i], a.refused, s.nextRt + i);
    assert Shapes(s);
    BuiltAt(s, a.plan, a.refused, i);
    hide Inv;
    hide Choose;
    hide BuildGeneration;
    hide BuildRuntimes;
    hide RunsAlready;
    RunningAreOld(s);
  }

  lemma RunningAreOld(s: State)
    ensures forall project, r :: RunsAlready(s, project, r) ==> r in s.rts
  {
  }

  lemma ChosenRuntime(s: State, project: Project, refused: set<string>, made: RtId)
    ensures var r := Choose(s, project, refused, made);
            if project.slug !in refused && exists o :: RunsAlready(s, project, o) then RunsAlready(s, project, r) else r == made
  {
    forall o ensures Reusable(s, project, refused, o) <==> project.slug !in refused && RunsAlready(s, project, o) {}
    hide Choose;
  }

  lemma BuiltAt(s: State, plan: seq<Project>, refused: set<string>, i: nat)
    requires i < |plan| && forall r :: r in s.rts ==> r < s.nextRt
    ensures var r, m, rts := Choose(s, plan[i], refused, s.nextRt + i), BuildGeneration(s, plan, refused), BuildRuntimes(s, plan, refused);
            && |m.runtimes| == |plan| && m.runtimes[i] == r && (r in m.borrowed <==> r < s.nextRt)
            && (r in s.rts ==> r in rts && rts[r] == s.rts[r])
            && (r == s.nextRt + i ==> r !in s.rts && r in rts && rts[r] == Runtime(plan[i], false, plan[i].slug in refused, 0, false))
  {
    var r := Choose(s, plan[i], refused, s.nextRt + i);
    NewOnesMade(s, plan, refused, i);
    if r in s.rts { OldOnesStay(s, plan, refused, r); }
    hide Choose;
    hide BuildRuntimes;
    assert Assign(s, plan, refused)[i] in Assign(s, plan, refused);
  }

  /** Old runtimes stay as they are. */
  lemma OldOnesStay(s: State, plan: seq<Project>, refused: set<string>, r: RtId)
    requires r in s.rts && r < s.nextRt
    ensures r in BuildRuntimes(s, plan, refused) && BuildRuntimes(s, plan, refused)[r] == s.rts[r]
  {
    assert r !in NewIds(s.nextRt, |plan|);
  }

  /** New ones are made for the plan. */
  lemma NewOnesMade(s: State, plan: seq<Project>, refused: set<string>, i: nat)
    requires i < |plan|
    ensures s.nextRt + i in BuildRuntimes(s, plan, refused)
    ensures BuildRuntimes(s, plan, refused)[s.nextRt + i] == Runtime(plan[i], false, plan[i].slug in refused, 0, false)
  {
    assert s.nextRt + i in NewIds(s.nextRt, |plan|);
  }

  // ---------------------------------------------------------------- completion

  lemma {:induction false} RunThen(s: State, acts: seq<Action>, u: State, more: seq<Action>, t: State)
    requires Run(s, acts, u) && Run(u, more, t)
    ensures Run(s, acts + more, t)
    decreases |acts|
  {
    if acts == [] {
      assert acts + more == more;
    } else {
      assert (acts + more)[1..] == acts[1..] + more;
      RunThen(Apply(s, acts[0]), acts[1..], u, more, t);
    }
  }

  lemma RunOne(s: State, a: Action)
    requires Enabled(s, a)
    ensures Run(s, [a], Apply(s, a))
  {
  }

  ghost predicate OnlyChanged(s: State, t: State, g: GenId)
  {
    && g in t.gens && (forall h :: h in s.gens && h != g ==> h in t.gens && t.gens[h] == s.gens[h])
    && t.current == s.current && t.retired == s.retired && t.down == s.down
  }

  lemma TearOne(s: State, g: GenId)
    requires Inv(s) && g in s.gens && s.gens[g].phase.Closing? && s.gens[g].phase.tearing
    ensures Enabled(s, CloseTorn(g)) && Inv(Apply(s, CloseTorn(g))) && OnlyChanged(s, Apply(s, CloseTorn(g)), g)
    ensures Apply(s, CloseTorn(g)).gens[g].phase == Closing(s.gens[g].phase.left - 1, false)
  {
    assert PhaseOk(s.rts, s.gens[g]) && Shape(s.rts, s.gens[g]);
    StepInv(s, CloseTorn(g));
  }

  lemma VisitOne(s: State, g: GenId)
    requires Inv(s) && g in s.gens && s.gens[g].phase.Closing? && !s.gens[g].phase.tearing && s.gens[g].phase.left > 0
    ensures Enabled(s, CloseVisit(g)) && Inv(Apply(s, CloseVisit(g))) && OnlyChanged(s, Apply(s, CloseVisit(g)), g)
    ensures var p := Apply(s, CloseVisit(g)).gens[g].phase;
            p == Closing(s.gens[g].phase.left - 1, false) || p == Closing(s.gens[g].phase.left, true)
  {
    assert PhaseOk(s.rts, s.gens[g]) && Shape(s.rts, s.gens[g]);
    StepInv(s, CloseVisit(g));
  }

  /** A generation that has begun to close can finish by itself, whatever else is going on. */
  lemma {:induction false} CloseCompletes(s: State, g: GenId) returns (acts: seq<Action>, t: State)
    requires Inv(s) && g in s.gens && s.gens[g].phase.Closing?
    ensures Run(s, acts, t) && OnlyChanged(s, t, g) && t.gens[g].phase.Closed?
    decreases s.gens[g].phase.left, !s.gens[g].phase.tearing
  {
    var p := s.gens[g].phase;
    if p.left == 0 && !p.tearing {
      RunOne(s, CloseDone(g));
      acts, t := [CloseDone(g)], Apply(s, CloseDone(g));
    } else {
      var a: Action;
      if p.tearing { TearOne(s, g); a := CloseTorn(g); } else { VisitOne(s, g); a := CloseVisit(g); }
      RunOne(s, a);
      var rest: seq<Action>;
      rest, t := CloseCompletes(Apply(s, a), g);
      RunThen(s, [a], Apply(s, a), rest, t);
      acts := [a] + rest;
    }
  }

  /** Once the last request of a retired generation ends, its lifespan can run to the end. */
  lemma RetiredCanFinish(s: State, g: GenId) returns (acts: seq<Action>, t: State)
    requires Inv(s) && g in s.retired && s.gens[g].phase.Started? && s.gens[g].requests == 0
    ensures Run(s, acts, t) && OnlyChanged(s, t, g) && t.gens[g].phase.Closed?
  {
    assert RequestsOk(s.gens[g]);
    StepInv(s, Drain(g));
    RunOne(s, Drain(g));
    var rest: seq<Action>;
    rest, t := CloseCompletes(Apply(s, Drain(g)), g);
    RunThen(s, [Drain(g)], Apply(s, Drain(g)), rest, t);
    acts := [Drain(g)] + rest;
  }

  lemma OneGone<T>(q: seq<T>, i: nat)
    requires NoDup(q) && i < |q|
    ensures q[i] !in Without(q, i) && |Without(q, i)| == |q| - 1
  {
    var rest := Without(q, i);
    assert forall j :: 0 <= j < |rest| ==> rest[j] == q[if j < i then j else j + 1];
  }

  /** And then it is forgotten, which makes room for the next reload. */
  lemma RetiredMakesRoom(s: State, g: GenId) returns (acts: seq<Action>, t: State)
    requires Inv(s) && g in s.retired && s.gens[g].phase.Started? && s.gens[g].requests == 0
    ensures Run(s, acts, t) && g !in t.retired && |t.retired| == |s.retired| - 1
  {
    var u: State;
    acts, u := RetiredCanFinish(s, g);
    var i: nat :| i < |s.retired| && s.retired[i] == g;
    RunOne(u, Prune(i));
    t := Apply(u, Prune(i));
    RunThen(s, acts, u, [Prune(i)], t);
    acts := acts + [Prune(i)];
    OneGone(s.retired, i);
    assert t.retired == Without(s.retired, i);
    hide *;
  }

  /** A candidate that is given up can always be closed for good. */
  lemma RejectedCanFinish(s: State, g: GenId) returns (acts: seq<Action>, t: State)
    requires Inv(s) && g in s.candidate && g in s.gens && !s.gens[g].phase.Closing?
    ensures Run(s, acts, t) && OnlyChanged(s, t, g) && t.gens[g].phase.Closed?
  {
    StepInv(s, Reject(g));
    RunOne(s, Reject(g));
    var rest: seq<Action>;
    rest, t := CloseCompletes(Apply(s, Reject(g)), g);
    RunThen(s, [Reject(g)], Apply(s, Reject(g)), rest, t);
    acts := [Reject(g)] + rest;
  }

  // ---------------------------------------------------------------- shutdown

  /** With the process going down, a generation without requests can finish, from wherever it stands. */
  lemma CanFinish(s: State, g: GenId) returns (acts: seq<Action>, t: State)
    requires Inv(s) && s.down && (g == s.current || g in s.retired) && g in s.gens && s.gens[g].requests == 0
    ensures Run(s, acts, t) && Inv(t) && OnlyChanged(s, t, g) && t.gens[g].phase.Closed?
  {
    if s.gens[g].phase.Closed? {
      acts, t := [], s;
    } else if s.gens[g].phase.Closing? {
      acts, t := CloseCompletes(s, g);
      RunInv(s, acts, t);
    } else {
      acts, t := DrainAndClose(s, g);
    }
  }

  lemma DrainAndClose(s: State, g: GenId) returns (acts: seq<Action>, t: State)
    requires Inv(s) && s.down && (g == s.current || g in s.retired) && g in s.gens && s.gens[g].requests == 0
    requires !s.gens[g].phase.Closed? && !s.gens[g].phase.Closing?
    ensures Run(s, acts, t) && Inv(t) && OnlyChanged(s, t, g) && t.gens[g].phase.Closed?
  {
    assert RequestsOk(s.gens[g]);
    StepInv(s, Drain(g));
    RunOne(s, Drain(g));
    var u := Apply(s, Drain(g));
    assert OnlyChanged(s, u, g) && u.gens[g].phase.Closing?;
    hide Inv;
    hide Apply;
    hide Enabled;
    var rest: seq<Action>;
    rest, t := CloseCompletes(u, g);
    RunThen(s, [Drain(g)], u, rest, t);
    acts := [Drain(g)] + rest;
    RunInv(s, acts, t);
  }

  /** Nothing but these generations has changed, and they are closed. */
  ghost predicate OnlyClosed(s: State, t: State, gs: seq<GenId>)
  {
    && (forall h :: h in s.gens ==> h in t.gens && (t.gens[h] == s.gens[h] || t.gens[h].phase.Closed?))
    && (forall h :: h in gs ==> h in t.gens && t.gens[h].phase.Closed?)
    && t.current == s.current && t.retired == s.retired && t.down == s.down
  }

  lemma OneMoreClosed(s: State, u: State, t: State, gs: seq<GenId>)
    requires gs != [] && OnlyChanged(s, u, gs[0]) && u.gens[gs[0]].phase.Closed? && OnlyClosed(u, t, gs[1..])
    ensures OnlyClosed(s, t, gs)
  {
    forall h | h in gs ensures h in t.gens && t.gens[h].phase.Closed? {
      if h != gs[0] { assert h in gs[1..]; }
    }
  }

  lemma {:induction false} AllCanFinish(s: State, gs: seq<GenId>) returns (acts: seq<Action>, t: State)
    requires Inv(s) && s.down
    requires forall g :: g in gs ==> g in s.gens && (g == s.current || g in s.retired) && s.gens[g].requests == 0
    ensures Run(s, acts, t) && Inv(t) && OnlyClosed(s, t, gs)
    decreases |gs|
  {
    if gs == [] {
      acts, t := [], s;
    } else {
      var g := gs[0];
      assert g in gs;
      var first, u := CanFinish(s, g);
      ClosedHasNoRequests(u, g);
      hide Inv;
      hide Run;
      assert forall h :: h in gs[1..] ==> h in gs;
      var rest;
      rest, t := AllCanFinish(u, gs[1..]);
      RunThen(s, first, u, rest, t);
      OneMoreClosed(s, u, t, gs);
      acts := first + rest;
    }
  }

  lemma ClosedHasNoRequests(s: State, g: GenId)
    requires Inv(s) && g in s.gens && s.gens[g].phase.Closed?
    ensures s.gens[g].requests == 0
  {
    assert RequestsOk(s.gens[g]);
  }

  /**
   * When the process shuts down between two reloads and its requests have ended, every generation can
   * close, and then no service is left open.
   */
  lemma ShutdownCompletes(s: State) returns (acts: seq<Action>, t: State)
    requires Inv(s) && !s.down && s.candidate == {} && s.gens[s.current].phase.Started?
    requires forall g :: g in s.gens ==> s.gens[g].requests == 0
    ensures Run(s, [Shutdown] + acts, t)
    ensures forall g :: g in s.gens ==> g in t.gens && t.gens[g].phase.Closed?
    ensures forall r :: r in t.rts ==> t.rts[r].leases == 0 && !t.rts[r].services && !t.rts[r].available
  {
    StepInv(s, Shutdown);
    RunOne(s, Shutdown);
    var u := Apply(s, Shutdown);
    assert u.gens == s.gens && u.current in u.gens && u.down && forall g :: g in u.retired ==> g in u.gens;
    hide *;
    var gs := [u.current] + u.retired;
    forall g | g in gs ensures g in u.gens && (g == u.current || g in u.retired) && u.gens[g].requests == 0 {}
    acts, t := AllCanFinish(u, gs);
    RunThen(s, [Shutdown], u, acts, t);
    DownAndClosed(u, t, gs);
    forall r | r in t.rts ensures t.rts[r].leases == 0 && !t.rts[r].services && !t.rts[r].available {
      AllClosedNoServices(t, r);
    }
  }

  lemma DownAndClosed(u: State, t: State, gs: seq<GenId>)
    requires Inv(t) && u.down && OnlyClosed(u, t, gs) && gs == [u.current] + u.retired
    ensures forall g :: g in t.gens ==> t.gens[g].phase.Closed?
    ensures forall g :: g in u.gens ==> g in t.gens
  {
    assert RolesOk(t);
    assert t.current in gs && forall g :: g in t.retired ==> g in gs;
    hide Inv;
  }
}
