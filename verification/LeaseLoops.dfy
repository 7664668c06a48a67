/** Turns of the RuntimeManager loops, and whole reloads, as runs of machine actions. */
module LeaseLoops {
  import opened Projects
  import opened LeaseProtocol
  import opened LeaseInvariant
  import opened LeaseTheorems
  import opened RuntimeManagers

  /** t is s after one turn of the starting loop of g. */
  ghost predicate StartedOne(s: State, t: State, g: GenId, boots: bool)
    requires AtWith(s, g, Idle)
  {
    var r := At(s.gens[g]);
    && t.rts == s.rts[r := StartView(s.rts[r], boots)] && OnlyChanged(s, t, g)
    && t.gens[g].leased == (if t.rts[r].error then s.gens[g].leased else s.gens[g].leased + {r})
    && t.gens[g].phase == Starting(s.gens[g].phase.next + 1, Idle)
    && t.gens[g].runtimes == s.gens[g].runtimes && t.gens[g].borrowed == s.gens[g].borrowed
    && t.candidate == s.candidate && t.down == s.down
  }

  lemma OpenOne(s: State, g: GenId) returns (u: State)
    requires Inv(s) && Enabled(s, StartOpen(g))
    ensures Run(s, [StartOpen(g)], u) && Inv(u) && u == Apply(s, StartOpen(g))
    ensures AtWith(u, g, Opening) && At(u.gens[g]) == At(s.gens[g])
  {
    RunOne(s, StartOpen(g));
    StepInv(s, StartOpen(g));
    u := Apply(s, StartOpen(g));
  }

  lemma BootTurn(s: State, g: GenId) returns (acts: seq<Action>, t: State)
    requires Inv(s) && Enabled(s, StartOpen(g))
    ensures Run(s, acts, t) && StartedOne(s, t, g, true) && acts == [StartOpen(g), StartReady(g)]
  {
    assert RuntimeOk(s.rts, s.gens, At(s.gens[g]));
    var u := OpenOne(s, g);
    RunOne(u, StartReady(g));
    t := Apply(u, StartReady(g));
    hide Inv;
    hide RuntimeOk;
    acts := [StartOpen(g)] + [StartReady(g)];
    RunThen(s, [StartOpen(g)], u, [StartReady(g)], t);
  }

  lemma FailTurn(s: State, g: GenId) returns (acts: seq<Action>, t: State)
    requires Inv(s) && Enabled(s, StartOpen(g))
    ensures Run(s, acts, t) && StartedOne(s, t, g, false) && acts == [StartOpen(g), StartFail(g), StartUnwound(g)]
  {
    var u := OpenOne(s, g);
    FailEffect(s, g, u);
    var v := Apply(u, StartFail(g));
    t := Apply(v, StartUnwound(g));
    acts := [StartOpen(g), StartFail(g), StartUnwound(g)];
    hide *;
    RunThree(s, StartOpen(g), u, StartFail(g), v, StartUnwound(g), t);
  }

  lemma RunThree(s: State, a: Action, u: State, b: Action, v: State, c: Action, t: State)
    requires Enabled(s, a) && u == Apply(s, a) && Enabled(u, b) && v == Apply(u, b) && Enabled(v, c) && t == Apply(v, c)
    ensures Run(s, [a, b, c], t)
  {
    RunOne(v, c);
    hide Apply;
    hide Enabled;
    assert [b, c][1..] == [c] && Run(u, [b, c], t);
    assert [a, b, c][1..] == [b, c];
  }

  lemma FailEffect(s: State, g: GenId, u: State)
    requires Inv(s) && Enabled(s, StartOpen(g)) && u == Apply(s, StartOpen(g))
    ensures Enabled(u, StartFail(g)) && Enabled(Apply(u, StartFail(g)), StartUnwound(g))
    ensures StartedOne(s, Apply(Apply(u, StartFail(g)), StartUnwound(g)), g, false)
  {
    hide RuntimeOk;
    hide PhaseOk;
    hide Exclusive;
    hide BusyOnce;
    hide RolesOk;
    hide LoansOk;
  }

  lemma StartTurn(s: State, g: GenId, boots: bool) returns (acts: seq<Action>, t: State)
    requires Inv(s) && AtWith(s, g, Idle)
    ensures Run(s, acts, t) && StartedOne(s, t, g, boots)
    ensures var rt := s.rts[At(s.gens[g])];
            && (StartReady(g) in acts <==> !rt.error && !rt.available && boots)
            && (StartFail(g) in acts <==> !rt.error && !rt.available && !boots)
    ensures var r := At(s.gens[g]);
            if !s.rts[r].error && (s.rts[r].available || boots)
            then r in t.gens[g].leased && t.rts[r].available && t.rts[r].services && !t.rts[r].error
                 && t.rts[r].leases == s.rts[r].leases + 1
            else t.gens[g].leased == s.gens[g].leased && t.rts[r].error && !t.rts[r].available
  {
    var r := At(s.gens[g]);
    assert RuntimeOk(s.rts, s.gens, r);
    if s.rts[r].error {
      RunOne(s, StartSkip(g));
      acts, t := [StartSkip(g)], Apply(s, StartSkip(g));
    } else if s.rts[r].available {
      RunOne(s, StartShare(g));
      acts, t := [StartShare(g)], Apply(s, StartShare(g));
    } else if boots {
      acts, t := BootTurn(s, g);
    } else {
      acts, t := FailTurn(s, g);
    }
  }

  /** What starting makes of the runtime r of g, which came up or not. */
  ghost predicate StartedAs(s: State, t: State, g: GenId, r: RtId, boots: bool)
  {
    && g in t.gens && r in s.rts && r in t.rts && t.rts[r].config == s.rts[r].config
    && if !s.rts[r].error && (s.rts[r].available || boots)
       then r in t.gens[g].leased && t.rts[r].available && t.rts[r].services && !t.rts[r].error
            && t.rts[r].leases == s.rts[r].leases + 1
       else r !in t.gens[g].leased && t.rts[r].error && !t.rts[r].available
  }

  /** r is the same runtime in both states, and leased by g in both or in neither. */
  ghost predicate SameFor(s: State, t: State, g: GenId, r: RtId)
  {
    && g in s.gens && g in t.gens && (r in t.gens[g].leased <==> r in s.gens[g].leased)
    && r in s.rts && r in t.rts && t.rts[r] == s.rts[r]
  }

  /** One turn changes no other runtime. */
  lemma TurnKeeps(s: State, t: State, g: GenId, boots: bool)
    requires Inv(s) && AtWith(s, g, Idle) && StartedOne(s, t, g, boots)
    ensures forall j: nat :: j < |s.gens[g].runtimes| && j != s.gens[g].phase.next ==> SameFor(s, t, g, s.gens[g].runtimes[j])
  {
    assert Shape(s.rts, s.gens[g]);
    hide Inv;
    hide Shapes;
    hide StartView;
  }

  lemma TurnStarts(s: State, t: State, g: GenId, boots: bool)
    requires Inv(s) && AtWith(s, g, Idle) && StartedOne(s, t, g, boots)
    ensures StartedAs(s, t, g, At(s.gens[g]), boots)
  {
    assert RuntimeOk(s.rts, s.gens, At(s.gens[g])) && PhaseOk(s.rts, s.gens[g]);
  }

  lemma StartsAfter(s: State, u: State, t: State, g: GenId, r: RtId, boots: bool)
    requires SameFor(s, u, g, r) && StartedAs(u, t, g, r, boots)
    ensures StartedAs(s, t, g, r, boots)
  {
  }

  lemma StartsBefore(s: State, u: State, t: State, g: GenId, r: RtId, boots: bool)
    requires StartedAs(s, u, g, r, boots) && SameFor(u, t, g, r)
    ensures StartedAs(s, t, g, r, boots)
  {
  }

  lemma SameTrans(s: State, u: State, t: State, g: GenId, r: RtId)
    requires SameFor(s, u, g, r) && SameFor(u, t, g, r)
    ensures SameFor(s, t, g, r)
  {
  }

  ghost predicate StartedRest(s: State, t: State, g: GenId, boots: nat -> bool)
    requires g in s.gens && s.gens[g].phase.Starting?
  {
    && OnlyChanged(s, t, g) && t.candidate == s.candidate && t.down == s.down
    && t.gens[g].runtimes == s.gens[g].runtimes && t.gens[g].borrowed == s.gens[g].borrowed
    && t.gens[g].phase == Starting(|s.gens[g].runtimes|, Idle)
    && (forall j: nat :: j < |s.gens[g].runtimes| ==>
          if j < s.gens[g].phase.next then SameFor(s, t, g, s.gens[g].runtimes[j])
          else StartedAs(s, t, g, s.gens[g].runtimes[j], boots(j)))
  }

  lemma RestOfOne(s: State, u: State, t: State, g: GenId, boots: nat -> bool)
    requires Inv(s) && AtWith(s, g, Idle) && StartedOne(s, u, g, boots(s.gens[g].phase.next)) && StartedRest(u, t, g, boots)
    ensures StartedRest(s, t, g, boots)
  {
    var next, q := s.gens[g].phase.next, s.gens[g].runtimes;
    TurnKeeps(s, u, g, boots(next));
    TurnStarts(s, u, g, boots(next));
    forall j: nat | j < |q|
      ensures if j < next then SameFor(s, t, g, q[j]) else StartedAs(s, t, g, q[j], boots(j))
    {
      assert if j < next + 1 then SameFor(u, t, g, q[j]) else StartedAs(u, t, g, q[j], boots(j));
      hide *;
      if j < next {
        SameTrans(s, u, t, g, q[j]);
      } else if j == next {
        StartsBefore(s, u, t, g, q[j], boots(j));
      } else {
        StartsAfter(s, u, t, g, q[j], boots(j));
      }
    }
    hide SameFor;
    hide StartedAs;
    hide Inv;
    hide StartView;
  }

  /** The whole starting loop, whatever comes up and whatever does not. */
  lemma {:induction false} StartAll(s: State, g: GenId, boots: nat -> bool) returns (acts: seq<Action>, t: State)
    requires Inv(s) && g in s.gens && s.gens[g].phase.Starting? && s.gens[g].phase.sub == Idle
    ensures Run(s, acts, t) && StartedRest(s, t, g, boots)
    decreases |s.gens[g].runtimes| - s.gens[g].phase.next
  {
    var next, q := s.gens[g].phase.next, s.gens[g].runtimes;
    assert Shape(s.rts, s.gens[g]) && PhaseOk(s.rts, s.gens[g]);
    if next == |q| {
      acts, t := [], s;
    } else {
      var turn, u := StartTurn(s, g, boots(next));
      RunInv(s, turn, u);
      var rest;
      rest, t := StartAll(u, g, boots);
      RunThen(s, turn, u, rest, t);
      RestOfOne(s, u, t, g, boots);
      acts := turn + rest;
    }
  }

  ghost predicate IsUp(t: State, g: GenId, r: RtId)
  {
    && g in t.gens && r in t.gens[g].leased
    && r in t.rts && t.rts[r].available && t.rts[r].services && !t.rts[r].error
  }

  /** What a reload makes of app i of its plan. */
  ghost predicate Serves(s: State, t: State, g: GenId, project: Project, refused: set<string>, i: nat, boots: bool)
  {
    && g in t.gens && i < |t.gens[g].runtimes|
    && var r := t.gens[g].runtimes[i];
       && r in t.rts && t.rts[r].config == project
       && if project.slug in refused then t.rts[r].error
          else if exists o :: RunsAlready(s, project, o) then RunsAlready(s, project, r) && IsUp(t, g, r)
          else r !in s.rts && if boots then IsUp(t, g, r) else t.rts[r].error
  }

  /** The first two steps of starting a candidate: build it and begin its loop. */
  lemma Candidate(s: State, g: GenId, plan: seq<Project>, refused: set<string>) returns (u: State)
    requires Inv(s) && Enabled(s, Build(g, plan, refused))
    ensures Run(s, [Build(g, plan, refused), StartBegin(g)], u) && Inv(u)
    ensures u.candidate == {g} && !u.down && u.current == s.current && u.retired == s.retired && g != s.current
    ensures g in u.gens && u.gens[g].phase == Starting(0, Idle)
    ensures u.gens[g].runtimes == Apply(s, Build(g, plan, refused)).gens[g].runtimes
    ensures u.rts == Apply(s, Build(g, plan, refused)).rts
  {
    var m := Apply(s, Build(g, plan, refused));
    StepInv(s, Build(g, plan, refused));
    RunOne(s, Build(g, plan, refused));
    RunOne(m, StartBegin(g));
    StepInv(m, StartBegin(g));
    u := Apply(m, StartBegin(g));
    hide Inv;
    hide BuildGeneration;
    hide BuildRuntimes;
    RunThen(s, [Build(g, plan, refused)], m, [StartBegin(g)], u);
    assert [Build(g, plan, refused)] + [StartBegin(g)] == [Build(g, plan, refused), StartBegin(g)];
  }

  /** r is the runtime that building a candidate provides for an app. */
  ghost predicate Planned(s: State, u: State, r: RtId, project: Project, refused: set<string>)
  {
    if project.slug !in refused && exists o :: RunsAlready(s, project, o)
    then RunsAlready(s, project, r) && r in s.rts && r in u.rts && u.rts[r] == s.rts[r]
    else r !in s.rts && r in u.rts && u.rts[r] == Runtime(project, false, project.slug in refused, 0, false)
  }

  lemma ServesAs(s: State, u: State, t: State, g: GenId, project: Project, refused: set<string>, i: nat, boots: bool)
    requires g in t.gens && i < |t.gens[g].runtimes|
    requires var r := t.gens[g].runtimes[i];
             Planned(s, u, r, project, refused) && StartedAs(u, t, g, r, boots) && (RunsAlready(s, project, r) ==> !s.rts[r].error)
    ensures Serves(s, t, g, project, refused, i, boots)
  {
  }

  lemma Serving(s: State, u: State, t: State, g: GenId, plan: seq<Project>, refused: set<string>, i: nat, boots: bool)
    requires Inv(s) && Enabled(s, Build(g, plan, refused)) && i < |plan| && g in t.gens
    requires t.gens[g].runtimes == Apply(s, Build(g, plan, refused)).gens[g].runtimes
    requires u.rts == Apply(s, Build(g, plan, refused)).rts
    requires i < |t.gens[g].runtimes| ==> StartedAs(u, t, g, t.gens[g].runtimes[i], boots)
    ensures Serves(s, t, g, plan[i], refused, i, boots)
  {
    CandidateIsThePlan(s, Build(g, plan, refused), i);
    var r := t.gens[g].runtimes[i];
    assert RunsAlready(s, plan[i], r) ==> !s.rts[r].error by {
      hide Apply;
      hide Enabled;
      if RunsAlready(s, plan[i], r) { assert RuntimeOk(s.rts, s.gens, r); }
    }
    hide Apply;
    hide Enabled;
    hide Inv;
    hide RunsAlready;
    hide StartedAs;
    assert Planned(s, u, r, plan[i], refused);
    hide *;
    ServesAs(s, u, t, g, plan[i], refused, i, boots);
  }

  /** Finish the loop and make the candidate the current generation. */
  lemma SwapIn(s: State, g: GenId) returns (t: State)
    requires Inv(s) && s.candidate == {g} && !s.down && g in s.gens && s.gens[g].phase == Starting(|s.gens[g].runtimes|, Idle)
    ensures Run(s, [StartDone(g), Swap(g)], t)
    ensures t.current == g && t.retired == s.retired + [s.current] && t.candidate == {} && Enabled(t, BeginRequest)
    ensures t.rts == s.rts && g in t.gens && t.gens[g] == s.gens[g].(phase := Started)
  {
    var m := Apply(s, StartDone(g));
    t := Apply(m, Swap(g));
    RunOne(s, StartDone(g));
    RunOne(m, Swap(g));
    RunThen(s, [StartDone(g)], m, [Swap(g)], t);
    assert [StartDone(g)] + [Swap(g)] == [StartDone(g), Swap(g)];
  }

  lemma RestIsSwappable(u: State, v: State, g: GenId, boots: nat -> bool)
    requires g in u.gens && u.gens[g].phase.Starting? && StartedRest(u, v, g, boots)
    ensures v.candidate == u.candidate && v.down == u.down && g in v.gens && v.current == u.current && v.retired == u.retired
    ensures v.gens[g].phase == Starting(|v.gens[g].runtimes|, Idle) && v.gens[g].runtimes == u.gens[g].runtimes
  {
  }

  lemma StartedAt(u: State, v: State, t: State, g: GenId, boots: nat -> bool, i: nat)
    requires g in u.gens && u.gens[g].phase == Starting(0, Idle) && StartedRest(u, v, g, boots)
    requires t.rts == v.rts && g in t.gens && t.gens[g] == v.gens[g].(phase := Started)
    ensures i < |t.gens[g].runtimes| ==> StartedAs(u, t, g, t.gens[g].runtimes[i], boots(i))
    ensures t.gens[g].runtimes == u.gens[g].runtimes
  {
    if i < |t.gens[g].runtimes| { assert StartedAs(u, v, g, u.gens[g].runtimes[i], boots(i)); }
  }

  /**
   * A reload can always go through: the candidate becomes the current generation and takes requests,
   * the one before it is retired, and each app of the plan is up, shared with its predecessor or
   * started anew, except those that were refused or did not come up.
   */
  lemma ReloadSucceeds(s: State, g: GenId, plan: seq<Project>, refused: set<string>, boots: nat -> bool)
    returns (acts: seq<Action>, t: State)
    requires Inv(s) && !s.down && s.candidate == {} && |s.retired| < 2 && g !in s.gens && s.gens[s.current].phase.Started?
    requires forall i, j :: 0 <= i < j < |plan| ==> plan[i].slug != plan[j].slug
    ensures Run(s, acts, t)
    ensures t.current == g && t.retired == s.retired + [s.current] && t.candidate == {} && Enabled(t, BeginRequest)
    ensures forall i: nat :: i < |plan| ==> Serves(s, t, g, plan[i], refused, i, boots(i))
  {
    assert Enabled(s, Build(g, plan, refused));
    var u := Candidate(s, g, plan, refused);
    var loop, v := StartAll(u, g, boots);
    RunInv(u, loop, v);
    var first, last := [Build(g, plan, refused), StartBegin(g)], [StartDone(g), Swap(g)];
    RestIsSwappable(u, v, g, boots);
    t := SwapIn(v, g);
    forall i: nat | i < |plan| ensures Serves(s, t, g, plan[i], refused, i, boots(i)) {
      hide *;
      StartedAt(u, v, t, g, boots, i);
      Serving(s, u, t, g, plan, refused, i, boots(i));
    }
    hide *;
    RunThen(s, first, u, loop, v);
    RunThen(s, first + loop, v, last, t);
    acts := first + loop + last;
  }

  /** t is s after one turn of the closing loop of g. */
  ghost predicate ClosedOne(s: State, t: State, g: GenId)
    requires ClosingAt(s, g, false)
  {
    var r := Seen(s, g);
    && t.rts == s.rts[r := CloseView(s.rts[r], r in s.gens[g].leased, r in s.gens[g].borrowed)]
    && OnlyChanged(s, t, g)
    && t.gens[g].leased == s.gens[g].leased - {r}
    && t.gens[g].phase == Closing(s.gens[g].phase.left - 1, false)
  }

  lemma TornEffect(s: State, g: GenId, u: State)
    requires Inv(s) && ClosingAt(s, g, false) && u == Apply(s, CloseVisit(g)) && u.gens[g].phase.tearing
    requires Enabled(u, CloseTorn(g))
    ensures ClosedOne(s, Apply(u, CloseTorn(g)), g)
  {
    var r, m := Seen(s, g), s.gens[g];
    var m' := VisitGeneration(m, r, s.rts[r]);
    assert u.gens == s.gens[g := m'] && u.rts == s.rts[r := VisitRuntime(m, r, s.rts[r])];
  }

  lemma TornTurn(s: State, g: GenId) returns (acts: seq<Action>, t: State)
    requires Inv(s) && ClosingAt(s, g, false) && Apply(s, CloseVisit(g)).gens[g].phase.tearing
    ensures Run(s, acts, t) && ClosedOne(s, t, g)
  {
    VisitOne(s, g);
    RunOne(s, CloseVisit(g));
    var u := Apply(s, CloseVisit(g));
    TearOne(u, g);
    TornEffect(s, g, u);
    RunOne(u, CloseTorn(g));
    t := Apply(u, CloseTorn(g));
    RunThen(s, [CloseVisit(g)], u, [CloseTorn(g)], t);
    acts := [CloseVisit(g)] + [CloseTorn(g)];
  }

  lemma CloseTurn(s: State, g: GenId) returns (acts: seq<Action>, t: State)
    requires Inv(s) && ClosingAt(s, g, false)
    ensures Run(s, acts, t) && ClosedOne(s, t, g)
  {
    if Apply(s, CloseVisit(g)).gens[g].phase.tearing {
      acts, t := TornTurn(s, g);
    } else {
      RunOne(s, CloseVisit(g));
      acts, t := [CloseVisit(g)], Apply(s, CloseVisit(g));
    }
  }
}
