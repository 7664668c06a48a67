/** Every action of the lease protocol keeps its invariant. */
module LeaseInvariant {
  import opened Projects
  import opened LeaseProtocol

  lemma InitInv(s: State, plan: seq<Project>, refused: set<string>)
    requires Init(s, plan, refused)
    ensures Inv(s)
  {
    InitRuntimes(s, plan, refused);
    hide RuntimeOk;
  }

  lemma InitRuntimes(s: State, plan: seq<Project>, refused: set<string>)
    requires Init(s, plan, refused)
    ensures forall r :: r in s.rts ==> RuntimeOk(s.rts, s.gens, r)
  {
    forall r | r in s.rts ensures RuntimeOk(s.rts, s.gens, r) {
      assert Holders(s.gens, r) == {};
    }
  }

  /** s and t differ in generation g and runtime r only, apart from the roles. */
  ghost predicate Local(s: State, t: State, g: GenId, r: RtId)
  {
    && g in s.gens && t.gens.Keys == s.gens.Keys
    && (forall h :: h in s.gens && h != g ==> t.gens[h] == s.gens[h])
    && t.rts.Keys == s.rts.Keys && t.nextRt == s.nextRt
    && (forall q :: q in s.rts && q != r ==> t.rts[q] == s.rts[q])
    && t.gens[g].runtimes == s.gens[g].runtimes && t.gens[g].borrowed == s.gens[g].borrowed
    && (forall q :: q != r ==> (q in t.gens[g].leased <==> q in s.gens[g].leased))
    && (r in t.gens[g].leased ==> r in s.gens[g].runtimes)
  }

  lemma ShapesLocal(s: State, t: State, g: GenId, r: RtId)
    requires Shapes(s) && Local(s, t, g, r)
    ensures Shapes(t)
  {
  }

  /** A change that a generation opening or tearing down the runtime would notice. */
  predicate Disturbed(rt: Runtime, rt': Runtime)
  {
    || (rt'.available && !rt.available) || (rt'.error && !rt.error) || (rt.services && !rt'.services)
  }

  lemma PhasesLocal(s: State, t: State, g: GenId, r: RtId, h: GenId)
    requires Shapes(s) && Shapes(t) && Local(s, t, g, r) && h in s.gens && h != g
    requires PhaseOk(s.rts, s.gens[h])
    requires r in s.rts && s.rts[r].error ==> t.rts[r].error
    requires r in s.rts && Disturbed(s.rts[r], t.rts[r]) ==> !Busy(s.gens[h], r)
    ensures PhaseOk(t.rts, t.gens[h])
  {
    var m := s.gens[h];
    if m.phase.Starting? && m.phase.sub != Idle {
      assert Busy(m, m.runtimes[m.phase.next]);
    } else if m.phase.Closing? && m.phase.tearing {
      assert Busy(m, m.runtimes[m.phase.left - 1]);
    }
  }

  lemma ExclusiveLocal(s: State, t: State, g: GenId, r: RtId)
    requires Exclusive(s.gens) && Local(s, t, g, r)
    requires forall j: nat :: Owns(t.gens[g], j) ==> Owns(s.gens[g], j)
    ensures Exclusive(t.gens)
  {
    forall a, b, j: nat | a in t.gens && b in t.gens ensures ExclusiveFor(t.gens, a, j, b) {
      assert ExclusiveFor(s.gens, a, j, b);
    }
  }

  lemma BusyLocal(s: State, t: State, g: GenId, r: RtId)
    requires BusyOnce(s.gens) && Local(s, t, g, r)
    requires forall q :: Busy(t.gens[g], q) ==>
               Busy(s.gens[g], q) || (q == r && forall h :: h in s.gens && h != g ==> !Busy(s.gens[h], r))
    ensures BusyOnce(t.gens)
  {
  }

  lemma RuntimesLocal(s: State, t: State, g: GenId, r: RtId, q: RtId)
    requires Local(s, t, g, r) && q in s.rts && q != r && RuntimeOk(s.rts, s.gens, q)
    requires forall j: nat :: Touches(s.gens[g], j) && s.gens[g].runtimes[j] == q ==> Touches(t.gens[g], j)
    ensures RuntimeOk(t.rts, t.gens, q)
  {
    assert forall h :: h in s.gens ==> (q in t.gens[h].leased <==> q in s.gens[h].leased);
    assert Holders(t.gens, q) == Holders(s.gens, q);
    if s.rts[q].services && !s.rts[q].available {
      var h, j: nat :| TouchedBy(s.gens, q, h, j);
      assert TouchedBy(t.gens, q, h, j);
    }
  }

  /** What an action on generation g and runtime r has to show for itself. */
  ghost predicate Premises(s: State, t: State, g: GenId, r: RtId)
  {
    && Local(s, t, g, r) && Shape(t.rts, t.gens[g])
    && PhaseOk(t.rts, t.gens[g]) && RequestsOk(t.gens[g])
    && (r in s.rts && s.rts[r].error ==> t.rts[r].error)
    && (forall h :: r in s.rts && h in s.gens && h != g && Disturbed(s.rts[r], t.rts[r]) ==> !Busy(s.gens[h], r))
    && (forall j: nat :: Owns(t.gens[g], j) ==> Owns(s.gens[g], j))
    && (forall q :: Busy(t.gens[g], q) ==>
          Busy(s.gens[g], q) || (q == r && forall h :: h in s.gens && h != g ==> !Busy(s.gens[h], r)))
    && (forall j: nat :: Touches(s.gens[g], j) && s.gens[g].runtimes[j] != r ==> Touches(t.gens[g], j))
    && (r in s.rts ==> RuntimeOk(t.rts, t.gens, r))
  }

  lemma LocalInv(s: State, t: State, g: GenId, r: RtId)
    requires Inv(s) && Premises(s, t, g, r)
    requires RolesOk(t) && LoansOk(t)
    ensures Inv(t)
  {
    ShapesLocal(s, t, g, r);
    forall h | h in t.gens ensures PhaseOk(t.rts, t.gens[h]) && RequestsOk(t.gens[h]) {
      if h != g { PhasesLocal(s, t, g, r, h); }
    }
    ExclusiveLocal(s, t, g, r);
    BusyLocal(s, t, g, r);
    forall q | q in t.rts ensures RuntimeOk(t.rts, t.gens, q) {
      if q != r { RuntimesLocal(s, t, g, r, q); }
    }
  }

  /** A runtime nobody changes keeps its books when leases and touches stay. */
  lemma SameRuntime(s: State, t: State, g: GenId, q: RtId)
    requires Inv(s) && Local(s, t, g, q) && q in s.rts && t.rts[q] == s.rts[q]
    requires t.gens[g].leased == s.gens[g].leased
    requires forall j: nat :: Touches(s.gens[g], j) ==> Touches(t.gens[g], j)
    ensures RuntimeOk(t.rts, t.gens, q)
  {
    assert RuntimeOk(s.rts, s.gens, q);
    assert forall h :: h in s.gens ==> (q in t.gens[h].leased <==> q in s.gens[h].leased);
    assert Holders(t.gens, q) == Holders(s.gens, q);
    if s.rts[q].services && !s.rts[q].available {
      var h, j: nat :| TouchedBy(s.gens, q, h, j);
      assert TouchedBy(t.gens, q, h, j);
    }
  }

  /** Actions of one generation: a request, a step of its start, or a step of its close. */
  predicate OfOneGeneration(a: Action)
  {
    !a.Build? && !a.Swap? && !a.Prune? && !a.Shutdown?
  }

  /** They leave the roles as they are, but that a closed candidate is one no longer. */
  lemma RolesKept(s: State, a: Action)
    requires Inv(s) && Enabled(s, a) && OfOneGeneration(a)
    ensures RolesOk(Apply(s, a))
  {
    hide Shape;
    hide Shapes;
    hide PhaseOk;
    hide RuntimeOk;
    hide Exclusive;
    hide BusyOnce;
    hide LoansOk;
  }

  lemma LoansKept(s: State, a: Action)
    requires Inv(s) && Enabled(s, a) && OfOneGeneration(a)
    ensures Apply(s, a).current in Apply(s, a).gens && LoansOk(Apply(s, a))
  {
    hide Shape;
    hide Shapes;
    hide PhaseOk;
    hide RuntimeOk;
    hide Exclusive;
    hide BusyOnce;
  }

  lemma RequestInv(s: State, a: Action)
    requires Inv(s) && Enabled(s, a) && (a.BeginRequest? || a.EndRequest?)
    ensures Inv(Apply(s, a))
  {
    RolesKept(s, a);
    LoansKept(s, a);
    hide RolesOk;
    hide LoansOk;
    hide Exclusive;
    hide BusyOnce;
    hide RuntimeOk;
    var t := Apply(s, a);
    var g := if a.BeginRequest? then s.current else a.g;
    var r := s.nextRt;
    LocalInv(s, t, g, r);
  }

  lemma StartBeginInv(s: State, a: Action)
    requires Inv(s) && a.StartBegin? && Enabled(s, a)
    ensures Inv(Apply(s, a))
  {
    RolesKept(s, a);
    LoansKept(s, a);
    hide RolesOk;
    hide LoansOk;
    hide Exclusive;
    hide BusyOnce;
    hide RuntimeOk;
    LocalInv(s, Apply(s, a), a.g, s.nextRt);
  }

  lemma StartSkipInv(s: State, a: Action)
    requires Inv(s) && a.StartSkip? && Enabled(s, a)
    ensures Inv(Apply(s, a))
  {
    RolesKept(s, a);
    LoansKept(s, a);
    hide RolesOk;
    hide LoansOk;
    hide Exclusive;
    hide BusyOnce;
    hide RuntimeOk;
    LocalInv(s, Apply(s, a), a.g, s.nextRt);
  }

  lemma StartDoneInv(s: State, a: Action)
    requires Inv(s) && a.StartDone? && Enabled(s, a)
    ensures Inv(Apply(s, a))
  {
    RolesKept(s, a);
    LoansKept(s, a);
    hide RolesOk;
    hide LoansOk;
    hide Exclusive;
    hide BusyOnce;
    hide RuntimeOk;
    LocalInv(s, Apply(s, a), a.g, s.nextRt);
  }

  lemma StartFailPremises(s: State, a: Action)
    requires Inv(s) && a.StartFail? && Enabled(s, a)
    ensures Premises(s, Apply(s, a), a.g, s.nextRt)
  {
    hide RolesOk;
    hide LoansOk;
    hide Exclusive;
    hide BusyOnce;
    hide RuntimeOk;
  }

  lemma StartFailInv(s: State, a: Action)
    requires Inv(s) && a.StartFail? && Enabled(s, a)
    ensures Inv(Apply(s, a))
  {
    RolesKept(s, a);
    LoansKept(s, a);
    StartFailPremises(s, a);
    hide *;
    LocalInv(s, Apply(s, a), a.g, s.nextRt);
  }

  lemma DrainPremises(s: State, a: Action)
    requires Inv(s) && a.Drain? && Enabled(s, a)
    ensures Premises(s, Apply(s, a), a.g, s.nextRt)
  {
    hide RolesOk;
    hide LoansOk;
    hide Exclusive;
    hide BusyOnce;
    hide RuntimeOk;
  }

  lemma DrainInv(s: State, a: Action)
    requires Inv(s) && a.Drain? && Enabled(s, a)
    ensures Inv(Apply(s, a))
  {
    RolesKept(s, a);
    LoansKept(s, a);
    DrainPremises(s, a);
    hide *;
    LocalInv(s, Apply(s, a), a.g, s.nextRt);
  }

  /** The runtime a generation stands at, not yet leased and not borrowed, is nobody else's. */
  lemma OwnedIsUnused(s: State, g: GenId, j: nat, h: GenId)
    requires Inv(s) && g in s.gens && h in s.gens && g != h && Owns(s.gens[g], j)
    ensures s.gens[g].runtimes[j] !in s.gens[h].runtimes
    ensures s.gens[g].runtimes[j] !in s.gens[h].leased && !Busy(s.gens[h], s.gens[g].runtimes[j])
  {
    var r, m := s.gens[g].runtimes[j], s.gens[h];
    assert Exclusive(s.gens) && ExclusiveFor(s.gens, g, j, h);
    assert r !in m.runtimes;
    assert Shape(s.rts, m) && PhaseOk(s.rts, m);
    assert r in m.leased ==> r in m.runtimes;
    assert Busy(m, r) ==> r in m.runtimes;
  }

  lemma LeaseTaken(s: State, t: State, g: GenId, r: RtId)
    requires Inv(s) && g in s.gens && r in s.rts && s.gens[g].phase.Starting?
    requires r !in s.gens[g].leased && t == Lease(s, g, r)
    ensures t.rts[r].leases == |Holders(t.gens, r)|
  {
    assert RuntimeOk(s.rts, s.gens, r);
    assert Holders(t.gens, r) == Holders(s.gens, r) + {g};
  }

  lemma StartSharePremises(s: State, a: Action)
    requires Inv(s) && a.StartShare? && Enabled(s, a)
    ensures Premises(s, Apply(s, a), a.g, At(s.gens[a.g]))
  {
    hide Exclusive;
    hide BusyOnce;
    var t, r := Apply(s, a), At(s.gens[a.g]);
    LeaseTaken(s, t, a.g, r);
    assert RuntimeOk(s.rts, s.gens, r);
  }

  lemma StartShareInv(s: State, a: Action)
    requires Inv(s) && a.StartShare? && Enabled(s, a)
    ensures Inv(Apply(s, a))
  {
    RolesKept(s, a);
    LoansKept(s, a);
    StartSharePremises(s, a);
    hide *;
    LocalInv(s, Apply(s, a), a.g, At(s.gens[a.g]));
  }

  lemma StartReadyPremises(s: State, a: Action)
    requires Inv(s) && a.StartReady? && Enabled(s, a)
    ensures Premises(s, Apply(s, a), a.g, At(s.gens[a.g]))
  {
    hide RolesOk;
    hide LoansOk;
    hide Exclusive;
    var t, r := Apply(s, a), At(s.gens[a.g]);
    LeaseTaken(s, t, a.g, r);
    assert RuntimeOk(s.rts, s.gens, r);
    assert Busy(s.gens[a.g], r);
  }

  lemma StartReadyInv(s: State, a: Action)
    requires Inv(s) && a.StartReady? && Enabled(s, a)
    ensures Inv(Apply(s, a))
  {
    RolesKept(s, a);
    LoansKept(s, a);
    StartReadyPremises(s, a);
    hide *;
    LocalInv(s, Apply(s, a), a.g, At(s.gens[a.g]));
  }

  lemma StartOpenPremises(s: State, a: Action)
    requires Inv(s) && a.StartOpen? && Enabled(s, a)
    ensures Premises(s, Apply(s, a), a.g, At(s.gens[a.g]))
  {
    hide Exclusive;
    hide BusyOnce;
    var t, r := Apply(s, a), At(s.gens[a.g]);
    assert RuntimeOk(s.rts, s.gens, r);
    assert s.current in s.gens && r in s.gens[s.current].leased ==> s.current in Holders(s.gens, r);
    assert Owns(s.gens[a.g], s.gens[a.g].phase.next);
    forall h | h in s.gens && h != a.g ensures !Busy(s.gens[h], r) {
      OwnedIsUnused(s, a.g, s.gens[a.g].phase.next, h);
    }
    assert Holders(t.gens, r) == Holders(s.gens, r);
    assert TouchedBy(t.gens, r, a.g, s.gens[a.g].phase.next);
  }

  lemma StartOpenInv(s: State, a: Action)
    requires Inv(s) && a.StartOpen? && Enabled(s, a)
    ensures Inv(Apply(s, a))
  {
    RolesKept(s, a);
    LoansKept(s, a);
    StartOpenPremises(s, a);
    hide *;
    LocalInv(s, Apply(s, a), a.g, At(s.gens[a.g]));
  }

  lemma StartUnwoundPremises(s: State, a: Action)
    requires Inv(s) && a.StartUnwound? && Enabled(s, a)
    ensures Premises(s, Apply(s, a), a.g, At(s.gens[a.g]))
  {
    hide RolesOk;
    hide LoansOk;
    hide Exclusive;
    var t, r := Apply(s, a), At(s.gens[a.g]);
    assert RuntimeOk(s.rts, s.gens, r);
    assert Busy(s.gens[a.g], r);
    assert Holders(t.gens, r) == Holders(s.gens, r);
  }

  lemma StartUnwoundInv(s: State, a: Action)
    requires Inv(s) && a.StartUnwound? && Enabled(s, a)
    ensures Inv(Apply(s, a))
  {
    RolesKept(s, a);
    LoansKept(s, a);
    StartUnwoundPremises(s, a);
    hide *;
    LocalInv(s, Apply(s, a), a.g, At(s.gens[a.g]));
  }

  lemma RejectPremises(s: State, a: Action)
    requires Inv(s) && a.Reject? && Enabled(s, a)
    ensures Premises(s, Apply(s, a), a.g, s.nextRt)
  {
    hide LoansOk;
    hide Exclusive;
    hide BusyOnce;
    hide RuntimeOk;
  }

  lemma RejectInv(s: State, a: Action)
    requires Inv(s) && a.Reject? && Enabled(s, a)
    ensures Inv(Apply(s, a))
  {
    RolesKept(s, a);
    LoansKept(s, a);
    RejectPremises(s, a);
    hide *;
    LocalInv(s, Apply(s, a), a.g, s.nextRt);
  }

  lemma CloseTornInv(s: State, a: Action)
    requires Inv(s) && a.CloseTorn? && Enabled(s, a)
    ensures Inv(Apply(s, a))
  {
    RolesKept(s, a);
    LoansKept(s, a);
    hide RolesOk;
    hide LoansOk;
    hide Exclusive;
    hide BusyOnce;
    var t := Apply(s, a);
    var r := s.gens[a.g].runtimes[s.gens[a.g].phase.left - 1];
    assert RuntimeOk(s.rts, s.gens, r);
    assert Holders(t.gens, r) == Holders(s.gens, r);
    LocalInv(s, t, a.g, r);
  }

  /** The runtime that the reversed closing loop looks at next. */
  function Seen(s: State, g: GenId): RtId
    requires g in s.gens && s.gens[g].phase.Closing? && 0 < s.gens[g].phase.left <= |s.gens[g].runtimes|
  {
    s.gens[g].runtimes[s.gens[g].phase.left - 1]
  }

  lemma VisitPhase(s: State, a: Action)
    requires Inv(s) && a.CloseVisit? && Enabled(s, a)
    ensures Local(s, Apply(s, a), a.g, Seen(s, a.g))
    ensures Shape(Apply(s, a).rts, Apply(s, a).gens[a.g]) && PhaseOk(Apply(s, a).rts, Apply(s, a).gens[a.g])
  {
    VisitLocal(s, a);
    VisitShape(s, a);
  }

  lemma VisitLocal(s: State, a: Action)
    requires Inv(s) && a.CloseVisit? && Enabled(s, a)
    ensures Local(s, Apply(s, a), a.g, Seen(s, a.g))
  {
    assert PhaseOk(s.rts, s.gens[a.g]);
  }

  lemma VisitShape(s: State, a: Action)
    requires Inv(s) && a.CloseVisit? && Enabled(s, a)
    ensures Shape(Apply(s, a).rts, Apply(s, a).gens[a.g]) && PhaseOk(Apply(s, a).rts, Apply(s, a).gens[a.g])
  {
    var m := s.gens[a.g];
    assert PhaseOk(s.rts, m);
    assert forall i, j :: 0 <= i < j < |m.runtimes| ==> m.runtimes[i] != m.runtimes[j];
    assert RuntimeOk(s.rts, s.gens, Seen(s, a.g));
  }

  lemma VisitBooks(s: State, a: Action)
    requires Inv(s) && a.CloseVisit? && Enabled(s, a)
    ensures RuntimeOk(Apply(s, a).rts, Apply(s, a).gens, Seen(s, a.g))
    ensures Seen(s, a.g) !in s.gens[a.g].leased && Seen(s, a.g) !in s.gens[a.g].borrowed
            ==> forall h :: h in s.gens && h != a.g ==> !Busy(s.gens[h], Seen(s, a.g))
    ensures Seen(s, a.g) in s.gens[a.g].leased
            ==> forall h :: h in s.gens && h != a.g ==> !Busy(s.gens[h], Seen(s, a.g))
  {
    var t, r, m := Apply(s, a), Seen(s, a.g), s.gens[a.g];
    var j := m.phase.left - 1;
    assert RuntimeOk(s.rts, s.gens, r);
    if r in m.leased {
      assert a.g in Holders(s.gens, r);
      assert Holders(t.gens, r) == Holders(s.gens, r) - {a.g};
      if s.rts[r].leases == 1 { assert TouchedBy(t.gens, r, a.g, j); }
      forall h | h in s.gens ensures !Busy(s.gens[h], r) {
        assert PhaseOk(s.rts, s.gens[h]);
      }
    } else if r in m.borrowed {
      VisitPhase(s, a);
      SameRuntime(s, t, a.g, r);
    } else {
      assert Owns(m, j);
      forall h | h in s.gens && h != a.g ensures r !in s.gens[h].leased && !Busy(s.gens[h], r) {
        OwnedIsUnused(s, a.g, j, h);
      }
      assert Holders(s.gens, r) == {} && Holders(t.gens, r) == {};
      assert TouchedBy(t.gens, r, a.g, j);
    }
  }

  lemma CloseVisitPremises(s: State, a: Action)
    requires Inv(s) && a.CloseVisit? && Enabled(s, a)
    ensures Premises(s, Apply(s, a), a.g, Seen(s, a.g))
  {
    hide RolesOk;
    hide LoansOk;
    hide Exclusive;
    hide BusyOnce;
    VisitPhase(s, a);
    VisitBooks(s, a);
  }

  lemma CloseVisitInv(s: State, a: Action)
    requires Inv(s) && a.CloseVisit? && Enabled(s, a)
    ensures Inv(Apply(s, a))
  {
    RolesKept(s, a);
    LoansKept(s, a);
    CloseVisitPremises(s, a);
    hide *;
    LocalInv(s, Apply(s, a), a.g, Seen(s, a.g));
  }

  lemma CloseDonePremises(s: State, a: Action)
    requires Inv(s) && a.CloseDone? && Enabled(s, a)
    ensures Premises(s, Apply(s, a), a.g, s.nextRt)
  {
    hide RolesOk;
    hide LoansOk;
    hide Exclusive;
    hide BusyOnce;
    hide RuntimeOk;
    var m := s.gens[a.g];
    assert forall r :: r in m.runtimes ==> r !in m.leased;
    assert forall r :: r in m.leased ==> r in m.runtimes;
    assert m.leased == {};
  }

  lemma CloseDoneInv(s: State, a: Action)
    requires Inv(s) && a.CloseDone? && Enabled(s, a)
    ensures Inv(Apply(s, a))
  {
    RolesKept(s, a);
    LoansKept(s, a);
    CloseDonePremises(s, a);
    hide *;
    LocalInv(s, Apply(s, a), a.g, s.nextRt);
  }

  /** Actions that move generations between roles and touch nothing else. */
  lemma RolesInv(s: State, a: Action)
    requires Inv(s) && (a.Swap? || a.Prune? || a.Shutdown?) && Enabled(s, a)
    requires RolesOk(Apply(s, a)) && LoansOk(Apply(s, a))
    ensures Inv(Apply(s, a))
  {
  }

  lemma SwapInv(s: State, a: Action)
    requires Inv(s) && a.Swap? && Enabled(s, a)
    ensures Inv(Apply(s, a))
  {
    var t := Apply(s, a);
    assert NoDup(t.retired);
    assert forall g :: g in t.gens ==> !t.gens[g].phase.Built? && !t.gens[g].phase.Starting?;
    RolesInv(s, a);
  }

  lemma PruneInv(s: State, a: Action)
    requires Inv(s) && a.Prune? && Enabled(s, a)
    ensures Inv(Apply(s, a))
  {
    var t := Apply(s, a);
    assert forall g :: g in t.retired ==> g in s.retired;
    assert forall j :: 0 <= j < |s.retired| && j != a.i ==> s.retired[j] == t.retired[if j < a.i then j else j - 1];
    RolesInv(s, a);
  }

  lemma ShutdownInv(s: State, a: Action)
    requires Inv(s) && a.Shutdown? && Enabled(s, a)
    ensures Inv(Apply(s, a))
  {
  }

  // ---------------------------------------------------------------- building a candidate

  /** What _build gives: borrowed runtimes are available and match, all others are new. */
  lemma Assigned(s: State, plan: seq<Project>, refused: set<string>)
    requires Inv(s) && s.gens[s.current].phase.Started?
    requires forall i, j :: 0 <= i < j < |plan| ==> plan[i].slug != plan[j].slug
    ensures var rs := Assign(s, plan, refused);
            && NoDup(rs)
            && forall i :: 0 <= i < |plan| ==>
                 if rs[i] < s.nextRt then Reusable(s, plan[i], refused, rs[i]) && rs[i] in s.gens[s.current].leased
                 else rs[i] == s.nextRt + i
  {
  }

  lemma BuildShapes(s: State, a: Action)
    requires Inv(s) && a.Build? && Enabled(s, a)
    ensures Shapes(Apply(s, a))
    ensures PhaseOk(Apply(s, a).rts, BuildGeneration(s, a.plan, a.refused))
  {
    Assigned(s, a.plan, a.refused);
    var t := Apply(s, a);
    forall g | g in s.gens ensures Shape(t.rts, s.gens[g]) {
      assert Shape(s.rts, s.gens[g]);
    }
    var m := BuildGeneration(s, a.plan, a.refused);
    assert Shape(t.rts, m);
  }

  lemma OwnedIsUnavailable(s: State, g: GenId, j: nat)
    requires Inv(s) && g in s.gens && Owns(s.gens[g], j)
    ensures s.gens[g].runtimes[j] in s.rts && !s.rts[s.gens[g].runtimes[j]].available
  {
    var r := s.gens[g].runtimes[j];
    assert Shape(s.rts, s.gens[g]);
    assert RuntimeOk(s.rts, s.gens, r);
    forall h | h in s.gens ensures r !in s.gens[h].leased {
      if h != g { OwnedIsUnused(s, g, j, h); }
    }
    assert Holders(s.gens, r) == {};
  }

  lemma BuildExclusive(s: State, a: Action)
    requires Inv(s) && a.Build? && Enabled(s, a)
    ensures Exclusive(Apply(s, a).gens) && BusyOnce(Apply(s, a).gens)
  {
    Assigned(s, a.plan, a.refused);
    BuildShapes(s, a);
    var t := Apply(s, a);
    var m := BuildGeneration(s, a.plan, a.refused);
    forall g, h, j: nat | g in t.gens && h in t.gens && g != h && Owns(t.gens[g], j)
      ensures t.gens[g].runtimes[j] !in t.gens[h].runtimes
    {
      var r := t.gens[g].runtimes[j];
      if g == a.g {
        assert r == s.nextRt + j;
      } else if h == a.g {
        OwnedIsUnavailable(s, g, j);
        assert forall i :: 0 <= i < |m.runtimes| ==>
            m.runtimes[i] >= s.nextRt || s.rts[m.runtimes[i]].available;
      } else {
        assert ExclusiveFor(s.gens, g, j, h);
      }
    }
    forall g, h, j: nat | g in t.gens && h in t.gens ensures ExclusiveFor(t.gens, g, j, h) { }
  }

  lemma BuildRuntimeOk(s: State, a: Action, r: RtId)
    requires Inv(s) && a.Build? && Enabled(s, a) && r in Apply(s, a).rts
    ensures RuntimeOk(Apply(s, a).rts, Apply(s, a).gens, r)
  {
    var t := Apply(s, a);
    assert Holders(t.gens, r) == if r in s.rts then Holders(s.gens, r) else {} by {
      if r !in s.rts {
        forall g | g in s.gens ensures r !in s.gens[g].leased {
          assert Shape(s.rts, s.gens[g]);
        }
      }
    }
    if r in s.rts {
      assert RuntimeOk(s.rts, s.gens, r);
      if s.rts[r].services && !s.rts[r].available {
        var h, j: nat :| TouchedBy(s.gens, r, h, j);
        assert TouchedBy(t.gens, r, h, j);
      }
    }
  }

  lemma BuildPhases(s: State, a: Action, g: GenId)
    requires Inv(s) && a.Build? && Enabled(s, a) && g in Apply(s, a).gens
    ensures Shapes(Apply(s, a)) && PhaseOk(Apply(s, a).rts, Apply(s, a).gens[g]) && RequestsOk(Apply(s, a).gens[g])
  {
    BuildShapes(s, a);
    if g != a.g { assert PhaseOk(s.rts, s.gens[g]); }
  }

  lemma BuildRoles(s: State, a: Action)
    requires Inv(s) && a.Build? && Enabled(s, a)
    ensures RolesOk(Apply(s, a)) && LoansOk(Apply(s, a))
  {
    Assigned(s, a.plan, a.refused);
    assert BuildGeneration(s, a.plan, a.refused).borrowed <= s.gens[s.current].leased;
  }

  lemma BuildInv(s: State, a: Action)
    requires Inv(s) && a.Build? && Enabled(s, a)
    ensures Inv(Apply(s, a))
  {
    var t := Apply(s, a);
    BuildShapes(s, a);
    BuildExclusive(s, a);
    BuildRoles(s, a);
    hide Enabled;
    forall g | g in t.gens ensures PhaseOk(t.rts, t.gens[g]) && RequestsOk(t.gens[g]) { BuildPhases(s, a, g); }
    forall r | r in t.rts ensures RuntimeOk(t.rts, t.gens, r) { BuildRuntimeOk(s, a, r); }
  }

  lemma StepInv(s: State, a: Action)
    requires Inv(s) && Enabled(s, a)
    ensures Inv(Apply(s, a))
  {
    hide Inv;
    hide Enabled;
    hide Apply;
    match a
    case BeginRequest => RequestInv(s, a);
    case EndRequest(_) => RequestInv(s, a);
    case Build(_, _, _) => BuildInv(s, a);
    case StartBegin(_) => StartBeginInv(s, a);
    case StartSkip(_) => StartSkipInv(s, a);
    case StartShare(_) => StartShareInv(s, a);
    case StartOpen(_) => StartOpenInv(s, a);
    case StartReady(_) => StartReadyInv(s, a);
    case StartFail(_) => StartFailInv(s, a);
    case StartUnwound(_) => StartUnwoundInv(s, a);
    case StartDone(_) => StartDoneInv(s, a);
    case Reject(_) => RejectInv(s, a);
    case CloseVisit(_) => CloseVisitInv(s, a);
    case CloseTorn(_) => CloseTornInv(s, a);
    case CloseDone(_) => CloseDoneInv(s, a);
    case Swap(_) => SwapInv(s, a);
    case Drain(_) => DrainInv(s, a);
    case Prune(_) => PruneInv(s, a);
    case Shutdown => ShutdownInv(s, a);
  }
}
