/**
 * Live reload with leased services (framework/reload.py, framework/runtime.py).
 *
 * Application generations share runtimes by lease count.  The coroutines of
 * RuntimeManager.start, RuntimeManager.close, _Generation.close, reload_now and
 * __call__ interleave at their awaits; every stretch of code between two awaits is one
 * action of the machine below.
 */
module LeaseProtocol {
  import opened Projects

  type RtId = int
  type GenId = int

  /** A ProjectRuntime: services stands for "some service attribute is not None". */
  datatype Runtime = Runtime(config: Project, available: bool, error: bool, leases: int, services: bool)

  /** What RuntimeManager.start is doing with the runtime at its position. */
  datatype Sub = Idle | Opening | Unwinding

  /**
   * Where a generation's lifespan stands.  Starting(i, _): runtimes before i are done.
   * Closing(k, _): the reversed loop has still to visit the runtimes before k.
   */
  datatype Phase =
    | Built
    | Starting(next: nat, sub: Sub)
    | Started
    | Closing(left: nat, tearing: bool)
    | Closed

  datatype Generation = Generation(
    runtimes: seq<RtId>, borrowed: set<RtId>, leased: set<RtId>,
    phase: Phase, requests: nat, idle: bool)

  datatype State = State(
    rts: map<RtId, Runtime>,
    gens: map<GenId, Generation>,
    nextRt: RtId,
    current: GenId,
    retired: seq<GenId>,
    candidate: set<GenId>,   // empty, or the one generation reload_now is building
    down: bool)              // ReloadingForge.close has begun

  /** A generation built by _build: its plan, and the slugs create_app refused to start. */
  datatype Action =
    | BeginRequest
    | EndRequest(g: GenId)
    | Build(g: GenId, plan: seq<Project>, refused: set<string>)
    | StartBegin(g: GenId)
    | StartSkip(g: GenId)
    | StartShare(g: GenId)
    | StartOpen(g: GenId)
    | StartReady(g: GenId)
    | StartFail(g: GenId)
    | StartUnwound(g: GenId)
    | StartDone(g: GenId)
    | Reject(g: GenId)
    | CloseVisit(g: GenId)
    | CloseTorn(g: GenId)
    | CloseDone(g: GenId)
    | Swap(g: GenId)
    | Drain(g: GenId)
    | Prune(i: nat)
    | Shutdown

  // ---------------------------------------------------------------- actions

  /** reload.py:139-144 and runtime.py:44-50: the runtime of `reuse` that a project may borrow. */
  ghost predicate Reusable(s: State, project: Project, refused: set<string>, r: RtId)
  {
    && s.current in s.gens && r in s.gens[s.current].runtimes && r in s.rts
    && project.slug !in refused
    && s.rts[r].available && s.rts[r].config == project
  }

  ghost function Choose(s: State, project: Project, refused: set<string>, made: RtId): (r: RtId)
    ensures Reusable(s, project, refused, r) || (r == made && forall o :: !Reusable(s, project, refused, o))
  {
    if exists o :: Reusable(s, project, refused, o) then
      var o :| Reusable(s, project, refused, o); o
    else made
  }

  ghost function Assign(s: State, plan: seq<Project>, refused: set<string>): (rs: seq<RtId>)
    ensures |rs| == |plan|
    ensures forall i :: 0 <= i < |plan| ==> rs[i] == Choose(s, plan[i], refused, s.nextRt + i)
  {
    seq(|plan|, i requires 0 <= i < |plan| => Choose(s, plan[i], refused, s.nextRt + i))
  }

  ghost function BuildGeneration(s: State, plan: seq<Project>, refused: set<string>): Generation
  {
    var rs := Assign(s, plan, refused);
    Generation(rs, set r | r in rs && r < s.nextRt, {}, Built, 0, false)
  }

  ghost function NewIds(from: RtId, n: nat): (ids: set<RtId>)
    ensures forall i :: i in ids <==> from <= i < from + n
  {
    if n == 0 then {} else NewIds(from, n - 1) + {from + n - 1}
  }

  ghost function BuildRuntimes(s: State, plan: seq<Project>, refused: set<string>): map<RtId, Runtime>
  {
    s.rts + map i | i in NewIds(s.nextRt, |plan|) ::
      Runtime(plan[i - s.nextRt], false, plan[i - s.nextRt].slug in refused, 0, false)
  }

  /** The runtime the start loop stands at. */
  function At(m: Generation): RtId
    requires m.phase.Starting? && m.phase.next < |m.runtimes|
  {
    m.runtimes[m.phase.next]
  }

  ghost predicate AtWith(s: State, g: GenId, sub: Sub)
  {
    && g in s.gens
    && var m := s.gens[g];
       && m.phase.Starting? && m.phase.sub == sub && m.phase.next < |m.runtimes|
       && At(m) in s.rts
  }

  ghost predicate ClosingAt(s: State, g: GenId, tearing: bool)
  {
    && g in s.gens
    && var m := s.gens[g];
       && m.phase.Closing? && m.phase.tearing == tearing && 0 < m.phase.left <= |m.runtimes|
       && m.runtimes[m.phase.left - 1] in s.rts
  }

  ghost predicate Enabled(s: State, a: Action)
  {
    match a
    case BeginRequest => !s.down && s.current in s.gens && s.gens[s.current].phase.Started?
    case EndRequest(g) => g in s.gens && s.gens[g].requests > 0
    case Build(g, plan, _) =>
      && !s.down && s.candidate == {} && |s.retired| < 2 && g !in s.gens
      && s.current in s.gens && s.gens[s.current].phase.Started?
      && (forall i, j :: 0 <= i < j < |plan| ==> plan[i].slug != plan[j].slug)
    case StartBegin(g) => g in s.gens && s.gens[g].phase.Built?
    case StartSkip(g) => AtWith(s, g, Idle) && s.rts[At(s.gens[g])].error
    case StartShare(g) =>
      AtWith(s, g, Idle) && !s.rts[At(s.gens[g])].error && s.rts[At(s.gens[g])].available
    case StartOpen(g) =>
      AtWith(s, g, Idle) && !s.rts[At(s.gens[g])].error && !s.rts[At(s.gens[g])].available
    case StartReady(g) => AtWith(s, g, Opening)
    case StartFail(g) => AtWith(s, g, Opening)
    case StartUnwound(g) => AtWith(s, g, Unwinding)
    case StartDone(g) =>
      g in s.gens && s.gens[g].phase == Starting(|s.gens[g].runtimes|, Idle)
    case Reject(g) =>
      g in s.candidate && g in s.gens
      && (s.gens[g].phase.Built? || s.gens[g].phase.Starting? || s.gens[g].phase.Started?)
    case CloseVisit(g) => ClosingAt(s, g, false)
    case CloseTorn(g) => ClosingAt(s, g, true)
    case CloseDone(g) => g in s.gens && s.gens[g].phase == Closing(0, false)
    case Swap(g) => g in s.candidate && g in s.gens && s.gens[g].phase.Started? && !s.down
    case Drain(g) =>
      && g in s.gens && s.gens[g].phase.Started? && s.gens[g].idle
      && (g in s.retired || (s.down && g == s.current))
    case Prune(i) =>
      i < |s.retired| && s.retired[i] in s.gens && s.gens[s.retired[i]].phase.Closed?
    case Shutdown => !s.down && s.candidate == {} && s.current in s.gens && s.gens[s.current].phase.Started?
  }

  function SetPhase(s: State, g: GenId, p: Phase): State
    requires g in s.gens
  {
    s.(gens := s.gens[g := s.gens[g].(phase := p)])
  }

  /** runtime.py:104-105: take one lease on r and move past it. */
  function Lease(s: State, g: GenId, r: RtId): State
    requires g in s.gens && r in s.rts && s.gens[g].phase.Starting?
  {
    var m := s.gens[g];
    s.(rts := s.rts[r := s.rts[r].(available := true, leases := s.rts[r].leases + 1)],
       gens := s.gens[g := m.(leased := m.leased + {r}, phase := Starting(m.phase.next + 1, Idle))])
  }

  /** runtime.py:152-161: one visit of the reversed closing loop, up to its first await. */
  function VisitRuntime(m: Generation, r: RtId, rt: Runtime): Runtime
  {
    if r in m.leased then rt.(leases := rt.leases - 1, available := rt.available && rt.leases > 1)
    else if r in m.borrowed then rt
    else rt.(available := false)
  }

  function VisitGeneration(m: Generation, r: RtId, rt: Runtime): Generation
    requires m.phase.Closing? && m.phase.left > 0
  {
    var skipped := if r in m.leased then rt.leases > 1 else r in m.borrowed;
    m.(leased := m.leased - {r},
       phase := if skipped then Closing(m.phase.left - 1, false) else Closing(m.phase.left, true))
  }

  function Visit(s: State, g: GenId, r: RtId): State
    requires g in s.gens && r in s.rts && s.gens[g].phase.Closing? && s.gens[g].phase.left > 0
  {
    s.(rts := s.rts[r := VisitRuntime(s.gens[g], r, s.rts[r])],
       gens := s.gens[g := VisitGeneration(s.gens[g], r, s.rts[r])])
  }

  function Without<T>(q: seq<T>, i: nat): seq<T>
    requires i < |q|
  {
    q[..i] + q[i + 1..]
  }

  ghost function Apply(s: State, a: Action): State
    requires Enabled(s, a)
  {
    match a
    case BeginRequest =>
      var m := s.gens[s.current];
      s.(gens := s.gens[s.current := m.(requests := m.requests + 1, idle := false)])
    case EndRequest(g) =>
      var m := s.gens[g];
      s.(gens := s.gens[g := m.(requests := m.requests - 1, idle := m.idle || m.requests == 1)])
    case Build(g, plan, refused) =>
      s.(gens := s.gens[g := BuildGeneration(s, plan, refused)],
         rts := BuildRuntimes(s, plan, refused),
         nextRt := s.nextRt + |plan|,
         candidate := {g})
    case StartBegin(g) =>
      s.(gens := s.gens[g := s.gens[g].(phase := Starting(0, Idle), idle := true)])
    case StartSkip(g) => SetPhase(s, g, Starting(s.gens[g].phase.next + 1, Idle))
    case StartShare(g) => Lease(s, g, At(s.gens[g]))
    case StartOpen(g) =>
      var r := At(s.gens[g]);
      SetPhase(s, g, Starting(s.gens[g].phase.next, Opening)).(rts := s.rts[r := s.rts[r].(services := true)])
    case StartReady(g) => Lease(s, g, At(s.gens[g]))
    case StartFail(g) => SetPhase(s, g, Starting(s.gens[g].phase.next, Unwinding))
    case StartUnwound(g) =>
      var r := At(s.gens[g]);
      SetPhase(s, g, Starting(s.gens[g].phase.next + 1, Idle))
        .(rts := s.rts[r := s.rts[r].(available := false, error := true, services := false)])
    case StartDone(g) => SetPhase(s, g, Started)
    case Reject(g) =>
      s.(gens := s.gens[g := s.gens[g].(phase := Closing(|s.gens[g].runtimes|, false), idle := true)])
    case CloseVisit(g) => Visit(s, g, s.gens[g].runtimes[s.gens[g].phase.left - 1])
    case CloseTorn(g) =>
      var k := s.gens[g].phase.left;
      var r := s.gens[g].runtimes[k - 1];
      SetPhase(s, g, Closing(k - 1, false)).(rts := s.rts[r := s.rts[r].(services := false)])
    case CloseDone(g) => SetPhase(s, g, Closed).(candidate := s.candidate - {g})
    case Swap(g) => s.(current := g, retired := s.retired + [s.current], candidate := {})
    case Drain(g) => SetPhase(s, g, Closing(|s.gens[g].runtimes|, false))
    case Prune(i) => s.(retired := Without(s.retired, i))
    case Shutdown => s.(down := true)
  }

  // ---------------------------------------------------------------- invariant

  /** The generations that hold a lease on r. */
  ghost function Holders(gens: map<GenId, Generation>, r: RtId): set<GenId>
  {
    set g | g in gens && r in gens[g].leased
  }

  ghost predicate NoDup<T>(q: seq<T>)
  {
    forall i, j :: 0 <= i < j < |q| ==> q[i] != q[j]
  }

  ghost predicate Shape(rts: map<RtId, Runtime>, m: Generation)
  {
    && NoDup(m.runtimes)
    && (forall j :: 0 <= j < |m.runtimes| ==> m.runtimes[j] in rts)
    && (forall r :: r in m.leased ==> r in m.runtimes)
    && (forall r :: r in m.borrowed ==> r in m.runtimes)
  }

  /** m is done with position j of its closing loop. */
  predicate Past(m: Generation, j: nat)
  {
    m.phase.Closed? || (m.phase.Closing? && m.phase.left <= j)
  }

  ghost predicate Settled(rts: map<RtId, Runtime>, m: Generation, r: RtId)
    requires r in rts
  {
    r in m.leased || rts[r].error
  }

  ghost predicate PhaseOk(rts: map<RtId, Runtime>, m: Generation)
    requires Shape(rts, m)
  {
    match m.phase
    case Built => m.leased == {}
    case Starting(i, sub) =>
      && i <= |m.runtimes|
      && (forall j :: i <= j < |m.runtimes| ==> m.runtimes[j] !in m.leased)
      && (forall j :: 0 <= j < i ==> Settled(rts, m, m.runtimes[j]))
      && (sub != Idle ==>
            && i < |m.runtimes| && m.runtimes[i] !in m.borrowed
            && !rts[m.runtimes[i]].available && !rts[m.runtimes[i]].error
            && (sub == Opening ==> rts[m.runtimes[i]].services))
    case Started => forall j :: 0 <= j < |m.runtimes| ==> Settled(rts, m, m.runtimes[j])
    case Closing(k, tearing) =>
      && k <= |m.runtimes|
      && (forall j :: k <= j < |m.runtimes| ==> m.runtimes[j] !in m.leased)
      && (tearing ==> 0 < k && m.runtimes[k - 1] !in m.leased && !rts[m.runtimes[k - 1]].available)
    case Closed => m.leased == {}
  }

  /** m created the runtime at j, never leased it and has not come back to close it. */
  predicate Owns(m: Generation, j: nat)
  {
    && j < |m.runtimes| && m.runtimes[j] !in m.borrowed && m.runtimes[j] !in m.leased && !Past(m, j)
    && !(m.phase.Closing? && m.phase.tearing && m.phase.left == j + 1)
  }

  ghost predicate ExclusiveFor(gens: map<GenId, Generation>, g: GenId, j: nat, h: GenId)
    requires g in gens && h in gens
  {
    g != h && Owns(gens[g], j) ==> gens[g].runtimes[j] !in gens[h].runtimes
  }

  ghost predicate Exclusive(gens: map<GenId, Generation>)
  {
    forall g, h, j: nat :: g in gens && h in gens ==> ExclusiveFor(gens, g, j, h)
  }

  /** m is inside _start_runtime or _close_runtime of r. */
  predicate Busy(m: Generation, r: RtId)
  {
    || (m.phase.Starting? && m.phase.sub != Idle && m.phase.next < |m.runtimes| && m.runtimes[m.phase.next] == r)
    || (m.phase.Closing? && m.phase.tearing && 0 < m.phase.left <= |m.runtimes| && m.runtimes[m.phase.left - 1] == r)
  }

  /** No two generations open or tear down the same runtime at a time. */
  ghost predicate BusyOnce(gens: map<GenId, Generation>)
  {
    forall g, h, r :: g in gens && h in gens && Busy(gens[g], r) && Busy(gens[h], r) ==> g == h
  }

  /** m may hold service objects of the runtime at j without a lease. */
  ghost predicate Touches(m: Generation, j: nat)
  {
    && j < |m.runtimes| && m.runtimes[j] !in m.leased
    && (match m.phase
        case Starting(i, sub) => sub != Idle && i == j
        case Closing(k, tearing) => j < k && (m.runtimes[j] !in m.borrowed || (tearing && j == k - 1))
        case _ => false)
  }

  ghost predicate TouchedBy(gens: map<GenId, Generation>, r: RtId, g: GenId, j: nat)
  {
    g in gens && Touches(gens[g], j) && gens[g].runtimes[j] == r
  }

  ghost predicate Touched(gens: map<GenId, Generation>, r: RtId)
  {
    exists g, j: nat :: TouchedBy(gens, r, g, j)
  }

  ghost predicate RuntimeOk(rts: map<RtId, Runtime>, gens: map<GenId, Generation>, r: RtId)
    requires r in rts
  {
    && rts[r].leases == |Holders(gens, r)|
    && (rts[r].available <==> rts[r].leases > 0)
    && (rts[r].available ==> rts[r].services && !rts[r].error)
    && (rts[r].services && !rts[r].available ==> Touched(gens, r))
  }

  ghost predicate RequestsOk(m: Generation)
  {
    && (m.requests > 0 ==> m.phase.Started?)
    && (m.phase.Started? ==> (m.idle <==> m.requests == 0))
    && (m.phase.Starting? ==> m.idle)
  }

  ghost predicate RolesOk(s: State)
  {
    && s.current in s.gens
    && NoDup(s.retired) && |s.retired| <= 2 && s.current !in s.retired
    && (forall c, d :: c in s.candidate && d in s.candidate ==> c == d)
    && (forall c :: c in s.candidate ==>
          && c in s.gens && c != s.current && c !in s.retired && !s.gens[c].phase.Closed?
          && s.gens[c].requests == 0
          && !s.down && s.gens[s.current].phase.Started? && |s.retired| < 2)
    && (forall g :: g in s.retired ==>
          g in s.gens && (s.gens[g].phase.Started? || s.gens[g].phase.Closing? || s.gens[g].phase.Closed?))
    && (s.gens[s.current].phase.Closing? || s.gens[s.current].phase.Closed? ==> s.down)
    && (s.down ==> s.gens[s.current].phase.Started? || s.gens[s.current].phase.Closing? || s.gens[s.current].phase.Closed?)
    && (forall g :: g in s.gens ==>
          g == s.current || g in s.candidate || g in s.retired || s.gens[g].phase.Closed?)
  }

  /** While a generation starts, what it borrowed is leased by the current one. */
  ghost predicate LoansOk(s: State)
    requires s.current in s.gens
  {
    forall g :: g in s.gens && (s.gens[g].phase.Built? || s.gens[g].phase.Starting?) ==>
      if g == s.current then s.gens[g].borrowed == {}
      else s.gens[g].borrowed <= s.gens[s.current].leased
  }

  ghost predicate Shapes(s: State)
  {
    && (forall r :: r in s.rts ==> r < s.nextRt)
    && (forall g :: g in s.gens ==> Shape(s.rts, s.gens[g]))
  }

  ghost predicate Inv(s: State)
  {
    && Shapes(s)
    && RolesOk(s)
    && (forall g :: g in s.gens ==> PhaseOk(s.rts, s.gens[g]) && RequestsOk(s.gens[g]))
    && Exclusive(s.gens)
    && BusyOnce(s.gens)
    && LoansOk(s)
    && (forall r :: r in s.rts ==> RuntimeOk(s.rts, s.gens, r))
  }

  /** reload.py:74-77: one generation with fresh runtimes, nothing started. */
  ghost predicate Init(s: State, plan: seq<Project>, refused: set<string>)
  {
    && s.gens == map[0 := Generation(seq(|plan|, i => i), {}, {}, Built, 0, false)]
    && s.rts == (map i | i in NewIds(0, |plan|) :: Runtime(plan[i], false, plan[i].slug in refused, 0, false))
    && s.nextRt == |plan| && s.current == 0 && s.retired == [] && s.candidate == {} && !s.down
  }
}
