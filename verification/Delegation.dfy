/**
 * Delegating credentials (framework/security.py:312-317, 407-420, 478-530, 545-560): an API key
 * is issued by a principal, stored with its roles and permissions comma-joined, and makes the
 * principal that may issue the next one.
 */
module Delegation {
  import opened Roles
  import Text
  import Buckets = TokenBuckets

  datatype Option<+T> = None | Some(value: T)

  /** The rate fields are at least 1 in a configuration (config.py:154-157). */
  datatype Project = Project(roles: map<string, Role>, requests: nat, window: nat, burst: Option<nat>)

  datatype Principal = Principal(
    roles: set<string>, permissions: set<string>, tenant: Option<string>, expires: Option<real>,
    requests: Option<nat>, window: Option<nat>, burst: Option<nat>)

  datatype Request = Request(
    roles: seq<string>, permissions: seq<string>, tenant: Option<string>, expires: Option<real>,
    requests: Option<nat>, window: Option<nat>, burst: Option<nat>)

  /** A row of the api_keys table; roles and permissions are text columns. */
  datatype KeyRow = KeyRow(
    roles: string, permissions: string, tenant: Option<string>, expires: Option<real>,
    requests: Option<nat>, window: Option<nat>, burst: Option<nat>, enabled: bool)

  datatype Verdict =
    | Allowed | UnknownRoles | RolesNotHeld | BeyondCaller | OtherTenant
    | NeverExpires | OutlivesCaller | FasterRate | LargerBurst

  const DELEGATE_ANY := "admin.credentials.delegate_any"
  const CREATE_KEYS := "admin.keys.create"

  predicate Configured(project: Project)
  {
    project.requests >= 1 && project.window >= 1 && (project.burst.Some? ==> project.burst.value >= 1)
  }

  // ---------------------------------------------------------------- permissions

  predicate Matches(granted: string, required: string)
  {
    || granted == "*"
    || granted == required
    || (Text.EndsWith(granted, ".*") && Text.StartsWith(required, granted[..|granted| - 1]))
  }

  predicate Has(permissions: set<string>, required: string)
  {
    required == "" || exists g :: g in permissions && Matches(g, required)
  }

  /** _permission_is_delegable, for each permission wanted. */
  predicate AllDelegable(permissions: set<string>, wanted: set<string>)
  {
    forall p :: p in wanted ==> exists g :: g in permissions && Matches(g, p)
  }

  // ---------------------------------------------------------------- the check

  /** x or d */
  function Or(x: Option<nat>, d: nat): nat
  {
    if x.Some? && x.value != 0 then x.value else d
  }

  /** The policy a principal's calls are limited by (factory.py:379-385). */
  function Policy(project: Project, requests: Option<nat>, window: Option<nat>, burst: Option<nat>): (p: Buckets.Params)
    requires Configured(project)
    ensures Buckets.Usable(p) && p.window >= 1
  {
    var b := Or(burst, if project.burst.Some? then project.burst.value else 0);
    Buckets.Params(Or(requests, project.requests), Or(window, project.window),
                   if b == 0 then Buckets.None else Buckets.Some(b))
  }

  /** The burst that policy comes to. */
  function Burst(p: Buckets.Params): nat
  {
    if p.burst.Some? && p.burst.value != 0 then p.burst.value else p.limit
  }

  ghost function CheckDelegation(project: Project, parent: Principal, q: Request): Verdict
    requires Configured(project)
  {
    var wanted := set r | r in q.roles;
    var effective := (set p | p in q.permissions) + Expansion(project.roles, wanted);
    var ours := Policy(project, parent.requests, parent.window, parent.burst);
    var asked := Policy(project, q.requests, q.window, q.burst);
    if !(wanted <= project.roles.Keys) then UnknownRoles
    else if Has(parent.permissions, DELEGATE_ANY) then Allowed
    else if !(wanted <= parent.roles) then RolesNotHeld
    else if !AllDelegable(parent.permissions, effective) then BeyondCaller
    else if q.tenant != parent.tenant then OtherTenant
    else if parent.expires.Some? && q.expires.None? then NeverExpires
    else if parent.expires.Some? && q.expires.value > parent.expires.value then OutlivesCaller
    else if asked.limit * ours.window > ours.limit * asked.window then FasterRate
    else if Burst(asked) > Burst(ours) then LargerBurst
    else Allowed
  }

  // ---------------------------------------------------------------- storing and reading a key

  function Store(q: Request): KeyRow
  {
    KeyRow(Text.Join(',', Text.SortedSet(q.roles)), Text.Join(',', Text.SortedSet(q.permissions)),
           q.tenant, q.expires, q.requests, q.window, q.burst, true)
  }

  /** None where the source answers 401. */
  ghost function Authenticate(project: Project, row: KeyRow, now: real): Option<Principal>
  {
    if !row.enabled || (row.expires.Some? && row.expires.value < now) then None
    else
      var roles := Text.Names(row.roles);
      Some(Principal(roles, Text.Names(row.permissions) + Expansion(project.roles, roles), row.tenant, row.expires,
                     row.requests, row.window, row.burst))
  }

  // ---------------------------------------------------------------- being no more than another

  /** Whatever b's permissions allow, a's allow. */
  ghost predicate Covers(a: set<string>, b: set<string>)
  {
    forall required :: Has(b, required) ==> Has(a, required)
  }

  /** Requests per second, compared by cross multiplication. */
  predicate NoFaster(p: Buckets.Params, q: Buckets.Params)
  {
    p.limit * q.window <= q.limit * p.window
  }

  predicate ExpiresNoLater(a: Option<real>, b: Option<real>)
  {
    b.Some? ==> a.Some? && a.value <= b.value
  }

  function PolicyOf(project: Project, p: Principal): (policy: Buckets.Params)
    requires Configured(project)
    ensures Buckets.Usable(policy) && policy.window >= 1
  {
    Policy(project, p.requests, p.window, p.burst)
  }

  /** p can do nothing that root cannot. */
  ghost predicate Within(project: Project, p: Principal, root: Principal)
    requires Configured(project)
  {
    && Covers(root.permissions, p.permissions)
    && p.roles <= root.roles
    && p.tenant == root.tenant
    && ExpiresNoLater(p.expires, root.expires)
    && NoFaster(PolicyOf(project, p), PolicyOf(project, root))
    && Burst(PolicyOf(project, p)) <= Burst(PolicyOf(project, root))
  }

  // ---------------------------------------------------------------- what a grant means

  ghost predicate Wildcard(granted: string, required: string, stem: string, rest: string)
  {
    granted == stem + ".*" && required == stem + "." + rest
  }

  /** A star grants everything, a stem with ".*" whatever begins with the stem and a dot, any text itself. */
  ghost predicate Grants(granted: string, required: string)
  {
    granted == "*" || granted == required || exists stem, rest :: Wildcard(granted, required, stem, rest)
  }

  lemma MatchesIffGrants(granted: string, required: string)
    ensures Matches(granted, required) <==> Grants(granted, required)
  {
    if Text.EndsWith(granted, ".*") && Text.StartsWith(required, granted[..|granted| - 1]) {
      var stem, rest := granted[..|granted| - 2], required[|granted| - 1..];
      assert granted == stem + ".*";
      assert granted[..|granted| - 1] == stem + "." && required == stem + "." + rest;
      assert Wildcard(granted, required, stem, rest);
    }
    forall stem, rest | Wildcard(granted, required, stem, rest) ensures Matches(granted, required) {
      assert granted[..|granted| - 1] == stem + "." && granted[|granted| - 2..] == ".*";
      assert required[..|stem| + 1] == stem + ".";
    }
  }

  /** Spelled out for each form that a grant can have. */
  lemma WhatAGrantMeans(granted: string, required: string, stem: string)
    ensures Matches("*", required)
    ensures Matches(stem + ".*", required) <==> |stem| < |required| && required[..|stem| + 1] == stem + "."
    ensures granted != "*" && !(exists other :: granted == other + ".*") ==> (Matches(granted, required) <==> granted == required)
  {
    MatchesIffGrants(stem + ".*", required);
    if |stem| < |required| && required[..|stem| + 1] == stem + "." {
      assert required == stem + "." + required[|stem| + 1..];
      assert Wildcard(stem + ".*", required, stem, required[|stem| + 1..]);
    } else if Matches(stem + ".*", required) {
      assert stem + ".*" != "*" by { assert |stem + ".*"| >= 2; }
      StemIsPrefix(stem, required);
    }
    MatchesIffGrants(granted, required);
    forall other, rest | Wildcard(granted, required, other, rest) ensures exists o :: granted == o + ".*" {
      assert granted == other + ".*";
    }
  }

  lemma StemIsPrefix(stem: string, required: string)
    requires Matches(stem + ".*", required)
    ensures |stem| < |required| && required[..|stem| + 1] == stem + "."
  {
    var granted := stem + ".*";
    assert |granted| == |stem| + 2 && granted[..|granted| - 1] == stem + ".";
    assert granted != "*";
    if granted == required { assert required[..|stem| + 1] == stem + "."; }
  }

  /** A principal has a permission if and only if something it holds grants it; the empty one everybody has. */
  lemma HasIffGranted(permissions: set<string>, required: string)
    ensures Has(permissions, required) <==> required == "" || exists g :: g in permissions && Grants(g, required)
    ensures "*" in permissions ==> Has(permissions, required)
  {
    forall g ensures Matches(g, required) <==> Grants(g, required) {
      MatchesIffGrants(g, required);
    }
    hide Grants;
    if "*" in permissions { assert Matches("*", required); }
  }

  /** All of the wanted may be handed on if and only if each is granted. */
  lemma DelegableIffGranted(permissions: set<string>, wanted: set<string>)
    ensures AllDelegable(permissions, wanted) <==> forall p :: p in wanted ==> exists g :: g in permissions && Grants(g, p)
  {
    forall g, p ensures Matches(g, p) <==> Grants(g, p) {
      MatchesIffGrants(g, p);
    }
    hide Grants;
    hide Matches;
  }

  // ---------------------------------------------------------------- wildcards compose

  /** A wildcard's stem ends in a dot, so it is a proper prefix of any other wildcard it matches. */
  lemma StemOfWildcard(a: string, b: string)
    requires a != "*" && a != b && Matches(a, b) && Text.EndsWith(b, ".*")
    ensures Text.StartsWith(b[..|b| - 1], a[..|a| - 1])
  {
    var stem := a[..|a| - 1];
    assert a[|a| - 2..][0] == '.' && stem[|stem| - 1] == '.';
    assert b[|b| - 2..][1] == '*' && b[..|stem|][|stem| - 1] == b[|stem| - 1];
    assert b[..|b| - 1][..|stem|] == b[..|stem|];
  }

  lemma MatchesTransitive(a: string, b: string, c: string)
    requires Matches(a, b) && Matches(b, c)
    ensures Matches(a, c)
  {
    if a != "*" && a != b && b != c {
      var stem := a[..|a| - 1];
      assert a[|a| - 2..][0] == '.' && b[..|stem|][|stem| - 1] == '.' == b[|stem| - 1];
      assert b != "*";
      StemOfWildcard(a, b);
      assert c[..|stem|] == c[..|b| - 1][..|stem|];
    }
  }

  lemma CoversAll(a: set<string>, b: set<string>)
    requires AllDelegable(a, b)
    ensures Covers(a, b)
  {
    forall required | Has(b, required) ensures Has(a, required) {
      if required != "" {
        var p :| p in b && Matches(p, required);
        var g :| g in a && Matches(g, p);
        MatchesTransitive(g, p, required);
      }
    }
  }

  lemma CrossTransitive(a: nat, x: nat, b: nat, y: nat, c: nat, z: nat)
    requires y > 0 && a * y <= b * x && b * z <= c * y
    ensures a * z <= c * x
  {
  }

  lemma WithinTransitive(project: Project, p: Principal, q: Principal, r: Principal)
    requires Configured(project) && Within(project, p, q) && Within(project, q, r)
    ensures Within(project, p, r)
  {
  }

  lemma WithinReflexive(project: Project, p: Principal)
    requires Configured(project)
    ensures Within(project, p, p)
  {
  }

  // ---------------------------------------------------------------- one delegation

  /** What a new key's principal holds, whatever the request named: the pieces, and what they expand to. */
  lemma ReadBack(project: Project, q: Request, now: real)
    ensures Authenticate(project, Store(q), now).Some? <==> q.expires.None? || now <= q.expires.value
    ensures Authenticate(project, Store(q), now).Some? ==>
            var child := Authenticate(project, Store(q), now).value;
            && child.tenant == q.tenant && child.expires == q.expires
            && child.requests == q.requests && child.window == q.window && child.burst == q.burst
            && child.roles == Text.Pieces(q.roles)
            && child.permissions == Text.Pieces(q.permissions) + Expansion(project.roles, Text.Pieces(q.roles))
  {
    Text.StoredNamesAreThePieces(q.roles);
    Text.StoredNamesAreThePieces(q.permissions);
  }

  /** Each named permission being covered is all that covering takes; an empty name grants nothing. */
  lemma CoversIffEachMatched(a: set<string>, b: set<string>)
    ensures Covers(a, b) <==> AllDelegable(a, b - {""})
  {
    if Covers(a, b) {
      forall p | p in b - {""} ensures exists g :: g in a && Matches(g, p) {
        assert Matches(p, p) && Has(b, p) && Has(a, p);
      }
    }
    if AllDelegable(a, b - {""}) {
      CoversAll(a, b - {""});
      forall required | Has(b, required) ensures Has(b - {""}, required) {
        assert !Matches("", required) || required == "";
      }
    }
  }

  predicate Known(project: Project, q: Request)
  {
    forall r :: r in q.roles ==> r in project.roles
  }

  /** The tests on names, for the names as they are asked for. */
  ghost predicate AskedIsCovered(project: Project, parent: Principal, q: Request)
  {
    var roles := set r | r in q.roles;
    roles <= parent.roles && AllDelegable(parent.permissions, (set p | p in q.permissions) + Expansion(project.roles, roles))
  }

  /** The same tests for the names as they are read back: split at commas, empty ones dropped. */
  ghost predicate ReadBackIsCovered(project: Project, parent: Principal, q: Request)
  {
    var roles := Text.Pieces(q.roles);
    && roles <= parent.roles
    && AllDelegable(parent.permissions, Text.Pieces(q.permissions) + Expansion(project.roles, roles) - {""})
  }

  /** The tests on tenant, expiry and rates. */
  predicate WithinLimits(project: Project, parent: Principal, q: Request)
    requires Configured(project)
  {
    && q.tenant == parent.tenant && ExpiresNoLater(q.expires, parent.expires)
    && NoFaster(Policy(project, q.requests, q.window, q.burst), PolicyOf(project, parent))
    && Burst(Policy(project, q.requests, q.window, q.burst)) <= Burst(PolicyOf(project, parent))
  }

  /** What the check tests, in whatever order. */
  lemma AllowedByParts(project: Project, parent: Principal, q: Request)
    requires Configured(project) && !Has(parent.permissions, DELEGATE_ANY)
    ensures CheckDelegation(project, parent, q) == Allowed <==>
            Known(project, q) && AskedIsCovered(project, parent, q) && WithinLimits(project, parent, q)
  {
    var wanted := set r | r in q.roles;
    assert wanted <= project.roles.Keys <==> forall r :: r in q.roles ==> r in project.roles;
    hide Expansion;
    hide AllDelegable;
    hide Policy;
    hide Burst;
    hide Has;
  }

  /** Whoever may delegate anything may issue any key of known roles. */
  lemma DelegateAny(project: Project, parent: Principal, q: Request)
    requires Configured(project) && Has(parent.permissions, DELEGATE_ANY)
    ensures CheckDelegation(project, parent, q) == if Known(project, q) then Allowed else UnknownRoles
  {
    var wanted := set r | r in q.roles;
    assert wanted <= project.roles.Keys <==> Known(project, q);
    hide Has;
  }

  /** What being within the issuer takes. */
  lemma WithinByParts(project: Project, parent: Principal, q: Request, now: real)
    requires Configured(project) && Authenticate(project, Store(q), now).Some?
    ensures Within(project, Authenticate(project, Store(q), now).value, parent) <==>
            ReadBackIsCovered(project, parent, q) && WithinLimits(project, parent, q)
  {
    ReadBack(project, q, now);
    CoversIffEachMatched(parent.permissions, Authenticate(project, Store(q), now).value.permissions);
    hide Expansion;
    hide AllDelegable;
    hide Covers;
    hide Policy;
    hide Burst;
  }

  /**
   * An allowed key is within its issuer if and only if the names that will be read back pass the
   * tests that the names asked for have passed.
   */
  lemma AllowedKeyIsWithinIff(project: Project, parent: Principal, q: Request, now: real)
    requires Configured(project) && !Has(parent.permissions, DELEGATE_ANY)
    requires CheckDelegation(project, parent, q) == Allowed && Authenticate(project, Store(q), now).Some?
    ensures Within(project, Authenticate(project, Store(q), now).value, parent) <==> ReadBackIsCovered(project, parent, q)
  {
    AllowedByParts(project, parent, q);
    WithinByParts(project, parent, q, now);
    hide CheckDelegation;
    hide Authenticate;
    hide Within;
  }

  /**
   * The check allows exactly the keys of known roles that will be within their issuer, if and only
   * if the two readings of the names come to the same wherever the other tests let them matter.
   */
  lemma CheckIsExactIff(project: Project, parent: Principal, q: Request, now: real)
    requires Configured(project) && !Has(parent.permissions, DELEGATE_ANY)
    requires Authenticate(project, Store(q), now).Some?
    ensures (CheckDelegation(project, parent, q) == Allowed <==>
             Known(project, q) && Within(project, Authenticate(project, Store(q), now).value, parent))
            <==>
            (Known(project, q) && WithinLimits(project, parent, q) ==>
             (AskedIsCovered(project, parent, q) <==> ReadBackIsCovered(project, parent, q)))
  {
    AllowedByParts(project, parent, q);
    WithinByParts(project, parent, q, now);
    hide CheckDelegation;
    hide Authenticate;
    hide Within;
    hide AskedIsCovered;
    hide ReadBackIsCovered;
    hide WithinLimits;
  }

  // ---------------------------------------------------------------- commas

  predicate CommaFree(q: Request)
  {
    (forall r :: r in q.roles ==> ',' !in r) && (forall p :: p in q.permissions ==> ',' !in p)
  }

  /** Without commas an allowed request is read back as it was asked for. */
  lemma CommaFreeIsReadBack(project: Project, parent: Principal, q: Request)
    requires Configured(project) && CommaFree(q) && !Has(parent.permissions, DELEGATE_ANY)
    requires CheckDelegation(project, parent, q) == Allowed
    ensures ReadBackIsCovered(project, parent, q)
  {
    AllowedByParts(project, parent, q);
    Text.PlainNamesAreTheirPieces(q.roles);
    Text.PlainNamesAreTheirPieces(q.permissions);
    var wanted := set r | r in q.roles;
    ExpansionMonotone(project.roles, Text.Pieces(q.roles), wanted);
    assert Text.Pieces(q.permissions) + Expansion(project.roles, Text.Pieces(q.roles))
        <= (set p | p in q.permissions) + Expansion(project.roles, wanted);
  }

  /** May issue keys, and read and write notes. */
  function NotesIssuer(): Principal
  {
    Principal({}, {"notes.*", CREATE_KEYS}, None, None, None, None, None)
  }

  /** One name: a note permission, a comma, and any other name. */
  function NotesAnd(x: string): Request
  {
    Request([], ["notes.read" + [','] + x], None, None, None, None, None)
  }

  /**
   * With a comma the two readings differ. For any further name x the check takes the whole as a
   * notes permission and allows it, and the key that is stored and read back holds x.
   */
  lemma CommaFreeIsNeeded(project: Project, x: string, now: real)
    requires Configured(project) && x != "" && ',' !in x
    ensures var issuer, q := NotesIssuer(), NotesAnd(x);
            && Has(issuer.permissions, CREATE_KEYS) && !Has(issuer.permissions, DELEGATE_ANY)
            && CheckDelegation(project, issuer, q) == Allowed
            && Authenticate(project, Store(q), now).Some?
            && Has(Authenticate(project, Store(q), now).value.permissions, x)
            && (!Has(issuer.permissions, x) ==> !Within(project, Authenticate(project, Store(q), now).value, issuer))
  {
    var issuer, q := NotesIssuer(), NotesAnd(x);
    var name := q.permissions[0];
    NotesNames(x);
    AllowedByParts(project, issuer, q);
    ReadBack(project, q, now);
    NothingFromNobody(project.roles);
    Text.StoredNamesAreThePieces(q.permissions);
    Text.CommaMakesTwoNames("notes.read", x);
    hide Text.Pieces;
    hide Text.Names;
    hide CheckDelegation;
    var child := Authenticate(project, Store(q), now).value;
    assert x in child.permissions && Matches(x, x);
    assert AskedIsCovered(project, issuer, q) by {
      assert Matches("notes.*", name) && "notes.*" in issuer.permissions;
    }
  }

  lemma NotesNames(x: string)
    ensures Matches("notes.*", "notes.read" + [','] + x)
    ensures !Has({"notes.*", CREATE_KEYS}, DELEGATE_ANY)
  {
    assert "notes.*"[..6] == "notes." && ("notes.read" + [','] + x)[..6] == "notes.";
    assert DELEGATE_ANY[..6][0] == 'a';
    assert CREATE_KEYS[|CREATE_KEYS| - 2..][0] == 't' && |CREATE_KEYS| != |DELEGATE_ANY|;
  }

  lemma NothingFromNobody(roles: map<string, Role>)
    ensures Text.Pieces([]) == {} && Expansion(roles, {}) == {}
  {
    forall r ensures !Reachable(roles, {}, r) {}
  }

  // ---------------------------------------------------------------- chains

  /** How one credential of a chain came from the one before: asked for, allowed, stored, used. */
  datatype Link = Link(q: Request, now: real)

  ghost predicate Issues(project: Project, parent: Principal, link: Link, child: Principal)
    requires Configured(project)
  {
    && Has(parent.permissions, CREATE_KEYS)
    && CheckDelegation(project, parent, link.q) == Allowed
    && Authenticate(project, Store(link.q), link.now) == Some(child)
  }

  /** principals[0] issued the key of principals[1], that one the key of principals[2], and so on. */
  ghost predicate Chain(project: Project, principals: seq<Principal>, links: seq<Link>)
    requires Configured(project)
  {
    && |principals| == |links| + 1
    && forall i :: 0 <= i < |links| ==> Issues(project, principals[i], links[i], principals[i + 1])
  }

  /** Every link's names pass the tests as they are read back. */
  ghost predicate AllReadBackCovered(project: Project, principals: seq<Principal>, links: seq<Link>)
    requires |principals| == |links| + 1
  {
    forall i :: 0 <= i < |links| ==> ReadBackIsCovered(project, principals[i], links[i].q)
  }

  /**
   * Along a chain of any length nobody exceeds the root: no permission beyond its wildcards, so
   * never delegate_any; the same tenant; no later expiry; no faster rate; no larger burst.
   */
  lemma {:induction false} ChainNeverEscalates(project: Project, principals: seq<Principal>, links: seq<Link>)
    requires Configured(project) && Chain(project, principals, links)
    requires !Has(principals[0].permissions, DELEGATE_ANY)
    requires AllReadBackCovered(project, principals, links)
    ensures forall i :: 0 <= i <= |links| ==>
              Within(project, principals[i], principals[0]) && !Has(principals[i].permissions, DELEGATE_ANY)
    decreases |links|
  {
    WithinReflexive(project, principals[0]);
    if links != [] {
      var n := |links| - 1;
      var before, parent, child := principals[..n + 1], principals[n], principals[n + 1];
      assert forall i :: 0 <= i <= n ==> before[i] == principals[i];
      assert forall i :: 0 <= i < n ==> links[..n][i] == links[i];
      ChainNeverEscalates(project, before, links[..n]);
      assert Issues(project, parent, links[n], child) && before[n] == parent;
      AllowedKeyIsWithinIff(project, parent, links[n].q, links[n].now);
      WithinTransitive(project, child, parent, principals[0]);
      hide Issues;
      hide Within;
      hide ReadBackIsCovered;
    }
  }

  /** The condition is exact: each key is within its issuer if and only if each link meets it. */
  lemma {:induction false} ChainWithinIff(project: Project, principals: seq<Principal>, links: seq<Link>)
    requires Configured(project) && Chain(project, principals, links)
    requires !Has(principals[0].permissions, DELEGATE_ANY)
    ensures (forall i :: 0 <= i < |links| ==> Within(project, principals[i + 1], principals[i]))
              <==> AllReadBackCovered(project, principals, links)
    decreases |links|
  {
    if links != [] {
      var first := links[0];
      assert Issues(project, principals[0], first, principals[1]);
      AllowedKeyIsWithinIff(project, principals[0], first.q, first.now);
      if Within(project, principals[1], principals[0]) {
        assert forall i :: 0 <= i <= |links[1..]| ==> principals[1..][i] == principals[i + 1];
        assert forall i :: 0 <= i < |links[1..]| ==> links[1..][i] == links[i + 1];
        assert Covers(principals[0].permissions, principals[1].permissions);
        ChainWithinIff(project, principals[1..], links[1..]);
        hide Within;
        hide ReadBackIsCovered;
        hide Issues;
        ShiftedLinks(project, principals, links);
      }
    }
  }

  lemma ShiftedLinks(project: Project, principals: seq<Principal>, links: seq<Link>)
    requires Configured(project) && |principals| == |links| + 1 && links != []
    ensures (forall i :: 0 <= i < |links| ==> Within(project, principals[i + 1], principals[i])) <==>
            Within(project, principals[1], principals[0])
            && forall i :: 0 <= i < |links[1..]| ==> Within(project, principals[1..][i + 1], principals[1..][i])
    ensures AllReadBackCovered(project, principals, links) <==>
            ReadBackIsCovered(project, principals[0], links[0].q) && AllReadBackCovered(project, principals[1..], links[1..])
  {
    hide Within;
    hide ReadBackIsCovered;
    var later, rest := principals[1..], links[1..];
    assert forall i :: 0 < i < |links| ==> later[i] == principals[i + 1] && later[i - 1] == principals[i] && rest[i - 1] == links[i];
  }

  /** In particular, names without commas keep every chain within its root. */
  lemma CommaFreeChain(project: Project, principals: seq<Principal>, links: seq<Link>)
    requires Configured(project) && Chain(project, principals, links)
    requires !Has(principals[0].permissions, DELEGATE_ANY)
    requires forall l :: l in links ==> CommaFree(l.q)
    ensures Within(project, principals[|links|], principals[0])
  {
    CommaFreeLinks(project, principals, links);
    ChainNeverEscalates(project, principals, links);
  }

  lemma {:induction false} CommaFreeLinks(project: Project, principals: seq<Principal>, links: seq<Link>)
    requires Configured(project) && Chain(project, principals, links)
    requires !Has(principals[0].permissions, DELEGATE_ANY)
    requires forall l :: l in links ==> CommaFree(l.q)
    ensures AllReadBackCovered(project, principals, links)
    decreases |links|
  {
    hide Within;
    hide ReadBackIsCovered;
    hide CheckDelegation;
    hide Authenticate;
    hide Has;
    hide CommaFree;
    if links != [] {
      var n := |links| - 1;
      var before := principals[..n + 1];
      assert forall i :: 0 <= i <= n ==> before[i] == principals[i];
      assert forall i :: 0 <= i < n ==> links[..n][i] == links[i];
      assert forall l :: l in links[..n] ==> l in links;
      CommaFreeLinks(project, before, links[..n]);
      ChainNeverEscalates(project, before, links[..n]);
      assert before[n] == principals[n] && links[n] in links && Issues(project, principals[n], links[n], principals[n + 1]);
      CommaFreeIsReadBack(project, principals[n], links[n].q);
    }
  }

  // ---------------------------------------------------------------- what the rates come to

  /** Being no faster and having no larger burst is what the token buckets make of it. */
  lemma LimiterGivesNoMore(project: Project, p: Principal, root: Principal, length: real)
    requires Configured(project) && Within(project, p, root) && length >= 0.0
    ensures var mine, theirs := Buckets.RateOf(PolicyOf(project, p)), Buckets.RateOf(PolicyOf(project, root));
            mine.capacity + Buckets.Earned(length, mine.refill) <= theirs.capacity + Buckets.Earned(length, theirs.refill)
  {
    hide Policy;
    hide Burst;
    hide Buckets.RateOf;
    hide Buckets.Earned;
    var a, b := PolicyOf(project, p), PolicyOf(project, root);
    RefillOf(a);
    RefillOf(b);
    QuotientsOrdered(a.limit, a.window, b.limit, b.window);
    Scaled(length, Buckets.RateOf(a).refill, Buckets.RateOf(b).refill);
  }

  lemma RefillOf(p: Buckets.Params)
    requires Buckets.Usable(p) && p.window >= 1
    ensures Buckets.RateOf(p) == Buckets.Rate(Burst(p) as real, p.limit as real / p.window as real)
  {
  }

  lemma QuotientsOrdered(a: nat, x: nat, b: nat, y: nat)
    requires x >= 1 && y >= 1 && a * y <= b * x
    ensures a as real / x as real <= b as real / y as real
  {
  }

  lemma Scaled(t: real, u: real, v: real)
    requires t >= 0.0 && u <= v
    ensures Buckets.Earned(t, u) <= Buckets.Earned(t, v)
  {
  }

  /**
   * What a credential is limited to: its own figures where it has them, the project's where it has
   * none or zero; the burst, of either, or else the number of requests.
   */
  lemma RateOfACredential(project: Project, p: Principal)
    requires Configured(project)
    ensures var requests := if p.requests.Some? && p.requests.value > 0 then p.requests.value else project.requests;
            var window := if p.window.Some? && p.window.value > 0 then p.window.value else project.window;
            var q := Buckets.RateOf(PolicyOf(project, p));
            && q.refill == requests as real / window as real
            && (p.burst.Some? && p.burst.value > 0 ==> q.capacity == p.burst.value as real)
            && (!(p.burst.Some? && p.burst.value > 0) && project.burst.Some? ==> q.capacity == project.burst.value as real)
            && (!(p.burst.Some? && p.burst.value > 0) && project.burst.None? ==> q.capacity == requests as real)
  {
    RefillOf(PolicyOf(project, p));
  }

  // ---------------------------------------------------------------- the check is not too strict

  /**
   * Whatever text a key row holds, its principal may issue a key with the roles it has, any of
   * its permissions and its own limits; only roles that are no longer configured stop it.
   */
  lemma OwnRightsMayBePassedOn(project: Project, row: KeyRow, now: real, q: Request)
    requires Configured(project) && Authenticate(project, row, now).Some?
    requires var me := Authenticate(project, row, now).value;
             && (forall r :: r in q.roles ==> r in me.roles) && (forall p :: p in q.permissions ==> p in me.permissions)
             && q.tenant == me.tenant && q.expires == me.expires
             && q.requests == me.requests && q.window == me.window && q.burst == me.burst
    ensures CheckDelegation(project, Authenticate(project, row, now).value, q) == if Known(project, q) then Allowed else UnknownRoles
  {
    var me := Authenticate(project, row, now).value;
    var wanted := set r | r in q.roles;
    assert wanted <= project.roles.Keys <==> Known(project, q);
    ExpansionMonotone(project.roles, wanted, me.roles);
    assert forall p :: p in me.permissions ==> Matches(p, p);
    assert AllDelegable(me.permissions, (set p | p in q.permissions) + Expansion(project.roles, wanted));
    hide Expansion;
    hide AllDelegable;
    hide Has;
  }
}
