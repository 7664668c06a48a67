/**
 * The tables behind editor members (framework/editor_identity.py:733-770, 829-1053, 1089-1163):
 * saving roles, inviting, accepting, and replacing memberships. A transaction is one step; where
 * the source raises inside one, nothing has changed.
 */
module EditorStore {
  import opened EditorAuthority

  datatype Role = Role(nameKey: string, system: bool, governed: Governed)

  datatype User = User(nameKey: string, active: bool, founder: bool)

  datatype Membership = Membership(user: string, role: string, project: string)

  /** A pending membership, with the hash of the role as it was; hashes are taken as injective. */
  datatype Promise = Promise(role: string, project: string, fingerprint: (string, Governed))

  datatype Invitation = Invitation(promises: set<Promise>, createdBy: string, expires: real, used: bool)

  datatype RoleValues = RoleValues(name: string, governed: Governed)

  datatype Outcome = Done | Invalid | Denied | Missing | Lapsed | Conflict

  const EDITOR_PERMISSIONS: set<string> := {
    "projects.read", "projects.create", "projects.validate", "documents.read", "documents.write",
    "documents.hooks.write", "documents.graphs.write", "databases.metadata.read", "databases.rows.read",
    "databases.undeclared.read", "profiles.read", "profiles.write.own", "members.read", "members.manage",
    "roles.read", "roles.manage", "invitations.manage", "areas.read", "areas.manage", "messages.read",
    "messages.write", "notes.read", "notes.write", "attachments.read", "attachments.write",
    "calls.join", "calls.start", "audit.read"
  }

  // ---------------------------------------------------------------- fields

  predicate Alnum(c: char)
  {
    'A' <= c <= 'Z' || 'a' <= c <= 'z' || '0' <= c <= '9'
  }

  /** _ROLE_NAME; _PROJECT_SCOPE is this or "*". */
  predicate SafeName(s: string)
  {
    && 1 <= |s| <= 64 && Alnum(s[0]) && Alnum(s[|s| - 1])
    && forall i :: 0 <= i < |s| ==> Alnum(s[i]) || s[i] in " ._-"
  }

  predicate ProjectScope(s: string)
  {
    s == "*" || SafeName(s)
  }

  /** _SAFE_PATTERN, and no "..". The alphabet has no '['. */
  predicate SafePattern(s: string)
  {
    && 1 <= |s| <= 160
    && (forall i :: 0 <= i < |s| ==> Alnum(s[i]) || s[i] in "*?_.:/ -")
    && forall i :: 0 <= i < |s| - 1 ==> !(s[i] == '.' && s[i + 1] == '.')
  }

  function Lower(s: string): string
  {
    seq(|s|, i requires 0 <= i < |s| => if 'A' <= s[i] <= 'Z' then (s[i] as int + 32) as char else s[i])
  }

  /** A name begins and ends with a letter or digit, with up to 62 more or " ._-" in between. */
  lemma SafeNameIs(a: char, mid: string, b: char)
    ensures SafeName([a]) <==> Alnum(a)
    ensures SafeName([a] + mid + [b]) <==>
            Alnum(a) && Alnum(b) && |mid| <= 62 && forall c :: c in mid ==> Alnum(c) || c == ' ' || c == '.' || c == '_' || c == '-'
  {
    var s := [a] + mid + [b];
    assert s[0] == a && s[|s| - 1] == b && s[1..|s| - 1] == mid;
    assert forall i :: 0 < i < |s| - 1 ==> s[i] == mid[i - 1] && mid[i - 1] in mid;
    forall c | c in mid ensures exists i :: 0 < i < |s| - 1 && s[i] == c {
      var k :| 0 <= k < |mid| && mid[k] == c;
      assert s[k + 1] == c;
    }
  }

  predicate TwoDotsBetween(s: string, before: string, after: string)
  {
    s == before + ".." + after
  }

  /** A pattern is up to 160 characters of its alphabet in which ".." stands nowhere. */
  lemma SafePatternIs(s: string)
    ensures SafePattern(s) <==>
            && 1 <= |s| <= 160 && (forall c :: c in s ==> Alnum(c) || c == '*' || c == '?' || c == '_' || c == '.' || c == ':' || c == '/' || c == ' ' || c == '-')
            && forall before, after :: !TwoDotsBetween(s, before, after)
  {
    if i :| 0 <= i < |s| - 1 && s[i] == '.' && s[i + 1] == '.' {
      assert TwoDotsBetween(s, s[..i], s[i + 2..]);
    }
    if before, after :| TwoDotsBetween(s, before, after) {
      assert s[|before|] == '.' && s[|before| + 1] == '.';
    }
  }

  /** The same letter in the other case. */
  predicate OtherCase(c: char, d: char)
  {
    ('A' <= c <= 'Z' && d as int == c as int + 32) || ('A' <= d <= 'Z' && c as int == d as int + 32)
  }

  /** Two names are taken for the same exactly if they differ in the case of letters only. */
  lemma SameNameIff(s: string, t: string)
    ensures Lower(s) == Lower(t) <==> |s| == |t| && forall i :: 0 <= i < |s| ==> s[i] == t[i] || OtherCase(s[i], t[i])
  {
    var a, b := Lower(s), Lower(t);
    LowerAt(s, a);
    LowerAt(t, b);
    hide Lower;
    if |s| == |t| {
      assert forall i :: 0 <= i < |s| ==> (a[i] == b[i] <==> s[i] == t[i] || OtherCase(s[i], t[i]));
    }
  }

  lemma LowerAt(s: string, a: string)
    requires a == Lower(s)
    ensures |a| == |s| && forall i :: 0 <= i < |s| ==> a[i] == if 'A' <= s[i] <= 'Z' then (s[i] as int + 32) as char else s[i]
  {
  }

  /** Only what _validated_role_values lets through. */
  predicate SafeRole(g: Governed)
  {
    && 1 <= g.rank
    && (forall p :: p in g.permissions ==> p in EDITOR_PERMISSIONS || p == "*")
    && forall p :: p in g.documentAllow + g.documentDeny + g.databaseAllow ==> SafePattern(p)
  }

  class EditorIdentityStore {
    var users: map<string, User>
    var roles: map<string, Role>
    var memberships: set<Membership>
    var invitations: map<string, Invitation>
    var signedIn: set<string>

    // -------------------------------------------------------------- reading an access

    /** The roles the join finds for a user in a project. */
    ghost function Held(user: string, project: string): set<Governed>
      reads this
    {
      GovernedOf(set m | m in memberships && m.user == user && m.project in {"*", project} && m.role in roles)
    }

    ghost function GovernedOf(rows: set<Membership>): set<Governed>
      reads this
    {
      set m | m in rows && m.role in roles :: roles[m.role].governed
    }

    lemma GovernedSplit(rows: set<Membership>, m: Membership)
      requires m in rows && m.role in roles
      ensures GovernedOf(rows) == {roles[m.role].governed} + GovernedOf(rows - {m})
    {
    }

    /** a is what _access_with_connection returns. */
    ghost predicate Reads(a: Access, person: Person, project: string)
      reads this
    {
      if person.legacy || person.founder then a == FounderAccess(person)
      else a.person == person && Merges(a, Held(person.user, project))
    }

    /** m gives the user a role in the project: by itself, or everywhere. */
    ghost predicate Gives(m: Membership, user: string, project: string)
      reads this
    {
      m in memberships && m.user == user && (m.project == project || m.project == "*") && m.role in roles
    }

    lemma HeldByMembership(user: string, project: string)
      ensures forall g :: g in Held(user, project) <==> exists m :: Gives(m, user, project) && roles[m.role].governed == g
    {
    }

    /** Everything the memberships in the project and the global ones give, and nothing else. */
    ghost predicate Accumulates(a: Access, user: string, project: string)
      reads this
    {
      && (forall p :: p in a.permissions <==> exists m :: Gives(m, user, project) && p in roles[m.role].governed.permissions)
      && (forall p :: p in a.documentAllow <==> exists m :: Gives(m, user, project) && p in roles[m.role].governed.documentAllow)
      && (forall p :: p in a.documentDeny <==> exists m :: Gives(m, user, project) && p in roles[m.role].governed.documentDeny)
      && (forall p :: p in a.databaseAllow <==> exists m :: Gives(m, user, project) && p in roles[m.role].governed.databaseAllow)
      && (forall m :: Gives(m, user, project) ==> roles[m.role].governed.rank <= a.rank)
      && (a.rank == 0 || exists m :: Gives(m, user, project) && roles[m.role].governed.rank == a.rank)
    }

    lemma MergedIsAccumulated(a: Access, user: string, project: string)
      requires Merges(a, Held(user, project))
      ensures Accumulates(a, user, project)
    {
      HeldByMembership(user, project);
      forall m | Gives(m, user, project) ensures roles[m.role].governed in Held(user, project) {}
      hide Gives;
      hide Held;
    }

    method AccessWithConnection(person: Person, project: string) returns (a: Access)
      ensures Reads(a, person, project) && a.person == person
      ensures person.legacy || person.founder ==> PermitsEverything(a)
      ensures !person.legacy && !person.founder ==> Accumulates(a, person.user, project)
    {
      if person.legacy || person.founder {
        FounderAccessIsTotal(person);
        return FounderAccess(person);
      }
      var rows := set m | m in memberships && m.user == person.user && m.project in {"*", project} && m.role in roles;
      a := MergeRows(person, rows);
      MergedIsAccumulated(a, person.user, project);
    }

    /** The loop over the joined rows. */
    method MergeRows(person: Person, rows0: set<Membership>) returns (a: Access)
      requires forall m :: m in rows0 ==> m.role in roles
      ensures a.person == person && Merges(a, GovernedOf(rows0))
    {
      hide Merges;
      var rows := rows0;
      a := Access(person, {}, 0, {}, {}, {});
      MergesNothing(person);
      ghost var seen: set<Governed> := {};
      while rows != {}
        invariant rows <= rows0 && seen + GovernedOf(rows) == GovernedOf(rows0)
        invariant a.person == person && Merges(a, seen)
        decreases |rows|
      {
        var m :| m in rows;
        var row := roles[m.role].governed;
        MergesOneMore(a, seen, row);
        GovernedSplit(rows, m);
        a := Joined(a, row);
        rows, seen := rows - {m}, seen + {row};
      }
      assert GovernedOf(rows) == {};
    }

    // -------------------------------------------------------------- roles

    ghost predicate RolesAreSafe()
      reads this
    {
      forall id :: id in roles ==> SafeRole(roles[id].governed)
    }

    predicate RoleValuesAccepted(v: RoleValues, caller: Access)
    {
      SafeName(v.name) && v.governed.rank < caller.rank && SafeRole(v.governed)
    }

    /** freshId stands for the generated identifier of a new role. */
    method SaveRole(caller: Access, v: RoleValues, roleId: string, freshId: string) returns (outcome: Outcome)
      requires freshId !in roles
      modifies this
      ensures outcome.Done? <==>
                && RoleValuesAccepted(v, caller) && RoleWithin(v.governed, caller)
                && (roleId != "" ==>
                      roleId in old(roles) && !old(roles)[roleId].system && RoleWithin(old(roles)[roleId].governed, caller))
                && var id := if roleId != "" then roleId else freshId;
                   forall other :: other in old(roles) && other != id ==> old(roles)[other].nameKey != Lower(v.name)
      ensures outcome.Done? ==>
                var id := if roleId != "" then roleId else freshId;
                && roles == old(roles)[id := Role(Lower(v.name), false, v.governed)]
                && invitations.Keys == old(invitations).Keys
                && forall t :: t in invitations ==>
                     invitations[t] == old(invitations)[t].(used := roleId != "" || old(invitations)[t].used)
      ensures !outcome.Done? ==> roles == old(roles) && invitations == old(invitations)
      ensures users == old(users) && memberships == old(memberships) && signedIn == old(signedIn)
      ensures old(RolesAreSafe()) ==> RolesAreSafe()
    {
      if !RoleValuesAccepted(v, caller) {
        return Invalid;
      }
      if !RoleWithin(v.governed, caller) {
        return Denied;
      }
      var id := if roleId != "" then roleId else freshId;
      if roleId != "" {
        if roleId !in roles {
          return Missing;
        }
        if roles[roleId].system || !RoleWithin(roles[roleId].governed, caller) {
          return Denied;
        }
      }
      if exists other :: other in roles && other != id && roles[other].nameKey == Lower(v.name) {
        return Conflict;
      }
      roles := roles[id := Role(Lower(v.name), false, v.governed)];
      if roleId != "" {
        invitations := map t | t in invitations :: invitations[t].(used := true);
      }
      return Done;
    }

    // -------------------------------------------------------------- replacing memberships

    ghost predicate MayReplace(caller: Access, user: string, requested: seq<(string, string)>)
      reads this
    {
      && |requested| <= 64
      && (forall q :: q in requested ==>
            q.0 != "" && ProjectScope(q.1) && q.0 in roles
            && RoleWithin(roles[q.0].governed, caller) && roles[q.0].governed.rank < caller.rank)
      && user in users && !users[user].founder
      && 0 < caller.rank
      && forall m :: m in memberships && m.user == user && m.role in roles ==> roles[m.role].governed.rank < caller.rank
    }

    /** The loop over the requested memberships. */
    method RequestedRoles(caller: Access, requested: seq<(string, string)>) returns (within: bool, targetRank: int)
      ensures within <==> forall q :: q in requested ==> q.0 in roles && RoleWithin(roles[q.0].governed, caller)
      ensures within ==> forall q :: q in requested ==> roles[q.0].governed.rank <= targetRank
      ensures within ==> targetRank == 0 || exists q :: q in requested && roles[q.0].governed.rank == targetRank
    {
      hide RoleWithin;
      targetRank := 0;
      var i := 0;
      while i < |requested|
        invariant 0 <= i <= |requested|
        invariant forall j :: 0 <= j < i ==>
                    && requested[j].0 in roles && RoleWithin(roles[requested[j].0].governed, caller)
                    && roles[requested[j].0].governed.rank <= targetRank
        invariant targetRank == 0 || exists j :: 0 <= j < i && roles[requested[j].0].governed.rank == targetRank
      {
        if requested[i].0 !in roles || !RoleWithin(roles[requested[i].0].governed, caller) {
          assert requested[i] in requested;
          return false, targetRank;
        }
        targetRank := Ranked(roles[requested[i].0].governed.rank, targetRank);
        i := i + 1;
      }
      within := true;
    }

    method ReplaceMemberships(caller: Access, user: string, requested: seq<(string, string)>, active: bool)
      returns (outcome: Outcome)
      modifies this
      ensures outcome.Done? <==> old(MayReplace(caller, user, requested))
      ensures outcome.Done? ==>
                && memberships == (set m | m in old(memberships) && m.user != user)
                                  + (set q | q in requested :: Membership(user, q.0, q.1))
                && users == old(users)[user := old(users)[user].(active := active)]
                && invitations.Keys == old(invitations).Keys
                && (forall t :: t in invitations ==>
                      invitations[t] == old(invitations)[t].(used := old(invitations)[t].createdBy == user || old(invitations)[t].used))
                && signedIn == if active then old(signedIn) else old(signedIn) - {user}
      ensures outcome.Done? ==>
                forall a: Access, project :: Reads(a, Person(user, false, false), project) ==>
                  Contained(a, caller) && a.rank < caller.rank
      ensures !outcome.Done? ==> users == old(users) && memberships == old(memberships)
                                 && invitations == old(invitations) && signedIn == old(signedIn)
      ensures roles == old(roles)
    {
      hide RoleWithin;
      hide SafeName;
      hide Contained;
      hide Merges;
      if |requested| > 64 {
        return Invalid;
      }
      if exists q :: q in requested && (q.0 == "" || !ProjectScope(q.1)) {
        return Denied;
      }
      if user !in users {
        return Missing;
      }
      if users[user].founder {
        return Denied;
      }
      var within, targetRank := RequestedRoles(caller, requested);
      if !within {
        return Denied;
      }
      if caller.rank <= 0 || targetRank >= caller.rank
         || exists m :: m in memberships && m.user == user && m.role in roles && roles[m.role].governed.rank >= caller.rank {
        return Denied;
      }
      SetMemberships(user, requested, active);
      outcome := Done;
      NewMemberContained(caller, user);
      NewMemberBelow(caller, user);
    }

    /** The writes of that transaction. */
    method SetMemberships(user: string, requested: seq<(string, string)>, active: bool)
      requires user in users
      modifies this
      ensures memberships == (set m | m in old(memberships) && m.user != user)
                             + (set q | q in requested :: Membership(user, q.0, q.1))
      ensures users == old(users)[user := old(users)[user].(active := active)]
      ensures invitations.Keys == old(invitations).Keys
      ensures forall t :: t in invitations ==>
                invitations[t] == old(invitations)[t].(used := old(invitations)[t].createdBy == user || old(invitations)[t].used)
      ensures signedIn == if active then old(signedIn) else old(signedIn) - {user}
      ensures roles == old(roles)
    {
      memberships := (set m | m in memberships && m.user != user) + set q | q in requested :: Membership(user, q.0, q.1);
      users := users[user := users[user].(active := active)];
      invitations := map t | t in invitations ::
        if invitations[t].createdBy == user then invitations[t].(used := true) else invitations[t];
      if !active {
        signedIn := signedIn - {user};
      }
    }

    /** Everything a user holds is within the caller, so the user is. */
    lemma NewMemberContained(caller: Access, user: string)
      requires forall m :: m in memberships && m.user == user && m.role in roles ==> RoleWithin(roles[m.role].governed, caller)
      ensures forall a: Access, project :: Reads(a, Person(user, false, false), project) ==>
                Contained(a, caller) && (0 < caller.rank && !caller.person.founder ==> a.rank < caller.rank)
    {
      forall a: Access, project | Reads(a, Person(user, false, false), project)
        ensures Contained(a, caller) && (0 < caller.rank && !caller.person.founder ==> a.rank < caller.rank)
      {
        MergedContained(a, Held(user, project), caller);
      }
    }

    /** Everything a user holds ranks below the caller, so the user does. */
    lemma NewMemberBelow(caller: Access, user: string)
      requires 0 < caller.rank
      requires forall m :: m in memberships && m.user == user && m.role in roles ==> roles[m.role].governed.rank < caller.rank
      ensures forall a: Access, project :: Reads(a, Person(user, false, false), project) ==> a.rank < caller.rank
    {
    }

    // -------------------------------------------------------------- invitations

    /** The role still is what it was when it was promised. */
    predicate Unchanged(p: Promise)
      reads this
    {
      p.role in roles && p.fingerprint == (p.role, roles[p.role].governed)
    }

    ghost predicate MayInvite(caller: Access, wanted: seq<(string, string)>, hours: int)
      reads this
    {
      && 1 <= hours <= 168 && 1 <= |wanted| <= 32
      && forall w :: w in wanted ==> w.0 in roles && RoleWithin(roles[w.0].governed, caller) && ProjectScope(w.1)
    }

    /** token stands for the generated secret. */
    method CreateInvitation(caller: Access, wanted: seq<(string, string)>, hours: int, token: string, now: real)
      returns (outcome: Outcome)
      requires token !in invitations
      modifies this
      ensures outcome.Done? <==> old(MayInvite(caller, wanted, hours))
      ensures outcome.Done? ==>
                && token in invitations && !invitations[token].used
                && invitations[token].createdBy == caller.person.user && invitations[token].expires == now + 3600.0 * hours as real
                && (forall p :: p in invitations[token].promises <==>
                      (p.role, p.project) in wanted && Unchanged(p))
                && (forall t :: t in invitations && t != token ==> t in old(invitations) && invitations[t] == old(invitations)[t])
                && (forall t :: t in old(invitations) && now < old(invitations)[t].expires && !old(invitations)[t].used ==> t in invitations)
      ensures !outcome.Done? ==> invitations == old(invitations)
      ensures users == old(users) && roles == old(roles) && memberships == old(memberships) && signedIn == old(signedIn)
    {
      if !(1 <= hours <= 168) || wanted == [] || |wanted| > 32 {
        return Invalid;
      }
      var promises: set<Promise> := {};
      var i := 0;
      while i < |wanted|
        invariant 0 <= i <= |wanted|
        invariant forall j :: 0 <= j < i ==>
                    wanted[j].0 in roles && RoleWithin(roles[wanted[j].0].governed, caller) && ProjectScope(wanted[j].1)
        invariant forall p :: p in promises <==>
                    (p.role, p.project) in wanted[..i] && Unchanged(p)
      {
        var (role, project) := wanted[i];
        if role !in roles || !RoleWithin(roles[role].governed, caller) || !ProjectScope(project) {
          assert wanted[i] in wanted;
          return Denied;
        }
        promises := promises + {Promise(role, project, (role, roles[role].governed))};
        assert wanted[..i + 1] == wanted[..i] + [wanted[i]];
        i := i + 1;
      }
      assert wanted[..i] == wanted;
      invitations := map t | t in invitations && now < invitations[t].expires && !invitations[t].used :: invitations[t];
      invitations := invitations[token := Invitation(promises, caller.person.user, now + 3600.0 * hours as real, false)];
      outcome := Done;
    }

    ghost predicate CreatorPermits(creator: string, creatorAccess: Access)
      reads this
    {
      && creator in users && users[creator].active
      && Reads(creatorAccess, Person(creator, users[creator].founder, false), "*")
      && Permits(creatorAccess, "invitations.manage")
    }

    /** The creator may still hand out each promised role, and each still is what it was. */
    ghost predicate Redeemable(invitation: Invitation, creatorAccess: Access)
      reads this
    {
      && CreatorPermits(invitation.createdBy, creatorAccess)
      && forall p :: p in invitation.promises ==>
           Unchanged(p) && ProjectScope(p.project) && RoleWithin(roles[p.role].governed, creatorAccess)
    }

    ghost predicate MayAccept(token: string, nameKey: string, now: real)
      reads this
    {
      && token in invitations && !invitations[token].used && now < invitations[token].expires
      && invitations[token].promises != {}
      && (exists c :: Redeemable(invitations[token], c))
      && forall u :: u in users ==> users[u].nameKey != nameKey
    }

    /** Only the access just read decides. */
    lemma OnlyThisAccess(invitation: Invitation, access: Access)
      requires invitation.createdBy in users
      requires Reads(access, Person(invitation.createdBy, users[invitation.createdBy].founder, false), "*")
      ensures (exists c :: Redeemable(invitation, c)) <==> Redeemable(invitation, access)
    {
    }

    /** The loop over the pending memberships. */
    method PromisesHold(promises: set<Promise>, access: Access) returns (holds: bool)
      ensures holds <==> forall p :: p in promises ==>
                Unchanged(p) && ProjectScope(p.project) && RoleWithin(roles[p.role].governed, access)
    {
      hide RoleWithin;
      hide ProjectScope;
      var todo := promises;
      while todo != {}
        invariant todo <= promises
        invariant forall p :: p in promises - todo ==>
                    Unchanged(p) && ProjectScope(p.project) && RoleWithin(roles[p.role].governed, access)
        decreases |todo|
      {
        var p :| p in todo;
        if !Unchanged(p) || !ProjectScope(p.project) || !RoleWithin(roles[p.role].governed, access) {
          return false;
        }
        todo := todo - {p};
      }
      holds := true;
    }

    /**
     * The write transaction; name, password and display name were found in order before it.
     * freshId stands for the generated user id.
     */
    method AcceptInvitation(token: string, nameKey: string, freshId: string, now: real)
      returns (outcome: Outcome, ghost creatorAccess: Access)
      requires freshId !in users && forall m :: m in memberships ==> m.user != freshId
      modifies this
      ensures outcome.Done? <==> old(MayAccept(token, nameKey, now))
      ensures outcome.Done? ==>
                && old(Redeemable(invitations[token], creatorAccess))
                && invitations == old(invitations)[token := old(invitations)[token].(used := true)]
                && users == old(users)[freshId := User(nameKey, true, false)]
                && memberships == old(memberships)
                                  + (set p | p in old(invitations)[token].promises :: Membership(freshId, p.role, p.project))
      ensures outcome.Done? ==>
                forall a: Access, project :: Reads(a, Person(freshId, false, false), project) ==>
                  Contained(a, creatorAccess) &&
                  (0 < creatorAccess.rank && !creatorAccess.person.founder ==> a.rank < creatorAccess.rank)
      ensures !outcome.Done? ==> users == old(users) && memberships == old(memberships) && invitations == old(invitations)
      ensures roles == old(roles) && signedIn == old(signedIn)
    {
      hide RoleWithin;
      hide SafeName;
      hide Contained;
      hide Merges;
      hide Permits;
      hide Accumulates;
      hide PermitsEverything;
      creatorAccess := FounderAccess(Person("", false, false));
      if token !in invitations || invitations[token].used || invitations[token].expires <= now {
        return Lapsed, creatorAccess;
      }
      var row := invitations[token];
      var creator := row.createdBy;
      if creator !in users || !users[creator].active {
        return Lapsed, creatorAccess;
      }
      var access := AccessWithConnection(Person(creator, users[creator].founder, false), "*");
      creatorAccess := access;
      OnlyThisAccess(row, access);
      assert forall c :: old(Redeemable(row, c)) ==> Redeemable(row, c);
      if !Permits(access, "invitations.manage") {
        return Lapsed, creatorAccess;
      }
      if row.promises == {} {
        return Lapsed, creatorAccess;
      }
      var holds := PromisesHold(row.promises, access);
      if !holds {
        return Lapsed, creatorAccess;
      }
      if exists u :: u in users && users[u].nameKey == nameKey {
        return Conflict, creatorAccess;
      }
      invitations := invitations[token := row.(used := true)];
      users := users[freshId := User(nameKey, true, false)];
      memberships := memberships + set p | p in row.promises :: Membership(freshId, p.role, p.project);
      outcome := Done;
      NewMemberContained(access, freshId);
    }
  }
}
