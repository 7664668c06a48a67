/**
 * Role inheritance (framework/security.py:292-309). The graph of `inherits` may have cycles, and
 * may name roles that are not configured.
 */
module Roles {

  /** A configured role. */
  datatype Role = Role(permissions: set<string>, inherits: seq<string>)

  // ---------------------------------------------------------------- what inheritance means

  /** A walk along `inherits`, from one role name to the next. */
  ghost predicate Path(roles: map<string, Role>, path: seq<string>)
  {
    path != [] && forall i :: 0 <= i < |path| - 1 ==> path[i] in roles && path[i + 1] in roles[path[i]].inherits
  }

  ghost predicate PathFrom(roles: map<string, Role>, start: set<string>, path: seq<string>, role: string)
  {
    Path(roles, path) && path[0] in start && path[|path| - 1] == role
  }

  ghost predicate Reachable(roles: map<string, Role>, start: set<string>, role: string)
  {
    exists path :: PathFrom(roles, start, path, role)
  }

  /** The union of the permissions of all configured roles reachable from `start`. */
  ghost function Expansion(roles: map<string, Role>, start: set<string>): set<string>
  {
    set r, p | r in roles && Reachable(roles, start, r) && p in roles[r].permissions :: p
  }

  // ---------------------------------------------------------------- the walk

  /** Every role name there is. */
  ghost function Names(roles: map<string, Role>): set<string>
  {
    roles.Keys + set r, p | r in roles && p in roles[r].inherits :: p
  }

  /** Each role in `part` has its parents in `whole`. */
  ghost predicate ClosedIn(roles: map<string, Role>, part: set<string>, whole: set<string>)
  {
    forall r, p :: r in part && r in roles && p in roles[r].inherits ==> p in whole
  }

  ghost function Granted(roles: map<string, Role>, part: set<string>): set<string>
  {
    set r, p | r in part && r in roles && p in roles[r].permissions :: p
  }

  lemma GrantedUnion(roles: map<string, Role>, a: set<string>, b: set<string>)
    ensures Granted(roles, a + b) == Granted(roles, a) + Granted(roles, b)
  {
  }

  lemma GrantedOne(roles: map<string, Role>, role: string)
    ensures Granted(roles, {role}) == if role in roles then roles[role].permissions else {}
  {
  }

  lemma ClosedUnion(roles: map<string, Role>, a: set<string>, b: set<string>, whole: set<string>, wider: set<string>)
    requires ClosedIn(roles, a, whole) && whole <= wider && ClosedIn(roles, b, wider)
    ensures ClosedIn(roles, a + b, wider)
  {
  }

  /** What a walk from `role` has done so far: `added` are the names it marked. */
  ghost predicate WalkedFrom(roles: map<string, Role>, role: string, added: set<string>)
  {
    forall r :: r in added ==> Reachable(roles, {role}, r)
  }

  lemma WalkedThrough(roles: map<string, Role>, role: string, parent: string, a: set<string>, b: set<string>)
    requires role in roles && parent in roles[role].inherits
    requires WalkedFrom(roles, role, a) && WalkedFrom(roles, parent, b)
    ensures WalkedFrom(roles, role, a + b)
  {
    forall r | r in b ensures Reachable(roles, {role}, r) {
      ReachableThrough(roles, role, parent, r);
    }
  }

  /** The inner function `walk`: `seen` and `out` are the variables it closes over. */
  method Walk(roles: map<string, Role>, role: string, seen: set<string>, out: set<string>, ghost all: set<string>)
    returns (seen': set<string>, out': set<string>)
    requires Names(roles) <= all && role in all && seen <= all
    ensures seen + {role} <= seen' <= all
    ensures ClosedIn(roles, seen' - seen, seen')
    ensures WalkedFrom(roles, role, seen' - seen)
    ensures out' == out + Granted(roles, seen' - seen)
    decreases all - seen
  {
    hide WalkedFrom;
    hide Granted;
    seen', out' := seen, out;
    if role in seen {
      assert seen' - seen == {};
      WalkedNowhere(roles, role);
      return;
    }
    seen' := seen' + {role};
    assert seen' - seen == {role};
    SelfReachable(roles, role);
    GrantedOne(roles, role);
    if role !in roles {
      return;
    }
    var spec := roles[role];
    out' := out' + spec.permissions;
    var i := 0;
    ghost var done := {};
    assert {role} + done == {role};
    while i < |spec.inherits|
      invariant 0 <= i <= |spec.inherits|
      invariant role !in done && seen' == seen + {role} + done && done !! seen && seen' <= all
      invariant forall j :: 0 <= j < i ==> spec.inherits[j] in seen'
      invariant ClosedIn(roles, done, seen')
      invariant WalkedFrom(roles, role, {role} + done)
      invariant out' == out + Granted(roles, {role} + done)
    {
      var parent := spec.inherits[i];
      ghost var before := seen';
      assert parent in spec.inherits;
      seen', out' := Walk(roles, parent, seen', out', all);
      ghost var added := seen' - before;
      WalkedThrough(roles, role, parent, {role} + done, added);
      GrantedUnion(roles, {role} + done, added);
      ClosedUnion(roles, done, added, before, seen');
      done := done + added;
      assert {role} + done == {role} + (done - added) + added;
      i := i + 1;
    }
    assert seen' - seen == {role} + done;
    assert ClosedIn(roles, {role}, seen');
    ClosedUnion(roles, done, {role}, seen', seen');
    assert done + {role} == {role} + done;
  }

  /** Cyclic or not, the walk ends with exactly the permissions of the reachable roles. */
  method ExpandRolePermissions(roles: map<string, Role>, start: set<string>) returns (out: set<string>)
    ensures out == Expansion(roles, start)
  {
    hide Reachable;
    hide Granted;
    out := {};
    var seen, todo := {}, start;
    ghost var all := Names(roles) + start;
    NothingGranted(roles);
    while todo != {}
      invariant todo <= start && start - todo <= seen <= all
      invariant ClosedIn(roles, seen, seen)
      invariant forall r :: r in seen ==> Reachable(roles, start, r)
      invariant out == Granted(roles, seen)
      decreases |todo|
    {
      var role :| role in todo;
      ghost var before := seen;
      seen, out := Walk(roles, role, seen, out, all);
      todo := todo - {role};
      ReachableFromOneOf(roles, start, role, seen - before);
      GrantedUnion(roles, before, seen - before);
      ClosedUnion(roles, before, seen - before, before, seen);
      assert seen == before + (seen - before);
    }
    ClosedGrantsAll(roles, start, seen);
  }

  lemma NothingGranted(roles: map<string, Role>)
    ensures Granted(roles, {}) == {}
  {
  }

  lemma ReachableFromOneOf(roles: map<string, Role>, start: set<string>, role: string, added: set<string>)
    requires role in start && WalkedFrom(roles, role, added)
    ensures forall r :: r in added ==> Reachable(roles, start, r)
  {
    forall r | r in added ensures Reachable(roles, start, r) {
      var path :| PathFrom(roles, {role}, path, r);
      assert PathFrom(roles, start, path, r);
    }
  }

  /** A closed set of reachable names that holds the start grants the whole expansion. */
  lemma ClosedGrantsAll(roles: map<string, Role>, start: set<string>, seen: set<string>)
    requires start <= seen && ClosedIn(roles, seen, seen) && forall r :: r in seen ==> Reachable(roles, start, r)
    ensures Granted(roles, seen) == Expansion(roles, start)
  {
    forall r | Reachable(roles, start, r) ensures r in seen {
      var path :| PathFrom(roles, start, path, r);
      ClosedReaches(roles, seen, path);
    }
  }

  // ---------------------------------------------------------------- paths

  lemma WalkedNowhere(roles: map<string, Role>, role: string)
    ensures WalkedFrom(roles, role, {}) && Granted(roles, {}) == {}
  {
  }

  lemma SelfReachable(roles: map<string, Role>, role: string)
    ensures WalkedFrom(roles, role, {role})
  {
    assert PathFrom(roles, {role}, [role], role);
  }

  lemma ReachableThrough(roles: map<string, Role>, role: string, parent: string, r: string)
    requires role in roles && parent in roles[role].inherits && Reachable(roles, {parent}, r)
    ensures Reachable(roles, {role}, r)
  {
    var path :| PathFrom(roles, {parent}, path, r);
    var longer := [role] + path;
    assert forall i :: 0 < i < |longer| - 1 ==> longer[i] == path[i - 1] && longer[i + 1] == path[i];
    assert PathFrom(roles, {role}, longer, r);
  }

  lemma {:induction false} ClosedReaches(roles: map<string, Role>, seen: set<string>, path: seq<string>)
    requires ClosedIn(roles, seen, seen) && Path(roles, path) && path[0] in seen
    ensures path[|path| - 1] in seen
  {
    if |path| > 1 {
      assert path[1] in roles[path[0]].inherits;
      var tail := path[1..];
      assert forall i :: 0 <= i < |tail| ==> tail[i] == path[i + 1];
      ClosedReaches(roles, seen, tail);
    }
  }

  /** Fewer roles never grant more. */
  lemma ExpansionMonotone(roles: map<string, Role>, few: set<string>, many: set<string>)
    requires few <= many
    ensures Expansion(roles, few) <= Expansion(roles, many)
  {
    forall r | Reachable(roles, few, r) ensures Reachable(roles, many, r) {
      var path :| PathFrom(roles, few, path, r);
      assert PathFrom(roles, many, path, r);
    }
  }

  /** Inheriting is transitive: what an inherited role grants, the heir grants. */
  lemma HeirGrantsAll(roles: map<string, Role>, role: string, parent: string)
    requires role in roles && parent in roles[role].inherits
    ensures Expansion(roles, {parent}) <= Expansion(roles, {role})
  {
    forall r | Reachable(roles, {parent}, r) ensures Reachable(roles, {role}, r) {
      ReachableThrough(roles, role, parent, r);
    }
  }
}
