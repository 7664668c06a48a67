/**
 * Route diagnostics (framework/doctor.py:39-60, 150-172): a check of pairs of generated routes,
 * and what it says about which route answers which request.
 */
module Routes {
  import opened Text

  /** One generated route: method, path as normalized, owner, path as registered. */
  datatype Spec = Spec(method_: string, path: string, owner: string, raw: string)

  datatype Diagnostic =
    | Collision(method_: string, path: string, first: string, second: string)
    | Shadow(method_: string, raw: string, owner: string, laterRaw: string, laterOwner: string)

  // ---------------------------------------------------------------- paths

  /** path.strip("/") */
  function StripSlashes(s: string): string
    decreases |s|
  {
    if s != [] && s[0] == '/' then StripSlashes(s[1..])
    else if s != [] && s[|s| - 1] == '/' then StripSlashes(s[..|s| - 1])
    else s
  }

  /** How many characters s begins with that are not braces. */
  function Braceless(s: string): (n: nat)
    ensures n <= |s| && (forall i :: 0 <= i < n ==> s[i] != '{' && s[i] != '}')
    ensures n < |s| ==> s[n] == '{' || s[n] == '}'
  {
    if s == [] || s[0] == '{' || s[0] == '}' then 0 else 1 + Braceless(s[1..])
  }

  /** _PATH_PARAM.sub("{}", path) */
  function BlankParameters(s: string): string
    decreases |s|
  {
    if s == [] then []
    else
      var n := if s[0] == '{' then Braceless(s[1..]) else 0;
      if n > 0 && n + 1 < |s| && s[n + 1] == '}' then "{}" + BlankParameters(s[n + 2..])
      else [s[0]] + BlankParameters(s[1..])
  }

  /** re.sub(r"/{2,}", "/", path) */
  function SingleSlashes(s: string): string
  {
    if |s| >= 2 && s[0] == '/' && s[1] == '/' then SingleSlashes(s[1..])
    else if s == [] then []
    else [s[0]] + SingleSlashes(s[1..])
  }

  function NormalizeRoute(path: string): string
  {
    SingleSlashes(BlankParameters("/" + StripSlashes(path)))
  }

  function Filled(parts: seq<string>): seq<string>
  {
    if parts == [] then [] else (if parts[0] == [] then [] else [parts[0]]) + Filled(parts[1..])
  }

  /** _path_segments */
  function PathSegments(path: string): seq<string>
  {
    Filled(Split('/', "/" + StripSlashes(path)))
  }

  predicate IsParam(segment: string)
  {
    StartsWith(segment, "{") && EndsWith(segment, "}")
  }

  // ---------------------------------------------------------------- shadows

  /** Each segment of the earlier path is a parameter or the later path's own text, one is a parameter. */
  predicate Shadows(earlier: string, later: string)
  {
    var a, b := PathSegments(earlier), PathSegments(later);
    && |a| == |b|
    && (forall i :: 0 <= i < |a| ==> IsParam(a[i]) || a[i] == b[i])
    && (exists i :: 0 <= i < |a| && IsParam(a[i]))
    && earlier != later
  }

  method RouteShadows(earlier: string, later: string) returns (shadows: bool)
    ensures shadows <==> Shadows(earlier, later)
  {
    var a, b := PathSegments(earlier), PathSegments(later);
    if |a| != |b| {
      return false;
    }
    var dynamic := false;
    for i := 0 to |a|
      invariant forall j :: 0 <= j < i ==> IsParam(a[j]) || a[j] == b[j]
      invariant dynamic <==> exists j :: 0 <= j < i && IsParam(a[j])
    {
      if IsParam(a[i]) {
        dynamic := true;
        continue;
      }
      if a[i] != b[i] {
        return false;
      }
    }
    return dynamic && earlier != later;
  }

  // ---------------------------------------------------------------- the two loops

  predicate SameKey(a: Spec, b: Spec)
  {
    a.method_ == b.method_ && a.path == b.path
  }

  ghost predicate Collides(specs: seq<Spec>, i: int, j: int)
  {
    0 <= i < j < |specs| && SameKey(specs[i], specs[j])
  }

  ghost predicate IsShadowed(specs: seq<Spec>, i: int, j: int)
  {
    0 <= i < j < |specs| && specs[i].method_ == specs[j].method_ && Shadows(specs[i].raw, specs[j].raw)
  }

  function CollisionOf(a: Spec, b: Spec): Diagnostic
  {
    Collision(b.method_, b.path, a.owner, b.owner)
  }

  function ShadowOf(a: Spec, b: Spec): Diagnostic
  {
    Shadow(a.method_, a.raw, a.owner, b.raw, b.owner)
  }

  /** The first of two colliding routes has no earlier one with the same key. */
  ghost predicate FirstCollides(specs: seq<Spec>, i: int, j: int)
  {
    Collides(specs, i, j) && forall k :: 0 <= k < i ==> !SameKey(specs[k], specs[j])
  }

  /** The part of project_diagnostics about routes. */
  method RouteDiagnostics(specs: seq<Spec>) returns (out: seq<Diagnostic>)
    ensures forall d :: d in out <==>
              || (exists i, j :: FirstCollides(specs, i, j)
                    && d == Collision(specs[i].method_, specs[i].path, specs[i].owner, specs[j].owner))
              || (exists i, j :: IsShadowed(specs, i, j)
                    && d == Shadow(specs[i].method_, specs[i].raw, specs[i].owner, specs[j].raw, specs[j].owner))
  {
    var collisions := RouteCollisions(specs);
    var shadows := RouteShadowPairs(specs);
    out := collisions + shadows;
  }

  function Key(spec: Spec): (string, string)
  {
    (spec.method_, spec.path)
  }

  /** Route i is the first with this key. */
  ghost predicate IsFirst(specs: seq<Spec>, i: int, key: (string, string))
  {
    0 <= i < |specs| && Key(specs[i]) == key && forall k :: 0 <= k < i ==> Key(specs[k]) != key
  }

  /** seen holds, for each key of the first j routes, the first route with it; at says where that is. */
  ghost predicate Remembers(specs: seq<Spec>, j: nat, seen: map<(string, string), Spec>, at: map<(string, string), int>)
    requires j <= |specs|
  {
    && seen.Keys == at.Keys
    && (forall i :: 0 <= i < j ==> Key(specs[i]) in at)
    && forall key :: key in at ==> at[key] < j && IsFirst(specs, at[key], key) && seen[key] == specs[at[key]]
  }

  /** out reports the collisions of the first j routes, and nothing else. */
  ghost predicate CollisionsListed(specs: seq<Spec>, j: nat, out: seq<Diagnostic>)
  {
    forall d :: d in out <==> IsCollision(specs, j, d)
  }

  ghost predicate IsCollision(specs: seq<Spec>, j: nat, d: Diagnostic)
  {
    exists i, k :: FirstCollides(specs, i, k) && k < j && d == CollisionOf(specs[i], specs[k])
  }

  lemma SeenBefore(specs: seq<Spec>, i: int, j: nat, out: seq<Diagnostic>)
    requires CollisionsListed(specs, j, out) && FirstCollides(specs, i, j)
    ensures CollisionsListed(specs, j + 1, out + [CollisionOf(specs[i], specs[j])])
  {
  }

  lemma NotSeenBefore(specs: seq<Spec>, j: nat, out: seq<Diagnostic>)
    requires j < |specs| && CollisionsListed(specs, j, out) && forall k :: 0 <= k < j ==> Key(specs[k]) != Key(specs[j])
    ensures CollisionsListed(specs, j + 1, out)
  {
  }

  method RouteCollisions(specs: seq<Spec>) returns (out: seq<Diagnostic>)
    ensures forall d :: d in out <==> exists i, j :: FirstCollides(specs, i, j) && d == CollisionOf(specs[i], specs[j])
  {
    out := [];
    var seen: map<(string, string), Spec> := map[];
    ghost var at: map<(string, string), int> := map[];
    for j := 0 to |specs|
      invariant Remembers(specs, j, seen, at) && CollisionsListed(specs, j, out)
    {
      var key := Key(specs[j]);
      if key in seen {
        assert IsFirst(specs, at[key], key);
        assert FirstCollides(specs, at[key], j);
        SeenBefore(specs, at[key], j, out);
        out := out + [CollisionOf(seen[key], specs[j])];
      } else {
        assert IsFirst(specs, j, key);
        NotSeenBefore(specs, j, out);
        seen, at := seen[key := specs[j]], at[key := j];
      }
    }
    assert CollisionsListed(specs, |specs|, out);
  }

  method RouteShadowPairs(specs: seq<Spec>) returns (out: seq<Diagnostic>)
    ensures forall d :: d in out <==> exists i, j :: IsShadowed(specs, i, j) && d == ShadowOf(specs[i], specs[j])
  {
    out := [];
    for i := 0 to |specs|
      invariant forall d :: d in out <==>
                  exists k, j :: IsShadowed(specs, k, j) && k < i && d == ShadowOf(specs[k], specs[j])
    {
      for j := i + 1 to |specs|
        invariant forall d :: d in out <==>
                    || (exists k, l :: IsShadowed(specs, k, l) && k < i && d == ShadowOf(specs[k], specs[l]))
                    || (exists l :: IsShadowed(specs, i, l) && l < j && d == ShadowOf(specs[i], specs[l]))
      {
        var shadows := RouteShadows(specs[i].raw, specs[j].raw);
        if specs[i].method_ == specs[j].method_ && shadows {
          assert IsShadowed(specs, i, j);
          out := out + [ShadowOf(specs[i], specs[j])];
        }
      }
    }
  }
}
