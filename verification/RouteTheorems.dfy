/**
 * What clean route diagnostics mean for requests. Registered paths are taken to be as the
 * generator emits them, with parameters that fill whole segments.
 */
module RouteTheorems {
  import opened Text
  import opened Routes

  // ---------------------------------------------------------------- registered paths

  /** Fixed text, or "{name}" with a plain name. */
  predicate Segment(s: string)
  {
    if IsParam(s) then |s| > 2 && Plain(s[1..|s| - 1]) && ':' !in s
    else s != [] && Plain(s)
  }

  predicate Plain(s: string)
  {
    '/' !in s && '{' !in s && '}' !in s
  }

  predicate Segments(segs: seq<string>)
  {
    segs != [] && forall s :: s in segs ==> Segment(s)
  }

  function Path(segs: seq<string>): string
  {
    "/" + Join('/', segs)
  }

  /** A registered path, and how it is normalized. */
  ghost predicate Registered(spec: Spec, segs: seq<string>)
  {
    Segments(segs) && spec.raw == Path(segs) && spec.path == NormalizeRoute(spec.raw)
  }

  ghost predicate AllRegistered(specs: seq<Spec>, segs: seq<seq<string>>)
  {
    |segs| == |specs| && forall i :: 0 <= i < |specs| ==> Registered(specs[i], segs[i])
  }

  // ---------------------------------------------------------------- requests

  /** The router's match: a parameter takes any text that is not empty and has no slash. */
  predicate Answers(segs: seq<string>, request: seq<string>)
  {
    && |segs| == |request|
    && forall i :: 0 <= i < |segs| ==> if IsParam(segs[i]) then request[i] != [] else segs[i] == request[i]
  }

  /** Route k is the first registered one that answers the request path. */
  ghost predicate FirstMatch(specs: seq<Spec>, method_: string, request: string, k: int)
  {
    && 0 <= k < |specs|
    && specs[k].method_ == method_ && Answers(PathSegments(specs[k].raw), Split('/', request)[1..])
    && forall i :: 0 <= i < k ==> !(specs[i].method_ == method_ && Answers(PathSegments(specs[i].raw), Split('/', request)[1..]))
  }

  ghost predicate CanBeReached(specs: seq<Spec>, k: int)
    requires 0 <= k < |specs|
  {
    exists request :: FirstMatch(specs, specs[k].method_, request, k)
  }

  /** Parameters are exactly the segments in braces. */
  lemma ParametersAreBraced(segment: string)
    ensures IsParam(segment) <==> exists name :: segment == "{" + name + "}"
  {
    if IsParam(segment) {
      assert segment[0] == '{' && segment[|segment| - 1] == '}' by {
        assert segment[..1] == "{" && segment[|segment| - 1..] == "}";
      }
      assert segment == "{" + segment[1..|segment| - 1] + "}";
    }
    forall name | segment == "{" + name + "}" ensures IsParam(segment) {
      assert segment[..1] == "{" && segment[|segment| - 1..] == "}";
    }
  }

  // ---------------------------------------------------------------- strings of segments

  lemma SegmentHasNoSlash(s: string)
    requires Segment(s)
    ensures s != [] && '/' !in s
  {
  }

  predicate NoOuterSlash(s: string)
  {
    s != [] && s[0] != '/' && s[|s| - 1] != '/'
  }

  /** Segments are not empty and hold no slash, and nor does what they are normalized to. */
  predicate Solid(segs: seq<string>)
  {
    segs != [] && forall s :: s in segs ==> s != [] && '/' !in s
  }

  lemma {:induction false} JoinOuter(segs: seq<string>)
    requires Solid(segs)
    ensures NoOuterSlash(Join('/', segs))
    ensures Join('/', segs)[0] == segs[0][0]
  {
    assert segs[0] in segs && segs[0][0] in segs[0] && segs[0][|segs[0]| - 1] in segs[0];
    if |segs| > 1 {
      assert forall s :: s in segs[1..] ==> s in segs;
      JoinOuter(segs[1..]);
    }
  }

  lemma StripPath(segs: seq<string>)
    requires Solid(segs)
    ensures StripSlashes(Path(segs)) == Join('/', segs)
  {
    JoinOuter(segs);
    assert Path(segs)[1..] == Join('/', segs);
  }

  lemma {:induction false} FilledSolid(segs: seq<string>)
    requires forall s :: s in segs ==> s != []
    ensures Filled(segs) == segs
  {
    if segs != [] {
      assert segs[0] in segs;
      assert forall s :: s in segs[1..] ==> s in segs;
      FilledSolid(segs[1..]);
      assert segs == [segs[0]] + segs[1..];
    }
  }

  lemma SplitPath(segs: seq<string>)
    requires Solid(segs)
    ensures Split('/', Path(segs)) == [""] + segs
  {
    var all := [""] + segs;
    assert forall s :: s in all ==> '/' !in s;
    SplitJoin('/', all);
    assert all[1..] == segs && Join('/', all) == "" + ['/'] + Join('/', segs);
    assert Path(segs) == Join('/', all);
  }

  /** A path cut up again gives its segments. */
  lemma PathRoundTrip(segs: seq<string>)
    requires Solid(segs)
    ensures PathSegments(Path(segs)) == segs
  {
    StripPath(segs);
    SplitPath(segs);
    FilledSolid(segs);
    assert ([""] + segs)[1..] == segs;
    assert Filled([""] + segs) == [] + Filled(segs);
  }

  lemma SegmentsSolid(segs: seq<string>)
    requires Segments(segs)
    ensures Solid(segs)
  {
  }

  // ---------------------------------------------------------------- normalizing

  function Blank(segment: string): string
  {
    if IsParam(segment) then "{}" else segment
  }

  function Blanks(segs: seq<string>): (out: seq<string>)
    ensures |out| == |segs| && forall i :: 0 <= i < |segs| ==> out[i] == Blank(segs[i])
  {
    if segs == [] then [] else [Blank(segs[0])] + Blanks(segs[1..])
  }

  lemma {:induction false} BlankPlain(s: string, rest: string)
    requires '{' !in s
    ensures BlankParameters(s + rest) == s + BlankParameters(rest)
  {
    if s == [] {
      assert s + rest == rest;
    } else {
      assert s[0] in s && (s + rest)[1..] == s[1..] + rest;
      BlankPlain(s[1..], rest);
      assert s == [s[0]] + s[1..];
    }
  }

  lemma {:induction false} BracelessStops(s: string, rest: string)
    requires '{' !in s && '}' !in s && rest != [] && rest[0] == '}'
    ensures Braceless(s + rest) == |s|
  {
    if s == [] {
      assert s + rest == rest;
    } else {
      assert s[0] in s && (s + rest)[1..] == s[1..] + rest;
      BracelessStops(s[1..], rest);
    }
  }

  lemma BlankSegment(s: string, rest: string)
    requires Segment(s)
    ensures BlankParameters(s + rest) == Blank(s) + BlankParameters(rest)
  {
    if IsParam(s) {
      var name := s[1..|s| - 1];
      assert s[..1] == "{" && s[|s| - 1..] == "}";
      assert s[..1][0] == '{' && s[|s| - 1..][0] == '}';
      assert (s + rest)[1..] == name + (['}'] + rest);
      BracelessStops(name, ['}'] + rest);
      assert (s + rest)[|name| + 2..] == rest;
    } else {
      BlankPlain(s, rest);
    }
  }

  lemma BlankNothing()
    ensures BlankParameters([]) == []
  {
  }

  lemma {:induction false} BlankJoined(segs: seq<string>)
    requires forall s :: s in segs ==> Segment(s)
    ensures BlankParameters(Join('/', segs)) == Join('/', Blanks(segs))
  {
    hide BlankParameters;
    hide Segment;
    hide Blank;
    BlankNothing();
    if |segs| == 1 {
      BlankSegment(segs[0], []);
      assert segs[0] + [] == segs[0] && Blank(segs[0]) + [] == Blank(segs[0]);
    } else if |segs| > 1 {
      var rest := Join('/', segs[1..]);
      BlankSegment(segs[0], ['/'] + rest);
      BlankPlain(['/'], rest);
      BlankJoined(segs[1..]);
      assert Join('/', segs) == segs[0] + (['/'] + rest);
      assert Blanks(segs)[1..] == Blanks(segs[1..]);
      assert Join('/', Blanks(segs)) == Blank(segs[0]) + ['/'] + Join('/', Blanks(segs[1..]));
    }
  }

  lemma {:induction false} SinglePlain(s: string, rest: string)
    requires '/' !in s
    ensures SingleSlashes(s + rest) == s + SingleSlashes(rest)
  {
    if s == [] {
      assert s + rest == rest;
    } else {
      assert s[0] in s && (s + rest)[1..] == s[1..] + rest;
      SinglePlain(s[1..], rest);
      assert s == [s[0]] + s[1..];
    }
  }

  lemma {:induction false} SingleJoined(segs: seq<string>)
    requires Solid(segs)
    ensures SingleSlashes(['/'] + Join('/', segs)) == ['/'] + Join('/', segs)
  {
    var joined := Join('/', segs);
    JoinOuter(segs);
    assert segs[0] in segs;
    assert (['/'] + joined)[1..] == joined;
    if |segs| == 1 {
      SinglePlain(segs[0], []);
      assert segs[0] + [] == segs[0];
    } else {
      var rest := ['/'] + Join('/', segs[1..]);
      assert joined == segs[0] + rest;
      assert forall s :: s in segs[1..] ==> s in segs;
      SingleJoined(segs[1..]);
      SinglePlain(segs[0], rest);
    }
  }

  lemma BlanksSolid(segs: seq<string>)
    requires Segments(segs)
    ensures Solid(Blanks(segs))
  {
    SegmentsSolid(segs);
    forall s | s in Blanks(segs) ensures s != [] && '/' !in s {
      var i :| 0 <= i < |segs| && Blanks(segs)[i] == s;
      assert segs[i] in segs;
    }
  }

  /** Normalizing a registered path blanks its parameters and does nothing else. */
  lemma NormalizedPath(segs: seq<string>)
    requires Segments(segs)
    ensures NormalizeRoute(Path(segs)) == Path(Blanks(segs))
  {
    SegmentsSolid(segs);
    BlanksSolid(segs);
    StripPath(segs);
    BlankPlain(['/'], Join('/', segs));
    BlankJoined(segs);
    SingleJoined(Blanks(segs));
  }

  /** So two registered paths normalize alike exactly if they differ in parameter names only. */
  lemma NormalizedAlike(a: seq<string>, b: seq<string>)
    requires Segments(a) && Segments(b)
    ensures NormalizeRoute(Path(a)) == NormalizeRoute(Path(b)) <==> Blanks(a) == Blanks(b)
  {
    NormalizedPath(a);
    NormalizedPath(b);
    BlanksSolid(a);
    BlanksSolid(b);
    PathRoundTrip(Blanks(a));
    PathRoundTrip(Blanks(b));
  }

  // ---------------------------------------------------------------- covering

  /** Each segment of a is a parameter or b's own text. */
  predicate Covers(a: seq<string>, b: seq<string>)
  {
    |a| == |b| && forall i :: 0 <= i < |a| ==> IsParam(a[i]) || a[i] == b[i]
  }

  /** Whatever b answers, a answers. */
  lemma CoveredIsAnswered(a: seq<string>, b: seq<string>, request: seq<string>)
    requires Segments(b) && Covers(a, b) && Answers(b, request)
    ensures Answers(a, request)
  {
    forall i | 0 <= i < |a| ensures if IsParam(a[i]) then request[i] != [] else a[i] == request[i] {
      assert b[i] in b;
      SegmentHasNoSlash(b[i]);
    }
  }

  lemma BlanksAlikeCover(a: seq<string>, b: seq<string>)
    requires Segments(a) && Segments(b) && Blanks(a) == Blanks(b)
    ensures Covers(a, b)
  {
    forall i | 0 <= i < |a| ensures IsParam(a[i]) || a[i] == b[i] {
      assert Blanks(a)[i] == Blank(a[i]) && Blanks(b)[i] == Blank(b[i]);
      assert a[i] in a && Segment(a[i]);
      assert !IsParam(a[i]) ==> '{' !in a[i] && a[i] == Blank(b[i]);
      assert "{}"[0] == '{';
    }
  }

  /** An earlier path covers a later one exactly if the diagnostics report the pair. */
  lemma ReportedIffCovers(a: Spec, b: Spec, s: seq<string>, t: seq<string>)
    requires Registered(a, s) && Registered(b, t)
    ensures a.path == b.path || Shadows(a.raw, b.raw) <==> Covers(s, t)
  {
    SegmentsSolid(s);
    SegmentsSolid(t);
    PathRoundTrip(s);
    PathRoundTrip(t);
    NormalizedAlike(s, t);
    assert Covers(s, t) && (forall i :: 0 <= i < |s| ==> !IsParam(s[i])) ==> s == t;
    if a.path == b.path {
      BlanksAlikeCover(s, t);
    }
  }

  // ---------------------------------------------------------------- a request for each route

  function Longest(segs: seq<seq<string>>): nat
  {
    if segs == [] then 0
    else
      var n := Longest(segs[1..]);
      var m := LongestOf(segs[0]);
      if m > n then m else n
  }

  function LongestOf(parts: seq<string>): nat
  {
    if parts == [] then 0
    else
      var n := LongestOf(parts[1..]);
      if |parts[0]| > n then |parts[0]| else n
  }

  lemma {:induction false} LongestOfBounds(parts: seq<string>, i: int)
    requires 0 <= i < |parts|
    ensures |parts[i]| <= LongestOf(parts)
  {
    if i > 0 { LongestOfBounds(parts[1..], i - 1); }
  }

  lemma {:induction false} LongestBounds(segs: seq<seq<string>>, k: int, i: int)
    requires 0 <= k < |segs| && 0 <= i < |segs[k]|
    ensures |segs[k][i]| <= Longest(segs)
  {
    if k > 0 { LongestBounds(segs[1..], k - 1, i); } else { LongestOfBounds(segs[0], i); }
  }

  /** A text longer than every registered segment. */
  function Fresh(segs: seq<seq<string>>): (s: string)
    ensures |s| == Longest(segs) + 1 && '/' !in s
  {
    seq(Longest(segs) + 1, _ => 'x')
  }

  /** The request that puts such a text for every parameter. */
  function Witness(route: seq<string>, value: string): (request: seq<string>)
    ensures |request| == |route|
    ensures forall i :: 0 <= i < |route| ==> request[i] == if IsParam(route[i]) then value else route[i]
  {
    seq(|route|, i requires 0 <= i < |route| => if IsParam(route[i]) then value else route[i])
  }

  /** Another route answers that request only if it covers the one it was made for. */
  lemma WitnessIsAnsweredByCoversOnly(segs: seq<seq<string>>, i: int, k: int)
    requires 0 <= i < |segs| && 0 <= k < |segs|
    ensures Answers(segs[i], Witness(segs[k], Fresh(segs))) ==> Covers(segs[i], segs[k])
  {
    var request := Witness(segs[k], Fresh(segs));
    if Answers(segs[i], request) {
      forall j | 0 <= j < |segs[i]| ensures IsParam(segs[i][j]) || segs[i][j] == segs[k][j] {
        LongestBounds(segs, i, j);
      }
    }
  }

  lemma WitnessAnswered(segs: seq<seq<string>>, k: int)
    requires 0 <= k < |segs| && Segments(segs[k])
    ensures Answers(segs[k], Witness(segs[k], Fresh(segs))) && Solid(Witness(segs[k], Fresh(segs)))
  {
    SegmentsSolid(segs[k]);
    var request := Witness(segs[k], Fresh(segs));
    forall s | s in request ensures s != [] && '/' !in s {
      var i :| 0 <= i < |request| && request[i] == s;
      assert segs[k][i] in segs[k];
    }
  }

  // ---------------------------------------------------------------- the theorem

  /** A pair that the diagnostics report: a later route with the key, or in the shadow, of an earlier one. */
  ghost predicate Reported(specs: seq<Spec>, i: int, j: int)
  {
    0 <= i < j < |specs| && specs[i].method_ == specs[j].method_
    && (specs[i].path == specs[j].path || Shadows(specs[i].raw, specs[j].raw))
  }

  /** A route can be reached by some request exactly if no earlier route is reported against it. */
  lemma ReachableIffNotReported(specs: seq<Spec>, segs: seq<seq<string>>, k: int)
    requires AllRegistered(specs, segs) && 0 <= k < |specs|
    ensures CanBeReached(specs, k) <==> forall i :: !Reported(specs, i, k)
  {
    forall i | 0 <= i < |specs| ensures PathSegments(specs[i].raw) == segs[i] {
      assert Registered(specs[i], segs[i]);
      SegmentsSolid(segs[i]);
      PathRoundTrip(segs[i]);
    }
    assert Registered(specs[k], segs[k]);
    if forall i :: !Reported(specs, i, k) {
      var parts := Witness(segs[k], Fresh(segs));
      var request := Path(parts);
      WitnessAnswered(segs, k);
      SplitPath(parts);
      assert Split('/', request)[1..] == parts;
      forall i | 0 <= i < k && specs[i].method_ == specs[k].method_ ensures !Answers(segs[i], parts) {
        assert !Reported(specs, i, k);
        assert Registered(specs[i], segs[i]);
        ReportedIffCovers(specs[i], specs[k], segs[i], segs[k]);
        WitnessIsAnsweredByCoversOnly(segs, i, k);
      }
      assert FirstMatch(specs, specs[k].method_, request, k);
    }
    if i :| Reported(specs, i, k) {
      assert Registered(specs[i], segs[i]);
      ReportedIffCovers(specs[i], specs[k], segs[i], segs[k]);
      forall request ensures !FirstMatch(specs, specs[k].method_, request, k) {
        var parts := Split('/', request)[1..];
        if Answers(segs[k], parts) {
          CoveredIsAnswered(segs[i], segs[k], parts);
        }
      }
    }
  }

  /** No diagnostics, if and only if every route can be reached. */
  lemma CleanIffAllReachable(specs: seq<Spec>, segs: seq<seq<string>>)
    requires AllRegistered(specs, segs)
    ensures (forall i, j :: !FirstCollides(specs, i, j) && !IsShadowed(specs, i, j))
              <==> forall k :: 0 <= k < |specs| ==> CanBeReached(specs, k)
  {
    forall k | 0 <= k < |specs| ensures CanBeReached(specs, k) <==> forall i :: !Reported(specs, i, k) {
      ReachableIffNotReported(specs, segs, k);
    }
    forall i, j ensures Reported(specs, i, j) <==> Collides(specs, i, j) || IsShadowed(specs, i, j) {}
    forall i, j | Collides(specs, i, j) ensures exists f :: FirstCollides(specs, f, j) {
      FirstOfColliding(specs, i, j);
    }
    if forall i, j :: !FirstCollides(specs, i, j) && !IsShadowed(specs, i, j) {
      forall i, j ensures !Reported(specs, i, j) {}
    }
    if forall k :: 0 <= k < |specs| ==> CanBeReached(specs, k) {
      forall i, j ensures !Reported(specs, i, j) {
        if 0 <= j < |specs| { assert CanBeReached(specs, j); }
      }
    }
  }

  lemma {:induction false} FirstOfColliding(specs: seq<Spec>, i: int, j: int)
    requires Collides(specs, i, j)
    ensures exists f :: FirstCollides(specs, f, j)
    decreases i
  {
    if k :| 0 <= k < i && SameKey(specs[k], specs[j]) {
      FirstOfColliding(specs, k, j);
    } else {
      assert FirstCollides(specs, i, j);
    }
  }
}
