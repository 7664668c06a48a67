/**
 * The root of a graph document (framework/editor_api.py:209-234): what is checked before its nodes
 * and edges, and the whole validator.
 */
module GraphRoots {
  import opened GraphDocument
  import Text

  /** The value of a field: missing or of another JSON type, or what it should be. */
  datatype Field<+T> = Other | Is(value: T)

  /** versionIsOne: the value of schema_version equals 1. */
  datatype Document =
    | NotAnObject
    | Object(fields: set<string>, versionIsOne: bool, target: Field<string>, nodes: Field<seq<Node>>, edges: Field<seq<Edge>>)

  datatype Answer =
    | Accepted | NoObject | UnknownFields | WrongVersion | WrongTarget | NodesNotListed | EdgesNotListed
    | Refused(error: GraphError)

  const ROOT_FIELDS: set<string> := {"$schema", "schema_version", "target_document", "nodes", "edges", "metadata"}

  // ---------------------------------------------------------------- the target path

  /** The parts of a relative POSIX path: what stands between slashes, but for "" and ".". */
  function Parts(pieces: seq<string>): (parts: seq<string>)
    ensures forall p :: p in parts ==> p in pieces && p != "" && p != "."
  {
    if pieces == [] then []
    else (if pieces[0] == "" || pieces[0] == "." then [] else [pieces[0]]) + Parts(pieces[1..])
  }

  function PathParts(path: string): seq<string>
  {
    Parts(Text.Split('/', path))
  }

  /** name.rfind("."), |name| for none. */
  function LastDot(name: string): (i: nat)
    ensures i <= |name| && (i < |name| ==> name[i] == '.' && '.' !in name[i + 1..])
    ensures i == |name| ==> '.' !in name
  {
    if name == [] then 0
    else
      var n := |name| - 1;
      if name[n] == '.' then n
      else
        var i := LastDot(name[..n]);
        assert name == name[..n] + [name[n]];
        if i == n then n + 1
        else
          assert name[i + 1..] == name[..n][i + 1..] + [name[n]];
          i
  }

  /** PurePosixPath.suffix */
  function Suffix(name: string): string
  {
    var i := LastDot(name);
    if 0 < i < |name| - 1 then name[i..] else ""
  }

  /** A path below config/, one level deep, to a file with a name and the ending .json. */
  ghost predicate DirectConfigJson(target: string)
  {
    && !Text.StartsWith(target, "/") && '\\' !in target
    && exists stem :: stem != "" && PathParts(target) == ["config", stem + ".json"]
  }

  lemma LastDotIs(name: string, k: nat)
    requires k < |name| && name[k] == '.' && '.' !in name[k + 1..]
    ensures LastDot(name) == k
  {
    var i := LastDot(name);
    assert '.' in name;
    assert forall j :: i < j < |name| ==> name[j] == name[i + 1..][j - i - 1];
    assert forall j :: k < j < |name| ==> name[j] == name[k + 1..][j - k - 1];
  }

  lemma JsonSuffix(name: string)
    ensures Suffix(name) == ".json" <==> exists stem :: stem != "" && name == stem + ".json"
  {
    var i := LastDot(name);
    if Suffix(name) == ".json" {
      assert name == name[..i] + ".json" && name[..i] != "";
    }
    forall stem | stem != "" && name == stem + ".json" ensures Suffix(name) == ".json" {
      assert name[|stem|..] == ".json" && name[|stem| + 1..] == "json";
      LastDotIs(name, |stem|);
    }
  }

  lemma TwoParts(parts: seq<string>)
    ensures (|parts| == 2 && parts[0] == "config" && Suffix(parts[1]) == ".json") <==>
            exists stem :: stem != "" && parts == ["config", stem + ".json"]
  {
    if |parts| == 2 {
      JsonSuffix(parts[1]);
      assert parts[0] == "config" ==> parts == ["config", parts[1]];
      forall stem | parts == ["config", stem + ".json"] ensures parts[0] == "config" && parts[1] == stem + ".json" {}
    }
  }

  method CheckTarget(target: string) returns (ok: bool)
    ensures ok <==> DirectConfigJson(target)
  {
    var parts := PathParts(target);
    TwoParts(parts);
    NotDots(parts);
    hide Suffix;
    hide Parts;
    ok := !(|| Text.StartsWith(target, "/")
            || |parts| != 2
            || parts[0] != "config"
            || Suffix(parts[1]) != ".json"
            || "" in parts || "." in parts || ".." in parts
            || '\\' in target);
  }

  /** Among such parts there is no step up. */
  lemma NotDots(parts: seq<string>)
    requires forall p :: p in parts ==> p != "" && p != "."
    ensures |parts| == 2 && parts[0] == "config" && Suffix(parts[1]) == ".json" ==> ".." !in parts
  {
    assert |Suffix("..")| <= 2 && |".json"| == 5;
    assert |"config"| == 6 && |".."| == 2;
    if |parts| == 2 { assert forall p :: p in parts ==> p == parts[0] || p == parts[1]; }
  }

  /** Spelled out: such a path, written plainly, is accepted. */
  lemma PlainTargetsAreDirect(stem: string)
    requires stem != "" && '/' !in stem && '\\' !in stem
    ensures DirectConfigJson("config/" + stem + ".json")
  {
    var name := stem + ".json";
    var target := "config/" + stem + ".json";
    assert target == "config" + ['/'] + name && target[0] == 'c';
    Text.SplitJoin('/', ["config", name]);
    assert ["config", name][1..] == [name] && Text.Join('/', [name]) == name;
    PartsOfTwo("config", name);
    assert PathParts(target) == ["config", name] by { assert Text.Split('/', target) == ["config", name]; }
  }

  lemma PartsOfTwo(a: string, b: string)
    requires |a| > 1 && |b| > 1
    ensures Parts([a, b]) == [a, b]
  {
    assert [a, b][1..] == [b] && [b][1..] == [];
    assert Parts([b]) == [b];
  }

  // ---------------------------------------------------------------- the validator

  ghost predicate RootOk(doc: Document)
  {
    && doc.Object? && doc.fields <= ROOT_FIELDS && doc.versionIsOne
    && doc.target.Is? && DirectConfigJson(doc.target.value)
    && doc.nodes.Is? && doc.edges.Is?
  }

  /** _validate_graph_document: everything a document needs, and in which order it is missed. */
  method ValidateDocument(doc: Document) returns (answer: Answer, ghost order: seq<string>)
    ensures answer.Accepted? <==>
              RootOk(doc) && WellFormed(doc.nodes.value, doc.edges.value) && !HasCycle(doc.edges.value)
    ensures answer.Accepted? ==> IsTopological(doc.nodes.value, doc.edges.value, order)
    ensures answer == Refused(Cyclic) <==>
              RootOk(doc) && WellFormed(doc.nodes.value, doc.edges.value) && HasCycle(doc.edges.value)
    ensures answer.Refused? ==>
              doc.Object? && doc.fields <= ROOT_FIELDS && doc.versionIsOne && doc.nodes.Is?
              && doc.target.Is? && DirectConfigJson(doc.target.value)
    ensures answer != Refused(DuplicateConnection)
  {
    order := [];
    if doc.NotAnObject? { return NoObject, order; }
    if !(doc.fields <= ROOT_FIELDS) { return UnknownFields, order; }
    if !doc.versionIsOne { return WrongVersion, order; }
    if doc.target.Other? { return WrongTarget, order; }
    var direct := CheckTarget(doc.target.value);
    if !direct { return WrongTarget, order; }
    if doc.nodes.Other? { return NodesNotListed, order; }
    if |doc.nodes.value| > 500 { return Refused(TooManyNodes), order; }
    if doc.edges.Other? { return EdgesNotListed, order; }
    var verdict: Verdict;
    verdict, order := Validate(doc.nodes.value, doc.edges.value);
    answer := if verdict.Valid? then Accepted else Refused(verdict.error);
  }
}
