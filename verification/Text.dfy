/** Strings as the source uses them: code point order, str.split, str.join, str.startswith. */
module Text {

  /** The order of two strings by code point. */
  predicate Less(s: string, t: string)
  {
    t != [] && (s == [] || s[0] < t[0] || (s[0] == t[0] && Less(s[1..], t[1..])))
  }

  lemma {:induction false} LessTotal(s: string, t: string)
    ensures s == t || Less(s, t) || Less(t, s)
  {
    if s != [] && t != [] && s[0] == t[0] {
      LessTotal(s[1..], t[1..]);
      assert s == [s[0]] + s[1..] && t == [t[0]] + t[1..];
    }
  }

  lemma {:induction false} LessTransitive(s: string, t: string, u: string)
    requires Less(s, t) && Less(t, u)
    ensures Less(s, u)
  {
    if s != [] && s[0] == t[0] && t[0] == u[0] {
      LessTransitive(s[1..], t[1..], u[1..]);
    }
  }

  lemma {:induction false} LessIrreflexive(s: string)
    ensures !Less(s, s)
  {
    if s != [] { LessIrreflexive(s[1..]); }
  }

  /** Alike up to k, where s ends or has the lower character. */
  predicate Differs(s: string, t: string, k: int)
  {
    0 <= k <= |s| && k < |t| && s[..k] == t[..k] && (k == |s| || s[k] < t[k])
  }

  lemma {:induction false} LessIffDiffers(s: string, t: string)
    ensures Less(s, t) <==> exists k :: Differs(s, t, k)
  {
    if t != [] && (s == [] || s[0] < t[0]) {
      assert Differs(s, t, 0);
    } else if s != [] && t != [] && s[0] == t[0] {
      LessIffDiffers(s[1..], t[1..]);
      forall k | 0 < k <= |s| && k < |t|
        ensures Differs(s, t, k) <==> Differs(s[1..], t[1..], k - 1)
      {
        assert s[..k] == [s[0]] + s[1..][..k - 1] && t[..k] == [t[0]] + t[1..][..k - 1];
      }
      assert !Differs(s, t, 0);
      if k :| Differs(s[1..], t[1..], k) { assert Differs(s, t, k + 1); }
      if k :| Differs(s, t, k) { assert Differs(s[1..], t[1..], k - 1); }
    } else {
      forall k | 0 < k <= |s| && k < |t| ensures s[..k] != t[..k] {
        assert s[..k][0] == s[0] && t[..k][0] == t[0];
      }
    }
  }

  predicate StartsWith(s: string, prefix: string)
  {
    |prefix| <= |s| && s[..|prefix|] == prefix
  }

  predicate EndsWith(s: string, suffix: string)
  {
    |suffix| <= |s| && s[|s| - |suffix|..] == suffix
  }

  /** sorted(set(names)) */
  function SortedSet(names: seq<string>): (out: seq<string>)
    ensures forall n :: n in out <==> n in names
  {
    if names == [] then []
    else
      assert forall n :: n in names <==> n == names[0] || n in names[1..];
      Insert(names[0], SortedSet(names[1..]))
  }

  function Insert(x: string, s: seq<string>): (out: seq<string>)
    ensures forall n :: n in out <==> n == x || n in s
  {
    if s == [] then [x]
    else if x == s[0] then s
    else if Less(x, s[0]) then [x] + s
    else
      assert forall n :: n in s <==> n == s[0] || n in s[1..];
      [s[0]] + Insert(x, s[1..])
  }

  ghost predicate Ascends(s: seq<string>)
  {
    forall i, j :: 0 <= i < j < |s| ==> Less(s[i], s[j])
  }

  /** In ascending order, so each name once. */
  lemma {:induction false} SortedSetAscends(names: seq<string>)
    ensures Ascends(SortedSet(names))
  {
    if names != [] {
      SortedSetAscends(names[1..]);
      InsertAscends(names[0], SortedSet(names[1..]));
    }
  }

  lemma AscendsCons(x: string, s: seq<string>)
    requires Ascends(s) && forall y :: y in s ==> Less(x, y)
    ensures Ascends([x] + s)
  {
  }

  lemma {:induction false} InsertAscends(x: string, s: seq<string>)
    requires Ascends(s)
    ensures Ascends(Insert(x, s))
  {
    if s == [] || x == s[0] {
    } else if Less(x, s[0]) {
      forall y | y in s ensures Less(x, y) {
        var j :| 0 <= j < |s| && s[j] == y;
        if j > 0 { LessTransitive(x, s[0], s[j]); }
      }
      AscendsCons(x, s);
    } else {
      LessTotal(x, s[0]);
      InsertAscends(x, s[1..]);
      forall y | y in Insert(x, s[1..]) ensures Less(s[0], y) {
        if y != x {
          var k :| 0 <= k < |s[1..]| && s[1..][k] == y;
          assert s[k + 1] == y;
        }
      }
      AscendsCons(s[0], Insert(x, s[1..]));
    }
  }

  /** sep.join(names) */
  function Join(sep: char, names: seq<string>): string
  {
    if |names| == 0 then ""
    else if |names| == 1 then names[0]
    else names[0] + [sep] + Join(sep, names[1..])
  }

  /** How far it is to the first sep. */
  function Until(sep: char, s: string): (n: nat)
    ensures n <= |s| && sep !in s[..n] && (n < |s| ==> s[n] == sep)
  {
    if s == [] || s[0] == sep then 0
    else
      assert forall n :: 1 <= n <= |s| ==> s[..n] == [s[0]] + s[1..][..n - 1];
      1 + Until(sep, s[1..])
  }

  /** text.split(sep) */
  function Split(sep: char, text: string): (parts: seq<string>)
    ensures parts != [] && forall p :: p in parts ==> sep !in p
    decreases |text|
  {
    var n := Until(sep, text);
    if n == |text| then
      assert text[..n] == text;
      [text]
    else [text[..n]] + Split(sep, text[n + 1..])
  }

  lemma {:induction false} UntilReached(sep: char, s: string, t: string)
    requires sep !in s && (t == [] || t[0] == sep)
    ensures Until(sep, s + t) == |s|
  {
    if s == [] {
      assert s + t == t;
    } else {
      assert (s + t)[1..] == s[1..] + t;
      UntilReached(sep, s[1..], t);
    }
  }

  lemma {:induction false} SplitJoin(sep: char, names: seq<string>)
    requires forall n :: n in names ==> sep !in n
    ensures Split(sep, Join(sep, names)) == if names == [] then [""] else names
  {
    if names == [] {
    } else if |names| == 1 {
      assert names[0] in names;
      UntilReached(sep, names[0], []);
      assert names[0] + [] == names[0] && names == [names[0]];
    } else {
      assert names[0] in names;
      var rest := Join(sep, names[1..]);
      var text := Join(sep, names);
      UntilReached(sep, names[0], [sep] + rest);
      assert text == names[0] + ([sep] + rest);
      assert text[..|names[0]|] == names[0] && text[|names[0]| + 1..] == rest;
      SplitJoin(sep, names[1..]);
      assert names == [names[0]] + names[1..];
    }
  }

  /** {x for x in text.split(",") if x} */
  function Names(text: string): set<string>
  {
    set n | n in Split(',', text) && n != []
  }

  function NonEmpty(names: seq<string>): set<string>
  {
    set n | n in names && n != []
  }

  /** A list of names survives being stored as one comma-joined string iff no name has a comma. */
  lemma StoredNamesComeBack(names: seq<string>)
    ensures Names(Join(',', SortedSet(names))) == NonEmpty(names) <==> forall n :: n in names ==> ',' !in n
  {
    var order := SortedSet(names);
    if forall n :: n in names ==> ',' !in n {
      SplitJoin(',', order);
    } else {
      var n :| n in names && ',' in n;
      assert n in NonEmpty(names) && n !in Names(Join(',', order));
    }
  }

  /** What names stored comma-joined are read back as, whatever they contain. */
  function Pieces(names: seq<string>): set<string>
  {
    set n, p | n in names && p in Split(',', n) && p != [] :: p
  }

  lemma {:induction false} SplitConcat(sep: char, s: string, t: string)
    ensures Split(sep, s + [sep] + t) == Split(sep, s) + Split(sep, t)
    decreases |s|
  {
    var n := Until(sep, s);
    var all := s + [sep] + t;
    if n == |s| {
      assert s[..n] == s;
      UntilReached(sep, s, [sep] + t);
      assert all == s + ([sep] + t);
      assert all[..n] == s && all[n + 1..] == t;
    } else {
      UntilReached(sep, s[..n], all[n..]);
      assert all == s[..n] + all[n..];
      assert all[..n] == s[..n] && all[n + 1..] == s[n + 1..] + [sep] + t;
      SplitConcat(sep, s[n + 1..], t);
      assert [s[..n]] + (Split(sep, s[n + 1..]) + Split(sep, t)) == [s[..n]] + Split(sep, s[n + 1..]) + Split(sep, t);
    }
  }

  lemma PiecesOfOne(n: string)
    ensures Pieces([n]) == Names(n)
  {
    assert forall m :: m in [n] <==> m == n;
  }

  lemma PiecesOfMore(first: string, rest: seq<string>)
    ensures Pieces([first] + rest) == Pieces([first]) + Pieces(rest)
  {
    assert forall n :: n in [first] + rest <==> n in [first] || n in rest;
  }

  lemma NamesConcat(s: string, t: string)
    ensures Names(s + [','] + t) == Names(s) + Names(t)
  {
    SplitConcat(',', s, t);
    hide Split;
  }

  lemma {:induction false} NamesOfJoined(order: seq<string>)
    ensures Names(Join(',', order)) == Pieces(order)
  {
    hide Names;
    if |order| == 0 {
      NamesOfNothing();
    } else {
      var first, rest := order[0], order[1..];
      assert order == [first] + rest;
      PiecesOfOne(first);
      if rest != [] {
        NamesConcat(first, Join(',', rest));
        NamesOfJoined(rest);
        PiecesOfMore(first, rest);
      } else {
        assert order == [first];
      }
    }
  }

  lemma NamesOfNothing()
    ensures Names("") == {} && Pieces([]) == {}
  {
    assert Split(',', "") == [""];
  }

  /** A list of names is read back as the pieces its names fall into at commas. */
  lemma StoredNamesAreThePieces(names: seq<string>)
    ensures Names(Join(',', SortedSet(names))) == Pieces(names)
  {
    NamesOfJoined(SortedSet(names));
  }

  lemma PlainNamesAreTheirPieces(names: seq<string>)
    requires forall n :: n in names ==> ',' !in n
    ensures Pieces(names) == NonEmpty(names)
  {
    StoredNamesAreThePieces(names);
    StoredNamesComeBack(names);
  }

  /** What a comma does: such a name is read back as two. */
  lemma CommaMakesTwoNames(a: string, b: string)
    requires a != [] && b != [] && ',' !in a && ',' !in b
    ensures Names(Join(',', SortedSet([a + [','] + b]))) == {a, b}
  {
    var text := a + [','] + b;
    assert SortedSet([text]) == Insert(text, SortedSet([text][1..])) == [text];
    assert Join(',', [a, b]) == text by { assert [a, b][1..] == [b]; }
    SplitJoin(',', [a, b]);
    assert Split(',', text) == [a, b];
  }
}
