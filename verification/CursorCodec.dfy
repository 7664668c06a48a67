/**
 * Pagination cursors (framework/crud.py:186-202): "v1." and the unpadded base64url form
 * (section 5 of RFC 4648) of a two-element JSON array.
 */
module CursorCodec {

  datatype Option<+T> = None | Some(value: T)

  /** Keys are integers or strings. */
  datatype Key = Int(i: int) | Str(s: string)

  type Byte = b: int | 0 <= b < 256 witness 0

  // ---------------------------------------------------------------- JSON, written

  function Digit(d: int): char
    requires 0 <= d < 10
  {
    ('0' as int + d) as char
  }

  function Digits(n: nat): (s: string)
    ensures |s| > 0
  {
    (if n < 10 then [] else Digits(n / 10)) + [Digit(n % 10)]
  }

  function WriteInt(i: int): string
  {
    if i < 0 then "-" + Digits(-i) else Digits(i)
  }

  function Hex(d: int): char
    requires 0 <= d < 16
  {
    if d < 10 then ('0' as int + d) as char else ('a' as int + d - 10) as char
  }

  /** \uXXXX */
  function UnicodeEscape(u: int): (s: string)
    requires 0 <= u < 0x10000
    ensures |s| == 6
  {
    ['\\', 'u', Hex(u / 4096), Hex(u / 256 % 16), Hex(u / 16 % 16), Hex(u % 16)]
  }

  /** json.dumps with ensure_ascii: printable ASCII stands for itself, all else is escaped. */
  function WriteChar(c: char): (s: string)
    ensures |s| > 0
  {
    if c == '"' then ['\\', '"']
    else if c == '\\' then ['\\', '\\']
    else if c == '\n' then ['\\', 'n']
    else if c == '\r' then ['\\', 'r']
    else if c == '\t' then ['\\', 't']
    else if c as int == 8 then ['\\', 'b']
    else if c as int == 12 then ['\\', 'f']
    else if ' ' <= c <= '~' then [c]
    else if c as int < 0x10000 then UnicodeEscape(c as int)
    else
      var v := c as int - 0x10000;
      UnicodeEscape(0xD800 + v / 0x400) + UnicodeEscape(0xDC00 + v % 0x400)
  }

  function WriteChars(s: string): string
  {
    if s == [] then [] else WriteChar(s[0]) + WriteChars(s[1..])
  }

  function WriteKey(k: Key): string
  {
    match k
    case Int(i) => WriteInt(i)
    case Str(s) => ['"'] + WriteChars(s) + ['"']
  }

  function WritePair(a: Key, b: Key): string
  {
    ['['] + WriteKey(a) + [','] + WriteKey(b) + [']']
  }

  // ---------------------------------------------------------------- JSON, read

  predicate IsDigit(c: char) { '0' <= c <= '9' }

  /** How many digits s begins with. */
  function Span(s: string): (n: nat)
    ensures n <= |s| && (forall i :: 0 <= i < n ==> IsDigit(s[i])) && (n < |s| ==> !IsDigit(s[n]))
  {
    if s == [] || !IsDigit(s[0]) then 0 else 1 + Span(s[1..])
  }

  function DigitsValue(s: string): nat
    requires forall i :: 0 <= i < |s| ==> IsDigit(s[i])
  {
    if s == [] then 0
    else
      assert IsDigit(s[|s| - 1]);
      DigitsValue(s[..|s| - 1]) * 10 + (s[|s| - 1] as int - '0' as int)
  }

  /** A JSON integer at the head of s, and what follows it. */
  function ReadInt(s: string): Option<(int, string)>
  {
    var negative := s != [] && s[0] == '-';
    var t := if negative then s[1..] else s;
    var n := Span(t);
    if n == 0 || (n > 1 && t[0] == '0') then None
    else
      var v: int := DigitsValue(t[..n]);
      Some((if negative then -v else v, t[n..]))
  }

  function HexValue(c: char): Option<int>
  {
    if '0' <= c <= '9' then Some(c as int - '0' as int)
    else if 'a' <= c <= 'f' then Some(c as int - 'a' as int + 10)
    else if 'A' <= c <= 'F' then Some(c as int - 'A' as int + 10)
    else None
  }

  /** \uXXXX at the head of s. */
  function ReadUnicode(s: string): (u: Option<int>)
    ensures u.Some? ==> |s| >= 6 && 0 <= u.value < 0x10000
  {
    if |s| < 6 || s[0] != '\\' || s[1] != 'u' then None
    else
      var a, b, c, d := HexValue(s[2]), HexValue(s[3]), HexValue(s[4]), HexValue(s[5]);
      if a.None? || b.None? || c.None? || d.None? then None
      else Some(a.value * 4096 + b.value * 256 + c.value * 16 + d.value)
  }

  /** One character of a JSON string at the head of s, and what follows it. */
  function ReadChar(s: string): (r: Option<(char, string)>)
    ensures r.Some? ==> |r.value.1| < |s|
  {
    if s == [] || s[0] == '"' || s[0] < ' ' then None
    else if s[0] != '\\' then Some((s[0], s[1..]))
    else if |s| < 2 then None
    else if s[1] == '"' || s[1] == '\\' || s[1] == '/' then Some((s[1], s[2..]))
    else if s[1] == 'n' then Some(('\n', s[2..]))
    else if s[1] == 'r' then Some(('\r', s[2..]))
    else if s[1] == 't' then Some(('\t', s[2..]))
    else if s[1] == 'b' then Some((8 as char, s[2..]))
    else if s[1] == 'f' then Some((12 as char, s[2..]))
    else
      var u := ReadUnicode(s);
      if u.None? then None
      else if u.value < 0xD800 || 0xE000 <= u.value then Some((u.value as char, s[6..]))
      else
        var w := ReadUnicode(s[6..]);
        if u.value < 0xDC00 && w.Some? && 0xDC00 <= w.value < 0xE000 then
          Some(((0x10000 + (u.value - 0xD800) * 0x400 + (w.value - 0xDC00)) as char, s[12..]))
        else None
  }

  /** The rest of a JSON string after its opening quote. */
  function ReadChars(s: string): Option<(string, string)>
    decreases |s|
  {
    if s == [] then None
    else if s[0] == '"' then Some(([], s[1..]))
    else
      var c := ReadChar(s);
      if c.None? then None
      else
        var rest := ReadChars(c.value.1);
        if rest.None? then None else Some(([c.value.0] + rest.value.0, rest.value.1))
  }

  function ReadKey(s: string): Option<(Key, string)>
  {
    if s != [] && s[0] == '"' then
      var r := ReadChars(s[1..]);
      if r.None? then None else Some((Str(r.value.0), r.value.1))
    else
      var r := ReadInt(s);
      if r.None? then None else Some((Int(r.value.0), r.value.1))
  }

  function ReadPair(s: string): Option<(Key, Key)>
  {
    if s == [] || s[0] != '[' then None
    else
      var a := ReadKey(s[1..]);
      if a.None? || a.value.1 == [] || a.value.1[0] != ',' then None
      else
        var b := ReadKey(a.value.1[1..]);
        if b.None? || b.value.1 != [']'] then None else Some((a.value.0, b.value.0))
  }

  // ---------------------------------------------------------------- base64url

  function Letter(i: int): char
    requires 0 <= i < 64
  {
    if i < 26 then ('A' as int + i) as char
    else if i < 52 then ('a' as int + i - 26) as char
    else if i < 62 then ('0' as int + i - 52) as char
    else if i == 62 then '-' else '_'
  }

  function Index(c: char): (i: Option<int>)
    ensures i.Some? ==> 0 <= i.value < 64
  {
    if 'A' <= c <= 'Z' then Some(c as int - 'A' as int)
    else if 'a' <= c <= 'z' then Some(c as int - 'a' as int + 26)
    else if '0' <= c <= '9' then Some(c as int - '0' as int + 52)
    else if c == '-' then Some(62) else if c == '_' then Some(63) else None
  }

  function Quantum(x: Byte, y: Byte, z: Byte): (q: string)
    ensures |q| == 4
  {
    [Letter(x / 4), Letter(x % 4 * 16 + y / 16), Letter(y % 16 * 4 + z / 64), Letter(z % 64)]
  }

  function Base64(b: seq<Byte>): (s: string)
    ensures |s| % 4 == 0
  {
    if |b| == 0 then []
    else if |b| == 1 then Quantum(b[0], 0, 0)[..2] + ['=', '=']
    else if |b| == 2 then Quantum(b[0], b[1], 0)[..3] + ['=']
    else Quantum(b[0], b[1], b[2]) + Base64(b[3..])
  }

  /** Three bytes from four letters; the unused low bits of a short quantum are ignored. */
  function Unquantum(s: string): Option<seq<Byte>>
    requires |s| == 4
  {
    var a, b, c, d := Index(s[0]), Index(s[1]), Index(s[2]), Index(s[3]);
    if a.None? || b.None? then None
    else if s[2] == '=' && s[3] == '=' then Some([a.value * 4 + b.value / 16])
    else if c.None? then None
    else if s[3] == '=' then Some([a.value * 4 + b.value / 16, b.value % 16 * 16 + c.value / 4])
    else if d.None? then None
    else Some([a.value * 4 + b.value / 16, b.value % 16 * 16 + c.value / 4, c.value % 4 * 64 + d.value])
  }

  function Unbase64(s: string): Option<seq<Byte>>
  {
    if |s| == 0 then Some([])
    else if |s| < 4 then None
    else
      var head := Unquantum(s[..4]);
      if head.None? || (|head.value| < 3 && |s| > 4) then None
      else
        var tail := Unbase64(s[4..]);
        if tail.None? then None else Some(head.value + tail.value)
  }

  // ---------------------------------------------------------------- cursors

  /** str.rstrip("=") */
  function StripPadding(s: string): (r: string)
    ensures |r| <= |s|
  {
    if s != [] && s[|s| - 1] == '=' then StripPadding(s[..|s| - 1]) else s
  }

  function Repeat(c: char, n: nat): (s: string)
    ensures |s| == n && forall i :: 0 <= i < n ==> s[i] == c
  {
    if n == 0 then [] else [c] + Repeat(c, n - 1)
  }

  predicate Ascii(s: string)
  {
    forall i :: 0 <= i < |s| ==> s[i] as int < 128
  }

  function Bytes(s: string): (b: seq<Byte>)
    requires Ascii(s)
    ensures |b| == |s| && forall i :: 0 <= i < |s| ==> b[i] == s[i] as int
  {
    seq(|s|, i requires 0 <= i < |s| => s[i] as int)
  }

  function Text(b: seq<Byte>): (s: Option<string>)
    ensures s.Some? <==> forall i :: 0 <= i < |b| ==> b[i] < 128
    ensures s.Some? ==> |s.value| == |b| && forall i :: 0 <= i < |b| ==> s.value[i] as int == b[i]
  {
    if forall i :: 0 <= i < |b| ==> b[i] < 128 then
      Some(seq(|b|, i requires 0 <= i < |b| => b[i] as char))
    else None
  }

  function EncodeCursor(cursor: Key, pk: Key): string
  {
    WritePairAscii(cursor, pk);
    "v1." + StripPadding(Base64(Bytes(WritePair(cursor, pk))))
  }

  /** None where the source answers 400. */
  function DecodeCursor(raw: string): Option<(Key, Key)>
  {
    if |raw| < 3 || raw[..3] != "v1." then None
    else
      var stripped := raw[3..];
      var b := Unbase64(stripped + Repeat('=', (4 - |stripped| % 4) % 4));
      if b.None? then None
      else
        var text := Text(b.value);
        if text.None? then None else ReadPair(text.value)
  }

  // ---------------------------------------------------------------- proofs: characters

  lemma HexRoundTrip(d: int)
    requires 0 <= d < 16
    ensures HexValue(Hex(d)) == Some(d) && Hex(d) as int < 128
  {
  }

  lemma HexDigits(u: int)
    requires 0 <= u < 0x10000
    ensures u / 4096 * 4096 + u / 256 % 16 * 256 + u / 16 % 16 * 16 + u % 16 == u
    ensures 0 <= u / 4096 < 16
  {
  }

  lemma UnicodeRoundTrip(u: int, rest: string)
    requires 0 <= u < 0x10000
    ensures ReadUnicode(UnicodeEscape(u) + rest) == Some(u) && (UnicodeEscape(u) + rest)[6..] == rest
    ensures UnicodeEscape(u)[0] == '\\' && UnicodeEscape(u)[1] == 'u'
  {
    var s := UnicodeEscape(u) + rest;
    HexDigits(u);
    HexRoundTrip(u / 4096);
    HexRoundTrip(u / 256 % 16);
    HexRoundTrip(u / 16 % 16);
    HexRoundTrip(u % 16);
  }

  lemma PairedRoundTrip(c: char, rest: string)
    requires c as int >= 0x10000
    ensures ReadChar(WriteChar(c) + rest) == Some((c, rest))
  {
    hide UnicodeEscape;
    hide ReadUnicode;
    var v := c as int - 0x10000;
    var u, w := 0xD800 + v / 0x400, 0xDC00 + v % 0x400;
    var hi, lo := UnicodeEscape(u), UnicodeEscape(w);
    var s := WriteChar(c) + rest;
    assert s == hi + (lo + rest);
    UnicodeRoundTrip(u, lo + rest);
    UnicodeRoundTrip(w, rest);
    assert s[6..] == lo + rest && s[12..] == rest;
    assert s[0] == '\\' && s[1] == 'u';
    assert 0x10000 + (u - 0xD800) * 0x400 + (w - 0xDC00) == c as int;
  }

  lemma EscapedRoundTrip(c: char, rest: string)
    requires c as int < 0x10000 && WriteChar(c) == UnicodeEscape(c as int)
    ensures ReadChar(WriteChar(c) + rest) == Some((c, rest))
  {
    var s := WriteChar(c) + rest;
    UnicodeRoundTrip(c as int, rest);
    assert s[0] == '\\' && s[1] == 'u';
  }

  lemma CharRoundTrip(c: char, rest: string)
    ensures ReadChar(WriteChar(c) + rest) == Some((c, rest))
  {
    var w := WriteChar(c);
    var s := w + rest;
    if c as int >= 0x10000 {
      PairedRoundTrip(c, rest);
    } else if |w| == 6 {
      EscapedRoundTrip(c, rest);
    } else if |w| == 2 {
      assert s[0] == w[0] && s[1] == w[1] && s[2..] == rest;
    } else {
      assert s[0] == c && s[1..] == rest;
    }
  }

  lemma {:induction false} CharsRoundTrip(s: string, rest: string)
    ensures ReadChars(WriteChars(s) + ['"'] + rest) == Some((s, rest))
  {
    if s == [] {
      assert WriteChars(s) + ['"'] + rest == ['"'] + rest;
    } else {
      var tail := WriteChars(s[1..]) + ['"'] + rest;
      var all := WriteChars(s) + ['"'] + rest;
      assert all == WriteChar(s[0]) + tail;
      CharRoundTrip(s[0], tail);
      CharsRoundTrip(s[1..], rest);
      assert all[0] == WriteChar(s[0])[0] != '"';
      assert [s[0]] + s[1..] == s;
    }
  }

  // ---------------------------------------------------------------- proofs: integers

  lemma {:induction false} DigitsRoundTrip(n: nat)
    ensures forall i :: 0 <= i < |Digits(n)| ==> IsDigit(Digits(n)[i])
    ensures DigitsValue(Digits(n)) == n
    ensures n > 0 ==> Digits(n)[0] != '0'
    ensures n == 0 ==> |Digits(n)| == 1
  {
    if n >= 10 {
      DigitsRoundTrip(n / 10);
      assert Digits(n)[..|Digits(n)| - 1] == Digits(n / 10);
    } else {
      assert Digits(n) == [Digit(n)];
    }
  }

  lemma {:induction false} SpanStops(s: string, rest: string)
    requires (forall i :: 0 <= i < |s| ==> IsDigit(s[i])) && (rest == [] || !IsDigit(rest[0]))
    ensures Span(s + rest) == |s|
  {
    if s == [] {
      assert s + rest == rest;
    } else {
      assert (s + rest)[1..] == s[1..] + rest;
      SpanStops(s[1..], rest);
    }
  }

  lemma IntRoundTrip(i: int, rest: string)
    requires rest == [] || !IsDigit(rest[0])
    ensures ReadInt(WriteInt(i) + rest) == Some((i, rest))
    ensures WriteInt(i)[0] != '"'
  {
    hide Digits;
    hide DigitsValue;
    hide Span;
    var n := if i < 0 then -i else i;
    var t := Digits(n) + rest;
    DigitsRoundTrip(n);
    SpanStops(Digits(n), rest);
    assert t[..|Digits(n)|] == Digits(n) && t[|Digits(n)|..] == rest;
    if i < 0 {
      assert WriteInt(i) + rest == ['-'] + t;
      assert (['-'] + t)[1..] == t;
    } else {
      assert IsDigit(t[0]) && t[0] == Digits(n)[0];
    }
  }

  // ---------------------------------------------------------------- proofs: arrays

  lemma KeyRoundTrip(k: Key, rest: string)
    requires rest == [] || !IsDigit(rest[0])
    ensures ReadKey(WriteKey(k) + rest) == Some((k, rest))
  {
    hide ReadInt;
    hide WriteChars;
    hide ReadChars;
    match k
    case Int(i) =>
      IntRoundTrip(i, rest);
      assert (WriteInt(i) + rest)[0] == WriteInt(i)[0];
    case Str(s) =>
      CharsRoundTrip(s, rest);
      assert (WriteKey(k) + rest)[1..] == WriteChars(s) + ['"'] + rest;
  }

  lemma PairRoundTrip(a: Key, b: Key)
    ensures ReadPair(WritePair(a, b)) == Some((a, b))
  {
    hide WriteKey;
    hide ReadKey;
    var after := [','] + (WriteKey(b) + [']']);
    assert WritePair(a, b) == ['['] + (WriteKey(a) + after);
    assert WritePair(a, b)[1..] == WriteKey(a) + after;
    KeyRoundTrip(a, after);
    assert after[1..] == WriteKey(b) + [']'];
    KeyRoundTrip(b, [']']);
  }

  lemma {:induction false} DigitsAscii(n: nat)
    ensures Ascii(Digits(n))
  {
    DigitsRoundTrip(n);
  }

  lemma {:induction false} CharsAscii(s: string)
    ensures Ascii(WriteChars(s))
  {
    if s != [] {
      CharsAscii(s[1..]);
      assert Ascii(WriteChar(s[0]));
    }
  }

  lemma KeyAscii(k: Key)
    ensures Ascii(WriteKey(k))
  {
    match k
    case Int(i) => DigitsAscii(if i < 0 then -i else i);
    case Str(s) => CharsAscii(s);
  }

  lemma WritePairAscii(a: Key, b: Key)
    ensures Ascii(WritePair(a, b))
  {
    KeyAscii(a);
    KeyAscii(b);
  }

  // ---------------------------------------------------------------- proofs: base64url

  lemma LetterRoundTrip(i: int)
    requires 0 <= i < 64
    ensures Index(Letter(i)) == Some(i) && Letter(i) != '='
  {
  }

  /** Three bytes cut into four sextets, and back. */
  lemma Sextets(x: Byte, y: Byte, z: Byte)
    ensures var a, b, c, d := x / 4, x % 4 * 16 + y / 16, y % 16 * 4 + z / 64, z % 64;
            && 0 <= a < 64 && 0 <= b < 64 && 0 <= c < 64 && 0 <= d < 64
            && a * 4 + b / 16 == x && b % 16 * 16 + c / 4 == y && c % 4 * 64 + d == z
  {
  }

  lemma QuantumRoundTrip(x: Byte, y: Byte, z: Byte)
    ensures Unquantum(Quantum(x, y, z)) == Some([x, y, z])
  {
    hide Letter;
    hide Index;
    Sextets(x, y, z);
    LetterRoundTrip(x / 4);
    LetterRoundTrip(x % 4 * 16 + y / 16);
    LetterRoundTrip(y % 16 * 4 + z / 64);
    LetterRoundTrip(z % 64);
  }

  lemma TwoByteRoundTrip(x: Byte, y: Byte)
    ensures Unquantum(Quantum(x, y, 0)[..3] + ['=']) == Some([x, y])
  {
    hide Letter;
    hide Index;
    Sextets(x, y, 0);
    LetterRoundTrip(x / 4);
    LetterRoundTrip(x % 4 * 16 + y / 16);
    LetterRoundTrip(y % 16 * 4 + 0 / 64);
  }

  lemma OneByteRoundTrip(x: Byte)
    ensures Unquantum(Quantum(x, 0, 0)[..2] + ['=', '=']) == Some([x])
  {
  }

  lemma {:induction false} Base64RoundTrip(b: seq<Byte>)
    ensures Unbase64(Base64(b)) == Some(b)
  {
    hide Unbase64;
    hide Unquantum;
    hide Quantum;
    if |b| == 0 {
      EmptyBase64();
    } else if |b| == 1 {
      OneByteRoundTrip(b[0]);
      assert b == [b[0]];
      assert Base64(b) == Quantum(b[0], 0, 0)[..2] + ['=', '='];
      LastQuantum(Base64(b), b);
    } else if |b| == 2 {
      TwoByteRoundTrip(b[0], b[1]);
      assert b == [b[0], b[1]];
      assert Base64(b) == Quantum(b[0], b[1], 0)[..3] + ['='];
      LastQuantum(Base64(b), b);
    } else if |b| >= 3 {
      QuantumRoundTrip(b[0], b[1], b[2]);
      Base64RoundTrip(b[3..]);
      FullQuantum(Quantum(b[0], b[1], b[2]), [b[0], b[1], b[2]], Base64(b[3..]), b[3..]);
      assert b == [b[0], b[1], b[2]] + b[3..];
    }
  }

  lemma FullQuantum(q: string, head: seq<Byte>, s: string, tail: seq<Byte>)
    requires |q| == 4 && |head| == 3 && Unquantum(q) == Some(head) && Unbase64(s) == Some(tail)
    ensures Unbase64(q + s) == Some(head + tail)
  {
  }

  lemma EmptyBase64()
    ensures Unbase64([]) == Some([])
  {
  }

  lemma LastQuantum(s: string, b: seq<Byte>)
    requires |s| == 4 && Unquantum(s) == Some(b)
    ensures Unbase64(s) == Some(b)
  {
    assert s[..4] == s && s[4..] == [];
    assert Unbase64(s[4..]) == Some([]);
    assert b + [] == b;
  }

  /** Stripping looks no further than the last letter. */
  lemma {:induction false} StripAfter(s: string, t: string)
    requires StripPadding(t) != [] || (t == [] && (s == [] || s[|s| - 1] != '='))
    ensures StripPadding(s + t) == s + StripPadding(t)
  {
    if t == [] {
      assert s + t == s;
    } else if t[|t| - 1] == '=' {
      assert (s + t)[..|s + t| - 1] == s + t[..|t| - 1];
      StripAfter(s, t[..|t| - 1]);
    }
  }

  /** A text with its padding on is restored from what is left when the padding is off. */
  ghost predicate Restores(padded: string, s: string)
  {
    s + Repeat('=', (4 - |s| % 4) % 4) == padded
  }

  lemma OnePad(letters: string)
    requires |letters| == 3 && letters[2] != '='
    ensures StripPadding(letters + ['=']) == letters && Restores(letters + ['='], letters)
  {
  }

  lemma TwoPads(letters: string)
    requires |letters| == 2 && letters[1] != '='
    ensures StripPadding(letters + ['=', '=']) == letters && Restores(letters + ['=', '='], letters)
  {
    var one, two := letters + ['='], letters + ['=', '='];
    assert two[..3] == one && one[..2] == letters;
    assert StripPadding(one) == letters;
    assert Repeat('=', 2) == ['='] + Repeat('=', 1) && Repeat('=', 1) == ['='] + Repeat('=', 0);
  }

  /** What was stripped is what the length tells to restore. */
  lemma {:induction false} PaddingRestored(b: seq<Byte>)
    ensures Restores(Base64(b), StripPadding(Base64(b)))
    ensures b != [] ==> StripPadding(Base64(b)) != []
  {
    if |b| == 0 {
      assert Repeat('=', 0) == [];
    } else if |b| == 1 {
      LetterRoundTrip(b[0] % 4 * 16);
      TwoPads(Quantum(b[0], 0, 0)[..2]);
    } else if |b| == 2 {
      LetterRoundTrip(b[1] % 16 * 4);
      OnePad(Quantum(b[0], b[1], 0)[..3]);
    } else {
      PaddingRestored(b[3..]);
      PaddingAfterQuantum(b);
      RestoresAfter(Quantum(b[0], b[1], b[2]), Base64(b[3..]), StripPadding(Base64(b[3..])));
    }
  }

  lemma RestoresAfter(q: string, t: string, s: string)
    requires |q| == 4 && Restores(t, s)
    ensures Restores(q + t, q + s)
  {
  }

  lemma PaddingAfterQuantum(b: seq<Byte>)
    requires |b| >= 3 && (|b| > 3 ==> StripPadding(Base64(b[3..])) != [])
    ensures StripPadding(Base64(b)) == Quantum(b[0], b[1], b[2]) + StripPadding(Base64(b[3..]))
  {
    LetterRoundTrip(b[2] % 64);
    StripAfter(Quantum(b[0], b[1], b[2]), Base64(b[3..]));
  }

  // ---------------------------------------------------------------- the law

  /** _decode_cursor inverts _encode_cursor. */
  lemma CursorRoundTrip(cursor: Key, pk: Key)
    ensures DecodeCursor(EncodeCursor(cursor, pk)) == Some((cursor, pk))
  {
    hide Base64;
    hide Unbase64;
    hide StripPadding;
    hide WritePair;
    hide ReadPair;
    WritePairAscii(cursor, pk);
    PairRoundTrip(cursor, pk);
    Unwraps(WritePair(cursor, pk));
    var stripped := StripPadding(Base64(Bytes(WritePair(cursor, pk))));
    assert EncodeCursor(cursor, pk) == "v1." + stripped;
    assert ("v1." + stripped)[3..] == stripped && ("v1." + stripped)[..3] == "v1.";
  }

  lemma Unwraps(json: string)
    requires Ascii(json)
    ensures var s := StripPadding(Base64(Bytes(json)));
            Unbase64(s + Repeat('=', (4 - |s| % 4) % 4)) == Some(Bytes(json))
    ensures Text(Bytes(json)) == Some(json)
  {
    UnwrapsBytes(Bytes(json));
    TextOfBytes(json);
    hide *;
  }

  lemma UnwrapsBytes(b: seq<Byte>)
    ensures var s := StripPadding(Base64(b)); Unbase64(s + Repeat('=', (4 - |s| % 4) % 4)) == Some(b)
  {
    hide Base64;
    hide Unbase64;
    hide StripPadding;
    hide Repeat;
    PaddingRestored(b);
    Base64RoundTrip(b);
  }

  lemma TextOfBytes(json: string)
    requires Ascii(json)
    ensures Text(Bytes(json)) == Some(json)
  {
    assert Text(Bytes(json)).value == json;
  }

  /** So different positions have different cursors. */
  lemma CursorInjective(c: Key, p: Key, c': Key, p': Key)
    requires EncodeCursor(c, p) == EncodeCursor(c', p')
    ensures c == c' && p == p'
  {
    CursorRoundTrip(c, p);
    CursorRoundTrip(c', p');
  }

  // ---------------------------------------------------------------- what a cursor looks like

  predicate UrlSafe(c: char)
  {
    'A' <= c <= 'Z' || 'a' <= c <= 'z' || '0' <= c <= '9' || c == '-' || c == '_'
  }

  lemma QuantumLetters(x: Byte, y: Byte, z: Byte)
    ensures forall c :: c in Quantum(x, y, z) ==> UrlSafe(c)
  {
  }

  /** What is left of a short quantum. */
  lemma LastLetters(b: seq<Byte>)
    requires 1 <= |b| <= 2
    ensures StripPadding(Base64(b)) == Quantum(b[0], if |b| == 2 then b[1] else 0, 0)[..|b| + 1]
  {
    if |b| == 2 {
      LetterRoundTrip(b[1] % 16 * 4);
      OnePad(Quantum(b[0], b[1], 0)[..3]);
    } else {
      LetterRoundTrip(b[0] % 4 * 16);
      TwoPads(Quantum(b[0], 0, 0)[..2]);
    }
  }

  /** Without its padding a base64 text has letters only. */
  lemma {:induction false} StrippedLetters(b: seq<Byte>)
    ensures forall c :: c in StripPadding(Base64(b)) ==> UrlSafe(c)
    decreases |b|
  {
    EmptyBase64();
    if b != [] {
      var q := Quantum(b[0], if |b| >= 2 then b[1] else 0, if |b| >= 3 then b[2] else 0);
      QuantumLetters(b[0], if |b| >= 2 then b[1] else 0, if |b| >= 3 then b[2] else 0);
      if |b| >= 3 {
        StrippedLetters(b[3..]);
        PaddingRestored(b[3..]);
        PaddingAfterQuantum(b);
      } else {
        LastLetters(b);
        assert forall c :: c in q[..|b| + 1] ==> c in q;
      }
    } else {
      assert StripPadding([]) == [];
    }
    hide Quantum;
    hide Base64;
    hide StripPadding;
    hide UrlSafe;
  }

  /** A cursor can stand in a URL as it is. */
  lemma CursorIsUrlSafe(cursor: Key, pk: Key)
    ensures |EncodeCursor(cursor, pk)| >= 3 && EncodeCursor(cursor, pk)[..3] == "v1."
    ensures forall c :: c in EncodeCursor(cursor, pk)[3..] ==> UrlSafe(c)
  {
    WritePairAscii(cursor, pk);
    StrippedLetters(Bytes(WritePair(cursor, pk)));
  }

  /** Three bytes, two and one, as in section 10 of RFC 4648, and the two letters that are url-safe only. */
  lemma KnownVectors()
    ensures Base64([102, 111, 111]) == "Zm9v" && Base64([102, 111]) == "Zm8=" && Base64([102]) == "Zg=="
    ensures Base64([251, 255]) == "-_8="
  {
    EmptyBase64();
    assert [102, 111, 111][3..] == [];
  }

  lemma KnownJson()
    ensures Ascii(WritePair(Int(5), Int(7))) && Bytes(WritePair(Int(5), Int(7))) == [91, 53, 44, 55, 93]
  {
    WritePairAscii(Int(5), Int(7));
    assert Digits(5) == "5" && Digits(7) == "7";
    assert WritePair(Int(5), Int(7)) == "[5,7]";
  }

  /** And for instance, the position after the row 7 with the cursor 5: [5,7] in JSON. */
  lemma KnownCursor()
    ensures EncodeCursor(Int(5), Int(7)) == "v1.WzUsN10"
  {
    KnownJson();
    var b := [91, 53, 44, 55, 93];
    assert b[3..] == [55, 93];
    LastLetters(b[3..]);
    PaddingRestored(b[3..]);
    PaddingAfterQuantum(b);
    assert Quantum(91, 53, 44) == "WzUs" && Quantum(55, 93, 0)[..3] == "N10";
    hide Quantum;
    hide StripPadding;
    hide Base64;
    hide WritePair;
    hide Bytes;
  }
}
