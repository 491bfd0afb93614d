/** Parsed JSON values and the compact, ASCII-only serialisation the checker hashes
    (`json.dumps(v, ensure_ascii=True, separators=(",", ":"))`), with its injectivity. */
module JsonValues {
  import opened Results
  import opened Chars

  /** A value as `json.loads` returns it. Object members keep their order; a float keeps its literal. */
  datatype Json =
    | JNull
    | JBool(b: bool)
    | JInt(i: int)
    | JFloat(literal: string)
    | JString(s: string)
    | JArray(elems: seq<Json>)
    | JObject(members: seq<(string, Json)>)

  /** No float anywhere in the value. */
  predicate FloatFree(j: Json) {
    match j
    case JFloat(_) => false
    case JArray(xs) => forall i :: 0 <= i < |xs| ==> FloatFree(xs[i])
    case JObject(ms) => forall i :: 0 <= i < |ms| ==> FloatFree(ms[i].1)
    case _ => true
  }

  /** Keys of every object are distinct (a Python dict), at every depth. */
  predicate UniqueKeys(j: Json) {
    match j
    case JArray(xs) => forall i :: 0 <= i < |xs| ==> UniqueKeys(xs[i])
    case JObject(ms) =>
      (forall i, k :: 0 <= i < k < |ms| ==> ms[i].0 != ms[k].0) &&
      (forall i :: 0 <= i < |ms| ==> UniqueKeys(ms[i].1))
    case _ => true
  }

  // ---------------------------------------------------------------- numbers

  predicate IsDigit(c: char) {
    '0' <= c <= '9'
  }

  function DigitChar(d: nat): (c: char)
    requires d < 10
    ensures IsDigit(c)
  {
    (48 + d) as char
  }

  /** `str(n)` for a natural number: decimal, no leading zero. */
  function NatToDecimal(n: nat): (s: string)
    ensures |s| > 0 && forall i :: 0 <= i < |s| ==> IsDigit(s[i])
  {
    if n < 10 then [DigitChar(n)] else NatToDecimal(n / 10) + [DigitChar(n % 10)]
  }

  /** `str(i)` for an integer. */
  function IntToDecimal(i: int): string {
    if i < 0 then "-" + NatToDecimal(-i) else NatToDecimal(i)
  }

  /** Reads a digit string back as a number. */
  function DecimalValue(s: string): int
    requires forall i :: 0 <= i < |s| ==> IsDigit(s[i])
  {
    if s == [] then 0 else DecimalValue(s[..|s| - 1]) * 10 + (s[|s| - 1] as int - 48)
  }

  lemma {:induction false} DecimalRoundTrip(n: nat)
    ensures DecimalValue(NatToDecimal(n)) == n
  {
    if n >= 10 {
      var s := NatToDecimal(n);
      assert s[..|s| - 1] == NatToDecimal(n / 10);
      DecimalRoundTrip(n / 10);
    }
  }

  /** The length of the run of digits a text starts with. */
  function LeadingDigits(s: string): (n: nat)
    ensures n <= |s|
  {
    if s != [] && IsDigit(s[0]) then 1 + LeadingDigits(s[1..]) else 0
  }

  lemma {:induction false} LeadingDigitsOf(d: string, x: string)
    requires forall i :: 0 <= i < |d| ==> IsDigit(d[i])
    requires x == [] || !IsDigit(x[0])
    ensures LeadingDigits(d + x) == |d|
  {
    if d != [] {
      assert (d + x)[1..] == d[1..] + x;
      LeadingDigitsOf(d[1..], x);
    } else {
      assert d + x == x;
    }
  }

  lemma DigitsSameLength(d1: string, d2: string, x: string, y: string)
    requires forall i :: 0 <= i < |d1| ==> IsDigit(d1[i])
    requires forall i :: 0 <= i < |d2| ==> IsDigit(d2[i])
    requires x == [] || !IsDigit(x[0])
    requires y == [] || !IsDigit(y[0])
    requires d1 + x == d2 + y
    ensures |d1| == |d2|
  {
    LeadingDigitsOf(d1, x);
    LeadingDigitsOf(d2, y);
  }

  /** A digit string followed by a non-digit is determined by the text. */
  lemma {:induction false} DigitsPrefix(d1: string, d2: string, x: string, y: string)
    requires forall i :: 0 <= i < |d1| ==> IsDigit(d1[i])
    requires forall i :: 0 <= i < |d2| ==> IsDigit(d2[i])
    requires x == [] || !IsDigit(x[0])
    requires y == [] || !IsDigit(y[0])
    requires d1 + x == d2 + y
    ensures d1 == d2 && x == y
  {
    DigitsSameLength(d1, d2, x, y);
    assert d1 == (d1 + x)[..|d1|];
    assert d2 == (d2 + y)[..|d2|];
  }

  /** Equal digit strings denote equal numbers. */
  lemma NatToDecimalInjective(n: nat, m: nat)
    requires NatToDecimal(n) == NatToDecimal(m)
    ensures n == m
  {
    DecimalRoundTrip(n);
    DecimalRoundTrip(m);
  }

  lemma IntLead(n: int, x: string)
    ensures (IntToDecimal(n) + x)[0] == '-' <==> n < 0
  {
    if n >= 0 {
      assert (IntToDecimal(n) + x)[0] == NatToDecimal(n)[0];
    }
  }

  lemma IntShape(n: int, x: string)
    ensures n < 0 ==> IntToDecimal(n) + x == "-" + (NatToDecimal(-n) + x)
    ensures n >= 0 ==> IntToDecimal(n) + x == NatToDecimal(n) + x
  {
  }

  lemma IntPrefix(n: int, m: int, x: string, y: string)
    requires x == [] || !IsDigit(x[0])
    requires y == [] || !IsDigit(y[0])
    requires IntToDecimal(n) + x == IntToDecimal(m) + y
    ensures n == m && x == y
  {
    IntLead(n, x);
    IntLead(m, y);
    IntShape(n, x);
    IntShape(m, y);
    var p: nat, q: nat := if n < 0 then -n else n, if m < 0 then -m else m;
    if n < 0 {
      FixedPrefix("-", NatToDecimal(p) + x, NatToDecimal(q) + y);
    }
    DigitsPrefix(NatToDecimal(p), NatToDecimal(q), x, y);
    NatToDecimalInjective(p, q);
  }

  // ---------------------------------------------------------------- strings

  function HexDigit(d: nat): char
    requires d < 16
  {
    if d < 10 then (48 + d) as char else (87 + d) as char
  }

  function HexDigitValue(c: char): int {
    if c <= '9' then c as int - 48 else c as int - 87
  }

  /** Two lower-case hex digits. */
  function Hex2(n: nat): (s: string)
    requires n < 0x100
    ensures |s| == 2
  {
    [HexDigit(n / 0x10), HexDigit(n % 0x10)]
  }

  function Hex2Value(s: string): int
    requires |s| == 2
  {
    HexDigitValue(s[0]) * 0x10 + HexDigitValue(s[1])
  }

  lemma Hex2RoundTrip(n: nat)
    requires n < 0x100
    ensures Hex2Value(Hex2(n)) == n
  {
    assert HexDigitValue(HexDigit(n / 0x10)) == n / 0x10;
    assert HexDigitValue(HexDigit(n % 0x10)) == n % 0x10;
  }

  /** Four lower-case hex digits, as in `'\\u{0:04x}'`. */
  function Hex4(n: nat): (s: string)
    requires n < 0x10000
    ensures |s| == 4
  {
    Hex2(n / 0x100) + Hex2(n % 0x100)
  }

  function Hex4Value(s: string): int
    requires |s| == 4
  {
    Hex2Value(s[..2]) * 0x100 + Hex2Value(s[2..])
  }

  lemma Hex4RoundTrip(n: nat)
    requires n < 0x10000
    ensures Hex4Value(Hex4(n)) == n
  {
    Hex2RoundTrip(n / 0x100);
    Hex2RoundTrip(n % 0x100);
    assert Hex4(n)[..2] == Hex2(n / 0x100);
    assert Hex4(n)[2..] == Hex2(n % 0x100);
  }

  /** `\\uXXXX`. */
  function UEscape(n: nat): (s: string)
    requires n < 0x10000
    ensures |s| == 6
  {
    "\\u" + Hex4(n)
  }

  /** Printable ASCII other than quote and backslash stands for itself. */
  predicate IsPlain(c: char) {
    0x20 <= c as int <= 0x7E && c != '"' && c != '\\'
  }

  /** The letter of the two-character escape `ensure_ascii` uses for `c`, if it has one. */
  function ShortEscape(c: char): Option<char> {
    if c == '"' then Some('"')
    else if c == '\\' then Some('\\')
    else if c == '\n' then Some('n')
    else if c == '\r' then Some('r')
    else if c == '\t' then Some('t')
    else if c as int == 0x08 then Some('b')
    else if c as int == 0x0C then Some('f')
    else None
  }

  /** `\\uXXXX`, as a UTF-16 surrogate pair above U+FFFF. */
  function UnicodeEscape(c: char): (s: string)
    ensures |s| == 6 || |s| == 12
    ensures s[0] == '\\' && s[1] == 'u'
  {
    if c as int < 0x10000 then UEscape(c as int)
    else
      var v := c as int - 0x10000;
      UEscape(0xD800 + v / 0x400) + UEscape(0xDC00 + v % 0x400)
  }

  /** How `ensure_ascii` writes one character: printable ASCII as itself, the two-character
      escapes for quote, backslash and the five named controls, and every other character
      as `\\uXXXX`. */
  function EscapeChar(c: char): (s: string)
    ensures |s| > 0 && s[0] != '"'
  {
    if IsPlain(c) then [c]
    else match ShortEscape(c)
      case Some(l) => ['\\', l]
      case None => UnicodeEscape(c)
  }

  /** Reads back the code point of the one escaped character at the start of `s`, with its length. */
  function DecodeEscape(s: string): (int, nat)
    requires |s| > 0
  {
    if s[0] != '\\' || |s| < 2 then (s[0] as int, 1)
    else if s[1] == '"' then (0x22, 2)
    else if s[1] == '\\' then (0x5C, 2)
    else if s[1] == 'n' then (0x0A, 2)
    else if s[1] == 'r' then (0x0D, 2)
    else if s[1] == 't' then (0x09, 2)
    else if s[1] == 'b' then (0x08, 2)
    else if s[1] == 'f' then (0x0C, 2)
    else if |s| < 6 then (s[0] as int, 1)
    else
      var h := Hex4Value(s[2..6]);
      if 0xD800 <= h < 0xDC00 && |s| >= 12 then
        (0x10000 + (h - 0xD800) * 0x400 + (Hex4Value(s[8..12]) - 0xDC00), 12)
      else (h, 6)
  }

  lemma UnicodeEscapeRoundTrip(c: char, rest: string)
    requires !IsPlain(c) && ShortEscape(c).None?
    ensures DecodeEscape(UnicodeEscape(c) + rest) == (c as int, |UnicodeEscape(c)|)
  {
    var s := UnicodeEscape(c) + rest;
    if c as int < 0x10000 {
      Hex4RoundTrip(c as int);
      assert s[2..6] == Hex4(c as int);
    } else {
      var v := c as int - 0x10000;
      var hi, lo := 0xD800 + v / 0x400, 0xDC00 + v % 0x400;
      Hex4RoundTrip(hi);
      Hex4RoundTrip(lo);
      assert s[2..6] == Hex4(hi);
      assert s[8..12] == Hex4(lo);
      assert v == (v / 0x400) * 0x400 + v % 0x400;
    }
  }

  lemma EscapeCharRoundTrip(c: char, rest: string)
    ensures DecodeEscape(EscapeChar(c) + rest) == (c as int, |EscapeChar(c)|)
  {
    if !IsPlain(c) && ShortEscape(c).None? {
      UnicodeEscapeRoundTrip(c, rest);
    }
  }

  lemma EscapeCharPrefix(c: char, d: char, u: string, v: string)
    requires EscapeChar(c) + u == EscapeChar(d) + v
    ensures c == d && u == v
  {
    EscapeCharRoundTrip(c, u);
    EscapeCharRoundTrip(d, v);
    assert (EscapeChar(c) + u)[..|EscapeChar(c)|] == EscapeChar(c);
    assert (EscapeChar(d) + v)[..|EscapeChar(d)|] == EscapeChar(d);
  }

  /** The escaped body of a string literal. */
  function Escape(s: string): string {
    if s == [] then [] else EscapeChar(s[0]) + Escape(s[1..])
  }

  /** A string as `json.dumps` writes it: escaped and in double quotes. */
  function Quote(s: string): (q: string)
    ensures |q| >= 2 && q[0] == '"'
  {
    "\"" + Escape(s) + "\""
  }

  /** An escaped non-empty string never starts with a quote. */
  lemma EscapeLead(t: string, y: string)
    requires t != []
    ensures (Escape(t) + y)[0] != '"'
  {
    var e := EscapeChar(t[0]);
    assert Escape(t) + y == e + (Escape(t[1..]) + y);
  }

  lemma EscapeCons(s: string, w: string)
    requires s != []
    ensures Escape(s) + w == EscapeChar(s[0]) + (Escape(s[1..]) + w)
  {
  }

  /** An escaped string is recognised up to its closing quote, whatever follows. */
  lemma {:induction false} EscapePrefix(s: string, t: string, x: string, y: string)
    requires Escape(s) + ("\"" + x) == Escape(t) + ("\"" + y)
    ensures s == t && x == y
  {
    if s == [] && t == [] {
      assert Escape(s) == [] && Escape(t) == [];
      assert Escape(s) + ("\"" + x) == "\"" + x;
      assert Escape(t) + ("\"" + y) == "\"" + y;
      FixedPrefix("\"", x, y);
    } else if s == [] {
      EscapeLead(t, "\"" + y);
    } else if t == [] {
      EscapeLead(s, "\"" + x);
    } else {
      EscapeCons(s, "\"" + x);
      EscapeCons(t, "\"" + y);
      EscapeCharPrefix(s[0], t[0], Escape(s[1..]) + ("\"" + x), Escape(t[1..]) + ("\"" + y));
      EscapePrefix(s[1..], t[1..], x, y);
      assert s == [s[0]] + s[1..] && t == [t[0]] + t[1..];
    }
  }

  lemma QuoteShape(s: string, x: string)
    ensures Quote(s) + x == "\"" + (Escape(s) + ("\"" + x))
  {
  }

  /** A quoted string is recognised where it stands, whatever follows it. */
  lemma QuotePrefix(s: string, t: string, x: string, y: string)
    requires Quote(s) + x == Quote(t) + y
    ensures s == t && x == y
  {
    QuoteShape(s, x);
    QuoteShape(t, y);
    FixedPrefix("\"", Escape(s) + ("\"" + x), Escape(t) + ("\"" + y));
    EscapePrefix(s, t, x, y);
  }

  // ---------------------------------------------------------------- values

  /** `",".join(parts)`. */
  function JoinComma(parts: seq<string>): string {
    if parts == [] then [] else if |parts| == 1 then parts[0] else parts[0] + "," + JoinComma(parts[1..])
  }

  lemma JoinCommaCons(parts: seq<string>, rest: string)
    requires parts != []
    ensures JoinComma(parts) + rest ==
      parts[0] + ((if |parts| > 1 then "," + JoinComma(parts[1..]) else "") + rest)
  {
  }

  /** What follows the first part of a comma-joined list closed by `close`. */
  function JoinTail(parts: seq<string>, close: string, x: string): string
    requires parts != []
  {
    if |parts| > 1 then "," + (JoinComma(parts[1..]) + (close + x)) else close + x
  }

  /** A comma-joined list closed by a one-character `close` starts with that character
      exactly when the list is empty; otherwise it is its first part and a tail that
      starts with a comma exactly when more parts follow. */
  lemma JoinCommaSplit(parts: seq<string>, close: string, x: string)
    requires |close| == 1 && close[0] != ','
    requires forall i :: 0 <= i < |parts| ==> |parts[i]| > 0 && parts[i][0] != close[0]
    ensures |JoinComma(parts) + (close + x)| > 0
    ensures (JoinComma(parts) + (close + x))[0] == close[0] <==> parts == []
    ensures parts == [] ==> JoinComma(parts) + (close + x) == close + x
    ensures parts != [] ==> JoinComma(parts) + (close + x) == parts[0] + JoinTail(parts, close, x)
    ensures parts != [] ==> (JoinTail(parts, close, x)[0] == ',' <==> |parts| > 1)
  {
    if parts != [] {
      JoinCommaCons(parts, close + x);
      if |parts| > 1 {
        assert ("," + JoinComma(parts[1..])) + (close + x) == "," + (JoinComma(parts[1..]) + (close + x));
      } else {
        assert "" + (close + x) == close + x;
      }
    } else {
      assert JoinComma(parts) + (close + x) == close + x;
    }
  }

  /** The compact ASCII serialisation. Object members are written in the order they stand:
      wherever the canonicaliser serialises, the keys are already sorted. A float keeps its literal. */
  function Serialize(j: Json): string
    decreases j, 1
  {
    match j
    case JNull => "null"
    case JBool(b) => if b then "true" else "false"
    case JInt(n) => IntToDecimal(n)
    case JFloat(lit) => lit
    case JString(s) => Quote(s)
    case JArray(xs) => "[" + JoinComma(ElemTexts(xs)) + "]"
    case JObject(ms) => "{" + JoinComma(MemberTexts(ms)) + "}"
  }

  /** The serialisations of the elements of an array. */
  function ElemTexts(xs: seq<Json>): (r: seq<string>)
    ensures |r| == |xs| && forall i :: 0 <= i < |xs| ==> r[i] == Serialize(xs[i])
    decreases xs, 0
  {
    seq(|xs|, i requires 0 <= i < |xs| => Serialize(xs[i]))
  }

  /** The `"key":value` texts of the members of an object. */
  function MemberTexts(ms: seq<(string, Json)>): (r: seq<string>)
    ensures |r| == |ms| && forall i :: 0 <= i < |ms| ==> r[i] == MemberText(ms[i])
    decreases ms, 1
  {
    seq(|ms|, i requires 0 <= i < |ms| => MemberText(ms[i]))
  }

  /** One `"key":value` member text. */
  function MemberText(m: (string, Json)): string
    decreases m, 0
  {
    Quote(m.0) + ":" + Serialize(m.1)
  }

  lemma ArrayShape(xs: seq<Json>, x: string)
    ensures Serialize(JArray(xs)) + x == "[" + (JoinComma(ElemTexts(xs)) + ("]" + x))
  {
  }

  lemma ObjectShape(ms: seq<(string, Json)>, x: string)
    ensures Serialize(JObject(ms)) + x == "{" + (JoinComma(MemberTexts(ms)) + ("}" + x))
  {
  }

  /** The first character of a serialisation tells what kind of value it is. */
  lemma SerializeLead(j: Json)
    requires FloatFree(j)
    ensures |Serialize(j)| > 0
    ensures var c := Serialize(j)[0];
      match j
      case JNull => c == 'n'
      case JBool(b) => c == if b then 't' else 'f'
      case JInt(n) => c == '-' || IsDigit(c)
      case JString(_) => c == '"'
      case JArray(_) => c == '['
      case JObject(_) => c == '{'
      case JFloat(_) => true
  {
  }

  /** Two serialisations that start alike are of the same kind of value. */
  lemma SameKind(a: Json, b: Json)
    requires FloatFree(a) && FloatFree(b)
    requires |Serialize(a)| > 0 && |Serialize(b)| > 0 && Serialize(a)[0] == Serialize(b)[0]
    ensures a.JNull? <==> b.JNull?
    ensures a.JBool? <==> b.JBool?
    ensures a.JBool? ==> a == b
    ensures a.JInt? <==> b.JInt?
    ensures a.JString? <==> b.JString?
    ensures a.JArray? <==> b.JArray?
    ensures a.JObject? <==> b.JObject?
  {
    SerializeLead(a);
    SerializeLead(b);
  }

  lemma FixedPrefix(w: string, x: string, y: string)
    requires w + x == w + y
    ensures x == y
  {
    assert x == (w + x)[|w|..];
  }

  /** Serialisation is self-delimiting: a float-free value can be read back from the front of
      any text that starts with it and continues with a non-digit. */
  lemma {:induction false} SerializePrefix(a: Json, b: Json, x: string, y: string)
    requires FloatFree(a) && FloatFree(b)
    requires x == [] || !IsDigit(x[0])
    requires y == [] || !IsDigit(y[0])
    requires Serialize(a) + x == Serialize(b) + y
    ensures a == b && x == y
    decreases a, 1
  {
    SerializeLead(a);
    SerializeLead(b);
    assert Serialize(a)[0] == (Serialize(a) + x)[0] == (Serialize(b) + y)[0] == Serialize(b)[0];
    SameKind(a, b);
    match a
    case JNull =>
      FixedPrefix("null", x, y);
    case JBool(p) =>
      FixedPrefix(Serialize(a), x, y);
    case JInt(n) =>
      IntPrefix(n, b.i, x, y);
    case JString(s) =>
      QuotePrefix(s, b.s, x, y);
    case JArray(xs) =>
      var ys := b.elems;
      ArrayShape(xs, x);
      ArrayShape(ys, y);
      FixedPrefix("[", JoinComma(ElemTexts(xs)) + ("]" + x), JoinComma(ElemTexts(ys)) + ("]" + y));
      ElemsPrefix(xs, ys, x, y);
    case JObject(ms) =>
      var ns := b.members;
      ObjectShape(ms, x);
      ObjectShape(ns, y);
      FixedPrefix("{", JoinComma(MemberTexts(ms)) + ("}" + x), JoinComma(MemberTexts(ns)) + ("}" + y));
      MembersPrefix(ms, ns, x, y);
  }

  lemma {:induction false} ElemsPrefix(xs: seq<Json>, ys: seq<Json>, x: string, y: string)
    requires forall i :: 0 <= i < |xs| ==> FloatFree(xs[i])
    requires forall i :: 0 <= i < |ys| ==> FloatFree(ys[i])
    requires JoinComma(ElemTexts(xs)) + ("]" + x) == JoinComma(ElemTexts(ys)) + ("]" + y)
    ensures xs == ys && x == y
    decreases xs, 0
  {
    ElemTextsLead(xs);
    ElemTextsLead(ys);
    JoinCommaSplit(ElemTexts(xs), "]", x);
    JoinCommaSplit(ElemTexts(ys), "]", y);
    if xs == [] {
      FixedPrefix("]", x, y);
    } else {
      var tx, ty := JoinTail(ElemTexts(xs), "]", x), JoinTail(ElemTexts(ys), "]", y);
      SerializePrefix(xs[0], ys[0], tx, ty);
      if |xs| > 1 {
        assert ElemTexts(xs)[1..] == ElemTexts(xs[1..]);
        assert ElemTexts(ys)[1..] == ElemTexts(ys[1..]);
        FixedPrefix(",", JoinComma(ElemTexts(xs[1..])) + ("]" + x), JoinComma(ElemTexts(ys[1..])) + ("]" + y));
        ElemsPrefix(xs[1..], ys[1..], x, y);
        assert xs == [xs[0]] + xs[1..] && ys == [ys[0]] + ys[1..];
      } else {
        FixedPrefix("]", x, y);
      }
    }
  }

  lemma ElemTextsLead(xs: seq<Json>)
    requires forall i :: 0 <= i < |xs| ==> FloatFree(xs[i])
    ensures forall i :: 0 <= i < |xs| ==> |ElemTexts(xs)[i]| > 0 && ElemTexts(xs)[i][0] !in "]}"
  {
    forall i | 0 <= i < |xs|
      ensures |ElemTexts(xs)[i]| > 0 && ElemTexts(xs)[i][0] !in "]}"
    {
      SerializeLead(xs[i]);
    }
  }

  lemma {:induction false} MembersPrefix(ms: seq<(string, Json)>, ns: seq<(string, Json)>, x: string, y: string)
    requires forall i :: 0 <= i < |ms| ==> FloatFree(ms[i].1)
    requires forall i :: 0 <= i < |ns| ==> FloatFree(ns[i].1)
    requires JoinComma(MemberTexts(ms)) + ("}" + x) == JoinComma(MemberTexts(ns)) + ("}" + y)
    ensures ms == ns && x == y
    decreases ms, 0
  {
    MemberTextsLead(ms);
    MemberTextsLead(ns);
    JoinCommaSplit(MemberTexts(ms), "}", x);
    JoinCommaSplit(MemberTexts(ns), "}", y);
    if ms == [] {
      FixedPrefix("}", x, y);
    } else {
      var tx, ty := JoinTail(MemberTexts(ms), "}", x), JoinTail(MemberTexts(ns), "}", y);
      MemberPrefix(ms[0], ns[0], tx, ty);
      if |ms| > 1 {
        assert MemberTexts(ms)[1..] == MemberTexts(ms[1..]);
        assert MemberTexts(ns)[1..] == MemberTexts(ns[1..]);
        FixedPrefix(",", JoinComma(MemberTexts(ms[1..])) + ("}" + x), JoinComma(MemberTexts(ns[1..])) + ("}" + y));
        MembersPrefix(ms[1..], ns[1..], x, y);
        assert ms == [ms[0]] + ms[1..] && ns == [ns[0]] + ns[1..];
      } else {
        FixedPrefix("}", x, y);
      }
    }
  }

  lemma MemberTextsLead(ms: seq<(string, Json)>)
    ensures forall i :: 0 <= i < |ms| ==> |MemberTexts(ms)[i]| > 0 && MemberTexts(ms)[i][0] == '"'
  {
    forall i | 0 <= i < |ms|
      ensures |MemberTexts(ms)[i]| > 0 && MemberTexts(ms)[i][0] == '"'
    {
      MemberShape(ms[i], "");
    }
  }

  lemma MemberShape(m: (string, Json), x: string)
    ensures MemberText(m) + x == Quote(m.0) + (":" + (Serialize(m.1) + x))
    ensures |MemberText(m)| > 0 && MemberText(m)[0] == '"'
  {
  }

  lemma {:induction false} MemberPrefix(m: (string, Json), n: (string, Json), x: string, y: string)
    requires FloatFree(m.1) && FloatFree(n.1)
    requires x == [] || !IsDigit(x[0])
    requires y == [] || !IsDigit(y[0])
    requires MemberText(m) + x == MemberText(n) + y
    ensures m == n && x == y
    decreases m, 0
  {
    MemberShape(m, x);
    MemberShape(n, y);
    QuotePrefix(m.0, n.0, ":" + (Serialize(m.1) + x), ":" + (Serialize(n.1) + y));
    FixedPrefix(":", Serialize(m.1) + x, Serialize(n.1) + y);
    SerializePrefix(m.1, n.1, x, y);
  }

  /** Distinct float-free values serialise to distinct texts. */
  lemma SerializeInjective(a: Json, b: Json)
    requires FloatFree(a) && FloatFree(b)
    requires Serialize(a) == Serialize(b)
    ensures a == b
  {
    assert Serialize(a) + [] == Serialize(b) + [];
    SerializePrefix(a, b, [], []);
  }

  // ---------------------------------------------------------------- ensure_ascii

  lemma UEscapeAscii(n: nat)
    requires n < 0x10000
    ensures IsAscii(UEscape(n))
  {
    var h := Hex4(n);
    assert h == [HexDigit(n / 0x100 / 0x10), HexDigit(n / 0x100 % 0x10),
                 HexDigit(n % 0x100 / 0x10), HexDigit(n % 0x100 % 0x10)];
  }

  lemma EscapeCharAscii(c: char)
    ensures IsAscii(EscapeChar(c))
  {
    if !IsPlain(c) && ShortEscape(c).None? {
      if c as int < 0x10000 {
        UEscapeAscii(c as int);
      } else {
        var v := c as int - 0x10000;
        var hi, lo := 0xD800 + v / 0x400, 0xDC00 + v % 0x400;
        UEscapeAscii(hi);
        UEscapeAscii(lo);
        AsciiConcat(UEscape(hi), UEscape(lo));
      }
    }
  }

  lemma {:induction false} EscapeAscii(s: string)
    ensures IsAscii(Escape(s))
  {
    if s != [] {
      EscapeCharAscii(s[0]);
      EscapeAscii(s[1..]);
      AsciiConcat(EscapeChar(s[0]), Escape(s[1..]));
    }
  }

  lemma QuoteAscii(s: string)
    ensures IsAscii(Quote(s))
  {
    EscapeAscii(s);
    AsciiConcat("\"", Escape(s));
    AsciiConcat("\"" + Escape(s), "\"");
  }

  lemma {:induction false} JoinCommaAscii(parts: seq<string>)
    requires forall i :: 0 <= i < |parts| ==> IsAscii(parts[i])
    ensures IsAscii(JoinComma(parts))
  {
    if |parts| > 1 {
      JoinCommaAscii(parts[1..]);
      AsciiConcat(parts[0], ",");
      AsciiConcat(parts[0] + ",", JoinComma(parts[1..]));
    }
  }

  /** `ensure_ascii=True`: the serialisation of a float-free value is pure ASCII, whatever
      characters its strings and keys hold. */
  lemma {:induction false} SerializeAscii(j: Json)
    requires FloatFree(j)
    ensures IsAscii(Serialize(j))
    decreases j
  {
    match j
    case JInt(n) =>
      if n < 0 {
        AsciiConcat("-", NatToDecimal(-n));
      }
    case JString(s) => QuoteAscii(s);
    case JArray(xs) =>
      var parts := ElemTexts(xs);
      forall i | 0 <= i < |parts| ensures IsAscii(parts[i]) {
        SerializeAscii(xs[i]);
      }
      JoinCommaAscii(parts);
      AsciiConcat("[", JoinComma(parts));
      AsciiConcat("[" + JoinComma(parts), "]");
    case JObject(ms) =>
      var parts := MemberTexts(ms);
      forall i | 0 <= i < |parts| ensures IsAscii(parts[i]) {
        QuoteAscii(ms[i].0);
        SerializeAscii(ms[i].1);
        AsciiConcat(Quote(ms[i].0), ":");
        AsciiConcat(Quote(ms[i].0) + ":", Serialize(ms[i].1));
      }
      JoinCommaAscii(parts);
      AsciiConcat("{", JoinComma(parts));
      AsciiConcat("{" + JoinComma(parts), "}");
    case _ =>
  }
}
