/** CanonText v1: newline normalisation, trailing-space stripping, Unicode composition (NFC)
    and a left-to-right scan for forbidden characters. */
module CanonText {
  import opened Results
  import opened Chars

  const TabForbidden := "TAB_FORBIDDEN"
  const ZeroWidthForbidden := "ZERO_WIDTH_FORBIDDEN"
  const ControlCharForbidden := "CONTROL_CHAR_FORBIDDEN"

  /** ZWSP, ZWNJ, ZWJ and BOM. */
  const ForbiddenZeroWidth: set<char> := {'​', '‌', '‍', '﻿'}

  /** A character that may appear in canonical text: LF, or a code point from U+0020 up,
      other than U+007F and the four zero-width characters. */
  predicate CanonChar(c: char) {
    c == '\n' || (c as int >= 0x20 && c as int != 0x7F && c !in ForbiddenZeroWidth)
  }

  predicate AllCanonChars(t: string) {
    forall i :: 0 <= i < |t| ==> CanonChar(t[i])
  }

  /** No line of `t`, the last one included, ends in an ASCII space. */
  predicate NoTrailingSpace(t: string) {
    forall i :: 0 <= i < |t| && t[i] == ' ' ==> i + 1 < |t| && t[i + 1] != '\n'
  }

  // ---------------------------------------------------------------- newlines

  /** No CR LF pair inside `t`. */
  predicate CrLfFree(t: string) {
    forall i :: 0 <= i < |t| - 1 ==> !(t[i] == '\r' && t[i + 1] == '\n')
  }

  /** `"\r\n".join(pieces)`. */
  function JoinCrLf(pieces: seq<string>): string {
    if pieces == [] then []
    else if |pieces| == 1 then pieces[0]
    else pieces[0] + "\r\n" + JoinCrLf(pieces[1..])
  }

  /** `text.split("\r\n")`: the pieces between CR LF pairs. None holds a pair, and joining
      them back with CR LF gives the text again. */
  function SplitCrLf(s: string): (pieces: seq<string>)
    ensures |pieces| >= 1 && pieces[0] <= s
    ensures forall i :: 0 <= i < |pieces| ==> CrLfFree(pieces[i])
    ensures JoinCrLf(pieces) == s
  {
    if s == [] then [[]]
    else if |s| >= 2 && s[0] == '\r' && s[1] == '\n' then
      var rest := SplitCrLf(s[2..]);
      assert ([[]] + rest)[1..] == rest;
      [[]] + rest
    else
      var rest := SplitCrLf(s[1..]);
      var first := [s[0]] + rest[0];
      assert |rest[0]| > 0 ==> rest[0][0] == s[1];
      ConsCrLfFree(s[0], rest[0]);
      JoinCrLfCons(s[0], rest);
      assert [s[0]] + s[1..] == s;
      [first] + rest[1..]
  }

  lemma ConsCrLfFree(c: char, t: string)
    requires CrLfFree(t) && !(c == '\r' && |t| > 0 && t[0] == '\n')
    ensures CrLfFree([c] + t)
  {
    var u := [c] + t;
    forall i | 1 <= i < |u| - 1 ensures !(u[i] == '\r' && u[i + 1] == '\n') {
      assert u[i] == t[i - 1] && u[i + 1] == t[i];
    }
  }

  lemma ConsAssoc(c: char, a: string, sep: string, b: string)
    ensures ([c] + a) + sep + b == [c] + (a + sep + b)
  {
  }

  lemma JoinCrLfCons(c: char, rest: seq<string>)
    requires |rest| >= 1
    ensures JoinCrLf([[c] + rest[0]] + rest[1..]) == [c] + JoinCrLf(rest)
  {
    var l := [[c] + rest[0]] + rest[1..];
    if |rest| == 1 {
      assert l == [[c] + rest[0]];
    } else {
      var tail := JoinCrLf(rest[1..]);
      assert JoinCrLf(l) == ([c] + rest[0]) + "\r\n" + tail by {
        assert l[1..] == rest[1..];
      }
      assert JoinCrLf(rest) == rest[0] + "\r\n" + tail;
      ConsAssoc(c, rest[0], "\r\n", tail);
    }
  }



  lemma JoinLinesCons(c: char, rest: seq<string>)
    requires |rest| >= 1
    ensures JoinLines([[c] + rest[0]] + rest[1..]) == [c] + JoinLines(rest)
  {
    var l := [[c] + rest[0]] + rest[1..];
    if |rest| == 1 {
      assert l == [[c] + rest[0]];
    } else {
      var tail := JoinLines(rest[1..]);
      assert JoinLines(l) == ([c] + rest[0]) + "\n" + tail by {
        assert l[1..] == rest[1..];
      }
      assert JoinLines(rest) == rest[0] + "\n" + tail;
      ConsAssoc(c, rest[0], "\n", tail);
    }
  }



  lemma JoinLinesEmptyFirst(rest: seq<string>)
    requires |rest| >= 1
    ensures JoinLines([[]] + rest) == "\n" + JoinLines(rest)
  {
    assert ([[]] + rest)[1..] == rest;
  }

  /** `text.replace("\r\n", "\n")`, which is `"\n".join(text.split("\r\n"))`. */
  function ReplaceCrLf(s: string): (r: string)
    ensures '\r' !in s ==> r == s
    ensures r == JoinLines(SplitCrLf(s))
  {
    if |s| >= 2 && s[0] == '\r' && s[1] == '\n' then
      JoinLinesEmptyFirst(SplitCrLf(s[2..]));
      "\n" + ReplaceCrLf(s[2..])
    else if s == [] then []
    else
      JoinLinesCons(s[0], SplitCrLf(s[1..]));
      [s[0]] + ReplaceCrLf(s[1..])
  }

  /** `text.replace("\r", "\n")`. */
  function ReplaceCr(s: string): (r: string)
    ensures |r| == |s|
    ensures forall i :: 0 <= i < |s| ==> r[i] == if s[i] == '\r' then '\n' else s[i]
  {
    if s == [] then [] else [if s[0] == '\r' then '\n' else s[0]] + ReplaceCr(s[1..])
  }

  lemma ReplaceCrConcat(a: string, b: string)
    ensures ReplaceCr(a + b) == ReplaceCr(a) + ReplaceCr(b)
  {
    var l, r := ReplaceCr(a + b), ReplaceCr(a) + ReplaceCr(b);
    forall i | 0 <= i < |l| ensures l[i] == r[i] {
      if i < |a| { assert (a + b)[i] == a[i]; } else { assert (a + b)[i] == b[i - |a|]; }
    }
  }

  /** The lines of `s` when a CR LF pair, a lone CR and an LF each end a line. */
  function BreakLines(s: string): (lines: seq<string>)
    ensures |lines| >= 1
    ensures forall i :: 0 <= i < |lines| ==> '\n' !in lines[i] && '\r' !in lines[i]
  {
    if s == [] then [[]]
    else if |s| >= 2 && s[0] == '\r' && s[1] == '\n' then [[]] + BreakLines(s[2..])
    else if s[0] == '\r' || s[0] == '\n' then [[]] + BreakLines(s[1..])
    else
      var rest := BreakLines(s[1..]);
      [[s[0]] + rest[0]] + rest[1..]
  }

  /** The two replacements write every line break as one LF between the same lines. */
  lemma {:induction false} ReplacementsJoinBreakLines(s: string)
    ensures ReplaceCr(ReplaceCrLf(s)) == JoinLines(BreakLines(s))
    decreases |s|
  {
    if s == [] {
    } else if |s| >= 2 && s[0] == '\r' && s[1] == '\n' {
      ReplacementsJoinBreakLines(s[2..]);
      ReplaceCrConcat("\n", ReplaceCrLf(s[2..]));
      JoinLinesEmptyFirst(BreakLines(s[2..]));
    } else if s[0] == '\r' || s[0] == '\n' {
      ReplacementsJoinBreakLines(s[1..]);
      ReplaceCrConcat([s[0]], ReplaceCrLf(s[1..]));
      JoinLinesEmptyFirst(BreakLines(s[1..]));
    } else {
      ReplacementsJoinBreakLines(s[1..]);
      ReplaceCrConcat([s[0]], ReplaceCrLf(s[1..]));
      JoinLinesCons(s[0], BreakLines(s[1..]));
    }
  }

  /** `normalize_newlines`: CRLF and lone CR both become LF. Read back as lines, the result has
      exactly the lines of the input broken at CR LF, lone CR and LF. */
  function NormalizeNewlines(s: string): (r: string)
    ensures '\r' !in r
    ensures '\r' !in s ==> r == s
    ensures SplitLines(r) == BreakLines(s)
  {
    ReplacementsJoinBreakLines(s);
    SplitJoinLines(BreakLines(s));
    ReplaceCr(ReplaceCrLf(s))
  }

  // ---------------------------------------------------------------- trailing spaces

  /** `text.split("\n")`: always at least one (possibly empty) line, none holding LF,
      and joining them back with LF gives the text again. */
  function SplitLines(s: string): (lines: seq<string>)
    ensures |lines| >= 1
    ensures forall i :: 0 <= i < |lines| ==> '\n' !in lines[i]
    ensures JoinLines(lines) == s
  {
    if s == [] then [[]]
    else
      var rest := SplitLines(s[1..]);
      if s[0] == '\n' then [[]] + rest
      else [[s[0]] + rest[0]] + rest[1..]
  }

  /** `"\n".join(lines)`. */
  function JoinLines(lines: seq<string>): string {
    if lines == [] then []
    else if |lines| == 1 then lines[0]
    else lines[0] + "\n" + JoinLines(lines[1..])
  }

  lemma {:induction false} SplitLinesAfter(a: string, t: string)
    requires '\n' !in a
    ensures SplitLines(a + "\n" + t) == [a] + SplitLines(t)
    decreases |a|
  {
    if a == [] {
      assert ("\n" + t)[1..] == t;
    } else {
      assert (a + "\n" + t)[1..] == a[1..] + "\n" + t;
      SplitLinesAfter(a[1..], t);
      assert [a[0]] + a[1..] == a;
    }
  }

  lemma {:induction false} SplitLinesOne(a: string)
    requires '\n' !in a
    ensures SplitLines(a) == [a]
    decreases |a|
  {
    if a != [] {
      SplitLinesOne(a[1..]);
      assert [a[0]] + a[1..] == a;
    }
  }

  /** Splitting at LF undoes joining with LF, for lines free of LF. */
  lemma {:induction false} SplitJoinLines(lines: seq<string>)
    requires |lines| >= 1 && forall i :: 0 <= i < |lines| ==> '\n' !in lines[i]
    ensures SplitLines(JoinLines(lines)) == lines
    decreases |lines|
  {
    if |lines| == 1 {
      SplitLinesOne(lines[0]);
    } else {
      SplitJoinLines(lines[1..]);
      SplitLinesAfter(lines[0], JoinLines(lines[1..]));
      assert [lines[0]] + lines[1..] == lines;
    }
  }

  /** `line.rstrip(" ")`: removes exactly the maximal run of trailing ASCII spaces. */
  function RStripSpaces(line: string): (r: string)
    ensures r <= line
    ensures r == [] || r[|r| - 1] != ' '
    ensures forall i :: |r| <= i < |line| ==> line[i] == ' '
  {
    if line != [] && line[|line| - 1] == ' ' then RStripSpaces(line[..|line| - 1]) else line
  }

  /** `strip_trailing_spaces`: split on LF, right-strip spaces from every line, rejoin. Read
      back as lines, line i of the result is line i of the input with its trailing spaces gone. */
  function StripTrailingSpaces(s: string): (r: string)
    ensures |SplitLines(r)| == |SplitLines(s)|
    ensures forall i :: 0 <= i < |SplitLines(s)| ==> SplitLines(r)[i] == RStripSpaces(SplitLines(s)[i])
  {
    var lines := SplitLines(s);
    var stripped := seq(|lines|, i requires 0 <= i < |lines| => RStripSpaces(lines[i]));
    SplitJoinLines(stripped);
    JoinLines(stripped)
  }

  lemma NoTrailingSpaceAroundLf(a: string, b: string)
    ensures NoTrailingSpace(a + "\n" + b) <==> NoTrailingSpace(a) && NoTrailingSpace(b)
  {
    if NoTrailingSpace(a + "\n" + b) {
      NoTrailingSpaceParts(a, b);
    }
    if NoTrailingSpace(a) && NoTrailingSpace(b) {
      NoTrailingSpaceJoined(a, b);
    }
  }

  lemma NoTrailingSpaceParts(a: string, b: string)
    requires NoTrailingSpace(a + "\n" + b)
    ensures NoTrailingSpace(a) && NoTrailingSpace(b)
  {
    var s := a + "\n" + b;
    forall i | 0 <= i < |a| && a[i] == ' ' ensures i + 1 < |a| && a[i + 1] != '\n' {
      assert s[i] == ' ' && s[|a|] == '\n';
      if i + 1 < |a| { assert s[i + 1] == a[i + 1]; }
    }
    forall i | 0 <= i < |b| && b[i] == ' ' ensures i + 1 < |b| && b[i + 1] != '\n' {
      assert s[|a| + 1 + i] == ' ';
      if i + 1 < |b| { assert s[|a| + 1 + i + 1] == b[i + 1]; }
    }
  }

  lemma NoTrailingSpaceJoined(a: string, b: string)
    requires NoTrailingSpace(a) && NoTrailingSpace(b)
    ensures NoTrailingSpace(a + "\n" + b)
  {
    var s := a + "\n" + b;
    forall i | 0 <= i < |s| && s[i] == ' ' ensures i + 1 < |s| && s[i + 1] != '\n' {
      if i < |a| {
        assert a[i] == ' ';
        assert i + 1 < |a| && a[i + 1] != '\n';
        assert s[i + 1] == a[i + 1];
      } else if i > |a| {
        var k := i - |a| - 1;
        assert b[k] == ' ';
        assert k + 1 < |b| && b[k + 1] != '\n';
        assert s[i + 1] == b[k + 1];
      }
    }
  }

  /** A joined text has no trailing space exactly when none of its lines has one. */
  lemma {:induction false} JoinLinesNoTrailingSpace(lines: seq<string>)
    ensures NoTrailingSpace(JoinLines(lines)) <==> forall i :: 0 <= i < |lines| ==> NoTrailingSpace(lines[i])
  {
    if |lines| > 1 {
      JoinLinesNoTrailingSpace(lines[1..]);
      NoTrailingSpaceAroundLf(lines[0], JoinLines(lines[1..]));
      assert forall i :: 1 <= i < |lines| ==> lines[i] == lines[1..][i - 1];
    }
  }

  /** After `strip_trailing_spaces` no line ends in a space. */
  lemma StripTrailingSpacesNoTrailingSpace(s: string)
    ensures NoTrailingSpace(StripTrailingSpaces(s))
  {
    var lines := SplitLines(s);
    var stripped := seq(|lines|, i requires 0 <= i < |lines| => RStripSpaces(lines[i]));
    forall i | 0 <= i < |stripped| ensures NoTrailingSpace(stripped[i]) {
      assert '\n' !in lines[i];
      assert stripped[i] <= lines[i];
    }
    JoinLinesNoTrailingSpace(stripped);
  }

  /** `strip_trailing_spaces` leaves a text without trailing spaces unchanged. */
  lemma StripTrailingSpacesIdentity(s: string)
    requires NoTrailingSpace(s)
    ensures StripTrailingSpaces(s) == s
  {
    var lines := SplitLines(s);
    var stripped := seq(|lines|, i requires 0 <= i < |lines| => RStripSpaces(lines[i]));
    JoinLinesNoTrailingSpace(lines);
    forall i | 0 <= i < |lines| ensures stripped[i] == lines[i] {
      var line := lines[i];
      assert NoTrailingSpace(line) && '\n' !in line;
      if line != [] && line[|line| - 1] == ' ' {
        assert false;
      }
    }
    assert stripped == lines;
  }

  // ---------------------------------------------------------------- forbidden characters

  /** The error `forbid_text_chars` raises for one character, checks taken in its order. */
  function CharError(c: char): (e: Option<string>)
    ensures e.None? <==> CanonChar(c)
    ensures e.Some? ==> e.value in {TabForbidden, ZeroWidthForbidden, ControlCharForbidden}
  {
    if c == '\t' then Some(TabForbidden)
    else if c in ForbiddenZeroWidth then Some(ZeroWidthForbidden)
    else if c as int < 32 && c != '\n' then Some(ControlCharForbidden)
    else if c as int == 127 then Some(ControlCharForbidden)
    else None
  }

  /** The error of the first offending character, scanning from the left, if there is one. */
  function FirstViolation(t: string): (e: Option<string>)
    ensures e.None? <==> AllCanonChars(t)
    ensures e.Some? ==> exists i :: 0 <= i < |t| && AllCanonChars(t[..i]) && e == CharError(t[i])
  {
    if t == [] then None
    else if CharError(t[0]).Some? then
      assert AllCanonChars(t[..0]);
      CharError(t[0])
    else
      var e := FirstViolation(t[1..]);
      assert e.Some? ==> exists i :: 0 <= i < |t| && AllCanonChars(t[..i]) && e == CharError(t[i]) by {
        if e.Some? {
          var i :| 0 <= i < |t[1..]| && AllCanonChars(t[1..][..i]) && e == CharError(t[1..][i]);
          assert t[..i + 1] == [t[0]] + t[1..][..i];
        }
      }
      e
  }

  lemma FirstViolationStep(t: string, i: int)
    requires 0 <= i < |t|
    ensures FirstViolation(t[i..]) ==
      if CharError(t[i]).Some? then CharError(t[i]) else FirstViolation(t[i + 1..])
  {
    assert t[i..][0] == t[i] && t[i..][1..] == t[i + 1..];
  }

  /** `forbid_text_chars`: a left-to-right loop that stops at the first forbidden character.
      Returns the error it raises, or None when it returns normally. */
  method ForbidTextChars(t: string) returns (e: Option<string>)
    ensures e == FirstViolation(t)
  {
    var i := 0;
    while i < |t|
      invariant 0 <= i <= |t|
      invariant FirstViolation(t) == FirstViolation(t[i..])
    {
      var ch := t[i];
      FirstViolationStep(t, i);
      if ch == '\t' {
        return Some(TabForbidden);
      }
      if ch in ForbiddenZeroWidth {
        return Some(ZeroWidthForbidden);
      }
      var o := ch as int;
      if o < 32 && ch != '\n' {
        return Some(ControlCharForbidden);
      }
      if o == 127 {
        return Some(ControlCharForbidden);
      }
      i := i + 1;
    }
    return None;
  }

  // ---------------------------------------------------------------- canon_text

  /** What is assumed of Unicode NFC composition, which the model takes as a parameter:
      it leaves ASCII text alone, it is idempotent, it does not create a trailing space, and a
      TAB (combining class 0, part of no decomposition or composition) stays where it is while
      the text on either side of it is composed separately. */
  ghost predicate NfcLaws(nfc: string -> string) {
    (forall s :: IsAscii(s) ==> nfc(s) == s) &&
    (forall s {:trigger nfc(nfc(s))} :: nfc(nfc(s)) == nfc(s)) &&
    (forall s :: NoTrailingSpace(s) ==> NoTrailingSpace(nfc(s))) &&
    (forall a, b :: nfc(a + "\t" + b) == nfc(a) + "\t" + nfc(b))
  }

  /** The text `canon_text` scans: steps 1 to 3 of the pipeline. Under the NFC laws no line of
      it ends in a space, and a TAB of the input is still there. */
  function Prepare(raw: string, nfc: string -> string): (t: string)
    ensures NfcLaws(nfc) ==> NoTrailingSpace(t)
    ensures NfcLaws(nfc) && '\t' in raw ==> '\t' in t
  {
    PreparedLaws(raw, nfc);
    nfc(StripTrailingSpaces(NormalizeNewlines(raw)))
  }

  lemma PreparedLaws(raw: string, nfc: string -> string)
    ensures NfcLaws(nfc) ==> NoTrailingSpace(nfc(StripTrailingSpaces(NormalizeNewlines(raw))))
    ensures NfcLaws(nfc) && '\t' in raw ==> '\t' in nfc(StripTrailingSpaces(NormalizeNewlines(raw)))
  {
    if NfcLaws(nfc) {
      StripTrailingSpacesNoTrailingSpace(NormalizeNewlines(raw));
      if '\t' in raw {
        ReplaceCrLfKeeps(raw, '\t');
        var n := NormalizeNewlines(raw);
        assert '\t' in n by {
          var k :| 0 <= k < |ReplaceCrLf(raw)| && ReplaceCrLf(raw)[k] == '\t';
          assert n[k] == '\t';
        }
        StripTrailingSpacesKeeps(n, '\t');
        NfcKeepsTab(StripTrailingSpaces(n), nfc);
      }
    }
  }

  /** `replace("\r\n", "\n")` keeps every character other than CR and LF. */
  lemma {:induction false} ReplaceCrLfKeeps(s: string, c: char)
    requires c != '\r' && c != '\n' && c in s
    ensures c in ReplaceCrLf(s)
    decreases |s|
  {
    if s[0] != c {
      var k :| 0 <= k < |s| && s[k] == c;
      if |s| >= 2 && s[0] == '\r' && s[1] == '\n' {
        assert s[2..][k - 2] == c;
        ReplaceCrLfKeeps(s[2..], c);
        assert ReplaceCrLf(s) == "\n" + ReplaceCrLf(s[2..]);
      } else {
        assert s[1..][k - 1] == c;
        ReplaceCrLfKeeps(s[1..], c);
        assert ReplaceCrLf(s) == [s[0]] + ReplaceCrLf(s[1..]);
      }
    } else {
      assert ReplaceCrLf(s) == [s[0]] + ReplaceCrLf(s[1..]);
    }
  }

  /** A character other than LF is in a joined text exactly when it is in one of the lines. */
  lemma {:induction false} InJoinLines(lines: seq<string>, c: char)
    requires c != '\n'
    ensures c in JoinLines(lines) <==> exists i :: 0 <= i < |lines| && c in lines[i]
    decreases |lines|
  {
    if |lines| > 1 {
      InJoinLines(lines[1..], c);
      var j := JoinLines(lines);
      assert j == lines[0] + "\n" + JoinLines(lines[1..]);
      if c in j {
        var k :| 0 <= k < |j| && j[k] == c;
        if k < |lines[0]| {
          assert lines[0][k] == c;
        } else {
          assert JoinLines(lines[1..])[k - |lines[0]| - 1] == c;
          var i :| 0 <= i < |lines[1..]| && c in lines[1..][i];
          assert c in lines[i + 1];
        }
      }
      if exists i :: 0 <= i < |lines| && c in lines[i] {
        var i :| 0 <= i < |lines| && c in lines[i];
        if i == 0 {
          var k :| 0 <= k < |lines[0]| && lines[0][k] == c;
          assert j[k] == c;
        } else {
          assert c in lines[1..][i - 1];
          var k :| 0 <= k < |JoinLines(lines[1..])| && JoinLines(lines[1..])[k] == c;
          assert j[|lines[0]| + 1 + k] == c;
        }
      }
    }
  }

  /** Stripping trailing spaces keeps every character other than a space and LF. */
  lemma StripTrailingSpacesKeeps(s: string, c: char)
    requires c != ' ' && c != '\n' && c in s
    ensures c in StripTrailingSpaces(s)
  {
    var lines := SplitLines(s);
    var r := StripTrailingSpaces(s);
    InJoinLines(lines, c);
    var i :| 0 <= i < |lines| && c in lines[i];
    var k :| 0 <= k < |lines[i]| && lines[i][k] == c;
    var stripped := RStripSpaces(lines[i]);
    assert k < |stripped| && stripped[k] == c;
    assert c in SplitLines(r)[i];
    InJoinLines(SplitLines(r), c);
  }

  lemma NfcKeepsTab(t: string, nfc: string -> string)
    requires NfcLaws(nfc) && '\t' in t
    ensures '\t' in nfc(t)
  {
    var k :| 0 <= k < |t| && t[k] == '\t';
    assert t == t[..k] + "\t" + t[k + 1..];
    assert nfc(t) == nfc(t[..k]) + "\t" + nfc(t[k + 1..]);
    assert nfc(t)[|nfc(t[..k])|] == '\t';
  }

  /** `canon_text`: the prepared text, or the error of its first forbidden character. */
  function CanonText(raw: string, nfc: string -> string): (r: Result<string>)
    ensures r.Ok? ==> AllCanonChars(r.value) && '\r' !in r.value && '\t' !in r.value
    ensures r.Ok? ==> r.value == Prepare(raw, nfc)
    ensures r.Err? ==> r.msg in {TabForbidden, ZeroWidthForbidden, ControlCharForbidden}
  {
    var t := Prepare(raw, nfc);
    match FirstViolation(t)
    case Some(e) => Err(e)
    case None => Ok(t)
  }

  /** A failure reports the error of the leftmost offending character of the prepared text. */
  lemma CanonTextFirstError(raw: string, nfc: string -> string)
    ensures CanonText(raw, nfc).Err? <==> !AllCanonChars(Prepare(raw, nfc))
    ensures CanonText(raw, nfc).Err? ==>
      var t := Prepare(raw, nfc);
      exists i :: 0 <= i < |t| && AllCanonChars(t[..i]) && CharError(t[i]) == Some(CanonText(raw, nfc).msg)
  {
  }

  /** On success no line of the output ends in a space. */
  lemma CanonTextNoTrailingSpace(raw: string, nfc: string -> string)
    requires NfcLaws(nfc)
    ensures CanonText(raw, nfc).Ok? ==> NoTrailingSpace(CanonText(raw, nfc).value)
  {
    StripTrailingSpacesNoTrailingSpace(NormalizeNewlines(raw));
  }

  /** `canon_text` is idempotent: canonical text is a fixed point. */
  lemma CanonTextIdempotent(raw: string, nfc: string -> string)
    requires NfcLaws(nfc)
    ensures CanonText(raw, nfc).Ok? ==> CanonText(CanonText(raw, nfc).value, nfc) == CanonText(raw, nfc)
  {
    var r := CanonText(raw, nfc);
    if r.Ok? {
      var t := r.value;
      CanonTextNoTrailingSpace(raw, nfc);
      assert NormalizeNewlines(t) == t;
      StripTrailingSpacesIdentity(t);
      assert nfc(t) == t;
    }
  }

  /** Text that is ASCII, CR-free and without trailing spaces reaches the scan unchanged. */
  lemma PrepareFixedPoint(t: string, nfc: string -> string)
    requires NfcLaws(nfc)
    requires '\r' !in t && NoTrailingSpace(t) && IsAscii(t)
    ensures Prepare(t, nfc) == t
  {
    StripTrailingSpacesIdentity(t);
  }

  /** A text holding a TAB anywhere is refused. */
  lemma CanonTextRejectsTab(raw: string, nfc: string -> string)
    requires NfcLaws(nfc)
    ensures '\t' in raw ==> CanonText(raw, nfc).Err?
  {
    if '\t' in raw {
      var t := Prepare(raw, nfc);
      var k :| 0 <= k < |t| && t[k] == '\t';
      assert !CanonChar(t[k]);
    }
  }

  /** A TAB on its own is refused with TAB_FORBIDDEN. */
  lemma CanonTextTabMessage(nfc: string -> string)
    requires NfcLaws(nfc)
    ensures CanonText("\t", nfc) == Err(TabForbidden)
  {
    var s := "\t";
    assert '\r' !in s;
    assert NoTrailingSpace(s);
    assert IsAscii(s);
    PrepareFixedPoint(s, nfc);
    assert FirstViolation(s) == CharError(s[0]) == Some(TabForbidden);
  }
}
