/** The slice of JavaScript's string semantics the dashboard relies on:
    ASCII case mapping, the regular-expression classes `\w` and `\s`,
    `String.prototype.trim`, `split`/`join` on one separator character, and
    the decimal rendering of an integer in a template literal. */
module Strings {
  import opened Wrappers

  // ---------------------------------------------------------------------
  // Character classes
  // ---------------------------------------------------------------------

  predicate IsUpper(c: char) { 'A' <= c <= 'Z' }

  predicate IsLower(c: char) { 'a' <= c <= 'z' }

  predicate IsDigit(c: char) { '0' <= c <= '9' }

  /** The regular-expression class `\w` */
  predicate IsWordChar(c: char) { IsUpper(c) || IsLower(c) || IsDigit(c) || c == '_' }

  /** The regular-expression class `\s`; `trim` strips exactly these characters */
  predicate IsWhitespace(c: char) {
    || c == '\t' || c == '\n' || c == '\U{B}' || c == '\U{C}' || c == '\r' || c == ' '
    || c == '\U{A0}' || c == '\U{1680}' || ('\U{2000}' <= c <= '\U{200A}')
    || c == '\U{2028}' || c == '\U{2029}' || c == '\U{202F}' || c == '\U{205F}'
    || c == '\U{3000}' || c == '\U{FEFF}'
  }

  predicate NotSpace(c: char) { c != ' ' }

  predicate AllWordChars(s: string) { forall i :: 0 <= i < |s| ==> IsWordChar(s[i]) }

  predicate AllDigits(s: string) { forall i :: 0 <= i < |s| ==> IsDigit(s[i]) }

  // ---------------------------------------------------------------------
  // Case mapping (ASCII letters only; every other character is unchanged)
  // ---------------------------------------------------------------------

  function ToLower(c: char): (r: char)
    ensures !IsUpper(r)
    ensures IsUpper(c) ==> IsLower(r)
    ensures !IsUpper(c) ==> r == c
  {
    if IsUpper(c) then (c as int + 32) as char else c
  }

  function ToUpper(c: char): (r: char)
    ensures !IsLower(r)
    ensures IsLower(c) ==> IsUpper(r)
    ensures !IsLower(c) ==> r == c
  {
    if IsLower(c) then (c as int - 32) as char else c
  }

  /** `toLowerCase()` */
  function Lower(s: string): (r: string)
    ensures |r| == |s|
    ensures forall i :: 0 <= i < |s| ==> r[i] == ToLower(s[i])
  {
    seq(|s|, i requires 0 <= i < |s| => ToLower(s[i]))
  }

  lemma LowerIdempotent(s: string)
    ensures Lower(Lower(s)) == Lower(s)
  {
  }

  lemma LowerAppend(a: string, b: string)
    ensures Lower(a + b) == Lower(a) + Lower(b)
  {
    assert forall i :: 0 <= i < |a + b| ==> Lower(a + b)[i] == (Lower(a) + Lower(b))[i];
  }

  // ---------------------------------------------------------------------
  // String.prototype.trim
  // ---------------------------------------------------------------------

  function TrimStart(s: string): (r: string)
  {
    if |s| > 0 && IsWhitespace(s[0]) then TrimStart(s[1..]) else s
  }

  function TrimEnd(s: string): (r: string)
  {
    if |s| > 0 && IsWhitespace(s[|s| - 1]) then TrimEnd(s[..|s| - 1]) else s
  }

  /** `trim()` */
  function Trim(s: string): (r: string)
  {
    TrimEnd(TrimStart(s))
  }

  lemma {:induction false} TrimStartSpec(s: string)
    ensures var r := TrimStart(s);
      && |r| <= |s| && r == s[|s| - |r|..]
      && (|r| > 0 ==> !IsWhitespace(r[0]))
      && (forall i :: 0 <= i < |s| - |r| ==> IsWhitespace(s[i]))
  {
    if |s| > 0 && IsWhitespace(s[0]) {
      TrimStartSpec(s[1..]);
    }
  }

  lemma {:induction false} TrimEndSpec(s: string)
    ensures var r := TrimEnd(s);
      && |r| <= |s| && r == s[..|r|]
      && (|r| > 0 ==> !IsWhitespace(r[|r| - 1]))
      && (forall i :: |r| <= i < |s| ==> IsWhitespace(s[i]))
  {
    if |s| > 0 && IsWhitespace(s[|s| - 1]) {
      TrimEndSpec(s[..|s| - 1]);
    }
  }

  /** `trim` removes whitespace, and only whitespace, from both ends: the result is
      the slice that starts after the leading whitespace and stops before the trailing
      whitespace, and it neither starts nor ends with whitespace */
  lemma TrimSpec(s: string)
    ensures |TrimStart(s)| <= |s|
    ensures var r := Trim(s);
      var a := |s| - |TrimStart(s)|;
      && a + |r| <= |s| && r == s[a..a + |r|]
      && (forall i :: 0 <= i < a ==> IsWhitespace(s[i]))
      && (forall i :: a + |r| <= i < |s| ==> IsWhitespace(s[i]))
      && (|r| > 0 ==> !IsWhitespace(r[0]) && !IsWhitespace(r[|r| - 1]))
  {
    var t := TrimStart(s);
    TrimStartSpec(s);
    TrimEndSpec(t);
  }

  /** A string with no whitespace at either end is left as it is */
  lemma TrimUnchanged(s: string)
    requires |s| > 0 && !IsWhitespace(s[0]) && !IsWhitespace(s[|s| - 1])
    ensures Trim(s) == s
  {
    assert TrimStart(s) == s;
  }

  /** A leading whitespace character is dropped */
  lemma TrimDropsLeading(c: char, s: string)
    requires IsWhitespace(c)
    ensures Trim([c] + s) == Trim(s)
  {
    assert ([c] + s)[1..] == s;
  }

  // ---------------------------------------------------------------------
  // split / join on a single separator character
  // ---------------------------------------------------------------------

  /** `s.split(d)`: always at least one piece; empty pieces are kept */
  function Split(s: string, d: char): (r: seq<string>)
    ensures |r| >= 1
    ensures forall i :: 0 <= i < |r| ==> d !in r[i]
  {
    if |s| == 0 then [""]
    else
      var rest := Split(s[1..], d);
      if s[0] == d then [""] + rest
      else [[s[0]] + rest[0]] + rest[1..]
  }

  /** `ws.join(d)` */
  function Join(ws: seq<string>, d: char): (r: string)
  {
    if |ws| == 0 then ""
    else if |ws| == 1 then ws[0]
    else ws[0] + [d] + Join(ws[1..], d)
  }

  predicate NoneContains(ws: seq<string>, d: char) {
    forall i :: 0 <= i < |ws| ==> d !in ws[i]
  }

  /** Joining the pieces of a split gives the original string back */
  lemma {:induction false} JoinSplit(s: string, d: char)
    ensures Join(Split(s, d), d) == s
  {
    if |s| > 0 {
      var rest := Split(s[1..], d);
      JoinSplit(s[1..], d);
      if s[0] == d {
        assert Join(Split(s, d), d) == [d] + Join(rest, d);
      } else if |rest| > 1 {
        assert Join(rest, d) == rest[0] + [d] + Join(rest[1..], d);
        assert Join(Split(s, d), d) == [s[0]] + rest[0] + [d] + Join(rest[1..], d);
      }
      assert s == [s[0]] + s[1..];
    }
  }

  lemma {:induction false} SplitNoSeparator(w: string, d: char)
    requires d !in w
    ensures Split(w, d) == [w]
  {
    if |w| > 0 {
      SplitNoSeparator(w[1..], d);
      assert [w[0]] + w[1..] == w;
    }
  }

  lemma {:induction false} SplitCons(w: string, t: string, d: char)
    requires d !in w
    ensures Split(w + [d] + t, d) == [w] + Split(t, d)
  {
    var s := w + [d] + t;
    if |w| == 0 {
      assert s[1..] == t;
    } else {
      assert s[1..] == w[1..] + [d] + t;
      SplitCons(w[1..], t, d);
      assert [w[0]] + w[1..] == w;
    }
  }

  /** Splitting a join of separator-free pieces recovers the pieces */
  lemma {:induction false} SplitJoin(ws: seq<string>, d: char)
    requires |ws| >= 1
    requires NoneContains(ws, d)
    ensures Split(Join(ws, d), d) == ws
  {
    if |ws| == 1 {
      SplitNoSeparator(ws[0], d);
    } else {
      SplitCons(ws[0], Join(ws[1..], d), d);
      SplitJoin(ws[1..], d);
      assert [ws[0]] + ws[1..] == ws;
    }
  }

  // ---------------------------------------------------------------------
  // Decimal rendering of integers (`${n}` in a template literal) and its inverse
  // ---------------------------------------------------------------------

  function DigitChar(d: nat): (c: char)
    requires d < 10
    ensures IsDigit(c)
  {
    ('0' as int + d) as char
  }

  function DigitsValue(s: string): (r: nat)
    requires AllDigits(s)
  {
    if |s| == 0 then 0 else DigitsValue(s[..|s| - 1]) * 10 + (s[|s| - 1] as int - '0' as int)
  }

  function NatToString(n: nat): (r: string)
    ensures |r| > 0 && AllDigits(r)
    ensures DigitsValue(r) == n
    ensures |r| > 1 ==> r[0] != '0'
  {
    if n < 10 then [DigitChar(n)]
    else
      var r := NatToString(n / 10) + [DigitChar(n % 10)];
      assert r[..|r| - 1] == NatToString(n / 10);
      r
  }

  /** How a JavaScript integer prints: an optional minus sign, then its digits */
  function IntToString(i: int): (r: string)
    ensures |r| > 0 && ' ' !in r
    ensures ParseInt(r) == Some(i)
  {
    if i < 0 then "-" + NatToString(-i) else NatToString(i)
  }

  /** Reads back what `IntToString` writes */
  function ParseInt(s: string): (r: Option<int>)
  {
    if |s| > 1 && s[0] == '-' && AllDigits(s[1..]) then Some(-(DigitsValue(s[1..]) as int))
    else if |s| > 0 && AllDigits(s) then Some(DigitsValue(s))
    else None
  }
}
