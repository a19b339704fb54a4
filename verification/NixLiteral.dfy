/** Nix double-quoted string literals: the printer the generators use and a reader
    that follows the language's lexical rules. */
module NixLiteral {

  /** How one character is printed that does not start an interpolation. */
  function EscapeChar(c: char): string {
    if c == '\\' || c == '\"' then ['\\', c] else if c == '\n' then ['\\', 'n'] else [c]
  }

  /** One left-to-right pass replacing \ " newline and ${ by their escapes. A "$" is
      special only when "{" follows it directly. */
  function Escape(s: string): string {
    if s == "" then ""
    else if s[0] == '$' && |s| > 1 && s[1] == '{' then ['\\', '$', '{'] + Escape(s[2..])
    else EscapeChar(s[0]) + Escape(s[1..])
  }

  function NixStr(s: string): string {
    "\"" + Escape(s) + "\""
  }

  /** What reading a literal comes to: its value and the text after the closing
      quote, the start of an interpolation, or the end of the input. */
  datatype Reading = Literal(value: string, rest: string) | Interpolation | Unterminated

  function Prepend(p: string, r: Reading): Reading {
    if r.Literal? then Literal(p + r.value, r.rest) else r
  }

  function Unescape(c: char): char {
    if c == 'n' then '\n' else if c == 'r' then '\r' else if c == 't' then '\t' else c
  }

  /** Reads the text after an opening quote. "\c" is an escape; "${" opens an
      interpolation; "$" before anything else is literal, and "$$" is taken as a
      pair, so that "$${" opens nothing; a raw carriage return, with or without a
      newline after it, reads as a newline. */
  function ReadBody(t: string): Reading {
    if t == "" then Unterminated
    else if t[0] == '\"' then Literal("", t[1..])
    else if t[0] == '\\' then
      if |t| == 1 then Unterminated else Prepend([Unescape(t[1])], ReadBody(t[2..]))
    else if t[0] == '$' && |t| > 1 && t[1] == '{' then Interpolation
    else if t[0] == '$' && |t| > 1 && t[1] == '$' then Prepend("$$", ReadBody(t[2..]))
    else if t[0] == '\r' then
      Prepend("\n", ReadBody(if |t| > 1 && t[1] == '\n' then t[2..] else t[1..]))
    else Prepend([t[0]], ReadBody(t[1..]))
  }

  function ReadLiteral(t: string): Reading {
    if t != "" && t[0] == '\"' then ReadBody(t[1..]) else Unterminated
  }

  /** The string with every carriage return turned into a newline. */
  function Newlines(s: string): string {
    seq(|s|, i requires 0 <= i < |s| => if s[i] == '\r' then '\n' else s[i])
  }

  lemma NewlinesSplit(s: string, k: nat)
    requires k <= |s|
    ensures Newlines(s) == Newlines(s[..k]) + Newlines(s[k..])
  {
  }

  lemma ReadEscape(c: char, t: string)
    ensures ReadBody(['\\', c] + t) == Prepend([Unescape(c)], ReadBody(t))
  {
    assert (['\\', c] + t)[2..] == t;
  }

  lemma ReadPlain(c: char, t: string)
    requires c != '\"' && c != '\\'
    requires c == '$' ==> t != "" && t[0] != '{' && t[0] != '$'
    requires c == '\r' ==> t == "" || t[0] != '\n'
    ensures ReadBody([c] + t) == Prepend([if c == '\r' then '\n' else c], ReadBody(t))
  {
    assert ([c] + t)[1..] == t;
  }

  lemma ReadDollarPair(t: string)
    ensures ReadBody(['$', '$'] + t) == Prepend(['$', '$'], ReadBody(t))
  {
    assert (['$', '$'] + t)[2..] == t;
  }

  /** The printed string, its closing quote and what comes after. */
  function Printed(s: string, rest: string): string {
    Escape(s) + ['\"'] + rest
  }

  lemma {:induction false} PrintedOne(s: string, rest: string)
    requires s != "" && !(s[0] == '$' && |s| > 1 && s[1] == '{')
    ensures Printed(s, rest) == EscapeChar(s[0]) + Printed(s[1..], rest)
  {
  }

  lemma {:induction false} PrintedInterpolation(s: string, rest: string)
    requires |s| > 1 && s[0] == '$' && s[1] == '{'
    ensures Printed(s, rest) == ['\\', '$'] + (['{'] + Printed(s[2..], rest))
  {
    assert ['\\', '$', '{'] == ['\\', '$'] + ['{'];
  }

  /** The printed text never starts with a newline, and starts with "{" or "$" only if
      the string does; a "$" there does not start an interpolation. */
  lemma {:induction false} PrintedStart(s: string, rest: string)
    ensures Printed(s, rest)[0] != '\n'
    ensures Printed(s, rest)[0] == '{' ==> s != "" && s[0] == '{'
    ensures Printed(s, rest)[0] == '$' ==> s != "" && s[0] == '$'
  {
    if s == "" {
    } else if s[0] == '$' && |s| > 1 && s[1] == '{' {
      PrintedInterpolation(s, rest);
    } else {
      PrintedOne(s, rest);
    }
  }

  predicate ReadsBack(s: string, rest: string) {
    ReadBody(Printed(s, rest)) == Literal(Newlines(s), rest)
  }

  lemma InterpolationReadsBack(s: string, rest: string)
    requires |s| > 1 && s[0] == '$' && s[1] == '{' && ReadsBack(s[2..], rest)
    ensures ReadsBack(s, rest)
  {
    PrintedInterpolation(s, rest);
    ReadEscape('$', ['{'] + Printed(s[2..], rest));
    ReadPlain('{', Printed(s[2..], rest));
    NewlinesSplit(s, 2);
    assert Newlines(s[..2]) == ['$', '{'];
  }

  lemma EscapedChar(c: char)
    ensures EscapeChar(c) == [c] <==> c != '\"' && c != '\\' && c != '\n'
    ensures EscapeChar(c) != [c] ==>
              EscapeChar(c) == ['\\', EscapeChar(c)[1]] && Unescape(EscapeChar(c)[1]) == c && c != '\r'
  {
  }

  lemma OrdinaryReadsBack(s: string, rest: string)
    requires s != "" && s[0] != '$' && ReadsBack(s[1..], rest)
    ensures ReadsBack(s, rest)
  {
    PrintedOne(s, rest);
    PrintedStart(s[1..], rest);
    NewlinesSplit(s, 1);
    EscapedChar(s[0]);
    var tail := Printed(s[1..], rest);
    if EscapeChar(s[0]) == [s[0]] {
      ReadPlain(s[0], tail);
    } else {
      ReadEscape(EscapeChar(s[0])[1], tail);
    }
  }

  lemma PrintedTwoDollars(s: string, rest: string)
    requires |s| > 1 && s[0] == '$' && s[1] == '$' && !(|s| > 2 && s[2] == '{')
    ensures Printed(s, rest) == ['$', '$'] + Printed(s[2..], rest)
  {
    PrintedOne(s, rest);
    PrintedOne(s[1..], rest);
    assert s[1..][1..] == s[2..];
  }

  lemma TwoDollarsReadBack(s: string, rest: string)
    requires |s| > 1 && s[0] == '$' && s[1] == '$' && !(|s| > 2 && s[2] == '{') && ReadsBack(s[2..], rest)
    ensures ReadsBack(s, rest)
  {
    PrintedTwoDollars(s, rest);
    ReadDollarPair(Printed(s[2..], rest));
    NewlinesSplit(s, 2);
    assert Newlines(s[..2]) == ['$', '$'];
  }

  lemma LoneDollarReadsBack(s: string, rest: string)
    requires s != "" && s[0] == '$' && !(|s| > 1 && s[1] == '{') && Printed(s[1..], rest)[0] != '$'
    requires ReadsBack(s[1..], rest)
    ensures ReadsBack(s, rest)
  {
    PrintedOne(s, rest);
    PrintedStart(s[1..], rest);
    ReadPlain('$', Printed(s[1..], rest));
    NewlinesSplit(s, 1);
    assert Newlines(s[..1]) == ['$'];
  }

  /** By cases on how the printed text starts. A "$" that starts no interpolation is read
      alone when an escape or an ordinary character follows, and together with a second
      such "$". */
  lemma {:induction false} BodyRoundTrip(s: string, rest: string)
    ensures ReadsBack(s, rest)
    decreases |s|
  {
    if s == "" {
      assert Printed(s, rest)[1..] == rest;
    } else if s[0] != '$' {
      BodyRoundTrip(s[1..], rest);
      OrdinaryReadsBack(s, rest);
    } else if |s| > 1 && s[1] == '{' {
      BodyRoundTrip(s[2..], rest);
      InterpolationReadsBack(s, rest);
    } else {
      PrintedStart(s[1..], rest);
      if |s| > 2 && s[1] == '$' && s[2] == '{' {
        PrintedInterpolation(s[1..], rest);
      }
      if Printed(s[1..], rest)[0] == '$' {
        BodyRoundTrip(s[2..], rest);
        TwoDollarsReadBack(s, rest);
      } else {
        BodyRoundTrip(s[1..], rest);
        LoneDollarReadsBack(s, rest);
      }
    }
  }

  lemma QuotedText(s: string, rest: string)
    ensures NixStr(s) + rest == ['\"'] + Printed(s, rest)
    ensures (['\"'] + Printed(s, rest))[1..] == Printed(s, rest)
  {
  }

  /** Reading back what NixStr prints, whatever follows it: the literal ends at the
      printed closing quote, nothing in it opens an interpolation, and its value is
      the string, except that carriage returns have become newlines. */
  lemma PrintedLiteralReadsBack(s: string, rest: string)
    ensures ReadLiteral(NixStr(s) + rest) == Literal(Newlines(s), rest)
  {
    BodyRoundTrip(s, rest);
    QuotedText(s, rest);
  }

  /** The value survives exactly for the strings without a carriage return. */
  lemma RoundTripExactly(s: string)
    ensures ReadLiteral(NixStr(s)) == Literal(s, "") <==> '\r' !in s
  {
    PrintedLiteralReadsBack(s, "");
    assert NixStr(s) + "" == NixStr(s);
    if '\r' in s {
      var i :| 0 <= i < |s| && s[i] == '\r';
      assert Newlines(s)[i] == '\n';
    } else {
      assert Newlines(s) == s;
    }
  }

  /** How printed text starts: it ends at once, or with an escaped interpolation, or with
      the print of one character. */
  lemma PrintedStarts(s: string, rest: string)
    ensures s == "" ==> Printed(s, rest) == ['\"'] + rest
    ensures s != "" ==> Printed(s, rest)[0] != '\"'
    ensures Printed(s, rest)[0] == '\\' ==> s != "" && |Printed(s, rest)| > 1
    ensures |s| > 1 && s[0] == '$' && s[1] == '{' ==> Printed(s, rest)[0] == '\\' && Printed(s, rest)[1] == '$'
    ensures s != "" && !(|s| > 1 && s[0] == '$' && s[1] == '{') ==>
              Printed(s, rest)[0] == EscapeChar(s[0])[0]
              && (|EscapeChar(s[0])| == 2 ==> |Printed(s, rest)| > 1 && Printed(s, rest)[1] == EscapeChar(s[0])[1])
  {
    if s == "" {
    } else if |s| > 1 && s[0] == '$' && s[1] == '{' {
      PrintedInterpolation(s, rest);
    } else {
      PrintedOne(s, rest);
    }
  }

  lemma EscapeCharDetermines(c: char, d: char)
    requires EscapeChar(c)[0] == EscapeChar(d)[0]
    requires |EscapeChar(c)| == 2 ==> |EscapeChar(d)| == 2 && EscapeChar(c)[1] == EscapeChar(d)[1]
    ensures c == d
  {
  }

  predicate StartsInterpolation(s: string) {
    |s| > 1 && s[0] == '$' && s[1] == '{'
  }

  /** Equal printed texts start alike. */
  lemma SameStart(a: string, b: string, resta: string, restb: string)
    requires Printed(a, resta) == Printed(b, restb) && a != ""
    ensures b != "" && a[0] == b[0] && (StartsInterpolation(a) <==> StartsInterpolation(b))
  {
    PrintedStarts(a, resta);
    PrintedStarts(b, restb);
    if !StartsInterpolation(a) && !StartsInterpolation(b) {
      EscapeCharDetermines(a[0], b[0]);
    }
  }

  /** Printed texts determine both the string, carriage returns and all, and what follows. */
  lemma {:induction false} PrintedDetermines(a: string, b: string, resta: string, restb: string)
    requires Printed(a, resta) == Printed(b, restb)
    ensures a == b && resta == restb
    decreases |a|
  {
    if a == "" {
      PrintedStarts(a, resta);
      PrintedStarts(b, restb);
      assert Printed(a, resta)[1..] == resta && Printed(b, restb)[1..] == restb;
    } else {
      SameStart(a, b, resta, restb);
      var k := if StartsInterpolation(a) then 2 else 1;
      SameTail(a, b, resta, restb, k);
      PrintedDetermines(a[k..], b[k..], resta, restb);
      assert a == a[..k] + a[k..] && b == b[..k] + b[k..];
    }
  }

  lemma SameTail(a: string, b: string, resta: string, restb: string, k: nat)
    requires Printed(a, resta) == Printed(b, restb) && a != "" && b != "" && a[0] == b[0]
    requires StartsInterpolation(a) <==> StartsInterpolation(b)
    requires k == if StartsInterpolation(a) then 2 else 1
    ensures Printed(a[k..], resta) == Printed(b[k..], restb) && a[..k] == b[..k]
  {
    if StartsInterpolation(a) {
      PrintedInterpolation(a, resta);
      PrintedInterpolation(b, restb);
      assert Printed(a, resta)[3..] == Printed(a[2..], resta) && Printed(b, restb)[3..] == Printed(b[2..], restb);
    } else {
      PrintedOne(a, resta);
      PrintedOne(b, restb);
      var n := |EscapeChar(a[0])|;
      assert Printed(a, resta)[n..] == Printed(a[1..], resta) && Printed(b, restb)[n..] == Printed(b[1..], restb);
    }
  }

  /** Literals with text after them determine both the string and that text. */
  lemma PrintedLiteralsInjective(a: string, b: string, resta: string, restb: string)
    requires NixStr(a) + resta == NixStr(b) + restb
    ensures a == b && resta == restb
  {
    QuotedText(a, resta);
    QuotedText(b, restb);
    PrintedDetermines(a, b, resta, restb);
  }
}
