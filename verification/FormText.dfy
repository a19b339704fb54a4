/** What the workload editor's text becomes before it is stored. */
module FormText {
  import opened IndexFile

  /** strings.ReplaceAll of carriage return and newline by a newline, in one pass. */
  function Unix(s: string): string {
    if |s| < 2 then s
    else if s[0] == '\r' && s[1] == '\n' then ['\n'] + Unix(s[2..])
    else [s[0]] + Unix(s[1..])
  }

  predicate EndsInNewline(s: string) {
    s != "" && s[|s| - 1] == '\n'
  }

  function Ended(s: string): string {
    if EndsInNewline(s) then s else s + "\n"
  }

  function Normalized(s: string): string {
    Unix(Ended(s))
  }

  predicate HasCrLf(s: string) {
    exists i :: 0 <= i < |s| - 1 && s[i] == '\r' && s[i + 1] == '\n'
  }

  predicate HasCrCrLf(s: string) {
    exists i :: 0 <= i < |s| - 2 && s[i] == '\r' && s[i + 1] == '\r' && s[i + 2] == '\n'
  }

  lemma CrLfCons(c: char, s: string)
    ensures HasCrLf([c] + s) <==> (c == '\r' && s != "" && s[0] == '\n') || HasCrLf(s)
  {
    var t := [c] + s;
    if HasCrLf(s) {
      var i :| 0 <= i < |s| - 1 && s[i] == '\r' && s[i + 1] == '\n';
      assert t[i + 1] == '\r' && t[i + 2] == '\n';
    }
    if i :| 0 <= i < |t| - 1 && t[i] == '\r' && t[i + 1] == '\n' {
      if i > 0 {
        assert s[i - 1] == '\r' && s[i] == '\n';
      }
    }
    if c == '\r' && s != "" && s[0] == '\n' {
      assert t[0] == '\r' && t[1] == '\n';
    }
  }

  lemma CrCrLfCons(c: char, s: string)
    ensures HasCrCrLf([c] + s) <==> (c == '\r' && |s| > 1 && s[0] == '\r' && s[1] == '\n') || HasCrCrLf(s)
  {
    var t := [c] + s;
    if HasCrCrLf(s) {
      var i :| 0 <= i < |s| - 2 && s[i] == '\r' && s[i + 1] == '\r' && s[i + 2] == '\n';
      assert t[i + 1] == '\r' && t[i + 2] == '\r' && t[i + 3] == '\n';
    }
    if i :| 0 <= i < |t| - 2 && t[i] == '\r' && t[i + 1] == '\r' && t[i + 2] == '\n' {
      if i > 0 {
        assert s[i - 1] == '\r' && s[i] == '\r' && s[i + 1] == '\n';
      }
    }
    if c == '\r' && |s| > 1 && s[0] == '\r' && s[1] == '\n' {
      assert t[0] == '\r' && t[1] == '\r' && t[2] == '\n';
    }
  }

  /** The pass starts with a newline when the text does, or when it starts with one to be
      replaced. */
  lemma UnixStarts(s: string)
    ensures s == "" <==> Unix(s) == ""
    ensures s != "" ==> (Unix(s)[0] == '\n' <==> s[0] == '\n' || (|s| > 1 && s[0] == '\r' && s[1] == '\n'))
    ensures EndsInNewline(s) ==> EndsInNewline(Unix(s))
  {
    if |s| >= 2 {
      UnixStarts(if s[0] == '\r' && s[1] == '\n' then s[2..] else s[1..]);
    }
  }

  /** Something to replace is left exactly when two carriage returns precede a newline. */
  lemma {:induction false} UnixLeavesExactly(s: string)
    ensures HasCrLf(Unix(s)) <==> HasCrCrLf(s)
    decreases |s|
  {
    if |s| >= 2 {
      assert s == [s[0]] + s[1..];
      CrCrLfCons(s[0], s[1..]);
      if s[0] == '\r' && s[1] == '\n' {
        assert s[1..] == [s[1]] + s[2..];
        CrCrLfCons(s[1], s[2..]);
        UnixLeavesExactly(s[2..]);
        CrLfCons('\n', Unix(s[2..]));
      } else {
        UnixLeavesExactly(s[1..]);
        UnixStarts(s[1..]);
        CrLfCons(s[0], Unix(s[1..]));
      }
    }
  }

  /** Stored text ends in a newline, and has no line ending of the other kind exactly when
      the form's text, so ended, had no doubled carriage return before a newline. */
  lemma NormalizedExactly(s: string)
    ensures EndsInNewline(Normalized(s))
    ensures HasCrLf(Normalized(s)) <==> HasCrCrLf(if EndsInNewline(s) then s else s + "\n")
  {
    UnixStarts(Ended(s));
    UnixLeavesExactly(Ended(s));
  }

  // ---- Everything else is as it was typed ----

  lemma {:induction false} UnixKeeps(p: string)
    requires !HasCrLf(p)
    ensures Unix(p) == p
  {
    if |p| >= 2 {
      assert p == [p[0]] + p[1..];
      CrLfCons(p[0], p[1..]);
      UnixKeeps(p[1..]);
    }
  }

  lemma UnixStep(c: char, t: string)
    requires !(c == '\r' && t != "" && t[0] == '\n')
    ensures Unix([c] + t) == [c] + Unix(t)
  {
    assert ([c] + t)[1..] == t;
  }

  lemma UnixCrLf(more: string)
    ensures Unix("\r\n" + more) == "\n" + Unix(more)
  {
    assert ("\r\n" + more)[2..] == more;
  }

  lemma {:induction false} UnixPiece(p: string, more: string)
    requires !HasCrLf(p)
    ensures Unix(p + ("\r\n" + more)) == p + ("\n" + Unix(more))
  {
    hide Unix, HasCrLf;
    var tail := "\r\n" + more;
    if p == "" {
      UnixCrLf(more);
      assert p + tail == tail;
    } else {
      assert p == [p[0]] + p[1..];
      CrLfCons(p[0], p[1..]);
      UnixPiece(p[1..], more);
      assert p + tail == [p[0]] + (p[1..] + tail);
      assert (p[1..] + tail)[0] == if |p| > 1 then p[1..][0] else '\r';
      UnixStep(p[0], p[1..] + tail);
    }
  }

  /** However a text is cut at carriage-return newlines into pieces without one, the pass
      leaves the pieces as they are and puts newlines between them. */
  lemma {:induction false} UnixRejoins(pieces: seq<string>)
    requires pieces != [] && forall p :: p in pieces ==> !HasCrLf(p)
    ensures Unix(Join("\r\n", pieces)) == Join("\n", pieces)
  {
    hide Unix, HasCrLf;
    assert pieces[0] in pieces && forall p :: p in pieces[1..] ==> p in pieces;
    if |pieces| == 1 {
      UnixKeeps(pieces[0]);
    } else {
      UnixRejoins(pieces[1..]);
      UnixPiece(pieces[0], Join("\r\n", pieces[1..]));
      assert Join("\r\n", pieces) == pieces[0] + ("\r\n" + Join("\r\n", pieces[1..]));
    }
  }

  /** The pieces between carriage-return newlines. */
  function Cut(s: string): (pieces: seq<string>)
    ensures pieces != []
    decreases |s|
  {
    if |s| < 2 then [s]
    else if s[0] == '\r' && s[1] == '\n' then [""] + Cut(s[2..])
    else var rest := Cut(s[1..]); [[s[0]] + rest[0]] + rest[1..]
  }

  lemma ShortHasNone(s: string)
    requires |s| < 2
    ensures !HasCrLf(s)
  {
  }

  lemma JoinAfter(sep: string, rest: seq<string>)
    requires rest != []
    ensures Join(sep, [""] + rest) == sep + Join(sep, rest)
  {
    assert ([""] + rest)[1..] == rest;
  }

  lemma JoinGrown(sep: string, c: char, rest: seq<string>)
    requires rest != []
    ensures Join(sep, [[c] + rest[0]] + rest[1..]) == [c] + Join(sep, rest)
  {
    var grown := [[c] + rest[0]] + rest[1..];
    assert grown[1..] == rest[1..];
    if |rest| > 1 {
      assert [c] + rest[0] + sep + Join(sep, rest[1..]) == [c] + (rest[0] + sep + Join(sep, rest[1..]));
    }
  }

  lemma {:induction false} CutRejoins(s: string)
    ensures Join("\r\n", Cut(s)) == s && Cut(s)[0] <= s
    ensures forall p :: p in Cut(s) ==> !HasCrLf(p)
    decreases |s|
  {
    hide HasCrLf;
    if |s| < 2 {
      ShortHasNone(s);
    } else if s[0] == '\r' && s[1] == '\n' {
      ShortHasNone("");
      CutRejoins(s[2..]);
      JoinAfter("\r\n", Cut(s[2..]));
      assert s == "\r\n" + s[2..];
    } else {
      var rest := Cut(s[1..]);
      CutRejoins(s[1..]);
      JoinGrown("\r\n", s[0], rest);
      CrLfCons(s[0], rest[0]);
      assert rest == [rest[0]] + rest[1..];
      assert s == [s[0]] + s[1..];
    }
  }

  /** What is stored is what was typed, ended by a newline, with the line endings of one
      kind turned into the other: the pieces between them are untouched. */
  lemma NormalizedIsTyped(s: string)
    ensures var ended := if s != "" && s[|s| - 1] == '\n' then s else s + "\n";
            && Join("\r\n", Cut(ended)) == ended && (forall p :: p in Cut(ended) ==> !HasCrLf(p))
            && Normalized(s) == Join("\n", Cut(ended))
    ensures EndsInNewline(s) && !HasCrLf(s) ==> Normalized(s) == s
  {
    CutRejoins(Ended(s));
    UnixRejoins(Cut(Ended(s)));
    if EndsInNewline(s) && !HasCrLf(s) {
      UnixKeeps(s);
    }
  }
}
