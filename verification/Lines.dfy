/** A text and its lines. */
module Lines {

  function FirstNewline(s: string): (i: nat)
    ensures i <= |s| && '\n' !in s[..i] && (i < |s| ==> s[i] == '\n')
  {
    if s == "" || s[0] == '\n' then 0
    else
      assert forall i: nat :: i < |s[1..]| ==> s[1..][..i] == s[1..i + 1];
      1 + FirstNewline(s[1..])
  }

  /** The pieces between newlines, as strings.Split gives them. */
  function Split(s: string): (pieces: seq<string>)
    ensures pieces != []
    decreases |s|
  {
    var i := FirstNewline(s);
    if i == |s| then [s] else [s[..i]] + Split(s[i + 1..])
  }

  /** The pieces that a newline ended. */
  function Complete(s: string): seq<string> {
    Split(s)[..|Split(s)| - 1]
  }

  /** The piece that no newline has ended yet; empty after a newline. */
  function Rest(s: string): string {
    Split(s)[|Split(s)| - 1]
  }

  /** A text's lines: its last one counts even when no newline ends it. */
  function LinesOf(s: string): seq<string> {
    Complete(s) + if Rest(s) == "" then [] else [Rest(s)]
  }

  function Terminated(lines: seq<string>): string {
    if lines == [] then "" else lines[0] + "\n" + Terminated(lines[1..])
  }

  predicate NoNewlines(lines: seq<string>) {
    forall i :: 0 <= i < |lines| ==> '\n' !in lines[i]
  }

  lemma InitAndLast(x: string, pieces: seq<string>)
    requires pieces != []
    ensures var all := [x] + pieces;
            all[..|all| - 1] == [x] + pieces[..|pieces| - 1] && all[|all| - 1] == pieces[|pieces| - 1]
  {
  }

  lemma SplitStep(s: string)
    ensures var i := FirstNewline(s);
            if i == |s| then Complete(s) == [] && Rest(s) == s
            else Complete(s) == [s[..i]] + Complete(s[i + 1..]) && Rest(s) == Rest(s[i + 1..])
  {
    hide FirstNewline;
    var i := FirstNewline(s);
    if i < |s| {
      InitAndLast(s[..i], Split(s[i + 1..]));
    }
  }

  lemma {:induction false} FirstNewlineAt(line: string, more: string)
    requires '\n' !in line
    ensures FirstNewline(line + "\n" + more) == |line|
    ensures FirstNewline(line) == |line|
  {
    if line != "" {
      FirstNewlineAt(line[1..], more);
      assert (line + "\n" + more)[1..] == line[1..] + "\n" + more;
    }
  }

  lemma RebuildsCons(s: string, i: nat, lines: seq<string>, rest: string)
    requires i < |s| && s[i] == '\n' && Terminated(lines) + rest == s[i + 1..]
    ensures Terminated([s[..i]] + lines) + rest == s
  {
    assert ([s[..i]] + lines)[1..] == lines;
    assert s == s[..i] + "\n" + (Terminated(lines) + rest);
  }

  /** No byte is lost or added: the complete lines, each with its newline, and the rest
      are the text. */
  lemma {:induction false} SplitRebuilds(s: string)
    ensures Terminated(Complete(s)) + Rest(s) == s
    ensures NoNewlines(Complete(s)) && '\n' !in Rest(s)
    decreases |s|
  {
    SplitStep(s);
    var i := FirstNewline(s);
    if i < |s| {
      SplitRebuilds(s[i + 1..]);
      RebuildsCons(s, i, Complete(s[i + 1..]), Rest(s[i + 1..]));
    } else {
      assert s[..i] == s;
    }
  }

  lemma FirstLine(line: string, more: string)
    requires '\n' !in line
    ensures Complete(line + "\n" + more) == [line] + Complete(more) && Rest(line + "\n" + more) == Rest(more)
  {
    var s := line + "\n" + more;
    FirstNewlineAt(line, more);
    SplitStep(s);
    assert s[|line| + 1..] == more && s[..|line|] == line;
  }

  /** There is no other way to cut a text into such lines. */
  lemma {:induction false} SplitIsUnique(lines: seq<string>, rest: string)
    requires NoNewlines(lines) && '\n' !in rest
    ensures Complete(Terminated(lines) + rest) == lines && Rest(Terminated(lines) + rest) == rest
  {
    if lines == [] {
      assert Terminated(lines) + rest == rest;
      FirstNewlineAt(rest, "");
      SplitStep(rest);
    } else {
      var more := Terminated(lines[1..]) + rest;
      assert Terminated(lines) + rest == lines[0] + "\n" + more;
      FirstLine(lines[0], more);
      SplitIsUnique(lines[1..], rest);
      assert lines == [lines[0]] + lines[1..];
    }
  }

  lemma {:induction false} TerminatedConcat(a: seq<string>, b: seq<string>)
    ensures Terminated(a + b) == Terminated(a) + Terminated(b)
  {
    if a == [] {
      assert a + b == b;
    } else {
      TerminatedConcat(a[1..], b);
      assert (a + b)[1..] == a[1..] + b;
    }
  }

  /** Splitting in two goes: keep the complete lines, and split the rest again together
      with what came later. */
  lemma SplitIncrementally(s: string, more: string)
    ensures Complete(s + more) == Complete(s) + Complete(Rest(s) + more)
    ensures Rest(s + more) == Rest(Rest(s) + more)
  {
    var tail := Rest(s) + more;
    SplitRebuilds(s);
    SplitRebuilds(tail);
    TerminatedConcat(Complete(s), Complete(tail));
    Reassociate(s, more, Terminated(Complete(s)), Rest(s), Terminated(Complete(tail)), Rest(tail));
    SplitIsUnique(Complete(s) + Complete(tail), Rest(tail));
  }

  lemma Reassociate(s: string, more: string, a: string, rest: string, b: string, end: string)
    requires s == a + rest && rest + more == b + end
    ensures s + more == a + b + end
  {
    assert a + rest + more == a + (rest + more);
  }

  lemma TailOfLine(line: string)
    requires '\n' !in line
    ensures Complete(line + "\n") == [line] && Rest(line + "\n") == ""
  {
    SplitIsUnique([line], "");
    assert Terminated([line]) + "" == line + "\n";
  }

  /** A text is its lines, each with a newline, but for the newline of an unterminated
      last one. */
  lemma LinesRebuild(s: string)
    ensures Terminated(LinesOf(s)) == if Rest(s) == "" then s else s + "\n"
  {
    SplitRebuilds(s);
    if Rest(s) != "" {
      TerminatedConcat(Complete(s), [Rest(s)]);
      assert Terminated([Rest(s)]) == Rest(s) + "\n";
    } else {
      assert Complete(s) + [] == Complete(s);
    }
  }

  // ---- Words and gaps ----

  /** A text of words, each between two gaps. */
  function Woven(gaps: seq<string>, words: seq<string>): string
    requires |gaps| == |words| + 1
  {
    if words == [] then gaps[0] else gaps[0] + (words[0] + Woven(gaps[1..], words[1..]))
  }

  predicate AllOf(test: char -> bool, s: string) {
    forall i :: 0 <= i < |s| ==> test(s[i])
  }

  predicate NoneOf(test: char -> bool, s: string) {
    forall i :: 0 <= i < |s| ==> !test(s[i])
  }

  /** Words consist of word characters, gaps of others; only the outer gaps may be empty. */
  predicate Cloth(wordly: char -> bool, gaps: seq<string>, words: seq<string>) {
    && |gaps| == |words| + 1
    && (forall i :: 0 <= i < |words| ==> words[i] != "" && AllOf(wordly, words[i]))
    && (forall i :: 0 <= i < |gaps| ==> NoneOf(wordly, gaps[i]) && (0 < i < |words| ==> gaps[i] != ""))
  }

  lemma ClothTail(wordly: char -> bool, gaps: seq<string>, words: seq<string>)
    requires Cloth(wordly, gaps, words) && words != []
    ensures Cloth(wordly, gaps[1..], words[1..])
  {
    hide AllOf, NoneOf;
  }

  /** Every text is woven of words and gaps. */
  lemma {:induction false} EveryTextIsWoven(wordly: char -> bool, t: string) returns (gaps: seq<string>, words: seq<string>)
    ensures Cloth(wordly, gaps, words) && Woven(gaps, words) == t
  {
    if t == "" {
      gaps, words := [""], [];
    } else {
      var g, w := EveryTextIsWoven(wordly, t[1..]);
      assert t == [t[0]] + t[1..];
      if !wordly(t[0]) {
        gaps, words := [[t[0]] + g[0]] + g[1..], w;
        assert gaps[1..] == g[1..];
        assert g[0] != "" ==> gaps[0] == [t[0]] + g[0];
      } else if g[0] == "" && w != [] {
        gaps, words := g, [[t[0]] + w[0]] + w[1..];
        assert words[1..] == w[1..];
      } else {
        gaps, words := [""] + g, [[t[0]]] + w;
        assert gaps[1..] == g && words[1..] == w;
      }
    }
  }
}
