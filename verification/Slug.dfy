/** The browser's derivation of a workload ID from a display name, against the
    server's name rules. */
module Slug {
  import opened Names
  import opened Lines
  import opened IndexFile

  /** Unicode decomposition, removal of combining marks and lower-casing, as one
      function that is not modelled further. It leaves text alone that is already
      made of name characters. */
  ghost predicate FoldsNames(fold: string -> string) {
    forall s :: (forall i :: 0 <= i < |s| ==> IsNameChar(s[i])) ==> fold(s) == s
  }

  /** Every maximal run of other characters becomes one dash. inRun says that the
      character before s already belongs to such a run. */
  function DashRuns(s: string, inRun: bool): string {
    if s == "" then ""
    else if IsAlnum(s[0]) then [s[0]] + DashRuns(s[1..], false)
    else if inRun then DashRuns(s[1..], true)
    else "-" + DashRuns(s[1..], true)
  }

  function TrimLeft(s: string): string {
    if s != "" && s[0] == '-' then TrimLeft(s[1..]) else s
  }

  function TrimRight(s: string): string {
    if s != "" && s[|s| - 1] == '-' then TrimRight(s[..|s| - 1]) else s
  }

  function Take(s: string, max: nat): string {
    if |s| <= max then s else s[..max]
  }

  function Slugify(fold: string -> string, s: string, max: nat): string {
    TrimRight(Take(TrimLeft(DashRuns(fold(s), false)), max))
  }

  /** Name characters only, never two dashes in a row. */
  predicate Dashed(s: string) {
    && (forall i :: 0 <= i < |s| ==> IsNameChar(s[i]))
    && (forall i :: 0 < i < |s| ==> !(s[i - 1] == '-' && s[i] == '-'))
  }

  /** What trimming at the front leaves. */
  predicate Stem(s: string) {
    Dashed(s) && (s != "" ==> s[0] != '-')
  }

  lemma {:induction false} DashRunsDashed(s: string, inRun: bool)
    ensures Dashed(DashRuns(s, inRun))
    ensures inRun ==> Stem(DashRuns(s, inRun))
  {
    if s != "" {
      DashRunsDashed(s[1..], true);
      DashRunsDashed(s[1..], false);
    }
  }

  lemma {:induction false} TrimLeftStem(s: string)
    requires Dashed(s)
    ensures Stem(TrimLeft(s))
    ensures Stem(s) ==> TrimLeft(s) == s
  {
    if s != "" && s[0] == '-' {
      TrimLeftStem(s[1..]);
    }
  }

  lemma {:induction false} TrimRightStem(s: string)
    requires Stem(s)
    ensures Stem(TrimRight(s)) && TrimRight(s) <= s && |TrimRight(s)| >= |s| - 1
    ensures TrimRight(s) != "" ==> TrimRight(s)[|TrimRight(s)| - 1] != '-'
  {
    if s != "" && s[|s| - 1] == '-' {
      TrimRightStem(s[..|s| - 1]);
    }
  }

  /** Text without a double dash has no run to merge. */
  lemma {:induction false} DashRunsIdentity(s: string, inRun: bool)
    requires Dashed(s) && (inRun && s != "" ==> s[0] != '-')
    ensures DashRuns(s, inRun) == s
  {
    if s != "" {
      DashRunsIdentity(s[1..], s[0] == '-');
      assert s == [s[0]] + s[1..];
    }
  }

  /** What the browser derives is empty or a name the server accepts: with the cap 63
      under the shared rule, with the cap 11 under the container rule too. */
  lemma SlugIsAcceptedOrEmpty(fold: string -> string, s: string, max: nat)
    ensures var r := Slugify(fold, s, max);
            && |r| <= max
            && (r == "" || max > 63 || ValidName(r))
            && (r == "" || max > 11 || ValidContainerName(r))
  {
    DashRunsDashed(fold(s), false);
    TrimLeftStem(DashRuns(fold(s), false));
    TrimRightStem(Take(TrimLeft(DashRuns(fold(s), false)), max));
  }

  /** Re-fitting a derived ID to a smaller cap gives what deriving it with that cap in
      the first place would have given. */
  lemma RefittingComposes(fold: string -> string, s: string, m: nat, k: nat)
    requires FoldsNames(fold) && k <= m
    ensures Slugify(fold, Slugify(fold, s, m), k) == Slugify(fold, s, k)
  {
    var stem := TrimLeft(DashRuns(fold(s), false));
    DashRunsDashed(fold(s), false);
    TrimLeftStem(DashRuns(fold(s), false));
    var slug := TrimRight(Take(stem, m));
    TrimRightStem(Take(stem, m));
    assert fold(slug) == slug;
    DashRunsIdentity(slug, false);
    TrimLeftStem(slug);
    if |slug| >= k {
      assert Take(slug, k) == Take(stem, k);
    } else if |slug| < |Take(stem, m)| {
      // Only a dash at position |slug| was trimmed, and k is beyond it.
      assert k == m == |slug| + 1 || |stem| == |slug| + 1;
      assert Take(stem, k) == Take(stem, m);
      assert Take(slug, k) == slug;
      TrimRightAgain(slug);
    } else {
      assert slug == Take(stem, m);
      assert Take(slug, k) == slug && Take(stem, k) == slug;
    }
  }

  lemma TrimRightAgain(s: string)
    requires s == "" || s[|s| - 1] != '-'
    ensures TrimRight(s) == s
  {
  }

  // ---- What is derived ----

  lemma {:induction false} DashRunsWord(word: string, more: string, inRun: bool)
    requires word != "" && AllOf(IsAlnum, word)
    ensures DashRuns(word + more, inRun) == word + DashRuns(more, false)
  {
    assert (word + more)[1..] == word[1..] + more;
    if |word| > 1 {
      DashRunsWord(word[1..], more, false);
    } else {
      assert word[1..] + more == more;
    }
  }

  lemma {:induction false} DashRunsGap(gap: string, more: string, inRun: bool)
    requires NoneOf(IsAlnum, gap)
    ensures DashRuns(gap + more, inRun) ==
            if gap == "" then DashRuns(more, inRun) else (if inRun then "" else "-") + DashRuns(more, true)
  {
    if gap == "" {
      assert gap + more == more;
    } else {
      assert (gap + more)[1..] == gap[1..] + more;
      DashRunsGap(gap[1..], more, true);
    }
  }

  /** The words with a dash between them. */
  function Dashes(words: seq<string>): string {
    Join("-", words)
  }

  /** The part of the text from the first word on. */
  lemma {:induction false} DashRunsWords(gaps: seq<string>, words: seq<string>)
    requires Cloth(IsAlnum, gaps, words) && words != []
    ensures var after := words[0] + Woven(gaps[1..], words[1..]);
            DashRuns(after, false) == Dashes(words) + if gaps[|words|] == "" then "" else "-"
  {
    hide DashRuns;
    var more := Woven(gaps[1..], words[1..]);
    DashRunsWord(words[0], more, false);
    if |words| == 1 {
      DashRunsGap(gaps[1], "", false);
      assert gaps[1] + "" == gaps[1];
      NoRuns();
    } else {
      ClothTail(IsAlnum, gaps, words);
      DashRunsWords(gaps[1..], words[1..]);
      var after := words[1] + Woven(gaps[2..], words[2..]);
      assert gaps[1..][1..] == gaps[2..] && words[1..][1..] == words[2..];
      assert more == gaps[1] + after;
      DashRunsGap(gaps[1], after, false);
      RunsForgetStart(after);
      assert gaps[1..][|words| - 1] == gaps[|words|];
      assert Dashes(words) == words[0] + "-" + Dashes(words[1..]);
    }
  }

  lemma NoRuns()
    ensures DashRuns("", false) == "" && DashRuns("", true) == ""
  {
  }

  lemma RunsForgetStart(after: string)
    requires after != "" && IsAlnum(after[0])
    ensures DashRuns(after, true) == DashRuns(after, false)
  {
  }

  lemma {:induction false} DashesShape(words: seq<string>)
    requires words != [] && forall i :: 0 <= i < |words| ==> words[i] != "" && AllOf(IsAlnum, words[i])
    ensures Dashes(words) != "" && Dashes(words)[0] != '-' && Dashes(words)[|Dashes(words)| - 1] != '-'
  {
    if |words| > 1 {
      DashesShape(words[1..]);
    }
  }

  lemma RunsOfWords(gaps: seq<string>, words: seq<string>)
    requires Cloth(IsAlnum, gaps, words) && words != []
    ensures DashRuns(Woven(gaps, words), false)
         == (if gaps[0] == "" then "" else "-") + (Dashes(words) + if gaps[|words|] == "" then "" else "-")
  {
    hide DashRuns;
    var after := words[0] + Woven(gaps[1..], words[1..]);
    DashRunsGap(gaps[0], after, false);
    DashRunsWords(gaps, words);
    RunsForgetStart(after);
  }

  lemma RunsOfNoWords(gap: string)
    requires NoneOf(IsAlnum, gap)
    ensures TrimLeft(DashRuns(gap, false)) == ""
  {
    DashRunsGap(gap, "", false);
    assert gap + "" == gap;
  }

  /** The derived ID of a text is its words with single dashes between them, cut at the cap,
      and without a dash that the cut leaves at its end. */
  lemma SlugOfWords(fold: string -> string, s: string, max: nat, gaps: seq<string>, words: seq<string>)
    requires Cloth(IsAlnum, gaps, words) && fold(s) == Woven(gaps, words)
    ensures var r, whole := Slugify(fold, s, max), Dashes(words);
            && r <= whole && |r| <= max && (|whole| <= max ==> r == whole) && (|whole| > max ==> |r| >= max - 1)
            && (r != "" ==> r[|r| - 1] != '-')
  {
    if words == [] {
      RunsOfNoWords(gaps[0]);
    } else {
      SlugOfSomeWords(fold, s, max, gaps, words);
    }
  }

  lemma SlugOfSomeWords(fold: string -> string, s: string, max: nat, gaps: seq<string>, words: seq<string>)
    requires Cloth(IsAlnum, gaps, words) && fold(s) == Woven(gaps, words) && words != []
    ensures var r, whole := Slugify(fold, s, max), Dashes(words);
            && r <= whole && |r| <= max && (|whole| <= max ==> r == whole) && (|whole| > max ==> |r| >= max - 1)
            && (r != "" ==> r[|r| - 1] != '-')
  {
    RunsOfWords(gaps, words);
    DashesShape(words);
    hide DashRuns, Cloth, Woven, Dashes, TrimLeft, TrimRight, Take, Dashed;
    var runs := DashRuns(fold(s), false);
    var stem := Dashes(words) + if gaps[|words|] == "" then "" else "-";
    DashRunsDashed(fold(s), false);
    TrimLeftStem(runs);
    TrimDash(stem, gaps[0] != "");
    assert TrimLeft(runs) == stem;
    CutStem(stem, Dashes(words), max);
  }

  lemma TrimDash(stem: string, dashed: bool)
    requires stem != "" && stem[0] != '-'
    ensures TrimLeft((if dashed then "-" else "") + stem) == stem
  {
    assert "" + stem == stem && ("-" + stem)[1..] == stem;
  }

  lemma CutStem(stem: string, whole: string, max: nat)
    requires Stem(stem) && whole != "" && whole[|whole| - 1] != '-' && (stem == whole || stem == whole + "-")
    ensures var r := TrimRight(Take(stem, max));
            && r <= whole && |r| <= max && (|whole| <= max ==> r == whole) && (|whole| > max ==> |r| >= max - 1)
            && (r != "" ==> r[|r| - 1] != '-')
  {
    var cut := Take(stem, max);
    assert Stem(cut);
    TrimRightStem(cut);
    if |whole| <= max {
      if cut == whole + "-" {
        assert cut[..|cut| - 1] == whole;
        TrimRightAgain(whole);
      } else {
        assert cut == whole;
        TrimRightAgain(whole);
      }
    }
  }
}
