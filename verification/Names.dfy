/** Workload types and the rules their names obey. */
module Names {
  import opened Base

  predicate IsAlnum(c: char) {
    'a' <= c <= 'z' || '0' <= c <= '9'
  }

  predicate IsNameChar(c: char) {
    IsAlnum(c) || c == '-'
  }

  /** The regular expression [a-z0-9]([a-z0-9-]{0,61}[a-z0-9])? anchored at both ends. */
  predicate ValidName(name: string) {
    && name != ""
    && IsAlnum(name[0])
    && (|name| == 1 ||
        (&& |name| - 2 <= 61
         && (forall i :: 1 <= i < |name| - 1 ==> IsNameChar(name[i]))
         && IsAlnum(name[|name| - 1])))
  }

  /** One to 63 name characters, with no dash at either end. */
  lemma ValidNameExactly(name: string)
    ensures ValidName(name)
       <==> && 1 <= |name| <= 63 && (forall i :: 0 <= i < |name| ==> IsNameChar(name[i]))
            && name[0] != '-' && name[|name| - 1] != '-'
  {
  }

  predicate ValidContainerName(name: string) {
    ValidName(name) && |name| <= 11
  }

  /** The same with at most eleven, for names that become part of a network interface's. */
  lemma ContainerNameExactly(name: string)
    ensures ValidContainerName(name)
       <==> && 1 <= |name| <= 11 && (forall i :: 0 <= i < |name| ==> IsNameChar(name[i]))
            && name[0] != '-' && name[|name| - 1] != '-'
  {
    ValidNameExactly(name);
  }

  /** The part of a workload type's descriptor that the state machine consults. */
  datatype WorkloadType = WorkloadType(id: string, indexKey: string, containerRule: bool, secretMounts: bool)

  /** The three registered types, in registration order. */
  const REGISTERED_TYPES: seq<WorkloadType> := [
    WorkloadType("nixos-container", "containers", true, true),
    WorkloadType("oci-container", "ociContainers", false, true),
    WorkloadType("host-service", "hostServices", false, false)
  ]

  function Lookup(id: string): Option<WorkloadType> {
    if id == REGISTERED_TYPES[0].id then Some(REGISTERED_TYPES[0])
    else if id == REGISTERED_TYPES[1].id then Some(REGISTERED_TYPES[1])
    else if id == REGISTERED_TYPES[2].id then Some(REGISTERED_TYPES[2])
    else None
  }

  /** The index section a type's workloads are listed in, if the type is registered. */
  function SectionOf(typ: string): Option<string> {
    match Lookup(typ)
    case Some(t) => Some(t.indexKey)
    case None => None
  }

  /** The section whose mount lists may name a type's workloads. */
  function MountSectionOf(typ: string): Option<string> {
    match Lookup(typ)
    case Some(t) => if t.secretMounts then Some(t.indexKey) else None
    case None => None
  }

  predicate ValidNameForType(t: WorkloadType, name: string) {
    if t.containerRule then ValidContainerName(name) else ValidName(name)
  }

  const SECTION_KEYS: set<string> := {"containers", "ociContainers", "hostServices"}

  /** The regular expression [a-z_][a-z0-9_-]{0,31}, anchored: owners and groups. */
  predicate ValidAccountName(name: string) {
    && 1 <= |name| <= 32
    && ('a' <= name[0] <= 'z' || name[0] == '_')
    && forall i :: 1 <= i < |name| ==> IsNameChar(name[i]) || name[i] == '_'
  }

  /** The regular expression [0-7]{3,4}, anchored. */
  predicate ValidFileMode(mode: string) {
    3 <= |mode| <= 4 && forall i :: 0 <= i < |mode| ==> '0' <= mode[i] <= '7'
  }

  /** An optional label: short, and without control characters. */
  predicate ValidDisplayName(name: string) {
    |name| <= 60 && forall i :: 0 <= i < |name| ==> name[i] >= ' '
  }

  // ---- The rules as the regular expressions they are written in ----

  /** The regular expressions that the rules use. */
  datatype Pattern =
    | One(test: char -> bool)
    | Many(test: char -> bool, least: nat, most: nat)
    | Then(first: Pattern, second: Pattern)
    | Maybe(pattern: Pattern)

  /** The whole text matches. */
  ghost predicate Matches(p: Pattern, s: string) {
    match p
    case One(test) => |s| == 1 && test(s[0])
    case Many(test, least, most) => least <= |s| <= most && forall i :: 0 <= i < |s| ==> test(s[i])
    case Then(first, second) => exists i :: 0 <= i <= |s| && Matches(first, s[..i]) && Matches(second, s[i..])
    case Maybe(pattern) => s == "" || Matches(pattern, s)
  }

  const LOWER: char -> bool := c => 'a' <= c <= 'z'
  const LOWER_DIGIT: char -> bool := c => 'a' <= c <= 'z' || '0' <= c <= '9'
  const LOWER_DIGIT_DASH: char -> bool := c => 'a' <= c <= 'z' || '0' <= c <= '9' || c == '-'
  const LOWER_UNDERSCORE: char -> bool := c => 'a' <= c <= 'z' || c == '_'
  const ACCOUNT: char -> bool := c => 'a' <= c <= 'z' || '0' <= c <= '9' || c == '_' || c == '-'
  const OCTAL: char -> bool := c => c in "01234567"

  /** [a-z0-9]([a-z0-9-]{0,61}[a-z0-9])? */
  const NAME := Then(One(LOWER_DIGIT), Maybe(Then(Many(LOWER_DIGIT_DASH, 0, 61), One(LOWER_DIGIT))))

  /** [a-z_][a-z0-9_-]{0,31} */
  const ACCOUNT_NAME := Then(One(LOWER_UNDERSCORE), Many(ACCOUNT, 0, 31))

  /** [0-7]{3,4} */
  const FILE_MODE := Many(OCTAL, 3, 4)

  lemma EndMatches(s: string)
    ensures Matches(Then(Many(LOWER_DIGIT_DASH, 0, 61), One(LOWER_DIGIT)), s)
       <==> && 1 <= |s| <= 62 && LOWER_DIGIT(s[|s| - 1]) && forall i :: 0 <= i < |s| - 1 ==> LOWER_DIGIT_DASH(s[i])
  {
    var middle, last := Many(LOWER_DIGIT_DASH, 0, 61), One(LOWER_DIGIT);
    if i :| 0 <= i <= |s| && Matches(middle, s[..i]) && Matches(last, s[i..]) {
      assert |s[i..]| == 1;
      assert forall j :: 0 <= j < i ==> s[..i][j] == s[j];
    }
    if 1 <= |s| <= 62 && LOWER_DIGIT(s[|s| - 1]) && forall i :: 0 <= i < |s| - 1 ==> LOWER_DIGIT_DASH(s[i]) {
      assert Matches(middle, s[..|s| - 1]) && Matches(last, s[|s| - 1..]);
    }
  }

  lemma FirstMatches(test: char -> bool, rest: Pattern, s: string)
    ensures Matches(Then(One(test), rest), s) <==> s != "" && test(s[0]) && Matches(rest, s[1..])
  {
    if i :| 0 <= i <= |s| && Matches(One(test), s[..i]) && Matches(rest, s[i..]) {
      assert |s[..i]| == 1;
    }
    if s != "" && test(s[0]) && Matches(rest, s[1..]) {
      assert Matches(One(test), s[..1]);
    }
  }

  lemma ValidNameMatches(s: string)
    ensures ValidName(s) <==> Matches(NAME, s)
  {
    FirstMatches(LOWER_DIGIT, NAME.second, s);
    if s != "" {
      EndMatches(s[1..]);
      hide Matches;
      if |s| > 1 {
        assert s[1..][|s| - 2] == s[|s| - 1];
        assert forall i :: 0 <= i < |s| - 2 ==> s[1..][i] == s[i + 1];
        assert forall i :: 1 <= i < |s| - 1 ==> s[i] == s[1..][i - 1];
      }
    }
  }

  lemma ValidAccountNameMatches(s: string)
    ensures ValidAccountName(s) <==> Matches(ACCOUNT_NAME, s)
  {
    FirstMatches(LOWER_UNDERSCORE, ACCOUNT_NAME.second, s);
    if s != "" {
      assert forall i :: 0 <= i < |s| - 1 ==> s[1..][i] == s[i + 1];
      assert forall i :: 1 <= i < |s| ==> s[i] == s[1..][i - 1];
    }
  }

  lemma ValidFileModeMatches(s: string)
    ensures ValidFileMode(s) <==> Matches(FILE_MODE, s)
  {
    forall c: char ensures OCTAL(c) <==> '0' <= c <= '7' {
      assert "01234567" == ['0', '1', '2', '3', '4', '5', '6', '7'];
    }
  }

  /** The three rules accept what their expressions match, and nothing else. */
  lemma RulesMatch(s: string)
    ensures ValidName(s) <==> Matches(NAME, s)
    ensures ValidAccountName(s) <==> Matches(ACCOUNT_NAME, s)
    ensures ValidFileMode(s) <==> Matches(FILE_MODE, s)
  {
    hide Matches, ValidName, ValidAccountName, ValidFileMode;
    ValidNameMatches(s);
    ValidAccountNameMatches(s);
    ValidFileModeMatches(s);
  }
}
