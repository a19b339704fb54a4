/** Host firewall ports: the form's rows, the canonical stored string, and decoding
    it, down to decimal digits. */
module HostPorts {
  import opened Base
  import opened Sorting
  import opened Lines

  datatype HostPort = HostPort(port: int, proto: string)

  /** unicode.IsSpace. */
  predicate IsSpace(c: char) {
    '\t' <= c <= '\r' || c == ' ' || c == '\U{0085}' || c == '\U{00A0}' || c == '\U{1680}'
    || '\U{2000}' <= c <= '\U{200A}' || c == '\U{2028}' || c == '\U{2029}' || c == '\U{202F}'
    || c == '\U{205F}' || c == '\U{3000}'
  }

  predicate NoSpace(s: string) {
    forall i :: 0 <= i < |s| ==> !IsSpace(s[i])
  }

  predicate IsDigit(c: char) {
    '0' <= c <= '9'
  }

  function TrimLeft(s: string): string {
    if s != "" && IsSpace(s[0]) then TrimLeft(s[1..]) else s
  }

  function TrimRight(s: string): string {
    if s != "" && IsSpace(s[|s| - 1]) then TrimRight(s[..|s| - 1]) else s
  }

  function TrimSpace(s: string): string {
    TrimRight(TrimLeft(s))
  }

  /** The value of a string of decimal digits, most significant first. */
  function DigitsValue(s: string): int
    requires forall i :: 0 <= i < |s| ==> IsDigit(s[i])
  {
    if s == "" then 0 else 10 * DigitsValue(s[..|s| - 1]) + (s[|s| - 1] as int - '0' as int)
  }

  predicate AllDigits(s: string) {
    s != "" && forall i :: 0 <= i < |s| ==> IsDigit(s[i])
  }

  /** strconv.Atoi on unbounded integers: an optional sign, then digits. A value out
      of the machine's range is an error there and out of the port range here. */
  function Atoi(s: string): Option<int> {
    if s != "" && (s[0] == '-' || s[0] == '+') then
      if AllDigits(s[1..]) then
        Some(if s[0] == '-' then -DigitsValue(s[1..]) else DigitsValue(s[1..]))
      else None
    else if AllDigits(s) then Some(DigitsValue(s))
    else None
  }

  function Itoa(n: nat): string {
    (if n < 10 then "" else Itoa(n / 10)) + [(n % 10 + '0' as int) as char]
  }

  lemma {:induction false} AtoiItoa(n: nat)
    ensures AllDigits(Itoa(n)) && DigitsValue(Itoa(n)) == n
    ensures Atoi(Itoa(n)) == Some(n)
  {
    var s := Itoa(n);
    if n >= 10 {
      AtoiItoa(n / 10);
    }
    assert s[..|s| - 1] == (if n < 10 then "" else Itoa(n / 10));
  }

  predicate ValidPort(p: HostPort) {
    1 <= p.port <= 65535 && (p.proto == "tcp" || p.proto == "udp")
  }

  /** The order of sortHostPorts: by protocol, then by number. */
  predicate PortLeq(a: HostPort, b: HostPort) {
    if a.proto != b.proto then StrLeq(a.proto, b.proto) else a.port <= b.port
  }

  lemma PortOrder()
    ensures TotalPreorder(PortLeq)
    ensures forall a, b :: PortLeq(a, b) && PortLeq(b, a) ==> a == b
  {
    StrOrder();
  }

  /** tcp before udp, and then by number. */
  lemma PortLeqExactly(a: HostPort, b: HostPort)
    requires ValidPort(a) && ValidPort(b)
    ensures PortLeq(a, b) <==> (a.proto == "tcp" && b.proto == "udp") || (a.proto == b.proto && a.port <= b.port)
  {
    assert "tcp"[0] < "udp"[0];
  }

  function FormatHostPort(p: HostPort): string {
    (if p.port < 0 then "-" + Itoa(-p.port) else Itoa(p.port)) + "/" + p.proto
  }

  /** The stored form: one token a port, a space before every token but the first. */
  function FormatFrom(ps: seq<HostPort>): string {
    if ps == [] then ""
    else if |ps| == 1 then FormatHostPort(ps[0])
    else FormatHostPort(ps[0]) + " " + FormatFrom(ps[1..])
  }

  /** FormatHostPorts as it is written: a builder that grows token by token. */
  method FormatHostPorts(ps: seq<HostPort>) returns (b: string)
    ensures b == FormatFrom(ps)
  {
    b := "";
    for i := 0 to |ps|
      invariant b == FormatFrom(ps[..i])
    {
      FormatSnoc(ps[..i], ps[i]);
      assert ps[..i + 1] == ps[..i] + [ps[i]];
      if i > 0 {
        b := b + " ";
      }
      b := b + FormatHostPort(ps[i]);
    }
    assert ps[..|ps|] == ps;
  }

  lemma {:induction false} FormatSnoc(ps: seq<HostPort>, p: HostPort)
    ensures FormatFrom(ps + [p]) == FormatFrom(ps) + (if ps == [] then "" else " ") + FormatHostPort(p)
  {
    if ps == [] {
      assert ps + [p] == [p];
    } else {
      FormatSnoc(ps[1..], p);
      assert (ps + [p])[1..] == ps[1..] + [p];
    }
  }

  /** Where the first character satisfying the test is, or the length. */
  function FirstIndex(s: string, test: char -> bool): (k: nat)
    ensures k <= |s| && (k < |s| ==> test(s[k]))
    ensures forall i :: 0 <= i < k ==> !test(s[i])
  {
    if s == "" || test(s[0]) then 0 else 1 + FirstIndex(s[1..], test)
  }

  /** strings.Fields. */
  function Fields(s: string): seq<string> {
    if s == "" then []
    else if IsSpace(s[0]) then Fields(s[1..])
    else var k := FirstIndex(s, IsSpace); [s[..k]] + Fields(s[k..])
  }

  /** One stored token; None for a malformed one. */
  function DecodeToken(tok: string): Option<HostPort> {
    var k := FirstIndex(tok, c => c == '/');
    if k == |tok| then None
    else
      match Atoi(tok[..k])
      case None => None
      case Some(n) => if ValidPort(HostPort(n, tok[k + 1..])) then Some(HostPort(n, tok[k + 1..])) else None
  }

  function DecodeTokens(toks: seq<string>): seq<HostPort> {
    if toks == [] then []
    else
      match DecodeToken(toks[0])
      case None => DecodeTokens(toks[1..])
      case Some(p) => [p] + DecodeTokens(toks[1..])
  }

  function Decode(s: string): seq<HostPort> {
    Sort(PortLeq, DecodeTokens(Fields(s)))
  }

  lemma {:induction false} DecodeTokensSnoc(toks: seq<string>, tok: string)
    ensures DecodeTokens(toks + [tok]) == DecodeTokens(toks) + DecodeTokens([tok])
  {
    if toks == [] {
      assert toks + [tok] == [tok];
    } else {
      DecodeTokensSnoc(toks[1..], tok);
      assert (toks + [tok])[1..] == toks[1..] + [tok];
    }
  }

  /** DecodeHostPorts as it is written: malformed tokens are skipped. */
  method DecodeHostPorts(s: string) returns (out: seq<HostPort>)
    ensures out == Decode(s)
    ensures forall p :: p in out ==> ValidPort(p)
    ensures Sorted(PortLeq, out)
  {
    var toks := Fields(s);
    out := [];
    for i := 0 to |toks|
      invariant out == DecodeTokens(toks[..i])
      invariant forall p :: p in out ==> ValidPort(p)
    {
      DecodeTokensSnoc(toks[..i], toks[i]);
      assert toks[..i + 1] == toks[..i] + [toks[i]];
      assert toks[i..i + 1] == [toks[i]];
      var hp := DecodeToken(toks[i]);
      if hp.None? {
        continue;
      }
      out := out + [hp.value];
    }
    assert toks[..|toks|] == toks;
    ghost var unsorted := out;
    PortOrder();
    SortCorrect(PortLeq, unsorted);
    out := Sort(PortLeq, out);
    forall p | p in out ensures ValidPort(p) {
      assert p in multiset(out);
    }
  }

  /** The first occurrence is where a character satisfies the test and none before does. */
  lemma FirstIndexIs(s: string, test: char -> bool, k: nat)
    requires k < |s| && test(s[k]) && forall i :: 0 <= i < k ==> !test(s[i])
    ensures FirstIndex(s, test) == k
  {
  }

  lemma TokenDecodes(digits: string, n: nat, proto: string)
    requires AllDigits(digits) && Atoi(digits) == Some(n) && ValidPort(HostPort(n, proto))
    ensures DecodeToken(digits + "/" + proto) == Some(HostPort(n, proto))
  {
    var tok := digits + "/" + proto;
    assert forall i :: 0 <= i < |digits| ==> tok[i] == digits[i];
    FirstIndexIs(tok, c => c == '/', |digits|);
    assert tok[..|digits|] == digits && tok[|digits| + 1..] == proto;
  }

  lemma FormatHostPortDecodes(p: HostPort)
    requires ValidPort(p)
    ensures DecodeToken(FormatHostPort(p)) == Some(p)
  {
    AtoiItoa(p.port);
    TokenDecodes(Itoa(p.port), p.port, p.proto);
  }

  lemma ProtocolHasNoSpace(proto: string)
    requires proto == "tcp" || proto == "udp"
    ensures NoSpace(proto)
  {
  }

  lemma TokenIsOneField(digits: string, proto: string)
    requires AllDigits(digits) && NoSpace(proto)
    ensures digits + "/" + proto != "" && NoSpace(digits + "/" + proto)
  {
    var tok := digits + "/" + proto;
    forall i | 0 <= i < |tok| ensures !IsSpace(tok[i]) {
      assert tok[i] == if i < |digits| then digits[i] else if i == |digits| then '/' else proto[i - |digits| - 1];
    }
  }

  lemma FormatHostPortIsOneField(p: HostPort)
    requires ValidPort(p)
    ensures FormatHostPort(p) != "" && NoSpace(FormatHostPort(p))
  {
    AtoiItoa(p.port);
    ProtocolHasNoSpace(p.proto);
    TokenIsOneField(Itoa(p.port), p.proto);
  }

  /** A token followed by nothing, or by a space, is the first field. */
  lemma FieldsToken(tok: string, more: string)
    requires tok != "" && NoSpace(tok)
    requires more == "" || IsSpace(more[0])
    ensures Fields(tok + more) == [tok] + Fields(more)
  {
    var s := tok + more;
    assert s[0] == tok[0];
    var k := FirstIndex(s, IsSpace);
    assert forall i :: 0 <= i < |tok| ==> s[i] == tok[i];
    assert more != "" ==> s[|tok|] == more[0];
    assert k == |tok|;
    assert s[..k] == tok && s[k..] == more;
  }

  lemma DecodeTokensCons(tok: string, toks: seq<string>, p: HostPort)
    requires DecodeToken(tok) == Some(p)
    ensures DecodeTokens([tok] + toks) == [p] + DecodeTokens(toks)
  {
    assert ([tok] + toks)[1..] == toks;
  }

  lemma FieldsSkipSpace(s: string)
    ensures Fields([' '] + s) == Fields(s)
  {
    assert ([' '] + s)[1..] == s;
  }

  predicate IsInWord(c: char) {
    !IsSpace(c)
  }

  lemma {:induction false} FieldsSkipGap(gap: string, more: string)
    requires NoneOf(IsInWord, gap)
    ensures Fields(gap + more) == Fields(more)
  {
    if gap == "" {
      assert gap + more == more;
    } else {
      FieldsSkipGap(gap[1..], more);
      assert (gap + more)[1..] == gap[1..] + more;
    }
  }

  /** The fields of any text at all are its words, whatever white space is between them. */
  lemma {:induction false} FieldsAreWords(gaps: seq<string>, words: seq<string>)
    requires Cloth(IsInWord, gaps, words)
    ensures Fields(Woven(gaps, words)) == words
  {
    hide Fields;
    if words == [] {
      FieldsSkipGap(gaps[0], "");
      assert gaps[0] + "" == gaps[0];
      NoFields();
    } else {
      ClothTail(IsInWord, gaps, words);
      FieldsAreWords(gaps[1..], words[1..]);
      var more := Woven(gaps[1..], words[1..]);
      FieldsSkipGap(gaps[0], words[0] + more);
      assert gaps[1..][0] == gaps[1];
      if more != "" && |words| > 1 {
        assert more[0] == gaps[1][0];
      }
      FieldsToken(words[0], more);
      assert words == [words[0]] + words[1..];
    }
  }

  lemma NoFields()
    ensures Fields("") == []
  {
  }

  /** A word and a space before what comes next. */
  lemma FieldsWord(tok: string, more: string)
    requires tok != "" && NoSpace(tok)
    ensures Fields(tok + ([' '] + more)) == [tok] + Fields(more)
  {
    FieldsToken(tok, [' '] + more);
    FieldsSkipSpace(more);
  }

  lemma {:induction false} FormattedTokens(ps: seq<HostPort>)
    requires forall p :: p in ps ==> ValidPort(p)
    ensures DecodeTokens(Fields(FormatFrom(ps))) == ps
  {
    if ps == [] {
    } else {
      var tok, more := FormatHostPort(ps[0]), if |ps| == 1 then "" else [' '] + FormatFrom(ps[1..]);
      assert FormatFrom(ps) == tok + more;
      FormatHostPortDecodes(ps[0]);
      FormatHostPortIsOneField(ps[0]);
      FormattedTokens(ps[1..]);
      FieldsToken(tok, more);
      FieldsSkipSpace(FormatFrom(ps[1..]));
      DecodeTokensCons(tok, Fields(more), ps[0]);
    }
  }

  /** Decoding what was stored gives the list back in canonical order, so a list that
      was in that order comes back as it was. */
  lemma PortsRoundTrip(ps: seq<HostPort>)
    requires forall p :: p in ps ==> ValidPort(p)
    ensures Decode(FormatFrom(ps)) == Sort(PortLeq, ps)
    ensures Sorted(PortLeq, ps) ==> Decode(FormatFrom(ps)) == ps
  {
    FormattedTokens(ps);
    PortOrder();
    SortCorrect(PortLeq, ps);
    if Sorted(PortLeq, ps) {
      SortedUnique(PortLeq, Sort(PortLeq, ps), ps);
    }
  }

  /** What one row of the editor's form says. */
  datatype Row = Blank | Malformed | Declares(hp: HostPort)

  function RowAt(ports: seq<string>, protos: seq<string>, i: nat): Row
    requires i < |ports|
  {
    var ps := TrimSpace(ports[i]);
    if ps == "" then Blank
    else
      var n := Atoi(ps);
      if n.None? || n.value < 1 || n.value > 65535 then Malformed
      else
        var proto := if i < |protos| && TrimSpace(protos[i]) != "" then TrimSpace(protos[i]) else "tcp";
        if proto != "tcp" && proto != "udp" then Malformed else Declares(HostPort(n.value, proto))
  }

  ghost function DenotedBefore(ports: seq<string>, protos: seq<string>, n: nat): set<HostPort>
    requires n <= |ports|
  {
    set i | 0 <= i < n && RowAt(ports, protos, i).Declares? :: RowAt(ports, protos, i).hp
  }

  /** The port/protocol pairs a submission denotes. */
  ghost function Denoted(ports: seq<string>, protos: seq<string>): set<HostPort> {
    DenotedBefore(ports, protos, |ports|)
  }

  ghost predicate WellFormed(ports: seq<string>, protos: seq<string>) {
    forall i :: 0 <= i < |ports| ==> !RowAt(ports, protos, i).Malformed?
  }

  /** What ParseHostPorts promises about an accepted submission: strictly ascending
      order, and exactly the pairs the submission denotes. */
  ghost predicate Parsed(ports: seq<string>, protos: seq<string>, out: seq<HostPort>) {
    Sorted(PortLeq, out) && Distinct(out) && Elements(out) == Denoted(ports, protos)
  }

  // ---- What a row declares ----

  lemma {:induction false} TrimLeftGap(gap: string, s: string)
    requires NoneOf(IsInWord, gap) && (s == "" || !IsSpace(s[0]))
    ensures TrimLeft(gap + s) == s
  {
    if gap == "" {
      assert gap + s == s;
    } else {
      TrimLeftGap(gap[1..], s);
      assert (gap + s)[1..] == gap[1..] + s;
    }
  }

  lemma {:induction false} TrimRightGap(s: string, gap: string)
    requires NoneOf(IsInWord, gap) && (s == "" || !IsSpace(s[|s| - 1]))
    ensures TrimRight(s + gap) == s
  {
    if gap == "" {
      assert s + gap == s;
    } else {
      TrimRightGap(s, gap[..|gap| - 1]);
      assert (s + gap)[..|s + gap| - 1] == s + gap[..|gap| - 1];
    }
  }

  /** Text that neither starts nor ends with white space. */
  predicate Bare(s: string) {
    s == "" || (!IsSpace(s[0]) && !IsSpace(s[|s| - 1]))
  }

  predicate Padded(s: string, before: string, core: string, after: string) {
    s == before + core + after && Bare(core) && NoneOf(IsInWord, before) && NoneOf(IsInWord, after)
  }

  lemma TrimSpaceTrims(s: string, before: string, core: string, after: string)
    requires Padded(s, before, core, after)
    ensures TrimSpace(s) == core
  {
    if core == "" {
      assert s == (before + after) + "";
      TrimLeftGap(before + after, "");
    } else {
      assert s == before + (core + after);
      TrimLeftGap(before, core + after);
      TrimRightGap(core, after);
    }
  }

  /** A blank row declares nothing, whatever white space is in it. */
  lemma BlankRowDeclaresNothing(ports: seq<string>, protos: seq<string>, i: nat)
    requires i < |ports| && NoneOf(IsInWord, ports[i])
    ensures RowAt(ports, protos, i) == Blank
  {
    assert Padded(ports[i], ports[i], "", "");
    TrimSpaceTrims(ports[i], ports[i], "", "");
  }

  /** Any other row declares its number, when it is a port, with the protocol beside it, or
      with tcp when that is missing or blank; a row that is not like that is malformed. */
  lemma RowDeclares(ports: seq<string>, protos: seq<string>, i: nat, before: string, number: string, after: string)
    requires i < |ports| && Padded(ports[i], before, number, after) && number != ""
    ensures Atoi(number).None? || !(1 <= Atoi(number).value <= 65535) ==> RowAt(ports, protos, i) == Malformed
    ensures Atoi(number).Some? && 1 <= Atoi(number).value <= 65535 ==>
              && (i >= |protos| || NoneOf(IsInWord, protos[i]) ==>
                    RowAt(ports, protos, i) == Declares(HostPort(Atoi(number).value, "tcp")))
              && (forall a, proto, b :: i < |protos| && Padded(protos[i], a, proto, b) && proto != "" ==>
                    RowAt(ports, protos, i) == if proto == "tcp" || proto == "udp"
                                               then Declares(HostPort(Atoi(number).value, proto)) else Malformed)
  {
    hide Atoi;
    TrimSpaceTrims(ports[i], before, number, after);
    if i < |protos| && NoneOf(IsInWord, protos[i]) {
      assert Padded(protos[i], protos[i], "", "");
      TrimSpaceTrims(protos[i], protos[i], "", "");
    }
    forall a, proto, b | i < |protos| && Padded(protos[i], a, proto, b) && proto != ""
      ensures TrimSpace(protos[i]) == proto
    {
      TrimSpaceTrims(protos[i], a, proto, b);
    }
  }

  /** Numbers: digits after at most one sign. */
  lemma AtoiExactly(s: string)
    ensures AllDigits(s) ==> Atoi(s) == Some(DigitsValue(s)) && Atoi("+" + s) == Some(DigitsValue(s))
                             && Atoi("-" + s) == Some(-DigitsValue(s))
    ensures Atoi(s).Some? ==> AllDigits(s) || (s != "" && (s[0] == '+' || s[0] == '-') && AllDigits(s[1..]))
  {
    hide DigitsValue;
    assert ("+" + s)[1..] == s && ("-" + s)[1..] == s;
    if AllDigits(s) {
      assert IsDigit(s[0]);
    }
  }

  /** Stored tokens: a number, a slash and a protocol, and nothing else. */
  lemma TokenExactly(tok: string, p: HostPort)
    ensures DecodeToken(tok) == Some(p)
       <==> ValidPort(p) && exists number :: tok == number + "/" + p.proto && '/' !in number && Atoi(number) == Some(p.port)
  {
    hide Atoi;
    var k := FirstIndex(tok, c => c == '/');
    if k < |tok| {
      assert tok == tok[..k] + "/" + tok[k + 1..] && '/' !in tok[..k];
    }
    if number :| tok == number + "/" + p.proto && '/' !in number && Atoi(number) == Some(p.port) {
      FirstIndexIs(tok, c => c == '/', |number|);
      assert tok[..|number|] == number && tok[|number| + 1..] == p.proto;
    }
  }

  lemma DenotedStep(ports: seq<string>, protos: seq<string>, i: nat)
    requires i < |ports|
    ensures DenotedBefore(ports, protos, i + 1) == DenotedBefore(ports, protos, i) +
            match RowAt(ports, protos, i) { case Declares(hp) => {hp} case _ => {} }
  {
  }

  /** The body of the loop over the form's rows. */
  method ParseRow(ports: seq<string>, protos: seq<string>, i: nat) returns (row: Row)
    requires i < |ports|
    ensures row == RowAt(ports, protos, i)
    ensures row.Declares? ==> ValidPort(row.hp)
  {
    var ps := TrimSpace(ports[i]);
    if ps == "" {
      return Blank;
    }
    var n := Atoi(ps);
    if n.None? || n.value < 1 || n.value > 65535 {
      return Malformed;
    }
    var proto := "tcp";
    if i < |protos| && TrimSpace(protos[i]) != "" {
      proto := TrimSpace(protos[i]);
    }
    if proto != "tcp" && proto != "udp" {
      return Malformed;
    }
    return Declares(HostPort(n.value, proto));
  }

  lemma SortedPorts(out: seq<HostPort>)
    requires Distinct(out)
    ensures var r := Sort(PortLeq, out);
            Sorted(PortLeq, r) && Distinct(r) && Elements(r) == Elements(out)
  {
    PortOrder();
    SortCorrect(PortLeq, out);
    SameElements(out, Sort(PortLeq, out));
  }

  /** The rows collected before row i. */
  ghost predicate CollectedBefore(ports: seq<string>, protos: seq<string>, i: nat, out: seq<HostPort>)
    requires i <= |ports|
  {
    && (forall j :: 0 <= j < i ==> !RowAt(ports, protos, j).Malformed?)
    && Distinct(out) && Elements(out) == DenotedBefore(ports, protos, i)
  }

  lemma CollectOne(ports: seq<string>, protos: seq<string>, i: nat, out: seq<HostPort>)
    requires i < |ports| && CollectedBefore(ports, protos, i, out) && !RowAt(ports, protos, i).Malformed?
    ensures var row := RowAt(ports, protos, i);
            CollectedBefore(ports, protos, i + 1, if row.Blank? || row.hp in Elements(out) then out else out + [row.hp])
  {
    DenotedStep(ports, protos, i);
    var row := RowAt(ports, protos, i);
    if row.Declares? && row.hp !in Elements(out) {
      AppendNew(out, row.hp);
    }
  }

  /** ParseHostPorts: a submission with a malformed row is refused as a whole; any
      other one yields the pairs it denotes, each once, in strictly ascending order. */
  method ParseHostPorts(ports: seq<string>, protos: seq<string>) returns (r: Option<seq<HostPort>>)
    ensures r.Some? <==> WellFormed(ports, protos)
    ensures r.Some? ==> Parsed(ports, protos, r.value)
  {
    var out: seq<HostPort> := [];
    var seen: set<HostPort> := {};
    for i := 0 to |ports|
      invariant CollectedBefore(ports, protos, i, out) && seen == Elements(out)
    {
      var row := ParseRow(ports, protos, i);
      if row.Malformed? {
        return None;
      }
      CollectOne(ports, protos, i, out);
      if row.Blank? || row.hp in seen {
        continue;
      }
      seen := seen + {row.hp};
      out := out + [row.hp];
    }
    SortedPorts(out);
    return Some(Sort(PortLeq, out));
  }

  /** Accepted submissions that denote the same pairs store the same string, however
      they order, repeat, pad or sign their rows, and decoding it gives the list. */
  lemma StoredFormIsCanonical(
    portsA: seq<string>, protosA: seq<string>, a: seq<HostPort>,
    portsB: seq<string>, protosB: seq<string>, b: seq<HostPort>)
    requires Parsed(portsA, protosA, a) && Parsed(portsB, protosB, b)
    requires Denoted(portsA, protosA) == Denoted(portsB, protosB)
    ensures FormatFrom(a) == FormatFrom(b)
    ensures Decode(FormatFrom(a)) == a
  {
    PortOrder();
    DistinctSameElements(a, b);
    SortedUnique(PortLeq, a, b);
    forall p | p in a ensures ValidPort(p) {
      assert p in Denoted(portsA, protosA);
    }
    PortsRoundTrip(a);
  }
}
