/** A reader of generated Nix files with rules of its own: an attribute a line, sets that
    open and close on lines of their own, and values as the language reads them. It shares
    nothing with the printers but the language. */
module AttrReader {
  import opened Base
  import opened Sorting
  import opened HostPorts
  import opened NixLiteral
  import opened Lines

  /** An attribute by its path, and the text of its value. */
  datatype Binding = Binding(path: seq<string>, value: string)

  /** The sets that are open, and what has been found so far. */
  datatype Scan = Scan(open: seq<string>, found: seq<Binding>)

  function Dedent(l: string): string {
    if l != "" && l[0] == ' ' then Dedent(l[1..]) else l
  }

  function Unquoted(key: string): string {
    if |key| >= 2 && key[0] == '\"' && key[|key| - 1] == '\"' then key[1..|key| - 1] else key
  }

  function Unended(value: string): string {
    if value != "" && value[|value| - 1] == ';' then value[..|value| - 1] else value
  }

  predicate IsEquals(c: char) {
    c == '='
  }

  /** The language's names start with a letter or an underscore; any other is quoted. */
  predicate StartsName(c: char) {
    'a' <= c <= 'z' || 'A' <= c <= 'Z' || c == '_' || c == '\"'
  }

  /** One line: the end of a set, the start of one, an attribute, or none of these. */
  function Feed(s: Scan, line: string): Scan {
    var l := Dedent(line);
    var k := FirstIndex(l, IsEquals);
    if l == "};" then (if s.open == [] then s else s.(open := s.open[..|s.open| - 1]))
    else if k == 0 || |l| < k + 2 || !StartsName(l[0]) then s
    else
      var key := Unquoted(l[..k - 1]);
      if l[|l| - 1] == '{' then s.(open := s.open + [key])
      else s.(found := s.found + [Binding(s.open + [key], Unended(l[k + 2..]))])
  }

  function FeedAll(s: Scan, lines: seq<string>): Scan
    decreases |lines|
  {
    if lines == [] then s else FeedAll(Feed(s, lines[0]), lines[1..])
  }

  /** What a file says. */
  function Bindings(t: string): seq<Binding> {
    FeedAll(Scan([], []), LinesOf(t)).found
  }

  /** The values under a path, each as some reader takes it. */
  function ReadAt<T(==)>(bs: seq<Binding>, path: seq<string>, read: string -> T): set<T> {
    set b | b in bs && b.path == path :: read(b.value)
  }

  function Raw(value: string): string {
    value
  }

  /** A string literal and nothing after it. */
  function ReadString(value: string): Option<string> {
    match ReadLiteral(value)
    case Literal(s, rest) => if rest == "" then Some(s) else None
    case _ => None
  }

  function AllNumbers(toks: seq<string>): Option<seq<int>> {
    if toks == [] then Some([])
    else
      match (Atoi(toks[0]), AllNumbers(toks[1..]))
      case (Some(n), Some(more)) => Some([n] + more)
      case _ => None
  }

  /** A list of integers. */
  function ReadInts(value: string): Option<seq<int>> {
    var toks := Fields(value);
    if |toks| >= 2 && toks[0] == "[" && toks[|toks| - 1] == "]" then AllNumbers(toks[1..|toks| - 1]) else None
  }

  function ReadItems(t: string): Option<seq<string>>
    decreases |t|
  {
    if t == "]" then Some([])
    else
      match ReadLiteral(t)
      case Literal(s, rest) =>
        if 0 < |rest| < |t| && rest[0] == ' ' then
          match ReadItems(rest[1..])
          case Some(more) => Some([s] + more)
          case None => None
        else None
      case _ => None
  }

  /** A list of string literals. */
  function ReadStrings(value: string): Option<seq<string>> {
    if |value| >= 2 && value[..2] == "[ " then ReadItems(value[2..]) else None
  }

  // ---- How it reads single lines ----

  predicate OneLine(s: string) {
    '\n' !in s
  }

  predicate Indent(s: string) {
    forall i :: 0 <= i < |s| ==> s[i] == ' '
  }

  predicate PlainKey(key: string) {
    key != "" && StartsName(key[0]) && '=' !in key && '\n' !in key
  }

  lemma {:induction false} DedentIndented(indent: string, l: string)
    requires Indent(indent) && (l == "" || l[0] != ' ')
    ensures Dedent(indent + l) == l
  {
    if indent == "" {
      assert indent + l == l;
    } else {
      assert (indent + l)[1..] == indent[1..] + l;
      DedentIndented(indent[1..], l);
    }
  }

  lemma EqualsAfterKey(key: string, value: string)
    requires PlainKey(key)
    ensures var l := key + " = " + value;
            && FirstIndex(l, IsEquals) == |key| + 1 && l[..|key|] == key && l[|key| + 3..] == value && l[0] == key[0]
  {
    var l := key + " = " + value;
    FirstIndexIs(l, IsEquals, |key| + 1);
  }

  lemma FeedBinding(s: Scan, indent: string, key: string, value: string)
    requires Indent(indent) && PlainKey(key)
    ensures Feed(s, indent + key + " = " + value + ";")
         == s.(found := s.found + [Binding(s.open + [Unquoted(key)], value)])
  {
    var l := key + " = " + (value + ";");
    EqualsAfterKey(key, value + ";");
    assert indent + key + " = " + value + ";" == indent + l;
    DedentIndented(indent, l);
    hide FirstIndex, Unquoted, Dedent;
    assert l[|l| - 1] == ';';
    assert Unended(value + ";") == value;
  }

  /** An attribute whose value goes on in the next line. */
  lemma FeedUnended(s: Scan, indent: string, key: string, value: string)
    requires Indent(indent) && PlainKey(key) && value != "" && value[|value| - 1] != '{' && value[|value| - 1] != ';'
    ensures Feed(s, indent + key + " = " + value)
         == s.(found := s.found + [Binding(s.open + [Unquoted(key)], value)])
  {
    var l := key + " = " + value;
    EqualsAfterKey(key, value);
    assert indent + key + " = " + value == indent + l;
    DedentIndented(indent, l);
    hide FirstIndex, Unquoted, Dedent;
    assert l[|l| - 1] == value[|value| - 1];
  }

  lemma FeedOpen(s: Scan, indent: string, key: string, value: string)
    requires Indent(indent) && PlainKey(key) && value != "" && value[|value| - 1] == '{'
    ensures Feed(s, indent + key + " = " + value) == s.(open := s.open + [Unquoted(key)])
  {
    var l := key + " = " + value;
    EqualsAfterKey(key, value);
    assert indent + key + " = " + value == indent + l;
    DedentIndented(indent, l);
    hide FirstIndex, Unquoted, Dedent;
    assert l[|l| - 1] == value[|value| - 1];
  }

  lemma FeedClose(s: Scan, indent: string)
    requires Indent(indent) && s.open != []
    ensures Feed(s, indent + "};") == s.(open := s.open[..|s.open| - 1])
  {
    DedentIndented(indent, "};");
  }

  lemma FeedOther(s: Scan, indent: string, l: string)
    requires Indent(indent) && (l == "" || l[0] != ' ') && l != "};" && '=' !in l
    ensures Feed(s, indent + l) == s
  {
    DedentIndented(indent, l);
  }

  // ---- Texts made of whole lines ----

  /** Under these open sets the text says this, and leaves them open. */
  ghost predicate Says(t: string, open: seq<string>, bs: seq<Binding>) {
    Rest(t) == "" && forall found :: FeedAll(Scan(open, found), Complete(t)) == Scan(open, found + bs)
  }

  lemma {:induction false} FeedConcat(s: Scan, a: seq<string>, b: seq<string>)
    ensures FeedAll(s, a + b) == FeedAll(FeedAll(s, a), b)
    decreases |a|
  {
    hide Feed;
    if a == [] {
      assert a + b == b;
    } else {
      assert (a + b)[1..] == a[1..] + b;
      FeedConcat(Feed(s, a[0]), a[1..], b);
    }
  }

  lemma FeedJoined(s: Scan, a: string, b: string)
    requires Rest(a) == ""
    ensures FeedAll(s, Complete(a + b)) == FeedAll(FeedAll(s, Complete(a)), Complete(b))
    ensures Rest(a + b) == Rest(b)
  {
    hide Complete, Rest;
    SplitIncrementally(a, b);
    assert Rest(a) + b == b;
    FeedConcat(s, Complete(a), Complete(b));
  }

  lemma FeedLine(s: Scan, l: string)
    requires OneLine(l)
    ensures FeedAll(s, Complete(l + "\n")) == Feed(s, l) && Rest(l + "\n") == ""
  {
    TailOfLine(l);
    hide Feed;
    assert FeedAll(s, [l]) == Feed(s, l);
  }

  lemma SaysNothing(open: seq<string>)
    ensures Says("", open, [])
  {
    SplitIsUnique([], "");
    assert Terminated([]) + "" == "";
    assert forall found: seq<Binding> :: found + [] == found;
  }

  lemma SaysBoth(open: seq<string>, a: string, x: seq<Binding>, b: string, y: seq<Binding>)
    requires Says(a, open, x) && Says(b, open, y)
    ensures Says(a + b, open, x + y)
  {
    hide FeedAll, Complete, Rest;
    forall found ensures FeedAll(Scan(open, found), Complete(a + b)) == Scan(open, found + (x + y)) {
      FeedJoined(Scan(open, found), a, b);
      assert found + x + y == found + (x + y);
    }
    FeedJoined(Scan(open, []), a, b);
  }

  lemma {:induction false} SaysAll<A>(open: seq<string>, f: A -> string, g: A -> seq<Binding>, xs: seq<A>)
    requires forall x :: x in xs ==> Says(f(x), open, g(x))
    ensures Says(FlatMap(f, xs), open, FlatMap(g, xs))
  {
    hide Says;
    if xs == [] {
      SaysNothing(open);
    } else {
      assert xs[0] in xs;
      SaysAll(open, f, g, xs[1..]);
      SaysBoth(open, f(xs[0]), g(xs[0]), FlatMap(f, xs[1..]), FlatMap(g, xs[1..]));
    }
  }

  lemma SaysLine(open: seq<string>, l: string, bs: seq<Binding>)
    requires OneLine(l) && forall found :: Feed(Scan(open, found), l) == Scan(open, found + bs)
    ensures Says(l + "\n", open, bs)
  {
    hide Feed, FeedAll, Complete, Rest;
    forall found ensures FeedAll(Scan(open, found), Complete(l + "\n")) == Scan(open, found + bs) {
      FeedLine(Scan(open, found), l);
    }
    FeedLine(Scan(open, []), l);
  }

  lemma SaysBinding(open: seq<string>, indent: string, key: string, value: string)
    requires Indent(indent) && PlainKey(key) && OneLine(value)
    ensures Says(indent + key + " = " + value + ";\n", open, [Binding(open + [Unquoted(key)], value)])
  {
    var l := indent + key + " = " + value + ";";
    forall found ensures Feed(Scan(open, found), l) == Scan(open, found + [Binding(open + [Unquoted(key)], value)]) {
      FeedBinding(Scan(open, found), indent, key, value);
    }
    hide Feed, Unquoted;
    SaysLine(open, l, [Binding(open + [Unquoted(key)], value)]);
    assert l + "\n" == indent + key + " = " + value + ";\n";
  }

  lemma SaysUnended(open: seq<string>, indent: string, key: string, value: string)
    requires Indent(indent) && PlainKey(key) && OneLine(value)
    requires value != "" && value[|value| - 1] != '{' && value[|value| - 1] != ';'
    ensures Says(indent + key + " = " + value + "\n", open, [Binding(open + [Unquoted(key)], value)])
  {
    var l := indent + key + " = " + value;
    forall found ensures Feed(Scan(open, found), l) == Scan(open, found + [Binding(open + [Unquoted(key)], value)]) {
      FeedUnended(Scan(open, found), indent, key, value);
    }
    hide Feed, Unquoted;
    SaysLine(open, l, [Binding(open + [Unquoted(key)], value)]);
  }

  lemma SaysOther(open: seq<string>, indent: string, l: string)
    requires Indent(indent) && OneLine(l) && (l == "" || l[0] != ' ') && l != "};" && '=' !in l
    ensures Says(indent + l + "\n", open, [])
  {
    forall found ensures Feed(Scan(open, found), indent + l) == Scan(open, found + []) {
      FeedOther(Scan(open, found), indent, l);
      assert found + [] == found;
    }
    hide Feed;
    SaysLine(open, indent + l, []);
  }

  /** A set on lines of its own says what its body says one level deeper. */
  lemma SaysSet(open: seq<string>, indent: string, key: string, value: string, body: string, bs: seq<Binding>)
    requires Indent(indent) && PlainKey(key) && OneLine(value) && value != "" && value[|value| - 1] == '{'
    requires Says(body, open + [Unquoted(key)], bs)
    ensures Says((indent + key + " = " + value + "\n") + body + (indent + "};\n"), open, bs)
  {
    hide FeedAll, Complete, Rest, Unquoted;
    var start, end := indent + key + " = " + value, indent + "};";
    var text := (start + "\n") + body;
    assert indent + "};\n" == end + "\n";
    forall found ensures FeedAll(Scan(open, found), Complete(text + (end + "\n"))) == Scan(open, found + bs) {
      SetFed(Scan(open, found), indent, key, value, body, bs);
    }
    SetFed(Scan(open, []), indent, key, value, body, bs);
  }

  lemma SetFed(s: Scan, indent: string, key: string, value: string, body: string, bs: seq<Binding>)
    requires Indent(indent) && PlainKey(key) && OneLine(value) && value != "" && value[|value| - 1] == '{'
    requires Says(body, s.open + [Unquoted(key)], bs)
    ensures var t := ((indent + key + " = " + value) + "\n") + body + ((indent + "};") + "\n");
            FeedAll(s, Complete(t)) == Scan(s.open, s.found + bs) && Rest(t) == ""
  {
    hide FeedAll, Complete, Rest, Unquoted, Feed;
    var start, end := indent + key + " = " + value, indent + "};";
    FeedOpen(s, indent, key, value);
    FeedLine(s, start);
    var inner := Scan(s.open + [Unquoted(key)], s.found);
    FeedJoined(s, start + "\n", body);
    var after := Scan(s.open + [Unquoted(key)], s.found + bs);
    FeedClose(after, indent);
    FeedLine(after, end);
    FeedJoined(s, (start + "\n") + body, end + "\n");
    assert after.open[..|after.open| - 1] == s.open;
  }

  lemma SaysPlainSet(open: seq<string>, indent: string, key: string, body: string, bs: seq<Binding>)
    requires Indent(indent) && PlainKey(key) && Unquoted(key) == key && Says(body, open + [key], bs)
    ensures Says((indent + key + " = {\n") + body + (indent + "};\n"), open, bs)
  {
    hide Says, Unquoted, PlainKey, Indent;
    SaysSet(open, indent, key, "{", body, bs);
    assert " = {\n" == " = " + "{" + "\n";
    assert indent + key + " = {\n" == indent + key + " = " + "{" + "\n";
  }

  lemma SaidBindings(t: string, bs: seq<Binding>)
    requires Says(t, [], bs)
    ensures Bindings(t) == bs
  {
    assert LinesOf(t) == Complete(t);
    assert Scan([], [] + bs).found == bs;
  }

  // ---- How it reads values ----

  lemma PrintedStringReads(s: string)
    ensures ReadString(NixStr(s)) == Some(Newlines(s))
  {
    PrintedLiteralReadsBack(s, "");
    assert NixStr(s) + "" == NixStr(s);
  }

  lemma PrintedItemReads(s: string, more: string, items: seq<string>)
    requires ReadItems(more) == Some(items)
    ensures ReadItems(NixStr(s) + (" " + more)) == Some([Newlines(s)] + items)
  {
    PrintedLiteralReadsBack(s, " " + more);
    assert (NixStr(s) + (" " + more))[0] == '\"';
    hide NixStr, ReadLiteral, Newlines;
    assert (" " + more)[1..] == more;
  }
}
