/** Sorting by an order given as a function, and why its outcome depends only on
    the elements. The Go source calls `sort.Slice`, `sort.Strings` and `sort.Ints`,
    whose algorithm is unspecified; every result here is about any of them. */
module Sorting {

  ghost predicate TotalPreorder<T(!new)>(leq: (T, T) -> bool) {
    && (forall x, y :: leq(x, y) || leq(y, x))
    && (forall x, y, z :: leq(x, y) && leq(y, z) ==> leq(x, z))
  }

  ghost predicate Sorted<T>(leq: (T, T) -> bool, s: seq<T>) {
    forall i, j :: 0 <= i < j < |s| ==> leq(s[i], s[j])
  }

  function Insert<T>(leq: (T, T) -> bool, x: T, s: seq<T>): seq<T> {
    if s == [] || leq(x, s[0]) then [x] + s else [s[0]] + Insert(leq, x, s[1..])
  }

  function Sort<T>(leq: (T, T) -> bool, s: seq<T>): seq<T> {
    if s == [] then [] else Insert(leq, s[0], Sort(leq, s[1..]))
  }

  lemma {:induction false} InsertElements<T>(leq: (T, T) -> bool, x: T, s: seq<T>)
    ensures multiset(Insert(leq, x, s)) == multiset{x} + multiset(s)
  {
    if s != [] && !leq(x, s[0]) {
      InsertElements(leq, x, s[1..]);
      assert s == [s[0]] + s[1..];
    }
  }

  lemma {:induction false} InsertSorted<T(!new)>(leq: (T, T) -> bool, x: T, s: seq<T>)
    requires TotalPreorder(leq) && Sorted(leq, s)
    ensures Sorted(leq, Insert(leq, x, s))
  {
    if s != [] && !leq(x, s[0]) {
      InsertSorted(leq, x, s[1..]);
      var r := Insert(leq, x, s[1..]);
      InsertElements(leq, x, s[1..]);
      forall j | 0 <= j < |r| ensures leq(s[0], r[j]) {
        assert r[j] in multiset(r);
        assert r[j] == x || r[j] in s[1..];
      }
    }
  }

  /** A sort neither loses nor invents elements, and its result is in order. */
  lemma {:induction false} SortCorrect<T(!new)>(leq: (T, T) -> bool, s: seq<T>)
    requires TotalPreorder(leq)
    ensures multiset(Sort(leq, s)) == multiset(s)
    ensures Sorted(leq, Sort(leq, s))
    ensures |Sort(leq, s)| == |s|
  {
    if s != [] {
      SortCorrect(leq, s[1..]);
      InsertElements(leq, s[0], Sort(leq, s[1..]));
      InsertSorted(leq, s[0], Sort(leq, s[1..]));
      assert s == [s[0]] + s[1..];
    }
    assert |multiset(Sort(leq, s))| == |multiset(s)|;
  }

  lemma SameMultisetHeads<T(!new)>(leq: (T, T) -> bool, a: seq<T>, b: seq<T>)
    requires TotalPreorder(leq) && Sorted(leq, a) && Sorted(leq, b)
    requires multiset(a) == multiset(b) && a != [] && b != []
    ensures a[0] in b && b[0] in a && leq(a[0], b[0]) && leq(b[0], a[0])
  {
    assert a[0] in multiset(a) && b[0] in multiset(b);
    assert leq(a[0], a[0]) && leq(b[0], b[0]);
  }

  lemma TailMultiset<T>(s: seq<T>)
    requires s != []
    ensures multiset(s[1..]) == multiset(s) - multiset{s[0]}
  {
    assert s == [s[0]] + s[1..];
  }

  /** Two sorted lists of the same elements are equal, as long as elements the order
      cannot tell apart are equal. */
  lemma {:induction false} SortedUnique<T(!new)>(leq: (T, T) -> bool, a: seq<T>, b: seq<T>)
    requires TotalPreorder(leq) && Sorted(leq, a) && Sorted(leq, b)
    requires multiset(a) == multiset(b)
    requires forall x, y :: x in a && y in a && leq(x, y) && leq(y, x) ==> x == y
    ensures a == b
  {
    assert |multiset(a)| == |multiset(b)|;
    if a != [] {
      SameMultisetHeads(leq, a, b);
      TailMultiset(a);
      TailMultiset(b);
      SortedUnique(leq, a[1..], b[1..]);
    }
  }

  /** Hence sorting forgets the order its input came in. */
  lemma SortForgetsOrder<T(!new)>(leq: (T, T) -> bool, a: seq<T>, b: seq<T>)
    requires TotalPreorder(leq) && multiset(a) == multiset(b)
    requires forall x, y :: x in a && y in a && leq(x, y) && leq(y, x) ==> x == y
    ensures Sort(leq, a) == Sort(leq, b)
  {
    SortCorrect(leq, a);
    SortCorrect(leq, b);
    forall x | x in Sort(leq, a) ensures x in a {
      assert x in multiset(Sort(leq, a));
    }
    SortedUnique(leq, Sort(leq, a), Sort(leq, b));
  }

  lemma AppendNew<T>(s: seq<T>, x: T)
    requires Distinct(s) && x !in Elements(s)
    ensures Distinct(s + [x]) && Elements(s + [x]) == Elements(s) + {x}
  {
    forall y ensures y in Elements(s + [x]) <==> y in Elements(s) + {x} {
      assert y in s + [x] <==> y in s || y == x;
    }
  }

  lemma SameElements<T>(a: seq<T>, b: seq<T>)
    requires multiset(a) == multiset(b)
    requires Distinct(a)
    ensures Distinct(b)
    ensures Elements(a) == Elements(b)
  {
    forall x ensures x in a <==> x in b {
      assert x in multiset(a) <==> x in multiset(b);
    }
    forall j, k | 0 <= j < k < |b| ensures b[j] != b[k] {
      OccursOnce(a, b[j]);
      if b[j] == b[k] {
        OccursTwice(b, j, k);
      }
    }
  }

  lemma {:induction false} OccursOnce<T>(a: seq<T>, x: T)
    requires Distinct(a)
    ensures multiset(a)[x] <= 1
  {
    if a != [] {
      OccursOnce(a[1..], x);
      assert a == [a[0]] + a[1..];
      if x == a[0] {
        assert x !in a[1..];
      }
    }
  }

  lemma DistinctSameElements<T>(a: seq<T>, b: seq<T>)
    requires Distinct(a) && Distinct(b)
    requires Elements(a) == Elements(b)
    ensures multiset(a) == multiset(b)
  {
    forall x ensures multiset(a)[x] == multiset(b)[x] {
      OccursOnce(a, x);
      OccursOnce(b, x);
      assert x in multiset(a) <==> x in Elements(a);
      assert x in multiset(b) <==> x in Elements(b);
      assert x in multiset(a) <==> x in multiset(b);
    }
  }

  /** Byte order of strings; on UTF-8 it is the order of code points. */
  predicate StrLeq(a: string, b: string) {
    a == "" || (b != "" && (a[0] < b[0] || (a[0] == b[0] && StrLeq(a[1..], b[1..]))))
  }

  lemma {:induction false} StrLeqTotal(a: string, b: string)
    ensures StrLeq(a, b) || StrLeq(b, a)
    ensures StrLeq(a, b) && StrLeq(b, a) ==> a == b
  {
    if a != "" && b != "" && a[0] == b[0] {
      StrLeqTotal(a[1..], b[1..]);
      assert a == [a[0]] + a[1..] && b == [b[0]] + b[1..];
    }
  }

  lemma {:induction false} StrLeqTransitive(a: string, b: string, c: string)
    requires StrLeq(a, b) && StrLeq(b, c)
    ensures StrLeq(a, c)
  {
    if a != "" && a[0] == b[0] == c[0] {
      StrLeqTransitive(a[1..], b[1..], c[1..]);
    }
  }

  /** The order of code points: a prefix comes first, and otherwise the first difference
      decides. */
  lemma {:induction false} StrLeqExactly(a: string, b: string)
    ensures StrLeq(a, b) <==> a <= b || exists i :: 0 <= i < |a| && i < |b| && a[..i] == b[..i] && a[i] < b[i]
  {
    if a != "" && b != "" && a[0] == b[0] {
      StrLeqExactly(a[1..], b[1..]);
      assert a == [a[0]] + a[1..] && b == [b[0]] + b[1..];
      if i :| 0 <= i < |a[1..]| && i < |b[1..]| && a[1..][..i] == b[1..][..i] && a[1..][i] < b[1..][i] {
        assert a[..i + 1] == [a[0]] + a[1..][..i] && b[..i + 1] == [b[0]] + b[1..][..i];
        assert a[i + 1] < b[i + 1];
      }
      if i :| 0 <= i < |a| && i < |b| && a[..i] == b[..i] && a[i] < b[i] {
        assert i > 0;
        assert a[1..][..i - 1] == a[..i][1..] && b[1..][..i - 1] == b[..i][1..];
        assert a[1..][i - 1] < b[1..][i - 1];
      }
    } else if a != "" && b != "" {
      assert a[..0] == b[..0];
    }
  }

  lemma StrOrder()
    ensures TotalPreorder(StrLeq)
    ensures forall a, b :: StrLeq(a, b) && StrLeq(b, a) ==> a == b
  {
    forall a, b ensures StrLeq(a, b) || StrLeq(b, a) {
      StrLeqTotal(a, b);
    }
    forall a, b | StrLeq(a, b) && StrLeq(b, a) ensures a == b {
      StrLeqTotal(a, b);
    }
    forall a, b, c | StrLeq(a, b) && StrLeq(b, c) ensures StrLeq(a, c) {
      StrLeqTransitive(a, b, c);
    }
  }

  function Elements<T>(s: seq<T>): set<T> {
    set x | x in s
  }

  ghost predicate Distinct<T>(s: seq<T>) {
    forall i, j :: 0 <= i < j < |s| ==> s[i] != s[j]
  }

  /** All the elements that f makes of the list, in order. */
  function FlatMap<A, B>(f: A -> seq<B>, xs: seq<A>): seq<B> {
    if xs == [] then [] else f(xs[0]) + FlatMap(f, xs[1..])
  }

  lemma {:induction false} FlatMapConcat<A, B>(f: A -> seq<B>, xs: seq<A>, ys: seq<A>)
    ensures FlatMap(f, xs + ys) == FlatMap(f, xs) + FlatMap(f, ys)
  {
    if xs == [] {
      assert xs + ys == ys;
    } else {
      assert (xs + ys)[1..] == xs[1..] + ys;
      FlatMapConcat(f, xs[1..], ys);
    }
  }

  lemma FlatMapOne<A, B>(f: A -> seq<B>, x: A)
    ensures FlatMap(f, [x]) == f(x)
  {
  }

  /** Moving one element to the front permutes the result. */
  lemma FlatMapToFront<A, B>(f: A -> seq<B>, ys: seq<A>, j: nat)
    requires j < |ys|
    ensures multiset(FlatMap(f, ys)) == multiset(f(ys[j])) + multiset(FlatMap(f, ys[..j] + ys[j + 1..]))
  {
    assert ys == ys[..j] + ([ys[j]] + ys[j + 1..]);
    FlatMapConcat(f, ys[..j], [ys[j]] + ys[j + 1..]);
    FlatMapConcat(f, ys[..j], ys[j + 1..]);
    assert ([ys[j]] + ys[j + 1..])[1..] == ys[j + 1..];
  }

  /** Permuting the list permutes what f makes of it. */
  lemma {:induction false} FlatMapPermutes<A, B>(f: A -> seq<B>, xs: seq<A>, ys: seq<A>)
    requires multiset(xs) == multiset(ys)
    ensures multiset(FlatMap(f, xs)) == multiset(FlatMap(f, ys))
  {
    if xs == [] {
      assert |multiset(ys)| == 0;
    } else {
      assert xs[0] in multiset(ys);
      var j :| 0 <= j < |ys| && ys[j] == xs[0];
      var rest := ys[..j] + ys[j + 1..];
      assert ys == ys[..j] + ([ys[j]] + ys[j + 1..]);
      TailMultiset(xs);
      assert multiset(rest) == multiset(ys) - multiset{ys[j]};
      FlatMapPermutes(f, xs[1..], rest);
      FlatMapToFront(f, ys, j);
    }
  }

  /** The elements of a bag, in no particular order. */
  ghost function Listing<T>(b: multiset<T>): seq<T>
    decreases |b|
  {
    if |b| == 0 then [] else var x :| x in b; [x] + Listing(b - multiset{x})
  }

  lemma {:induction false} ListingElements<T>(b: multiset<T>)
    ensures multiset(Listing(b)) == b
    decreases |b|
  {
    if |b| != 0 {
      ListingElements(b - multiset{Listing(b)[0]});
    }
  }

  /** The elements of a bag in ascending order: what every sorting routine returns. */
  ghost function Ascending<T>(leq: (T, T) -> bool, b: multiset<T>): seq<T> {
    Sort(leq, Listing(b))
  }

  lemma AscendingCorrect<T(!new)>(leq: (T, T) -> bool, b: multiset<T>)
    requires TotalPreorder(leq)
    ensures multiset(Ascending(leq, b)) == b
    ensures Sorted(leq, Ascending(leq, b))
  {
    ListingElements(b);
    SortCorrect(leq, Listing(b));
  }

  lemma OccursTwice<T>(s: seq<T>, i: nat, j: nat)
    requires i < j < |s| && s[i] == s[j]
    ensures multiset(s)[s[i]] >= 2
  {
    assert s == s[..i] + [s[i]] + s[i + 1..j] + [s[j]] + s[j + 1..];
  }

  /** A set in ascending order: no repetition, so strictly ascending. */
  lemma AscendingSet<T(!new)>(leq: (T, T) -> bool, s: set<T>)
    requires TotalPreorder(leq)
    ensures var r := Ascending(leq, multiset(s));
            Sorted(leq, r) && Distinct(r) && Elements(r) == s
  {
    var r := Ascending(leq, multiset(s));
    AscendingCorrect(leq, multiset(s));
    forall i, j | 0 <= i < j < |r| ensures r[i] != r[j] {
      if r[i] == r[j] {
        OccursTwice(r, i, j);
      }
    }
    forall x ensures x in Elements(r) <==> x in s {
      assert x in multiset(r) <==> x in multiset(s);
    }
  }

  /** Sorting a list depends on its elements only. */
  lemma SortIsAscending<T(!new)>(leq: (T, T) -> bool, s: seq<T>)
    requires TotalPreorder(leq)
    requires forall x, y :: x in s && y in s && leq(x, y) && leq(y, x) ==> x == y
    ensures Sort(leq, s) == Ascending(leq, multiset(s))
  {
    SortCorrect(leq, s);
    AscendingCorrect(leq, multiset(s));
    forall x | x in Sort(leq, s) ensures x in s {
      assert x in multiset(Sort(leq, s));
    }
    SortedUnique(leq, Sort(leq, s), Ascending(leq, multiset(s)));
  }

  /** Sorting a repetition-free list depends on its set of elements only. */
  lemma SortSetIsAscending<T(!new)>(leq: (T, T) -> bool, s: seq<T>)
    requires TotalPreorder(leq) && Distinct(s)
    requires forall x, y :: x in s && y in s && leq(x, y) && leq(y, x) ==> x == y
    ensures Sort(leq, s) == Ascending(leq, multiset(Elements(s)))
  {
    SortIsAscending(leq, s);
    DistinctIsSet(s);
  }

  lemma DistinctIsSet<T>(s: seq<T>)
    requires Distinct(s)
    ensures multiset(s) == multiset(Elements(s))
  {
    forall x ensures multiset(s)[x] == multiset(Elements(s))[x] {
      OccursOnce(s, x);
      assert x in multiset(s) <==> x in Elements(s);
    }
  }

  lemma {:induction false} FlatMapMember<A, B>(f: A -> seq<B>, xs: seq<A>, y: B)
    ensures y in FlatMap(f, xs) <==> exists x :: x in xs && y in f(x)
  {
    if xs != [] {
      FlatMapMember(f, xs[1..], y);
      assert xs == [xs[0]] + xs[1..];
      if x :| x in xs && y in f(x) {
        assert x == xs[0] || x in xs[1..];
      }
      if y in f(xs[0]) {
        assert xs[0] in xs;
      }
    }
  }
}
