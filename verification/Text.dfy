/** Strings as the control plane uses them: Go's byte order, sort.Strings, strings.Join and %d. */
module Text {

  // ---------------------------------------------------------------------------------------------
  // Order
  // ---------------------------------------------------------------------------------------------

  /** Lexicographic order. */
  predicate LessEq(a: string, b: string) {
    a == [] || (b != [] && (a[0] < b[0] || (a[0] == b[0] && LessEq(a[1..], b[1..]))))
  }

  lemma {:induction false} LessEqTotal(a: string, b: string)
    ensures LessEq(a, b) || LessEq(b, a)
    ensures LessEq(a, b) && LessEq(b, a) ==> a == b
  {
    if a != [] && b != [] && a[0] == b[0] {
      LessEqTotal(a[1..], b[1..]);
      assert a == [a[0]] + a[1..] && b == [b[0]] + b[1..];
    }
  }

  /** A beginning comes first; otherwise the first character that differs decides. */
  lemma {:induction false} LessEqIsLexicographic(a: string, b: string)
    ensures LessEq(a, b) <==> a <= b || exists i :: DecidedAt(a, b, i)
  {
    if a != [] && b != [] && a[0] == b[0] {
      LessEqIsLexicographic(a[1..], b[1..]);
      assert a <= b <==> a[1..] <= b[1..];
      forall i: nat
        ensures DecidedAt(a[1..], b[1..], i) <==> DecidedAt(a, b, i + 1)
      {
        if i < |a| - 1 && i < |b| - 1 {
          assert a[..i + 1] == [a[0]] + a[1..][..i] && b[..i + 1] == [b[0]] + b[1..][..i];
          assert a[1..][..i] == a[..i + 1][1..] && b[1..][..i] == b[..i + 1][1..];
        }
      }
      assert !DecidedAt(a, b, 0);
      if i :| DecidedAt(a, b, i) {
        assert DecidedAt(a[1..], b[1..], i - 1);
      }
    } else if a != [] && b != [] {
      assert DecidedAt(a, b, 0) <==> a[0] < b[0];
      assert forall i :: 0 < i && DecidedAt(a, b, i) ==> a[..i][0] == b[..i][0];
    }
  }

  ghost predicate DecidedAt(a: string, b: string, i: int) {
    0 <= i < |a| && i < |b| && a[..i] == b[..i] && a[i] < b[i]
  }

  lemma {:induction false} LessEqTransitive(a: string, b: string, c: string)
    requires LessEq(a, b) && LessEq(b, c)
    ensures LessEq(a, c)
  {
    if a != [] && a[0] == b[0] == c[0] {
      LessEqTransitive(a[1..], b[1..], c[1..]);
    }
  }

  ghost predicate IsSorted(s: seq<string>) {
    forall i, j :: 0 <= i < j < |s| ==> LessEq(s[i], s[j])
  }

  /** Sorted, and no string twice. */
  ghost predicate IsStrictlySorted(s: seq<string>) {
    IsSorted(s) && forall i, j :: 0 <= i < j < |s| ==> s[i] != s[j]
  }

  // ---------------------------------------------------------------------------------------------
  // Sorting
  // ---------------------------------------------------------------------------------------------

  function Insert(x: string, s: seq<string>): seq<string> {
    if s == [] then [x]
    else if LessEq(x, s[0]) then [x] + s
    else [s[0]] + Insert(x, s[1..])
  }

  /** sort.Strings. */
  function Sort(s: seq<string>): seq<string> {
    if s == [] then [] else Insert(s[0], Sort(s[1..]))
  }

  lemma {:induction false} InsertPermutes(x: string, s: seq<string>)
    ensures multiset(Insert(x, s)) == multiset(s) + multiset{x}
  {
    if s != [] && !LessEq(x, s[0]) {
      InsertPermutes(x, s[1..]);
      assert s == [s[0]] + s[1..];
    }
  }

  lemma {:induction false} SortPermutes(s: seq<string>)
    ensures multiset(Sort(s)) == multiset(s)
  {
    if s != [] {
      SortPermutes(s[1..]);
      InsertPermutes(s[0], Sort(s[1..]));
      assert s == [s[0]] + s[1..];
    }
  }

  lemma SameElements(r: seq<string>, s: seq<string>)
    requires multiset(r) == multiset(s)
    ensures forall x :: x in r <==> x in s
  {
    forall x
      ensures x in r <==> x in s
    {
      assert x in r <==> x in multiset(r);
      assert x in s <==> x in multiset(s);
    }
  }

  lemma {:induction false} InsertElements(x: string, s: seq<string>, y: string)
    ensures y in Insert(x, s) <==> y == x || y in s
  {
    if s != [] {
      assert y in s <==> y == s[0] || y in s[1..];
      if !LessEq(x, s[0]) {
        InsertElements(x, s[1..], y);
      }
    }
  }

  lemma {:induction false} InsertSorted(x: string, s: seq<string>)
    requires IsSorted(s)
    ensures IsSorted(Insert(x, s))
  {
    if s != [] {
      LessEqTotal(x, s[0]);
      if LessEq(x, s[0]) {
        forall y | y in s
          ensures LessEq(x, y)
        {
          FirstIsLeast(s, y);
          LessEqTransitive(x, s[0], y);
        }
        Prepend(x, s);
      } else {
        InsertSorted(x, s[1..]);
        forall y | y in Insert(x, s[1..])
          ensures LessEq(s[0], y)
        {
          InsertElements(x, s[1..], y);
          if y != x {
            assert y in s;
            FirstIsLeast(s, y);
          }
        }
        Prepend(s[0], Insert(x, s[1..]));
      }
    }
  }

  lemma Prepend(x: string, s: seq<string>)
    requires IsSorted(s) && forall y :: y in s ==> LessEq(x, y)
    ensures IsSorted([x] + s)
  {
  }

  lemma {:induction false} SortSorts(s: seq<string>)
    ensures IsSorted(Sort(s))
  {
    if s != [] {
      SortSorts(s[1..]);
      InsertSorted(s[0], Sort(s[1..]));
    }
  }

  /** A sorted sequence is determined by what is in it. */
  lemma {:induction false} SortedUnique(r: seq<string>, s: seq<string>)
    requires IsSorted(r) && IsSorted(s) && multiset(r) == multiset(s)
    ensures r == s
  {
    assert |multiset(r)| == |r| && |multiset(s)| == |s|;
    if r != [] {
      HeadsAgree(r, s);
      TailMultiset(r);
      TailMultiset(s);
      SortedUnique(r[1..], s[1..]);
      assert r == [r[0]] + r[1..] && s == [s[0]] + s[1..];
    }
  }

  lemma HeadsAgree(r: seq<string>, s: seq<string>)
    requires IsSorted(r) && IsSorted(s) && multiset(r) == multiset(s) && r != [] && s != []
    ensures r[0] == s[0]
  {
    SameElements(r, s);
    assert r[0] in s && s[0] in r;
    LessEqTotal(r[0], s[0]);
    FirstIsLeast(r, s[0]);
    FirstIsLeast(s, r[0]);
  }

  lemma TailMultiset(s: seq<string>)
    requires s != []
    ensures multiset(s[1..]) == multiset(s) - multiset{s[0]}
  {
    assert s == [s[0]] + s[1..];
  }

  lemma FirstIsLeast(s: seq<string>, x: string)
    requires IsSorted(s) && x in s
    ensures LessEq(s[0], x)
  {
    LessEqTotal(x, x);
  }

  // ---------------------------------------------------------------------------------------------
  // The sorted listing of a set
  // ---------------------------------------------------------------------------------------------

  /** The elements of a set in whatever order the map hands them out. */
  ghost predicate Enumerates(s: seq<string>, xs: set<string>) {
    && (forall x :: x in s <==> x in xs)
    && (forall i, j :: 0 <= i < j < |s| ==> s[i] != s[j])
  }

  /** Ranging over a map's keys, in whatever order it gives them. */
  method Elements(xs: set<string>) returns (s: seq<string>)
    ensures Enumerates(s, xs)
  {
    s := [];
    var rest := xs;
    while rest != {}
      invariant rest <= xs && Enumerates(s, xs - rest)
      decreases rest
    {
      var x :| x in rest;
      rest := rest - {x};
      s := s + [x];
    }
  }

  ghost function SomeEnumeration(xs: set<string>): seq<string> {
    if xs == {} then []
    else
      var x :| x in xs;
      [x] + SomeEnumeration(xs - {x})
  }

  lemma {:induction false} SomeEnumerationOf(xs: set<string>)
    ensures Enumerates(SomeEnumeration(xs), xs)
  {
    if xs != {} {
      var s := SomeEnumeration(xs);
      SomeEnumerationOf(xs - {s[0]});
      assert s[1..] == SomeEnumeration(xs - {s[0]});
      assert forall x :: x in s <==> x == s[0] || x in s[1..];
    }
  }

  ghost function Listing(xs: set<string>): seq<string> {
    Sort(SomeEnumeration(xs))
  }

  lemma {:induction false} DistinctOnce(s: seq<string>, x: string)
    requires forall i, j :: 0 <= i < j < |s| ==> s[i] != s[j]
    ensures multiset(s)[x] == if x in s then 1 else 0
  {
    if s != [] {
      DistinctOnce(s[1..], x);
      assert s == [s[0]] + s[1..];
      assert x in s <==> x == s[0] || x in s[1..];
      assert s[0] !in s[1..];
    }
  }

  lemma TwiceCounted(s: seq<string>, i: nat, j: nat)
    requires i < j < |s| && s[i] == s[j]
    ensures 2 <= multiset(s)[s[j]]
  {
    assert s == s[..j] + s[j..];
    assert s[..j][i] in s[..j] && s[j..][0] in s[j..];
  }

  lemma OnceDistinct(s: seq<string>)
    requires forall x :: multiset(s)[x] <= 1
    ensures forall i, j :: 0 <= i < j < |s| ==> s[i] != s[j]
  {
    forall i, j | 0 <= i < j < |s|
      ensures s[i] != s[j]
    {
      if s[i] == s[j] {
        TwiceCounted(s, i, j);
        assert false;
      }
    }
  }

  lemma EnumerationsAgree(r: seq<string>, s: seq<string>, xs: set<string>)
    requires Enumerates(r, xs) && Enumerates(s, xs)
    ensures multiset(r) == multiset(s)
  {
    forall x
      ensures multiset(r)[x] == multiset(s)[x]
    {
      DistinctOnce(r, x);
      DistinctOnce(s, x);
    }
  }

  /** However a set is enumerated, sorting yields the same strictly sorted sequence of it. */
  lemma SortedListing(s: seq<string>, xs: set<string>)
    requires Enumerates(s, xs)
    ensures Sort(s) == Listing(xs)
    ensures IsStrictlySorted(Listing(xs)) && Enumerates(Listing(xs), xs)
  {
    SomeEnumerationOf(xs);
    EnumerationsAgree(s, SomeEnumeration(xs), xs);
    SortPermutes(s);
    SortPermutes(SomeEnumeration(xs));
    SortSorts(s);
    SortSorts(SomeEnumeration(xs));
    SortedUnique(Sort(s), Listing(xs));
    forall x
      ensures multiset(Listing(xs))[x] <= 1
    {
      DistinctOnce(s, x);
    }
    OnceDistinct(Listing(xs));
    SameElements(Listing(xs), s);
  }

  lemma ListingOf(xs: set<string>)
    ensures IsStrictlySorted(Listing(xs)) && Enumerates(Listing(xs), xs)
  {
    SomeEnumerationOf(xs);
    SortedListing(SomeEnumeration(xs), xs);
  }

  // ---------------------------------------------------------------------------------------------
  // Keys
  // ---------------------------------------------------------------------------------------------

  function Join(parts: seq<string>, separator: char): string {
    if parts == [] then ""
    else if |parts| == 1 then parts[0]
    else parts[0] + [separator] + Join(parts[1..], separator)
  }

  function Digits(n: nat): (s: string)
    ensures s != [] && forall c :: c in s ==> '0' <= c <= '9'
  {
    if n < 10 then ['0' + n as char] else Digits(n / 10) + ['0' + (n % 10) as char]
  }

  /** %d */
  function Decimal(n: int): string {
    if n < 0 then "-" + Digits(-n) else Digits(n)
  }

  function Value(s: string): int {
    if s == [] then 0 else 10 * Value(s[..|s| - 1]) + s[|s| - 1] as int - '0' as int
  }

  lemma {:induction false} DigitsValue(n: nat)
    ensures Value(Digits(n)) == n
  {
    var s := Digits(n);
    if n < 10 {
      assert s[..|s| - 1] == [];
    } else {
      DigitsValue(n / 10);
      assert s[..|s| - 1] == Digits(n / 10);
    }
  }

  lemma DecimalInjective(m: int, n: int)
    requires Decimal(m) == Decimal(n)
    ensures m == n
  {
    var x, y := if m < 0 then -m else m, if n < 0 then -n else n;
    assert Digits(x)[0] in Digits(x) && Digits(y)[0] in Digits(y);
    if m < 0 {
      assert Decimal(m)[0] == '-';
      assert Decimal(m)[1..] == Digits(x) && Decimal(n)[1..] == Digits(y);
    } else {
      assert Decimal(m)[0] != '-';
    }
    assert Digits(x) == Digits(y);
    DigitsValue(x);
    DigitsValue(y);
  }

  lemma DecimalHasNoColon(n: int)
    ensures ':' !in Decimal(n)
  {
  }

  lemma LaterSeparator(a: string, x: string, b: string, y: string, c: char)
    requires c !in b && |a| < |b|
    ensures a + [c] + x != b + [c] + y
  {
    assert (a + [c] + x)[|a|] == c;
    assert (b + [c] + y)[|a|] == b[|a|];
    assert b[|a|] in b;
  }

  /** The first occurrence of a separator splits a string in one way only. */
  lemma SplitUnique(a: string, x: string, b: string, y: string, c: char)
    requires c !in a && c !in b
    requires a + [c] + x == b + [c] + y
    ensures a == b && x == y
  {
    if |a| < |b| {
      LaterSeparator(a, x, b, y, c);
    } else if |b| < |a| {
      LaterSeparator(b, y, a, x, c);
    } else {
      assert a == (a + [c] + x)[..|a|] == (b + [c] + y)[..|b|] == b;
      assert x == (a + [c] + x)[|a| + 1..] == (b + [c] + y)[|b| + 1..] == y;
    }
  }

  ghost predicate Free(parts: seq<string>, c: char) {
    forall i :: 0 <= i < |parts| ==> c !in parts[i]
  }

  lemma OneIsNotMany(x: string, ys: seq<string>, c: char)
    requires c !in x && 2 <= |ys|
    ensures Join(ys, c) != x
  {
    assert Join(ys, c)[|ys[0]|] == c;
    assert c in Join(ys, c);
  }

  lemma {:induction false} JoinInjective(xs: seq<string>, ys: seq<string>, c: char)
    requires xs != [] && ys != [] && Free(xs, c) && Free(ys, c)
    requires Join(xs, c) == Join(ys, c)
    ensures xs == ys
  {
    if |xs| == 1 && |ys| > 1 {
      OneIsNotMany(xs[0], ys, c);
    } else if |ys| == 1 && |xs| > 1 {
      OneIsNotMany(ys[0], xs, c);
    } else if |xs| > 1 {
      SplitUnique(xs[0], Join(xs[1..], c), ys[0], Join(ys[1..], c), c);
      JoinInjective(xs[1..], ys[1..], c);
      assert xs == [xs[0]] + xs[1..] && ys == [ys[0]] + ys[1..];
    }
  }
}
