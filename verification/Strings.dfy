/** Strings as sequences of characters, with the library operations the operator relies on
    (Go's strings and slices packages): search, split, join, lexicographic sort, compact and trim. */
module Strings {

  // ---------------------------------------------------------------- search

  predicate HasPrefix(s: string, p: string) {
    |p| <= |s| && s[..|p|] == p
  }

  predicate HasSuffix(s: string, p: string) {
    |p| <= |s| && s[|s| - |p|..] == p
  }

  predicate OccursAt(s: string, sub: string, i: nat) {
    i + |sub| <= |s| && s[i..i + |sub|] == sub
  }

  /** The leftmost occurrence of sub in s, or -1. */
  function Index(s: string, sub: string): (i: int)
    ensures i < 0 ==> i == -1 && forall j: nat :: !OccursAt(s, sub, j)
    ensures i >= 0 ==> OccursAt(s, sub, i) && forall j: nat :: j < i ==> !OccursAt(s, sub, j)
  {
    IndexFrom(s, sub, 0)
  }

  function IndexFrom(s: string, sub: string, from: nat): (i: int)
    requires forall j: nat :: j < from ==> !OccursAt(s, sub, j)
    ensures i < 0 ==> i == -1 && forall j: nat :: !OccursAt(s, sub, j)
    ensures i >= 0 ==> OccursAt(s, sub, i) && forall j: nat :: j < i ==> !OccursAt(s, sub, j)
    decreases |s| - from
  {
    if from + |sub| > |s| then -1
    else if OccursAt(s, sub, from) then from
    else IndexFrom(s, sub, from + 1)
  }

  // ---------------------------------------------------------------- split and join

  function Split(s: string, sep: char): (parts: seq<string>)
    ensures |parts| >= 1
  {
    if s == "" then [""]
    else
      var rest := Split(s[1..], sep);
      if s[0] == sep then [""] + rest else [[s[0]] + rest[0]] + rest[1..]
  }

  function Join(parts: seq<string>, sep: char): string {
    if |parts| == 0 then ""
    else if |parts| == 1 then parts[0]
    else parts[0] + [sep] + Join(parts[1..], sep)
  }

  predicate AllFree(parts: seq<string>, c: char) {
    forall i :: 0 <= i < |parts| ==> c !in parts[i]
  }

  lemma {:induction false} SplitFree(s: string, sep: char)
    ensures AllFree(Split(s, sep), sep)
  {
    if s != "" {
      SplitFree(s[1..], sep);
    }
  }

  /** Joining what Split produced gives the text back. */
  lemma {:induction false} JoinSplit(s: string, sep: char)
    ensures Join(Split(s, sep), sep) == s
  {
    if s != "" {
      JoinSplit(s[1..], sep);
      var rest := Split(s[1..], sep);
      if s[0] == sep {
        assert ([""] + rest)[1..] == rest;
      } else if |rest| > 1 {
        assert ([[s[0]] + rest[0]] + rest[1..])[1..] == rest[1..];
      }
    }
  }

  lemma {:induction false} SplitNoSep(s: string, sep: char)
    requires sep !in s
    ensures Split(s, sep) == [s]
  {
    if s != "" {
      SplitNoSep(s[1..], sep);
      assert [s[0]] + s[1..] == s;
    }
  }

  lemma {:induction false} SplitHead(head: string, tail: string, sep: char)
    requires sep !in head
    ensures Split(head + [sep] + tail, sep) == [head] + Split(tail, sep)
  {
    if head == "" {
      assert ("" + [sep] + tail)[1..] == tail;
    } else {
      SplitHead(head[1..], tail, sep);
      assert (head + [sep] + tail)[1..] == head[1..] + [sep] + tail;
      assert [head[0]] + head[1..] == head;
    }
  }

  /** Splitting a joined non-empty list of separator-free entries gives the list back. */
  lemma {:induction false} SplitJoin(parts: seq<string>, sep: char)
    requires |parts| >= 1 && AllFree(parts, sep)
    ensures Split(Join(parts, sep), sep) == parts
  {
    if |parts| == 1 {
      SplitNoSep(parts[0], sep);
    } else {
      SplitJoin(parts[1..], sep);
      SplitHead(parts[0], Join(parts[1..], sep), sep);
    }
  }

  function Prepended(c: char, parts: seq<string>, sep: char): seq<string>
    requires parts != []
  {
    if c == sep then [""] + parts else [[c] + parts[0]] + parts[1..]
  }

  lemma SplitStep(s: string, c: char, rest: string, sep: char)
    requires s != "" && s[0] == c && s[1..] == rest
    ensures Split(s, sep) == Prepended(c, Split(rest, sep), sep)
  {
  }

  lemma PrependedConcat(c: char, x: seq<string>, y: seq<string>, sep: char)
    requires x != []
    ensures Prepended(c, x + y, sep) == Prepended(c, x, sep) + y
  {
  }

  /** Splitting distributes over a separator. */
  lemma {:induction false} SplitConcat(a: string, b: string, sep: char)
    ensures Split(a + [sep] + b, sep) == Split(a, sep) + Split(b, sep)
  {
    if a == "" {
      SplitHead("", b, sep);
    } else {
      SplitConcat(a[1..], b, sep);
      SplitStep(a + [sep] + b, a[0], a[1..] + [sep] + b, sep);
      SplitStep(a, a[0], a[1..], sep);
      PrependedConcat(a[0], Split(a[1..], sep), Split(b, sep), sep);
    }
  }

  /** The pieces between separators, entry after entry. */
  function Flat(parts: seq<string>, sep: char): seq<string> {
    if parts == [] then [] else Split(parts[0], sep) + Flat(parts[1..], sep)
  }

  /** Splitting a joined non-empty list gives the pieces of its entries, whatever they contain. */
  lemma {:induction false} SplitJoinFlat(parts: seq<string>, sep: char)
    requires parts != []
    ensures Split(Join(parts, sep), sep) == Flat(parts, sep)
  {
    if |parts| > 1 {
      SplitJoinFlat(parts[1..], sep);
      SplitConcat(parts[0], Join(parts[1..], sep), sep);
    } else {
      assert Flat(parts[1..], sep) == [];
    }
  }

  /** How many pieces each entry has. */
  function PieceCounts(parts: seq<string>, sep: char): seq<nat> {
    if parts == [] then [] else [|Split(parts[0], sep)|] + PieceCounts(parts[1..], sep)
  }

  lemma {:induction false} PieceCountsSize(parts: seq<string>, sep: char)
    ensures |PieceCounts(parts, sep)| == |parts|
  {
    if parts != [] { PieceCountsSize(parts[1..], sep); }
  }

  lemma CountsPeel(a: seq<string>, b: seq<string>, sep: char)
    requires a != [] && b != [] && PieceCounts(a, sep) == PieceCounts(b, sep)
    ensures |Split(a[0], sep)| == |Split(b[0], sep)| && PieceCounts(a[1..], sep) == PieceCounts(b[1..], sep)
  {
    var x, y := PieceCounts(a, sep), PieceCounts(b, sep);
    assert x[0] == y[0] && x[1..] == y[1..];
    assert x[1..] == PieceCounts(a[1..], sep) && y[1..] == PieceCounts(b[1..], sep);
  }

  /** The joined text and the numbers of pieces determine the list. */
  lemma {:induction false} JoinedAlike(a: seq<string>, b: seq<string>, sep: char)
    requires Flat(a, sep) == Flat(b, sep) && PieceCounts(a, sep) == PieceCounts(b, sep)
    ensures a == b
  {
    PieceCountsSize(a, sep);
    PieceCountsSize(b, sep);
    if a != [] {
      CountsPeel(a, b, sep);
      var n := |Split(a[0], sep)|;
      assert Split(a[0], sep) == Flat(a, sep)[..n] == Split(b[0], sep);
      assert Flat(a[1..], sep) == Flat(a, sep)[n..] == Flat(b[1..], sep);
      JoinSplit(a[0], sep);
      JoinSplit(b[0], sep);
      JoinedAlike(a[1..], b[1..], sep);
      assert a == [a[0]] + a[1..] && b == [b[0]] + b[1..];
    }
  }

  /** The first separator of a text determines what stands before and behind it. */
  lemma {:induction false} CutUnique(a: string, x: string, b: string, y: string, sep: char)
    requires sep !in a && sep !in b
    requires a + [sep] + x == b + [sep] + y
    ensures a == b && x == y
  {
    var s := a + [sep] + x;
    assert s[|a|] == sep && s[|b|] == sep;
    assert forall i :: 0 <= i < |a| ==> s[i] == a[i];
    assert forall i :: 0 <= i < |b| ==> s[i] == b[i];
    assert |a| == |b|;
    assert a == s[..|a|] == b;
    assert x == s[|a| + 1..] == y;
  }

  // ---------------------------------------------------------------- order and sorting

  /** Lexicographic order. */
  predicate Le(a: string, b: string) {
    if a == "" then true
    else if b == "" then false
    else if a[0] != b[0] then a[0] < b[0]
    else Le(a[1..], b[1..])
  }

  predicate Lt(a: string, b: string) {
    a != b && Le(a, b)
  }

  lemma LeTotal(a: string, b: string)
    ensures Le(a, b) || Le(b, a)
  {}

  lemma {:induction false} LeAntisymmetric(a: string, b: string)
    requires Le(a, b) && Le(b, a)
    ensures a == b
  {
    if a != "" && b != "" {
      LeAntisymmetric(a[1..], b[1..]);
      assert a == [a[0]] + a[1..] && b == [b[0]] + b[1..];
    }
  }

  lemma {:induction false} LeTransitive(a: string, b: string, c: string)
    requires Le(a, b) && Le(b, c)
    ensures Le(a, c)
  {
    if a != "" && a[0] == b[0] == c[0] {
      LeTransitive(a[1..], b[1..], c[1..]);
    }
  }

  predicate Sorted(xs: seq<string>) {
    forall i, j :: 0 <= i < j < |xs| ==> Le(xs[i], xs[j])
  }

  function Insert(x: string, xs: seq<string>): seq<string> {
    if xs == [] || Le(x, xs[0]) then [x] + xs else [xs[0]] + Insert(x, xs[1..])
  }

  /** slices.Sort: the sorted permutation. */
  function Sort(xs: seq<string>): seq<string> {
    if xs == [] then [] else Insert(xs[0], Sort(xs[1..]))
  }

  lemma {:induction false} InsertAdds(x: string, xs: seq<string>)
    ensures multiset(Insert(x, xs)) == multiset(xs) + multiset{x}
  {
    if xs != [] && !Le(x, xs[0]) {
      InsertAdds(x, xs[1..]);
      assert xs == [xs[0]] + xs[1..];
    }
  }

  lemma SortedCons(x: string, xs: seq<string>)
    requires Sorted(xs) && forall y :: y in xs ==> Le(x, y)
    ensures Sorted([x] + xs)
  {
  }

  lemma {:induction false} InsertSorts(x: string, xs: seq<string>)
    requires Sorted(xs)
    ensures Sorted(Insert(x, xs))
  {
    if xs == [] {
    } else if Le(x, xs[0]) {
      forall y | y in xs ensures Le(x, y) {
        SortedHead(xs, y);
        LeTransitive(x, xs[0], y);
      }
      SortedCons(x, xs);
    } else {
      InsertSorts(x, xs[1..]);
      InsertAdds(x, xs[1..]);
      LeTotal(x, xs[0]);
      var t := Insert(x, xs[1..]);
      forall y | y in t ensures Le(xs[0], y) {
        assert y in multiset(t);
        assert y == x || y in xs[1..];
      }
      SortedCons(xs[0], t);
    }
  }

  lemma {:induction false} SortSorts(xs: seq<string>)
    ensures Sorted(Sort(xs)) && multiset(Sort(xs)) == multiset(xs)
  {
    if xs != [] {
      SortSorts(xs[1..]);
      InsertSorts(xs[0], Sort(xs[1..]));
      InsertAdds(xs[0], Sort(xs[1..]));
      assert xs == [xs[0]] + xs[1..];
    }
  }

  lemma SameMultisetSameElements<T>(a: seq<T>, b: seq<T>)
    requires multiset(a) == multiset(b)
    ensures |a| == |b|
    ensures forall x :: x in a <==> x in b
  {
    assert |multiset(a)| == |a| && |multiset(b)| == |b|;
    forall x ensures x in a <==> x in b {
      assert x in a <==> x in multiset(a);
    }
  }

  lemma SortedHead(a: seq<string>, x: string)
    requires Sorted(a) && x in a
    ensures Le(a[0], x)
  {
    LeTotal(x, x);
  }

  lemma SortedHeadsAgree(a: seq<string>, b: seq<string>)
    requires Sorted(a) && Sorted(b) && a != [] && b != [] && a[0] in b && b[0] in a
    ensures a[0] == b[0]
  {
    SortedHead(b, a[0]);
    SortedHead(a, b[0]);
    LeAntisymmetric(a[0], b[0]);
  }

  /** A multiset has one sorted listing. */
  lemma {:induction false} SortedUnique(a: seq<string>, b: seq<string>)
    requires Sorted(a) && Sorted(b) && multiset(a) == multiset(b)
    ensures a == b
  {
    SameMultisetSameElements(a, b);
    if a != [] {
      SortedHeadsAgree(a, b);
      TailMultiset(a);
      TailMultiset(b);
      SortedUnique(a[1..], b[1..]);
      assert a == [a[0]] + a[1..] && b == [b[0]] + b[1..];
    }
  }

  lemma TailMultiset(a: seq<string>)
    requires a != []
    ensures multiset(a[1..]) == multiset(a) - multiset{a[0]}
  {
    assert a == [a[0]] + a[1..];
  }

  // ---------------------------------------------------------------- sorted without duplicates

  function Elements(xs: seq<string>): set<string> {
    set x | x in xs
  }

  predicate StrictlySorted(xs: seq<string>) {
    forall i, j :: 0 <= i < j < |xs| ==> Lt(xs[i], xs[j])
  }

  /** slices.Compact: drops a repetition of the entry before it. */
  function Compact(xs: seq<string>): seq<string> {
    if |xs| <= 1 then xs
    else if xs[0] == xs[1] then Compact(xs[1..])
    else [xs[0]] + Compact(xs[1..])
  }

  lemma ElementsCons(x: string, xs: seq<string>)
    ensures Elements([x] + xs) == {x} + Elements(xs)
  {
  }

  lemma {:induction false} CompactCompacts(xs: seq<string>)
    ensures Elements(Compact(xs)) == Elements(xs)
    ensures Sorted(xs) ==> StrictlySorted(Compact(xs))
    ensures xs != [] ==> Compact(xs) != [] && Compact(xs)[0] == xs[0]
  {
    if |xs| > 1 {
      var t := xs[1..];
      CompactCompacts(t);
      assert xs == [xs[0]] + t;
      ElementsCons(xs[0], t);
      ElementsCons(xs[0], Compact(t));
      if xs[0] == xs[1] {
        assert t[0] in Elements(t);
      } else if Sorted(xs) {
        CompactHead(xs, Compact(t));
      }
    }
  }

  lemma CompactHead(xs: seq<string>, t: seq<string>)
    requires |xs| >= 2 && Sorted(xs) && xs[0] != xs[1]
    requires StrictlySorted(t) && t != [] && t[0] == xs[1]
    ensures StrictlySorted([xs[0]] + t)
  {
    forall j | 0 <= j < |t| ensures Lt(xs[0], t[j]) {
      assert Le(xs[1], t[j]) by { if j == 0 { LeTotal(t[0], t[0]); } }
      LeTransitive(xs[0], xs[1], t[j]);
      if xs[0] == t[j] { LeAntisymmetric(xs[0], xs[1]); }
    }
  }

  /** A set has one strictly sorted listing. */
  lemma {:induction false} StrictlySortedUnique(a: seq<string>, b: seq<string>)
    requires StrictlySorted(a) && StrictlySorted(b) && Elements(a) == Elements(b)
    ensures a == b
  {
    assert a != [] ==> a[0] in Elements(a);
    assert b != [] ==> b[0] in Elements(b);
    if a != [] {
      SortedHeadsAgree(a, b);
      forall x ensures x in Elements(a[1..]) <==> x in Elements(b[1..]) {
        StrictTail(a, x);
        StrictTail(b, x);
      }
      StrictlySortedUnique(a[1..], b[1..]);
    }
  }

  lemma StrictTail(a: seq<string>, x: string)
    requires StrictlySorted(a) && a != []
    ensures x in a[1..] <==> x in Elements(a) && x != a[0]
  {
  }

  /** The strictly sorted listing of the entries of xs. */
  function SortUnique(xs: seq<string>): (r: seq<string>)
    ensures Elements(r) == Elements(xs)
  {
    SortSorts(xs);
    SameMultisetSameElements(Sort(xs), xs);
    CompactCompacts(Sort(xs));
    Compact(Sort(xs))
  }

  lemma SortUniqueListing(xs: seq<string>, r: seq<string>)
    ensures r == SortUnique(xs) <==> StrictlySorted(r) && Elements(r) == Elements(xs)
  {
    SortSorts(xs);
    CompactCompacts(Sort(xs));
    if StrictlySorted(r) && Elements(r) == Elements(xs) {
      StrictlySortedUnique(r, SortUnique(xs));
    }
  }

  /** Iterating a map's keys in any order and sorting them. */
  method SortedKeys(keys: set<string>) returns (r: seq<string>)
    ensures StrictlySorted(r) && Elements(r) == keys
    ensures forall xs :: Elements(xs) == keys ==> r == SortUnique(xs)
  {
    var rest := keys;
    var xs: seq<string> := [];
    while rest != {}
      invariant rest <= keys && Elements(xs) == keys - rest
      decreases rest
    {
      var k :| k in rest;
      assert Elements(xs + [k]) == Elements(xs) + {k};
      rest := rest - {k};
      xs := xs + [k];
    }
    r := SortUnique(xs);
    SortUniqueListing(xs, r);
    forall ys | Elements(ys) == keys ensures r == SortUnique(ys) { SortUniqueListing(ys, r); }
  }

  // ---------------------------------------------------------------- trim

  /** The white space of Go's unicode.IsSpace in the Latin-1 range. */
  predicate IsSpace(c: char) {
    c in ['\t', '\n', '\U{0B}', '\U{0C}', '\r', ' ', '\U{85}', '\U{A0}']
  }

  function TrimLeft(s: string): string {
    if s != "" && IsSpace(s[0]) then TrimLeft(s[1..]) else s
  }

  function TrimRight(s: string): string {
    if s != "" && IsSpace(s[|s| - 1]) then TrimRight(s[..|s| - 1]) else s
  }

  function TrimSpace(s: string): string {
    TrimRight(TrimLeft(s))
  }

  lemma {:induction false} TrimLeftCuts(s: string) returns (k: nat)
    ensures k <= |s| && TrimLeft(s) == s[k..] && (k < |s| ==> !IsSpace(s[k]))
  {
    k := 0;
    if s != "" && IsSpace(s[0]) {
      var j := TrimLeftCuts(s[1..]);
      k := j + 1;
    }
  }

  lemma {:induction false} TrimRightCuts(s: string) returns (k: nat)
    ensures k <= |s| && TrimRight(s) == s[..k] && (k > 0 ==> !IsSpace(s[k - 1]))
  {
    k := |s|;
    if s != "" && IsSpace(s[|s| - 1]) {
      k := TrimRightCuts(s[..|s| - 1]);
      assert s[..|s| - 1][..k] == s[..k];
    }
  }

  /** Trimming is idempotent and invents no character. */
  lemma TrimmedIsTrimmed(s: string)
    ensures TrimSpace(TrimSpace(s)) == TrimSpace(s)
    ensures forall c :: c in TrimSpace(s) ==> c in s
  {
    var k := TrimLeftCuts(s);
    var l := TrimLeft(s);
    var m := TrimRightCuts(l);
    var t := TrimRight(l);
    assert t == l[..m];
    if t != "" {
      assert t[0] == l[0] == s[k];
      assert t[|t| - 1] == l[m - 1];
    }
    assert TrimLeft(t) == t && TrimRight(t) == t;
  }
}
