/** Comma-separated annotation values that stand for sets of names
    (pkg/helpers/resource.go, internal/controller/authorization/binddefinition_helpers.go). */
module NameLists {
  import opened Strings

  /** A name as BindDefinitions have it: not empty, no comma, no surrounding space. */
  predicate Plain(name: string) {
    name != "" && ',' !in name && TrimSpace(name) == name
  }

  function TrimAll(parts: seq<string>): (r: seq<string>)
    ensures |r| == |parts| && forall i :: 0 <= i < |r| ==> r[i] == TrimSpace(parts[i])
  {
    seq(|parts|, i requires 0 <= i < |parts| => TrimSpace(parts[i]))
  }

  function Pieces(text: string): seq<string> {
    TrimAll(Split(text, ','))
  }

  function Drop(xs: seq<string>, name: string): seq<string> {
    if xs == [] then []
    else if xs[0] == name then Drop(xs[1..], name)
    else [xs[0]] + Drop(xs[1..], name)
  }

  /** The non-empty trimmed entries, in order. */
  function Entries(text: string): seq<string> {
    Drop(Pieces(text), "")
  }

  ghost function Names(text: string): set<string> {
    Elements(Entries(text))
  }

  // ---------------------------------------------------------------- the operations

  /** parseReferencedBy. */
  method ParseReferencedBy(value: string) returns (refs: seq<string>)
    ensures refs == Entries(value)
  {
    if value == "" {
      assert Split("", ',') == [""];
      assert TrimSpace("") == "";
      assert Pieces("") == [""];
      assert Drop([""], "") == [];
      return [];
    }
    var parts := Split(value, ',');
    refs := [];
    for i := 0 to |parts|
      invariant refs + Drop(TrimAll(parts)[i..], "") == Entries(value)
    {
      var trimmed := TrimSpace(parts[i]);
      assert TrimAll(parts)[i..] == [trimmed] + TrimAll(parts)[i + 1..];
      if trimmed != "" {
        refs := refs + [trimmed];
      }
    }
  }

  function Merge(existing: string, name: string): string {
    if existing == "" then name
    else
      var names := Pieces(existing);
      Join(Sort(if name in names then names else names + [name]), ',')
  }

  function Remove(existing: string, name: string): string {
    if existing == "" then "" else Join(Sort(Drop(Pieces(existing), name)), ',')
  }

  method MergeSourceNames(existing: string, name: string) returns (text: string)
    ensures text == Merge(existing, name)
  {
    if existing == "" {
      return name;
    }
    var names := Split(existing, ',');
    for i := 0 to |names|
      invariant |names| == |Split(existing, ',')|
      invariant names[i..] == Split(existing, ',')[i..] && names[..i] == Pieces(existing)[..i]
    {
      names := names[i := TrimSpace(names[i])];
    }
    assert names == Pieces(existing);
    if name !in names {
      names := names + [name];
    }
    return Join(Sort(names), ',');
  }

  method RemoveSourceName(existing: string, name: string) returns (text: string)
    ensures text == Remove(existing, name)
  {
    if existing == "" {
      return "";
    }
    var names := Split(existing, ',');
    var result: seq<string> := [];
    for i := 0 to |names|
      invariant result + Drop(TrimAll(names)[i..], name) == Drop(Pieces(existing), name)
    {
      var trimmed := TrimSpace(names[i]);
      assert TrimAll(names)[i..] == [trimmed] + TrimAll(names)[i + 1..];
      if trimmed != name {
        result := result + [trimmed];
      }
    }
    assert TrimAll(names)[|names|..] == [];
    assert result == Drop(Pieces(existing), name);
    return Join(Sort(result), ',');
  }

  /** The filtering loop of removeExternalSAReference. */
  method DropName(refs: seq<string>, name: string) returns (rest: seq<string>, found: bool)
    ensures rest == Drop(refs, name) && (found <==> name in refs)
  {
    rest, found := [], false;
    for i := 0 to |refs|
      invariant rest + Drop(refs[i..], name) == Drop(refs, name)
      invariant found <==> name in refs[..i]
    {
      assert refs[i..] == [refs[i]] + refs[i + 1..];
      if refs[i] == name {
        found := true;
      } else {
        rest := rest + [refs[i]];
      }
    }
    assert refs[..|refs|] == refs && Drop(refs[|refs|..], name) == [];
  }

  // ---------------------------------------------------------------- as sets, for every text

  predicate TrimmedFree(xs: seq<string>) {
    AllFree(xs, ',') && forall i :: 0 <= i < |xs| ==> TrimSpace(xs[i]) == xs[i]
  }

  lemma {:induction false} DropElements(xs: seq<string>, name: string)
    ensures Elements(Drop(xs, name)) == Elements(xs) - {name}
  {
    if xs != [] {
      DropElements(xs[1..], name);
      assert xs == [xs[0]] + xs[1..];
      ElementsCons(xs[0], xs[1..]);
      if xs[0] != name {
        ElementsCons(xs[0], Drop(xs[1..], name));
      }
    }
  }

  lemma PiecesTrimmed(text: string)
    ensures TrimmedFree(Pieces(text))
  {
    SplitFree(text, ',');
    var parts := Split(text, ',');
    forall i | 0 <= i < |parts| ensures ',' !in TrimSpace(parts[i]) && TrimSpace(TrimSpace(parts[i])) == TrimSpace(parts[i]) {
      TrimmedIsTrimmed(parts[i]);
    }
  }

  lemma SameMembersTrimmed(xs: seq<string>, ys: seq<string>)
    requires TrimmedFree(xs) && forall y :: y in ys ==> y in xs
    ensures TrimmedFree(ys)
  {
    forall i | 0 <= i < |ys| ensures ',' !in ys[i] && TrimSpace(ys[i]) == ys[i] {
      assert ys[i] in xs;
    }
  }

  lemma NamesOfPieces(text: string)
    ensures Names(text) == Elements(Pieces(text)) - {""}
  {
    DropElements(Pieces(text), "");
  }

  lemma PiecesOfJoin(xs: seq<string>)
    requires TrimmedFree(xs)
    ensures xs != [] ==> Pieces(Join(xs, ',')) == xs
    ensures xs == [] ==> Pieces(Join(xs, ',')) == [""]
  {
    if xs != [] {
      SplitJoin(xs, ',');
    } else {
      assert TrimSpace("") == "";
      assert Split("", ',') == [""];
    }
  }

  lemma NamesOfJoin(xs: seq<string>)
    requires TrimmedFree(xs)
    ensures Names(Join(xs, ',')) == Elements(xs) - {""}
  {
    PiecesOfJoin(xs);
    NamesOfPieces(Join(xs, ','));
  }

  lemma SortKeepsElements(xs: seq<string>)
    ensures forall x :: x in Sort(xs) <==> x in xs
    ensures Elements(Sort(xs)) == Elements(xs)
  {
    SortSorts(xs);
    SameMultisetSameElements(Sort(xs), xs);
  }

  lemma NamesOfSorted(xs: seq<string>)
    requires TrimmedFree(xs)
    ensures Names(Join(Sort(xs), ',')) == Elements(xs) - {""}
  {
    SortKeepsElements(xs);
    SameMembersTrimmed(xs, Sort(xs));
    NamesOfJoin(Sort(xs));
  }

  lemma MergeFirst(name: string)
    requires Plain(name)
    ensures Names("") == {} && Names(name) == {name}
  {
    PiecesOfJoin([]);
    NamesOfPieces("");
    NamesOfJoin([name]);
  }

  /** Merging adds exactly the name, whatever the text was. */
  lemma MergeAdds(text: string, name: string)
    requires Plain(name)
    ensures Names(Merge(text, name)) == Names(text) + {name}
  {
    NamesOfPieces(text);
    if text == "" {
      MergeFirst(name);
    } else {
      var names := Pieces(text);
      var all := if name in names then names else names + [name];
      PiecesTrimmed(text);
      NamesOfSorted(all);
      assert Elements(all) == Elements(names) + {name};
    }
  }

  /** Removing drops exactly the name, whatever the text was. */
  lemma RemoveDrops(text: string, name: string)
    ensures Names(Remove(text, name)) == Names(text) - {name}
  {
    PiecesTrimmed(text);
    NamesOfPieces(text);
    if text == "" {
      PiecesOfJoin([]);
    } else {
      var rest := Drop(Pieces(text), name);
      DropElements(Pieces(text), name);
      SortKeepsElements(rest);
      forall x | x in Sort(rest) ensures x in Pieces(text) {
        assert x in Elements(rest);
      }
      SameMembersTrimmed(Pieces(text), Sort(rest));
      NamesOfJoin(Sort(rest));
    }
  }

  // ---------------------------------------------------------------- canonical text

  /** The sorted listing of its names. */
  predicate Canonical(text: string) {
    StrictlySorted(Entries(text)) && text == Join(Entries(text), ',')
  }

  /** One set of names has one canonical text. */
  lemma CanonicalUnique(a: string, b: string)
    requires Canonical(a) && Canonical(b) && Names(a) == Names(b)
    ensures a == b
  {
    StrictlySortedUnique(Entries(a), Entries(b));
  }

  lemma {:induction false} DropNothing(xs: seq<string>, name: string)
    requires name !in xs
    ensures Drop(xs, name) == xs
  {
    if xs != [] {
      DropNothing(xs[1..], name);
      assert xs == [xs[0]] + xs[1..];
    }
  }

  lemma {:induction false} DropSorted(xs: seq<string>, name: string)
    requires StrictlySorted(xs)
    ensures StrictlySorted(Drop(xs, name))
  {
    if xs != [] {
      DropSorted(xs[1..], name);
      var t := Drop(xs[1..], name);
      DropElements(xs[1..], name);
      forall j | 0 <= j < |t| ensures Lt(xs[0], t[j]) {
        assert t[j] in Elements(t);
      }
    }
  }

  /** Joining a strictly sorted list of plain names is canonical. */
  lemma CanonicalJoin(xs: seq<string>)
    requires StrictlySorted(xs) && TrimmedFree(xs) && "" !in xs
    ensures Canonical(Join(xs, ',')) && Entries(Join(xs, ',')) == xs
  {
    PiecesOfJoin(xs);
    if xs == [] {
      assert Drop([""], "") == [];
    } else {
      DropNothing(xs, "");
    }
  }

  lemma CanonicalPieces(text: string)
    requires Canonical(text) && text != ""
    ensures Pieces(text) == Entries(text) && TrimmedFree(Entries(text)) && "" !in Entries(text)
  {
    var xs := Entries(text);
    PiecesTrimmed(text);
    DropElements(Pieces(text), "");
    assert forall x :: x in xs <==> x in Elements(xs);
    SameMembersTrimmed(Pieces(text), xs);
    PiecesOfJoin(xs);
  }

  lemma SortStrict(xs: seq<string>)
    requires StrictlySorted(xs)
    ensures Sort(xs) == xs
  {
  }

  lemma InsertStrict(xs: seq<string>, name: string)
    requires StrictlySorted(xs) && name !in xs
    ensures StrictlySorted(Sort(xs + [name]))
  {
    var s := Sort(xs + [name]);
    SortSorts(xs + [name]);
    forall x ensures multiset(s)[x] <= 1 {
      OnceEach(xs, x);
    }
    forall i, j | 0 <= i < j < |s| ensures Lt(s[i], s[j]) {
      if s[i] == s[j] { Twice(s, i, j); }
    }
  }

  lemma Twice(s: seq<string>, i: nat, j: nat)
    requires i < j < |s| && s[i] == s[j]
    ensures multiset(s)[s[i]] >= 2
  {
    assert s == s[..j] + [s[j]] + s[j + 1..];
    assert s[i] in s[..j];
  }

  lemma {:induction false} OnceEach(xs: seq<string>, x: string)
    requires StrictlySorted(xs)
    ensures multiset(xs)[x] <= 1
  {
    if xs != [] {
      OnceEach(xs[1..], x);
      assert xs == [xs[0]] + xs[1..];
      assert xs[0] !in xs[1..];
    }
  }

  lemma MergeCanonical(text: string, name: string)
    requires Canonical(text) && Plain(name)
    ensures Canonical(Merge(text, name)) && Merge(text, name) != ""
  {
    if text == "" {
      CanonicalJoin([name]);
    } else {
      CanonicalPieces(text);
      var xs := Entries(text);
      if name in xs {
        SortStrict(xs);
        assert xs != [];
      } else {
        InsertStrict(xs, name);
        SortKeepsElements(xs + [name]);
        SameMembersTrimmed(xs + [name], Sort(xs + [name]));
        CanonicalJoin(Sort(xs + [name]));
      }
      MergeAdds(text, name);
      EmptyHasNoNames();
    }
  }

  lemma EmptyHasNoNames()
    ensures Names("") == {} && Canonical("")
  {
  }

  lemma RemoveCanonical(text: string, name: string)
    requires Canonical(text)
    ensures Canonical(Remove(text, name))
  {
    if text == "" {
      EmptyHasNoNames();
    } else {
      CanonicalPieces(text);
      var xs := Entries(text);
      DropSorted(xs, name);
      DropElements(xs, name);
      SortStrict(Drop(xs, name));
      forall x | x in Drop(xs, name) ensures x in xs {
        assert x in Elements(Drop(xs, name));
      }
      SameMembersTrimmed(xs, Drop(xs, name));
      CanonicalJoin(Drop(xs, name));
    }
  }

  /** On canonical text the operations are determined by the sets they produce. */
  lemma MergeDetermined(text: string, name: string, other: string)
    requires Canonical(text) && Plain(name) && Canonical(other) && Names(other) == Names(text) + {name}
    ensures Merge(text, name) == other
  {
    MergeCanonical(text, name);
    MergeAdds(text, name);
    CanonicalUnique(Merge(text, name), other);
  }

  lemma RemoveDetermined(text: string, name: string, other: string)
    requires Canonical(text) && Canonical(other) && Names(other) == Names(text) - {name}
    ensures Remove(text, name) == other
  {
    RemoveCanonical(text, name);
    RemoveDrops(text, name);
    CanonicalUnique(Remove(text, name), other);
  }

  /** Operations of different owners commute to identical text. */
  lemma MergesCommute(text: string, a: string, b: string)
    requires Canonical(text) && Plain(a) && Plain(b)
    ensures Merge(Merge(text, a), b) == Merge(Merge(text, b), a)
  {
    MergeCanonical(text, a);
    MergeCanonical(text, b);
    MergeAdds(text, a);
    MergeAdds(text, b);
    MergeCanonical(Merge(text, b), a);
    MergeAdds(Merge(text, b), a);
    MergeDetermined(Merge(text, a), b, Merge(Merge(text, b), a));
  }

  lemma RemovesCommute(text: string, a: string, b: string)
    requires Canonical(text)
    ensures Remove(Remove(text, a), b) == Remove(Remove(text, b), a)
  {
    RemoveCanonical(text, a);
    RemoveCanonical(text, b);
    RemoveDrops(text, a);
    RemoveDrops(text, b);
    RemoveCanonical(Remove(text, b), a);
    RemoveDrops(Remove(text, b), a);
    RemoveDetermined(Remove(text, a), b, Remove(Remove(text, b), a));
  }

  lemma MergeRemoveCommute(text: string, a: string, b: string)
    requires Canonical(text) && Plain(b) && a != b
    ensures Merge(Remove(text, a), b) == Remove(Merge(text, b), a)
  {
    RemoveCanonical(text, a);
    RemoveDrops(text, a);
    MergeCanonical(text, b);
    MergeAdds(text, b);
    RemoveCanonical(Merge(text, b), a);
    RemoveDrops(Merge(text, b), a);
    MergeDetermined(Remove(text, a), b, Remove(Merge(text, b), a));
  }
}
