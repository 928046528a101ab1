/** ServiceAccounts shared by BindDefinitions: owner references and the annotations that record who manages and
    who references an account (internal/controller/authorization/binddefinition_helpers.go). */
module SharedAccounts {
  import opened Strings
  import opened Owners
  import opened NameLists

  const KIND := "authorization.t-caas.telekom.com/source-kind"
  const SOURCES := "authorization.t-caas.telekom.com/source-names"
  const REFERENCED_BY := "authorization.t-caas.telekom.com/referenced-by"
  const MANAGERS := "authorization.t-caas.telekom.com/external-field-managers"
  const BIND_DEFINITION := "BindDefinition"

  lemma KeysDiffer()
    ensures KIND != SOURCES && KIND != REFERENCED_BY && KIND != MANAGERS
    ensures SOURCES != REFERENCED_BY && SOURCES != MANAGERS && REFERENCED_BY != MANAGERS
  {
  }

  type Annotations = map<string, string>

  /** Reading a missing key gives the empty text. */
  function Get(a: Annotations, key: string): string {
    if key in a then a[key] else ""
  }

  // ---------------------------------------------------------------- effects on the annotations

  function WithReference(a: Annotations, name: string): Annotations {
    var refs := Entries(Get(a, REFERENCED_BY));
    if name in refs then a else a[REFERENCED_BY := Join(Sort(refs + [name]), ',')]
  }

  function WithoutReference(a: Annotations, name: string): Annotations {
    var refs := Entries(Get(a, REFERENCED_BY));
    if REFERENCED_BY !in a || name !in refs then a
    else
      var rest := Drop(refs, name);
      if rest == [] then a - {REFERENCED_BY, MANAGERS} else a[REFERENCED_BY := Join(Sort(rest), ',')]
  }

  function WithSource(a: Annotations, name: string): Annotations {
    var names := Merge(Get(a, SOURCES), name);
    if names == Get(a, SOURCES) && Get(a, KIND) == BIND_DEFINITION then a else a[KIND := BIND_DEFINITION][SOURCES := names]
  }

  /** The last source takes the source kind along, if it is the operator's own. */
  function WithoutSources(a: Annotations): Annotations {
    a - {SOURCES} - if Get(a, KIND) == BIND_DEFINITION then {KIND} else {}
  }

  function WithoutSource(a: Annotations, name: string): Annotations {
    var names := Remove(Get(a, SOURCES), name);
    if names == Get(a, SOURCES) then a
    else if names == "" then WithoutSources(a)
    else a[SOURCES := names]
  }

  function SourcesRewritten(a: Annotations, name: string): Annotations {
    var names := Remove(Get(a, SOURCES), name);
    if names == "" then WithoutSources(a) else a[SOURCES := names]
  }

  function Reclassified(a: Annotations, name: string, managers: seq<string>): Annotations {
    WithReference(SourcesRewritten(a, name), name)[MANAGERS := Join(managers, ',')]
  }

  /** The references of one owner, matched by its full identity; an incomplete identity matches nothing. */
  function WithoutOwner(refs: seq<OwnerRef>, owner: Owner): seq<OwnerRef> {
    if refs == [] then []
    else if refs[0].owner == owner && Complete(owner) then WithoutOwner(refs[1..], owner)
    else [refs[0]] + WithoutOwner(refs[1..], owner)
  }

  predicate Complete(owner: Owner) {
    owner.uid != "" && owner.apiVersion != "" && owner.kind != "" && owner.name != ""
  }

  // ---------------------------------------------------------------- the account

  class ServiceAccount {
    var annotations: Annotations
    var owners: seq<OwnerRef>

    constructor (annotations: Annotations, owners: seq<OwnerRef>)
      ensures this.annotations == annotations && this.owners == owners
    {
      this.annotations, this.owners := annotations, owners;
    }

    /** slices.DeleteFunc on the owner references. */
    method RemoveOwnerRef(owner: Owner) returns (changed: bool)
      modifies this`owners
      ensures owners == WithoutOwner(old(owners), owner)
      ensures changed <==> Complete(owner) && exists r :: r in old(owners) && r.owner == owner
    {
      changed := false;
      OwnerKept(owners, owner);
      if !Complete(owner) {
        return;
      }
      var kept: seq<OwnerRef> := [];
      for i := 0 to |owners|
        invariant owners == old(owners)
        invariant kept + WithoutOwner(owners[i..], owner) == WithoutOwner(owners, owner)
        invariant changed <==> exists k :: 0 <= k < i && owners[k].owner == owner
      {
        assert owners[i..] == [owners[i]] + owners[i + 1..];
        if owners[i].owner == owner {
          changed := true;
        } else {
          kept := kept + [owners[i]];
        }
      }
      assert WithoutOwner(owners[|owners|..], owner) == [];
      owners := kept;
    }

    method AddExternalReference(name: string)
      modifies this`annotations
      ensures annotations == WithReference(old(annotations), name)
    {
      var current := if REFERENCED_BY in annotations then annotations[REFERENCED_BY] else "";
      var refs := ParseReferencedBy(current);
      if name in refs {
        return;
      }
      annotations := annotations[REFERENCED_BY := Join(Sort(refs + [name]), ',')];
    }

    method RemoveExternalReference(name: string)
      modifies this`annotations
      ensures annotations == WithoutReference(old(annotations), name)
    {
      if REFERENCED_BY !in annotations {
        return;
      }
      var refs := ParseReferencedBy(annotations[REFERENCED_BY]);
      var rest, found := DropName(refs, name);
      if !found {
        return;
      }
      if |rest| == 0 {
        annotations := annotations - {REFERENCED_BY} - {MANAGERS};
        assert annotations == old(annotations) - {REFERENCED_BY, MANAGERS};
      } else {
        annotations := annotations[REFERENCED_BY := Join(Sort(rest), ',')];
      }
    }

    method AddManagedReference(name: string)
      modifies this`annotations
      ensures annotations == WithSource(old(annotations), name)
    {
      var names := MergeSourceNames(Get(annotations, SOURCES), name);
      if names == Get(annotations, SOURCES) && Get(annotations, KIND) == BIND_DEFINITION {
        return;
      }
      annotations := annotations[KIND := BIND_DEFINITION];
      annotations := annotations[SOURCES := names];
    }

    method Detach(owner: Owner)
      modifies this
      ensures annotations == WithoutSource(old(annotations), owner.name) && owners == WithoutOwner(old(owners), owner)
    {
      var _ := RemoveOwnerRef(owner);
      var names := RemoveSourceName(Get(annotations, SOURCES), owner.name);
      if names != Get(annotations, SOURCES) {
        KeysDiffer();
        if names == "" {
          annotations := annotations - {SOURCES};
        } else {
          annotations := annotations[SOURCES := names];
        }
        if Get(annotations, KIND) == BIND_DEFINITION && names == "" {
          annotations := annotations - {KIND};
        }
      }
    }

    method RewriteSources(name: string)
      modifies this`annotations
      ensures annotations == SourcesRewritten(old(annotations), name)
    {
      var names := RemoveSourceName(Get(annotations, SOURCES), name);
      KeysDiffer();
      if names == "" {
        annotations := annotations - {SOURCES};
        if Get(annotations, KIND) == BIND_DEFINITION {
          annotations := annotations - {KIND};
        }
      } else {
        annotations := annotations[SOURCES := names];
      }
    }

    method Reclassify(owner: Owner, managers: seq<string>)
      modifies this
      ensures annotations == Reclassified(old(annotations), owner.name, managers) && owners == WithoutOwner(old(owners), owner)
    {
      var _ := RemoveOwnerRef(owner);
      RewriteSources(owner.name);
      AddExternalReference(owner.name);
      annotations := annotations[MANAGERS := Join(managers, ',')];
    }
  }

  lemma {:induction false} OwnerKept(refs: seq<OwnerRef>, owner: Owner)
    ensures forall r :: r in WithoutOwner(refs, owner) <==> r in refs && !(r.owner == owner && Complete(owner))
    ensures !Complete(owner) ==> WithoutOwner(refs, owner) == refs
  {
    if refs != [] {
      OwnerKept(refs[1..], owner);
      assert refs == [refs[0]] + refs[1..];
    }
  }
}
