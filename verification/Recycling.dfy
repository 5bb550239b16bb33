/** Code names along a project's revisions. The control plane rebuilds the ledger from the head
    alone (controlplane/internal/project/resource.go), so what the ledger promises over its own
    runs does not carry over to the revision chain: a name comes free once no resource of the
    head has it. */
module Recycling {
  import opened Text
  import opened Names
  import opened Spec
  import opened WellFormed
  import opened Abi
  import opened Ledger
  import opened Normalize
  import opened FreshNames
  import opened Deletion
  import opened Creation
  import opened Revisions
  import Authoring
  import FieldCreation
  import BatchRenames

  /** A resource of the spec has the code name. */
  ghost predicate Has(s: ProjectSpec, code: string) { HasKey(ResourceCode, s.resources, code) }

  /** A resource of the spec has the code name and this ID. */
  ghost predicate Holds(s: ProjectSpec, code: string, id: ID) {
    exists i: nat :: HeldAt(s, code, id, i)
  }

  ghost predicate HeldAt(s: ProjectSpec, code: string, id: ID, i: nat) {
    i < |s.resources| && s.resources[i].Some? && s.resources[i].value.codeName == code && s.resources[i].value.id == id
  }

  // ----- Edits never free a name -----

  lemma EditKeepsHolder(lib: Library, s: ProjectSpec, t: ProjectSpec, code: string, id: ID)
    requires Authoring.BothValid(lib, s, t) && NonBreaking(AbiOf(s), AbiOf(t)) && Holds(s, code, id)
    ensures Holds(t, code, id)
  {
    hide WellFormedSpec, NonBreaking, AbiOf, FieldMap, HookMap;
    Authoring.TransitionByResource(lib, s, t);
    var i: nat :| HeldAt(s, code, id, i);
    assert Authoring.KeptIn(s.resources[i].value, t);
    var j :| 0 <= j < |t.resources| && t.resources[j].Some? && t.resources[j].value.id == id
      && KeepsRow(RowOf(s.resources[i].value), RowOf(t.resources[j].value));
    assert HeldAt(t, code, id, j);
  }

  /** Along a stretch of edits a code name stays with its resource, so it is never given to
      another: reuse takes a deletion or a spec created whole in between. */
  lemma {:induction false} EditsKeepNames(env: Env, d: Db, pid: nat, i: nat, j: nat, code: string, id: ID)
    requires Inv(env, d) && pid in d.projects && i <= j < |History(env, d, pid)|
    requires forall k :: 0 <= k < |History(env, d, pid)| ==> History(env, d, pid)[k] in d.revisions
    requires forall k :: i < k <= j ==> d.revisions[History(env, d, pid)[k]].via.ByEdit?
    requires Holds(SpecOf(d, History(env, d, pid)[i]), code, id)
    ensures Holds(SpecOf(d, History(env, d, pid)[j]), code, id)
    decreases j - i
  {
    hide WellFormedSpec, History, AbiOf, NonBreaking, Inv, Holds;
    if i < j {
      var chain := History(env, d, pid);
      EditsKeepNames(env, d, pid, i, j - 1, code, id);
      HistoryInRows(env, d, pid);
      AdjacentRevisions(env, d, pid, j);
      EditKeepsHolder(env.lib, SpecOf(d, chain[j - 1]), SpecOf(d, chain[j]), code, id);
    }
  }

  // ----- When a name can be given out again -----

  /** AddResource on the spec mints the code name for some label. */
  ghost predicate Mintable(lib: Library, s: ProjectSpec, id: ID, code: string) {
    exists caption: string, n: nat :: FirstResourceSymbol(lib, s.resources, caption, id, n, code)
  }

  /** A name of the kind minting yields. */
  predicate Mintish(code: string) {
    code != "" && Upper(code[0]) && forall i :: 0 <= i < |code| ==> Alnum(code[i])
  }

  lemma MintishIsNormal(lib: Library, code: string)
    requires Mintish(code)
    ensures Normal(lib, code) == Some(code)
  {
    FieldCreation.AlnumIsNormal(lib, code);
  }

  lemma VariantIsMintish(lib: Library, caption: string, id: ID, n: nat)
    requires BaseSymbol(lib, caption, id) != ""
    ensures Mintish(Variant(BaseSymbol(lib, caption, id), n))
  {
    hide BaseSymbol;
    BatchRenames.BaseIsUsable(lib, caption, id);
    var base := BaseSymbol(lib, caption, id);
    var v := Variant(base, n);
    forall i | |base| <= i < |v| ensures Alnum(v[i]) { assert v[i] == Itoa(n)[i - |base|]; }
  }

  /** A name can be minted exactly when it is one minting yields and no resource has it. */
  lemma MintableExactly(lib: Library, s: ProjectSpec, id: ID, code: string)
    ensures Mintable(lib, s, id, code) <==> Mintish(code) && !Has(s, code)
  {
    hide HasKey, Normal, Mintish, Variant, BaseSymbol;
    if Mintable(lib, s, id, code) {
      var caption: string, n: nat :| FirstResourceSymbol(lib, s.resources, caption, id, n, code);
      VariantIsMintish(lib, caption, id, n);
    }
    if Mintish(code) && !Has(s, code) { UnusedIsMintable(lib, s, id, code); }
  }

  lemma UnusedIsMintable(lib: Library, s: ProjectSpec, id: ID, code: string)
    requires Mintish(code) && !Has(s, code)
    ensures Mintable(lib, s, id, code)
  {
    hide HasKey, Normal;
    MintishIsNormal(lib, code);
    assert Variant(BaseSymbol(lib, code, id), 1) == code;
    assert FirstResourceSymbol(lib, s.resources, code, id, 1, code);
  }

  /** Some revision of the project gave the code name to a resource. */
  ghost predicate Lived(d: Db, chain: seq<nat>, code: string) {
    exists k: nat :: LivedAt(d, chain, code, k)
  }

  ghost predicate LivedAt(d: Db, chain: seq<nat>, code: string, k: nat) {
    k < |chain| && chain[k] in d.revisions && Has(SpecOf(d, chain[k]), code)
  }

  /** A name that once lived can be minted for a new resource on the head exactly when it lived
      in an earlier revision, is one minting yields, and no resource of the head has it. */
  lemma RecyclableExactly(env: Env, d: Db, pid: nat, id: ID, code: string)
    requires Inv(env, d) && pid in d.projects && History(env, d, pid) != []
    ensures
      var chain := History(env, d, pid);
      var n := |chain| - 1;
      && chain[n] in d.revisions
      && (Lived(d, chain, code) && Mintable(env.lib, SpecOf(d, chain[n]), id, code) <==>
            Lived(d, chain[..n], code) && Mintish(code) && !Has(SpecOf(d, chain[n]), code))
  {
    hide Inv, History, Mintable, Has, Mintish, Lived, WellFormedSpec, RowsOK;
    HistoryInRows(env, d, pid);
    var chain := History(env, d, pid);
    var n := |chain| - 1;
    MintableExactly(env.lib, SpecOf(d, chain[n]), id, code);
    LivedSplit(d, chain, code);
  }

  lemma LivedSplit(d: Db, chain: seq<nat>, code: string)
    requires chain != [] && chain[|chain| - 1] in d.revisions
    ensures Lived(d, chain, code) <==>
      Lived(d, chain[..|chain| - 1], code) || Has(SpecOf(d, chain[|chain| - 1]), code)
  {
    hide Has;
    var n: nat := |chain| - 1;
    if Lived(d, chain[..n], code) {
      var k: nat :| LivedAt(d, chain[..n], code, k);
      assert LivedAt(d, chain, code, k);
    }
    if Has(SpecOf(d, chain[n]), code) { assert LivedAt(d, chain, code, n); }
    if Lived(d, chain, code) {
      var k: nat :| LivedAt(d, chain, code, k);
      if k < n { assert LivedAt(d, chain[..n], code, k); }
    }
  }

  // ----- A name given out twice -----

  /** What AddResource makes of a label on an empty spec. */
  function FirstResource(lib: Library, id: ID, caption: string, labelPlural: string): Resource {
    NewResource(id, caption, labelPlural, BaseSymbol(lib, caption, id), ResourceBase(lib, labelPlural, caption))
  }

  lemma FirstResourceIsMinted(lib: Library, s: ProjectSpec, id: ID, caption: string, labelPlural: string)
    requires s.resources == [] && BaseSymbol(lib, caption, id) != ""
    ensures
      var q := FirstResource(lib, id, caption, labelPlural);
      && FirstResourceSymbol(lib, s.resources, caption, id, 1, q.codeName)
      && FreshName(q.storageName, ResourceBase(lib, labelPlural, caption), '_', "", ResourceStorages(s.resources))
  {
    hide BaseSymbol, FreshNames.Fold;
    var base := ResourceBase(lib, labelPlural, caption);
    FoldIsName(lib, labelPlural, '_', 'r');
    FoldIsName(lib, caption, '_', 'r');
    assert Candidate(base, '_', "", 1) == base;
    assert Tried(base, '_', "", ResourceStorages(s.resources), 1);
  }

  lemma AddedIsDecided(lib: Library, s: ProjectSpec, id: ID, caption: string, labelPlural: string)
    requires WellFormedSpec(lib, s) && s.resources == []
    requires ValidID(id, KindResource) && id !in AllIDs(s) && !IsBlank(caption)
    requires |ResourceBase(lib, labelPlural, caption)| <= 63
    ensures
      var t := WithResource(s, FirstResource(lib, id, caption, labelPlural));
      Decided(lib, Edit(_ => Some(t)), Some(s)) == Some(t) && WellFormedSpec(lib, t)
  {
    var q := FirstResource(lib, id, caption, labelPlural);
    var t := WithResource(s, q);
    hide WellFormedSpec, AllIDs, BaseSymbol, FreshNames.Fold, ValidID, IsBlank, NonBreaking, AbiOf;
    ResourceBaseIsUsable(lib, caption, id);
    FirstResourceIsMinted(lib, s, id, caption, labelPlural);
    VariantIsExported(BaseSymbol(lib, caption, id), 1);
    NewResourceVerdict(lib, s, q);
    AdditiveIsKept(s, t);
  }

  lemma AdditiveIsKept(s: ProjectSpec, t: ProjectSpec)
    requires Authoring.ClassOf(s, t).Additive?
    ensures NonBreaking(AbiOf(s), AbiOf(t))
  {
  }

  lemma OnlyResourceRemoved(s: ProjectSpec, q: Resource)
    requires s.resources == []
    ensures Without(WithResource(s, q), {q.id}) == s
    ensures FindResource(WithResource(s, q).resources, q.id) == Some(q)
  {
    var rs := WithResource(s, q).resources;
    assert rs == [Some(q)];
    assert rs[1..] == [];
    assert RemoveResources(rs, {q.id}) == RemoveResources([], {q.id}) == [];
  }

  lemma SameLabelSameName(lib: Library, a: ID, b: ID, caption: string, labelPlural: string)
    requires ValidID(a, KindResource) && ValidID(b, KindResource)
    ensures FirstResource(lib, a, caption, labelPlural).codeName == FirstResource(lib, b, caption, labelPlural).codeName
    ensures FirstResource(lib, a, caption, labelPlural).id == a && FirstResource(lib, b, caption, labelPlural).id == b
  {
    hide ValidID, Normal;
    ValidIDShape(a, KindResource);
    ValidIDShape(b, KindResource);
  }

  /** The service adds a resource, deletes it, and adds another under the same label: each
      step commits, and the second resource is given the name of the first. */
  lemma DeletedNameIsReused(lib: Library, s: ProjectSpec, a: ID, b: ID, caption: string, labelPlural: string)
    requires WellFormedSpec(lib, s) && s.resources == []
    requires ValidID(a, KindResource) && ValidID(b, KindResource) && a != b
    requires a !in AllIDs(s) && b !in AllIDs(s) && !IsBlank(caption)
    requires |ResourceBase(lib, labelPlural, caption)| <= 63
    ensures
      var p, q := FirstResource(lib, a, caption, labelPlural), FirstResource(lib, b, caption, labelPlural);
      var t, u := WithResource(s, p), WithResource(s, q);
      && Decided(lib, Edit(_ => Some(t)), Some(s)) == Some(t)
      && Decided(lib, Delete(a), Some(t)) == Some(s)
      && Decided(lib, Edit(_ => Some(u)), Some(s)) == Some(u)
      && Holds(t, p.codeName, a) && Holds(u, p.codeName, b)
  {
    hide WellFormedSpec, AllIDs, ValidID, IsBlank, FreshNames.Fold, Without, Normal, Decided, FirstResource;
    var p, q := FirstResource(lib, a, caption, labelPlural), FirstResource(lib, b, caption, labelPlural);
    AddedIsDecided(lib, s, a, caption, labelPlural);
    AddedIsDecided(lib, s, b, caption, labelPlural);
    SameLabelSameName(lib, a, b, caption, labelPlural);
    OnlyResourceRemoved(s, p);
    DecidedDelete(lib, a, Some(WithResource(s, p)));
    assert HeldAt(WithResource(s, p), p.codeName, a, 0);
    assert HeldAt(WithResource(s, q), p.codeName, b, 0);
  }
}
