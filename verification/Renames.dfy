/** Whether a code-symbol refactor keeps a spec valid (internal/spec/refactor.go): the ledger
    rules out every clash but one, between the Go name of a relationship's key and a scalar. */
module Renames {
  import opened Text
  import opened Names
  import opened Spec
  import opened WellFormed
  import opened Ledger
  import opened Refactor
  import opened CodeNames
  import opened References
  import Identity
  import Creation
  import FieldCreation

  // ----- Specs that differ in code names only -----

  ghost predicate Recoded(s: ProjectSpec, t: ProjectSpec) {
    && t == s.(resources := t.resources)
    && |t.resources| == |s.resources|
    && forall i :: 0 <= i < |s.resources| ==>
         && (s.resources[i].None? <==> t.resources[i].None?)
         && (s.resources[i].Some? ==> SameResource(s.resources[i].value, t.resources[i].value))
  }

  ghost predicate SameFields(a: seq<Option<Field>>, b: seq<Option<Field>>) {
    |b| == |a| && forall i :: 0 <= i < |a| ==> SameField(a[i], b[i])
  }

  ghost predicate SameResources(a: seq<Option<Resource>>, b: seq<Option<Resource>>) {
    && |b| == |a|
    && forall i :: 0 <= i < |a| ==>
         (a[i].None? <==> b[i].None?) && (a[i].Some? ==> SameResource(a[i].value, b[i].value))
  }

  lemma {:induction false} FindFieldRecoded(a: seq<Option<Field>>, b: seq<Option<Field>>, id: ID)
    requires SameFields(a, b)
    ensures FindField(a, id).Some? <==> FindField(b, id).Some?
    ensures FindField(a, id).Some? ==> FindField(b, id).value.kind == FindField(a, id).value.kind
  {
    if a != [] {
      assert SameField(a[0], b[0]);
      forall i | 0 <= i < |a[1..]| ensures SameField(a[1..][i], b[1..][i]) { assert SameField(a[i + 1], b[i + 1]); }
      FindFieldRecoded(a[1..], b[1..], id);
    }
  }

  lemma RecodedSupports(r: Resource, q: Resource)
    requires SameResource(r, q)
    ensures Supports(r, q)
  {
    forall id ensures FindField(r.fields, id).Some? ==>
      FindField(q.fields, id).Some? && FindField(q.fields, id).value.kind == FindField(r.fields, id).value.kind
    {
      FindFieldRecoded(r.fields, q.fields, id);
    }
  }

  lemma {:induction false} FindResourceRecoded(a: seq<Option<Resource>>, b: seq<Option<Resource>>, id: ID)
    requires SameResources(a, b)
    ensures FindResource(a, id).Some? ==> FindResource(b, id).Some? && SameResource(FindResource(a, id).value, FindResource(b, id).value)
  {
    hide SameResource;
    if a != [] {
      assert a[0].Some? ==> b[0].value.id == a[0].value.id by { if a[0].Some? { SameHasID(a[0].value, b[0].value); } }
      FindResourceRecoded(a[1..], b[1..], id);
    }
  }

  lemma SameHasID(r: Resource, q: Resource)
    requires SameResource(r, q)
    ensures q.id == r.id
  {
  }

  lemma RecodedUpholds(s: ProjectSpec, t: ProjectSpec)
    requires Recoded(s, t)
    ensures Upholds(s, t)
  {
    hide SameResource, Supports;
    forall id | FindResource(s.resources, id).Some?
      ensures FindResource(t.resources, id).Some? && Supports(FindResource(s.resources, id).value, FindResource(t.resources, id).value)
    {
      FindResourceRecoded(s.resources, t.resources, id);
      RecodedSupports(FindResource(s.resources, id).value, FindResource(t.resources, id).value);
    }
  }

  lemma {:induction false} FieldIDsRecoded(a: seq<Option<Field>>, b: seq<Option<Field>>)
    requires SameFields(a, b)
    ensures FieldIDs(a) == FieldIDs(b)
  {
    if a != [] {
      var n := |a| - 1;
      assert SameField(a[n], b[n]);
      forall i | 0 <= i < n ensures SameField(a[..n][i], b[..n][i]) { assert SameField(a[i], b[i]); }
      FieldIDsRecoded(a[..n], b[..n]);
    }
  }

  lemma {:induction false} ResourceIDsRecoded(a: seq<Option<Resource>>, b: seq<Option<Resource>>)
    requires SameResources(a, b)
    ensures ResourceIDs(a) == ResourceIDs(b)
  {
    hide FieldIDs, HookIDs;
    if a != [] {
      var n := |a| - 1;
      ResourceIDsRecoded(a[..n], b[..n]);
      if a[n].Some? { FieldIDsRecoded(a[n].value.fields, b[n].value.fields); }
    }
  }

  lemma IDsRecoded(s: ProjectSpec, t: ProjectSpec)
    requires Recoded(s, t)
    ensures AllIDs(t) == AllIDs(s)
  {
    hide SameResource, ResourceIDs, IDs;
    ResourceIDsRecoded(s.resources, t.resources);
  }

  // ----- What code names a valid spec has -----

  ghost predicate FieldCodesOK(fields: seq<Option<Field>>) {
    && (forall i :: 0 <= i < |fields| && fields[i].Some? ==> FieldCodeOK(fields[i].value))
    && Unique(FieldCode, fields)
    && Unique(FieldGenerated, fields)
  }

  ghost predicate FieldCodeOK(f: Field) {
    IsExportedGoIdent(f.codeName) && !IsReservedCodeName(f.codeName) && !IsReservedCodeName(GeneratedFieldName(f.codeName, f.kind))
  }

  ghost predicate CodesOK(rs: seq<Option<Resource>>) {
    && (forall i :: 0 <= i < |rs| && rs[i].Some? ==> IsExportedGoIdent(rs[i].value.codeName) && FieldCodesOK(rs[i].value.fields))
    && Unique(ResourceCode, rs)
  }

  lemma FieldRecoded(lib: Library, s: ProjectSpec, t: ProjectSpec, f: Field, g: Field)
    requires Upholds(s, t) && FieldOK(lib, s, f) && g == f.(codeName := g.codeName)
    ensures FieldOK(lib, t, g) <==> FieldCodeOK(g)
  {
    hide ValidID, IsBlank, IsStorageName, IsReservedStorageName, IsExportedGoIdent, IsReservedCodeName, GeneratedFieldName;
    hide Upholds, Reaches, EnumOK, Declares;
    FieldTypeRecoded(s, f, g);
    UpholdsReaches(s, t);
    FieldTypeCarried(s, t, g);
    DefaultRecoded(lib, f, g);
    hide FieldTypeOK, DefaultOK;
  }

  lemma FieldTypeRecoded(s: ProjectSpec, f: Field, g: Field)
    requires g == f.(codeName := g.codeName) && FieldTypeOK(s, f)
    ensures FieldTypeOK(s, g)
  {
    hide EnumOK, Find;
  }

  lemma DefaultRecoded(lib: Library, f: Field, g: Field)
    requires g == f.(codeName := g.codeName) && DefaultOK(lib, f)
    ensures DefaultOK(lib, g)
  {
    hide Declares, IsInt64Literal, IsDecimalLiteral, IsSafeDefaultValue;
  }

  lemma UniqueRecodedFields(a: seq<Option<Field>>, b: seq<Option<Field>>)
    requires SameFields(a, b) && Unique(FieldStorage, a)
    ensures Unique(FieldStorage, b)
  {
    forall i, j | 0 <= i < j < |b| && b[i].Some? && b[j].Some? && FieldStorage(b[i].value).Some?
      ensures FieldStorage(b[i].value) != FieldStorage(b[j].value)
    {
      assert SameField(a[i], b[i]) && SameField(a[j], b[j]);
      assert FieldStorage(a[i].value) != FieldStorage(a[j].value);
    }
  }

  lemma FieldsRecoded(lib: Library, s: ProjectSpec, t: ProjectSpec, a: seq<Option<Field>>, b: seq<Option<Field>>)
    requires Upholds(s, t) && FieldsOK(lib, s, a) && SameFields(a, b)
    ensures FieldsOK(lib, t, b) <==> FieldCodesOK(b)
  {
    hide FieldOK, FieldCodeOK, Upholds, Unique;
    UniqueRecodedFields(a, b);
    forall k | 0 <= k < |b| ensures b[k].Some? && (FieldOK(lib, t, b[k].value) <==> FieldCodeOK(b[k].value)) {
      assert SameField(a[k], b[k]);
      FieldRecoded(lib, s, t, a[k].value, b[k].value);
    }
  }

  lemma ResourceRecoded(lib: Library, s: ProjectSpec, t: ProjectSpec, r: Resource, q: Resource)
    requires Upholds(s, t) && ResourceOK(lib, s, r) && SameResource(r, q)
    ensures ResourceOK(lib, t, q) <==> IsExportedGoIdent(q.codeName) && FieldCodesOK(q.fields)
  {
    RecodedSupports(r, q);
    hide FieldsOK, FieldCodesOK, Upholds, Supports, BehaviorOK, HooksOK, ValidID, IsBlank, IsStorageName, IsExportedGoIdent;
    FieldsRecoded(lib, s, t, r.fields, q.fields);
    BehaviorCarried(r, q);
  }

  /** A valid spec with other code names is valid exactly when those are legal, unreserved and
      unique, the generated ones included. */
  lemma RecodedVerdict(lib: Library, s: ProjectSpec, t: ProjectSpec)
    requires WellFormedSpec(lib, s) && Recoded(s, t)
    ensures WellFormedSpec(lib, t) <==> CodesOK(t.resources)
  {
    hide WellFormedSpec, ResourceOK, AllIDs, Distinct, Upholds, Unique, FieldCodesOK, SameResource, IsExportedGoIdent;
    RecodedUpholds(s, t);
    IDsRecoded(s, t);
    EditedResources(lib, s, t);
    Creation.ResourcesOfValid(lib, s);
    forall i | 0 <= i < |t.resources|
      ensures t.resources[i].Some?
      ensures ResourceOK(lib, t, t.resources[i].value) <==>
        IsExportedGoIdent(t.resources[i].value.codeName) && FieldCodesOK(t.resources[i].value.fields)
    {
      ResourceRecoded(lib, s, t, s.resources[i].value, t.resources[i].value);
    }
    UniqueRecodedStorage(s.resources, t.resources);
  }

  lemma UniqueRecodedStorage(a: seq<Option<Resource>>, b: seq<Option<Resource>>)
    requires SameResources(a, b) && Unique(ResourceStorage, a)
    ensures Unique(ResourceStorage, b)
  {
    forall i, j | 0 <= i < j < |b| && b[i].Some? && b[j].Some? && ResourceStorage(b[i].value).Some?
      ensures ResourceStorage(b[i].value) != ResourceStorage(b[j].value)
    {
      assert SameResource(a[i].value, b[i].value) && SameResource(a[j].value, b[j].value);
      assert ResourceStorage(a[i].value) != ResourceStorage(a[j].value);
    }
  }

  // ----- What the ledger rules out -----

  /** In a resource, a scalar has the Go name of a relationship's key. */
  ghost predicate KeyClash(fields: seq<Option<Field>>) {
    exists i: nat, j: nat :: ClashAt(fields, i, j)
  }

  ghost predicate ClashAt(fields: seq<Option<Field>>, i: nat, j: nat) {
    && i < |fields| && j < |fields| && fields[i].Some? && fields[j].Some?
    && !fields[i].value.kind.TBelongsTo? && fields[j].value.kind.TBelongsTo?
    && fields[i].value.codeName == fields[j].value.codeName + "ID"
  }

  lemma SuffixInjective(a: string, b: string)
    requires a + "ID" == b + "ID"
    ensures a == b
  {
    assert (a + "ID")[..|a|] == a && (b + "ID")[..|b|] == b;
  }

  lemma SameGenerated(f: Field, g: Field)
    ensures GeneratedFieldName(f.codeName, f.kind) == GeneratedFieldName(g.codeName, g.kind) <==>
      || (f.kind.TBelongsTo? == g.kind.TBelongsTo? && f.codeName == g.codeName)
      || (!f.kind.TBelongsTo? && g.kind.TBelongsTo? && f.codeName == g.codeName + "ID")
      || (f.kind.TBelongsTo? && !g.kind.TBelongsTo? && g.codeName == f.codeName + "ID")
  {
    if f.kind.TBelongsTo? && g.kind.TBelongsTo? && f.codeName + "ID" == g.codeName + "ID" {
      SuffixInjective(f.codeName, g.codeName);
    }
  }

  /** With legal, unreserved and unique code names the generated ones can only clash between a
      scalar and a relationship's key. */
  lemma GeneratedClashExactly(fields: seq<Option<Field>>)
    requires Unique(FieldCode, fields)
    requires forall i :: 0 <= i < |fields| && fields[i].Some? ==>
      IsExportedGoIdent(fields[i].value.codeName) && !IsReservedCodeName(fields[i].value.codeName)
    ensures FieldCodesOK(fields) <==> !KeyClash(fields)
  {
    hide IsExportedGoIdent, IsReservedCodeName, GeneratedFieldName;
    forall i | 0 <= i < |fields| && fields[i].Some? ensures FieldCodeOK(fields[i].value) { OneGeneratedOK(fields[i].value); }
    forall i, j | 0 <= i < j < |fields| && fields[i].Some? && fields[j].Some?
      ensures FieldGenerated(fields[i].value) == FieldGenerated(fields[j].value) <==>
        ClashAt(fields, i, j) || ClashAt(fields, j, i)
    {
      SameGenerated(fields[i].value, fields[j].value);
      assert FieldCode(fields[i].value) != FieldCode(fields[j].value);
    }
    ClashMeansTwice(fields);
  }

  lemma OneGeneratedOK(f: Field)
    requires IsExportedGoIdent(f.codeName) && !IsReservedCodeName(f.codeName)
    ensures FieldCodeOK(f)
  {
    FieldCreation.KeySymbolIsUnreserved(f.codeName);
  }

  lemma ClashMeansTwice(fields: seq<Option<Field>>)
    requires forall i, j :: 0 <= i < j < |fields| && fields[i].Some? && fields[j].Some? ==>
      (FieldGenerated(fields[i].value) == FieldGenerated(fields[j].value) <==> ClashAt(fields, i, j) || ClashAt(fields, j, i))
    ensures Unique(FieldGenerated, fields) <==> !KeyClash(fields)
  {
    hide GeneratedFieldName;
    if KeyClash(fields) {
      var i: nat, j: nat :| ClashAt(fields, i, j);
      assert i != j;
      if i < j { assert FieldGenerated(fields[i].value) == FieldGenerated(fields[j].value); }
      else { assert FieldGenerated(fields[j].value) == FieldGenerated(fields[i].value); }
    }
  }

  lemma SoleOwner(t: Table, ns: Namespace, a: ID, b: ID, symbol: string)
    requires SoleSymbol(t, ns, a, symbol) && SoleSymbol(t, ns, b, symbol)
    ensures a == b
  {
  }

  lemma AgreedFieldsUnique(t: Table, ns: Namespace, fields: seq<Option<Field>>)
    requires FieldsAgree(t, ns, fields) && Unique(KeyOfField, fields)
    ensures Unique(FieldCode, fields)
  {
    hide SoleSymbol;
    forall i, j | 0 <= i < j < |fields| && fields[i].Some? && fields[j].Some? && FieldCode(fields[i].value).Some?
      ensures FieldCode(fields[i].value) != FieldCode(fields[j].value)
    {
      assert KeyOfField(fields[i].value) != KeyOfField(fields[j].value);
      if fields[i].value.codeName == fields[j].value.codeName {
        SoleOwner(t, ns, fields[i].value.id, fields[j].value.id, fields[i].value.codeName);
      }
    }
  }

  /** Where spec and ledger agree, code names are unique. */
  lemma AgreedNamesUnique(t: Table, rs: seq<Option<Resource>>)
    requires Agrees(t, rs) && Named(rs)
    ensures Unique(ResourceCode, rs)
    ensures forall i :: 0 <= i < |rs| && rs[i].Some? ==> Unique(FieldCode, rs[i].value.fields)
  {
    hide SoleSymbol;
    forall i, j | 0 <= i < j < |rs| && rs[i].Some? && rs[j].Some? && ResourceCode(rs[i].value).Some?
      ensures ResourceCode(rs[i].value) != ResourceCode(rs[j].value)
    {
      assert KeyOfResource(rs[i].value) != KeyOfResource(rs[j].value);
      assert ResourceAgrees(t, rs[i].value) && ResourceAgrees(t, rs[j].value);
      if rs[i].value.codeName == rs[j].value.codeName {
        SoleOwner(t, RESOURCE_NAMESPACE, rs[i].value.id, rs[j].value.id, rs[i].value.codeName);
      }
    }
    forall i | 0 <= i < |rs| && rs[i].Some? ensures Unique(FieldCode, rs[i].value.fields) {
      assert ResourceAgrees(t, rs[i].value);
      AgreedFieldsUnique(t, FieldNamespace(rs[i].value.id), rs[i].value.fields);
    }
  }

  ghost predicate FieldsUsable(fields: seq<Option<Field>>) {
    forall k :: 0 <= k < |fields| && fields[k].Some? ==>
      IsExportedGoIdent(fields[k].value.codeName) && !IsReservedCodeName(fields[k].value.codeName)
  }

  /** Every code name is an exported identifier and no field's is reserved. */
  ghost predicate Usable(rs: seq<Option<Resource>>) {
    forall i :: 0 <= i < |rs| && rs[i].Some? ==> IsExportedGoIdent(rs[i].value.codeName) && FieldsUsable(rs[i].value.fields)
  }

  ghost predicate NoKeyClash(rs: seq<Option<Resource>>) {
    forall i :: 0 <= i < |rs| && rs[i].Some? ==> !KeyClash(rs[i].value.fields)
  }

  /** A refactored spec that agrees with its ledger is valid exactly when no scalar got the Go
      name of a relationship's key. */
  lemma AgreedVerdict(lib: Library, s: ProjectSpec, t: ProjectSpec, ledger: Table)
    requires WellFormedSpec(lib, s) && Recoded(s, t)
    requires Agrees(ledger, t.resources) && Named(t.resources) && Usable(t.resources)
    ensures WellFormedSpec(lib, t) <==> NoKeyClash(t.resources)
  {
    hide WellFormedSpec, Recoded, Agrees, Named, Unique, FieldCodesOK, IsExportedGoIdent, IsReservedCodeName, KeyClash;
    RecodedVerdict(lib, s, t);
    AgreedNamesUnique(ledger, t.resources);
    forall i | 0 <= i < |t.resources| && t.resources[i].Some?
      ensures FieldCodesOK(t.resources[i].value.fields) <==> !KeyClash(t.resources[i].value.fields)
    {
      GeneratedClashExactly(t.resources[i].value.fields);
    }
  }

  lemma AllSomeOfValid(lib: Library, s: ProjectSpec)
    requires ResourcesOK(lib, s, s.resources)
    ensures AllSome(s.resources)
  {
    hide ResourceOK, Unique;
  }

  lemma UsableOfCodes(fields: seq<Option<Field>>)
    requires FieldCodesOK(fields)
    ensures FieldsUsable(fields) && !KeyClash(fields)
  {
    hide IsExportedGoIdent, IsReservedCodeName, KeyClash, GeneratedFieldName;
    assert forall k :: 0 <= k < |fields| && fields[k].Some? ==> FieldCodeOK(fields[k].value);
    GeneratedClashExactly(fields);
  }

  lemma ValidIsUsable(lib: Library, s: ProjectSpec)
    requires WellFormedSpec(lib, s)
    ensures Usable(s.resources) && NoKeyClash(s.resources) && AllSome(s.resources)
  {
    hide WellFormedSpec, IsExportedGoIdent, IsReservedCodeName, KeyClash, FieldCodesOK, FieldsUsable;
    assert Recoded(s, s);
    RecodedVerdict(lib, s, s);
    Creation.ResourcesOfValid(lib, s);
    AllSomeOfValid(lib, s);
    forall i | 0 <= i < |s.resources| && s.resources[i].Some?
      ensures FieldsUsable(s.resources[i].value.fields) && !KeyClash(s.resources[i].value.fields)
    {
      UsableOfCodes(s.resources[i].value.fields);
    }
  }

  lemma NamedRecoded(a: seq<Option<Resource>>, b: seq<Option<Resource>>)
    requires SameResources(a, b) && Named(a) && Usable(b)
    ensures Named(b)
  {
    hide IsReservedCodeName;
    forall i, j | 0 <= i < j < |b| && b[i].Some? && b[j].Some? && KeyOfResource(b[i].value).Some?
      ensures KeyOfResource(b[i].value) != KeyOfResource(b[j].value)
    {
      SameHasID(a[i].value, b[i].value);
      SameHasID(a[j].value, b[j].value);
      assert KeyOfResource(a[i].value) != KeyOfResource(a[j].value);
    }
    forall i | 0 <= i < |b| && b[i].Some? ensures b[i].value.codeName != "" && NamedFields(b[i].value.fields) {
      assert SameResource(a[i].value, b[i].value) && NamedFields(a[i].value.fields);
      NamedFieldsRecoded(a[i].value.fields, b[i].value.fields);
    }
  }

  lemma NamedFieldsRecoded(a: seq<Option<Field>>, b: seq<Option<Field>>)
    requires SameFields(a, b) && NamedFields(a) && FieldsUsable(b)
    ensures NamedFields(b)
  {
    hide IsReservedCodeName;
    forall i, j | 0 <= i < j < |b| && b[i].Some? && b[j].Some? && KeyOfField(b[i].value).Some?
      ensures KeyOfField(b[i].value) != KeyOfField(b[j].value)
    {
      assert SameField(a[i], b[i]) && SameField(a[j], b[j]);
      assert KeyOfField(a[i].value) != KeyOfField(a[j].value);
    }
  }

  // ----- RefactorCodeName -----

  /** The field at n, called by the new symbol, would clash with another field. */
  ghost predicate WouldClash(fields: seq<Option<Field>>, n: nat, symbol: string)
    requires n < |fields| && fields[n].Some?
  {
    exists m :: 0 <= m < |fields| && m != n && fields[m].Some? &&
      if fields[n].value.kind.TBelongsTo?
      then !fields[m].value.kind.TBelongsTo? && fields[m].value.codeName == symbol + "ID"
      else fields[m].value.kind.TBelongsTo? && symbol == fields[m].value.codeName + "ID"
  }

  lemma RenamedFieldClash(fields: seq<Option<Field>>, n: nat, symbol: string)
    requires n < |fields| && fields[n].Some? && !KeyClash(fields)
    ensures KeyClash(fields[n := Some(fields[n].value.(codeName := symbol))]) <==> WouldClash(fields, n, symbol)
  {
    var after := fields[n := Some(fields[n].value.(codeName := symbol))];
    if KeyClash(after) {
      var i: nat, j: nat :| ClashAt(after, i, j);
      assert !ClashAt(fields, i, j);
      assert i == n || j == n;
      var m := if i == n then j else i;
      assert m != n;
    }
    if WouldClash(fields, n, symbol) {
      var m :| 0 <= m < |fields| && m != n && fields[m].Some? &&
        if fields[n].value.kind.TBelongsTo?
        then !fields[m].value.kind.TBelongsTo? && fields[m].value.codeName == symbol + "ID"
        else fields[m].value.kind.TBelongsTo? && symbol == fields[m].value.codeName + "ID";
      if fields[n].value.kind.TBelongsTo? { assert ClashAt(after, m, n); } else { assert ClashAt(after, n, m); }
    }
  }

  function RenamedField(r: Resource, n: nat, symbol: string): Resource
    requires n < |r.fields| && r.fields[n].Some?
  {
    r.(fields := r.fields[n := Some(r.fields[n].value.(codeName := symbol))])
  }

  lemma OneRecoded(s: ProjectSpec, k: nat, q: Resource)
    requires k < |s.resources| && s.resources[k].Some? && SameResource(s.resources[k].value, q)
    ensures Recoded(s, s.(resources := s.resources[k := Some(q)]))
  {
    hide SameResource;
    forall i | 0 <= i < |s.resources| && s.resources[i].Some? ensures SameResource(s.resources[i].value, s.resources[i].value) {
      ItselfRecoded(s.resources[i].value);
    }
  }

  lemma ItselfRecoded(r: Resource)
    ensures SameResource(r, r)
  {
  }

  /** Where the refactored entity sits: a resource, or a field of one. */
  lemma RefactorHits(lib: Library, s: ProjectSpec, entity: ID, symbol: string) returns (k: nat, n: nat)
    requires WellFormedSpec(lib, s) && Locate(s.resources, entity).Some?
    ensures k < |s.resources| && s.resources[k].Some?
    ensures
      var r := s.resources[k].value;
      if Locate(s.resources, entity).value.isField then
        && n < |r.fields| && r.fields[n].Some? && r.fields[n].value.id == entity
        && SetCodeName(s.resources, entity, symbol) == s.resources[k := Some(RenamedField(r, n, symbol))]
      else r.id == entity && SetCodeName(s.resources, entity, symbol) == s.resources[k := Some(r.(codeName := symbol))]
  {
    hide WellFormedSpec, ValidID;
    Identity.ValidIsNamed(lib, s);
    var rs := s.resources;
    n := 0;
    if PrefixOf(entity) == KindResource.Prefix() {
      k := SetResourceHits(rs, entity, symbol);
    } else {
      forall i | 0 <= i < |rs| && rs[i].Some? ensures rs[i].value.id != entity {
        ValidIDShape(rs[i].value.id, KindResource);
      }
      assert FindResource(rs, entity).None?;
      k := SetOwnedFieldHits(rs, entity, symbol);
      n := SetFieldHits(rs[k].value.fields, entity, symbol);
    }
  }

  lemma UsableReplaced(rs: seq<Option<Resource>>, k: nat, q: Resource)
    requires Usable(rs) && k < |rs| && IsExportedGoIdent(q.codeName) && FieldsUsable(q.fields)
    ensures Usable(rs[k := Some(q)])
  {
    hide FieldsUsable, IsExportedGoIdent;
  }

  lemma UsableRenamed(fields: seq<Option<Field>>, n: nat, symbol: string)
    requires FieldsUsable(fields) && n < |fields| && fields[n].Some? && IsExportedGoIdent(symbol) && !IsReservedCodeName(symbol)
    ensures FieldsUsable(fields[n := Some(fields[n].value.(codeName := symbol))])
  {
    hide IsExportedGoIdent, IsReservedCodeName;
  }

  lemma NoClashReplaced(rs: seq<Option<Resource>>, k: nat, q: Resource)
    requires NoKeyClash(rs) && k < |rs|
    ensures NoKeyClash(rs[k := Some(q)]) <==> !KeyClash(q.fields)
  {
    hide KeyClash;
    assert rs[k := Some(q)][k] == Some(q);
  }

  /** On a valid spec that agrees with its ledger, an accepted refactor of a resource always
      leaves the spec valid, and one of a field exactly when no scalar and relationship of the
      resource then share the key's Go name. */
  lemma RefactorVerdict(lib: Library, s: ProjectSpec, ledger: Table, entity: ID, symbol: string) returns (k: nat, n: nat)
    requires WellFormedSpec(lib, s) && Agrees(ledger, s.resources)
    requires Locate(s.resources, entity).Some? && Acceptable(ledger, Locate(s.resources, entity).value, symbol)
    ensures k < |s.resources| && s.resources[k].Some?
    ensures
      var t := s.(resources := SetCodeName(s.resources, entity, symbol));
      if Locate(s.resources, entity).value.isField then
        && n < |s.resources[k].value.fields| && s.resources[k].value.fields[n].Some?
        && s.resources[k].value.fields[n].value.id == entity
        && (WellFormedSpec(lib, t) <==> !WouldClash(s.resources[k].value.fields, n, symbol))
      else WellFormedSpec(lib, t)
  {
    hide WellFormedSpec, Agrees, Named, Usable, NoKeyClash, KeyClash, WouldClash, FieldsUsable, SameResource, Recoded;
    hide ValidID, IsExportedGoIdent, IsReservedCodeName, SetCodeName, Locate, Refrozen;
    k, n := RefactorHits(lib, s, entity, symbol);
    var at := Locate(s.resources, entity).value;
    var t := s.(resources := SetCodeName(s.resources, entity, symbol));
    var r := s.resources[k].value;
    var q := if at.isField then RenamedField(r, n, symbol) else r.(codeName := symbol);
    assert t.resources == s.resources[k := Some(q)];
    ValidIsUsable(lib, s);
    Identity.ValidIsNamed(lib, s);
    UsableAt(s.resources, k);
    if at.isField {
      UsableRenamed(r.fields, n, symbol);
      RenamedFieldClash(r.fields, n, symbol);
    }
    SameRenamed(r, q);
    UsableReplaced(s.resources, k, q);
    NoClashReplaced(s.resources, k, q);
    OneRecoded(s, k, q);
    SameOfRecoded(s, t);
    NamedRecoded(s.resources, t.resources);
    RefactorKeepsAgreement(ledger, s.resources, entity, symbol);
    AgreedVerdict(lib, s, t, Refrozen(ledger, at.ns, at.current, symbol, entity));
  }

  lemma UsableAt(rs: seq<Option<Resource>>, k: nat)
    requires Usable(rs) && NoKeyClash(rs) && k < |rs| && rs[k].Some?
    ensures IsExportedGoIdent(rs[k].value.codeName) && FieldsUsable(rs[k].value.fields) && !KeyClash(rs[k].value.fields)
  {
  }

  lemma SameRenamed(r: Resource, q: Resource)
    requires q == r.(codeName := q.codeName) || exists n: nat, symbol ::
      n < |r.fields| && r.fields[n].Some? && q == RenamedField(r, n, symbol)
    ensures SameResource(r, q)
  {
  }

  lemma SameOfRecoded(s: ProjectSpec, t: ProjectSpec)
    requires Recoded(s, t)
    ensures SameResources(s.resources, t.resources)
  {
  }
}
