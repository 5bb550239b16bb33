/** AddField and AddRelationship end to end
    (controlplane/internal/project/field.go and relationship.go). */
module FieldCreation {
  import opened Text
  import opened Names
  import opened Spec
  import opened WellFormed
  import opened Normalize
  import opened Ledger
  import opened LiveLedger
  import opened FreshNames
  import opened References
  import opened Creation
  import Authoring
  import Identity

  // ----- Replacing one resource -----

  /** The position of the first non-nil entry with the wanted ID. */
  function Position<T>(id: T -> ID, xs: seq<Option<T>>, want: ID): (p: Option<nat>)
    ensures p.None? <==> Find(id, xs, want).None?
    ensures p.Some? ==> p.value < |xs| && xs[p.value].Some? && xs[p.value] == Find(id, xs, want)
  {
    if xs == [] then None
    else if xs[0].Some? && id(xs[0].value) == want then Some(0)
    else
      var p := Position(id, xs[1..], want);
      if p.None? then None else Some(p.value + 1)
  }

  function WithResourceAt(s: ProjectSpec, i: nat, q: Resource): ProjectSpec
    requires i < |s.resources|
  {
    s.(resources := s.resources[i := Some(q)])
  }

  lemma {:induction false} FindReplaced<T>(id: T -> ID, xs: seq<Option<T>>, i: nat, y: T, want: ID)
    requires i < |xs| && xs[i].Some? && id(y) == id(xs[i].value)
    ensures
      var before, after := Find(id, xs, want), Find(id, xs[i := Some(y)], want);
      after == before || (before == xs[i] && after == Some(y))
  {
    var ys := xs[i := Some(y)];
    if i == 0 {
      assert ys[1..] == xs[1..];
    } else {
      assert ys[1..] == xs[1..][i - 1 := Some(y)];
      FindReplaced(id, xs[1..], i - 1, y, want);
    }
  }

  lemma ReplacedUpholds(s: ProjectSpec, i: nat, q: Resource)
    requires i < |s.resources| && s.resources[i].Some?
    requires q.id == s.resources[i].value.id && Supports(s.resources[i].value, q)
    ensures Upholds(s, WithResourceAt(s, i, q))
  {
    hide Supports;
    var t := WithResourceAt(s, i, q);
    forall id | FindResource(s.resources, id).Some?
      ensures FindResource(t.resources, id).Some? && Supports(FindResource(s.resources, id).value, FindResource(t.resources, id).value)
    {
      FindReplaced(ResourceID, s.resources, i, q, id);
      SupportsItself(FindResource(s.resources, id).value);
    }
  }

  ghost predicate SameNames(r: Resource, q: Resource) {
    q.id == r.id && q.codeName == r.codeName && q.storageName == r.storageName
  }

  lemma UniqueReplaced<K>(key: Resource -> Option<K>, rs: seq<Option<Resource>>, i: nat, q: Resource)
    requires i < |rs| && rs[i].Some? && key(q) == key(rs[i].value) && Unique(key, rs)
    ensures Unique(key, rs[i := Some(q)])
  {
  }

  /** With a resource replaced by one of the same names that supports what refers to it, the
      spec is valid exactly when the new resource and the IDs are. */
  lemma ReplacedVerdict(lib: Library, s: ProjectSpec, i: nat, q: Resource)
    requires WellFormedSpec(lib, s) && i < |s.resources| && s.resources[i].Some?
    requires SameNames(s.resources[i].value, q) && Supports(s.resources[i].value, q)
    requires Distinct(AllIDs(WithResourceAt(s, i, q)))
    ensures WellFormedSpec(lib, WithResourceAt(s, i, q)) <==> ResourceOK(lib, WithResourceAt(s, i, q), q)
  {
    hide WellFormedSpec, ResourceOK, AllIDs, Distinct, Supports, Upholds, Reaches, Unique;
    var t := WithResourceAt(s, i, q);
    ReplacedUpholds(s, i, q);
    UpholdsReaches(s, t);
    EditedResources(lib, s, t);
    ResourcesOfValid(lib, s);
    assert t.resources[i] == Some(q);
    forall k | 0 <= k < |s.resources| && k != i ensures t.resources[k].Some? && ResourceOK(lib, t, t.resources[k].value) {
      assert t.resources[k] == s.resources[k];
      ResourceCarried(lib, s, t, s.resources[k].value);
    }
    UniqueReplaced(ResourceCode, s.resources, i, q);
    UniqueReplaced(ResourceStorage, s.resources, i, q);
  }

  // ----- One more field -----

  function WithFieldOn(r: Resource, f: Field): Resource { r.(fields := r.fields + [Some(f)]) }

  function WithField(s: ProjectSpec, i: nat, f: Field): ProjectSpec
    requires i < |s.resources| && s.resources[i].Some?
  {
    WithResourceAt(s, i, WithFieldOn(s.resources[i].value, f))
  }

  lemma {:induction false} ResourceIDsConcat(a: seq<Option<Resource>>, b: seq<Option<Resource>>)
    ensures ResourceIDs(a + b) == ResourceIDs(a) + ResourceIDs(b)
  {
    if b == [] {
      assert a + b == a;
    } else {
      var n := |b| - 1;
      assert (a + b)[..|a + b| - 1] == a + b[..n];
      ResourceIDsConcat(a, b[..n]);
    }
  }

  lemma OneResourceIDs(r: Resource)
    ensures ResourceIDs([Some(r)]) == [r.id] + FieldIDs(r.fields) + HookIDs(r.hooks)
  {
    assert [Some(r)][..0] == [];
  }

  lemma FieldIDsAppended(s: ProjectSpec, i: nat, f: Field)
    requires i < |s.resources| && s.resources[i].Some?
    requires Distinct(AllIDs(s)) && f.id !in AllIDs(s)
    ensures Distinct(AllIDs(WithField(s, i, f)))
    ensures forall w :: w in AllIDs(WithField(s, i, f)) <==> w in AllIDs(s) || w == f.id
  {
    hide ResourceIDs, IDs, HookIDs, Distinct;
    var r := s.resources[i].value;
    var q := WithFieldOn(r, f);
    var a, b := s.resources[..i], s.resources[i + 1..];
    assert s.resources == a + ([Some(r)] + b);
    assert WithField(s, i, f).resources == a + ([Some(q)] + b);
    ResourceIDsConcat(a, [Some(r)] + b);
    ResourceIDsConcat([Some(r)], b);
    ResourceIDsConcat(a, [Some(q)] + b);
    ResourceIDsConcat([Some(q)], b);
    OneResourceIDs(r);
    OneResourceIDs(q);
    OneMoreID(FieldID, r.fields, f);
    var x := [s.project.id] + ResourceIDs(a) + [r.id] + FieldIDs(r.fields);
    var y := HookIDs(r.hooks) + ResourceIDs(b) + IDs(PageID, s.pages) + IDs(NavID, s.navigation);
    assert AllIDs(s) == x + y;
    assert AllIDs(WithField(s, i, f)) == x + [f.id] + y;
    DistinctInsert(x, f.id, y);
  }

  lemma OneFieldSupports(r: Resource, f: Field)
    ensures Supports(r, WithFieldOn(r, f))
  {
    forall id | FindField(r.fields, id).Some?
      ensures FindField(WithFieldOn(r, f).fields, id) == FindField(r.fields, id)
    {
      FindAppended(FieldID, r.fields, Some(f), id);
    }
  }

  /** What is left to ask of a field whose names are fresh but for the generated one. */
  ghost predicate FieldFits(lib: Library, t: ProjectSpec, fields: seq<Option<Field>>, f: Field) {
    FieldOK(lib, t, f) && !HasKey(FieldGenerated, fields, GeneratedFieldName(f.codeName, f.kind))
  }

  lemma FieldsAppended(lib: Library, s: ProjectSpec, t: ProjectSpec, fields: seq<Option<Field>>, f: Field)
    requires Upholds(s, t) && FieldsOK(lib, s, fields)
    requires !HasKey(FieldCode, fields, f.codeName) && !HasKey(FieldStorage, fields, f.storageName)
    ensures FieldsOK(lib, t, fields + [Some(f)]) <==> FieldFits(lib, t, fields, f)
  {
    hide FieldOK, Upholds, Reaches, HasKey, Unique, GeneratedFieldName;
    var all := fields + [Some(f)];
    assert all[|fields|] == Some(f);
    UpholdsReaches(s, t);
    forall k | 0 <= k < |fields| ensures all[k].Some? && FieldOK(lib, t, all[k].value) {
      assert all[k] == fields[k];
      FieldCarried(lib, s, t, fields[k].value);
    }
    UniqueSnoc(FieldCode, fields, f);
    UniqueSnoc(FieldGenerated, fields, f);
    UniqueSnoc(FieldStorage, fields, f);
  }

  lemma ResourceOfValid(lib: Library, s: ProjectSpec, i: nat)
    requires WellFormedSpec(lib, s) && i < |s.resources|
    ensures s.resources[i].Some? && ResourceOK(lib, s, s.resources[i].value) && Distinct(AllIDs(s))
  {
    hide ResourceOK, PagesOK, NavigationOK, ProjectOK, BrandingOK, Distinct, AllIDs;
  }

  lemma GrownResource(lib: Library, s: ProjectSpec, t: ProjectSpec, r: Resource, f: Field)
    requires Upholds(s, t) && ResourceOK(lib, s, r)
    requires !HasKey(FieldCode, r.fields, f.codeName) && !HasKey(FieldStorage, r.fields, f.storageName)
    ensures ResourceOK(lib, t, WithFieldOn(r, f)) <==> FieldFits(lib, t, r.fields, f)
  {
    hide FieldFits, FieldsOK, Upholds, HasKey, BehaviorOK, HooksOK, ValidID, IsBlank, IsStorageName, IsExportedGoIdent, Supports;
    FieldsAppended(lib, s, t, r.fields, f);
    OneFieldSupports(r, f);
    BehaviorCarried(r, WithFieldOn(r, f));
  }

  /** A field with a fresh ID, code name and column makes the candidate valid exactly when it
      fits, and then the move is additive. */
  lemma NewFieldVerdict(lib: Library, s: ProjectSpec, i: nat, f: Field)
    requires WellFormedSpec(lib, s) && i < |s.resources| && s.resources[i].Some? && f.id !in AllIDs(s)
    requires
      var fields := s.resources[i].value.fields;
      !HasKey(FieldCode, fields, f.codeName) && !HasKey(FieldStorage, fields, f.storageName)
    ensures WellFormedSpec(lib, WithField(s, i, f)) <==> FieldFits(lib, WithField(s, i, f), s.resources[i].value.fields, f)
    ensures WellFormedSpec(lib, WithField(s, i, f)) ==> Authoring.ClassOf(s, WithField(s, i, f)).Additive?
  {
    hide WellFormedSpec, FieldFits, ResourceOK, AllIDs, Distinct, HasKey, Supports, Upholds;
    var r := s.resources[i].value;
    var q, t := WithFieldOn(r, f), WithField(s, i, f);
    ResourceOfValid(lib, s, i);
    FieldIDsAppended(s, i, f);
    OneFieldSupports(r, f);
    ReplacedUpholds(s, i, q);
    ReplacedVerdict(lib, s, i, q);
    GrownResource(lib, s, t, r, f);
    if WellFormedSpec(lib, t) { Authoring.AddFieldIsAdditive(lib, s, t, i, f); }
  }

  // ----- Minting in a resource's field namespace -----

  lemma FieldIDIsID(s: ProjectSpec, i: nat, k: nat)
    requires i < |s.resources| && s.resources[i].Some?
    requires k < |s.resources[i].value.fields| && s.resources[i].value.fields[k].Some?
    ensures s.resources[i].value.fields[k].value.id in AllIDs(s)
  {
    hide ResourceIDs, IDs;
    var fields := s.resources[i].value.fields;
    var id := fields[k].value.id;
    Identity.IDsMeaning(FieldID, fields);
    Identity.ResourceIDsMeaning(s.resources);
    assert FieldID(fields[k].value) == id;
    assert id in FieldIDs(fields);
    assert Identity.OwnID(s.resources[i].value, id);
    assert id in ResourceIDs(s.resources);
  }

  lemma FreshIsNoField(s: ProjectSpec, i: nat, id: ID)
    requires i < |s.resources| && s.resources[i].Some? && id !in AllIDs(s)
    ensures
      var fields := s.resources[i].value.fields;
      forall k :: 0 <= k < |fields| && fields[k].Some? ==> fields[k].value.id != id
  {
    hide AllIDs;
    var fields := s.resources[i].value.fields;
    forall k | 0 <= k < |fields| && fields[k].Some? ensures fields[k].value.id != id {
      FieldIDIsID(s, i, k);
    }
  }

  lemma FieldBaseIsUsable(lib: Library, caption: string, id: ID)
    requires ValidID(id, KindField)
    ensures
      var base := BaseSymbol(lib, caption, id);
      base != "" && Upper(base[0]) && forall i :: 0 <= i < |base| ==> Alnum(base[i])
  {
    hide Normal;
    NormalIsExported(lib, caption);
    ValidIDShape(id, KindField);
    assert PrefixOf(id) == "fld";
    assert forall i :: 0 <= i < |"Field"| ==> Alnum("Field"[i]);
  }

  /** No numbered variant of the label's symbol is left in the resource. */
  ghost predicate NoSymbolLeft(lib: Library, fields: seq<Option<Field>>, caption: string, id: ID) {
    forall n :: 1 <= n <= MAX_MINT_ATTEMPTS ==>
      var symbol := Variant(BaseSymbol(lib, caption, id), n);
      HasKey(FieldCode, fields, symbol) || IsReservedCodeName(symbol)
  }

  /** Mint against the ledger rebuilt from the resource's fields. */
  method MintFieldSymbol(lib: Library, s: ProjectSpec, i: nat, caption: string, id: ID) returns (code: Option<string>)
    requires i < |s.resources| && s.resources[i].Some?
    requires ValidID(id, KindField) && id !in AllIDs(s)
    ensures code.None? <==> NoSymbolLeft(lib, s.resources[i].value.fields, caption, id)
    ensures code.Some? ==>
      && IsExportedGoIdent(code.value) && !IsReservedCodeName(code.value)
      && !HasKey(FieldCode, s.resources[i].value.fields, code.value)
      && exists n: nat :: FirstSymbol(lib, s.resources[i].value.fields, caption, id, n, code.value)
  {
    hide AllIDs, BaseSymbol, Variant, HasKey, ValidID, IsReservedCodeName, IsExportedGoIdent;
    var r := s.resources[i].value;
    var ledger := FieldLedger(r.id, r.fields);
    ghost var before := ledger.entries;
    FreshIsNoField(s, i, id);
    StrangerOwnsNothing(before, FieldNamespace(r.id), FieldCode, FieldID, r.fields, id);
    FieldBaseIsUsable(lib, caption, id);
    code := ledger.Mint(lib, FieldNamespace(r.id), caption, id, IsReservedCodeName);
    if code.Some? {
      ghost var n :| 1 <= n <= MAX_MINT_ATTEMPTS && code.value == Variant(BaseSymbol(lib, caption, id), n)
        && forall m :: 1 <= m < n ==> !Available(before, FieldNamespace(r.id), IsReservedCodeName, Variant(BaseSymbol(lib, caption, id), m));
      VariantIsExported(BaseSymbol(lib, caption, id), n);
      assert FirstSymbol(lib, r.fields, caption, id, n, code.value);
    }
  }

  /** The n-th variant is the first one free and unreserved. */
  ghost predicate FirstSymbol(lib: Library, fields: seq<Option<Field>>, caption: string, id: ID, n: nat, code: string) {
    && 1 <= n <= MAX_MINT_ATTEMPTS
    && code == Variant(BaseSymbol(lib, caption, id), n)
    && !HasKey(FieldCode, fields, code) && !IsReservedCodeName(code)
    && forall m :: 1 <= m < n ==>
         var symbol := Variant(BaseSymbol(lib, caption, id), m);
         HasKey(FieldCode, fields, symbol) || IsReservedCodeName(symbol)
  }

  // ----- AddField -----

  datatype FieldInput = FieldInput(
    caption: string, kind: FieldType, required: bool, unique: bool, default: Option<string>, enumValues: seq<EnumValue>)

  /** validateFieldInput reports no error. */
  predicate FieldInputOK(input: FieldInput) { !IsBlank(input.caption) && input.kind.Scalar() }

  function NewScalar(id: ID, input: FieldInput, code: string, storage: string): Field {
    Field(id, input.caption, input.kind, code, storage, input.required, input.unique, false,
      input.default, input.enumValues, "", "")
  }

  /** The column a name is derived for is usable: it fits and is not one of the model's own. */
  predicate UsableColumn(name: string) { |name| <= 63 && !IsReservedStorageName(name) }

  lemma NewScalarFits(lib: Library, t: ProjectSpec, fields: seq<Option<Field>>, f: Field, input: FieldInput)
    requires f == NewScalar(f.id, input, f.codeName, f.storageName) && FieldInputOK(input)
    requires ValidID(f.id, KindField) && IsExportedGoIdent(f.codeName) && !IsReservedCodeName(f.codeName)
    requires JoinedWords(f.storageName, '_')
    ensures FieldFits(lib, t, fields, f) <==>
      && UsableColumn(f.storageName)
      && !HasKey(FieldGenerated, fields, f.codeName)
      && FieldTypeOK(t, f) && DefaultOK(lib, f)
  {
    hide ValidID, IsBlank, IsExportedGoIdent, IsReservedCodeName, IsReservedStorageName, FieldTypeOK, DefaultOK, HasKey, JoinedWords;
  }

  lemma ScalarTypeIsLocal(s: ProjectSpec, t: ProjectSpec, f: Field)
    requires !f.kind.TBelongsTo?
    ensures FieldTypeOK(s, f) <==> FieldTypeOK(t, f)
  {
  }

  lemma ColumnIsFresh(fields: seq<Option<Field>>, name: string)
    ensures HasKey(FieldStorage, fields, name) <==> name in FieldStorages(fields)
  {
  }

  /** AddField. It makes no candidate only for malformed input, a missing resource or when no
      symbol is left. On a valid head and with a fresh ID the candidate is valid exactly when
      the derived column fits and is not reserved, no field generates the minted name, and type
      and default agree; and then it commits as additive. */
  method AddField(lib: Library, s: ProjectSpec, resource: ID, input: FieldInput, id: ID)
      returns (candidate: Option<ProjectSpec>, ghost i: nat, ghost f: Field)
    requires WellFormedSpec(lib, s) && ValidID(id, KindField) && id !in AllIDs(s)
    ensures candidate.None? <==>
      || !FieldInputOK(input)
      || FindResource(s.resources, resource).None?
      || NoSymbolLeft(lib, FindResource(s.resources, resource).value.fields, input.caption, id)
    ensures candidate.Some? ==>
      && i < |s.resources| && s.resources[i].Some? && s.resources[i] == FindResource(s.resources, resource)
      && candidate.value == s.(resources := s.resources[i :=
           Some(s.resources[i].value.(fields := s.resources[i].value.fields + [Some(f)]))])
      && f == Field(id, input.caption, input.kind, f.codeName, f.storageName, input.required, input.unique, false,
                    input.default, input.enumValues, "", "")
      && var fields := s.resources[i].value.fields;
         && (exists n: nat :: FirstSymbol(lib, fields, input.caption, id, n, f.codeName))
         && FreshName(f.storageName, OrElse(FreshNames.Fold(lib, input.caption, '_', 'r'), "field"), '_', "", FieldStorages(fields))
         && (WellFormedSpec(lib, candidate.value) <==>
              && UsableColumn(f.storageName)
              && !HasKey(FieldGenerated, fields, f.codeName)
              && FieldTypeOK(s, f) && DefaultOK(lib, f))
         && (WellFormedSpec(lib, candidate.value) ==> Authoring.ClassOf(s, candidate.value).Additive?)
  {
    hide WellFormedSpec, AllIDs, HasKey, FreshName, FirstSymbol, NoSymbolLeft, IsStorageName, ValidID, FieldFits;
    i, f := 0, NewScalar(id, input, "", "");
    if !FieldInputOK(input) { return None, i, f; }
    var at := Position(ResourceID, s.resources, resource);
    if at.None? { return None, i, f; }
    i := at.value;
    var fields := s.resources[at.value].value.fields;
    var code := MintFieldSymbol(lib, s, at.value, input.caption, id);
    if code.None? { return None, i, f; }
    var storage := DeriveFieldStorageName(lib, input.caption, fields);
    FreshColumn(storage, OrElse(FreshNames.Fold(lib, input.caption, '_', 'r'), "field"), "", fields);
    var g := NewScalar(id, input, code.value, storage);
    f := g;
    NewFieldVerdict(lib, s, at.value, g);
    NewScalarFits(lib, WithField(s, at.value, g), fields, g, input);
    ScalarTypeIsLocal(s, WithField(s, at.value, g), g);
    return Some(WithField(s, at.value, g)), i, f;
  }

  lemma FreshColumn(name: string, base: string, tail: string, fields: seq<Option<Field>>)
    requires FreshName(name, base, '_', tail, FieldStorages(fields))
    ensures !HasKey(FieldStorage, fields, name) && JoinedWords(name, '_')
  {
    ColumnIsFresh(fields, name);
  }

  // ----- AddRelationship -----

  function NewRelationship(id: ID, caption: string, target: ID, inverse: string, required: bool, code: string, storage: string): Field {
    Field(id, caption, TBelongsTo, code, storage, required, false, false, None, [], target, inverse)
  }

  lemma KeyNameIsUsable(base: string, n: nat)
    requires JoinedWords(base, '_')
    ensures !IsReservedStorageName(Candidate(base, '_', "_id", n))
  {
    var c := Candidate(base, '_', "_id", n);
    assert |c| >= 4 && c[|c| - 3] == '_' && c[|c| - 1] == 'd';
    assert "created_at"[9] == 't' && "updated_at"[9] == 't' && "deleted_at"[9] == 't';
  }

  lemma KeySymbolIsUnreserved(code: string)
    requires code != ""
    ensures !IsReservedCodeName(code + "ID")
  {
    var g := code + "ID";
    assert |g| >= 3 && g[|g| - 1] == 'D' && g[|g| - 2] == 'I';
    assert "Model"[4] == 'l' && "CreatedAt"[8] == 't' && "UpdatedAt"[8] == 't' && "DeletedAt"[8] == 't' && "TableName"[8] == 'e';
  }

  lemma NewRelationshipFits(lib: Library, t: ProjectSpec, fields: seq<Option<Field>>, f: Field)
    requires f == NewRelationship(f.id, f.caption, f.target, f.inverseLabel, f.required, f.codeName, f.storageName)
    requires !IsBlank(f.caption) && f.target != "" && FindResource(t.resources, f.target).Some?
    requires ValidID(f.id, KindField) && IsExportedGoIdent(f.codeName) && !IsReservedCodeName(f.codeName)
    requires JoinedWords(f.storageName, '_') && !IsReservedStorageName(f.storageName)
    ensures FieldFits(lib, t, fields, f) <==>
      |f.storageName| <= 63 && !HasKey(FieldGenerated, fields, f.codeName + "ID")
  {
    hide ValidID, IsBlank, IsReservedCodeName, IsReservedStorageName, HasKey, JoinedWords;
    KeySymbolIsUnreserved(f.codeName);
  }

  /** AddRelationship. On a valid head and with a fresh ID the candidate is valid exactly when
      the derived key column fits and no field generates the key's Go name; and then it commits
      as additive. */
  method AddRelationship(lib: Library, s: ProjectSpec, resource: ID, caption: string, target: ID, inverse: string,
                         required: bool, id: ID)
      returns (candidate: Option<ProjectSpec>, ghost i: nat, ghost f: Field)
    requires WellFormedSpec(lib, s) && ValidID(id, KindField) && id !in AllIDs(s)
    ensures candidate.None? <==>
      || IsBlank(caption) || target == ""
      || FindResource(s.resources, resource).None? || FindResource(s.resources, target).None?
      || NoSymbolLeft(lib, FindResource(s.resources, resource).value.fields, caption, id)
    ensures candidate.Some? ==>
      && i < |s.resources| && s.resources[i].Some? && s.resources[i] == FindResource(s.resources, resource)
      && candidate.value == s.(resources := s.resources[i :=
           Some(s.resources[i].value.(fields := s.resources[i].value.fields + [Some(f)]))])
      && f == Field(id, caption, TBelongsTo, f.codeName, f.storageName, required, false, false, None, [], target, inverse)
      && var fields := s.resources[i].value.fields;
         && (exists n: nat :: FirstSymbol(lib, fields, caption, id, n, f.codeName))
         && FreshName(f.storageName, OrElse(FreshNames.Fold(lib, caption, '_', 'r'), "ref"), '_', "_id", FieldStorages(fields))
         && (WellFormedSpec(lib, candidate.value) <==>
              |f.storageName| <= 63 && !HasKey(FieldGenerated, fields, f.codeName + "ID"))
         && (WellFormedSpec(lib, candidate.value) ==> Authoring.ClassOf(s, candidate.value).Additive?)
  {
    hide WellFormedSpec, AllIDs, HasKey, FreshName, FirstSymbol, NoSymbolLeft, IsStorageName, ValidID, FieldFits, Supports;
    i, f := 0, NewRelationship(id, caption, target, inverse, required, "", "");
    if IsBlank(caption) || target == "" { return None, i, f; }
    var at := Position(ResourceID, s.resources, resource);
    if at.None? { return None, i, f; }
    if FindResource(s.resources, target).None? { return None, i, f; }
    i := at.value;
    var r := s.resources[at.value].value;
    var code := MintFieldSymbol(lib, s, at.value, caption, id);
    if code.None? { return None, i, f; }
    var storage := DeriveForeignKeyName(lib, caption, r.fields);
    FreshColumn(storage, OrElse(FreshNames.Fold(lib, caption, '_', 'r'), "ref"), "_id", r.fields);
    FreshKeyIsUsable(lib, storage, caption, r.fields);
    var g := NewRelationship(id, caption, target, inverse, required, code.value, storage);
    f := g;
    OneFieldSupports(r, g);
    ReplacedUpholds(s, at.value, WithFieldOn(r, g));
    NewFieldVerdict(lib, s, at.value, g);
    NewRelationshipFits(lib, WithField(s, at.value, g), r.fields, g);
    return Some(WithField(s, at.value, g)), i, f;
  }

  lemma FreshKeyIsUsable(lib: Library, name: string, caption: string, fields: seq<Option<Field>>)
    requires FreshName(name, OrElse(FreshNames.Fold(lib, caption, '_', 'r'), "ref"), '_', "_id", FieldStorages(fields))
    ensures !IsReservedStorageName(name)
  {
    FoldIsName(lib, caption, '_', 'r');
    var base := OrElse(FreshNames.Fold(lib, caption, '_', 'r'), "ref");
    var n: nat :| 1 <= n <= |FieldStorages(fields)| + 1 && name == Candidate(base, '_', "_id", n)
      && Tried(base, '_', "_id", FieldStorages(fields), n);
    KeyNameIsUsable(base, n);
  }

  // ----- Labels no valid candidate comes from -----

  /** A label that folds to a reserved column is always given that column, because no valid
      resource has it, so AddField never makes a valid candidate from it. */
  lemma ReservedLabelNeverFits(lib: Library, s: ProjectSpec, i: nat, caption: string, name: string)
    requires WellFormedSpec(lib, s) && i < |s.resources| && s.resources[i].Some?
    requires IsReservedStorageName(FreshNames.Fold(lib, caption, '_', 'r'))
    requires FreshName(name, OrElse(FreshNames.Fold(lib, caption, '_', 'r'), "field"), '_', "", FieldStorages(s.resources[i].value.fields))
    ensures name == FreshNames.Fold(lib, caption, '_', 'r') && !UsableColumn(name)
  {
    hide WellFormedSpec, FreshNames.Fold, FreshName, IsReservedStorageName;
    var base := FreshNames.Fold(lib, caption, '_', 'r');
    assert base != "" by { ReservedIsNamed(base); }
    NoReservedColumns(lib, s, i, base);
    UntakenBaseIsUsed(name, base, FieldStorages(s.resources[i].value.fields));
  }

  lemma ReservedIsNamed(name: string)
    requires IsReservedStorageName(name)
    ensures name != ""
  {
  }

  lemma UntakenBaseIsUsed(name: string, base: string, taken: set<string>)
    requires FreshName(name, base, '_', "", taken) && base !in taken
    ensures name == base
  {
    var n: nat :| 1 <= n <= |taken| + 1 && name == Candidate(base, '_', "", n) && Tried(base, '_', "", taken, n);
    assert Candidate(base, '_', "", 1) == base + "" == base;
  }

  lemma NoReservedColumns(lib: Library, s: ProjectSpec, i: nat, name: string)
    requires WellFormedSpec(lib, s) && i < |s.resources| && s.resources[i].Some? && IsReservedStorageName(name)
    ensures name !in FieldStorages(s.resources[i].value.fields)
  {
    hide FieldTypeOK, DefaultOK, Unique, IsReservedStorageName;
    ResourceOfValid(lib, s, i);
    var fields := s.resources[i].value.fields;
    forall k | 0 <= k < |fields| && fields[k].Some? ensures fields[k].value.storageName != name {
      assert FieldOK(lib, s, fields[k].value);
    }
  }

  /** The label "ID" folds to the reserved column id. */
  lemma IDLabelIsReserved(lib: Library)
    requires lib.toLower('I') == 'i' && lib.toLower('D') == 'd'
    ensures IsReservedStorageName(FreshNames.Fold(lib, "ID", '_', 'r'))
  {
    assert "ID"[..1] == "I" && "I"[..0] == "";
    assert Folded(lib, "", '_') == "";
    assert Folded(lib, "I", '_') == "i";
    assert Folded(lib, "ID", '_') == "id";
  }

  /** A scalar labelled with the key name of a relationship is minted exactly that name when no
      field has it, and collides with the key: AddField never makes a valid candidate from it. */
  lemma KeyLabelCollides(lib: Library, fields: seq<Option<Field>>, k: nat, id: ID, n: nat, code: string)
    requires k < |fields| && fields[k].Some? && fields[k].value.kind.TBelongsTo?
    requires
      var caption := fields[k].value.codeName + "ID";
      && Normal(lib, caption) == Some(caption)
      && !HasKey(FieldCode, fields, caption) && !IsReservedCodeName(caption)
      && FirstSymbol(lib, fields, caption, id, n, code)
    ensures code == fields[k].value.codeName + "ID"
    ensures HasKey(FieldGenerated, fields, code)
  {
    hide Normal, IsReservedCodeName;
    var caption := fields[k].value.codeName + "ID";
    assert BaseSymbol(lib, caption, id) == caption;
    assert Variant(caption, 1) == caption;
    assert FieldGenerated(fields[k].value) == Some(caption);
  }

  /** So on every valid head AddField's candidate for that label is invalid. */
  lemma KeyLabelNeverFits(lib: Library, s: ProjectSpec, i: nat, k: nat, input: FieldInput, id: ID, n: nat, code: string, storage: string)
    requires WellFormedSpec(lib, s) && i < |s.resources| && s.resources[i].Some?
    requires
      var fields := s.resources[i].value.fields;
      && k < |fields| && fields[k].Some? && fields[k].value.kind.TBelongsTo?
      && input.kind.Scalar() && input.caption == fields[k].value.codeName + "ID"
      && Normal(lib, input.caption) == Some(input.caption)
      && !HasKey(FieldCode, fields, input.caption)
      && FirstSymbol(lib, fields, input.caption, id, n, code)
    ensures !WellFormedSpec(lib, WithField(s, i, NewScalar(id, input, code, storage)))
  {
    hide WellFormedSpec, Normal, FirstSymbol, HasKey, FieldOK, IsReservedCodeName;
    var fields := s.resources[i].value.fields;
    var f := NewScalar(id, input, code, storage);
    var t := WithField(s, i, f);
    CodeIsNamed(lib, s, i, k);
    KeySymbolIsUnreserved(fields[k].value.codeName);
    KeyLabelCollides(lib, fields, k, id, n, code);
    if WellFormedSpec(lib, t) {
      Authoring.FieldsNamed(lib, t, i);
      UniqueSnoc(FieldGenerated, fields, f);
      assert false;
    }
  }

  lemma CodeIsNamed(lib: Library, s: ProjectSpec, i: nat, k: nat)
    requires WellFormedSpec(lib, s) && i < |s.resources| && s.resources[i].Some?
    requires k < |s.resources[i].value.fields| && s.resources[i].value.fields[k].Some?
    ensures s.resources[i].value.fields[k].value.codeName != ""
  {
    hide WellFormedSpec, IsReservedCodeName, FieldTypeOK, DefaultOK, Unique;
    Authoring.FieldsNamed(lib, s, i);
    assert FieldOK(lib, s, s.resources[i].value.fields[k].value);
  }

  lemma CustomerIDIsNormal(lib: Library)
    ensures Normal(lib, "CustomerID") == Some("CustomerID")
  {
    var c := "CustomerID";
    assert forall i :: 0 <= i < |c| ==> Alnum(c[i]);
    assert Upper(c[0]);
    AlnumIsNormal(lib, c);
  }

  /** An identifier of letters and digits is its own normal form. */
  lemma AlnumIsNormal(lib: Library, name: string)
    requires name != "" && Upper(name[0]) && forall i :: 0 <= i < |name| ==> Alnum(name[i])
    ensures Normal(lib, name) == Some(name)
  {
    AsciiFoldsToItself(name);
    PascalKeepsAlnum(false, name);
    assert forall i :: 0 <= i < |name| ==> !Unfoldable(lib, name[i]);
  }
}
