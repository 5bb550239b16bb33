/** Small valid specs, for showing inputs on. */
module Samples {
  import opened Text
  import opened Names
  import opened Spec
  import opened WellFormed
  import opened Creation
  import opened FieldCreation

  const PROJECT: ID := "prj" + "_" + ZEROS
  const RESOURCE: ID := "res" + "_" + ZEROS

  function FieldIDOf(c: char): ID { "fld" + "_" + (ZEROS[..25] + [c]) }

  lemma ResourceIDIsValid()
    ensures ValidID(RESOURCE, KindResource)
  {
    assert |ZEROS| == ULID_LEN && forall i :: 0 <= i < |ZEROS| ==> ZEROS[i] == CROCKFORD[0];
    assert KindResource.Prefix() == "res";
    ValidIDShape(RESOURCE, KindResource);
  }

  lemma FieldIDIsValid(c: char)
    requires IsCrockford(c)
    ensures ValidID(FieldIDOf(c), KindField)
  {
    var body := ZEROS[..25] + [c];
    assert |body| == ULID_LEN && forall i :: 0 <= i < 25 ==> body[i] == CROCKFORD[0];
    assert KindField.Prefix() == "fld";
    ValidIDShape(FieldIDOf(c), KindField);
  }

  lemma FieldPrefix(c: char)
    ensures PrefixOf(FieldIDOf(c)) == KindField.Prefix() == "fld"
  {
    CutUnique("fld", ZEROS[..25] + [c]);
  }

  lemma IDsDiffer(c: char, d: char)
    ensures FieldIDOf(c) != PROJECT && FieldIDOf(c) != RESOURCE && RESOURCE != PROJECT
    ensures c != d ==> FieldIDOf(c) != FieldIDOf(d)
  {
    assert FieldIDOf(c)[0] == 'f' && RESOURCE[0] == 'r' && PROJECT[0] == 'p';
    assert FieldIDOf(c)[29] == c && FieldIDOf(d)[29] == d;
  }

  lemma DigitsAreCrockford()
    ensures IsCrockford('1') && IsCrockford('2')
  {
    assert CROCKFORD[1] == '1' && CROCKFORD[2] == '2';
  }

  lemma NameIsNotBlank(name: string)
    requires IsExportedGoIdent(name)
    ensures !IsBlank(name)
  {
    assert Upper(name[0]) && !IsSpace(name[0]);
  }

  // ----- One resource -----

  /** A project with one resource of this code name and no field. */
  function Base(code: string): ProjectSpec {
    WithResource(Bootstrap(PROJECT, "Shop", "shop"), NewResource(RESOURCE, code, "", code, "samples"))
  }

  lemma BaseIDs(code: string)
    ensures AllIDs(Bootstrap(PROJECT, "Shop", "shop")) == [PROJECT]
    ensures AllIDs(Base(code)) == [PROJECT, RESOURCE]
  {
    hide PROJECT, RESOURCE;
    var q := NewResource(RESOURCE, code, "", code, "samples");
    OneMoreResource([], q);
    assert [] + [Some(q)] == [Some(q)];
    assert ResourceIDs(Base(code).resources) == [RESOURCE];
  }

  lemma BaseHasNoField(code: string)
    ensures
      var rs := Base(code).resources;
      |rs| == 1 && rs[0].Some? && rs[0].value.id == RESOURCE && rs[0].value.fields == [] && rs[0].value.codeName == code
  {
  }

  lemma BaseIsValid(lib: Library, code: string)
    requires IsExportedGoIdent(code)
    ensures WellFormedSpec(lib, Base(code))
  {
    assert IsStorageName("samples");
    hide ValidID, IsExportedGoIdent, PROJECT, RESOURCE, WellFormedSpec, AllIDs, IsStorageName, IsBlank, ZEROS;
    var s := Bootstrap(PROJECT, "Shop", "shop");
    SomeSpecIsValid(lib);
    ProjectIs();
    ResourceIDIsValid();
    IDsDiffer('0', '1');
    BaseIDs(code);
    NameIsNotBlank(code);
    NewResourceVerdict(lib, s, NewResource(RESOURCE, code, "", code, "samples"));
  }

  lemma ProjectIs()
    ensures PROJECT == "prj" + "_" + ZEROS
  {
  }

  // ----- Its fields -----

  function Scalar(c: char, caption: string, code: string, column: string): Field {
    NewScalar(FieldIDOf(c), FieldInput(caption, TString, false, false, None, []), code, column)
  }

  /** A relationship of the resource with itself. */
  function Relation(c: char, code: string, column: string): Field {
    NewRelationship(FieldIDOf(c), code, RESOURCE, "", false, code, column)
  }

  ghost predicate NameFits(code: string, column: string) {
    IsExportedGoIdent(code) && !IsReservedCodeName(code) && IsStorageName(column) && !IsReservedStorageName(column)
  }

  /** The names fit: legal, unreserved and not yet in the resource. */
  ghost predicate NamesFit(s: ProjectSpec, f: Field)
    requires |s.resources| > 0 && s.resources[0].Some?
  {
    var fields := s.resources[0].value.fields;
    && NameFits(f.codeName, f.storageName)
    && !HasKey(FieldCode, fields, f.codeName)
    && !HasKey(FieldGenerated, fields, GeneratedFieldName(f.codeName, f.kind))
    && !HasKey(FieldStorage, fields, f.storageName)
  }

  lemma FieldIsValid(lib: Library, s: ProjectSpec, c: char, f: Field)
    requires WellFormedSpec(lib, s) && |s.resources| > 0 && s.resources[0].Some? && s.resources[0].value.id == RESOURCE
    requires IsCrockford(c) && FieldIDOf(c) !in AllIDs(s) && NamesFit(s, f) && !IsBlank(f.caption)
    requires f == Scalar(c, f.caption, f.codeName, f.storageName) || f == Relation(c, f.codeName, f.storageName)
    ensures WellFormedSpec(lib, WithField(s, 0, f))
    ensures forall w :: w in AllIDs(WithField(s, 0, f)) <==> w in AllIDs(s) || w == FieldIDOf(c)
  {
    hide WellFormedSpec, AllIDs, ValidID, IsBlank, IsExportedGoIdent, IsReservedCodeName, IsReservedStorageName;
    hide HasKey, FieldFits, FieldIDOf, Distinct;
    hide RESOURCE;
    var fields := s.resources[0].value.fields;
    FieldIDIsValid(c);
    assert f.id == FieldIDOf(c);
    if f.kind.TBelongsTo? {
      ResourceIDIsNamed();
      NewRelationshipFits(lib, WithField(s, 0, f), fields, f);
    } else {
      NewScalarFits(lib, WithField(s, 0, f), fields, f, FieldInput(f.caption, TString, false, false, None, []));
    }
    NewFieldVerdict(lib, s, 0, f);
    assert Distinct(AllIDs(s)) by { ResourcesOfValid(lib, s); }
    FieldIDsAppended(s, 0, f);
  }

  lemma ResourceIDIsNamed()
    ensures RESOURCE != ""
  {
  }

  lemma FirstNamesFit(resource: string, f: Field)
    requires NameFits(f.codeName, f.storageName)
    ensures NamesFit(Base(resource), f)
  {
    hide NameFits;
  }

  lemma SecondNamesFit(s: ProjectSpec, g: Field, f: Field)
    requires |s.resources| > 0 && s.resources[0].Some? && s.resources[0].value.fields == [Some(g)]
    requires NameFits(f.codeName, f.storageName)
    requires f.codeName != g.codeName && f.storageName != g.storageName
    requires GeneratedFieldName(f.codeName, f.kind) != GeneratedFieldName(g.codeName, g.kind)
    ensures NamesFit(s, f)
  {
    hide NameFits;
  }

  lemma CaptionOf(f: Field)
    requires f == Scalar('1', f.codeName, f.codeName, f.storageName) || f == Relation('1', f.codeName, f.storageName)
    ensures f.caption == f.codeName
  {
  }

  lemma FittingIsNotBlank(s: ProjectSpec, f: Field)
    requires |s.resources| > 0 && s.resources[0].Some? && NamesFit(s, f)
    ensures !IsBlank(f.codeName)
  {
    hide IsReservedCodeName, IsReservedStorageName, IsStorageName;
    NameIsNotBlank(f.codeName);
  }

  lemma FirstFieldIsValid(lib: Library, s: ProjectSpec, f: Field)
    requires WellFormedSpec(lib, s) && |s.resources| == 1 && s.resources[0].Some? && s.resources[0].value.id == RESOURCE
    requires NamesFit(s, f) && forall w :: w in AllIDs(s) <==> w == PROJECT || w == RESOURCE
    requires f == Scalar('1', f.codeName, f.codeName, f.storageName) || f == Relation('1', f.codeName, f.storageName)
    ensures WellFormedSpec(lib, WithField(s, 0, f))
    ensures forall w :: w in AllIDs(WithField(s, 0, f)) <==> w == PROJECT || w == RESOURCE || w == FieldIDOf('1')
  {
    FittingIsNotBlank(s, f);
    hide WellFormedSpec, AllIDs, IsBlank, NamesFit, FieldIDOf, PROJECT, RESOURCE, Scalar, Relation, WithField, IsCrockford;
    CaptionOf(f);
    IDsDiffer('1', '2');
    DigitsAreCrockford();
    FieldIsValid(lib, s, '1', f);
  }

  /** A resource with one field. */
  function OneField(resource: string, f: Field): ProjectSpec { WithField(Base(resource), 0, f) }

  lemma OneFieldIsValid(lib: Library, resource: string, f: Field)
    requires IsExportedGoIdent(resource) && NameFits(f.codeName, f.storageName)
    requires f == Scalar('1', f.codeName, f.codeName, f.storageName) || f == Relation('1', f.codeName, f.storageName)
    ensures WellFormedSpec(lib, OneField(resource, f))
    ensures forall w :: w in AllIDs(OneField(resource, f)) <==> w == PROJECT || w == RESOURCE || w == FieldIDOf('1')
  {
    hide WellFormedSpec, AllIDs, NameFits, NamesFit, FieldIDOf, PROJECT, RESOURCE, IsExportedGoIdent;
    hide Base, Scalar, Relation, WithField;
    BaseHasNoField(resource);
    BaseIsValid(lib, resource);
    assert forall w :: w in AllIDs(Base(resource)) <==> w == PROJECT || w == RESOURCE by { BaseIDs(resource); }
    FirstNamesFit(resource, f);
    FirstFieldIsValid(lib, Base(resource), f);
  }

  function TwoFields(resource: string, g: Field, f: Field): ProjectSpec { WithField(OneField(resource, g), 0, f) }

  lemma OneFieldHas(resource: string, f: Field)
    ensures
      var rs := OneField(resource, f).resources;
      |rs| == 1 && rs[0].Some? && rs[0].value.id == RESOURCE && rs[0].value.fields == [Some(f)] && rs[0].value.codeName == resource
  {
  }

  lemma TwoFieldsHas(resource: string, g: Field, f: Field)
    ensures
      var rs := TwoFields(resource, g, f).resources;
      |rs| == 1 && rs[0].Some? && rs[0].value.id == RESOURCE && rs[0].value.fields == [Some(g), Some(f)] && rs[0].value.codeName == resource
  {
    hide OneField;
    OneFieldHas(resource, g);
  }

  lemma TwoFieldsIsValid(lib: Library, resource: string, g: Field, f: Field)
    requires IsExportedGoIdent(resource) && NameFits(g.codeName, g.storageName) && NameFits(f.codeName, f.storageName)
    requires g == Scalar('1', g.codeName, g.codeName, g.storageName) || g == Relation('1', g.codeName, g.storageName)
    requires f == Scalar('2', f.caption, f.codeName, f.storageName) && !IsBlank(f.caption)
    requires f.codeName != g.codeName && f.storageName != g.storageName
    requires f.codeName != GeneratedFieldName(g.codeName, g.kind)
    ensures WellFormedSpec(lib, TwoFields(resource, g, f))
  {
    assert !f.kind.TBelongsTo?;
    hide WellFormedSpec, AllIDs, IsBlank, NameFits, NamesFit, FieldIDOf, PROJECT, RESOURCE, IsExportedGoIdent;
    hide IsCrockford, OneField, Scalar, Relation, WithField;
    OneFieldIsValid(lib, resource, g);
    OneFieldHas(resource, g);
    SecondNamesFit(OneField(resource, g), g, f);
    IDsDiffer('2', '1');
    DigitsAreCrockford();
    FieldIsValid(lib, OneField(resource, g), '2', f);
  }
}
