/** Valid specs that Generate refuses: one for each guard and parse the validator knows nothing
    of. */
module Ungenerable {
  import opened Text
  import opened Names
  import opened Spec
  import opened WellFormed
  import opened Samples
  import opened Packages
  import opened GoSource
  import opened Generate

  /** What the guards on packages and fixed symbols see of a project with one resource. */
  lemma OnePackageIsFine(s: ProjectSpec)
    requires |s.resources| == 1 && s.resources[0].Some?
    requires UsablePackage(PackageName(s.resources[0].value.codeName))
    requires s.resources[0].value.codeName !in RESERVED_PACKAGE_SYMBOLS
    ensures PackagesOK(s.resources) && SymbolsOK(s.resources)
  {
  }

  lemma SourceStopsIt(s: ProjectSpec, target: Target)
    requires |s.resources| == 1 && s.resources[0].Some? && !SourceOK(s.resources[0].value)
    ensures !Generable(s, target)
  {
    hide SourceOK, PackagesOK, SymbolsOK;
  }

  // ----- A setter that is already a field -----

  const EMAIL: Field := Scalar('1', "Email", "Email", "email")
  const SET_EMAIL: Field := Scalar('2', "SetEmail", "SetEmail", "set_email")

  const SETTER: ProjectSpec :=
    TwoFields("Customer", EMAIL, SET_EMAIL)

  lemma CustomerIsUsable()
    ensures IsExportedGoIdent("Customer") && UsablePackage(PackageName("Customer")) && "Customer" !in RESERVED_PACKAGE_SYMBOLS
  {
    assert "Customer"[0] == 'C' && |"Customer"| == 8;
    var p := PackageName("Customer");
    assert p[0] == 'c' && p[1] == 'u' && |p| == 8;
    assert "continue"[1] == 'o' && "contract"[1] == 'o';
    assert "internal"[0] == 'i' && "testdata"[0] == 't' && "database"[0] == 'd';
  }

  /** The witness of a spec Generate refuses although it is valid and passes the guards on
      packages and fixed symbols. */
  ghost predicate Refused(lib: Library, s: ProjectSpec) {
    && WellFormedSpec(lib, s) && PackagesOK(s.resources) && SymbolsOK(s.resources)
    && |s.resources| == 1 && s.resources[0].Some?
    && forall target :: !Generable(s, target)
  }

  lemma IsRefused(lib: Library, s: ProjectSpec)
    requires WellFormedSpec(lib, s) && |s.resources| == 1 && s.resources[0].Some?
    requires UsablePackage(PackageName(s.resources[0].value.codeName))
    requires s.resources[0].value.codeName !in RESERVED_PACKAGE_SYMBOLS && !SourceOK(s.resources[0].value)
    ensures Refused(lib, s)
  {
    hide WellFormedSpec, SourceOK, PackagesOK, SymbolsOK, UsablePackage, Generable;
    OnePackageIsFine(s);
    forall target ensures !Generable(s, target) { SourceStopsIt(s, target); }
  }

  lemma EmailNames()
    ensures NameFits("Email", "email") && NameFits("SetEmail", "set_email")
    ensures "Email" != "SetEmail" && "email" != "set_email" && !IsBlank("SetEmail")
  {
    assert "SetEmail"[0] == 'S' && !IsSpace('S');
    assert "Email"[0] == 'E' && "SetEmail"[0] == 'S' && |"Email"| == 5 && |"SetEmail"| == 8;
    assert "Model"[0] == 'M' && "email"[0] == 'e' && |"set_email"| == 9;
  }

  /** Fields Email and SetEmail: two methods SetEmail. */
  lemma SetterIsRefused(lib: Library)
    ensures Refused(lib, SETTER) && !MutationNamesOK(SETTER.resources[0].value.fields)
  {
    hide WellFormedSpec, UsablePackage, PackageName, RESERVED_PACKAGE_SYMBOLS, FieldIDOf, RESOURCE, NameFits, TwoFields, IsBlank;
    CustomerIsUsable();
    EmailNames();
    TwoFieldsIsValid(lib, "Customer", EMAIL, SET_EMAIL);
    TwoFieldsHas("Customer", EMAIL, SET_EMAIL);
    var fields := SETTER.resources[0].value.fields;
    assert "SetEmail" == "Set" + "Email";
    assert MutationClash(fields[1].value, fields[0].value);
    IsRefused(lib, SETTER);
  }

  // ----- A reference called like the view -----

  const VIEW: Field := Scalar('1', "View", "View", "view")

  const VIEWED: ProjectSpec := OneField("Field", VIEW)

  lemma ViewNames()
    ensures IsExportedGoIdent("Field") && UsablePackage(PackageName("Field")) && "Field" !in RESERVED_PACKAGE_SYMBOLS
    ensures NameFits("View", "view")
  {
    assert "Field"[0] == 'F' && |"Field"| == 5 && "View"[0] == 'V' && "view"[0] == 'v';
    var p := PackageName("Field");
    assert p[0] == 'f' && p[1] == 'i' && |p| == 5;
    assert "admin"[0] == 'a' && "break"[0] == 'b' && "const"[0] == 'c' && "defer"[0] == 'd' && "range"[0] == 'r';
  }

  /** Resource Field with a field View: the type FieldView and the reference FieldView. */
  lemma ViewIsRefused(lib: Library)
    ensures Refused(lib, VIEWED) && !FieldRefNamesOK(VIEWED.resources[0].value)
  {
    hide WellFormedSpec, AllIDs, NameFits, FieldIDOf, PROJECT, RESOURCE, OneField;
    hide UsablePackage, PackageName, RESERVED_PACKAGE_SYMBOLS;
    ViewNames();
    OneFieldIsValid(lib, "Field", VIEW);
    OneFieldHas("Field", VIEW);
    var r := VIEWED.resources[0].value;
    assert r.fields == [Some(VIEW)] && r.codeName == "Field";
    assert FieldRefClash(r, r.fields[0].value);
    IsRefused(lib, VIEWED);
  }

  // ----- A value kept under a keyword -----

  const TYPE: Field := Scalar('1', "Type", "Type", "kind")

  const KEYWORDED: ProjectSpec := OneField("Customer", TYPE)

  lemma TypeNames()
    ensures NameFits("Type", "kind")
    ensures LowerFirst("Type") == "type" && "type" in GO_KEYWORDS
  {
    assert "Type"[0] == 'T' && |"Type"| == 4 && "kind"[0] == 'k';
    assert "type" in GO_KEYWORDS;
  }

  /** A field Type: a struct field called type. */
  lemma KeywordIsRefused(lib: Library)
    ensures Refused(lib, KEYWORDED) && !NoKeywordBacking(KEYWORDED.resources[0].value.fields)
  {
    hide WellFormedSpec, AllIDs, NameFits, FieldIDOf, PROJECT, RESOURCE, OneField;
    hide UsablePackage, PackageName, RESERVED_PACKAGE_SYMBOLS, GO_KEYWORDS;
    TypeNames();
    CustomerIsUsable();
    OneFieldIsValid(lib, "Customer", TYPE);
    OneFieldHas("Customer", TYPE);
    var fields := KEYWORDED.resources[0].value.fields;
    assert fields == [Some(TYPE)];
    assert GoName(fields[0].value) == "Type";
    IsRefused(lib, KEYWORDED);
  }
}
