/** What the generator checks, or go/format finds, in the Go source of one resource
    (internal/compiler/gen/mutation.go, extension.go, fieldtype.go, gen.go and wiring.go). */
module GoSource {
  import opened Text
  import opened Names
  import opened Spec
  import opened WellFormed
  import opened Packages

  function GoName(f: Field): string { GeneratedFieldName(f.codeName, f.kind) }

  /** The unexported name a field's value is kept under. */
  function LowerFirst(name: string): string {
    if name == "" then "" else [LowerOf(name[0])] + name[1..]
  }

  ghost predicate Exported(fields: seq<Option<Field>>) {
    forall i :: 0 <= i < |fields| && fields[i].Some? ==> GoName(fields[i].value) != "" && Upper(GoName(fields[i].value)[0])
  }

  // ----- The names of the mutation surface -----

  /** The methods the fields put on a draft, in order. */
  function MethodClaims(fields: seq<Option<Field>>): seq<string> {
    if fields == [] then []
    else
      var n := |fields| - 1;
      MethodClaims(fields[..n]) +
      if fields[n].Some? then [GoName(fields[n].value), "Set" + GoName(fields[n].value)] else []
  }

  /** The struct fields they put on a change set. */
  function BackingClaims(fields: seq<Option<Field>>): seq<string> {
    if fields == [] then []
    else
      var n := |fields| - 1;
      BackingClaims(fields[..n]) +
      if fields[n].Some? then [LowerFirst(GoName(fields[n].value)), LowerFirst(GoName(fields[n].value)) + "Changed"] else []
  }

  /** validateMutationNames: no name is claimed twice. */
  method ValidateMutationNames(fields: seq<Option<Field>>) returns (ok: bool)
    ensures ok <==> Distinct(MethodClaims(fields)) && Distinct(BackingClaims(fields))
  {
    hide GoName, LowerFirst, Distinct;
    var methods: set<string>, fieldNames: set<string> := {}, {};
    NothingClaimed();
    for i := 0 to |fields|
      invariant Distinct(MethodClaims(fields[..i])) && Distinct(BackingClaims(fields[..i]))
      invariant methods == Elements(MethodClaims(fields[..i])) && fieldNames == Elements(BackingClaims(fields[..i]))
    {
      ClaimsAt(fields, i);
      if fields[i].None? { continue; }
      var name := GoName(fields[i].value);
      var backing := LowerFirst(name);
      ClaimTwo(MethodClaims(fields[..i]), name, "Set" + name);
      ClaimTwo(BackingClaims(fields[..i]), backing, backing + "Changed");
      if name in methods || "Set" + name in methods + {name} || backing in fieldNames || backing + "Changed" in fieldNames + {backing} {
        ClaimsStayTaken(fields, i + 1);
        return false;
      }
      methods := methods + {name, "Set" + name};
      fieldNames := fieldNames + {backing, backing + "Changed"};
    }
    assert fields[..|fields|] == fields;
    ok := true;
  }

  lemma NothingClaimed()
    ensures Distinct(MethodClaims([])) && Distinct(BackingClaims([]))
    ensures Elements(MethodClaims([])) == {} && Elements(BackingClaims([])) == {}
  {
  }

  lemma ClaimsAt(fields: seq<Option<Field>>, i: nat)
    requires i < |fields|
    ensures MethodClaims(fields[..i + 1]) == MethodClaims(fields[..i]) +
      if fields[i].Some? then [GoName(fields[i].value), "Set" + GoName(fields[i].value)] else []
    ensures BackingClaims(fields[..i + 1]) == BackingClaims(fields[..i]) +
      if fields[i].Some? then [LowerFirst(GoName(fields[i].value)), LowerFirst(GoName(fields[i].value)) + "Changed"] else []
    ensures fields[i].None? ==>
      MethodClaims(fields[..i + 1]) == MethodClaims(fields[..i]) && BackingClaims(fields[..i + 1]) == BackingClaims(fields[..i])
  {
    assert fields[..i + 1][..i] == fields[..i];
    assert MethodClaims(fields[..i]) + [] == MethodClaims(fields[..i]);
    assert BackingClaims(fields[..i]) + [] == BackingClaims(fields[..i]);
  }

  lemma ClaimTwo(names: seq<string>, a: string, b: string)
    ensures Distinct(names + [a, b]) <==> Distinct(names) && a !in names && b !in names && a != b
    ensures Elements(names + [a, b]) == Elements(names) + {a, b}
  {
    assert names + [a, b] == (names + [a]) + [b];
    DistinctAppend(names, a);
    DistinctAppend(names + [a], b);
  }

  lemma {:induction false} ClaimsStayTaken(fields: seq<Option<Field>>, i: nat)
    requires i <= |fields|
    ensures !Distinct(MethodClaims(fields[..i])) ==> !Distinct(MethodClaims(fields))
    ensures !Distinct(BackingClaims(fields[..i])) ==> !Distinct(BackingClaims(fields))
    decreases |fields| - i
  {
    hide GoName, LowerFirst, Distinct;
    if i == |fields| {
      assert fields[..i] == fields;
    } else {
      ClaimsAt(fields, i);
      if fields[i].Some? {
        var name := GoName(fields[i].value);
        ClaimTwo(MethodClaims(fields[..i]), name, "Set" + name);
        ClaimTwo(BackingClaims(fields[..i]), LowerFirst(name), LowerFirst(name) + "Changed");
      }
      ClaimsStayTaken(fields, i + 1);
    }
  }

  /** Two fields whose mutation names meet: one is the other's setter or its presence bit. */
  ghost predicate MutationClash(f: Field, g: Field) {
    GoName(f) == "Set" + GoName(g) || GoName(f) == GoName(g) + "Changed"
  }

  ghost predicate MutationNamesOK(fields: seq<Option<Field>>) {
    forall i, j :: 0 <= i < |fields| && 0 <= j < |fields| && fields[i].Some? && fields[j].Some? ==>
      !MutationClash(fields[i].value, fields[j].value)
  }

  lemma LowerFirstInjective(a: string, b: string)
    requires a != "" && b != "" && Upper(a[0]) && Upper(b[0])
    ensures LowerFirst(a) == LowerFirst(b) <==> a == b
    ensures LowerFirst(a) == LowerFirst(b) + "Changed" <==> a == b + "Changed"
    ensures LowerFirst(b) == LowerFirst(a) + "Changed" <==> b == a + "Changed"
    ensures LowerFirst(a) + "Changed" == LowerFirst(b) + "Changed" <==> a == b
  {
    LowerFirstSame(a, b);
    LowerFirstSame(a, b + "Changed");
    LowerFirstSame(b, a + "Changed");
    assert LowerFirst(a) + "Changed" == LowerFirst(a + "Changed");
    assert LowerFirst(b) + "Changed" == LowerFirst(b + "Changed");
    assert (a + "Changed")[..|a|] == a && (b + "Changed")[..|b|] == b;
    LowerFirstSame(a + "Changed", b + "Changed");
  }

  lemma LowerFirstSame(a: string, b: string)
    requires a != "" && b != "" && Upper(a[0]) && Upper(b[0])
    ensures LowerFirst(a) == LowerFirst(b) <==> a == b
  {
    assert a == [a[0]] + a[1..] && b == [b[0]] + b[1..];
    if LowerFirst(a) == LowerFirst(b) {
      assert LowerFirst(a)[0] == LowerFirst(b)[0];
      assert LowerFirst(a)[1..] == a[1..] && LowerFirst(b)[1..] == b[1..];
    }
  }

  predicate ClaimsMethod(f: Field, w: string) { w == GoName(f) || w == "Set" + GoName(f) }

  predicate ClaimsBacking(f: Field, w: string) {
    w == LowerFirst(GoName(f)) || w == LowerFirst(GoName(f)) + "Changed"
  }

  lemma {:induction false} MethodClaimsAre(fields: seq<Option<Field>>, w: string)
    ensures w in MethodClaims(fields) <==>
      exists i :: 0 <= i < |fields| && fields[i].Some? && ClaimsMethod(fields[i].value, w)
  {
    if fields != [] {
      hide GoName;
      var n := |fields| - 1;
      MethodClaimsAre(fields[..n], w);
      assert forall i :: 0 <= i < n ==> fields[..n][i] == fields[i];
    }
  }

  lemma {:induction false} BackingClaimsAre(fields: seq<Option<Field>>, w: string)
    ensures w in BackingClaims(fields) <==>
      exists i :: 0 <= i < |fields| && fields[i].Some? && ClaimsBacking(fields[i].value, w)
  {
    if fields != [] {
      hide GoName, LowerFirst;
      var n := |fields| - 1;
      BackingClaimsAre(fields[..n], w);
      assert forall i :: 0 <= i < n ==> fields[..n][i] == fields[i];
    }
  }

  lemma NewMethodClaims(fields: seq<Option<Field>>, f: Field)
    requires forall i :: 0 <= i < |fields| && fields[i].Some? ==> GoName(fields[i].value) != GoName(f)
    ensures
      var claims := MethodClaims(fields);
      GoName(f) !in claims && "Set" + GoName(f) !in claims && GoName(f) != "Set" + GoName(f) <==>
        forall i :: 0 <= i < |fields| && fields[i].Some? ==> !SetterClash(f, fields[i].value)
  {
    hide GoName;
    var name := GoName(f);
    MethodClaimsAre(fields, name);
    MethodClaimsAre(fields, "Set" + name);
    assert |name| != |"Set" + name|;
    forall i | 0 <= i < |fields| && fields[i].Some?
      ensures SetterClash(f, fields[i].value) <==> ClaimsMethod(fields[i].value, name) || ClaimsMethod(fields[i].value, "Set" + name)
    {
      assert ("Set" + name)[3..] == name && ("Set" + GoName(fields[i].value))[3..] == GoName(fields[i].value);
    }
  }

  predicate SetterClash(f: Field, g: Field) { GoName(f) == "Set" + GoName(g) || GoName(g) == "Set" + GoName(f) }

  predicate PresenceClash(f: Field, g: Field) { GoName(f) == GoName(g) + "Changed" || GoName(g) == GoName(f) + "Changed" }

  lemma NewBackingClaims(fields: seq<Option<Field>>, f: Field)
    requires Exported(fields) && GoName(f) != "" && Upper(GoName(f)[0])
    requires forall i :: 0 <= i < |fields| && fields[i].Some? ==> GoName(fields[i].value) != GoName(f)
    ensures
      var claims, backing := BackingClaims(fields), LowerFirst(GoName(f));
      backing !in claims && backing + "Changed" !in claims && backing != backing + "Changed" <==>
        forall i :: 0 <= i < |fields| && fields[i].Some? ==> !PresenceClash(f, fields[i].value)
  {
    hide GoName, LowerFirst;
    var backing := LowerFirst(GoName(f));
    BackingClaimsAre(fields, backing);
    BackingClaimsAre(fields, backing + "Changed");
    assert |backing| != |backing + "Changed"|;
    forall i | 0 <= i < |fields| && fields[i].Some?
      ensures PresenceClash(f, fields[i].value) <==>
        ClaimsBacking(fields[i].value, backing) || ClaimsBacking(fields[i].value, backing + "Changed")
    {
      LowerFirstInjective(GoName(f), GoName(fields[i].value));
    }
  }

  lemma MutationNamesSnoc(fields: seq<Option<Field>>, f: Field)
    ensures MutationNamesOK(fields + [Some(f)]) <==>
      && MutationNamesOK(fields)
      && forall i :: 0 <= i < |fields| && fields[i].Some? ==> !SetterClash(f, fields[i].value) && !PresenceClash(f, fields[i].value)
  {
    hide GoName;
    var all := fields + [Some(f)];
    assert all[|fields|] == Some(f);
    assert forall i :: 0 <= i < |fields| ==> all[i] == fields[i];
    assert !MutationClash(f, f) by {
      assert |GoName(f)| != |"Set" + GoName(f)| && |GoName(f)| != |GoName(f) + "Changed"|;
    }
    if MutationNamesOK(all) {
      forall i | 0 <= i < |fields| && fields[i].Some? ensures !SetterClash(f, fields[i].value) && !PresenceClash(f, fields[i].value) {
        assert !MutationClash(all[|fields|].value, all[i].value) && !MutationClash(all[i].value, all[|fields|].value);
      }
      forall i, j | 0 <= i < |fields| && 0 <= j < |fields| && fields[i].Some? && fields[j].Some?
        ensures !MutationClash(fields[i].value, fields[j].value)
      {
        assert !MutationClash(all[i].value, all[j].value);
      }
    }
  }

  /** With unique exported names the guard passes exactly when no field is called like another's
      setter or presence bit. */
  lemma {:induction false} MutationNamesExactly(fields: seq<Option<Field>>)
    requires Unique(FieldGenerated, fields) && Exported(fields)
    ensures Distinct(MethodClaims(fields)) && Distinct(BackingClaims(fields)) <==> MutationNamesOK(fields)
  {
    if fields == [] {
      NothingClaimed();
    } else {
      hide GoName, LowerFirst, Distinct, MutationNamesOK, SetterClash, PresenceClash;
      var n := |fields| - 1;
      var init := fields[..n];
      assert fields[..n + 1] == fields == init + [fields[n]];
      ClaimsAt(fields, n);
      NamesPrefix(fields, n);
      MutationNamesExactly(init);
      if fields[n].Some? {
        var f := fields[n].value;
        ClaimTwo(MethodClaims(init), GoName(f), "Set" + GoName(f));
        ClaimTwo(BackingClaims(init), LowerFirst(GoName(f)), LowerFirst(GoName(f)) + "Changed");
        NewMethodClaims(init, f);
        NewBackingClaims(init, f);
        MutationNamesSnoc(init, f);
      } else {
        MutationNamesNone(init);
      }
    }
  }

  lemma MutationNamesNone(fields: seq<Option<Field>>)
    ensures MutationNamesOK(fields + [None]) <==> MutationNamesOK(fields)
  {
    hide MutationClash;
    var all := fields + [None];
    assert forall i :: 0 <= i < |fields| ==> all[i] == fields[i];
    if MutationNamesOK(all) {
      forall i, j | 0 <= i < |fields| && 0 <= j < |fields| && fields[i].Some? && fields[j].Some?
        ensures !MutationClash(fields[i].value, fields[j].value)
      {
        assert !MutationClash(all[i].value, all[j].value);
      }
    }
  }

  lemma NamesPrefix(fields: seq<Option<Field>>, n: nat)
    requires n < |fields| && Unique(FieldGenerated, fields) && Exported(fields)
    ensures Unique(FieldGenerated, fields[..n]) && Exported(fields[..n])
    ensures fields[n].Some? ==>
      forall i :: 0 <= i < n && fields[..n][i].Some? ==> GoName(fields[..n][i].value) != GoName(fields[n].value)
  {
    assert forall i :: 0 <= i < n ==> fields[..n][i] == fields[i];
    forall i | 0 <= i < n && fields[i].Some? && fields[n].Some? ensures GoName(fields[i].value) != GoName(fields[n].value) {
      assert FieldGenerated(fields[i].value) != FieldGenerated(fields[n].value);
    }
  }

  // ----- Field references -----

  const RESERVED_PACKAGE_SYMBOLS: set<string> := {"Handler", "Register", "RegisterAdmin"}

  /** packageLevelSymbols */
  function PackageSymbols(r: Resource): set<string> {
    {r.codeName, r.codeName + "View", "New" + r.codeName + "View", r.codeName + "CreateDraft", r.codeName + "UpdateChanges"}
    + (if r.hooks == [] then {} else
         {r.codeName + "Hooks", "Register" + r.codeName + "Hooks", r.codeName + "HookImpl"})
    + RESERVED_PACKAGE_SYMBOLS
  }

  /** The reference of a field has the name of the resource's model or of a type beside it. */
  predicate FieldRefClash(r: Resource, f: Field) {
    var ref := "Field" + GoName(f);
    || ref == r.codeName || ref == r.codeName + "View" || ref == r.codeName + "CreateDraft" || ref == r.codeName + "UpdateChanges"
    || (r.hooks != [] && (ref == r.codeName + "Hooks" || ref == r.codeName + "HookImpl"))
  }

  predicate FieldRefNamesOK(r: Resource) {
    forall i :: 0 <= i < |r.fields| && r.fields[i].Some? ==> !FieldRefClash(r, r.fields[i].value)
  }

  /** Of the reserved package-level symbols only those that begin with the code name can be met. */
  lemma FieldRefExactly(r: Resource, f: Field)
    ensures "Field" + GoName(f) in PackageSymbols(r) <==> FieldRefClash(r, f)
  {
    hide GoName;
    var ref := "Field" + GoName(f);
    assert ref[0] == 'F';
    assert ("New" + r.codeName + "View")[0] == 'N' && ("Register" + r.codeName + "Hooks")[0] == 'R';
    assert "Handler"[0] == 'H' && "Register"[0] == 'R' && "RegisterAdmin"[0] == 'R';
  }

  /** validateFieldRefNames */
  method ValidateFieldRefNames(r: Resource) returns (ok: bool)
    requires AllSome(r.fields)
    ensures ok <==> FieldRefNamesOK(r)
  {
    hide GoName, PackageSymbols, FieldRefClash;
    var reserved := PackageSymbols(r);
    for i := 0 to |r.fields|
      invariant forall k :: 0 <= k < i && r.fields[k].Some? ==> !FieldRefClash(r, r.fields[k].value)
    {
      FieldRefExactly(r, r.fields[i].value);
      if "Field" + GoName(r.fields[i].value) in reserved { return false; }
    }
    ok := true;
  }

  // ----- Source go/format cannot parse -----

  /** A value kept under a Go keyword is a syntax error. */
  predicate NoKeywordBacking(fields: seq<Option<Field>>) {
    forall i :: 0 <= i < |fields| && fields[i].Some? ==> LowerFirst(GoName(fields[i].value)) !in GO_KEYWORDS
  }

  /** go/parser takes an import path whose every character it finds legal. */
  ghost predicate ImportPath(legal: char -> bool, path: string) {
    path != "" && forall i :: 0 <= i < |path| ==> legal(path[i])
  }

  /** What go/parser finds legal holds the characters of identifiers and the slash. */
  ghost predicate KnowsPaths(legal: char -> bool) {
    forall c :: IdentChar(c) || c == '/' ==> legal(c)
  }

  predicate LegalModule(legal: char -> bool, mod: string) {
    mod != "" && forall i :: 0 <= i < |mod| ==> legal(mod[i])
  }

  lemma ImportExactly(legal: char -> bool, mod: string, rest: string)
    requires KnowsPaths(legal) && mod != "" && forall i :: 0 <= i < |rest| ==> IdentChar(rest[i]) || rest[i] == '/'
    ensures ImportPath(legal, mod + "/" + rest) <==> LegalModule(legal, mod)
  {
    var path := mod + "/" + rest;
    forall i | 0 <= i < |path| ensures legal(path[i]) || (i < |mod| && path[i] == mod[i]) {
      if i > |mod| { assert path[i] == rest[i - |mod| - 1]; }
    }
    if ImportPath(legal, path) {
      forall i | 0 <= i < |mod| ensures legal(mod[i]) { assert path[i] == mod[i]; }
    }
  }

  // ----- Defaults in struct tags -----

  predicate QuotedInTag(kind: FieldType) {
    kind.TString? || kind.TText? || kind.TEnum? || kind.TDate? || kind.TDatetime?
  }

  /** gormDefault fails on a quoted default with a character a tag cannot carry. */
  predicate TagFits(f: Field) { f.default.Some? && QuotedInTag(f.kind) ==> IsSafeDefaultValue(f.default.value) }

  predicate TagsFit(fields: seq<Option<Field>>) {
    forall i :: 0 <= i < |fields| && fields[i].Some? ==> TagFits(fields[i].value)
  }

  /** Only the dates: the other defaults were checked with the spec. */
  predicate DateTagsFit(fields: seq<Option<Field>>) {
    forall i :: 0 <= i < |fields| && fields[i].Some? && (fields[i].value.kind.TDate? || fields[i].value.kind.TDatetime?) ==>
      TagFits(fields[i].value)
  }

  lemma ValidTags(lib: Library, s: ProjectSpec, fields: seq<Option<Field>>)
    requires FieldsOK(lib, s, fields)
    ensures TagsFit(fields) <==> DateTagsFit(fields)
  {
    hide FieldTypeOK, IsSafeDefaultValue, Unique;
    forall i | 0 <= i < |fields| && fields[i].Some? && !fields[i].value.kind.TDate? && !fields[i].value.kind.TDatetime?
      ensures TagFits(fields[i].value)
    {
      assert FieldOK(lib, s, fields[i].value);
    }
  }

  lemma ValidAreExported(lib: Library, s: ProjectSpec, fields: seq<Option<Field>>)
    requires FieldsOK(lib, s, fields)
    ensures Exported(fields)
  {
    hide FieldTypeOK, DefaultOK, Unique, IsReservedCodeName;
    forall i | 0 <= i < |fields| && fields[i].Some?
      ensures GoName(fields[i].value) != "" && Upper(GoName(fields[i].value)[0])
    {
      assert FieldOK(lib, s, fields[i].value);
    }
  }
}
