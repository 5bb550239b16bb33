/** The accumulating validator of internal/spec/validate.go: one pass over the spec, mutable
    dedup tables, every failure reported. A diagnostic keeps its code and the offending
    entity; paths and message texts are left out. */
module Validator {
  import opened Text
  import opened Names
  import opened Spec
  import opened WellFormed

  datatype Code =
    | SpecVersionUnsupported | MissingID | MalformedID | DuplicateID | InvalidSlug | DuplicateSlug
    | InvalidStorage | DuplicateStorage | InvalidCodeName | DuplicateCode | MissingLabel
    | UnknownFieldType | DanglingRef | InvalidEnum | InvalidDriver | InvalidAuth | InvalidPage
    | InvalidNav | EmptyProject | InvalidDefault | ReservedName | PageMismatch | InvalidHook
    | DuplicateForm | DuplicateDetail | InvalidBranding | InvalidCapability

  datatype Diagnostic = Diagnostic(code: Code, entity: ID)

  class Validator {
    const lib: Library
    const spec: ProjectSpec
    var out: seq<Diagnostic>
    /** Go keeps the claiming path beside each ID, for the message only. */
    var seenIDs: set<ID>
    /** Every ID offered to claimID so far, in order. */
    ghost var claimed: seq<ID>

    /** While nothing has been reported, the table holds exactly the claimed IDs, all distinct. */
    ghost predicate Valid()
      reads this
    {
      out == [] ==> Distinct(claimed) && seenIDs == Elements(claimed)
    }

    constructor (lib: Library, spec: ProjectSpec)
      ensures this.lib == lib && this.spec == spec
      ensures out == [] && claimed == [] && Valid()
    {
      this.lib := lib;
      this.spec := spec;
      out := [];
      seenIDs := {};
      claimed := [];
    }

    method Report(code: Code, entity: ID)
      modifies this`out
      ensures out == old(out) + [Diagnostic(code, entity)]
    {
      out := out + [Diagnostic(code, entity)];
    }

    method ClaimID(id: ID, kind: Kind)
      requires Valid()
      modifies this
      ensures Valid()
      ensures claimed == old(claimed) + [id]
      ensures |old(out)| <= |out|
      ensures out == [] <==> old(out) == [] && ValidID(id, kind) && Distinct(claimed)
      ensures ValidID(id, kind) && id in old(seenIDs) ==> out == old(out) + [Diagnostic(DuplicateID, id)]
      ensures id != "" && !ValidID(id, kind) ==> out == old(out) + [Diagnostic(MalformedID, id)]
      ensures id == "" ==> out == old(out) + [Diagnostic(MissingID, "")]
    {
      DistinctAppend(claimed, id);
      claimed := claimed + [id];
      if id == "" {
        Report(MissingID, "");
        return;
      }
      if !ValidID(id, kind) {
        Report(MalformedID, id);
        return;
      }
      if id in seenIDs {
        Report(DuplicateID, id);
        return;
      }
      seenIDs := seenIDs + {id};
    }

    method ValidateProject()
      requires Valid()
      modifies this
      ensures Valid()
      ensures claimed == old(claimed) + [spec.project.id]
      ensures out == [] <==> old(out) == [] && ProjectOK(spec) && Distinct(claimed)
    {
      var project := spec.project;
      ClaimID(project.id, KindProject);
      if IsBlank(project.name) {
        Report(MissingLabel, project.id);
      }
      if !IsSlug(project.slug) {
        Report(InvalidSlug, project.id);
      }
      if spec.driver.UnknownDriver? {
        Report(InvalidDriver, project.id);
      }
      if spec.auth.UnknownMode? {
        Report(InvalidAuth, project.id);
      }
    }

    method ValidateHooks(r: Resource)
      requires Valid()
      modifies this
      ensures Valid()
      ensures claimed == old(claimed) + HookIDs(r.hooks)
      ensures out == [] <==> old(out) == [] && HooksOK(r.hooks) && Distinct(claimed)
    {
      hide Distinct, Elements, HooksOK, HasKey, Unique;
      var seenEvents: map<HookEvent, ID> := map[];
      EmptySections(lib, spec);
      KeyStep(EventOf, r.hooks, 0);
      for i := 0 to |r.hooks|
        invariant Valid()
        invariant claimed == old(claimed) + HookIDs(r.hooks[..i])
        invariant out == [] <==> old(out) == [] && HooksOK(r.hooks[..i]) && Distinct(claimed)
        invariant out == [] ==> forall e :: e in seenEvents <==> HasKey(EventOf, r.hooks[..i], e)
      {
        HooksStep(r.hooks, i);
        KeyStep(EventOf, r.hooks, i);
        IDsStep(HookID, r.hooks, i);
        if r.hooks[i].None? {
          Report(InvalidHook, r.id);
          continue;
        }
        var hook := r.hooks[i].value;
        DistinctAppend(claimed, hook.id);
        ClaimID(hook.id, KindHook);
        if !hook.event.Supported() {
          Report(InvalidHook, hook.id);
          continue;
        }
        if hook.event in seenEvents {
          Report(InvalidHook, hook.id);
          continue;
        }
        seenEvents := seenEvents[hook.event := hook.id];
      }
      assert r.hooks[..|r.hooks|] == r.hooks;
    }

    method ValidateFieldType(f: Field)
      modifies this`out
      ensures |old(out)| <= |out|
      ensures |out| == |old(out)| <==> FieldTypeOK(spec, f)
    {
      match f.kind {
        case TEnum =>
          if f.enumValues == [] {
            Report(InvalidEnum, f.id);
          }
          var seen: set<string> := {};
          ghost var before := out;
          for i := 0 to |f.enumValues|
            invariant |old(out)| <= |before| <= |out|
            invariant |out| == |before| <==> EnumOK(f.enumValues[..i])
            invariant |out| == |before| ==> forall v :: v in seen <==> Declares(f.enumValues[..i], v)
          {
            var v := f.enumValues[i].value;
            EnumSnoc(f.enumValues, i);
            if IsBlank(v) {
              Report(InvalidEnum, f.id);
              continue;
            }
            if v in seen {
              Report(InvalidEnum, f.id);
              continue;
            }
            seen := seen + {v};
          }
          assert f.enumValues[..|f.enumValues|] == f.enumValues;
        case TBelongsTo =>
          if f.target == "" {
            Report(DanglingRef, f.id);
            return;
          }
          if FindResource(spec.resources, f.target).None? {
            Report(DanglingRef, f.id);
          }
        case _ =>
          if f.enumValues != [] {
            Report(InvalidEnum, f.id);
          }
          if f.target != "" {
            Report(DanglingRef, f.id);
          }
      }
    }

    method ValidateFieldDefault(f: Field)
      modifies this`out
      ensures out == if DefaultOK(lib, f) then old(out) else old(out) + [Diagnostic(InvalidDefault, f.id)]
    {
      if f.default.None? {
        return;
      }
      var value := f.default.value;
      match f.kind {
        case TString | TText =>
          if !IsSafeDefaultValue(value) {
            Report(InvalidDefault, f.id);
          }
        case TInteger =>
          if !IsInt64Literal(value) {
            Report(InvalidDefault, f.id);
          }
        case TDecimal =>
          var decimal := ScanDecimalLiteral(value);
          if !decimal {
            Report(InvalidDefault, f.id);
          }
        case TBoolean =>
          if value != "true" && value != "false" {
            Report(InvalidDefault, f.id);
          }
        case TDatetime =>
          if !lib.isRFC3339(value) {
            Report(InvalidDefault, f.id);
          }
        case TDate =>
          if !lib.isDateOnly(value) {
            Report(InvalidDefault, f.id);
          }
        case TEnum =>
          for i := 0 to |f.enumValues|
            invariant out == old(out)
            invariant forall k :: 0 <= k < i ==> f.enumValues[k].value != value
          {
            if f.enumValues[i].value == value {
              if !IsSafeDefaultValue(value) {
                Report(InvalidDefault, f.id);
              }
              return;
            }
          }
          Report(InvalidDefault, f.id);
        case TBelongsTo =>
          Report(InvalidDefault, f.id);
        case UnknownType(_) =>
      }
    }

    method ValidateFieldSymbol(f: Field, codeNames: map<string, ID>, generatedNames: map<string, ID>)
      returns (codeNames': map<string, ID>, generatedNames': map<string, ID>)
      modifies this`out
      ensures |old(out)| <= |out|
      ensures |out| == |old(out)| <==>
        && IsExportedGoIdent(f.codeName) && !IsReservedCodeName(f.codeName)
        && !IsReservedCodeName(GeneratedFieldName(f.codeName, f.kind))
        && f.codeName !in codeNames
        && GeneratedFieldName(f.codeName, f.kind) !in generatedNames
      ensures |out| == |old(out)| ==>
        && codeNames' == codeNames[f.codeName := f.id]
        && generatedNames' == generatedNames[GeneratedFieldName(f.codeName, f.kind) := f.id]
    {
      hide IsExportedGoIdent, IsReservedCodeName;
      codeNames', generatedNames' := codeNames, generatedNames;
      if !IsExportedGoIdent(f.codeName) {
        Report(InvalidCodeName, f.id);
      } else if IsReservedCodeName(f.codeName) {
        Report(ReservedName, f.id);
      } else if f.codeName in codeNames {
        Report(DuplicateCode, f.id);
      } else {
        codeNames' := codeNames[f.codeName := f.id];
        var generated := GeneratedFieldName(f.codeName, f.kind);
        if generated != f.codeName && IsReservedCodeName(generated) {
          Report(ReservedName, f.id);
        }
        if generated in generatedNames {
          Report(DuplicateCode, f.id);
        } else {
          generatedNames' := generatedNames[generated := f.id];
        }
      }
    }

    method ValidateFieldStorage(f: Field, storage: map<string, ID>) returns (storage': map<string, ID>)
      modifies this`out
      ensures |old(out)| <= |out|
      ensures |out| == |old(out)| <==>
        IsStorageName(f.storageName) && !IsReservedStorageName(f.storageName) && f.storageName !in storage
      ensures |out| == |old(out)| ==> storage' == storage[f.storageName := f.id]
    {
      storage' := storage;
      if !IsStorageName(f.storageName) {
        Report(InvalidStorage, f.id);
      } else if IsReservedStorageName(f.storageName) {
        Report(ReservedName, f.id);
      } else if f.storageName in storage {
        Report(DuplicateStorage, f.id);
      } else {
        storage' := storage[f.storageName := f.id];
      }
    }

    method ValidateField(f: Field, codeNames: map<string, ID>, generatedNames: map<string, ID>, storage: map<string, ID>)
      returns (codeNames': map<string, ID>, generatedNames': map<string, ID>, storage': map<string, ID>)
      requires Valid()
      modifies this
      ensures Valid()
      ensures claimed == old(claimed) + [f.id]
      ensures out == [] <==>
        && old(out) == [] && FieldOK(lib, spec, f) && Distinct(claimed)
        && f.codeName !in codeNames
        && GeneratedFieldName(f.codeName, f.kind) !in generatedNames
        && f.storageName !in storage
      ensures out == [] ==>
        && codeNames' == codeNames[f.codeName := f.id]
        && generatedNames' == generatedNames[GeneratedFieldName(f.codeName, f.kind) := f.id]
        && storage' == storage[f.storageName := f.id]
    {
      hide Distinct, Elements, ValidID, FieldTypeOK, DefaultOK, IsBlank, IsExportedGoIdent, IsStorageName;
      hide IsReservedCodeName, IsReservedStorageName;
      DistinctAppend(claimed, f.id);
      ClaimID(f.id, KindField);
      if IsBlank(f.caption) {
        Report(MissingLabel, f.id);
      }
      if !f.kind.Supported() {
        Report(UnknownFieldType, f.id);
      }
      codeNames', generatedNames' := ValidateFieldSymbol(f, codeNames, generatedNames);
      storage' := ValidateFieldStorage(f, storage);
      ValidateFieldType(f);
      ValidateFieldDefault(f);
    }

    method ValidateFields(r: Resource)
      requires Valid()
      modifies this
      ensures Valid()
      ensures claimed == old(claimed) + FieldIDs(r.fields)
      ensures out == [] <==> old(out) == [] && FieldsOK(lib, spec, r.fields) && Distinct(claimed)
    {
      hide Distinct, Elements, FieldsOK, FieldOK, HasKey, Unique, IDs;
      var codeNames: map<string, ID> := map[];
      var storage: map<string, ID> := map[];
      var generatedNames: map<string, ID> := map[];
      EmptySections(lib, spec);
      KeyStep(FieldCode, r.fields, 0);
      KeyStep(FieldGenerated, r.fields, 0);
      KeyStep(FieldStorage, r.fields, 0);
      IDsStep(FieldID, r.fields, 0);
      for i := 0 to |r.fields|
        invariant Valid()
        invariant claimed == old(claimed) + FieldIDs(r.fields[..i])
        invariant out == [] <==> old(out) == [] && FieldsOK(lib, spec, r.fields[..i]) && Distinct(claimed)
        invariant out == [] ==> forall k :: k in codeNames <==> HasKey(FieldCode, r.fields[..i], k)
        invariant out == [] ==> forall k :: k in generatedNames <==> HasKey(FieldGenerated, r.fields[..i], k)
        invariant out == [] ==> forall k :: k in storage <==> HasKey(FieldStorage, r.fields[..i], k)
      {
        FieldsStep(lib, spec, r.fields, i);
        KeyStep(FieldCode, r.fields, i);
        KeyStep(FieldGenerated, r.fields, i);
        KeyStep(FieldStorage, r.fields, i);
        IDsStep(FieldID, r.fields, i);
        if r.fields[i].None? {
          Report(EmptyProject, r.id);
          continue;
        }
        DistinctAppend(claimed, r.fields[i].value.id);
        codeNames, generatedNames, storage :=
          ValidateField(r.fields[i].value, codeNames, generatedNames, storage);
      }
      assert r.fields[..|r.fields|] == r.fields;
    }

    method ValidateCapability(c: Capability, ids: seq<ID>, r: Resource)
      modifies this`out
      ensures |old(out)| <= |out|
      ensures |out| == |old(out)| <==> CapabilityOK(c, ids, r.fields)
    {
      for i := 0 to |ids|
        invariant |old(out)| <= |out|
        invariant |out| == |old(out)| <==> CapabilityOK(c, ids[..i], r.fields)
      {
        CapabilityStep(c, ids, i, r.fields);
        hide CapabilityOK;
        var f := FindField(r.fields, ids[i]);
        if f.None? {
          Report(DanglingRef, ids[i]);
          continue;
        }
        if !Accepts(c, f.value.kind) {
          Report(InvalidCapability, ids[i]);
        }
      }
      assert ids[..|ids|] == ids;
    }

    method ValidateBehavior(r: Resource)
      modifies this`out
      ensures |old(out)| <= |out|
      ensures |out| == |old(out)| <==> BehaviorOK(r)
    {
      ValidateCapability(List, r.behavior.list, r);
      ValidateCapability(Searchable, r.behavior.searchable, r);
      ValidateCapability(Sortable, r.behavior.sortable, r);
      ValidateCapability(Filterable, r.behavior.filterable, r);
      ValidateCapability(Aggregatable, r.behavior.aggregatable, r);
    }

    method ValidateResource(r: Resource, codeNames: map<string, ID>, storage: map<string, ID>)
      returns (codeNames': map<string, ID>, storage': map<string, ID>)
      requires Valid()
      modifies this
      ensures Valid()
      ensures claimed == old(claimed) + ([r.id] + FieldIDs(r.fields) + HookIDs(r.hooks))
      ensures out == [] <==>
        && old(out) == [] && ResourceOK(lib, spec, r) && Distinct(claimed)
        && r.codeName !in codeNames && r.storageName !in storage
      ensures out == [] ==>
        codeNames' == codeNames[r.codeName := r.id] && storage' == storage[r.storageName := r.id]
    {
      hide Distinct, Elements, ValidID, FieldsOK, BehaviorOK, HooksOK, IsBlank, FieldIDs, HookIDs, IsExportedGoIdent, IsStorageName;
      codeNames', storage' := codeNames, storage;
      DistinctConcat(claimed, [r.id], FieldIDs(r.fields), HookIDs(r.hooks));
      ClaimID(r.id, KindResource);
      if IsBlank(r.caption) {
        Report(MissingLabel, r.id);
      }
      if !IsExportedGoIdent(r.codeName) {
        Report(InvalidCodeName, r.id);
      } else if r.codeName in codeNames {
        Report(DuplicateCode, r.id);
      } else {
        codeNames' := codeNames[r.codeName := r.id];
      }
      if !IsStorageName(r.storageName) {
        Report(InvalidStorage, r.id);
      } else if r.storageName in storage {
        Report(DuplicateStorage, r.id);
      } else {
        storage' := storage[r.storageName := r.id];
      }
      ValidateFields(r);
      ValidateBehavior(r);
      ValidateHooks(r);
    }

    method ValidateResources()
      requires Valid()
      modifies this
      ensures Valid()
      ensures claimed == old(claimed) + ResourceIDs(spec.resources)
      ensures out == [] <==> old(out) == [] && ResourcesOK(lib, spec, spec.resources) && Distinct(claimed)
    {
      hide Distinct, Elements, ResourcesOK, ResourceOK, HasKey, Unique, FieldIDs, HookIDs, ResourceIDs;
      var codeNames: map<string, ID> := map[];
      var storage: map<string, ID> := map[];
      EmptySections(lib, spec);
      NoResourceIDs();
      assert spec.resources[..0] == [];
      KeyStep(ResourceCode, spec.resources, 0);
      KeyStep(ResourceStorage, spec.resources, 0);
      for i := 0 to |spec.resources|
        invariant Valid()
        invariant claimed == old(claimed) + ResourceIDs(spec.resources[..i])
        invariant out == [] <==>
          old(out) == [] && ResourcesOK(lib, spec, spec.resources[..i]) && Distinct(claimed)
        invariant out == [] ==> forall k :: k in codeNames <==> HasKey(ResourceCode, spec.resources[..i], k)
        invariant out == [] ==> forall k :: k in storage <==> HasKey(ResourceStorage, spec.resources[..i], k)
      {
        ResourcesStep(lib, spec, spec.resources, i);
        KeyStep(ResourceCode, spec.resources, i);
        KeyStep(ResourceStorage, spec.resources, i);
        if spec.resources[i].None? {
          Report(EmptyProject, "");
          continue;
        }
        var r := spec.resources[i].value;
        DistinctConcat(claimed, [r.id], FieldIDs(r.fields), HookIDs(r.hooks));
        codeNames, storage := ValidateResource(r, codeNames, storage);
      }
      assert spec.resources[..|spec.resources|] == spec.resources;
    }

    method ValidatePageConfigMatchesType(p: Page)
      modifies this`out
      ensures |old(out)| <= |out|
      ensures |out| == |old(out)| <==> OnlyItsOwnConfig(p)
    {
      if p.table.Some? && !p.kind.ResourceTable? {
        Report(PageMismatch, p.id);
      }
      if p.form.Some? && !p.kind.ResourceForm? {
        Report(PageMismatch, p.id);
      }
      if p.dashboard.Some? && !p.kind.DashboardPage? {
        Report(PageMismatch, p.id);
      }
    }

    method ValidateReferences(ids: seq<ID>, r: Resource)
      modifies this`out
      ensures |old(out)| <= |out|
      ensures |out| == |old(out)| <==> AllOnResource(ids, r)
    {
      for i := 0 to |ids|
        invariant |old(out)| <= |out|
        invariant |out| == |old(out)| <==> AllOnResource(ids[..i], r)
      {
        assert ids[..i + 1] == ids[..i] + [ids[i]];
        if FindField(r.fields, ids[i]).None? {
          Report(DanglingRef, ids[i]);
        }
      }
      assert ids[..|ids|] == ids;
    }

    method ValidateFilters(t: TableConfig, r: Resource)
      modifies this`out
      ensures |old(out)| <= |out|
      ensures |out| == |old(out)| <==>
        AllOnResource(t.filters, r) && forall i :: 0 <= i < |t.filters| ==> t.filters[i] in r.behavior.filterable
    {
      var filterable := set id | id in r.behavior.filterable;
      for i := 0 to |t.filters|
        invariant |old(out)| <= |out|
        invariant |out| == |old(out)| <==>
          forall k :: 0 <= k < i ==> FindField(r.fields, t.filters[k]).Some? && t.filters[k] in r.behavior.filterable
      {
        if FindField(r.fields, t.filters[i]).None? {
          Report(DanglingRef, t.filters[i]);
          continue;
        }
        if t.filters[i] !in filterable {
          Report(InvalidCapability, t.filters[i]);
        }
      }
    }

    method ValidateResourcePage(p: Page)
      modifies this`out
      ensures |old(out)| <= |out|
      ensures |out| == |old(out)| <==> ResourcePageOK(spec, p)
    {
      if p.resource == "" {
        Report(DanglingRef, p.id);
        return;
      }
      var found := FindResource(spec.resources, p.resource);
      if found.None? {
        Report(DanglingRef, p.id);
        return;
      }
      var r := found.value;
      if p.table.Some? {
        var t := p.table.value;
        ValidateReferences(t.columns, r);
        if t.pageSize < 0 {
          Report(InvalidPage, p.id);
        }
        if t.search && r.behavior.searchable == [] {
          Report(InvalidCapability, p.id);
        }
        ValidateFilters(t, r);
      }
      if p.form.Some? {
        var form := p.form.value;
        ValidateReferences(form.fields, r);
        if form.layout !in {"", "single_column", "two_column", "section_groups"} {
          Report(InvalidPage, p.id);
        }
      }
    }

    method ValidateCardOrderBy(p: Page, recent: bool, c: Card, r: Option<Resource>)
      modifies this`out
      ensures |old(out)| <= |out|
      ensures !recent ==> (|out| == |old(out)| <==> c.orderBy == "")
      ensures recent ==> (|out| == |old(out)| <==> (c.orderBy == "" || r.None? || RecencyOK(r.value, c.orderBy)))
    {
      if !recent {
        if c.orderBy != "" {
          Report(InvalidPage, p.id);
        }
        return;
      }
      if c.orderBy == "" || r.None? {
        return;
      }
      var f := FindField(r.value.fields, c.orderBy);
      if f.None? {
        Report(DanglingRef, c.orderBy);
        return;
      }
      if c.orderBy !in r.value.behavior.sortable {
        Report(InvalidCapability, c.orderBy);
      }
      if !f.value.kind.TDate? && !f.value.kind.TDatetime? {
        Report(InvalidCapability, c.orderBy);
      }
    }

    method ValidateCards(p: Page, recent: bool, cards: seq<Card>)
      modifies this`out
      ensures |old(out)| <= |out|
      ensures |out| == |old(out)| <==> forall i :: 0 <= i < |cards| ==>
        if recent then RecentOK(spec, cards[i]) else CardOK(spec, cards[i]) && cards[i].orderBy == ""
    {
      for i := 0 to |cards|
        invariant |old(out)| <= |out|
        invariant |out| == |old(out)| <==> forall k :: 0 <= k < i ==>
          if recent then RecentOK(spec, cards[k]) else CardOK(spec, cards[k]) && cards[k].orderBy == ""
      {
        var c := cards[i];
        var r := FindResource(spec.resources, c.resource);
        if r.None? {
          Report(DanglingRef, p.id);
        }
        if IsBlank(c.caption) {
          Report(MissingLabel, p.id);
        }
        ValidateCardOrderBy(p, recent, c, r);
      }
    }

    method ValidateAggregateCards(p: Page, cards: seq<AggregateCard>)
      modifies this`out
      ensures |old(out)| <= |out|
      ensures |out| == |old(out)| <==> forall i :: 0 <= i < |cards| ==> AggregateOK(spec, cards[i])
    {
      for i := 0 to |cards|
        invariant |old(out)| <= |out|
        invariant |out| == |old(out)| <==> forall k :: 0 <= k < i ==> AggregateOK(spec, cards[k])
      {
        var c := cards[i];
        var r := FindResource(spec.resources, c.resource);
        if r.None? {
          Report(DanglingRef, p.id);
        }
        if IsBlank(c.caption) {
          Report(MissingLabel, p.id);
        }
        if c.op.UnknownOp? {
          Report(InvalidPage, p.id);
        }
        if r.Some? {
          if FindField(r.value.fields, c.field).None? {
            Report(DanglingRef, c.field);
          } else if c.field !in r.value.behavior.aggregatable {
            Report(InvalidCapability, c.field);
          }
        }
      }
    }

    method ValidateDashboardPage(p: Page)
      modifies this`out
      ensures |old(out)| <= |out|
      ensures |out| == |old(out)| <==> p.resource == "" && (p.dashboard.Some? ==> DashboardOK(spec, p.dashboard.value))
    {
      if p.resource != "" {
        Report(InvalidPage, p.id);
      }
      if p.dashboard.None? {
        return;
      }
      ValidateCards(p, false, p.dashboard.value.countCards);
      ValidateCards(p, true, p.dashboard.value.recentLists);
      ValidateAggregateCards(p, p.dashboard.value.aggregateCards);
    }

    method ValidatePage(p: Page, slugs: map<string, ID>, forms: map<ID, ID>, details: map<ID, ID>)
      returns (slugs': map<string, ID>, forms': map<ID, ID>, details': map<ID, ID>)
      requires Valid()
      modifies this
      ensures Valid()
      ensures claimed == old(claimed) + [p.id]
      ensures out == [] <==>
        && old(out) == [] && PageOK(spec, p) && Distinct(claimed)
        && p.slug !in slugs
        && (p.kind.ResourceForm? ==> p.resource !in forms)
        && (p.kind.ResourceDetail? ==> p.resource !in details)
      ensures out == [] ==>
        && slugs' == slugs[p.slug := p.id]
        && forms' == (if p.kind.ResourceForm? then forms[p.resource := p.id] else forms)
        && details' == (if p.kind.ResourceDetail? then details[p.resource := p.id] else details)
    {
      hide Distinct, Elements, ValidID, IsBlank, IsSlug, OnlyItsOwnConfig, DashboardOK, TableOK, FormOK;
      slugs', forms', details' := slugs, forms, details;
      DistinctAppend(claimed, p.id);
      ClaimID(p.id, KindPage);
      if IsBlank(p.caption) {
        Report(MissingLabel, p.id);
      }
      if !IsSlug(p.slug) {
        Report(InvalidSlug, p.id);
      } else if p.slug in slugs {
        Report(DuplicateSlug, p.id);
      } else {
        slugs' := slugs[p.slug := p.id];
      }
      if p.kind.OnResource() {
        ValidatePageConfigMatchesType(p);
        ValidateResourcePage(p);
        if p.kind.ResourceForm? && p.resource != "" {
          if p.resource in forms {
            Report(DuplicateForm, p.id);
          } else {
            forms' := forms[p.resource := p.id];
          }
        }
        if p.kind.ResourceDetail? && p.resource != "" {
          if p.resource in details {
            Report(DuplicateDetail, p.id);
          } else {
            details' := details[p.resource := p.id];
          }
        }
      } else if p.kind.DashboardPage? {
        ValidatePageConfigMatchesType(p);
        ValidateDashboardPage(p);
      } else {
        Report(InvalidPage, p.id);
      }
    }

    method ValidatePages()
      requires Valid()
      modifies this
      ensures Valid()
      ensures claimed == old(claimed) + IDs(PageID, spec.pages)
      ensures out == [] <==> old(out) == [] && PagesOK(spec, spec.pages) && Distinct(claimed)
    {
      hide Distinct, Elements, PagesOK, PageOK, HasKey, Unique, IDs;
      var slugs: map<string, ID> := map[];
      var formByResource: map<ID, ID> := map[];
      var detailByResource: map<ID, ID> := map[];
      EmptySections(lib, spec);
      KeyStep(PageSlug, spec.pages, 0);
      KeyStep(FormOf, spec.pages, 0);
      KeyStep(DetailOf, spec.pages, 0);
      IDsStep(PageID, spec.pages, 0);
      for i := 0 to |spec.pages|
        invariant Valid()
        invariant claimed == old(claimed) + IDs(PageID, spec.pages[..i])
        invariant out == [] <==> old(out) == [] && PagesOK(spec, spec.pages[..i]) && Distinct(claimed)
        invariant out == [] ==> forall k :: k in slugs <==> HasKey(PageSlug, spec.pages[..i], k)
        invariant out == [] ==> forall k :: k in formByResource <==> HasKey(FormOf, spec.pages[..i], k)
        invariant out == [] ==> forall k :: k in detailByResource <==> HasKey(DetailOf, spec.pages[..i], k)
      {
        PagesStep(spec, spec.pages, i);
        KeyStep(PageSlug, spec.pages, i);
        KeyStep(FormOf, spec.pages, i);
        KeyStep(DetailOf, spec.pages, i);
        IDsStep(PageID, spec.pages, i);
        if spec.pages[i].None? {
          Report(EmptyProject, "");
          continue;
        }
        DistinctAppend(claimed, spec.pages[i].value.id);
        slugs, formByResource, detailByResource :=
          ValidatePage(spec.pages[i].value, slugs, formByResource, detailByResource);
      }
      assert spec.pages[..|spec.pages|] == spec.pages;
    }

    method ValidateNavItem(item: NavItem)
      requires Valid()
      modifies this
      ensures Valid()
      ensures claimed == old(claimed) + [item.id]
      ensures out == [] <==> old(out) == [] && NavOK(spec, item) && Distinct(claimed)
    {
      hide Distinct, Elements, ValidID, IsBlank;
      DistinctAppend(claimed, item.id);
      ClaimID(item.id, KindNav);
      if IsBlank(item.caption) {
        Report(MissingLabel, item.id);
      }
      match item.target {
        case NavPage =>
          if item.url != "" {
            Report(InvalidNav, item.id);
          }
          var target := FindPage(spec.pages, item.page);
          if item.page == "" {
            Report(DanglingRef, item.id);
          } else if target.None? {
            Report(DanglingRef, item.id);
          } else if !target.value.kind.DashboardPage? && !target.value.kind.ResourceTable? {
            Report(InvalidNav, item.id);
          }
        case NavExternal =>
          if item.page != "" {
            Report(InvalidNav, item.id);
          }
          if !HasPrefix(item.url, "http://") && !HasPrefix(item.url, "https://") {
            Report(InvalidNav, item.id);
          }
        case UnknownTarget(_) =>
          Report(InvalidNav, item.id);
      }
    }

    method ValidateNavigation()
      requires Valid()
      modifies this
      ensures Valid()
      ensures claimed == old(claimed) + IDs(NavID, spec.navigation)
      ensures out == [] <==> old(out) == [] && NavigationOK(spec, spec.navigation) && Distinct(claimed)
    {
      hide Distinct, Elements, NavigationOK, NavOK;
      EmptySections(lib, spec);
      for i := 0 to |spec.navigation|
        invariant Valid()
        invariant claimed == old(claimed) + IDs(NavID, spec.navigation[..i])
        invariant out == [] <==> old(out) == [] && NavigationOK(spec, spec.navigation[..i]) && Distinct(claimed)
      {
        NavigationStep(spec, spec.navigation, i);
        IDsStep(NavID, spec.navigation, i);
        if spec.navigation[i].None? {
          Report(EmptyProject, "");
          continue;
        }
        DistinctAppend(claimed, spec.navigation[i].value.id);
        ValidateNavItem(spec.navigation[i].value);
      }
      assert spec.navigation[..|spec.navigation|] == spec.navigation;
    }

    method ValidateBranding()
      modifies this`out
      ensures |old(out)| <= |out|
      ensures |out| == |old(out)| <==> BrandingOK(spec.branding)
    {
      if spec.branding.None? {
        return;
      }
      var b := spec.branding.value;
      if b.accentColor != "" && !IsHexColor(b.accentColor) {
        Report(InvalidBranding, "");
      }
      if b.appearance !in {"", "light", "dark", "system"} {
        Report(InvalidBranding, "");
      }
    }
  }

  /** Validate returns no diagnostic exactly when the spec is well formed; a nil spec never is. */
  method Validate(lib: Library, s: Option<ProjectSpec>) returns (out: seq<Diagnostic>)
    ensures out == [] <==> s.Some? && WellFormedSpec(lib, s.value)
    ensures s.None? ==> out == [Diagnostic(EmptyProject, "")]
  {
    hide ProjectOK, ResourcesOK, PagesOK, NavigationOK, BrandingOK;
    if s.None? {
      return [Diagnostic(EmptyProject, "")];
    }
    var v := new Validator(lib, s.value);
    if s.value.version != SPEC_VERSION {
      v.Report(SpecVersionUnsupported, "");
    }
    v.ValidateProject();
    v.ValidateResources();
    v.ValidatePages();
    v.ValidateNavigation();
    v.ValidateBranding();
    DistinctConcat([s.value.project.id], ResourceIDs(s.value.resources),
                   IDs(PageID, s.value.pages), IDs(NavID, s.value.navigation));
    assert [] + [s.value.project.id] == [s.value.project.id];
    return v.out;
  }

  // ----- One step of each walk: what a prefix one entry longer means -----

  lemma DistinctConcat(a: seq<ID>, b: seq<ID>, c: seq<ID>, d: seq<ID>)
    ensures a + b + c + d == a + (b + c + d)
    ensures Distinct(a + b + c + d) ==> Distinct(a) && Distinct(a + b) && Distinct(a + b + c)
  {
    assert a + b + c + d == a + (b + c + d);
    if Distinct(a + b + c + d) {
      DistinctPrefix(a + b + c, d);
      DistinctPrefix(a + b, c);
      DistinctPrefix(a, b);
    }
  }

  lemma EnumSnoc(values: seq<EnumValue>, i: nat)
    requires i < |values|
    ensures EnumOK(values[..i + 1]) <==>
      EnumOK(values[..i]) && !IsBlank(values[i].value) && !Declares(values[..i], values[i].value)
    ensures forall v :: Declares(values[..i + 1], v) <==> Declares(values[..i], v) || v == values[i].value
  {
    hide IsBlank;
    var done, all := values[..i], values[..i + 1];
    assert forall k :: 0 <= k < i ==> all[k] == done[k];
    assert all[i] == values[i];
    if EnumOK(all) {
      forall k | 0 <= k < i ensures done[k].value != values[i].value {
        assert all[k].value != all[i].value;
      }
    }
    forall v ensures Declares(all, v) <==> Declares(done, v) || v == values[i].value {
      if Declares(done, v) {
        var k :| 0 <= k < |done| && done[k].value == v;
        assert all[k].value == v;
      }
    }
  }

  lemma KeyStep<T, K>(key: T -> Option<K>, xs: seq<Option<T>>, i: nat)
    requires i <= |xs|
    ensures forall k :: !HasKey(key, xs[..0], k)
    ensures i < |xs| && xs[i].None? ==> forall k :: HasKey(key, xs[..i + 1], k) <==> HasKey(key, xs[..i], k)
    ensures i < |xs| && xs[i].Some? ==>
      && (Unique(key, xs[..i + 1]) <==>
            Unique(key, xs[..i]) && (key(xs[i].value).Some? ==> !HasKey(key, xs[..i], key(xs[i].value).value)))
      && (forall k :: HasKey(key, xs[..i + 1], k) <==> HasKey(key, xs[..i], k) || key(xs[i].value) == Some(k))
  {
    if i < |xs| {
      assert xs[..i + 1] == xs[..i] + [xs[i]];
      if xs[i].Some? { UniqueSnoc(key, xs[..i], xs[i].value); }
      else {
        forall k ensures HasKey(key, xs[..i + 1], k) <==> HasKey(key, xs[..i], k) {
          if HasKey(key, xs[..i], k) {
            var n :| 0 <= n < i && xs[..i][n].Some? && key(xs[..i][n].value) == Some(k);
            assert xs[..i + 1][n].Some?;
          }
        }
      }
    }
  }

  lemma IDsStep<T>(id: T -> ID, xs: seq<Option<T>>, i: nat)
    requires i <= |xs|
    ensures IDs(id, xs[..0]) == []
    ensures i < |xs| ==> IDs(id, xs[..i + 1]) == IDs(id, xs[..i]) + if xs[i].Some? then [id(xs[i].value)] else []
  {
    if i < |xs| { assert xs[..i + 1][..i] == xs[..i]; }
  }

  lemma FieldsStep(lib: Library, s: ProjectSpec, fields: seq<Option<Field>>, i: nat)
    requires i < |fields|
    ensures fields[i].None? ==> !FieldsOK(lib, s, fields[..i + 1])
    ensures fields[i].Some? ==>
      var f := fields[i].value;
      (FieldsOK(lib, s, fields[..i + 1]) <==>
         && FieldsOK(lib, s, fields[..i])
         && FieldOK(lib, s, f)
         && !HasKey(FieldCode, fields[..i], f.codeName)
         && !HasKey(FieldGenerated, fields[..i], GeneratedFieldName(f.codeName, f.kind))
         && !HasKey(FieldStorage, fields[..i], f.storageName))
  {
    hide FieldOK, Unique, HasKey;
    var done, all := fields[..i], fields[..i + 1];
    assert forall k :: 0 <= k < i ==> all[k] == done[k];
    assert all[i] == fields[i];
    KeyStep(FieldCode, fields, i);
    KeyStep(FieldGenerated, fields, i);
    KeyStep(FieldStorage, fields, i);
  }

  lemma ResourcesStep(lib: Library, s: ProjectSpec, rs: seq<Option<Resource>>, i: nat)
    requires i < |rs|
    ensures ResourceIDs(rs[..i + 1]) == ResourceIDs(rs[..i]) +
      if rs[i].Some? then [rs[i].value.id] + FieldIDs(rs[i].value.fields) + HookIDs(rs[i].value.hooks) else []
    ensures rs[i].None? ==> !ResourcesOK(lib, s, rs[..i + 1])
    ensures rs[i].Some? ==>
      var r := rs[i].value;
      (ResourcesOK(lib, s, rs[..i + 1]) <==>
         && ResourcesOK(lib, s, rs[..i])
         && ResourceOK(lib, s, r)
         && !HasKey(ResourceCode, rs[..i], r.codeName)
         && !HasKey(ResourceStorage, rs[..i], r.storageName))
  {
    hide ResourceOK, Unique, HasKey, FieldIDs, HookIDs;
    var done, all := rs[..i], rs[..i + 1];
    assert all[..i] == done;
    assert forall k :: 0 <= k < i ==> all[k] == done[k];
    assert all[i] == rs[i];
    KeyStep(ResourceCode, rs, i);
    KeyStep(ResourceStorage, rs, i);
  }

  lemma PagesStep(s: ProjectSpec, ps: seq<Option<Page>>, i: nat)
    requires i < |ps|
    ensures ps[i].None? ==> !PagesOK(s, ps[..i + 1])
    ensures ps[i].Some? ==>
      var p := ps[i].value;
      (PagesOK(s, ps[..i + 1]) <==>
         && PagesOK(s, ps[..i])
         && PageOK(s, p)
         && !HasKey(PageSlug, ps[..i], p.slug)
         && (p.kind.ResourceForm? ==> !HasKey(FormOf, ps[..i], p.resource))
         && (p.kind.ResourceDetail? ==> !HasKey(DetailOf, ps[..i], p.resource)))
  {
    hide PageOK, Unique, HasKey;
    var done, all := ps[..i], ps[..i + 1];
    assert forall k :: 0 <= k < i ==> all[k] == done[k];
    assert all[i] == ps[i];
    KeyStep(PageSlug, ps, i);
    KeyStep(FormOf, ps, i);
    KeyStep(DetailOf, ps, i);
  }

  lemma HooksStep(hooks: seq<Option<Hook>>, i: nat)
    requires i < |hooks|
    ensures hooks[i].None? ==> !HooksOK(hooks[..i + 1])
    ensures hooks[i].Some? ==>
      (HooksOK(hooks[..i + 1]) <==>
         HooksOK(hooks[..i]) && HookOK(hooks[i].value) && !HasKey(EventOf, hooks[..i], hooks[i].value.event))
  {
    hide HookOK, Unique, HasKey;
    var done, all := hooks[..i], hooks[..i + 1];
    assert forall k :: 0 <= k < i ==> all[k] == done[k];
    assert all[i] == hooks[i];
    KeyStep(EventOf, hooks, i);
  }

  lemma NavigationStep(s: ProjectSpec, items: seq<Option<NavItem>>, i: nat)
    requires i < |items|
    ensures items[i].None? ==> !NavigationOK(s, items[..i + 1])
    ensures items[i].Some? ==>
      (NavigationOK(s, items[..i + 1]) <==> NavigationOK(s, items[..i]) && NavOK(s, items[i].value))
  {
    hide NavOK;
    var done, all := items[..i], items[..i + 1];
    assert forall k :: 0 <= k < i ==> all[k] == done[k];
    assert all[i] == items[i];
  }

  lemma CapabilityStep(c: Capability, ids: seq<ID>, i: nat, fields: seq<Option<Field>>)
    requires i < |ids|
    ensures CapabilityOK(c, ids[..i + 1], fields) <==>
      && CapabilityOK(c, ids[..i], fields)
      && FindField(fields, ids[i]).Some? && Accepts(c, FindField(fields, ids[i]).value.kind)
  {
    assert ids[..i + 1] == ids[..i] + [ids[i]];
    assert ids[..i + 1][i] == ids[i];
    assert forall k :: 0 <= k < i ==> ids[..i + 1][k] == ids[..i][k];
  }

  lemma NoResourceIDs()
    ensures ResourceIDs([]) == []
  {
  }

  lemma EmptySections(lib: Library, s: ProjectSpec)
    ensures FieldsOK(lib, s, []) && ResourcesOK(lib, s, []) && PagesOK(s, []) && HooksOK([]) && NavigationOK(s, [])
  {
  }
}
