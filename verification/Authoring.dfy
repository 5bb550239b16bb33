/** What the control plane's authoring operations do to the extension ABI
    (controlplane/internal/project/resource.go, field.go, relationship.go, page.go, nav.go,
    branding.go, behavior.go and internal/spec/refactor.go). */
module Authoring {
  import opened Text
  import opened Names
  import opened Spec
  import opened WellFormed
  import opened Abi
  import opened Classify
  import opened Deletion
  import Identity

  /** The class ClassifyEdit gives a move between valid specs. */
  ghost function ClassOf(s: ProjectSpec, t: ProjectSpec): Class {
    if AbiOf(s) == AbiOf(t) then Neutral
    else if NonBreaking(AbiOf(s), AbiOf(t)) then Additive
    else Breaking
  }

  ghost predicate BothValid(lib: Library, s: ProjectSpec, t: ProjectSpec) {
    WellFormedSpec(lib, s) && WellFormedSpec(lib, t)
  }

  /** Some resource of t has r's ID and keeps its contracts. */
  ghost predicate KeptIn(r: Resource, t: ProjectSpec) {
    exists j :: 0 <= j < |t.resources| && t.resources[j].Some? && t.resources[j].value.id == r.id
      && KeepsRow(RowOf(r), RowOf(t.resources[j].value))
  }

  /** Between valid specs a move is non-breaking exactly when each resource is kept. */
  lemma TransitionByResource(lib: Library, s: ProjectSpec, t: ProjectSpec)
    requires BothValid(lib, s, t)
    ensures NonBreaking(AbiOf(s), AbiOf(t)) <==>
      forall i :: 0 <= i < |s.resources| && s.resources[i].Some? ==> KeptIn(s.resources[i].value, t)
  {
    hide WellFormedSpec, KeepsRow, FieldMap, HookMap, IndexResources, AbiOf;
    ValidAbi(lib, s);
    ValidAbi(lib, t);
    var a, b := IndexResources(AbiOf(s)), IndexResources(AbiOf(t));
    IndexMeaning(AbiOf(s));
    IndexMeaning(AbiOf(t));
    if Keeps(a, b) {
      forall i | 0 <= i < |s.resources| && s.resources[i].Some? ensures KeptIn(s.resources[i].value, t) {
        var r := s.resources[i].value;
        assert HasRow(t, b[r.id]);
        var j :| 0 <= j < |t.resources| && t.resources[j].Some? && RowOf(t.resources[j].value) == b[r.id];
        assert t.resources[j].value.id == r.id;
      }
    }
    if forall i :: 0 <= i < |s.resources| && s.resources[i].Some? ==> KeptIn(s.resources[i].value, t) {
      forall id | id in a ensures id in b && KeepsRow(a[id], b[id]) {
        var i :| 0 <= i < |s.resources| && s.resources[i].Some? && RowOf(s.resources[i].value) == a[id];
        assert KeptIn(s.resources[i].value, t);
      }
    }
  }

  // ----- One resource edited in place -----

  /** t is s with the resource at i replaced by q, of the same ID; the rest of t is free. */
  ghost predicate Edits(s: ProjectSpec, t: ProjectSpec, i: nat, q: Resource) {
    && i < |s.resources| && s.resources[i].Some?
    && q.id == s.resources[i].value.id
    && t.resources == s.resources[i := Some(q)]
  }

  lemma KeepsRowReflexive(row: ResourceABI)
    ensures KeepsRow(row, row)
  {
  }

  lemma OneOfEach(lib: Library, s: ProjectSpec, i: nat, j: nat)
    requires WellFormedSpec(lib, s) && i < |s.resources| && j < |s.resources|
    ensures s.resources[i].Some? && s.resources[j].Some?
    ensures s.resources[i].value.id == s.resources[j].value.id ==> i == j
  {
    Identity.ValidIsNamed(lib, s);
    assert i < j ==> KeyOfResource(s.resources[i].value) != KeyOfResource(s.resources[j].value);
    assert j < i ==> KeyOfResource(s.resources[j].value) != KeyOfResource(s.resources[i].value);
  }

  /** Editing one resource is neutral exactly when its row stays the same and non-breaking
      exactly when its row is kept, whatever else about the spec is edited with it. */
  lemma EditClass(lib: Library, s: ProjectSpec, t: ProjectSpec, i: nat, q: Resource)
    requires BothValid(lib, s, t) && Edits(s, t, i, q)
    ensures ClassOf(s, t).Neutral? <==> RowOf(q) == RowOf(s.resources[i].value)
    ensures ClassOf(s, t).Breaking? <==> !KeepsRow(RowOf(s.resources[i].value), RowOf(q))
  {
    hide WellFormedSpec, KeepsRow, FieldMap, HookMap, AbiOf, NonBreaking;
    var r := s.resources[i].value;
    EditKept(lib, s, t, i, q);
    EditRows(lib, s, t, i, q);
    if AbiOf(s) == AbiOf(t) {
      KeepsRowReflexive(RowOf(r));
    }
  }

  lemma EditKept(lib: Library, s: ProjectSpec, t: ProjectSpec, i: nat, q: Resource)
    requires BothValid(lib, s, t) && Edits(s, t, i, q)
    ensures NonBreaking(AbiOf(s), AbiOf(t)) <==> KeepsRow(RowOf(s.resources[i].value), RowOf(q))
  {
    hide WellFormedSpec, KeepsRow, RowOf, AbiOf, NonBreaking;
    var r := s.resources[i].value;
    TransitionByResource(lib, s, t);
    assert t.resources[i] == Some(q);
    if KeptIn(r, t) {
      var j :| 0 <= j < |t.resources| && t.resources[j].Some? && t.resources[j].value.id == r.id
        && KeepsRow(RowOf(r), RowOf(t.resources[j].value));
      OneOfEach(lib, t, i, j);
    }
    if KeepsRow(RowOf(r), RowOf(q)) {
      forall k | 0 <= k < |s.resources| && s.resources[k].Some? ensures KeptIn(s.resources[k].value, t) {
        assert t.resources[k] == if k == i then Some(q) else s.resources[k];
        KeepsRowReflexive(RowOf(s.resources[k].value));
      }
    }
  }

  lemma EditRows(lib: Library, s: ProjectSpec, t: ProjectSpec, i: nat, q: Resource)
    requires BothValid(lib, s, t) && Edits(s, t, i, q)
    ensures AbiOf(s) == AbiOf(t) <==> RowOf(q) == RowOf(s.resources[i].value)
  {
    hide WellFormedSpec, FieldMap, HookMap, AbiOf;
    var r := s.resources[i].value;
    FingerprintIsOrderFree(lib, s, t);
    assert t.resources[i] == Some(q);
    if forall row :: HasRow(s, row) <==> HasRow(t, row) {
      assert HasRow(t, RowOf(q));
      var j :| 0 <= j < |s.resources| && s.resources[j].Some? && RowOf(s.resources[j].value) == RowOf(q);
      OneOfEach(lib, s, i, j);
    }
    if RowOf(q) == RowOf(r) {
      forall row ensures HasRow(s, row) <==> HasRow(t, row) {
        if j :| 0 <= j < |s.resources| && s.resources[j].Some? && RowOf(s.resources[j].value) == row {
          assert t.resources[j] == if j == i then Some(q) else s.resources[j];
        }
        if j :| 0 <= j < |t.resources| && t.resources[j].Some? && RowOf(t.resources[j].value) == row {
          assert t.resources[j] == if j == i then Some(q) else s.resources[j];
        }
      }
    }
  }

  // ----- Neutral edits -----

  /** Pages, navigation, branding and project data never reach the ABI. */
  lemma ViewEditsAreNeutral(s: ProjectSpec, t: ProjectSpec)
    requires t.resources == s.resources
    ensures ClassOf(s, t).Neutral?
  {
  }

  /** RenameResource, behavior edits and a changed table name are neutral. */
  lemma RelabelIsNeutral(lib: Library, s: ProjectSpec, t: ProjectSpec, i: nat, q: Resource)
    requires BothValid(lib, s, t) && Edits(s, t, i, q)
    requires
      var r := s.resources[i].value;
      q == r.(caption := q.caption, labelPlural := q.labelPlural, storageName := q.storageName, behavior := q.behavior)
    ensures ClassOf(s, t).Neutral?
  {
    hide WellFormedSpec;
    EditClass(lib, s, t, i, q);
  }

  // ----- Fields -----

  lemma {:induction false} FieldMapSnoc(fields: seq<Option<Field>>, f: Field)
    ensures FieldMap(fields + [Some(f)]) == FieldMap(fields)[f.id := FieldSurface(f)]
  {
    assert (fields + [Some(f)])[..|fields|] == fields;
  }

  lemma FieldsNamed(lib: Library, s: ProjectSpec, i: nat)
    requires WellFormedSpec(lib, s) && i < |s.resources|
    ensures s.resources[i].Some? && Unique(KeyOfField, s.resources[i].value.fields) && AllSome(s.resources[i].value.fields)
    ensures FieldsOK(lib, s, s.resources[i].value.fields)
  {
    hide FieldOK, FieldTypeOK, DefaultOK, PagesOK, NavigationOK, ProjectOK, BrandingOK, Distinct, AllIDs;
    Identity.ValidIsNamed(lib, s);
    assert ResourceOK(lib, s, s.resources[i].value);
  }

  lemma AddedAccessor(row: ResourceABI, id: ID, x: FieldABI)
    requires id !in row.fields
    ensures KeepsRow(row, row.(fields := row.fields[id := x])) && row != row.(fields := row.fields[id := x])
  {
    assert id in row.fields[id := x];
  }

  lemma FreshInMap(fields: seq<Option<Field>>, f: Field)
    requires Unique(KeyOfField, fields + [Some(f)])
    ensures f.id !in FieldMap(fields)
  {
    hide FieldSurface;
    UniqueSnoc(KeyOfField, fields, f);
    FieldMapMeaning(fields);
  }

  /** AddField and AddRelationship are additive. */
  lemma AddFieldIsAdditive(lib: Library, s: ProjectSpec, t: ProjectSpec, i: nat, f: Field)
    requires i < |s.resources| && s.resources[i].Some?
    requires BothValid(lib, s, t)
    requires Edits(s, t, i, s.resources[i].value.(fields := s.resources[i].value.fields + [Some(f)]))
    ensures ClassOf(s, t).Additive?
  {
    hide WellFormedSpec, FieldSurface, FieldMap, HookMap, KeepsRow, Unique, FieldsOK;
    var r := s.resources[i].value;
    var q := r.(fields := r.fields + [Some(f)]);
    EditClass(lib, s, t, i, q);
    assert t.resources[i] == Some(q);
    FieldsNamed(lib, t, i);
    FreshInMap(r.fields, f);
    FieldMapSnoc(r.fields, f);
    AddedAccessor(RowOf(r), f.id, FieldSurface(f));
  }

  /** The accessor of a field. */
  lemma FieldInRow(lib: Library, s: ProjectSpec, i: nat, k: nat)
    requires WellFormedSpec(lib, s) && i < |s.resources|
    requires s.resources[i].Some? && k < |s.resources[i].value.fields| && s.resources[i].value.fields[k].Some?
    ensures
      var f, m := s.resources[i].value.fields[k].value, FieldMap(s.resources[i].value.fields);
      f.id in m && m[f.id] == FieldSurface(f)
  {
    hide WellFormedSpec, FieldSurface;
    FieldsNamed(lib, s, i);
    FieldMapMeaning(s.resources[i].value.fields);
  }

  /** In the row of a resource of a valid spec each field has one accessor, called as its code name
      says, and two accessors return one Go type exactly when the kinds are interchangeable. */
  lemma AccessorsTell(lib: Library, s: ProjectSpec, i: nat, k: nat, l: nat)
    requires WellFormedSpec(lib, s) && i < |s.resources| && s.resources[i].Some?
    requires k < |s.resources[i].value.fields| && s.resources[i].value.fields[k].Some?
    requires l < |s.resources[i].value.fields| && s.resources[i].value.fields[l].Some?
    ensures
      var r := s.resources[i].value;
      var f, g := r.fields[k].value, r.fields[l].value;
      var row := RowOf(r);
      && row.id == r.id && row.typeName == r.codeName
      && f.id in row.fields && g.id in row.fields
      && row.fields[f.id].symbol == (if f.kind.TBelongsTo? then f.codeName + "ID" else f.codeName)
      && (row.fields[f.id].goType == row.fields[g.id].goType <==> Interchangeable(f.kind, g.kind))
  {
    hide WellFormedSpec, GoType, FieldMap, Interchangeable;
    FieldInRow(lib, s, i, k);
    FieldInRow(lib, s, i, l);
    FieldIsSupported(lib, s, i, k);
    FieldIsSupported(lib, s, i, l);
    GoTypeGroups(s.resources[i].value.fields[k].value.kind, s.resources[i].value.fields[l].value.kind);
    GoTypeGroups(s.resources[i].value.fields[l].value.kind, s.resources[i].value.fields[k].value.kind);
  }

  /** DeleteField is breaking. */
  lemma DeleteFieldIsBreaking(lib: Library, s: ProjectSpec, t: ProjectSpec, i: nat, k: nat, q: Resource)
    requires BothValid(lib, s, t) && Edits(s, t, i, q)
    requires k < |s.resources[i].value.fields| && s.resources[i].value.fields[k].Some?
    requires forall j :: 0 <= j < |q.fields| && q.fields[j].Some? ==> q.fields[j].value.id != s.resources[i].value.fields[k].value.id
    ensures ClassOf(s, t).Breaking?
  {
    hide WellFormedSpec, FieldSurface;
    EditClass(lib, s, t, i, q);
    FieldInRow(lib, s, i, k);
    FieldsNamed(lib, t, i);
    assert t.resources[i] == Some(q);
    FieldMapMeaning(q.fields);
  }

  lemma {:induction false} FieldMapUpdate(fields: seq<Option<Field>>, k: nat, g: Field)
    requires Unique(KeyOfField, fields) && AllSome(fields)
    requires k < |fields| && g.id == fields[k].value.id
    ensures FieldMap(fields[k := Some(g)]) == FieldMap(fields)[g.id := FieldSurface(g)]
  {
    hide FieldSurface, FieldMap, HasKey;
    var n := |fields| - 1;
    var init, last := fields[..n], fields[n].value;
    assert fields == init + [Some(last)];
    FieldMapSnoc(init, last);
    if k == n {
      assert fields[k := Some(g)] == init + [Some(g)];
      FieldMapSnoc(init, g);
    } else {
      assert fields[k := Some(g)] == init[k := Some(g)] + [Some(last)];
      FieldMapSnoc(init[k := Some(g)], last);
      UniqueSnoc(KeyOfField, init, last);
      FieldMapUpdate(init, k, g);
      assert KeyOfField(fields[k].value) != KeyOfField(fields[n].value);
      assert g.id != last.id;
    }
  }

  lemma RowWithField(r: Resource, k: nat, g: Field)
    requires Unique(KeyOfField, r.fields) && AllSome(r.fields)
    requires k < |r.fields| && g.id == r.fields[k].value.id
    ensures RowOf(r.(fields := r.fields[k := Some(g)])) == RowOf(r).(fields := RowOf(r).fields[g.id := FieldSurface(g)])
  {
    FieldMapUpdate(r.fields, k, g);
  }

  lemma ReplacedAccessor(row: ResourceABI, id: ID, x: FieldABI)
    requires id in row.fields
    ensures KeepsRow(row, row.(fields := row.fields[id := x])) <==> row.fields[id] == x
    ensures row == row.(fields := row.fields[id := x]) <==> row.fields[id] == x
  {
    if row.fields[id] == x { assert row.fields == row.fields[id := x]; }
    assert row.fields[id := x][id] == x;
  }

  /** UpdateField keeps the code name and never makes or unmakes a relationship: it is neutral
      when the kind stays, or stays text-like or a point in time, and breaking otherwise. */
  lemma UpdateFieldClass(lib: Library, s: ProjectSpec, t: ProjectSpec, i: nat, k: nat, g: Field)
    requires i < |s.resources| && s.resources[i].Some?
    requires k < |s.resources[i].value.fields| && s.resources[i].value.fields[k].Some?
    requires
      var f := s.resources[i].value.fields[k].value;
      g.id == f.id && g.codeName == f.codeName && !f.kind.TBelongsTo? && !g.kind.TBelongsTo?
    requires BothValid(lib, s, t)
    requires Edits(s, t, i, s.resources[i].value.(fields := s.resources[i].value.fields[k := Some(g)]))
    ensures
      var f := s.resources[i].value.fields[k].value;
      if Interchangeable(f.kind, g.kind) then ClassOf(s, t).Neutral? else ClassOf(s, t).Breaking?
  {
    var r := s.resources[i].value;
    var f := r.fields[k].value;
    hide WellFormedSpec, GoType, KeepsRow, ClassOf, FieldSurface, Interchangeable;
    assert f.kind.Supported() && g.kind.Supported() by { FieldIsSupported(lib, s, i, k); FieldIsSupported(lib, t, i, k); }
    AccessorsDiffer(f, g);
    var q := r.(fields := r.fields[k := Some(g)]);
    EditClass(lib, s, t, i, q);
    FieldInRow(lib, s, i, k);
    FieldsNamed(lib, s, i);
    RowWithField(r, k, g);
    ReplacedAccessor(RowOf(r), g.id, FieldSurface(g));
  }

  lemma FieldIsSupported(lib: Library, s: ProjectSpec, i: nat, k: nat)
    requires WellFormedSpec(lib, s) && i < |s.resources| && s.resources[i].Some?
    requires k < |s.resources[i].value.fields| && s.resources[i].value.fields[k].Some?
    ensures s.resources[i].value.fields[k].value.kind.Supported()
  {
    hide FieldTypeOK, DefaultOK, Unique, WellFormedSpec;
    FieldsNamed(lib, s, i);
    assert FieldOK(lib, s, s.resources[i].value.fields[k].value);
  }

  /** Refactoring the code name of a resource is breaking. */
  lemma RefactorResourceIsBreaking(lib: Library, s: ProjectSpec, t: ProjectSpec, i: nat, q: Resource)
    requires BothValid(lib, s, t) && Edits(s, t, i, q) && q.codeName != s.resources[i].value.codeName
    ensures ClassOf(s, t).Breaking?
  {
    hide WellFormedSpec;
    EditClass(lib, s, t, i, q);
  }

  /** Refactoring the code name of a field is breaking. */
  lemma RefactorFieldIsBreaking(lib: Library, s: ProjectSpec, t: ProjectSpec, i: nat, k: nat, code: string)
    requires i < |s.resources| && s.resources[i].Some?
    requires k < |s.resources[i].value.fields| && s.resources[i].value.fields[k].Some?
    requires code != s.resources[i].value.fields[k].value.codeName
    requires
      var r := s.resources[i].value;
      BothValid(lib, s, t) &&
      Edits(s, t, i, r.(fields := r.fields[k := Some(r.fields[k].value.(codeName := code))]))
    ensures ClassOf(s, t).Breaking?
  {
    var r := s.resources[i].value;
    var f := r.fields[k].value;
    var g := f.(codeName := code);
    hide WellFormedSpec, KeepsRow, ClassOf, FieldSurface;
    EditClass(lib, s, t, i, r.(fields := r.fields[k := Some(g)]));
    FieldInRow(lib, s, i, k);
    FieldsNamed(lib, s, i);
    RowWithField(r, k, g);
    ReplacedAccessor(RowOf(r), g.id, FieldSurface(g));
    if FieldSurface(f) == FieldSurface(g) { SurfaceTellsCodeNames(f, g); }
  }

  lemma SurfaceTellsCodeNames(f: Field, g: Field)
    requires f.kind == g.kind && FieldSurface(f) == FieldSurface(g)
    ensures f.codeName == g.codeName
  {
    if f.kind.TBelongsTo? {
      assert (f.codeName + "ID")[..|f.codeName + "ID"| - 2] == f.codeName;
      assert (g.codeName + "ID")[..|g.codeName + "ID"| - 2] == g.codeName;
    }
  }

  // ----- Hooks -----

  ghost predicate SameEvents(hooks: seq<Option<Hook>>, more: seq<Option<Hook>>) {
    forall e :: HasKey(EventOf, hooks, e) == HasKey(EventOf, more, e)
  }

  lemma KeepsRowWithHooks(row: ResourceABI, hooks: map<HookEvent, string>)
    ensures KeepsRow(row, row.(hooks := hooks)) <==> row.hooks == map[] || row.hooks == hooks
  {
  }

  /** Changing hooks alone keeps user code compiling exactly when the resource had none, or
      its events stay the same: a second hook breaks the contract the first one made. */
  lemma HookEditClass(lib: Library, s: ProjectSpec, t: ProjectSpec, i: nat, hooks: seq<Option<Hook>>)
    requires i < |s.resources| && s.resources[i].Some?
    requires BothValid(lib, s, t) && Edits(s, t, i, s.resources[i].value.(hooks := hooks))
    ensures ClassOf(s, t).Breaking? <==> s.resources[i].value.hooks != [] && !SameEvents(s.resources[i].value.hooks, hooks)
  {
    var r := s.resources[i].value;
    var q := r.(hooks := hooks);
    assert t.resources[i] == Some(q);
    hide WellFormedSpec, HooksOK, AllSome, FieldMap, HookMap, ClassOf, KeepsRow, SameEvents;
    HooksAreOK(lib, s, i);
    HooksAreOK(lib, t, i);
    EditClass(lib, s, t, i, q);
    KeepsRowWithHooks(RowOf(r), HookMap(hooks, r.codeName));
    HookMapsAgree(r.hooks, hooks, r.codeName);
    HookMapEmpty(r.hooks, r.codeName);
  }

  lemma HookMapsAgree(hooks: seq<Option<Hook>>, more: seq<Option<Hook>>, typeName: string)
    requires HooksOK(hooks) && HooksOK(more)
    ensures HookMap(hooks, typeName) == HookMap(more, typeName) <==> SameEvents(hooks, more)
  {
    hide HookParams, HookOK, HookMap, HasKey, HooksOK;
    HookMapMeaning(hooks, typeName);
    HookMapMeaning(more, typeName);
    var m, n := HookMap(hooks, typeName), HookMap(more, typeName);
    if SameEvents(hooks, more) {
      assert forall e :: e in m <==> e in n;
      assert forall e :: e in m ==> Some(m[e]) == Some(n[e]);
      assert m == n;
    }
  }

  lemma HookMapEmpty(hooks: seq<Option<Hook>>, typeName: string)
    requires HooksOK(hooks)
    ensures HookMap(hooks, typeName) == map[] <==> hooks == []
  {
    HookMapMeaning(hooks, typeName);
    if hooks != [] {
      assert HasKey(EventOf, hooks, hooks[0].value.event);
      assert hooks[0].value.event in HookMap(hooks, typeName);
    }
  }

  lemma HooksAreOK(lib: Library, s: ProjectSpec, i: nat)
    requires WellFormedSpec(lib, s) && i < |s.resources|
    ensures s.resources[i].Some? && HooksOK(s.resources[i].value.hooks) && AllSome(s.resources[i].value.hooks)
  {
    hide FieldsOK, PagesOK, NavigationOK, ProjectOK, BrandingOK, Distinct, AllIDs;
    assert ResourceOK(lib, s, s.resources[i].value);
  }

  // ----- Whole resources -----

  /** AddResource is additive. */
  lemma AddResourceIsAdditive(lib: Library, s: ProjectSpec, t: ProjectSpec, q: Resource)
    requires BothValid(lib, s, t) && t.resources == s.resources + [Some(q)]
    ensures ClassOf(s, t).Additive?
  {
    hide WellFormedSpec, RowOf, AbiOf, NonBreaking;
    TransitionByResource(lib, s, t);
    FingerprintIsOrderFree(lib, s, t);
    var n := |s.resources|;
    assert t.resources[n] == Some(q);
    forall k | 0 <= k < n && s.resources[k].Some? ensures KeptIn(s.resources[k].value, t) {
      assert t.resources[k] == s.resources[k];
      KeepsRowReflexive(RowOf(s.resources[k].value));
    }
    if HasRow(s, RowOf(q)) {
      var j :| 0 <= j < n && s.resources[j].Some? && RowOf(s.resources[j].value) == RowOf(q);
      assert t.resources[j] == s.resources[j];
      RowHasID(s.resources[j].value);
      RowHasID(q);
      OneOfEach(lib, t, j, n);
    }
    assert HasRow(t, RowOf(q));
  }

  lemma RowHasID(r: Resource)
    ensures RowOf(r).id == r.id
  {
  }

  /** DeleteResource is breaking: it is let through only because it skips the gate. */
  lemma DeleteResourceIsBreaking(lib: Library, s: ProjectSpec, id: ID)
    requires BothValid(lib, s, Without(s, {id})) && FindResource(s.resources, id).Some?
    ensures ClassOf(s, Without(s, {id})).Breaking?
  {
    hide WellFormedSpec, RowOf, AbiOf, NonBreaking, Without;
    var t := Without(s, {id});
    var found := FindResource(s.resources, id);
    var i :| 0 <= i < |s.resources| && s.resources[i] == found;
    TransitionByResource(lib, s, t);
    if KeptIn(found.value, t) {
      var j :| 0 <= j < |t.resources| && t.resources[j].Some? && t.resources[j].value.id == id;
      GoneAfterRemoval(s, id, j);
    }
    if AbiOf(s) == AbiOf(t) { KeepsSame(lib, s, t); }
  }

  lemma GoneAfterRemoval(s: ProjectSpec, id: ID, j: nat)
    requires j < |Without(s, {id}).resources| && Without(s, {id}).resources[j].Some?
    ensures Without(s, {id}).resources[j].value.id != id
  {
    FindAfterRemoval(s.resources, {id}, id);
  }

  lemma KeepsSame(lib: Library, s: ProjectSpec, t: ProjectSpec)
    requires BothValid(lib, s, t) && AbiOf(s) == AbiOf(t)
    ensures NonBreaking(AbiOf(s), AbiOf(t))
  {
    KeepsReflexive(IndexResources(AbiOf(s)));
  }
}
