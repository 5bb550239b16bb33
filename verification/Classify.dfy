/** Classifying a spec edit (internal/compiler/abi.go): the ABIs of valid specs are canonical,
    so the fingerprint does not see order, labels, storage names or pages. */
module Classify {
  import opened Text
  import opened Names
  import opened Spec
  import opened WellFormed
  import opened Abi
  import Graph
  import Identity

  lemma {:induction false} RowsAre(rs: seq<Option<Resource>>)
    requires AllSome(rs)
    ensures |Rows(rs)| == |rs| && forall i :: 0 <= i < |rs| ==> Rows(rs)[i] == RowOf(rs[i].value)
  {
    hide RowOf;
    if rs != [] {
      RowsAre(rs[..|rs| - 1]);
    }
  }

  lemma ValidIsMappable(lib: Library, s: ProjectSpec)
    requires WellFormedSpec(lib, s)
    ensures forall i :: 0 <= i < |s.resources| && s.resources[i].Some? ==> Mappable(s.resources[i].value)
  {
    hide FieldTypeOK, DefaultOK, ValidID, IsBlank, IsStorageName, IsExportedGoIdent, BehaviorOK, Unique;
    hide PagesOK, NavigationOK, BrandingOK, ProjectOK, Distinct, AllIDs;
    forall i | 0 <= i < |s.resources| && s.resources[i].Some? ensures Mappable(s.resources[i].value) {
      var r := s.resources[i].value;
      assert ResourceOK(lib, s, r);
      forall k | 0 <= k < |r.fields| && r.fields[k].Some? ensures GoType(r.fields[k].value.kind).Some? {
        assert FieldOK(lib, s, r.fields[k].value);
      }
      forall k | 0 <= k < |r.hooks| && r.hooks[k].Some? ensures r.hooks[k].value.event.Supported() {
        assert HookOK(r.hooks[k].value);
      }
    }
  }

  ghost predicate TypesDistinct(a: ABI) {
    forall i, j :: 0 <= i < j < |a| ==> a[i].typeName != a[j].typeName
  }

  ghost predicate HasRow(s: ProjectSpec, row: ResourceABI) {
    exists i :: 0 <= i < |s.resources| && s.resources[i].Some? && RowOf(s.resources[i].value) == row
  }

  lemma AbiElements(s: ProjectSpec)
    requires AllSome(s.resources)
    ensures forall x :: x in AbiOf(s) <==> HasRow(s, x)
    ensures multiset(AbiOf(s)) == multiset(Rows(s.resources))
  {
    hide RowOf;
    RowsAre(s.resources);
    var rows := Rows(s.resources);
    forall x ensures x in AbiOf(s) <==> HasRow(s, x) {
      assert x in multiset(AbiOf(s)) <==> x in multiset(rows);
      if x in rows {
        var i :| 0 <= i < |rows| && rows[i] == x;
        assert s.resources[i].Some?;
      }
      if i :| 0 <= i < |s.resources| && s.resources[i].Some? && RowOf(s.resources[i].value) == x { assert rows[i] == x; }
    }
  }

  lemma ValidRows(lib: Library, s: ProjectSpec)
    requires WellFormedSpec(lib, s)
    ensures AllSome(s.resources)
    ensures DistinctKeys(RowID, Rows(s.resources)) && DistinctKeys(RowType, Rows(s.resources))
  {
    hide FieldsOK, ResourceOK, FieldMap, HookMap, PagesOK, NavigationOK, BrandingOK, ProjectOK, Distinct, AllIDs;
    var rs := s.resources;
    var rows := Rows(rs);
    RowsAre(rs);
    Identity.ValidIsNamed(lib, s);
    forall i, j | 0 <= i < j < |rows| ensures RowID(rows[i]) != RowID(rows[j]) && RowType(rows[i]) != RowType(rows[j]) {
      assert KeyOfResource(rs[i].value) != KeyOfResource(rs[j].value);
      assert ResourceCode(rs[i].value) != ResourceCode(rs[j].value);
    }
  }

  function RowType(row: ResourceABI): string { row.typeName }

  /** What the ABI of a valid spec is: canonical, one type name a resource, and under each
      resource's ID exactly that resource's row. */
  lemma ValidAbi(lib: Library, s: ProjectSpec)
    requires WellFormedSpec(lib, s)
    ensures Canonical(AbiOf(s)) && TypesDistinct(AbiOf(s))
    ensures AllSome(s.resources)
    ensures forall i :: 0 <= i < |s.resources| ==>
      s.resources[i].value.id in IndexResources(AbiOf(s)) &&
      IndexResources(AbiOf(s))[s.resources[i].value.id] == RowOf(s.resources[i].value)
    ensures forall id :: id in IndexResources(AbiOf(s)) ==> HasRow(s, IndexResources(AbiOf(s))[id])
  {
    hide WellFormedSpec, Rows, FieldMap, HookMap, SortBy, IndexResources;
    var a := AbiOf(s);
    ValidRows(lib, s);
    SortByStrict(RowID, Rows(s.resources));
    AbiElements(s);
    DistinctKeysPermutation(RowType, Rows(s.resources), a);
    IndexMeaning(a);
    forall i, j | 0 <= i < j < |a| ensures a[i].typeName != a[j].typeName {
      assert RowType(a[i]) != RowType(a[j]);
    }
    forall i | 0 <= i < |s.resources|
      ensures s.resources[i].value.id in IndexResources(a) && IndexResources(a)[s.resources[i].value.id] == RowOf(s.resources[i].value)
    {
      assert HasRow(s, RowOf(s.resources[i].value));
      var k :| 0 <= k < |a| && a[k] == RowOf(s.resources[i].value);
      IndexOfCanonical(a, k);
    }
  }

  /** ClassifyEdit fails exactly when one of the specs is invalid; otherwise it classifies
      the move between their two surfaces. */
  method ClassifyEdit(lib: Library, current: Option<ProjectSpec>, candidate: Option<ProjectSpec>)
    returns (t: Option<Transition>)
    ensures t.Some? <==> Valid(lib, current) && Valid(lib, candidate)
    ensures t.Some? ==>
      && t.value.fingerprint == AbiOf(candidate.value)
      && (t.value.class_.Neutral? <==> AbiOf(current.value) == AbiOf(candidate.value))
      && (t.value.class_.Breaking? <==> !NonBreaking(AbiOf(current.value), AbiOf(candidate.value)))
      && (t.value.class_.Neutral? <==> t.value.reasons == {})
  {
    hide WellFormedSpec, Mappable, AllIDs, Rows, Adds, Breaks, IndexResources;
    var g := Graph.Build(lib, current);
    var h := Graph.Build(lib, candidate);
    if g == null || h == null {
      return None;
    }
    ValidIsMappable(lib, current.value);
    ValidIsMappable(lib, candidate.value);
    var a := ExtensionABI(current.value.resources);
    var b := ExtensionABI(candidate.value.resources);
    var tr := ClassifyTransition(a.value, b.value);
    ghost var cur, cand := IndexResources(a.value), IndexResources(b.value);
    ValidAbi(lib, current.value);
    ValidAbi(lib, candidate.value);
    BreakingMeansLost(cur, cand);
    if tr.class_.Additive? { AdditiveHasReason(a.value, b.value); }
    if r :| Breaks(cur, cand, r) { assert tr.class_.Breaking? ==> r in tr.reasons; }
    if r :| Adds(cur, cand, r) { assert tr.class_.Additive? ==> r in tr.reasons; }
    return Some(tr);
  }

  ghost predicate Valid(lib: Library, s: Option<ProjectSpec>) { s.Some? && WellFormedSpec(lib, s.value) }

  // ----- Neutral edits -----

  /** Two valid specs have the same fingerprint exactly when they declare the same resource
      rows, in whatever order: nothing else about a spec reaches the ABI. */
  lemma FingerprintIsOrderFree(lib: Library, s: ProjectSpec, t: ProjectSpec)
    requires WellFormedSpec(lib, s) && WellFormedSpec(lib, t)
    ensures AbiOf(s) == AbiOf(t) <==> forall row :: HasRow(s, row) <==> HasRow(t, row)
  {
    hide WellFormedSpec, HasRow, AbiOf, IndexResources;
    ValidAbi(lib, s);
    ValidAbi(lib, t);
    AbiElements(s);
    AbiElements(t);
    if forall row :: HasRow(s, row) <==> HasRow(t, row) {
      StrictlySortedUnique(RowID, AbiOf(s), AbiOf(t));
    }
  }

  // ----- Field and hook order -----

  lemma {:induction false} FieldMapMeaning(fields: seq<Option<Field>>)
    requires Unique(KeyOfField, fields)
    ensures forall id :: id in FieldMap(fields) <==> HasKey(KeyOfField, fields, id)
    ensures forall i :: 0 <= i < |fields| && fields[i].Some? ==>
      fields[i].value.id in FieldMap(fields) && FieldMap(fields)[fields[i].value.id] == FieldSurface(fields[i].value)
  {
    hide FieldSurface;
    if fields != [] {
      var n := |fields| - 1;
      var init := fields[..n];
      assert fields == init + [fields[n]];
      forall i, j | 0 <= i < j < n && init[i].Some? && init[j].Some? && KeyOfField(init[i].value).Some?
        ensures KeyOfField(init[i].value) != KeyOfField(init[j].value)
      {
        assert fields[i].Some? && fields[j].Some?;
      }
      FieldMapMeaning(init);
      if fields[n].Some? { UniqueSnoc(KeyOfField, init, fields[n].value); }
      else {
        forall id ensures HasKey(KeyOfField, fields, id) <==> HasKey(KeyOfField, init, id) {
          if HasKey(KeyOfField, init, id) {
            var i :| 0 <= i < |init| && init[i].Some? && KeyOfField(init[i].value) == Some(id);
            assert fields[i].Some?;
          }
        }
      }
      forall i | 0 <= i < |fields| && fields[i].Some?
        ensures fields[i].value.id in FieldMap(fields) && FieldMap(fields)[fields[i].value.id] == FieldSurface(fields[i].value)
      {
        if i < n {
          assert init[i] == fields[i];
          if fields[n].Some? { assert KeyOfField(fields[i].value) != KeyOfField(fields[n].value); }
        }
      }
    }
  }

  lemma {:induction false} HookMapMeaning(hooks: seq<Option<Hook>>, typeName: string)
    requires HooksOK(hooks)
    ensures forall e :: e in HookMap(hooks, typeName) <==> HasKey(EventOf, hooks, e)
    ensures forall e :: e in HookMap(hooks, typeName) ==> Some(HookMap(hooks, typeName)[e]) == HookParams(e, typeName)
  {
    hide HookParams, ValidID;
    if hooks != [] {
      var n := |hooks| - 1;
      var init := hooks[..n];
      assert hooks == init + [hooks[n]];
      assert forall i :: 0 <= i < n ==> init[i] == hooks[i];
      forall i, j | 0 <= i < j < n && init[i].Some? && init[j].Some? && EventOf(init[i].value).Some?
        ensures EventOf(init[i].value) != EventOf(init[j].value)
      {
        assert hooks[i].Some? && hooks[j].Some?;
      }
      HookMapMeaning(init, typeName);
      UniqueSnoc(EventOf, init, hooks[n].value);
      assert HookOK(hooks[n].value);
      ParamsOf(hooks[n].value.event, typeName);
    }
  }

  lemma ParamsOf(e: HookEvent, typeName: string)
    ensures HookParams(e, typeName).Some? <==> e.Supported()
  {
  }

  /** Reordering the fields or hooks of a resource leaves its row as it was. */
  lemma RowIsOrderFree(r: Resource, q: Resource)
    requires r.id == q.id && r.codeName == q.codeName
    requires NamedFields(r.fields) && NamedFields(q.fields) && HooksOK(r.hooks) && HooksOK(q.hooks)
    requires multiset(r.fields) == multiset(q.fields) && multiset(r.hooks) == multiset(q.hooks)
    ensures RowOf(r) == RowOf(q)
  {
    hide FieldMap, HookMap, FieldSurface, HookOK, AllSome;
    FieldMapMeaning(r.fields);
    FieldMapMeaning(q.fields);
    HookMapMeaning(r.hooks, r.codeName);
    HookMapMeaning(q.hooks, q.codeName);
    KeysOfPermutation(KeyOfField, r.fields, q.fields);
    KeysOfPermutation(EventOf, r.hooks, q.hooks);
    forall id | id in FieldMap(r.fields) ensures FieldMap(q.fields)[id] == FieldMap(r.fields)[id] {
      var i :| 0 <= i < |r.fields| && r.fields[i].Some? && KeyOfField(r.fields[i].value) == Some(id);
      assert r.fields[i] in multiset(q.fields);
      var j :| 0 <= j < |q.fields| && q.fields[j] == r.fields[i];
    }
    assert FieldMap(r.fields) == FieldMap(q.fields);
    assert HookMap(r.hooks, r.codeName) == HookMap(q.hooks, q.codeName);
  }

  lemma KeysOfPermutation<T, K>(key: T -> Option<K>, xs: seq<Option<T>>, ys: seq<Option<T>>)
    requires multiset(xs) == multiset(ys)
    ensures forall k :: HasKey(key, xs, k) <==> HasKey(key, ys, k)
  {
    forall k ensures HasKey(key, xs, k) <==> HasKey(key, ys, k) {
      if i :| 0 <= i < |xs| && xs[i].Some? && key(xs[i].value) == Some(k) {
        assert xs[i] in multiset(ys);
        var j :| 0 <= j < |ys| && ys[j] == xs[i];
      }
      if j :| 0 <= j < |ys| && ys[j].Some? && key(ys[j].value) == Some(k) {
        assert ys[j] in multiset(xs);
        var i :| 0 <= i < |xs| && xs[i] == ys[j];
      }
    }
  }
}
