/** Editing a resource in place, and UpdateField end to end
    (controlplane/internal/project/field.go). */
module FieldEdits {
  import opened Text
  import opened Names
  import opened Spec
  import opened WellFormed
  import opened Abi
  import opened References
  import opened FieldCreation
  import Authoring

  // ----- What pages ask of a resource -----

  ghost predicate AggregateServed(c: AggregateCard, q: Resource) {
    FindField(q.fields, c.field).Some? && c.field in q.behavior.aggregatable
  }

  ghost predicate DashboardServed(d: DashboardConfig, id: ID, q: Resource) {
    && (forall i :: 0 <= i < |d.recentLists| && d.recentLists[i].resource == id && d.recentLists[i].orderBy != "" ==>
          RecencyOK(q, d.recentLists[i].orderBy))
    && (forall i :: 0 <= i < |d.aggregateCards| && d.aggregateCards[i].resource == id ==>
          AggregateServed(d.aggregateCards[i], q))
  }

  ghost predicate PageServed(p: Page, id: ID, q: Resource) {
    if p.kind.DashboardPage? then p.dashboard.Some? ==> DashboardServed(p.dashboard.value, id, q)
    else p.resource == id ==>
      && (p.table.Some? ==> TableOK(p.table.value, q))
      && (p.form.Some? ==> FormOK(p.form.value, q))
  }

  /** q has all that the pages expect of the resource with the ID. */
  ghost predicate Serves(pages: seq<Option<Page>>, id: ID, q: Resource) {
    forall i :: 0 <= i < |pages| && pages[i].Some? ==> PageServed(pages[i].value, id, q)
  }

  /** In t the ID leads to q, and every other ID where it leads in s. */
  ghost predicate Swapped(s: ProjectSpec, t: ProjectSpec, id: ID, q: Resource) {
    && FindResource(s.resources, id).Some?
    && forall want :: FindResource(t.resources, want) == if want == id then Some(q) else FindResource(s.resources, want)
  }

  lemma DashboardSwapped(s: ProjectSpec, t: ProjectSpec, id: ID, q: Resource, d: DashboardConfig)
    requires Swapped(s, t, id, q) && DashboardOK(s, d)
    ensures DashboardOK(t, d) <==> DashboardServed(d, id, q)
  {
    hide RecencyOK, IsBlank;
    forall i | 0 <= i < |d.countCards| ensures CardOK(t, d.countCards[i]) { assert CardOK(s, d.countCards[i]); }
    forall i | 0 <= i < |d.recentLists|
      ensures RecentOK(t, d.recentLists[i]) <==>
        (d.recentLists[i].resource == id && d.recentLists[i].orderBy != "" ==> RecencyOK(q, d.recentLists[i].orderBy))
    {
      assert RecentOK(s, d.recentLists[i]);
    }
    forall i | 0 <= i < |d.aggregateCards|
      ensures AggregateOK(t, d.aggregateCards[i]) <==>
        (d.aggregateCards[i].resource == id ==> AggregateServed(d.aggregateCards[i], q))
    {
      assert AggregateOK(s, d.aggregateCards[i]);
    }
  }

  lemma PageSwapped(s: ProjectSpec, t: ProjectSpec, id: ID, q: Resource, p: Page)
    requires Swapped(s, t, id, q) && PageOK(s, p)
    ensures PageOK(t, p) <==> PageServed(p, id, q)
  {
    hide ValidID, IsBlank, IsSlug, DashboardOK, DashboardServed, TableOK, FormOK;
    if p.kind.DashboardPage? && p.dashboard.Some? { DashboardSwapped(s, t, id, q, p.dashboard.value); }
  }

  lemma PagesSwapped(s: ProjectSpec, t: ProjectSpec, id: ID, q: Resource, pages: seq<Option<Page>>)
    requires Swapped(s, t, id, q) && PagesOK(s, pages)
    ensures PagesOK(t, pages) <==> Serves(pages, id, q)
  {
    hide PageOK, PageServed, Unique, Swapped;
    forall i | 0 <= i < |pages| && pages[i].Some? ensures PageOK(t, pages[i].value) <==> PageServed(pages[i].value, id, q) {
      PageSwapped(s, t, id, q, pages[i].value);
    }
  }

  // ----- A resource replaced -----

  lemma {:induction false} FoundReplaced<T>(id: T -> ID, xs: seq<Option<T>>, i: nat, y: T, want: ID)
    requires i < |xs| && xs[i].Some? && id(y) == id(xs[i].value)
    requires forall j :: 0 <= j < |xs| && j != i && xs[j].Some? ==> id(xs[j].value) != id(y)
    ensures Find(id, xs, id(y)) == xs[i]
    ensures Find(id, xs[i := Some(y)], want) == if want == id(y) then Some(y) else Find(id, xs, want)
  {
    var ys := xs[i := Some(y)];
    if i == 0 {
      assert ys[1..] == xs[1..];
    } else {
      assert ys[1..] == xs[1..][i - 1 := Some(y)];
      FoundReplaced(id, xs[1..], i - 1, y, want);
    }
  }

  lemma ReplacedIsSwapped(lib: Library, s: ProjectSpec, i: nat, q: Resource)
    requires WellFormedSpec(lib, s) && i < |s.resources| && s.resources[i].Some? && q.id == s.resources[i].value.id
    ensures Swapped(s, WithResourceAt(s, i, q), q.id, q)
    ensures Reaches(s, WithResourceAt(s, i, q))
  {
    hide WellFormedSpec;
    forall j | 0 <= j < |s.resources| && j != i && s.resources[j].Some? ensures ResourceID(s.resources[j].value) != q.id {
      Authoring.OneOfEach(lib, s, i, j);
    }
    forall want ensures
      && FindResource(s.resources, q.id) == s.resources[i]
      && FindResource(WithResourceAt(s, i, q).resources, want) == if want == q.id then Some(q) else FindResource(s.resources, want)
    {
      FoundReplaced(ResourceID, s.resources, i, q, want);
    }
  }

  lemma OtherResourcesStay(lib: Library, s: ProjectSpec, i: nat, q: Resource)
    requires ResourcesOK(lib, s, s.resources) && i < |s.resources| && s.resources[i].Some?
    requires SameNames(s.resources[i].value, q) && Reaches(s, WithResourceAt(s, i, q))
    ensures
      var t := WithResourceAt(s, i, q);
      ResourcesOK(lib, t, t.resources) <==> ResourceOK(lib, t, q)
  {
    hide ResourceOK, Unique, Reaches;
    var t := WithResourceAt(s, i, q);
    assert t.resources[i] == Some(q);
    forall k | 0 <= k < |s.resources| && k != i ensures t.resources[k].Some? && ResourceOK(lib, t, t.resources[k].value) {
      assert t.resources[k] == s.resources[k];
      ResourceCarried(lib, s, t, s.resources[k].value);
    }
    UniqueReplaced(ResourceCode, s.resources, i, q);
    UniqueReplaced(ResourceStorage, s.resources, i, q);
  }

  /** Whatever becomes of a resource that keeps its names: the spec stays valid exactly when the
      new one is valid and serves the pages. */
  lemma ReplacedExactly(lib: Library, s: ProjectSpec, i: nat, q: Resource)
    requires WellFormedSpec(lib, s) && i < |s.resources| && s.resources[i].Some?
    requires SameNames(s.resources[i].value, q) && Distinct(AllIDs(WithResourceAt(s, i, q)))
    ensures WellFormedSpec(lib, WithResourceAt(s, i, q)) <==>
      ResourceOK(lib, WithResourceAt(s, i, q), q) && Serves(s.pages, q.id, q)
  {
    var t := WithResourceAt(s, i, q);
    assert ProjectOK(s) ==> ProjectOK(t);
    ReplacedIsSwapped(lib, s, i, q);
    assert NavigationOK(s, s.navigation) ==> NavigationOK(t, t.navigation) by {
      if NavigationOK(s, s.navigation) { NavigationCarried(s, t, s.navigation); }
    }
    hide PagesOK, NavigationOK, BrandingOK, ProjectOK, ResourcesOK, ResourceOK, Distinct, AllIDs, Swapped, Reaches, Serves;
    OtherResourcesStay(lib, s, i, q);
    PagesSwapped(s, t, q.id, q, s.pages);
  }

  // ----- One field replaced -----

  function WithFieldAt(r: Resource, k: nat, g: Field): Resource
    requires k < |r.fields|
  {
    r.(fields := r.fields[k := Some(g)])
  }

  /** The field gets another caption, kind or constraint; its identity, names and target stay. */
  ghost predicate SameIdentity(f: Field, g: Field) {
    && g == f.(caption := g.caption, kind := g.kind, required := g.required, unique := g.unique,
               default := g.default, enumValues := g.enumValues)
    && !f.kind.TBelongsTo? && g.kind.Scalar() && !IsBlank(g.caption)
  }

  lemma {:induction false} IDsConcat<T>(id: T -> ID, a: seq<Option<T>>, b: seq<Option<T>>)
    ensures IDs(id, a + b) == IDs(id, a) + IDs(id, b)
  {
    if b == [] {
      assert a + b == a;
    } else {
      var n := |b| - 1;
      assert (a + b)[..|a + b| - 1] == a + b[..n];
      IDsConcat(id, a, b[..n]);
    }
  }

  lemma OneID<T>(id: T -> ID, x: T)
    ensures IDs(id, [Some(x)]) == [id(x)]
  {
    assert [Some(x)][..0] == [];
  }

  lemma IDsReplaced(fields: seq<Option<Field>>, k: nat, g: Field)
    requires k < |fields| && fields[k].Some? && g.id == fields[k].value.id
    ensures FieldIDs(fields[k := Some(g)]) == FieldIDs(fields)
  {
    var a, b := fields[..k], fields[k + 1..];
    assert fields == a + [Some(fields[k].value)] + b && fields[k := Some(g)] == a + [Some(g)] + b;
    IDsConcat(FieldID, a + [Some(fields[k].value)], b);
    IDsConcat(FieldID, a + [Some(g)], b);
    IDsConcat(FieldID, a, [Some(fields[k].value)]);
    IDsConcat(FieldID, a, [Some(g)]);
    OneID(FieldID, fields[k].value);
    OneID(FieldID, g);
  }

  lemma AllIDsReplaced(s: ProjectSpec, i: nat, q: Resource)
    requires i < |s.resources| && s.resources[i].Some? && q.id == s.resources[i].value.id
    requires FieldIDs(q.fields) == FieldIDs(s.resources[i].value.fields) && q.hooks == s.resources[i].value.hooks
    ensures AllIDs(WithResourceAt(s, i, q)) == AllIDs(s)
  {
    hide ResourceIDs, IDs, HookIDs, FieldIDs;
    var r := s.resources[i].value;
    var a, b := s.resources[..i], s.resources[i + 1..];
    assert s.resources == a + ([Some(r)] + b);
    assert WithResourceAt(s, i, q).resources == a + ([Some(q)] + b);
    ResourceIDsConcat(a, [Some(r)] + b);
    ResourceIDsConcat([Some(r)], b);
    ResourceIDsConcat(a, [Some(q)] + b);
    ResourceIDsConcat([Some(q)], b);
    OneResourceIDs(r);
    OneResourceIDs(q);
  }

  lemma UniqueFieldReplaced<K>(key: Field -> Option<K>, fields: seq<Option<Field>>, k: nat, g: Field)
    requires k < |fields| && fields[k].Some? && key(g) == key(fields[k].value) && Unique(key, fields)
    ensures Unique(key, fields[k := Some(g)])
  {
  }

  lemma UpdatedField(lib: Library, s: ProjectSpec, t: ProjectSpec, f: Field, g: Field)
    requires FieldOK(lib, s, f) && SameIdentity(f, g)
    ensures FieldOK(lib, t, g) <==> FieldTypeOK(s, g) && DefaultOK(lib, g)
  {
    hide ValidID, IsBlank, IsStorageName, IsReservedStorageName, IsExportedGoIdent, IsReservedCodeName, DefaultOK;
    ScalarTypeIsLocal(s, t, g);
    hide FieldTypeOK;
  }

  lemma FieldsUpdated(lib: Library, s: ProjectSpec, t: ProjectSpec, fields: seq<Option<Field>>, k: nat, g: Field)
    requires FieldsOK(lib, s, fields) && Reaches(s, t)
    requires k < |fields| && fields[k].Some? && SameIdentity(fields[k].value, g)
    ensures FieldsOK(lib, t, fields[k := Some(g)]) <==> FieldTypeOK(s, g) && DefaultOK(lib, g)
  {
    UniqueFieldReplaced(FieldCode, fields, k, g);
    UniqueFieldReplaced(FieldGenerated, fields, k, g);
    UniqueFieldReplaced(FieldStorage, fields, k, g);
    hide FieldOK, FieldTypeOK, DefaultOK, Unique, Reaches;
    var all := fields[k := Some(g)];
    assert all[k] == Some(g);
    UpdatedField(lib, s, t, fields[k].value, g);
    forall j | 0 <= j < |fields| && j != k ensures all[j].Some? && FieldOK(lib, t, all[j].value) {
      assert all[j] == fields[j];
      FieldCarried(lib, s, t, fields[j].value);
    }
  }

  // ----- Who looks at the kind of a field -----

  function Listed(b: Behavior, c: Capability): seq<ID> {
    match c
    case List => b.list
    case Searchable => b.searchable
    case Sortable => b.sortable
    case Filterable => b.filterable
    case Aggregatable => b.aggregatable
  }

  /** Every capability the behavior gives the field accepts the kind. */
  ghost predicate ListsAccept(b: Behavior, field: ID, kind: FieldType) {
    forall c: Capability :: field in Listed(b, c) ==> Accepts(c, kind)
  }

  /** Some recent list of the pages orders the resource by the field. */
  ghost predicate OrderedBy(pages: seq<Option<Page>>, resource: ID, field: ID) {
    exists i: nat, j: nat :: OrderedByAt(pages, resource, field, i, j)
  }

  ghost predicate OrderedByAt(pages: seq<Option<Page>>, resource: ID, field: ID, i: nat, j: nat) {
    && i < |pages| && pages[i].Some? && pages[i].value.kind.DashboardPage? && pages[i].value.dashboard.Some?
    && var lists := pages[i].value.dashboard.value.recentLists;
       j < |lists| && lists[j].resource == resource && lists[j].orderBy == field
  }

  ghost predicate Dated(kind: FieldType) { kind.TDate? || kind.TDatetime? }

  /** Looking up a field after one was replaced. */
  ghost predicate FieldSwapped(r: Resource, q: Resource, g: Field) {
    && q.behavior == r.behavior
    && FindField(r.fields, g.id).Some?
    && forall want :: FindField(q.fields, want) == if want == g.id then Some(g) else FindField(r.fields, want)
  }

  lemma UpdatedIsSwapped(r: Resource, k: nat, g: Field)
    requires k < |r.fields| && r.fields[k].Some? && g.id == r.fields[k].value.id && Unique(KeyOfField, r.fields)
    ensures FieldSwapped(r, WithFieldAt(r, k, g), g)
  {
    forall j | 0 <= j < |r.fields| && j != k && r.fields[j].Some? ensures FieldID(r.fields[j].value) != g.id {
      if j < k { assert KeyOfField(r.fields[j].value) != KeyOfField(r.fields[k].value); }
      else { assert KeyOfField(r.fields[k].value) != KeyOfField(r.fields[j].value); }
    }
    forall want ensures
      && FindField(r.fields, g.id) == r.fields[k]
      && FindField(WithFieldAt(r, k, g).fields, want) == if want == g.id then Some(g) else FindField(r.fields, want)
    {
      FoundReplaced(FieldID, r.fields, k, g, want);
    }
  }

  lemma CapabilityAfter(r: Resource, q: Resource, g: Field, c: Capability)
    requires FieldSwapped(r, q, g) && CapabilityOK(c, Listed(r.behavior, c), r.fields)
    ensures CapabilityOK(c, Listed(q.behavior, c), q.fields) <==> (g.id in Listed(r.behavior, c) ==> Accepts(c, g.kind))
  {
    hide Accepts, Listed;
    var ids := Listed(r.behavior, c);
    if g.id in ids {
      var i :| 0 <= i < |ids| && ids[i] == g.id;
      assert FindField(q.fields, ids[i]) == Some(g);
    }
  }

  lemma BehaviorAfter(r: Resource, q: Resource, g: Field)
    requires FieldSwapped(r, q, g) && BehaviorOK(r)
    ensures BehaviorOK(q) <==> ListsAccept(r.behavior, g.id, g.kind)
  {
    assert forall c: Capability :: c.List? || c.Searchable? || c.Sortable? || c.Filterable? || c.Aggregatable?;
    hide FieldSwapped, CapabilityOK, Accepts;
    CapabilityAfter(r, q, g, List);
    CapabilityAfter(r, q, g, Searchable);
    CapabilityAfter(r, q, g, Sortable);
    CapabilityAfter(r, q, g, Filterable);
    CapabilityAfter(r, q, g, Aggregatable);
    if ListsAccept(r.behavior, g.id, g.kind) {
      assert g.id in Listed(r.behavior, List) ==> Accepts(List, g.kind);
      assert g.id in Listed(r.behavior, Searchable) ==> Accepts(Searchable, g.kind);
      assert g.id in Listed(r.behavior, Sortable) ==> Accepts(Sortable, g.kind);
      assert g.id in Listed(r.behavior, Filterable) ==> Accepts(Filterable, g.kind);
      assert g.id in Listed(r.behavior, Aggregatable) ==> Accepts(Aggregatable, g.kind);
    }
  }

  lemma RecencyAfter(r: Resource, q: Resource, g: Field, orderBy: ID)
    requires FieldSwapped(r, q, g) && RecencyOK(r, orderBy)
    ensures RecencyOK(q, orderBy) <==> (orderBy == g.id ==> Dated(g.kind))
  {
  }

  lemma DashboardAfter(d: DashboardConfig, id: ID, r: Resource, q: Resource, g: Field)
    requires FieldSwapped(r, q, g) && DashboardServed(d, id, r) && g.id != ""
    ensures DashboardServed(d, id, q) <==>
      forall j :: 0 <= j < |d.recentLists| && d.recentLists[j].resource == id && d.recentLists[j].orderBy == g.id ==> Dated(g.kind)
  {
    hide RecencyOK, Dated;
    forall j | 0 <= j < |d.recentLists| && d.recentLists[j].resource == id && d.recentLists[j].orderBy != ""
      ensures RecencyOK(q, d.recentLists[j].orderBy) <==> (d.recentLists[j].orderBy == g.id ==> Dated(g.kind))
    {
      RecencyAfter(r, q, g, d.recentLists[j].orderBy);
    }
    forall j | 0 <= j < |d.aggregateCards| && d.aggregateCards[j].resource == id ensures AggregateServed(d.aggregateCards[j], q) {
      assert AggregateServed(d.aggregateCards[j], r);
    }
  }

  lemma ResourcePageAfter(p: Page, r: Resource, q: Resource, g: Field)
    requires FieldSwapped(r, q, g)
    ensures p.table.Some? && TableOK(p.table.value, r) ==> TableOK(p.table.value, q)
    ensures p.form.Some? && FormOK(p.form.value, r) ==> FormOK(p.form.value, q)
  {
  }

  lemma ServesAfter(pages: seq<Option<Page>>, id: ID, r: Resource, q: Resource, g: Field)
    requires FieldSwapped(r, q, g) && Serves(pages, id, r) && g.id != ""
    ensures Serves(pages, id, q) <==> (OrderedBy(pages, id, g.id) ==> Dated(g.kind))
  {
    hide FieldSwapped, DashboardServed, TableOK, FormOK, Dated;
    forall i | 0 <= i < |pages| && pages[i].Some?
      ensures PageServed(pages[i].value, id, q) <==>
        forall j: nat :: OrderedByAt(pages, id, g.id, i, j) ==> Dated(g.kind)
    {
      var p := pages[i].value;
      assert PageServed(p, id, r);
      if p.kind.DashboardPage? {
        if p.dashboard.Some? {
          DashboardAfter(p.dashboard.value, id, r, q, g);
          var lists := p.dashboard.value.recentLists;
          assert forall j: nat :: OrderedByAt(pages, id, g.id, i, j) <==>
            j < |lists| && lists[j].resource == id && lists[j].orderBy == g.id;
        }
      } else {
        ResourcePageAfter(p, r, q, g);
      }
    }
  }

  // ----- UpdateField -----

  lemma FoundIsServed(lib: Library, s: ProjectSpec, i: nat)
    requires WellFormedSpec(lib, s) && i < |s.resources|
    ensures s.resources[i].Some? && Serves(s.pages, s.resources[i].value.id, s.resources[i].value)
  {
    hide ResourceOK, PagesOK, NavigationOK, BrandingOK, Distinct, AllIDs, Serves;
    var q := s.resources[i].value;
    ReplacedIsSwapped(lib, s, i, q);
    assert s.resources[i := Some(q)] == s.resources;
    PagesSwapped(s, s, q.id, q, s.pages);
  }

  lemma ResourceUpdated(lib: Library, s: ProjectSpec, t: ProjectSpec, r: Resource, k: nat, g: Field)
    requires ResourceOK(lib, s, r) && Reaches(s, t) && Unique(KeyOfField, r.fields)
    requires k < |r.fields| && r.fields[k].Some? && SameIdentity(r.fields[k].value, g)
    ensures ResourceOK(lib, t, WithFieldAt(r, k, g)) <==>
      FieldTypeOK(s, g) && DefaultOK(lib, g) && ListsAccept(r.behavior, g.id, g.kind)
  {
    hide FieldsOK, FieldTypeOK, DefaultOK, BehaviorOK, HooksOK, ValidID, IsBlank, IsStorageName;
    hide IsExportedGoIdent, Reaches, Unique, ListsAccept;
    hide FieldSwapped;
    UpdatedIsSwapped(r, k, g);
    FieldsUpdated(lib, s, t, r.fields, k, g);
    BehaviorAfter(r, WithFieldAt(r, k, g), g);
  }

  lemma FieldIDIsNamed(lib: Library, s: ProjectSpec, i: nat, k: nat)
    requires WellFormedSpec(lib, s) && i < |s.resources| && s.resources[i].Some?
    requires k < |s.resources[i].value.fields| && s.resources[i].value.fields[k].Some?
    ensures s.resources[i].value.fields[k].value.id != ""
  {
    hide WellFormedSpec, FieldTypeOK, DefaultOK, Unique;
    Authoring.FieldsNamed(lib, s, i);
    assert FieldOK(lib, s, s.resources[i].value.fields[k].value);
    ValidIDShape(s.resources[i].value.fields[k].value.id, KindField);
  }

  /** An updated field makes the candidate valid exactly when its type and default agree, every
      capability it was given accepts its type, and it is a date where a recent list orders by
      it; the move is then neutral when its type stays or stays text-like or a point in time, and
      breaking otherwise. */
  lemma UpdatedFieldVerdict(lib: Library, s: ProjectSpec, i: nat, k: nat, g: Field)
    requires WellFormedSpec(lib, s) && i < |s.resources| && s.resources[i].Some?
    requires k < |s.resources[i].value.fields| && s.resources[i].value.fields[k].Some?
    requires SameIdentity(s.resources[i].value.fields[k].value, g)
    ensures
      var r := s.resources[i].value;
      var t := WithResourceAt(s, i, WithFieldAt(r, k, g));
      && (WellFormedSpec(lib, t) <==>
           && FieldTypeOK(s, g) && DefaultOK(lib, g)
           && ListsAccept(r.behavior, g.id, g.kind)
           && (OrderedBy(s.pages, r.id, g.id) ==> Dated(g.kind)))
      && (WellFormedSpec(lib, t) ==>
           if Interchangeable(r.fields[k].value.kind, g.kind)
           then Authoring.ClassOf(s, t).Neutral? else Authoring.ClassOf(s, t).Breaking?)
  {
    hide WellFormedSpec, ResourceOK, AllIDs, Distinct, FieldTypeOK, DefaultOK, ListsAccept, Dated;
    hide OrderedBy, Serves, Reaches, Unique;
    hide FieldSwapped, Swapped, Authoring.ClassOf, Interchangeable, FieldsOK, AllSome, IsBlank;
    var r := s.resources[i].value;
    var q := WithFieldAt(r, k, g);
    var t := WithResourceAt(s, i, q);
    ResourceOfValid(lib, s, i);
    Authoring.FieldsNamed(lib, s, i);
    IDsReplaced(r.fields, k, g);
    AllIDsReplaced(s, i, q);
    ReplacedIsSwapped(lib, s, i, q);
    ReplacedExactly(lib, s, i, q);
    ResourceUpdated(lib, s, t, r, k, g);
    FoundIsServed(lib, s, i);
    UpdatedIsSwapped(r, k, g);
    FieldIDIsNamed(lib, s, i, k);
    ServesAfter(s.pages, r.id, r, q, g);
    if WellFormedSpec(lib, t) { Authoring.UpdateFieldClass(lib, s, t, i, k, g); }
  }

  function Updated(f: Field, input: FieldInput): Field {
    f.(caption := input.caption, kind := input.kind, required := input.required, unique := input.unique,
       default := input.default, enumValues := input.enumValues)
  }

  /** UpdateField. It makes no candidate only for malformed input, a missing resource or field,
      or a relationship. */
  method UpdateField(lib: Library, s: ProjectSpec, resource: ID, field: ID, input: FieldInput)
      returns (candidate: Option<ProjectSpec>, ghost i: nat, ghost k: nat)
    requires WellFormedSpec(lib, s)
    ensures candidate.None? <==>
      || !FieldInputOK(input)
      || FindResource(s.resources, resource).None?
      || FindField(FindResource(s.resources, resource).value.fields, field).None?
      || FindField(FindResource(s.resources, resource).value.fields, field).value.kind.TBelongsTo?
    ensures candidate.Some? ==>
      && i < |s.resources| && s.resources[i].Some? && s.resources[i] == FindResource(s.resources, resource)
      && var r := s.resources[i].value;
         && k < |r.fields| && r.fields[k].Some? && r.fields[k] == FindField(r.fields, field)
         && var f := r.fields[k].value;
            var g := f.(caption := input.caption, kind := input.kind, required := input.required, unique := input.unique,
                        default := input.default, enumValues := input.enumValues);
            && candidate.value == s.(resources := s.resources[i := Some(r.(fields := r.fields[k := Some(g)]))])
            && (WellFormedSpec(lib, candidate.value) <==>
                 && FieldTypeOK(s, g) && DefaultOK(lib, g)
                 && ListsAccept(r.behavior, g.id, g.kind)
                 && (OrderedBy(s.pages, r.id, g.id) ==> Dated(g.kind)))
            && (WellFormedSpec(lib, candidate.value) ==>
                 if Interchangeable(f.kind, g.kind)
                 then Authoring.ClassOf(s, candidate.value).Neutral? else Authoring.ClassOf(s, candidate.value).Breaking?)
  {
    hide WellFormedSpec, FieldTypeOK, DefaultOK, ListsAccept, OrderedBy, Dated, Interchangeable, Authoring.ClassOf, Find, IsBlank;
    i, k := 0, 0;
    if !FieldInputOK(input) { return None, i, k; }
    var at := Position(ResourceID, s.resources, resource);
    if at.None? { return None, i, k; }
    var r := s.resources[at.value].value;
    var on := Position(FieldID, r.fields, field);
    if on.None? || r.fields[on.value].value.kind.TBelongsTo? { return None, i, k; }
    i, k := at.value, on.value;
    var g := Updated(r.fields[on.value].value, input);
    UpdatedFieldVerdict(lib, s, at.value, on.value, g);
    return Some(WithResourceAt(s, at.value, WithFieldAt(r, on.value, g))), i, k;
  }
}
