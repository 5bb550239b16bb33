/** DeleteField and DeletePage end to end
    (controlplane/internal/project/field.go and page.go). */
module Removals {
  import opened Text
  import opened Names
  import opened Spec
  import opened WellFormed
  import opened References
  import opened Creation
  import opened FieldCreation
  import opened FieldEdits
  import Authoring
  import Identity

  // ----- Taking out the entries of an ID -----

  function WithoutID<T>(id: T -> ID, xs: seq<Option<T>>, want: ID): seq<Option<T>> {
    if xs == [] then []
    else
      var last := xs[|xs| - 1];
      WithoutID(id, xs[..|xs| - 1], want) + if last.Some? && id(last.value) == want then [] else [last]
  }

  /** removeField and removePage. */
  method Remove<T>(id: T -> ID, xs: seq<Option<T>>, want: ID) returns (out: seq<Option<T>>)
    ensures out == WithoutID(id, xs, want)
  {
    out := [];
    for i := 0 to |xs|
      invariant out == WithoutID(id, xs[..i], want)
    {
      assert xs[..i + 1][..i] == xs[..i];
      if xs[i].None? || id(xs[i].value) != want {
        out := out + [xs[i]];
      }
    }
    assert xs[..|xs|] == xs;
  }

  function Skip<T>(xs: seq<T>, k: nat): seq<T>
    requires k < |xs|
  {
    xs[..k] + xs[k + 1..]
  }

  /** The ID of the entry at k is its alone. */
  ghost predicate Alone<T>(id: T -> ID, xs: seq<Option<T>>, k: nat) {
    && k < |xs| && xs[k].Some?
    && forall j :: 0 <= j < |xs| && j != k && xs[j].Some? ==> id(xs[j].value) != id(xs[k].value)
  }

  lemma {:induction false} NothingToTake<T>(id: T -> ID, xs: seq<Option<T>>, want: ID)
    requires forall j :: 0 <= j < |xs| && xs[j].Some? ==> id(xs[j].value) != want
    ensures WithoutID(id, xs, want) == xs
  {
    if xs != [] {
      var init, last := xs[..|xs| - 1], xs[|xs| - 1];
      assert xs == init + [last];
      forall j | 0 <= j < |init| && init[j].Some? ensures id(init[j].value) != want { assert init[j] == xs[j]; }
      NothingToTake(id, init, want);
      LastIsKept(id, xs, want);
    }
  }

  lemma LastIsKept<T>(id: T -> ID, xs: seq<Option<T>>, want: ID)
    requires xs != [] && (xs[|xs| - 1].Some? ==> id(xs[|xs| - 1].value) != want)
    ensures WithoutID(id, xs, want) == WithoutID(id, xs[..|xs| - 1], want) + [xs[|xs| - 1]]
  {
  }

  lemma {:induction false} OneIsSkipped<T>(id: T -> ID, xs: seq<Option<T>>, k: nat)
    requires Alone(id, xs, k)
    ensures WithoutID(id, xs, id(xs[k].value)) == Skip(xs, k)
  {
    var n := |xs| - 1;
    assert forall j :: 0 <= j < n ==> xs[..n][j] == xs[j];
    if k == n {
      NothingToTake(id, xs[..n], id(xs[k].value));
    } else {
      OneIsSkipped(id, xs[..n], k);
      assert Skip(xs, k) == Skip(xs[..n], k) + [xs[n]];
    }
  }

  lemma {:induction false} FindSkipped<T>(id: T -> ID, xs: seq<Option<T>>, k: nat, want: ID)
    requires Alone(id, xs, k)
    ensures Find(id, Skip(xs, k), want) == if want == id(xs[k].value) then None else Find(id, xs, want)
    ensures Find(id, xs, id(xs[k].value)) == xs[k]
  {
    var ys := Skip(xs, k);
    if k == 0 {
      assert ys == xs[1..];
    } else {
      assert ys[1..] == Skip(xs[1..], k - 1);
      FindSkipped(id, xs[1..], k - 1, want);
    }
  }

  lemma UniqueSkipped<T, K>(key: T -> Option<K>, xs: seq<Option<T>>, k: nat)
    requires k < |xs| && Unique(key, xs)
    ensures Unique(key, Skip(xs, k))
  {
    var ys := Skip(xs, k);
    forall i, j | 0 <= i < j < |ys| && ys[i].Some? && ys[j].Some? && key(ys[i].value).Some?
      ensures key(ys[i].value) != key(ys[j].value)
    {
      var p := if i < k then i else i + 1;
      var q := if j < k then j else j + 1;
      assert xs[p] == ys[i] && xs[q] == ys[j];
    }
  }

  lemma IDsSkipped<T>(id: T -> ID, xs: seq<Option<T>>, k: nat)
    requires k < |xs| && xs[k].Some?
    ensures IDs(id, xs) == IDs(id, xs[..k]) + [id(xs[k].value)] + IDs(id, xs[k + 1..])
    ensures IDs(id, Skip(xs, k)) == IDs(id, xs[..k]) + IDs(id, xs[k + 1..])
  {
    var a, b := xs[..k], xs[k + 1..];
    assert xs == a + [Some(xs[k].value)] + b;
    IDsConcat(id, a + [Some(xs[k].value)], b);
    IDsConcat(id, a, [Some(xs[k].value)]);
    IDsConcat(id, a, b);
    OneID(id, xs[k].value);
  }

  lemma DistinctSkipped<T>(a: seq<T>, x: T, b: seq<T>)
    requires Distinct(a + [x] + b)
    ensures Distinct(a + b)
  {
    var xs, ys := a + [x] + b, a + b;
    forall i, j | 0 <= i < j < |ys| ensures ys[i] != ys[j] {
      var p := if i < |a| then i else i + 1;
      var q := if j < |a| then j else j + 1;
      assert xs[p] == ys[i] && xs[q] == ys[j];
    }
  }

  // ----- Who names a field -----

  ghost predicate NotListed(b: Behavior, field: ID) {
    forall c: Capability :: field !in Listed(b, c)
  }

  ghost predicate DashboardNames(d: DashboardConfig, resource: ID, field: ID) {
    || (exists j :: 0 <= j < |d.recentLists| && d.recentLists[j].resource == resource && d.recentLists[j].orderBy == field)
    || (exists j :: 0 <= j < |d.aggregateCards| && d.aggregateCards[j].resource == resource && d.aggregateCards[j].field == field)
  }

  /** The page names the field of the resource: in its table, its form or a card. */
  ghost predicate PageNames(p: Page, resource: ID, field: ID) {
    if p.kind.DashboardPage? then
      p.dashboard.Some? && DashboardNames(p.dashboard.value, resource, field)
    else
      p.resource == resource
      && ((p.table.Some? && (field in p.table.value.columns || field in p.table.value.filters))
          || (p.form.Some? && field in p.form.value.fields))
  }

  ghost predicate NoPageNames(pages: seq<Option<Page>>, resource: ID, field: ID) {
    forall i :: 0 <= i < |pages| && pages[i].Some? ==> !PageNames(pages[i].value, resource, field)
  }

  /** Looking up a field after one was taken out. */
  ghost predicate FieldGone(r: Resource, q: Resource, field: ID) {
    && q.behavior == r.behavior
    && forall want :: FindField(q.fields, want) == if want == field then None else FindField(r.fields, want)
  }

  lemma CapabilityWithout(r: Resource, q: Resource, field: ID, c: Capability)
    requires FieldGone(r, q, field) && CapabilityOK(c, Listed(r.behavior, c), r.fields)
    ensures CapabilityOK(c, Listed(q.behavior, c), q.fields) <==> field !in Listed(r.behavior, c)
  {
    hide Accepts, Listed;
    var ids := Listed(r.behavior, c);
    if field in ids {
      var i :| 0 <= i < |ids| && ids[i] == field;
      assert FindField(q.fields, ids[i]).None?;
    }
  }

  lemma BehaviorWithout(r: Resource, q: Resource, field: ID)
    requires FieldGone(r, q, field) && BehaviorOK(r)
    ensures BehaviorOK(q) <==> NotListed(r.behavior, field)
  {
    assert forall c: Capability :: c.List? || c.Searchable? || c.Sortable? || c.Filterable? || c.Aggregatable?;
    hide FieldGone, CapabilityOK;
    CapabilityWithout(r, q, field, List);
    CapabilityWithout(r, q, field, Searchable);
    CapabilityWithout(r, q, field, Sortable);
    CapabilityWithout(r, q, field, Filterable);
    CapabilityWithout(r, q, field, Aggregatable);
    if NotListed(r.behavior, field) {
      assert field !in Listed(r.behavior, List) && field !in Listed(r.behavior, Searchable) && field !in Listed(r.behavior, Sortable);
      assert field !in Listed(r.behavior, Filterable) && field !in Listed(r.behavior, Aggregatable);
    }
  }

  lemma DashboardWithout(d: DashboardConfig, id: ID, r: Resource, q: Resource, field: ID)
    requires FieldGone(r, q, field) && DashboardServed(d, id, r) && field != ""
    ensures DashboardServed(d, id, q) <==> !DashboardNames(d, id, field)
  {
    forall j | 0 <= j < |d.recentLists| && d.recentLists[j].resource == id && d.recentLists[j].orderBy != ""
      ensures RecencyOK(q, d.recentLists[j].orderBy) <==> d.recentLists[j].orderBy != field
    {
      assert RecencyOK(r, d.recentLists[j].orderBy);
    }
    forall j | 0 <= j < |d.aggregateCards| && d.aggregateCards[j].resource == id
      ensures AggregateServed(d.aggregateCards[j], q) <==> d.aggregateCards[j].field != field
    {
      assert AggregateServed(d.aggregateCards[j], r);
    }
  }

  lemma AllOnResourceWithout(ids: seq<ID>, r: Resource, q: Resource, field: ID)
    requires FieldGone(r, q, field) && AllOnResource(ids, r)
    ensures AllOnResource(ids, q) <==> field !in ids
  {
    if field in ids {
      var i :| 0 <= i < |ids| && ids[i] == field;
      assert FindField(q.fields, ids[i]).None?;
    }
  }

  lemma PageWithout(p: Page, id: ID, r: Resource, q: Resource, field: ID)
    requires FieldGone(r, q, field) && PageServed(p, id, r) && field != ""
    ensures PageServed(p, id, q) <==> !PageNames(p, id, field)
  {
    hide DashboardServed, DashboardNames, AllOnResource;
    if p.kind.DashboardPage? {
      if p.dashboard.Some? { DashboardWithout(p.dashboard.value, id, r, q, field); }
    } else if p.resource == id {
      if p.table.Some? {
        AllOnResourceWithout(p.table.value.columns, r, q, field);
        AllOnResourceWithout(p.table.value.filters, r, q, field);
      }
      if p.form.Some? { AllOnResourceWithout(p.form.value.fields, r, q, field); }
    }
  }

  lemma ServesWithout(pages: seq<Option<Page>>, id: ID, r: Resource, q: Resource, field: ID)
    requires FieldGone(r, q, field) && Serves(pages, id, r) && field != ""
    ensures Serves(pages, id, q) <==> NoPageNames(pages, id, field)
  {
    hide FieldGone, PageServed, PageNames;
    forall i | 0 <= i < |pages| && pages[i].Some?
      ensures PageServed(pages[i].value, id, q) <==> !PageNames(pages[i].value, id, field)
    {
      PageWithout(pages[i].value, id, r, q, field);
    }
  }

  // ----- DeleteField -----

  function WithoutField(r: Resource, k: nat): Resource
    requires k < |r.fields|
  {
    r.(fields := Skip(r.fields, k))
  }

  lemma FieldsWithout(lib: Library, s: ProjectSpec, t: ProjectSpec, fields: seq<Option<Field>>, k: nat)
    requires FieldsOK(lib, s, fields) && Reaches(s, t) && k < |fields|
    ensures FieldsOK(lib, t, Skip(fields, k))
  {
    hide FieldOK, Unique, Reaches;
    UniqueSkipped(FieldCode, fields, k);
    UniqueSkipped(FieldGenerated, fields, k);
    UniqueSkipped(FieldStorage, fields, k);
    var rest := Skip(fields, k);
    forall j | 0 <= j < |rest| ensures rest[j].Some? && FieldOK(lib, t, rest[j].value) {
      var p := if j < k then j else j + 1;
      assert rest[j] == fields[p];
      FieldCarried(lib, s, t, fields[p].value);
    }
  }

  lemma AloneInFields(r: Resource, k: nat)
    requires k < |r.fields| && r.fields[k].Some? && Unique(KeyOfField, r.fields)
    ensures Alone(FieldID, r.fields, k)
    ensures FieldGone(r, WithoutField(r, k), r.fields[k].value.id)
  {
    AloneIfUnique(FieldID, KeyOfField, r.fields, k);
    forall want ensures FindField(Skip(r.fields, k), want) == if want == r.fields[k].value.id then None else FindField(r.fields, want) {
      FindSkipped(FieldID, r.fields, k, want);
    }
  }

  lemma AloneIfUnique<T>(id: T -> ID, key: T -> Option<ID>, xs: seq<Option<T>>, k: nat)
    requires k < |xs| && xs[k].Some? && Unique(key, xs) && forall x :: key(x) == Some(id(x))
    ensures Alone(id, xs, k)
  {
    forall j | 0 <= j < |xs| && j != k && xs[j].Some? ensures id(xs[j].value) != id(xs[k].value) {
      if j < k { assert key(xs[j].value) != key(xs[k].value); } else { assert key(xs[k].value) != key(xs[j].value); }
    }
  }

  lemma ResourceWithout(lib: Library, s: ProjectSpec, t: ProjectSpec, r: Resource, k: nat)
    requires ResourceOK(lib, s, r) && Reaches(s, t) && Unique(KeyOfField, r.fields)
    requires k < |r.fields| && r.fields[k].Some?
    ensures ResourceOK(lib, t, WithoutField(r, k)) <==> NotListed(r.behavior, r.fields[k].value.id)
  {
    hide FieldsOK, BehaviorOK, HooksOK, ValidID, IsBlank, IsStorageName, IsExportedGoIdent, Reaches;
    hide Unique, NotListed, FieldGone, Alone, Skip;
    AloneInFields(r, k);
    FieldsWithout(lib, s, t, r.fields, k);
    BehaviorWithout(r, WithoutField(r, k), r.fields[k].value.id);
  }

  lemma AllIDsWithout(s: ProjectSpec, i: nat, k: nat)
    requires i < |s.resources| && s.resources[i].Some? && k < |s.resources[i].value.fields| && s.resources[i].value.fields[k].Some?
    requires Distinct(AllIDs(s))
    ensures Distinct(AllIDs(WithResourceAt(s, i, WithoutField(s.resources[i].value, k))))
  {
    hide ResourceIDs, IDs, HookIDs, Distinct, Skip;
    var r := s.resources[i].value;
    var q := WithoutField(r, k);
    var a, b := s.resources[..i], s.resources[i + 1..];
    assert s.resources == a + ([Some(r)] + b);
    assert WithResourceAt(s, i, q).resources == a + ([Some(q)] + b);
    ResourceIDsConcat(a, [Some(r)] + b);
    ResourceIDsConcat([Some(r)], b);
    ResourceIDsConcat(a, [Some(q)] + b);
    ResourceIDsConcat([Some(q)], b);
    OneResourceIDs(r);
    OneResourceIDs(q);
    IDsSkipped(FieldID, r.fields, k);
    var x := [s.project.id] + ResourceIDs(a) + [r.id] + FieldIDs(r.fields[..k]);
    var y := FieldIDs(r.fields[k + 1..]) + HookIDs(r.hooks) + ResourceIDs(b) + IDs(PageID, s.pages) + IDs(NavID, s.navigation);
    assert AllIDs(s) == x + [r.fields[k].value.id] + y;
    assert AllIDs(WithResourceAt(s, i, q)) == x + y;
    DistinctSkipped(x, r.fields[k].value.id, y);
  }

  lemma GoneFromFields(r: Resource, k: nat)
    requires Alone(FieldID, r.fields, k)
    ensures forall j :: 0 <= j < |WithoutField(r, k).fields| && WithoutField(r, k).fields[j].Some? ==>
      WithoutField(r, k).fields[j].value.id != r.fields[k].value.id
  {
    var rest := Skip(r.fields, k);
    forall j | 0 <= j < |rest| && rest[j].Some? ensures rest[j].value.id != r.fields[k].value.id {
      assert rest[j] == r.fields[if j < k then j else j + 1];
    }
  }

  /** A deleted field leaves the spec valid exactly when no capability list and no page names it;
      the move is then breaking. */
  lemma DeletedFieldVerdict(lib: Library, s: ProjectSpec, i: nat, k: nat)
    requires WellFormedSpec(lib, s) && i < |s.resources| && s.resources[i].Some?
    requires k < |s.resources[i].value.fields| && s.resources[i].value.fields[k].Some?
    ensures
      var r := s.resources[i].value;
      var t := WithResourceAt(s, i, WithoutField(r, k));
      && WithoutID(FieldID, r.fields, r.fields[k].value.id) == Skip(r.fields, k)
      && (WellFormedSpec(lib, t) <==>
           NotListed(r.behavior, r.fields[k].value.id) && NoPageNames(s.pages, r.id, r.fields[k].value.id))
      && (WellFormedSpec(lib, t) ==> Authoring.ClassOf(s, t).Breaking?)
  {
    hide WellFormedSpec, ResourceOK, AllIDs, Distinct, NotListed, NoPageNames, Serves, Reaches, Unique, FieldsOK, AllSome;
    hide FieldGone, Swapped, Authoring.ClassOf, Skip, WithoutID, Alone;
    var r := s.resources[i].value;
    var q := WithoutField(r, k);
    var t := WithResourceAt(s, i, q);
    ResourceOfValid(lib, s, i);
    Authoring.FieldsNamed(lib, s, i);
    AloneInFields(r, k);
    OneIsSkipped(FieldID, r.fields, k);
    AllIDsWithout(s, i, k);
    ReplacedIsSwapped(lib, s, i, q);
    ReplacedExactly(lib, s, i, q);
    ResourceWithout(lib, s, t, r, k);
    FoundIsServed(lib, s, i);
    FieldIDIsNamed(lib, s, i, k);
    ServesWithout(s.pages, r.id, r, q, r.fields[k].value.id);
    if WellFormedSpec(lib, t) {
      GoneFromFields(r, k);
      Authoring.DeleteFieldIsBreaking(lib, s, t, i, k, q);
    }
  }

  /** DeleteField. */
  method DeleteField(lib: Library, s: ProjectSpec, resource: ID, field: ID)
      returns (candidate: Option<ProjectSpec>, ghost i: nat)
    requires WellFormedSpec(lib, s)
    ensures candidate.None? <==>
      || FindResource(s.resources, resource).None?
      || FindField(FindResource(s.resources, resource).value.fields, field).None?
    ensures candidate.Some? ==>
      && i < |s.resources| && s.resources[i].Some? && s.resources[i] == FindResource(s.resources, resource)
      && var r := s.resources[i].value;
         && candidate.value == WithResourceAt(s, i, r.(fields := WithoutID(FieldID, r.fields, field)))
         && (WellFormedSpec(lib, candidate.value) <==> NotListed(r.behavior, field) && NoPageNames(s.pages, resource, field))
         && (WellFormedSpec(lib, candidate.value) ==> Authoring.ClassOf(s, candidate.value).Breaking?)
  {
    hide WellFormedSpec, NotListed, NoPageNames, Authoring.ClassOf, WithoutID, Skip;
    i := 0;
    var at := Position(ResourceID, s.resources, resource);
    if at.None? { return None, i; }
    i := at.value;
    var r := s.resources[at.value].value;
    var on := Position(FieldID, r.fields, field);
    if on.None? { return None, i; }
    var fields := Remove(FieldID, r.fields, field);
    DeletedFieldVerdict(lib, s, at.value, on.value);
    return Some(WithResourceAt(s, at.value, r.(fields := fields))), i;
  }

  // ----- DeletePage -----

  function KeyOfPage(p: Page): Option<ID> { Some(p.id) }

  function WithoutPage(s: ProjectSpec, k: nat): ProjectSpec
    requires k < |s.pages|
  {
    s.(pages := Skip(s.pages, k))
  }

  /** A navigation entry points at the page. */
  ghost predicate Navigated(items: seq<Option<NavItem>>, page: ID) {
    exists i :: 0 <= i < |items| && items[i].Some? && items[i].value.target.NavPage? && items[i].value.page == page
  }

  lemma NavigationWithout(s: ProjectSpec, k: nat)
    requires Alone(PageID, s.pages, k) && NavigationOK(s, s.navigation)
    ensures NavigationOK(WithoutPage(s, k), s.navigation) <==> !Navigated(s.navigation, s.pages[k].value.id)
  {
    hide ValidID, IsBlank, Skip, HasPrefix;
    forall i | 0 <= i < |s.navigation| && s.navigation[i].Some?
      ensures NavOK(WithoutPage(s, k), s.navigation[i].value) <==>
        !(s.navigation[i].value.target.NavPage? && s.navigation[i].value.page == s.pages[k].value.id)
    {
      assert NavOK(s, s.navigation[i].value);
      FindSkipped(PageID, s.pages, k, s.navigation[i].value.page);
    }
  }

  lemma PagesWithout(s: ProjectSpec, k: nat)
    requires PagesOK(s, s.pages) && k < |s.pages|
    ensures PagesOK(WithoutPage(s, k), WithoutPage(s, k).pages)
  {
    hide PageOK, Unique;
    UniqueSkipped(PageSlug, s.pages, k);
    UniqueSkipped(FormOf, s.pages, k);
    UniqueSkipped(DetailOf, s.pages, k);
    var rest := Skip(s.pages, k);
    forall j | 0 <= j < |rest| ensures rest[j].Some? && PageOK(WithoutPage(s, k), rest[j].value) {
      assert rest[j] == s.pages[if j < k then j else j + 1];
      PageLooksAtResources(s, WithoutPage(s, k), rest[j].value);
    }
  }

  lemma AllIDsWithoutPage(s: ProjectSpec, k: nat)
    requires Distinct(AllIDs(s)) && k < |s.pages| && s.pages[k].Some?
    ensures Distinct(AllIDs(WithoutPage(s, k)))
  {
    hide ResourceIDs, IDs, Distinct, Skip;
    IDsSkipped(PageID, s.pages, k);
    var x := [s.project.id] + ResourceIDs(s.resources) + IDs(PageID, s.pages[..k]);
    var y := IDs(PageID, s.pages[k + 1..]) + IDs(NavID, s.navigation);
    assert AllIDs(s) == x + [s.pages[k].value.id] + y;
    assert AllIDs(WithoutPage(s, k)) == x + y;
    DistinctSkipped(x, s.pages[k].value.id, y);
  }

  lemma AloneInPages(lib: Library, s: ProjectSpec, k: nat)
    requires WellFormedSpec(lib, s) && k < |s.pages| && s.pages[k].Some?
    ensures Alone(PageID, s.pages, k)
  {
    hide ResourcesOK, PagesOK, NavigationOK, BrandingOK, ProjectOK, ResourceIDs, IDs, Distinct;
    Identity.SectionsDistinct(s);
    Identity.DistinctIDsAreUnique(PageID, KeyOfPage, s.pages);
    AloneIfUnique(PageID, KeyOfPage, s.pages, k);
  }

  /** A deleted page leaves the spec valid exactly when no navigation entry points at it. */
  lemma DeletedPageVerdict(lib: Library, s: ProjectSpec, k: nat)
    requires WellFormedSpec(lib, s) && k < |s.pages| && s.pages[k].Some?
    ensures WithoutID(PageID, s.pages, s.pages[k].value.id) == Skip(s.pages, k)
    ensures WellFormedSpec(lib, WithoutPage(s, k)) <==> !Navigated(s.navigation, s.pages[k].value.id)
  {
    hide PagesOK, ResourcesOK, NavigationOK, BrandingOK, AllIDs, Distinct, Alone, Skip, WithoutID, Navigated;
    AloneInPages(lib, s, k);
    OneIsSkipped(PageID, s.pages, k);
    PagesWithout(s, k);
    ResourcesLookAtResources(lib, s, WithoutPage(s, k));
    NavigationWithout(s, k);
    AllIDsWithoutPage(s, k);
    assert ProjectOK(WithoutPage(s, k));
  }

  /** DeletePage: the move is neutral. */
  method DeletePage(lib: Library, s: ProjectSpec, page: ID) returns (candidate: Option<ProjectSpec>)
    requires WellFormedSpec(lib, s)
    ensures candidate.None? <==> FindPage(s.pages, page).None?
    ensures candidate.Some? ==>
      && candidate.value == s.(pages := WithoutID(PageID, s.pages, page))
      && (WellFormedSpec(lib, candidate.value) <==> !Navigated(s.navigation, page))
      && Authoring.ClassOf(s, candidate.value).Neutral?
  {
    hide WellFormedSpec, Navigated, WithoutID, Skip, Authoring.ClassOf;
    var on := Position(PageID, s.pages, page);
    if on.None? { return None; }
    var pages := Remove(PageID, s.pages, page);
    DeletedPageVerdict(lib, s, on.value);
    Authoring.ViewEditsAreNeutral(s, s.(pages := pages));
    return Some(s.(pages := pages));
  }
}
