/** What an edit must keep for everything that refers to resources and fields to stay valid:
    the references still resolve, to the same kinds. */
module References {
  import opened Text
  import opened Names
  import opened Spec
  import opened WellFormed

  /** q has r's behavior and a field of the same kind wherever r has one. */
  ghost predicate Supports(r: Resource, q: Resource) {
    && q.behavior == r.behavior
    && forall id :: FindField(r.fields, id).Some? ==>
         FindField(q.fields, id).Some? && FindField(q.fields, id).value.kind == FindField(r.fields, id).value.kind
  }

  /** Every resource of s has one in t that supports what refers to it. */
  ghost predicate Upholds(s: ProjectSpec, t: ProjectSpec) {
    forall id :: FindResource(s.resources, id).Some? ==>
      FindResource(t.resources, id).Some? &&
      Supports(FindResource(s.resources, id).value, FindResource(t.resources, id).value)
  }

  /** Every resource of s is still there in t. */
  ghost predicate Reaches(s: ProjectSpec, t: ProjectSpec) {
    forall id :: FindResource(s.resources, id).Some? ==> FindResource(t.resources, id).Some?
  }

  lemma UpholdsReaches(s: ProjectSpec, t: ProjectSpec)
    requires Upholds(s, t)
    ensures Reaches(s, t)
  {
    hide Supports;
  }

  lemma SupportsItself(r: Resource)
    ensures Supports(r, r)
  {
  }

  lemma BehaviorCarried(r: Resource, q: Resource)
    requires Supports(r, q) && BehaviorOK(r)
    ensures BehaviorOK(q)
  {
  }

  lemma FieldTypeCarried(s: ProjectSpec, t: ProjectSpec, f: Field)
    requires Reaches(s, t) && FieldTypeOK(s, f)
    ensures FieldTypeOK(t, f)
  {
    hide EnumOK;
  }

  lemma FieldCarried(lib: Library, s: ProjectSpec, t: ProjectSpec, f: Field)
    requires Reaches(s, t) && FieldOK(lib, s, f)
    ensures FieldOK(lib, t, f)
  {
    hide DefaultOK, ValidID, IsBlank, IsStorageName, IsExportedGoIdent, FieldTypeOK, Reaches;
    FieldTypeCarried(s, t, f);
  }

  lemma ResourceCarried(lib: Library, s: ProjectSpec, t: ProjectSpec, r: Resource)
    requires Reaches(s, t) && ResourceOK(lib, s, r)
    ensures ResourceOK(lib, t, r)
  {
    hide FieldOK, ValidID, IsBlank, IsStorageName, IsExportedGoIdent, BehaviorOK, HooksOK, Unique, Reaches;
    forall k | 0 <= k < |r.fields| && r.fields[k].Some? ensures FieldOK(lib, t, r.fields[k].value) {
      FieldCarried(lib, s, t, r.fields[k].value);
    }
  }

  lemma TableCarried(config: TableConfig, r: Resource, q: Resource)
    requires Supports(r, q) && TableOK(config, r)
    ensures TableOK(config, q)
  {
  }

  lemma FormCarried(form: FormConfig, r: Resource, q: Resource)
    requires Supports(r, q) && FormOK(form, r)
    ensures FormOK(form, q)
  {
  }

  lemma RecencyCarried(r: Resource, q: Resource, orderBy: ID)
    requires Supports(r, q) && RecencyOK(r, orderBy)
    ensures RecencyOK(q, orderBy)
  {
  }

  lemma RecentCarried(s: ProjectSpec, t: ProjectSpec, c: Card)
    requires Upholds(s, t) && RecentOK(s, c)
    ensures RecentOK(t, c)
  {
    hide IsBlank, RecencyOK, Supports;
    if c.orderBy != "" {
      RecencyCarried(FindResource(s.resources, c.resource).value, FindResource(t.resources, c.resource).value, c.orderBy);
    }
  }

  lemma AggregateCarried(s: ProjectSpec, t: ProjectSpec, c: AggregateCard)
    requires Upholds(s, t) && AggregateOK(s, c)
    ensures AggregateOK(t, c)
  {
    hide IsBlank;
  }

  lemma DashboardCarried(s: ProjectSpec, t: ProjectSpec, d: DashboardConfig)
    requires Upholds(s, t) && DashboardOK(s, d)
    ensures DashboardOK(t, d)
  {
    hide IsBlank, RecentOK, AggregateOK, Supports;
    forall i | 0 <= i < |d.countCards| ensures CardOK(t, d.countCards[i]) { assert CardOK(s, d.countCards[i]); }
    forall i | 0 <= i < |d.recentLists| ensures RecentOK(t, d.recentLists[i]) { RecentCarried(s, t, d.recentLists[i]); }
    forall i | 0 <= i < |d.aggregateCards| ensures AggregateOK(t, d.aggregateCards[i]) {
      AggregateCarried(s, t, d.aggregateCards[i]);
    }
  }

  lemma ResourcePageCarried(s: ProjectSpec, t: ProjectSpec, p: Page)
    requires Upholds(s, t) && ResourcePageOK(s, p)
    ensures ResourcePageOK(t, p)
  {
    hide TableOK, FormOK, Supports;
    var r, q := FindResource(s.resources, p.resource).value, FindResource(t.resources, p.resource).value;
    if p.table.Some? { TableCarried(p.table.value, r, q); }
    if p.form.Some? { FormCarried(p.form.value, r, q); }
  }

  lemma PageCarried(s: ProjectSpec, t: ProjectSpec, p: Page)
    requires Upholds(s, t) && PageOK(s, p)
    ensures PageOK(t, p)
  {
    hide ValidID, IsBlank, IsSlug, DashboardOK, ResourcePageOK, Upholds;
    if p.kind.DashboardPage? {
      if p.dashboard.Some? { DashboardCarried(s, t, p.dashboard.value); }
    } else {
      ResourcePageCarried(s, t, p);
    }
  }

  lemma PagesCarried(s: ProjectSpec, t: ProjectSpec, pages: seq<Option<Page>>)
    requires Upholds(s, t) && PagesOK(s, pages)
    ensures PagesOK(t, pages)
  {
    hide PageOK, Unique, Upholds;
    forall i | 0 <= i < |pages| && pages[i].Some? ensures PageOK(t, pages[i].value) {
      PageCarried(s, t, pages[i].value);
    }
  }

  lemma NavigationCarried(s: ProjectSpec, t: ProjectSpec, items: seq<Option<NavItem>>)
    requires t.pages == s.pages && NavigationOK(s, items)
    ensures NavigationOK(t, items)
  {
    hide ValidID, IsBlank;
  }

  /** A spec whose resources alone were edited: it is valid as soon as they and the IDs are. */
  lemma EditedResources(lib: Library, s: ProjectSpec, t: ProjectSpec)
    requires WellFormedSpec(lib, s) && Upholds(s, t) && t == s.(resources := t.resources)
    ensures WellFormedSpec(lib, t) <==> ResourcesOK(lib, t, t.resources) && Distinct(AllIDs(t))
  {
    hide PagesOK, NavigationOK, BrandingOK, ResourcesOK, Distinct, AllIDs, Upholds;
    PagesCarried(s, t, s.pages);
    NavigationCarried(s, t, s.navigation);
    assert ProjectOK(t);
  }
}
