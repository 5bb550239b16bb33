/** AddResource and AddPage end to end: what is minted and derived, when the candidate is
    valid, and its class (controlplane/internal/project/resource.go and page.go). */
module Creation {
  import opened Text
  import opened Names
  import opened Spec
  import opened WellFormed
  import opened Normalize
  import opened Ledger
  import opened LiveLedger
  import opened FreshNames
  import opened References
  import Authoring
  import Identity

  // ----- Appending keeps what was valid -----

  lemma {:induction false} FindAppended<T>(id: T -> ID, xs: seq<Option<T>>, x: Option<T>, want: ID)
    ensures Find(id, xs, want).Some? ==> Find(id, xs + [x], want) == Find(id, xs, want)
  {
    if xs != [] {
      assert (xs + [x])[1..] == xs[1..] + [x];
      FindAppended(id, xs[1..], x, want);
    }
  }

  lemma DistinctInsert<T>(a: seq<T>, x: T, b: seq<T>)
    requires Distinct(a + b) && x !in a + b
    ensures Distinct(a + [x] + b)
  {
    var ys, zs := a + b, a + [x] + b;
    forall i, j | 0 <= i < j < |zs| ensures zs[i] != zs[j] {
      var p := if i <= |a| then i else i - 1;
      var q := if j <= |a| then j else j - 1;
      if i != |a| { assert zs[i] == ys[p]; }
      if j != |a| { assert zs[j] == ys[q]; }
    }
  }

  // ----- A project without revisions -----

  /** bootstrapSpec: the defaults, with nothing in it yet. */
  function Bootstrap(id: ID, name: string, slug: string): ProjectSpec {
    ProjectSpec(SPEC_VERSION, Project(id, name, slug, ""), Postgres, Cookie, [], [], [], None)
  }

  /** The bootstrap is valid exactly when the project's ID, name and slug are. */
  lemma BootstrapIsValid(lib: Library, id: ID, name: string, slug: string)
    ensures WellFormedSpec(lib, Bootstrap(id, name, slug)) <==> ValidID(id, KindProject) && !IsBlank(name) && IsSlug(slug)
  {
    hide ValidID, IsBlank, IsSlug;
    assert AllIDs(Bootstrap(id, name, slug)) == [id];
  }

  const ZEROS: string := "00000000000000000000000000"

  /** A valid specification exists. */
  lemma SomeSpecIsValid(lib: Library)
    ensures WellFormedSpec(lib, Bootstrap("prj" + "_" + ZEROS, "Shop", "shop"))
  {
    var id := "prj" + "_" + ZEROS;
    assert ValidID(id, KindProject) by {
      assert |ZEROS| == ULID_LEN && forall i :: 0 <= i < |ZEROS| ==> ZEROS[i] == CROCKFORD[0];
      assert KindProject.Prefix() == "prj";
      ValidIDShape(id, KindProject);
    }
    assert !IsBlank("Shop") by { assert "Shop"[0] == 'S' && !IsSpace('S'); }
    hide ValidID;
    BootstrapIsValid(lib, id, "Shop", "shop");
  }

  // ----- A new resource -----

  function NewResource(id: ID, caption: string, labelPlural: string, code: string, storage: string): Resource {
    Resource(id, caption, labelPlural, code, storage, [], Behavior(true, true, true, true, [], [], [], [], []), [])
  }

  function WithResource(s: ProjectSpec, q: Resource): ProjectSpec { s.(resources := s.resources + [Some(q)]) }

  lemma OneMoreResource(rs: seq<Option<Resource>>, q: Resource)
    requires q.fields == [] && q.hooks == []
    ensures ResourceIDs(rs + [Some(q)]) == ResourceIDs(rs) + [q.id]
  {
    assert (rs + [Some(q)])[..|rs|] == rs;
  }

  lemma ResourceIDsAppended(s: ProjectSpec, q: Resource)
    requires q.fields == [] && q.hooks == []
    requires Distinct(AllIDs(s)) && q.id !in AllIDs(s)
    ensures Distinct(AllIDs(WithResource(s, q)))
  {
    hide ResourceIDs, IDs, Distinct;
    OneMoreResource(s.resources, q);
    var a := [s.project.id] + ResourceIDs(s.resources);
    var b := IDs(PageID, s.pages) + IDs(NavID, s.navigation);
    assert AllIDs(s) == a + b;
    assert AllIDs(WithResource(s, q)) == a + [q.id] + b;
    DistinctInsert(a, q.id, b);
  }

  lemma ResourcesAppended(lib: Library, s: ProjectSpec, q: Resource)
    requires ResourcesOK(lib, s, s.resources)
    requires Upholds(s, WithResource(s, q)) && ResourceOK(lib, WithResource(s, q), q)
    requires !HasKey(ResourceCode, s.resources, q.codeName) && !HasKey(ResourceStorage, s.resources, q.storageName)
    ensures ResourcesOK(lib, WithResource(s, q), WithResource(s, q).resources)
  {
    hide ResourceOK, Upholds, Reaches, Unique;
    var t := WithResource(s, q);
    UpholdsReaches(s, t);
    forall i | 0 <= i < |t.resources| && t.resources[i].Some? ensures ResourceOK(lib, t, t.resources[i].value) {
      if i < |s.resources| {
        assert t.resources[i] == s.resources[i];
        ResourceCarried(lib, s, t, s.resources[i].value);
      }
    }
    UniqueSnoc(ResourceCode, s.resources, q);
    UniqueSnoc(ResourceStorage, s.resources, q);
  }

  lemma ResourceAppended(lib: Library, s: ProjectSpec, q: Resource)
    requires WellFormedSpec(lib, s)
    requires q.fields == [] && q.hooks == [] && q.id !in AllIDs(s)
    requires ResourceOK(lib, WithResource(s, q), q)
    requires !HasKey(ResourceCode, s.resources, q.codeName) && !HasKey(ResourceStorage, s.resources, q.storageName)
    ensures WellFormedSpec(lib, WithResource(s, q))
  {
    var t := WithResource(s, q);
    forall id | FindResource(s.resources, id).Some?
      ensures FindResource(t.resources, id).Some? && Supports(FindResource(s.resources, id).value, FindResource(t.resources, id).value)
    {
      FindAppended(ResourceID, s.resources, Some(q), id);
      SupportsItself(FindResource(s.resources, id).value);
    }
    hide Upholds, ResourceOK, ResourcesOK, Distinct, AllIDs, WellFormedSpec;
    assert Upholds(s, t) by { UpholdsAll(s, t); }
    ResourcesOfValid(lib, s);
    ResourcesAppended(lib, s, q);
    ResourceIDsAppended(s, q);
    EditedResources(lib, s, t);
  }

  lemma UpholdsAll(s: ProjectSpec, t: ProjectSpec)
    requires forall id :: FindResource(s.resources, id).Some? ==>
      FindResource(t.resources, id).Some? && Supports(FindResource(s.resources, id).value, FindResource(t.resources, id).value)
    ensures Upholds(s, t)
  {
  }

  lemma ResourcesOfValid(lib: Library, s: ProjectSpec)
    requires WellFormedSpec(lib, s)
    ensures ResourcesOK(lib, s, s.resources) && Distinct(AllIDs(s))
  {
  }

  /** A minted symbol is an exported identifier. */
  lemma VariantIsExported(base: string, n: nat)
    requires base != "" && Upper(base[0]) && forall i :: 0 <= i < |base| ==> Alnum(base[i])
    ensures IsExportedGoIdent(Variant(base, n))
  {
    var v := Variant(base, n);
    assert v[0] == base[0];
    forall i | 0 <= i < |v| ensures IdentChar(v[i]) {
      if i >= |base| { assert v[i] == Itoa(n)[i - |base|]; }
    }
    if v in GO_KEYWORDS { KeywordsAreLower(v); assert false; }
  }

  lemma ResourceBaseIsUsable(lib: Library, caption: string, id: ID)
    requires ValidID(id, KindResource)
    ensures
      var base := BaseSymbol(lib, caption, id);
      base != "" && Upper(base[0]) && forall i :: 0 <= i < |base| ==> Alnum(base[i])
  {
    hide Normal;
    NormalIsExported(lib, caption);
    ValidIDShape(id, KindResource);
    assert PrefixOf(id) == "res";
    assert forall i :: 0 <= i < |"Resource"| ==> Alnum("Resource"[i]);
  }

  lemma ResourceKeyIsID(s: ProjectSpec, id: ID)
    requires HasKey(KeyOfResource, s.resources, id)
    ensures id in AllIDs(s)
  {
    hide ResourceIDs, IDs;
    var i :| 0 <= i < |s.resources| && s.resources[i].Some? && KeyOfResource(s.resources[i].value) == Some(id);
    Identity.ResourceIDsMeaning(s.resources);
    assert Identity.OwnID(s.resources[i].value, id);
    assert id in ResourceIDs(s.resources);
  }

  lemma FreshIsStranger(s: ProjectSpec, id: ID)
    requires id !in AllIDs(s)
    ensures forall i :: 0 <= i < |s.resources| && s.resources[i].Some? ==> s.resources[i].value.id != id
  {
    hide AllIDs;
    forall i | 0 <= i < |s.resources| && s.resources[i].Some? ensures s.resources[i].value.id != id {
      if s.resources[i].value.id == id {
        assert KeyOfResource(s.resources[i].value) == Some(id);
        ResourceKeyIsID(s, id);
      }
    }
  }

  lemma NewResourceOK(lib: Library, s: ProjectSpec, q: Resource)
    requires q == NewResource(q.id, q.caption, q.labelPlural, q.codeName, q.storageName)
    requires ValidID(q.id, KindResource) && !IsBlank(q.caption) && IsExportedGoIdent(q.codeName)
    ensures ResourceOK(lib, s, q) <==> IsStorageName(q.storageName)
  {
    hide ValidID, IsBlank, IsStorageName, IsExportedGoIdent;
  }

  lemma StoragesAreKeys(rs: seq<Option<Resource>>, name: string)
    ensures HasKey(ResourceStorage, rs, name) <==> name in ResourceStorages(rs)
  {
  }

  /** A fresh resource makes the candidate valid exactly when its derived table name fits, and
      then the move is additive. */
  lemma NewResourceVerdict(lib: Library, s: ProjectSpec, q: Resource)
    requires WellFormedSpec(lib, s)
    requires q == NewResource(q.id, q.caption, q.labelPlural, q.codeName, q.storageName)
    requires ValidID(q.id, KindResource) && q.id !in AllIDs(s) && !IsBlank(q.caption) && IsExportedGoIdent(q.codeName)
    requires !HasKey(ResourceCode, s.resources, q.codeName) && q.storageName !in ResourceStorages(s.resources)
    ensures WellFormedSpec(lib, WithResource(s, q)) <==> IsStorageName(q.storageName)
    ensures WellFormedSpec(lib, WithResource(s, q)) ==> Authoring.ClassOf(s, WithResource(s, q)).Additive?
  {
    var t := WithResource(s, q);
    StoragesAreKeys(s.resources, q.storageName);
    NewResourceOK(lib, t, q);
    if WellFormedSpec(lib, t) {
      assert t.resources[|s.resources|] == Some(q);
      assert ResourceOK(lib, t, q);
    }
    hide WellFormedSpec, ResourceOK, HasKey, IsStorageName, AllIDs;
    if IsStorageName(q.storageName) { ResourceAppended(lib, s, q); }
    if WellFormedSpec(lib, t) { Authoring.AddResourceIsAdditive(lib, s, t, q); }
  }

  /** The n-th numbered variant of the label's symbol is the first no resource has. */
  ghost predicate FirstResourceSymbol(lib: Library, rs: seq<Option<Resource>>, caption: string, id: ID, n: nat, code: string) {
    && 1 <= n <= MAX_MINT_ATTEMPTS
    && BaseSymbol(lib, caption, id) != ""
    && code == Variant(BaseSymbol(lib, caption, id), n)
    && !HasKey(ResourceCode, rs, code)
    && forall m :: 1 <= m < n ==> HasKey(ResourceCode, rs, Variant(BaseSymbol(lib, caption, id), m))
  }

  /** AddResource. It makes no candidate only for a blank label or when every numbered variant
      of the symbol is taken. On a valid head and with a fresh ID the candidate is valid
      exactly when the derived table name fits 63 characters, and then commits as additive. */
  method AddResource(lib: Library, s: ProjectSpec, caption: string, labelPlural: string, id: ID)
      returns (candidate: Option<ProjectSpec>, ghost q: Resource)
    requires WellFormedSpec(lib, s) && ValidID(id, KindResource) && id !in AllIDs(s)
    ensures candidate.None? <==> IsBlank(caption) || forall n :: 1 <= n <= MAX_MINT_ATTEMPTS ==>
      HasKey(ResourceCode, s.resources, Variant(BaseSymbol(lib, caption, id), n))
    ensures candidate.Some? ==>
      && candidate.value == s.(resources := s.resources + [Some(q)])
      && q == Resource(id, caption, labelPlural, q.codeName, q.storageName, [],
                       Behavior(true, true, true, true, [], [], [], [], []), [])
      && (exists n: nat :: FirstResourceSymbol(lib, s.resources, caption, id, n, q.codeName))
      && FreshName(q.storageName, ResourceBase(lib, labelPlural, caption), '_', "", ResourceStorages(s.resources))
      && (WellFormedSpec(lib, candidate.value) <==> |q.storageName| <= 63)
      && (WellFormedSpec(lib, candidate.value) ==> Authoring.ClassOf(s, candidate.value).Additive?)
  {
    hide WellFormedSpec, AllIDs, BaseSymbol, Variant, HasKey, FreshName, IsStorageName, ValidID;
    q := NewResource(id, caption, labelPlural, "", "");
    if IsBlank(caption) { return None, q; }
    var ledger := ResourceLedger(s.resources);
    ghost var before := ledger.entries;
    FreshIsStranger(s, id);
    StrangerOwnsNothing(before, RESOURCE_NAMESPACE, ResourceCode, ResourceID, s.resources, id);
    ResourceBaseIsUsable(lib, caption, id);
    var code := ledger.Mint(lib, RESOURCE_NAMESPACE, caption, id, NothingReserved);
    if code.None? { return None, q; }
    ghost var n :| 1 <= n <= MAX_MINT_ATTEMPTS && code.value == Variant(BaseSymbol(lib, caption, id), n)
      && forall m :: 1 <= m < n ==> !Available(before, RESOURCE_NAMESPACE, NothingReserved, Variant(BaseSymbol(lib, caption, id), m));
    assert FirstResourceSymbol(lib, s.resources, caption, id, n, code.value);
    VariantIsExported(BaseSymbol(lib, caption, id), n);
    var storage := DeriveStorageName(lib, labelPlural, caption, s.resources);
    assert storage !in ResourceStorages(s.resources) by { FreshIsUnused(storage, lib, labelPlural, caption, s.resources); }
    var r := NewResource(id, caption, labelPlural, code.value, storage);
    q := r;
    NewResourceVerdict(lib, s, r);
    return Some(WithResource(s, r)), q;
  }

  lemma FreshIsUnused(name: string, lib: Library, labelPlural: string, caption: string, rs: seq<Option<Resource>>)
    requires FreshName(name, ResourceBase(lib, labelPlural, caption), '_', "", ResourceStorages(rs))
    ensures name !in ResourceStorages(rs)
  {
  }

  // ----- A new page -----

  function NewPage(id: ID, slug: string, caption: string, kind: PageType, resource: ID): Page {
    Page(id, slug, caption, kind, if kind.DashboardPage? then "" else resource, None, None, None)
  }

  function WithPage(s: ProjectSpec, p: Page): ProjectSpec { s.(pages := s.pages + [Some(p)]) }

  /** validatePageInput reports no error. */
  predicate PageInputOK(caption: string, kind: PageType, resource: ID) {
    && !IsBlank(caption)
    && !kind.UnknownPage?
    && (if kind.DashboardPage? then resource == "" else resource != "")
  }

  lemma OneMoreID<T>(id: T -> ID, xs: seq<Option<T>>, x: T)
    ensures IDs(id, xs + [Some(x)]) == IDs(id, xs) + [id(x)]
  {
    assert (xs + [Some(x)])[..|xs|] == xs;
  }

  lemma PageIDsAppended(s: ProjectSpec, p: Page)
    requires Distinct(AllIDs(s)) && p.id !in AllIDs(s)
    ensures Distinct(AllIDs(WithPage(s, p)))
  {
    hide ResourceIDs, IDs, Distinct;
    OneMoreID(PageID, s.pages, p);
    var a := [s.project.id] + ResourceIDs(s.resources) + IDs(PageID, s.pages);
    var b := IDs(NavID, s.navigation);
    assert AllIDs(WithPage(s, p)) == a + [p.id] + b;
    DistinctInsert(a, p.id, b);
  }

  /** A table page may be added any number of times, a form or detail page once a resource. */
  ghost predicate RoleFree(s: ProjectSpec, p: Page) {
    && (FormOf(p).Some? ==> !HasKey(FormOf, s.pages, FormOf(p).value))
    && (DetailOf(p).Some? ==> !HasKey(DetailOf, s.pages, DetailOf(p).value))
  }

  lemma PagesAppended(s: ProjectSpec, p: Page)
    requires PagesOK(s, s.pages) && !HasKey(PageSlug, s.pages, p.slug)
    ensures PagesOK(WithPage(s, p), WithPage(s, p).pages) <==> PageOK(s, p) && RoleFree(s, p)
  {
    hide PageOK, Unique, HasKey;
    var t := WithPage(s, p);
    forall i | 0 <= i < |t.pages| && t.pages[i].Some? ensures PageOK(t, t.pages[i].value) <==> PageOK(s, t.pages[i].value) {
      PageLooksAtResources(s, t, t.pages[i].value);
    }
    assert t.pages[|s.pages|] == Some(p);
    assert forall i :: 0 <= i < |s.pages| ==> t.pages[i] == s.pages[i];
    UniqueSnoc(PageSlug, s.pages, p);
    UniqueSnoc(FormOf, s.pages, p);
    UniqueSnoc(DetailOf, s.pages, p);
  }

  lemma PageLooksAtResources(s: ProjectSpec, t: ProjectSpec, p: Page)
    requires t.resources == s.resources
    ensures PageOK(t, p) <==> PageOK(s, p)
  {
    hide ValidID, IsBlank, IsSlug;
  }

  lemma ResourcesLookAtResources(lib: Library, s: ProjectSpec, t: ProjectSpec)
    requires t.resources == s.resources && ResourcesOK(lib, s, s.resources)
    ensures ResourcesOK(lib, t, t.resources)
  {
    hide ResourceOK, Unique;
    assert Reaches(s, t);
    forall i | 0 <= i < |s.resources| && s.resources[i].Some? ensures ResourceOK(lib, t, s.resources[i].value) {
      ResourceCarried(lib, s, t, s.resources[i].value);
    }
  }

  lemma NavigationStays(s: ProjectSpec, p: Page)
    requires NavigationOK(s, s.navigation)
    ensures NavigationOK(WithPage(s, p), s.navigation)
  {
    hide ValidID, IsBlank;
    forall i | 0 <= i < |s.navigation| && s.navigation[i].Some? ensures NavOK(WithPage(s, p), s.navigation[i].value) {
      assert NavOK(s, s.navigation[i].value);
      FindAppended(PageID, s.pages, Some(p), s.navigation[i].value.page);
    }
  }

  lemma PageVerdict(lib: Library, s: ProjectSpec, p: Page)
    requires WellFormedSpec(lib, s) && p.id !in AllIDs(s) && !HasKey(PageSlug, s.pages, p.slug)
    ensures WellFormedSpec(lib, WithPage(s, p)) <==> PageOK(s, p) && RoleFree(s, p)
    ensures Authoring.ClassOf(s, WithPage(s, p)).Neutral?
  {
    hide PagesOK, ResourcesOK, NavigationOK, BrandingOK, AllIDs, Distinct, HasKey, PageOK, RoleFree;
    PagesAppended(s, p);
    ResourcesLookAtResources(lib, s, WithPage(s, p));
    NavigationStays(s, p);
    PageIDsAppended(s, p);
    assert ProjectOK(WithPage(s, p));
    Authoring.ViewEditsAreNeutral(s, WithPage(s, p));
  }

  lemma NewPageOK(s: ProjectSpec, p: Page, resource: ID)
    requires PageInputOK(p.caption, p.kind, resource) && ValidID(p.id, KindPage)
    requires p == NewPage(p.id, p.slug, p.caption, p.kind, resource)
    ensures PageOK(s, p) <==> IsSlug(p.slug) && (!p.kind.DashboardPage? ==> FindResource(s.resources, resource).Some?)
  {
    hide ValidID, IsBlank, IsSlug;
  }

  lemma SlugsAreKeys(pages: seq<Option<Page>>, slug: string)
    ensures HasKey(PageSlug, pages, slug) <==> slug in PageSlugs(pages)
  {
  }

  /** AddPage. On a valid head the candidate is valid exactly when the derived slug fits, the
      bound resource exists and, for a form or detail page, the resource has none yet; the
      move is neutral. */
  method AddPage(lib: Library, s: ProjectSpec, caption: string, kind: PageType, resource: ID, id: ID)
      returns (candidate: Option<ProjectSpec>, ghost p: Page)
    requires WellFormedSpec(lib, s) && ValidID(id, KindPage) && id !in AllIDs(s)
    ensures candidate.None? <==> !PageInputOK(caption, kind, resource)
    ensures candidate.Some? ==>
      && candidate.value == s.(pages := s.pages + [Some(p)])
      && p == Page(id, p.slug, caption, kind, if kind.DashboardPage? then "" else resource, None, None, None)
      && FreshName(p.slug, OrElse(FreshNames.Fold(lib, caption, '-', 'p'), "page"), '-', "", PageSlugs(s.pages))
      && (WellFormedSpec(lib, candidate.value) <==>
           && |p.slug| <= 63
           && (!kind.DashboardPage? ==> FindResource(s.resources, resource).Some?)
           && RoleFree(s, p))
      && Authoring.ClassOf(s, candidate.value).Neutral?
  {
    hide WellFormedSpec, AllIDs, HasKey, IsSlug, ValidID, PageOK, RoleFree, FreshNames.Fold;
    p := NewPage(id, "", caption, kind, resource);
    if !PageInputOK(caption, kind, resource) { return None, p; }
    var slug := DerivePageSlug(lib, caption, s.pages);
    var page := NewPage(id, slug, caption, kind, resource);
    p := page;
    SlugsAreKeys(s.pages, slug);
    PageVerdict(lib, s, page);
    NewPageOK(s, page, resource);
    return Some(WithPage(s, page)), p;
  }
}
