/** What it means for a ProjectSpec to be valid, said once and without reference to the order
    in which the validator walks it. */
module WellFormed {
  import opened Text
  import opened Names
  import opened Spec

  // ----- Uniqueness of a selected key over the non-nil entries of a list -----

  ghost predicate Unique<T, K>(key: T -> Option<K>, xs: seq<Option<T>>) {
    forall i, j :: 0 <= i < j < |xs| && xs[i].Some? && xs[j].Some? && key(xs[i].value).Some?
      ==> key(xs[i].value) != key(xs[j].value)
  }

  ghost predicate HasKey<T, K>(key: T -> Option<K>, xs: seq<Option<T>>, k: K) {
    exists i :: 0 <= i < |xs| && xs[i].Some? && key(xs[i].value) == Some(k)
  }

  ghost predicate AllSome<T>(xs: seq<Option<T>>) {
    forall i :: 0 <= i < |xs| ==> xs[i].Some?
  }

  lemma UniqueSnoc<T, K>(key: T -> Option<K>, xs: seq<Option<T>>, x: T)
    ensures Unique(key, xs + [Some(x)]) <==>
      Unique(key, xs) && (key(x).Some? ==> !HasKey(key, xs, key(x).value))
    ensures forall k :: HasKey(key, xs + [Some(x)], k) <==> HasKey(key, xs, k) || key(x) == Some(k)
  {
    var ys := xs + [Some(x)];
    assert forall i :: 0 <= i < |xs| ==> ys[i] == xs[i];
    assert ys[|xs|] == Some(x);
    if Unique(key, ys) && key(x).Some? {
      forall i | 0 <= i < |xs| && xs[i].Some? ensures key(xs[i].value) != key(x) {
        assert ys[i].Some? && ys[|xs|].Some?;
        if key(xs[i].value).Some? { assert key(ys[i].value) != key(ys[|xs|].value); }
      }
    }
    forall k ensures HasKey(key, ys, k) <==> HasKey(key, xs, k) || key(x) == Some(k) {
      if HasKey(key, xs, k) {
        var i :| 0 <= i < |xs| && xs[i].Some? && key(xs[i].value) == Some(k);
        assert ys[i].Some?;
      }
      if key(x) == Some(k) { assert ys[|xs|].Some?; }
    }
  }

  function KeyOfField(f: Field): Option<ID> { Some(f.id) }

  function KeyOfResource(r: Resource): Option<ID> { Some(r.id) }

  function FieldCode(f: Field): Option<string> { Some(f.codeName) }
  function FieldGenerated(f: Field): Option<string> { Some(GeneratedFieldName(f.codeName, f.kind)) }
  function FieldStorage(f: Field): Option<string> { Some(f.storageName) }
  function ResourceCode(r: Resource): Option<string> { Some(r.codeName) }
  function ResourceStorage(r: Resource): Option<string> { Some(r.storageName) }
  function EventOf(h: Hook): Option<HookEvent> { Some(h.event) }
  function PageSlug(p: Page): Option<string> { Some(p.slug) }
  function FormOf(p: Page): Option<ID> { if p.kind.ResourceForm? then Some(p.resource) else None }
  function DetailOf(p: Page): Option<ID> { if p.kind.ResourceDetail? then Some(p.resource) else None }

  ghost predicate NamedFields(fields: seq<Option<Field>>) {
    && Unique(KeyOfField, fields)
    && forall i :: 0 <= i < |fields| && fields[i].Some? ==> fields[i].value.codeName != ""
  }

  /** Entities are told apart by ID and every one has a code name. */
  ghost predicate Named(rs: seq<Option<Resource>>) {
    && Unique(KeyOfResource, rs)
    && forall i :: 0 <= i < |rs| && rs[i].Some? ==> rs[i].value.codeName != "" && NamedFields(rs[i].value.fields)
  }

  // ----- Every stable ID of a spec, in authored order -----

  function FieldIDs(fields: seq<Option<Field>>): seq<ID> { IDs(FieldID, fields) }

  function HookIDs(hooks: seq<Option<Hook>>): seq<ID> { IDs(HookID, hooks) }

  function ResourceIDs(resources: seq<Option<Resource>>): seq<ID> {
    if resources == [] then []
    else
      var last := resources[|resources| - 1];
      ResourceIDs(resources[..|resources| - 1]) +
      if last.Some? then [last.value.id] + FieldIDs(last.value.fields) + HookIDs(last.value.hooks) else []
  }

  function AllIDs(s: ProjectSpec): seq<ID> {
    [s.project.id] + ResourceIDs(s.resources) + IDs(PageID, s.pages) + IDs(NavID, s.navigation)
  }

  // ----- Fields -----

  ghost predicate EnumOK(values: seq<EnumValue>) {
    && (forall i :: 0 <= i < |values| ==> !IsBlank(values[i].value))
    && (forall i, j :: 0 <= i < j < |values| ==> values[i].value != values[j].value)
  }

  ghost predicate FieldTypeOK(s: ProjectSpec, f: Field) {
    match f.kind
    case TEnum => f.enumValues != [] && EnumOK(f.enumValues)
    case TBelongsTo => f.target != "" && FindResource(s.resources, f.target).Some?
    case _ => f.enumValues == [] && f.target == ""
  }

  ghost predicate Declares(values: seq<EnumValue>, v: string) {
    exists i :: 0 <= i < |values| && values[i].value == v
  }

  ghost predicate DefaultOK(lib: Library, f: Field) {
    f.default.None? ||
    var v := f.default.value;
    match f.kind
    case TString => IsSafeDefaultValue(v)
    case TText => IsSafeDefaultValue(v)
    case TInteger => IsInt64Literal(v)
    case TDecimal => IsDecimalLiteral(v)
    case TBoolean => v == "true" || v == "false"
    case TDatetime => lib.isRFC3339(v)
    case TDate => lib.isDateOnly(v)
    case TEnum => Declares(f.enumValues, v) && IsSafeDefaultValue(v)
    case TBelongsTo => false
    case UnknownType(_) => true
  }

  ghost predicate FieldOK(lib: Library, s: ProjectSpec, f: Field) {
    && ValidID(f.id, KindField)
    && !IsBlank(f.caption)
    && f.kind.Supported()
    && IsExportedGoIdent(f.codeName)
    && !IsReservedCodeName(f.codeName)
    && !IsReservedCodeName(GeneratedFieldName(f.codeName, f.kind))
    && IsStorageName(f.storageName)
    && !IsReservedStorageName(f.storageName)
    && FieldTypeOK(s, f)
    && DefaultOK(lib, f)
  }

  ghost predicate FieldsOK(lib: Library, s: ProjectSpec, fields: seq<Option<Field>>) {
    && AllSome(fields)
    && (forall i :: 0 <= i < |fields| && fields[i].Some? ==> FieldOK(lib, s, fields[i].value))
    && Unique(FieldCode, fields)
    && Unique(FieldGenerated, fields)
    && Unique(FieldStorage, fields)
  }

  // ----- Behavior and hooks -----

  datatype Capability = List | Searchable | Sortable | Filterable | Aggregatable

  /** The field types a query capability accepts. */
  predicate Accepts(c: Capability, t: FieldType) {
    match c
    case List => true
    case Sortable => true
    case Searchable => t.TString? || t.TText? || t.TEnum?
    case Filterable => t.TString? || t.TInteger? || t.TBoolean? || t.TEnum? || t.TBelongsTo?
    case Aggregatable => t.TInteger? || t.TDecimal?
  }

  ghost predicate CapabilityOK(c: Capability, ids: seq<ID>, fields: seq<Option<Field>>) {
    forall i :: 0 <= i < |ids| ==>
      FindField(fields, ids[i]).Some? && Accepts(c, FindField(fields, ids[i]).value.kind)
  }

  ghost predicate BehaviorOK(r: Resource) {
    && CapabilityOK(List, r.behavior.list, r.fields)
    && CapabilityOK(Searchable, r.behavior.searchable, r.fields)
    && CapabilityOK(Sortable, r.behavior.sortable, r.fields)
    && CapabilityOK(Filterable, r.behavior.filterable, r.fields)
    && CapabilityOK(Aggregatable, r.behavior.aggregatable, r.fields)
  }

  ghost predicate HookOK(h: Hook) {
    ValidID(h.id, KindHook) && h.event.Supported()
  }

  ghost predicate HooksOK(hooks: seq<Option<Hook>>) {
    && AllSome(hooks)
    && (forall i :: 0 <= i < |hooks| && hooks[i].Some? ==> HookOK(hooks[i].value))
    && Unique(EventOf, hooks)
  }

  // ----- Resources -----

  ghost predicate ResourceOK(lib: Library, s: ProjectSpec, r: Resource) {
    && ValidID(r.id, KindResource)
    && !IsBlank(r.caption)
    && IsExportedGoIdent(r.codeName)
    && IsStorageName(r.storageName)
    && FieldsOK(lib, s, r.fields)
    && BehaviorOK(r)
    && HooksOK(r.hooks)
  }

  ghost predicate ResourcesOK(lib: Library, s: ProjectSpec, resources: seq<Option<Resource>>) {
    && AllSome(resources)
    && (forall i :: 0 <= i < |resources| && resources[i].Some? ==> ResourceOK(lib, s, resources[i].value))
    && Unique(ResourceCode, resources)
    && Unique(ResourceStorage, resources)
  }

  // ----- Pages -----

  ghost predicate OnlyItsOwnConfig(p: Page) {
    && (p.table.Some? ==> p.kind.ResourceTable?)
    && (p.form.Some? ==> p.kind.ResourceForm?)
    && (p.dashboard.Some? ==> p.kind.DashboardPage?)
  }

  ghost predicate AllOnResource(ids: seq<ID>, r: Resource) {
    forall i :: 0 <= i < |ids| ==> FindField(r.fields, ids[i]).Some?
  }

  ghost predicate TableOK(t: TableConfig, r: Resource) {
    && AllOnResource(t.columns, r)
    && t.pageSize >= 0
    && (t.search ==> r.behavior.searchable != [])
    && AllOnResource(t.filters, r)
    && (forall i :: 0 <= i < |t.filters| ==> t.filters[i] in r.behavior.filterable)
  }

  ghost predicate FormOK(form: FormConfig, r: Resource) {
    && AllOnResource(form.fields, r)
    && form.layout in {"", "single_column", "two_column", "section_groups"}
  }

  ghost predicate ResourcePageOK(s: ProjectSpec, p: Page) {
    && p.resource != ""
    && FindResource(s.resources, p.resource).Some?
    && var r := FindResource(s.resources, p.resource).value;
       && (p.table.Some? ==> TableOK(p.table.value, r))
       && (p.form.Some? ==> FormOK(p.form.value, r))
  }

  ghost predicate CardOK(s: ProjectSpec, c: Card) {
    FindResource(s.resources, c.resource).Some? && !IsBlank(c.caption)
  }

  /** A recent list orders by a sortable date or datetime field of its resource. */
  ghost predicate RecencyOK(r: Resource, orderBy: ID) {
    && FindField(r.fields, orderBy).Some?
    && orderBy in r.behavior.sortable
    && var t := FindField(r.fields, orderBy).value.kind;
       t.TDate? || t.TDatetime?
  }

  ghost predicate RecentOK(s: ProjectSpec, c: Card) {
    && CardOK(s, c)
    && (c.orderBy != "" ==> RecencyOK(FindResource(s.resources, c.resource).value, c.orderBy))
  }

  ghost predicate AggregateOK(s: ProjectSpec, c: AggregateCard) {
    && FindResource(s.resources, c.resource).Some?
    && !IsBlank(c.caption)
    && !c.op.UnknownOp?
    && var r := FindResource(s.resources, c.resource).value;
       FindField(r.fields, c.field).Some? && c.field in r.behavior.aggregatable
  }

  ghost predicate DashboardOK(s: ProjectSpec, d: DashboardConfig) {
    && (forall i :: 0 <= i < |d.countCards| ==> CardOK(s, d.countCards[i]) && d.countCards[i].orderBy == "")
    && (forall i :: 0 <= i < |d.recentLists| ==> RecentOK(s, d.recentLists[i]))
    && (forall i :: 0 <= i < |d.aggregateCards| ==> AggregateOK(s, d.aggregateCards[i]))
  }

  ghost predicate PageOK(s: ProjectSpec, p: Page) {
    && ValidID(p.id, KindPage)
    && !IsBlank(p.caption)
    && IsSlug(p.slug)
    && OnlyItsOwnConfig(p)
    && (match p.kind
        case UnknownPage(_) => false
        case DashboardPage => p.resource == "" && (p.dashboard.Some? ==> DashboardOK(s, p.dashboard.value))
        case _ => ResourcePageOK(s, p))
  }

  ghost predicate PagesOK(s: ProjectSpec, pages: seq<Option<Page>>) {
    && AllSome(pages)
    && (forall i :: 0 <= i < |pages| && pages[i].Some? ==> PageOK(s, pages[i].value))
    && Unique(PageSlug, pages)
    && Unique(FormOf, pages)
    && Unique(DetailOf, pages)
  }

  // ----- Navigation, branding, project -----

  ghost predicate NavOK(s: ProjectSpec, n: NavItem) {
    && ValidID(n.id, KindNav)
    && !IsBlank(n.caption)
    && (match n.target
        case NavPage =>
          && n.url == ""
          && n.page != ""
          && FindPage(s.pages, n.page).Some?
          && var k := FindPage(s.pages, n.page).value.kind; k.DashboardPage? || k.ResourceTable?
        case NavExternal =>
          n.page == "" && (HasPrefix(n.url, "http://") || HasPrefix(n.url, "https://"))
        case UnknownTarget(_) => false)
  }

  ghost predicate NavigationOK(s: ProjectSpec, items: seq<Option<NavItem>>) {
    && AllSome(items)
    && forall i :: 0 <= i < |items| && items[i].Some? ==> NavOK(s, items[i].value)
  }

  ghost predicate BrandingOK(b: Option<Branding>) {
    b.Some? ==>
      && (b.value.accentColor != "" ==> IsHexColor(b.value.accentColor))
      && b.value.appearance in {"", "light", "dark", "system"}
  }

  ghost predicate ProjectOK(s: ProjectSpec) {
    && ValidID(s.project.id, KindProject)
    && !IsBlank(s.project.name)
    && IsSlug(s.project.slug)
    && !s.driver.UnknownDriver?
    && !s.auth.UnknownMode?
  }

  /** A valid ProjectSpec. */
  ghost predicate WellFormedSpec(lib: Library, s: ProjectSpec) {
    && s.version == SPEC_VERSION
    && ProjectOK(s)
    && ResourcesOK(lib, s, s.resources)
    && PagesOK(s, s.pages)
    && NavigationOK(s, s.navigation)
    && BrandingOK(s.branding)
    && Distinct(AllIDs(s))
  }
}
