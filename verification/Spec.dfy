/** ProjectSpec, the declarative source of truth (internal/spec/spec.go). A Go pointer that
    may be nil is an Option; a Go string enumeration keeps its unsupported values. */
module Spec {
  import opened Text
  import opened Names

  /** Answers of library functions the model does not define: time.Parse with the RFC 3339
      and date-only layouts, unicode.IsLetter and unicode.ToLower. */
  datatype Library = Library(
    isRFC3339: string -> bool,
    isDateOnly: string -> bool,
    isLetter: char -> bool,
    toLower: char -> char)

  const SPEC_VERSION: int := 1

  datatype FieldType =
    | TString | TText | TInteger | TDecimal | TBoolean | TDatetime | TDate | TEnum | TBelongsTo
    | UnknownType(name: string)
  {
    predicate Supported() { !UnknownType? }

    predicate Scalar() { Supported() && !TBelongsTo? }
  }

  datatype HookEvent =
    | BeforeCreate | AfterCreate | BeforeUpdate | AfterUpdate | BeforeDelete | AfterDelete
    | UnknownEvent(name: string)
  {
    predicate Supported() { !UnknownEvent? }
  }

  datatype PageType =
    | ResourceTable | ResourceForm | ResourceDetail | DashboardPage
    | UnknownPage(name: string)
  {
    predicate OnResource() { ResourceTable? || ResourceForm? || ResourceDetail? }
  }

  datatype NavTarget = NavPage | NavExternal | UnknownTarget(name: string)

  datatype Driver = Postgres | SQLite | MySQL | UnknownDriver(name: string)

  datatype AuthMode = Cookie | JWT | UnknownMode(name: string)

  datatype AggregateOp = Sum | Avg | Min | Max | UnknownOp(name: string)

  datatype Project = Project(id: ID, name: string, slug: string, caption: string)

  datatype EnumValue = EnumValue(value: string, caption: string)

  datatype Field = Field(
    id: ID,
    caption: string,
    kind: FieldType,
    codeName: string,
    storageName: string,
    required: bool,
    unique: bool,
    index: bool,
    default: Option<string>,
    enumValues: seq<EnumValue>,
    target: ID,
    inverseLabel: string)

  datatype Hook = Hook(id: ID, event: HookEvent)

  datatype Behavior = Behavior(
    createEnabled: bool,
    updateEnabled: bool,
    deleteEnabled: bool,
    adminVisible: bool,
    list: seq<ID>,
    searchable: seq<ID>,
    sortable: seq<ID>,
    filterable: seq<ID>,
    aggregatable: seq<ID>)

  datatype Resource = Resource(
    id: ID,
    caption: string,
    labelPlural: string,
    codeName: string,
    storageName: string,
    fields: seq<Option<Field>>,
    behavior: Behavior,
    hooks: seq<Option<Hook>>)

  datatype TableConfig = TableConfig(
    title: string, columns: seq<ID>, search: bool, filters: seq<ID>, pageSize: int)

  datatype FormConfig = FormConfig(layout: string, fields: seq<ID>)

  datatype Card = Card(caption: string, resource: ID, limit: int, orderBy: ID)

  datatype AggregateCard = AggregateCard(caption: string, resource: ID, field: ID, op: AggregateOp)

  datatype DashboardConfig = DashboardConfig(
    countCards: seq<Card>, recentLists: seq<Card>, aggregateCards: seq<AggregateCard>)

  datatype Page = Page(
    id: ID,
    slug: string,
    caption: string,
    kind: PageType,
    resource: ID,
    table: Option<TableConfig>,
    form: Option<FormConfig>,
    dashboard: Option<DashboardConfig>)

  datatype NavItem = NavItem(id: ID, caption: string, target: NavTarget, page: ID, url: string)

  datatype Branding = Branding(appName: string, logoRef: string, accentColor: string, appearance: string)

  datatype ProjectSpec = ProjectSpec(
    version: int,
    project: Project,
    driver: Driver,
    auth: AuthMode,
    resources: seq<Option<Resource>>,
    pages: seq<Option<Page>>,
    navigation: seq<Option<NavItem>>,
    branding: Option<Branding>)

  function ResourceID(r: Resource): ID { r.id }
  function FieldID(f: Field): ID { f.id }
  function HookID(h: Hook): ID { h.id }
  function PageID(p: Page): ID { p.id }
  function NavID(n: NavItem): ID { n.id }

  /** The first non-nil entry with the wanted ID. */
  function Find<T>(id: T -> ID, xs: seq<Option<T>>, want: ID): (r: Option<T>)
    ensures r.Some? ==> r in xs && id(r.value) == want
    ensures r.None? ==> forall i :: 0 <= i < |xs| && xs[i].Some? ==> id(xs[i].value) != want
  {
    if xs == [] then None
    else if xs[0].Some? && id(xs[0].value) == want then xs[0]
    else Find(id, xs[1..], want)
  }

  function FindResource(resources: seq<Option<Resource>>, id: ID): Option<Resource> {
    Find(ResourceID, resources, id)
  }

  function FindField(fields: seq<Option<Field>>, id: ID): Option<Field> { Find(FieldID, fields, id) }

  function FindPage(pages: seq<Option<Page>>, id: ID): Option<Page> { Find(PageID, pages, id) }

  /** The IDs of the non-nil entries, in order. */
  function IDs<T>(id: T -> ID, xs: seq<Option<T>>): seq<ID> {
    if xs == [] then []
    else
      var last := xs[|xs| - 1];
      IDs(id, xs[..|xs| - 1]) + if last.Some? then [id(last.value)] else []
  }

  /** The Go struct field a field contributes to its model. */
  function GeneratedFieldName(codeName: string, kind: FieldType): string {
    if kind.TBelongsTo? then codeName + "ID" else codeName
  }
}
