/** Generate and its guards (internal/compiler/compile.go, internal/compiler/gen/model.go,
    internal/compiler/gen/frontend.go). Paths are kept as their elements until they are
    joined. */
module Generate {
  import opened Text
  import opened Names
  import opened Spec
  import opened WellFormed
  import opened Paths
  import opened Packages
  import opened GenPaths
  import opened GoSource
  import Materialize

  type Elems = seq<string>

  datatype Stage =
    | Models | Views | Mutations | SharedExtension | HookContracts | Handlers | Admin | Frontend | FieldRefs | Wiring

  const STAGES: seq<Stage> :=
    [Models, Views, Mutations, SharedExtension, HookContracts, Handlers, Admin, Frontend, FieldRefs, Wiring]

  // ----- What each stage emits -----

  function GoElems(pkg: string, file: string): Elems { ["internal", "forge_generated", pkg, file] }

  function TsElems(pkg: string, component: string): Elems {
    ["frontend", "src", "forge_generated", pkg, component + ".tsx"]
  }

  const REGISTER: Elems := ["internal", "forge_generated", "register.go"]
  const REGISTRY: Elems := ["frontend", "src", "forge_generated", "resources.tsx"]

  function ResourceFiles(stage: Stage, r: Resource): seq<string> {
    match stage
    case Models => ["model.go"]
    case Views => ["view.go"]
    case Mutations => ["mutation.go"]
    case HookContracts => if r.hooks == [] then [] else ["hooks.go"]
    case Handlers => ["handlers.go", "routes.go"]
    case Admin => if r.behavior.adminVisible then ["admin.go"] else []
    case FieldRefs => if r.fields == [] then [] else ["fields.go"]
    case _ => []
  }

  function InPackage(pkg: string, files: seq<string>): (es: seq<Elems>)
    ensures |es| == |files| && forall i :: 0 <= i < |es| ==> es[i] == GoElems(pkg, files[i])
  {
    seq(|files|, i requires 0 <= i < |files| => GoElems(pkg, files[i]))
  }

  function OfResource(stage: Stage, r: Resource): seq<Elems> {
    InPackage(PackageName(r.codeName), ResourceFiles(stage, r))
  }

  function OfResources(stage: Stage, rs: seq<Option<Resource>>): seq<Elems> {
    if rs == [] then []
    else
      var n := |rs| - 1;
      OfResources(stage, rs[..n]) + if rs[n].Some? then OfResource(stage, rs[n].value) else []
  }

  const DASHBOARDS: string := "dashboard"

  function BoundResource(s: ProjectSpec, p: Page): Option<Resource> { FindResource(s.resources, p.resource) }

  function PagePackage(s: ProjectSpec, p: Page): string {
    if p.kind.DashboardPage? || BoundResource(s, p).None? then DASHBOARDS
    else PackageName(BoundResource(s, p).value.codeName)
  }

  /** A form page of a resource that can be neither created nor updated is left out. */
  predicate Emitted(s: ProjectSpec, p: Page, kind: PageType) {
    && p.kind == kind
    && (kind.ResourceForm? ==>
         BoundResource(s, p).Some? &&
         var b := BoundResource(s, p).value.behavior; b.createEnabled || b.updateEnabled)
  }

  function OfPage(s: ProjectSpec, p: Page): Elems { TsElems(PagePackage(s, p), Component(p)) }

  function OfPages(s: ProjectSpec, pages: seq<Option<Page>>, kind: PageType): seq<Elems> {
    if pages == [] then []
    else
      var n := |pages| - 1;
      OfPages(s, pages[..n], kind) +
      if pages[n].Some? && Emitted(s, pages[n].value, kind) then [OfPage(s, pages[n].value)] else []
  }

  const PAGE_KINDS: seq<PageType> := [ResourceDetail, ResourceForm, ResourceTable, DashboardPage]

  /** The first n page loops of Frontend. */
  function OfKinds(s: ProjectSpec, n: nat): seq<Elems>
    requires n <= |PAGE_KINDS|
  {
    if n == 0 then [] else OfKinds(s, n - 1) + OfPages(s, s.pages, PAGE_KINDS[n - 1])
  }

  function OfStage(s: ProjectSpec, stage: Stage): seq<Elems> {
    match stage
    case SharedExtension => [GoElems("extension", "extension.go")]
    case Frontend => OfKinds(s, |PAGE_KINDS|) + [REGISTRY]
    case Wiring => [REGISTER]
    case _ => OfResources(stage, s.resources)
  }

  /** The paths of the first n stages, in order. */
  function OfStages(s: ProjectSpec, n: nat): seq<Elems>
    requires n <= |STAGES|
  {
    if n == 0 then [] else OfStages(s, n - 1) + OfStage(s, STAGES[n - 1])
  }

  // ----- Within a stage -----

  function PackageKey(r: Resource): Option<string> { Some(PackageName(r.codeName)) }

  lemma DistinctConcat<T>(xs: seq<T>, ys: seq<T>)
    requires Distinct(xs) && Distinct(ys) && forall x :: x in xs ==> x !in ys
    ensures Distinct(xs + ys)
  {
    var zs := xs + ys;
    forall i, j | 0 <= i < j < |zs| ensures zs[i] != zs[j] {
      if i < |xs| && j >= |xs| { assert zs[i] in xs && zs[j] in ys; }
    }
  }

  lemma FilesDistinct(stage: Stage, r: Resource)
    ensures Distinct(ResourceFiles(stage, r))
  {
    assert "handlers.go"[0] == 'h' && "routes.go"[0] == 'r';
  }

  lemma {:induction false} OfResourcesMeaning(stage: Stage, rs: seq<Option<Resource>>, es: Elems)
    requires es in OfResources(stage, rs)
    ensures |es| == 4 && es == GoElems(es[2], es[3]) && HasKey(PackageKey, rs, es[2])
    ensures exists i :: 0 <= i < |rs| && rs[i].Some? && es[3] in ResourceFiles(stage, rs[i].value)
  {
    hide ResourceFiles, PackageName;
    var n := |rs| - 1;
    if es in OfResources(stage, rs[..n]) {
      OfResourcesMeaning(stage, rs[..n], es);
      var i :| 0 <= i < n && rs[..n][i].Some? && es[3] in ResourceFiles(stage, rs[..n][i].value);
      assert rs[i].Some? && es[3] in ResourceFiles(stage, rs[i].value);
      var k :| 0 <= k < n && rs[..n][k].Some? && PackageKey(rs[..n][k].value) == Some(es[2]);
      assert PackageKey(rs[k].value) == Some(es[2]);
    } else {
      assert es in OfResource(stage, rs[n].value);
      assert PackageKey(rs[n].value) == Some(es[2]);
    }
  }

  lemma {:induction false} OfResourcesDistinct(stage: Stage, rs: seq<Option<Resource>>)
    requires Unique(PackageKey, rs)
    ensures Distinct(OfResources(stage, rs))
  {
    if rs != [] {
      hide ResourceFiles, PackageName, HasKey;
      var n := |rs| - 1;
      var init := rs[..n];
      assert rs == init + [rs[n]];
      if rs[n].Some? {
        UniqueSnoc(PackageKey, init, rs[n].value);
        OfResourcesDistinct(stage, init);
        FilesDistinct(stage, rs[n].value);
        var last := OfResource(stage, rs[n].value);
        forall i, j | 0 <= i < j < |last| ensures last[i] != last[j] {
          assert last[i][3] != last[j][3];
        }
        forall es | es in OfResources(stage, init) ensures es !in last {
          OfResourcesMeaning(stage, init, es);
        }
        DistinctConcat(OfResources(stage, init), last);
      } else {
        UniquePrefix(PackageKey, rs, n);
        OfResourcesDistinct(stage, init);
      }
    }
  }

  lemma UniquePrefix<T, K>(key: T -> Option<K>, xs: seq<Option<T>>, n: nat)
    requires n <= |xs| && Unique(key, xs)
    ensures Unique(key, xs[..n])
  {
    assert forall i :: 0 <= i < n ==> xs[..n][i] == xs[i];
  }

  /** What the page loops need of a valid spec. */
  ghost predicate PagesNamed(pages: seq<Option<Page>>) {
    && Unique(PageSlug, pages)
    && forall i :: 0 <= i < |pages| && pages[i].Some? ==> IsSlug(pages[i].value.slug) && !pages[i].value.kind.UnknownPage?
  }

  ghost predicate IsPage(s: ProjectSpec, pages: seq<Option<Page>>, kind: PageType, es: Elems) {
    exists i :: 0 <= i < |pages| && pages[i].Some? && Emitted(s, pages[i].value, kind) && es == OfPage(s, pages[i].value)
  }

  lemma {:induction false} OfPagesMeaning(s: ProjectSpec, pages: seq<Option<Page>>, kind: PageType, es: Elems)
    requires es in OfPages(s, pages, kind)
    ensures IsPage(s, pages, kind, es)
  {
    hide OfPage, Emitted;
    var n := |pages| - 1;
    if es in OfPages(s, pages[..n], kind) {
      OfPagesMeaning(s, pages[..n], kind, es);
      var i :| 0 <= i < n && pages[..n][i].Some? && Emitted(s, pages[..n][i].value, kind) && es == OfPage(s, pages[..n][i].value);
      assert pages[i] == pages[..n][i];
    } else {
      assert es == OfPage(s, pages[n].value);
    }
  }

  lemma SamePageFile(s: ProjectSpec, p: Page, q: Page)
    requires IsSlug(p.slug) && IsSlug(q.slug) && !p.kind.UnknownPage? && !q.kind.UnknownPage?
    requires OfPage(s, p) == OfPage(s, q)
    ensures p.slug == q.slug && p.kind == q.kind
  {
    hide Component, PagePackage;
    assert Component(p) + ".tsx" == OfPage(s, p)[4] == Component(q) + ".tsx";
    assert (Component(p) + ".tsx")[..|Component(p) + ".tsx"| - 4] == Component(p);
    assert (Component(q) + ".tsx")[..|Component(q) + ".tsx"| - 4] == Component(q);
    ComponentsDiffer(p, q);
  }

  lemma FreshPage(s: ProjectSpec, pages: seq<Option<Page>>, kind: PageType)
    requires PagesNamed(pages) && pages != [] && pages[|pages| - 1].Some?
    ensures OfPage(s, pages[|pages| - 1].value) !in OfPages(s, pages[..|pages| - 1], kind)
  {
    hide OfPage, Emitted, IsSlug;
    var n := |pages| - 1;
    var init, es := pages[..n], OfPage(s, pages[n].value);
    assert forall i :: 0 <= i < n && pages[i].Some? ==> PageSlug(pages[i].value) != PageSlug(pages[n].value);
    if es in OfPages(s, init, kind) {
      OfPagesMeaning(s, init, kind, es);
      var i :| 0 <= i < n && init[i].Some? && Emitted(s, init[i].value, kind) && es == OfPage(s, init[i].value);
      SamePageFile(s, pages[n].value, init[i].value);
    }
  }

  lemma {:induction false} OfPagesDistinct(s: ProjectSpec, pages: seq<Option<Page>>, kind: PageType)
    requires PagesNamed(pages)
    ensures Distinct(OfPages(s, pages, kind))
  {
    if pages != [] {
      hide OfPage, Emitted, IsSlug, Unique;
      var n := |pages| - 1;
      var init := pages[..n];
      UniquePrefix(PageSlug, pages, n);
      OfPagesDistinct(s, init, kind);
      var earlier := OfPages(s, init, kind);
      if pages[n].Some? && Emitted(s, pages[n].value, kind) {
        var es := OfPage(s, pages[n].value);
        if es in earlier { FreshPage(s, pages, kind); }
        DistinctAppend(earlier, es);
      }
    }
  }

  lemma {:induction false} OfKindsMeaning(s: ProjectSpec, n: nat, es: Elems)
    requires n <= |PAGE_KINDS| && es in OfKinds(s, n)
    ensures exists k :: 0 <= k < n && es in OfPages(s, s.pages, PAGE_KINDS[k])
  {
    if es in OfPages(s, s.pages, PAGE_KINDS[n - 1]) {
    } else {
      OfKindsMeaning(s, n - 1, es);
    }
  }

  lemma {:induction false} OfKindsDistinct(s: ProjectSpec, n: nat)
    requires n <= |PAGE_KINDS| && PagesNamed(s.pages)
    ensures Distinct(OfKinds(s, n))
  {
    if n != 0 {
      hide IsSlug;
      OfKindsDistinct(s, n - 1);
      OfPagesDistinct(s, s.pages, PAGE_KINDS[n - 1]);
      var more := OfPages(s, s.pages, PAGE_KINDS[n - 1]);
      forall es | es in OfKinds(s, n - 1) ensures es !in more {
        if es in more {
          OfKindsMeaning(s, n - 1, es);
          var k :| 0 <= k < n - 1 && es in OfPages(s, s.pages, PAGE_KINDS[k]);
          KindsApart(s, k, n - 1, es);
          assert false;
        }
      }
      DistinctConcat(OfKinds(s, n - 1), OfPages(s, s.pages, PAGE_KINDS[n - 1]));
    }
  }

  lemma KindsApart(s: ProjectSpec, j: nat, k: nat, es: Elems)
    requires PagesNamed(s.pages) && j < |PAGE_KINDS| && k < |PAGE_KINDS|
    requires es in OfPages(s, s.pages, PAGE_KINDS[j]) && es in OfPages(s, s.pages, PAGE_KINDS[k])
    ensures j == k
  {
    hide IsSlug, OfPage;
    OfPagesMeaning(s, s.pages, PAGE_KINDS[j], es);
    OfPagesMeaning(s, s.pages, PAGE_KINDS[k], es);
    var a :| 0 <= a < |s.pages| && s.pages[a].Some? && Emitted(s, s.pages[a].value, PAGE_KINDS[j]) && es == OfPage(s, s.pages[a].value);
    var b :| 0 <= b < |s.pages| && s.pages[b].Some? && Emitted(s, s.pages[b].value, PAGE_KINDS[k]) && es == OfPage(s, s.pages[b].value);
    SamePageFile(s, s.pages[a].value, s.pages[b].value);
  }

  // ----- Across stages -----

  function HomeOfFile(file: string): Option<Stage> {
    if file == "model.go" then Some(Models)
    else if file == "view.go" then Some(Views)
    else if file == "mutation.go" then Some(Mutations)
    else if file == "extension.go" then Some(SharedExtension)
    else if file == "hooks.go" then Some(HookContracts)
    else if file == "handlers.go" || file == "routes.go" then Some(Handlers)
    else if file == "admin.go" then Some(Admin)
    else if file == "fields.go" then Some(FieldRefs)
    else None
  }

  /** The stage a path belongs to, read off its elements. */
  function Home(es: Elems): Option<Stage> {
    if es == [] then None
    else if es[0] == "frontend" then Some(Frontend)
    else if |es| == 4 then HomeOfFile(es[3])
    else Some(Wiring)
  }

  lemma FilesHaveHome(stage: Stage, r: Resource, file: string)
    requires file in ResourceFiles(stage, r)
    ensures HomeOfFile(file) == Some(stage)
  {
    match stage
    case Models =>
    case Views => assert |"view.go"| != |"model.go"|;
    case Mutations => assert |"mutation.go"| !in {|"model.go"|, |"view.go"|};
    case HookContracts => assert "hooks.go"[0] == 'h' && "model.go"[0] == 'm';
    case Handlers =>
      assert "handlers.go"[0] == 'h' && "routes.go"[0] == 'r' && "model.go"[0] == 'm' && "view.go"[0] == 'v';
      assert "mutation.go"[0] == 'm' && "extension.go"[0] == 'e' && |"hooks.go"| == 8;
    case Admin =>
      assert "admin.go"[0] == 'a' && "model.go"[0] == 'm' && "hooks.go"[0] == 'h';
    case FieldRefs =>
      assert "fields.go"[0] == 'f' && "routes.go"[0] == 'r' && "model.go"[0] == 'm' && "hooks.go"[0] == 'h';
    case _ =>
  }

  lemma PathHasHome(s: ProjectSpec, stage: Stage, es: Elems)
    requires es in OfStage(s, stage)
    ensures Home(es) == Some(stage)
  {
    hide HomeOfFile;
    assert "internal"[0] == 'i' && "frontend"[0] == 'f';
    match stage
    case SharedExtension => assert HomeOfFile("extension.go") == Some(SharedExtension) by { ExtensionHasHome(); }
    case Frontend =>
      if es in OfKinds(s, |PAGE_KINDS|) {
        OfKindsMeaning(s, |PAGE_KINDS|, es);
        var k :| 0 <= k < |PAGE_KINDS| && es in OfPages(s, s.pages, PAGE_KINDS[k]);
        OfPagesMeaning(s, s.pages, PAGE_KINDS[k], es);
      }
    case Wiring =>
    case _ =>
      OfResourcesMeaning(stage, s.resources, es);
      var i :| 0 <= i < |s.resources| && s.resources[i].Some? && es[3] in ResourceFiles(stage, s.resources[i].value);
      FilesHaveHome(stage, s.resources[i].value, es[3]);
  }

  lemma ExtensionHasHome()
    ensures HomeOfFile("extension.go") == Some(SharedExtension)
  {
    assert "extension.go"[0] == 'e' && "model.go"[0] == 'm' && "view.go"[0] == 'v' && "mutation.go"[0] == 'm';
  }

  lemma StageDistinct(s: ProjectSpec, stage: Stage)
    requires Unique(PackageKey, s.resources) && PagesNamed(s.pages)
    ensures Distinct(OfStage(s, stage))
  {
    hide PagesNamed;
    match stage
    case SharedExtension =>
    case Frontend =>
      OfKindsDistinct(s, |PAGE_KINDS|);
      if REGISTRY in OfKinds(s, |PAGE_KINDS|) {
        OfKindsMeaning(s, |PAGE_KINDS|, REGISTRY);
        var k :| 0 <= k < |PAGE_KINDS| && REGISTRY in OfPages(s, s.pages, PAGE_KINDS[k]);
        OfPagesMeaning(s, s.pages, PAGE_KINDS[k], REGISTRY);
        assert false;
      }
      DistinctAppend(OfKinds(s, |PAGE_KINDS|), REGISTRY);
    case Wiring =>
    case _ => OfResourcesDistinct(stage, s.resources);
  }

  lemma {:induction false} OfStagesMeaning(s: ProjectSpec, n: nat, es: Elems)
    requires n <= |STAGES| && es in OfStages(s, n)
    ensures exists k :: 0 <= k < n && es in OfStage(s, STAGES[k])
  {
    if es in OfStage(s, STAGES[n - 1]) {
    } else {
      OfStagesMeaning(s, n - 1, es);
    }
  }

  lemma StagesApart(s: ProjectSpec, j: nat, k: nat, es: Elems)
    requires j < |STAGES| && k < |STAGES| && es in OfStage(s, STAGES[j]) && es in OfStage(s, STAGES[k])
    ensures j == k
  {
    hide OfStage, Home;
    PathHasHome(s, STAGES[j], es);
    PathHasHome(s, STAGES[k], es);
  }

  /** No two stages, and no stage twice, emit the same path. */
  lemma {:induction false} StagesDistinct(s: ProjectSpec, n: nat)
    requires n <= |STAGES| && Unique(PackageKey, s.resources) && PagesNamed(s.pages)
    ensures Distinct(OfStages(s, n))
  {
    if n != 0 {
      hide Unique, PagesNamed, OfStage, Distinct;
      StagesDistinct(s, n - 1);
      StageDistinct(s, STAGES[n - 1]);
      StageIsNew(s, n - 1);
      DistinctConcat(OfStages(s, n - 1), OfStage(s, STAGES[n - 1]));
    }
  }

  lemma StageIsNew(s: ProjectSpec, n: nat)
    requires n < |STAGES|
    ensures
      var more := OfStage(s, STAGES[n]);
      forall es :: es in OfStages(s, n) ==> es !in more
  {
    hide OfStage, OfStages, STAGES;
    var more := OfStage(s, STAGES[n]);
    forall es | es in OfStages(s, n) ensures es !in more {
      if es in more {
        OfStagesMeaning(s, n, es);
        var k :| 0 <= k < n && es in OfStage(s, STAGES[k]);
        StagesApart(s, k, n, es);
        assert false;
      }
    }
  }

  // ----- Every path is accepted -----

  lemma {:induction false} JoinSplit(a: Elems, b: Elems)
    requires a != [] && b != []
    ensures Join(a + b) == Join(a) + "/" + Join(b)
  {
    if |a| == 1 {
      assert (a + b)[1..] == b;
    } else {
      assert (a + b)[1..] == a[1..] + b;
      JoinSplit(a[1..], b);
    }
  }

  lemma {:induction false} JoinKeepsOut(es: Elems, c: char)
    requires es != [] && c != '/' && forall i :: 0 <= i < |es| ==> c !in es[i]
    ensures c !in Join(es)
  {
    if |es| > 1 { JoinKeepsOut(es[1..], c); }
  }

  /** An element a generated path may hold. */
  ghost predicate Plain(e: string) { Slashless(e) && Proper(e) && '\\' !in e }

  ghost predicate AllPlain(es: Elems) { forall i :: 0 <= i < |es| ==> Plain(es[i]) }

  lemma PlainIsAccepted(root: string, head: Elems, tail: Elems)
    requires root in ROOTS && head != [] && tail != [] && AllPlain(head) && AllPlain(tail) && Join(head) == root
    ensures Accepted(Join(head + tail)) && Within(Join(head + tail), root) && Join(head + tail) !in ROOTS
  {
    hide Join, Accepted, ROOTS;
    var es := head + tail;
    var p := Join(es);
    JoinSplit(head, tail);
    ElementsOfJoin(es);
    JoinKeepsOut(es, '\\');
    AcceptedExactly(p);
    BelowIsWithin(p, root, Join(tail));
  }

  lemma BelowIsWithin(p: string, root: string, rel: string)
    requires root in ROOTS && p == root + "/" + rel
    ensures Within(p, root) && p !in ROOTS
  {
    assert root + "/" <= p;
    RootsApart(p);
    if p in ROOTS { assert Within(p, p); }
  }

  const GO_HEAD: Elems := ["internal", "forge_generated"]
  const TS_HEAD: Elems := ["frontend", "src", "forge_generated"]

  lemma GoHeadIsPlain()
    ensures AllPlain(GO_HEAD) && Join(GO_HEAD) == GENERATED_ROOT
  {
    hide Plain, Join, Paths.Elements;
    NameIsPlain("internal");
    NameIsPlain("forge_generated");
    GeneratedElements();
    JoinOfElements(GENERATED_ROOT);
  }

  lemma TsHeadIsPlain()
    ensures AllPlain(TS_HEAD) && Join(TS_HEAD) == FRONTEND_ROOT
  {
    hide Plain, Join, Paths.Elements;
    NameIsPlain("frontend");
    NameIsPlain("src");
    NameIsPlain("forge_generated");
    FrontendElements();
    JoinOfElements(FRONTEND_ROOT);
  }

  lemma NameIsPlain(e: string)
    requires e != "" && forall i :: 0 <= i < |e| ==> IdentChar(e[i]) || e[i] == '.'
    requires e[0] != '.'
    ensures Plain(e)
  {
  }

  lemma FilesArePlain(stage: Stage, r: Resource, file: string)
    requires file in ResourceFiles(stage, r)
    ensures Plain(file)
  {
    NameIsPlain(file);
  }

  /** Names that make plain paths: identifiers as code names, slugs as page slugs. */
  ghost predicate PlainSpec(s: ProjectSpec) {
    && (forall i :: 0 <= i < |s.resources| && s.resources[i].Some? ==> IsExportedGoIdent(s.resources[i].value.codeName))
    && PagesNamed(s.pages)
  }

  lemma {:induction false} PascalIsPlain(start: bool, s: string)
    requires forall i :: 0 <= i < |s| ==> WordChar(s[i], '-')
    ensures forall i :: 0 <= i < |Pascal(start, s)| ==> IdentChar(Pascal(start, s)[i])
    decreases s
  {
    if s != "" {
      assert WordChar(s[0], '-');
      PascalIsPlain(s[0] == '-', s[1..]);
    }
  }

  lemma ComponentIsPlain(p: Page)
    requires IsSlug(p.slug) && !p.kind.UnknownPage?
    ensures Plain(Component(p) + ".tsx")
  {
    PascalIsPlain(true, p.slug);
    var c := Component(p);
    assert c[0] == Pascal(true, p.slug)[0] by { PascalNonempty(p.slug); }
    SuffixIsPlain(p.kind);
    NameIsPlain(c + ".tsx");
  }

  lemma PascalNonempty(slug: string)
    requires IsSlug(slug)
    ensures PascalSlug(slug) != ""
  {
  }

  lemma SuffixIsPlain(kind: PageType)
    ensures forall i :: 0 <= i < |Suffix(kind)| ==> IdentChar(Suffix(kind)[i])
  {
  }

  lemma PackageIsPlain(s: ProjectSpec, p: Page)
    requires PlainSpec(s)
    ensures Plain(PagePackage(s, p))
  {
    if p.kind.DashboardPage? || BoundResource(s, p).None? {
      NameIsPlain(DASHBOARDS);
    } else {
      var r := BoundResource(s, p);
      var i :| 0 <= i < |s.resources| && s.resources[i] == r;
      PackageIsElement(r.value.codeName);
    }
  }

  /** Every emitted path is the head of a root and a plain tail. */
  ghost predicate UnderHead(es: Elems) {
    exists tail: Elems :: tail != [] && AllPlain(tail) && (es == GO_HEAD + tail || es == TS_HEAD + tail)
  }

  lemma GoUnderHead(pkg: string, file: string)
    requires Plain(pkg) && Plain(file)
    ensures UnderHead(GoElems(pkg, file))
  {
    hide Plain;
    assert AllPlain([pkg, file]) && GoElems(pkg, file) == GO_HEAD + [pkg, file];
  }

  lemma TsUnderHead(pkg: string, component: string)
    requires Plain(pkg) && Plain(component + ".tsx")
    ensures UnderHead(TsElems(pkg, component))
  {
    hide Plain;
    assert AllPlain([pkg, component + ".tsx"]) && TsElems(pkg, component) == TS_HEAD + [pkg, component + ".tsx"];
  }

  lemma SharedUnderHead()
    ensures UnderHead(GoElems("extension", "extension.go")) && UnderHead(REGISTER) && UnderHead(REGISTRY)
  {
    hide Plain;
    NameIsPlain("extension");
    NameIsPlain("extension.go");
    GoUnderHead("extension", "extension.go");
    NameIsPlain("register.go");
    assert AllPlain(["register.go"]) && REGISTER == GO_HEAD + ["register.go"];
    NameIsPlain("resources.tsx");
    assert AllPlain(["resources.tsx"]) && REGISTRY == TS_HEAD + ["resources.tsx"];
  }

  lemma PagesUnderHead(s: ProjectSpec, kind: PageType, es: Elems)
    requires PlainSpec(s) && es in OfPages(s, s.pages, kind)
    ensures UnderHead(es)
  {
    hide Plain, IsSlug, Component, PagePackage, UnderHead;
    OfPagesMeaning(s, s.pages, kind, es);
    var i :| 0 <= i < |s.pages| && s.pages[i].Some? && Emitted(s, s.pages[i].value, kind) && es == OfPage(s, s.pages[i].value);
    ComponentIsPlain(s.pages[i].value);
    PackageIsPlain(s, s.pages[i].value);
    TsUnderHead(PagePackage(s, s.pages[i].value), Component(s.pages[i].value));
  }

  lemma ResourcesUnderHead(s: ProjectSpec, stage: Stage, es: Elems)
    requires PlainSpec(s) && es in OfResources(stage, s.resources)
    ensures UnderHead(es)
  {
    hide Plain, IsExportedGoIdent, PackageName, UnderHead, ResourceFiles;
    OfResourcesMeaning(stage, s.resources, es);
    var i :| 0 <= i < |s.resources| && s.resources[i].Some? && es[3] in ResourceFiles(stage, s.resources[i].value);
    FilesArePlain(stage, s.resources[i].value, es[3]);
    var k :| 0 <= k < |s.resources| && s.resources[k].Some? && PackageKey(s.resources[k].value) == Some(es[2]);
    PackageNameIsPlain(s.resources[k].value.codeName);
    GoUnderHead(es[2], es[3]);
  }

  lemma StageIsUnderHead(s: ProjectSpec, stage: Stage, es: Elems)
    requires PlainSpec(s) && es in OfStage(s, stage)
    ensures UnderHead(es)
  {
    hide UnderHead, PlainSpec, OfResources, GoElems, REGISTER, REGISTRY;
    SharedUnderHead();
    match stage
    case SharedExtension =>
    case Wiring =>
    case Frontend =>
      if es != REGISTRY {
        OfKindsMeaning(s, |PAGE_KINDS|, es);
        var k :| 0 <= k < |PAGE_KINDS| && es in OfPages(s, s.pages, PAGE_KINDS[k]);
        PagesUnderHead(s, PAGE_KINDS[k], es);
      }
    case _ => ResourcesUnderHead(s, stage, es);
  }

  lemma PackageNameIsPlain(codeName: string)
    requires IsExportedGoIdent(codeName)
    ensures Plain(PackageName(codeName))
  {
    PackageIsElement(codeName);
  }

  lemma UnderHeadIsAccepted(es: Elems)
    requires UnderHead(es)
    ensures es != [] && AllSlashless(es) && Accepted(Join(es)) && Join(es) !in ROOTS
  {
    hide Plain, Join, Accepted, ROOTS;
    RootsAre();
    GoHeadIsPlain();
    TsHeadIsPlain();
    var tail: Elems :| tail != [] && AllPlain(tail) && (es == GO_HEAD + tail || es == TS_HEAD + tail);
    if es == GO_HEAD + tail { PlainIsAccepted(GENERATED_ROOT, GO_HEAD, tail); }
    else { PlainIsAccepted(FRONTEND_ROOT, TS_HEAD, tail); }
    PlainIsSlashless(es);
  }

  lemma PlainIsSlashless(es: Elems)
    requires AllPlain(es)
    ensures AllSlashless(es)
  {
  }

  // ----- The guards on names -----

  const RESERVED_PACKAGE_NAMES: set<string> := {"main", "documentation", "internal", "testdata"}

  const RESERVED_IMPORT_PACKAGES: set<string> :=
    {"framework", "contract", "database", "admin", "gorm", "huma", "decimal"}

  predicate UsablePackage(name: string) {
    name !in GO_KEYWORDS && name !in RESERVED_PACKAGE_NAMES && name !in RESERVED_IMPORT_PACKAGES
  }

  ghost predicate PackagesOK(rs: seq<Option<Resource>>) {
    && (forall i :: 0 <= i < |rs| && rs[i].Some? ==> UsablePackage(PackageName(rs[i].value.codeName)))
    && Unique(PackageKey, rs)
  }

  method ValidatePackages(rs: seq<Option<Resource>>) returns (ok: bool)
    ensures ok <==> PackagesOK(rs)
  {
    hide UsablePackage, PackageName, HasKey;
    var byPackage: set<string> := {};
    HasNoKeys(PackageKey);
    for i := 0 to |rs|
      invariant PackagesOK(rs[..i])
      invariant forall name :: name in byPackage <==> HasKey(PackageKey, rs[..i], name)
    {
      assert rs[..i + 1] == rs[..i] + [rs[i]];
      if rs[i].None? {
        HasNoMore(rs[..i]);
        continue;
      }
      var name := PackageName(rs[i].value.codeName);
      UniqueSnoc(PackageKey, rs[..i], rs[i].value);
      if !UsablePackage(name) || name in byPackage {
        if PackagesOK(rs) { UniquePrefix(PackageKey, rs, i + 1); }
        return false;
      }
      byPackage := byPackage + {name};
    }
    assert rs[..|rs|] == rs;
    return true;
  }

  lemma HasNoKeys<T, K>(key: T -> Option<K>)
    ensures forall k :: !HasKey(key, [], k)
  {
  }

  lemma HasNoMore(rs: seq<Option<Resource>>)
    ensures PackagesOK(rs) ==> PackagesOK(rs + [None])
    ensures forall name :: HasKey(PackageKey, rs + [None], name) <==> HasKey(PackageKey, rs, name)
  {
    hide UsablePackage, PackageName;
    var more := rs + [None];
    assert forall i :: 0 <= i < |rs| ==> more[i] == rs[i];
    forall name | HasKey(PackageKey, rs, name) ensures HasKey(PackageKey, more, name) {
      var i :| 0 <= i < |rs| && rs[i].Some? && PackageKey(rs[i].value) == Some(name);
      assert more[i] == rs[i];
    }
  }

  ghost predicate FieldNamesOK(fields: seq<Option<Field>>) {
    && (forall i :: 0 <= i < |fields| && fields[i].Some? ==>
          !IsReservedCodeName(GeneratedFieldName(fields[i].value.codeName, fields[i].value.kind)))
    && Unique(FieldGenerated, fields)
  }

  /** validateNames on a resource of a built graph. */
  method ValidateNames(r: Resource) returns (ok: bool)
    requires AllSome(r.fields)
    ensures ok <==> r.codeName !in RESERVED_PACKAGE_SYMBOLS && FieldNamesOK(r.fields)
  {
    hide IsReservedCodeName, GeneratedFieldName, HasKey;
    if r.codeName in RESERVED_PACKAGE_SYMBOLS { return false; }
    var seen: set<string> := {};
    HasNoKeys(FieldGenerated);
    for i := 0 to |r.fields|
      invariant FieldNamesOK(r.fields[..i])
      invariant forall name :: name in seen <==> HasKey(FieldGenerated, r.fields[..i], name)
    {
      var f := r.fields[i].value;
      assert r.fields[..i + 1] == r.fields[..i] + [Some(f)];
      UniqueSnoc(FieldGenerated, r.fields[..i], f);
      var name := GeneratedFieldName(f.codeName, f.kind);
      if IsReservedCodeName(name) || name in seen {
        if FieldNamesOK(r.fields) { UniquePrefix(FieldGenerated, r.fields, i + 1); }
        return false;
      }
      seen := seen + {name};
    }
    assert r.fields[..|r.fields|] == r.fields;
    return true;
  }

  ghost predicate SymbolsOK(rs: seq<Option<Resource>>) {
    forall i :: 0 <= i < |rs| && rs[i].Some? ==> rs[i].value.codeName !in RESERVED_PACKAGE_SYMBOLS
  }

  /** A valid spec never trips the field-name guard: only the reserved package symbols are left
      for it to reject. */
  lemma ValidFieldsPass(lib: Library, s: ProjectSpec, i: nat)
    requires WellFormedSpec(lib, s) && i < |s.resources|
    ensures s.resources[i].Some? && AllSome(s.resources[i].value.fields) && FieldNamesOK(s.resources[i].value.fields)
  {
    hide FieldTypeOK, DefaultOK, PagesOK, NavigationOK, ProjectOK, BrandingOK, Distinct, AllIDs, Unique;
    var r := s.resources[i].value;
    assert ResourceOK(lib, s, r);
    forall k | 0 <= k < |r.fields| && r.fields[k].Some?
      ensures !IsReservedCodeName(GeneratedFieldName(r.fields[k].value.codeName, r.fields[k].value.kind))
    {
      assert FieldOK(lib, s, r.fields[k].value);
    }
  }

  lemma ValidIsPlain(lib: Library, s: ProjectSpec)
    requires WellFormedSpec(lib, s)
    ensures PlainSpec(s) && AllSome(s.resources) && AllSome(s.pages)
  {
    hide FieldsOK, BehaviorOK, HooksOK, NavigationOK, ProjectOK, BrandingOK, Distinct, AllIDs, Unique, IsSlug, IsExportedGoIdent;
    forall i | 0 <= i < |s.resources| && s.resources[i].Some? ensures IsExportedGoIdent(s.resources[i].value.codeName) {
      assert ResourceOK(lib, s, s.resources[i].value);
    }
    forall i | 0 <= i < |s.pages| && s.pages[i].Some?
      ensures IsSlug(s.pages[i].value.slug) && !s.pages[i].value.kind.UnknownPage?
    {
      assert PageOK(s, s.pages[i].value);
    }
  }

  // ----- The frontend's component guard -----

  /** The names seen are components of pages met before page i of loop k. */
  ghost predicate SeenBefore(s: ProjectSpec, seen: set<string>, k: nat, i: nat) {
    forall c :: c in seen ==> WasMet(s, c, k, i)
  }

  ghost predicate WasMet(s: ProjectSpec, c: string, k: nat, i: nat) { exists a: nat :: MetBefore(s, c, k, i, a) }

  ghost predicate MetBefore(s: ProjectSpec, c: string, k: nat, i: nat, a: nat) {
    && a < |s.pages| && s.pages[a].Some? && c == Component(s.pages[a].value)
    && exists j: nat :: j <= k && j < |PAGE_KINDS| && s.pages[a].value.kind == PAGE_KINDS[j] && (j < k || a < i)
  }

  lemma NeverSeen(s: ProjectSpec, seen: set<string>, k: nat, i: nat)
    requires PagesNamed(s.pages) && SeenBefore(s, seen, k, i)
    requires k < |PAGE_KINDS| && i < |s.pages| && s.pages[i].Some? && s.pages[i].value.kind == PAGE_KINDS[k]
    ensures Component(s.pages[i].value) !in seen
  {
    hide IsSlug, Component;
    var p := s.pages[i].value;
    forall a: nat | a < |s.pages| && a != i && s.pages[a].Some? ensures s.pages[a].value.slug != p.slug {
      assert a < i ==> PageSlug(s.pages[a].value) != PageSlug(p);
      assert i < a ==> PageSlug(p) != PageSlug(s.pages[a].value);
    }
    if Component(p) in seen {
      var a: nat :| MetBefore(s, Component(p), k, i, a);
      var j: nat :| j <= k && j < |PAGE_KINDS| && s.pages[a].value.kind == PAGE_KINDS[j] && (j < k || a < i);
      ComponentsDiffer(p, s.pages[a].value);
      assert false;
    }
  }

  lemma SeenMore(s: ProjectSpec, seen: set<string>, k: nat, i: nat)
    requires SeenBefore(s, seen, k, i) && k < |PAGE_KINDS| && i < |s.pages|
    ensures SeenBefore(s, seen, k, i + 1)
    ensures s.pages[i].Some? && s.pages[i].value.kind == PAGE_KINDS[k] ==>
      SeenBefore(s, seen + {Component(s.pages[i].value)}, k, i + 1)
  {
    hide Component;
    forall c | c in seen ensures WasMet(s, c, k, i + 1) {
      var a: nat :| MetBefore(s, c, k, i, a);
      assert MetBefore(s, c, k, i + 1, a);
    }
    if s.pages[i].Some? && s.pages[i].value.kind == PAGE_KINDS[k] {
      assert MetBefore(s, Component(s.pages[i].value), k, i + 1, i);
    }
  }

  lemma SeenNextLoop(s: ProjectSpec, seen: set<string>, k: nat)
    requires SeenBefore(s, seen, k, |s.pages|) && k < |PAGE_KINDS|
    ensures SeenBefore(s, seen, k + 1, 0)
  {
    hide Component;
    forall c | c in seen ensures WasMet(s, c, k + 1, 0) {
      var a: nat :| MetBefore(s, c, k, |s.pages|, a);
      assert MetBefore(s, c, k + 1, 0, a);
    }
  }

  /** One of the four page loops. */
  method PageLoop(s: ProjectSpec, k: nat, seen: set<string>) returns (files: seq<Elems>, seen': set<string>, ok: bool)
    requires k < |PAGE_KINDS| && SeenBefore(s, seen, k, 0)
    ensures ok ==> files == OfPages(s, s.pages, PAGE_KINDS[k]) && SeenBefore(s, seen', k + 1, 0)
    ensures PagesNamed(s.pages) ==> ok
  {
    hide Component, Emitted, OfPage, SeenBefore, PagesNamed;
    files, seen' := [], seen;
    for i := 0 to |s.pages|
      invariant files == OfPages(s, s.pages[..i], PAGE_KINDS[k]) && SeenBefore(s, seen', k, i)
    {
      assert s.pages[..i + 1][..i] == s.pages[..i];
      SeenMore(s, seen', k, i);
      if s.pages[i].None? || !Emitted(s, s.pages[i].value, PAGE_KINDS[k]) { continue; }
      var page := s.pages[i].value;
      EmittedKind(s, page, PAGE_KINDS[k]);
      if PagesNamed(s.pages) { NeverSeen(s, seen', k, i); }
      if Component(page) in seen' { return [], {}, false; }
      seen' := seen' + {Component(page)};
      files := files + [OfPage(s, page)];
    }
    assert s.pages[..|s.pages|] == s.pages;
    SeenNextLoop(s, seen', k);
    ok := true;
  }

  lemma EmittedKind(s: ProjectSpec, p: Page, kind: PageType)
    requires Emitted(s, p, kind)
    ensures p.kind == kind
  {
  }

  method FrontendFiles(s: ProjectSpec) returns (files: seq<Elems>, ok: bool)
    ensures ok ==> files == OfStage(s, Frontend)
    ensures PagesNamed(s.pages) ==> ok
  {
    hide SeenBefore, PagesNamed, OfPages;
    files := [];
    var seen: set<string> := {};
    assert SeenBefore(s, seen, 0, 0) by { NothingSeen(s); }
    for k := 0 to |PAGE_KINDS|
      invariant files == OfKinds(s, k) && SeenBefore(s, seen, k, 0)
    {
      var more: seq<Elems>;
      more, seen, ok := PageLoop(s, k, seen);
      if !ok { return; }
      files := files + more;
    }
    files, ok := files + [REGISTRY], true;
  }

  lemma NothingSeen(s: ProjectSpec)
    ensures SeenBefore(s, {}, 0, 0)
  {
  }

  // ----- The stage loop -----

  function PathOf(es: Elems): string { if es == [] then "" else Join(es) }

  function PathsOf(ess: seq<Elems>): (ps: seq<string>)
    ensures |ps| == |ess| && forall i :: 0 <= i < |ps| ==> ps[i] == PathOf(ess[i])
  {
    seq(|ess|, i requires 0 <= i < |ess| => PathOf(ess[i]))
  }

  /** All a spec's paths. */
  function AllPaths(s: ProjectSpec): seq<string> { PathsOf(OfStages(s, |STAGES|)) }

  lemma PathsDistinct(ess: seq<Elems>)
    requires Distinct(ess) && forall es :: es in ess ==> UnderHead(es)
    ensures Distinct(PathsOf(ess))
  {
    hide UnderHead;
    forall i, j | 0 <= i < j < |ess| ensures PathOf(ess[i]) != PathOf(ess[j]) {
      UnderHeadIsAccepted(ess[i]);
      UnderHeadIsAccepted(ess[j]);
      if Join(ess[i]) == Join(ess[j]) { JoinInjective(ess[i], ess[j]); }
    }
  }

  /** Every path a valid spec emits lies under a root and is accepted by Materialize, and no
      two are the same. */
  lemma PathsAreSound(lib: Library, s: ProjectSpec)
    requires WellFormedSpec(lib, s) && PackagesOK(s.resources)
    ensures Distinct(AllPaths(s))
    ensures forall p :: p in AllPaths(s) ==> Accepted(p) && p !in ROOTS
  {
    ValidIsPlain(lib, s);
    hide WellFormedSpec, PagesNamed, UnderHead, Accepted, OfStage, UsablePackage;
    StagesDistinct(s, |STAGES|);
    var ess := OfStages(s, |STAGES|);
    forall es | es in ess ensures UnderHead(es) && es != [] && Accepted(Join(es)) && Join(es) !in ROOTS {
      OfStagesMeaning(s, |STAGES|, es);
      var k :| 0 <= k < |STAGES| && es in OfStage(s, STAGES[k]);
      StageIsUnderHead(s, STAGES[k], es);
      UnderHeadIsAccepted(es);
    }
    PathsDistinct(ess);
    forall p | p in AllPaths(s) ensures Accepted(p) && p !in ROOTS {
      var i :| 0 <= i < |ess| && PathsOf(ess)[i] == p;
      assert ess[i] in ess;
    }
  }

  method ProduceStage(s: ProjectSpec, stage: Stage) returns (files: seq<Elems>, ok: bool)
    ensures ok ==> files == OfStage(s, stage)
    ensures PagesNamed(s.pages) ==> ok
  {
    if stage.Frontend? {
      files, ok := FrontendFiles(s);
    } else {
      files, ok := OfStage(s, stage), true;
    }
  }

  ghost predicate Collected(files: seq<string>, seen: set<string>, ess: seq<Elems>) {
    files == PathsOf(ess) && forall p :: p in seen <==> p in files
  }

  /** Adds one stage's files under the duplicate guard, which a sound spec never trips. */
  method Collect(s: ProjectSpec, n: nat, produced: seq<Elems>, files: seq<string>, seen: set<string>)
      returns (files': seq<string>, seen': set<string>, ok: bool)
    requires n < |STAGES| && produced == OfStage(s, STAGES[n]) && Collected(files, seen, OfStages(s, n))
    ensures Distinct(AllPaths(s)) ==> ok
    ensures ok ==> Collected(files', seen', OfStages(s, n + 1))
  {
    hide OfStage, PathOf, AllPaths, Distinct;
    ghost var before := OfStages(s, n);
    files', seen' := files, seen;
    assert before + produced[..0] == before;
    for i := 0 to |produced|
      invariant Collected(files', seen', before + produced[..i])
    {
      var path := PathOf(produced[i]);
      assert before + produced[..i + 1] == (before + produced[..i]) + [produced[i]];
      OnePathMore(before + produced[..i], produced[i]);
      if Distinct(AllPaths(s)) { NotYetSeen(s, n, i); }
      if path in seen' { return [], {}, false; }
      seen' := seen' + {path};
      files' := files' + [path];
    }
    assert before + produced[..|produced|] == OfStages(s, n + 1);
    ok := true;
  }

  // ----- What stops a stage -----

  /** The generated application's module path and the characters go/parser allows in it. */
  datatype Target = Target(mod: string, legal: char -> bool)

  ghost predicate NamesOK(r: Resource) { r.codeName !in RESERVED_PACKAGE_SYMBOLS && FieldNamesOK(r.fields) }

  function SharedDir(): string { "internal/forge_generated/extension" }

  function DirOf(r: Resource): string { "internal/forge_generated/" + PackageName(r.codeName) }

  function ExtensionDirOf(r: Resource): string { EXTENSIONS_ROOT + "/" + PackageName(r.codeName) }

  /** What the stage makes of one resource has no clash it looks for and parses. */
  ghost predicate ResourceStageOK(stage: Stage, r: Resource, target: Target) {
    match stage
    case Models => NamesOK(r) && TagsFit(r.fields)
    case Mutations =>
      && NamesOK(r)
      && Distinct(MethodClaims(r.fields)) && Distinct(BackingClaims(r.fields))
      && NoKeywordBacking(r.fields)
    case SharedExtension => true
    case HookContracts => r.hooks != [] ==> NamesOK(r)
    case FieldRefs =>
      r.fields != [] ==>
        NamesOK(r) && FieldRefNamesOK(r) && ImportPath(target.legal, target.mod + "/" + SharedDir())
    case Wiring =>
      && NamesOK(r)
      && ImportPath(target.legal, target.mod + "/" + DirOf(r))
      && (r.hooks != [] ==> ImportPath(target.legal, target.mod + "/" + ExtensionDirOf(r)))
    case _ => NamesOK(r)
  }

  ghost predicate StageOK(s: ProjectSpec, stage: Stage, target: Target) {
    && (!stage.SharedExtension? ==> PackagesOK(s.resources))
    && forall i :: 0 <= i < |s.resources| && s.resources[i].Some? ==> ResourceStageOK(stage, s.resources[i].value, target)
  }

  lemma DirsArePlain(r: Resource)
    requires IsExportedGoIdent(r.codeName)
    ensures forall i :: 0 <= i < |SharedDir()| ==> IdentChar(SharedDir()[i]) || SharedDir()[i] == '/'
    ensures forall i :: 0 <= i < |DirOf(r)| ==> IdentChar(DirOf(r)[i]) || DirOf(r)[i] == '/'
    ensures forall i :: 0 <= i < |ExtensionDirOf(r)| ==> IdentChar(ExtensionDirOf(r)[i]) || ExtensionDirOf(r)[i] == '/'
  {
    var p := PackageName(r.codeName);
    assert forall i :: 0 <= i < |p| ==> IdentChar(p[i]) by { FoldIsIdent(r.codeName); }
    hide PackageName, IsExportedGoIdent;
    DirIsPlain("internal/forge_generated/", p);
    DirIsPlain("internal/extensions/", p);
    DirIsPlain("internal/forge_generated/", "extension");
    assert EXTENSIONS_ROOT + "/" == "internal/extensions/";
    assert SharedDir() == "internal/forge_generated/" + "extension";
  }

  lemma FoldIsIdent(codeName: string)
    requires IsExportedGoIdent(codeName)
    ensures forall i :: 0 <= i < |PackageName(codeName)| ==> IdentChar(PackageName(codeName)[i])
  {
    forall i | 0 <= i < |codeName| ensures IdentChar(PackageName(codeName)[i]) { assert IdentChar(codeName[i]); }
  }

  lemma DirIsPlain(dir: string, p: string)
    requires forall i :: 0 <= i < |dir| ==> IdentChar(dir[i]) || dir[i] == '/'
    requires forall i :: 0 <= i < |p| ==> IdentChar(p[i])
    ensures forall i :: 0 <= i < |dir + p| ==> IdentChar((dir + p)[i]) || (dir + p)[i] == '/'
  {
  }

  /** Every import a file of the resource declares parses, or none does, by the module path. */
  method ImportsParse(target: Target, rest: string) returns (ok: bool)
    requires KnowsPaths(target.legal) && target.mod != ""
    requires forall i :: 0 <= i < |rest| ==> IdentChar(rest[i]) || rest[i] == '/'
    ensures ok <==> ImportPath(target.legal, target.mod + "/" + rest)
    ensures ok <==> LegalModule(target.legal, target.mod)
  {
    ImportExactly(target.legal, target.mod, rest);
    ok := LegalModule(target.legal, target.mod);
  }

  /** The guards and the parse of one resource in one stage. */
  method CheckResource(stage: Stage, r: Resource, target: Target) returns (ok: bool)
    requires AllSome(r.fields) && IsExportedGoIdent(r.codeName)
    requires KnowsPaths(target.legal) && target.mod != ""
    ensures ok <==> ResourceStageOK(stage, r, target)
  {
    hide FieldNamesOK, TagsFit, NoKeywordBacking, FieldRefNamesOK, ImportPath, LegalModule, Distinct;
    hide SharedDir, DirOf, ExtensionDirOf, IsExportedGoIdent, KnowsPaths;
    DirsArePlain(r);
    if stage.SharedExtension? || (stage.HookContracts? && r.hooks == []) || (stage.FieldRefs? && r.fields == []) { return true; }
    ok := ValidateNames(r);
    if !ok { return; }
    match stage {
      case Models => return TagsFit(r.fields);
      case Mutations =>
        ok := ValidateMutationNames(r.fields);
        return ok && NoKeywordBacking(r.fields);
      case FieldRefs =>
        ok := ValidateFieldRefNames(r);
        if !ok { return; }
        ok := ImportsParse(target, SharedDir());
      case Wiring =>
        ok := ImportsParse(target, DirOf(r));
        if !ok || r.hooks == [] { return; }
        ok := ImportsParse(target, ExtensionDirOf(r));
      case _ =>
    }
  }

  /** A graph's resources hold no nil and are called by identifiers. */
  ghost predicate Checkable(s: ProjectSpec) {
    forall i :: 0 <= i < |s.resources| ==>
      s.resources[i].Some? && AllSome(s.resources[i].value.fields) && IsExportedGoIdent(s.resources[i].value.codeName)
  }

  ghost predicate StagesPass(s: ProjectSpec, n: nat, target: Target) {
    forall k :: 0 <= k < n && k < |STAGES| ==> StageOK(s, STAGES[k], target)
  }

  lemma OneStageMore(s: ProjectSpec, n: nat, target: Target)
    requires n < |STAGES| && StagesPass(s, n, target)
    ensures StagesPass(s, n + 1, target) <==> StageOK(s, STAGES[n], target)
    ensures !StagesPass(s, n + 1, target) ==> !StagesPass(s, |STAGES|, target)
    ensures StagesPass(s, n + 1, target) ==> PackagesOK(s.resources)
  {
    hide PackagesOK;
    if StagesPass(s, n + 1, target) { assert StageOK(s, STAGES[0], target); }
  }

  method CheckStage(s: ProjectSpec, stage: Stage, target: Target) returns (ok: bool)
    requires Checkable(s) && KnowsPaths(target.legal) && target.mod != ""
    ensures ok <==> StageOK(s, stage, target)
  {
    hide ResourceStageOK, PackagesOK, KnowsPaths, IsExportedGoIdent;
    if !stage.SharedExtension? {
      ok := ValidatePackages(s.resources);
      if !ok { return; }
    }
    for i := 0 to |s.resources|
      invariant forall k :: 0 <= k < i && s.resources[k].Some? ==> ResourceStageOK(stage, s.resources[k].value, target)
    {
      ok := CheckResource(stage, s.resources[i].value, target);
      if !ok { return; }
    }
    ok := true;
  }

  // ----- What stops generation, in terms of the spec -----

  /** The resource's names and dates make source that parses and declares nothing twice that the
      guards look for. */
  ghost predicate SourceOK(r: Resource) {
    && MutationNamesOK(r.fields)
    && NoKeywordBacking(r.fields)
    && FieldRefNamesOK(r)
    && DateTagsFit(r.fields)
  }

  ghost predicate Generable(s: ProjectSpec, target: Target) {
    && target.mod != ""
    && (s.resources != [] ==> LegalModule(target.legal, target.mod))
    && PackagesOK(s.resources)
    && SymbolsOK(s.resources)
    && forall i :: 0 <= i < |s.resources| && s.resources[i].Some? ==> SourceOK(s.resources[i].value)
  }

  ghost predicate ResourceOKInAll(r: Resource, target: Target) {
    forall n :: 0 <= n < |STAGES| ==> ResourceStageOK(STAGES[n], r, target)
  }

  /** Four of the stages decide for all. */
  lemma FourStagesDecide(r: Resource, target: Target)
    ensures ResourceOKInAll(r, target) <==>
      && ResourceStageOK(Models, r, target) && ResourceStageOK(Mutations, r, target)
      && ResourceStageOK(FieldRefs, r, target) && ResourceStageOK(Wiring, r, target)
  {
    StagesInOrder();
    if ResourceOKInAll(r, target) {
      assert ResourceStageOK(STAGES[0], r, target) && ResourceStageOK(STAGES[2], r, target);
      assert ResourceStageOK(STAGES[8], r, target) && ResourceStageOK(STAGES[9], r, target);
    } else {
      var n :| 0 <= n < |STAGES| && !ResourceStageOK(STAGES[n], r, target);
      hide NamesOK, TagsFit, NoKeywordBacking, FieldRefNamesOK, ImportPath, Distinct, STAGES;
    }
  }

  /** Whatever the module path is followed by, only the path itself can be illegal. */
  lemma ImportsExactly(r: Resource, target: Target)
    requires IsExportedGoIdent(r.codeName) && KnowsPaths(target.legal) && target.mod != ""
    ensures ImportPath(target.legal, target.mod + "/" + SharedDir()) <==> LegalModule(target.legal, target.mod)
    ensures ImportPath(target.legal, target.mod + "/" + DirOf(r)) <==> LegalModule(target.legal, target.mod)
    ensures ImportPath(target.legal, target.mod + "/" + ExtensionDirOf(r)) <==> LegalModule(target.legal, target.mod)
  {
    hide SharedDir, DirOf, ExtensionDirOf, IsExportedGoIdent, KnowsPaths, ImportPath, LegalModule;
    DirsArePlain(r);
    ImportExactly(target.legal, target.mod, SharedDir());
    ImportExactly(target.legal, target.mod, DirOf(r));
    ImportExactly(target.legal, target.mod, ExtensionDirOf(r));
  }

  lemma ResourceInAll(lib: Library, s: ProjectSpec, r: Resource, target: Target)
    requires ResourceOK(lib, s, r) && FieldNamesOK(r.fields) && KnowsPaths(target.legal) && target.mod != ""
    ensures ResourceOKInAll(r, target) <==>
      r.codeName !in RESERVED_PACKAGE_SYMBOLS && SourceOK(r) && LegalModule(target.legal, target.mod)
  {
    hide FieldsOK, MutationNamesOK, NoKeywordBacking, FieldRefNamesOK, TagsFit, DateTagsFit, ImportPath, LegalModule, Distinct;
    hide SharedDir, DirOf, ExtensionDirOf, IsExportedGoIdent, KnowsPaths, Unique, Exported, BehaviorOK, HooksOK, ValidID, IsStorageName;
    hide ResourceOKInAll, RESERVED_PACKAGE_SYMBOLS;
    ValidTags(lib, s, r.fields);
    ValidAreExported(lib, s, r.fields);
    MutationNamesExactly(r.fields);
    ImportsExactly(r, target);
    NoFieldsAreFine(r);
    FourStagesDecide(r, target);
  }

  lemma NoFieldsAreFine(r: Resource)
    ensures r.fields == [] ==> FieldRefNamesOK(r)
  {
  }

  lemma StagesInOrder()
    ensures |STAGES| == 10
    ensures STAGES[0] == Models && STAGES[2] == Mutations && STAGES[8] == FieldRefs && STAGES[9] == Wiring
  {
  }

  /** Every stage passes exactly when the spec is generable. */
  lemma GenerableExactly(lib: Library, s: ProjectSpec, target: Target)
    requires WellFormedSpec(lib, s) && KnowsPaths(target.legal) && target.mod != ""
    ensures StagesPass(s, |STAGES|, target) <==> Generable(s, target)
  {
    hide WellFormedSpec, SourceOK, ResourceStageOK, PackagesOK, LegalModule, KnowsPaths, FieldNamesOK, ResourceOK;
    StagesInOrder();
    forall i | 0 <= i < |s.resources|
      ensures s.resources[i].Some?
      ensures ResourceOKInAll(s.resources[i].value, target) <==>
        && s.resources[i].value.codeName !in RESERVED_PACKAGE_SYMBOLS
        && SourceOK(s.resources[i].value) && LegalModule(target.legal, target.mod)
    {
      ValidFieldsPass(lib, s, i);
      ResourceAt(lib, s, i);
      ResourceInAll(lib, s, s.resources[i].value, target);
    }
    if StagesPass(s, |STAGES|, target) {
      assert StageOK(s, STAGES[0], target);
      forall i | 0 <= i < |s.resources| ensures ResourceOKInAll(s.resources[i].value, target) {
        forall n | 0 <= n < |STAGES| ensures ResourceStageOK(STAGES[n], s.resources[i].value, target) {
          assert StageOK(s, STAGES[n], target);
        }
      }
      if s.resources != [] { assert ResourceOKInAll(s.resources[0].value, target); }
    }
  }

  lemma ResourceAt(lib: Library, s: ProjectSpec, i: nat)
    requires WellFormedSpec(lib, s) && i < |s.resources|
    ensures s.resources[i].Some? && ResourceOK(lib, s, s.resources[i].value)
    ensures IsExportedGoIdent(s.resources[i].value.codeName)
  {
    hide FieldsOK, BehaviorOK, HooksOK, PagesOK, NavigationOK, ProjectOK, BrandingOK, Distinct, AllIDs, Unique, IsExportedGoIdent;
  }

  /** Generate over the graph of a valid spec. It succeeds exactly when the spec is generable:
      usable and distinct package folds, no reserved code name, no field called like another's
      setter or presence bit, none kept under a keyword, no reference called like a generated
      type, date defaults a tag can carry, and a module path go/parser takes. Neither duplicate
      guard ever fires. */
  method Generate(lib: Library, s: ProjectSpec, target: Target) returns (files: seq<string>, ok: bool)
    requires WellFormedSpec(lib, s) && KnowsPaths(target.legal)
    ensures ok <==> Generable(s, target)
    ensures ok ==> files == AllPaths(s) && Distinct(files)
    ensures ok ==> forall p :: p in files ==> Accepted(p) && p !in ROOTS
  {
    files := [];
    if target.mod == "" { return [], false; }
    hide Accepted, AllPaths, ROOTS, PackagesOK, StageOK, KnowsPaths;
    GenerableExactly(lib, s, target);
    if PackagesOK(s.resources) { PathsAreSound(lib, s); }
    hide WellFormedSpec, Generable, Distinct, STAGES, StagesPass;
    files, ok := RunStages(lib, s, target);
    if ok { GenerableHasPackages(s, target); }
  }

  lemma GenerableHasPackages(s: ProjectSpec, target: Target)
    requires Generable(s, target)
    ensures PackagesOK(s.resources)
  {
  }

  lemma ReadyToCheck(lib: Library, s: ProjectSpec)
    requires WellFormedSpec(lib, s)
    ensures PagesNamed(s.pages) && Checkable(s)
  {
    hide WellFormedSpec, PlainSpec, PagesNamed, IsExportedGoIdent;
    ValidIsPlain(lib, s);
    PlainHasPages(s);
    forall i | 0 <= i < |s.resources|
      ensures s.resources[i].Some? && AllSome(s.resources[i].value.fields) && IsExportedGoIdent(s.resources[i].value.codeName)
    {
      ValidFieldsPass(lib, s, i);
      ResourceAt(lib, s, i);
    }
  }

  ghost predicate Progress(s: ProjectSpec, n: nat, target: Target, files: seq<string>, seen: set<string>)
    requires n <= |STAGES|
  {
    StagesPass(s, n, target) && Collected(files, seen, OfStages(s, n))
  }

  /** One turn of the loop: the stage is checked, then its files are added. */
  method RunStage(lib: Library, s: ProjectSpec, n: nat, target: Target, files: seq<string>, seen: set<string>)
      returns (files': seq<string>, seen': set<string>, ok: bool)
    requires WellFormedSpec(lib, s) && PagesNamed(s.pages) && Checkable(s) && KnowsPaths(target.legal) && target.mod != ""
    requires n < |STAGES| && Progress(s, n, target, files, seen)
    ensures ok ==> Progress(s, n + 1, target, files', seen')
    ensures !ok ==> !StagesPass(s, |STAGES|, target)
  {
    hide WellFormedSpec, Checkable, StagesPass, PagesNamed, OfStages, Collected, STAGES, AllPaths, Distinct, StageOK, PackagesOK, KnowsPaths;
    files', seen' := [], {};
    ok := CheckStage(s, STAGES[n], target);
    OneStageMore(s, n, target);
    if !ok { return; }
    PathsDistinctOf(lib, s);
    files', seen' := AddStage(s, n, files, seen);
  }

  /** The loop over the stages: it ends early exactly when a stage fails. */
  method RunStages(lib: Library, s: ProjectSpec, target: Target) returns (files: seq<string>, ok: bool)
    requires WellFormedSpec(lib, s) && KnowsPaths(target.legal) && target.mod != ""
    ensures ok <==> StagesPass(s, |STAGES|, target)
    ensures ok ==> files == AllPaths(s)
  {
    hide WellFormedSpec, Checkable, StagesPass, PagesNamed, Progress, STAGES, AllPaths, KnowsPaths;
    ReadyToCheck(lib, s);
    files := [];
    var seen: set<string> := {};
    NoProgress(s, target);
    for n := 0 to |STAGES|
      invariant Progress(s, n, target, files, seen)
    {
      files, seen, ok := RunStage(lib, s, n, target, files, seen);
      if !ok { return; }
    }
    AllProgress(s, target, files, seen);
    ok := true;
  }

  lemma NoProgress(s: ProjectSpec, target: Target)
    ensures Progress(s, 0, target, [], {})
  {
    NothingCollected(s);
  }

  lemma AllProgress(s: ProjectSpec, target: Target, files: seq<string>, seen: set<string>)
    requires Progress(s, |STAGES|, target, files, seen)
    ensures StagesPass(s, |STAGES|, target) && files == AllPaths(s)
  {
    CollectedIsAll(s, files, seen);
  }

  method AddStage(s: ProjectSpec, n: nat, files: seq<string>, seen: set<string>) returns (files': seq<string>, seen': set<string>)
    requires n < |STAGES| && PagesNamed(s.pages) && Distinct(AllPaths(s)) && Collected(files, seen, OfStages(s, n))
    ensures Collected(files', seen', OfStages(s, n + 1))
  {
    hide PagesNamed, OfStage, OfStages, Collected, STAGES, AllPaths, Distinct;
    var produced, ok := ProduceStage(s, STAGES[n]);
    files', seen', ok := Collect(s, n, produced, files, seen);
  }

  lemma PathsDistinctOf(lib: Library, s: ProjectSpec)
    requires WellFormedSpec(lib, s) && PackagesOK(s.resources)
    ensures Distinct(AllPaths(s))
  {
    PathsAreSound(lib, s);
  }

  lemma NothingCollected(s: ProjectSpec)
    ensures Collected([], {}, OfStages(s, 0))
  {
  }

  lemma CollectedIsAll(s: ProjectSpec, files: seq<string>, seen: set<string>)
    requires Collected(files, seen, OfStages(s, |STAGES|))
    ensures files == AllPaths(s)
  {
  }

  /** What a valid spec generates is a file set Materialize accepts, with files for both
      roots. */
  lemma GeneratedIsMaterializable(lib: Library, s: ProjectSpec, files: seq<Materialize.File>)
    requires WellFormedSpec(lib, s) && PackagesOK(s.resources)
    requires |files| == |AllPaths(s)| && forall i :: 0 <= i < |files| ==> files[i].path == AllPaths(s)[i]
    ensures Materialize.Acceptable(files)
    ensures forall root :: root in ROOTS ==> Materialize.HasFiles(files, root)
  {
    PathsAreSound(lib, s);
    ValidIsPlain(lib, s);
    hide WellFormedSpec, PackagesOK, Accepted, AllPaths, PlainSpec, Within, ROOTS;
    RootsAre();
    forall k | 0 <= k < |files| ensures Accepted(files[k].path) {
      assert AllPaths(s)[k] in AllPaths(s);
    }
    AllPathsCoverRoots(s);
    RootCovered(s, files, GENERATED_ROOT);
    RootCovered(s, files, FRONTEND_ROOT);
  }

  lemma RootCovered(s: ProjectSpec, files: seq<Materialize.File>, root: string)
    requires |files| == |AllPaths(s)| && forall i :: 0 <= i < |files| ==> files[i].path == AllPaths(s)[i]
    requires exists i :: 0 <= i < |AllPaths(s)| && Within(AllPaths(s)[i], root)
    ensures Materialize.HasFiles(files, root) && files != []
  {
    hide Within, AllPaths;
    var i :| 0 <= i < |AllPaths(s)| && Within(AllPaths(s)[i], root);
    assert Within(files[i].path, root);
  }

  lemma AllPathsCoverRoots(s: ProjectSpec)
    ensures exists i :: 0 <= i < |AllPaths(s)| && Within(AllPaths(s)[i], GENERATED_ROOT)
    ensures exists i :: 0 <= i < |AllPaths(s)| && Within(AllPaths(s)[i], FRONTEND_ROOT)
  {
    hide Within, OfKinds, OfResources, Join, OfStages;
    SharedAreWithin();
    var all := OfStages(s, |STAGES|);
    StageEnds(s, 9);
    StageEnds(s, 7);
  }

  /** The last path of a stage is among all the paths. */
  lemma StageEnds(s: ProjectSpec, n: nat)
    requires n < |STAGES| && OfStage(s, STAGES[n]) != []
    ensures
      var stage := OfStage(s, STAGES[n]);
      exists i :: 0 <= i < |AllPaths(s)| && AllPaths(s)[i] == PathOf(stage[|stage| - 1])
  {
    hide OfStage, PathOf;
    var stage := OfStage(s, STAGES[n]);
    StagesPrefix(s, n + 1, |STAGES|);
    assert OfStages(s, n + 1) == OfStages(s, n) + stage;
    var m := |OfStages(s, n + 1)| - 1;
    assert OfStages(s, |STAGES|)[m] == stage[|stage| - 1];
    assert AllPaths(s)[m] == PathOf(stage[|stage| - 1]);
  }

  lemma RootsAre()
    ensures forall root :: root in ROOTS <==> root == GENERATED_ROOT || root == FRONTEND_ROOT
  {
  }

  lemma SharedAreWithin()
    ensures Within(PathOf(REGISTER), GENERATED_ROOT) && Within(PathOf(REGISTRY), FRONTEND_ROOT)
  {
    hide Plain, Join, Within, ROOTS;
    GoHeadIsPlain();
    TsHeadIsPlain();
    assert GENERATED_ROOT in ROOTS && FRONTEND_ROOT in ROOTS by { RootsAre(); }
    NameIsPlain("register.go");
    NameIsPlain("resources.tsx");
    assert REGISTER == GO_HEAD + ["register.go"] && REGISTRY == TS_HEAD + ["resources.tsx"];
    PlainIsAccepted(GENERATED_ROOT, GO_HEAD, ["register.go"]);
    PlainIsAccepted(FRONTEND_ROOT, TS_HEAD, ["resources.tsx"]);
  }

  lemma PlainHasPages(s: ProjectSpec)
    requires PlainSpec(s)
    ensures PagesNamed(s.pages)
  {
  }

  lemma OnePathMore(ess: seq<Elems>, es: Elems)
    ensures PathsOf(ess + [es]) == PathsOf(ess) + [PathOf(es)]
  {
  }

  lemma {:induction false} StagesPrefix(s: ProjectSpec, m: nat, n: nat)
    requires m <= n <= |STAGES|
    ensures OfStages(s, m) <= OfStages(s, n)
  {
    if m < n { StagesPrefix(s, m, n - 1); }
  }

  lemma NotYetSeen(s: ProjectSpec, n: nat, i: nat)
    requires Distinct(AllPaths(s)) && n < |STAGES| && i < |OfStage(s, STAGES[n])|
    ensures PathOf(OfStage(s, STAGES[n])[i]) !in PathsOf(OfStages(s, n) + OfStage(s, STAGES[n])[..i])
  {
    hide OfStage, PathOf;
    var stage := OfStage(s, STAGES[n]);
    var all := OfStages(s, |STAGES|);
    StagesPrefix(s, n + 1, |STAGES|);
    var m := |OfStages(s, n)| + i;
    assert OfStages(s, n + 1) == OfStages(s, n) + stage;
    assert all[m] == stage[i];
    var prefix := OfStages(s, n) + stage[..i];
    forall k | 0 <= k < |prefix| ensures PathsOf(prefix)[k] != PathOf(stage[i]) {
      assert prefix[k] == all[k];
      assert AllPaths(s)[k] != AllPaths(s)[m];
    }
  }
}
