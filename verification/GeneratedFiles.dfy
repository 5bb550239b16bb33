/** Which files a spec generates (internal/compiler/compile.go, internal/compiler/gen). */
module GeneratedFiles {
  import opened Text
  import opened Spec
  import opened Paths
  import opened Packages
  import opened GenPaths
  import opened Generate

  const GO_PREFIX: string := "internal/forge_generated/"
  const TS_PREFIX: string := "frontend/src/forge_generated/"

  /** The files of a resource's package: hooks, the admin registration and field references only
      where there is something for them. */
  ghost predicate HasFile(r: Resource, file: string) {
    || file in {"model.go", "view.go", "mutation.go", "handlers.go", "routes.go"}
    || (file == "hooks.go" && r.hooks != [])
    || (file == "admin.go" && r.behavior.adminVisible)
    || (file == "fields.go" && r.fields != [])
  }

  /** A page has a component, a form page only where its resource can be created or updated. */
  ghost predicate HasComponent(s: ProjectSpec, p: Page) {
    match p.kind
    case ResourceForm =>
      var r := FindResource(s.resources, p.resource);
      r.Some? && (r.value.behavior.createEnabled || r.value.behavior.updateEnabled)
    case UnknownPage(_) => false
    case _ => true
  }

  /** A component stands beside those of its resource, a dashboard by itself. */
  ghost function ComponentPackage(s: ProjectSpec, p: Page): string {
    var r := FindResource(s.resources, p.resource);
    if p.kind.DashboardPage? || r.None? then "dashboard" else PackageName(r.value.codeName)
  }

  ghost predicate OfResourceAt(s: ProjectSpec, path: string, i: nat, file: string) {
    && i < |s.resources| && s.resources[i].Some? && HasFile(s.resources[i].value, file)
    && path == GO_PREFIX + (PackageName(s.resources[i].value.codeName) + ("/" + file))
  }

  ghost predicate OfPageAt(s: ProjectSpec, path: string, i: nat) {
    && i < |s.pages| && s.pages[i].Some? && HasComponent(s, s.pages[i].value)
    && path == TS_PREFIX +
         (ComponentPackage(s, s.pages[i].value) + ("/" + (Component(s.pages[i].value) + ".tsx")))
  }

  // ----- Members of the stages -----

  lemma {:induction false} InStages(s: ProjectSpec, n: nat, es: Elems)
    requires n <= |STAGES|
    ensures es in OfStages(s, n) <==> exists k :: 0 <= k < n && es in OfStage(s, STAGES[k])
  {
    hide OfStage;
    if n > 0 { InStages(s, n - 1, es); }
  }

  lemma {:induction false} InResources(stage: Stage, rs: seq<Option<Resource>>, es: Elems)
    ensures es in Generate.OfResources(stage, rs) <==> exists i :: 0 <= i < |rs| && rs[i].Some? && es in OfResource(stage, rs[i].value)
  {
    hide OfResource;
    if rs != [] {
      var n := |rs| - 1;
      InResources(stage, rs[..n], es);
      assert forall i :: 0 <= i < n ==> rs[..n][i] == rs[i];
      if es in Generate.OfResources(stage, rs[..n]) {
        var i :| 0 <= i < n && rs[..n][i].Some? && es in OfResource(stage, rs[..n][i].value);
        assert es in OfResource(stage, rs[i].value);
      }
    }
  }

  lemma InOneResource(stage: Stage, r: Resource, es: Elems)
    ensures es in OfResource(stage, r) <==>
      exists file :: file in ResourceFiles(stage, r) && es == GoElems(PackageName(r.codeName), file)
  {
    hide ResourceFiles, PackageName, GoElems;
    var files := ResourceFiles(stage, r);
    if file :| file in files && es == GoElems(PackageName(r.codeName), file) {
      var i :| 0 <= i < |files| && files[i] == file;
      assert OfResource(stage, r)[i] == es;
    }
  }

  lemma {:induction false} InPages(s: ProjectSpec, pages: seq<Option<Page>>, kind: PageType, es: Elems)
    ensures es in OfPages(s, pages, kind) <==>
      exists i :: 0 <= i < |pages| && pages[i].Some? && Emitted(s, pages[i].value, kind) && es == OfPage(s, pages[i].value)
  {
    hide OfPage, Emitted;
    if pages != [] {
      var n := |pages| - 1;
      InPages(s, pages[..n], kind, es);
      assert forall i :: 0 <= i < n ==> pages[..n][i] == pages[i];
      if es in OfPages(s, pages[..n], kind) {
        var i :| 0 <= i < n && pages[..n][i].Some? && Emitted(s, pages[..n][i].value, kind) && es == OfPage(s, pages[..n][i].value);
        assert es == OfPage(s, pages[i].value);
      }
    }
  }

  lemma InKinds(s: ProjectSpec, es: Elems)
    ensures es in OfKinds(s, |PAGE_KINDS|) <==> exists k :: 0 <= k < |PAGE_KINDS| && es in OfPages(s, s.pages, PAGE_KINDS[k])
  {
    hide OfPages, PAGE_KINDS;
    KindsUpTo(s, |PAGE_KINDS|, es);
  }

  lemma {:induction false} KindsUpTo(s: ProjectSpec, n: nat, es: Elems)
    requires n <= |PAGE_KINDS|
    ensures es in OfKinds(s, n) <==> exists k :: 0 <= k < n && es in OfPages(s, s.pages, PAGE_KINDS[k])
  {
    hide OfPages;
    if n > 0 { KindsUpTo(s, n - 1, es); }
  }

  lemma EmittedExactly(s: ProjectSpec, p: Page)
    ensures HasComponent(s, p) <==> exists k :: 0 <= k < |PAGE_KINDS| && Emitted(s, p, PAGE_KINDS[k])
  {
    hide Find;
    assert PAGE_KINDS[0] == ResourceDetail && PAGE_KINDS[1] == ResourceForm && PAGE_KINDS[2] == ResourceTable;
    assert PAGE_KINDS[3] == DashboardPage;
  }

  lemma PackageOfPage(s: ProjectSpec, p: Page)
    ensures PagePackage(s, p) == ComponentPackage(s, p)
  {
    hide Find;
  }

  /** A frontend component of some page. */
  lemma InFrontend(s: ProjectSpec, es: Elems)
    ensures es in OfKinds(s, |PAGE_KINDS|) <==> exists i: nat :: TsAt(s, es, i)
  {
    hide OfKinds, OfPages, Emitted, OfPage, HasComponent;
    InKinds(s, es);
    forall k | 0 <= k < |PAGE_KINDS| ensures es in OfPages(s, s.pages, PAGE_KINDS[k]) <==>
      exists i :: 0 <= i < |s.pages| && s.pages[i].Some? && Emitted(s, s.pages[i].value, PAGE_KINDS[k]) && es == OfPage(s, s.pages[i].value)
    {
      InPages(s, s.pages, PAGE_KINDS[k], es);
    }
    forall i | 0 <= i < |s.pages| && s.pages[i].Some?
      ensures HasComponent(s, s.pages[i].value) <==> exists k :: 0 <= k < |PAGE_KINDS| && Emitted(s, s.pages[i].value, PAGE_KINDS[k])
    {
      EmittedExactly(s, s.pages[i].value);
    }
    hide PAGE_KINDS;
    if es in OfKinds(s, |PAGE_KINDS|) {
      var k :| 0 <= k < |PAGE_KINDS| && es in OfPages(s, s.pages, PAGE_KINDS[k]);
      var i :| 0 <= i < |s.pages| && s.pages[i].Some? && Emitted(s, s.pages[i].value, PAGE_KINDS[k]) && es == OfPage(s, s.pages[i].value);
      assert TsAt(s, es, i);
    }
    if i: nat :| TsAt(s, es, i) {
      var k :| 0 <= k < |PAGE_KINDS| && Emitted(s, s.pages[i].value, PAGE_KINDS[k]);
      assert es in OfPages(s, s.pages, PAGE_KINDS[k]);
    }
  }

  lemma FilesOfStages(r: Resource, file: string)
    ensures HasFile(r, file) <==> exists k :: 0 <= k < |STAGES| && file in ResourceFiles(STAGES[k], r)
  {
    assert STAGES[0] == Models && STAGES[1] == Views && STAGES[2] == Mutations && STAGES[3] == SharedExtension;
    assert STAGES[4] == HookContracts && STAGES[5] == Handlers && STAGES[6] == Admin && STAGES[7] == Frontend;
    assert STAGES[8] == FieldRefs && STAGES[9] == Wiring;
    if HasFile(r, file) { FileHasStage(r, file); }
    if k :| 0 <= k < |STAGES| && file in ResourceFiles(STAGES[k], r) { StageHasFile(STAGES[k], r, file); }
  }

  lemma FileHasStage(r: Resource, file: string)
    requires HasFile(r, file)
    ensures
      || file in ResourceFiles(Models, r) || file in ResourceFiles(Views, r) || file in ResourceFiles(Mutations, r)
      || file in ResourceFiles(HookContracts, r) || file in ResourceFiles(Handlers, r) || file in ResourceFiles(Admin, r)
      || file in ResourceFiles(FieldRefs, r)
  {
  }

  lemma StageHasFile(stage: Stage, r: Resource, file: string)
    requires file in ResourceFiles(stage, r)
    ensures HasFile(r, file) && !stage.SharedExtension? && !stage.Frontend? && !stage.Wiring?
  {
  }

  /** A file of some resource's package. */
  lemma InGo(s: ProjectSpec, es: Elems)
    ensures (exists k :: 0 <= k < |STAGES| && es in Generate.OfResources(STAGES[k], s.resources)) <==>
      exists i: nat, file :: GoAt(s, es, i, file)
  {
    hide Generate.OfResources, OfResource, ResourceFiles, PackageName, GoElems, HasFile, STAGES;
    if k :| 0 <= k < |STAGES| && es in Generate.OfResources(STAGES[k], s.resources) {
      InResources(STAGES[k], s.resources, es);
      var i :| 0 <= i < |s.resources| && s.resources[i].Some? && es in OfResource(STAGES[k], s.resources[i].value);
      InOneResource(STAGES[k], s.resources[i].value, es);
      var file :| file in ResourceFiles(STAGES[k], s.resources[i].value) && es == GoElems(PackageName(s.resources[i].value.codeName), file);
      FilesOfStages(s.resources[i].value, file);
      assert GoAt(s, es, i, file);
    }
    if i: nat, file :| GoAt(s, es, i, file) {
      var r := s.resources[i].value;
      FilesOfStages(r, file);
      var k :| 0 <= k < |STAGES| && file in ResourceFiles(STAGES[k], r);
      InOneResource(STAGES[k], r, es);
      InResources(STAGES[k], s.resources, es);
    }
  }

  ghost predicate GoAt(s: ProjectSpec, es: Elems, i: nat, file: string) {
    && i < |s.resources| && s.resources[i].Some? && HasFile(s.resources[i].value, file)
    && es == GoElems(PackageName(s.resources[i].value.codeName), file)
  }

  ghost predicate TsAt(s: ProjectSpec, es: Elems, i: nat) {
    i < |s.pages| && s.pages[i].Some? && HasComponent(s, s.pages[i].value) && es == OfPage(s, s.pages[i].value)
  }

  lemma ResourceStages(s: ProjectSpec, stage: Stage, es: Elems)
    ensures stage.SharedExtension? || stage.Frontend? || stage.Wiring? ==> es !in Generate.OfResources(stage, s.resources)
    ensures !(stage.SharedExtension? || stage.Frontend? || stage.Wiring?) ==>
      OfStage(s, stage) == Generate.OfResources(stage, s.resources)
  {
    if (stage.SharedExtension? || stage.Frontend? || stage.Wiring?) && es in Generate.OfResources(stage, s.resources) {
      InResources(stage, s.resources, es);
      assert false;
    }
  }

  lemma InAll(s: ProjectSpec, es: Elems)
    ensures es in OfStages(s, |STAGES|) <==>
      || es == GoElems("extension", "extension.go") || es == REGISTRY || es == REGISTER
      || (exists i: nat, file :: GoAt(s, es, i, file))
      || (exists i: nat :: TsAt(s, es, i))
  {
    hide Generate.OfResources, OfKinds, GoAt, TsAt, OfStages, STAGES, OfStage, GoElems, REGISTRY, REGISTER, PAGE_KINDS;
    SpecialStages(s);
    InStages(s, |STAGES|, es);
    InGo(s, es);
    InFrontend(s, es);
    forall k | 0 <= k < |STAGES|
      ensures STAGES[k].SharedExtension? || STAGES[k].Frontend? || STAGES[k].Wiring? ==> es !in Generate.OfResources(STAGES[k], s.resources)
      ensures !(STAGES[k].SharedExtension? || STAGES[k].Frontend? || STAGES[k].Wiring?) ==>
        OfStage(s, STAGES[k]) == Generate.OfResources(STAGES[k], s.resources)
    {
      ResourceStages(s, STAGES[k], es);
    }
    if es in OfStages(s, |STAGES|) {
      var k :| 0 <= k < |STAGES| && es in OfStage(s, STAGES[k]);
    }
  }

  lemma SpecialStages(s: ProjectSpec)
    ensures |STAGES| == 10 && STAGES[3] == SharedExtension && STAGES[7] == Frontend && STAGES[9] == Wiring
    ensures OfStage(s, SharedExtension) == [GoElems("extension", "extension.go")]
    ensures OfStage(s, Frontend) == OfKinds(s, |PAGE_KINDS|) + [REGISTRY]
    ensures OfStage(s, Wiring) == [REGISTER]
  {
  }

  // ----- As paths -----

  lemma GoPrefix()
    ensures "internal" + "/" + "forge_generated" + "/" == GO_PREFIX
  {
  }

  lemma TsPrefix()
    ensures "frontend" + "/" + "src" + "/" + "forge_generated" + "/" == TS_PREFIX
  {
    assert "frontend" + "/" + "src" + "/" == "frontend/src/";
  }

  lemma InFront(a: string, b: string, x: string)
    ensures a + "/" + (b + "/" + x) == (a + "/" + b + "/") + x
  {
  }

  lemma GoPath(pkg: string, file: string)
    ensures PathOf(GoElems(pkg, file)) == GO_PREFIX + (pkg + ("/" + file))
  {
    JoinFour("internal", "forge_generated", pkg, file);
    GoPrefix();
    hide GO_PREFIX;
    InFront("internal", "forge_generated", pkg + "/" + file);
    assert pkg + "/" + file == pkg + ("/" + file);
  }

  lemma JoinFour(a: string, b: string, c: string, d: string)
    ensures Join([a, b, c, d]) == a + "/" + (b + "/" + (c + "/" + d))
  {
    JoinCons(a, [b, c, d]);
    JoinCons(b, [c, d]);
    JoinCons(c, [d]);
    assert [a] + [b, c, d] == [a, b, c, d] && [b] + [c, d] == [b, c, d] && [c] + [d] == [c, d];
  }

  lemma UnderFrontend(x: string)
    ensures "frontend" + "/" + ("src" + "/" + ("forge_generated" + "/" + x)) == TS_PREFIX + x
  {
    TsPrefix();
    hide TS_PREFIX;
    InFront("src", "forge_generated", x);
    InFront("frontend", "src", "forge_generated" + "/" + x);
    assert ("frontend" + "/" + "src" + "/") + ("forge_generated" + "/" + x) == ("frontend" + "/" + "src" + "/" + "forge_generated" + "/") + x by {
      Regroup("frontend" + "/" + "src" + "/", "forge_generated" + "/", x);
      assert "frontend" + "/" + "src" + "/" + ("forge_generated" + "/") == "frontend" + "/" + "src" + "/" + "forge_generated" + "/";
    }
  }

  lemma Regroup(a: string, b: string, c: string)
    ensures a + (b + c) == (a + b) + c
  {
  }

  lemma TsPath(pkg: string, component: string)
    ensures PathOf(TsElems(pkg, component)) == TS_PREFIX + (pkg + ("/" + (component + ".tsx")))
  {
    hide TS_PREFIX;
    var file := component + ".tsx";
    JoinFour("src", "forge_generated", pkg, file);
    JoinCons("frontend", ["src", "forge_generated", pkg, file]);
    assert ["frontend"] + ["src", "forge_generated", pkg, file] == TsElems(pkg, component);
    UnderFrontend(pkg + "/" + file);
    assert pkg + "/" + file == pkg + ("/" + file);
  }

  lemma RegisterPath()
    ensures PathOf(REGISTER) == GO_PREFIX + "register.go"
  {
    JoinCons("internal", ["forge_generated", "register.go"]);
    JoinCons("forge_generated", ["register.go"]);
    assert ["internal"] + ["forge_generated", "register.go"] == REGISTER;
    assert ["forge_generated"] + ["register.go"] == ["forge_generated", "register.go"];
    GoPrefix();
    hide GO_PREFIX;
    InFront("internal", "forge_generated", "register.go");
  }

  lemma RegistryPath()
    ensures PathOf(REGISTRY) == TS_PREFIX + "resources.tsx"
  {
    hide TS_PREFIX;
    JoinFour("frontend", "src", "forge_generated", "resources.tsx");
    UnderFrontend("resources.tsx");
  }

  lemma InPaths(ess: seq<Elems>, p: string)
    ensures p in PathsOf(ess) <==> exists es :: es in ess && p == PathOf(es)
  {
    hide PathOf;
    if es :| es in ess && p == PathOf(es) {
      var i :| 0 <= i < |ess| && ess[i] == es;
      assert PathsOf(ess)[i] == p;
    }
  }

  /** A path is generated exactly when it is one of the three fixed files, a file of a resource's
      package, or the component of a page. */
  lemma FilesExactly(s: ProjectSpec, path: string)
    ensures path in AllPaths(s) <==>
      || path == GO_PREFIX + ("extension" + ("/" + "extension.go"))
      || path == GO_PREFIX + "register.go"
      || path == TS_PREFIX + "resources.tsx"
      || (exists i: nat, file: string :: OfResourceAt(s, path, i, file))
      || (exists i: nat :: OfPageAt(s, path, i))
  {
    hide OfStages, PathsOf, PathOf, HasFile, HasComponent, ComponentPackage, PackageName, Component, STAGES, GoElems, TsElems, REGISTER, REGISTRY, GO_PREFIX, TS_PREFIX;
    InPaths(OfStages(s, |STAGES|), path);
    GoPath("extension", "extension.go");
    RegisterPath();
    RegistryPath();
    if path in AllPaths(s) {
      var es :| es in OfStages(s, |STAGES|) && path == PathOf(es);
      InAll(s, es);
      if i: nat, file :| GoAt(s, es, i, file) {
        GoPath(PackageName(s.resources[i].value.codeName), file);
        assert OfResourceAt(s, path, i, file);
      } else if i: nat :| TsAt(s, es, i) {
        PackageOfPage(s, s.pages[i].value);
        TsPath(ComponentPackage(s, s.pages[i].value), Component(s.pages[i].value));
        assert OfPageAt(s, path, i);
      }
    }
    InAll(s, GoElems("extension", "extension.go"));
    InAll(s, REGISTER);
    InAll(s, REGISTRY);
    if i: nat, file: string :| OfResourceAt(s, path, i, file) {
      var es := GoElems(PackageName(s.resources[i].value.codeName), file);
      GoPath(PackageName(s.resources[i].value.codeName), file);
      assert GoAt(s, es, i, file);
      InAll(s, es);
    }
    if i: nat :| OfPageAt(s, path, i) {
      var p := s.pages[i].value;
      PackageOfPage(s, p);
      TsPath(ComponentPackage(s, p), Component(p));
      assert TsAt(s, OfPage(s, p), i);
      InAll(s, OfPage(s, p));
    }
  }
}
