/** Whether NormalizeIdentifiers keeps a spec valid (internal/spec/refactor.go): which names the
    batch rename gives out, told from labels, code names and the ledger before it starts. */
module BatchRenames {
  import opened Text
  import opened Names
  import opened Spec
  import opened WellFormed
  import opened Normalize
  import opened Ledger
  import opened Refactor
  import opened Renames
  import Creation
  import FieldCreation
  import Identity

  // ----- The names it gives are legal -----

  lemma BaseIsUsable(lib: Library, caption: string, entity: ID)
    ensures
      var base := BaseSymbol(lib, caption, entity);
      base != "" ==> Upper(base[0]) && forall i :: 0 <= i < |base| ==> Alnum(base[i])
  {
    hide Normal;
    NormalIsExported(lib, caption);
    assert Upper("Project"[0]) && forall i :: 0 <= i < |"Project"| ==> Alnum("Project"[i]);
    assert Upper("Resource"[0]) && forall i :: 0 <= i < |"Resource"| ==> Alnum("Resource"[i]);
    assert Upper("Field"[0]) && forall i :: 0 <= i < |"Field"| ==> Alnum("Field"[i]);
    assert Upper("Relation"[0]) && forall i :: 0 <= i < |"Relation"| ==> Alnum("Relation"[i]);
    assert Upper("Page"[0]) && forall i :: 0 <= i < |"Page"| ==> Alnum("Page"[i]);
    assert Upper("Action"[0]) && forall i :: 0 <= i < |"Action"| ==> Alnum("Action"[i]);
    assert Upper("Hook"[0]) && forall i :: 0 <= i < |"Hook"| ==> Alnum("Hook"[i]);
    assert Upper("Nav"[0]) && forall i :: 0 <= i < |"Nav"| ==> Alnum("Nav"[i]);
  }

  lemma NormalizedIsUsable(lib: Library, t: Table, ns: Namespace, caption: string, entity: ID,
                           reserved: string -> bool, current: string)
    requires IsExportedGoIdent(current) && !reserved(current)
    ensures
      var g := Normalized(lib, t, ns, caption, entity, reserved, current);
      IsExportedGoIdent(g) && !reserved(g)
  {
    hide BaseSymbol, Variant, IsExportedGoIdent;
    var base := BaseSymbol(lib, caption, entity);
    BaseIsUsable(lib, caption, entity);
    if base != "" {
      TargetIsCurrentOrFree(t, ns, base, reserved, current, 1);
      var g := Target(t, ns, base, reserved, current, 1);
      if g != current {
        var m: nat :| 1 <= m <= MAX_MINT_ATTEMPTS && g == Variant(base, m);
        Creation.VariantIsExported(base, m);
      }
    }
  }

  lemma {:induction false} FieldsStayUsable(lib: Library, t: Table, ns: Namespace, fields: seq<Option<Field>>)
    requires FieldsUsable(fields)
    ensures FieldsUsable(NormalizeFields(lib, t, ns, fields).1)
  {
    hide Normalized, Refrozen, IsExportedGoIdent, IsReservedCodeName;
    if fields != [] {
      var n := |fields| - 1;
      FieldsStayUsable(lib, t, ns, fields[..n]);
      var t1 := NormalizeFields(lib, t, ns, fields[..n]).0;
      if fields[n].Some? {
        var f := fields[n].value;
        NormalizedIsUsable(lib, t1, ns, f.caption, f.id, IsReservedCodeName, f.codeName);
      }
    }
  }

  lemma ResourceStaysUsable(lib: Library, t: Table, r: Resource)
    requires IsExportedGoIdent(r.codeName) && FieldsUsable(r.fields)
    ensures IsExportedGoIdent(NormalizeResource(lib, t, r).1.codeName) && FieldsUsable(NormalizeResource(lib, t, r).1.fields)
  {
    hide Normalized, Refrozen, IsExportedGoIdent, FieldsUsable;
    NormalizedIsUsable(lib, t, RESOURCE_NAMESPACE, r.caption, r.id, NothingReserved, r.codeName);
    var target := Normalized(lib, t, RESOURCE_NAMESPACE, r.caption, r.id, NothingReserved, r.codeName);
    var t1 := if target == r.codeName then t else Refrozen(t, RESOURCE_NAMESPACE, r.codeName, target, r.id);
    FieldsStayUsable(lib, t1, FieldNamespace(r.id), r.fields);
  }

  lemma {:induction false} ResourcesStayUsable(lib: Library, t: Table, rs: seq<Option<Resource>>)
    requires Usable(rs)
    ensures Usable(NormalizeResources(lib, t, rs).1)
  {
    hide NormalizeResource, IsExportedGoIdent, FieldsUsable;
    if rs != [] {
      var n := |rs| - 1;
      ResourcesStayUsable(lib, t, rs[..n]);
      if rs[n].Some? { ResourceStaysUsable(lib, NormalizeResources(lib, t, rs[..n]).0, rs[n].value); }
    }
  }

  // ----- Which name a field takes -----

  /** Of the numbered names of a base, the first that is open; the current name if none is, or
      if there is no base. */
  ghost predicate Chosen(open: string -> bool, base: string, current: string, w: string) {
    if base == "" then w == current
    else
      || (exists n: nat :: FirstAt(open, base, n) && w == Variant(base, n))
      || (w == current && forall n: nat :: 1 <= n <= MAX_MINT_ATTEMPTS ==> !open(Variant(base, n)))
  }

  ghost predicate FirstAt(open: string -> bool, base: string, n: nat) {
    && 1 <= n <= MAX_MINT_ATTEMPTS && open(Variant(base, n))
    && forall m: nat :: 1 <= m < n ==> !open(Variant(base, m))
  }

  /** What decides a name: how an entity is labelled and called. */
  datatype Label = Label(caption: string, id: ID, name: string)

  /** Where names are given: the ledger before any entity is renamed, and what is reserved. */
  datatype Scope = Scope(lib: Library, ledger: Table, ns: Namespace, reserved: string -> bool)
  {
    function Base(x: Label): string { BaseSymbol(lib, x.caption, x.id) }
  }

  function FieldScope(lib: Library, ledger: Table, resource: ID): Scope {
    Scope(lib, ledger, FieldNamespace(resource), IsReservedCodeName)
  }

  function ResourceScope(lib: Library, ledger: Table): Scope { Scope(lib, ledger, RESOURCE_NAMESPACE, NothingReserved) }

  function FieldLabel(f: Option<Field>): Option<Label> {
    if f.None? then None else Some(Label(f.value.caption, f.value.id, f.value.codeName))
  }

  function FieldLabels(fields: seq<Option<Field>>): (r: seq<Option<Label>>)
    ensures |r| == |fields| && forall i :: 0 <= i < |fields| ==> r[i] == FieldLabel(fields[i])
  {
    seq(|fields|, i requires 0 <= i < |fields| => FieldLabel(fields[i]))
  }

  function ResourceLabel(r: Option<Resource>): Option<Label> {
    if r.None? then None else Some(Label(r.value.caption, r.value.id, r.value.codeName))
  }

  function ResourceLabels(rs: seq<Option<Resource>>): (l: seq<Option<Label>>)
    ensures |l| == |rs| && forall i :: 0 <= i < |rs| ==> l[i] == ResourceLabel(rs[i])
  {
    seq(|rs|, i requires 0 <= i < |rs| => ResourceLabel(rs[i]))
  }

  /** A name is open to the entity at i: it has it already, or the ledger has never seen it, it
      is not reserved, and no earlier entity is renamed to it. */
  ghost predicate Open(c: Scope, xs: seq<Option<Label>>, i: nat, w: string)
    requires i < |xs| && xs[i].Some?
    decreases i, 0
  {
    || w == xs[i].value.name
    || (Available(c.ledger, c.ns, c.reserved, w)
        && forall j: nat :: j < i && xs[j].Some? && Takes(c, xs, j, w) ==> w == xs[j].value.name)
  }

  /** The batch rename calls the entity at i by this name: said of labels, code names and the
      ledger before it starts. */
  ghost predicate Takes(c: Scope, xs: seq<Option<Label>>, i: nat, w: string)
    requires i < |xs| && xs[i].Some?
    decreases i, 1
  {
    Chosen(v => Open(c, xs, i, v), c.Base(xs[i].value), xs[i].value.name, w)
  }

  lemma ChosenOnce(open: string -> bool, base: string, current: string, v: string, w: string)
    requires Chosen(open, base, current, v) && Chosen(open, base, current, w)
    ensures v == w
  {
    hide Variant;
    if base != "" && v != current {
      var n: nat :| FirstAt(open, base, n) && v == Variant(base, n);
      assert 1 <= n <= MAX_MINT_ATTEMPTS && open(Variant(base, n));
    }
  }

  lemma ChosenAgrees(p: string -> bool, q: string -> bool, base: string, current: string, w: string)
    requires Chosen(p, base, current, w) && forall v :: p(v) == q(v)
    ensures Chosen(q, base, current, w)
  {
    hide Variant;
    if base != "" && exists n: nat :: FirstAt(p, base, n) && w == Variant(base, n) {
      var n: nat :| FirstAt(p, base, n) && w == Variant(base, n);
      assert FirstAt(q, base, n);
    }
  }

  // ----- It is the name NormalizeIdentifiers gives it -----

  predicate MayTake(t: Table, ns: Namespace, reserved: string -> bool, current: string, w: string) {
    w == current || Available(t, ns, reserved, w)
  }

  lemma {:induction false} TargetIsChosen(t: Table, ns: Namespace, base: string, reserved: string -> bool, current: string, n: nat)
    requires base != "" && 1 <= n <= MAX_MINT_ATTEMPTS + 1
    requires forall m: nat :: 1 <= m < n ==> !MayTake(t, ns, reserved, current, Variant(base, m))
    ensures Chosen(w => MayTake(t, ns, reserved, current, w), base, current, Target(t, ns, base, reserved, current, n))
    decreases MAX_MINT_ATTEMPTS + 1 - n
  {
    hide Variant;
    if n <= MAX_MINT_ATTEMPTS {
      if MayTake(t, ns, reserved, current, Variant(base, n)) {
        assert FirstAt(w => MayTake(t, ns, reserved, current, w), base, n);
      } else {
        TargetIsChosen(t, ns, base, reserved, current, n + 1);
      }
    }
  }

  /** Some entity before k is renamed to it. */
  ghost predicate TakenBefore(c: Scope, xs: seq<Option<Label>>, k: nat, w: string)
    requires k <= |xs|
  {
    exists j: nat :: j < k && xs[j].Some? && Takes(c, xs, j, w) && w != xs[j].value.name
  }

  /** u knows the names the ledger knew and those the entities before k are renamed to. */
  ghost predicate Caught(c: Scope, u: Table, xs: seq<Option<Label>>, k: nat)
    requires k <= |xs|
  {
    forall w :: Free(u, c.ns, w) <==> Free(c.ledger, c.ns, w) && !TakenBefore(c, xs, k, w)
  }

  function Given(c: Scope, u: Table, x: Label): string {
    Normalized(c.lib, u, c.ns, x.caption, x.id, c.reserved, x.name)
  }

  /** Once the entities before k are renamed, the next is given the name it takes. */
  lemma NextTakes(c: Scope, u: Table, xs: seq<Option<Label>>, k: nat)
    requires k < |xs| && xs[k].Some? && Caught(c, u, xs, k)
    ensures forall w :: Takes(c, xs, k, w) <==> w == Given(c, u, xs[k].value)
  {
    hide BaseSymbol, Variant, Chosen;
    var x := xs[k].value;
    var g := Given(c, u, x);
    var may := w => MayTake(u, c.ns, c.reserved, x.name, w);
    forall w ensures Open(c, xs, k, w) == may(w) { OpenIsMayTake(c, u, xs, k, w); }
    assert Chosen(may, c.Base(x), x.name, g) by { GivenIsChosen(c, u, x); }
    ChosenAgrees(may, v => Open(c, xs, k, v), c.Base(x), x.name, g);
    assert Takes(c, xs, k, g);
    forall w | Takes(c, xs, k, w) ensures w == g {
      ChosenOnce(v => Open(c, xs, k, v), c.Base(x), x.name, w, g);
    }
  }

  lemma GivenIsChosen(c: Scope, u: Table, x: Label)
    ensures Chosen(w => MayTake(u, c.ns, c.reserved, x.name, w), c.Base(x), x.name, Given(c, u, x))
  {
    hide BaseSymbol;
    if c.Base(x) != "" { TargetIsChosen(u, c.ns, c.Base(x), c.reserved, x.name, 1); }
  }

  lemma OpenIsMayTake(c: Scope, u: Table, xs: seq<Option<Label>>, k: nat, w: string)
    requires k < |xs| && xs[k].Some? && Caught(c, u, xs, k)
    ensures Open(c, xs, k, w) == MayTake(u, c.ns, c.reserved, xs[k].value.name, w)
  {
    hide Takes;
    assert Free(u, c.ns, w) <==> Free(c.ledger, c.ns, w) && !TakenBefore(c, xs, k, w);
  }

  lemma NextCaught(c: Scope, u: Table, v: Table, xs: seq<Option<Label>>, k: nat)
    requires k < |xs| && xs[k].Some? && Caught(c, u, xs, k)
    requires forall w :: Takes(c, xs, k, w) <==> w == Given(c, u, xs[k].value)
    requires
      var x := xs[k].value;
      v == if Given(c, u, x) == x.name then u else Refrozen(u, c.ns, x.name, Given(c, u, x), x.id)
    ensures Caught(c, v, xs, k + 1)
  {
    hide Takes, Normalized;
    var x := xs[k].value;
    var g := Given(c, u, x);
    forall w ensures Free(v, c.ns, w) <==> Free(c.ledger, c.ns, w) && !TakenBefore(c, xs, k + 1, w) {
      assert TakenBefore(c, xs, k + 1, w) <==> TakenBefore(c, xs, k, w) || (w == g && g != x.name);
      assert Free(u, c.ns, w) <==> Free(c.ledger, c.ns, w) && !TakenBefore(c, xs, k, w);
      assert Free(v, c.ns, w) <==> Free(u, c.ns, w) && (g == x.name || w != g);
    }
  }

  /** The two tables know the same names of a namespace. */
  ghost predicate SameNames(t: Table, u: Table, ns: Namespace) {
    forall w :: Free(t, ns, w) <==> Free(u, ns, w)
  }

  /** The first k fields are called by the names they take, and are otherwise as they were. */
  ghost predicate FieldsNamed(c: Scope, fields: seq<Option<Field>>, done: seq<Option<Field>>, k: nat)
    requires k <= |fields|
  {
    && |done| == k
    && (forall j: nat :: j < k ==> (done[j].Some? <==> fields[j].Some?))
    && forall j: nat :: j < k && fields[j].Some? ==>
         && done[j].value == fields[j].value.(codeName := done[j].value.codeName)
         && forall w :: Takes(c, FieldLabels(fields), j, w) <==> w == done[j].value.codeName
  }

  /** Renaming from a table with the ledger's names gives each field the name it takes. */
  lemma {:induction false} FieldsTake(lib: Library, t: Table, start: Table, id: ID, fields: seq<Option<Field>>, k: nat)
    requires k <= |fields| && SameNames(t, start, FieldNamespace(id))
    ensures
      var (u, done) := NormalizeFields(lib, start, FieldNamespace(id), fields[..k]);
      && Caught(FieldScope(lib, t, id), u, FieldLabels(fields), k)
      && FieldsNamed(FieldScope(lib, t, id), fields, done, k)
  {
    hide FieldNamespace, NormalizeField, Takes;
    var c := FieldScope(lib, t, id);
    if k == 0 {
      NothingNamed(lib, t, start, id, fields);
    } else {
      hide Caught, FieldsNamed;
      FieldsTake(lib, t, start, id, fields, k - 1);
      assert fields[..k][..k - 1] == fields[..k - 1];
      var (u, done) := NormalizeFields(lib, start, FieldNamespace(id), fields[..k - 1]);
      if fields[k - 1].Some? { OneFieldTakes(c, u, fields, done, k - 1); }
      else { HoleTakes(c, u, fields, done, k - 1); }
    }
  }

  lemma NothingNamed(lib: Library, t: Table, start: Table, id: ID, fields: seq<Option<Field>>)
    requires SameNames(t, start, FieldNamespace(id))
    ensures Caught(FieldScope(lib, t, id), start, FieldLabels(fields), 0)
    ensures FieldsNamed(FieldScope(lib, t, id), fields, [], 0)
  {
  }

  lemma OneFieldTakes(c: Scope, u: Table, fields: seq<Option<Field>>, done: seq<Option<Field>>, k: nat)
    requires k < |fields| && fields[k].Some? && c.reserved == IsReservedCodeName
    requires Caught(c, u, FieldLabels(fields), k) && FieldsNamed(c, fields, done, k)
    ensures
      var (v, g) := NormalizeField(c.lib, u, c.ns, fields[k].value);
      Caught(c, v, FieldLabels(fields), k + 1) && FieldsNamed(c, fields, done + [Some(g)], k + 1)
  {
    hide Takes, Normalized, Caught;
    NextTakes(c, u, FieldLabels(fields), k);
    NextCaught(c, u, NormalizeField(c.lib, u, c.ns, fields[k].value).0, FieldLabels(fields), k);
  }

  lemma HoleTakes(c: Scope, u: Table, fields: seq<Option<Field>>, done: seq<Option<Field>>, k: nat)
    requires k < |fields| && fields[k].None?
    requires Caught(c, u, FieldLabels(fields), k) && FieldsNamed(c, fields, done, k)
    ensures Caught(c, u, FieldLabels(fields), k + 1) && FieldsNamed(c, fields, done + [None], k + 1)
  {
    hide Takes;
    HoleIsCaught(c, u, FieldLabels(fields), k);
  }

  lemma HoleIsCaught(c: Scope, u: Table, xs: seq<Option<Label>>, k: nat)
    requires k < |xs| && xs[k].None? && Caught(c, u, xs, k)
    ensures Caught(c, u, xs, k + 1)
  {
    hide Takes;
    forall w ensures TakenBefore(c, xs, k + 1, w) == TakenBefore(c, xs, k, w) {}
  }

  // ----- Resource by resource -----

  lemma {:induction false} FieldsKeepOthers(lib: Library, t: Table, ns: Namespace, fields: seq<Option<Field>>, other: Namespace)
    requires other != ns
    ensures SameNames(t, NormalizeFields(lib, t, ns, fields).0, other)
  {
    hide Normalized;
    if fields != [] { FieldsKeepOthers(lib, t, ns, fields[..|fields| - 1], other); }
  }

  function AfterOwn(lib: Library, t: Table, r: Resource): Table {
    var target := Normalized(lib, t, RESOURCE_NAMESPACE, r.caption, r.id, NothingReserved, r.codeName);
    if target == r.codeName then t else Refrozen(t, RESOURCE_NAMESPACE, r.codeName, target, r.id)
  }

  lemma OwnKeepsOthers(lib: Library, t: Table, r: Resource, other: Namespace)
    requires other != RESOURCE_NAMESPACE
    ensures SameNames(t, AfterOwn(lib, t, r), other)
    ensures NormalizeResource(lib, t, r).0 == NormalizeFields(lib, AfterOwn(lib, t, r), FieldNamespace(r.id), r.fields).0
    ensures NormalizeResource(lib, t, r).1.fields == NormalizeFields(lib, AfterOwn(lib, t, r), FieldNamespace(r.id), r.fields).1
  {
    hide Normalized, NormalizeFields;
  }

  lemma SameNamesTransitive(a: Table, b: Table, c: Table, ns: Namespace)
    requires SameNames(a, b, ns) && SameNames(b, c, ns)
    ensures SameNames(a, c, ns)
  {
  }

  /** No resource's fields live in the namespace. */
  ghost predicate NobodysFields(rs: seq<Option<Resource>>, ns: Namespace) {
    && ns != RESOURCE_NAMESPACE
    && forall i :: 0 <= i < |rs| && rs[i].Some? ==> ns != FieldNamespace(rs[i].value.id)
  }

  lemma {:induction false} ResourcesKeepOthers(lib: Library, t: Table, rs: seq<Option<Resource>>, ns: Namespace)
    requires NobodysFields(rs, ns)
    ensures SameNames(t, NormalizeResources(lib, t, rs).0, ns)
  {
    hide NormalizeResource;
    if rs != [] {
      var n := |rs| - 1;
      ResourcesKeepOthers(lib, t, rs[..n], ns);
      if rs[n].Some? {
        var u := NormalizeResources(lib, t, rs[..n]).0;
        OwnKeepsOthers(lib, u, rs[n].value, ns);
        FieldsKeepOthers(lib, AfterOwn(lib, u, rs[n].value), FieldNamespace(rs[n].value.id), rs[n].value.fields, ns);
        SameNamesTransitive(u, AfterOwn(lib, u, rs[n].value), NormalizeResource(lib, u, rs[n].value).0, ns);
        SameNamesTransitive(t, u, NormalizeResource(lib, u, rs[n].value).0, ns);
      }
    }
  }

  /** The fields of the k-th resource are renamed from a table with t's names of their
      namespace. */
  lemma {:induction false} FieldsStartAsGiven(lib: Library, t: Table, rs: seq<Option<Resource>>, k: nat) returns (start: Table)
    requires Unique(KeyOfResource, rs) && k < |rs| && rs[k].Some?
    ensures SameNames(t, start, FieldNamespace(rs[k].value.id))
    ensures
      var all := NormalizeResources(lib, t, rs).1;
      && |all| == |rs| && all[k].Some?
      && all[k].value.fields == NormalizeFields(lib, start, FieldNamespace(rs[k].value.id), rs[k].value.fields).1
  {
    hide NormalizeResource, SameNames, Unique;
    var n := |rs| - 1;
    ResourcesGrow(lib, t, rs);
    ResourcesGrow(lib, t, rs[..n]);
    UniquePrefix(KeyOfResource, rs);
    if k < n {
      start := FieldsStartAsGiven(lib, t, rs[..n], k);
    } else {
      var u := NormalizeResources(lib, t, rs[..n]).0;
      var ns := FieldNamespace(rs[n].value.id);
      NobodyElses(rs);
      ResourcesKeepOthers(lib, t, rs[..n], ns);
      OwnKeepsOthers(lib, u, rs[n].value, ns);
      start := AfterOwn(lib, u, rs[n].value);
      SameNamesTransitive(t, u, start, ns);
    }
  }

  /** The first k resources are called by the names they take; only code names are changed. */
  ghost predicate ResourcesNamed(c: Scope, rs: seq<Option<Resource>>, done: seq<Option<Resource>>, k: nat)
    requires k <= |rs|
  {
    && |done| == k
    && (forall j: nat :: j < k ==> (done[j].Some? <==> rs[j].Some?))
    && forall j: nat :: j < k && rs[j].Some? ==>
         && done[j].value == rs[j].value.(codeName := done[j].value.codeName, fields := done[j].value.fields)
         && forall w :: Takes(c, ResourceLabels(rs), j, w) <==> w == done[j].value.codeName
  }

  lemma {:induction false} ResourcesTake(lib: Library, t: Table, rs: seq<Option<Resource>>, k: nat)
    requires k <= |rs|
    ensures
      var (u, done) := NormalizeResources(lib, t, rs[..k]);
      && Caught(ResourceScope(lib, t), u, ResourceLabels(rs), k)
      && ResourcesNamed(ResourceScope(lib, t), rs, done, k)
  {
    var c := ResourceScope(lib, t);
    if k > 0 {
      ResourcesTake(lib, t, rs, k - 1);
      assert rs[..k][..k - 1] == rs[..k - 1];
      var (u, done) := NormalizeResources(lib, t, rs[..k - 1]);
      hide Caught, ResourcesNamed, NormalizeResource;
      if rs[k - 1].Some? { OneResourceTakes(c, u, rs, done, k - 1); }
      else { NoResourceTakes(c, u, rs, done, k - 1); }
    }
  }

  lemma OneResourceTakes(c: Scope, u: Table, rs: seq<Option<Resource>>, done: seq<Option<Resource>>, k: nat)
    requires k < |rs| && rs[k].Some? && c.reserved == NothingReserved && c.ns == RESOURCE_NAMESPACE
    requires Caught(c, u, ResourceLabels(rs), k) && ResourcesNamed(c, rs, done, k)
    ensures
      var (v, q) := NormalizeResource(c.lib, u, rs[k].value);
      Caught(c, v, ResourceLabels(rs), k + 1) && ResourcesNamed(c, rs, done + [Some(q)], k + 1)
  {
    hide Takes, Normalized, Caught, NormalizeFields, SameNames;
    var r := rs[k].value;
    NextTakes(c, u, ResourceLabels(rs), k);
    NextCaught(c, u, AfterOwn(c.lib, u, r), ResourceLabels(rs), k);
    NamespacesDiffer(r.id, r.id);
    OwnFields(c.lib, u, r);
    FieldsKeepOthers(c.lib, AfterOwn(c.lib, u, r), FieldNamespace(r.id), r.fields, c.ns);
    SameCaught(c, AfterOwn(c.lib, u, r), NormalizeResource(c.lib, u, r).0, ResourceLabels(rs), k + 1);
  }

  lemma OwnFields(lib: Library, t: Table, r: Resource)
    ensures NormalizeResource(lib, t, r).0 == NormalizeFields(lib, AfterOwn(lib, t, r), FieldNamespace(r.id), r.fields).0
  {
    hide Normalized, NormalizeFields;
  }

  lemma SameCaught(c: Scope, u: Table, v: Table, xs: seq<Option<Label>>, k: nat)
    requires k <= |xs| && Caught(c, u, xs, k) && SameNames(u, v, c.ns)
    ensures Caught(c, v, xs, k)
  {
    hide TakenBefore;
  }

  lemma NoResourceTakes(c: Scope, u: Table, rs: seq<Option<Resource>>, done: seq<Option<Resource>>, k: nat)
    requires k < |rs| && rs[k].None?
    requires Caught(c, u, ResourceLabels(rs), k) && ResourcesNamed(c, rs, done, k)
    ensures Caught(c, u, ResourceLabels(rs), k + 1) && ResourcesNamed(c, rs, done + [None], k + 1)
  {
    hide Takes;
    HoleIsCaught(c, u, ResourceLabels(rs), k);
  }

  lemma NobodyElses(rs: seq<Option<Resource>>)
    requires rs != [] && Unique(KeyOfResource, rs) && rs[|rs| - 1].Some?
    ensures NobodysFields(rs[..|rs| - 1], FieldNamespace(rs[|rs| - 1].value.id))
  {
    var n := |rs| - 1;
    NamespacesDiffer(rs[n].value.id, rs[n].value.id);
    forall i | 0 <= i < n && rs[i].Some? ensures FieldNamespace(rs[n].value.id) != FieldNamespace(rs[i].value.id) {
      NamespacesDiffer(rs[n].value.id, rs[i].value.id);
      assert KeyOfResource(rs[i].value) != KeyOfResource(rs[n].value);
    }
  }

  // ----- Every name of the result, foretold -----

  /** The i-th resource of the result is called by the first numbered name of its own label that
      is its name already, or that the ledger has never seen and no earlier resource is renamed
      to; it keeps its name if there is none. Apart from code names it is as it was. */
  lemma {:induction false} ResourceNamesForetold(c: Scope, rs: seq<Option<Resource>>, labels: seq<Option<Label>>, i: nat)
    requires c.ns == RESOURCE_NAMESPACE && forall w :: !c.reserved(w)
    requires |labels| == |rs| && i < |rs| && rs[i].Some?
    requires forall j :: 0 <= j < |rs| ==>
      labels[j] == if rs[j].None? then None else Some(Label(rs[j].value.caption, rs[j].value.id, rs[j].value.codeName))
    ensures
      var all := NormalizeResources(c.lib, c.ledger, rs).1;
      && |all| == |rs| && all[i].Some?
      && all[i].value == rs[i].value.(codeName := all[i].value.codeName, fields := all[i].value.fields)
      && forall w :: Takes(c, labels, i, w) <==> w == all[i].value.codeName
  {
    hide Takes, Caught, NormalizeResources;
    var d := ResourceScope(c.lib, c.ledger);
    ResourcesTake(c.lib, c.ledger, rs, |rs|);
    assert rs[..|rs|] == rs;
    assert labels == ResourceLabels(rs);
    forall w ensures Takes(c, labels, i, w) <==> Takes(d, labels, i, w) { SameScope(c, d, labels, i, w); }
  }

  /** Where resources are told apart, the n-th field of the i-th resource of the result is called
      by the first numbered name of its own label that is its name already, or that the ledger
      has never seen, is not reserved and no earlier field of the resource is renamed to. */
  lemma {:induction false} FieldNamesForetold(c: Scope, rs: seq<Option<Resource>>, i: nat, labels: seq<Option<Label>>, n: nat)
    requires Unique(KeyOfResource, rs) && i < |rs| && rs[i].Some?
    requires c.ns == FieldNamespace(rs[i].value.id) && c.reserved == IsReservedCodeName
    requires |labels| == |rs[i].value.fields| && n < |labels| && rs[i].value.fields[n].Some?
    requires forall j :: 0 <= j < |labels| ==>
      var f := rs[i].value.fields[j];
      labels[j] == if f.None? then None else Some(Label(f.value.caption, f.value.id, f.value.codeName))
    ensures
      var all := NormalizeResources(c.lib, c.ledger, rs).1;
      && |all| == |rs| && all[i].Some?
      && var before, after := rs[i].value.fields, all[i].value.fields;
         && |after| == |before| && after[n].Some?
         && after[n].value == before[n].value.(codeName := after[n].value.codeName)
         && forall w :: Takes(c, labels, n, w) <==> w == after[n].value.codeName
  {
    hide Takes, Caught, NormalizeResources, NormalizeFields, SameNames, Unique, FieldNamespace;
    var r := rs[i].value;
    var start := FieldsStartAsGiven(c.lib, c.ledger, rs, i);
    FieldsTake(c.lib, c.ledger, start, r.id, r.fields, |r.fields|);
    assert r.fields[..|r.fields|] == r.fields;
    assert labels == FieldLabels(r.fields);
  }

  lemma {:induction false} SameScope(c: Scope, d: Scope, xs: seq<Option<Label>>, i: nat, w: string)
    requires i < |xs| && xs[i].Some?
    requires d == c.(reserved := d.reserved) && forall v :: c.reserved(v) == d.reserved(v)
    ensures Takes(c, xs, i, w) <==> Takes(d, xs, i, w)
    decreases i
  {
    hide BaseSymbol, Chosen;
    forall v ensures Open(c, xs, i, v) == Open(d, xs, i, v) {
      forall j: nat | j < i && xs[j].Some? ensures Takes(c, xs, j, v) == Takes(d, xs, j, v) { SameScope(c, d, xs, j, v); }
    }
    var x := xs[i].value;
    if Takes(c, xs, i, w) { ChosenAgrees(v => Open(c, xs, i, v), v => Open(d, xs, i, v), c.Base(x), x.name, w); }
    if Takes(d, xs, i, w) { ChosenAgrees(v => Open(d, xs, i, v), v => Open(c, xs, i, v), c.Base(x), x.name, w); }
  }

  // ----- When the result is valid -----

  /** In the resource, a scalar takes the Go name of the key of a relationship. */
  ghost predicate TakesKey(lib: Library, t: Table, r: Resource) {
    exists i: nat, j: nat, w: string :: TakesKeyAt(lib, t, r, i, j, w)
  }

  ghost predicate TakesKeyAt(lib: Library, t: Table, r: Resource, i: nat, j: nat, w: string) {
    && i < |r.fields| && j < |r.fields| && r.fields[i].Some? && r.fields[j].Some?
    && !r.fields[i].value.kind.TBelongsTo? && r.fields[j].value.kind.TBelongsTo?
    && Takes(FieldScope(lib, t, r.id), FieldLabels(r.fields), j, w)
    && Takes(FieldScope(lib, t, r.id), FieldLabels(r.fields), i, w + "ID")
  }

  lemma ClashIsTaken(lib: Library, t: Table, start: Table, r: Resource)
    requires SameNames(t, start, FieldNamespace(r.id))
    ensures KeyClash(NormalizeFields(lib, start, FieldNamespace(r.id), r.fields).1) <==> TakesKey(lib, t, r)
  {
    hide Takes, NormalizeFields, SameNames, Caught;
    var ns := FieldNamespace(r.id);
    FieldsTake(lib, t, start, r.id, r.fields, |r.fields|);
    assert r.fields[..|r.fields|] == r.fields;
    var done := NormalizeFields(lib, start, ns, r.fields).1;
    if KeyClash(done) {
      var i: nat, j: nat :| ClashAt(done, i, j);
      assert TakesKeyAt(lib, t, r, i, j, done[j].value.codeName);
    }
    if TakesKey(lib, t, r) {
      var i: nat, j: nat, w: string :| TakesKeyAt(lib, t, r, i, j, w);
      assert ClashAt(done, i, j);
    }
  }

  lemma BatchResult(lib: Library, s: ProjectSpec, ledger: Table)
    requires WellFormedSpec(lib, s) && Agrees(ledger, s.resources)
    ensures
      var rs := NormalizeResources(lib, ledger, s.resources).1;
      WellFormedSpec(lib, s.(resources := rs)) <==> NoKeyClash(rs)
  {
    hide WellFormedSpec, Agrees, Named, Usable, NoKeyClash, SameResource, NormalizeResources;
    var (after, rs) := NormalizeResources(lib, ledger, s.resources);
    var t := s.(resources := rs);
    ValidIsUsable(lib, s);
    Identity.ValidIsNamed(lib, s);
    NormalizeKeepsAgreement(lib, ledger, s.resources);
    ResourcesStayUsable(lib, ledger, s.resources);
    assert Recoded(s, t);
    NamedRecoded(s.resources, rs);
    AgreedVerdict(lib, s, t, after);
  }

  /** On a valid spec that agrees with its ledger, the batch rename leaves the spec valid
      exactly when in no resource a scalar takes the Go name of a relationship's key: told from
      labels, code names and the ledger, before the call. */
  lemma NormalizeVerdict(lib: Library, s: ProjectSpec, ledger: Table)
    requires WellFormedSpec(lib, s) && Agrees(ledger, s.resources)
    ensures
      WellFormedSpec(lib, s.(resources := NormalizeResources(lib, ledger, s.resources).1)) <==>
        forall k :: 0 <= k < |s.resources| && s.resources[k].Some? ==> !TakesKey(lib, ledger, s.resources[k].value)
  {
    hide WellFormedSpec, TakesKey, KeyClash, NormalizeResources, NormalizeFields, ResourceAgrees;
    hide SameResource, SameNames, Unique;
    BatchResult(lib, s, ledger);
    Identity.ValidIsNamed(lib, s);
    NormalizeKeepsAgreement(lib, ledger, s.resources);
    var rs := NormalizeResources(lib, ledger, s.resources).1;
    forall k | 0 <= k < |s.resources| && s.resources[k].Some?
      ensures rs[k].Some? && (KeyClash(rs[k].value.fields) <==> TakesKey(lib, ledger, s.resources[k].value))
    {
      var start := FieldsStartAsGiven(lib, ledger, s.resources, k);
      ClashIsTaken(lib, ledger, start, s.resources[k].value);
    }
  }

  // ----- Conditions that do not ask for the order -----

  /** The names the batch rename can give a field at all: its own or a numbered name of its
      label. */
  ghost predicate MayBe(lib: Library, f: Field, w: string) {
    w == f.codeName || exists m: nat :: 1 <= m <= MAX_MINT_ATTEMPTS && w == Variant(BaseSymbol(lib, f.caption, f.id), m)
  }

  /** A scalar that can get the Go name of the relationship's key. */
  ghost predicate Meet(lib: Library, f: Field, g: Field) {
    !f.kind.TBelongsTo? && g.kind.TBelongsTo? && exists b: string :: MayBe(lib, g, b) && MayBe(lib, f, b + "ID")
  }

  ghost predicate NoneMeet(lib: Library, fields: seq<Option<Field>>) {
    forall i, j :: 0 <= i < |fields| && 0 <= j < |fields| && fields[i].Some? && fields[j].Some? ==>
      !Meet(lib, fields[i].value, fields[j].value)
  }

  lemma TakenMayBe(lib: Library, t: Table, id: ID, fields: seq<Option<Field>>, i: nat, w: string)
    requires i < |fields| && fields[i].Some? && Takes(FieldScope(lib, t, id), FieldLabels(fields), i, w)
    ensures MayBe(lib, fields[i].value, w)
  {
    hide BaseSymbol, Variant, Open;
  }

  /** The batch rename is safe where no scalar can get a key's name, whatever the ledger and
      the order of the fields. */
  lemma NormalizeIsSafe(lib: Library, s: ProjectSpec, ledger: Table)
    requires WellFormedSpec(lib, s) && Agrees(ledger, s.resources)
    requires forall k :: 0 <= k < |s.resources| && s.resources[k].Some? ==> NoneMeet(lib, s.resources[k].value.fields)
    ensures WellFormedSpec(lib, s.(resources := NormalizeResources(lib, ledger, s.resources).1))
  {
    hide WellFormedSpec, Agrees, NormalizeResources, MayBe, Takes;
    NormalizeVerdict(lib, s, ledger);
    forall k | 0 <= k < |s.resources| && s.resources[k].Some? ensures !TakesKey(lib, ledger, s.resources[k].value) {
      var r := s.resources[k].value;
      if TakesKey(lib, ledger, r) {
        var i: nat, j: nat, w: string :| TakesKeyAt(lib, ledger, r, i, j, w);
        TakenMayBe(lib, ledger, r.id, r.fields, j, w);
        TakenMayBe(lib, ledger, r.id, r.fields, i, w + "ID");
        assert false;
      }
    }
  }

  /** A relationship whose code name is what its label makes keeps it. */
  lemma SettledTakesItsOwn(lib: Library, t: Table, id: ID, fields: seq<Option<Field>>, j: nat)
    requires j < |fields| && fields[j].Some?
    requires BaseSymbol(lib, fields[j].value.caption, fields[j].value.id) == fields[j].value.codeName
    requires fields[j].value.codeName != ""
    ensures forall w :: Takes(FieldScope(lib, t, id), FieldLabels(fields), j, w) <==> w == fields[j].value.codeName
  {
    hide BaseSymbol, Chosen;
    var f := fields[j].value;
    FirstIsTaken(lib, t, id, fields, j);
    forall w | Takes(FieldScope(lib, t, id), FieldLabels(fields), j, w) ensures w == f.codeName {
      ChosenOnce(v => Open(FieldScope(lib, t, id), FieldLabels(fields), j, v), f.codeName, f.codeName, w, f.codeName);
    }
  }

  /** A field takes the plain name of its label when that is open. */
  lemma FirstIsTaken(lib: Library, t: Table, id: ID, fields: seq<Option<Field>>, i: nat)
    requires i < |fields| && fields[i].Some?
    requires Open(FieldScope(lib, t, id), FieldLabels(fields), i, BaseSymbol(lib, fields[i].value.caption, fields[i].value.id))
    ensures
      var base := BaseSymbol(lib, fields[i].value.caption, fields[i].value.id);
      base != "" ==> Takes(FieldScope(lib, t, id), FieldLabels(fields), i, base)
  {
    hide BaseSymbol, Open;
    var base := BaseSymbol(lib, fields[i].value.caption, fields[i].value.id);
    assert Variant(base, 1) == base;
    if base != "" { assert FirstAt(v => Open(FieldScope(lib, t, id), FieldLabels(fields), i, v), base, 1); }
  }

  /** Where the label of a scalar makes the key name of a settled relationship, the ledger has
      never seen that name and no earlier field takes it, the batch rename breaks the spec. */
  lemma NormalizeBreaks(lib: Library, s: ProjectSpec, ledger: Table, k: nat, i: nat, j: nat)
    requires WellFormedSpec(lib, s) && Agrees(ledger, s.resources) && k < |s.resources| && s.resources[k].Some?
    requires i < |s.resources[k].value.fields| && j < |s.resources[k].value.fields|
    requires s.resources[k].value.fields[i].Some? && s.resources[k].value.fields[j].Some?
    requires
      var r := s.resources[k].value;
      var f, g := r.fields[i].value, r.fields[j].value;
      && !f.kind.TBelongsTo? && g.kind.TBelongsTo?
      && BaseSymbol(lib, g.caption, g.id) == g.codeName
      && BaseSymbol(lib, f.caption, f.id) == g.codeName + "ID"
      && Free(ledger, FieldNamespace(r.id), g.codeName + "ID")
      && forall h: nat :: h < i && r.fields[h].Some? ==>
           !Takes(FieldScope(lib, ledger, r.id), FieldLabels(r.fields), h, g.codeName + "ID")
    ensures !WellFormedSpec(lib, s.(resources := NormalizeResources(lib, ledger, s.resources).1))
  {
    hide WellFormedSpec, Agrees, NormalizeResources, MayBe, BaseSymbol, Takes;
    var r := s.resources[k].value;
    var key := r.fields[j].value.codeName + "ID";
    ValidIsUsable(lib, s);
    assert r.fields[j].value.codeName != "";
    FieldCreation.KeySymbolIsUnreserved(r.fields[j].value.codeName);
    assert Open(FieldScope(lib, ledger, r.id), FieldLabels(r.fields), i, key);
    FirstIsTaken(lib, ledger, r.id, r.fields, i);
    SettledTakesItsOwn(lib, ledger, r.id, r.fields, j);
    assert TakesKeyAt(lib, ledger, r, i, j, r.fields[j].value.codeName);
    assert TakesKey(lib, ledger, r);
    NormalizeVerdict(lib, s, ledger);
  }
}
