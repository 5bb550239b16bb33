/** Explicit code-symbol refactoring (internal/spec/refactor.go): one entity, or every drifted
    entity at once. Inputs are left as they were; the candidate and its ledger are fresh. */
module Refactor {
  import opened Text
  import opened Names
  import opened Spec
  import opened Normalize
  import opened Ledger
  import opened WellFormed

  /** Retire the old symbol if it is live, record the new one if it is free. */
  function Refrozen(t: Table, ns: Namespace, old_: string, new_: string, entity: ID): Table {
    Recorded(if old_ != "" then Retired(t, ns, old_) else t, ns, new_, entity)
  }

  method Refreeze(l: Ledger, ns: Namespace, old_: string, new_: string, entity: ID)
    modifies l
    ensures l.entries == Refrozen(old(l.entries), ns, old_, new_, entity)
    ensures Grows(old(l.entries), l.entries)
  {
    if old_ != "" && Live(l.entries, ns, old_) {
      var _ := l.Tombstone(ns, old_);
    }
    var _ := l.Record(ns, new_, entity);
  }

  /** The symbol a label would take: the first numbered variant of its base that is the
      current symbol already, or is available; the current symbol if there is none. */
  function Target(t: Table, ns: Namespace, base: string, reserved: string -> bool, current: string, n: nat): string
    requires 1 <= n <= MAX_MINT_ATTEMPTS + 1
    decreases MAX_MINT_ATTEMPTS + 1 - n
  {
    if n > MAX_MINT_ATTEMPTS then current
    else if Variant(base, n) == current || Available(t, ns, reserved, Variant(base, n)) then Variant(base, n)
    else Target(t, ns, base, reserved, current, n + 1)
  }

  function Normalized(lib: Library, t: Table, ns: Namespace, caption: string, entity: ID,
                      reserved: string -> bool, current: string): string
  {
    var base := BaseSymbol(lib, caption, entity);
    if base == "" then current else Target(t, ns, base, reserved, current, 1)
  }

  method NormalizedSymbol(lib: Library, l: Ledger, ns: Namespace, caption: string, entity: ID,
                          reserved: string -> bool, current: string)
    returns (symbol: string)
    ensures symbol == Normalized(lib, l.entries, ns, caption, entity, reserved, current)
  {
    hide Normal, KindFallback, Itoa;
    var ident := NormalizeLabel(lib, caption);
    var base := if ident.Some? then ident.value else KindFallback(entity);
    if base == "" {
      return current;
    }
    for n := 1 to MAX_MINT_ATTEMPTS + 1
      invariant Target(l.entries, ns, base, reserved, current, n) == Target(l.entries, ns, base, reserved, current, 1)
    {
      var candidate := Variant(base, n);
      if candidate == current {
        return current;
      }
      if !Free(l.entries, ns, candidate) {
        continue;
      }
      if reserved(candidate) {
        continue;
      }
      return candidate;
    }
    return current;
  }

  // ----- NormalizeIdentifiers, as what it computes -----

  function NormalizeField(lib: Library, t: Table, ns: Namespace, f: Field): (Table, Field) {
    var target := Normalized(lib, t, ns, f.caption, f.id, IsReservedCodeName, f.codeName);
    if target == f.codeName then (t, f)
    else (Refrozen(t, ns, f.codeName, target, f.id), f.(codeName := target))
  }

  function NormalizeFields(lib: Library, t: Table, ns: Namespace, fields: seq<Option<Field>>): (Table, seq<Option<Field>>) {
    if fields == [] then (t, [])
    else
      var (t1, done) := NormalizeFields(lib, t, ns, fields[..|fields| - 1]);
      match fields[|fields| - 1]
      case None => (t1, done + [None])
      case Some(f) =>
        var (t2, f2) := NormalizeField(lib, t1, ns, f);
        (t2, done + [Some(f2)])
  }

  function NormalizeResource(lib: Library, t: Table, r: Resource): (Table, Resource) {
    var target := Normalized(lib, t, RESOURCE_NAMESPACE, r.caption, r.id, NothingReserved, r.codeName);
    var t1 := if target == r.codeName then t else Refrozen(t, RESOURCE_NAMESPACE, r.codeName, target, r.id);
    var (t2, fields) := NormalizeFields(lib, t1, FieldNamespace(r.id), r.fields);
    (t2, r.(codeName := target, fields := fields))
  }

  function NormalizeResources(lib: Library, t: Table, rs: seq<Option<Resource>>): (Table, seq<Option<Resource>>) {
    if rs == [] then (t, [])
    else
      var (t1, done) := NormalizeResources(lib, t, rs[..|rs| - 1]);
      match rs[|rs| - 1]
      case None => (t1, done + [None])
      case Some(r) =>
        var (t2, r2) := NormalizeResource(lib, t1, r);
        (t2, done + [Some(r2)])
  }

  datatype RefactorResult =
    | Rejected
    | Refactored(spec: ProjectSpec, ledger: Ledger)

  /** Cloning goes through the canonical encoding, which only decodes the supported version. */
  predicate Clonable(s: ProjectSpec) { s.version == SPEC_VERSION }

  method NormalizeResourceFields(lib: Library, l: Ledger, r: Resource) returns (fields: seq<Option<Field>>)
    modifies l
    ensures (l.entries, fields) == NormalizeFields(lib, old(l.entries), FieldNamespace(r.id), r.fields)
  {
    hide Normalized, Refrozen;
    var ns := FieldNamespace(r.id);
    fields := r.fields;
    for i := 0 to |r.fields|
      invariant |fields| == |r.fields| && fields[i..] == r.fields[i..]
      invariant (l.entries, fields[..i]) == NormalizeFields(lib, old(l.entries), ns, r.fields[..i])
    {
      assert r.fields[..i + 1][..i] == r.fields[..i];
      assert fields[i] == fields[i..][0] == r.fields[i];
      ghost var done := fields[..i];
      if fields[i].Some? {
        var f := fields[i].value;
        var target := NormalizedSymbol(lib, l, ns, f.caption, f.id, IsReservedCodeName, f.codeName);
        if target != f.codeName {
          Refreeze(l, ns, f.codeName, target, f.id);
          fields := fields[i := Some(f.(codeName := target))];
        }
      }
      assert fields[..i + 1] == done + [fields[i]];
    }
    assert r.fields[..|r.fields|] == r.fields && fields[..|r.fields|] == fields;
  }

  method NormalizeIdentifiers(lib: Library, s: Option<ProjectSpec>, ledger: Ledger?) returns (result: RefactorResult)
    ensures result.Rejected? <==> s.None? || ledger == null || !Clonable(s.value)
    ensures result.Refactored? ==>
      && fresh(result.ledger)
      && var (t, rs) := NormalizeResources(lib, old(ledger.entries), s.value.resources);
         result.spec == s.value.(resources := rs) && result.ledger.entries == t
  {
    hide NormalizeFields, Normalized, Refrozen;
    if s.None? || ledger == null || !Clonable(s.value) {
      return Rejected;
    }
    var l := ledger.Clone();
    var given := s.value.resources;
    var rs := given;
    for i := 0 to |given|
      invariant fresh(l)
      invariant |rs| == |given| && rs[i..] == given[i..]
      invariant (l.entries, rs[..i]) == NormalizeResources(lib, old(ledger.entries), given[..i])
    {
      assert given[..i + 1][..i] == given[..i];
      assert rs[i] == rs[i..][0] == given[i];
      ghost var done := rs[..i];
      if rs[i].Some? {
        var r := rs[i].value;
        ghost var t1 := l.entries;
        var target := NormalizedSymbol(lib, l, RESOURCE_NAMESPACE, r.caption, r.id, NothingReserved, r.codeName);
        if target != r.codeName {
          Refreeze(l, RESOURCE_NAMESPACE, r.codeName, target, r.id);
          r := r.(codeName := target);
        }
        var fields := NormalizeResourceFields(lib, l, r);
        rs := rs[i := Some(r.(fields := fields))];
        assert (l.entries, rs[i].value) == NormalizeResource(lib, t1, given[i].value);
      }
      assert rs[..i + 1] == done + [rs[i]];
    }
    assert given[..|given|] == given && rs[..|given|] == rs;
    return Refactored(s.value.(resources := rs), l);
  }

  // ----- Nothing is lost, nothing is recycled -----

  lemma RefrozenGrows(t: Table, ns: Namespace, old_: string, new_: string, entity: ID)
    ensures Grows(t, Refrozen(t, ns, old_, new_, entity))
  {
  }

  lemma GrowsTransitive(a: Table, b: Table, c: Table)
    requires Grows(a, b) && Grows(b, c)
    ensures Grows(a, c)
  {
  }

  lemma {:induction false} FieldsGrow(lib: Library, t: Table, ns: Namespace, fields: seq<Option<Field>>)
    ensures Grows(t, NormalizeFields(lib, t, ns, fields).0)
    ensures |NormalizeFields(lib, t, ns, fields).1| == |fields|
  {
    if fields != [] {
      FieldsGrow(lib, t, ns, fields[..|fields| - 1]);
    }
  }

  lemma {:induction false} ResourcesGrow(lib: Library, t: Table, rs: seq<Option<Resource>>)
    ensures Grows(t, NormalizeResources(lib, t, rs).0)
    ensures |NormalizeResources(lib, t, rs).1| == |rs|
  {
    if rs != [] {
      ResourcesGrow(lib, t, rs[..|rs| - 1]);
      match rs[|rs| - 1] {
        case None =>
        case Some(r) => ResourceGrows(lib, NormalizeResources(lib, t, rs[..|rs| - 1]).0, r);
      }
    }
  }

  lemma ResourceGrows(lib: Library, t: Table, r: Resource)
    ensures Grows(t, NormalizeResource(lib, t, r).0)
  {
    var target := Normalized(lib, t, RESOURCE_NAMESPACE, r.caption, r.id, NothingReserved, r.codeName);
    var t1 := if target == r.codeName then t else Refrozen(t, RESOURCE_NAMESPACE, r.codeName, target, r.id);
    FieldsGrow(lib, t1, FieldNamespace(r.id), r.fields);
  }

  // ----- Idempotence: a candidate that was taken stays taken as the ledger grows -----

  ghost predicate Covers(small: Table, big: Table) { small.Keys <= big.Keys }

  lemma {:induction false} TargetStable(t: Table, t': Table, ns: Namespace, base: string, reserved: string -> bool, current: string, n: nat)
    requires 1 <= n <= MAX_MINT_ATTEMPTS + 1 && Covers(t, t')
    ensures var g := Target(t, ns, base, reserved, current, n); Target(t', ns, base, reserved, g, n) == g
    decreases MAX_MINT_ATTEMPTS + 1 - n
  {
    if n <= MAX_MINT_ATTEMPTS {
      TargetStable(t, t', ns, base, reserved, current, n + 1);
    }
  }

  lemma NormalizedStable(lib: Library, t: Table, t': Table, ns: Namespace, caption: string, entity: ID,
                         reserved: string -> bool, current: string)
    requires Covers(t, t')
    ensures var g := Normalized(lib, t, ns, caption, entity, reserved, current);
            Normalized(lib, t', ns, caption, entity, reserved, g) == g
  {
    TargetStable(t, t', ns, BaseSymbol(lib, caption, entity), reserved, current, 1);
  }

  lemma {:induction false} FieldsSettled(lib: Library, t: Table, big: Table, ns: Namespace, fields: seq<Option<Field>>)
    requires Covers(NormalizeFields(lib, t, ns, fields).0, big)
    ensures NormalizeFields(lib, big, ns, NormalizeFields(lib, t, ns, fields).1) == (big, NormalizeFields(lib, t, ns, fields).1)
  {
    hide Normalized, Refrozen;
    if fields != [] {
      var init := fields[..|fields| - 1];
      var (t1, done) := NormalizeFields(lib, t, ns, init);
      var (t2, all) := NormalizeFields(lib, t, ns, fields);
      FieldsGrow(lib, t, ns, init);
      assert all[..|all| - 1] == done;
      match fields[|fields| - 1] {
        case None =>
          FieldsSettled(lib, t, big, ns, init);
        case Some(f) =>
          var target := Normalized(lib, t1, ns, f.caption, f.id, IsReservedCodeName, f.codeName);
          RefrozenGrows(t1, ns, f.codeName, target, f.id);
          FieldsSettled(lib, t, big, ns, init);
          NormalizedStable(lib, t1, big, ns, f.caption, f.id, IsReservedCodeName, f.codeName);
      }
    }
  }

  lemma ResourceSettled(lib: Library, t: Table, big: Table, r: Resource)
    requires Covers(NormalizeResource(lib, t, r).0, big)
    ensures NormalizeResource(lib, big, NormalizeResource(lib, t, r).1) == (big, NormalizeResource(lib, t, r).1)
  {
    hide Normalized, Refrozen, NormalizeFields;
    var target := Normalized(lib, t, RESOURCE_NAMESPACE, r.caption, r.id, NothingReserved, r.codeName);
    var t1 := if target == r.codeName then t else Refrozen(t, RESOURCE_NAMESPACE, r.codeName, target, r.id);
    RefrozenGrows(t, RESOURCE_NAMESPACE, r.codeName, target, r.id);
    FieldsGrow(lib, t1, FieldNamespace(r.id), r.fields);
    NormalizedStable(lib, t, big, RESOURCE_NAMESPACE, r.caption, r.id, NothingReserved, r.codeName);
    FieldsSettled(lib, t1, big, FieldNamespace(r.id), r.fields);
  }

  lemma {:induction false} ResourcesSettled(lib: Library, t: Table, big: Table, rs: seq<Option<Resource>>)
    requires Covers(NormalizeResources(lib, t, rs).0, big)
    ensures NormalizeResources(lib, big, NormalizeResources(lib, t, rs).1) == (big, NormalizeResources(lib, t, rs).1)
  {
    hide NormalizeResource;
    if rs != [] {
      var init := rs[..|rs| - 1];
      var (t1, done) := NormalizeResources(lib, t, init);
      ResourcesGrow(lib, t, init);
      assert NormalizeResources(lib, t, rs).1[..|rs| - 1] == done;
      match rs[|rs| - 1] {
        case None =>
          ResourcesSettled(lib, t, big, init);
        case Some(r) =>
          ResourceGrows(lib, t1, r);
          ResourcesSettled(lib, t, big, init);
          ResourceSettled(lib, t1, big, r);
      }
    }
  }

  /** Running NormalizeIdentifiers on its own result changes neither spec nor ledger: for every
      spec and every ledger, however far they have drifted apart. */
  lemma NormalizeIsIdempotent(lib: Library, t: Table, rs: seq<Option<Resource>>)
    ensures var (t1, rs1) := NormalizeResources(lib, t, rs);
            NormalizeResources(lib, t1, rs1) == (t1, rs1)
  {
    ResourcesSettled(lib, t, NormalizeResources(lib, t, rs).0, rs);
  }

  // ----- Agreement between a spec and its ledger -----

  /** The symbol is live, owned by the entity, and the entity's only live symbol there. */
  ghost predicate SoleSymbol(t: Table, ns: Namespace, entity: ID, symbol: string) {
    OwnsLive(t, ns, symbol, entity) && forall s :: OwnsLive(t, ns, s, entity) ==> s == symbol
  }

  ghost predicate FieldsAgree(t: Table, ns: Namespace, fields: seq<Option<Field>>) {
    forall i :: 0 <= i < |fields| && fields[i].Some? ==>
      SoleSymbol(t, ns, fields[i].value.id, fields[i].value.codeName)
  }

  ghost predicate ResourceAgrees(t: Table, r: Resource) {
    SoleSymbol(t, RESOURCE_NAMESPACE, r.id, r.codeName) && FieldsAgree(t, FieldNamespace(r.id), r.fields)
  }

  ghost predicate Agrees(t: Table, rs: seq<Option<Resource>>) {
    forall i :: 0 <= i < |rs| && rs[i].Some? ==> ResourceAgrees(t, rs[i].value)
  }

  lemma RefrozenMovesOne(t: Table, ns: Namespace, old_: string, new_: string, entity: ID)
    requires SoleSymbol(t, ns, entity, old_) && Free(t, ns, new_) && old_ != ""
    ensures SoleSymbol(Refrozen(t, ns, old_, new_, entity), ns, entity, new_)
    ensures forall ns', e, s :: SoleSymbol(t, ns', e, s) && (ns', e) != (ns, entity) ==>
      SoleSymbol(Refrozen(t, ns, old_, new_, entity), ns', e, s)
  {
    var t' := Refrozen(t, ns, old_, new_, entity);
    assert t' == t[(ns, old_) := Entry(false, entity)][(ns, new_) := Entry(true, entity)];
    forall ns', s, e
      ensures OwnsLive(t', ns', s, e) <==> if (ns', e) == (ns, entity) then s == new_ else OwnsLive(t, ns', s, e)
    {
      if ns' == ns && s == old_ {
        assert t'[(ns', s)] == Entry(false, entity);
      } else if ns' == ns && s == new_ {
        assert t'[(ns', s)] == Entry(true, entity) && !OwnsLive(t, ns, new_, e);
      } else {
        assert (ns', s) in t' <==> (ns', s) in t;
        assert OwnsLive(t', ns', s, e) <==> OwnsLive(t, ns', s, e);
      }
    }
  }

  lemma {:induction false} TargetIsCurrentOrFree(t: Table, ns: Namespace, base: string, reserved: string -> bool, current: string, n: nat)
    requires 1 <= n <= MAX_MINT_ATTEMPTS + 1
    ensures var g := Target(t, ns, base, reserved, current, n);
            g == current || (Available(t, ns, reserved, g) && exists m :: n <= m <= MAX_MINT_ATTEMPTS && g == Variant(base, m))
    decreases MAX_MINT_ATTEMPTS + 1 - n
  {
    if n <= MAX_MINT_ATTEMPTS { TargetIsCurrentOrFree(t, ns, base, reserved, current, n + 1); }
  }

  lemma NormalizedIsCurrentOrFree(lib: Library, t: Table, ns: Namespace, caption: string, entity: ID,
                                  reserved: string -> bool, current: string)
    ensures var g := Normalized(lib, t, ns, caption, entity, reserved, current);
            g == current || (Free(t, ns, g) && !reserved(g) && g != "")
  {
    var base := BaseSymbol(lib, caption, entity);
    if base != "" {
      TargetIsCurrentOrFree(t, ns, base, reserved, current, 1);
    }
  }

  ghost predicate SameField(a: Option<Field>, b: Option<Field>) {
    && (a.None? <==> b.None?)
    && (a.Some? ==> b.value == a.value.(codeName := b.value.codeName))
  }

  ghost predicate IsFieldID(fields: seq<Option<Field>>, id: ID) {
    HasKey(KeyOfField, fields, id)
  }

  lemma {:induction false} FieldsStayAgreed(lib: Library, t: Table, ns: Namespace, fields: seq<Option<Field>>)
    requires FieldsAgree(t, ns, fields) && NamedFields(fields)
    ensures var (t', fields') := NormalizeFields(lib, t, ns, fields);
      && FieldsAgree(t', ns, fields')
      && |fields'| == |fields|
      && (forall i :: 0 <= i < |fields| ==> SameField(fields[i], fields'[i]))
      && (forall ns', e, s :: SoleSymbol(t, ns', e, s) && (ns' != ns || !IsFieldID(fields, e)) ==> SoleSymbol(t', ns', e, s))
  {
    hide Normalized, Refrozen, SoleSymbol;
    if fields != [] {
      var n := |fields| - 1;
      var init := fields[..n];
      assert forall i :: 0 <= i < n ==> init[i] == fields[i];
      UniquePrefix(KeyOfField, fields);
      FieldsStayAgreed(lib, t, ns, init);
      var (t1, done) := NormalizeFields(lib, t, ns, init);
      assert fields == init + [fields[n]];
      match fields[n] {
        case None =>
          forall e | !IsFieldID(fields, e) ensures !IsFieldID(init, e) { HasKeyPrefix(KeyOfField, fields, e); }
        case Some(f) =>
          UniqueSnoc(KeyOfField, init, f);
          assert SoleSymbol(t, ns, f.id, f.codeName);
          assert SoleSymbol(t1, ns, f.id, f.codeName);
          var target := Normalized(lib, t1, ns, f.caption, f.id, IsReservedCodeName, f.codeName);
          NormalizedIsCurrentOrFree(lib, t1, ns, f.caption, f.id, IsReservedCodeName, f.codeName);
          if target != f.codeName {
            RefrozenMovesOne(t1, ns, f.codeName, target, f.id);
          }
          var (t2, f2) := NormalizeField(lib, t1, ns, f);
          assert SoleSymbol(t2, ns, f2.id, f2.codeName);
          forall i | 0 <= i < n && done[i].Some?
            ensures SoleSymbol(t2, ns, done[i].value.id, done[i].value.codeName)
          {
            assert SameField(init[i], done[i]);
            assert done[i].value.id != f.id by { HasKeyAt(KeyOfField, init, i); }
          }
          forall e | !IsFieldID(fields, e) ensures !IsFieldID(init, e) && e != f.id {}
      }
    }
  }

  lemma HasKeyAt<T, K>(key: T -> Option<K>, xs: seq<Option<T>>, i: nat)
    requires i < |xs| && xs[i].Some? && key(xs[i].value).Some?
    ensures HasKey(key, xs, key(xs[i].value).value)
  {
  }

  lemma HasKeyPrefix<T, K>(key: T -> Option<K>, xs: seq<Option<T>>, k: K)
    requires xs != []
    ensures HasKey(key, xs[..|xs| - 1], k) ==> HasKey(key, xs, k)
  {
    if HasKey(key, xs[..|xs| - 1], k) {
      var i :| 0 <= i < |xs| - 1 && xs[..|xs| - 1][i].Some? && key(xs[..|xs| - 1][i].value) == Some(k);
      assert xs[i].Some?;
    }
  }

  lemma UniquePrefix<T, K>(key: T -> Option<K>, xs: seq<Option<T>>)
    requires xs != [] && Unique(key, xs)
    ensures Unique(key, xs[..|xs| - 1])
  {
    var init := xs[..|xs| - 1];
    forall i, j | 0 <= i < j < |init| && init[i].Some? && init[j].Some? && key(init[i].value).Some?
      ensures key(init[i].value) != key(init[j].value)
    {
      assert xs[i].Some? && xs[j].Some?;
    }
  }

  ghost predicate SameResource(a: Resource, b: Resource) {
    && b == a.(codeName := b.codeName, fields := b.fields)
    && |b.fields| == |a.fields|
    && forall i :: 0 <= i < |a.fields| ==> SameField(a.fields[i], b.fields[i])
  }

  /** The ledger rows a resource and its fields live in. */
  ghost predicate RowOf(r: Resource, ns: Namespace, e: ID) {
    (ns == RESOURCE_NAMESPACE && e == r.id) || ns == FieldNamespace(r.id)
  }

  ghost predicate OutsideRows(rs: seq<Option<Resource>>, ns: Namespace, e: ID) {
    forall i :: 0 <= i < |rs| && rs[i].Some? ==> !RowOf(rs[i].value, ns, e)
  }

  lemma ResourceStaysAgreed(lib: Library, t: Table, r: Resource)
    requires ResourceAgrees(t, r) && NamedFields(r.fields) && r.codeName != ""
    ensures var (t', r') := NormalizeResource(lib, t, r);
      && ResourceAgrees(t', r')
      && SameResource(r, r')
      && (forall ns, e, s :: SoleSymbol(t, ns, e, s) && !RowOf(r, ns, e) ==> SoleSymbol(t', ns, e, s))
  {
    hide Normalized, Refrozen, SoleSymbol;
    var target := Normalized(lib, t, RESOURCE_NAMESPACE, r.caption, r.id, NothingReserved, r.codeName);
    NormalizedIsCurrentOrFree(lib, t, RESOURCE_NAMESPACE, r.caption, r.id, NothingReserved, r.codeName);
    if target != r.codeName {
      RefrozenMovesOne(t, RESOURCE_NAMESPACE, r.codeName, target, r.id);
    }
    var t1 := if target == r.codeName then t else Refrozen(t, RESOURCE_NAMESPACE, r.codeName, target, r.id);
    NamespacesDiffer(r.id, r.id);
    FieldsStayAgreed(lib, t1, FieldNamespace(r.id), r.fields);
  }

  lemma {:induction false} ResourcesStayAgreed(lib: Library, t: Table, rs: seq<Option<Resource>>)
    requires Agrees(t, rs) && Named(rs)
    ensures var (t', rs') := NormalizeResources(lib, t, rs);
      && Agrees(t', rs')
      && |rs'| == |rs|
      && (forall i :: 0 <= i < |rs| ==> (rs[i].None? <==> rs'[i].None?))
      && (forall i :: 0 <= i < |rs| && rs[i].Some? ==> SameResource(rs[i].value, rs'[i].value))
      && (forall ns, e, s :: SoleSymbol(t, ns, e, s) && OutsideRows(rs, ns, e) ==> SoleSymbol(t', ns, e, s))
  {
    hide NormalizeResource, SoleSymbol, NamedFields, SameResource;
    if rs != [] {
      var n := |rs| - 1;
      var init := rs[..n];
      assert forall i :: 0 <= i < n ==> init[i] == rs[i];
      UniquePrefix(KeyOfResource, rs);
      ResourcesStayAgreed(lib, t, init);
      var (t1, done) := NormalizeResources(lib, t, init);
      if rs[n].Some? {
        var r := rs[n].value;
        OthersRows(init, r, rs);
        assert ResourceAgrees(t1, r);
        ResourceStaysAgreed(lib, t1, r);
        var (t2, r2) := NormalizeResource(lib, t1, r);
        forall i | 0 <= i < n && done[i].Some?
          ensures ResourceAgrees(t2, done[i].value)
        {
          assert SameResource(init[i].value, done[i].value);
          OtherResource(t1, t2, r, init[i].value, done[i].value);
        }
      }
    }
  }

  lemma OthersRows(init: seq<Option<Resource>>, r: Resource, rs: seq<Option<Resource>>)
    requires rs == init + [Some(r)] && Unique(KeyOfResource, rs)
    ensures forall i :: 0 <= i < |init| && init[i].Some? ==>
      && init[i].value.id != r.id
      && !RowOf(init[i].value, RESOURCE_NAMESPACE, r.id)
      && forall e :: !RowOf(init[i].value, FieldNamespace(r.id), e)
  {
    forall i | 0 <= i < |init| && init[i].Some?
      ensures init[i].value.id != r.id
      ensures !RowOf(init[i].value, RESOURCE_NAMESPACE, r.id)
      ensures forall e :: !RowOf(init[i].value, FieldNamespace(r.id), e)
    {
      assert rs[i].Some? && rs[|init|].Some? && KeyOfResource(rs[i].value) != KeyOfResource(rs[|init|].value);
      NamespacesDiffer(init[i].value.id, r.id);
      NamespacesDiffer(r.id, r.id);
    }
  }

  lemma OtherResource(t1: Table, t2: Table, r: Resource, a: Resource, b: Resource)
    requires SameResource(a, b) && a.id != r.id && ResourceAgrees(t1, b)
    requires forall ns, e, s :: SoleSymbol(t1, ns, e, s) && !RowOf(r, ns, e) ==> SoleSymbol(t2, ns, e, s)
    ensures ResourceAgrees(t2, b)
  {
    hide SoleSymbol;
    NamespacesDiffer(b.id, r.id);
    NamespacesDiffer(r.id, r.id);
  }

  /** NormalizeIdentifiers keeps spec and ledger in agreement and changes code names only. */
  lemma NormalizeKeepsAgreement(lib: Library, t: Table, rs: seq<Option<Resource>>)
    requires Agrees(t, rs) && Named(rs)
    ensures var (t', rs') := NormalizeResources(lib, t, rs);
      && Agrees(t', rs')
      && Grows(t, t')
      && |rs'| == |rs|
      && (forall i :: 0 <= i < |rs| ==> (rs[i].None? <==> rs'[i].None?))
      && (forall i :: 0 <= i < |rs| && rs[i].Some? ==> SameResource(rs[i].value, rs'[i].value))
  {
    ResourcesStayAgreed(lib, t, rs);
    ResourcesGrow(lib, t, rs);
  }
}
