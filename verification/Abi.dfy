/** The extension ABI and its classification (internal/compiler/gen/abi.go). The digest of an
    ABI is the ABI itself: its canonical encoding is injective and SHA-256 is taken to be. */
module Abi {
  import opened Text
  import opened Names
  import opened Spec

  datatype FieldABI = FieldABI(symbol: string, goType: string)

  datatype ResourceABI = ResourceABI(
    id: ID, typeName: string, fields: map<ID, FieldABI>, hooks: map<HookEvent, string>)

  type ABI = seq<ResourceABI>

  /** resolveType: the Go type an accessor returns. */
  function GoType(k: FieldType): Option<string> {
    match k
    case TString => Some("string")
    case TText => Some("string")
    case TInteger => Some("int64")
    case TDecimal => Some("decimal.Decimal")
    case TBoolean => Some("bool")
    case TDatetime => Some("time.Time")
    case TDate => Some("time.Time")
    case TEnum => Some("string")
    case TBelongsTo => Some("uint")
    case UnknownType(_) => None
  }

  /** hookMethodFor: the parameter list of an event's contract method. */
  function HookParams(event: HookEvent, typeName: string): Option<string> {
    var view := typeName + "View";
    match event
    case BeforeCreate => Some("ctx context.Context, draft *" + typeName + "CreateDraft")
    case AfterCreate => Some("ctx context.Context, created " + view)
    case BeforeUpdate => Some("ctx context.Context, current " + view + ", changes *" + typeName + "UpdateChanges")
    case AfterUpdate => Some("ctx context.Context, updated " + view)
    case BeforeDelete => Some("ctx context.Context, current " + view)
    case AfterDelete => Some("ctx context.Context, deleted " + view)
    case UnknownEvent(_) => None
  }

  function FieldSurface(f: Field): FieldABI {
    FieldABI(GeneratedFieldName(f.codeName, f.kind), if GoType(f.kind).Some? then GoType(f.kind).value else "")
  }

  /** Kinds whose values user code handles as one Go type: the text-like ones, and the two kinds
      of points in time. */
  predicate Interchangeable(k: FieldType, l: FieldType) {
    || k == l
    || ((k.TString? || k.TText? || k.TEnum?) && (l.TString? || l.TText? || l.TEnum?))
    || ((k.TDate? || k.TDatetime?) && (l.TDate? || l.TDatetime?))
  }

  lemma GoTypeGroups(k: FieldType, l: FieldType)
    requires k.Supported() && l.Supported()
    ensures GoType(k).Some? && (GoType(k) == GoType(l) <==> Interchangeable(k, l))
  {
    assert |"string"| == 6 && |"int64"| == 5 && |"decimal.Decimal"| == 15 && |"time.Time"| == 9;
    assert |"bool"| == 4 && |"uint"| == 4 && "bool"[0] == 'b' && "uint"[0] == 'u';
  }

  /** Two fields of one code name have the same accessor exactly when their kinds are
      interchangeable. */
  lemma AccessorsDiffer(f: Field, g: Field)
    requires f.kind.Supported() && g.kind.Supported() && f.codeName == g.codeName
    ensures FieldSurface(f) == FieldSurface(g) <==> Interchangeable(f.kind, g.kind)
  {
    hide GoType;
    GoTypeGroups(f.kind, g.kind);
    GoTypeGroups(g.kind, g.kind);
  }

  lemma EndsAgree(head: string, a: string, b: string, tail: string)
    requires head + a + tail == head + b + tail
    ensures a == b
  {
    assert (head + a + tail)[|head|..|head| + |a|] == a && (head + b + tail)[|head|..|head| + |b|] == b;
  }

  lemma ViewsAgree(head: string, a: string, b: string)
    requires head + (a + "View") == head + (b + "View")
    ensures a == b
  {
    assert head + (a + "View") == head + a + "View" && head + (b + "View") == head + b + "View";
    EndsAgree(head, a, b, "View");
  }

  lemma UpdateContractsDiffer(a: string, b: string)
    requires HookParams(BeforeUpdate, a) == HookParams(BeforeUpdate, b)
    ensures a == b
  {
    var p, q := HookParams(BeforeUpdate, a).value, HookParams(BeforeUpdate, b).value;
    var n := |"ctx context.Context, current "|;
    assert |p| == |q| && p[n..n + |a|] == a && q[n..n + |b|] == b;
  }

  /** A contract tells the resource it was generated for. */
  lemma ContractsDiffer(event: HookEvent, a: string, b: string)
    requires event.Supported()
    ensures HookParams(event, a).Some? && (HookParams(event, a) == HookParams(event, b) <==> a == b)
  {
    if HookParams(event, a) == HookParams(event, b) {
      match event
      case BeforeCreate => EndsAgree("ctx context.Context, draft *", a, b, "CreateDraft");
      case AfterCreate => ViewsAgree("ctx context.Context, created ", a, b);
      case BeforeUpdate => UpdateContractsDiffer(a, b);
      case AfterUpdate => ViewsAgree("ctx context.Context, updated ", a, b);
      case BeforeDelete => ViewsAgree("ctx context.Context, current ", a, b);
      case AfterDelete => ViewsAgree("ctx context.Context, deleted ", a, b);
    }
  }

  function FieldMap(fields: seq<Option<Field>>): map<ID, FieldABI> {
    if fields == [] then map[]
    else
      var last := fields[|fields| - 1];
      var m := FieldMap(fields[..|fields| - 1]);
      if last.Some? then m[last.value.id := FieldSurface(last.value)] else m
  }

  function HookMap(hooks: seq<Option<Hook>>, typeName: string): map<HookEvent, string> {
    if hooks == [] then map[]
    else
      var last := hooks[|hooks| - 1];
      var m := HookMap(hooks[..|hooks| - 1], typeName);
      if last.Some? && HookParams(last.value.event, typeName).Some?
      then m[last.value.event := HookParams(last.value.event, typeName).value] else m
  }

  function RowOf(r: Resource): ResourceABI {
    ResourceABI(r.id, r.codeName, FieldMap(r.fields), HookMap(r.hooks, r.codeName))
  }

  function Rows(rs: seq<Option<Resource>>): seq<ResourceABI> {
    if rs == [] then []
    else
      var last := rs[|rs| - 1];
      Rows(rs[..|rs| - 1]) + if last.Some? then [RowOf(last.value)] else []
  }

  function RowID(row: ResourceABI): ID { row.id }

  /** The extension surface of a spec: one row a resource, sorted by stable ID. */
  function AbiOf(s: ProjectSpec): ABI { SortBy(RowID, Rows(s.resources)) }

  predicate Mappable(r: Resource) {
    && (forall k :: 0 <= k < |r.fields| && r.fields[k].Some? ==> GoType(r.fields[k].value.kind).Some?)
    && (forall k :: 0 <= k < |r.hooks| && r.hooks[k].Some? ==> r.hooks[k].value.event.Supported())
  }

  method FieldSurfaces(r: Resource) returns (mapped: Option<map<ID, FieldABI>>)
    ensures mapped.Some? <==> forall k :: 0 <= k < |r.fields| && r.fields[k].Some? ==> GoType(r.fields[k].value.kind).Some?
    ensures mapped.Some? ==> mapped.value == FieldMap(r.fields)
  {
    hide GoType, GeneratedFieldName;
    var fields: map<ID, FieldABI> := map[];
    for k := 0 to |r.fields|
      invariant fields == FieldMap(r.fields[..k])
      invariant forall n :: 0 <= n < k && r.fields[n].Some? ==> GoType(r.fields[n].value.kind).Some?
    {
      assert r.fields[..k + 1][..k] == r.fields[..k];
      if r.fields[k].None? {
        continue;
      }
      var f := r.fields[k].value;
      var goType := GoType(f.kind);
      if goType.None? {
        return None;
      }
      fields := fields[f.id := FieldABI(GeneratedFieldName(f.codeName, f.kind), goType.value)];
    }
    assert r.fields[..|r.fields|] == r.fields;
    return Some(fields);
  }

  method HookSurfaces(r: Resource) returns (mapped: Option<map<HookEvent, string>>)
    ensures mapped.Some? <==> forall k :: 0 <= k < |r.hooks| && r.hooks[k].Some? ==> r.hooks[k].value.event.Supported()
    ensures mapped.Some? ==> mapped.value == HookMap(r.hooks, r.codeName)
  {
    var hooks: map<HookEvent, string> := map[];
    for k := 0 to |r.hooks|
      invariant hooks == HookMap(r.hooks[..k], r.codeName)
      invariant forall n :: 0 <= n < k && r.hooks[n].Some? ==> r.hooks[n].value.event.Supported()
    {
      assert r.hooks[..k + 1][..k] == r.hooks[..k];
      if r.hooks[k].None? {
        continue;
      }
      var params := HookParams(r.hooks[k].value.event, r.codeName);
      if params.None? {
        return None;
      }
      hooks := hooks[r.hooks[k].value.event := params.value];
    }
    assert r.hooks[..|r.hooks|] == r.hooks;
    return Some(hooks);
  }

  /** resourceSurface fails only on a field type or hook event that has no Go counterpart. */
  method ResourceSurface(r: Resource) returns (row: Option<ResourceABI>)
    ensures row == if Mappable(r) then Some(RowOf(r)) else None
  {
    var fields := FieldSurfaces(r);
    if fields.None? { return None; }
    var hooks := HookSurfaces(r);
    if hooks.None? { return None; }
    return Some(ResourceABI(r.id, r.codeName, fields.value, hooks.value));
  }

  /** ExtensionABI fails only on a field type or hook event that has no Go counterpart. */
  method ExtensionABI(rs: seq<Option<Resource>>) returns (abi: Option<ABI>)
    ensures abi == if forall i :: 0 <= i < |rs| && rs[i].Some? ==> Mappable(rs[i].value)
                   then Some(SortBy(RowID, Rows(rs))) else None
  {
    hide Mappable, RowOf;
    var rows: seq<ResourceABI> := [];
    for i := 0 to |rs|
      invariant rows == Rows(rs[..i])
      invariant forall k :: 0 <= k < i && rs[k].Some? ==> Mappable(rs[k].value)
    {
      assert rs[..i + 1][..i] == rs[..i];
      if rs[i].None? {
        continue;
      }
      var row := ResourceSurface(rs[i].value);
      if row.None? {
        return None;
      }
      rows := rows + [row.value];
    }
    assert rs[..|rs|] == rs;
    return Some(SortBy(RowID, rows));
  }

  // ----- Classification -----

  datatype Class = Neutral | Additive | Breaking

  datatype Reason =
    | ResourceRemoved(id: ID)
    | ResourceRenamed(id: ID)
    | AccessorRemoved(id: ID, field: ID)
    | AccessorRenamed(id: ID, field: ID)
    | AccessorRetyped(id: ID, field: ID)
    | HookRemoved(id: ID, event: HookEvent)
    | SignatureChanged(id: ID, event: HookEvent)
    | HookAddedToHooked(id: ID, event: HookEvent)
    | ResourceAdded(id: ID)
    | AccessorAdded(id: ID, field: ID)
    | HookIntroduced(id: ID, event: HookEvent)

  datatype Transition = Transition(class_: Class, fingerprint: ABI, reasons: set<Reason>)

  type Index = map<ID, ResourceABI>

  function IndexResources(a: ABI): Index {
    if a == [] then map[] else IndexResources(a[..|a| - 1])[a[|a| - 1].id := a[|a| - 1]]
  }

  ghost predicate FieldBreaks(cur: ResourceABI, cand: ResourceABI, r: Reason) {
    match r
    case AccessorRemoved(_, f) => f in cur.fields && f !in cand.fields
    case AccessorRenamed(_, f) => f in cur.fields && f in cand.fields && cur.fields[f].symbol != cand.fields[f].symbol
    case AccessorRetyped(_, f) => f in cur.fields && f in cand.fields && cur.fields[f].goType != cand.fields[f].goType
    case _ => false
  }

  ghost predicate HookBreaks(cur: ResourceABI, cand: ResourceABI, r: Reason) {
    match r
    case HookRemoved(_, e) => e in cur.hooks && e !in cand.hooks
    case SignatureChanged(_, e) => e in cur.hooks && e in cand.hooks && cur.hooks[e] != cand.hooks[e]
    case HookAddedToHooked(_, e) => e !in cur.hooks && e in cand.hooks && cur.hooks != map[]
    case _ => false
  }

  ghost predicate Breaks(cur: Index, cand: Index, r: Reason) {
    && r.id in cur
    && if r.id !in cand then r == ResourceRemoved(r.id)
       else
         || (r == ResourceRenamed(r.id) && cur[r.id].typeName != cand[r.id].typeName)
         || FieldBreaks(cur[r.id], cand[r.id], r)
         || HookBreaks(cur[r.id], cand[r.id], r)
  }

  ghost predicate RowAdds(cur: ResourceABI, cand: ResourceABI, r: Reason) {
    match r
    case AccessorAdded(_, f) => f !in cur.fields && f in cand.fields
    case HookIntroduced(_, e) => cur.hooks == map[] && e in cand.hooks
    case _ => false
  }

  ghost predicate Adds(cur: Index, cand: Index, r: Reason) {
    r.id in cand && if r.id in cur then RowAdds(cur[r.id], cand[r.id], r) else r == ResourceAdded(r.id)
  }

  method DiffFields(id: ID, cur: ResourceABI, cand: ResourceABI, breaking: set<Reason>, additive: set<Reason>)
    returns (breaking': set<Reason>, additive': set<Reason>)
    ensures forall r :: r in breaking' <==> r in breaking || (r.id == id && FieldBreaks(cur, cand, r))
    ensures forall r :: r in additive' <==> r in additive || (r.id == id && r.AccessorAdded? && RowAdds(cur, cand, r))
  {
    breaking', additive' := breaking, additive;
    var pending := cur.fields.Keys;
    while pending != {}
      invariant pending <= cur.fields.Keys
      invariant forall r :: r in breaking' <==>
        r in breaking || (r.id == id && FieldBreaks(cur, cand, r) && r.field !in pending)
      decreases pending
    {
      var f :| f in pending;
      pending := pending - {f};
      if f !in cand.fields {
        breaking' := breaking' + {AccessorRemoved(id, f)};
        continue;
      }
      if cur.fields[f].symbol != cand.fields[f].symbol {
        breaking' := breaking' + {AccessorRenamed(id, f)};
      }
      if cur.fields[f].goType != cand.fields[f].goType {
        breaking' := breaking' + {AccessorRetyped(id, f)};
      }
    }
    pending := cand.fields.Keys;
    while pending != {}
      invariant pending <= cand.fields.Keys
      invariant forall r :: r in additive' <==>
        r in additive || (r.id == id && r.AccessorAdded? && RowAdds(cur, cand, r) && r.field !in pending)
      decreases pending
    {
      var f :| f in pending;
      pending := pending - {f};
      if f !in cur.fields {
        additive' := additive' + {AccessorAdded(id, f)};
      }
    }
  }

  method DiffHooks(id: ID, cur: ResourceABI, cand: ResourceABI, breaking: set<Reason>, additive: set<Reason>)
    returns (breaking': set<Reason>, additive': set<Reason>)
    ensures forall r :: r in breaking' <==> r in breaking || (r.id == id && HookBreaks(cur, cand, r))
    ensures forall r :: r in additive' <==> r in additive || (r.id == id && r.HookIntroduced? && RowAdds(cur, cand, r))
  {
    breaking', additive' := breaking, additive;
    var pending := cur.hooks.Keys;
    while pending != {}
      invariant pending <= cur.hooks.Keys
      invariant forall r :: r in breaking' <==>
        r in breaking || (r.id == id && HookBreaks(cur, cand, r) && !r.HookAddedToHooked? && r.event !in pending)
      decreases pending
    {
      var e :| e in pending;
      pending := pending - {e};
      if e !in cand.hooks {
        breaking' := breaking' + {HookRemoved(id, e)};
        continue;
      }
      if cur.hooks[e] != cand.hooks[e] {
        breaking' := breaking' + {SignatureChanged(id, e)};
      }
    }
    pending := cand.hooks.Keys;
    while pending != {}
      invariant pending <= cand.hooks.Keys
      invariant forall r :: r in breaking' <==>
        r in breaking || (r.id == id && HookBreaks(cur, cand, r) && (r.HookAddedToHooked? ==> r.event !in pending))
      invariant forall r :: r in additive' <==>
        r in additive || (r.id == id && r.HookIntroduced? && RowAdds(cur, cand, r) && r.event !in pending)
      decreases pending
    {
      var e :| e in pending;
      pending := pending - {e};
      if e in cur.hooks {
        continue;
      }
      if |cur.hooks| > 0 {
        breaking' := breaking' + {HookAddedToHooked(id, e)};
      } else {
        additive' := additive' + {HookIntroduced(id, e)};
      }
    }
  }

  /** Every current contract survives as it was: each resource keeps its type and accessors,
      and a contract that already had hooks keeps exactly those. */
  ghost predicate KeepsRow(a: ResourceABI, b: ResourceABI) {
    && a.typeName == b.typeName
    && (forall f :: f in a.fields ==> f in b.fields && b.fields[f] == a.fields[f])
    && (a.hooks != map[] ==> b.hooks == a.hooks)
  }

  ghost predicate Keeps(cur: Index, cand: Index) {
    forall id :: id in cur ==> id in cand && KeepsRow(cur[id], cand[id])
  }

  method DiffRow(id: ID, cur: Index, cand: Index, breaking: set<Reason>, additive: set<Reason>)
    returns (breaking': set<Reason>, additive': set<Reason>)
    requires id in cur
    ensures forall r :: r in breaking' <==> r in breaking || (r.id == id && Breaks(cur, cand, r))
    ensures forall r :: r in additive' <==> r in additive || (r.id == id && id in cand && Adds(cur, cand, r))
  {
    breaking', additive' := breaking, additive;
    if id !in cand {
      breaking' := breaking' + {ResourceRemoved(id)};
      return;
    }
    if cur[id].typeName != cand[id].typeName {
      breaking' := breaking' + {ResourceRenamed(id)};
    }
    breaking', additive' := DiffFields(id, cur[id], cand[id], breaking', additive');
    breaking', additive' := DiffHooks(id, cur[id], cand[id], breaking', additive');
  }

  /** ClassifyTransition: neutral exactly when the surfaces are equal, otherwise breaking
      exactly when some current contract is not kept; the reasons are the differences. */
  method ClassifyTransition(current: ABI, candidate: ABI) returns (t: Transition)
    ensures t.fingerprint == candidate
    ensures t.class_.Neutral? <==> current == candidate
    ensures t.class_.Breaking? <==> !Keeps(IndexResources(current), IndexResources(candidate))
    ensures forall r :: r in t.reasons <==>
      match t.class_
      case Neutral => false
      case Breaking => Breaks(IndexResources(current), IndexResources(candidate), r)
      case Additive => Adds(IndexResources(current), IndexResources(candidate), r)
  {
    hide Breaks, Adds, IndexResources, Keeps;
    var cur, cand := IndexResources(current), IndexResources(candidate);
    KeepsReflexive(cur);
    if current == candidate {
      return Transition(Neutral, candidate, {});
    }
    var breaking: set<Reason>, additive: set<Reason> := {}, {};
    var pending := cur.Keys;
    while pending != {}
      invariant pending <= cur.Keys
      invariant forall r :: r in breaking <==> r.id in cur && r.id !in pending && Breaks(cur, cand, r)
      invariant forall r :: r in additive <==> r.id in cur && r.id in cand && r.id !in pending && Adds(cur, cand, r)
      decreases pending
    {
      var id :| id in pending;
      pending := pending - {id};
      breaking, additive := DiffRow(id, cur, cand, breaking, additive);
    }
    AddsOnlyInCandidate(cur, cand);
    pending := cand.Keys;
    while pending != {}
      invariant pending <= cand.Keys
      invariant forall r :: r in additive <==>
        Adds(cur, cand, r) && r.id in cand && (r.id in cur || r.id !in pending)
      decreases pending
    {
      var id :| id in pending;
      pending := pending - {id};
      if id !in cur {
        AddedRow(cur, cand, id);
        additive := additive + {ResourceAdded(id)};
      }
    }
    BreaksOnlyCurrent(cur, cand);
    BreakingMeansLost(cur, cand);
    if |breaking| > 0 {
      ghost var r :| r in breaking;
      return Transition(Breaking, candidate, breaking);
    }
    return Transition(Additive, candidate, additive);
  }

  lemma AddsOnlyInCandidate(cur: Index, cand: Index)
    ensures forall r :: Adds(cur, cand, r) ==> r.id in cand
  {
  }

  lemma BreaksOnlyCurrent(cur: Index, cand: Index)
    ensures forall r :: Breaks(cur, cand, r) ==> r.id in cur
  {
  }

  lemma AddedRow(cur: Index, cand: Index, id: ID)
    requires id in cand && id !in cur
    ensures forall r: Reason :: r.id == id ==> (Adds(cur, cand, r) <==> r == ResourceAdded(id))
  {
  }

  /** There is a breaking reason exactly when some current contract is not kept. */
  lemma BreakingMeansLost(cur: Index, cand: Index)
    ensures (exists r :: Breaks(cur, cand, r)) <==> !Keeps(cur, cand)
  {
    if !Keeps(cur, cand) {
      var id :| id in cur && !(id in cand && KeepsRow(cur[id], cand[id]));
      if id !in cand {
        assert Breaks(cur, cand, ResourceRemoved(id));
      } else {
        LostRow(cur, cand, id);
      }
    }
    if r :| Breaks(cur, cand, r) {
      assert r.id in cur;
    }
  }

  lemma LostRow(cur: Index, cand: Index, id: ID)
    requires id in cur && id in cand && !KeepsRow(cur[id], cand[id])
    ensures exists r :: Breaks(cur, cand, r)
  {
    var a, b := cur[id], cand[id];
    if a.typeName != b.typeName {
      assert Breaks(cur, cand, ResourceRenamed(id));
    } else if f :| f in a.fields && !(f in b.fields && b.fields[f] == a.fields[f]) {
      if f !in b.fields { assert Breaks(cur, cand, AccessorRemoved(id, f)); }
      else if b.fields[f].symbol != a.fields[f].symbol { assert Breaks(cur, cand, AccessorRenamed(id, f)); }
      else { assert Breaks(cur, cand, AccessorRetyped(id, f)); }
    } else if e :| e in a.hooks && !(e in b.hooks && b.hooks[e] == a.hooks[e]) {
      if e !in b.hooks { assert Breaks(cur, cand, HookRemoved(id, e)); }
      else { assert Breaks(cur, cand, SignatureChanged(id, e)); }
    } else {
      var e :| e in b.hooks && e !in a.hooks;
      assert Breaks(cur, cand, HookAddedToHooked(id, e));
    }
  }

  // ----- Non-breaking is a partial order on canonical ABIs -----

  ghost predicate Canonical(a: ABI) { StrictlySortedBy(RowID, a) }

  lemma KeepsReflexive(a: Index)
    ensures Keeps(a, a)
  {
  }

  lemma KeepsTransitive(a: Index, b: Index, c: Index)
    requires Keeps(a, b) && Keeps(b, c)
    ensures Keeps(a, c)
  {
  }

  lemma KeepsAntisymmetric(a: Index, b: Index)
    requires Keeps(a, b) && Keeps(b, a)
    requires forall id :: id in a ==> a[id].id == id
    requires forall id :: id in b ==> b[id].id == id
    ensures a == b
  {
    assert a.Keys == b.Keys;
    forall id | id in a ensures a[id] == b[id] {
      assert a[id].fields == b[id].fields && a[id].hooks == b[id].hooks;
    }
  }

  lemma {:induction false} IndexMeaning(a: ABI)
    ensures forall id :: id in IndexResources(a) <==> exists i :: 0 <= i < |a| && a[i].id == id
    ensures forall id :: id in IndexResources(a) ==> IndexResources(a)[id] in a && IndexResources(a)[id].id == id
  {
    if a != [] {
      var n := |a| - 1;
      IndexMeaning(a[..n]);
      assert forall i :: 0 <= i < n ==> a[..n][i] == a[i];
      forall id ensures id in IndexResources(a) <==> exists i :: 0 <= i < |a| && a[i].id == id {
        if id in IndexResources(a[..n]) {
          var i :| 0 <= i < n && a[..n][i].id == id;
          assert a[i].id == id;
        }
      }
    }
  }

  lemma IndexOfCanonical(a: ABI, i: nat)
    requires Canonical(a) && i < |a|
    ensures a[i].id in IndexResources(a) && IndexResources(a)[a[i].id] == a[i]
  {
    IndexMeaning(a);
    var row := IndexResources(a)[a[i].id];
    var j :| 0 <= j < |a| && a[j] == row;
    LessIrreflexive(a[i].id);
    assert j < i ==> Less(RowID(a[j]), RowID(a[i]));
    assert i < j ==> Less(RowID(a[i]), RowID(a[j]));
  }

  /** A canonical ABI is determined by its index. */
  lemma CanonicalByIndex(a: ABI, b: ABI)
    requires Canonical(a) && Canonical(b)
    ensures IndexResources(a) == IndexResources(b) <==> a == b
  {
    if IndexResources(a) == IndexResources(b) {
      IndexMeaning(a);
      IndexMeaning(b);
      forall x ensures x in a <==> x in b {
        if x in a { var i :| 0 <= i < |a| && a[i] == x; IndexOfCanonical(a, i); }
        if x in b { var i :| 0 <= i < |b| && b[i] == x; IndexOfCanonical(b, i); }
      }
      StrictlySortedUnique(RowID, a, b);
    }
  }

  ghost predicate NonBreaking(a: ABI, b: ABI) { Keeps(IndexResources(a), IndexResources(b)) }

  lemma NonBreakingIsPartialOrder(a: ABI, b: ABI, c: ABI)
    requires Canonical(a) && Canonical(b) && Canonical(c)
    ensures NonBreaking(a, a)
    ensures NonBreaking(a, b) && NonBreaking(b, c) ==> NonBreaking(a, c)
    ensures NonBreaking(a, b) && NonBreaking(b, a) ==> a == b
  {
    IndexMeaning(a);
    IndexMeaning(b);
    hide Keeps, IndexResources;
    KeepsReflexive(IndexResources(a));
    if NonBreaking(a, b) && NonBreaking(b, c) {
      KeepsTransitive(IndexResources(a), IndexResources(b), IndexResources(c));
    }
    if NonBreaking(a, b) && NonBreaking(b, a) {
      KeepsAntisymmetric(IndexResources(a), IndexResources(b));
      CanonicalByIndex(a, b);
    }
  }

  /** Two different indexes with nothing lost differ in something added. */
  lemma SomethingAdded(cur: Index, cand: Index)
    requires Keeps(cur, cand) && cur != cand
    requires forall id :: id in cur ==> cur[id].id == id
    requires forall id :: id in cand ==> cand[id].id == id
    ensures exists r :: Adds(cur, cand, r)
  {
    if id :| id in cand && id !in cur {
      assert Adds(cur, cand, ResourceAdded(id));
    } else {
      assert cur.Keys == cand.Keys;
      var id :| id in cur && cur[id] != cand[id];
      var a, b := cur[id], cand[id];
      if f :| f in b.fields && f !in a.fields {
        assert Adds(cur, cand, AccessorAdded(id, f));
      } else {
        assert a.fields == b.fields;
        assert a.hooks != b.hooks;
        var e :| e in b.hooks;
        assert Adds(cur, cand, HookIntroduced(id, e));
      }
    }
  }

  /** An additive verdict carries a reason exactly when the two indexes differ; for canonical
      ABIs, the only ones ExtensionABI produces, it always does. */
  lemma AdditiveHasReason(current: ABI, candidate: ABI)
    requires current != candidate && NonBreaking(current, candidate)
    ensures (exists r :: Adds(IndexResources(current), IndexResources(candidate), r)) <==>
      IndexResources(current) != IndexResources(candidate)
    ensures Canonical(current) && Canonical(candidate) ==>
      exists r :: Adds(IndexResources(current), IndexResources(candidate), r)
  {
    var cur, cand := IndexResources(current), IndexResources(candidate);
    IndexMeaning(current);
    IndexMeaning(candidate);
    if cur != cand {
      SomethingAdded(cur, cand);
    }
    if Canonical(current) && Canonical(candidate) { CanonicalByIndex(current, candidate); }
  }

  /** Out of canonical order an additive verdict can be empty: the same two rows, swapped. */
  lemma UnsortedAdditiveWithoutReason()
    ensures var a, b := ResourceABI("a", "A", map[], map[]), ResourceABI("b", "B", map[], map[]);
            [a, b] != [b, a] && NonBreaking([a, b], [b, a]) &&
            forall r :: !Adds(IndexResources([a, b]), IndexResources([b, a]), r)
  {
    var a, b := ResourceABI("a", "A", map[], map[]), ResourceABI("b", "B", map[], map[]);
    assert [a, b][..1] == [a] && [b, a][..1] == [b] && [a][..0] == [] && [b][..0] == [];
    assert IndexResources([]) == map[];
    assert IndexResources([a]) == map["a" := a] && IndexResources([b]) == map["b" := b];
    assert IndexResources([a, b]) == map["a" := a, "b" := b];
    assert IndexResources([b, a]) == map["a" := a, "b" := b];
    assert [a, b][0] != [b, a][0];
  }
}
