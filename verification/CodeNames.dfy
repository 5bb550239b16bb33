/** RefactorCodeName (internal/spec/refactor.go) and what holds of the ledger over every run
    of its operations. */
module CodeNames {
  import opened Text
  import opened Names
  import opened Spec
  import opened Ledger
  import opened WellFormed
  import opened Refactor

  datatype Location = Location(ns: Namespace, current: string, isField: bool)

  /** The first field with the ID, in resource-then-field order, with its owner. */
  function LocateField(rs: seq<Option<Resource>>, id: ID): Option<Location> {
    if rs == [] then None
    else if rs[0].Some? && FindField(rs[0].value.fields, id).Some? then
      Some(Location(FieldNamespace(rs[0].value.id), FindField(rs[0].value.fields, id).value.codeName, true))
    else LocateField(rs[1..], id)
  }

  function Locate(rs: seq<Option<Resource>>, entity: ID): Option<Location> {
    if PrefixOf(entity) == KindResource.Prefix() then
      match FindResource(rs, entity)
      case None => None
      case Some(r) => Some(Location(RESOURCE_NAMESPACE, r.codeName, false))
    else if PrefixOf(entity) == KindField.Prefix() then LocateField(rs, entity)
    else None
  }

  function SetResourceCode(rs: seq<Option<Resource>>, id: ID, symbol: string): (rs': seq<Option<Resource>>)
    ensures |rs'| == |rs|
  {
    if rs == [] then []
    else if rs[0].Some? && rs[0].value.id == id then [Some(rs[0].value.(codeName := symbol))] + rs[1..]
    else [rs[0]] + SetResourceCode(rs[1..], id, symbol)
  }

  function SetFieldCode(fields: seq<Option<Field>>, id: ID, symbol: string): (fields': seq<Option<Field>>)
    ensures |fields'| == |fields|
  {
    if fields == [] then []
    else if fields[0].Some? && fields[0].value.id == id then [Some(fields[0].value.(codeName := symbol))] + fields[1..]
    else [fields[0]] + SetFieldCode(fields[1..], id, symbol)
  }

  function SetOwnedFieldCode(rs: seq<Option<Resource>>, id: ID, symbol: string): (rs': seq<Option<Resource>>)
    ensures |rs'| == |rs|
  {
    if rs == [] then []
    else if rs[0].Some? && FindField(rs[0].value.fields, id).Some? then
      [Some(rs[0].value.(fields := SetFieldCode(rs[0].value.fields, id, symbol)))] + rs[1..]
    else [rs[0]] + SetOwnedFieldCode(rs[1..], id, symbol)
  }

  /** setCodeName looks among the resources first, whatever kind the ID claims to be. */
  function SetCodeName(rs: seq<Option<Resource>>, entity: ID, symbol: string): seq<Option<Resource>> {
    if FindResource(rs, entity).Some? then SetResourceCode(rs, entity, symbol)
    else SetOwnedFieldCode(rs, entity, symbol)
  }

  predicate Acceptable(t: Table, at: Location, symbol: string) {
    && symbol != at.current
    && IsExportedGoIdent(symbol)
    && (at.isField ==> !IsReservedCodeName(symbol))
    && Free(t, at.ns, symbol)
  }

  method RefactorCodeName(s: Option<ProjectSpec>, ledger: Ledger?, entity: ID, symbol: string)
    returns (result: RefactorResult)
    ensures result.Refactored? <==>
      && s.Some? && ledger != null
      && Locate(s.value.resources, entity).Some?
      && Acceptable(old(ledger.entries), Locate(s.value.resources, entity).value, symbol)
      && Clonable(s.value)
    ensures result.Refactored? ==>
      && fresh(result.ledger)
      && result.spec == s.value.(resources := SetCodeName(s.value.resources, entity, symbol))
      && var at := Locate(s.value.resources, entity).value;
         result.ledger.entries == Refrozen(old(ledger.entries), at.ns, at.current, symbol, entity)
  {
    if s.None? || ledger == null {
      return Rejected;
    }
    var located := Locate(s.value.resources, entity);
    if located.None? {
      return Rejected;
    }
    var at := located.value;
    if symbol == at.current || !IsExportedGoIdent(symbol) || (at.isField && IsReservedCodeName(symbol)) {
      return Rejected;
    }
    if !Free(ledger.entries, at.ns, symbol) {
      return Rejected;
    }
    if !Clonable(s.value) {
      return Rejected;
    }
    var candidate := s.value.(resources := SetCodeName(s.value.resources, entity, symbol));
    var l := ledger.Clone();
    Refreeze(l, at.ns, at.current, symbol, entity);
    return Refactored(candidate, l);
  }

  // ----- One refactor keeps agreement -----

  lemma {:induction false} SetResourceHits(rs: seq<Option<Resource>>, id: ID, symbol: string) returns (k: nat)
    requires FindResource(rs, id).Some?
    ensures k < |rs| && rs[k].Some? && rs[k].value.id == id && FindResource(rs, id) == rs[k]
    ensures SetResourceCode(rs, id, symbol) == rs[k := Some(rs[k].value.(codeName := symbol))]
  {
    if rs[0].Some? && rs[0].value.id == id {
      k := 0;
    } else {
      var n := SetResourceHits(rs[1..], id, symbol);
      k := n + 1;
      assert rs == [rs[0]] + rs[1..];
    }
  }

  lemma {:induction false} SetFieldHits(fields: seq<Option<Field>>, id: ID, symbol: string) returns (k: nat)
    requires FindField(fields, id).Some?
    ensures k < |fields| && fields[k].Some? && fields[k].value.id == id && FindField(fields, id) == fields[k]
    ensures SetFieldCode(fields, id, symbol) == fields[k := Some(fields[k].value.(codeName := symbol))]
  {
    if fields[0].Some? && fields[0].value.id == id {
      k := 0;
    } else {
      var n := SetFieldHits(fields[1..], id, symbol);
      k := n + 1;
      assert fields == [fields[0]] + fields[1..];
    }
  }

  lemma {:induction false} SetOwnedFieldHits(rs: seq<Option<Resource>>, id: ID, symbol: string) returns (k: nat)
    requires LocateField(rs, id).Some?
    ensures k < |rs| && rs[k].Some? && FindField(rs[k].value.fields, id).Some?
    ensures LocateField(rs, id) ==
      Some(Location(FieldNamespace(rs[k].value.id), FindField(rs[k].value.fields, id).value.codeName, true))
    ensures SetOwnedFieldCode(rs, id, symbol) ==
      rs[k := Some(rs[k].value.(fields := SetFieldCode(rs[k].value.fields, id, symbol)))]
  {
    if rs[0].Some? && FindField(rs[0].value.fields, id).Some? {
      k := 0;
    } else {
      var n := SetOwnedFieldHits(rs[1..], id, symbol);
      k := n + 1;
      assert rs == [rs[0]] + rs[1..];
    }
  }

  lemma RefactorResourceAgrees(t: Table, rs: seq<Option<Resource>>, k: nat, symbol: string)
    requires Agrees(t, rs) && Named(rs) && k < |rs| && rs[k].Some?
    requires Free(t, RESOURCE_NAMESPACE, symbol)
    ensures Agrees(Refrozen(t, RESOURCE_NAMESPACE, rs[k].value.codeName, symbol, rs[k].value.id),
                   rs[k := Some(rs[k].value.(codeName := symbol))])
  {
    hide SoleSymbol, Refrozen, NamedFields;
    var r := rs[k].value;
    assert ResourceAgrees(t, r);
    RefrozenMovesOne(t, RESOURCE_NAMESPACE, r.codeName, symbol, r.id);
    var t' := Refrozen(t, RESOURCE_NAMESPACE, r.codeName, symbol, r.id);
    forall i | 0 <= i < |rs| && rs[i].Some?
      ensures FieldsAgree(t', FieldNamespace(rs[i].value.id), rs[i].value.fields)
      ensures i != k ==> ResourceAgrees(t', rs[i].value)
    {
      assert ResourceAgrees(t, rs[i].value);
      NamespacesDiffer(rs[i].value.id, r.id);
      if i != k { assert KeyOfResource(rs[i].value) != KeyOfResource(r); }
    }
  }

  lemma RefactorFieldAgrees(t: Table, rs: seq<Option<Resource>>, k: nat, n: nat, symbol: string)
    requires Agrees(t, rs) && Named(rs) && k < |rs| && rs[k].Some? && n < |rs[k].value.fields| && rs[k].value.fields[n].Some?
    requires Free(t, FieldNamespace(rs[k].value.id), symbol)
    ensures var r := rs[k].value; var f := r.fields[n].value;
            Agrees(Refrozen(t, FieldNamespace(r.id), f.codeName, symbol, f.id),
                   rs[k := Some(r.(fields := r.fields[n := Some(f.(codeName := symbol))]))])
  {
    hide SoleSymbol, Refrozen;
    var r := rs[k].value;
    var f := r.fields[n].value;
    assert ResourceAgrees(t, r) && NamedFields(r.fields);
    RefrozenMovesOne(t, FieldNamespace(r.id), f.codeName, symbol, f.id);
    var t' := Refrozen(t, FieldNamespace(r.id), f.codeName, symbol, f.id);
    NamespacesDiffer(r.id, r.id);
    forall i | 0 <= i < |rs| && rs[i].Some? && i != k
      ensures ResourceAgrees(t', rs[i].value)
    {
      assert ResourceAgrees(t, rs[i].value);
      NamespacesDiffer(rs[i].value.id, r.id);
      assert KeyOfResource(rs[i].value) != KeyOfResource(r);
    }
    forall j | 0 <= j < |r.fields| && r.fields[j].Some? && j != n
      ensures SoleSymbol(t', FieldNamespace(r.id), r.fields[j].value.id, r.fields[j].value.codeName)
    {
      assert KeyOfField(r.fields[j].value) != KeyOfField(f);
    }
  }

  /** An accepted refactor moves one entity to the new symbol and keeps spec and ledger in
      agreement, when no resource carries an ID with the field prefix. */
  lemma RefactorKeepsAgreement(t: Table, rs: seq<Option<Resource>>, entity: ID, symbol: string)
    requires Agrees(t, rs) && Named(rs)
    requires forall i :: 0 <= i < |rs| && rs[i].Some? ==> ValidID(rs[i].value.id, KindResource)
    requires Locate(rs, entity).Some? && Acceptable(t, Locate(rs, entity).value, symbol)
    ensures var at := Locate(rs, entity).value;
            var rs' := SetCodeName(rs, entity, symbol);
            && Agrees(Refrozen(t, at.ns, at.current, symbol, entity), rs')
            && Locate(rs', entity) == Some(at.(current := symbol))
  {
    hide Agrees, Named, Refrozen, IsExportedGoIdent, IsReservedCodeName;
    var rs' := SetCodeName(rs, entity, symbol);
    if PrefixOf(entity) == KindResource.Prefix() {
      var k := SetResourceHits(rs, entity, symbol);
      RefactorResourceAgrees(t, rs, k, symbol);
      FindAfterSet(rs, entity, symbol);
    } else {
      forall i | 0 <= i < |rs| && rs[i].Some? ensures rs[i].value.id != entity {
        ValidIDShape(rs[i].value.id, KindResource);
      }
      var k := SetOwnedFieldHits(rs, entity, symbol);
      var n := SetFieldHits(rs[k].value.fields, entity, symbol);
      RefactorFieldAgrees(t, rs, k, n, symbol);
      LocateAfterSet(rs, entity, symbol);
    }
  }

  lemma {:induction false} FindAfterSet(rs: seq<Option<Resource>>, id: ID, symbol: string)
    requires FindResource(rs, id).Some?
    ensures FindResource(SetResourceCode(rs, id, symbol), id) == Some(FindResource(rs, id).value.(codeName := symbol))
  {
    if !(rs[0].Some? && rs[0].value.id == id) {
      FindAfterSet(rs[1..], id, symbol);
      assert SetResourceCode(rs, id, symbol)[1..] == SetResourceCode(rs[1..], id, symbol);
    }
  }

  lemma {:induction false} FindFieldAfterSet(fields: seq<Option<Field>>, id: ID, symbol: string)
    requires FindField(fields, id).Some?
    ensures FindField(SetFieldCode(fields, id, symbol), id) == Some(FindField(fields, id).value.(codeName := symbol))
  {
    if !(fields[0].Some? && fields[0].value.id == id) {
      FindFieldAfterSet(fields[1..], id, symbol);
      assert SetFieldCode(fields, id, symbol)[1..] == SetFieldCode(fields[1..], id, symbol);
    }
  }

  lemma {:induction false} LocateAfterSet(rs: seq<Option<Resource>>, id: ID, symbol: string)
    requires LocateField(rs, id).Some?
    ensures LocateField(SetOwnedFieldCode(rs, id, symbol), id) == Some(LocateField(rs, id).value.(current := symbol))
  {
    if rs[0].Some? && FindField(rs[0].value.fields, id).Some? {
      FindFieldAfterSet(rs[0].value.fields, id, symbol);
    } else {
      LocateAfterSet(rs[1..], id, symbol);
      assert SetOwnedFieldCode(rs, id, symbol)[1..] == SetOwnedFieldCode(rs[1..], id, symbol);
    }
  }

  // ----- Every run of the ledger's operations -----

  datatype Op =
    | DoRecord(ns: Namespace, symbol: string, entity: ID)
    | DoTombstone(ns: Namespace, symbol: string)
    | DoTombstoneEntity(entity: ID)
    | DoMint(ns: Namespace, base: string, reserved: string -> bool, entity: ID)
    | DoRefactor(ns: Namespace, old_: string, new_: string, entity: ID)

  /** One operation of the ledger, of Mint, or of a refactor, from one table to the next. */
  ghost predicate Performs(op: Op, t: Table, t': Table) {
    match op
    case DoRecord(ns, symbol, entity) => t' == Recorded(t, ns, symbol, entity)
    case DoTombstone(ns, symbol) => t' == Retired(t, ns, symbol)
    case DoTombstoneEntity(entity) => t' == EntityRetired(t, entity)
    case DoMint(ns, base, reserved, entity) =>
      t' == t || exists symbol :: Minted(t, ns, base, reserved, entity, symbol, t')
    case DoRefactor(ns, old_, new_, entity) => t' == Refrozen(t, ns, old_, new_, entity)
  }

  ghost predicate Run(ops: seq<Op>, tables: seq<Table>) {
    && |tables| == |ops| + 1
    && forall i :: 0 <= i < |ops| ==> Performs(ops[i], tables[i], tables[i + 1])
  }

  lemma StepGrows(op: Op, t: Table, t': Table)
    requires Performs(op, t, t')
    ensures Grows(t, t')
  {
    if op.DoMint? && t' != t {
      var symbol :| Minted(t, op.ns, op.base, op.reserved, op.entity, symbol, t');
    }
  }

  lemma {:induction false} RunGrows(ops: seq<Op>, tables: seq<Table>, i: nat, j: nat)
    requires Run(ops, tables) && i <= j < |tables|
    ensures Grows(tables[i], tables[j])
    decreases j
  {
    if i < j {
      RunGrows(ops, tables, i, j - 1);
      StepGrows(ops[j - 1], tables[j - 1], tables[j]);
      GrowsTransitive(tables[i], tables[j - 1], tables[j]);
    }
  }

  /** Over any run, a symbol once retired is never live again, is never free again, and names
      the same entity for ever; so no other entity can mint it. */
  lemma NeverRecycled(ops: seq<Op>, tables: seq<Table>, i: nat, j: nat, ns: Namespace, symbol: string)
    requires Run(ops, tables) && i <= j < |tables|
    requires (ns, symbol) in tables[i] && !tables[i][(ns, symbol)].live
    ensures (ns, symbol) in tables[j] && tables[j][(ns, symbol)] == tables[i][(ns, symbol)]
    ensures forall reserved :: !Available(tables[j], ns, reserved, symbol)
  {
    RunGrows(ops, tables, i, j);
  }
}
