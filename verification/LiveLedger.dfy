/** The ledgers the control plane rebuilds from a spec's live code names before it mints a new
    one (controlplane/internal/project/resource.go and field.go). */
module LiveLedger {
  import opened Text
  import opened Names
  import opened Spec
  import opened WellFormed
  import opened Ledger

  /** The first entry with a code name has this ID. */
  ghost predicate FirstAt<T>(code: T -> Option<string>, id: T -> ID, xs: seq<Option<T>>, c: string, owner: ID, i: nat) {
    && i < |xs| && xs[i].Some? && code(xs[i].value) == Some(c) && id(xs[i].value) == owner
    && forall j :: 0 <= j < i && xs[j].Some? ==> code(xs[j].value) != Some(c)
  }

  ghost predicate FirstOwner<T>(code: T -> Option<string>, id: T -> ID, xs: seq<Option<T>>, c: string, owner: ID) {
    exists i: nat :: FirstAt(code, id, xs, c, owner, i)
  }

  /** The table holds exactly the code names of the entries, each live and owned by the first
      entry that has it. */
  ghost predicate Rebuilt<T>(t: Table, ns: Namespace, code: T -> Option<string>, id: T -> ID, xs: seq<Option<T>>) {
    && (forall c :: (ns, c) in t <==> HasKey(code, xs, c))
    && (forall k :: k in t ==> k.0 == ns && t[k].live && FirstOwner(code, id, xs, k.1, t[k].owner))
  }

  lemma HasKeySnoc<T, K>(key: T -> Option<K>, xs: seq<Option<T>>, x: Option<T>, k: K)
    ensures HasKey(key, xs + [x], k) <==> HasKey(key, xs, k) || (x.Some? && key(x.value) == Some(k))
  {
    var ys := xs + [x];
    assert ys[|xs|] == x;
    if HasKey(key, xs, k) {
      var i :| 0 <= i < |xs| && xs[i].Some? && key(xs[i].value) == Some(k);
      assert ys[i] == xs[i];
    }
  }

  lemma FirstOwnerSnoc<T>(code: T -> Option<string>, id: T -> ID, xs: seq<Option<T>>, x: Option<T>, c: string, owner: ID)
    ensures FirstOwner(code, id, xs, c, owner) ==> FirstOwner(code, id, xs + [x], c, owner)
    ensures x.Some? && code(x.value) == Some(c) && !HasKey(code, xs, c) ==> FirstOwner(code, id, xs + [x], c, id(x.value))
  {
    var ys := xs + [x];
    assert forall j :: 0 <= j < |xs| ==> ys[j] == xs[j];
    if FirstOwner(code, id, xs, c, owner) {
      var i: nat :| FirstAt(code, id, xs, c, owner, i);
      assert FirstAt(code, id, ys, c, owner, i);
    }
    if x.Some? && code(x.value) == Some(c) && !HasKey(code, xs, c) {
      assert FirstAt(code, id, ys, c, id(x.value), |xs|);
    }
  }

  lemma RebuiltStep<T>(before: Table, after: Table, ns: Namespace, code: T -> Option<string>, id: T -> ID,
                       xs: seq<Option<T>>, x: Option<T>)
    requires Rebuilt(before, ns, code, id, xs)
    requires x.Some? ==> code(x.value).Some?
    requires after == if x.Some? then Recorded(before, ns, code(x.value).value, id(x.value)) else before
    ensures Rebuilt(after, ns, code, id, xs + [x])
  {
    hide HasKey, FirstOwner;
    forall c ensures (ns, c) in after <==> HasKey(code, xs + [x], c) { HasKeySnoc(code, xs, x, c); }
    forall k | k in after ensures k.0 == ns && after[k].live && FirstOwner(code, id, xs + [x], k.1, after[k].owner) {
      if k in before { FirstOwnerSnoc(code, id, xs, x, k.1, before[k].owner); }
      else { FirstOwnerSnoc(code, id, xs, x, k.1, id(x.value)); }
    }
  }

  lemma NothingRebuilt<T>(ns: Namespace, code: T -> Option<string>, id: T -> ID)
    ensures Rebuilt(map[], ns, code, id, [])
  {
  }

  /** resourceLedger */
  method ResourceLedger(rs: seq<Option<Resource>>) returns (l: Ledger)
    ensures fresh(l) && Rebuilt(l.entries, RESOURCE_NAMESPACE, ResourceCode, ResourceID, rs)
  {
    hide Rebuilt;
    l := new Ledger();
    NothingRebuilt(RESOURCE_NAMESPACE, ResourceCode, ResourceID);
    assert rs[..0] == [];
    for i := 0 to |rs|
      invariant fresh(l) && Rebuilt(l.entries, RESOURCE_NAMESPACE, ResourceCode, ResourceID, rs[..i])
    {
      assert rs[..i + 1] == rs[..i] + [rs[i]];
      ghost var before := l.entries;
      if rs[i].Some? { var ok := l.Record(RESOURCE_NAMESPACE, rs[i].value.codeName, rs[i].value.id); }
      RebuiltStep(before, l.entries, RESOURCE_NAMESPACE, ResourceCode, ResourceID, rs[..i], rs[i]);
    }
    assert rs[..|rs|] == rs;
  }

  /** fieldLedger */
  method FieldLedger(resource: ID, fields: seq<Option<Field>>) returns (l: Ledger)
    ensures fresh(l) && Rebuilt(l.entries, FieldNamespace(resource), FieldCode, FieldID, fields)
  {
    hide Rebuilt;
    var ns := FieldNamespace(resource);
    l := new Ledger();
    NothingRebuilt(ns, FieldCode, FieldID);
    assert fields[..0] == [];
    for i := 0 to |fields|
      invariant fresh(l) && Rebuilt(l.entries, ns, FieldCode, FieldID, fields[..i])
    {
      assert fields[..i + 1] == fields[..i] + [fields[i]];
      ghost var before := l.entries;
      if fields[i].Some? { var ok := l.Record(ns, fields[i].value.codeName, fields[i].value.id); }
      RebuiltStep(before, l.entries, ns, FieldCode, FieldID, fields[..i], fields[i]);
    }
    assert fields[..|fields|] == fields;
  }

  /** An ID none of the entries has owns nothing. */
  lemma StrangerOwnsNothing<T>(t: Table, ns: Namespace, code: T -> Option<string>, id: T -> ID, xs: seq<Option<T>>, w: ID)
    requires Rebuilt(t, ns, code, id, xs)
    requires forall i :: 0 <= i < |xs| && xs[i].Some? ==> id(xs[i].value) != w
    ensures forall c :: !OwnsLive(t, ns, c, w)
  {
    forall c ensures !OwnsLive(t, ns, c, w) {
      if (ns, c) in t {
        var i: nat :| FirstAt(code, id, xs, c, t[(ns, c)].owner, i);
      }
    }
  }

  /** With unique code names each entry owns its own. */
  lemma EachOwnsItsOwn<T>(t: Table, ns: Namespace, code: T -> Option<string>, id: T -> ID, xs: seq<Option<T>>, i: nat)
    requires Rebuilt(t, ns, code, id, xs) && Unique(code, xs)
    requires i < |xs| && xs[i].Some? && code(xs[i].value).Some?
    ensures OwnsLive(t, ns, code(xs[i].value).value, id(xs[i].value))
  {
    var c := code(xs[i].value).value;
    assert HasKey(code, xs, c);
    assert forall j :: 0 <= j < |xs| && j != i && xs[j].Some? ==> code(xs[j].value) != Some(c);
    var k: nat :| FirstAt(code, id, xs, c, t[(ns, c)].owner, k);
  }
}
