/** Identity continuity between specs (internal/spec/lineage.go). */
module Lineage {
  import opened Text
  import opened Names
  import opened Spec
  import opened WellFormed
  import opened Abi
  import opened Classify
  import Authoring

  datatype IdentityRef = IdentityRef(id: ID, kind: Kind, caption: string, storage: string)

  datatype Delta = Delta(removed: seq<IdentityRef>, added: seq<IdentityRef>)
  {
    predicate Discontinuous() { removed != [] && added != [] }
  }

  function FieldRefs(fields: seq<Option<Field>>): seq<IdentityRef> {
    if fields == [] then []
    else
      var last := fields[|fields| - 1];
      FieldRefs(fields[..|fields| - 1]) +
      if last.Some? then [IdentityRef(last.value.id, KindField, last.value.caption, last.value.storageName)] else []
  }

  function Refs(rs: seq<Option<Resource>>): seq<IdentityRef> {
    if rs == [] then []
    else
      var last := rs[|rs| - 1];
      Refs(rs[..|rs| - 1]) +
      if last.Some? then
        [IdentityRef(last.value.id, KindResource, last.value.caption, last.value.storageName)] + FieldRefs(last.value.fields)
      else []
  }

  function RefsOf(s: Option<ProjectSpec>): seq<IdentityRef> { if s.None? then [] else Refs(s.value.resources) }

  /** The schema IDs of a spec, said without walking it: its resources and their fields. */
  ghost predicate HasIdentity(s: Option<ProjectSpec>, id: ID) {
    s.Some? && SomeOwns(s.value.resources, id)
  }

  ghost predicate SomeOwns(rs: seq<Option<Resource>>, id: ID) {
    exists i :: 0 <= i < |rs| && rs[i].Some? && Owns(rs[i].value, id)
  }

  ghost predicate Owns(r: Resource, id: ID) { r.id == id || HasKey(KeyOfField, r.fields, id) }

  ghost predicate Mentions(refs: seq<IdentityRef>, id: ID) { exists k :: 0 <= k < |refs| && refs[k].id == id }

  lemma MentionsConcat(a: seq<IdentityRef>, b: seq<IdentityRef>, id: ID)
    ensures Mentions(a + b, id) <==> Mentions(a, id) || Mentions(b, id)
  {
    if Mentions(a, id) { var k :| 0 <= k < |a| && a[k].id == id; assert (a + b)[k] == a[k]; }
    if Mentions(b, id) { var k :| 0 <= k < |b| && b[k].id == id; assert (a + b)[|a| + k] == b[k]; }
  }

  lemma {:induction false} FieldRefsMeaning(fields: seq<Option<Field>>, id: ID)
    ensures Mentions(FieldRefs(fields), id) <==> HasKey(KeyOfField, fields, id)
  {
    if fields != [] {
      var n := |fields| - 1;
      FieldRefsMeaning(fields[..n], id);
      assert forall i :: 0 <= i < n ==> fields[..n][i] == fields[i];
      var tail := if fields[n].Some? then [IdentityRef(fields[n].value.id, KindField, fields[n].value.caption, fields[n].value.storageName)] else [];
      MentionsConcat(FieldRefs(fields[..n]), tail, id);
      assert Mentions(tail, id) <==> fields[n].Some? && fields[n].value.id == id by {
        if fields[n].Some? { assert tail[0].id == fields[n].value.id; }
      }
    }
  }

  lemma SomeOwnsSnoc(rs: seq<Option<Resource>>, r: Option<Resource>, id: ID)
    ensures SomeOwns(rs + [r], id) <==> SomeOwns(rs, id) || (r.Some? && Owns(r.value, id))
  {
    var all := rs + [r];
    assert all[|rs|] == r;
    if SomeOwns(rs, id) {
      var i :| 0 <= i < |rs| && rs[i].Some? && Owns(rs[i].value, id);
      assert all[i] == rs[i];
    }
  }

  lemma {:induction false} RefsMeaning(rs: seq<Option<Resource>>, id: ID)
    ensures Mentions(Refs(rs), id) <==> SomeOwns(rs, id)
  {
    if rs != [] {
      var n := |rs| - 1;
      assert rs == rs[..n] + [rs[n]];
      RefsMeaning(rs[..n], id);
      SomeOwnsSnoc(rs[..n], rs[n], id);
      if rs[n].Some? {
        var r := rs[n].value;
        var head := [IdentityRef(r.id, KindResource, r.caption, r.storageName)];
        FieldRefsMeaning(r.fields, id);
        MentionsConcat(head, FieldRefs(r.fields), id);
        MentionsConcat(Refs(rs[..n]), head + FieldRefs(r.fields), id);
        assert Mentions(head, id) <==> r.id == id by { assert head[0].id == r.id; }
        assert Refs(rs) == Refs(rs[..n]) + (head + FieldRefs(r.fields));
      } else {
        assert Refs(rs[..n]) + [] == Refs(rs[..n]) == Refs(rs);
      }
    }
  }

  lemma RefsOfMeaning(s: Option<ProjectSpec>, id: ID)
    ensures Mentions(RefsOf(s), id) <==> HasIdentity(s, id)
  {
    if s.Some? { RefsMeaning(s.value.resources, id); }
  }

  /** The refs whose ID a set does not hold, in order. */
  function Missing(refs: seq<IdentityRef>, ids: set<ID>): seq<IdentityRef> {
    if refs == [] then []
    else
      var n := |refs| - 1;
      Missing(refs[..n], ids) + if refs[n].id !in ids then [refs[n]] else []
  }

  function IDSetOf(refs: seq<IdentityRef>): set<ID> { set i | 0 <= i < |refs| :: refs[i].id }

  lemma {:induction false} MissingMeaning(refs: seq<IdentityRef>, ids: set<ID>)
    ensures Missing(refs, ids) == [] <==> forall k :: 0 <= k < |refs| ==> refs[k].id in ids
    ensures forall ref :: ref in Missing(refs, ids) <==> ref in refs && ref.id !in ids
  {
    if refs != [] {
      var n := |refs| - 1;
      MissingMeaning(refs[..n], ids);
      assert refs == refs[..n] + [refs[n]];
      assert forall k :: 0 <= k < n ==> refs[..n][k] == refs[k];
    }
  }

  function DeltaOf(prior: Option<ProjectSpec>, current: Option<ProjectSpec>): Delta {
    Delta(Missing(RefsOf(prior), IDSetOf(RefsOf(current))), Missing(RefsOf(current), IDSetOf(RefsOf(prior))))
  }

  lemma EmptyExactly(a: Option<ProjectSpec>, b: Option<ProjectSpec>)
    ensures Missing(RefsOf(a), IDSetOf(RefsOf(b))) == [] <==> forall id :: HasIdentity(a, id) ==> HasIdentity(b, id)
  {
    var x, y := RefsOf(a), RefsOf(b);
    MissingMeaning(x, IDSetOf(y));
    forall id ensures Mentions(x, id) <==> HasIdentity(a, id) { RefsOfMeaning(a, id); }
    forall id ensures Mentions(y, id) <==> HasIdentity(b, id) { RefsOfMeaning(b, id); }
    assert forall id :: id in IDSetOf(y) <==> Mentions(y, id);
    hide HasIdentity;
    if Missing(x, IDSetOf(y)) == [] {
      forall id | HasIdentity(a, id) ensures HasIdentity(b, id) {
        assert Mentions(x, id);
      }
    } else {
      var k :| 0 <= k < |x| && x[k].id !in IDSetOf(y);
      assert Mentions(x, x[k].id);
    }
  }

  /** A move is discontinuous exactly when some identity vanished and another appeared; what a
      surviving identity is called plays no part. */
  lemma DiscontinuousExactly(prior: Option<ProjectSpec>, current: Option<ProjectSpec>)
    ensures DeltaOf(prior, current).Discontinuous() <==>
      && (exists id :: HasIdentity(prior, id) && !HasIdentity(current, id))
      && (exists id :: HasIdentity(current, id) && !HasIdentity(prior, id))
  {
    hide HasIdentity;
    EmptyExactly(prior, current);
    EmptyExactly(current, prior);
  }

  // ----- What the delta lists -----

  /** The identity at this place of the spec: a resource, before its fields. */
  ghost predicate RefersAt(s: ProjectSpec, at: Spot, ref: IdentityRef) {
    && at.part == 0 && at.entry < |s.resources| && s.resources[at.entry].Some?
    && var r := s.resources[at.entry].value;
       if at.item == 0 then at.inner == 0 && ref == IdentityRef(r.id, KindResource, r.caption, r.storageName)
       else
         && at.item == 1 && at.inner < |r.fields| && r.fields[at.inner].Some?
         && var f := r.fields[at.inner].value;
            ref == IdentityRef(f.id, KindField, f.caption, f.storageName)
  }

  ghost predicate ListsLost(s: ProjectSpec, other: Option<ProjectSpec>, refs: seq<IdentityRef>, at: seq<Spot>) {
    && |at| == |refs| && Ascends(at)
    && (forall n :: 0 <= n < |at| ==> RefersAt(s, at[n], refs[n]) && !HasIdentity(other, refs[n].id))
    && forall p, ref :: RefersAt(s, p, ref) && !HasIdentity(other, ref.id) ==> p in at
  }

  /** Each identity of the one spec that the other lacks, with its own label and storage name, once
      and in authored order. */
  ghost predicate Lost(one: Option<ProjectSpec>, other: Option<ProjectSpec>, refs: seq<IdentityRef>) {
    if one.None? then refs == [] else exists at: seq<Spot> :: ListsLost(one.value, other, refs, at)
  }

  function FieldRefSpots(fields: seq<Option<Field>>, i: nat): seq<Spot> {
    if fields == [] then []
    else
      var n := |fields| - 1;
      FieldRefSpots(fields[..n], i) + if fields[n].Some? then [Spot(0, i, 1, n)] else []
  }

  function RefSpots(rs: seq<Option<Resource>>): seq<Spot> {
    if rs == [] then []
    else
      var n := |rs| - 1;
      RefSpots(rs[..n]) + if rs[n].Some? then [Spot(0, n, 0, 0)] + FieldRefSpots(rs[n].value.fields, n) else []
  }

  ghost predicate FieldRefPlaces(fields: seq<Option<Field>>, i: nat, refs: seq<IdentityRef>, at: seq<Spot>) {
    && |at| == |refs| && Ascends(at)
    && (forall n :: 0 <= n < |at| ==>
          && at[n] == Spot(0, i, 1, at[n].inner) && at[n].inner < |fields| && fields[at[n].inner].Some?
          && var f := fields[at[n].inner].value;
             refs[n] == IdentityRef(f.id, KindField, f.caption, f.storageName))
    && forall k: nat :: k < |fields| && fields[k].Some? ==> Spot(0, i, 1, k) in at
  }

  lemma {:induction false} FieldRefSpotsAre(fields: seq<Option<Field>>, i: nat)
    ensures FieldRefPlaces(fields, i, FieldRefs(fields), FieldRefSpots(fields, i))
  {
    if fields != [] {
      var n := |fields| - 1;
      FieldRefSpotsAre(fields[..n], i);
      assert forall k :: 0 <= k < n ==> fields[..n][k] == fields[k];
      if fields[n].Some? { AscendsConcat(FieldRefSpots(fields[..n], i), [Spot(0, i, 1, n)]); }
    }
  }

  /** The places among the first n resources, all of them. */
  ghost predicate RefPlaces(s: ProjectSpec, n: nat, refs: seq<IdentityRef>, at: seq<Spot>) {
    && |at| == |refs| && Ascends(at)
    && (forall m :: 0 <= m < |at| ==> at[m].part == 0 && at[m].entry < n && RefersAt(s, at[m], refs[m]))
    && forall p: Spot, ref :: p.entry < n && RefersAt(s, p, ref) ==> p in at
  }

  lemma {:induction false} RefSpotsAre(s: ProjectSpec, n: nat)
    requires n <= |s.resources|
    ensures RefPlaces(s, n, Refs(s.resources[..n]), RefSpots(s.resources[..n]))
  {
    hide FieldRefs, FieldRefSpots, RefersAt, RefPlaces;
    if n == 0 {
      NoRefPlaces(s);
    } else {
      var i := n - 1;
      RefSpotsAre(s, i);
      assert s.resources[..n][..i] == s.resources[..i];
      RefsOfOne(s, i);
      if s.resources[i].Some? {
        var r := s.resources[i].value;
        RefsGrow(s, i, Refs(s.resources[..i]), RefSpots(s.resources[..i]),
          [IdentityRef(r.id, KindResource, r.caption, r.storageName)] + FieldRefs(r.fields), [Spot(0, i, 0, 0)] + FieldRefSpots(r.fields, i));
      } else {
        RefsGrow(s, i, Refs(s.resources[..i]), RefSpots(s.resources[..i]), [], []);
      }
    }
  }

  lemma NoRefPlaces(s: ProjectSpec)
    ensures RefPlaces(s, 0, Refs(s.resources[..0]), RefSpots(s.resources[..0]))
  {
  }

  lemma RefsOfOne(s: ProjectSpec, i: nat)
    requires i < |s.resources|
    ensures s.resources[i].None? ==> forall p: Spot, ref :: p.entry == i ==> !RefersAt(s, p, ref)
    ensures s.resources[i].Some? ==>
      var r := s.resources[i].value;
      var refs := [IdentityRef(r.id, KindResource, r.caption, r.storageName)] + FieldRefs(r.fields);
      var at := [Spot(0, i, 0, 0)] + FieldRefSpots(r.fields, i);
      && |at| == |refs| && Ascends(at)
      && (forall m :: 0 <= m < |at| ==> at[m].part == 0 && at[m].entry == i && RefersAt(s, at[m], refs[m]))
      && forall p: Spot, ref :: p.entry == i && RefersAt(s, p, ref) ==> p in at
  {
    if s.resources[i].Some? {
      var r := s.resources[i].value;
      FieldRefSpotsAre(r.fields, i);
      hide FieldRefs, FieldRefSpots;
      var at := [Spot(0, i, 0, 0)] + FieldRefSpots(r.fields, i);
      AscendsConcat([Spot(0, i, 0, 0)], FieldRefSpots(r.fields, i));
      hide Ascends;
      forall p: Spot, ref | p.entry == i && RefersAt(s, p, ref) ensures p in at {
        if p.item == 0 { assert at[0] == p; } else { assert p == Spot(0, i, 1, p.inner); }
      }
    }
  }

  lemma RefsGrow(s: ProjectSpec, n: nat, a: seq<IdentityRef>, at: seq<Spot>, b: seq<IdentityRef>, bt: seq<Spot>)
    requires RefPlaces(s, n, a, at)
    requires |bt| == |b| && Ascends(bt)
    requires forall m :: 0 <= m < |bt| ==> bt[m].part == 0 && bt[m].entry == n && RefersAt(s, bt[m], b[m])
    requires forall p: Spot, ref :: p.entry == n && RefersAt(s, p, ref) ==> p in bt
    ensures RefPlaces(s, n + 1, a + b, at + bt)
  {
    hide RefersAt;
    forall i, j | 0 <= i < |at| && 0 <= j < |bt| ensures Sooner(at[i], bt[j]) {}
    hide Sooner;
    AscendsConcat(at, bt);
    hide Ascends;
    var all, spots := a + b, at + bt;
    forall m | 0 <= m < |spots| ensures spots[m].part == 0 && spots[m].entry < n + 1 && RefersAt(s, spots[m], all[m]) {
      if m < |at| { assert spots[m] == at[m] && all[m] == a[m]; }
      else { assert spots[m] == bt[m - |at|] && all[m] == b[m - |at|]; }
    }
    forall p: Spot, ref | p.entry < n + 1 && RefersAt(s, p, ref) ensures p in spots {
      if p.entry < n { assert p in at; } else { assert p in bt; }
    }
  }

  function MissingSpots(refs: seq<IdentityRef>, ids: set<ID>, at: seq<Spot>): seq<Spot>
    requires |at| == |refs|
  {
    if refs == [] then []
    else
      var n := |refs| - 1;
      MissingSpots(refs[..n], ids, at[..n]) + if refs[n].id !in ids then [at[n]] else []
  }

  ghost predicate KeptFrom(refs: seq<IdentityRef>, ids: set<ID>, at: seq<Spot>, ref: IdentityRef, spot: Spot)
    requires |at| == |refs|
  {
    exists n :: 0 <= n < |at| && spot == at[n] && ref == refs[n] && refs[n].id !in ids
  }

  /** Of the listed places those whose identity the set lacks, in order. */
  ghost predicate Keeps(refs: seq<IdentityRef>, ids: set<ID>, at: seq<Spot>, kept: seq<IdentityRef>, spots: seq<Spot>)
    requires |at| == |refs|
  {
    && |spots| == |kept| && Ascends(spots)
    && (forall m :: 0 <= m < |spots| ==> KeptFrom(refs, ids, at, kept[m], spots[m]))
    && forall n :: 0 <= n < |at| && refs[n].id !in ids ==> at[n] in spots
  }

  lemma {:induction false} MissingSpotsAre(refs: seq<IdentityRef>, ids: set<ID>, at: seq<Spot>)
    requires |at| == |refs| && Ascends(at)
    ensures Keeps(refs, ids, at, Missing(refs, ids), MissingSpots(refs, ids, at))
  {
    if refs != [] {
      var n := |refs| - 1;
      MissingSpotsAre(refs[..n], ids, at[..n]);
      MissingGrows(refs, ids, at, Missing(refs[..n], ids), MissingSpots(refs[..n], ids, at[..n]));
    }
  }

  lemma MissingGrows(refs: seq<IdentityRef>, ids: set<ID>, at: seq<Spot>, kept: seq<IdentityRef>, spots: seq<Spot>)
    requires |at| == |refs| && refs != [] && Ascends(at)
    requires Keeps(refs[..|refs| - 1], ids, at[..|refs| - 1], kept, spots)
    ensures
      var n := |refs| - 1;
      if refs[n].id in ids then Keeps(refs, ids, at, kept, spots) else Keeps(refs, ids, at, kept + [refs[n]], spots + [at[n]])
  {
    var n := |refs| - 1;
    assert forall k :: 0 <= k < n ==> refs[..n][k] == refs[k] && at[..n][k] == at[k];
    forall m | 0 <= m < |spots|
      ensures KeptFrom(refs, ids, at, kept[m], spots[m]) && Sooner(spots[m], at[n])
    {
      assert KeptFrom(refs[..n], ids, at[..n], kept[m], spots[m]);
      var k :| 0 <= k < n && spots[m] == at[..n][k] && kept[m] == refs[..n][k] && refs[..n][k].id !in ids;
      assert spots[m] == at[k] && kept[m] == refs[k];
    }
    forall k | 0 <= k < n && refs[k].id !in ids ensures at[k] in spots { assert at[..n][k] in spots; }
    if refs[n].id !in ids {
      AscendsConcat(spots, [at[n]]);
      assert KeptFrom(refs, ids, at, refs[n], at[n]);
    }
  }

  lemma MissingIsLost(one: Option<ProjectSpec>, other: Option<ProjectSpec>)
    ensures Lost(one, other, Missing(RefsOf(one), IDSetOf(RefsOf(other))))
  {
    var refs, ids := RefsOf(one), IDSetOf(RefsOf(other));
    if one.Some? {
      var s := one.value;
      RefSpotsAre(s, |s.resources|);
      assert s.resources[..|s.resources|] == s.resources;
      var at := RefSpots(s.resources);
      MissingSpotsAre(refs, ids, at);
      forall id ensures id in ids <==> HasIdentity(other, id) { IDsAreIdentities(other, id); }
      hide HasIdentity, RefersAt, Ascends, IDSetOf, RefsOf, Missing;
      KeptAreLost(s, other, refs, ids, at, Missing(refs, ids), MissingSpots(refs, ids, at));
    }
  }

  lemma IDsAreIdentities(s: Option<ProjectSpec>, id: ID)
    ensures id in IDSetOf(RefsOf(s)) <==> HasIdentity(s, id)
  {
    hide HasIdentity, RefsOf;
    RefsOfMeaning(s, id);
  }

  lemma KeptAreLost(s: ProjectSpec, other: Option<ProjectSpec>, refs: seq<IdentityRef>, ids: set<ID>, at: seq<Spot>,
                    kept: seq<IdentityRef>, spots: seq<Spot>)
    requires RefPlaces(s, |s.resources|, refs, at) && Keeps(refs, ids, at, kept, spots)
    requires forall id :: id in ids <==> HasIdentity(other, id)
    ensures ListsLost(s, other, kept, spots)
  {
    PlaceTellsIdentity(s);
    hide RefersAt, HasIdentity, Ascends;
    forall m | 0 <= m < |spots| ensures RefersAt(s, spots[m], kept[m]) && !HasIdentity(other, kept[m].id) {
      assert KeptFrom(refs, ids, at, kept[m], spots[m]);
      var n :| 0 <= n < |at| && spots[m] == at[n] && kept[m] == refs[n] && refs[n].id !in ids;
    }
    forall p, ref | RefersAt(s, p, ref) && !HasIdentity(other, ref.id) ensures p in spots {
      assert p in at;
      var n :| 0 <= n < |at| && at[n] == p;
      assert RefersAt(s, at[n], refs[n]);
      assert refs[n] == ref;
    }
  }

  lemma PlaceTellsIdentity(s: ProjectSpec)
    ensures forall p, a, b :: RefersAt(s, p, a) && RefersAt(s, p, b) ==> a == b
    ensures forall p, a :: RefersAt(s, p, a) ==> p.entry < |s.resources|
  {
  }

  lemma KeptOwns(r: Resource, q: Resource, id: ID)
    requires Unique(KeyOfField, r.fields) && Unique(KeyOfField, q.fields)
    requires q.id == r.id && KeepsRow(RowOf(r), RowOf(q)) && Owns(r, id)
    ensures Owns(q, id)
  {
    hide FieldMap, HookMap, Unique;
    FieldMapMeaning(r.fields);
    FieldMapMeaning(q.fields);
    if r.id != id { assert id in FieldMap(r.fields); }
  }

  /** A non-breaking move between valid specs removes no identity, so it is never
      discontinuous. */
  lemma NonBreakingIsContinuous(lib: Library, s: ProjectSpec, t: ProjectSpec)
    requires Authoring.BothValid(lib, s, t) && NonBreaking(AbiOf(s), AbiOf(t))
    ensures DeltaOf(Some(s), Some(t)).removed == [] && !DeltaOf(Some(s), Some(t)).Discontinuous()
  {
    hide WellFormedSpec, NonBreaking, AbiOf, RowOf, KeepsRow, Unique, Owns, FieldsOK;
    Authoring.TransitionByResource(lib, s, t);
    EmptyExactly(Some(s), Some(t));
    forall id | HasIdentity(Some(s), id) ensures HasIdentity(Some(t), id) {
      var i :| 0 <= i < |s.resources| && s.resources[i].Some? && Owns(s.resources[i].value, id);
      var r := s.resources[i].value;
      assert Authoring.KeptIn(r, t);
      var j :| 0 <= j < |t.resources| && t.resources[j].Some? && t.resources[j].value.id == r.id
        && KeepsRow(RowOf(r), RowOf(t.resources[j].value));
      Authoring.FieldsNamed(lib, s, i);
      Authoring.FieldsNamed(lib, t, j);
      KeptOwns(r, t.resources[j].value, id);
    }
  }

  // ----- The code -----

  method SchemaIdentities(s: Option<ProjectSpec>) returns (refs: seq<IdentityRef>)
    ensures refs == RefsOf(s)
  {
    refs := [];
    if s.None? { return; }
    var rs := s.value.resources;
    for i := 0 to |rs|
      invariant refs == Refs(rs[..i])
    {
      assert rs[..i + 1][..i] == rs[..i];
      if rs[i].None? { continue; }
      var r := rs[i].value;
      refs := refs + [IdentityRef(r.id, KindResource, r.caption, r.storageName)];
      ghost var before := refs;
      for k := 0 to |r.fields|
        invariant refs == before + FieldRefs(r.fields[..k])
      {
        assert r.fields[..k + 1][..k] == r.fields[..k];
        if r.fields[k].None? { continue; }
        var f := r.fields[k].value;
        refs := refs + [IdentityRef(f.id, KindField, f.caption, f.storageName)];
      }
      assert r.fields[..|r.fields|] == r.fields;
    }
    assert rs[..|rs|] == rs;
  }

  method IDSet(refs: seq<IdentityRef>) returns (ids: set<ID>)
    ensures ids == IDSetOf(refs)
  {
    ids := {};
    for i := 0 to |refs|
      invariant ids == IDSetOf(refs[..i])
    {
      assert refs[..i + 1][..i] == refs[..i];
      assert forall k :: 0 <= k < i ==> refs[..i + 1][k] == refs[..i][k];
      assert refs[..i + 1][i] == refs[i];
      ids := ids + {refs[i].id};
    }
    assert refs[..|refs|] == refs;
  }

  method Absent(refs: seq<IdentityRef>, ids: set<ID>) returns (out: seq<IdentityRef>)
    ensures out == Missing(refs, ids)
  {
    out := [];
    for i := 0 to |refs|
      invariant out == Missing(refs[..i], ids)
    {
      assert refs[..i + 1][..i] == refs[..i];
      if refs[i].id !in ids { out := out + [refs[i]]; }
    }
    assert refs[..|refs|] == refs;
  }

  method CheckLineage(prior: Option<ProjectSpec>, current: Option<ProjectSpec>) returns (l: Delta)
    ensures l == DeltaOf(prior, current)
    ensures Lost(prior, current, l.removed) && Lost(current, prior, l.added)
    ensures l.Discontinuous() <==>
      && (exists id :: HasIdentity(prior, id) && !HasIdentity(current, id))
      && (exists id :: HasIdentity(current, id) && !HasIdentity(prior, id))
  {
    var before := SchemaIdentities(prior);
    var after := SchemaIdentities(current);
    var beforeIDs := IDSet(before);
    var afterIDs := IDSet(after);
    var removed := Absent(before, afterIDs);
    var added := Absent(after, beforeIDs);
    l := Delta(removed, added);
    MissingIsLost(prior, current);
    MissingIsLost(current, prior);
    DiscontinuousExactly(prior, current);
  }
}
