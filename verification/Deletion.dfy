/** The deletion gate of internal/compiler/deletion.go, written apart from the validator, and
    the proof that the two agree on every candidate that only deletes resources. */
module Deletion {
  import opened Text
  import opened Names
  import opened Spec
  import opened WellFormed
  import Validator
  import Identity

  datatype Blocker =
    | Relationship(entity: ID, owner: ID)
    | BoundPage(entity: ID)
    | DashboardCard(entity: ID)

  datatype DeletedResource = DeletedResource(
    id: ID, codeName: string, caption: string, hadExtension: bool, blockers: seq<Blocker>)
  {
    predicate Blocked() { blockers != [] }
  }

  // ----- What the loops collect, in authored order -----

  function FieldBlockers(fields: seq<Option<Field>>, owner: ID, deleted: ID): seq<Blocker> {
    if fields == [] then []
    else
      var last := fields[|fields| - 1];
      FieldBlockers(fields[..|fields| - 1], owner, deleted) +
      if last.Some? && last.value.kind.TBelongsTo? && last.value.target == deleted
      then [Relationship(last.value.id, owner)] else []
  }

  function ResourceBlockers(resources: seq<Option<Resource>>, deleted: ID): seq<Blocker> {
    if resources == [] then []
    else
      var last := resources[|resources| - 1];
      ResourceBlockers(resources[..|resources| - 1], deleted) +
      if last.Some? then FieldBlockers(last.value.fields, last.value.id, deleted) else []
  }

  function CardBlockers(targets: seq<ID>, page: ID, deleted: ID): seq<Blocker> {
    if targets == [] then []
    else
      CardBlockers(targets[..|targets| - 1], page, deleted) +
      if targets[|targets| - 1] == deleted then [DashboardCard(page)] else []
  }

  /** The resources the cards of a dashboard point at: count cards, recent lists, aggregates. */
  function CardTargets(d: DashboardConfig): seq<ID> {
    seq(|d.countCards|, i requires 0 <= i < |d.countCards| => d.countCards[i].resource) +
    seq(|d.recentLists|, i requires 0 <= i < |d.recentLists| => d.recentLists[i].resource) +
    seq(|d.aggregateCards|, i requires 0 <= i < |d.aggregateCards| => d.aggregateCards[i].resource)
  }

  function OnePageBlockers(p: Page, deleted: ID): seq<Blocker> {
    (if p.resource == deleted then [BoundPage(p.id)] else []) +
    (if p.dashboard.Some? then CardBlockers(CardTargets(p.dashboard.value), p.id, deleted) else [])
  }

  function PageBlockers(pages: seq<Option<Page>>, deleted: ID): seq<Blocker> {
    if pages == [] then []
    else
      var last := pages[|pages| - 1];
      PageBlockers(pages[..|pages| - 1], deleted) +
      if last.Some? then OnePageBlockers(last.value, deleted) else []
  }

  method RelationshipBlockers(resources: seq<Option<Resource>>, deleted: ID) returns (blockers: seq<Blocker>)
    ensures blockers == ResourceBlockers(resources, deleted)
  {
    blockers := [];
    for i := 0 to |resources|
      invariant blockers == ResourceBlockers(resources[..i], deleted)
    {
      assert resources[..i + 1][..i] == resources[..i];
      if resources[i].None? {
        continue;
      }
      var r := resources[i].value;
      ghost var before := blockers;
      for k := 0 to |r.fields|
        invariant blockers == before + FieldBlockers(r.fields[..k], r.id, deleted)
      {
        assert r.fields[..k + 1][..k] == r.fields[..k];
        if r.fields[k].Some? && r.fields[k].value.kind.TBelongsTo? && r.fields[k].value.target == deleted {
          blockers := blockers + [Relationship(r.fields[k].value.id, r.id)];
        }
      }
      assert r.fields[..|r.fields|] == r.fields;
    }
    assert resources[..|resources|] == resources;
  }

  /** The body of the loop over pages. */
  method BlockersOnPage(p: Page, deleted: ID) returns (blockers: seq<Blocker>)
    ensures blockers == OnePageBlockers(p, deleted)
  {
    hide CardTargets;
    blockers := [];
    if p.resource == deleted {
      blockers := blockers + [BoundPage(p.id)];
    }
    if p.dashboard.None? {
      return;
    }
    var targets := CardTargets(p.dashboard.value);
    ghost var bound := blockers;
    for k := 0 to |targets|
      invariant blockers == bound + CardBlockers(targets[..k], p.id, deleted)
    {
      assert targets[..k + 1][..k] == targets[..k];
      if targets[k] == deleted {
        blockers := blockers + [DashboardCard(p.id)];
      }
    }
    assert targets[..|targets|] == targets;
  }

  method PageAndCardBlockers(pages: seq<Option<Page>>, deleted: ID) returns (blockers: seq<Blocker>)
    ensures blockers == PageBlockers(pages, deleted)
  {
    hide OnePageBlockers;
    blockers := [];
    for i := 0 to |pages|
      invariant blockers == PageBlockers(pages[..i], deleted)
    {
      assert pages[..i + 1][..i] == pages[..i];
      if pages[i].None? {
        continue;
      }
      var onPage := BlockersOnPage(pages[i].value, deleted);
      blockers := blockers + onPage;
    }
    assert pages[..|pages|] == pages;
  }

  method BlockersFor(candidate: Option<ProjectSpec>, deleted: Resource) returns (blockers: seq<Blocker>)
    ensures blockers == if candidate.None? then [] else
      ResourceBlockers(candidate.value.resources, deleted.id) + PageBlockers(candidate.value.pages, deleted.id)
  {
    if candidate.None? {
      return [];
    }
    var relationships := RelationshipBlockers(candidate.value.resources, deleted.id);
    var bound := PageAndCardBlockers(candidate.value.pages, deleted.id);
    return relationships + bound;
  }

  ghost predicate Survives(candidate: Option<ProjectSpec>, id: ID) {
    candidate.Some? && FindResource(candidate.value.resources, id).Some?
  }

  function Gone(candidate: Option<ProjectSpec>, r: Resource): DeletedResource {
    DeletedResource(r.id, r.codeName, r.caption, r.hooks != [],
      if candidate.None? then [] else
      ResourceBlockers(candidate.value.resources, r.id) + PageBlockers(candidate.value.pages, r.id))
  }

  ghost function Deletions(current: seq<Option<Resource>>, candidate: Option<ProjectSpec>): seq<DeletedResource> {
    if current == [] then []
    else
      var last := current[|current| - 1];
      Deletions(current[..|current| - 1], candidate) +
      if last.Some? && !Survives(candidate, last.value.id) then [Gone(candidate, last.value)] else []
  }

  method Surviving(candidate: Option<ProjectSpec>) returns (surviving: set<ID>)
    ensures forall id :: id in surviving <==> Survives(candidate, id)
  {
    surviving := {};
    if candidate.Some? {
      var rs := candidate.value.resources;
      for i := 0 to |rs|
        invariant forall id :: id in surviving <==> exists k :: 0 <= k < i && rs[k].Some? && rs[k].value.id == id
      {
        if rs[i].None? {
          continue;
        }
        surviving := surviving + {rs[i].value.id};
      }
    }
  }

  /** AnalyzeDeletions: the resources absent from the candidate, in the current order, each
      with what in the candidate still references it. */
  method AnalyzeDeletions(current: Option<ProjectSpec>, candidate: Option<ProjectSpec>)
    returns (deletions: seq<DeletedResource>)
    ensures deletions == if current.None? then [] else Deletions(current.value.resources, candidate)
    ensures current.Some? ==> exists at: seq<nat> :: ReportsAt(current.value.resources, candidate, deletions, at)
  {
    deletions := [];
    if current.None? {
      return;
    }
    hide ReportsAt;
    var surviving := Surviving(candidate);
    hide Survives, Gone;
    var resources := current.value.resources;
    for i := 0 to |resources|
      invariant deletions == Deletions(resources[..i], candidate)
    {
      assert resources[..i + 1][..i] == resources[..i];
      if resources[i].None? {
        continue;
      }
      var r := resources[i].value;
      if r.id in surviving {
        continue;
      }
      var blockers := BlockersFor(candidate, r);
      deletions := deletions + [DeletedResource(r.id, r.codeName, r.caption, r.hooks != [], blockers)];
    }
    assert resources[..|resources|] == resources;
    ghost var at := DeletionsReport(resources, candidate);
  }

  /** kept is xs at increasing positions. */
  ghost predicate KeepsAt(xs: seq<DeletedResource>, kept: seq<DeletedResource>, at: seq<nat>) {
    && |at| == |kept|
    && (forall j, k :: 0 <= j < k < |at| ==> at[j] < at[k])
    && forall k :: 0 <= k < |at| ==> at[k] < |xs| && kept[k] == xs[at[k]]
  }

  /** kept is exactly the blocked entries of xs, each as often as it stands there, in order. */
  ghost predicate Thins(xs: seq<DeletedResource>, kept: seq<DeletedResource>) {
    exists at: seq<nat> :: KeepsAt(xs, kept, at) && forall k :: 0 <= k < |xs| ==> (k in at <==> xs[k].Blocked())
  }

  /** BlockedDeletions: empty exactly when no analyzed deletion carries a blocker. */
  method BlockedDeletions(deletions: seq<DeletedResource>) returns (blocked: seq<DeletedResource>)
    ensures blocked == [] <==> forall d :: d in deletions ==> !d.Blocked()
    ensures forall d :: d in blocked <==> d in deletions && d.Blocked()
    ensures Thins(deletions, blocked)
  {
    blocked := [];
    ghost var at: seq<nat> := [];
    for i := 0 to |deletions|
      invariant ThinsTo(deletions, blocked, at, i)
    {
      ThinsStep(deletions, blocked, at, i);
      if deletions[i].Blocked() {
        at := at + [i];
        blocked := blocked + [deletions[i]];
      }
    }
    ThinsMembers(deletions, blocked, at);
  }

  /** After i entries. */
  ghost predicate ThinsTo(xs: seq<DeletedResource>, kept: seq<DeletedResource>, at: seq<nat>, i: nat) {
    && KeepsAt(xs, kept, at)
    && (forall k :: 0 <= k < |at| ==> at[k] < i)
    && forall k :: 0 <= k < i && k < |xs| ==> (k in at <==> xs[k].Blocked())
  }

  lemma ThinsStep(xs: seq<DeletedResource>, kept: seq<DeletedResource>, at: seq<nat>, i: nat)
    requires i < |xs| && ThinsTo(xs, kept, at, i)
    ensures xs[i].Blocked() ==> ThinsTo(xs, kept + [xs[i]], at + [i], i + 1)
    ensures !xs[i].Blocked() ==> ThinsTo(xs, kept, at, i + 1)
  {
    assert i !in at;
  }

  lemma ThinsMembers(xs: seq<DeletedResource>, kept: seq<DeletedResource>, at: seq<nat>)
    requires ThinsTo(xs, kept, at, |xs|)
    ensures Thins(xs, kept)
    ensures forall d :: d in kept <==> d in xs && d.Blocked()
    ensures kept == [] <==> forall d :: d in xs ==> !d.Blocked()
  {
    forall d | d in kept ensures d in xs && d.Blocked() {
      var k :| 0 <= k < |kept| && kept[k] == d;
      assert at[k] in at;
    }
    forall d | d in xs && d.Blocked() ensures d in kept {
      var k :| 0 <= k < |xs| && xs[k] == d;
      assert k in at;
      var j :| 0 <= j < |at| && at[j] == k;
      assert kept[j] == d;
    }
    if kept != [] { assert kept[0] in kept; }
  }

  // ----- What the blockers say -----

  /** The resource a card points at, the count cards before the recent lists and those before the
      aggregates. */
  ghost predicate CardPoints(d: DashboardConfig, j: nat, id: ID) {
    if j < |d.countCards| then d.countCards[j].resource == id
    else if j < |d.countCards| + |d.recentLists| then d.recentLists[j - |d.countCards|].resource == id
    else
      var k := j - |d.countCards| - |d.recentLists|;
      k < |d.aggregateCards| && d.aggregateCards[k].resource == id
  }

  /** At this place the candidate refers to the resource, and this is the blocker for it. Fields
      come before pages, and a page's binding before its cards. */
  ghost predicate BlocksAt(s: ProjectSpec, id: ID, at: Spot, b: Blocker) {
    if at.part == 0 then
      && at.entry < |s.resources| && s.resources[at.entry].Some?
      && var r := s.resources[at.entry].value;
         && at.item < |r.fields| && r.fields[at.item].Some? && at.inner == 0
         && r.fields[at.item].value.kind.TBelongsTo? && r.fields[at.item].value.target == id
         && b == Relationship(r.fields[at.item].value.id, r.id)
    else
      && at.part == 1 && at.entry < |s.pages| && s.pages[at.entry].Some?
      && var p := s.pages[at.entry].value;
         if at.item == 0 then at.inner == 0 && p.resource == id && b == BoundPage(p.id)
         else at.item == 1 && p.dashboard.Some? && CardPoints(p.dashboard.value, at.inner, id) && b == DashboardCard(p.id)
  }

  ghost predicate ListsAt(s: ProjectSpec, id: ID, blockers: seq<Blocker>, at: seq<Spot>) {
    && |at| == |blockers| && Ascends(at)
    && (forall n :: 0 <= n < |at| ==> BlocksAt(s, id, at[n], blockers[n]))
    && forall p: Spot, b :: BlocksAt(s, id, p, b) ==> p in at
  }

  /** One blocker for each place that refers to the resource, in the order of the places. */
  ghost predicate Lists(s: ProjectSpec, id: ID, blockers: seq<Blocker>) {
    exists at: seq<Spot> :: ListsAt(s, id, blockers, at)
  }

  /** The k-th field of the i-th resource is a relationship with the resource; these are its ID and
      its owner's. */
  ghost predicate FieldBlocks(s: ProjectSpec, id: ID, field: ID, owner: ID, i: nat, k: nat) {
    && i < |s.resources| && s.resources[i].Some? && s.resources[i].value.id == owner
    && k < |s.resources[i].value.fields| && s.resources[i].value.fields[k].Some?
    && s.resources[i].value.fields[k].value.id == field
    && s.resources[i].value.fields[k].value.kind.TBelongsTo? && s.resources[i].value.fields[k].value.target == id
  }

  /** The i-th page, which has this ID, is bound to the resource. */
  ghost predicate PageBinds(s: ProjectSpec, id: ID, page: ID, i: nat) {
    i < |s.pages| && s.pages[i].Some? && s.pages[i].value.id == page && s.pages[i].value.resource == id
  }

  /** The j-th card of the i-th page, which has this ID, points at the resource. */
  ghost predicate CardBlocks(s: ProjectSpec, id: ID, page: ID, i: nat, j: nat) {
    && i < |s.pages| && s.pages[i].Some? && s.pages[i].value.id == page
    && s.pages[i].value.dashboard.Some? && CardPoints(s.pages[i].value.dashboard.value, j, id)
  }

  /** A relationship blocker names the field and its owner, the others the page. */
  lemma BlockersExactly(s: ProjectSpec, id: ID, blockers: seq<Blocker>)
    requires Lists(s, id, blockers)
    ensures forall e, o :: Relationship(e, o) in blockers <==> exists i: nat, k: nat :: FieldBlocks(s, id, e, o, i, k)
    ensures forall e :: BoundPage(e) in blockers <==> exists i: nat :: PageBinds(s, id, e, i)
    ensures forall e :: DashboardCard(e) in blockers <==> exists i: nat, j: nat :: CardBlocks(s, id, e, i, j)
  {
    hide ListsAt, FieldBlocks, PageBinds, CardBlocks;
    var at: seq<Spot> :| ListsAt(s, id, blockers, at);
    forall e, o ensures Relationship(e, o) in blockers <==> exists i: nat, k: nat :: FieldBlocks(s, id, e, o, i, k) {
      RelationshipExactly(s, id, blockers, at, e, o);
    }
    forall e ensures BoundPage(e) in blockers <==> exists i: nat :: PageBinds(s, id, e, i) {
      BoundPageExactly(s, id, blockers, at, e);
    }
    forall e ensures DashboardCard(e) in blockers <==> exists i: nat, j: nat :: CardBlocks(s, id, e, i, j) {
      CardExactly(s, id, blockers, at, e);
    }
  }

  lemma Somewhere(s: ProjectSpec, id: ID, blockers: seq<Blocker>, at: seq<Spot>, b: Blocker) returns (p: Spot)
    requires ListsAt(s, id, blockers, at) && b in blockers
    ensures BlocksAt(s, id, p, b)
  {
    hide BlocksAt, Ascends;
    var n :| 0 <= n < |blockers| && blockers[n] == b;
    p := at[n];
  }

  lemma RelationshipExactly(s: ProjectSpec, id: ID, blockers: seq<Blocker>, at: seq<Spot>, e: ID, o: ID)
    requires ListsAt(s, id, blockers, at)
    ensures Relationship(e, o) in blockers <==> exists i: nat, k: nat :: FieldBlocks(s, id, e, o, i, k)
  {
    hide ListsAt, CardPoints;
    if Relationship(e, o) in blockers {
      var p := Somewhere(s, id, blockers, at, Relationship(e, o));
      assert FieldBlocks(s, id, e, o, p.entry, p.item);
    }
    if i: nat, k: nat :| FieldBlocks(s, id, e, o, i, k) { ListedAt(s, id, blockers, at, Spot(0, i, k, 0), Relationship(e, o)); }
  }

  lemma BoundPageExactly(s: ProjectSpec, id: ID, blockers: seq<Blocker>, at: seq<Spot>, e: ID)
    requires ListsAt(s, id, blockers, at)
    ensures BoundPage(e) in blockers <==> exists i: nat :: PageBinds(s, id, e, i)
  {
    hide ListsAt, CardPoints;
    if BoundPage(e) in blockers {
      var p := Somewhere(s, id, blockers, at, BoundPage(e));
      assert PageBinds(s, id, e, p.entry);
    }
    if i: nat :| PageBinds(s, id, e, i) { ListedAt(s, id, blockers, at, Spot(1, i, 0, 0), BoundPage(e)); }
  }

  lemma CardExactly(s: ProjectSpec, id: ID, blockers: seq<Blocker>, at: seq<Spot>, e: ID)
    requires ListsAt(s, id, blockers, at)
    ensures DashboardCard(e) in blockers <==> exists i: nat, j: nat :: CardBlocks(s, id, e, i, j)
  {
    hide ListsAt, CardPoints;
    if DashboardCard(e) in blockers {
      var p := Somewhere(s, id, blockers, at, DashboardCard(e));
      assert CardBlocks(s, id, e, p.entry, p.inner);
    }
    if i: nat, j: nat :| CardBlocks(s, id, e, i, j) { ListedAt(s, id, blockers, at, Spot(1, i, 1, j), DashboardCard(e)); }
  }

  lemma ListedAt(s: ProjectSpec, id: ID, blockers: seq<Blocker>, at: seq<Spot>, p: Spot, b: Blocker)
    requires ListsAt(s, id, blockers, at) && BlocksAt(s, id, p, b)
    ensures b in blockers
  {
    hide CardPoints;
    assert p in at;
    var n :| 0 <= n < |at| && at[n] == p;
    assert BlocksAt(s, id, at[n], blockers[n]);
    assert blockers[n] == b;
  }

  // The places, collected as the loops collect the blockers.

  function FieldSpots(fields: seq<Option<Field>>, i: nat, id: ID): seq<Spot> {
    if fields == [] then []
    else
      var n := |fields| - 1;
      FieldSpots(fields[..n], i, id) +
      if fields[n].Some? && fields[n].value.kind.TBelongsTo? && fields[n].value.target == id then [Spot(0, i, n, 0)] else []
  }

  function ResourceSpots(rs: seq<Option<Resource>>, id: ID): seq<Spot> {
    if rs == [] then []
    else
      var n := |rs| - 1;
      ResourceSpots(rs[..n], id) + if rs[n].Some? then FieldSpots(rs[n].value.fields, n, id) else []
  }

  function CardSpots(targets: seq<ID>, i: nat, id: ID): seq<Spot> {
    if targets == [] then []
    else
      var n := |targets| - 1;
      CardSpots(targets[..n], i, id) + if targets[n] == id then [Spot(1, i, 1, n)] else []
  }

  function OnePageSpots(p: Page, i: nat, id: ID): seq<Spot> {
    (if p.resource == id then [Spot(1, i, 0, 0)] else []) +
    (if p.dashboard.Some? then CardSpots(CardTargets(p.dashboard.value), i, id) else [])
  }

  function PageSpots(pages: seq<Option<Page>>, id: ID): seq<Spot> {
    if pages == [] then []
    else
      var n := |pages| - 1;
      PageSpots(pages[..n], id) + if pages[n].Some? then OnePageSpots(pages[n].value, n, id) else []
  }

  /** Places of one kind and one list, in order. */
  ghost predicate FieldPlaces(fields: seq<Option<Field>>, owner: ID, i: nat, id: ID, blockers: seq<Blocker>, at: seq<Spot>) {
    && |at| == |blockers| && Ascends(at)
    && (forall n :: 0 <= n < |at| ==>
          && at[n].part == 0 && at[n].entry == i && at[n].inner == 0 && at[n].item < |fields| && FieldRefers(fields[at[n].item], id)
          && blockers[n] == Relationship(fields[at[n].item].value.id, owner))
    && forall k: nat :: k < |fields| && FieldRefers(fields[k], id) ==> Spot(0, i, k, 0) in at
  }

  lemma {:induction false} FieldSpotsAre(fields: seq<Option<Field>>, owner: ID, i: nat, id: ID)
    ensures FieldPlaces(fields, owner, i, id, FieldBlockers(fields, owner, id), FieldSpots(fields, i, id))
  {
    if fields != [] {
      var n := |fields| - 1;
      FieldSpotsAre(fields[..n], owner, i, id);
      assert forall k :: 0 <= k < n ==> fields[..n][k] == fields[k];
      if FieldRefers(fields[n], id) { AscendsConcat(FieldSpots(fields[..n], i, id), [Spot(0, i, n, 0)]); }
    }
  }

  ghost predicate CardPlaces(targets: seq<ID>, page: ID, i: nat, id: ID, blockers: seq<Blocker>, at: seq<Spot>) {
    && |at| == |blockers| && Ascends(at)
    && (forall n :: 0 <= n < |at| ==>
          && at[n].part == 1 && at[n].entry == i && at[n].item == 1 && at[n].inner < |targets| && targets[at[n].inner] == id
          && blockers[n] == DashboardCard(page))
    && forall k: nat :: k < |targets| && targets[k] == id ==> Spot(1, i, 1, k) in at
  }

  lemma {:induction false} CardSpotsAre(targets: seq<ID>, page: ID, i: nat, id: ID)
    ensures CardPlaces(targets, page, i, id, CardBlockers(targets, page, id), CardSpots(targets, i, id))
  {
    if targets != [] {
      var n := |targets| - 1;
      CardSpotsAre(targets[..n], page, i, id);
      assert forall k :: 0 <= k < n ==> targets[..n][k] == targets[k];
      if targets[n] == id { AscendsConcat(CardSpots(targets[..n], i, id), [Spot(1, i, 1, n)]); }
    }
  }

  /** Places among the first n entries of one part of the candidate, all of them. */
  ghost predicate PartPlaces(s: ProjectSpec, id: ID, part: nat, n: nat, blockers: seq<Blocker>, at: seq<Spot>) {
    && |at| == |blockers| && Ascends(at)
    && (forall m :: 0 <= m < |at| ==> at[m].part == part && at[m].entry < n && BlocksAt(s, id, at[m], blockers[m]))
    && forall p: Spot, b :: p.part == part && p.entry < n && BlocksAt(s, id, p, b) ==> p in at
  }

  lemma PartGrows(s: ProjectSpec, id: ID, part: nat, n: nat, a: seq<Blocker>, at: seq<Spot>, b: seq<Blocker>, bt: seq<Spot>)
    requires PartPlaces(s, id, part, n, a, at)
    requires |bt| == |b| && Ascends(bt)
    requires forall m :: 0 <= m < |bt| ==> bt[m].part == part && bt[m].entry == n && BlocksAt(s, id, bt[m], b[m])
    requires forall p: Spot, c :: p.part == part && p.entry == n && BlocksAt(s, id, p, c) ==> p in bt
    ensures PartPlaces(s, id, part, n + 1, a + b, at + bt)
  {
    hide BlocksAt;
    forall i, j | 0 <= i < |at| && 0 <= j < |bt| ensures Sooner(at[i], bt[j]) {}
    hide Sooner;
    AscendsConcat(at, bt);
    hide Ascends;
    var all, spots := a + b, at + bt;
    forall m | 0 <= m < |spots| ensures spots[m].part == part && spots[m].entry < n + 1 && BlocksAt(s, id, spots[m], all[m]) {
      if m < |at| { assert spots[m] == at[m] && all[m] == a[m]; }
      else { assert spots[m] == bt[m - |at|] && all[m] == b[m - |at|]; }
    }
    forall p: Spot, c | p.part == part && p.entry < n + 1 && BlocksAt(s, id, p, c) ensures p in at + bt {
      if p.entry < n { assert p in at; } else { assert p in bt; }
    }
  }

  lemma {:induction false} ResourceSpotsAre(s: ProjectSpec, id: ID, n: nat)
    requires n <= |s.resources|
    ensures PartPlaces(s, id, 0, n, ResourceBlockers(s.resources[..n], id), ResourceSpots(s.resources[..n], id))
  {
    hide FieldBlockers, FieldSpots, BlocksAt;
    if n > 0 {
      var i := n - 1;
      ResourceSpotsAre(s, id, i);
      assert s.resources[..n][..i] == s.resources[..i];
      FieldsOfOne(s, id, i);
      if s.resources[i].Some? {
        var r := s.resources[i].value;
        PartGrows(s, id, 0, i, ResourceBlockers(s.resources[..i], id), ResourceSpots(s.resources[..i], id),
          FieldBlockers(r.fields, r.id, id), FieldSpots(r.fields, i, id));
      } else {
        PartGrows(s, id, 0, i, ResourceBlockers(s.resources[..i], id), ResourceSpots(s.resources[..i], id), [], []);
      }
    }
  }

  lemma FieldsOfOne(s: ProjectSpec, id: ID, i: nat)
    requires i < |s.resources|
    ensures s.resources[i].None? ==> forall p: Spot, c :: p.part == 0 && p.entry == i ==> !BlocksAt(s, id, p, c)
    ensures s.resources[i].Some? ==>
      var b, bt := FieldBlockers(s.resources[i].value.fields, s.resources[i].value.id, id), FieldSpots(s.resources[i].value.fields, i, id);
      && |bt| == |b| && Ascends(bt)
      && (forall m :: 0 <= m < |bt| ==> bt[m].part == 0 && bt[m].entry == i && BlocksAt(s, id, bt[m], b[m]))
      && forall p: Spot, c :: p.part == 0 && p.entry == i && BlocksAt(s, id, p, c) ==> p in bt
  {
    if s.resources[i].Some? {
      FieldSpotsAre(s.resources[i].value.fields, s.resources[i].value.id, i, id);
      hide FieldBlockers, FieldSpots, Ascends;
      var r := s.resources[i].value;
      var bt := FieldSpots(r.fields, i, id);
      forall p: Spot, c | p.part == 0 && p.entry == i && BlocksAt(s, id, p, c) ensures p in bt {
        assert FieldRefers(r.fields[p.item], id);
        assert p == Spot(0, i, p.item, 0);
      }
    }
  }

  lemma {:induction false} PageSpotsAre(s: ProjectSpec, id: ID, n: nat)
    requires n <= |s.pages|
    ensures PartPlaces(s, id, 1, n, PageBlockers(s.pages[..n], id), PageSpots(s.pages[..n], id))
  {
    hide OnePageBlockers, OnePageSpots, BlocksAt;
    if n > 0 {
      var i := n - 1;
      PageSpotsAre(s, id, i);
      assert s.pages[..n][..i] == s.pages[..i];
      SpotsOfOne(s, id, i);
      if s.pages[i].Some? {
        var p := s.pages[i].value;
        PartGrows(s, id, 1, i, PageBlockers(s.pages[..i], id), PageSpots(s.pages[..i], id), OnePageBlockers(p, id), OnePageSpots(p, i, id));
      } else {
        PartGrows(s, id, 1, i, PageBlockers(s.pages[..i], id), PageSpots(s.pages[..i], id), [], []);
      }
    }
  }

  lemma TargetsPoint(d: DashboardConfig, j: nat, id: ID)
    ensures CardPoints(d, j, id) <==> j < |CardTargets(d)| && CardTargets(d)[j] == id
  {
  }

  lemma SpotsOfOne(s: ProjectSpec, id: ID, i: nat)
    requires i < |s.pages|
    ensures s.pages[i].None? ==> forall p: Spot, c :: p.part == 1 && p.entry == i ==> !BlocksAt(s, id, p, c)
    ensures s.pages[i].Some? ==>
      var b, bt := OnePageBlockers(s.pages[i].value, id), OnePageSpots(s.pages[i].value, i, id);
      && |bt| == |b| && Ascends(bt)
      && (forall m :: 0 <= m < |bt| ==> bt[m].part == 1 && bt[m].entry == i && BlocksAt(s, id, bt[m], b[m]))
      && forall p: Spot, c :: p.part == 1 && p.entry == i && BlocksAt(s, id, p, c) ==> p in bt
  {
    hide CardTargets, CardPoints;
    if s.pages[i].Some? {
      var p := s.pages[i].value;
      var bound := if p.resource == id then [Spot(1, i, 0, 0)] else [];
      if p.dashboard.Some? {
        var targets := CardTargets(p.dashboard.value);
        CardSpotsAre(targets, p.id, i, id);
        forall j: nat ensures CardPoints(p.dashboard.value, j, id) <==> j < |targets| && targets[j] == id {
          TargetsPoint(p.dashboard.value, j, id);
        }
        AscendsConcat(bound, CardSpots(targets, i, id));
      }
      var bt := OnePageSpots(p, i, id);
      forall q: Spot, c | q.part == 1 && q.entry == i && BlocksAt(s, id, q, c) ensures q in bt {
        assert q == if q.item == 0 then Spot(1, i, 0, 0) else Spot(1, i, 1, q.inner);
        if q.item == 0 { assert bt[0] == q; }
      }
    }
  }

  /** The loops list every reference to the resource, in order. */
  lemma BlockersAreListed(s: ProjectSpec, id: ID)
    ensures Lists(s, id, ResourceBlockers(s.resources, id) + PageBlockers(s.pages, id))
  {
    hide ResourceBlockers, PageBlockers, ResourceSpots, PageSpots;
    ResourceSpotsAre(s, id, |s.resources|);
    PageSpotsAre(s, id, |s.pages|);
    assert s.resources[..|s.resources|] == s.resources && s.pages[..|s.pages|] == s.pages;
    PartsAreListed(s, id, ResourceBlockers(s.resources, id), ResourceSpots(s.resources, id),
      PageBlockers(s.pages, id), PageSpots(s.pages, id));
  }

  lemma PartsAreListed(s: ProjectSpec, id: ID, a: seq<Blocker>, at: seq<Spot>, b: seq<Blocker>, bt: seq<Spot>)
    requires PartPlaces(s, id, 0, |s.resources|, a, at) && PartPlaces(s, id, 1, |s.pages|, b, bt)
    ensures Lists(s, id, a + b)
  {
    OnlyTwoParts(s, id);
    hide BlocksAt;
    forall i, j | 0 <= i < |at| && 0 <= j < |bt| ensures Sooner(at[i], bt[j]) {}
    hide Sooner;
    AscendsConcat(at, bt);
    hide Ascends;
    var all, spots := a + b, at + bt;
    forall m | 0 <= m < |spots| ensures BlocksAt(s, id, spots[m], all[m]) {
      if m < |at| { assert spots[m] == at[m] && all[m] == a[m]; }
      else { assert spots[m] == bt[m - |at|] && all[m] == b[m - |at|]; }
    }
    forall p: Spot, c | BlocksAt(s, id, p, c) ensures p in spots {
      if p.part == 0 { assert p in at; } else { assert p in bt; }
    }
    assert ListsAt(s, id, all, spots);
  }

  lemma OnlyTwoParts(s: ProjectSpec, id: ID)
    ensures forall p: Spot, b :: BlocksAt(s, id, p, b) ==>
      (p.part == 0 && p.entry < |s.resources|) || (p.part == 1 && p.entry < |s.pages|)
  {
    hide CardPoints;
  }

  /** What is reported of a lost resource. */
  ghost predicate Reports(candidate: Option<ProjectSpec>, r: Resource, d: DeletedResource) {
    && d.id == r.id && d.codeName == r.codeName && d.caption == r.caption && d.hadExtension == (r.hooks != [])
    && if candidate.None? then d.blockers == [] else Lists(candidate.value, r.id, d.blockers)
  }

  /** The deletions are about the resources at these positions: those the candidate lost, all of
      them, in order. */
  ghost predicate ReportsAt(current: seq<Option<Resource>>, candidate: Option<ProjectSpec>, ds: seq<DeletedResource>, at: seq<nat>) {
    && |at| == |ds|
    && (forall i, j :: 0 <= i < j < |at| ==> at[i] < at[j])
    && (forall n :: 0 <= n < |at| ==>
          at[n] < |current| && Lost(current[at[n]], candidate) && Reports(candidate, current[at[n]].value, ds[n]))
    && forall k: nat :: k < |current| && Lost(current[k], candidate) ==> k in at
  }

  ghost predicate Lost(r: Option<Resource>, candidate: Option<ProjectSpec>) {
    r.Some? && (candidate.None? || forall j :: 0 <= j < |candidate.value.resources| && candidate.value.resources[j].Some? ==>
      candidate.value.resources[j].value.id != r.value.id)
  }

  lemma LostExactly(r: Resource, candidate: Option<ProjectSpec>)
    ensures Lost(Some(r), candidate) <==> !Survives(candidate, r.id)
  {
    if Survives(candidate, r.id) {
      var found := FindResource(candidate.value.resources, r.id);
      var j :| 0 <= j < |candidate.value.resources| && candidate.value.resources[j] == found;
    }
  }

  lemma GoneReports(candidate: Option<ProjectSpec>, r: Resource)
    ensures Reports(candidate, r, Gone(candidate, r))
  {
    hide Lists, ResourceBlockers, PageBlockers;
    if candidate.Some? { BlockersAreListed(candidate.value, r.id); }
  }

  lemma {:induction false} DeletionsReport(current: seq<Option<Resource>>, candidate: Option<ProjectSpec>) returns (at: seq<nat>)
    ensures ReportsAt(current, candidate, Deletions(current, candidate), at)
  {
    at := [];
    if current != [] {
      hide ReportsAt, Survives, Gone;
      var n := |current| - 1;
      at := DeletionsReport(current[..n], candidate);
      at := ReportsGrow(current, candidate, Deletions(current[..n], candidate), at);
    }
  }

  lemma ReportsGrow(current: seq<Option<Resource>>, candidate: Option<ProjectSpec>, ds: seq<DeletedResource>, at: seq<nat>)
      returns (more: seq<nat>)
    requires current != [] && ReportsAt(current[..|current| - 1], candidate, ds, at)
    ensures
      var last := current[|current| - 1];
      ReportsAt(current, candidate,
        ds + if last.Some? && !Survives(candidate, last.value.id) then [Gone(candidate, last.value)] else [], more)
  {
    hide Reports, Lost, Survives, Gone;
    var n := |current| - 1;
    assert forall i :: 0 <= i < n ==> current[..n][i] == current[i];
    more := at;
    if current[n].Some? {
      LostExactly(current[n].value, candidate);
      GoneReports(candidate, current[n].value);
      if Lost(current[n], candidate) { more := at + [n]; }
    } else {
      NothingLost(candidate);
    }
  }

  lemma NothingLost(candidate: Option<ProjectSpec>)
    ensures !Lost(None, candidate)
  {
  }

  // ----- No blocker, said as: nothing in the candidate refers to the resource -----

  ghost predicate FieldRefers(f: Option<Field>, id: ID) {
    f.Some? && f.value.kind.TBelongsTo? && f.value.target == id
  }

  ghost predicate ResourceRefers(r: Option<Resource>, id: ID) {
    r.Some? && exists k :: 0 <= k < |r.value.fields| && FieldRefers(r.value.fields[k], id)
  }

  ghost predicate PageRefers(p: Option<Page>, id: ID) {
    p.Some? && (p.value.resource == id || (p.value.dashboard.Some? && id in CardTargets(p.value.dashboard.value)))
  }

  ghost predicate Unreferenced(s: ProjectSpec, id: ID) {
    && (forall i :: 0 <= i < |s.resources| ==> !ResourceRefers(s.resources[i], id))
    && (forall i :: 0 <= i < |s.pages| ==> !PageRefers(s.pages[i], id))
  }

  lemma {:induction false} NoFieldBlockers(fields: seq<Option<Field>>, owner: ID, id: ID)
    ensures FieldBlockers(fields, owner, id) == [] <==> forall k :: 0 <= k < |fields| ==> !FieldRefers(fields[k], id)
  {
    if fields != [] {
      var n := |fields| - 1;
      NoFieldBlockers(fields[..n], owner, id);
      assert forall k :: 0 <= k < n ==> fields[..n][k] == fields[k];
    }
  }

  lemma {:induction false} NoCardBlockers(targets: seq<ID>, page: ID, id: ID)
    ensures CardBlockers(targets, page, id) == [] <==> id !in targets
  {
    if targets != [] {
      var n := |targets| - 1;
      NoCardBlockers(targets[..n], page, id);
      assert targets == targets[..n] + [targets[n]];
    }
  }

  lemma {:induction false} NoResourceBlockers(rs: seq<Option<Resource>>, id: ID)
    ensures ResourceBlockers(rs, id) == [] <==> forall i :: 0 <= i < |rs| ==> !ResourceRefers(rs[i], id)
  {
    hide ResourceRefers;
    if rs != [] {
      var n := |rs| - 1;
      NoResourceBlockers(rs[..n], id);
      assert forall i :: 0 <= i < n ==> rs[..n][i] == rs[i];
      OneResourceRefers(rs[n], id);
    }
  }

  lemma OneResourceRefers(r: Option<Resource>, id: ID)
    ensures !ResourceRefers(r, id) <==> r.None? || FieldBlockers(r.value.fields, r.value.id, id) == []
  {
    if r.Some? { NoFieldBlockers(r.value.fields, r.value.id, id); }
  }

  lemma {:induction false} NoPageBlockers(ps: seq<Option<Page>>, id: ID)
    ensures PageBlockers(ps, id) == [] <==> forall i :: 0 <= i < |ps| ==> !PageRefers(ps[i], id)
  {
    hide CardTargets;
    if ps != [] {
      var n := |ps| - 1;
      NoPageBlockers(ps[..n], id);
      assert forall i :: 0 <= i < n ==> ps[..n][i] == ps[i];
      if ps[n].Some? && ps[n].value.dashboard.Some? {
        NoCardBlockers(CardTargets(ps[n].value.dashboard.value), ps[n].value.id, id);
      }
    }
  }

  lemma NoBlockers(s: ProjectSpec, id: ID)
    ensures ResourceBlockers(s.resources, id) + PageBlockers(s.pages, id) == [] <==> Unreferenced(s, id)
  {
    NoResourceBlockers(s.resources, id);
    NoPageBlockers(s.pages, id);
  }

  lemma {:induction false} DeletionsMembers(current: seq<Option<Resource>>, candidate: Option<ProjectSpec>)
    ensures forall d :: d in Deletions(current, candidate) <==>
      exists i :: 0 <= i < |current| && current[i].Some? && !Survives(candidate, current[i].value.id) &&
        d == Gone(candidate, current[i].value)
  {
    hide Gone, Survives;
    if current != [] {
      var n := |current| - 1;
      var init := current[..n];
      DeletionsMembers(init, candidate);
      forall d ensures d in Deletions(current, candidate) <==>
        exists i :: 0 <= i < |current| && current[i].Some? && !Survives(candidate, current[i].value.id) &&
          d == Gone(candidate, current[i].value)
      {
        if d in Deletions(init, candidate) {
          var i :| 0 <= i < n && init[i].Some? && !Survives(candidate, init[i].value.id) && d == Gone(candidate, init[i].value);
          assert current[i] == init[i];
        }
        if i :| 0 <= i < |current| && current[i].Some? && !Survives(candidate, current[i].value.id) && d == Gone(candidate, current[i].value) {
          if i < n { assert init[i] == current[i]; }
        }
      }
    }
  }

  // ----- Removing resources -----

  function RemoveResources(rs: seq<Option<Resource>>, ids: set<ID>): seq<Option<Resource>> {
    if rs == [] then []
    else (if rs[0].Some? && rs[0].value.id in ids then [] else [rs[0]]) + RemoveResources(rs[1..], ids)
  }

  lemma {:induction false} FindAfterRemoval(rs: seq<Option<Resource>>, ids: set<ID>, id: ID)
    ensures FindResource(RemoveResources(rs, ids), id) == if id in ids then None else FindResource(rs, id)
  {
    if rs != [] {
      FindAfterRemoval(rs[1..], ids, id);
      if rs[0].Some? && rs[0].value.id in ids {
        assert RemoveResources(rs, ids) == RemoveResources(rs[1..], ids);
      } else {
        assert RemoveResources(rs, ids)[1..] == RemoveResources(rs[1..], ids);
      }
    }
  }

  lemma {:induction false} RemovalMembers(rs: seq<Option<Resource>>, ids: set<ID>)
    ensures forall r :: r in RemoveResources(rs, ids) ==> r in rs
    ensures forall r :: r in rs && (r.None? || r.value.id !in ids) ==> r in RemoveResources(rs, ids)
  {
    if rs != [] {
      RemovalMembers(rs[1..], ids);
      assert rs == [rs[0]] + rs[1..];
    }
  }

  lemma UniqueTail<K>(key: Resource -> Option<K>, rs: seq<Option<Resource>>)
    requires rs != [] && Unique(key, rs)
    ensures Unique(key, rs[1..])
    ensures rs[0].Some? && key(rs[0].value).Some? ==> !HasKey(key, rs[1..], key(rs[0].value).value)
  {
    var rest := rs[1..];
    forall i, j | 0 <= i < j < |rest| && rest[i].Some? && rest[j].Some? && key(rest[i].value).Some?
      ensures key(rest[i].value) != key(rest[j].value)
    {
      assert rs[i + 1].Some? && rs[j + 1].Some?;
    }
    forall i | 0 <= i < |rest| && rest[i].Some? && rs[0].Some? && key(rs[0].value).Some?
      ensures key(rest[i].value) != key(rs[0].value)
    {
      assert rs[i + 1] == rest[i];
    }
  }

  lemma UniqueCons<K>(key: Resource -> Option<K>, r: Option<Resource>, rest: seq<Option<Resource>>)
    requires Unique(key, rest)
    requires r.Some? && key(r.value).Some? ==> !HasKey(key, rest, key(r.value).value)
    ensures Unique(key, [r] + rest)
  {
    var out := [r] + rest;
    forall i, j | 0 <= i < j < |out| && out[i].Some? && out[j].Some? && key(out[i].value).Some?
      ensures key(out[i].value) != key(out[j].value)
    {
      assert out[j] == rest[j - 1];
      if i > 0 { assert out[i] == rest[i - 1]; }
    }
  }

  lemma KeysAfterRemoval<K>(key: Resource -> Option<K>, rs: seq<Option<Resource>>, ids: set<ID>, k: K)
    requires HasKey(key, RemoveResources(rs, ids), k)
    ensures HasKey(key, rs, k)
  {
    RemovalMembers(rs, ids);
    var out := RemoveResources(rs, ids);
    var i :| 0 <= i < |out| && out[i].Some? && key(out[i].value) == Some(k);
    assert out[i] in rs;
    var j :| 0 <= j < |rs| && rs[j] == out[i];
  }

  lemma {:induction false} UniqueAfterRemoval<K>(key: Resource -> Option<K>, rs: seq<Option<Resource>>, ids: set<ID>)
    requires Unique(key, rs)
    ensures Unique(key, RemoveResources(rs, ids))
  {
    if rs != [] {
      hide Unique, HasKey;
      var rest := rs[1..];
      UniqueTail(key, rs);
      UniqueAfterRemoval(key, rest, ids);
      var tail := RemoveResources(rest, ids);
      if rs[0].Some? && rs[0].value.id in ids {
        assert RemoveResources(rs, ids) == tail;
      } else {
        assert RemoveResources(rs, ids) == [rs[0]] + tail;
        if rs[0].Some? && key(rs[0].value).Some? && HasKey(key, tail, key(rs[0].value).value) {
          KeysAfterRemoval(key, rest, ids, key(rs[0].value).value);
        }
        UniqueCons(key, rs[0], tail);
      }
    }
  }

  // Distinct IDs stay distinct when entries go: counted as multisets.

  lemma DistinctByCount<T>(xs: seq<T>)
    ensures Distinct(xs) <==> forall x :: multiset(xs)[x] <= 1
  {
    if Distinct(xs) {
      forall x ensures multiset(xs)[x] <= 1 {
        CountAtMostOne(xs, x);
      }
    }
    if forall x :: multiset(xs)[x] <= 1 {
      forall i, j | 0 <= i < j < |xs| ensures xs[i] != xs[j] {
        if xs[i] == xs[j] { MultiplicityTwo(xs, i, j); }
      }
    }
  }

  lemma {:induction false} CountAtMostOne<T>(xs: seq<T>, x: T)
    requires Distinct(xs)
    ensures multiset(xs)[x] <= 1
  {
    if xs != [] {
      var n := |xs| - 1;
      assert xs == xs[..n] + [xs[n]];
      DistinctAppend(xs[..n], xs[n]);
      CountAtMostOne(xs[..n], x);
      assert multiset(xs) == multiset(xs[..n]) + multiset{xs[n]};
    }
  }

  function EntryIDs(r: Option<Resource>): seq<ID> {
    if r.Some? then [r.value.id] + FieldIDs(r.value.fields) + HookIDs(r.value.hooks) else []
  }

  lemma {:induction false} ResourceIDsCons(r: Option<Resource>, rest: seq<Option<Resource>>)
    ensures ResourceIDs([r] + rest) == EntryIDs(r) + ResourceIDs(rest)
  {
    hide FieldIDs, HookIDs;
    var all := [r] + rest;
    if rest == [] {
      assert all == [r] && all[..0] == [];
    } else {
      var n := |rest| - 1;
      assert all[..|all| - 1] == [r] + rest[..n];
      ResourceIDsCons(r, rest[..n]);
    }
  }

  lemma {:induction false} IDsAfterRemoval(rs: seq<Option<Resource>>, ids: set<ID>)
    ensures multiset(ResourceIDs(RemoveResources(rs, ids))) <= multiset(ResourceIDs(rs))
  {
    hide FieldIDs, HookIDs, ResourceIDs;
    if rs != [] {
      IDsAfterRemoval(rs[1..], ids);
      assert rs == [rs[0]] + rs[1..];
      ResourceIDsCons(rs[0], rs[1..]);
      if !(rs[0].Some? && rs[0].value.id in ids) {
        ResourceIDsCons(rs[0], RemoveResources(rs[1..], ids));
      } else {
        assert RemoveResources(rs, ids) == RemoveResources(rs[1..], ids);
      }
    }
  }

  // ----- The gate and the validator agree -----

  /** A candidate that only deletes: the current spec without the resources whose IDs are given. */
  function Without(s: ProjectSpec, ids: set<ID>): ProjectSpec {
    s.(resources := RemoveResources(s.resources, ids))
  }

  ghost predicate GatePasses(current: ProjectSpec, candidate: ProjectSpec) {
    forall d :: d in Deletions(current.resources, Some(candidate)) ==> !d.Blocked()
  }

  lemma GateMeansUnreferenced(s: ProjectSpec, ids: set<ID>)
    ensures GatePasses(s, Without(s, ids)) <==>
      forall i :: 0 <= i < |s.resources| && s.resources[i].Some? && s.resources[i].value.id in ids ==>
        Unreferenced(Without(s, ids), s.resources[i].value.id)
  {
    var c := Without(s, ids);
    DeletionsMembers(s.resources, Some(c));
    forall i | 0 <= i < |s.resources| && s.resources[i].Some?
      ensures Survives(Some(c), s.resources[i].value.id) <==> s.resources[i].value.id !in ids
      ensures !Gone(Some(c), s.resources[i].value).Blocked() <==> Unreferenced(c, s.resources[i].value.id)
    {
      FindAfterRemoval(s.resources, ids, s.resources[i].value.id);
      NoBlockers(c, s.resources[i].value.id);
    }
    hide Unreferenced, Gone, Survives;
    if GatePasses(s, c) {
      forall i | 0 <= i < |s.resources| && s.resources[i].Some? && s.resources[i].value.id in ids
        ensures Unreferenced(c, s.resources[i].value.id)
      {
        assert Gone(Some(c), s.resources[i].value) in Deletions(s.resources, Some(c));
      }
    }
  }

  ghost predicate Spared(s: ProjectSpec, ids: set<ID>, id: ID) {
    FindResource(s.resources, id).Some? && id !in ids
  }

  ghost predicate TargetsSpared(s: ProjectSpec, ids: set<ID>, r: Resource) {
    forall k :: 0 <= k < |r.fields| && r.fields[k].Some? && r.fields[k].value.kind.TBelongsTo? ==>
      Spared(s, ids, r.fields[k].value.target)
  }

  lemma SparedIsFound(s: ProjectSpec, ids: set<ID>, id: ID)
    ensures Spared(s, ids, id) <==> FindResource(Without(s, ids).resources, id).Some?
    ensures Spared(s, ids, id) ==> FindResource(Without(s, ids).resources, id) == FindResource(s.resources, id)
  {
    FindAfterRemoval(s.resources, ids, id);
  }

  lemma ResourceKept(lib: Library, s: ProjectSpec, ids: set<ID>, r: Resource)
    requires ResourceOK(lib, s, r)
    requires TargetsSpared(s, ids, r)
    ensures ResourceOK(lib, Without(s, ids), r)
  {
    hide DefaultOK, ValidID, IsBlank, IsStorageName, IsExportedGoIdent, BehaviorOK, HooksOK, Unique, Spared;
    var c := Without(s, ids);
    forall k | 0 <= k < |r.fields| && r.fields[k].Some?
      ensures FieldOK(lib, c, r.fields[k].value)
    {
      assert FieldOK(lib, s, r.fields[k].value);
      SparedIsFound(s, ids, r.fields[k].value.target);
    }
  }

  lemma DashboardKept(s: ProjectSpec, ids: set<ID>, d: DashboardConfig)
    requires DashboardOK(s, d)
    requires forall t :: t in CardTargets(d) ==> Spared(s, ids, t)
    ensures DashboardOK(Without(s, ids), d)
  {
    hide IsBlank, RecencyOK, Spared;
    var c := Without(s, ids);
    var n, m := |d.countCards|, |d.recentLists|;
    forall i | 0 <= i < n ensures CardOK(c, d.countCards[i]) {
      assert CardTargets(d)[i] == d.countCards[i].resource;
      SparedIsFound(s, ids, d.countCards[i].resource);
    }
    forall i | 0 <= i < m ensures RecentOK(c, d.recentLists[i]) {
      assert CardTargets(d)[n + i] == d.recentLists[i].resource;
      SparedIsFound(s, ids, d.recentLists[i].resource);
    }
    forall i | 0 <= i < |d.aggregateCards| ensures AggregateOK(c, d.aggregateCards[i]) {
      assert CardTargets(d)[n + m + i] == d.aggregateCards[i].resource;
      assert AggregateOK(s, d.aggregateCards[i]);
      SparedIsFound(s, ids, d.aggregateCards[i].resource);
    }
  }

  lemma PageKept(s: ProjectSpec, ids: set<ID>, p: Page)
    requires PageOK(s, p)
    requires !p.kind.DashboardPage? ==> Spared(s, ids, p.resource)
    requires p.dashboard.Some? ==> forall t :: t in CardTargets(p.dashboard.value) ==> Spared(s, ids, t)
    ensures PageOK(Without(s, ids), p)
  {
    hide ValidID, IsBlank, IsSlug, TableOK, FormOK, DashboardOK, Spared;
    SparedIsFound(s, ids, p.resource);
    if p.dashboard.Some? { DashboardKept(s, ids, p.dashboard.value); }
  }

  /** In a valid spec every card points at an existing resource. */
  lemma CardsPointSomewhere(s: ProjectSpec, d: DashboardConfig, t: ID)
    requires DashboardOK(s, d) && t in CardTargets(d)
    ensures FindResource(s.resources, t).Some?
  {
    hide IsBlank, RecencyOK;
    var k :| 0 <= k < |CardTargets(d)| && CardTargets(d)[k] == t;
    var n, m := |d.countCards|, |d.recentLists|;
    if k < n { assert CardOK(s, d.countCards[k]); }
    else if k < n + m { assert RecentOK(s, d.recentLists[k - n]); }
    else { assert AggregateOK(s, d.aggregateCards[k - n - m]); }
  }

  /** When no surviving entry refers to a deleted resource, every reference is spared. */
  lemma PassingGateSpares(lib: Library, s: ProjectSpec, ids: set<ID>)
    requires WellFormedSpec(lib, s) && GatePasses(s, Without(s, ids))
    ensures forall i :: 0 <= i < |Without(s, ids).resources| && Without(s, ids).resources[i].Some? ==>
      TargetsSpared(s, ids, Without(s, ids).resources[i].value)
    ensures forall i :: 0 <= i < |s.pages| && s.pages[i].Some? ==> var p := s.pages[i].value;
      && (!p.kind.DashboardPage? ==> Spared(s, ids, p.resource))
      && (p.dashboard.Some? ==> forall t :: t in CardTargets(p.dashboard.value) ==> Spared(s, ids, t))
  {
    hide ResourceIDs, IDs, Unique, BehaviorOK, HooksOK, DefaultOK, NavigationOK, BrandingOK, ProjectOK;
    hide CardTargets, DashboardOK, TableOK, FormOK, ValidID, IsBlank, IsSlug, IsStorageName, IsExportedGoIdent, Distinct;
    var c := Without(s, ids);
    GateMeansUnreferenced(s, ids);
    RemovalMembers(s.resources, ids);
    forall id | FindResource(s.resources, id).Some? && id in ids
      ensures Unreferenced(c, id)
    {
      var r := FindResource(s.resources, id);
      var i :| 0 <= i < |s.resources| && s.resources[i] == r;
    }
    hide GatePasses, RemoveResources;
    forall i, k | 0 <= i < |c.resources| && c.resources[i].Some? && 0 <= k < |c.resources[i].value.fields|
        && c.resources[i].value.fields[k].Some? && c.resources[i].value.fields[k].value.kind.TBelongsTo?
      ensures Spared(s, ids, c.resources[i].value.fields[k].value.target)
    {
      var r := c.resources[i].value;
      assert c.resources[i] in s.resources;
      var n :| 0 <= n < |s.resources| && s.resources[n] == c.resources[i];
      assert ResourceOK(lib, s, r) && FieldOK(lib, s, r.fields[k].value);
      var t := r.fields[k].value.target;
      assert FieldRefers(r.fields[k], t) && ResourceRefers(c.resources[i], t);
    }
    forall i | 0 <= i < |s.pages| && s.pages[i].Some?
      ensures !s.pages[i].value.kind.DashboardPage? ==> Spared(s, ids, s.pages[i].value.resource)
      ensures s.pages[i].value.dashboard.Some? ==>
        forall t :: t in CardTargets(s.pages[i].value.dashboard.value) ==> Spared(s, ids, t)
    {
      var p := s.pages[i].value;
      assert PageOK(s, p) && PageRefers(s.pages[i], p.resource);
      if p.dashboard.Some? {
        forall t | t in CardTargets(p.dashboard.value) ensures Spared(s, ids, t) {
          CardsPointSomewhere(s, p.dashboard.value, t);
          assert PageRefers(s.pages[i], t);
        }
      }
    }
  }

  lemma IDsStayDistinct(s: ProjectSpec, ids: set<ID>)
    requires Distinct(AllIDs(s))
    ensures Distinct(AllIDs(Without(s, ids)))
  {
    hide ResourceIDs, IDs, Distinct;
    var c := Without(s, ids);
    DistinctByCount(AllIDs(s));
    DistinctByCount(AllIDs(c));
    IDsAfterRemoval(s.resources, ids);
    assert multiset(AllIDs(c)) <= multiset(AllIDs(s));
  }

  lemma PassingGateIsValid(lib: Library, s: ProjectSpec, ids: set<ID>)
    requires WellFormedSpec(lib, s) && GatePasses(s, Without(s, ids))
    ensures WellFormedSpec(lib, Without(s, ids))
  {
    hide ResourceOK, PageOK, Unique, GatePasses, AllIDs, Distinct, BrandingOK, ProjectOK, Spared, CardTargets;
    var c := Without(s, ids);
    PassingGateSpares(lib, s, ids);
    RemovalMembers(s.resources, ids);
    forall i | 0 <= i < |c.resources|
      ensures c.resources[i].Some? && ResourceOK(lib, c, c.resources[i].value)
    {
      assert c.resources[i] in s.resources;
      var n :| 0 <= n < |s.resources| && s.resources[n] == c.resources[i];
      ResourceKept(lib, s, ids, c.resources[i].value);
    }
    UniqueAfterRemoval(ResourceCode, s.resources, ids);
    UniqueAfterRemoval(ResourceStorage, s.resources, ids);
    forall i | 0 <= i < |s.pages| && s.pages[i].Some?
      ensures PageOK(c, s.pages[i].value)
    {
      PageKept(s, ids, s.pages[i].value);
    }
    IDsStayDistinct(s, ids);
    assert NavigationOK(c, c.navigation) && BrandingOK(c.branding) && ProjectOK(c) by { SameShell(s, ids); }
  }

  lemma SameShell(s: ProjectSpec, ids: set<ID>)
    ensures ProjectOK(s) ==> ProjectOK(Without(s, ids))
    ensures NavigationOK(s, s.navigation) ==> NavigationOK(Without(s, ids), s.navigation)
  {
    hide ValidID, IsBlank, IsSlug;
  }

  lemma ValidIsUnreferenced(lib: Library, s: ProjectSpec, ids: set<ID>, id: ID)
    requires WellFormedSpec(lib, Without(s, ids)) && id in ids && id != ""
    ensures Unreferenced(Without(s, ids), id)
  {
    hide ResourceIDs, IDs, Unique, BehaviorOK, HooksOK, DefaultOK, NavigationOK, BrandingOK, ProjectOK, Distinct;
    hide CardTargets, DashboardOK, TableOK, FormOK, ValidID, IsBlank, IsSlug, IsStorageName, IsExportedGoIdent;
    var c := Without(s, ids);
    FindAfterRemoval(s.resources, ids, id);
    hide RemoveResources, Find;
    forall i | 0 <= i < |c.resources| ensures !ResourceRefers(c.resources[i], id) {
      var r := c.resources[i].value;
      assert ResourceOK(lib, c, r);
      forall k | 0 <= k < |r.fields| ensures !FieldRefers(r.fields[k], id) {
        assert FieldOK(lib, c, r.fields[k].value);
      }
    }
    forall i | 0 <= i < |c.pages| ensures !PageRefers(c.pages[i], id) {
      var p := c.pages[i].value;
      assert PageOK(c, p);
      if p.dashboard.Some? && id in CardTargets(p.dashboard.value) {
        CardsPointSomewhere(c, p.dashboard.value, id);
        assert false;
      }
    }
  }

  /** The gate passes exactly when the validator accepts: for a valid current spec and a
      candidate that removes any set of resources from it. */
  lemma GateEqualsValidator(lib: Library, s: ProjectSpec, ids: set<ID>)
    requires WellFormedSpec(lib, s)
    ensures GatePasses(s, Without(s, ids)) <==> WellFormedSpec(lib, Without(s, ids))
  {
    hide PageOK, FieldsOK, PagesOK, GatePasses, Unreferenced, RemoveResources, NavigationOK;
    var c := Without(s, ids);
    if GatePasses(s, c) { PassingGateIsValid(lib, s, ids); }
    if WellFormedSpec(lib, c) {
      forall i | 0 <= i < |s.resources| && s.resources[i].Some? && s.resources[i].value.id in ids
        ensures Unreferenced(c, s.resources[i].value.id)
      {
        assert ResourceOK(lib, s, s.resources[i].value);
        ValidIsUnreferenced(lib, s, ids, s.resources[i].value.id);
      }
      GateMeansUnreferenced(s, ids);
    }
  }

  lemma {:induction false} OneIsRemoved(rs: seq<Option<Resource>>, k: nat)
    requires k < |rs| && rs[k].Some?
    requires forall j :: 0 <= j < |rs| && j != k && rs[j].Some? ==> rs[j].value.id != rs[k].value.id
    ensures RemoveResources(rs, {rs[k].value.id}) == rs[..k] + rs[k + 1..]
  {
    if k == 0 {
      NoneIsRemoved(rs[1..], rs[0].value.id);
    } else {
      OneIsRemoved(rs[1..], k - 1);
      assert rs[..k] + rs[k + 1..] == [rs[0]] + (rs[1..][..k - 1] + rs[1..][k..]);
    }
  }

  lemma {:induction false} NoneIsRemoved(rs: seq<Option<Resource>>, id: ID)
    requires forall j :: 0 <= j < |rs| && rs[j].Some? ==> rs[j].value.id != id
    ensures RemoveResources(rs, {id}) == rs
  {
    if rs != [] { NoneIsRemoved(rs[1..], id); }
  }

  /** t is s without its k-th resource, which has the ID, and otherwise the same. */
  ghost predicate OnlyDrops(s: ProjectSpec, t: ProjectSpec, id: ID, k: nat) {
    && k < |s.resources| && s.resources[k].Some? && s.resources[k].value.id == id
    && t == s.(resources := s.resources[..k] + s.resources[k + 1..])
  }

  lemma WithoutDropsOne(lib: Library, s: ProjectSpec, id: ID)
    requires WellFormedSpec(lib, s) && FindResource(s.resources, id).Some?
    ensures exists k: nat :: OnlyDrops(s, Without(s, {id}), id, k)
  {
    hide WellFormedSpec, RemoveResources;
    Identity.ValidIsNamed(lib, s);
    var found := FindResource(s.resources, id);
    var k :| 0 <= k < |s.resources| && s.resources[k] == found;
    forall j | 0 <= j < |s.resources| && j != k && s.resources[j].Some? ensures s.resources[j].value.id != id {
      if j < k { assert KeyOfResource(s.resources[j].value) != KeyOfResource(s.resources[k].value); }
      else { assert KeyOfResource(s.resources[k].value) != KeyOfResource(s.resources[j].value); }
    }
    OneIsRemoved(s.resources, k);
    assert OnlyDrops(s, Without(s, {id}), id, k);
  }

  datatype Decision =
    | NoSpec
    | NotFound
    | Refused(blockers: seq<Blocker>, hadExtension: bool)
    | Invalid
    | Committed(candidate: ProjectSpec, hadExtension: bool)

  /** What DeleteResource decides from the locked head. On a valid head it either reports
      blockers, exactly when the remaining spec would be invalid, or commits: its diagnostics
      branch is never taken. */
  method DeleteResource(lib: Library, current: Option<ProjectSpec>, id: ID) returns (d: Decision)
    ensures d.NoSpec? <==> current.None?
    ensures current.Some? ==> (d.NotFound? <==> FindResource(current.value.resources, id).None?)
    ensures d.Committed? ==> d.candidate == Without(current.value, {id}) && WellFormedSpec(lib, d.candidate)
    ensures d.Committed? ==> d.hadExtension == (FindResource(current.value.resources, id).value.hooks != [])
    ensures d.Refused? ==>
      var c := Without(current.value, {id});
      Lists(c, id, d.blockers) && d.blockers != []
    ensures d.Committed? && WellFormedSpec(lib, current.value) ==>
      exists k: nat :: OnlyDrops(current.value, d.candidate, id, k)
    ensures current.Some? && WellFormedSpec(lib, current.value) && FindResource(current.value.resources, id).Some? ==>
      && (d.Committed? <==> WellFormedSpec(lib, Without(current.value, {id})))
      && (d.Refused? <==> !WellFormedSpec(lib, Without(current.value, {id})))
      && !d.Invalid?
  {
    hide WellFormedSpec, Deletions, Thins, Lists, OnlyDrops, ReportsAt;
    if current.None? {
      return NoSpec;
    }
    var target := FindResource(current.value.resources, id);
    if target.None? {
      return NotFound;
    }
    var candidate := Without(current.value, {id});
    var deletions := AnalyzeDeletions(current, Some(candidate));
    var blocked := BlockedDeletions(deletions);
    if WellFormedSpec(lib, current.value) {
      GateEqualsValidator(lib, current.value, {id});
      WithoutDropsOne(lib, current.value, id);
    }
    BlockersAreListed(candidate, id);
    if blocked != [] {
      assert blocked[0] in blocked;
      DeletionsMembers(current.value.resources, Some(candidate));
      ghost var i :| 0 <= i < |current.value.resources| && current.value.resources[i].Some?
        && !Survives(Some(candidate), current.value.resources[i].value.id)
        && blocked[0] == Gone(Some(candidate), current.value.resources[i].value);
      FindAfterRemoval(current.value.resources, {id}, current.value.resources[i].value.id);
      return Refused(blocked[0].blockers, blocked[0].hadExtension);
    }
    var diagnostics := Validator.Validate(lib, Some(candidate));
    if diagnostics != [] {
      return Invalid;
    }
    return Committed(candidate, target.value.hooks != []);
  }
}
