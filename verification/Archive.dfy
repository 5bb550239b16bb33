/** ArchiveExtensions: user code of deleted resources moves out of the build and its origin is
    written to a manifest (internal/compiler/archive.go). Every call may fail or be the last
    before a crash. */
module Archive {
  import opened Text
  import opened Names
  import opened Paths
  import opened Packages
  import opened FileSystem

  datatype Deleted = Deleted(id: ID, codeName: string)

  datatype Entry = Entry(resource: ID, codeName: string, original: string, archived: string)

  datatype Manifest = NoManifest | Unreadable | Listed(entries: seq<Entry>)

  function Entries(m: Manifest): seq<Entry> { if m.Listed? then m.entries else [] }

  datatype World = World(trees: Layout, manifest: Manifest)

  /** What an interrupted os.WriteFile leaves of the manifest: the old bytes, a truncated file
      or the new bytes. */
  datatype Remains = Old | Cut | New

  datatype Fates = Fates(
    statSource: Verdict,
    notDirectory: bool,
    statDest: Verdict,
    mkdir: Verdict,
    rename: Renaming,
    copy: Copying,
    undo: Removal,
    clear: Removal,
    read: Verdict,
    write: Verdict,
    remains: Remains)

  datatype Outcome = Refused | Done | Failed | Crashed

  function Ended(v: Verdict): Outcome
  {
    match v
    case Succeeds => Done
    case Fails => Failed
    case Crashes => Crashed
  }

  function Source(d: Deleted): string { EXTENSIONS_ROOT + "/" + PackageName(d.codeName) }

  function Dest(key: string, d: Deleted): string { ARCHIVE_ROOT + "/" + key + "/" + PackageName(d.codeName) }

  function EntryOf(key: string, d: Deleted): Entry { Entry(d.id, d.codeName, Source(d), Dest(key, d)) }

  /** checkArchiveKey reports no error. */
  predicate KeyOK(key: string) { key != "" && '/' !in key && '\\' !in key && key != "." && key != ".." }

  // ----- One resource -----

  /** moveDir onto a destination that is not there. */
  function Moved(src: Slot, f: Fates): (Slot, Slot, Verdict) {
    if Moves(src, Absent, f.rename) then (Absent, src, RenameVerdict(src, Absent, f.rename))
    else if f.rename.verdict.Crashes? then (src, Absent, Crashes)
    else if !f.rename.crossDevice then (src, Absent, Fails)
    else
      match f.copy.verdict
      case Succeeds => (Removed(src, f.clear), Copied(src, f.copy), f.clear.verdict)
      case Crashes => (src, Copied(src, f.copy), Crashes)
      case Fails =>
        (src, Removed(Copied(src, f.copy), f.undo), if f.undo.verdict.Crashes? then Crashes else Fails)
  }

  /** writeManifest */
  function Recorded(m: Manifest, e: Entry, f: Fates): (Manifest, Verdict) {
    if !f.read.Succeeds? then (m, f.read)
    else if m.Unreadable? then (m, Fails)
    else
      var next := Listed(Entries(m) + [e]);
      if f.write.Succeeds? || f.remains.New? then (next, f.write)
      else if f.remains.Cut? then (Unreadable, f.write)
      else (m, f.write)
  }

  /** The checks before a move: Done when there is nothing left to do, None when it goes on. */
  function Checked(w: World, key: string, d: Deleted, f: Fates): Option<Outcome> {
    if !f.statSource.Succeeds? then Some(Ended(f.statSource))
    else if At(w.trees, Source(d)).Absent? then Some(Done)
    else if f.notDirectory then Some(Failed)
    else if !f.statDest.Succeeds? then Some(Ended(f.statDest))
    else if At(w.trees, Dest(key, d)).Dir? then Some(Failed)
    else if !f.mkdir.Succeeds? then Some(Ended(f.mkdir))
    else None
  }

  /** One turn of the loop; the flag says whether an entry is returned. */
  function One(w: World, key: string, d: Deleted, f: Fates): (World, Outcome, bool) {
    match Checked(w, key, d, f)
    case Some(outcome) => (w, outcome, false)
    case None =>
      var m := Moved(At(w.trees, Source(d)), f);
      var trees := w.trees[Source(d) := m.0][Dest(key, d) := m.1];
      if !m.2.Succeeds? then (w.(trees := trees), Ended(m.2), false)
      else
        var r := Recorded(w.manifest, EntryOf(key, d), f);
        (World(trees, r.0), Ended(r.1), r.1.Succeeds?)
  }

  type Plan = nat -> Fates

  datatype Batch = Batch(world: World, outcome: Outcome, archived: seq<Entry>)

  function All(w: World, key: string, ds: seq<Deleted>, plan: Plan): Batch {
    if ds == [] then Batch(w, Done, [])
    else
      var n := |ds| - 1;
      var prev := All(w, key, ds[..n], plan);
      if !prev.outcome.Done? then prev
      else
        var one := One(prev.world, key, ds[n], plan(n));
        Batch(one.0, one.1, if one.2 then prev.archived + [EntryOf(key, ds[n])] else prev.archived)
  }

  // ----- Conservation -----

  ghost predicate IsSource(ds: seq<Deleted>, p: string) {
    exists k :: 0 <= k < |ds| && Source(ds[k]) == p
  }

  lemma SourcePrefix(ds: seq<Deleted>, n: nat, p: string)
    requires n <= |ds| && IsSource(ds[..n], p)
    ensures IsSource(ds, p)
  {
    var k :| 0 <= k < n && Source(ds[..n][k]) == p;
    assert Source(ds[k]) == p;
  }

  lemma SourceIsNoDest(key: string, d: Deleted, e: Deleted)
    ensures Source(d) != Dest(key, e)
  {
    assert Source(d)[0] == EXTENSIONS_ROOT[0] == 'i';
    assert Dest(key, e)[0] == ARCHIVE_ROOT[0] == '.';
  }

  lemma {:induction false} PrefixInjective(prefix: string, a: string, b: string)
    requires prefix + a == prefix + b
    ensures a == b
  {
    assert (prefix + a)[|prefix|..] == a && (prefix + b)[|prefix|..] == b;
  }

  lemma SourceIffDest(key: string, d: Deleted, e: Deleted)
    ensures Source(d) == Source(e) <==> Dest(key, d) == Dest(key, e)
  {
    if Source(d) == Source(e) {
      PrefixInjective(EXTENSIONS_ROOT + "/", PackageName(d.codeName), PackageName(e.codeName));
    }
    if Dest(key, d) == Dest(key, e) {
      PrefixInjective(ARCHIVE_ROOT + "/" + key + "/", PackageName(d.codeName), PackageName(e.codeName));
    }
  }

  /** Whatever interrupts it, a move keeps the whole tree at one of its two ends. */
  lemma MoveConserves(src: Slot, f: Fates)
    requires src.Dir?
    ensures Moved(src, f).0 == src || Moved(src, f).1 == src
    ensures Moved(src, f).2.Succeeds? ==> Moved(src, f).0.Absent? && Moved(src, f).1 == src
  {
  }

  lemma OneConserves(w: World, key: string, d: Deleted, f: Fates)
    ensures
      var after := One(w, key, d, f).0.trees;
      && (forall p :: p != Source(d) && At(w.trees, p).Dir? ==> At(after, p) == At(w.trees, p))
      && (At(w.trees, Source(d)).Dir? ==>
           At(after, Source(d)) == At(w.trees, Source(d)) || At(after, Dest(key, d)) == At(w.trees, Source(d)))
  {
    SourceIsNoDest(key, d, d);
    if At(w.trees, Source(d)).Dir? { MoveConserves(At(w.trees, Source(d)), f); }
  }

  /** The tree of a slot is where it was, or complete in the archive of a deleted resource
      whose source it was. */
  ghost predicate Kept(before: Layout, after: Layout, key: string, ds: seq<Deleted>, p: string) {
    || At(after, p) == At(before, p)
    || exists k :: 0 <= k < |ds| && Source(ds[k]) == p && At(after, Dest(key, ds[k])) == At(before, p)
  }

  /** However a batch ends, every tree is conserved, and a tree that is not a deleted
      resource's source, an archived one above all, is never written over. */
  lemma {:induction false} AllConserves(w: World, key: string, ds: seq<Deleted>, plan: Plan)
    ensures
      var after := All(w, key, ds, plan).world.trees;
      forall p :: At(w.trees, p).Dir? ==>
        Kept(w.trees, after, key, ds, p) && (!IsSource(ds, p) ==> At(after, p) == At(w.trees, p))
  {
    if ds == [] { return; }
    var n := |ds| - 1;
    var prev := All(w, key, ds[..n], plan);
    AllConserves(w, key, ds[..n], plan);
    var after := All(w, key, ds, plan).world.trees;
    if prev.outcome.Done? { OneConserves(prev.world, key, ds[n], plan(n)); }
    forall p | At(w.trees, p).Dir?
      ensures Kept(w.trees, after, key, ds, p) && (!IsSource(ds, p) ==> At(after, p) == At(w.trees, p))
    {
      if At(prev.world.trees, p) == At(w.trees, p) {
        if p != Source(ds[n]) { assert At(after, p) == At(w.trees, p); }
      } else {
        var k :| 0 <= k < n && Source(ds[..n][k]) == p && At(prev.world.trees, Dest(key, ds[..n][k])) == At(w.trees, p);
        SourceIsNoDest(key, ds[n], ds[k]);
        assert At(after, Dest(key, ds[k])) == At(w.trees, p);
        assert Source(ds[k]) == p;
      }
      if !IsSource(ds, p) {
        if IsSource(ds[..n], p) { SourcePrefix(ds, n, p); assert false; }
        assert p != Source(ds[n]);
      }
    }
  }

  // ----- The manifest -----

  /** The turn writes the manifest and the write is cut off. */
  ghost predicate CutsOff(w: World, key: string, d: Deleted, f: Fates) {
    && Checked(w, key, d, f).None?
    && Moved(At(w.trees, Source(d)), f).2.Succeeds?
    && f.read.Succeeds?
    && !f.write.Succeeds? && f.remains.Cut?
  }

  ghost predicate CutsOffAt(w: World, key: string, ds: seq<Deleted>, plan: Plan, k: nat)
    requires k < |ds|
  {
    var prev := All(w, key, ds[..k], plan);
    prev.outcome.Done? && CutsOff(prev.world, key, ds[k], plan(k))
  }

  /** A readable manifest stops being one exactly when the batch reaches a manifest write
      that is cut off. Otherwise the old entries stay in front, the returned ones follow in
      order, and at most one more is there that was not returned. */
  lemma {:induction false} ManifestExactly(w: World, key: string, ds: seq<Deleted>, plan: Plan)
    requires !w.manifest.Unreadable?
    ensures
      var r := All(w, key, ds, plan);
      && (r.world.manifest.Unreadable? <==> exists k: nat :: k < |ds| && CutsOffAt(w, key, ds, plan, k))
      && (r.world.manifest.Unreadable? ==> !r.outcome.Done?)
      && (!r.world.manifest.Unreadable? ==>
           && Entries(w.manifest) + r.archived <= Entries(r.world.manifest)
           && |Entries(r.world.manifest)| <= |Entries(w.manifest)| + |r.archived| + (if r.outcome.Done? then 0 else 1))
  {
    if ds == [] { return; }
    hide One, CutsOff, Source, Dest, EntryOf, Moved, Checked, Recorded;
    var n := |ds| - 1;
    var prev := All(w, key, ds[..n], plan);
    ManifestExactly(w, key, ds[..n], plan);
    forall k: nat | k < n ensures CutsOffAt(w, key, ds[..n], plan, k) == CutsOffAt(w, key, ds, plan, k) {
      assert ds[..n][..k] == ds[..k];
    }
    if prev.outcome.Done? { OneManifest(prev.world, key, ds[n], plan(n)); }
    assert CutsOffAt(w, key, ds, plan, n) <==> prev.outcome.Done? && CutsOff(prev.world, key, ds[n], plan(n));
  }

  /** What one turn does to a readable manifest. */
  lemma OneManifest(w: World, key: string, d: Deleted, f: Fates)
    requires !w.manifest.Unreadable?
    ensures
      var r := One(w, key, d, f);
      var after := r.0.manifest;
      && (after.Unreadable? <==> CutsOff(w, key, d, f))
      && (after.Unreadable? ==> !r.1.Done? && !r.2)
      && (!after.Unreadable? ==>
           if r.2 then Entries(after) == Entries(w.manifest) + [EntryOf(key, d)]
           else Entries(after) == Entries(w.manifest) ||
                (!r.1.Done? && Entries(after) == Entries(w.manifest) + [EntryOf(key, d)]))
  {
    hide Source, Dest;
  }

  /** An earlier association that was returned to the caller is lost when a later write of
      the same manifest is cut off. */
  lemma CutManifestLosesReturned(w: World, key: string, d: Deleted, e: Deleted) returns (plan: Plan)
    requires Source(d) != Source(e)
    requires At(w.trees, Source(d)).Dir? && At(w.trees, Source(e)).Dir? && !w.manifest.Unreadable?
    requires At(w.trees, Dest(key, d)).Absent? && At(w.trees, Dest(key, e)).Absent?
    ensures
      var r := All(w, key, [d, e], plan);
      r.archived == [EntryOf(key, d)] && r.world.manifest.Unreadable?
  {
    var remove := Removal(Succeeds, None);
    var fine := Fates(Succeeds, false, Succeeds, Succeeds, Renaming(Succeeds, false, true, false),
      Copying(Succeeds, Absent), remove, remove, Succeeds, Succeeds, Old);
    plan := k => if k == 0 then fine else fine.(write := Fails, remains := Cut);
    hide Source, Dest;
    SourceIsNoDest(key, e, d);
    SourceIsNoDest(key, d, e);
    SourceIsNoDest(key, e, e);
    SourceIffDest(key, d, e);
    assert [d, e][..1] == [d] && [d][..0] == [];
    var start, one := All(w, key, [], plan), One(w, key, d, fine);
    assert All(w, key, [d], plan) == Batch(one.0, one.1, [EntryOf(key, d)]);
    assert At(one.0.trees, Source(e)) == At(w.trees, Source(e));
    assert At(one.0.trees, Dest(key, e)).Absent?;
  }

  // ----- A batch that succeeds -----

  /** The resources that had a source tree, each directory once, in order. */
  function Expected(trees: Layout, key: string, ds: seq<Deleted>): seq<Entry> {
    if ds == [] then []
    else
      var n := |ds| - 1;
      var d := ds[n];
      Expected(trees, key, ds[..n]) +
      if At(trees, Source(d)).Dir? && forall k :: 0 <= k < n ==> Source(ds[k]) != Source(d) then [EntryOf(key, d)] else []
  }

  lemma OneDone(w: World, key: string, d: Deleted, f: Fates)
    requires One(w, key, d, f).1.Done?
    ensures
      var r := One(w, key, d, f);
      && r.2 == At(w.trees, Source(d)).Dir?
      && At(r.0.trees, Source(d)).Absent?
      && (r.2 ==> At(r.0.trees, Dest(key, d)) == At(w.trees, Source(d)))
      && (forall p :: p != Source(d) && p != Dest(key, d) ==> At(r.0.trees, p) == At(w.trees, p))
      && (!r.2 ==> r.0 == w)
      && (!w.manifest.Unreadable? && r.2 ==> r.0.manifest == Listed(Entries(w.manifest) + [EntryOf(key, d)]))
  {
    hide Source, Dest;
    SourceIsNoDest(key, d, d);
  }

  ghost predicate DoneTrees(before: Layout, after: Layout, key: string, ds: seq<Deleted>) {
    && (forall k :: 0 <= k < |ds| ==> At(after, Source(ds[k])).Absent?)
    && (forall k :: 0 <= k < |ds| && At(before, Source(ds[k])).Dir? ==>
          At(after, Dest(key, ds[k])) == At(before, Source(ds[k])))
    && (forall p :: !IsSource(ds, p) && (forall k :: 0 <= k < |ds| ==> Dest(key, ds[k]) != p) ==>
          At(after, p) == At(before, p))
  }

  lemma DoneTreesStep(before: Layout, w: World, key: string, ds: seq<Deleted>, f: Fates)
    requires ds != [] && DoneTrees(before, w.trees, key, ds[..|ds| - 1])
    requires One(w, key, ds[|ds| - 1], f).1.Done?
    ensures DoneTrees(before, One(w, key, ds[|ds| - 1], f).0.trees, key, ds)
    ensures One(w, key, ds[|ds| - 1], f).2 <==>
      At(before, Source(ds[|ds| - 1])).Dir? && forall k :: 0 <= k < |ds| - 1 ==> Source(ds[k]) != Source(ds[|ds| - 1])
  {
    hide One, Source, Dest;
    var n := |ds| - 1;
    var d, init, after := ds[n], ds[..n], One(w, key, ds[n], f).0.trees;
    OneDone(w, key, d, f);
    assert forall k :: 0 <= k < n ==> init[k] == ds[k];
    forall k | 0 <= k <= n
      ensures Dest(key, ds[k]) != Source(d) && Source(ds[k]) != Dest(key, d)
      ensures Source(ds[k]) == Source(d) <==> Dest(key, ds[k]) == Dest(key, d)
    {
      SourceIsNoDest(key, d, ds[k]);
      SourceIsNoDest(key, ds[k], d);
      SourceIffDest(key, ds[k], d);
    }
    if exists k :: 0 <= k < n && Source(ds[k]) == Source(d) {
      var k :| 0 <= k < n && Source(ds[k]) == Source(d);
      assert Source(init[k]) == Source(d);
      assert At(w.trees, Source(d)).Absent?;
    } else {
      assert !IsSource(init, Source(d));
      assert At(w.trees, Source(d)) == At(before, Source(d));
    }
    forall p | !IsSource(ds, p) && (forall k :: 0 <= k < |ds| ==> Dest(key, ds[k]) != p)
      ensures At(after, p) == At(before, p)
    {
      if IsSource(init, p) { SourcePrefix(ds, n, p); assert false; }
    }
  }

  /** A batch that ends well has moved every source tree. */
  lemma {:induction false} DoneMovesTrees(w: World, key: string, ds: seq<Deleted>, plan: Plan)
    requires All(w, key, ds, plan).outcome.Done?
    ensures DoneTrees(w.trees, All(w, key, ds, plan).world.trees, key, ds)
  {
    if ds != [] {
      hide One, Source, Dest, DoneTrees;
      var n := |ds| - 1;
      DoneMovesTrees(w, key, ds[..n], plan);
      DoneTreesStep(w.trees, All(w, key, ds[..n], plan).world, key, ds, plan(n));
    }
  }

  /** The place user code of the resource lives at before. */
  ghost predicate LivesAt(d: Deleted, p: string) { p == "internal/extensions/" + PackageName(d.codeName) }

  /** The entry names the resource, where its code was and where it is. */
  ghost predicate Attributes(e: Entry, key: string, d: Deleted) {
    && e.resource == d.id && e.codeName == d.codeName
    && LivesAt(d, e.original)
    && e.archived == ".forge/orphaned/" + key + "/" + PackageName(d.codeName)
  }

  /** What the entry says is true: the tree that stood at the one place stands at the other and
      nothing stands at the one. */
  ghost predicate Tells(e: Entry, before: Layout, after: Layout) {
    && At(before, e.original).Dir?
    && At(after, e.archived) == At(before, e.original)
    && At(after, e.original).Absent?
  }

  /** The j-th entry is about the at[j]-th deleted resource, in order. */
  ghost predicate EntriesOf(archived: seq<Entry>, key: string, ds: seq<Deleted>, at: seq<nat>) {
    && |at| == |archived|
    && (forall i, j :: 0 <= i < j < |at| ==> at[i] < at[j])
    && forall j :: 0 <= j < |at| ==> at[j] < |ds| && Attributes(archived[j], key, ds[at[j]])
  }

  /** The first deleted resource whose code stood in a directory of its own. */
  ghost predicate HadTree(before: Layout, ds: seq<Deleted>, k: nat) {
    && k < |ds|
    && (exists p :: LivesAt(ds[k], p) && At(before, p).Dir?)
    && forall j :: 0 <= j < k ==> PackageName(ds[j].codeName) != PackageName(ds[k].codeName)
  }

  lemma EntryAttributes(key: string, d: Deleted)
    ensures Attributes(EntryOf(key, d), key, d)
    ensures LivesAt(d, Source(d))
  {
    hide PackageName;
    assert EXTENSIONS_ROOT + "/" == "internal/extensions/" && ARCHIVE_ROOT + "/" == ".forge/orphaned/";
  }

  lemma AttributedPlaces(e: Entry, key: string, d: Deleted)
    requires Attributes(e, key, d)
    ensures e.original == Source(d) && e.archived == Dest(key, d)
  {
    hide PackageName;
    assert EXTENSIONS_ROOT + "/" == "internal/extensions/" && ARCHIVE_ROOT + "/" == ".forge/orphaned/";
  }

  lemma HadTreeExactly(before: Layout, ds: seq<Deleted>, k: nat)
    requires k < |ds|
    ensures HadTree(before, ds, k) <==>
      At(before, Source(ds[k])).Dir? && forall j :: 0 <= j < k ==> Source(ds[j]) != Source(ds[k])
  {
    hide PackageName;
    EntryAttributes("", ds[k]);
    forall j | 0 <= j < k ensures Source(ds[j]) == Source(ds[k]) <==> PackageName(ds[j].codeName) == PackageName(ds[k].codeName) {
      if Source(ds[j]) == Source(ds[k]) {
        PrefixInjective(EXTENSIONS_ROOT + "/", PackageName(ds[j].codeName), PackageName(ds[k].codeName));
      }
    }
  }

  /** A later turn leaves what an entry tells alone. */
  lemma TurnKeepsTelling(before: Layout, w: World, key: string, d: Deleted, c: Deleted, f: Fates)
    requires At(w.trees, Source(c)).Absent?
    requires At(w.trees, Dest(key, c)).Dir?
    ensures
      var after := One(w, key, d, f).0.trees;
      At(after, Source(c)).Absent? && At(after, Dest(key, c)) == At(w.trees, Dest(key, c))
  {
    SourceIffDest(key, c, d);
    SourceIsNoDest(key, c, d);
    SourceIsNoDest(key, d, c);
    hide Source, Dest, Moved, Recorded;
  }

  /** The returned entries are about deleted resources that had code, in order, and each tells
      the truth; a batch that ended well returned one for each of them. */
  ghost predicate Truthful(before: Layout, r: Batch, key: string, ds: seq<Deleted>, at: seq<nat>) {
    && EntriesOf(r.archived, key, ds, at)
    && (forall j :: 0 <= j < |at| ==> HadTree(before, ds, at[j]) && Tells(r.archived[j], before, r.world.trees))
    && (r.outcome.Done? ==> forall k: nat :: k in at <==> HadTree(before, ds, k))
  }

  /** However a batch ends, its entries are truthful. */
  lemma {:induction false} EntriesTell(w: World, key: string, ds: seq<Deleted>, plan: Plan) returns (at: seq<nat>)
    ensures Truthful(w.trees, All(w, key, ds, plan), key, ds, at)
  {
    if ds == [] { return []; }
    var n := |ds| - 1;
    at := EntriesTell(w, key, ds[..n], plan);
    var prev := All(w, key, ds[..n], plan);
    if prev.outcome.Done? {
      DoneMovesTrees(w, key, ds[..n], plan);
      hide Truthful, DoneTrees, One, EntryOf;
      at := TurnIsTruthful(w.trees, prev, key, ds, at, plan(n));
    } else {
      hide Truthful;
      StoppedIsTruthful(w.trees, prev, key, ds, at);
    }
  }

  lemma StoppedIsTruthful(before: Layout, prev: Batch, key: string, ds: seq<Deleted>, at: seq<nat>)
    requires ds != [] && Truthful(before, prev, key, ds[..|ds| - 1], at) && !prev.outcome.Done?
    ensures Truthful(before, prev, key, ds, at)
  {
    hide EntriesOf, Tells, HadTree;
    EntriesPrefix(prev.archived, key, ds, at);
    forall j | 0 <= j < |at| ensures HadTree(before, ds, at[j]) { HadTreePrefix(before, ds, |ds| - 1, at[j]); }
  }

  lemma TurnIsTruthful(before: Layout, prev: Batch, key: string, ds: seq<Deleted>, at: seq<nat>, f: Fates) returns (more: seq<nat>)
    requires ds != [] && Truthful(before, prev, key, ds[..|ds| - 1], at) && prev.outcome.Done?
    requires DoneTrees(before, prev.world.trees, key, ds[..|ds| - 1])
    ensures
      var d := ds[|ds| - 1];
      var one := One(prev.world, key, d, f);
      Truthful(before, Batch(one.0, one.1, if one.2 then prev.archived + [EntryOf(key, d)] else prev.archived), key, ds, more)
  {
    hide One, EntriesOf, Tells, HadTree, EntryOf, DoneTrees;
    var n := |ds| - 1;
    EntriesPrefix(prev.archived, key, ds, at);
    forall k: nat | k < n ensures HadTree(before, ds[..n], k) == HadTree(before, ds, k) { HadTreePrefix(before, ds, n, k); }
    HadTreeInside(before, ds);
    HadTreeInside(before, ds[..n]);
    TurnKeepsEntries(before, prev, key, ds, at, f);
    var one := One(prev.world, key, ds[n], f);
    if one.2 {
      NewEntryTells(before, prev.world, key, ds, f);
      EntriesGrow(prev.archived, key, ds, at);
      more := at + [n];
      MembersGrow(at, n);
    } else {
      more := at;
      if one.1.Done? { NoNewEntry(before, prev.world, key, ds, f); }
    }
  }

  lemma MembersGrow(at: seq<nat>, n: nat)
    ensures forall k: nat :: k in at + [n] <==> k in at || k == n
  {
  }

  lemma NoNewEntry(before: Layout, w: World, key: string, ds: seq<Deleted>, f: Fates)
    requires ds != [] && DoneTrees(before, w.trees, key, ds[..|ds| - 1])
    requires One(w, key, ds[|ds| - 1], f).1.Done? && !One(w, key, ds[|ds| - 1], f).2
    ensures !HadTree(before, ds, |ds| - 1)
  {
    hide One, HadTree, Source, DoneTrees;
    DoneTreesStep(before, w, key, ds, f);
    HadTreeExactly(before, ds, |ds| - 1);
  }

  lemma EntriesPrefix(archived: seq<Entry>, key: string, ds: seq<Deleted>, at: seq<nat>)
    requires ds != [] && EntriesOf(archived, key, ds[..|ds| - 1], at)
    ensures EntriesOf(archived, key, ds, at) && |at| == |archived| && forall j :: 0 <= j < |at| ==> at[j] < |ds| - 1
  {
    hide Attributes;
  }

  lemma EntriesGrow(archived: seq<Entry>, key: string, ds: seq<Deleted>, at: seq<nat>)
    requires ds != [] && EntriesOf(archived, key, ds, at) && forall j :: 0 <= j < |at| ==> at[j] < |ds| - 1
    ensures EntriesOf(archived + [EntryOf(key, ds[|ds| - 1])], key, ds, at + [|ds| - 1])
  {
    EntryAttributes(key, ds[|ds| - 1]);
    hide Attributes, EntryOf;
  }

  lemma HadTreePrefix(before: Layout, ds: seq<Deleted>, n: nat, k: nat)
    requires k < n <= |ds|
    ensures HadTree(before, ds[..n], k) == HadTree(before, ds, k)
  {
    hide PackageName;
  }

  lemma HadTreeInside(before: Layout, ds: seq<Deleted>)
    ensures forall k: nat :: HadTree(before, ds, k) ==> k < |ds|
  {
  }

  lemma TurnKeepsEntries(before: Layout, prev: Batch, key: string, ds: seq<Deleted>, at: seq<nat>, f: Fates)
    requires ds != [] && EntriesOf(prev.archived, key, ds, at)
    requires forall j :: 0 <= j < |at| ==> Tells(prev.archived[j], before, prev.world.trees)
    ensures forall j :: 0 <= j < |at| ==> Tells(prev.archived[j], before, One(prev.world, key, ds[|ds| - 1], f).0.trees)
  {
    hide One, Source, Dest, Attributes;
    forall j | 0 <= j < |at| ensures Tells(prev.archived[j], before, One(prev.world, key, ds[|ds| - 1], f).0.trees) {
      AttributedPlaces(prev.archived[j], key, ds[at[j]]);
      TurnKeepsTelling(before, prev.world, key, ds[|ds| - 1], ds[at[j]], f);
    }
  }

  lemma NewEntryTells(before: Layout, w: World, key: string, ds: seq<Deleted>, f: Fates)
    requires ds != [] && DoneTrees(before, w.trees, key, ds[..|ds| - 1]) && One(w, key, ds[|ds| - 1], f).2
    ensures
      var n := |ds| - 1;
      && One(w, key, ds[n], f).1.Done?
      && HadTree(before, ds, n)
      && Tells(EntryOf(key, ds[n]), before, One(w, key, ds[n], f).0.trees)
  {
    var n := |ds| - 1;
    assert One(w, key, ds[n], f).1.Done?;
    hide One, HadTree, Attributes;
    OneDone(w, key, ds[n], f);
    DoneTreesStep(before, w, key, ds, f);
    HadTreeExactly(before, ds, n);
    EntryAttributes(key, ds[n]);
    AttributedPlaces(EntryOf(key, ds[n]), key, ds[n]);
    hide EntryOf, Source, Dest;
    SourceIsNoDest(key, ds[n], ds[n]);
  }

  /** A batch that ends well has moved every source tree into the archive, returned one entry
      for each in order and appended exactly those to the manifest. */
  lemma {:induction false} DoneArchivesAll(w: World, key: string, ds: seq<Deleted>, plan: Plan)
    requires !w.manifest.Unreadable? && All(w, key, ds, plan).outcome.Done?
    ensures
      var r := All(w, key, ds, plan);
      && r.archived == Expected(w.trees, key, ds)
      && !r.world.manifest.Unreadable?
      && Entries(r.world.manifest) == Entries(w.manifest) + r.archived
      && DoneTrees(w.trees, r.world.trees, key, ds)
  {
    if ds != [] {
      hide One, Source, Dest, DoneTrees;
      var n := |ds| - 1;
      var prev := All(w, key, ds[..n], plan);
      DoneArchivesAll(w, key, ds[..n], plan);
      DoneTreesStep(w.trees, prev.world, key, ds, plan(n));
      OneDone(prev.world, key, ds[n], plan(n));
    }
  }

  /** A batch no call of which fails ends well when no archive destination is taken. */
  ghost predicate Faultless(f: Fates) {
    && f.statSource.Succeeds? && !f.notDirectory && f.statDest.Succeeds? && f.mkdir.Succeeds?
    && f.rename.verdict.Succeeds? && f.read.Succeeds? && f.write.Succeeds?
  }

  lemma {:induction false} FaultlessIsDone(w: World, key: string, ds: seq<Deleted>, plan: Plan)
    requires !w.manifest.Unreadable?
    requires forall k: nat :: k < |ds| ==> Faultless(plan(k)) && At(w.trees, Dest(key, ds[k])).Absent?
    ensures All(w, key, ds, plan).outcome.Done?
  {
    if ds != [] {
      hide Source, Dest;
      var n := |ds| - 1;
      FaultlessIsDone(w, key, ds[..n], plan);
      DoneArchivesAll(w, key, ds[..n], plan);
      var prev := All(w, key, ds[..n], plan).world;
      var d := ds[n];
      assert forall k :: 0 <= k < n ==> ds[..n][k] == ds[k];
      if At(prev.trees, Source(d)).Dir? {
        forall k | 0 <= k < n ensures Dest(key, ds[k]) != Dest(key, d) && Source(ds[k]) != Dest(key, d) {
          SourceIffDest(key, ds[k], d);
          SourceIsNoDest(key, ds[k], d);
          assert Source(ds[..n][k]) != Source(d);
        }
        assert !IsSource(ds[..n], Dest(key, d));
        assert At(prev.trees, Dest(key, d)).Absent?;
      }
    }
  }

  // ----- The code -----

  class ManifestFile {
    var content: Manifest

    constructor (content: Manifest)
      ensures this.content == content
    {
      this.content := content;
    }

    method Record(e: Entry, f: Fates) returns (v: Verdict)
      modifies this
      ensures (content, v) == Recorded(old(content), e, f)
    {
      if !f.read.Succeeds? { return f.read; }
      if content.Unreadable? { return Fails; }
      var extended := Entries(content) + [e];
      if f.write.Succeeds? || f.remains.New? {
        content := Listed(extended);
      } else if f.remains.Cut? {
        content := Unreadable;
      }
      v := f.write;
    }
  }

  method MoveDir(disk: Disk, src: string, dst: string, f: Fates) returns (v: Verdict)
    requires src != dst && disk.Slot(src).Dir? && disk.Slot(dst).Absent?
    modifies disk
    ensures
      var r := Moved(At(old(disk.dirs), src), f);
      && v == r.2
      && At(disk.dirs, src) == r.0 && At(disk.dirs, dst) == r.1
      && forall p :: p != src && p != dst ==> At(disk.dirs, p) == At(old(disk.dirs), p)
  {
    v := disk.Rename(src, dst, f.rename);
    if !v.Fails? || !f.rename.crossDevice { return; }
    v := disk.Copy(src, dst, f.copy);
    if v.Crashes? { return; }
    if v.Fails? {
      v := disk.RemoveAll(dst, f.undo);
      return if v.Crashes? then Crashes else Fails;
    }
    v := disk.RemoveAll(src, f.clear);
  }

  /** The body of the loop. */
  method ArchiveOne(disk: Disk, book: ManifestFile, key: string, d: Deleted, f: Fates)
      returns (outcome: Outcome, entry: Option<Entry>)
    modifies disk, book
    ensures
      var r := One(World(old(disk.dirs), old(book.content)), key, d, f);
      && (forall p :: At(disk.dirs, p) == At(r.0.trees, p))
      && book.content == r.0.manifest
      && outcome == r.1
      && entry == if r.2 then Some(EntryOf(key, d)) else None
  {
    hide Source, Dest;
    SourceIsNoDest(key, d, d);
    entry := None;
    var src, dst := Source(d), Dest(key, d);
    if !f.statSource.Succeeds? { return Ended(f.statSource), None; }
    if At(disk.dirs, src).Absent? { return Done, None; }
    if f.notDirectory { return Failed, None; }
    if !f.statDest.Succeeds? { return Ended(f.statDest), None; }
    if At(disk.dirs, dst).Dir? { return Failed, None; }
    if !f.mkdir.Succeeds? { return Ended(f.mkdir), None; }
    var v := MoveDir(disk, src, dst, f);
    if !v.Succeeds? { return Ended(v), None; }
    v := book.Record(EntryOf(key, d), f);
    if !v.Succeeds? { return Ended(v), None; }
    return Done, Some(EntryOf(key, d));
  }

  ghost predicate SameTrees(d: Layout, e: Layout) { forall p :: At(d, p) == At(e, p) }

  lemma OneCongruent(w: World, v: World, key: string, d: Deleted, f: Fates)
    requires SameTrees(w.trees, v.trees) && w.manifest == v.manifest
    ensures SameTrees(One(w, key, d, f).0.trees, One(v, key, d, f).0.trees)
    ensures One(w, key, d, f).0.manifest == One(v, key, d, f).0.manifest
    ensures One(w, key, d, f).1 == One(v, key, d, f).1 && One(w, key, d, f).2 == One(v, key, d, f).2
  {
    hide Source, Dest, Moved, Recorded;
    var src, dst := Source(d), Dest(key, d);
    assert At(w.trees, src) == At(v.trees, src) && At(w.trees, dst) == At(v.trees, dst);
    forall p ensures At(One(w, key, d, f).0.trees, p) == At(One(v, key, d, f).0.trees, p) {
      assert At(w.trees, p) == At(v.trees, p);
    }
  }

  lemma {:induction false} AllStops(w: World, key: string, ds: seq<Deleted>, k: nat, plan: Plan)
    requires k <= |ds| && !All(w, key, ds[..k], plan).outcome.Done?
    ensures All(w, key, ds, plan) == All(w, key, ds[..k], plan)
    decreases |ds|
  {
    if k < |ds| {
      assert ds[..|ds| - 1][..k] == ds[..k];
      AllStops(w, key, ds[..|ds| - 1], k, plan);
    } else {
      assert ds[..k] == ds;
    }
  }

  lemma TruthfulOnDisk(before: Layout, d: Layout, r: Batch, key: string, ds: seq<Deleted>, at: seq<nat>)
    requires Truthful(before, r, key, ds, at) && SameTrees(d, r.world.trees)
    ensures Truthful(before, r.(world := r.world.(trees := d)), key, ds, at)
  {
    hide EntriesOf, HadTree;
  }

  lemma BatchIsTruthful(w: World, d: Layout, key: string, ds: seq<Deleted>, plan: Plan)
    requires SameTrees(d, All(w, key, ds, plan).world.trees)
    ensures
      var r := All(w, key, ds, plan);
      exists at: seq<nat> :: Truthful(w.trees, r.(world := r.world.(trees := d)), key, ds, at)
  {
    hide Truthful, SameTrees, All;
    var at := EntriesTell(w, key, ds, plan);
    TruthfulOnDisk(w.trees, d, All(w, key, ds, plan), key, ds, at);
  }

  method ArchiveExtensions(disk: Disk, book: ManifestFile, dir: string, key: string, deleted: seq<Deleted>, plan: Plan)
      returns (archived: seq<Entry>, outcome: Outcome)
    modifies disk, book
    ensures outcome.Refused? <==> dir == "" || !KeyOK(key)
    ensures outcome.Refused? ==> disk.dirs == old(disk.dirs) && book.content == old(book.content) && archived == []
    ensures !outcome.Refused? ==>
      var r := All(World(old(disk.dirs), old(book.content)), key, deleted, plan);
      && SameTrees(disk.dirs, r.world.trees) && book.content == r.world.manifest
      && outcome == r.outcome && archived == r.archived
    ensures !outcome.Refused? ==>
      exists at: seq<nat> ::
        Truthful(old(disk.dirs), Batch(World(disk.dirs, book.content), outcome, archived), key, deleted, at)
  {
    archived := [];
    if dir == "" || !KeyOK(key) { return [], Refused; }
    hide One, Truthful;
    ghost var w := World(disk.dirs, book.content);
    outcome := Done;
    assert deleted[..0] == [];
    for k := 0 to |deleted|
      invariant outcome.Done?
      invariant
        var r := All(w, key, deleted[..k], plan);
        SameTrees(disk.dirs, r.world.trees) && r == Batch(World(r.world.trees, book.content), outcome, archived)
    {
      assert deleted[..k + 1][..k] == deleted[..k];
      ghost var r := All(w, key, deleted[..k], plan);
      ghost var before := World(disk.dirs, book.content);
      var entry: Option<Entry>;
      outcome, entry := ArchiveOne(disk, book, key, deleted[k], plan(k));
      OneCongruent(before, r.world, key, deleted[k], plan(k));
      if entry.Some? { archived := archived + [entry.value]; }
      if !outcome.Done? {
        AllStops(w, key, deleted, k + 1, plan);
        BatchIsTruthful(w, disk.dirs, key, deleted, plan);
        return;
      }
    }
    assert deleted[..|deleted|] == deleted;
    BatchIsTruthful(w, disk.dirs, key, deleted, plan);
  }
}
