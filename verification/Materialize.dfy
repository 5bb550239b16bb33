/** Materialize: stage every root's new tree beside it, then swap the trees in with renames
    (internal/compiler/materialize.go). A root is three slots, and a run may stop after, or
    halfway through, any call. */
module Materialize {
  import opened Text
  import opened Paths
  import opened FileSystem

  datatype File = File(path: string, content: string)

  datatype Outcome = Refused | Done | Failed | Crashed

  /** The fates of the calls one root sees, in the order they are made. */
  datatype RootFaults = RootFaults(
    clear: Removal,
    writes: nat -> Writing,
    cleanup: Removal,
    clearOld: Removal,
    stat: Verdict,
    retire: Renaming,
    install: Renaming,
    restore: Renaming,
    discard: Removal)

  type Faults = nat -> RootFaults

  datatype RootState = RootState(live: Slot, staging: Slot, retired: Slot)

  // ----- What the files say a root should hold -----

  ghost predicate HasFiles(files: seq<File>, root: string) {
    exists k :: 0 <= k < |files| && Within(files[k].path, root)
  }

  function FilesUnder(files: seq<File>, root: string): Tree {
    if files == [] then map[]
    else
      var file := files[|files| - 1];
      var under := FilesUnder(files[..|files| - 1], root);
      match UnderRoot(file.path, root)
      case None => under
      case Some(rel) => under[rel := file.content]
  }

  function Generation(files: seq<File>, root: string): Slot {
    if FilesUnder(files, root) == map[] then Absent else Dir(FilesUnder(files, root))
  }

  lemma {:induction false} FilesUnderMeaning(files: seq<File>, root: string)
    ensures FilesUnder(files, root) != map[] <==> HasFiles(files, root)
  {
    if files != [] {
      var n := |files| - 1;
      FilesUnderMeaning(files[..n], root);
      assert forall k :: 0 <= k < n ==> files[..n][k] == files[k];
      if Within(files[n].path, root) { assert UnderRoot(files[n].path, root).value in FilesUnder(files, root); }
    }
  }

  /** The file belongs at this place below the root; a path that is the root itself stands at "". */
  ghost predicate Belongs(file: File, root: string, rel: string) {
    file.path == root + "/" + rel || (file.path == root && rel == "")
  }

  /** The k-th file is the last one for its place. */
  ghost predicate LastAt(files: seq<File>, root: string, rel: string, k: nat) {
    && k < |files| && Belongs(files[k], root, rel)
    && forall j :: k < j < |files| ==> !Belongs(files[j], root, rel)
  }

  /** The tree has a file exactly where one of the given files belongs, and each holds the
      content of the last file given for its place. */
  ghost predicate Holds(tree: Tree, files: seq<File>, root: string) {
    && (forall rel :: rel in tree ==> exists k: nat :: LastAt(files, root, rel, k))
    && (forall rel, k: nat :: LastAt(files, root, rel, k) ==> rel in tree && tree[rel] == files[k].content)
  }

  lemma BelongsUnderRoot(file: File, root: string, rel: string)
    ensures Belongs(file, root, rel) <==> UnderRoot(file.path, root) == Some(rel)
  {
    if Belongs(file, root, rel) && file.path == root + "/" + rel {
      assert file.path[|root| + 1..] == rel && root + "/" <= file.path;
    }
    if UnderRoot(file.path, root) == Some(rel) && file.path != root {
      assert file.path == root + "/" + file.path[|root| + 1..];
    }
  }

  lemma {:induction false} FilesUnderHolds(files: seq<File>, root: string)
    ensures Holds(FilesUnder(files, root), files, root)
  {
    hide Belongs, UnderRoot;
    if files != [] {
      var n := |files| - 1;
      var init, last := files[..n], files[n];
      FilesUnderHolds(init, root);
      forall rel ensures Belongs(last, root, rel) <==> UnderRoot(last.path, root) == Some(rel) { BelongsUnderRoot(last, root, rel); }
      forall rel, k: nat ensures LastAt(files, root, rel, k) <==>
        if Belongs(last, root, rel) then k == n else LastAt(init, root, rel, k)
      {
        assert forall j :: 0 <= j < n ==> init[j] == files[j];
      }
      forall rel | rel in FilesUnder(files, root) ensures exists k: nat :: LastAt(files, root, rel, k) {
        if Belongs(last, root, rel) {
          assert LastAt(files, root, rel, n);
        } else {
          var k: nat :| LastAt(init, root, rel, k);
          assert LastAt(files, root, rel, k);
        }
      }
    }
  }

  /** Only one tree holds the files. */
  lemma HoldsExactly(tree: Tree, files: seq<File>, root: string)
    ensures Holds(tree, files, root) <==> tree == FilesUnder(files, root)
  {
    FilesUnderHolds(files, root);
    hide LastAt, FilesUnder;
    var under := FilesUnder(files, root);
    if Holds(tree, files, root) {
      forall rel ensures rel in tree <==> rel in under {
        if rel in tree { var k: nat :| LastAt(files, root, rel, k); }
        if rel in under { var k: nat :| LastAt(files, root, rel, k); }
      }
      forall rel | rel in tree ensures tree[rel] == under[rel] { var k: nat :| LastAt(files, root, rel, k); }
    }
  }

  /** The slot is the new generation of the root, or absent when there are no files for it. */
  ghost predicate Installed(slot: Slot, files: seq<File>, root: string) {
    if HasFiles(files, root) then slot.Dir? && Holds(slot.tree, files, root) else slot.Absent?
  }

  lemma InstalledExactly(slot: Slot, files: seq<File>, root: string)
    ensures Installed(slot, files, root) <==> slot == Generation(files, root)
  {
    hide Holds, FilesUnder;
    FilesUnderMeaning(files, root);
    if slot.Dir? { HoldsExactly(slot.tree, files, root); }
  }

  ghost predicate Acceptable(files: seq<File>) {
    files != [] && forall k :: 0 <= k < |files| ==> Accepted(files[k].path)
  }

  // ----- What a run does to the slots -----

  function StagedFiles(start: Slot, files: seq<File>, root: string, writes: nat -> Writing): (Slot, Verdict) {
    if files == [] then (start, Succeeds)
    else
      var n := |files| - 1;
      var prev := StagedFiles(start, files[..n], root, writes);
      if !prev.1.Succeeds? then prev
      else
        match UnderRoot(files[n].path, root)
        case None => prev
        case Some(rel) => (Wrote(prev.0, rel, files[n].content, writes(n)), WriteVerdict(writes(n)))
  }

  function Staged(staging: Slot, files: seq<File>, root: string, f: RootFaults): (Slot, Verdict) {
    var cleared := Removed(staging, f.clear);
    if f.clear.verdict.Succeeds? then StagedFiles(cleared, files, root, f.writes) else (cleared, f.clear.verdict)
  }

  function Install(st: RootState, f: RootFaults): (RootState, Outcome) {
    var v := RenameVerdict(st.staging, st.live, f.install);
    var moved := Moves(st.staging, st.live, f.install);
    var tried := if moved then st.(live := st.staging, staging := Absent) else st;
    match v
    case Crashes => (tried, Crashed)
    case Succeeds => (tried, Done)
    case Fails =>
      var back := if Moves(st.retired, st.live, f.restore) then st.(live := st.retired, retired := Absent) else st;
      (back, if f.restore.verdict.Crashes? then Crashed else Failed)
  }

  function Retire(st: RootState, f: RootFaults): (RootState, Outcome) {
    var cleared := st.(retired := Removed(st.retired, f.clearOld));
    if f.clearOld.verdict.Crashes? || f.stat.Crashes? then (cleared, Crashed)
    else if f.stat.Fails? || st.live.Absent? then (cleared, Done)
    else
      var aside := if Moves(st.live, cleared.retired, f.retire) then st.(live := Absent, retired := st.live) else cleared;
      match RenameVerdict(st.live, cleared.retired, f.retire)
      case Crashes => (aside, Crashed)
      case Fails => (aside, Failed)
      case Succeeds => (aside, Done)
  }

  function Swapped(st: RootState, hasFiles: bool, f: RootFaults): (RootState, Outcome) {
    var aside := Retire(st, f);
    if !aside.1.Done? then aside
    else
      var installed := if hasFiles then Install(aside.0, f) else aside;
      if !installed.1.Done? then installed
      else
        (installed.0.(retired := Removed(installed.0.retired, f.discard)),
         if f.discard.verdict.Crashes? then Crashed else Done)
  }

  type Roots = s: seq<RootState> | |s| == |ROOTS| witness [RootState(Absent, Absent, Absent), RootState(Absent, Absent, Absent)]

  /** Pass 1 over the first n roots. */
  function StageAll(s: Roots, n: nat, files: seq<File>, faults: Faults): (Roots, Verdict)
    requires n <= |ROOTS|
  {
    if n == 0 then (s, Succeeds)
    else
      var i := n - 1;
      var prev := StageAll(s, i, files, faults);
      if !prev.1.Succeeds? then prev
      else
        var r := Staged(prev.0[i].staging, files, ROOTS[i], faults(i));
        (prev.0[i := prev.0[i].(staging := r.0)], r.1)
  }

  function Cleaned(s: Roots, n: nat, faults: Faults): (Roots, Outcome)
    requires n <= |ROOTS|
  {
    if n == 0 then (s, Failed)
    else
      var i := n - 1;
      var prev := Cleaned(s, i, faults);
      if prev.1.Crashed? then prev
      else
        (prev.0[i := prev.0[i].(staging := Removed(prev.0[i].staging, faults(i).cleanup))],
         if faults(i).cleanup.verdict.Crashes? then Crashed else Failed)
  }

  /** Pass 2 over the first n roots. */
  function SwapAll(s: Roots, n: nat, files: seq<File>, faults: Faults): (Roots, Outcome)
    requires n <= |ROOTS|
  {
    if n == 0 then (s, Done)
    else
      var i := n - 1;
      var prev := SwapAll(s, i, files, faults);
      if !prev.1.Done? then prev
      else
        var r := Swapped(prev.0[i], FilesUnder(files, ROOTS[i]) != map[], faults(i));
        (prev.0[i := r.0], r.1)
  }

  /** A whole run on an acceptable file set. */
  function Run(s: Roots, files: seq<File>, faults: Faults): (Roots, Outcome) {
    var staged := StageAll(s, |ROOTS|, files, faults);
    match staged.1
    case Crashes => (staged.0, Crashed)
    case Fails => Cleaned(staged.0, |ROOTS|, faults)
    case Succeeds => SwapAll(staged.0, |ROOTS|, files, faults)
  }

  // ----- One root -----

  /** Pass 1 meets no fault. */
  ghost predicate Stages(f: RootFaults) {
    f.clear.verdict.Succeeds? && forall k :: f.writes(k).mkdir.Succeeds? && f.writes(k).write.Succeeds?
  }

  /** No call fails. */
  ghost predicate Faultless(f: RootFaults) {
    && Stages(f)
    && f.clearOld.verdict.Succeeds?
    && f.stat.Succeeds?
    && f.retire.verdict.Succeeds?
    && f.install.verdict.Succeeds?
    && f.discard.verdict.Succeeds?
  }

  predicate Empty(s: Slot) { s.Absent? || s.tree == map[] }

  /** A live root absent although a retired one is there: what a run killed between its two
      renames leaves. */
  predicate MidSwap(st: RootState) { st.live.Absent? && st.retired.Dir? }

  /** Whatever happens during a swap, the live root stays as it was, is absent or becomes the
      staged tree; and the old tree is still live or retired unless the new one is live. */
  lemma SwapIsAtomic(st: RootState, hasFiles: bool, f: RootFaults)
    requires st.live.Absent? || !Empty(st.live)
    requires hasFiles ==> !Empty(st.staging)
    ensures
      var r := Swapped(st, hasFiles, f).0;
      && (!(hasFiles && MidSwap(st)) ==> r.live in {st.live, Absent} + (if hasFiles then {st.staging} else {}))
      && (hasFiles ==> r.live == st.staging || r.staging == st.staging)
      && (hasFiles && st.live.Dir? ==> r.live == st.live || r.retired == st.live || r.live == st.staging)
  {
  }

  /** Removing the retired tree stops halfway, the install fails and the halfway tree is
      put back as the live one. */
  function Tearing(): RootFaults {
    var fine := Removal(Succeeds, None);
    var rename := Renaming(Succeeds, false, true, false);
    RootFaults(fine, _ => Writing(Succeeds, false, Succeeds, None), fine,
      Removal(Fails, Some({})), Succeeds, rename, rename.(verdict := Fails), rename, fine)
  }

  function NoFaults(): RootFaults {
    Tearing().(clearOld := Removal(Succeeds, None), install := Renaming(Succeeds, false, true, false))
  }

  /** The given fate for one root, no faults for the other. */
  function Only(i: nat, f: RootFaults): Faults { j => if j == i then f else NoFaults() }

  lemma SwapConverges(st: RootState, hasFiles: bool, f: RootFaults)
    requires Faultless(f) && hasFiles == !Empty(st.staging)
    requires !hasFiles ==> st.staging.Absent?
    ensures Swapped(st, hasFiles, f) == (RootState(st.staging, Absent, Absent), Done)
  {
  }

  lemma SwapDoneInstalled(st: RootState, hasFiles: bool, f: RootFaults)
    requires Swapped(st, hasFiles, f).1.Done?
    ensures hasFiles ==> Swapped(st, hasFiles, f).0.live == st.staging
    ensures !hasFiles && f.stat.Succeeds? ==> Swapped(st, hasFiles, f).0.live.Absent?
  {
  }

  // ----- Both passes -----

  lemma {:induction false} StagedFilesHolds(start: Slot, files: seq<File>, root: string, writes: nat -> Writing)
    requires start.Absent?
    ensures StagedFiles(start, files, root, writes).1.Succeeds? ==>
      StagedFiles(start, files, root, writes).0 == Generation(files, root)
    ensures (forall k :: writes(k).mkdir.Succeeds? && writes(k).write.Succeeds?) ==>
      StagedFiles(start, files, root, writes).1.Succeeds?
  {
    if files != [] {
      var n := |files| - 1;
      StagedFilesHolds(start, files[..n], root, writes);
      if Within(files[n].path, root) { assert UnderRoot(files[n].path, root).value in FilesUnder(files, root); }
    }
  }

  /** Pass 1 leaves every live and retired tree alone; when it succeeds, the staging trees
      are exactly the new generations. */
  lemma {:induction false} StageAllEffect(s: Roots, n: nat, files: seq<File>, faults: Faults)
    requires n <= |ROOTS|
    ensures
      var r := StageAll(s, n, files, faults);
      && (forall i :: 0 <= i < |ROOTS| ==> r.0[i].live == s[i].live && r.0[i].retired == s[i].retired)
      && (r.1.Succeeds? ==> forall i :: 0 <= i < n ==> r.0[i].staging == Generation(files, ROOTS[i]))
      && ((forall i: nat :: i < n ==> Stages(faults(i))) ==> r.1.Succeeds?)
  {
    if n != 0 {
      StageAllEffect(s, n - 1, files, faults);
      StagedFilesHolds(Absent, files, ROOTS[n - 1], faults(n - 1).writes);
    }
  }

  lemma {:induction false} CleanedEffect(s: Roots, n: nat, faults: Faults)
    requires n <= |ROOTS|
    ensures forall i :: 0 <= i < |ROOTS| ==>
      Cleaned(s, n, faults).0[i].live == s[i].live && Cleaned(s, n, faults).0[i].retired == s[i].retired
  {
    if n != 0 { CleanedEffect(s, n - 1, faults); }
  }

  function SwapOf(s: Roots, i: nat, files: seq<File>, faults: Faults): (RootState, Outcome)
    requires i < |ROOTS|
  {
    Swapped(s[i], FilesUnder(files, ROOTS[i]) != map[], faults(i))
  }

  lemma {:induction false} SwapAllEffect(s: Roots, n: nat, files: seq<File>, faults: Faults)
    requires n <= |ROOTS|
    ensures
      var r := SwapAll(s, n, files, faults);
      && (forall i :: 0 <= i < |ROOTS| ==> r.0[i] == s[i] || (i < n && r.0[i] == SwapOf(s, i, files, faults).0))
      && (forall i :: n <= i < |ROOTS| ==> r.0[i] == s[i])
      && (r.1.Done? <==> forall i: nat :: i < n ==> SwapOf(s, i, files, faults).1.Done?)
      && (r.1.Done? ==> forall i :: 0 <= i < n ==> r.0[i] == SwapOf(s, i, files, faults).0)
  {
    if n != 0 {
      SwapAllEffect(s, n - 1, files, faults);
      var prev := SwapAll(s, n - 1, files, faults);
      assert prev.1.Done? ==> SwapAll(s, n, files, faults).1 == SwapOf(s, n - 1, files, faults).1;
    }
  }

  function Ready(st: RootState, files: seq<File>, root: string): RootState {
    st.(staging := Generation(files, root))
  }

  function SwapOfReady(s: Roots, i: nat, files: seq<File>, faults: Faults): (RootState, Outcome)
    requires i < |ROOTS|
  {
    Swapped(Ready(s[i], files, ROOTS[i]), FilesUnder(files, ROOTS[i]) != map[], faults(i))
  }

  /** A run either leaves a root's live and retired trees alone or swaps the root once its
      new generation is fully staged. */
  lemma RunAt(s: Roots, files: seq<File>, faults: Faults, i: nat)
    requires i < |ROOTS|
    ensures
      var r := Run(s, files, faults);
      || r.0[i] == SwapOfReady(s, i, files, faults).0
      || (!r.1.Done? && r.0[i].live == s[i].live && r.0[i].retired == s[i].retired)
    ensures Run(s, files, faults).1.Done? ==> SwapOfReady(s, i, files, faults).1.Done?
  {
    StageAllEffect(s, |ROOTS|, files, faults);
    var staged := StageAll(s, |ROOTS|, files, faults);
    CleanedEffect(staged.0, |ROOTS|, faults);
    SwapAllEffect(staged.0, |ROOTS|, files, faults);
    if staged.1.Succeeds? {
      assert staged.0[i] == Ready(s[i], files, ROOTS[i]);
      assert SwapOf(staged.0, i, files, faults) == SwapOfReady(s, i, files, faults);
    }
  }

  /** A run that stages every root and meets no fault in the earlier ones reaches the swap of
      root i. */
  lemma RunReaches(s: Roots, files: seq<File>, faults: Faults, i: nat)
    requires i < |ROOTS|
    requires forall j: nat :: j < |ROOTS| ==> Stages(faults(j)) && (j != i ==> Faultless(faults(j)))
    requires !SwapOfReady(s, i, files, faults).1.Done?
    ensures Run(s, files, faults).0[i] == SwapOfReady(s, i, files, faults).0
  {
    var staged := StageAll(s, |ROOTS|, files, faults);
    StageAllEffect(s, |ROOTS|, files, faults);
    assert staged.0[i] == Ready(s[i], files, ROOTS[i]);
    SwapAllEffect(staged.0, i, files, faults);
    forall j: nat | j < i ensures SwapOf(staged.0, j, files, faults).1.Done? {
      assert staged.0[j] == Ready(s[j], files, ROOTS[j]);
      SwapConverges(staged.0[j], FilesUnder(files, ROOTS[j]) != map[], faults(j));
    }
    var here := SwapAll(staged.0, i + 1, files, faults);
    assert here.0[i] == SwapOf(staged.0, i, files, faults).0;
    SwapAllStops(staged.0, i + 1, |ROOTS|, files, faults);
  }

  lemma {:induction false} SwapAllStops(s: Roots, m: nat, n: nat, files: seq<File>, faults: Faults)
    requires m <= n <= |ROOTS| && !SwapAll(s, m, files, faults).1.Done?
    ensures SwapAll(s, n, files, faults) == SwapAll(s, m, files, faults)
  {
    if m < n { SwapAllStops(s, m, n - 1, files, faults); }
  }

  // ----- What a run guarantees -----

  /** A run no call of which fails installs exactly the given files, each with its content, and
      leaves no sibling, whatever an earlier crash left behind. */
  lemma Converges(s: Roots, files: seq<File>, faults: Faults)
    requires forall i: nat :: i < |ROOTS| ==> Faultless(faults(i))
    ensures Run(s, files, faults).1.Done?
    ensures forall i: nat :: i < |ROOTS| ==>
      var r := Run(s, files, faults).0[i];
      Installed(r.live, files, ROOTS[i]) && r.staging.Absent? && r.retired.Absent?
  {
    hide Installed, Generation, Run;
    ConvergesTo(s, files, faults);
    forall i: nat | i < |ROOTS| ensures Installed(Run(s, files, faults).0[i].live, files, ROOTS[i]) {
      InstalledExactly(Run(s, files, faults).0[i].live, files, ROOTS[i]);
    }
  }

  lemma ConvergesTo(s: Roots, files: seq<File>, faults: Faults)
    requires forall i: nat :: i < |ROOTS| ==> Faultless(faults(i))
    ensures Run(s, files, faults).1.Done?
    ensures forall i: nat :: i < |ROOTS| ==>
      Run(s, files, faults).0[i] == RootState(Generation(files, ROOTS[i]), Absent, Absent)
  {
    var staged := StageAll(s, |ROOTS|, files, faults);
    StageAllEffect(s, |ROOTS|, files, faults);
    SwapAllEffect(staged.0, |ROOTS|, files, faults);
    forall i: nat | i < |ROOTS|
      ensures SwapOf(staged.0, i, files, faults) == (RootState(Generation(files, ROOTS[i]), Absent, Absent), Done)
    {
      SwapConverges(staged.0[i], FilesUnder(files, ROOTS[i]) != map[], faults(i));
    }
  }

  /** A run that reports success has installed the new generation of every root it has files
      for, whatever best-effort call failed on the way. */
  lemma DoneMeansInstalled(s: Roots, files: seq<File>, faults: Faults, i: nat)
    requires i < |ROOTS| && Run(s, files, faults).1.Done?
    ensures HasFiles(files, ROOTS[i]) ==> Installed(Run(s, files, faults).0[i].live, files, ROOTS[i])
    ensures !HasFiles(files, ROOTS[i]) && faults(i).stat.Succeeds? ==> Run(s, files, faults).0[i].live.Absent?
  {
    hide Holds, FilesUnder, Run, Swapped;
    RunAt(s, files, faults, i);
    FilesUnderMeaning(files, ROOTS[i]);
    InstalledExactly(Generation(files, ROOTS[i]), files, ROOTS[i]);
    SwapDoneInstalled(Ready(s[i], files, ROOTS[i]), FilesUnder(files, ROOTS[i]) != map[], faults(i));
  }

  /** A slot holds one complete generation. */
  ghost predicate Whole(slot: Slot, root: string, gens: set<seq<File>>) {
    exists files :: files in gens && HasFiles(files, root) && Installed(slot, files, root)
  }

  ghost predicate Intact(st: RootState, root: string, gens: set<seq<File>>) {
    st.live.Absent? || Whole(st.live, root, gens)
  }

  ghost predicate AllIntact(s: Roots, gens: set<seq<File>>) {
    forall i :: 0 <= i < |ROOTS| ==> Intact(s[i], ROOTS[i], gens)
  }

  lemma WholeIsNonempty(slot: Slot, root: string, gens: set<seq<File>>)
    requires Whole(slot, root, gens)
    ensures !Empty(slot)
  {
    hide Installed;
    var files :| files in gens && HasFiles(files, root) && Installed(slot, files, root);
    InstalledExactly(slot, files, root);
    FilesUnderMeaning(files, root);
  }

  lemma WholeGrows(slot: Slot, root: string, gens: set<seq<File>>, more: set<seq<File>>)
    requires Whole(slot, root, gens)
    ensures Whole(slot, root, gens + more)
  {
    hide Installed;
    var files :| files in gens && HasFiles(files, root) && Installed(slot, files, root);
  }

  lemma RunKeepsIntact(s: Roots, files: seq<File>, faults: Faults, gens: set<seq<File>>, i: nat)
    requires i < |ROOTS| && Intact(s[i], ROOTS[i], gens)
    requires !(HasFiles(files, ROOTS[i]) && MidSwap(s[i]))
    ensures Intact(Run(s, files, faults).0[i], ROOTS[i], gens + {files})
  {
    hide Swapped, Run, Installed;
    var root := ROOTS[i];
    RunAt(s, files, faults, i);
    FilesUnderMeaning(files, root);
    InstalledExactly(Generation(files, root), files, root);
    if s[i].live.Dir? {
      WholeIsNonempty(s[i].live, root, gens);
      WholeGrows(s[i].live, root, gens, {files});
    }
    if HasFiles(files, root) { assert Whole(Generation(files, root), root, gens + {files}); }
    SwapIsAtomic(Ready(s[i], files, root), FilesUnder(files, root) != map[], faults(i));
  }

  lemma TearingTears(st: RootState)
    requires MidSwap(st) && !Empty(st.staging)
    ensures Swapped(st, true, Tearing()).0.live == Dir(map[]) && Swapped(st, true, Tearing()).1.Failed?
  {
    assert Removed(st.retired, Tearing().clearOld).tree == map[];
  }

  lemma RunTears(s: Roots, files: seq<File>, i: nat)
    requires i < |ROOTS| && HasFiles(files, ROOTS[i]) && MidSwap(s[i])
    ensures Run(s, files, Only(i, Tearing())).0[i].live == Dir(map[])
  {
    FilesUnderMeaning(files, ROOTS[i]);
    TearingTears(Ready(s[i], files, ROOTS[i]));
    var faults := Only(i, Tearing());
    assert faults(i) == Tearing() && forall j: nat :: j != i ==> faults(j) == NoFaults();
    RunReaches(s, files, faults, i);
  }

  /** No interruption of a run ever leaves a live root torn, exactly when the run does not
      begin on a root caught between two renames that it has files for. */
  lemma NeverTornExactly(s: Roots, files: seq<File>, gens: set<seq<File>>)
    requires AllIntact(s, gens)
    ensures (forall faults :: AllIntact(Run(s, files, faults).0, gens + {files})) <==>
      forall i :: 0 <= i < |ROOTS| ==> !(HasFiles(files, ROOTS[i]) && MidSwap(s[i]))
  {
    if forall i :: 0 <= i < |ROOTS| ==> !(HasFiles(files, ROOTS[i]) && MidSwap(s[i])) {
      forall faults ensures AllIntact(Run(s, files, faults).0, gens + {files}) {
        forall i | 0 <= i < |ROOTS| ensures Intact(Run(s, files, faults).0[i], ROOTS[i], gens + {files}) {
          RunKeepsIntact(s, files, faults, gens, i);
        }
      }
    } else {
      var i :| 0 <= i < |ROOTS| && HasFiles(files, ROOTS[i]) && MidSwap(s[i]);
      RunTears(s, files, i);
      var torn := Run(s, files, Only(i, Tearing())).0;
      if AllIntact(torn, gens + {files}) {
        assert Intact(torn[i], ROOTS[i], gens + {files});
        WholeIsNonempty(torn[i].live, ROOTS[i], gens + {files});
      }
    }
  }

  /** A complete generation is where a run or an operator finds it again. */
  ghost predicate Recoverable(st: RootState, root: string, gens: set<seq<File>>) {
    Whole(st.live, root, gens) || Whole(st.retired, root, gens)
  }

  ghost predicate Survives(st: RootState, root: string, gens: set<seq<File>>) {
    Recoverable(st, root, gens) || Whole(st.staging, root, gens)
  }

  lemma RunKeepsACopy(s: Roots, files: seq<File>, faults: Faults, gens: set<seq<File>>, i: nat)
    requires i < |ROOTS| && HasFiles(files, ROOTS[i]) && AllIntact(s, gens) && Recoverable(s[i], ROOTS[i], gens)
    ensures Survives(Run(s, files, faults).0[i], ROOTS[i], gens + {files})
  {
    hide Swapped, Run, Installed;
    var root := ROOTS[i];
    RunAt(s, files, faults, i);
    FilesUnderMeaning(files, root);
    InstalledExactly(Generation(files, root), files, root);
    assert Whole(Generation(files, root), root, gens + {files});
    if s[i].live.Dir? { WholeIsNonempty(s[i].live, root, gens); }
    if Whole(s[i].live, root, gens) { WholeGrows(s[i].live, root, gens, {files}); }
    if Whole(s[i].retired, root, gens) { WholeGrows(s[i].retired, root, gens, {files}); }
    SwapIsAtomic(Ready(s[i], files, root), FilesUnder(files, root) != map[], faults(i));
  }

  /** A crash right after the staging tree is cleared. */
  function Clearing(): RootFaults { NoFaults().(clear := Removal(Crashes, None)) }

  lemma ClearingLoses(s: Roots, files: seq<File>, i: nat)
    requires i < |ROOTS|
    ensures
      var r := Run(s, files, Only(i, Clearing())).0[i];
      r.live == s[i].live && r.retired == s[i].retired && r.staging.Absent?
  {
    var faults := Only(i, Clearing());
    StageAllEffect(s, i, files, faults);
    var before := StageAll(s, i, files, faults);
    assert faults(i) == Clearing();
    assert Staged(before.0[i].staging, files, ROOTS[i], faults(i)) == (Absent, Crashes);
    assert StageAll(s, i + 1, files, faults) == (before.0[i := before.0[i].(staging := Absent)], Crashes);
    StageAllStops(s, i + 1, |ROOTS|, files, faults);
  }

  lemma {:induction false} StageAllStops(s: Roots, m: nat, n: nat, files: seq<File>, faults: Faults)
    requires m <= n <= |ROOTS| && !StageAll(s, m, files, faults).1.Succeeds?
    ensures StageAll(s, n, files, faults) == StageAll(s, m, files, faults)
  {
    if m < n { StageAllStops(s, m, n - 1, files, faults); }
  }

  /** Every interruption of a run leaves some complete generation of a root it has files for,
      exactly when the live or the retired tree is one at the start: a complete staging tree
      alone is cleared first and can be lost. */
  lemma CopySurvivesExactly(s: Roots, files: seq<File>, gens: set<seq<File>>, i: nat)
    requires i < |ROOTS| && HasFiles(files, ROOTS[i]) && AllIntact(s, gens) && files in gens
    ensures (forall faults :: Survives(Run(s, files, faults).0[i], ROOTS[i], gens)) <==>
      Recoverable(s[i], ROOTS[i], gens)
  {
    assert gens + {files} == gens;
    if Recoverable(s[i], ROOTS[i], gens) {
      forall faults ensures Survives(Run(s, files, faults).0[i], ROOTS[i], gens) {
        RunKeepsACopy(s, files, faults, gens, i);
      }
    } else {
      ClearingLoses(s, files, i);
    }
  }

  // ----- Any number of runs -----

  datatype Attempt = Attempt(files: seq<File>, faults: Faults)

  function After(s: Roots, attempts: seq<Attempt>): Roots {
    if attempts == [] then s
    else
      var n := |attempts| - 1;
      Run(After(s, attempts[..n]), attempts[n].files, attempts[n].faults).0
  }

  ghost function Generations(attempts: seq<Attempt>): set<seq<File>> {
    set a | a in attempts :: a.files
  }

  const FRESH: Roots := [RootState(Absent, Absent, Absent), RootState(Absent, Absent, Absent)]

  /** The attempt does not begin on a root caught mid-swap, such as when the retired tree was
      renamed back first. */
  ghost predicate Settled(s: Roots, files: seq<File>) {
    forall i :: 0 <= i < |ROOTS| ==> !(HasFiles(files, ROOTS[i]) && MidSwap(s[i]))
  }

  lemma SettledNeverTears(s: Roots, files: seq<File>, faults: Faults, gens: set<seq<File>>)
    requires AllIntact(s, gens) && Settled(s, files)
    ensures AllIntact(Run(s, files, faults).0, gens + {files})
  {
    NeverTornExactly(s, files, gens);
  }

  lemma GenerationsGrow(attempts: seq<Attempt>)
    requires attempts != []
    ensures Generations(attempts) == Generations(attempts[..|attempts| - 1]) + {attempts[|attempts| - 1].files}
  {
    assert attempts == attempts[..|attempts| - 1] + [attempts[|attempts| - 1]];
  }

  ghost predicate SettledAt(attempts: seq<Attempt>, k: nat)
    requires k < |attempts|
  {
    Settled(After(FRESH, attempts[..k]), attempts[k].files)
  }

  lemma SettledPrefix(attempts: seq<Attempt>, n: nat, k: nat)
    requires k < n <= |attempts|
    ensures SettledAt(attempts[..n], k) == SettledAt(attempts, k)
  {
    assert attempts[..n][..k] == attempts[..k];
  }

  lemma LastRun(attempts: seq<Attempt>)
    requires attempts != []
    ensures
      var n := |attempts| - 1;
      After(FRESH, attempts) == Run(After(FRESH, attempts[..n]), attempts[n].files, attempts[n].faults).0
  {
    hide Run;
  }

  /** Over any number of runs, failed and interrupted ones included, each live root is always
      absent or one complete generation, as long as no run begins on a root caught mid-swap. */
  lemma {:induction false} RunsNeverTear(attempts: seq<Attempt>)
    requires forall k: nat :: k < |attempts| ==> SettledAt(attempts, k)
    ensures AllIntact(After(FRESH, attempts), Generations(attempts))
  {
    if attempts != [] {
      hide After, AllIntact, Run, Generations, Settled;
      var n := |attempts| - 1;
      assert SettledAt(attempts, n);
      forall k: nat | k < n ensures SettledAt(attempts[..n], k) { SettledPrefix(attempts, n, k); }
      RunsNeverTear(attempts[..n]);
      SettledNeverTears(After(FRESH, attempts[..n]), attempts[n].files, attempts[n].faults, Generations(attempts[..n]));
      LastRun(attempts);
      GenerationsGrow(attempts);
    } else {
      NothingTorn();
    }
  }

  lemma NothingTorn()
    ensures AllIntact(After(FRESH, []), Generations([]))
  {
    assert After(FRESH, []) == FRESH;
  }

  function Stopping(): RootFaults {
    NoFaults().(install := Renaming(Crashes, false, true, false))
  }

  /** Killed after the leftover retired tree is removed. */
  function Forgetting(): RootFaults { NoFaults().(stat := Crashes) }

  lemma StopsMidSwap(s: Roots, files: seq<File>, i: nat)
    requires i < |ROOTS| && HasFiles(files, ROOTS[i]) && s[i].live.Dir?
    ensures Run(s, files, Only(i, Stopping())).0[i] ==
      RootState(Absent, Dir(FilesUnder(files, ROOTS[i])), s[i].live)
  {
    FilesUnderMeaning(files, ROOTS[i]);
    RunReaches(s, files, Only(i, Stopping()), i);
  }

  /** Three runs of the same files, the second killed between its renames and the third
      failing, take a fresh project to a live root with nothing in it. */
  lemma TornAfterThreeRuns(files: seq<File>, i: nat)
    requires i < |ROOTS| && HasFiles(files, ROOTS[i])
    ensures
      var runs := [Attempt(files, Only(i, NoFaults())), Attempt(files, Only(i, Stopping())), Attempt(files, Only(i, Tearing()))];
      After(FRESH, runs)[i].live == Dir(map[])
  {
    var one := Attempt(files, Only(i, NoFaults()));
    var two := Attempt(files, Only(i, Stopping()));
    var three := Attempt(files, Only(i, Tearing()));
    FilesUnderMeaning(files, ROOTS[i]);
    AfterOne(FRESH, one);
    AfterTwo(FRESH, one, two);
    assert [one, two, three][..2] == [one, two];
    ConvergesTo(FRESH, files, one.faults);
    var first := Run(FRESH, files, one.faults).0;
    StopsMidSwap(first, files, i);
    var second := Run(first, files, two.faults).0;
    RunTears(second, files, i);
  }

  lemma AfterOne(s: Roots, a: Attempt)
    ensures After(s, [a]) == Run(s, a.files, a.faults).0
  {
    assert [a][..0] == [];
  }

  lemma AfterTwo(s: Roots, a: Attempt, b: Attempt)
    ensures After(s, [a, b]) == Run(Run(s, a.files, a.faults).0, b.files, b.faults).0
  {
    AfterOne(s, a);
    assert [a, b][..1] == [a];
  }

  /** Three interrupted runs after a good one leave no complete generation in any slot. */
  lemma LostAfterFourRuns(files: seq<File>, i: nat)
    requires i < |ROOTS| && HasFiles(files, ROOTS[i])
    ensures
      var runs := [Attempt(files, Only(i, NoFaults())), Attempt(files, Only(i, Stopping())),
                   Attempt(files, Only(i, Forgetting())), Attempt(files, Only(i, Clearing()))];
      After(FRESH, runs)[i] == RootState(Absent, Absent, Absent)
  {
    var one := Attempt(files, Only(i, NoFaults()));
    var two := Attempt(files, Only(i, Stopping()));
    var three := Attempt(files, Only(i, Forgetting()));
    var four := Attempt(files, Only(i, Clearing()));
    FilesUnderMeaning(files, ROOTS[i]);
    AfterTwo(FRESH, one, two);
    assert [one, two, three][..2] == [one, two];
    assert [one, two, three, four][..3] == [one, two, three];
    ConvergesTo(FRESH, files, one.faults);
    var first := Run(FRESH, files, one.faults).0;
    StopsMidSwap(first, files, i);
    var second := Run(first, files, two.faults).0;
    RunReaches(second, files, three.faults, i);
    var third := Run(second, files, three.faults).0;
    assert third[i] == RootState(Absent, Dir(FilesUnder(files, ROOTS[i])), Absent);
    ClearingLoses(third, files, i);
  }

  // ----- The code -----

  function RootAt(d: Layout, root: string): RootState {
    RootState(At(d, root), At(d, Staging(root)), At(d, Retired(root)))
  }

  function View(d: Layout): Roots {
    seq(|ROOTS|, i requires 0 <= i < |ROOTS| => RootAt(d, ROOTS[i]))
  }

  ghost predicate SameElsewhere(d: Layout, e: Layout) {
    forall p :: p !in TOUCHED ==> At(d, p) == At(e, p)
  }

  method StageRoot(disk: Disk, i: nat, files: seq<File>, f: RootFaults) returns (v: Verdict, hasFiles: bool)
    requires i < |ROOTS|
    modifies disk
    ensures
      var r := Staged(At(old(disk.dirs), Staging(ROOTS[i])), files, ROOTS[i], f);
      At(disk.dirs, Staging(ROOTS[i])) == r.0 && v == r.1
    ensures forall p :: p != Staging(ROOTS[i]) ==> At(disk.dirs, p) == At(old(disk.dirs), p)
    ensures v.Succeeds? ==> hasFiles == (FilesUnder(files, ROOTS[i]) != map[])
  {
    hide Staging;
    var staging := Staging(ROOTS[i]);
    hasFiles := false;
    v := disk.RemoveAll(staging, f.clear);
    if !v.Succeeds? { return; }
    ghost var cleared := At(disk.dirs, staging);
    assert files[..0] == [];
    for k := 0 to |files|
      invariant v.Succeeds? && StagedFiles(cleared, files[..k], ROOTS[i], f.writes) == (At(disk.dirs, staging), v)
      invariant forall p :: p != staging ==> At(disk.dirs, p) == At(old(disk.dirs), p)
      invariant hasFiles == (FilesUnder(files[..k], ROOTS[i]) != map[])
    {
      assert files[..k + 1][..k] == files[..k];
      match UnderRoot(files[k].path, ROOTS[i])
      case None =>
      case Some(rel) =>
        v := disk.Write(staging, rel, files[k].content, f.writes(k));
        if !v.Succeeds? {
          StagedStops(cleared, files, k + 1, ROOTS[i], f.writes);
          return;
        }
        hasFiles := true;
        assert rel in FilesUnder(files[..k + 1], ROOTS[i]);
    }
    assert files[..|files|] == files;
  }

  lemma {:induction false} StagedStops(start: Slot, files: seq<File>, k: nat, root: string, writes: nat -> Writing)
    requires k <= |files| && !StagedFiles(start, files[..k], root, writes).1.Succeeds?
    ensures StagedFiles(start, files, root, writes) == StagedFiles(start, files[..k], root, writes)
    decreases |files|
  {
    if k < |files| {
      assert files[..|files| - 1][..k] == files[..k];
      StagedStops(start, files[..|files| - 1], k, root, writes);
    } else {
      assert files[..k] == files;
    }
  }

  ghost predicate OnlyRoot(d: Layout, e: Layout, root: string) {
    forall p :: p !in {root, Staging(root), Retired(root)} ==> At(d, p) == At(e, p)
  }

  /** Changing one root's slots changes that entry of the view and nothing elsewhere. */
  lemma ViewChanges(d: Layout, e: Layout, i: nat)
    requires i < |ROOTS| && OnlyRoot(d, e, ROOTS[i])
    ensures View(e) == View(d)[i := RootAt(e, ROOTS[i])]
    ensures SameElsewhere(d, e)
  {
    hide Staging, Retired;
    SlotsDistinct();
    var t := TOUCHED;
    assert t[0] != t[3] && t[0] != t[4] && t[0] != t[5];
    assert t[1] != t[3] && t[1] != t[4] && t[1] != t[5];
    assert t[2] != t[3] && t[2] != t[4] && t[2] != t[5];
  }

  method RetireRoot(disk: Disk, root: string, f: RootFaults) returns (outcome: Outcome)
    requires root in ROOTS
    modifies disk
    ensures (RootAt(disk.dirs, root), outcome) == Retire(RootAt(old(disk.dirs), root), f)
    ensures OnlyRoot(old(disk.dirs), disk.dirs, root)
  {
    SlotsDistinct();
    hide Staging, Retired, Removed, Moves, RenameVerdict;
    var v := disk.RemoveAll(Retired(root), f.clearOld);
    if v.Crashes? { return Crashed; }
    v := disk.Stat(root, f.stat);
    if v.Crashes? { return Crashed; }
    if v.Succeeds? {
      v := disk.Rename(root, Retired(root), f.retire);
      if v.Crashes? { return Crashed; }
      if v.Fails? { return Failed; }
    }
    outcome := Done;
  }

  method InstallRoot(disk: Disk, root: string, f: RootFaults) returns (outcome: Outcome)
    requires root in ROOTS
    modifies disk
    ensures (RootAt(disk.dirs, root), outcome) == Install(RootAt(old(disk.dirs), root), f)
    ensures OnlyRoot(old(disk.dirs), disk.dirs, root)
  {
    SlotsDistinct();
    hide Staging, Retired;
    var v := disk.Rename(Staging(root), root, f.install);
    if v.Crashes? { return Crashed; }
    if v.Fails? {
      v := disk.Rename(Retired(root), root, f.restore);
      return if v.Crashes? then Crashed else Failed;
    }
    outcome := Done;
  }

  method SwapRoot(disk: Disk, root: string, hasFiles: bool, f: RootFaults) returns (outcome: Outcome)
    requires root in ROOTS
    modifies disk
    ensures (RootAt(disk.dirs, root), outcome) == Swapped(RootAt(old(disk.dirs), root), hasFiles, f)
    ensures OnlyRoot(old(disk.dirs), disk.dirs, root)
  {
    SlotsDistinct();
    hide Staging, Retired, Retire, Install, Removed;
    outcome := RetireRoot(disk, root, f);
    if !outcome.Done? { return; }
    if hasFiles {
      outcome := InstallRoot(disk, root, f);
      if !outcome.Done? { return; }
    }
    var v := disk.RemoveAll(Retired(root), f.discard);
    outcome := if v.Crashes? then Crashed else Done;
  }

  lemma {:induction false} SwapAllEnds(s: Roots, n: nat, files: seq<File>, faults: Faults)
    requires n <= |ROOTS|
    ensures !SwapAll(s, n, files, faults).1.Refused?
  {
    if n != 0 { SwapAllEnds(s, n - 1, files, faults); }
  }

  method StageRoots(disk: Disk, files: seq<File>, faults: Faults) returns (v: Verdict, hasFiles: seq<bool>)
    modifies disk
    ensures (View(disk.dirs), v) == StageAll(View(old(disk.dirs)), |ROOTS|, files, faults)
    ensures SameElsewhere(old(disk.dirs), disk.dirs)
    ensures v.Succeeds? ==>
      |hasFiles| == |ROOTS| && forall i :: 0 <= i < |ROOTS| ==> hasFiles[i] == (FilesUnder(files, ROOTS[i]) != map[])
  {
    SlotsDistinct();
    hide Staging, Retired, Staged;
    hasFiles := [];
    v := Succeeds;
    for i := 0 to |ROOTS|
      invariant v.Succeeds? && (View(disk.dirs), v) == StageAll(View(old(disk.dirs)), i, files, faults)
      invariant SameElsewhere(old(disk.dirs), disk.dirs)
      invariant |hasFiles| == i && forall j :: 0 <= j < i ==> hasFiles[j] == (FilesUnder(files, ROOTS[j]) != map[])
    {
      ghost var before := disk.dirs;
      var has: bool;
      v, has := StageRoot(disk, i, files, faults(i));
      ViewChanges(before, disk.dirs, i);
      if !v.Succeeds? {
        StageAllStops(View(old(disk.dirs)), i + 1, |ROOTS|, files, faults);
        return;
      }
      hasFiles := hasFiles + [has];
    }
  }

  method CleanUp(disk: Disk, faults: Faults) returns (outcome: Outcome)
    modifies disk
    ensures (View(disk.dirs), outcome) == Cleaned(View(old(disk.dirs)), |ROOTS|, faults)
    ensures SameElsewhere(old(disk.dirs), disk.dirs)
  {
    SlotsDistinct();
    hide Staging, Retired;
    for i := 0 to |ROOTS|
      invariant (View(disk.dirs), Failed) == Cleaned(View(old(disk.dirs)), i, faults)
      invariant SameElsewhere(old(disk.dirs), disk.dirs)
    {
      ghost var before := disk.dirs;
      var v := disk.RemoveAll(Staging(ROOTS[i]), faults(i).cleanup);
      ViewChanges(before, disk.dirs, i);
      if v.Crashes? {
        CleanedStops(View(old(disk.dirs)), i + 1, |ROOTS|, faults);
        return Crashed;
      }
    }
    outcome := Failed;
  }

  lemma {:induction false} CleanedStops(s: Roots, m: nat, n: nat, faults: Faults)
    requires m <= n <= |ROOTS| && Cleaned(s, m, faults).1.Crashed?
    ensures Cleaned(s, n, faults) == Cleaned(s, m, faults)
  {
    if m < n { CleanedStops(s, m, n - 1, faults); }
  }

  method SwapRoots(disk: Disk, hasFiles: seq<bool>, ghost files: seq<File>, faults: Faults) returns (outcome: Outcome)
    requires |hasFiles| == |ROOTS|
    requires forall i :: 0 <= i < |ROOTS| ==> hasFiles[i] == (FilesUnder(files, ROOTS[i]) != map[])
    modifies disk
    ensures (View(disk.dirs), outcome) == SwapAll(View(old(disk.dirs)), |ROOTS|, files, faults)
    ensures SameElsewhere(old(disk.dirs), disk.dirs)
  {
    SlotsDistinct();
    hide Staging, Retired, Swapped;
    outcome := Done;
    for i := 0 to |ROOTS|
      invariant outcome.Done? && (View(disk.dirs), outcome) == SwapAll(View(old(disk.dirs)), i, files, faults)
      invariant SameElsewhere(old(disk.dirs), disk.dirs)
    {
      ghost var before := disk.dirs;
      outcome := SwapRoot(disk, ROOTS[i], hasFiles[i], faults(i));
      ViewChanges(before, disk.dirs, i);
      if !outcome.Done? {
        SwapAllStops(View(old(disk.dirs)), i + 1, |ROOTS|, files, faults);
        return;
      }
    }
  }

  lemma DoneOnDisk(d: Layout, files: seq<File>, s: Roots, faults: Faults)
    requires (View(d), Done) == Run(s, files, faults)
    ensures forall i: nat :: i < |ROOTS| && HasFiles(files, ROOTS[i]) ==> Installed(At(d, ROOTS[i]), files, ROOTS[i])
  {
    hide Run, Installed, Staging, Retired;
    forall i: nat | i < |ROOTS| && HasFiles(files, ROOTS[i]) ensures Installed(At(d, ROOTS[i]), files, ROOTS[i]) {
      DoneMeansInstalled(s, files, faults, i);
      assert View(d)[i].live == At(d, ROOTS[i]);
    }
  }

  /** An empty or misplaced file set is refused before the disk is touched; otherwise the six
      directories change as the run says and nothing else does. When the run reports success,
      each root with files holds exactly those, each with its content. */
  method Materialize(disk: Disk, dir: string, files: seq<File>, faults: Faults) returns (outcome: Outcome)
    modifies disk
    ensures outcome.Refused? <==> dir == "" || !Acceptable(files)
    ensures outcome.Refused? ==> disk.dirs == old(disk.dirs)
    ensures !outcome.Refused? ==> (View(disk.dirs), outcome) == Run(View(old(disk.dirs)), files, faults)
    ensures outcome.Done? ==> forall i: nat :: i < |ROOTS| && HasFiles(files, ROOTS[i]) ==>
      Installed(At(disk.dirs, ROOTS[i]), files, ROOTS[i])
    ensures SameElsewhere(old(disk.dirs), disk.dirs)
  {
    hide Accepted, Staging, Retired, View, StageAll, SwapAll, Cleaned, Installed, HasFiles;
    if dir == "" || files == [] { return Refused; }
    for k := 0 to |files|
      invariant forall j :: 0 <= j < k ==> Accepted(files[j].path)
    {
      if !Accepted(files[k].path) { return Refused; }
    }
    outcome := Execute(disk, files, faults);
    if outcome.Done? { DoneOnDisk(disk.dirs, files, View(old(disk.dirs)), faults); }
  }

  method Execute(disk: Disk, files: seq<File>, faults: Faults) returns (outcome: Outcome)
    modifies disk
    ensures (View(disk.dirs), outcome) == Run(View(old(disk.dirs)), files, faults)
    ensures SameElsewhere(old(disk.dirs), disk.dirs) && !outcome.Refused?
  {
    hide Staging, Retired, View, StageAll, SwapAll, Cleaned, FilesUnder, TOUCHED;
    var v, hasFiles := StageRoots(disk, files, faults);
    if v.Crashes? { return Crashed; }
    ghost var staged := View(disk.dirs);
    if v.Fails? {
      outcome := CleanUp(disk, faults);
      CleanedEnds(staged, |ROOTS|, faults);
      return;
    }
    outcome := SwapRoots(disk, hasFiles, files, faults);
    SwapAllEnds(staged, |ROOTS|, files, faults);
  }

  lemma {:induction false} CleanedEnds(s: Roots, n: nat, faults: Faults)
    requires n <= |ROOTS|
    ensures !Cleaned(s, n, faults).1.Refused?
  {
    if n != 0 { CleanedEnds(s, n - 1, faults); }
  }
}
