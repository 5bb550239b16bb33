/** The file-system calls the compiler makes, with everything a fault or a crash may leave
    behind. A call's fate is an argument, so a statement over all fates is a statement over
    all interruptions. */
module FileSystem {
  import opened Text

  /** A directory's files by slash path. */
  type Tree = map<string, string>

  datatype Slot = Absent | Dir(tree: Tree)

  /** Directory slots by project path; a path that is not a key is absent. */
  type Layout = map<string, Slot>

  function At(d: Layout, p: string): Slot { if p in d then d[p] else Absent }

  datatype Verdict = Succeeds | Fails | Crashes

  /** os.RemoveAll: stopped early, it has removed any subset of the files, or everything. */
  datatype Removal = Removal(verdict: Verdict, left: Option<set<string>>)

  function Removed(s: Slot, e: Removal): Slot {
    if s.Absent? || e.verdict.Succeeds? || e.left.None? then Absent
    else Dir(map p | p in s.tree && p in e.left.value :: s.tree[p])
  }

  /** os.Rename of a directory: atomic, and refused onto a directory that holds a file. One
      without files is refused too while it still has subdirectories. */
  datatype Renaming = Renaming(verdict: Verdict, moved: bool, ontoEmpty: bool, crossDevice: bool)

  predicate Movable(src: Slot, dst: Slot, e: Renaming) {
    src.Dir? && (dst.Absent? || (dst.tree == map[] && e.ontoEmpty))
  }

  predicate Moves(src: Slot, dst: Slot, e: Renaming) {
    Movable(src, dst, e) && (e.verdict.Succeeds? || (e.verdict.Crashes? && e.moved))
  }

  function RenameVerdict(src: Slot, dst: Slot, e: Renaming): Verdict {
    if e.verdict.Crashes? then Crashes
    else if Moves(src, dst, e) then Succeeds
    else Fails
  }

  /** os.MkdirAll of the parent followed by os.WriteFile: an interrupted write leaves the file
      as it was or with any content at all. */
  datatype Writing = Writing(mkdir: Verdict, made: bool, write: Verdict, written: Option<string>)

  function WithDir(s: Slot, made: bool): Slot { if s.Absent? && made then Dir(map[]) else s }

  function Wrote(s: Slot, rel: string, content: string, e: Writing): Slot {
    if !e.mkdir.Succeeds? then WithDir(s, e.made)
    else
      var d := WithDir(s, true);
      if e.write.Succeeds? then Dir(d.tree[rel := content])
      else if e.written.Some? then Dir(d.tree[rel := e.written.value])
      else d
  }

  function WriteVerdict(e: Writing): Verdict { if e.mkdir.Succeeds? then e.write else e.mkdir }

  /** copyDirVerbatim into a directory that is not there yet: stopped early, it leaves nothing
      or any partial tree. */
  datatype Copying = Copying(verdict: Verdict, made: Slot)

  function Copied(src: Slot, e: Copying): Slot { if e.verdict.Succeeds? then src else e.made }

  // ----- What the fates of a call allow, all of them together -----

  /** A removal that does not succeed may leave any part of the tree and nothing else; one
      that succeeds leaves nothing. */
  lemma RemovalAllows(s: Slot, t: Slot)
    requires s.Dir?
    ensures (exists e: Removal :: !e.verdict.Succeeds? && Removed(s, e) == t) <==>
      t.Absent? || (forall p :: p in t.tree ==> p in s.tree && t.tree[p] == s.tree[p])
    ensures (exists e: Removal :: e.verdict.Succeeds? && Removed(s, e) == t) <==> t.Absent?
  {
    if t.Absent? {
      assert Removed(s, Removal(Fails, None)) == t;
      assert Removed(s, Removal(Succeeds, None)) == t;
    } else if forall p :: p in t.tree ==> p in s.tree && t.tree[p] == s.tree[p] {
      var left := Removed(s, Removal(Fails, Some(t.tree.Keys)));
      assert left.tree == t.tree;
    }
  }

  /** The two slots after a rename. */
  function Renamed(src: Slot, dst: Slot, e: Renaming): (Slot, Slot) {
    if Moves(src, dst, e) then (Absent, src) else (src, dst)
  }

  /** A rename is all or nothing: whatever its fate, both places are as they were, or the whole
      source tree is at the destination, which held no file, and nowhere else. Which of the two
      is known unless it crashed. */
  lemma RenameAllOrNothing(src: Slot, dst: Slot, e: Renaming)
    ensures
      var r := Renamed(src, dst, e);
      var noFiles := dst.Absent? || dst.tree == map[];
      && (r == (src, dst) || (src.Dir? && noFiles && r == (Absent, src)))
      && (RenameVerdict(src, dst, e).Succeeds? ==> src.Dir? && noFiles && r == (Absent, src))
      && (RenameVerdict(src, dst, e).Fails? ==> r == (src, dst))
      && ((dst.Dir? && dst.tree != map[]) || src.Absent? ==> !RenameVerdict(src, dst, e).Succeeds?)
  {
  }

  /** A write touches one file: every other file of the directory stays, and none appears. When
      it succeeds the file has the content; when it does not, the file may be missing, as it
      was, or hold anything. */
  lemma WriteTouchesOne(s: Slot, rel: string, content: string, e: Writing)
    ensures
      var before := if s.Dir? then s.tree else map[];
      var after := if Wrote(s, rel, content, e).Dir? then Wrote(s, rel, content, e).tree else map[];
      && (forall p :: p != rel ==> (p in after <==> p in before))
      && (forall p :: p != rel && p in before ==> after[p] == before[p])
      && (WriteVerdict(e).Succeeds? ==> rel in after && after[rel] == content)
      && (rel in before ==> rel in after)
  {
  }

  lemma InterruptedWriteAllows(s: Slot, rel: string, content: string, left: string)
    ensures exists e: Writing ::
      !WriteVerdict(e).Succeeds? && Wrote(s, rel, content, e) == Dir((if s.Dir? then s.tree else map[])[rel := left])
  {
    var e := Writing(Succeeds, true, Fails, Some(left));
    assert Wrote(s, rel, content, e) == Dir((if s.Dir? then s.tree else map[])[rel := left]);
  }

  /** A copy that succeeds makes the same tree again; one that does not may leave anything at
      the destination, the whole tree included. */
  lemma CopyAllows(src: Slot, made: Slot)
    ensures (exists e: Copying :: e.verdict.Succeeds? && Copied(src, e) == made) <==> made == src
    ensures exists e: Copying :: !e.verdict.Succeeds? && Copied(src, e) == made
  {
    assert Copied(src, Copying(Succeeds, Absent)) == src;
    assert Copied(src, Copying(Fails, made)) == made;
  }

  class Disk {
    var dirs: Layout

    constructor (dirs: Layout)
      ensures this.dirs == dirs
    {
      this.dirs := dirs;
    }

    function Slot(p: string): Slot reads this { At(dirs, p) }

    method RemoveAll(p: string, e: Removal) returns (v: Verdict)
      modifies this
      ensures dirs == old(dirs)[p := Removed(old(Slot(p)), e)]
      ensures v == e.verdict
    {
      dirs := dirs[p := Removed(At(dirs, p), e)];
      v := e.verdict;
    }

    /** An error other than absence reports Fails; the callers here treat every error alike. */
    method Stat(p: string, e: Verdict) returns (v: Verdict)
      ensures v == if e.Succeeds? && Slot(p).Absent? then Fails else e
    {
      v := if e.Succeeds? && At(dirs, p).Absent? then Fails else e;
    }

    method Rename(src: string, dst: string, e: Renaming) returns (v: Verdict)
      requires src != dst
      modifies this
      ensures v == RenameVerdict(old(Slot(src)), old(Slot(dst)), e)
      ensures dirs ==
        if Moves(old(Slot(src)), old(Slot(dst)), e) then old(dirs)[src := Absent][dst := old(Slot(src))] else old(dirs)
      ensures (Slot(src), Slot(dst)) == Renamed(old(Slot(src)), old(Slot(dst)), e)
    {
      var from, onto := At(dirs, src), At(dirs, dst);
      v := RenameVerdict(from, onto, e);
      if Moves(from, onto, e) {
        dirs := dirs[src := Absent][dst := from];
      }
    }

    method Write(p: string, rel: string, content: string, e: Writing) returns (v: Verdict)
      modifies this
      ensures dirs == old(dirs)[p := Wrote(old(Slot(p)), rel, content, e)]
      ensures v == WriteVerdict(e)
    {
      dirs := dirs[p := Wrote(At(dirs, p), rel, content, e)];
      v := WriteVerdict(e);
    }

    method Copy(src: string, dst: string, e: Copying) returns (v: Verdict)
      requires src != dst && Slot(dst).Absent?
      modifies this
      ensures dirs == old(dirs)[dst := Copied(old(Slot(src)), e)]
      ensures v == e.verdict
    {
      dirs := dirs[dst := Copied(At(dirs, src), e)];
      v := e.verdict;
    }
  }
}
