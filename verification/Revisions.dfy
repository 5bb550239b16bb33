/** The revision chain of a project under concurrent transactions
    (controlplane/internal/project/service.go). A transaction locks the project row, reads its
    head, inserts a revision, advances the head and commits; the steps of any number of
    clients interleave, and a transaction may be rolled back after any of them. */
module Revisions {
  import opened Text
  import opened Names
  import opened Spec
  import opened WellFormed
  import opened Abi
  import opened Deletion
  import Classify
  import Validator
  import Extensions
  import Lineage

  /** The library answers a validation needs and spec.Hash. */
  datatype Env = Env(lib: Library, hash: ProjectSpec -> string)

  /** What a transaction wants: CreateRevision of a spec, DeleteResource, or an edit built from
      the locked head; SubmitCandidate is the edit that ignores it. */
  datatype Op =
    | Create(spec: Option<ProjectSpec>)
    | Edit(build: Option<ProjectSpec> -> Option<ProjectSpec>)
    | Delete(resource: ID)

  /** Which operation made a revision; the code keeps this in the audit log. */
  datatype Via = ByCreate | ByEdit | ByDelete(resource: ID)

  datatype Revision = Revision(
    project: nat, version: int, spec: ProjectSpec, hash: string, parent: Option<nat>, via: Via)

  datatype Client =
    | Idle
    | Locked(pid: nat, op: Op, head: Option<nat>)
    | Inserted(pid: nat, id: nat, rev: Revision)
    | Advanced(pid: nat, id: nat, rev: Revision)

  /** Committed rows, the ID sequence, the row locks and what each transaction holds. Rows an
      open transaction wrote are visible to it alone. */
  datatype Db = Db(
    projects: map<nat, Option<nat>>,
    revisions: map<nat, Revision>,
    next: nat,
    locks: map<nat, nat>,
    clients: map<nat, Client>)

  const EMPTY: Db := Db(map[], map[], 1, map[], map[])

  function ClientOf(d: Db, c: nat): Client { if c in d.clients then d.clients[c] else Idle }

  function SpecAt(d: Db, head: Option<nat>): Option<ProjectSpec> {
    if head.Some? && head.value in d.revisions then Some(d.revisions[head.value].spec) else None
  }

  // ----- The decision of a transaction -----

  ghost predicate Gate(current: Option<ProjectSpec>, candidate: ProjectSpec) {
    current.Some? ==> NonBreaking(AbiOf(current.value), AbiOf(candidate))
  }

  /** The spec a transaction appends, if any. */
  ghost function Decided(lib: Library, op: Op, current: Option<ProjectSpec>): Option<ProjectSpec> {
    match op
    case Create(s) => if Classify.Valid(lib, s) then s else None
    case Edit(build) =>
      var candidate := build(current);
      if Classify.Valid(lib, candidate) && Gate(current, candidate.value) then candidate else None
    case Delete(id) =>
      if current.None? || FindResource(current.value.resources, id).None? then None
      else if WellFormedSpec(lib, Without(current.value, {id})) then Some(Without(current.value, {id}))
      else None
  }

  function ViaOf(op: Op): Via {
    match op
    case Create(_) => ByCreate
    case Edit(_) => ByEdit
    case Delete(id) => ByDelete(id)
  }

  // ----- Steps -----

  datatype Action =
    | NewProject(pid: nat)
    | Lock(c: nat, pid: nat, op: Op)
    | Insert(c: nat)
    | Advance(c: nat)
    | Commit(c: nat)
    /** A rollback, a crash, or the commit of a transaction that appends nothing. */
    | Release(c: nat)

  ghost predicate Enabled(env: Env, d: Db, a: Action) {
    match a
    case NewProject(pid) => pid !in d.projects
    case Lock(c, pid, _) => ClientOf(d, c).Idle? && pid in d.projects && pid !in d.locks
    case Insert(c) =>
      && ClientOf(d, c).Locked?
      && Decided(env.lib, ClientOf(d, c).op, SpecAt(d, ClientOf(d, c).head)).Some?
    case Advance(c) => ClientOf(d, c).Inserted?
    case Commit(c) => ClientOf(d, c).Advanced?
    case Release(c) => !ClientOf(d, c).Idle?
  }

  function Unlocked(d: Db, c: nat): Db
    requires !ClientOf(d, c).Idle?
  {
    d.(locks := d.locks - {ClientOf(d, c).pid}, clients := d.clients[c := Idle])
  }

  ghost function Next(env: Env, d: Db, a: Action): Db
    requires Enabled(env, d, a)
  {
    match a
    case NewProject(pid) => d.(projects := d.projects[pid := None])
    case Lock(c, pid, op) =>
      d.(locks := d.locks[pid := c], clients := d.clients[c := Locked(pid, op, d.projects[pid])])
    case Insert(c) =>
      var t := ClientOf(d, c);
      var s := Decided(env.lib, t.op, SpecAt(d, t.head)).value;
      var rev := Revision(t.pid, s.version, s, env.hash(s), t.head, ViaOf(t.op));
      d.(next := d.next + 1, clients := d.clients[c := Inserted(t.pid, d.next, rev)])
    case Advance(c) =>
      var t := ClientOf(d, c);
      d.(clients := d.clients[c := Advanced(t.pid, t.id, t.rev)])
    case Commit(c) =>
      var t := ClientOf(d, c);
      Unlocked(d, c).(revisions := d.revisions[t.id := t.rev], projects := d.projects[t.pid := Some(t.id)])
    case Release(c) => Unlocked(d, c)
  }

  // ----- The chain -----

  ghost predicate ParentsOlder(revs: map<nat, Revision>) {
    forall id :: id in revs && revs[id].parent.Some? ==> revs[id].parent.value in revs && revs[id].parent.value < id
  }

  /** The revisions met by following parents, oldest first. */
  ghost function Chain(revs: map<nat, Revision>, at: Option<nat>): seq<nat>
    requires ParentsOlder(revs) && (at.Some? ==> at.value in revs)
    decreases if at.Some? then at.value + 1 else 0
  {
    if at.None? then [] else Chain(revs, revs[at.value].parent) + [at.value]
  }

  ghost predicate LinkedAt(revs: map<nat, Revision>, ids: seq<nat>, i: nat)
    requires i < |ids|
  {
    ids[i] in revs && revs[ids[i]].parent == (if i == 0 then None else Some(ids[i - 1]))
  }

  ghost predicate Linked(revs: map<nat, Revision>, ids: seq<nat>) {
    forall i: nat :: i < |ids| ==> LinkedAt(revs, ids, i)
  }

  lemma {:induction false} ChainIsLinked(revs: map<nat, Revision>, at: Option<nat>)
    requires ParentsOlder(revs) && (at.Some? ==> at.value in revs)
    ensures Linked(revs, Chain(revs, at))
    ensures at.Some? ==> Chain(revs, at) != [] && Chain(revs, at)[|Chain(revs, at)| - 1] == at.value
    ensures forall i, j :: 0 <= i < j < |Chain(revs, at)| ==> Chain(revs, at)[i] < Chain(revs, at)[j]
    decreases if at.Some? then at.value + 1 else 0
  {
    if at.Some? {
      var parent := revs[at.value].parent;
      ChainIsLinked(revs, parent);
      var init := Chain(revs, parent);
      assert Chain(revs, at) == init + [at.value];
      assert parent.None? ==> init == [];
      forall i: nat | i <= |init| ensures LinkedAt(revs, Chain(revs, at), i) {
        if i < |init| { assert LinkedAt(revs, init, i); }
      }
      forall i, j | 0 <= i < j <= |init| ensures Chain(revs, at)[i] < Chain(revs, at)[j] {
        if j == |init| && i < j - 1 { assert init[i] < init[j - 1]; }
      }
    }
  }

  lemma {:induction false} ChainStable(revs: map<nat, Revision>, more: map<nat, Revision>, at: Option<nat>)
    requires ParentsOlder(revs) && ParentsOlder(more) && (at.Some? ==> at.value in revs)
    requires forall id :: id in revs ==> id in more && more[id] == revs[id]
    ensures Chain(more, at) == Chain(revs, at)
    decreases if at.Some? then at.value + 1 else 0
  {
    if at.Some? { ChainStable(revs, more, revs[at.value].parent); }
  }

  // ----- The invariant -----

  /** A spec follows its parent: it was gated, or a resource was removed, or it was created. */
  ghost predicate Follows(revs: map<nat, Revision>, rev: Revision) {
    var before := if rev.parent.Some? && rev.parent.value in revs then Some(revs[rev.parent.value].spec) else None;
    match rev.via
    case ByCreate => true
    case ByEdit => Gate(before, rev.spec)
    case ByDelete(id) =>
      before.Some? && FindResource(before.value.resources, id).Some? && rev.spec == Without(before.value, {id})
  }

  ghost predicate RevisionOK(env: Env, revs: map<nat, Revision>, rev: Revision) {
    && WellFormedSpec(env.lib, rev.spec)
    && rev.version == rev.spec.version
    && rev.hash == env.hash(rev.spec)
    && (rev.parent.Some? ==> rev.parent.value in revs && revs[rev.parent.value].project == rev.project)
    && Follows(revs, rev)
  }

  ghost predicate RowsOK(env: Env, d: Db) {
    && ParentsOlder(d.revisions)
    && forall id :: id in d.revisions ==>
         id < d.next && d.revisions[id].project in d.projects && RevisionOK(env, d.revisions, d.revisions[id])
  }

  /** A project's chain is exactly its revisions. */
  ghost predicate Linear(d: Db, pid: nat)
    requires pid in d.projects && ParentsOlder(d.revisions)
  {
    var head := d.projects[pid];
    && (head.Some? ==> head.value in d.revisions)
    && forall id :: id in Chain(d.revisions, head) <==> id in d.revisions && d.revisions[id].project == pid
  }

  ghost predicate AllLinear(d: Db)
    requires ParentsOlder(d.revisions)
  {
    forall pid :: pid in d.projects ==> Linear(d, pid)
  }

  ghost predicate TransactionOK(env: Env, d: Db, c: nat) {
    var t := ClientOf(d, c);
    t.Idle? ||
    (&& t.pid in d.projects
     && t.pid in d.locks && d.locks[t.pid] == c
     && (t.Locked? ==> t.head == d.projects[t.pid])
     && (!t.Locked? ==>
          && t.rev.parent == d.projects[t.pid]
          && t.rev.project == t.pid
          && t.id < d.next && t.id !in d.revisions
          && (t.rev.parent.Some? ==> t.rev.parent.value < t.id)
          && RevisionOK(env, d.revisions, t.rev)))
  }

  ghost predicate FreshIDs(d: Db) {
    forall c, e :: c != e && c in d.clients && e in d.clients
      && (d.clients[c].Inserted? || d.clients[c].Advanced?) && (d.clients[e].Inserted? || d.clients[e].Advanced?)
      ==> d.clients[c].id != d.clients[e].id
  }

  ghost predicate Inv(env: Env, d: Db) {
    && RowsOK(env, d)
    && AllLinear(d)
    && (forall c :: c in d.clients ==> TransactionOK(env, d, c))
    && FreshIDs(d)
  }

  // ----- Every step keeps it -----

  lemma HeadIsValid(env: Env, d: Db, pid: nat)
    requires RowsOK(env, d) && pid in d.projects && Linear(d, pid)
    ensures
      var head := d.projects[pid];
      head.Some? ==>
        && head.value in d.revisions && head.value < d.next && d.revisions[head.value].project == pid
        && SpecAt(d, head) == Some(d.revisions[head.value].spec)
        && WellFormedSpec(env.lib, SpecAt(d, head).value)
  {
    hide WellFormedSpec;
    ChainIsLinked(d.revisions, d.projects[pid]);
  }

  lemma DecidedFollows(env: Env, op: Op, revs: map<nat, Revision>, rev: Revision)
    requires rev.via == ViaOf(op) && (rev.parent.Some? ==> rev.parent.value in revs)
    requires Decided(env.lib, op, if rev.parent.Some? then Some(revs[rev.parent.value].spec) else None) == Some(rev.spec)
    ensures WellFormedSpec(env.lib, rev.spec) && Follows(revs, rev)
  {
    hide WellFormedSpec, Gate, Without;
  }

  ghost predicate SameRows(d: Db, e: Db) {
    && e.revisions == d.revisions
    && d.next <= e.next
    && forall pid :: pid in d.projects ==> pid in e.projects && e.projects[pid] == d.projects[pid]
  }

  lemma InsertedIsOK(env: Env, d: Db, c: nat)
    requires RowsOK(env, d) && TransactionOK(env, d, c) && Enabled(env, d, Insert(c))
    requires Linear(d, ClientOf(d, c).pid)
    ensures TransactionOK(env, Next(env, d, Insert(c)), c)
  {
    var t, e := ClientOf(d, c), Next(env, d, Insert(c));
    var rev := ClientOf(e, c).rev;
    assert rev.parent == d.projects[t.pid];
    assert e.locks == d.locks && SameRows(d, e);
    InsertIsOK(env, d, t, rev);
    hide RowsOK, Linear, RevisionOK, Decided;
    RowsBelowNext(env, d);
  }

  lemma InsertIsOK(env: Env, d: Db, t: Client, rev: Revision)
    requires RowsOK(env, d) && t.Locked? && t.pid in d.projects && Linear(d, t.pid) && t.head == d.projects[t.pid]
    requires Decided(env.lib, t.op, SpecAt(d, t.head)) == Some(rev.spec)
    requires rev == Revision(t.pid, rev.spec.version, rev.spec, env.hash(rev.spec), t.head, ViaOf(t.op))
    ensures RevisionOK(env, d.revisions, rev)
    ensures rev.parent.Some? ==> rev.parent.value < d.next
  {
    hide WellFormedSpec, Chain, Decided, Follows, RevisionOK, RowsOK, Linear;
    HeadIsValid(env, d, t.pid);
    DecidedFollows(env, t.op, d.revisions, rev);
    AppendedIsOK(env, d, rev);
  }

  lemma AppendedIsOK(env: Env, d: Db, rev: Revision)
    requires WellFormedSpec(env.lib, rev.spec) && rev.version == rev.spec.version && rev.hash == env.hash(rev.spec)
    requires rev.parent.Some? ==> rev.parent.value in d.revisions && d.revisions[rev.parent.value].project == rev.project
    requires Follows(d.revisions, rev)
    ensures RevisionOK(env, d.revisions, rev)
  {
    hide WellFormedSpec, Follows;
  }

  lemma RowsBelowNext(env: Env, d: Db)
    requires RowsOK(env, d)
    ensures forall id :: id in d.revisions ==> id < d.next
  {
    hide RevisionOK;
  }

  lemma KeepsRows(env: Env, d: Db, e: Db)
    requires RowsOK(env, d) && AllLinear(d) && SameRows(d, e)
    requires forall pid :: pid in e.projects && pid !in d.projects ==> e.projects[pid].None?
    ensures RowsOK(env, e) && AllLinear(e)
  {
    hide RevisionOK, Chain;
    forall pid | pid in e.projects ensures Linear(e, pid) {
      if pid in d.projects { assert Linear(d, pid); }
      else { NoChain(d.revisions); }
    }
  }

  lemma NoChain(revs: map<nat, Revision>)
    requires ParentsOlder(revs)
    ensures Chain(revs, None) == []
  {
  }

  lemma TransactionKept(env: Env, d: Db, e: Db, c: nat)
    requires TransactionOK(env, d, c) && SameRows(d, e) && ClientOf(e, c) == ClientOf(d, c)
    requires !ClientOf(d, c).Idle? ==> ClientOf(d, c).pid in e.locks && e.locks[ClientOf(d, c).pid] == c
    ensures TransactionOK(env, e, c)
  {
    hide RevisionOK;
  }

  /** Every step but NewProject and Commit leaves the committed rows alone. */
  lemma LocalStepKeepsInv(env: Env, d: Db, a: Action)
    requires Inv(env, d) && Enabled(env, d, a) && !a.NewProject? && !a.Commit?
    ensures Inv(env, Next(env, d, a))
  {
    hide RevisionOK, Chain, Decided, RowsOK, AllLinear, FreshIDs;
    var e := Next(env, d, a);
    KeepsRows(env, d, e);
    ActorStaysOK(env, d, a);
    forall c | c in e.clients ensures TransactionOK(env, e, c) {
      if c != a.c { TransactionKept(env, d, e, c); }
    }
    LocalStepKeepsFresh(env, d, a);
  }

  lemma ActorStaysOK(env: Env, d: Db, a: Action)
    requires Inv(env, d) && Enabled(env, d, a) && !a.NewProject? && !a.Commit?
    ensures TransactionOK(env, Next(env, d, a), a.c)
  {
    hide RevisionOK, Chain, Decided, FreshIDs;
    assert a.c in d.clients ==> TransactionOK(env, d, a.c);
    if a.Insert? {
      assert Linear(d, ClientOf(d, a.c).pid);
      InsertedIsOK(env, d, a.c);
    }
  }

  lemma LocalStepKeepsFresh(env: Env, d: Db, a: Action)
    requires Inv(env, d) && Enabled(env, d, a) && !a.NewProject? && !a.Commit?
    ensures FreshIDs(Next(env, d, a))
  {
    hide RevisionOK, Chain, Decided, RowsOK, AllLinear;
    assert forall c :: c in d.clients && (d.clients[c].Inserted? || d.clients[c].Advanced?) ==>
      TransactionOK(env, d, c) && d.clients[c].id < d.next;
  }

  lemma NewProjectKeepsInv(env: Env, d: Db, pid: nat)
    requires Inv(env, d) && pid !in d.projects
    ensures Inv(env, Next(env, d, NewProject(pid)))
  {
    hide RowsOK, AllLinear, TransactionOK;
    var e := Next(env, d, NewProject(pid));
    KeepsRows(env, d, e);
    forall c | c in e.clients ensures TransactionOK(env, e, c) {
      TransactionStays(env, d, e, c);
    }
  }

  lemma TransactionStays(env: Env, d: Db, e: Db, c: nat)
    requires TransactionOK(env, d, c) && SameRows(d, e) && e.clients == d.clients && e.locks == d.locks
    ensures TransactionOK(env, e, c)
  {
    TransactionKept(env, d, e, c);
  }

  lemma RevisionKept(env: Env, revs: map<nat, Revision>, more: map<nat, Revision>, rev: Revision)
    requires RevisionOK(env, revs, rev)
    requires forall id :: id in revs ==> id in more && more[id] == revs[id]
    ensures RevisionOK(env, more, rev)
  {
    hide WellFormedSpec, Gate;
  }

  ghost predicate Committing(env: Env, d: Db, c: nat) {
    && ClientOf(d, c).Advanced?
    && RowsOK(env, d) && TransactionOK(env, d, c) && Linear(d, ClientOf(d, c).pid)
  }

  lemma CommitKeepsRows(env: Env, d: Db, c: nat)
    requires Committing(env, d, c)
    ensures RowsOK(env, Next(env, d, Commit(c)))
  {
    hide RevisionOK, Chain;
    var t, e := ClientOf(d, c), Next(env, d, Commit(c));
    assert forall id :: id in d.revisions ==> id in e.revisions && e.revisions[id] == d.revisions[id];
    forall id | id in e.revisions
      ensures RevisionOK(env, e.revisions, e.revisions[id]) && id < e.next && e.revisions[id].project in e.projects
    {
      RevisionKept(env, d.revisions, e.revisions, e.revisions[id]);
    }
    assert ParentsOlder(e.revisions);
  }

  lemma CommitKeepsLinear(env: Env, d: Db, c: nat, pid: nat)
    requires Committing(env, d, c) && RowsOK(env, Next(env, d, Commit(c)))
    requires pid in d.projects && Linear(d, pid)
    ensures Linear(Next(env, d, Commit(c)), pid)
  {
    hide RevisionOK, Chain;
    var t, e := ClientOf(d, c), Next(env, d, Commit(c));
    ChainStable(d.revisions, e.revisions, d.projects[pid]);
    if pid == t.pid { ChainGrows(e.revisions, t.id); }
  }

  lemma ChainGrows(revs: map<nat, Revision>, id: nat)
    requires ParentsOlder(revs) && id in revs
    ensures Chain(revs, Some(id)) == Chain(revs, revs[id].parent) + [id]
  {
  }

  lemma CommitKeepsTransaction(env: Env, d: Db, c: nat, k: nat)
    requires Committing(env, d, c) && TransactionOK(env, d, k) && k != c
    requires ClientOf(d, k).Inserted? || ClientOf(d, k).Advanced? ==> ClientOf(d, k).id != ClientOf(d, c).id
    ensures TransactionOK(env, Next(env, d, Commit(c)), k)
  {
    hide RevisionOK, Linear, RowsOK;
    var e, u := Next(env, d, Commit(c)), ClientOf(d, k);
    if u.Inserted? || u.Advanced? { RevisionKept(env, d.revisions, e.revisions, u.rev); }
  }

  lemma CommitKeepsFresh(env: Env, d: Db, c: nat)
    requires FreshIDs(d) && ClientOf(d, c).Advanced?
    ensures FreshIDs(Next(env, d, Commit(c)))
  {
    var e := Next(env, d, Commit(c));
    assert forall k :: k in e.clients && k != c ==> k in d.clients && e.clients[k] == d.clients[k];
  }

  lemma CommitKeepsChains(env: Env, d: Db, c: nat)
    requires ClientOf(d, c).Advanced? && ParentsOlder(d.revisions) && Committing(env, d, c) && AllLinear(d)
    ensures RowsOK(env, Next(env, d, Commit(c))) && AllLinear(Next(env, d, Commit(c)))
  {
    hide RowsOK, Linear, Committing, RevisionOK;
    var e := Next(env, d, Commit(c));
    CommitKeepsRows(env, d, c);
    RowsHaveOlderParents(env, e);
    CommitInProject(env, d, c);
    forall pid | pid in e.projects ensures Linear(e, pid) {
      CommitKeepsLinear(env, d, c, pid);
    }
  }

  lemma CommitKeepsInv(env: Env, d: Db, c: nat)
    requires Inv(env, d) && ClientOf(d, c).Advanced?
    ensures Inv(env, Next(env, d, Commit(c)))
  {
    var e := Next(env, d, Commit(c));
    assert TransactionOK(env, d, c) && Linear(d, ClientOf(d, c).pid);
    assert Committing(env, d, c);
    hide RowsOK, AllLinear, Committing, TransactionOK;
    CommitKeepsChains(env, d, c);
    CommitKeepsFresh(env, d, c);
    forall k | k in e.clients ensures TransactionOK(env, e, k) {
      if k != c { CommitKeepsTransaction(env, d, c, k); }
      else { IdleIsOK(env, e, k); }
    }
  }

  lemma RowsHaveOlderParents(env: Env, d: Db)
    requires RowsOK(env, d)
    ensures ParentsOlder(d.revisions)
  {
  }

  lemma CommitInProject(env: Env, d: Db, c: nat)
    requires Committing(env, d, c)
    ensures ClientOf(d, c).pid in d.projects
  {
  }

  lemma IdleIsOK(env: Env, d: Db, c: nat)
    requires ClientOf(d, c).Idle?
    ensures TransactionOK(env, d, c)
  {
  }

  lemma StepKeepsInv(env: Env, d: Db, a: Action)
    requires Inv(env, d) && Enabled(env, d, a)
    ensures Inv(env, Next(env, d, a))
  {
    match a {
      case NewProject(pid) => NewProjectKeepsInv(env, d, pid);
      case Commit(c) => CommitKeepsInv(env, d, c);
      case _ => LocalStepKeepsInv(env, d, a);
    }
  }

  // ----- Every run -----

  ghost predicate IsRun(env: Env, states: seq<Db>, actions: seq<Action>) {
    && |states| == |actions| + 1
    && states[0] == EMPTY
    && forall i :: 0 <= i < |actions| ==>
         Enabled(env, states[i], actions[i]) && states[i + 1] == Next(env, states[i], actions[i])
  }

  lemma {:induction false} RunKeepsInv(env: Env, states: seq<Db>, actions: seq<Action>, n: nat)
    requires IsRun(env, states, actions) && n < |states|
    ensures Inv(env, states[n])
  {
    if n > 0 {
      hide Inv, Enabled, Next;
      RunKeepsInv(env, states, actions, n - 1);
      StepKeepsInv(env, states[n - 1], actions[n - 1]);
    }
  }

  ghost function History(env: Env, d: Db, pid: nat): seq<nat>
    requires Inv(env, d) && pid in d.projects
  {
    assert Linear(d, pid);
    Chain(d.revisions, d.projects[pid])
  }

  ghost predicate Sound(env: Env, rev: Revision) {
    WellFormedSpec(env.lib, rev.spec) && rev.hash == env.hash(rev.spec)
  }

  /** The chain is exactly the project's committed revisions, each once, from one without
      parent to the head, every spec valid under its own hash. */
  ghost predicate IsHistory(env: Env, d: Db, pid: nat, chain: seq<nat>)
    requires pid in d.projects
  {
    && (forall id :: id in d.revisions && d.revisions[id].project == pid <==> id in chain)
    && Distinct(chain)
    && (forall i: nat :: i < |chain| ==> LinkedAt(d.revisions, chain, i) && Sound(env, d.revisions[chain[i]]))
    && d.projects[pid] == (if chain == [] then None else Some(chain[|chain| - 1]))
  }

  lemma RowIsSound(env: Env, d: Db, id: nat)
    requires RowsOK(env, d) && id in d.revisions
    ensures Sound(env, d.revisions[id]) && RevisionOK(env, d.revisions, d.revisions[id])
  {
    hide WellFormedSpec, Follows;
  }

  /** In every reachable state each project's chain is its linear history. */
  lemma LinearRevisions(env: Env, d: Db, pid: nat)
    requires Inv(env, d) && pid in d.projects
    ensures IsHistory(env, d, pid, History(env, d, pid))
  {
    assert Linear(d, pid);
    ChainIsHistory(env, d, pid);
  }

  lemma ChainIsHistory(env: Env, d: Db, pid: nat)
    requires RowsOK(env, d) && pid in d.projects && Linear(d, pid)
    ensures IsHistory(env, d, pid, Chain(d.revisions, d.projects[pid]))
  {
    var head := d.projects[pid];
    ChainIsLinked(d.revisions, head);
    if head.None? { NoChain(d.revisions); }
    LinkedIsHistory(env, d, pid, Chain(d.revisions, head));
  }

  lemma LinkedIsHistory(env: Env, d: Db, pid: nat, chain: seq<nat>)
    requires RowsOK(env, d) && pid in d.projects && Linked(d.revisions, chain)
    requires forall id :: id in chain <==> id in d.revisions && d.revisions[id].project == pid
    requires forall i, j :: 0 <= i < j < |chain| ==> chain[i] < chain[j]
    requires d.projects[pid] == (if chain == [] then None else Some(chain[|chain| - 1]))
    ensures IsHistory(env, d, pid, chain)
  {
    hide Sound, RevisionOK, LinkedAt, RowsOK;
    forall i: nat | i < |chain| ensures LinkedAt(d.revisions, chain, i) && Sound(env, d.revisions[chain[i]]) {
      assert chain[i] in chain;
      RowIsSound(env, d, chain[i]);
    }
  }

  lemma HistoryParents(env: Env, d: Db, pid: nat, chain: seq<nat>, i: nat, j: nat)
    requires pid in d.projects && IsHistory(env, d, pid, chain) && i < |chain| && j < |chain|
    ensures chain[i] in d.revisions && chain[j] in d.revisions
    ensures d.revisions[chain[i]].parent == d.revisions[chain[j]].parent ==> i == j
    ensures d.revisions[chain[i]].parent != Some(chain[|chain| - 1])
  {
    hide Sound;
    assert LinkedAt(d.revisions, chain, i) && LinkedAt(d.revisions, chain, j);
  }

  /** No two committed revisions of a project share a parent, the missing one included. */
  lemma NoForks(env: Env, d: Db, a: nat, b: nat)
    requires Inv(env, d) && a in d.revisions && b in d.revisions
    requires d.revisions[a].project == d.revisions[b].project && d.revisions[a].parent == d.revisions[b].parent
    ensures a == b
  {
    var pid := d.revisions[a].project;
    LinearRevisions(env, d, pid);
    var chain := History(env, d, pid);
    hide Inv, LinkedAt, Sound;
    var i: nat :| i < |chain| && chain[i] == a;
    var j: nat :| j < |chain| && chain[j] == b;
    HistoryParents(env, d, pid, chain, i, j);
  }

  ghost function SpecOf(d: Db, id: nat): ProjectSpec
    requires id in d.revisions
  {
    d.revisions[id].spec
  }

  lemma HistoryInRows(env: Env, d: Db, pid: nat)
    requires Inv(env, d) && pid in d.projects
    ensures forall i :: 0 <= i < |History(env, d, pid)| ==> History(env, d, pid)[i] in d.revisions
    ensures forall i :: 0 <= i < |History(env, d, pid)| ==> WellFormedSpec(env.lib, SpecOf(d, History(env, d, pid)[i]))
    ensures RowsOK(env, d)
  {
    LinearRevisions(env, d, pid);
    hide Inv, WellFormedSpec, RowsOK;
    var chain := History(env, d, pid);
    forall i | 0 <= i < |chain| ensures chain[i] in d.revisions && WellFormedSpec(env.lib, SpecOf(d, chain[i])) {
      assert LinkedAt(d.revisions, chain, i) && Sound(env, d.revisions[chain[i]]);
    }
    assert RowsOK(env, d) by { InvHasRows(env, d); }
  }

  lemma InvHasRows(env: Env, d: Db)
    requires Inv(env, d)
    ensures RowsOK(env, d)
  {
  }

  ghost predicate Adjacent(before: ProjectSpec, after: Revision) {
    match after.via
    case ByCreate => true
    case ByEdit => NonBreaking(AbiOf(before), AbiOf(after.spec))
    case ByDelete(id) => FindResource(before.resources, id).Some? && after.spec == Without(before, {id})
  }

  /** Adjacent revisions are a non-breaking move apart unless the later one was created whole
      or deleted a resource. */
  lemma AdjacentRevisions(env: Env, d: Db, pid: nat, i: nat)
    requires Inv(env, d) && pid in d.projects && 0 < i < |History(env, d, pid)|
    ensures
      var chain := History(env, d, pid);
      && chain[i - 1] in d.revisions && chain[i] in d.revisions
      && Adjacent(SpecOf(d, chain[i - 1]), d.revisions[chain[i]])
  {
    LinearRevisions(env, d, pid);
    HistoryInRows(env, d, pid);
    hide Inv, RowsOK, RevisionOK, Sound, History, Adjacent;
    var chain := History(env, d, pid);
    assert LinkedAt(d.revisions, chain, i);
    RowIsSound(env, d, chain[i]);
    FollowsIsAdjacent(env, d.revisions, d.revisions[chain[i]]);
  }

  lemma FollowsIsAdjacent(env: Env, revs: map<nat, Revision>, rev: Revision)
    requires RevisionOK(env, revs, rev) && rev.parent.Some? && rev.parent.value in revs
    ensures Adjacent(revs[rev.parent.value].spec, rev)
  {
    hide WellFormedSpec, NonBreaking, AbiOf, Without;
  }

  /** Along a stretch of edits, extension code that typechecks at the older revision keeps
      typechecking at the newer one once stubs are written, with no implementation changed. */
  lemma {:induction false} EditsKeepExtensions(env: Env, d: Db, pid: nat, i: nat, j: nat, p: Extensions.Program)
      returns (q: Extensions.Program)
    requires Inv(env, d) && pid in d.projects && i <= j < |History(env, d, pid)|
    requires forall k :: 0 <= k < |History(env, d, pid)| ==> History(env, d, pid)[k] in d.revisions
    requires forall k :: i < k <= j ==> d.revisions[History(env, d, pid)[k]].via.ByEdit?
    requires Extensions.Typechecks(AbiOf(SpecOf(d, History(env, d, pid)[i])), p)
    requires forall u :: u in p.uses ==> !u.ImplementsView?
    ensures Extensions.Typechecks(AbiOf(SpecOf(d, History(env, d, pid)[j])), q)
    ensures q.uses == p.uses && forall t :: t in p.hooks ==> t in q.hooks && q.hooks[t] == p.hooks[t]
    decreases j - i
  {
    hide WellFormedSpec, History, AbiOf, NonBreaking, Inv, Extensions.Typechecks;
    if i == j { return p; }
    var chain := History(env, d, pid);
    var r := EditsKeepExtensions(env, d, pid, i, j - 1, p);
    HistoryInRows(env, d, pid);
    AdjacentRevisions(env, d, pid, j);
    var s, t := SpecOf(d, chain[j - 1]), SpecOf(d, chain[j]);
    Classify.ValidAbi(env.lib, s);
    Classify.ValidAbi(env.lib, t);
    Extensions.NoFakesNoBreakage(AbiOf(s), AbiOf(t), r);
    q := Extensions.WithStubs(AbiOf(t), r);
  }

  /** An edit removes no identity: moving to the next revision of a stretch of edits is never
      an identity discontinuity. */
  lemma EditsAreContinuous(env: Env, d: Db, pid: nat, i: nat)
    requires Inv(env, d) && pid in d.projects && 0 < i < |History(env, d, pid)|
    requires
      var chain := History(env, d, pid);
      chain[i] in d.revisions && d.revisions[chain[i]].via.ByEdit?
    ensures
      var chain := History(env, d, pid);
      && chain[i - 1] in d.revisions
      && !Lineage.DeltaOf(Some(SpecOf(d, chain[i - 1])), Some(SpecOf(d, chain[i]))).Discontinuous()
  {
    hide Inv, WellFormedSpec, NonBreaking, AbiOf, RowsOK, History;
    HistoryInRows(env, d, pid);
    AdjacentRevisions(env, d, pid, i);
    var chain := History(env, d, pid);
    Lineage.NonBreakingIsContinuous(env.lib, SpecOf(d, chain[i - 1]), SpecOf(d, chain[i]));
  }

  // ----- The service -----

  /** Which database call of a transaction fails, if any. */
  datatype Fate = NoFault | HeadReadFails | InsertFails | AdvanceFails

  datatype Result =
    | NotFound
    | Error
    | InvalidSpec
    | Breaking
    | NoSpec
    | ResourceMissing
    | Blocked
    | Committed(id: nat, revision: Revision)

  /** The transaction left the committed rows and every other client alone and is over. */
  ghost predicate Abandoned(d: Db, e: Db) {
    e.projects == d.projects && e.revisions == d.revisions && e.locks == d.locks && d.next <= e.next
  }

  ghost predicate Appended(env: Env, d: Db, e: Db, pid: nat, s: ProjectSpec, via: Via, r: Result)
    requires pid in d.projects
  {
    && r == Result.Committed(d.next, Revision(pid, s.version, s, env.hash(s), d.projects[pid], via))
    && e.revisions == d.revisions[r.id := r.revision]
    && e.projects == d.projects[pid := Some(r.id)]
    && e.locks == d.locks
  }

  lemma DecidedDelete(lib: Library, id: ID, current: Option<ProjectSpec>)
    requires current.Some? && FindResource(current.value.resources, id).Some?
    requires WellFormedSpec(lib, Without(current.value, {id}))
    ensures Decided(lib, Delete(id), current) == Some(Without(current.value, {id}))
  {
  }

  class Service {
    const env: Env
    var db: Db

    constructor (env: Env)
      ensures this.env == env && db == EMPTY
    {
      this.env := env;
      db := EMPTY;
    }

    method Lock(c: nat, pid: nat, op: Op)
      requires Inv(env, db) && Enabled(env, db, Action.Lock(c, pid, op))
      modifies this`db
      ensures db == Next(env, old(db), Action.Lock(c, pid, op)) && Inv(env, db)
    {
      StepKeepsInv(env, db, Action.Lock(c, pid, op));
      db := db.(locks := db.locks[pid := c], clients := db.clients[c := Locked(pid, op, db.projects[pid])]);
    }

    method Release(c: nat)
      requires Inv(env, db) && !ClientOf(db, c).Idle?
      modifies this`db
      ensures db == Unlocked(old(db), c) && Inv(env, db)
    {
      StepKeepsInv(env, db, Action.Release(c));
      db := Unlocked(db, c);
    }

    /** insertRevisionLocked, up to and including the commit of the transaction. */
    method InsertRevisionLocked(c: nat, s: ProjectSpec, fate: Fate) returns (r: Result)
      requires Inv(env, db) && ClientOf(db, c).Locked?
      requires Decided(env.lib, ClientOf(db, c).op, SpecAt(db, ClientOf(db, c).head)) == Some(s)
      modifies this`db
      ensures Inv(env, db)
      ensures
        var t := ClientOf(old(db), c);
        && ClientOf(db, c).Idle?
        && (r.Committed? || r.Error?)
        && (r.Committed? <==> fate != InsertFails && fate != AdvanceFails)
        && (r.Error? ==> db == Unlocked(old(db), c).(next := db.next) && old(db).next <= db.next)
        && (r.Committed? ==>
             && r == Result.Committed(old(db).next, Revision(t.pid, s.version, s, env.hash(s), t.head, ViaOf(t.op)))
             && db.revisions == old(db).revisions[r.id := r.revision]
             && db.projects == old(db).projects[t.pid := Some(r.id)]
             && db.locks == old(db).locks - {t.pid})
    {
      hide Inv, Decided;
      if fate == InsertFails {
        Release(c);
        return Error;
      }
      var t := ClientOf(db, c);
      var rev := Revision(t.pid, s.version, s, env.hash(s), t.head, ViaOf(t.op));
      var id := db.next;
      StepKeepsInv(env, db, Insert(c));
      db := db.(next := id + 1, clients := db.clients[c := Inserted(t.pid, id, rev)]);
      if fate == AdvanceFails {
        Release(c);
        return Error;
      }
      StepKeepsInv(env, db, Advance(c));
      db := db.(clients := db.clients[c := Advanced(t.pid, id, rev)]);
      StepKeepsInv(env, db, Commit(c));
      db := Unlocked(db, c).(revisions := db.revisions[id := rev], projects := db.projects[t.pid := Some(id)]);
      return Result.Committed(id, rev);
    }

    /** CreateRevision */
    method CreateRevision(c: nat, pid: nat, s: Option<ProjectSpec>, fate: Fate) returns (r: Result)
      requires Inv(env, db) && ClientOf(db, c).Idle? && pid !in db.locks
      modifies this`db
      ensures Inv(env, db) && ClientOf(db, c).Idle?
      ensures r.InvalidSpec? <==> !Classify.Valid(env.lib, s)
      ensures r.NotFound? <==> Classify.Valid(env.lib, s) && pid !in old(db).projects
      ensures r.Committed? || r.Error? || r.InvalidSpec? || r.NotFound?
      ensures r.Error? ==> fate != NoFault
      ensures r.Committed? ==> Appended(env, old(db), db, pid, s.value, ByCreate, r)
      ensures !r.Committed? ==> Abandoned(old(db), db)
    {
      hide Inv, WellFormedSpec;
      var diagnostics := Validator.Validate(env.lib, s);
      if diagnostics != [] { return InvalidSpec; }
      if pid !in db.projects { return Result.NotFound; }
      Lock(c, pid, Create(s));
      assert Decided(env.lib, Create(s), SpecAt(db, ClientOf(db, c).head)) == s;
      r := InsertRevisionLocked(c, s.value, fate);
    }

    /** The head spec as withLockedSpec loads it. */
    lemma HeadLoads(pid: nat)
      requires Inv(env, db) && pid in db.projects
      ensures db.projects[pid].Some? ==>
        db.projects[pid].value in db.revisions && WellFormedSpec(env.lib, db.revisions[db.projects[pid].value].spec)
    {
      assert Linear(db, pid);
      HeadIsValid(env, db, pid);
    }

    /** SubmitCandidate, and every authoring operation: the candidate is built from the locked
        head, validated and gated, then appended. */
    method SubmitCandidate(c: nat, pid: nat, build: Option<ProjectSpec> -> Option<ProjectSpec>, fate: Fate)
        returns (r: Result)
      requires Inv(env, db) && ClientOf(db, c).Idle? && pid !in db.locks
      modifies this`db
      ensures Inv(env, db) && ClientOf(db, c).Idle?
      ensures r.NotFound? <==> pid !in old(db).projects
      ensures !r.Committed? ==> Abandoned(old(db), db)
      ensures pid in old(db).projects ==>
        var current := SpecAt(old(db), old(db).projects[pid]);
        var candidate := build(current);
        && (r.Committed? || r.Error? || r.InvalidSpec? || r.Breaking?)
        && (r.Error? ==> fate != NoFault)
        && (fate != HeadReadFails ==>
             && (r.InvalidSpec? <==> !Classify.Valid(env.lib, candidate))
             && (r.Breaking? <==> Classify.Valid(env.lib, candidate) && !Gate(current, candidate.value)))
        && (r.Committed? ==>
             && Classify.Valid(env.lib, candidate) && Gate(current, candidate.value)
             && Appended(env, old(db), db, pid, candidate.value, ByEdit, r))
    {
      hide Inv, WellFormedSpec, NonBreaking, AbiOf;
      if pid !in db.projects { return Result.NotFound; }
      HeadLoads(pid);
      Lock(c, pid, Edit(build));
      if fate == HeadReadFails {
        Release(c);
        return Error;
      }
      var current := SpecAt(db, db.projects[pid]);
      var candidate := build(current);
      var diagnostics := Validator.Validate(env.lib, candidate);
      if diagnostics != [] {
        Release(c);
        return InvalidSpec;
      }
      if current.Some? {
        var t := Classify.ClassifyEdit(env.lib, current, candidate);
        if t.value.class_.Breaking? {
          Release(c);
          return Result.Breaking;
        }
      }
      assert Decided(env.lib, Edit(build), current) == candidate;
      r := InsertRevisionLocked(c, candidate.value, fate);
    }

    /** DeleteResource: on a project that has a spec and the resource, it is blocked exactly
        when the spec without the resource is invalid, and otherwise commits. */
    method DeleteResource(c: nat, pid: nat, id: ID, fate: Fate) returns (r: Result)
      requires Inv(env, db) && ClientOf(db, c).Idle? && pid !in db.locks
      modifies this`db
      ensures Inv(env, db) && ClientOf(db, c).Idle?
      ensures r.NotFound? <==> pid !in old(db).projects
      ensures !r.Committed? ==> Abandoned(old(db), db)
      ensures pid in old(db).projects ==>
        var current := SpecAt(old(db), old(db).projects[pid]);
        && !r.InvalidSpec?
        && (r.Error? ==> fate != NoFault)
        && (fate != HeadReadFails ==>
             && (r.NoSpec? <==> current.None?)
             && (r.ResourceMissing? <==> current.Some? && FindResource(current.value.resources, id).None?)
             && (r.Blocked? <==>
                  && current.Some? && FindResource(current.value.resources, id).Some?
                  && !WellFormedSpec(env.lib, Without(current.value, {id}))))
        && (r.Committed? ==>
             && current.Some?
             && Appended(env, old(db), db, pid, Without(current.value, {id}), ByDelete(id), r))
    {
      hide Inv, WellFormedSpec, Without, Decided;
      if pid !in db.projects { return Result.NotFound; }
      HeadLoads(pid);
      Lock(c, pid, Delete(id));
      if fate == HeadReadFails {
        Release(c);
        return Error;
      }
      r := DeleteLocked(c, id, fate);
    }

    /** The transaction of DeleteResource once the head is loaded. */
    method DeleteLocked(c: nat, id: ID, fate: Fate) returns (r: Result)
      requires Inv(env, db) && ClientOf(db, c).Locked? && ClientOf(db, c).op == Delete(id)
      requires
        var current := SpecAt(db, ClientOf(db, c).head);
        current.Some? ==> WellFormedSpec(env.lib, current.value)
      modifies this`db
      ensures Inv(env, db) && ClientOf(db, c).Idle?
      ensures r.NoSpec? || r.ResourceMissing? || r.Blocked? || r.Committed? || r.Error?
      ensures r.Error? ==> fate != NoFault
      ensures
        var t := ClientOf(old(db), c);
        var current := SpecAt(old(db), t.head);
        && (r.NoSpec? <==> current.None?)
        && (r.ResourceMissing? <==> current.Some? && FindResource(current.value.resources, id).None?)
        && (r.Blocked? <==>
             && current.Some? && FindResource(current.value.resources, id).Some?
             && !WellFormedSpec(env.lib, Without(current.value, {id})))
        && (!r.Committed? ==> db == Unlocked(old(db), c).(next := db.next) && old(db).next <= db.next)
        && (r.Committed? ==>
             && current.Some?
             && var s := Without(current.value, {id});
             r == Result.Committed(old(db).next, Revision(t.pid, s.version, s, env.hash(s), t.head, ByDelete(id)))
             && db.revisions == old(db).revisions[r.id := r.revision]
             && db.projects == old(db).projects[t.pid := Some(r.id)]
             && db.locks == old(db).locks - {t.pid})
    {
      hide Inv, WellFormedSpec, Without, Decided;
      var current := SpecAt(db, ClientOf(db, c).head);
      var decision := Deletion.DeleteResource(env.lib, current, id);
      match decision {
        case NoSpec => Release(c); return Result.NoSpec;
        case NotFound => Release(c); return ResourceMissing;
        case Refused(_, _) => Release(c); return Blocked;
        case Invalid => assert false;
        case Committed(candidate, _) =>
          DecidedDelete(env.lib, id, current);
          r := InsertRevisionLocked(c, candidate, fate);
      }
    }

    /** Head reads the committed rows; it never finds the chain corrupt. */
    method Head(pid: nat) returns (found: bool, rev: Option<Revision>)
      requires Inv(env, db)
      ensures found <==> pid in db.projects
      ensures found ==> (rev.Some? <==> exists id :: id in db.revisions && db.revisions[id].project == pid)
      ensures rev.Some? ==>
        && found
        && db.projects[pid].Some?
        && db.projects[pid].value in db.revisions
        && rev.value == db.revisions[db.projects[pid].value]
        && rev.value.project == pid
        && forall id :: id in db.revisions && db.revisions[id].project == pid ==> db.revisions[id].parent != db.projects[pid]
    {
      if pid !in db.projects { return false, None; }
      HeadHasNoChild(env, db, pid);
      hide Inv;
      if db.projects[pid].None? { return true, None; }
      return true, Some(db.revisions[db.projects[pid].value]);
    }
  }

  lemma HeadHasNoChild(env: Env, d: Db, pid: nat)
    requires Inv(env, d) && pid in d.projects
    ensures d.projects[pid].Some? <==> exists id :: id in d.revisions && d.revisions[id].project == pid
    ensures d.projects[pid].Some? ==>
      && d.projects[pid].value in d.revisions && d.revisions[d.projects[pid].value].project == pid
      && forall id :: id in d.revisions && d.revisions[id].project == pid ==> d.revisions[id].parent != d.projects[pid]
  {
    LinearRevisions(env, d, pid);
    HistoryHead(env, d, pid, History(env, d, pid));
  }

  lemma HistoryHead(env: Env, d: Db, pid: nat, chain: seq<nat>)
    requires pid in d.projects && IsHistory(env, d, pid, chain)
    ensures d.projects[pid].Some? <==> exists id :: id in d.revisions && d.revisions[id].project == pid
    ensures d.projects[pid].Some? ==>
      && d.projects[pid].value in d.revisions && d.revisions[d.projects[pid].value].project == pid
      && forall id :: id in d.revisions && d.revisions[id].project == pid ==> d.revisions[id].parent != d.projects[pid]
  {
    hide LinkedAt, Sound;
    if chain != [] { assert chain[|chain| - 1] in chain; }
    if d.projects[pid].Some? {
      forall id | id in d.revisions && d.revisions[id].project == pid ensures d.revisions[id].parent != d.projects[pid] {
        var i: nat :| i < |chain| && chain[i] == id;
        HistoryParents(env, d, pid, chain, i, i);
      }
    }
  }
}
