/** The cloud-build job table (controlplane/internal/cloudbuild/service.go): jobs are
    enqueued, claimed under SKIP LOCKED by any number of workers and finished at most once. */
module JobQueue {
  import opened Text
  import opened Names

  datatype Status = Queued | Running | Succeeded | Failed
  {
    predicate Terminal() { Succeeded? || Failed? }
  }

  /** What the enqueuer froze. */
  datatype Order = Order(project: nat, revision: nat, user: nat, cloudProject: string)

  datatype Job = Job(
    order: Order, status: Status, cloudBuild: string, cloudStatus: string, digest: string, error: string)

  /** The updates guarded by `status = running`. */
  datatype Update =
    | SetCloudBuild(build: string)
    | Reflect(cloudStatus: string)
    | MarkSucceeded(cloudStatus: string, digest: string)
    | MarkFailed(cloudStatus: string, reason: string)
  {
    predicate Marks() { MarkSucceeded? || MarkFailed? }
  }

  function Changed(job: Job, u: Update): Job {
    match u
    case SetCloudBuild(build) => job.(cloudBuild := build)
    case Reflect(s) => job.(cloudStatus := s)
    case MarkSucceeded(s, digest) => job.(status := Succeeded, cloudStatus := s, digest := digest)
    case MarkFailed(s, reason) => job.(status := Failed, cloudStatus := s, error := reason)
  }

  predicate IsRunning(jobs: map<nat, Job>, id: nat) { id in jobs && jobs[id].status.Running? }

  function Updated(jobs: map<nat, Job>, id: nat, u: Update): map<nat, Job> {
    if IsRunning(jobs, id) then jobs[id := Changed(jobs[id], u)] else jobs
  }

  /** Committed rows, the ID sequence, the rows open claims hold locked, and which worker each
      committed claim handed its job to. */
  datatype Table = Table(jobs: map<nat, Job>, next: nat, locks: map<nat, nat>, handed: seq<(nat, nat)>)

  const EMPTY: Table := Table(map[], 1, map[], [])

  /** The row a claim's query returns: queued, unlocked and of the least ID. */
  ghost predicate IsNext(d: Table, id: nat) {
    && Claimable(d, id)
    && forall k :: k in d.jobs && Claimable(d, k) ==> id <= k
  }

  predicate Claimable(d: Table, id: nat) { id in d.jobs && d.jobs[id].status.Queued? && id !in d.locks }

  datatype Action =
    | Enqueue(order: Order)
    | Select(worker: nat, id: nat)
    | CommitClaim(id: nat)
    /** The claim's transaction is rolled back, or its worker crashes before the commit. */
    | AbortClaim(id: nat)
    | Write(id: nat, u: Update)

  ghost predicate Enabled(d: Table, a: Action) {
    match a
    case Enqueue(order) => !IsBlank(order.cloudProject)
    case Select(_, id) => IsNext(d, id)
    case CommitClaim(id) => id in d.locks
    case AbortClaim(id) => id in d.locks
    case Write(_, _) => true
  }

  function NewJob(order: Order): Job { Job(order, Queued, "", "", "", "") }

  function Next(d: Table, a: Action): Table {
    match a
    case Enqueue(order) => d.(jobs := d.jobs[d.next := NewJob(order)], next := d.next + 1)
    case Select(worker, id) => d.(locks := d.locks[id := worker])
    case CommitClaim(id) =>
      if id in d.locks && id in d.jobs then
        d.(jobs := d.jobs[id := d.jobs[id].(status := Running)],
           locks := d.locks - {id},
           handed := d.handed + [(id, d.locks[id])])
      else d
    case AbortClaim(id) => d.(locks := d.locks - {id})
    case Write(id, u) => d.(jobs := Updated(d.jobs, id, u))
  }

  // ----- The invariant -----

  ghost predicate Handed(d: Table, id: nat) { exists i :: 0 <= i < |d.handed| && d.handed[i].0 == id }

  /** Locked rows are queued; a job was handed out exactly when it is no longer queued, and
      never twice. */
  ghost predicate Inv(d: Table) {
    && (forall id :: id in d.jobs ==> id < d.next)
    && (forall id :: id in d.locks ==> id in d.jobs && d.jobs[id].status.Queued?)
    && (forall i :: 0 <= i < |d.handed| ==> d.handed[i].0 in d.jobs)
    && (forall id :: id in d.jobs ==> (Handed(d, id) <==> !d.jobs[id].status.Queued?))
    && (forall i, j :: 0 <= i < j < |d.handed| ==> d.handed[i].0 != d.handed[j].0)
  }

  lemma StepKeepsInv(d: Table, a: Action)
    requires Inv(d) && Enabled(d, a)
    ensures Inv(Next(d, a))
  {
    var e := Next(d, a);
    match a {
      case CommitClaim(id) =>
        assert e.handed[|d.handed|] == (id, d.locks[id]);
        assert !Handed(d, id);
        forall k | k in e.jobs ensures Handed(e, k) <==> !e.jobs[k].status.Queued? {
          if Handed(d, k) {
            var i :| 0 <= i < |d.handed| && d.handed[i].0 == k;
            assert e.handed[i].0 == k;
          }
        }
      case Enqueue(_) =>
        assert !Handed(d, d.next);
        forall k | k in e.jobs ensures Handed(e, k) <==> !e.jobs[k].status.Queued? { assert Handed(e, k) == Handed(d, k); }
      case _ =>
        forall k | k in e.jobs ensures Handed(e, k) <==> !e.jobs[k].status.Queued? { assert Handed(e, k) == Handed(d, k); }
    }
  }

  function Rank(s: Status): nat { if s.Queued? then 0 else if s.Running? then 1 else 2 }

  /** What a later table owes an earlier one: rows stay, keep their order, only move forward,
      and never change once terminal; hand-outs are never forgotten. */
  ghost predicate Later(d: Table, e: Table) {
    && (forall id :: id in d.jobs ==>
          && id in e.jobs
          && e.jobs[id].order == d.jobs[id].order
          && Rank(d.jobs[id].status) <= Rank(e.jobs[id].status)
          && (d.jobs[id].status.Terminal() ==> e.jobs[id] == d.jobs[id]))
    && d.handed <= e.handed
  }

  lemma StepIsLater(d: Table, a: Action)
    requires Inv(d) && Enabled(d, a)
    ensures Later(d, Next(d, a))
  {
  }

  lemma LaterTransitive(d: Table, e: Table, f: Table)
    requires Later(d, e) && Later(e, f)
    ensures Later(d, f)
  {
    forall id | id in d.jobs
      ensures id in f.jobs && f.jobs[id].order == d.jobs[id].order
      ensures Rank(d.jobs[id].status) <= Rank(f.jobs[id].status)
      ensures d.jobs[id].status.Terminal() ==> f.jobs[id] == d.jobs[id]
    {
      assert id in e.jobs;
    }
  }

  ghost predicate IsRun(states: seq<Table>, actions: seq<Action>) {
    && |states| == |actions| + 1
    && states[0] == EMPTY
    && forall i :: 0 <= i < |actions| ==> Enabled(states[i], actions[i]) && states[i + 1] == Next(states[i], actions[i])
  }

  /** Over every interleaving of enqueuers and workers, crashed claims included: a job is
      handed to at most one worker, status only moves forward, and terminal rows never
      change. */
  lemma {:induction false} RunsAreSound(states: seq<Table>, actions: seq<Action>, m: nat, n: nat)
    requires IsRun(states, actions) && m <= n < |states|
    ensures Inv(states[n]) && Later(states[m], states[n])
    decreases n
  {
    hide Enabled, Next, Inv, Later;
    if n > 0 {
      RunsAreSound(states, actions, if m < n then m else n - 1, n - 1);
      StepKeepsInv(states[n - 1], actions[n - 1]);
      StepIsLater(states[n - 1], actions[n - 1]);
      if m < n { LaterTransitive(states[m], states[n - 1], states[n]); }
      else { LaterReflexive(states[n]); }
    } else {
      EmptyIsSound();
      LaterReflexive(EMPTY);
    }
  }

  lemma LaterReflexive(d: Table)
    ensures Later(d, d)
  {
  }

  lemma EmptyIsSound()
    ensures Inv(EMPTY)
  {
  }

  /** Two committed hand-outs of one job, ever, are the same hand-out. */
  lemma HandedOnce(states: seq<Table>, actions: seq<Action>, m: nat, n: nat, i: nat, j: nat)
    requires IsRun(states, actions) && m <= n < |states|
    requires i < |states[m].handed| && j < |states[n].handed| && states[m].handed[i].0 == states[n].handed[j].0
    ensures i == j && states[m].handed[i].1 == states[n].handed[j].1
  {
    RunsAreSound(states, actions, m, n);
    assert states[n].handed[i] == states[m].handed[i];
  }

  // ----- The store -----

  /** The least claimable ID from a given one up. */
  function LeastFrom(d: Table, from: nat): Option<nat>
    decreases d.next - from
  {
    if from >= d.next then None
    else if Claimable(d, from) then Some(from)
    else LeastFrom(d, from + 1)
  }

  lemma {:induction false} LeastFromMeaning(d: Table, from: nat)
    ensures LeastFrom(d, from).Some? ==>
      && from <= LeastFrom(d, from).value && Claimable(d, LeastFrom(d, from).value)
      && forall k :: from <= k && Claimable(d, k) ==> LeastFrom(d, from).value <= k
    ensures LeastFrom(d, from).None? ==> forall k :: from <= k < d.next ==> !Claimable(d, k)
    decreases d.next - from
  {
    if from < d.next && !Claimable(d, from) { LeastFromMeaning(d, from + 1); }
  }

  /** A claim's two steps, aborted or committed. */
  lemma ClaimTables(d: Table, worker: nat, id: nat)
    requires Inv(d) && IsNext(d, id)
    ensures
      var locked := Next(d, Select(worker, id));
      && Next(locked, AbortClaim(id)) == d
      && var done := Next(locked, CommitClaim(id));
         && done == d.(jobs := d.jobs[id := d.jobs[id].(status := Running)], handed := d.handed + [(id, worker)])
         && Later(d, done)
  {
    assert d.locks[id := worker] - {id} == d.locks;
  }

  class JobStore {
    var table: Table

    constructor ()
      ensures table == EMPTY
    {
      table := EMPTY;
    }

    method Enqueue(order: Order) returns (id: Option<nat>)
      requires Inv(table)
      modifies this
      ensures Inv(table)
      ensures id.None? <==> IsBlank(order.cloudProject)
      ensures table == if id.None? then old(table) else Next(old(table), Action.Enqueue(order))
      ensures id.Some? ==> id.value !in old(table).jobs && id.value in table.jobs && table.jobs[id.value] == Job(order, Queued, "", "", "", "")
    {
      if IsBlank(order.cloudProject) { return None; }
      StepKeepsInv(table, Action.Enqueue(order));
      id := Some(table.next);
      table := Next(table, Action.Enqueue(order));
    }

    /** The query of Claim: the least queued row no other open claim has locked. */
    method SelectForUpdate(worker: nat) returns (id: Option<nat>)
      requires Inv(table)
      modifies this
      ensures Inv(table)
      ensures id.None? <==> forall k :: k in old(table).jobs ==> !Claimable(old(table), k)
      ensures id.None? ==> table == old(table)
      ensures id.Some? ==> IsNext(old(table), id.value) && table == Next(old(table), Select(worker, id.value))
    {
      id := LeastFrom(table, 0);
      LeastFromMeaning(table, 0);
      if id.Some? {
        StepKeepsInv(table, Select(worker, id.value));
        table := Next(table, Select(worker, id.value));
      }
    }

    /** Claim, run without another client between its two statements. */
    method Claim(worker: nat, commits: bool) returns (job: Option<(nat, Job)>)
      requires Inv(table)
      modifies this
      ensures Inv(table) && Later(old(table), table) && table.next == old(table).next && table.locks == old(table).locks
      ensures job.Some? <==> commits && exists k :: k in old(table).jobs && Claimable(old(table), k)
      ensures job.None? ==> table.jobs == old(table).jobs && table.handed == old(table).handed
      ensures job.Some? ==>
        && IsNext(old(table), job.value.0)
        && job.value.1 == old(table).jobs[job.value.0].(status := Running)
        && table.jobs == old(table).jobs[job.value.0 := job.value.1]
        && table.handed == old(table).handed + [(job.value.0, worker)]
    {
      hide Inv, Later, Enabled;
      LaterReflexive(table);
      var id := SelectForUpdate(worker);
      if id.None? { return None; }
      ClaimTables(old(table), worker, id.value);
      if !commits {
        StepKeepsInv(table, AbortClaim(id.value));
        table := Next(table, AbortClaim(id.value));
        return None;
      }
      StepKeepsInv(table, CommitClaim(id.value));
      table := Next(table, CommitClaim(id.value));
      return Some((id.value, table.jobs[id.value]));
    }

    /** updateRunning and finish: the update lands only on a running row. */
    method Apply(id: nat, u: Update, reaches: bool) returns (ok: bool)
      requires Inv(table)
      modifies this
      ensures Inv(table) && Later(old(table), table)
      ensures ok <==> reaches && IsRunning(old(table).jobs, id)
      ensures table == if reaches then Next(old(table), Write(id, u)) else old(table)
      ensures !ok ==> table == old(table)
    {
      if !reaches { return false; }
      ok := IsRunning(table.jobs, id);
      StepKeepsInv(table, Write(id, u));
      StepIsLater(table, Write(id, u));
      table := Next(table, Write(id, u));
    }
  }
}
