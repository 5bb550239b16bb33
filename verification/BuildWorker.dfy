/** The build worker (controlplane/internal/buildworker/worker.go): it claims a job, submits
    its source, follows the Cloud build to an end and marks the job once. */
module BuildWorker {
  import opened Text
  import opened JobQueue

  datatype Build = Build(id: string, status: string)

  /** What the world answers while one job is processed. The k-th reading of the clock follows
      the k-th poll; `reaches` says whether the k-th write gets to the database. */
  datatype World = World(
    revision: bool,
    assembles: bool,
    created: Option<Build>,
    uploads: bool,
    polled: nat -> Option<string>,
    started: int,
    now: nat -> int,
    cancelled: nat -> bool,
    digest: Option<string>,
    reaches: nat -> bool)

  const LOAD_FAILED: string := "could not load the revision to build"
  const ASSEMBLE_FAILED: string := "source assembly failed"
  const SUBMIT_FAILED: string := "submitting the build to Gombit Cloud failed"
  const TRACK_FAILED: string := "tracking the Cloud build failed"
  const BUILD_FAILED: string := "the Gombit Cloud build did not succeed"

  predicate CloudTerminal(status: string) { status in {"succeeded", "failed", "cancelled", "timed_out"} }

  // ----- Reflection -----

  function Last(seen: seq<string>): string { if seen == [] then "" else seen[|seen| - 1] }

  /** The statuses that differ from the one before; nothing seen yet counts as "". */
  function Changes(seen: seq<string>): seq<string> {
    if seen == [] then []
    else
      var n := |seen| - 1;
      Changes(seen[..n]) + if seen[n] != Last(seen[..n]) then [seen[n]] else []
  }

  /** Each status stands for a run of repeats: writing out every status as often as it was
      seen in a row gives back what was seen. */
  function WrittenOut(changes: seq<string>, runs: seq<nat>): seq<string>
    requires |changes| == |runs|
  {
    if changes == [] then []
    else
      var n := |changes| - 1;
      WrittenOut(changes[..n], runs[..n]) + Repeat(changes[n], runs[n])
  }

  ghost predicate DiffersAt(changes: seq<string>, i: nat)
    requires i < |changes|
  {
    changes[i] != Last(changes[..i])
  }

  ghost predicate NoRepeats(changes: seq<string>) {
    forall i: nat :: i < |changes| ==> DiffersAt(changes, i)
  }

  function Repeat(s: string, n: nat): (r: seq<string>)
    ensures |r| == n && forall i :: 0 <= i < n ==> r[i] == s
  {
    seq(n, _ => s)
  }

  ghost predicate RunsOf(seen: seq<string>, idle: nat, runs: seq<nat>) {
    && |runs| == |Changes(seen)|
    && (forall i :: 0 <= i < |runs| ==> 0 < runs[i])
    && seen == Repeat("", idle) + WrittenOut(Changes(seen), runs)
  }

  lemma {:induction false} ChangesDiffer(seen: seq<string>)
    ensures NoRepeats(Changes(seen)) && Last(Changes(seen)) == Last(seen)
  {
    if seen == [] { return; }
    var n := |seen| - 1;
    ChangesDiffer(seen[..n]);
    var past, now := Changes(seen[..n]), Changes(seen);
    forall i: nat | i < |now| ensures DiffersAt(now, i) {
      assert now[..i] == past[..i];
      if i < |past| { assert DiffersAt(past, i); } else { assert past[..i] == past; }
    }
  }

  lemma LongerRun(past: seq<string>, runs: seq<nat>)
    requires past != [] && |past| == |runs|
    ensures
      var m := |past| - 1;
      WrittenOut(past, runs[m := runs[m] + 1]) == WrittenOut(past, runs) + [past[m]]
  {
    var m := |past| - 1;
    assert runs[m := runs[m] + 1][..m] == runs[..m];
    assert Repeat(past[m], runs[m] + 1) == Repeat(past[m], runs[m]) + [past[m]];
  }

  lemma NewRun(past: seq<string>, runs: seq<nat>, s: string)
    requires |past| == |runs|
    ensures WrittenOut(past + [s], runs + [1]) == WrittenOut(past, runs) + [s]
  {
    assert (past + [s])[..|past|] == past && (runs + [1])[..|runs|] == runs;
    assert Repeat(s, 1) == [s];
  }

  lemma MoreChanges(seen: seq<string>, s: string)
    requires s != Last(seen)
    ensures Changes(seen + [s]) == Changes(seen) + [s]
  {
    assert (seen + [s])[..|seen|] == seen;
  }

  lemma RunStarts(seen: seq<string>, s: string, idle: nat, runs: seq<nat>)
    requires RunsOf(seen, idle, runs) && s != Last(seen)
    ensures RunsOf(seen + [s], idle, runs + [1])
  {
    hide WrittenOut, Changes, Last, Repeat;
    MoreChanges(seen, s);
    NewRun(Changes(seen), runs, s);
    assert seen + [s] == Repeat("", idle) + (WrittenOut(Changes(seen), runs) + [s]);
  }

  lemma IdleGoesOn(seen: seq<string>, s: string, idle: nat, runs: seq<nat>)
    requires RunsOf(seen, idle, runs) && s == Last(seen) && Changes(seen) == []
    ensures RunsOf(seen + [s], idle + 1, [])
  {
    assert runs == [];
    SameChanges(seen, s);
    ChangesDiffer(seen);
    NothingWritten();
    hide WrittenOut, Changes, NoRepeats, Last;
    assert WrittenOut(Changes(seen), runs) == [];
    assert Repeat("", idle + 1) == Repeat("", idle) + [""];
  }

  lemma SameChanges(seen: seq<string>, s: string)
    requires s == Last(seen)
    ensures Changes(seen + [s]) == Changes(seen)
  {
    assert (seen + [s])[..|seen|] == seen;
  }

  lemma LastChange(seen: seq<string>)
    requires Changes(seen) != []
    ensures Changes(seen)[|Changes(seen)| - 1] == Last(seen)
  {
    ChangesDiffer(seen);
  }

  lemma RunGoesOn(seen: seq<string>, s: string, idle: nat, runs: seq<nat>)
    requires RunsOf(seen, idle, runs) && s == Last(seen) && Changes(seen) != []
    ensures RunsOf(seen + [s], idle, runs[|runs| - 1 := runs[|runs| - 1] + 1])
  {
    hide WrittenOut, Changes, Last, Repeat;
    SameChanges(seen, s);
    LastChange(seen);
    LongerRun(Changes(seen), runs);
    assert seen + [s] == Repeat("", idle) + (WrittenOut(Changes(seen), runs) + [s]);
  }

  /** The reflected statuses are the observed ones with consecutive repeats removed. */
  lemma {:induction false} ChangesMeaning(seen: seq<string>) returns (idle: nat, runs: seq<nat>)
    ensures NoRepeats(Changes(seen)) && Last(Changes(seen)) == Last(seen)
    ensures RunsOf(seen, idle, runs)
  {
    ChangesDiffer(seen);
    if seen == [] { return 0, []; }
    hide NoRepeats, RunsOf;
    var n := |seen| - 1;
    idle, runs := ChangesMeaning(seen[..n]);
    var past := Changes(seen[..n]);
    assert seen == seen[..n] + [seen[n]];
    RunsMatch(seen[..n], idle, runs);
    if seen[n] != Last(seen[..n]) {
      RunStarts(seen[..n], seen[n], idle, runs);
      runs := runs + [1];
    } else if past == [] {
      IdleGoesOn(seen[..n], seen[n], idle, runs);
      idle, runs := idle + 1, [];
    } else {
      RunGoesOn(seen[..n], seen[n], idle, runs);
      runs := runs[|runs| - 1 := runs[|runs| - 1] + 1];
    }
  }

  lemma RunsMatch(seen: seq<string>, idle: nat, runs: seq<nat>)
    requires RunsOf(seen, idle, runs)
    ensures |runs| == |Changes(seen)|
  {
  }

  lemma NothingWritten()
    ensures WrittenOut([], []) == []
  {
  }

  // ----- Where tracking ends -----

  /** Poll k did not end the tracking. */
  ghost predicate GoesOn(w: World, deadline: int, k: nat) {
    && w.polled(k).Some? && !CloudTerminal(w.polled(k).value)
    && w.now(k) <= deadline && !w.cancelled(k)
  }

  /** Tracking ends after n answered polls. */
  ghost predicate Ends(w: World, deadline: int, n: nat, settled: bool) {
    && (forall k: nat :: k < n - 1 ==> GoesOn(w, deadline, k))
    && if settled then n > 0 && w.polled(n - 1).Some? && CloudTerminal(w.polled(n - 1).value)
       else
         || (n > 0 && w.polled(n - 1).Some? && !CloudTerminal(w.polled(n - 1).value) &&
             (w.now(n - 1) > deadline || w.cancelled(n - 1)))
         || ((n > 0 ==> GoesOn(w, deadline, n - 1)) && w.polled(n).None?)
  }

  lemma EndsLater(w: World, deadline: int, m: nat, n: nat, a: bool, b: bool)
    requires Ends(w, deadline, m, a) && m < n
    ensures !Ends(w, deadline, n, b)
  {
    assert m > 0 && !GoesOn(w, deadline, m - 1) ==> !Ends(w, deadline, n, b);
    assert w.polled(m).None? ==> !GoesOn(w, deadline, m);
  }

  /** Tracking ends in one way only. */
  lemma EndsOnce(w: World, deadline: int, m: nat, n: nat, a: bool, b: bool)
    requires Ends(w, deadline, m, a) && Ends(w, deadline, n, b)
    ensures m == n && a == b
  {
    if m < n { EndsLater(w, deadline, m, n, a, b); }
    if n < m { EndsLater(w, deadline, n, m, b, a); }
  }

  ghost predicate Open(w: World, deadline: int, k: nat) { forall j: nat :: j < k ==> GoesOn(w, deadline, j) }

  lemma EndsHere(w: World, deadline: int, k: nat)
    requires Open(w, deadline, k)
    ensures w.polled(k).None? ==> Ends(w, deadline, k, false)
    ensures w.polled(k).Some? && CloudTerminal(w.polled(k).value) ==> Ends(w, deadline, k + 1, true)
    ensures w.polled(k).Some? && !CloudTerminal(w.polled(k).value) ==>
      if w.now(k) > deadline || w.cancelled(k) then Ends(w, deadline, k + 1, false) else Open(w, deadline, k + 1)
  {
  }

  function Seen(w: World, n: nat): seq<string> {
    seq(n, k requires 0 <= k < n => if w.polled(k).Some? then w.polled(k).value else "")
  }

  function Reflections(changes: seq<string>): seq<Update> {
    seq(|changes|, k requires 0 <= k < |changes| => Reflect(changes[k]))
  }

  /** The build of the job reached "succeeded" within the budget. */
  ghost predicate Builds(w: World, timeout: int) {
    && w.revision && w.assembles && w.created.Some? && w.uploads
    && exists n: nat :: Ends(w, w.started + timeout, n, true) && Last(Seen(w, n)) == "succeeded"
  }

  lemma SeenGrows(w: World, k: nat)
    requires w.polled(k).Some?
    ensures
      var before, status := Seen(w, k), w.polled(k).value;
      && Seen(w, k + 1) == before + [status]
      && Last(Seen(w, k + 1)) == status
      && Reflections(Changes(Seen(w, k + 1))) ==
           Reflections(Changes(before)) + if status != Last(before) then [Reflect(status)] else []
  {
    var before, status := Seen(w, k), w.polled(k).value;
    assert Seen(w, k + 1) == before + [status];
    assert Seen(w, k + 1)[..k] == before;
  }

  // ----- The row under the worker's writes -----

  function Applied(jobs: map<nat, Job>, id: nat, us: seq<Update>, reaches: nat -> bool): map<nat, Job> {
    if us == [] then jobs
    else
      var n := |us| - 1;
      var before := Applied(jobs, id, us[..n], reaches);
      if reaches(n) then Updated(before, id, us[n]) else before
  }

  ghost predicate MarkedOnce(us: seq<Update>) {
    && us != [] && us[|us| - 1].Marks()
    && forall k :: 0 <= k < |us| - 1 ==> !us[k].Marks()
  }

  lemma {:induction false} UnmarkedKeepsRunning(jobs: map<nat, Job>, id: nat, us: seq<Update>, reaches: nat -> bool)
    requires IsRunning(jobs, id) && forall k :: 0 <= k < |us| ==> !us[k].Marks()
    ensures
      var after := Applied(jobs, id, us, reaches);
      && IsRunning(after, id) && after[id].order == jobs[id].order
      && after[id].digest == jobs[id].digest && after[id].error == jobs[id].error
      && after.Keys == jobs.Keys && forall k :: k in jobs && k != id ==> after[k] == jobs[k]
  {
    if us != [] { UnmarkedKeepsRunning(jobs, id, us[..|us| - 1], reaches); }
  }

  /** A tracked job's row shows the status that was written to it last. */
  lemma ReflectedRow(jobs: map<nat, Job>, id: nat, us: seq<Update>, reaches: nat -> bool)
    requires IsRunning(jobs, id) && forall k :: 0 <= k < |us| ==> !us[k].Marks()
    requires us != [] && us[|us| - 1].Reflect? && reaches(|us| - 1)
    ensures
      var after := Applied(jobs, id, us, reaches);
      IsRunning(after, id) && after[id].cloudStatus == us[|us| - 1].cloudStatus
  {
    UnmarkedKeepsRunning(jobs, id, us[..|us| - 1], reaches);
  }

  /** Whichever writes are lost on the way, the row ends with the one mark made, or still
      running when that one write is lost; no other row changes. */
  lemma MarkDecides(jobs: map<nat, Job>, id: nat, us: seq<Update>, reaches: nat -> bool)
    requires IsRunning(jobs, id) && MarkedOnce(us)
    ensures
      var after := Applied(jobs, id, us, reaches);
      var mark := us[|us| - 1];
      && id in after && after.Keys == jobs.Keys
      && after[id].order == jobs[id].order
      && after[id].status == (if !reaches(|us| - 1) then Running else if mark.MarkSucceeded? then Succeeded else Failed)
      && (reaches(|us| - 1) ==> after[id].cloudStatus == mark.cloudStatus)
      && after[id].digest == (if reaches(|us| - 1) && mark.MarkSucceeded? then mark.digest else jobs[id].digest)
      && after[id].error == (if reaches(|us| - 1) && mark.MarkFailed? then mark.reason else jobs[id].error)
      && forall k :: k in jobs && k != id ==> after[k] == jobs[k]
  {
    UnmarkedKeepsRunning(jobs, id, us[..|us| - 1], reaches);
  }

  /** The build's ID stays as its one write left it. */
  lemma {:induction false} BuildIsKept(jobs: map<nat, Job>, id: nat, us: seq<Update>, reaches: nat -> bool)
    requires IsRunning(jobs, id) && us != [] && us[0].SetCloudBuild?
    requires forall k :: 0 < k < |us| ==> !us[k].SetCloudBuild?
    requires forall k :: 0 <= k < |us| - 1 ==> !us[k].Marks()
    ensures
      var after := Applied(jobs, id, us, reaches);
      id in after && after[id].cloudBuild == if reaches(0) then us[0].build else jobs[id].cloudBuild
  {
    var n := |us| - 1;
    UnmarkedKeepsRunning(jobs, id, us[..n], reaches);
    if n == 0 {
      assert us[..0] == [];
    } else {
      BuildIsKept(jobs, id, us[..n], reaches);
    }
  }

  // ----- What one job's processing writes -----

  function MarkFor(w: World, final: string, settled: bool): Update {
    if !settled then MarkFailed(final, TRACK_FAILED)
    else if final == "succeeded" then MarkSucceeded(final, if w.digest.Some? then w.digest.value else "")
    else MarkFailed(final, BUILD_FAILED)
  }

  ghost predicate Tracked(w: World, timeout: int, us: seq<Update>, n: nat, settled: bool)
    requires w.created.Some?
  {
    && Ends(w, w.started + timeout, n, settled)
    && us == [SetCloudBuild(w.created.value.id)] + Reflections(Changes(Seen(w, n))) + [MarkFor(w, Last(Seen(w, n)), settled)]
  }

  /** The store writes of one job, landed or not, given what the world answers. */
  ghost predicate Processed(w: World, timeout: int, us: seq<Update>) {
    if !w.revision then us == [MarkFailed("", LOAD_FAILED)]
    else if !w.assembles then us == [MarkFailed("", ASSEMBLE_FAILED)]
    else if w.created.None? then us == [MarkFailed("", SUBMIT_FAILED)]
    else if !w.uploads then us == [SetCloudBuild(w.created.value.id), MarkFailed(w.created.value.status, SUBMIT_FAILED)]
    else exists n: nat, settled :: Tracked(w, timeout, us, n, settled)
  }

  /** Every path marks the job once, last, and as succeeded exactly when its build reached
      "succeeded" within the budget. */
  lemma ProcessedMarksOnce(w: World, timeout: int, us: seq<Update>)
    requires Processed(w, timeout, us)
    ensures MarkedOnce(us)
    ensures us[|us| - 1].MarkSucceeded? <==> Builds(w, timeout)
  {
    hide Tracked, Builds;
    if w.revision && w.assembles && w.created.Some? && w.uploads {
      var n: nat, settled :| Tracked(w, timeout, us, n, settled);
      TrackedMarksOnce(w, timeout, us, n, settled);
    } else {
      assert !Builds(w, timeout) by { NoBuild(w, timeout); }
    }
  }

  lemma NoBuild(w: World, timeout: int)
    requires !(w.revision && w.assembles && w.created.Some? && w.uploads)
    ensures !Builds(w, timeout)
  {
  }

  lemma TrackedMarksOnce(w: World, timeout: int, us: seq<Update>, n: nat, settled: bool)
    requires w.revision && w.assembles && w.created.Some? && w.uploads && Tracked(w, timeout, us, n, settled)
    ensures MarkedOnce(us)
    ensures us[|us| - 1].MarkSucceeded? <==> Builds(w, timeout)
  {
    hide Changes, Seen, Ends, MarkFor, Last;
    assert us[|us| - 1] == MarkFor(w, Last(Seen(w, n)), settled);
    MarkForMeaning(w, Last(Seen(w, n)), settled);
    if Builds(w, timeout) {
      var m: nat :| Ends(w, w.started + timeout, m, true) && Last(Seen(w, m)) == "succeeded";
      EndsOnce(w, w.started + timeout, m, n, true, settled);
    }
  }

  lemma MarkForMeaning(w: World, final: string, settled: bool)
    ensures MarkFor(w, final, settled).Marks()
    ensures MarkFor(w, final, settled).MarkSucceeded? <==> settled && final == "succeeded"
  {
  }

  /** Why a job that is not built fails, and the Cloud status it is left with. */
  ghost predicate FailsWith(w: World, timeout: int, reason: string, status: string) {
    if !w.revision then reason == "could not load the revision to build" && status == ""
    else if !w.assembles then reason == "source assembly failed" && status == ""
    else if w.created.None? then reason == "submitting the build to Gombit Cloud failed" && status == ""
    else if !w.uploads then reason == "submitting the build to Gombit Cloud failed" && status == w.created.value.status
    else exists n: nat, settled: bool :: TrackedTo(w, timeout, n, settled, reason, status)
  }

  ghost predicate TrackedTo(w: World, timeout: int, n: nat, settled: bool, reason: string, status: string) {
    && Ends(w, w.started + timeout, n, settled) && status == Last(Seen(w, n))
    && reason == if settled then "the Gombit Cloud build did not succeed" else "tracking the Cloud build failed"
  }

  lemma MarkSays(w: World, timeout: int, us: seq<Update>)
    requires Processed(w, timeout, us) && us != []
    ensures
      var mark := us[|us| - 1];
      && (mark.MarkSucceeded? ==> mark.cloudStatus == "succeeded" && mark.digest == if w.digest.Some? then w.digest.value else "")
      && (mark.MarkFailed? ==> FailsWith(w, timeout, mark.reason, mark.cloudStatus))
  {
    if w.revision && w.assembles && w.created.Some? && w.uploads {
      var n: nat, settled :| Tracked(w, timeout, us, n, settled);
      hide Changes, Seen, Ends, Last;
      var mark := us[|us| - 1];
      assert mark == MarkFor(w, Last(Seen(w, n)), settled);
      if mark.MarkFailed? { assert TrackedTo(w, timeout, n, settled, mark.reason, mark.cloudStatus); }
    }
  }

  /** The writes begin with the build's ID, once there is a build. */
  lemma BuildIsWritten(w: World, timeout: int, us: seq<Update>)
    requires Processed(w, timeout, us) && w.revision && w.assembles && w.created.Some?
    ensures us != [] && us[0] == SetCloudBuild(w.created.value.id)
    ensures forall k :: 0 < k < |us| ==> !us[k].SetCloudBuild?
  {
    if w.uploads {
      var n: nat, settled :| Tracked(w, timeout, us, n, settled);
      hide Changes, Seen, Ends, Last;
      var shown := Reflections(Changes(Seen(w, n)));
      forall k | 0 < k < |us| ensures !us[k].SetCloudBuild? {
        if k < |us| - 1 { assert us[k] == shown[k - 1]; }
      }
    }
  }

  /** What a finished row says about its build is so. */
  ghost predicate Says(row: Job, w: World, timeout: int) {
    && (row.status.Succeeded? ==>
          && Builds(w, timeout) && row.cloudStatus == "succeeded"
          && row.digest == if w.digest.Some? then w.digest.value else "")
    && (row.status.Failed? ==> !Builds(w, timeout) && FailsWith(w, timeout, row.error, row.cloudStatus))
  }

  /** A processed job ends succeeded exactly when its build did and the mark landed; a job
      whose mark is lost stays running. A job that succeeded carries the digest Cloud gave, one
      that failed the reason of its path, each with the last status observed; and a job whose
      build was created carries the build's ID. */
  lemma ProcessedRow(jobs: map<nat, Job>, id: nat, w: World, timeout: int, us: seq<Update>)
    requires IsRunning(jobs, id) && Processed(w, timeout, us)
    ensures
      var after := Applied(jobs, id, us, w.reaches);
      && id in after
      && (after[id].status.Terminal() <==> us != [] && w.reaches(|us| - 1))
      && (after[id].status.Succeeded? <==> Builds(w, timeout) && w.reaches(|us| - 1))
      && Says(after[id], w, timeout)
      && (after[id].status.Succeeded? ==> after[id].error == jobs[id].error)
      && (after[id].status.Failed? ==> after[id].digest == jobs[id].digest)
      && (w.revision && w.assembles && w.created.Some? && w.reaches(0) ==> after[id].cloudBuild == w.created.value.id)
      && after[id].order == jobs[id].order
  {
    hide Processed, Builds, FailsWith;
    if w.revision && w.assembles && w.created.Some? {
      BuildIsWritten(w, timeout, us);
      ProcessedMarksOnce(w, timeout, us);
      BuildIsKept(jobs, id, us, w.reaches);
    }
    ProcessedMarksOnce(w, timeout, us);
    MarkSays(w, timeout, us);
    MarkDecides(jobs, id, us, w.reaches);
  }

  /** The k-th poll waits for the k-th tick. */
  ghost predicate Ticking(w: World, poll: nat) { forall k: nat :: w.started + k * poll <= w.now(k) }

  /** k ticks fit into the budget. */
  ghost predicate Fits(k: int, poll: nat, timeout: int) { k * poll <= timeout }

  lemma FitsTicks(w: World, poll: nat, timeout: int, k: nat)
    requires poll > 0 && Ticking(w, poll) && w.now(k) <= w.started + timeout
    ensures Fits(k, poll, timeout) && k <= timeout
  {
    assert k <= k * poll;
  }

  /** Only rows changed, and only forward. */
  ghost predicate Onward(before: Table, after: Table) {
    && after.locks == before.locks && after.next == before.next && after.handed == before.handed
    && Later(before, after)
  }

  lemma OnwardReflexive(a: Table)
    ensures Onward(a, a)
  {
  }

  lemma NothingApplied(jobs: map<nat, Job>, id: nat, reaches: nat -> bool)
    ensures Applied(jobs, id, [], reaches) == jobs
  {
  }

  lemma NothingSeen(w: World)
    ensures Last(Seen(w, 0)) == "" && Reflections(Changes(Seen(w, 0))) == []
  {
    assert Seen(w, 0) == [];
  }

  lemma OnwardTransitive(a: Table, b: Table, c: Table)
    requires Onward(a, b) && Onward(b, c)
    ensures Onward(a, c)
  {
    LaterTransitive(a, b, c);
  }

  ghost function Claimables(d: Table): set<nat> { set k | k in d.jobs && Claimable(d, k) }

  /** One job was handed over and worked to its end. */
  ghost predicate Worked(before: Table, after: Table, me: nat, job: nat, w: World, timeout: int) {
    && job in after.jobs
    && !after.jobs[job].status.Queued?
    && Says(after.jobs[job], w, timeout)
    && (after.jobs[job].status.Running? ==> exists k :: !w.reaches(k))
    && after.handed == before.handed + [(job, me)]
    && after.locks == before.locks
    && after.jobs.Keys == before.jobs.Keys
    && forall k :: k in before.jobs && k != job ==> after.jobs[k] == before.jobs[k]
  }

  ghost predicate Outcome(now: Table, id: nat, w: World, timeout: int) {
    && id in now.jobs && !now.jobs[id].status.Queued?
    && Says(now.jobs[id], w, timeout)
  }

  ghost predicate OldestFirst(done: seq<nat>, left: set<nat>) {
    && (forall i, j :: 0 <= i < j < |done| ==> done[i] < done[j])
    && (forall i, id :: 0 <= i < |done| && id in left ==> done[i] < id)
  }

  lemma OldestFirstStep(done: seq<nat>, left: set<nat>, job: nat)
    requires OldestFirst(done, left) && job in left && forall id :: id in left ==> job <= id
    ensures OldestFirst(done + [job], left - {job})
  {
  }

  /** The jobs done so far: oldest first, all older than what is left, each with its outcome. */
  ghost predicate Drained(start: Table, now: Table, done: seq<nat>, worlds: nat -> World, timeout: int) {
    && OldestFirst(done, Claimables(now))
    && (forall id :: id in done ==> Outcome(now, id, worlds(id), timeout))
    && Claimables(now) == Claimables(start) - Elements(done)
    && Elements(done) <= Claimables(start)
  }

  lemma WorkedClaims(before: Table, after: Table, me: nat, job: nat, w: World, timeout: int)
    requires IsNext(before, job) && Worked(before, after, me, job, w, timeout)
    ensures Claimables(after) == Claimables(before) - {job}
    ensures |Claimables(after)| < |Claimables(before)|
  {
    hide Says;
    assert job in Claimables(before);
    forall k ensures k in Claimables(after) <==> k in Claimables(before) && k != job {
      assert k in after.jobs.Keys <==> k in before.jobs.Keys;
    }
  }

  lemma SameClaims(before: Table, after: Table)
    requires after.jobs == before.jobs && after.locks == before.locks
    ensures Claimables(after) == Claimables(before)
    ensures (forall k :: k in before.jobs ==> !Claimable(before, k)) ==> Claimables(after) == {}
  {
  }

  lemma SameOutcomes(start: Table, before: Table, after: Table, done: seq<nat>, worlds: nat -> World, timeout: int)
    requires Drained(start, before, done, worlds, timeout)
    requires after.jobs == before.jobs && after.locks == before.locks
    ensures Drained(start, after, done, worlds, timeout)
  {
    SameClaims(before, after);
    hide Says;
  }

  lemma OutcomeKept(before: Table, after: Table, me: nat, job: nat, w: World, id: nat, v: World, timeout: int)
    requires Worked(before, after, me, job, w, timeout)
    requires id == job ==> v == w
    requires id != job ==> Outcome(before, id, v, timeout)
    ensures Outcome(after, id, v, timeout)
  {
    hide Says;
  }

  lemma NextIsLeast(before: Table, job: nat)
    requires IsNext(before, job)
    ensures job in Claimables(before) && forall id :: id in Claimables(before) ==> job <= id
  {
  }

  lemma DrainStep(start: Table, before: Table, after: Table, me: nat, job: nat, done: seq<nat>, worlds: nat -> World, timeout: int)
    requires Drained(start, before, done, worlds, timeout)
    requires IsNext(before, job) && Worked(before, after, me, job, worlds(job), timeout)
    ensures Drained(start, after, done + [job], worlds, timeout)
    ensures |Claimables(after)| < |Claimables(before)|
  {
    WorkedClaims(before, after, me, job, worlds(job), timeout);
    NextIsLeast(before, job);
    OldestFirstStep(done, Claimables(before), job);
    OutcomesStep(before, after, me, job, done, worlds, timeout);
    hide Worked, IsNext, Outcome, Claimables, OldestFirst, Elements;
    OneMoreDone(Claimables(start), Claimables(before), Claimables(after), done, job);
  }

  lemma OneMoreDone(start: set<nat>, before: set<nat>, after: set<nat>, done: seq<nat>, job: nat)
    requires before == start - Elements(done) && Elements(done) <= start && job in before && after == before - {job}
    ensures after == start - Elements(done + [job]) && Elements(done + [job]) <= start
  {
    DistinctAppend(done, job);
    hide Elements;
  }

  lemma OutcomesStep(before: Table, after: Table, me: nat, job: nat, done: seq<nat>, worlds: nat -> World, timeout: int)
    requires Worked(before, after, me, job, worlds(job), timeout)
    requires forall id :: id in done ==> Outcome(before, id, worlds(id), timeout)
    ensures forall id :: id in done + [job] ==> Outcome(after, id, worlds(id), timeout)
  {
    hide Worked, Outcome;
    forall id | id in done + [job] ensures Outcome(after, id, worlds(id), timeout) {
      OutcomeKept(before, after, me, job, worlds(job), id, worlds(id), timeout);
    }
  }

  lemma ClaimedIsWorked(before: Table, claimed: Table, after: Table, me: nat, job: nat, w: World, timeout: int, us: seq<Update>)
    requires IsNext(before, job) && job in before.jobs
    requires claimed.jobs == before.jobs[job := before.jobs[job].(status := Running)]
    requires claimed.handed == before.handed + [(job, me)] && claimed.locks == before.locks
    requires after.handed == claimed.handed && after.locks == claimed.locks
    requires Processed(w, timeout, us) && after.jobs == Applied(claimed.jobs, job, us, w.reaches)
    ensures Worked(before, after, me, job, w, timeout)
  {
    hide Says, Processed, Builds, Applied, FailsWith;
    ProcessedRow(claimed.jobs, job, w, timeout, us);
    ProcessedMarksOnce(w, timeout, us);
    MarkDecides(claimed.jobs, job, us, w.reaches);
  }

  datatype Answer = GoOn | Settled | GaveUp

  class Worker {
    const store: JobStore
    const poll: nat
    const timeout: int
    /** The store writes made for the job in hand, landed or not. */
    var writes: seq<Update>
    ghost var base: map<nat, Job>

    /** New, with the defaults of its options in seconds. */
    constructor (store: JobStore, poll: int, timeout: int)
      ensures this.store == store && this.poll > 0 && this.timeout > 0 && writes == []
      ensures (poll > 0 ==> this.poll == poll) && (poll <= 0 ==> this.poll == 3)
      ensures (timeout > 0 ==> this.timeout == timeout) && (timeout <= 0 ==> this.timeout == 1200)
    {
      this.store := store;
      this.poll := if poll <= 0 then 3 else poll;
      this.timeout := if timeout <= 0 then 1200 else timeout;
      writes := [];
    }

    ghost predicate Valid() reads this, store {
      poll > 0 && timeout > 0 && Inv(store.table)
    }

    /** The table is what the writes so far made of it. */
    ghost predicate Synced(id: nat, w: World) reads this, store {
      store.table.jobs == Applied(base, id, writes, w.reaches)
    }

    method Write(id: nat, u: Update, w: World) returns (ok: bool)
      requires Valid() && Synced(id, w)
      modifies this`writes, store
      ensures Valid() && Synced(id, w) && Onward(old(store.table), store.table)
      ensures writes == old(writes) + [u]
    {
      ok := store.Apply(id, u, w.reaches(|writes|));
      ghost var before := writes;
      writes := writes + [u];
      assert writes[..|before|] == before;
    }

    /** One answered poll: a changed status is reflected. */
    method Observe(id: nat, w: World, k: nat, last: string, ghost start: seq<Update>) returns (status: string)
      requires Valid() && Synced(id, w) && w.polled(k).Some?
      requires last == Last(Seen(w, k)) && writes == start + Reflections(Changes(Seen(w, k)))
      modifies this`writes, store
      ensures Valid() && Synced(id, w) && Onward(old(store.table), store.table)
      ensures status == w.polled(k).value == Last(Seen(w, k + 1))
      ensures writes == start + Reflections(Changes(Seen(w, k + 1)))
    {
      hide Inv, Later, Applied;
      LaterReflexive(store.table);
      status := w.polled(k).value;
      SeenGrows(w, k);
      if status != last {
        var ok := Write(id, Reflect(status), w);
      }
    }

    /** The last status and the writes follow from n answered polls. */
    ghost predicate Followed(w: World, n: nat, last: string, start: seq<Update>) reads this {
      last == Last(Seen(w, n)) && writes == start + Reflections(Changes(Seen(w, n)))
    }

    /** One turn of the loop of track. */
    method PollOnce(id: nat, w: World, k: nat, last: string, ghost start: seq<Update>)
        returns (status: string, answer: Answer, ghost n: nat)
      requires Valid() && Synced(id, w) && Ticking(w, poll)
      requires Open(w, w.started + timeout, k) && Followed(w, k, last, start)
      modifies this`writes, store
      ensures Valid() && Synced(id, w) && Onward(old(store.table), store.table)
      ensures k <= n <= k + 1 && Followed(w, n, status, start)
      ensures answer.GoOn? ==> n == k + 1 && Open(w, w.started + timeout, n) && Fits(k, poll, timeout) && k <= timeout
      ensures !answer.GoOn? ==> Ends(w, w.started + timeout, n, answer.Settled?)
    {
      OnwardReflexive(store.table);
      ValidPoll();
      EndsHere(w, w.started + timeout, k);
      hide Open, Ends, Seen, Changes, Reflections, Last, Valid, Synced, Onward, CloudTerminal, Ticking, Fits;
      if w.polled(k).None? { return last, GaveUp, k; }
      status := Observe(id, w, k, last, start);
      n := k + 1;
      if CloudTerminal(status) { return status, Settled, n; }
      if w.now(k) > w.started + timeout || w.cancelled(k) { return status, GaveUp, n; }
      FitsTicks(w, poll, timeout, k);
      answer := GoOn;
    }

    /** k polls were answered and tracking goes on. */
    ghost predicate Tracking(w: World, k: nat, last: string, first: Table, start: seq<Update>) reads this, store {
      && Onward(first, store.table)
      && Open(w, w.started + timeout, k) && Followed(w, k, last, start)
      && (k > 0 ==> Fits(k - 1, poll, timeout) && k - 1 <= timeout)
      && (k > 1 ==> Fits(k - 2, poll, timeout))
    }

    /** Tracking is over after n answered polls. */
    ghost predicate TrackedOut(w: World, n: nat, last: string, settled: bool, first: Table, start: seq<Update>) reads this, store {
      && Onward(first, store.table)
      && Ends(w, w.started + timeout, n, settled) && Followed(w, n, last, start)
      && (n >= 2 ==> Fits(n - 2, poll, timeout))
    }

    method Turn(id: nat, w: World, k: nat, last: string, ghost first: Table, ghost start: seq<Update>)
        returns (status: string, answer: Answer, ghost n: nat)
      requires Valid() && Synced(id, w) && Ticking(w, poll) && Tracking(w, k, last, first, start)
      modifies this`writes, store
      ensures Valid() && Synced(id, w)
      ensures answer.GoOn? ==> k <= timeout && Tracking(w, k + 1, status, first, start)
      ensures !answer.GoOn? ==> TrackedOut(w, n, status, answer.Settled?, first, start)
    {
      hide Open, Ends, Followed, Valid, Synced, Onward, Ticking, Fits;
      ghost var table := store.table;
      status, answer, n := PollOnce(id, w, k, last, start);
      OnwardTransitive(first, table, store.table);
    }

    /** track: it ends within its budget of polls, having reflected each change of status. */
    method Track(id: nat, w: World) returns (final: string, settled: bool, ghost polls: nat)
      requires Valid() && Synced(id, w)
      requires Ticking(w, poll)
      modifies this`writes, store
      ensures Valid() && Synced(id, w) && Onward(old(store.table), store.table)
      ensures Ends(w, w.started + timeout, polls, settled)
      ensures polls >= 2 ==> Fits(polls - 2, poll, timeout)
      ensures Followed(w, polls, final, old(writes))
    {
      ghost var first, start := store.table, writes;
      TrackingStarts(w);
      hide *;
      final := "";
      var k := 0;
      while true
        invariant Valid() && Synced(id, w) && Tracking(w, k, final, first, start)
        decreases timeout + 2 - k
      {
        var answer: Answer;
        final, answer, polls := Turn(id, w, k, final, first, start);
        if !answer.GoOn? {
          TrackingEnds(w, polls, final, answer.Settled?, first, start);
          return final, answer.Settled?, polls;
        }
        k := k + 1;
      }
    }

    lemma TrackingStarts(w: World)
      ensures Tracking(w, 0, "", store.table, writes)
    {
      NothingSeen(w);
      OnwardReflexive(store.table);
    }

    lemma TrackingEnds(w: World, n: nat, last: string, settled: bool, first: Table, start: seq<Update>)
      requires TrackedOut(w, n, last, settled, first, start)
      ensures Onward(first, store.table) && Ends(w, w.started + timeout, n, settled) && Followed(w, n, last, start)
      ensures n >= 2 ==> Fits(n - 2, poll, timeout)
    {
    }

    method Process(id: nat, w: World)
      requires Valid() && Ticking(w, poll)
      modifies this`writes, this`base, store
      ensures Valid() && Onward(old(store.table), store.table)
      ensures Processed(w, timeout, writes)
      ensures store.table.jobs == Applied(old(store.table.jobs), id, writes, w.reaches)
    {
      writes, base := [], store.table.jobs;
      hide Valid, Onward, Ticking, Ends, Last, Seen, Changes, Reflections, Applied, Inv;
      assert Synced(id, w) by { NothingApplied(base, id, w.reaches); }
      var ok: bool;
      if !w.revision {
        ok := Write(id, MarkFailed("", LOAD_FAILED), w);
        return;
      }
      if !w.assembles {
        ok := Write(id, MarkFailed("", ASSEMBLE_FAILED), w);
        return;
      }
      if w.created.None? {
        ok := Write(id, MarkFailed("", SUBMIT_FAILED), w);
        return;
      }
      ProcessBuild(id, w);
    }

    method ProcessBuild(id: nat, w: World)
      requires Valid() && Ticking(w, poll) && Synced(id, w) && writes == []
      requires w.revision && w.assembles && w.created.Some?
      modifies this`writes, store
      ensures Valid() && Synced(id, w) && Onward(old(store.table), store.table)
      ensures Processed(w, timeout, writes)
    {
      hide Valid, Onward, Ticking, Ends, Last, Seen, Changes, Reflections, Applied, Inv;
      var ok := Write(id, SetCloudBuild(w.created.value.id), w);
      ghost var first := store.table;
      if !w.uploads {
        ok := Write(id, MarkFailed(w.created.value.status, SUBMIT_FAILED), w);
        OnwardTransitive(old(store.table), first, store.table);
        return;
      }
      var final, settled, polls := Track(id, w);
      OnwardTransitive(old(store.table), first, store.table);
      ghost var second := store.table;
      ok := Write(id, MarkFor(w, final, settled), w);
      OnwardTransitive(old(store.table), second, store.table);
      assert Tracked(w, timeout, writes, polls, settled);
    }

    /** RunOnce: the least claimable job, if any, is claimed and processed; no other row
        changes. */
    method RunOnce(me: nat, claims: bool, worlds: nat -> World) returns (did: bool, ghost job: nat)
      requires Valid() && forall j: nat :: Ticking(worlds(j), poll)
      modifies this`writes, this`base, store
      ensures Valid() && Later(old(store.table), store.table)
      ensures did <==> claims && exists k :: k in old(store.table).jobs && Claimable(old(store.table), k)
      ensures !did ==> store.table.jobs == old(store.table).jobs && store.table.locks == old(store.table).locks
      ensures did ==> IsNext(old(store.table), job) && Worked(old(store.table), store.table, me, job, worlds(job), timeout)
    {
      var claim := store.Claim(me, claims);
      if claim.None? { return false, 0; }
      job := claim.value.0;
      ghost var claimed := store.table;
      Process(claim.value.0, worlds(claim.value.0));
      LaterTransitive(old(store.table), claimed, store.table);
      ClaimedIsWorked(old(store.table), claimed, store.table, me, job, worlds(job), timeout, writes);
      return true, job;
    }

    /** The inner loop of Run: jobs are worked oldest first until none is left, a claim fails
        or the worker is told to stop. */
    method Drain(me: nat, claimFails: nat -> bool, stopped: nat -> bool, worlds: nat -> World)
        returns (ghost done: seq<nat>, emptied: bool)
      requires Valid() && forall j: nat :: Ticking(worlds(j), poll)
      modifies this`writes, this`base, store
      ensures Valid() && Later(old(store.table), store.table)
      ensures Drained(old(store.table), store.table, done, worlds, timeout)
      ensures emptied ==> Claimables(store.table) == {}
      ensures (forall k: nat :: !claimFails(k) && !stopped(k)) ==> emptied
    {
      done := [];
      var k := 0;
      LaterReflexive(store.table);
      assert Drained(store.table, store.table, [], worlds, timeout);
      hide Later, Says, Drained, Worked, Valid, Ticking;
      while true
        invariant Valid() && Later(old(store.table), store.table)
        invariant Drained(old(store.table), store.table, done, worlds, timeout)
        decreases |Claimables(store.table)|
      {
        ghost var before := store.table;
        var did: bool;
        ghost var job: nat;
        did, job := RunOnce(me, !claimFails(k), worlds);
        LaterTransitive(old(store.table), before, store.table);
        if !did {
          SameClaims(before, store.table);
          SameOutcomes(old(store.table), before, store.table, done, worlds, timeout);
          return done, !claimFails(k);
        }
        DrainStep(old(store.table), before, store.table, me, job, done, worlds, timeout);
        done := done + [job];
        if stopped(k) { return done, false; }
        k := k + 1;
      }
    }

    lemma ValidPoll()
      requires Valid()
      ensures poll > 0 && timeout > 0
    {
    }
  }
}
