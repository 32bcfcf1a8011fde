/**
  The agent host: the job and batch tables, updated in place, and the checkpoint
  files beside them.

  Every method is proved against the step functions of JobLog, JobRecovery and
  JobProgress. Creating, advancing, cancelling, reviewing and validating keep every
  job in the table lawful; recovering need not, because it does not bring the
  result back and may append an open checkpoint again. The progress sink moves its
  cursor and the host together.
*/
module AgentHosts {
  import opened Wrappers
  import opened JobLog
  import opened JobRecovery
  import opened JobProgress
  import opened JsonExtract

  const MAX_CHECKPOINT_BYTES: nat := 50 * 1024 * 1024
  const MAX_BATCH_DOCUMENTS: nat := 64

  datatype ImportBatch = ImportBatch(batchId: string, jobIds: seq<string>, createdAt: nat)

  // A file that does not parse has no content.
  datatype CheckpointFile = CheckpointFile(size: nat, content: Option<seq<Checkpoint>>)

  // Whether the directory can be made, which jobs' files cannot be written, and which of those are left torn.
  datatype Disk = Disk(directory: bool, refused: set<string>, torn: set<string>)

  datatype HostError = InvalidDocument(message: string) | NoDocuments | TooManyDocuments | BlankPath

  const IDLE := Activity(0, 0, 0, None, None, 0, None, [])

  function NewJob(id: string, batchId: Option<string>, path: string, fileHash: string, state: JobState,
                  now: nat): (j: Job)
    ensures Untouched(state) ==> Fresh(j)
  {
    Job(id, batchId, path, fileHash, state, [], now, now, None, None, IDLE, [], 0, None)
  }

  // Nothing is left of it when the host trims it.
  predicate IsBlank(s: string) {
    forall i :: 0 <= i < |s| ==> IsHostSpace(s[i])
  }

  /** The blank paths are those the host trims away. */
  lemma BlankIffTrimmedAway(s: string)
    ensures IsBlank(s) <==> Trim(s) == ""
  {
    TrimStartDropsSpace(s);
    if TrimStart(s) != "" { SomethingIsLeft(TrimStart(s)); }
  }

  lemma {:induction false} TrimStartDropsSpace(s: string)
    ensures IsBlank(s) <==> TrimStart(s) == ""
    ensures TrimStart(s) != "" ==> !IsHostSpace(TrimStart(s)[0])
    decreases s
  {
    if s != "" && IsHostSpace(s[0]) {
      TrimStartDropsSpace(s[1..]);
      assert s == [s[0]] + s[1..];
    }
  }

  lemma {:induction false} SomethingIsLeft(s: string)
    requires s != "" && !IsHostSpace(s[0])
    ensures TrimEnd(s) != ""
    decreases s
  {
    if IsHostSpace(s[|s| - 1]) { SomethingIsLeft(s[..|s| - 1]); }
  }

  predicate Reusable(j: Job, path: string, fileHash: string) {
    j.path == path && j.fileHash == fileHash && !IsTerminal(j.state)
  }

  function FirstBlank(paths: seq<string>): (k: nat)
    ensures k <= |paths|
    ensures forall i :: 0 <= i < k ==> !IsBlank(paths[i])
    ensures k < |paths| ==> IsBlank(paths[k])
  {
    if paths == [] || IsBlank(paths[0]) then 0
    else
      var k := FirstBlank(paths[1..]);
      assert forall i :: 1 <= i < 1 + k ==> paths[i] == paths[1..][i - 1];
      1 + k
  }

  // A job that some sequence of steps can have produced.
  ghost predicate Lawful(j: Job) {
    exists hashes: set<string> :: LogLaw(j, hashes)
  }

  lemma LawfulStep(j: Job, op: JobOp)
    requires Lawful(j)
    ensures Lawful(Step(j, op))
  {
    var hashes: set<string> :| LogLaw(j, hashes);
    var more := hashes + HashesOf([op]);
    assert LogLaw(j, more);
    if op.ValidatedOp? { assert op in [op] && op.fileHash in HashesOf([op]); }
    StepKeepsLaw(j, op, more);
  }

  ghost predicate LawfulTable(jobs: map<string, Job>) {
    forall id :: id in jobs ==> Lawful(jobs[id])
  }

  lemma PerformedKeepsLawful(before: map<string, Job>, after: map<string, Job>, id: string, op: JobOp,
                             r: Result<Job, JobError>)
    requires Performed(before, after, id, op, r)
    ensures LawfulTable(before) ==> LawfulTable(after)
  {
    if id in before && LawfulTable(before) { LawfulStep(before[id], op); }
  }

  // What an operation on one job may do to the job table.
  ghost predicate Performed(before: map<string, Job>, after: map<string, Job>, id: string, op: JobOp,
                            r: Result<Job, JobError>)
  {
    if id !in before then after == before && r == Err(JobNotFound(id))
    else after == before[id := Step(before[id], op)] && r == Attempt(before[id], op)
  }

  lemma PerformedOk(before: map<string, Job>, id: string, op: JobOp, job: Job)
    requires id in before && Attempt(before[id], op) == Ok(job)
    ensures Performed(before, before[id := job], id, op, Ok(job))
  {
  }

  class AgentHost {
    var jobs: map<string, Job>
    var batches: map<string, ImportBatch>
    var files: map<string, CheckpointFile>

    constructor ()
      ensures jobs == map[] && batches == map[] && files == map[] && LawfulTable(jobs)
    {
      jobs, batches, files := map[], map[], map[];
    }

    // Reuses an unfinished job for the same path and hash; otherwise makes a new one
    // under the hashed id it is given.
    method CreateJob(path: string, validation: Result<string, string>, newId: string, now: nat)
      returns (r: Result<string, HostError>)
      modifies this`jobs
      ensures validation.Err? ==> r == Err(InvalidDocument(validation.error)) && jobs == old(jobs)
      ensures validation.Ok? ==> r.Ok?
      ensures validation.Ok? && (exists id :: id in old(jobs) && Reusable(old(jobs)[id], path, validation.value)) ==>
                jobs == old(jobs) && r.value in jobs && Reusable(jobs[r.value], path, validation.value)
      ensures validation.Ok? && (forall id :: id in old(jobs) ==> !Reusable(old(jobs)[id], path, validation.value)) ==>
                r.value == newId && jobs ==
                  old(jobs)[newId := NewJob(newId, None, path, validation.value, Created, now)]
      ensures r.Ok? ==>
                r.value in jobs && jobs[r.value].path == path && jobs[r.value].fileHash == validation.value &&
                !IsTerminal(jobs[r.value].state)
      ensures LawfulTable(old(jobs)) ==> LawfulTable(jobs)
    {
      if validation.Err? { return Err(InvalidDocument(validation.error)); }
      var reusable := set id | id in jobs && Reusable(jobs[id], path, validation.value);
      if id :| id in reusable { return Ok(id); }
      assert forall id :: id in jobs ==> id !in reusable;
      var job := NewJob(newId, None, path, validation.value, Created, now);
      jobs := jobs[newId := job];
      assert Lawful(job) by { FreshLaw(job, {validation.value}); }
      return Ok(newId);
    }

    // On a blank path the jobs made for the paths before it stay in the table, without a batch.
    method CreateBatch(paths: seq<string>, batchId: string, newIds: seq<string>, now: nat)
      returns (r: Result<ImportBatch, HostError>)
      requires |newIds| == |paths|
      modifies this`jobs, this`batches
      ensures r.Ok? <==> 1 <= |paths| <= MAX_BATCH_DOCUMENTS && FirstBlank(paths) == |paths|
      ensures r.Ok? ==> r.value == ImportBatch(batchId, newIds, now) && batches == old(batches)[batchId := r.value]
      ensures r.Err? ==> batches == old(batches)
      ensures jobs == TableAfterBatch(old(jobs), paths, newIds, batchId, now)
      ensures LawfulTable(old(jobs)) ==> LawfulTable(jobs)
    {
      if paths == [] { return Err(NoDocuments); }
      if |paths| > MAX_BATCH_DOCUMENTS { return Err(TooManyDocuments); }
      var jobIds: seq<string> := [];
      for i := 0 to |paths|
        invariant i <= FirstBlank(paths) && jobIds == newIds[..i]
        invariant jobs == WithQueued(old(jobs), paths, newIds, i, batchId, now)
        invariant batches == old(batches)
      {
        if IsBlank(paths[i]) {
          QueuedAreLawful(old(jobs), paths, newIds, i, batchId, now);
          return Err(BlankPath);
        }
        jobs := jobs[newIds[i] := NewJob(newIds[i], Some(batchId), paths[i], "", Queued, now)];
        jobIds := jobIds + [newIds[i]];
      }
      QueuedAreLawful(old(jobs), paths, newIds, |paths|, batchId, now);
      var batch := ImportBatch(batchId, jobIds, now);
      batches := batches[batchId := batch];
      return Ok(batch);
    }

    method AdvanceJob(id: string, next: JobState, outputHash: Option<string>, data: Option<Payload>,
                      error: Option<string>, now: nat)
      returns (r: Result<Job, JobError>)
      modifies this`jobs
      ensures Performed(old(jobs), jobs, id, AdvanceOp(next, outputHash, data, error, now), r)
      ensures r.Ok? <==> id in old(jobs) && CanTransitionTo(old(jobs)[id].state, next)
      ensures r.Ok? ==> jobs[id].state == next && (IsTerminal(next) ==> jobs[id].error == error) &&
                        (next == AwaitingReview ==> jobs[id].result == data)
      ensures LawfulTable(old(jobs)) ==> LawfulTable(jobs)
    {
      if id !in jobs { return Err(JobNotFound(id)); }
      if !CanTransitionTo(jobs[id].state, next) { return Err(InvalidTransition(jobs[id].state, next)); }
      var job := Advanced(jobs[id], next, outputHash, data, error, now);
      jobs := jobs[id := job];
      r := Ok(job);
      PerformedOk(old(jobs), id, AdvanceOp(next, outputHash, data, error, now), job);
      PerformedKeepsLawful(old(jobs), jobs, id, AdvanceOp(next, outputHash, data, error, now), r);
    }

    static method Closed(log: seq<Checkpoint>, outputHash: Option<string>, error: Option<string>,
                         now: nat) returns (r: seq<Checkpoint>)
      ensures r == CloseLast(log, now, outputHash, error)
    {
      r := log;
      if r != [] && r[|r| - 1].completedAt.None? {
        r := r[|r| - 1 := r[|r| - 1].(completedAt := Some(now), outputHash := outputHash, error := error)];
      }
    }

    // The next stage's checkpoint: it reads what the one before it wrote.
    static method Opened(log: seq<Checkpoint>, fileHash: string, next: JobState, outputHash: Option<string>,
                         data: Option<Payload>,
                         error: Option<string>, now: nat)
      returns (cp: Checkpoint)
      ensures cp == Checkpoint(next, NextInput(log, fileHash), if IsTerminal(next) then outputHash else None, now,
                               if IsTerminal(next) then Some(now) else None, error, data)
    {
      var inputHash := fileHash;
      if log != [] && log[|log| - 1].outputHash.Some? { inputHash := log[|log| - 1].outputHash.value; }
      var terminal := IsTerminal(next);
      cp := Checkpoint(next, inputHash, if terminal then outputHash else None, now,
                       if terminal then Some(now) else None, error, data);
    }

    // Closes the open checkpoint, appends the next one, and updates the job's own fields.
    static method Advanced(before: Job, next: JobState, outputHash: Option<string>, data: Option<Payload>,
                           error: Option<string>, now: nat)
      returns (job: Job)
      requires CanTransitionTo(before.state, next)
      ensures Attempt(before, AdvanceOp(next, outputHash, data, error, now)) == Ok(job)
    {
      var log := Closed(before.checkpoints, outputHash, error, now);
      var checkpoint := Opened(log, before.fileHash, next, outputHash, data, error, now);
      job := before.(checkpoints := log + [checkpoint], state := next, updatedAt := now);
      if next == AwaitingReview { job := job.(result := data); }
      if IsTerminal(next) { job := job.(error := error); }
    }

    method CancelJob(id: string, reason: string, now: nat) returns (r: Result<Job, JobError>)
      modifies this`jobs
      ensures Performed(old(jobs), jobs, id, CancelOp(reason, now), r)
      ensures r.Ok? <==> id in old(jobs) && !IsTerminal(old(jobs)[id].state)
      ensures r.Ok? ==> jobs[id].state == Cancelled && jobs[id].error == Some(reason)
      ensures LawfulTable(old(jobs)) ==> LawfulTable(jobs)
    {
      if id !in jobs { return Err(JobNotFound(id)); }
      var job := jobs[id];
      if IsTerminal(job.state) { return Err(AlreadyTerminal(job.state)); }
      var log := job.checkpoints;
      if log != [] && log[|log| - 1].completedAt.None? {
        log := log[|log| - 1 := log[|log| - 1].(completedAt := Some(now), error := Some(reason))];
      }
      var checkpoint := Checkpoint(Cancelled, job.fileHash, None, now, Some(now), Some(reason), None);
      job := job.(checkpoints := log + [checkpoint], state := Cancelled, updatedAt := now, error := Some(reason));
      jobs := jobs[id := job];
      r := Ok(job);
      PerformedKeepsLawful(old(jobs), jobs, id, CancelOp(reason, now), r);
    }

    method ReviewPatch(id: string, accept: bool, now: nat) returns (r: Result<Job, JobError>)
      modifies this`jobs
      ensures Performed(old(jobs), jobs, id, ReviewOp(accept, now), r)
      ensures r.Ok? <==> id in old(jobs) && old(jobs)[id].state == AwaitingReview
      ensures r.Ok? ==> (jobs[id].state == Accepted <==> accept) && (jobs[id].state == Rejected <==> !accept)
      ensures LawfulTable(old(jobs)) ==> LawfulTable(jobs)
    {
      if id !in jobs { return Err(JobNotFound(id)); }
      var job := jobs[id];
      if job.state != AwaitingReview { return Err(NotAwaitingReview(job.state)); }
      var target := if accept then Accepted else Rejected;
      var log := job.checkpoints;
      if log != [] && log[|log| - 1].completedAt.None? {
        log := log[|log| - 1 := log[|log| - 1].(completedAt := Some(now))];
      }
      var checkpoint := Checkpoint(target, job.fileHash, None, now, Some(now), None, None);
      job := job.(checkpoints := log + [checkpoint], state := target, updatedAt := now);
      jobs := jobs[id := job];
      r := Ok(job);
      PerformedKeepsLawful(old(jobs), jobs, id, ReviewOp(accept, now), r);
    }

    // Takes over path and hash in any state, terminal ones included.
    method MarkDocumentValidated(id: string, path: string, fileHash: string, now: nat)
      returns (r: Result<Job, JobError>)
      modifies this`jobs
      ensures Performed(old(jobs), jobs, id, ValidatedOp(path, fileHash, now), r)
      ensures r.Ok? ==> jobs[id].path == path && jobs[id].fileHash == fileHash
      ensures LawfulTable(old(jobs)) ==> LawfulTable(jobs)
    {
      if id !in jobs { return Err(JobNotFound(id)); }
      var job := jobs[id].(path := path, fileHash := fileHash, updatedAt := now);
      jobs := jobs[id := job];
      r := Ok(job);
      PerformedKeepsLawful(old(jobs), jobs, id, ValidatedOp(path, fileHash, now), r);
    }

    method RecordRepairAudit(id: string, record: AuditRecord, now: nat) returns (ok: bool)
      modifies this`jobs
      ensures ok == (id in old(jobs))
      ensures jobs == if ok then old(jobs)[id := RecordAudit(old(jobs)[id], record, now)] else old(jobs)
      ensures ok ==>
                |jobs[id].repairAudit| <= MAX_REPAIR_AUDIT_RECORDS ||
                |old(jobs)[id].repairAudit| > MAX_REPAIR_AUDIT_RECORDS
    {
      if id !in jobs { return false; }
      var job := jobs[id];
      var kept := record.(createdAt := now);
      if |kept.entries| > MAX_REPAIR_AUDIT_ENTRIES {
        kept := kept.(entries := kept.entries[..MAX_REPAIR_AUDIT_ENTRIES]);
      }
      var audit := job.repairAudit + [kept];
      if |audit| > MAX_REPAIR_AUDIT_RECORDS {
        var excess := |audit| - MAX_REPAIR_AUDIT_RECORDS;
        audit := audit[excess..];
      }
      jobs := jobs[id := job.(repairAudit := audit, updatedAt := now)];
      return true;
    }

    method RecordReasoningActivity(id: string, chunks: nat, bytes: nat, now: nat) returns (ok: bool)
      modifies this`jobs
      ensures ok == (id in old(jobs))
      ensures jobs == if ok then old(jobs)[id := RecordReasoning(old(jobs)[id], chunks, bytes, now)] else old(jobs)
    {
      if id !in jobs { return false; }
      var activity := jobs[id].activity;
      activity := activity.(chunkCount := SaturatingAdd(activity.chunkCount, chunks));
      activity := activity.(bytes := SaturatingAdd(activity.bytes, bytes));
      activity := activity.(elapsedMs := SaturatingSub(now, activity.startedAt.GetOr(now)));
      jobs := jobs[id := jobs[id].(activity := activity, updatedAt := now)];
      return true;
    }

    method RecordUploadProgress(id: string, transferred: nat, total: nat, now: nat) returns (ok: bool)
      modifies this`jobs
      ensures ok == (id in old(jobs))
      ensures jobs == if ok then old(jobs)[id := RecordUpload(old(jobs)[id], transferred, total, now)] else old(jobs)
      ensures ok ==> ShowsUpload(jobs[id], Some((transferred, total)), old(jobs)[id])
    {
      if id !in jobs { return false; }
      var shown := transferred;
      if total < shown { shown := total; }
      jobs := jobs[id := jobs[id].(uploadTotalBytes := Some(total), uploadBytes := shown, updatedAt := now)];
      return true;
    }

    method RecordReasoningRetry(id: string, now: nat) returns (ok: bool)
      modifies this`jobs
      ensures ok == (id in old(jobs))
      ensures jobs == if ok then old(jobs)[id := RecordRetry(old(jobs)[id], now)] else old(jobs)
      ensures ok && old(jobs)[id].activity.retryCount < MAX_U32 ==>
                jobs[id].activity.retryCount == old(jobs)[id].activity.retryCount + 1
    {
      if id !in jobs { return false; }
      var activity := jobs[id].activity;
      var count := activity.retryCount;
      if count < MAX_U32 { count := count + 1; } else { count := MAX_U32; }
      jobs := jobs[id := jobs[id].(activity := activity.(retryCount := count), updatedAt := now)];
      return true;
    }

    method BeginReasoningPass(id: string, pass: string, safeSummary: string, now: nat) returns (ok: bool)
      modifies this`jobs
      ensures ok == (id in old(jobs))
      ensures jobs == if ok then old(jobs)[id := Recorded(old(jobs)[id], PassRecord(pass, safeSummary, now))]
                      else old(jobs)
    {
      if id !in jobs { return false; }
      var activity := jobs[id].activity;
      if activity.startedAt.None? { activity := activity.(startedAt := Some(now)); }
      activity := activity.(currentPass := Some(pass), safeSummary := Some(safeSummary));
      activity := activity.(elapsedMs := SaturatingSub(now, activity.startedAt.GetOr(now)));
      jobs := jobs[id := jobs[id].(activity := activity, updatedAt := now)];
      return true;
    }

    method RecordPublicProgress(id: string, u: ProgressUpdate) returns (ok: bool)
      modifies this`jobs
      ensures ok == (id in old(jobs))
      ensures jobs == if ok then old(jobs)[id := RecordPublic(old(jobs)[id], u)] else old(jobs)
    {
      if id !in jobs { return false; }
      var activity := jobs[id].activity;
      var updates := activity.publicProgress + [u];
      if |updates| > MAX_PUBLIC_PROGRESS_UPDATES {
        var excess := |updates| - MAX_PUBLIC_PROGRESS_UPDATES;
        updates := updates[excess..];
      }
      activity := activity.(safeSummary := Some(u.summary), publicProgress := updates);
      jobs := jobs[id := jobs[id].(activity := activity, updatedAt := u.createdAt)];
      return true;
    }

    // Writes the files in an arbitrary order and stops at the first log that is too large or cannot be written.
    method PersistCheckpoints(sizeOf: seq<Checkpoint> -> nat, disk: Disk) returns (ok: bool)
      modifies this`files
      ensures ok <==> disk.directory && forall id :: id in jobs ==>
                        sizeOf(jobs[id].checkpoints) <= 52_428_800 && id !in disk.refused
      ensures ok ==> files == old(files) + FilesOf(jobs, sizeOf)
      ensures forall id :: id in files ==>
                (id in old(files) && files[id] == old(files)[id]) ||
                (id in jobs && files[id] == FilesOf(jobs, sizeOf)[id] && files[id].size <= MAX_CHECKPOINT_BYTES) ||
                (id in jobs && id in disk.refused && id in disk.torn && files[id].content.None?)
      ensures old(files).Keys <= files.Keys
    {
      if !disk.directory { return false; }
      var todo := jobs.Keys;
      ghost var done: set<string> := {};
      while todo != {}
        invariant todo !! done && todo + done == jobs.Keys && done !! disk.refused
        invariant files.Keys == old(files).Keys + done
        invariant forall id :: id in done ==>
                  files[id] == FilesOf(jobs, sizeOf)[id] && files[id].size <= MAX_CHECKPOINT_BYTES
        invariant forall id :: id in files && id !in done ==> id in old(files) && files[id] == old(files)[id]
        decreases todo
      {
        var id :| id in todo;
        var log := jobs[id].checkpoints;
        var size := sizeOf(log);
        if size > MAX_CHECKPOINT_BYTES { return false; }
        if id in disk.refused {
          if id in disk.torn { files := files[id := CheckpointFile(0, None)]; }
          return false;
        }
        files := files[id := CheckpointFile(size, Some(log))];
        todo, done := todo - {id}, done + {id};
      }
      return true;
    }

    method RecoverJob(id: string, now: nat) returns (r: Result<JobState, JobError>)
      modifies this`jobs
      ensures id !in old(jobs) ==> r == Err(JobNotFound(id)) && jobs == old(jobs)
      ensures id in old(jobs) && id !in files ==> r == Ok(old(jobs)[id].state) && jobs == old(jobs)
      ensures id in old(jobs) && id in files ==>
                if files[id].size > 52_428_800 then r == Err(CheckpointTooLarge) && jobs == old(jobs)
                else if files[id].content.None? then r == Err(CheckpointCorrupt) && jobs == old(jobs)
                else
                  jobs == old(jobs)[id := Recover(old(jobs)[id], files[id].content.value, now)] &&
                  r == Ok(jobs[id].state)
    {
      if id !in jobs { return Err(JobNotFound(id)); }
      if id !in files { return Ok(jobs[id].state); }
      if files[id].size > MAX_CHECKPOINT_BYTES { return Err(CheckpointTooLarge); }
      if files[id].content.None? { return Err(CheckpointCorrupt); }
      var job := jobs[id];
      var added := Newer(files[id].content.value, LastCompletedStage(job.checkpoints));
      if added != [] {
        job := job.(checkpoints := job.checkpoints + added, state := added[|added| - 1].stage, updatedAt := now);
      }
      jobs := jobs[id := job];
      return Ok(job.state);
    }
  }

  ghost function FilesOf(jobs: map<string, Job>, sizeOf: seq<Checkpoint> -> nat): map<string, CheckpointFile> {
    map id | id in jobs :: CheckpointFile(sizeOf(jobs[id].checkpoints), Some(jobs[id].checkpoints))
  }

  // The table with queued jobs for the first n paths.
  ghost function WithQueued(jobs: map<string, Job>, paths: seq<string>, ids: seq<string>, n: nat, batchId: string,
                            now: nat): map<string, Job>
    requires n <= |paths| == |ids|
  {
    if n == 0 then jobs
    else
      var job := NewJob(ids[n - 1], Some(batchId), paths[n - 1], "", Queued, now);
      WithQueued(jobs, paths, ids, n - 1, batchId, now)[ids[n - 1] := job]
  }

  // A job as it is queued for a path in a batch.
  ghost predicate IsQueued(j: Job, id: string, path: string, batchId: string, now: nat) {
    j.jobId == id && j.path == path && j.batchId == Some(batchId) && j.fileHash == "" && j.state == Queued &&
    j.checkpoints == [] && j.createdAt == now && j.updatedAt == now && j.result.None? && j.error.None? &&
    j.repairAudit == [] && j.activity.publicProgress == [] && j.activity.retryCount == 0
  }

  /** Under distinct ids every path of a batch has a queued job of its own, and all other jobs are as they were. */
  lemma EveryPathIsQueued(jobs: map<string, Job>, paths: seq<string>, ids: seq<string>, n: nat,
                          batchId: string, now: nat)
    requires n <= |paths| == |ids| && forall i, k :: 0 <= i < k < |ids| ==> ids[i] != ids[k]
    ensures var after := WithQueued(jobs, paths, ids, n, batchId, now);
            (forall i :: 0 <= i < n ==> ids[i] in after && IsQueued(after[ids[i]], ids[i], paths[i], batchId, now)) &&
            forall id :: id !in ids[..n] ==> (id in after <==> id in jobs) && (id in jobs ==> after[id] == jobs[id])
  {
    OthersAreKept(jobs, paths, ids, n, batchId, now);
    var after := WithQueued(jobs, paths, ids, n, batchId, now);
    forall i | 0 <= i < n ensures ids[i] in after && IsQueued(after[ids[i]], ids[i], paths[i], batchId, now) {
      PathIsQueued(jobs, paths, ids, n, i, batchId, now);
    }
  }

  lemma {:induction false} OthersAreKept(jobs: map<string, Job>, paths: seq<string>, ids: seq<string>, n: nat,
                                         batchId: string, now: nat)
    requires n <= |paths| == |ids|
    ensures var after := WithQueued(jobs, paths, ids, n, batchId, now);
            forall id :: id !in ids[..n] ==> (id in after <==> id in jobs) && (id in jobs ==> after[id] == jobs[id])
  {
    if n > 0 {
      OthersAreKept(jobs, paths, ids, n - 1, batchId, now);
      assert ids[..n] == ids[..n - 1] + [ids[n - 1]];
    }
  }

  lemma {:induction false} PathIsQueued(jobs: map<string, Job>, paths: seq<string>, ids: seq<string>, n: nat, i: nat,
                                        batchId: string, now: nat)
    requires i < n <= |paths| == |ids| && forall k :: i < k < n ==> ids[i] != ids[k]
    ensures var after := WithQueued(jobs, paths, ids, n, batchId, now);
            ids[i] in after && IsQueued(after[ids[i]], ids[i], paths[i], batchId, now)
  {
    if i == n - 1 {
      NewJobIsQueued(ids[i], paths[i], batchId, now);
    } else {
      PathIsQueued(jobs, paths, ids, n - 1, i, batchId, now);
      assert ids[i] != ids[n - 1];
    }
  }

  lemma NewJobIsQueued(id: string, path: string, batchId: string, now: nat)
    ensures IsQueued(NewJob(id, Some(batchId), path, "", Queued, now), id, path, batchId, now)
  {
  }

  // What creating a batch leaves in the job table, whether it succeeds or not.
  ghost function TableAfterBatch(jobs: map<string, Job>, paths: seq<string>, ids: seq<string>, batchId: string,
                                 now: nat): map<string, Job>
    requires |paths| == |ids|
  {
    if 1 <= |paths| <= MAX_BATCH_DOCUMENTS then WithQueued(jobs, paths, ids, FirstBlank(paths), batchId, now) else jobs
  }

  lemma {:induction false} QueuedIds(jobs: map<string, Job>, paths: seq<string>, ids: seq<string>, n: nat,
                                     batchId: string, now: nat)
    requires n <= |paths| == |ids|
    ensures forall id :: id in WithQueued(jobs, paths, ids, n, batchId, now) <==> id in jobs || id in ids[..n]
    ensures forall id :: id in ids[..n] ==> WithQueued(jobs, paths, ids, n, batchId, now)[id].batchId == Some(batchId)
  {
    if n > 0 {
      QueuedIds(jobs, paths, ids, n - 1, batchId, now);
      assert ids[..n] == ids[..n - 1] + [ids[n - 1]];
    }
  }

  /**
    Creating a batch under unused ids adds exactly the jobs of the paths before the first blank one, each
    naming the batch; so a call that fails leaves the table alone exactly when there are none or too many
    paths or the first is blank.
  */
  lemma FailedBatchLeavesTheTableIff(jobs: map<string, Job>, paths: seq<string>, ids: seq<string>, batchId: string,
                                     now: nat)
    requires |paths| == |ids| && forall i :: 0 <= i < |ids| ==> ids[i] !in jobs
    ensures var after := TableAfterBatch(jobs, paths, ids, batchId, now);
            (after == jobs <==> paths == [] || |paths| > 64 || FirstBlank(paths) == 0) &&
            forall id :: id in after && id !in jobs ==>
              id in ids[..FirstBlank(paths)] && after[id].batchId == Some(batchId)
  {
    QueuedIds(jobs, paths, ids, FirstBlank(paths), batchId, now);
    if 1 <= |paths| <= MAX_BATCH_DOCUMENTS && FirstBlank(paths) > 0 { assert ids[0] in ids[..FirstBlank(paths)]; }
  }

  /**
    Of two paths the second is blank: the call fails, and the job of the first stays queued in a batch that is not
    there.
  */
  lemma BlankPathLeavesAJob(jobs: map<string, Job>, ids: seq<string>, batchId: string, now: nat)
    requires |ids| == 2 && ids[0] !in jobs
    ensures var paths := ["notes.md", " "];
            FirstBlank(paths) == 1 &&
            TableAfterBatch(jobs, paths, ids, batchId, now) ==
              jobs[ids[0] := NewJob(ids[0], Some(batchId), "notes.md", "", Queued, now)] != jobs
  {
    var paths := ["notes.md", " "];
    assert !IsBlank(paths[0]) by { assert !IsHostSpace(paths[0][0]); }
    assert IsBlank(paths[1]);
    assert WithQueued(jobs, paths, ids, 0, batchId, now) == jobs;
    assert ids[0] in TableAfterBatch(jobs, paths, ids, batchId, now);
  }

  lemma {:induction false} QueuedAreLawful(jobs: map<string, Job>, paths: seq<string>, ids: seq<string>, n: nat,
                                           batchId: string, now: nat)
    requires n <= |paths| == |ids|
    ensures LawfulTable(jobs) ==> LawfulTable(WithQueued(jobs, paths, ids, n, batchId, now))
  {
    if n > 0 {
      QueuedAreLawful(jobs, paths, ids, n - 1, batchId, now);
      var job := NewJob(ids[n - 1], Some(batchId), paths[n - 1], "", Queued, now);
      assert Lawful(job) by { FreshLaw(job, {""}); }
    }
  }

  /** The provider's progress sink: a cursor beside the host, moved by every event. */
  class ProgressSink {
    const host: AgentHost
    const jobId: string
    var attempt: nat
    var chunks: nat
    var bytes: nat
    var uploadTotal: nat

    ghost function Cursor(): Cursor
      reads this
    {
      JobProgress.Cursor(attempt, chunks, bytes, uploadTotal)
    }

    constructor (host: AgentHost, jobId: string)
      ensures this.host == host && this.jobId == jobId && Cursor() == JobProgress.Cursor(0, 0, 0, 0)
    {
      this.host, this.jobId := host, jobId;
      attempt, chunks, bytes, uploadTotal := 0, 0, 0, 0;
    }

    method Emit(e: Event, now: nat)
      modifies this, host`jobs
      ensures Cursor() == MoveCursor(old(Cursor()), e)
      ensures host.jobs == if jobId in old(host.jobs)
                           then old(host.jobs)[jobId := Observe(old(host.jobs)[jobId], old(Cursor()), e, now)]
                           else old(host.jobs)
    {
      var known: bool;
      match e
      case UploadStarted(total) =>
        uploadTotal := total;
        known := host.RecordUploadProgress(jobId, 0, total, now);
      case UploadTransferred(transferred, total) =>
        known := host.RecordUploadProgress(jobId, transferred, total, now);
      case UploadCompleted(transferred) =>
        known := host.RecordUploadProgress(jobId, transferred, uploadTotal, now);
      case ChatStarted(a) =>
        attempt, chunks, bytes := a, 0, 0;
      case Reasoning(a, c, b) =>
        if attempt != a { attempt, chunks, bytes := a, 0, 0; }
        var chunkDelta, byteDelta := SaturatingSub(c, chunks), SaturatingSub(b, bytes);
        chunks, bytes := c, b;
        known := host.RecordReasoningActivity(jobId, chunkDelta, byteDelta, now);
      case PublicProgress(stage, summary, ev, warn) =>
        known := host.RecordPublicProgress(jobId, ProgressUpdate(stage, summary, ev, warn, now));
      case Retrying =>
        known := host.RecordReasoningRetry(jobId, now);
      case OtherEvent =>
    }
  }
}
