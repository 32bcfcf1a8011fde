/** The batch worker racing with the user: every section that holds the host lock is one atomic step. */
module BatchRunner {
  import opened Wrappers
  import opened JobLog
  import opened JobProgress

  // A run is any interleaving of worker steps, user verdicts and cancellations, recordings of progress
  // and repairs on any job, and steps on jobs of other batches, new jobs included.

  // The stages the worker enters, in order.
  const PIPELINE: seq<JobState> := [
    ValidatingFile, ExtractingText, OcrOptional, BuildingDocumentMap, ExtractingSemantics,
    CompilingGraphIr, PersistingCanvas, GeneratingPatch, AwaitingReview]

  datatype Pc =
    | Checking(i: nat)             // about to look whether job i is over
    | Resolving(i: nat)            // about to resolve the configuration of job i
    | Entering(i: nat, k: nat)     // about to enter stage k of job i
    | Marking(i: nat)              // about to record the validated document of job i
    | Failing(i: nat)              // about to record the failure of job i
    | Finished

  datatype Batch = Batch(jobs: map<string, Job>, pc: Pc, healthy: bool, unresolved: set<string>)

  datatype Move =
    // One worker step; ok is the outcome of whatever the worker computes in it.
    | Worker(ok: bool, outputHash: Option<string>, data: Option<Payload>, path: string, fileHash: string,
             error: string, now: nat)
    | CancelMove(id: string, reason: string, now: nat)
    | ReviewMove(id: string, accept: bool, now: nat)
    // Progress, an upload, a retry, an audit or a pass recorded on a job, whatever its state.
    | RecordMove(id: string, what: Recording)
    // Any step on a job outside this batch.
    | Elsewhere(id: string, op: JobOp)
    // A job of another batch enters the table under an id not used yet.
    | CreateMove(id: string, job: Job)

  function OnJob(b: Batch, id: string, op: JobOp): Batch {
    if id in b.jobs then b.(jobs := b.jobs[id := Step(b.jobs[id], op)]) else b
  }

  function WorkerStep(ids: seq<string>, b: Batch, m: Move): Batch
    requires m.Worker?
  {
    match b.pc
    case Finished => b
    case Checking(i) =>
      if i >= |ids| then b.(pc := Finished)
      else if ids[i] !in b.jobs || IsTerminal(b.jobs[ids[i]].state) then b.(pc := Checking(i + 1))
      else b.(pc := Resolving(i))
    case Resolving(i) =>
      if i >= |ids| then b
      else if m.ok then b.(pc := Entering(i, 0))
      else b.(pc := Failing(i), unresolved := b.unresolved + {ids[i]})
    case Entering(i, k) =>
      if i >= |ids| || k >= |PIPELINE| || ids[i] !in b.jobs then b
      else if !m.ok && k > 0 then b.(pc := Failing(i))
      else
        var op := AdvanceOp(PIPELINE[k], m.outputHash, m.data, None, m.now);
        if Attempt(b.jobs[ids[i]], op).Err? then b.(pc := Failing(i))
        else OnJob(b, ids[i], op).(pc := if k == 0 then Marking(i)
                                        else if k + 1 == |PIPELINE| then Checking(i + 1) else Entering(i, k + 1))
    case Marking(i) =>
      if i >= |ids| then b
      else if !m.ok then b.(pc := Failing(i))
      else OnJob(b, ids[i], ValidatedOp(m.path, m.fileHash, m.now)).(pc := Entering(i, 1))
    case Failing(i) =>
      if i >= |ids| then b
      else
        OnJob(b, ids[i], AdvanceOp(Failed, None, None, Some(m.error), m.now)).(pc := Checking(i + 1), healthy := false)
  }

  function Next(ids: seq<string>, b: Batch, m: Move): Batch {
    match m
    case Worker(_, _, _, _, _, _, _) => WorkerStep(ids, b, m)
    case CancelMove(id, reason, now) => OnJob(b, id, CancelOp(reason, now))
    case ReviewMove(id, accept, now) => OnJob(b, id, ReviewOp(accept, now))
    case RecordMove(id, what) => if id in b.jobs then b.(jobs := b.jobs[id := Recorded(b.jobs[id], what)]) else b
    case Elsewhere(id, op) => if id in ids then b else OnJob(b, id, op)
    case CreateMove(id, job) => if id in b.jobs then b else b.(jobs := b.jobs[id := job])
  }

  function Interleave(ids: seq<string>, b: Batch, moves: seq<Move>): Batch
    decreases moves
  {
    if moves == [] then b else Interleave(ids, Next(ids, b, moves[0]), moves[1..])
  }

  ghost predicate Started(ids: seq<string>, b: Batch) {
    (forall i, k :: 0 <= i < k < |ids| ==> ids[i] != ids[k]) &&
    (forall i :: 0 <= i < |ids| ==> ids[i] in b.jobs && b.jobs[ids[i]].state == Queued) &&
    b.pc == Checking(0) && b.healthy && b.unresolved == {}
  }

  predicate Settled(s: JobState) {
    s == AwaitingReview || IsTerminal(s)
  }

  // How many jobs the worker is done with.
  function Behind(ids: seq<string>, pc: Pc): nat {
    if pc == Finished then |ids| else pc.i
  }

  // What the current job's state can be, given where the worker is.
  predicate AtWork(pc: Pc, s: JobState, unresolved: bool) {
    match pc
    case Checking(_) => s == Queued || s == Cancelled
    case Resolving(_) => s == Queued || s == Cancelled
    case Entering(_, k) => k < |PIPELINE| && (s == (if k == 0 then Queued else PIPELINE[k - 1]) || s == Cancelled)
    case Marking(_) => s == ValidatingFile || s == Cancelled
    case Failing(_) => s == Cancelled || (s == Queued && unresolved) || (Working(s) && s != AwaitingReview)
    case Finished => true
  }

  predicate Left(s: JobState, unresolved: bool, healthy: bool) {
    (Settled(s) && (healthy ==> s != Failed)) || (s == Queued && unresolved && !healthy)
  }

  ghost predicate Inv(ids: seq<string>, b: Batch) {
    var n := Behind(ids, b.pc);
    (forall i, k :: 0 <= i < k < |ids| ==> ids[i] != ids[k]) &&
    n <= |ids| && (b.pc != Finished && !b.pc.Checking? ==> n < |ids|) &&
    (forall i :: 0 <= i < |ids| ==> ids[i] in b.jobs) &&
    (forall i :: 0 <= i < n ==> Left(b.jobs[ids[i]].state, ids[i] in b.unresolved, b.healthy)) &&
    (n < |ids| ==> AtWork(b.pc, b.jobs[ids[n]].state, ids[n] in b.unresolved)) &&
    (forall i :: n < i < |ids| ==> b.jobs[ids[i]].state == Queued || b.jobs[ids[i]].state == Cancelled)
  }

  lemma UserOnState(j: Job, op: JobOp)
    requires op.CancelOp? || op.ReviewOp?
    ensures var s, s' := j.state, Step(j, op).state;
            s' == s || (!IsTerminal(s) && s' == Cancelled) ||
              (s == AwaitingReview && (s' == Accepted || s' == Rejected))
  {
  }

  lemma UserKeepsInv(ids: seq<string>, b: Batch, id: string, op: JobOp)
    requires Inv(ids, b) && (op.CancelOp? || op.ReviewOp?)
    ensures Inv(ids, OnJob(b, id, op))
  {
    if id in b.jobs { UserOnState(b.jobs[id], op); }
  }

  lemma ElsewhereKeepsInv(ids: seq<string>, b: Batch, id: string, op: JobOp)
    requires Inv(ids, b) && id !in ids
    ensures Inv(ids, OnJob(b, id, op))
  {
    assert forall i :: 0 <= i < |ids| ==> ids[i] != id;
  }

  lemma RecordingKeepsInv(ids: seq<string>, b: Batch, m: Move)
    requires Inv(ids, b) && (m.RecordMove? || m.CreateMove?)
    ensures Inv(ids, Next(ids, b, m))
  {
    if m.RecordMove? && m.id in b.jobs { RecordingKeepsTheRest(b.jobs[m.id], m.what); }
    var b' := Next(ids, b, m);
    assert forall i :: 0 <= i < |ids| ==> ids[i] in b'.jobs && b'.jobs[ids[i]].state == b.jobs[ids[i]].state;
  }

  // The worker's step changes at most the current job.
  lemma WorkerKeepsInv(ids: seq<string>, b: Batch, m: Move)
    requires Inv(ids, b) && m.Worker?
    ensures Inv(ids, WorkerStep(ids, b, m))
  {
    var b' := WorkerStep(ids, b, m);
    var n := Behind(ids, b.pc);
    if n < |ids| {
      CurrentJobMoves(ids, b, m);
      assert forall i :: 0 <= i < |ids| && i != n ==> ids[i] != ids[n];
    }
  }

  // What a worker step at job n may do.
  ghost predicate MovedOn(ids: seq<string>, b: Batch, n: nat, b': Batch)
    requires n < |ids| && ids[n] in b.jobs
  {
    b'.jobs.Keys == b.jobs.Keys && (forall id :: id in b.jobs && id != ids[n] ==> b'.jobs[id] == b.jobs[id]) &&
    (forall id :: id != ids[n] ==> (id in b'.unresolved <==> id in b.unresolved)) &&
    (b'.healthy ==> b.healthy) &&
    b'.pc != Finished &&
    if Behind(ids, b'.pc) == n then AtWork(b'.pc, b'.jobs[ids[n]].state, ids[n] in b'.unresolved)
    else b'.pc == Checking(n + 1) && Left(b'.jobs[ids[n]].state, ids[n] in b'.unresolved, b'.healthy)
  }

  lemma CurrentJobMoves(ids: seq<string>, b: Batch, m: Move)
    requires Inv(ids, b) && m.Worker? && Behind(ids, b.pc) < |ids|
    ensures MovedOn(ids, b, Behind(ids, b.pc), WorkerStep(ids, b, m))
  {
    var n := Behind(ids, b.pc);
    match b.pc {
      case Entering(_, k) => EnteringMoves(ids, b, m, n, k);
      case Failing(_) => FailingMoves(ids, b, m, n);
      case _ =>
    }
  }

  lemma EnteringMoves(ids: seq<string>, b: Batch, m: Move, n: nat, k: nat)
    requires m.Worker? && n < |ids| && ids[n] in b.jobs && b.pc == Entering(n, k)
    requires AtWork(b.pc, b.jobs[ids[n]].state, ids[n] in b.unresolved)
    ensures MovedOn(ids, b, n, WorkerStep(ids, b, m))
  {
    EnteringSucceedsUnlessOver(b.jobs[ids[n]], k, m);
  }

  lemma FailingMoves(ids: seq<string>, b: Batch, m: Move, n: nat)
    requires m.Worker? && n < |ids| && ids[n] in b.jobs && b.pc == Failing(n)
    requires AtWork(b.pc, b.jobs[ids[n]].state, ids[n] in b.unresolved)
    ensures MovedOn(ids, b, n, WorkerStep(ids, b, m))
  {
  }

  lemma EnteringSucceedsUnlessOver(j: Job, k: nat, m: Move)
    requires m.Worker? && k < |PIPELINE|
    requires j.state == (if k == 0 then Queued else PIPELINE[k - 1]) || j.state == Cancelled
    ensures var op := AdvanceOp(PIPELINE[k], m.outputHash, m.data, None, m.now);
            Attempt(j, op).Ok? <==> j.state != Cancelled
    ensures k > 0 ==> Working(PIPELINE[k - 1]) && PIPELINE[k - 1] != AwaitingReview
  {
  }

  lemma NextKeepsInv(ids: seq<string>, b: Batch, m: Move)
    requires Inv(ids, b)
    ensures Inv(ids, Next(ids, b, m))
  {
    match m {
      case Worker(_, _, _, _, _, _, _) => WorkerKeepsInv(ids, b, m);
      case CancelMove(id, reason, now) => UserKeepsInv(ids, b, id, CancelOp(reason, now));
      case ReviewMove(id, accept, now) => UserKeepsInv(ids, b, id, ReviewOp(accept, now));
      case RecordMove(_, _) => RecordingKeepsInv(ids, b, m);
      case Elsewhere(id, op) => if id !in ids { ElsewhereKeepsInv(ids, b, id, op); }
      case CreateMove(_, _) => RecordingKeepsInv(ids, b, m);
    }
  }

  lemma {:induction false} InterleaveKeepsInv(ids: seq<string>, b: Batch, moves: seq<Move>)
    requires Inv(ids, b)
    ensures Inv(ids, Interleave(ids, b, moves))
    decreases moves
  {
    if moves != [] {
      NextKeepsInv(ids, b, moves[0]);
      InterleaveKeepsInv(ids, Next(ids, b, moves[0]), moves[1..]);
    }
  }

  /**
    A finished batch.  Whatever the worker's computations do and whenever the user
    cancels or decides, every job is left awaiting review, over, or queued; the last
    only when its configuration did not resolve, and then the batch is unhealthy.
    A healthy batch has no failed job either.
  */
  lemma FinishedBatch(ids: seq<string>, b: Batch, moves: seq<Move>, i: nat)
    requires Started(ids, b) && i < |ids|
    ensures var end := Interleave(ids, b, moves);
            end.pc == Finished ==>
              ids[i] in end.jobs &&
              var s := end.jobs[ids[i]].state;
              (Settled(s) || (s == Queued && ids[i] in end.unresolved)) &&
              (end.healthy ==> s == AwaitingReview || s == Accepted || s == Rejected || s == Cancelled)
  {
    InterleaveKeepsInv(ids, b, moves);
  }

  // ---- The worker always gets to the end ----

  function WorkLeft(ids: seq<string>, pc: Pc): int {
    var jobsLeft := 13 * (|ids| - Behind(ids, pc));
    match pc
    case Finished => 0
    case Checking(_) => jobsLeft + 1
    case Resolving(_) => jobsLeft
    case Entering(_, 0) => jobsLeft - 1
    case Marking(_) => jobsLeft - 2
    case Entering(_, k) => jobsLeft - 2 - k
    case Failing(_) => jobsLeft - 11
  }

  function WorkerMoves(moves: seq<Move>): nat {
    if moves == [] then 0 else (if moves[0].Worker? then 1 else 0) + WorkerMoves(moves[1..])
  }

  lemma WorkShrinks(ids: seq<string>, b: Batch, m: Move)
    requires Inv(ids, b)
    ensures WorkLeft(ids, Next(ids, b, m).pc) <= WorkLeft(ids, b.pc)
    ensures m.Worker? && b.pc != Finished ==> WorkLeft(ids, Next(ids, b, m).pc) < WorkLeft(ids, b.pc)
    ensures b.pc == Finished ==> Next(ids, b, m).pc == Finished
    ensures b.pc != Finished ==> WorkLeft(ids, b.pc) >= 1
  {
  }

  lemma {:induction false} WorkerFinishesWithin(ids: seq<string>, b: Batch, moves: seq<Move>)
    requires Inv(ids, b) && WorkerMoves(moves) >= WorkLeft(ids, b.pc)
    ensures Interleave(ids, b, moves).pc == Finished
    decreases moves
  {
    WorkShrinks(ids, b, if moves == [] then CancelMove("", "", 0) else moves[0]);
    if moves != [] {
      InterleaveKeepsInv(ids, b, moves[..1]);
      assert Interleave(ids, b, moves[..1]) == Next(ids, b, moves[0]) by {
        assert moves[..1][1..] == [] && moves[..1][0] == moves[0];
      }
      WorkerFinishesWithin(ids, Next(ids, b, moves[0]), moves[1..]);
    }
  }

  /** Every interleaving with 13 worker steps per job and one more has finished the batch. */
  lemma BatchTerminates(ids: seq<string>, b: Batch, moves: seq<Move>)
    requires Started(ids, b) && WorkerMoves(moves) >= 13 * |ids| + 1
    ensures Interleave(ids, b, moves).pc == Finished
  {
    WorkerFinishesWithin(ids, b, moves);
  }

  // ---- What happens to a finished job ----

  ghost predicate SameVerdict(a: Job, b: Job) {
    a.state == b.state && a.checkpoints == b.checkpoints && a.result == b.result && a.error == b.error
  }

  predicate SameDocument(a: Job, b: Job) {
    a.path == b.path && a.fileHash == b.fileHash
  }

  predicate Later(s: JobState, s': JobState) {
    (IsTerminal(s) ==> s' == s) && (Settled(s) ==> Settled(s')) && (s' == Queued ==> s == Queued)
  }

  lemma StepIsLater(j: Job, op: JobOp)
    ensures Later(j.state, Step(j, op).state)
    ensures IsTerminal(j.state) ==> SameVerdict(j, Step(j, op))
  {
  }

  lemma OneMoveOn(ids: seq<string>, b: Batch, m: Move, id: string)
    requires id in b.jobs
    ensures var b' := Next(ids, b, m);
            id in b'.jobs && (b'.jobs[id] == b.jobs[id] || (exists op :: b'.jobs[id] == Step(b.jobs[id], op)) ||
                              (exists r :: b'.jobs[id] == Recorded(b.jobs[id], r)))
  {
  }

  lemma OneMoveIsLater(ids: seq<string>, b: Batch, m: Move, id: string)
    requires id in b.jobs
    ensures var b' := Next(ids, b, m);
            id in b'.jobs && Later(b.jobs[id].state, b'.jobs[id].state) &&
            (IsTerminal(b.jobs[id].state) ==> SameVerdict(b.jobs[id], b'.jobs[id]))
  {
    OneMoveOn(ids, b, m, id);
    var j, j' := b.jobs[id], Next(ids, b, m).jobs[id];
    if op :| j' == Step(j, op) {
      StepIsLater(j, op);
    } else if r :| j' == Recorded(j, r) {
      RecordingKeepsTheRest(j, r);
    }
  }

  /** A cancelled, failed or decided job keeps its state, log, result and error in every interleaving. */
  lemma {:induction false} FinishedJobsAreKept(ids: seq<string>, b: Batch, moves: seq<Move>, id: string)
    requires id in b.jobs && IsTerminal(b.jobs[id].state)
    ensures id in Interleave(ids, b, moves).jobs && SameVerdict(b.jobs[id], Interleave(ids, b, moves).jobs[id])
    decreases moves
  {
    if moves != [] {
      OneMoveIsLater(ids, b, moves[0], id);
      FinishedJobsAreKept(ids, Next(ids, b, moves[0]), moves[1..], id);
    }
  }

  // The worker is about to record the validated document of job id.
  predicate AtMarking(ids: seq<string>, pc: Pc, id: string) {
    pc.Marking? && pc.i < |ids| && ids[pc.i] == id
  }

  // Recording this validation would change the job.
  predicate Revalidates(j: Job, path: string, fileHash: string, now: nat) {
    path != j.path || fileHash != j.fileHash || now != j.updatedAt
  }

  // A step leaves a finished job alone, unless it records a validation.
  lemma StepOnFinished(j: Job, op: JobOp)
    requires IsTerminal(j.state)
    ensures Step(j, op) == if op.ValidatedOp? then MarkValidated(j, op.path, op.fileHash, op.now) else j
  {
  }

  lemma RevalidatingChanges(j: Job, path: string, fileHash: string, now: nat)
    ensures MarkValidated(j, path, fileHash, now) != j <==> Revalidates(j, path, fileHash, now)
    ensures MarkValidated(j, path, fileHash, now).state == j.state
  {
  }

  lemma WorkerOnFinished(ids: seq<string>, b: Batch, m: Move, id: string)
    requires m.Worker? && id in b.jobs && IsTerminal(b.jobs[id].state)
    ensures var b' := WorkerStep(ids, b, m);
            id in b'.jobs && !AtMarking(ids, b'.pc, id) &&
            b'.jobs[id] == if m.ok && AtMarking(ids, b.pc, id) then MarkValidated(b.jobs[id], m.path, m.fileHash, m.now)
                           else b.jobs[id]
  {
    match b.pc {
      case Entering(i, k) => EnteringFinished(ids, b, m, id, i, k);
      case Failing(i) => StepOnFinished(b.jobs[id], AdvanceOp(Failed, None, None, Some(m.error), m.now));
      case _ =>
    }
  }

  lemma EnteringFinished(ids: seq<string>, b: Batch, m: Move, id: string, i: nat, k: nat)
    requires m.Worker? && id in b.jobs && IsTerminal(b.jobs[id].state) && b.pc == Entering(i, k)
    ensures var b' := WorkerStep(ids, b, m);
            id in b'.jobs && b'.jobs[id] == b.jobs[id] && !AtMarking(ids, b'.pc, id)
  {
    if i < |ids| && k < |PIPELINE| && ids[i] == id {
      assert !CanTransitionTo(b.jobs[id].state, PIPELINE[k]);
    }
  }

  // What a move makes of a finished job, marking telling whether the worker is at Marking on it.
  function Touch(j: Job, marking: bool, outside: bool, m: Move, id: string): Job {
    if m.Worker? && m.ok && marking then MarkValidated(j, m.path, m.fileHash, m.now)
    else if m.Elsewhere? && m.id == id && outside && m.op.ValidatedOp? then
      MarkValidated(j, m.op.path, m.op.fileHash, m.op.now)
    else if m.RecordMove? && m.id == id then Recorded(j, m.what)
    else j
  }

  lemma OneMoveOnFinished(ids: seq<string>, b: Batch, m: Move, id: string)
    requires id in b.jobs && IsTerminal(b.jobs[id].state)
    ensures var b' := Next(ids, b, m);
            id in b'.jobs && IsTerminal(b'.jobs[id].state) &&
            (m.Worker? ==> !AtMarking(ids, b'.pc, id)) && (!m.Worker? ==> b'.pc == b.pc) &&
            b'.jobs[id] == Touch(b.jobs[id], AtMarking(ids, b.pc, id), id !in ids, m, id)
  {
    OneMoveIsLater(ids, b, m, id);
    match m {
      case Worker(_, _, _, _, _, _, _) => WorkerOnFinished(ids, b, m, id);
      case CancelMove(_, reason, now) => StepOnFinished(b.jobs[id], CancelOp(reason, now));
      case ReviewMove(_, accept, now) => StepOnFinished(b.jobs[id], ReviewOp(accept, now));
      case Elsewhere(_, op) => StepOnFinished(b.jobs[id], op);
      case RecordMove(_, _) =>
      case CreateMove(_, _) =>
    }
  }

  /**
    One move changes a finished job exactly when it records a validation, the worker's own or one from
    outside the batch, or a progress or a repair, that differs from what the job holds; and it changes
    the job's document exactly when it records a validation of another path or hash.
  */
  lemma FinishedJobChangesIff(ids: seq<string>, b: Batch, m: Move, id: string)
    requires id in b.jobs && IsTerminal(b.jobs[id].state)
    ensures id in Next(ids, b, m).jobs
    ensures Next(ids, b, m).jobs[id] != b.jobs[id] <==>
              (m.Worker? && m.ok && AtMarking(ids, b.pc, id) && Revalidates(b.jobs[id], m.path, m.fileHash, m.now)) ||
              (m.Elsewhere? && m.id == id && id !in ids && m.op.ValidatedOp? &&
               Revalidates(b.jobs[id], m.op.path, m.op.fileHash, m.op.now)) ||
              (m.RecordMove? && m.id == id && Shows(b.jobs[id], m.what))
    ensures !SameDocument(Next(ids, b, m).jobs[id], b.jobs[id]) <==>
              (m.Worker? && m.ok && AtMarking(ids, b.pc, id) &&
               !(m.path == b.jobs[id].path && m.fileHash == b.jobs[id].fileHash)) ||
              (m.Elsewhere? && m.id == id && id !in ids && m.op.ValidatedOp? &&
               !(m.op.path == b.jobs[id].path && m.op.fileHash == b.jobs[id].fileHash))
  {
    OneMoveOnFinished(ids, b, m, id);
    match m {
      case Worker(_, _, _, path, fileHash, _, now) => RevalidatingChanges(b.jobs[id], path, fileHash, now);
      case Elsewhere(_, op) =>
        if op.ValidatedOp? { RevalidatingChanges(b.jobs[id], op.path, op.fileHash, op.now); }
      case RecordMove(_, what) =>
        RecordingChangesIff(b.jobs[id], what);
        RecordingKeepsTheRest(b.jobs[id], what);
      case _ =>
    }
  }

  // The next step of the worker, None when it takes none.
  function FirstWorker(moves: seq<Move>): (r: Option<Move>)
    ensures r.Some? ==> r.value.Worker?
  {
    if moves == [] then None else if moves[0].Worker? then Some(moves[0]) else FirstWorker(moves[1..])
  }

  /**
    What a finished job of the batch becomes, told from the moves alone: everything recorded on it, and
    the validation of the worker's next step if the worker is at Marking on it now.
  */
  function FinallyBecomes(j: Job, marking: bool, moves: seq<Move>, id: string): Job
    decreases moves
  {
    if moves == [] then j
    else FinallyBecomes(Touch(j, marking, false, moves[0], id), marking && !moves[0].Worker?, moves[1..], id)
  }

  /** The whole record of a finished job of the batch after any interleaving. */
  lemma {:induction false} FinishedJobEndsAs(ids: seq<string>, b: Batch, moves: seq<Move>, id: string)
    requires id in ids && id in b.jobs && IsTerminal(b.jobs[id].state)
    ensures id in Interleave(ids, b, moves).jobs
    ensures Interleave(ids, b, moves).jobs[id] == FinallyBecomes(b.jobs[id], AtMarking(ids, b.pc, id), moves, id)
    decreases moves
  {
    if moves != [] {
      OneMoveOnFinished(ids, b, moves[0], id);
      FinishedJobEndsAs(ids, Next(ids, b, moves[0]), moves[1..], id);
    }
  }

  // The path and hash such a job ends up with.
  function FinalDocument(j: Job, marking: bool, moves: seq<Move>): (string, string) {
    var w := FirstWorker(moves);
    if marking && w.Some? && w.value.ok then (w.value.path, w.value.fileHash) else (j.path, j.fileHash)
  }

  lemma {:induction false} DocumentEndsAs(j: Job, marking: bool, moves: seq<Move>, id: string)
    ensures var end := FinallyBecomes(j, marking, moves, id);
            (end.path, end.fileHash) == FinalDocument(j, marking, moves)
    decreases moves
  {
    if moves != [] {
      if moves[0].RecordMove? { RecordingKeepsTheRest(j, moves[0].what); }
      DocumentEndsAs(Touch(j, marking, false, moves[0], id), marking && !moves[0].Worker?, moves[1..], id);
    }
  }

  /**
    A finished job of the batch keeps its verdict and its document in every interleaving, unless the
    worker is just recording its validation: then path and hash change exactly if the worker's next
    step does record another path or hash.
  */
  lemma FinishedJobIsOverwrittenIff(ids: seq<string>, b: Batch, moves: seq<Move>, id: string)
    requires id in ids && id in b.jobs && IsTerminal(b.jobs[id].state)
    ensures id in Interleave(ids, b, moves).jobs
    ensures SameVerdict(b.jobs[id], Interleave(ids, b, moves).jobs[id])
    ensures !SameDocument(Interleave(ids, b, moves).jobs[id], b.jobs[id]) <==>
              var w := FirstWorker(moves);
              AtMarking(ids, b.pc, id) && w.Some? && w.value.ok &&
              !(w.value.path == b.jobs[id].path && w.value.fileHash == b.jobs[id].fileHash)
  {
    FinishedJobsAreKept(ids, b, moves, id);
    FinishedJobEndsAs(ids, b, moves, id);
    DocumentEndsAs(b.jobs[id], AtMarking(ids, b.pc, id), moves, id);
  }

  // Something is recorded on job id among the moves.
  predicate RecordedIn(moves: seq<Move>, id: string) {
    exists k :: 0 <= k < |moves| && moves[k].RecordMove? && moves[k].id == id
  }

  // Without recordings only the worker's next step counts.
  lemma {:induction false} EndsAsWithoutRecordings(j: Job, marking: bool, moves: seq<Move>, id: string)
    requires !RecordedIn(moves, id)
    ensures var w := FirstWorker(moves);
            FinallyBecomes(j, marking, moves, id) ==
              if marking && w.Some? && w.value.ok then MarkValidated(j, w.value.path, w.value.fileHash, w.value.now)
              else j
    decreases moves
  {
    if moves != [] {
      assert forall k :: 0 <= k < |moves| - 1 ==> moves[1..][k] == moves[k + 1];
      EndsAsWithoutRecordings(Touch(j, marking, false, moves[0], id), marking && !moves[0].Worker?, moves[1..], id);
    }
  }

  /** As long as nothing is recorded on it, a finished job of the batch changes at all exactly by such a validation. */
  lemma UnrecordedJobChangesIff(ids: seq<string>, b: Batch, moves: seq<Move>, id: string)
    requires id in ids && id in b.jobs && IsTerminal(b.jobs[id].state) && !RecordedIn(moves, id)
    ensures id in Interleave(ids, b, moves).jobs
    ensures Interleave(ids, b, moves).jobs[id] != b.jobs[id] <==>
              var w := FirstWorker(moves);
              AtMarking(ids, b.pc, id) && w.Some? && w.value.ok &&
              Revalidates(b.jobs[id], w.value.path, w.value.fileHash, w.value.now)
  {
    FinishedJobEndsAs(ids, b, moves, id);
    EndsAsWithoutRecordings(b.jobs[id], AtMarking(ids, b.pc, id), moves, id);
    var w := FirstWorker(moves);
    if w.Some? { RevalidatingChanges(b.jobs[id], w.value.path, w.value.fileHash, w.value.now); }
  }

  /** An event of a job's progress sink is one such recording on the job, or nothing at all. */
  lemma SinkEventIsARecording(ids: seq<string>, b: Batch, id: string, c: Cursor, e: Event, now: nat)
    requires id in b.jobs
    ensures b.(jobs := b.jobs[id := Observe(b.jobs[id], c, e, now)]) ==
            match RecordingOf(c, e, now)
            case Some(r) => Next(ids, b, RecordMove(id, r))
            case None => b
  {
    ObservingRecords(b.jobs[id], c, e, now);
    assert b.jobs[id := b.jobs[id]] == b.jobs;
  }

  /** A retry reported after the user has cancelled: the cancelled job is not as it was, its verdict is. */
  lemma RetryTouchesACancelledJob(ids: seq<string>, b: Batch, at: nat, later: nat)
    requires Started(ids, b) && ids != [] && at != later
    ensures var cancelled := Interleave(ids, b, [CancelMove(ids[0], "user", at)]);
            var end := Interleave(ids, b, [CancelMove(ids[0], "user", at), RecordMove(ids[0], RetryRecord(later))]);
            ids[0] in cancelled.jobs && ids[0] in end.jobs && cancelled.jobs[ids[0]].state == Cancelled &&
            end.jobs[ids[0]].updatedAt == later && end.jobs[ids[0]] != cancelled.jobs[ids[0]] &&
            SameVerdict(cancelled.jobs[ids[0]], end.jobs[ids[0]])
  {
    var cancel, retry := CancelMove(ids[0], "user", at), RecordMove(ids[0], RetryRecord(later));
    assert b.jobs[ids[0]].state == Queued;
    assert [cancel][1..] == [] && [cancel, retry][1..] == [retry] && [retry][1..] == [];
    var b1 := Next(ids, b, cancel);
    assert Interleave(ids, b1, []) == b1;
    assert Interleave(ids, b1, [retry]) == Interleave(ids, Next(ids, b1, retry), []);
  }

  // A worker step that goes well.
  function Good(path: string, fileHash: string): Move {
    Worker(true, None, None, path, fileHash, "", 0)
  }

  lemma FourMoves(ids: seq<string>, b: Batch, m0: Move, m1: Move, m2: Move, m3: Move)
    ensures Interleave(ids, b, [m0, m1, m2, m3]) == Next(ids, Next(ids, Next(ids, Next(ids, b, m0), m1), m2), m3)
  {
    assert [m0, m1, m2, m3][1..] == [m1, m2, m3] && [m1, m2, m3][1..] == [m2, m3] && [m2, m3][1..] == [m3] &&
      [m3][1..] == [];
    var b1 := Next(ids, b, m0);
    var b2 := Next(ids, b1, m1);
    var b3 := Next(ids, b2, m2);
    calc {
      Interleave(ids, b, [m0, m1, m2, m3]);
      Interleave(ids, b1, [m1, m2, m3]);
      Interleave(ids, b2, [m2, m3]);
      Interleave(ids, b3, [m3]);
      Interleave(ids, Next(ids, b3, m3), []);
    }
  }

  lemma {:induction false} InterleaveAppend(ids: seq<string>, b: Batch, a: seq<Move>, c: seq<Move>)
    ensures Interleave(ids, b, a + c) == Interleave(ids, Interleave(ids, b, a), c)
    decreases a
  {
    if a == [] {
      assert a + c == c;
    } else {
      assert (a + c)[1..] == a[1..] + c;
      InterleaveAppend(ids, Next(ids, b, a[0]), a[1..], c);
    }
  }

  /**
    From the start of any batch: the user cancels its first job while the document is being validated, and the
    worker then records the validation all the same, with whatever path and hash it has.
  */
  lemma ValidationOverwritesACancelledHash(ids: seq<string>, b: Batch, path: string, fileHash: string)
    requires Started(ids, b) && ids != []
    ensures var good := Good(path, fileHash);
            var cancelled := Interleave(ids, b, [good, good, good, CancelMove(ids[0], "user", 0)]);
            var end := Interleave(ids, b, [good, good, good, CancelMove(ids[0], "user", 0)] + [good]);
            ids[0] in cancelled.jobs && ids[0] in end.jobs &&
            cancelled.jobs[ids[0]].state == Cancelled && cancelled.jobs[ids[0]].fileHash == b.jobs[ids[0]].fileHash &&
            end.jobs[ids[0]].state == Cancelled && end.jobs[ids[0]].path == path &&
              end.jobs[ids[0]].fileHash == fileHash
  {
    var good, id := Good(path, fileHash), ids[0];
    var first := [good, good, good, CancelMove(id, "user", 0)];
    FourMoves(ids, b, good, good, good, CancelMove(id, "user", 0));
    CancelledWhileValidated(ids, b, good);
    var cancelled := Interleave(ids, b, first);
    InterleaveAppend(ids, b, first, [good]);
    FinishedJobEndsAs(ids, cancelled, [good], id);
  }

  lemma CancelledWhileValidated(ids: seq<string>, b: Batch, good: Move)
    requires Started(ids, b) && ids != [] && good.Worker? && good.ok
    ensures var b3 := Next(ids, Next(ids, Next(ids, b, good), good), good);
            var end := Next(ids, b3, CancelMove(ids[0], "user", 0));
            end.pc == Marking(0) && ids[0] in end.jobs &&
            end.jobs[ids[0]].state == Cancelled && end.jobs[ids[0]].fileHash == b.jobs[ids[0]].fileHash
  {
    assert b.jobs[ids[0]].state == Queued;
    assert PIPELINE[0] == ValidatingFile;
    var b2 := Next(ids, Next(ids, b, good), good);
    assert b2.pc == Entering(0, 0) && b2.jobs == b.jobs;
  }

  // ---- The batch status ----

  datatype BatchState = BatchQueued | BatchRunning | Completed | CompletedWithErrors | BatchCancelled

  function StatusOf(states: seq<JobState>): BatchState {
    if forall s :: s in states ==> s == Cancelled then BatchCancelled
    else if forall s :: s in states ==> Settled(s) then
      if exists s :: s in states && (s == Failed || s == Cancelled) then CompletedWithErrors else Completed
    else if forall s :: s in states ==> s == Queued then BatchQueued
    else BatchRunning
  }

  function StatusRank(s: BatchState): nat {
    match s
    case BatchQueued => 0
    case BatchRunning => 1
    case Completed => 2
    case CompletedWithErrors => 3
    case BatchCancelled => 4
  }

  // The status levels, by index.
  lemma StatusLevels(states: seq<JobState>)
    ensures var r := StatusRank(StatusOf(states));
            (r >= 4 <==> forall i :: 0 <= i < |states| ==> states[i] == Cancelled) &&
            (r >= 2 <==> forall i :: 0 <= i < |states| ==> Settled(states[i])) &&
            (r == 3 ==> exists i :: 0 <= i < |states| && (states[i] == Failed || states[i] == Cancelled)) &&
            (r == 2 ==> forall i :: 0 <= i < |states| ==> states[i] != Failed && states[i] != Cancelled) &&
            (r == 0 ==> states != [] && forall i :: 0 <= i < |states| ==> states[i] == Queued) &&
            (r == 1 ==> exists i :: 0 <= i < |states| && states[i] != Queued)
  {
    assert forall i :: 0 <= i < |states| ==> states[i] in states;
  }

  lemma StatusRises(before: seq<JobState>, after: seq<JobState>)
    requires |before| == |after| && forall i :: 0 <= i < |before| ==> Later(before[i], after[i])
    ensures StatusRank(StatusOf(before)) <= StatusRank(StatusOf(after))
  {
    StatusLevels(before);
    StatusLevels(after);
  }

  function StatesOf(ids: seq<string>, b: Batch): seq<JobState>
    requires forall i :: 0 <= i < |ids| ==> ids[i] in b.jobs
  {
    seq(|ids|, i requires 0 <= i < |ids| => b.jobs[ids[i]].state)
  }

  /**
    Along every interleaving the reported status only climbs
    queued, running, completed, completed with errors, cancelled.
  */
  lemma {:induction false} StatusNeverFallsBack(ids: seq<string>, b: Batch, moves: seq<Move>)
    requires forall i :: 0 <= i < |ids| ==> ids[i] in b.jobs
    ensures forall i :: 0 <= i < |ids| ==> ids[i] in Interleave(ids, b, moves).jobs
    ensures StatusRank(StatusOf(StatesOf(ids, b))) <= StatusRank(StatusOf(StatesOf(ids, Interleave(ids, b, moves))))
    decreases moves
  {
    if moves != [] {
      var b' := Next(ids, b, moves[0]);
      forall i | 0 <= i < |ids| ensures ids[i] in b'.jobs && Later(b.jobs[ids[i]].state, b'.jobs[ids[i]].state) {
        OneMoveIsLater(ids, b, moves[0], ids[i]);
      }
      StatusRises(StatesOf(ids, b), StatesOf(ids, b'));
      StatusNeverFallsBack(ids, b', moves[1..]);
    }
  }

  // ---- Jobs left queued, told from the moves ----

  // The configuration of job i does not resolve in this interleaving.
  ghost predicate ResolveFails(ids: seq<string>, b: Batch, moves: seq<Move>, i: nat)
    decreases moves
  {
    moves != [] &&
    ((b.pc == Resolving(i) && moves[0].Worker? && !moves[0].ok) ||
     ResolveFails(ids, Next(ids, b, moves[0]), moves[1..], i))
  }

  // The user cancels job id somewhere among the moves.
  predicate CancelledIn(moves: seq<Move>, id: string) {
    exists k :: 0 <= k < |moves| && moves[k].CancelMove? && moves[k].id == id
  }

  // Job i is queued as long as the worker has not entered it, and for good once it did not resolve.
  ghost predicate StillQueued(ids: seq<string>, b: Batch, i: nat)
    requires i < |ids| && forall k :: 0 <= k < |ids| ==> ids[k] in b.jobs
  {
    var n := Behind(ids, b.pc);
    (ids[i] in b.unresolved ==> i < n || b.pc == Failing(i)) &&
    (n < i || b.pc == Checking(i) || b.pc == Resolving(i) || b.pc == Entering(i, 0) || ids[i] in b.unresolved ==>
       b.jobs[ids[i]].state == Queued)
  }

  lemma StaysQueued(ids: seq<string>, b: Batch, m: Move, i: nat)
    requires Inv(ids, b) && i < |ids| && StillQueued(ids, b, i)
    requires !(m.CancelMove? && m.id == ids[i])
    ensures Inv(ids, Next(ids, b, m)) && StillQueued(ids, Next(ids, b, m), i)
  {
    NextKeepsInv(ids, b, m);
    if m.Worker? {
      WorkerKeepsQueued(ids, b, m, i);
    } else if m.RecordMove? && m.id in b.jobs {
      RecordingKeepsTheRest(b.jobs[m.id], m.what);
    }
  }

  lemma WorkerKeepsQueued(ids: seq<string>, b: Batch, m: Move, i: nat)
    requires Inv(ids, b) && i < |ids| && StillQueued(ids, b, i) && m.Worker?
    requires Inv(ids, Next(ids, b, m))
    ensures StillQueued(ids, Next(ids, b, m), i)
  {
    var n := Behind(ids, b.pc);
    if n < |ids| {
      CurrentJobMoves(ids, b, m);
      if n != i { assert ids[n] != ids[i]; }
    }
  }

  lemma {:induction false} UncancelledStaysQueued(ids: seq<string>, b: Batch, moves: seq<Move>, i: nat)
    requires Inv(ids, b) && i < |ids| && StillQueued(ids, b, i) && !CancelledIn(moves, ids[i])
    ensures var end := Interleave(ids, b, moves); Inv(ids, end) && StillQueued(ids, end, i)
    decreases moves
  {
    if moves != [] {
      StaysQueued(ids, b, moves[0], i);
      assert forall k :: 0 <= k < |moves| - 1 ==> moves[1..][k] == moves[k + 1];
      UncancelledStaysQueued(ids, Next(ids, b, moves[0]), moves[1..], i);
    }
  }

  lemma NextUnresolved(ids: seq<string>, b: Batch, m: Move, i: nat)
    requires i < |ids| && Inv(ids, b)
    ensures ids[i] in Next(ids, b, m).unresolved <==>
              ids[i] in b.unresolved || (b.pc == Resolving(i) && m.Worker? && !m.ok)
  {
  }

  lemma {:induction false} UnresolvedIff(ids: seq<string>, b: Batch, moves: seq<Move>, i: nat)
    requires i < |ids| && Inv(ids, b)
    ensures ids[i] in Interleave(ids, b, moves).unresolved <==> ids[i] in b.unresolved || ResolveFails(ids, b, moves, i)
    decreases moves
  {
    if moves != [] {
      NextKeepsInv(ids, b, moves[0]);
      NextUnresolved(ids, b, moves[0], i);
      UnresolvedIff(ids, Next(ids, b, moves[0]), moves[1..], i);
    }
  }

  lemma {:induction false} CancelledIsNotQueued(ids: seq<string>, b: Batch, moves: seq<Move>, id: string)
    requires id in b.jobs && (b.jobs[id].state != Queued || CancelledIn(moves, id))
    ensures id in Interleave(ids, b, moves).jobs && Interleave(ids, b, moves).jobs[id].state != Queued
    decreases moves
  {
    if moves != [] {
      var b' := Next(ids, b, moves[0]);
      OneMoveIsLater(ids, b, moves[0], id);
      if b'.jobs[id].state == Queued {
        var k :| 0 <= k < |moves| && moves[k].CancelMove? && moves[k].id == id;
        assert moves[1..][k - 1] == moves[k];
      }
      CancelledIsNotQueued(ids, b', moves[1..], id);
    }
  }

  lemma StartedInv(ids: seq<string>, b: Batch, i: nat)
    requires Started(ids, b) && i < |ids|
    ensures Inv(ids, b) && StillQueued(ids, b, i)
  {
  }

  /**
    In a finished batch a job is left queued exactly when its configuration did not resolve and the user did not
    cancel it.
  */
  lemma LeftQueuedIff(ids: seq<string>, b: Batch, moves: seq<Move>, i: nat)
    requires Started(ids, b) && i < |ids| && Interleave(ids, b, moves).pc == Finished
    ensures var end := Interleave(ids, b, moves);
            ids[i] in end.jobs &&
            (end.jobs[ids[i]].state == Queued <==> ResolveFails(ids, b, moves, i) && !CancelledIn(moves, ids[i]))
  {
    FinishedBatch(ids, b, moves, i);
    StartedInv(ids, b, i);
    UnresolvedIff(ids, b, moves, i);
    if CancelledIn(moves, ids[i]) {
      CancelledIsNotQueued(ids, b, moves, ids[i]);
    } else {
      UncancelledStaysQueued(ids, b, moves, i);
    }
  }

  lemma SettledUnlessQueued(states: seq<JobState>)
    requires forall i :: 0 <= i < |states| ==> Settled(states[i]) || states[i] == Queued
    ensures StatusRank(StatusOf(states)) >= 2 <==> forall i :: 0 <= i < |states| ==> states[i] != Queued
  {
    StatusLevels(states);
  }

  /** A finished batch reports a settled status exactly when every job that did not resolve has been cancelled. */
  lemma FinishedStatusSettledIff(ids: seq<string>, b: Batch, moves: seq<Move>)
    requires Started(ids, b) && Interleave(ids, b, moves).pc == Finished
    ensures var end := Interleave(ids, b, moves);
            (forall i :: 0 <= i < |ids| ==> ids[i] in end.jobs) &&
            (StatusRank(StatusOf(StatesOf(ids, end))) >= 2 <==>
             forall i :: 0 <= i < |ids| && ResolveFails(ids, b, moves, i) ==> CancelledIn(moves, ids[i]))
  {
    var end := Interleave(ids, b, moves);
    forall i | 0 <= i < |ids|
      ensures ids[i] in end.jobs && (Settled(end.jobs[ids[i]].state) || end.jobs[ids[i]].state == Queued)
      ensures end.jobs[ids[i]].state == Queued <==> ResolveFails(ids, b, moves, i) && !CancelledIn(moves, ids[i])
    {
      FinishedBatch(ids, b, moves, i);
      LeftQueuedIff(ids, b, moves, i);
    }
    var states := StatesOf(ids, end);
    assert forall i :: 0 <= i < |states| ==> states[i] == end.jobs[ids[i]].state;
    SettledUnlessQueued(states);
  }

  lemma FailsToResolve(ids: seq<string>, b: Batch, good: Move)
    requires Started(ids, b) && |ids| == 1 && good.Worker? && good.ok
    ensures var b2 := Next(ids, Next(ids, b, good), good.(ok := false));
            b2.pc == Failing(0) && b2.jobs == b.jobs
  {
    assert b.jobs[ids[0]].state == Queued;
  }

  lemma QueuedCannotFail(ids: seq<string>, b: Batch, good: Move)
    requires |ids| == 1 && good.Worker? && good.ok && b.pc == Failing(0)
    requires ids[0] in b.jobs && b.jobs[ids[0]].state == Queued
    ensures var end := Next(ids, Next(ids, b, good), good);
            end.pc == Finished && ids[0] in end.jobs && end.jobs[ids[0]].state == Queued
  {
    var b3 := Next(ids, b, good);
    assert b3.pc == Checking(1) && b3.jobs[ids[0]].state == Queued;
  }

  /** One job whose configuration does not resolve: the batch finishes and reports itself queued ever after. */
  lemma UnresolvedBatchStaysQueued(ids: seq<string>, b: Batch)
    requires Started(ids, b) && |ids| == 1
    ensures var good := Good("", "");
            var end := Interleave(ids, b, [good, good.(ok := false), good, good]);
            end.pc == Finished && ids[0] in end.jobs && StatusOf(StatesOf(ids, end)) == BatchQueued
  {
    var good := Good("", "");
    FourMoves(ids, b, good, good.(ok := false), good, good);
    FailsToResolve(ids, b, good);
    var b2 := Next(ids, Next(ids, b, good), good.(ok := false));
    assert b2.jobs[ids[0]].state == Queued;
    QueuedCannotFail(ids, b2, good);
    var end := Interleave(ids, b, [good, good.(ok := false), good, good]);
    assert StatesOf(ids, end) == [Queued] && Queued in [Queued];
  }
}
