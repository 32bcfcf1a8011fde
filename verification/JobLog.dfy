/** One document-agent job on values: its states, its checkpoint log, and the steps that move it. */
module JobLog {
  import opened Wrappers

  datatype JobState =
    | Queued | Created | ValidatingFile | ExtractingText | OcrOptional | BuildingDocumentMap
    | ExtractingSemantics | CompilingGraphIr | PersistingCanvas | GeneratingPatch
    | AwaitingReview | Accepted | Rejected | Cancelled | Failed

  predicate CanTransitionTo(s: JobState, next: JobState) {
    match s
    case Queued | Created => next == ValidatingFile
    case ValidatingFile => next == ExtractingText || next == Failed
    case ExtractingText => next == OcrOptional || next == Failed
    case OcrOptional => next == BuildingDocumentMap || next == ExtractingText || next == Failed
    case BuildingDocumentMap => next == ExtractingSemantics || next == Failed
    case ExtractingSemantics => next == CompilingGraphIr || next == Failed
    case CompilingGraphIr => next == PersistingCanvas || next == Failed
    case PersistingCanvas => next == GeneratingPatch || next == Failed
    case GeneratingPatch => next == AwaitingReview || next == Failed
    case AwaitingReview => next == Accepted || next == Rejected
    case Accepted | Rejected | Cancelled | Failed => false
  }

  predicate IsTerminal(s: JobState) {
    s.Accepted? || s.Rejected? || s.Cancelled? || s.Failed?
  }

  predicate Untouched(s: JobState) {
    s.Queued? || s.Created?
  }

  // The discriminant the source compares when it recovers a log.
  function Code(s: JobState): nat {
    match s
    case Queued => 0
    case Created => 1
    case ValidatingFile => 2
    case ExtractingText => 3
    case OcrOptional => 4
    case BuildingDocumentMap => 5
    case ExtractingSemantics => 6
    case CompilingGraphIr => 7
    case PersistingCanvas => 8
    case GeneratingPatch => 9
    case AwaitingReview => 10
    case Accepted => 11
    case Rejected => 12
    case Cancelled => 13
    case Failed => 14
  }

  // JSON payloads are carried as their text.
  type Payload = string

  datatype Checkpoint = Checkpoint(
    stage: JobState,
    inputHash: string,
    outputHash: Option<string>,
    startedAt: nat,
    completedAt: Option<nat>,
    error: Option<string>,
    data: Option<Payload>)

  datatype ProgressUpdate = ProgressUpdate(
    stage: string, summary: string, evidenceCount: Option<nat>, warningCount: Option<nat>, createdAt: nat)

  datatype Activity = Activity(
    chunkCount: nat, bytes: nat, elapsedMs: nat, startedAt: Option<nat>,
    currentPass: Option<string>, retryCount: nat, safeSummary: Option<string>,
    publicProgress: seq<ProgressUpdate>)

  datatype AuditRecord = AuditRecord(
    pass: string, attempt: nat, status: string, entries: seq<string>, error: Option<string>, createdAt: nat)

  datatype Job = Job(
    jobId: string,
    batchId: Option<string>,
    path: string,
    fileHash: string,
    state: JobState,
    checkpoints: seq<Checkpoint>,
    createdAt: nat,
    updatedAt: nat,
    result: Option<Payload>,
    error: Option<string>,
    activity: Activity,
    repairAudit: seq<AuditRecord>,
    uploadBytes: nat,
    uploadTotalBytes: Option<nat>)

  datatype JobError =
    | JobNotFound(id: string)
    | InvalidTransition(from: JobState, to: JobState)
    | AlreadyTerminal(state: JobState)
    | NotAwaitingReview(state: JobState)
    | CheckpointTooLarge
    | CheckpointCorrupt

  // ---- The steps; AgentHost.dfy performs the same in place, and the wall clock is an argument of each ----

  function CloseLast(log: seq<Checkpoint>, now: nat, outputHash: Option<string>,
                     error: Option<string>): seq<Checkpoint>
  {
    if log != [] && log[|log| - 1].completedAt.None? then
      log[|log| - 1 := log[|log| - 1].(completedAt := Some(now), outputHash := outputHash, error := error)]
    else log
  }

  function NextInput(log: seq<Checkpoint>, fileHash: string): string {
    if log == [] then fileHash else log[|log| - 1].outputHash.GetOr(fileHash)
  }

  function Advance(j: Job, next: JobState, outputHash: Option<string>, data: Option<Payload>,
                   error: Option<string>, now: nat): Result<Job, JobError>
  {
    if !CanTransitionTo(j.state, next) then Err(InvalidTransition(j.state, next))
    else
      var closed := CloseLast(j.checkpoints, now, outputHash, error);
      var cp := Checkpoint(next, NextInput(closed, j.fileHash), if IsTerminal(next) then outputHash else None,
                           now, if IsTerminal(next) then Some(now) else None, error, data);
      Ok(j.(checkpoints := closed + [cp], state := next, updatedAt := now,
            result := if next == AwaitingReview then data else j.result,
            error := if IsTerminal(next) then error else j.error))
  }

  // Cancelling keeps the output hash of the checkpoint it closes.
  function Cancel(j: Job, reason: string, now: nat): Result<Job, JobError> {
    if IsTerminal(j.state) then Err(AlreadyTerminal(j.state))
    else
      var closed := if j.checkpoints == [] then [] else
        CloseLast(j.checkpoints, now, j.checkpoints[|j.checkpoints| - 1].outputHash, Some(reason));
      var cp := Checkpoint(Cancelled, j.fileHash, None, now, Some(now), Some(reason), None);
      Ok(j.(checkpoints := closed + [cp], state := Cancelled, updatedAt := now, error := Some(reason)))
  }

  // A verdict keeps both the output hash and the error of the checkpoint it closes.
  function Review(j: Job, accept: bool, now: nat): Result<Job, JobError> {
    if j.state != AwaitingReview then Err(NotAwaitingReview(j.state))
    else
      var target := if accept then Accepted else Rejected;
      var closed := if j.checkpoints == [] then [] else
        var last := j.checkpoints[|j.checkpoints| - 1];
        CloseLast(j.checkpoints, now, last.outputHash, last.error);
      var cp := Checkpoint(target, j.fileHash, None, now, Some(now), None, None);
      Ok(j.(checkpoints := closed + [cp], state := target, updatedAt := now))
  }

  function MarkValidated(j: Job, path: string, fileHash: string, now: nat): Job {
    j.(path := path, fileHash := fileHash, updatedAt := now)
  }

  datatype JobOp =
    | AdvanceOp(next: JobState, outputHash: Option<string>, data: Option<Payload>, error: Option<string>, now: nat)
    | CancelOp(reason: string, now: nat)
    | ReviewOp(accept: bool, now: nat)
    | ValidatedOp(path: string, fileHash: string, now: nat)

  function Attempt(j: Job, op: JobOp): Result<Job, JobError> {
    match op
    case AdvanceOp(next, outputHash, data, error, now) => Advance(j, next, outputHash, data, error, now)
    case CancelOp(reason, now) => Cancel(j, reason, now)
    case ReviewOp(accept, now) => Review(j, accept, now)
    case ValidatedOp(path, fileHash, now) => Ok(MarkValidated(j, path, fileHash, now))
  }

  // A refused step leaves the job as it was.
  function Step(j: Job, op: JobOp): Job {
    match Attempt(j, op)
    case Ok(j') => j'
    case Err(_) => j
  }

  function Run(j: Job, ops: seq<JobOp>): Job
    decreases ops
  {
    if ops == [] then j else Run(Step(j, ops[0]), ops[1..])
  }

  predicate Fresh(j: Job) {
    Untouched(j.state) && j.checkpoints == [] && j.result.None?
  }

  // ---- The log law ----

  function Stages(log: seq<Checkpoint>): (r: seq<JobState>)
    ensures |r| == |log|
  {
    seq(|log|, i requires 0 <= i < |log| => log[i].stage)
  }

  // How many times the log goes back from OCR to text extraction.
  function Returns(stages: seq<JobState>): nat {
    if |stages| < 2 then 0
    else Returns(stages[..|stages| - 1]) +
         if stages[|stages| - 2] == OcrOptional && stages[|stages| - 1] == ExtractingText then 1 else 0
  }

  function Loops(r: nat): (s: seq<JobState>)
    ensures |s| == 2 * r
  {
    if r == 0 then [] else Loops(r - 1) + [ExtractingText, OcrOptional]
  }

  // The stages after validation, in the order a job without OCR repeats meets them.
  const MAINLINE: seq<JobState> := [
    ExtractingText, OcrOptional, BuildingDocumentMap, ExtractingSemantics,
    CompilingGraphIr, PersistingCanvas, GeneratingPatch, AwaitingReview]

  predicate Working(s: JobState) {
    !IsTerminal(s) && !Untouched(s)
  }

  function Rank(s: JobState): (r: nat)
    requires Working(s)
    ensures 1 <= r <= 9
  {
    Code(s) - 1
  }

  // The only stage word a working job with r OCR repeats can have.
  function Shape(s: JobState, r: nat): (w: seq<JobState>)
    requires Working(s)
    ensures |w| == Rank(s) + 2 * r
  {
    [ValidatingFile] + Loops(r) + MAINLINE[..Rank(s) - 1]
  }

  predicate WorkingShape(stages: seq<JobState>, s: JobState)
    requires Working(s)
  {
    stages == Shape(s, Returns(stages)) && (s == ValidatingFile ==> Returns(stages) == 0)
  }

  predicate EndedShape(stages: seq<JobState>, s: JobState) {
    stages != [] && stages[|stages| - 1] == s &&
    var before := stages[..|stages| - 1];
    if before == [] then s == Cancelled
    else
      var p := before[|before| - 1];
      Working(p) && WorkingShape(before, p) && (s == Cancelled || CanTransitionTo(p, s))
  }

  predicate WellShaped(stages: seq<JobState>, s: JobState) {
    if Untouched(s) then stages == []
    else if Working(s) then WorkingShape(stages, s)
    else EndedShape(stages, s)
  }

  ghost predicate ClosedInOrder(log: seq<Checkpoint>) {
    forall i :: 0 <= i < |log| - 1 ==> log[i].completedAt == Some(log[i + 1].startedAt)
  }

  // Every input hash is the output its predecessor recorded or, failing that,
  // a hash the job's file has had.
  ghost predicate Chained(log: seq<Checkpoint>, hashes: set<string>) {
    (log != [] ==> log[0].inputHash in hashes) &&
    forall i :: 0 <= i < |log| - 1 ==>
      match log[i].outputHash
      case Some(h) => log[i + 1].inputHash == h
      case None => log[i + 1].inputHash in hashes
  }

  ghost predicate ResultLaw(j: Job) {
    (forall i :: 0 <= i < |j.checkpoints| && j.checkpoints[i].stage == AwaitingReview ==>
      j.result == j.checkpoints[i].data) &&
    (AwaitingReview !in Stages(j.checkpoints) ==> j.result.None?)
  }

  // Only the last checkpoint of an unfinished job is open, and it has no output yet.
  ghost predicate OpenEnd(log: seq<Checkpoint>, s: JobState) {
    log != [] ==>
      var last := log[|log| - 1];
      last.completedAt.Some? == IsTerminal(s) && (last.completedAt.None? ==> last.outputHash.None?)
  }

  ghost predicate LogLaw(j: Job, hashes: set<string>) {
    WellShaped(Stages(j.checkpoints), j.state) &&
    ClosedInOrder(j.checkpoints) &&
    OpenEnd(j.checkpoints, j.state) &&
    j.fileHash in hashes && Chained(j.checkpoints, hashes) &&
    ResultLaw(j)
  }

  function HashesOf(ops: seq<JobOp>): set<string> {
    set op | op in ops && op.ValidatedOp? :: op.fileHash
  }

  // ---- Words ----

  lemma LastOfShape(s: JobState, r: nat)
    requires Working(s) && (s == ValidatingFile ==> r == 0)
    ensures Shape(s, r)[|Shape(s, r)| - 1] == s
  {
  }

  lemma ReturnsGrow(stages: seq<JobState>, next: JobState)
    requires stages != []
    ensures Returns(stages + [next]) ==
            Returns(stages) + if stages[|stages| - 1] == OcrOptional && next == ExtractingText then 1 else 0
  {
    assert (stages + [next])[..|stages|] == stages;
  }

  lemma EdgeMovesRank(s: JobState, next: JobState)
    requires Working(s) && Working(next) && CanTransitionTo(s, next)
    ensures (s == OcrOptional && next == ExtractingText) ||
            (Rank(next) == Rank(s) + 1 && next == MAINLINE[Rank(s) - 1] && next != ValidatingFile &&
             !(s == OcrOptional && next == ExtractingText))
  {
  }

  lemma BackEdgeGrows(stages: seq<JobState>)
    requires WorkingShape(stages, OcrOptional)
    ensures WorkingShape(stages + [ExtractingText], ExtractingText)
  {
    var r := Returns(stages);
    LastOfShape(OcrOptional, r);
    ReturnsGrow(stages, ExtractingText);
    assert MAINLINE[..2] == [ExtractingText, OcrOptional];
    assert stages + [ExtractingText] == [ValidatingFile] + Loops(r + 1) + MAINLINE[..1];
  }

  lemma ForwardEdgeGrows(stages: seq<JobState>, s: JobState, next: JobState)
    requires Working(s) && Working(next) && WorkingShape(stages, s) && next != ValidatingFile
    requires Rank(next) == Rank(s) + 1 && next == MAINLINE[Rank(s) - 1] && !(s == OcrOptional && next == ExtractingText)
    ensures WorkingShape(stages + [next], next)
  {
    LastOfShape(s, Returns(stages));
    ReturnsGrow(stages, next);
    ShapeForward(s, next, Returns(stages));
  }

  lemma ShapeForward(s: JobState, next: JobState, r: nat)
    requires Working(s) && Working(next) && Rank(next) == Rank(s) + 1 && next == MAINLINE[Rank(s) - 1]
    ensures Shape(next, r) == Shape(s, r) + [next]
  {
    assert MAINLINE[..Rank(next) - 1] == MAINLINE[..Rank(s) - 1] + [next];
  }

  // Every forward or back edge between working states extends the word as the transition table says.
  lemma ShapeGrows(stages: seq<JobState>, s: JobState, next: JobState)
    requires Working(s) && Working(next) && CanTransitionTo(s, next) && WorkingShape(stages, s)
    ensures WorkingShape(stages + [next], next)
  {
    EdgeMovesRank(s, next);
    if s == OcrOptional && next == ExtractingText {
      BackEdgeGrows(stages);
    } else {
      ForwardEdgeGrows(stages, s, next);
    }
  }

  lemma StagesAppend(log: seq<Checkpoint>, cp: Checkpoint, log': seq<Checkpoint>)
    requires |log'| == |log| && forall i :: 0 <= i < |log| ==> log'[i].stage == log[i].stage
    ensures Stages(log' + [cp]) == Stages(log) + [cp.stage]
  {
  }

  // ---- Every step keeps the law ----

  lemma EndGrows(stages: seq<JobState>, s: JobState, next: JobState)
    requires Working(s) && WorkingShape(stages, s) && IsTerminal(next)
    requires CanTransitionTo(s, next) || next == Cancelled
    ensures EndedShape(stages + [next], next)
  {
    LastOfShape(s, Returns(stages));
    assert (stages + [next])[..|stages|] == stages;
  }

  lemma UntouchedWordGrows(stages: seq<JobState>, s: JobState, next: JobState)
    requires Untouched(s) && WellShaped(stages, s) && (CanTransitionTo(s, next) || next == Cancelled)
    ensures WellShaped(stages + [next], next)
  {
    FirstStage(next);
    assert stages + [next] == [next];
  }

  lemma WorkingWordGrows(stages: seq<JobState>, s: JobState, next: JobState)
    requires Working(s) && WorkingShape(stages, s) && (CanTransitionTo(s, next) || next == Cancelled)
    ensures WellShaped(stages + [next], next)
  {
    if Working(next) {
      ShapeGrows(stages, s, next);
    } else {
      EndGrows(stages, s, next);
    }
  }

  lemma WordGrows(stages: seq<JobState>, s: JobState, next: JobState)
    requires WellShaped(stages, s)
    requires CanTransitionTo(s, next) || (next == Cancelled && !IsTerminal(s))
    ensures WellShaped(stages + [next], next)
  {
    TerminalIsFinal(s);
    if Untouched(s) {
      UntouchedWordGrows(stages, s, next);
    } else {
      WorkingWordGrows(stages, s, next);
    }
  }

  lemma FirstStage(next: JobState)
    requires next == ValidatingFile || next == Cancelled
    ensures WellShaped([next], next)
  {
    assert [next][..0] == [];
    assert Shape(ValidatingFile, 0) == [ValidatingFile];
  }

  // What all three log-writing steps do: close the open end, then append.
  ghost predicate Appends(j: Job, closed: seq<Checkpoint>, cp: Checkpoint, j': Job) {
    |closed| == |j.checkpoints| &&
    (forall i :: 0 <= i < |closed| - 1 ==> closed[i] == j.checkpoints[i]) &&
    (closed != [] ==>
      var was, is_ := j.checkpoints[|closed| - 1], closed[|closed| - 1];
      is_.stage == was.stage && is_.inputHash == was.inputHash && is_.data == was.data &&
      is_.startedAt == was.startedAt && is_.completedAt == Some(cp.startedAt)) &&
    !IsTerminal(j.state) && (CanTransitionTo(j.state, cp.stage) || cp.stage == Cancelled) &&
    cp.inputHash == NextInput(closed, j.fileHash) &&
    cp.completedAt.Some? == IsTerminal(cp.stage) &&
    (cp.completedAt.None? ==> cp.outputHash.None?) &&
    j'.checkpoints == closed + [cp] && j'.state == cp.stage && j'.fileHash == j.fileHash &&
    j'.result == if cp.stage == AwaitingReview then cp.data else j.result
  }

  lemma AppendKeepsChain(j: Job, hashes: set<string>, closed: seq<Checkpoint>, cp: Checkpoint, j': Job)
    requires Appends(j, closed, cp, j')
    requires ClosedInOrder(j.checkpoints) && Chained(j.checkpoints, hashes) && j.fileHash in hashes
    ensures ClosedInOrder(j'.checkpoints) && Chained(j'.checkpoints, hashes)
  {
    var log := j'.checkpoints;
    forall i | 0 <= i < |log| - 1
      ensures log[i].completedAt == Some(log[i + 1].startedAt)
      ensures match log[i].outputHash
              case Some(h) => log[i + 1].inputHash == h
              case None => log[i + 1].inputHash in hashes
    {
      if i < |closed| - 1 {
        assert log[i] == j.checkpoints[i];
        assert log[i + 1].startedAt == j.checkpoints[i + 1].startedAt;
        assert log[i + 1].inputHash == j.checkpoints[i + 1].inputHash;
      }
    }
    assert log != [] ==> log[0].inputHash in hashes by {
      if |closed| > 1 { assert log[0] == j.checkpoints[0]; }
    }
  }

  lemma AppendKeepsResult(j: Job, closed: seq<Checkpoint>, cp: Checkpoint, j': Job)
    requires Appends(j, closed, cp, j')
    requires ResultLaw(j) && WellShaped(Stages(j.checkpoints), j.state)
    ensures ResultLaw(j')
  {
    if cp.stage == AwaitingReview {
      assert j.state != AwaitingReview;
      NoEarlierReview(Stages(j.checkpoints), j.state);
    }
    ResultsAppend(j, closed, cp, j');
  }

  lemma ResultsAppend(j: Job, closed: seq<Checkpoint>, cp: Checkpoint, j': Job)
    requires |closed| == |j.checkpoints| && j'.checkpoints == closed + [cp]
    requires forall i :: 0 <= i < |closed| ==>
             closed[i].stage == j.checkpoints[i].stage && closed[i].data == j.checkpoints[i].data
    requires ResultLaw(j) && (cp.stage == AwaitingReview ==> AwaitingReview !in Stages(j.checkpoints))
    requires j'.result == if cp.stage == AwaitingReview then cp.data else j.result
    ensures ResultLaw(j')
  {
    var stages := Stages(j.checkpoints);
    StagesAppend(j.checkpoints, cp, closed);
    forall i | 0 <= i < |closed| && closed[i].stage == AwaitingReview ensures j'.result == closed[i].data {
      assert stages[i] == AwaitingReview;
    }
  }

  lemma AppendKeepsLaw(j: Job, hashes: set<string>, closed: seq<Checkpoint>, cp: Checkpoint, j': Job)
    requires LogLaw(j, hashes) && Appends(j, closed, cp, j')
    ensures LogLaw(j', hashes)
  {
    AppendKeepsShape(j, closed, cp, j');
    AppendKeepsChain(j, hashes, closed, cp, j');
    AppendKeepsResult(j, closed, cp, j');
  }

  lemma AppendKeepsShape(j: Job, closed: seq<Checkpoint>, cp: Checkpoint, j': Job)
    requires Appends(j, closed, cp, j') && WellShaped(Stages(j.checkpoints), j.state)
    ensures WellShaped(Stages(j'.checkpoints), j'.state)
  {
    WordGrows(Stages(j.checkpoints), j.state, cp.stage);
    StagesAppend(j.checkpoints, cp, closed);
  }

  // What any successful step but validation appends, and to which closed log.
  function Written(j: Job, op: JobOp): (seq<Checkpoint>, Checkpoint)
    requires Attempt(j, op).Ok? && !op.ValidatedOp?
    requires |Step(j, op).checkpoints| == |j.checkpoints| + 1
  {
    var log := Step(j, op).checkpoints;
    (log[..|log| - 1], log[|log| - 1])
  }

  lemma AttemptAppends(j: Job, op: JobOp)
    requires OpenEnd(j.checkpoints, j.state) && Attempt(j, op).Ok? && !op.ValidatedOp?
    ensures |Step(j, op).checkpoints| == |j.checkpoints| + 1
    ensures var (closed, cp) := Written(j, op); Appends(j, closed, cp, Step(j, op))
  {
    match op {
      case AdvanceOp(_, _, _, _, _) => AdvanceAppends(j, op);
      case CancelOp(_, _) => CancelAppends(j, op);
      case ReviewOp(_, _) => ReviewAppends(j, op);
    }
    assert Step(j, op).checkpoints[..|j.checkpoints|] + [Step(j, op).checkpoints[|j.checkpoints|]] ==
      Step(j, op).checkpoints;
  }

  lemma AdvanceAppends(j: Job, op: JobOp)
    requires OpenEnd(j.checkpoints, j.state) && op.AdvanceOp? && Attempt(j, op).Ok?
    ensures var log, n := Step(j, op).checkpoints, |j.checkpoints|;
            |log| == n + 1 && Appends(j, log[..n], log[n], Step(j, op))
  {
    TerminalIsFinal(j.state);
    var closed := CloseLast(j.checkpoints, op.now, op.outputHash, op.error);
    var log := Step(j, op).checkpoints;
    assert log[..|closed|] == closed && log == closed + [log[|closed|]];
  }

  lemma CancelAppends(j: Job, op: JobOp)
    requires OpenEnd(j.checkpoints, j.state) && op.CancelOp? && Attempt(j, op).Ok?
    ensures var log, n := Step(j, op).checkpoints, |j.checkpoints|;
            |log| == n + 1 && Appends(j, log[..n], log[n], Step(j, op))
  {
    var n := |j.checkpoints|;
    var log := Step(j, op).checkpoints;
    assert log == log[..n] + [log[n]];
  }

  lemma ReviewAppends(j: Job, op: JobOp)
    requires OpenEnd(j.checkpoints, j.state) && op.ReviewOp? && Attempt(j, op).Ok?
    ensures var log, n := Step(j, op).checkpoints, |j.checkpoints|;
            |log| == n + 1 && Appends(j, log[..n], log[n], Step(j, op))
  {
    var n := |j.checkpoints|;
    var log := Step(j, op).checkpoints;
    assert log == log[..n] + [log[n]];
  }

  lemma TerminalIsFinal(s: JobState)
    ensures IsTerminal(s) ==> forall next :: !CanTransitionTo(s, next)
  {
  }

  lemma {:induction false} LoopsHoldTwoStages(r: nat)
    ensures forall i :: 0 <= i < 2 * r ==> Loops(r)[i] == if i % 2 == 0 then ExtractingText else OcrOptional
  {
    if r > 0 { LoopsHoldTwoStages(r - 1); }
  }

  lemma NoEarlierReview(stages: seq<JobState>, s: JobState)
    requires WellShaped(stages, s) && !IsTerminal(s) && s != AwaitingReview
    ensures AwaitingReview !in stages
  {
    if Working(s) { LoopsHoldTwoStages(Returns(stages)); }
  }

  lemma StepKeepsLaw(j: Job, op: JobOp, hashes: set<string>)
    requires LogLaw(j, hashes)
    requires op.ValidatedOp? ==> op.fileHash in hashes
    ensures LogLaw(Step(j, op), hashes)
  {
    if Attempt(j, op).Ok? && !op.ValidatedOp? {
      AttemptAppends(j, op);
      var (closed, cp) := Written(j, op);
      AppendKeepsLaw(j, hashes, closed, cp, Step(j, op));
    }
  }

  lemma {:induction false} RunKeepsLaw(j: Job, ops: seq<JobOp>, hashes: set<string>)
    requires LogLaw(j, hashes) && HashesOf(ops) <= hashes
    ensures LogLaw(Run(j, ops), hashes)
    decreases ops
  {
    if ops != [] {
      assert ops[0].ValidatedOp? ==> ops[0].fileHash in HashesOf(ops);
      StepKeepsLaw(j, ops[0], hashes);
      assert HashesOf(ops[1..]) <= HashesOf(ops);
      RunKeepsLaw(Step(j, ops[0]), ops[1..], hashes);
    }
  }

  // ---- Main results ----

  /** Every run of a fresh job, whatever is attempted on it, obeys the log law. */
  lemma LogLawOverRuns(j: Job, ops: seq<JobOp>)
    requires Fresh(j)
    ensures LogLaw(Run(j, ops), {j.fileHash} + HashesOf(ops))
  {
    RunKeepsLaw(j, ops, {j.fileHash} + HashesOf(ops));
  }

  /** Read off a working log's length: the state's rank plus two for every OCR repeat. */
  lemma LengthIsRankPlusRepeats(j: Job, hashes: set<string>)
    requires LogLaw(j, hashes) && Working(j.state)
    ensures |j.checkpoints| == Rank(j.state) + 2 * Returns(Stages(j.checkpoints))
  {
  }

  lemma ShapeIsAPath(s: JobState, r: nat, i: nat)
    requires Working(s) && i + 1 < |Shape(s, r)| && (s == ValidatingFile ==> r == 0)
    ensures CanTransitionTo(Shape(s, r)[i], Shape(s, r)[i + 1])
  {
    LoopsHoldTwoStages(r);
  }

  lemma EndedWordIsAPath(stages: seq<JobState>, s: JobState, i: nat)
    requires EndedShape(stages, s) && i + 1 < |stages|
    ensures CanTransitionTo(stages[i], stages[i + 1]) || (i + 2 == |stages| && stages[i + 1] == Cancelled)
  {
    var before := stages[..|stages| - 1];
    assert before != [] && before[i] == stages[i];
    if i + 1 < |before| {
      ShapeIsAPath(before[|before| - 1], Returns(before), i);
      assert before[i + 1] == stages[i + 1];
    }
  }

  /** The stages of every law-abiding log are a path of the transition table, up to a final cancellation. */
  lemma StagesArePath(j: Job, hashes: set<string>, i: nat)
    requires LogLaw(j, hashes) && i + 1 < |j.checkpoints|
    ensures CanTransitionTo(j.checkpoints[i].stage, j.checkpoints[i + 1].stage) ||
            (i + 2 == |j.checkpoints| && j.checkpoints[i + 1].stage == Cancelled)
  {
    WordIsAPath(Stages(j.checkpoints), j.state, i);
  }

  lemma WordIsAPath(stages: seq<JobState>, s: JobState, i: nat)
    requires WellShaped(stages, s) && i + 1 < |stages|
    ensures CanTransitionTo(stages[i], stages[i + 1]) || (i + 2 == |stages| && stages[i + 1] == Cancelled)
  {
    if Working(s) {
      ShapeIsAPath(s, Returns(stages), i);
    } else {
      EndedWordIsAPath(stages, s, i);
    }
  }

  lemma ReviewEndsItsShape(r: nat)
    ensures var w := Shape(AwaitingReview, r);
            w == [ValidatingFile] + Loops(r) + MAINLINE &&
            forall i :: 0 <= i < |w| ==> (w[i] == AwaitingReview <==> i == |w| - 1)
  {
    assert MAINLINE[..8] == MAINLINE;
    LoopsHoldTwoStages(r);
  }

  lemma DecidedBefore(stages: seq<JobState>, s: JobState) returns (before: seq<JobState>)
    requires EndedShape(stages, s) && (s == Accepted || s == Rejected)
    ensures stages == before + [s] && Returns(stages) == Returns(before)
    ensures before == Shape(AwaitingReview, Returns(before))
  {
    before := stages[..|stages| - 1];
    assert stages == before + [s];
    OnlyReviewDecides(before[|before| - 1], s);
    ReturnsGrow(before, s);
  }

  lemma DecidedWord(stages: seq<JobState>, s: JobState)
    requires EndedShape(stages, s) && (s == Accepted || s == Rejected)
    ensures |stages| >= 10 && stages == [ValidatingFile] + Loops(Returns(stages)) + MAINLINE + [s]
    ensures forall i :: 0 <= i < |stages| ==> (stages[i] == AwaitingReview <==> i == |stages| - 2)
  {
    var before := DecidedBefore(stages, s);
    DecidedAfter(before, s, Returns(before));
  }

  lemma DecidedAfter(before: seq<JobState>, s: JobState, r: nat)
    requires before == Shape(AwaitingReview, r) && s != AwaitingReview
    ensures var w := before + [s];
            |w| >= 10 && w == [ValidatingFile] + Loops(r) + MAINLINE + [s] &&
            forall i :: 0 <= i < |w| ==> (w[i] == AwaitingReview <==> i == |w| - 2)
  {
    ReviewEndsItsShape(r);
    LastButOne(before, s);
  }

  lemma LastButOne(before: seq<JobState>, s: JobState)
    requires s != AwaitingReview && forall i :: 0 <= i < |before| ==>
             (before[i] == AwaitingReview <==> i == |before| - 1)
    ensures var w := before + [s]; forall i :: 0 <= i < |w| ==> (w[i] == AwaitingReview <==> i == |w| - 2)
  {
  }

  lemma OnlyReviewDecides(p: JobState, s: JobState)
    requires CanTransitionTo(p, s) && (s == Accepted || s == Rejected)
    ensures p == AwaitingReview
  {
  }

  /**
    Review provenance.  A decided job went through every stage, its review
    checkpoint is the last but one and the only one, and its result is the
    payload that was put up for review.
  */
  lemma DecidedJobWasReviewed(j: Job, hashes: set<string>)
    requires LogLaw(j, hashes) && (j.state == Accepted || j.state == Rejected)
    ensures var stages := Stages(j.checkpoints);
            var n := |stages|;
            n >= 10 &&
            stages == [ValidatingFile] + Loops(Returns(stages)) + MAINLINE + [j.state] &&
            j.result == j.checkpoints[n - 2].data &&
            forall i :: 0 <= i < n ==> (stages[i] == AwaitingReview <==> i == n - 2)
  {
    DecidedWord(Stages(j.checkpoints), j.state);
    ReviewedResult(j, |j.checkpoints| - 2);
  }

  lemma ReviewedResult(j: Job, k: nat)
    requires ResultLaw(j) && k < |j.checkpoints| && Stages(j.checkpoints)[k] == AwaitingReview
    ensures j.result == j.checkpoints[k].data
  {
  }

  lemma StagesPersist(j: Job, op: JobOp, k: nat)
    requires OpenEnd(j.checkpoints, j.state) && k < |j.checkpoints|
    ensures k < |Step(j, op).checkpoints| && Step(j, op).checkpoints[k].stage == j.checkpoints[k].stage
  {
    if Attempt(j, op).Ok? && !op.ValidatedOp? { AttemptAppends(j, op); }
  }

  /** Once a review checkpoint exists the result is frozen, whatever is attempted next. */
  lemma {:induction false} ResultFrozenAfterReview(j: Job, ops: seq<JobOp>, hashes: set<string>, k: nat)
    requires LogLaw(j, hashes) && HashesOf(ops) <= hashes
    requires k < |j.checkpoints| && j.checkpoints[k].stage == AwaitingReview
    ensures Run(j, ops).result == j.result
    decreases ops
  {
    if ops != [] {
      var j' := Step(j, ops[0]);
      assert ops[0].ValidatedOp? ==> ops[0].fileHash in HashesOf(ops);
      assert HashesOf(ops[1..]) <= HashesOf(ops);
      StepKeepsLaw(j, ops[0], hashes);
      StagesPersist(j, ops[0], k);
      assert j'.result == j.result by { ReviewNotRepeated(j, ops[0], hashes, k); }
      ResultFrozenAfterReview(j', ops[1..], hashes, k);
    }
  }

  lemma ReviewNotRepeated(j: Job, op: JobOp, hashes: set<string>, k: nat)
    requires LogLaw(j, hashes) && k < |j.checkpoints| && j.checkpoints[k].stage == AwaitingReview
    ensures Step(j, op).result == j.result
  {
    ReviewedIsOverOrWaiting(Stages(j.checkpoints), j.state, k);
    ResultOnlyBeforeReview(j, op);
  }

  lemma ReviewedIsOverOrWaiting(stages: seq<JobState>, s: JobState, k: nat)
    requires WellShaped(stages, s) && k < |stages| && stages[k] == AwaitingReview
    ensures IsTerminal(s) || s == AwaitingReview
  {
    if !IsTerminal(s) && s != AwaitingReview {
      NoEarlierReview(stages, s);
      assert false;
    }
  }

  lemma ResultOnlyBeforeReview(j: Job, op: JobOp)
    requires IsTerminal(j.state) || j.state == AwaitingReview
    ensures Step(j, op).result == j.result
  {
  }

  /** A terminal job keeps its state, log, result and error through every run. */
  lemma {:induction false} TerminalJobsAreFrozen(j: Job, ops: seq<JobOp>)
    requires IsTerminal(j.state)
    ensures var j' := Run(j, ops);
            j'.state == j.state && j'.checkpoints == j.checkpoints && j'.result == j.result && j'.error == j.error
    decreases ops
  {
    if ops != [] { TerminalJobsAreFrozen(Step(j, ops[0]), ops[1..]); }
  }

  /** The header comment says any stage can fail; exactly the stages from validation to patch generation can. */
  lemma FailureReachableFrom(s: JobState)
    ensures CanTransitionTo(s, Failed) <==> Working(s) && s != AwaitingReview
  {
  }

  // ---- And every path of the table is a run ----

  ghost predicate IsPath(stages: seq<JobState>) {
    (stages != [] ==> stages[0] == ValidatingFile) &&
    forall i, k :: 0 <= i && k == i + 1 && k < |stages| ==> CanTransitionTo(stages[i], stages[k])
  }

  function Advances(stages: seq<JobState>): seq<JobOp> {
    if stages == [] then []
    else Advances(stages[..|stages| - 1]) + [AdvanceOp(stages[|stages| - 1], None, None, None, 0)]
  }

  lemma {:induction false} RunOneMore(j: Job, ops: seq<JobOp>, op: JobOp)
    ensures Run(j, ops + [op]) == Step(Run(j, ops), op)
    decreases ops
  {
    if ops == [] {
      assert [op][1..] == [] && [] + [op] == [op];
    } else {
      assert (ops + [op])[1..] == ops[1..] + [op];
      RunOneMore(Step(j, ops[0]), ops[1..], op);
    }
  }

  lemma {:induction false} PathIsRun(j: Job, stages: seq<JobState>)
    requires Fresh(j) && IsPath(stages)
    ensures LogsExactly(j, stages)
  {
    if stages != [] {
      var n := |stages| - 1;
      PathIsRun(j, stages[..n]);
      assert n > 0 ==> CanTransitionTo(stages[n - 1], stages[n]);
      OneMoreLogged(j, stages[..n], stages[n]);
      assert stages == stages[..n] + [stages[n]];
    }
  }

  ghost predicate LogsExactly(j: Job, stages: seq<JobState>) {
    var end := Run(j, Advances(stages));
    Stages(end.checkpoints) == stages && end.state == if stages == [] then j.state else stages[|stages| - 1]
  }

  lemma OneMoreLogged(j: Job, stages: seq<JobState>, next: JobState)
    requires Fresh(j) && LogsExactly(j, stages)
    requires if stages == [] then next == ValidatingFile else CanTransitionTo(stages[|stages| - 1], next)
    ensures LogsExactly(j, stages + [next])
  {
    assert (stages + [next])[..|stages|] == stages;
    RunStaysOpen(j, Advances(stages));
    RunOneMore(j, Advances(stages), AdvanceOp(next, None, None, None, 0));
    OneMoreStage(Run(j, Advances(stages)), next);
  }

  lemma RunStaysOpen(j: Job, ops: seq<JobOp>)
    requires Fresh(j)
    ensures OpenEnd(Run(j, ops).checkpoints, Run(j, ops).state)
  {
    LogLawOverRuns(j, ops);
  }

  lemma OneMoreStage(j: Job, next: JobState)
    requires OpenEnd(j.checkpoints, j.state) && CanTransitionTo(j.state, next)
    ensures var after := Step(j, AdvanceOp(next, None, None, None, 0));
            Stages(after.checkpoints) == Stages(j.checkpoints) + [next] && after.state == next
  {
    AttemptAppends(j, AdvanceOp(next, None, None, None, 0));
  }

  /**
    The log law is tight: advancing along any path of the transition table is possible
    and logs exactly that path, so every path has the one shape the law describes.
  */
  lemma EveryPathIsLogged(j: Job, stages: seq<JobState>)
    requires Fresh(j) && IsPath(stages) && stages != []
    ensures var end := Run(j, Advances(stages));
            Stages(end.checkpoints) == stages && end.state == stages[|stages| - 1]
    ensures WellShaped(stages, stages[|stages| - 1])
  {
    PathIsRun(j, stages);
    LogLawOverRuns(j, Advances(stages));
  }

  // ---- Who decides ----

  // What can end a wait for review: a verdict, a cancellation, or an advance to a verdict's state.
  predicate EndsReview(op: JobOp) {
    op.ReviewOp? || op.CancelOp? || (op.AdvanceOp? && (op.next == Accepted || op.next == Rejected))
  }

  predicate Accepts(op: JobOp) {
    op == ReviewOp(true, op.now) || (op.AdvanceOp? && op.next == Accepted)
  }

  predicate Rejects(op: JobOp) {
    op == ReviewOp(false, op.now) || (op.AdvanceOp? && op.next == Rejected)
  }

  // The first of them attempted while the job awaits review.
  function Decision(j: Job, ops: seq<JobOp>): Option<JobOp>
    decreases ops
  {
    if ops == [] then None
    else if j.state == AwaitingReview && EndsReview(ops[0]) then Some(ops[0])
    else Decision(Step(j, ops[0]), ops[1..])
  }

  lemma OneStepDecides(j: Job, op: JobOp)
    requires j.state != Accepted && j.state != Rejected
    ensures var s := Step(j, op).state;
            if j.state == AwaitingReview && EndsReview(op) then
              IsTerminal(s) && (s == Accepted <==> Accepts(op)) && (s == Rejected <==> Rejects(op))
            else s != Accepted && s != Rejected
  {
  }

  /**
    A job ends up accepted exactly when the first verdict, cancellation or advance to a verdict attempted while it
    awaits review accepts it, and rejected exactly when that one rejects it, whatever else is attempted when.
  */
  lemma {:induction false} VerdictDecides(j: Job, ops: seq<JobOp>)
    requires j.state != Accepted && j.state != Rejected
    ensures var d := Decision(j, ops);
            (Run(j, ops).state == Accepted <==> d.Some? && Accepts(d.value)) &&
            (Run(j, ops).state == Rejected <==> d.Some? && Rejects(d.value))
    decreases ops
  {
    if ops != [] {
      OneStepDecides(j, ops[0]);
      if j.state == AwaitingReview && EndsReview(ops[0]) {
        TerminalJobsAreFrozen(Step(j, ops[0]), ops[1..]);
      } else {
        VerdictDecides(Step(j, ops[0]), ops[1..]);
      }
    }
  }

  // ---- What an advance writes ----

  // Everything before the last checkpoint of the old log stays, and one checkpoint comes behind it.
  ghost predicate LogGrows(before: seq<Checkpoint>, after: seq<Checkpoint>) {
    |after| == |before| + 1 && (forall i :: 0 <= i < |before| - 1 ==> after[i] == before[i]) &&
    (before != [] ==>
      var was, is_ := before[|before| - 1], after[|before| - 1];
      is_.stage == was.stage && is_.data == was.data && is_.inputHash == was.inputHash &&
      is_.startedAt == was.startedAt)
  }

  /**
    Advancing a job closes its open checkpoint with the output hash and error given, hands the hash on as the
    input of the next stage, and files the data under that stage.
  */
  lemma AdvanceHandsOn(j: Job, op: JobOp)
    requires op.AdvanceOp? && CanTransitionTo(j.state, op.next)
    ensures var n, log := |j.checkpoints|, Step(j, op).checkpoints;
            LogGrows(j.checkpoints, log) && log[n].stage == op.next == Step(j, op).state &&
            log[n].data == op.data && log[n].error == op.error && log[n].startedAt == op.now &&
            Step(j, op).updatedAt == op.now &&
            (if IsTerminal(op.next) then log[n].completedAt == Some(op.now) && log[n].outputHash == op.outputHash
             else log[n].completedAt.None? && log[n].outputHash.None?) &&
            (n == 0 ==> log[n].inputHash == j.fileHash) &&
            (n > 0 && j.checkpoints[n - 1].completedAt.None? ==>
              log[n - 1].outputHash == op.outputHash && log[n - 1].error == op.error &&
              log[n - 1].completedAt == Some(op.now) &&
              log[n].inputHash == if op.outputHash.Some? then op.outputHash.value else j.fileHash)
  {
  }

  /**
    Cancelling closes the open checkpoint with the reason and keeps what it had put out; the last entry has the reason
    too.
  */
  lemma CancelWrites(j: Job, reason: string, now: nat)
    requires !IsTerminal(j.state)
    ensures var n, log := |j.checkpoints|, Step(j, CancelOp(reason, now)).checkpoints;
            LogGrows(j.checkpoints, log) && log[n].stage == Cancelled && log[n].error == Some(reason) &&
            log[n].inputHash == j.fileHash && log[n].outputHash.None? && log[n].data.None? &&
            log[n].startedAt == now && log[n].completedAt == Some(now) &&
            (n > 0 && j.checkpoints[n - 1].completedAt.None? ==>
              log[n - 1].completedAt == Some(now) && log[n - 1].error == Some(reason) &&
              log[n - 1].outputHash == j.checkpoints[n - 1].outputHash)
    ensures Step(j, CancelOp(reason, now)).error == Some(reason) && Step(j, CancelOp(reason, now)).updatedAt == now
  {
  }

  /** A verdict closes the review checkpoint as it is, and leaves result and error of the job alone. */
  lemma VerdictWrites(j: Job, accept: bool, now: nat)
    requires j.state == AwaitingReview
    ensures var j', n := Step(j, ReviewOp(accept, now)), |j.checkpoints|;
            LogGrows(j.checkpoints, j'.checkpoints) && j'.checkpoints[n].stage == j'.state &&
            j'.checkpoints[n].inputHash == j.fileHash && j'.checkpoints[n].outputHash.None? &&
            j'.checkpoints[n].error.None? && j'.checkpoints[n].data.None? &&
            j'.checkpoints[n].startedAt == now && j'.checkpoints[n].completedAt == Some(now) &&
            (n > 0 && j.checkpoints[n - 1].completedAt.None? ==>
              j'.checkpoints[n - 1] == j.checkpoints[n - 1].(completedAt := Some(now))) &&
            j'.result == j.result && j'.error == j.error && j'.updatedAt == now
  {
  }
}
