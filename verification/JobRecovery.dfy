/** Recovering a job from a checkpoint file: what is restored, what is lost, and when it may be repeated. */
module JobRecovery {
  import opened Wrappers
  import opened JobLog

  function LastCompletedStage(log: seq<Checkpoint>): Option<JobState> {
    if log == [] then None
    else if log[|log| - 1].completedAt.Some? then Some(log[|log| - 1].stage)
    else LastCompletedStage(log[..|log| - 1])
  }

  predicate IsNewer(cp: Checkpoint, last: Option<JobState>) {
    last.None? || Code(cp.stage) > Code(last.value)
  }

  function Newer(file: seq<Checkpoint>, last: Option<JobState>): seq<Checkpoint> {
    if file == [] then []
    else (if IsNewer(file[0], last) then [file[0]] else []) + Newer(file[1..], last)
  }

  // Appends what the file has beyond the last completed stage, and takes over its last stage.
  function Recover(j: Job, file: seq<Checkpoint>, now: nat): Job {
    var added := Newer(file, LastCompletedStage(j.checkpoints));
    if added == [] then j
    else j.(checkpoints := j.checkpoints + added, state := added[|added| - 1].stage, updatedAt := now)
  }

  // ---- Restoring a lost job ----

  // Everything later steps depend on.
  predicate Alike(a: Job, b: Job) {
    a.fileHash == b.fileHash && a.state == b.state && a.checkpoints == b.checkpoints
  }

  function Outcome(j: Job, op: JobOp): Option<JobError> {
    match Attempt(j, op)
    case Ok(_) => None
    case Err(e) => Some(e)
  }

  function Outcomes(j: Job, ops: seq<JobOp>): seq<Option<JobError>>
    decreases ops
  {
    if ops == [] then [] else [Outcome(j, ops[0])] + Outcomes(Step(j, ops[0]), ops[1..])
  }

  lemma AlikeStep(a: Job, b: Job, op: JobOp)
    requires Alike(a, b)
    ensures Outcome(a, op) == Outcome(b, op) && Alike(Step(a, op), Step(b, op))
  {
  }

  lemma {:induction false} AlikeRun(a: Job, b: Job, ops: seq<JobOp>)
    requires Alike(a, b)
    ensures Outcomes(a, ops) == Outcomes(b, ops) && Alike(Run(a, ops), Run(b, ops))
    decreases ops
  {
    if ops != [] {
      AlikeStep(a, b, ops[0]);
      AlikeRun(Step(a, ops[0]), Step(b, ops[0]), ops[1..]);
    }
  }

  lemma {:induction false} NothingToSkip(file: seq<Checkpoint>)
    ensures Newer(file, None) == file
  {
    if file != [] { NothingToSkip(file[1..]); }
  }

  lemma LastStageIsState(j: Job, hashes: set<string>)
    requires LogLaw(j, hashes) && j.checkpoints != []
    ensures !Untouched(j.state) && j.checkpoints[|j.checkpoints| - 1].stage == j.state
  {
    var stages := Stages(j.checkpoints);
    if Working(j.state) { LastOfShape(j.state, Returns(stages)); }
    assert stages[|stages| - 1] == j.state;
  }

  /**
    Crash recovery is a bisimulation.  A job with checkpoints, lost and created
    again with an empty log and the same file hash, is restored by its own file
    so that every later sequence of steps succeeds, fails and logs as it would have.
  */
  lemma RecoveryIsABisimulation(j: Job, hashes: set<string>, again: Job, now: nat, later: seq<JobOp>)
    requires LogLaw(j, hashes) && j.checkpoints != []
    requires again.checkpoints == [] && again.fileHash == j.fileHash
    ensures var back := Recover(again, j.checkpoints, now);
            Alike(back, j) && Outcomes(back, later) == Outcomes(j, later) &&
            Alike(Run(back, later), Run(j, later))
  {
    RecoveredIsAlike(j, hashes, again, now);
    AlikeRun(Recover(again, j.checkpoints, now), j, later);
  }

  lemma RecoveredIsAlike(j: Job, hashes: set<string>, again: Job, now: nat)
    requires LogLaw(j, hashes) && j.checkpoints != []
    requires again.checkpoints == [] && again.fileHash == j.fileHash
    ensures Alike(Recover(again, j.checkpoints, now), j)
  {
    LastStageIsState(j, hashes);
    RecoverIntoEmpty(again, j.checkpoints, now);
  }

  lemma RecoverIntoEmpty(again: Job, file: seq<Checkpoint>, now: nat)
    requires again.checkpoints == [] && file != []
    ensures Recover(again, file, now) == again.(checkpoints := file, state := file[|file| - 1].stage, updatedAt := now)
  {
    NothingToSkip(file);
    assert [] + file == file;
  }

  /** The result is not in the file: it survives exactly when no payload had been put up for review. */
  lemma RecoveryForgetsTheResult(j: Job, hashes: set<string>, again: Job, now: nat)
    requires LogLaw(j, hashes) && again.checkpoints == [] && again.result.None?
    ensures Recover(again, j.checkpoints, now).result == j.result <==>
            forall i :: 0 <= i < |j.checkpoints| && j.checkpoints[i].stage == AwaitingReview ==>
              j.checkpoints[i].data.None?
  {
    var stages := Stages(j.checkpoints);
    if AwaitingReview in stages {
      var k :| 0 <= k < |stages| && stages[k] == AwaitingReview;
      assert j.checkpoints[k].stage == AwaitingReview;
    } else {
      forall i | 0 <= i < |j.checkpoints| ensures j.checkpoints[i].stage != AwaitingReview {
        assert stages[i] != AwaitingReview;
      }
    }
  }

  // ---- Recovering a job that is still there ----

  lemma {:induction false} NewerEmpty(file: seq<Checkpoint>, last: Option<JobState>)
    ensures Newer(file, last) == [] <==> forall i :: 0 <= i < |file| ==> !IsNewer(file[i], last)
  {
    if file != [] {
      NewerEmpty(file[1..], last);
      assert forall i :: 0 <= i < |file| - 1 ==> file[1..][i] == file[i + 1];
      assert file[0] == file[..][0];
      if Newer(file[1..], last) == [] && !IsNewer(file[0], last) {
        forall i | 0 <= i < |file| ensures !IsNewer(file[i], last) {
          if i > 0 { assert file[i] == file[1..][i - 1]; }
        }
      }
    }
  }

  lemma LastCompletedOf(j: Job, hashes: set<string>)
    requires LogLaw(j, hashes) && j.checkpoints != []
    ensures var log, n := j.checkpoints, |j.checkpoints|;
            LastCompletedStage(log) ==
              if IsTerminal(j.state) then Some(j.state) else if n == 1 then None else Some(log[n - 2].stage)
  {
    LastStageIsState(j, hashes);
    LastCompletedOfClosed(j.checkpoints);
  }

  lemma LastCompletedOfClosed(log: seq<Checkpoint>)
    requires log != [] && ClosedInOrder(log)
    ensures log[|log| - 1].completedAt.Some? ==> LastCompletedStage(log) == Some(log[|log| - 1].stage)
    ensures log[|log| - 1].completedAt.None? ==>
            LastCompletedStage(log) == if |log| == 1 then None else Some(log[|log| - 2].stage)
  {
    var before := log[..|log| - 1];
    if |log| > 1 {
      var k := |log| - 2;
      assert log[k].completedAt == Some(log[k + 1].startedAt);
      assert before[k] == log[k];
    }
  }

  // The stages of a working log before its open end never pass the state.
  lemma CodesOfShape(s: JobState, r: nat, i: nat)
    requires Working(s) && (s == ValidatingFile ==> r == 0) && i < |Shape(s, r)|
    ensures var w := Shape(s, r);
            Code(w[i]) <= (if s == ExtractingText && r > 0 then Code(OcrOptional) else Code(s)) &&
            (i < |w| - 1 && Code(s) > Code(OcrOptional) ==> Code(w[i]) < Code(s))
  {
    LoopsHoldTwoStages(r);
  }

  lemma BeforeTheEnd(s: JobState, r: nat)
    requires Working(s) && s != ValidatingFile
    ensures var w := Shape(s, r);
            var p := w[|w| - 2];
            if s == ExtractingText then p == (if r == 0 then ValidatingFile else OcrOptional)
            else Code(p) == Code(s) - 1
  {
    LoopsHoldTwoStages(r);
  }

  lemma {:induction false} ShapeStartsWithValidation(s: JobState, r: nat)
    requires Working(s)
    ensures Shape(s, r)[0] == ValidatingFile
  {
  }

  predicate IsSnapshot(file: seq<Checkpoint>, j: Job) {
    |file| < |j.checkpoints| && forall i :: 0 <= i < |file| ==> file[i].stage == j.checkpoints[i].stage
  }

  /**
    A file the job has advanced past is ignored, with one exception, and the
    exception is exact: a job that is in OCR again re-appends an OCR checkpoint
    of its first round.
  */
  lemma StaleFileIsIgnoredIff(j: Job, hashes: set<string>, file: seq<Checkpoint>, now: nat)
    requires LogLaw(j, hashes) && IsSnapshot(file, j)
    ensures Recover(j, file, now) == j <==> !(j.state == OcrOptional && OcrOptional in Stages(file))
  {
    var last := LastCompletedStage(j.checkpoints);
    LastCompletedOf(j, hashes);
    LastStageIsState(j, hashes);
    NewerEmpty(file, last);
    forall i | 0 <= i < |file|
      ensures IsNewer(file[i], last) <==> (j.state == OcrOptional && file[i].stage == OcrOptional)
    {
      StaleEntry(j, hashes, file, i);
    }
    if j.state == OcrOptional && OcrOptional in Stages(file) {
      var k :| 0 <= k < |file| && Stages(file)[k] == OcrOptional;
      assert IsNewer(file[k], last);
      assert |Recover(j, file, now).checkpoints| > |j.checkpoints|;
    } else {
      forall i | 0 <= i < |file| ensures !IsNewer(file[i], last) {
        assert Stages(file)[i] == file[i].stage;
      }
    }
  }

  lemma WorkingStale(stages: seq<JobState>, s: JobState, i: nat)
    requires Working(s) && WorkingShape(stages, s) && i + 1 < |stages|
    ensures Code(stages[i]) > Code(stages[|stages| - 2]) <==> s == OcrOptional && stages[i] == OcrOptional
  {
    var r := Returns(stages);
    CodesOfShape(s, r, i);
    BeforeTheEnd(s, r);
    if s == ExtractingText && r == 0 { ShapeStartsWithValidation(s, 0); }
    if s == OcrOptional { LoopsHoldTwoStages(r); }
  }

  lemma StaleEntry(j: Job, hashes: set<string>, file: seq<Checkpoint>, i: nat)
    requires LogLaw(j, hashes) && IsSnapshot(file, j) && i < |file|
    ensures IsNewer(file[i], LastCompletedStage(j.checkpoints)) <==>
            (j.state == OcrOptional && file[i].stage == OcrOptional)
  {
    LastCompletedOf(j, hashes);
    LongLogIsStarted(j, hashes);
    StaleWord(Stages(j.checkpoints), j.state, i, LastCompletedStage(j.checkpoints), file[i]);
  }

  lemma LongLogIsStarted(j: Job, hashes: set<string>)
    requires LogLaw(j, hashes) && j.checkpoints != []
    ensures WellShaped(Stages(j.checkpoints), j.state) && !Untouched(j.state)
  {
    LastStageIsState(j, hashes);
  }

  // The same on words: the entry's stage against the last completed one.
  lemma StaleWord(stages: seq<JobState>, s: JobState, i: nat, last: Option<JobState>, cp: Checkpoint)
    requires WellShaped(stages, s) && !Untouched(s) && i + 1 < |stages| && cp.stage == stages[i]
    requires last == if IsTerminal(s) then Some(s) else Some(stages[|stages| - 2])
    ensures IsNewer(cp, last) <==> s == OcrOptional && cp.stage == OcrOptional
  {
    if IsTerminal(s) {
      EndedCodes(stages, s, i);
    } else {
      WorkingStale(stages, s, i);
    }
  }

  lemma WorkingCodes(stages: seq<JobState>, s: JobState, i: nat)
    requires Working(s) && WorkingShape(stages, s) && i < |stages|
    ensures Code(stages[i]) <= Code(AwaitingReview)
  {
    CodesOfShape(s, Returns(stages), i);
  }

  lemma EndedCodes(stages: seq<JobState>, s: JobState, i: nat)
    requires EndedShape(stages, s) && IsTerminal(s) && i < |stages|
    ensures Code(stages[i]) <= Code(s)
  {
    var before := stages[..|stages| - 1];
    if i < |before| {
      WorkingCodes(before, before[|before| - 1], i);
      assert before[i] == stages[i];
    }
  }

  // A file written earlier in the run is a snapshot of the job.
  lemma {:induction false} EarlierLogIsASnapshot(j: Job, ops: seq<JobOp>, hashes: set<string>)
    requires LogLaw(j, hashes) && HashesOf(ops) <= hashes
    ensures |Run(j, ops).checkpoints| >= |j.checkpoints|
    ensures forall i :: 0 <= i < |j.checkpoints| ==> Run(j, ops).checkpoints[i].stage == j.checkpoints[i].stage
    decreases ops
  {
    if ops != [] {
      assert ops[0].ValidatedOp? ==> ops[0].fileHash in HashesOf(ops);
      assert HashesOf(ops[1..]) <= HashesOf(ops);
      StepKeepsLaw(j, ops[0], hashes);
      forall i | 0 <= i < |j.checkpoints|
        ensures i < |Step(j, ops[0]).checkpoints| && Step(j, ops[0]).checkpoints[i].stage == j.checkpoints[i].stage
      {
        StagesPersist(j, ops[0], i);
      }
      if j.checkpoints != [] { StagesPersist(j, ops[0], |j.checkpoints| - 1); }
      EarlierLogIsASnapshot(Step(j, ops[0]), ops[1..], hashes);
    }
  }

  lemma SingleOcrShape()
    ensures Shape(OcrOptional, 0) == [ValidatingFile, ExtractingText, OcrOptional]
  {
    assert MAINLINE[..2] == [ExtractingText, OcrOptional];
  }

  lemma FirstOcr(stages: seq<JobState>)
    requires WorkingShape(stages, OcrOptional) && Returns(stages) == 0
    ensures |stages| == 3 && stages[0] == ValidatingFile && stages[1] == ExtractingText
  {
    SingleOcrShape();
  }

  lemma NoOcrBefore(j: Job, hashes: set<string>, file: seq<Checkpoint>)
    requires LogLaw(j, hashes) && IsSnapshot(file, j) && Returns(Stages(j.checkpoints)) == 0
    ensures !(j.state == OcrOptional && OcrOptional in Stages(file))
  {
    var stages := Stages(j.checkpoints);
    if j.state == OcrOptional {
      FirstOcr(stages);
      assert forall i :: 0 <= i < |file| ==> Stages(file)[i] == stages[i];
    }
  }

  /** Persist, go on, recover: nothing changes as long as OCR was not repeated. */
  lemma RecoveringAnAdvancedJob(j: Job, before: seq<JobOp>, after: seq<JobOp>, now: nat)
    requires Fresh(j)
    requires |Run(Run(j, before), after).checkpoints| > |Run(j, before).checkpoints|
    requires Returns(Stages(Run(Run(j, before), after).checkpoints)) == 0
    ensures Recover(Run(Run(j, before), after), Run(j, before).checkpoints, now) == Run(Run(j, before), after)
  {
    var hashes := {j.fileHash} + HashesOf(before) + HashesOf(after);
    RunKeepsLaw(j, before, hashes) by { FreshLaw(j, hashes); }
    EarlierLogIsASnapshot(Run(j, before), after, hashes);
    RunKeepsLaw(Run(j, before), after, hashes);
    var current := Run(Run(j, before), after);
    NoOcrBefore(current, hashes, Run(j, before).checkpoints);
    StaleFileIsIgnoredIff(current, hashes, Run(j, before).checkpoints, now);
  }

  lemma FreshLaw(j: Job, hashes: set<string>)
    requires Fresh(j) && j.fileHash in hashes
    ensures LogLaw(j, hashes)
  {
  }

  // ---- Recovering a second time ----

  ghost predicate AllOld(file: seq<Checkpoint>, last: Option<JobState>) {
    forall i :: 0 <= i < |file| ==> !IsNewer(file[i], last)
  }

  // The stage of the last closed checkpoint that recovery takes from the file.
  function LastTaken(file: seq<Checkpoint>, last: Option<JobState>): Option<JobState> {
    if file == [] then None
    else
      var cp := file[|file| - 1];
      if cp.completedAt.Some? && IsNewer(cp, last) then Some(cp.stage) else LastTaken(file[..|file| - 1], last)
  }

  lemma {:induction false} NewerSnoc(file: seq<Checkpoint>, cp: Checkpoint, last: Option<JobState>)
    ensures Newer(file + [cp], last) == Newer(file, last) + if IsNewer(cp, last) then [cp] else []
  {
    if file == [] {
      assert [cp][1..] == [] && file + [cp] == [cp];
    } else {
      assert (file + [cp])[1..] == file[1..] + [cp];
      NewerSnoc(file[1..], cp, last);
    }
  }

  lemma LastCompletedSnoc(log: seq<Checkpoint>, cp: Checkpoint)
    ensures LastCompletedStage(log + [cp]) == if cp.completedAt.Some? then Some(cp.stage) else LastCompletedStage(log)
  {
    assert (log + [cp])[..|log|] == log;
  }

  // What counts as completed once the file has been recovered into a log.
  lemma {:induction false} CompletedAfterRecovery(log: seq<Checkpoint>, file: seq<Checkpoint>, last: Option<JobState>)
    ensures LastCompletedStage(log + Newer(file, last)) ==
            if LastTaken(file, last).Some? then LastTaken(file, last) else LastCompletedStage(log)
  {
    if file == [] {
      assert log + Newer(file, last) == log;
    } else {
      var before, cp := file[..|file| - 1], file[|file| - 1];
      assert before + [cp] == file;
      CompletedAfterRecovery(log, before, last);
      NewerSnoc(before, cp, last);
      if IsNewer(cp, last) {
        assert log + Newer(file, last) == (log + Newer(before, last)) + [cp];
        LastCompletedSnoc(log + Newer(before, last), cp);
      } else {
        assert Newer(file, last) == Newer(before, last);
      }
    }
  }

  lemma {:induction false} LastTakenIs(file: seq<Checkpoint>, last: Option<JobState>)
    ensures match LastTaken(file, last)
            case None => forall i :: 0 <= i < |file| && file[i].completedAt.Some? ==> !IsNewer(file[i], last)
            case Some(stage) => exists i :: 0 <= i < |file| && file[i].completedAt.Some? && IsNewer(file[i], last) &&
                                            file[i].stage == stage
  {
    if file != [] {
      var before := file[..|file| - 1];
      LastTakenIs(before, last);
      assert forall i :: 0 <= i < |before| ==> file[i] == before[i];
    }
  }

  // The first recovery takes the open end and the second takes it again.
  lemma StrictEndIsTakenTwice(file: seq<Checkpoint>, last: Option<JobState>)
    requires file != [] && ClosedInOrder(file) && file[|file| - 1].completedAt.None?
    requires forall i :: 0 <= i < |file| - 1 ==> Code(file[i].stage) < Code(file[|file| - 1].stage)
    requires !AllOld(file, last)
    ensures !AllOld(file, if LastTaken(file, last).Some? then LastTaken(file, last) else last)
  {
    LastTakenIs(file, last);
    assert IsNewer(file[|file| - 1], last);
  }

  // A closed checkpoint that is newer and that no closed one follows is the last one taken.
  lemma SecondLastIsTaken(file: seq<Checkpoint>, last: Option<JobState>)
    requires |file| >= 2 && ClosedInOrder(file) && file[|file| - 1].completedAt.None? && IsNewer(file[|file| - 2], last)
    ensures LastTaken(file, last) == Some(file[|file| - 2].stage)
  {
    var before := file[..|file| - 1];
    assert before[|before| - 1] == file[|file| - 2];
    assert file[|file| - 2].completedAt.Some?;
  }

  lemma EndedFileIsTakenOnce(file: seq<Checkpoint>, s: JobState, last: Option<JobState>)
    requires EndedShape(Stages(file), s) && IsTerminal(s) && file[|file| - 1].completedAt.Some? && !AllOld(file, last)
    ensures AllOld(file, LastTaken(file, last)) && LastTaken(file, last).Some?
  {
    var n := |file|;
    forall i | 0 <= i < n ensures Code(file[i].stage) <= Code(s) {
      EndedCodes(Stages(file), s, i);
      assert Stages(file)[i] == file[i].stage;
    }
    assert Stages(file)[n - 1] == file[n - 1].stage == s;
    assert IsNewer(file[n - 1], last);
  }

  // A file that has gone back to text extraction, or has come to OCR again.
  predicate BackAtOcr(s: JobState, last: Option<JobState>, returns_: nat) {
    returns_ > 0 && (s == ExtractingText || (s == OcrOptional && last == Some(ExtractingText)))
  }

  // An entry of an unfinished file never passes its end, unless that has gone back.
  lemma WorkingEntry(stages: seq<JobState>, s: JobState, i: nat)
    requires Working(s) && WorkingShape(stages, s) && i < |stages|
    ensures Code(stages[i]) <= if s == ExtractingText && Returns(stages) > 0 then Code(OcrOptional) else Code(s)
    ensures i < |stages| - 1 && (Returns(stages) == 0 || Code(s) > Code(OcrOptional)) ==> Code(stages[i]) < Code(s)
  {
    CodesOfShape(s, Returns(stages), i);
    if i < |stages| - 1 && Returns(stages) == 0 && Code(s) <= Code(OcrOptional) { EarlyShape(s, i); }
  }

  lemma EarlyShape(s: JobState, i: nat)
    requires Working(s) && Code(s) <= Code(OcrOptional) && i + 1 < |Shape(s, 0)|
    ensures Code(Shape(s, 0)[i]) < Code(s)
  {
    assert MAINLINE[..2] == [ExtractingText, OcrOptional] && MAINLINE[..1] == [ExtractingText];
  }

  // The last entries of a file that went back to text extraction, and what it has before them.
  lemma ReturnedWord(stages: seq<JobState>, s: JobState)
    requires Working(s) && WorkingShape(stages, s) && Returns(stages) > 0 && Code(s) <= Code(OcrOptional)
    ensures |stages| >= 4 && (s == ExtractingText || s == OcrOptional) && stages[2] == OcrOptional
    ensures stages[|stages| - 2] == if s == ExtractingText then OcrOptional else ExtractingText
  {
    BeforeTheEnd(s, Returns(stages));
    LoopsHoldTwoStages(Returns(stages));
    assert stages[2] == Loops(Returns(stages))[1];
  }

  lemma WorkingFile(file: seq<Checkpoint>, s: JobState)
    requires Working(s) && WorkingShape(Stages(file), s)
    ensures file != [] && file[|file| - 1].stage == s
    ensures var r := Returns(Stages(file));
            forall i :: 0 <= i < |file| ==>
              Code(file[i].stage) <= (if s == ExtractingText && r > 0 then Code(OcrOptional) else Code(s)) &&
              (i < |file| - 1 && (r == 0 || Code(s) > Code(OcrOptional)) ==> Code(file[i].stage) < Code(s))
  {
    var stages := Stages(file);
    LastOfShape(s, Returns(stages));
    assert stages[|stages| - 1] == file[|file| - 1].stage;
    forall i | 0 <= i < |file|
      ensures Code(file[i].stage) <= (if s == ExtractingText && Returns(stages) > 0 then Code(OcrOptional) else Code(s))
      ensures i < |file| - 1 && (Returns(stages) == 0 || Code(s) > Code(OcrOptional)) ==> Code(file[i].stage) < Code(s)
    {
      WorkingEntry(stages, s, i);
      assert stages[i] == file[i].stage;
    }
  }

  lemma WorkingFileIsTakenOnceIff(file: seq<Checkpoint>, s: JobState, last: Option<JobState>)
    requires Working(s) && WorkingShape(Stages(file), s) && ClosedInOrder(file) && file[|file| - 1].completedAt.None?
    requires !AllOld(file, last)
    ensures AllOld(file, if LastTaken(file, last).Some? then LastTaken(file, last) else last) <==>
            BackAtOcr(s, last, Returns(Stages(file)))
  {
    WorkingFile(file, s);
    var r := Returns(Stages(file));
    if r == 0 || Code(s) > Code(OcrOptional) {
      StrictEndIsTakenTwice(file, last);
    } else {
      ReturnedStages(file, s);
      ReturnedFile(file, s, last);
    }
  }

  lemma ReturnedStages(file: seq<Checkpoint>, s: JobState)
    requires Working(s) && WorkingShape(Stages(file), s) && Returns(Stages(file)) > 0 && Code(s) <= Code(OcrOptional)
    ensures |file| >= 4 && (s == ExtractingText || s == OcrOptional) && file[2].stage == OcrOptional
    ensures file[|file| - 2].stage == if s == ExtractingText then OcrOptional else ExtractingText
  {
    ReturnedWord(Stages(file), s);
    assert Stages(file)[2] == file[2].stage && Stages(file)[|file| - 2] == file[|file| - 2].stage;
  }

  lemma ReturnedFile(file: seq<Checkpoint>, s: JobState, last: Option<JobState>)
    requires |file| >= 4 && ClosedInOrder(file) && file[|file| - 1].completedAt.None? && file[|file| - 1].stage == s
    requires s == ExtractingText || s == OcrOptional
    requires file[2].stage == OcrOptional
    requires file[|file| - 2].stage == if s == ExtractingText then OcrOptional else ExtractingText
    requires forall i :: 0 <= i < |file| ==> Code(file[i].stage) <= Code(OcrOptional)
    requires !AllOld(file, last)
    ensures AllOld(file, if LastTaken(file, last).Some? then LastTaken(file, last) else last) <==>
            s == ExtractingText || last == Some(ExtractingText)
  {
    var n := |file|;
    if s == ExtractingText {
      SecondLastIsTaken(file, last);
    } else if last == Some(ExtractingText) {
      LastTakenIs(file, last);
      assert file[2].completedAt == Some(file[3].startedAt) && IsNewer(file[2], last);
    } else {
      SecondLastIsTaken(file, last);
      assert IsNewer(file[n - 1], Some(ExtractingText));
    }
  }

  // What the first recovery leaves for the second to find new.
  lemma SecondRecovery(other: Job, file: seq<Checkpoint>, now: nat, later: nat)
    ensures var last := LastCompletedStage(other.checkpoints);
            var once := Recover(other, file, now);
            Recover(once, file, later).checkpoints == once.checkpoints <==>
            AllOld(file, if LastTaken(file, last).Some? then LastTaken(file, last) else last)
  {
    var last := LastCompletedStage(other.checkpoints);
    CompletedAfterRecovery(other.checkpoints, file, last);
    NewerEmpty(file, last);
    assert other.checkpoints + [] == other.checkpoints;
    NewerEmpty(file, LastCompletedStage(Recover(other, file, now).checkpoints));
  }

  lemma NothingTaken(file: seq<Checkpoint>, last: Option<JobState>)
    requires AllOld(file, last)
    ensures LastTaken(file, last).None?
  {
    LastTakenIs(file, last);
  }

  lemma FileIsTakenOnceIff(j: Job, hashes: set<string>, last: Option<JobState>)
    requires LogLaw(j, hashes) && !AllOld(j.checkpoints, last)
    ensures var file := j.checkpoints;
            AllOld(file, if LastTaken(file, last).Some? then LastTaken(file, last) else last) <==>
            IsTerminal(j.state) || BackAtOcr(j.state, last, Returns(Stages(file)))
  {
    LongLogIsStarted(j, hashes);
    if IsTerminal(j.state) {
      EndedFileIsTakenOnce(j.checkpoints, j.state, last);
    } else {
      WorkingFileIsTakenOnceIff(j.checkpoints, j.state, last);
    }
  }

  /**
    Recovery is documented as idempotent.  Whatever job the file of a lawful one is recovered into, a second
    recovery adds nothing exactly when the first already took nothing, the file is that of a finished job, or
    it is back at text extraction or OCR after a repeat, as BackAtOcr says; in every other case the open
    checkpoint is appended again.
  */
  lemma RecoveringTwiceAddsNothingIff(j: Job, hashes: set<string>, other: Job, now: nat, later: nat)
    requires LogLaw(j, hashes)
    ensures var file, last := j.checkpoints, LastCompletedStage(other.checkpoints);
            var once := Recover(other, file, now);
            Recover(once, file, later).checkpoints == once.checkpoints <==>
            AllOld(file, last) || IsTerminal(j.state) || BackAtOcr(j.state, last, Returns(Stages(file)))
  {
    var last := LastCompletedStage(other.checkpoints);
    SecondRecovery(other, j.checkpoints, now, later);
    if AllOld(j.checkpoints, last) {
      NothingTaken(j.checkpoints, last);
    } else {
      FileIsTakenOnceIff(j, hashes, last);
    }
  }

  /**
    Into a job created again with an empty log: exactly for an empty log, a finished job, or one just back from OCR.
  */
  lemma RecoveringLostJobTwiceIff(j: Job, hashes: set<string>, again: Job, now: nat, later: nat)
    requires LogLaw(j, hashes) && again.checkpoints == []
    ensures var once := Recover(again, j.checkpoints, now);
            Recover(once, j.checkpoints, later).checkpoints == once.checkpoints <==>
            j.checkpoints == [] || IsTerminal(j.state) ||
            (j.state == ExtractingText && |j.checkpoints| >= 2 &&
             j.checkpoints[|j.checkpoints| - 2].stage == OcrOptional)
  {
    RecoveringTwiceAddsNothingIff(j, hashes, again, now, later);
    var file := j.checkpoints;
    if file != [] {
      LastStageIsState(j, hashes);
      assert IsNewer(file[0], None);
      if Working(j.state) {
        WorkingFile(file, j.state);
        if Returns(Stages(file)) > 0 && j.state == ExtractingText { ReturnedWord(Stages(file), j.state); }
      }
    }
  }

  const SAMPLE_JOB := Job("job", None, "a.pdf", "hash", Created, [], 0, 0, None, None,
    Activity(0, 0, 0, None, None, 0, None, []), [], 0, None)

  function Simple(next: JobState): JobOp {
    AdvanceOp(next, None, None, None, 0)
  }

  /** A job one stage in, recovered twice, holds its validation checkpoint twice. */
  lemma RecoveryIsNotIdempotent()
    ensures var file := Step(SAMPLE_JOB, Simple(ValidatingFile)).checkpoints;
            var once := Recover(SAMPLE_JOB, file, 0);
            |file| == 1 && Recover(once, file, 0).checkpoints == file + file
  {
    var file := Step(SAMPLE_JOB, Simple(ValidatingFile)).checkpoints;
    NothingToSkip(file);
    assert LastCompletedStage(file) == None by { assert file[..0] == []; }
  }

  /**
    A job re-created and recovered has every part of the log law again but the result's; that one unless a payload was
    reviewed.
  */
  lemma RecoveredLogIsLawfulIff(j: Job, hashes: set<string>, again: Job, now: nat)
    requires LogLaw(j, hashes) && j.checkpoints != [] && Fresh(again) && again.fileHash == j.fileHash
    ensures var back := Recover(again, j.checkpoints, now);
            WellShaped(Stages(back.checkpoints), back.state) && ClosedInOrder(back.checkpoints) &&
            OpenEnd(back.checkpoints, back.state) && back.fileHash in hashes && Chained(back.checkpoints, hashes)
    ensures LogLaw(Recover(again, j.checkpoints, now), hashes) <==>
            forall i :: 0 <= i < |j.checkpoints| && j.checkpoints[i].stage == AwaitingReview ==>
              j.checkpoints[i].data.None?
  {
    RecoveredIsAlike(j, hashes, again, now);
    RecoverIntoEmpty(again, j.checkpoints, now);
    LostResultIsLawfulIff(j.checkpoints, Recover(again, j.checkpoints, now));
  }

  lemma LostResultIsLawfulIff(log: seq<Checkpoint>, back: Job)
    requires back.checkpoints == log && back.result.None?
    ensures ResultLaw(back) <==> forall i :: 0 <= i < |log| && log[i].stage == AwaitingReview ==> log[i].data.None?
  {
  }

  // ---- Inputs on which recovery loses or adds ----

  const TO_FIRST_OCR: seq<JobState> := [ValidatingFile, ExtractingText, OcrOptional]
  const TO_SECOND_OCR: seq<JobState> := [ValidatingFile, ExtractingText, OcrOptional, ExtractingText, OcrOptional]

  /** A file written in the first OCR round, recovered in the second, adds to the log again. */
  lemma SecondOcrTakesTheStaleFile(now: nat)
    ensures var j := Run(SAMPLE_JOB, Advances(TO_SECOND_OCR));
            var file := Run(SAMPLE_JOB, Advances(TO_FIRST_OCR)).checkpoints;
            j.state == OcrOptional && IsSnapshot(file, j) && Recover(j, file, now) != j
  {
    EveryPathIsLogged(SAMPLE_JOB, TO_FIRST_OCR);
    EveryPathIsLogged(SAMPLE_JOB, TO_SECOND_OCR);
    var j := Run(SAMPLE_JOB, Advances(TO_SECOND_OCR));
    var file := Run(SAMPLE_JOB, Advances(TO_FIRST_OCR)).checkpoints;
    LogLawOverRuns(SAMPLE_JOB, Advances(TO_SECOND_OCR));
    forall i | 0 <= i < |file| ensures file[i].stage == j.checkpoints[i].stage {
      assert Stages(file)[i] == TO_FIRST_OCR[i] && Stages(j.checkpoints)[i] == TO_SECOND_OCR[i];
    }
    assert TO_FIRST_OCR[2] == OcrOptional;
    StaleFileIsIgnoredIff(j, {SAMPLE_JOB.fileHash} + HashesOf(Advances(TO_SECOND_OCR)), file, now);
  }

  const TO_PATCH: seq<JobState> := [
    ValidatingFile, ExtractingText, OcrOptional, BuildingDocumentMap, ExtractingSemantics,
    CompilingGraphIr, PersistingCanvas, GeneratingPatch]

  lemma PutUpForReview(j: Job, data: Payload)
    requires j.state == GeneratingPatch
    ensures var next := Step(j, AdvanceOp(AwaitingReview, None, Some(data), None, 0));
            next.state == AwaitingReview && next.result == Some(data)
  {
  }

  lemma RecoveringKeepsTheResult(j: Job, file: seq<Checkpoint>, now: nat)
    ensures Recover(j, file, now).result == j.result
  {
  }

  /** A job that has put a patch up for review, lost and recovered from its own file, has no result. */
  lemma RecoveredReviewHasNoResult(now: nat)
    ensures var j := Step(Run(SAMPLE_JOB, Advances(TO_PATCH)), AdvanceOp(AwaitingReview, None, Some("patch"), None, 0));
            j.state == AwaitingReview && j.result == Some("patch") &&
              Recover(SAMPLE_JOB, j.checkpoints, now).result == None
  {
    EveryPathIsLogged(SAMPLE_JOB, TO_PATCH);
    var ready := Run(SAMPLE_JOB, Advances(TO_PATCH));
    PutUpForReview(ready, "patch");
    RecoveringKeepsTheResult(SAMPLE_JOB,
                             Step(ready, AdvanceOp(AwaitingReview, None, Some("patch"), None, 0)).checkpoints, now);
  }
}
