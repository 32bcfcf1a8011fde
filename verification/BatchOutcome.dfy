/** What becomes of the jobs of a batch, told from the moves: what reaches their logs, who decides, and what fails. */
module BatchOutcome {
  import opened Wrappers
  import opened JobLog
  import opened JobProgress
  import opened BatchRunner

  // ---- What the worker files ----

  // What a worker move puts into the log of the job it works on.
  datatype Entry = Entry(outputHash: Option<string>, data: Option<Payload>, now: nat)

  // With this move the worker takes job i into its next stage.
  ghost predicate Enters(ids: seq<string>, b: Batch, m: Move, i: nat) {
    m.Worker? && b.pc.Entering? && b.pc.i == i && (m.ok || b.pc.k == 0) &&
    i < |ids| && ids[i] in b.jobs && !IsTerminal(b.jobs[ids[i]].state)
  }

  ghost function EntryOf(ids: seq<string>, b: Batch, m: Move, i: nat): seq<Entry> {
    if Enters(ids, b, m, i) then [Entry(m.outputHash, m.data, m.now)] else []
  }

  // What job i is taken through its stages with.
  ghost function Entered(ids: seq<string>, b: Batch, moves: seq<Move>, i: nat): seq<Entry>
    decreases moves
  {
    if moves == [] then [] else EntryOf(ids, b, moves[0], i) + Entered(ids, Next(ids, b, moves[0]), moves[1..], i)
  }

  // The log holds the entries stage by stage, each closed with the hash that came with the next one.
  ghost predicate Filed(log: seq<Checkpoint>, es: seq<Entry>) {
    |es| <= |PIPELINE| && |es| <= |log| &&
    (forall k :: 0 <= k < |es| ==>
       log[k].stage == PIPELINE[k] && log[k].data == es[k].data && log[k].startedAt == es[k].now) &&
    forall k :: 0 < k < |es| ==>
      log[k - 1].outputHash == es[k].outputHash &&
      (es[k].outputHash.Some? ==> log[k].inputHash == es[k].outputHash.value)
  }

  ghost predicate Carries(j: Job, es: seq<Entry>) {
    var log := j.checkpoints;
    Filed(log, es) && |log| == |es| + (if IsTerminal(j.state) then 1 else 0) &&
    (!IsTerminal(j.state) ==> j.state == if es == [] then Queued else PIPELINE[|es| - 1]) &&
    (!IsTerminal(j.state) && es != [] ==> log[|es| - 1].completedAt.None?) &&
    (j.state == Accepted || j.state == Rejected ==> |es| == |PIPELINE|) &&
    j.result == if |es| == |PIPELINE| then es[|es| - 1].data else None
  }

  lemma StageIsFiled(j: Job, es: seq<Entry>, e: Entry)
    requires Carries(j, es) && !IsTerminal(j.state) && |es| < |PIPELINE|
    ensures var op := AdvanceOp(PIPELINE[|es|], e.outputHash, e.data, None, e.now);
            Attempt(j, op).Ok? && Carries(Step(j, op), es + [e])
  {
    var op := AdvanceOp(PIPELINE[|es|], e.outputHash, e.data, None, e.now);
    PipelineIsAPath(|es|);
    AdvanceHandsOn(j, op);
    var log, fs := Step(j, op).checkpoints, es + [e];
    forall k | 0 <= k < |fs|
      ensures log[k].stage == PIPELINE[k] && log[k].data == fs[k].data && log[k].startedAt == fs[k].now
    {
      if k < |es| { assert fs[k] == es[k]; }
    }
    forall k | 0 < k < |fs|
      ensures log[k - 1].outputHash == fs[k].outputHash
      ensures fs[k].outputHash.Some? ==> log[k].inputHash == fs[k].outputHash.value
    {
      if k < |es| { assert fs[k] == es[k]; }
    }
  }

  lemma PipelineIsAPath(k: nat)
    requires k < |PIPELINE|
    ensures CanTransitionTo(if k == 0 then Queued else PIPELINE[k - 1], PIPELINE[k])
    ensures !IsTerminal(PIPELINE[k]) && (PIPELINE[k] == AwaitingReview <==> k + 1 == |PIPELINE|)
  {
  }

  // A step that appends one last checkpoint and leaves the filed ones as they are, but for closing.
  lemma EndingKeepsFiled(before: seq<Checkpoint>, after: seq<Checkpoint>, es: seq<Entry>)
    requires Filed(before, es) && |before| == |es| && LogGrows(before, after)
    ensures Filed(after, es)
  {
  }

  lemma CancelKeepsEntries(j: Job, es: seq<Entry>, reason: string, now: nat)
    requires Carries(j, es)
    ensures Carries(Step(j, CancelOp(reason, now)), es)
  {
    if !IsTerminal(j.state) {
      CancelWrites(j, reason, now);
      EndingKeepsFiled(j.checkpoints, Step(j, CancelOp(reason, now)).checkpoints, es);
    }
  }

  lemma AwaitingHasAll(j: Job, es: seq<Entry>)
    requires Carries(j, es) && j.state == AwaitingReview
    ensures |es| == |PIPELINE|
  {
  }

  lemma ReviewKeepsEntries(j: Job, es: seq<Entry>, accept: bool, now: nat)
    requires Carries(j, es)
    ensures Carries(Step(j, ReviewOp(accept, now)), es)
  {
    if j.state == AwaitingReview {
      AwaitingHasAll(j, es);
      VerdictWrites(j, accept, now);
      EndingKeepsFiled(j.checkpoints, Step(j, ReviewOp(accept, now)).checkpoints, es);
    }
  }

  lemma FailureKeepsEntries(j: Job, es: seq<Entry>, error: string, now: nat)
    requires Carries(j, es)
    ensures Carries(Step(j, AdvanceOp(Failed, None, None, Some(error), now)), es)
  {
    var op := AdvanceOp(Failed, None, None, Some(error), now);
    if CanTransitionTo(j.state, Failed) {
      AdvanceHandsOn(j, op);
      EndingKeepsFiled(j.checkpoints, Step(j, op).checkpoints, es);
    }
  }

  // ---- One move ----

  lemma StageIsNext(ids: seq<string>, b: Batch, i: nat, es: seq<Entry>)
    requires Inv(ids, b) && i < |ids| && b.pc.Entering? && b.pc.i == i
    requires Carries(b.jobs[ids[i]], es) && !IsTerminal(b.jobs[ids[i]].state)
    ensures b.pc.k == |es| < |PIPELINE|
  {
    assert AtWork(b.pc, b.jobs[ids[i]].state, ids[i] in b.unresolved);
  }

  lemma StageEntered(ids: seq<string>, b: Batch, m: Move, i: nat, k: nat)
    requires m.Worker? && i < |ids| && ids[i] in b.jobs && b.pc == Entering(i, k) && k < |PIPELINE|
    requires (m.ok || k == 0) && Attempt(b.jobs[ids[i]], AdvanceOp(PIPELINE[k], m.outputHash, m.data, None, m.now)).Ok?
    ensures ids[i] in Next(ids, b, m).jobs
    ensures Next(ids, b, m).jobs[ids[i]] ==
            Step(b.jobs[ids[i]], AdvanceOp(PIPELINE[k], m.outputHash, m.data, None, m.now))
  {
  }

  lemma StageNotEntered(ids: seq<string>, b: Batch, m: Move, i: nat, k: nat)
    requires m.Worker? && i < |ids| && ids[i] in b.jobs && b.pc == Entering(i, k)
    requires (!m.ok && k > 0) || IsTerminal(b.jobs[ids[i]].state)
    ensures Next(ids, b, m).jobs == b.jobs
  {
    if k < |PIPELINE| && IsTerminal(b.jobs[ids[i]].state) {
      assert !CanTransitionTo(b.jobs[ids[i]].state, PIPELINE[k]);
    }
  }

  lemma EnteringFiles(ids: seq<string>, b: Batch, m: Move, i: nat, es: seq<Entry>)
    requires Inv(ids, b) && i < |ids| && m.Worker? && b.pc.Entering? && b.pc.i == i && Carries(b.jobs[ids[i]], es)
    ensures ids[i] in Next(ids, b, m).jobs && Carries(Next(ids, b, m).jobs[ids[i]], es + EntryOf(ids, b, m, i))
  {
    var j := b.jobs[ids[i]];
    if Enters(ids, b, m, i) {
      StageIsNext(ids, b, i, es);
      StageIsFiled(j, es, Entry(m.outputHash, m.data, m.now));
      StageEntered(ids, b, m, i, |es|);
    } else {
      StageNotEntered(ids, b, m, i, b.pc.k);
      assert es + [] == es;
    }
  }

  lemma MarkingKeepsEntries(j: Job, es: seq<Entry>, path: string, fileHash: string, now: nat)
    requires Carries(j, es)
    ensures Carries(Step(j, ValidatedOp(path, fileHash, now)), es)
  {
  }

  lemma WorkerFiles(ids: seq<string>, b: Batch, m: Move, i: nat, es: seq<Entry>)
    requires Inv(ids, b) && i < |ids| && m.Worker? && Behind(ids, b.pc) == i && Carries(b.jobs[ids[i]], es)
    ensures ids[i] in Next(ids, b, m).jobs && Carries(Next(ids, b, m).jobs[ids[i]], es + EntryOf(ids, b, m, i))
  {
    var j := b.jobs[ids[i]];
    if b.pc.Entering? {
      EnteringFiles(ids, b, m, i, es);
    } else {
      assert es + EntryOf(ids, b, m, i) == es;
      if b.pc.Failing? { FailureKeepsEntries(j, es, m.error, m.now); }
      if b.pc.Marking? { MarkingKeepsEntries(j, es, m.path, m.fileHash, m.now); }
    }
  }

  lemma OthersAreLeft(ids: seq<string>, b: Batch, m: Move, i: nat)
    requires Inv(ids, b) && i < |ids| && m.Worker? && Behind(ids, b.pc) != i
    ensures ids[i] in Next(ids, b, m).jobs && Next(ids, b, m).jobs[ids[i]] == b.jobs[ids[i]]
  {
    var n := Behind(ids, b.pc);
    if n < |ids| {
      CurrentJobMoves(ids, b, m);
      assert ids[i] != ids[n];
    }
  }

  // What the moves of others than the worker make of a job of the batch.
  lemma OthersMove(ids: seq<string>, b: Batch, m: Move, i: nat)
    requires !m.Worker? && i < |ids| && ids[i] in b.jobs
    ensures ids[i] in Next(ids, b, m).jobs
    ensures Next(ids, b, m).jobs[ids[i]] ==
            match m
            case CancelMove(id, reason, now) =>
              if id == ids[i] then Step(b.jobs[ids[i]], CancelOp(reason, now)) else b.jobs[ids[i]]
            case ReviewMove(id, accept, now) =>
              if id == ids[i] then Step(b.jobs[ids[i]], ReviewOp(accept, now)) else b.jobs[ids[i]]
            case RecordMove(id, what) => if id == ids[i] then Recorded(b.jobs[ids[i]], what) else b.jobs[ids[i]]
            case _ => b.jobs[ids[i]]
  {
  }

  lemma OthersFile(ids: seq<string>, b: Batch, m: Move, i: nat, es: seq<Entry>)
    requires !m.Worker? && i < |ids| && ids[i] in b.jobs && Carries(b.jobs[ids[i]], es)
    ensures ids[i] in Next(ids, b, m).jobs && Carries(Next(ids, b, m).jobs[ids[i]], es)
  {
    OthersMove(ids, b, m, i);
    var j := b.jobs[ids[i]];
    match m {
      case CancelMove(_, reason, now) => CancelKeepsEntries(j, es, reason, now);
      case ReviewMove(_, accept, now) => ReviewKeepsEntries(j, es, accept, now);
      case RecordMove(_, what) => RecordingKeepsEntries(j, es, what);
      case _ =>
    }
  }

  lemma RecordingKeepsEntries(j: Job, es: seq<Entry>, what: Recording)
    requires Carries(j, es)
    ensures Carries(Recorded(j, what), es)
  {
    RecordingKeepsTheRest(j, what);
  }

  lemma OneMoveFiles(ids: seq<string>, b: Batch, m: Move, i: nat, es: seq<Entry>)
    requires Inv(ids, b) && i < |ids| && Carries(b.jobs[ids[i]], es)
    ensures ids[i] in Next(ids, b, m).jobs && Carries(Next(ids, b, m).jobs[ids[i]], es + EntryOf(ids, b, m, i))
  {
    if m.Worker? && Behind(ids, b.pc) == i {
      WorkerFiles(ids, b, m, i, es);
    } else {
      assert es + EntryOf(ids, b, m, i) == es;
      if m.Worker? { OthersAreLeft(ids, b, m, i); } else { OthersFile(ids, b, m, i, es); }
    }
  }

  lemma {:induction false} EntriesAreFiled(ids: seq<string>, b: Batch, moves: seq<Move>, i: nat, es: seq<Entry>)
    requires Inv(ids, b) && i < |ids| && Carries(b.jobs[ids[i]], es)
    ensures ids[i] in Interleave(ids, b, moves).jobs
    ensures Carries(Interleave(ids, b, moves).jobs[ids[i]], es + Entered(ids, b, moves, i))
    decreases moves
  {
    if moves == [] {
      assert es + [] == es;
    } else {
      var b', more := Next(ids, b, moves[0]), EntryOf(ids, b, moves[0], i);
      OneMoveFiles(ids, b, moves[0], i, es);
      NextKeepsInv(ids, b, moves[0]);
      EntriesAreFiled(ids, b', moves[1..], i, es + more);
      Regroup(es, more, Entered(ids, b', moves[1..], i));
    }
  }

  lemma Regroup<T>(a: seq<T>, b: seq<T>, c: seq<T>)
    ensures (a + b) + c == a + (b + c)
  {
  }

  /**
    What reaches a job of the batch is what the worker moved it with: in every interleaving each stage of its log
    carries the data of the move that entered it and is closed with the hash of the move that left it, and a job put
    up for review has the data of the last of them as its result, decided or not.
  */
  lemma LogCarriesTheMoves(ids: seq<string>, b: Batch, moves: seq<Move>, i: nat)
    requires Started(ids, b) && i < |ids| && Fresh(b.jobs[ids[i]])
    ensures ids[i] in Interleave(ids, b, moves).jobs
    ensures var j, es := Interleave(ids, b, moves).jobs[ids[i]], Entered(ids, b, moves, i);
            Carries(j, es) &&
            (j.state == AwaitingReview || j.state == Accepted || j.state == Rejected ==>
              |es| == |PIPELINE| && j.result == es[|es| - 1].data && j.checkpoints[|es| - 1].stage == AwaitingReview &&
              j.checkpoints[|es| - 1].data == es[|es| - 1].data)
  {
    assert Inv(ids, b);
    assert Carries(b.jobs[ids[i]], []);
    EntriesAreFiled(ids, b, moves, i, []);
    assert [] + Entered(ids, b, moves, i) == Entered(ids, b, moves, i);
    var j := Interleave(ids, b, moves).jobs[ids[i]];
    if j.state == AwaitingReview { AwaitingHasAll(j, Entered(ids, b, moves, i)); }
  }

  // ---- Who decides ----

  predicate OnJobOf(m: Move, id: string) {
    (m.CancelMove? || m.ReviewMove?) && m.id == id
  }

  // The first verdict or cancellation of job id attempted while it awaits review.
  ghost function DecidingMove(ids: seq<string>, b: Batch, moves: seq<Move>, id: string): (r: Option<Move>)
    ensures r.Some? ==> OnJobOf(r.value, id)
    decreases moves
  {
    if moves == [] then None
    else if id in b.jobs && b.jobs[id].state == AwaitingReview && OnJobOf(moves[0], id) then Some(moves[0])
    else DecidingMove(ids, Next(ids, b, moves[0]), moves[1..], id)
  }

  lemma WorkerNeverDecides(ids: seq<string>, b: Batch, m: Move, i: nat)
    requires Inv(ids, b) && i < |ids| && m.Worker?
    requires b.jobs[ids[i]].state != Accepted && b.jobs[ids[i]].state != Rejected
    ensures ids[i] in Next(ids, b, m).jobs
    ensures var s := Next(ids, b, m).jobs[ids[i]].state; s != Accepted && s != Rejected
  {
    if Behind(ids, b.pc) != i {
      OthersAreLeft(ids, b, m, i);
    } else {
      CurrentJobMoves(ids, b, m);
      WorkerStates(ids, b, m, i);
    }
  }

  lemma WorkerStates(ids: seq<string>, b: Batch, m: Move, i: nat)
    requires i < |ids| && ids[i] in b.jobs && m.Worker? && Behind(ids, b.pc) == i && b.pc != Finished
    ensures ids[i] in Next(ids, b, m).jobs
    ensures var s := Next(ids, b, m).jobs[ids[i]].state;
            s == b.jobs[ids[i]].state || s == Failed || s in PIPELINE
  {
    if b.pc.Entering? && b.pc.k < |PIPELINE| { assert PIPELINE[b.pc.k] in PIPELINE; }
  }

  lemma OneMoveDecides(ids: seq<string>, b: Batch, m: Move, i: nat)
    requires Inv(ids, b) && i < |ids|
    requires b.jobs[ids[i]].state != Accepted && b.jobs[ids[i]].state != Rejected
    ensures ids[i] in Next(ids, b, m).jobs
    ensures var s := Next(ids, b, m).jobs[ids[i]].state;
            if b.jobs[ids[i]].state == AwaitingReview && OnJobOf(m, ids[i]) then
              IsTerminal(s) && (s == Accepted <==> m.ReviewMove? && m.accept) &&
              (s == Rejected <==> m.ReviewMove? && !m.accept)
            else s != Accepted && s != Rejected
  {
    match m {
      case Worker(_, _, _, _, _, _, _) => WorkerNeverDecides(ids, b, m, i);
      case CancelMove(_, reason, now) => OneStepDecides(b.jobs[ids[i]], CancelOp(reason, now));
      case ReviewMove(_, accept, now) => OneStepDecides(b.jobs[ids[i]], ReviewOp(accept, now));
      case RecordMove(_, what) => RecordingKeepsTheRest(b.jobs[ids[i]], what);
      case Elsewhere(_, _) =>
      case CreateMove(_, _) =>
    }
  }

  /**
    In every interleaving a job of the batch ends up accepted exactly when the first verdict or cancellation attempted
    while it awaits review is a yes, and rejected exactly when that is a no.
  */
  lemma {:induction false} VerdictOfTheUser(ids: seq<string>, b: Batch, moves: seq<Move>, i: nat)
    requires Inv(ids, b) && i < |ids|
    requires b.jobs[ids[i]].state != Accepted && b.jobs[ids[i]].state != Rejected
    ensures ids[i] in Interleave(ids, b, moves).jobs
    ensures var s, d := Interleave(ids, b, moves).jobs[ids[i]].state, DecidingMove(ids, b, moves, ids[i]);
            (s == Accepted <==> d.Some? && d.value.ReviewMove? && d.value.accept) &&
            (s == Rejected <==> d.Some? && d.value.ReviewMove? && !d.value.accept)
    decreases moves
  {
    if moves != [] {
      var b' := Next(ids, b, moves[0]);
      OneMoveDecides(ids, b, moves[0], i);
      NextKeepsInv(ids, b, moves[0]);
      if b.jobs[ids[i]].state == AwaitingReview && OnJobOf(moves[0], ids[i]) {
        FinishedJobsAreKept(ids, b', moves[1..], ids[i]);
      } else {
        VerdictOfTheUser(ids, b', moves[1..], i);
      }
    }
  }

  // ---- Who cancels ----

  // The reason of the first cancellation of job i attempted while it is not over.
  ghost function CancellationOf(ids: seq<string>, b: Batch, moves: seq<Move>, i: nat): Option<string>
    decreases moves
  {
    if moves == [] || i >= |ids| then None
    else if moves[0].CancelMove? && moves[0].id == ids[i] && ids[i] in b.jobs && !IsTerminal(b.jobs[ids[i]].state)
    then Some(moves[0].reason)
    else CancellationOf(ids, Next(ids, b, moves[0]), moves[1..], i)
  }

  ghost predicate ShowsCancellation(j: Job, reason: string) {
    var log := j.checkpoints;
    j.state == Cancelled && j.error == Some(reason) && log != [] &&
    log[|log| - 1].stage == Cancelled && log[|log| - 1].error == Some(reason)
  }

  lemma NotCancelled(ids: seq<string>, b: Batch, m: Move, i: nat)
    requires Inv(ids, b) && i < |ids| && b.jobs[ids[i]].state != Cancelled
    requires !(m.CancelMove? && m.id == ids[i] && !IsTerminal(b.jobs[ids[i]].state))
    ensures ids[i] in Next(ids, b, m).jobs && Next(ids, b, m).jobs[ids[i]].state != Cancelled
  {
    if m.Worker? {
      if Behind(ids, b.pc) != i {
        OthersAreLeft(ids, b, m, i);
      } else if b.pc != Finished {
        WorkerStates(ids, b, m, i);
      }
    } else {
      OthersMove(ids, b, m, i);
      if m.RecordMove? { RecordingKeepsTheRest(b.jobs[ids[i]], m.what); }
    }
  }

  /**
    In every interleaving a job of the batch is cancelled exactly when a cancellation of it was attempted while it was
    not over, and then job and last checkpoint show the reason of the first such attempt.
  */
  lemma {:induction false} CancellationOfTheUser(ids: seq<string>, b: Batch, moves: seq<Move>, i: nat)
    requires Inv(ids, b) && i < |ids| && b.jobs[ids[i]].state != Cancelled
    ensures ids[i] in Interleave(ids, b, moves).jobs
    ensures var j, c := Interleave(ids, b, moves).jobs[ids[i]], CancellationOf(ids, b, moves, i);
            (j.state == Cancelled <==> c.Some?) && (c.Some? ==> ShowsCancellation(j, c.value))
    decreases moves
  {
    if moves != [] {
      var b', j := Next(ids, b, moves[0]), b.jobs[ids[i]];
      NextKeepsInv(ids, b, moves[0]);
      if moves[0].CancelMove? && moves[0].id == ids[i] && !IsTerminal(j.state) {
        OthersMove(ids, b, moves[0], i);
        CancelWrites(j, moves[0].reason, moves[0].now);
        FinishedJobsAreKept(ids, b', moves[1..], ids[i]);
      } else {
        NotCancelled(ids, b, moves[0], i);
        CancellationOfTheUser(ids, b', moves[1..], i);
      }
    }
  }

  // ---- What fails ----

  // With this move the worker records the failure of job i, which has been started and is not over.
  ghost predicate FailsNow(ids: seq<string>, b: Batch, m: Move, i: nat) {
    m.Worker? && b.pc == Failing(i) && i < |ids| && ids[i] in b.jobs &&
    !IsTerminal(b.jobs[ids[i]].state) && b.jobs[ids[i]].state != Queued
  }

  // The error of that move.
  ghost function FailureOf(ids: seq<string>, b: Batch, moves: seq<Move>, i: nat): Option<string>
    decreases moves
  {
    if moves == [] then None
    else if FailsNow(ids, b, moves[0], i) then Some(moves[0].error)
    else FailureOf(ids, Next(ids, b, moves[0]), moves[1..], i)
  }

  // The job shows the error, and so do its last two checkpoints.
  ghost predicate ShowsFailure(j: Job, error: string) {
    var log := j.checkpoints;
    j.state == Failed && j.error == Some(error) && |log| >= 2 &&
    log[|log| - 1].stage == Failed && log[|log| - 1].error == Some(error) && log[|log| - 2].error == Some(error)
  }

  lemma FailureIsShown(j: Job, es: seq<Entry>, error: string, now: nat)
    requires Carries(j, es) && CanTransitionTo(j.state, Failed)
    ensures ShowsFailure(Step(j, AdvanceOp(Failed, None, None, Some(error), now)), error)
  {
    AdvanceHandsOn(j, AdvanceOp(Failed, None, None, Some(error), now));
  }

  lemma NotFailed(ids: seq<string>, b: Batch, m: Move, i: nat)
    requires Inv(ids, b) && i < |ids| && b.jobs[ids[i]].state != Failed && !FailsNow(ids, b, m, i)
    ensures ids[i] in Next(ids, b, m).jobs && Next(ids, b, m).jobs[ids[i]].state != Failed
  {
    match m {
      case Worker(_, _, _, _, _, _, _) =>
        if Behind(ids, b.pc) != i { OthersAreLeft(ids, b, m, i); } else { WorkerFailsOnlyThere(ids, b, m, i); }
      case RecordMove(_, what) => RecordingKeepsTheRest(b.jobs[ids[i]], what);
      case CancelMove(_, reason, now) => UserOnState(b.jobs[ids[i]], CancelOp(reason, now));
      case ReviewMove(_, accept, now) => UserOnState(b.jobs[ids[i]], ReviewOp(accept, now));
      case _ =>
    }
  }

  lemma WorkerFailsOnlyThere(ids: seq<string>, b: Batch, m: Move, i: nat)
    requires Inv(ids, b) && i < |ids| && m.Worker? && Behind(ids, b.pc) == i && b.jobs[ids[i]].state != Failed
    requires !FailsNow(ids, b, m, i)
    ensures ids[i] in Next(ids, b, m).jobs && Next(ids, b, m).jobs[ids[i]].state != Failed
  {
    if b.pc.Entering? && b.pc.k < |PIPELINE| { PipelineIsAPath(b.pc.k); }
  }

  lemma NowFailed(ids: seq<string>, b: Batch, m: Move, i: nat, es: seq<Entry>)
    requires Inv(ids, b) && i < |ids| && FailsNow(ids, b, m, i) && Carries(b.jobs[ids[i]], es)
    ensures ids[i] in Next(ids, b, m).jobs && ShowsFailure(Next(ids, b, m).jobs[ids[i]], m.error)
  {
    FailingMove(ids, b, m, i);
    FailureIsShown(b.jobs[ids[i]], es, m.error, m.now);
  }

  lemma FailingMove(ids: seq<string>, b: Batch, m: Move, i: nat)
    requires Inv(ids, b) && i < |ids| && FailsNow(ids, b, m, i)
    ensures ids[i] in Next(ids, b, m).jobs && CanTransitionTo(b.jobs[ids[i]].state, Failed)
    ensures Next(ids, b, m).jobs[ids[i]] ==
            Step(b.jobs[ids[i]], AdvanceOp(Failed, None, None, Some(m.error), m.now))
  {
  }

  lemma {:induction false} FailureOfTheWorkerFrom(ids: seq<string>, b: Batch, moves: seq<Move>, i: nat, es: seq<Entry>)
    requires Inv(ids, b) && i < |ids| && Carries(b.jobs[ids[i]], es) && b.jobs[ids[i]].state != Failed
    ensures ids[i] in Interleave(ids, b, moves).jobs
    ensures var j, f := Interleave(ids, b, moves).jobs[ids[i]], FailureOf(ids, b, moves, i);
            (j.state == Failed <==> f.Some?) && (f.Some? ==> ShowsFailure(j, f.value))
    decreases moves
  {
    if moves != [] {
      var b' := Next(ids, b, moves[0]);
      NextKeepsInv(ids, b, moves[0]);
      if FailsNow(ids, b, moves[0], i) {
        NowFailed(ids, b, moves[0], i, es);
        FinishedJobsAreKept(ids, b', moves[1..], ids[i]);
      } else {
        NotFailed(ids, b, moves[0], i);
        OneMoveFiles(ids, b, moves[0], i, es);
        FailureOfTheWorkerFrom(ids, b', moves[1..], i, es + EntryOf(ids, b, moves[0], i));
      }
    }
  }

  /**
    In every interleaving a job of the batch is failed exactly when the worker recorded a failure of it while it was
    at work on it, and then job, last checkpoint and the stage that broke show the error of that move.
  */
  lemma FailureOfTheWorker(ids: seq<string>, b: Batch, moves: seq<Move>, i: nat)
    requires Started(ids, b) && i < |ids| && Fresh(b.jobs[ids[i]])
    ensures ids[i] in Interleave(ids, b, moves).jobs
    ensures var j, f := Interleave(ids, b, moves).jobs[ids[i]], FailureOf(ids, b, moves, i);
            (j.state == Failed <==> f.Some?) && (f.Some? ==> ShowsFailure(j, f.value))
  {
    assert Inv(ids, b);
    assert Carries(b.jobs[ids[i]], []);
    FailureOfTheWorkerFrom(ids, b, moves, i, []);
  }

  // ---- How a job ends ----

  // A computation of the worker on job i goes wrong: the validation, or a stage behind the first.
  ghost predicate BreaksNow(b: Batch, m: Move, i: nat) {
    m.Worker? && !m.ok && (b.pc == Marking(i) || (b.pc.Entering? && b.pc.i == i && b.pc.k > 0))
  }

  ghost predicate Breaks(ids: seq<string>, b: Batch, moves: seq<Move>, i: nat)
    decreases moves
  {
    moves != [] && (BreaksNow(b, moves[0], i) || Breaks(ids, Next(ids, b, moves[0]), moves[1..], i))
  }

  // Where an uncancelled job stands: broken jobs are failed or about to be, unresolved ones stay queued.
  ghost predicate Standing(ids: seq<string>, b: Batch, i: nat, broken: bool)
    requires i < |ids| && ids[i] in b.jobs
  {
    var s := b.jobs[ids[i]].state;
    UnresolvedIsQueued(ids, b, i) && s != Cancelled &&
    (broken <==> s == Failed || (b.pc == Failing(i) && ids[i] !in b.unresolved))
  }

  ghost predicate UnresolvedIsQueued(ids: seq<string>, b: Batch, i: nat)
    requires i < |ids| && ids[i] in b.jobs
  {
    ids[i] in b.unresolved ==>
      b.jobs[ids[i]].state == Queued && (i < Behind(ids, b.pc) || b.pc == Failing(i))
  }

  lemma OneMoveStands(ids: seq<string>, b: Batch, m: Move, i: nat, broken: bool)
    requires Inv(ids, b) && i < |ids| && Standing(ids, b, i, broken) && !(m.CancelMove? && m.id == ids[i])
    ensures ids[i] in Next(ids, b, m).jobs && Standing(ids, Next(ids, b, m), i, broken || BreaksNow(b, m, i))
  {
    match m {
      case Worker(_, _, _, _, _, _, _) => WorkerStands(ids, b, m, i, broken);
      case RecordMove(_, what) => if m.id == ids[i] { RecordingKeepsTheRest(b.jobs[ids[i]], what); }
      case ReviewMove(_, accept, now) => UserOnState(b.jobs[ids[i]], ReviewOp(accept, now));
      case _ =>
    }
  }

  lemma WorkerStands(ids: seq<string>, b: Batch, m: Move, i: nat, broken: bool)
    requires Inv(ids, b) && i < |ids| && Standing(ids, b, i, broken) && m.Worker?
    ensures ids[i] in Next(ids, b, m).jobs && Standing(ids, Next(ids, b, m), i, broken || BreaksNow(b, m, i))
  {
    var n := Behind(ids, b.pc);
    if n != i {
      OthersAreLeft(ids, b, m, i);
      if n < |ids| {
        CurrentJobMoves(ids, b, m);
        assert ids[n] != ids[i];
      }
    } else {
      CurrentStands(ids, b, m, i, broken);
    }
  }

  lemma CurrentStands(ids: seq<string>, b: Batch, m: Move, i: nat, broken: bool)
    requires Inv(ids, b) && i < |ids| && Standing(ids, b, i, broken) && m.Worker? && Behind(ids, b.pc) == i
    ensures ids[i] in Next(ids, b, m).jobs && Standing(ids, Next(ids, b, m), i, broken || BreaksNow(b, m, i))
  {
    var j := b.jobs[ids[i]];
    if b.pc.Entering? {
      EnteringSucceedsUnlessOver(j, b.pc.k, m);
      PipelineIsAPath(b.pc.k);
    }
  }

  lemma {:induction false} UncancelledStands(ids: seq<string>, b: Batch, moves: seq<Move>, i: nat, broken: bool)
    requires Inv(ids, b) && i < |ids| && Standing(ids, b, i, broken) && !CancelledIn(moves, ids[i])
    ensures ids[i] in Interleave(ids, b, moves).jobs
    ensures Standing(ids, Interleave(ids, b, moves), i, broken || Breaks(ids, b, moves, i))
    decreases moves
  {
    if moves != [] {
      OneMoveStands(ids, b, moves[0], i, broken);
      NextKeepsInv(ids, b, moves[0]);
      assert forall k :: 0 <= k < |moves| - 1 ==> moves[1..][k] == moves[k + 1];
      UncancelledStands(ids, Next(ids, b, moves[0]), moves[1..], i, broken || BreaksNow(b, moves[0], i));
    }
  }

  /**
    How a job that the user does not cancel ends, told from the worker's computations: in a finished batch it is
    queued exactly if its configuration did not resolve, failed exactly if its validation or a stage broke, and in
    every other case all nine stages have been entered and it awaits review or has its verdict.
  */
  lemma UncancelledJobEnds(ids: seq<string>, b: Batch, moves: seq<Move>, i: nat)
    requires Started(ids, b) && i < |ids| && Fresh(b.jobs[ids[i]])
    requires Interleave(ids, b, moves).pc == Finished && !CancelledIn(moves, ids[i])
    ensures ids[i] in Interleave(ids, b, moves).jobs
    ensures var s := Interleave(ids, b, moves).jobs[ids[i]].state;
            (s == Queued <==> ResolveFails(ids, b, moves, i)) && (s == Failed <==> Breaks(ids, b, moves, i)) &&
            (!ResolveFails(ids, b, moves, i) && !Breaks(ids, b, moves, i) ==>
              |Entered(ids, b, moves, i)| == |PIPELINE| && (s == AwaitingReview || s == Accepted || s == Rejected))
  {
    assert Inv(ids, b) && Standing(ids, b, i, false);
    LeftQueuedIff(ids, b, moves, i);
    UncancelledStands(ids, b, moves, i, false);
    FinishedBatch(ids, b, moves, i);
    LogCarriesTheMoves(ids, b, moves, i);
  }

  // ---- When a batch is healthy ----

  // With this move the worker gives job i up.
  ghost predicate GivesUp(ids: seq<string>, b: Batch, m: Move, i: nat) {
    m.Worker? && i < |ids| && ids[i] in b.jobs &&
    match b.pc
    case Resolving(n) => n == i && !m.ok
    case Marking(n) => n == i && !m.ok
    case Entering(n, k) => n == i && ((!m.ok && k > 0) || IsTerminal(b.jobs[ids[i]].state))
    case _ => false
  }

  // It does so with some job somewhere among the moves.
  ghost predicate AnyGivenUp(ids: seq<string>, b: Batch, moves: seq<Move>)
    decreases moves
  {
    moves != [] && ((exists i: nat :: GivesUp(ids, b, moves[0], i)) ||
                    AnyGivenUp(ids, Next(ids, b, moves[0]), moves[1..]))
  }

  ghost predicate Unwell(b: Batch) {
    !b.healthy || b.pc.Failing?
  }

  lemma OneMoveUnwell(ids: seq<string>, b: Batch, m: Move)
    requires Inv(ids, b)
    ensures Unwell(Next(ids, b, m)) <==> Unwell(b) || exists i: nat :: GivesUp(ids, b, m, i)
  {
    if m.Worker? && b.pc != Finished && b.pc.i < |ids| {
      var i := b.pc.i;
      var given := GivesUp(ids, b, m, i);
      if b.pc.Entering? { EnteringSucceedsUnlessOver(b.jobs[ids[i]], b.pc.k, m); }
    }
  }

  lemma {:induction false} UnwellIff(ids: seq<string>, b: Batch, moves: seq<Move>)
    requires Inv(ids, b)
    ensures Unwell(Interleave(ids, b, moves)) <==> Unwell(b) || AnyGivenUp(ids, b, moves)
    decreases moves
  {
    if moves != [] {
      OneMoveUnwell(ids, b, moves[0]);
      NextKeepsInv(ids, b, moves[0]);
      UnwellIff(ids, Next(ids, b, moves[0]), moves[1..]);
    }
  }

  /**
    A finished batch is healthy exactly when the worker gave no job up: every configuration resolved and every
    computation went well for the jobs it started, and none of them was cancelled under its hands.
  */
  lemma HealthyIff(ids: seq<string>, b: Batch, moves: seq<Move>)
    requires Started(ids, b) && Interleave(ids, b, moves).pc == Finished
    ensures Interleave(ids, b, moves).healthy <==> !AnyGivenUp(ids, b, moves)
  {
    assert Inv(ids, b);
    UnwellIff(ids, b, moves);
  }

  // ---- Jobs the worker never starts ----

  ghost predicate GivenUp(ids: seq<string>, b: Batch, moves: seq<Move>, i: nat)
    decreases moves
  {
    moves != [] && (GivesUp(ids, b, moves[0], i) || GivenUp(ids, Next(ids, b, moves[0]), moves[1..], i))
  }

  // Job i is over and the worker has not gone past looking at it.
  ghost predicate OverBeforehand(ids: seq<string>, b: Batch, i: nat) {
    i < |ids| && ids[i] in b.jobs && IsTerminal(b.jobs[ids[i]].state) &&
    (Behind(ids, b.pc) == i ==> b.pc.Checking?)
  }

  lemma StaysOverBeforehand(ids: seq<string>, b: Batch, m: Move, i: nat)
    requires Inv(ids, b) && OverBeforehand(ids, b, i)
    ensures OverBeforehand(ids, Next(ids, b, m), i) && !GivesUp(ids, b, m, i) && !Enters(ids, b, m, i)
  {
    OneMoveIsLater(ids, b, m, ids[i]);
    var n := Behind(ids, b.pc);
    if m.Worker? && n < |ids| { CurrentJobMoves(ids, b, m); }
  }

  /** A job that is over when the worker comes to it is passed over: it is never started and never given up. */
  lemma {:induction false} OverIsPassedOver(ids: seq<string>, b: Batch, moves: seq<Move>, i: nat)
    requires Inv(ids, b) && OverBeforehand(ids, b, i)
    ensures Entered(ids, b, moves, i) == [] && !GivenUp(ids, b, moves, i)
    decreases moves
  {
    if moves != [] {
      StaysOverBeforehand(ids, b, moves[0], i);
      NextKeepsInv(ids, b, moves[0]);
      OverIsPassedOver(ids, Next(ids, b, moves[0]), moves[1..], i);
    }
  }
}
