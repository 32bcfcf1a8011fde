/**
  The surface continuation driver: an asynchronous loop with generations and abort
  handles, as the interleaving of its steps between awaits.
*/
module SurfaceDriver {
  import opened Wrappers

  datatype Limits = Limits(maxContinuations: int, deadlineMs: int)

  datatype Identity = Identity(pluginId: string, pluginVersion: string, sessionId: Option<string>,
                               surfaceIds: seq<string>)

  datatype Continuation = Continuation(actionId: string, cursor: string)

  // What the envelope parser makes of a result.
  datatype Parsed = NoContinuation | Malformed | Continue(next: Continuation)

  datatype Failure = Invalid | Limit | Deadline | Rejected

  // Where a run waits, or how it ended.
  datatype Place =
    | Yielding(next: Continuation, remainingMs: int)
    | Dispatching
    | Returned(result: nat)
    | Threw(why: Failure)

  datatype Dispatch = Dispatch(identity: Identity, continuation: Continuation, remainingMs: int)

  // One call of start. Its position in the list stands for its abort handle too.
  datatype Run = Run(
    identity: Identity,
    generation: nat,
    aborted: bool,
    deadline: int,
    count: nat,
    place: Place,
    dispatches: seq<Dispatch>,
    results: seq<Parsed>
  ) {
    predicate Live() {
      place.Yielding? || place.Dispatching?
    }

    // A dispatch is out whose signal is not aborted.
    predicate InFlight() {
      place.Dispatching? && !aborted
    }
  }

  datatype State = State(generation: nat, active: Option<nat>, runs: seq<Run>)

  datatype Event =
    | Start(identity: Identity, first: Parsed, started: int, now: int)
    | Cancel
    | YieldDone(k: nat)
    | DispatchDone(k: nat, result: Parsed, at: int)
    | Failed(k: nat)

  // ---- The steps ----

  function Cancelled(s: State): State {
    State(s.generation + 1, None,
          if s.active.Some? && s.active.value < |s.runs|
          then s.runs[s.active.value := s.runs[s.active.value].(aborted := true)] else s.runs)
  }

  // The loop from its condition to the next await, the return or the throw.
  function AfterResult(limits: Limits, generation: nat, r: Run, result: Parsed, now: int): Run {
    if r.generation != generation || r.aborted then r.(place := Returned(r.count))
    else
      match result
      case NoContinuation => r.(place := Returned(r.count))
      case Malformed => r.(place := Threw(Invalid))
      case Continue(next) =>
        if r.count >= limits.maxContinuations then r.(place := Threw(Limit))
        else if r.deadline - now <= 0 then r.(place := Threw(Deadline))
        else r.(place := Yielding(next, r.deadline - now))
  }

  // Putting run k back; one that has ended gives up the active handle.
  function Put(s: State, k: nat, r: Run): State
    requires k < |s.runs|
  {
    State(s.generation, if !r.Live() && s.active == Some(k) then None else s.active, s.runs[k := r])
  }

  // What an event does; one that does not apply where its run waits changes nothing.
  function Step(limits: Limits, s: State, e: Event): State {
    match e
    case Cancel => Cancelled(s)
    case Start(identity, first, started, now) =>
      var c := Cancelled(s);
      var r := Run(identity, c.generation, false, started + limits.deadlineMs, 0, Dispatching, [], [first]);
      var k := |c.runs|;
      Put(State(c.generation, Some(k), c.runs + [r]), k, AfterResult(limits, c.generation, r, first, now))
    case YieldDone(k) =>
      if k >= |s.runs| || !s.runs[k].place.Yielding? then s
      else
        var r := s.runs[k];
        if r.generation != s.generation || r.aborted then Put(s, k, r.(place := Returned(r.count)))
        else Put(s, k, r.(place := Dispatching,
                          dispatches := r.dispatches + [Dispatch(r.identity, r.place.next, r.place.remainingMs)]))
    case DispatchDone(k, result, at) =>
      if k >= |s.runs| || !s.runs[k].place.Dispatching? then s
      else
        var r := s.runs[k].(count := s.runs[k].count + 1, results := s.runs[k].results + [result]);
        Put(s, k, AfterResult(limits, s.generation, r, result, at))
    case Failed(k) =>
      if k >= |s.runs| || !s.runs[k].Live() then s
      else Put(s, k, s.runs[k].(place := Threw(Rejected)))
  }

  const INITIAL: State := State(0, None, [])

  function After(limits: Limits, s: State, events: seq<Event>): State
    decreases events
  {
    if events == [] then s else After(limits, Step(limits, s, events[0]), events[1..])
  }

  /** The driver's own variables, updated by start and cancel and by each run between its awaits. */
  class Driver {
    const limits: Limits
    var generation: nat
    var active: Option<nat>
    var runs: seq<Run>

    constructor (limits: Limits)
      ensures this.limits == limits && View() == INITIAL
    {
      this.limits := limits;
      generation, active, runs := 0, None, [];
    }

    function View(): State
      reads this
    {
      State(generation, active, runs)
    }

    method CancelRuns()
      modifies this
      ensures View() == Step(limits, old(View()), Cancel)
    {
      generation := generation + 1;
      if active.Some? && active.value < |runs| {
        runs := runs[active.value := runs[active.value].(aborted := true)];
      }
      active := None;
    }

    // From the loop condition on, for run k.
    method Proceed(k: nat, result: Parsed, now: int)
      requires k < |runs|
      modifies this
      ensures View() == Put(old(View()), k, AfterResult(limits, old(generation), old(runs)[k], result, now))
    {
      var r := runs[k];
      if r.generation != generation || r.aborted || result.NoContinuation? {
        Finish(k, Returned(r.count));
      } else if result.Malformed? {
        Finish(k, Threw(Invalid));
      } else if r.count >= limits.maxContinuations {
        Finish(k, Threw(Limit));
      } else {
        var remainingMs := r.deadline - now;
        if remainingMs <= 0 {
          Finish(k, Threw(Deadline));
        } else {
          runs := runs[k := r.(place := Yielding(result.next, remainingMs))];
        }
      }
    }

    // The finally block.
    method Finish(k: nat, how: Place)
      requires k < |runs| && (how.Returned? || how.Threw?)
      modifies this
      ensures View() == Put(old(View()), k, old(runs)[k].(place := how))
    {
      runs := runs[k := runs[k].(place := how)];
      if active == Some(k) { active := None; }
    }

    method StartRun(identity: Identity, first: Parsed, started: int, now: int) returns (k: nat)
      modifies this
      ensures View() == Step(limits, old(View()), Start(identity, first, started, now))
      ensures k == |old(runs)| < |runs|
    {
      CancelRuns();
      k := |runs|;
      runs := runs + [Run(identity, generation, false, started + limits.deadlineMs, 0, Dispatching, [], [first])];
      active := Some(k);
      Proceed(k, first, now);
    }

    method OnYield(k: nat)
      modifies this
      ensures View() == Step(limits, old(View()), YieldDone(k))
    {
      if k >= |runs| || !runs[k].place.Yielding? { return; }
      var r := runs[k];
      if r.generation != generation || r.aborted {
        Finish(k, Returned(r.count));
      } else {
        runs := runs[k := r.(place := Dispatching,
                             dispatches := r.dispatches + [Dispatch(r.identity, r.place.next, r.place.remainingMs)])];
      }
    }

    method OnDispatch(k: nat, result: Parsed, at: int)
      modifies this
      ensures View() == Step(limits, old(View()), DispatchDone(k, result, at))
    {
      if k >= |runs| || !runs[k].place.Dispatching? { return; }
      runs := runs[k := runs[k].(count := runs[k].count + 1, results := runs[k].results + [result])];
      Proceed(k, result, at);
    }

    method OnFailure(k: nat)
      modifies this
      ensures View() == Step(limits, old(View()), Failed(k))
    {
      if k < |runs| && runs[k].Live() { Finish(k, Threw(Rejected)); }
    }
  }

  // ---- What every interleaving keeps ----

  // The run that may still act: the active one.
  predicate Current(s: State, k: nat) {
    s.active == Some(k)
  }

  ghost predicate ActiveIsLast(s: State) {
    s.active.Some? ==>
      s.active.value + 1 == |s.runs| &&
      var r := s.runs[s.active.value]; r.Live() && !r.aborted && r.generation == s.generation
  }

  // A run that waits without being current has been aborted, and its generation is over.
  ghost predicate OthersAborted(s: State) {
    forall k :: 0 <= k < |s.runs| && s.runs[k].Live() && !Current(s, k) ==>
      s.runs[k].aborted && s.runs[k].generation < s.generation
  }

  ghost predicate Ordered(s: State) {
    (forall k :: 0 <= k < |s.runs| ==> s.runs[k].generation <= s.generation) &&
    forall j, k :: 0 <= j < k < |s.runs| ==> s.runs[j].generation < s.runs[k].generation
  }

  // The accounts of one run: every dispatch carries the continuation of the result before it.
  ghost predicate Accounts(limits: Limits, r: Run) {
    |r.results| == r.count + 1 &&
    (r.place.Yielding? ==>
       |r.dispatches| == r.count < limits.maxContinuations && r.place.remainingMs > 0 &&
       r.results[r.count] == Continue(r.place.next)) &&
    (r.place.Dispatching? ==> |r.dispatches| == r.count + 1) &&
    (r.place.Returned? ==> r.place.result == r.count == |r.dispatches|) &&
    (r.place.Threw? ==> r.count <= |r.dispatches| <= r.count + 1) &&
    (|r.dispatches| == 0 || |r.dispatches| <= limits.maxContinuations) &&
    forall i :: 0 <= i < |r.dispatches| ==>
      r.dispatches[i].identity == r.identity && r.dispatches[i].remainingMs > 0 &&
      r.results[i] == Continue(r.dispatches[i].continuation)
  }

  ghost predicate Inv(limits: Limits, s: State) {
    ActiveIsLast(s) && OthersAborted(s) && Ordered(s) && forall k :: 0 <= k < |s.runs| ==> Accounts(limits, s.runs[k])
  }

  lemma CancelKeepsInv(limits: Limits, s: State)
    requires Inv(limits, s)
    ensures Inv(limits, Cancelled(s)) && forall k :: 0 <= k < |s.runs| ==>
            Cancelled(s).runs[k].generation < Cancelled(s).generation
  {
    var c := Cancelled(s);
    forall k | 0 <= k < |c.runs| ensures Accounts(limits, c.runs[k]) {
      assert Accounts(limits, s.runs[k]);
    }
  }

  lemma AfterResultAccounts(limits: Limits, generation: nat, r: Run, result: Parsed, now: int)
    requires |r.results| == r.count + 1 && r.results[r.count] == result && |r.dispatches| == r.count
    requires |r.dispatches| == 0 || |r.dispatches| <= limits.maxContinuations
    requires forall i :: 0 <= i < |r.dispatches| ==>
      r.dispatches[i].identity == r.identity && r.dispatches[i].remainingMs > 0 &&
      r.results[i] == Continue(r.dispatches[i].continuation)
    ensures Accounts(limits, AfterResult(limits, generation, r, result, now))
  {
  }

  lemma PutKeepsInv(limits: Limits, s: State, k: nat, r: Run)
    requires Inv(limits, s) && k < |s.runs| && s.runs[k].Live()
    requires Accounts(limits, r) && r.generation == s.runs[k].generation && r.aborted == s.runs[k].aborted
    ensures Inv(limits, Put(s, k, r))
  {
  }

  lemma StartKeepsInv(limits: Limits, s: State, identity: Identity, first: Parsed, started: int, now: int)
    requires Inv(limits, s)
    ensures Inv(limits, Step(limits, s, Start(identity, first, started, now)))
  {
    CancelKeepsInv(limits, s);
    var c := Cancelled(s);
    var r := Run(identity, c.generation, false, started + limits.deadlineMs, 0, Dispatching, [], [first]);
    var done := AfterResult(limits, c.generation, r, first, now);
    AfterResultAccounts(limits, c.generation, r, first, now);
    var t := Put(State(c.generation, Some(|c.runs|), c.runs + [r]), |c.runs|, done);
    assert t.runs == c.runs + [done];
    assert t == Step(limits, s, Start(identity, first, started, now));
  }

  lemma YieldKeepsInv(limits: Limits, s: State, k: nat)
    requires Inv(limits, s) && k < |s.runs| && s.runs[k].place.Yielding?
    ensures Inv(limits, Step(limits, s, YieldDone(k)))
  {
    var r := s.runs[k];
    assert Accounts(limits, r);
    if r.generation != s.generation || r.aborted {
      PutKeepsInv(limits, s, k, r.(place := Returned(r.count)));
    } else {
      PutKeepsInv(limits, s, k, r.(place := Dispatching,
        dispatches := r.dispatches + [Dispatch(r.identity, r.place.next, r.place.remainingMs)]));
    }
  }

  lemma DispatchKeepsInv(limits: Limits, s: State, k: nat, result: Parsed, at: int)
    requires Inv(limits, s) && k < |s.runs| && s.runs[k].place.Dispatching?
    ensures Inv(limits, Step(limits, s, DispatchDone(k, result, at)))
  {
    assert Accounts(limits, s.runs[k]);
    var r := s.runs[k].(count := s.runs[k].count + 1, results := s.runs[k].results + [result]);
    AfterResultAccounts(limits, s.generation, r, result, at);
    PutKeepsInv(limits, s, k, AfterResult(limits, s.generation, r, result, at));
  }

  lemma FailureKeepsInv(limits: Limits, s: State, k: nat)
    requires Inv(limits, s) && k < |s.runs| && s.runs[k].Live()
    ensures Inv(limits, Step(limits, s, Failed(k)))
  {
    assert Accounts(limits, s.runs[k]);
    PutKeepsInv(limits, s, k, s.runs[k].(place := Threw(Rejected)));
  }

  lemma StepKeepsInv(limits: Limits, s: State, e: Event)
    requires Inv(limits, s)
    ensures Inv(limits, Step(limits, s, e))
  {
    if Step(limits, s, e) != s {
      match e {
        case Cancel => CancelKeepsInv(limits, s);
        case Start(identity, first, started, now) => StartKeepsInv(limits, s, identity, first, started, now);
        case YieldDone(k) => YieldKeepsInv(limits, s, k);
        case DispatchDone(k, result, at) => DispatchKeepsInv(limits, s, k, result, at);
        case Failed(k) => FailureKeepsInv(limits, s, k);
      }
    }
  }

  lemma {:induction false} AfterKeepsInv(limits: Limits, s: State, events: seq<Event>)
    requires Inv(limits, s)
    ensures Inv(limits, After(limits, s, events))
    decreases events
  {
    if events != [] {
      StepKeepsInv(limits, s, events[0]);
      AfterKeepsInv(limits, Step(limits, s, events[0]), events[1..]);
    }
  }

  /**
    In every interleaving: at most one dispatch in flight carries an un-aborted signal, no run
    issues more than maxContinuations dispatches, and a run that returns says how many it completed.
  */
  lemma EveryInterleaving(limits: Limits, events: seq<Event>)
    ensures var s := After(limits, INITIAL, events);
            (forall j, k :: 0 <= j < |s.runs| && 0 <= k < |s.runs| && s.runs[j].InFlight() && s.runs[k].InFlight() ==>
             j == k) &&
            (forall k :: 0 <= k < |s.runs| && limits.maxContinuations >= 0 ==>
             |s.runs[k].dispatches| <= limits.maxContinuations) &&
            (forall k :: 0 <= k < |s.runs| && s.runs[k].place.Returned? ==>
              s.runs[k].place.result == |s.runs[k].dispatches| && |s.runs[k].results| == s.runs[k].place.result + 1)
  {
    AfterKeepsInv(limits, INITIAL, events);
    var s := After(limits, INITIAL, events);
    forall k | 0 <= k < |s.runs| ensures Accounts(limits, s.runs[k]) {
    }
  }

  /**
    Each dispatch of each run carries the run's fixed identity, the continuation of the result before it, and time
    left.
  */
  lemma DispatchesFollowResults(limits: Limits, events: seq<Event>, k: nat, i: nat)
    requires k < |After(limits, INITIAL, events).runs| && i < |After(limits, INITIAL, events).runs[k].dispatches|
    ensures var r := After(limits, INITIAL, events).runs[k];
            r.dispatches[i].identity == r.identity && r.dispatches[i].remainingMs > 0 &&
            i < |r.results| && r.results[i] == Continue(r.dispatches[i].continuation)
  {
    AfterKeepsInv(limits, INITIAL, events);
    assert Accounts(limits, After(limits, INITIAL, events).runs[k]);
  }

  lemma BystandersStay(limits: Limits, s: State, e: Event, k: nat)
    requires Inv(limits, s) && k < |s.runs| && !Current(s, k)
    ensures var t := Step(limits, s, e);
            k < |t.runs| && !Current(t, k) &&
            t.runs[k].dispatches == s.runs[k].dispatches && t.runs[k].aborted == s.runs[k].aborted &&
            (!s.runs[k].Live() ==> t.runs[k] == s.runs[k])
  {
  }

  /** A run that is not current, whether superseded, cancelled or over, never issues another dispatch. */
  lemma {:induction false} SupersededNeverDispatches(limits: Limits, s: State, events: seq<Event>, k: nat)
    requires Inv(limits, s) && k < |s.runs| && !Current(s, k)
    ensures var t := After(limits, s, events);
            k < |t.runs| && !Current(t, k) &&
            t.runs[k].dispatches == s.runs[k].dispatches && t.runs[k].aborted == s.runs[k].aborted &&
            (!s.runs[k].Live() ==> t.runs[k] == s.runs[k])
    decreases events
  {
    if events != [] {
      BystandersStay(limits, s, events[0], k);
      StepKeepsInv(limits, s, events[0]);
      SupersededNeverDispatches(limits, Step(limits, s, events[0]), events[1..], k);
    }
  }

  /** A start or a cancel is the end of every earlier run's dispatching, and aborts those still waiting. */
  lemma StartAndCancelSupersede(limits: Limits, s: State, e: Event, events: seq<Event>, k: nat)
    requires Inv(limits, s) && (e.Start? || e.Cancel?) && k < |s.runs|
    ensures var t := After(limits, Step(limits, s, e), events);
            k < |t.runs| && t.runs[k].dispatches == s.runs[k].dispatches && (s.runs[k].Live() ==> t.runs[k].aborted)
  {
    StepKeepsInv(limits, s, e);
    var u := Step(limits, s, e);
    assert k < |u.runs| && !Current(u, k) && u.runs[k].dispatches == s.runs[k].dispatches;
    assert s.runs[k].Live() ==> u.runs[k].aborted;
    SupersededNeverDispatches(limits, u, events, k);
  }

  // ---- Runs come to an end ----

  // How many more of its own steps a waiting run can take.
  function StepsLeft(limits: Limits, r: Run): int {
    if r.place.Yielding? then 2 * (limits.maxContinuations - r.count)
    else if r.place.Dispatching? then
      if limits.maxContinuations > r.count then 2 * (limits.maxContinuations - r.count) - 1 else 1
    else 0
  }

  // The event is a step of run k: it resumes the run where the run waits.
  predicate IsOwnStep(s: State, e: Event, k: nat) {
    k < |s.runs| &&
    match e
    case YieldDone(j) => j == k && s.runs[k].place.Yielding?
    case DispatchDone(j, _, _) => j == k && s.runs[k].place.Dispatching?
    case Failed(j) => j == k && s.runs[k].Live()
    case _ => false
  }

  function OwnSteps(limits: Limits, s: State, events: seq<Event>, k: nat): nat
    decreases events
  {
    if events == [] then 0
    else (if IsOwnStep(s, events[0], k) then 1 else 0) + OwnSteps(limits, Step(limits, s, events[0]), events[1..], k)
  }

  // All the steps a run may take: a yield and a dispatch for every continuation.
  function Budget(limits: Limits): nat {
    if limits.maxContinuations > 0 then 2 * limits.maxContinuations else 0
  }

  // A run that has not started has its whole budget.
  function Potential(limits: Limits, s: State, k: nat): int {
    if k < |s.runs| then StepsLeft(limits, s.runs[k]) else Budget(limits)
  }

  lemma StepsLeftIff(limits: Limits, s: State, k: nat)
    requires Inv(limits, s) && k < |s.runs|
    ensures StepsLeft(limits, s.runs[k]) >= 0 && (StepsLeft(limits, s.runs[k]) == 0 <==> !s.runs[k].Live())
  {
    assert Accounts(limits, s.runs[k]);
  }

  // No step sets a run back, and each of its own brings it nearer to its end.
  lemma OneStepNearer(limits: Limits, s: State, e: Event, k: nat)
    requires Inv(limits, s)
    ensures Potential(limits, Step(limits, s, e), k) + (if IsOwnStep(s, e, k) then 1 else 0) <= Potential(limits, s, k)
  {
    if k < |s.runs| { assert Accounts(limits, s.runs[k]); }
  }

  lemma {:induction false} StepsAreSpent(limits: Limits, s: State, events: seq<Event>, k: nat)
    requires Inv(limits, s)
    ensures OwnSteps(limits, s, events, k) + Potential(limits, After(limits, s, events), k) <= Potential(limits, s, k)
    decreases events
  {
    if events != [] {
      OneStepNearer(limits, s, events[0], k);
      StepKeepsInv(limits, s, events[0]);
      StepsAreSpent(limits, Step(limits, s, events[0]), events[1..], k);
    }
  }

  /**
    Runs come to an end.  In every interleaving a run takes at most two steps per continuation it is
    allowed, whatever the other runs, starts and cancels do, and one that has taken them all is over.
  */
  lemma RunsComeToAnEnd(limits: Limits, events: seq<Event>, k: nat)
    ensures var end := After(limits, INITIAL, events);
            OwnSteps(limits, INITIAL, events, k) <= Budget(limits) &&
            (k < |end.runs| && OwnSteps(limits, INITIAL, events, k) == Budget(limits) ==> !end.runs[k].Live())
  {
    StepsAreSpent(limits, INITIAL, events, k);
    AfterKeepsInv(limits, INITIAL, events);
    var end := After(limits, INITIAL, events);
    if k < |end.runs| { StepsLeftIff(limits, end, k); }
  }

  /** The step a waiting run waits for always ends it or sets it going: nothing but its own steps does. */
  lemma WaitingEndsByOwnSteps(limits: Limits, s: State, e: Event, k: nat)
    requires Inv(limits, s) && k < |s.runs| && s.runs[k].Live()
    ensures k < |Step(limits, s, e).runs|
    ensures Step(limits, s, e).runs[k].place != s.runs[k].place <==> IsOwnStep(s, e, k)
  {
    assert Accounts(limits, s.runs[k]);
  }

  // ---- How runs go on and end, told from their results ----

  // The result before the place where the run stands.
  function LastResult(r: Run): Parsed
    requires r.results != []
  {
    r.results[|r.results| - 1]
  }

  // Why a run of generation g, the driver being at `generation`, stands where it stands.
  ghost predicate Reason(limits: Limits, generation: nat, r: Run) {
    r.results != [] &&
    match r.place
    case Yielding(next, remainingMs) =>
      LastResult(r) == Continue(next) && r.count < limits.maxContinuations && 0 < remainingMs
    case Dispatching =>
      r.dispatches != [] && LastResult(r) == Continue(r.dispatches[|r.dispatches| - 1].continuation)
    case Returned(_) => LastResult(r).NoContinuation? || r.aborted || r.generation < generation
    case Threw(Invalid) => LastResult(r).Malformed?
    case Threw(Limit) => LastResult(r).Continue? && r.count >= limits.maxContinuations
    case Threw(Deadline) => LastResult(r).Continue? && r.count < limits.maxContinuations
    case Threw(Rejected) => LastResult(r).Continue?
  }

  ghost predicate AllReasoned(limits: Limits, s: State) {
    forall k :: 0 <= k < |s.runs| ==> Reason(limits, s.generation, s.runs[k])
  }

  lemma CancelKeepsReasons(limits: Limits, s: State)
    requires AllReasoned(limits, s)
    ensures AllReasoned(limits, Cancelled(s))
  {
    var c := Cancelled(s);
    forall k | 0 <= k < |c.runs| ensures Reason(limits, c.generation, c.runs[k]) {
      assert Reason(limits, s.generation, s.runs[k]);
    }
  }

  lemma AfterResultReasoned(limits: Limits, generation: nat, r: Run, result: Parsed, now: int)
    requires r.results != [] && LastResult(r) == result && r.generation <= generation
    ensures Reason(limits, generation, AfterResult(limits, generation, r, result, now))
  {
  }

  lemma PutKeepsReasons(limits: Limits, s: State, k: nat, r: Run)
    requires AllReasoned(limits, s) && k < |s.runs| && Reason(limits, s.generation, r)
    ensures AllReasoned(limits, Put(s, k, r))
  {
  }

  lemma StartKeepsReasons(limits: Limits, s: State, identity: Identity, first: Parsed, started: int, now: int)
    requires AllReasoned(limits, s)
    ensures AllReasoned(limits, Step(limits, s, Start(identity, first, started, now)))
  {
    CancelKeepsReasons(limits, s);
    var c := Cancelled(s);
    var r := Run(identity, c.generation, false, started + limits.deadlineMs, 0, Dispatching, [], [first]);
    AfterResultReasoned(limits, c.generation, r, first, now);
    var t := Step(limits, s, Start(identity, first, started, now));
    assert t.runs == c.runs + [AfterResult(limits, c.generation, r, first, now)];
  }

  lemma StepKeepsReasons(limits: Limits, s: State, e: Event)
    requires Inv(limits, s) && AllReasoned(limits, s)
    ensures AllReasoned(limits, Step(limits, s, e))
  {
    if Step(limits, s, e) != s {
      match e {
        case Cancel => CancelKeepsReasons(limits, s);
        case Start(identity, first, started, now) => StartKeepsReasons(limits, s, identity, first, started, now);
        case YieldDone(k) =>
          assert Reason(limits, s.generation, s.runs[k]);
          PutKeepsReasons(limits, s, k, Step(limits, s, e).runs[k]);
        case DispatchDone(k, result, at) =>
          var r := s.runs[k].(count := s.runs[k].count + 1, results := s.runs[k].results + [result]);
          AfterResultReasoned(limits, s.generation, r, result, at);
          PutKeepsReasons(limits, s, k, AfterResult(limits, s.generation, r, result, at));
        case Failed(k) =>
          assert Reason(limits, s.generation, s.runs[k]);
          PutKeepsReasons(limits, s, k, s.runs[k].(place := Threw(Rejected)));
      }
    }
  }

  lemma {:induction false} AfterKeepsReasons(limits: Limits, s: State, events: seq<Event>)
    requires Inv(limits, s) && AllReasoned(limits, s)
    ensures AllReasoned(limits, After(limits, s, events))
    decreases events
  {
    if events != [] {
      StepKeepsInv(limits, s, events[0]);
      StepKeepsReasons(limits, s, events[0]);
      AfterKeepsReasons(limits, Step(limits, s, events[0]), events[1..]);
    }
  }

  /**
    In every interleaving each run stands where its last result puts it: it waits or dispatches with the continuation of
    that result, has returned because the result has none or because the run is no longer current, and has thrown
    Invalid on a malformed one, Limit with its count used up, Deadline with some of it left, and a rejection on a
    continuation.
  */
  lemma RunsStandByTheirResults(limits: Limits, events: seq<Event>, k: nat)
    requires k < |After(limits, INITIAL, events).runs|
    ensures var s := After(limits, INITIAL, events); Reason(limits, s.generation, s.runs[k])
  {
    AfterKeepsReasons(limits, INITIAL, events);
  }

  /**
    A current run goes on exactly as the result of its dispatch says: it returns without a continuation, throws on a
    malformed one, at the limit and past the deadline, and else waits to dispatch the continuation.
  */
  lemma CurrentRunFollows(limits: Limits, s: State, k: nat, result: Parsed, at: int)
    requires Inv(limits, s) && Current(s, k) && s.runs[k].place.Dispatching?
    ensures var r, t := s.runs[k], Step(limits, s, DispatchDone(k, result, at));
            k < |t.runs| && t.runs[k].count == r.count + 1 && t.runs[k].results == r.results + [result] &&
            var due := result.Continue? && r.count + 1 < limits.maxContinuations && at < r.deadline;
            (t.runs[k].place.Returned? <==> result.NoContinuation?) &&
            (t.runs[k].place == Threw(Invalid) <==> result.Malformed?) &&
            (t.runs[k].place == Threw(Limit) <==> result.Continue? && r.count + 1 >= limits.maxContinuations) &&
            (t.runs[k].place == Threw(Deadline) <==>
              result.Continue? && r.count + 1 < limits.maxContinuations && at >= r.deadline) &&
            (t.runs[k].place.Yielding? <==> due) &&
            (due ==> t.runs[k].place == Yielding(result.next, r.deadline - at)) && (Current(t, k) <==> due)
  {
  }

  /** A current run that resumes after its yield always issues the dispatch it waited for, and stays current. */
  lemma CurrentRunDispatches(limits: Limits, s: State, k: nat)
    requires Inv(limits, s) && Current(s, k) && s.runs[k].place.Yielding?
    ensures var r, t := s.runs[k], Step(limits, s, YieldDone(k));
            k < |t.runs| && Current(t, k) && t.runs[k].InFlight() &&
            t.runs[k].dispatches == r.dispatches + [Dispatch(r.identity, r.place.next, r.place.remainingMs)]
  {
  }

  /** A start makes the one current run there is, or one that its first result has ended already. */
  lemma StartMakesTheCurrentRun(limits: Limits, s: State, identity: Identity, first: Parsed, started: int, now: int)
    requires Inv(limits, s)
    ensures var t, k := Step(limits, s, Start(identity, first, started, now)), |s.runs|;
            |t.runs| == k + 1 && t.runs[k].identity == identity && t.runs[k].results == [first] &&
            t.runs[k].deadline == started + limits.deadlineMs &&
            (t.active == Some(k) <==>
             first.Continue? && limits.maxContinuations > 0 && now < started + limits.deadlineMs) &&
            (t.active != Some(k) ==> t.active.None?) &&
            (t.runs[k].place.Returned? <==> first.NoContinuation?)
  {
    StepKeepsInv(limits, s, Start(identity, first, started, now));
  }
}
