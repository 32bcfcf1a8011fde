/**
  Progress accounting of one job: cumulative provider counts become deltas,
  deltas are added with saturation, and the public lists are bounded.
*/
module JobProgress {
  import opened Wrappers
  import opened JobLog

  const MAX_U64: nat := 0xFFFF_FFFF_FFFF_FFFF
  const MAX_PUBLIC_PROGRESS_UPDATES: nat := 32
  const MAX_REPAIR_AUDIT_RECORDS: nat := 16
  const MAX_REPAIR_AUDIT_ENTRIES: nat := 64

  function Min(a: int, b: int): int {
    if a <= b then a else b
  }

  function SaturatingAdd(a: nat, b: nat): nat {
    Min(a + b, MAX_U64)
  }

  function SaturatingSub(a: nat, b: nat): nat {
    if a >= b then a - b else 0
  }

  // ---- Bounded lists ----

  function LastN<T>(s: seq<T>, n: nat): (r: seq<T>) {
    if |s| <= n then s else s[|s| - n..]
  }

  function PushBounded<T>(s: seq<T>, x: T, n: nat): seq<T> {
    LastN(s + [x], n)
  }

  function PushAll<T>(s: seq<T>, xs: seq<T>, n: nat): seq<T>
    decreases xs
  {
    if xs == [] then s else PushAll(PushBounded(s, xs[0], n), xs[1..], n)
  }

  /** A bounded list always holds the last n entries of everything ever pushed. */
  lemma {:induction false} BoundedListKeepsTheLast<T>(history: seq<T>, xs: seq<T>, n: nat)
    ensures PushAll(LastN(history, n), xs, n) == LastN(history + xs, n)
    decreases xs
  {
    if xs == [] {
      assert history + xs == history;
    } else {
      assert PushBounded(LastN(history, n), xs[0], n) == LastN(history + [xs[0]], n);
      BoundedListKeepsTheLast(history + [xs[0]], xs[1..], n);
      assert history + [xs[0]] + xs[1..] == history + xs;
    }
  }

  // ---- Cumulative counts ----

  datatype Event =
    | UploadStarted(total: nat)
    | UploadTransferred(transferred: nat, total: nat)
    | UploadCompleted(transferred: nat)
    | ChatStarted(attempt: nat)
    | Reasoning(attempt: nat, chunks: nat, utf8Bytes: nat)
    | PublicProgress(stage: string, summary: string, evidenceCount: Option<nat>, warningCount: Option<nat>)
    | Retrying
    | OtherEvent

  datatype Cursor = Cursor(attempt: nat, chunks: nat, bytes: nat, uploadTotal: nat)

  function MoveCursor(c: Cursor, e: Event): Cursor {
    match e
    case UploadStarted(total) => c.(uploadTotal := total)
    case ChatStarted(attempt) => c.(attempt := attempt, chunks := 0, bytes := 0)
    case Reasoning(attempt, chunks, utf8Bytes) => c.(attempt := attempt, chunks := chunks, bytes := utf8Bytes)
    case _ => c
  }

  // The increments one reasoning report stands for.
  function Deltas(c: Cursor, e: Event): (nat, nat)
    requires e.Reasoning?
  {
    var known := if c.attempt != e.attempt then c.(chunks := 0, bytes := 0) else c;
    (SaturatingSub(e.chunks, known.chunks), SaturatingSub(e.utf8Bytes, known.bytes))
  }

  function ElapsedSince(a: Activity, now: nat): nat {
    SaturatingSub(now, a.startedAt.GetOr(now))
  }

  function RecordReasoning(j: Job, chunks: nat, bytes: nat, now: nat): Job {
    var a := j.activity;
    j.(updatedAt := now,
       activity := a.(chunkCount := SaturatingAdd(a.chunkCount, chunks), bytes := SaturatingAdd(a.bytes, bytes),
                      elapsedMs := ElapsedSince(a, now)))
  }

  function RecordUpload(j: Job, transferred: nat, total: nat, now: nat): Job {
    j.(uploadTotalBytes := Some(total), uploadBytes := Min(transferred, total), updatedAt := now)
  }

  function RecordPublic(j: Job, u: ProgressUpdate): Job {
    var a := j.activity;
    j.(updatedAt := u.createdAt,
       activity := a.(safeSummary := Some(u.summary),
                      publicProgress := PushBounded(a.publicProgress, u, MAX_PUBLIC_PROGRESS_UPDATES)))
  }

  const MAX_U32: nat := 0xFFFF_FFFF

  function RecordRetry(j: Job, now: nat): Job {
    j.(updatedAt := now, activity := j.activity.(retryCount := Min(j.activity.retryCount + 1, MAX_U32)))
  }

  function RecordAudit(j: Job, record: AuditRecord, now: nat): Job {
    var entries := if |record.entries| <= MAX_REPAIR_AUDIT_ENTRIES then record.entries
                   else record.entries[..MAX_REPAIR_AUDIT_ENTRIES];
    j.(updatedAt := now,
       repairAudit := PushBounded(j.repairAudit, record.(entries := entries, createdAt := now),
                                  MAX_REPAIR_AUDIT_RECORDS))
  }

  function Observe(j: Job, c: Cursor, e: Event, now: nat): Job {
    match e
    case UploadStarted(total) => RecordUpload(j, 0, total, now)
    case UploadTransferred(transferred, total) => RecordUpload(j, transferred, total, now)
    case UploadCompleted(transferred) => RecordUpload(j, transferred, c.uploadTotal, now)
    case Reasoning(_, _, _) => RecordReasoning(j, Deltas(c, e).0, Deltas(c, e).1, now)
    case PublicProgress(stage, summary, ev, warn) => RecordPublic(j, ProgressUpdate(stage, summary, ev, warn, now))
    case Retrying => RecordRetry(j, now)
    case _ => j
  }

  function ObserveAll(j: Job, c: Cursor, events: seq<(Event, nat)>): Job
    decreases events
  {
    if events == [] then j
    else ObserveAll(Observe(j, c, events[0].0, events[0].1), MoveCursor(c, events[0].0), events[1..])
  }

  // ---- The reference: segments of cumulative counts ----

  // Which of the two cumulative counters is looked at.
  datatype Counter = Chunks | Bytes

  function CountOf(e: Event, k: Counter): nat
    requires e.Reasoning?
  {
    if k == Chunks then e.chunks else e.utf8Bytes
  }

  function Total(j: Job, k: Counter): nat {
    if k == Chunks then j.activity.chunkCount else j.activity.bytes
  }

  function Known(c: Cursor, k: Counter): nat {
    if k == Chunks then c.chunks else c.bytes
  }

  // Splits the reports at every chat start and every change of attempt.
  function Segments(attempt: nat, open: seq<nat>, events: seq<(Event, nat)>, k: Counter): seq<seq<nat>>
    decreases events
  {
    if events == [] then [open]
    else
      var rest := events[1..];
      match events[0].0
      case ChatStarted(a) => [open] + Segments(a, [], rest, k)
      case Reasoning(a, _, _) =>
        if a == attempt then Segments(a, open + [CountOf(events[0].0, k)], rest, k)
        else [open] + Segments(a, [CountOf(events[0].0, k)], rest, k)
      case _ => Segments(attempt, open, rest, k)
  }

  function Last(segment: seq<nat>): nat {
    if segment == [] then 0 else segment[|segment| - 1]
  }

  // What the increments of one segment add up to, starting from zero.
  function Climb(segment: seq<nat>): nat {
    if segment == [] then 0
    else Climb(segment[..|segment| - 1]) + SaturatingSub(Last(segment), Last(segment[..|segment| - 1]))
  }

  ghost predicate NonDecreasing(segment: seq<nat>) {
    forall i :: 0 <= i < |segment| - 1 ==> segment[i] <= segment[i + 1]
  }

  ghost predicate AllNonDecreasing(segments: seq<seq<nat>>) {
    forall i :: 0 <= i < |segments| ==> NonDecreasing(segments[i])
  }

  function SumOfClimbs(segments: seq<seq<nat>>): nat {
    if segments == [] then 0 else Climb(segments[0]) + SumOfClimbs(segments[1..])
  }

  function SumOfLasts(segments: seq<seq<nat>>): nat {
    if segments == [] then 0 else Last(segments[0]) + SumOfLasts(segments[1..])
  }

  lemma {:induction false} ClimbIsLastIff(segment: seq<nat>)
    ensures Climb(segment) >= Last(segment)
    ensures Climb(segment) == Last(segment) <==> NonDecreasing(segment)
  {
    if segment != [] {
      var before := segment[..|segment| - 1];
      ClimbIsLastIff(before);
      assert before != [] ==> Last(before) == segment[|segment| - 2];
      if NonDecreasing(before) && Last(before) <= Last(segment) {
        forall i | 0 <= i < |segment| - 1 ensures segment[i] <= segment[i + 1] {
          if i < |before| - 1 { assert before[i] <= before[i + 1]; }
        }
      }
    }
  }

  lemma {:induction false} SumsAgreeIff(segments: seq<seq<nat>>)
    ensures SumOfClimbs(segments) >= SumOfLasts(segments)
    ensures SumOfClimbs(segments) == SumOfLasts(segments) <==> AllNonDecreasing(segments)
  {
    if segments != [] {
      ClimbIsLastIff(segments[0]);
      SumsAgreeIff(segments[1..]);
      if SumOfClimbs(segments) == SumOfLasts(segments) {
        forall i | 0 <= i < |segments| ensures NonDecreasing(segments[i]) {
          if i > 0 { assert segments[i] == segments[1..][i - 1]; }
        }
      }
    }
  }

  lemma OneReport(j: Job, c: Cursor, e: Event, now: nat, k: Counter)
    ensures var c' := MoveCursor(c, e);
            if e.Reasoning? then
              c'.attempt == e.attempt && Known(c', k) == CountOf(e, k) &&
              Total(Observe(j, c, e, now), k) ==
                SaturatingAdd(Total(j, k),
                              SaturatingSub(CountOf(e, k), if e.attempt == c.attempt then Known(c, k) else 0))
            else
              Total(Observe(j, c, e, now), k) == Total(j, k) &&
              (e.ChatStarted? ==> c'.attempt == e.attempt && Known(c', k) == 0) &&
              (!e.ChatStarted? ==> c'.attempt == c.attempt && Known(c', k) == Known(c, k))
  {
  }

  predicate OpensSegment(attempt: nat, e: Event) {
    e.ChatStarted? || (e.Reasoning? && e.attempt != attempt)
  }

  // The open segment once e has been seen.
  function NextOpen(attempt: nat, open: seq<nat>, e: Event, k: Counter): seq<nat> {
    if e.ChatStarted? then []
    else if !e.Reasoning? then open
    else if e.attempt == attempt then open + [CountOf(e, k)]
    else [CountOf(e, k)]
  }

  // The segments of a stream, unrolled by its first event.
  lemma FirstEvent(c: Cursor, open: seq<nat>, events: seq<(Event, nat)>, k: Counter)
    requires events != []
    ensures var e, rest := events[0].0, events[1..];
            SumOfClimbs(Segments(c.attempt, open, events, k)) ==
              (if OpensSegment(c.attempt, e) then Climb(open) else 0) +
              SumOfClimbs(Segments(MoveCursor(c, e).attempt, NextOpen(c.attempt, open, e, k), rest, k))
  {
    var e, rest := events[0].0, events[1..];
    if OpensSegment(c.attempt, e) {
      SplitOff(open, Segments(e.attempt, NextOpen(c.attempt, open, e, k), rest, k));
    }
  }

  lemma ClimbStep(open: seq<nat>, n: nat)
    ensures Climb(open + [n]) == Climb(open) + SaturatingSub(n, Last(open))
    ensures Climb([n]) == n
  {
    assert (open + [n])[..|open|] == open;
    assert [n][..0] == [];
  }

  // One counter of the job followed on its own.
  function Counted(total: nat, c: Cursor, events: seq<(Event, nat)>, k: Counter): nat
    decreases events
  {
    if events == [] then total
    else
      var e := events[0].0;
      var delta := if !e.Reasoning? then 0
                   else SaturatingSub(CountOf(e, k), if e.attempt == c.attempt then Known(c, k) else 0);
      Counted(Min(total + delta, if e.Reasoning? then MAX_U64 else total), MoveCursor(c, e), events[1..], k)
  }

  lemma {:induction false} TotalIsCounted(j: Job, c: Cursor, events: seq<(Event, nat)>, k: Counter)
    ensures Total(ObserveAll(j, c, events), k) == Counted(Total(j, k), c, events, k)
    decreases events
  {
    if events != [] {
      OneReport(j, c, events[0].0, events[0].1, k);
      TotalIsCounted(Observe(j, c, events[0].0, events[0].1), MoveCursor(c, events[0].0), events[1..], k);
    }
  }

  // What one event adds to the total is what it adds to the open segment's climb.
  lemma OneClimb(c: Cursor, open: seq<nat>, e: Event, k: Counter)
    requires Known(c, k) == Last(open)
    ensures var next := NextOpen(c.attempt, open, e, k);
            var added := Climb(next) - (if OpensSegment(c.attempt, e) then 0 else Climb(open));
            Known(MoveCursor(c, e), k) == Last(next) &&
            added == if !e.Reasoning? then 0
                     else SaturatingSub(CountOf(e, k), if e.attempt == c.attempt then Known(c, k) else 0)
  {
    if e.Reasoning? { ClimbStep(open, CountOf(e, k)); }
  }

  lemma CountedFirst(total: nat, c: Cursor, open: seq<nat>, events: seq<(Event, nat)>, k: Counter)
    requires events != [] && Known(c, k) == Last(open) && total <= MAX_U64
    ensures var e := events[0].0;
            var next := NextOpen(c.attempt, open, e, k);
            var added := Climb(next) - (if OpensSegment(c.attempt, e) then 0 else Climb(open));
            added >= 0 && Known(MoveCursor(c, e), k) == Last(next) &&
            Counted(total, c, events, k) == Counted(Min(total + added, MAX_U64), MoveCursor(c, e), events[1..], k)
  {
    OneClimb(c, open, events[0].0, k);
  }

  lemma {:induction false} CountedFollowsSegments(total: nat, c: Cursor, open: seq<nat>, events: seq<(Event, nat)>,
                                                  k: Counter)
    requires Known(c, k) == Last(open) && total <= MAX_U64
    ensures SumOfClimbs(Segments(c.attempt, open, events, k)) >= Climb(open)
    ensures Counted(total, c, events, k) ==
            Min(total + SumOfClimbs(Segments(c.attempt, open, events, k)) - Climb(open), MAX_U64)
    decreases events
  {
    if events == [] {
      SplitOff(open, []);
      assert [open] + [] == [open];
    } else {
      var e := events[0].0;
      var next := NextOpen(c.attempt, open, e, k);
      var added := Climb(next) - (if OpensSegment(c.attempt, e) then 0 else Climb(open));
      CountedFirst(total, c, open, events, k);
      FirstEvent(c, open, events, k);
      CountedFollowsSegments(Min(total + added, MAX_U64), MoveCursor(c, e), next, events[1..], k);
    }
  }

  /** From any cursor in the middle of a segment, the total grows by the saturated increments still to come. */
  lemma TotalsFollowSegments(j: Job, c: Cursor, open: seq<nat>, events: seq<(Event, nat)>, k: Counter)
    requires Known(c, k) == Last(open) && Total(j, k) <= MAX_U64
    ensures SumOfClimbs(Segments(c.attempt, open, events, k)) >= Climb(open)
    ensures Total(ObserveAll(j, c, events), k) ==
            Min(Total(j, k) + SumOfClimbs(Segments(c.attempt, open, events, k)) - Climb(open), MAX_U64)
  {
    TotalIsCounted(j, c, events, k);
    CountedFollowsSegments(Total(j, k), c, open, events, k);
  }

  lemma SplitOff(open: seq<nat>, rest: seq<seq<nat>>)
    ensures SumOfClimbs([open] + rest) == Climb(open) + SumOfClimbs(rest)
  {
    assert ([open] + rest)[1..] == rest;
  }

  /**
    Progress conservation.  From a fresh sink on, each of the two totals grows
    by the sum of the increments inside the segments, saturated once at the end;
    below saturation that is the sum of every segment's last report exactly when
    no segment ever reports less than before.
  */
  lemma ProgressIsConserved(j: Job, events: seq<(Event, nat)>, k: Counter)
    requires Total(j, k) <= MAX_U64
    ensures var segments := Segments(0, [], events, k);
            var after := Total(ObserveAll(j, Cursor(0, 0, 0, 0), events), k);
            after == Min(Total(j, k) + SumOfClimbs(segments), 0xFFFF_FFFF_FFFF_FFFF) &&
            after >= Min(Total(j, k) + SumOfLasts(segments), 0xFFFF_FFFF_FFFF_FFFF) &&
            (Total(j, k) + SumOfClimbs(segments) <= MAX_U64 ==>
              (after == Total(j, k) + SumOfLasts(segments) <==> AllNonDecreasing(segments)))
  {
    var segments := Segments(0, [], events, k);
    TotalsFollowSegments(j, Cursor(0, 0, 0, 0), [], events, k);
    SumsAgreeIff(segments);
    Conserved(Total(j, k), SumOfClimbs(segments), SumOfLasts(segments),
              Total(ObserveAll(j, Cursor(0, 0, 0, 0), events), k));
  }

  lemma Conserved(total: nat, climb: nat, last: nat, after: int)
    requires after == Min(total + climb, MAX_U64) && climb >= last
    ensures after >= Min(total + last, MAX_U64)
    ensures total + climb <= MAX_U64 ==> (after == total + last <==> climb == last)
  {
  }

  // The public updates an event carries: at most one.
  function Published(e: Event, now: nat): seq<ProgressUpdate> {
    match e
    case PublicProgress(stage, summary, ev, warn) => [ProgressUpdate(stage, summary, ev, warn, now)]
    case _ => []
  }

  function PublicHistory(events: seq<(Event, nat)>): seq<ProgressUpdate> {
    if events == [] then [] else Published(events[0].0, events[0].1) + PublicHistory(events[1..])
  }

  lemma OnePublication(j: Job, c: Cursor, e: Event, now: nat)
    ensures Observe(j, c, e, now).activity.publicProgress ==
            PushAll(j.activity.publicProgress, Published(e, now), MAX_PUBLIC_PROGRESS_UPDATES)
  {
    if e.PublicProgress? {
      assert Published(e, now)[1..] == [];
    }
  }

  lemma {:induction false} PushAllAppend<T>(s: seq<T>, a: seq<T>, b: seq<T>, n: nat)
    ensures PushAll(s, a + b, n) == PushAll(PushAll(s, a, n), b, n)
    decreases a
  {
    if a == [] {
      assert a + b == b;
    } else {
      assert (a + b)[1..] == a[1..] + b;
      PushAllAppend(PushBounded(s, a[0], n), a[1..], b, n);
    }
  }

  lemma {:induction false} PublicationsArePushed(j: Job, c: Cursor, events: seq<(Event, nat)>)
    ensures ObserveAll(j, c, events).activity.publicProgress ==
            PushAll(j.activity.publicProgress, PublicHistory(events), MAX_PUBLIC_PROGRESS_UPDATES)
    decreases events
  {
    if events != [] {
      var e, now := events[0].0, events[0].1;
      OnePublication(j, c, e, now);
      PublicationsArePushed(Observe(j, c, e, now), MoveCursor(c, e), events[1..]);
      PushAllAppend(j.activity.publicProgress, Published(e, now), PublicHistory(events[1..]),
                    MAX_PUBLIC_PROGRESS_UPDATES);
    }
  }

  /** The public progress list is the tail of length 32 of the full history. */
  lemma PublicProgressIsTheTail(j: Job, c: Cursor, events: seq<(Event, nat)>, history: seq<ProgressUpdate>)
    requires j.activity.publicProgress == LastN(history, MAX_PUBLIC_PROGRESS_UPDATES)
    ensures ObserveAll(j, c, events).activity.publicProgress ==
            LastN(history + PublicHistory(events), 32)
  {
    PublicationsArePushed(j, c, events);
    BoundedListKeepsTheLast(history, PublicHistory(events), MAX_PUBLIC_PROGRESS_UPDATES);
  }

  // ---- Repair audits ----

  // A record as it is kept: stamped, and cut to 64 entries.
  function Kept(record: AuditRecord, now: nat): AuditRecord {
    record.(createdAt := now,
            entries := if |record.entries| <= MAX_REPAIR_AUDIT_ENTRIES then record.entries
                       else record.entries[..MAX_REPAIR_AUDIT_ENTRIES])
  }

  function AuditAll(j: Job, records: seq<(AuditRecord, nat)>): Job
    decreases records
  {
    if records == [] then j else AuditAll(RecordAudit(j, records[0].0, records[0].1), records[1..])
  }

  function AuditHistory(records: seq<(AuditRecord, nat)>): (r: seq<AuditRecord>)
    ensures |r| == |records|
  {
    if records == [] then [] else [Kept(records[0].0, records[0].1)] + AuditHistory(records[1..])
  }

  // The record with at most its first 64 entries, and the time of the recording.
  ghost predicate IsKept(kept: AuditRecord, given: AuditRecord, now: nat) {
    kept.pass == given.pass && kept.attempt == given.attempt && kept.status == given.status &&
    kept.error == given.error &&
    kept.createdAt == now && kept.entries <= given.entries &&
    |kept.entries| == if |given.entries| <= 64 then |given.entries| else 64
  }

  lemma {:induction false} HistoryIsKept(records: seq<(AuditRecord, nat)>)
    ensures forall i :: 0 <= i < |records| ==> IsKept(AuditHistory(records)[i], records[i].0, records[i].1)
  {
    if records != [] {
      HistoryIsKept(records[1..]);
      assert forall i :: 0 <= i < |records| - 1 ==> records[1..][i] == records[i + 1];
      assert AuditHistory(records) == [Kept(records[0].0, records[0].1)] + AuditHistory(records[1..]);
    }
  }

  lemma {:induction false} AuditsArePushed(j: Job, records: seq<(AuditRecord, nat)>)
    ensures AuditAll(j, records).repairAudit == PushAll(j.repairAudit, AuditHistory(records), MAX_REPAIR_AUDIT_RECORDS)
    decreases records
  {
    if records != [] {
      AuditsArePushed(RecordAudit(j, records[0].0, records[0].1), records[1..]);
      assert AuditHistory(records)[1..] == AuditHistory(records[1..]);
    }
  }

  /** The repair audits of a job are the last 16 of all that were recorded, each cut to 64 entries. */
  lemma AuditsAreTheTail(j: Job, records: seq<(AuditRecord, nat)>, history: seq<AuditRecord>)
    requires j.repairAudit == LastN(history, MAX_REPAIR_AUDIT_RECORDS)
    ensures AuditAll(j, records).repairAudit == LastN(history + AuditHistory(records), 16)
    ensures forall i :: 0 <= i < |records| ==> IsKept(AuditHistory(records)[i], records[i].0, records[i].1)
  {
    AuditsArePushed(j, records);
    HistoryIsKept(records);
    BoundedListKeepsTheLast(history, AuditHistory(records), MAX_REPAIR_AUDIT_RECORDS);
  }

  // ---- Retries and uploads ----

  function Retries(events: seq<(Event, nat)>): nat {
    if events == [] then 0 else (if events[0].0.Retrying? then 1 else 0) + Retries(events[1..])
  }

  /** Over any stream of events the retry count grows by the number of retry events, saturated once at the end. */
  lemma {:induction false} RetriesAreCounted(j: Job, c: Cursor, events: seq<(Event, nat)>)
    requires j.activity.retryCount <= MAX_U32
    ensures ObserveAll(j, c, events).activity.retryCount == Min(j.activity.retryCount + Retries(events), 0xFFFF_FFFF)
    decreases events
  {
    if events != [] {
      RetryOrNot(j, c, events[0].0, events[0].1);
      RetriesAreCounted(Observe(j, c, events[0].0, events[0].1), MoveCursor(c, events[0].0), events[1..]);
    }
  }

  lemma RetryOrNot(j: Job, c: Cursor, e: Event, now: nat)
    ensures Observe(j, c, e, now).activity.retryCount ==
            if e.Retrying? then Min(j.activity.retryCount + 1, MAX_U32) else j.activity.retryCount
  {
  }

  // The last upload report of a stream: bytes transferred and total, as the sink passes them on.
  function LastUpload(c: Cursor, events: seq<(Event, nat)>): Option<(nat, nat)>
    decreases events
  {
    if events == [] then None
    else
      var later := LastUpload(MoveCursor(c, events[0].0), events[1..]);
      if later.Some? then later
      else
        match events[0].0
        case UploadStarted(total) => Some((0, total))
        case UploadTransferred(transferred, total) => Some((transferred, total))
        case UploadCompleted(transferred) => Some((transferred, c.uploadTotal))
        case _ => None
  }

  // What a job shows of an upload.
  predicate ShowsUpload(j: Job, report: Option<(nat, nat)>, before: Job) {
    match report
    case None => j.uploadBytes == before.uploadBytes && j.uploadTotalBytes == before.uploadTotalBytes
    case Some((transferred, total)) =>
      j.uploadTotalBytes == Some(total) && j.uploadBytes <= total && j.uploadBytes <= transferred &&
      (transferred <= total ==> j.uploadBytes == transferred)
  }

  /** Over any stream of events a job shows the last upload report, and never more bytes than its total. */
  lemma {:induction false} LastUploadIsShown(j: Job, c: Cursor, events: seq<(Event, nat)>)
    ensures ShowsUpload(ObserveAll(j, c, events), LastUpload(c, events), j)
    ensures (j.uploadTotalBytes.Some? ==> j.uploadBytes <= j.uploadTotalBytes.value) ==>
              var after := ObserveAll(j, c, events);
              after.uploadTotalBytes.Some? ==> after.uploadBytes <= after.uploadTotalBytes.value
    decreases events
  {
    if events != [] {
      var e, now := events[0].0, events[0].1;
      UploadOrNot(j, c, e, now);
      LastUploadIsShown(Observe(j, c, e, now), MoveCursor(c, e), events[1..]);
    }
  }

  lemma UploadOrNot(j: Job, c: Cursor, e: Event, now: nat)
    ensures ShowsUpload(Observe(j, c, e, now), LastUpload(c, [(e, now)]), j)
    ensures LastUpload(c, [(e, now)]) ==
            match e
            case UploadStarted(total) => Some((0, total))
            case UploadTransferred(transferred, total) => Some((transferred, total))
            case UploadCompleted(transferred) => Some((transferred, c.uploadTotal))
            case _ => None
  {
    assert [(e, now)][1..] == [];
  }

  // ---- What is recorded on a job, one section under the host lock each ----

  datatype Recording =
    | ActivityRecord(chunks: nat, bytes: nat, now: nat)
    | UploadRecord(transferred: nat, total: nat, now: nat)
    | RetryRecord(now: nat)
    | PublicRecord(update: ProgressUpdate)
    | RepairRecord(record: AuditRecord, now: nat)
    | PassRecord(pass: string, summary: string, now: nat)

  function RecordPass(j: Job, pass: string, summary: string, now: nat): Job {
    var a := j.activity;
    var started := a.startedAt.GetOr(now);
    j.(updatedAt := now,
       activity := a.(startedAt := Some(started), currentPass := Some(pass), safeSummary := Some(summary),
                      elapsedMs := SaturatingSub(now, started)))
  }

  function Recorded(j: Job, r: Recording): Job {
    match r
    case ActivityRecord(chunks, bytes, now) => RecordReasoning(j, chunks, bytes, now)
    case UploadRecord(transferred, total, now) => RecordUpload(j, transferred, total, now)
    case RetryRecord(now) => RecordRetry(j, now)
    case PublicRecord(update) => RecordPublic(j, update)
    case RepairRecord(record, now) => RecordAudit(j, record, now)
    case PassRecord(pass, summary, now) => RecordPass(j, pass, summary, now)
  }

  // What the sink records on an event, if anything.
  function RecordingOf(c: Cursor, e: Event, now: nat): Option<Recording> {
    match e
    case UploadStarted(total) => Some(UploadRecord(0, total, now))
    case UploadTransferred(transferred, total) => Some(UploadRecord(transferred, total, now))
    case UploadCompleted(transferred) => Some(UploadRecord(transferred, c.uploadTotal, now))
    case Reasoning(_, _, _) => Some(ActivityRecord(Deltas(c, e).0, Deltas(c, e).1, now))
    case PublicProgress(stage, summary, ev, warn) => Some(PublicRecord(ProgressUpdate(stage, summary, ev, warn, now)))
    case Retrying => Some(RetryRecord(now))
    case _ => None
  }

  lemma ObservingRecords(j: Job, c: Cursor, e: Event, now: nat)
    ensures Observe(j, c, e, now) == match RecordingOf(c, e, now) case Some(r) => Recorded(j, r) case None => j
  {
  }

  // A recording touches the counters, the two bounded lists and the time of the last update.
  lemma RecordingKeepsTheRest(j: Job, r: Recording)
    ensures var j' := Recorded(j, r);
            j == j'.(activity := j.activity, repairAudit := j.repairAudit, uploadBytes := j.uploadBytes,
                     uploadTotalBytes := j.uploadTotalBytes, updatedAt := j.updatedAt)
  {
  }

  // Pushing onto a bounded list shows, unless the list is full of the same entry.
  predicate PushShows<T(==)>(s: seq<T>, x: T, n: nat) {
    |s| != n || exists i :: 0 <= i < |s| && s[i] != x
  }

  lemma PushChangesIff<T>(s: seq<T>, x: T, n: nat)
    ensures PushBounded(s, x, n) != s <==> PushShows(s, x, n)
  {
    var t := PushBounded(s, x, n);
    if |s| == n {
      assert forall i :: 0 <= i < n ==> t[i] == (s + [x])[i + 1];
      if t == s { FullOfTheLast(s, x, 0); }
    }
  }

  // A list that is its own shift by one holds one entry only.
  lemma {:induction false} FullOfTheLast<T>(s: seq<T>, x: T, k: nat)
    requires k <= |s| && forall i :: 0 <= i < |s| ==> s[i] == (s + [x])[i + 1]
    ensures forall i :: k <= i < |s| ==> s[i] == x
    decreases |s| - k
  {
    if k < |s| { FullOfTheLast(s, x, k + 1); }
  }

  function TimeOf(r: Recording): nat {
    match r
    case ActivityRecord(_, _, now) => now
    case UploadRecord(_, _, now) => now
    case RetryRecord(now) => now
    case PublicRecord(update) => update.createdAt
    case RepairRecord(_, now) => now
    case PassRecord(_, _, now) => now
  }

  // When a recording leaves a trace.
  predicate Shows(j: Job, r: Recording) {
    var a := j.activity;
    TimeOf(r) != j.updatedAt ||
    match r
    case ActivityRecord(chunks, bytes, now) =>
      SaturatingAdd(a.chunkCount, chunks) != a.chunkCount || SaturatingAdd(a.bytes, bytes) != a.bytes ||
      ElapsedSince(a, now) != a.elapsedMs
    case UploadRecord(transferred, total, _) =>
      j.uploadTotalBytes != Some(total) || j.uploadBytes != Min(transferred, total)
    case RetryRecord(_) => a.retryCount != MAX_U32
    case PublicRecord(update) =>
      a.safeSummary != Some(update.summary) || PushShows(a.publicProgress, update, MAX_PUBLIC_PROGRESS_UPDATES)
    case RepairRecord(record, now) => PushShows(j.repairAudit, Kept(record, now), MAX_REPAIR_AUDIT_RECORDS)
    case PassRecord(pass, summary, now) =>
      a.startedAt.None? || a.currentPass != Some(pass) || a.safeSummary != Some(summary) ||
      ElapsedSince(a, now) != a.elapsedMs
  }

  /** Exactly when a recording changes its job: mostly because the clock has moved on. */
  lemma RecordingChangesIff(j: Job, r: Recording)
    ensures Recorded(j, r) != j <==> Shows(j, r)
  {
    match r {
      case PublicRecord(update) => PushChangesIff(j.activity.publicProgress, update, MAX_PUBLIC_PROGRESS_UPDATES);
      case RepairRecord(record, now) => PushChangesIff(j.repairAudit, Kept(record, now), MAX_REPAIR_AUDIT_RECORDS);
      case _ =>
    }
  }

  // ---- The clock of the reasoning ----

  function RecordAll(j: Job, rs: seq<Recording>): Job {
    if rs == [] then j else Recorded(RecordAll(j, rs[..|rs| - 1]), rs[|rs| - 1])
  }

  // When the first pass began.
  function FirstPass(rs: seq<Recording>): Option<nat> {
    if rs == [] then None
    else
      var earlier, last := FirstPass(rs[..|rs| - 1]), rs[|rs| - 1];
      if earlier.Some? then earlier else if last.PassRecord? then Some(last.now) else None
  }

  // The name of the pass begun last.
  function LastPass(rs: seq<Recording>): Option<string> {
    if rs == [] then None
    else if rs[|rs| - 1].PassRecord? then Some(rs[|rs| - 1].pass)
    else LastPass(rs[..|rs| - 1])
  }

  // When the elapsed time was taken last: by a pass or by a reasoning report.
  function LastTimed(rs: seq<Recording>): Option<nat> {
    if rs == [] then None
    else
      var last := rs[|rs| - 1];
      if last.PassRecord? || last.ActivityRecord? then Some(TimeOf(last)) else LastTimed(rs[..|rs| - 1])
  }

  /**
    Whatever is recorded on a job: its reasoning started when the first pass began, its current pass is
    the last one begun, and its elapsed time runs from that start to the last pass or reasoning report.
  */
  lemma {:induction false} ReasoningIsTimedFromTheFirstPass(j: Job, rs: seq<Recording>)
    ensures var before, after := j.activity, RecordAll(j, rs).activity;
            after.startedAt == (if before.startedAt.Some? then before.startedAt else FirstPass(rs)) &&
            after.currentPass == (if LastPass(rs).Some? then LastPass(rs) else before.currentPass) &&
            after.elapsedMs == (if LastTimed(rs).Some? then ElapsedSince(after, LastTimed(rs).value)
                                else before.elapsedMs)
  {
    if rs != [] {
      var init := rs[..|rs| - 1];
      ReasoningIsTimedFromTheFirstPass(j, init);
      RecordingIsTimed(RecordAll(j, init), rs[|rs| - 1]);
    }
  }

  lemma RecordingIsTimed(j: Job, r: Recording)
    ensures var before, after := j.activity, Recorded(j, r).activity;
            after.startedAt == (if r.PassRecord? && before.startedAt.None? then Some(r.now) else before.startedAt) &&
            after.currentPass == (if r.PassRecord? then Some(r.pass) else before.currentPass) &&
            after.elapsedMs == if r.PassRecord? || r.ActivityRecord? then ElapsedSince(after, TimeOf(r))
                               else before.elapsedMs
  {
  }
}
