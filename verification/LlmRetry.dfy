/** Truncation repair and the retry loops of the model client, on UTF-8 bytes, because the client slices by bytes. */
module LlmRetry {
  import opened Wrappers
  import opened Utf8

  type Text = seq<byte>

  const MAX_OVERLAP: nat := 200
  const TAIL_BYTES: nat := 512
  const MAX_RETRIES: nat := 3
  const REPAIR_ATTEMPTS: nat := 2

  // Where a text may be sliced.
  predicate IsBoundary(t: Text, i: nat)
    requires i <= |t|
  {
    i == 0 || i == |t| || t[i] < 0x80 || t[i] >= 0xC0
  }

  // ---- Merging a truncated text with its continuation ----

  function Limit(p: Text, c: Text): (n: nat)
    ensures n <= |p| && n <= |c| && n <= MAX_OVERLAP
  {
    var n := if |p| <= |c| then |p| else |c|;
    if n <= MAX_OVERLAP then n else MAX_OVERLAP
  }

  predicate Overlaps(p: Text, c: Text, k: nat)
    requires k <= |p| && k <= |c|
  {
    p[|p| - k..] == c[..k]
  }

  // Trying an overlap of k bytes slices both texts.
  predicate Sliceable(p: Text, c: Text, k: nat)
    requires k <= |p| && k <= |c|
  {
    IsBoundary(p, |p| - k) && IsBoundary(c, k)
  }

  // The longest overlap of at most k bytes.
  function BestUpTo(p: Text, c: Text, k: nat): (b: nat)
    requires k <= Limit(p, c)
    ensures b <= k && Overlaps(p, c, b) && forall j :: b < j <= k ==> !Overlaps(p, c, j)
  {
    if k == 0 || Overlaps(p, c, k) then k else BestUpTo(p, c, k - 1)
  }

  function BestOverlap(p: Text, c: Text): nat {
    BestUpTo(p, c, Limit(p, c))
  }

  // Every overlap that is tried, longest first down to the best, can be sliced.
  predicate MergeSafe(p: Text, c: Text) {
    forall k :: 1 <= k <= Limit(p, c) && BestOverlap(p, c) <= k ==> Sliceable(p, c, k)
  }

  // None is a panic.
  function Merged(p: Text, c: Text): Option<Text> {
    if MergeSafe(p, c) then Some(p + c[BestOverlap(p, c)..]) else None
  }

  /** The downward loop, on texts already trimmed. */
  method MergeTruncatedOutput(p: Text, c: Text) returns (r: Option<Text>)
    ensures r == Merged(p, c)
  {
    var overlap := Limit(p, c);
    while overlap >= 1
      invariant 0 <= overlap <= Limit(p, c) && BestOverlap(p, c) <= overlap
      invariant forall j :: overlap < j <= Limit(p, c) ==> Sliceable(p, c, j)
    {
      if !IsBoundary(p, |p| - overlap) || !IsBoundary(c, overlap) {
        assert !Sliceable(p, c, overlap);
        return None;
      }
      if p[|p| - overlap..] == c[..overlap] {
        assert Overlaps(p, c, overlap);
        return Some(p + c[overlap..]);
      }
      assert !Overlaps(p, c, overlap);
      overlap := overlap - 1;
    }
    return Some(p + c);
  }

  predicate Ascii(t: Text) {
    forall i :: 0 <= i < |t| ==> t[i] < 0x80
  }

  /** On ASCII merging never panics. */
  lemma AsciiMerges(p: Text, c: Text)
    requires Ascii(p) && Ascii(c)
    ensures Merged(p, c).Some?
  {
    forall k | 1 <= k <= Limit(p, c) ensures Sliceable(p, c, k) {
    }
  }

  /** A partial text that ends in a two-byte character, continued by one ASCII character, panics. */
  lemma MergeCanSplitACharacter()
    ensures Merged([0xC3, 0xA9], [0x61]) == None
  {
    assert !Sliceable([0xC3, 0xA9], [0x61], 1);
    assert BestOverlap([0xC3, 0xA9], [0x61]) <= 1 == Limit([0xC3, 0xA9], [0x61]);
  }

  // A text that begins with p, ends with c, and lets them share k bytes.
  predicate Glues(w: Text, p: Text, c: Text, k: nat) {
    k <= |p| && k <= |c| && |w| == |p| + |c| - k && w[..|p|] == p && w[|p| - k..] == c
  }

  lemma GlueOverlaps(w: Text, p: Text, c: Text, k: nat)
    requires Glues(w, p, c, k)
    ensures Overlaps(p, c, k) && w == p + c[k..]
  {
    assert p[|p| - k..] == w[|p| - k..|p|] == c[..k];
    assert w[|p|..] == c[k..];
    assert w == w[..|p|] + w[|p|..];
  }

  /**
    The merged text is the one shortest text that begins with the partial text and
    ends with the continuation, among overlaps of at most 200 bytes.
  */
  lemma MergeIsShortest(p: Text, c: Text, w: Text, k: nat)
    requires Merged(p, c).Some?
    ensures var m := Merged(p, c).value;
            Glues(m, p, c, BestOverlap(p, c)) &&
            (k <= 200 && Glues(w, p, c, k) ==> |m| <= |w| && (|w| == |m| ==> w == m))
  {
    var best := BestOverlap(p, c);
    var m := p + c[best..];
    assert m[..|p|] == p;
    assert m[|p| - best..] == p[|p| - best..] + c[best..] == c[..best] + c[best..] == c;
    if k <= MAX_OVERLAP && Glues(w, p, c, k) {
      GlueOverlaps(w, p, c, k);
      assert k <= Limit(p, c);
    }
  }

  // ---- Responses ----

  datatype Message = Message(content: Option<Text>)
  datatype Choice = Choice(message: Option<Message>, stoppedByLength: bool)
  datatype Response = Response(choices: Option<seq<Choice>>)

  datatype LlmError =
    | ApiKeyMissing | HttpError | RateLimited | ServerError | ClientError
    | ParseError | TruncationRepairFailed | RetryExhausted | SerializationError

  predicate ShouldTerminate(e: LlmError) {
    e.ApiKeyMissing? || e.ClientError? || e.ParseError? || e.SerializationError?
  }

  predicate HasFirstChoice(r: Response) {
    r.choices.Some? && r.choices.value != []
  }

  function ContentOf(r: Response): Text
    requires HasFirstChoice(r)
  {
    match r.choices.value[0].message
    case Some(m) => m.content.GetOr([])
    case None => []
  }

  // Trimming, JSON parsing and extraction are whatever the host provides.
  datatype Host = Host(trim: Text -> Text, parses: Text -> bool, extract: Text -> Option<Text>)

  ghost predicate Sane(h: Host) {
    h.trim([]) == [] && forall t {:trigger h.trim(h.trim(t))} :: h.trim(h.trim(t)) == h.trim(t)
  }

  predicate Usable(h: Host, t: Text) {
    h.parses(t) || h.parses(h.trim(t)) || (h.extract(t).Some? && h.parses(h.extract(t).value))
  }

  // ---- Detecting truncation ----

  datatype Detection =
    | Complete
    | Truncated(partial: Text, tail: Text)
    | Invalid
    | DetectionPanics

  function Detect(h: Host, content: Text, stoppedByLength: bool): Detection {
    var t := h.trim(content);
    if !stoppedByLength then
      if h.parses(t) || (h.extract(content).Some? && h.parses(h.extract(content).value)) then Complete else Invalid
    else if h.parses(t) then Complete
    else
      var start := if |t| > TAIL_BYTES then |t| - TAIL_BYTES else 0;
      if IsBoundary(t, start) then Truncated(t, t[start..]) else DetectionPanics
  }

  /** What each answer of the detector means, and exactly when it has none. */
  lemma DetectionMeaning(h: Host, content: Text, stoppedByLength: bool)
    ensures var d := Detect(h, content, stoppedByLength);
            (d.Complete? ==> Usable(h, content)) &&
            (d.Invalid? <==> !stoppedByLength && !h.parses(h.trim(content)) &&
                             !(h.extract(content).Some? && h.parses(h.extract(content).value))) &&
            (d.Truncated? ==> !h.parses(d.partial) && d.partial == h.trim(content) && |d.tail| <= TAIL_BYTES) &&
            (d.DetectionPanics? <==> stoppedByLength && !h.parses(h.trim(content)) && |h.trim(content)| > TAIL_BYTES &&
                                     var t := h.trim(content); 0x80 <= t[|t| - TAIL_BYTES] < 0xC0)
  {
  }

  // ---- The loops ----

  datatype Outcome = Returned(response: Response) | Failed(error: LlmError) | Crashed

  // The reply to the n-th request.
  type Network = nat -> Result<Response, LlmError>

  // The first choice's message keeps everything but its content.
  function WithContent(r: Response, t: Text): Response
    requires HasFirstChoice(r)
  {
    var first := r.choices.value[0];
    match first.message
    case None => r
    case Some(m) => Response(Some(r.choices.value[0 := first.(message := Some(m.(content := Some(t))))]))
  }

  /** Only the content of the first choice's message is replaced, and only if there is a message. */
  lemma WithContentReplaces(r: Response, t: Text)
    requires HasFirstChoice(r)
    ensures var q := WithContent(r, t);
            HasFirstChoice(q) && |q.choices.value| == |r.choices.value| &&
            (forall i :: 0 < i < |r.choices.value| ==> q.choices.value[i] == r.choices.value[i]) &&
            q.choices.value[0].stoppedByLength == r.choices.value[0].stoppedByLength &&
            (r.choices.value[0].message.Some? ==> ContentOf(q) == t) &&
            (r.choices.value[0].message.None? ==> q == r)
  {
  }

  // What one reply to a continuation request leads to; None means: try again.
  function RepairStep(h: Host, reply: Result<Response, LlmError>, partial: Text, last: bool): Option<Outcome> {
    match reply
    case Err(e) => if ShouldTerminate(e) then Some(Failed(e)) else None
    case Ok(response) =>
      if !HasFirstChoice(response) then Some(Returned(response))
      else
        var merged := Merged(h.trim(partial), h.trim(ContentOf(response)));
        if merged.None? then Some(Crashed)
        else if h.parses(merged.value) then Some(Returned(WithContent(response, merged.value)))
        else if last then Some(Failed(TruncationRepairFailed))
        else None
  }

  // From the given attempt on: the outcome, and the number of requests sent by then.
  function Repair(h: Host, network: Network, partial: Text, attempt: nat, sent: nat): (Outcome, nat)
    decreases REPAIR_ATTEMPTS + 1 - attempt
  {
    if attempt > REPAIR_ATTEMPTS then (Failed(TruncationRepairFailed), sent)
    else
      var step := RepairStep(h, network(sent), partial, attempt == REPAIR_ATTEMPTS);
      if step.Some? then (step.value, sent + 1) else Repair(h, network, partial, attempt + 1, sent + 1)
  }

  function Call(h: Host, network: Network, jsonMode: bool, attempt: nat, sent: nat): (Outcome, nat)
    decreases MAX_RETRIES + 1 - attempt
  {
    if attempt > MAX_RETRIES then (Failed(RetryExhausted), sent)
    else
      match network(sent)
      case Err(e) =>
        if ShouldTerminate(e) then (Failed(e), sent + 1) else Call(h, network, jsonMode, attempt + 1, sent + 1)
      case Ok(response) =>
        if !jsonMode || !HasFirstChoice(response) then (Returned(response), sent + 1)
        else
          match Detect(h, ContentOf(response), response.choices.value[0].stoppedByLength)
          case Complete => (Returned(response), sent + 1)
          case Invalid => (Failed(ParseError), sent + 1)
          case DetectionPanics => (Crashed, sent + 1)
          case Truncated(partial, _) =>
            var (repaired, sent') := Repair(h, network, partial, 1, sent + 1);
            if repaired.Failed? && attempt < MAX_RETRIES then Call(h, network, jsonMode, attempt + 1, sent')
            else (repaired, sent')
  }

  method RepairTruncation(h: Host, network: Network, partial: Text, start: nat) returns (r: Outcome, sent: nat)
    ensures (r, sent) == Repair(h, network, partial, 1, start)
  {
    sent := start;
    for attempt := 1 to REPAIR_ATTEMPTS + 1
      invariant Repair(h, network, partial, 1, start) == Repair(h, network, partial, attempt, sent)
    {
      var reply := network(sent);
      sent := sent + 1;
      match reply {
        case Ok(response) =>
          if !HasFirstChoice(response) { return Returned(response), sent; }
          var merged := MergeTruncatedOutput(h.trim(partial), h.trim(ContentOf(response)));
          if merged.None? { return Crashed, sent; }
          if h.parses(merged.value) { return Returned(WithContent(response, merged.value)), sent; }
          if attempt == REPAIR_ATTEMPTS { return Failed(TruncationRepairFailed), sent; }
        case Err(e) =>
          if ShouldTerminate(e) { return Failed(e), sent; }
      }
    }
    return Failed(TruncationRepairFailed), sent;
  }

  method CallWithRetry(h: Host, network: Network, jsonMode: bool) returns (r: Outcome, sent: nat)
    ensures (r, sent) == Call(h, network, jsonMode, 1, 0)
  {
    sent := 0;
    for attempt := 1 to MAX_RETRIES + 1
      invariant Call(h, network, jsonMode, 1, 0) == Call(h, network, jsonMode, attempt, sent)
    {
      var reply := network(sent);
      sent := sent + 1;
      match reply {
        case Err(e) =>
          if ShouldTerminate(e) { return Failed(e), sent; }
        case Ok(response) =>
          if !jsonMode || !HasFirstChoice(response) { return Returned(response), sent; }
          match Detect(h, ContentOf(response), response.choices.value[0].stoppedByLength) {
            case Complete => return Returned(response), sent;
            case Invalid => return Failed(ParseError), sent;
            case DetectionPanics => return Crashed, sent;
            case Truncated(partial, tail) =>
              var repaired;
              repaired, sent := RepairTruncation(h, network, partial, sent);
              if !repaired.Failed? || attempt == MAX_RETRIES { return repaired, sent; }
          }
      }
    }
    return Failed(RetryExhausted), sent;
  }

  // ---- What a call guarantees ----

  ghost predicate GoodOutcome(h: Host, r: Outcome) {
    r.Returned? && HasFirstChoice(r.response) ==> Usable(h, ContentOf(r.response))
  }

  lemma RepairStepIsGood(h: Host, reply: Result<Response, LlmError>, partial: Text, last: bool)
    requires Sane(h) && !h.parses(partial) && h.trim(partial) == partial
    ensures var step := RepairStep(h, reply, partial, last); step.Some? ==> GoodOutcome(h, step.value)
  {
    if reply.Ok? && HasFirstChoice(reply.value) && reply.value.choices.value[0].message.None? {
      assert Limit(partial, []) == 0;
      assert partial + [] == partial;
    }
  }

  lemma {:induction false} RepairIsGood(h: Host, network: Network, partial: Text, attempt: nat, sent: nat)
    requires Sane(h) && !h.parses(partial) && h.trim(partial) == partial && attempt <= REPAIR_ATTEMPTS + 1
    ensures GoodOutcome(h, Repair(h, network, partial, attempt, sent).0)
    ensures sent <= Repair(h, network, partial, attempt, sent).1 <= sent + (REPAIR_ATTEMPTS + 1 - attempt)
    decreases REPAIR_ATTEMPTS + 1 - attempt
  {
    if attempt <= REPAIR_ATTEMPTS {
      RepairStepIsGood(h, network(sent), partial, attempt == REPAIR_ATTEMPTS);
      RepairIsGood(h, network, partial, attempt + 1, sent + 1);
    }
  }

  lemma RepairOfDetected(h: Host, network: Network, response: Response, sent: nat)
    requires Sane(h) && HasFirstChoice(response)
    ensures var d := Detect(h, ContentOf(response), response.choices.value[0].stoppedByLength);
            (d.Complete? ==> GoodOutcome(h, Returned(response))) &&
            (d.Truncated? ==>
              var (r, sent') := Repair(h, network, d.partial, 1, sent);
              GoodOutcome(h, r) && sent <= sent' <= sent + REPAIR_ATTEMPTS)
  {
    var stopped := response.choices.value[0].stoppedByLength;
    DetectionMeaning(h, ContentOf(response), stopped);
    var d := Detect(h, ContentOf(response), stopped);
    if d.Truncated? { RepairIsGood(h, network, d.partial, 1, sent); }
  }

  // From this attempt on: a fine outcome, and at most three more requests for every attempt left.
  ghost predicate GoodFrom(h: Host, network: Network, jsonMode: bool, attempt: nat, sent: nat)
    requires attempt <= MAX_RETRIES + 1
  {
    var (r, sent') := Call(h, network, jsonMode, attempt, sent);
    (jsonMode ==> GoodOutcome(h, r)) && sent <= sent' <= sent + 3 * (MAX_RETRIES + 1 - attempt)
  }

  lemma ErrorIsGood(h: Host, network: Network, jsonMode: bool, attempt: nat, sent: nat)
    requires attempt <= MAX_RETRIES && network(sent).Err? && GoodFrom(h, network, jsonMode, attempt + 1, sent + 1)
    ensures GoodFrom(h, network, jsonMode, attempt, sent)
  {
  }

  // A truncated reply leads to its repair and, if that fails, to the attempts left.
  lemma CallOnTruncated(h: Host, network: Network, attempt: nat, sent: nat, partial: Text, tail: Text)
    requires attempt <= MAX_RETRIES && network(sent).Ok? && HasFirstChoice(network(sent).value)
    requires Detect(h, ContentOf(network(sent).value), network(sent).value.choices.value[0].stoppedByLength) ==
             Truncated(partial, tail)
    ensures var repair := Repair(h, network, partial, 1, sent + 1);
            Call(h, network, true, attempt, sent) ==
            if repair.0.Failed? && attempt < MAX_RETRIES then Call(h, network, true, attempt + 1, repair.1) else repair
  {
  }

  // Outcome and count are fine, with between n and m requests sent by then.
  ghost predicate FineBetween(h: Host, call: (Outcome, nat), n: nat, m: nat) {
    GoodOutcome(h, call.0) && n <= call.1 <= m
  }

  lemma RepairOrLater(h: Host, here: (Outcome, nat), repair: (Outcome, nat), later: (Outcome, nat), sent: nat,
                      left: nat)
    requires here == repair || here == later
    requires FineBetween(h, repair, sent + 1, sent + 3) && FineBetween(h, later, repair.1, repair.1 + 3 * left)
    ensures FineBetween(h, here, sent, sent + 3 * (left + 1))
  {
  }

  lemma TruncatedIsGood(h: Host, network: Network, attempt: nat, sent: nat, repair: (Outcome, nat))
    requires attempt <= MAX_RETRIES
    requires Call(h, network, true, attempt, sent) == repair ||
             Call(h, network, true, attempt, sent) == Call(h, network, true, attempt + 1, repair.1)
    requires FineBetween(h, repair, sent + 1, sent + 3)
    requires GoodFrom(h, network, true, attempt + 1, repair.1)
    ensures GoodFrom(h, network, true, attempt, sent)
  {
    var here, later := Call(h, network, true, attempt, sent), Call(h, network, true, attempt + 1, repair.1);
    RepairOrLater(h, here, repair, later, sent, MAX_RETRIES - attempt);
  }

  lemma RepairIsFine(h: Host, network: Network, response: Response, sent: nat, partial: Text, tail: Text)
    requires Sane(h) && HasFirstChoice(response)
    requires Detect(h, ContentOf(response), response.choices.value[0].stoppedByLength) == Truncated(partial, tail)
    ensures FineBetween(h, Repair(h, network, partial, 1, sent + 1), sent + 1, sent + 3)
  {
    RepairOfDetected(h, network, response, sent + 1);
  }

  lemma OtherReplyIsGood(h: Host, network: Network, jsonMode: bool, attempt: nat, sent: nat)
    requires Sane(h) && attempt <= MAX_RETRIES && network(sent).Ok?
    requires jsonMode && HasFirstChoice(network(sent).value) ==>
      !Detect(h, ContentOf(network(sent).value), network(sent).value.choices.value[0].stoppedByLength).Truncated?
    ensures GoodFrom(h, network, jsonMode, attempt, sent)
  {
    if HasFirstChoice(network(sent).value) { RepairOfDetected(h, network, network(sent).value, sent + 1); }
  }

  lemma {:induction false} CallIsGood(h: Host, network: Network, jsonMode: bool, attempt: nat, sent: nat)
    requires Sane(h) && attempt <= MAX_RETRIES + 1
    ensures GoodFrom(h, network, jsonMode, attempt, sent)
    decreases MAX_RETRIES + 1 - attempt
  {
    if attempt <= MAX_RETRIES {
      if network(sent).Err? {
        CallIsGood(h, network, jsonMode, attempt + 1, sent + 1);
        ErrorIsGood(h, network, jsonMode, attempt, sent);
      } else if jsonMode && HasFirstChoice(network(sent).value) {
        var d := Detect(h, ContentOf(network(sent).value), network(sent).value.choices.value[0].stoppedByLength);
        if d.Truncated? {
          CallIsGood(h, network, jsonMode, attempt + 1, Repair(h, network, d.partial, 1, sent + 1).1);
          CallOnTruncated(h, network, attempt, sent, d.partial, d.tail);
          RepairIsFine(h, network, network(sent).value, sent, d.partial, d.tail);
          TruncatedIsGood(h, network, attempt, sent, Repair(h, network, d.partial, 1, sent + 1));
        } else {
          OtherReplyIsGood(h, network, jsonMode, attempt, sent);
        }
      } else {
        OtherReplyIsGood(h, network, jsonMode, attempt, sent);
      }
    }
  }

  /**
    One call sends at most nine requests; and in JSON mode a returned response with a
    first choice carries content that parses or contains extractable JSON, however it
    was repaired.
  */
  lemma AtMostNineRequests(h: Host, network: Network, jsonMode: bool)
    requires Sane(h)
    ensures Call(h, network, jsonMode, 1, 0).1 <= 9
    ensures jsonMode ==> GoodOutcome(h, Call(h, network, jsonMode, 1, 0).0)
  {
    CallIsGood(h, network, jsonMode, 1, 0);
  }

  function Cut(t: Text): Response {
    Response(Some([Choice(Some(Message(Some(t))), true)]))
  }

  // Every reply is the same short ASCII text that does not parse, cut off.
  ghost predicate AlwaysCut(h: Host, network: Network, t: Text) {
    Ascii(t) && |t| <= MAX_OVERLAP && h.trim(t) == t && !h.parses(t) && forall i :: network(i) == Ok(Cut(t))
  }

  // A short text continued by itself overlaps itself completely.
  lemma MergedWithItself(t: Text)
    requires Ascii(t) && |t| <= MAX_OVERLAP
    ensures Merged(t, t) == Some(t)
  {
    AsciiMerges(t, t);
    assert Limit(t, t) == |t| && Overlaps(t, t, |t|);
    assert t + [] == t;
  }

  lemma CutStep(h: Host, network: Network, t: Text, sent: nat, last: bool)
    requires AlwaysCut(h, network, t)
    ensures RepairStep(h, network(sent), t, last) == if last then Some(Failed(TruncationRepairFailed)) else None
  {
    MergedWithItself(t);
    assert ContentOf(Cut(t)) == t;
  }

  lemma CutRepair(h: Host, network: Network, t: Text, sent: nat)
    requires AlwaysCut(h, network, t)
    ensures Repair(h, network, t, 1, sent) == (Failed(TruncationRepairFailed), sent + 2)
  {
    CutStep(h, network, t, sent, false);
    CutStep(h, network, t, sent + 1, true);
    assert Repair(h, network, t, 2, sent + 1) == (Failed(TruncationRepairFailed), sent + 2);
  }

  lemma CutCall(h: Host, network: Network, t: Text, attempt: nat, sent: nat)
    requires AlwaysCut(h, network, t) && 1 <= attempt <= MAX_RETRIES
    ensures Call(h, network, true, attempt, sent) ==
              if attempt < MAX_RETRIES then Call(h, network, true, attempt + 1, sent + 3)
              else (Failed(TruncationRepairFailed), sent + 3)
  {
    CutRepair(h, network, t, sent + 1);
    assert network(sent) == Ok(Cut(t)) && ContentOf(Cut(t)) == t;
    assert h.trim(t) == t && !h.parses(t);
    assert Detect(h, t, true).Truncated?;
  }

  /** Nine is reached when every reply is the same short ASCII text, cut off, that does not parse. */
  lemma NineRequestsHappen(h: Host, network: Network, t: Text)
    requires AlwaysCut(h, network, t)
    ensures Call(h, network, true, 1, 0) == (Failed(TruncationRepairFailed), 9)
  {
    CutCall(h, network, t, 1, 0);
    CutCall(h, network, t, 2, 3);
    CutCall(h, network, t, 3, 6);
  }

  // ---- Terminating errors ----

  // What a request is for: the attempt's own, or its k-th repair.
  datatype Role = Own(attempt: nat) | Repairing(attempt: nat, k: nat)

  // The role of request n in a repair that has sent the requests before `sent`; None when it is not sent there.
  function RoleInRepair(h: Host, network: Network, partial: Text, attempt: nat, k: nat, sent: nat, n: nat): Option<Role>
    decreases REPAIR_ATTEMPTS + 1 - k
  {
    if k > REPAIR_ATTEMPTS then None
    else if n == sent then Some(Repairing(attempt, k))
    else if RepairStep(h, network(sent), partial, k == REPAIR_ATTEMPTS).Some? then None
    else RoleInRepair(h, network, partial, attempt, k + 1, sent + 1, n)
  }

  // The role of request n in a call from an attempt on.
  function RoleOf(h: Host, network: Network, jsonMode: bool, attempt: nat, sent: nat, n: nat): Option<Role>
    decreases MAX_RETRIES + 1 - attempt
  {
    if attempt > MAX_RETRIES then None
    else if n == sent then Some(Own(attempt))
    else
      match network(sent)
      case Err(e) => if ShouldTerminate(e) then None else RoleOf(h, network, jsonMode, attempt + 1, sent + 1, n)
      case Ok(response) =>
        if !jsonMode || !HasFirstChoice(response) then None
        else
          match Detect(h, ContentOf(response), response.choices.value[0].stoppedByLength)
          case Truncated(partial, _) =>
            var repairing := RoleInRepair(h, network, partial, attempt, 1, sent + 1, n);
            var (repaired, sent') := Repair(h, network, partial, 1, sent + 1);
            if repairing.Some? then repairing
            else if repaired.Failed? && attempt < MAX_RETRIES then RoleOf(h, network, jsonMode, attempt + 1, sent', n)
            else None
          case _ => None
  }

  ghost predicate Terminates(network: Network, n: nat) {
    network(n).Err? && ShouldTerminate(network(n).error)
  }

  lemma {:induction false} RepairEndsAt(h: Host, network: Network, partial: Text, attempt: nat, k: nat, sent: nat,
                                        n: nat)
    requires RoleInRepair(h, network, partial, attempt, k, sent, n).Some?
    ensures sent <= n < Repair(h, network, partial, k, sent).1
    ensures RoleInRepair(h, network, partial, attempt, k, sent, n).value.Repairing?
    ensures RoleInRepair(h, network, partial, attempt, k, sent, n).value.attempt == attempt
    ensures Terminates(network, n) ==> Repair(h, network, partial, k, sent) == (Failed(network(n).error), n + 1)
    decreases REPAIR_ATTEMPTS + 1 - k
  {
    if n != sent { RepairEndsAt(h, network, partial, attempt, k + 1, sent + 1, n); }
    RepairSends(h, network, partial, k, sent);
  }

  lemma {:induction false} RepairSends(h: Host, network: Network, partial: Text, k: nat, sent: nat)
    ensures Repair(h, network, partial, k, sent).1 >= if k > REPAIR_ATTEMPTS then sent else sent + 1
    decreases REPAIR_ATTEMPTS + 1 - k
  {
    if k <= REPAIR_ATTEMPTS { RepairSends(h, network, partial, k + 1, sent + 1); }
  }

  lemma {:induction false} CallSends(h: Host, network: Network, jsonMode: bool, attempt: nat, sent: nat)
    ensures Call(h, network, jsonMode, attempt, sent).1 >= if attempt > MAX_RETRIES then sent else sent + 1
    decreases MAX_RETRIES + 1 - attempt
  {
    if attempt <= MAX_RETRIES {
      CallSends(h, network, jsonMode, attempt + 1, sent + 1);
      if network(sent).Ok? && jsonMode && HasFirstChoice(network(sent).value) {
        var d := Detect(h, ContentOf(network(sent).value), network(sent).value.choices.value[0].stoppedByLength);
        if d.Truncated? {
          RepairSends(h, network, d.partial, 1, sent + 1);
          CallSends(h, network, jsonMode, attempt + 1, Repair(h, network, d.partial, 1, sent + 1).1);
        }
      }
    }
  }

  lemma {:induction false} RepairRolesAreRequests(h: Host, network: Network, partial: Text, attempt: nat, k: nat,
                                                  sent: nat, n: nat)
    requires sent <= n
    ensures RoleInRepair(h, network, partial, attempt, k, sent, n).Some? <==> n < Repair(h, network, partial, k, sent).1
    decreases REPAIR_ATTEMPTS + 1 - k
  {
    RepairSends(h, network, partial, k, sent);
    if k <= REPAIR_ATTEMPTS && n > sent { RepairRolesAreRequests(h, network, partial, attempt, k + 1, sent + 1, n); }
  }

  lemma ErrorRoles(h: Host, network: Network, jsonMode: bool, attempt: nat, sent: nat, n: nat)
    requires attempt <= MAX_RETRIES && sent < n && network(sent).Err?
    requires RoleOf(h, network, jsonMode, attempt + 1, sent + 1, n).Some? <==>
             n < Call(h, network, jsonMode, attempt + 1, sent + 1).1
    ensures RoleOf(h, network, jsonMode, attempt, sent, n).Some? <==> n < Call(h, network, jsonMode, attempt, sent).1
  {
  }

  lemma LastReplyRoles(h: Host, network: Network, jsonMode: bool, attempt: nat, sent: nat, n: nat)
    requires attempt <= MAX_RETRIES && sent < n && network(sent).Ok?
    requires jsonMode && HasFirstChoice(network(sent).value) ==>
      !Detect(h, ContentOf(network(sent).value), network(sent).value.choices.value[0].stoppedByLength).Truncated?
    ensures RoleOf(h, network, jsonMode, attempt, sent, n) == None &&
            Call(h, network, jsonMode, attempt, sent).1 == sent + 1
  {
  }

  lemma FirstRole(h: Host, network: Network, jsonMode: bool, attempt: nat, sent: nat, n: nat)
    requires attempt > MAX_RETRIES || n == sent
    ensures RoleOf(h, network, jsonMode, attempt, sent, n).Some? <==>
            attempt <= MAX_RETRIES && n == sent
    ensures attempt > MAX_RETRIES ==> Call(h, network, jsonMode, attempt, sent).1 == sent
  {
  }

  /** The requests that have a role are exactly those the call sends. */
  lemma {:induction false} RolesAreRequests(h: Host, network: Network, jsonMode: bool, attempt: nat, sent: nat, n: nat)
    requires sent <= n
    ensures RoleOf(h, network, jsonMode, attempt, sent, n).Some? <==> n < Call(h, network, jsonMode, attempt, sent).1
    decreases MAX_RETRIES + 1 - attempt, 1
  {
    if attempt > MAX_RETRIES || n == sent {
      FirstRole(h, network, jsonMode, attempt, sent, n);
      CallSends(h, network, jsonMode, attempt, sent);
    } else if network(sent).Err? {
      RolesAreRequests(h, network, jsonMode, attempt + 1, sent + 1, n);
      ErrorRoles(h, network, jsonMode, attempt, sent, n);
    } else if jsonMode && HasFirstChoice(network(sent).value) &&
              Detect(h, ContentOf(network(sent).value),
                     network(sent).value.choices.value[0].stoppedByLength).Truncated? {
      var d := Detect(h, ContentOf(network(sent).value), network(sent).value.choices.value[0].stoppedByLength);
      TruncatedRoles(h, network, attempt, sent, d.partial, d.tail, n);
    } else {
      LastReplyRoles(h, network, jsonMode, attempt, sent, n);
    }
  }

  // A truncated reply's requests are its repairs and, if those fail, the attempts left.
  lemma RoleOnTruncated(h: Host, network: Network, attempt: nat, sent: nat, partial: Text, tail: Text, n: nat)
    requires attempt <= MAX_RETRIES && sent < n && network(sent).Ok? && HasFirstChoice(network(sent).value)
    requires Detect(h, ContentOf(network(sent).value), network(sent).value.choices.value[0].stoppedByLength) ==
             Truncated(partial, tail)
    ensures var repairing := RoleInRepair(h, network, partial, attempt, 1, sent + 1, n);
            var repair := Repair(h, network, partial, 1, sent + 1);
            RoleOf(h, network, true, attempt, sent, n) ==
              if repairing.Some? then repairing
              else if repair.0.Failed? && attempt < MAX_RETRIES then RoleOf(h, network, true, attempt + 1, repair.1, n)
              else None
  {
  }

  lemma {:induction false} TruncatedRoles(h: Host, network: Network, attempt: nat, sent: nat, partial: Text,
                                          tail: Text, n: nat)
    requires attempt <= MAX_RETRIES && sent < n && network(sent).Ok? && HasFirstChoice(network(sent).value)
    requires Detect(h, ContentOf(network(sent).value), network(sent).value.choices.value[0].stoppedByLength) ==
             Truncated(partial, tail)
    ensures RoleOf(h, network, true, attempt, sent, n).Some? <==> n < Call(h, network, true, attempt, sent).1
    decreases MAX_RETRIES + 1 - attempt, 0
  {
    var sent' := Repair(h, network, partial, 1, sent + 1).1;
    RepairRolesAreRequests(h, network, partial, attempt, 1, sent + 1, n);
    RoleOnTruncated(h, network, attempt, sent, partial, tail, n);
    CallOnTruncated(h, network, attempt, sent, partial, tail);
    if attempt < MAX_RETRIES {
      CallSends(h, network, true, attempt + 1, sent');
      if sent' <= n { RolesAreRequests(h, network, true, attempt + 1, sent', n); }
    }
  }

  // The call ends with the answer to request n, which is the error it returns.
  ghost predicate EndsAt(call: (Outcome, nat), network: Network, n: nat) {
    network(n).Err? && call == (Failed(network(n).error), n + 1)
  }

  lemma OwnErrorEnds(h: Host, network: Network, jsonMode: bool, attempt: nat, sent: nat)
    requires attempt <= MAX_RETRIES && Terminates(network, sent)
    ensures EndsAt(Call(h, network, jsonMode, attempt, sent), network, sent)
  {
  }

  // The error answers a repair request of this very attempt.
  lemma RepairErrorEndsIff(h: Host, network: Network, attempt: nat, sent: nat, partial: Text, tail: Text, n: nat)
    requires attempt <= MAX_RETRIES && network(sent).Ok? && HasFirstChoice(network(sent).value)
    requires Detect(h, ContentOf(network(sent).value), network(sent).value.choices.value[0].stoppedByLength) ==
             Truncated(partial, tail)
    requires RoleInRepair(h, network, partial, attempt, 1, sent + 1, n).Some? && Terminates(network, n)
    ensures EndsAt(Call(h, network, true, attempt, sent), network, n) <==> attempt == MAX_RETRIES
    ensures Call(h, network, true, attempt, sent).1 > n
  {
    RepairEndsAt(h, network, partial, attempt, 1, sent + 1, n);
    if attempt < MAX_RETRIES { CallSends(h, network, true, attempt + 1, n + 1); }
  }

  /**
    A terminating error, to whichever request of the call, ends the call exactly when it answers
    an attempt's own request or a repair request of the last attempt. After any other repair
    request the call goes on.
  */
  lemma {:induction false} TerminatingErrorEndsIff(h: Host, network: Network, jsonMode: bool, attempt: nat, sent: nat,
                                                   n: nat)
    requires RoleOf(h, network, jsonMode, attempt, sent, n).Some? && Terminates(network, n)
    ensures var role := RoleOf(h, network, jsonMode, attempt, sent, n).value;
            EndsAt(Call(h, network, jsonMode, attempt, sent), network, n) <==> role.Own? || role.attempt == MAX_RETRIES
    ensures Call(h, network, jsonMode, attempt, sent).1 > n
    decreases MAX_RETRIES + 1 - attempt
  {
    if n == sent {
      OwnErrorEnds(h, network, jsonMode, attempt, sent);
    } else if network(sent).Err? {
      TerminatingErrorEndsIff(h, network, jsonMode, attempt + 1, sent + 1, n);
    } else {
      var response := network(sent).value;
      var d := Detect(h, ContentOf(response), response.choices.value[0].stoppedByLength);
      if RoleInRepair(h, network, d.partial, attempt, 1, sent + 1, n).Some? {
        RepairEndsAt(h, network, d.partial, attempt, 1, sent + 1, n);
        RepairErrorEndsIff(h, network, attempt, sent, d.partial, d.tail, n);
      } else {
        TerminatingErrorEndsIff(h, network, jsonMode, attempt + 1, Repair(h, network, d.partial, 1, sent + 1).1, n);
      }
    }
  }

  // A whole text that parses, not cut off.
  function Whole(t: Text): Response {
    Response(Some([Choice(Some(Message(Some(t))), false)]))
  }

  // A reply that is cut off, a rejected key on the repair request, then a whole reply.
  function RejectedRepair(t: Text, u: Text): Network {
    (n: nat) => if n == 0 then Ok(Cut(t)) else if n == 1 then Err(ClientError) else Ok(Whole(u))
  }

  /** A client error that answers a repair request does not end the call: here the next attempt succeeds. */
  lemma RejectedRepairIsRetried(h: Host, t: Text, u: Text)
    requires h.trim(t) == t && !h.parses(t) && |t| <= TAIL_BYTES && h.parses(h.trim(u))
    ensures Call(h, RejectedRepair(t, u), true, 1, 0) == (Returned(Whole(u)), 3)
  {
    var network := RejectedRepair(t, u);
    assert ContentOf(Cut(t)) == t && ContentOf(Whole(u)) == u;
    assert Detect(h, t, true) == Truncated(t, t[0..]);
    assert Repair(h, network, t, 1, 1) == (Failed(ClientError), 2);
    assert Call(h, network, true, 2, 2) == (Returned(Whole(u)), 3);
  }

  /** A cut-off text of 513 bytes that begins with an accented letter makes the detector panic. */
  lemma DetectionCanSplitACharacter(h: Host)
    requires h.trim(ACCENTED) == ACCENTED && !h.parses(ACCENTED)
    ensures |ACCENTED| == 513 && Detect(h, ACCENTED, true) == DetectionPanics
  {
    assert ACCENTED[1] == 0xA9;
  }

  const ACCENTED: Text := [0xC3, 0xA9] + seq(511, _ => 0x61)
}
