/** Which answers end a call of the model client and which are asked for again, told by the errors' names. */
module LlmErrors {
  import opened Wrappers
  import opened LlmRetry

  // ---- One request ----

  datatype Body = Unreadable | TooLarge | NotAResponse | Parsed(response: Response)

  // What a request meets with: a key that is no header value, a body that cannot be written, no answer, or a status
  // with a body.
  datatype Wire = KeyIsNoHeader | NotWritten | NoAnswer | Answer(status: nat, body: Body)

  function Reply(w: Wire): Result<Response, LlmError> {
    match w
    case KeyIsNoHeader => Err(HttpError)
    case NotWritten => Err(SerializationError)
    case NoAnswer => Err(HttpError)
    case Answer(status, body) =>
      if status == 200 then
        match body
        case Unreadable => Err(HttpError)
        case TooLarge => Err(ServerError)
        case NotAResponse => Err(ParseError)
        case Parsed(response) => Ok(response)
      else if status in {400, 401, 402, 422} then Err(ClientError)
      else Err(ServerError)
  }

  // A request met with this is worth sending again.
  predicate Passing(w: Wire) {
    w.KeyIsNoHeader? || w.NoAnswer? ||
    (w.Answer? && if w.status == 200 then w.body == Unreadable || w.body == TooLarge
                  else w.status != 400 && w.status != 401 && w.status != 402 && w.status != 422)
  }

  // The errors that do not end a call. The last two come from the loops, never from a request.
  predicate AskedAgain(e: LlmError) {
    match e
    case HttpError | RateLimited | ServerError => true
    case TruncationRepairFailed | RetryExhausted => true
    case ApiKeyMissing | ClientError | ParseError | SerializationError => false
  }

  // ---- The attempts ----

  /** An error that answers an attempt's own request is followed by another request exactly if it is asked again. */
  lemma OwnErrorFollowedIff(h: Host, network: Network, jsonMode: bool, attempt: nat, sent: nat)
    requires attempt < MAX_RETRIES && network(sent).Err?
    ensures Call(h, network, jsonMode, attempt, sent) ==
            if AskedAgain(network(sent).error) then Call(h, network, jsonMode, attempt + 1, sent + 1)
            else (Failed(network(sent).error), sent + 1)
    ensures Call(h, network, jsonMode, attempt, sent).1 > sent + 1 <==> AskedAgain(network(sent).error)
  {
    CallSends(h, network, jsonMode, attempt + 1, sent + 1);
  }

  // The first n requests are answered by errors that are asked again.
  ghost predicate FirstAskedAgain(network: Network, n: nat) {
    forall i: nat :: i < n ==> network(i).Err? && AskedAgain(network(i).error)
  }

  lemma {:induction false} AfterErrors(h: Host, network: Network, jsonMode: bool, n: nat)
    requires n <= MAX_RETRIES && FirstAskedAgain(network, n)
    ensures Call(h, network, jsonMode, 1, 0) == Call(h, network, jsonMode, 1 + n, n)
  {
    if n > 0 {
      AfterErrors(h, network, jsonMode, n - 1);
      assert network(n - 1).Err? && AskedAgain(network(n - 1).error);
    }
  }

  // A reply that is taken as it is: in JSON mode one that is not cut off and parses or holds JSON that does.
  predicate TakenAsItIs(h: Host, jsonMode: bool, response: Response) {
    !jsonMode || !HasFirstChoice(response) ||
    (!response.choices.value[0].stoppedByLength &&
     (h.parses(h.trim(ContentOf(response))) ||
      (h.extract(ContentOf(response)).Some? && h.parses(h.extract(ContentOf(response)).value))))
  }

  /**
    Fewer than three such errors and then a reply that is taken as it is: the call returns it, with one request more.
  */
  lemma ErrorsThenReply(h: Host, network: Network, jsonMode: bool, n: nat)
    requires n < MAX_RETRIES && FirstAskedAgain(network, n)
    requires network(n).Ok? && TakenAsItIs(h, jsonMode, network(n).value)
    ensures Call(h, network, jsonMode, 1, 0) == (Returned(network(n).value), n + 1)
  {
    AfterErrors(h, network, jsonMode, n);
  }

  /** Fewer than three such errors and then one that is not asked again: the call fails with it at once. */
  lemma ErrorsThenEnd(h: Host, network: Network, jsonMode: bool, n: nat)
    requires n < MAX_RETRIES && FirstAskedAgain(network, n)
    requires network(n).Err? && !AskedAgain(network(n).error)
    ensures Call(h, network, jsonMode, 1, 0) == (Failed(network(n).error), n + 1)
  {
    AfterErrors(h, network, jsonMode, n);
  }

  /** Three such errors use the attempts up. */
  lemma ThreeErrorsExhaust(h: Host, network: Network, jsonMode: bool)
    requires FirstAskedAgain(network, MAX_RETRIES)
    ensures Call(h, network, jsonMode, 1, 0) == (Failed(RetryExhausted), 3)
  {
    AfterErrors(h, network, jsonMode, MAX_RETRIES);
  }

  // ---- The repair requests ----

  /** The first repair request's error is followed by the second exactly if it is asked again. */
  lemma RepairErrorFollowedIff(h: Host, network: Network, partial: Text, sent: nat)
    requires network(sent).Err?
    ensures Repair(h, network, partial, 1, sent) ==
            if AskedAgain(network(sent).error) then Repair(h, network, partial, 2, sent + 1)
            else (Failed(network(sent).error), sent + 1)
    ensures Repair(h, network, partial, 1, sent).1 == sent + 2 <==> AskedAgain(network(sent).error)
  {
  }

  /** The second repair request's error fails the repair: with itself, or as a failed repair if it is asked again. */
  lemma SecondRepairErrorFails(h: Host, network: Network, partial: Text, sent: nat)
    requires network(sent).Err?
    ensures Repair(h, network, partial, 2, sent) ==
            (Failed(if AskedAgain(network(sent).error) then TruncationRepairFailed else network(sent).error), sent + 1)
  {
  }

  /**
    A cut-off reply, one error asked again, then a continuation that merges into text that parses: the call returns the
    continuation with the merged text, after three requests.
  */
  lemma RepairedAfterAnError(h: Host, network: Network, response: Response, continuation: Response)
    requires network(0) == Ok(response) && HasFirstChoice(response)
    requires Detect(h, ContentOf(response), response.choices.value[0].stoppedByLength).Truncated?
    requires network(1).Err? && AskedAgain(network(1).error)
    requires network(2) == Ok(continuation) && HasFirstChoice(continuation)
    requires var merged := Merged(h.trim(h.trim(ContentOf(response))), h.trim(ContentOf(continuation)));
             merged.Some? && h.parses(merged.value)
    ensures Call(h, network, true, 1, 0) ==
            (Returned(WithContent(continuation,
                        Merged(h.trim(h.trim(ContentOf(response))), h.trim(ContentOf(continuation))).value)), 3)
  {
    var d := Detect(h, ContentOf(response), response.choices.value[0].stoppedByLength);
    assert d.partial == h.trim(ContentOf(response));
    RepairErrorFollowedIff(h, network, d.partial, 1);
    CallOnTruncated(h, network, 1, 0, d.partial, d.tail);
  }

  // ---- Statuses ----

  /** One request ends in an error that is asked again exactly if what it met with is passing. */
  lemma PassingIff(w: Wire)
    ensures Reply(w).Err? && AskedAgain(Reply(w).error) <==> Passing(w)
    ensures Reply(w).Ok? <==> w.Answer? && w.status == 200 && w.body.Parsed?
    ensures Reply(w).Err? ==> Reply(w).error !in {ApiKeyMissing, RateLimited, TruncationRepairFailed, RetryExhausted}
  {
  }

  // Requests answered one after the other.
  function Wired(wires: nat -> Wire): Network {
    (n: nat) => Reply(wires(n))
  }

  /**
    A 503, or any status but the four that say the request is bad, is asked again: here the next answer is returned.
  */
  lemma OverloadedThenReply(h: Host, wires: nat -> Wire, jsonMode: bool, response: Response)
    requires wires(0).Answer? && wires(0).status !in {200, 400, 401, 402, 422}
    requires wires(1) == Answer(200, Parsed(response)) && TakenAsItIs(h, jsonMode, response)
    ensures Call(h, Wired(wires), jsonMode, 1, 0) == (Returned(response), 2)
  {
    var network := Wired(wires);
    assert network(0) == Err(ServerError) && network(1) == Ok(response);
    ErrorsThenReply(h, network, jsonMode, 1);
  }
}
