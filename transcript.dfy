/** The status decision of the polling loop in `get_transcript` (main.py):
    after the job is submitted, the transcript endpoint is queried again and
    again; the first response whose status is "completed" ends the loop with
    the transcript, the first whose status is "error" ends it with a failure,
    and every other status leads to a five-second sleep and another query.
    The HTTP exchange is abstracted to the sequence of responses the endpoint
    gives. */
module Transcript {
  import opened Wrappers
  import opened Segments

  /** `time.sleep(5)` between two queries. */
  const POLL_INTERVAL_SECONDS: nat := 5

  /** The decoded JSON of one status response. */
  datatype StatusBody = StatusBody(status: string, error: Option<string>, utterances: seq<Utterance>)

  /** One response of the transcript endpoint: its HTTP status code and body. */
  datatype PollResponse = PollResponse(httpStatus: nat, body: StatusBody)

  /** Why `get_transcript` raised. */
  datatype PollFailure =
    | HttpError(code: nat)              // `raise_for_status()` on a 4xx or 5xx response
    | TranscriptionFailed(detail: string) // status "error": "Transcription failed: {detail}"
    | MissingErrorDetail                // status "error" without an "error" field: a KeyError

  /** How polling a given run of responses ends. */
  datatype PollOutcome =
    | Completed(utterances: seq<Utterance>)
    | Failed(failure: PollFailure)
    | StillPolling                      // every response so far said "keep waiting"

  /** `raise_for_status()` raises for client and server error codes. */
  predicate IsHttpError(code: nat) {
    400 <= code < 600
  }

  /** A response after which the loop sleeps and polls again. */
  predicate KeepsPolling(r: PollResponse) {
    !IsHttpError(r.httpStatus) && r.body.status != "completed" && r.body.status != "error"
  }

  /** What one response decides, for a response that ends the loop. */
  function Decide(r: PollResponse): (o: PollOutcome)
    requires !KeepsPolling(r)
    ensures o != StillPolling
    ensures o.Completed? <==> !IsHttpError(r.httpStatus) && r.body.status == "completed"
    ensures o.Completed? ==> o.utterances == r.body.utterances
  {
    if IsHttpError(r.httpStatus) then Failed(HttpError(r.httpStatus))
    else if r.body.status == "completed" then Completed(r.body.utterances)
    else if r.body.error.Some? then Failed(TranscriptionFailed(r.body.error.value))
    else Failed(MissingErrorDetail)
  }

  /** The outcome of polling the responses in order. */
  function PollResult(responses: seq<PollResponse>): PollOutcome
  {
    if |responses| == 0 then StillPolling
    else if KeepsPolling(responses[0]) then PollResult(responses[1..])
    else Decide(responses[0])
  }

  /** The outcome is decided by the first response that is not a "keep
      waiting" one; if there is none, the loop has not ended. */
  lemma {:induction false} FirstDecisiveResponse(responses: seq<PollResponse>, k: nat)
    requires k <= |responses|
    requires forall j :: 0 <= j < k ==> KeepsPolling(responses[j])
    ensures k < |responses| && !KeepsPolling(responses[k]) ==> PollResult(responses) == Decide(responses[k])
    ensures k == |responses| ==> PollResult(responses) == StillPolling
  {
    if k > 0 {
      FirstDecisiveResponse(responses[1..], k - 1);
    }
  }

  /** Polling succeeds exactly when some response is "completed" with no
      error code and every earlier response said "keep waiting"; the
      transcript is the one that response carries. */
  lemma CompletedIff(responses: seq<PollResponse>, k: nat)
    requires k < |responses|
    requires forall j :: 0 <= j < k ==> KeepsPolling(responses[j])
    requires !KeepsPolling(responses[k])
    ensures PollResult(responses).Completed?
        <==> !IsHttpError(responses[k].httpStatus) && responses[k].body.status == "completed"
    ensures PollResult(responses).Completed? ==> PollResult(responses).utterances == responses[k].body.utterances
  {
    FirstDecisiveResponse(responses, k);
  }

  /** The `while True` loop of `get_transcript` over the responses the
      endpoint gives: `sleeps` counts the five-second waits and `waited` the
      seconds spent in them. The loop stops at the first decisive response;
      if the responses run out first it is still polling. */
  method Poll(responses: seq<PollResponse>) returns (outcome: PollOutcome, sleeps: nat, waited: nat)
    ensures outcome == PollResult(responses)
    ensures waited == POLL_INTERVAL_SECONDS * sleeps
    ensures sleeps <= |responses|
    ensures forall j :: 0 <= j < sleeps ==> KeepsPolling(responses[j])
    ensures outcome == StillPolling <==> sleeps == |responses|
    ensures sleeps < |responses| ==> !KeepsPolling(responses[sleeps]) && outcome == Decide(responses[sleeps])
  {
    sleeps, waited := 0, 0;
    while sleeps < |responses|
      invariant sleeps <= |responses|
      invariant waited == POLL_INTERVAL_SECONDS * sleeps
      invariant forall j :: 0 <= j < sleeps ==> KeepsPolling(responses[j])
    {
      var response := responses[sleeps];
      if IsHttpError(response.httpStatus) {
        outcome := Failed(HttpError(response.httpStatus));
        FirstDecisiveResponse(responses, sleeps);
        return;
      }
      if response.body.status == "completed" {
        outcome := Completed(response.body.utterances);
        FirstDecisiveResponse(responses, sleeps);
        return;
      } else if response.body.status == "error" {
        if response.body.error.Some? {
          outcome := Failed(TranscriptionFailed(response.body.error.value));
        } else {
          outcome := Failed(MissingErrorDetail);
        }
        FirstDecisiveResponse(responses, sleeps);
        return;
      }
      sleeps, waited := sleeps + 1, waited + POLL_INTERVAL_SECONDS;
    }
    outcome := StillPolling;
    FirstDecisiveResponse(responses, sleeps);
  }
}
