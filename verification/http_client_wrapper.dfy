/**
 * The HTTP layer: one request attempt classified into a response or a
 * connection error, the retry loop with exponential backoff around it, and
 * the per-verb wrappers. The network, the clock, interrupts and the jitter
 * source are an explicit environment indexed by attempt number.
 */
module Http {
  import opened Wrappers
  import opened Text
  import opened Errors
  import opened Backoff
  import opened Content

  /** What went wrong while talking to the server. */
  datatype Fault = SocketTimeout | IoFailure | RuntimeFailure

  /** A response as the connection exposes it: its code and its two possible body streams. */
  datatype Reply = Reply(code: int, inputStream: Option<string>, errorStream: Option<string>)

  /** The outcome of handing one request to the transport. */
  datatype Attempt = Responded(reply: Reply) | Raised(fault: Fault)

  /** HttpResponseStream: a status code and a body that may be absent. */
  datatype ResponseStream = ResponseStream(code: int, body: Option<string>)

  /** HttpResponse: a status code and the body read as a string. */
  datatype HttpResponse = HttpResponse(code: int, body: string)

  /** One request as sent: verb, full URL, both timeouts in ms, headers and body. */
  datatype Request = Request(verb: string, url: string, connectTimeout: nat, readTimeout: nat,
                             headers: map<string, string>, content: Option<HttpContent>)

  /** Observable events of a retry run, in order. */
  datatype Event = Sent(request: Request) | Closed(code: int) | Slept(millis: nat)

  /**
   * The world outside: the transport's answer to the k-th request, the clock
   * readings in the order they are taken, whether the k-th retry sleep is
   * interrupted, and the k-th random jitter factor.
   */
  datatype Environment = Environment(reply: (nat, Request) -> Attempt, clock: nat -> int,
                                     interrupted: nat -> bool, jitter: nat -> real)

  ghost predicate ValidEnvironment(env: Environment) {
    forall k :: ValidJitter(env.jitter(k))
  }

  /**
   * The clock readings of a run: the timer's start is reading 0; attempt k
   * reads its timeout at 1 + 3k; its retry sleep reads the time left at
   * 2 + 3k and the wake-up time at 3 + 3k.
   */
  function TimeoutReading(k: nat): nat { 1 + 3 * k }
  function SleepReading(k: nat): nat { 2 + 3 * k }
  function WakeReading(k: nat): nat { 3 + 3 * k }

  const GET: string := "GET"
  const POST: string := "POST"
  const DELETE: string := "DELETE"
  const PUT: string := "PUT"
  const PATCH: string := "PATCH"

  /** A status code the loop retries: 429 or any code of 500 and above. */
  predicate IsRetryable(code: int) { code == 429 || code >= 500 }

  /**
   * sendRequest, after the transport has answered: a body from the input
   * stream for codes 200..399 and from the error stream otherwise; a socket
   * timeout is a retryable connection error, any other fault is not.
   */
  function SendRequest(a: Attempt): (r: Result<ResponseStream, Error>)
    ensures r.Failure? <==> a.Raised?
    ensures r.Failure? ==> r.error == Connection(a.fault == SocketTimeout)
    ensures r.Success? ==> r.value.code == a.reply.code
    ensures r.Success? ==> r.value.body == (if 200 <= a.reply.code < 400 then a.reply.inputStream else a.reply.errorStream)
  {
    match a
    case Raised(fault) =>
      (match fault
       case SocketTimeout => Failure(Connection(true))
       case _ => Failure(Connection(false)))
    case Responded(reply) =>
      var body := if reply.code >= 200 && reply.code < 400 then reply.inputStream else reply.errorStream;
      Success(ResponseStream(reply.code, body))
  }

  /** toStringResponse: an absent body reads as "". */
  function ToStringResponse(r: ResponseStream): (s: HttpResponse)
    ensures s.code == r.code
    ensures s.body == (if r.body.Some? then r.body.value else "")
  {
    HttpResponse(r.code, match r.body case Some(b) => b case None => "")
  }

  function ToStringResult(r: Result<ResponseStream, Error>): Result<HttpResponse, Error> {
    match r
    case Success(s) => Success(ToStringResponse(s))
    case Failure(e) => Failure(e)
  }

  /** The client's fixed configuration. */
  datatype Config = Config(serverUrl: string, headers: map<string, string>, minTimeout: nat, maxRetries: int)

  /** What a wrapper hands to the retry loop: the verb, the URL relative to the server, and the body. */
  datatype Call = Call(verb: string, relativeUrl: string, content: Option<HttpContent>)

  /** A retry run: its result and its events. */
  datatype Run = Run(result: Result<ResponseStream, Error>, trace: seq<Event>)

  /** The request of the attempt made with the timer in state t. */
  function AttemptRequest(cfg: Config, call: Call, env: Environment, t: TimerState): Request {
    var timeout := ToMillis(Timeout(cfg.minTimeout, t, env.clock(TimeoutReading(t.numRetries))));
    Request(call.verb, cfg.serverUrl + call.relativeUrl, timeout, timeout, cfg.headers, call.content)
  }

  /** What that attempt yields. */
  function AttemptOutcome(cfg: Config, call: Call, env: Environment, t: TimerState): (r: Result<ResponseStream, Error>)
    ensures r.Failure? ==> r.error.Connection?
  {
    SendRequest(env.reply(t.numRetries, AttemptRequest(cfg, call, env, t)))
  }

  /** Whether the loop hands back the outcome of an attempt made after `retries` retries. */
  predicate Final(cfg: Config, outcome: Result<ResponseStream, Error>, retries: nat)
    requires outcome.Failure? ==> outcome.error.Connection?
  {
    match outcome
    case Success(response) => retries >= cfg.maxRetries || !IsRetryable(response.code)
    case Failure(e) => !e.shouldRetry || retries >= cfg.maxRetries
  }

  predicate IsLastAttempt(cfg: Config, call: Call, env: Environment, t: TimerState) {
    Final(cfg, AttemptOutcome(cfg, call, env, t), t.numRetries)
  }

  /**
   * The events of an attempt that is not the last: the request, the closing
   * of a discarded response, and the retry sleep.
   */
  function RetryEvents(cfg: Config, call: Call, env: Environment, t: TimerState): seq<Event> {
    var outcome := AttemptOutcome(cfg, call, env, t);
    var closed := if outcome.Success? then [Closed(outcome.value.code)] else [];
    [Sent(AttemptRequest(cfg, call, env, t))] + closed + [Slept(ToMillis(TimeUntilDeadline(t, env.clock(SleepReading(t.numRetries)))))]
  }

  /** The timer after the retry sleep of the attempt made in state t. */
  function NextState(env: Environment, t: TimerState): TimerState
    requires ValidEnvironment(env)
  {
    AfterSleep(t, env.jitter(t.numRetries), env.clock(WakeReading(t.numRetries)))
  }

  /**
   * The specification of the retry loop, from timer state t on: send; hand
   * back a final outcome; otherwise close a discarded response, sleep until
   * the deadline and go round again. An interrupted sleep ends the run.
   */
  function Attempts(cfg: Config, call: Call, env: Environment, t: TimerState): Run
    requires ValidEnvironment(env)
    decreases cfg.maxRetries - t.numRetries
  {
    if IsLastAttempt(cfg, call, env, t) then
      Run(AttemptOutcome(cfg, call, env, t), [Sent(AttemptRequest(cfg, call, env, t))])
    else if env.interrupted(t.numRetries) then
      Run(Failure(Interrupted), RetryEvents(cfg, call, env, t))
    else
      var rest := Attempts(cfg, call, env, NextState(env, t));
      Run(rest.result, RetryEvents(cfg, call, env, t) + rest.trace)
  }

  /** A whole run, from a timer started at clock reading 0. */
  function RunFromStart(cfg: Config, call: Call, env: Environment): Run
    requires ValidEnvironment(env)
  {
    Attempts(cfg, call, env, Initial(env.clock(0)))
  }

  // ---------------------------------------------------------------------------
  // Properties of a run

  function CountSent(tr: seq<Event>): nat {
    if |tr| == 0 then 0 else CountSent(tr[..|tr| - 1]) + (if tr[|tr| - 1].Sent? then 1 else 0)
  }

  lemma {:induction false} CountSentAppend(a: seq<Event>, b: seq<Event>)
    ensures CountSent(a + b) == CountSent(a) + CountSent(b)
    decreases |b|
  {
    if |b| == 0 {
      assert a + b == a;
    } else {
      assert (a + b)[..|a + b| - 1] == a + b[..|b| - 1];
      CountSentAppend(a, b[..|b| - 1]);
    }
  }

  lemma CountSentSingle(e: Event)
    ensures CountSent([e]) == if e.Sent? then 1 else 0
  {
    assert [e][..0] == [];
  }

  /**
   * The shape of a run's events: it starts with a request; a later request
   * directly follows a sleep; a closed response is a retryable one, directly
   * after its request and directly before a sleep; a sleep follows a request
   * or a closed response and is followed by a request unless it ends the run.
   * So exactly one sleep separates consecutive attempts.
   */
  predicate WellFormed(tr: seq<Event>) {
    && |tr| > 0 && tr[0].Sent?
    && (forall i :: 0 < i < |tr| && tr[i].Sent? ==> tr[i - 1].Slept?)
    && (forall i :: 0 <= i < |tr| && tr[i].Closed? ==>
          0 < i && tr[i - 1].Sent? && i + 1 < |tr| && tr[i + 1].Slept? && IsRetryable(tr[i].code))
    && (forall i :: 0 <= i < |tr| && tr[i].Slept? ==> 0 < i && !tr[i - 1].Slept? && (i + 1 == |tr| || tr[i + 1].Sent?))
  }

  /** The events of one retried attempt, as RetryEvents produces them. */
  predicate IsRetryBlock(block: seq<Event>) {
    && 2 <= |block| <= 3 && block[0].Sent? && block[|block| - 1].Slept?
    && (|block| == 3 ==> block[1].Closed? && IsRetryable(block[1].code))
  }

  lemma RetryEventsFacts(cfg: Config, call: Call, env: Environment, t: TimerState)
    requires !IsLastAttempt(cfg, call, env, t)
    ensures var block := RetryEvents(cfg, call, env, t);
      && IsRetryBlock(block)
      && block[0] == Sent(AttemptRequest(cfg, call, env, t))
      && CountSent(block) == 1
      && (forall e :: e in block && e.Sent? ==> e == block[0])
  {
    var outcome := AttemptOutcome(cfg, call, env, t);
    var closed := if outcome.Success? then [Closed(outcome.value.code)] else [];
    var sent := Sent(AttemptRequest(cfg, call, env, t));
    var slept := Slept(ToMillis(TimeUntilDeadline(t, env.clock(SleepReading(t.numRetries)))));
    CountSentAppend([sent] + closed, [slept]);
    CountSentAppend([sent], closed);
    CountSentSingle(sent);
    CountSentSingle(slept);
    if outcome.Success? {
      CountSentSingle(closed[0]);
    }
  }

  lemma WellFormedPrepend(block: seq<Event>, rest: seq<Event>)
    requires IsRetryBlock(block) && WellFormed(rest)
    ensures WellFormed(block + rest)
  {
    var tr := block + rest;
    forall i | 0 <= i < |tr| && tr[i].Slept?
      ensures 0 < i && !tr[i - 1].Slept? && (i + 1 == |tr| || tr[i + 1].Sent?)
    {
      if i >= |block| {
        assert tr[i] == rest[i - |block|];
      }
    }
    forall i | 0 < i < |tr| && tr[i].Sent?
      ensures tr[i - 1].Slept?
    {
      if i > |block| {
        assert tr[i] == rest[i - |block|];
      }
    }
    forall i | 0 <= i < |tr| && tr[i].Closed?
      ensures 0 < i && tr[i - 1].Sent? && i + 1 < |tr| && tr[i + 1].Slept? && IsRetryable(tr[i].code)
    {
      if i >= |block| {
        assert tr[i] == rest[i - |block|];
      }
    }
  }

  /**
   * Every run has the alternating shape of WellFormed, and it ends with a
   * sleep exactly when that sleep was interrupted (otherwise with the request
   * whose outcome is handed back).
   */
  lemma {:induction false} AttemptsWellFormed(cfg: Config, call: Call, env: Environment, t: TimerState)
    requires ValidEnvironment(env)
    ensures var run := Attempts(cfg, call, env, t);
      && WellFormed(run.trace)
      && (run.trace[|run.trace| - 1].Slept? <==> run.result == Failure(Interrupted))
      && (run.trace[|run.trace| - 1].Sent? <==> run.result != Failure(Interrupted))
    decreases cfg.maxRetries - t.numRetries
  {
    if !IsLastAttempt(cfg, call, env, t) {
      RetryEventsFacts(cfg, call, env, t);
      var block := RetryEvents(cfg, call, env, t);
      if !env.interrupted(t.numRetries) {
        var t' := NextState(env, t);
        AttemptsWellFormed(cfg, call, env, t');
        var rest := Attempts(cfg, call, env, t');
        WellFormedPrepend(block, rest.trace);
        assert (block + rest.trace)[|block + rest.trace| - 1] == rest.trace[|rest.trace| - 1];
      }
    }
  }

  /** A run makes at least one attempt, and at most one more than the retries it has left. */
  lemma {:induction false} AttemptsCount(cfg: Config, call: Call, env: Environment, t: TimerState)
    requires ValidEnvironment(env)
    ensures var n := CountSent(Attempts(cfg, call, env, t).trace);
      && 1 <= n
      && t.numRetries + n - 1 <= if cfg.maxRetries > t.numRetries then cfg.maxRetries else t.numRetries
    decreases cfg.maxRetries - t.numRetries
  {
    if IsLastAttempt(cfg, call, env, t) {
      CountSentSingle(Sent(AttemptRequest(cfg, call, env, t)));
    } else {
      RetryEventsFacts(cfg, call, env, t);
      if !env.interrupted(t.numRetries) {
        var t' := NextState(env, t);
        AttemptsCount(cfg, call, env, t');
        CountSentAppend(RetryEvents(cfg, call, env, t), Attempts(cfg, call, env, t').trace);
      }
    }
  }

  /**
   * Why a run stops: a response is handed back because its code is neither
   * 429 nor 5xx or because the retries were used up; a connection error is
   * thrown because it is not retryable or because the retries were used up;
   * the only other way out is an interrupted sleep.
   */
  lemma {:induction false} AttemptsStop(cfg: Config, call: Call, env: Environment, t: TimerState)
    requires ValidEnvironment(env)
    ensures var run := Attempts(cfg, call, env, t);
      var lastRetries := t.numRetries + CountSent(run.trace) - 1;
      && (run.result.Success? ==> !IsRetryable(run.result.value.code) || lastRetries >= cfg.maxRetries)
      && (run.result.Failure? ==>
            || run.result.error == Interrupted
            || run.result.error == Connection(false)
            || (run.result.error == Connection(true) && lastRetries >= cfg.maxRetries))
    decreases cfg.maxRetries - t.numRetries
  {
    if IsLastAttempt(cfg, call, env, t) {
      CountSentSingle(Sent(AttemptRequest(cfg, call, env, t)));
    } else if !env.interrupted(t.numRetries) {
      RetryEventsFacts(cfg, call, env, t);
      var t' := NextState(env, t);
      AttemptsStop(cfg, call, env, t');
      CountSentAppend(RetryEvents(cfg, call, env, t), Attempts(cfg, call, env, t').trace);
    }
  }

  /** Whether a request is one of this call's attempts: the right verb, URL, headers and body, and a timeout no shorter than the minimum. */
  predicate IsAttemptOf(rq: Request, cfg: Config, call: Call) {
    && rq.verb == call.verb && rq.url == cfg.serverUrl + call.relativeUrl
    && rq.headers == cfg.headers && rq.content == call.content
    && rq.connectTimeout == rq.readTimeout >= ToMillis(cfg.minTimeout)
  }

  /** Every request of a run is an attempt of the same call, with a timeout no shorter than the minimum. */
  lemma {:induction false} AttemptsSend(cfg: Config, call: Call, env: Environment, t: TimerState)
    requires ValidEnvironment(env)
    ensures forall e :: e in Attempts(cfg, call, env, t).trace && e.Sent? ==> IsAttemptOf(e.request, cfg, call)
    decreases cfg.maxRetries - t.numRetries
  {
    var timeout := Timeout(cfg.minTimeout, t, env.clock(TimeoutReading(t.numRetries)));
    ToMillisMonotone(cfg.minTimeout, timeout);
    assert IsAttemptOf(AttemptRequest(cfg, call, env, t), cfg, call);
    if !IsLastAttempt(cfg, call, env, t) {
      RetryEventsFacts(cfg, call, env, t);
      if !env.interrupted(t.numRetries) {
        AttemptsSend(cfg, call, env, NextState(env, t));
      }
    }
  }

  lemma ConcatAssoc(a: seq<Event>, b: seq<Event>, c: seq<Event>)
    ensures a + b + c == a + (b + c)
  {
  }

  /** A timeout read later is never longer, in nanoseconds or whole milliseconds. */
  lemma TimeoutShrinks(minTimeout: nat, t: TimerState, now: int, later: int)
    ensures now <= later ==> ToMillis(Timeout(minTimeout, t, later)) <= ToMillis(Timeout(minTimeout, t, now))
  {
    if now <= later {
      TimeUntilDeadlineShrinks(t, now, later);
      ToMillisMonotone(Timeout(minTimeout, t, later), Timeout(minTimeout, t, now));
    }
  }

  lemma ToMillisMonotone(a: nat, b: nat)
    requires a <= b
    ensures ToMillis(a) <= ToMillis(b)
  {
  }

  /** A script in which the first two attempts get 429 and the third gets 200. */
  function TwoTooManyRequests(clock: nat -> int, body: string): Environment {
    Environment(
      (k: nat, rq: Request) => if k < 2 then Responded(Reply(429, None, Some("Too many requests")))
                               else Responded(Reply(200, Some(body), None)),
      clock, (k: nat) => false, (k: nat) => 1.0)
  }

  /**
   * Two 429 responses followed by a 200 succeed on the third attempt when
   * five retries are allowed, whatever the clock says.
   */
  lemma TwoTooManyRequestsThenSuccess(cfg: Config, call: Call, clock: nat -> int, body: string)
    requires cfg.maxRetries == 5
    ensures var run := RunFromStart(cfg, call, TwoTooManyRequests(clock, body));
      run.result == Success(ResponseStream(200, Some(body))) && CountSent(run.trace) == 3
  {
    var env := TwoTooManyRequests(clock, body);
    var t0 := Initial(clock(0));
    var t1 := NextState(env, t0);
    var t2 := NextState(env, t1);
    assert t1.numRetries == 1 && t2.numRetries == 2;
    var run2 := Attempts(cfg, call, env, t2);
    assert IsLastAttempt(cfg, call, env, t2);
    CountSentSingle(Sent(AttemptRequest(cfg, call, env, t2)));
    assert !IsLastAttempt(cfg, call, env, t1);
    RetryEventsFacts(cfg, call, env, t1);
    var run1 := Attempts(cfg, call, env, t1);
    CountSentAppend(RetryEvents(cfg, call, env, t1), run2.trace);
    assert !IsLastAttempt(cfg, call, env, t0);
    RetryEventsFacts(cfg, call, env, t0);
    CountSentAppend(RetryEvents(cfg, call, env, t0), run1.trace);
  }

  // ---------------------------------------------------------------------------
  // Upload and PATCH

  /** The multipart fields of an upload: the file first, then each parameter as a string field. */
  function UploadFields(fileName: string, data: seq<byte>, params: Option<seq<(string, string)>>): seq<(string, FieldValue)> {
    var ps := match params case None => [] case Some(ps) => ps;
    [("file", Stream(fileName, data))] + seq(|ps|, i requires 0 <= i < |ps| => (ps[i].0, Text(ps[i].1)))
  }

  /**
   * An upload body always builds: the file part comes first, the parameter
   * parts follow in order, and the closing line ends it.
   */
  lemma UploadBody(fileName: string, data: seq<byte>, params: Option<seq<(string, string)>>, boundary: string,
                   guess: string -> Option<string>)
    ensures var fields := UploadFields(fileName, data, params);
      var built := Multipart(Some(fields), boundary, guess);
      && built.Success?
      && Parts(boundary, fields[1..], guess).Success?
      && built.value.content == Part(boundary, fields[0], guess).value + Parts(boundary, fields[1..], guess).value
                                + Utf8(ClosingLine(boundary))
  {
    var fields := UploadFields(fileName, data, params);
    var head, tail := fields[..1], fields[1..];
    assert forall i :: 0 <= i < |tail| ==> tail[i].1.Text?;
    PartsFailure(boundary, tail, guess);
    assert head == [fields[0]];
    PartsSingle(boundary, fields[0], guess);
    assert fields == head + tail;
    PartsAppend(boundary, head, tail, guess);
  }

  /** The answer of the PATCH transport: a status and a response entity that may be absent, or a fault. */
  datatype PatchReply = PatchResponded(code: int, entity: Option<string>) | PatchRaised(fault: Fault)

  /**
   * The PATCH response: the entity read as a string. A missing entity is a
   * runtime error reading it, reported like any non-timeout fault.
   */
  function PatchOutcome(reply: PatchReply): (r: Result<HttpResponse, Error>)
    ensures r.Failure? <==> reply.PatchRaised? || reply.entity.None?
    ensures r.Failure? ==> r.error == Connection(reply.PatchRaised? && reply.fault == SocketTimeout)
    ensures r.Success? ==> r.value == HttpResponse(reply.code, reply.entity.value)
  {
    match reply
    case PatchRaised(fault) => Failure(Connection(fault == SocketTimeout))
    case PatchResponded(code, entity) =>
      if entity.None? then Failure(Connection(false)) else Success(HttpResponse(code, entity.value))
  }

  // ---------------------------------------------------------------------------
  // The client

  class HttpClientWrapper {
    const serverUrl: string
    const headers: map<string, string>
    const minTimeout: nat
    const maxRetries: int

    constructor (serverUrl: string, headers: map<string, string>, minTimeout: nat, maxRetries: int)
      ensures this.serverUrl == serverUrl && this.headers == headers
      ensures this.minTimeout == minTimeout && this.maxRetries == maxRetries
    {
      this.serverUrl := serverUrl;
      this.headers := headers;
      this.minTimeout := minTimeout;
      this.maxRetries := maxRetries;
    }

    function Configuration(): Config {
      Config(serverUrl, headers, minTimeout, maxRetries)
    }

    /**
     * The retry loop: send with the timer's current timeout; hand back a
     * final response or rethrow a final connection error; otherwise close a
     * discarded response and sleep until the retry deadline.
     */
    method SendRequestWithBackoff(verb: string, relativeUrl: string, content: Option<HttpContent>, env: Environment)
      returns (r: Result<ResponseStream, Error>, ghost trace: seq<Event>)
      requires ValidEnvironment(env)
      ensures r == RunFromStart(Configuration(), Call(verb, relativeUrl, content), env).result
      ensures trace == RunFromStart(Configuration(), Call(verb, relativeUrl, content), env).trace
    {
      ghost var cfg := Configuration();
      ghost var call := Call(verb, relativeUrl, content);
      var timer := new BackoffTimer(minTimeout, env.clock(0));
      trace := [];
      while true
        invariant timer.minTimeout == minTimeout
        invariant RunFromStart(cfg, call, env) ==
          Run(Attempts(cfg, call, env, timer.State()).result, trace + Attempts(cfg, call, env, timer.State()).trace)
        decreases maxRetries - timer.numRetries
      {
        ghost var before := trace;
        ghost var t := timer.State();
        var k := timer.GetNumRetries();
        var timeoutMs := timer.GetTimeoutMillis(env.clock(TimeoutReading(k)));
        var request := Request(verb, serverUrl + relativeUrl, timeoutMs, timeoutMs, headers, content);
        assert request == AttemptRequest(cfg, call, env, t);
        var response := SendRequest(env.reply(k, request));
        assert response == AttemptOutcome(cfg, call, env, t);
        trace := trace + [Sent(request)];
        if response.Success? {
          if timer.GetNumRetries() >= maxRetries {
            r := response;
            return;
          } else if response.value.code != 429 && response.value.code < 500 {
            r := response;
            return;
          }
          trace := trace + [Closed(response.value.code)];
        } else {
          if !response.error.shouldRetry || timer.GetNumRetries() >= maxRetries {
            r := response;
            return;
          }
        }
        assert !IsLastAttempt(cfg, call, env, t);
        var interrupted, ms := timer.SleepUntilRetry(env.clock(SleepReading(k)), env.interrupted(k), env.jitter(k),
                                                     env.clock(WakeReading(k)));
        trace := trace + [Slept(ms)];
        ghost var block := RetryEvents(cfg, call, env, t);
        assert trace == before + block;
        if interrupted.Fail? {
          r := Failure(Interrupted);
          return;
        }
        assert timer.State() == NextState(env, t);
        ghost var rest := Attempts(cfg, call, env, timer.State());
        assert Attempts(cfg, call, env, t) == Run(rest.result, block + rest.trace);
        ConcatAssoc(before, block, rest.trace);
      }
    }

    /** sendGetRequestWithBackoff: a GET with no body, its response read as a string. */
    method Get(relativeUrl: string, env: Environment) returns (r: Result<HttpResponse, Error>, ghost trace: seq<Event>)
      requires ValidEnvironment(env)
      ensures var run := RunFromStart(Configuration(), Call(GET, relativeUrl, None), env);
        r == ToStringResult(run.result)
      ensures trace == RunFromStart(Configuration(), Call(GET, relativeUrl, None), env).trace
    {
      var s;
      s, trace := SendRequestWithBackoff(GET, relativeUrl, None, env);
      r := ToStringResult(s);
    }
    /** sendDeleteRequestWithBackoff(url, params): a DELETE with the parameters form-encoded. */
    method Delete(relativeUrl: string, params: Option<seq<(string, string)>>, enc: string -> string, env: Environment)
      returns (r: Result<HttpResponse, Error>, ghost trace: seq<Event>)
      requires ValidEnvironment(env)
      ensures var run := RunFromStart(Configuration(), Call(DELETE, relativeUrl, Some(FormContent(params, enc))), env);
        r == ToStringResult(run.result)
      ensures trace == RunFromStart(Configuration(), Call(DELETE, relativeUrl, Some(FormContent(params, enc))), env).trace
    {
      var content := BuildFormURLEncodedContent(params, enc);
      var s;
      s, trace := SendRequestWithBackoff(DELETE, relativeUrl, Some(content), env);
      r := ToStringResult(s);
    }

    /** sendDeleteRequestWithBackoff(url): a DELETE with no parameters, hence an empty form body. */
    method DeleteWithoutParams(relativeUrl: string, enc: string -> string, env: Environment)
      returns (r: Result<HttpResponse, Error>, ghost trace: seq<Event>)
      requires ValidEnvironment(env)
      ensures var run := RunFromStart(Configuration(), Call(DELETE, relativeUrl, Some(HttpContent(FormContentType, []))), env);
        r == ToStringResult(run.result)
      ensures trace == RunFromStart(Configuration(), Call(DELETE, relativeUrl, Some(HttpContent(FormContentType, []))), env).trace
    {
      r, trace := Delete(relativeUrl, None, enc, env);
    }

    /** sendRequestWithBackoff(url): a POST with no body at all. */
    method PostWithoutContent(relativeUrl: string, env: Environment)
      returns (r: Result<HttpResponse, Error>, ghost trace: seq<Event>)
      requires ValidEnvironment(env)
      ensures var run := RunFromStart(Configuration(), Call(POST, relativeUrl, None), env);
        r == ToStringResult(run.result)
      ensures trace == RunFromStart(Configuration(), Call(POST, relativeUrl, None), env).trace
    {
      var s;
      s, trace := SendRequestWithBackoff(POST, relativeUrl, None, env);
      r := ToStringResult(s);
    }

    /** sendRequestWithBackoff(url, params): a POST with the parameters form-encoded. */
    method Post(relativeUrl: string, params: Option<seq<(string, string)>>, enc: string -> string, env: Environment)
      returns (r: Result<HttpResponse, Error>, ghost trace: seq<Event>)
      requires ValidEnvironment(env)
      ensures var run := RunFromStart(Configuration(), Call(POST, relativeUrl, Some(FormContent(params, enc))), env);
        r == ToStringResult(run.result)
      ensures trace == RunFromStart(Configuration(), Call(POST, relativeUrl, Some(FormContent(params, enc))), env).trace
    {
      var content := BuildFormURLEncodedContent(params, enc);
      var s;
      s, trace := SendRequestWithBackoff(POST, relativeUrl, Some(content), env);
      r := ToStringResult(s);
    }

    /** sendPutRequestWithBackoff: a PUT with the parameters form-encoded. */
    method Put(relativeUrl: string, params: Option<seq<(string, string)>>, enc: string -> string, env: Environment)
      returns (r: Result<HttpResponse, Error>, ghost trace: seq<Event>)
      requires ValidEnvironment(env)
      ensures var run := RunFromStart(Configuration(), Call(PUT, relativeUrl, Some(FormContent(params, enc))), env);
        r == ToStringResult(run.result)
      ensures trace == RunFromStart(Configuration(), Call(PUT, relativeUrl, Some(FormContent(params, enc))), env).trace
    {
      var content := BuildFormURLEncodedContent(params, enc);
      var s;
      s, trace := SendRequestWithBackoff(PUT, relativeUrl, Some(content), env);
      r := ToStringResult(s);
    }

    /** downloadWithBackoff: a form-encoded POST whose response stream is handed back unread. */
    method Download(relativeUrl: string, params: Option<seq<(string, string)>>, enc: string -> string, env: Environment)
      returns (r: Result<ResponseStream, Error>, ghost trace: seq<Event>)
      requires ValidEnvironment(env)
      ensures r == RunFromStart(Configuration(), Call(POST, relativeUrl, Some(FormContent(params, enc))), env).result
      ensures trace == RunFromStart(Configuration(), Call(POST, relativeUrl, Some(FormContent(params, enc))), env).trace
    {
      var content := BuildFormURLEncodedContent(params, enc);
      r, trace := SendRequestWithBackoff(POST, relativeUrl, Some(content), env);
    }

    /**
     * uploadWithBackoff: a multipart POST whose first field is the file and
     * whose other fields are the parameters in order; a body that cannot be
     * built is reported as "Failed building request" before anything is sent.
     */
    method Upload(relativeUrl: string, params: Option<seq<(string, string)>>, fileName: string, data: seq<byte>,
                  boundary: string, guess: string -> Option<string>, env: Environment)
      returns (r: Result<HttpResponse, Error>, ghost trace: seq<Event>)
      requires ValidEnvironment(env)
      ensures match Multipart(Some(UploadFields(fileName, data, params)), boundary, guess)
        case Failure(e) => r == Failure(RequestNotBuilt(e))
        case Success(content) =>
          r == ToStringResult(RunFromStart(Configuration(), Call(POST, relativeUrl, Some(content)), env).result)
      ensures match Multipart(Some(UploadFields(fileName, data, params)), boundary, guess)
        case Failure(_) => trace == []
        case Success(content) => trace == RunFromStart(Configuration(), Call(POST, relativeUrl, Some(content)), env).trace
    {
      var fields := [("file", Stream(fileName, data))];
      if params.Some? {
        var ps := params.value;
        for i := 0 to |ps|
          invariant fields == UploadFields(fileName, data, Some(ps[..i]))
        {
          fields := fields + [(ps[i].0, Text(ps[i].1))];
          assert UploadFields(fileName, data, Some(ps[..i + 1])) == UploadFields(fileName, data, Some(ps[..i])) + [(ps[i].0, Text(ps[i].1))];
        }
        assert ps[..|ps|] == ps;
      }
      var built := BuildMultipartFormDataContent(Some(fields), boundary, guess);
      if built.Failure? {
        r := Failure(RequestNotBuilt(built.error));
        trace := [];
        return;
      }
      var s;
      s, trace := SendRequestWithBackoff(POST, relativeUrl, Some(built.value), env);
      r := ToStringResult(s);
    }

    /** The one PATCH request: timeouts read at clock(1) and clock(2) from a timer started at clock(0). */
    function PatchRequest(relativeUrl: string, params: Option<seq<(string, string)>>, enc: string -> string,
                          clock: nat -> int): (q: Request)
      ensures q.verb == PATCH && q.url == serverUrl + relativeUrl && q.headers == headers
      ensures q.content == Some(FormContent(params, enc))
      ensures ToMillis(minTimeout) <= q.readTimeout && ToMillis(minTimeout) <= q.connectTimeout
      ensures clock(1) <= clock(2) ==> q.readTimeout <= q.connectTimeout
    {
      var timer := Initial(clock(0));
      ToMillisMonotone(minTimeout, Timeout(minTimeout, timer, clock(1)));
      ToMillisMonotone(minTimeout, Timeout(minTimeout, timer, clock(2)));
      TimeoutShrinks(minTimeout, timer, clock(1), clock(2));
      Request(PATCH, serverUrl + relativeUrl,
              ToMillis(Timeout(minTimeout, timer, clock(1))), ToMillis(Timeout(minTimeout, timer, clock(2))),
              headers, Some(FormContent(params, enc)))
    }

    /**
     * sendPatchRequestWithBackoff: despite its name, exactly one attempt, with
     * connect and socket timeouts read one after the other from a fresh timer.
     */
    method Patch(relativeUrl: string, params: Option<seq<(string, string)>>, enc: string -> string,
                 clock: nat -> int, reply: Request -> PatchReply)
      returns (r: Result<HttpResponse, Error>, ghost trace: seq<Event>)
      ensures r == PatchOutcome(reply(PatchRequest(relativeUrl, params, enc, clock)))
      ensures trace == [Sent(PatchRequest(relativeUrl, params, enc, clock))]
    {
      var content := BuildFormURLEncodedContent(params, enc);
      var timer := new BackoffTimer(minTimeout, clock(0));
      var connectTimeout := timer.GetTimeoutMillis(clock(1));
      var socketTimeout := timer.GetTimeoutMillis(clock(2));
      var request := Request(PATCH, serverUrl + relativeUrl, connectTimeout, socketTimeout, headers, Some(content));
      trace := [Sent(request)];
      r := PatchOutcome(reply(request));
    }
  }
}
