/** The retry loop of the HTTP client and how it feeds the circuit breaker. What the
    network answers and when the context ends are inputs. */
module Transport {
  import opened CircuitBreaker
  import opened Powers

  datatype Error = Rejected(why: Admission) | LimiterStopped | BadBody | BadRequest | ContextDone
                 | ConnectionFailed | HttpStatus(status: int) | Undecodable

  datatype Result = Ok | Err(error: Error)

  /** What one attempt meets: the request cannot be built, the connection fails, or a
      response arrives whose body does or does not decode. */
  datatype Reply = Unbuildable | NoConnection | Response(status: int, decodes: bool)

  datatype Class = Retry(error: Error) | Final(result: Result)

  /** `wantsBody` says that the caller passed a place for the decoded result. */
  function Classify(r: Reply, wantsBody: bool): Class {
    match r
    case Unbuildable => Final(Err(BadRequest))
    case NoConnection => Retry(ConnectionFailed)
    case Response(status, decodes) =>
      if status == 429 then Retry(HttpStatus(status))
      else if status >= 500 then Retry(HttpStatus(status))
      else if status < 200 || status > 299 then Final(Err(HttpStatus(status)))
      else if wantsBody && !decodes then Final(Err(Undecodable))
      else Final(Ok)
  }

  /** The sleep before attempt number n > 0. */
  function DelayBefore(delay: int, n: nat): int
    requires n > 0
  {
    delay * Pow2(n - 1)
  }

  /** Total backoff before attempt number n: the delay doubles from one to the next. */
  function Backoff(delay: int, n: nat): int {
    if n == 0 then 0 else Backoff(delay, n - 1) + DelayBefore(delay, n)
  }

  lemma {:induction false} BackoffClosedForm(delay: int, n: nat)
    ensures Backoff(delay, n) == delay * (Pow2(n) - 1)
  {
    if n > 0 {
      BackoffClosedForm(delay, n - 1);
      var p := Pow2(n - 1);
      assert delay * (p - 1) + delay * p == delay * (2 * p - 1);
    }
  }

  /** The loop's answer when nothing interrupts it: the first final outcome among
      attempts k, ..., max, or else the last retryable error. */
  function Answer(reply: nat -> Reply, wantsBody: bool, k: nat, max: nat): Result
    requires k <= max
    decreases max - k
  {
    match Classify(reply(k), wantsBody)
    case Final(r) => r
    case Retry(e) => if k == max then Err(e) else Answer(reply, wantsBody, k + 1, max)
  }

  /** `Answer` is what its description says. */
  lemma {:induction false} AnswerIsFirstFinal(reply: nat -> Reply, wantsBody: bool, k: nat, max: nat, first: nat)
    requires k <= first <= max
    requires AllRetry(reply, wantsBody, first)
    ensures Classify(reply(first), wantsBody).Final? ==>
      Answer(reply, wantsBody, k, max) == Classify(reply(first), wantsBody).result
    ensures first == max && Classify(reply(max), wantsBody).Retry? ==>
      Answer(reply, wantsBody, k, max) == Err(Classify(reply(max), wantsBody).error)
    decreases first - k
  {
    if k < first {
      AnswerIsFirstFinal(reply, wantsBody, k + 1, max, first);
    }
  }

  // ----- where the loop ends -----------------------------------------------------------------

  /** What a call meets on the network: `reply(k)` at attempt k, and `done(k)` if the
      context ends during the sleep before attempt k. */
  datatype Net = Net(reply: nat -> Reply, done: nat -> bool, wantsBody: bool) {
    function At(k: nat): Class {
      Classify(reply(k), wantsBody)
    }

    /** Attempts 0 to k-1 were made, and each met a retryable outcome. */
    ghost predicate Reached(k: nat) {
      forall j: nat :: j < k ==> At(j).Retry? && (j > 0 ==> !done(j))
    }

    predicate Cancelled(k: nat) {
      k > 0 && done(k)
    }

    /** The loop, allowed attempts 0 to max, ends at attempt k. */
    ghost predicate EndsAt(max: nat, k: nat) {
      k <= max && Reached(k) && (Cancelled(k) || At(k).Final? || k == max)
    }

    /** The result of ending at attempt k, and the number of requests sent. */
    function Ending(k: nat): (Result, nat) {
      if Cancelled(k) then (Err(ContextDone), k)
      else match At(k)
        case Final(r) => (r, if reply(k) == Unbuildable then k else k + 1)
        case Retry(e) => (Err(e), k + 1)
    }
  }

  /** What an admitted call answers and how many requests it sends. A negative maximum
      leaves the loop before its first attempt, with no error to return. */
  ghost predicate Course(limiterOk: bool, bodyOk: bool, net: Net, max: int, r: Result, sent: nat) {
    if !limiterOk then r == Err(LimiterStopped) && sent == 0
    else if !bodyOk then r == Err(BadBody) && sent == 0
    else if max < 0 then r == Ok && sent == 0
    else exists k: nat :: net.EndsAt(max, k) && (r, sent) == net.Ending(k)
  }

  /** The loop ends at one attempt only, so Course determines result and requests. */
  lemma CourseIsDetermined(limiterOk: bool, bodyOk: bool, net: Net, max: int, r: Result, sent: nat, r': Result, sent': nat)
    requires Course(limiterOk, bodyOk, net, max, r, sent) && Course(limiterOk, bodyOk, net, max, r', sent')
    ensures r == r' && sent == sent'
  {
    if limiterOk && bodyOk && max >= 0 {
      var k: nat :| net.EndsAt(max, k) && (r, sent) == net.Ending(k);
      var m: nat :| net.EndsAt(max, m) && (r', sent') == net.Ending(m);
      assert k < m ==> net.At(k).Retry? && (k > 0 ==> !net.done(k));
      assert m < k ==> net.At(m).Retry? && (m > 0 ==> !net.done(m));
    }
  }

  /** A context that ends in the sleep before attempt k, after k retryable replies, ends
      the call there: its error, and exactly k requests sent. */
  lemma CancellationEndsTheCourse(net: Net, max: nat, k: nat, r: Result, sent: nat)
    requires Course(true, true, net, max, r, sent)
    requires 0 < k <= max && net.Reached(k) && net.done(k)
    ensures r == Err(ContextDone) && sent == k
  {
    assert net.EndsAt(max, k);
    CourseIsDetermined(true, true, net, max, r, sent, Err(ContextDone), k);
  }

  /** A course that no context disturbs answers the first final outcome, or else the last
      error, and sends every request up to it: one per attempt, except that a request
      which cannot be built is not sent. */
  lemma UndisturbedCourse(net: Net, max: nat, r: Result, sent: nat)
    requires Course(true, true, net, max, r, sent) && forall k: nat :: !net.done(k)
    ensures r == Answer(net.reply, net.wantsBody, 0, max)
    ensures forall first: nat :: first <= max && AllRetry(net.reply, net.wantsBody, first) && net.At(first).Final? ==>
      sent == if net.reply(first) == Unbuildable then first else first + 1
    ensures AllRetry(net.reply, net.wantsBody, max + 1) ==> sent == max + 1
  {
    var k: nat :| net.EndsAt(max, k) && (r, sent) == net.Ending(k);
    forall j: nat | j < k ensures Classify(net.reply(j), net.wantsBody).Retry? {
      assert net.At(j).Retry?;
    }
    AnswerIsFirstFinal(net.reply, net.wantsBody, 0, max, k);
    forall first: nat | first <= max && AllRetry(net.reply, net.wantsBody, first) && net.At(first).Final?
      ensures first == k
    {
      assert first < k ==> net.At(first).Retry?;
      assert k < first ==> net.At(k).Retry?;
    }
    assert AllRetry(net.reply, net.wantsBody, max + 1) ==> net.At(k).Retry?;
  }

  // ----- what the replies say --------------------------------------------------------------------

  /** Only a failed connection, a 429 and a server error are worth another attempt. */
  predicate Retryable(r: Reply) {
    r == NoConnection || (r.Response? && (r.status == 429 || r.status >= 500))
  }

  predicate Success(r: Reply, wantsBody: bool) {
    r.Response? && 200 <= r.status <= 299 && (wantsBody ==> r.decodes)
  }

  /** What a call that got through to the network answers, in terms of the replies alone:
      which replies it went past, that it had to stop, and what the last one makes of it. */
  ghost predicate Told(net: Net, max: nat, r: Result, sent: nat) {
    && sent <= max + 1
    && (forall k: nat :: k < sent ==> (k > 0 ==> !net.done(k)) && (k + 1 < sent ==> Retryable(net.reply(k))))
    && (r == Ok <==> sent > 0 && Success(net.reply(sent - 1), net.wantsBody))
    && (sent == 0 ==> net.reply(0) == Unbuildable && r == Err(BadRequest))
    && (sent > 0 ==>
          var last := net.reply(sent - 1);
          && last != Unbuildable
          && (Retryable(last) && sent == max + 1 ==>
                r == Err(if last == NoConnection then ConnectionFailed else HttpStatus(last.status)))
          && (Retryable(last) && sent <= max && net.done(sent) ==> r == Err(ContextDone))
          && (Retryable(last) && sent <= max && !net.done(sent) ==> net.reply(sent) == Unbuildable && r == Err(BadRequest))
          && (!Retryable(last) && !Success(last, net.wantsBody) ==>
                r == Err(if 200 <= last.status <= 299 then Undecodable else HttpStatus(last.status))))
  }

  lemma CourseTells(net: Net, max: nat, r: Result, sent: nat)
    requires Course(true, true, net, max, r, sent)
    ensures Told(net, max, r, sent)
  {
    var k: nat :| net.EndsAt(max, k) && (r, sent) == net.Ending(k);
    forall j: nat | j < k ensures Retryable(net.reply(j)) && (j > 0 ==> !net.done(j)) {
      assert net.At(j).Retry?;
      ReplyTells(net.reply(j), net.wantsBody);
    }
    ReplyTells(net.reply(k), net.wantsBody);
    if k > 0 {
      ReplyTells(net.reply(k - 1), net.wantsBody);
    }
    hide Classify, Retryable, Success;
  }

  lemma ReplyTells(reply: Reply, wantsBody: bool)
    ensures match Classify(reply, wantsBody)
            case Retry(e) =>
              && Retryable(reply) && !Success(reply, wantsBody) && (reply == NoConnection || reply.Response?)
              && e == (if reply == NoConnection then ConnectionFailed else HttpStatus(reply.status))
            case Final(r) =>
              && !Retryable(reply) && (r == Ok <==> Success(reply, wantsBody))
              && (reply == Unbuildable ==> r == Err(BadRequest))
              && (reply != Unbuildable ==> reply.Response?)
              && (reply.Response? && !Success(reply, wantsBody) ==>
                    r == Err(if 200 <= reply.status <= 299 then Undecodable else HttpStatus(reply.status)))
  {}

  /** And it says everything: only the course of the loop is told so. */
  lemma ToldIsTheCourse(net: Net, max: nat, r: Result, sent: nat)
    requires Told(net, max, r, sent)
    ensures Course(true, true, net, max, r, sent)
  {
    var k := if sent == 0 then 0 else if Retryable(net.reply(sent - 1)) && sent <= max then sent else sent - 1;
    forall j: nat | j < k ensures net.At(j).Retry? && (j > 0 ==> !net.done(j)) {
      ReplyTells(net.reply(j), net.wantsBody);
    }
    ReplyTells(net.reply(k), net.wantsBody);
    hide Classify, Retryable, Success;
    assert net.EndsAt(max, k);
  }

  class Client {
    const configuredRetryMax: int
    const retryDelay: int
    const breaker: Breaker?

    constructor (retryMax: int, retryDelay: int, breaker: Breaker?)
      ensures configuredRetryMax == retryMax && this.retryDelay == retryDelay && this.breaker == breaker
    {
      configuredRetryMax, this.retryDelay, this.breaker := retryMax, retryDelay, breaker;
    }

    function RetryMax(isGet: bool): int {
      if isGet then configuredRetryMax else 0
    }

    /** What the breaker says to a request at this time; without one, every request is
        admitted. */
    function Admission(now: int): CircuitBreaker.Admission
      reads breaker
    {
      if breaker == null then Admitted else Admit(breaker.config, breaker.View(), now).1
    }

    /** One whole call. `start` and `end` are the times of admission and of recording,
        `limiterOk` and `bodyOk` say whether the rate limiter let the call through and
        the body was encoded. `sent` counts requests put on the wire, and `slept[j]` is
        the total backoff before the (j+1)-th of them. */
    method DoWithHeaders(isGet: bool, start: int, end: int, limiterOk: bool, bodyOk: bool, net: Net)
      returns (r: Result, sent: nat, slept: seq<int>)
      modifies breaker
      ensures breaker != null ==>
        breaker.View() == Complete(breaker.config, Admit(breaker.config, old(breaker.View()), start).0, r.Err?, end)
      ensures old(Admission(start)) != Admitted ==> r == Err(Rejected(old(Admission(start)))) && sent == 0
      ensures old(Admission(start)) == Admitted ==> Course(limiterOk, bodyOk, net, RetryMax(isGet), r, sent)
      ensures old(Admission(start)) == Admitted && !limiterOk ==> r == Err(LimiterStopped) && sent == 0
      ensures old(Admission(start)) == Admitted && limiterOk && !bodyOk ==> r == Err(BadBody) && sent == 0
      ensures old(Admission(start)) == Admitted && limiterOk && bodyOk && !(isGet && configuredRetryMax < 0) ==>
        Told(net, if isGet then configuredRetryMax else 0, r, sent)
      ensures sent == 0 || sent <= (if isGet then configuredRetryMax else 0) + 1
      ensures !isGet ==> sent <= 1
      ensures |slept| == sent && forall j :: 0 <= j < sent ==> slept[j] == Backoff(retryDelay, j)
      ensures r == Ok && sent == 0 <==>
              old(Admission(start)) == Admitted && limiterOk && bodyOk && isGet && configuredRetryMax < 0
    {
      if breaker != null {
        var admission := breaker.BeforeRequest(start);
        if admission != Admitted {
          r, sent, slept := Err(Rejected(admission)), 0, [];
          breaker.RecordResult(true, end);
          return;
        }
      }
      r, sent, slept := Attempts(isGet, limiterOk, bodyOk, net);
      if limiterOk && bodyOk && RetryMax(isGet) >= 0 {
        CourseTells(net, RetryMax(isGet), r, sent);
      }
      hide Course, Told;
      if breaker != null {
        breaker.RecordResult(r.Err?, end);
      }
    }

    method Attempts(isGet: bool, limiterOk: bool, bodyOk: bool, net: Net)
      returns (r: Result, sent: nat, slept: seq<int>)
      ensures Course(limiterOk, bodyOk, net, RetryMax(isGet), r, sent)
      ensures sent == 0 || sent <= (if isGet then configuredRetryMax else 0) + 1
      ensures |slept| == sent && forall j :: 0 <= j < sent ==> slept[j] == Backoff(retryDelay, j)
      ensures r == Ok && sent == 0 <==> limiterOk && bodyOk && isGet && configuredRetryMax < 0
    {
      hide DelayBefore, Classify;
      sent, slept := 0, [];
      if !limiterOk {
        return Err(LimiterStopped), 0, [];
      }
      if !bodyOk {
        return Err(BadBody), 0, [];
      }
      r := Ok;
      var attempt, total := 0, 0;
      UnbuildableIsFinal(net.wantsBody);
      while attempt <= RetryMax(isGet)
        invariant 0 <= attempt == sent == |slept|
        invariant attempt == 0 || attempt <= RetryMax(isGet) + 1
        invariant attempt == 0 ==> r == Ok
        invariant total == Backoff(retryDelay, if attempt == 0 then 0 else attempt - 1)
        invariant forall j :: 0 <= j < sent ==> slept[j] == Backoff(retryDelay, j)
        invariant net.Reached(attempt)
        invariant attempt > 0 ==> r.Err? && net.At(attempt - 1) == Retry(r.error) && !net.Cancelled(attempt - 1)
        decreases RetryMax(isGet) + 1 - attempt
      {
        if attempt > 0 {
          if net.done(attempt) {
            assert net.EndsAt(RetryMax(isGet), attempt);
            return Err(ContextDone), sent, slept;
          }
          total := total + DelayBefore(retryDelay, attempt);
        }
        var answer := net.reply(attempt);
        if answer == Unbuildable {
          assert net.EndsAt(RetryMax(isGet), attempt);
          return Err(BadRequest), sent, slept;
        }
        sent, slept := sent + 1, slept + [total];
        match Classify(answer, net.wantsBody) {
          case Final(result) =>
            assert net.EndsAt(RetryMax(isGet), attempt);
            return result, sent, slept;
          case Retry(error) => r := Err(error);
        }
        attempt := attempt + 1;
      }
      if attempt > 0 {
        assert net.EndsAt(RetryMax(isGet), attempt - 1);
      }
    }
  }

  ghost predicate AllRetry(reply: nat -> Reply, wantsBody: bool, n: nat) {
    forall k: nat :: k < n ==> Classify(reply(k), wantsBody).Retry?
  }

  lemma UnbuildableIsFinal(wantsBody: bool)
    ensures Classify(Unbuildable, wantsBody) == Final(Err(BadRequest))
  {}
}
