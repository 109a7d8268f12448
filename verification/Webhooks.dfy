/** Webhook delivery: bounded retries with exponential backoff, and the health record kept per webhook. */
module Webhooks {
  import opened Prelude

  /** How one attempt ends: a status code, a target that is no longer permitted, or some other failure. */
  datatype Attempt = Status(code: int) | TargetRejected(message: string) | Raised(message: string)

  /** What the receiver and the network do, attempt by attempt. */
  type Receiver = nat -> Attempt

  /** `reason` stands for the recorded error text; a delivered event has none. */
  datatype Reason = HttpStatus(code: int) | NotPermitted(message: string) | Exception(message: string)

  datatype Delivery = Delivery(
    delivered: bool,
    attempts: nat,
    status: Option<int>,
    error: Option<Reason>,
    sleeps: seq<real>)

  const MAX_DELIVERY_ATTEMPTS := 4
  const MAX_BACKOFF_SECONDS: real := 30.0
  const FAILING_AFTER := 10

  predicate Accepted(a: Attempt) {
    a.Status? && 200 <= a.code < 300
  }

  /** A client error other than a timeout or a rate limit will not change on retry, nor will a rejected target. */
  predicate Hopeless(a: Attempt) {
    a.TargetRejected? || (a.Status? && 400 <= a.code < 500 && a.code != 408 && a.code != 429)
  }

  predicate Final(a: Attempt) {
    Accepted(a) || Hopeless(a)
  }

  function Pow2(n: nat): real {
    if n == 0 then 1.0 else 2.0 * Pow2(n - 1)
  }

  function Smaller(a: real, b: real): real {
    if a < b then a else b
  }

  /** The pause after attempt number `n`. */
  function Backoff(n: nat): real
    requires 1 <= n
  {
    Smaller(Pow2(n - 1), MAX_BACKOFF_SECONDS)
  }

  function Failure(a: Attempt): Reason {
    match a
    case Status(code) => HttpStatus(code)
    case TargetRejected(message) => NotPermitted(message)
    case Raised(message) => Exception(message)
  }

  /** The last status code seen in the first `n` attempts. */
  function LastStatus(r: Receiver, n: nat): Option<int> {
    if n == 0 then None else if r(n).Status? then Some(r(n).code) else LastStatus(r, n - 1)
  }

  /** A complete description of a delivery with at most `limit` attempts. */
  ghost predicate Delivers(r: Receiver, limit: nat, d: Delivery)
    requires 1 <= limit
  {
    && 1 <= d.attempts <= limit
    && (forall k :: 1 <= k < d.attempts ==> !Final(r(k)))
    && (Final(r(d.attempts)) || d.attempts == limit)
    && (d.delivered <==> Accepted(r(d.attempts)))
    && d.status == LastStatus(r, d.attempts)
    && d.error == (if d.delivered then None else Some(Failure(r(d.attempts))))
    && |d.sleeps| == d.attempts - 1
    && (forall k :: 0 <= k < |d.sleeps| ==> d.sleeps[k] == Backoff(k + 1))
  }

  /** The pauses between attempts, in seconds. */
  predicate PausesAre(sleeps: seq<real>) {
    forall k :: 0 <= k < |sleeps| ==>
      sleeps[k] == (if k < 5 then [1.0, 2.0, 4.0, 8.0, 16.0][k] else 30.0)
  }

  lemma BackoffIs(n: nat)
    requires 1 <= n
    ensures Backoff(n) == if n <= 5 then [1.0, 2.0, 4.0, 8.0, 16.0][n - 1] else 30.0
  {
    assert Pow2(4) == 16.0 && Pow2(3) == 8.0 && Pow2(2) == 4.0 && Pow2(1) == 2.0;
    if n > 5 {
      Pow2Grows(5, n - 1);
    }
  }

  lemma {:induction false} Pow2Grows(m: nat, n: nat)
    requires m <= n
    ensures 1.0 <= Pow2(m) <= Pow2(n)
    decreases n
  {
    if n > 0 {
      Pow2Grows(if m == n then n - 1 else m, n - 1);
    }
  }

  /** The attempt leaves hope: neither a success, nor a refusal that a retry cannot change. */
  predicate Retried(a: Attempt) {
    match a
    case TargetRejected(_) => false
    case Raised(_) => true
    case Status(code) => code < 200 || 300 <= code < 400 || code == 408 || code == 429 || 500 <= code
  }

  /** The delivery in terms of the receiver alone: attempt by attempt, status by status, pause by pause. */
  ghost predicate DeliversPlainly(r: Receiver, limit: nat, d: Delivery) {
    var n := d.attempts;
    && 1 <= n <= limit && (forall k :: 1 <= k < n ==> Retried(r(k))) && (n < limit ==> !Retried(r(n)))
    && (d.delivered <==> r(n).Status? && 200 <= r(n).code <= 299)
    && d.error == (
         if d.delivered then None
         else match r(n)
           case Status(code) => Some(HttpStatus(code))
           case TargetRejected(message) => Some(NotPermitted(message))
           case Raised(message) => Some(Exception(message)))
    && (d.status.None? <==> forall k :: 1 <= k <= n ==> !r(k).Status?)
    && (d.status.Some? ==> exists k :: 1 <= k <= n && LastAnswer(r, k, n) && r(k).code == d.status.value)
    && |d.sleeps| == n - 1 && PausesAre(d.sleeps)
  }

  /** Attempt `k` is the last of the first `n` to have got a status code. */
  ghost predicate LastAnswer(r: Receiver, k: nat, n: nat) {
    r(k).Status? && forall j :: k < j <= n ==> !r(j).Status?
  }

  lemma {:induction false} LastStatusIs(r: Receiver, n: nat)
    ensures LastStatus(r, n).None? <==> forall k :: 1 <= k <= n ==> !r(k).Status?
    ensures var s := LastStatus(r, n);
      s.Some? ==> exists k :: 1 <= k <= n && LastAnswer(r, k, n) && r(k).code == s.value
  {
    if n > 0 {
      LastStatusIs(r, n - 1);
      var s := LastStatus(r, n);
      if r(n).Status? {
        assert LastAnswer(r, n, n);
      } else if s.Some? {
        var k :| 1 <= k <= n - 1 && LastAnswer(r, k, n - 1) && r(k).code == s.value;
        assert LastAnswer(r, k, n);
      }
    }
  }

  lemma DeliversInPlainTerms(r: Receiver, limit: nat, d: Delivery)
    requires 1 <= limit && Delivers(r, limit, d)
    ensures DeliversPlainly(r, limit, d)
  {
    LastStatusIs(r, d.attempts);
    forall k | 0 <= k < |d.sleeps|
      ensures d.sleeps[k] == if k < 5 then [1.0, 2.0, 4.0, 8.0, 16.0][k] else 30.0
    {
      BackoffIs(k + 1);
    }
    forall k | 1 <= k <= d.attempts ensures Retried(r(k)) <==> !Final(r(k)) {
    }
  }

  /** The signed delivery loop of a registered webhook. */
  method DeliverWebhook(r: Receiver, maxAttempts: int) returns (d: Delivery)
    ensures Delivers(r, Max(1, maxAttempts), d)
    ensures DeliversPlainly(r, if maxAttempts < 1 then 1 else maxAttempts, d)
  {
    var attempts: nat := 0;
    var status: Option<int> := None;
    var error: Option<Reason> := None;
    var delivered := false;
    var sleeps: seq<real> := [];
    while attempts < Max(1, maxAttempts)
      invariant 0 <= attempts <= Max(1, maxAttempts) && !delivered
      invariant forall k :: 1 <= k <= attempts ==> !Final(r(k))
      invariant status == LastStatus(r, attempts)
      invariant attempts > 0 ==> error == Some(Failure(r(attempts)))
      invariant |sleeps| == if attempts < Max(1, maxAttempts) then attempts else attempts - 1
      invariant forall k :: 0 <= k < |sleeps| ==> sleeps[k] == Backoff(k + 1)
    {
      attempts := attempts + 1;
      var a := r(attempts);
      match a {
        case Status(code) =>
          status := Some(code);
          if 200 <= code < 300 {
            delivered := true;
            error := None;
            break;
          }
          error := Some(HttpStatus(code));
          if 400 <= code < 500 && code !in {408, 429} {
            break;
          }
        case TargetRejected(message) =>
          error := Some(NotPermitted(message));
          break;
        case Raised(message) =>
          error := Some(Exception(message));
      }
      if attempts < Max(1, maxAttempts) {
        sleeps := sleeps + [Backoff(attempts)];
      }
    }
    d := Delivery(delivered, attempts, status, error, sleeps);
    DeliversInPlainTerms(r, Max(1, maxAttempts), d);
  }

  /** The unsigned delivery loop of a monitor's inline target, with its fixed number of attempts. */
  method DeliverInline(r: Receiver) returns (d: Delivery)
    ensures Delivers(r, MAX_DELIVERY_ATTEMPTS, d)
    ensures DeliversPlainly(r, 4, d)
  {
    var attempts: nat := 0;
    var status: Option<int> := None;
    var error: Option<Reason> := None;
    var delivered := false;
    var sleeps: seq<real> := [];
    while attempts < MAX_DELIVERY_ATTEMPTS
      invariant 0 <= attempts <= MAX_DELIVERY_ATTEMPTS && !delivered
      invariant forall k :: 1 <= k <= attempts ==> !Final(r(k))
      invariant status == LastStatus(r, attempts)
      invariant attempts > 0 ==> error == Some(Failure(r(attempts)))
      invariant |sleeps| == if attempts < MAX_DELIVERY_ATTEMPTS then attempts else attempts - 1
      invariant forall k :: 0 <= k < |sleeps| ==> sleeps[k] == Backoff(k + 1)
    {
      attempts := attempts + 1;
      var a := r(attempts);
      match a {
        case Status(code) =>
          status := Some(code);
          if 200 <= code < 300 {
            delivered := true;
            error := None;
            break;
          }
          error := Some(HttpStatus(code));
          if 400 <= code < 500 && code !in {408, 429} {
            break;
          }
        case TargetRejected(message) =>
          error := Some(NotPermitted(message));
          break;
        case Raised(message) =>
          error := Some(Exception(message));
      }
      if attempts < MAX_DELIVERY_ATTEMPTS {
        sleeps := sleeps + [Backoff(attempts)];
      }
    }
    d := Delivery(delivered, attempts, status, error, sleeps);
    DeliversInPlainTerms(r, MAX_DELIVERY_ATTEMPTS, d);
  }

  /** A receiver determines the delivery: two loops with the same limit decide alike. */
  lemma DecideAlike(r: Receiver, limit: nat, d: Delivery, e: Delivery)
    requires 1 <= limit && Delivers(r, limit, d) && Delivers(r, limit, e)
    ensures d == e
  {
  }

  function Total(sleeps: seq<real>): real {
    if sleeps == [] then 0.0 else Total(sleeps[..|sleeps| - 1]) + sleeps[|sleeps| - 1]
  }

  lemma {:induction false} TotalBound(sleeps: seq<real>)
    requires forall k :: 0 <= k < |sleeps| ==> sleeps[k] == Backoff(k + 1)
    ensures 0.0 <= Total(sleeps) <= Pow2(|sleeps|) - 1.0
    ensures Total(sleeps) <= MAX_BACKOFF_SECONDS * |sleeps| as real
    ensures Pow2(|sleeps|) >= 1.0
  {
    if sleeps != [] {
      TotalBound(sleeps[..|sleeps| - 1]);
    }
  }

  /** A delivery pauses once between attempts, for at most 2^(attempts-1) - 1 and 30 * (attempts-1) seconds in all. */
  lemma BackoffIsBounded(r: Receiver, limit: nat, d: Delivery)
    requires 1 <= limit && Delivers(r, limit, d)
    ensures |d.sleeps| == d.attempts - 1
    ensures Total(d.sleeps) <= Smaller(Pow2(d.attempts - 1) - 1.0, MAX_BACKOFF_SECONDS * (d.attempts - 1) as real)
  {
    TotalBound(d.sleeps);
  }

  /** With the default four attempts a delivery never pauses for more than seven seconds. */
  lemma DefaultBackoff(r: Receiver, d: Delivery)
    requires Delivers(r, MAX_DELIVERY_ATTEMPTS, d)
    ensures Total(d.sleeps) <= 7.0
  {
    BackoffIsBounded(r, MAX_DELIVERY_ATTEMPTS, d);
    assert Pow2(3) == 8.0 && Pow2(2) == 4.0;
  }

  // ---- Health ---------------------------------------------------------------------------

  datatype Health = Health(
    deliveries: nat,
    successes: nat,
    failures: nat,
    consecutiveFailures: nat,
    failing: bool,
    lastDelivery: Option<real>,
    lastStatus: Option<int>,
    lastError: Option<Reason>)

  const REGISTERED := Health(0, 0, 0, 0, false, None, None, None)

  class WebhookRecord {
    var health: Health

    constructor ()
      ensures health == REGISTERED
    {
      health := REGISTERED;
    }

    /** Writes one delivery result onto the record, counter by counter. */
    method RecordOutcome(delivered: bool, status: Option<int>, error: Option<Reason>, now: real)
      modifies this
      ensures health == Recorded(old(health), delivered, status, error, now)
    {
      var h := health.(
        deliveries := health.deliveries + 1, lastDelivery := Some(now), lastStatus := status, lastError := error);
      if delivered {
        h := h.(successes := h.successes + 1, consecutiveFailures := 0, failing := false);
      } else {
        h := h.(failures := h.failures + 1, consecutiveFailures := h.consecutiveFailures + 1);
        if h.consecutiveFailures >= FAILING_AFTER {
          h := h.(failing := true);
        }
      }
      health := h;
    }
  }

  function Recorded(h: Health, delivered: bool, status: Option<int>, error: Option<Reason>, now: real): Health {
    if delivered then
      h.(deliveries := h.deliveries + 1, successes := h.successes + 1, consecutiveFailures := 0, failing := false,
         lastDelivery := Some(now), lastStatus := status, lastError := error)
    else
      h.(deliveries := h.deliveries + 1, failures := h.failures + 1, consecutiveFailures := h.consecutiveFailures + 1,
         failing := h.failing || h.consecutiveFailures + 1 >= FAILING_AFTER,
         lastDelivery := Some(now), lastStatus := status, lastError := error)
  }

  /** A delivery and the instant at which its outcome is recorded. */
  datatype Sent = Sent(delivery: Delivery, at: real)

  function AfterDeliveries(sent: seq<Sent>): Health {
    if sent == [] then REGISTERED
    else
      var s := sent[|sent| - 1];
      Recorded(AfterDeliveries(sent[..|sent| - 1]), s.delivery.delivered, s.delivery.status, s.delivery.error, s.at)
  }

  function CountDelivered(sent: seq<Sent>, delivered: bool): nat {
    if sent == [] then 0
    else
      CountDelivered(sent[..|sent| - 1], delivered)
      + if sent[|sent| - 1].delivery.delivered == delivered then 1 else 0
  }

  /** How many deliveries failed since the last success. */
  function TrailingFailures(sent: seq<Sent>): nat {
    if sent == [] || sent[|sent| - 1].delivery.delivered then 0 else 1 + TrailingFailures(sent[..|sent| - 1])
  }

  /**
   * The record counts the deliveries, dates from the last one, and says "failing" exactly after ten failures in
   * a row.
   */
  lemma {:induction false} HealthIsTruthful(sent: seq<Sent>)
    ensures var h := AfterDeliveries(sent);
      && h.deliveries == |sent| == h.successes + h.failures
      && h.successes == CountDelivered(sent, true) && h.failures == CountDelivered(sent, false)
      && h.consecutiveFailures == TrailingFailures(sent)
      && (h.failing <==> TrailingFailures(sent) >= 10)
      && (sent != [] ==>
            var last := sent[|sent| - 1];
            && h.lastDelivery == Some(last.at)
            && h.lastStatus == last.delivery.status && h.lastError == last.delivery.error)
  {
    if sent != [] {
      HealthIsTruthful(sent[..|sent| - 1]);
    }
  }
}
