/**
 * The shared-store rate limiter as a protocol between any number of workers
 * and one Redis key.
 *
 * A request first executes the transaction INCR; TTL. Only when the reply shows
 * a key without a deadline does the worker send a second command, EXPIRE. The
 * two steps are separate, so other workers run in between, an EXPIRE may land
 * long after the request it belongs to (even after the key has lapsed and been
 * created again), and a worker may stop for good after its INCR.
 */
module RedisLimiter {
  import opened Prelude
  import opened SlidingWindow

  /** A window length in whole seconds. */
  type Seconds = n: int | 1 <= n witness 1

  /** The limiter's configuration, read once per request. */
  datatype Policy = Policy(limit: int, window: Seconds)

  datatype Key = Absent | Present(count: nat, deadline: Option<real>)

  /** What became of a counted request. `Unavailable` is the limiter's refusal to decide. */
  datatype Outcome = Waiting | Answered(allowed: bool, reset: int) | Unavailable

  /**
   * `waiting` maps a worker that has yet to send EXPIRE to its request, `strays`
   * counts EXPIRE commands whose sender no longer waits, `births` are the instants
   * at which the key was created. `log` holds every counted request; its epoch is
   * the life of the key, its rank the reply to INCR, and it is marked allowed when
   * it is answered so. `outcomes[k]` is what became of `log[k]`.
   */
  datatype State = State(
    now: real,
    key: Key,
    waiting: map<nat, nat>,
    strays: nat,
    births: seq<real>,
    log: seq<Hit>,
    outcomes: seq<Outcome>)
  {
    function Record(hit: Hit, outcome: Outcome): State {
      this.(log := log + [hit], outcomes := outcomes + [outcome])
    }
  }

  datatype Event =
    | Tick(elapsed: real)
    | Count(worker: nat)              // INCR; TTL executed, reply received
    | CountUnanswered                 // INCR; TTL executed, the client saw an error
    | Expire(worker: nat)             // EXPIRE executed and acknowledged
    | ExpireUnanswered(worker: nat)   // the client saw an error; the command may still execute
    | Crash(worker: nat, sent: bool)  // the worker stops, before or after sending EXPIRE
    | Stray                           // an EXPIRE nobody waits for executes

  const INITIAL := State(0.0, Absent, map[], 0, [], [], [])

  /** Redis drops a key once the clock has passed its deadline. */
  predicate Live(key: Key, now: real) {
    key.Present? && (key.deadline.Some? ==> now <= key.deadline.value)
  }

  /** Reply of TTL: whole seconds to the deadline, or -1 for a key that has none. */
  function Ttl(key: Key, now: real): int
    requires key.Present?
  {
    match key.deadline
    case None => -1
    case Some(d) => (d - now + 0.5).Floor
  }

  /** INCR: bump the live key, or create it without a deadline. */
  function Increment(s: State, outcome: Outcome): State {
    if Live(s.key, s.now) then
      var count := s.key.count + 1;
      s.(key := s.key.(count := count)).Record(Hit(s.now, Max(0, |s.births| - 1), count, false), outcome)
    else
      s.(key := Present(1, None), births := s.births + [s.now]).Record(Hit(s.now, |s.births|, 1, false), outcome)
  }

  /** EXPIRE: a live key gets the deadline `now + window`; a lapsed one is left alone. */
  function SetDeadline(s: State, p: Policy): State {
    if Live(s.key, s.now) then s.(key := s.key.(deadline := Some(s.now + p.window as real))) else s
  }

  function Verdict(p: Policy, count: nat, ttl: int): Outcome {
    Answered(count <= p.limit, Max(0, ttl))
  }

  predicate Pending(s: State, worker: nat) {
    worker in s.waiting && s.waiting[worker] < |s.log| == |s.outcomes|
  }

  /** The worker's request gets its outcome and the worker is done. */
  function Resolve(s: State, worker: nat, outcome: Outcome): State
    requires Pending(s, worker)
  {
    var k := s.waiting[worker];
    s.(waiting := s.waiting - {worker},
       log := s.log[k := s.log[k].(allowed := outcome.Answered? && outcome.allowed)],
       outcomes := s.outcomes[k := outcome])
  }

  /** After its INCR; TTL a worker answers at once, unless the key has no deadline yet. */
  function Respond(s: State, worker: nat, p: Policy): State
    requires s.key.Present? && 0 < |s.log| == |s.outcomes|
  {
    var ttl := Ttl(s.key, s.now);
    var asked := s.(waiting := s.waiting[worker := |s.log| - 1]);
    if ttl == -1 then asked else Resolve(asked, worker, Verdict(p, s.key.count, ttl))
  }

  /** One step of the protocol; an event that cannot happen now changes nothing. */
  function Step(s: State, e: Event, p: Policy): State {
    match e
    case Tick(elapsed) =>
      if 0.0 <= elapsed then s.(now := s.now + elapsed) else s
    case Count(w) =>
      if w in s.waiting || |s.log| != |s.outcomes| then s else Respond(Increment(s, Waiting), w, p)
    case CountUnanswered =>
      Increment(s, Unavailable)
    case Expire(w) =>
      if !Pending(s, w) then s
      else Resolve(SetDeadline(s, p), w, Verdict(p, s.log[s.waiting[w]].rank, p.window))
    case ExpireUnanswered(w) =>
      if !Pending(s, w) then s else Resolve(s, w, Unavailable).(strays := s.strays + 1)
    case Crash(w, sent) =>
      s.(waiting := s.waiting - {w}, strays := s.strays + if sent && w in s.waiting then 1 else 0)
    case Stray =>
      if s.strays == 0 then s else SetDeadline(s, p).(strays := s.strays - 1)
  }

  /** The state after a run, that is after any interleaving of events. */
  function After(run: seq<Event>, p: Policy): State {
    if run == [] then INITIAL else Step(After(run[..|run| - 1], p), run[|run| - 1], p)
  }

  // ---- What every step keeps -----------------------------------------------

  ghost predicate Counted(s: State, p: Policy) {
    Chronicle(s.log, s.births, p.window as real, Max(0, p.limit))
  }

  /** The key belongs to the newest life, carries its count and lapses no earlier than a window after its birth. */
  ghost predicate KeyAgrees(s: State, p: Policy) {
    && (s.key.Present? <==> s.births != [])
    && (s.key.Present? <==> s.log != [])
    && (s.key.Present? ==>
      && s.births[|s.births| - 1] <= s.now
      && s.log[|s.log| - 1].epoch == |s.births| - 1
      && 1 <= s.log[|s.log| - 1].rank == s.key.count
      && (s.key.deadline.Some? ==>
        s.births[|s.births| - 1] + p.window as real <= s.key.deadline.value <= s.now + p.window as real))
  }

  ghost predicate PastRequests(s: State) {
    forall k :: 0 <= k < |s.log| ==>
      && s.log[k].time <= s.now
      && (s.key.Present? && s.key.deadline.Some? ==> s.log[k].time <= s.key.deadline.value)
  }

  /** Verdicts follow the count, and an answer in the newest life means its deadline is set. */
  ghost predicate Truthful(s: State, p: Policy) {
    && |s.log| == |s.outcomes|
    && forall k :: 0 <= k < |s.log| ==>
      match s.outcomes[k]
      case Answered(allowed, reset) =>
        && s.log[k].allowed == allowed == (s.log[k].rank <= p.limit)
        && 0 <= reset <= p.window
        && (s.log[k].epoch == |s.births| - 1 ==> s.key.Present? && s.key.deadline.Some?)
      case _ => !s.log[k].allowed
  }

  ghost predicate WaitersKnown(s: State) {
    forall w :: w in s.waiting ==> s.waiting[w] < |s.log|
  }

  ghost predicate Invariant(s: State, p: Policy) {
    Counted(s, p) && KeyAgrees(s, p) && PastRequests(s) && Truthful(s, p) && WaitersKnown(s)
  }

  lemma IncrementCounts(s: State, p: Policy, outcome: Outcome)
    requires Counted(s, p) && KeyAgrees(s, p) && PastRequests(s)
    ensures var t := Increment(s, outcome); Counted(t, p) && KeyAgrees(t, p)
  {
    var t := Increment(s, outcome);
    var cap := Max(0, p.limit);
    if !Live(s.key, s.now) {
      Open(s.log, s.births, p.window as real, cap, s.now);
    }
    Append(s.log, t.births, p.window as real, cap, t.log[|s.log|]);
  }

  lemma EpochsOpened(s: State, p: Policy)
    requires Counted(s, p)
    ensures forall k :: 0 <= k < |s.log| ==> s.log[k].epoch < |s.births|
  {
  }

  lemma IncrementIsTruthful(s: State, p: Policy, outcome: Outcome)
    requires KeyAgrees(s, p) && PastRequests(s) && Truthful(s, p) && WaitersKnown(s) && !outcome.Answered?
    requires forall k :: 0 <= k < |s.log| ==> s.log[k].epoch < |s.births|
    ensures var t := Increment(s, outcome); PastRequests(t) && Truthful(t, p) && WaitersKnown(t)
  {
  }

  lemma IncrementKeeps(s: State, p: Policy, outcome: Outcome)
    requires Invariant(s, p) && !outcome.Answered?
    ensures Invariant(Increment(s, outcome), p)
  {
    IncrementCounts(s, p, outcome);
    EpochsOpened(s, p);
    IncrementIsTruthful(s, p, outcome);
  }

  lemma SetDeadlineIsTruthful(s: State, p: Policy)
    requires KeyAgrees(s, p) && PastRequests(s) && Truthful(s, p)
    ensures var t := SetDeadline(s, p);
      && KeyAgrees(t, p) && PastRequests(t) && Truthful(t, p)
      && (s.births != [] ==> t.key.Present? && t.key.deadline.Some?)
  {
  }

  lemma SetDeadlineKeeps(s: State, p: Policy)
    requires Invariant(s, p)
    ensures var t := SetDeadline(s, p);
      && Invariant(t, p) && t.waiting == s.waiting && t.log == s.log && t.outcomes == s.outcomes
      && (s.births != [] ==> t.key.Present? && t.key.deadline.Some?)
  {
    SetDeadlineIsTruthful(s, p);
  }

  ghost predicate Fits(s: State, p: Policy, w: nat, outcome: Outcome) {
    Pending(s, w) && (outcome.Answered? ==>
      && (outcome.allowed <==> s.log[s.waiting[w]].rank <= p.limit)
      && 0 <= outcome.reset <= p.window
      && s.key.Present? && s.key.deadline.Some?)
  }

  lemma ResolveCounts(s: State, p: Policy, w: nat, outcome: Outcome)
    requires Counted(s, p) && KeyAgrees(s, p) && Fits(s, p, w, outcome)
    ensures var t := Resolve(s, w, outcome); Counted(t, p) && KeyAgrees(t, p)
  {
    var allowed := outcome.Answered? && outcome.allowed;
    Reverdict(s.log, s.births, p.window as real, Max(0, p.limit), s.waiting[w], allowed);
  }

  lemma ResolveIsTruthful(s: State, p: Policy, w: nat, outcome: Outcome)
    requires PastRequests(s) && Truthful(s, p) && WaitersKnown(s) && Fits(s, p, w, outcome)
    ensures var t := Resolve(s, w, outcome); PastRequests(t) && Truthful(t, p) && WaitersKnown(t)
  {
  }

  lemma ResolveKeeps(s: State, p: Policy, w: nat, outcome: Outcome)
    requires Invariant(s, p) && Fits(s, p, w, outcome)
    ensures Invariant(Resolve(s, w, outcome), p)
  {
    ResolveCounts(s, p, w, outcome);
    ResolveIsTruthful(s, p, w, outcome);
  }

  lemma AskedKeeps(s: State, w: nat, p: Policy)
    requires Invariant(s, p) && s.log != []
    ensures Invariant(s.(waiting := s.waiting[w := |s.log| - 1]), p)
  {
  }

  lemma RespondKeeps(s: State, w: nat, p: Policy)
    requires Invariant(s, p) && Live(s.key, s.now) && s.log != [] && s.log[|s.log| - 1].rank == s.key.count
    ensures Invariant(Respond(s, w, p), p)
  {
    AskedKeeps(s, w, p);
    var asked := s.(waiting := s.waiting[w := |s.log| - 1]);
    var ttl := Ttl(s.key, s.now);
    if ttl != -1 {
      ResolveKeeps(asked, p, w, Verdict(p, s.key.count, ttl));
    }
  }

  lemma CountKeeps(s: State, w: nat, p: Policy)
    requires Invariant(s, p)
    ensures Invariant(Step(s, Count(w), p), p)
  {
    if w !in s.waiting {
      IncrementKeeps(s, p, Waiting);
      RespondKeeps(Increment(s, Waiting), w, p);
    }
  }

  lemma ExpireKeeps(s: State, w: nat, p: Policy)
    requires Invariant(s, p)
    ensures Invariant(Step(s, Expire(w), p), p)
  {
    if Pending(s, w) {
      SetDeadlineKeeps(s, p);
      EpochsOpened(s, p);
      var verdict := Verdict(p, s.log[s.waiting[w]].rank, p.window);
      assert s.log[s.waiting[w]].epoch < |s.births|;
      ResolveKeeps(SetDeadline(s, p), p, w, verdict);
    }
  }

  lemma ExpireUnansweredKeeps(s: State, w: nat, p: Policy)
    requires Invariant(s, p)
    ensures Invariant(Step(s, ExpireUnanswered(w), p), p)
  {
    if Pending(s, w) {
      ResolveKeeps(s, p, w, Unavailable);
    }
  }

  lemma StrayKeeps(s: State, p: Policy)
    requires Invariant(s, p)
    ensures Invariant(Step(s, Stray, p), p)
  {
    if s.strays > 0 {
      SetDeadlineKeeps(s, p);
      var t := SetDeadline(s, p);
      StraysAreFree(t, s.strays - 1, p);
      assert Step(s, Stray, p) == t.(strays := s.strays - 1);
    }
  }

  lemma StraysAreFree(s: State, strays: nat, p: Policy)
    requires Invariant(s, p)
    ensures Invariant(s.(strays := strays), p)
  {
  }

  lemma TickIsTruthful(s: State, elapsed: real, p: Policy)
    requires KeyAgrees(s, p) && PastRequests(s) && Truthful(s, p) && 0.0 <= elapsed
    ensures var t := s.(now := s.now + elapsed); KeyAgrees(t, p) && PastRequests(t) && Truthful(t, p)
  {
  }

  lemma TickKeeps(s: State, elapsed: real, p: Policy)
    requires Invariant(s, p)
    ensures Invariant(Step(s, Tick(elapsed), p), p)
  {
    if 0.0 <= elapsed {
      TickIsTruthful(s, elapsed, p);
    }
  }

  lemma CrashKeeps(s: State, w: nat, sent: bool, p: Policy)
    requires Invariant(s, p)
    ensures Invariant(Step(s, Crash(w, sent), p), p)
  {
    FewerWaiters(s, s.waiting - {w}, p);
    StraysAreFree(s.(waiting := s.waiting - {w}), Step(s, Crash(w, sent), p).strays, p);
  }

  lemma FewerWaiters(s: State, waiting: map<nat, nat>, p: Policy)
    requires Invariant(s, p) && forall w :: w in waiting ==> w in s.waiting && waiting[w] == s.waiting[w]
    ensures Invariant(s.(waiting := waiting), p)
  {
  }

  /** Every event keeps the invariant. */
  lemma StepKeeps(s: State, e: Event, p: Policy)
    requires Invariant(s, p)
    ensures Invariant(Step(s, e, p), p)
  {
    match e
    case Count(w) => CountKeeps(s, w, p);
    case CountUnanswered => IncrementKeeps(s, p, Unavailable);
    case Expire(w) => ExpireKeeps(s, w, p);
    case ExpireUnanswered(w) => ExpireUnansweredKeeps(s, w, p);
    case Stray => StrayKeeps(s, p);
    case Tick(elapsed) => TickKeeps(s, elapsed, p);
    case Crash(w, sent) => CrashKeeps(s, w, sent, p);
  }

  lemma {:induction false} RunKeeps(run: seq<Event>, p: Policy)
    ensures Invariant(After(run, p), p)
  {
    if run != [] {
      RunKeeps(run[..|run| - 1], p);
      StepKeeps(After(run[..|run| - 1], p), run[|run| - 1], p);
    }
  }

  // ---- Main results ---------------------------------------------------------

  /** Requests allowed in one life of the key, out of those that were answered. */
  lemma LimitPerLife(run: seq<Event>, p: Policy, life: nat)
    ensures AllowedIn(After(run, p).log, life, 1) <= Max(0, p.limit)
  {
    RunKeeps(run, p);
    WindowCap(After(run, p).log, life, Max(0, p.limit), 1);
  }

  /** An answered request is allowed exactly when its rank in the life of the key is within the limit. */
  lemma AnswersFollowRank(run: seq<Event>, p: Policy, k: nat)
    requires var s := After(run, p); k < |s.log| == |s.outcomes| && s.outcomes[k].Answered?
    ensures var s := After(run, p);
      && (s.outcomes[k].allowed <==> CountIn(s.log[..k + 1], s.log[k].epoch) <= p.limit)
      && 0 <= s.outcomes[k].reset <= p.window
  {
    RunKeeps(run, p);
    var log := After(run, p).log;
    RankedPrefix(log, k + 1);
    RankIsCount(log[..k + 1]);
  }

  lemma RankedPrefix(log: seq<Hit>, n: nat)
    requires Ranked(log) && n <= |log|
    ensures Ranked(log[..n])
  {
  }

  /** Successive creations of the key are more than a window apart. */
  lemma CreationsAreSpaced(run: seq<Event>, p: Policy, i: nat)
    requires 0 < i < |After(run, p).births|
    ensures After(run, p).births[i - 1] + p.window as real < After(run, p).births[i]
  {
    RunKeeps(run, p);
  }

  /** No step moves the deadline of a live key to an earlier instant or removes it. */
  lemma DeadlineNeverEarlier(run: seq<Event>, e: Event, p: Policy)
    requires var s := After(run, p); Live(s.key, s.now) && s.key.deadline.Some?
    ensures var s := After(run, p); var t := Step(s, e, p);
      t.key.Present? && t.key.deadline.Some? && s.key.deadline.value <= t.key.deadline.value
  {
    RunKeeps(run, p);
  }

  /** Once any request of the newest life has been answered, the key lapses within a window from now. */
  lemma AnswerMeansDeadline(run: seq<Event>, p: Policy, k: nat)
    requires var s := After(run, p);
      k < |s.log| == |s.outcomes| && s.outcomes[k].Answered? && s.log[k].epoch == |s.births| - 1
    ensures var s := After(run, p);
      s.key.Present? && s.key.deadline.Some? && s.key.deadline.value <= s.now + p.window as real
  {
    RunKeeps(run, p);
  }

  /** A live key with deadline `d`, and no EXPIRE still to come. */
  ghost predicate Settled(s: State, d: real, births: seq<real>) {
    && s.waiting == map[] && s.strays == 0 && s.births == births
    && s.key.Present? && s.key.deadline == Some(d)
  }

  lemma SettledStep(s: State, e: Event, p: Policy, d: real)
    requires s.now <= d ==> Settled(s, d, s.births)
    ensures var t := Step(s, e, p); s.now <= t.now && (t.now <= d ==> Settled(t, d, s.births))
  {
  }

  /** Traffic does not extend a window: once its EXPIREs are in, the deadline stands until the key has lapsed. */
  lemma {:induction false} TrafficDoesNotExtend(run: seq<Event>, more: seq<Event>, p: Policy, d: real)
    requires Settled(After(run, p), d, After(run, p).births)
    ensures var s, t := After(run, p), After(run + more, p); t.now <= d ==> Settled(t, d, s.births)
    decreases |more|
  {
    if more == [] {
      assert run + more == run;
    } else {
      var front := more[..|more| - 1];
      assert run + more == (run + front) + [more[|more| - 1]];
      TrafficDoesNotExtend(run, front, p, d);
      AfterOne(run + front, more[|more| - 1], p);
      SettledStep(After(run + front, p), more[|more| - 1], p, d);
    }
  }

  /**
   * The sliding-window guarantee: whatever the interleaving, the late EXPIREs and the
   * crashes, any closed interval of one window holds at most `2 * limit - 1` allowed requests.
   */
  lemma RedisSlidingBound(run: seq<Event>, p: Policy, from: real)
    ensures AllowedBetween(After(run, p).log, from, from + p.window as real) <= Max(0, 2 * p.limit - 1)
  {
    RunKeeps(run, p);
    var s := After(run, p);
    SlidingBound(s.log, s.births, p.window as real, Max(0, p.limit), from);
  }

  lemma AfterOne(run: seq<Event>, e: Event, p: Policy)
    ensures After(run + [e], p) == Step(After(run, p), e, p)
  {
  }

  lemma AllowedOne(log: seq<Hit>, h: Hit, from: real, to: real)
    ensures AllowedBetween(log + [h], from, to)
         == AllowedBetween(log, from, to) + if from <= h.time <= to && h.allowed then 1 else 0
  {
  }

  // ---- What each command does, in the terms of the key and its deadline ------

  /** The key counts at `now`: it is there, and no deadline of its has passed. */
  predicate InForce(s: State) {
    s.key.Present? && (s.key.deadline == None || s.now <= s.key.deadline.value)
  }

  /** Those who wait have had no outcome yet, and no two wait for the same request. */
  ghost predicate WaitersWait(s: State) {
    && |s.log| == |s.outcomes|
    && (forall w :: w in s.waiting ==> s.waiting[w] < |s.outcomes| && s.outcomes[s.waiting[w]] == Waiting)
    && (forall v, w :: v in s.waiting && w in s.waiting && s.waiting[v] == s.waiting[w] ==> v == w)
  }

  /** Requests and outcomes are only added: an outcome once given does not change. */
  ghost predicate OutcomesStand(s: State, t: State) {
    && |s.log| <= |t.log| && |s.outcomes| <= |t.outcomes|
    && (forall k :: 0 <= k < |s.log| ==> t.log[k].(allowed := false) == s.log[k].(allowed := false))
    && (forall k :: 0 <= k < |s.outcomes| && s.outcomes[k] != Waiting ==> t.outcomes[k] == s.outcomes[k])
  }

  lemma IncrementKeepsWaiters(s: State, outcome: Outcome)
    requires WaitersWait(s)
    ensures WaitersWait(Increment(s, outcome)) && OutcomesStand(s, Increment(s, outcome))
  {
  }

  lemma ResolveKeepsWaiters(s: State, w: nat, outcome: Outcome)
    requires WaitersWait(s) && Pending(s, w)
    ensures WaitersWait(Resolve(s, w, outcome)) && OutcomesStand(s, Resolve(s, w, outcome))
  {
  }

  lemma AskingKeepsWaiters(s: State, w: nat)
    requires WaitersWait(s) && w !in s.waiting
    ensures var t := Increment(s, Waiting);
      WaitersWait(t.(waiting := t.waiting[w := |t.log| - 1]))
  {
  }

  lemma CountKeepsWaiters(s: State, w: nat, p: Policy)
    requires WaitersWait(s)
    ensures WaitersWait(Step(s, Count(w), p)) && OutcomesStand(s, Step(s, Count(w), p))
  {
    if w !in s.waiting {
      IncrementKeepsWaiters(s, Waiting);
      assert OutcomesStand(s, Increment(s, Waiting));
      AskingKeepsWaiters(s, w);
      var t := Increment(s, Waiting);
      var asked := t.(waiting := t.waiting[w := |t.log| - 1]);
      var ttl := Ttl(t.key, t.now);
      if ttl != -1 {
        ResolveKeepsWaiters(asked, w, Verdict(p, t.key.count, ttl));
      }
    }
  }

  lemma ExpireKeepsWaiters(s: State, w: nat, p: Policy)
    requires WaitersWait(s)
    ensures WaitersWait(Step(s, Expire(w), p)) && OutcomesStand(s, Step(s, Expire(w), p))
  {
    if Pending(s, w) {
      ResolveKeepsWaiters(SetDeadline(s, p), w, Verdict(p, s.log[s.waiting[w]].rank, p.window));
    }
  }

  lemma LostExpireKeepsWaiters(s: State, w: nat, p: Policy)
    requires WaitersWait(s)
    ensures WaitersWait(Step(s, ExpireUnanswered(w), p)) && OutcomesStand(s, Step(s, ExpireUnanswered(w), p))
  {
    if Pending(s, w) {
      ResolveKeepsWaiters(s, w, Unavailable);
    }
  }

  lemma StepKeepsWaiters(s: State, e: Event, p: Policy)
    requires WaitersWait(s)
    ensures var t := Step(s, e, p); WaitersWait(t) && OutcomesStand(s, t)
  {
    match e
    case Count(w) => CountKeepsWaiters(s, w, p);
    case CountUnanswered => IncrementKeepsWaiters(s, Unavailable);
    case Expire(w) => ExpireKeepsWaiters(s, w, p);
    case ExpireUnanswered(w) => LostExpireKeepsWaiters(s, w, p);
    case _ =>
  }

  lemma {:induction false} RunKeepsWaiters(run: seq<Event>, p: Policy)
    ensures WaitersWait(After(run, p))
  {
    if run != [] {
      RunKeepsWaiters(run[..|run| - 1], p);
      StepKeepsWaiters(After(run[..|run| - 1], p), run[|run| - 1], p);
    }
  }

  /** An answer, once given, stands however the run goes on. */
  lemma {:induction false} AnswersStand(run: seq<Event>, more: seq<Event>, p: Policy)
    ensures OutcomesStand(After(run, p), After(run + more, p))
    decreases |more|
  {
    if more == [] {
      assert run + more == run;
    } else {
      var front, e := more[..|more| - 1], more[|more| - 1];
      assert run + more == (run + front) + [e];
      AnswersStand(run, front, p);
      RunKeepsWaiters(run + front, p);
      AfterOne(run + front, e, p);
      StepKeepsWaiters(After(run + front, p), e, p);
    }
  }

  /** INCR adds a request: the next rank in the life of a key in force, or the first one in a new life. */
  ghost predicate Incremented(s: State, t: State) {
    && t.now == s.now && t.strays == s.strays && |t.log| == |s.log| + 1 && |t.outcomes| == |s.outcomes| + 1
    && var hit := t.log[|s.log|];
       if InForce(s) then
         && t.key == Present(s.key.count + 1, s.key.deadline) && t.births == s.births
         && hit.time == s.now && hit.epoch == |s.births| - 1 && hit.rank == s.key.count + 1
       else
         && t.key == Present(1, None) && t.births == s.births + [s.now]
         && hit.time == s.now && hit.epoch == |s.births| && hit.rank == 1
  }

  lemma TtlIsNearest(key: Key, now: real)
    requires key.Present? && key.deadline.Some? && now <= key.deadline.value
    ensures 0 <= Ttl(key, now) && -0.5 <= now + Ttl(key, now) as real - key.deadline.value <= 0.5
  {
  }

  ghost predicate AnsweredAtOnce(s: State, t: State, p: Policy, w: nat)
    requires |s.outcomes| < |t.outcomes|
  {
    var outcome := t.outcomes[|s.outcomes|];
    if InForce(s) && s.key.deadline.Some? then
      && outcome.Answered? && t.waiting == s.waiting
      && (outcome.allowed <==> s.key.count + 1 <= p.limit)
      && 0 <= outcome.reset
      && -0.5 <= s.now + outcome.reset as real - s.key.deadline.value <= 0.5
    else
      outcome == Waiting && t.waiting == s.waiting[w := |s.outcomes|]
  }

  lemma IncrementIs(s: State, outcome: Outcome)
    requires |s.log| == |s.outcomes| && (s.key.Present? ==> s.births != [])
    ensures Incremented(s, Increment(s, outcome))
  {
  }

  lemma CountAnswers(s: State, p: Policy, w: nat)
    requires w !in s.waiting && WaitersWait(s) && (s.key.Present? ==> s.births != [])
    ensures var t := Step(s, Count(w), p); Incremented(s, t) && AnsweredAtOnce(s, t, p, w)
  {
    var t := Increment(s, Waiting);
    IncrementIs(s, Waiting);
    if InForce(s) && s.key.deadline.Some? {
      TtlIsNearest(t.key, t.now);
      assert t.waiting[w := |s.log|] - {w} == s.waiting;
    }
  }

  /**
   * A request on a key with a deadline is answered at once: allowed exactly within the limit, and told, to the
   * nearest second, how long the key has left. On a key without a deadline it waits.
   */
  lemma CountIsAnswered(run: seq<Event>, p: Policy, w: nat)
    requires w !in After(run, p).waiting
    ensures var s, t := After(run, p), After(run + [Count(w)], p);
      Incremented(s, t) && AnsweredAtOnce(s, t, p, w)
  {
    KeyHasABirth(run, p);
    RunKeepsWaiters(run, p);
    AfterOne(run, Count(w), p);
    CountAnswers(After(run, p), p, w);
  }

  lemma KeyHasABirth(run: seq<Event>, p: Policy)
    ensures After(run, p).key.Present? ==> After(run, p).births != []
  {
    RunKeeps(run, p);
  }

  lemma LostCountIs(s: State, p: Policy)
    requires |s.log| == |s.outcomes| && (s.key.Present? ==> s.births != [])
    ensures var t := Step(s, CountUnanswered, p);
      Incremented(s, t) && t.outcomes[|s.outcomes|] == Unavailable && t.waiting == s.waiting
  {
    IncrementIs(s, Unavailable);
  }

  /** A request whose reply was lost counts all the same and is never answered. */
  lemma LostCountStillCounts(run: seq<Event>, p: Policy)
    ensures var s, t := After(run, p), After(run + [CountUnanswered], p);
      Incremented(s, t) && t.outcomes[|s.outcomes|] == Unavailable && t.waiting == s.waiting
  {
    KeyHasABirth(run, p);
    RunKeepsWaiters(run, p);
    AfterOne(run, CountUnanswered, p);
    LostCountIs(After(run, p), p);
  }

  /** EXPIRE, whoever sent it, gives a key in force one whole window from now and does nothing else to it. */
  ghost predicate Extended(s: State, t: State, p: Policy) {
    && t.now == s.now && t.births == s.births
    && t.key == if InForce(s) then Present(s.key.count, Some(s.now + p.window as real)) else s.key
  }

  ghost predicate AnsweredInFull(s: State, t: State, p: Policy, w: nat)
    requires w in s.waiting
  {
    && t.waiting == s.waiting - {w}
    && s.waiting[w] < |s.log| == |t.outcomes|
    && t.outcomes[s.waiting[w]] == Answered(s.log[s.waiting[w]].rank <= p.limit, p.window)
  }

  lemma ExpireAnswersNow(s: State, p: Policy, w: nat)
    requires w in s.waiting && WaitersWait(s)
    ensures var t := Step(s, Expire(w), p); Extended(s, t, p) && AnsweredInFull(s, t, p, w)
  {
    assert Pending(s, w);
  }

  /** The worker whose EXPIRE is acknowledged answers with the whole window. */
  lemma ExpireIsAnswered(run: seq<Event>, p: Policy, w: nat)
    requires w in After(run, p).waiting
    ensures var s, t := After(run, p), After(run + [Expire(w)], p);
      Extended(s, t, p) && AnsweredInFull(s, t, p, w)
  {
    RunKeepsWaiters(run, p);
    AfterOne(run, Expire(w), p);
    ExpireAnswersNow(After(run, p), p, w);
  }

  /** A lost EXPIRE leaves the decision open to the caller and may still be carried out, once. */
  lemma LostExpireIsUnavailable(run: seq<Event>, p: Policy, w: nat)
    requires w in After(run, p).waiting
    ensures var s, t := After(run, p), After(run + [ExpireUnanswered(w)], p);
      && t.key == s.key && t.births == s.births && t.waiting == s.waiting - {w} && t.strays == s.strays + 1
      && s.waiting[w] < |t.outcomes| && t.outcomes[s.waiting[w]] == Unavailable
  {
    RunKeepsWaiters(run, p);
    AfterOne(run, ExpireUnanswered(w), p);
  }

  lemma StrayExtends(run: seq<Event>, p: Policy)
    requires After(run, p).strays > 0
    ensures var s, t := After(run, p), After(run + [Stray], p);
      Extended(s, t, p) && t.waiting == s.waiting && t.outcomes == s.outcomes && t.strays == s.strays - 1
  {
    AfterOne(run, Stray, p);
  }

  /** Time passing and workers stopping leave the key and every outcome alone; a sent EXPIRE is still to come. */
  lemma TimeAndCrashesLeaveTheKey(run: seq<Event>, p: Policy, elapsed: real, w: nat, sent: bool)
    ensures var s := After(run, p);
      var later, crashed := After(run + [Tick(elapsed)], p), After(run + [Crash(w, sent)], p);
      && later == s.(now := if 0.0 <= elapsed then s.now + elapsed else s.now)
      && crashed == s.(waiting := crashed.waiting, strays := crashed.strays)
      && crashed.waiting == s.waiting - {w}
      && crashed.strays == s.strays + if sent && w in s.waiting then 1 else 0
  {
    AfterOne(run, Tick(elapsed), p);
    AfterOne(run, Crash(w, sent), p);
  }

  ghost predicate Reachable(s: State, p: Policy) {
    exists run :: After(run, p) == s
  }

  lemma StepIsReachable(s: State, e: Event, p: Policy)
    requires Reachable(s, p)
    ensures Reachable(Step(s, e, p), p)
  {
    var run :| After(run, p) == s;
    AfterOne(run, e, p);
  }

  /** Some run ends at `now` with nobody waiting and `served` requests allowed in [from, to]. */
  ghost predicate Calm(s: State, p: Policy, key: Key, now: real, from: real, to: real, served: nat) {
    && Reachable(s, p) && s.key == key && s.now == now && s.waiting == map[] && |s.log| == |s.outcomes|
    && AllowedBetween(s.log, from, to) == served
  }

  lemma Wait(s: State, elapsed: real, p: Policy, key: Key, from: real, to: real, served: nat) returns (t: State)
    requires Calm(s, p, key, s.now, from, to, served) && 0.0 <= elapsed
    ensures Calm(t, p, key, s.now + elapsed, from, to, served)
  {
    StepIsReachable(s, Tick(elapsed), p);
    t := Step(s, Tick(elapsed), p);
  }

  /** One worker's INCR and EXPIRE on a key that is gone. */
  lemma OpenKey(s: State, p: Policy, key: Key, from: real, to: real, served: nat) returns (t: State)
    requires Calm(s, p, key, s.now, from, to, served) && !Live(key, s.now) && 1 <= p.limit
    ensures Calm(t, p, Present(1, Some(s.now + p.window as real)), s.now, from, to,
                 served + if from <= s.now <= to then 1 else 0)
  {
    StepIsReachable(s, Count(0), p);
    var one := Asking(s);
    assert Step(s, Count(0), p) == one;
    StepIsReachable(one, Expire(0), p);
    t := Step(one, Expire(0), p);
    ExpireAnswers(s, p);
    AllowedOne(s.log, Hit(s.now, |s.births|, 1, true), from, to);
  }

  /** Worker 0 has created the key and has yet to send EXPIRE. */
  function Asking(s: State): State {
    s.(key := Present(1, None), births := s.births + [s.now], waiting := map[0 := |s.log|],
       log := s.log + [Hit(s.now, |s.births|, 1, false)], outcomes := s.outcomes + [Waiting])
  }

  lemma ExpireAnswers(s: State, p: Policy)
    requires |s.log| == |s.outcomes| && 1 <= p.limit
    ensures var t := Step(Asking(s), Expire(0), p);
      && t.key == Present(1, Some(s.now + p.window as real)) && t.now == s.now && t.waiting == map[]
      && t.log == s.log + [Hit(s.now, |s.births|, 1, true)] && |t.outcomes| == |t.log|
  {
  }

  /** One request more within the limit, on a key with a deadline, inside the interval. */
  lemma CountOnKey(s: State, p: Policy, count: nat, deadline: real, from: real, to: real, served: nat)
    returns (t: State)
    requires Calm(s, p, Present(count, Some(deadline)), s.now, from, to, served) && s.now <= deadline
    requires from <= s.now <= to && count + 1 <= p.limit
    ensures Calm(t, p, Present(count + 1, Some(deadline)), s.now, from, to, served + 1)
  {
    StepIsReachable(s, Count(0), p);
    t := Step(s, Count(0), p);
    var h := Hit(s.now, Max(0, |s.births| - 1), count + 1, true);
    assert t.log == s.log + [h];
    AllowedOne(s.log, h, from, to);
  }

  /** `n` more requests at one instant all pass while the limit has room. */
  lemma {:induction false} Burst(s: State, n: nat, p: Policy, count: nat, deadline: real,
                                 from: real, to: real, served: nat)
    returns (t: State)
    requires Calm(s, p, Present(count, Some(deadline)), s.now, from, to, served) && s.now <= deadline
    requires from <= s.now <= to && count + n <= p.limit
    ensures Calm(t, p, Present(count + n, Some(deadline)), s.now, from, to, served + n)
  {
    t := s;
    if n > 0 {
      t := Burst(s, n - 1, p, count, deadline, from, to, served);
      t := CountOnKey(t, p, count + n - 1, deadline, from, to, served + n - 1);
    }
  }

  /** A key opened at zero takes the rest of the limit at its very deadline. */
  lemma LateOnTheOldKey(p: Policy) returns (t: State)
    requires 1 <= p.limit
    ensures var w := p.window as real; Calm(t, p, Present(p.limit, Some(w)), w, w, 2.0 * w, p.limit - 1)
  {
    var w := p.window as real;
    assert After([], p) == INITIAL;
    t := OpenKey(INITIAL, p, Absent, w, 2.0 * w, 0);
    t := Wait(t, w, p, Present(1, Some(w)), w, 2.0 * w, 0);
    t := Burst(t, p.limit - 1, p, 1, w, w, 2.0 * w, 0);
  }

  /** Half a second later the key is gone, and a whole limit passes on the new one. */
  lemma EarlyOnTheNewKey(s: State, p: Policy) returns (t: State)
    requires 1 <= p.limit
    requires var w := p.window as real; Calm(s, p, Present(p.limit, Some(w)), w, w, 2.0 * w, p.limit - 1)
    ensures var w := p.window as real; Reachable(t, p) && AllowedBetween(t.log, w, 2.0 * w) == 2 * p.limit - 1
  {
    var w := p.window as real;
    var key := Present(p.limit, Some(w));
    t := Wait(s, 0.5, p, key, w, 2.0 * w, p.limit - 1);
    t := OpenKey(t, p, key, w, 2.0 * w, p.limit - 1);
    t := Burst(t, p.limit - 1, p, 1, w + 0.5 + w, w, 2.0 * w, p.limit);
  }

  ghost predicate Peaks(run: seq<Event>, p: Policy, from: real) {
    AllowedBetween(After(run, p).log, from, from + p.window as real) == Max(0, 2 * p.limit - 1)
  }

  /**
   * The bound is met for every limit and every window: the end of one key's life and the beginning of
   * the next let `2 * limit - 1` requests through in one closed window.
   */
  lemma RedisBoundIsMet(p: Policy)
    ensures exists run, from :: Peaks(run, p, from)
  {
    var w := p.window as real;
    if 1 <= p.limit {
      var s := LateOnTheOldKey(p);
      s := EarlyOnTheNewKey(s, p);
      var run :| After(run, p) == s;
      assert Peaks(run, p, w);
    } else {
      assert After([], p) == INITIAL;
      assert Peaks([], p, w);
    }
  }
}
