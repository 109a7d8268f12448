/**
 * What fixed-window counting guarantees about sliding intervals.
 *
 * Both rate limiters count requests in windows that open on the first request
 * and are replaced only after they have lapsed. A log of counted requests that
 * obeys the conditions of `Chronicle` never holds more than `2 * cap - 1`
 * allowed requests in a closed interval as long as one window.
 */
module SlidingWindow {
  import opened Prelude

  /** A counted request: its instant, the window it fell into, its rank there and the verdict. */
  datatype Hit = Hit(time: real, epoch: nat, rank: nat, allowed: bool)

  /** How many requests of `log` were counted in window `epoch`. */
  function CountIn(log: seq<Hit>, epoch: nat): nat {
    if log == [] then 0
    else CountIn(log[..|log| - 1], epoch) + if log[|log| - 1].epoch == epoch then 1 else 0
  }

  /** How many requests of rank `rank` or more were allowed in window `epoch`. */
  function AllowedIn(log: seq<Hit>, epoch: nat, rank: nat): nat {
    if log == [] then 0
    else
      var h := log[|log| - 1];
      AllowedIn(log[..|log| - 1], epoch, rank) + if h.epoch == epoch && h.allowed && rank <= h.rank then 1 else 0
  }

  /** How many requests were allowed at an instant of the closed interval [from, to]. */
  function AllowedBetween(log: seq<Hit>, from: real, to: real): nat {
    if log == [] then 0
    else
      var h := log[|log| - 1];
      AllowedBetween(log[..|log| - 1], from, to) + if from <= h.time <= to && h.allowed then 1 else 0
  }

  /** Windows open more than `width` apart. */
  ghost predicate Spaced(starts: seq<real>, width: real) {
    forall i, j :: 0 <= i < j < |starts| ==> starts[i] + width < starts[j]
  }

  /** A request lies between the opening of its window and the next opening; the first one opens the window. */
  ghost predicate Placed(log: seq<Hit>, starts: seq<real>) {
    forall k :: 0 <= k < |log| ==>
      && log[k].epoch < |starts|
      && starts[log[k].epoch] <= log[k].time
      && (log[k].rank <= 1 ==> log[k].time == starts[log[k].epoch])
      && (log[k].epoch + 1 < |starts| ==> log[k].time < starts[log[k].epoch + 1])
  }

  /** The next request has the next rank in the same window, or is the first of the next window. */
  predicate Follows(h: Hit, next: Hit) {
    (next.epoch == h.epoch && next.rank == h.rank + 1) || (next.epoch == h.epoch + 1 && next.rank == 1)
  }

  /** Ranks count 1, 2, 3, ... inside each window, and windows come one after the other. */
  ghost predicate Ranked(log: seq<Hit>) {
    && (log != [] ==> log[0].epoch == 0 && log[0].rank == 1)
    && forall i, j :: 0 <= i && j == i + 1 < |log| ==> Follows(log[i], log[j])
  }

  /** No request of rank above `cap` is allowed. */
  ghost predicate Capped(log: seq<Hit>, cap: nat) {
    forall k :: 0 <= k < |log| ==> log[k].allowed ==> log[k].rank <= cap
  }

  ghost predicate Chronicle(log: seq<Hit>, starts: seq<real>, width: real, cap: nat) {
    Spaced(starts, width) && Placed(log, starts) && Ranked(log) && Capped(log, cap)
  }

  // ---- Keeping a chronicle -------------------------------------------------

  /** `h` can be counted next, in the newest window. */
  ghost predicate ComesNext(log: seq<Hit>, starts: seq<real>, cap: nat, h: Hit) {
    && h.epoch + 1 == |starts| && starts[h.epoch] <= h.time
    && (h.rank == 1 ==> h.time == starts[h.epoch])
    && (if log == [] then h.epoch == 0 && h.rank == 1 else Follows(log[|log| - 1], h))
    && (h.allowed ==> h.rank <= cap)
  }

  /** Counting one more request in the newest window keeps the chronicle. */
  lemma Append(log: seq<Hit>, starts: seq<real>, width: real, cap: nat, h: Hit)
    requires Chronicle(log, starts, width, cap) && ComesNext(log, starts, cap, h)
    ensures Chronicle(log + [h], starts, width, cap)
  {
  }

  /** Opening a new window after every earlier request, more than `width` after the last opening. */
  lemma Open(log: seq<Hit>, starts: seq<real>, width: real, cap: nat, at: real)
    requires Chronicle(log, starts, width, cap)
    requires 0.0 <= width && (starts != [] ==> starts[|starts| - 1] + width < at)
    requires forall k :: 0 <= k < |log| ==> log[k].time < at
    ensures Chronicle(log, starts + [at], width, cap)
  {
  }

  /** Changing one verdict keeps the chronicle as long as the cap is respected. */
  lemma Reverdict(log: seq<Hit>, starts: seq<real>, width: real, cap: nat, k: nat, allowed: bool)
    requires Chronicle(log, starts, width, cap)
    requires k < |log| && (allowed ==> log[k].rank <= cap)
    ensures Chronicle(log[k := log[k].(allowed := allowed)], starts, width, cap)
  {
  }

  // ---- The bound -----------------------------------------------------------

  lemma {:induction false} RisingEpochs(log: seq<Hit>, k: nat)
    requires Ranked(log) && k < |log|
    ensures 1 <= log[k].rank && log[k].epoch <= log[|log| - 1].epoch
    decreases |log|
  {
    if |log| > 1 {
      var front := log[..|log| - 1];
      assert front[|front| - 1] == log[|log| - 2];
      assert Follows(log[|log| - 2], log[|log| - 1]);
      RisingEpochs(front, if k < |front| then k else |front| - 1);
    }
  }

  /** The rank of a request is the number of requests its window had counted by then. */
  lemma {:induction false} RankIsCount(log: seq<Hit>)
    requires Ranked(log) && log != []
    ensures CountIn(log, log[|log| - 1].epoch) == log[|log| - 1].rank
    ensures forall e :: log[|log| - 1].epoch < e ==> CountIn(log, e) == 0
  {
    var front := log[..|log| - 1];
    if front != [] {
      RankIsCount(front);
      assert Follows(front[|front| - 1], log[|log| - 1]);
    }
  }

  /** What remains of `cap` for requests of rank `rank` or more once `last` is the newest request. */
  function Room(last: Hit, epoch: nat, cap: nat, rank: nat): int {
    if last.epoch < epoch then 0
    else if last.epoch == epoch then Max(0, Min(cap, last.rank) - rank + 1)
    else Max(0, cap - rank + 1)
  }

  /** One window allows at most `cap` requests, and at most `cap - 1` beyond the one that opened it. */
  lemma {:induction false} WindowCap(log: seq<Hit>, epoch: nat, cap: nat, rank: nat)
    requires Ranked(log) && Capped(log, cap) && 1 <= rank
    ensures AllowedIn(log, epoch, rank) <= Max(0, cap - rank + 1)
    ensures log != [] ==> AllowedIn(log, epoch, rank) <= Room(log[|log| - 1], epoch, cap, rank)
  {
    if log != [] {
      var front := log[..|log| - 1];
      WindowCap(front, epoch, cap, rank);
      if front != [] {
        assert Follows(front[|front| - 1], log[|log| - 1]);
      }
    }
  }

  /** Two requests no further apart than `width` are in the same window or in neighbouring ones. */
  lemma Neighbours(log: seq<Hit>, starts: seq<real>, width: real, k: nat, m: nat)
    requires 0.0 <= width && Spaced(starts, width) && Placed(log, starts)
    requires k < |log| && m < |log| && log[m].time <= log[k].time + width
    ensures log[m].epoch <= log[k].epoch + 1
    ensures log[m].epoch == log[k].epoch + 1 ==> 2 <= log[k].rank
  {
  }

  lemma {:induction false} TwoWindows(log: seq<Hit>, from: real, to: real, epoch: nat, rank: nat)
    requires forall k :: 0 <= k < |log| && from <= log[k].time <= to ==>
      (log[k].epoch == epoch && rank <= log[k].rank) || (log[k].epoch == epoch + 1 && 1 <= log[k].rank)
    ensures AllowedBetween(log, from, to) <= AllowedIn(log, epoch, rank) + AllowedIn(log, epoch + 1, 1)
  {
    if log != [] {
      TwoWindows(log[..|log| - 1], from, to, epoch, rank);
    }
  }

  lemma {:induction false} OneWindow(log: seq<Hit>, from: real, to: real, epoch: nat)
    requires forall k :: 0 <= k < |log| && from <= log[k].time <= to ==> log[k].epoch == epoch && 1 <= log[k].rank
    ensures AllowedBetween(log, from, to) <= AllowedIn(log, epoch, 1)
  {
    if log != [] {
      OneWindow(log[..|log| - 1], from, to, epoch);
    }
  }

  ghost predicate Within(log: seq<Hit>, k: int, from: real, to: real) {
    0 <= k < |log| && from <= log[k].time <= to
  }

  /** An interval that reaches into two windows misses the request that opened the first. */
  lemma Straddling(log: seq<Hit>, starts: seq<real>, width: real, cap: nat, from: real, k: nat, m: nat)
    requires 0.0 <= width && Chronicle(log, starts, width, cap)
    requires Within(log, k, from, from + width) && Within(log, m, from, from + width)
    requires log[k].epoch < log[m].epoch
    ensures AllowedBetween(log, from, from + width) <= Max(0, 2 * cap - 1)
  {
    var to := from + width;
    var epoch := log[k].epoch;
    Neighbours(log, starts, width, k, m);
    forall j | 0 <= j < |log| && from <= log[j].time <= to
      ensures (log[j].epoch == epoch && 2 <= log[j].rank) || (log[j].epoch == epoch + 1 && 1 <= log[j].rank)
    {
      Neighbours(log, starts, width, k, j);
      Neighbours(log, starts, width, j, m);
      RisingEpochs(log, j);
    }
    TwoWindows(log, from, to, epoch, 2);
    WindowCap(log, epoch, cap, 2);
    WindowCap(log, epoch + 1, cap, 1);
  }

  /** An interval whose requests all fall into one window. */
  lemma Contained(log: seq<Hit>, from: real, to: real, epoch: nat, cap: nat)
    requires Ranked(log) && Capped(log, cap)
    requires forall j :: Within(log, j, from, to) ==> log[j].epoch == epoch
    ensures AllowedBetween(log, from, to) <= cap
  {
    forall j | 0 <= j < |log| && from <= log[j].time <= to ensures log[j].epoch == epoch && 1 <= log[j].rank {
      assert Within(log, j, from, to);
      RisingEpochs(log, j);
    }
    OneWindow(log, from, to, epoch);
    WindowCap(log, epoch, cap, 1);
  }

  /** At a single instant at most `cap` requests are allowed: windows that open apart share none. */
  lemma InstantBound(log: seq<Hit>, starts: seq<real>, width: real, cap: nat, at: real)
    requires 0.0 <= width && Chronicle(log, starts, width, cap)
    ensures AllowedBetween(log, at, at) <= cap
  {
    if k :| Within(log, k, at, at) {
      forall j | Within(log, j, at, at) ensures log[j].epoch == log[k].epoch {
        SameInstantSameWindow(log, starts, width, j, k);
        SameInstantSameWindow(log, starts, width, k, j);
      }
      Contained(log, at, at, log[k].epoch, cap);
    } else {
      Contained(log, at, at, 0, cap);
    }
  }

  lemma SameInstantSameWindow(log: seq<Hit>, starts: seq<real>, width: real, k: nat, m: nat)
    requires 0.0 <= width && Spaced(starts, width) && Placed(log, starts)
    requires k < |log| && m < |log| && log[m].time == log[k].time
    ensures log[m].epoch <= log[k].epoch
  {
    if log[k].epoch < log[m].epoch {
      Neighbours(log, starts, width, k, m);
    }
  }

  /** The sliding bound: at most `2 * cap - 1` allowed requests in any closed interval of length `width`. */
  lemma SlidingBound(log: seq<Hit>, starts: seq<real>, width: real, cap: nat, from: real)
    requires 0.0 <= width && Chronicle(log, starts, width, cap)
    ensures AllowedBetween(log, from, from + width) <= Max(0, 2 * cap - 1)
  {
    var to := from + width;
    if k, m :| Within(log, k, from, to) && Within(log, m, from, to) && log[k].epoch < log[m].epoch {
      Straddling(log, starts, width, cap, from, k, m);
    } else if k :| Within(log, k, from, to) {
      Contained(log, from, to, log[k].epoch, cap);
    } else {
      Contained(log, from, to, 0, cap);
    }
  }
}
