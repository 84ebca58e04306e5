/** The in-memory rate limiter of common/rate-limit.go. */
module RateLimit {

  type Store = map<string, seq<int>>

  ghost predicate NoEmptyQueue(store: Store) {
    forall key | key in store :: store[key] != []
  }

  /** What `Request` does to the store, and its answer (lines 45-70).  A negative limit, for which
      the source panics when it makes a queue, is outside this model. */
  function Requested(store: Store, key: string, limit: nat, duration: int, now: int): (Store, bool)
    requires key in store ==> store[key] != []
  {
    if key in store then
      var queue := store[key];
      if |queue| < limit then (store[key := queue + [now]], true)
      else if now - queue[0] >= duration then (store[key := queue[1..] + [now]], true)
      else (store, false)
    else (store[key := [now]], true)
  }

  predicate Expired(queue: seq<int>, expiration: int, now: int) {
    queue == [] || now - queue[|queue| - 1] > expiration
  }

  /** What one pass of `clearExpiredItems` leaves (lines 31-40). */
  function Cleared(store: Store, expiration: int, now: int): Store {
    map key | key in store && !Expired(store[key], expiration, now) :: store[key]
  }

  /** `InMemoryRateLimiter`; times are in seconds. */
  class InMemoryRateLimiter {
    var store: Store
    const expiration: int

    ghost predicate Valid()
      reads this
    {
      NoEmptyQueue(store)
    }

    constructor (expiration: int)
      ensures Valid() && store == map[] && this.expiration == expiration
    {
      this.expiration := expiration;
      store := map[];
    }

    method Request(key: string, limit: nat, duration: int, now: int) returns (accepted: bool)
      requires Valid()
      modifies this`store
      ensures Valid()
      ensures (store, accepted) == Requested(old(store), key, limit, duration, now)
    {
      if key in store {
        var queue := store[key];
        if |queue| < limit {
          store := store[key := queue + [now]];
          return true;
        } else {
          if now - queue[0] >= duration {
            queue := queue[1..];
            store := store[key := queue + [now]];
            return true;
          } else {
            return false;
          }
        }
      } else {
        store := store[key := []];
        assert store[key] + [now] == [now];
        store := store[key := store[key] + [now]];
        assert store == old(store)[key := [now]];
      }
      return true;
    }

    /** One pass of the cleanup goroutine; the map is visited in any order. */
    method ClearExpiredItems(now: int)
      requires Valid()
      modifies this`store
      ensures Valid()
      ensures store == Cleared(old(store), expiration, now)
    {
      var todo := store.Keys;
      while todo != {}
        invariant todo <= store.Keys <= old(store).Keys
        invariant forall key | key in store :: store[key] == old(store)[key]
        invariant forall key | key in old(store) && key !in todo ::
                    key in store <==> !Expired(old(store)[key], expiration, now)
      {
        var key :| key in todo;
        todo := todo - {key};
        var queue := store[key];
        var size := |queue|;
        if size == 0 || now - queue[size - 1] > expiration {
          store := store - {key};
        }
      }
    }
  }

  // ---------- Runs ----------

  datatype Limit = Limit(count: nat, duration: int)

  datatype Event = Request(key: string, now: int) | Cleanup(now: int)

  datatype Run = Run(store: Store, answers: seq<bool>)

  function Step(limits: string -> Limit, expiration: int, run: Run, event: Event): (r: Run)
    requires NoEmptyQueue(run.store)
    ensures NoEmptyQueue(r.store)
  {
    match event
    case Cleanup(now) => Run(Cleared(run.store, expiration, now), run.answers)
    case Request(key, now) =>
      var (store, ok) := Requested(run.store, key, limits(key).count, limits(key).duration, now);
      Run(store, run.answers + [ok])
  }

  /** The limiter after a sequence of events; `limits` gives the fixed limit of every key. */
  function Exec(limits: string -> Limit, expiration: int, events: seq<Event>): (r: Run)
    ensures NoEmptyQueue(r.store)
  {
    if events == [] then Run(map[], [])
    else Step(limits, expiration, Exec(limits, expiration, events[..|events| - 1]), events[|events| - 1])
  }

  // ---------- The limiter it should be ----------

  /** How many of the times lie within the last `duration` seconds. */
  function Recent(times: seq<int>, duration: int, now: int): nat {
    if times == [] then 0
    else Recent(times[..|times| - 1], duration, now) + (if now - times[|times| - 1] < duration then 1 else 0)
  }

  function Logged(log: map<string, seq<int>>, key: string): seq<int> {
    if key in log then log[key] else []
  }

  datatype LogRun = LogRun(log: map<string, seq<int>>, answers: seq<bool>)

  /** A limiter that forgets nothing: it keeps the time of every request it ever accepted, and
      accepts exactly if fewer than the limit are recent. */
  function LogStep(limits: string -> Limit, run: LogRun, event: Event): LogRun {
    match event
    case Cleanup(now) => run
    case Request(key, now) =>
      var times := Logged(run.log, key);
      if Recent(times, limits(key).duration, now) < limits(key).count then
        LogRun(run.log[key := times + [now]], run.answers + [true])
      else LogRun(run.log, run.answers + [false])
  }

  function LogExec(limits: string -> Limit, events: seq<Event>): LogRun {
    if events == [] then LogRun(map[], [])
    else LogStep(limits, LogExec(limits, events[..|events| - 1]), events[|events| - 1])
  }

  /** The clock never goes backwards. */
  ghost predicate Monotone(events: seq<Event>) {
    forall i, j | 0 <= i < j < |events| :: events[i].now <= events[j].now
  }
}

module RateLimitProofs {
  import opened RateLimit

  ghost predicate Sorted(times: seq<int>) {
    forall i, j | 0 <= i < j < |times| :: times[i] <= times[j]
  }

  ghost predicate NotAfter(times: seq<int>, now: int) {
    forall i | 0 <= i < |times| :: times[i] <= now
  }

  // ---------- Counting recent times in a sorted log ----------

  lemma {:induction false} RecentNone(times: seq<int>, duration: int, now: int)
    requires forall i | 0 <= i < |times| :: now - times[i] >= duration
    ensures Recent(times, duration, now) == 0
  {
    if times == [] {
    } else {
      RecentNone(times[..|times| - 1], duration, now);
    }
  }

  lemma {:induction false} RecentAtMost(times: seq<int>, cut: nat, duration: int, now: int)
    requires cut <= |times| && forall i | 0 <= i < cut :: now - times[i] >= duration
    ensures Recent(times, duration, now) <= |times| - cut
  {
    if cut == |times| {
      RecentNone(times, duration, now);
    } else {
      RecentAtMost(times[..|times| - 1], cut, duration, now);
    }
  }

  lemma {:induction false} RecentAtLeast(times: seq<int>, cut: nat, duration: int, now: int)
    requires cut <= |times| && forall i | cut <= i < |times| :: now - times[i] < duration
    ensures Recent(times, duration, now) >= |times| - cut
  {
    if cut < |times| {
      RecentAtLeast(times[..|times| - 1], cut, duration, now);
    }
  }

  // ---------- The queue of a key against its log ----------

  /** The queue is the end of the log; either it is full, or what is missing from it is no longer
      recent. */
  ghost predicate Tracks(queue: seq<int>, log: seq<int>, limit: Limit, now: int) {
    && |queue| <= limit.count && |queue| <= |log|
    && queue == log[|log| - |queue|..]
    && Sorted(log) && NotAfter(log, now)
    && (|queue| == limit.count || forall i | 0 <= i < |log| - |queue| :: now - log[i] >= limit.duration)
  }

  ghost predicate AgreeAt(store: Store, log: map<string, seq<int>>, limits: string -> Limit, now: int, key: string) {
    Tracks(Logged(store, key), Logged(log, key), limits(key), now)
  }

  ghost predicate Agree(store: Store, log: map<string, seq<int>>, limits: string -> Limit, now: int) {
    forall key :: AgreeAt(store, log, limits, now, key)
  }

  /** The decision, in the words of the unbounded log. */
  lemma Decision(store: Store, key: string, log: seq<int>, limit: Limit, now: int)
    requires NoEmptyQueue(store)
    requires limit.count >= 1 && Tracks(Logged(store, key), log, limit, now)
    ensures Requested(store, key, limit.count, limit.duration, now).1
       <==> Recent(log, limit.duration, now) < limit.count
  {
    var queue := Logged(store, key);
    var cut := |log| - |queue|;
    if |queue| < limit.count {
      RecentAtMost(log, cut, limit.duration, now);
    } else if now - queue[0] >= limit.duration {
      assert queue[0] == log[cut];
      RecentAtMost(log, cut + 1, limit.duration, now);
    } else {
      assert queue[0] == log[cut];
      RecentAtLeast(log, cut, limit.duration, now);
    }
  }

  lemma TracksLater(queue: seq<int>, log: seq<int>, limit: Limit, now: int, later: int)
    requires Tracks(queue, log, limit, now) && now <= later
    ensures Tracks(queue, log, limit, later)
  {
  }

  lemma RequestTracks(store: Store, key: string, log: seq<int>, limit: Limit, now: int)
    requires NoEmptyQueue(store)
    requires limit.count >= 1 && Tracks(Logged(store, key), log, limit, now)
    ensures var (store', ok) := Requested(store, key, limit.count, limit.duration, now);
            Tracks(Logged(store', key), if ok then log + [now] else log, limit, now)
  {
    var queue := Logged(store, key);
    var cut := |log| - |queue|;
    var (store', ok) := Requested(store, key, limit.count, limit.duration, now);
    if ok {
      var queue' := Logged(store', key);
      var log' := log + [now];
      assert queue' == log'[|log'| - |queue'|..];
    }
  }

  lemma CleanupTracks(store: Store, key: string, log: seq<int>, limit: Limit, expiration: int, now: int)
    requires NoEmptyQueue(store)
    requires limit.duration <= expiration + 1 && limit.count >= 0 && Tracks(Logged(store, key), log, limit, now)
    ensures Tracks(Logged(Cleared(store, expiration, now), key), log, limit, now)
  {
    if key in store && Expired(store[key], expiration, now) {
      assert store[key][|store[key]| - 1] == log[|log| - 1];
    }
  }

  // ---------- Every run ----------

  predicate Sufficient(limit: Limit, expiration: int) {
    limit.count >= 1 && limit.duration <= expiration + 1
  }

  ghost predicate Adequate(limits: string -> Limit, expiration: int) {
    forall key :: Sufficient(limits(key), expiration)
  }

  lemma OtherKeyAgrees(limits: string -> Limit, store: Store, log: map<string, seq<int>>, key: string, now: int,
                       other: string)
    requires NoEmptyQueue(store) && other != key && AgreeAt(store, log, limits, now, other)
    ensures var (store', ok) := Requested(store, key, limits(key).count, limits(key).duration, now);
            AgreeAt(store', if ok then log[key := Logged(log, key) + [now]] else log, limits, now, other)
  {
    var (store', ok) := Requested(store, key, limits(key).count, limits(key).duration, now);
    assert Logged(store', other) == Logged(store, other);
  }

  lemma ThisKeyAgrees(limits: string -> Limit, store: Store, log: map<string, seq<int>>, key: string, now: int)
    requires NoEmptyQueue(store) && limits(key).count >= 1 && AgreeAt(store, log, limits, now, key)
    ensures var (store', ok) := Requested(store, key, limits(key).count, limits(key).duration, now);
            && (ok <==> Recent(Logged(log, key), limits(key).duration, now) < limits(key).count)
            && AgreeAt(store', if ok then log[key := Logged(log, key) + [now]] else log, limits, now, key)
  {
    Decision(store, key, Logged(log, key), limits(key), now);
    RequestTracks(store, key, Logged(log, key), limits(key), now);
  }

  lemma RequestAgrees(limits: string -> Limit, store: Store, log: map<string, seq<int>>, key: string, now: int)
    requires NoEmptyQueue(store) && limits(key).count >= 1 && Agree(store, log, limits, now)
    ensures var (store', ok) := Requested(store, key, limits(key).count, limits(key).duration, now);
            && (ok <==> Recent(Logged(log, key), limits(key).duration, now) < limits(key).count)
            && Agree(store', if ok then log[key := Logged(log, key) + [now]] else log, limits, now)
  {
    var (store', ok) := Requested(store, key, limits(key).count, limits(key).duration, now);
    var log' := if ok then log[key := Logged(log, key) + [now]] else log;
    ThisKeyAgrees(limits, store, log, key, now);
    forall other ensures AgreeAt(store', log', limits, now, other) {
      assert AgreeAt(store, log, limits, now, other);
      if other != key { OtherKeyAgrees(limits, store, log, key, now, other); }
    }
  }

  lemma CleanedKeyAgrees(limits: string -> Limit, expiration: int, store: Store, log: map<string, seq<int>>, now: int,
                         key: string)
    requires NoEmptyQueue(store) && Sufficient(limits(key), expiration) && AgreeAt(store, log, limits, now, key)
    ensures AgreeAt(Cleared(store, expiration, now), log, limits, now, key)
  {
    CleanupTracks(store, key, Logged(log, key), limits(key), expiration, now);
  }

  lemma CleanupAgrees(limits: string -> Limit, expiration: int, store: Store, log: map<string, seq<int>>, now: int)
    requires NoEmptyQueue(store) && Adequate(limits, expiration) && Agree(store, log, limits, now)
    ensures Agree(Cleared(store, expiration, now), log, limits, now)
  {
    forall key ensures AgreeAt(Cleared(store, expiration, now), log, limits, now, key) {
      assert AgreeAt(store, log, limits, now, key);
      CleanedKeyAgrees(limits, expiration, store, log, now, key);
    }
  }

  lemma StepAgrees(limits: string -> Limit, expiration: int, s: Run, l: LogRun, event: Event)
    requires NoEmptyQueue(s.store) && Adequate(limits, expiration)
    requires Agree(s.store, l.log, limits, event.now) && s.answers == l.answers
    ensures Agree(Step(limits, expiration, s, event).store, LogStep(limits, l, event).log, limits, event.now)
    ensures Step(limits, expiration, s, event).answers == LogStep(limits, l, event).answers
  {
    match event
    case Cleanup(now) => CleanupAgrees(limits, expiration, s.store, l.log, now);
    case Request(key, now) => RequestAgrees(limits, s.store, l.log, key, now);
  }

  lemma AgreeLater(store: Store, log: map<string, seq<int>>, limits: string -> Limit, now: int, later: int)
    requires Agree(store, log, limits, now) && now <= later
    ensures Agree(store, log, limits, later)
  {
    forall key ensures AgreeAt(store, log, limits, later, key) {
      assert AgreeAt(store, log, limits, now, key);
      TracksLater(Logged(store, key), Logged(log, key), limits(key), now, later);
    }
  }

  lemma {:induction false} RunAgrees(limits: string -> Limit, expiration: int, events: seq<Event>, now: int)
    requires Adequate(limits, expiration) && Monotone(events)
    requires events != [] ==> events[|events| - 1].now <= now
    ensures Agree(Exec(limits, expiration, events).store, LogExec(limits, events).log, limits, now)
    ensures Exec(limits, expiration, events).answers == LogExec(limits, events).answers
  {
    if events == [] {
    } else {
      var prefix, last := events[..|events| - 1], events[|events| - 1];
      RunAgrees(limits, expiration, prefix, last.now);
      StepAgrees(limits, expiration, Exec(limits, expiration, prefix), LogExec(limits, prefix), last);
      AgreeLater(Exec(limits, expiration, events).store, LogExec(limits, events).log, limits, last.now, now);
    }
  }

  /** Over every run of requests and cleanups the limiter answers exactly like the one that
      forgets nothing. */
  lemma ForgetsNothingThatMatters(limits: string -> Limit, expiration: int, events: seq<Event>)
    requires Adequate(limits, expiration) && Monotone(events)
    ensures Exec(limits, expiration, events).answers == LogExec(limits, events).answers
  {
    if events != [] {
      RunAgrees(limits, expiration, events, events[|events| - 1].now);
    }
  }

  // ---------- Consequences ----------

  function WithoutCleanups(events: seq<Event>): seq<Event> {
    if events == [] then []
    else WithoutCleanups(events[..|events| - 1])
         + (if events[|events| - 1].Request? then [events[|events| - 1]] else [])
  }

  lemma {:induction false} CleanupsDoNotLog(limits: string -> Limit, events: seq<Event>)
    ensures LogExec(limits, WithoutCleanups(events)) == LogExec(limits, events)
  {
    if events == [] {
    } else {
      var prefix, last := events[..|events| - 1], events[|events| - 1];
      CleanupsDoNotLog(limits, prefix);
      if last.Request? {
        ExecExtend(limits, 0, WithoutCleanups(prefix), last);
      } else {
        assert WithoutCleanups(events) == WithoutCleanups(prefix);
      }
    }
  }

  lemma {:induction false} StillMonotone(events: seq<Event>, now: int)
    requires Monotone(events) && (events != [] ==> events[|events| - 1].now <= now)
    ensures Monotone(WithoutCleanups(events))
    ensures forall i | 0 <= i < |WithoutCleanups(events)| :: WithoutCleanups(events)[i].now <= now
  {
    if events == [] {
    } else {
      StillMonotone(events[..|events| - 1], events[|events| - 1].now);
    }
  }

  /** Cleanup is invisible: a run answers as it would have without its cleanups. */
  lemma CleanupIsInvisible(limits: string -> Limit, expiration: int, events: seq<Event>)
    requires Adequate(limits, expiration) && Monotone(events)
    ensures Exec(limits, expiration, events).answers == Exec(limits, expiration, WithoutCleanups(events)).answers
  {
    CleanupsDoNotLog(limits, events);
    StillMonotone(events, if events == [] then 0 else events[|events| - 1].now);
    ForgetsNothingThatMatters(limits, expiration, events);
    ForgetsNothingThatMatters(limits, expiration, WithoutCleanups(events));
  }

  /** The times at which the limiter accepted a request for `key`. */
  function Accepted(limits: string -> Limit, expiration: int, events: seq<Event>, key: string): seq<int> {
    if events == [] then []
    else
      var last := events[|events| - 1];
      var answers := Exec(limits, expiration, events).answers;
      Accepted(limits, expiration, events[..|events| - 1], key)
      + (if last.Request? && last.key == key && answers != [] && answers[|answers| - 1] then [last.now] else [])
  }

  lemma {:induction false} AcceptedIsLogged(limits: string -> Limit, expiration: int, events: seq<Event>, key: string)
    requires Adequate(limits, expiration) && Monotone(events)
    ensures Accepted(limits, expiration, events, key) == Logged(LogExec(limits, events).log, key)
  {
    if events == [] {
    } else {
      AcceptedIsLogged(limits, expiration, events[..|events| - 1], key);
      ForgetsNothingThatMatters(limits, expiration, events);
    }
  }

  /** Accepted requests that are `count` apart in the log are `duration` apart in time. */
  ghost predicate Spaced(times: seq<int>, limit: Limit) {
    forall i, j | 0 <= i <= j < |times| && i + limit.count <= j :: times[j] - times[i] >= limit.duration
  }

  ghost predicate LogOk(times: seq<int>, limit: Limit, now: int) {
    Sorted(times) && NotAfter(times, now) && Spaced(times, limit)
  }

  lemma LastIsApart(times: seq<int>, limit: Limit, now: int, i: nat)
    requires i < |times| && i + limit.count <= |times| && Sorted(times)
             && Recent(times, limit.duration, now) < limit.count
    ensures now - times[i] >= limit.duration
  {
    if now - times[i] < limit.duration {
      RecentAtLeast(times, i, limit.duration, now);
    }
  }

  lemma AppendSpaced(times: seq<int>, limit: Limit, now: int)
    requires LogOk(times, limit, now) && Recent(times, limit.duration, now) < limit.count
    ensures LogOk(times + [now], limit, now)
  {
    var longer := times + [now];
    forall i, j | 0 <= i <= j < |longer| && i + limit.count <= j ensures longer[j] - longer[i] >= limit.duration {
      if j < |times| {
        assert longer[j] == times[j] && longer[i] == times[i];
      } else if i < |times| {
        LastIsApart(times, limit, now, i);
      }
    }
  }

  lemma {:induction false} LogIsSpaced(limits: string -> Limit, events: seq<Event>, key: string, now: int)
    requires Monotone(events) && (events != [] ==> events[|events| - 1].now <= now)
    ensures LogOk(Logged(LogExec(limits, events).log, key), limits(key), now)
  {
    if events == [] {
    } else {
      var prefix, last := events[..|events| - 1], events[|events| - 1];
      LogIsSpaced(limits, prefix, key, last.now);
      var times := Logged(LogExec(limits, prefix).log, key);
      if last.Request? && last.key == key && Recent(times, limits(key).duration, last.now) < limits(key).count {
        AppendSpaced(times, limits(key), last.now);
      }
    }
  }

  function Between(times: seq<int>, from: int, to: int): nat {
    if times == [] then 0
    else Between(times[..|times| - 1], from, to) + (if from <= times[|times| - 1] < to then 1 else 0)
  }

  lemma {:induction false} BetweenAtMost(times: seq<int>, cut: nat, from: int, to: int)
    requires cut <= |times| && forall i | 0 <= i < cut :: times[i] < from
    ensures Between(times, from, to) <= |times| - cut
  {
    if times == [] {
    } else {
      var prefix := times[..|times| - 1];
      BetweenAtMost(prefix, if cut == |times| then cut - 1 else cut, from, to);
    }
  }

  lemma {:induction false} SpacedBetween(times: seq<int>, limit: Limit, from: int)
    requires limit.count >= 0 && Sorted(times) && Spaced(times, limit)
    ensures Between(times, from, from + limit.duration) <= limit.count
  {
    if times == [] {
    } else {
      var n := |times|;
      if from <= times[n - 1] < from + limit.duration {
        BetweenAtMost(times, if n <= limit.count then 0 else n - limit.count, from, from + limit.duration);
      } else {
        SpacedBetween(times[..n - 1], limit, from);
      }
    }
  }

  lemma AcceptedIsSpaced(limits: string -> Limit, expiration: int, events: seq<Event>, key: string, now: int)
    requires Adequate(limits, expiration) && Monotone(events) && (events != [] ==> events[|events| - 1].now <= now)
    ensures LogOk(Accepted(limits, expiration, events, key), limits(key), now)
  {
    AcceptedIsLogged(limits, expiration, events, key);
    LogIsSpaced(limits, events, key, now);
  }

  lemma LogWindow(times: seq<int>, limit: Limit, now: int, from: int)
    requires limit.count >= 0 && LogOk(times, limit, now)
    ensures Between(times, from, from + limit.duration) <= limit.count
  {
    SpacedBetween(times, limit, from);
  }

  /** The promise of the limiter: whatever the run, no half-open window of `duration` seconds holds
      more than `count` accepted requests of a key. */
  lemma NoWindowHoldsMore(limits: string -> Limit, expiration: int, events: seq<Event>, key: string, from: int)
    requires Adequate(limits, expiration) && Monotone(events)
    ensures Between(Accepted(limits, expiration, events, key), from, from + limits(key).duration) <= limits(key).count
  {
    assert Sufficient(limits(key), expiration);
    var now := if events == [] then 0 else events[|events| - 1].now;
    AcceptedIsSpaced(limits, expiration, events, key, now);
    var times := Accepted(limits, expiration, events, key);
    LogWindow(times, limits(key), now, from);
  }

  // ---------- Exactly which limits and expirations are adequate ----------

  function Fill(key: string, m: nat): seq<Event> {
    if m == 0 then [] else Fill(key, m - 1) + [Request(key, 0)]
  }

  function Zeros(m: nat): seq<int> {
    seq(m, _ => 0)
  }

  lemma ExecExtend(limits: string -> Limit, expiration: int, events: seq<Event>, last: Event)
    ensures Exec(limits, expiration, events + [last])
       == Step(limits, expiration, Exec(limits, expiration, events), last)
    ensures LogExec(limits, events + [last]) == LogStep(limits, LogExec(limits, events), last)
  {
    assert (events + [last])[..|events|] == events;
  }

  /** `m` requests at time 0 are in the queue, and in the log. */
  ghost predicate Filled(r: Run, l: LogRun, key: string, m: nat) {
    Logged(r.store, key) == Zeros(m) && Logged(l.log, key) == Zeros(m) && r.answers == l.answers
  }

  ghost predicate FilledBy(limits: string -> Limit, expiration: int, events: seq<Event>, key: string, m: nat) {
    Filled(Exec(limits, expiration, events), LogExec(limits, events), key, m)
  }

  lemma FillStep(limits: string -> Limit, expiration: int, key: string, r: Run, l: LogRun, m: nat)
    requires NoEmptyQueue(r.store) && m < limits(key).count && Filled(r, l, key, m)
    ensures Filled(Step(limits, expiration, r, Request(key, 0)), LogStep(limits, l, Request(key, 0)), key, m + 1)
  {
    RecentAtMost(Zeros(m), 0, limits(key).duration, 0);
    assert Zeros(m) + [0] == Zeros(m + 1);
  }

  lemma {:induction false} FillRun(limits: string -> Limit, expiration: int, key: string, m: nat)
    requires m <= limits(key).count
    ensures FilledBy(limits, expiration, Fill(key, m), key, m)
  {
    if m == 0 {
      assert Zeros(0) == [];
    } else {
      var before := Fill(key, m - 1);
      FillRun(limits, expiration, key, m - 1);
      FillMore(limits, expiration, key, before, m - 1);
      assert Fill(key, m) == before + [Request(key, 0)];
    }
  }

  lemma FillMore(limits: string -> Limit, expiration: int, key: string, events: seq<Event>, m: nat)
    requires m < limits(key).count && FilledBy(limits, expiration, events, key, m)
    ensures FilledBy(limits, expiration, events + [Request(key, 0)], key, m + 1)
  {
    ExecExtend(limits, expiration, events, Request(key, 0));
    FillStep(limits, expiration, key, Exec(limits, expiration, events), LogExec(limits, events), m);
  }

  lemma {:induction false} FillTimes(key: string, m: nat)
    ensures forall i | 0 <= i < |Fill(key, m)| :: Fill(key, m)[i].now == 0
  {
    if m == 0 {
    } else {
      FillTimes(key, m - 1);
    }
  }

  /** A full queue is dropped at `expiration + 1`, when its requests are still recent. */
  lemma DroppedTooEarly(limits: string -> Limit, expiration: nat, key: string, r: Run, l: LogRun)
    requires NoEmptyQueue(r.store) && limits(key).count >= 1 && limits(key).duration > expiration + 1
    requires Filled(r, l, key, limits(key).count)
    ensures var t := expiration + 1;
            var r', l' := Step(limits, expiration, r, Cleanup(t)), LogStep(limits, l, Cleanup(t));
            Step(limits, expiration, r', Request(key, t)).answers != LogStep(limits, l', Request(key, t)).answers
  {
    var m, t := limits(key).count, expiration + 1;
    assert Zeros(m)[m - 1] == 0;
    assert key !in Cleared(r.store, expiration, t);
    RecentAtLeast(Zeros(m), 0, limits(key).duration, t);
    assert (r.answers + [true])[|r.answers|] != (l.answers + [false])[|r.answers|];
  }

  ghost predicate AnswersDiffer(limits: string -> Limit, expiration: int, events: seq<Event>) {
    Exec(limits, expiration, events).answers != LogExec(limits, events).answers
  }

  lemma FilledThenDropped(limits: string -> Limit, expiration: nat, key: string, filled: seq<Event>)
    requires limits(key).count >= 1 && limits(key).duration > expiration + 1
    requires FilledBy(limits, expiration, filled, key, limits(key).count)
    ensures AnswersDiffer(limits, expiration, filled + [Cleanup(expiration + 1)] + [Request(key, expiration + 1)])
  {
    var t := expiration + 1;
    ExecExtend(limits, expiration, filled, Cleanup(t));
    ExecExtend(limits, expiration, filled + [Cleanup(t)], Request(key, t));
    DroppedTooEarly(limits, expiration, key, Exec(limits, expiration, filled), LogExec(limits, filled));
  }

  /** A key whose window outlasts the expiration by more than a second: fill its queue, let the
      cleanup drop it, and the next request is accepted one too many times. */
  lemma ShortExpirationFails(limits: string -> Limit, expiration: nat, key: string)
    requires expiration >= 1 && limits(key).count >= 1 && limits(key).duration > expiration + 1
    ensures var events := Fill(key, limits(key).count) + [Cleanup(expiration + 1)] + [Request(key, expiration + 1)];
            Monotone(events) && AnswersDiffer(limits, expiration, events)
  {
    var filled := Fill(key, limits(key).count);
    FillRun(limits, expiration, key, limits(key).count);
    FilledThenDropped(limits, expiration, key, filled);
    FillTimes(key, limits(key).count);
  }

  /** The limiter answers like the one that forgets nothing, over all runs, if and only if every
      limit is at least one and no window outlasts the expiration by more than one second.
      (Without a positive expiration no cleanup is started.) */
  lemma AdequateIsExact(limits: string -> Limit, expiration: nat)
    requires expiration >= 1
    ensures Adequate(limits, expiration)
       <==> forall events | Monotone(events) ::
            Exec(limits, expiration, events).answers == LogExec(limits, events).answers
  {
    if Adequate(limits, expiration) {
      forall events | Monotone(events)
        ensures Exec(limits, expiration, events).answers == LogExec(limits, events).answers
      {
        ForgetsNothingThatMatters(limits, expiration, events);
      }
    } else {
      var key :| !Sufficient(limits(key), expiration);
      if limits(key).count < 1 {
        var events := [Request(key, 0)];
        assert events[..0] == [] && LogExec(limits, []) == LogRun(map[], [])
               && Exec(limits, expiration, []) == Run(map[], []);
        assert Logged(map[], key) == [];
        assert Exec(limits, expiration, events).answers == [true] && LogExec(limits, events).answers == [false];
        assert Monotone(events);
      } else {
        ShortExpirationFails(limits, expiration, key);
      }
    }
  }
}
