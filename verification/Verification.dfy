/** Verification codes with lazy eviction (common/verification.go). */
module Verification {
  import opened Options

  datatype Entry = Entry(code: string, time: int)

  /** Keyed by purpose and key, one after the other. */
  type Codes = map<string, Entry>

  const MAX_SIZE := 10
  const SECOND := 1_000_000_000

  /** The whole seconds of a duration in nanoseconds: `int(d.Seconds())`. */
  function WholeSeconds(d: int): int {
    if d >= 0 then d / SECOND else -((-d) / SECOND)
  }

  /** A code lives for the given number of minutes, to the nanosecond.  (For a number that is not
      positive, durations of less than a second before `now` count as none.) */
  predicate Expired(e: Entry, validMinutes: int, now: int) {
    if validMinutes >= 1 then now - e.time >= validMinutes * 60_000_000_000
    else now - e.time > (validMinutes * 60 - 1) * 1_000_000_000
  }

  /** The comparison of whole seconds in the source is that to the nanosecond. */
  lemma WholeSecondsExpire(e: Entry, validMinutes: int, now: int)
    ensures WholeSeconds(now - e.time) >= validMinutes * 60 <==> Expired(e, validMinutes, now)
  {
    var d := now - e.time;
    var n := if d >= 0 then d else -d;
    assert n == (n / SECOND) * SECOND + n % SECOND && 0 <= n % SECOND < SECOND;
  }

  /** What `removeExpiredPairs` leaves. */
  function Swept(codes: Codes, validMinutes: int, now: int): Codes {
    map k | k in codes && !Expired(codes[k], validMinutes, now) :: codes[k]
  }

  function Registered(codes: Codes, k: string, code: string, validMinutes: int, now: int): Codes {
    var next := codes[k := Entry(code, now)];
    if |next| > MAX_SIZE then Swept(next, validMinutes, now) else next
  }

  predicate Verifies(codes: Codes, k: string, code: string, validMinutes: int, now: int) {
    k in codes && !Expired(codes[k], validMinutes, now) && codes[k].code == code
  }

  class VerificationMap {
    var codes: Codes
    const validMinutes: int

    constructor (validMinutes: int)
      ensures codes == map[] && this.validMinutes == validMinutes
    {
      codes := map[];
      this.validMinutes := validMinutes;
    }

    method Register(key: string, code: string, purpose: string, now: int)
      modifies this`codes
      ensures codes == Registered(old(codes), purpose + key, code, validMinutes, now)
    {
      codes := codes[purpose + key := Entry(code, now)];
      if |codes| > MAX_SIZE {
        RemoveExpiredPairs(now);
      }
    }

    method Verify(key: string, code: string, purpose: string, now: int) returns (ok: bool)
      ensures ok == Verifies(codes, purpose + key, code, validMinutes, now)
      ensures validMinutes >= 1 ==>
                (ok <==> && purpose + key in codes && codes[purpose + key].code == code
                         && now - codes[purpose + key].time < validMinutes * 60 * 1_000_000_000)
    {
      if purpose + key in codes { WholeSecondsExpire(codes[purpose + key], validMinutes, now); }
      if purpose + key !in codes || WholeSeconds(now - codes[purpose + key].time) >= validMinutes * 60 {
        return false;
      }
      return code == codes[purpose + key].code;
    }

    method DeleteKey(key: string, purpose: string)
      modifies this`codes
      ensures codes == old(codes) - {purpose + key}
      ensures forall code, t :: !Verifies(codes, purpose + key, code, validMinutes, t)
      ensures forall k, code, t | k != purpose + key ::
                Verifies(codes, k, code, validMinutes, t) == Verifies(old(codes), k, code, validMinutes, t)
    {
      codes := codes - {purpose + key};
    }

    method RemoveExpiredPairs(now: int)
      modifies this`codes
      ensures codes == Swept(old(codes), validMinutes, now)
      ensures validMinutes >= 1 ==>
                forall k :: k in codes <==>
                  k in old(codes) && now - old(codes)[k].time < validMinutes * 60 * 1_000_000_000
    {
      var todo := codes.Keys;
      while todo != {}
        invariant todo <= codes.Keys <= old(codes).Keys
        invariant forall k | k in codes :: codes[k] == old(codes)[k]
        invariant forall k | k in old(codes) && k !in todo :: k in codes <==> !Expired(old(codes)[k], validMinutes, now)
      {
        var k :| k in todo;
        todo := todo - {k};
        WholeSecondsExpire(codes[k], validMinutes, now);
        if WholeSeconds(now - codes[k].time) >= validMinutes * 60 {
          codes := codes - {k};
        }
      }
    }
  }

  // ---------- Runs ----------

  /** The three purposes, and the letters that stand for them. */
  datatype Purpose = EmailVerification | EmailLogin | PasswordReset

  function Letter(p: Purpose): string {
    match p
    case EmailVerification => "v"
    case EmailLogin => "l"
    case PasswordReset => "r"
  }

  datatype Event =
    | Register(purpose: Purpose, key: string, code: string, now: int)
    | Verify(purpose: Purpose, key: string, code: string, now: int)
    | Delete(purpose: Purpose, key: string, now: int)

  datatype Run = Run(codes: Codes, answers: seq<bool>)

  function Step(valid: int, r: Run, e: Event): Run {
    var k := Letter(e.purpose) + e.key;
    match e
    case Register(_, _, code, now) => r.(codes := Registered(r.codes, k, code, valid, now))
    case Verify(_, _, code, now) => r.(answers := r.answers + [Verifies(r.codes, k, code, valid, now)])
    case Delete(_, _, now) => r.(codes := r.codes - {k})
  }

  function Exec(valid: int, events: seq<Event>): Run {
    if events == [] then Run(map[], []) else Step(valid, Exec(valid, events[..|events| - 1]), events[|events| - 1])
  }

  // ---------- A map that never evicts, with purpose and key kept apart ----------

  /** Less than the valid minutes have passed. */
  predicate Lives(time: int, valid: int, now: int) {
    if valid >= 1 then now - time < valid * 60 * 1_000_000_000 else now - time <= (valid * 60 - 1) * 1_000_000_000
  }

  datatype FullRun = FullRun(codes: map<(Purpose, string), Entry>, answers: seq<bool>)

  function FullStep(valid: int, r: FullRun, e: Event): FullRun {
    var k := (e.purpose, e.key);
    match e
    case Register(_, _, code, now) => r.(codes := r.codes[k := Entry(code, now)])
    case Verify(_, _, code, now) =>
      r.(answers := r.answers + [k in r.codes && Lives(r.codes[k].time, valid, now) && r.codes[k].code == code])
    case Delete(_, _, now) => r.(codes := r.codes - {k})
  }

  function FullExec(valid: int, events: seq<Event>): FullRun {
    if events == [] then FullRun(map[], [])
    else FullStep(valid, FullExec(valid, events[..|events| - 1]), events[|events| - 1])
  }

  ghost predicate Monotone(events: seq<Event>) {
    forall i, j | 0 <= i < j < |events| :: events[i].now <= events[j].now
  }

  /** Entries of different purposes or keys never share a slot. */
  lemma NoCollision(p: Purpose, k: string, q: Purpose, l: string)
    requires Letter(p) + k == Letter(q) + l
    ensures p == q && k == l
  {
    assert (Letter(p) + k)[0] == Letter(p)[0] && (Letter(q) + l)[0] == Letter(q)[0];
    assert (Letter(p) + k)[1..] == k && (Letter(q) + l)[1..] == l;
  }

  lemma ExpiredStays(e: Entry, valid: int, now: int, later: int)
    requires Expired(e, valid, now) && now <= later
    ensures Expired(e, valid, later)
  {
  }

  /** The map holds what the full one does, except for some entries that have expired. */
  ghost predicate Tracks(codes: Codes, full: map<(Purpose, string), Entry>, valid: int, now: int) {
    forall p, k ::
      if Letter(p) + k in codes then (p, k) in full && full[(p, k)] == codes[Letter(p) + k]
      else (p, k) in full ==> Expired(full[(p, k)], valid, now)
  }

  lemma StepTracks(valid: int, r: Run, f: FullRun, e: Event)
    requires Tracks(r.codes, f.codes, valid, e.now) && r.answers == f.answers
    ensures Tracks(Step(valid, r, e).codes, FullStep(valid, f, e).codes, valid, e.now)
    ensures Step(valid, r, e).answers == FullStep(valid, f, e).answers
  {
    var r', f' := Step(valid, r, e), FullStep(valid, f, e);
    forall p, k
      ensures if Letter(p) + k in r'.codes then (p, k) in f'.codes && f'.codes[(p, k)] == r'.codes[Letter(p) + k]
              else (p, k) in f'.codes ==> Expired(f'.codes[(p, k)], valid, e.now)
    {
      if Letter(p) + k == Letter(e.purpose) + e.key { NoCollision(p, k, e.purpose, e.key); }
      assert Letter(p) + k in r.codes ==> (p, k) in f.codes;
    }
  }

  lemma TracksLater(codes: Codes, full: map<(Purpose, string), Entry>, valid: int, now: int, later: int)
    requires Tracks(codes, full, valid, now) && now <= later
    ensures Tracks(codes, full, valid, later)
  {
    forall p, k | Letter(p) + k !in codes && (p, k) in full ensures Expired(full[(p, k)], valid, later) {
      ExpiredStays(full[(p, k)], valid, now, later);
    }
  }

  lemma {:induction false} RunTracks(valid: int, events: seq<Event>, now: int)
    requires Monotone(events) && (events != [] ==> events[|events| - 1].now <= now)
    ensures Tracks(Exec(valid, events).codes, FullExec(valid, events).codes, valid, now)
    ensures Exec(valid, events).answers == FullExec(valid, events).answers
  {
    if events == [] {
    } else {
      var prefix, last := events[..|events| - 1], events[|events| - 1];
      RunTracks(valid, prefix, last.now);
      StepTracks(valid, Exec(valid, prefix), FullExec(valid, prefix), last);
      TracksLater(Exec(valid, events).codes, FullExec(valid, events).codes, valid, last.now, now);
    }
  }

  lemma SweptAt(codes: Codes, validMinutes: int, now: int, k: string)
    ensures Lookup(Swept(codes, validMinutes, now), k) ==
            if k in codes && Lives(codes[k].time, validMinutes, now) then Some(codes[k]) else None
  {
  }

  /** The map grows up to ten entries; beyond that a registration drops the expired ones. */
  lemma RegisteredExactly(codes: Codes, k: string, code: string, validMinutes: int, now: int, other: string)
    ensures |codes.Keys + {k}| <= 10 ==> Registered(codes, k, code, validMinutes, now) == codes[k := Entry(code, now)]
    ensures |codes.Keys + {k}| > 10 ==>
              var stored := codes[k := Entry(code, now)];
              Lookup(Registered(codes, k, code, validMinutes, now), other) ==
              if other in stored && Lives(stored[other].time, validMinutes, now) then Some(stored[other]) else None
  {
    assert codes[k := Entry(code, now)].Keys == codes.Keys + {k};
    SweptAt(codes[k := Entry(code, now)], validMinutes, now, other);
  }

  /** Over every run with a clock that never goes backwards, every verification is answered as by a
      map that never evicts and keeps the purposes apart. */
  lemma EvictionIsInvisible(valid: int, events: seq<Event>)
    requires Monotone(events)
    ensures Exec(valid, events).answers == FullExec(valid, events).answers
  {
    RunTracks(valid, events, if events == [] then 0 else events[|events| - 1].now);
  }
}
