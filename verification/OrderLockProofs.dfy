module OrderLockProofs {
  import opened OrderLock

  // ---------- Counting ----------

  lemma {:induction false} CountUpdate(ts: seq<Pc>, i: nat, pc: Pc, role: Role, o: nat)
    requires i < |ts|
    ensures Count(ts[i := pc], role, o)
         == Count(ts, role, o) - (if Plays(ts[i], role, o) then 1 else 0) + (if Plays(pc, role, o) then 1 else 0)
  {
    if i == 0 {
      assert ts[i := pc][1..] == ts[1..];
    } else {
      assert ts[i := pc][1..] == ts[1..][i - 1 := pc];
      CountUpdate(ts[1..], i - 1, pc, role, o);
    }
  }

  lemma {:induction false} CountAtLeast(ts: seq<Pc>, i: nat, role: Role, o: nat)
    requires i < |ts| && Plays(ts[i], role, o)
    ensures Count(ts, role, o) >= 1
  {
    CountUpdate(ts, i, Idle, role, o);
  }

  lemma {:induction false} CountTwo(ts: seq<Pc>, i: nat, j: nat, role: Role, o: nat)
    requires i < |ts| && j < |ts| && i != j && Plays(ts[i], role, o) && Plays(ts[j], role, o)
    ensures Count(ts, role, o) >= 2
  {
    CountUpdate(ts, i, Idle, role, o);
    CountAtLeast(ts[i := Idle], j, role, o);
  }

  lemma {:induction false} CountWitness(ts: seq<Pc>, role: Role, o: nat) returns (i: nat)
    requires Count(ts, role, o) >= 1
    ensures i < |ts| && Plays(ts[i], role, o)
  {
    if Plays(ts[0], role, o) {
      i := 0;
    } else {
      var j := CountWitness(ts[1..], role, o);
      i := j + 1;
    }
  }

  lemma {:induction false} CountIdle(ts: seq<Pc>, role: Role, o: nat)
    requires forall i | 0 <= i < |ts| :: !Plays(ts[i], role, o)
    ensures Count(ts, role, o) == 0
  {
    if Count(ts, role, o) >= 1 {
      var i := CountWitness(ts, role, o);
    }
  }

  // ---------- One step keeps the invariant ----------

  lemma InitInv(n: nat)
    ensures Inv(Init(n))
  {
  }

  /** Only thread `i` moves. */
  lemma StepFrame(s: State, i: nat, arrive: TradeNo)
    requires i < |s.threads| && ObjsInRange(s) && Step(s, i, arrive).Ran?
    ensures |Step(s, i, arrive).state.threads| == |s.threads|
    ensures Step(s, i, arrive).state.threads == s.threads[i := Step(s, i, arrive).state.threads[i]]
  {
  }

  function Weight(pc: Pc, role: Role, o: nat): int {
    if Plays(pc, role, o) then 1 else 0
  }

  /** What a step does to a mutex is what it does to the roles of the thread that moves. */
  lemma StepMutex(s: State, i: nat, arrive: TradeNo, o: nat)
    requires i < |s.threads| && MapInv(s) && Step(s, i, arrive).Ran? && o < |s.objs|
    ensures var s' := Step(s, i, arrive).state;
            var pc, pc' := s.threads[i], s'.threads[i];
            && |s'.objs| >= |s.objs|
            && s'.objs[o].refCount == s.objs[o].refCount - Weight(pc, Registered, o) + Weight(pc', Registered, o)
  {
  }

  lemma StepHolder(s: State, i: nat, arrive: TradeNo, o: nat)
    requires i < |s.threads| && MapInv(s) && Step(s, i, arrive).Ran? && o < |s.objs|
    ensures var s' := Step(s, i, arrive).state;
            var pc, pc' := s.threads[i], s'.threads[i];
            && |s'.objs| >= |s.objs|
            && (if s'.objs[o].locked then 1 else 0)
               == (if s.objs[o].locked then 1 else 0) - Weight(pc, Holding, o) + Weight(pc', Holding, o)
  {
  }

  lemma StepNewMutex(s: State, i: nat, arrive: TradeNo)
    requires i < |s.threads| && MapInv(s) && Step(s, i, arrive).Ran? && |Step(s, i, arrive).state.objs| > |s.objs|
    ensures var s' := Step(s, i, arrive).state;
            && |s'.objs| == |s.objs| + 1 && s'.objs[|s.objs|] == RefMutex(false, 0)
            && (forall role | role in {Registered, Holding} ::
                  Weight(s'.threads[i], role, |s.objs|) == 0 && Weight(s.threads[i], role, |s.objs|) == 0)
  {
  }

  lemma StepCounts(s: State, i: nat, arrive: TradeNo, o: nat)
    requires i < |s.threads| && Inv(s) && Step(s, i, arrive).Ran? && o < |Step(s, i, arrive).state.objs|
    ensures var s' := Step(s, i, arrive).state;
            && s'.objs[o].refCount == Count(s'.threads, Registered, o)
            && Count(s'.threads, Holding, o) == (if s'.objs[o].locked then 1 else 0)
  {
    var s' := Step(s, i, arrive).state;
    StepFrame(s, i, arrive);
    CountUpdate(s.threads, i, s'.threads[i], Registered, o);
    CountUpdate(s.threads, i, s'.threads[i], Holding, o);
    if o < |s.objs| {
      StepMutex(s, i, arrive, o);
      StepHolder(s, i, arrive, o);
    } else {
      StepNewMutex(s, i, arrive);
      CountIdle(s.threads, Registered, o);
      CountIdle(s.threads, Holding, o);
    }
  }

  lemma CreateKept(s: State, s': State, i: nat, pc: Pc)
    requires i < |s.threads| && CreateInv(s) && s'.threads == s.threads[i := pc]
    requires s'.create == s.create ==> Guards(pc) == Guards(s.threads[i])
    requires s'.create && !s.create ==> Guards(pc)
    requires !s'.create && s.create ==> Guards(s.threads[i]) && !Guards(pc)
    ensures CreateInv(s')
  {
    if s'.create && s.create {
      var j :| 0 <= j < |s.threads| && Guards(s.threads[j]);
      assert Guards(s'.threads[j]);
    } else if s'.create {
      assert Guards(s'.threads[i]);
    }
  }

  lemma StepCreate(s: State, i: nat, arrive: TradeNo)
    requires i < |s.threads| && ObjsInRange(s) && CreateInv(s) && Step(s, i, arrive).Ran?
    ensures CreateInv(Step(s, i, arrive).state)
  {
    var s' := Step(s, i, arrive).state;
    assert Guards(s.threads[i]) ==> s.create;
    CreateKept(s, s', i, s'.threads[i]);
  }

  /** The only entry ever deleted has no user left: a thread still referring to it would either
      be counted, or hold `createLock` at the same time as the deleting thread. */
  lemma DeleteUnused(s: State, i: nat, j: nat)
    requires i < |s.threads| && j < |s.threads| && i != j && Inv(s)
    requires s.threads[i].Deleting? && s.objs[s.threads[i].obj].refCount == 0
    requires HasObj(s.threads[j])
    ensures s.threads[j].no != s.threads[i].no
  {
    if s.threads[j].no == s.threads[i].no {
      assert s.threads[j].obj == s.threads[i].obj;
      if Plays(s.threads[j], Registered, s.threads[j].obj) {
        CountAtLeast(s.threads, j, Registered, s.threads[j].obj);
      }
    }
  }

  /** A thread that stands still keeps referring to the entry of its number. */
  lemma OtherThreadMap(s: State, i: nat, arrive: TradeNo, j: nat)
    requires i < |s.threads| && j < |s.threads| && i != j && Inv(s) && Step(s, i, arrive).Ran?
    ensures var s' := Step(s, i, arrive).state;
            && (HasObj(s.threads[j]) ==> s.threads[j].no in s'.locks && s'.locks[s.threads[j].no] == s.threads[j].obj)
            && (s.threads[j].Storing? ==> s.threads[j].no !in s'.locks)
  {
    if s.threads[i].Deleting? && s.objs[s.threads[i].obj].refCount == 0 && HasObj(s.threads[j]) {
      DeleteUnused(s, i, j);
    }
    assert !(Guards(s.threads[i]) && Guards(s.threads[j]));
  }

  lemma MovedThreadMap(s: State, i: nat, arrive: TradeNo)
    requires i < |s.threads| && MapInv(s) && Step(s, i, arrive).Ran?
    ensures var s' := Step(s, i, arrive).state;
            var pc := s'.threads[i];
            && (HasObj(pc) ==> pc.no in s'.locks && s'.locks[pc.no] == pc.obj)
            && (pc.Storing? ==> pc.no !in s'.locks)
  {
  }

  /** The map and the heap change only when a mutex is stored or an entry deleted. */
  lemma StepLocks(s: State, i: nat, arrive: TradeNo)
    requires i < |s.threads| && ObjsInRange(s) && Step(s, i, arrive).Ran?
    ensures var s', pc := Step(s, i, arrive).state, s.threads[i];
            && |s'.objs| == |s.objs| + (if pc.Storing? then 1 else 0)
            && s'.locks == (if pc.Storing? then s.locks[pc.no := |s.objs|]
                            else if pc.Deleting? && s.objs[pc.obj].refCount == 0 then s.locks - {pc.no} else s.locks)
  {
  }

  lemma LocksKept(s: State, s': State, no: TradeNo)
    requires MapInv(s) && |s'.objs| >= |s.objs|
    requires s'.locks == s.locks || s'.locks == s.locks - {no}
             || (|s'.objs| > |s.objs| && s'.locks == s.locks[no := |s.objs|])
    ensures forall no | no in s'.locks :: s'.locks[no] < |s'.objs|
    ensures forall a, b | a in s'.locks && b in s'.locks :: s'.locks[a] == s'.locks[b] ==> a == b
  {
  }

  lemma StepMap(s: State, i: nat, arrive: TradeNo)
    requires i < |s.threads| && Inv(s) && Step(s, i, arrive).Ran?
    ensures MapInv(Step(s, i, arrive).state)
  {
    var s' := Step(s, i, arrive).state;
    StepFrame(s, i, arrive);
    MovedThreadMap(s, i, arrive);
    StepLocks(s, i, arrive);
    LocksKept(s, s', if s.threads[i].Idle? then "" else s.threads[i].no);
    forall j | 0 <= j < |s'.threads|
      ensures HasObj(s'.threads[j]) ==> s'.threads[j].no in s'.locks && s'.locks[s'.threads[j].no] == s'.threads[j].obj
      ensures s'.threads[j].Storing? ==> s'.threads[j].no !in s'.locks
      ensures HasObj(s'.threads[j]) ==> s'.threads[j].obj < |s'.objs|
    {
      if j != i { OtherThreadMap(s, i, arrive, j); }
    }
  }

  lemma EntryLives(s: State, i: nat, arrive: TradeNo, no: TradeNo)
    requires i < |s.threads| && Inv(s) && Step(s, i, arrive).Ran?
    requires MapInv(Step(s, i, arrive).state) && no in Step(s, i, arrive).state.locks
    ensures var s' := Step(s, i, arrive).state;
            s'.objs[s'.locks[no]].refCount > 0 || Transient(s'.threads[i], no)
            || exists j :: 0 <= j < |s.threads| && j != i && Transient(s.threads[j], no)
  {
    var s' := Step(s, i, arrive).state;
    StepLocks(s, i, arrive);
    if no in s.locks && s'.locks[no] == s.locks[no] {
      var o := s.locks[no];
      StepMutex(s, i, arrive, o);
      if s.objs[o].refCount > 0 {
        assert s'.objs[o].refCount > 0 || Transient(s'.threads[i], no);
      } else {
        var j :| 0 <= j < |s.threads| && Transient(s.threads[j], no);
        CountIdleOrMore(s, i, o);
      }
    }
  }

  lemma CountIdleOrMore(s: State, i: nat, o: nat)
    requires i < |s.threads| && CountInv(s) && o < |s.objs| && s.objs[o].refCount <= 0
    ensures Weight(s.threads[i], Registered, o) == 0
  {
    if Plays(s.threads[i], Registered, o) { CountAtLeast(s.threads, i, Registered, o); }
  }

  lemma StepLive(s: State, i: nat, arrive: TradeNo)
    requires i < |s.threads| && Inv(s) && Step(s, i, arrive).Ran?
    requires MapInv(Step(s, i, arrive).state)
    ensures LiveInv(Step(s, i, arrive).state)
  {
    var s' := Step(s, i, arrive).state;
    StepFrame(s, i, arrive);
    forall no | no in s'.locks
      ensures s'.objs[s'.locks[no]].refCount > 0
           || exists j :: 0 <= j < |s'.threads| && Transient(s'.threads[j], no)
    {
      EntryLives(s, i, arrive, no);
      if j :| 0 <= j < |s.threads| && j != i && Transient(s.threads[j], no) {
        assert s'.threads[j] == s.threads[j];
      }
    }
  }

  lemma StepInv(s: State, i: nat, arrive: TradeNo)
    requires i < |s.threads| && Inv(s) && Step(s, i, arrive).Ran?
    ensures Inv(Step(s, i, arrive).state)
  {
    StepCreate(s, i, arrive);
    forall o | 0 <= o < |Step(s, i, arrive).state.objs| {
      StepCounts(s, i, arrive, o);
    }
    StepMap(s, i, arrive);
    StepLive(s, i, arrive);
  }

  /** A thread that unlocks unlocks a mutex that is locked. */
  lemma StepNotFatal(s: State, i: nat, arrive: TradeNo)
    requires i < |s.threads| && Inv(s)
    ensures !Step(s, i, arrive).Fatal?
  {
    if s.threads[i].Releasing? {
      CountAtLeast(s.threads, i, Holding, s.threads[i].obj);
    }
  }

  // ---------- Runs ----------

  /** Which thread moves next, and with which trade number it arrives if it is idle. */
  datatype Choice = Choice(thread: nat, arrive: TradeNo)

  datatype Verdict = Alive(state: State) | Aborted

  /** Choosing a blocked or absent thread changes nothing. */
  function Next(v: Verdict, c: Choice): Verdict {
    if v.Alive? && c.thread < |v.state.threads| && ObjsInRange(v.state) then
      match Step(v.state, c.thread, c.arrive)
      case Ran(s') => Alive(s')
      case Blocked => v
      case Fatal => Aborted
    else v
  }

  /** The state after a schedule, starting with `n` idle threads. */
  function Exec(n: nat, schedule: seq<Choice>): Verdict {
    if schedule == [] then Alive(Init(n))
    else Next(Exec(n, schedule[..|schedule| - 1]), schedule[|schedule| - 1])
  }

  predicate Good(v: Verdict, n: nat) {
    v.Alive? && Inv(v.state) && |v.state.threads| == n
  }

  lemma NextGood(v: Verdict, n: nat, c: Choice)
    requires Good(v, n)
    ensures Good(Next(v, c), n)
  {
    if c.thread < n {
      StepNotFatal(v.state, c.thread, c.arrive);
      if Step(v.state, c.thread, c.arrive).Ran? {
        StepFrame(v.state, c.thread, c.arrive);
        StepInv(v.state, c.thread, c.arrive);
      }
    }
  }

  /** In every interleaving of any number of threads the process never aborts and the invariant
      holds. */
  lemma {:induction false} ExecInv(n: nat, schedule: seq<Choice>)
    ensures Good(Exec(n, schedule), n)
  {
    if schedule == [] {
      InitInv(n);
    } else {
      ExecInv(n, schedule[..|schedule| - 1]);
      NextGood(Exec(n, schedule[..|schedule| - 1]), n, schedule[|schedule| - 1]);
    }
  }

  // ---------- What the lock promises ----------

  /** Between the return of `LockOrder(no)` and the call of `UnlockOrder(no)`'s `mu.Unlock()`. */
  predicate InCritical(pc: Pc, no: TradeNo) {
    (pc.Inside? || pc.Reloading? || pc.Releasing?) && pc.no == no
  }

  lemma ExclusiveInInv(s: State, i: nat, j: nat, no: TradeNo)
    requires Inv(s) && i < |s.threads| && j < |s.threads|
    requires InCritical(s.threads[i], no) && InCritical(s.threads[j], no)
    ensures i == j
  {
    if i != j {
      CountTwo(s.threads, i, j, Holding, s.locks[no]);
    }
  }

  /** Mutual exclusion: in every interleaving, at most one thread is inside the critical section
      of a trade number. */
  lemma MutualExclusion(n: nat, schedule: seq<Choice>, i: nat, j: nat, no: TradeNo)
    requires Exec(n, schedule).Alive? && i < |Exec(n, schedule).state.threads| && j < |Exec(n, schedule).state.threads|
    requires InCritical(Exec(n, schedule).state.threads[i], no) && InCritical(Exec(n, schedule).state.threads[j], no)
    ensures i == j
  {
    ExecInv(n, schedule);
    ExclusiveInInv(Exec(n, schedule).state, i, j, no);
  }

  /** All threads registered for a number use one mutex object, the one in the map, and that
      object's count is the number of those threads: also after the entry was deleted and
      created anew. */
  lemma OneMutexPerNumber(n: nat, schedule: seq<Choice>, i: nat, j: nat)
    requires var v := Exec(n, schedule);
             v.Alive? && i < |v.state.threads| && j < |v.state.threads|
             && HasObj(v.state.threads[i]) && HasObj(v.state.threads[j])
             && v.state.threads[i].no == v.state.threads[j].no
    ensures var s := Exec(n, schedule).state;
            && s.threads[i].obj == s.threads[j].obj
            && s.threads[i].obj < |s.objs|
            && s.objs[s.threads[i].obj].refCount == Count(s.threads, Registered, s.threads[i].obj)
  {
    ExecInv(n, schedule);
  }

  /** The lookup in `UnlockOrder` always finds the mutex that `LockOrder` acquired, and that
      mutex is locked; so its "not found" return is never taken. */
  lemma UnlockFindsItsMutex(n: nat, schedule: seq<Choice>, i: nat)
    requires var v := Exec(n, schedule); v.Alive? && i < |v.state.threads| && v.state.threads[i].Reloading?
    ensures var s := Exec(n, schedule).state;
            var pc := s.threads[i];
            && pc.no in s.locks && s.locks[pc.no] == pc.obj && pc.obj < |s.objs| && s.objs[pc.obj].locked
  {
    ExecInv(n, schedule);
    var s := Exec(n, schedule).state;
    CountAtLeast(s.threads, i, Holding, s.threads[i].obj);
  }

  predicate AllIdle(s: State) {
    forall i | 0 <= i < |s.threads| :: s.threads[i].Idle?
  }

  /** Nothing leaks: when no thread is active the map is empty and every mutex is free. */
  lemma NothingLeaks(n: nat, schedule: seq<Choice>)
    requires Exec(n, schedule).Alive? && AllIdle(Exec(n, schedule).state)
    ensures var s := Exec(n, schedule).state;
            s.locks == map[] && !s.create && forall o | 0 <= o < |s.objs| :: s.objs[o] == RefMutex(false, 0)
  {
    ExecInv(n, schedule);
    var s := Exec(n, schedule).state;
    forall o | 0 <= o < |s.objs| ensures s.objs[o] == RefMutex(false, 0) {
      CountIdle(s.threads, Registered, o);
      CountIdle(s.threads, Holding, o);
    }
    forall no ensures no !in s.locks {
    }
    var none: map<TradeNo, nat> := map[];
    assert forall no :: no in s.locks <==> no in none;
  }

  // ---------- No deadlock ----------

  /** Statements a thread has still to run before it is idle. */
  function Remaining(pc: Pc): nat {
    match pc
    case Idle => 0 case Closing(_) => 1 case Deleting(_, _) => 2 case Discounting(_, _) => 3
    case Returning(_, _) => 4 case Releasing(_, _) => 5 case Reloading(_, _) => 6 case Inside(_, _) => 7
    case Waiting(_, _) => 8 case Departing(_, _) => 9 case Counting(_, _) => 10 case Storing(_) => 11
    case Looking(_) => 12 case Arriving(_) => 13
  }

  function Work(ts: seq<Pc>): nat {
    if ts == [] then 0 else Remaining(ts[0]) + Work(ts[1..])
  }

  lemma {:induction false} WorkUpdate(ts: seq<Pc>, i: nat, pc: Pc)
    requires i < |ts|
    ensures Work(ts[i := pc]) == Work(ts) - Remaining(ts[i]) + Remaining(pc)
  {
    if i == 0 {
      assert ts[i := pc][1..] == ts[1..];
    } else {
      assert ts[i := pc][1..] == ts[1..][i - 1 := pc];
      WorkUpdate(ts[1..], i - 1, pc);
    }
  }

  /** While some thread is active, some active thread can run: the holder of `createLock` if it
      is held, else the holder of the mutex being waited for, else the thread itself. */
  lemma SomeoneRuns(s: State, k: nat) returns (i: nat)
    requires Inv(s) && k < |s.threads| && !s.threads[k].Idle?
    ensures i < |s.threads| && !s.threads[i].Idle? && Step(s, i, "").Ran?
  {
    if s.create {
      i :| 0 <= i < |s.threads| && Guards(s.threads[i]);
    } else if s.threads[k].Waiting? && s.objs[s.threads[k].obj].locked {
      i := CountWitness(s.threads, Holding, s.threads[k].obj);
      StepNotFatal(s, i, "");
    } else {
      i := k;
      StepNotFatal(s, i, "");
    }
  }

  lemma StepAdvances(s: State, i: nat)
    requires ObjsInRange(s) && i < |s.threads| && !s.threads[i].Idle? && Step(s, i, "").Ran?
    ensures Remaining(Step(s, i, "").state.threads[i]) < Remaining(s.threads[i])
  {
  }

  lemma StepWorks(s: State, i: nat)
    requires ObjsInRange(s) && i < |s.threads| && !s.threads[i].Idle? && Step(s, i, "").Ran?
    ensures Work(Step(s, i, "").state.threads) < Work(s.threads)
  {
    StepFrame(s, i, "");
    StepAdvances(s, i);
    WorkUpdate(s.threads, i, Step(s, i, "").state.threads[i]);
  }

  /** The chosen thread is inside one of the two functions or between them, so nobody arrives. */
  predicate ChoosesActive(v: Verdict, c: Choice) {
    v.Alive? && c.thread < |v.state.threads| && !v.state.threads[c.thread].Idle?
  }

  function WorkLeft(v: Verdict): nat {
    if v.Alive? then Work(v.state.threads) else 0
  }

  /** If a thread is active, one of the active threads can run, and less work is left. */
  lemma OneMoreStep(n: nat, schedule: seq<Choice>) returns (c: Choice)
    requires Exec(n, schedule).Alive? && !AllIdle(Exec(n, schedule).state)
    ensures ChoosesActive(Exec(n, schedule), c)
    ensures WorkLeft(Exec(n, schedule + [c])) < WorkLeft(Exec(n, schedule))
  {
    ExecInv(n, schedule);
    var s := Exec(n, schedule).state;
    var k :| 0 <= k < |s.threads| && !s.threads[k].Idle?;
    var i := SomeoneRuns(s, k);
    StepWorks(s, i);
    c := Choice(i, "");
    assert (schedule + [c])[..|schedule|] == schedule;
  }

  /** From every reachable state the active threads can all finish, without help from new ones:
      the schedule can be continued to a state in which every thread is idle. */
  lemma {:induction false} EveryoneFinishes(n: nat, schedule: seq<Choice>) returns (more: seq<Choice>)
    ensures schedule <= more
    ensures Exec(n, more).Alive? && AllIdle(Exec(n, more).state)
    ensures forall k | |schedule| <= k < |more| :: ChoosesActive(Exec(n, more[..k]), more[k])
    decreases WorkLeft(Exec(n, schedule))
  {
    ExecInv(n, schedule);
    if AllIdle(Exec(n, schedule).state) {
      more := schedule;
    } else {
      var c := OneMoreStep(n, schedule);
      more := EveryoneFinishes(n, schedule + [c]);
      assert more[..|schedule|] == schedule && more[|schedule|] == c;
    }
  }

  /** The chosen thread can run. */
  predicate Effective(v: Verdict, c: Choice) {
    && v.Alive? && c.thread < |v.state.threads| && ObjsInRange(v.state)
    && Step(v.state, c.thread, c.arrive).Ran?
  }

  /** How many of the choices that follow `schedule` let a thread run. */
  function EffectiveSteps(n: nat, schedule: seq<Choice>, more: seq<Choice>): nat {
    if more == [] then 0
    else
      var before := more[..|more| - 1];
      EffectiveSteps(n, schedule, before) + if Effective(Exec(n, schedule + before), more[|more| - 1]) then 1 else 0
  }

  /** No idle thread is chosen, so that nobody arrives. */
  predicate NoArrivals(n: nat, schedule: seq<Choice>, more: seq<Choice>) {
    more == [] ||
    var before := more[..|more| - 1];
    && NoArrivals(n, schedule, before)
    && (Effective(Exec(n, schedule + before), more[|more| - 1]) ==>
       ChoosesActive(Exec(n, schedule + before), more[|more| - 1]))
  }

  lemma ActiveStepWorks(v: Verdict, c: Choice)
    requires v.Alive? && Inv(v.state) && Effective(v, c) && ChoosesActive(v, c)
    ensures Next(v, c).Alive? && WorkLeft(Next(v, c)) < WorkLeft(v)
  {
    assert Step(v.state, c.thread, c.arrive) == Step(v.state, c.thread, "");
    StepWorks(v.state, c.thread);
  }

  /** However the active threads are scheduled, as long as nobody arrives: at most as many choices let a
      thread run as there is work left.  So every schedule that keeps choosing threads that can run
      reaches a state in which all are idle. */
  lemma {:induction false} WorkIsBounded(n: nat, schedule: seq<Choice>, more: seq<Choice>)
    requires NoArrivals(n, schedule, more)
    ensures WorkLeft(Exec(n, schedule + more)) + EffectiveSteps(n, schedule, more) <= WorkLeft(Exec(n, schedule))
  {
    if more == [] {
      assert schedule + more == schedule;
    } else {
      var before, c := more[..|more| - 1], more[|more| - 1];
      WorkIsBounded(n, schedule, before);
      ExecInv(n, schedule + before);
      assert (schedule + more)[..|schedule + more| - 1] == schedule + before;
      var v := Exec(n, schedule + before);
      if Effective(v, c) {
        ActiveStepWorks(v, c);
      } else {
        StepNotFatalOrAbsent(v, c);
      }
    }
  }

  lemma StepNotFatalOrAbsent(v: Verdict, c: Choice)
    requires v.Alive? && Inv(v.state) && !Effective(v, c)
    ensures Next(v, c) == v
  {
    if c.thread < |v.state.threads| { StepNotFatal(v.state, c.thread, c.arrive); }
  }

  /** If no choice can let an active thread run, none is active. */
  lemma StuckMeansIdle(n: nat, schedule: seq<Choice>)
    requires forall c | ChoosesActive(Exec(n, schedule), c) :: !Effective(Exec(n, schedule), c)
    ensures Exec(n, schedule).Alive? && AllIdle(Exec(n, schedule).state)
  {
    ExecInv(n, schedule);
    var v := Exec(n, schedule);
    if !AllIdle(v.state) {
      var k :| 0 <= k < |v.state.threads| && !v.state.threads[k].Idle?;
      var i := SomeoneRuns(v.state, k);
      assert ChoosesActive(v, Choice(i, "")) && Effective(v, Choice(i, ""));
      assert false;
    }
  }
}
