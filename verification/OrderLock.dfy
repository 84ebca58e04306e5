/** The reference-counted order lock of controller/topup.go (lines 268-308), as a transition system.

    `LockOrder(no)` and `UnlockOrder(no)` build one mutex per trade number out of a shared
    concurrent map (`orderLocks`), one global mutex (`createLock`) and a reference count.
    Each value of `Pc` names the statement a thread is about to run; `Step` runs that one
    statement.  A schedule says which thread moves next, so quantifying over schedules
    quantifies over all interleavings, for any number of threads.

    The map lookup in `UnlockOrder` is not protected by `createLock`, and it does not remember
    which mutex `LockOrder` acquired; that it nevertheless finds that same mutex is the point
    of the proofs in OrderLockProofs.dfy. */
module OrderLock {

  type TradeNo = string

  /** A `refCountedMutex` object on the heap; objects are named by their position in `objs`. */
  datatype RefMutex = RefMutex(locked: bool, refCount: int)

  /** The next statement of a thread.  The field `obj` is the local variable `rcm`; in `Inside`
      and `Reloading` it is a history variable, which no step there reads. */
  datatype Pc =
    | Idle
    | Arriving(no: TradeNo)               // 280: createLock.Lock()
    | Looking(no: TradeNo)                // 282: orderLocks.Load
    | Storing(no: TradeNo)                // 285-286: allocate, orderLocks.Store
    | Counting(no: TradeNo, obj: nat)     // 288: rcm.refCount++
    | Departing(no: TradeNo, obj: nat)    // 289: createLock.Unlock()
    | Waiting(no: TradeNo, obj: nat)      // 290: rcm.mu.Lock()
    | Inside(no: TradeNo, obj: nat)       // the critical section
    | Reloading(no: TradeNo, obj: nat)    // 295: orderLocks.Load
    | Releasing(no: TradeNo, obj: nat)    // 300: rcm.mu.Unlock()
    | Returning(no: TradeNo, obj: nat)    // 302: createLock.Lock()
    | Discounting(no: TradeNo, obj: nat)  // 303: rcm.refCount--
    | Deleting(no: TradeNo, obj: nat)     // 304-306: delete the entry at zero
    | Closing(no: TradeNo)                // 307: createLock.Unlock()

  datatype State = State(
    locks: map<TradeNo, nat>,   // orderLocks
    objs: seq<RefMutex>,        // every refCountedMutex ever allocated
    create: bool,               // createLock is held
    threads: seq<Pc>)

  /** One step of one thread either runs, blocks on a mutex, or aborts the process, which is
      what Go does when a mutex that is not locked is unlocked. */
  datatype Outcome = Ran(state: State) | Blocked | Fatal

  function Init(n: nat): State {
    State(map[], [], false, seq(n, _ => Idle))
  }

  predicate ObjsInRange(s: State) {
    forall i | 0 <= i < |s.threads| :: HasObj(s.threads[i]) ==> s.threads[i].obj < |s.objs|
  }

  predicate HasObj(pc: Pc) {
    !pc.Idle? && !pc.Arriving? && !pc.Looking? && !pc.Storing? && !pc.Closing?
  }

  /** Lines 280, 290 and 302 wait for a mutex. */
  predicate Blocks(s: State, pc: Pc)
    requires HasObj(pc) ==> pc.obj < |s.objs|
  {
    match pc
    case Arriving(_) => s.create
    case Returning(_, _) => s.create
    case Waiting(_, o) => s.objs[o].locked
    case _ => false
  }

  /** The next statement.  In line 295 the entry may be missing: then UnlockOrder returns, leaving
      the mutex locked and the count too high. */
  function PcAfter(s: State, pc: Pc, arrive: TradeNo): Pc {
    match pc
    case Idle => Arriving(arrive)
    case Arriving(no) => Looking(no)
    case Looking(no) => if no in s.locks then Counting(no, s.locks[no]) else Storing(no)
    case Storing(no) => Counting(no, |s.objs|)
    case Counting(no, o) => Departing(no, o)
    case Departing(no, o) => Waiting(no, o)
    case Waiting(no, o) => Inside(no, o)
    case Inside(no, o) => Reloading(no, o)
    case Reloading(no, _) => if no in s.locks then Releasing(no, s.locks[no]) else Idle
    case Releasing(no, o) => Returning(no, o)
    case Returning(no, o) => Discounting(no, o)
    case Discounting(no, o) => Deleting(no, o)
    case Deleting(no, _) => Closing(no)
    case Closing(_) => Idle
  }

  function ObjsAfter(objs: seq<RefMutex>, pc: Pc): seq<RefMutex>
    requires HasObj(pc) ==> pc.obj < |objs|
  {
    match pc
    case Storing(_) => objs + [RefMutex(false, 0)]
    case Counting(_, o) => objs[o := objs[o].(refCount := objs[o].refCount + 1)]
    case Waiting(_, o) => objs[o := objs[o].(locked := true)]
    case Releasing(_, o) => objs[o := objs[o].(locked := false)]
    case Discounting(_, o) => objs[o := objs[o].(refCount := objs[o].refCount - 1)]
    case _ => objs
  }

  function LocksAfter(s: State, pc: Pc): map<TradeNo, nat>
    requires HasObj(pc) ==> pc.obj < |s.objs|
  {
    match pc
    case Storing(no) => s.locks[no := |s.objs|]
    case Deleting(no, o) => if s.objs[o].refCount == 0 then s.locks - {no} else s.locks
    case _ => s.locks
  }

  function CreateAfter(create: bool, pc: Pc): bool {
    match pc
    case Arriving(_) => true
    case Returning(_, _) => true
    case Departing(_, _) => false
    case Closing(_) => false
    case _ => create
  }

  /** The statement that thread `i` is at, run atomically; `arrive` is the trade number with
      which an idle thread calls `LockOrder`. */
  function Step(s: State, i: nat, arrive: TradeNo): (r: Outcome)
    requires i < |s.threads| && ObjsInRange(s)
  {
    var pc := s.threads[i];
    if Blocks(s, pc) then Blocked
    else if pc.Releasing? && !s.objs[pc.obj].locked then Fatal
    else
      Ran(State(LocksAfter(s, pc), ObjsAfter(s.objs, pc), CreateAfter(s.create, pc),
                s.threads[i := PcAfter(s, pc, arrive)]))
  }

  // ---------- What the states of a run have in common ----------

  /** `Registered`: has incremented the count of `o` and not yet decremented it.
      `Holding`: has locked `o.mu` and not yet unlocked it. */
  datatype Role = Registered | Holding

  predicate Plays(pc: Pc, role: Role, o: nat) {
    match role
    case Registered =>
      (pc.Departing? || pc.Waiting? || pc.Inside? || pc.Reloading? || pc.Releasing? || pc.Returning?
       || pc.Discounting?) && pc.obj == o
    case Holding => (pc.Inside? || pc.Reloading? || pc.Releasing?) && pc.obj == o
  }

  /** Holds `createLock`. */
  predicate Guards(pc: Pc) {
    pc.Looking? || pc.Storing? || pc.Counting? || pc.Departing? || pc.Discounting? || pc.Deleting? || pc.Closing?
  }

  function Count(ts: seq<Pc>, role: Role, o: nat): nat {
    if ts == [] then 0 else (if Plays(ts[0], role, o) then 1 else 0) + Count(ts[1..], role, o)
  }

  /** `createLock` is held exactly when some thread is between taking and dropping it, and there
      is never more than one such thread. */
  predicate CreateInv(s: State) {
    && (forall i | 0 <= i < |s.threads| :: Guards(s.threads[i]) ==> s.create)
    && (forall i, j | 0 <= i < j < |s.threads| :: !(Guards(s.threads[i]) && Guards(s.threads[j])))
    && (s.create ==> exists i :: 0 <= i < |s.threads| && Guards(s.threads[i]))
  }

  /** Whoever refers to a mutex for `no` refers to the one the map holds for `no`; different
      numbers have different mutexes. */
  predicate MapInv(s: State) {
    && ObjsInRange(s)
    && (forall no | no in s.locks :: s.locks[no] < |s.objs|)
    && (forall a, b | a in s.locks && b in s.locks :: s.locks[a] == s.locks[b] ==> a == b)
    && (forall i | 0 <= i < |s.threads| ::
          HasObj(s.threads[i]) ==> s.threads[i].no in s.locks && s.locks[s.threads[i].no] == s.threads[i].obj)
    && (forall i | 0 <= i < |s.threads| :: s.threads[i].Storing? ==> s.threads[i].no !in s.locks)
  }

  /** The two counters of every mutex are exact. */
  predicate CountInv(s: State) {
    forall o | 0 <= o < |s.objs| ::
      && s.objs[o].refCount == Count(s.threads, Registered, o)
      && Count(s.threads, Holding, o) == (if s.objs[o].locked then 1 else 0)
  }

  /** About to be counted up or deleted, under `createLock`. */
  predicate Transient(pc: Pc, no: TradeNo) {
    (pc.Counting? || pc.Deleting?) && pc.no == no
  }

  /** An entry nobody is registered for is one that the holder of `createLock` is about to count
      up or to delete. */
  predicate LiveInv(s: State)
    requires MapInv(s)
  {
    forall no | no in s.locks ::
      || s.objs[s.locks[no]].refCount > 0
      || exists i :: 0 <= i < |s.threads| && Transient(s.threads[i], no)
  }

  predicate Inv(s: State) {
    CreateInv(s) && MapInv(s) && CountInv(s) && LiveInv(s)
  }
}
