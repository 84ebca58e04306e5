/** Billing a video task that several processes poll and its user fetches (service/task_polling.go,
    lines 43-90, 146-161, 372-395 and 431-592; service/task_billing.go, lines 90-98 and 165-235;
    relay/relay_task.go, lines 430-487).

    A poller loads the unfinished task, asks the provider, and stores the outcome only if the task
    still has the status it had when it was loaded (`Task.UpdateWithStatus`, a compare-and-set
    on the status that writes the whole row).  Whoever stores success settles the charge; whoever
    stores failure, or a timeout, refunds it.  A poller that cannot ask, because the channel is
    gone or the task has no id upstream, marks the task as failed without comparing and without
    a refund (`TaskBulkUpdateByID`).  A fetch by the user loads the task whatever its status,
    and stores the status that the provider reports by the same compare-and-set, but it
    never bills.  The steps of any number of pollers and fetches interleave, and every database
    access may fail; a failing write may or may not have been applied. */
module TaskPolling {
  import opened TaskStatus

  datatype Task = Task(status: Status, quota: int)

  /** What a poller found out: progress, success with the quota to settle to, if that is known,
      failure, that the task timed out, where tasks of an older system are not refunded, or that
      the provider cannot be asked; or what a fetch has seen. */
  datatype Outcome =
    | Progress(status: Status)
    | Succeeded(actual: int, known: bool)
    | Failed
    | TimedOut(legacy: bool)
    | Unpollable
    | Fetched(seen: Status)

  datatype Db = Works | Fails | FailsButApplied

  datatype Worker =
    | Idle
    | Loaded(snap: Task)               // before UpdateWithStatus or TaskBulkUpdateByID
    | Fetching(snap: Task)             // before UpdateWithStatus in a fetch
    | Refunding(quota: int)            // RefundTaskQuota: before taskAdjustFunding
    | Settling(actual: int, pre: int)  // RecalculateTaskQuota: before taskAdjustFunding
    | Recording(actual: int, pre: int) // before task.UpdateQuota

  /** A change of the user's quota that was carried out. */
  datatype Call = Refund(quota: int) | Adjust(delta: int)

  /** The stored task and balance, the pollers and fetches, and as history the calls. */
  datatype System = System(task: Task, balance: int, workers: seq<Worker>, calls: seq<Call>)

  function Init(n: nat, task: Task, balance: int): System {
    System(task, balance, seq(n, _ => Idle), [])
  }

  function TargetOf(o: Outcome): Status {
    match o
    case Progress(st) => st
    case Succeeded(_, _) => Success
    case Fetched(seen) => seen
    case _ => Failure
  }

  /** What the winner of the compare-and-set does next.  A settlement needs a positive quota that
      differs from the charge; a refund a charge that is not zero. */
  function Won(snap: Task, o: Outcome): Worker {
    match o
    case Succeeded(actual, known) =>
      if known && actual > 0 && actual != snap.quota then Settling(actual, snap.quota) else Idle
    case Failed => if snap.quota != 0 then Refunding(snap.quota) else Idle
    case TimedOut(legacy) => if !legacy && snap.quota != 0 then Refunding(snap.quota) else Idle
    case _ => Idle
  }

  /** The outcome is one that the worker stores.  An unfinished status that a provider reports to a
      poller is one of the three the source accepts; any other ends the poll. */
  predicate Storable(w: Worker, o: Outcome) {
    if w.Fetching? then o.Fetched?
    else !o.Fetched? && !o.Unpollable? && (o.Progress? ==> o.status in {Submitted, Queued, InProgress})
  }

  /** The compare-and-set of the worker is applied. */
  predicate Stores(s: System, w: Worker, o: Outcome, db: Db) {
    (w.Loaded? || w.Fetching?) && Storable(w, o) && db != Fails && s.task.status == w.snap.status
  }

  /** The write without a comparison is applied. */
  predicate Marks(w: Worker, o: Outcome, db: Db) {
    w.Loaded? && o.Unpollable? && db != Fails
  }

  /** What a worker is after its step. */
  function WorkerAfter(s: System, w: Worker, o: Outcome, db: Db): Worker {
    match w
    case Idle =>
      if db != Works then Idle
      else if o.Fetched? then Fetching(s.task)
      else if !Finished(s.task.status) then Loaded(s.task)
      else Idle
    case Loaded(snap) => if Stores(s, w, o, db) && db == Works then Won(snap, o) else Idle
    case Settling(actual, pre) => if db == Works then Recording(actual, pre) else Idle
    case _ => Idle
  }

  /** The stored task after the step; a compare-and-set writes the quota as it was loaded. */
  function TaskAfter(s: System, w: Worker, o: Outcome, db: Db): Task {
    if Stores(s, w, o, db) then Task(TargetOf(o), w.snap.quota)
    else if Marks(w, o, db) then s.task.(status := Failure)
    else if w.Recording? && db != Fails then s.task.(quota := w.actual)
    else s.task
  }

  /** The calls of the step: `taskAdjustFunding`.  (`IncreaseUserQuota` refuses a negative quota;
      refunding one is a charge.) */
  function CallsOf(w: Worker, db: Db): seq<Call> {
    if db == Fails then []
    else
      match w
      case Refunding(quota) => [Refund(quota)]
      case Settling(actual, pre) => [Adjust(actual - pre)]
      case _ => []
  }

  function Effect(calls: seq<Call>): int {
    if calls == [] then 0
    else
      Effect(calls[..|calls| - 1]) +
      match calls[|calls| - 1]
      case Refund(quota) => quota
      case Adjust(delta) => -delta
  }

  /** One database access of worker `i`. */
  function Step(s: System, i: nat, o: Outcome, db: Db): System
    requires i < |s.workers|
  {
    var w := s.workers[i];
    System(TaskAfter(s, w, o, db), s.balance + Effect(CallsOf(w, db)),
           s.workers[i := WorkerAfter(s, w, o, db)], s.calls + CallsOf(w, db))
  }

  datatype Choice = Choice(worker: nat, outcome: Outcome, db: Db)

  function Next(s: System, c: Choice): System {
    if c.worker < |s.workers| then Step(s, c.worker, c.outcome, c.db) else s
  }

  function Exec(s: System, schedule: seq<Choice>): System {
    if schedule == [] then s else Next(Exec(s, schedule[..|schedule| - 1]), schedule[|schedule| - 1])
  }

  // ---------- The guards of the two writes that do not bill ----------

  /** A poller that cannot ask marks a task as failed that has not failed. */
  predicate Overwrites(s: System, c: Choice) {
    && c.worker < |s.workers| && Marks(s.workers[c.worker], c.outcome, c.db)
    && s.task.status != Failure
  }

  /** A fetch stores what it has seen. */
  predicate FetchStores(s: System, c: Choice) {
    && c.worker < |s.workers| && s.workers[c.worker].Fetching?
    && Stores(s, s.workers[c.worker], c.outcome, c.db)
  }

  /** A fetch stores another status over a finished one. */
  predicate Refetches(s: System, c: Choice) {
    FetchStores(s, c) && Finished(s.task.status) && c.outcome.seen != s.task.status
  }

  /** A fetch stores an unfinished status over a finished one. */
  predicate Revives(s: System, c: Choice) {
    FetchStores(s, c) && Finished(s.task.status) && !Finished(c.outcome.seen)
  }

  // ---------- The ledger ----------

  /** The charge that an unfinished or successful task holds. */
  function Held(t: Task): int {
    if t.status == Failure then 0 else t.quota
  }

  /** What a worker still owes the account. */
  function Owes(w: Worker): int {
    match w
    case Refunding(quota) => quota
    case Recording(actual, pre) => actual - pre
    case _ => 0
  }

  function Owed(ws: seq<Worker>): int {
    if ws == [] then 0 else Owed(ws[..|ws| - 1]) + Owes(ws[|ws| - 1])
  }

  /** Balance, held charge, and what is on its way. */
  function Worth(s: System): int {
    s.balance + Held(s.task) + Owed(s.workers)
  }

  predicate Bills(w: Worker) {
    w.Refunding? || w.Settling? || w.Recording?
  }

  /** The task was billed, or is being billed. */
  ghost predicate Billed(s: System) {
    s.calls != [] || exists i :: 0 <= i < |s.workers| && Bills(s.workers[i])
  }
}

module TaskPollingProofs {
  import opened TaskStatus
  import opened TaskPolling

  // ---------- What holds in every run ----------

  /** A poller has loaded an unfinished task; a settlement changes the charge, to a positive one. */
  predicate WorkerOk(w: Worker) {
    match w
    case Loaded(snap) => !Finished(snap.status)
    case Settling(actual, pre) => actual != pre && actual > 0
    case Recording(actual, pre) => actual != pre && actual > 0
    case _ => true
  }

  ghost predicate Inv(s: System) {
    forall i | 0 <= i < |s.workers| :: WorkerOk(s.workers[i])
  }

  lemma NextInv(s: System, c: Choice)
    requires Inv(s)
    ensures Inv(Next(s, c)) && |Next(s, c).workers| == |s.workers|
  {
    if c.worker < |s.workers| {
      assert WorkerOk(s.workers[c.worker]);
      assert WorkerOk(WorkerAfter(s, s.workers[c.worker], c.outcome, c.db));
    }
  }

  lemma {:induction false} ExecInv(s: System, schedule: seq<Choice>)
    requires Inv(s)
    ensures Inv(Exec(s, schedule)) && |Exec(s, schedule).workers| == |s.workers|
  {
    if schedule == [] {
    } else {
      ExecInv(s, schedule[..|schedule| - 1]);
      NextInv(Exec(s, schedule[..|schedule| - 1]), schedule[|schedule| - 1]);
    }
  }

  lemma InitInv(n: nat, task: Task, balance: int)
    ensures Inv(Init(n, task, balance)) && Worth(Init(n, task, balance)) == balance + Held(task)
  {
    OwedIdle(Init(n, task, balance).workers);
  }

  // ---------- Kinds of choices ----------

  /** What can go wrong with a choice: it changes a finished status; it does so after the task was
      billed; it revives a finished task; it changes the held charge without billing; it
      changes balance plus charge, for whatever reason. */
  datatype Kind = Unfinalizing | Mismatching | Reviving | Unholding | Unbalancing

  ghost predicate Is(kind: Kind, s: System, c: Choice) {
    match kind
    case Unfinalizing => Unfinalizes(s, c)
    case Mismatching => Unfinalizes(s, c) && Billed(s)
    case Reviving => Revives(s, c)
    case Unholding => Unholds(s, c)
    case Unbalancing => Unbalances(s, c)
  }

  /** No choice of the schedule is of the kind, in the state in which it is made. */
  ghost predicate Never(kind: Kind, s: System, schedule: seq<Choice>) {
    || schedule == []
    || (var before := schedule[..|schedule| - 1];
        Never(kind, s, before) && !Is(kind, Exec(s, before), schedule[|schedule| - 1]))
  }

  ghost predicate IsAt(kind: Kind, s: System, schedule: seq<Choice>, k: int) {
    0 <= k < |schedule| && Is(kind, Exec(s, schedule[..k]), schedule[k])
  }

  lemma IsInPrefix(kind: Kind, s: System, schedule: seq<Choice>, n: nat, k: nat)
    requires k < n <= |schedule|
    ensures IsAt(kind, s, schedule[..n], k) == IsAt(kind, s, schedule, k)
  {
    assert schedule[..n][..k] == schedule[..k];
  }

  lemma {:induction false} NeverMeans(kind: Kind, s: System, schedule: seq<Choice>)
    ensures Never(kind, s, schedule) <==> forall k :: !IsAt(kind, s, schedule, k)
  {
    if schedule == [] {
    } else {
      var n := |schedule| - 1;
      NeverMeans(kind, s, schedule[..n]);
      forall k | 0 <= k < n ensures IsAt(kind, s, schedule[..n], k) == IsAt(kind, s, schedule, k) {
        IsInPrefix(kind, s, schedule, n, k);
      }
      assert Never(kind, s, schedule) <==> Never(kind, s, schedule[..n]) && !IsAt(kind, s, schedule, n);
      forall k | IsAt(kind, s, schedule, k) ensures k == n || IsAt(kind, s, schedule[..n], k) { }
      forall k | IsAt(kind, s, schedule[..n], k) ensures IsAt(kind, s, schedule, k) { }
    }
  }

  // ---------- Finality ----------

  /** A finished status is changed: by a poller that cannot ask, or by a fetch. */
  predicate Unfinalizes(s: System, c: Choice) {
    Finished(s.task.status) && (Overwrites(s, c) || Refetches(s, c))
  }

  /** The status is the same after every choice. */
  predicate StatusStays(s: System, schedule: seq<Choice>) {
    || schedule == []
    || (StatusStays(s, schedule[..|schedule| - 1]) && Exec(s, schedule).task.status == s.task.status)
  }

  lemma StatusStep(s: System, c: Choice)
    requires Inv(s) && Finished(s.task.status)
    ensures Next(s, c).task.status == s.task.status <==> !Unfinalizes(s, c)
  {
    if c.worker < |s.workers| { assert WorkerOk(s.workers[c.worker]); }
  }

  /** Over every run, a finished task stays as it finished throughout, if and only if no poller that
      cannot ask and no fetch changes its status. */
  lemma {:induction false} FinishedIsFinal(s: System, schedule: seq<Choice>)
    requires Inv(s) && Finished(s.task.status)
    ensures StatusStays(s, schedule) <==> Never(Unfinalizing, s, schedule)
  {
    if schedule == [] {
    } else {
      var before, c := schedule[..|schedule| - 1], schedule[|schedule| - 1];
      FinishedIsFinal(s, before);
      ExecInv(s, before);
      if StatusStays(s, before) {
        StaysAtEnd(s, before);
        StatusStep(Exec(s, before), c);
      }
    }
  }

  lemma StaysAtEnd(s: System, schedule: seq<Choice>)
    requires StatusStays(s, schedule)
    ensures Exec(s, schedule).task.status == s.task.status
  {
  }

  // ---------- Billing ----------

  /** The status that a worker bills for. */
  predicate Matches(w: Worker, status: Status) {
    match w
    case Refunding(_) => status == Failure
    case Settling(_, _) => status == Success
    case Recording(_, _) => status == Success
    case _ => true
  }

  /** The user's quota was changed at most once, by a refund of a task that is failed or by a
      settlement of one that is successful; the same holds of what is under way, and only one
      worker bills. */
  ghost predicate BilledRight(s: System) {
    && |s.calls| <= 1
    && (s.calls != [] ==> s.task.status == if s.calls[0].Refund? then Failure else Success)
    && (forall i | 0 <= i < |s.workers| :: Matches(s.workers[i], s.task.status))
    && (forall i | 0 <= i < |s.workers| :: s.workers[i].Refunding? || s.workers[i].Settling? ==> s.calls == [])
    && (forall i, j | 0 <= i < j < |s.workers| :: !(Bills(s.workers[i]) && Bills(s.workers[j])))
  }

  ghost predicate BilledRightThroughout(s: System, schedule: seq<Choice>) {
    && BilledRight(Exec(s, schedule))
    && (schedule == [] || BilledRightThroughout(s, schedule[..|schedule| - 1]))
  }

  lemma UnfinishedIsUnbilled(s: System)
    requires BilledRight(s) && !Finished(s.task.status)
    ensures !Billed(s)
  {
    forall i | 0 <= i < |s.workers| ensures !Bills(s.workers[i]) {
      assert Matches(s.workers[i], s.task.status);
    }
  }

  /** After a choice that changes the status of a billed task, the billing does not fit. */
  lemma MismatchIsWrong(s: System, c: Choice)
    requires BilledRight(s) && Unfinalizes(s, c) && Billed(s)
    ensures !BilledRight(Next(s, c))
  {
    var s' := Next(s, c);
    if s.calls == [] {
      var i :| 0 <= i < |s.workers| && Bills(s.workers[i]);
      assert Matches(s.workers[i], s.task.status);
      assert s'.workers[i] == s.workers[i];
      assert !Matches(s'.workers[i], s'.task.status);
    }
  }

  /** A compare-and-set over an unfinished task starts the billing. */
  lemma UnfinishedStep(s: System, c: Choice)
    requires Inv(s) && BilledRight(s) && !Finished(s.task.status)
    ensures BilledRight(Next(s, c))
  {
    UnfinishedIsUnbilled(s);
    if c.worker < |s.workers| {
      var w' := WorkerAfter(s, s.workers[c.worker], c.outcome, c.db);
      assert !Bills(s.workers[c.worker]);
      assert Matches(w', Next(s, c).task.status);
    }
  }

  /** As long as a finished status is not changed, the billing goes on. */
  lemma FinishedStep(s: System, c: Choice)
    requires Inv(s) && BilledRight(s) && Finished(s.task.status) && !Unfinalizes(s, c)
    ensures BilledRight(Next(s, c))
  {
    StatusStep(s, c);
    if c.worker < |s.workers| {
      var w := s.workers[c.worker];
      var w' := WorkerAfter(s, w, c.outcome, c.db);
      assert WorkerOk(w) && Matches(w, s.task.status);
      assert Bills(w') ==> w.Settling?;
    }
  }

  /** The status of a task that was not billed changes. */
  lemma UnbilledStep(s: System, c: Choice)
    requires BilledRight(s) && Unfinalizes(s, c) && !Billed(s)
    ensures BilledRight(Next(s, c))
  {
    var s' := Next(s, c);
    forall i | 0 <= i < |s'.workers| ensures !Bills(s'.workers[i]) {
      assert !Bills(s.workers[i]);
    }
  }

  lemma BillingStep(s: System, c: Choice)
    requires Inv(s) && BilledRight(s)
    ensures BilledRight(Next(s, c)) <==> !Is(Mismatching, s, c)
  {
    if Unfinalizes(s, c) {
      if Billed(s) { MismatchIsWrong(s, c); } else { UnbilledStep(s, c); }
    } else if Finished(s.task.status) {
      FinishedStep(s, c);
    } else {
      UnfinishedStep(s, c);
    }
  }

  /** Over every run, whatever fails: the task is billed right throughout, so at most once, if and only
      if no poller that cannot ask and no fetch changes its status after it was billed. */
  lemma {:induction false} BilledRightIff(n: nat, task: Task, balance: int, schedule: seq<Choice>)
    ensures BilledRightThroughout(Init(n, task, balance), schedule)
       <==> Never(Mismatching, Init(n, task, balance), schedule)
  {
    var s := Init(n, task, balance);
    InitInv(n, task, balance);
    if schedule == [] {
    } else {
      var before := schedule[..|schedule| - 1];
      BilledRightIff(n, task, balance, before);
      ExecInv(s, before);
      if BilledRightThroughout(s, before) { BillingStep(Exec(s, before), schedule[|schedule| - 1]); }
    }
  }

  // ---------- How often a task is billed ----------

  /** A call that a worker will make. */
  function Pending(w: Worker): nat {
    if w.Refunding? || w.Settling? then 1 else 0
  }

  function PendingIn(ws: seq<Worker>): nat {
    if ws == [] then 0 else PendingIn(ws[..|ws| - 1]) + Pending(ws[|ws| - 1])
  }

  lemma {:induction false} PendingUpdate(ws: seq<Worker>, i: nat, w: Worker)
    requires i < |ws|
    ensures PendingIn(ws[i := w]) == PendingIn(ws) - Pending(ws[i]) + Pending(w)
  {
    var n := |ws| - 1;
    if i == n {
      assert ws[i := w][..n] == ws[..n];
    } else {
      assert ws[i := w][..n] == ws[..n][i := w];
      PendingUpdate(ws[..n], i, w);
    }
  }

  lemma {:induction false} NothingPending(ws: seq<Worker>)
    requires forall i | 0 <= i < |ws| :: ws[i].Idle?
    ensures PendingIn(ws) == 0
  {
    if ws == [] {
    } else {
      NothingPending(ws[..|ws| - 1]);
    }
  }

  /** The calls that were made, those that will be, and the one that an unfinished task can lead to. */
  function Billings(s: System): nat {
    |s.calls| + PendingIn(s.workers) + if Finished(s.task.status) then 0 else 1
  }

  function Revivals(s: System, schedule: seq<Choice>): nat {
    if schedule == [] then 0
    else
      var before := schedule[..|schedule| - 1];
      Revivals(s, before) + if Revives(Exec(s, before), schedule[|schedule| - 1]) then 1 else 0
  }

  lemma BillingsStep(s: System, c: Choice)
    requires Inv(s)
    ensures Billings(Next(s, c)) <= Billings(s) + if Revives(s, c) then 1 else 0
  {
    if c.worker < |s.workers| {
      var w := s.workers[c.worker];
      assert WorkerOk(w);
      PendingUpdate(s.workers, c.worker, WorkerAfter(s, w, c.outcome, c.db));
    }
  }

  lemma {:induction false} BillingsBound(s: System, schedule: seq<Choice>)
    requires Inv(s)
    ensures Billings(Exec(s, schedule)) <= Billings(s) + Revivals(s, schedule)
  {
    if schedule == [] {
    } else {
      var before := schedule[..|schedule| - 1];
      BillingsBound(s, before);
      ExecInv(s, before);
      BillingsStep(Exec(s, before), schedule[|schedule| - 1]);
    }
  }

  /** Over every run, whatever fails, the user's quota is changed at most once, and once more for each
      time that a fetch revives the finished task. */
  lemma BilledOncePerLife(n: nat, task: Task, balance: int, schedule: seq<Choice>)
    ensures |Exec(Init(n, task, balance), schedule).calls| <= 1 + Revivals(Init(n, task, balance), schedule)
  {
    InitInv(n, task, balance);
    NothingPending(Init(n, task, balance).workers);
    BillingsBound(Init(n, task, balance), schedule);
  }

  // ---------- The ledger ----------

  lemma {:induction false} OwedUpdate(ws: seq<Worker>, i: nat, w: Worker)
    requires i < |ws|
    ensures Owed(ws[i := w]) == Owed(ws) - Owes(ws[i]) + Owes(w)
  {
    var n := |ws| - 1;
    if i == n {
      assert ws[i := w][..n] == ws[..n];
    } else {
      assert ws[i := w][..n] == ws[..n][i := w];
      OwedUpdate(ws[..n], i, w);
    }
  }

  lemma {:induction false} OwedIdle(ws: seq<Worker>)
    requires forall i | 0 <= i < |ws| :: ws[i].Idle?
    ensures Owed(ws) == 0
  {
    if ws == [] {
    } else {
      OwedIdle(ws[..|ws| - 1]);
    }
  }

  /** What a step adds to balance, held charge and what is on its way. */
  function DriftOf(s: System, w: Worker, o: Outcome, db: Db): int {
    match w
    case Idle => 0
    case Loaded(snap) =>
      if Marks(w, o, db) then -Held(s.task)
      else if !Stores(s, w, o, db) then 0
      else if TargetOf(o) == Failure && !(db == Works && Won(snap, o).Refunding?) then -s.task.quota
      else snap.quota - s.task.quota
    case Fetching(snap) => if Stores(s, w, o, db) then Held(Task(TargetOf(o), snap.quota)) - Held(s.task) else 0
    case Refunding(quota) => if db == Fails then -quota else 0
    case Settling(actual, pre) => if db == FailsButApplied then pre - actual else 0
    case Recording(actual, pre) =>
      if db == Fails || s.task.status == Failure then pre - actual else pre - s.task.quota
  }

  function Drift(s: System, c: Choice): int {
    if c.worker < |s.workers| then DriftOf(s, s.workers[c.worker], c.outcome, c.db) else 0
  }

  lemma WorkerLedger(s: System, w: Worker, o: Outcome, db: Db)
    requires WorkerOk(w)
    ensures Effect(CallsOf(w, db)) + Held(TaskAfter(s, w, o, db)) + Owes(WorkerAfter(s, w, o, db))
         == Held(s.task) + Owes(w) + DriftOf(s, w, o, db)
  {
    assert forall call: Call :: [call][..0] == [];
  }

  lemma StepLedger(s: System, c: Choice)
    requires Inv(s)
    ensures Worth(Next(s, c)) == Worth(s) + Drift(s, c)
  {
    if c.worker < |s.workers| {
      var w := s.workers[c.worker];
      assert WorkerOk(w);
      WorkerLedger(s, w, c.outcome, c.db);
      OwedUpdate(s.workers, c.worker, WorkerAfter(s, w, c.outcome, c.db));
    }
  }

  function TotalDrift(s: System, schedule: seq<Choice>): int {
    if schedule == [] then 0
    else
      var before := schedule[..|schedule| - 1];
      TotalDrift(s, before) + Drift(Exec(s, before), schedule[|schedule| - 1])
  }

  lemma {:induction false} RunLedger(s: System, schedule: seq<Choice>)
    requires Inv(s)
    ensures Worth(Exec(s, schedule)) == Worth(s) + TotalDrift(s, schedule)
  {
    if schedule == [] {
    } else {
      var before := schedule[..|schedule| - 1];
      RunLedger(s, before);
      ExecInv(s, before);
      StepLedger(Exec(s, before), schedule[|schedule| - 1]);
    }
  }

  ghost predicate AtRest(s: System) {
    forall i | 0 <= i < |s.workers| :: s.workers[i].Idle?
  }

  /** At rest, balance plus held charge is what it was, plus the drift of the choices. */
  lemma LedgerAtRest(n: nat, task: Task, balance: int, schedule: seq<Choice>)
    requires AtRest(Exec(Init(n, task, balance), schedule))
    ensures var s := Exec(Init(n, task, balance), schedule);
            s.balance + Held(s.task) == balance + Held(task) + TotalDrift(Init(n, task, balance), schedule)
  {
    InitInv(n, task, balance);
    RunLedger(Init(n, task, balance), schedule);
    OwedIdle(Exec(Init(n, task, balance), schedule).workers);
  }

  // ---------- Conservation ----------

  /** When the step of a worker changes balance plus charge: a failure that is stored but not refunded,
      a compare-and-set that puts back an old quota, a fetch that changes what is held, a refund
      or settlement that is not carried out in full, and a settlement that is recorded after the
      task was failed or changed. */
  predicate WorkerUnbalances(s: System, w: Worker, o: Outcome, db: Db) {
    match w
    case Idle => false
    case Loaded(snap) =>
      if Marks(w, o, db) then Held(s.task) != 0
      else if !Stores(s, w, o, db) then false
      else if TargetOf(o) == Failure && !(db == Works && Won(snap, o).Refunding?) then s.task.quota != 0
      else snap.quota != s.task.quota
    case Fetching(snap) => Stores(s, w, o, db) && Held(Task(TargetOf(o), snap.quota)) != Held(s.task)
    case Refunding(quota) => db == Fails && quota != 0
    case Settling(_, _) => db == FailsButApplied
    case Recording(_, pre) => db == Fails || s.task.status == Failure || s.task.quota != pre
  }

  predicate Unbalances(s: System, c: Choice) {
    c.worker < |s.workers| && WorkerUnbalances(s, s.workers[c.worker], c.outcome, c.db)
  }

  /** Balance plus charge is the same after every choice. */
  predicate WorthStays(s: System, schedule: seq<Choice>) {
    || schedule == []
    || (WorthStays(s, schedule[..|schedule| - 1]) && Worth(Exec(s, schedule)) == Worth(s))
  }

  lemma BalancedStep(s: System, c: Choice)
    requires Inv(s)
    ensures Worth(Next(s, c)) == Worth(s) <==> !Unbalances(s, c)
  {
    StepLedger(s, c);
    if c.worker < |s.workers| { assert WorkerOk(s.workers[c.worker]); }
  }

  /** Over every run, whatever fails: balance plus charge stays the same throughout, if and only if no
      choice unbalances it. */
  lemma {:induction false} ConservedIff(s: System, schedule: seq<Choice>)
    requires Inv(s)
    ensures WorthStays(s, schedule) <==> Never(Unbalancing, s, schedule)
  {
    if schedule == [] {
    } else {
      var before := schedule[..|schedule| - 1];
      ConservedIff(s, before);
      ExecInv(s, before);
      if WorthStays(s, before) { BalancedStep(Exec(s, before), schedule[|schedule| - 1]); }
    }
  }

  // ---------- Conservation when every access works ----------

  ghost predicate Healthy(c: Choice) {
    c.db == Works && !(c.outcome.TimedOut? && c.outcome.legacy)
  }

  /** The two writes that do not bill change what the task holds: a poller that cannot ask, or a fetch
      that stores a failure, takes one back, or puts back an old quota. */
  predicate Unholds(s: System, c: Choice) {
    || Overwrites(s, c)
    || (FetchStores(s, c) && Held(Task(c.outcome.seen, s.workers[c.worker].snap.quota)) != Held(s.task))
  }

  /** What a worker of a run knows in which no fetch revives the task and nothing was unheld: unfinished
      tasks have the first charge, and a settlement finds the task as it left it. */
  predicate WorkerClean(t: Task, w: Worker, charge: int) {
    match w
    case Loaded(snap) => snap.quota == charge
    case Fetching(snap) => snap.quota != 0 && (!Finished(snap.status) ==> snap.quota == charge)
    case Refunding(_) => t.status == Failure
    case Settling(_, pre) => t == Task(Success, pre)
    case Recording(_, pre) => t == Task(Success, pre)
    case Idle => true
  }

  ghost predicate Clean(s: System, charge: int) {
    && s.task.quota != 0 && (!Finished(s.task.status) ==> s.task.quota == charge)
    && (forall i | 0 <= i < |s.workers| :: WorkerClean(s.task, s.workers[i], charge))
    && (forall i, j | 0 <= i < j < |s.workers| :: !(Bills(s.workers[i]) && Bills(s.workers[j])))
  }

  lemma CleanMeans(s: System, c: Choice, charge: int)
    requires Inv(s) && Clean(s, charge) && charge != 0 && Healthy(c)
    ensures Unbalances(s, c) <==> Unholds(s, c)
  {
    if c.worker < |s.workers| {
      assert WorkerOk(s.workers[c.worker]) && WorkerClean(s.task, s.workers[c.worker], charge);
    }
  }

  /** The task of a clean run is written only by the worker that bills it, or while nobody does. */
  lemma CleanTask(s: System, c: Choice, charge: int)
    requires Inv(s) && Clean(s, charge) && charge != 0 && Healthy(c) && !Unholds(s, c) && !Revives(s, c)
    requires c.worker < |s.workers|
    ensures var t := Next(s, c).task;
            && t.quota != 0 && (!Finished(t.status) ==> t.quota == charge)
            && (forall j | 0 <= j < |s.workers| && j != c.worker :: WorkerClean(t, s.workers[j], charge))
            && WorkerClean(t, Next(s, c).workers[c.worker], charge)
  {
    var w := s.workers[c.worker];
    assert WorkerOk(w) && WorkerClean(s.task, w, charge);
    forall j | 0 <= j < |s.workers| && j != c.worker ensures WorkerClean(Next(s, c).task, s.workers[j], charge) {
      assert WorkerClean(s.task, s.workers[j], charge);
    }
  }

  lemma CleanStep(s: System, c: Choice, charge: int)
    requires Inv(s) && Clean(s, charge) && charge != 0 && Healthy(c) && !Unholds(s, c) && !Revives(s, c)
    ensures Clean(Next(s, c), charge)
  {
    if c.worker < |s.workers| {
      CleanTask(s, c, charge);
      var w := s.workers[c.worker];
      assert WorkerOk(w) && WorkerClean(s.task, w, charge);
      forall j | 0 <= j < |s.workers| && j != c.worker
        ensures !(Bills(Next(s, c).workers[c.worker]) && Bills(s.workers[j]))
      {
        assert WorkerClean(s.task, s.workers[j], charge);
      }
    }
  }

  lemma {:induction false} CleanRun(s: System, schedule: seq<Choice>, charge: int)
    requires Inv(s) && Clean(s, charge) && charge != 0
    requires Never(Reviving, s, schedule) && forall k | 0 <= k < |schedule| :: Healthy(schedule[k])
    ensures Never(Unholding, s, schedule) ==> Clean(Exec(s, schedule), charge)
    ensures Never(Unbalancing, s, schedule) <==> Never(Unholding, s, schedule)
  {
    if schedule == [] {
    } else {
      var before, c := schedule[..|schedule| - 1], schedule[|schedule| - 1];
      CleanRun(s, before, charge);
      ExecInv(s, before);
      if Never(Unholding, s, before) {
        CleanMeans(Exec(s, before), c, charge);
        if !Unholds(Exec(s, before), c) { CleanStep(Exec(s, before), c, charge); }
      }
    }
  }

  /** If every access works, no old task times out and no fetch revives the task, a charge is conserved
      throughout if and only if neither a poller that cannot ask nor a fetch changes what the task
      holds.  Then, at rest, a failed task has given back exactly its charge, and any other
      holds exactly what the user has paid. */
  lemma ConservedIffHeld(n: nat, task: Task, balance: int, schedule: seq<Choice>)
    requires !Finished(task.status) && task.quota != 0
    requires forall k | 0 <= k < |schedule| :: Healthy(schedule[k])
    requires Never(Reviving, Init(n, task, balance), schedule)
    ensures WorthStays(Init(n, task, balance), schedule) <==> Never(Unholding, Init(n, task, balance), schedule)
    ensures var s := Exec(Init(n, task, balance), schedule);
            AtRest(s) && Never(Unholding, Init(n, task, balance), schedule) ==>
              s.balance + (if s.task.status == Failure then 0 else s.task.quota) == balance + task.quota
  {
    var s := Init(n, task, balance);
    InitInv(n, task, balance);
    ConservedIff(s, schedule);
    CleanRun(s, schedule, task.quota);
    if AtRest(Exec(s, schedule)) && WorthStays(s, schedule) {
      OwedIdle(Exec(s, schedule).workers);
      assert Worth(Exec(s, schedule)) == Worth(s);
    }
  }

  /** If every poller can ask and nobody fetches, no choice is of the kinds that do not bill. */
  lemma OnlyPollers(s: System, schedule: seq<Choice>)
    requires forall k | 0 <= k < |schedule| :: !schedule[k].outcome.Unpollable? && !schedule[k].outcome.Fetched?
    ensures Never(Unfinalizing, s, schedule) && Never(Mismatching, s, schedule)
    ensures Never(Reviving, s, schedule) && Never(Unholding, s, schedule)
  {
    NeverMeans(Unfinalizing, s, schedule);
    NeverMeans(Mismatching, s, schedule);
    NeverMeans(Reviving, s, schedule);
    NeverMeans(Unholding, s, schedule);
  }

  // ---------- Runs in which every access works ----------

  ghost predicate Leads(s: System, schedule: seq<Choice>, after: System) {
    Exec(s, schedule) == after
  }

  /** A run that goes through the given states. */
  lemma {:induction false} Path(states: seq<System>, schedule: seq<Choice>)
    requires |states| == |schedule| + 1
    requires forall k | 0 <= k < |schedule| :: Next(states[k], schedule[k]) == states[k + 1]
    ensures Leads(states[0], schedule, states[|schedule|])
  {
    if schedule == [] {
    } else {
      var n := |schedule| - 1;
      Path(states[..n + 1], schedule[..n]);
      assert Next(states[n], schedule[n]) == states[n + 1];
    }
  }

  lemma OneStep(s: System, c: Choice, w: Worker, after: System)
    requires c.worker < |s.workers| && s.workers[c.worker] == w
    requires after.workers == s.workers[c.worker := WorkerAfter(s, w, c.outcome, c.db)]
    requires after.task == TaskAfter(s, w, c.outcome, c.db)
    requires after.calls == s.calls + CallsOf(w, c.db) && after.balance == s.balance + Effect(CallsOf(w, c.db))
    ensures Next(s, c) == after
  {
  }

  /** A single worker makes the same choice twice. */
  lemma Twice(s: System, o: Outcome, loaded: Worker, after: System)
    requires |s.workers| == 1 && s.workers[0].Idle? && WorkerAfter(s, Idle, o, Works) == loaded
    requires after == Step(s.(workers := [loaded]), 0, o, Works)
    ensures Leads(s, [Choice(0, o, Works), Choice(0, o, Works)], after)
  {
    var c := Choice(0, o, Works);
    OneStep(s, c, Idle, s.(workers := [loaded]));
    Path([s, s.(workers := [loaded]), after], [c, c]);
  }

  /** One poller, and a channel that is gone: the task fails and is never refunded. */
  lemma GoneChannelIsNotRefunded(task: Task, balance: int)
    requires !Finished(task.status)
    ensures Leads(Init(1, task, balance), [Choice(0, Unpollable, Works), Choice(0, Unpollable, Works)],
                  System(Task(Failure, task.quota), balance, [Idle], []))
  {
    Twice(Init(1, task, balance), Unpollable, Loaded(task), System(Task(Failure, task.quota), balance, [Idle], []));
  }

  /** A fetch that sees a failure before any poller does: the task fails and is never refunded. */
  lemma FetchedFailureIsNotRefunded(task: Task, balance: int)
    requires !Finished(task.status)
    ensures Leads(Init(1, task, balance), [Choice(0, Fetched(Failure), Works), Choice(0, Fetched(Failure), Works)],
                  System(Task(Failure, task.quota), balance, [Idle], []))
  {
    Twice(Init(1, task, balance), Fetched(Failure), Fetching(task),
          System(Task(Failure, task.quota), balance, [Idle], []));
  }

  lemma {:induction false} ExecConcat(s: System, first: seq<Choice>, second: seq<Choice>)
    ensures Exec(s, first + second) == Exec(Exec(s, first), second)
  {
    if second == [] {
      assert first + second == first;
    } else {
      var n := |second| - 1;
      assert (first + second)[..|first| + n] == first + second[..n] && (first + second)[|first| + n] == second[n];
      ExecConcat(s, first, second[..n]);
    }
  }

  lemma Compose(s: System, first: seq<Choice>, mid: System, second: seq<Choice>, after: System)
    requires Leads(s, first, mid) && Leads(mid, second, after)
    ensures Leads(s, first + second, after)
  {
    ExecConcat(s, first, second);
  }

  const TIMEOUT := Choice(0, TimedOut(false), Works)

  lemma EffectOfOne(call: Call)
    ensures Effect([call]) == if call.Refund? then call.quota else -call.delta
  {
    assert [call][..0] == [];
  }

  /** The only worker has refunded the charge, and the task has the status. */
  function Refunded(s: System, status: Status): System {
    System(Task(status, s.task.quota), s.balance + s.task.quota, [Idle], s.calls + [Refund(s.task.quota)])
  }

  /** A task times out and is refunded. */
  lemma RefundedTimeout(s: System)
    requires |s.workers| == 1 && s.workers[0].Idle? && !Finished(s.task.status) && s.task.quota != 0
    ensures Leads(s, [TIMEOUT, TIMEOUT, TIMEOUT], Refunded(s, Failure))
  {
    var q := s.task.quota;
    var loaded := s.(workers := [Loaded(s.task)]);
    var failed := System(Task(Failure, q), s.balance, [Refunding(q)], s.calls);
    var refunded := System(Task(Failure, q), s.balance + q, [Idle], s.calls + [Refund(q)]);
    OneStep(s, TIMEOUT, Idle, loaded);
    OneStep(loaded, TIMEOUT, Loaded(s.task), failed);
    EffectOfOne(Refund(q));
    OneStep(failed, TIMEOUT, Refunding(q), refunded);
    Path([s, loaded, failed, refunded], [TIMEOUT, TIMEOUT, TIMEOUT]);
  }

  /** What a fetch stores over the status of a task at rest. */
  lemma FetchedOver(s: System, seen: Status)
    requires |s.workers| == 1 && s.workers[0].Idle?
    ensures Leads(s, [Choice(0, Fetched(seen), Works), Choice(0, Fetched(seen), Works)],
                  s.(task := Task(seen, s.task.quota)))
  {
    assert s.calls + [] == s.calls;
    Twice(s, Fetched(seen), Fetching(s.task), s.(task := Task(seen, s.task.quota)));
  }

  /** A timeout that is refunded, and a fetch that sees another status afterwards. */
  function RefundThenFetch(seen: Status): seq<Choice> {
    [TIMEOUT, TIMEOUT, TIMEOUT] + [Choice(0, Fetched(seen), Works), Choice(0, Fetched(seen), Works)]
  }

  lemma RefundedThenFetched(s: System, seen: Status)
    requires |s.workers| == 1 && s.workers[0].Idle? && !Finished(s.task.status) && s.task.quota != 0
    ensures Leads(s, RefundThenFetch(seen), Refunded(s, seen))
  {
    var c := Choice(0, Fetched(seen), Works);
    RefundedTimeout(s);
    FetchedOver(Refunded(s, Failure), seen);
    Compose(s, [TIMEOUT, TIMEOUT, TIMEOUT], Refunded(s, Failure), [c, c], Refunded(s, seen));
  }

  /** A task that timed out and was refunded is successful after a fetch, and the refund stays. */
  lemma RefundedSuccess(task: Task, balance: int)
    requires !Finished(task.status) && task.quota != 0
    ensures Leads(Init(1, task, balance), RefundThenFetch(Success),
                  System(Task(Success, task.quota), balance + task.quota, [Idle], [Refund(task.quota)]))
  {
    RefundedThenFetched(Init(1, task, balance), Success);
  }

  function Rounds(k: nat): seq<Choice> {
    if k == 0 then [] else Rounds(k - 1) + RefundThenFetch(InProgress)
  }

  /** The state after `k` rounds. */
  function AfterRounds(task: Task, balance: int, k: nat): System {
    if k == 0 then Init(1, task, balance)
    else
      Refunded(AfterRounds(task, balance, k - 1), InProgress)
  }

  lemma {:induction false} RoundsShape(task: Task, balance: int, k: nat)
    requires !Finished(task.status)
    ensures var s := AfterRounds(task, balance, k);
            |s.workers| == 1 && s.workers[0].Idle? && !Finished(s.task.status) && s.task.quota == task.quota
  {
    if k == 0 {
    } else {
      RoundsShape(task, balance, k - 1);
    }
  }

  lemma {:induction false} RoundsReach(task: Task, balance: int, k: nat)
    requires !Finished(task.status) && task.quota != 0
    ensures Leads(Init(1, task, balance), Rounds(k), AfterRounds(task, balance, k))
  {
    if k == 0 {
    } else {
      var before := AfterRounds(task, balance, k - 1);
      RoundsReach(task, balance, k - 1);
      RoundsShape(task, balance, k - 1);
      RefundedThenFetched(before, InProgress);
      Compose(Init(1, task, balance), Rounds(k - 1), before, RefundThenFetch(InProgress),
              AfterRounds(task, balance, k));
    }
  }

  lemma {:induction false} RoundsCount(task: Task, balance: int, k: nat)
    requires !Finished(task.status)
    ensures |AfterRounds(task, balance, k).calls| == k
            && AfterRounds(task, balance, k).balance == balance + k * task.quota
  {
    if k == 0 {
    } else {
      RoundsShape(task, balance, k - 1);
      RoundsCount(task, balance, k - 1);
    }
  }

  /** As long as fetches see a task in progress that has timed out, it is refunded again and again. */
  lemma RefundedEveryTime(task: Task, balance: int, k: nat)
    requires !Finished(task.status) && task.quota != 0
    ensures var s := Exec(Init(1, task, balance), Rounds(k)); |s.calls| == k && s.balance == balance + k * task.quota
  {
    RoundsReach(task, balance, k);
    RoundsCount(task, balance, k);
  }

  function Settle(actual: int): Choice {
    Choice(0, Succeeded(actual, true), Works)
  }

  /** The first of two workers loads a task and stores a success; the second loads it in between. */
  function StoreBeside(actual: int): seq<Choice> {
    [Settle(actual), Choice(1, Unpollable, Works), Settle(actual)]
  }

  /** The first worker settles the success; then the second writes. */
  function SettleThenMark(actual: int): seq<Choice> {
    [Settle(actual), Settle(actual), Choice(1, Unpollable, Works)]
  }

  /** A success is stored, and about to be settled. */
  function Stored(task: Task, balance: int, actual: int): System {
    System(Task(Success, task.quota), balance, [Settling(actual, task.quota), Loaded(task)], [])
  }

  /** A success was settled and marked as failed. */
  function Marked(task: Task, balance: int, actual: int): System {
    System(Task(Failure, actual), balance - (actual - task.quota), [Idle, Idle], [Adjust(actual - task.quota)])
  }

  lemma StoredBeside(task: Task, balance: int, actual: int)
    requires !Finished(task.status) && actual > 0 && actual != task.quota
    ensures Leads(Init(2, task, balance), StoreBeside(actual), Stored(task, balance, actual))
  {
    var c, load := Settle(actual), Choice(1, Unpollable, Works);
    var s0 := System(task, balance, [Idle, Idle], []);
    var s1 := System(task, balance, [Loaded(task), Idle], []);
    var s2 := System(task, balance, [Loaded(task), Loaded(task)], []);
    OneStep(s0, c, Idle, s1);
    OneStep(s1, load, Idle, s2);
    OneStep(s2, c, Loaded(task), Stored(task, balance, actual));
    assert Init(2, task, balance).workers == [Idle, Idle];
    Path([s0, s1, s2, Stored(task, balance, actual)], [c, load, c]);
  }

  lemma SettledThenMarked(task: Task, balance: int, actual: int)
    ensures Leads(Stored(task, balance, actual), SettleThenMark(actual), Marked(task, balance, actual))
  {
    var c, gone, pre, delta := Settle(actual), Choice(1, Unpollable, Works), task.quota, actual - task.quota;
    var s1 := System(Task(Success, pre), balance - delta, [Recording(actual, pre), Loaded(task)], [Adjust(delta)]);
    var s2 := System(Task(Success, actual), balance - delta, [Idle, Loaded(task)], [Adjust(delta)]);
    EffectOfOne(Adjust(delta));
    OneStep(Stored(task, balance, actual), c, Settling(actual, pre), s1);
    OneStep(s1, c, Recording(actual, pre), s2);
    OneStep(s2, gone, Loaded(task), Marked(task, balance, actual));
    Path([Stored(task, balance, actual), s1, s2, Marked(task, balance, actual)], [c, c, gone]);
  }

  /** Two pollers: the first settles a success, and the second, which loaded the task before and
      finds its channel gone, turns it into a failure. */
  lemma SuccessIsOverwritten(task: Task, balance: int, actual: int)
    requires !Finished(task.status) && actual > 0 && actual != task.quota
    ensures Leads(Init(2, task, balance), StoreBeside(actual) + SettleThenMark(actual), Marked(task, balance, actual))
  {
    StoredBeside(task, balance, actual);
    SettledThenMarked(task, balance, actual);
    Compose(Init(2, task, balance), StoreBeside(actual), Stored(task, balance, actual), SettleThenMark(actual),
            Marked(task, balance, actual));
  }
}
