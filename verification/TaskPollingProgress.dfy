/** That pollers bill a task as they should: by the outcome that is stored (service/task_polling.go,
    lines 43-90 and 431-592; service/task_billing.go, lines 165-235). */
module TaskPollingProgress {
  import opened TaskStatus
  import opened TaskPolling
  import Proofs = TaskPollingProofs

  /** Nobody fetches, every poller can ask, every access works, and no old task times out. */
  predicate Plain(c: Choice) {
    && c.db == Works && !c.outcome.Unpollable? && !c.outcome.Fetched?
    && !(c.outcome.TimedOut? && c.outcome.legacy)
  }

  /** The choice stores a success or a failure over the status that the poller has loaded. */
  predicate Decides(s: System, c: Choice) {
    && c.worker < |s.workers| && s.workers[c.worker].Loaded?
    && s.workers[c.worker].snap.status == s.task.status && !c.outcome.Progress?
  }

  predicate DecidesAt(s: System, schedule: seq<Choice>, k: int) {
    0 <= k < |schedule| && Decides(Exec(s, schedule[..k]), schedule[k])
  }

  /** What the task costs with this outcome: the quota of a success, if it is known and positive,
      and nothing for a failure. */
  function Cost(o: Outcome, charge: int): int {
    match o
    case Succeeded(actual, known) => if known && actual > 0 then actual else charge
    case _ => 0
  }

  function QuotaOf(o: Outcome, charge: int): int {
    if o.Succeeded? then Cost(o, charge) else charge
  }

  function StatusOf(o: Outcome): Status {
    if o.Succeeded? then Success else Failure
  }

  // ---------- The stages of a run ----------

  ghost predicate NobodyBills(s: System, but: int) {
    forall j | 0 <= j < |s.workers| && j != but :: !Bills(s.workers[j])
  }

  ghost predicate Undecided(s: System, charge: int) {
    && !Finished(s.task.status) && s.task.quota == charge && NobodyBills(s, -1)
    && (forall j | 0 <= j < |s.workers| :: s.workers[j].Loaded? ==> s.workers[j].snap.quota == charge)
  }

  predicate BillsFor(w: Worker, o: Outcome, charge: int) {
    match w
    case Refunding(quota) => !o.Succeeded? && quota == charge
    case Settling(actual, pre) => o.Succeeded? && actual == Cost(o, charge) && pre == charge
    case Recording(actual, pre) => o.Succeeded? && actual == Cost(o, charge) && pre == charge
    case _ => false
  }

  ghost predicate Paying(s: System, o: Outcome, charge: int, i: nat) {
    && s.task == Task(StatusOf(o), charge)
    && i < |s.workers| && BillsFor(s.workers[i], o, charge) && NobodyBills(s, i)
  }

  ghost predicate Paid(s: System, o: Outcome, charge: int) {
    s.task == Task(StatusOf(o), QuotaOf(o, charge)) && NobodyBills(s, -1)
  }

  ghost predicate Decided(s: System, o: Outcome, charge: int) {
    !o.Progress? && (Paid(s, o, charge) || exists i: nat :: Paying(s, o, charge, i))
  }

  lemma UndecidedStep(s: System, c: Choice, charge: int)
    requires Proofs.Inv(s) && Undecided(s, charge) && Plain(c)
    ensures Decides(s, c) ==> Decided(Next(s, c), c.outcome, charge)
    ensures !Decides(s, c) ==> Undecided(Next(s, c), charge)
    ensures Worth(Next(s, c)) == Worth(s)
  {
    Proofs.StepLedger(s, c);
    if c.worker < |s.workers| {
      var w := s.workers[c.worker];
      assert Proofs.WorkerOk(w) && !Bills(w);
      var s' := Next(s, c);
      if Decides(s, c) {
        assert s'.task.quota == charge;
        if Bills(s'.workers[c.worker]) {
          assert Paying(s', c.outcome, charge, c.worker);
        } else {
          assert Paid(s', c.outcome, charge);
        }
      }
    }
  }

  lemma PaidStep(s: System, c: Choice, o: Outcome, charge: int)
    requires Proofs.Inv(s) && Paid(s, o, charge) && Plain(c)
    ensures Paid(Next(s, c), o, charge) && !Decides(s, c) && Worth(Next(s, c)) == Worth(s)
  {
    Proofs.StepLedger(s, c);
    if c.worker < |s.workers| {
      var w := s.workers[c.worker];
      assert Proofs.WorkerOk(w) && !Bills(w);
    }
  }

  lemma PayingStep(s: System, c: Choice, o: Outcome, charge: int, i: nat)
    requires Proofs.Inv(s) && Paying(s, o, charge, i) && !o.Progress? && Plain(c)
    ensures Decided(Next(s, c), o, charge) && !Decides(s, c) && Worth(Next(s, c)) == Worth(s)
  {
    Proofs.StepLedger(s, c);
    var s' := Next(s, c);
    if c.worker < |s.workers| {
      var w := s.workers[c.worker];
      assert Proofs.WorkerOk(w);
      if c.worker != i || w.Settling? {
        assert Paying(s', o, charge, i);
      } else {
        assert Paid(s', o, charge);
      }
    } else {
      assert Paying(s', o, charge, i);
    }
  }

  // ---------- Every run ----------

  /** Nothing is decided, or the outcome of the one choice that decides is being billed. */
  ghost predicate Stage(start: System, schedule: seq<Choice>, charge: int) {
    var s := Exec(start, schedule);
    || (Undecided(s, charge) && forall k :: !DecidesAt(start, schedule, k))
    || exists k :: DecidesAt(start, schedule, k) && Decided(s, schedule[k].outcome, charge)
                   && forall j | DecidesAt(start, schedule, j) :: j == k
  }

  lemma DecidesInPrefix(s: System, schedule: seq<Choice>, k: int)
    requires schedule != []
    ensures var n := |schedule| - 1;
            DecidesAt(s, schedule, k) ==
            if k == n then Decides(Exec(s, schedule[..n]), schedule[n]) else DecidesAt(s, schedule[..n], k)
  {
    var n := |schedule| - 1;
    if 0 <= k < n { assert schedule[..n][..k] == schedule[..k]; }
  }

  lemma StageStep(start: System, schedule: seq<Choice>, charge: int)
    requires schedule != [] && Plain(schedule[|schedule| - 1]) && Proofs.Inv(Exec(start, schedule[..|schedule| - 1]))
    requires Stage(start, schedule[..|schedule| - 1], charge)
    ensures Stage(start, schedule, charge)
    ensures Worth(Exec(start, schedule)) == Worth(Exec(start, schedule[..|schedule| - 1]))
  {
    var n := |schedule| - 1;
    var before, c := Exec(start, schedule[..n]), schedule[n];
    forall k ensures DecidesAt(start, schedule, k)
                  == if k == n then Decides(before, c) else DecidesAt(start, schedule[..n], k)
    {
      DecidesInPrefix(start, schedule, k);
    }
    if Undecided(before, charge) && forall k :: !DecidesAt(start, schedule[..n], k) {
      UndecidedStep(before, c, charge);
      if Decides(before, c) { assert DecidesAt(start, schedule, n); }
    } else {
      var k :| DecidesAt(start, schedule[..n], k) && Decided(before, schedule[..n][k].outcome, charge)
               && forall j | DecidesAt(start, schedule[..n], j) :: j == k;
      var o := schedule[k].outcome;
      if Paid(before, o, charge) {
        PaidStep(before, c, o, charge);
      } else {
        var i: nat :| Paying(before, o, charge, i);
        PayingStep(before, c, o, charge, i);
      }
      assert DecidesAt(start, schedule, k);
    }
  }

  lemma {:induction false} StageRun(start: System, schedule: seq<Choice>, charge: int)
    requires Proofs.Inv(start) && Undecided(start, charge) && forall k | 0 <= k < |schedule| :: Plain(schedule[k])
    ensures Stage(start, schedule, charge) && Worth(Exec(start, schedule)) == Worth(start)
  {
    if schedule == [] {
    } else {
      StageRun(start, schedule[..|schedule| - 1], charge);
      Proofs.ExecInv(start, schedule[..|schedule| - 1]);
      StageStep(start, schedule, charge);
    }
  }

  /** However the pollers interleave: at most one stores a success or a failure.  At rest the task has the
      status and quota of that outcome, and the user has paid exactly what it costs; if there is none,
      the task is unfinished with its charge. */
  lemma BilledByTheDecision(n: nat, task: Task, balance: int, schedule: seq<Choice>)
    requires !Finished(task.status) && forall k | 0 <= k < |schedule| :: Plain(schedule[k])
    requires Proofs.AtRest(Exec(Init(n, task, balance), schedule))
    ensures var start := Init(n, task, balance);
            var s := Exec(start, schedule);
            && (forall j, k | DecidesAt(start, schedule, j) && DecidesAt(start, schedule, k) :: j == k)
            && (forall k | DecidesAt(start, schedule, k) ::
                  var o := schedule[k].outcome;
                  && s.task == Task(StatusOf(o), QuotaOf(o, task.quota))
                  && s.balance == balance + task.quota - Cost(o, task.quota))
            && ((forall k :: !DecidesAt(start, schedule, k)) ==>
                  !Finished(s.task.status) && s.task.quota == task.quota && s.balance == balance)
  {
    var start := Init(n, task, balance);
    var s := Exec(start, schedule);
    Proofs.InitInv(n, task, balance);
    StageRun(start, schedule, task.quota);
    Proofs.OwedIdle(s.workers);
    if exists k :: DecidesAt(start, schedule, k) {
      var k :| DecidesAt(start, schedule, k) && Decided(s, schedule[k].outcome, task.quota)
               && forall j | DecidesAt(start, schedule, j) :: j == k;
      forall i: nat ensures !Paying(s, schedule[k].outcome, task.quota, i) { }
    }
  }
}
