module TopUpProofs {
  import opened OrderLock
  import opened QuotaMath
  import opened Bytes
  import opened TopUp
  import Lock = OrderLockProofs

  // ---------- The invariant ----------

  /** What the job of a thread knows about the books; the thread owns its trade number. */
  ghost predicate JobOk(unit: real, b: Books, no: TradeNo, job: Job) {
    match job
    case Saving(o) =>
      && no in b.orders && no !in b.moved
      && b.orders[no].status == Pending && b.orders[no].provider == PROVIDER_EPAY
      && o == b.orders[no].(payMethod := o.payMethod, status := Success)
    case Crediting(user, quota) =>
      && no in b.orders && no in b.moved && no !in b.lost && !Credited(b, no)
      && b.orders[no].status == Success && b.orders[no].provider == PROVIDER_EPAY
      && b.orders[no].user == user && Worth(unit, b.orders[no]) == quota
    case _ => true
  }

  ghost predicate CreditOk(unit: real, b: Books, c: Credit) {
    c.no in b.moved && c.no in b.orders && b.orders[c.no].user == c.user && c.quota == Worth(unit, b.orders[c.no])
  }

  ghost predicate BooksOk(unit: real, b: Books) {
    && (forall no | no in b.moved :: no in b.orders)
    && (forall no | no in b.moved && no !in b.abandoned :: b.orders[no].status == Success)
    && (forall no | no in b.abandoned :: no in b.orders && b.orders[no].status == Failed)
    && b.lost <= b.moved
    && (forall k | 0 <= k < |b.credits| :: CreditOk(unit, b, b.credits[k]) && b.credits[k].no !in b.lost)
    && (forall j, k | 0 <= j < k < |b.credits| :: b.credits[j].no != b.credits[k].no)
  }

  /** Thread `i` is about to credit `no`. */
  ghost predicate InFlight(w: World, i: nat, no: TradeNo)
    requires |w.lock.threads| == |w.jobs|
  {
    i < |w.jobs| && w.jobs[i].Crediting? && w.lock.threads[i].Inside? && w.lock.threads[i].no == no
  }

  ghost predicate Inv(w: World) {
    && OrderLock.Inv(w.lock)
    && |w.jobs| == |w.lock.threads|
    && BooksOk(w.unit, w.books)
    && (forall i | 0 <= i < |w.jobs| :: w.jobs[i].Saving? || w.jobs[i].Crediting? ==> w.lock.threads[i].Inside?)
    && (forall i | 0 <= i < |w.jobs| ::
          w.lock.threads[i].Inside? ==> JobOk(w.unit, w.books, w.lock.threads[i].no, w.jobs[i]))
    && (forall no | no in w.books.moved ::
          no in w.books.lost || Credited(w.books, no) || exists i :: InFlight(w, i, no))
  }

  lemma StartInv(n: nat, unit: real, orders: map<TradeNo, Order>, balance: map<nat, int>)
    ensures Inv(Start(n, unit, orders, balance))
  {
    Lock.InitInv(n);
  }

  // ---------- A job step ----------

  /** The books differ at most in the entries of one trade number. */
  ghost predicate SameElsewhere(b: Books, b': Books, no: TradeNo) {
    && (forall m | m != no :: m in b.orders <==> m in b'.orders)
    && (forall m | m != no && m in b.orders :: b'.orders[m] == b.orders[m])
    && (forall m | m != no :: m in b.moved <==> m in b'.moved)
    && (forall m | m != no :: m in b.lost <==> m in b'.lost)
    && b'.abandoned == b.abandoned
    && (forall m | m != no :: Credited(b, m) <==> Credited(b', m))
  }

  lemma PayCredits(b: Books, no: TradeNo, user: nat, quota: int, m: TradeNo)
    ensures Credited(Pay(b, no, user, quota), m) <==> m == no || Credited(b, m)
  {
    var b' := Pay(b, no, user, quota);
    assert b'.credits[|b.credits|].no == no;
    if Credited(b, m) {
      var k :| 0 <= k < |b.credits| && b.credits[k].no == m;
      assert b'.credits[k].no == m;
    }
  }

  lemma PayOk(unit: real, b: Books, no: TradeNo, user: nat, quota: int)
    requires BooksOk(unit, b) && no in b.moved && no !in b.lost && !Credited(b, no)
    requires b.orders[no].user == user && quota == Worth(unit, b.orders[no])
    ensures BooksOk(unit, Pay(b, no, user, quota))
  {
    var b' := Pay(b, no, user, quota);
    forall k | 0 <= k < |b'.credits|
      ensures CreditOk(unit, b', b'.credits[k]) && b'.credits[k].no !in b'.lost
    {
      if k < |b.credits| { assert CreditOk(unit, b, b.credits[k]); }
    }
  }

  lemma MarkOk(unit: real, b: Books, no: TradeNo, o: Order)
    requires BooksOk(unit, b) && no in b.orders && no !in b.moved && no !in b.abandoned && o.status == Success
    ensures BooksOk(unit, MarkPaid(b, no, o)) && !Credited(b, no) && !Credited(MarkPaid(b, no, o), no)
  {
    var b' := MarkPaid(b, no, o);
    forall k | 0 <= k < |b.credits|
      ensures CreditOk(unit, b', b'.credits[k]) && b.credits[k].no != no
    {
      assert CreditOk(unit, b, b.credits[k]);
    }
  }

  /** What one database access of the owner of `no` keeps and changes. */
  ghost predicate StepOk(unit: real, b: Books, no: TradeNo, job: Job, b': Books, job': Job) {
    && BooksOk(unit, b') && JobOk(unit, b', no, job') && SameElsewhere(b, b', no) && !job'.Fresh?
    && (no in b.lost ==> no in b'.lost) && (Credited(b, no) ==> Credited(b', no))
    && (no in b'.moved ==>
          job'.Crediting? || no in b'.lost || Credited(b', no) || (no in b.moved && !job.Crediting?))
  }

  lemma PaySame(b: Books, no: TradeNo, user: nat, quota: int)
    ensures SameElsewhere(b, Pay(b, no, user, quota), no) && Credited(Pay(b, no, user, quota), no)
  {
    forall m ensures Credited(Pay(b, no, user, quota), m) <==> m == no || Credited(b, m) {
      PayCredits(b, no, user, quota, m);
    }
  }

  lemma SavingOk(unit: real, b: Books, no: TradeNo, o: Order, db: Db)
    requires BooksOk(unit, b) && JobOk(unit, b, no, Saving(o))
    ensures var (b', job') := JobStep(unit, b, no, Saving(o), db); StepOk(unit, b, no, Saving(o), b', job')
  {
    MarkOk(unit, b, no, o);
  }

  lemma CreditingOk(unit: real, b: Books, no: TradeNo, user: nat, quota: int, db: Db)
    requires BooksOk(unit, b) && JobOk(unit, b, no, Crediting(user, quota))
    ensures var (b', job') := JobStep(unit, b, no, Crediting(user, quota), db);
            StepOk(unit, b, no, Crediting(user, quota), b', job')
  {
    if quota >= 0 && db != Fails {
      PayOk(unit, b, no, user, quota);
      PaySame(b, no, user, quota);
    }
  }

  /** What manual completion does to the books if it is carried out. */
  function Completed(unit: real, b: Books, no: TradeNo): Books
    requires no in b.orders
  {
    var o := b.orders[no].(status := Success);
    Pay(MarkPaid(b, no, o), no, o.user, Worth(unit, o))
  }

  lemma CompletedOk(unit: real, b: Books, no: TradeNo)
    requires BooksOk(unit, b) && no in b.orders && b.orders[no].status == Pending
    ensures StepOk(unit, b, no, Fresh(AdminComplete), Completed(unit, b, no), Done)
  {
    var o := b.orders[no].(status := Success);
    var marked := MarkPaid(b, no, o);
    MarkOk(unit, b, no, o);
    PayOk(unit, marked, no, o.user, Worth(unit, o));
    PaySame(marked, no, o.user, Worth(unit, o));
  }

  lemma AdminOk(unit: real, b: Books, no: TradeNo, db: Db)
    requires BooksOk(unit, b)
    ensures var (b', job') := JobStep(unit, b, no, Fresh(AdminComplete), db);
            StepOk(unit, b, no, Fresh(AdminComplete), b', job')
  {
    if db != Fails && no in b.orders && b.orders[no].status == Pending {
      CompletedOk(unit, b, no);
      assert Worth(unit, b.orders[no].(status := Success)) == Worth(unit, b.orders[no]);
    }
  }

  lemma JobStepOk(unit: real, b: Books, no: TradeNo, job: Job, db: Db)
    requires BooksOk(unit, b) && JobOk(unit, b, no, job)
    ensures var (b', job') := JobStep(unit, b, no, job, db); StepOk(unit, b, no, job, b', job')
  {
    match job
    case Saving(o) => SavingOk(unit, b, no, o, db);
    case Crediting(user, quota) => CreditingOk(unit, b, no, user, quota, db);
    case Fresh(AdminComplete) => AdminOk(unit, b, no, db);
    case _ =>
  }

  lemma JobOkElsewhere(unit: real, b: Books, b': Books, no: TradeNo, m: TradeNo, job: Job)
    requires SameElsewhere(b, b', no) && m != no && JobOk(unit, b, m, job)
    ensures JobOk(unit, b', m, job)
  {
  }

  // ---------- A step of the world keeps the invariant ----------

  /** Whoever else is in a critical section is in that of another number. */
  lemma OthersApart(w: World, i: nat, j: nat)
    requires Inv(w) && i < |w.jobs| && j < |w.jobs| && i != j && w.lock.threads[i].Inside? && w.lock.threads[j].Inside?
    ensures w.lock.threads[i].no != w.lock.threads[j].no
  {
    if w.lock.threads[i].no == w.lock.threads[j].no { Lock.ExclusiveInInv(w.lock, i, j, w.lock.threads[i].no); }
  }

  lemma WorkAccounts(w: World, w': World, i: nat, b: Books, job: Job, m: TradeNo)
    requires Inv(w) && i < |w.jobs| && w.lock.threads[i].Inside? && m in b.moved
    requires StepOk(w.unit, w.books, w.lock.threads[i].no, w.jobs[i], b, job)
    requires w' == w.(books := b, jobs := w.jobs[i := job])
    ensures m in b.lost || Credited(b, m) || exists j :: InFlight(w', j, m)
  {
    var no := w.lock.threads[i].no;
    if m == no && job.Crediting? {
      assert InFlight(w', i, m);
    } else if m in w.books.moved && m !in w.books.lost && !Credited(w.books, m) {
      var j :| InFlight(w, j, m);
      if j != i {
        OthersApart(w, i, j);
        assert InFlight(w', j, m);
      }
    }
  }

  lemma WorkKeepsInv(w: World, i: nat, db: Db)
    requires Inv(w) && i < |w.jobs| && w.lock.threads[i].Inside? && !w.jobs[i].Done?
    ensures var (b, job) := JobStep(w.unit, w.books, w.lock.threads[i].no, w.jobs[i], db);
            Inv(w.(books := b, jobs := w.jobs[i := job]))
  {
    var no := w.lock.threads[i].no;
    var (b, job) := JobStep(w.unit, w.books, no, w.jobs[i], db);
    JobStepOk(w.unit, w.books, no, w.jobs[i], db);
    KeepsInv(w, i, b, job);
  }

  lemma KeepsInv(w: World, i: nat, b: Books, job: Job)
    requires Inv(w) && i < |w.jobs| && w.lock.threads[i].Inside?
    requires StepOk(w.unit, w.books, w.lock.threads[i].no, w.jobs[i], b, job)
    ensures Inv(w.(books := b, jobs := w.jobs[i := job]))
  {
    var w' := w.(books := b, jobs := w.jobs[i := job]);
    forall j | 0 <= j < |w'.jobs| && w'.lock.threads[j].Inside?
      ensures JobOk(w.unit, b, w.lock.threads[j].no, w'.jobs[j])
    {
      if j != i {
        OthersApart(w, i, j);
        JobOkElsewhere(w.unit, w.books, b, w.lock.threads[i].no, w.lock.threads[j].no, w.jobs[j]);
      }
    }
    forall m | m in b.moved
      ensures m in b.lost || Credited(b, m) || exists j :: InFlight(w', j, m)
    {
      WorkAccounts(w, w', i, b, job, m);
    }
  }

  /** A credit in flight stays in flight while the lock moves. */
  lemma StillAccounted(w: World, w': World, m: TradeNo)
    requires |w.lock.threads| == |w.jobs| == |w'.jobs| == |w'.lock.threads| && w'.books == w.books
    requires m in w.books.lost || Credited(w.books, m) || exists j :: InFlight(w, j, m)
    requires forall j | 0 <= j < |w.jobs| && w.jobs[j].Crediting? && w.lock.threads[j].Inside? ::
               w'.jobs[j] == w.jobs[j] && w'.lock.threads[j] == w.lock.threads[j]
    ensures m in w'.books.lost || Credited(w'.books, m) || exists j :: InFlight(w', j, m)
  {
    if j :| InFlight(w, j, m) {
      assert InFlight(w', j, m);
    }
  }

  /** The world after a step of the lock; a thread that arrives brings a task. */
  function LockMoved(w: World, i: nat, arrive: TradeNo, task: Task): World
    requires i < |w.jobs| == |w.lock.threads| && ObjsInRange(w.lock) && Step(w.lock, i, arrive).Ran?
  {
    w.(lock := Step(w.lock, i, arrive).state,
       jobs := if w.lock.threads[i].Idle? then w.jobs[i := Fresh(task)] else w.jobs)
  }

  lemma LockKeepsJobs(w: World, i: nat, arrive: TradeNo, task: Task)
    requires Inv(w) && i < |w.jobs| && (w.lock.threads[i].Inside? ==> w.jobs[i].Done?)
    requires Step(w.lock, i, arrive).Ran?
    ensures var w' := LockMoved(w, i, arrive, task);
            && |w'.lock.threads| == |w'.jobs|
            && (forall j | 0 <= j < |w'.jobs| ::
                  w'.jobs[j].Saving? || w'.jobs[j].Crediting? ==> w'.lock.threads[j].Inside?)
            && (forall j | 0 <= j < |w'.jobs| ::
                  w'.lock.threads[j].Inside? ==> JobOk(w.unit, w.books, w'.lock.threads[j].no, w'.jobs[j]))
            && (forall j | 0 <= j < |w.jobs| && w.jobs[j].Crediting? && w.lock.threads[j].Inside? ::
                  w'.jobs[j] == w.jobs[j] && w'.lock.threads[j] == w.lock.threads[j])
  {
    Lock.StepFrame(w.lock, i, arrive);
  }

  lemma LockKeepsInv(w: World, i: nat, arrive: TradeNo, task: Task)
    requires Inv(w) && i < |w.jobs| && (w.lock.threads[i].Inside? ==> w.jobs[i].Done?)
    requires Step(w.lock, i, arrive).Ran?
    ensures Inv(LockMoved(w, i, arrive, task))
  {
    var w' := LockMoved(w, i, arrive, task);
    Lock.StepInv(w.lock, i, arrive);
    LockKeepsJobs(w, i, arrive, task);
    forall m | m in w.books.moved
      ensures m in w.books.lost || Credited(w.books, m) || exists j :: InFlight(w', j, m)
    {
      StillAccounted(w, w', m);
    }
  }

  lemma CreateKeepsInv(w: World, no: TradeNo, order: Order)
    requires Inv(w) && no !in w.books.orders && order.status == Pending
    ensures Inv(w.(books := w.books.(orders := w.books.orders[no := order])))
  {
    var b' := w.books.(orders := w.books.orders[no := order]);
    var w' := w.(books := b');
    forall k | 0 <= k < |b'.credits| ensures CreditOk(w.unit, b', b'.credits[k]) {
      assert CreditOk(w.unit, w.books, w.books.credits[k]);
    }
    forall m ensures Credited(b', m) <==> Credited(w.books, m) {
    }
    forall i | 0 <= i < |w'.jobs| && w'.lock.threads[i].Inside?
      ensures JobOk(w.unit, b', w'.lock.threads[i].no, w'.jobs[i])
    {
      assert JobOk(w.unit, w.books, w.lock.threads[i].no, w.jobs[i]);
    }
    forall m | m in b'.moved
      ensures m in b'.lost || Credited(b', m) || exists j :: InFlight(w', j, m)
    {
      if m !in w.books.lost && !Credited(w.books, m) {
        var j :| InFlight(w, j, m);
        assert InFlight(w', j, m);
      }
    }
  }

  lemma AbandonKeepsInv(w: World, no: TradeNo)
    requires Inv(w) && no in w.books.orders && w.books.orders[no].provider in PROVIDERS_WAFFO
    ensures Inv(w.(books := Abandoned(w.books, no)))
  {
    var b' := Abandoned(w.books, no);
    var w' := w.(books := b');
    forall k | 0 <= k < |b'.credits| ensures CreditOk(w.unit, b', b'.credits[k]) {
      assert CreditOk(w.unit, w.books, w.books.credits[k]);
    }
    forall m ensures Credited(b', m) <==> Credited(w.books, m) {
    }
    forall i | 0 <= i < |w'.jobs| && w'.lock.threads[i].Inside?
      ensures JobOk(w.unit, b', w'.lock.threads[i].no, w'.jobs[i])
    {
      assert JobOk(w.unit, w.books, w.lock.threads[i].no, w.jobs[i]);
    }
    forall m | m in b'.moved
      ensures m in b'.lost || Credited(b', m) || exists j :: InFlight(w', j, m)
    {
      if m !in w.books.lost && !Credited(w.books, m) {
        var j :| InFlight(w, j, m);
        assert InFlight(w', j, m);
      }
    }
  }

  lemma NextInv(w: World, c: Choice)
    requires Inv(w)
    ensures Inv(Next(w, c))
  {
    match c
    case Create(no, order) =>
      if no !in w.books.orders && order.status == Pending { CreateKeepsInv(w, no, order); }
    case Abandon(no) =>
      if no in w.books.orders && w.books.orders[no].provider in PROVIDERS_WAFFO { AbandonKeepsInv(w, no); }
    case Move(i, arrive, task, db) =>
      if Runnable(w, i) {
        if w.lock.threads[i].Inside? && !w.jobs[i].Done? {
          WorkKeepsInv(w, i, db);
        } else if Step(w.lock, i, arrive).Ran? {
          LockKeepsInv(w, i, arrive, task);
        }
      }
  }

  lemma {:induction false} ExecInv(w: World, schedule: seq<Choice>)
    requires Inv(w)
    ensures Inv(Exec(w, schedule))
  {
    if schedule == [] {
    } else {
      ExecInv(w, schedule[..|schedule| - 1]);
      NextInv(Exec(w, schedule[..|schedule| - 1]), schedule[|schedule| - 1]);
    }
  }

  // ---------- Exactly once ----------

  /** Whatever the interleaving and whichever database accesses fail: no trade number is credited
      twice, a credited order has moved from pending to success, where it stays unless it is marked
      as failed without the lock, and it is credited with what it is worth, to its user. */
  lemma CreditedAtMostOnce(n: nat, unit: real, orders: map<TradeNo, Order>, balance: map<nat, int>,
                           schedule: seq<Choice>)
    ensures var b := Exec(Start(n, unit, orders, balance), schedule).books;
            && (forall j, k | 0 <= j < k < |b.credits| :: b.credits[j].no != b.credits[k].no)
            && (forall k | 0 <= k < |b.credits| ::
                  && b.credits[k].no in b.moved && b.credits[k].no in b.orders
                  && b.orders[b.credits[k].no].status == (if b.credits[k].no in b.abandoned then Failed else Success)
                  && b.orders[b.credits[k].no].user == b.credits[k].user
                  && b.credits[k].quota == Worth(unit, b.orders[b.credits[k].no]))
  {
    var w := Start(n, unit, orders, balance);
    StartInv(n, unit, orders, balance);
    ExecInv(w, schedule);
    UnitFixed(w, schedule);
    var b := Exec(w, schedule).books;
    assert forall k | 0 <= k < |b.credits| :: CreditOk(unit, b, b.credits[k]);
  }

  lemma {:induction false} UnitFixed(w: World, schedule: seq<Choice>)
    ensures Exec(w, schedule).unit == w.unit
  {
    if schedule == [] {
    } else {
      UnitFixed(w, schedule[..|schedule| - 1]);
    }
  }

  /** The status of an order as compared with the start: `moved` is exactly the set of orders that
      went from pending (or were inserted) to success during the run, and an abandoned order has
      failed. */
  ghost predicate History(start: map<TradeNo, Order>, b: Books) {
    && (forall no | no in start :: no in b.orders)
    && (forall no | no in b.orders ::
          && (no in b.moved ==> (no in start ==> start[no].status == Pending))
          && b.orders[no].status ==
               (if no in b.abandoned then Failed else if no in b.moved then Success
                else if no in start then start[no].status else Pending))
  }

  lemma {:induction false} ExecHistory(w: World, schedule: seq<Choice>)
    requires Inv(w) && w.books.moved == w.books.abandoned == {}
    requires History(w.books.orders, w.books)
    ensures History(w.books.orders, Exec(w, schedule).books)
  {
    if schedule == [] {
    } else {
      var before := Exec(w, schedule[..|schedule| - 1]);
      ExecInv(w, schedule[..|schedule| - 1]);
      ExecHistory(w, schedule[..|schedule| - 1]);
      NextHistory(w.books.orders, before, schedule[|schedule| - 1]);
    }
  }

  lemma JobHistory(start: map<TradeNo, Order>, unit: real, b: Books, no: TradeNo, job: Job, db: Db)
    requires JobOk(unit, b, no, job) && History(start, b)
    ensures History(start, JobStep(unit, b, no, job, db).0)
  {
  }

  lemma NextHistory(start: map<TradeNo, Order>, w: World, c: Choice)
    requires Inv(w) && History(start, w.books)
    ensures History(start, Next(w, c).books)
  {
    if c.Move? && Runnable(w, c.thread) && w.lock.threads[c.thread].Inside? {
      JobHistory(start, w.unit, w.books, w.lock.threads[c.thread].no, w.jobs[c.thread], c.db);
    }
  }

  /** The orders that moved and were not marked as failed without the lock are exactly those that are
      successful now and were pending at the start, or did not exist; the marked ones have failed,
      and every other order has the status it had. */
  lemma MovedMeansPaidNow(n: nat, unit: real, orders: map<TradeNo, Order>, balance: map<nat, int>,
                          schedule: seq<Choice>, no: TradeNo)
    ensures var b := Exec(Start(n, unit, orders, balance), schedule).books;
            && (no in b.moved && no !in b.abandoned
                <==> no in b.orders && b.orders[no].status == Success
                     && (no in orders ==> orders[no].status == Pending))
            && (no in b.moved ==> (no in orders ==> orders[no].status == Pending))
            && (no in b.abandoned ==> no in b.orders && b.orders[no].status == Failed)
            && (no in orders && no !in b.moved && no !in b.abandoned ==>
                  no in b.orders && b.orders[no].status == orders[no].status)
  {
    StartInv(n, unit, orders, balance);
    ExecHistory(Start(n, unit, orders, balance), schedule);
    ExecInv(Start(n, unit, orders, balance), schedule);
  }

  /** An order that an administrator completes while its payment is being set up: the user keeps the
      credit, and the order ends as failed. */
  lemma PaidOrderFails(unit: real, b: Books, no: TradeNo)
    requires no in b.orders && b.orders[no].status == Pending && Worth(unit, b.orders[no]) > 0
    ensures var paid := JobStep(unit, b, no, Fresh(AdminComplete), Works).0;
            && no in paid.orders
            && paid.credits == b.credits + [Credit(no, b.orders[no].user, Worth(unit, b.orders[no]))]
            && Abandoned(paid, no).credits == paid.credits && Abandoned(paid, no).orders[no].status == Failed
  {
    assert Worth(unit, b.orders[no].(status := Success)) == Worth(unit, b.orders[no]);
  }

  /** Every balance has grown by exactly the credits recorded for its user. */
  lemma {:induction false} BalancesAreCredits(n: nat, unit: real, orders: map<TradeNo, Order>, balance: map<nat, int>,
                                              schedule: seq<Choice>, user: nat)
    ensures var b := Exec(Start(n, unit, orders, balance), schedule).books;
            BalanceOf(b, user) == (if user in balance then balance[user] else 0) + CreditSum(b.credits, user)
  {
    var w := Start(n, unit, orders, balance);
    if schedule == [] {
    } else {
      BalancesAreCredits(n, unit, orders, balance, schedule[..|schedule| - 1], user);
      var before := Exec(w, schedule[..|schedule| - 1]);
      var c := schedule[|schedule| - 1];
      NextBalance(before, c, user);
    }
  }

  lemma NextBalance(w: World, c: Choice, user: nat)
    ensures BalanceOf(Next(w, c).books, user) - CreditSum(Next(w, c).books.credits, user)
         == BalanceOf(w.books, user) - CreditSum(w.books.credits, user)
  {
    var b, b' := w.books, Next(w, c).books;
    if b'.credits != b.credits {
      assert b'.credits[..|b'.credits| - 1] == b.credits;
    }
  }

  // ---------- No failure, nothing lost ----------

  /** Amount times quota per unit is not negative and fits into 63 bits. */
  predicate Payable(unit: real, amount: int) {
    0.0 <= Scaled(unit, amount) < TWO63 as real
  }

  lemma PayableIsExact(unit: real, amount: int)
    requires Payable(unit, amount)
    ensures IntPart(Scaled(unit, amount)) == Trunc(Scaled(unit, amount)) >= 0
  {
    IntPartInRange(Scaled(unit, amount));
  }

  lemma IntPartInRange(x: real)
    requires 0.0 <= x < TWO63 as real
    ensures IntPart(x) == Trunc(x) >= 0
  {
    TruncIsTowardZero(x);
  }

  ghost predicate Healthy(unit: real, c: Choice) {
    (c.Move? ==> c.db == Works) && (c.Create? ==> Payable(unit, c.order.amount))
  }

  ghost predicate NothingLost(w: World) {
    && w.books.lost == {}
    && (forall no | no in w.books.orders :: Payable(w.unit, w.books.orders[no].amount))
    && (forall i | 0 <= i < |w.jobs| ::
          && (w.jobs[i].Crediting? ==> w.jobs[i].quota >= 0)
          && (w.jobs[i].Saving? ==> Payable(w.unit, w.jobs[i].order.amount)))
  }

  lemma NextNothingLost(w: World, c: Choice)
    requires NothingLost(w) && Healthy(w.unit, c)
    ensures NothingLost(Next(w, c))
  {
    if c.Move? && c.thread < |w.jobs| && w.jobs[c.thread].Saving? {
      PayableIsExact(w.unit, w.jobs[c.thread].order.amount);
    }
  }

  lemma {:induction false} ExecNothingLost(w: World, schedule: seq<Choice>)
    requires NothingLost(w) && forall k | 0 <= k < |schedule| :: Healthy(w.unit, schedule[k])
    ensures NothingLost(Exec(w, schedule))
  {
    if schedule == [] {
    } else {
      ExecNothingLost(w, schedule[..|schedule| - 1]);
      UnitFixed(w, schedule[..|schedule| - 1]);
      NextNothingLost(Exec(w, schedule[..|schedule| - 1]), schedule[|schedule| - 1]);
    }
  }

  // ---------- The total ----------

  ghost function SumWorth(unit: real, orders: map<TradeNo, Order>, nos: set<TradeNo>): int
    requires nos <= orders.Keys
  {
    if nos == {} then 0 else var no :| no in nos; Worth(unit, orders[no]) + SumWorth(unit, orders, nos - {no})
  }

  lemma {:induction false} SumWorthRemove(unit: real, orders: map<TradeNo, Order>, nos: set<TradeNo>, no: TradeNo)
    requires nos <= orders.Keys && no in nos
    ensures SumWorth(unit, orders, nos) == Worth(unit, orders[no]) + SumWorth(unit, orders, nos - {no})
  {
    var first :| first in nos
                 && SumWorth(unit, orders, nos) == Worth(unit, orders[first]) + SumWorth(unit, orders, nos - {first});
    if first != no {
      SumWorthRemove(unit, orders, nos - {first}, no);
      SumWorthRemove(unit, orders, nos - {no}, first);
      assert nos - {first} - {no} == nos - {no} - {first};
    }
  }

  ghost function Numbers(credits: seq<Credit>): set<TradeNo> {
    set k | 0 <= k < |credits| :: credits[k].no
  }

  lemma {:induction false} TotalIsSum(unit: real, orders: map<TradeNo, Order>, credits: seq<Credit>)
    requires forall j, k | 0 <= j < k < |credits| :: credits[j].no != credits[k].no
    requires forall k | 0 <= k < |credits| ::
               credits[k].no in orders && credits[k].quota == Worth(unit, orders[credits[k].no])
    ensures Numbers(credits) <= orders.Keys && Total(credits) == SumWorth(unit, orders, Numbers(credits))
  {
    if credits == [] {
    } else {
      var rest, last := credits[..|credits| - 1], credits[|credits| - 1];
      TotalIsSum(unit, orders, rest);
      assert Numbers(credits) - {last.no} == Numbers(rest) by {
        forall no | no in Numbers(rest) ensures no in Numbers(credits) - {last.no} {
          var k :| 0 <= k < |rest| && rest[k].no == no;
          assert credits[k].no == no;
        }
      }
      assert last.no in Numbers(credits);
      SumWorthRemove(unit, orders, Numbers(credits), last.no);
    }
  }

  lemma TotalInInv(w: World)
    requires Inv(w) && Lock.AllIdle(w.lock)
    ensures var b := w.books;
            && b.moved <= b.orders.Keys
            && Numbers(b.credits) == b.moved - b.lost
            && Total(b.credits) == SumWorth(w.unit, b.orders, b.moved - b.lost)
  {
    var b := w.books;
    forall no | no in b.moved - b.lost ensures no in Numbers(b.credits) {
      assert !exists i :: InFlight(w, i, no);
      assert Credited(b, no);
    }
    assert forall k | 0 <= k < |b.credits| :: CreditOk(w.unit, b, b.credits[k]);
    assert Numbers(b.credits) == b.moved - b.lost;
    TotalIsSum(w.unit, b.orders, b.credits);
  }

  /** Once every thread is idle, each order that moved to success was either credited or lost its
      credit to a failing write, never both, and the credits add up to the worth of the former. */
  lemma TotalCredit(n: nat, unit: real, orders: map<TradeNo, Order>, balance: map<nat, int>, schedule: seq<Choice>)
    requires Lock.AllIdle(Exec(Start(n, unit, orders, balance), schedule).lock)
    ensures var b := Exec(Start(n, unit, orders, balance), schedule).books;
            && b.moved <= b.orders.Keys
            && Numbers(b.credits) == b.moved - b.lost
            && Total(b.credits) == SumWorth(unit, b.orders, b.moved - b.lost)
  {
    var w := Start(n, unit, orders, balance);
    StartInv(n, unit, orders, balance);
    ExecInv(w, schedule);
    UnitFixed(w, schedule);
    TotalInInv(Exec(w, schedule));
  }

  lemma TotalNoLoss(w: World)
    requires Inv(w) && Lock.AllIdle(w.lock) && w.books.lost == {}
    ensures AllCredited(w.unit, w.books)
  {
    TotalInInv(w);
    assert w.books.moved - w.books.lost == w.books.moved;
  }

  lemma HealthyEnd(n: nat, unit: real, orders: map<TradeNo, Order>, balance: map<nat, int>, schedule: seq<Choice>)
    requires forall no | no in orders :: Payable(unit, orders[no].amount)
    requires forall k | 0 <= k < |schedule| :: Healthy(unit, schedule[k])
    ensures var w := Exec(Start(n, unit, orders, balance), schedule); Inv(w) && NothingLost(w) && w.unit == unit
  {
    var w := Start(n, unit, orders, balance);
    StartInv(n, unit, orders, balance);
    ExecInv(w, schedule);
    UnitFixed(w, schedule);
    ExecNothingLost(w, schedule);
  }

  /** All moved orders are credited, and the credits add up to their worth. */
  ghost predicate AllCredited(unit: real, b: Books) {
    && b.moved <= b.orders.Keys && Numbers(b.credits) == b.moved
    && Total(b.credits) == SumWorth(unit, b.orders, b.moved)
  }

  /** An order is worth amount times quota per unit, truncated; but for Stripe the worth is taken from
      the money paid. */
  ghost predicate PlainWorths(unit: real, b: Books) {
    forall no | no in b.orders && b.orders[no].provider != PROVIDER_STRIPE ::
      Worth(unit, b.orders[no]) == Trunc(Scaled(unit, b.orders[no].amount))
  }

  /** If no database access fails and no product overflows, no credit is lost: at rest the credits add
      up to the worth of all the orders that moved to success. */
  lemma TotalCreditWithoutFailures(n: nat, unit: real, orders: map<TradeNo, Order>, balance: map<nat, int>,
                                   schedule: seq<Choice>)
    requires forall no | no in orders :: Payable(unit, orders[no].amount)
    requires forall k | 0 <= k < |schedule| :: Healthy(unit, schedule[k])
    requires Lock.AllIdle(Exec(Start(n, unit, orders, balance), schedule).lock)
    ensures AllCredited(unit, Exec(Start(n, unit, orders, balance), schedule).books)
    ensures PlainWorths(unit, Exec(Start(n, unit, orders, balance), schedule).books)
  {
    HealthyEnd(n, unit, orders, balance, schedule);
    TotalNoLoss(Exec(Start(n, unit, orders, balance), schedule));
    ExactWorths(unit, Exec(Start(n, unit, orders, balance), schedule));
  }

  lemma ExactWorths(unit: real, w: World)
    requires NothingLost(w) && w.unit == unit
    ensures PlainWorths(unit, w.books)
  {
    forall no | no in w.books.orders && w.books.orders[no].provider != PROVIDER_STRIPE
      ensures Worth(unit, w.books.orders[no]) == Trunc(Scaled(unit, w.books.orders[no].amount))
    {
      PayableIsExact(unit, w.books.orders[no].amount);
    }
  }
}
