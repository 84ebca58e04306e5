/** That a top-up request does what it is there for: an order that was paid ends up successful and
    credited, with the amount it was bought for (controller/topup.go, lines 372-407; model/topup.go,
    lines 320-382). */
module TopUpProgress {
  import opened OrderLock
  import opened QuotaMath
  import opened Bytes
  import opened TopUp
  import Proofs = TopUpProofs
  import Lock = OrderLockProofs

  /** What an order is paid for, before it is made an integer. */
  function Price(unit: real, o: Order): real {
    if o.provider == "stripe" then o.money * unit else o.amount as real * unit
  }

  /** `decimal.IntPart` gives the signed 64-bit number that is congruent to the truncated one. */
  lemma IntPartWraps(x: real)
    ensures -TWO63 <= IntPart(x) < TWO63
    ensures (IntPart(x) - Trunc(x)) % TWO64 == 0
  {
    var t := Trunc(x);
    assert t == (t / TWO64) * TWO64 + t % TWO64;
    assert IntPart(x) - t == (if t % TWO64 < TWO63 then -(t / TWO64) else -(t / TWO64) - 1) * TWO64;
  }

  lemma PriceIsProduct(unit: real, o: Order)
    ensures Price(unit, o) == if o.provider == PROVIDER_STRIPE then Times(o.money, unit) else Scaled(unit, o.amount)
  {
    assert PROVIDER_STRIPE == "stripe";
  }

  /** The worth of an order is the integer part of its price: the price without its fraction, if that is
      not negative and fits into 63 bits. */
  lemma WorthIsPrice(unit: real, o: Order)
    ensures Worth(unit, o) == IntPart(Price(unit, o))
    ensures 0.0 <= Price(unit, o) < TWO63 as real ==> Worth(unit, o) == Price(unit, o).Floor
  {
    PriceIsProduct(unit, o);
    if 0.0 <= Price(unit, o) < TWO63 as real { Proofs.IntPartInRange(Price(unit, o)); }
  }

  // ---------- One request, undisturbed ----------

  function Access(w: World, i: nat, db: Db): World {
    Next(w, Move(i, "", AdminComplete, db))
  }

  /** The world once thread `i` has accepted the order and tried to save it. */
  function AfterSaving(w: World, i: nat, update: Db): World {
    Access(Access(w, i, Works), i, update)
  }

  /** The callback has the order to itself and finds it payable. */
  predicate Accepts(b: Books, no: TradeNo, read: Db) {
    read == Works && no in b.orders && b.orders[no].provider == "epay" && b.orders[no].status == Pending
  }

  /** A request that is done with its job only unlocks. */
  lemma DoneKeepsBooks(w: World, i: nat, db: Db)
    requires i < |w.jobs| && w.jobs[i] == Done
    ensures Access(w, i, db).books == w.books
  {
  }

  /** If the order cannot be read, is not there, belongs to another provider or is not pending, or if it
      cannot be saved, the request is done and the books are as before. */
  lemma CallbackRejects(w: World, i: nat, payMethod: string, read: Db)
    requires Runnable(w, i) && w.lock.threads[i].Inside? && w.jobs[i] == Fresh(Callback(payMethod))
    ensures !Accepts(w.books, w.lock.threads[i].no, read) ==> Access(w, i, read) == w.(jobs := w.jobs[i := Done])
    ensures Accepts(w.books, w.lock.threads[i].no, read) ==> AfterSaving(w, i, Fails) == w.(jobs := w.jobs[i := Done])
  {
    assert PROVIDER_EPAY == "epay";
    if Accepts(w.books, w.lock.threads[i].no, read) {
      OrderIsRead(w, i, payMethod);
      var saving := Access(w, i, Works);
      assert saving.jobs[i := Done] == w.jobs[i := Done];
    }
  }

  lemma OrderIsRead(w: World, i: nat, payMethod: string)
    requires Runnable(w, i) && w.lock.threads[i].Inside? && w.jobs[i] == Fresh(Callback(payMethod))
    requires Accepts(w.books, w.lock.threads[i].no, Works)
    ensures var o := w.books.orders[w.lock.threads[i].no].(payMethod := payMethod, status := Success);
            Access(w, i, Works) == w.(jobs := w.jobs[i := Saving(o)])
  {
    assert PROVIDER_EPAY == "epay";
  }

  lemma OrderIsSaved(w: World, i: nat, o: Order, update: Db)
    requires Runnable(w, i) && w.lock.threads[i].Inside? && w.jobs[i] == Saving(o) && update != Fails
    ensures var no := w.lock.threads[i].no;
            var saved := MarkPaid(w.books, no, o);
            Access(w, i, update) ==
            if update == Works then
              w.(books := saved, jobs := w.jobs[i := Crediting(o.user, IntPart(Scaled(w.unit, o.amount)))])
            else w.(books := saved.(lost := w.books.lost + {no}), jobs := w.jobs[i := Done])
  {
  }

  lemma UserIsCredited(w: World, i: nat, user: nat, quota: int, increase: Db)
    requires Runnable(w, i) && w.lock.threads[i].Inside? && w.jobs[i] == Crediting(user, quota)
    ensures var no := w.lock.threads[i].no;
            Access(w, i, increase).books ==
            if quota < 0 || increase == Fails then w.books.(lost := w.books.lost + {no})
            else Pay(w.books, no, user, quota)
  {
  }

  /** What the callback leaves behind once it has accepted the order and saved it: the order is
      successful and carries the actual payment method, and its user has one more credit.  If one of the
      two writes reports an error, the credit is lost instead. */
  predicate Paid(b: Books, no: TradeNo, payMethod: string, quota: int, reported: bool, b': Books)
    requires no in b.orders
  {
    var o := b.orders[no];
    && b'.orders == b.orders[no := o.(payMethod := payMethod, status := Success)]
    && b'.moved == b.moved + {no} && b'.abandoned == b.abandoned
    && b'.lost == (if reported then b.lost + {no} else b.lost)
    && b'.credits == (if reported then b.credits else b.credits + [Credit(no, o.user, quota)])
    && b'.balance == (if reported then b.balance else b.balance[o.user := BalanceOf(b, o.user) + quota])
  }

  lemma PaidFromSaved(b: Books, no: TradeNo, payMethod: string, quota: int)
    requires no in b.orders
    ensures var o := b.orders[no].(payMethod := payMethod, status := Success);
            && Paid(b, no, payMethod, quota, true, MarkPaid(b, no, o).(lost := b.lost + {no}))
            && Paid(b, no, payMethod, quota, false, Pay(MarkPaid(b, no, o), no, o.user, quota))
  {
  }

  lemma CallbackSaves(w: World, i: nat, payMethod: string, update: Db)
    requires Runnable(w, i) && w.lock.threads[i].Inside? && w.jobs[i] == Fresh(Callback(payMethod))
    requires Accepts(w.books, w.lock.threads[i].no, Works) && update != Fails
    ensures var no := w.lock.threads[i].no;
            var o := w.books.orders[no].(payMethod := payMethod, status := Success);
            var saved := MarkPaid(w.books, no, o);
            AfterSaving(w, i, update) ==
            if update == Works then
              w.(books := saved, jobs := w.jobs[i := Crediting(o.user, IntPart(Scaled(w.unit, o.amount)))])
            else w.(books := saved.(lost := w.books.lost + {no}), jobs := w.jobs[i := Done])
  {
    var o := w.books.orders[w.lock.threads[i].no].(payMethod := payMethod, status := Success);
    OrderIsRead(w, i, payMethod);
    OrderIsSaved(Access(w, i, Works), i, o, update);
  }

  /** The callback credits the integer part of the price; one that is negative is refused. */
  lemma CallbackPays(w: World, i: nat, payMethod: string, update: Db, increase: Db)
    requires Runnable(w, i) && w.lock.threads[i].Inside? && w.jobs[i] == Fresh(Callback(payMethod))
    requires Accepts(w.books, w.lock.threads[i].no, Works) && update != Fails
    ensures var no := w.lock.threads[i].no;
            var price := Price(w.unit, w.books.orders[no]);
            var quota := IntPart(price);
            && Paid(w.books, no, payMethod, quota, update != Works || increase == Fails || quota < 0,
                    Access(AfterSaving(w, i, update), i, increase).books)
            && (0.0 <= price < TWO63 as real ==> quota == price.Floor)
  {
    var no := w.lock.threads[i].no;
    var o := w.books.orders[no];
    var quota := IntPart(Scaled(w.unit, o.amount));
    PriceIsProduct(w.unit, o);
    WorthIsPrice(w.unit, o);
    CallbackSaves(w, i, payMethod, update);
    PaidFromSaved(w.books, no, payMethod, quota);
    if update == Works {
      UserIsCredited(AfterSaving(w, i, update), i, o.user, quota, increase);
    } else {
      DoneKeepsBooks(AfterSaving(w, i, update), i, increase);
    }
  }

  /** Manual completion, in one transaction: a pending order whose price has a positive integer part
      becomes successful and is credited; otherwise nothing changes. */
  lemma CompletionPays(w: World, i: nat, db: Db)
    requires Runnable(w, i) && w.lock.threads[i].Inside? && w.jobs[i] == Fresh(AdminComplete)
    ensures var b, no := w.books, w.lock.threads[i].no;
            var b' := Access(w, i, db).books;
            if db != Fails && no in b.orders && b.orders[no].status == Pending
               && IntPart(Price(w.unit, b.orders[no])) > 0 then
              var o := b.orders[no];
              var quota := IntPart(Price(w.unit, o));
              && b'.orders == b.orders[no := o.(status := Success)] && b'.moved == b.moved + {no}
              && b'.lost == b.lost && b'.abandoned == b.abandoned
              && b'.credits == b.credits + [Credit(no, o.user, quota)]
              && b'.balance == b.balance[o.user := BalanceOf(b, o.user) + quota]
            else b' == b
  {
    var no := w.lock.threads[i].no;
    if no in w.books.orders {
      WorthIsPrice(w.unit, w.books.orders[no]);
      assert Worth(w.unit, w.books.orders[no].(status := Success)) == Worth(w.unit, w.books.orders[no]);
    }
  }

  // ---------- Every request, in every interleaving ----------

  /** The request, once it gets to work, is bound to pay a pending order. */
  predicate Due(unit: real, o: Order, task: Task) {
    match task
    case Callback(_) => o.provider == "epay"
    case AdminComplete => IntPart(Price(unit, o)) > 0
  }

  /** On its way to the critical section, or inside. */
  predicate Before(pc: Pc, no: TradeNo) {
    (pc.Arriving? || pc.Looking? || pc.Storing? || pc.Counting? || pc.Departing? || pc.Waiting? || pc.Inside?)
    && pc.no == no
  }

  predicate SameOrder(o: Order, o': Order) {
    o' == o.(payMethod := o'.payMethod, status := o'.status)
  }

  predicate Settled(b: Books, no: TradeNo) {
    no in b.orders && (no in b.moved || no in b.abandoned)
  }

  lemma SamePrice(unit: real, o: Order, o': Order)
    requires SameOrder(o, o')
    ensures Price(unit, o) == Price(unit, o')
  {
    PriceIsProduct(unit, o);
    PriceIsProduct(unit, o');
  }

  /** The order has been paid or abandoned, or thread `i` is still going to pay it. */
  predicate Obliged(w: World, i: nat, no: TradeNo, o: Order, task: Task) {
    && i < |w.jobs| == |w.lock.threads|
    && no in w.books.orders && SameOrder(o, w.books.orders[no])
    && (no in w.books.abandoned ==> o.provider in {"waffo", "waffo_pancake"})
    && (Settled(w.books, no)
        || (&& w.books.orders[no].status == Pending && Before(w.lock.threads[i], no)
            && (w.jobs[i] == Fresh(task) || (w.lock.threads[i].Inside? && w.jobs[i].Saving?))))
  }

  /** A database access of any thread settles orders, changes no other field of an order than the
      payment method and the status, and leaves what it does not settle. */
  lemma AccessKeeps(unit: real, b: Books, no: TradeNo, job: Job, db: Db, m: TradeNo)
    requires Proofs.JobOk(unit, b, no, job) && m in b.orders
    ensures var b' := JobStep(unit, b, no, job, db).0;
            && m in b'.orders && SameOrder(b.orders[m], b'.orders[m]) && b'.abandoned == b.abandoned
            && b.moved <= b'.moved && (m in b'.moved || b'.orders[m] == b.orders[m])
  {
  }

  lemma OwnAccess(w: World, i: nat, no: TradeNo, o: Order, task: Task)
    requires Proofs.Inv(w) && Obliged(w, i, no, o, task) && Due(w.unit, o, task) && !Settled(w.books, no)
    requires w.lock.threads[i].Inside? && !w.jobs[i].Done?
    ensures Obliged(Access(w, i, Works), i, no, o, task)
  {
    assert PROVIDER_EPAY == "epay";
    if w.jobs[i].Saving? {
    } else if task.AdminComplete? {
      SamePrice(w.unit, o, w.books.orders[no]);
      WorthIsPrice(w.unit, w.books.orders[no]);
    }
  }

  lemma LockStepKeepsWay(w: World, j: nat, arrive: TradeNo, i: nat, no: TradeNo)
    requires Runnable(w, j) && i < |w.jobs| && Step(w.lock, j, arrive).Ran?
    requires Before(w.lock.threads[i], no) && (j == i ==> !w.lock.threads[i].Inside?)
    ensures Before(Step(w.lock, j, arrive).state.threads[i], no)
    ensures j != i ==> Step(w.lock, j, arrive).state.threads[i] == w.lock.threads[i]
  {
  }

  lemma MoveKeepsObliged(w: World, i: nat, no: TradeNo, o: Order, task: Task, c: Choice)
    requires Proofs.Inv(w) && Obliged(w, i, no, o, task) && Due(w.unit, o, task)
    requires c.Move? && c.db == Works && Runnable(w, c.thread)
    ensures Obliged(Next(w, c), i, no, o, task)
  {
    var j := c.thread;
    if w.lock.threads[j].Inside? && !w.jobs[j].Done? {
      AccessKeeps(w.unit, w.books, w.lock.threads[j].no, w.jobs[j], Works, no);
      if j == i && !Settled(w.books, no) {
        OwnAccess(w, i, no, o, task);
      }
    } else if !Settled(w.books, no) && Step(w.lock, j, c.arrive).Ran? {
      LockStepKeepsWay(w, j, c.arrive, i, no);
    }
  }

  lemma NextKeepsObliged(w: World, i: nat, no: TradeNo, o: Order, task: Task, c: Choice)
    requires Proofs.Inv(w) && Obliged(w, i, no, o, task) && Due(w.unit, o, task) && Proofs.Healthy(w.unit, c)
    ensures Obliged(Next(w, c), i, no, o, task)
  {
    if c.Move? && Runnable(w, c.thread) {
      MoveKeepsObliged(w, i, no, o, task, c);
    } else if c.Abandon? {
      assert PROVIDERS_WAFFO == {"waffo", "waffo_pancake"};
    }
  }

  /** A request for a pending order arrives at position `k` of the schedule. */
  predicate Arrives(start: World, schedule: seq<Choice>, k: nat)
  {
    && k < |schedule| && schedule[k].Move?
    && var w := Exec(start, schedule[..k]);
       var c := schedule[k];
       && Runnable(w, c.thread) && w.lock.threads[c.thread].Idle?
       && c.arrive in w.books.orders && w.books.orders[c.arrive].status == Pending
       && Due(w.unit, w.books.orders[c.arrive], c.task)
  }

  lemma {:induction false} StaysObliged(start: World, schedule: seq<Choice>, k: nat)
    requires Proofs.Inv(start) && Arrives(start, schedule, k)
    requires forall j | 0 <= j < |schedule| :: Proofs.Healthy(start.unit, schedule[j])
    ensures var o := Exec(start, schedule[..k]).books.orders[schedule[k].arrive];
            Obliged(Exec(start, schedule), schedule[k].thread, schedule[k].arrive, o, schedule[k].task)
  {
    var prefix, c := schedule[..|schedule| - 1], schedule[|schedule| - 1];
    Proofs.ExecInv(start, prefix);
    Proofs.UnitFixed(start, prefix);
    if k < |prefix| {
      assert prefix[..k] == schedule[..k];
      StaysObliged(start, prefix, k);
      Proofs.UnitFixed(start, schedule[..k]);
      NextKeepsObliged(Exec(start, prefix), schedule[k].thread, schedule[k].arrive,
                       Exec(start, schedule[..k]).books.orders[schedule[k].arrive], schedule[k].task, c);
    }
  }

  /** In every run in which no database access fails: a request for a pending order that it is bound to
      pay has, once its thread is idle again, found the order paid or paid it, unless the order is a
      Waffo order that was marked as failed meanwhile. */
  lemma RequestIsServed(n: nat, unit: real, orders: map<TradeNo, Order>, balance: map<nat, int>, schedule: seq<Choice>,
                        k: nat)
    requires forall j | 0 <= j < |schedule| :: Proofs.Healthy(unit, schedule[j])
    requires Arrives(Start(n, unit, orders, balance), schedule, k)
    requires var w := Exec(Start(n, unit, orders, balance), schedule);
             schedule[k].thread < |w.lock.threads| && w.lock.threads[schedule[k].thread].Idle?
    ensures var start, no := Start(n, unit, orders, balance), schedule[k].arrive;
            var o, b := Exec(start, schedule[..k]).books.orders[no], Exec(start, schedule).books;
            && Settled(b, no) && SameOrder(o, b.orders[no])
            && (o.provider !in {"waffo", "waffo_pancake"} ==> no in b.moved)
  {
    Proofs.StartInv(n, unit, orders, balance);
    StaysObliged(Start(n, unit, orders, balance), schedule, k);
  }

  lemma MovedIsCredited(w: World, no: TradeNo)
    requires Proofs.Inv(w) && Lock.AllIdle(w.lock) && w.books.lost == {} && no in w.books.moved
    ensures no in w.books.orders
    ensures Credit(no, w.books.orders[no].user, Worth(w.unit, w.books.orders[no])) in w.books.credits
  {
    assert !exists i :: Proofs.InFlight(w, i, no);
    var j :| 0 <= j < |w.books.credits| && w.books.credits[j].no == no;
    assert Proofs.CreditOk(w.unit, w.books, w.books.credits[j]);
  }

  /** The order `o` was paid for: its user has the credit and, unless it is a Waffo order that was
      marked as failed without the lock, it is successful. */
  predicate Honoured(unit: real, b: Books, no: TradeNo, o: Order) {
    && Settled(b, no)
    && (no in b.moved ==> Credit(no, o.user, IntPart(Price(unit, o))) in b.credits)
    && (o.provider !in {"waffo", "waffo_pancake"} ==> no in b.moved && b.orders[no].status == Success)
  }

  lemma ObligedAtRest(w: World, i: nat, no: TradeNo, o: Order, task: Task)
    requires Proofs.Inv(w) && Lock.AllIdle(w.lock) && Proofs.NothingLost(w)
    requires Obliged(w, i, no, o, task) && Due(w.unit, o, task)
    ensures Honoured(w.unit, w.books, no, o)
  {
    if no in w.books.moved {
      MovedIsCredited(w, no);
      SamePrice(w.unit, o, w.books.orders[no]);
      WorthIsPrice(w.unit, w.books.orders[no]);
    }
  }

  /** At rest the user of that order has been credited with what the order was bought for, exactly
      once (`CreditedAtMostOnce`). */
  lemma RequestIsCredited(n: nat, unit: real, orders: map<TradeNo, Order>, balance: map<nat, int>,
                          schedule: seq<Choice>, k: nat)
    requires forall no | no in orders :: Proofs.Payable(unit, orders[no].amount)
    requires forall j | 0 <= j < |schedule| :: Proofs.Healthy(unit, schedule[j])
    requires Arrives(Start(n, unit, orders, balance), schedule, k)
    requires Lock.AllIdle(Exec(Start(n, unit, orders, balance), schedule).lock)
    ensures var start, no := Start(n, unit, orders, balance), schedule[k].arrive;
            Honoured(unit, Exec(start, schedule).books, no, Exec(start, schedule[..k]).books.orders[no])
  {
    var start := Start(n, unit, orders, balance);
    Proofs.StartInv(n, unit, orders, balance);
    Proofs.UnitFixed(start, schedule[..k]);
    Proofs.HealthyEnd(n, unit, orders, balance, schedule);
    StaysObliged(start, schedule, k);
    ObligedAtRest(Exec(start, schedule), schedule[k].thread, schedule[k].arrive,
                  Exec(start, schedule[..k]).books.orders[schedule[k].arrive], schedule[k].task);
  }
}
