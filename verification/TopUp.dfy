/** Completing a top-up order under the order lock: the locked section of `EpayNotify`
    (controller/topup.go, lines 373-408) and of `AdminCompleteTopUp` (lines 495-512, whose
    transaction is `ManualCompleteTopUp` in model/topup.go), run by any number of threads on
    top of the transition system of OrderLock.dfy.

    The Waffo handlers mark an order whose payment cannot be set up as failed without taking the lock
    (controller/topup_waffo.go, lines 238-296, and topup_waffo_pancake.go, lines 403-407).

    Every database access is one step and is allowed to fail; a failing write may or may not
    have been applied. */
module TopUp {
  import opened OrderLock
  import opened QuotaMath
  import opened Bytes

  datatype Status = Pending | Success | Failed | Expired

  datatype Order = Order(user: nat, amount: int, money: real, provider: string, payMethod: string, status: Status)

  /** What a request wants to do once it has the lock. */
  datatype Task = Callback(payMethod: string) | AdminComplete

  /** How the database answers one access. */
  datatype Db = Works | Fails | FailsButApplied

  /** Where a request is inside its critical section. */
  datatype Job =
    | NoJob
    | Fresh(task: Task)                  // about to read the order
    | Saving(order: Order)               // 391: topUp.Update()
    | Crediting(user: nat, quota: int)   // 401: IncreaseUserQuota
    | Done

  datatype Credit = Credit(no: TradeNo, user: nat, quota: int)

  /** The database, together with the history the properties speak of: every credit in order,
      the orders that went from pending to success, those among them whose credit failed, and the
      orders that were marked as failed without the lock. */
  datatype Books = Books(
    orders: map<TradeNo, Order>,
    balance: map<nat, int>,
    credits: seq<Credit>,
    moved: set<TradeNo>,
    lost: set<TradeNo>,
    abandoned: set<TradeNo>)

  const PROVIDER_EPAY := "epay"
  const PROVIDER_STRIPE := "stripe"
  const PROVIDERS_WAFFO := {"waffo", "waffo_pancake"}

  /** `decimal.IntPart`: truncated, and reduced to 64 bits. */
  function IntPart(x: real): int {
    Signed(Trunc(x) % TWO64)
  }

  function Times(x: real, unit: real): real {
    x * unit
  }

  function Scaled(unit: real, amount: int): real {
    Times(amount as real, unit)
  }

  /** The credit an order is worth when a unit of money buys `unit` quota. */
  function Worth(unit: real, o: Order): int {
    if o.provider == PROVIDER_STRIPE then IntPart(Times(o.money, unit)) else IntPart(Scaled(unit, o.amount))
  }

  function BalanceOf(b: Books, user: nat): int {
    if user in b.balance then b.balance[user] else 0
  }

  function Pay(b: Books, no: TradeNo, user: nat, quota: int): Books {
    b.(balance := b.balance[user := BalanceOf(b, user) + quota],
       credits := b.credits + [Credit(no, user, quota)])
  }

  function MarkPaid(b: Books, no: TradeNo, o: Order): Books {
    b.(orders := b.orders[no := o], moved := b.moved + {no})
  }

  function Abandoned(b: Books, no: TradeNo): Books
    requires no in b.orders
  {
    b.(orders := b.orders[no := b.orders[no].(status := Failed)], abandoned := b.abandoned + {no})
  }

  /** One database access of the request that holds the lock of `no`. */
  function JobStep(unit: real, b: Books, no: TradeNo, job: Job, db: Db): (Books, Job) {
    match job
    case Fresh(Callback(payMethod)) =>
      if db != Works || no !in b.orders || b.orders[no].provider != PROVIDER_EPAY || b.orders[no].status != Pending then
        (b, Done)
      else
        (b, Saving(b.orders[no].(payMethod := payMethod, status := Success)))
    case Saving(o) =>
      (match db
       case Fails => (b, Done)
       case FailsButApplied => (MarkPaid(b, no, o).(lost := b.lost + {no}), Done)
       case Works => (MarkPaid(b, no, o), Crediting(o.user, IntPart(Scaled(unit, o.amount)))))
    case Crediting(user, quota) =>
      if quota < 0 || db == Fails then (b.(lost := b.lost + {no}), Done)
      else (Pay(b, no, user, quota), Done)
    case Fresh(AdminComplete) =>
      // one transaction: all or nothing
      if db == Fails || no !in b.orders || b.orders[no].status != Pending || Worth(unit, b.orders[no]) <= 0 then
        (b, Done)
      else
        var o := b.orders[no].(status := Success);
        (Pay(MarkPaid(b, no, o), no, o.user, Worth(unit, o)), Done)
    case _ => (b, Done)
  }

  datatype World = World(unit: real, lock: State, jobs: seq<Job>, books: Books)

  /** `Move`: thread `thread` runs one statement; if it is idle, it starts `task` on `arrive`.
      `Create`: a new pending order is inserted.  `Abandon`: a Waffo order is saved as failed. */
  datatype Choice =
    | Move(thread: nat, arrive: TradeNo, task: Task, db: Db)
    | Create(no: TradeNo, order: Order)
    | Abandon(no: TradeNo)

  function Start(n: nat, unit: real, orders: map<TradeNo, Order>, balance: map<nat, int>): World {
    World(unit, Init(n), seq(n, _ => NoJob), Books(orders, balance, [], {}, {}, {}))
  }

  predicate Runnable(w: World, i: nat) {
    i < |w.lock.threads| == |w.jobs| && ObjsInRange(w.lock)
  }

  /** A thread inside the critical section works off its job before it unlocks. */
  function MoveStep(w: World, i: nat, arrive: TradeNo, task: Task, db: Db): World
    requires Runnable(w, i)
  {
    var pc := w.lock.threads[i];
    if pc.Inside? && !w.jobs[i].Done? then
      var (b, job) := JobStep(w.unit, w.books, pc.no, w.jobs[i], db);
      w.(books := b, jobs := w.jobs[i := job])
    else
      match Step(w.lock, i, arrive)
      case Ran(l) => w.(lock := l, jobs := if pc.Idle? then w.jobs[i := Fresh(task)] else w.jobs)
      case _ => w
  }

  function Next(w: World, c: Choice): World {
    match c
    case Move(i, arrive, task, db) => if Runnable(w, i) then MoveStep(w, i, arrive, task, db) else w
    case Create(no, order) =>
      if no !in w.books.orders && order.status == Pending then
        w.(books := w.books.(orders := w.books.orders[no := order]))
      else w
    case Abandon(no) =>
      if no in w.books.orders && w.books.orders[no].provider in PROVIDERS_WAFFO then w.(books := Abandoned(w.books, no))
      else w
  }

  function Exec(w: World, schedule: seq<Choice>): World {
    if schedule == [] then w
    else Next(Exec(w, schedule[..|schedule| - 1]), schedule[|schedule| - 1])
  }

  // ---------- Reading the history ----------

  predicate Credited(b: Books, no: TradeNo) {
    exists k :: 0 <= k < |b.credits| && b.credits[k].no == no
  }

  function CreditSum(credits: seq<Credit>, user: nat): int {
    if credits == [] then 0
    else
      var last := credits[|credits| - 1];
      CreditSum(credits[..|credits| - 1], user) + (if last.user == user then last.quota else 0)
  }

  function Total(credits: seq<Credit>): int {
    if credits == [] then 0 else Total(credits[..|credits| - 1]) + credits[|credits| - 1].quota
  }
}
