/** Billing of a video task while it is polled (controller/task_video.go, lines 65-293).

    The user was charged `quota` when the task was submitted.  A successful task is charged again
    by its tokens, up or down; a failed one is refunded. */
module TaskBilling {
  import opened Options
  import opened QuotaMath
  import opened TaskStatus

  /** The stored task, and the balance of its user. */
  datatype Account = Account(status: Status, quota: int, balance: int)

  /** What the response and the settings say about billing by tokens (lines 153-182). */
  datatype Usage = Usage(
    tokens: int,
    model: Option<string>,       // the string under "model" in the response, if it can be decoded
    modelRatio: Option<real>,    // a ratio, if one is configured for the model
    taskGroup: string,
    userGroup: Option<string>,   // the group of the user, if the user can be read
    groupRatio: real,
    specialRatio: Option<real>)  // the ratio of the group for itself, if configured

  /** The quota by tokens, if the task is to be charged by tokens. */
  function ByTokens(u: Usage): Option<int> {
    var group := if u.taskGroup != "" then u.taskGroup else if u.userGroup.Some? then u.userGroup.value else "";
    if u.tokens > 0 && u.model.Some? && u.model.value != "" && u.modelRatio.Some? && u.modelRatio.value > 0.0
       && group != "" then
      var ratio := if u.specialRatio.Some? then u.specialRatio.value else u.groupRatio;
      Some(FromFloat(Fin(u.tokens as real * u.modelRatio.value * ratio)).quota)
    else None
  }

  /** One poll: the outcome of the request, and whether the database accepts the adjustment of the
      balance, the task, and the refund. */
  datatype Poll = Poll(result: Result, usage: Usage, adjusted: bool, saved: bool, refunded: bool)

  /** `Empty` is a response without a status, which counts as a failure; `Unreadable` a request or
      response that failed; `Strange` an unknown status. */
  datatype Result = Unreadable | Strange | Empty | Reported(status: Status)

  /** The status a result stands for; none if the poll ends with an error. */
  function StatusOf(r: Result): Option<Status> {
    match r
    case Empty => Some(Failure)
    case Reported(s) => if s in {Submitted, Queued, InProgress, Success, Failure} then Some(s) else None
    case _ => None
  }

  /** The quota after billing by tokens. */
  function Rebilled(a: Account, p: Poll): int {
    if StatusOf(p.result) == Some(Success) && ByTokens(p.usage).Some? && p.adjusted then ByTokens(p.usage).value
    else a.quota
  }

  /** Whether the failure refund is paid: the task was not failed before, it is stored as failed, and
      the balance accepts it, which it does not for a negative quota. */
  predicate Refunds(a: Account, p: Poll) {
    StatusOf(p.result) == Some(Failure) && a.quota != 0 && a.status != Failure && p.saved && p.refunded && a.quota >= 0
  }

  function After(a: Account, p: Poll): Account {
    var status := StatusOf(p.result);
    if status.None? then a
    else
      var balance := a.balance - (Rebilled(a, p) - a.quota) + (if Refunds(a, p) then a.quota else 0);
      if p.saved then Account(status.value, Rebilled(a, p), balance) else a.(balance := balance)
  }

  /** `updateVideoSingleTask` on the stored task. */
  class VideoTask {
    var status: Status
    var quota: int
    var balance: int

    ghost function Value(): Account
      reads this
    {
      Account(status, quota, balance)
    }

    constructor (status: Status, quota: int, balance: int)
      ensures Value() == Account(status, quota, balance)
    {
      this.status, this.quota, this.balance := status, quota, balance;
    }

    method IncreaseBalance(amount: int, accepted: bool) returns (ok: bool)
      modifies this`balance
      ensures ok == (amount >= 0 && accepted)
      ensures balance == old(balance) + (if ok then amount else 0)
    {
      if amount < 0 || !accepted { return false; }
      balance := balance + amount;
      return true;
    }

    method DecreaseBalance(amount: int, accepted: bool) returns (ok: bool)
      modifies this`balance
      ensures ok == (amount >= 0 && accepted)
      ensures balance == old(balance) - (if ok then amount else 0)
    {
      if amount < 0 || !accepted { return false; }
      balance := balance - amount;
      return true;
    }

    method UpdateSingleTask(p: Poll) returns (ok: bool)
      modifies this
      ensures Value() == After(old(Value()), p)
      ensures ok <==> StatusOf(p.result).Some?
    {
      if p.result.Unreadable? { return false; }
      var reported := if p.result.Empty? then Some(Failure) else if p.result.Strange? then None
                      else Some(p.result.status);
      var shouldRefund := false;
      var before := quota;
      var preStatus := status;
      var newQuota := quota;
      if reported.None? { return false; }
      match reported.value {
        case Submitted =>
        case Queued =>
        case InProgress =>
        case Success =>
          var actual := ByTokens(p.usage);
          if actual.Some? {
            var delta := actual.value - newQuota;
            if delta > 0 {
              var paid := DecreaseBalance(delta, p.adjusted);
              if paid { newQuota := actual.value; }
            } else if delta < 0 {
              var paid := IncreaseBalance(-delta, p.adjusted);
              if paid { newQuota := actual.value; }
            }
          }
        case Failure =>
          if before != 0 && preStatus != Failure { shouldRefund := true; }
        case _ => return false;
      }
      if p.saved {
        status := reported.value;
        quota := newQuota;
      } else {
        shouldRefund := false;
      }
      if shouldRefund {
        var _ := IncreaseBalance(before, p.refunded);
      }
      return true;
    }
  }

  // ---------- The ledger ----------

  /** What the task holds of the user's quota: nothing once it has failed. */
  function Held(a: Account): int {
    if a.status == Failure then 0 else a.quota
  }

  function Worth(a: Account): int {
    a.balance + Held(a)
  }

  /** A failed task is stored as not failed. */
  predicate Revives(a: Account, p: Poll) {
    p.saved && a.status == Failure && StatusOf(p.result).Some? && StatusOf(p.result) != Some(Failure)
  }

  /** A task is stored as failed, but its charge is not refunded. */
  predicate LosesRefund(a: Account, p: Poll) {
    p.saved && a.status != Failure && StatusOf(p.result) == Some(Failure) && !(p.refunded && a.quota >= 0)
  }

  /** The balance was adjusted by tokens, but the task was not stored. */
  predicate LosesAdjustment(a: Account, p: Poll) {
    !p.saved && Rebilled(a, p) != a.quota
  }

  /** Exactly what a poll adds to the worth of an account. */
  function Drift(a: Account, p: Poll): int {
    if Revives(a, p) then a.quota
    else if LosesRefund(a, p) then -a.quota
    else if LosesAdjustment(a, p) then a.quota - Rebilled(a, p)
    else 0
  }

  /** For every account and poll, whatever fails: balance plus held charge changes by the drift, which
      is zero except in the three cases named. */
  lemma PollLedger(a: Account, p: Poll)
    ensures Worth(After(a, p)) == Worth(a) + Drift(a, p)
  {
  }

  /** A stored success is billed by its tokens: the task carries the new charge, and the user pays the
      difference. */
  lemma SuccessIsSettled(a: Account, p: Poll)
    requires p.result == Reported(Success) && p.saved && p.adjusted
    ensures ByTokens(p.usage).Some? ==>
              After(a, p) == Account(Success, ByTokens(p.usage).value, a.balance + a.quota - ByTokens(p.usage).value)
    ensures ByTokens(p.usage).None? ==> After(a, p) == Account(Success, a.quota, a.balance)
  {
  }

  /** A failure, or a response without a status, that is stored for the first time gives the user the
      charge back. */
  lemma FailureIsRefunded(a: Account, p: Poll)
    requires (p.result == Empty || p.result == Reported(Failure)) && p.saved && p.refunded && a.quota >= 0
    ensures After(a, p) == Account(Failure, a.quota, a.balance + if a.status == Failure then 0 else a.quota)
  {
  }

  /** Progress is stored and changes nothing else; what cannot be read or is unknown changes nothing. */
  lemma ProgressIsStored(a: Account, p: Poll)
    ensures p.result in {Reported(Submitted), Reported(Queued), Reported(InProgress)} ==>
              After(a, p) == if p.saved then a.(status := p.result.status) else a
    ensures p.result in {Unreadable, Strange, Reported(NotStart), Reported(Unknown)} ==> After(a, p) == a
  {
  }

  /** So a poll conserves the worth of an account with a charge exactly if none of the three
      happens. */
  lemma ConservedExactly(a: Account, p: Poll)
    ensures Worth(After(a, p)) == Worth(a)
       <==> !LosesAdjustment(a, p) && (a.quota == 0 || (!Revives(a, p) && !LosesRefund(a, p)))
  {
    PollLedger(a, p);
  }

  // ---------- Every sequence of polls ----------

  function AfterAll(a: Account, ps: seq<Poll>): Account {
    if ps == [] then a else After(AfterAll(a, ps[..|ps| - 1]), ps[|ps| - 1])
  }

  function TotalDrift(a: Account, ps: seq<Poll>): int {
    if ps == [] then 0
    else TotalDrift(a, ps[..|ps| - 1]) + Drift(AfterAll(a, ps[..|ps| - 1]), ps[|ps| - 1])
  }

  lemma {:induction false} RunLedger(a: Account, ps: seq<Poll>)
    ensures Worth(AfterAll(a, ps)) == Worth(a) + TotalDrift(a, ps)
  {
    if ps == [] {
    } else {
      RunLedger(a, ps[..|ps| - 1]);
      PollLedger(AfterAll(a, ps[..|ps| - 1]), ps[|ps| - 1]);
    }
  }

  predicate RatiosOk(u: Usage) {
    u.groupRatio >= 0.0 && (u.specialRatio.Some? ==> u.specialRatio.value >= 0.0)
  }

  /** A task is charged by tokens exactly if there are any, the model has a positive ratio and there is a
      group.  The charge is the product of tokens, model ratio and group ratio, the special one if
      there is one, without its fraction and kept within 32 bits. */
  lemma ByTokensExactly(u: Usage)
    ensures ByTokens(u).Some?
       <==> && u.tokens > 0 && u.model.Some? && u.model.value != ""
            && u.modelRatio.Some? && u.modelRatio.value > 0.0
            && (u.taskGroup != "" || (u.userGroup.Some? && u.userGroup.value != ""))
    ensures ByTokens(u).Some? ==>
              var ratio := if u.specialRatio.Some? then u.specialRatio.value else u.groupRatio;
              IsCharge(u.tokens as real * u.modelRatio.value * ratio, ByTokens(u).value)
  {
    if ByTokens(u).Some? {
      var ratio := if u.specialRatio.Some? then u.specialRatio.value else u.groupRatio;
      ChargeOf(u.tokens as real * u.modelRatio.value * ratio);
    }
  }

  /** The integer part of `x`, or the nearer end of the range of 32-bit integers. */
  predicate IsCharge(x: real, quota: int) {
    if x >= 2147483647.0 then quota == 2147483647
    else if x <= -2147483648.0 then quota == -2147483648
    else if x >= 0.0 then quota as real <= x < quota as real + 1.0
    else quota as real - 1.0 < x <= quota as real
  }

  lemma ChargeOf(x: real)
    ensures IsCharge(x, FromFloat(Fin(x)).quota)
  {
  }

  /** A charge by tokens is never negative when the ratios are not. */
  lemma ByTokensNotNegative(u: Usage)
    requires RatiosOk(u)
    ensures ByTokens(u).Some? ==> ByTokens(u).value >= 0
  {
    if ByTokens(u).Some? {
      var ratio := if u.specialRatio.Some? then u.specialRatio.value else u.groupRatio;
      ChargeIsNoCredit(u.tokens, u.modelRatio.value, ratio);
    }
  }

  /** Storing always succeeds, group ratios are not negative, and a failed task stays failed. */
  ghost predicate Orderly(a: Account, ps: seq<Poll>) {
    forall k | 0 <= k < |ps| ::
      && ps[k].saved
      && RatiosOk(ps[k].usage)
      && !Revives(AfterAll(a, ps[..k]), ps[k])
  }

  lemma OrderlyPrefix(a: Account, ps: seq<Poll>)
    requires Orderly(a, ps) && ps != []
    ensures Orderly(a, ps[..|ps| - 1]) && !Revives(AfterAll(a, ps[..|ps| - 1]), ps[|ps| - 1])
            && RatiosOk(ps[|ps| - 1].usage)
  {
    forall k | 0 <= k < |ps| - 1 ensures ps[..|ps| - 1][..k] == ps[..k] {}
  }

  ghost predicate Accepted(ps: seq<Poll>) {
    forall k | 0 <= k < |ps| :: ps[k].adjusted && ps[k].refunded
  }

  /** Over every such sequence of polls, balance plus held charge never increases, and it is
      constant if no change of the balance fails. */
  lemma {:induction false} NeverIncreases(a: Account, ps: seq<Poll>)
    requires a.quota >= 0 && Orderly(a, ps)
    ensures AfterAll(a, ps).quota >= 0
    ensures Worth(AfterAll(a, ps)) <= Worth(a)
    ensures Accepted(ps) ==> Worth(AfterAll(a, ps)) == Worth(a)
  {
    if ps == [] {
    } else {
      OrderlyPrefix(a, ps);
      NeverIncreases(a, ps[..|ps| - 1]);
      ByTokensNotNegative(ps[|ps| - 1].usage);
      PollLedger(AfterAll(a, ps[..|ps| - 1]), ps[|ps| - 1]);
    }
  }

  function RefundCount(a: Account, ps: seq<Poll>): nat {
    if ps == [] then 0
    else RefundCount(a, ps[..|ps| - 1]) + (if Refunds(AfterAll(a, ps[..|ps| - 1]), ps[|ps| - 1]) then 1 else 0)
  }

  /** A failure is refunded at most once. */
  lemma {:induction false} RefundedAtMostOnce(a: Account, ps: seq<Poll>)
    requires Orderly(a, ps)
    ensures RefundCount(a, ps) <= 1
    ensures RefundCount(a, ps) == 1 ==> AfterAll(a, ps).status == Failure
  {
    if ps == [] {
    } else {
      OrderlyPrefix(a, ps);
      RefundedAtMostOnce(a, ps[..|ps| - 1]);
    }
  }

  /** Replaying a response of success changes nothing once it has been billed. */
  lemma ReplayIsNoOp(a: Account, p: Poll)
    requires p.result == Reported(Success) && p.saved && p.adjusted
    ensures After(After(a, p), p) == After(a, p)
  {
  }

  /** If the task is not stored, the same response charges the difference again and again. */
  lemma UnsavedReplayChargesAgain(a: Account, p: Poll)
    requires p.result == Reported(Success) && !p.saved
    ensures After(After(a, p), p).balance == a.balance - 2 * (Rebilled(a, p) - a.quota)
  {
  }
}
