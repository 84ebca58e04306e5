# A model of the gateway's stateful core, with proofs

This project models, in Dafny 4.11, the parts of the gateway whose correctness depends on state:
the order lock and exactly-once top-up, upstream model synchronisation, the in-memory rate limiter,
multi-key channels, price reconciliation, task billing, the Ogg/Opus page scanner, reusable request
bodies and verification codes. `dafny verify dfyconfig.toml` checks the whole project.

Concurrent code is a transition system: a `Step` function runs one statement of one thread, and a
schedule is the list of threads that move, so a lemma for all schedules holds for all interleavings
of any number of threads. Code that updates state in place is a class, each of whose methods is
proved against a function on values; the lemmas are about those functions and about every sequence
of them. Times, database outcomes, map orders and regular expressions are parameters. Floating-point
numbers are reals, except that quota conversions also know NaN and the infinities.

| files | subject |
|---|---|
| `OrderLock`, `OrderLockProofs` | `LockOrder` and `UnlockOrder` |
| `TopUp`, `TopUpProofs`, `TopUpProgress` | completing an order under the lock |
| `Text`, `ModelNames`, `UpstreamUpdate`, `UpstreamUpdateProofs` | detecting and applying upstream models |
| `RateLimit` | the sliding-window limiter and its cleanup |
| `MultiKey`, `MultiKeyProofs`, `MultiKeyCode`, `KeyPages`, `AppendKeys` | keys with sparse metadata |
| `PriceDifferences`, `PriceDifferencesProofs`, `PriceDifferencesCode`, `CheapestCandidate` | price reconciliation |
| `QuotaMath`, `TaskStatus`, `TaskBilling`, `TaskPolling`, `TaskPollingProgress` | quota conversion and task billing |
| `OpusScanner` | duration of an Ogg/Opus stream |
| `BodyStorage`, `BodyAccounting` | request bodies in memory and on disk |
| `Verification` | verification codes with lazy eviction |

## What the proofs found

- The limiter decides like one that forgets nothing if and only if every limit is at least one and no
  window outlasts the expiration by more than one second (`AdequateIsExact`); the comment at
  common/constants.go:220-221 asks that no window outlasts it at all.
- `delete_disabled_keys` on a channel whose keys are all automatically disabled deletes none and enables
  all: the empty key text is a zero value, which the database update skips
  (`AllDisabledAreEnabled`, `DeletesDisabledExactly`).
- A blank line in the input of a new channel is stored as an empty key. Deleting the key before it loses
  both, and the metadata of the following keys with them (`BlankLineLosesKey`, `ActionRefines`).
- A JSON array of keys pasted on one line is stored with size one but read as several keys; until the
  next save, actions treat only the first as there (`PastedArray`, `ActionRefines`).
- Appending to a key text that begins with a bracket but is no JSON array removes all keys it held
  (`BrokenArrayLosesKeys`).
- `delete_disabled_keys` drops the disable time and reason of enabled keys, `delete_key` keeps them; an
  automatic re-enable leaves them behind (`DeleteDisabledExact`, `ReenabledKeyIsUntidy`).
- Keys are stored one to a line; outside JSON arrays a list is read back exactly if no key contains a
  newline and the outer keys are not empty (`KeysReadBackExact`), and the actions on a channel are those
  on a plain list exactly as long as its lists are read back (`RunRefines`).
- A model whose name contains a comma is detected again right after it was added
  (`RedetectIffCommaFree`, and `CheckedIsFresh` for auto-sync); ignoring a model called "regex:..." adds a rule instead of a name
  (`RuleNameIsDetectedAgain`). `RedetectExactly` says for all names when this happens.
- Storages in memory and on disk differ on one operation: reading into an empty buffer at the end
  (`SameReplies`).
- A price of null, or the string "same", can be overlooked by the difference report (`NullIsOverlooked`,
  `SameIsOverlooked`); `OverlookedExactly` says when.
- Two writes of a video task do not bill. A poller that cannot reach the channel marks the task as failed
  without a comparison: a settled success can become a failure, and the charge is lost
  (`SuccessIsOverwritten`, `GoneChannelIsNotRefunded`). A fetch by the user stores what it sees by the
  compare-and-set of the pollers: a failure it sees first is never refunded
  (`FetchedFailureIsNotRefunded`), a refunded task can become successful (`RefundedSuccess`), and one that
  it puts back in progress is refunded again (`RefundedEveryTime`). Finality, billing and conservation
  hold exactly as far as neither happens (`FinishedIsFinal`, `BilledRightIff`, `ConservedIffHeld`).
- The Waffo handlers save an order as failed without the order lock: an order that was completed meanwhile
  keeps its credit and ends as failed (`PaidOrderFails`).
- The comparison with epsilon picks a nearly cheapest price only because the providers are sorted
  (`SelectsCheapest`, `UnsortedDrifts`).
- If a video task is billed by tokens but cannot be stored, the difference is charged again at every poll
  (`UnsavedReplayChargesAgain`). In controller/task_video.go only `UpdateVideoTaskAll` polls, and nothing in
  the repository calls it; the poller in service/task_polling.go is modelled as well, in `TaskPolling`.

## Model

| member | source | states |
|---|---|---|
| OrderLockProofs.StepInv | controller/topup.go:279-308 | every statement of either function, run by any thread in any state that satisfies the invariant, keeps it: exact reference counts, one holder per mutex, one mutex per number |
| OrderLockProofs.StepNotFatal | controller/topup.go:294-300 | no thread unlocks a mutex that is not locked |
| OrderLockProofs.DeleteUnused | controller/topup.go:302-307 | when an entry is deleted, no other thread refers to it |
| OrderLockProofs.ExecInv | controller/topup.go:268-308 | in every interleaving of any number of threads the process never aborts and the invariant holds |
| OrderLockProofs.MutualExclusion | controller/topup.go:268-308 | in every interleaving, two threads in the critical section of one trade number are the same thread |
| OrderLockProofs.OneMutexPerNumber | controller/topup.go:279-291 | all threads registered for a number refer to one mutex, whose count is their number, also across deletion and re-creation |
| OrderLockProofs.UnlockFindsItsMutex | controller/topup.go:294-300 | the unprotected lookup finds the very mutex the thread locked, so the early return is never taken |
| OrderLockProofs.NothingLeaks | controller/topup.go:268-308 | when every thread is idle, the map is empty and every mutex free |
| OrderLockProofs.SomeoneRuns | controller/topup.go:279-308 | while a thread is active, some active thread is not blocked |
| OrderLockProofs.EveryoneFinishes | controller/topup.go:279-308 | from every reachable state there is a continuation, in which only active threads move, after which all threads are idle |
| OrderLockProofs.WorkIsBounded | controller/topup.go:279-308 | however the active threads are scheduled, as long as nobody arrives, at most as many choices let a thread run as there is work left |
| OrderLockProofs.StuckMeansIdle | controller/topup.go:279-308 | if no active thread can run, every thread is idle; so every schedule that keeps choosing threads that can run ends idle |
| TopUpProofs.JobStepOk | controller/topup.go:376-407 | each database access in the critical section, failing or not, keeps the books consistent and touches only its own order |
| TopUpProofs.NextInv | controller/topup.go:373-408 | every step of the lock, of the callbacks and of the handlers that save a failure without the lock keeps the invariant |
| TopUpProofs.CreditedAtMostOnce | controller/topup.go:373-408 | over all interleavings and failures no trade number is credited twice, and only with its worth, to its user; the order is successful, or failed if it was saved so without the lock |
| TopUpProofs.MovedMeansPaidNow | controller/topup.go:385-391 | the orders recorded as moved, but for those saved as failed without the lock, are exactly those that are successful now and were pending at the start or inserted since; every order that neither moved nor was saved so has the status it had |
| TopUpProofs.PaidOrderFails | controller/topup_waffo.go:238-296 | an order that is completed by an administrator and then saved as failed without the lock keeps its credit |
| TopUpProofs.BalancesAreCredits | controller/topup.go:398-401 | every balance has grown by exactly the credits recorded for its user |
| TopUpProofs.TotalCredit | controller/topup.go:373-408 | at rest each moved order was either credited or lost its credit to a failing write, and the credits sum to the worth of the former |
| TopUpProofs.TotalCreditWithoutFailures | controller/topup.go:398-401 | at rest, with no failing access and products that are not negative and fit into 63 bits, the credits are those of the moved orders and sum to their worth: amount times quota per unit, truncated, or for Stripe orders the worth of the money paid |
| TopUpProofs.AdminOk | model/topup.go:320-390 | manual completion, in one transaction, keeps the same books |
| TopUpProgress.IntPartWraps | controller/topup.go:400 | the credited integer is the signed 64-bit number congruent to the truncated product |
| TopUpProgress.WorthIsPrice | model/topup.go:354-361 | the worth of an order is the 64-bit integer part of money times quota per unit for Stripe, of amount times quota per unit otherwise; the product without its fraction, if that is not negative and fits into 63 bits |
| TopUpProgress.CallbackRejects | controller/topup.go:376-395 | an order that cannot be read, is not there, belongs to another provider or is not pending, or cannot be saved, leaves the books as they were |
| TopUpProgress.CallbackPays | controller/topup.go:385-407 | a pending Epay order that is saved becomes successful with the payment method of the callback and is credited to its user with the integer part of amount times quota per unit; if that is negative or one of the two writes reports an error, the credit is recorded as lost instead; nothing else changes |
| TopUpProgress.CompletionPays | model/topup.go:335-382 | manual completion of a pending order whose price has a positive integer part makes it successful and credits that; otherwise nothing changes |
| TopUpProgress.RequestIsServed | controller/topup.go:372-408 | in every interleaving without failing accesses: once its thread is idle again, a callback for a pending Epay order, or a completion of a pending order whose price has a positive integer part, has left the order moved to success, unless it is a Waffo order saved as failed without the lock |
| TopUpProgress.RequestIsCredited | controller/topup.go:372-408 | at rest, if products are not negative and fit into 63 bits, the user of that order has been credited with the integer part of its price, and an order that is not of Waffo is successful |
| ModelNames.NormalizeClean | controller/channel_upstream_update.go:93-98 | normalized names are trimmed, non-empty and distinct |
| ModelNames.NormalizeMember | controller/channel_upstream_update.go:93-98 | a name is in the normalized list exactly if it is the trimmed form of an entry |
| ModelNames.Merge | controller/channel_upstream_update.go:100-114 | the loop with its seen set returns the base followed by the new names |
| ModelNames.SubtractOnClean | controller/channel_upstream_update.go:116-125 | on normalized lists, subtraction removes exactly the given names and keeps the order |
| ModelNames.IntersectOnClean | controller/channel_upstream_update.go:127-136 | intersection with a normalized list keeps exactly the allowed names |
| ModelNames.MergedOnClean | controller/channel_upstream_update.go:100-114 | on normalized lists, merging gives the base followed by the new names: the union, without duplicates |
| UpstreamUpdateCode.CollectPending | controller/channel_upstream_update.go:172-231 | the loops compute the missing and the stale models |
| UpstreamUpdateProofs.DetectExactly | controller/channel_upstream_update.go:172-231 | a detection finds exactly what the upstream lists and the channel does not, up to surrounding space, unless it is a mapping target or an entry of the ignore list names or matches it; and as stale what the channel lists and the upstream does not, unless it is a mapping source |
| UpstreamUpdateCode.Channel.CheckAndPersist | controller/channel_upstream_update.go:356-403 | what is stored and returned in each of the cases: too early, fetch failed, write failed, plain, auto-sync; the ignore list is never touched, and the time of the check is stored exactly if something is |
| UpstreamUpdateCode.Channel.Apply | controller/channel_upstream_update.go:802-850 | what applying a selection stores, with the time, and returns, and that a failed write stores and returns nothing |
| UpstreamUpdateProofs.ApplySelectedOnClean | controller/channel_upstream_update.go:138-143 | on normalized lists: what is removed and not added is dropped, what is added and not there is appended, order kept |
| UpstreamUpdateProofs.NextModelsShape | controller/channel_upstream_update.go:818-824 | after a detection, the new models are the old ones without the removed, followed by the added |
| UpstreamUpdateProofs.ReadModels | model/channel.go:289-294 | normalized names stored as comma-separated text are read back as what stands between their commas, normalized |
| UpstreamUpdateProofs.StoredModels | model/channel.go:289-294 | after a detection, the stored text is read back as the old models that stay followed by the names between the commas of the added ones; without commas, as the same list |
| UpstreamUpdateProofs.RedetectExactly | controller/channel_upstream_update.go:802-850 | after a detection, for every selection of whatever names: a new detection yields exactly the stored lists, as sequences, if and only if the pieces of added names are known models, added names with commas are hit by a new rule, and every uncovered model is treated right by the entries of the ignore list that stay or come |
| UpstreamUpdateProofs.StaleAfter | controller/channel_upstream_update.go:224-230 | a new detection finds the stored stale models if and only if whatever the added names are read back as is an old model that stays, an upstream model or a mapping source |
| UpstreamUpdateProofs.MissingAfter | controller/channel_upstream_update.go:203-222 | a new detection finds the stored additions if and only if added names with commas are hit by a new rule and every uncovered model is settled |
| UpstreamUpdateProofs.RedetectIffRecorded | controller/channel_upstream_update.go:830-833 | for added names without commas: the same if and only if, for every uncovered model, an entry that hits it stays where it was ignored, a rule-named one to be ignored is hit, and no new rule hits any other |
| UpstreamUpdateProofs.PlainNamesAreRecorded | controller/channel_upstream_update.go:830-833 | a selection of names that are not rules is recorded right for every model that is not added |
| UpstreamUpdateProofs.RedetectIffCommaFree | controller/channel_upstream_update.go:802-850 | for names that are not rules: a new detection yields exactly the stored lists if and only if no added name contains a comma |
| UpstreamUpdateProofs.CacheStaysFresh | controller/channel_upstream_update.go:356-403 | if no upstream name is a rule or contains a comma: from the first check on, over every sequence of checks, with or without auto-sync, and of selections, the cache equals what a detection would find |
| UpstreamUpdateProofs.ApplyingAllEmptiesDetection | controller/channel_upstream_update.go:903-908 | if no upstream name is a rule or contains a comma: applying everything that was detected makes the next detection empty |
| UpstreamUpdateProofs.AutoSyncIsDetectThenApply | controller/channel_upstream_update.go:380-397 | auto-sync stores the models, pending lists and time of a detection followed by applying all additions, counts them right, and leaves the ignore list as it was |
| UpstreamUpdateProofs.CheckedIsFresh | controller/channel_upstream_update.go:371-397 | for any row and names: after a check the cache is what a detection would find, with auto-sync if and only if no added name contains a comma |
| UpstreamUpdateProofs.RuleNameIsDetectedAgain | controller/channel_upstream_update.go:210-216 | an ignored model whose name is a rule that does not match it is detected again |
| UpstreamUpdateProofs.RegexZIsDetectedAgain | controller/channel_upstream_update.go:210-216 | a concrete such model: "regex:z", whenever the expression "z" does not match its name |
| UpstreamUpdateProofs.CommaNameIsDetectedAgain | controller/channel_upstream_update.go:826-828 | a concrete model with a comma is detected again after it was added |
| RateLimit.InMemoryRateLimiter.Request | common/rate-limit.go:45-70 | the answer and the new queue of the key; other keys untouched |
| RateLimit.InMemoryRateLimiter.ClearExpiredItems | common/rate-limit.go:28-42 | one pass removes exactly the expired queues |
| RateLimitProofs.Decision | common/rate-limit.go:51-69 | for a limit of at least one, a queue that tracks the log decides as the count of recent accepts does |
| RateLimitProofs.StepAgrees | common/rate-limit.go:28-70 | with adequate limits every request and cleanup keeps queue, log and answers in step |
| RateLimitProofs.ForgetsNothingThatMatters | common/rate-limit.go:28-70 | with adequate limits and a clock that does not go back, over every run of requests and cleanups the answers equal those of an unbounded log |
| RateLimitProofs.CleanupIsInvisible | common/rate-limit.go:28-42 | under the same conditions a run answers as it would without its cleanups |
| RateLimitProofs.NoWindowHoldsMore | common/rate-limit.go:45-70 | under the same conditions no half-open window of the duration holds more accepted requests of a key than the limit |
| RateLimitProofs.ShortExpirationFails | common/rate-limit.go:36-37 | with a running cleanup, for every window that outlasts the expiration by more than a second there is a run that is answered differently from the log |
| RateLimitProofs.AdequateIsExact | common/constants.go:220-221 | with a running cleanup, agreement over all runs holds if and only if limits are at least one and durations at most the expiration plus one second |
| MultiKeyProofs.WithoutKeyRecords | controller/channel.go:1775-1801 | the renumbering loop removes one record and leaves all others in order with their metadata |
| MultiKeyProofs.WithoutDisabledRecords | controller/channel.go:1839-1869 | the loop keeps exactly the records that are not automatically disabled, enabled ones without metadata |
| MultiKeyProofs.DeleteDisabledExact | controller/channel.go:1854-1866 | the renumbered maps show the filtered list if and only if no surviving enabled key had a disable time or reason |
| MultiKeyProofs.PlainKeysReadBack | model/channel.go:175-197 | keys that are not empty, contain no newline and do not begin with a bracket are read back from the text they are stored as |
| MultiKeyProofs.KeysReadBackExact | model/channel.go:194-196 | any keys are read back if and only if there are none, or their text is parsed as the JSON array of them, or it is no JSON array, none contains a newline and the outer ones are not empty |
| MultiKeyProofs.SavedRecords | model/channel.go:526-564 | saving shows any maps as they were given, with the keys of the new text or, if that is empty, of the old one, and leaves the size right |
| MultiKeyProofs.ActionRefines | controller/channel.go:1595-1898 | for every row, with any text, size and maps: each action, also the automatic ones, is the same action on a plain list of records if and only if the keys that it stores as a new text are read back and the stored size allows it |
| MultiKeyProofs.RunRefines | controller/channel.go:1595-1898 | from every row and over every sequence of actions the stored channel is the plain list after each of them if and only if each list of keys stored on the way is read back and each action is allowed by the stored size |
| MultiKeyProofs.FittingRunRefines | controller/channel.go:1595-1898 | from a row whose size is right the size stays right, and only the keys matter |
| MultiKeyProofs.SizeOfAction | model/channel.go:526-561 | a size that is right allows every action and stays right; a wrong one is put right by the first action that is saved, and left by the automatic ones |
| MultiKeyProofs.PlainRunRefines | controller/channel.go:1595-1898 | if the size is right and no key is empty, contains a newline or begins with a bracket, every sequence of actions is the same sequence on the plain list |
| MultiKeyProofs.IndicesAction | model/channel.go:553-561 | if the size is right and no map entry is without its key, an action whose keys are read back leaves none without its key |
| MultiKeyProofs.TidyAction | controller/channel.go:1595-1898 | if no enabled key has a disable time or reason, no action except the automatic enable leaves one that has |
| MultiKeyProofs.DeletesDisabledExactly | controller/channel.go:1879-1890 | for every row, deleting the disabled keys leaves exactly the others if and only if none is disabled, or some are left, they are read back and no enabled one of them has a disable time or reason |
| MultiKeyProofs.AllDisabledAreEnabled | model/channel.go:526-564 | if every key is automatically disabled, deleting the disabled keys deletes none and enables all |
| MultiKeyProofs.ReenabledKeyIsUntidy | model/channel.go:668-669 | a key disabled and enabled automatically keeps its disable time and reason |
| MultiKeyCode.MultiKeyChannel.GetKeyStatus | controller/channel.go:1481-1593 | the reply: the page of the filtered lines, which tell the records (StatusTellsRecords), bounds, totals and counts |
| MultiKeyCode.CollectStatus | controller/channel.go:1494-1542 | the loop lists every key and counts the three statuses |
| MultiKeyCode.FilterStatus | controller/channel.go:1544-1554 | the loop keeps exactly the keys of the wanted status |
| MultiKeyCode.CollectSurvivors | controller/channel.go:1831-1869 | the renumbering loop keeps the keys that are not automatically disabled and counts the others |
| MultiKeyCode.MultiKeyChannel.DisableKey | controller/channel.go:1595-1636 | the new row, and success exactly for a valid index and an accepted write |
| MultiKeyCode.MultiKeyChannel.EnableKey | controller/channel.go:1638-1678 | the new row with status, time and reason removed, and success exactly for a valid index and an accepted write |
| MultiKeyCode.MultiKeyChannel.EnableAllKeys | controller/channel.go:1680-1702 | the new row, success, and the reported count of status entries |
| MultiKeyCode.MultiKeyChannel.DisableAllKeys | controller/channel.go:1704-1749 | the new row; the count is the number of enabled keys, and the request is refused exactly if it is zero or the write fails |
| MultiKeyCode.MultiKeyChannel.DeleteKey | controller/channel.go:1751-1829 | the new row; refused for an invalid index, for the last key and for a failed write |
| MultiKeyCode.MultiKeyChannel.DeleteDisabledKeys | controller/channel.go:1831-1898 | the new row and the number of deleted keys; refused exactly if it is zero or the write fails |
| MultiKeyCode.MultiKeyChannel.HandleUpdate | model/channel.go:641-680 | the loop finds the first key with the text, and only its entries change |
| KeyPagesProofs.PagesAreTheList | controller/channel.go:1556-1577 | pages 1 to the last, concatenated, are the filtered list; a page beyond is served as the last, one below as the first; no page is empty unless the list is |
| KeyPagesProofs.CountsAddUp | controller/channel.go:1510-1518 | if every status is one of the three, their counts sum to the number of keys |
| KeyPagesProofs.MatchingCount | controller/channel.go:1544-1557 | the filtered total is the count of that status; without a filter nothing is dropped |
| KeyPagesProofs.StatusTellsRecords | controller/channel.go:1499-1542 | one line for each record of the channel, in order, with its status and, only if it is not enabled, its time and reason where there are any; a key of more than ten characters is shown by its first ten and an ellipsis |
| AppendKeys.CollectNewKeys | controller/channel.go:1010-1040 | the loops with their seen set return the new keys |
| AppendKeys.NewKeysAreNew | controller/channel.go:1021-1040 | new keys are lines, trimmed and in their order, distinct, non-empty and not there already, and no non-empty line is lost |
| AppendKeys.AppendRefines | controller/channel.go:978-1043 | for any text that is not a broken JSON array and maps that fit it: appending leaves the records alone and adds enabled ones without metadata if and only if the old keys with the new ones are read back, or nothing is appended to a single empty key |
| AppendKeys.BrokenArrayLosesKeys | controller/channel.go:982-991 | from a text that looks like a JSON array but is none, appending any key stores the new keys alone, and these are shown if and only if they are read back |
| AppendKeys.CreateKeys | controller/channel.go:632-641 | the loop keeps the lines that are not empty, trimmed |
| AppendKeys.CleanKeysByLine | controller/channel.go:632-641 | line by line and in order: an empty line gives no key, any other its trimmed form |
| AppendKeys.CreatedExact | controller/channel.go:632-641 | a new channel has one enabled key for each line that is not empty if and only if these keys are read back; its size is right if and only if as many keys are read as were stored, stated over the lines |
| AppendKeys.PastedArray | controller/channel.go:632-642 | a JSON array of several keys on one line is stored with size one and read as all of them; disabling all keys disables the first alone |
| AppendKeys.BlankLineLosesKey | controller/channel.go:633-638 | created from "a", a blank line and "b": with the third key disabled by hand, deleting the first leaves one key, "b", enabled |
| PriceDifferencesCode.CompareField | controller/ratio_sync.go:595-652 | the item of a model and field, and whether it is included |
| PriceDifferencesCode.FindLoud | controller/ratio_sync.go:656-665 | the channels with a difference somewhere |
| PriceDifferencesCode.PruneReport | controller/ratio_sync.go:667-693 | the report without quiet channels, empty items and empty models |
| PriceDifferencesCode.BuildDifferences | controller/ratio_sync.go:536-696 | the three passes together, for any order of the maps |
| PriceDifferencesProofs.ReportOfAnyValues | controller/ratio_sync.go:536-696 | for any values and distinct channel names: a model and field is listed exactly if an upstream disagrees about it and a channel that somewhere reports a differing value other than null and "same" reports here a differing value other than "same", or nothing where there is a local value |
| PriceDifferencesProofs.LoudAreDiffering | controller/ratio_sync.go:656-665 | for any values the channels that are kept are those that somewhere report a differing value other than null and "same" |
| PriceDifferencesProofs.OverlookedExactly | controller/ratio_sync.go:667-693 | a disagreement is overlooked exactly if no kept channel has anything to show there, so never if a channel reports there a differing value other than null and "same" |
| PriceDifferencesProofs.ReportIsExact | controller/ratio_sync.go:536-696 | if no value is null or "same": a model and field is listed exactly if it is one of the ten fields and some upstream reports a value where there is no local one, a number at least a billionth from the local number, another string, or a value of another kind |
| PriceDifferencesProofs.ItemIsExact | controller/ratio_sync.go:605-652 | under the same condition an item lists exactly the channels that differ somewhere, in both maps, with the right value, and as not confident exactly those that report, up to a billionth, a ratio of 37.5 and a completion ratio of 1 |
| PriceDifferencesProofs.NullIsOverlooked | controller/ratio_sync.go:660-662 | a null that differs is not reported |
| PriceDifferencesProofs.SameIsOverlooked | controller/ratio_sync.go:618-624 | the string "same" that differs is not reported |
| CheapestCandidateProofs.SortedIsUnique | controller/ratio_sync.go:915-919 | the sorted list of a set of names is unique, so map order does not matter |
| CheapestCandidateProofs.PickIsBest | controller/ratio_sync.go:881-943 | over ascending providers no non-zero price seen so far undercuts the current one by epsilon |
| CheapestCandidateProofs.ValidOffers | controller/ratio_sync.go:845-879 | an offer is valid exactly if it has an input price, neither input nor output is negative, and free input has free output; all prices are taken over except a negative one for cached input |
| CheapestCandidateProofs.SelectsCheapest | controller/ratio_sync.go:845-944 | over ascending providers the candidate exists exactly if a valid offer does, is that provider's offer, is non-zero whenever one is, and is less than epsilon above every non-zero price |
| CheapestCandidateProofs.UnsortedDrifts | controller/ratio_sync.go:881-893 | in descending order a price more than epsilon above the cheapest is selected |
| CheapestCandidateCode.SortedNames | controller/ratio_sync.go:915-919 | the keys of a map in ascending order |
| CheapestCandidateCode.SelectCandidates | controller/ratio_sync.go:921-944 | the nested loops select, for every model, what the comparison selects over the ascending list of providers, whatever the order of the maps |
| QuotaMath.RoundingIsNearest | common/quota_math.go:101-103 | rounding gives an integer within one half, away from zero on a tie |
| QuotaMath.TruncIsTowardZero | common/quota_math.go:71-73 | truncation gives the next integer toward zero |
| QuotaMath.SaturateIsExact | common/quota_math.go:60-74 | the result is in range, exact strictly inside, and a clamp is reported exactly for NaN and values at or beyond a bound |
| QuotaMath.ConversionsAreMonotone | common/quota_math.go:86-117 | all three conversions are monotone on numbers |
| QuotaMath.RoundedInsideIsExact | common/quota_math.go:101-117 | strictly inside the range the rounding conversions return the rounded value and agree |
| QuotaMath.ChargeIsNoCredit | controller/task_video.go:181-182 | tokens and ratios that are not negative never become a credit |
| TaskBilling.VideoTask.UpdateSingleTask | controller/task_video.go:121-293 | status, quota and balance after a poll, for every combination of failures, and when the poll ends with an error |
| TaskBilling.PollLedger | controller/task_video.go:127-293 | balance plus held charge changes by exactly the drift, whatever fails |
| TaskBilling.SuccessIsSettled | controller/task_video.go:152-250 | a stored success billed by tokens leaves the task with that charge, and the user pays the difference; without tokens nothing is charged |
| TaskBilling.FailureIsRefunded | controller/task_video.go:255-293 | a stored failure, or an answer without a status, gives the charge back, but nothing if the task had failed before |
| TaskBilling.ProgressIsStored | controller/task_video.go:127-293 | progress changes the status alone, and an unreadable or unknown answer nothing |
| TaskBilling.ByTokensExactly | controller/task_video.go:153-182 | when a task is charged by tokens, and that the charge is the product of tokens, model ratio and special or group ratio, truncated and kept within 32 bits |
| TaskBilling.ConservedExactly | controller/task_video.go:127-293 | a poll conserves it if and only if no adjustment is lost and either nothing was charged or no failed task revives and no refund is lost |
| TaskBilling.RunLedger | controller/task_video.go:127-293 | the same over every sequence of polls |
| TaskBilling.NeverIncreases | controller/task_video.go:127-293 | if storing succeeds, group ratios are not negative and failures are final, balance plus held charge never increases, and is constant if no balance change fails |
| TaskBilling.ByTokensNotNegative | controller/task_video.go:153-182 | a charge by tokens is not negative if the group ratios are not |
| TaskBilling.RefundedAtMostOnce | controller/task_video.go:265-287 | under the same conditions a failure refund is issued at most once, and then the task ends as failed |
| TaskBilling.ReplayIsNoOp | controller/task_video.go:189-249 | replaying a success that was billed and stored changes nothing |
| TaskBilling.UnsavedReplayChargesAgain | controller/task_video.go:201-281 | if the task is not stored, a replay charges the difference again |
| TaskPollingProofs.FinishedIsFinal | model/task.go:424-462 | over every run of pollers and fetches, a finished video task keeps its status throughout if and only if no poller that cannot ask marks it as failed and no fetch stores another status over it |
| TaskPollingProofs.BillingStep | service/task_polling.go:560-592 | from a task that is billed right, a step leaves it billed right if and only if it does not change the status of a billed task |
| TaskPollingProofs.BilledRightIff | service/task_polling.go:560-592 | over every run, whatever fails: a video task is billed right throughout (at most once, by a refund while it is failed or a settlement while it is successful) if and only if no poller that cannot ask and no fetch changes its status after it was billed |
| TaskPollingProofs.BilledOncePerLife | relay/relay_task.go:430-487 | over every run, whatever fails: the user's quota is changed at most once, and once more for each time that a fetch stores an unfinished status over a finished one |
| TaskPollingProofs.RefundedEveryTime | service/task_polling.go:43-90 | as long as fetches see a task in progress that has timed out, it is refunded again, any number of times |
| TaskPollingProofs.StepLedger | service/task_billing.go:165-235 | balance, held charge and what is on its way change in sum by exactly the drift of the step |
| TaskPollingProofs.LedgerAtRest | service/task_billing.go:165-235 | at rest balance plus held charge is what it was plus the drift of all steps |
| TaskPollingProofs.BalancedStep | service/task_billing.go:165-235 | a step keeps that sum if and only if it is none of those named: a failure stored without a refund, a compare-and-set that puts back an old quota, a fetch that changes what is held, a refund or settlement not carried out in full, one recorded after the task was failed or changed |
| TaskPollingProofs.ConservedIff | service/task_polling.go:431-592 | over every run, whatever fails, the sum stays the same throughout if and only if no step is one of those |
| TaskPollingProofs.ConservedIffHeld | service/task_polling.go:372-592 | for an unfinished task with a charge, if every access works, no old task times out and no fetch revives it: the charge is conserved throughout if and only if neither a poller that cannot ask nor a fetch changes what the task holds; then at rest a failed task has returned its charge and any other holds what was paid |
| TaskPollingProofs.OnlyPollers | service/task_polling.go:431-592 | if every poller can ask and nobody fetches, no choice changes a finished status, revives a task or changes what it holds without billing |
| TaskPollingProgress.BilledByTheDecision | service/task_polling.go:431-592 | in every run of pollers that can ask, with working accesses: at most one stores a success or failure; at rest the task has that status, a success its known positive quota, and the user has paid exactly that, nothing for a failure; without a decision nothing was billed |
| TaskPollingProofs.NeverMeans | service/task_polling.go:381-395 | that a run has no choice of a kind means that no choice is of the kind in the state in which it is made |
| TaskPollingProofs.FetchedFailureIsNotRefunded | relay/relay_task.go:464-487 | a fetch that sees a failure before any poller does: the task fails and is not refunded, although every access works |
| TaskPollingProofs.RefundedSuccess | relay/relay_task.go:464-487 | a task that timed out and was refunded is successful after a fetch, and the refund stays |
| TaskPollingProofs.GoneChannelIsNotRefunded | service/task_polling.go:381-395 | one poller and a channel that is gone: the task fails and is not refunded, although every access works |
| TaskPollingProofs.SuccessIsOverwritten | service/task_polling.go:381-395 | two pollers: a success that the first has settled is turned into a failure by the second, although every access works |
| OpusScanner.GetOpusDuration | common/audio.go:196-254 | for any bytes the peak granule position of the headers visited, as seconds at 48 kHz |
| OpusScanner.LastGranule | common/audio.go:207-249 | for any bytes the loop terminates with the peak granule position of the headers it visits |
| OpusScanner.ReadHeader | common/audio.go:219-246 | granule position and end of a page, or none if its segment table is cut off |
| OpusScanner.PeakIsLargest | common/audio.go:230-232 | the peak of any visited headers is an upper bound of their granule positions and of the start value, and is one of them |
| OpusScanner.EightBytes | common/audio.go:228-229 | a granule position is read from eight bytes, the lowest first |
| OpusScanner.SumOfEntries | common/audio.go:241-245 | the length of the page data is the sum of the entries of the segment table |
| OpusScannerProofs.GranuleRoundTrip | common/audio.go:228-229 | a signed 64-bit granule position survives encoding and reading |
| OpusScannerProofs.ReadPage | common/audio.go:219-246 | a well-formed page is recognized, read and skipped exactly, whatever its payload |
| OpusScannerProofs.VisitStretches | common/audio.go:207-249 | over pages that are read and quiet noise in any order the scan visits exactly the page headers |
| OpusScannerProofs.ScanStream | common/audio.go:196-254 | a stream of well-formed pages with any payload, with stretches between them in which no page seems to begin: exactly the page headers are visited and the result is the largest of 0 and their granule positions |
| OpusScannerProofs.LargestIsLargest | common/audio.go:230-232 | that result is an upper bound and attained |
| BodyStorage.DiskStorage.Read | common/body_storage.go:169-176 | reads from the file, or reports that the storage is closed |
| BodyStorage.DiskStorage.Seek | common/body_storage.go:178-185 | moves the cursor, or reports a bad position or a closed storage |
| BodyStorage.DiskStorage.Bytes | common/body_storage.go:198-230 | the whole content, with the cursor restored |
| BodyStorage.DiskStorage.Close | common/body_storage.go:187-196 | closes, also repeatedly |
| BodyStorage.MemoryStorage.Read | common/body_storage.go:47-54 | reads from the buffer, or reports that the storage is closed |
| BodyStorage.MemoryStorage.Seek | common/body_storage.go:56-63 | moves the cursor, or reports a bad position or a closed storage |
| BodyStorage.SameReplies | common/body_storage.go:47-89 | over every sequence of operations both storages are in the same state, and replies differ exactly on an empty read at the end |
| BodyStorage.SeekExactly | common/body_storage.go:56-63 | a seek leads to the offset from start, position or end, and is refused exactly if that is negative or there is no such origin |
| BodyStorage.ReadExactly | common/body_storage.go:47-54 | a read delivers the bytes behind the position, as many as are asked for and there, or the end |
| BodyStorage.WholeOrClosed | common/body_storage.go:187-230 | the whole content without moving; a closed storage refuses everything |
| BodyStorage.BytesNeverChange | common/body_storage.go:169-238 | no operation changes the bytes, only closing closes |
| BodyStorage.EveryAttemptSeesTheBody | common/gin.go:36-45 | in memory and on disk: after any operations but closing, the next attempt reads the body from its beginning, in pieces of any sizes, and all of it once they suffice |
| RequestBody.RequestContext.GetRequestBody | common/gin.go:36-83 | the first call stores the bytes of the older cache or what the reader delivers, at offset 0, or fails exactly if the reader is closed or fails, the body is too large, or streaming to disk fails; later calls rewind the storage |
| RequestBody.RequestContext.CreateFromReader | common/body_storage.go:262-303 | when a body is stored, and that the reader is closed in any case |
| RequestBody.RequestContext.Create | common/body_storage.go:241-259 | a body is stored on disk if that is preferred and works, otherwise in memory, with the same content |
| RequestBody.RequestContext.Cleanup | common/gin.go:99-106 | the storage is closed and forgotten |
| BodyAccounting.BodyCache.CreateBodyStorage | common/body_storage.go:241-259 | where a body is stored, and the counters |
| BodyAccounting.StoredWhere | common/body_storage.go:241-259 | a body is stored on disk exactly if the cache is on, the body is not below the threshold and fits into what is left, and the disk works; otherwise in memory |
| BodyAccounting.StreamStoredWhere | common/body_storage.go:262-303 | when a stream is stored, where, with its true length, and that it counts as one hit of that kind |
| BodyAccounting.BodyCache.CreateBodyStorageFromReader | common/body_storage.go:262-303 | the same for a stream; an error changes nothing |
| BodyAccounting.BodyCache.CloseStorage | common/disk_cache_config.go:114-134 | only the first close counts |
| BodyAccounting.CountersAreExact | common/disk_cache_config.go:108-134 | in every run the counters are the number and size of open storages, and the clamp never acts |
| BodyAccounting.LimitIsKept | common/disk_cache_config.go:170-177 | with honest content lengths disk usage never exceeds its limit |
| BodyAccounting.StreamedBodyAndLimit | common/body_storage.go:266-280 | a body streamed to disk keeps the limit if and only if its true length fits; only the announced length is checked |
| Verification.VerificationMap.Register | common/verification.go:36-46 | the new map, swept when it is too large |
| Verification.VerificationMap.Verify | common/verification.go:48-57 | for a positive number of minutes: true exactly if the code is the registered one and less than these minutes have passed, to the nanosecond |
| Verification.WholeSecondsExpire | common/verification.go:53 | comparing whole seconds is comparing nanoseconds, for any number of minutes and any durations |
| Verification.VerificationMap.DeleteKey | common/verification.go:59-63 | afterwards no code verifies for this purpose and key at any time, and every other verification is answered as before |
| Verification.VerificationMap.RemoveExpiredPairs | common/verification.go:66-73 | for a positive number of minutes the loop keeps exactly the entries for which less have passed |
| Verification.RegisteredExactly | common/verification.go:36-46 | a registration stores the code; with up to ten entries all others stay, with more exactly those that are still valid |
| Verification.NoCollision | common/verification.go:16-20 | entries of different purposes or keys never share a slot |
| Verification.EvictionIsInvisible | common/verification.go:16-73 | with a clock that does not go back, over every run every verification is answered as by a map that never evicts, keeps the purposes apart and compares nanoseconds with minutes |

## Left out

- HTTP handlers, JSON decoding, logging, audit records, authorisation and response texts: no state worth a proof.
- Callers of the order lock other than `EpayNotify` and `AdminCompleteTopUp`, and the transactions that close a pending order (`UpdatePendingTopUpStatus`): they would add cases of the same shape. The saves of the Waffo handlers, which take no lock, are in the model.
- The order lock between processes: the lock is per process, and so is the model.
- A missing user row: increasing the quota of a user that does not exist is taken to work.
- Regular expressions of ignore rules and JSON arrays of keys: uninterpreted, as parameters.
- Interleavings of the key actions and of the rate limiter: each action is one step. `ManageMultiKeys` and the limiter hold a lock; `UpdateChannelStatus` reads and writes its copy of the channel outside of it.
- The guards of `UpdateChannelStatus` before it calls `handlerMultiKeyUpdate`.
- A negative limit of the rate limiter, for which the source panics, and an expiration that is not positive, for which it starts no cleanup.
- The channel's own status in `handlerMultiKeyUpdate`, the key polling index, and replacing all keys at once.
- ScanStream: a last page whose segment table is cut off still counts; that case is in GetOpusDuration only.
- Reads that return fewer bytes than asked for before the end of the input, and I/O errors other than a bad seek.
- Floating-point rounding in prices and ratios: costs and ratios are reals.
- `whence` values of lseek beyond the three of the io package.
- CleanupOldDiskCacheFiles, ResetDiskCacheUsage and SyncDiskCacheStats: they rewrite the counters on purpose.
- Suno tasks: `updateSunoTasks` refunds before it stores, without any compare-and-set, so nothing is claimed about their billing.
- Token quotas and subscriptions as funding of tasks: the account is one balance.
- The progress of a video task, and the other fields that a fetch compares before it writes: here any unfinished task may be loaded by a poller, and a fetch may store any status, or nothing.
- The conversion of the selected candidate into ratios: one rounding per value.
