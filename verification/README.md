# Verified model of the mail delivery pipeline

The pipeline accepts messages over SMTP, queues one row per recipient, and delivers the rows
through the sender's upstream accounts from a single background worker. Every two seconds the
worker takes up to 30 due rows, decides from an append-only event log whether each row may go out
now, tries the accounts in rotation, and marks the row sent, retried, deferred or failed. Around
it sit an in-memory fixed-window limiter and a rewriter that puts the upstream account's address
into the message header.

This project models that pipeline in Dafny and proves what it keeps over whole runs: rate limits
in recorded seconds and in real time, at-most-once acceptance, retry accounting, bounds on
repeated holds, conservation from submission to outcome, and that the queue drains. Beside it
stand the limiter over sequences of calls (2 x limit per window, non-interference between users),
the fairness of the rotation, and round trips and last-writer-wins for the header rewriter.

## How it is built

| file | holds |
|---|---|
| `Clock`, `Options`, `Records` | instants and stored seconds, the table rows and settings |
| `Addresses`, `AddressMeaning` | recipient domains, white space and lower case; what they are, byte by byte |
| `Queue`, `EventLog` | the two tables: each statement's effect, as functions and as the classes `QueueRepo` and `MailEventRepo` |
| `Holding`, `HoldMeaning` | the hold check as a function of settings, log and clock, and its meaning rule by rule, every setting and length written out |
| `Worker`, `Delivery`, `Submission` | what one submission, check, delivery and tick do to the tables |
| `Services` | `DeliveryService` and `SendService` as classes, each method proved to have exactly that effect |
| `Machine`, `ItemLife`, `Invariant` | the run machine, the life of one queue item, the invariant of every reachable state |
| `Limits`, `Acceptances` | the rate limits, kept by the log and stated about what accounts accepted along a run |
| `Deliveries`, `Bursts`, `DomainLimits`, `ThrottleGaps` | runs that use the limits to the full, and where they fail |
| `Outcomes`, `Messages`, `Conservation`, `Drain`, `Ticks` | the other theorems over whole runs, and that the services' ticks and submissions are such runs |
| `Rotation` | the round-robin cursor, the exhaustive fallback and their fairness |
| `Limiter`, `LimiterKeys`, `LimiterMeaning`, `LimiterProperties` | the in-memory limiter: one call written out, and sequences of calls |
| `HeaderText`, `HeaderProperties` | splitting, joining and rewriting messages |

A run of the machine is a sequence of steps: one recipient submitted, pending rows deleted, a tick
(dequeue), one hold check, one finished delivery. Submissions and deletions may fall between any
two worker steps, also between an item's check and its delivery. Every step carries the instants
at which it reads and writes; the clock never runs back. The answers of the environment (clock,
upstream accounts, failing database reads, whether an insert works) are parameters of the steps
and of the methods. The log keeps whole seconds; the machine keeps the true instant of each event
beside it, for the real-time statements only.

`dafny verify dfyconfig.toml` checks everything.

## What the code does differently from its documentation

- `README.md:79` says the header sender is forced to the account's address. The code rewrites only
  when the message has an empty line, and only the first From line. So the first From line is the
  account's exactly when the address has no line break and there is an empty line, or that line was
  there already: `SenderForcedExactly`, `AccountSenderForced`.
- `README.md:6` promises a minimum number of milliseconds between a user's sends. The newest send is
  read back under its whole second, so every throttle is missed by up to a second: two successive
  sends can be any time apart that is more than the throttle less one second, and never less:
  `ThrottleGapsExactly`.
- `README.md:7` promises per-domain throttling and limits. A rule is stored under the domain as
  typed (`internal/httpapi/handler.go:486-505`) and looked up under the recipient's domain, which is
  in lower case but trimmed with the whole address only; the queries trim and lower both. The hourly
  limit and the throttle stored under a key hold for a recipient exactly when the recipient's
  domain, the key and its query form are spelled alike: `HourlyLimitHoldsExactly`,
  `ThrottleHoldsExactly`. A rule under "Example.com" is never in force, and every rule is evaded by
  a recipient like "u@ example.com": `EveryHourlyLimitIsEvaded`, `EveryThrottleIsEvaded`, with runs
  that have any number of messages accepted at one instant (`AnyNumberAtOnce`).
- The retry cap of five counts failed deliveries only. A failing hold check also costs an attempt
  and is retried without a cap, and a delivery gives up at four attempts or more. A row is failed
  exactly at five attempts, and never beyond, exactly when no check failed once it had four:
  `RetryAccounting`, `FailedChecksAreUncapped`.
- The rewriter respells bytes of 0x80 and above as two bytes each time it runs, in the body too.
  Only the sender's line changes exactly when the kept lines are 7-bit, and last sender wins exactly
  then: `RewritingIsLocal`, `LastSenderWins`.

## Model

| member | source | states |
|---|---|---|
| Acceptances.LogHoldsAcceptances | internal/service/delivery.go:75-76 | along every run the sends in the log are exactly the messages that accounts accepted, in order, each with its user, sender, recipient, recipient's domain and instant |
| Acceptances.UserLimitsHold | internal/service/delivery.go:126-157 | along every run a user's accepted messages keep each positive limit: at most `limitPerSec`, `limitPerMin`, `limitPerHour`, `limitPerDay` of them in 2, 61, 3601, 86401 consecutive recorded seconds, and in any real interval of 1, 60, 3600, 86400 seconds, ends included, although cutoffs and log times are floored |
| Acceptances.DomainLimitHolds | internal/service/delivery.go:138-157 | the same for a domain's hourly limit and the messages accepted for that domain, when the domain is its own query form, which HourlyLimitHoldsExactly shows to be needed |
| Acceptances.UserThrottleHolds | internal/service/delivery.go:98-110 | along every run any two accepted messages of a user under a throttle of T ms are more than T-1000 ms apart in real time and at least T/1000 whole seconds apart on record |
| Acceptances.DomainThrottleHolds | internal/service/delivery.go:112-123 | the same for a domain's throttle and the messages accepted for that domain, when the domain is its own query form, which ThrottleHoldsExactly shows to be needed |
| Bursts.TwoBursts | internal/service/delivery.go:146-157 | with no throttle in force, and every limit off, or at least 2n, or at least n with its window (1, 60, 3600, 86400 seconds, the domain's hour) over after a given gap: some run has n messages accepted in second 0 and n more in the second of the gap |
| Bursts.LimitsAreSharp | internal/service/delivery.go:130-135 | so a limit of n can be used to the full, and again as soon as its window is over: exactly n acceptances before the second of the gap, and 2n with it |
| ThrottleGaps.ThrottleGapsExactly | internal/repo/event_repo.go:123-140 | with only a user's throttle of T ms in force, some run has two successive messages of the user accepted exactly a given time apart if and only if that time is more than T-1000 ms |
| DomainLimits.HourlyLimitHoldsExactly | internal/repo/domain_repo.go:15-30 | with only the rules stored under one key in force, no run has more messages to a recipient's domain accepted than the key's hourly limit in 3601 recorded seconds if and only if the recipient's domain, the key and the key's query form are spelled alike |
| DomainLimits.EveryHourlyLimitIsEvaded | internal/service/send.go:38-44 | for every key that names a domain and has an hourly limit there is a recipient in that domain whose mail exceeds the limit |
| DomainLimits.EveryThrottleIsEvaded | internal/service/send.go:38-44 | the same for every throttle of a second or more: some recipient in the domain is not kept apart |
| DomainLimits.ThrottleHoldsExactly | internal/service/delivery.go:112-123 | with only the rules stored under one key in force, every run keeps the spacing of the key's throttle for a recipient's domain if and only if the throttle is below one second, where the spacing is void, or recipient's domain, key and query form are spelled alike |
| DomainLimits.AnyNumberAtOnce | internal/repo/event_repo.go:112-115 | if the only rules in force for a recipient are domain rules whose queries look at another domain, then for every message to it and every n a run has it accepted n times at one instant |
| EventLog.CountSinceExactly | internal/repo/event_repo.go:109-121 | the count is the number of log entries of a send by the user, to the domain if one is given, recorded at the cutoff second or later, whoever the sender |
| EventLog.DomainQueryExact | internal/repo/event_repo.go:109-116 | a domain query counts the sends to exactly that domain on every log just when the domain is its own query form |
| EventLog.LastSentIsMaximum | internal/repo/event_repo.go:123-140 | the last-sent query returns the greatest second of a send by the user (to the domain), and nothing only when there is none |
| AddressMeaning.ExtractDomainExactly | internal/service/send.go:38-44 | for every address, if its trimmed form has exactly one '@' the domain is what follows it in lower case, whatever stands before it, and otherwise there is none |
| AddressMeaning.TrimSpaceExactly | internal/service/send.go:39 | trimming takes white-space characters off both ends until none is left there, and nothing else |
| AddressMeaning.WhiteSpaceExactly | internal/service/send.go:39 | text starts (ends) with white space exactly when it starts (ends) with one of the 25 listed characters in UTF-8 |
| AddressMeaning.QueryFormExactly | internal/repo/event_repo.go:112-115 | a domain is its own query form exactly when it has no ASCII capitals and no white space at its ends |
| Addresses.ExtractedDomainShape | internal/service/send.go:38-44 | an extracted domain is in lower case (ASCII letters) and does not end in white space, all of Go's white space counted; leading white space is all that separates it from its query form |
| Addresses.SpacedDomain | internal/service/send.go:38-44 | for every domain in query form, the recipient "u@ domain" has that domain with a space in front |
| Addresses.DomainShapeBy | internal/repo/event_repo.go:112-115 | the same under any lower-casing that is idempotent and neither makes nor removes white space at the ends, so for letters of any script |
| Holding.FirstRuleDecides | internal/service/delivery.go:80-159 | a check fails when user or domain settings cannot be looked up; otherwise the first rule, in the order user throttle, domain throttle, second, minute, hour, day, domain hour, that cannot be read or does not pass decides |
| Holding.VerdictMeaning | internal/service/delivery.go:80-159 | a message is cleared only if every rule passes, is held by a rule that does not pass for that rule's wait, and a check fails only when a lookup fails or a rule in force cannot be read |
| HoldMeaning.ClearedExactly | internal/service/delivery.go:80-159 | when everything can be read, a message is cleared if and only if no send of the user is younger than the user's throttle, each positive limit exceeds the user's sends of the last 1, 60, 3600, 86400 seconds (cutoff second included), and the domain's stored throttle and hourly limit do so over the sends to its query form |
| HoldMeaning.HeldFor | internal/service/delivery.go:98-157 | a held message waits 1, 60, 3600, 3600, 86400 seconds by window, or what is left of the throttle counted from the newest send |
| Holding.HeldBeforeDeadline | internal/service/delivery.go:98-157 | a rule that does not pass sees a recorded send whose deadline second is not over |
| ItemLife.HoldMoves | internal/repo/queue_repo.go:54-63 | a hold moves the next attempt past the second of its check, to the rule's deadline less at most one second, and no further than the wait or one second from the write |
| ItemLife.HoldKeepsOK | internal/service/delivery.go:161-174 | one more hold keeps the bound of three (throttle) or two (window) holds per newest send seen |
| ItemLife.RefusalKeepsOK | internal/service/delivery.go:63-71 | a refused delivery is retried 30 seconds later or given up, keeping the five-failure cap and the spacing |
| Invariant.RunKeepsInv | internal/service/delivery.go:46-78 | every reachable state keeps log timing, faithful batches, per-item accounting and the cleared item in flight |
| Outcomes.AtMostOnceAccepted | internal/service/delivery.go:46-78 | over a whole run each item is accepted by at most one account once, and a surviving row says sent exactly when it was accepted, deletions at any point included |
| Outcomes.RetryAccounting | internal/service/delivery.go:53-71 | attempts = failed deliveries + failed checks; at most five failed deliveries; a row is failed exactly at five attempts and never beyond if and only if no check of it failed at four attempts or more |
| Outcomes.RetriesAreSpaced | internal/repo/queue_repo.go:49-52 | failed deliveries are at least 30 recorded seconds apart, five of them span at least 120 |
| Outcomes.FailedChecksAreUncapped | internal/service/delivery.go:54-58 | for every n a run exists in which an item is still pending after n attempts, all n of them failed checks |
| Outcomes.HoldsAreBounded | internal/service/delivery.go:98-157 | while the newest send a rule sees stays in the same second, a throttle holds an item at most three times and a window rule at most twice |
| Outcomes.BatchesStayFaithful | internal/repo/queue_repo.go:23-42 | at every moment a row the worker holds is gone or exactly as it was dequeued |
| Messages.RowsKeepTheirMessage | internal/repo/queue_repo.go:17-21 | in every reachable state every row, and every item the worker holds, has user, sender, recipient, text and creation second of the submission that made it |
| Messages.EventsNameTheirMessage | internal/service/delivery.go:65-76 | every event of a run names user, sender, recipient and domain of a message the run submitted |
| Conservation.MissingMeansDeleted | internal/repo/queue_repo.go:117-152 | the ids enqueued for a user and missing from the table are exactly the pending rows that the deletions of the run took |
| Conservation.AccountsBalance | internal/service/delivery.go:65-76 | per user, accepted submissions = pending + sent + failed + rows taken by deletions; send and failure events = such rows + decided ids whose row a deletion took |
| Conservation.ConservationBetweenTicks | internal/repo/queue_repo.go:117-152 | with deletions between ticks only, sent and failed rows match sent and failed events exactly, and accepted submissions are these, the pending rows and the rows taken by deletions |
| Conservation.EveryRowHasADomain | internal/service/send.go:21-30 | every queue row of every reachable state has a recipient with a non-empty domain |
| Drain.WorkLowers | internal/service/delivery.go:52-77 | from any state of the machine, every working step without a failing check lowers (items whose row was deleted under the worker; pending rows; attempts left; time left to hold; phase) lexicographically |
| Drain.WorkEnds | internal/service/delivery.go:46-78 | an endless run of the worker contains an empty tick, whatever the clock and the accounts do |
| Drain.QueueDrains | internal/service/delivery.go:32-44 | if time passes and no check fails, an endless run of the worker reaches a state with every row sent or failed |
| Drain.StuckMeansDrained | internal/repo/queue_repo.go:23-27 | an idle worker's queue is drained exactly when every later tick is empty |
| Ticks.TickIsRun | internal/service/delivery.go:46-78 | a tick with the effect proved of the worker's method is a run of the machine from idle to idle |
| Ticks.SubmissionIsRun | internal/service/send.go:20-36 | a submission with the effect proved of the send service is a run of the machine |
| Ticks.RunThenSteps | internal/service/delivery.go:36-43 | steps taken from a reachable state lead to reachable states, so run theorems hold along any sequence of ticks and submissions |
| Ticks.SnapshotIsFresh | internal/service/delivery.go:47-53 | handling a dequeued batch equals re-reading each row just before handling it |
| Ticks.DequeuedBacklogShrinks | internal/service/delivery.go:47-77 | after a tick the rows due at the dequeue second are exactly the earlier due rows minus the batch |
| Worker.CheckedExactly | internal/service/delivery.go:53-61 | a cleared item changes nothing, a held one is put off by the whole seconds of its wait with one queued event naming the rule, a check that cannot read or write costs an attempt and 30 seconds; no other row changes |
| Worker.FinishedExactly | internal/service/delivery.go:63-76 | an accepted item is sent with a sent event, a refused one fails with a failed event when it had four attempts and otherwise waits 30 seconds; no other row changes |
| Queue.DeferredExactly | internal/repo/queue_repo.go:54-63 | a deferral is the whole seconds of the wait, one when it is below two, and changes nothing but note and times |
| Queue.RetriedExactly | internal/repo/queue_repo.go:49-52 | a retry is one more attempt, due 30 seconds after the write |
| Queue.BatchMembers | internal/repo/queue_repo.go:23-27 | a batch holds due rows in id order, at most the limit; a due row left out comes later by id and only when the batch is full |
| Queue.QueueRepo.Enqueue | internal/repo/queue_repo.go:17-21 | a new pending row with the given user, sender, recipient and text, due at once, under the next id; or nothing when the insert fails |
| Queue.QueueRepo.DequeueBatch | internal/repo/queue_repo.go:23-42 | the first n due rows by id |
| Queue.QueueRepo.MarkSent | internal/repo/queue_repo.go:44-47 | the row becomes sent; no other row changes, and a missing row changes nothing |
| Queue.QueueRepo.MarkRetry | internal/repo/queue_repo.go:49-52 | one more attempt, due 30 recorded seconds after the write; no other row changes |
| Queue.QueueRepo.Defer | internal/repo/queue_repo.go:54-63 | due after the whole seconds of the wait, at least one, attempts unchanged; no other row changes |
| Queue.QueueRepo.MarkFailed | internal/repo/queue_repo.go:65-68 | the row becomes failed with one more attempt; no other row changes |
| Queue.QueueRepo.DeletePendingAll | internal/repo/queue_repo.go:117-126 | exactly the pending rows of the user, or of everyone, disappear |
| Queue.QueueRepo.DeletePendingDateRange | internal/repo/queue_repo.go:142-152 | exactly the pending rows of the user, or of everyone, created in the span disappear |
| Queue.QueueRepo.DeletePendingSinceDays | internal/repo/queue_repo.go:128-140 | pending rows created in the last days disappear; a non-positive number of days is an error and changes nothing |
| EventLog.MailEventRepo.Create | internal/repo/event_repo.go:18-23 | the event is appended under the second of the write |
| Services.DeliveryService.Process | internal/service/delivery.go:46-78 | a tick handles the first 30 due rows one by one with exactly the specified effect on tables and cursors, and does nothing when the dequeue fails |
| Services.DeliveryService.ProcessItem | internal/service/delivery.go:52-77 | one item is checked, delivered and marked as specified, error paths included |
| Services.DeliveryService.HoldIfLimited | internal/service/delivery.go:80-159 | reports and writes what the hold verdict says |
| Services.DeliveryService.CheckThrottle | internal/service/delivery.go:99-123 | one throttle clock, with its read error and its defer |
| Services.DeliveryService.CheckWindows | internal/service/delivery.go:146-158 | the loop over window limits returns at the first rule reached or read that fails |
| Services.DeliveryService.DeferWithReason | internal/service/delivery.go:161-174 | defers the row and logs one queued event with the item's user, sender, recipient and domain, or reports the failing write |
| Services.DeliveryService.Deliver | internal/service/delivery.go:176-217 | which account takes the message, and how the cursor moves; every transmission goes to the item's recipient, from the account's address or else the queued sender |
| Services.DeliveryService.TryAll | internal/service/delivery.go:191-216 | first choice, then the others in order, until one accepts; every transmission goes to the item's recipient |
| Services.DeliveryService.DeliverByAccount | internal/service/delivery.go:219-228 | the account gets the message rewritten to its sender, for the item's recipient, from the account's address or else the queued sender |
| Services.DeliveryService.NextRR | internal/service/delivery.go:230-239 | returns the user's cursor, 0 when it is missing or out of range, and moves it one place round |
| Services.SendService.HandleMail | internal/service/send.go:20-36 | recipients are submitted up to the first that is invalid or not inserted; success means all of them |
| Services.SendService.SubmitOne | internal/service/send.go:21-33 | one recipient is rejected, fails to insert, or is queued with its event |
| Submission.EnqueuesLongestPrefix | internal/service/send.go:21-34 | exactly the longest prefix of recipients with a domain and a working insert becomes rows, in order, each with user, sender, recipient and text as submitted and due at its insert's second; each leaves one queued event, and the recipient that stops it one rejection (no domain) or failure (insert) and no row |
| Submission.RecipientsExactly | internal/service/send.go:21-22 | each recipient stands with the domain extracted from its address |
| Delivery.TakenIffPossible | internal/service/delivery.go:176-217 | a message is taken exactly when it is deliverable and some account accepts, whatever the cursor |
| Delivery.DeliveryWrittenOut | internal/service/delivery.go:176-228 | the wire carries the message to the item's recipient only, through the accounts from the cursor (rotation) or from the first one (no rotation: 0, 1, 2, ...), the others in order, up to the first that accepts; nothing when nobody is assigned |
| Delivery.TicksAreFair | internal/service/delivery.go:191-204 | over any sequence of ticks, the rotated deliveries of a user turn first to any two accounts equally often, up to one |
| Delivery.TicksGoRound | internal/service/delivery.go:191-204 | and the i-th of these deliveries turns first to account (start + i) mod n |
| Delivery.AccountSenderForced | internal/service/delivery.go:219-228 | the recipient is the queued one and the envelope sender the account's address, or the queued sender when it has none; read back as bytes, the first From line is "From: <", that address trimmed, ">" exactly when it has no line break and is not empty with an empty line in the message, or that line was there already; and nothing else changed exactly when the other lines are 7-bit |
| Rotation.DeliveryIsExhaustive | internal/service/delivery.go:191-216 | a delivery tries no account twice, stops at the first acceptance and gives up only after all refused |
| Rotation.RotationIsFair | internal/service/delivery.go:230-239 | over any interleaved sequence of rotated deliveries, a user's first choices of two accounts differ in number by at most one |
| Rotation.RotationGoesRound | internal/service/delivery.go:230-239 | the i-th of a user's rotated deliveries turns first to account (start + i) mod n, whatever other users' deliveries are interleaved |
| Rotation.ChoicesInRange | internal/service/delivery.go:233-237 | every first choice is a valid index even when the number of accounts changes |
| Limiter.Limiter.CheckAndInc | internal/service/limiter.go:29-82 | outcome and new maps of a call, with early rejections and charges that stay |
| Limiter.Limiter.ChargeInOrder | internal/service/limiter.go:64-77 | the loop over the five checks, stopping at the first rejection |
| LimiterMeaning.AcceptedExactly | internal/service/limiter.go:35-77 | a call is accepted if and only if each positive throttle lies between its clock and now, and no window of 1, 60, 3600, 86400 seconds or the domain's hour with a positive limit has a running bucket whose count has reached it |
| LimiterMeaning.ChargesExactly | internal/service/limiter.go:64-77 | an accepted call adds one to each bucket whose limit is on, or starts its window anew at one; the others stay |
| LimiterMeaning.RejectionCharges | internal/service/limiter.go:64-77 | a call rejected at a window stays charged to the windows before it, to nothing else, and leaves both clocks |
| LimiterMeaning.ThrottledChangesNothing | internal/service/limiter.go:35-50 | a call rejected by a throttle changes nothing |
| LimiterKeys.BucketKeyInjective | internal/service/limiter.go:57-61 | bucket keys are injective in user, rule and domain, for any domain string |
| LimiterKeys.ClockKeyInjective | internal/service/limiter.go:79 | user clock keys are injective |
| LimiterKeys.DomainClockKeyInjective | internal/service/limiter.go:44 | domain clock keys are injective in user and domain |
| LimiterProperties.CallEffect | internal/service/limiter.go:64-77 | a call leaves every bucket it does not address alone, bumps an addressed one at most once, and always when accepted |
| LimiterProperties.FixedWindowBound | internal/service/limiter.go:52-77 | under a constant limit any half-open interval of one window's length holds at most 2 x limit accepted calls |
| LimiterProperties.CountersOverApproximate | internal/service/limiter.go:64-77 | accepted calls since a bucket's start are at most its count, which is at most the limit, rejected calls that charged it included |
| LimiterProperties.ClocksMoveOnAcceptOnly | internal/service/limiter.go:35-50 | a rejection leaves both throttle clocks unchanged; an accepted call found both throttles over and sets both clocks to its instant |
| LimiterProperties.LastSendIsLastAccepted | internal/service/limiter.go:79 | over any sequence of calls a user's clock shows the newest accepted call |
| LimiterProperties.LastDomainSendIsLastAccepted | internal/service/limiter.go:80 | over any sequence of calls a user's clock for a domain shows the newest accepted call for that domain |
| LimiterProperties.ThrottleSpacing | internal/service/limiter.go:35-41 | accepted calls of a user with a constant throttle are at least the throttle apart |
| LimiterProperties.DomainThrottleSpacing | internal/service/limiter.go:43-50 | accepted calls of a user for a domain with a constant throttle are at least that throttle apart |
| LimiterProperties.NonInterference | internal/service/limiter.go:29-82 | the outcomes a user sees along any sequence of calls are those of the user's own calls alone |
| LimiterProperties.DomainsAreSeparate | internal/service/limiter.go:44-61 | a call for one domain leaves another domain's hourly counter and clock alone |
| HeaderText.SplitLines | internal/service/delivery.go:276-292 | the loop computes the lines of a text, CRs dropped and bytes respelled |
| HeaderText.JoinCRLF | internal/service/delivery.go:294-306 | the loop joins lines with CRLF |
| HeaderText.ToLowerPrefix | internal/service/delivery.go:308-321 | the loop lower-cases the first n bytes |
| HeaderProperties.IsFromExactly | internal/service/delivery.go:262-263 | a line counts as a From line when it starts with the five characters of "from:", each letter in either case |
| HeaderProperties.ByteStringIsUtf8 | internal/service/delivery.go:287-288 | a byte below 0x80 stays, any other becomes the two UTF-8 bytes of its code point |
| HeaderText.RewriteFromHeader | internal/service/delivery.go:241-274 | replaces the first From header line, inserts one if there is none, leaves a message without an empty line, or for an empty sender, alone |
| HeaderProperties.SplitUndoesJoin | internal/service/delivery.go:276-306 | splitting undoes joining exactly for 7-bit lines without CR or LF |
| HeaderProperties.JoinAfterSplit | internal/service/delivery.go:276-306 | split-then-join drops CRs, turns LF into CRLF and keeps the rest, exactly when the text is 7-bit |
| HeaderProperties.NormaliserIsIdempotent | internal/service/delivery.go:276-306 | split-then-join is idempotent exactly on 7-bit text |
| HeaderProperties.LastSenderWins | internal/service/delivery.go:241-274 | rewriting to f then g equals rewriting to g exactly when the kept lines are 7-bit or there is no header end |
| HeaderProperties.RewritingSevenBitData | internal/service/delivery.go:241-274 | on 7-bit data the last sender wins and rewriting is idempotent |
| HeaderProperties.RewrittenBytes | internal/service/delivery.go:260-273 | read back as bytes, the rewritten message is the split message with its first From header line replaced by "From: <", the trimmed sender and ">", or that line put in front |
| HeaderProperties.RewritingIsLocal | internal/service/delivery.go:250-273 | read back as bytes, one header line was replaced or one put in front, the first From line is "From: <", the trimmed sender and ">", and everything else is unchanged, exactly when the input has an empty line, the sender has no line break and every line kept is 7-bit |
| HeaderProperties.SenderForcedExactly | internal/service/delivery.go:250-259 | for all data and senders, the first From line of the rewritten header is "From: <", the trimmed sender and ">" and no character more, exactly when the sender has no line break and the input has an empty line, or that line was there already |

## Left out

- A worker that stops between an upstream acceptance and the write that marks the row: acceptance and mark are one step, so a redelivery after such a stop is not modelled.
- Failing table writes, whose errors the worker drops; a failing defer inside the hold check and a failing insert at submission are modelled.
- Event deletion and changes of limits during a run: the limits are read from the log, and both would void the rate theorems.
- Submissions and deletions inside one check or one finished delivery; they may fall between any two of them.
- SQLite and the text of its statements, two-second tick scheduling, logging, and the network side of SMTP: replaced by their effect or by parameters.
- 64-bit overflow of throttle durations, and floating-point rounding of a wait longer than 2^23 seconds in `Defer`.
- ExtractedDomainShape: lower-cases ASCII letters only; DomainShapeBy states the same for any lower-casing.
- Letters outside ASCII and malformed UTF-8 in Go's lower-casing: `ToLower` changes ASCII letters only. What the domain theorems need of it is proved for any lower-casing (`DomainShapeBy`).
- Dates given to the date-range deletion that do not parse: the span is a pair of seconds.
- The exact wording of errors and reasons: they are kept by kind.
- HTTP handlers, sessions, user, package and account management, analytics and pagination: simple per-request work.
- ClocksMoveOnAcceptOnly: speaks of one call; the statements over sequences of calls are LastSendIsLastAccepted and LastDomainSendIsLastAccepted.
