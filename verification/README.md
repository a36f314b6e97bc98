# Sukoon's cores, modelled and proved

Sukoon is a moderation bot for Telegram. Most of it is command plumbing; this project models the parts
with state or a language of their own, and proves what they promise over all inputs, all runs and, where
several workers or handlers are at work, all interleavings.

| file | models |
|---|---|
| Text.dfy, Sorting.dfy | the string, number and sorting routines everything else uses |
| QueueProtocol.dfy | the durable queue of updates and jobs as a transition system: claim, process, mark, crash |
| QueueOutcomes.dfy | what a row's status says about the outcomes of its claims, over all runs |
| QueueStores.dfy | the in-memory tables and the worker loop, method by method against the protocol |
| FanOut.dfy | broadcasts, bans and purges over many targets, and their progress reports |
| JobLife.dfy | the queue and the fan-out together: what a job attempts over its whole life |
| Flood.dfy | the antiflood index in memory, against a plain log of events |
| FloodEnforcement.dfy | limits, deletions and resets on top of it, over whole runs |
| FloodRedis.dfy | the same index under Redis keys that expire |
| Wildcard.dfy | the blocklist's wildcard compiler and its three modes |
| BlocklistWords.dfy | what a rule does not look at, letter case and white space, and what its wildcards stand for |
| CaptchaProtocol.dfy | captcha challenges under interleaved handlers and sweeps |
| CaptchaActs.dfy | who solved a challenge: the history of callbacks behind every mark and permission |
| CaptchaSettlement.dfy | when a settled challenge stays settled, and gives the permission once |
| Captcha.dfy | the challenge store, the handlers, the sweep and the answer keyboards as methods |
| FederationRegistry.dfy | federations, their chats, admins, bans and subscriptions under commands |
| FederationEffects.dfy | what each command does, and who may send it, in terms of records and lists |
| FederationOverlap.dfy | the same commands with other commands between their checks and their writes |
| FederationJoins.dfy | joining a federation in Postgres, in two statements |
| FederationStore.dfy | the in-memory federation maps, the commands, ban resolution and import |
| BanExchange.dfy | the human ban export and import |
| ImportLines.dfy | what each form of an import line means |
| Durations.dfy | two duration printers and parsers, with 64-bit overflow |
| DurationTexts.dfy | duration texts by their groups, and the texts that are printed |
| Buttons.dfy, ButtonPrinter.dfy, ButtonRoundTrip.dfy | the button syntax of stored notes, and what it gives back |
| ButtonForms.dfy | the ways in which people may write a button |
| RoleCache.dfy | the two permission caches under interleaved callers |

`dafny verify dfyconfig.toml` checks the whole project.

## How it is built

Where the program changes things step by step there is a class with the program's fields, and each method is
proved equal to a pure function on the state. The theorems are about those functions and about all runs built
from them. Where several threads interleave, a step is one store call, one network call, one reading of the
clock or one local decision, and a crash can come between any two of them.

Integers that the program keeps in 64 bits wrap where they can (`Wrap64`); the rest are unbounded. Clocks,
random choices and the answers of Telegram and of the stores are parameters or nondeterministic choices. All
workers read one clock. Fields such as `claims`, `outcomes`, `acts`, `given`, `accepted` or `grants` are history: they record what
happened, and no handler or worker reads them.

## What holds for all interleavings, and what does not

All theorems of QueueProtocol, QueueOutcomes, JobLife, CaptchaActs, CaptchaSettlement, RoleCache, FederationOverlap and FederationJoins, and
`CaptchaGates` and `NeverPendingAgain` of CaptchaProtocol, hold for every interleaving, crashes included. Two promises that captcha
handlers keep when they run undisturbed (`UndisturbedHandlersSettle`) fail when they overlap
(`OverlappingHandlersOverwrite`); `SettledStaysIff` and `AtMostOnceIff` say exactly when they hold. The invariants
of FederationRegistry are those of commands that run one at a time. Nothing in the program keeps two commands
apart between their checks and their writes, so FederationOverlap takes checks and writes as separate steps:
`OverlapInvariants` is what survives in memory, and the other theorems say when the rest does. In Postgres even
one join is two statements, and `OneFederationIff` says when a chat keeps to one federation there. The flood index is taken
one call at a time, which is what its lock and Redis' transactions give, but for the gap named under "Left out".

Some properties hold on part of the inputs or runs only; each of these has its exact condition.

- The backoff is attempts² seconds iff attempts is at most 96038.
- The queue can drain iff no crash has left a row in `processing`.
- A settled captcha challenge stays as it is iff no handler in flight is on its way to a mark that changes it; it gives the permission at most once iff gifts made and still to be expected are at most one.
- Users keep at most one federation each iff nobody has, or is about to get, a second one by the commands in flight; chats stay linked to existing federations iff no join in flight goes to one that is gone or being deleted; in Postgres a chat keeps to one federation iff no rows of two federations are there, or about to be inserted for a federation that still exists.
- The exact and prefix modes of the blocklist are right iff the normalized pattern is ASCII or has no wildcard; the wildcard mode and the compiler iff it is ASCII.
- Redis' streak is the real one iff its keys outlived every gap; the timed key's expiry goes unnoticed iff the new window is at most a minute longer than the last.
- A purge is counted right iff its range is narrower than 2^63-1, and never finishes if it ends at the largest id.
- The human export comes back iff no trimmed reason holds a line break. A negative id written by hand needs a dash in front: without one its sign is taken for the dash, and the positive id is banned.
- Durations come back iff they count whole seconds; days and weeks are exact up to 106751 and 15250; a sum of groups is read if it fits and refused if it does not, but two groups of 2^63 nanoseconds wrap around unnoticed; the two parsers differ only on counts of minutes or hours that do not fit.
- A keyboard comes back from its printed lines iff every button can be written where it stands: labels that are not empty, labels and actions without line breaks or what closes them, actions in the form in which they are stored, and none that ends in `:same` at the head of a row.
- Stored text is stable under a second reading iff no CRLF was left in it; a CRLF is left only where two carriage returns stood before a line feed.

The help text describes the wildcards by white space and "any character"; the compiled expression uses classes
that differ from this on vertical tabs and line breaks. `DocumentedClasses` shows that normalized text leaves no
difference. Elsewhere the models follow the code alone. Where the two stores differ, the models say so:
Postgres drops the attempts argument of an update's retry and changes nothing when a marked captcha is
missing, while memory writes a marked zero record; Redis drops messages exactly one window old, which memory keeps.

## Model

| member | source | states |
|---|---|---|
| QueueProtocol.QueueSafety | bot-core/internal/worker/service.go:121-157 | In every state that any interleaving of claims, decisions, marks, clock ticks, progress writes and crashes reaches: a row is held by at most one worker; a held row is `processing` with the attempts the worker remembers; waiting rows have at most limit-1 attempts, processing ones 1 to limit, dead ones exactly the limit; a row was claimed as often as it has attempts; the limit of updates is 5; an update is stored once |
| QueueProtocol.TerminalForever | bot-core/internal/persistence/postgres/store.go:350-375 | Although no mark looks at the status it overwrites, a completed or dead row never changes again in any run |
| QueueProtocol.StoresAgree | bot-core/internal/persistence/postgres/store.go:359-366 | Postgres drops the attempts argument of an update's retry, memory writes it: the runs of the two stores are the same, step by step |
| QueueProtocol.BackoffExact | bot-core/internal/worker/service.go:140-147 | attempts² seconds is the backoff iff attempts is at most 96038; beyond, the 64-bit product has wrapped |
| QueueProtocol.SquaresClosedForm | bot-core/internal/worker/service.go:176-197 | The sum of the backoffs before the a-th claim in closed form |
| QueueProtocol.RetrySpacing | bot-core/internal/worker/service.go:176-197 | In every run the a-th claim of a row comes at least (a-1)·a·(2a-1)/6 seconds after its first, for every limit whose backoffs fit 64 bits |
| QueueProtocol.StepUsesPotential | bot-core/internal/worker/service.go:130-156 | Every claim and every mark lowers a natural number that no other step but a new row raises |
| QueueProtocol.WorkIsBounded | bot-core/internal/worker/service.go:130-156 | Without new rows the number of claims and marks of a run is bounded by the potential it starts with |
| QueueProtocol.OrphanForever | bot-core/internal/persistence/postgres/store.go:313-348 | A processing row that no worker holds, as a crash leaves it, stays exactly so in every continuation |
| QueueProtocol.CrashFreeNoOrphan | bot-core/internal/worker/service.go:94-119 | Runs without crashes create no such row |
| QueueProtocol.DrainRun | bot-core/internal/worker/service.go:121-207 | From every state without orphans there is a crash-free run without new rows to a state with every row completed or dead |
| QueueProtocol.DrainsIffNoOrphan | bot-core/internal/worker/service.go:121-207 | A reachable queue can come to rest iff no orphan is in it |
| QueueProtocol.CrashFreeRunsDrain | bot-core/internal/worker/service.go:121-207 | Every crash-free run can be continued until every row is completed or dead |
| QueueProtocol.StuckIffDrained | bot-core/internal/worker/service.go:121-207 | And none stops short of that: after a crash-free run every row is completed or dead iff no continuation without new rows claims or marks anything, however long it waits |
| QueueProtocol.CrashLeavesOrphan | bot-core/internal/worker/service.go:94-157 | Enqueue, claim, crash: a run after which the queue can never drain |
| QueueOutcomes.EveryRunIsTraced | bot-core/internal/worker/service.go:121-207 | Every run of the queue can be told with the outcome of each claim that was marked |
| QueueOutcomes.StatusIsOutcome | bot-core/internal/worker/service.go:121-207 | In every run, for every row: completed iff one of its claims ended without a failure and was marked; dead iff as many claims as its limit (five if it has none) failed and were marked, with the last error; waiting or held iff all marked claims failed and are fewer; a waiting row has the last error and is due attempts² seconds after it where that is the backoff |
| QueueOutcomes.ClaimedFrom | bot-core/internal/testsupport/store.go:250-275 | In every run an idle worker can claim a row iff its marked claims all failed, none is unmarked, they are fewer than its limit, and it is time: its first due time, or attempts² seconds after the last failure, as long as that is the backoff, so for up to 96038 failures |
| QueueStores.UpdateTable.EnqueueUpdate | bot-core/internal/testsupport/store.go:227-248 | Accepts an update iff its key is not stored yet; then adds one pending row under the next id, otherwise changes nothing |
| QueueStores.UpdateTable.ClaimPendingUpdates | bot-core/internal/testsupport/store.go:250-275 | Claims min(limit, due) rows: the lowest due ids, ascending, each with attempts counted up; nothing else changes |
| QueueStores.UpdateTable.MarkUpdateCompleted | bot-core/internal/testsupport/store.go:277-284 | Only the status of that row changes; a missing row is left missing |
| QueueStores.UpdateTable.MarkUpdateRetry | bot-core/internal/testsupport/store.go:286-296 | The row becomes the protocol's retried row; a missing row is left missing |
| QueueStores.UpdateTable.MarkUpdateDead | bot-core/internal/testsupport/store.go:298-306 | Only status and error of that row change |
| QueueStores.JobTable.ClaimPendingJobs | bot-core/internal/testsupport/phase3.go:167-188 | Claims only due rows, each once; none is left out unless the limit was reached; a limit below one still claims one job; they come oldest first |
| QueueStores.JobTable.CreateJob | bot-core/internal/testsupport/store.go:1071-1076 | Stores the job under its id, with the creation time it carries |
| QueueStores.EnqueueJob | bot-core/internal/jobs/service.go:63-84 | Adds a pending job with five attempts that is due at once; a fresh id makes it the submission of the table history |
| QueueStores.JobTable.UpdateJobProgress | bot-core/internal/testsupport/store.go:1078-1088 | Sets status, progress, total and error of the row, or of a zero row when there is none |
| QueueStores.JobTable.MarkJobCompleted | bot-core/internal/testsupport/phase3.go:216-228 | Completes the row, or a zero row |
| QueueStores.JobTable.MarkJobRetry | bot-core/internal/testsupport/phase3.go:230-242 | Retries the row, or a zero row |
| QueueStores.JobTable.MarkJobDead | bot-core/internal/testsupport/phase3.go:244-256 | Kills the row, or a zero row |
| QueueStores.ProcessUpdates | bot-core/internal/worker/service.go:121-157 | Works iff an update is due and takes the lowest due id. Without a failure it completes that row; with one it makes it dead if its attempts have reached five, and otherwise pending again attempts² seconds after the mark, either way with the error; nothing else of the row and no other row changes |
| QueueStores.ProcessJobs | bot-core/internal/worker/service.go:159-207 | The same for some due job with the job's own limit, five when that is below one, and the status `retry` while it waits |
| QueueStores.RoundIsARun | bot-core/internal/worker/service.go:130-156 | From every state that keeps the invariant, whatever other workers hold, a round of an idle worker on a due row is a run of the protocol to the same state with that row after its round |
| QueueStores.TablesAreRuns | bot-core/internal/worker/service.go:94-207 | From the empty tables, any sequence of arrivals, submissions, waits and rounds leaves the tables of a crash-free run of the protocol, so what holds of all runs holds of them; the contracts of EnqueueUpdate, EnqueueJob, ProcessUpdates and ProcessJobs state those very steps; between rounds no row is in `processing` |
| FanOut.Channel.OverChats | bot-core/internal/jobs/service.go:129-172 | A run over chats either attempts every chat once in order, with succeeded + failed = total and all reports written, or stops at the first progress write the store refuses |
| FanOut.Channel.Purge | bot-core/internal/jobs/service.go:174-218 | The same for the ids from the lower to the higher bound; zero ids are refused, a range whose 64-bit count wraps is skipped, and one that ends at the largest id never finishes: it goes on with the wrapped ids until a progress write is refused |
| FanOut.RangeCount | bot-core/internal/jobs/service.go:182-188 | The 64-bit count of a range is right iff the range is narrower than 2^63-1, and below one otherwise |
| FanOut.IdsOfRange | bot-core/internal/jobs/service.go:202-216 | A purge that finishes has attempted exactly the ids of its range, in order |
| FanOut.FlushCount | bot-core/internal/jobs/service.go:323-328 | Exactly one report per ten targets, rounded up, at the multiples of ten and at the end |
| FanOut.ProgressShape | bot-core/internal/jobs/service.go:323-328 | Written progress rises strictly from 0 to total in steps of at most ten, 1 + ceil(total/10) values |
| FanOut.ReportsAreFlushes | bot-core/internal/jobs/service.go:150-171 | Each report carries the progress, the total and the first failures of exactly the targets handled so far |
| FanOut.FailuresAreTheFailed | bot-core/internal/jobs/service.go:153-165 | The failure list holds exactly the failed targets, as often as they were attempted |
| FanOut.FirstFailuresReported | bot-core/internal/jobs/service.go:330-338 | A report names the first five of the targets that have failed by then, in the order of the targets, or all of them if there are no more |
| JobLife.EachTargetPerClaim | bot-core/internal/worker/service.go:159-207 | However workers interleave, fail and crash: a target is attempted at most once per claim of its job, so no more often than the job has attempts and its limit allows; every claim goes through its list from the first target on; the claim that completed a job went through all of it |
| JobLife.SettledJobRests | bot-core/internal/worker/service.go:171-204 | A completed or dead job attempts nothing any more, in any continuation |
| JobLife.LimitReached | bot-core/internal/worker/service.go:171-197 | No smaller bound holds: for every limit there is a run in which one target is attempted exactly that often |
| JobLife.FanOutIsARun | bot-core/internal/jobs/service.go:129-218 | Once a loop over chats or over a purge range that ends has returned, its attempts and reports are those of a run of a worker that began on the job, and its outcome is the worker's decision |
| Flood.FloodIndex.TrackFlood | bot-core/internal/testsupport/state.go:55-88 | Returns the streak and the window that the plain event log defines, and keeps the index in agreement with the log for all chats and users |
| Flood.FloodIndex.ClearFlood | bot-core/internal/testsupport/state.go:90-101 | Resets one user's window, and the streak if it is theirs; the index still agrees with the log |
| Flood.TrackKeepsAgreement | bot-core/internal/testsupport/state.go:55-88 | Tracking keeps streak and windows of every chat and user equal to what the log says |
| Flood.ClearKeepsAgreement | bot-core/internal/testsupport/state.go:90-101 | So does clearing |
| Flood.WindowIsRecent | bot-core/internal/testsupport/state.go:62-70 | With one window and a clock that does not go back, the messages that count are exactly the sender's since their last clear that are no older than the window |
| FloodEnforcement.UniqueMessageIDs | bot-core/internal/service/antispam/service.go:2510-2527 | The ids in order of first occurrence without zeros |
| FloodEnforcement.UniqueMeans | bot-core/internal/service/antispam/service.go:2510-2527 | Exactly the ids that are not zero, each once |
| FloodEnforcement.CheckFlood | bot-core/internal/service/antispam/service.go:1310-1342 | Does nothing without limits. Otherwise tracks the message and, iff the streak or the window is then over its limit, deletes ids and resets the user; if the action on the user fails, it does not reset. Which ids is said by the places of their messages in the log: of a streak or window over its limit, with clearflood every message that counts, without it those beyond the limit; no zeros, each once, in order |
| FloodEnforcement.OnlyFloodersMessages | bot-core/internal/service/antispam/service.go:1322-1341 | Every deleted id is a message that user wrote in that chat |
| FloodEnforcement.CurrentMessageGoes | bot-core/internal/service/antispam/service.go:2497-2508 | The message that passed a limit is always among the deleted |
| FloodEnforcement.OnlyTheCurrentMessage | bot-core/internal/service/antispam/service.go:2497-2508 | Without clearflood it is the only one |
| FloodEnforcement.StepStaysBounded | bot-core/internal/service/antispam/service.go:1310-1342 | After every message all streaks and windows are within their limits again |
| FloodEnforcement.EnforcementOverRuns | bot-core/internal/service/antispam/service.go:1310-1342 | Over whole runs: fires iff the streak is exactly limit+1 or the window exactly its limit+1; all counts stay bounded; only the flooder's messages go, the current one always, alone without clearflood, and in general exactly those said at CheckFlood, in that order |
| FloodEnforcement.DeletedIff | bot-core/internal/service/antispam/service.go:2497-2527 | An id is deleted iff it is not zero and belongs to a message that counts in a streak or window over its limit and, without clearflood, comes after as many others as the limit allows |
| FloodEnforcement.DeletedInOrder | bot-core/internal/service/antispam/service.go:1322-1341 | Each once; those of the streak before those of the window, and each in the order in which they were written |
| FloodEnforcement.WindowMeans | bot-core/internal/service/antispam/service.go:1310-1320 | Window seconds are seconds, and ten if none are set |
| FloodRedis.RedisStore.TrackFlood | bot-core/internal/state/redis/store.go:61-124 | One tracked message as steps on the sorted set and the list, with key expiry; the members come back each once, by millisecond and then by the bytes of their names |
| FloodRedis.RedisStore.ClearFlood | bot-core/internal/state/redis/store.go:126-141 | Drops the user's set, and the list if the last sender is the user |
| FloodRedis.StreakTTLMeans | bot-core/internal/state/redis/store.go:70-75 | The list lives for the longer of the window and half an hour |
| FloodRedis.ExpiryUnnoticedIff | bot-core/internal/state/redis/store.go:78-84 | The expiry of the timed key never changes a result iff the new window is at most a minute longer than the one the key was written with |
| FloodRedis.ExpiryUnnoticed | bot-core/internal/state/redis/store.go:78-84 | Over every run in which each message comes no earlier than the one before it and with a window at most a minute longer, a Redis that expires the timed key and one that never does hold the same members |
| FloodRedis.RedisMembers | bot-core/internal/state/redis/store.go:76-84 | The members are exactly the messages that no cutoff since has reached |
| FloodRedis.RedisAnswersWithinMemory | bot-core/internal/state/redis/store.go:61-124 | Over every such run Redis counts only messages that the memory index counts too |
| FloodRedis.MemoryKeepsOneWindowOld | bot-core/internal/state/redis/store.go:66-82 | A message that only memory counts is exactly one window old, to the millisecond |
| FloodRedis.RedisStreakIsSuffix | bot-core/internal/state/redis/store.go:91-104 | Redis' streak is always the end of the real one |
| FloodRedis.RedisStreakExactIff | bot-core/internal/state/redis/store.go:70-104 | It is the real one iff each message of the run came before the keys of the one before it expired |
| FloodRedis.KeysFollowTheLog | bot-core/internal/state/redis/store.go:61-141 | Keys of different chats and users do not disturb each other |
| Wildcard.NormalizeIdempotent | bot-core/internal/service/antispam/service.go:2219-2221 | Normalizing twice is normalizing once, so the compiler may normalize again; what normalizing keeps and forgets is said by NormalizedAlikeIff |
| Wildcard.BlocklistWildcardRegex | bot-core/internal/service/antispam/service.go:2258-2275 | The byte loop emits the concatenated expressions of the pattern's tokens |
| Wildcard.ParseEmit | bot-core/internal/service/antispam/service.go:2258-2275 | The emitted text parses back to exactly the token list |
| Wildcard.ItemsMeanTokens | bot-core/internal/service/antispam/service.go:2258-2275 | The parsed expression consumes a piece of text iff that piece is in the wildcard language |
| Wildcard.WildcardPatternMeaning | bot-core/internal/service/antispam/service.go:2250-2256 | Unanchored use holds iff some substring of the text is in the language |
| Wildcard.PatternMeaningIff | bot-core/internal/service/antispam/service.go:2234-2256 | Per mode, over all texts: the answer is that of the wildcard language iff the normalized pattern is ASCII or, in exact and prefix mode, has no wildcard |
| Wildcard.BlocklistModesAgreeIff | bot-core/internal/service/antispam/service.go:2064-2077 | The same over all messages and for rules of any spacing and letter case: the three modes are three readings of one language under exactly this condition |
| Wildcard.FastPathIff | bot-core/internal/service/antispam/service.go:2234-2248 | The comparison of strings gives the answers of the anchored expression iff the pattern is ASCII or has a wildcard |
| Wildcard.DocumentedClasses | bot-core/internal/service/utility/menus.go:191-193 | On normalized text the emitted classes are the documented ones: visible is not white space, and a dot is any character |
| Wildcard.CompilerCorrectIffAscii | bot-core/internal/service/antispam/service.go:2258-2275 | The compiled language is the wildcard language iff the normalized pattern is ASCII, because the loop turns single bytes into characters |
| Wildcard.AccentedWordFails | bot-core/internal/service/antispam/service.go:2270 | Every word outside ASCII matches itself as an exact rule and does not as a wildcard rule |
| Wildcard.AccentedPatternFails | bot-core/internal/service/antispam/service.go:2270 | So it is for the pattern é |
| BlocklistWords.EveryTextIsSpaced | bot-core/internal/service/antispam/service.go:2219-2221 | Every text is a list of words with white space around and between them |
| BlocklistWords.FieldsOfSpaced | bot-core/internal/service/antispam/service.go:2219-2221 | And splitting such a text gives exactly those words |
| BlocklistWords.NormalizeKeepsWords | bot-core/internal/service/antispam/service.go:2219-2221 | A normalized text has the words of the text, letter by letter up to case, in lower case with one blank between |
| BlocklistWords.NormalizedAlikeIff | bot-core/internal/service/antispam/service.go:2219-2221 | Two texts are normalized alike iff they have the same words up to letter case |
| BlocklistWords.CaseAndSpaceIgnored | bot-core/internal/service/antispam/service.go:2064-2077 | In every mode, whether a rule matches a message stays the same when either is written in another letter case or with other white space around and between its words |
| BlocklistWords.PlainRuleIff | bot-core/internal/service/antispam/service.go:2234-2240 | An exact rule without wildcards matches a message iff they have the same words up to letter case |
| BlocklistWords.PatternMeans | bot-core/internal/service/antispam/service.go:2258-2275 | What the characters of a pattern stand for: a letter for itself, `?` for one visible character, `*` for any number of them, `**` for anything on one line |
| CaptchaProtocol.CaptchaGates | bot-core/internal/service/captcha/service.go:337-460 | Under every interleaving of store calls, handlers and sweeps: a solved challenge that requires rules has them accepted; a solved question was handed its stored answer; permission is given only after a solved mark, with the rules accepted and the stored answer handed in as far as the challenge has them, or by a due sweep whose action is unmute; one pending challenge per bot, chat and user |
| CaptchaProtocol.NeverPendingAgain | bot-core/internal/testsupport/store.go:975-1049 | Under every interleaving, a challenge that has left the pending state never returns to it |
| CaptchaProtocol.UndisturbedHandlersSettle | bot-core/internal/service/captcha/service.go:353-423 | With handlers that run undisturbed, a challenge that is no longer pending keeps every field, and gives the permission at most once; under overlap SettledStaysIff and AtMostOnceIff give the exact conditions |
| CaptchaProtocol.PressIsARun | bot-core/internal/service/captcha/service.go:337-423 | An undisturbed handler is a run of the interleaved system with the stated effect |
| CaptchaProtocol.OverlappingHandlersOverwrite | bot-core/internal/service/captcha/service.go:502-540 | Overlapping handlers do not have this property: a run in which a solved challenge ends up expired |
| CaptchaActs.TakenUpIff | bot-core/internal/service/captcha/service.go:353-374 | A callback is taken up, by a handler that copies the challenge, iff it comes from the challenge's own user, finds the challenge pending and is not late |
| CaptchaActs.GatesPassedByOwnUser | bot-core/internal/service/captcha/service.go:337-460 | Under every interleaving: every callback taken up came from the challenge's own user in time; every solved challenge and every permission not given by a sweep goes back to such a callback, a press where there is nothing to answer or else the stored answer, and to one that accepted the rules where there are rules; every expired challenge was due or was handed a wrong answer |
| CaptchaSettlement.SettledStaysIff | bot-core/internal/service/captcha/service.go:337-460 | Exactly when they have it: a challenge that is no longer pending keeps every field in every continuation iff no handler or sweep in flight holds a copy of it whose route still leads to a mark that changes the row |
| CaptchaSettlement.ThreatCarriedOut | bot-core/internal/service/captcha/service.go:502-540 | Every such handler or sweep has a run of its own that changes the row |
| CaptchaSettlement.AtMostOnceIff | bot-core/internal/service/captcha/service.go:502-521 | A challenge that is no longer pending gives the permission at most once in every continuation iff what it gave and the handlers and sweeps in flight that may still give it make at most one |
| Captcha.ChallengeStore.CreateCaptchaChallenge | bot-core/internal/testsupport/store.go:975-985 | Removes the pending challenges of the same owner and stores the new one; at most one pending challenge per owner stays true |
| Captcha.ChallengeStore.MarkCaptchaRulesAccepted | bot-core/internal/testsupport/store.go:1008-1015 | Accepts the rules of one challenge, whatever its status |
| Captcha.ChallengeStore.MarkCaptchaSolved | bot-core/internal/testsupport/store.go:1017-1024 | Overwrites one status |
| Captcha.ChallengeStore.MarkCaptchaExpired | bot-core/internal/testsupport/store.go:1042-1049 | Overwrites one status |
| Captcha.ChallengeStore.ListExpiredCaptchaChallenges | bot-core/internal/testsupport/store.go:1026-1040 | Due challenges, each once, longest overdue first, none left out below the limit |
| Captcha.HandleButton | bot-core/internal/service/captcha/service.go:376-391 | Completes a button challenge whose rules are settled, and nothing else |
| Captcha.HandleRules | bot-core/internal/service/captcha/service.go:393-410 | Records a missing acceptance and completes button challenges |
| Captcha.HandleAnswer | bot-core/internal/service/captcha/service.go:412-423 | The stored answer completes, any other that is not blank fails, once the rules are settled |
| Captcha.CompleteChallenge | bot-core/internal/service/captcha/service.go:502-521 | Marks solved first; the permission depends on Telegram |
| Captcha.FailChallenge | bot-core/internal/service/captcha/service.go:523-540 | Marks expired only after Telegram has carried out the ban |
| Captcha.HandleCallback | bot-core/internal/service/captcha/service.go:337-374 | A callback changes something only if it comes from the challenge's own user while the challenge is pending and, unless it has no timeout action, not overdue. Then a press solves a button challenge whose rules are settled, accepting records the acceptance and solves a button challenge, the stored answer solves, and any other that is not blank expires it if Telegram carries out the ban; the permission is given iff it was solved and Telegram agreed. This is the undisturbed handler of the protocol |
| Captcha.SweepExpired | bot-core/internal/service/captcha/service.go:425-460 | Takes a listing of at most 100 due challenges, expires exactly those it can reach, gives the permission to exactly those of them whose action is unmute, and changes nothing else |
| Captcha.SweepAllEffect | bot-core/internal/service/captcha/service.go:430-458 | Expires exactly the listed challenges it reaches and unmutes, once each, exactly those with that action |
| Captcha.UniqueOptions | bot-core/internal/service/captcha/service.go:686-710 | At most four distinct options; with at most four candidates none is lost |
| Captcha.NumericOptions | bot-core/internal/service/captcha/service.go:620-629 | Four distinct numbers: the sum, the one before it and the two after it |
| Captcha.WordOptions | bot-core/internal/service/captcha/service.go:664-676 | Four distinct words of the list, the answer among them |
| Captcha.CodeOptions | bot-core/internal/service/captcha/service.go:678-684 | At most four distinct codes that differ from the answer in at most one place, the answer among them |
| Captcha.MutateCaptchaCode | bot-core/internal/service/captcha/service.go:721-735 | A code that differs from the answer in at most one place; it may be the answer itself |
| FederationRegistry.RegistryInvariants | bot-core/internal/testsupport/phase3.go:443-481 | After any sequence of commands: a chat is in at most one federation and listed once; a user owns at most one; whoever is listed as owner is the owner; links and subscriptions lead to federations that exist, none to itself |
| FederationRegistry.CreateKeepsInv | bot-core/internal/service/federation/service.go:145-177 | A new federation for a user without one keeps these invariants |
| FederationRegistry.DeleteKeepsInv | bot-core/internal/testsupport/phase3.go:464-481 | Deleting leaves nothing behind |
| FederationRegistry.TransferKeepsInv | bot-core/internal/service/federation/service.go:450-475 | A transfer to a user who owns no other federation keeps them |
| FederationRegistry.JoinMeans | bot-core/internal/testsupport/phase3.go:580-595 | Joining takes the chat out of every other list and adds it to one |
| FederationRegistry.LeaveMeans | bot-core/internal/testsupport/phase3.go:597-610 | Leaving removes the chat from that list only |
| FederationRegistry.LeaveUndoesJoin | bot-core/internal/testsupport/phase3.go:580-610 | Join then leave: the chat is in no federation, every other chat where it was |
| FederationRegistry.OtherFederationsUntouched | bot-core/internal/service/federation/service.go:145-260 | A command changes nothing of other federations, except that joining takes the chat from its old one and deleting ends subscriptions to the deleted one |
| FederationRegistry.AuthorityRespected | bot-core/internal/service/federation/service.go:860-884 | What changes about a federation was changed by its owner or a sudo user; bans also by its admins, an admin entry also by that admin, a chat also by its creator |
| FederationEffects.CreationMeans | bot-core/internal/service/federation/service.go:145-177 | A new federation belongs to its sender, who alone is listed; it has the given names, no bans, no subscriptions and asks for no reasons |
| FederationEffects.DeletionMeans | bot-core/internal/service/federation/service.go:205-218 | Of a deleted federation no record, admin, chat, ban or subscription is left |
| FederationEffects.RecordCommandsMean | bot-core/internal/testsupport/phase3.go:483-512 | Renaming writes the names without outer blanks, the short one in lower case, and changes nothing else of the record; the reason setting changes that setting only |
| FederationEffects.AdminCommandsMean | bot-core/internal/service/federation/service.go:354-396 | Promoting lists the target as an admin, demoting takes the target off the list, demoting oneself oneself; nobody else's entry changes |
| FederationEffects.TransferMeans | bot-core/internal/testsupport/phase3.go:661-678 | The target becomes the owner and is listed as owner, everybody else on the list as admin, nobody is dropped |
| FederationEffects.SubscriptionMeans | bot-core/internal/service/federation/service.go:525-555 | Subscribing adds the other federation and unsubscribing removes it; no other subscription changes |
| FederationEffects.BanMeans | bot-core/internal/service/federation/service.go:398-448 | A ban is stored under its user with the sender as the one who banned, an unban removes it, and no other user's ban changes |
| FederationEffects.BanRules | bot-core/internal/service/federation/service.go:398-448 | Where reasons are asked for no ban is set without one; no import has more than a hundred entries |
| FederationEffects.ChatListsMean | bot-core/internal/testsupport/phase3.go:580-610 | A chat that joins comes last in its list, one that leaves is taken out of its place, and all others keep their order |
| FederationEffects.NothingWithoutRights | bot-core/internal/service/federation/service.go:860-884 | Record and subscriptions change by the owner or a sudo user only; the list of admins too, but for one who takes themselves off; bans by the owner, or by an admin who may restrict members; a chat joins by its creator who is an admin of the federation, and leaves by its creator |
| FederationEffects.OwnerMay | bot-core/internal/service/federation/service.go:860-868 | And the owner may: rename, delete, set the reason rule, promote, demote, transfer to a user without another federation, subscribe, import |
| FederationEffects.AdminMay | bot-core/internal/service/federation/service.go:870-884 | An admin who may restrict members may ban, with a reason where one is asked for |
| FederationEffects.CreatorMay | bot-core/internal/service/federation/service.go:220-260 | A chat's creator may leave, and may join where the creator is an admin |
| FederationEffects.ReferenceMeans | bot-core/internal/service/federation/service.go:803-826 | A reference without its outer blanks is an id if a federation has it, and otherwise a short name in any letter case |
| FederationEffects.NoReferenceMeans | bot-core/internal/service/federation/service.go:803-826 | Without one it is the chat's federation, or, in a chat without one, the one the sender owns |
| FederationEffects.TargetReferenceMeans | bot-core/internal/service/federation/service.go:886-912 | A command with a target goes to the chat's federation whatever the reference says; only in a chat without one the reference counts |
| FederationOverlap.OverlapInvariants | bot-core/internal/testsupport/phase3.go:443-725 | Whatever commands overlap between their checks and their writes: a chat is listed once and in at most one federation; whoever is listed as owner is the owner; bans stand under the user they ban; no federation listens to itself |
| FederationOverlap.OwnersStayUniqueIff | bot-core/internal/service/federation/service.go:145-177 | From every reachable state: every user keeps at most one federation, in every continuation that does not overlap two commands making one user an owner, iff no user has or is about to get two by the commands now in flight |
| FederationOverlap.OneFederationEach | bot-core/internal/service/federation/service.go:450-475 | So without such overlaps no user ever owns two federations, however all other commands interleave, and what survives every interleaving holds as well |
| FederationOverlap.TwoFederationsForOneUser | bot-core/internal/service/federation/service.go:149-177 | Two overlapping `/newfed` of one user pass every check and leave that user with two federations |
| FederationOverlap.LinksStayIff | bot-core/internal/service/federation/service.go:205-242 | Chats stay linked to federations that exist, in every continuation that overlaps no join with a deletion, iff they are now and no join in flight goes to a federation that is gone or has a deletion in flight |
| FederationOverlap.JoinAfterDelete | bot-core/internal/service/federation/service.go:205-242 | A join and a deletion pass every check, the deletion is written first, and the chat is linked to a federation that is not there |
| FederationOverlap.AcceptedMayPass | bot-core/internal/service/federation/service.go:803-884 | Commands that pass every check at one moment are among the interleaved ones |
| FederationJoins.OneFederationIff | bot-core/internal/persistence/postgres/phase3.go:488-498 | In Postgres, from every state: chats keep to one federation, in every continuation in which no chat begins to join one federation while it is joining another, iff no chat has two rows, or one and another about to be inserted, or two about to be, for federations that still exist; the foreign key rejects the others |
| FederationJoins.ReachedOk | bot-core/internal/persistence/postgres/phase3.go:372-398 | The states the theorem speaks of include every state that is reached |
| FederationJoins.DroppedIsNoRival | bot-core/internal/persistence/postgres/phase3.go:395-398 | A join whose federation is dropped in between never leaves its chat in two federations |
| FederationJoins.TwoFederationsForOneChat | bot-core/internal/persistence/postgres/phase3.go:488-498 | Two overlapping joins of one chat leave it in both federations |
| FederationStore.Store.CreateFederation | bot-core/internal/testsupport/phase3.go:443-462 | Stores the federation and lists its owner |
| FederationStore.Store.DeleteFederation | bot-core/internal/testsupport/phase3.go:464-481 | Removes it from all five maps and from every subscription |
| FederationStore.Store.RenameFederation | bot-core/internal/testsupport/phase3.go:483-494 | Writes trimmed names, the short one in lower case, into the record as it is; a missing one is reported |
| FederationStore.Store.UpdateFederationSettings | bot-core/internal/testsupport/phase3.go:496-512 | Writes the setting into the record as it is; a missing one is reported |
| FederationStore.Store.JoinFederation | bot-core/internal/testsupport/phase3.go:580-595 | Filters the chat from every list, then appends it to one |
| FederationStore.Store.LeaveFederation | bot-core/internal/testsupport/phase3.go:597-610 | Filters the chat from one list |
| FederationStore.Store.SetFederationAdmin | bot-core/internal/testsupport/phase3.go:637-649 | Writes or deletes one entry |
| FederationStore.Store.TransferFederation | bot-core/internal/testsupport/phase3.go:661-678 | Changes the owner, turns every owner entry into an admin's, lists the new owner |
| FederationStore.Store.SetFederationSubscription | bot-core/internal/testsupport/phase3.go:680-698 | Adds or removes a subscription; one to itself is refused |
| FederationStore.Store.SetFederationBan | bot-core/internal/testsupport/phase3.go:713-725 | Writes or deletes one ban |
| FederationStore.Store.GetFederationOwnedByUser | bot-core/internal/testsupport/phase3.go:536-545 | Finds an owned federation iff there is one |
| FederationStore.Store.GetFederationByChat | bot-core/internal/testsupport/phase3.go:547-559 | Finds the chat's federation iff it has one |
| FederationStore.Store.ResolveHere | bot-core/internal/service/federation/service.go:803-826 | Without a reference the federation is unique: the chat's, or else the sender's own |
| FederationStore.Store.ListFederationSubscriptions | bot-core/internal/testsupport/phase3.go:700-711 | The existing federations listened to, by short name |
| FederationStore.Store.ListFederationBans | bot-core/internal/testsupport/phase3.go:734-743 | Every ban once, by ascending user id |
| FederationStore.NewFed | bot-core/internal/service/federation/service.go:145-177 | Creates iff the sender owns no federation |
| FederationStore.TransferCommand | bot-core/internal/service/federation/service.go:450-475 | Transfers iff the sender may and the target owns no other federation |
| FederationStore.PromoteCommand | bot-core/internal/service/federation/service.go:354-374 | Changes one admin entry iff the sender may |
| FederationStore.DemoteMeCommand | bot-core/internal/service/federation/service.go:376-396 | Removes the sender's entry iff the sender is not the owner |
| FederationStore.ImportCommand | bot-core/internal/service/federation/service.go:636-654 | Imports iff the sender owns the federation and the list has at most 100 entries; otherwise changes nothing |
| FederationStore.OverlayLastWins | bot-core/internal/service/federation/service.go:639-654 | After an import every user of the list has their last entry |
| FederationStore.OverlayKeepsOthers | bot-core/internal/service/federation/service.go:639-654 | Everybody else has what they had, or nothing under overwrite |
| FederationStore.ImportMeans | bot-core/internal/service/federation/service.go:636-654 | After an import every user of the list has their last entry; everybody else keeps their ban, or has none if the list replaces the bans |
| FederationStore.EffectiveFederationBan | bot-core/internal/service/federation/service.go:828-848 | Banned iff the federation or one it listens to bans the user; its own ban first, then the first short name |
| BanExchange.RenderFedExport | bot-core/internal/service/federation/service.go:996-1001 | The lines of the human export |
| BanExchange.ParseFedImport | bot-core/internal/service/federation/service.go:1052-1072 | The bans of the lines in order, or an error at an invalid id |
| BanExchange.ExportThenImport | bot-core/internal/service/federation/service.go:1052-1072 | An export without line breaks in its reasons comes back: same users in order, negative ids included, reasons trimmed and dashed |
| BanExchange.RoundTripIffOneLineReasons | bot-core/internal/service/federation/service.go:996-1001 | It comes back iff no trimmed reason holds a line break |
| BanExchange.SecondExportIsTheFirst | bot-core/internal/service/federation/service.go:946-952 | A second export equals the first |
| BanExchange.TrimmedExport | bot-core/internal/service/federation/service.go:624-630 | Trimming the whole export changes nothing |
| BanExchange.OneLineOneBan | bot-core/internal/service/federation/service.go:624-630 | Data given as arguments, which is one line, holds at most one ban |
| BanExchange.FedImportHuman | bot-core/internal/service/federation/service.go:609-660 | The whole human import: when it is refused, and the registry it leaves |
| BanExchange.ImportRestoresBans | bot-core/internal/service/federation/service.go:639-654 | Overwriting with an export leaves exactly the exported bans in imported form |
| ImportLines.LineByParts | bot-core/internal/service/federation/service.go:1056-1064 | A line, given by its parts: after an optional dash, what stands before the first colon is the user, the rest the reason; blanks around either do not matter |
| ImportLines.HandWrittenBan | bot-core/internal/service/federation/service.go:1055-1071 | A line with a 64-bit id bans that user, with or without a dash and blanks in front, with the trimmed reason after the colon, or none without a colon; ids without a dash must not be negative |
| ImportLines.SignTakenForDash | bot-core/internal/service/federation/service.go:1056 | Because the sign of a negative id without a dash is taken for one: the line bans the positive id |
| ImportLines.NothingOnTheLine | bot-core/internal/service/federation/service.go:1057-1059 | Lines of blanks, and of blanks and one dash, are skipped |
| ImportLines.OneLineMore | bot-core/internal/service/federation/service.go:1052-1072 | Line by line: a ban comes after those of the lines before, a line with nothing on it changes nothing, an invalid one spoils the whole |
| ImportLines.NoNumberFails | bot-core/internal/service/federation/service.go:1060-1064 | A line whose user is no 64-bit number makes the whole import fail, wherever it stands |
| ImportLines.NumberMeans | bot-core/internal/service/federation/service.go:1061 | Digits with or without a sign are the number they write if it fits 64 bits |
| ImportLines.OnlyNumbers | bot-core/internal/service/federation/service.go:1061 | And nothing else is a number |
| ImportLines.DashMeans | bot-core/internal/service/federation/service.go:946-952 | A reason is written without its outer blanks, and as a dash if nothing is left |
| ImportLines.ExportForm | bot-core/internal/service/federation/service.go:996-1001 | One line for each ban, in order: a dash, the id, a colon and the reason |
| Durations.FlexiblePrintThenParse | bot-core/internal/service/antispam/service.go:2436-2475 | For every 64-bit duration: parsing the printed text gives its whole seconds, zero if not positive |
| Durations.FlexibleRoundTripIff | bot-core/internal/service/antispam/service.go:2436-2475 | The text brings a duration back iff it is not negative and counts whole seconds |
| Durations.PrintingIsInjective | bot-core/internal/service/antispam/service.go:2459-2475 | Different whole seconds are printed differently |
| Durations.CaptchaPrintThenParse | bot-core/internal/service/captcha/service.go:783-829 | The same for the captcha texts, where "off" is not read back |
| Durations.CaptchaRoundTripIff | bot-core/internal/service/captcha/service.go:783-829 | There the text brings a duration back iff it is positive and counts whole seconds |
| Durations.DaysAndWeeksExactIff | bot-core/internal/service/antispam/service.go:2449-2453 | Days are exact iff at most 106751, weeks iff at most 15250 |
| Durations.WrappedDays | bot-core/internal/service/antispam/service.go:2449-2451 | 213504 days are read as less than half an hour |
| Durations.MinutesAndHoursExactIff | bot-core/internal/service/captcha/service.go:799-804 | Too many minutes or hours are an error for one parser and wrap in the other |
| Durations.ParsersAgreeIff | bot-core/internal/service/captcha/service.go:783-811 | On every text the two parsers agree iff it is not a count of minutes or hours that does not fit |
| DurationTexts.UnitsMean | bot-core/internal/service/antispam/service.go:2441-2443 | The units of a duration text, each by the next smaller one |
| DurationTexts.SignedGroups | bot-core/internal/service/antispam/service.go:2441-2443 | A text of groups, each a number with its unit and perhaps a fraction, is the sum of its groups, or its negative after a minus sign |
| DurationTexts.GroupsInParsers | bot-core/internal/service/antispam/service.go:2436-2457 | And that is what both parsers of the bot make of it |
| DurationTexts.SumDoesNotFit | bot-core/internal/service/antispam/service.go:2441-2443 | If the sum exceeds 2^63 nanoseconds nothing is read, unless a single group is exactly that long |
| DurationTexts.TwoHalvesWrapAround | bot-core/internal/service/antispam/service.go:2441-2443 | Two groups of 2^63 nanoseconds are read as no time at all |
| DurationTexts.OnlyGroups | bot-core/internal/service/antispam/service.go:2441-2443 | What is read is made of such groups |
| DurationTexts.CaseAndBlanksIgnored | bot-core/internal/service/antispam/service.go:2437 | Both parsers take a text in any letter case and with blanks around it |
| DurationTexts.LargestUnitWritten | bot-core/internal/service/antispam/service.go:2459-2475 | Whole seconds are written as a number of the largest unit that divides them |
| DurationTexts.NothingWritten | bot-core/internal/service/captcha/service.go:813-829 | What is not positive is written "0s" or "off" |
| Buttons.ParseButtonRow | bot-core/internal/service/content/formatter.go:651-694 | The row of buttons a line holds, or none |
| Buttons.ParseStoredContent | bot-core/internal/service/content/formatter.go:31-56 | Text and keyboard of stored content |
| Buttons.NothingLost | bot-core/internal/service/content/formatter.go:31-56 | For every text each line is a row or is kept, in order; the keyboard holds the rows' buttons in order, none lost or doubled, no row empty, one row per opening line |
| ButtonPrinter.PrintedActionIff | bot-core/internal/service/content/formatter.go:696-741 | The printed action of a button, with the mark of its place in the row, reads as that button and place iff it can be written there |
| ButtonPrinter.PrintedButtonIff | bot-core/internal/service/content/formatter.go:651-694 | A printed button is read back, alone and with its place, iff it can be written there; an action that ends in `:same` can, in every place but the first of a row |
| ButtonPrinter.MarkKept | bot-core/internal/service/content/formatter.go:696-704 | A printed action that reads as the same button reads with its own mark |
| ButtonPrinter.MarkIsAmbiguous | bot-core/internal/service/content/formatter.go:696-704 | The first button of a row whose data end in `:same` is printed as, and read as, the button with shorter data that continues a row |
| ButtonPrinter.PrintedRow | bot-core/internal/service/content/formatter.go:651-694 | A printed button is a line of one button |
| ButtonPrinter.UrlFormsAgree | bot-core/internal/service/content/formatter.go:706-737 | A styled link, a plain one and one without slashes mean the same, plain and with `:same` |
| ButtonForms.LinkMeans | bot-core/internal/service/content/formatter.go:706-737 | A target with a scheme is the link itself if it is a good one, a target without becomes its https form, an empty one is no button |
| ButtonForms.NoteMeans | bot-core/internal/service/content/formatter.go:706-737 | A number sign and a name lead to the note of that name in lower case |
| ButtonForms.MarkMeans | bot-core/internal/service/content/formatter.go:696-704 | A final `:same` in any letter case is cut off with the blanks around it, and noted |
| ButtonForms.DataMeans | bot-core/internal/service/content/formatter.go:696-741 | A data button by its action in any letter case and with any blanks, with and without its mark |
| ButtonForms.LinkActionMeans | bot-core/internal/service/content/formatter.go:696-741 | The same for a link button |
| ButtonForms.SeveralOnOneLine | bot-core/internal/service/content/formatter.go:651-694 | Buttons written one after the other on a line, with any number of blanks between, are one row of them in order, and the first says whether it continues the row before |
| ButtonRoundTrip.PrintThenParse | bot-core/internal/service/content/formatter.go:31-56 | A text without lines of buttons and the canonical lines of any keyboard that can be written come back as the trimmed text with plain line ends and that keyboard |
| ButtonRoundTrip.KeyboardComesBackIff | bot-core/internal/service/content/formatter.go:31-56 | They come back iff every button can be written where it stands |
| ButtonRoundTrip.StoredIsTextOnly | bot-core/internal/service/content/formatter.go:31-56 | Stored text holds no lines of buttons |
| ButtonRoundTrip.StoredTextIsStable | bot-core/internal/service/content/formatter.go:35 | Reading stored text again gives the same text and no buttons, iff no CRLF was left in it |
| ButtonRoundTrip.StableWithoutCRCRLF | bot-core/internal/service/content/formatter.go:35 | A text without two carriage returns before a line feed is stored as text that reads as itself |
| ButtonRoundTrip.UnstableText | bot-core/internal/service/content/formatter.go:35 | With them it need not be: a text of six characters that a second reading changes |
| ButtonRoundTrip.ReplaceChanges | bot-core/internal/service/content/formatter.go:35 | Only texts with CRLF change, and they get shorter |
| RoleCache.PermissionCache.Get | bot-core/internal/permissions/service.go:139-162 | One undisturbed call: a live entry, or the answer, which is cached from the call's clock reading on |
| RoleCache.PermissionCache.Refresh | bot-core/internal/permissions/service.go:124-137 | Caches the answer from the moment it came |
| RoleCache.KeptForItsLifetime | bot-core/internal/permissions/service.go:139-162 | What was cached answers every call that begins within 30 s for roles and 15 s for administrators, and no later one |
| RoleCache.RolesAreFresh | bot-core/internal/permissions/service.go:139-162 | Under every interleaving, returned roles were the true ones at an instant later than 30 s before the call began and no later than its return |
| RoleCache.AdminsAreFresh | bot-core/internal/permissions/service.go:99-137 | For administrators later than 15 s and the length of one refresh of that chat before |
| RoleCache.SlowRefreshOutlivesLifetime | bot-core/internal/permissions/service.go:124-137 | The refresh's length does count: a call that gets administrators last true 23 s before it began |
| RoleCache.UndisturbedCall | bot-core/internal/permissions/service.go:139-162 | An undisturbed call is a run in which the cache changes as in PermissionCache.Get |

## Left out

- Telegram, HTTP, the webhook server, SQL text, drivers, configuration, logging and metrics: only the abstract effect of each statement on its table is kept.
- Help texts, message wording, translations and rendering of markup: user interface text.
- The `regex`, `contains`, `file`, `inline`, `forward` and `lookalike` modes of the blocklist, and lock detectors: regular expressions given by users, or one library call.
- The csv, minicsv and json formats of the ban exchange: their syntax is in libraries that are not part of this model.
- Lower-casing outside ASCII: `Lower` keeps every other character; the prefix and suffix tests it serves are ASCII.
- url.Parse is a parameter, `urlOk`, of the button functions; the floating-point value of a decimal fraction is a parameter, `fraction`, of time.ParseDuration.
- The storage of keyboards as JSON and the later filling in of note links.
- Job summaries and notifications, worker ids and timestamps other than due times.
- Postgres claims updates by creation time, memory by id: the protocol lets a claim take any due row, which covers both.
- Federation tables of Postgres other than the chats': FederationOverlap has the in-memory store, whose writes are one step each.
- What a check of a federation command still says about rights once it is over: its reads come at different moments, so FederationOverlap demands of it only what its last read saw. Rights are proved for commands one at a time (`AuthorityRespected`).
- Short names of federations are unique in Postgres only: a short name may resolve to any federation that has it.
- That the owner of a federation is listed among its admins: demoting the owner removes the entry, and promoting the owner turns it into an admin's.
- Quiet settings, log chats, languages and notification switches of federations: toggles without an effect on the invariants. The truncation of display names to 64 bytes.
- Cross-bot use of federations: the registry is that of one bot.
- Sorting the chats of a federation ban by id: the loop takes the chats as a list.
- FanOut.Channel.Purge: a method has to end, so the one loop that may not is given up after `patience` messages.
- JobLife takes lists without repetitions, as chats and ranges that end have; a purge that ends at the largest id would meet its ids again after 2^64 others.
- FloodRedis: other callers between the read of the last sender and the write of the list.
- CaptchaProtocol: the limit and the order of a sweep's list are in Captcha.ChallengeStore; the interleaved sweep may take any due challenges.
- Other ways to print a keyboard than one button per line: two buttons on one line are read (`ParseButtonRow`), but the printer does not write them.
- AFK, clones, notes and filters beyond their button syntax, router dispatch, settings commands: they would only add easy members.
