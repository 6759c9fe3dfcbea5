# Verified models of the Mastyf cores

This project models seven stateful cores of the Mastyf repository in Dafny and proves what
they are for.

* **Data plane** (Go). `EdgeBudget` is the call-rate guard with its resetting one-minute
  window, `RulesSync` the rules cache kept fresh by conditional requests (RFC 9110, sections
  13.1.2 and 15.4.5), `RulesSignature` the signed text and the acceptance of an envelope,
  `DataPlane` the deny decision, the request handler, and whole runs in which handlers,
  synchronisations and the shared budget interleave.
* **Stdin proxy** (Python and TypeScript). `SerialQueue` is the future-chained queue as a
  step system, `StdinFraming` the cutting of a stream into lines, `StdinPipeline` both
  together.
* **Entitlements** (Python). `CanonicalJson` is the compact ASCII JSON printer (RFC 8259,
  sections 4 and 7), `Entitlement` the canonical bytes and the verification of a token,
  `EntitlementStore` the write-then-rename save with any number of savers that may stop
  anywhere.
* **SOC API** (TypeScript). `ResultCache` is the TTL cache, `CostSeries` the grouped,
  per-server and pivoted cost views, `Sparklines` the 24-bucket lines.
* **Benchmarks** (TypeScript). `BenchSession` correlates replies, timers and failed sends
  with calls; `LatencyStats` reads percentiles off a sorted copy.
* **Gateway** (Python). `GuardedExecution` is the guarded pipeline with its arbiter and its
  information-flow rules, interleaved at the awaits on the auditor and the tool.
* **Charts and corpus** (Python and TypeScript). `ChartSampling` thins out a series;
  `CorpusEval` counts a confusion matrix and applies the exit gates.

A class carries the fields its source object updates; each of its methods is proved to take
exactly the step of a transition function, and the theorems are about all runs of that
function. Clocks, network answers, schedulers and library calls are inputs of a step and
arbitrary unless a lemma restricts them.

Where the code does less than its wording suggests, the exact extent is proved:

* The budget is a cap per minute, but one cap a minute plus one in hand does not bound every
  interval, since a window resets rather than slides: `EdgeBudget.BurstBound` and
  `EdgeBudget.BurstBoundAttained` give the exact maximum, `EdgeBudget.LinearBoundIff` the
  lengths for which the rate holds, `EdgeBudget.LinearBoundFails` a run that breaks it.
* `canonicalize_entitlement` calls its output sorted by key. Only the top level is
  (`Entitlement.NestedOrderShows`).
* Its bytes determine the signed fields for texts without split surrogate pairs
  (`Entitlement.CanonicalFaithful`); Python can hold such a pair, and every text with one is
  printed like another text (`CanonicalJson.SplitPairCollides`).
* The signed text determines the fields only up to where their newlines lie
  (`RulesSignature.SignatureInputInjective`), so fields never issued can be accepted
  (`RulesSignature.AcceptedThoughNotIssued`).
* The save is called atomic. It is exactly when no two savers share a temporary name
  (`EntitlementStore.AtomicIffNamesDistinct`); the names come from the clock.
* The benchmark session may be given an id again. The pending map is then exact if and only
  if no earlier call under the id can still delete the entry (`BenchSession.ReuseIffClean`).
* A server named `total` falsifies the pivoted rows (`CostSeries.ServerNamedTotal`), by an
  amount that is zero only by coincidence (`CostSeries.ViewsAgree`); one named `bucket` only
  replaces the row's label.
* Removal on read can be observed when the clock is set back, exactly when it was ahead of
  the read after the first operation (`ResultCache.AgreesIffNeverAhead`).
* The information-flow verdict is given before the auditor is awaited, and is not repeated
  (`GuardedExecution.SafeAtDispatchIff`, `GuardedExecution.TaintDuringAudit`). Runs are safe
  without the auditor, and calls of a session that never overlap are safe with it
  (`GuardedExecution.SafeRunsIffAuditorOff`, `GuardedExecution.OneAtATimeIsSafe`).
* A refusal by the auditor can carry the violation text `none`, the auditor's default
  (`GuardedExecution.AuthorityIsIntersection`).

`dafny verify dfyconfig.toml` checks the whole project.

## Model

| member | source | states |
|---|---|---|
| EdgeBudget.Guard.Check | apps/proxy-core/main.go:261-283 | the guard's new window and verdict are the step that all bounds below are about; without a positive cap nothing is touched |
| EdgeBudget.BurstBound | apps/proxy-core/main.go:255-283 | for every run, any mix of caps up to m calls a window, and every closed interval, the admitted calls are at most `Capacity(m, length)` |
| EdgeBudget.BurstBoundAttained | apps/proxy-core/main.go:261-283 | for every cap and every interval length some run admits exactly that many, so the bound is the best possible |
| EdgeBudget.MinuteBounds | apps/proxy-core/main.go:269-281 | in numbers: a closed minute admits at most 19 calls for caps below 5500, and otherwise fewer than 2/500 of the cap; n minutes at most 10 (n + 1) calls, or (n + 1)/500 of the cap |
| EdgeBudget.LinearBoundIff | apps/proxy-core/main.go:269-281 | cap times (minutes + 1), minutes not rounded, bounds all runs of an interval length if and only if an arithmetic condition on that length holds |
| EdgeBudget.LinearBoundFails | apps/proxy-core/main.go:269-281 | a run that breaks the unrounded rate, for every cap, in an interval of one nanosecond |
| EdgeBudget.LateCallAdmitted | apps/proxy-core/main.go:269-281 | in every run, a budgeted call more than a minute after its window was opened is admitted whatever came before; so is one more than a minute after the budgeted call before it, and the first one |
| EdgeBudget.VerdictByHistory | apps/proxy-core/main.go:261-283 | every verdict of every run from its history alone: without a cap unbudgeted; with one, refused if and only if the call, counting refused ones, is beyond the tenth and beyond one per 500 of the cap since its window was opened |
| EdgeBudget.StepUsesSlots | apps/proxy-core/main.go:269-281 | the potential argument: each call uses up the admissions it takes from those still possible |
| EdgeBudget.AdmittedWithinSlots | apps/proxy-core/main.go:269-281 | from any reachable window, a run admits no more than the slots left by the end of the interval |
| RulesSignature.SignatureInputInjective | apps/proxy-core/main.go:123-125 | two field tuples with one signed text are equal if and only if their last four fields have the same newline counts, however many newlines the rules text has |
| RulesSignature.NewlineInIssuerCollides | apps/proxy-core/main.go:123-125 | a newline in the issuer can be moved into the rules text without changing what is signed |
| RulesSignature.AcceptedWasIssued | apps/proxy-core/main.go:127-165 | under the hypothesis that the envelope's MAC value is valid, under its key, for signed texts of issued tuples only: accepted rules have the signed text of an issued tuple and a trusted issuer, and carry the very fields of one if and only if one with that text has the same newline counts; when all issued tuples have one shape, if and only if the presented fields have it |
| RulesSignature.AcceptedThoughNotIssued | apps/proxy-core/main.go:123-165 | under the same hypothesis, for every rules text: a verifier and a header that accept fields never issued, a newline of the issued issuer having moved into the rules text |
| RulesSignature.AcceptedIff | apps/proxy-core/main.go:127-165 | rules are accepted if and only if there is no header and none is required, or the header reads as an envelope of a trusted issuer, not past a readable expiry, with a key, whose MAC over the five fields on their lines is its signature; the reason of a rejection is the first check that fails |
| RulesSignature.OnlyExpiryDependsOnTime | apps/proxy-core/main.go:147-151 | the verdict changes with time only by expiring, and only when the expiry date can be read |
| RulesSync.RulesCache.Set | apps/proxy-core/main.go:181-188 | rules, ETag, time and readiness are replaced together |
| RulesSync.RulesCache.Sync | apps/proxy-core/main.go:327-375 | only a 200 with readable body, valid signature and decodable rules changes the cache, and then to that response's rules and ETag |
| RulesSync.OnlyDeliveriesInstall | apps/proxy-core/main.go:349-370 | a 200 that can be read, passes the signature check and decodes replaces the whole cache; any exchange that fails one of these leaves it equal |
| RulesSync.CachedWasDelivered | apps/proxy-core/main.go:327-375 | over any log, a ready cache holds the rules, tag and time of the last response that was a 200, passed the signature check and decoded; a cache that is not ready is cold and there was none |
| RulesSync.LastInstallWins | apps/proxy-core/main.go:327-375 | over any log of responses, rules, ETag and time all come from the last response that installs |
| RulesSync.ReadyIffInstalled | apps/proxy-core/main.go:175-188 | the cache is ready exactly from the first installing response on, and cold before |
| RulesSync.NotModifiedMeansCurrent | apps/proxy-core/main.go:327-355 | in all runs against a server that answers conditionally, a matching ETag means the cache holds the server's current rules, if and only if ETags tell apart documents that decode differently |
| RulesSync.StaleRun | apps/proxy-core/main.go:336-348 | with two documents that decode differently under one ETag, a run after which the cache is stale, and stays so through any number of polls and faults until something else is published |
| RulesSync.MatchedStays | apps/proxy-core/main.go:336-348 | once the ETag matches, polls and faults change nothing until something is published |
| RulesSync.RunKeepsTag | apps/proxy-core/main.go:327-375 | in every run the ETag kept is that of an installed document that decodes to the rules kept |
| RulesSync.PollOutcome | apps/proxy-core/main.go:327-375 | a poll leaves the cache unchanged or in step with the server, and the latter whenever the current document is new and acceptable |
| DataPlane.ShouldBlock | apps/proxy-core/main.go:285-310 | the two scanning loops and the budget call give the verdict that `BlockedIff` characterises |
| DataPlane.BlockedIff | apps/proxy-core/main.go:285-310 | a call is blocked if and only if it is a tools/call with a name and the budget refuses it or a deny rule matches |
| DataPlane.BlockedByField | apps/proxy-core/main.go:245-253 | by field, for every request: the name, else the tool name, else the method is what counts; a tools/call is blocked if and only if the budget refuses it or that field in small letters is on the static list, equals a blocked name in any case, or contains a blocked term in any case; with the reason for each |
| DataPlane.ReplyMeans | apps/proxy-core/main.go:413-459 | when each reply is given: unauthorized, unreadable, unavailable in strict mode before the first rules, denied, forwarded with a mark in shadow mode; and that only inspected requests touch the budget |
| DataPlane.CaseIrrelevant | apps/proxy-core/main.go:245-253 | requests that differ only in the ASCII case of their names get the same verdict and budget |
| DataPlane.StricterBlocksMore | apps/proxy-core/main.go:285-310 | adding deny entries never turns a block into a pass, and spends the budget alike |
| DataPlane.ForwardedCallsMatchNoDenyRule | apps/proxy-core/main.go:420-459 | in every interleaving of handlers and synchronisations each reply comes from one snapshot of rules, and outside shadow mode a forwarded tools/call matched no deny rule of it |
| DataPlane.SnapshotsWereDelivered | apps/proxy-core/main.go:327-375 | in every run the rules a handler worked with came from the last signed, decodable 200 before it read the cache, or it worked with none |
| DataPlane.ForwardedByField | apps/proxy-core/main.go:413-459 | in every run outside shadow mode the field that names the tool of a forwarded tools/call is not denied; in strict mode every decodable POST that is forwarded came after a signed delivery |
| DataPlane.RunReplays | apps/proxy-core/main.go:420-459 | the budget states seen by the handlers are one chain from the first request to the last |
| DataPlane.ForwardedAreAdmitted | apps/proxy-core/main.go:444-459 | outside shadow mode what is forwarded under a cap was admitted by the guard |
| DataPlane.ForwardingIsRateLimited | apps/proxy-core/main.go:261-310 | in every run, with rules changing on the way, no interval sees more budgeted calls forwarded than the capacity of the largest cap |
| SerialQueue.AsyncSerialQueue.Enqueue | adversarial-harness/python/comprehensive_test_harness.py:232-236 | a caller takes the current gate and leaves its own |
| SerialQueue.AsyncSerialQueue.Resume | adversarial-harness/python/comprehensive_test_harness.py:237-239 | a caller whose predecessor's gate is resolved enters its body |
| SerialQueue.AsyncSerialQueue.Finish | adversarial-harness/python/comprehensive_test_harness.py:238-242 | a body that returns or raises resolves its gate |
| SerialQueue.StepKeepsInv | adversarial-harness/python/comprehensive_test_harness.py:232-242 | every step of every caller keeps the chain invariant |
| SerialQueue.SerialAndFifo | adversarial-harness/python/comprehensive_test_harness.py:245-282 | in every reachable state at most one body runs and the trace is start 0, end 0, start 1, end 1, ... up to the one in progress |
| SerialQueue.ExactlyOneCanMove | adversarial-harness/python/comprehensive_test_harness.py:232-242 | while a task is unfinished exactly one task can proceed |
| SerialQueue.MeasureDecreases | adversarial-harness/python/comprehensive_test_harness.py:236-242 | each step of an enqueued task uses up one unit of the measure |
| SerialQueue.DrainingRun | adversarial-harness/python/comprehensive_test_harness.py:236-242 | without new callers a run is done after exactly as many steps as the measure says, raising or not, with the full trace |
| SerialQueue.EveryRunCanFinish | adversarial-harness/python/comprehensive_test_harness.py:236-242 | every reachable state has a continuation in which all tasks finish |
| StdinFraming.SegmentsRebuild | src/cli.ts:1342-1345 | segments and tail are newline-free and put together are the stream |
| StdinFraming.SegmentsUnique | src/cli.ts:1342-1345 | no other newline-free segments and tail give the same stream |
| StdinFraming.TrimCutsBlanks | src/cli.ts:1344 | trimming removes blanks from both ends only and leaves none there |
| StdinFraming.DispatchedSegments | src/cli.ts:1344-1346 | exactly the segments that are not blank are dispatched, trimmed, in their order |
| StdinFraming.AppendChunk | src/cli.ts:1341-1345 | after a further chunk only the unterminated tail is looked at again |
| StdinPipeline.StdinLoop.OnData | src/cli.ts:1341-1356 | the loop leaves the tail of buffer and chunk in the buffer and enqueues its non-blank lines in order |
| StdinPipeline.StreamDispatched | src/cli.ts:1338-1356 | for every chunking and interleaving the buffer is the tail of the whole stream, one line at most is in flight, dispatched lines are a prefix of the stream's lines, and all of them once the queue is idle |
| StdinPipeline.EveryLineIsDispatched | src/cli.ts:1341-1356 | after the last chunk every continuation has at most as many moves as the queue's measure says, with that many every line of the stream has been dispatched in order, failed dispatches included, and with fewer it can go on |
| StdinPipeline.ChunkingIrrelevant | src/cli.ts:1341-1356 | two runs that receive the same characters dispatch the same lines, however they are cut |
| CanonicalJson.UnitsInjective | mastyf_gateway/mastyf_gateway/entitlement.py:40 | escaping code points by UTF-16 units loses nothing for exactly the texts without a split surrogate pair |
| CanonicalJson.SplitPairCollides | mastyf_gateway/mastyf_gateway/entitlement.py:40 | every text with a split surrogate pair is printed like another text, the one its code units decode to |
| CanonicalJson.PrintCancel | mastyf_gateway/mastyf_gateway/entitlement.py:40 | a printed value can be read off any text it starts: equal texts have equal values and equal rests |
| CanonicalJson.PrintIsCompact | mastyf_gateway/mastyf_gateway/entitlement.py:40 | what is printed is the compact JSON text of the value, against a definition of its own: literals, decimals without leading zeros, shortest escapes, and nothing between them but brackets, commas and colons |
| CanonicalJson.WireInjective | mastyf_gateway/mastyf_gateway/entitlement.py:40 | nested values without split pairs are determined by their code units |
| CanonicalJson.DumpsInjective | mastyf_gateway/mastyf_gateway/entitlement.py:40 | two values are printed alike if and only if their code units agree, and without split pairs if and only if they are equal |
| Entitlement.CanonicalDeterministic | mastyf_gateway/mastyf_gateway/entitlement.py:32-40 | the bytes depend neither on insertion order nor on the signature field |
| Entitlement.BeforeMeans | mastyf_gateway/mastyf_gateway/entitlement.py:39 | the key order is ascending by code point: smaller at the first difference, or ended there |
| Entitlement.CanonicalFaithful | mastyf_gateway/mastyf_gateway/entitlement.py:32-40 | for all payloads the bytes are equal if and only if the sorted unsigned fields have the same code units; without split surrogate pairs, if and only if the signed fields are equal |
| Entitlement.ValueShows | mastyf_gateway/mastyf_gateway/entitlement.py:32-40 | for all payloads, replacing a value leaves the bytes alone if and only if it is that of the field `signature`, or the two values agree on the wire |
| Entitlement.NestedOrderShows | mastyf_gateway/mastyf_gateway/entitlement.py:33-39 | for every payload with an object directly under a signed top-level field: listing that object's members in another order leaves the bytes alone exactly when the lists agree on the wire, and so changes them whenever the object holds no split surrogate pair |
| Entitlement.VerifyIgnoresOrder | mastyf_gateway/mastyf_gateway/entitlement.py:51-120 | verification depends on the fields, never on their order |
| Entitlement.VerdictsAge | mastyf_gateway/mastyf_gateway/entitlement.py:101-120 | with time a status moves only from active over grace to expired, and any other verdict never changes |
| Entitlement.LicensedReports | mastyf_gateway/mastyf_gateway/entitlement.py:60-120 | active, in grace and expired each if and only if: all eleven fields are there, the named key is in the keyring in force, the signature checks, both dates parse, and the time is up to the expiry, between the two dates, or after both |
| Entitlement.UnlicensedReports | mastyf_gateway/mastyf_gateway/entitlement.py:60-106 | tampered, untrusted key and an uncaught error each if and only if: which field is missing, untrusted, unverifiable, unparsable or unhashable |
| Entitlement.VerifiedWasIssued | mastyf_gateway/mastyf_gateway/entitlement.py:60-99 | if the keys in force verify only bytes of issued tokens, a token reported as licensed has the bytes of one, and exactly its signed fields when neither has a split surrogate pair, as no token loaded from a file has |
| EntitlementStore.AtomicIffNamesDistinct | mastyf_gateway/mastyf_gateway/entitlement.py:142-149 | in all interleavings of savers, stopping anywhere, a reader sees the whole token of the last rename or none, if and only if no two savers share a temporary name |
| EntitlementStore.LoadSeesLastSave | mastyf_gateway/mastyf_gateway/entitlement.py:125-149 | after every run a load reports unlicensed before the first rename, and then what verifying the last renamed token reports |
| EntitlementStore.SharedNameTears | mastyf_gateway/mastyf_gateway/entitlement.py:146-149 | with a shared name, a run that puts an unfinished file in place |
| EntitlementStore.FileStableIffNamesDistinct | mastyf_gateway/mastyf_gateway/entitlement.py:142-149 | in all runs only a rename changes what a reader sees, if and only if no two savers share a temporary name |
| EntitlementStore.SharedNameRewrites | mastyf_gateway/mastyf_gateway/entitlement.py:146-149 | with a shared name, a run in which a saver fills the file that another has already put in place |
| EntitlementStore.StatusBetweenSaves | mastyf_gateway/mastyf_gateway/entitlement.py:125-140 | with distinct names the loaded status only ages until the next rename, and tampered, untrusted or missing stay as they are; for savers of tokens with all required fields, if and only if names are distinct |
| ResultCache.Cache.Get | src/soc-api-server.ts:167-174 | a read returns the live entry and removes an expired one |
| ResultCache.Cache.Set | src/soc-api-server.ts:176-178 | the new entry expires ttl after the clock |
| ResultCache.Cache.Invalidate | src/soc-api-server.ts:180-182 | one key is removed |
| ResultCache.Cache.InvalidateAll | src/soc-api-server.ts:184-186 | every key is removed |
| ResultCache.StoreHolds | src/soc-api-server.ts:164-187 | after any log, for any clock, the store holds the last set not invalidated since, unless a read removed it |
| ResultCache.GetRefinesReference | src/soc-api-server.ts:167-174 | for any clock a read agrees with the log if and only if no earlier read removed an entry that is live now; the condition on the clock alone is in `AgreesIffNeverAhead` |
| ResultCache.AgreesIffNeverAhead | src/soc-api-server.ts:167-178 | given the times of the operations and of the read, every log made at those times agrees with the reference if and only if after the first operation the clock was never ahead of the read |
| ResultCache.RemovalUnobservable | src/soc-api-server.ts:167-174 | with a clock that does not go back, a read returns the last set within its TTL: removal cannot be observed |
| ResultCache.ClockGoingBackShows | src/soc-api-server.ts:169-172 | a log after which a clock set back makes a live entry missing |
| CostSeries.Group | src/soc-api-server.ts:692-706 | the loop computes the grouping that the conservation lemmas are about |
| CostSeries.PivotRow | src/soc-api-server.ts:714-719 | the inner loop computes the row, columns named as the servers are |
| CostSeries.GroupingConserves | src/soc-api-server.ts:694-706 | the series has the cost and the number of exactly the records with a valid time at or after the start |
| CostSeries.KeyInjective | src/soc-api-server.ts:701 | keys tell bucket and server apart for any server name, bucket names having one length |
| CostSeries.GroupedPairs | src/soc-api-server.ts:701-705 | each bucket and server appear together at most once |
| CostSeries.SlotsHoldTheirRecords | src/soc-api-server.ts:694-721 | every slot of the series and every cell of the pivot holds the cost of exactly the records of its server in its bucket's stretch of time; a slot also their number |
| CostSeries.SeriesInOrder | src/soc-api-server.ts:708 | under any comparison that orders the bucket names the series comes in that order |
| CostSeries.RowIsRight | src/soc-api-server.ts:713-721 | without a server named total, each row holds the right cells and their sum |
| CostSeries.ServerNamedTotal | src/soc-api-server.ts:715-719 | the value a row's total takes when a server is named total, and that it is right only by coincidence |
| CostSeries.PivotOffByTotal | src/soc-api-server.ts:713-721 | with a server named total, the pivoted rows add up to the cost, plus that server's, minus that of the servers before it; so to the cost if and only if the two are equal |
| CostSeries.TotalServerFalsifiesPivot | src/soc-api-server.ts:694-721 | two records of the servers a and total, for any costs: the pivoted rows are off by the difference of the two |
| CostSeries.GridSumIsCost | src/soc-api-server.ts:711-721 | bucket by bucket and server by server, the cells add up to the series |
| CostSeries.ServersConserve | src/soc-api-server.ts:728-732 | the per-server totals add up to the series, in cost and calls |
| CostSeries.ViewsAgree | src/soc-api-server.ts:694-733 | for all records, series and server totals equal the cost and the number of exactly the counted records; the pivoted totals equal that cost if and only if no server is named total or its cost equals that of the servers before it, and by how much they are off otherwise |
| Sparklines.Draw | src/soc-api-server.ts:978-987 | one record is added to its bucket of each line, or to none, for windows of any number of days, zero and negative ones included |
| Sparklines.Fill | src/soc-api-server.ts:971-987 | every bucket of the three arrays holds the weight of exactly its records, and each array adds up to the weight of exactly the records drawn |
| Sparklines.LinesConserve | src/soc-api-server.ts:977-987 | any array whose buckets hold their records' weight adds up to the weight of exactly the records drawn |
| Sparklines.DrawnIffIndexed | src/soc-api-server.ts:978-982 | a record has a bucket if and only if its time is valid and lies on the buckets' side of the start, for positive, negative and zero widths |
| Sparklines.BucketByTime | src/soc-api-server.ts:972-982 | a record is in a bucket if and only if its time lies in that bucket's stretch, the last one being open, for positive, negative and zero widths |
| BenchSession.ProxyBenchSession.Begin | benchmarks/lib/proxy-bench-common.ts:203-223 | a call registers its entry under its id and arms its timer |
| BenchSession.ProxyBenchSession.OnStdout | benchmarks/lib/proxy-bench-common.ts:157-168 | a reply under a pending id settles that call, stops its timer and removes the entry |
| BenchSession.ProxyBenchSession.OnTimer | benchmarks/lib/proxy-bench-common.ts:209-212 | the timer removes whatever is registered under its id and rejects its own call |
| BenchSession.ProxyBenchSession.OnSent | benchmarks/lib/proxy-bench-common.ts:227-228 | a call that is handed over waits for its promise |
| BenchSession.ProxyBenchSession.OnSendFailed | benchmarks/lib/proxy-bench-common.ts:232-241 | a failed hand-over ends the call and removes the entry, and leaves the timer armed |
| BenchSession.ProxyBenchSession.OnSettled | benchmarks/lib/proxy-bench-common.ts:228-241 | the call ends with what its promise was settled with first |
| BenchSession.PendingIsOutstanding | benchmarks/lib/proxy-bench-common.ts:203-243 | in every run, ids reused or not, the pending map holds outstanding calls only, and nothing once all calls have finished; in every clean run that the process survives, exactly the ids neither answered, timed out nor abandoned |
| BenchSession.ReuseIffClean | benchmarks/lib/proxy-bench-common.ts:203-250 | whether or not an unhandled rejection ends the process: a new call keeps the pending map exact through every continuation if and only if each earlier call under its id is handed over, is not waiting for its timer or its timeout, and has left no armed timer that the process would survive |
| BenchSession.ExactIffCleanRun | benchmarks/lib/proxy-bench-common.ts:203-250 | over whole runs that the process survives, the map is exact and cannot become inexact at any point if and only if every new call's id is clean when the call begins |
| BenchSession.DistinctIdsAreClean | benchmarks/lib/proxy-bench-common.ts:244-248 | runs with distinct ids, as one batch of consecutive numbers gives, are clean |
| BenchSession.RunKeepsSound | benchmarks/lib/proxy-bench-common.ts:157-243 | every reachable session, with ids reused at will, is sound: each entry is an outstanding call of its id, and timers are armed exactly while promises are open |
| BenchSession.OthersUnaffected | benchmarks/lib/proxy-bench-common.ts:157-168 | no step touches a call it is not about, in any reachable session; nor its entry, in a clean run; a finished call stays finished |
| BenchSession.LateReplyIgnored | benchmarks/lib/proxy-bench-common.ts:160-164 | after every clean run a reply changes nothing if and only if no call under its id is outstanding; with distinct ids a reply to a call answered, timed out or abandoned is ignored |
| BenchSession.AnswersCarryTheirId | benchmarks/lib/proxy-bench-common.ts:159-164 | an answer came under the call's own id, for reused ids too |
| BenchSession.OutcomeHasItsCause | benchmarks/lib/proxy-bench-common.ts:208-242 | in every run, for every finished call: an answer carries what its promise was resolved with, by a reply under its id; a timeout comes from its own timer; a failed hand-over from its own |
| BenchSession.RepliedIsAnswered | benchmarks/lib/proxy-bench-common.ts:157-164 | a call that is replied to before its timer and then finishes is answered with that reply, whatever happens in between, unless its hand-over fails |
| BenchSession.TimedOutIsTimeout | benchmarks/lib/proxy-bench-common.ts:209-212 | a call whose timer fires first and that then finishes has timed out, unless its hand-over fails |
| BenchSession.OutcomeIsFinal | benchmarks/lib/proxy-bench-common.ts:208-242 | a settled promise and a finished call never change again |
| BenchSession.StepsDecrease | benchmarks/lib/proxy-bench-common.ts:203-243 | in any reachable session, ids reused or not, every effective step uses up a bounded supply |
| BenchSession.UnfinishedCanMove | benchmarks/lib/proxy-bench-common.ts:208-243 | in any reachable session, ids reused or not, an unfinished call can always move on by itself |
| BenchSession.QuietMeansFinished | benchmarks/lib/proxy-bench-common.ts:244-251 | in any reachable session, ids reused or not: when nothing but new calls and stray replies can happen, every call has its outcome, no timer is armed and nothing is pending |
| BenchSession.StaleTimerDropsReusedId | benchmarks/lib/proxy-bench-common.ts:209-212 | two overlapping batches with one id, which the process survives: the first call's timeout, handled by that call, removes the entry of the second, whose reply is then ignored |
| LatencyStats.PercentilesHaveRank | benchmarks/lib/proxy-bench-common.ts:52-61 | each q-percentile is an input that at most q per cent of the inputs lie below and more than q per cent are up to, so the fallback is never used; no input exceeds the maximum; and they are ordered |
| LatencyStats.RankUnique | benchmarks/lib/proxy-bench-common.ts:54-60 | only one value has a given rank |
| LatencyStats.PercentileUnique | benchmarks/lib/proxy-bench-common.ts:56-59 | only one value is a given percentile |
| LatencyStats.OrderIrrelevant | benchmarks/lib/proxy-bench-common.ts:52-61 | the result depends on the multiset of latencies only |
| GuardedExecution.AuthorityIsIntersection | mastyf_gateway/mastyf_gateway/enforcement/arbiter.py:25-316 | execution is permitted if and only if all three layers allow and the auditor, if asked, clears it; when a call is escalated, which layer a denial names, and that the violation field reads none exactly for permitted calls or when the auditor refuses naming none |
| GuardedExecution.FlowByName | mastyf_gateway/mastyf_gateway/difc/session.py:42-62 | by tool and tag names: a call is allowed if and only if its tool rejects no tag of the session and no tag that comes with the request |
| GuardedExecution.MastyfGateway.Submit | mastyf_gateway/mastyf_gateway/gateway.py:63-85 | all three layers are evaluated first, and the auditor is asked only if all allow |
| GuardedExecution.MastyfGateway.Resolve | mastyf_gateway/mastyf_gateway/gateway.py:134-146 | a refused call ends without a tool run, a permitted one starts its tool once |
| GuardedExecution.MastyfGateway.OnAudit | mastyf_gateway/mastyf_gateway/gateway.py:83-97 | the auditor's answer is arbitrated and the tool started with no step in between |
| GuardedExecution.MastyfGateway.OnToolReturn | mastyf_gateway/mastyf_gateway/gateway.py:145-155 | a normal return records the produced taint |
| GuardedExecution.MastyfGateway.OnToolRaise | mastyf_gateway/mastyf_gateway/gateway.py:156-164 | a tool that raises leaves the taint alone |
| GuardedExecution.MastyfGateway.RecordToolResult | mastyf_gateway/mastyf_gateway/difc/session.py:36-40 | the loop adds exactly the produced tags to this session, and creates no empty one |
| GuardedExecution.OnlyPermittedCallsRun | mastyf_gateway/mastyf_gateway/gateway.py:122-164 | in every interleaving a tool runs at most once per call, only for permitted calls, and the auditor is asked at most once, exactly where all three layers allowed |
| GuardedExecution.TaintIsOwnReturnedCalls | mastyf_gateway/mastyf_gateway/difc/session.py:19-84 | in every interleaving a session's taint is what its own returned calls produced, and each flow verdict is the rule applied to those returned before it |
| GuardedExecution.FlowVerdictsByName | mastyf_gateway/mastyf_gateway/difc/taint.py:28-68 | in every interleaving, by name: a flow verdict denies if and only if the tool sends out or acts and a contaminating tool of its session had returned, or the request carries a tag the tool rejects; no tool that ran was given such a request |
| GuardedExecution.FlowOverInterval | mastyf_gateway/mastyf_gateway/difc/session.py:42-62 | the flow rule still holds later if and only if it held and no rejected tag came in since |
| GuardedExecution.SafeAtDispatchIff | mastyf_gateway/mastyf_gateway/gateway.py:75-97 | a started tool is safe under the taint of that moment if and only if no call of its session brought in a rejected tag during the audit; always without an auditor |
| GuardedExecution.SafeRunsIffAuditorOff | mastyf_gateway/mastyf_gateway/gateway.py:75-97 | all runs are safe at dispatch if and only if the auditor is off |
| GuardedExecution.OneAtATimeIsSafe | mastyf_gateway/mastyf_gateway/gateway.py:122-150 | with the auditor on or off, the calls of a session that never overlap are all safe at dispatch, whatever other sessions do |
| GuardedExecution.TaintDuringAudit | mastyf_gateway/mastyf_gateway/gateway.py:75-97 | an interleaving in which a post starts after its session was tainted during the audit |
| ChartSampling.DownsampleSelects | scripts/generate-attack-learning-charts.py:32-39 | a longer series is thinned to an in-order selection of max_pts to twice max_pts points that starts with the first and ends with a point equal to the last |
| ChartSampling.DownsampleTakes | scripts/generate-attack-learning-charts.py:33-39 | a short series is returned as it is; of a longer one exactly every step-th point, and the last one if and only if the last taken differs from it |
| ChartSampling.NonPositiveRequest | scripts/generate-attack-learning-charts.py:32-39 | zero and an empty list, or a negative number and a non-empty one, return the list; the other two cases fail |
| ChartSampling.FailsIff | scripts/generate-attack-learning-charts.py:32-39 | thinning divides by zero if and only if zero points of a non-empty list are asked for, and indexes an empty list if and only if a negative number of an empty one is |
| CorpusEval.RunEval | corpus/run-eval.ts:256-302 | the fixture loop's counters are the counts they stand for, overall and by category |
| CorpusEval.TallyAllAccounts | corpus/run-eval.ts:198-226 | totals split into the matrix, failures are the wrong verdicts, and the categories present are those of the fixtures |
| CorpusEval.CategoriesPartition | corpus/run-eval.ts:198-226 | the counters of the report's categories, failures included, add up to the overall ones |
| CorpusEval.F1ClosedForm | corpus/run-eval.ts:306-308 | F1 from precision and recall is 2tp / (2tp + fp + fn), zero divisions included |
| CorpusEval.PerfectF1 | corpus/run-eval.ts:308-311 | F1 is at most 1, and 1 if and only if an attack was caught and the report passed |
| CorpusEval.GateIffFlawless | corpus/run-eval.ts:351-379 | for all settings, unparsable ones included, the command succeeds if and only if the run is flawless, caught the required number of attacks, and the minimum F1 is at most 1, or at most 0 when nothing was caught; so with at least one attack required and a minimum of at most 1 the F1 gate decides nothing |

## Left out

- Cancellation of a queued caller: the await on the previous gate lies outside the try block, so a cancelled caller never opens its own gate; progress is stated for runs without it.
- The TypeScript queue (src/utils/async-serial-queue.ts:4-15) chains promises instead of futures; the harness class, which says it mirrors that one, is modelled, and the stdin loop is modelled as feeding it.
- Integer widths: the Go call counter and caps are unbounded integers here, and the saturation of time differences is not modelled.
- HTTP, gRPC, body limits and authentication: a request is a record of what the handler branches on.
- HMAC, Ed25519, base64, JSON decoding and date parsing are functions given to the model; what is assumed of them is a requirement of the lemma that needs it.
- Case folding is that of ASCII; `EqualFold` and `ToLower` differ beyond it.
- The fields of the compiled rules that the data plane never reads.
- Characters of the stdin stream are Unicode scalar values; chunks that end inside a surrogate pair do not occur, as the stream decoder holds such halves back.
- Entitlement payloads with floating-point numbers, with keys that are not strings, and documents that are not objects.
- EntitlementStore.StatusBetweenSaves: reading a whole file back gives the token that was saved; the JSON text on disk is not modelled beyond being whole or truncated.
- Floating point: costs are integers, latencies and rates are reals, and a percentile index is the exact share rounded down. The average latency, rounded to two decimals, is left out.
- CostSeries.ViewsAgree: bucket names are taken to have one fixed length, as the ISO strings of four-digit years do; the comparison of bucket names is arbitrary. A server named `__proto__` is not a column of a JavaScript object and is not modelled.
- Sparklines.Fill: a window that is not a number, for which nothing is drawn, is not modelled.
- The capability and workflow layers and the auditor of the gateway are arbitrary verdicts; the tool-to-sink table is the default one; clearing a session, log events and metrics are left out.
- The benchmark session's initialisation handshake, its judging of answers and outcome counts, and the classification of a hand-over error by its text. Of an unhandled rejection only whether it ends the process is modelled.
- `blocks_per_minute`, the top-5 lists, per-category totals, precision and recall, and the failure texts, which would only add easy members.
- First-wins merging of parsed lists, environment parsing, command-line thresholds, the SSE client set, dashboards and report generators.
