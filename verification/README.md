# Verified model of the community backend's stateful cores

This project models the parts of the backend and of its agent that keep state between requests or
do real arithmetic, and proves what holds of them over every run.

- **Points wallet, ledger and mall** (`PointsLedger`, `PointsService`, `PointsInterleaving`, `PointsRuns`,
  `PointsBooks`, `PointsDailyLimit`, `PointsDailyPoints`, `PointsDeliveries`,
  `PointsAlone`). `PointsLedger.ExecTx` says what one transaction does when it
  runs alone. `PointsService` holds the Go methods over mutable tables, each proved to be that
  transaction. `PointsInterleaving` runs any number of sessions one SQL statement at a time: wallet
  reads may be stale, every statement may fail, and written rows stay locked until the
  transaction ends. It is proved to leave the tables of a serial execution in commit order, and
  `PointsBooks` says what every serial execution keeps.
- **Token bucket** (`RateLimit`, `RateLimitCurve`): the limiter over reals, its level as a minimum
  over windows, the arrival-curve bound, and optimality.
- **Write-behind counters** (`Counts`, `StatsSpec`, `StatsWorker`, `WriteBehind`, `LikeOrder`,
  `CommentStats`):
  sharded article buffers (swap and merge back) and comment buffers (snapshot and subtract), both
  proved to agree with plain sums over the handled messages.
- **Notification store** (`NotificationStore`): the shared buffer as an array that is appended to,
  copied out and put back, and any number of concurrent flushers.
- **Kafka retries** (`KafkaRetry`): the points.earn loop against an adversarial fetch, processor,
  dead-letter writer and offset commit.
- **Short-term memory** (`MemoryRolling`, `MemoryFlush`): the summarised slice against the popped
  slice, and what the end of a session keeps of all lists.
- **Markdown chunker** (`Text`, `MarkdownSplitter`, `MarkdownTermination`, `MarkdownPacking`,
  `MarkdownSections`, `MarkdownChunker`): the recursive splitter, when it ends, what its parts are, heading sections, heading paths, and the
  whole document.
- **Score fusion** (`ScoreFusion`) and the **stable transaction id** (`TxnId`).

Code that changes state is written as classes and methods with loops. Each of these methods is
proved equal to a specification function, and the theorems are about those functions and the step
systems built from them. A run is a sequence of actions with the sequence of states it passes
through.

## Where the code does not do what one would expect

Each of these keeps the code as it is and states the exact condition under which the expected
property holds. Failing inputs are given by lemmas, or by the other direction of the condition.

- A wallet whose grant id is already used as a transaction id keeps its 100 points without a ledger
  row (database/points_sql.go:119). It then fails reconciliation by exactly 100, for good.
- The daily limit of a rule is compared with the number of rewards (service/points_service.go:74), so
  the points of a day stay within it exactly for rules of one point a reward. Amount times limit can
  be reached: 500 points for articles with a limit of 50.
- A flush inserts like rows before it deletes unlike rows. A pair that was unliked and is liked in
  the end can lose its row, and only such a pair can (database/article_sql.go:191-217).
- Rolling short-term memory summarises exactly what it pops on every conversation if and only if the
  window is a multiple of four. With such a window it stays exact if and only if no summary comes
  back after one that did not (agent/memory/memory_turn.py:54-62).
- The end of a session deletes every list. All messages go into summaries if and only if the
  summariser answers for each list that holds any (agent/memory/memory_turn.py:120-126).
- The splitter calls itself with the same text for ever if and only if, trying 。！？； in that order
  on a line, a piece that a mark ends is still longer than the chunk size
  (agent/eval/markdown_chunker.py:66-78). Such a piece may hold shorter sentences that later marks end.
- Section paths hold the nearest headings at levels 1 to n if and only if no level is skipped;
  siblings on a skipped level are nested into one another (agent/eval/markdown_chunker.py:161-166).
- The sections' outline is the document's if and only if no heading without a title is dropped or
  renamed (agent/eval/markdown_chunker.py:107-121).
- While the processor only fails, something is settled if and only if a message is delivered
  max-retries times with no other in between and a dead letter for it then gets through. Two failing
  messages delivered in turn are never settled (mq/kafka_init.go:379-386).
- An id that one search engine did not return scores 0 for that engine. It ranks no higher than an id
  which that engine did return, other things equal, if and only if the latter's score is not
  negative (agent/memory/memory_manager.py:837-838).

Assumptions: limiter requests enter in clock order (the clock is read before the lock). The
`gorm:query_option` setting that is meant to lock the wallet row is not relied on. No key of a daily
counter expires while a slot is held. The like-row theorem takes one flush at a time in each shard, as its
goroutine makes them; the conservation theorems take any number.

## Model

| member | source | states |
|---|---|---|
| PointsService.PointsStore.CreateWalletInTx | database/points_sql.go:81-123 | an existing wallet is returned unchanged; a new one holds 100 points at version 0, with one initial_grant row of 100 unless its id is taken |
| PointsService.PointsStore.TryInsertTransaction | database/points_sql.go:186-194 | inserts exactly when the id is new, and says so |
| PointsService.PointsStore.UpdateBalance | database/points_sql.go:127-162 | the guarded update succeeds exactly on an equal version and a sufficient balance; otherwise nothing changes and the error tells a version conflict from a short balance |
| PointsService.PointsStore.CheckAndIncrDailyLimit | database/points_redis.go:44-78 | takes a slot exactly when the count is below the limit; no other counter moves |
| PointsService.PointsStore.RollbackDailyLimit | database/points_redis.go:99-107 | gives back one slot of one user and kind, and touches no other |
| PointsService.PointsStore.EarnInTx | service/points_service.go:78-110 | the body of the earn transaction is the serial transaction, or reports the skip that rolls it back |
| PointsService.PointsStore.EarnPoints | service/points_service.go:54-122 | by kind: credits 10, 5, 1, 1 or 2 points under a limit of 50, 30, 20, 10 or 2 rewards, with one new row naming id, user, kind, reference and balance after; unknown kind, known id, full day and colliding grant leave tables and counters unchanged |
| PointsService.PointsStore.RedeemCode | database/points_mall_sql.go:236-300 | claim, ledger row, balance and order amount to one serial transaction |
| PointsService.PointsStore.RedeemInTx | database/points_mall_sql.go:217-314 | out of stock exactly with no free code, refused exactly with too few points, skipped exactly on a known transaction or order id; otherwise a free code is sold to order and user, one mall_redeem row names the order, and one order names the code |
| PointsService.PointsStore.RedeemOnce | service/points_mall_service.go:173-207 | the stock counter only gates; a failure gives the unit back, a success resets it to the number of free codes |
| PointsRuns.Serialisable | database/points_sql.go:127-161 | after any interleaving with stale reads the tables are exactly those of the committed transactions run one at a time in commit order |
| PointsInterleaving.CommitIsSerial | service/points_service.go:78-110 | what a session commits is what its whole transaction would do if it ran alone at that moment |
| PointsRuns.EqualVersionEqualRow | database/points_sql.go:127-143 | over every run an equal wallet version means an equal wallet row |
| PointsInterleaving.UpdateKeeps | database/points_sql.go:127-161 | an update that passes the version guard saw the current row, so its balance and BalanceAfter are right |
| PointsInterleaving.CommitKeepsOther | database/points_mall_sql.go:222-309 | a commit leaves what every other open transaction relies on intact |
| PointsRuns.EveryScheduleRuns | service/points_service.go:78-110 | no sequence of actions is ruled out by the model |
| PointsAlone.UndisturbedCommits | service/points_service.go:54-122 | any request whose transaction would commit when run alone does commit if nobody disturbs it, after any run, and leaves exactly what that transaction leaves |
| PointsAlone.StepMovesOn | database/points_mall_sql.go:222-309 | undisturbed, every statement moves such a request on |
| PointsRuns.ReachableBooks | database/points_sql.go:80-161 | in every reachable state each balance is its ledger sum (plus 100 if the grant row was dropped) and never negative, its version is its row count less the grant, each BalanceAfter is the prefix sum, ids are unique, and codes match orders |
| PointsRuns.ReachableRows | service/points_service.go:91-101 | in every reachable state each ledger row carries user, kind and reference of the committed request with its id, and each order code, product, price and buyer of its redemption |
| PointsRuns.ReachableReconciles | database/points_sql.go:253-267 | with ids kept apart, no reachable wallet is reported by the reconciliation query |
| PointsRuns.ReachableStock | service/points_mall_service.go:173-207 | in every reachable state free codes plus orders of a product are as many as the codes it was stocked with, and no code row has come, gone or changed hands |
| PointsRuns.ReachableBalance | service/points_service.go:126-145 | in every reachable state a balance counts each credited id once, less what was spent, and the credited ids are among the delivered ones |
| PointsRuns.SoldStaysSold | database/points_mall_sql.go:255-265 | a code sold in some reachable state keeps buyer and order in every later one |
| PointsDeliveries.AllCredited | service/points_service.go:54-118 | if no earn failed, found its day full or lost the race for a version, and all are finished, exactly the delivered ids are credited |
| PointsDeliveries.DeliveriesDecideBalance | service/points_service.go:126-145 | then, however often and in whatever order they were delivered, a balance is the grant plus one amount for each distinct delivered id, less what was spent |
| PointsLedger.TxKeepsBooks | database/points_sql.go:80-161 | every committed transaction keeps all the books balanced |
| PointsBooks.TxKeepsMall | database/points_mall_sql.go:224-309 | every committed transaction keeps codes and orders one to one, the codes of every product the same, free codes plus orders equal to them, and points spent equal to the mall ledger sum |
| PointsBooks.LogKeepsBooks | database/points_sql.go:80-161 | both sets of books hold after any log of transactions |
| PointsBooks.NoOverselling | service/points_mall_service.go:173-198 | after any log from a fresh shop, free codes plus orders of a product are as many as the codes it was stocked with, whatever the stock counter said |
| PointsBooks.SoldForGood | database/points_mall_sql.go:255-265 | through any later log no code appears, disappears or changes product, and a sold code keeps its owner |
| PointsBooks.ReconcilesIffGranted | database/points_sql.go:253-267 | a wallet reconciles exactly when its grant row is in the ledger, and is otherwise 100 too high |
| PointsBooks.GrantDroppedIffTaken | database/points_sql.go:106-121 | the grant row is dropped exactly when its id was taken at the moment the wallet was created |
| PointsBooks.CollisionBreaksReconciliation | database/points_sql.go:119-121 | however ids are computed: after an earn under another user's grant id, that user's new wallet does not reconcile |
| PointsBooks.DistinctIdsReconcile | database/points_sql.go:253-267 | with distinct ids every wallet reconciles after every log |
| PointsBooks.BalanceIsPerDistinctId | service/points_service.go:54-122 | a balance is 100 plus one amount per distinct credited id, less what was spent |
| PointsBooks.Confluent | service/points_service.go:126-145 | two logs that credited the same ids and sold the same orders agree on every balance |
| PointsBooks.RowsAreAskedFor | service/points_service.go:91-101 | after any log every ledger row and order is one that was asked for, with its own reference |
| PointsDailyLimit.DailyLimitExact | database/points_redis.go:44-78 | in every reachable state the counter is today's committed rewards plus those in flight plus slots that a Redis failure left with nobody, and lies between 0 and the limit |
| PointsDailyLimit.CommitKeepsDaily | service/points_service.go:70-118 | a commit turns an in-flight slot into exactly one paid reward |
| PointsDailyLimit.RowsPaid | service/points_service.go:91-101 | a committing session writes one reward row of a kind exactly when it holds a slot of that kind |
| PointsDailyPoints.PointsTodayExact | service/points_service.go:90-101 | in every reachable state today's points of a kind are today's rewards times the rule's amount |
| PointsDailyPoints.LimitReachable | service/points_service.go:74-110 | whatever the database held, every number of rewards up to the limit can be paid on a day |
| PointsDailyPoints.PointsWithinLimitIff | service/points_service.go:17-27 | today's points stay within the limit on every run if and only if the amount is at most 1, and amount times limit can be reached |
| RateLimit.ClientBucket.Take | middleware/rate_limit.go:41-55 | one request refills up to burst, and admits and takes a token exactly when one is there |
| RateLimit.RateLimiter.BucketOf | middleware/rate_limit.go:35-39 | a client has one bucket, full on first sight |
| RateLimit.RateLimiter.Handle | middleware/rate_limit.go:30-57 | a decision depends on that client's own arrivals alone, and other clients' buckets stay as they were |
| RateLimit.LimitsOf | middleware/rate_limit.go:17-27 | sixty times the rate is the number per minute, 120 if none is given; the burst is as given, or 20 |
| RateLimitCurve.LevelIsLeastSlack | middleware/rate_limit.go:41-55 | the level is the minimum over earlier requests k of burst + rate times the time since k, less the admissions since k |
| RateLimitCurve.LevelNonNegative | middleware/rate_limit.go:41-55 | the level never falls below zero |
| RateLimitCurve.NeverOverAnyWindow | middleware/rate_limit.go:34-56 | no window admits more than burst + rate times its length, with both written out |
| RateLimitCurve.AdmittedIffRoom | middleware/rate_limit.go:41-55 | a request is let through exactly when, counting it, every window that ends with it stays within burst + rate times its length |
| RateLimitCurve.GreedyIsOptimal | middleware/rate_limit.go:34-56 | no choice of requests that respects that bound admits more in any prefix |
| Counts.AddInto | mq/article_consumer.go:70-83 | the merging loop yields the sum of two count maps |
| Counts.UpdateRows | database/article_sql.go:219-240 | the update loop changes exactly the rows with a delta |
| StatsWorker.StatsBuffer.Apply | mq/article_consumer.go:44-68 | the in-place update for each kind of message |
| StatsWorker.StatsBuffer.MergeFrom | mq/article_consumer.go:70-83 | merging leaves the merge of both contents and does not touch the other buffer |
| StatsWorker.StatsBuffer.ToFlushPayload | mq/article_consumer.go:85-115 | the payload lists exactly what the buffer holds |
| StatsWorker.ArticleTables.BatchFlushArticleActions | database/article_sql.go:174-241 | a committed flush adds the deltas and one like per newly inserted row, and inserts before it deletes; a failed one changes nothing |
| StatsWorker.StatsShard.MergeBack | mq/article_consumer.go:125-132 | a failed flush's buffer is merged into the live one |
| StatsWorker.StatsWorker.HandleMessage | mq/article_consumer.go:175-213 | a message with an article and a known kind reaches the shard article mod count and no other; all others change nothing |
| StatsWorker.StatsWorker.FlushShard | mq/article_consumer.go:233-251 | a flush that fails puts back exactly what it took, and no other shard changes |
| StatsSpec.MergeLaws | mq/article_consumer.go:70-83 | merging is commutative and associative, with the empty buffer as unit |
| StatsSpec.OfConcat | mq/article_consumer.go:44-83 | feeding two streams separately and merging is feeding one after the other |
| StatsSpec.OfAnyOrder | mq/article_consumer.go:44-68 | streams with the same messages in any order give the same buffer |
| StatsSpec.OfCounts | mq/article_consumer.go:44-68 | the buffer's counters are plain sums over the messages |
| StatsSpec.AppliedWrittenOut | mq/article_consumer.go:44-68 | for each kind of message what it adds to views, likes, new like rows and unlike rows |
| StatsSpec.FlushedWrittenOut | database/article_sql.go:186-240 | a committed flush by row and by article: which like rows stand afterwards, and one like for each that is new |
| StatsSpec.FlushedRowCount | database/article_sql.go:191-217 | a flush changes an article's number of like rows by rows inserted less rows deleted |
| StatsSpec.FlushFollowsOrderIff | database/article_sql.go:191-217 | the like row is what the messages asked for exactly when the window holds no unlike of the pair or the pair ends up unliked |
| StatsSpec.LikeAgainIsLost | database/article_sql.go:191-217 | concrete window whose like is lost |
| WriteBehind.SplitsDoNotMatter | mq/article_consumer.go:117-132 | however a stream is split over shards, swaps and failed flushes, and in whatever order, written plus pending is one buffer fed the whole stream |
| WriteBehind.CountsConserved | mq/article_consumer.go:233-251 | in every reachable state table + pending = initial + handled, each newly inserted like row counted once |
| WriteBehind.EveryMessageCounts | mq/article_consumer.go:44-68 | by what was delivered: table + pending = initial + one for each view, and for likes + one for each anonymous like and each new row, - one or + what it says for each unlike |
| WriteBehind.ShardsShareNothing | mq/article_consumer.go:144-149 | no two shards hold anything of the same article: no count, no like or unlike pair, neither in a buffer nor in a drained one |
| WriteBehind.PendingIsInItsShard | mq/article_consumer.go:144-149 | what is still to be written of an article is what its own shard holds |
| LikeOrder.StepOnCourse | mq/article_consumer.go:233-251 | every message, swap, commit and merge-back keeps a coming row one that the messages asked for |
| LikeOrder.RowsFollowOrderIff | database/article_sql.go:191-217 | in every run that handled given messages and wrote them out, the like row is what they asked for in order, if and only if the pair was never unliked or ends up unliked |
| CommentStats.CommentStatsWorker.HandleMessage | mq/article_consumer.go:277-315 | a like raises its comment's count by one, an unlike lowers it by one, and nothing else moves |
| CommentStats.CommentStatsWorker.Subtract | mq/article_consumer.go:349-356 | the snapshot is taken off what the buffer holds by then, and entries that reach zero go |
| CommentStats.CommentStatsWorker.Flush | mq/article_consumer.go:332-359 | an undisturbed flush moves the buffer into the table, or changes nothing |
| CommentStats.LikesConserved | mq/article_consumer.go:277-359 | with overlapping flushes table + buffer, less what is written but not yet subtracted, is initial + handled |
| CommentStats.EveryLikeCountsOne | mq/article_consumer.go:277-359 | that sum is the initial count plus the likes delivered for the comment, minus the unlikes |
| NotificationStore.NotificationBuffer.Append | handler/notification_store_handler.go:71-80 | appending in place or into a grown array; no batch in flight is changed |
| NotificationStore.NotificationBuffer.TakeBatch | handler/notification_store_handler.go:82-87 | the batch is a copy in fresh memory although the backing array stays in use |
| NotificationStore.NotificationBuffer.PutBack | handler/notification_store_handler.go:93-98 | the batch goes in front of what arrived meanwhile, and may become the backing array |
| NotificationStore.NotificationBuffer.BatchCreate | database/notification_sql.go:34-44 | insert-or-ignore by event id, row by row |
| NotificationStore.NotificationBuffer.Flush | handler/notification_store_handler.go:82-101 | an undisturbed flush stores the buffer, or restores it |
| NotificationStore.NothingLost | handler/notification_store_handler.go:71-100 | with any number of flushers every accepted event is in the table, the buffer or a batch in flight |
| NotificationStore.StoredOnce | database/notification_sql.go:34-44 | redelivery and failed flushes leave each event id in the table at most once, as it was accepted |
| NotificationStore.StoredForGood | database/notification_sql.go:34-44 | stored rows never change or move |
| NotificationStore.DrainedIsComplete | handler/notification_store_handler.go:82-101 | with nothing buffered or in flight, the table holds exactly the accepted events |
| KafkaRetry.PointsEarnConsumer.HandleFetched | mq/kafka_init.go:379-432 | the four ways a turn can end, each with its effects and the cursor it leaves |
| KafkaRetry.PointsEarnConsumer.ConsumeLoop | mq/kafka_init.go:344-433 | the loop over any fetch sequence produces the specified trace |
| KafkaRetry.CommitsAreJustified | mq/kafka_init.go:388-432 | an offset is committed only right after success or right after a dead letter with exactly max-retries attempts |
| KafkaRetry.SuccessesAreCommitted | mq/kafka_init.go:388-432 | after every success and every dead letter that got through comes the commit of that message |
| KafkaRetry.BoundedCalls | mq/kafka_init.go:388-413 | while one message keeps coming, the processor runs at most max-retries times per commit, and so often once more, even while dead letters keep failing |
| KafkaRetry.AttemptsAreReal | mq/kafka_init.go:379-413 | the cursor's attempt count is the number of consecutive failed calls on its message since the last other delivery or commit |
| KafkaRetry.DeadLettersAreTruthful | mq/kafka_init.go:415-423 | the attempts a dead letter records all happened, in a row, on that message, and all failed |
| KafkaRetry.PoisonIsSettled | mq/kafka_init.go:388-432 | a message delivered alone is settled once a dead letter gets through at its max-retries-th delivery or later |
| KafkaRetry.PoisonIsSettledIff | mq/kafka_init.go:379-432 | for a failing message the cursor does not stand on, that is exactly when it is settled |
| KafkaRetry.SettledIffInARow | mq/kafka_init.go:379-432 | while the processor only fails, something is settled if and only if some message is delivered max-retries times in a row and a dead letter for it then gets through |
| KafkaRetry.AlternatingPoisonNeverSettles | mq/kafka_init.go:379-386 | two failing messages delivered in turn are never settled |
| MemoryRolling.ShortMemory.GetShortMessages | agent/memory/memory_store.py:60-73 | the last limit messages |
| MemoryRolling.ShortMemory.PopShortMessages | agent/memory/memory_store.py:146-154 | removes the oldest messages one by one, and says how many there were |
| MemoryRolling.ShortMemory.PersistTurn | agent/memory/memory_turn.py:24-67 | a turn appends the user's and the stripped assistant's message; if the window is full and a summary comes back, the first half of the window was summarised and as many messages are gone from the front |
| MemoryRolling.ShortMemory.FlushOnSessionEnd | agent/memory/memory_turn.py:112-126 | one list at session end: summarised whole, and deleted whether or not that worked |
| MemoryRolling.RollExactIff | agent/memory/memory_turn.py:54-62 | summarised slice and popped slice coincide exactly when the list holds short_limit messages |
| MemoryRolling.ExactMeansNothingLost | agent/memory/memory_turn.py:54-62 | then the chunks followed by the list are the message stream in order |
| MemoryRolling.MultipleOfFourIsExact | agent/memory/memory_turn.py:46-64 | with a multiple of four, every conversation stays exact and its list below the limit |
| MemoryRolling.EveryMessageSummarisedOnce | agent/memory/memory_turn.py:111-126 | after the session-end flush each message was summarised once, in order |
| MemoryRolling.ExactIffMultipleOfFour | agent/main.py:252 | exactness on all conversations holds if and only if the limit is a multiple of four |
| MemoryRolling.OddLimitBreaks | agent/main.py:252 | an odd limit breaks at the first roll |
| MemoryRolling.TwiceOddLimitBreaks | agent/main.py:252 | twice an odd number breaks at the second roll |
| MemoryRolling.FailedSummaryBreaksTheNext | agent/memory/memory_turn.py:54-62 | after one failed summary the next successful roll is not exact |
| MemoryRolling.ExactIffNeverRecovers | agent/memory/memory_turn.py:54-62 | for any sequence of summary outcomes and a window that is a multiple of four, rolling is exact if and only if no summary comes back after one that did not |
| MemoryFlush.LastUserAssistant | agent/memory/memory_turn.py:70-83 | the backward loop finds the last non-blank message of each role |
| MemoryFlush.AgentMemory.UpdateMidSummary | agent/memory/memory_store.py:287-297 | a summary that came back is appended and the oldest beyond the maximum dropped |
| MemoryFlush.AgentMemory.FlushMidSummaryOnSessionEnd | agent/memory/memory_turn.py:86-128 | the loop over the sessions folds each list into the chain of summaries and deletes it; what it returns and leaves is the specified fold |
| MemoryFlush.NamedSessionOnly | agent/memory/memory_turn.py:100-126 | of a named session its list and no other is folded, if the summariser answers, and deleted |
| MemoryFlush.LastOfMeans | agent/memory/memory_turn.py:70-83 | the last words of a role are those of its last message that is not blank |
| MemoryFlush.FoldChain | agent/memory/memory_turn.py:120-124 | each summary is made from the one before it, and the flush reports whether any came back |
| MemoryFlush.AllFoldedIff | agent/memory/memory_turn.py:111-126 | every list goes into the chain, once and in order, exactly when the summariser answers for each that holds anything |
| MemoryFlush.LastWordsOf | agent/memory/memory_turn.py:115-119 | the returned words are the last ones said in all the lists taken together |
| MarkdownSplitter.HardCutGood | agent/eval/markdown_chunker.py:87-92 | hard cuts are non-blank, at most the chunk size, and cover the text (exactly, without overlap) |
| MarkdownSplitter.PackPieceGood | agent/eval/markdown_chunker.py:65-83 | packing one piece keeps finished parts good, the buffer small, and all visible characters |
| MarkdownSplitter.FirstSeparatorDecides | agent/eval/markdown_chunker.py:50-85 | the first separator that occurs always settles the result; the fall-through after it cannot be reached |
| MarkdownSplitter.SplitGood | agent/eval/markdown_chunker.py:42-92 | every part is non-blank, stripped and at most the chunk size; the visible characters of the parts equal those of the text, or contain them in order when there is overlap |
| Text.WhiteSpaceWrittenOut | agent/eval/markdown_chunker.py:44 | the characters that stripping takes away, one by one |
| MarkdownTermination.PieceIsReady | agent/eval/markdown_chunker.py:65-78 | a piece only ever contains separators after the one that cut it |
| MarkdownTermination.SplitEnds | agent/eval/markdown_chunker.py:42-92 | under that condition the recursion ends within nine nested calls |
| MarkdownTermination.LongSentenceNeverEnds | agent/eval/markdown_chunker.py:66-78 | an over-long sentence whose only mark ends it is its own first piece: no depth of recursion suffices |
| MarkdownTermination.SplitEndsIff | agent/eval/markdown_chunker.py:42-92 | the splitter ends exactly when, trying the separators in order on what is too long, every piece that a sentence mark ends fits |
| MarkdownPacking.SplitIsGreedy | agent/eval/markdown_chunker.py:42-85 | a text that is too long is cut at the coarsest break that occurs, in the order of the list of breaks, and the pieces are grouped greedily: no group has room for the next piece |
| MarkdownPacking.WholePieces | agent/eval/markdown_chunker.py:63-83 | where every piece fits, each part is a run of whole consecutive pieces |
| MarkdownPacking.WholeParagraphs | agent/eval/markdown_chunker.py:12-23 | paragraphs are kept whole where they all fit |
| MarkdownPacking.UnbrokenIsCutEvenly | agent/eval/markdown_chunker.py:87-92 | a text without any break is cut at every multiple of size - overlap, each cut the chunk size long |
| MarkdownChunker.CutHard | agent/eval/markdown_chunker.py:87-92 | the cutting loop, blank cuts dropped |
| MarkdownChunker.PackPieces | agent/eval/markdown_chunker.py:63-83 | the packing loop with its recursive call |
| MarkdownChunker.TryAll | agent/eval/markdown_chunker.py:50-92 | the separator loop ends, with the specified parts |
| MarkdownChunker.SplitOversized | agent/eval/markdown_chunker.py:42-92 | the recursive method ends and returns the specified parts |
| MarkdownSections.ParseHeadingSections | agent/eval/markdown_chunker.py:95-126 | the line loop returns one section per heading, with the lines up to the next |
| MarkdownSections.HeadingIff | agent/eval/markdown_chunker.py:8 | a line is a heading exactly with one to six marks, white space, and a title (or a second blank) after it |
| MarkdownSections.LinesOfDocument | agent/eval/markdown_chunker.py:100 | a document's lines are found whichever of both line ends it uses |
| MarkdownSections.SectionWrittenOut | agent/eval/markdown_chunker.py:107-112 | a section has its heading's level and title, or the document's name, and the lines below without blank ends |
| MarkdownSections.BlocksAreTheDocument | agent/eval/markdown_chunker.py:114-123 | the blocks hold all headings and all other lines of the document, in order |
| MarkdownSections.BodiesKeepTheText | agent/eval/markdown_chunker.py:107-126 | the section bodies hold every non-blank character outside headings, in order |
| MarkdownSections.OutlineIffKept | agent/eval/markdown_chunker.py:107-123 | the sections' outline is the document's exactly when no blank heading is dropped or renamed |
| MarkdownSections.PathsExactIff | agent/eval/markdown_chunker.py:148-168 | every path holds the nearest headings at levels 1 to n if and only if no level is skipped |
| MarkdownSections.SkippedSiblingsNest | agent/eval/markdown_chunker.py:161-166 | concrete siblings on a skipped level that are nested |
| MarkdownChunker.LimitsFor | agent/eval/markdown_chunker.py:141-142 | size and overlap are as asked for within at least 200 and at most a quarter, and at the bounds outside |
| MarkdownChunker.PushHeading | agent/eval/markdown_chunker.py:157-166 | popping leaves room for exactly one heading at the level |
| MarkdownChunker.ChunkMarkdown | agent/eval/markdown_chunker.py:129-194 | the chunks of all sections in order, with content, path, level, title and part number |
| MarkdownChunker.ContentEndsWithBody | agent/eval/markdown_chunker.py:177-184 | the stored content ends with the part, and is the part alone exactly without heading line or title |
| MarkdownChunker.ContentWrittenOut | agent/eval/markdown_chunker.py:174-184 | the stored content in full: label, stripped title, path and part |
| MarkdownChunker.ChunkIsCut | agent/eval/markdown_chunker.py:170-193 | no chunk body is blank or too long; each is the part its number says of its section, with that section's path, level and title |
| MarkdownChunker.ChunksCarryTheDocument | agent/eval/markdown_chunker.py:129-194 | from document to chunks no visible character outside headings is lost or changes place |
| MarkdownChunker.ChunksStandUnderTheirHeadings | agent/eval/markdown_chunker.py:148-193 | without skipped levels each chunk's path is the nearest headings at levels 1 to its own |
| ScoreFusion.MinMaxNormalize | agent/memory/memory_manager.py:751-760 | the minimum and maximum found by the loop are the scores' bounds |
| ScoreFusion.NormalisedKeepsOrder | agent/memory/memory_manager.py:751-760 | normalised scores lie in [0,1] and order ids exactly as the raw scores do |
| ScoreFusion.NormalisedWrittenOut | agent/memory/memory_manager.py:751-760 | in proportion between the least and the greatest score, or 1 where all are equal |
| ScoreFusion.NormalisedAffine | agent/memory/memory_manager.py:751-760 | neither unit nor zero point of the raw scores matters |
| ScoreFusion.SortByScore | agent/memory/memory_manager.py:855-856 | the same entries, in descending score |
| ScoreFusion.FuseDenseSparse | agent/memory/memory_manager.py:806-856 | each id of the union once, with both normalised scores, their sum in proportion to the two configured weights (0.55 and 0.45 where none is positive), and the row to show, best first |
| ScoreFusion.HeavierEngineDecides | agent/memory/memory_manager.py:840-850 | of two ids on which the engines disagree entirely, the engine with the greater weight decides |
| ScoreFusion.LastRowScores | agent/memory/memory_manager.py:818-831 | an id's score is that of the last row with it |
| ScoreFusion.DenseRowIsShown | agent/memory/memory_manager.py:818-831 | the row shown is the dense engine's if there is one |
| ScoreFusion.FirstSparseRowIsShown | agent/memory/memory_manager.py:818-831 | and otherwise the first sparse one |
| ScoreFusion.FusedIsSound | agent/memory/memory_manager.py:847-853 | scores lie in [0,1]; an id no worse for both engines never scores lower, and scores higher if it is better where the weight is positive |
| ScoreFusion.UnitsDoNotMatter | agent/memory/memory_manager.py:833-853 | multiplying either engine's scores by a positive constant changes no score |
| ScoreFusion.ZeroPointDoesNotMatter | agent/memory/memory_manager.py:833-853 | shifting an engine's scores changes nothing if that engine scored every id |
| ScoreFusion.OneEngineDecides | agent/memory/memory_manager.py:833-853 | where one engine found nothing, the other's order is the result |
| ScoreFusion.MissingNeverBeatsIff | agent/memory/memory_manager.py:837-838 | an id an engine did not return normalises no higher than one it did, exactly when the latter's score is not negative |
| ScoreFusion.DenseMissingIff | agent/memory/memory_manager.py:833-853 | so it is with fused scores where the sparse scores are equal and the dense weight counts |
| ScoreFusion.SparseMissingIff | agent/memory/memory_manager.py:833-853 | and the same with the engines exchanged |
| ScoreFusion.MissingBeatsNegative | agent/memory/memory_manager.py:837-838 | concrete scores where an id an engine never returned beats one it did |
| TxnId.Fnv64a.Write | tool/points_txn_id.go:12-27 | the hash state after a write is the fold over its bytes |
| TxnId.PutUint64 | tool/points_txn_id.go:13-25 | the reused buffer holds the word's little-endian bytes |
| TxnId.PointsStableTxnID | tool/points_txn_id.go:11-29 | the hash of user, zero byte, refType, zero byte, refID and salt in this order, with 0 replaced by 1 |
| TxnId.PublishedHashes | tool/points_txn_id.go:12 | the hash has the published FNV-1a values |
| TxnId.LittleEndianRoundTrip | tool/points_txn_id.go:14 | the bytes written stand for the number, the lowest byte first |
| TxnId.LayoutInjective | tool/points_txn_id.go:12-25 | different (user, refType, refID, salt) give different byte strings, whatever bytes refType holds |
| TxnId.TimesPrimeInjective | tool/points_txn_id.go:12-27 | multiplying by the FNV prime loses nothing modulo 2^64 |
| TxnId.HashFromInjective | tool/points_txn_id.go:12-27 | hashing the same suffix from different states gives different states |
| TxnId.OneByteNeverCollides | tool/points_txn_id.go:12-27 | strings that differ in exactly one byte never collide |
| TxnId.OneByteIdsCollideIff | tool/points_txn_id.go:26-29 | ids whose layouts differ in one byte agree only through the remap of 0 to 1 |

## Left out

- SQL and Redis as such: isolation is modelled as stale wallet reads plus write locks held to the end of a transaction; unique keys are checked by the inserts.
- int64 overflow of balances and counters, key expiry, process crashes, and midnight between taking and returning a daily slot. A Redis failure may lose the reply to taking a slot or to giving it back.
- Floating-point rounding in the limiter and in score fusion: both are over reals.
- The mall's idempotency key and redeem lock (service/points_mall_service.go:149-166), and order-list and balance caches.
- Redis stock against free codes under concurrency: resetting the stock races with open redemptions, so stock is only a hint.
- RedeemOnce: covers the path with Redis present; the branch that counts free codes without Redis has the same effect on the tables.
- PurchaseInTx of the game store, and the Redis like markers of the article service.
- Frozen balances, descriptions and timestamps of wallet, ledger and order rows.
- Message decoding, sleeps and logs of the Kafka loop, and the text of the last error in a dead letter.
- The triggers that decide when a buffer is flushed (interval and key count): the step systems flush at any time.
- FlushOnSessionEnd: one list, for the rolling theorems; the loop over all lists is `FlushMidSummaryOnSessionEnd`.
- The text of a summary: the summariser is any function that may return nothing; one that raises would end the flush before its list is deleted. Its facts and `_normalize_mid_facts_struct` are not part of this model.
- `assign_chunk_indices` of the chunker.
- ChunkMarkdown: requires that the splitter ends on every section, which `SplitEndsIff` decides; where it does not end, the original has no result.
- HeadingOf: the heading expression is a function on a line, not a model of the regular-expression library.
- `_rerank_hits_by_memory_hints` and `_merge_memory_hits`: the same normalisation over tokenizer scores.
- SortByScore: the library sort is modelled as an insertion sort; the order among equal scores is left open, as set iteration leaves it.
- Model calls, embeddings, vector and document stores, HTTP and WebSocket handlers, authentication, the web client.
