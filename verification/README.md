# Verified models of the database layer

The service keeps its state in SQLite. This project models the parts of that layer that are algorithms or
protocols rather than single statements, and proves what they guarantee, or exactly when they do.

A table is a map or a sequence of records, a class holds the tables an operation changes, and every
`execute` (and every lock section and clock sample) is one atomic step. What is not committed is lost when the
connection closes. Concurrent or crash-prone behaviour is an event state machine whose theorems range over all
runs; calls that do not overlap are methods of a class, tied to the same step functions.

| file | what it models |
|---|---|
| `KeyCache.dfy` | the 5 second cache in front of the API key count: any interleaving of readers, creators and deleters |
| `MigrationRunner.dfy` | `init_db` over an unsorted registry, with commits in the middle, crashes and restarts |
| `ProjectScoping.dfy`, `StringIds.dfy` | two data migrations: project-scoped instances, integer to string ids |
| `GraphTraversal.dfy`, `KnowledgeGraph.dfy` | bounded breadth-first search and the store it runs on |
| `FullTextIndex.dfy` | the full-text indexes kept by triggers, as multisets of postings |
| `HybridRecall.dfy`, `MessageWindows.dfy` | reciprocal rank fusion; context windows and paging |
| `ExecutionQueue.dfy` | the compare-and-swap queue and the dispatcher's concurrency cap |
| `AccountDedup.dfy` | the duplicate-backend merge script |
| `FallbackChains.dfy`, `BackendAccounts.dfy` | fallback chains; account upsert and defaults |
| `ExecutionTags.dfy` | the tag filter query and the assignment table |
| `OwnershipRules.dfy` | the comma-separated reviewers column |
| `HealthAlerts.dfy` | the 30 minute alert throttle and the purge |
| `TemplateDeploy.dfy` | deploying a template under a free trigger name |
| `Prelude.dfy`, `Text.dfy` | sets, sequences, and Python's string operations |

Verify everything with `dafny verify dfyconfig.toml`.

## What turned out not to hold

Each of these is stated as an exact condition, with a lemma at a run or an input that breaks it.

- The shipped registry order (84, 85, 82, 87, 86) loses migration 82 for good when the process dies after the
  commit inside 85 (`ShippedIsUnsafe`, `LosesMigration`). Leaving aside a death inside the creation of a fresh schema,
  a registry survives every run if and only if no committing body separates a higher version from a lower one
  (`CompleteIffCommitSafe`). The runner's error message (`backend/app/db/migrations.py`, lines 190-199) promises a
  rollback to the version at start, which a commit inside a body prevents.
- The statements that create a fresh schema are durable one by one, and the restart after a death among them takes the
  database for an old one: it records versions 1 to 29 without running them. With such deaths a registry, sorted or
  not, survives every run if and only if it is commit safe and none of its versions up to 29 can be incomplete where
  the creation breaks off (`CompleteIffSafeWithCuts`; `FreshSchemaCanLose19`, `ShippedCanLose19`).
- The log index watches `stdout_log` and `stderr_log` only: an update leaves it stale exactly when the trigger does
  not fire and the words of `prompt` change (`SyncKeptIffSafe`, `ExecutionLogs.Update`; `PromptUpdateGoesStale`).
  Running the bulk fill twice doubles the postings unless there are none (`BulkFillTwice`; `SecondFillDoubles`).
- `_execute_recall` returns inside its loop, so it expands the first match only and returns nothing when there are
  no matches (`ExecuteRecall`). That loses nothing exactly when every other match lies in the same thread with a
  window inside the first one (`EarlyReturnIsComplete`; `EarlyReturnLosesRow`).
- A match falls out of its own window exactly when more than r later rows share its timestamp (`MatchInWindow`;
  `MatchOutsideItsWindow`).
- Paging reads the whole thread exactly when no page boundary separates two rows with one timestamp
  (`PagesAreTheThread`; `PagingLosesRow`).
- Uniqueness of fallback chains omits the entity type: a nonempty chain whose entries all name a backend is
  refused exactly when another type holds a chain under the same id (`SetFallbackChain`; `UniquenessOmitsType`, `SecondTypeIsRefused`).
- Purging alerts with `days = 0` is the one setting that lets two alerts of a pair come within 30 minutes
  (`PurgeDaysExactly`; `ZeroDaysBreaks`).
- With a tag filter the query lists each of an execution's m tags m times (`TagsWithFilter`; `TwoTagsListedTwice`),
  and a repeated requested tag filters everything out (`FilterIsSubset`; `RepeatedRequestFiltersOut`).
- A list of reviewers is read back as given, trimmed and without blanks, exactly when no reviewer contains a comma
  (`RoundTripExactly`; `CommaSplitsReviewer`).
- The dispatching entries of a trigger, with the one about to be claimed, stay within its cap exactly as long as no cap
  is set below that number and no check that compares with a cap read before it was lowered clears an entry
  (`CapHoldsIff`; `LoweredCapIsExceeded`, `LateCountExceedsCap`). They stay within it if no cap is ever lowered
  (`RaisingIsSafe`), and never exceed the greatest cap so far (`NeverAbovePeak`).

## Model

| member | source | states |
|---|---|---|
| KeyCache.BoundedStaleness | backend/app/db/rbac.py:33-45 | in every interleaving, an answer was true of the table at some moment later than the caller's clock sample minus 5 s and not after the answer |
| KeyCache.SettledAfterTtl | backend/app/db/rbac.py:33-45 | once the table has answered the same for 5 s, every new call gives that answer |
| KeyCache.StalenessIsTight | backend/app/db/rbac.py:33-51 | for every shorter time there is a run where a committed key and a cleared cache still yield "no keys" |
| KeyCache.RunsAreJustified | backend/app/db/rbac.py:26-51 | invariant of all runs: every cached or pending answer is backed by a moment of the run |
| KeyCache.SerialAnswersAreExact | backend/app/db/rbac.py:33-82 | in one process without overlapping calls every answer equals the count at that moment |
| KeyCache.KeyService.HasAnyKeys | backend/app/db/rbac.py:33-45 | an answer cached less than 5.0 s ago is returned and nothing changes; otherwise the answer is whether the table has rows, cached under the clock sampled before the count; an exact cache stays exact |
| KeyCache.KeyService.InvalidateKeyCache | backend/app/db/rbac.py:48-51 | the cache is empty afterwards |
| KeyCache.KeyService.CreateUserRole | backend/app/db/rbac.py:54-82 | returns the id iff the role is one of the four and no row has the API key; then the row is there and the cache is cleared, else nothing changed |
| KeyCache.KeyService.DeleteUserRole | backend/app/db/rbac.py:164-174 | reports whether the row existed, removes it, clears the cache in either case |
| KeyCache.KeyService.CountUserRoles | backend/app/db/rbac.py:177-181 | positive exactly when the table has keys |
| MigrationRunner.CompleteIffCommitSafe | backend/app/db/migrations.py:147-223 | in every run with crashes and restarts outside the creation of a fresh schema, a registry leaves nothing unapplied iff no committing body separates a higher version from a lower one |
| MigrationRunner.CompleteIffSafeWithCuts | backend/app/db/migrations.py:117-223 | in all runs, deaths among the statements of the fresh schema included, nothing is left unapplied iff the registry is commit safe and every place where the creation can break off has its versions up to 29 complete |
| MigrationRunner.CompleteIffNoLegacy | backend/app/db/migrations.py:117-139 | when it can break off before any of them is complete: iff commit safe and without versions up to 29 |
| MigrationRunner.CutLosesMigration | backend/app/db/migrations.py:117-139 | a creation broken off before such a version is complete and a quiet restart: success, with the version recorded and never applied |
| MigrationRunner.CutRunsKeepInvariant | backend/app/db/migrations.py:99-223 | when no break loses such a version, the invariant holds in every state of all runs |
| MigrationRunner.FreshSchemaCanLose19 | backend/app/db/schema.py:758-795 | a break just before table design_conversations loses version 19 of any registry that has it, sorted or not |
| MigrationRunner.ShippedCanLose19 | backend/app/db/schema.py:758-795 | and so of the shipped registry |
| MigrationRunner.RunsKeepInvariant | backend/app/db/migrations.py:99-223 | over every run of a safe registry without a death inside the creation of a fresh schema, records never outrun effects and committed records are downward closed |
| MigrationRunner.LosesMigration | backend/app/db/migrations.py:181-201 | for any unsafe registry, a run that ends in success without the lower migration |
| MigrationRunner.UninterruptedIsComplete | backend/app/db/migrations.py:99-106 | a pass completes the registry iff no version at or below the recorded maximum is missing |
| MigrationRunner.PrefixIsGapless | backend/app/db/migrations.py:99-114 | what a committing body of a safe registry commits has no gap |
| MigrationRunner.ShippedIs | backend/app/db/migrations.py:4353-4478 | the shipped registry has versions 1 to 100 but 83, in rising order but for the pairs 84 and 85 before 82, and 87 before 86 |
| MigrationRunner.ShippedWindow | backend/app/db/migrations.py:4353-4478 | the only unsafe window of the shipped order is 84 recorded, body 85 committing, 82 to come |
| MigrationRunner.ShippedIsUnsafe | backend/app/db/migrations.py:4445-4452 | the shipped registry is well formed, unsafe, and can lose a migration |
| MigrationRunner.ShippedWithoutThatCommit | backend/app/db/migrations.py:3701 | without the commit in body 85 the shipped order is safe in every run without a death inside the creation of a fresh schema |
| MigrationRunner.SortedIsComplete | backend/app/db/migrations.py:147-223 | so is every sorted registry |
| MigrationRunner.CurrentVersion | backend/app/db/migrations.py:99-106 | the maximum of the recorded versions, 0 for none |
| MigrationRunner.Database.Prepare | backend/app/db/migrations.py:117-139 | what is recorded before the loop: nothing for an empty database, versions 1 to 29 for an untracked one; versions 1 to 29 are in place at once in an empty database, and nothing new in any other |
| MigrationRunner.Database.RunEntry | backend/app/db/migrations.py:183-199 | one turn of the loop is a run of the state machine; its body takes effect iff its version is above 29 in a fresh schema, above the highest recorded one otherwise; raising rolls back to what is committed |
| MigrationRunner.Database.VisitRegistry | backend/app/db/migrations.py:181-201 | the loop and final commit record exactly the passed versions and put exactly the versions above that bound in place, or end at the last commit |
| MigrationRunner.Database.InitDb | backend/app/db/migrations.py:147-223 | every call is a run of the state machine from the old committed state to the new one, a creation of the schema that breaks off included; on success the exact records and the exact versions in place: for an untracked database with triggers every version from 30 on and no new one up to 29, for an empty one all of them |
| MigrationRunner.AppliedByBody | backend/app/db/migrations.py:117-201 | in all runs, crashes and broken-off creations included, a version from 30 on is in place only if it was so at the start or its body finished in the run |
| MigrationRunner.RecordsStayHonest | backend/app/db/migrations.py:99-201 | in all runs every recorded version from 30 on is in place, if that was so at the start |
| ProjectScoping.Migration94.Migrate | backend/app/db/migrations.py:3979-4082 | keeps both unique constraints and all old rows, completes every team and active session, each of which then has an instance in the right project, adds only rows somebody needs, and changes nothing the second time |
| ProjectScoping.Migration94.AttachAll | backend/app/db/migrations.py:3980-4036 | every active session points to its own super agent's instance in the chosen project; only instance columns of active sessions change |
| ProjectScoping.Migration94.AttachSessions | backend/app/db/migrations.py:3985-4036 | one super agent: select or insert one instance row, then point all its active sessions to it |
| ProjectScoping.Migration94.AddTeams | backend/app/db/migrations.py:4038-4082 | every project team has its instance and its super agents'; new rows come only from these teams |
| ProjectScoping.Migration94.AddTeam | backend/app/db/migrations.py:4041-4082 | one project team row, idempotent, new rows only for it and its members |
| ProjectScoping.CompleteMeans | backend/app/db/migrations.py:3922-4082 | exactly one instance per project team; if any project exists, each active session points to an instance of its own agent in the right project |
| ProjectScoping.NeededIsReferential | backend/app/db/migrations.py:3933-3965 | no inserted row can violate a foreign key |
| ProjectScoping.ChosenIsProject | backend/app/db/migrations.py:3987-4009 | a super agent gets an existing project iff there is any |
| ProjectScoping.ChosenIsRight | backend/app/db/migrations.py:3987-4009 | the right project: one the super agent manages if there is any, else one with a team that has it as a member if there is any, else one created no later than all others |
| ProjectScoping.Ensure | backend/app/db/migrations.py:4013-4029 | select-then-insert returns the one row of that pair and adds it only when absent |
| StringIds.LegacyDatabase.MigrateToStringIds | backend/app/db/migrations.py:398-528 | succeeds iff the new ids are distinct and live paths unique; then bots and paths are exactly the converted ones, a predefined bot under bot-security and every other under the id drawn for it, else the new tables stay empty |
| StringIds.DistinctIff | backend/app/db/migrations.py:407-415 | new ids clash iff two bots are predefined or two drawn ids are equal |
| StringIds.MappingInjective | backend/app/db/migrations.py:407-415 | distinct new ids make the id mapping injective |
| StringIds.InsertBots | backend/app/db/migrations.py:475-494 | bots are preserved one for one under their new ids, or an insert raises |
| StringIds.InsertPaths | backend/app/db/migrations.py:496-525 | the paths of live bots, in order, with uniqueness kept |
| StringIds.PathsStayAttached | backend/app/db/migrations.py:496-525 | every path with a live owner stays attached to the image of that owner |
| StringIds.OnlyOrphansDropped | backend/app/db/migrations.py:496-525 | as many paths remain as have live owners |
| StringIds.SymlinkKeepsBasename | backend/app/db/migrations.py:504-508 | a renamed symlink keeps the part after the id |
| StringIds.BasenameIs | backend/app/db/migrations.py:504-508 | the part after the first underscore, or the whole name if it has none |
| GraphTraversal.BallIsWithin | backend/app/db/knowledge_graph.py:202-231 | the level-by-level set is the set of entities at undirected distance at most n, defined by paths |
| GraphTraversal.FoundIsWithin | backend/app/db/knowledge_graph.py:187-236 | the result is the entities within the hops and the relations touching an entity within one hop less |
| GraphTraversal.ResultIsClosed | backend/app/db/knowledge_graph.py:187-236 | both ends of every returned relation are returned |
| GraphTraversal.ResultGrows | backend/app/db/knowledge_graph.py:187-236 | more hops return a superset |
| GraphTraversal.ResultIsComponent | backend/app/db/knowledge_graph.py:187-236 | with hops at least the entity count minus one, the result is the connected component |
| GraphTraversal.Traverse | backend/app/db/knowledge_graph.py:187-236 | the loop, early stop included, ends with the ball of radius hops and its relations |
| GraphTraversal.ExpandLevel | backend/app/db/knowledge_graph.py:202-231 | expanding the frontier turns level n into level n + 1 |
| GraphTraversal.ExpandEntity | backend/app/db/knowledge_graph.py:206-230 | one entity adds its relations and neighbours, and to the frontier only the new ones |
| KnowledgeGraph.LogDeterminesStore | backend/app/db/knowledge_graph.py:12-101 | any two stores consistent with the same calls are equal: ids, keys, counters, properties, importance, confidence, relations |
| KnowledgeGraph.RowOfKey | backend/app/db/knowledge_graph.py:12-40 | a key has a row iff it was upserted since its row was last deleted; the row counts those upserts and its promotions, has the last nonempty properties and the capped sum of boosts |
| KnowledgeGraph.NormalIsNormal | backend/app/db/knowledge_graph.py:30 | a normalised name is its own normalisation, so stored names can be looked up |
| KnowledgeGraph.NormalMeans | backend/app/db/knowledge_graph.py:30 | a normalised name has no letter A to Z and no white space at its ends, and is, character by character, the lower case of a stretch of the given name with only white space outside |
| KnowledgeGraph.SameNameSameNormal | backend/app/db/knowledge_graph.py:30 | names that differ only in ASCII case and outer white space are normalised alike |
| KnowledgeGraph.OneRowForAllNames | backend/app/db/knowledge_graph.py:12-40 | two upserts under such names reach one row, counted up twice, and a lookup under a third finds it |
| KnowledgeGraph.MentionKeeps | backend/app/db/knowledge_graph.py:12-40 | an entity upsert keeps every row, its key and its normalised name included, what the calls by key determine |
| KnowledgeGraph.RelateKeeps | backend/app/db/knowledge_graph.py:43-101 | so does a relation upsert: confidence the maximum, mentions the number of upserts since creation, properties those of the first |
| KnowledgeGraph.DeleteKeeps | backend/app/db/knowledge_graph.py:286-296 | so does a delete, which leaves no dangling relation |
| KnowledgeGraph.PromoteKeeps | backend/app/db/knowledge_graph.py:272-283 | so does a promotion: one more mention, importance raised by the boost and capped |
| KnowledgeGraph.Graph.UpsertEntity | backend/app/db/knowledge_graph.py:12-40 | one row per agent, normalised name and type: counted up, properties kept when none are given, or inserted; raises iff a really new row meets a used id |
| KnowledgeGraph.Graph.WriteRelation | backend/app/db/knowledge_graph.py:62-101 | one row per agent, ends and type, with maximal confidence, or inserted |
| KnowledgeGraph.Graph.UpsertRelation | backend/app/db/knowledge_graph.py:43-101 | the exact store in every case: raising at either end or at the relation, what is kept then, and otherwise both ends upserted, one relation counted up or inserted, and no other row touched |
| KnowledgeGraph.Graph.GetEntity | backend/app/db/knowledge_graph.py:104-119 | an entity of that name (and type, if given) with the most mentions, none iff there is none |
| KnowledgeGraph.Graph.PromoteEntity | backend/app/db/knowledge_graph.py:272-283 | one more mention, importance raised by the boost and capped at 1 |
| KnowledgeGraph.Graph.DeleteEntity | backend/app/db/knowledge_graph.py:286-296 | removes the entity with all its relations and nothing else |
| KnowledgeGraph.Graph.TraverseGraph | backend/app/db/knowledge_graph.py:187-236 | from the most mentioned entity of that name, exactly the entities within the hops and the relations they touch, all of them the agent's own |
| FullTextIndex.SyncKeptIffSafe | backend/app/db/schema.py:123-150 | one change keeps the index equal to the rebuilt one iff the trigger fires or the row's words do not change |
| FullTextIndex.LogIndexIs | backend/app/db/schema.py:111-150 | in sync means: each word of stdout, stderr and prompt stands at its place exactly once, NULL counting as the empty text, and nothing else does |
| FullTextIndex.MessageIndexIs | backend/app/db/schema.py:2108-2135 | the same for the one indexed column of the messages |
| FullTextIndex.SafeRunsKeepSync | backend/app/db/schema.py:123-150 | after any run of safe changes the index is the rebuilt one |
| FullTextIndex.OrphanSurvives | backend/app/db/schema.py:132-150 | a posting the table does not account for is never removed again, not even with its row |
| FullTextIndex.BulkFill | backend/app/db/migrations.py:3338-3345 | the bulk insert is right from an empty index and from no other |
| FullTextIndex.BulkFillTwice | backend/app/db/migrations.py:3338-3345 | repeating it keeps sync only if the table has no words |
| FullTextIndex.SecondFillDoubles | backend/app/db/migrations.py:3338-3345 | one word that has two postings after a second fill |
| FullTextIndex.RenumberingBreaksSync | backend/app/db/migrations.py:3422-3503 | a table rebuild that did not copy the id would break the index |
| FullTextIndex.ExecutionLogs.Insert | backend/app/db/schema.py:123-130 | insert trigger: index grows by the row's postings, sync kept |
| FullTextIndex.ExecutionLogs.Update | backend/app/db/schema.py:132-141 | update trigger on stdout and stderr only: the named columns change; sync kept iff one of the two is named or the words of prompt are the same |
| FullTextIndex.PromptUpdateGoesStale | backend/app/db/schema.py:132-141 | an update of the prompt alone after which the index is not the rebuilt one |
| FullTextIndex.ExecutionLogs.Delete | backend/app/db/schema.py:143-150 | delete trigger: the row's postings are removed, sync kept |
| FullTextIndex.ExecutionLogs.FillIndex | backend/app/db/migrations.py:3338-3345 | in sync afterwards iff the index was empty |
| FullTextIndex.ExecutionLogs.RebuildTable | backend/app/db/migrations.py:3422-3503 | the rebuild that copies ids leaves table and sync as they were |
| FullTextIndex.MemoryMessages.Insert | backend/app/db/schema.py:2118-2122 | sync kept unconditionally |
| FullTextIndex.MemoryMessages.Update | backend/app/db/schema.py:2129-2135 | sync kept unconditionally |
| FullTextIndex.MemoryMessages.Delete | backend/app/db/schema.py:2123-2128 | sync kept unconditionally |
| HybridRecall.BetterRanksScoreHigher | backend/app/db/agent_memory.py:421-428 | for 0 < alpha < 1, no worse in both rankings and better in one scores strictly higher |
| HybridRecall.PresentBeatsAbsent | backend/app/db/agent_memory.py:408-428 | being in a list beats being absent, as real ranks are below twice top_k |
| HybridRecall.FtsAlone | backend/app/db/agent_memory.py:374-431 | alpha = 1 returns the first entries of the full-text order |
| HybridRecall.VecAlone | backend/app/db/agent_memory.py:374-431 | alpha = 0 returns the first entries of the vector order |
| HybridRecall.TopFollowsList | backend/app/db/agent_memory.py:430-431 | a best selection follows any list whose scores fall strictly |
| HybridRecall.PrefixIsTop | backend/app/db/agent_memory.py:430-431 | the first top_k in falling score are a best selection without duplicates |
| HybridRecall.RankMap | backend/app/db/agent_memory.py:408-410 | each id has its last position in the list as rank |
| HybridRecall.MessageMap | backend/app/db/agent_memory.py:412-419 | the union of both lists, the full-text row winning |
| HybridRecall.ScoreAll | backend/app/db/agent_memory.py:421-428 | every id of the union is scored once |
| HybridRecall.SortByScore | backend/app/db/agent_memory.py:430 | falling scores, same elements |
| HybridRecall.Fuse | backend/app/db/agent_memory.py:374-431 | the first top_k of the union by falling score, or all but the last ones for a negative top_k: distinct rows, and no excluded candidate outscores an included one |
| HybridRecall.FusedOrder | backend/app/db/agent_memory.py:408-431 | of two candidates the one placed earlier, or kept while the other is not, has no smaller alpha / (60 + f) + (1 - alpha) / (60 + v), where f and v are the last positions in the two lists, or 2 top_k + 1 when absent |
| HybridRecall.ScoreIs | backend/app/db/agent_memory.py:408-428 | that sum is the score |
| HybridRecall.DefaultWeightFollowsVector | backend/app/db/agent_memory.py:421-431 | with alpha = 0.4 two messages that the lists order oppositely do not come in full-text order |
| MessageWindows.WindowIsStretch | backend/app/db/agent_memory.py:444-465 | the two queries around a match cut one stretch out of its thread |
| MessageWindows.WindowIsCentred | backend/app/db/agent_memory.py:444-465 | with distinct timestamps the stretch is the clipped window around the match |
| MessageWindows.MatchInWindow | backend/app/db/agent_memory.py:444-465 | a window holds its match iff fewer than r + 1 later rows share its timestamp |
| MessageWindows.MatchOutsideItsWindow | backend/app/db/agent_memory.py:444-465 | three rows with one timestamp, the first of which is not in its own window |
| MessageWindows.ExpandWithContext | backend/app/db/agent_memory.py:439-465 | the windows of all matches, concatenated in order without repeated ids |
| MessageWindows.ExpansionIsExact | backend/app/db/agent_memory.py:439-465 | with distinct timestamps: exactly the rows within r places of some match, once each, every match, at most (2r + 1) n rows |
| MessageWindows.ExecuteRecall | backend/app/db/agent_memory.py:237-267 | r <= 0 returns the matches, no matches nothing, otherwise the first match's window only |
| MessageWindows.EarlyReturnIsComplete | backend/app/db/agent_memory.py:242-267 | that equals the full expansion iff every other match is in the first match's thread with a window that starts no earlier and stops no later |
| MessageWindows.StretchIsCentred | backend/app/db/agent_memory.py:245-260 | with distinct timestamps windows start and stop at the match's position minus and plus r, clipped, which makes that a condition on positions |
| MessageWindows.EarlyReturnLosesRow | backend/app/db/agent_memory.py:242-267 | three rows, the first and the last matching, of which the last is lost |
| MessageWindows.FirstWindowAsIs | backend/app/db/agent_memory.py:245-267 | one window has no repeated rows to drop |
| MessageWindows.Recall | backend/app/db/agent_memory.py:374-436 | the fused ranking, expanded iff a range is asked for and something was found |
| MessageWindows.ThreadIsOrdered | backend/app/db/agent_memory.py:130-154 | a thread is its rows in time order |
| MessageWindows.TiesKeepTableOrder | backend/app/db/agent_memory.py:130-154 | its rows with one timestamp stand in row id order |
| MessageWindows.PageBefore | backend/app/db/agent_memory.py:130-154 | a page ends just before the rows sharing the given row's timestamp |
| MessageWindows.PagesAreTheThread | backend/app/db/agent_memory.py:130-154 | paging back from the newest row, by the oldest id of each page, reads the thread iff no page boundary separates equal timestamps; so it does when all timestamps differ |
| MessageWindows.ReadsBackIff | backend/app/db/agent_memory.py:130-154 | the same from any starting message |
| MessageWindows.PagingLosesRow | backend/app/db/agent_memory.py:130-154 | two rows with one timestamp, of which pages of one row read only one |
| MessageWindows.TiesLoseRows | backend/app/db/agent_memory.py:130-154 | when a page ends between two rows with one timestamp, the older one is on no later page, at any page size |
| ExecutionQueue.ClaimsAreExclusive | backend/app/db/execution_queue.py:79-123 | between two successful claims of an entry lies a reset, a re-insertion or an update to pending |
| ExecutionQueue.NothingIsLost | backend/app/db/execution_queue.py:184-255 | an entry stays until a cleanup removes it when terminal and past the age limit |
| ExecutionQueue.RemovedWhenDue | backend/app/db/execution_queue.py:215-234 | whatever removes an entry is a cleanup of h >= 0 hours, and the entry has been terminal in every state since a moment more than h hours earlier |
| ExecutionQueue.StampIsSince | backend/app/db/execution_queue.py:79-123 | a terminal entry that did not start out so has been terminal without a break since its completion stamp |
| ExecutionQueue.DisciplinedRunsStayCoherent | backend/app/db/execution_queue.py:79-123 | with compare-and-swap transitions only, completed_at is set exactly for terminal entries |
| ExecutionQueue.TerminalIsFinal | backend/app/db/execution_queue.py:79-123 | in such runs a terminal entry never changes until it is cleaned up |
| ExecutionQueue.CapHoldsIff | backend/app/services/execution_queue_service.py:143-190 | with one dispatcher and caps changed at any time, dispatching entries plus the one about to be claimed stay within the caps iff no cap is set below that load and every count that clears an entry finds them below the cap as it is then |
| ExecutionQueue.RaisingIsSafe | backend/app/services/execution_queue_service.py:143-190 | as long as no cap is lowered, they stay within the caps, which are 1 for a trigger without a cap |
| ExecutionQueue.CountIffRoom | backend/app/services/execution_queue_service.py:154-158 | a count against the cap that was read keeps the load within a bound iff it clears nothing the bound has no room for |
| ExecutionQueue.LateCountExceedsCap | backend/app/services/execution_queue_service.py:154-186 | a cap lowered, not below the load, between reading it and counting: two dispatching entries under a cap of one |
| ExecutionQueue.NeverAbovePeak | backend/app/services/execution_queue_service.py:143-190 | in every run a trigger never has more dispatching entries than the greatest cap it has had |
| ExecutionQueue.SetCapIffRoom | backend/app/services/execution_queue_service.py:253-261 | setting a cap keeps the load within the caps iff the new cap, at least 1, is not below the load |
| ExecutionQueue.MoveKeepsUnder | backend/app/services/execution_queue_service.py:143-190 | fetching, reading a cap, skipping, claiming, and anything other callers do keep the load within any bound |
| ExecutionQueue.LoweredCapIsExceeded | backend/app/services/execution_queue_service.py:253-261 | two dispatching entries under a cap lowered from two to one |
| ExecutionQueue.ActiveAfterUpdate | backend/app/db/execution_queue.py:79-140 | an update moves exactly the updated entry into or out of the active count |
| ExecutionQueue.ResetFreesAll | backend/app/db/execution_queue.py:237-255 | after a reset nothing is active and every live entry can be claimed |
| ExecutionQueue.Queue.EnqueueExecution | backend/app/db/execution_queue.py:24-54 | a new pending entry, or an exception and no change for a used id |
| ExecutionQueue.Queue.GetPendingEntries | backend/app/db/execution_queue.py:57-76 | the first entries by priority, then age, at most limit of them or all for a negative limit; none left out comes before one returned |
| ExecutionQueue.Queue.UpdateEntryStatus | backend/app/db/execution_queue.py:79-123 | true iff the id exists and the expected status, unless none or empty, matches; then the status changes, the dispatch stamp is the time of the call for dispatching, the completion stamp for completed, failed and cancelled, and nothing else changes |
| ExecutionQueue.Queue.CancelPendingEntries | backend/app/db/execution_queue.py:184-212 | exactly the pending entries (of the trigger) become cancelled at the time of the call, and are counted |
| ExecutionQueue.Queue.CleanupCompletedEntries | backend/app/db/execution_queue.py:215-234 | exactly the completed, failed and cancelled entries stamped more than 3600 s per hour ago go, and are counted; none for negative hours |
| ExecutionQueue.Queue.ResetStaleDispatching | backend/app/db/execution_queue.py:237-255 | exactly the dispatching entries become pending with no dispatch time |
| ExecutionQueue.Queue.CountActiveForTrigger | backend/app/db/execution_queue.py:126-140 | counted row by row, the number of dispatching entries of the trigger, on which the cap results rest |
| AccountDedup.MergeKeepsKey | backend/scripts/dedup_ai_accounts_backends.py:28-38 | the merged configuration of a group has the key of the group |
| AccountDedup.MergeField | backend/scripts/dedup_ai_accounts_backends.py:77-82 | a merged field has the value of the last row that sets it |
| AccountDedup.KeysBecomeDistinct | backend/scripts/dedup_ai_accounts_backends.py:59-110 | after the run no two rows share a key |
| AccountDedup.SecondRunChangesNothing | backend/scripts/dedup_ai_accounts_backends.py:59-110 | a second run is the identity |
| AccountDedup.KeeperHasEverything | backend/scripts/dedup_ai_accounts_backends.py:73-85 | the earliest row of a key survives under its id with the latest value of every field of every row of the group |
| AccountDedup.KeysPreserved | backend/scripts/dedup_ai_accounts_backends.py:59-110 | the set of keys is the same before and after |
| AccountDedup.KeylessUntouched | backend/scripts/dedup_ai_accounts_backends.py:61-68 | keyless and unparsable rows stay as they are |
| AccountDedup.Group | backend/scripts/dedup_ai_accounts_backends.py:59-68 | the dict holds each key's rows oldest first; raises iff some row is JSON but no object, or has a true value that is not text under one of the three key fields |
| AccountDedup.KeyMeans | backend/scripts/dedup_ai_accounts_backends.py:28-38 | the key of a row is its kind and the trimmed text of the first of config_path, api_key_env and email that is text and not blank; no key iff each of them is absent, a false value or blank text |
| AccountDedup.ReadableIffNotRaises | backend/scripts/dedup_ai_accounts_backends.py:28-38 | a row is readable iff it is not one of those that raise |
| AccountDedup.MergeBucket | backend/scripts/dedup_ai_accounts_backends.py:77-82 | the dict updated by each row of the group in turn |
| AccountDedup.Plan | backend/scripts/dedup_ai_accounts_backends.py:70-85 | every keeper is updated to its merge, every later row of a key deleted, and nothing else planned |
| AccountDedup.Backends.WriteUpdates | backend/scripts/dedup_ai_accounts_backends.py:101-105 | row by row, the rows with an updated id carry its configuration |
| AccountDedup.Backends.DeleteAll | backend/scripts/dedup_ai_accounts_backends.py:106-109 | exactly the rows with the listed ids go, the order of the others stays |
| AccountDedup.Backends.Deduplicate | backend/scripts/dedup_ai_accounts_backends.py:41-111 | the table after the run is the specified result; it raises iff such a row exists; a dry run or a raised exception changes nothing |
| FallbackChains.SetThenGet | backend/app/db/backends.py:45-84 | a chain that was set reads back as its entries in order, every other chain is as before |
| FallbackChains.ReplacedStaysDense | backend/app/db/backends.py:55-84 | orders of every chain are exactly 0 to n - 1 again |
| FallbackChains.OneTypePerId | backend/app/db/schema.py:573-585 | one id serves one entity type only |
| FallbackChains.UniquenessOmitsType | backend/app/db/schema.py:573-585 | a team's chain blocks an agent of the same id |
| FallbackChains.SecondTypeIsRefused | backend/app/db/backends.py:55-84 | setting a chain for an agent after one for a team of the same id returns false |
| FallbackChains.Chains.GetFallbackChain | backend/app/db/backends.py:45-52 | the rows of the chain by rising order, all of them; consecutive from 0 in a dense table |
| FallbackChains.Chains.SetFallbackChain | backend/app/db/backends.py:55-84 | succeeds iff the entries are empty or all named and no row of the id has another type; raises iff a missing key comes first; otherwise false; on success row i of the chain is entry i and every other row is as before, else nothing changes |
| FallbackChains.Chains.DeleteFallbackChain | backend/app/db/backends.py:87-95 | true iff the chain had rows; removes it and nothing else |
| BackendAccounts.CreateIsIdempotent | backend/app/db/backends.py:300-375 | repeating a create returns the same id and leaves the table unchanged |
| BackendAccounts.NormalizedMeans | backend/app/db/backends.py:316-325 | names are compared by their characters other than spaces, in order and in lower case |
| BackendAccounts.FirstMatchStays | backend/app/db/backends.py:317-331 | the first row matching by name or path is still the first match after it was overwritten |
| BackendAccounts.CreateSetsDefault | backend/app/db/backends.py:333-375 | with the default flag the account becomes the only default of its backend |
| BackendAccounts.CreateKeeps | backend/app/db/backends.py:300-375 | ids stay unique and at most one default per backend remains |
| BackendAccounts.UpdateKeeps | backend/app/db/backends.py:378-436 | so does an update |
| BackendAccounts.DeleteKeeps | backend/app/db/backends.py:439-447 | so does a delete, and the account is gone |
| BackendAccounts.Accounts.CreateBackendAccount | backend/app/db/backends.py:300-375 | the first row of the backend with that name or that nonempty path gets all given fields, or a row with a fresh id is appended; other defaults of the backend are cleared iff the flag is set; raises iff the row would be new and the backend unknown |
| BackendAccounts.Accounts.UpdateBackendAccount | backend/app/db/backends.py:378-436 | true iff the account belongs to the backend; only the given fields change, and other defaults are cleared iff the flag is set |
| BackendAccounts.Accounts.DeleteBackendAccount | backend/app/db/backends.py:439-447 | removes that account of that backend, and says whether it existed |
| ExecutionTags.FilterIsSubset | backend/app/db/execution_tags.py:146-177 | double join, group and distinct count keep an execution iff the requested tags are distinct and all assigned |
| ExecutionTags.RepeatedRequestFiltersOut | backend/app/db/execution_tags.py:146-153 | an assigned tag requested twice filters the execution out |
| ExecutionTags.TagsWithoutFilter | backend/app/db/execution_tags.py:171-189 | without a filter the tags list is the assigned tags, once each |
| ExecutionTags.TagsWithFilter | backend/app/db/execution_tags.py:155-189 | with one, each of the m assigned tags is listed m times and no other tag at all |
| ExecutionTags.TwoTagsListedTwice | backend/app/db/execution_tags.py:155-189 | two assigned tags are listed as four |
| ExecutionTags.KeptExactly | backend/app/db/execution_tags.py:163-180 | the query lists in order, once each, exactly the executions carrying every requested tag |
| ExecutionTags.KeptTags | backend/app/db/execution_tags.py:183-191 | each listed execution comes with the list of its own tags |
| ExecutionTags.PagesConnect | backend/app/db/execution_tags.py:179-181 | consecutive pages are one longer page |
| ExecutionTags.TagStore.AddTagToExecution | backend/app/db/execution_tags.py:84-107 | true iff tag and execution exist; a repeated pair is ignored |
| ExecutionTags.TagStore.RemoveTagFromExecution | backend/app/db/execution_tags.py:110-121 | removes that pair only and says whether it was there |
| ExecutionTags.TagStore.DeleteTag | backend/app/db/execution_tags.py:73-81 | removes the tag with all its assignments and no others |
| ExecutionTags.TagStore.GetExecutionsWithTags | backend/app/db/execution_tags.py:124-191 | the kept executions from the offset on, at most limit of them or all for a negative limit |
| OwnershipRules.RoundTrip | backend/app/db/pr_assignment.py:21-29 | for arbitrary strings, reading what was stored gives each reviewer split at commas, trimmed, blanks dropped |
| OwnershipRules.RoundTripExactly | backend/app/db/pr_assignment.py:21-29 | it gives the trimmed non-blank list iff no reviewer contains a comma |
| OwnershipRules.CleanIsClean | backend/app/db/pr_assignment.py:21-29 | the trimmed list has exactly the trimmed non-blank parts |
| OwnershipRules.CommaSplitsReviewer | backend/app/db/pr_assignment.py:21-29 | one reviewer with a comma is read back as two |
| OwnershipRules.ReadingIsStable | backend/app/db/pr_assignment.py:21-29 | storing what was read reads back the same |
| OwnershipRules.Rules.AddOwnershipRule | backend/app/db/pr_assignment.py:26-37 | the new rule is listed by priority behind older ones of equal priority and reads back as given, the others stay; a used id changes nothing |
| OwnershipRules.Rules.GetOwnershipRules | backend/app/db/pr_assignment.py:11-23 | every rule in order with its reviewers parsed |
| HealthAlerts.AlertsAreSpaced | backend/app/db/health_alerts.py:16-53 | over any run with a monotone clock, alerts of one pair are at least 30 minutes apart, also across purges |
| HealthAlerts.PurgeDaysExactly | backend/app/db/health_alerts.py:88-96 | runs purging a fixed number of days are always spaced iff that number is not 0 |
| HealthAlerts.ZeroDaysBreaks | backend/app/db/health_alerts.py:88-96 | the run that inserts two alerts one second apart |
| HealthAlerts.SuppressedByRecent | backend/app/db/health_alerts.py:30-43 | a suppressed call has a stored alert of its pair less than 30 minutes old |
| HealthAlerts.Alerts.FindRecent | backend/app/db/health_alerts.py:32-41 | found iff a stored alert of the kind and trigger is younger than 1800 s |
| HealthAlerts.Alerts.CreateHealthAlert | backend/app/db/health_alerts.py:16-53 | skipped iff there is such an alert, raised for an unknown trigger, or inserted with the next id: one step of the run |
| HealthAlerts.Alerts.DeleteOldAlerts | backend/app/db/health_alerts.py:88-96 | removes exactly the alerts older than 86400 s per day and counts them; nothing for negative days |
| TemplateDeploy.FreshName | backend/app/db/bot_templates.py:228-236 | the loop ends within one try per trigger plus one, with a name that no trigger has, whatever the case of its letters: the base if it is free, else base (c) with the smallest c from 2 on that is |
| TemplateDeploy.TakenAreFew | backend/app/db/bot_templates.py:233-236 | different candidates differ even in lower case, so at most as many are taken as there are triggers |
| TemplateDeploy.NextDeployMovesOn | backend/app/db/bot_templates.py:228-236 | deploying again moves on to a later candidate |
| TemplateDeploy.Database.DeployTemplate | backend/app/db/bot_templates.py:212-255 | exactly one trigger with such a name, the configured prompt and model and the valid values of backend, source and schedule, or their defaults, is added, or nothing; names stay different up to case |

## Left out

- The Flask application, middleware, logging, the frontend, analytics, and the single-statement modules: no logic beyond one statement.
- Schema statements other than the constraints and triggers named above; the bodies of additive migrations are abstract steps that may commit, fail or die.
- The branch of `init_db` for integer ids returns without visiting the registry; it is a separate final state of the runner.
- Which versions up to 29 are complete at each place where the creation of a fresh schema can break off is an input; only the place before table design_conversations is worked out.
- The step after a successful run of `init_db` that marks stale executions, and the tables created only in legacy code.
- BM25 ranking, tokenising, embeddings and cosine similarity: the two ranked lists and the token function are inputs; scores are real numbers, not floats.
- JSON, random ids and the clock: configurations are maps, ids and times are parameters with the freshness the code checks.
- Unicode case folding: lower-casing changes ASCII letters only, which is what SQLite does; Python's `lower()` folds more.
- Timestamps of the knowledge graph (`first_seen`, `last_seen`) and of account and rule rows.
- KnowledgeGraph.Graph.UpsertEntity: calls that do not overlap; the race between the select and the insert of two callers is not modelled.
- MessageWindows.ExecuteRecall: the query is an input; without a thread and a resource the code returns no rows before any expansion.
- MessageWindows.ThreadIsOrdered: rows with equal timestamps are read in row id order, as the index gives them; a negative limit of get_messages is not modelled.
- HybridRecall.Fuse: the order of equal scores is whatever the set iteration gave.
- ExecutionQueue.CapHoldsIff: counts queue rows, not threads: a restart of the dispatcher makes entries pending again while their executions may still run; one dispatcher thread, ids that are never handed out again, and no reset of all caps, which is there for tests.
- ExecutionTags.PagesConnect: two queries read consecutive pages only if rows with equal started_at come back in the same order both times, which the query does not fix.
- AccountDedup.Backends.Deduplicate: the missing-file exit and the printed text; rows are taken in the order the query returns them.
- TemplateDeploy.Database.DeployTemplate: configuration values that are numbers or other non-strings.
- ExecutionTags.TagsWithFilter: tag ids are assumed nonempty and without commas, as generated ids are.
- HealthAlerts.AlertsAreSpaced: two overlapping calls can both insert; each call is one atomic step here.
- StringIds.LegacyDatabase.MigrateToStringIds: the symlinks on disk are not modelled, only their names.
