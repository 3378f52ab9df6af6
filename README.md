# elephant-gitlab, modelled in Dafny

elephant-gitlab is a provider for the Walker/Elephant launcher. It mirrors
GitLab projects and open merge requests into a local SQLite cache. It answers
launcher queries from that cache, and it opens or copies the web URL of the
entry the user activates. This project models the parts that decide what is
fetched, stored, listed and opened:

- `text.dfy` (module `Text`): the string and integer behaviour of Go that the
  provider relies on. This covers int32 wrap-around, `/` truncating toward
  zero, `strings.Fields`, `strings.Count`, `strings.ToLower` on ASCII,
  `strings.TrimSpace`, `strings.Index`, decimal formatting and parsing, and
  `slices.Sort`.
- `gitlab.dfy` (module `GitLab`): the API records, the endpoint strings and the
  two pagination loops. Each HTTP round trip is one entry of a finite script of
  page results.
- `db.dfy` (module `Store`): the two cache tables, held as maps inside the
  class `Store`. It covers the transactional `INSERT OR REPLACE` batches, the
  clear, and the project-path derivation with `lastIndex`. It also has a
  definition of SQLite's `LIKE`. The reads are specified as "the newest
  matching rows, up to the limit".
- `query.dfy` (module `Query`): multi-word fuzzy scoring, project scoring,
  best-project selection, and the flat and drill-down (`project!mr`) result
  modes, including history blending.
- `setup.dfy` (module `Sync`): one sync cycle, `syncAll`.
- `activate.dfy` (module `Activate`): `resolveURL` and the action dispatch of
  `Activate`.

The launcher library's fuzzy scorer and the history's usage score are
external. They are function parameters, bundled as `Query.Ranker`. Nothing is
assumed about them beyond their types. Failures of the database and the
network become explicit inputs:

- a `WriteFault` says where a write batch fails;
- a `readFails` flag says a read fails;
- a `Fail` page stands for any failed round trip.

Processes, the history and the background sync are not executed. `Activate`
returns the effects it sets off, in order.

Two points of the code that the model follows exactly:

- **Repeat bonus.** `score / 2` (query.go:44) is Go integer division, which
  truncates toward zero (`Text.TruncHalf`). The multiplication and the sum
  are int32, so overflow wraps (`Text.Wrap32`).
- **`queryMergeRequests`.** This read (db.go:217) matches only the title, the
  project path and the source branch, and `Store.MergeRequestMatches` does
  the same. Only the drill-down read also matches the decimal iid.

## Model

| member | source | states |
|---|---|---|
| Text.Wrap32 | query.go:25-45 | the result is an int32 congruent to its input modulo 2^32, so an in-range value is unchanged: the int32 accumulation of the total |
| Text.Wrap32Absorbs | query.go:33-44 | wrapping an intermediate sum does not change the wrapped final sum |
| Text.TruncHalf | query.go:44 | `score / 2` halves toward zero for both signs |
| Text.Fields | query.go:20 | `strings.Fields`: every word is non-empty and free of blanks |
| Text.FieldsKeepText | query.go:20 | the words of `strings.Fields` are exactly the non-blank characters of the query, in order |
| Text.FieldsEmpty | query.go:20 | there are no words exactly when the query is all blanks |
| Text.FieldsAtMostOne | query.go:20-21 | there is at most one word exactly when no blank separates two non-blank characters |
| Text.Count | query.go:42 | `strings.Count` of a non-empty word never exceeds the text length over the word length (what it counts is fixed by `CountPositive`, `CountAtLeastTwo` and `CountFromFirst`) |
| Text.CountBelowLength | query.go:42 | the count of a non-empty word never exceeds the text length, so it fits in an int32 for a text shorter than 2^31 |
| Text.CountFromFirst | query.go:42 | counting by repeated search: with `f` the first occurrence, the count is one plus the count in the text after that occurrence |
| Text.CountAtLeastTwo | query.go:42 | the count of a non-empty word is at least 2 exactly when the word occurs at two positions `i` and `j` with `i + len(word) <= j` |
| Text.Decimal | query.go:93 | `%d`: digits only for a non-negative value, and `-` followed by digits for a negative one, with no leading zero except in `0` itself |
| Text.CountPositive | query.go:42 | the non-overlapping occurrence count is positive exactly when the word occurs at all |
| Text.IndexOf | query.go:67 | returns -1 exactly when there is no `!`; otherwise it returns the first `!` |
| Text.TrimSpace | activate.go:40 | the result is the input with leading and trailing blanks removed, and it neither starts nor ends with a blank |
| Text.DecimalRoundTrip | activate.go:73-78 | the decimal text of an id (`%d`) parses back to the id |
| Text.SortAscending | query.go:48 | the result is sorted and is a permutation of its input |
| Text.InsertAdds | query.go:48 | inserting into a list adds exactly that element, so the sort keeps every position, repeats included |
| Text.InsertSorted | query.go:48 | inserting into a sorted list keeps it sorted, and the new head is the element or the old head |
| GitLab.Truncate | gitlab.go:146-148 | keeps the first `n` items, and keeps the whole list when it is no longer than `n` |
| GitLab.ProjectsEndpoint | gitlab.go:103-106 | the project page URL: 100 per page, the page number, ordered by last activity, with `&membership=true` only when asked (proved by `MembershipFilterPresent` and `ProjectPageURLsAt`) |
| GitLab.MergeRequestsURL | gitlab.go:158-163 | the listing page URL: the page parameters follow `&`, except on page 1 of an endpoint ending in `?` (proved by `AmpersandUnlessQuestionMark` and `ListingURLs`) |
| GitLab.MembershipFilterPresent | gitlab.go:103-106 | the project URL ends with `&membership=true` exactly when membership-only is requested |
| GitLab.ProjectPageURLsAt | gitlab.go:100-143 | the k-th project request asks for page k+1 |
| GitLab.MergeRequestPageURLsAt | gitlab.go:155-199 | the k-th merge-request request asks for page k+1 |
| GitLab.AmpersandUnlessQuestionMark | gitlab.go:158-163 | an endpoint that does not end in `?` gets `&per_page=100&page=N` on every page |
| GitLab.ListingURLs | gitlab.go:158-163 | on every page, a listing endpoint's parameters follow `&` |
| GitLab.ReviewerIdReadsBack | gitlab.go:213-215 | the reviewing endpoint carries the user id in decimal, which parses back to the id |
| GitLab.ProjectsURL | gitlab.go:103-106 | builds the URL of a project page: 100 per page, ordered by last activity, with `&membership=true` only for membership-only |
| GitLab.ProjectRound | gitlab.go:102-143 | one round trip adds the next page's URL and appends its items. The loop goes on exactly when the page succeeded, was non-empty and had a next page |
| GitLab.GatherProjectPages | gitlab.go:99-144 | no request at all for a cap of 0. Pages 1, 2, … are requested while under the cap; the last page requested either stopped the loop or reached the cap. The items are all gathered, in order |
| GitLab.FetchProjects | gitlab.go:98-151 | requests pages 1, 2, … of the right URL, stopping only at a failed, empty or last page or at the cap. Every page before the last continued. The result is the gathered items cut to the cap |
| GitLab.FetchMergeRequests | gitlab.go:153-203 | requests pages 1, 2, …; every page but the last continued and the last did not. The result is every item gathered, in order |
| GitLab.FetchAssigned | gitlab.go:205-207 | the assigned-to-me listing, with the URL of every page and the stop condition |
| GitLab.FetchAuthored | gitlab.go:209-211 | the created-by-me listing, with the URL of every page and the stop condition |
| GitLab.FetchReviewing | gitlab.go:213-215 | the reviewer listing for the user id, with the URL of every page and the stop condition |
| Store.LastIndexOf | db.go:144-151 | the position of the last occurrence, or -1 when there is none |
| Store.LastIndex | db.go:144-151 | the backward scan returns the last occurrence, and -1 exactly when there is none |
| Store.DerivedProjectPath | db.go:119-127 | empty exactly when no `!` follows position 0. Otherwise it is the prefix before the last `!` |
| Store.DerivedPathOfReference | db.go:119-127 | for a reference `path!iid`, the derived project path is `path` |
| Store.ProjectPathOf | db.go:119-127 | the scan with `lastIndex` computes the derived project path |
| Store.UpsertLatest | db.go:86-99 | after `INSERT OR REPLACE` of a batch, a row's latest entry is what the table holds |
| Store.UpsertUntouched | db.go:86-99 | ids not in the batch keep their presence and their row |
| Store.UpsertEntryOrOld | db.go:86-99 | every row after a batch is an old row or an entry of the batch |
| Store.UpsertFromEntries | db.go:86-99 | every id in the batch is present afterwards, holding one of its entries |
| Store.UpsertKeepsKeys | db.go:86-99 | a batch never deletes a row |
| Store.ProjectRowsKeyed | db.go:79-102 | a project upsert keeps every row stored under its own id |
| Store.MergeRequestRowsKeyed | db.go:104-137 | a merge-request upsert keeps every row stored under its own id |
| Store.MergeRequestBatchEffect | db.go:104-137 | the keys afterwards are the old keys plus the batch ids. Every batch id carries the batch's role, and other rows are unchanged |
| Store.LikeIsSubstring | db.go:182-186 | for a filter without `%` or `_`, `LIKE '%q%'` holds exactly when the lowered text contains the lowered filter |
| Store.LikePrefix | db.go:182-186 | for a filter without wildcards, `LIKE 'q%'` is a case-insensitive prefix test |
| Store.LikeLeading | db.go:182-186 | a leading `%` matches the pattern against some suffix |
| Store.Like | db.go:182-186 | SQLite's `LIKE`: `%` matches any run, `_` any one character, and other characters match up to ASCII case (characterised by `LikeIsSubstring`, `LikePrefix` and `LikeLeading`) |
| Store.ProjectMatches | db.go:182-186 | the project filter: every row for an empty filter, else `%q%` against the path or the name |
| Store.MergeRequestMatches | db.go:214-221 | the merge-request filter: every row for an empty filter, else `%q%` against the title, the project path or the source branch |
| Store.DrillDownMatches | query.go:90 | the drill-down filter: the row's project is one of the given paths, and the filter matches it or its decimal iid |
| Store.NewestFirst | db.go:184-189 | `ORDER BY … DESC LIMIT n`: at most the limit, only matching rows, no repeats, newest first, and a matching row is left out only when the limit is reached by rows at least as new |
| Store.Limit | db.go:186-189 | the limit is 50 exactly for the empty filter, and 200 otherwise |
| Store.SelectNewest | db.go:184-189 | the result is the matching rows, newest first and without repeats, up to the limit. No matching row outside the result is newer than one in it |
| Store.Store.constructor | db.go:31-57 | a fresh cache file: both tables are created empty |
| Store.Store.UpsertProjects | db.go:79-102 | fails exactly when Begin, Prepare, an Exec or Commit fails. On success the table is the batch upserted; on failure it is rolled back and unchanged |
| Store.Store.UpsertMergeRequests | db.go:104-137 | the same transaction semantics, with each row taking the derived project path and the role |
| Store.Store.ClearMergeRequests | db.go:139-142 | the merge-request table is emptied unless the delete fails; the projects are untouched |
| Store.Store.QueryProjects | db.go:178-208 | no rows on a failed read. Otherwise: rows whose path or name matches `%q%`, newest activity first, up to the limit |
| Store.Store.QueryMergeRequests | db.go:210-241 | no rows on a failed read. Otherwise: rows whose title, project path or source branch matches, newest first, up to the limit |
| Store.Store.QueryMergeRequestsForProjects | query.go:90 | rows of the given project paths whose title, path, branch or decimal iid matches, newest first, up to the limit |
| Store.Store.ProjectWebURL | db.go:243-250 | the stored web URL of the project whose id the text names, else "" (on a bad id, a missing row or a failed read) |
| Store.Store.MergeRequestWebURL | db.go:252-259 | the stored web URL of the merge request whose id the text names, else "" |
| Store.ProjectWebURLRoundTrip | db.go:243-250 | looking up the decimal id of a stored project returns its web URL |
| Store.MergeRequestWebURLRoundTrip | db.go:252-259 | looking up the decimal id of a stored merge request returns its web URL |
| Query.CombinedStartIsLeastFound | query.go:27-37 | the combined start is the least non-negative word start when one exists; otherwise it is the last word's start, or -1 |
| Query.MultiWordFuzzyScore | query.go:19-51 | the loop computes exactly the multi-word match of the query against the target |
| Query.ScoreWord | query.go:31-46 | one iteration carries the total, the positions and the start from the first i words to the first i+1 |
| Query.TotalStep | query.go:33-45 | one iteration adds the word's score and its wrapped repeat bonus to the int32 total |
| Query.BonusSign | query.go:42-45 | the repeat bonus is never negative for a non-negative score, and it is positive exactly when the score is at least 2 and the int32 occurrence count exceeds 1 |
| Query.BonusOccursTwice | query.go:42-45 | for a non-empty word and a target under 2^31 characters, the bonus is positive exactly when the score is at least 2 and the lower-cased word occurs twice without overlap in the lower-cased target |
| Query.RawTotalAtLeastBase | query.go:31-46 | with non-negative word scores, the bonuses only raise the sum |
| Query.MultiWordShape | query.go:25-50 | the positions are the sorted union of every word's positions, and the start is found when any word's start is. Without overflow, the score is at least the sum of the word scores |
| Query.MultiWord | query.go:19-51 | the multi-word match: the scorer's own result for at most one word, else the int32 sum of scores and repeat bonuses, the sorted positions and the combined start (characterised by `MultiWordShape`, `SingleWordDelegates` and `CombinedStartIsLeastFound`) |
| Query.Bonus | query.go:39-45 | the repeat bonus: half the score toward zero for each case-insensitive occurrence after the first (characterised by `BonusSign`) |
| Query.SingleWordDelegates | query.go:20-23 | a query in which no blank separates two non-blank characters (at most one word) is passed to the scorer untouched |
| Query.ScoreProject | query.go:56-60 | the int32 value of the path score plus twice the name score, which is exact when it fits |
| Query.NameCountsTwice | query.go:53-59 | a name lead of `d` outranks any path deficit below `2d` |
| Query.BestIndex | query.go:76-87 | the first index holding the highest score: later ties do not replace it |
| Query.SelectBest | query.go:76-88 | the best project is the first-seen highest scorer when there is a filter, and otherwise the first row |
| Query.BestProjectScoresHighest | query.go:76-87 | with a filter, no candidate project scores higher than the chosen one |
| Query.WithHistory | query.go:167-173 | with history on, the usage score is added in int32, and the entry is marked exactly when that score is non-zero. Nothing else changes |
| Query.AddUsage | query.go:116-122 | the history step of one entry is that of `WithHistory` |
| Query.PickProjectFuzzy | query.go:149-164 | the fuzzy info is the name's (`text`) when the name scores at least as high as the path, and the path's (`subtext`) otherwise |
| Query.ProjectFuzzy | query.go:149-164 | the highlighted field of a project entry: the name's match when it scores at least the path's, else the path's |
| Query.ProjectEntry | query.go:133-175 | the flat entry of the k-th project: `project:<id>`, name, path, score 1000-k without a filter or the project score with one, then the history step (characterised by `FlatEntriesAreProjects` and `FlatScoresFollowRecency`) |
| Query.MergeRequestEntry | query.go:92-124 | the drill-down entry of a merge request, asked of the history with the whole query |
| Query.MakeProjectEntry | query.go:133-175 | the entry of the k-th project row |
| Query.BuildProjectEntries | query.go:130-178 | one entry per project row, in the read's order |
| Query.MakeMergeRequestEntry | query.go:92-124 | the drill-down entry of one merge request: `mr:<id>`, its title, `!iid · path · role`, the title's score only with a filter, then the history step |
| Query.BuildMergeRequestEntries | query.go:91-127 | one entry per merge-request row, in the read's order |
| Query.FlatScoresFollowRecency | query.go:143 | without a filter or history, the scores are 1000, 999, …, strictly falling with the read order |
| Query.FlatEntriesAreProjects | query.go:133-175 | each flat entry names its row's project id and its name. It has fuzzy info exactly when there is a filter, and is marked exactly when the history scores it |
| Query.FlatEntriesArePrefixed | query.go:134 | every flat identifier starts with `project:` |
| Query.SplitAtBang | query.go:67-69 | the project filter has no `!`, and filter + `!` + rest is the query |
| Query.SplitKeepsLaterBangs | query.go:67-69 | only the first `!` splits; later ones stay in the merge-request filter |
| Query.QueryFlat | query.go:130-178 | the flat entries of the project read, all with the project prefix |
| Query.QueryDrillDown | query.go:67-128 | nothing when the project read is empty. Otherwise: the entries of the best project's merge requests that match the text after `!` |
| Query.Query | query.go:62-179 | nothing without a database; the drill-down mode when the query has a `!`, and otherwise the flat mode |
| Sync.SyncAll | setup.go:79-123 | with no client, nothing happens. Otherwise: projects, clear, assigned, authored, then reviewing for a known user. Each write happens only when its list is non-empty, and a failure never stops the later steps |
| Sync.PlannedSteps | setup.go:87-120 | the writes of a cycle: each only for a non-empty list, the clear always, reviewing only for a known user (ordered as `StepOrder` proves) |
| Sync.ProjectsAfterSync | setup.go:87-92 | the projects after a cycle: the batch upserted unless empty or aborted (never fewer rows, by `ProjectsNeverDeleted`) |
| Sync.MergeRequestsAfterSync | setup.go:95-120 | the merge requests after a cycle: cleared unless the clear fails, then each listing applied in order (characterised by `SyncedMergeRequests`) |
| Sync.WriteBatch | setup.go:99-119 | a listing is written under its role only when it is non-empty. The table afterwards is the batch upserted, or unchanged when the write aborts; the projects are untouched |
| Sync.StepOrder | setup.go:87-120 | the clear comes after the project write and before every merge-request write. The roles follow the order assigned, authored, reviewing, and there is no reviewing step without a user id |
| Sync.ProjectsNeverDeleted | setup.go:87-92 | a cycle never removes a project, whatever fails |
| Sync.SyncedMergeRequests | setup.go:95-120 | without faults, the merge-request table holds exactly the union of the listings. An id in several listings carries the last listing's role |
| Activate.ResolveURL | activate.go:72-80 | a non-empty URL is the stored URL of the project or merge request the identifier names. Any other identifier gives "" |
| Activate.ResolveProjectIdentifier | activate.go:73-75 | a project entry's identifier resolves to that project's URL |
| Activate.ResolveMergeRequestIdentifier | activate.go:76-78 | a merge-request entry's identifier resolves to its URL |
| Activate.OpenCommandQuotesURL | activate.go:40 | the shell command always ends with the URL in single quotes |
| Activate.HistorySavedAfterLaunch | activate.go:21-70 | the history is saved exactly when it is enabled, the action is open or copy_url and the URL resolved. Every save follows a process start |
| Activate.Effects | activate.go:21-70 | the action table: delete removes the history entry, refresh starts a sync, open or copy_url of a resolved URL starts its process and then saves the history when enabled, and anything else does nothing (characterised by `HistorySavedAfterLaunch`) |
| Activate.Activate | activate.go:21-70 | the action table: delete, refresh, open, copy_url or unknown, with empty meaning open. Nothing is opened, copied or saved for an unresolvable identifier. History is saved exactly after a resolved open or copy, and always after the process start |

## Left out

- HTTP transport, headers, timeouts, status codes, body reading and JSON decoding are left out. Every failure is the single page outcome `Fail`, and `X-Next-Page` is the `hasNext` flag.
- Token loading, `newGitLabClient`, `getCurrentUser`, `Setup`, `openDB` (schema, pragmas, the unused `meta` table), `closeDB` and `config.go` are left out. The only parts kept are a client's presence and the user id they produce.
- Concurrency is left out: `go syncAll()`, the background refresh ticker and `go cmd.Wait()`.
- Processes are left out. `Activate` records the argv it starts. A failed `cmd.Start` is only logged, and the history is saved anyway, so one `ProcessStarted` effect stands for the attempt.
- The history's internals are left out. `Save`/`Remove` are effects, and `CalcUsageScore` is a parameter.
- Logging is left out (`slog`, timing of the sync).
- The launcher's fuzzy scorer is a parameter. Concrete rankings from the test fixtures depend on its internals and are not proved. The model proves the structural properties the rankings rest on.
- The constant presentation fields of entries are left out: icon, provider and item type.
- Case folding is ASCII only. This matches SQLite's `LIKE`; Go's `strings.ToLower` also folds non-ASCII letters, and the model does not.
- Strings are sequences of characters, not UTF-8 bytes. `lastIndex` scans bytes, but `!` is ASCII, so the derived path is the same.
- Timestamps are Unix seconds and ids are unbounded integers. The int64 range of the tables is not modelled, while int32 arithmetic in scoring is.
- SQLite's coercion of id text such as `+5` or ` 5` in `WHERE id = ?` is left out. Only plain decimal text (with an optional `-`) names a row, and other forms read as no row.
- Row scan errors in the reads are left out. The upserts only ever write columns of the declared types.
- Store.Store.QueryMergeRequestsForProjects: `queryMergeRequestsForProjects` is called at query.go:90, and its definition is not modelled. Its contract is inferred from that call and from query_test.go: rows of the given paths, matched on title, path, branch or decimal iid, with the same 50/200 limit.
- Sync.SyncAll takes the fetched listings as inputs. The fetches themselves are `GitLab.FetchProjects` and `GitLab.Fetch*`, and a reviewing listing that is given without a user id is ignored.
- GitLab.FetchProjects requires a non-negative cap. `max_projects` is a plain int in the configuration (config.go:17, default 1000, and setup.go:39 passes 1000), and nothing checks its sign. With a negative value the page loop never runs, `len(all) > maxProjects` holds, and `all[:maxProjects]` (gitlab.go:146-147) panics in the sync goroutine. The model does not represent that panic.
- Query.MultiWordShape: the lower bound on the score is stated only when the raw total fits in an int32. The source's sum wraps around, and then no bound holds.
- Query.NameCountsTwice: stated only for scores that fit in an int32, for the same reason.
- Store.Store.constructor: models a fresh cache file. `CREATE TABLE IF NOT EXISTS` keeps the rows of an existing cache across restarts; such a cache is any store satisfying `Valid`, and every other method takes exactly that as its precondition.
- Activate.Activate: takes a store that exists. The source has no `db == nil` guard on the open and copy_url paths, so when `openDB` failed an activation reaches `db.QueryRow` on a nil handle and panics; the model does not represent that panic. The same holds for Activate.ResolveURL.
- The fuzzy scorer's score and the history's usage score are int32 in Go and `int` here. The model takes them as the external code returns them and wraps only the arithmetic the handler does on them; on the single-word path the scorer's score passes through unchanged.
