# Verified model of the secret manager's core

Dafny models of the parts of the repository whose correctness is not visible in
any one function, with proofs. `dafny verify dfyconfig.toml` checks everything.

| area | files |
|---|---|
| `${{ env.KEY }}` grammar and the reverse splice | `References.dfy` |
| secret resolver: inheritance, references, cycles, the memo that is rewritten in place | `Semantics.dfy`, `Resolver.dfy`, `SpliceSafety.dfy` |
| client-side template renderer and its agreement with the resolver | `Render.dfy`, `Strings.dfy` |
| webhook outbox, delivery worker, retry policy | `Outbox.dfy`, `Worker.dfy`, `Tick.dfy` |
| SDK secrets client: cache, single flight, reload | `SecretsClient.dfy` |
| line diff of the version viewer | `Diff.dfy` |
| `.env` parser and printers | `Dotenv.dfy`, `DotenvGrammar.dfy`, `DotenvRoundTrip.dfy`, `DashboardDotenv.dfy` |
| version history and transactional enqueue | `Lineage.dfy`, `Subscriptions.dfy` |

How the parts are modelled:

- **Resolver.** `Semantics` says what a configuration means without any evaluation
  order: the inherited view of an environment, the meaning of a text, and the defects
  (inheritance cycle, reference cycle, unknown environment, unknown key) that resolving
  one environment can meet. `Resolver` is the recursive descent over its mutable caches.
  Go leaves the order of map iteration open: a function `pick` stands for the runtime's
  choice of the next key, and every contract holds for every such function. Its
  termination measure is, lexicographically, the environments not yet cached, which of
  the two functions runs, and the environments or positions not yet visited.

  The source scans values again that were expanded before
  (`internal/secret/resolver.go:216-220`). A `Plan` says which values are scanned how
  often. For every configuration and order: resolution ends; when it succeeds, no
  reachable defect exists, the keys are the inherited ones, each with its nearest owner's
  row and a value that some plan gives for that row's text; when it fails, the error has
  the shape of a cycle or a missing name. Where splicing is safe (no value that is
  scanned a second time spells a reference: `SpliceSafe`) the values are the meanings, and
  every error is a reachable defect. `SpliceSafety` gives a condition on the raw rows that
  ensures this (in values that are inherited or referred to, a `$` outside a reference is
  followed, before the next reference or the end, by something other than `{{`, as in
  `pa$word`), says what reading a value again does to it when it does spell a reference,
  and exhibits an environment that the resolver resolves to two different snapshots under
  two orders.
- **Outbox and worker.** Each SQL statement is one function on the table. The repository
  class applies them to its field. The protocol interleaves the statements of any number
  of workers with crashes, a clock, new rows and deleted webhooks. Times are integers in
  nanoseconds and are cut to seconds where the source cuts them. The lease theorems hold
  for runs in which deliveries finish within `staleAfter` and either no row id is used
  twice or no webhook is deleted while one of its deliveries is in progress; the schema
  ensures neither of the latter (`internal/store/schema.sql` gives ids without
  AUTOINCREMENT), and one run for each hypothesis shows that it is needed.
- **SDK client.** The fields are those of the class, a promise is an identity, and the
  code after an `await` is a method of its own. The machine interleaves calls, server
  writes, server reads, responses, failures and cleanups.
- **Version history.** The handlers' transactions are methods. That a transaction writes
  all its tables or none is how transactions are modelled, a local value that commit
  copies to the fields, and not a result; the results are about what the transactions
  write. The machine interleaves whole transactions and puts a rollback's reads in a step
  of their own.
- **Classes.** Where a method only assigns fields (the Mark statements, the client's calls
  and continuations, `fail`, `deliverOne`, the reads of a rollback), its contract equates
  the new fields with a function of the old ones. Such methods have no row below: the
  rows name the lemmas that say what those functions mean together.
- **Text.** Strings are sequences of code points. Regular expressions are replaced by
  matchers for the three patterns used, and `LIKE` by its definition. Where code and
  specification share a function (a character class, an age test, a table of outcomes), a
  lemma states the function's meaning over literal alphabets and values, in the terms of
  the input alone.

Where code and comments disagree, the model follows the code:

- `internal/store/delivery_repo.go:119-122` says only the worker that holds a claim can
  finalise it. The guard checks the status alone: `LateMarkEndsAnotherClaim` and
  `ReusedIdEndsAnotherClaim` give, for every policy, runs in which a worker ends another
  worker's live claim; `MarkIsOwn` proves the sentence for the runs described above.
- `internal/server/handlers_secrets.go:248-251` says rollback refuses a deleted key. The
  check runs before the transaction: `DeleteBetweenIsUndone` shows, for every reachable
  state with a valid target, that a delete in between is undone.
- `internal/cli/dotenv/dotenv.go:211-213` says parse, emit, parse preserves values. A
  value that is printed bare and ends in white space other than the quoted kinds loses
  it (`VerticalTabIsLost`), and a long line is refused: `EmitParse` and `ParseEmitParse`
  give the exact condition.
- `sdk/src/secrets.ts:142-147` is silent about the list `preload()` returns: after
  `reload(key)` it may still predate the reload (`KeyedReloadLeavesOldPreload`);
  `PreloadAfterKeyedReload` says exactly when.

## Model

| member | source | states |
|---|---|---|
| References.FindReferences | internal/secret/reference.go:51-67 | The loop returns the leftmost, non-overlapping matches of the pattern in source order |
| References.MatchIsDerivation | internal/secret/reference.go:37 | Every reported site is a text of the grammar, with exactly the reported env and key |
| References.MatchIsGreedy | internal/secret/reference.go:37 | Of all readings of a site the match takes the longest env name, so the last usable dot separates env and key |
| References.NoMatchNoDerivation | internal/secret/reference.go:37 | Where the matcher finds nothing, no site of the grammar starts |
| References.MatchesExact | internal/secret/reference.go:27-37 | Sites are references, and a reference can start at an unreported position only inside a reported site |
| References.NameAlphabet | internal/secret/reference.go:37 | Names are made of the letters, the digits and `_.+-`, spelled out |
| References.SpaceAlphabet | internal/secret/reference.go:37 | White space inside the braces is blank, tab, line feed, carriage return or form feed |
| References.WrittenIsFound | internal/secret/reference.go:27-37 | A reference written over those alphabets, its key free of dots, is found whole with its env and key |
| References.FoundIsWritten | internal/secret/reference.go:37 | Every name found is a non-empty word over the name alphabet |
| References.SpliceStep | internal/secret/resolver.go:200-225 | One splice at site i of a text whose later sites are already replaced gives the simultaneous substitution from i on |
| References.SubstitutePrefix | internal/secret/resolver.go:200-201 | Replacing later sites leaves everything before them in place, so earlier offsets stay valid |
| References.CleanSubstitute | internal/secret/resolver.go:224 | Inert values put into the sites of a text whose literal parts are inert give a text in which no reference can start, whatever surrounds it |
| Semantics.OwnIsLast | internal/secret/resolver.go:152-163 | Of an environment's own rows the last one with a key counts |
| Semantics.ViewChild | internal/secret/resolver.go:130-163 | The view of a child is its parent's view overlaid by its own secrets, and exists exactly when the parent's does |
| Semantics.NearestOwner | internal/secret/resolver.go:130-163 | A visible secret is the one owned by the first environment up the inheritance chain that owns the key |
| Semantics.MeaningCompose | internal/secret/resolver.go:200-226 | The meaning of a text is the simultaneous substitution of its sites' meanings |
| Semantics.MeaningSites | internal/secret/resolver.go:202-226 | A text has a meaning only if all its sites have one |
| Semantics.PlanCompose | internal/secret/resolver.go:216-225 | One expansion of a text, or of a value some plan gives for it, gives a value of a plan |
| Semantics.PlanHasMeaning | internal/secret/resolver.go:200-226 | Whatever was scanned again on the way, a text that could be evaluated has a meaning |
| Semantics.PlannedIffMeaning | internal/secret/resolver.go:200-226 | A text has a value under some plan if and only if it has a meaning, and the meaning is one of the values |
| Semantics.OwnerReached | internal/secret/resolver.go:141-163 | The owner of a visible secret is among the environments resolution reads |
| Semantics.NoInheritanceLoop | internal/secret/resolver.go:115-122 | An environment on an inheritance cycle has no view |
| Semantics.NoReferenceLoop | internal/secret/resolver.go:190-197 | A key on a reference cycle has no meaning |
| Resolver.ResolveCtx.ResolveEnvName | internal/secret/resolver.go:231-244 | The memoised lookup gives what the table gives, and keeps the memo true |
| Resolver.ResolveCtx.Overlay | internal/secret/resolver.go:152-163 | Own secrets win over the copied parent entries; keys are the union |
| Resolver.ResolveCtx.SnapshotOf | internal/secret/resolver.go:111-179 | On every configuration and order: ends; returns the cached view; environments cached during the call are final (inherited keys, owners' rows, a planned value for each row's text, targets cached; the meaning where splicing is safe), others are untouched; a cached environment changes nothing; for an environment without a parent the keys are expanded in the picked order |
| Resolver.ResolveCtx.Merge | internal/secret/resolver.go:123-163 | The new map has the inherited keys with their owners' rows; own entries are raw, inherited ones raw or final |
| Resolver.ResolveCtx.ExpandAll | internal/secret/resolver.go:169-178 | For every order, afterwards every entry of the environment is final and no other cached environment changed; the order follows the picks, and when the cache suffices for it the outcome is the one it leads to |
| Resolver.ResolveCtx.ExpandKey | internal/secret/resolver.go:170-176 | One turn makes one entry final and changes no other entry of the environment; it succeeds when the cache suffices |
| Resolver.ResolveCtx.Expand | internal/secret/resolver.go:185-227 | The result is one expansion of the scanned value, hence a planned value of the row's text, and its meaning where splicing is safe; when the cache suffices and no position on the way comes up again, the call succeeds, changes nothing and the cache determines the result |
| Resolver.ResolveCtx.ExpandSite | internal/secret/resolver.go:203-223 | The text spliced for one site is a planned value of its target, the target's meaning where splicing is safe, and its environment is cached afterwards |
| Resolver.EnoughBelow | internal/secret/resolver.go:190-198 | When the cache suffices for a value, the cycle check cannot fire on it, and the cache suffices for each of its sites below it |
| Resolver.NoDefect | internal/secret/resolver.go:115-140 | After a successful resolution no defect is in reach, on every configuration: all inheritance cycles, reference cycles and missing names are detected |
| Resolver.Resolve | internal/secret/resolver.go:73-88 | On every configuration and order: ends; success excludes every reachable defect and gives exactly the inherited keys, each with its nearest owner's id, version and time and a planned value for the owner's text; failure names a cycle or a missing name; where splicing is safe the values are the owners' texts with all references replaced, and it fails exactly when a reachable defect exists, naming one |
| SpliceSafety.CleanIsSafe | internal/secret/resolver.go:216-220 | If in the values that resolution inherits or follows a reference to every `$` outside a reference is followed by something other than `{{`, splicing is safe |
| SpliceSafety.ReadAgain | internal/secret/resolver.go:216-220 | Reading an expanded value again gives it back if it spells no reference, and otherwise something else unless the result spells one too |
| SpliceSafety.ReadAgainFinds | internal/secret/resolver.go:212-215 | Reading it again succeeds only if everything it spells a reference to is there |
| SpliceSafety.SpelledMeansTwo | internal/secret/resolver.go:216-220 | A text whose meaning spells references that mean something plain has two different planned values |
| SpliceSafety.PlainMeansOne | internal/secret/resolver.go:216-220 | Where no visible value spells a reference, every plan gives the meaning |
| SpliceSafety.OrderMatters | internal/secret/resolver.go:165-177 | Two runs of Resolve on one environment under two orders of its keys both succeed and return different values for the same key |
| Strings.SortedKeys | internal/tmpl/render.go:81-85 | Collected map keys come out sorted, distinct and complete |
| Strings.LeqFirstDifference | internal/tmpl/render.go:85 | In the order of the sort the first difference decides |
| Strings.LeqPrefix | internal/tmpl/render.go:85 | In the order of the sort a proper prefix comes first |
| Render.Envs | internal/tmpl/render.go:72-87 | Sorted and distinct; exactly the env names of sites other than `self`, and the current env if some site says `self`; never `self` itself |
| Render.Outcome | internal/tmpl/render.go:106-120 | The first pass collects exactly the gaps: a `self` site whose key the current env's snapshot lacks, any other site whose env or key is absent; each once, in source order |
| Render.RenderTemplate | internal/tmpl/render.go:98-135 | Succeeds if and only if no site is a gap, and then puts the snapshot value of each site in, `self` read from the current env; otherwise reports exactly the gaps in source order; the current env `self` is refused |
| Render.Splice | internal/tmpl/render.go:124-134 | The reverse in-place loop equals simultaneous substitution by the snapshot values |
| Render.RenderedMeans | internal/tmpl/render.go:89-91 | Over resolved snapshots every site is replaced by what it means to the resolver, `self` meaning the current env; without `self` the whole is the template's meaning |
| Render.GapHasNoMeaning | internal/tmpl/render.go:106-123 | A site missing from its resolved snapshot has no meaning, so the resolver fails there too |
| Render.RenderCommand | cmd/cli/cmd_render.go:104-123 | Fetching each environment and rendering puts in each site's meaning, `self` included; a gap or failed fetch happens only where the resolver has no meaning or a defect |
| Render.FreshKeyAgrees | internal/tmpl/render.go:124-134 | Storing a text under a key not visible before leaves all other meanings alone, and the resolved snapshot holds the text's meaning under it |
| Render.RenderAndStore | cmd/cli/cmd_render.go:104-123 | Rendering a template and resolving an environment to which it was added under a key not visible before give the same text whenever both succeed |
| Outbox.DeliveryRepo.SelectDue | internal/store/delivery_repo.go:67-74 | The due rows with the smallest ids, in order, at most limit |
| Outbox.SelectionMeans | internal/store/delivery_repo.go:67-74 | The selection in terms of the columns: pending rows whose next_attempt_at has come, those with the smallest ids |
| Outbox.UnixIsWholeSeconds | internal/store/delivery_repo.go:65 | A moment lies within the whole second it is cut to |
| Outbox.DeliveryRepo.ClaimDue | internal/store/delivery_repo.go:64-117 | Undisturbed, claims exactly the selected rows and touches no other; the rows returned are the rows stored |
| Outbox.ClaimsExclude | internal/store/delivery_repo.go:93-106 | Of two claims of one row the second loses and changes nothing; a claim gone stale and reclaimed leaves the row as before it, a fresh one stays |
| Outbox.MarksExclude | internal/store/delivery_repo.go:119-160 | A Mark takes effect exactly on in-progress rows, on its own row only, and once: after it, or after the claim was reclaimed, no Mark of any kind changes anything |
| Outbox.ReclaimRecovers | internal/store/delivery_repo.go:162-182 | A reclaim changes exactly the stale rows, leaves none, keeps their attempts and due times, and repeated with the same cutoff finds nothing |
| Worker.DefaultBackoff | internal/webhook/worker.go:103-115 | Equals min(5 min, 10 s * 2^(attempt-1)); no intermediate value leaves 64 bits |
| Worker.BackoffTable | internal/webhook/worker.go:101-115 | 10 s, 20 s, 40 s, 80 s, 160 s, then five minutes from the sixth attempt on, in nanoseconds |
| Worker.StepTable | internal/store/delivery_repo.go:28-182 | Every step of any worker keeps: claimed_at set iff in progress, delivered_at set iff delivered, attempts equal to the Mark statements that took effect |
| Worker.RunTable | internal/store/delivery_repo.go:28-182 | The same in every state of every run with any number of workers |
| Worker.TerminalAbsorbs | internal/store/delivery_repo.go:119-182 | A delivered or dead row never changes while its webhook exists |
| Worker.RowsVanishWithWebhook | internal/store/webhook_repo.go:119-135 | A row vanishes only with its webhook and never changes its webhook, event or payload |
| Worker.ClaimHasOneWinner | internal/store/delivery_repo.go:93-115 | A row leaves pending for in progress only by one worker's compare-and-swap, which alone gains the claim |
| Worker.LiveNotStale | internal/webhook/worker.go:148 | Cutting both times to seconds never makes a live lease look stale |
| Worker.StepLease | internal/store/delivery_repo.go:167-182 | A step that finishes in time and reuses no id in a live worker's hands keeps each live claim in its worker's hands |
| Worker.RunUsed | internal/store/delivery_repo.go:28-53 | Every id in the table or in a worker's hands was given to a row earlier in the run |
| Worker.RunLease | internal/store/delivery_repo.go:162-182 | In runs whose deliveries finish within staleAfter, and which use no id twice or delete no webhook with a delivery in progress, every live claim stays in its worker's hands |
| Worker.OneLiveHolder | internal/store/delivery_repo.go:13-18 | In such runs a row has at most one live holder in every state, and the table shows that holder's claim |
| Worker.LiveNeverReclaimed | internal/store/delivery_repo.go:162-182 | In such runs no sweep takes a live claim away |
| Worker.MarkIsOwn | internal/store/delivery_repo.go:119-122 | In such runs every Mark finalises the caller's own claim, and takes effect unless the row is gone |
| Worker.LateMarkEndsAnotherClaim | internal/store/delivery_repo.go:119-133 | For every policy: a run that reuses no id and deletes nothing, in which a worker one nanosecond over staleAfter ends another worker's live claim |
| Worker.ReusedIdEndsAnotherClaim | internal/store/webhook_repo.go:119-135 | For every policy: a run in which all deliveries finish in time, a webhook is deleted while its delivery is held, the id comes back, and the first worker's Mark ends the second one's live claim |
| Worker.StepSingle | cmd/server/main.go:162-172 | With one worker every step, crash included, keeps the attempt bounds and the due times of selected rows |
| Worker.AttemptsBounded | internal/webhook/worker.go:306-321 | With one worker a row in play has attempts below maxAttempts, a terminal one between 1 and maxAttempts, and a row with maxAttempts marks is terminal |
| Worker.NeverClaimedEarly | internal/store/delivery_repo.go:67-75 | With one worker no row is claimed before its next_attempt_at |
| Worker.RetryIsDelayed | internal/webhook/worker.go:317-318 | A failed attempt that is not the last is due again exactly the backoff later, at least 10 s |
| Worker.TwoWorkersExceed | internal/store/delivery_repo.go:93-99 | For every policy with at least two attempts: a two-worker run that claims a row before it is due and leaves it pending with all attempts used |
| Tick.DeliveryWorker.Sweep | internal/webhook/worker.go:145-166 | An undisturbed sweep leaves each claimed row as its own attempt demands: delivered exactly on a 2xx answer, dead exactly when the key cannot be opened or no attempt is left, otherwise pending until the backoff is over, with the answer's status and the reason stored; all other rows stay as the reclaim left them |
| Tick.FinishedMeans | internal/webhook/worker.go:240-321 | The same for one finished attempt, in terms of how it ended, with the stored reason, status and times |
| Tick.DecimalReads | internal/webhook/worker.go:300 | The status in the stored reason is the decimal spelling of the answer's status |
| Tick.SettledRow | internal/webhook/worker.go:237-321 | A settled row used one more attempt and is delivered iff the attempt succeeded, dead iff out of attempts or unsealable, otherwise due again later |
| Tick.FinishIsLocal | internal/webhook/worker.go:237-321 | Finishing a claim rewrites its own row and no other |
| SecretsClient.SecretsClient.Has | sdk/src/secrets.ts:137-140 | True exactly when an entry is cached, the ttl is positive and less than ttl has passed since it was written; changes nothing |
| SecretsClient.SecretsClient.FetchAllResumed | sdk/src/secrets.ts:192-199 | The same for all keys of a response, in any order |
| SecretsClient.HitIff | sdk/src/secrets.ts:86-90 | A get is answered from the cache exactly when the entry is younger than a positive ttl |
| SecretsClient.HitsAreYoung | sdk/src/secrets.ts:205-208 | In every run a hit hands out what a response wrote less than ttl earlier; without a positive ttl every get waits |
| SecretsClient.EntryHasResponse | sdk/src/secrets.ts:181-199 | Every cache entry was written by a response, with that response's time |
| SecretsClient.CachedUnlessReloaded | sdk/src/secrets.ts:181-190 | A response is cached, with its time, exactly when nothing was reloaded since its fetch started, and otherwise changes nothing |
| SecretsClient.AllCachedUnlessReloaded | sdk/src/secrets.ts:192-199 | The same for every key of a whole-environment response |
| SecretsClient.CachedUntilReload | sdk/src/secrets.ts:148-158 | An entry stays, perhaps renewed, until its key is reloaded |
| SecretsClient.ReloadIsLocal | sdk/src/secrets.ts:148-158 | Reloading one key leaves every other key's reads and the next preload as they were; reloading all leaves nothing to read |
| SecretsClient.StepInv | sdk/src/secrets.ts:63-67 | Every call and continuation keeps the invariant relating generation, slots, flights and cache entries |
| SecretsClient.RunInv | sdk/src/secrets.ts:63-67 | The invariant holds in every state of every interleaving |
| SecretsClient.ReloadBarrierCache | sdk/src/secrets.ts:142-158 | After reload(key) or reload(), every later entry for key comes from a fetch started since and holds a value the server held since |
| SecretsClient.ReloadBarrierGet | sdk/src/secrets.ts:86-108 | What a later get(key) returns, at once or through a flight, comes from a fetch started since the reload |
| SecretsClient.ReloadBarrierPreload | sdk/src/secrets.ts:123-134 | What preload() returns after reload() is the server's content at some moment since |
| SecretsClient.PreloadAfterKeyedReload | sdk/src/secrets.ts:148-158 | After reload(key), any later preload() hands out a fetch started since, if and only if the whole-environment fetch registered at the reload, if any, no longer is |
| SecretsClient.KeyedReloadLeavesOldPreload | sdk/src/secrets.ts:148-158 | A run in which preload() after reload(key) answers with the value from before |
| SecretsClient.AtMostOneFlight | sdk/src/secrets.ts:91-107 | Two unfinished fetches of one key are always separated by a reload of it |
| SecretsClient.CallsShareFlight | sdk/src/secrets.ts:91-107 | Overlapping get(key) calls with no reload between share one fetch and start no other |
| SecretsClient.FailureLeavesNoTrace | sdk/src/secrets.ts:97-104 | A failed fetch writes nothing; its cleanup removes its own registration and no other |
| Diff.JoinLines | dashboard/src/lib/diff.ts:22-23 | Splitting into lines loses nothing |
| Diff.SplitCount | dashboard/src/lib/diff.ts:22-23 | A text has one line more than it has line breaks |
| Diff.ScriptTexts | dashboard/src/lib/diff.ts:40-63 | The left and right texts of an edit script are the two inputs |
| Diff.ScriptCounts | dashboard/src/lib/diff.ts:40-63 | In an edit script each line's number is one more than the number of lines shown before it on its side |
| Diff.ScriptReconstructs | dashboard/src/lib/diff.ts:40-63 | A list of ops is an edit script if and only if equal and removed lines spell the left text, equal and added ones the right, numbered 1.. in order |
| Diff.LcsIsBound | dashboard/src/lib/diff.ts:28-38 | No common subsequence is longer than the table's recurrence says |
| Diff.LcsAttained | dashboard/src/lib/diff.ts:28-38 | Some common subsequence is as long as the recurrence says |
| Diff.LcsSlope | dashboard/src/lib/diff.ts:28-38 | Neighbouring cells differ by at most one |
| Diff.ScriptLowerBound | dashboard/src/lib/diff.ts:40-61 | No edit script has fewer than n + m - LCS ops |
| Diff.FillTable | dashboard/src/lib/diff.ts:28-38 | Every cell holds the length of a longest common subsequence of its two prefixes: one of that length exists and none is longer |
| Diff.Backtrack | dashboard/src/lib/diff.ts:40-61 | The walk ends and yields an edit script that keeps LCS many lines, removed before added |
| Diff.DiffLines | dashboard/src/lib/diff.ts:21-64 | Shows both texts in full, line by line and numbered from 1, with no line for an empty text (so all ops are added or all removed); keeps as many lines as a longest common subsequence, and no edit script is shorter |
| Dotenv.CheckKey | internal/cli/dotenv/dotenv.go:172-191 | Accepts exactly `[A-Za-z_][A-Za-z0-9_]*` |
| Dotenv.ParseDoubleQuoted | internal/cli/dotenv/dotenv.go:113-149 | The index loop resolves the escapes up to the closing quote, and fails exactly when there is none |
| Dotenv.Parse | internal/cli/dotenv/dotenv.go:38-70 | The line loop equals the parser on the list of lines; what that parser makes of a text is stated in DotenvGrammar |
| DotenvGrammar.LineByLine | internal/cli/dotenv/dotenv.go:44-69 | A file is read line by line: the first error ends it, entries come in order, and the line numbers count on |
| DotenvGrammar.BlankOrComment | internal/cli/dotenv/dotenv.go:56-59 | A blank line or one whose first character is `#` holds no entry |
| DotenvGrammar.SkippedLineCounts | internal/cli/dotenv/dotenv.go:46-59 | Such a line only moves the line numbers of the rest on |
| DotenvGrammar.LineTooLongIff | internal/cli/dotenv/dotenv.go:39-43 | A line is refused for its length exactly from 65536 bytes on |
| DotenvGrammar.MissingEqualsIff | internal/cli/dotenv/dotenv.go:76-84 | The exact condition for a missing `=`: none after an optional `export `, or nothing before it |
| DotenvGrammar.InvalidKeyIff | internal/cli/dotenv/dotenv.go:85-88 | The exact condition for an invalid key: it is not a word over letters, digits and `_` that starts with no digit |
| DotenvGrammar.UnterminatedIff | internal/cli/dotenv/dotenv.go:113-156 | The exact condition for an open quote: no double quote free of a backslash follows, or no single quote |
| DotenvGrammar.EveryLine | internal/cli/dotenv/dotenv.go:73-79 | Every line has white space, text and body in the sense of these conditions |
| DotenvGrammar.EverySplit | internal/cli/dotenv/dotenv.go:81-89 | Every body with an `=` after its first character has a key and a value in their sense |
| DotenvGrammar.BareAlone | internal/cli/dotenv/dotenv.go:160-167 | `k=v`, with or without `export `, is one entry with value v |
| DotenvGrammar.BareWithComment | internal/cli/dotenv/dotenv.go:160-167 | `k=v # comment` is one entry with value v, without the blanks before the `#` |
| DotenvGrammar.SingleQuotedLine | internal/cli/dotenv/dotenv.go:151-158 | `k='v'` and any text is one entry with exactly v |
| DotenvGrammar.DoubleQuotedLine | internal/cli/dotenv/dotenv.go:113-149 | `k="..."` and any text is one entry with the five escapes resolved and any other kept with its backslash |
| DotenvGrammar.BareValue | internal/cli/dotenv/dotenv.go:160-167 | A bare value ends before the first `#`, without the blanks in front of it |
| DotenvGrammar.MarkIsSkipped | internal/cli/dotenv/dotenv.go:53-55 | A byte order mark at the start of a file is not there |
| DotenvGrammar.MarkIsTextLater | internal/cli/dotenv/dotenv.go:53-55 | On a later line it spoils the key |
| Dotenv.NeedsQuoting | internal/cli/dotenv/dotenv.go:243-251 | True exactly when a special character occurs |
| Dotenv.FormatValue | internal/cli/dotenv/dotenv.go:214-241 | The builder loop quotes by escaping each character |
| Dotenv.Emit | internal/cli/dotenv/dotenv.go:197-209 | One line a key, in sorted key order |
| DotenvGrammar.PrintedValue | internal/cli/dotenv/dotenv.go:214-251 | A value is printed bare exactly when it holds none of blank, tab, line break, quotes, `#`, backslash and `$`; otherwise quoted, each character by the table of escapes |
| DotenvGrammar.PrintedLines | internal/cli/dotenv/dotenv.go:203-207 | One line a key, key, `=`, value and line break |
| DotenvRoundTrip.UnquoteEscape | internal/cli/dotenv/dotenv.go:211-213 | Any escape the parser undoes character by character is undone on whole values and keeps them on one line |
| DotenvRoundTrip.LineParse | internal/cli/dotenv/dotenv.go:73-95 | A printed line parses to its key and whatever its trimmed value parses to; no printed key is mistaken for an export prefix |
| DotenvRoundTrip.BareParse | internal/cli/dotenv/dotenv.go:160-167 | A bare value comes back without exactly its trailing Unicode white space |
| DotenvRoundTrip.ParseOfText | internal/cli/dotenv/dotenv.go:38-70 | A printed file parses if and only if all lines fit the scanner, to one entry a line numbered 1..n |
| DotenvRoundTrip.EmitParse | internal/cli/dotenv/dotenv.go:193-213 | Parse(Emit(m)) is m's entries in key order if and only if the lines fit and no unquoted value ends in white space |
| DotenvRoundTrip.ParseEmitParse | internal/cli/dotenv/dotenv.go:211-213 | Parsing, emitting and parsing again keeps the last-wins map if and only if the same condition holds of it |
| DotenvRoundTrip.VerticalTabIsLost | internal/cli/dotenv/dotenv.go:211-213 | A file whose quoted value ends in a vertical tab is read, emitted bare, and read back without the tab |
| DashboardDotenv.PassesAreOne | dashboard/src/lib/dotenv.ts:33-37 | The chain of replace passes equals one pass that escapes each character |
| DashboardDotenv.PrintedValue | dashboard/src/lib/dotenv.ts:16-41 | A value is printed bare exactly when it holds no white space and none of quotes, `#`, `=` and backslash; otherwise quoted, each character by the table of escapes |
| DashboardDotenv.PrintedLines | dashboard/src/lib/dotenv.ts:23-28 | One line a key, in the given order |
| DashboardDotenv.SurvivesUnlessNextLine | dashboard/src/lib/dotenv.ts:16 | A value fails to come back exactly when it is bare and ends in U+0085 |
| DashboardDotenv.DashboardParse | dashboard/src/lib/dotenv.ts:23-41 | The command line parser reads the dashboard's text as the same entries if and only if the lines fit and no bare value ends in U+0085 |
| DashboardDotenv.NextLineIsLost | dashboard/src/lib/dotenv.ts:30-41 | A value ending in U+0085 is printed bare and read back without it |
| Subscriptions.NormalizeWebhookEvents | internal/server/handlers_webhooks.go:396-415 | Joins the distinct trimmed names in order of first occurrence; no names means all events; an unknown name is refused |
| Subscriptions.NormalizedExact | internal/server/handlers_webhooks.go:394-415 | Succeeds if and only if all names are known; keeps exactly the requested names, once each |
| Subscriptions.EventsByName | internal/server/handlers_webhooks.go:396-408 | The three known events by name; an empty request means all three, in their order |
| Subscriptions.NamesInOrder | internal/server/handlers_webhooks.go:402-413 | Names are kept in the order in which they first occur |
| Subscriptions.LikeIgnoresCase | internal/store/webhook_repo.go:176 | LIKE ignores the case of the 26 letters, and `_` matches any character |
| Subscriptions.LikeOccurs | internal/store/webhook_repo.go:176-178 | LIKE with a literal between two wildcards is occurrence |
| Subscriptions.OccursInList | internal/store/webhook_repo.go:166-168 | A comma-wrapped name occurs in the wrapped list if and only if it is a member |
| Subscriptions.MatchIsMembership | internal/store/webhook_repo.go:166-168 | For names without comma, wildcard or upper case the LIKE clause holds exactly for members of the stored list |
| Lineage.Server.EnqueueWebhooks | internal/server/handlers_webhooks.go:421-440 | Inserts one row for each matching webhook, or fails at the struck insert |
| Lineage.Server.PutSecret | internal/server/handlers_secrets.go:178-226 | Writes what the transaction function says, and nothing when a fault strikes at any statement |
| Lineage.Server.RollbackWrite | internal/server/handlers_secrets.go:316-363 | Writes the content read earlier, and nothing when a fault strikes |
| Lineage.Server.DeleteSecret | internal/server/handlers_secrets.go:391-428 | Refuses exactly when no live row matches, and writes nothing then or when a fault strikes |
| Lineage.RollbackAccepts | internal/server/handlers_secrets.go:270-298 | In a consistent database a rollback accepts exactly the earlier versions of a live key; each refusal has its exact condition |
| Lineage.CreatedIsNew | internal/store/secret_repo.go:71-74 | The insert signature shows exactly for a key that had no row, deleted ones included |
| Lineage.WriteAppends | internal/store/secret_repo.go:39-76 | From a consistent history a write never conflicts and appends exactly the next version |
| Lineage.WroteHistory | internal/store/version_repo.go:22-46 | Appending keeps every secret's history exact |
| Lineage.WriteRecords | internal/server/handlers_secrets.go:186-207 | A committed write adds one audit entry, sets the times of its row, and touches no other row |
| Lineage.DeleteRecords | internal/store/secret_repo.go:205-224 | A delete needs a live row, marks it with its time, adds one audit entry and touches no history |
| Lineage.ChangesAreAudited | internal/server/handlers_secrets.go:203-207 | Every committed put, rollback or delete adds the audit entry that names it; nothing else adds one |
| Lineage.StepInv | internal/server/handlers_secrets.go:146-430 | Every transaction and read keeps the invariant |
| Lineage.HistoryAlways | internal/store/secret_repo.go:198-204 | In every reachable state each history is exactly versions 1..current and its last row holds the current content, deleted or not |
| Lineage.HistoryAppendOnly | internal/store/version_repo.go:16-46 | History rows never change or vanish, and a slot keeps its id and never goes back a version |
| Lineage.RollbackAppends | internal/server/handlers_secrets.go:275-363 | Rollback appends current + 1 with the content its target had when read, whatever was written in between |
| Lineage.DeleteBetweenIsUndone | internal/server/handlers_secrets.go:248-251 | A delete between a rollback's reads and its transaction is undone |
| Lineage.DeletedSinceRead | internal/server/handlers_secrets.go:277-285 | A key found deleted at the write was deleted since the read |
| Lineage.EnqueuedOneEach | internal/server/handlers_webhooks.go:434-438 | The insert loop adds exactly one new row for each hook, in the hooks' order, and keeps all others |
| Lineage.MatchIsConcern | internal/store/webhook_repo.go:169-197 | The WHERE clause selects exactly the enabled webhooks of the project and env scope whose names contain the event |
| Lineage.ConcernedAreMatched | internal/store/webhook_repo.go:169-197 | The ids the query returns are exactly those of the webhooks the change concerns |
| Lineage.CommittedChangeNotifies | internal/server/handlers_secrets.go:208-226 | Every committed put, rollback or delete adds exactly one pending delivery for each webhook it concerns and no other row, and a delete of no live key changes nothing |

## Left out

- Resolver.Resolve: that values are meanings and errors reachable defects is proved where splicing is safe. Elsewhere the result depends on the order of map iteration (`OrderMatters`), so what is proved there is that each value is one some plan gives.
- Resolver.ResolveCtx.SnapshotOf: decryption and database errors end the call and are not results of the model; error chains carry ids and positions instead of printed names.
- Resolver.ResolveCtx.ExpandAll: the Go loop writes into a map the cache shares; the model writes into the cache at once, so the two names of that map are one.
- Render.RenderAndStore: storing the text may itself be what makes splicing unsafe; the agreement is then not promised.
- The delivery worker: a driver error in a Mark statement is the same as a lost worker step (`Lose`, `Crash`); the log lines are left out.
- Worker.OneLiveHolder: runs that delete a webhook with a delivery in progress and give that delivery's id to a new row are excluded; `ReusedIdEndsAnotherClaim` shows what happens in them.
- Worker.AttemptsBounded: proved for the single worker the server starts; `TwoWorkersExceed` shows why not for more.
- Tick.DeliveryWorker.DeliverOne: signing, DNS policy and HTTP are a parameter that says how the attempt ended; the per-sweep memo of webhook rows and keys is left out.
- The SDK client: abort signals only end the caller's wait, and the refresh timer only calls preload(); neither is modelled. getAll builds a record from preload's list.
- DashboardDotenv.FormatDotenv: the order that localeCompare gives is a parameter; lone surrogates do not exist in the model.
- The dotenv parser: works on valid UTF-8. Bytes that are not are outside the model.
- The version history: a transaction reads the clock once where the source reads it per statement; deletion of projects and environments, which removes secrets with their history, is left out.
- Subscriptions.NormalizeWebhookEvents: URL validation and the sealing of webhook keys around it are left out.
- AES-GCM, hashing, HMAC and random tokens, the SQL driver, migrations, file and process handling, HTTP transport and DNS policy, authentication, sessions, audit paging, the command line's wiring and the dashboard's components: foreign calls, plumbing, or only short branch chains.
