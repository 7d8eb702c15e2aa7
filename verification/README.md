# A model of Ranger's web front end caches and install scripts

This project models the parts of Apache Ranger's admin web client and of its install scripts that
keep state, and proves what that state guarantees. `dafny verify dfyconfig.toml` checks the whole project.

| file | what it models |
|---|---|
| `FetchCache.dfy`, `WebStorage.dfy` | the fetch cache: expiry, clearing on writes, eviction when its localStorage mirror does not fit |
| `Interleaving.dfy` | the fetch cache when requests, responses and writes overlap |
| `Selection.dfy`, `GridView.dfy` | Picky's multiple selection and the Backgrid select cells: once as values with the theorems, once as objects that call each other |
| `Patches.dfy` | the schema-patch runner and its one history table for SQL, audit and Java patches |
| `Mysql.dfy` | the MySQL server as the scripts see it, calls that may fail, dry runs |
| `Provisioning.dfy`, `Privileges.dfy` | creating users, databases and grants; revoking and granting anew |
| `LocalStore.dfy` | the localStorage-backed model store |
| `Config.dfy` | ModConfig and the readers of the files it writes |
| `FormFields.dfy`, `Markup.dfy`, `Paging.dfy` | form fields from service definitions, newline and HTML escaping, the pager |
| `Text.dfy`, `Wrappers.dfy` | split, join, strip, decimal numerals, sorting; an optional value |

Code that changes objects is a class whose methods are proved to do what a function or relation on
values says; the theorems are about those. A late response in the browser is a call of its own, so what
every method keeps holds under any interleaving. A script's run is a list of steps on a server whose every
call may work, fail without effect, or take effect and still report failure.

## What the code does differently from what one might expect

- Eviction chooses a key twice. With an expiry missing, or once the first choice has become null, the
  comparator is inconsistent and the second choice may be any key, so a round deletes exactly one key but
  in every cache with two entries may cost two of them (`FetchCache.RoundLosesOneIff`).
- Overlapping calls can make fetch serve what the server no longer answers, in two ways: a response
  answered before the server carries out a write and arriving after it, and a fetch that runs between a
  write's clearing, which comes first, and the server's change (`Interleaving.StaleServed`,
  `Interleaving.StaleSchedules`; "stale" means served and wrong there). Without them it serves right
  (`Interleaving.SentServingIff`; for all schedules `Interleaving.KeepsServingIff`). The same two
  conditions decide whether every readable entry is right, including falsy ones, which are never served
  ("stale" in the sense of `Interleaving.KeepsCoherentIff`); that is more than right serving needs
  (`Interleaving.ServingAsksLess`).
- Models that were never saved share the id `undefined`, so two of them break the selection; so does an
  empty page, whose header is unchecked although it has no unchecked row (`Selection.AgreementIff`).
- `show databases like` reads `_` and `%` in a name as wildcards, so different database names are not
  enough for the dry run of the provisioning script to be right (`Provisioning.DryRunIff`).
- With an empty password a failed user creation goes unnoticed (`Mysql.EmptyPasswordSwallows`). For the
  main user the next grant still fails; for the audit user the run goes to the end without it, so reruns
  converge only if that user has a password, is the main user or is there already
  (`Provisioning.RerunsConvergeIff`).
- With one user for two databases the privilege reset can never finish: the revoke takes away the
  privilege under which the insert grant runs. The dry-run log, replayed by root, would still work
  (`Privileges.CanFinishIff`, `Privileges.DryResetIff`).
- `br2nl` undoes `nl2br` even for a br tag that is written across a line end (`Markup.NewlineRoundTrip`).
- A setting with spaces comes back from the config file in quotes (`Config.RoundTripIff`).
- ModConfig compares a setting only up to the second "=" of the line, so it cannot cut the value `a=b` down
  to `a`; and a later line for the variable overrides what it writes (`Config.TakesEffectIff`,
  `Config.LeftAlone`).
- A store whose name is another store's name followed by a dash and more shares items with it: creating in
  one damages the other (`LocalStore.KeepsOtherIff`).
- A list that is shorter than one page gets no pager (`Paging.PagerCompleteIff`).
- Updating a model without an id writes an item under "undefined" before it throws, and a write to the
  store that fails between a new item and the index leaves an item that no index lists
  (`LocalStore.StepRefinesIff`).

## Model

| member | source | states |
|---|---|---|
| FetchCache.RunCoherent | security-admin/src/main/webapp/libs/other/backbone.fetch-cache.js:148-311 | Cache coherence over whole sequential runs of fetches (answered by the cache or the server, or failing), writes, clearings and evictions: if a write changes the server only at the keys it touches, every readable entry equals what the server answers for its key, after every step. |
| FetchCache.StepCoherent | security-admin/src/main/webapp/libs/other/backbone.fetch-cache.js:91-121 | Each single action keeps the coherence, whatever the sort returns and whether the mirror is off, failing or full. |
| FetchCache.WriteCoherentIff | security-admin/src/main/webapp/libs/other/backbone.fetch-cache.js:218-247 | With no assumption on what a write changes on the server: it leaves a coherent cache, however the mirror evicts, if the server changes nothing that was cached before and is not touched; and, when the mirror is off or has room, only if. |
| FetchCache.WriteMayLeave | security-admin/src/main/webapp/libs/other/backbone.fetch-cache.js:224-244 | With room, everything the write does not touch may stay. |
| Interleaving.KeepsServingIff | security-admin/src/main/webapp/libs/other/backbone.fetch-cache.js:178-247 | Overlapping calls, mirror off or with room for every text: in every run of a schedule of requests, answers, responses, clearings and server changes, for every server, whatever fetch serves from the cache is what the server answers, exactly when each response that the schedule lets go stale was falsy by the schedule's own requests (a later request was sent although that answer, stored, had not expired). |
| Interleaving.SentServingIff | security-admin/src/main/webapp/libs/other/backbone.fetch-cache.js:178-247 | For schedules in which no request comes upon an unexpired response: exactly when no response answered before a change arrives after it, and none is stored between a write's clearing and its change and still stands then. |
| Interleaving.StaleServed | security-admin/src/main/webapp/libs/other/backbone.fetch-cache.js:184-197 | Otherwise such a schedule has a run from an empty cache, every request in it one that fetch sends, after which fetch serves one truthy answer while the server gives another. |
| Interleaving.CoherentServes | security-admin/src/main/webapp/libs/other/backbone.fetch-cache.js:178-197 | In every mode: a schedule that keeps every readable entry right keeps everything served right. |
| Interleaving.KeepsCoherentIff | security-admin/src/main/webapp/libs/other/backbone.fetch-cache.js:178-247 | The stricter notion, every readable entry, served or not, is what the server answers: for all schedules exactly under the two conditions on responses. Entries that fetch never serves count here. |
| Interleaving.ServingAsksLess | security-admin/src/main/webapp/libs/other/backbone.fetch-cache.js:178-208 | The two notions differ: a schedule that can leave a stale entry in the cache but never serves one. |
| Interleaving.StaleIff | security-admin/src/main/webapp/libs/other/backbone.fetch-cache.js:204-246 | At some time the cache's latest response for a key was answered before a change of it, exactly when a response is late or comes in between. |
| Interleaving.RightOrStale | security-admin/src/main/webapp/libs/other/backbone.fetch-cache.js:204-246 | In every run whose mirror does not refuse all writes, a readable entry is what the server answers, or the schedule itself names the response as stale and the entry is that answer. |
| Interleaving.LatestIsHeld | security-admin/src/main/webapp/libs/other/backbone.fetch-cache.js:109-114 | When nothing is evicted the cache holds exactly the latest response that the schedule stores and does not clear. |
| Interleaving.OrderedKeepsCoherent | security-admin/src/main/webapp/libs/other/backbone.fetch-cache.js:178-247 | The two conditions suffice for every readable entry in every mode, whatever the mirror evicts or refuses. |
| Interleaving.StaleRun | security-admin/src/main/webapp/libs/other/backbone.fetch-cache.js:204-246 | Where the schedule names a response as stale, there is a run from an empty cache with any one answer in the cache and any other on the server, as long as no request comes upon an answer it would have been served. |
| Interleaving.StaleSchedules | security-admin/src/main/webapp/libs/other/backbone.fetch-cache.js:204-246 | Two schedules that let fetch serve what the server no longer answers, for every key that a fetch stores: the response overtaken by a write, and the fetch that runs wholly between a write's clearing and the server's change. |
| FetchCache.WriteClears | security-admin/src/main/webapp/libs/other/backbone.fetch-cache.js:224-244 | After a write that is sent, no key it touches is left, and no key or entry is new. |
| FetchCache.PagesAreTouched | security-admin/src/main/webapp/libs/other/backbone.fetch-cache.js:235-240 | Every page fetched from a collection's own url is among the keys a write to one of its models touches. |
| FetchCache.TouchedIff | security-admin/src/main/webapp/libs/other/backbone.fetch-cache.js:228-240 | The keys a write clears: the model's, the collection's, and those with the collection's key and a question mark anywhere in them; no others. |
| FetchCache.ServedIff | security-admin/src/main/webapp/libs/other/backbone.fetch-cache.js:178-197 | A value is served without a network call exactly when caching is wanted and it is the last one stored under the key, not cleared or evicted since, and its expiry is never, or not past. The history may be any interleaving. |
| FetchCache.LookupIsLastStored | security-admin/src/main/webapp/libs/other/backbone.fetch-cache.js:109-120 | After any history of stores, clearings and evictions, what a key reads as is exactly the last value stored with nothing removing it since. |
| FetchCache.EvictionTerminatesIff | security-admin/src/main/webapp/libs/other/backbone.fetch-cache.js:123-135 | Eviction returns from every cache, for every possible sort result, exactly when the serialized empty cache fits the quota. |
| FetchCache.RoundEffect | security-admin/src/main/webapp/libs/other/backbone.fetch-cache.js:44-62 | Each eviction round removes exactly one key; the reader loses no entry but the two chosen ones; when all entries have a numeric expiry, one that expires first is among them; nothing else changes. |
| FetchCache.ConsistentIff | security-admin/src/main/webapp/libs/other/backbone.fetch-cache.js:44-50 | The comparator gives numbers on all pairs exactly when every entry is there and has a numeric expiry other than 0. |
| FetchCache.RoundLosesOneIff | security-admin/src/main/webapp/libs/other/backbone.fetch-cache.js:58-62 | A round costs the reader at most one entry, whatever the sort returns, exactly when the cache holds at most one. |
| FetchCache.LosesTwo | security-admin/src/main/webapp/libs/other/backbone.fetch-cache.js:58-62 | In every cache with two entries there is a round that costs two of them, though it deletes only one key. |
| FetchCache.EmptyRound | security-admin/src/main/webapp/libs/other/backbone.fetch-cache.js:58-62 | On the empty cache a round sets and deletes the key "undefined" and changes nothing. |
| FetchCache.FetchCache.constructor | security-admin/src/main/webapp/libs/other/backbone.fetch-cache.js:313-314 | Loading the script primes the cache from whatever the mirror holds, and what an earlier page left there counts as stored. |
| FetchCache.FetchCache.Prioritize | security-admin/src/main/webapp/libs/other/backbone.fetch-cache.js:52-56 | Some key of the cache; one with the earliest expiry when the comparator is consistent; none for an empty cache. |
| FetchCache.FetchCache.RemoveOne | security-admin/src/main/webapp/libs/other/backbone.fetch-cache.js:59-60 | One eviction round on the object, with the history that explains the cache. |
| FetchCache.FetchCache.DeleteCacheWithPriority | security-admin/src/main/webapp/libs/other/backbone.fetch-cache.js:58-62 | One round, then as many more as the quota asks for; it returns, nothing is stored, and the mirror is written. |
| FetchCache.FetchCache.SetLocalStorage | security-admin/src/main/webapp/libs/other/backbone.fetch-cache.js:123-135 | The recursion through eviction terminates; it evicts exactly until the cache fits; on return the persisted text decodes to the in-memory cache, no other item of localStorage changes, and an error is thrown exactly for a failure other than the quota's. |
| FetchCache.FetchCache.StoreEntry | security-admin/src/main/webapp/libs/other/backbone.fetch-cache.js:109-114 | The entry is stored under its key, with whatever the quota then evicts, and the mirror is written. |
| FetchCache.FetchCache.SetCache | security-admin/src/main/webapp/libs/other/backbone.fetch-cache.js:91-115 | Stores under the key with expiry now plus five minutes, the given seconds, or never, unless there is no key, caching is refused or nobody asked for it; then nothing changes at all. |
| FetchCache.StoredIs | security-admin/src/main/webapp/libs/other/backbone.fetch-cache.js:105-114 | What a store leaves when nothing is evicted: the value, to expire 300000 milliseconds from now by default or for 0 seconds, 1000 for each given second otherwise, or never for `expires: false`; every other key as before. |
| FetchCache.NotStored | security-admin/src/main/webapp/libs/other/backbone.fetch-cache.js:96-103 | Nothing is stored without a key, with `cache: false`, or with neither `cache` nor `prefill`. |
| FetchCache.ServedUntil | security-admin/src/main/webapp/libs/other/backbone.fetch-cache.js:178-184 | The stored value is served up to and including its expiry and not after; without one, always. |
| FetchCache.EvictsOnlyWhenFull | security-admin/src/main/webapp/libs/other/backbone.fetch-cache.js:123-131 | A cache that fits loses nothing, and what eviction leaves fits. |
| FetchCache.CacheKeyCases | security-admin/src/main/webapp/libs/other/backbone.fetch-cache.js:73-89 | The options' url goes before the instance's, an empty one counts as none, parameters follow a question mark, and without a url there is no key. |
| FetchCache.FetchCache.ClearItem | security-admin/src/main/webapp/libs/other/backbone.fetch-cache.js:117-121 | The key is gone from cache and mirror, with whatever the quota then evicts. |
| FetchCache.FetchCache.CollectKeys | security-admin/src/main/webapp/libs/other/backbone.fetch-cache.js:224-241 | The keys to clear are the model's first, the collection's, and all keys in the cache that contain the collection's followed by a question mark: none missed, none else. |
| FetchCache.FetchCache.Sync | security-admin/src/main/webapp/libs/other/backbone.fetch-cache.js:218-247 | A read leaves the cache alone; any other method clears all collected keys, and is sent exactly if no clearing throws. |
| FetchCache.FetchCache.Fetch | security-admin/src/main/webapp/libs/other/backbone.fetch-cache.js:178-197 | What is served comes from the last store under the key and is not expired; the network is asked exactly when nothing is served or a prefill is wanted. |
| FetchCache.FetchCache.GetLocalStorage | security-admin/src/main/webapp/libs/other/backbone.fetch-cache.js:137-141 | On a page load the cache comes back from the mirror exactly as it was, unless writing the mirror fails for a reason other than the quota. |
| WebStorage.LocalStorage.SetItem | security-admin/src/main/webapp/libs/other/backbone.fetch-cache.js:125-134 | A write either replaces the item or reports an error and changes nothing. |
| Selection.AgreementIff | security-admin/src/main/webapp/scripts/modules/XAOverrides.js:713-1112 | Four-way agreement (row checkbox, model flag, id in the collection, key in the header) and header checked iff all rows are, after every step of every run of row clicks, header clicks, clearings and refreshes, exactly on non-empty pages whose models have distinct keys. |
| Selection.GridRunAgrees | security-admin/src/main/webapp/scripts/modules/XAOverrides.js:824-896 | The direction from distinct keys to agreement, for every reachable state. |
| Selection.GridStepAgrees | security-admin/src/main/webapp/scripts/modules/XAOverrides.js:713-896 | A click on a row flips that row alone, a click on the header selects or deselects all, clearing deselects all, a refresh changes nothing; all keep the agreement. |
| Selection.SelectEffect | security-admin/src/main/webapp/scripts/modules/XAOverrides.js:713-771 | One `backgrid:select` sets one row in all four records, and checks the header exactly when all rows are checked or it was checked and stays so. |
| Selection.SelectListEffect | security-admin/src/main/webapp/scripts/modules/XAOverrides.js:879-885 | Triggering the event for any list of models sets exactly those rows; what the header shows afterwards. |
| Selection.RefreshEffect | security-admin/src/main/webapp/scripts/modules/XAOverrides.js:845-858 | The header restores every row that a refresh rendered unchecked. |
| Selection.AllOnIff | security-admin/src/main/webapp/scripts/modules/XAOverrides.js:833-835 | The number of remembered keys equals the number of models exactly when all rows are selected. |
| Selection.OneFlag | security-admin/src/main/webapp/scripts/modules/XAOverrides.js:1008-1029 | Under agreement a call on a model and a call on its collection do the same: one flag changes and the collection follows. |
| Selection.ToggleSelectAllMeaning | security-admin/src/main/webapp/scripts/modules/XAOverrides.js:1053-1059 | `toggleSelectAll` selects everything unless everything was selected, then nothing. |
| Selection.PickyRunAgrees | security-admin/src/main/webapp/scripts/modules/XAOverrides.js:998-1060 | After any sequence of the eight calls on collection and models, selected flags and the collection's ids agree and the length is right once computed. |
| Selection.PickyEffect | security-admin/src/main/webapp/scripts/modules/XAOverrides.js:1008-1111 | Which flags each of the eight calls leaves, in terms of the flags before: one set, cleared or flipped; all; none, with nothing left in the collection; all unless all were; and a right length after every change. |
| GridView.Model.Select | security-admin/src/main/webapp/scripts/modules/XAOverrides.js:1075-1086 | The mutual recursion of model and collection terminates and has the effect of the value-level call. |
| GridView.Model.Deselect | security-admin/src/main/webapp/scripts/modules/XAOverrides.js:1090-1101 | The same for deselecting. |
| GridView.Model.ToggleSelected | security-admin/src/main/webapp/scripts/modules/XAOverrides.js:1105-1111 | Selects or deselects, with the value-level effect. |
| GridView.Collection.Select | security-admin/src/main/webapp/scripts/modules/XAOverrides.js:1008-1016 | The collection files the model, the model calls back, the recursion ends, the length is recounted. |
| GridView.Collection.Deselect | security-admin/src/main/webapp/scripts/modules/XAOverrides.js:1021-1029 | The same for deselecting. |
| GridView.Collection.SelectAll | security-admin/src/main/webapp/scripts/modules/XAOverrides.js:1032-1037 | Every model selected in turn, then counted. |
| GridView.Collection.SelectNone | security-admin/src/main/webapp/scripts/modules/XAOverrides.js:1040-1048 | Nothing when the length is already 0, otherwise every model deselected in turn. |
| GridView.Collection.ToggleSelectAll | security-admin/src/main/webapp/scripts/modules/XAOverrides.js:1053-1059 | Its whole effect on models, ids and length. |
| GridView.HeaderCell.OnSelected | security-admin/src/main/webapp/scripts/modules/XAOverrides.js:826-836 | The header's record follows the event; it ends checked exactly when the record has the collection's size, or it was checked and the event selects. |
| GridView.Grid.RowOnChange | security-admin/src/main/webapp/scripts/modules/XAOverrides.js:762-771 | Checkbox to model to collection to header, as one effect on the four records. |
| GridView.Grid.TriggerSelect | security-admin/src/main/webapp/scripts/modules/XAOverrides.js:713-715 | Sets the checkbox and fires its change event. |
| GridView.Grid.ToggleRow | security-admin/src/main/webapp/scripts/modules/XAOverrides.js:762-771 | A click on a row is the step `ToggleRow`. |
| GridView.Grid.ToggleHeader | security-admin/src/main/webapp/scripts/modules/XAOverrides.js:879-896 | A click on the header is the step `ToggleHeader`. |
| GridView.Grid.GetSelectedModels | security-admin/src/main/webapp/scripts/modules/XAOverrides.js:907-928 | Exactly the models whose keys the header holds, and a gap exactly if one of them is not on the page any more. |
| GridView.Grid.DeselectThose | security-admin/src/main/webapp/scripts/modules/XAOverrides.js:937-940 | The loop deselects model after model up to the first gap. |
| GridView.Grid.ClearSelectedModels | security-admin/src/main/webapp/scripts/modules/XAOverrides.js:935-941 | Is the step `ClearSelected` on exactly those models; it throws exactly if one is missing, having deselected some of the others. |
| GridView.Grid.Refresh | security-admin/src/main/webapp/scripts/modules/XAOverrides.js:845-858 | Fresh unchecked rows, restored by the header: the step `Refresh`. |
| Patches.AllRunsSound | security-admin/scripts/db_setup.py:114-127 | Any number of SQL, audit and Java runs in any order, each dying at any step, from an empty history: no version is recorded twice, recorded keys form a prefix of their stream's order, and each patch was applied once for every application lost before its record, plus once if it is recorded. |
| Patches.AppliedAtMost | security-admin/scripts/db_setup.py:219-255 | A patch is applied at most once more than there are runs in the list that die between its application and its record. |
| Patches.ImportSound | security-admin/scripts/db_setup.py:219-255 | One check/apply/record keeps all of that, whatever call fails, and a run goes on only past a recorded patch. |
| Patches.NormalEndRecordsAll | security-admin/scripts/db_setup.py:114-127 | A run that ends normally has recorded every patch of its stream, each applied exactly once more than it was lost. |
| Patches.CleanRun | security-admin/scripts/db_setup.py:219-252 | A run in which nothing fails goes to the end and applies and records exactly the patches that are missing, in their order. |
| Patches.RecordedNeverReapplied | security-admin/scripts/db_setup.py:229-231 | A recorded version stays recorded and is never applied again, by any run over any keys. |
| Patches.NeverSkipsWronglyIff | security-admin/scripts/db_setup.py:219-299 | The three streams share one history table; no run ever skips a patch because of another stream's record, exactly when the streams' keys are disjoint. |
| Patches.GoodNamesGoodSetup | security-admin/scripts/db_setup.py:343-350 | Different version prefixes, none of them starting with J, give distinct and disjoint keys; Java keys are distinct because decimal numerals are. |
| Patches.FilesInOrder | security-admin/scripts/db_setup.py:119-125 | Files are taken in the order of their names up to the first dot, none lost and none twice. |
| Patches.NamesInOrder | security-admin/scripts/db_setup.py:122-122 | Of two names in the directory, the one whose part before the first dot has the smaller character where they first differ, or is a part of the other, is taken first. |
| Patches.PatchesInOrder | security-admin/scripts/db_setup.py:122-125 | So the versions, the parts of the file names before the first dash, are run in that order. |
| Patches.VersionsOf | security-admin/scripts/db_setup.py:220-222 | A file gives its version in its place, anything else in the directory nothing. |
| Text.SortStable | security-admin/scripts/db_setup.py:122-122 | Files with equal parts before the first dot keep the order of the directory. |
| Patches.JavaInOrder | security-admin/scripts/db_setup.py:334-350 | Java patches run in strictly increasing numeric order, one for each number among the files. |
| Patches.JavaKeyIs | security-admin/scripts/db_setup.py:350-356 | The history key of a Java patch is a J and the number's decimal numeral. |
| Patches.DbSetup.ImportPatch | security-admin/scripts/db_setup.py:219-255 | The new history and applied scripts, and whether the run goes on, for each point of failure. |
| Patches.DbSetup.ApplyPatches | security-admin/scripts/db_setup.py:114-127 | The loop over the sorted directory does exactly the patch sequence of its files, skipping entries that are not files. |
| Patches.DbSetup.ExecuteJavaPatches | security-admin/scripts/db_setup.py:324-388 | The loop that numbers the class files and the loop over the sorted numbers do exactly the Java patch sequence. |
| Mysql.PerformOutcome | security-admin/scripts/dba_script.py:159-204 | Whatever fails, a step has its whole effect or none; if the script goes on it has it, or a user without a password was not created; without failures it goes on exactly when the step is possible. |
| Mysql.RunOutcome | security-admin/scripts/dba_script.py:1387-1397 | A run without failing calls, or with passwords and any failures, stops after some number of whole steps and goes to the end only with all of them. |
| Mysql.CallsMade | security-admin/scripts/dba_script.py:188-296 | Which calls a step makes and what their failures do: a grant or a revoke goes on only if its flush works too, a creation or an insert grant is one call; a clean failure has no effect. |
| Mysql.EmptyPasswordSwallows | security-admin/scripts/dba_script.py:168-184 | With an empty password a failed user creation is not reported: the script goes on without the user. |
| Mysql.LoggedStep | security-admin/scripts/dba_script.py:164-249 | Replaying what the dry run logged for a step does what the real step does exactly when both decide alike. |
| Mysql.ReplayTo | security-admin/scripts/dba_script.py:1378-1386 | The log of a prefix replays to the state the real run has after that prefix. |
| Mysql.LikeItself | security-admin/scripts/dba_script.py:207-219 | A name read as a LIKE pattern matches itself, so a database just created is found. |
| Mysql.LikePlain | security-admin/scripts/dba_script.py:212-212 | A name without wildcards matches itself and nothing else. |
| Mysql.LikeGap | security-admin/scripts/dba_script.py:212-212 | Between such names `_` stands for exactly one character. |
| Mysql.LikeAround | security-admin/scripts/dba_script.py:212-212 | Between such names `%` stands for any text, also none. |
| Mysql.HasDatabaseIff | security-admin/scripts/dba_script.py:207-219 | A database with such a name is found exactly if it is there. |
| Provisioning.DryRunIff | security-admin/scripts/dba_script.py:1377-1397 | Replaying the dry-run log from the same start gives the server that a real run without failing calls leaves, exactly when the two users differ or exist, and the audit database's name does not match, as a LIKE pattern, the database about to be created (unless either is there already). |
| Provisioning.RealRunCompletes | security-admin/scripts/dba_script.py:1387-1397 | Without failing calls the real run goes to the end with every effect, whatever the passwords. |
| Provisioning.FinalMeaning | security-admin/scripts/dba_script.py:159-320 | A finished run leaves exactly the old accounts and both users on both hosts, the main user with all privileges on both databases on top of what it held, every other privilege as it was, and both databases found; one whose name has no wildcard is there. |
| Provisioning.FinalPasswords | security-admin/scripts/dba_script.py:188-193 | The new accounts have the passwords that were asked for; no other password changes. |
| Provisioning.SetupLog | security-admin/scripts/dba_script.py:159-320 | The dry-run log, line by line. |
| Provisioning.RerunsConvergeIff | security-admin/scripts/dba_script.py:159-320 | After any number of runs that failed anywhere, a run that goes to the end leaves exactly what one run without failures leaves: for all runs and failures exactly when the audit user has a password, is the main user, or was there from the start on both hosts. |
| Provisioning.RerunsConverge | security-admin/scripts/dba_script.py:159-320 | That direction of it that says reruns converge; the main user may have an empty password, since a swallowed creation makes the next grant fail. |
| Provisioning.SwallowedRun | security-admin/scripts/dba_script.py:168-184 | Otherwise a run in which only the creation of the audit user fails goes to the end without that user. |
| Provisioning.RunsBetween | security-admin/scripts/dba_script.py:159-320 | However many runs failed, and whatever the passwords, nothing of the start is gone and nothing is there that a finished run would not leave. |
| Provisioning.RunBetween | security-admin/scripts/dba_script.py:1387-1397 | One more run stays in between, and one that goes to the end has left nothing undone but users without a password. |
| Provisioning.Redoing | security-admin/scripts/dba_script.py:159-296 | Doing steps again after the first k is doing the longer stretch once. |
| Provisioning.RunsReach | security-admin/scripts/dba_script.py:1387-1397 | With non-empty passwords: however many runs failed, the server is where some prefix of one clean run would leave it. |
| Provisioning.CreateUserOnHost | security-admin/scripts/dba_script.py:162-204 | One turn of the loop, in either mode. |
| Provisioning.CreateRangerdbUser | security-admin/scripts/dba_script.py:159-204 | The loop over the hosts performs its steps, or in dry mode only logs them and leaves the server unchanged. |
| Provisioning.CreateDb | security-admin/scripts/dba_script.py:222-249 | The same for the database. |
| Provisioning.GrantOnHost | security-admin/scripts/dba_script.py:269-296 | One grant and flush, or one log line. |
| Provisioning.GrantXaDbUser | security-admin/scripts/dba_script.py:252-296 | The same for the grants. |
| Provisioning.CreateAuditdbUser | security-admin/scripts/dba_script.py:298-320 | The same for the audit user, database and grants. |
| Provisioning.Setup | security-admin/scripts/dba_script.py:1377-1397 | The whole script in either mode is the sequence of steps the theorems speak of; a failing step ends it. |
| Privileges.ResetConverges | security-admin/scripts/restrict_permissions.py:156-246 | From any privileges, after any number of runs that failed part way: every run leaves all other accounts, the databases and the tables as they were at the very start, and one that goes to the end leaves the audit user exactly INSERT on the audit table and the main user exactly ALL on both databases, on both hosts (one user in both roles: ALL on its database and INSERT on the table). |
| Privileges.ResetMeaning | security-admin/scripts/restrict_permissions.py:156-246 | The effect of all steps is that target, from any starting privileges. |
| Privileges.CanFinishIff | security-admin/scripts/restrict_permissions.py:216-246 | Some run goes to the end, whatever its calls do, exactly when the accounts and the audit table exist and the users differ or share one database. |
| Privileges.CleanRunFinishesIff | security-admin/scripts/restrict_permissions.py:216-246 | A run without failing calls goes to the end exactly then. |
| Privileges.FeasibleIff | security-admin/scripts/restrict_permissions.py:216-246 | Every step is possible at its turn exactly then. |
| Privileges.GrantorReady | security-admin/scripts/restrict_permissions.py:216-224 | At the insert grant, which runs under the main user's account, that user may grant exactly when the users differ or share one database. |
| Privileges.DryResetIff | security-admin/scripts/restrict_permissions.py:435-452 | Replaying the dry-run log gives the outcome of the real run exactly when the users differ, share one database, or an account or the audit table is missing. |
| Privileges.ReplayWorksIff | security-admin/scripts/restrict_permissions.py:180-182 | The log replays without a refused statement exactly when all its accounts exist, and the tables of its insert grants. |
| Privileges.ResetLog | security-admin/scripts/restrict_permissions.py:181-235 | The dry-run log, line by line. |
| Privileges.OnHost | security-admin/scripts/restrict_permissions.py:159-182 | One turn of a loop over the hosts, in either mode; a real insert grant is refused when the grantor holds nothing on the database. |
| Privileges.OnBothHosts | security-admin/scripts/restrict_permissions.py:156-235 | The three loops over the hosts perform their steps, or only log them. |
| Privileges.AuditdbOperation | security-admin/scripts/restrict_permissions.py:237-246 | Revoke and grant only when the users differ, then the insert grants. |
| Privileges.Reset | security-admin/scripts/restrict_permissions.py:435-452 | The whole script in either mode is the sequence of steps the theorems speak of. |
| LocalStore.RunRefines | security-admin/src/main/webapp/libs/bower/backbone.localstorage/backbone.localStorage.js:41-104 | After any sequence of create, update, destroy, clear and reload, on storage that may refuse texts, the store stands for the map the same calls build (a call whose item is refused does nothing): index without duplicates, in memory and in storage, and exactly the map's items. |
| LocalStore.StepRefinesIff | security-admin/src/main/webapp/libs/bower/backbone.localstorage/backbone.localStorage.js:53-130 | A call leaves a store that stands for any map at all exactly when its item is refused, or its id is usable and on create unused and a changed index is not refused; an update without an id, exactly when "undefined" is an id. |
| LocalStore.StepRefines | security-admin/src/main/webapp/libs/bower/backbone.localstorage/backbone.localStorage.js:53-130 | Such a call does to the store what it does to the map. |
| LocalStore.ReadsAgree | security-admin/src/main/webapp/libs/bower/backbone.localstorage/backbone.localStorage.js:79-92 | `find` is map lookup; `findAll` lists every value of the map once, in index order. |
| LocalStore.FindAllConcat | security-admin/src/main/webapp/libs/bower/backbone.localstorage/backbone.localStorage.js:84-92 | On any store `findAll` gives what the index lists, in its order, without gaps for missing items. |
| LocalStore.RejectConcat | security-admin/src/main/webapp/libs/bower/backbone.localstorage/backbone.localStorage.js:99-101 | What destroy leaves of the index keeps its order. |
| LocalStore.KeepsOtherIff | security-admin/src/main/webapp/libs/bower/backbone.localstorage/backbone.localStorage.js:41-130 | Two stores over one localStorage: every call on the one keeps what the other stands for, exactly when neither name is the other or the other followed by a dash and more. |
| LocalStore.OtherKept | security-admin/src/main/webapp/libs/bower/backbone.localstorage/backbone.localStorage.js:53-130 | With such names this holds for every call, on storage that may refuse texts too. |
| LocalStore.StepFrame | security-admin/src/main/webapp/libs/bower/backbone.localstorage/backbone.localStorage.js:53-130 | A call changes no item but the store's own: its index and the keys that begin with its name and a dash. |
| LocalStore.IndexRoundTrip | security-admin/src/main/webapp/libs/bower/backbone.localstorage/backbone.localStorage.js:46-55 | Reading the comma-joined index back gives the same index exactly when no id holds a comma and it is not one empty id. |
| LocalStore.CreateNeedsFreshId | security-admin/src/main/webapp/libs/bower/backbone.localstorage/backbone.localStorage.js:59-76 | Creating keeps the index free of duplicates exactly when the id is not indexed yet or its item is refused; updating always does. |
| LocalStore.Store.constructor | security-admin/src/main/webapp/libs/bower/backbone.localstorage/backbone.localStorage.js:41-48 | A new store object reads the persisted index. |
| LocalStore.Store.Save | security-admin/src/main/webapp/libs/bower/backbone.localstorage/backbone.localStorage.js:53-55 | The index item is written, or refused and nothing changes. |
| LocalStore.Store.Create | security-admin/src/main/webapp/libs/bower/backbone.localstorage/backbone.localStorage.js:59-68 | Gives a missing id the fresh guid, writes item and index, and returns what it stored; a refused write ends it where it is. |
| LocalStore.Store.Update | security-admin/src/main/webapp/libs/bower/backbone.localstorage/backbone.localStorage.js:71-76 | Writes the item, indexes a new id, rewrites the index, throwing at a refused write; without an id it throws after writing a stray item. |
| LocalStore.Store.FindById | security-admin/src/main/webapp/libs/bower/backbone.localstorage/backbone.localStorage.js:79-81 | The stored model, or nothing. |
| LocalStore.Store.FindEvery | security-admin/src/main/webapp/libs/bower/backbone.localstorage/backbone.localStorage.js:84-92 | All indexed models, absent ones left out. |
| LocalStore.Store.Destroy | security-admin/src/main/webapp/libs/bower/backbone.localstorage/backbone.localStorage.js:95-104 | Refuses exactly a model that was never saved; otherwise item and index entry go, and it throws exactly if the shorter index is refused. |
| LocalStore.Store.ClearAll | security-admin/src/main/webapp/libs/bower/backbone.localstorage/backbone.localStorage.js:116-130 | The index item and every item of the store go, nothing else. |
| LocalStore.Store.Sync | security-admin/src/main/webapp/libs/bower/backbone.localstorage/backbone.localStorage.js:142-203 | What each method changes and which callback gets what, errors included. |
| Config.RoundTripIff | security-admin/src/bin/ranger_install.py:371-387 | Writing a dictionary with plain keys and reading the text back returns it, in whatever order it is enumerated, exactly when every non-password value is free of spaces and trimmed and every password is what the keystore gives. Values may hold "=". |
| Config.WriteThenRead | security-admin/src/bin/ranger_install.py:223-239 | What the round trip returns for every dictionary with plain keys, quoted values included. |
| Config.WrittenLines | security-admin/src/bin/ranger_install.py:383-387 | The file that is written, line by line: nothing after the "=" for a key with PASSWORD anywhere in it, a value with a space in quotes, any other value as it is. |
| Config.HasPasswordIff | security-admin/src/bin/ranger_install.py:384-384 | The keys treated as passwords are those with PASSWORD anywhere in them. |
| Config.StrictReads | security-admin/src/bin/ranger_install.py:228-239 | The reader has for each key the stripped text after the first "=" of its last line, and for a key with PASSWORD in it what the keystore gives, whatever the line says. |
| Config.StrictFailsIff | security-admin/src/bin/ranger_install.py:229-231 | It raises exactly on a line that is not empty and has no "=". |
| Config.QuotedReadsBack | security-admin/src/bin/ranger_install.py:117-118 | A value survives quoting and stripping exactly when it has no space and is trimmed. |
| Config.SidesOfLine | security-admin/src/bin/ranger_install.py:231-239 | The reader's key and value are the stripped sides of the line's first "=", stripping the line first or not. |
| Config.ContentSplits | security-admin/src/bin/ranger_install.py:228-229 | Splitting a file's text at line ends reads as its lines do. |
| Config.IdempotentIff | unixauthservice/scripts/updatepolicymgrpassword.py:66-104 | Running ModConfig twice is running it once, for every file, exactly when the variable can be found again in the line written for it and neither it nor the setting holds a line end. |
| Config.EditFrame | unixauthservice/scripts/updatepolicymgrpassword.py:78-98 | Every line but the first one for the variable is kept in order; a missing variable is appended once. |
| Config.TakesEffectIff | unixauthservice/scripts/updatepolicymgrpassword.py:55-104 | After ModConfig the reader has an entry for the variable, which is the new setting exactly when no later line for it says otherwise and the line, if left alone, has no second "="; every other entry is as before. |
| Config.ReadAfterEdit | unixauthservice/scripts/updatepolicymgrpassword.py:55-104 | The reader's dictionary is the old one with the new setting, exactly then. |
| Config.UnambiguousTakesEffect | unixauthservice/scripts/updatepolicymgrpassword.py:79-90 | Every setting takes effect if the line ModConfig takes has a single "=" and is the last for the variable. |
| Config.LeftAlone | unixauthservice/scripts/updatepolicymgrpassword.py:82-88 | A line with a second "=" whose value up to there is the new setting is left alone, and the reader keeps the longer value. |
| Config.CutDown | unixauthservice/scripts/updatepolicymgrpassword.py:82-88 | Setting k to a in the line "k = a=b" changes nothing. |
| Config.File.ModConfig | security-admin/src/bin/ranger_install.py:109-148 | The loop with its two flags does exactly that edit. |
| Config.File.WriteConfigToFile | security-admin/src/bin/ranger_install.py:371-387 | Every entry in turn into an emptied file, passwords blanked. |
| Config.PlainReads | unixauthservice/scripts/updatepolicymgrpassword.py:58-64 | The plain reader has for each key the stripped text after the first "=" of its last line. |
| Config.IsForIff | unixauthservice/scripts/updatepolicymgrpassword.py:80-84 | The lines ModConfig takes for a variable: blanks at most between it and the first "=", and no comment. |
| Config.SettingIs | unixauthservice/scripts/updatepolicymgrpassword.py:82-87 | The setting it compares: up to the next "=" or the end, without blanks in front and white space behind. |
| Config.PopulateGlobalDict | unixauthservice/scripts/updatepolicymgrpassword.py:55-64 | Later lines win; lines without "=" are skipped. |
| Config.PopulateConfigDict | security-admin/src/bin/ranger_install.py:223-239 | The same, with passwords from the keystore, and an exception for a non-empty line without "=". |
| FormFields.NoConfigLost | security-admin/src/main/webapp/scripts/models/BackboneFormDataType.js:48-160 | With distinct names, none of them a shared field's, every non-null config gets a field under its own name or is listed, with all configs of its level, in the one field of the level. |
| FormFields.OneFieldForLevel | security-admin/src/main/webapp/scripts/models/BackboneFormDataType.js:79-91 | A level shared only by string configs with an exclude, recursive or lookup flag yields exactly one field, listing them all, and none of its own for any of them. |
| FormFields.BuildShows | security-admin/src/main/webapp/scripts/models/BackboneFormDataType.js:49-159 | Both hold after every turn of the loop. |
| FormFields.BuildFailsIff | security-admin/src/main/webapp/scripts/models/BackboneFormDataType.js:80-118 | Building fails exactly for an enum that is not defined, a boolean with a label but no colon, or a string config with a flag beside a null config. |
| FormFields.OwnFieldIff | security-admin/src/main/webapp/scripts/models/BackboneFormDataType.js:53-157 | A config has a field under its own name exactly unless it is a string config whose level has its shared field by then. |
| FormFields.SharedFromFirst | security-admin/src/main/webapp/scripts/models/BackboneFormDataType.js:57-91 | A level's shared field is made from its first string config with a flag. |
| FormFields.NamesAtIff | security-admin/src/main/webapp/scripts/models/BackboneFormDataType.js:80-82 | The names listed for a level are those of its configs and no others. |
| FormFields.NamesAtConcat | security-admin/src/main/webapp/scripts/models/BackboneFormDataType.js:80-82 | They are listed in the order of the configs. |
| FormFields.LevelNameIs | security-admin/src/main/webapp/scripts/models/BackboneFormDataType.js:85-85 | The shared field's name is `sameLevel` and the level's numeral. |
| FormFields.GetFormElements | security-admin/src/main/webapp/scripts/models/BackboneFormDataType.js:48-160 | The loop over the configs builds that form, or throws where the source does. |
| Markup.NewlineRoundTrip | security-admin/src/main/webapp/scripts/utils/XAUtils.js:260-277 | `br2nl(nl2br(s)) == s` exactly when s has no carriage return, no tab and no br tag inside one line; a tag written across a line end survives. |
| Markup.TagsBecomeNewlines | security-admin/src/main/webapp/scripts/utils/XAUtils.js:273-277 | Line ends never get fewer, and every br tag inside a line adds one. |
| Markup.LinedPrefix | security-admin/src/main/webapp/scripts/utils/XAUtils.js:263-263 | A stretch of the converted text without "<" lies in one line of the original, so an inserted tag never overlaps a match formed with neighbouring text. |
| Markup.BrTagIff | security-admin/src/main/webapp/scripts/utils/XAUtils.js:276-276 | The pattern matches exactly a br tag in any case, closed at once or by white space, a slash and the bracket. |
| Markup.Nl2BrEach | security-admin/src/main/webapp/scripts/utils/XAUtils.js:263-263 | nl2br works on each character by itself: line ends to tags, carriage returns and tabs to spaces. |
| Markup.Br2NlEach | security-admin/src/main/webapp/scripts/utils/XAUtils.js:276-276 | br2nl turns a tag at the head into a line end and otherwise copies a character. |
| Markup.EscapeHtmlChar | security-admin/src/main/webapp/scripts/utils/XAUtils.js:285-294 | The five successive replacements are the one-pass substitution of every character, and decoding recovers the input. |
| Markup.EscapeOneMore | security-admin/src/main/webapp/scripts/utils/XAUtils.js:288-292 | A later replacement never touches the entities that earlier ones wrote. |
| Markup.EntitiesAre | security-admin/src/main/webapp/scripts/utils/XAUtils.js:288-292 | What the one-pass substitution makes of the five characters, and of any other. |
| Markup.DecodeInverts | security-admin/src/main/webapp/scripts/utils/XAUtils.js:285-294 | Decoding the five entities in reverse order recovers every input. |
| Paging.Paginate | security-admin/src/main/webapp/templates/helpers/XAHelpers.js:164-186 | Exactly the ceiling of totalCount/pageSize offsets, in order, or none below one full page or for page size 0. |
| Paging.PagesPartition | security-admin/src/main/webapp/templates/helpers/XAHelpers.js:164-186 | The windows of the offered pages partition the records. |
| Paging.PagerCompleteIff | security-admin/src/main/webapp/templates/helpers/XAHelpers.js:170-173 | The pager offers exactly the records when there are none or at least one full page. |
| Paging.ParseStateInverts | security-admin/src/main/webapp/scripts/collections/XABaseCollection.js:64-100 | parseState maps each sent start index back to its page, and an offset to a page that starts there exactly when it is a multiple of the page size. |
| Paging.PageSizeIs | security-admin/src/main/webapp/scripts/collections/XABaseCollection.js:97-99 | The page size is the server's if it sends one other than 0, and the collection's otherwise. |

## Left out

- Fetch cache: deferreds, events and `parse`; the JSON and `$.param` encodings (taken to decode back, and as an opaque text); fractional lifetimes; a cache key named `length`, which would change how `_.each` walks the cache; the reset of the cache in Main.js; the test at start-up whether localStorage works.
- FetchCache.FetchCache.Prioritize: fixes one order where the sort is inconsistent; the theorems hold for every order that the relation `Prioritized` allows.
- Selection: `Picky.SingleSelect`, the events `select:all`, `select:some` and `select:none`, `fullCollection`, paging to another collection, models that are removed or belong to no collection, keyboard handling.
- GridView.Grid.GetSelectedModels: asks for distinct keys on the page, which a Backbone collection keeps.
- Patch runner: what a script that fails half-way has done to the schema; failures of one version at different runs of the same call are chosen per run and version; parsing of Java patch file names; a missing audit table, which ends the run before the patch is applied, is the fate `DiesBeforeApply`; a history query is taken to be answered truthfully.
- Oracle, Postgres and SQL Server flavours, and the KMS copies of the scripts.
- Provisioning and privileges: command strings, the operating-system branches, `check_connection`, ruler and date lines of the dry-run log; both databases are on one server; verification queries answer truthfully; LIKE is case-sensitive and has no escapes; `DBA_MODE` is TRUE and revoking is on, otherwise the scripts do nothing here.
- Provisioning.RunsReach: asks for passwords; `Provisioning.RunsBetween` says what holds without them.
- Privileges of MySQL are those that the scripts name and an opaque rest; `Mysql.MayGrant` asks for all privileges on the database from either host.
- Storage refuses a text or takes it, always alike; that a quota is shared by all items is not modelled.
- LocalStore.Store.ClearAll: does not model store names with characters that are special in a regular expression.
- Guids are a parameter; ids are their texts.
- Config: a file whose last line has no line end, Windows line ends, the keystore command (a function from keys to passwords), the log messages.
- FormFields.GetFormElements: field types, validators, titles, select options, lookups and default values; levels are compared as numbers in both places.
- Paging: totals and sizes that are not natural numbers, the markup of the items, sort order in `parseState`.
- Views, routers, controllers, permission tables, REST import and upgrade scripts, and the minified plugins.
