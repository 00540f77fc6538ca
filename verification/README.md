# Verified model of the account persistence layer and the audit gate

This project models, in Dafny 4.11, the parts of the repository whose
behaviour is not visible from any one function body, and proves what they do
for every input, every plan, every hook stack or every run.

**Eager loading** (`backend/ent/account_query.go`,
`backend/ent/accountgroup_query.go`, `backend/ent/account.go`). A query builder
is an object whose nested builders form a tree; running it scans rows into
fresh nodes and mutates their edges with index-and-scatter loops. The loaders
are methods on a heap of `Account`, `Proxy`, `Group` and `AccountGroup`
objects. What they build is specified by a function (`PageJoin`), and that
function is proved equal to a naive nested loop that runs one query per row.
The recursion is over the builder tree, so cyclic and self-referencing parent
links need no assumption. A load fails with exactly the first error the source
would meet: a selected field that is not a column, of accounts or of proxies, or
an interceptor that is missing or refuses. The builder tree after a run is stated
too, and running it again is proved to give the same page. The many-to-many loader walks Go maps in an order
the model leaves open, and the result is proved to be one fixed list anyway.

**Creating accounts** (`backend/ent/account_create.go`,
`backend/ent/account.go`). `defaults`, `check`, `createSpec`, `scanValues` and
`assignValues` are methods over the real column lists; writing an account and
reading its row back is proved to rebuild it. `AccountCreateBulk.Save` is a
chain in which every builder's mutate function calls the next builder's chain
from inside its own hooks. A hook is any function of the mutation that may
veto, answer by itself, change the mutation or hand on another one, and any
function of the outcome.

**Upserts and edge updates** (`backend/ent/account_create.go`,
`backend/ent/account_update.go`, `backend/ent/mutation.go`). Conflict options
are collected by calls and resolved when the statement is built; edge edits are
collected in sets and turned into edge specs when the update is saved. Both are
compared with the calls read one after the other.

**The audit gate** (`tools/check_pnpm_audit_exceptions.py`). The line-oriented
parser, the extraction of vulnerabilities from the two report shapes, the
exception index and the deduplicating scan are methods with the source's loops.
The exit code is compared with a rule over all pairs of exceptions and
vulnerabilities.

Some promises turned out not to hold as they are usually stated. Each has a
concrete case and an exact condition:

- A LIMIT or OFFSET on an eager-loaded edge cuts the whole page's rows, not each
  node's (`LimitIsPerPage`; exactly when it does no harm: `ChildWindowExact`,
  `ParentWindowExact`, `ProxyWindowExact` for one edge, `WindowsExact` for every
  edge of a plan at every depth).
- A successful bulk save need not have written anything: a hook may answer by
  itself or turn an error into success (`AnsweringHookFakesSuccess`,
  `SwallowingHookFakesSuccess`; `HonestyIsExact` says exactly when a hook cannot,
  around a later hook that reports a given error, and `HonestSuccess` covers every
  stack of hooks that never can).
- In bulk, the error of `defaults` is ignored, and the `check` after it does not
  always catch the failure, because a hook in between may set the missing column
  (`HookStandsInForDefaults`, `SuchAHookExists`; when it does catch it:
  `FailedDefaultsNeedAHook`, `FailedDefaultsInBulk`).
- In bulk, `check` looks at the builder's own mutation before the mutation the
  hooks hand on replaces it, while a single save copies first
  (`ReplacingHookEscapesCheck`). A bulk save is also all or nothing, so one bad
  builder costs the good ones their rows (`BadBuilderCostsTheOthers`). For any
  number of distinct builders, bulk writes the rows their single saves would
  exactly when, if all hooks call on and all own mutations pass `check`, all
  handed-on ones do and no `defaults` failed, and otherwise no builder would be
  saved alone (`BulkVersusSingle`).
- `created_at` survives every upsert of distinct builders
  (`SavedUpsertKeepsCreatedAt`), but not if one builder stands twice in a bulk and
  a hook hands on another mutation (`RepeatedBuilderLosesCreatedAt`; exactly when
  it survives: `CreatedAtExact`).
- The comments on `UpdateNewValues` call it equivalent to passing
  `ResolveWithNewValues` (lines 1433-1441 and 2217-2224 of
  `backend/ent/account_create.go`). The model follows the code, which also
  pins `created_at`; the two set clauses are equal exactly when no row sets
  `created_at` (`NotJustNewValues`).
- Clearing the groups after adding some keeps the added ones, and `ClearProxy`
  after `SetProxyID` keeps the proxy while `ClearProxyID` does not
  (`ClearDoesNotForgetAdditions`, `EdgeAndFieldClearsDiffer`; exactly when one
  save equals the calls one by one: `SaveIsReplay`).
- The gate compares the severity only for the first report of a package and
  advisory (`SecondSeverityIsSkipped`; exactly when it decides its rule:
  `OneSeverityIsExact`).

Two library contracts are assumed. A query returns the rows of its table that
satisfy its predicates, in table order, then windowed. An update applies the
clear specs in order and then the add specs in order. Encoding and decoding of
JSON columns is assumed to be inverse (`AccountRows.Inverse`).

## Files

| file | content |
|---|---|
| Prelude.dfy | options, results, sequence searches, maps and permutations |
| Picking.dfy | picking the wanted elements of a sequence in order |
| AccountColumns.dfy, ProxyColumns.dfy | the columns of the accounts and proxies tables |
| QueryPlans.dfy | builders as values, SELECT, the page join and the nested loop |
| Graph.dfy | the node classes, the edge accessors, a heap that shows a tree |
| EagerLoading.dfy | the index and scatter loops of the loaders |
| AccountQueries.dfy | the query builder and its recursive load |
| EagerLoadingLaws.dfy, EdgeLaws.dfy | laws of eager loading |
| EdgeWindows.dfy, NestedWindows.dfy | OFFSET and LIMIT on one edge, and throughout a plan |
| RepeatedRuns.dfy | running a query builder a second time |
| Membership.dfy | the many-to-many load and the other path to the same relation |
| AccountCreation.dfy, AccountRows.dfy | defaults, check, insert specification, row scanning |
| BulkCreate.dfy, BulkCreateLaws.dfy | the bulk chain and its laws |
| BulkDefaults.dfy | `defaults` and `check` in bulk and in single saves |
| Upsert.dfy, UpsertRuns.dfy | conflict resolution, and what resolvers find in a save |
| EdgeUpdate.dfy | edge edits |
| AuditParser.dfy, AuditReport.dfy | the exception file, the audit report |
| AuditGate.dfy, AuditGateLaws.dfy, AuditRule.dfy | the gate, its laws, the rule it decides |

## Model

| member | source | states |
|---|---|---|
| QueryPlans.SpecColumnsExact | backend/ent/account_query.go:858-880 | for any field selection, `id` is selected first and once, the other fields keep order and repeats, and exactly the foreign keys the requested edges need are appended, each only when missing |
| QueryPlans.EverythingSelected | backend/ent/account_query.go:859-865 | without a field selection every column of the table is selected |
| QueryPlans.ChildFieldsExact | backend/ent/account_query.go:765-767 | the children query's field selection gains the foreign key at its end if it is not there, and an empty selection stays empty |
| QueryPlans.ScanTells | backend/ent/account_query.go:563-574 | scanning fills in the selected columns and leaves the others at their zero value |
| QueryPlans.KeysAreScanned | backend/ent/account_query.go:858-880 | every key an eager load reads from its nodes is among the selected columns |
| QueryPlans.RequestedKeys | backend/ent/account_query.go:689-700 | the ID list of a many-to-one load has no duplicates and holds exactly the non-null foreign keys |
| EagerLoading.IndexForeignKeys | backend/ent/account_query.go:688-700 | first loop of a many-to-one load: the key list is that duplicate-free list, and every key maps to all nodes holding it, repeats included, in page order |
| EagerLoading.IndexByID | backend/ent/account_query.go:752-761 | first loop of a one-to-many load: of nodes sharing an ID the last one wins |
| EagerLoading.ScatterParents | backend/ent/account_query.go:741-749 | fails exactly when a neighbour nobody asked for is returned, at which point the earlier ones are assigned; otherwise every node points at the last neighbour with its key |
| EagerLoading.ScatterProxies | backend/ent/account_query.go:709-717 | the same for proxies |
| EagerLoading.ScatterChildren | backend/ent/account_query.go:772-782 | fails exactly when a neighbour has no parent key or one outside the page; each neighbour before that is appended, in order, to the last node with its parent's ID and to no other |
| AccountQueries.Traverse | backend/ent/account_query.go:525-534 | the interceptor loop adds exactly the predicates of the interceptors before the first one that is missing or refuses, in order, and returns that one's error, or none |
| QueryPlans.AddedSatisfied | backend/ent/account_query.go:525-534 | a row meets the predicates of an unbroken interceptor list exactly when it meets the predicate of each interceptor that adds one |
| AccountQueries.ValidateFields | backend/ent/account_query.go:535-539 | refuses exactly when some selected field is not a column of accounts |
| AccountQueries.ProxyQuery.PrepareQuery | backend/ent/proxy_query.go:380-405 | the same predicates are appended to the builder's own; the interceptor's error comes first, then an invalid proxy field, and there is no other |
| AccountQueries.ProxyQuery.All | backend/ent/proxy_query.go:212-219 | fails with exactly the error of its preparation; otherwise lists, in table order and cut to its window, the proxies that every predicate of the builder and every predicate added by an interceptor admits; either way the added predicates stay in the builder |
| AccountQueries.AccountQuery.WithParent | backend/ent/account_query.go:434-443 | the builder's tree gains the given builder as its parent edge and nothing else changes; the trees stay disjoint |
| AccountQueries.AccountQuery.WithChildren | backend/ent/account_query.go:445-454 | the same for the children edge |
| AccountQueries.AccountQuery.QuerySpecColumns | backend/ent/account_query.go:858-880 | the loop builds the column list specified by `SpecColumns` |
| AccountQueries.AccountQuery.RestrictToChildrenOf | backend/ent/account_query.go:762-767 | a non-empty field selection gains the foreign key once; the key predicate is added |
| AccountQueries.AccountQuery.PrepareQuery | backend/ent/account_query.go:524-548 | the predicates of the interceptors before the first refusal are appended in order; the error is that refusal, else an invalid selected field, else none |
| AccountQueries.AccountQuery.ScanNodes | backend/ent/account_query.go:563-574 | one fresh node per row with exactly the selected columns filled in, the requested edges marked, and no edge set |
| AccountQueries.AccountQuery.All | backend/ent/account_query.go:307-314 | ends for any data, cyclic links included; on success it lists, in table order and cut to its window, the accounts that every predicate of the builder and every predicate added by an interceptor admits, and the heap spells out the page join of each; the error is exactly the first one met along the builder tree; the builder tree afterwards is the stated one in either case |
| QueryPlans.RunErrorInOrder | backend/ent/account_query.go:524-562 | the query's own refusal is reported first, then its invalid field; a query that selects no row reports nothing more |
| QueryPlans.EdgesErrorInOrder | backend/ent/account_query.go:590-609 | after that the proxy edge, if some row has a proxy key, then the parent query's error, if some row has a parent key, then the children query's, each unchanged |
| AccountQueries.AccountQuery.SqlAll | backend/ent/account_query.go:550-625 | the same once the query is prepared; an error of a nested query is passed through unchanged |
| AccountQueries.AccountQuery.LoadEdges | backend/ent/account_query.go:590-609 | the proxy, parent and children loads: stops at the first error, with later builders untouched; without one every node shows its joined tree |
| AccountQueries.LoadProxy | backend/ent/account_query.go:688-718 | fails exactly when some row has a proxy key and the proxy query is refused, with its error; otherwise every node gets the proxy its key matches in the batched answer, or none |
| AccountQueries.LoadParent | backend/ent/account_query.go:720-750 | fails exactly when some row has a parent key and the nested query fails, with its error; otherwise every node gets the parent its key matches, loaded recursively |
| AccountQueries.LoadChildren | backend/ent/account_query.go:752-784 | fails exactly when the nested query does, with its error (its own nil-key and unknown-key errors cannot occur); otherwise every node gets its children, loaded recursively, in answer order |
| EagerLoadingLaws.PageJoinIsNestedLoop | backend/ent/account_query.go:550-784 | for distinct primary keys and no OFFSET or LIMIT below the root, batched loading of a page gives each row the tree that one query per row would give, at every depth |
| EagerLoadingLaws.LoadedGraphIsNestedLoop | backend/ent/account_query.go:550-625 | so the objects a successful `All` returns show the nested-loop tree of their row |
| EagerLoadingLaws.ProxyLookup | backend/ent/account_query.go:701-717 | looking a key up in the batched answer finds what a query for that key alone finds |
| EagerLoadingLaws.ParentLookup | backend/ent/account_query.go:733-749 | the same for parents |
| EagerLoadingLaws.ChildBucket | backend/ent/account_query.go:762-782 | the rows of the batched answer that belong to one parent are the answer of a query for that parent, in order |
| EagerLoadingLaws.ProjectionKeepsEdges | backend/ent/account_query.go:858-880 | two plans that differ only in selected fields, of accounts or proxies, at any depth, load the same IDs and edges |
| EagerLoadingLaws.LimitIsPerPage | backend/ent/account_query.go:50-53 | a concrete page on which a limited children edge loses a child that a per-node limit would keep |
| EdgeWindows.ChildWindowExact | backend/ent/account_query.go:765-782 | for any OFFSET and LIMIT on the children edge, every account gets what its own windowed query gives exactly when nothing is cut, or the offset leaves out every child of the page, or all children up to the window's end have one parent and no other parent has more children than are skipped |
| EdgeWindows.ParentWindowExact | backend/ent/account_query.go:737-749 | for any OFFSET and LIMIT on the parent edge, every account finds what its own windowed query finds exactly when nothing is cut or the offset leaves out every parent of the page |
| EdgeWindows.ProxyWindowExact | backend/ent/account_query.go:705-717 | the same for the proxy edge |
| NestedWindows.WindowsExact | backend/ent/account_query.go:550-784 | for any OFFSET and LIMIT anywhere below the root, batched loading gives every row of the page the tree of its own windowed queries if and only if each window met along the plan is harmless on the page it is applied to, at every depth |
| NestedWindows.WindowedGraphIsNestedLoop | backend/ent/account_query.go:550-625 | then the objects a successful `All` returns show the nested-loop tree of their row, windows included |
| NestedWindows.UnwindowedIsHarmless | backend/ent/account_query.go:550-784 | a plan without windows below the root meets that condition on every page |
| RepeatedRuns.SamePageAgain | backend/ent/account_query.go:524-784 | the builder a run leaves behind, with the key predicates, interceptor predicates and fields it gained at any depth, selects the same rows and joins them to the same trees, whether or not the run failed |
| RepeatedRuns.NarrowedForGood | backend/ent/account_query.go:701-767 | a nested builder that was run is narrowed for good: on its own it selects the rows it selected for the page |
| RepeatedRuns.SecondRunShowsFirstPage | backend/ent/account_query.go:307-314 | so a second `All` on the same data returns nodes that spell out the first one's page |
| RepeatedRuns.SameErrorAgain | backend/ent/account_query.go:524-784 | and it meets the same first error, if any |
| EdgeLaws.AccessorsReportTheLoad | backend/ent/account.go:118-147 | after a load, not-loaded means not requested, not-found means requested without a match, and otherwise the accessor returns the joined proxy, parent or children |
| EdgeLaws.ParentAndChildrenAreInverse | backend/ent/account_query.go:720-784 | in unrestricted loads c is among p's children exactly when c's key is p's ID exactly when c's loaded parent is p; no child appears twice |
| EdgeLaws.ChildrenConserved | backend/ent/account_query.go:752-784 | the children lists of the page add up to the neighbours returned, even when the page repeats IDs |
| Membership.JoinExact | backend/ent/account_query.go:661-685 | for any join rows, with repeats and in any order, an account gets exactly its linked groups, each once, ordered by each group's first appearance in the answer |
| Membership.CollectRows | backend/ent/account_query.go:661-670 | the intercepted assignment makes one entity per group, in first-seen order, and records for every group exactly the accounts whose rows named it |
| Membership.AppendToAll | backend/ent/account_query.go:682-684 | walking the map in any order appends the group once to every asking account |
| Membership.ScatterGroups | backend/ent/account_query.go:677-685 | fails exactly on a group no row recorded; otherwise each account gains its groups in neighbour order |
| Membership.LoadGroups | backend/ent/account_query.go:627-687 | never fails for rows of the page; each account's groups are the fixed list of `JoinExact`, earlier duplicates of an account ID stay empty |
| Membership.LoadGroup | backend/ent/accountgroup_query.go:408-436 | every membership row gets its group exactly when the group query returned it |
| Membership.ScatterAccountGroups | backend/ent/account_query.go:835-842 | fails exactly on a row for an account outside the page; otherwise rows go to the last node with their account ID |
| Membership.MembershipsInOrder | backend/ent/account_query.go:835-842 | what an account receives is each of its memberships once, in the order returned |
| Membership.LoadAccountGroups | backend/ent/account_query.go:815-844 | the two-step load: every account holds its membership rows, each with its group if the group query returned it |
| Membership.PathsAgree | backend/ent/account_query.go:627-844 | with the same group filter, the groups of the direct load equal, as a set, the groups of the loaded memberships |
| AccountCreation.AccountCreate.Defaults | backend/ent/account_create.go:527-585 | sets exactly the unset defaulted columns in order and never touches a set one; stops at the first default that is not initialised, with the columns before it set |
| AccountCreation.AccountCreate.Check | backend/ent/account_create.go:588-662 | succeeds exactly when every required column is set and every validated column acceptable; otherwise reports the first offender in order |
| AccountCreation.CheckSpelledOut | backend/ent/account_create.go:588-662 | the fourteen required columns, which validator looks at which column, and the two quota dimensions |
| AccountCreation.AccountCreate.CreateSpec | backend/ent/account_create.go:682-857 | the returned entity and the part of the insert specification for fields, proxy and parent |
| AccountCreation.CreateOrderExact | backend/ent/account_create.go:682-820 | the fields written are all columns of the table but the key and the two edges |
| AccountCreation.SpecFieldsExact | backend/ent/account_create.go:682-820 | the specification lists exactly the fields that are set, in column order, each once with its type and value |
| AccountCreation.CreatedEntity | backend/ent/account_create.go:682-857 | the entity returned holds exactly what the caller set, and the two foreign keys of its edges |
| AccountCreation.FailedDefaultsAreCaught | backend/ent/account_create.go:527-534 | the mutation a failed `defaults` leaves does not pass `check` as it stands |
| AccountCreation.CheckAfterDefaults | backend/ent/account_create.go:527-662 | after successful defaults only name, platform, type and the caller's own values can fail the check |
| AccountRows.ScanValues | backend/ent/account.go:168-189 | one holder per column, of the column's type |
| AccountRows.AssignValues | backend/ent/account.go:193-417 | refuses a short value list, otherwise fills the entity column by column with the first type error reported |
| AccountRows.AssignFails | backend/ent/account.go:193-417 | a value is refused exactly when it comes from another type of holder than the column's, or is JSON that does not decode |
| AccountRows.AssignTouchesOneColumn | backend/ent/account.go:193-417 | a value that is accepted changes its own column and no other |
| AccountRows.AssignStops | backend/ent/account.go:193-417 | assigning a row stops at its first refused value, with that value's error |
| AccountRows.ScanSucceeds | backend/ent/account.go:168-189 | the holder chosen for a column accepts whatever `createSpec` stored there, NULL included |
| AccountRows.AssignReadsBack | backend/ent/account.go:193-417 | and assigning it restores that one field and no other |
| AccountRows.CreateThenRead | backend/ent/account_create.go:682-857 | for any column list, with repeats and in any order, reading the stored row never fails and yields what those columns can tell of the created entity |
| AccountRows.CreateThenReadAll | backend/ent/account_create.go:682-857 | reading all columns rebuilds the entity `createSpec` returned |
| BulkCreate.BulkSave.Mutate | backend/ent/account_create.go:2140-2143 | mutator i from hook j on does to the whole state what `Invoke` says |
| BulkCreate.BulkSave.RunBase | backend/ent/account_create.go:2106-2139 | check, store, hand on or insert, take over the ID, mark done, in that order |
| BulkCreate.BulkSave.HandOn | backend/ent/account_create.go:2117-2128 | calls the next mutator with the next builder's current mutation, or inserts when there is none |
| BulkCreate.BulkSave.BatchCreate | backend/ent/account_create.go:2120-2127 | one insert of all specifications collected so far; the IDs are known only on success |
| BulkCreate.BulkSave.TakeID | backend/ent/account_create.go:2132-2138 | only position i gains its generated ID and its done mark |
| BulkCreate.BulkSave.ApplyDefaults | backend/ent/account_create.go:2102-2105 | defaults run for every builder before the chain starts, errors ignored |
| BulkCreate.BulkSave.Save | backend/ent/account_create.go:2095-2152 | the builders' own error first; otherwise defaults, then the chain; the state and result equal the specification's |
| BulkCreateLaws.ChainNests | backend/ent/account_create.go:2102-2149 | whatever the hooks do, the run enters an initial stretch of all hooks in builder and hook order, inserts only after the last, and leaves exactly the entered ones in reverse |
| BulkCreateLaws.ChainOutcome | backend/ent/account_create.go:2106-2149 | the outcome is the database's answer to the one insert, a failed check, or what the stopping hook said, handed back through every hook that had called on, innermost first, and through nothing else |
| BulkCreateLaws.OneWriteOrNone | backend/ent/account_create.go:2106-2149 | the insert happens once exactly when every hook calls on and every check passes, with specification k of builder k in order; otherwise there is none |
| BulkCreateLaws.SaveIsAllOrNothing | backend/ent/account_create.go:2095-2152 | with honest hooks the done mutations are a suffix of the builders in every outcome; success means one accepted insert, all done, and every entity holding exactly its mutation's fields and foreign keys under its generated ID; a veto or failed check means no insert and nothing done |
| BulkCreateLaws.AnsweringHookFakesSuccess | backend/ent/account_create.go:2140-2149 | a hook that answers by itself makes the save succeed with nothing written |
| BulkCreateLaws.SwallowingHookFakesSuccess | backend/ent/account_create.go:2140-2149 | so does a hook that turns the error of a later one into success |
| BulkCreateLaws.HonestSuccess | backend/ent/account_create.go:2095-2152 | a builder whose hooks are all honest never succeeds without an accepted insert, for any mutation, runtime and database |
| BulkCreateLaws.HonestyIsExact | backend/ent/account_create.go:2095-2152 | for a builder with a hook around one that refuses with `e`: success means an accepted insert, over all mutations, runtimes and databases, if and only if the hook never answers and, where it calls on, lets `e` through as an error |
| BulkCreateLaws.HonestAboutAll | backend/ent/account_create.go:2140-2149 | being honest is meeting that condition for every `e` |
| BulkDefaults.WrittenIsChecked | backend/ent/account_create.go:2111-2116 | if no hook hands on a mutation of its own, everything written passed `check` |
| BulkDefaults.BulkVersusSingle | backend/ent/account_create.go:2095-2152 | for any number of distinct builders bulk hands the database the rows their single saves would, refused ones adding none, if and only if: all hooks calling on and all own mutations passing `check`, all handed-on ones pass and no `defaults` failed; otherwise no builder would be saved alone |
| BulkDefaults.BulkPassesLikeSingles | backend/ent/account_create.go:2095-2152 | bulk succeeds as a whole with the same mutations just when all single saves do, if and only if (all hooks calling on) the own mutations all pass exactly when the handed-on ones all do and no `defaults` failed |
| BulkDefaults.BadBuilderCostsTheOthers | backend/ent/account_create.go:2111-2116 | a concrete pair of builders without hooks, one of them incomplete: bulk writes nothing, single saves write the complete one |
| BulkDefaults.ReplacingHookEscapesCheck | backend/ent/account_create.go:2111-2116 | one such difference: an account that fails `check` is written in bulk and refused in a single save |
| BulkDefaults.FailedDefaultsNeedAHook | backend/ent/account_create.go:2105-2116 | a builder whose `defaults` failed lets a bulk pass only if its hooks put the missing column into its own mutation; if none of its hooks ever adds it in place, it never does |
| BulkDefaults.OneHookDecides | backend/ent/account_create.go:2105-2116 | for a builder with one hook: exactly when the hook edits what `defaults` left into a mutation that passes `check` |
| BulkDefaults.InsertsWhenAllLetThrough | backend/ent/account_create.go:2095-2152 | a run of distinct builders inserts exactly when each builder, alone, lets the chain pass |
| BulkDefaults.InsertsTheRows | backend/ent/account_create.go:2095-2152 | and what the run inserts then are the rows `BulkVersusSingle` compares |
| BulkDefaults.FailedDefaultsInBulk | backend/ent/account_create.go:2105-2149 | a run in which builder x's `defaults` failed inserts nothing if no hook of x supplies the column, and then fails with nothing done if hooks are honest; all others passing, it inserts nothing exactly when x's hooks refuse or leave it a mutation that fails `check` |
| BulkDefaults.HookStandsInForDefaults | backend/ent/account_create.go:497-501 | the failing case: a hook that fills the mutation in gets it written in bulk, where a single save stops at `defaults` |
| BulkDefaults.SuchAHookExists | backend/ent/account_create.go:527-534 | a concrete runtime, mutation and edit for which this happens |
| Upsert.UpdateSet.SetAll | backend/ent/account_create.go:1442-1443 | every inserted column gets the change, columns outside the insert keep theirs |
| Upsert.UpdateSet.IgnoreCreatedAt | backend/ent/account_create.go:2225-2235 | the deferred resolver pins `created_at` exactly when some row sets it |
| Upsert.UpdateSet.ApplyTyped | backend/ent/account_create.go:943-1432 | setters take effect in order, later ones on a column override earlier ones |
| Upsert.UpdateSet.ResolveAll | backend/ent/account_create.go:1472-1477 | the option list is resolved in the order it was collected |
| Upsert.LastCallWins | backend/ent/account_create.go:1442-1477 | for each column the resolved change is the one said by the last call that touches it |
| Upsert.SetterDecidesCell | backend/ent/account_create.go:943-1432 | whatever was said before, the last setter of a column that no later call touches decides the stored cell: the value set, the proposed cell, NULL, or the old cell with the value added |
| Upsert.CallDecidesCell | backend/ent/account_create.go:1442-1477 | likewise `UpdateNewValues` stores the proposed cell and `Ignore` keeps the old one, and a column nobody touches keeps its cell |
| Upsert.CreatedAtIsKept | backend/ent/account_create.go:1442-1477 | for any existing row, any rows to insert, one or many, and any sequence of `UpdateNewValues`, `Ignore` and typed setters, the stored `created_at` stays, given that the resolvers find it set whenever it is inserted |
| Upsert.CreatedAtExact | backend/ent/account_create.go:2217-2237 | and that condition is exact: without it a call of `UpdateNewValues` overwrites some row's creation time |
| UpsertRuns.ResolversFindWhatIsWritten | backend/ent/account_create.go:2106-2127 | whatever the hooks do, when a bulk of distinct builders inserts, the mutations its resolvers read are the inserted ones, in order |
| UpsertRuns.SavedUpsertKeepsCreatedAt | backend/ent/account_create.go:2095-2152 | so the upsert of such a bulk never changes a stored `created_at`, with no hypothesis on what is inserted |
| UpsertRuns.SingleUpsertKeepsCreatedAt | backend/ent/account_create.go:1442-1450 | nor does the upsert of a single save |
| UpsertRuns.RepeatedBuilderLosesCreatedAt | backend/ent/account_create.go:2217-2237 | with one builder standing twice and a hook handing on another mutation the second time, a creation time is inserted that no resolver finds, and stored ones can be overwritten |
| Upsert.NotJustNewValues | backend/ent/account_create.go:1433-1450 | `UpdateNewValues` equals `ResolveWithNewValues` alone exactly when no row sets `created_at` |
| EdgeUpdate.AccountMutation.AddGroupIDs | backend/ent/mutation.go:3879-3886 | the added set grows by the IDs; removals and clears stay |
| EdgeUpdate.AccountMutation.RemoveGroupIDs | backend/ent/mutation.go:3899-3907 | the IDs join the removed set and leave the added set |
| EdgeUpdate.AccountMutation.ClearGroups | backend/ent/mutation.go:3889-3891 | only the clear mark is set |
| EdgeUpdate.AccountMutation.SetProxyID | backend/ent/mutation.go:2790-2792 | only the proxy is set; an earlier clear mark stays |
| EdgeUpdate.AccountMutation.ClearProxyID | backend/ent/mutation.go:2821-2824 | the field's clear forgets a proxy set before |
| EdgeUpdate.AccountMutation.ClearProxy | backend/ent/mutation.go:3933-3936 | the edge's clear does not |
| EdgeUpdate.IDs | backend/ent/mutation.go:3910-3923 | the node list holds each ID of the set once, in no promised order |
| EdgeUpdate.GroupSpecs | backend/ent/account_update.go:949-1005 | at most one clear spec and one add spec; removed groups are named only when the edge is not cleared as a whole, and never as an empty list, which would clear it |
| EdgeUpdate.ProxySpecs | backend/ent/account_update.go:1006-1034 | a clear spec exactly when either clear mark is set, an add spec exactly when a proxy is set |
| EdgeUpdate.SqlSaveEdges | backend/ent/account_update.go:2119-2204 | the edge specs of one save: groups first, then the proxy |
| EdgeUpdate.EdgeAlgebra | backend/ent/account_update.go:949-1034 | whatever order the sets are listed in, one save leaves (nothing if cleared, else old minus removed) together with the added, and the set proxy, else none if cleared, else the old |
| EdgeUpdate.SaveIsReplay | backend/ent/mutation.go:3879-3952 | one save equals the calls one after the other exactly when no `ClearGroups` comes after an added group left standing and no `ClearProxy` after a proxy left standing |
| EdgeUpdate.ClearDoesNotForgetAdditions | backend/ent/mutation.go:3889-3891 | adding group 7 and then clearing keeps group 7 |
| EdgeUpdate.EdgeAndFieldClearsDiffer | backend/ent/mutation.go:2821-2824 | after setting a proxy, the field's clear removes it and the edge's clear does not |
| AuditParser.StripPad | tools/check_pnpm_audit_exceptions.py:29 | stripping a padded string gives back its core, whatever the padding |
| AuditParser.AsciiSpaces | tools/check_pnpm_audit_exceptions.py:29 | which ASCII characters stripping removes |
| AuditParser.SplitKVExact | tools/check_pnpm_audit_exceptions.py:12-20 | a `key: value` line, the value in double quotes, in single quotes or as it is, reads back exactly when the key has no colon and no outer white space and an unquoted value has no outer white space and no matching quotes around it |
| AuditParser.SplitKVPadded | tools/check_pnpm_audit_exceptions.py:12-20 | such a pair reads back whatever white space surrounds the key and the value |
| AuditParser.LoneQuoteIsEmpty | tools/check_pnpm_audit_exceptions.py:14-19 | a single quote character as value reads as the empty string |
| AuditParser.ParseExceptions | tools/check_pnpm_audit_exceptions.py:23-48 | the loop returns what the line-by-line state machine returns, failing where it fails |
| AuditParser.OneRecordPerItem | tools/check_pnpm_audit_exceptions.py:28-48 | fails exactly on an item line without a colon; otherwise one record per item line and none empty |
| AuditParser.SkippedLinesAreInvisible | tools/check_pnpm_audit_exceptions.py:30-33 | two files that agree on the other lines parse alike, wherever blank, comment, `version:` and `exceptions:` lines stand |
| AuditParser.ParseSplitsAtItems | tools/check_pnpm_audit_exceptions.py:34-48 | cutting a file in front of an item line, the parts are read independently and their records joined |
| AuditParser.RenderedItemReads | tools/check_pnpm_audit_exceptions.py:34-42 | an item line opens a record with the pair written on it exactly when the pair survives being split, however the value is quoted |
| AuditParser.RenderedEntryReads | tools/check_pnpm_audit_exceptions.py:30-45 | a line below an item adds its pair exactly when the pair survives being split and its key is not taken for a comment, a skipped word or an item |
| AuditParser.ParseRender | tools/check_pnpm_audit_exceptions.py:23-48 | writing records as pairs in any order, each value in either kind of quotes or as it is, and parsing the lines returns the records; of pairs with one key the last counts |
| AuditParser.TextRoundTrip | tools/check_pnpm_audit_exceptions.py:27-48 | the same through one text: any indentation, blank, comment and heading lines anywhere, and a line feed, a carriage return or both after each line |
| AuditReport.PickIsTruthy | tools/check_pnpm_audit_exceptions.py:51-61 | the identifier picked is usable exactly when some candidate field is |
| AuditReport.PicksInOrder | tools/check_pnpm_audit_exceptions.py:51-61 | the identifier is the first of GHSA, URL, first CVE, ID as text, title, advisory and overview that is not empty, else the overview |
| AuditReport.ItemPicksInOrder | tools/check_pnpm_audit_exceptions.py:90-96 | of an item of the other shape, the first of GHSA, URL, source, title and name |
| AuditReport.EntryVulns | tools/check_pnpm_audit_exceptions.py:82-111 | collecting identifiers and then yielding the usable ones gives, in order, one vulnerability per item that names something |
| AuditReport.IterVulns | tools/check_pnpm_audit_exceptions.py:64-111 | advisories first, one each, then the entries of the other shape |
| AuditReport.YieldedExact | tools/check_pnpm_audit_exceptions.py:64-111 | which vulnerabilities are drawn from a report, in both directions, field by field: name, severity and the first usable identifier |
| AuditReport.YieldsInOrder | tools/check_pnpm_audit_exceptions.py:64-111 | in which order: the advisories one by one, then entry after entry, each entry's naming items once in its order |
| AuditReport.SilentEntries | tools/check_pnpm_audit_exceptions.py:82-111 | an entry of the second shape yields nothing exactly when no item names anything, while an advisory without identifier is still yielded, with an unusable one |
| AuditGate.BuildIndex | tools/check_pnpm_audit_exceptions.py:153-185 | the index and the error list of the first loop, with its order of rejections |
| AuditGateLaws.IndexFindingsCover | tools/check_pnpm_audit_exceptions.py:156-180 | the errors of the first loop are each rejected exception with its reason and each key used again |
| AuditRule.CheckMeans | tools/check_pnpm_audit_exceptions.py:157-177 | an exception is rejected for missing fields first, then for its date, then for a blank package or advisory, and is indexed otherwise with stripped package and lower-cased advisory and severity |
| AuditGate.DigitsExact | tools/check_pnpm_audit_exceptions.py:126-131 | a numeric identifier is compared by its decimal digits, without leading zeros |
| AuditGate.StrExact | tools/check_pnpm_audit_exceptions.py:118-131 | a missing name or identifier is compared as the empty string, text as itself, a number by its decimal form with its sign |
| AuditGate.Scan | tools/check_pnpm_audit_exceptions.py:188-219 | the three lists of the second loop |
| AuditGateLaws.ScanFindingsCover | tools/check_pnpm_audit_exceptions.py:196-215 | the errors of the second loop are each unidentified report by name and each key whose first report names another severity than its exception |
| AuditGate.Gate | tools/check_pnpm_audit_exceptions.py:151-243 | exit code 0 exactly when all lists are empty |
| AuditGateLaws.IndexExact | tools/check_pnpm_audit_exceptions.py:156-185 | a key is indexed exactly when a usable exception has it, with the data of the first one |
| AuditGateLaws.IndexFindingsExact | tools/check_pnpm_audit_exceptions.py:156-180 | the first loop is silent exactly when all exceptions are usable and their keys differ |
| AuditGateLaws.MissingExact | tools/check_pnpm_audit_exceptions.py:203-210 | a key is reported missing exactly when a serious report has it and no exception does |
| AuditGateLaws.LateExact | tools/check_pnpm_audit_exceptions.py:203-219 | a key is reported expired exactly when a serious report has it and its exception is past |
| AuditGateLaws.ReportedOnce | tools/check_pnpm_audit_exceptions.py:191-206 | however often a key occurs, it is reported at most once |
| AuditGateLaws.VerdictExact | tools/check_pnpm_audit_exceptions.py:156-243 | for all inputs, what exit code 0 means without index, deduplication or lists |
| AuditGateLaws.VerdictMeetsRule | tools/check_pnpm_audit_exceptions.py:187-243 | the indexed, deduplicated loops accept whatever the all-pairs rule accepts, and with one severity per key nothing else |
| AuditGateLaws.EarlierPasses | tools/check_pnpm_audit_exceptions.py:216-219 | passing on a day implies passing on every earlier day |
| AuditGateLaws.MoreReportsFail | tools/check_pnpm_audit_exceptions.py:192-219 | reports added at the end never turn a failure into a pass |
| AuditGateLaws.FewerReportsPass | tools/check_pnpm_audit_exceptions.py:192-219 | with one severity per key a pass stays a pass for any part of the reports in any order |
| AuditGateLaws.MissingAndExpiredIgnoreOrder | tools/check_pnpm_audit_exceptions.py:203-219 | which keys are missing or expired never depends on the order of the reports |
| AuditGateLaws.SecondSeverityIsSkipped | tools/check_pnpm_audit_exceptions.py:203-206 | with two severities under one key the order decides: passes one way round, fails the other |
| AuditRule.GateDecides | tools/check_pnpm_audit_exceptions.py:142-243 | exit code 0 exactly when the rule of the two files approves, given one severity per package and advisory: every exception has its five fields, a valid date, and a package and advisory that are not blank and differ from all others (advisories in any case), and every named report that is high or critical in any case has an advisory and an unexpired exception whose severity is its own or blank; the rule's approval suffices without that |
| AuditRule.BlankSeverityCoversAll | tools/check_pnpm_audit_exceptions.py:156-215 | an unexpired usable exception covers the high and the critical reports of its key alike exactly when its severity is blank after stripping, which the required-field test lets pass |
| AuditRule.OneSeverityIsExact | tools/check_pnpm_audit_exceptions.py:203-215 | for a report, the gate decides the rule for all exception files on all days exactly when the report has one severity per key or holds a serious entry no exception can name |
| AuditRule.ExitCodeIgnoresOrder | tools/check_pnpm_audit_exceptions.py:156-243 | with one severity per key, reordering the exceptions, and reordering or repeating the vulnerabilities, keeps the exit code |
| AuditRule.PassSurvives | tools/check_pnpm_audit_exceptions.py:187-243 | for all inputs a pass survives going back in time and losing the last reports |
| AuditRule.PassSurvivesRemoval | tools/check_pnpm_audit_exceptions.py:187-243 | with one severity per key a pass survives the loss of any reports |
| AuditRule.Audit | tools/check_pnpm_audit_exceptions.py:142-243 | the program from exception text and report to exit status |
| AuditRule.ExitStatus | tools/check_pnpm_audit_exceptions.py:142-243 | the status is 0 or 1, and 1 whenever an item line lacks its colon |
| AuditRule.FileDecides | tools/check_pnpm_audit_exceptions.py:142-243 | for a well-written exception file, quoted or not, with any indentation, comments and line ends, the exit status is 0 exactly when the rule approves the records written, given one severity per key |

## Left out

Eager loading and queries:

- SQL text, drivers, transactions, row locks, modifiers, aggregates and ORDER BY: rows come in table order.
- Traversal queries such as `QueryParent` and a builder's `path`, and interceptors that wrap the query: an interceptor adds predicates, does nothing, refuses, or is missing.
- `loadUsageLogs`: the same loop as `loadChildren` over a non-null key; it would only repeat members.
- `loadAccount` of the membership query: the same loop as `loadGroup`.
- AccountQueries.AccountQuery.LoadEdges: does not run the loads of groups and account groups, which are modelled by themselves in Membership over the rows their queries return, nor of usage logs; errors of those queries are not among the errors of `All`.
- AccountQueries.ProxyQuery.All: does not load the proxy's own edges (accounts, backup proxy).
- Driver errors, scan errors and cancelled contexts in the middle of a load: query errors are those of preparation and of the scatter loops.
- GroupQuery and AccountGroupQuery builders: their loads are methods over the rows their queries return, constrained to the requested keys.
- Membership.JoinExact: the order of an account's groups is by first appearance of the group in the whole answer, as the code has it, not by first appearance among the account's own rows.

Creating, upserting and updating:

- AccountCreation.AccountCreate.CreateSpec: does not give the edge specifications of groups, children and usage logs, which do not become columns of the inserted row.
- One-to-many and many-to-many edges given on create, and edge specs of children, usage logs and the parent on update: the parent runs the proxy's statements, the children also move keys of other rows.
- A database that refuses an added link because it exists already: the edge algebra is about accepted updates.
- A missing hook (the runtime package was not imported): `withHooks` returns an error for it in a single save (lines 585-587 of `backend/ent/ent.go`), while bulk calls it unguarded (lines 2140-2142 of `backend/ent/account_create.go`); the hooks of the model are all present, so a missing default stands alone.
- Hooks that call the next mutator more than once, hooks with state of their own, and hooks that keep a mutation and change it later.
- BulkCreate.BulkSave.Save: the done mark and the ID of a mutation object that a hook replaced are recorded by position, not on the object.
- Accumulating `Add` updates of numeric fields on a mutation, and `DoNothing` or raw conflict options mixed with the generated ones.
- Upsert.CreatedAtIsKept: covers the generated setters; a caller who reaches through to the library's update set can still write the column.
- `MapCreateBulk`, field updates, `Select` on updates and the generated one-line setters.
- Times, floats and enum texts are opaque values with an equality; validators are parameters.

The audit gate:

- File and JSON reading, argument parsing, the wording of messages and the report's titles.
- AuditParser.ParseExceptions: reads the lines given; decoding the file is not modelled, line ends are (`Lines`).
- AuditGate.Lower: lower-cases ASCII letters only, where Python also folds the rest of Unicode.
- The date reader is a parameter: which ISO 8601 forms `date.fromisoformat` accepts depends on the Python version.
- A severity that is not a string, or report entries that are not objects, on which the script stops with an exception.
