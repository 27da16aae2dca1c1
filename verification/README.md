# Data-access layer of Atoi-Talk-API: a verified model

The chat server keeps its data behind a generated ent layer (`ent/`). This project models the parts of
that layer that carry an algorithm, and proves what callers rely on:

- **Creating**: one entity through `withHooks`, many through the chain of mutators in bulk `Save`, for hooks
  of any behaviour; the schema hook and unique index that keep private chats unique.
- **Reading**: what a chain of builder calls returns, the two translations of a query builder, bounded look-ahead,
  eager loading as hash joins over node objects, its agreement with graph traversal, projection, edge accessors.
- **Sharing**: hook slices that builders and clients share, and the deep copy that `Clone` makes of a tree of
  builder objects.
- **Writing and decoding**: the update plan of an edge, the row codec of GroupMember and Chat, upserts.

Templates that the generator repeats are modelled once and generically (`SaveOne`, `BulkCreate`, `Queries`,
`EagerLoad`, `Codec`); GroupChat, GroupMember, Chat and PrivateChat supply the concrete parts. Code that works
in place is modelled in place (`EagerLoad.Node`, `HookStorage.Client`, `BuilderClone.Builder`,
`EdgePlan.Mutation`, `Codec.Target`, `Upserts.Upsert`), each method proved against a function on values about
which the theorems are stated.

## Modules

| file | what it holds |
|---|---|
| Prelude | options, results, the error values; the last element with a property |
| Middleware | hooks as recorded behaviours; the right fold that composes them |
| SaveOne | `withHooks` around `sqlSave`; traces; what a save answers; only checked rows are stored |
| PrivateChats, PrivateChatRuns | the schema hook that orders the user pair, its exact reach; over runs of single and bulk creates, which hooks keep one chat per pair |
| BulkCreate, BulkSave | the chain of mutators for arbitrary hooks; `Save` itself |
| BulkForwarding | all-or-nothing for forwarding hooks; a whole `Save` under quiet ones |
| BulkOutcome | which hooks make "no error" mean "stored", exactly; what the table then ends in |
| BulkValidation | which hooks make everything sent valid, and the converse |
| Rows | rows, stable sort, filter, distinct, and how they commute |
| Queries | `querySpec` against `sqlQuery`; `First`, `Only`, `Exist` |
| Answers | what `All` returns, without reference to how |
| Loading, EagerLoad | eager loading as a nested loop; the hash joins in place, proved equal to it |
| Traversal | the unexpected-key errors are unreachable; the keys a traversal joins on |
| Agreement | eager loading against traversal: when both find the same neighbours, exactly |
| AgreementByBuilder, Disagreement | the same read off the builders, for all databases; a database for every other builder |
| Attachments | what nodes receive, against traversal; the edge accessors |
| EdgeLimits | an offset and a limit on an edge, and running a builder twice |
| Projection | field selection does not disturb joins |
| HookStorage | Go slices with sharing; hook snapshots |
| BuilderCalls | the chainable calls on builder values; what any list of calls leaves |
| BuilderRows | what any list of calls does to the rows returned |
| BuilderClone | mutable builder trees; `Clone` |
| EdgePlan | the clear and add steps of an edge update |
| Codec, Members, Chats | scanning rows; the two entities; create then scan |
| Upserts | `OnConflict`, `UpdateNewValues` and overrides |

## Assumptions

- **Hooks.** A hook is an arbitrary function in Go. The model quantifies over records of what a hook did: which
  mutations it wrote, how often it called the next mutator and with what, and what it answered. Nothing
  restricts a record, so a theorem for all records covers hooks with state. Every such record is finite: a
  hook that never returns is outside the model. The constructor of a hook, the part that is given the next
  mutator, is taken to do nothing but build the wrapping mutator.
- **Database.** `entgo.io/ent` (sqlgraph and sql) is not part of the repository. A table is a sequence of rows with
  distinct ids; ORDER BY is a stable sort; DISTINCT keeps the first of equal rows; a limit of 0 in a `QuerySpec` means
  none, while a selector emits it; an offset in a `QuerySpec` carries no row bound; scanning the rows of `IDs` into a
  list of ids reads the id, also when further fields had been selected before; `SetNeighbors` is an inner join that
  re-selects from its source only the column it joins on; `BatchCreate` inserts all specs or none; an edge added to a
  nullable key succeeds only for rows whose key is NULL, otherwise it is a constraint error; within `DO UPDATE SET` a
  later assignment to a column replaces an earlier one. Which INSERTs the database refuses is an arbitrary function.
- **Values.** UUIDs are naturals, in the order of their string form (all have the same length). Times and Go
  ints are unbounded integers. The clock and id generator are arguments.

## Findings

Where the code does not do what one might expect, the exact condition is a theorem:

1. Bulk `Save` checks the mutation its builder holds, then saves the mutation it was passed. Everything a run
   sends is valid if the calls that reach a step carry the mutation its builder holds
   (`BulkValidation.HonestRunIsValid`); under all behaviours it is valid iff no builder has a run-time hook
   (`BulkValidation.AlwaysValidIff`). The single `Save` has no such gap (`SaveOne.SaveStoresOnlyCheckedRows`).
2. The absence of an error from a bulk create means that the table ends in the rows of the returned nodes iff the
   hooks are faithful: each fails, or answers with the reply of the last call that it does make
   (`BulkOutcome.NoErrorMeansStoredIff`, `BulkSave.Save`). At worst the caller gets all nodes, no error, and no row
   (`BulkOutcome.RefusalSwallowed`).
3. The pair order of private chats is enforced only while the operation of the mutation is a create. Runs of
   creates whose hooks write creates, and mutations from some set, never give two users two chats iff every
   mutation in that set that has a chat is a create or holds an ordered pair (`PrivateChatRuns.OneChatPerPairIff`;
   for one create `PrivateChats.LeftMutationIff`). With `SetOp` a hook makes a create store a swapped pair
   (`PrivateChats.ChangedOperationSlipsThrough`), and an update can break the guarantee
   (`PrivateChats.UpdateKeepsGuaranteeIff`).
4. A limit of 0 and an offset alone beyond 2^31-1 rows are read differently by the two translations
   (`Queries.TranslationsAgreeIff`).
5. `First`, `Only` and `Exist` leave their limit, and `Exist` its selected id, on the builder they are called on;
   `Only` may even widen it (`Queries.LimitStaysIff`, `Queries.FirstStaysIff`, `Queries.ExistStaysIff`).
6. Eager loading and traversal agree iff every neighbour is reached alike (`Agreement.EagerIsTraversalIff`). On
   all databases they agree iff the parent has no window, or a positive limit under which its two translations
   cannot drop different repetitions, and no key is joined on twice where neighbours may repeat
   (`Disagreement.AgreesAlwaysIff`).
7. An offset and a limit on an eager edge are shared by all nodes; a builder run again keeps its first restriction
   (`EdgeLimits.WindowIsPerNodeIff`, `EdgeLimits.RerunIsFreshIff`).
8. `ClearReports` does not cancel additions made before it (`EdgePlan.ClearKeepsEarlierAddsIff`).

## Model

| member | source | states |
|---|---|---|
| Middleware.Compose | ent/ent.go:534-539 | the composed mutator has the given hooks, first one outermost, around the inner one |
| Middleware.ComposeHooks | ent/ent.go:534-539 | composing and listing hooks are inverse |
| Middleware.WrapAll | ent/groupmember_create.go:635-638 | the backward loop builds the right fold, with the hooks in their order |
| SaveOne.WithHooks | ent/ent.go:518-549 | a nil hook anywhere means that neither `exec` nor any `Mutate` ran and nothing was stored; otherwise the composed mutator ran once on the builder's mutation. Without hooks and under forwarding hooks: a failing check is the error, a refusal by the database is an error too, a constraint error iff it is one, and neither stores a row or marks a mutation; else the caller gets the node, its row is stored, and the mutation is stamped and done. A fixed answer of the outermost hook reaches the caller, as a type error if it is no node |
| SaveOne.Save | ent/groupmember_create.go:126-130 | the same with the defaults filled in first |
| SaveOne.InvokeSound | ent/ent.go:525-540 | for every behaviour of the hooks: they open and close in stack order, `exec` runs only inside all of them, and the table is what checking and inserting each `exec` gives |
| SaveOne.StepsSound | ent/ent.go:525-540 | the same for everything a hook does between being called and returning |
| SaveOne.ReplayedRowsAreChecked | ent/groupmember_create.go:205-226 | rows are only added, and each added row comes from an `exec` whose mutation passed its check |
| SaveOne.SaveStoresOnlyCheckedRows | ent/groupmember_create.go:127-130 | a single save never stores a row that failed its check, whatever mutation the hooks passed on |
| SaveOne.ForwardingRun | ent/ent.go:518-549 | a chain of forwarding hooks has the outcome of one `exec` on the mutation they left, each hook around the rest, followed by the writes they make after forwarding |
| SaveOne.NestIsEntersThenLeaves | ent/ent.go:534-539 | nesting hooks around an event is all enters in order, the event, all leaves in reverse |
| SaveOne.ForwardingTrace | ent/ent.go:518-549 | for forwarding hooks: pre-actions 0..n-1, one `exec` that sees the mutation as the innermost hook left it, post-actions n-1..0, and the outcome of `exec` |
| SaveOne.ForwardingSave | ent/groupmember_create.go:205-226 | read off check, node, row and database alone: what a save under forwarding hooks answers, stores and marks, for the contents that `exec` saw; writes that hooks make afterwards stay |
| SaveOne.ForeignIsRefused | ent/ent.go:525-529 | hooks that pass on something else than a mutation of the entity: a type error, no `exec`, nothing stored or marked |
| PrivateChats.ClientHooksEndInSchema | ent/client.go:1757-1761 | whatever is registered at run time, the schema hook is innermost |
| PrivateChats.HookOrdersIff | ent/schema/private_chat.go:38-54 | the hook leaves an ordered pair iff the operation is a create or the pair was ordered; users, operation and chat stay |
| PrivateChats.CreatesStayOrdered | ent/schema/private_chat.go:34-58 | with the schema hook innermost, for arbitrary outer hooks: an `exec` that sees an unordered pair sees an operation that is no create |
| PrivateChats.StaysHarmless | ent/mutation.go:8118-8120 | call a mutation harmless if it is a create, has an ordered pair or has no chat: if hooks write only harmless ones, no mutation becomes anything else and `exec` sees nothing else |
| PrivateChats.ReplayKeepsPairs | ent/schema/private_chat.go:71-76 | inserting ordered pairs keeps the table ordered, the pair index intact and the chats distinct |
| PrivateChats.OrderedIndexIsPairwise | ent/schema/private_chat.go:71-76 | ordered rows under the unique index mean at most one chat for two users in either order |
| PrivateChats.LeftMutationIff | ent/schema/private_chat.go:38-54 | whatever mutation the hooks leave, once check and table accept it: the table stays ordered iff the operation is a create or the pair was ordered; otherwise users who have a chat get a second one although every constraint holds |
| PrivateChats.ChangedOperationSlipsThrough | ent/schema/private_chat.go:38-38 | a concrete hook that changes the operation and swaps the users: with a chat of its own the row is accepted, and two users have two chats although the index holds |
| PrivateChats.SchemaOutermostIsNotEnough | ent/client.go:1757-1761 | with the schema hook outermost a create with a chat and a swapped pair would be stored |
| PrivateChats.UpdateKeepsGuaranteeIff | ent/schema/private_chat.go:38-38 | since the hook acts on creates only, an update keeps the guarantee for every ordered row with a chat of its own that is accepted later iff the pair it leaves is ordered |
| PrivateChatRuns.BulkKeeps | ent/privatechat_create.go:841-894 | in a bulk create with the schema hook innermost in every builder, under hooks that write harmless mutations, every slot is ordered and the table keeps its constraints |
| PrivateChatRuns.OneChatPerPairOverRuns | ent/client.go:1757-1761 | over every run of single and bulk creates, under hooks that may do anything but write a harmful mutation, two users never get two chats |
| PrivateChatRuns.OneChatPerPairIff | ent/schema/private_chat.go:34-58 | for every set of mutations: all runs whose hooks write creates or members of the set keep one chat per pair iff no member is harmful |
| BulkCreate.Mutate | ent/groupmember_create.go:605-634 | terminates for every hook behaviour, by builders left and then hooks left; slots keep their number and no mutation disappears |
| BulkCreate.MutateKeeps | ent/groupmember_create.go:594-647 | for arbitrary hooks: every batch sent has every slot filled by its own builder, the table grows by whole accepted batches, earlier slots are untouched, the last slot is filled only with a batch |
| BulkCreate.StepsKeep | ent/groupmember_create.go:635-638 | the same for everything a hook does, calling on zero, one or many times |
| BulkSave.DefaultsInTurn | ent/groupmember_create.go:604-604 | every mutation ends up filled in once for each builder that holds it, in the order of the builders, also when a builder is passed twice; no other mutation is touched |
| BulkSave.DefaultsRunOnce | ent/groupmember_create.go:604-604 | builders with mutations of their own: each holds its contents with the defaults of its builder |
| BulkSave.BuildMutators | ent/groupmember_create.go:601-640 | the loop runs all defaults in order and leaves in slot i the hooks of builder i around its step |
| BulkSave.Save | ent/groupmember_create.go:594-647 | a recorded error stops before anything happens; otherwise the result is that of the first mutator, every batch is complete, the list has no gap iff a batch was sent, and under faithful hooks the returned nodes and the last rows of the table describe the same contents one by one |
| BulkOutcome.FaithfulStores | ent/groupmember_create.go:616-633 | batches are only added, and under faithful hooks a reply that is no error means that the last batch was accepted, that the slots are its slots, and that the table ends in its rows |
| BulkOutcome.UnfaithfulHides | ent/groupmember_create.go:641-646 | under any other hooks, a database that refuses everything goes unnoticed: no error and no row |
| BulkOutcome.NoErrorMeansStoredIff | ent/groupmember_create.go:641-646 | for all entities, contents and databases, no error means that the table ends in the rows of the final slots iff the hooks are faithful |
| BulkOutcome.RefusalSwallowed | ent/groupmember_create.go:641-646 | a concrete hook: the only batch is refused, and the caller gets every node, no error and no row |
| BulkSave.BatchMeansNoGap | ent/groupmember_create.go:598-599 | from empty slots, all nodes are filled iff a batch was sent |
| BulkForwarding.ForwardingRun | ent/chat_create.go:660-713 | for forwarding hooks the chain of continuations does what a plain visit of the builders in order says |
| BulkForwarding.AllOrNothing | ent/chat_create.go:660-713 | forwarding hooks: either the first failing check is the error and nothing is sent, written or marked done, or exactly one batch is sent and its acceptance writes all rows and marks all mutations, its refusal none |
| BulkForwarding.ForeignIsRefused | ent/groupmember_create.go:605-609 | hooks that pass on something else than a mutation of the entity: a type error, nothing built, sent or marked |
| BulkForwarding.QuietPlan | ent/chat_create.go:228-244 | with hooks that write nothing, that plan is the lowest-index failing check among the builders' own contents, or all contents in order |
| BulkForwarding.QuietStore | ent/chat_create.go:694-699 | with hooks that write nothing, a failed bulk create leaves every mutation as it was, and a successful one only marks them |
| BulkForwarding.StampedExactly | ent/chat_create.go:697-698 | builders with mutations of their own: each gets the id of its own node and is marked done, no other mutation is touched |
| BulkForwarding.QuietSave | ent/groupmember_create.go:594-647 | a whole `Save` under hooks that write nothing: the contents with their defaults decide; the first that fails its check is the error and nothing is sent, else exactly they are sent in order, and rows and nodes are theirs if the database accepts |
| Members.BulkFillsDefaults | ent/groupmember_create.go:155-172 | members with a group, a user and, if any, a known role: one batch, with role, times, counter and id filled in where they were missing |
| BulkValidation.SlotIsValidatedIff | ent/groupmember_create.go:610-615 | what one step saves is validated for all contents iff the mutation it was passed is the one its builder held |
| BulkValidation.HonestRunIsValid | ent/groupmember_create.go:605-634 | hooks that write, call and answer as they like, but reach each step with the mutation its builder holds: builders keep their mutations, and every slot and every batch ever sent is valid |
| BulkValidation.HonestStoresOnlyValid | ent/groupmember_create.go:594-647 | under such hooks every row added to the table describes contents that pass the check |
| BulkValidation.SubstitutingSends | ent/groupmember_create.go:610-615 | if the first run-time hook passes on an invalid mutation and the others forward, an invalid batch is sent |
| BulkValidation.AlwaysValidIff | ent/groupmember_create.go:605-638 | a bulk create of distinct builders sends only valid slots, under all behaviours and contents, iff no builder has a run-time hook |
| BulkValidation.SecondCallChecksTheFirst | ent/groupmember_create.go:610-615 | the mutation that a step was passed is its builder's from then on, whatever later hooks do: a second call of the step checks it, whatever that call passes |
| Members.BulkStoresInvalidRole | ent/groupmember_create.go:610-615 | a concrete hook by which a bulk create stores a role that its own check refuses |
| Rows.SortPermutes | ent/chat_query.go:703-709 | ordering permutes the rows |
| Rows.SortSorted | ent/chat_query.go:703-709 | ordering sorts by the order of the terms |
| Rows.BeforeIff | ent/chat_query.go:703-709 | one row comes before another iff some term separates them in its direction and all terms before it agree on them |
| Rows.SortedByAllTerms | ent/chat_query.go:703-709 | sortedness written out: no term separates a later row from an earlier one in its favour |
| Rows.SortStable | ent/chat_query.go:703-709 | rows that no term separates keep their order |
| Rows.FilterSort | ent/chat_query.go:690-709 | predicates and order commute |
| Rows.DistinctSort | ent/chat_query.go:673-677 | dropping repetitions and ordering commute |
| Rows.DistinctKeepsFirst | ent/chat_query.go:673-677 | dropping repetitions lists every row once, in the order of first occurrence |
| Queries.BuildColumns | ent/groupchat_query.go:764-781 | the column loop computes the specified column list |
| Queries.ColumnsSuffice | ent/groupmember_query.go:533-547 | the id comes first and once; besides, there is every selected field, every key a requested edge needs, and nothing else |
| Answers.AllReturns | ent/chat_query.go:670-712 | the rows of `All`, said without the way they are computed: the candidates that meet every predicate, each as often as it is one, sorted by all terms with ties in table order; of these the window, with the selected columns |
| Queries.TranslationsAgreeIff | ent/chat_query.go:670-746 | without traversal and selection both translations denote the same rows iff the limit is positive (or nothing remains), or an offset alone leaves at most 2^31-1 rows |
| Queries.LookAheadIsExact | ent/groupchat_query.go:187-246 | `First` from one row and `Only` from two answer what the full result without the builder's limit would |
| Queries.DistinctProject | ent/groupchat_query.go:764-771 | dropping repetitions and projecting commute for projections with the id, over joins too |
| Queries.ExistIsExact | ent/groupchat_query.go:344-354 | `Exist`, through the id scan of the other translation, is true iff the full result is non-empty |
| Queries.LimitStaysIff | ent/groupchat_query.go:233-234 | the builder after `Only` (or `First`) returns what it did before iff the limit was the same, or the unlimited result is no longer than either limit |
| Queries.FirstStaysIff | ent/groupchat_query.go:187-188 | for `First` this means: iff it returned at most one row |
| Queries.ExistStaysIff | ent/groupchat_query.go:305-314 | the builder after `Exist` returns at most one row, and what it did before iff that was at most one row without columns beyond those it selects now |
| Loading.HeldIdsExact | ent/chat_query.go:626-637 | the ids queried for are duplicate-free and exactly the non-nil keys of the nodes |
| Loading.KeysExact | ent/groupchat_query.go:679-693 | a key is queried for iff some node has it |
| Loading.UnexpectedIff | ent/groupchat_query.go:699-706 | there is an error iff some neighbour's key was not queried for, and it names the first such key |
| Loading.NeighboursIff | ent/groupchat_query.go:699-707 | read off the rows: a neighbour is listed for a node as often as it came back if the foreign key of the edge links the two, else never |
| EagerLoad.Node.constructor | ent/groupchat_query.go:532-537 | a scanned node starts with no edge and the requested edges recorded |
| EagerLoad.Assign | ent/groupchat_query.go:569-583 | the callback appends to a list edge or overwrites a unique one, on its node only |
| EagerLoad.Distribute | ent/groupchat_query.go:699-707 | one map lookup per neighbour gives every node the order-preserving selection of the neighbours by its own id; the error is that of the first unexpected key |
| EagerLoad.GroupByKey | ent/chat_query.go:626-637 | the map's lists are the nodes of each key in order, its keys the distinct non-nil keys; nil keys are in no list |
| EagerLoad.AssignGroup | ent/chat_query.go:651-653 | every node of the group gets the neighbour, no other node changes |
| EagerLoad.DistributeToGroups | ent/chat_query.go:646-655 | every node with key k receives the neighbour with id k if it came back; the others are untouched |
| EagerLoad.IndexById | ent/groupchat_query.go:680-688 | the loop collects the ids in order and the last node object of each id, and empties the list edge of every node |
| EagerLoad.LoadByNeighbourKey | ent/groupchat_query.go:679-708 | the loader in place equals the nested-loop reference, errors included |
| EagerLoad.LoadByHeldKey | ent/chat_query.go:625-656 | the grouped loader in place equals the same reference, including the skipped query when no node has a key |
| EagerLoad.ScanNodes | ent/groupchat_query.go:530-547 | the scan makes one new node a row, in order, with the requested edges recorded |
| EagerLoad.SqlAll | ent/groupchat_query.go:518-585 | the whole recursive load of a builder tree equals the reference |
| Traversal.NarrowReturnsExpected | ent/groupchat_query.go:689-694 | a loader's query only returns neighbours whose key was asked for, under every projection and window |
| Traversal.AllSucceeds | ent/groupchat_query.go:518-585 | for every database and builder tree the unexpected-foreign-key errors are unreachable |
| Agreement.DistinctJoin | ent/groupchat_query.go:142-161 | without repetitions, the traversal join is the selection of the rows whose key is hit |
| Agreement.SortedJoinIff | ent/groupchat_query.go:98-117 | a sorted join is the sorted selection iff every row comes out of it as often |
| Agreement.EagerIsTraversal | ent/groupchat_query.go:98-161 | if every neighbour is reached alike, a loader's restricted query and the traversal from the same builder return the same nodes in the same order with the same nested edges, for every window on the neighbours |
| Agreement.EagerIsTraversalIff | ent/groupchat_query.go:98-161 | for every parent, edge and database: without a window on the neighbours both agree iff every neighbour its predicates admit is listed by the traversal once if asked for, else never |
| AgreementByBuilder.KeysDecideIff | ent/chat_query.go:725-744 | for every parent, and every child with any predicates, order and limit: both agree for all contents of the neighbour table iff, for the keys the predicates admit, the returned rows have the keys that are joined on |
| AgreementByBuilder.AlwaysReachesAlike | ent/chat_query.go:670-746 | parents without a window, or with a positive limit under which nothing else repeats, reach every neighbour alike on every database |
| AgreementByBuilder.SameRowsReachAlike | ent/chat_query.go:670-746 | so do parents whose two translations denote the same rows on this database, unless the traversal drops repeated keys |
| Disagreement.UntranslatableWindow | ent/chat_query.go:737-744 | a limit of 0, or an offset alone, has a database that tells the two routes apart |
| Disagreement.RepeatedNodes | ent/chat_query.go:673-677 | so has a window on a traversal without a `Unique` setting |
| Disagreement.RepeatedKeys | ent/chat_query.go:725-727 | so has a window under `Unique(true)` along a held key |
| Disagreement.RepeatedNeighbours | ent/chat_query.go:673-677 | so have neighbours with `Unique(false)` where a key can be joined on twice |
| Disagreement.AgreesAlwaysIff | ent/chat_query.go:670-746 | over all databases and all parents of the same window, path and `Unique` setting, both routes agree iff the builders meet that condition |
| Disagreement.SharedGroupRepeats | ent/groupmember_query.go:69-88 | two members of one group: the traversal with `Unique(false)` lists the group twice |
| Disagreement.WindowSeesMoreGroups | ent/groupmember_query.go:69-88 | `Unique(true)` and `Limit(2)` on members: the traversal reaches a group that eager loading does not |
| Attachments.ListsArePartition | ent/groupchat_query.go:679-708 | over all nodes, the lists hold each linked neighbour exactly once, also when a node is returned several times |
| Attachments.LoadEdgeAttaches | ent/groupchat_query.go:618-708 | a loader never fails and attaches what its query returned |
| Attachments.MembersAgree | ent/groupchat_query.go:679-708 | `WithMembers` against `QueryMembers`: each group gets the order-preserving selection of the traversal by its id, and all lists together are the traversed members, each once |
| Attachments.MembersOfAll | ent/groupchat_query.go:518-585 | the same for the whole query with any other edges of distinct names: what `All` returns holds these member lists |
| Attachments.UniqueEdgeAgrees | ent/chat_query.go:598-624 | `WithGroupChat` against `QueryGroupChat`: each chat gets the last traversed neighbour with its id, the only one if the key column is unique, and every traversed neighbour belongs to a chat |
| Attachments.HeldEdgeAgrees | ent/groupchat_query.go:618-646 | `WithChat` against `QueryChat`: a node gets the traversed neighbour with its key, stays untouched without one, and every traversed neighbour reaches a node |
| Attachments.AccessorCases | ent/chat.go:66-97 | a unique-edge accessor gives the value iff requested and matched, NotFound iff requested without a match, NotLoaded iff not requested |
| EdgeLimits.BatchIsPerNode | ent/groupchat_query.go:679-708 | without offset and limit, sharing out one query gives each node what its own query would |
| EdgeLimits.WindowIsPerNodeIff | ent/groupchat_query.go:692-695 | offset and limit on the edge act per node iff the offset leaves nothing, or there is no offset and the limit is not reached, or the rows up to the end of the window have one owner and no other has more than the offset skips |
| EdgeLimits.LimitIsFairIff | ent/groupchat_query.go:692-695 | for a limit alone this means: it is not reached, or all neighbours have one owner |
| EdgeLimits.RerunIsFreshIff | ent/groupchat_query.go:692-694 | a builder run again against a changed database, with any window, finds what a fresh one would iff the offset leaves nothing or all rows up to the end of the window already belonged to its first keys |
| Projection.RowsProject | ent/groupmember_query.go:525-547 | the rows of a projected builder are the projections of the rows of the unprojected one, windows and repetitions included |
| Projection.ProjectionKeepsEdges | ent/groupchat_query.go:764-781 | for every selection of fields on every builder of the tree, the node tree has the same ids along the same edges, to every depth |
| HookStorage.Append | ent/client.go:330-332 | `append` writes only past the slice, in place while capacity lasts, into a new array otherwise |
| HookStorage.Client.constructor | ent/client.go:319-326 | a new client has no hooks and no snapshots |
| HookStorage.Client.Use | ent/client.go:330-332 | registers the hooks and leaves every snapshot as it was |
| HookStorage.Client.Create | ent/client.go:1623-1627 | the builder holds the hooks registered so far and then the schema hooks; the client's array is unchanged |
| HookStorage.Interleave | ent/client.go:1613-1627 | for every interleaving of `Use` and `Create` and every growth of arrays, each builder in the end reads the hooks of its creation time |
| HookStorage.UseSplits | ent/client.go:328-332 | `Use(f)` then `Use(g)` is `Use(f, g)` for every later builder |
| HookStorage.UnclippedSnapshotBreaks | ent/client.go:1757-1761 | without the clipped capacity, a later `Use` would overwrite the schema hook under a builder |
| BuilderClone.Local.Clone | ent/chat_query.go:342-361 | the copy of context, predicates, orders, modifiers and path reads the same and is fresh |
| BuilderClone.Local.Run | ent/chat_query.go:42-70 | each chainable call has its meaning, in place |
| BuilderClone.Builder.constructor | ent/chat_query.go:346-361 | a builder made of separate parts reads as those parts |
| BuilderClone.Builder.Clone | ent/groupchat_query.go:367-387 | the copy of the builder tree terminates, denotes the same query and shares no object with the original |
| BuilderClone.Builder.CloneOf | ent/groupchat_query.go:368-370 | the copy of a nil builder is nil |
| BuilderClone.Builder.Run | ent/groupmember_query.go:313-333 | every call, `With` and its options included, changes the denoted query as specified |
| BuilderClone.Builder.RunAll | ent/chat_query.go:42-70 | the same for every sequence of calls; and the builder then reads as the last call or all calls on each part say |
| BuilderCalls.ReadsIff | ent/chat_query.go:42-70 | for any calls, exactly one tree fits: limit, offset and `Unique` as the last call on them says (a lock on Postgres counts as `Unique(false)`), predicates and orders appended in call order, one modifier a lock, under each edge the builder that the last `With` configured |
| BuilderRows.CallsReturn | ent/chat_query.go:670-712 | what a builder returns after any calls: the rows that meet all predicates of all `Where` calls, sorted by the terms of all `Order` calls in call order, the window of the last `Limit` and `Offset` |
| BuilderClone.RunApart | ent/groupmember_query.go:294-311 | a call on one builder leaves a builder that shares nothing with it unchanged |
| BuilderClone.CloneAndDiverge | ent/chat_query.go:342-361 | after `Clone`, any interleaving of calls on the two leaves each as if the other had not been touched |
| EdgePlan.Mutation.constructor | ent/mutation.go:2268-2273 | a new mutation plans nothing for the edge |
| EdgePlan.Mutation.AddReportIDs | ent/mutation.go:2222-2229 | adds every id to the pending additions |
| EdgePlan.Mutation.RemoveReportIDs | ent/mutation.go:2242-2250 | withdraws pending additions of the ids and records their removal |
| EdgePlan.Mutation.ClearReports | ent/mutation.go:2232-2234 | records the clear, and nothing else |
| EdgePlan.Listing | ent/mutation.go:2261-2266 | ranging over the set gives every id once |
| EdgePlan.Mutation.Plan | ent/groupchat_update.go:1087-1131 | at most one clear step (whole edge, or the removed ids) and at most one add step, with exactly the pending ids |
| EdgePlan.PlanIsSetAlgebra | ent/groupchat_update.go:1087-1131 | the update succeeds iff every added report is free after the clears; then the group has (cleared ? none : old minus removed) plus added, other groups and reports not named are unchanged |
| EdgePlan.OrderIsKept | ent/mutation.go:2222-2250 | without a clear, adds and removes have their effect in call order |
| EdgePlan.LastCallDecides | ent/groupchat_update.go:1087-1131 | after a successful update, for any calls: a report is in the group iff the last call that names it adds it, or none names it, nothing was cleared, and it was in the group before |
| EdgePlan.ClearKeepsEarlierAddsIff | ent/mutation.go:2232-2234 | with a clear, the update agrees with the calls read in order iff every id pending at the clear is named again later |
| Codec.ScanValues | ent/groupmember.go:75-92 | one target per column, chosen by the column |
| Codec.Target.AssignValues | ent/groupmember.go:96-150 | too few values or a wrong type is an error; otherwise fields are assigned column by column and unknown columns are kept in `selectValues` |
| Codec.LastSelected | ent/groupmember.go:146-147 | of an unknown column that is read several times, the last value is kept |
| Codec.DecodeShows | ent/groupmember.go:75-150 | for lawful switches and any list of columns, decoding succeeds and the node shows the row in those columns and is zero elsewhere |
| Members.Defaults | ent/groupmember_create.go:155-172 | afterwards id, role, joined_at and unread_count are set |
| Members.DefaultsFillGaps | ent/groupmember_create.go:155-172 | defaults never replace what the caller set; a missing role becomes "member", joined_at the current time, unread_count 0, the id a new one; running them twice changes nothing |
| Members.SaveableIff | ent/groupmember_create.go:155-203 | after the defaults, the check passes iff group, user and, if given, a known role are there; the error names the first that fails |
| Members.CheckIff | ent/groupmember_create.go:175-203 | the check of any contents names the first required field that is missing or invalid |
| Members.StoresWhatIsSet | ent/groupmember_create.go:228-289 | the stored row holds, column by column, what the mutation holds, and NULL exactly where it holds nothing |
| Members.SwitchesAreLawful | ent/groupmember.go:75-150 | the scan switch and the assign switch of GroupMember fit on every column |
| Members.AssignFailsIff | ent/groupmember.go:96-150 | assigning a row fails iff some value does not have the type of the scan target of its column |
| Members.CreateThenScan | ent/groupmember_create.go:228-289 | every mutation that passes its check: scanning the described row in any column order gives exactly the node the create returned, and each of its fields is what the mutation holds |
| Chats.Defaults | ent/chat_create.go:212-225 | afterwards id, created_at and updated_at are set and the type is untouched |
| Chats.DefaultsFillGaps | ent/chat_create.go:212-225 | a missing id becomes a new one and missing times the current time, everything else stays |
| Chats.SaveableIff | ent/chat_create.go:212-244 | after the defaults, the check passes iff a known type was given |
| Chats.CheckIff | ent/chat_create.go:228-244 | the check of any contents names the first required field that is missing or invalid |
| Chats.StoresWhatIsSet | ent/chat_create.go:269-365 | the stored row holds, column by column, what the mutation holds, and NULL exactly where it holds nothing |
| Chats.SwitchesAreLawful | ent/chat.go:100-177 | the two switches of Chat fit on every column, the nullable key included |
| Chats.AssignFailsIff | ent/chat.go:118-177 | assigning a row fails iff some value does not have the type of the scan target of its column |
| Chats.CreateThenScan | ent/chat_create.go:269-365 | the same round trip for Chat, NULL matching nil |
| Upserts.Upsert.constructor | ent/groupmember_create.go:228-233 | a create starts without conflict options |
| Upserts.Upsert.OnConflict | ent/groupmember_create.go:307-312 | replaces the conflict options |
| Upserts.Upsert.OnConflictColumns | ent/groupmember_create.go:320-325 | appends the conflict target |
| Upserts.Upsert.UpdateNewValues | ent/groupmember_create.go:423-434 | appends the new values and the deferred closure |
| Upserts.Upsert.Update | ent/groupmember_create.go:456-461 | appends an override |
| Upserts.Upsert.Exec | ent/groupmember_create.go:548-553 | an error without options; else defaults, hooks, check, and then the options in order, merged into the conflicting row |
| Upserts.LastWordDecides | ent/groupmember_create.go:307-312 | for any list of options, the last one that says something about a column decides about it |
| Upserts.UpdateNewValuesResult | ent/groupmember_create.go:423-434 | wherever it stands, followed by overrides: fixed columns of the conflicting row survive every proposal and every earlier option; any other column takes its last later override (literal, counter step, proposed or stored value), else the proposed value; a column that is not proposed takes its last earlier override, or stays |
| Upserts.MemberUpsert | ent/groupmember_create.go:423-434 | GroupMember keeps id and joined_at although the caller may have set neither |
| Upserts.MemberUpsertOverrides | ent/groupmember_create.go:407-410 | `AddUnreadCount` adds to the stored counter on top, while role takes the proposal and a last_read_at that nothing sets stays |
| Upserts.ChatUpsert | ent/chat_create.go:493-507 | Chat keeps id, created_at and type whenever the create passes its check |
| Upserts.EarlyLookIff | ent/groupmember_create.go:425-432 | looking at the mutation when `UpdateNewValues` is called would keep a fixed column iff the caller had set it or the values agree anyway |

## Left out

- Services around the data layer (outbox relay, Redis streams, push, scheduler, gateway), group roles, mute rules and cursor pagination: their logic is not in `ent/`.
- Other entities, delete builders, the `X` wrappers, `String`, aggregations, `GroupBy` and `Count`: the same template, or decided inside the SQL library.
- Interceptors, `prepareQuery` and its column validation, contexts, transactions and client dispatch.
- Negative limits and offsets, which the SQL library passes to the database.
- Nil mutation pointers and nil hooks in a bulk create, which panic in Go.
- What a hook does to the database on its own, and calls of `next` after the hook has returned or from other goroutines.
- What the constructor of a hook does before the mutator it builds is called.
- Conflict options of a bulk create, and of a PrivateChat create: an upsert can rewrite the users of a stored row. The `Set…ToNull` and `Clear…` overrides of an upsert.
- One-to-many edges of Chat and the private or group chat named in its create: they are written to other tables than the row that is read back.
- The codec of GroupChat: the same two switches with more columns.
- BuilderClone.Local.Clone: the interceptor list and the selected fields of a builder are copied like its other slices and not modelled as separate arrays.
- BuilderClone.Builder.Clone: a builder has two edge slots here; further slots are copied and separated in the same way. The intermediate selector `sql` is rebuilt before every run and is not modelled.
- Agreement.EagerIsTraversal: field selection on the neighbours is left to `Projection.ProjectionKeepsEdges`, which relates a builder to the one without selection.
- AgreementByBuilder.KeysDecideIff: for neighbour tables that the parent does not read, and children without an offset, which may hide any difference.
- Disagreement.AgreesAlwaysIff: for children that take everything; `AgreementByBuilder.AlwaysReachesAlike` covers all children in one direction.
- BulkValidation.AlwaysValidIff: for builders that are distinct objects; a builder passed twice fails its second check after a substitution.
- Upserts.Upsert.Exec: the case of a conflicting row; without a conflict the row is inserted as proposed, which is `Members.CreateThenScan`.
- Integer width of counters and of the foreign key columns.
