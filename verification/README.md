# Requirements-analysis backend: verified model

A Dafny model of the algorithms and state protocols inside the services of an LLM requirements-analysis
backend, with proofs of what they promise. `dafny verify dfyconfig.toml` checks all of it.

| Component | Modules |
|---|---|
| Structured output: strict-mode schema rewriting, JSON recovery, Gemini conversion | `JsonSchema`, `SchemaMeaning`, `JsonRecovery`, `GoogleContents`, `GoogleParts` |
| Artifact graph: acyclic links, nearest-first ancestors | `Graphs`, `ArtifactPolicy`, `ArtifactLinks` |
| Version store, lifecycle reports, approval guards | `LifecycleResolver`, `ArtifactStore`, `StoreEffects`, `VersionHistory`, `Lifecycle`, `ProposalContext`, `ArtifactService` |
| Checkpoint slot and resume ids | `Checkpointer` |
| Bounded reducers | `Recency`, `StateReducers` |
| Decision graph and its two projections | `DecisionGraph`, `DecisionImpact`, `DecisionSweep`, `DecisionHistory`, `DecisionView`, `ViewAgreement`, `ViewText` |
| Markdown table printer and parser | `MarkdownTable` |
| Analyst loop and message queue | `TurnLoop`, `MessageQueue` |

Objects whose methods update rows are classes (`LinkService`, `Service`, `Slot`, `Converter`, `Session`); each
method is proved to compute an operation on values; what each operation means is stated without naming it, and runs,
refinements and round trips are proved about it. Loops stay loops. A locked database transaction is one atomic step; ids of new rows are taken in
order; `json.loads`, the model, the tools and the human are parameters or events.

## What the proofs found

Each of these is a statement the code does not meet as one might state it; the named lemmas give a concrete input
and the exact condition.

- Dropping optional nulls does not always lead back to the original schema: an object enumeration that contains
  nulls is left (`UnstableEnumIsLeft`), and in the all-required mode a `required` name outside `properties` is
  forgotten (`UndeclaredRequirementIsLost`). `NormalizeIsSound` is exact about both. An optional property without
  a type accepts only null (`UntypedOptionalAcceptsOnlyNull`).
- A recovered object that satisfies the requested schema can still be refused, because the schema is closed before
  the check (`ExtraKeyIsRefused`, exact in `WrappedObjectIsParsed`).
- An unsigned fallback call without an id is left out while its response is sent
  (`UnsignedCallWithoutIdLeavesItsResponse`, exact in `ResponsesFollowTheirCalls`). The analyst path does not
  produce such a call: app/graphs/analysis/turn_audit.py:256 and :264 give every dispatched call an id built from
  the run id, and the other callers of the clients send no tool calls. It is a property of the converter alone.
- The archive check compares the text of `based_on` keys, the resolver parses them as UUIDs: a key in another
  spelling lets an archive orphan a live artifact (`VariantSpellingSlipsThrough`, exact in `ArchiveKeepsReports`).
  The code records `str(id)`; another spelling can come with the free-form metadata of a create or update request
  (app/schemas/artifact.py:33 and :46).
- A proposal that names the item it proposes among its own predecessors, at the item's current version, passes both
  guards and is stale the moment it is persisted (`SelfBasedIsStale`, exact in `ApprovalIsUpToDate`); at any other
  version the guard turns it down (`SelfEntryIsTheBase`). The code does not record such an entry: the only writer of
  a proposal's `based_on` (app/graphs/agent_tools/draft_lifecycle.py:133-144) takes artifacts of ancestor types, and
  the predecessor map is acyclic, so that its proposals are never stale on approval (`RecordedApprovalIsNeverStale`).
  It is a property of the guards alone.
- Merging two copies of the decision graph keeps history only if the right copy agrees on superseded nodes
  (`MergeLosesHistory`, exact in `MergeKeepsHistory`), although the documentation of the reducer calls the graph
  non-destructive. Nothing under app/ supersedes a node, since `update_node` has no caller there; only a
  restored legacy checkpoint can hold one.
- With a limit of zero or less, the sweep still returns one question if any gap is open (`ZeroLimitIsPassed`, exact in
  `SweepKeepsLimit`). The only call (app/graphs/nodes.py:558) leaves the limit at its default of 5.
- A node of a kind outside the valid ones is rendered nowhere and mapped nowhere in a container view
  (`SomeNodeIsDropped`, exact in `ViewAgreesWithMap` and `SectionLayouts`); `create_node` does not check the kind. All
  its calls (app/graphs/decision_graph.py:132, :139, :267; app/graphs/agent_tools/notes.py:62, :67) pass a valid one,
  so that only a restored legacy checkpoint can hold such a node.
- A turn that failed at its tools is taken up again with their calls still open, and no later step closes them
  (`ToolFailureLeavesCallOpen`, exact in `LoopIsBoundedAndClosed` and `FailedTurnLeavesCallsOpen`).
- A queued message whose drain takes up a failed turn loses its mode hint (`CrashLosesHint`, exact in
  `HintIsReplayed`), although the documentation of the queue says a drained turn replays it.

## Model

| member | source | states |
|---|---|---|
| SchemaMeaning.NullableMeaning | app/services/llm_clients.py:1238-1250 | The nullable form of a schema accepts null, and accepts any other value exactly when the original does and carries a type. |
| SchemaMeaning.RewrittenMeaning | app/services/llm_clients.py:1213-1228 | What a declared property accepts after rewriting, in each of the three modes of treating `required`. |
| SchemaMeaning.RewrittenObjectMeaning | app/services/llm_clients.py:1208-1229 | A rewritten object schema accepts an object exactly when it has the required keys, no undeclared key, and each declared value is accepted. |
| SchemaMeaning.NormalizeIsSound | app/services/llm_clients.py:1206-1250 | In either mode, a value the rewritten schema accepts satisfies the original once optional nulls are dropped, if and only if the enumerations still list it and, in the all-required mode, `required` names declared properties only at every object of the value the rewriter reaches. |
| SchemaMeaning.StrictReplySatisfiesOriginal | app/services/llm_clients.py:1206-1250 | With enumerations stable under dropping nulls, dropping optional nulls from an accepted value gives a value of the original schema if and only if the all-required mode forgot no requirement of it; validation mode never does. |
| SchemaMeaning.RequiredDeclaredEverywhere | app/services/llm_clients.py:1216-1219 | A schema whose `required` stays inside `properties` at every level forgets no requirement of any value. |
| SchemaMeaning.NormalizeAcceptsExactly | app/services/llm_clients.py:1206-1250 | A value of the original schema, filled with nulls, is accepted after rewriting if and only if it uses declared keys only, its non-null optional values are typed, and its enumerations list the filled value. |
| SchemaMeaning.FillUndoesStrip | app/services/llm_clients.py:1206-1250 | In the all-required mode, for every schema, filling undoes dropping on every accepted value: no information is lost. |
| SchemaMeaning.UntypedOptionalAcceptsOnlyNull | app/services/llm_clients.py:1238-1250 | An optional property without a type accepts nothing but null after rewriting. |
| SchemaMeaning.UndeclaredRequirementIsLost | app/services/llm_clients.py:1216-1219 | An input outside that condition: the all-required mode accepts a value that the original rejects. |
| SchemaMeaning.UnstableEnumIsLeft | app/services/llm_clients.py:1238-1250 | An object enumeration with nulls: an accepted value leaves the enumeration when its null is dropped. |
| SchemaMeaning.CheckedReply | app/services/llm_clients.py:1195-1203 | A reply that passes the validation schema satisfies the requested schema once optional nulls are dropped; only object schemas without properties go unchecked. |
| SchemaMeaning.CheckAcceptsExactly | app/services/llm_clients.py:1195-1203 | Of the values the requested schema accepts, the reply check lets by exactly those with declared keys only, types on non-null optional values, and unchanged enumerations; an object schema without properties checks nothing. |
| SchemaMeaning.ExtraKeyIsRefused | app/services/llm_clients.py:1195-1203 | An input outside that condition: a value the requested schema accepts and the check refuses, for an undeclared key. |
| JsonRecovery.ExtractJsonObject | app/services/llm_clients.py:1112-1142 | The scanning loop returns the shortest balanced stretch from the first brace, as `Recovered` defines it. |
| JsonRecovery.RecoveredIsShortestBalanced | app/services/llm_clients.py:1112-1142 | The result is balanced outside string literals, no shorter prefix from the first brace is, and None means there is no brace or no prefix from it balances. |
| JsonRecovery.RecoveryIsExact | app/services/llm_clients.py:1112-1142 | For every JSON object in every layout RFC 8259 allows, any prefix without an opening brace and any suffix, exactly the text of the object comes back. |
| JsonRecovery.PassesLayout | app/services/llm_clients.py:1124-1141 | The scanner walks over any printed JSON value and returns to the state it entered in, never below its depth. |
| JsonRecovery.ParseGenerateText | app/services/llm_clients.py:1085-1109 | Without a schema the text itself comes back. Otherwise the stripped text is loaded or, failing that, the recovered object: not JSON exactly when neither loads; a value that is no object is refused; an object is returned exactly when nothing checks it or the rewritten schema accepts it, which for a value of the requested schema means that it is expressible. |
| JsonRecovery.WrappedObjectIsParsed | app/services/llm_clients.py:1085-1109 | An object that satisfies the requested schema, wrapped in prose that is not itself JSON, is always recovered; it is returned if that schema has no properties to check or the object is expressible once the schema is closed, and refused as a mismatch otherwise. |
| JsonRecovery.FenceIsDropped | app/services/llm_clients.py:1145-1151 | For every content between fences, with any outer white space, the stripped content is left, without a `json` tag if it opens with one. |
| JsonRecovery.UnfencedIsStripped | app/services/llm_clients.py:1145-1151 | Text that does not both open and close with a fence only loses its outer white space. |
| JsonRecovery.FencedObjectIsRead | app/services/llm_clients.py:1145-1151 | A fenced JSON object comes back whole. |
| JsonRecovery.ParsedReplySatisfiesSchema | app/services/llm_clients.py:1085-1109 | Whatever the parser lets through satisfies the requested schema once optional nulls are dropped. |
| GoogleContents.Converter.Parts | app/services/llm_clients.py:1521-1571 | The parts of one message, and the shared id set after it, as functions of the blocks and the set before it; `MessageIsSentAs` says what those parts are. |
| GoogleContents.GoogleContents | app/services/llm_clients.py:1574-1582 | The conversion of a conversation threads one id set through all its messages; `MessageIsSentAs` and `ConversionKeepsTexts` say what is sent. |
| GoogleParts.MessageIsSentAs | app/services/llm_clients.py:1518-1582 | Each message goes out as its role, an assistant as a model, with exactly the parts its blocks are sent as, in order, each with all its fields: a text as itself, an unsigned fallback call as its stripped message, a result with an id that answers such a call anywhere before it as its content, every other call and result as what it is; a message without parts as one empty text. |
| GoogleParts.ConversionKeepsTexts | app/services/llm_clients.py:1518-1582 | Over the whole conversation the texts sent that are not empty are, in order, the texts of the text blocks, the stripped messages of unsigned fallback calls, and the contents of the results with an id that answer such calls. |
| GoogleContents.ContentsShape | app/services/llm_clients.py:1571-1582 | One content for each message, in its mapped role, never without parts. |
| GoogleContents.SharedSetIsPrefix | app/services/llm_clients.py:1536-1543 | After any prefix of the conversation the shared set holds exactly the ids of its unsigned fallback calls. |
| GoogleContents.PrefixDecidesAsWhole | app/services/llm_clients.py:1521-1582 | Deciding with the ids seen so far agrees with deciding on the whole conversation. |
| GoogleContents.ConversionKeepsExchange | app/services/llm_clients.py:1518-1582 | The calls and responses sent are those of the conversation in order, without unsigned fallback calls and the responses to them. |
| GoogleContents.NoUnsignedIdIsSent | app/services/llm_clients.py:1518-1582 | No id of an unsigned fallback call appears on either side of what is sent. |
| GoogleContents.ResponsesFollowTheirCalls | app/services/llm_clients.py:1518-1582 | With distinct ids among the calls that have one, every response sent has its call before it if and only if each result without an id comes after a call without one that is sent; results with an id never fail. |
| GoogleContents.IdlessFallbackDecides | app/services/llm_clients.py:1536-1549 | With at most one call without an id, that condition says: no result answers an unsigned fallback call without an id. |
| GoogleContents.UnsignedCallWithoutIdLeavesItsResponse | app/services/llm_clients.py:1541-1543 | An input outside that condition: an unsigned fallback call without an id is left out and its response is sent alone. |
| ArtifactPolicy.AncestorTypes | app/graphs/policy.py:63-81 | For any predecessor map, cyclic or not: exactly the transitive predecessors, each once, in non-decreasing shortest distance; the type itself is among them if and only if it lies on a cycle. |
| ArtifactLinks.HasLinkPath | app/services/artifact_service.py:489-520 | The queue search, whose nodes may wait more than once, terminates and is true exactly when links lead from target to source. |
| ArtifactLinks.BuildAdjacency | app/services/artifact_service.py:506-508 | The adjacency map has exactly the edges of the link rows of the project. |
| Graphs.EdgeKeepsAcyclic | app/services/artifact_service.py:482-483 | Adding an edge keeps a graph acyclic if and only if its end does not reach its start. |
| ArtifactLinks.CreateKeepsSound | app/services/artifact_service.py:435-487 | Creating a link keeps every project acyclic with at most one link per unordered pair. |
| ArtifactLinks.DeleteKeepsSound | app/services/artifact_service.py:863-869 | So does deleting one. |
| ArtifactLinks.RunKeepsSound | app/services/artifact_service.py:435-520 | Every sequential run of creations and deletions keeps every project acyclic with at most one link per unordered pair. |
| ArtifactLinks.AcceptedIffStaysAcyclic | app/services/artifact_service.py:435-487 | A new pair within a project is accepted if and only if the graph stays acyclic: the check refuses nothing it could allow. |
| ArtifactLinks.AcceptedMeaning | app/services/artifact_service.py:435-487 | A creation is accepted if and only if a member asks for a link between two different artifacts of the project that no link joins yet, and the graph stays acyclic. |
| ArtifactLinks.RunKeepsNumbered | app/services/artifact_service.py:435-487 | Over every run link ids stay distinct. |
| ArtifactLinks.WithoutOne | app/services/artifact_service.py:863-869 | So a deletion takes out one row and leaves the others in place. |
| ArtifactLinks.LinkService.CreateLink | app/services/artifact_service.py:435-487 | The link row, with the next id and all fields as asked, is appended, or the table is unchanged and the first failing check is reported. |
| ArtifactLinks.LinkService.DeleteLink | app/services/artifact_service.py:863-869 | Exactly the one named row is removed, or the table is unchanged with the error given. |
| LifecycleResolver.BlockingRequiredPredecessors | app/graphs/lifecycle_resolver.py:172-183 | The loop collects the kinds of the unsatisfied predecessors, in order. |
| LifecycleResolver.BlockingMeaning | app/graphs/lifecycle_resolver.py:172-183 | Exactly the kinds are blockers that some predecessor of the kind leaves unsatisfied: not found, not accepted or without a version. |
| LifecycleResolver.ResolveMeaning | app/graphs/lifecycle_resolver.py:83-151 | The state of any artifact, in the order its reasons are tried, and the blockers named exactly when it is blocked. |
| Lifecycle.AcceptedReport | app/graphs/lifecycle_resolver.py:119-151 | For an accepted artifact: exactly when it is reported orphan, stale, blocked or current, in terms of the stored rows. |
| Lifecycle.HasAcceptedMeaning | app/services/artifact_service.py:563-590 | A kind counts as accepted when some artifact of exactly this kind is accepted at a version. |
| Lifecycle.VerdictMeaning | app/graphs/lifecycle_resolver.py:83-151 | The whole verdict of any artifact, accepted or not, in the order its reasons are tried, with the kinds that lack an accepted artifact named exactly when it says blocked. |
| Lifecycle.LiveEntries | app/services/artifact_service.py:92-96 | The `based_on` entries a report looks at are those of the current version with neither side blank. |
| Lifecycle.CurrentMeaning | app/services/artifact_service.py:522-616 | Current holds if and only if the artifact is accepted at a version, every kind reachable over predecessor edges has an accepted version, and every `based_on` entry names a live artifact at its current version. |
| Lifecycle.ArchiveKeepsReports | app/services/artifact_service.py:309-348 | After a successful archive every other live artifact keeps its state, except that missing or current may become blocked; one turns orphan if and only if it was, or is accepted and names the archived artifact in a spelling the dependency check does not compare. |
| Lifecycle.ArchivedNamedOnlyInVariant | app/services/artifact_service.py:402-433 | An artifact left live by a successful archive names the archived one in a variant spelling, if at all. |
| Lifecycle.ArchivedHasNoLiveUsers | app/services/artifact_service.py:329-348 | Right after an archive no live artifact links to the archived one, hangs under it, or names it in its own spelling; its current version stays. |
| Lifecycle.EditsKeepStatus | app/services/artifact_service.py:222-292 | Over any run of edits and restores archived artifacts do not change, accepted ones stay accepted, and none becomes archived. |
| Lifecycle.VariantSpellingSlipsThrough | app/services/artifact_service.py:423-431 | A concrete store in which an archive succeeds and turns a current artifact orphan. |
| Lifecycle.ApprovalEffects | app/services/agent_service.py:462-556 | What an approval that passes both guards changes in the store, and what it leaves alone. |
| Lifecycle.ApprovalIsUpToDate | app/services/agent_service.py:484-552 | Right after a guarded approval the item is reported stale if and only if its proposal is based on the item itself; otherwise it is current, or blocked by its structure. |
| Lifecycle.SelfBasedIsStale | app/services/agent_service.py:889-955 | An input for it: a proposal based on the item it proposes, at its current version, passes both guards and is stale at once. |
| Lifecycle.SelfEntryIsTheBase | app/services/agent_service.py:889-955 | Only so: an entry for the item itself passes the guard if it names the version the proposal replaces. |
| ProposalContext.ProposalBasedOn | app/graphs/agent_tools/draft_lifecycle.py:135-144 | The recorded predecessors are the context items with an id, a version and an ancestor kind, later ones over earlier ones. |
| ProposalContext.EntriesMeaning | app/graphs/agent_tools/draft_lifecycle.py:135-144 | There is an entry for exactly the ids of context items of ancestor types with an id and a version, at the version of the last such item. |
| ProposalContext.PredecessorsAcyclic | app/graphs/policy.py:37-60 | The predecessor map of the artifact types is acyclic: no type is its own ancestor. |
| ProposalContext.RecordedNamesAncestors | app/graphs/agent_tools/draft_lifecycle.py:135-144 | Over any predecessor map: whatever stored artifact a recorded entry names, in whatever spelling, is of an ancestor type of the item. |
| ProposalContext.ApprovalIsNeverStale | app/services/agent_service.py:484-552 | Over any acyclic predecessor map, an approved proposal that names ancestors only is current, or blocked by its structure, never stale or orphan. |
| ProposalContext.RecordedApprovalIsNeverStale | app/graphs/agent_tools/draft_lifecycle.py:135-144 | So is every approved proposal whose predecessors were recorded by `ProposalBasedOn` over the map of the code, in a context that gives each stored artifact its own type. |
| VersionHistory.ChainMeaning | app/services/document_service.py:110-127 | Following parents from a version stays in its artifact, has exactly as many versions as its number, and ends at a parentless version 1. |
| VersionHistory.CreateKeepsSound | app/services/artifact_service.py:124-170 | Creating an artifact with its first version keeps the history sound. |
| VersionHistory.UpdateKeepsSound | app/services/artifact_service.py:222-272 | Editing keeps it sound, given the unique constraint on version numbers. |
| VersionHistory.RestoreKeepsSound | app/services/artifact_service.py:274-292 | Restoring keeps it sound: the current version stays a version of its artifact. |
| VersionHistory.ArchiveKeepsSound | app/services/artifact_service.py:309-348 | Archiving keeps it sound. |
| VersionHistory.ReviewKeepsSound | app/services/artifact_service.py:749-783 | Reviewing keeps it sound, terminal versions and artifacts included. |
| VersionHistory.UpsertKeepsSound | app/services/document_service.py:407-476 | Upserting an item keeps it sound, slot reservations included. |
| VersionHistory.ApproveKeepsSound | app/services/agent_service.py:462-556 | Approving keeps it sound, whichever guard turns the proposal down. |
| VersionHistory.ProposedCallHasNoVersion | app/services/agent_service.py:503-552 | A call that is still proposed has left no version behind: version and executed mark are committed together. |
| VersionHistory.ReplayAddsNothing | app/services/agent_service.py:472-474 | Approving a call again, whatever the guards would say now, changes nothing. |
| VersionHistory.ReplayFindsVersion | app/services/document_service.py:86-108 | Creating a version for a call that has one, whatever item is asked for now, leaves the versions alone and makes the found one current and accepted in its own artifact. |
| VersionHistory.CreatingTwiceAddsOnce | app/services/document_service.py:86-145 | Hence creating twice for one call succeeds and adds at most one version. |
| VersionHistory.RunKeepsSound | app/services/artifact_service.py:124-348 | Every run of all operations keeps parent links, number uniqueness, pointers and call ownership. |
| VersionHistory.EveryRun | app/services/document_service.py:71-145 | From the empty store, after any run: every parent chain is complete, current versions belong to their artifacts, and a tool call has at most one version. |
| StoreEffects.CreateMeaning | app/services/artifact_service.py:124-170 | Which check refuses a creation, and otherwise the two rows it adds, field by field, everything else unchanged. |
| StoreEffects.TransitionMeaning | app/services/artifact_service.py:55-61 | The four status changes an edit may make. |
| StoreEffects.UpdateMeaning | app/services/artifact_service.py:222-272 | Which check refuses an edit, and otherwise the version it adds and the artifact it leaves: what the edit omits is taken from the current version, the metadata from the artifact; everything else unchanged. |
| StoreEffects.RestoreMeaning | app/services/artifact_service.py:274-292 | Which check refuses a restore, and otherwise that only the pointer and the title follow the restored version. |
| StoreEffects.UsersMeaning | app/services/artifact_service.py:402-433 | Who uses an artifact: the live artifacts that link to it, hang under it, or name it, in its own spelling, in their current version. |
| StoreEffects.ArchiveMeaning | app/services/artifact_service.py:309-348 | Which check refuses an archive, in use exactly when someone uses it, and otherwise that only the statuses of the artifact and of its current version change. |
| StoreEffects.ReviewMeaning | app/services/artifact_service.py:749-822 | What a review of each outcome does to the status of the version and to status, pointer and title of the artifact, terminal versions and artifacts included; everything else unchanged but the review row. |
| StoreEffects.RecomputeMeaning | app/services/document_service.py:251-273 | Recomputing touches the status of the container alone, accepted exactly when each kind of the registry has an item with a version in it. |
| StoreEffects.UpsertMeaning | app/services/document_service.py:407-476 | Which check refuses an upsert, when it only reserves the slot, and otherwise the item row and the version it leaves, field by field. |
| StoreEffects.ApproveMeaning | app/services/agent_service.py:462-556 | Every way an approval ends, in the order of its checks: refused as it is, refused and superseded, or persisted. |
| StoreEffects.PersistedMeaning | app/services/document_service.py:110-145 | What a persisted approval leaves: the version the proposal asked for after the current one, the item accepted at it under its title, and the call executed. |
| StoreEffects.FoundMeaning | app/services/document_service.py:86-108 | What the version of an earlier run leaves when it is found again: its artifact accepted at it, under its title unless that is empty; everything else unchanged. |
| StoreEffects.RejectMeaning | app/services/agent_service.py:558-581 | Every way a rejection ends. |
| ArtifactService.Service.InsertVersion | app/services/document_service.py:115-130 | The inserted row follows the current version in number and parent, and becomes current. |
| ArtifactService.Service.RecomputeParentAcceptance | app/services/document_service.py:251-273 | The container is accepted exactly when each expected kind has a versioned child, and nothing else changes. |
| ArtifactService.Service.StoreItem | app/services/document_service.py:421-447 | The item row is inserted, or the existing one is overwritten in status, title and metadata. |
| ArtifactService.Service.UpsertItem | app/services/document_service.py:407-476 | The whole new store and error of an upsert, with the history kept sound. |
| ArtifactService.Service.CreateItemVersion | app/services/document_service.py:71-145 | The whole new store of a version created for a tool call, or of the replay that finds the version of an earlier run. |
| ArtifactService.Service.CreateArtifact | app/services/artifact_service.py:124-170 | The whole new store and error, the membership check first, of a creation, the registry check for items included. |
| ArtifactService.Service.UpdateArtifact | app/services/artifact_service.py:222-272 | The whole new store and error, the membership check first, of an edit, status transitions included. |
| ArtifactService.Service.RestoreVersion | app/services/artifact_service.py:274-292 | The whole new store and error, the membership check first, of a restore. |
| ArtifactService.Service.ArchiveArtifact | app/services/artifact_service.py:309-348 | The whole new store and error, the membership check first, of an archive, downstream users included. |
| ArtifactService.Service.ReviewArtifactVersion | app/services/artifact_service.py:749-822 | The whole new store and error of a review, the kept review row included; `ReviewMeaning` says what each outcome does. |
| ArtifactService.Service.GuardLifecyclePredecessors | app/services/agent_service.py:888-958 | The guard collects exactly the entries that no longer hold, each with its first reason, which is so. |
| ArtifactService.Service.ApproveToolCall | app/services/agent_service.py:462-556 | The whole new store and error of an approval, superseded proposals included. |
| ArtifactService.Service.RejectToolCall | app/services/agent_service.py:558-581 | The whole new store and error of a rejection. |
| ArtifactService.Service.RequiredPredecessors | app/services/artifact_service.py:563-590 | One snapshot for each ancestor kind: of the accepted artifact created first, or of none. |
| ArtifactService.Service.LifecycleReport | app/services/artifact_service.py:522-616 | The report computed over breadth-first ancestors and stored rows is the specified one, and says current exactly when every reachable kind is accepted and every `based_on` entry matches. |
| Checkpointer.Slot.constructor | app/graphs/checkpointer.py:57-67 | The empty slot refines the empty log. |
| Checkpointer.Slot.APut | app/graphs/checkpointer.py:69-96 | Putting a checkpoint keeps the slot a refinement of the abstract log extended by the put. |
| Checkpointer.Slot.APutWrites | app/graphs/checkpointer.py:121-139 | Recording appends one row for each write, in order, with its task, channel and value and the configured or else current checkpoint id, and keeps the slot a refinement of the log extended by those rows. |
| Checkpointer.Slot.AGetTuple | app/graphs/checkpointer.py:98-119 | Reading yields, in order, exactly the writes tagged with the current checkpoint that were recorded since the last put of another one. |
| Checkpointer.Slot.PendingInterruptIds | app/services/agent_service.py:1356-1385 | The two reversed loops return the distinct interrupt ids of the visible writes of the current checkpoint, each at its last occurrence. |
| Checkpointer.ResumeAnswersCurrentCheckpoint | app/services/agent_service.py:1356-1385 | Those ids are distinct and are exactly the ids carried by writes tagged with the current checkpoint since the last put of another: a superseded interrupt never reaches a resume. |
| Checkpointer.RecordedInterruptIsPending | app/services/agent_service.py:1356-1385 | Each id of an interrupt recorded under the current checkpoint is among the ids a resume answers. |
| Checkpointer.PutKeepsOwnWrites | app/graphs/checkpointer.py:83-86 | Putting a checkpoint keeps the writes recorded ahead for it, and no others. |
| Checkpointer.SinceOtherMeaning | app/graphs/checkpointer.py:83-86 | The stretch of the log that counts starts right after the last put of another checkpoint, or at the beginning. |
| StateReducers.MergeSourceContext | app/graphs/state.py:158-174 | The reducer keeps the last twelve of the distinct keys loaded since the last reset. |
| StateReducers.SourceContextBatches | app/graphs/state.py:158-174 | Merging in batches gives what merging at once gives, for all lists, reset markers included. |
| StateReducers.SourceContextMeaning | app/graphs/state.py:150-174 | The keys since the reset each survive once, at their latest entry, in order of last load, and the result is the last twelve. |
| StateReducers.SinceResetMeaning | app/graphs/state.py:163-168 | What counts starts right after the last reset marker, or at the beginning. |
| StateReducers.SourcesMeaning | app/graphs/state.py:150-174 | No two entries of a result are about the same source, and each source loaded since the reset is there unless twelve later ones pushed it out. |
| StateReducers.KeyMeaning | app/graphs/state.py:150-155 | Entries share a key exactly when they name the same document or, naming none, the same predecessor version. |
| StateReducers.MergeToolErrors | app/graphs/state.py:180-194 | The backward loop keeps the entries with fewer than three later ones of their code. |
| StateReducers.ToolErrorsBatches | app/graphs/state.py:180-194 | Merging in batches gives what merging at once gives. |
| StateReducers.ToolErrorsMeaning | app/graphs/state.py:180-194 | The result is an order-preserving subsequence holding exactly the last three entries of each code. |
| StateReducers.CodeMeaning | app/graphs/state.py:188-188 | Errors without a code count as one code. |
| DecisionGraph.UpdateNode | app/graphs/decision_graph.py:70-80 | A patch keeps every node in place, touches no other node, and never a superseded one; it fails as missing exactly when the id is absent. |
| DecisionGraph.UpdateMeaning | app/graphs/decision_graph.py:70-80 | A patched node takes what the patch gives and keeps the rest; a superseded node and an unknown status are refused. |
| DecisionGraph.NormalizeMeaning | app/graphs/decision_graph.py:169-170 | Normalizing lower-cases words and turns whatever space separates two texts into one space. |
| DecisionImpact.ReachableArtifacts | app/graphs/decision_graph.py:290-313 | The visited set is exactly what the links lead to from the changed artifact; the stale list is that set without the start, each once. |
| DecisionImpact.Impact | app/graphs/decision_graph.py:363-365 | Exactly the selected nodes that are not superseded are marked, in status alone. |
| DecisionImpact.AffectedMeaning | app/graphs/decision_graph.py:357-362 | The affected ids are exactly the selected ones that are there and not superseded, once each, in the order first selected. |
| DecisionImpact.DefaultMeaning | app/graphs/decision_graph.py:316-324 | Without a selector exactly the nodes are selected, in order, whose statement contains a word of the change with four letters or more. |
| DecisionImpact.MarkImpact | app/graphs/decision_graph.py:343-371 | The marked graph, the affected ids of the selector or of the default selection, and the artifacts reached. |
| DecisionSweep.MigrateLegacyNotes | app/graphs/decision_graph.py:113-142 | The two loops add one node for each note not stated yet, and count them. |
| DecisionSweep.MigrationMeaning | app/graphs/decision_graph.py:113-142 | What a migration adds: trimmed notes in the status of their kind that were not stated before, no two of a kind the same, and every note is stated afterwards. |
| DecisionSweep.MigrationIsIdempotent | app/graphs/decision_graph.py:113-142 | Migrating the same notes again migrates nothing, whatever new ids are offered. |
| DecisionSweep.CompletenessSweep | app/graphs/decision_graph.py:221-247 | The loop returns the first open checklist questions up to its limit, of which a limit below one still lets one open question by. |
| DecisionSweep.GapMeaning | app/graphs/decision_graph.py:180-205 | A gap is closed exactly when some one node, neither parked nor superseded, closes it: by its kind, by mentioning the marker, label or description of an item kind, or by mentioning the marker. |
| DecisionSweep.SweepKeepsLimit | app/graphs/decision_graph.py:221-247 | A sweep stays within its limit if and only if the limit is at least one, or zero with no gap open. |
| DecisionSweep.ZeroLimitIsPassed | app/graphs/decision_graph.py:243-247 | An input outside that condition: with one gap open, a limit of zero yields one question. |
| DecisionSweep.AddParkedQuestionsForGaps | app/graphs/decision_graph.py:250-277 | The loop appends one parked question for each gap not asked before. |
| DecisionSweep.ParkAsksOnce | app/graphs/decision_graph.py:250-277 | No parked question repeats one asked before or another one parked, and every gap ends up asked. |
| DecisionSweep.ParkKeepsDistinct | app/graphs/decision_graph.py:250-277 | With fresh ids parking keeps node ids distinct. |
| DecisionSweep.MigrationKeepsDistinct | app/graphs/decision_graph.py:113-142 | So does a migration. |
| DecisionSweep.SweepThenParkProgresses | app/graphs/decision_graph.py:221-277 | A sweep that finds gaps, followed by parking them, leaves strictly fewer questions unasked. |
| DecisionSweep.RoundsReachNoGaps | app/graphs/decision_graph.py:221-277 | As many rounds of sweep and park as there are unasked questions leave nothing to ask. |
| DecisionHistory.HistoryIsKept | app/graphs/decision_graph.py:70-371 | Over any run of patches, impact marks, migrations and sweeps no node id disappears and a superseded node never changes. |
| DecisionGraph.MergeKeepsHistory | app/graphs/state.py:90-105 | A merge keeps every id of both copies; it keeps superseded nodes if and only if the right copy agrees on each of them. |
| DecisionGraph.MergeMeaning | app/graphs/state.py:90-105 | The merged copy lists the nodes of the left copy in place, each as the right copy has it if it does, then the nodes only the right copy has, in order. |
| DecisionGraph.MergeLosesHistory | app/graphs/state.py:90-105 | Two copies outside that condition: the merge overwrites a superseded node with the right copy. |
| DecisionView.SectionDecides | app/graphs/decision_graph.py:419-425 | A node whose section names a heading, exactly or up to hashes, case and outer space, resolves to the first such heading, whatever its kind hints at. |
| DecisionView.KindDecides | app/graphs/decision_graph.py:427-432 | A node whose section names no heading resolves to the first heading its kind hints at. |
| DecisionView.FirstHeadingByDefault | app/graphs/decision_graph.py:433-433 | A node with neither resolves to the first heading. |
| DecisionView.NamingMeaning | app/graphs/decision_graph.py:415-425 | A section names a heading exactly when the two are the same text, hashes, outer space and case aside. |
| DecisionView.TagInjective | app/graphs/decision_graph.py:566-567 | Tags with one prefix differ for different numbers, beyond 99 too. |
| DecisionView.TagMeaning | app/graphs/decision_graph.py:566-567 | A tag is its prefix, a dash and the number in at least two digits, with a leading zero below ten only. |
| DecisionView.RenderView | app/graphs/decision_graph.py:579-603 | The rendered text is that of the specified blocks, one for each section with nodes. |
| DecisionView.RenderContractBlocks | app/graphs/decision_graph.py:510-531 | Grouping by heading first and rendering after gives the blocks specified heading by heading. |
| DecisionView.RenderNodeMap | app/graphs/decision_graph.py:544-576 | The map built with running indices is the specified one. |
| ViewAgreement.ViewAgreesWithMap | app/graphs/decision_graph.py:510-603 | For every node of a keyed graph: the sections and tags it is rendered under are exactly its entry in the map, once if active and covered, under Parked only if parked, and nowhere otherwise. |
| ViewAgreement.StatusDecides | app/graphs/decision_graph.py:372-378 | What that means for each status: confirmed, inferred and unconfirmed nodes with a section appear once, in it; parked ones once, under Parked; all others nowhere. |
| ViewAgreement.TagsAreUnique | app/graphs/decision_graph.py:559-569 | No two nodes share a section and a tag. |
| ViewAgreement.TagIsShown | app/graphs/decision_graph.py:465-507 | A mapped tag opens the title of the entry, or the id cell of the row, that renders the node. |
| ViewAgreement.CellsShowFields | app/graphs/decision_graph.py:465-489 | A field with content opens its cell and no cell of a row is blank. |
| ViewAgreement.ConfirmationIsShown | app/graphs/decision_graph.py:447-458 | A row that needs confirmation says so in some cell. |
| ViewAgreement.RowIsInView | app/graphs/decision_graph.py:510-603 | The text of every block and of every row is in the rendered view, each block opening with its heading. |
| ViewText.SectionMeaning | app/graphs/decision_graph.py:510-531 | How a section is rendered: as entries, as a table under its header and rule, or as lines, and one row for each node, in order. |
| ViewText.ViewMeaning | app/graphs/decision_graph.py:510-603 | The whole text: the blocks with a blank line between any two, each its heading and then its rows. |
| ViewText.SectionBlocksMeaning | app/graphs/decision_graph.py:589-603 | In a container view each block lists, one line each, the active nodes of the kinds of its section. |
| ViewText.ParkedMeaning | app/graphs/decision_graph.py:579-603 | The view ends with its parked section, one line for each parked node, if there is one. |
| ViewText.LineMeaning | app/graphs/decision_graph.py:410-412 | A line shows its statement in full and says that it needs confirmation exactly when it does. |
| ViewText.CellsMeaning | app/graphs/decision_graph.py:465-489 | Every cell of a row: the tag, what the node says in that column, its statement in the first content column if it says nothing in any, a placeholder else; and a marker in the last cell exactly when the node needs confirmation and no cell says so. |
| ViewText.EntryMeaning | app/graphs/decision_graph.py:492-507 | The lines of an entry: a title of tag, statement and marker, then each column with what the node says or a placeholder. |
| ViewText.FieldMeaning | app/graphs/decision_graph.py:440-444 | A column takes the field of exactly its name, else the last of its name up to case and outer space, else nothing. |
| ViewAgreement.SectionLayouts | app/graphs/decision_graph.py:380-398 | The two section layouts put no kind in two sections and have a section for exactly the valid kinds. |
| ViewAgreement.SectionOfKind | app/graphs/decision_graph.py:380-397 | The section each kind of node is mapped to; a PRD folds decisions and facts into its business rules. |
| ViewAgreement.UnknownKindIsDropped | app/graphs/decision_graph.py:380-398 | In both section layouts, for every unknown kind, the view of an active node of that kind alone is empty and so is its map. |
| ViewAgreement.SomeNodeIsDropped | app/graphs/decision_graph.py:380-398 | One such node. |
| ViewAgreement.TaggedContractsWellFormed | app/documents/registry.py:387-595 | The seven output contracts with trace tags are well formed and show their tags in every section, so that the results on views, maps and tags hold for each. |
| ViewAgreement.TagTellsItem | app/documents/registry.py:387-595 | Across these contracts a tag tells the type of its item and its number within its section. |
| MarkdownTable.PrintTable | scripts/seed_research_platform_demo.py:165-175 | The printer fails exactly when a row has another number of cells than there are columns, and else prints the specified lines. |
| MarkdownTable.ParseTable | scripts/seed_research_platform_demo.py:184-197 | The parsing loop computes the specified rows; `RoundTrip` says what they are for a printed table. |
| MarkdownTable.CellMeaning | scripts/seed_research_platform_demo.py:165-175 | A printed cell has no bare pipe and no line break, and unescapes to the trimmed text with newlines as tags, for any mix of pipes and backslashes. |
| MarkdownTable.LineSplits | scripts/seed_research_platform_demo.py:178-181 | Splitting a printed line gives its cells back, unescaped. |
| MarkdownTable.JoinedLinesSplit | scripts/seed_research_platform_demo.py:184-186 | Joined one-line texts split into themselves, under every line break Python knows. |
| MarkdownTable.RoundTrip | scripts/seed_research_platform_demo.py:165-197 | Parsing a printed table gives every cell back, in order, for exactly the rows that are not made of separators only. |
| MarkdownTable.DashCellMeaning | scripts/seed_research_platform_demo.py:193-193 | A cell is a separator if and only if it is, blanks aside, an optional colon, two dashes or more, and an optional colon. |
| MarkdownTable.SpeakingRowIsParsed | scripts/seed_research_platform_demo.py:165-197 | With distinct columns, a printed row with some cell that holds another character than blanks, dashes and colons, or fewer than two dashes, is parsed with all its cells under their columns. |
| MarkdownTable.ProseIsSkipped | scripts/seed_research_platform_demo.py:184-197 | Lines of other text before and after a printed table do not bear on what is parsed. |
| MarkdownTable.PaddedMeaning | scripts/seed_research_platform_demo.py:195-196 | Missing cells of a row are blank and surplus cells are cut off. |
| MarkdownTable.ZipMeaning | scripts/seed_research_platform_demo.py:195-196 | With distinct column names the dictionary of a row holds each cell under its column. |
| TurnLoop.AnalysisTurnResult | app/graphs/nodes.py:666-698 | The turn counter, the fingerprints and the messages the analyze node leaves; suppressed calls are answered at once. |
| TurnLoop.StopReasonAgreesWithRoute | app/graphs/nodes.py:718-737 | The loop dispatches the calls just emitted exactly when no stop reason was found for them, so synthetic results are added exactly when the route ends. |
| TurnLoop.StopReasonMeaning | app/graphs/nodes.py:718-795 | The stop reason, the turn limit before repetition, and the route: to the tools exactly when there is none and the last message has calls. |
| TurnLoop.RepetitionMeaning | app/graphs/analysis/turn_audit.py:195-211 | Over any run calls count as repeated exactly when the last three sets emitted since the last new message have the same fingerprint. |
| TurnLoop.SummaryMeaning | app/graphs/nodes.py:769-778 | After the tools a summary comes exactly when the human has just spoken and the human messages after the first are a positive multiple of the setting. |
| TurnLoop.StepKeepsInv | app/graphs/graph.py:41-68 | Every step of the graph, failed turns included, keeps the counter bounded and calls waiting at the tools node only. |
| TurnLoop.StepFollowsGraph | app/graphs/graph.py:41-68 | Each kind of step is possible at one node alone and follows an edge of the graph. |
| TurnLoop.StepKeepsTidy | app/graphs/graph.py:41-68 | Every step keeps each call answered or waiting, except taking up a turn that failed at its tools. |
| TurnLoop.StepKeepsDangling | app/graphs/graph.py:41-68 | Once a call dangles no later step closes it. |
| TurnLoop.RunKeepsInv | app/graphs/graph.py:41-68 | Every run keeps the bound. |
| TurnLoop.RunIsTidyOrDangling | app/services/agent_service.py:345-357 | Every run from a tidy state ends dangling if a failed turn is taken up at the tools node along it, and tidy if not. |
| TurnLoop.ClosedMeaning | app/graphs/nodes.py:727-736 | In a closed history each call has exactly as many results as times it was emitted. |
| TurnLoop.LoopIsBoundedAndClosed | app/graphs/nodes.py:647-795 | For any behaviour of model, tools and human, failures included: at most max(1, max_agent_turns) analyze steps between human boundaries; and wherever no calls wait at the tools node every call has its result if and only if no failed turn was taken up at the tools node along the run. |
| TurnLoop.FailedTurnLeavesCallsOpen | app/services/agent_service.py:345-357 | Wherever a run goes after taking up a failed turn, its calls stay open if and only if the turn failed at its tools. |
| TurnLoop.ToolFailureLeavesCallOpen | app/services/agent_service.py:345-357 | The shortest such run, for all settings: a call emitted by the first analyze step stays open if and only if at least two agent turns are allowed. |
| TurnLoop.StepProgresses | app/graphs/graph.py:41-68 | Between human boundaries every step lowers a measure. |
| TurnLoop.RunIsShort | app/graphs/nodes.py:769-795 | A run without human boundary has at most 6 * max(1, max_agent_turns) + 5 steps. |
| MessageQueue.Session.HandleUserMessage | app/services/agent_service.py:298-396 | When a message is refused, queued or answered at once, the row it leaves, and the kind and hint of the turn it starts: after a failed turn, fresh, or as the answer to an interrupt; nothing else changes. |
| MessageQueue.Session.QueueMessage | app/services/agent_service.py:398-418 | The message is stored with its hint and no turn starts. |
| MessageQueue.Session.DrainQueue | app/services/agent_service.py:1221-1313 | After a terminal status other than expiry the earliest queued message, and only it, is marked and started, without its hint after a failed turn; otherwise nothing changes. |
| MessageQueue.EventMeaning | app/services/agent_service.py:1136-1200 | How the ends of a run, the pauses and the decisions move the session: messages and turns stay, but for the turn a decision starts. |
| MessageQueue.DrainedBeforeQueued | app/services/agent_service.py:1250-1262 | Whatever has been drained was sent before whatever still waits. |
| MessageQueue.FlipFirst | app/services/agent_service.py:1262-1270 | Marking the first queued message moves it from the waiting to the drained ones and changes no other list. |
| MessageQueue.StepKeepsSound | app/services/agent_service.py:298-418 | Every transaction keeps the queue first-in first-out and lossless. |
| MessageQueue.RunKeepsSound | app/services/agent_service.py:298-418 | On every run the messages ever queued are those drained, in order, followed by those still queued. |
| MessageQueue.EveryMessageOnce | app/services/agent_service.py:1221-1313 | On every run each accepted message starts exactly one turn, directly or drained, or still waits and has started none. |
| MessageQueue.HintIsReplayed | app/services/agent_service.py:1264-1298 | A drained message keeps its mode hint if and only if its turn does not take up a failed one, or it had none. |
| MessageQueue.CrashLosesHint | app/services/agent_service.py:1264-1298 | A run outside that condition: a message queued with a hint is drained after a crash and its turn has none. |

## Left out

- Endpoints, auth, OAuth, crypto, exports, migrations, settings, seeding and BRD/PRD normalisation: I/O plumbing or easy text rewriting.
- Provider network calls, SDK clients, retries and usage extraction.
- JSON Schema keywords outside type, properties, required, items, enum and additionalProperties, boolean schemas, and the order of `required` (a set here).
- The equality of JSON values in enumerations: true and 1, which Python identifies, differ here.
- Unwrapping of the response format around a schema, and `json.loads` itself: a parameter that maps a text to a value or nothing.
- Numbers in JSON layouts: the scanner result is proved for a superset of their spellings.
- Base64 thought signatures, the text of a tool result made of several blocks, and argument values other than text in Gemini parts.
- Several projects in one store, evidence rows, priorities, codes and bodies of versions; the default title of a new item is taken as given. Membership and the end of a session are inputs of a step.
- ArchiveArtifact: does not record the retirement metadata (source, reason, who, successor), which no modelled operation reads.
- ReviewArtifactVersion: does not record the reviewer and the comment of the review row.
- ApproveToolCall: covers proposals of a body; proposals of a link or of a retirement go to operations modelled on their own (CreateLink, ArchiveArtifact), and resuming the session is not part of it.
- RejectToolCall: does not resume the session; `MessageQueue` has that step as an event.
- GuardLifecyclePredecessors: does not fix the order in which the entries it turns down are listed, which follows the text of their keys.
- Candidate readiness: a flag of the approval step.
- Verdict reasons, labels and allowed actions.
- Races: transactions of different tasks interleave as whole steps only, and link creation is sequential.
- Serialisation in the checkpoint slot (an injective encoding) and corrupt pending writes, which are skipped there.
- Lower-casing outside ASCII in headings and statements.
- Origins, dependencies and blocks of decision nodes, parked-question resurfacing and stability of a BRD: comprehensions over fields nothing here reads.
- Triage, critique, judge and summary prompts, and all model text.
- The start of a session and liveness of the queue: completing by approval does not drain it.
- An empty mode hint, which the queue stores as none.
- The wall clock: abandonment is an event that may happen whenever the session is active or waiting.
