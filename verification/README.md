# Verification of the PL/SQL impact gateway, the chunker, and the project and conversation stores

This project models the four stateful parts of the knowledge application that carry its hard guarantees, and proves
those guarantees in Dafny 4.11. `dafny verify dfyconfig.toml` checks everything.

**Graph traversals** (`apps/api/app/integrations/plsql/neo4j_client.py`). The store is a sequence of rows, each holding
one typed edge with its evidence (or nothing the client can map), with queries that return the matching rows in any
order. `Ordering`, `EdgeStore` fix orders, sorting, the store and the records kept by edge id. `ImpactAnchors`,
`Impact`, `ImpactSearch`, `ImpactRoutes` and `ImpactReport` are the impact computation: where it starts, the
breadth-first search, its loops, the lazily rebuilt routes, and the report; `DiscoveryOrder` which routes the cap keeps.
`Paths` and `PathSearch` are `find_paths`: which trails it answers with, and its loops. `ShownEvidence` says when
reports and pages do not depend on the order of the rows, evidence included. `Paging` and `ImpactCache` serve results,
and `CacheText` says where a served value comes from. `Base64` and `GraphIds` are the opaque identifiers, `IdText` what
any string decodes to.

**Chunking** (`apps/api/app/knowledge/chunking.py`). `Text` has whitespace, lines and lists of ranges; `Tokens` the
overlapping windows; `Ranges` the splitting and packing; `Blocks` the structural blocks; `Chunks` the chunker from end
to end; `ChunkIds` when its chunks have different ids. `LineText`, `BlockText`, `RangeText`, `ChunkText` and
`FamilyText` tell lines, blocks, ranges and chunks on the text itself.

**Projects** (`apps/api/app/projects/repository.py`, `worker.py`). `Projects` says what each repository operation does
to the tables, `ProjectInvariant` and `ProjectRuns` what every reachable state keeps with one worker that may crash and
restart, `ProjectRows` what each operation does field by field, `ProjectFreeze` which file sets can change,
`ProjectLateFailure` what failing a completed build does, and `ProjectRepository` is the repository and the worker as
objects and loops that update the tables.

**Conversations and evidence** (`apps/api/app/store/*.py`, `_merge_evidence` in `apps/api/app/agent/workflow.py`).
`Exchanges` pairs, prunes and selects messages, which `TurnText` tells on the messages themselves; `Conversations` is
what a store promises, with its lease protocol, and `ConversationRows` each operation field by field; `LeaseTurns` has
requests that ask and answer on one lease; `MemoryStore` and `SqlStore` are the two implementations and `StoresAgree`
runs them side by side. `Evidence` and `EvidenceMerge` are the merge, and `MergeText` what it returns for the results it
is given, `CitationOrder` in which order. `Sublists` and `Rows` are shared vocabulary.

Methods follow the source's loops and in-place updates and are tied to specification functions; the theorems are about
those functions. The modules named `...Text` and `...Rows` say what the functions compute on positions, characters, rows
and fields. Time, fresh identifiers, query answers, the tokenizer, the regular expressions and digests are parameters.

## Findings

- `find_paths` is described as bounded variable-length path search between two objects
  (`docs/architecture/plsql-analysis-console.md:112`), but it does not return every simple path within the hop limit: an
  edge that is already known is not offered again, so a trail that reaches a node later than its shortest distance stops
  there. `Paths.Answer` is the exact answer, `Paths.NotEverySimplePath` a graph where a simple path is missing, and
  `Paths.ShortestAreAnswers` shows that shortest paths are never missing.
- `fail_build` does not look at the state of the job it fails. It keeps the project in order exactly when the job is
  live or its snapshot is the editable draft (`ProjectInvariant.FailInvExactly`). Failing a build that has completed
  always breaks it (`ProjectLateFailure.LateFailureBreaks`), and one ordinary build leads there
  (`ProjectLateFailure.LateFailureHappens`). The worker calls `fail_build` for whatever is raised after the commit of
  `complete_build` (`apps/api/app/projects/worker.py:56-74`).
- The members of a package are recognised by the package name only, so a same-named package of another schema becomes an
  anchor when it shares an edge with a member (`ImpactAnchors.ForeignAnchor`); `ImpactAnchors.OnlyMembersExactly` says
  exactly when it does not happen.
- Whatever order the store returns its rows in, an impact report has the same items, routes, order and summary
  (`ImpactReport.ReportForgetsOrder`), but the evidence it shows for a triple with several rows is that of the row that
  comes first (`EdgeStore.EvidenceFollowsOrder`). What is recorded of the edges is the same for every order if and only
  if the rows of one edge id are equal (`EdgeStore.RecordsForgetOrderExactly`); where they are, reports and pages of
  paths are equal in full (`ShownEvidence.ReportFixedWhereRowsAgree`, `ShownEvidence.PageFixedWhereRowsAgree`). One
  report, or one page, is fixed if and only if the rows of the edges it shows are equal
  (`ShownEvidence.ReportFixedExactly`, `ShownEvidence.PageFixedExactly`).
- Pruning a conversation can join an old question with an unrelated answer into an exchange that never took place
  (`Exchanges.OverlapFormsAnExchange`). It happens exactly when an unpaired question and a later unpaired answer precede
  the first exchange that is kept (`Exchanges.PruneExactly`), which takes two overlapping requests; it cannot happen
  over any run in which every answer is given before the lease held at its question runs out (`LeaseTurns.RunPaired`,
  `LeaseTurns.RunPruned`).
- The two conversation stores part ways exactly when a conversation is given the name "New conversation", which the
  process-local one takes for no name (`StoresAgree.SameStateExactly`, `StoresAgree.DefaultNameForgotten`), and they
  answer differently exactly when a conversation is gone at pruning (`StoresAgree.Both`).
- Two chunks of a document can have one id: the chunker gives one to a text of thirty characters that take three tokens
  each, with leaves of 64 tokens that overlap by 63 (`ChunkIds.SameIdTwice`). All ids differ if and only if, in the
  tokens of every parent's text, each step of the window gets past a character at one of its ends, and no empty last
  window of a parent meets an empty first window of the next (`ChunkIds.IdsDifferExactly`). The second half falls away
  where every token begins before its text ends (`ChunkIds.IdsDifferByTokens`), as a token that holds any byte does.
- The byte limit of the evidence merge can leave a path listing an edge that is gone (`EvidenceMerge.StrandedOutcome`,
  `EvidenceMerge.StrandedEdge`). It can happen exactly when a path lists an edge to a node further down the node list
  than the path's own nodes (`EvidenceMerge.PathEdgesStayExactly`, `EvidenceMerge.OutcomeStaysExactly`). A path without
  nodes survives even when all nodes are popped (`EvidenceMerge.EmptyPathStays`); the merge's own path type allows one
  (`apps/api/app/agent/models.py:100-109`), the graph adapter's does not
  (`apps/api/app/integrations/graphify/models.py:40`).
- An edge identifier identifies its triple exactly when the triple is free of U+001F (`GraphIds.EdgeIdUniqueExactly`,
  with `GraphIds.EdgeIdCollision` as an instance), and decodes exactly then (`GraphIds.EdgeIdRoundTrip`).

## Assumptions

- Objects are their qualified names. Rows with the same edge id describe the same edge (`EdgeStore.IdsAgree`), which
  `GraphIds.MadeIdsAgree` derives from the way ids are made; the target's kind is a function of its name. Only
  `ImpactRoutes.KeptRoutesTheorem`, on repetition of routes, assumes one row per triple.
- The lookup of objects by name is given; objects found have distinct ids. The rows of the member lookup have names at
  both ends.
- UTF-8 encoding and decoding are inverse; the base64 decoder is Python's lenient one (`validate` off). Alphabet and
  padding are those of RFC 4648, section 5 and section 3.2.
- The tokenizer's offsets start at 0, never decrease and stay within the decoded text. A regular expression is any
  function giving increasing cut points; heading depths are 1 to 6, as the pattern says. Chunk ids stand for what their
  digest is made of.
- Deleting a project or a conversation deletes the rows that refer to it, as the foreign keys declare. On SQLite the
  code switches foreign keys on for one connection only (`apps/api/app/projects/repository.py:348`,
  `apps/api/app/store/sqlalchemy.py:142`), so there it holds only for that connection. Each repository call is one
  transaction. Only one worker runs, and `complete_build` raises only when it has changed nothing.
- Two identifiers that are newly made differ from each other and from every earlier one.

## Model

| member | source | states |
|---|---|---|
| Impact.UnboundedCorrect | apps/api/app/integrations/plsql/neo4j_client.py:1107-1170 | after `hops` rounds `distance` holds exactly the objects that at most `hops` stored edges, none a self-loop, lead from (upstream) or to (downstream) and an anchor, told on sources and targets; each at the least number of edges; and `parents` holds exactly the edges at that object of such shortest routes |
| Impact.ChainLeads | apps/api/app/integrations/plsql/neo4j_client.py:1112-1161 | a chain of the search is a route in flow order: upstream it starts at the dependent and ends in an anchor, downstream the other way round, each edge's target the next one's source |
| Impact.WithinLeads | apps/api/app/integrations/plsql/neo4j_client.py:1107-1170 | being within reach and the distance, in terms of such routes |
| Impact.AbsorbAllRound | apps/api/app/integrations/plsql/neo4j_client.py:1153-1170 | one round records each newly reached object once, with every edge of the round that reaches it, and changes nothing recorded before |
| Impact.LayerStep | apps/api/app/integrations/plsql/neo4j_client.py:1107-1170 | the layer invariant: within `d` rounds everything within distance `d` is known, the frontier is the last layer, and anything reached early is not expanded again |
| Impact.RoundsEnd | apps/api/app/integrations/plsql/neo4j_client.py:1108-1111 | breaking off when no name is left to expand gives the same result as running all rounds |
| ImpactAnchors.FindAnchors | apps/api/app/integrations/plsql/neo4j_client.py:985-1014 | the anchors are the object itself, or the ends of touching rows that belong to the package's name, each once and in order; the limit error exactly when a package's lookup has more rows than the budget |
| ImpactAnchors.MembersAreAnchors | apps/api/app/integrations/plsql/neo4j_client.py:985-1014 | every member routine on which the graph keeps an edge is an anchor, and the package is one only if there is none |
| ImpactAnchors.OnlyMembersExactly | apps/api/app/integrations/plsql/neo4j_client.py:1005-1012 | the anchors found are members of the changed package exactly when no row touching one has an end in a same-named package of another schema |
| ImpactAnchors.AnchorsExactly | apps/api/app/integrations/plsql/neo4j_client.py:985-1014 | a name is an anchor if and only if it is an end, below the package, of a row of the six relationships with its second part the package's name, or there is none and it is the changed object |
| ImpactAnchors.AnchorsFitExactly | apps/api/app/integrations/plsql/neo4j_client.py:993-1004 | the member lookup is within the budget if and only if so many rows of the six relationships have an end below the package |
| ImpactAnchors.ForeignAnchor | apps/api/app/integrations/plsql/neo4j_client.py:1011 | a graph where a routine of another schema's package becomes an anchor |
| ImpactAnchors.PrefixExactly | apps/api/app/integrations/plsql/neo4j_client.py:212-219 | the names that start with a package's name and a dot are exactly those of its schema and owner name |
| ImpactAnchors.AnchorsForgetOrder | apps/api/app/integrations/plsql/neo4j_client.py:994-1014 | neither the anchors nor the limit error depend on the order of the stored rows |
| ImpactSearch.Traverse | apps/api/app/integrations/plsql/neo4j_client.py:1099-1170 | it succeeds exactly when every round fits the edge budget, then equals the search with no budget and has a record of every parent edge, and never knows more edges than the budget |
| ImpactSearch.FitsExactly | apps/api/app/integrations/plsql/neo4j_client.py:1109-1137 | every round fits the budget if and only if, whenever something new is asked about, the edge ids fetched before leave room for at least one row and for all the rows then fetched |
| ImpactSearch.AskRound | apps/api/app/integrations/plsql/neo4j_client.py:1109-1149 | a round is refused exactly when the budget is spent or the answer exceeds what is left; otherwise each name sees its edges sorted by id, whatever order the rows came in |
| ImpactSearch.Group | apps/api/app/integrations/plsql/neo4j_client.py:1137-1151 | rows are indexed by edge id, the first one staying, without dropping repeated rows of a triple, and filed, sorted, under the name they touch |
| ImpactSearch.ExpandRound | apps/api/app/integrations/plsql/neo4j_client.py:1153-1170 | the two inner loops compute the specified round and the next frontier in discovery order |
| EdgeStore.IndexKeepsFirst | apps/api/app/integrations/plsql/neo4j_client.py:1138-1143 | the record kept under an edge id is that of the first row that brought it |
| EdgeStore.EvidenceFollowsOrder | apps/api/app/integrations/plsql/neo4j_client.py:1142-1149 | two rows of one triple: the evidence kept depends on which comes first |
| EdgeStore.RecordsForgetOrderExactly | apps/api/app/integrations/plsql/neo4j_client.py:1138-1149 | what is recorded under the edge ids is the same for every order of the rows if and only if any two mappable rows with one edge id are equal |
| EdgeStore.LookUp | apps/api/app/integrations/plsql/neo4j_client.py:1235-1243 | the steps of an answer's paths are the records of its edges, and no lookup by id fails |
| ImpactRoutes.RoutesFromExact | apps/api/app/integrations/plsql/neo4j_client.py:1172-1188 | the generator terminates and yields all and only the routes of exactly `distance[peer]` edges that join the peer to an anchor in flow order |
| ImpactRoutes.RoutesAreRecorded | apps/api/app/integrations/plsql/neo4j_client.py:1172-1188 | every edge of every route the generator yields has a record |
| ImpactRoutes.KeptRoutesTheorem | apps/api/app/integrations/plsql/neo4j_client.py:1172-1194 | with one row per triple each shortest route appears once, and the cap keeps min(5, number of shortest routes) of them, at least one |
| DiscoveryOrder.RoundsInOrder | apps/api/app/integrations/plsql/neo4j_client.py:1106-1170 | each round finds objects, and each object's parent edges, in an order told on the stored edges: anchors by name, edges by where they start and then by id, objects by their first edge |
| DiscoveryOrder.KeptComeFirst | apps/api/app/integrations/plsql/neo4j_client.py:1172-1194 | a route the cap leaves out comes, in that order, after every route it keeps, also where a triple has several rows |
| DiscoveryOrder.ReportShowsFirst | apps/api/app/integrations/plsql/neo4j_client.py:1190-1194 | so for every item of every report: which five of more than five routes are shown |
| ImpactReport.BuildReport | apps/api/app/integrations/plsql/neo4j_client.py:1190-1259 | items are the describable reached objects but the changed one, in key order, with their kept routes as records; direct and indirect add up to the items; packages and modified tables are counted as sets over the kept routes |
| ImpactReport.ReportTheorem | apps/api/app/integrations/plsql/neo4j_client.py:1190-1259 | items are about exactly the describable objects within reach of an anchor, once each; told on the ends of the stored edges: each item at its least number of edges with five of its shortest routes or all, in order of target names and then ids, every step a stored row; items by distance, folded name and id; and the four counts of the summary as sizes of sets of those items, packages and written tables |
| ImpactReport.ComputeImpact | apps/api/app/integrations/plsql/neo4j_client.py:1083-1259 | either the limit error, exactly when the lookup of the anchors or a round of the search exceeds the budget, or the full report of the unbounded search |
| ImpactReport.ImpactFitsExactly | apps/api/app/integrations/plsql/neo4j_client.py:993-1137 | when the limit error is raised, on the stored rows alone: the rows the package's lookup finds and those of each round against what is left of the budget |
| ImpactReport.ImpactOf | apps/api/app/integrations/plsql/neo4j_client.py:1016-1045 | with the hops clamped, either the limit error or one page of the report with its whole summary |
| ImpactReport.RoundsForgetOrder | apps/api/app/integrations/plsql/neo4j_client.py:1137-1170 | the search does not depend on the order in which the store returns its rows |
| ImpactReport.FitsForgetsOrder | apps/api/app/integrations/plsql/neo4j_client.py:1113-1137 | nor does whether it meets the budget |
| ImpactReport.ReportForgetsOrder | apps/api/app/integrations/plsql/neo4j_client.py:1190-1259 | for every order of the stored rows the limit error comes together, and items, kept routes, order and summary are the same but for evidence |
| Paging.PagesConcatenate | apps/api/app/integrations/plsql/neo4j_client.py:1028-1045 | successive pages concatenate to the full ordered list, no page is empty before the end or longer than the row cap, and `truncated` is false exactly on the last |
| Paging.PageExactly | apps/api/app/integrations/plsql/neo4j_client.py:1028-1045 | a page is the slice from the clamped offset of the clamped length, truncated exactly when there is more |
| ImpactCache.CacheTransparent | apps/api/app/integrations/plsql/neo4j_client.py:1047-1081 | from a request to its answer: over any interleaving of requests, cancellations, expiries, evictions, shared tasks and failures it is answered, at once or after waiting, with what the computation gives for the key it asked for, and the cache is within its maximum |
| ImpactCache.AwaitsOwnKey | apps/api/app/integrations/plsql/neo4j_client.py:1068-1075 | a suspended request always awaits a task for its own key, whatever other requests do, until it is woken or cancelled |
| ImpactCache.StoreGood | apps/api/app/integrations/plsql/neo4j_client.py:1076-1081 | storing keeps one entry per key, correct values, and at most the maximum number of entries |
| CacheText.HitsAreFresh | apps/api/app/integrations/plsql/neo4j_client.py:1061-1081 | over any interleaving, a value served from the cache is that of an entry stored for the same key less than the time to live before: nothing expired is ever served |
| CacheText.AskHits | apps/api/app/integrations/plsql/neo4j_client.py:1061-1065 | a request is a hit if and only if the entry under its key expires later than now; the entry becomes the newest, the others keep their order and nothing else changes |
| CacheText.AskMisses | apps/api/app/integrations/plsql/neo4j_client.py:1066-1075 | otherwise an expired entry goes and the request awaits the task in flight for its key, or a new one that is registered |
| CacheText.AskUncached | apps/api/app/integrations/plsql/neo4j_client.py:1059-1060 | with caching off each request awaits a new task of its own and nothing else changes |
| CacheText.WakeTells | apps/api/app/integrations/plsql/neo4j_client.py:1075-1081 | the request gets its task's result; a value is stored as newest entry until now plus the time to live, and of all entries the newest stay, as many as there is room for |
| CacheText.CallbackTells | apps/api/app/integrations/plsql/neo4j_client.py:1074 | exactly the task's key is no longer in flight |
| ImpactCache.ImpactCacheClient.Request | apps/api/app/integrations/plsql/neo4j_client.py:1060-1075 | a request up to its first suspension (see `CacheText.AskHits`, `CacheText.AskMisses`): hit with refresh of the order, expiry, joining a task in flight, or starting one |
| ImpactCache.ImpactCacheClient.Resume | apps/api/app/integrations/plsql/neo4j_client.py:1076-1082 | a request after its task is done (see `CacheText.WakeTells`): the entry is stored as newest and the oldest are evicted |
| ImpactCache.ImpactCacheClient.Abandon | apps/api/app/integrations/plsql/neo4j_client.py:1075 | a request cancelled while it waits leaves the shielded task running and registered |
| ImpactCache.ImpactCacheClient.Complete | apps/api/app/integrations/plsql/neo4j_client.py:1071-1073 | a task ends with a result or an error |
| ImpactCache.ImpactCacheClient.CompletionCallback | apps/api/app/integrations/plsql/neo4j_client.py:1075 | the done callback forgets the task in flight under its key |
| PathSearch.Search | apps/api/app/integrations/plsql/neo4j_client.py:908-960 | it succeeds exactly when every round fits the edge budget, and then `discovered` is exactly the set of answers, each of its edges with a record |
| PathSearch.AffordsExactly | apps/api/app/integrations/plsql/neo4j_client.py:914-934 | every round fits the budget if and only if the ids known before it leave room for at least one row and for all the stored rows that leave its nodes |
| PathSearch.AskRound | apps/api/app/integrations/plsql/neo4j_client.py:915-947 | each round fetches the edges of its nodes within the budget and offers, at each node, its edges if the node is new and none otherwise |
| PathSearch.ExtendFrontier | apps/api/app/integrations/plsql/neo4j_client.py:949-960 | the extension loop gives the specified next frontier and adds exactly the trails that hit the target |
| PathSearch.FindPaths | apps/api/app/integrations/plsql/neo4j_client.py:891-983 | hop clamping, the trivial case, the limit error exactly when the budget is exceeded, and a page of the ordered list of all answers (see `PathSearch.PageTheorem`), every step a stored row |
| PathSearch.AnswersInOrder | apps/api/app/integrations/plsql/neo4j_client.py:961-968 | in the ordered list of answers a shorter one comes first; of two as long, the one whose target names are smaller where they first differ, by code points, and for equal names the one whose edge ids are |
| PathSearch.PageTheorem | apps/api/app/integrations/plsql/neo4j_client.py:961-983 | what is returned is the slice of all answers, in that order, from the clamped offset of the clamped length, as stored rows, truncated exactly when there is more |
| PathSearch.PathsForgetOrder | apps/api/app/integrations/plsql/neo4j_client.py:944-972 | the ordered list of answers is unique and does not depend on the order of the stored rows |
| ShownEvidence.ReportFixedExactly | apps/api/app/integrations/plsql/neo4j_client.py:1190-1259 | a report on a change is equal, evidence included, for every order of the stored rows if and only if the rows of each edge on a kept route are equal |
| ShownEvidence.ReportFixedWhereRowsAgree | apps/api/app/integrations/plsql/neo4j_client.py:1138-1149 | where rows of one edge id are equal, items and summary of every report are equal in full for every order of the rows |
| ShownEvidence.PageFixedExactly | apps/api/app/integrations/plsql/neo4j_client.py:961-983 | a page of paths is equal, evidence included, for every order of the stored rows if and only if the rows of each edge on it are equal |
| ShownEvidence.PageFixedWhereRowsAgree | apps/api/app/integrations/plsql/neo4j_client.py:961-983 | where rows of one edge id are equal, every page of paths is equal in full for every order of the rows |
| Paths.FrontierStep | apps/api/app/integrations/plsql/neo4j_client.py:949-960 | which trails are still extended after one more round |
| Paths.AnswerStep | apps/api/app/integrations/plsql/neo4j_client.py:949-960 | which trails are answers after one more round |
| Paths.AnswersAreSimple | apps/api/app/integrations/plsql/neo4j_client.py:951-956 | no answer meets a node twice |
| Paths.ShortestAreAnswers | apps/api/app/integrations/plsql/neo4j_client.py:914-960 | every shortest trail within the hop limit is an answer |
| Paths.NotEverySimplePath | apps/api/app/integrations/plsql/neo4j_client.py:941-942 | a graph with a simple path that is never an answer, for any hop limit |
| Base64.RoundTrip | apps/api/app/integrations/plsql/neo4j_client.py:155-162 | decoding the unpadded URL-safe encoding of any bytes gives them back |
| IdText.EncodeExactly | apps/api/app/integrations/plsql/neo4j_client.py:155-157 | the encoding spells the bits of the bytes, six to a character of the URL-safe alphabet, as many characters as needed and no padding |
| IdText.DecodeExactly | apps/api/app/integrations/plsql/neo4j_client.py:160-162 | any string at all: characters outside the alphabets are skipped, reading stops where padding first completes a group, the bytes are those of the characters read, and it raises exactly for non-ASCII text or an incomplete last group |
| GraphIds.ObjectIdRoundTrip | apps/api/app/integrations/plsql/neo4j_client.py:165-183 | decoding an object id gives back its qualified name, for every project id |
| IdText.ObjectIdExactly | apps/api/app/integrations/plsql/neo4j_client.py:165-183 | the form of an object id; and any string at all is the id of a name if and only if what follows its last `/o/` decodes to it |
| GraphIds.EdgeIdRoundTrip | apps/api/app/integrations/plsql/neo4j_client.py:186-209 | an edge id decodes to its triple if the triple is free of U+001F and is taken for foreign if not |
| IdText.EdgePartsExactly | apps/api/app/integrations/plsql/neo4j_client.py:197-209 | any string at all has a triple's parts if and only if the triple is free of U+001F and what follows the last `/e/` decodes to it, joined by U+001F |
| IdText.EdgeIdExactly | apps/api/app/integrations/plsql/neo4j_client.py:186-194 | the form of an edge id |
| GraphIds.EdgeIdInjective | apps/api/app/integrations/plsql/neo4j_client.py:186-194 | edge ids of such triples are equal only for equal triples |
| GraphIds.EdgeIdUniqueExactly | apps/api/app/integrations/plsql/neo4j_client.py:186-194 | no other triple has a triple's id if and only if it is free of U+001F |
| GraphIds.EdgeIdCollision | apps/api/app/integrations/plsql/neo4j_client.py:193-194 | two triples with one id |
| GraphIds.MadeIdsAgree | apps/api/app/integrations/plsql/neo4j_client.py:186-194 | ids made this way identify edges, as the traversals' de-duplication needs |
| Tokens.WindowsTheorem | apps/api/app/knowledge/chunking.py:268-279 | exactly 1 + ceil(max(0, n - limit) / (limit - overlap)) windows, each of at most `limit` tokens, covering all tokens, neighbours sharing exactly `overlap` |
| Tokens.TokenWindows | apps/api/app/knowledge/chunking.py:257-279 | the windowing loop computes those windows' character ranges; it raises exactly when decoding does not give the text back |
| Tokens.WindowRangesExactly | apps/api/app/knowledge/chunking.py:268-279 | window `i` runs from the character where token `i * (limit - overlap)` begins to the one where the token `limit` further begins, or to the end of the text |
| Tokens.WindowRangesChain | apps/api/app/knowledge/chunking.py:270-279 | the character ranges run from the start of the text to its end, advance, and leave no gap |
| Tokens.WindowRangesPartition | apps/api/app/knowledge/chunking.py:270-279 | with no overlap they are a contiguous partition |
| Ranges.SplitPartition | apps/api/app/knowledge/chunking.py:221-231 | splitting at any increasing cut points partitions the range |
| Ranges.SplitExactly | apps/api/app/knowledge/chunking.py:221-231 | the pieces are exactly the nonempty stretches from one cut, or end of the range, to the next |
| Ranges.PackRanges | apps/api/app/knowledge/chunking.py:234-254 | the packing loop computes the specified packing |
| Ranges.PackPartition | apps/api/app/knowledge/chunking.py:234-254 | packing keeps a partition a partition |
| Ranges.PackFits | apps/api/app/knowledge/chunking.py:234-254 | every packed range fits the limit or is one single piece |
| Ranges.PackGreedy | apps/api/app/knowledge/chunking.py:243-251 | a range was closed only because the next piece did not fit with it |
| Ranges.RefineOneTheorem | apps/api/app/knowledge/chunking.py:203-211 | a range that fits stays; any other is cut at some of the pattern's cuts, each part going as far as it fits with what follows, however it then ends |
| Ranges.RefinePartition | apps/api/app/knowledge/chunking.py:203-211 | applying one pattern keeps the ranges a contiguous partition of the text |
| Ranges.BoundedRanges | apps/api/app/knowledge/chunking.py:200-218 | the loops over patterns and ranges; it raises exactly when an oversized range does not survive decoding |
| Ranges.BoundedRangesTheorem | apps/api/app/knowledge/chunking.py:200-218 | the ranges tile the text but for whitespace, none is blank, and each fits the limit or is a window of at most `limit` tokens of an oversized range |
| RangeText.BoundedRangesTell | apps/api/app/knowledge/chunking.py:200-218 | the ranges, in terms of the patterns and the tokenizer: the whole text is cut by each pattern in turn wherever a range is still too long; what is too long after the last is cut into windows of the limit, and what is white space only is left out |
| RangeText.UnreadableTells | apps/api/app/knowledge/chunking.py:213-218 | where it raises, some range left too long by all the patterns has tokens that do not decode to its text |
| Blocks.CollectEvents | apps/api/app/knowledge/chunking.py:162-186 | every position gets its page break first and then what its line says, and no position is stored without an event |
| Blocks.StructuralBlocks | apps/api/app/knowledge/chunking.py:140-197 | blocks are increasing and disjoint with whitespace-only gaps, none is blank, each starts and ends at an event or an end of the text with nothing happening inside, and each carries the page, section and article in force at its start |
| Blocks.PageCountsFormFeeds | apps/api/app/knowledge/chunking.py:162-164 | with page boundaries on, the page in force is 1 plus the form feeds before |
| Blocks.ArticleIsLatest | apps/api/app/knowledge/chunking.py:188-196 | the article in force is the last one since the last page break, if there is one |
| Blocks.SectionIsStack | apps/api/app/knowledge/chunking.py:193-194 | the section path in force is the heading stack of all headings before |
| Blocks.BlockContext | apps/api/app/knowledge/chunking.py:146-197 | a block's page is 1 plus the form feeds before its start, its section is the heading stack there, and its article the last one since the last page break |
| Blocks.BlocksUnique | apps/api/app/knowledge/chunking.py:146-197 | the blocks are the only list of that kind: they are cut nowhere but at events |
| LineText.LinesExactly | apps/api/app/knowledge/chunking.py:168 | a line runs from the end of the one before to the first place after which a line boundary lies, a carriage return and its feed staying together, or to the end of the text |
| LineText.EveryLine | apps/api/app/knowledge/chunking.py:168 | every such stretch of the text is a line |
| BlockText.EventsExactly | apps/api/app/knowledge/chunking.py:162-186 | what happens at a position of the text, and only that: a page break after a form feed, and at the start of a line a heading or an article exactly when the profile asks for it and the pattern finds it in the line without its ending |
| BlockText.EventExactly | apps/api/app/knowledge/chunking.py:162-186 | the positions with events are exactly those, with those events |
| BlockText.BlocksTheorem | apps/api/app/knowledge/chunking.py:140-197 | the blocks, told on the text: the stretches between neighbouring such positions that are not blank, each without the white space at its ends, with the page, the headings in force and the article that hold where it starts |
| Blocks.StackShape | apps/api/app/knowledge/chunking.py:193-194 | a section path ends with the latest heading and is no longer than that heading is deep |
| Blocks.SectionShape | apps/api/app/knowledge/chunking.py:146-197 | a block's section path is empty before the first heading, then ends with the latest one and is no longer than that is deep, at most six |
| Chunks.BuildChunks | apps/api/app/knowledge/chunking.py:59-137 | the chunks are the members of the blocks' families, in order; it raises exactly when some text that has to be cut into windows does not survive decoding |
| Chunks.BuildParent | apps/api/app/knowledge/chunking.py:91-136 | a parent and its leaves, with the parent's forced id and the leaves' ids |
| Chunks.FamiliesTheorem | apps/api/app/knowledge/chunking.py:67-137 | standalone chunks and parents tile what the blocks tile, each within one block; a parent's leaves cover exactly its range; sizes are bounded |
| Chunks.ChunksTheorem | apps/api/app/knowledge/chunking.py:59-137 | end to end: what the chunker returns is a list of families that tile the text but for whitespace, each in its own context, with every non-whitespace character in a childless chunk |
| Chunks.NothingLost | apps/api/app/knowledge/chunking.py:59-137 | every non-whitespace character lies in a childless chunk |
| Chunks.ChunksStayInContext | apps/api/app/knowledge/chunking.py:282-316 | each chunk is the slice it names, counts that slice's tokens, carries its block's context, and has no hard boundary strictly inside |
| ChunkText.ChunksTell | apps/api/app/knowledge/chunking.py:282-321 | every chunk the chunker returns, told on the text: its slice, its token count, the id made of it, its first and last line and its paragraph counted in the text, and the page, section and article that hold there, with no such position strictly inside |
| FamilyText.DocumentTells | apps/api/app/knowledge/chunking.py:59-137 | all chunks in order: a block whose tokens fit a leaf is one chunk that stands alone; any other gives a parent for each of its pieces, followed by the windows over that parent's tokens as leaves that name it and are named by it; or a failure, for a text that has to be cut into windows and is not given back |
| Chunks.TopsInOrder | apps/api/app/knowledge/chunking.py:67-137 | parents and standalone chunks are disjoint and in order |
| ChunkIds.IdsDifferExactly | apps/api/app/knowledge/chunking.py:260-321 | the ids of all chunks differ if and only if no step of the window over a parent's tokens stays on the same characters at both ends and no empty last window of one parent meets an empty first window of the next |
| ChunkIds.IdsDifferByTokens | apps/api/app/knowledge/chunking.py:260-321 | where every token of a parent begins before its text ends, the ids differ if and only if each window step gets past a character |
| ChunkIds.SameIdTwice | apps/api/app/knowledge/chunking.py:260-321 | a run of the chunker, within the limits the profile allows, that returns two chunks with one id |
| ChunkIds.SameWindowTwice | apps/api/app/knowledge/chunking.py:268-279 | a text and window sizes for which two windows in a row have one range |
| ProjectRuns.StepSound | apps/api/app/projects/worker.py:46-85 | every request and every worker step, crashes and restarts included, keeps the system sound |
| ProjectRuns.RunSound | apps/api/app/projects/worker.py:46-61 | every run from a sound state ends in one |
| ProjectRuns.ReachableSound | apps/api/app/projects/worker.py:46-61 | every state reachable from empty tables is sound |
| ProjectInvariant.CreateInv | apps/api/app/projects/repository.py:472-528 | creating a project keeps the invariant |
| ProjectInvariant.UploadInv | apps/api/app/projects/repository.py:924-967 | so does opening an upload session on the draft |
| ProjectInvariant.MarkInv | apps/api/app/projects/repository.py:1006-1014 | so does marking a part uploaded, in whatever state its session is |
| ProjectInvariant.FinalizeInv | apps/api/app/projects/repository.py:1016-1093 | so does finalizing an upload: every new file row gets its blob |
| ProjectInvariant.DeleteInv | apps/api/app/projects/repository.py:1115-1131 | so does deleting a draft file |
| ProjectInvariant.SubmitInv | apps/api/app/projects/repository.py:1133-1190 | so does submitting: the draft is sealed with its files and no open upload points at it |
| ProjectInvariant.ClaimInv | apps/api/app/projects/repository.py:1203-1248 | so does claiming the oldest queued build while nothing is building |
| ProjectInvariant.LifecycleInv | apps/api/app/projects/repository.py:1250-1265 | so does reporting progress |
| ProjectInvariant.HeldBuildCompletes | apps/api/app/projects/repository.py:1285-1311 | a build that is held is never refused completion, and its snapshot has files to build from |
| ProjectInvariant.CompleteInv | apps/api/app/projects/repository.py:1285-1363 | completing a held build keeps the invariant |
| ProjectInvariant.FailInvExactly | apps/api/app/projects/repository.py:1365-1392 | failing a build keeps the invariant exactly when its job is live or its snapshot is the editable draft |
| ProjectLateFailure.LateFailureBreaks | apps/api/app/projects/repository.py:1365-1392 | after any build has completed, failing it breaks the invariant |
| ProjectLateFailure.LateFailureHappens | apps/api/app/projects/worker.py:56-74 | a state reached by create, upload, mark, finalize, submit, claim and complete in which it does |
| ProjectInvariant.ArchiveInv | apps/api/app/projects/repository.py:1394-1404 | archiving keeps the invariant |
| ProjectInvariant.RestoreInv | apps/api/app/projects/repository.py:1406-1421 | so does restoring |
| ProjectInvariant.CleanupInv | apps/api/app/projects/repository.py:1423-1446 | so does expiring uploads |
| ProjectInvariant.PurgeInv | apps/api/app/projects/repository.py:1448-1465 | so does purging, and only the purged project's rows go |
| ProjectRuns.RecoverInv | apps/api/app/projects/repository.py:365-401 | recovery keeps the invariant and leaves nothing building |
| ProjectInvariant.JoinLosesNothing | apps/api/app/projects/repository.py:1267-1283 | joining files with blobs loses no file of any snapshot |
| ProjectInvariant.DraftIs | apps/api/app/projects/repository.py:1546-1557 | the draft query finds the one editable snapshot, and nothing while a build is queued or running |
| ProjectFreeze.QueueMatchesState | apps/api/app/projects/repository.py:1133-1248 | a project is queued or building exactly while it has a live job; then it has one, of that status, for the current generation, on a sealed snapshot with files |
| ProjectFreeze.SnapshotsMatchGeneration | apps/api/app/projects/repository.py:1311-1335 | snapshots number generation + 1: one editable, or sealed while a build is live; one active once there is one; the rest validated |
| ProjectFreeze.StepMoves | apps/api/app/projects/repository.py:1031-1092 | in one step only an editable snapshot takes other files, and only failing its build opens a sealed one |
| ProjectFreeze.FrozenUnlessReopened | apps/api/app/projects/repository.py:1133-1190 | over any run a snapshot that is not editable keeps its file set as long as its build is not failed |
| ProjectFreeze.ActiveFrozen | apps/api/app/projects/repository.py:1315-1363 | over any run the file set of an active or validated snapshot never changes |
| ProjectFreeze.DraftStartsFromActive | apps/api/app/projects/repository.py:1328-1355 | the fresh draft starts with the content of the snapshot just built |
| ProjectRepository.Repository.FindDraft | apps/api/app/projects/repository.py:1546-1557 | looking through all rows finds the draft |
| ProjectRows.DraftRows | apps/api/app/projects/repository.py:1546-1557 | the draft is an editable snapshot of the project created no earlier than any other |
| ProjectRepository.Repository.CreateProject | apps/api/app/projects/repository.py:472-528 | a draft project with one empty editable snapshot |
| ProjectRows.CreateProjectRows | apps/api/app/projects/repository.py:472-528 | one new project row and one new empty editable snapshot, with those fields; every other row stays |
| ProjectRepository.Repository.CreateUploadSession | apps/api/app/projects/repository.py:924-967 | refused unless the project is open for editing and has a draft |
| ProjectRows.CreateUploadSessionRows | apps/api/app/projects/repository.py:924-967 | when it is refused, and the one new session row, open on the draft with its parts; every other row stays |
| ProjectRepository.Repository.MarkPartUploaded | apps/api/app/projects/repository.py:1006-1014 | refused unless the part is pending |
| ProjectRows.MarkPartUploadedRows | apps/api/app/projects/repository.py:1006-1014 | when it is refused, and that only the state of the part with that id changes |
| ProjectRepository.Repository.FinalizeUpload | apps/api/app/projects/repository.py:1016-1093 | part by part: an existing blob stays, a row of the same name is replaced; nothing is written unless every part can be |
| ProjectRows.FinalizeUploadRows | apps/api/app/projects/repository.py:1016-1093 | when it is refused; then which file rows and blobs there are afterwards, name by name: those of the parts, the last part of a name winning, and an existing blob staying; every other snapshot, session, job and project stays |
| ProjectRepository.Repository.DeleteFile | apps/api/app/projects/repository.py:1115-1131 | removes a file of the draft, and no other file of it or of another snapshot (see `ProjectRows.DeleteFileRows`) |
| ProjectRows.DeleteFileRows | apps/api/app/projects/repository.py:1115-1131 | when it is refused; then a name is in the draft exactly if it was and is not the deleted one, with the same row, and every other row of every table stays |
| ProjectRepository.Repository.SubmitBuild | apps/api/app/projects/repository.py:1133-1190 | queues a job for the sealed draft, or refuses |
| ProjectRows.SubmitBuildRows | apps/api/app/projects/repository.py:1133-1190 | when it is refused; then the new queued job, the sealed draft and the project's new state; every other row stays |
| ProjectRepository.Repository.ClaimBuild | apps/api/app/projects/repository.py:1203-1248 | nothing while some build runs; otherwise the job that has waited longest |
| ProjectRows.ClaimBuildRows | apps/api/app/projects/repository.py:1203-1248 | what claiming a job changes: its state, its project's, and the labels of its snapshot's files; every other row stays |
| ProjectRepository.Repository.UpdateFileLifecycle | apps/api/app/projects/repository.py:1250-1265 | labels every file of a snapshot and nothing else |
| ProjectRows.UpdateFileLifecycleRows | apps/api/app/projects/repository.py:1250-1265 | only labels of the snapshot's files change |
| ProjectRepository.Repository.CompleteBuild | apps/api/app/projects/repository.py:1285-1363 | the built snapshot becomes active, the former one validated, and a copy becomes the draft; never refused for a held build |
| ProjectRows.CompleteBuildRows | apps/api/app/projects/repository.py:1285-1363 | when it is refused; then the active snapshot, the graph version, the count, the generation and the states of job, project, former active and new draft, with its files; every other row stays |
| ProjectRepository.Repository.FailBuild | apps/api/app/projects/repository.py:1365-1392 | the job fails and the snapshot opens again, whatever its state |
| ProjectRows.FailBuildRows | apps/api/app/projects/repository.py:1365-1392 | the job, its project, its snapshot and its files' labels after a failure; every other row stays |
| ProjectRepository.Repository.RecoverBuilds | apps/api/app/projects/repository.py:365-401 | three updates that together requeue every interrupted build |
| ProjectRows.RecoverBuildsRows | apps/api/app/projects/repository.py:365-401 | which jobs, projects and files change at recovery, and how; every other row stays |
| ProjectRepository.Repository.Archive | apps/api/app/projects/repository.py:1394-1404 | refused only while a build is queued or running |
| ProjectRows.ArchiveRows | apps/api/app/projects/repository.py:1394-1404 | refused exactly while queued or building; then state and time, and nothing else |
| ProjectRepository.Repository.Restore | apps/api/app/projects/repository.py:1406-1421 | refused unless archived within the retention |
| ProjectRows.RestoreRows | apps/api/app/projects/repository.py:1406-1421 | when it is refused; then the state, by whether there is an active snapshot, and nothing else |
| ProjectRepository.Repository.CleanupExpiredUploads | apps/api/app/projects/repository.py:1423-1446 | open sessions past their time expire |
| ProjectRows.CleanupExpiredUploadsRows | apps/api/app/projects/repository.py:1423-1446 | exactly the open sessions past their time are expired; every other field stays |
| ProjectRepository.Repository.PurgeExpired | apps/api/app/projects/repository.py:1448-1465 | refused unless archived beyond the retention; then everything of the project goes |
| ProjectRows.PurgeExpiredRows | apps/api/app/projects/repository.py:1448-1465 | when it is refused; then exactly the rows of the project are gone from all tables |
| ProjectRepository.Turn | apps/api/app/projects/worker.py:46-85 | one turn of the worker: a build it claims ends ready or failed, and completing it is never refused |
| Exchanges.CompleteExchanges | apps/api/app/store/conversations.py:374-387 | the pairing loop with its pending question |
| Exchanges.ScansAgree | apps/api/app/store/sqlalchemy.py:621-630 | pairing messages and pairing their positions give the same exchanges |
| TurnText.ExchangesExactly | apps/api/app/store/conversations.py:374-387 | an exchange is a completed question whose next completed message is an answer; all of them are found, in order, and the question that waits is a last completed message |
| Exchanges.PruneExactly | apps/api/app/store/conversations.py:338-354 | pairing what pruning leaves gives exactly the last exchanges if and only if no unpaired question is followed by an unpaired answer before them |
| Exchanges.PairedPrune | apps/api/app/store/conversations.py:338-354 | with every completed answer paired, it gives exactly the last `max_turns` exchanges |
| TurnText.PruneTells | apps/api/app/store/conversations.py:338-354 | exactly the messages of the exchanges older than the last `max_turns` go; all others stay in order |
| Exchanges.PrunePaired | apps/api/app/store/conversations.py:338-354 | pruning keeps every answer paired |
| Exchanges.TurnTaking | apps/api/app/store/conversations.py:217-239 | questions and answers added in turn keep every answer paired |
| Exchanges.OverlapFormsAnExchange | apps/api/app/store/conversations.py:338-354 | six messages of overlapping requests for which pruning forms a new exchange |
| Exchanges.PruneById | apps/api/app/store/conversations.py:338-354 | pruning by message id drops the specified messages |
| SqlStore.PruneByRowId | apps/api/app/store/sqlalchemy.py:451-471 | pruning by row id drops the same messages |
| SqlStore.CompleteExchangeRowIds | apps/api/app/store/sqlalchemy.py:621-630 | the same pairs, by row id |
| Exchanges.GetHistory | apps/api/app/store/conversations.py:313-336 | the history is one run of consecutive exchanges of the last turns: newer ones are too long on their own, it fits the character limit, and one more older exchange would not |
| TurnText.HistoryTheorem | apps/api/app/store/conversations.py:313-336 | on the messages: of the last `max_turns` exchanges (for a negative number, all but so many first) a run of consecutive ones, each question before its answer, whose contents together fit the character limit while one older exchange more would not, and after which each exchange is too long on its own |
| Exchanges.ChosenUnique | apps/api/app/store/conversations.py:324-331 | there is only one such run |
| Conversations.StepSettled | apps/api/app/store/conversations.py:168-201 | an archived conversation never has a running lease, whatever operation comes next |
| Conversations.RunSettled | apps/api/app/store/conversations.py:168-201 | the same over every run with non-decreasing time |
| Conversations.LeaseKept | apps/api/app/store/conversations.py:274-311 | a request that holds a lease holds it until it releases it or time passes its end, whatever other requests do short of deleting the project, and meanwhile its conversation is never archived, purged or cleaned up |
| Conversations.AcquiredKept | apps/api/app/store/conversations.py:274-295 | a request that acquires at a time holds the conversation until that time plus the lease length, whatever others do short of deleting the project |
| Conversations.OthersRefused | apps/api/app/store/conversations.py:368-371 | meanwhile others are told who holds the conversation |
| ConversationRows.CreateRows | apps/api/app/store/conversations.py:65-87 | every field of a new conversation; every other one stays |
| ConversationRows.RenameRows | apps/api/app/store/conversations.py:158-166 | when renaming is refused, and with what; then name and time change, and nothing else |
| ConversationRows.ArchiveRows | apps/api/app/store/conversations.py:168-176 | when archiving is refused, and with what; then it is archived now, and nothing else changes |
| ConversationRows.RestoreRows | apps/api/app/store/conversations.py:178-188 | when restoring is refused, and with what; then it is no longer archived, and nothing else changes |
| ConversationRows.PurgeRows | apps/api/app/store/conversations.py:190-201 | when purging is refused, and with what; then that conversation alone is gone |
| ConversationRows.DeleteProjectRows | apps/api/app/store/conversations.py:203-215 | exactly the project's conversations go |
| ConversationRows.CleanupRows | apps/api/app/store/conversations.py:49-63 | exactly those archived before the cutoff go |
| ConversationRows.AcquireRows | apps/api/app/store/conversations.py:274-295 | a request acquires an open conversation of its user exactly if no other request holds it, and otherwise is told which does; then its lease runs from now for the lease length, and nothing else changes |
| ConversationRows.ReleaseRows | apps/api/app/store/conversations.py:297-311 | a request takes away its own lease and no other; nothing else changes |
| ConversationRows.ReleaseFrees | apps/api/app/store/conversations.py:274-311 | once the holder releases, no lease is left and anybody's next request acquires, whenever it comes |
| ConversationRows.ExpiryFrees | apps/api/app/store/conversations.py:274-295 | without a release, another request acquires exactly when the lease length has passed, and is told the holder before |
| ConversationRows.AppendRows | apps/api/app/store/conversations.py:241-272 | the message goes last; the first question of a conversation without a name names it; nothing else changes but the time |
| ConversationRows.PruneRows | apps/api/app/store/conversations.py:338-354 | only the messages of that conversation change |
| LeaseTurns.RunPaired | apps/api/app/api/router.py:359-449 | over any run, of any requests, in which each answer of a conversation is given by its holder before the lease held at its own question runs out, every completed answer is paired |
| LeaseTurns.QuestionWaits | apps/api/app/api/router.py:359-391 | from question to answer such a request holds the conversation, and its question stays the waiting one through every other request and every pruning |
| LeaseTurns.RunPruned | apps/api/app/store/conversations.py:338-354 | so pruning leaves exactly the last exchanges at every point of such a run |
| MemoryStore.InMemoryConversationStore.AcquireRequest | apps/api/app/store/conversations.py:274-295 | the lease operations on four maps refine the specified store |
| MemoryStore.InMemoryConversationStore.ReleaseRequest | apps/api/app/store/conversations.py:297-311 | releasing drops the lease only for the request that holds it |
| MemoryStore.InMemoryConversationStore.Archive | apps/api/app/store/conversations.py:168-176 | archiving refines the specification |
| MemoryStore.InMemoryConversationStore.Rename | apps/api/app/store/conversations.py:158-166 | renaming refines the specification; the default name is recorded as no name |
| MemoryStore.InMemoryConversationStore.Restore | apps/api/app/store/conversations.py:178-188 | restoring refines the specification |
| MemoryStore.InMemoryConversationStore.Purge | apps/api/app/store/conversations.py:190-201 | purging refines the specification and leaves nothing in any map |
| MemoryStore.InMemoryConversationStore.Cleanup | apps/api/app/store/conversations.py:49-63 | cleanup removes exactly what has been archived beyond the retention, and says how many |
| MemoryStore.InMemoryConversationStore.DeleteProject | apps/api/app/store/conversations.py:203-215 | deleting a project removes exactly its conversations, and says how many |
| MemoryStore.InMemoryConversationStore.Append | apps/api/app/store/conversations.py:241-272 | appending refines the specification; the first question of an unnamed conversation names it |
| MemoryStore.InMemoryConversationStore.PruneMessages | apps/api/app/store/conversations.py:338-354 | pruning in place; a conversation that is gone is an error here |
| SqlStore.SQLAlchemyConversationStore.AcquireRequest | apps/api/app/store/sqlalchemy.py:366-401 | one conditional update, with the reason looked up only when it matches nothing, refines the specified store |
| SqlStore.SQLAlchemyConversationStore.ReleaseRequest | apps/api/app/store/sqlalchemy.py:403-428 | a conditional update refines the specified release |
| SqlStore.SQLAlchemyConversationStore.Archive | apps/api/app/store/sqlalchemy.py:261-269 | archiving refines the specification |
| SqlStore.SQLAlchemyConversationStore.Rename | apps/api/app/store/sqlalchemy.py:249-259 | renaming refines the specification |
| SqlStore.SQLAlchemyConversationStore.Restore | apps/api/app/store/sqlalchemy.py:271-284 | restoring refines the specification |
| SqlStore.SQLAlchemyConversationStore.Purge | apps/api/app/store/sqlalchemy.py:286-297 | purging refines the specification |
| SqlStore.SQLAlchemyConversationStore.Cleanup | apps/api/app/store/sqlalchemy.py:149-158 | cleanup refines the specification, and says how many it removed |
| SqlStore.SQLAlchemyConversationStore.DeleteProject | apps/api/app/store/sqlalchemy.py:299-304 | deleting a project refines the specification, and says how many it removed |
| SqlStore.SQLAlchemyConversationStore.Append | apps/api/app/store/sqlalchemy.py:330-364 | the next ordinal puts a message after all others; the first question of an unnamed conversation names it |
| SqlStore.SQLAlchemyConversationStore.PruneMessages | apps/api/app/store/sqlalchemy.py:451-471 | pruning in place; a conversation that is gone is ignored here |
| StoresAgree.Both | apps/api/app/store/sqlalchemy.py:330-428 | given the same operation, the two stores give the same refusal and count unless a conversation is gone at pruning, and hold the same conversations after it if and only if none is given the default name |
| StoresAgree.SameStateExactly | apps/api/app/store/sqlalchemy.py:362-363 | the two specified next states are equal exactly unless a conversation is given the default name |
| StoresAgree.DefaultNameForgotten | apps/api/app/store/conversations.py:270-271 | named so, a conversation is named anew by its next question in one store and keeps the name in the other |
| StoresAgree.Replay | apps/api/app/store/conversations.py:20-48 | fed the same run, in which no conversation is given the default name, both end in the specified state |
| Evidence.MergedIsFirstSeen | apps/api/app/agent/workflow.py:282-310 | merging keeps, for each id, the record seen first, in the order of first sight |
| Evidence.RestrictClosed | apps/api/app/agent/workflow.py:312-326 | keeping the edges and paths within some leading nodes is closed |
| Evidence.PopRestricts | apps/api/app/agent/workflow.py:362-379 | popping the last node with what hangs on it is the restriction to one node less |
| EvidenceMerge.MergeResults | apps/api/app/agent/workflow.py:289-310 | the merging loops over nodes, edges, paths, citations, warnings and version |
| EvidenceMerge.LimitedClosed | apps/api/app/agent/workflow.py:312-326 | what the limits leave is closed in nodes and edges, distinct, within the limits, and its nodes are the first seen (exactly which, in `MergeText.LimitsTheorem`) |
| MergeText.LimitsTheorem | apps/api/app/agent/workflow.py:312-326 | exactly min(`maxNodes`, all) of the first-seen nodes stay; the edges are the first min(`maxEdges`, all) of the first-seen edges with both ends kept; the paths are the first-seen ones whose nodes and edges are all kept |
| EvidenceMerge.Shrink | apps/api/app/agent/workflow.py:356-379 | the dropping loop ends at the longest restriction that fits, or with no node left |
| EvidenceMerge.CutOfIs | apps/api/app/agent/workflow.py:359-379 | the evidence is cut to the longest restriction whose encoding fits |
| MergeText.OutcomeTheorem | apps/api/app/agent/workflow.py:356-379 | the outcome is the restriction to the longest run of leading nodes that fits the byte limit, told by which edges and paths lie within it, or nothing if none fits |
| EvidenceMerge.MergeEvidence | apps/api/app/agent/workflow.py:279-405 | the result is that restriction, or nothing if even that is too large, with the citations that go with it; every label lookup succeeds |
| MergeText.CitationsTheorem | apps/api/app/agent/workflow.py:332-405 | which citations come back, id by id: the given ones that name a survivor, those made for surviving nodes nobody cites, and those of the surviving edges and paths, which replace others of their id |
| CitationOrder.OrderTheorem | apps/api/app/agent/workflow.py:329-405 | in which order: the given ones about returned nodes first, then those made for nodes, edges and paths, each in their order, unless the id has come before |
| MergeText.MergeTheorem | apps/api/app/agent/workflow.py:279-405 | for every result list and limits: what is returned told on the results, by first seen ids, the limits exactly as in `MergeText.LimitsTheorem`, the longest restriction that fits the byte limit, exactly the citations of `MergeText.CitationsTheorem`, the first version, and the warnings with the truncation warning exactly when the limits dropped nodes or edges; closed, and within the byte limit or empty |
| EvidenceMerge.PathEdgesStayExactly | apps/api/app/agent/workflow.py:362-375 | no dropping can strand a path's edge if and only if each listed edge lies no further down the node list than the path's own nodes |
| EvidenceMerge.EmptyPathStays | apps/api/app/agent/workflow.py:369-371 | a path without nodes is never dropped |
| EvidenceMerge.WellFormedCovered | apps/api/app/agent/workflow.py:362-375 | paths whose edges join their own nodes meet that condition |
| EvidenceMerge.StrandedEdge | apps/api/app/agent/workflow.py:369-371 | closed evidence whose path lists an edge that is gone after one node is popped |
| EvidenceMerge.StrandedOutcome | apps/api/app/agent/workflow.py:282-379 | the merge of one result that the limits leave whole and the byte limit cuts after its first node ends with a path that lists an edge that is gone |
| EvidenceMerge.OutcomeStaysExactly | apps/api/app/agent/workflow.py:359-379 | for every size measure and byte limit the outcome's paths keep their edges if and only if each listed edge lies no further down the node list than the path's own nodes |
| EvidenceMerge.OneResultStays | apps/api/app/agent/workflow.py:282-326 | one result without repetition, closed and within the limits is the merged evidence before the byte limit |
| EvidenceMerge.CiteGraph | apps/api/app/agent/workflow.py:384-405 | edge and path citations with labels looked up without a default |
| EvidenceMerge.CitationsNameSurvivors | apps/api/app/agent/workflow.py:332-376 | every citation that names a node names one that survived |
| EvidenceMerge.NodeCitedExactly | apps/api/app/agent/workflow.py:332-354 | within the limits a node is cited exactly unless no citation names it and the key made for it is taken |

## Left out

- The web application, HTTP routing, authentication, logging, settings, migrations and the model and graph transports.
- Cypher text, driver sessions and timeouts: the store is abstract.
- What evidence consists of: file paths, line numbers, resolution and via-table are one string; the digests of path and item ids.
- Retrieval, ranking, auto-merging and the source index built from the chunks.
- Idempotency replay, audit events, memberships, access requests and `updated_at` of the project repository.
- File row ids: a file is named by its snapshot and its logical filename, which the table keeps unique; reading files in name order.
- Copying files, document conversion and directory handling of the worker; what a build raises is a parameter.
- Several workers at once: the repository's documentation assumes one.
- Listing conversations with cursors, defensive copies, and showing an empty name; how names are trimmed and derived is a parameter.
- SqlStore.SQLAlchemyConversationStore.Append: message rows belong to their conversation row, so the uniqueness of row ids over the whole table is only used within a conversation.
- MemoryStore.InMemoryConversationStore.DeleteProject: the four maps lose all conversations at once instead of one by one; so in Cleanup.
- Parsing and validation of graph results, node and edge properties other than `context`, and the encoding whose size is limited: the size is any function of the evidence.
- Tool-call counting of `query_graphify` and `expand_graph_evidence`, language detection, prompts and citation renumbering.
