# zanzo, verified

zanzo answers authorization questions over a schema of relations and a store of
tuples. This project models its check engine, explainer, reverse query, tuple
store, cache and schema parser, and proves what they promise, alone and together.

The model keeps the shape of the program. The store, the cache, one evaluation,
the explainer, the reverse walk and the parser are classes whose methods loop and
update fields as the program does. Each method is proved against a function that
says what it computes, and the theorems are about those functions.

| files | contents |
|---|---|
| `Names`, `Schema` | objects, subjects, string keys; the rewrite language |
| `Storage`, `Memory` | the append-and-tombstone log and its history; the store with its two indexes |
| `Semantics` | what a schema means: least fixpoint, reachability, acyclic recursion |
| `Check` | `Exec`: one request step by step, with memo, cache, visiting set, depth and counters |
| `Grants`, `Denials`, `Records`, `StaleDenial`, `Work` | allows, denials, exactly what a cycle can get wrong, depth and work |
| `Reported`, `Depth` | the depth and the counts a check reports, and the depth limit among overlapping checks |
| `Acyclic` | acyclicity as a fact about the data, and what it gives a check |
| `Coherence`, `Runs`, `Concurrency` | one cache shared by whole histories, and by checks that overlap |
| `Snapshot`, `Engine` | the engine, with other clients writing between any two reads and other checks recording between any two cache calls |
| `Expand`, `Explainer` | userset trees and what they show |
| `Routes`, `Labels` | exactly when a tree can be drawn, and what its labels mean |
| `Reverse` | reverse analysis of the schema |
| `Sweep`, `Finding` | the walk backwards as a function, and exactly what it finds |
| `Listing`, `ListObjects`, `CachedListing` | the listing, when it agrees with checks, and what it returns with a shared cache |
| `MissedObject`, `OrderMatters`, `Received` | scenes where listings miss an object, and that they can arise |
| `Lexer`, `Grammar`, `Chains`, `Declarations`, `Parser` | from text to schema |
| `Writer`, `Shape`, `Document`, `Accepted` | from schema to text, and back; exactly which texts are accepted |
| `Loading` | what an engine may rely on when its schema was parsed |

## Reading the theorems

A *node* is an object and a relation. `Reach(s, n, k)` says that at most k
granting edges lead from n to a stored tuple naming the subject; granting edges
are those of a rewrite outside the subtracted side of an exclusion. `Granted(s)`
is the least fixpoint of the rewrites, for schemas without `-`, and
`Lfp(s, cut)` the least fixpoint with the nodes of `cut` denied. `Descends` says
that every dependency of a ranked node is ranked lower; a root has such a ranking
if and only if no cycle lies among its dependencies
(`Acyclicity.AcyclicMeansRanked`). `Unrolled(s, k)` applies the rewrites k times
to nothing, which there is the plain recursive meaning of the full language.

A *route* is a dependency path that repeats no node except perhaps its last, and a root
is `Enclosed` by a limit when a set of at most that many pairs contains it and whatever
its pairs depend on; `Manageable` when these are all defined too. A *layout* of a list of
tokens puts blanks and comments between them, or nothing where two neighbours are not
both identifiers.

What the program leaves to chance is a parameter: the order in which each pass over
the schema's maps goes (`Reverses.Ranges`), and what other checks have put into the
shared cache by each cache call (`Concurrency.Others`).

### Cycles

A back edge answers false, and that false is memoised and cached
(`internal/check/check.go:178-203`). The comment there calls this sound. In
schemas of unions the answer to the request is indeed right, but a recorded
denial may be wrong: `StaleDenial.RecordedDenialsCanBeWrong` is a schema of one
relation and three tuples where the next request is denied wrongly.
`Records.RecordsAreRightExactly` gives the exact condition, on the schema, the
tuples and the root alone. From the root, follow the first edge in evaluation
order that names the subject or leads to a node granted without the nodes already
on the path; everything an error-free cold request records is right if and only
if no edge passed over on the way leads to a granted node off the path.
`Denials.AcyclicChecksAreExact` covers the full language and any cache that was
right, where the dependencies are acyclic.

### What a listing can miss

The comment at `internal/schema/reverse.go:10-15` says that no path is ever missed.
The walk looks for heirs only of nodes found through a stored tuple
(`internal/check/listobjects.go:179`), so a permission computed from a permission
beyond a `->` is not found: `MissedObject.AllowedButNeverProposed` is a valid schema
of two types where every listing leaves out an object that Check allows.
`Finding.Found` says what is found, level by level. As long as tuples are stored
only on relations without a rewrite (`Finding.TuplesOnRelations`), exactly what is
found is proposed, and a successful uncached listing is what Check allows if and only
if every allowed object has a contributing relation that is found
(`Listers.ListingAgreesExactlyWhenFound`). `Listers.WellShaped` is a condition on the
data that implies it: walks and stored usersets lead to relations without a rewrite,
tuples under the tupleset of a walk name plain subjects, and names do not contain the
separators of the string keys.

The comment at `internal/check/listobjects.go:74-75` promises the same pages for the
same data. Where a tuple is stored on a permission they can differ between two calls:
a permission found as an heir counts as seen, and its own walks are then never
followed, so the order in which one pass over the schema meets two types decides
(`OrderMatters.OrderDecides`). Where tuples are stored only on relations the order
never matters (`Finding.OrderDoesNotMatter`).

The comment at `internal/check/listobjects.go:35-38` says that Check has the same
bound. With the shared cache on, a cached allow lets a check reach further than its
depth limit, and the walk does not (`CachedListing.CachedAllowIsNotListed`).

### Type restrictions

`internal/schema/parse.go:178` says that type restrictions are kept; they are
parsed and dropped, and the model does the same.

## Model

| member | source | states |
|---|---|---|
| Names.KeysDetermineExactlyPlainNodes | internal/storage/storage.go:123 | an index key tells a node apart from every other plain node if and only if the node is plain (no `:` in its type, no `#` in its relation) |
| Names.SubjectStringDetermines | internal/storage/storage.go:33-38 | printed forms of plain subjects are injective, so a reverse-index bucket holds one subject |
| Names.ParseSubjectRoundTrip | internal/storage/storage.go:71-93 | printing then parsing gives the subject back if and only if its names are plain and neither half of the object is empty |
| Names.ParsedSubjectPrintsBack | internal/storage/storage.go:71-93 | whatever parses prints back to its text and is plain |
| Storage.EarlierViewsNeverChange | internal/storage/storage.go:125-160 | a write leaves the view at every earlier revision the same, order included |
| Storage.EarlierViewsSurviveHistory | internal/storage/storage.go:125-160 | so does any number of writes |
| Storage.WriteStaysOrderly | internal/storage/storage.go:113-160 | every write keeps: created strictly before deleted, no revision past the head, at most one live row per grant |
| Storage.WriteStep | internal/storage/storage.go:131-158 | the new head view is the old one minus everything in `remove`, plus everything in `add`, with plain names |
| Storage.LogRefinesHistory | internal/storage/storage.go:125-174 | after any writes, the view at any revision has no duplicates and holds exactly snapshot min(revision, head) of the history of sets |
| Storage.ReadIsExact | internal/storage/storage.go:162-174 | reading a key's bucket, which is not filtered again, returns exactly the visible tuples of that object and relation, none twice |
| Storage.ReadBySubjectIsExact | internal/storage/storage.go:182-196 | a reverse read returns exactly the visible tuples naming the subject, of the relation if one is given, none twice |
| Storage.ReadKeepsOrder | internal/storage/storage.go:166-172 | a forward read is the view at the increasing list of exactly the positions of that object and relation: row order, nothing missed, nothing twice |
| Storage.ReadBySubjectKeepsOrder | internal/storage/storage.go:186-194 | likewise a reverse read, at exactly the positions that name the subject, filtered by relation |
| Storage.ViewKeepsOrder | internal/storage/storage.go:168-171 | a view is the rows visible at its revision, in the order they were written |
| Storage.IndexesAgree | internal/storage/storage.go:102-111 | after any writes and at every revision, a tuple is found under its object exactly when it is found under its subject |
| Storage.CollidingKeysRevokeTheWrongTuple | internal/storage/storage.go:131-138 | why names must be plain: after one write of a tuple, removing another whose key collides revokes it |
| Storage.FirstWriteShows | internal/storage/storage.go:139-158 | a first write of different grants to an empty store shows exactly them, in order |
| MemoryStore.CollectedIsBucket | internal/storage/storage.go:165-173 | following an index from offsets to visible rows yields the bucket of the view, in order |
| MemoryStore.Memory.Write | internal/storage/storage.go:125-160 | both index maps and the rows end as one write of the log specification; the new head is returned |
| MemoryStore.Memory.Tombstone | internal/storage/storage.go:131-138 | one removal buries exactly the live rows of its grant and keeps both indexes right |
| MemoryStore.Memory.Append | internal/storage/storage.go:139-158 | one addition is a no-op when a live row grants it, else one new row entered in both indexes |
| MemoryStore.Memory.Read | internal/storage/storage.go:162-174 | the indexed loop returns the specified read of the view at any revision, no tuple twice |
| MemoryStore.Memory.ReadBySubject | internal/storage/storage.go:182-196 | likewise through the reverse index, with its relation filter, no tuple twice |
| MemoryStore.Memory.OtherClients | internal/check/check.go:71-74 | any writes of other clients leave every view up to the old head unchanged |
| Semantics.LfpWithoutSelf | internal/check/expand.go:71-78 | cutting a node out of play loses nothing for it: it is in the least fixpoint if and only if its rewrite holds over the least fixpoint without it |
| Semantics.GrantedIsFixpoint | internal/check/check.go:207-298 | without exclusion, a node is granted exactly when its rewrite holds over what is granted |
| Semantics.GrantedIsReachable | internal/check/check.go:207-266 | with unions only, granted means reachable, on any graph |
| Semantics.ReachHasPath | internal/check/check.go:207-298 | reaching in k edges is having an explicit path of at most k + 1 nodes |
| Semantics.SolutionIsUnrolled | internal/check/check.go:207-298 | on an acyclic region every solution of the rewrites is the plain recursive meaning |
| Semantics.UnrolledSolves | internal/check/check.go:207-298 | and the recursive meaning is a solution |
| Checks.ExecExtends | internal/check/check.go:160-204 | no step forgets or changes a memo or cache entry, and the visiting set is restored on every exit, errors included |
| Grants.ExecGrantsWithin | internal/check/check.go:165-204 | whatever set is closed under the rewrites, exclusions read as their base, no answer, memo or cache allow leaves it |
| Grants.AllowsAreGranted | internal/check/check.go:110-205 | without exclusion every allow, answered, memoised or cached, lies in the least fixpoint, cycles included |
| Grants.AllowsAreReachable | internal/check/check.go:207-298 | in every schema every allow has a granting path to a tuple naming the subject |
| Grants.FirstMatchReaches | internal/check/check.go:283-295 | the first match in time is reached by granting edges only and within the depth limit, whatever the memo, on success or failure |
| Grants.AllowHasShortWitness | internal/check/check.go:145-298 | without a cache, an allow in any schema has a witness path no longer than the depth limit |
| Grants.UsersetsAreDenied | internal/check/check.go:215-221 | a userset subject is never allowed anything |
| Denials.DenialsAreExplored | internal/check/check.go:160-204 | with unions, when a search ends everything a denied node depends on is decided or still being visited |
| Denials.ColdAnswersAreExact | internal/check/check.go:160-204 | with unions and a cold cache, an error-free check allows exactly the reachable on any cyclic data, and a denied request recorded only right denials |
| Records.AnswersByCut | internal/check/check.go:160-204 | with unions and before the first match, a search answers by the least fixpoint that does without the nodes being visited, memo included |
| Records.SearchAdds | internal/check/check.go:178-203 | a search records a wrong denial exactly by passing over a granted node off its path |
| Records.RecordsAreRightExactly | internal/check/check.go:178-203 | everything an error-free cold request records is right if and only if, along the first granting path from the root, no edge is passed over that leads to a granted node off the path: a condition on schema, tuples and root |
| Denials.RecordedDenialsAreRightUnlessContradicted | internal/check/check.go:200-203 | the same read off the memo after the request: right if and only if no node it denied has an edge to one it allowed |
| Denials.AcyclicAnswersAgree | internal/check/check.go:145-298 | on acyclic dependencies every step of the stateful search agrees with the rewrites' meaning, though other regions may be cyclic |
| Denials.AcyclicChecksAreExact | internal/check/check.go:145-298 | for the full language, an error-free check there equals the meaning without memo, cache, visiting set or short-circuit, and keeps the cache right |
| StaleDenial.RecordedDenialsCanBeWrong | internal/check/check.go:178-203 | a concrete cycle where a recorded denial is wrong and makes the next request wrong |
| StaleDenial.PassedOverBeforehand | internal/check/check.go:178-203 | the condition foretells it from the schema and the tuples |
| Work.ExecStaysWithin | internal/check/check.go:149-191 | a request that cannot leave a set of pairs visits, memoises and fails only within it |
| Work.FewPairsNeverExceedDepth | internal/check/check.go:149-185 | a request that can reach at most MaxDepth pairs never exceeds the depth limit, even with cycles |
| Work.UndefinedPairsFailTheCheck | internal/check/check.go:188-191 | a check that so much as expands an undefined pair fails: it fails closed, with neither an allow nor a denial |
| Work.LookupsFailOnlyAtStoredSubjects | internal/check/check.go:188-191 | in a locally closed schema a check of a defined pair fails a lookup only where a stored tuple's subject leads |
| Work.NoPairIsExpandedTwice | internal/check/check.go:160-203 | no pair is expanded twice in one request, on success and failure alike; on success the expanded pairs are memoised |
| Work.ExecExpandsNoneTwice | internal/check/check.go:160-203 | every step keeps the trail of expanded pairs free of repeats, and its length the expansion counter |
| Work.ExecWorksOncePerPair | internal/check/check.go:160-203 | expansions and cache hits together grow by one per newly memoised pair, plus at most the levels a failure leaves open |
| Work.WorkIsLinear | internal/check/check.go:160-203 | on success expansions plus cache hits is the number of memoised pairs |
| Reported.DeepestIsReached | internal/check/check.go:156-158 | the depth a request reports is within the limit and is the length of a dependency path from the root, and every pair it decided lies at the end of one no longer |
| Reported.EveryQuestionIsCounted | internal/check/check.go:160-185 | expansions, memo hits and cache hits together are at most one more than the edges out of the pairs expanded; for a denial in a schema of unions, with no cycle below the pair, exactly that |
| Coherence.CheckIsRight | internal/check/check.go:165-204 | over a coherent cache an answer, and every entry left for its subject and revision, is right |
| Coherence.CheckKeepsCoherence | internal/check/cache.go:9-54 | a check at a written revision leaves the whole shared cache coherent, for every subject and revision |
| Coherence.GrowthKeepsCoherence | internal/check/cache.go:9-16 | writes never invalidate an entry |
| Coherence.ServedCoherently | internal/check/check.go:71-74 | both still hold when the store grows under the request |
| Concurrency.QuietIsExec | internal/check/check.go:160-204 | with no other check about, the run amid others is the run alone |
| Concurrency.AmidKeeps | internal/check/check.go:160-204 | amid any entries of others, the visiting set is restored, no decision is forgotten, and entries of other subjects and revisions are never written |
| Concurrency.AmidOthersIsRight | internal/check/check.go:165-204 | whatever right entries of overlapping checks land between its own cache calls, what a check answers and everything it ever records is right, on success and failure alike |
| Concurrency.AmidOthersStaysCoherent | internal/check/cache.go:9-54 | and the cache it leaves is coherent for every subject and revision |
| Depths.AmidStaysWithin | internal/check/check.go:149-191 | whatever other checks record meanwhile, a request that cannot leave a set of pairs decides only those, and fails only on an undefined one or when the set is larger than the limit |
| Depths.FewPairsAmidOthers | internal/check/check.go:149-185 | so a request that can reach at most as many pairs as the limit never exceeds it among overlapping checks, and answers if they are all defined |
| Runs.HistoriesStayCoherent | internal/check/cache.go:25-54 | every state reachable by writes and checks at written revisions has a coherent cache |
| Runs.EveryAnswerIsRight | internal/check/check.go:110-205 | after any such history an error-free check is right: witnessed, within the least fixpoint without exclusion, exact on acyclic dependencies |
| Runs.AcyclicAnswersAreThePlainMeaning | internal/check/check.go:110-205 | the last case spelled out: the answer is the unrolled meaning of the full language |
| Acyclicity.AcyclicMeansRanked | internal/check/check.go:178-182 | a root has a finite ranking that every dependency lowers if and only if no cycle lies among its dependencies |
| Acyclicity.AcyclicPairsAreDecidedPlainly | internal/check/check.go:110-205 | after any history sharing one cache, an error-free check of a pair with no cycle among its dependencies answers the plain recursive meaning |
| Snapshots.Snapshot.Read | internal/check/check.go:71-74 | whatever others write before it, a pinned read returns the read of the snapshot fixed on entry |
| Snapshots.Snapshot.ReadBySubject | internal/check/check.go:71-74 | likewise for reverse reads |
| Engines.RevisionKeyed.Get | internal/check/cache.go:43-48 | found exactly when an entry is there, with its value |
| Engines.RevisionKeyed.Set | internal/check/cache.go:50-54 | changes that one entry |
| Engines.Evaluation.Check | internal/check/check.go:145-205 | with writes landing before any read and other checks recording before any cache call, ends with the outcome and the whole state the specification gives; on entry the visiting set has exactly `depth` nodes |
| Engines.Evaluation.LookUp | internal/check/check.go:165-184 | the cache, then the visiting set, then the rewrite |
| Engines.Evaluation.Decide | internal/check/check.go:184-204 | applying a rewrite, recording the decision, and leaving the visiting set as it was |
| Engines.Evaluation.Eval | internal/check/check.go:207-298 | every kind of rewrite, loops and short-circuits included, refines the specification |
| Engines.Evaluation.EvalThis | internal/check/check.go:210-233 | the loop over direct tuples, likewise |
| Engines.Evaluation.EvalWalk | internal/check/check.go:238-254 | the loop over tupleset edges, likewise |
| Engines.ResolveHonoursTokens | internal/check/check.go:111-129 | an unpinned check never runs at a revision older than the head or than the caller's token, and at head when the token is not ahead |
| Engines.Engine.Check | internal/check/check.go:110-158 | snapshot isolation for a whole request among writers and overlapping checks; alone, exactly the specified run; if the cache and what others record are right, so are the answer and everything left in the cache; the revision returned is the pinned one, or the head, or a token ahead of it, never older than the token; with the limit being the configured number when positive and 32 otherwise, no failure on depth when at most that many pairs are reachable, success when these are all defined, and a granting path within the limit for every uncached allow |
| Expands.TreesMeanTasks | internal/check/expand.go:91-153 | a drawn tree, read with its connectives, means the rewrite over the nodes it asks |
| Expands.TreeMeansLfp | internal/check/expand.go:71-78 | with a path already visited, a node's tree shows exactly the least fixpoint without that path |
| Expands.TreeShowsExactlyTheGranted | internal/check/expand.go:42-153 | without exclusion the tree shows a plain subject exactly when the least fixpoint grants it: drawing a cycle as an empty leaf loses nothing |
| Expands.TreeMeansSolution | internal/check/expand.go:58-153 | on acyclic dependencies the tree means the full language |
| Expands.DrawnTasksAnswer | internal/check/expand.go:58-153 | where a task can be drawn, a check's search through it cannot fail, for any subject |
| Expands.ExplainedChecksAgree | internal/check/expand.go:42-56 | if Expand succeeds, a cold Check of the pair succeeds for every subject, and on acyclic data answers what the tree shows |
| Routes.ExplainedExactly | internal/check/expand.go:58-89 | with plain names an explanation succeeds if and only if every dependency path from the pair that repeats no node, its last aside, has at most the limit of edges and ends at a defined node; a failure is that at the end of some such path. A node met again on its path is a leaf, but the depth is tested first |
| Routes.FewPairsAreExplained | internal/check/expand.go:67-76 | when at most as many pairs as the limit are reachable, cycles included, an explanation never exceeds the depth, and succeeds if they are all defined |
| Labels.ExplainedAbout | internal/check/expand.go:91-153 | what a reader may take from the labels: a leaf lists every subject stored under its object and relation in order and has a branch about the object of each userset among them, a tupleset node has a branch about the far object of every stored tuple of a walk, and any other node a branch per operand of an operator of the named relation |
| Explainers.Explainer.Expand | internal/check/expand.go:58-89 | the path map that is set and deleted around the recursion, under interleaved writes, draws the specified tree and is restored |
| Explainers.Explainer.ExpandRewrite | internal/check/expand.go:91-153 | likewise for each kind of rewrite |
| Explainers.Expand | internal/check/expand.go:42-56 | the tree returned is that of the snapshot resolved on entry; with plain names the call succeeds exactly when the dependency paths fit the limit, the configured number when positive and 32 otherwise; it never fails on depth when at most that many pairs are reachable |
| Reverses.ContributorWalk.Walk | internal/schema/reverse.go:31-64 | all it adds has its granting links among the seen and lies in any closed set with the name |
| Reverses.ContributorWalk.Expand | internal/schema/reverse.go:41-62 | likewise for one rewrite |
| Reverses.Contributors | internal/schema/reverse.go:23-67 | the least set that has the permission and is closed under granting links, each once, the permission first |
| Reverses.WalkListIsExact | internal/schema/reverse.go:85-120 | whatever order the maps are passed over in, exactly the granting walks whose far side is the relation |
| Reverses.WalksInto | internal/schema/reverse.go:85-120 | the loops over the maps find exactly these, in the order of the pass |
| Finding.CandidatesAreFound | internal/check/listobjects.go:118-206 | on any data and for any order of the maps, only objects with a contributing relation found within the depth limit are proposed |
| Finding.CandidatesExactly | internal/check/listobjects.go:118-206 | where tuples are stored only on relations, an object is proposed if and only if a contributing relation is found on it within the depth limit |
| Finding.OrderDoesNotMatter | internal/check/listobjects.go:179-202 | there the order of the maps never matters |
| OrderMatters.OrderDecides | internal/check/listobjects.go:156-193 | with a tuple stored on a permission it does: of two legal orders over one snapshot, one proposes an object that Check allows and the other does not |
| Listing.ReachedIsNamed | internal/check/listobjects.go:141-173 | on data of the right shape, a relation without a rewrite that reaches the subject in k edges is named within k levels |
| Listing.ReachedIsProposed | internal/check/listobjects.go:118-206 | there an object whose contributing relation reaches the subject in k edges is proposed within k levels |
| Listing.VerifiedIsCapped | internal/check/listobjects.go:87-108 | whatever the limit, a success returns the first entries of the allowed candidates, in order |
| Listing.LimitedSucceeds | internal/check/listobjects.go:101-106 | a limit never makes a listing fail that succeeds without one |
| Listing.UnlimitedSucceedsExactly | internal/check/listobjects.go:87-100 | an unlimited uncached listing succeeds if and only if the check of every candidate does, and otherwise fails with the first failure |
| Listing.ManageableSucceeds | internal/check/listobjects.go:87-108 | whatever the cache and the limit, a listing does not fail on depth when few pairs lie below each candidate, and succeeds when they are defined |
| Listing.VerifiedIsChosen | internal/check/listobjects.go:101-106 | with any cache and any limit the page is the candidates said yes to, in order, never longer than the limit; the pass ends early only when the page is full, and then at its last entry |
| Listing.VerifiedIsRight | internal/check/listobjects.go:87-108 | over a coherent cache and for any limit: of the candidates passed the listed were rightly allowed and the others rightly denied, all were passed unless the page is full, a full page ends with the last one passed, and the cache stays coherent |
| Listing.LessIsDecidedFirst | internal/check/listobjects.go:80-85 | names are ordered by the first byte in which they differ, a proper prefix first |
| Listers.ReverseWalk.Visit | internal/check/listobjects.go:157-203 | one node named by a tuple: seen test, candidate test, queueing, and every walk into it in the order of the pass |
| Listers.ReverseWalk.Inherit | internal/check/listobjects.go:180-201 | everything pointing at the node through one walk, with its type and seen tests |
| Listers.ReverseWalk.Run | internal/check/listobjects.go:139-205 | under interleaved writes, the worklist loop ends with exactly the candidates that the snapshot and the order of the maps determine |
| Listers.Ordered | internal/check/listobjects.go:76-85 | the candidates in strictly increasing (type, id) order |
| Listers.OrderIsUnique | internal/check/listobjects.go:80-85 | one set of candidates has only one such order |
| Listers.SameCandidates | internal/check/listobjects.go:69-85 | where tuples are stored only on relations, two listings of one snapshot propose the same objects in the same order, whatever the maps and caches do |
| Listers.ReachingAreCandidates | internal/check/listobjects.go:118-206 | on data of the right shape every object whose permission reaches the subject within the depth limit is proposed, cached or not |
| Listers.AllowedAreCandidates | internal/check/listobjects.go:118-206 | so is every object an uncached Check allows, group cycles included |
| Listers.ListingAgreesWithCheck | internal/check/listobjects.go:57-109 | when no allowed object is missing from the candidates, a success is the first `limit` of exactly the allowed objects, and it succeeds whenever the unlimited listing does |
| Listers.ListingAgreesExactlyWhenFound | internal/check/listobjects.go:57-109 | where tuples are stored only on relations, an unlimited uncached listing that succeeds is exactly what Check allows if and only if every allowed object has a contributing relation that is found |
| Listers.PagesFitTogether | internal/check/listobjects.go:74-76 | there the page of one uncached call is a prefix of the unlimited answer of another, whatever order each met the maps in |
| Listers.ListingIsBounded | internal/check/listobjects.go:36-38 | the limit as configured: only objects found within it are candidates, and all of them where tuples are stored only on relations; what an uncached listing returns has a granting path within it; few reachable pairs below every candidate mean no failure |
| Listers.ListObjects | internal/check/listobjects.go:57-109 | the whole call, cached or not, on any data, under interleaved writes: its result and the cache it leaves are fixed by the snapshot, the cache it starts with and the order of the maps; bounded by the limit as configured; uncached and on data of the right shape it is the first entries of what Check allows; over a coherent cache it is a right page of the candidates, for any limit, and the cache stays coherent |
| CachedListing.CoherentListing | internal/check/listobjects.go:87-108 | so what is listed has a granting path, and on acyclic pairs the listing is exactly the candidates the plain meaning grants |
| CachedListing.CachedAllowIsNotListed | internal/check/listobjects.go:35-38 | with the cache on the bounds of Check and of the walk differ: five groups and a limit of two |
| MissedObject.AllowedButNeverProposed | internal/check/listobjects.go:179-181 | where a walk leads to a permission, an allowed object is proposed by no listing, whatever the depth limit and the order of the maps |
| Lexers.Lex | internal/schema/parse.go:53-90 | the nested scanning loops compute the specified token list |
| Lexers.TokensAreLexed | internal/schema/parse.go:53-90 | only the last token ends the input, identifiers are names, anything else is one character or an arrow |
| Lexers.LaidOutTokensLexBack | internal/schema/parse.go:58-88 | what stands between tokens does not matter: with blanks, line ends and comments in any number, or nothing where two neighbours are not both identifiers, the text lexes to its tokens; the last line may be a comment |
| AcceptedTexts.LexedIsLaidOut | internal/schema/parse.go:58-88 | and back: a text all of whose tokens the grammar knows is such a layout of them, so nothing but blanks and comments is ever skipped |
| Lexers.WrittenTokensLexBack | internal/schema/parse.go:53-94 | any writable tokens printed with spaces lex back to themselves |
| Grammar.ParsedIsNormal | internal/schema/parse.go:231-310 | every successful parse is in normal form: no This, at least two children, no union first in a union, no intersection first in an intersection |
| Writers.ReadExpr | internal/schema/parse.go:231-310 | parsing a minimally parenthesised normal rewrite comes to the loop over what follows it with exactly that rewrite built |
| Writers.ReadChain | internal/schema/parse.go:236-261 | written operands of any number are parsed one by one and joined from the left |
| Writers.WritingIsShortest | internal/schema/parse.go:231-310 | no text parses to a rewrite in fewer tokens than it is written with |
| Shapes.ParsesExpr | internal/schema/parse.go:231-310 | any spelling of an expression, whatever its parentheses, is parsed to what it stands for: `&` binds tighter, and operands join what is on their left |
| Shapes.ParsedIsSpelled | internal/schema/parse.go:231-310 | and back: any successful parse, by any of the functions, has read the spelling of what it returns |
| Shapes.AcceptedExpressions | internal/schema/parse.go:231-310 | so tokens are accepted as an expression if and only if they spell one |
| Documents.LaidOutRewritesParseBack | internal/schema/parse.go:53-310 | a normal rewrite written with the fewest parentheses and laid out in any way is lexed and parsed to itself |
| Documents.WrittenRewritesParseBack | internal/schema/parse.go:231-310 | in particular with spaces only |
| Chains.ChainMeansFold | internal/schema/parse.go:245-259 | the flattened tree built for any operand list means the left fold of union and difference |
| Chains.LastOperandDecides | internal/check/check.go:283-295 | a trailing `- c` excludes everything in c whatever precedes it; a trailing `+ c` grants it |
| Chains.ParsedExpressionMeansFold | internal/schema/parse.go:231-262 | every parsed expression, of any length, means the left fold over its parsed operands |
| Declarations.ParsedSchemas | internal/schema/parse.go:128-162 | an accepted schema has names as keys, normal rewrites and no reference its definition lacks |
| Declarations.ValidIsLocallyClosed | internal/schema/parse.go:315-366 | validation leaves exactly the local closure the engine relies on |
| Declarations.ValidExactlyLocallyClosed | internal/schema/parse.go:315-366 | validation accepts a schema if and only if no rewrite names a relation its own definition lacks |
| Declarations.ParsedNamesArePlain | internal/schema/parse.go:92-94 | names from schema text never collide in the string keys |
| Documents.LaidOutDocumentsParseBack | internal/schema/parse.go:34-229 | however a document is laid out, lexing and parsing it gives what it declares, or refuses it for a repeated name or an undefined reference |
| AcceptedTexts.AcceptedExactly | internal/schema/parse.go:34-310 | a text is accepted if and only if it is a layout of a document whose names are declared once and whose references are declared, and it then gives what the document declares |
| Documents.WrittenDocumentsParseBack | internal/schema/parse.go:128-229 | in particular with one space after each token |
| Documents.AcceptedSchemas | internal/schema/parse.go:34-37 | some text parses to a schema if and only if the schema is well formed and validated |
| Documents.LookupFindsDeclarations | internal/schema/schema.go:68-81 | what is looked up is what the text declares: the type is unknown exactly when no definition has its name, the relation exactly when none in it has its name |
| Parsers.Parser.ParseExpr | internal/schema/parse.go:231-262 | the cursor loop over `+` and `-` refines the grammar and never passes the end token |
| Parsers.Parser.ParseIntersection | internal/schema/parse.go:264-282 | likewise for `&` |
| Parsers.Parser.ParsePrimary | internal/schema/parse.go:284-310 | likewise for parentheses, names and walks |
| Parsers.Parser.ParseTypeList | internal/schema/parse.go:212-228 | likewise for type lists |
| Parsers.Parser.ParseMember | internal/schema/parse.go:164-207 | likewise for members, with every error |
| Parsers.Parser.ParseDefinition | internal/schema/parse.go:130-157 | likewise for one definition |
| Parsers.Parser.ParseSchema | internal/schema/parse.go:128-162 | likewise for the whole input, then validation |
| Parsers.Validate | internal/schema/parse.go:315-327 | in whatever order the maps are visited, accepts exactly the schemas whose references are all declared |
| Parsers.ValidateRewrite | internal/schema/parse.go:329-367 | likewise for one rewrite |
| Parsers.ParseText | internal/schema/parse.go:34-37 | on every text, terminates with what the grammar and validation say, which `AcceptedExactly` characterises |
| Received.StaleDenialArises | internal/schema/parse.go:34-37 | the scene of the stale denial is a parsed schema and what the store shows after a write |
| Received.MissedObjectArises | internal/schema/parse.go:34-37 | so is the scene of the missed object |
| Received.OrderMattersArises | internal/schema/parse.go:34-37 | so is the scene where the order decides |
| Loading.LoadedChecksFailOnlyOnData | internal/schema/parse.go:312-327 | with a parsed schema a check of a defined pair can fail a lookup only on an object reached through a stored subject |
| Loading.UndeclaredPairsFail | internal/schema/schema.go:68-81 | a check or an explanation of a pair that the text does not declare fails, naming what is unknown |
| Loading.LoadedTreesShowTheGranted | internal/check/expand.go:42-153 | with a parsed schema the explainer is exact as soon as stored subjects have plain names |

## Left out

- `internal/api`, `cmd/zanzo`: HTTP, JSON, the token codec, flags and latency samples would only add easy members.
- `internal/storage/postgres.go`: its SQL runs in a database that is not part of this model, and it allocates revisions before commit, so snapshot claims are made for the in-memory store.
- `NaiveCache` (`internal/check/cache.go`): a deliberate counterexample, superseded by the coherence theorems.
- Context cancellation, storage errors, error texts and line numbers: errors are small datatypes.
- Locks: each store or cache call is one atomic step. Other clients write between any two store calls of a request, and other checks record between any two cache calls of a check. That they record only right entries is a hypothesis on each check alone, which each check in turn guarantees; the induction over all interleavings of several checks is not carried out. In `Runs` checks do not overlap, and none runs during a listing.
- Checks at a revision above the head: they run and are modelled, but no writer races with them, and coherence is claimed for revisions already written, which is every revision a write returned.
- Wrap-around of the 64-bit revision counter.
- The order in which validation visits the maps, and hence which of several undefined references is reported.
- The store's rows are a sequence that the methods reassign at an index, where the program writes through a pointer into a slice.
- Bytes from 128 up are classified as the standard library classifies the code point of the byte; identifiers keep their bytes.
- Denials.AcyclicChecksAreExact: for the full language acyclic dependencies are sufficient, not necessary, since a cycle off the deciding branch may leave the answer right; the exact condition is given for schemas of unions.
- Listers.ListObjects: where tuples are stored on permissions the candidates are given for each order of the maps, and no condition is given under which the orders still agree.
- Listers.Ordered: specified by its result, not by the library sort the program calls.
- Reported.EveryQuestionIsCounted: what an answer that stopped at the first grant did not ask is not counted, so the counts are exact for denials only.
- Parsers.ParseText: which texts are refused is exact; of the reasons for a refusal only a repeated name and an undefined reference are characterised.
- Labels.ExplainedAbout: a node met again on its path is a leaf without subjects, which its label does not tell apart from a relation with nothing stored.
- Engines.Evaluation.Check: the memo and visiting maps are keyed by node alone, as the subject is fixed for the request.
