# A verified model of the bloar archive and follower

bloar keeps append-only archives of `slot -> blob references`. This project models
its three hard parts in Dafny and proves what they promise for every input, every
tree, every run.

**The head engine** (`Arith`, `Dag`, `Directory`, `Rows`, `HeadState`, `Contents`,
`Archive`, `Lookup`, `Readers`, `RightEdge`, `Projection`, `Geometry`, `Enumerate`,
`Admission`, `Walker`). A head is a persistent radix vector of sealed windows plus one open
segment. The central result is canonical form: `Archive.RunThenRebuild` runs any
sequence of applies and truncations on one head, gives the surviving rows to a new
head in one apply, and ends with equal states, hence equal roots. It rests on
`Directory` (append, truncate and shrink act on a plain vector, and the tree of a
vector is unique), on `HeadState.Represents` (which state stands for which rows) and
on `Contents` (what the operations mean on rows alone). `Projection.ProjectionsCompose`
proves that truncations compose on every well-shaped tree, including foreign
encodings the writer never produces, and `Readers.ProjectionReads` that they forget
the later slots and nothing else. `Walker.EnumerateHead` accepts a tree if and only if
`Admission.Admitted` holds of it, budgets and memo included; `Admission.AdmittedIff`
says what that is for a reader, window by window, and `Admission.WriterAdmitted`
proves the writer's own trees are among those.

**Claims and arbitration** (`Manifests`, `Claims`, `Arbitration`, `Verdicts`, `Poll`,
`Latching`). Two signed
claims are compared by projecting one root onto the other and by walking manifest
links. `Claims` proves the order is antisymmetric and reverses under exchange of its
operands. Transitivity is false of the code: the manifest walk gives up after 4096
hops, so two provable steps can add up to one that is not. `Claims.TransitivityCanFail`
exhibits it, and `Claims.InclusionTransitiveIff` gives the exact condition.
`Arbitration` shows that the arbiter is correct all the same: missing proofs
disqualify a claim, the rest are totally comparable or explicitly incomparable, and
both internal-inconsistency errors are unreachable. `Verdicts` says what each verdict
means in terms of the observed claims alone. `Poll` runs the decisions against durable
checkpoints: a head freezes exactly when it must and adopts exactly what it must, over
every run of polls its checkpoints form one lineage in which every covered slot keeps
its row, and a latched head does not move. `Latching` proves that every contradiction
makes evidence the store accepts.

**Durable follower state** (`Bytes`, `Evidence`, `SourceStore`, `Fetch`, `FetchMemo`,
`FetchProcess`, `Ipns`, `FirstManifest`, `Document`). Conflict evidence is canonical
and its encodings invert. The latch lifecycle and the source bindings keep their
invariants over every run. `Fetch` is a state machine of any number of fetch passes
interleaved with adoptions, withdrawals and the online collector of `store/epoch.go`:
in every reachable world a memo entry or completion stamp of the current collection
generation is true, a head that is skipped was fetched since it was last adopted, and
an adoption proved during a collection exposes only what is local. `FetchMemo` shows
that memo entries stand for whole subtrees, and `FetchProcess` runs one pass as code.
`Ipns` is the bounded floor set. `Document` is whole-document admission: all
checkpoints and the revision floor move together, no floor falls through withdrawal
and reappearance, and what is durable always resumes; a head's first manifest chain
is validated by `FirstManifest`.

Methods and classes follow the imperative code and are proved against functions and
predicates on values; lemmas relate those to each other.

## Conventions

- A CID is the block it names. Content addressing is therefore injective and blocks
  cannot form cycles. A `form` tag distinguishes encodings of equal content, so trees
  no writer of this code would emit are covered.
- Integers are unbounded; where the source relies on 64-bit wrap-around, saturation
  or signed encodings the model writes it out (`WindowEnd`, `Capacity`, `MAX_INT64`).
- The blob catalog, manifests held locally, network failures, batch commits that
  fail and the retention policy are parameters. They may be anything.
- Where the source reports an internal inconsistency, the model either has the branch
  and proves it unreachable (`Arbitration.WinnersAgree`, `Arbitration.NoMaximumHasWitness`,
  `SourceStore.RowsAlwaysAgree`) or names it under "Left out".

## Model

| member | source | states |
|---|---|---|
| `Arith.QuotIsDivision` | archive/arith.go:11-11 | the repeated-subtraction quotient behind the window ordinal is integer division, which the right shift computes |
| `Arith.WindowBounds` | archive/arith.go:11-17 | a slot has window ordinal w exactly when it lies between the start and the end of window w, with the shifts of the 64-bit code |
| `Arith.WindowOfSlot` | archive/arith.go:11-17 | the window of any uint64 slot is addressable and contains the slot, so windowEnd does not wrap for it |
| `Arith.CapacitySaturates` | archive/arith.go:26-35 | capacity is fanout^depth, or MaxUint64 when that does not fit |
| `Arith.CanonicalDepthIsLeast` | archive/arith.go:46-55 | the bit-length formula yields the least depth >= 1 whose exact span reaches n, for every n >= 1 |
| `Arith.CanonicalDepthCapacity` | archive/arith.go:46-55 | the same depth is least against the saturating capacity |
| `Arith.LeastDepthUnique` | archive/arith.go:37-55 | at most one depth is least for an entry count |
| `Arith.PathDigits` | archive/arith.go:86-104 | the digit loop succeeds exactly when the index fits the depth, and yields the base-fanout route of the index |
| `Arith.RouteValue` | archive/arith.go:86-104 | a route has as many digits as the depth, each below the fanout, and evaluates back to the index |
| `Arith.RouteAllZero` | archive/arith.go:110-117 | a route is all zeros exactly for index 0 |
| `Dag.TrimReads` | archive/dir.go:148-149 | dropping trailing nulls at commit changes no entry of a page |
| `Dag.TrimUnique` | archive/dir.go:148-149 | pages that read the same commit to the same block |
| `Rows.ValidRowsIff` | schema/schema.go:140-168 | neighbour-by-neighbour row validation is the same as rows strictly ascending, none before slot0, each with 1 to the maximum number of entries |
| `Rows.CopyRowsUpTo` | archive/truncate.go:251-260 | the copying loop yields the rows up to the slot |
| `Rows.UpToIsPrefix` | archive/truncate.go:251-260 | for ascending rows that is the prefix of exactly the rows with slots up to the bound |
| `Rows.UpToMembers` | archive/truncate.go:251-260 | as a set: exactly the rows with slots up to the bound |
| `Rows.UpToTwice` | archive/truncate.go:251-260 | cutting rows twice is cutting once at the lower slot |
| `Directory.DirShrink` | archive/dir.go:142-156 | the loop computes the recursive shrink |
| `Directory.TreeUnique` | archive/dir.go:19-156 | two canonical trees of one depth that hold the same vector are the same tree, runs of nulls included |
| `Directory.SetAppends` | archive/dir.go:63-89 | writing at index n of a tree holding n entries holds the vector with one entry appended, all others kept |
| `Directory.AppendExtends` | archive/dir.go:19-55 | append at the end succeeds, grows the root exactly when the tree is full, and leaves the canonical tree of the longer vector at its least depth |
| `Directory.TruncateKeepsPrefix` | archive/dir.go:101-132 | truncating a tree to n leaves a tree of the first n entries |
| `Directory.ShrinkFindsLeastDepth` | archive/dir.go:142-156 | unwrapping ends at the canonical depth and holds the same vector; a tree already there is unchanged |
| `Directory.CutDirKeepsPrefix` | archive/dir.go:101-156 | truncate then shrink yields the canonical tree of the prefix |
| `Directory.WalkReads` | archive/lookup.go:168-196 | following the route of i reads entry i |
| `Directory.TruncateTwice` | archive/dir.go:101-132 | on arbitrary trees, truncating to a then to an earlier b is truncating to b |
| `Directory.CutTwice` | archive/dir.go:101-156 | the same with the shrinking in between |
| `Directory.CutAfterAppend` | archive/dir.go:19-156 | an append is invisible to a later cut at or before the appended index |
| `Directory.CutAppendCut` | archive/dir.go:19-156 | cutting, appending and cutting back at the same place yields the first cut, depth included |
| `HeadState.RepresentsUnique` | archive/archive.go:110-148 | one state, blocks included, stands for given rows and coverage |
| `HeadState.OpenWindowStep` | archive/archive.go:372-388 | the open window is the window of synced_to + 1, without overflow |
| `HeadState.ShapedReads` | archive/lookup.go:153-196 | in any well-shaped state the arithmetic lookup of a window finds exactly its entry, or the open segment |
| `HeadState.SealExtends` | archive/apply.go:153-174 | sealing a window appends exactly its segment, or a null if the window is empty |
| `HeadState.TruncatedRepresents` | archive/truncate.go:31-132 | truncating a state of some rows gives the state of the rows up to the slot |
| `HeadState.TruncateToSyncedIsIdentity` | archive/truncate.go:31-132 | truncating to the current synced_to changes nothing |
| `Contents.SplittingIsIrrelevant` | archive/apply.go:43-146 | one batch and the two halves of it are accepted together and have the same effect |
| `Contents.RunKeepsLegal` | archive/apply.go:361-393 | after any run the rows are ascending, within coverage, and what the catalog resolves |
| `Contents.SnapshotResolves` | archive/generation.go:19-38 | the references of stored rows resolve back to those rows |
| `Contents.FreshBuildReaches` | archive/generation.go:19-38 | whatever a run reaches is reached by one fresh apply of the surviving rows |
| `Contents.AcceptedReplays` | archive/apply.go:406-427 | an accepted batch verifies as a replay of itself |
| `Contents.ReplayIsNoOp` | archive/apply.go:57-75 | an accepted batch applied again after any further applies is accepted and changes nothing |
| `Archive.ValidateShape` | archive/apply.go:362-393 | the checking loop accepts exactly the valid batches: ascending, in range, non-empty rows within the bounds |
| `Archive.ResolveRows` | archive/apply.go:432-475 | all rows resolved when every hash is held, otherwise the missing-blobs error |
| `Archive.VerifyReplay` | archive/apply.go:406-427 | accepted exactly when every slot of the batch reads, through the tree, as a row with the very references the batch gives |
| `Archive.AllNew` | archive/apply.go:64-75 | the overlap loop accepts exactly the batches whose every row is past the coverage |
| `Archive.AppendEntry` | archive/dir.go:19-55 | the growth loop and write compute the specified append |
| `Archive.GatherBatch` | archive/apply.go:86-146 | takes from the batch exactly the rows of the window and leaves the later ones |
| `Archive.FillWindows` | archive/apply.go:86-146 | the window loop turns a state of some rows into the state of those rows and the batch, at the new coverage |
| `Archive.ResumesInOpenWindow` | archive/archive.go:372-388 | the depth-and-directory computation of the open ordinal agrees with synced_to + 1 in every reachable state |
| `Archive.TruncateState` | archive/truncate.go:31-132 | the step-by-step truncation computes the specified state, errors included |
| `Archive.CutDirectory` | archive/truncate.go:79-105 | the four cases of cutting the directory compute the specified one |
| `Archive.ExtendState` | archive/apply.go:84-146 | the extension path of ApplyRefs appends the batch to what the state stands for |
| `Archive.Advance` | archive/apply.go:64-146 | a batch that advances coverage is refused exactly as the specification on rows says, in its order, or yields the canonical state of the extended rows, in which the batch's slots read as its rows, the other newly covered slots as empty and all else as before |
| `Archive.Head.constructor` | archive/archive.go:227-243 | a new head stands for no rows and no coverage |
| `Archive.Head.ApplyRefs` | archive/apply.go:43-146 | accepts or refuses exactly as the specification on rows; a replay is accepted exactly when every reference reads as stored and changes nothing; after an extension the batch's slots read as its rows, the other newly covered slots as empty and all else as before |
| `Archive.Head.Truncate` | archive/truncate.go:17-132 | succeeds exactly on a covered slot; then coverage ends there, the rows are exactly those up to it, and through the tree every slot up to it reads as before and every later one as not covered |
| `Archive.Head.TruncateToEmpty` | archive/truncate.go:237-246 | returns to the state of a new head |
| `Archive.BuildGeneration` | archive/generation.go:22-38 | succeeds exactly when a fresh apply of the snapshot does, with its contents |
| `Archive.SameContentsSameRoot` | archive/archive.go:358-366 | two heads with the same contents have the same state, whatever their histories |
| `Archive.Execute` | archive/apply.go:43-146 | any run of applies and truncations keeps a head canonical and follows the specification on rows |
| `Archive.RunThenRebuild` | archive/generation.go:19-38 | canonical form: a new head given the rows and coverage that survive any run, in one apply, has the same root, directory, depth and open segment as the head that lived through the run |
| `Lookup.SearchRows` | archive/lookup.go:199-205 | binary search finds the row of a slot, or none exactly when there is none |
| `Lookup.FindSealedSegment` | archive/lookup.go:168-196 | the digit loop computes the specified sealed lookup |
| `Lookup.LookupRefines` | archive/lookup.go:118-147 | in every state of some rows a slot is before the origin, not covered, or has exactly its stored row |
| `Lookup.LookupMeans` | archive/lookup.go:118-147 | the status says exactly where the slot lies, and a row is found exactly when it is one of the rows the state stands for |
| `Lookup.LookupVHs` | archive/lookup.go:82-100 | found with the first entry of each requested hash in order, or absent with the first hash the row lacks |
| `RightEdge.LatestSealed` | archive/apply.go:308-359 | on any tree: an answer is the last link below the limit as the arithmetic walk reads it, or none when all are null; it spends at most one page of budget per page below the limit, and fails only on an unreadable page or a smaller budget |
| `RightEdge.SearchIsScan` | archive/apply.go:308-359 | on the tree of a vector no page is unreadable and the answer is that of the naive scan |
| `RightEdge.LastBelowMeans` | archive/apply.go:308-359 | what the naive scan means: the last link below the limit |
| `Projection.TruncationKeeps` | archive/truncate.go:31-132 | on any well-shaped state truncation succeeds and is well shaped, canonical, and holds the cut window |
| `Projection.ProjectionsCompose` | archive/truncate.go:31-132 | on any well-shaped state, truncating to s1 and then to s2 <= s1 equals truncating to s2 |
| `Readers.ProjectionReads` | archive/truncate.go:31-132 | on any well-shaped state, whoever encoded it, truncation succeeds; every slot up to the cut reads as before and every later one as not covered |
| `Geometry.PageCountBound` | archive/enumerate.go:202-224 | a canonical directory of n entries has at most n + depth pages |
| `Geometry.BudgetsSuffice` | archive/enumerate.go:202-224 | up to 2^20 windows neither the path budget nor the unique-node budget can be exceeded |
| `Geometry.CanonicalDirectoryPages` | archive/arith.go:61-80 | the loop computes the exact page count, saturating at MaxUint64 |
| `Geometry.ValidateGeometry` | archive/enumerate.go:187-225 | accepts exactly the geometries with canonical depth and window count within bounds, and reports the open window and the entry count |
| `Enumerate.PlacedHolds` | archive/enumerate.go:346-455 | a subtree that passes the local checks at a place holds a vector of well-placed segments |
| `Enumerate.WriterPlaced` | archive/enumerate.go:346-455 | conversely the canonical tree of such a vector passes the checks |
| `Enumerate.IndexedPlaced` | archive/enumerate.go:346-455 | and so does any tree of such a vector whose pages have index CIDs |
| `Enumerate.PlacedOnce` | archive/enumerate.go:357-373 | a subtree with a segment in it can pass at one place only, so a second visit is a defect |
| `Enumerate.NullPlacedAnywhere` | archive/enumerate.go:357-366 | a subtree without segments that passes somewhere passes everywhere, so skipping it is sound |
| `Admission.AdmittedShaped` | archive/enumerate.go:116-175 | whatever the checks admit is a well-shaped head |
| `Admission.AdmittedIff` | archive/enumerate.go:116-175 | a covered head is admitted if and only if it loads, is shaped, has index pages only, and in every window a reader can ask for the rows lie in the window and the coverage, carry blob links of the right kind, and are not missing from a sealed segment |
| `Admission.ListingExact` | archive/enumerate.go:116-175 | the listing has exactly the linked windows, strictly ascending |
| `Admission.ReportMatchesLookup` | archive/enumerate.go:346-455 | below the open window a segment is listed exactly when the arithmetic lookup finds that same segment |
| `Admission.NoSegmentTwice` | archive/enumerate.go:482-552 | no segment CID occurs in two windows, and no sealed window has the open segment |
| `Admission.WriterAdmitted` | archive/enumerate.go:116-225 | every state reachable by the writer with at most 2^20 sealed windows and good blob links is admitted |
| `Walker.CheckSegment` | archive/enumerate.go:482-568 | accepts exactly the well-formed segments of a window |
| `Walker.Walker.constructor` | archive/enumerate.go:324-341 | a walk begins with empty memo, listing and counters |
| `Walker.Walker.WalkDir` | archive/enumerate.go:346-455 | the memoised walk accepts exactly the subtrees that belong at the place, appends exactly their listing and counts exactly the canonical pages |
| `Walker.Walker.Revisit` | archive/enumerate.go:357-373 | a memo hit accepts exactly when walking again would, and adds nothing |
| `Walker.Walker.ValidateSegment` | archive/enumerate.go:482-552 | accepts exactly good segments not seen before |
| `Walker.WalkHead` | archive/enumerate.go:116-175 | the walk of a head accepts exactly a good open segment and a well-placed directory |
| `Walker.EnumerateHead` | archive/enumerate.go:116-175 | enumeration succeeds if and only if the head is admitted, with its exact listing; then no window has a row outside the coverage or a wrong blob link |
| `Manifests.ManifestDescends` | follow/equivalence.go:487-517 | the hop loop computes the bounded walk |
| `Manifests.ReachedIsNear` | follow/equivalence.go:487-517 | the walk proves descent only from ancestors fewer than the bound of readable links away |
| `Manifests.NearIsReached` | follow/equivalence.go:487-517 | and from all of those |
| `Manifests.NotBothWays` | follow/equivalence.go:453-479 | two manifests never descend from each other |
| `Manifests.GenesisIsFinal` | follow/equivalence.go:505-517 | a walk that ends at genesis has ruled out descent at any distance |
| `Manifests.GenesisIff` | follow/equivalence.go:487-517 | a walk ends at genesis exactly when it does not meet the ancestor and the whole chain is readable and shorter than the bound |
| `Manifests.AwayIff` | follow/equivalence.go:487-517 | an ancestor can be walked to exactly when it is linked to and every block above it is held, as dag-cbor |
| `Claims.CompareClaimRoots` | follow/equivalence.go:315-361 | computes the comparison of roots by projection of the one that covers more |
| `Claims.WriterRootsCompare` | follow/equivalence.go:315-361 | between states of a writer: a contradiction exactly when some slot both cover reads differently, with the reason coverage gives; otherwise the one that covers more dominates |
| `Claims.DominatesItsPast` | follow/equivalence.go:315-361 | an admitted root, whoever encoded it, dominates each of its own earlier states and the empty one |
| `Claims.InclusionReads` | follow/equivalence.go:315-361 | of an admitted root that includes another, every slot the other covers reads the same |
| `Claims.CompareClaimManifests` | follow/equivalence.go:453-479 | computes the comparison of manifest tips by walking in both directions |
| `Claims.ManifestsCompareIff` | follow/equivalence.go:453-517 | what each answer means: a branch exactly when both chains were read to genesis within the bound and neither has the other, a missing proof exactly on the sides that were not |
| `Claims.ClassifyClaims` | follow/source_continuity.go:184-206 | computes the combined relation, conflict or missing proof |
| `Claims.ClassifyMeans` | follow/source_continuity.go:184-206 | claims contradict exactly when they are about one head and their roots do, or the roots are ordered and the manifests branch; a proof is missing exactly where one of the comparisons lacks it; each order is the inclusion it says |
| `Claims.ClassifySwaps` | follow/source_continuity.go:184-206 | exchanging the operands reverses the relation or gives the same conflict |
| `Claims.IncludesBoth` | follow/source_continuity.go:184-206 | one claim includes another exactly when identity, root and manifest each do |
| `Claims.InclusionIsAntisymmetric` | follow/source_continuity.go:184-206 | claims that include each other are equal |
| `Claims.RootsDecided` | follow/equivalence.go:315-361 | admitted roots of one archive are always comparable or in conflict |
| `Claims.RootsTransitive` | follow/equivalence.go:315-361 | inclusion of roots is transitive |
| `Claims.CommonHistoryAgrees` | follow/equivalence.go:315-361 | two roots included in a third are ordered among themselves |
| `Claims.IncludedAreCompatible` | follow/source_continuity.go:184-206 | two claims that one claim includes never contradict each other and lack no evidence |
| `Claims.DescentProvedIff` | follow/equivalence.go:453-517 | true descent is proved exactly when the chain grew by fewer than 4096 links |
| `Claims.InclusionTransitiveIff` | follow/source_continuity.go:184-206 | of two chained inclusions the third holds exactly when the chain growth stays under the walk bound; otherwise it is reported as unproved |
| `Claims.TransitivityCanFail` | follow/equivalence.go:487-517 | under any admitted covered root, for all step lengths below the bound that add up to it or more, claims a, b, c where a includes b, b includes c, and a is not shown to include c |
| `Claims.CoveredRoot` | follow/source_finalized_poll.go:90-100 | such roots exist: under any parameters there is an admitted root with coverage |
| `Arbitration.MissingProofDisqualifies` | follow/arbitration.go:257-292 | between eligible claims no proof is missing |
| `Arbitration.WinnerExists` | follow/arbitration.go:298-317 | if no eligible pair is incomparable or in conflict, some claim dominates all |
| `Arbitration.WinnersAgree` | follow/arbitration.go:372-387 | all dominating claims are equivalent: the second internal error is unreachable |
| `Arbitration.NoMaximumHasWitness` | follow/arbitration.go:319-370 | without a dominating claim there is an incomparable pair to report: the first internal error is unreachable |
| `Arbitration.TableIsLawful` | follow/arbitration.go:225-292 | the relation matrix is reflexive, reverses, and chains except where a proof is missing |
| `Arbitration.CompareAll` | follow/arbitration.go:225-292 | the nested loops fill the whole matrix, the eligibility, and exactly the conflict and failure lists |
| `Arbitration.PickWinners` | follow/arbitration.go:298-317 | lists exactly the claims that dominate every eligible one |
| `Arbitration.NothingBlocks` | follow/arbitration.go:319-343 | no recorded failure is between two eligible claims |
| `Arbitration.SelectionIsMaximum` | follow/arbitration.go:298-400 | the representative includes every eligible claim, and the reported class is exactly the claims equal to it |
| `Arbitration.DominatorIsSelected` | follow/arbitration.go:294-400 | conversely a claim proved to include every loaded claim is selected, and only claims equal to it with it |
| `Arbitration.SortBySource` | follow/arbitration.go:212-223 | sorts by source, a permutation of its input |
| `Arbitration.SelectFinalizedClaim` | follow/arbitration.go:192-400 | refuses exactly empty input or repeated sources, and otherwise returns the verdict of the matrix |
| `Arbitration.OrderIsIrrelevant` | follow/arbitration.go:212-223 | the verdict does not depend on the order of the candidates |
| `Verdicts.VerdictMeans` | follow/arbitration.go:257-400 | the verdict by the observed claims alone: conflicting exactly when two contradict; else selected exactly when a healthy one includes every healthy one; else no maximum, or nothing healthy |
| `Verdicts.ConflictsMean` | follow/arbitration.go:257-292 | the listed conflicts are exactly the contradicting pairs |
| `Verdicts.IncomparableMean` | follow/arbitration.go:319-370 | the listed incomparable pairs are exactly those of two healthy claims |
| `Verdicts.FailuresMean` | follow/arbitration.go:225-292 | the listed failures are exactly what did not load and the pairs that lack a proof |
| `Verdicts.TopsAgree` | follow/arbitration.go:372-387 | all claims at the top are one and the same |
| `Poll.PreflightHead` | follow/source_finalized_poll.go:76-345 | freezes if and only if two observed claims contradict or the one at the top contradicts the checkpoint; advances to a claim if and only if nothing clashes, it is at the top and properly includes the checkpoint; what it adopts is observed, admitted and of the same lineage |
| `Poll.ContinuityMeans` | follow/source_finalized_poll.go:253-344 | a head advances if and only if it has no checkpoint or the winner properly includes it, and freezes if and only if they contradict |
| `Poll.DominatorIsAdopted` | follow/source_finalized_poll.go:76-345 | a claim that includes every observed one and properly includes the checkpoint is adopted |
| `Poll.DecidedMeans` | follow/source_finalized_poll.go:206-344 | the decision from the sorted observations is that same one, whatever their order |
| `Poll.Follower.constructor` | follow/conflict_runtime.go:49-79 | starts with no checkpoint and no latch |
| `Poll.Follower.DecideHead` | follow/source_finalized_poll.go:43-56 | a latched head is held, any other is decided by preflight against its checkpoint |
| `Poll.Follower.CommitPlans` | follow/source_poll.go:171-343 | writes exactly the advances that were not pruned |
| `Poll.Follower.Poll` | follow/source_poll.go:106-377 | an open head is latched exactly when it must freeze, and adopts exactly what it must unless it is pruned; latches commit before any advance; a latched head keeps its checkpoint; a failed latch write stops every advance |
| `Poll.Execute` | follow/source_poll.go:106-377 | over every run checkpoints only grow along a lineage, and a head latched throughout keeps its checkpoint |
| `Poll.EarlierIsProjection` | follow/source_finalized_poll.go:253-344 | of two checkpoints of one head the earlier root is the exact projection of the later |
| `Poll.CoveredStaysReadable` | follow/source_finalized_poll.go:253-344 | every slot a checkpoint covers is covered and reads the same in every later one |
| `Latching.ContradictionMakesRequest` | follow/equivalence.go:519-536 | what the classifier records of any contradiction between admitted claims of two sources makes a valid latch request |
| `Latching.ConflictCanBeLatched` | follow/source_poll.go:171-218 | every conflict arbitration reports for a roster makes a request from each of its pairs |
| `Latching.PairsFit` | follow/conflict_state.go:28-28 | and has no more pairs than a record can count |
| `Bytes.BigEndianRounds` | follow/conflict_state.go:1026-1048 | a fixed-width big-endian field reads back |
| `Bytes.ValueRounds` | follow/conflict_state.go:1026-1048 | and what was read is written back as the same bytes, so no field has two spellings |
| `Bytes.LessTotal` | follow/conflict_state.go:323-325 | byte order is total and antisymmetric |
| `Bytes.LessMeans` | follow/conflict_state.go:323-325 | one string is less exactly when it has the lesser byte, or ends, at the first place where they differ |
| `Evidence.OrderInjective` | follow/conflict_state.go:327-341 | the ordering bytes of a candidate determine it |
| `Evidence.SwapIsIrrelevant` | follow/conflict_state.go:139-175 | a request does not depend on which candidate is called left |
| `Evidence.RequestKeepsSides` | follow/conflict_state.go:139-175 | exactly the valid inputs make requests, and the request differs at most in having the lesser side on the left |
| `Evidence.RequestIsCanonical` | follow/conflict_state.go:139-175 | a request built from a built request is that request |
| `Evidence.BuiltIsCanonical` | follow/conflict_state.go:418-432 | a record built from a built request is canonical |
| `Evidence.LeastRequest` | follow/conflict_state.go:180-227 | the loop returns a request with the least ordering key |
| `Evidence.LeastIsUnique` | follow/conflict_state.go:180-227 | requests with the same members have the same least one |
| `Evidence.RequestFromConflict` | follow/conflict_state.go:180-227 | succeeds exactly when there are 1 to the maximum number of pairs and each has evidence of this archive and head and makes a request; returns the one with the least canonical bytes |
| `Evidence.ClashRequestIff` | follow/conflict_state.go:191-216 | a pair makes a request exactly when its evidence is of this archive and head and tells a valid one, and the request tells what was observed |
| `Evidence.SidesAreIrrelevant` | follow/conflict_state.go:191-216 | exchanging the sides of a pair, evidence included, makes the same request or the same refusal |
| `Evidence.PairOrderIsIrrelevant` | follow/conflict_state.go:177-227 | so the retained request does not depend on the order of the pairs |
| `Evidence.SummaryRoundTrip` | follow/conflict_state.go:1139-1186 | decoding a candidate inverts encoding it |
| `Evidence.RecordRoundTrip` | follow/conflict_state.go:1072-1137 | decoding a record inverts encoding it |
| `Evidence.EncodingIsInjective` | follow/conflict_state.go:434-455 | two records with the same bytes are the same record |
| `Evidence.DecodedIsCanonical` | follow/conflict_state.go:1072-1137 | whatever decodes is canonical and encodes back to the same bytes |
| `Evidence.HistoryRoundTrip` | follow/conflict_state.go:981-1010 | decoding a clear history inverts encoding it |
| `Evidence.HistoryParsesBack` | follow/conflict_state.go:1209-1259 | bytes that parse are the encoding of what they parse to exactly when that is a valid history: the canonical comparison refuses nothing else |
| `Evidence.HistoryDecodesIff` | follow/conflict_state.go:1209-1259 | bytes decode to a history if and only if the history encodes to them, and if and only if they parse to it and it is valid |
| `SourceStore.ValidateBindings` | follow/source_state.go:330-373 | accepts exactly rosters with valid ids and distinct ids and keys |
| `SourceStore.NeverHalfBound` | follow/source_state.go:302-328 | in a consistent store an acceptable pair is bound in both tables or in neither |
| `SourceStore.RosterIsAccepted` | follow/source_state.go:398-518 | the active roster is accepted again, and so is every later one that gives no id another key and no key another id |
| `SourceStore.SameDigestBindsNothing` | follow/source_state.go:441-518 | a roster with the digest of the active one binds nothing |
| `SourceStore.Store.constructor` | follow/source_state.go:383-393 | starts without marker, bindings or conflict rows |
| `SourceStore.Store.Activate` | follow/source_state.go:398-518 | accepted exactly when the roster does not regress, fork or rebind; keeps the conflict feature bit and every existing pair |
| `SourceStore.Store.StageBindings` | follow/source_state.go:441-518 | extends both tables by the roster, still mutual inverses |
| `SourceStore.Store.Latch` | follow/conflict_state.go:466-536 | writes one record at the next sequence, or finds the same evidence already latched, or refuses; rows that disagree with the marker, the floor or the history are refused as internal faults, which cannot happen in a consistent store |
| `SourceStore.Store.Clear` | follow/conflict_state.go:873-934 | clears only the exact evidence id and appends to the bounded history, with the same refusals of rows that disagree |
| `SourceStore.RowsAlwaysAgree` | follow/conflict_state.go:498-510 | on rows that startup validation accepts neither latching nor clearing meets such a fault |
| `SourceStore.LatchIff` | follow/conflict_state.go:466-536 | on accepted rows a latch is written exactly for a canonical request of the active roster and a head without one, at the next sequence; the one already there is answered exactly for the same request |
| `SourceStore.ClearIff` | follow/conflict_state.go:873-934 | on accepted rows a clear succeeds exactly for the active record of exactly this evidence |
| `SourceStore.AcceptedMeans` | follow/conflict_state.go:710-786 | accepted rows have a record of this archive and head made under the active roster or an older one, at the floor of its sequence, with the history ending right before it |
| `SourceStore.ScanRows` | follow/conflict_state.go:788-852 | accepts exactly rows whose keys are valid identities of the configured archive, and groups them by head |
| `SourceStore.ValidateConflictState` | follow/conflict_state.go:710-786 | accepts exactly the rows of the non-zero configured archive that are consistent with the marker and each other |
| `SourceStore.LivesAreAccepted` | follow/conflict_state.go:710-786 | every state a head can live through is accepted |
| `SourceStore.LivesAreStored` | follow/conflict_state.go:710-852 | and what a store keeps under its archive passes the whole startup validation, keys included |
| `SourceStore.GoodIsCanonical` | follow/conflict_state.go:625-642 | with the evidence codec the records a store holds are exactly those that encode and decode |
| `SourceStore.Execute` | follow/conflict_state.go:466-934 | over every run of activations, latches and clears the rows are accepted, sequences and the roster revision never fall, no pair changes, the feature bit stays |
| `SourceStore.HistoryOfHead` | follow/conflict_state.go:873-934 | the history is the last min(16, clears) consecutive sequences, and an active record is one past it |
| `Fetch.WholeIsReachable` | follow/sync.go:491-516 | a whole subtree has every reachable block in the store, safe from the collector |
| `Fetch.WholeIsVerified` | follow/sync.go:612-698 | under full verification every Segment reached was verified and every blob is reached through one |
| `Fetch.DeleteKeeps` | store/epoch.go:278-300 | the collector never deletes a block touched in its epoch |
| `Fetch.CutKeeps` | store/epoch.go:148-162 | beginning an epoch moves the generation, so older proofs claim nothing |
| `Fetch.PopKeeps` | follow/sync.go:491-545 | taking a block that the memo or this walk has done, or starting on another, keeps the invariant |
| `Fetch.ReadKeeps` | follow/sync.go:655-690 | so does reading a block of an expansion, checked or not |
| `Fetch.MarkKeeps` | follow/sync.go:551-556 | so does marking an expanded block and pushing its children |
| `Fetch.Settled` | follow/sync.go:491-516 | when the stack is empty every marked subtree is whole |
| `Fetch.DrainKeeps` | follow/sync.go:562-577 | so publishing the marks keeps the memo true |
| `Fetch.FinishKeeps` | follow/sync.go:250-295 | stamping completion keeps the stamps true, and ending a protecting pass keeps its proof |
| `Fetch.InstallKeeps` | follow/follow.go:2511-2544 | adopting another root or tip, or withdrawing, clears its marker and keeps the invariant |
| `Fetch.ExposeKeeps` | follow/follow.go:2342-2356 | so does an adoption whose proof is of the current generation; any other is refused |
| `Fetch.StepKeeps` | follow/sync.go:107-295 | every event of any pass, the collector, an adoption or a withdrawal keeps the invariant |
| `Fetch.MemoIsTrue` | follow/sync.go:527-577 | after any interleaving, all that a memo entry of the current generation reaches is local and safe, and under full verification its Segments bind their blobs |
| `Fetch.CompletionIsTrue` | follow/sync.go:250-276 | after any interleaving, all that a root stamped in the current generation pins and the whole chain of a manifest tip so stamped are local, their Segments bound to their blobs under full verification |
| `Fetch.SkippedWasFetched` | follow/sync.go:128-137 | after any interleaving, a head that a pass skips has markers of the very root and tip it serves, set since their last adoption: no adoption, collection and return can leave a stale one |
| `Fetch.HeldUntilCut` | store/epoch.go:278-300 | over any events nothing local that was touched in the epoch, or is local between epochs, is lost before the next collection begins |
| `Fetch.GarbageGoes` | store/epoch.go:278-300 | a block nothing touched since the collection began is deleted at its turn, and one something touched is not |
| `Fetch.WithdrawnIsDark` | follow/follow.go:2511-2544 | a withdrawn head serves nothing, keeps no marker and has nothing to fetch; no other head changes |
| `Fetch.ExposesWhatIsLocal` | follow/sync.go:297-370 | when an adoption goes ahead on a proof made during a collection, all that the new root pins and its whole manifest chain are local |
| `Fetch.MemoChangesOnDrain` | follow/sync.go:562-577 | only a drained walk of the current generation adds to the memo: a failed, protecting or crossing one adds nothing |
| `Fetch.StampsWhatIsAdopted` | follow/follow.go:2511-2544 | over every event: a marker is set exactly when a pass completes in the current generation for the root or tip the head still serves, is cleared exactly when that is replaced, and only a withdrawal or a proved adoption replaces it |
| `FetchMemo.MemoCoversSubtrees` | follow/sync.go:527-545 | after any interleaving, every index block below a memo entry of the current generation is one too, so a later walk has nothing to read there |
| `FetchMemo.DrainMemoizesAll` | follow/sync.go:562-577 | a publishing walk that drains in its own generation leaves every index block reachable from its goal in the memo |
| `FetchProcess.Process.constructor` | follow/sync.go:107-169 | a process starts without memo, passes or stamps, whatever the store holds |
| `FetchProcess.Process.Expand` | follow/sync.go:612-698 | reads the block and a known Segment's blobs, then pushes the children; fails only on a failed fetch or a wrong binding |
| `FetchProcess.Process.Recurse` | follow/sync.go:491-516 | interleaved with any other events: on success, unless a collection began, everything reachable is local and, unless it only protects, its index blocks are memoized; it fails only on a failed fetch or a graph it must refuse |
| `Ipns.RunKeepsGood` | follow/state.go:1243-1306 | over every run the set has at most 32 names, none twice |
| `Ipns.RetainedNeverFalls` | follow/state.go:1243-1306 | while a name is retained its floor never falls and is at least every sequence accepted for it |
| `Ipns.RaiseTakesEffect` | follow/state.go:1243-1306 | after a raise the floor of the name is at least the sequence raised |
| `Ipns.RaiseIsExact` | follow/state.go:1243-1306 | the floor after a raise is exactly the higher of the sequence and the floor before |
| `Ipns.FloorIs` | follow/state.go:1160-1198 | the floor a record must meet is the name's own while retained, and the legacy one only where that may apply |
| `Ipns.NewNameEvicts` | follow/state.go:1273-1300 | a new name evicts nothing while there is room, else the last name, or the one before it if the last is delegated to; order and floors of the others stay |
| `Ipns.OthersStay` | follow/state.go:1243-1306 | a raise leaves the floor of every other retained name as it is |
| `Ipns.DelegatedStays` | follow/state.go:1273-1284 | the delegated name, once recorded, is never evicted while it is the delegation |
| `Ipns.RecentStays` | follow/source_state.go:851-895 | a name at place k outlasts the next 30 - k events of any kind |
| `Ipns.FloorStore.constructor` | follow/state.go:1160-1198 | starts with no named floor |
| `Ipns.FloorStore.SetSequence` | follow/state.go:1243-1306 | a replay changes nothing; otherwise the name moves to the front with its sequence and takes over a legacy floor |
| `Ipns.FloorStore.StageSequence` | follow/source_state.go:851-895 | the name moves to the front with the higher of the two sequences |
| `Ipns.FloorStore.Observe` | follow/follow.go:1506-1526 | refuses exactly a document that came by a record below the floor; an accepted record is the new floor |
| `Ipns.FloorsRoundTrip` | follow/state.go:1160-1215 | the stored set reads back |
| `Document.PublishKeepsCoherent` | follow/follow.go:1498-1659 | after any document, admitted or refused, all checkpoints carry the authority, revision and digest of the floor |
| `Document.LineIs` | follow/follow.go:1547-1559 | the line of a name is its last one, wherever it stands in the document |
| `Document.AcceptsIff` | follow/follow.go:1778-2156 | a head accepts a document exactly when its last line goes on from the retained one in parameters, coverage and manifest chain, is not quarantined, and loads with the coverage it states or is already served; an empty line only for a head that never had one |
| `Document.AdmissibleIff` | follow/follow.go:1498-1659 | a document is admitted exactly when it is the signer's, newer or the same, commits, and every configured head accepts it |
| `Document.PublishAdopts` | follow/follow.go:1547-1659 | then each head's last covered line is recorded and served, and any other head is unserved with what it last published retained |
| `Document.FirstDocument` | follow/follow.go:1498-1659 | a follower that has seen nothing admits every authentic document whose configured lines state what their roots encode |
| `Document.PublishAdvances` | follow/follow.go:1895-2156 | no document lowers the revision floor or any head's coverage, rewrites its parameters or its filter history |
| `Document.RunKeeps` | follow/follow.go:1498-1659 | the same over every run of documents, failed commits, restarts and resumes |
| `Document.ServedIsPublished` | follow/follow.go:2511-2544 | over every run, what is served for a head is its last line in the document the floor records |
| `Document.SupersededForGood` | follow/resolve.go:578-612 | once a document is admitted, no lower revision and no other document of the same revision ever is |
| `Document.AgainChangesNothing` | follow/follow.go:2158-2195 | the same document again leaves the state as it is |
| `Document.OneGenerationResumes` | follow/follow.go:1221-1318 | whatever admission leaves durable passes the group check and resumes |
| `Document.WrittenAll` | follow/state.go:1377-1435 | writing only the plans that owe a checkpoint leaves every head with the checkpoint of this document |
| `Document.InstalledAll` | follow/follow.go:2511-2544 | installing only the plans that expose or withdraw leaves exactly the selected heads served |
| `Document.Subscriber.constructor` | follow/follow.go:2569-2584 | starts without checkpoints or floors |
| `FirstManifest.ValidateFirstChain` | follow/manifest.go:166-222 | accepts exactly the chains of this head that are present to the end, linear, and within the limits on hops, blocks, block bytes and chain bytes |
| `FirstManifest.FirstChainIff` | follow/manifest.go:166-222 | block by block: every block the tip leads to is held, small enough and a manifest of this head, and the chain is short and small enough |
| `FirstManifest.AncestryIsDecided` | follow/equivalence.go:487-517 | from a tip so accepted the later ancestry walk always decides: it reaches exactly the blocks of the chain and never gives up |
| `Document.Subscriber.CheckAncestry` | follow/manifest.go:100-153 | accepts exactly an unchanged tip, a bounded descendant of the floor, or a first tip whose whole chain validates |
| `Document.Subscriber.PreflightEntry` | follow/follow.go:1895-2156 | plans exactly the lines that fit, and what it leaves unwritten is already the right checkpoint |
| `Document.Subscriber.PreflightWithdrawal` | follow/follow.go:1778-1863 | a withdrawal retains the last published line; an explicitly empty line is refused for a head that had coverage |
| `Document.Subscriber.Plans` | follow/follow.go:1552-1597 | phase 1 passes exactly when every configured head does |
| `Document.Subscriber.Admit` | follow/follow.go:1498-1659 | succeeds exactly for an acceptable document; then every configured head's last covered line is recorded and served, any other head is unserved with its last line retained, and the floor is this document; otherwise nothing changes |
| `Document.Subscriber.CheckGroup` | follow/follow.go:1221-1318 | accepts exactly one generation over all configured heads that is the signer's floor, of the configured signer and network |
| `Document.Subscriber.Resume` | follow/follow.go:1221-1386 | serves what the last admitted document selected, exactly when no selected head is unloadable; otherwise what is served does not change |

## Left out

- Archive.Head.ApplyRefs: coverage of MaxInt64 or more is refused up front, because the source reaches the same refusal only when it encodes the head, and for MaxUint64 with one-slot windows its window loop does not end.
- Archive.Advance: refuses coverage of MaxInt64 or more in the same place, for the same reason.
- Walker.EnumerateHead: encoded byte sizes, deadlines, the collection-generation recheck and the list of directory pages are not modelled.
- Evidence.RecordRoundTrip: the evidence hash is any function with 32-byte results, CID syntax is a non-empty bounded byte string, and text is checked for NUL bytes but not for UTF-8.
- Fetch.CompletionIsTrue: speaks of stores with collection generations; the compatibility path for plain blockstores, which holds the gate for the whole walk, is not modelled.
- Ipns.FloorsRoundTrip: whether a string is a well-formed IPNS name is not modelled.
- Document.PublishAdvances: covers revisioned documents and finalized heads; revisionless documents and their updated_at floor are not modelled.
- FetchProcess.Process.Recurse: wrap-around of the 64-bit generation counter is not modelled.
- Fetch.ExposesWhatIsLocal: speaks of proofs made while a collection runs; between collections the source adopts without a walk, and only `Fetch.HeldUntilCut` says what stays. The re-touch of root and tip just before the commit is not modelled.
- FirstManifest.ValidateFirstChain: the wall-time budget of the walk is not modelled, and sizes and decoding are a function of the block.
- Latching.ContradictionMakesRequest: is about conflicts between sources; the request of a source against the durable checkpoint is not modelled, and CID bytes are a function that tells the blocks of the two claims apart.
- Poll.PreflightHead: the observations are claims that passed the admission of `Walker` and `FirstManifest`, and the checkpoint's root loads; restoring the served root of an unchanged checkpoint after a restart, which writes nothing durable, and mutable heads are not modelled.
- The cycle check of the enumeration walk, because blocks as values cannot form cycles.
- The structure cache of the enumeration, because its reuse is equivalent only when byte budgets are ignored.
- Touching retained blobs and windows before truncation, and staging pins, because they serve the collector and not the result.
- Mutable heads: windows, handoff and overlay witnesses.
- Legacy checkpoints (versions 1 and 2), migration of legacy floors, and unpinned DNSLink signer rotation.
- Floors of heads in source-set mode below the arbitration, because they add checks and no deeper invariant.
- External retention, quarantine beyond its refusals, registry internals and the reconciler.
- Networking, signatures, KZG verification, JSON and Pebble; a batch commit is one step that happens or does not.
- Source identifiers in arbitration are numbers, because only their order matters.
