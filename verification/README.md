# narshare, modelled and proved in Dafny

narshare is a mesh cache for Nix: nodes replicate each other's possession journals and a
grow-only table of signed facts, and fetch NAR archives from several peers at once. This project
models the logic of those parts and proves what they promise.

| part | modules | main results |
|---|---|---|
| possession protocol | Replica, Feed, Mesh, Labels, Pull, PullLoop, Retention, Index, Scan | `Mesh.EveryRunIsCorrect`, `Mesh.AtomicRunsAreExact`, `Mesh.FuzzyHeals`, `Mesh.OrderlyRunsStayDense`, `Labels.MoveKeepsInv`, `Feed.FedKnows`, `Pull.PullConverges`, `PullLoop.PullToEnd`, `PullLoop.PullFrom`, `Retention.CompactionKeeps` |
| catch-up planner | Catchup | `Catchup.Partition`, `Catchup.CompleteKeepsIff`, `Catchup.RepliesMakeProgress`, `Catchup.Catchup.Drain` |
| fact table | Order, Facts, Merkle, Store, Writers, Reconcile, Keys, Lookup | `Facts.SameFactsSameTable`, `Writers.TreeFollowsRows`, `Writers.MergesSerialize`, `Writers.NoDeadlock`, `Reconcile.Pass`, `Lookup.LookupNarHash` |
| transfer engine | Dedup, Buffer, Emission, Transfer, Window, Engine, Plan | `Transfer.RangesArePartitioned`, `Transfer.DeliveredOnce`, `Window.WindowBoundsRun`, `Engine.Engine.NeverWedged`, `Emission.Emitter.Pump`, `Plan.ManifestPlan`, `Plan.PlannedTransferIsTheArchive` |
| archive encoding and ranges | Nar, Grammar, Seek, Layout, Ranges | `Grammar.ArchiveIs`, `Layout.TwoWalks`, `Nar.ArchiveInjective`, `Seek.Respond`, `Ranges.Reassemble` |
| Nix base32 | Base32 | `Base32.EncodeThenDecode`, `Base32.DecodeThenEncode` |

How the parts are built:

- The **possession protocol** is a step relation (`Mesh`) over any number of nodes and origins.
  Messages are never removed, so a delivery may be late, repeated, reordered or lost; copies may
  roll back; a restored origin must remint before it exports. A history per (origin, generation)
  says what the origin really exported. The per-copy functions used by the steps are those of
  `Replica`, and the methods of the class `Index.MeshIndex` are proved equal to them.
- A copy that was read torn or late is *fuzzy*: each hash's membership is the one it had at some
  moment in an interval. Fuzziness is an invariant of every run and closes as events arrive.
- **Concurrent merges** (`Writers`) are a step relation too: lock a stripe, read a row, commit,
  fold, release, restart, interleaved in any way. `Store.FactStore` is the single-writer object.
- A **transfer** (`Transfer`) is a step relation over launches, completions and emission. Each byte of
  the fetch ranges has an owner; `Engine.Engine` is the object whose methods take exactly those
  steps, with the `Emission.Emitter` inside it.

Where the code does not give a guarantee, the model keeps the code, shows the failure and proves
exactly when it cannot happen:

- An interrupted replace deletes the journal in batches of 32768 rows ahead of the clock write.
  `Mesh.ShortJournalsSurvive`: a gapless copy survives every interruption if and only if
  seq - tail < 32768. `Mesh.InterruptedReplaceLosesRows` is the failing family, and
  `Pull.WhoStillConnects` says which requesters such a copy can still serve.
- An interrupted replace across generations mixes two possession sets. `Mesh.MixedHealsIffTouched`:
  later events of the copy's own generation repair it if and only if they touch every adopted hash
  whose membership the snapshot changed; `Mesh.MixedGenerationsStayWrong` is an instance, and
  `Mesh.ReofferRepairs` says that the snapshot offered again repairs all of it.
- A responder reads its clock and its rows or holdings separately (`Labels`). Such a read keeps the
  mesh sound if and only if the two generations agree at the sent numbers (`Labels.MoveKeepsInv`);
  after a remint at number k that is: every sent number is at most k, or the old generation carries
  the same event (`Labels.RemintedRows`). Holdings are sound under their label
  if and only if each hash is in them as at the labelled number or as a later event of the labelled
  generation leaves it (`Labels.HoldingsSoundIffFit`; after a remint, in terms of the events since,
  `Labels.RemintedHoldings`), and later events repair the receiver if and only if they touch every
  hash that is wrong (`Labels.MislabelledHoldings`). `Labels.SameGenerationIsSound` is a guard that a
  responder can check; `Labels.RowsReadAcrossGenerations` and `Labels.HoldingsReadAcrossGenerations`
  are whole runs that go wrong.
- `Mesh.StaleFloorOvershoots`: a compaction floor computed before a newer, shorter generation
  lands is harmless if and only if it does not exceed the new number.
- Watermarks carry no generation. `Retention.CompactionKeeps` says for whom any compaction keeps
  the rows, and `Retention.StaleMarkCutsNewGeneration` when a relay cuts rows of a new generation
  that a peer still needs: if and only if every configured peer's mark is above what it has.
- `Store.StoredIsJoin`: a merge is skipped when the merged fact has the stored fact's hash, so the
  stored table is the join if and only if no changed fact collides with its predecessor.
- `Catchup.CompleteKeepsIff`: a reply keeps the catch-up numbers split exactly once if and only if it
  ends inside the span that was asked for.

## Model

| member | source | states |
|---|---|---|
| `Facts.BodyLaws` | src/store/mod.rs:122-128 | the body order is antisymmetric, and equal only on equal bodies |
| `Facts.BodyTransitive` | src/store/mod.rs:122-128 | the body order is transitive: with the laws above, a total order |
| `Facts.BodyMeaning` | src/store/mod.rs:122-128 | a body is less when its store path is earlier, then its size smaller, then its references earlier, then its content address earlier |
| `Facts.HashPartMeaning` | src/store/mod.rs:67-74 | the hash part is the first 32 characters after the last slash, and empty when there are fewer |
| `Order.StringMeaning` | src/store/mod.rs:122-128 | strings compare at the first difference, a prefix being less |
| `Order.StringsMeaning` | src/store/mod.rs:122-128 | and so do lists of them |
| `Facts.JoinMeaning` | src/store/mod.rs:135-155 | a merge is the union of the signature sets with the greater body, in canonical form, and keeps the identity |
| `Facts.NoneMeansAbsorbed` | src/store/mod.rs:130-155 | None is returned if and only if the stored fact already has the signatures and a body at least as great |
| `Facts.JoinCanonicalized` | src/store/mod.rs:83-86 | canonicalising the incoming fact first changes nothing |
| `Facts.JoinIdempotent` | src/store/mod.rs:135-155 | merging a fact with itself changes nothing |
| `Facts.JoinCommutative` | src/store/mod.rs:135-155 | merge order of two facts of one identity cannot be observed |
| `Facts.JoinAssociative` | src/store/mod.rs:135-155 | nor can the grouping of three |
| `Facts.LeLeast` | src/store/mod.rs:135-155 | the merge is the least fact above both |
| `Facts.MergeAllLub` | src/store/rocks.rs:456-513 | merging a list gives the least table that contains the old one and knows every fact of the list |
| `Facts.SameFactsSameTable` | src/store/rocks.rs:456-513 | any order and any duplication of the same facts gives the same table |
| `Facts.MergeAllAppend` | src/store/rocks.rs:731-742 | how facts are grouped into batches cannot be observed |
| `Facts.TableJoinLub` | src/store/mod.rs:135-155 | tables themselves form a join semilattice, pointwise |
| `Facts.MergeAllLocal` | src/store/rocks.rs:480-510 | what a merge does at one identity depends on that row alone |
| `Facts.MergeAllUntouched` | src/store/rocks.rs:480-510 | identities not named by the batch keep their rows |
| `Replica.HoldsReplay` | src/index.rs:576-606 | the hold operations accumulated from a suffix have the effect of replaying its events one by one |
| `Replica.ReplayMembership` | src/index.rs:576-600 | after a replay a hash is held as the last event on it says, or as before |
| `Replica.MeetIffTouched` | src/index.rs:576-600 | events bring two possession sets together if and only if they touch every hash on which the sets differ |
| `Replica.NumberedMeaning` | src/index.rs:793-844 | exported operation i carries number seq + 1 + i |
| `Replica.ScanSlice` | src/index.rs:569-606 | whatever own events arrive, in any order with any gaps, a scan that succeeds has picked up exactly the history slice after the clock |
| `Replica.ScanConnects` | src/index.rs:569-606 | a contiguous run that starts at or before the clock connects and reaches its end |
| `Replica.PutRowsSlice` | src/store/rocks.rs:643-677 | committing a slice adds exactly its rows and keeps the others |
| `Replica.SnapshotTakesHold` | src/store/rocks.rs:679-729 | a snapshot is refused only if the copy is past it; one at the copy's own clock or beyond replaces what is held, malformed hashes left out |
| `Feed.SuffixLearns` | src/index.rs:586-606 | a suffix adds to the fact table exactly what its new rows say: the result is the least table that contains the old one and knows every well formed fact of the rows numbered above the old clock |
| `Feed.SentIsKnown` | src/index.rs:586-606 | so the well formed fact of every event sent between the old number and the new one is known afterwards, if no other event sent has its number |
| `Feed.KnownMeans` | src/store/mod.rs:135-155 | a known fact has a row of its identity with all its signatures and a body not less |
| `Feed.FedKnows` | src/index.rs:546-620 | over every run of suffixes, snapshots, facts from elsewhere, compactions, interrupted replaces and rollbacks, the node knows each well formed fact among the origin's first s events that came after the copy's last snapshot, and all of them if there was none |
| `Feed.ScanFailsIffLeftOut` | src/index.rs:569-575 | a suffix has a gap if and only if some event lies more than one above all numbers before it; otherwise it reaches the highest of them |
| `Feed.SuffixOutcome` | src/index.rs:555-600 | a suffix is stale exactly for an older generation, and cannot be connected exactly for a newer one when the clock is not zero or for a number left out; else the clock ends where the events go and adopts the generation with the first row |
| `Feed.AdoptionIsEmptySnapshot` | src/index.rs:559-564 | adopting a generation from a zero clock is the same as an empty snapshot of it and the suffix on top |
| `Mesh.FuzzyHeals` | src/store/mod.rs:191-206 | a possession set read torn or late between s and s' is exact once its generation's events are applied through any u >= s' |
| `Mesh.FuzzyMix` | src/store/rocks.rs:679-729 | a partly applied snapshot of the same generation is again fuzzy, over the hull of both intervals |
| `Mesh.AfterRowsIsApplyRead` | src/index.rs:546-620 | the delivery step is `apply_suffix` with a clock read at any earlier time |
| `Mesh.StepKeepsInv` | src/index.rs:546-644 | exports, sends, deliveries, interrupted replaces, compactions, rollbacks, restores and remints all keep journals the origin's own and clean holdings fuzzy in their interval |
| `Mesh.RunKeepsInv` | src/index.rs:546-644 | hence every state of every run satisfies it |
| `Mesh.EveryRunIsCorrect` | src/index.rs:546-644 | in every run from the start, journal rows are the origin's own events, and every exact copy, the origin's own among them, holds the fold of the origin's first s events of generation g |
| `Mesh.AtomicRunsAreExact` | src/store/rocks.rs:643-729 | when snapshots are read and applied in one piece, every copy of every run is such a fold; the clock gate alone carries it, no lease is assumed |
| `Mesh.AtomicRunsFromStart` | src/store/rocks.rs:643-729 | so it is in every such run from the start |
| `Mesh.SameClockSameHoldings` | src/index.rs:303-431 | two exact copies anywhere that show the same clock hold the same set |
| `Mesh.DeliveryHeals` | src/index.rs:546-620 | in the mesh, a delivery that brings a clean copy to the end of its interval makes it exact |
| `Mesh.ClocksOnlyRise` | src/index.rs:546-678 | clocks move up lexicographically in every step but a rollback or a restore |
| `Mesh.NumbersAreNeverReissued` | src/index.rs:662-678 | any copy now and any copy on any node later carry the same event under the same origin, generation and number, through rollbacks, restores and remints |
| `Mesh.OrderlyRunsStayDense` | src/store/rocks.rs:811-839 | while replaces are interrupted only where the journal is shorter than a batch of deletes, or before those begin, and no floor outlives its clock, every journal is exactly the rows in (tail, seq] |
| `Mesh.PartialKeepsDense` | src/store/rocks.rs:713-727 | after an interrupted replace of a gapless copy the journal is exactly the rows above the deleted batches; it is gapless if and only if no full batch was deleted |
| `Mesh.ShortJournalsSurvive` | src/store/rocks.rs:679-729 | every interruption point of a replace keeps a gapless copy gapless if and only if seq - tail < 32768 |
| `Mesh.InterruptedReplaceLosesRows` | src/store/rocks.rs:713-727 | from 32768 rows on, a replace can stop with the first batch of deletes written: the lowest rows are gone and the clock still claims them |
| `Mesh.StaleFloorOvershoots` | src/store/rocks.rs:811-839 | compacting after a snapshot keeps the journal gapless if and only if the floor is at most the snapshot's number |
| `Mesh.MixedHealsIffTouched` | src/store/rocks.rs:703-712 | for every copy, snapshot, adopted set and later events: the mixed copy ends where the unmixed one does if and only if the events touch every adopted hash whose membership differed |
| `Mesh.MixedIsExactIffTouched` | src/store/rocks.rs:703-712 | the same against the origin's history: exact again at u if and only if the events between touch those hashes |
| `Mesh.ReofferRepairs` | src/store/mod.rs:191-206 | the same snapshot offered again leaves what an uninterrupted replace would have left |
| `Mesh.MixedGenerationsStayWrong` | src/store/rocks.rs:703-712 | an instance: a copy mixed across generations keeps a wrong hash and misses a right one under all later events that leave the two alone |
| `Labels.RowsSoundIffAgree` | src/index.rs:338-422 | rows read under an earlier label are sound if and only if the labelled history and the present one agree at the sent numbers |
| `Labels.RemintedForEver` | src/index.rs:662-678 | a reminted generation and the old one begin with the same events up to the remint, for ever |
| `Labels.FuzzyIffFits` | src/store/mod.rs:191-206 | a set is a sound possession set from a number on if and only if each hash is in it as it was there or as some later event leaves it |
| `Labels.RemintedRows` | src/index.rs:338-422 | rows of a generation reminted at k under the old label are sound if and only if each is at most k or the old generation has the same event there; where the old one ended at k, if and only if none is above k |
| `Labels.HoldingsSoundIffFit` | src/index.rs:338-422 | holdings read under an earlier label are a sound snapshot if and only if each hash is in them as the labelled generation had it at the labelled number, or as one of its later events leaves it |
| `Labels.RemintedHoldings` | src/index.rs:338-422 | after a remint at k, the old generation having gone on or not: if and only if of every hash touched since the remint the last word is what it was at the labelled number or is said by a later event of the old generation |
| `Labels.RemintedHoldingsBeyond` | src/index.rs:338-422 | the same for a label beyond the remint number: hashes untouched since the remint count too |
| `Labels.RemintedHoldingsInMesh` | src/index.rs:338-422 | the same for any node of the mesh whose copy of the new generation is exact |
| `Labels.SameGenerationIsSound` | src/index.rs:338-422 | the guard a responder can check: with the generation unchanged at the read, rows are sound, and so are the holdings of a clean copy not below the labelled number |
| `Labels.MoveKeepsInv` | src/index.rs:338-422 | a step or a late read keeps the mesh's invariant if and only if it is not a read of rows at whose numbers the generations disagree |
| `Labels.AgreeingRunsAreCorrect` | src/index.rs:338-422 | every run with late reads, rows agreeing, is correct in the sense of `Mesh.EveryRunIsCorrect` |
| `Labels.MislabelledRowCorrupts` | src/index.rs:338-422 | in any sound mesh a row at whose number the generations disagree, delivered right above the receiver's clock, leaves a row the origin never exported |
| `Labels.MislabelledHoldings` | src/index.rs:622-644 | a mislabelled possession set is installed as it is: the receiver is at the fold of its clock if and only if the set is that fold, and later events make it exact if and only if they touch every hash on which the two differ |
| `Labels.FittingHoldingsHeal` | src/index.rs:546-620 | a set that fits its label is exact once the labelled generation's events are applied |
| `Labels.RowsReadAcrossGenerations` | src/index.rs:338-422 | a run from the start in which it happens: a replica at (1, 1) with b where generation 1 holds a |
| `Labels.HoldingsReadAcrossGenerations` | src/index.rs:338-422 | a run from the start in which a replica ends at (1, 0) with b, which generation 1 never holds and whose events never take away |
| `Pull.ConnectsIffContiguous` | src/index.rs:569-606 | ascending new rows connect if and only if they continue the clock without a gap |
| `Pull.SuffixConnects` | src/index.rs:338-422 | a suffix cut from a gapless journal for a requester at or above its tail never gives NeedSnapshot, moves the clock by its length, and is not empty when the requester is behind |
| `Pull.CutLenFits` | src/store/rocks.rs:758-769 | the rows kept fit the byte cap unless only one is kept, and one more would not have fitted |
| `Pull.InterruptedSuffix` | src/index.rs:338-422 | a copy that lost its lowest rows moves a requester forward if and only if it is at or above them; below, it meets a gap, or nothing when all rows are lost |
| `Pull.WhoStillConnects` | src/store/rocks.rs:713-727 | after a replace stopped with some batches of deletes written, exactly the requesters at or above the deleted rows can follow the journal |
| `Pull.RangeReplyFits` | src/index.rs:511-544 | a range reply is the consecutive rows after `after`, at most through `until`; it is nonempty exactly for the right generation and a range the responder has and has not compacted |
| `Pull.AnswerHelps` | src/index.rs:338-422 | an answer never increases a requester's lag, reduces it strictly unless it was deferred or skipped, costs bytes only if it reduces it, and is free when there is none |
| `Pull.FlagMeansLeft` | src/index.rs:359-422 | a line is flagged truncated if and only if the requester still lags after applying it; a skipped origin's line is never flagged and changes nothing; a flagged line either carries rows that help or was deferred |
| `Pull.AnswerSound` | src/index.rs:338-422 | an answer leaves the requester's copy an exact fold of the same history |
| `Pull.RespondIsServe` | src/index.rs:303-431 | applying a response in order is serving its origins one after another |
| `Pull.RoundProgress` | src/index.rs:303-431 | a round with any positive budget strictly reduces the total lag if an origin that is not skipped lags |
| `Pull.RoundKeeps` | src/index.rs:303-431 | a round under any budget and with any origins skipped brings no copy past the responder, changes none that is not behind, and increases no lag |
| `Pull.RoundsReady` | src/index.rs:303-431 | k rounds reduce the total lag by k, or to nothing, and lose no ground on any origin, whoever is ahead on it |
| `Pull.PullConverges` | src/index.rs:303-431 | against a quiescent responder, at most as many rounds as the total lag bring every copy that was not ahead of it to the responder's clock and holdings, and leave every copy that was not behind untouched |
| `Pull.PullConvergesAfterRemint` | src/sync.rs:614-633 | the same when the responder knows a future of the puller's own origin: after one more round, in which the puller remints |
| `PullLoop.FlagTellsLag` | src/index.rs:359-422 | after a round an origin that was not skipped lags if and only if the response flags its line; a skipped one is where it was, unflagged |
| `PullLoop.FlagMeansGain` | src/index.rs:376-390 | a flagged line means that the round strictly reduced the total lag, whatever was skipped |
| `PullLoop.PullToEnd` | src/sync.rs:490-705 | a pull repeated exactly while a line is flagged comes to an end, and then every copy is where `Pull.PullConverges` says |
| `PullLoop.StopLeavesBacklogs` | src/sync.rs:692-707 | when the round loop stops, what still lags and was not skipped is exactly what was left to the catch-up planner: flagged lines that brought rows |
| `PullLoop.PullFrom` | src/sync.rs:511-707 | the loop with its round limit and any skipped origins loses no ground and stops by itself after at most one round more than the total lag; whatever then lags was skipped in the last round or is a backlog of its response |
| `PullLoop.ResponseWithinBudget` | src/index.rs:376-422 | no line of a response carries a body when the lines before it have used up the budget, a snapshot counting 34 bytes a hash, and rows stay within 8 MiB a line unless there is only one |
| `Retention.MinMark` | src/index.rs:929-953 | the floor's base is the least of our number and all configured peers' watermarks |
| `Retention.EveryRunRetains` | src/index.rs:929-953 | over every run of exports, acks and compactions the tail exceeds neither a configured peer's watermark nor, for one behind the backstop, seq - 50000 |
| `Retention.CompactionKeeps` | src/index.rs:929-953 | a copy at n can still be served a suffix after a compaction if and only if it could before, is within the backstop, and is up to date or some configured peer's mark is at most n |
| `Retention.PeerWithinBackstopGetsSuffix` | src/index.rs:929-953 | so over every run a configured peer that kept what it acknowledged and is within the backstop stays at or above the tail |
| `Index.PeerIsAnsweredWithSuffix` | src/index.rs:338-422 | and the answer to it is a nonempty suffix that starts at its next number |
| `Retention.StaleMarkCutsNewGeneration` | src/index.rs:282-295 | for every relay of a new generation: its compaction cuts rows that a peer at n within the backstop needs if and only if every configured peer's mark is above n |
| `Index.MeshIndex.ApplyHolds` | src/store/rocks.rs:428-450 | applying only the last operation per hash equals applying them all in order |
| `Index.MeshIndex.ApplyEvents` | src/store/rocks.rs:643-677 | gated on the expected clock: on a match rows, holdings, facts and clock move together, otherwise nothing changes |
| `Index.MeshIndex.ApplySuffix` | src/index.rs:546-620 | refuses self and unknown origins; otherwise moves the copy as the plan of the suffix says, counts the rows, reports NeedSnapshot exactly when the suffix cannot be connected, leaves the least fact table that knows the old facts and those of the new rows, and touches no other origin |
| `Index.MeshIndex.ReplaceChunks` | src/store/rocks.rs:703-712 | batch by batch reaches the target set; every committed state on the way is an interruption point of the mesh model |
| `Index.MeshIndex.DropRows` | src/store/rocks.rs:713-727 | deletes of full batches are written ahead of the clock; every state on the way is an interruption point of the mesh model |
| `Index.MeshIndex.ApplySnapshot` | src/index.rs:622-644 | refuses self and unknown origins; a stale snapshot changes nothing and counts 0; a newer one replaces holdings, empties the journal and sets tail = seq |
| `Index.MeshIndex.BuildChunk` | src/index.rs:793-844 | a chunk's rows are numbered after seq and carry exactly its holds and facts |
| `Index.MeshIndex.Export` | src/index.rs:793-844 | attestations first, then holds: the self copy becomes the replay of all of them, facts are merged, retention grows by as many events |
| `Index.MeshIndex.ExportAll` | src/index.rs:793-844 | chunks of 10000 leave no trace: the outcome is that of one export |
| `Index.MeshIndex.BumpSelfGeneration` | src/index.rs:662-678 | the new generation exceeds the floor; journal, number and holdings stay |
| `Index.MeshIndex.RecordWatermarks` | src/index.rs:282-295 | marks never fall, rise to every reported number of the current generation, and to nothing else: a run of acknowledgements of each origin's retention |
| `Index.MeshIndex.Compact` | src/index.rs:929-953 | every configured origin's journal is cut at the floor, one compaction step of its retention; others are left alone |
| `Index.MeshIndex.JournalSuffix` | src/store/rocks.rs:744-770 | the rows above `after` in number order; within the byte cap unless a single row exceeds it, never cut to nothing, truncated exactly when rows are left out |
| `Index.MeshIndex.RespondRange` | src/index.rs:511-544 | one range ask is answered as `Pull.AnswerRange` says |
| `Index.MeshIndex.RespondRanges` | src/index.rs:511-544 | the first 16 asks, those of configured origins, are answered in order |
| `Index.MeshIndex.AnswerOne` | src/index.rs:338-422 | the answer for an origin and its cost: nothing useful, up to date, clock only, deferred, suffix or snapshot, flagged as `Pull.FlagMeansLeft` says |
| `Index.MeshIndex.RespondOne` | src/index.rs:338-422 | one origin's line continues the response under the bytes already used |
| `Index.MeshIndex.RespondBudgeted` | src/index.rs:303-431 | the response is the per-origin answers in name order, and keeps its byte budget |
| `Index.MeshIndex.Respond` | src/index.rs:299-302 | a request is answered within the budget of 24 MiB |
| `Catchup.AskKeeps` | src/sync.rs:203-227 | asking moves a retry, else a fresh chunk, to the outstanding asks and keeps the split |
| `Catchup.RetriesGoFirst` | src/sync.rs:203-227 | the longest waiting retry goes out before anything fresh; a fresh ask starts where the last one ended and is 4096 numbers long, unless the target comes first |
| `Catchup.RequeueKeeps` | src/sync.rs:229-263 | putting an ask back keeps the split |
| `Catchup.CompleteKeeps` | src/sync.rs:237-251 | a reply is split into a buffered chunk and a retry for the shortfall, overwriting no chunk |
| `Catchup.CompleteKeepsIff` | src/sync.rs:237-251 | a nonempty reply, with or without gaps, leaves the numbers split exactly once if and only if it ends inside the span it answers |
| `Catchup.OverreachDoubles` | src/sync.rs:237-251 | a reply that ends past its span takes a number owed elsewhere or not at all |
| `Catchup.ReleaseKeeps` | src/sync.rs:267-282 | a chunk is released only at the cursor, which then stands at the chunk's end |
| `Catchup.Partition` | src/sync.rs:147-176 | every number in (cursor, next], and no other, is in exactly one of: one outstanding ask, one retry, one buffered chunk |
| `Catchup.RepliesMakeProgress` | src/sync.rs:237-251 | a good reply strictly reduces the numbers still missing |
| `Catchup.OthersKeepMissing` | src/sync.rs:203-293 | asking, requeueing and releasing leave them as they are |
| `Catchup.NothingMissingFinishes` | src/sync.rs:284-289 | with nothing missing and nothing to release, the origin is finished and no ask is outstanding |
| `Catchup.HonestReplyIsGood` | src/sync.rs:929-937 | what a gapless responder answers and the caller's guard lets through is consecutive and ends inside the span |
| `Catchup.AppliedReaches` | src/sync.rs:1290-1302 | a chunk that connects leaves the copy at the chunk's end or beyond |
| `Catchup.HonestConnects` | src/sync.rs:1290-1302 | an honest chunk at or below the copy's clock connects and brings it to the chunk's end |
| `Catchup.Catchup.Enroll` | src/sync.rs:177-201 | accepts exactly the same generation with a target within the retention window of the cursor, else drops the origin |
| `Catchup.Catchup.NextAsk` | src/sync.rs:203-227 | None exactly when the window is full or no origin has work; `inflight` equals the outstanding asks and stays within the window |
| `Catchup.Catchup.Unpick` | src/sync.rs:229-235 | the span goes back to the front; other plans stay |
| `Catchup.Catchup.Complete` | src/sync.rs:237-251 | any nonempty reply settles its ask, is buffered and clears the strikes; one that ends inside its span brings the origin strictly closer to its target |
| `Catchup.Catchup.Strike` | src/sync.rs:253-263 | the span goes to the back; the third strike in a row gives the origin up |
| `Catchup.Catchup.Release` | src/sync.rs:267-282 | yields the chunk at the cursor, which moves to the chunk's end, or nothing if no chunk touches it; other plans stay |
| `Catchup.Catchup.ApplyHead` | src/sync.rs:1290-1309 | the head chunk is applied, or the origin dropped when it does not connect |
| `Catchup.Catchup.Drain` | src/sync.rs:1287-1315 | the copy never falls behind the cursor; with honest chunks the origin is dropped only once the copy has reached the target; one that stays still misses something; other plans stay |
| `Catchup.Catchup.DropOrigin` | src/sync.rs:291-293 | only that origin's plan goes; the window still counts its asks |
| `Merkle.XorTake` | src/store/rocks.rs:554-563 | the XOR over stored hashes does not depend on the order of the scan |
| `Merkle.UnderIsPrefix` | src/store/mod.rs:110-113 | a node covers exactly the hashes that begin with its bits |
| `Merkle.NodePut` | src/store/rocks.rs:114-123 | replacing a row changes every node by its old and new contribution |
| `Merkle.NodeOverlay` | src/store/rocks.rs:533-551 | a whole batch changes every node by what its rows were and what they become |
| `Merkle.Aggregates.Fold` | src/store/rocks.rs:114-123 | one hash changes exactly the root, its bucket and its leaf |
| `Merkle.Aggregates.FoldAll` | src/store/rocks.rs:533-551 | a delta changes every node by the XOR of its hashes under it |
| `Merkle.Aggregates.Rebuild` | src/store/rocks.rs:554-563 | every node becomes the XOR of the stored hashes under it |
| `Store.StoredIsJoin` | src/store/rocks.rs:484-500 | the rows kept are the pointwise join if and only if no changed fact has its predecessor's hash |
| `Store.BatchIsJoin` | src/store/rocks.rs:462-482 | merging a batch fact by fact is joining the coalesced batch |
| `Store.MoveKeepsRows` | src/store/rocks.rs:500-508 | moving a row to its new hash keeps the three column families one identity-to-fact map, with no orphan |
| `Store.FactStore.Coalesce` | src/store/rocks.rs:462-482 | repeated identities merge first: one entry per identity, in order of first appearance |
| `Store.FactStore.MergeRow` | src/store/rocks.rs:486-510 | one identity's row becomes the merge; it moves exactly when it changes, with the matching delta |
| `Store.FactStore.MergeRows` | src/store/rocks.rs:485-512 | the batch deals with every identity once and counts exactly the rows that change |
| `Store.FactStore.Prepare` | src/store/rocks.rs:456-513 | the prepared batch holds the merged table, a delta that turns the old tree into the new one, and the number of changed rows |
| `Store.FactStore.Commit` | src/store/rocks.rs:533-551 | after commit and fold the tree again describes the rows |
| `Store.FactStore.MergeAttestations` | src/store/rocks.rs:731-742 | the table becomes the stored merge of the batch; indexes and tree stay in agreement; returns how many rows changed |
| `Writers.CommitSpares` | src/store/rocks.rs:314-334 | a commit touches no row that another open writer has read |
| `Writers.CommitRows` | src/store/rocks.rs:456-551 | what is committed is the merge of the whole batch into the rows of that moment |
| `Writers.StepKeepsInv` | src/store/rocks.rs:314-677 | begin with any lock set that contains the facts' stripes, acquire, read, commit, fold, release, abandon and restart keep stripes exclusive, read rows current and the tree's debt exact |
| `Writers.RunKeepsInv` | src/store/rocks.rs:314-677 | hence every interleaving does |
| `Writers.TreeFollowsRows` | src/store/rocks.rs:104-131 | at every moment and node, tree XOR unfolded deltas = XOR of the stored hashes; at quiescence the tree is the rebuilt one; event applies with their origin's stripe included |
| `Writers.MergesSerialize` | src/store/rocks.rs:731-742 | every interleaving, with restarts that lose any number of last commits, stores what one writer would have stored in commit order, while no hash collides |
| `Writers.SameFactsSameTree` | src/store/rocks.rs:731-742 | quiet stores that committed the same facts have the same rows and the same tree |
| `Writers.InjectiveHashStaysClean` | src/store/mod.rs:100-108 | no hash collides in any run whose facts, closed under merging, have distinct hashes |
| `Writers.NoDeadlock` | src/store/rocks.rs:314-334 | whenever writers exist, one of them can move, whatever further stripes they lock |
| `Reconcile.Differing` | src/sync.rs:1047-1056 | the entries at which the two trees differ, in order |
| `Reconcile.Expand` | src/sync.rs:1079-1095 | a bucket gives its differing leaves, or itself from 32 of them on |
| `Reconcile.Targets` | src/sync.rs:1047-1096 | of the first 32 differing buckets those that we hold nothing of come whole and first, then the expanded ones, up to the cap of 64 |
| `Reconcile.WantedCovers` | src/sync.rs:1064-1096 | before the last cap, every differing bucket within the first cap is covered, one that we hold nothing of as a whole, and no node on which the trees agree is fetched |
| `Reconcile.WholeIffMany` | src/sync.rs:1079-1095 | a bucket is taken whole if and only if at least 32 of its leaves differ; below that exactly the differing leaves are fetched |
| `Reconcile.EmptyBucketsComeFirst` | src/sync.rs:1064-1096 | a bucket that we hold nothing of, within the first cap, is a target whatever the others expand to |
| `Reconcile.CoveredMissesNothing` | src/sync.rs:1079-1096 | a peer fact whose bucket is covered is under a target or already ours |
| `Reconcile.Page` | src/store/rocks.rs:780-809 | a page is as many rows as fit the byte cap, at least one, and the cursor resumes after it |
| `Reconcile.FetchSubtree` | src/sync.rs:1219-1250 | page by page a prefix of the subtree is merged, all of it exactly when it has no more pages than the valve allows |
| `Reconcile.NothingMissed` | src/sync.rs:1028-1131 | under the caps every peer fact is under a target or already ours |
| `Reconcile.PassIsBounded` | src/sync.rs:1028-1131 | whatever part of the peer's rows was merged, our table grew and not beyond the join of both tables |
| `Reconcile.PassIsJoin` | src/sync.rs:1028-1131 | merging all that we did not have gives the join if and only if no merged fact collides with its predecessor |
| `Reconcile.Pass` | src/sync.rs:1028-1131 | a pass stays between our table and the join; when aggregates are faithful and differing buckets, targets and pages fit their caps, or we hold nothing and the pages fit, it is the join if and only if no fact collides |
| `Reconcile.BothWaysAgree` | src/sync.rs:1028-1131 | two passes, one in each direction, that fit leave both sides the join, and the trees agree at every node |
| `Keys.ScanMeetsOneOrigin` | src/store/rocks.rs:163-172 | with the length prefix, a key lies under an origin's prefix if and only if it is that origin's |
| `Keys.BeOrders` | src/store/rocks.rs:173-177 | big-endian numbers of one width sort as numbers |
| `Keys.JournalInOrder` | src/store/rocks.rs:173-177 | one origin's journal rows lie in numeric order |
| `Scan.PrefixBlock` | src/store/rocks.rs:754-762 | from a key under a prefix on, the keys under it come before all others, so the scan may stop at the first other key |
| `Scan.RowsInOrder` | src/store/rocks.rs:744-770 | a sorted listing of an origin's row keys above `after` reads off exactly the rows above `after` in number order |
| `Scan.JournalRows` | src/store/rocks.rs:744-770 | the iterator over all origins' rows, from the key after `after`, saturated at the largest 64-bit number, to the first key of another origin, yields exactly the rows from that number on |
| `Keys.KeysInjective` | src/store/rocks.rs:428-450 | both possession keys determine the pair |
| `Keys.HoldScanOnly` | src/store/rocks.rs:772-778 | whatever the scan under an origin meets is the origin's |
| `Keys.HoldScanAll` | src/store/rocks.rs:772-778 | whatever is the origin's, that scan meets |
| `Keys.HoldScan` | src/store/rocks.rs:772-778 | the scan under an origin meets exactly what it holds |
| `Keys.HolderScan` | src/store/rocks.rs:418-424 | the scan under a hash meets exactly its holders |
| `Keys.Possession.ApplyFinal` | src/store/rocks.rs:428-450 | the last operation per hash is written to both key sets, which stay inverse; an empty or overlong name fails and changes nothing |
| `Keys.Possession.SetHeld` | src/store/rocks.rs:428-450 | one pair enters or leaves both key sets |
| `Keys.Possession.Holdings` | src/store/rocks.rs:772-778 | exactly the origin's hashes, each of 32 bytes |
| `Keys.Possession.RetireOrigin` | src/store/rocks.rs:841-884 | a departed origin leaves both key sets, nobody else does |
| `Keys.Possession.HoldersOf` | src/store/rocks.rs:418-424 | exactly the holders, without the excluded one |
| `Keys.Possession.LookupAtts` | src/store/rocks.rs:565-582 | each usable fact with its holders, dropped if nobody holds it |
| `Lookup.AttAt` | src/store/rocks.rs:584-593 | an index entry names the stored fact of its identity |
| `Lookup.RowsOf` | src/store/rocks.rs:886-902 | index entries give exactly the stored facts of their identities |
| `Lookup.TurnedIs` | src/store/rocks.rs:904-918 | the NAR-hash index, turned round, is the path index restricted to that hash |
| `Lookup.LookupHashPart` | src/store/rocks.rs:886-902 | exactly the stored facts under the hash part, joined with their nonempty holder sets |
| `Lookup.LookupNarHash` | src/store/rocks.rs:904-918 | exactly the stored facts of the NAR hash, joined with their nonempty holder sets |
| `Dedup.Identify` | src/dedup.rs:27-48 | dense ids that stand for keys, with occurrence counts, last positions and sizes |
| `Dedup.Decide` | src/dedup.rs:50-80 | the first of several occurrences is retained exactly when it fits beside what is resident, and the byte counter is the resident bytes |
| `Dedup.Plan` | src/dedup.rs:27-82 | for every occurrence list: all or nothing per segment, never above the budget at any position, every replay finds its segment, greedy by first occurrence, nothing resident at the end |
| `Dedup.RetainedForItsReplays` | src/dedup.rs:56-78 | `retain_for` is the number of later replays of the segment |
| `Buffer.InsertFree` | src/fetch.rs:1376-1382 | inserting where nothing is buffered overwrites nothing and adds exactly those bytes |
| `Buffer.TakePrefix` | src/fetch.rs:923-941 | a piece exactly when the byte at pos is buffered; it is the delivered bytes, and just they leave the buffer |
| `Buffer.Find` | src/fetch.rs:894-908 | a chain of touching entries exists if and only if the span is fully buffered |
| `Buffer.TakeSpan` | src/fetch.rs:894-921 | extracts exactly [off, end) if and only if it is fully buffered; otherwise the buffer is untouched |
| `Emission.OutputLength` | src/fetch.rs:758-774 | the position is start plus the bytes emitted |
| `Emission.OutputIsNar` | src/fetch.rs:776-866 | if spans say what the archive says, the output is the archive's range |
| `Emission.Emitter.Insert` | src/fetch.rs:1376-1382 | a delivered range joins the buffer without disturbing the emitter |
| `Emission.Emitter.Emit` | src/fetch.rs:869-891 | a piece is sent and hashed; the piece that completes a full transfer is withheld exactly when the whole does not hash to NarHash |
| `Emission.Emitter.SendAll` | src/fetch.rs:857-861 | pieces go out in order until the client stops taking them, and what is out stays a prefix of the plan's output |
| `Emission.Emitter.StepLit` | src/fetch.rs:788-793 | a literal span is emitted whole |
| `Emission.Emitter.StepReplay` | src/fetch.rs:794-822 | a replay finds its segment retained and of its own length: both aborts are unreachable |
| `Emission.Emitter.StepPlain` | src/fetch.rs:823-838 | a plain span streams what is buffered and stops exactly where the next byte is missing |
| `Emission.Emitter.StepRetained` | src/fetch.rs:839-861 | a retained span waits until it is whole, then is kept for its replays and emitted |
| `Emission.Emitter.Step` | src/fetch.rs:776-866 | one span forward, or the byte that is missing |
| `Emission.Emitter.Pump` | src/fetch.rs:776-866 | Finished means all of the plan was sent, and a full transfer of nonzero size sent NarSize bytes hashing to NarHash; in every outcome what was sent is a prefix of the plan's output |
| `Transfer.FlightIsAloft` | src/fetch.rs:1284-1308 | a launch never meets an existing flight at its offset |
| `Transfer.RestIsNew` | src/fetch.rs:1178-1192 | the rest of a split queue entry is not queued already |
| `Transfer.NoStaleCompletion` | src/fetch.rs:1346-1354 | a completion always finds its flight: the stale arm is unreachable |
| `Transfer.DeliverKeepsBuffer` | src/fetch.rs:1376-1382 | a delivered range was never buffered before, so entries stay disjoint |
| `Transfer.NextKeepsInv` | src/fetch.rs:1090-1472 | launches with hedges and re-carving, completions of winners, losers and failures, and emission all keep the books |
| `Transfer.RunKeepsInv` | src/fetch.rs:1090-1472 | hence every state of every run does |
| `Transfer.ArrivedIsDelivered` | src/fetch.rs:1340-1472 | a byte is on the books as delivered if and only if some completion of the run delivered it |
| `Transfer.DeliveredOnce` | src/fetch.rs:711-716 | no byte is buffered twice in a transfer |
| `Transfer.RangesArePartitioned` | src/fetch.rs:1090-1472 | at every moment each byte of the fetch ranges, and no other, is exactly one of not yet carved, requeued, in flight undelivered, delivered; queue entries and flights do not overlap |
| `Transfer.WindowCannotWedge` | src/fetch.rs:1090-1115 | if a needed byte is neither buffered nor in flight, the next candidate lies at or below it and so below the window's end |
| `Transfer.NothingOwedMeansComplete` | src/fetch.rs:1340-1472 | with no candidate and nothing in flight every byte was delivered |
| `Window.LaunchIffInWindow` | src/fetch.rs:1090-1192 | a turn of the launch loop puts up one new flight, at the candidate and with one attempt or two, exactly when the candidate lies inside the window; a queued entry flies whole up to two chunks and else a chunk of it, a carve is a chunk or ends its range; otherwise only the cursor may move |
| `Window.NothingStaysNothing` | src/fetch.rs:1090-1115 | where a turn finds nothing, a further one finds nothing either |
| `Window.WindowBoundsRun` | src/fetch.rs:1090-1192 | over every run with chunks of at most c bytes, every byte that is in flight, requeued, delivered or buffered lies below the emission position + window + c |
| `Window.BufferIsBounded` | src/fetch.rs:1107-1115 | so the buffer never holds more than window + c bytes that emission has not passed |
| `Engine.Engine.Peek` | src/fetch.rs:1090-1115 | the lowest requeued offset |
| `Engine.Engine.AdvanceCursor` | src/fetch.rs:1090-1115 | the cursor skips exhausted ranges and loses no byte |
| `Engine.Engine.LaunchOne` | src/fetch.rs:1090-1199 | one launch is the Launch step of `Transfer`: it issues an attempt exactly when the candidate is inside the window, else only the cursor may move |
| `Engine.Engine.Launch` | src/fetch.rs:1090-1199 | one turn of the launch loop keeps the invariant and is as `Window.LaunchIffInWindow` says |
| `Engine.Engine.LaunchAll` | src/fetch.rs:1090-1308 | any number of turns, each with its own gate, chunk size and hedge, are so many Launch steps and keep the invariant; every attempt they start begins inside the window, and they stop early only when nothing is left to launch there |
| `Engine.Engine.Retire` | src/fetch.rs:1346-1381 | retiring an attempt is what the Done step does to the flights |
| `Engine.Engine.Complete` | src/fetch.rs:1346-1457 | a completion is the Done step of `Transfer` |
| `Engine.Engine.Trim` | src/fetch.rs:1403-1412 | only entries that the emitter has passed are dropped, and all of them |
| `Engine.Engine.Drain` | src/fetch.rs:1384-1412 | emission with trimming keeps every byte at or beyond the position |
| `Engine.Engine.Deliver` | src/fetch.rs:1346-1457 | bytes are buffered at most once and only where nothing is buffered |
| `Engine.Engine.PumpAll` | src/fetch.rs:1384-1412 | the transfer's books stay right through emission |
| `Engine.Engine.OnDone` | src/fetch.rs:1340-1457 | a completion through to emission: the transfer goes on starved, finishes complete, or stops with a prefix sent |
| `Engine.Engine.StarvedMisses` | src/fetch.rs:839-861 | a starved emitter misses a byte: the next one, or one of a span to be assembled whole |
| `Engine.Engine.NeverWedged` | src/fetch.rs:1090-1115 | such a byte that no live attempt can deliver makes the next candidate launchable within the window |
| `Plan.Occurrences` | src/fetch.rs:609-639 | a layout is taken exactly when every segment fits the window and equal hashes have one length; segments are listed in archive order |
| `Plan.CoalesceOk` | src/fetch.rs:666-675 | a coalesced part adds its bytes and, if it is at most 64 KiB, the gap before it, and no other byte; ranges stay ordered, disjoint and more than 64 KiB apart |
| `Plan.PlanSegment` | src/fetch.rs:654-685 | a segment is executed as decided; a fetched one adds its bytes and a small gap before it to the ranges, a replayed one nothing |
| `Plan.BuildSpans` | src/fetch.rs:642-687 | spans follow layout and decisions one for one; the ranges hold exactly the bytes of fetched spans and of gaps of at most 64 KiB between consecutive ones, and lie farther apart than that |
| `Plan.PlannerAndEmitterAgree` | src/fetch.rs:609-693 | executing the plan keeps the emitter's retained segments equal to the planner's resident set, with the same replays owed |
| `Plan.ReplaysWork` | src/fetch.rs:794-822 | every replay of a plan finds a retained segment of its own length |
| `Plan.ManifestPlan` | src/fetch.rs:591-693 | a plan results exactly when hashes, size and both guards agree with the layout; it is one the emitter and the transfer accept, and fetches the bytes that `Plan.BuildSpans` says and no other |
| `Plan.NotFetchedTwice` | src/fetch.rs:664-683 | no byte of a replayed segment or of a literal longer than 64 KiB is fetched |
| `Plan.FallbackPlan` | src/fetch.rs:575-587 | without a manifest: one plain span over one range, exactly [start, end), usable for any window |
| `Plan.PlannedTransferIsTheArchive` | src/fetch.rs:591-693 | if every fetched span received the content of its hash, the planned output is the archive the manifest describes |
| `Nar.TokInjective` | src/nar.rs:96-101 | a framed token followed by anything can be read back in one way |
| `Nar.FrameInjective` | src/nar.rs:96-101 | so can a list of them |
| `Nar.TokensInjective` | src/nar.rs:115-162 | the token list of a tree followed by anything determines tree and rest |
| `Nar.ArchiveInjective` | src/nar.rs:48-162 | distinct trees have distinct archives |
| `Nar.TokIsFramed` | src/nar.rs:96-101 | a framed token is the one string of whole eight-byte words, none too many, whose first word denotes the length with the lowest byte first, followed by the bytes and zeros only |
| `Nar.ArchiveReads` | src/nar.rs:48-63 | an archive, and nothing but it, reads as the tree's tokens one after another |
| `Grammar.WrittenIsRead` | src/nar.rs:115-162 | a reader of the NAR grammar reads the tokens of a tree back as that tree |
| `Grammar.ReadIsWritten` | src/nar.rs:115-162 | and nothing else as it |
| `Grammar.ArchiveIs` | src/nar.rs:48-162 | a byte string is the archive of a tree if and only if it reads as the magic and one node, that tree |
| `Seek.Builder.RawLit` | src/nar.rs:74-84 | literals extend the archive by exactly their bytes |
| `Seek.Builder.CloseLit` | src/nar.rs:85-95 | closing a literal changes no byte |
| `Seek.Builder.Token` | src/nar.rs:96-101 | one token more, framed as the format has it |
| `Seek.Builder.FileSeg` | src/nar.rs:102-114 | a file segment extends the archive by the file's content |
| `Seek.Builder.Contents` | src/nar.rs:115-162 | the hand-framed contents are one token, padding included |
| `Seek.Builder.Node` | src/nar.rs:115-162 | a node writes the tokens of its tree |
| `Seek.Build` | src/nar.rs:48-63 | the seek table's segments are contiguous and flatten to the archive of the tree, which reads as that tree |
| `Seek.FirstSeg` | src/nar.rs:170-174 | the number of leading segments that end at or before start |
| `Seek.SegSliceIs` | src/nar.rs:176-197 | a clamped segment has exactly the archive's bytes at its place |
| `Seek.NextSlice` | src/nar.rs:170-197 | walking from the first segment, each slice continues where the last ended until the range is exhausted |
| `Seek.Pieces.CutFile` | src/serve.rs:726-732 | a file slice is cut into reads of at most the read chunk, without gap or overlap |
| `Seek.Pieces.Next` | src/serve.rs:723-743 | each piece is the next bytes of the archive; None exactly at the end of the range |
| `Seek.Respond` | src/serve.rs:700-743 | the concatenated pieces are exactly bytes start..end of the archive |
| `Layout.FillLength` | src/manifest.rs:229-248 | the expected number of segments covers the file exactly |
| `Layout.Synth.Segments` | src/manifest.rs:236-248 | a file's segments are laid out end to end, refused exactly on a malformed hash |
| `Layout.Synth.Contents` | src/manifest.rs:227-249 | the contents token of a described file, length and padding included |
| `Layout.Synth.Node` | src/manifest.rs:205-271 | a node is accepted exactly when it is well formed, and writes the tokens of the tree it describes |
| `Layout.SynthLayout` | src/manifest.rs:128-153 | a layout results exactly for a well formed manifest of the stated size, and flattens to the archive of the described tree, which reads as that tree, whatever the segments contain |
| `Layout.ManifestDescribes` | src/manifest.rs:52-98 | the manifest of a tree describes that tree |
| `Layout.AcceptedIffCanonical` | src/manifest.rs:205-271 | the manifest of a tree is accepted exactly when its names are strictly sorted and it is at most 512 levels deep |
| `Layout.TwoWalks` | src/manifest.rs:126-272 | seek table and synthesised layout of one tree flatten to the same archive, contiguous over [0, nar_size) |
| `Ranges.ParseRange` | src/serve.rs:817-864 | a partial range is nonempty and within the archive |
| `Ranges.RequestMeansRange` | src/peers.rs:385-388 | the header written for [start, end) is parsed as that range, clamped to the size, or refused at or past it |
| `Ranges.OpenMeansTail` | src/serve.rs:842-850 | an open range is the tail from its start |
| `Ranges.SuffixMeansEnd` | src/serve.rs:832-841 | a suffix range is the last n bytes |
| `Ranges.SpacesIgnored` | src/serve.rs:826-828 | white space around a range means nothing |
| `Ranges.Reassemble` | src/serve.rs:700-864 | requests for consecutive ranges, however cut, reassemble the archive |
| `Base32.OrAdds` | src/nixbase32.rs:36-57 | or-ing operands without a common bit adds them |
| `Base32.DigitIs` | src/nixbase32.rs:16-32 | the five bits picked from two bytes are digit n of the number in base 32 |
| `Base32.EncodedLenMeaning` | src/nixbase32.rs:8-14 | just enough characters of five bits each |
| `Base32.AlphabetMeaning` | src/nixbase32.rs:5 | 32 digits and lower case letters in ascending order, none of them e, o, t or u |
| `Base32.Encode` | src/nixbase32.rs:16-32 | a string of the encoded length over the alphabet that denotes the same number as the bytes |
| `Base32.OrDigit` | src/nixbase32.rs:36-57 | or-ing a digit in adds it at its place; a spill means the value does not fit |
| `Base32.Decode` | src/nixbase32.rs:36-57 | succeeds exactly on strings of the right length over the alphabet whose number fits, and returns that number |
| `Base32.EncodeThenDecode` | src/nixbase32.rs:16-57 | decoding an encoding gives the bytes back, for every byte string |
| `Base32.DecodeThenEncode` | src/nixbase32.rs:16-57 | encoding a decoded string gives the string back, and decoding succeeds exactly on the strings in range |

## Left out

- The postgres backend: its atomicity and ordering live in SQL. The store is modelled once, from the rocksdb backend.
- HTTP handlers, the HTTP client, file reads, inotify, SQLite access, the status endpoint and configuration: input and output.
- Protobuf, zstd, JSON, blake3, SHA-256 and ed25519: events, facts and trees are datatypes, hashes are arbitrary functions. An attestation hash is a sequence of 128 bits; where distinct facts must not collide the condition is stated (`clean`, `Store.NoCollision`, `Reconcile.Faithful`). Trust in signatures at use is not modelled.
- Floating-point heuristics (peer weights, the governor, hedge probability, the compression controller) and wall-clock machinery (deadlines, stall watchdog, cooldowns): peer choice, hedging, chunk size and failures are arbitrary, with chunk size positive.
- Leases, and the byte accounting of the seek-table cache: efficiency measures on which nothing here rests.
- 64-bit overflow of sequence numbers, offsets and sizes: numbers are unbounded except in `parse_range` and in NAR token lengths.
- Text encodings: names, paths and headers are character or byte sequences; hexadecimal segment hashes are already decoded; trimming of a range header covers ASCII white space.
- The file system walk: a tree is given with sorted entries as the walk lists them, and a file's content does not change between the walk and a read.
- The parts of a sync response besides origin updates and range replies (fact dump pages and their cursor, Merkle nodes) and `slices`, a helper of its test module.
- Mesh.Enabled: an origin exports only while it owns its latest number, and a reminted generation is one it never used; both are the protocol's own assumptions, restore followed by remint.
- Mesh.AtomicRunsAreExact: speaks of responders that read clock and contents of one generation; `Labels` covers the others.
- Pull.PullConverges: assumes a quiescent responder with gapless journals, one origin universe, no skipped origins (`PullLoop.PullFrom` allows them), and no future of the puller's own origin at the responder; for the last, `Pull.PullConvergesAfterRemint` covers the round in which the puller remints.
- PullLoop.PullFrom: the fact page's own continuation flag and failed requests are not modelled; both can only end a pull later or earlier.
- Feed.FedKnows: facts of the numbers that a snapshot jumps over come by fact pages and reconciliation, not from the journal.
- Catchup.Catchup.Complete: takes replies of the present enrolment only, because plans are looked up by origin name; replies that outlive a dropped plan are excluded.
- Emission.Emitter.Insert: the bytes of an offset are fixed by the one delivery that buffers it (`src`); which peer's bytes those are is left open, and the hash gate decides.
- Reconcile.FetchSubtree: subtrees are fetched one after another and a page cursor is a row position; the sliding window over several subtrees is not modelled.
- Reconcile.Pass: the peer's table does not change during the pass, and nothing is claimed for one pass beyond the bucket, target and page caps except that it stays below the join.
- Lookup.LookupHashPart: identities are pairs of a hash part and a NAR hash rather than their concatenation, so a query longer than a hash part and facts without a hash part, which the index refuses, are not covered.
- Index.MeshIndex.RespondBudgeted: the fact page, its cursor and the fact root of a response are not modelled.
- Writers.StepKeepsInv: the journal, possession and clock rows that an event apply writes under its origin's stripe are those of `Index.MeshIndex.ApplyEvents`; the concurrent model has the facts.
- Keys.Possession.RetireOrigin: covers possession; the journal and clock rows of a departed origin are removed by the same prefix scans and are not repeated.
