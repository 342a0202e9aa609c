# crdtsync core: a verified model

crdtsync keeps documents in step between replicas that edit offline. This project models the
logic its core rests on and proves what the core's own comments and design promise of it:

- **The sequence** (`Stamps`, `Runs`, `Lists`, `Convergence`, `Trees`, `Fugue`, `Spans`,
  `SpanWalk`, `Reads`, `Positions`, `Siblings`, `Ranks`): a Fugue list whose deleted ids are kept as compressed
  runs. The stored form is a class with the two maps the source mutates; every mutation is
  proved against a plain map from id to value-or-tombstone, and the stack walk over runs
  against the in-order walk of the uncompressed tree.
- **Its bytes** (`Bytes`, `Codec`, `Cursors`, `Snapshots`, `Layout`, `Accepted`): the list snapshot, written with
  capped runs and read back through a cursor.
- **The replica** (`Groups`, `Buffers`, `Document`, `Delivery`): apply, hold and drain with
  atomic groups, what any set of delivered ops comes to, op-id and stamp minting, and the
  filter that destrands split groups.
- **Moves and placements** (`TreeMoves`, `Placements`, `Arrivals`): the undo-and-replay move
  log, the one-holder-per-key placement claim, and what the order of arrival can change.
- **Authorization** (`Acl`, `Authority`, `Provenance`, `Delegation`, `Decisions`, `Chains`,
  `Oscillation`): the rooting/revocation iteration, the delegation walk and the verdict.
- **Map slots and diffs** (`MapSlots`, `Diff`): last-writer-wins slots with the create each
  key retains, and the id-based sequence diff.

`Ranks`, `Layout` and `Chains` spell the orders, the bytes and the grants out field by field, so
that what the other modules say through their own definitions is tied to the fields themselves.
`Collections` holds facts about finite sets and sequences. `dafny verify dfyconfig.toml`
checks everything.

## How the model reads the code

- Ids, clients and bytes are natural numbers; widths are stated where they matter (the
  64-bit lamport space, the 32-bit counts, the two lamport ceilings, the wrapping sequence
  search, the saturating reservation end). A client or element id is the number its sixteen
  bytes spell, so its byte order is the order on numbers.
- A hash map's iteration order is an arbitrary choice of the next key, so everything proved
  holds for every order.
- An op's mutation is opaque. What the replica needs of it is its span and whether it can
  apply, which is a gate over the ids applied so far. The group theorems take that gate to be
  monotone. The source says of `ready` both that displacement is no reason to wait and that
  readiness is not monotone in general; where it is not, the convergence theorems do not
  apply, while what `Run` records, `Buffers.NoneEarlyInRun` included, holds under every gate.
- Derived ids are a function of the key and the kind; nothing is assumed of it but that it is
  a function (and, for children lists, injective).
- The ghost parameter `d` of the replica's methods is the set of ops it had received before;
  it carries no information at run time.

## What turned out differently from the comments

- `list.rs` says claims on one id resolve the same in every order. They do for scalars
  (`Convergence.ScalarsConverge`). With a scalar and a composite on one id and a delete of it,
  the tombstone keeps the position of whichever claim was in place when the delete came
  (`Convergence.MixedKindsDiverge`); the exact condition is `Convergence.ConvergesIff`.
- Merging two lists that hold one deleted id at two positions keeps the receiver's position,
  so which side receives matters exactly then (`Convergence.MergeCommutesIff`; two such lists
  in `Convergence.DeletedApart`).
- `codec.rs` holds scalars to the rule that accepted bytes re-encode to themselves. The stamp
  reader does not keep it: it takes every non-zero flag for an offset, where the writer puts
  only one, before an offset that is not zero (`Codec.LooseStamp` for every stamp and flag,
  `Codec.LooseStampInput` at one string). Accepted bytes re-encode to themselves exactly when
  the flag is the writer's (`Codec.StampCanonicalIff`).
- `acl.rs` says only forged provenance makes rooting and revocation oscillate. An owner that
  revokes its own grant from the creator does too, and the revoke is then disregarded
  (`Oscillation.GivenUpKept`).
- `acl.rs` says rooting with the pinned revokes converges, so that the verdict is never an
  artifact of the pass count. From the snapshot the main loop leaves it need not: on three
  records the settling phase swings for ever and the verdict is the parity of the number of
  passes (`Oscillation.VerdictByPassCount`). With `n` records, settling stops from a snapshot
  exactly when the walks of `n + 1` steps up grants the creator does not root, ending at a
  record the snapshot roots, start where those of `n + 2` steps do (`Provenance.StopsIff`); at
  the snapshot the main loop leaves, that is exactly when the pass count does not show in what
  is decided on (`Provenance.PassCountIff`). What settling then leaves is what the creator
  roots exactly when there is no such walk (`Provenance.SolutionStandsIff`). A cycle alone is
  not enough to keep settling from stopping (`Provenance.SelfGrantStops`).
- `treemove.rs` calls the relation an invariant-acyclic forest. Moves keep it one
  (`TreeMoves.FoldForest`); `set_base` need not. A creation edge recorded after a move has put
  its parent below the node closes a cycle (`TreeMoves.LateCreation`). It closes none exactly
  when a move already overrides the node's parent or the node is neither that parent nor above
  it (`TreeMoves.CreationIff`), and the relation stays the fold of the log exactly when that
  held at every point of the log (`TreeMoves.CreationKeepsIff`); a node nothing hangs under,
  moved or not, always meets it (`TreeMoves.LeafClear`).
- `treemove.rs` says the log is one whatever order its moves arrive in. It dedups on the stamp
  alone, so of two moves sharing one the first to arrive stays (`TreeMoves.DedupByArrival`,
  two logs fed one pair of moves): a set of moves has one outcome exactly when no two of them
  share a stamp (`TreeMoves.DedupIff`). Registries fed the same moves in two orders differ
  likewise (`Placements.SharedStamp`). There a move is logged only with its key held, so the
  log at a stamp is one in every order exactly when the moves of that stamp all went into one
  list, or none of their nodes is the best claimant of its key (`Arrivals.LogOrderIff`).

## Model

| member | source | states |
|---|---|---|
| `Bytes.LeRoundTrip` | crates/core/src/codec.rs:83-89 | a number that fits its width reads back from its little-endian bytes |
| `Bytes.FromLeRoundTrip` | crates/core/src/codec.rs:585-595 | bytes read as a little-endian number are that number's bytes |
| `Bytes.BeRoundTrip` | crates/core/src/codec.rs:141-154 | a 128-bit id reads back from its big-endian bytes |
| `Bytes.FromBeRoundTrip` | crates/core/src/codec.rs:664-676 | sixteen bytes read as an id are that id's bytes |
| `Bytes.LexTransitive` | crates/core/src/list.rs:148-152 | the byte order the claim rank ends with is transitive (with `LexTotal` and `LexIrreflexive`, a strict total order) |
| `Bytes.LexTotal` | crates/core/src/list.rs:148-152 | two byte strings are equal or one precedes the other |
| `Codec.StampAhead` | crates/core/src/codec.rs:664-676 | a written stamp, offset flagged or not, parses back with whatever follows it untouched |
| `Codec.StampCanonicalIff` | crates/core/src/codec.rs:664-676 | accepted stamp bytes are the ones the stamp is written as if and only if their flag is zero, or one before a non-zero offset |
| `Codec.LooseStamp` | crates/core/src/codec.rs:664-676 | any stamp is also read back from every other non-zero flag, so two byte strings name one stamp |
| `Codec.LooseStampInput` | crates/core/src/codec.rs:664-676 | at one concrete string: twenty-four zeros, the flag one and a zero offset read as a stamp written in twenty-five bytes |
| `Codec.AnchorAhead` | crates/core/src/codec.rs:722-739 | a written anchor parses back, for both sides and for the root |
| `Codec.ScalarAhead` | crates/core/src/codec.rs:678-720 | every scalar kind, signed and blob-reference included, parses back from its bytes |
| `Codec.ElementAhead` | crates/core/src/list.rs:269-331 | a node's value, scalar inline or composite by kind and id, parses back |
| `Codec.ElementInjective` | crates/core/src/list.rs:148-152 | two values with one encoding are one value, so the claim rank separates every two values |
| `Layout.IdBytes` | crates/core/src/codec.rs:141-154 | an id is its sixteen bytes, most significant first |
| `Layout.LowBytes` | crates/core/src/codec.rs:75-89 | a number's bytes come least significant first, then zeros |
| `Layout.StampBytes` | crates/core/src/codec.rs:141-154 | the bytes of a stamp without and with an offset: lamport, id, flag, offset |
| `Layout.AnchorBytes` | crates/core/src/codec.rs:191-207 | the bytes of each form of anchor |
| `Layout.FlagBytes` | crates/core/src/codec.rs:156-189 | the bytes of nothing and of the two booleans |
| `Layout.BlobBytes` | crates/core/src/codec.rs:156-189 | inline bytes are tagged three and length-prefixed |
| `Layout.ReferenceBytes` | crates/core/src/codec.rs:156-189 | a reference is tagged five, then the id |
| `Layout.CompositeBytes` | crates/core/src/list.rs:269-331 | a composite is its kind tag and its id |
| `Layout.IntegerBytes` | crates/core/src/codec.rs:156-189 | an integer is eight bytes, a negative one in two's complement |
| `Layout.BlobRefBytes` | crates/core/src/codec.rs:156-189 | a blob reference is its id, its media type, its size and its flagged inline bytes |
| `Accepted.ScalarAccepted` | crates/core/src/codec.rs:678-720 | the scalar reader accepts exactly the bytes the writer writes, so every other tag, flag and short string is refused |
| `Accepted.ElementAccepted` | crates/core/src/list.rs:338-437 | the value reader accepts exactly a scalar behind tag zero or a composite's kind and id |
| `Accepted.AnchorAccepted` | crates/core/src/codec.rs:722-739 | accepted anchor bytes are the writer's exactly when the stamp inside them is |
| `Cursors.Cursor.TakeN` | crates/core/src/codec.rs:559-567 | taking bytes advances by exactly that many, or fails and moves nothing |
| `Cursors.Cursor.ReadStamp` | crates/core/src/codec.rs:664-676 | the imperative read yields what the stamp parser yields, value, rest and error alike |
| `Cursors.Cursor.ReadAnchor` | crates/core/src/codec.rs:722-739 | the imperative read agrees with the anchor parser, refusing an unknown side |
| `Cursors.Cursor.ReadScalar` | crates/core/src/codec.rs:678-720 | the imperative read agrees with the scalar parser on every tag, the unknown ones included |
| `Cursors.Cursor.ReadElement` | crates/core/src/list.rs:338-437 | the imperative read of a node's value agrees with its parser |
| `Runs.InSegment` | crates/core/src/list.rs:1254-1259 | the arithmetic test for a run covering an id is membership in the ids the run stands for |
| `Runs.CanonicalUnique` | crates/core/src/list.rs:998-1040 | maximal runs are the unique representation of the id-to-anchor map they denote |
| `Runs.StoreRun` | crates/core/src/list.rs:998-1040 | storing a run over ids nothing covers adds exactly its chain to the denotation |
| `Runs.WeldRuns` | crates/core/src/list.rs:998-1040 | two joining records welded into one denote the same map |
| `Runs.LiftRemoves` | crates/core/src/list.rs:704-719 | splitting a record around an id removes that id from the denotation and nothing else, and what remains is still maximal |
| `Lists.ClaimTotal` | crates/core/src/list.rs:148-152 | the claim rank (kind tag, position, encoded value) is strict and separates every two claims |
| `Lists.ClaimTransitive` | crates/core/src/list.rs:148-152 | the claim rank is transitive |
| `Ranks.EarlierIs` | crates/core/src/stamp.rs:102-109 | the stamp order is lamport, then client, then offset |
| `Ranks.EarlierAnchorIs` | crates/core/src/list.rs:37-41 | the anchor order is the root first, then the earlier parent, then left before right |
| `Ranks.EarlierBytesIs` | crates/core/src/list.rs:148-152 | the byte order is by the first byte in which two strings differ, a prefix first |
| `Ranks.StrongerIs` | crates/core/src/list.rs:121-152 | the claim rank is a scalar before any composite, composites by kind, then the earlier anchor, then the earlier encoding |
| `Lists.AbsUnique` | crates/core/src/list.rs:998-1040 | a valid stored state is determined by the plain map it stands for: same nodes, same run records |
| `Lists.FindRun` | crates/core/src/list.rs:978-982 | the nearest head at or below an id is the only candidate, so one look-up finds the covering run exactly when there is one |
| `Lists.DeadAnchorOf` | crates/core/src/list.rs:682-694 | where a deleted id hangs, read off its run, is what the plain map says; none exactly when it is not deleted |
| `Lists.List.AddDead` | crates/core/src/list.rs:998-1040 | recording a run of deletions adds exactly its chain and leaves the records maximal, whichever neighbours it welds with |
| `Lists.List.TakeDead` | crates/core/src/list.rs:704-719 | lifting an id out removes exactly it, reports whether it was there, and leaves the records maximal |
| `Lists.List.DeleteId` | crates/core/src/list.rs:886-891 | a delete is a delete on the plain map: the live id keeps its position as a tombstone, anything else is unchanged |
| `Lists.List.Seat` | crates/core/src/list.rs:615-630 | seating installs the claim, or only its position if the id was deleted, through a split and a re-weld |
| `Lists.List.InsertAt` | crates/core/src/list.rs:562-574 | a claim is ranked against what holds the id: the lesser claim lives, and a tombstone takes only a lesser position |
| `Lists.List.Reseat` | crates/core/src/list.rs:589-594 | re-seating leaves a live scalar alone, moves a tombstone, and otherwise installs the claim |
| `Lists.List.Rejoin` | crates/core/src/list.rs:602-608 | re-joining leaves a live scalar alone, and otherwise seats the claim, or its tombstone, at the lesser of the two positions |
| `Lists.List.SetMovedAway` | crates/core/src/list.rs:735-739 | the suppression flag of one live id changes and nothing else |
| `Lists.List.UnseenFrom` | crates/core/src/list.rs:1071-1091 | the returned stretch is non-empty, within bound, wholly unseen, and ends at the bound or at an id seen |
| `Lists.List.Bury` | crates/core/src/list.rs:1045-1067 | absorbing a peer's run deletes every id of it: those seen where they sit, those unseen from the run's own chain |
| `Lists.List.MergeNode` | crates/core/src/list.rs:898-937 | a peer's node is folded as one more claim, equal values meeting at the lesser position |
| `Lists.List.Merge` | crates/core/src/list.rs:898-937 | folding a peer in is the id-by-id merge of the two plain maps |
| `Convergence.FoldExplained` | crates/core/src/list.rs:562-630 | after any causal order each id holds its least-ranked claim, or a tombstone at a position some claim named and no later one undercuts |
| `Convergence.OrderIndependent` | crates/core/src/list.rs:562-630 | two causal deliveries of an op set leave one state, when each deleted id's winning claim also names its least position |
| `Convergence.OrderMatters` | crates/core/src/list.rs:562-630 | otherwise two causal orders of the set leave two states |
| `Convergence.ConvergesIff` | crates/core/src/list.rs:562-630 | a deliverable op set has one outcome if and only if each deleted id's winning claim names its least position |
| `Convergence.ScalarsConverge` | crates/core/src/list.rs:562-630 | a plain list converges on every set of inserts and deletes, several claims on one id included |
| `Ranks.StrongestShows` | crates/core/src/list.rs:562-630 | in every causal order an id nobody deletes shows the claim that is strongest so, field by field |
| `Ranks.TombstoneStays` | crates/core/src/list.rs:562-630 | a deleted id whose strongest claim names the earliest anchor keeps its tombstone there |
| `Convergence.SameRecords` | crates/core/src/list.rs:998-1040 | replicas that folded one such set store the same nodes and the same run records |
| `Convergence.MixedKindsDiverge` | crates/core/src/list.rs:556-574 | a scalar and a composite insert of one id and a delete of it, all three named, that the list accepts in two causal orders with two outcomes |
| `Convergence.Replay` | crates/core/src/list.rs:562-630 | replaying a delivery order into the stored list yields the fold on plain maps |
| `Convergence.MergeCommutesIff` | crates/core/src/list.rs:898-937 | merging plain lists commutes if and only if ids either side deleted sit at one position |
| `Convergence.DeletedApart` | crates/core/src/list.rs:898-937 | two reachable plain lists that deleted one id at two positions merge to two states |
| `Convergence.MergeIsUnion` | crates/core/src/list.rs:898-937 | for plain lists that agree so, merging two folds is folding the two op sequences together |
| `Trees.WalkExists` | crates/core/src/list.rs:1152-1182 | every child relation with one parent a node has a walk from the root, dangling and cyclic parts left out |
| `Trees.WalkUnique` | crates/core/src/list.rs:1152-1182 | and only one |
| `Fugue.OrderReaches` | crates/core/src/list.rs:1152-1182 | the naive walk visits each id whose parents lead to the root exactly once and no other, whatever dangles or loops |
| `Fugue.GraftOrder` | crates/core/src/list.rs:1227-1234 | hanging a fresh id at a bare side splices it in beside its parent and moves nothing |
| `Fugue.PlacedInGap` | crates/core/src/list.rs:1227-1234 | the placement rule puts a fresh id in exactly the gap it was computed for |
| `Spans.FindCuts` | crates/core/src/list.rs:1099-1149 | a run is cut exactly where some stored record hangs off it |
| `Spans.FillBuckets` | crates/core/src/list.rs:1099-1149 | each node and each piece of a run lands once, in the bucket of its anchor |
| `Spans.SortByHead` | crates/core/src/list.rs:1099-1149 | a bucket is permuted into stamp order of its heads |
| `Spans.Children` | crates/core/src/list.rs:1099-1149 | the buckets hold every record of the walk, by anchor, siblings in stamp order |
| `SpanWalk.TreeOrder` | crates/core/src/list.rs:1152-1182 | the stack loop terminates on every valid state, and expanding its spans gives exactly the naive walk over ids |
| `SpanWalk.WalkRefines` | crates/core/src/list.rs:1099-1182 | any walk of the record tree expands to the walk of the uncompressed tree |
| `Reads.LiveOrder` | crates/core/src/list.rs:1185-1193 | the live ids are the shown ids of the naive walk, in its order |
| `Reads.GapExcluding` | crates/core/src/list.rs:1200-1222 | the gap found is the first with the asked number of shown ids before it, or the end if there are fewer, and the ids around it are its neighbours |
| `Reads.HasRightChild` | crates/core/src/list.rs:1236-1250 | the look-up over nodes and runs says whether anything hangs to the right of an id |
| `Reads.PlaceExcluding` | crates/core/src/list.rs:546-551 | the anchor returned is the placement rule's for the first gap before the live index, one node counted as absent |
| `Reads.InsertedInGap` | crates/core/src/list.rs:527-551 | a fresh id so placed enters the live sequence at the lesser of the index and the length, and all other ids keep their order |
| `Reads.Insert` | crates/core/src/list.rs:527-533 | insert at a live index puts the item at the index of the live sequence and at the first such place of the whole one, hung where the placement rule says; replaying a stamp changes nothing |
| `Siblings.SidesOrder` | crates/core/src/list.rs:1152-1182 | whatever hangs left of an id precedes it and whatever hangs right of it follows |
| `Siblings.SiblingsOrder` | crates/core/src/list.rs:1152-1182 | of two siblings, everything under the one of lesser lamport, then client, then offset, precedes everything under the other |
| `Siblings.SiblingsInSequence` | crates/core/src/list.rs:1099-1182 | two stored ids at one anchor stand in the sequence in the order of lamport, then client, then offset |
| `Siblings.TypedNext` | crates/core/src/list.rs:1224-1234 | the id typed next after one just placed hangs to its right, whatever follows |
| `Siblings.RunsApart` | crates/core/src/list.rs:1224-1234 | two runs typed at one place by two replicas never interleave: one precedes the other whole |
| `Reads.Contains` | crates/core/src/list.rs:874-876 | an id is present exactly when the plain map holds it, live or deleted |
| `Positions.ResolveCapture` | crates/core/src/list.rs:775-845 | a captured position resolves, where it was captured, to the index clamped to the length |
| `Positions.ResolveAfterInsert` | crates/core/src/list.rs:775-845 | after an insert it shifts exactly when the insert was before it, or at it with gravity to the right |
| `Positions.ResolveAfterDelete` | crates/core/src/list.rs:775-845 | after a delete it shifts exactly when the deleted item was before it, even if bound to that item |
| `Positions.FindRank` | crates/core/src/list.rs:824-845 | one walk over the records finds how many shown ids precede an id and whether it is shown |
| `Snapshots.PartsAhead` | crates/core/src/list.rs:269-331 | the bytes of a plain list parse to its nodes and the capped chunks of its runs |
| `Snapshots.RunLaid` | crates/core/src/list.rs:269-331 | the chunks a long run is split into are free one after another and together stand for the run |
| `Snapshots.ChunksStand` | crates/core/src/list.rs:269-331 | the chunks of all runs together stand for exactly the map the runs stand for |
| `Snapshots.HoldsAny` | crates/core/src/list.rs:986-993 | the overlap test holds exactly when some id of the stretch is stored |
| `Snapshots.InstallChunks` | crates/core/src/list.rs:338-437 | chunks install exactly when none overlaps what is there, and leave maximal runs for the map they denote |
| `Snapshots.EncodeRun` | crates/core/src/list.rs:269-331 | one run's records are its capped, chained chunks |
| `Snapshots.EncodeState` | crates/core/src/list.rs:269-331 | the loops produce the canonical bytes, a function of the nodes and runs alone |
| `Snapshots.DecodeState` | crates/core/src/list.rs:338-437 | bytes load exactly when they parse whole, hold no composite and name no id twice, and then give a valid list holding what they say |
| `Snapshots.DecodedSame` | crates/core/src/list.rs:338-437 | the bytes of a plain list load, and only to the same nodes and the same run records |
| `Snapshots.SaveAndLoad` | crates/core/src/list.rs:269-437 | save writes the canonical bytes, load restores nodes and runs from them, and saving again gives the same bytes |
| `Snapshots.SameBytes` | crates/core/src/list.rs:269-331 | lists standing for one plain map encode to identical bytes |
| `Layout.ListBytes` | crates/core/src/list.rs:269-331 | the bytes of a list of one node and one run, field by field |
| `Layout.LongRun` | crates/core/src/list.rs:303-325 | a run of more than 1,048,576 ids is cut there, the next record hanging to the right of the id before it |
| `Accepted.RecordAccepted` | crates/core/src/list.rs:403-410 | a run record of no ids or of more than 1,048,576 is refused |
| `Groups.InSpentKeys` | crates/core/src/doc.rs:3833-3875 | a key is among the spent exactly when its members disagree on the size or reach it |
| `Groups.SpentGrows` | crates/core/src/doc.rs:3801-3805 | a key once spent stays spent under more deliveries |
| `Groups.AppliedTakes` | crates/core/src/doc.rs:3615-3681 | whatever is released and ready on part of the least applied set belongs to it |
| `Groups.AppliedGrows` | crates/core/src/doc.rs:3615-3681 | more deliveries never unapply |
| `Groups.StepApply` | crates/core/src/doc.rs:3615-3681 | applying a ready untagged op never runs ahead of what the whole set decides |
| `Groups.BucketIsGroup` | crates/core/src/doc.rs:3851-3859 | the bucket of an unspent key is the whole delivered group, and a spent key has no bucket |
| `Groups.StepSpend` | crates/core/src/doc.rs:3809-3819 | spending keys the whole set spends untags their members and applies none |
| `Groups.QuietIsWhole` | crates/core/src/doc.rs:3615-3681 | a replica with nothing left to move has applied, spent and held exactly what the set of ops decides |
| `Groups.Arrives` | crates/core/src/doc.rs:3232-3303 | a new op joins a settled replica without letting any bucket pass its size |
| `Groups.GroupDecides` | crates/core/src/doc.rs:3615-3681 | with everything ready, a set of members of one group applies nothing while it is short of the declared size and all of them once it reaches it |
| `Buffers.TxBuckets` | crates/core/src/doc.rs:3851-3859 | the buckets hold the positions of every tagged op, ascending, by key |
| `Buffers.TxDeclaredCount` | crates/core/src/doc.rs:3871-3875 | a size is returned exactly when all members declare it |
| `Buffers.CompleteGroup` | crates/core/src/doc.rs:3765-3790 | the group returned is complete and the earliest such; none is returned exactly when none is complete |
| `Buffers.RemovePositions` | crates/core/src/doc.rs:3765-3790 | taking a group out of the buffer splits it into the members and the rest, losing nothing |
| `Buffers.SortByNumber` | crates/core/src/doc.rs:3615-3681 | the members are permuted into sequence order |
| `Buffers.DisagreeingKeys` | crates/core/src/doc.rs:3833-3847 | exactly the buckets without unanimity are named |
| `Buffers.TrackApply` | crates/core/src/doc.rs:3307-3328 | applying a held op keeps applied set, held set, clocks and high-water exactly what the received ops decide |
| `Buffers.ClocksMore` | crates/core/src/doc.rs:3397-3411 | a partition's clock is the greatest clamped reach applied in it, and no other partition's moves |
| `Buffers.HighMore` | crates/core/src/doc.rs:3369-3384 | an author's high-water is the greatest reach received from it, held or applied |
| `Buffers.FurthestReached` | crates/core/src/doc.rs:3348-3411 | a partition's clock is the furthest lamport applied there, capped at 0x3fff_ffff_ffff_ffff, and an author's high-water the furthest received from it |
| `Buffers.AboveApplied` | crates/core/src/doc.rs:3348-3411 | a stamp above a partition's clock outranks every op applied there at or below that cap |
| `Buffers.AdmissibleIff` | crates/core/src/doc.rs:6168-6199 | an op is admissible exactly when its stamp names its author at offset zero, reaches at most 0x7fff_ffff_ffff_ffff and its group, if any, has one to a thousand members |
| `Buffers.NewOp` | crates/core/src/doc.rs:3232-3303 | a new op is held, untagged if its key is spent, with its reservation recorded |
| `Buffers.WalkEscapes` | crates/core/src/doc.rs:2197-2213 | after one miss for each taken id the next candidate of the wrapping walk is free, if any is |
| `Buffers.FreeExists` | crates/core/src/doc.rs:2185-2213 | a replica holding fewer ids than there are sequences has a free one |
| `Buffers.MintPosition` | crates/core/src/doc.rs:6139-6149 | a position is granted exactly when the whole run fits under the state ceiling, one above the floor and off the sub-lamport dimension |
| `Buffers.MintedTracks` | crates/core/src/doc.rs:3907-3957 | a mint below the wire ceiling leaves the author where a peer folding the op stands |
| `Buffers.MintClearsDelivery` | crates/core/src/doc.rs:3348-3384 | an op minted later in a run shares no id with one delivered earlier in it, and lies above the reservation of every new one delivered under its client id |
| `Buffers.MintsApart` | crates/core/src/doc.rs:3348-3384 | ops minted at two steps of a run share neither an id nor a position |
| `Buffers.NoneEarlyInRun` | crates/core/src/doc.rs:3615-3681 | at no point of any run, under any gate and whatever is sent again, is a member of a group with an unspent key applied: from its delivery on it is held as it came |
| `Buffers.FreshConcat` | crates/core/src/doc.rs:3348-3384 | runs of mints chain: what the first left on the record the second clears |
| `Documents.Document.constructor` | crates/core/src/doc.rs:408-445 | a fresh replica has received nothing, every field at its start, and is settled |
| `Documents.Document.AdvanceClock` | crates/core/src/doc.rs:3397-3411 | one partition's clock rises to at least the bound and no other moves |
| `Documents.Document.RecordStamp` | crates/core/src/doc.rs:3369-3384 | the author's high-water covers the reservation, clamped at the state ceiling, a zero reach leaving no entry |
| `Documents.Document.ApplyNow` | crates/core/src/doc.rs:3307-3328 | the op is applied, its clock clamped at the wire ceiling and its reservation recorded |
| `Documents.Document.Hold` | crates/core/src/doc.rs:3607-3610 | the op joins the end of the buffer and the buffered ids |
| `Documents.Document.Release` | crates/core/src/doc.rs:3618-3626 | one ready untagged op moves from held to applied, and the replica still tracks what it received |
| `Documents.Document.DrainReady` | crates/core/src/doc.rs:3615-3681 | afterwards no untagged op is ready; no id leaves the applied and held together |
| `Documents.Document.Spend` | crates/core/src/doc.rs:3801-3819 | the keys are spent, every member held under them is untagged, and a key that held one shrinks the tagged count |
| `Documents.Document.ResolveDisagreeingTx` | crates/core/src/doc.rs:3833-3847 | progress shrinks the tagged count, and none means every bucket agrees on its size |
| `Documents.Document.CommitGroup` | crates/core/src/doc.rs:3615-3681 | a complete group's key is spent, each member is applied or re-held untagged, and the tagged count shrinks |
| `Documents.Document.DrainBuffer` | crates/core/src/doc.rs:3615-3681 | the drain terminates and settles: nothing ready, no complete group, no disagreeing one, no member of a spent key; what waits under an unspent key is left as it is |
| `Documents.Document.Apply` | crates/core/src/doc.rs:3232-3303 | an op out of bounds in any field changes nothing; any other joins the applied or the held, the three id sets stay disjoint, the replica settles, and it tracks one more received op |
| `Documents.Document.ApplyNew` | crates/core/src/doc.rs:3261-3303 | a new op is applied exactly when the result says so, a stray of a spent group standing alone, and its reservation is on record; a member whose key stays unspent is held as it came |
| `Documents.Document.HoldNew` | crates/core/src/doc.rs:3284-3298 | a new op not ready to apply is held with its reservation recorded, and a member of a group may complete it |
| `Documents.Document.SecondEnvelope` | crates/core/src/doc.rs:3244-3258 | a resend under the group held changes nothing; under another, both keys are spent |
| `Documents.Document.EvictPartialTransactions` | crates/core/src/doc.rs:3204-3218 | exactly the waiting keys are spent, nothing tagged is left, and the count returned is theirs |
| `Documents.Document.FreeSeq` | crates/core/src/doc.rs:2197-2213 | the bounded wrapping search returns a sequence in none of the three sets whenever one exists |
| `Documents.Document.MintOpId` | crates/core/src/doc.rs:3879-3888 | the id minted was taken by nothing, and is from then on |
| `Documents.Document.NotePublished` | crates/core/src/doc.rs:2253-2276 | exactly the named sequences join the taken ids, disjointness kept, and the reach, clamped, is recorded |
| `Documents.Document.EmitStamped` | crates/core/src/doc.rs:3907-3957 | a mint takes the lamport one above the greater of its partition's clock and its author's high-water, under a fresh id, and outranks everything applied in the partition that the clock was not clamped for; a refusal, exactly when the latch is set or the run would pass 0x7fff_ffff_ffff_ffff, changes only the latch |
| `Documents.Document.EmitAt` | crates/core/src/doc.rs:3931-3957 | the op takes a fresh id, its partition's clock alone moves, to its reach, and below the wire ceiling the author tracks it as a peer would |
| `Documents.Document.Transact` | crates/core/src/doc.rs:3002-3041 | the edits before a refusal become ops in order with disjoint ascending reservations; a refusal refuses the rest; the buffer settles, and the author tracks the ops as a peer would if each was ready when made |
| `Documents.Document.EmitAll` | crates/core/src/doc.rs:3907-3957 | the edits of an intention are minted one above the other until one is refused, and the author tracks them |
| `Documents.Document.Deliver` | crates/core/src/doc.rs:3232-3303 | after a batch in any order exactly its admissible ids have joined those held, and a group already waiting stays whole until its key is spent; where each id came under one envelope and the gate is monotone the replica tracks the batch and holds back, unapplied, every member of an unspent group |
| `Documents.Document.Run` | crates/core/src/doc.rs:2197-2276 | over any run of deliveries, notices, evictions and edits no taken id is released, each step's mints clear everything on record before that step, what each step brings in is on record after it, edits are answered in order until one is refused, an eviction leaves no op waiting on a group, and what waits under an unspent key keeps waiting |
| `Documents.CommitAndDeliver` | crates/core/src/doc.rs:3002-3041 | a committed batch delivered to a peer that stood where its author did leaves the two in one state |
| `Documents.SettledState` | crates/core/src/doc.rs:3615-3681 | a settled replica's applied set, spent keys, held ops, clocks and high-water are functions of the set of ops received |
| `Documents.Converge` | crates/core/src/doc.rs:3232-3303 | two settled replicas that received one set agree on all of them, even where members disagree on or outnumber the count |
| `Documents.FoldBothWays` | crates/core/src/doc.rs:3232-3303 | two fresh replicas fed one set in two orders end alike, at what the set decides |
| `Documents.FoldGroup` | crates/core/src/doc.rs:3232-3303 | a fresh replica with everything ready, fed members of one group in any order and any number of times, applies none until the declared size is there and then all, with the buffer empty and the key spent |
| `Delivery.SplitGroups` | crates/core/src/op.rs:358-363 | exactly the groups with a dropped member are named |
| `Delivery.DestrandSplit` | crates/core/src/op.rs:375-390 | in place, every survivor of a split group loses its tag and no other op changes |
| `Delivery.SentGroup` | crates/core/src/op.rs:365-390 | a group carried whole arrives with every member and tag, a split one with no tag |
| `Delivery.NoneStranded` | crates/core/src/doc.rs:3615-3681 | a settled replica that received a destranded batch of whole groups holds nothing under a tag |
| `Delivery.DeliverFiltered` | crates/core/src/op.rs:358-390 | filter, destrand and fold at a fresh replica in any order: every survivor arrives and none waits on a group |
| `Placements.OutranksTotal` | crates/core/src/doc.rs:4460-4502 | the placement rank, born there then smaller id, is a strict total order at each key |
| `Placements.AnswerKeepsBest` | crates/core/src/doc.rs:4460-4488 | whatever the answer, the key is held by the best-ranked of all who ever asked, at the nearest place it asked for |
| `Placements.AnswerKeepsRecords` | crates/core/src/doc.rs:4510-4553 | index and records stay exact inverses, and only the loser can lose its last record |
| `Placements.AnswerKeepsLog` | crates/core/src/doc.rs:4510-4553 | every logged move still holds the key that placed it, and at every stamp carried into one list every move holding its key is logged |
| `Placements.AnswerKeepsGood` | crates/core/src/doc.rs:4380-4553 | a claim with everything stored after it keeps inverse, best holder, held edges and the split into placed and waiting together |
| `Placements.HoldersUnique` | crates/core/src/doc.rs:4425-4488 | the claims made decide every holder and seat, whatever order they came in |
| `Placements.HolderIsLeast` | crates/core/src/doc.rs:4460-4502 | a key is held by the least id of the claimants born there, or of all the claimants if none was |
| `Ranks.SeatIsEarliest` | crates/core/src/doc.rs:4460-4488 | a placed node sits at the earliest of the anchors it asked for at its key |
| `Placements.EvictorIsNew` | crates/core/src/doc.rs:4460-4488 | a node that evicts has never asked for that key before |
| `Placements.LogDecided` | crates/core/src/doc.rs:4559-4620 | holders and moves made decide the log at every stamp carried into one list, and at every stamp none of whose movers holds its key |
| `Placements.SharedStamp` | crates/core/src/treemove.rs:62-83 | two registries fed the same two moves of one stamp in two orders hold the same keys and different logs |
| `Placements.LogMove` | crates/core/src/treemove.rs:62-83 | the registry's log and the replayed one stay the same set of moves when one is logged |
| `Placements.UnlogMove` | crates/core/src/treemove.rs:97-115 | and when one is withdrawn |
| `Placements.Registry.EvictPlacement` | crates/core/src/doc.rs:4510-4553 | the loser loses the record and edge of that key alone, and waits again if it was its last |
| `Placements.Registry.ClaimPlacement` | crates/core/src/doc.rs:4460-4488 | the answer is the rank's, and a refusal or join takes nothing from anyone |
| `Placements.Registry.Settle` | crates/core/src/doc.rs:4380-4411 | after any claim every movable node is placed or waiting and never both, the inverse and the best holder kept |
| `Placements.Registry.InsertChild` | crates/core/src/doc.rs:4352-4423 | a birth makes its child movable and adds exactly its claim; into an unknown list it does nothing |
| `Placements.Registry.ApplyMove` | crates/core/src/doc.rs:4559-4620 | a move of a node neither placed nor waiting, or refused its key, changes nothing; otherwise its edge is logged with its key held |
| `Placements.Registry.ApplyReveal` | crates/core/src/doc.rs:4630-4640 | a new shell waits for its first place; a materialised node is left alone |
| `Placements.ClaimsDecide` | crates/core/src/doc.rs:4425-4553 | two registries asked for the same places by the same nodes agree on holders, seats, records and who waits, and on the move log at every stamp carried into one list or held by none of its movers |
| `Arrivals.TakenSound` | crates/core/src/doc.rs:4460-4553 | claims folded in any order leave the best claimant of each key at its nearest asked place, and log only moves that hold their keys |
| `Arrivals.MoveAsTaken` | crates/core/src/doc.rs:4559-4620 | a registry's move changes holders and log as that fold does |
| `Arrivals.BirthAsTaken` | crates/core/src/doc.rs:4352-4423 | a registry's birth changes holders and log as that fold does |
| `Arrivals.OrderLogs` | crates/core/src/doc.rs:4559-4620 | where movers of one stamp went into two lists and one of them is the best claimant of its key, two orders of the same claims end in two logs |
| `Arrivals.LogOrderIff` | crates/core/src/doc.rs:4559-4620 | the log at a stamp is the same in every order of the claims if and only if its moves all went into one list or none of its movers is the best claimant of its key |
| `TreeMoves.MoveKeepsForest` | crates/core/src/treemove.rs:165-176 | re-parenting under a node that is not below it keeps the relation acyclic |
| `TreeMoves.SkippedIff` | crates/core/src/treemove.rs:165-176 | a move is skipped exactly when making it would close a cycle |
| `TreeMoves.WalkEnds` | crates/core/src/treemove.rs:195-207 | in a forest no upward walk outlives the guard, so the guard never decides |
| `TreeMoves.FoldForest` | crates/core/src/treemove.rs:1-17 | whatever the log holds, the relation it folds to is a forest |
| `TreeMoves.FoldDecides` | crates/core/src/treemove.rs:165-176 | one more move re-parents its node, moved before or not, exactly when the whole relation with it is a forest, and otherwise changes nothing |
| `TreeMoves.LastMoveWins` | crates/core/src/treemove.rs:1-17 | a node ends under the parent of the last move of it that closed no cycle, and where it was created if there is none |
| `TreeMoves.UndoMoved` | crates/core/src/treemove.rs:179-188 | restoring the remembered parent undoes a move exactly, skipped or made |
| `TreeMoves.SortedUnique` | crates/core/src/treemove.rs:62-83 | two stamp-ordered logs of the same moves are the same log |
| `TreeMoves.TreeMoves.IsAncestor` | crates/core/src/treemove.rs:195-207 | on a forest the bounded walk decides ancestry |
| `TreeMoves.TreeMoves.Redo` | crates/core/src/treemove.rs:165-176 | one move is folded in and what it overrode is remembered |
| `TreeMoves.TreeMoves.Rewind` | crates/core/src/treemove.rs:62-115 | undoing back to a place leaves the fold of the log before it |
| `TreeMoves.TreeMoves.Replay` | crates/core/src/treemove.rs:62-115 | replaying leaves the fold of the longer log |
| `TreeMoves.TreeMoves.Apply` | crates/core/src/treemove.rs:62-83 | a move is added exactly when its stamp is new, and undo-and-replay leaves the fold of the stamp-ordered log |
| `TreeMoves.TreeMoves.ApplyAll` | crates/core/src/treemove.rs:62-83 | a batch leaves in the log exactly what it held and, of the batch, the first move of each stamp new to it |
| `TreeMoves.TreeMoves.Remove` | crates/core/src/treemove.rs:97-115 | exactly the named move is withdrawn, leaving the fold of the rest |
| `TreeMoves.TreeMoves.SetBase` | crates/core/src/treemove.rs:56-58 | the relation stays a forest if and only if the edge closes no cycle, and stays the fold of the log if and only if it would have closed none at any point of it |
| `TreeMoves.LeafFold` | crates/core/src/treemove.rs:56-58 | a creation edge recorded before anything hangs under the node changes no fold, whether or not the node has moved |
| `TreeMoves.CreationIff` | crates/core/src/treemove.rs:56-58 | a creation edge keeps the relation a forest if and only if a move overrides it or the node is neither its new parent nor above it |
| `TreeMoves.CreationKeepsIff` | crates/core/src/treemove.rs:56-58 | it leaves relation and entries the fold of the log if and only if it was clear at every point of the log |
| `TreeMoves.LeafClear` | crates/core/src/doc.rs:4412-4417 | the birth of a node nothing hangs under, revealed and moved meanwhile or not, is clear at every point |
| `TreeMoves.LateCreation` | crates/core/src/treemove.rs:56-58 | recorded after a move has put its parent below the node, a creation edge closes a cycle the fold would have refused |
| `TreeMoves.MovesDecide` | crates/core/src/treemove.rs:1-17 | replicas with the same moves and creations hold the same log and the same forest |
| `TreeMoves.FoldBothWays` | crates/core/src/treemove.rs:62-83 | two batches of moves end in one log if and only if the same moves are the first of their stamps, and then in one forest; a set of moves under distinct stamps in any two orders always does |
| `TreeMoves.DedupIff` | crates/core/src/treemove.rs:1-17 | a set of moves leaves one log in every order if and only if no two of its moves share a stamp |
| `TreeMoves.AllArrive` | crates/core/src/treemove.rs:62-83 | under distinct stamps every move of a batch is kept |
| `TreeMoves.DedupByArrival` | crates/core/src/treemove.rs:62-83 | two empty logs fed one pair of moves under one stamp in two orders end in two forests |
| `Acl.DecideCapability` | crates/core/src/acl.rs:239-278 | the flag loop decides deny-overrides, own-implies, direct allow, abstain, for every capability including Own |
| `Acl.JudgedAsSet` | crates/core/src/acl.rs:201-278 | the plain verdict reads which tuples are present, not their order |
| `Authority.Solve` | crates/core/src/acl.rs:606-642 | the two loops compute the bounded iteration with revokes in flux pinned off; not converging means no pass within the bound was a fixpoint |
| `Authority.IterateToBound` | crates/core/src/acl.rs:606-617 | stopping early or at the bound, the snapshot is the one after the full bound of passes |
| `Authority.SettleRooting` | crates/core/src/acl.rs:618-642 | stopping early or not, rooting has been passed one more time than there are records |
| `Authority.SamePass` | crates/core/src/acl.rs:343-419 | a pass decides a record from the Own grants it depends on alone |
| `Authority.AcyclicMeets` | crates/core/src/acl.rs:606-617 | on an acyclic graph any two starting snapshots meet within as many passes as records |
| `Authority.AcyclicConverges` | crates/core/src/acl.rs:343-419 | on an acyclic graph the iteration reaches its fixpoint within as many passes as records, inside the bound; it is the only fixpoint and what is decided on |
| `Provenance.IterateTraces` | crates/core/src/acl.rs:343-394 | in every pass a rooted record has a finite chain of Own allows to a grant by the creator |
| `Provenance.SettleTraces` | crates/core/src/acl.rs:618-642 | settling keeps that, however many passes it takes |
| `Provenance.SolutionTraces` | crates/core/src/acl.rs:585-642 | every record finally treated as rooted traces to the creator, converged or not |
| `Provenance.ChainAttenuates` | crates/core/src/acl.rs:343-394 | every grant up a chain governs the path at its foot |
| `Provenance.CyclesConferNothing` | crates/core/src/acl.rs:538-576 | without a grant by the creator nothing is rooted |
| `Provenance.SettlesIff` | crates/core/src/acl.rs:618-642 | settling reaches exactly what the creator roots from every snapshot with the same revokes if and only if no grants the creator does not root form a cycle |
| `Provenance.EndsIff` | crates/core/src/acl.rs:618-642 | after `k` settling passes a record the creator does not root is rooted if and only if a walk of `k` steps up such grants leads from it to a record rooted at the start |
| `Provenance.SettlesWellIff` | crates/core/src/acl.rs:618-642 | from one snapshot, settling ends at what the creator roots if and only if no walk of one step more than there are records ends at a record the snapshot roots |
| `Provenance.StopsIff` | crates/core/src/acl.rs:618-642 | from one snapshot, settling stops if and only if walks of that length and walks one step longer start at the same records |
| `Provenance.PassCountIff` | crates/core/src/acl.rs:618-642 | what is decided on is the same after every larger number of settling passes if and only if the snapshot the main loop leaves, its revokes pinned, meets that condition |
| `Provenance.SolutionStandsIff` | crates/core/src/acl.rs:618-642 | what is decided on roots exactly what the creator roots if and only if no such walk ends at a record the main loop left rooted |
| `Provenance.SelfGrantStops` | crates/core/src/acl.rs:618-642 | one self-granted record is a cycle from which settling stops at once, so acyclicity is not the exact condition |
| `Delegation.LiftFrontier` | crates/core/src/acl.rs:441-490 | one breadth-first round meets the author or adds everyone who delegated to the frontier |
| `Delegation.IsAtOrAbove` | crates/core/src/acl.rs:441-490 | the bounded breadth-first walk decides reachability up the standing delegations, exactly |
| `Decisions.DenySuppresses` | crates/core/src/acl.rs:499-536 | a grant is suppressed exactly by a relevant deny whose author is at or above its granter |
| `Decisions.DecideWithAuthority` | crates/core/src/acl.rs:577-717 | the evaluator returns the verdict on the solution of the record graph |
| `Decisions.RevokedInert` | crates/core/src/acl.rs:499-536 | a verdict is the same with any of the records treated as revoked taken out of the graph |
| `Decisions.StandingRevoked` | crates/core/src/acl.rs:396-419 | the creator's revoke of any record, and a grantor's of its own, always counts |
| `Chains.AllowedIff` | crates/core/src/acl.rs:577-717 | where every deny is so revoked, exactly the creator and those a standing allow speaks of are allowed, subject, path and capability read off the record |
| `Chains.DeniedIff` | crates/core/src/acl.rs:700-717 | where nothing is allowed, exactly those are denied of whom an unrevoked deny of the capability speaks |
| `Chains.CreatorsDenyBinds` | crates/core/src/acl.rs:441-536 | an unrevoked deny by the creator denies everyone it speaks of, the creator included, whatever is allowed |
| `Chains.SuperiorsDenyBinds` | crates/core/src/acl.rs:441-536 | a deny binds wherever all that is allowed was granted by its author or by owners whose standing ownership goes up to that author |
| `Chains.OthersDenyNothing` | crates/core/src/acl.rs:499-536 | a standing grant confers where no unrevoked deny is by the creator or by anyone the grant's own chain of ownership goes up to |
| `Chains.HonestStands` | crates/core/src/acl.rs:343-394 | an unrevoked chain of Own grants from the creator stands, whatever cycles or oscillation the rest of the graph holds |
| `Chains.OwnerRevokes` | crates/core/src/acl.rs:396-419 | the holder of such a chain revokes any record under the path it owns |
| `Chains.StrangerRootsNothing` | crates/core/src/acl.rs:343-394 | a grant by an actor no record makes owner of its path is never rooted |
| `Chains.StrangerRevokesNothing` | crates/core/src/acl.rs:396-419 | revokes by actors who are neither creator nor grantor nor made owners by any record count for nothing |
| `Decisions.AllowTraces` | crates/core/src/acl.rs:577-717 | anyone but the creator is allowed only by a record tracing to the creator |
| `Decisions.ForgeriesConferNothing` | crates/core/src/acl.rs:538-576 | records the creator had no part in allow nobody else anything |
| `Decisions.RefinesPlain` | crates/core/src/acl.rs:577-717 | with every record granted by the creator and none revoked, the verdict on anyone else is the plain evaluator's |
| `Decisions.ReplicasAgree` | crates/core/src/acl.rs:538-576 | replicas holding one set of records decide every request alike, in whatever order they hold them and list each one's revokers |
| `Oscillation.GivenUpKept` | crates/core/src/acl.rs:558-576 | an owner's revoke of its own grant never settles and is disregarded: it keeps every capability |
| `Oscillation.VerdictByPassCount` | crates/core/src/acl.rs:618-642 | on three records settling never settles, the exact condition fails, and one pass more turns an allow into an abstention |
| `MapSlots.SumsUnique` | crates/core/src/map.rs:74-113 | the writes to a key decide its stamp, tombstone, occupant and retained create |
| `MapSlots.RetainedUnion` | crates/core/src/map.rs:103-113 | the higher of two retained creates is the highest-ranked create of both sides |
| `MapSlots.MergeSums` | crates/core/src/map.rs:545-596 | merging two slots gives the slot that saw the writes of both |
| `MapSlots.SetSums` | crates/core/src/map.rs:475-509 | a set leaves the slot that saw one more write, its create retained even when it loses |
| `MapSlots.DeleteSums` | crates/core/src/map.rs:511-531 | a delete leaves the slot that saw one more write, the retained create surviving the tombstone |
| `MapSlots.WritesDecide` | crates/core/src/map.rs:475-531 | the same writes leave the same slots in any order |
| `MapSlots.LatestWins` | crates/core/src/map.rs:475-531 | the write of greatest lamport, then client, then offset is what its slot shows |
| `MapSlots.LatestCreateKept` | crates/core/src/map.rs:74-113 | the container create greatest so, then by kind, is the one its key retains, whatever came over it |
| `MapSlots.MapSlots.Put` | crates/core/src/map.rs:475-509 | the map reflects one more write and no other key changes |
| `MapSlots.MapSlots.Remove` | crates/core/src/map.rs:511-531 | the map reflects one more delete and no other key changes |
| `MapSlots.MapSlots.Merge` | crates/core/src/map.rs:545-596 | merging two maps is the map that saw the writes of both |
| `MapSlots.MergeCommutes` | crates/core/src/map.rs:545-596 | either direction of a merge gives one state |
| `MapSlots.FoldWrites` | crates/core/src/map.rs:475-531 | folding a batch of writes in the order given reflects exactly that set |
| `Diff.ListRuns` | crates/core/src/diff.rs:394-410 | the runs cover exactly the items not kept, in order, with something kept between any two |
| `Diff.RunsMaximal` | crates/core/src/diff.rs:449-465 | every run is non-empty and bounded by a kept item or an end |
| `Diff.DiffList` | crates/core/src/diff.rs:353-373 | deletes cover what the new snapshot lacks, inserts what the old one lacked |
| `Diff.CutKeeps` | crates/core/src/diff.rs:353-373 | removing the delete runs leaves exactly the shared items in order |
| `Diff.PasteCut` | crates/core/src/diff.rs:353-373 | adding runs at their indices undoes removing them |
| `Diff.DiffIsPatch` | crates/core/src/diff.rs:353-437 | for snapshots whose shared ids keep items and order, the diff turns the old sequence into the new |
| `Diff.PatchIff` | crates/core/src/diff.rs:353-437 | for any two snapshots the diff is a patch if and only if what they keep of each other reads the same |
| `Diff.CutPaste` | crates/core/src/diff.rs:353-373 | removing runs from where they were added undoes adding them |
| `Diff.PatchNeedsOrder` | crates/core/src/diff.rs:344-353 | two items swapped have an empty diff, so the shared order is needed |

## Left out

- Documents.Document.MintOpId: asks that some sequence is free, which the source argues from memory being smaller than the 64-bit space; `Buffers.FreeExists` gives that from the number of ids held.
- Documents.Document.ApplyNow: the routing of the mutation itself to a map, list or tree is not modelled; it advances what the replica keeps about the op.
- Documents.Document.Deliver: claims an order-free outcome only for ops each delivered under one envelope and a monotone gate; a second envelope is modelled by `SecondEnvelope`, without an order-free outcome.
- Documents.Document.Transact: an intention that is not part of a larger one; open intentions, undo recording and the tagging of atomic commits are not modelled.
- Snapshots.EncodeState: lists with 2^32 or more records, whose count the source casts to 32 bits, are outside the precondition.
- Snapshots.DecodeState: plain lists only; composite placeholders, their handles and the moved-away flag (which is not encoded) are left out, and the UTF-8 check on a blob's media type is not made.
- Lists.List.MergeNode: a composite is its kind and id, so two live composites of one id are not merged inside.
- Lists.List.Merge: leaves out that recursive merge likewise.
- MapSlots.MergeSums: leaves out the merge inside two live composites of one id.
- MapSlots.MapSlots.Merge: an occupant is its kind and id, so the recursive merge inside two live composites of one id, shared handles and displacement flags are not captured.
- Placements.Registry.Settle: children lists holding only placed nodes; scalars inserted at the same id, tombstoned seats, reachability edges and the re-fold that suppresses stale placements are not captured.
- Placements.Registry.InsertChild: the creation edge it records is `TreeMoves.TreeMoves.SetBase`, not repeated here; tombstoned seats are left out.
- Placements.Registry.ApplyMove: the re-fold after the move is left out.
- Authority.AcyclicConverges: one way only; which cyclic graphs converge all the same within the bound is not characterised.
- Diff.DiffList: the list and text diffs share one loop; paths, marks and nested composites are not diffed.
- `note_stamp_reach`, the snapshot of the whole document, its projections and redaction, undo and redo, schema repair and migration.
- The op codec, the wire protocol and client, `path.rs`, `json.rs`, counters, registers, marks and ranged elements: repetitive or easy beside the above.
- Text as its own type: it is the same sequence over codepoints; only its diff is covered.
- Role grants and `effective_roles`: a single pass over the tuples.
