# Download assignments of the Stratis block puller

The block puller of a Stratis full node has to decide which connected peer
is asked for which missing block. `PullerDownloadAssignments.AssignBlocksToPeers`
takes the heights of the blocks the node still needs and a snapshot of
its peers. For each peer the snapshot holds `PeerId`, `QualityScore` and
`ChainHeight`. The function returns a map from peer to the list of heights
to request from that peer. The earlier strategy it replaced could ask a
peer for a block above the top of that peer's chain.

The implementation of `AssignBlocksToPeers` is not part of this model; its
test, `PullerDownloadAssignmentsTest.cs`, is. The test's contract is:
- every required height is handed out, counted once (lines 79, 85, 108);
- no peer is asked for a block above its chain height (lines 15-16, 97-99);
- the peer whose chain ends below every required height gets nothing
  (lines 89-91);
- this holds whatever order the required heights come in (lines 37-43).

This project defines a deterministic assignment rule that meets that
contract and proves the contract about it for all inputs:
- every required height goes to exactly one peer;
- no peer is asked for a block above its chain height;
- a peer below every required height gets an empty list;
- the order in which heights are supplied does not matter.

It also proves two properties of the model's own rule that the test does
not ask for:
- each peer's list is in ascending order;
- a peer with a positive score that has the `m` lowest required blocks,
  where `m` times its score exceeds the other peers' scores summed,
  receives work.

Finally, it replays the xUnit test `AssignBlocksToPeersWithNodesWithDifferentChainsCorrectlyDistributesDownloadTasks`.
In the replay, a node at height 5 needs blocks 6 to 40 and has the peers
`(A, 100, 4)`, `(B, 100, 20)`, `(C, 50, 30)` and `(C, 150, 40)`. The model
proves that:

- the first peer gets nothing;
- every other peer gets work, and only up to its own chain height;
- all 35 heights are handed out.

Files:

- `HeightOrder.dfy` holds the ascending order of heights and insertion
  sort. It also proves that an ascending permutation is unique.
- `PullerDownloadAssignments.dfy` holds the peer records, the load
  comparison, the choice of peer for one height, the step-by-step
  distribution, `AssignBlocksToPeers` and its guarantees.
- `PullerDownloadAssignmentsTest.dfy` holds the test's data and the test
  itself. The test is an imperative method with the source's loops and its
  `tasksAssigned` counter.

The assignment rule in the model works as follows:

1. The required heights are sorted into ascending order.
2. The heights are handed out one at a time.
3. Each height goes to the peer that has the block (`height <= ChainHeight`)
   and carries the lightest load, where load is `(assigned + 1) / QualityScore`.
   Loads are compared by cross-multiplication, so a score of 0 counts as an
   infinite load.
4. Ties go to the peer that comes first in the input.

Peers are identified by their position in the input, not by `PeerId`. The
test itself gives two different peer records the id `"C"`. The returned
dictionary is keyed by the record objects, so it still has four entries.

## Model

| member | source | states |
|---|---|---|
| PullerDownloadAssignments.AssignBlocksToPeers | Stratis.Bitcoin.Tests/BlockPulling/PullerDownloadAssignmentsTest.cs:75-80 | one entry per input peer record, in input order, carrying that record (the dictionary of `Count` 4, keyed by peer) |
| PullerDownloadAssignments.Pick | Stratis.Bitcoin.Tests/BlockPulling/PullerDownloadAssignmentsTest.cs:15-16 | the peer chosen for a height has that block, no peer that has the block carries a strictly lighter load, and every earlier peer that has it carries a strictly heavier one |
| PullerDownloadAssignments.BestBelow | Stratis.Bitcoin.Tests/BlockPulling/PullerDownloadAssignmentsTest.cs:15-16 | scanning the first `k` peers: `None` exactly when none of them has the block, otherwise a peer that has it and that none of them undercuts |
| PullerDownloadAssignments.Distribute | Stratis.Bitcoin.Tests/BlockPulling/PullerDownloadAssignmentsTest.cs:75 | hands the heights out one at a time, each to the peer `Pick` chooses, yielding one list per peer; what it guarantees is stated by the `Distribute…` lemmas below |
| PullerDownloadAssignments.DistributeCoverage | Stratis.Bitcoin.Tests/BlockPulling/PullerDownloadAssignmentsTest.cs:108 | handing out heights adds exactly those heights, as a multiset, to what the peers already hold |
| PullerDownloadAssignments.DistributeWithinChains | Stratis.Bitcoin.Tests/BlockPulling/PullerDownloadAssignmentsTest.cs:97-99 | if no peer holds a height above its chain, distribution keeps it that way |
| PullerDownloadAssignments.DistributeExtends | Stratis.Bitcoin.Tests/BlockPulling/PullerDownloadAssignmentsTest.cs:75 | distribution only appends to a peer's list: earlier assignments stay as a prefix |
| PullerDownloadAssignments.DistributeSplit | Stratis.Bitcoin.Tests/BlockPulling/PullerDownloadAssignmentsTest.cs:75 | handing out `a + b` is handing out `a` and then `b` |
| PullerDownloadAssignments.DistributeAscending | Stratis.Bitcoin.Tests/BlockPulling/PullerDownloadAssignmentsTest.cs:75 | heights handed out in ascending order, none below what is held, leave every list ascending |
| PullerDownloadAssignments.LoadBound | Stratis.Bitcoin.Tests/BlockPulling/PullerDownloadAssignmentsTest.cs:99 | while peer `i` has nothing and each other peer `j` holds at most `score(j)/s`, all together hold at most `OtherScores/s` |
| PullerDownloadAssignments.PassedOverStep | Stratis.Bitcoin.Tests/BlockPulling/PullerDownloadAssignmentsTest.cs:99 | a height given to a peer preferred over the empty-handed peer `i` keeps every other load within `score/score(i)` |
| PullerDownloadAssignments.DistributeFeedsPeer | Stratis.Bitcoin.Tests/BlockPulling/PullerDownloadAssignmentsTest.cs:99 | a peer that has every block of the heights still to come cannot be passed over for all of them once their count plus those handed out, times its score, exceeds the others' scores |
| PullerDownloadAssignments.DistributeFeedsPeerFromStart | Stratis.Bitcoin.Tests/BlockPulling/PullerDownloadAssignmentsTest.cs:99 | from empty lists, a peer having the first `m` heights with `m * score > OtherScores` gets work |
| PullerDownloadAssignments.FlattenAppend | Stratis.Bitcoin.Tests/BlockPulling/PullerDownloadAssignmentsTest.cs:85 | appending one height to one peer's list adds exactly that height to the pooled heights |
| PullerDownloadAssignments.FlattenAppendLength | Stratis.Bitcoin.Tests/BlockPulling/PullerDownloadAssignmentsTest.cs:85 | appending one height to one peer's list adds one to the pooled count |
| PullerDownloadAssignments.AssignmentCoverage | Stratis.Bitcoin.Tests/BlockPulling/PullerDownloadAssignmentsTest.cs:79-108 | the pooled heights of all entries are exactly the required heights as a multiset, so the summed counts equal the number of required heights |
| PullerDownloadAssignments.AssignmentWithinChainHeight | Stratis.Bitcoin.Tests/BlockPulling/PullerDownloadAssignmentsTest.cs:97-99 | no entry holds a height above its peer's chain height |
| PullerDownloadAssignments.AssignedHeightIsRequired | Stratis.Bitcoin.Tests/BlockPulling/PullerDownloadAssignmentsTest.cs:75 | every assigned height is one of the required heights |
| PullerDownloadAssignments.ShortPeerGetsNothing | Stratis.Bitcoin.Tests/BlockPulling/PullerDownloadAssignmentsTest.cs:89-91 | a peer whose chain ends below every required height gets an empty list |
| PullerDownloadAssignments.AssignmentOrderIndependent | Stratis.Bitcoin.Tests/BlockPulling/PullerDownloadAssignmentsTest.cs:37-43 | any two orders of the same required heights give the same assignment, so the shuffle cannot change the outcome |
| PullerDownloadAssignments.AssignmentAscending | Stratis.Bitcoin.Tests/BlockPulling/PullerDownloadAssignmentsTest.cs:75 | every peer's list is in ascending height order |
| PullerDownloadAssignments.WellScoredPeerGetsWork | Stratis.Bitcoin.Tests/BlockPulling/PullerDownloadAssignmentsTest.cs:94-99 | a peer that has the `m` lowest required blocks, with `m` times its score above the other peers' scores summed, gets a non-empty list |
| HeightOrder.Insert | Stratis.Bitcoin.Tests/BlockPulling/PullerDownloadAssignmentsTest.cs:43 | inserting into an ascending list gives an ascending list one longer, holding the old elements plus the new one |
| HeightOrder.Sort | Stratis.Bitcoin.Tests/BlockPulling/PullerDownloadAssignmentsTest.cs:43 | the result is an ascending permutation of the input |
| HeightOrder.AscendingUnique | Stratis.Bitcoin.Tests/BlockPulling/PullerDownloadAssignmentsTest.cs:37-43 | two ascending sequences with the same elements are equal |
| HeightOrder.SortOrderIndependent | Stratis.Bitcoin.Tests/BlockPulling/PullerDownloadAssignmentsTest.cs:37-43 | permutations of one another sort to the same sequence |
| HeightOrder.SortAscending | Stratis.Bitcoin.Tests/BlockPulling/PullerDownloadAssignmentsTest.cs:39-43 | an ascending input, such as the freshly built 6..40, is left unchanged by sorting |
| PullerDownloadAssignmentsTest.MaxOf | Stratis.Bitcoin.Tests/BlockPulling/PullerDownloadAssignmentsTest.cs:99 | `Max()` of a non-empty list is an element of it that no element exceeds |
| PullerDownloadAssignmentsTest.TestPeers | Stratis.Bitcoin.Tests/BlockPulling/PullerDownloadAssignmentsTest.cs:46-72 | the test's four peer records, two of them with id "C" |
| PullerDownloadAssignmentsTest.TestHeights | Stratis.Bitcoin.Tests/BlockPulling/PullerDownloadAssignmentsTest.cs:39-41 | the 35 heights 6..40 in ascending order |
| PullerDownloadAssignmentsTest.TestHeightsPermuted | Stratis.Bitcoin.Tests/BlockPulling/PullerDownloadAssignmentsTest.cs:43 | every shuffle of 6..40 has 35 heights within 6..40, can be served by the test's peers and sorts back to 6..40 |
| PullerDownloadAssignmentsTest.TestHeightsSorted | Stratis.Bitcoin.Tests/BlockPulling/PullerDownloadAssignmentsTest.cs:39-43 | every shuffle of the built list 6..40 sorts back to 6..40 |
| PullerDownloadAssignmentsTest.TestScenario | Stratis.Bitcoin.Tests/BlockPulling/PullerDownloadAssignmentsTest.cs:80-108 | for every shuffle: four entries, A's list empty, the other three non-empty and within their chains, 35 heights in total |
| PullerDownloadAssignmentsTest.TestPeerGetsWork | Stratis.Bitcoin.Tests/BlockPulling/PullerDownloadAssignmentsTest.cs:94-99 | B and both C records get a non-empty list, so `Max()` is defined for them |
| PullerDownloadAssignmentsTest.TestPeerQualifies | Stratis.Bitcoin.Tests/BlockPulling/PullerDownloadAssignmentsTest.cs:54-71 | for B, C and C, with `m = ChainHeight - 5`: `0 <= m <= 35`, the peer has each of the heights 6..`m + 5`, and `m` times its score exceeds the others' scores |
| PullerDownloadAssignmentsTest.TestPeerScores | Stratis.Bitcoin.Tests/BlockPulling/PullerDownloadAssignmentsTest.cs:48-71 | the other peers' scores sum to 300, 350 and 250 for B, the first C and the second C |
| PullerDownloadAssignmentsTest.AssignBlocksToPeersWithNodesWithDifferentChainsCorrectlyDistributesDownloadTasks | Stratis.Bitcoin.Tests/BlockPulling/PullerDownloadAssignmentsTest.cs:35-109 | for any shuffle the test's assertions hold: 4 entries carrying the input peers, A's count 0, `Max() <= ChainHeight` for the others, and the counted `tasksAssigned` equal to the 35 required heights |

## Left out

- The implementation file of `PullerDownloadAssignments` is not part of this model. Only its test is. The model defines the assignment rule as a deterministic greedy choice: ascending heights, lightest `(assigned + 1) / QualityScore` load, ties to the earlier peer. Every guarantee above is proved about that rule.
- PullerDownloadAssignments.WellScoredPeerGetsWork: does not prove that assignments are proportional to quality scores. It gives only a lower bound that guarantees some work.
- PullerDownloadAssignments.AssignBlocksToPeers: requires every required height to be at or below some peer's chain height. Nothing in the test covers a height that no peer has, and the model does not define a fallback for it.
- Ties are broken by position in the input rather than by `PeerId`. The test reuses the id "C" for two peers, so ids do not identify peers.
- `QualityScore` is a non-negative integer (`nat`). Its C# type is not part of this model. A score of 0 makes a peer the last choice rather than an error.
- Heights are unbounded integers. The model only compares and counts them, so the width of C#'s `int` does not matter. The counter `tasksAssigned` stays far below any bound.
- The random shuffle (`OrderBy(a => rnd.Next())`) is a parameter of the test method: any permutation of 6..40 is allowed. `Random` is not modelled.
- The `Dictionary` result is a sequence of entries in input order. Dictionary enumeration order is not modelled, and no property depends on it.
- The `switch` on `PeerId` in the test becomes a check by position. The entry at position 0 is A, and the others are B, C and C. The case "D" and the `default` case are never reached in the test and are not modelled.
- xUnit's `Assert` calls are ensures clauses and asserts of the test method. A failing assertion has no runtime behaviour in the model.
- The rest of the block puller is not part of this model: the scheduler that calls the assignment, peer quality tracking and the network.
