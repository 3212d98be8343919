/** The test of the download-assignment rule: a node at height 5 needs blocks
    6 to 40 and is connected to four peers whose chains end at 4, 20, 30 and
    40. No peer may be asked for a block above its chain height, the peer at
    height 4 gets nothing, and every required block is handed out. */
module PullerDownloadAssignmentsTest {
  import opened HeightOrder
  import opened PullerDownloadAssignments

  /** The largest element of a non-empty list (LINQ's `Max`, which throws on
      an empty list). */
  function MaxOf(s: seq<int>): (m: int)
    requires s != []
    ensures m in s
    ensures forall x :: x in s ==> x <= m
  {
    if |s| == 1 then s[0]
    else
      var rest := MaxOf(s[1..]);
      assert forall x :: x in s ==> x == s[0] || x in s[1..];
      if s[0] >= rest then s[0] else rest
  }

  /** The four peers of the test, in the order given: A, B, and two records
      that both carry the id "C". */
  function TestPeers(): (peers: seq<PeerInformation>)
    ensures |peers| == 4
  {
    [ PeerInformation("A", 100, 4),
      PeerInformation("B", 100, 20),
      PeerInformation("C", 50, 30),
      PeerInformation("C", 150, 40) ]
  }

  /** The heights 6..40 in ascending order. */
  function TestHeights(): (hs: seq<int>)
    ensures |hs| == 35 && Ascending(hs)
    ensures forall k :: 0 <= k < 35 ==> hs[k] == k + 6
  {
    seq(35, k => k + 6)
  }

  /** Every order of the heights 6..40 can be served by the test's peers,
      and sorts back to 6..40. */
  lemma TestHeightsPermuted(requiredBlockHeights: seq<int>)
    requires multiset(requiredBlockHeights) == multiset(TestHeights())
    ensures |requiredBlockHeights| == 35
    ensures forall h :: h in requiredBlockHeights ==> 6 <= h <= 40
    ensures Servable(requiredBlockHeights, TestPeers())
    ensures Sort(requiredBlockHeights) == TestHeights()
  {
    var peers := TestPeers();
    assert |multiset(requiredBlockHeights)| == |multiset(TestHeights())|;
    forall h | h in requiredBlockHeights
      ensures 6 <= h <= 40
    {
      assert h in multiset(TestHeights());
    }
    forall k | 0 <= k < |requiredBlockHeights|
      ensures SomePeerHas(peers, requiredBlockHeights[k])
    {
      assert requiredBlockHeights[k] in requiredBlockHeights;
      assert HasBlock(peers[3], requiredBlockHeights[k]);
    }
    TestHeightsSorted(requiredBlockHeights);
  }

  /** Any shuffle of 6..40 sorts to what the sort makes of 6..40 itself,
      which is 6..40 again. */
  lemma TestHeightsSorted(requiredBlockHeights: seq<int>)
    requires multiset(requiredBlockHeights) == multiset(TestHeights())
    ensures Sort(requiredBlockHeights) == TestHeights()
  {
    SortOrderIndependent(requiredBlockHeights, TestHeights());
    SortAscending(TestHeights());
  }

  /** What the assignment rule guarantees for the test's peers and any
      order of the heights 6..40. */
  lemma TestScenario(requiredBlockHeights: seq<int>)
    requires multiset(requiredBlockHeights) == multiset(TestHeights())
    ensures Servable(requiredBlockHeights, TestPeers())
    ensures var r := AssignBlocksToPeers(requiredBlockHeights, TestPeers());
      && |r| == 4
      && r[0].heights == []
      && (forall i :: 1 <= i < 4 ==> r[i].heights != [])
      && (forall i, x :: 0 <= i < 4 && x in r[i].heights ==> x <= r[i].peer.chainHeight)
      && |Flatten(HeightLists(r))| == 35
  {
    var peers := TestPeers();
    TestHeightsPermuted(requiredBlockHeights);
    AssignmentCoverage(requiredBlockHeights, peers);
    AssignmentWithinChainHeight(requiredBlockHeights, peers);
    ShortPeerGetsNothing(requiredBlockHeights, peers, 0);
    forall i | 1 <= i < 4
      ensures AssignBlocksToPeers(requiredBlockHeights, peers)[i].heights != []
    {
      TestPeerGetsWork(requiredBlockHeights, i);
    }
  }

  /** Peer B and both peers with id "C" receive work: each has the lowest
      `chainHeight - 5` heights, and that many times its score exceeds the
      other peers' scores. */
  lemma TestPeerGetsWork(requiredBlockHeights: seq<int>, i: nat)
    requires multiset(requiredBlockHeights) == multiset(TestHeights())
    requires 1 <= i < 4
    ensures Servable(requiredBlockHeights, TestPeers())
    ensures AssignBlocksToPeers(requiredBlockHeights, TestPeers())[i].heights != []
  {
    var peers := TestPeers();
    var m: nat := peers[i].chainHeight - 5;
    TestPeerQualifies(i, m);
    TestHeightsPermuted(requiredBlockHeights);
    var sorted := Sort(requiredBlockHeights);
    assert forall k :: 0 <= k < m ==> HasBlock(peers[i], sorted[k]) by {
      assert forall k :: 0 <= k < m ==> sorted[k] == k + 6;
    }
    WellScoredPeerGetsWork(requiredBlockHeights, peers, i, m);
  }

  /** Peers B, C and C each have the lowest `m = chainHeight - 5` of the
      heights 6..40, and `m` times their score exceeds the others' scores. */
  lemma TestPeerQualifies(i: nat, m: int)
    requires 1 <= i < 4 && m == TestPeers()[i].chainHeight - 5
    ensures 0 <= m <= 35
    ensures forall h :: 6 <= h < m + 6 ==> HasBlock(TestPeers()[i], h)
    ensures m * TestPeers()[i].qualityScore > OtherScores(TestPeers(), i)
  {
    TestPeerScores();
  }

  /** The scores that decide who gets work in the test. */
  lemma TestPeerScores()
    ensures OtherScores(TestPeers(), 1) == 300
    ensures OtherScores(TestPeers(), 2) == 350
    ensures OtherScores(TestPeers(), 3) == 250
  {
    var p := TestPeers();
    var a, b, c, d := p[0], p[1], p[2], p[3];
    assert [a][..0] == [];
    assert [a, b][..1] == [a];
    assert [a, b, c][..2] == [a, b];
    assert p[..3] == [a, b, c];
    assert OtherScores([a], 1) == 100 && OtherScores([a], 2) == 100 && OtherScores([a], 3) == 100;
    assert OtherScores([a, b], 1) == 100 && OtherScores([a, b], 2) == 200 && OtherScores([a, b], 3) == 200;
    assert OtherScores([a, b, c], 1) == 150 && OtherScores([a, b, c], 2) == 200 && OtherScores([a, b, c], 3) == 250;
  }

  /** Replays the test. `shuffled` is the order the random shuffle put the
      heights 6..40 in; any order is allowed. */
  method AssignBlocksToPeersWithNodesWithDifferentChainsCorrectlyDistributesDownloadTasks(shuffled: seq<int>)
    returns (assignments: seq<PeerTasks>, tasksAssigned: int)
    requires multiset(shuffled) == multiset(TestHeights())
    ensures |assignments| == 4
    ensures forall i :: 0 <= i < 4 ==> assignments[i].peer == TestPeers()[i]
    ensures assignments[0].heights == []
    ensures forall i :: 1 <= i < 4 ==> assignments[i].heights != []
    ensures forall i :: 1 <= i < 4 ==> MaxOf(assignments[i].heights) <= assignments[i].peer.chainHeight
    ensures tasksAssigned == |shuffled| == 35
  {
    // Create the list of heights 6 to 40, then take it in shuffled order.
    var requiredBlockHeights: seq<int> := [];
    for i := 6 to 41
      invariant |requiredBlockHeights| == i - 6
      invariant forall k :: 0 <= k < i - 6 ==> requiredBlockHeights[k] == k + 6
    {
      requiredBlockHeights := requiredBlockHeights + [i];
    }
    assert requiredBlockHeights == TestHeights();
    requiredBlockHeights := shuffled;

    var peers := TestPeers();
    TestScenario(requiredBlockHeights);
    assignments := AssignBlocksToPeers(requiredBlockHeights, peers);

    // Check the assignment entry by entry, counting the assigned heights.
    tasksAssigned := 0;
    var lists := HeightLists(assignments);
    var n := 0;
    while n < |assignments|
      invariant 0 <= n <= |assignments|
      invariant tasksAssigned == |Flatten(lists[..n])|
    {
      var peer := assignments[n].peer;
      var assignedBlockHeights := assignments[n].heights;
      assert lists[..n + 1][..n] == lists[..n];
      tasksAssigned := tasksAssigned + |assignedBlockHeights|;
      if n == 0 {
        // The peer at height 4 gets no work.
        assert |assignedBlockHeights| == 0;
      } else {
        // The others only get blocks up to their chain heights.
        assert MaxOf(assignedBlockHeights) <= peer.chainHeight;
      }
      n := n + 1;
    }
    assert lists[..n] == lists;
    assert |shuffled| == 35 by {
      assert |multiset(shuffled)| == |multiset(TestHeights())|;
    }
  }
}
