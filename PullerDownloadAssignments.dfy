/** The block puller's download-assignment rule: given the block heights the
    node still needs and a snapshot of its peers, decide which peer is asked
    for which height. The rule is a pure function of its two inputs.

    Peers are identified by their POSITION in the input, never by `peerId`:
    two records with the same id are two peers and get two entries. */
module PullerDownloadAssignments {
  import opened HeightOrder

  datatype Option<T> = None | Some(value: T)

  /** Assignment-relevant snapshot of one connected peer. */
  datatype PeerInformation = PeerInformation(peerId: string, qualityScore: nat, chainHeight: int)

  /** One entry of the assignment: a peer record and the heights it is to fetch. */
  datatype PeerTasks = PeerTasks(peer: PeerInformation, heights: seq<int>)

  /** The peer claims to have block `h`. */
  predicate HasBlock(peer: PeerInformation, h: int) {
    h <= peer.chainHeight
  }

  /** Some peer has block `h`. */
  predicate SomePeerHas(peers: seq<PeerInformation>, h: int) {
    exists j :: 0 <= j < |peers| && HasBlock(peers[j], h)
  }

  /** Every required height is within the chain of at least one peer. */
  predicate Servable(heights: seq<int>, peers: seq<PeerInformation>) {
    forall k :: 0 <= k < |heights| ==> SomePeerHas(peers, heights[k])
  }

  /** A peer with `ca` heights already assigned and score `sa` carries a
      strictly lighter load than one with `cb` heights and score `sb`, where
      the load of a peer is (assigned + 1) / score (infinite for score 0). */
  predicate Lighter(ca: nat, sa: nat, cb: nat, sb: nat) {
    (ca + 1) * sb < (cb + 1) * sa
  }

  /** Peer `a` is preferred to peer `b` for the next height, given the
      heights assigned so far. */
  predicate Preferred(peers: seq<PeerInformation>, lists: seq<seq<int>>, a: nat, b: nat)
    requires |lists| == |peers| && a < |peers| && b < |peers|
  {
    Lighter(|lists[a]|, peers[a].qualityScore, |lists[b]|, peers[b].qualityScore)
  }

  /** Of two loads, an irreflexive and asymmetric comparison. */
  lemma LighterAsymmetric(ca: nat, sa: nat, cb: nat, sb: nat)
    ensures !Lighter(ca, sa, ca, sa)
    ensures Lighter(ca, sa, cb, sb) ==> !Lighter(cb, sb, ca, sa)
  {
  }

  /** A load lighter than `b`'s is lighter than every load that is not
      lighter than `b`'s. */
  lemma LighterThrough(ca: nat, sa: nat, cb: nat, sb: nat, cc: nat, sc: nat)
    requires Lighter(ca, sa, cb, sb) && !Lighter(cc, sc, cb, sb)
    ensures Lighter(ca, sa, cc, sc)
  {
  }

  /** The switch to a newly preferred candidate `c` keeps the choice optimal
      and first among equals. */
  lemma NewCandidate(peers: seq<PeerInformation>, lists: seq<seq<int>>, h: int, c: nat, b: nat)
    requires |lists| == |peers| && b < c < |peers|
    requires Preferred(peers, lists, c, b)
    requires forall j :: 0 <= j < c && HasBlock(peers[j], h) ==> !Preferred(peers, lists, j, b)
    ensures forall j :: 0 <= j < c && HasBlock(peers[j], h) ==>
      !Preferred(peers, lists, j, c) && Preferred(peers, lists, c, j)
  {
    forall j | 0 <= j < c && HasBlock(peers[j], h)
      ensures !Preferred(peers, lists, j, c) && Preferred(peers, lists, c, j)
    {
      var cj, sj := |lists[j]|, peers[j].qualityScore;
      var cb, sb := |lists[b]|, peers[b].qualityScore;
      var cc, sc := |lists[c]|, peers[c].qualityScore;
      LighterThrough(cc, sc, cb, sb, cj, sj);
      LighterAsymmetric(cc, sc, cj, sj);
    }
  }

  /** Among the first `k` peers, the one to receive height `h`: a peer that
      has the block, whose load no other such peer undercuts, and the first
      of its equals. None when none of the first `k` peers has the block. */
  function BestBelow(peers: seq<PeerInformation>, lists: seq<seq<int>>, h: int, k: nat): (r: Option<nat>)
    requires |lists| == |peers| && k <= |peers|
    ensures r.None? ==> forall j :: 0 <= j < k ==> !HasBlock(peers[j], h)
    ensures r.Some? ==> r.value < k && HasBlock(peers[r.value], h)
    ensures r.Some? ==> forall j :: 0 <= j < k && HasBlock(peers[j], h) ==>
      !Preferred(peers, lists, j, r.value)
    ensures r.Some? ==> forall j :: 0 <= j < r.value && HasBlock(peers[j], h) ==>
      Preferred(peers, lists, r.value, j)
  {
    if k == 0 then None
    else
      var best := BestBelow(peers, lists, h, k - 1);
      var c := k - 1;
      if !HasBlock(peers[c], h) then best
      else if best.None? then
        LighterAsymmetric(|lists[c]|, peers[c].qualityScore, 0, 0);
        Some(c)
      else if Preferred(peers, lists, c, best.value) then
        NewCandidate(peers, lists, h, c, best.value);
        LighterAsymmetric(|lists[c]|, peers[c].qualityScore, 0, 0);
        Some(c)
      else
        best
  }

  /** Peer `i` is the right one to receive height `h`: no peer that has the
      block carries a strictly lighter load, and every earlier peer that has
      the block carries a strictly heavier one. */
  predicate BestChoice(peers: seq<PeerInformation>, lists: seq<seq<int>>, h: int, i: nat)
    requires |lists| == |peers| && i < |peers|
  {
    && (forall j :: 0 <= j < |peers| && HasBlock(peers[j], h) ==> !Preferred(peers, lists, j, i))
    && (forall j :: 0 <= j < i && HasBlock(peers[j], h) ==> Preferred(peers, lists, i, j))
  }

  /** The peer that receives height `h` next: it has the block and is the
      best choice. */
  function Pick(peers: seq<PeerInformation>, lists: seq<seq<int>>, h: int): (i: nat)
    requires |lists| == |peers|
    requires SomePeerHas(peers, h)
    ensures i < |peers| && HasBlock(peers[i], h)
    ensures BestChoice(peers, lists, h, i)
  {
    BestBelow(peers, lists, h, |peers|).value
  }

  /** Hands out `hs` one height at a time, in the order given, appending each
      to the list of the peer `Pick` chooses. `lists[i]` holds what peer `i`
      has been given so far. */
  function Distribute(hs: seq<int>, peers: seq<PeerInformation>, lists: seq<seq<int>>): (r: seq<seq<int>>)
    requires |lists| == |peers| && Servable(hs, peers)
    ensures |r| == |peers|
    decreases |hs|
  {
    if hs == [] then lists
    else
      var i := Pick(peers, lists, hs[0]);
      Distribute(hs[1..], peers, lists[i := lists[i] + [hs[0]]])
  }

  /** The download assignment: one entry per peer record, in input order,
      holding the heights that peer is to fetch. */
  function AssignBlocksToPeers(requiredBlockHeights: seq<int>, peers: seq<PeerInformation>): (r: seq<PeerTasks>)
    requires Servable(requiredBlockHeights, peers)
    ensures |r| == |peers|
    ensures forall i :: 0 <= i < |peers| ==> r[i].peer == peers[i]
  {
    var lists := AssignedLists(requiredBlockHeights, peers);
    seq(|peers|, i requires 0 <= i < |peers| => PeerTasks(peers[i], lists[i]))
  }

  /** No heights for any of `n` peers. */
  function NoTasks(n: nat): (lists: seq<seq<int>>)
    ensures |lists| == n && forall i :: 0 <= i < n ==> lists[i] == []
  {
    seq(n, _ => [])
  }

  /** The height lists of the assignment: the required heights, sorted,
      handed out from an empty start. */
  function AssignedLists(requiredBlockHeights: seq<int>, peers: seq<PeerInformation>): (lists: seq<seq<int>>)
    requires Servable(requiredBlockHeights, peers)
    ensures |lists| == |peers|
  {
    ServableSorted(requiredBlockHeights, peers);
    Distribute(Sort(requiredBlockHeights), peers, NoTasks(|peers|))
  }

  lemma AssignmentLists(requiredBlockHeights: seq<int>, peers: seq<PeerInformation>)
    requires Servable(requiredBlockHeights, peers)
    ensures HeightLists(AssignBlocksToPeers(requiredBlockHeights, peers)) == AssignedLists(requiredBlockHeights, peers)
  {
  }

  /** The height lists of an assignment, entry by entry. */
  function HeightLists(r: seq<PeerTasks>): (lists: seq<seq<int>>)
    ensures |lists| == |r|
    ensures forall i :: 0 <= i < |r| ==> lists[i] == r[i].heights
  {
    seq(|r|, i requires 0 <= i < |r| => r[i].heights)
  }

  /** All heights of all lists, list after list. */
  function Flatten(lists: seq<seq<int>>): (r: seq<int>) {
    if lists == [] then [] else Flatten(lists[..|lists| - 1]) + lists[|lists| - 1]
  }

  /** Sum of the quality scores of every peer except the one at position `i`. */
  function OtherScores(peers: seq<PeerInformation>, i: nat): (s: nat) {
    if peers == [] then 0
    else OtherScores(peers[..|peers| - 1], i) + (if |peers| - 1 == i then 0 else peers[|peers| - 1].qualityScore)
  }

  /** Every height in list `i` is within peer `i`'s chain. */
  predicate WithinChains(peers: seq<PeerInformation>, lists: seq<seq<int>>)
    requires |lists| == |peers|
  {
    forall i, x :: 0 <= i < |lists| && x in lists[i] ==> HasBlock(peers[i], x)
  }

  // ---------------------------------------------------------------------
  // Facts about the step-by-step distribution
  // ---------------------------------------------------------------------

  /** Servability depends only on which heights are required. */
  lemma ServablePermuted(hs: seq<int>, hs': seq<int>, peers: seq<PeerInformation>)
    requires Servable(hs, peers) && multiset(hs') <= multiset(hs)
    ensures Servable(hs', peers)
  {
    forall k | 0 <= k < |hs'|
      ensures SomePeerHas(peers, hs'[k])
    {
      assert hs'[k] in multiset(hs');
      assert hs'[k] in multiset(hs);
      var l :| 0 <= l < |hs| && hs[l] == hs'[k];
    }
  }

  lemma ServableTail(hs: seq<int>, peers: seq<PeerInformation>)
    requires Servable(hs, peers) && hs != []
    ensures Servable(hs[1..], peers)
  {
    assert forall k :: 0 <= k < |hs| - 1 ==> hs[1..][k] == hs[k + 1];
  }

  lemma ServableSorted(hs: seq<int>, peers: seq<PeerInformation>)
    requires Servable(hs, peers)
    ensures Servable(Sort(hs), peers)
  {
    ServablePermuted(hs, Sort(hs), peers);
  }

  /** Appending `h` to one list adds exactly `h` to the pooled heights. */
  lemma {:induction false} FlattenAppend(lists: seq<seq<int>>, i: nat, h: int)
    requires i < |lists|
    ensures multiset(Flatten(lists[i := lists[i] + [h]])) == multiset(Flatten(lists)) + multiset{h}
  {
    var n := |lists|;
    var next := lists[i := lists[i] + [h]];
    var front, last := lists[..n - 1], lists[n - 1];
    assert Flatten(lists) == Flatten(front) + last;
    if i == n - 1 {
      assert next[..n - 1] == front;
      assert Flatten(next) == Flatten(front) + (last + [h]);
    } else {
      assert next[..n - 1] == front[i := front[i] + [h]];
      assert Flatten(next) == Flatten(front[i := front[i] + [h]]) + last;
      FlattenAppend(front, i, h);
    }
  }

  /** Lists that are all empty pool nothing. */
  lemma {:induction false} FlattenAllEmpty(lists: seq<seq<int>>)
    requires forall i :: 0 <= i < |lists| ==> lists[i] == []
    ensures Flatten(lists) == []
  {
    if lists != [] {
      FlattenAllEmpty(lists[..|lists| - 1]);
    }
  }

  /** Distribution hands out exactly the heights of `hs`: nothing is lost
      and nothing is duplicated. */
  lemma {:induction false} DistributeCoverage(hs: seq<int>, peers: seq<PeerInformation>, lists: seq<seq<int>>)
    requires |lists| == |peers| && Servable(hs, peers)
    ensures multiset(Flatten(Distribute(hs, peers, lists))) == multiset(Flatten(lists)) + multiset(hs)
  {
    if hs != [] {
      var i := Pick(peers, lists, hs[0]);
      FlattenAppend(lists, i, hs[0]);
      ServableTail(hs, peers);
      DistributeCoverage(hs[1..], peers, lists[i := lists[i] + [hs[0]]]);
      assert hs == [hs[0]] + hs[1..];
      assert multiset(hs) == multiset{hs[0]} + multiset(hs[1..]);
    }
  }

  /** Distribution never gives a peer a height above its chain height. */
  lemma {:induction false} DistributeWithinChains(hs: seq<int>, peers: seq<PeerInformation>, lists: seq<seq<int>>)
    requires |lists| == |peers| && Servable(hs, peers)
    requires WithinChains(peers, lists)
    ensures WithinChains(peers, Distribute(hs, peers, lists))
  {
    if hs != [] {
      var i := Pick(peers, lists, hs[0]);
      var next := lists[i := lists[i] + [hs[0]]];
      assert WithinChains(peers, next);
      ServableTail(hs, peers);
      DistributeWithinChains(hs[1..], peers, next);
    }
  }

  /** Distribution only appends: what a peer had, it keeps, as a prefix. */
  lemma {:induction false} DistributeExtends(hs: seq<int>, peers: seq<PeerInformation>, lists: seq<seq<int>>)
    requires |lists| == |peers| && Servable(hs, peers)
    ensures forall i :: 0 <= i < |lists| ==> lists[i] <= Distribute(hs, peers, lists)[i]
  {
    if hs != [] {
      var i := Pick(peers, lists, hs[0]);
      var next := lists[i := lists[i] + [hs[0]]];
      ServableTail(hs, peers);
      DistributeExtends(hs[1..], peers, next);
      forall j | 0 <= j < |lists|
        ensures lists[j] <= Distribute(hs, peers, lists)[j]
      {
        assert lists[j] <= next[j];
      }
    }
  }

  /** Handing out `a` and then `b` is handing out `a + b`. */
  lemma {:induction false} DistributeSplit(a: seq<int>, b: seq<int>, peers: seq<PeerInformation>, lists: seq<seq<int>>)
    requires |lists| == |peers| && Servable(a + b, peers)
    ensures Servable(a, peers) && Servable(b, peers)
    ensures Distribute(a + b, peers, lists) == Distribute(b, peers, Distribute(a, peers, lists))
  {
    assert forall k :: 0 <= k < |a| ==> a[k] == (a + b)[k];
    assert forall k :: 0 <= k < |b| ==> b[k] == (a + b)[|a| + k];
    if a != [] {
      var i := Pick(peers, lists, a[0]);
      assert (a + b)[0] == a[0];
      assert (a + b)[1..] == a[1..] + b;
      DistributeSplit(a[1..], b, peers, lists[i := lists[i] + [a[0]]]);
    } else {
      assert a + b == b;
    }
  }

  /** Heights handed out in ascending order land in ascending lists. */
  lemma {:induction false} DistributeAscending(hs: seq<int>, peers: seq<PeerInformation>, lists: seq<seq<int>>)
    requires |lists| == |peers| && Servable(hs, peers)
    requires Ascending(hs)
    requires forall i :: 0 <= i < |lists| ==> Ascending(lists[i])
    requires forall i, a, k :: 0 <= i < |lists| && 0 <= a < |lists[i]| && 0 <= k < |hs| ==> lists[i][a] <= hs[k]
    ensures forall i :: 0 <= i < |peers| ==> Ascending(Distribute(hs, peers, lists)[i])
  {
    if hs != [] {
      var i := Pick(peers, lists, hs[0]);
      var next := lists[i := lists[i] + [hs[0]]];
      assert Ascending(next[i]) by {
        assert forall a :: 0 <= a < |lists[i]| ==> lists[i][a] <= hs[0];
      }
      forall j, a, k | 0 <= j < |next| && 0 <= a < |next[j]| && 0 <= k < |hs[1..]|
        ensures next[j][a] <= hs[1..][k]
      {
        assert hs[1..][k] == hs[k + 1];
        if j == i && a == |lists[i]| {
          assert next[j][a] == hs[0];
        } else {
          assert next[j][a] == lists[j][a];
        }
      }
      ServableTail(hs, peers);
      DistributeAscending(hs[1..], peers, next);
    }
  }

  /** While peer `i` has nothing, each other peer `j` holds at most
      score(j) / score(i) heights, so all of them together hold at most
      OtherScores / score(i). */
  lemma {:induction false} LoadBound(peers: seq<PeerInformation>, lists: seq<seq<int>>, i: nat, s: nat)
    requires |lists| == |peers|
    requires forall j :: 0 <= j < |peers| && j == i ==> lists[j] == []
    requires forall j :: 0 <= j < |peers| && j != i ==> |lists[j]| * s <= peers[j].qualityScore
    ensures |Flatten(lists)| * s <= OtherScores(peers, i)
  {
    if lists != [] {
      var n := |lists|;
      var front, last := lists[..n - 1], lists[n - 1];
      assert forall j :: 0 <= j < n - 1 ==> front[j] == lists[j] && peers[..n - 1][j] == peers[j];
      LoadBound(peers[..n - 1], front, i, s);
      assert Flatten(lists) == Flatten(front) + last;
      MulAddRight(|Flatten(front)|, |last|, s);
      if n - 1 == i {
        assert |last| == 0;
      } else {
        assert |last| * s <= peers[n - 1].qualityScore;
      }
    }
  }

  lemma MulAddRight(a: int, b: int, s: int)
    ensures (a + b) * s == a * s + b * s
  {
  }

  /** Peer `i` has nothing yet, and every other peer `j` holds at most
      score(j) / score(i) heights. */
  predicate PassedOver(peers: seq<PeerInformation>, lists: seq<seq<int>>, i: nat)
    requires |lists| == |peers| && i < |peers|
  {
    && lists[i] == []
    && forall j :: 0 <= j < |peers| && j != i ==> |lists[j]| * peers[i].qualityScore <= peers[j].qualityScore
  }

  /** Giving a height to a peer `j` that `Pick` preferred to the empty-handed
      peer `i` keeps `i` passed over. */
  lemma PassedOverStep(peers: seq<PeerInformation>, lists: seq<seq<int>>, i: nat, j: nat, h: int)
    requires |lists| == |peers| && i < |peers| && j < |peers| && i != j
    requires PassedOver(peers, lists, i)
    requires !Preferred(peers, lists, i, j)
    ensures PassedOver(peers, lists[j := lists[j] + [h]], i)
  {
    var s := peers[i].qualityScore;
    var next := lists[j := lists[j] + [h]];
    assert !Lighter(0, s, |lists[j]|, peers[j].qualityScore);
    assert |next[j]| * s <= peers[j].qualityScore;
    forall j' | 0 <= j' < |peers| && j' != i && j' != j
      ensures |next[j']| * s <= peers[j'].qualityScore
    {
      assert next[j'] == lists[j'];
    }
  }

  /** Starvation freedom: a peer with a positive score that has every block
      of `hs` cannot be passed over for all of them once `total`, the heights
      already handed out plus |hs|, weighted by its score, exceeds the other
      peers' scores. */
  lemma {:induction false} DistributeFeedsPeer(hs: seq<int>, peers: seq<PeerInformation>, lists: seq<seq<int>>, i: nat, total: nat)
    requires |lists| == |peers| && Servable(hs, peers) && i < |peers|
    requires forall k :: 0 <= k < |hs| ==> HasBlock(peers[i], hs[k])
    requires PassedOver(peers, lists, i)
    requires total == |Flatten(lists)| + |hs|
    requires total * peers[i].qualityScore > OtherScores(peers, i)
    ensures Distribute(hs, peers, lists)[i] != []
  {
    if hs == [] {
      LoadBound(peers, lists, i, peers[i].qualityScore);
      assert false;
    } else {
      var j := Pick(peers, lists, hs[0]);
      var next := lists[j := lists[j] + [hs[0]]];
      assert Distribute(hs, peers, lists) == Distribute(hs[1..], peers, next);
      ServableTail(hs, peers);
      if j != i {
        PassedOverStep(peers, lists, i, j, hs[0]);
        FlattenAppendLength(lists, j, hs[0]);
        assert forall k :: 0 <= k < |hs[1..]| ==> hs[1..][k] == hs[k + 1];
        DistributeFeedsPeer(hs[1..], peers, next, i, total);
      } else {
        DistributeExtends(hs[1..], peers, next);
        assert next[i] == [hs[0]];
      }
    }
  }

  /** Appending one height to one list adds one to the pooled count. */
  lemma FlattenAppendLength(lists: seq<seq<int>>, i: nat, h: int)
    requires i < |lists|
    ensures |Flatten(lists[i := lists[i] + [h]])| == |Flatten(lists)| + 1
  {
    FlattenAppend(lists, i, h);
    var next := lists[i := lists[i] + [h]];
    assert |Flatten(next)| == |multiset(Flatten(next))|;
    assert |Flatten(lists)| == |multiset(Flatten(lists))|;
  }

  /** A peer that has the first `m` heights of `hs`, where `m` times its
      positive score exceeds the other peers' scores, receives work when the
      distribution starts from empty lists. */
  lemma DistributeFeedsPeerFromStart(hs: seq<int>, peers: seq<PeerInformation>, i: nat, m: nat)
    requires Servable(hs, peers) && i < |peers| && m <= |hs|
    requires forall k :: 0 <= k < m ==> HasBlock(peers[i], hs[k])
    requires m * peers[i].qualityScore > OtherScores(peers, i)
    ensures Distribute(hs, peers, NoTasks(|peers|))[i] != []
  {
    var init := NoTasks(|peers|);
    var a, b := hs[..m], hs[m..];
    assert hs == a + b;
    DistributeSplit(a, b, peers, init);
    FlattenAllEmpty(init);
    assert forall k :: 0 <= k < m ==> a[k] == hs[k];
    assert PassedOver(peers, init, i);
    DistributeFeedsPeer(a, peers, init, i, m);
    DistributeExtends(b, peers, Distribute(a, peers, init));
  }

  // ---------------------------------------------------------------------
  // Guarantees of AssignBlocksToPeers
  // ---------------------------------------------------------------------

  /** The heights of the assignment are exactly the required heights: every
      one is assigned to exactly one peer, so the total count is preserved. */
  lemma AssignmentCoverage(requiredBlockHeights: seq<int>, peers: seq<PeerInformation>)
    requires Servable(requiredBlockHeights, peers)
    ensures multiset(Flatten(HeightLists(AssignBlocksToPeers(requiredBlockHeights, peers)))) == multiset(requiredBlockHeights)
    ensures |Flatten(HeightLists(AssignBlocksToPeers(requiredBlockHeights, peers)))| == |requiredBlockHeights|
  {
    AssignmentLists(requiredBlockHeights, peers);
    var lists := AssignedLists(requiredBlockHeights, peers);
    ServableSorted(requiredBlockHeights, peers);
    FlattenAllEmpty(NoTasks(|peers|));
    DistributeCoverage(Sort(requiredBlockHeights), peers, NoTasks(|peers|));
    assert |Flatten(lists)| == |multiset(Flatten(lists))|;
  }

  /** No peer is asked for a block above its chain height. */
  lemma AssignmentWithinChainHeight(requiredBlockHeights: seq<int>, peers: seq<PeerInformation>)
    requires Servable(requiredBlockHeights, peers)
    ensures forall i, x :: 0 <= i < |peers| && x in AssignBlocksToPeers(requiredBlockHeights, peers)[i].heights ==>
      x <= peers[i].chainHeight
  {
    AssignmentLists(requiredBlockHeights, peers);
    ServableSorted(requiredBlockHeights, peers);
    DistributeWithinChains(Sort(requiredBlockHeights), peers, NoTasks(|peers|));
  }

  /** Every height in any peer's list is one of the required heights. */
  lemma AssignedHeightIsRequired(requiredBlockHeights: seq<int>, peers: seq<PeerInformation>, i: nat, x: int)
    requires Servable(requiredBlockHeights, peers) && i < |peers|
    requires x in AssignBlocksToPeers(requiredBlockHeights, peers)[i].heights
    ensures x in requiredBlockHeights
  {
    var r := AssignBlocksToPeers(requiredBlockHeights, peers);
    AssignmentCoverage(requiredBlockHeights, peers);
    assert HeightLists(r)[i] == r[i].heights;
    FlattenContains(HeightLists(r), i, x);
    assert x in multiset(Flatten(HeightLists(r)));
  }

  /** A peer whose chain ends below every required height gets an empty
      list; in particular, with no required heights every peer gets an empty
      list. */
  lemma ShortPeerGetsNothing(requiredBlockHeights: seq<int>, peers: seq<PeerInformation>, i: nat)
    requires Servable(requiredBlockHeights, peers) && i < |peers|
    requires forall h :: h in requiredBlockHeights ==> h > peers[i].chainHeight
    ensures AssignBlocksToPeers(requiredBlockHeights, peers)[i].heights == []
  {
    var r := AssignBlocksToPeers(requiredBlockHeights, peers);
    if r[i].heights != [] {
      var x := r[i].heights[0];
      AssignmentWithinChainHeight(requiredBlockHeights, peers);
      AssignedHeightIsRequired(requiredBlockHeights, peers, i, x);
      assert false;
    }
  }

  /** Every element of any one list occurs in the pooled heights. */
  lemma {:induction false} FlattenContains(lists: seq<seq<int>>, i: nat, x: int)
    requires i < |lists| && x in lists[i]
    ensures x in Flatten(lists)
  {
    if i < |lists| - 1 {
      FlattenContains(lists[..|lists| - 1], i, x);
    }
  }

  /** The order in which the required heights are supplied does not matter:
      any permutation of them yields the same assignment. */
  lemma AssignmentOrderIndependent(hs1: seq<int>, hs2: seq<int>, peers: seq<PeerInformation>)
    requires Servable(hs1, peers) && multiset(hs1) == multiset(hs2)
    ensures Servable(hs2, peers)
    ensures AssignBlocksToPeers(hs1, peers) == AssignBlocksToPeers(hs2, peers)
  {
    ServablePermuted(hs1, hs2, peers);
    SortOrderIndependent(hs1, hs2);
  }

  /** Each peer's list is in ascending height order. */
  lemma AssignmentAscending(requiredBlockHeights: seq<int>, peers: seq<PeerInformation>)
    requires Servable(requiredBlockHeights, peers)
    ensures forall i :: 0 <= i < |peers| ==> Ascending(AssignBlocksToPeers(requiredBlockHeights, peers)[i].heights)
  {
    AssignmentLists(requiredBlockHeights, peers);
    ServableSorted(requiredBlockHeights, peers);
    DistributeAscending(Sort(requiredBlockHeights), peers, NoTasks(|peers|));
  }

  /** A peer with a positive score that has the `m` lowest required blocks,
      where `m` times its score exceeds the sum of the other peers' scores,
      receives work. */
  lemma WellScoredPeerGetsWork(requiredBlockHeights: seq<int>, peers: seq<PeerInformation>, i: nat, m: nat)
    requires Servable(requiredBlockHeights, peers) && i < |peers| && m <= |requiredBlockHeights|
    requires forall k :: 0 <= k < m ==> HasBlock(peers[i], Sort(requiredBlockHeights)[k])
    requires m * peers[i].qualityScore > OtherScores(peers, i)
    ensures AssignBlocksToPeers(requiredBlockHeights, peers)[i].heights != []
  {
    AssignmentLists(requiredBlockHeights, peers);
    ServableSorted(requiredBlockHeights, peers);
    DistributeFeedsPeerFromStart(Sort(requiredBlockHeights), peers, i, m);
  }
}
