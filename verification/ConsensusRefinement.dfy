/** The coded cluster only ever does what the message-level protocol allows. */
module ConsensusRefinement {
  import opened Common
  import opened Consensus
  import LogChecker
  import P = ConsensusProtocol
  import C = ConsensusCluster

  lemma {:induction false} RunsCompose(s: P.State, xs: seq<P.Step>, ys: seq<P.Step>)
    requires P.IsRun(s, xs) && P.IsRun(P.Final(s, xs), ys)
    ensures P.IsRun(s, xs + ys) && P.Final(s, xs + ys) == P.Final(P.Final(s, xs), ys)
    decreases |xs|
  {
    if xs == [] {
      assert xs + ys == ys;
    } else {
      RunsCompose(P.Apply(s, xs[0]), xs[1..], ys);
      assert (xs + ys)[1..] == xs[1..] + ys;
    }
  }

  lemma SingleStep(s: P.State, step: P.Step)
    requires P.Enabled(s, step)
    ensures P.IsRun(s, [step]) && P.Final(s, [step]) == P.Apply(s, step)
  {
  }

  /** Delivering one ballot to every node of a set, in some order. */
  lemma {:induction false} PollRun(s: P.State, ids: set<NodeId>, r: VoteRequest) returns (steps: seq<P.Step>)
    requires ids <= s.nodes.Keys && r in s.ballots
    ensures P.IsRun(s, steps) && P.Honest(steps)
    ensures var s' := P.Final(s, steps);
            && s'.nodes == (map id | id in s.nodes :: if id in ids then Voted(s.nodes[id], r) else s.nodes[id])
            && s.grants <= s'.grants
            && (forall id :: id in ids && Grants(s.nodes[id], r) ==> P.Grant(id, r.candidate, r.term) in s'.grants)
    decreases ids
  {
    if ids == {} {
      steps := [];
    } else {
      var id :| id in ids;
      var step := P.DeliverBallot(id, r);
      var s1 := P.Apply(s, step);
      var rest := PollRun(s1, ids - {id}, r);
      SingleStep(s, step);
      RunsCompose(s, [step], rest);
      steps := [step] + rest;
    }
  }

  /** Delivering one append request to every node of a set, in some order. */
  lemma {:induction false} BroadcastRun(s: P.State, ids: set<NodeId>, r: AppendRequest) returns (steps: seq<P.Step>)
    requires ids <= s.nodes.Keys && r in s.appends
    ensures P.IsRun(s, steps) && P.Honest(steps)
    ensures P.Final(s, steps).nodes ==
            (map id | id in s.nodes :: if id in ids then Appended(s.nodes[id], r) else s.nodes[id])
    decreases ids
  {
    if ids == {} {
      steps := [];
    } else {
      var id :| id in ids;
      var step := P.DeliverAppend(id, r);
      var s1 := P.Apply(s, step);
      var rest := BroadcastRun(s1, ids - {id}, r);
      SingleStep(s, step);
      RunsCompose(s, [step], rest);
      steps := [step] + rest;
    }
  }

  /** Everyone the cluster counts, the candidate included, has granted in the protocol too. */
  lemma EnoughVoters(s: P.State, supporters: set<NodeId>, candidate: NodeId, term: nat)
    requires candidate !in supporters
    requires forall id :: id in supporters + {candidate} ==> P.Grant(id, candidate, term) in s.grants
    ensures |P.Voters(s, candidate, term)| >= 1 + |supporters|
  {
    forall id | id in supporters + {candidate} ensures id in P.Voters(s, candidate, term) {
      assert P.Grant(id, candidate, term).voter == id;
    }
    SubsetSize(supporters + {candidate}, P.Voters(s, candidate, term));
  }

  /** Campaign and poll: everyone who supports the candidate is on record afterwards. */
  lemma CampaignRun(s: P.State, candidate: NodeId) returns (steps: seq<P.Step>)
    requires P.Identified(s) && candidate in s.nodes
    ensures P.IsRun(s, steps) && P.Honest(steps)
    ensures var r := BallotOf(Campaigning(s.nodes[candidate])); var s' := P.Final(s, steps);
            && s'.nodes == C.Polled(s.nodes, candidate, r)
            && (forall id :: id in C.Supporters(s.nodes, candidate, r) + {candidate} ==>
                               P.Grant(id, candidate, r.term) in s'.grants)
  {
    var r := BallotOf(Campaigning(s.nodes[candidate]));
    var s1 := P.Apply(s, P.Campaign(candidate));
    SingleStep(s, P.Campaign(candidate));
    var poll := PollRun(s1, s.nodes.Keys - {candidate}, r);
    RunsCompose(s, [P.Campaign(candidate)], poll);
    steps := [P.Campaign(candidate)] + poll;
  }

  lemma ElectionRun(s: P.State, candidate: NodeId) returns (steps: seq<P.Step>)
    requires P.Identified(s) && candidate in s.nodes
    ensures P.IsRun(s, steps) && P.Honest(steps)
    ensures P.Final(s, steps).nodes == C.Elect(s.nodes, candidate).0
  {
    var r := BallotOf(Campaigning(s.nodes[candidate]));
    steps := CampaignRun(s, candidate);
    if C.Elect(s.nodes, candidate).1.Ok? {
      var polled := P.Final(s, steps);
      EnoughVoters(polled, C.Supporters(s.nodes, candidate, r), candidate, r.term);
      assert polled.nodes.Keys == s.nodes.Keys;
      assert |polled.nodes| == |polled.nodes.Keys| && |s.nodes.Keys| == |s.nodes|;
      SingleStep(polled, P.Lead(candidate));
      RunsCompose(s, steps, [P.Lead(candidate)]);
      steps := steps + [P.Lead(candidate)];
    }
  }

  lemma ReplicationRun(s: P.State, leader: NodeId, payload: seq<byte>, timestampNs: nat) returns (steps: seq<P.Step>)
    requires P.Identified(s) && leader in s.nodes && s.nodes[leader].state == Leader
    ensures P.IsRun(s, steps) && P.Honest(steps)
    ensures P.Final(s, steps).nodes == C.Replicate(s.nodes, leader, payload, timestampNs).0
  {
    var n := s.nodes[leader];
    var r := RequestFor(n, leader, NewEntry(n, payload, timestampNs));
    var step := P.Replicate(leader, payload, timestampNs);
    var s1 := P.Apply(s, step);
    SingleStep(s, step);
    var rest := BroadcastRun(s1, s.nodes.Keys - {leader}, r);
    RunsCompose(s, [step], rest);
    steps := [step] + rest;
    assert P.Final(s, steps).nodes == C.Delivered(s.nodes, r);
  }

  /**
    Every run of the coded cluster on fresh nodes ends in the nodes of some run
    of the message-level protocol, so everything proved of the protocol holds of
    the code.
   */
  lemma {:induction false} ClusterFollowsProtocol(s: P.State, cs: seq<C.Command>) returns (steps: seq<P.Step>)
    requires P.ElectionInv(s)
    ensures P.IsRun(s, steps) && P.Honest(steps)
    ensures P.Final(s, steps).nodes == C.ClusterRun(s.nodes, cs).0
    decreases |cs|
  {
    steps := [];
    if cs != [] {
      match cs[0] {
        case ElectLeader(id) =>
          if id in s.nodes {
            steps := ElectionRun(s, id);
          }
        case ReplicateEntry(id, payload, timestampNs) =>
          if id in s.nodes && s.nodes[id].state == Leader {
            steps := ReplicationRun(s, id, payload, timestampNs);
          }
      }
      P.RunKeepsElection(s, steps);
      var rest := ClusterFollowsProtocol(P.Final(s, steps), cs[1..]);
      RunsCompose(s, steps, rest);
      steps := steps + rest;
    }
  }

  /** Whatever the coded cluster does, no log of it fails the log checker. */
  lemma ClusterLogsPass(ids: set<NodeId>, cs: seq<C.Command>, id: NodeId)
    requires id in ids
    ensures var ns := C.ClusterRun(map x | x in ids :: Fresh(x), cs).0;
            id in ns && LogChecker.Monotonic(ns[id].log)
  {
    var steps := ClusterFollowsProtocol(P.Start(ids), cs);
    P.RunKeepsNodes(P.Start(ids), steps);
    P.ReachableLogsPass(ids, steps, id);
  }
}
