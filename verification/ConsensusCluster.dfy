/**
  The in-process cluster as coded: every election and every replication visits
  all nodes, in whatever order the hash map yields them.
 */
module ConsensusCluster {
  import opened Common
  import opened Consensus

  type Nodes = map<NodeId, Node>

  datatype ClusterError = NodeNotFound(id: NodeId) | LeaderRequired | QuorumNotReached

  datatype Unit = Unit

  // ----------------------------------------- the two operations, on values

  function Supporters(ns: Nodes, candidate: NodeId, r: VoteRequest): set<NodeId> {
    set id | id in ns && id != candidate && Grants(ns[id], r)
  }

  function Polled(ns: Nodes, candidate: NodeId, r: VoteRequest): Nodes {
    map id | id in ns :: if id == candidate then Campaigning(ns[id]) else Voted(ns[id], r)
  }

  function Elect(ns: Nodes, candidate: NodeId): (Nodes, Result<Unit, ClusterError>) {
    if candidate !in ns then (ns, Err(NodeNotFound(candidate)))
    else
      var r := BallotOf(Campaigning(ns[candidate]));
      var polled := Polled(ns, candidate, r);
      if 1 + |Supporters(ns, candidate, r)| < |ns| / 2 + 1 then (polled, Err(QuorumNotReached))
      else (polled[candidate := polled[candidate].(state := Leader)], Ok(Unit))
  }

  function Acceptors(ns: Nodes, r: AppendRequest): set<NodeId> {
    set id | id in ns && Accepts(ns[id], r)
  }

  function Delivered(ns: Nodes, r: AppendRequest): Nodes {
    map id | id in ns :: Appended(ns[id], r)
  }

  function Replicate(ns: Nodes, leader: NodeId, payload: seq<byte>, timestampNs: nat)
    : (Nodes, Result<LogEntry, ClusterError>)
  {
    if leader !in ns then (ns, Err(NodeNotFound(leader)))
    else if ns[leader].state != Leader then (ns, Err(LeaderRequired))
    else
      var e := NewEntry(ns[leader], payload, timestampNs);
      var r := RequestFor(ns[leader], leader, e);
      (Delivered(ns, r), if |Acceptors(ns, r)| < |ns| / 2 + 1 then Err(QuorumNotReached) else Ok(e))
  }

  // --------------------------------------------------- the cluster object

  /** The map owns its nodes: a handler call takes one out by reference and leaves it changed in place. */
  class Cluster {
    var nodes: Nodes

    constructor ()
      ensures nodes == map[]
    {
      nodes := map[];
    }

    /** Registers a node under its own identifier, replacing an earlier one. */
    method AddNode(node: Node)
      modifies this
      ensures nodes == old(nodes)[node.id := node]
    {
      nodes := nodes[node.id := node];
    }

    /** The poll of an election: one call per node other than the candidate. */
    method CollectVotes(candidate: NodeId, request: VoteRequest) returns (votes: nat)
      requires candidate in nodes
      modifies this
      ensures nodes.Keys == old(nodes).Keys && nodes[candidate] == old(nodes)[candidate]
      ensures forall id :: id in nodes && id != candidate ==> nodes[id] == Voted(old(nodes)[id], request)
      ensures votes == 1 + |Supporters(old(nodes), candidate, request)|
    {
      ghost var supporters: set<NodeId> := {};
      votes := 1;
      var todo := nodes.Keys;
      while todo != {}
        invariant nodes.Keys == old(nodes).Keys && todo <= nodes.Keys
        invariant nodes[candidate] == old(nodes)[candidate]
        invariant forall id :: id in todo ==> nodes[id] == old(nodes)[id]
        invariant forall id :: id in nodes && id !in todo && id != candidate ==>
                    nodes[id] == Voted(old(nodes)[id], request)
        invariant supporters == Supporters(old(nodes), candidate, request) - todo
        invariant votes == 1 + |supporters|
        decreases todo
      {
        var id :| id in todo;
        todo := todo - {id};
        if id != candidate {
          var node := new ConsensusNode.Of(nodes[id]);
          var response := node.HandleRequestVote(request);
          nodes := nodes[id := node.View()];
          if response.granted {
            votes := votes + 1;
            supporters := supporters + {id};
          }
        }
      }
    }

    method ElectLeader(candidate: NodeId) returns (outcome: Result<Unit, ClusterError>)
      modifies this
      ensures (nodes, outcome) == Elect(old(nodes), candidate)
    {
      if candidate !in nodes {
        return Err(NodeNotFound(candidate));
      }
      var node := new ConsensusNode.Of(nodes[candidate]);
      var request := node.BecomeCandidate();
      nodes := nodes[candidate := node.View()];
      ghost var asked := nodes;
      var votes := CollectVotes(candidate, request);
      assert Supporters(asked, candidate, request) == Supporters(old(nodes), candidate, request);
      assert nodes == Polled(old(nodes), candidate, request);
      assert |nodes| == |nodes.Keys| == |old(nodes).Keys| == |old(nodes)|;
      var quorum := |nodes| / 2 + 1;
      if votes < quorum {
        return Err(QuorumNotReached);
      }
      node := new ConsensusNode.Of(nodes[candidate]);
      node.BecomeLeader();
      nodes := nodes[candidate := node.View()];
      return Ok(Unit);
    }

    /** One handler call of the broadcast. */
    method Deliver(id: NodeId, request: AppendRequest) returns (accepted: bool)
      requires id in nodes
      modifies this
      ensures nodes == old(nodes)[id := Appended(old(nodes)[id], request)]
      ensures accepted == Accepts(old(nodes)[id], request)
    {
      var node := new ConsensusNode.Of(nodes[id]);
      var response := node.HandleAppendEntries(request);
      nodes := nodes[id := node.View()];
      accepted := response.success;
    }

    /** The broadcast of a replication: one call per node, the leader included. */
    method Broadcast(request: AppendRequest) returns (successes: nat)
      modifies this
      ensures nodes.Keys == old(nodes).Keys
      ensures forall id :: id in nodes ==> nodes[id] == Appended(old(nodes)[id], request)
      ensures successes == |Acceptors(old(nodes), request)|
    {
      ghost var acceptors: set<NodeId> := {};
      successes := 0;
      var todo := nodes.Keys;
      while todo != {}
        invariant nodes.Keys == old(nodes).Keys && todo <= nodes.Keys
        invariant forall id :: id in todo ==> nodes[id] == old(nodes)[id]
        invariant forall id :: id in nodes && id !in todo ==> nodes[id] == Appended(old(nodes)[id], request)
        invariant acceptors == Acceptors(old(nodes), request) - todo
        invariant successes == |acceptors|
        decreases todo
      {
        var id :| id in todo;
        todo := todo - {id};
        var accepted := Deliver(id, request);
        if accepted {
          successes := successes + 1;
          acceptors := acceptors + {id};
        }
      }
    }

    method ReplicateEntry(leader: NodeId, payload: seq<byte>, timestampNs: nat)
      returns (outcome: Result<LogEntry, ClusterError>)
      modifies this
      ensures (nodes, outcome) == Replicate(old(nodes), leader, payload, timestampNs)
    {
      if leader !in nodes {
        return Err(NodeNotFound(leader));
      }
      if nodes[leader].state != Leader {
        return Err(LeaderRequired);
      }
      var prevIndex, prevTerm := LastIndex(nodes[leader].log), LastTerm(nodes[leader].log);
      var term, index := nodes[leader].term, prevIndex + 1;
      var entry := LogEntry(term, index, payload, timestampNs);
      var request := AppendRequest(term, leader, prevIndex, prevTerm, [entry], index);
      var successes := Broadcast(request);
      assert nodes == Delivered(old(nodes), request);
      assert |nodes| == |nodes.Keys| == |old(nodes).Keys| == |old(nodes)|;
      var quorum := |nodes| / 2 + 1;
      if successes < quorum {
        return Err(QuorumNotReached);
      }
      return Ok(entry);
    }
  }

  // ------------------------------------------------ the one log they share

  /** The simple machine: a term, possibly a leader, and a single log. */
  datatype SharedLog = SharedLog(members: set<NodeId>, term: nat, leader: Option<NodeId>, log: Log)

  datatype Command =
    | ElectLeader(candidate: NodeId)
    | ReplicateEntry(leader: NodeId, payload: seq<byte>, timestampNs: nat)

  datatype Reply = Elected | Stored(entry: LogEntry) | Refused(error: ClusterError)

  function SharedStep(a: SharedLog, c: Command): (SharedLog, Reply) {
    match c
    case ElectLeader(id) =>
      if id !in a.members then (a, Refused(NodeNotFound(id)))
      else (a.(term := a.term + 1, leader := Some(id)), Elected)
    case ReplicateEntry(id, payload, timestampNs) =>
      if id !in a.members then (a, Refused(NodeNotFound(id)))
      else if a.leader != Some(id) then (a, Refused(LeaderRequired))
      else
        var e := LogEntry(a.term, |a.log| + 1, payload, timestampNs);
        (a.(log := a.log + [e], leader := None), Stored(e))
  }

  function SharedRun(a: SharedLog, cs: seq<Command>): (SharedLog, seq<Reply>)
    decreases |cs|
  {
    if cs == [] then (a, [])
    else
      var (a1, reply) := SharedStep(a, cs[0]);
      var (a2, replies) := SharedRun(a1, cs[1..]);
      (a2, [reply] + replies)
  }

  function ClusterStep(ns: Nodes, c: Command): (Nodes, Reply) {
    match c
    case ElectLeader(id) =>
      var (ns', outcome) := Elect(ns, id);
      (ns', if outcome.Ok? then Elected else Refused(outcome.error))
    case ReplicateEntry(id, payload, timestampNs) =>
      var (ns', outcome) := Replicate(ns, id, payload, timestampNs);
      (ns', if outcome.Ok? then Stored(outcome.value) else Refused(outcome.error))
  }

  function ClusterRun(ns: Nodes, cs: seq<Command>): (Nodes, seq<Reply>)
    decreases |cs|
  {
    if cs == [] then (ns, [])
    else
      var (ns1, reply) := ClusterStep(ns, cs[0]);
      var (ns2, replies) := ClusterRun(ns1, cs[1..]);
      (ns2, [reply] + replies)
  }

  /**
    The cluster stands for the shared log: all terms, logs and commit indices
    agree with it, and the leader, if any, is the only node that leads.
   */
  ghost predicate Refines(ns: Nodes, a: SharedLog) {
    && a.members == ns.Keys
    && WellIndexed(a.log)
    && (a.leader.Some? ==> a.leader.value in ns)
    && forall id :: id in ns ==> Copies(ns[id], id, a)
  }

  ghost predicate Copies(n: Node, id: NodeId, a: SharedLog) {
    && n.id == id && n.term == a.term && n.log == a.log && n.commitIndex == |a.log|
    && (n.state == Leader <==> a.leader == Some(id))
  }

  lemma WellIndexedEnd(log: Log)
    requires WellIndexed(log)
    ensures LastIndex(log) == |log|
  {
  }

  /** A node with the shared log grants any candidate that has the same log and a newer term. */
  lemma PeerGrants(n: Node, id: NodeId, a: SharedLog, r: VoteRequest)
    requires Copies(n, id, a) && r.term == a.term + 1 && id != r.candidate
    requires r.lastLogIndex == LastIndex(a.log) && r.lastLogTerm == LastTerm(a.log)
    ensures Grants(n, r)
    ensures Copies(Voted(n, r), id, a.(term := a.term + 1, leader := Some(r.candidate)))
  {
  }

  lemma ElectRefines(ns: Nodes, a: SharedLog, candidate: NodeId)
    requires Refines(ns, a) && candidate in ns
    ensures Elect(ns, candidate).1 == Ok(Unit)
    ensures Refines(Elect(ns, candidate).0, a.(term := a.term + 1, leader := Some(candidate)))
  {
    var r := BallotOf(Campaigning(ns[candidate]));
    forall id | id in ns && id != candidate
      ensures Grants(ns[id], r) && Copies(Voted(ns[id], r), id, a.(term := a.term + 1, leader := Some(candidate)))
    {
      PeerGrants(ns[id], id, a, r);
    }
    assert Supporters(ns, candidate, r) == ns.Keys - {candidate};
    assert |ns| == |ns.Keys|;
  }

  /** A node with the shared log accepts the leader's request and commits it. */
  lemma PeerAccepts(n: Node, id: NodeId, a: SharedLog, e: LogEntry, r: AppendRequest)
    requires Copies(n, id, a) && WellIndexed(a.log)
    requires e.index == |a.log| + 1
    requires r == AppendRequest(a.term, r.leader, LastIndex(a.log), LastTerm(a.log), [e], e.index)
    ensures Accepts(n, r)
    ensures Copies(Appended(n, r), id, a.(log := a.log + [e], leader := None))
  {
    WellIndexedEnd(a.log);
    PlaceAllAtEnd(a.log, [e]);
  }

  lemma ReplicateRefines(ns: Nodes, a: SharedLog, leader: NodeId, payload: seq<byte>, timestampNs: nat)
    requires Refines(ns, a) && leader in ns && a.leader == Some(leader)
    ensures var e := LogEntry(a.term, |a.log| + 1, payload, timestampNs);
            && Replicate(ns, leader, payload, timestampNs).1 == Ok(e)
            && Refines(Replicate(ns, leader, payload, timestampNs).0, a.(log := a.log + [e], leader := None))
  {
    WellIndexedEnd(a.log);
    var e := NewEntry(ns[leader], payload, timestampNs);
    var r := RequestFor(ns[leader], leader, e);
    forall id | id in ns
      ensures Accepts(ns[id], r) && Copies(Appended(ns[id], r), id, a.(log := a.log + [e], leader := None))
    {
      PeerAccepts(ns[id], id, a, e, r);
    }
    assert Acceptors(ns, r) == ns.Keys;
    assert |ns| == |ns.Keys|;
  }

  lemma StepRefines(ns: Nodes, a: SharedLog, c: Command)
    requires Refines(ns, a)
    ensures ClusterStep(ns, c).1 == SharedStep(a, c).1
    ensures Refines(ClusterStep(ns, c).0, SharedStep(a, c).0)
  {
    match c
    case ElectLeader(id) =>
      if id in ns {
        ElectRefines(ns, a, id);
      }
    case ReplicateEntry(id, payload, timestampNs) =>
      if id in ns && a.leader == Some(id) {
        ReplicateRefines(ns, a, id, payload, timestampNs);
      }
  }

  lemma {:induction false} RunRefines(ns: Nodes, a: SharedLog, cs: seq<Command>)
    requires Refines(ns, a)
    ensures ClusterRun(ns, cs).1 == SharedRun(a, cs).1
    ensures Refines(ClusterRun(ns, cs).0, SharedRun(a, cs).0)
    decreases |cs|
  {
    if cs != [] {
      StepRefines(ns, a, cs[0]);
      RunRefines(ClusterStep(ns, cs[0]).0, SharedStep(a, cs[0]).0, cs[1..]);
    }
  }

  function StoredEntries(replies: seq<Reply>): Log
    decreases |replies|
  {
    if replies == [] then []
    else (if replies[0].Stored? then [replies[0].entry] else []) + StoredEntries(replies[1..])
  }

  lemma {:induction false} SharedRunStores(a: SharedLog, cs: seq<Command>)
    ensures SharedRun(a, cs).0.log == a.log + StoredEntries(SharedRun(a, cs).1)
    ensures SharedRun(a, cs).0.members == a.members
    decreases |cs|
  {
    if cs != [] {
      var (a1, reply) := SharedStep(a, cs[0]);
      SharedRunStores(a1, cs[1..]);
      var replies := SharedRun(a1, cs[1..]).1;
      assert ([reply] + replies)[1..] == replies;
    }
  }

  /**
    Started on fresh nodes, any sequence of elections and replications answers
    exactly as the single shared log does, never for lack of a quorum, and leaves
    every node with the same term, with a log made of the returned entries in
    order, and with all of it committed; at most one node leads.
   */
  lemma ClusterIsSharedLog(ids: set<NodeId>, cs: seq<Command>)
    ensures var ns := map id | id in ids :: Fresh(id);
            var (ns', replies) := ClusterRun(ns, cs);
            var (a', replies') := SharedRun(SharedLog(ids, 0, None, []), cs);
            && replies == replies'
            && a'.log == StoredEntries(replies)
            && ns'.Keys == ids
            && (forall id :: id in ids ==>
                  && ns'[id].term == a'.term
                  && ns'[id].log == StoredEntries(replies)
                  && ns'[id].commitIndex == |StoredEntries(replies)|
                  && (ns'[id].state == Leader <==> a'.leader == Some(id)))
  {
    var ns: Nodes := map id | id in ids :: Fresh(id);
    var a := SharedLog(ids, 0, None, []);
    RunRefines(ns, a, cs);
    SharedRunStores(a, cs);
  }
}
