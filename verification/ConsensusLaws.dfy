/**
  What a node does with a request, told by the history of the run alone: when it
  grants a vote, when it accepts an append, and how far it then commits.
 */
module ConsensusLaws {
  import opened Common
  import opened Consensus
  import opened ConsensusProtocol
  import C = ConsensusCluster

  // ----------------------------------------------------------------- votes

  /** No vote of the node in the ballot's term is on record for anyone else. */
  ghost predicate Unpledged(s: State, id: NodeId, ballot: VoteRequest) {
    forall g :: g in s.grants && g.voter == id && g.term == ballot.term ==> g.candidate == ballot.candidate
  }

  /**
    In every run, forged requests included: a node grants a ballot exactly when it is
    not past the ballot's term, has not voted for another in that term, and its log is
    not ahead.  In particular an append of a newer term takes no vote of that term.
   */
  lemma GrantsIffUnpledged(ids: set<NodeId>, steps: seq<Step>, id: NodeId, ballot: VoteRequest)
    requires IsRun(Start(ids), steps) && id in Final(Start(ids), steps).nodes
    ensures var s := Final(Start(ids), steps);
            Grants(s.nodes[id], ballot) <==>
            s.nodes[id].term <= ballot.term && Unpledged(s, id, ballot) && UpToDate(s.nodes[id].log, ballot)
  {
    RunKeepsElection(Start(ids), steps);
    var s := Final(Start(ids), steps);
    if s.nodes[id].votedFor.Some? {
      assert Grant(id, s.nodes[id].votedFor.value, s.nodes[id].term) in s.grants;
    }
  }

  /** A granted ballot is on record and pledges the node for the rest of the term. */
  lemma GrantPledges(ids: set<NodeId>, steps: seq<Step>, id: NodeId, ballot: VoteRequest)
    requires IsRun(Start(ids), steps) && id in Final(Start(ids), steps).nodes
    requires Grants(Final(Start(ids), steps).nodes[id], ballot)
    ensures var s := AfterBallot(Final(Start(ids), steps), id, ballot);
            && Grant(id, ballot.candidate, ballot.term) in s.grants
            && s.nodes[id].term == ballot.term
            && forall other :: other != ballot.candidate ==>
                 !Grants(s.nodes[id], ballot.(candidate := other))
  {
  }

  /** A log as voters compare it with another. */
  ghost predicate AtLeast(a: Log, b: Log) {
    NotBehind(LastTerm(a), LastIndex(a), b)
  }

  /** Voters can compare any two logs, and only logs alike at their end are level with each other. */
  lemma LogsCompare(a: Log, b: Log, c: Log)
    ensures AtLeast(a, b) || AtLeast(b, a)
    ensures AtLeast(a, b) && AtLeast(b, a) <==> LastTerm(a) == LastTerm(b) && LastIndex(a) == LastIndex(b)
    ensures AtLeast(a, b) && AtLeast(b, c) ==> AtLeast(a, c)
  {
  }

  /** Traced logs: a log is at least every log it begins with, and level ends mean equal logs. */
  lemma TracedCompare(la: Log, lb: Log, written: map<nat, Log>)
    requires WrittenSound(written) && Traced(la, written) && Traced(lb, written)
    ensures lb <= la ==> AtLeast(la, lb)
    ensures lb < la ==> !AtLeast(lb, la)
    ensures AtLeast(la, lb) && AtLeast(lb, la) ==> la == lb
  {
    TracedIsSorted(la, written);
    TracedIsSorted(lb, written);
    if la != [] && lb != [] {
      assert la[..|la|] == la && lb[..|lb|] == lb;
      if lb <= la {
        assert la[|lb| - 1] == lb[|lb| - 1];
      }
    }
  }

  lemma LongerLogsWin(ids: set<NodeId>, steps: seq<Step>, a: NodeId, b: NodeId)
    requires IsRun(Start(ids), steps) && Built(steps)
    requires a in Final(Start(ids), steps).nodes && b in Final(Start(ids), steps).nodes
    ensures var s := Final(Start(ids), steps); var la, lb := s.nodes[a].log, s.nodes[b].log;
            && (lb <= la ==> AtLeast(la, lb))
            && (lb < la ==> !AtLeast(lb, la))
            && (AtLeast(la, lb) && AtLeast(lb, la) ==> la == lb)
  {
    RunKeepsInv(Start(ids), steps);
    var s := Final(Start(ids), steps);
    TracedCompare(s.nodes[a].log, s.nodes[b].log, s.written);
  }

  // --------------------------------------------------------------- appends

  /** The leader's log before the entry it sends. */
  function Earlier(full: Log): Log {
    if full == [] then [] else full[..|full| - 1]
  }

  lemma PrevMatchesIffPrefix(log: Log, r: AppendRequest, written: map<nat, Log>)
    requires WrittenSound(written) && Traced(log, written) && Offers(r, written)
    ensures PrevMatches(log, r) <==> Earlier(written[r.term]) <= log
  {
    var full := written[r.term];
    var before := Earlier(full);
    if before != [] {
      var i := |before| - 1;
      assert full[i] == before[i] && full[..i + 1] == before;
      if PrevMatches(log, r) {
        assert written[log[i].term] == log[..i + 1];
      }
    }
  }

  /**
    In every run of genuine append requests: a node accepts one exactly when it is not
    past its term and its log begins with what the leader had before the new entry.
   */
  lemma AcceptsIffPrefix(ids: set<NodeId>, steps: seq<Step>, id: NodeId, r: AppendRequest)
    requires IsRun(Start(ids), steps) && Built(steps)
    requires id in Final(Start(ids), steps).nodes && r in Final(Start(ids), steps).appends
    ensures var s := Final(Start(ids), steps);
            && r.term in s.written
            && (Accepts(s.nodes[id], r) <==>
                s.nodes[id].term <= r.term && Earlier(s.written[r.term]) <= s.nodes[id].log)
  {
    RunKeepsInv(Start(ids), steps);
    var s := Final(Start(ids), steps);
    PrevMatchesIffPrefix(s.nodes[id].log, r, s.written);
  }

  lemma AcceptedStands(n: Node, r: AppendRequest, written: map<nat, Log>)
    requires WrittenSound(written) && NodeTraced(n, written) && Offers(r, written) && Accepts(n, r)
    ensures var n', full := Appended(n, r), written[r.term];
            && full <= n'.log && n'.term == r.term && n'.state == Follower
            && LastIndex(n'.log) >= |full| && n'.commitIndex == Max(n.commitIndex, |full|)
  {
    OfferedAppend(n.log, r, written);
    AppendedTraced(n, r, written);
    TracedIsSorted(Appended(n, r).log, written);
  }

  /** Then its log begins with all the leader wrote, and it has committed just that far, or further before. */
  lemma AcceptedEntriesStand(ids: set<NodeId>, steps: seq<Step>, id: NodeId, r: AppendRequest)
    requires IsRun(Start(ids), steps) && Built(steps)
    requires id in Final(Start(ids), steps).nodes && r in Final(Start(ids), steps).appends
    requires Accepts(Final(Start(ids), steps).nodes[id], r)
    ensures var s := Final(Start(ids), steps); var n, n' := s.nodes[id], Appended(s.nodes[id], r);
            && r.term in s.written && s.written[r.term] <= n'.log
            && n'.term == r.term && n'.state == Follower
            && LastIndex(n'.log) >= |s.written[r.term]|
            && n'.commitIndex == Max(n.commitIndex, |s.written[r.term]|)
  {
    RunKeepsInv(Start(ids), steps);
    var s := Final(Start(ids), steps);
    AcceptedStands(s.nodes[id], r, s.written);
  }

  /** A refused request changes no log and no commit index, whatever is sent. */
  lemma RefusedChangesNothing(n: Node, r: AppendRequest)
    requires !Accepts(n, r)
    ensures Appended(n, r).log == n.log && Appended(n, r).commitIndex == n.commitIndex
    ensures r.term < n.term ==> Appended(n, r) == n
  {
  }

  /**
    For any node and any accepted request, however forged: the commit index rises only
    as far as the leader confirms and the log reaches, rises as far as both allow, and
    falls exactly when the request confirms more than it and the log ends before it.
   */
  lemma CommitFollowsLeader(n: Node, r: AppendRequest)
    requires Accepts(n, r)
    ensures var n' := Appended(n, r);
            && (n'.commitIndex > n.commitIndex ==>
                  n'.commitIndex <= r.leaderCommit && n'.commitIndex <= LastIndex(n'.log))
            && (r.leaderCommit > n.commitIndex ==>
                  n'.commitIndex == r.leaderCommit || n'.commitIndex == LastIndex(n'.log))
            && (n'.commitIndex < n.commitIndex <==>
                  LastIndex(n'.log) < n.commitIndex < r.leaderCommit)
  {
  }

  // -------------------------------------------------------------- majorities

  /** An election succeeds exactly with the votes of more than half of the nodes, the candidate's own included. */
  lemma ElectedByMajority(ns: C.Nodes, candidate: NodeId)
    requires candidate in ns
    ensures var r := BallotOf(Campaigning(ns[candidate]));
            C.Elect(ns, candidate).1.Ok? <==> 2 * (1 + |C.Supporters(ns, candidate, r)|) > |ns|
    ensures C.Elect(ns, candidate).1.Err? ==> C.Elect(ns, candidate).1.error == C.QuorumNotReached
    ensures C.Elect(ns, candidate).1.Ok? <==> C.Elect(ns, candidate).0[candidate].state == Leader
  {
  }

  /** A replication is confirmed exactly when more than half of the nodes accept, and delivered to all either way. */
  lemma ReplicatedByMajority(ns: C.Nodes, leader: NodeId, payload: seq<byte>, timestampNs: nat)
    requires leader in ns && ns[leader].state == Leader
    ensures var e := LogEntry(ns[leader].term, LastIndex(ns[leader].log) + 1, payload, timestampNs);
            var r := RequestFor(ns[leader], leader, e);
            var (ns', outcome) := C.Replicate(ns, leader, payload, timestampNs);
            && ns'.Keys == ns.Keys && (forall id :: id in ns ==> ns'[id] == Appended(ns[id], r))
            && (outcome == Ok(e) <==> 2 * |C.Acceptors(ns, r)| > |ns|)
            && (outcome.Err? ==> outcome.error == C.QuorumNotReached)
  {
  }

  /** Unknown ids and nodes that do not lead are refused with their own errors, and nothing changes. */
  lemma RefusedCommands(ns: C.Nodes, id: NodeId, payload: seq<byte>, timestampNs: nat)
    ensures id !in ns ==>
              && C.Elect(ns, id) == (ns, Err(C.NodeNotFound(id)))
              && C.Replicate(ns, id, payload, timestampNs) == (ns, Err(C.NodeNotFound(id)))
    ensures id in ns && ns[id].state != Leader ==>
              C.Replicate(ns, id, payload, timestampNs) == (ns, Err(C.LeaderRequired))
  {
  }
}
