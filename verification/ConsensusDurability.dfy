/**
  Leader completeness: an entry that a quorum of nodes has accepted is held by
  every leader of a later term, in every run of the message-level protocol.
 */
module ConsensusDurability {
  import opened Common
  import opened Consensus
  import opened ConsensusProtocol

  type Written = map<nat, Log>

  function Ackers(s: State, t: nat): set<NodeId> {
    set a <- s.acks | a.term == t :: a.node
  }

  /** The entry of term `t` was accepted by as many nodes as a successful replication counts. */
  predicate Acknowledged(s: State, t: nat) {
    t in s.written && |Ackers(s, t)| >= Quorum(s)
  }

  // --------------------------------------------------------- what is at stake

  /** Some term after `t` and up to `hi` wrote a log that does not begin with what term `t` wrote. */
  ghost predicate Overwritten(written: Written, t: nat, hi: nat)
    requires t in written
  {
    exists u :: t < u <= hi && u in written && !(written[t] <= written[u])
  }

  /** The log begins with what term `t` wrote, unless some term up to `hi` abandoned that. */
  ghost predicate Safe(written: Written, t: nat, log: Log, hi: nat) {
    t in written && (written[t] <= log || Overwritten(written, t, hi))
  }

  // -------------------------------------------------------------- invariants

  /** Every acceptance is of a written term, not newer than the node, and still shows in its log unless abandoned. */
  ghost predicate AcksSound(s: State) {
    forall a :: a in s.acks ==>
      && a.node in s.nodes && a.term <= s.nodes[a.node].term
      && Safe(s.written, a.term, s.nodes[a.node].log, s.nodes[a.node].term)
  }

  /** What a voter had accepted before voting shows in the log it voted with, unless abandoned by then. */
  ghost predicate VotesSound(s: State) {
    forall g, a :: g in s.grants && a in s.acks && a.node == g.voter && a.term < g.term ==>
      g in s.votes && Safe(s.written, a.term, s.votes[g], g.term)
  }

  ghost predicate HasBallot(ballots: set<VoteRequest>, g: Grant, log: Log) {
    exists b :: b in ballots && b.candidate == g.candidate && b.term == g.term && UpToDate(log, b)
  }

  /** Every vote was given with a traced log to a ballot that log was not ahead of. */
  ghost predicate VotesCast(s: State) {
    && s.votes.Keys == s.grants
    && forall g :: g in s.grants ==> Traced(s.votes[g], s.written) && HasBallot(s.ballots, g, s.votes[g])
  }

  /** A ballot is not newer than its candidate and, while the candidacy lasts, describes the candidate's log. */
  ghost predicate BallotsSound(s: State) {
    forall b :: b in s.ballots ==>
      && b.candidate in s.nodes && b.term <= s.nodes[b.candidate].term
      && (s.nodes[b.candidate].state == Candidate && s.nodes[b.candidate].term == b.term ==>
            b == BallotOf(s.nodes[b.candidate]))
  }

  /** One voter of an election won in term `u`. */
  ghost predicate VoterSound(s: State, u: nat, v: Victory, n: NodeId) {
    var g := Grant(n, v.leader, u);
    && n in s.nodes && g in s.grants && g in s.votes
    && NotBehind(LastTerm(v.log), LastIndex(v.log), s.votes[g])
    && forall a :: a in s.acks && a.node == n && a.term < u ==> Safe(s.written, a.term, s.votes[g], u - 1)
  }

  ghost predicate VictorySound(s: State, u: nat, v: Victory) {
    && Traced(v.log, s.written)
    && (forall i :: 0 <= i < |v.log| ==> v.log[i].term < u)
    && |v.voters| >= Quorum(s)
    && forall n :: n in v.voters ==> VoterSound(s, u, v, n)
  }

  ghost predicate VictoriesSound(s: State) {
    forall u :: u in s.victories ==> VictorySound(s, u, s.victories[u])
  }

  /** A written log is the winner's log and one entry more; a sitting leader still has the log it won with. */
  ghost predicate WrittenFollows(s: State) {
    && (forall t :: t in s.written ==>
          t in s.victories && |s.written[t]| > 0 && s.victories[t].log == s.written[t][..|s.written[t]| - 1])
    && (forall id :: id in s.nodes && s.nodes[id].state == Leader ==>
          s.nodes[id].term in s.victories && s.victories[s.nodes[id].term].log == s.nodes[id].log)
  }

  ghost predicate DurabilityInv(s: State) {
    && AcksSound(s) && VotesSound(s) && VotesCast(s) && BallotsSound(s) && VictoriesSound(s) && WrittenFollows(s)
  }

  // ------------------------------------------------- leader completeness itself

  /** The shared voter of an acceptance quorum and an election quorum. */
  lemma SharedVoter(s: State, t: nat, u: nat) returns (n: NodeId)
    requires AcksSound(s) && Acknowledged(s, t) && u in s.victories && VictorySound(s, u, s.victories[u])
    ensures n in s.victories[u].voters && Ack(n, t) in s.acks
  {
    var ackers, voters := Ackers(s, t), s.victories[u].voters;
    assert |s.nodes.Keys| == |s.nodes|;
    assert ackers <= s.nodes.Keys;
    assert voters <= s.nodes.Keys by {
      assert forall x :: x in voters ==> VoterSound(s, u, s.victories[u], x);
    }
    n := QuorumsMeet(s.nodes.Keys, ackers, voters);
    var a :| a in s.acks && a.term == t && a.node == n;
    assert a == Ack(n, t);
  }

  /**
    A log that is not behind one beginning with term `t`'s entry either is that
    term's log or ends in a later term.
   */
  lemma AheadOfHolder(s: State, t: nat, held: Log, log: Log)
    requires WrittenSound(s.written) && Traced(held, s.written) && Traced(log, s.written)
    requires t in s.written && s.written[t] <= held && NotBehind(LastTerm(log), LastIndex(log), held)
    ensures log != [] && LastTerm(log) in s.written && s.written[LastTerm(log)] == log
    ensures LastTerm(log) > t || log == s.written[t]
  {
  }

  /**
    Leader completeness: what a quorum accepted in term `t` begins the log of the
    winner of every later term.
   */
  lemma {:induction false} LeaderCompleteness(s: State, t: nat, u: nat)
    requires WrittenSound(s.written) && AcksSound(s) && VotesCast(s) && VictoriesSound(s) && WrittenFollows(s)
    requires Acknowledged(s, t) && u in s.victories && t < u
    ensures s.written[t] <= s.victories[u].log
    decreases u
  {
    var v := s.victories[u];
    assert VictorySound(s, u, v);
    var n := SharedVoter(s, t, u);
    assert VoterSound(s, u, v, n);
    var held := s.votes[Grant(n, v.leader, u)];
    forall w | t < w <= u - 1 && w in s.written ensures s.written[t] <= s.written[w] {
      LeaderCompleteness(s, t, w);
    }
    assert !Overwritten(s.written, t, u - 1);
    AheadOfHolder(s, t, held, v.log);
    if LastTerm(v.log) > t {
      LeaderCompleteness(s, t, LastTerm(v.log));
    }
  }

  /** What a quorum accepted begins everything later terms write. */
  lemma LaterWritesHold(s: State, t: nat, u: nat)
    requires WrittenSound(s.written) && AcksSound(s) && VotesCast(s) && VictoriesSound(s) && WrittenFollows(s)
    requires Acknowledged(s, t) && u in s.written && t < u
    ensures s.written[t] <= s.written[u]
  {
    LeaderCompleteness(s, t, u);
  }

  // ------------------------------------------------- campaigning and voting

  /** A step in which one node votes, its log staying as it is. */
  ghost predicate VotingStep(s: State, s': State, id: NodeId) {
    && id in s.nodes && id in s'.nodes
    && s'.nodes == s.nodes[id := s'.nodes[id]]
    && s'.nodes[id].log == s.nodes[id].log && s'.nodes[id].id == s.nodes[id].id
    && s.nodes[id].term <= s'.nodes[id].term
    && (s'.nodes[id].term == s.nodes[id].term ==> s'.nodes[id].state == s.nodes[id].state)
    && (s'.nodes[id].term > s.nodes[id].term ==> s'.nodes[id].state != Leader)
    && s.ballots <= s'.ballots
    && s'.victories == s.victories && s'.written == s.written && s'.acks == s.acks
  }

  /** At most one vote of that node is new, given in its new term with its own log. */
  ghost predicate VoteAdded(s: State, s': State, id: NodeId, g: Grant) {
    && g.voter == id && id in s.nodes && s.nodes[id].term <= g.term
    && s'.grants == s.grants + {g}
    && s'.votes == Noted(s.votes, g, s.nodes[id].log)
  }

  lemma VotingKeepsAcks(s: State, s': State, id: NodeId)
    requires VotingStep(s, s', id) && AcksSound(s)
    ensures AcksSound(s')
  {
  }

  lemma VoteKeepsVotes(s: State, s': State, id: NodeId, g: Grant)
    requires VotingStep(s, s', id) && VoteAdded(s, s', id, g)
    requires AcksSound(s) && VotesSound(s) && VotesCast(s)
    ensures VotesSound(s')
  {
  }

  lemma VoteKeepsCast(s: State, s': State, id: NodeId, g: Grant)
    requires VotingStep(s, s', id) && VoteAdded(s, s', id, g) && LogsTraced(s) && VotesCast(s)
    requires HasBallot(s'.ballots, g, s.nodes[id].log)
    ensures VotesCast(s')
  {
  }

  lemma VoteKeepsVictories(s: State, s': State, id: NodeId)
    requires VotingStep(s, s', id) && VictoriesSound(s)
    requires s.grants <= s'.grants && (forall g :: g in s.votes ==> g in s'.votes && s'.votes[g] == s.votes[g])
    ensures VictoriesSound(s')
  {
  }

  lemma VotingKeepsWritten(s: State, s': State, id: NodeId)
    requires VotingStep(s, s', id) && WrittenFollows(s)
    ensures WrittenFollows(s')
  {
  }

  lemma CampaignKeepsBallots(s: State, id: NodeId)
    requires BallotsSound(s) && Identified(s) && id in s.nodes
    ensures BallotsSound(AfterCampaign(s, id))
  {
  }

  lemma CampaignIsVote(s: State, id: NodeId)
    requires id in s.nodes && s.nodes[id].id == id
    ensures var s' := AfterCampaign(s, id); var g := Grant(id, id, s'.nodes[id].term);
            VotingStep(s, s', id) && VoteAdded(s, s', id, g) && HasBallot(s'.ballots, g, s.nodes[id].log)
  {
  }

  lemma CampaignKeepsDurability(s: State, id: NodeId)
    requires Inv(s) && DurabilityInv(s) && id in s.nodes
    ensures DurabilityInv(AfterCampaign(s, id))
  {
    var s' := AfterCampaign(s, id);
    var g := Grant(id, id, s'.nodes[id].term);
    CampaignIsVote(s, id);
    VotingKeepsAcks(s, s', id);
    VoteKeepsVotes(s, s', id, g);
    VoteKeepsCast(s, s', id, g);
    VoteKeepsVictories(s, s', id);
    VotingKeepsWritten(s, s', id);
    CampaignKeepsBallots(s, id);
  }

  lemma BallotKeepsBallots(s: State, id: NodeId, ballot: VoteRequest)
    requires BallotsSound(s) && id in s.nodes
    ensures BallotsSound(AfterBallot(s, id, ballot))
  {
  }

  lemma BallotKeepsDurability(s: State, id: NodeId, ballot: VoteRequest)
    requires Inv(s) && DurabilityInv(s) && id in s.nodes && ballot in s.ballots
    ensures DurabilityInv(AfterBallot(s, id, ballot))
  {
    var s' := AfterBallot(s, id, ballot);
    VotingKeepsAcks(s, s', id);
    if Grants(s.nodes[id], ballot) {
      var g := Grant(id, ballot.candidate, ballot.term);
      assert HasBallot(s'.ballots, g, s.nodes[id].log);
      VoteKeepsVotes(s, s', id, g);
      VoteKeepsCast(s, s', id, g);
    }
    VoteKeepsVictories(s, s', id);
    VotingKeepsWritten(s, s', id);
    BallotKeepsBallots(s, id, ballot);
  }

  // ----------------------------------------------------------------- winning

  lemma LeadAddsVictory(s: State, id: NodeId)
    requires GrantsStand(s) && VotesSound(s) && VotesCast(s) && BallotsSound(s) && LogsTraced(s)
    requires Enabled(s, Lead(id)) && s.nodes[id].term !in s.written
    ensures var u := s.nodes[id].term;
            VictorySound(s, u, Victory(id, s.nodes[id].log, Voters(s, id, u)))
  {
  }

  /** What a victory says does not depend on who leads or on the later record of elections. */
  lemma VictoryStands(s: State, s': State, u: nat, v: Victory)
    requires VictorySound(s, u, v)
    requires s'.nodes.Keys == s.nodes.Keys && s'.grants == s.grants && s'.votes == s.votes
    requires s'.acks == s.acks && s'.written == s.written
    ensures VictorySound(s', u, v)
  {
  }

  lemma LeadKeepsVictories(s: State, id: NodeId)
    requires Inv(s) && DurabilityInv(s) && Enabled(s, Lead(id)) && OneLeaderPerTerm(AfterLead(s, id))
    ensures VictoriesSound(AfterLead(s, id))
  {
    var s' := AfterLead(s, id);
    CandidateHasNotWritten(s, id);
    LeadAddsVictory(s, id);
    forall u | u in s'.victories ensures VictorySound(s', u, s'.victories[u]) {
      VictoryStands(s, s', u, s'.victories[u]);
    }
  }

  lemma LeadKeepsWritten(s: State, id: NodeId)
    requires WinnersSound(s) && WrittenFollows(s) && Enabled(s, Lead(id)) && OneLeaderPerTerm(AfterLead(s, id))
    ensures WrittenFollows(AfterLead(s, id))
  {
  }

  lemma LeadKeepsDurability(s: State, id: NodeId)
    requires Inv(s) && DurabilityInv(s) && Enabled(s, Lead(id)) && OneLeaderPerTerm(AfterLead(s, id))
    ensures DurabilityInv(AfterLead(s, id))
  {
    LeadKeepsVictories(s, id);
    LeadKeepsWritten(s, id);
    LeadKeepsVotes(s, id);
  }

  lemma LeadKeepsVotes(s: State, id: NodeId)
    requires AcksSound(s) && VotesSound(s) && VotesCast(s) && BallotsSound(s) && id in s.nodes
    ensures var s' := AfterLead(s, id); AcksSound(s') && VotesSound(s') && VotesCast(s') && BallotsSound(s')
  {
  }

  // --------------------------------------------------------------- accepting

  /** A step in which one node may accept an entry of a term it then is in. */
  ghost predicate AcceptingStep(s: State, s': State, id: NodeId, t: nat) {
    && id in s.nodes && id in s'.nodes && s'.nodes == s.nodes[id := s'.nodes[id]]
    && s.nodes[id].term <= s'.nodes[id].term
    && s'.grants == s.grants && s'.votes == s.votes && s'.ballots == s.ballots && s'.victories == s.victories
    && (s'.acks == s.acks || (s'.acks == s.acks + {Ack(id, t)} && s'.nodes[id].term == t))
    && (forall x :: x in s.written ==> x in s'.written && s'.written[x] == s.written[x])
  }

  lemma AcceptKeepsVotes(s: State, s': State, id: NodeId, t: nat)
    requires AcceptingStep(s, s', id, t) && GrantsStand(s) && VotesSound(s) && VotesCast(s)
    ensures VotesSound(s') && VotesCast(s')
  {
  }

  lemma AcceptKeepsVictories(s: State, s': State, id: NodeId, t: nat)
    requires AcceptingStep(s, s', id, t) && GrantsStand(s) && VictoriesSound(s)
    ensures VictoriesSound(s')
  {
  }

  /** The node's new log keeps everything it ever accepted, unless it takes over a log that does not. */
  lemma AcceptKeepsAcks(s: State, s': State, id: NodeId, t: nat)
    requires AcceptingStep(s, s', id, t) && AcksSound(s)
    requires s'.acks != s.acks ==> t in s'.written && s'.written[t] <= s'.nodes[id].log
    requires s.nodes[id].log <= s'.nodes[id].log
             || (t in s'.written && s'.nodes[id].term == t && s'.nodes[id].log == s'.written[t])
    ensures AcksSound(s')
  {
  }

  lemma ReplicateIsAccepting(s: State, id: NodeId, payload: seq<byte>, timestampNs: nat)
    requires LogInv(s) && WrittenFollows(s) && Enabled(s, Replicate(id, payload, timestampNs))
    ensures var s', n := AfterReplicate(s, id, payload, timestampNs), s.nodes[id];
            var full := n.log + [NewEntry(n, payload, timestampNs)];
            && AcceptingStep(s, s', id, n.term)
            && s'.written == s.written[n.term := full] && s'.nodes[id].log == full
            && s'.nodes[id].term == n.term && s'.nodes[id].state == Follower
  {
    var n := s.nodes[id];
    var e := NewEntry(n, payload, timestampNs);
    LeaderHasNotWritten(s, id);
    TracedIsSorted(n.log, s.written);
    SelfAppend(n, e);
  }

  lemma ReplicateKeepsBallots(s: State, id: NodeId, payload: seq<byte>, timestampNs: nat)
    requires LogInv(s) && WrittenFollows(s) && BallotsSound(s) && Enabled(s, Replicate(id, payload, timestampNs))
    ensures BallotsSound(AfterReplicate(s, id, payload, timestampNs))
  {
  }

  lemma ReplicateKeepsFollowing(s: State, id: NodeId, payload: seq<byte>, timestampNs: nat)
    requires LogInv(s) && WrittenFollows(s) && Enabled(s, Replicate(id, payload, timestampNs))
    ensures WrittenFollows(AfterReplicate(s, id, payload, timestampNs))
  {
    ReplicateIsAccepting(s, id, payload, timestampNs);
    var n := s.nodes[id];
    FollowingExtends(s, AfterReplicate(s, id, payload, timestampNs), id, n.log + [NewEntry(n, payload, timestampNs)]);
  }

  lemma FollowingExtends(s: State, s': State, id: NodeId, full: Log)
    requires WrittenFollows(s) && id in s.nodes && s.nodes[id].state == Leader
    requires |full| > 0 && full[..|full| - 1] == s.nodes[id].log
    requires id in s'.nodes && s'.nodes == s.nodes[id := s'.nodes[id]] && s'.nodes[id].state == Follower
    requires s'.written == s.written[s.nodes[id].term := full] && s'.victories == s.victories
    ensures WrittenFollows(s')
  {
  }

  lemma ReplicateKeepsDurability(s: State, id: NodeId, payload: seq<byte>, timestampNs: nat)
    requires Inv(s) && DurabilityInv(s) && Enabled(s, Replicate(id, payload, timestampNs))
    ensures DurabilityInv(AfterReplicate(s, id, payload, timestampNs))
  {
    var s', t := AfterReplicate(s, id, payload, timestampNs), s.nodes[id].term;
    ReplicateIsAccepting(s, id, payload, timestampNs);
    AcceptKeepsVotes(s, s', id, t);
    AcceptKeepsVictories(s, s', id, t);
    AcceptKeepsAcks(s, s', id, t);
    ReplicateKeepsBallots(s, id, payload, timestampNs);
    ReplicateKeepsFollowing(s, id, payload, timestampNs);
  }

  lemma DeliveryIsAccepting(s: State, id: NodeId, r: AppendRequest)
    requires LogInv(s) && id in s.nodes && r in s.appends
    ensures var s' := AfterAppend(s, id, r);
            && AcceptingStep(s, s', id, r.term)
            && (s'.acks != s.acks ==> r.term in s.written && s.written[r.term] <= s'.nodes[id].log)
            && (s'.nodes[id].log == s.nodes[id].log
                || (r.term in s.written && s'.nodes[id].term == r.term && s'.nodes[id].log == s.written[r.term]))
  {
    if Accepts(s.nodes[id], r) {
      OfferedAppend(s.nodes[id].log, r, s.written);
    }
  }

  lemma DeliveryKeepsRest(s: State, id: NodeId, r: AppendRequest)
    requires WrittenFollows(s) && BallotsSound(s) && id in s.nodes
    ensures WrittenFollows(AfterAppend(s, id, r)) && BallotsSound(AfterAppend(s, id, r))
  {
  }

  lemma DeliveryKeepsDurability(s: State, id: NodeId, r: AppendRequest)
    requires Inv(s) && DurabilityInv(s) && id in s.nodes && r in s.appends
    ensures DurabilityInv(AfterAppend(s, id, r))
  {
    var s' := AfterAppend(s, id, r);
    DeliveryIsAccepting(s, id, r);
    AcceptKeepsVotes(s, s', id, r.term);
    AcceptKeepsVictories(s, s', id, r.term);
    AcceptKeepsAcks(s, s', id, r.term);
    DeliveryKeepsRest(s, id, r);
  }

  // --------------------------------------------------------------- every run

  lemma StepKeepsDurability(s: State, step: Step)
    requires Inv(s) && DurabilityInv(s) && Enabled(s, step) && !step.InjectAppend? && !step.InjectBallot?
    ensures DurabilityInv(Apply(s, step))
  {
    match step
    case Campaign(id) => CampaignKeepsDurability(s, id);
    case DeliverBallot(id, ballot) => BallotKeepsDurability(s, id, ballot);
    case Lead(id) =>
      StepKeepsInv(s, step);
      LeadKeepsDurability(s, id);
    case Replicate(id, payload, timestampNs) => ReplicateKeepsDurability(s, id, payload, timestampNs);
    case DeliverAppend(id, request) => DeliveryKeepsDurability(s, id, request);
  }

  lemma {:induction false} RunKeepsDurability(s: State, steps: seq<Step>)
    requires Inv(s) && DurabilityInv(s) && IsRun(s, steps) && Honest(steps)
    ensures Inv(Final(s, steps)) && DurabilityInv(Final(s, steps))
    decreases |steps|
  {
    if steps != [] {
      StepKeepsDurability(s, steps[0]);
      StepKeepsInv(s, steps[0]);
      RunKeepsDurability(Apply(s, steps[0]), steps[1..]);
    }
  }

  /**
    Acknowledged entries survive: in every run, whatever a quorum accepted in term
    `t` begins the log of every node that leads a later term.
   */
  lemma LaterLeadersHoldAcknowledged(ids: set<NodeId>, steps: seq<Step>, t: nat, id: NodeId)
    requires IsRun(Start(ids), steps) && Honest(steps) && Acknowledged(Final(Start(ids), steps), t)
    requires var s := Final(Start(ids), steps); id in s.nodes && s.nodes[id].state == Leader && s.nodes[id].term > t
    ensures var s := Final(Start(ids), steps); s.written[t] <= s.nodes[id].log
  {
    var s := Final(Start(ids), steps);
    RunKeepsDurability(Start(ids), steps);
    LeaderCompleteness(s, t, s.nodes[id].term);
  }

  /** Acknowledged entries never contradict each other: of two, the earlier one's log begins the later one's. */
  lemma AcknowledgedLogsAgree(ids: set<NodeId>, steps: seq<Step>, t: nat, u: nat)
    requires IsRun(Start(ids), steps) && Honest(steps) && t < u
    requires Acknowledged(Final(Start(ids), steps), t) && Acknowledged(Final(Start(ids), steps), u)
    ensures var s := Final(Start(ids), steps); s.written[t] <= s.written[u]
  {
    var s := Final(Start(ids), steps);
    RunKeepsDurability(Start(ids), steps);
    LaterWritesHold(s, t, u);
  }
}
