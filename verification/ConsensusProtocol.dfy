/**
  The consensus protocol at the level of messages, on a fixed set of nodes.
  A vote or append request, once created, may reach any node at any time,
  repeatedly, or never.
 */
module ConsensusProtocol {
  import opened Common
  import opened Consensus
  import opened LogChecker

  datatype Grant = Grant(voter: NodeId, candidate: NodeId, term: nat)

  datatype Win = Win(leader: NodeId, term: nat)

  /** A node accepted the append request of a term. */
  datatype Ack = Ack(node: NodeId, term: nat)

  /** An election at the moment it was won: the winner, its log, and who had voted for it. */
  datatype Victory = Victory(leader: NodeId, log: Log, voters: set<NodeId>)

  /**
    The nodes and the requests in flight, with records of the past: every vote
    granted and the voter's log at that moment, every election won, per term the
    log its leader held right after its append, and every acceptance of it.
   */
  datatype State = State(
    nodes: map<NodeId, Node>,
    ballots: set<VoteRequest>,
    appends: set<AppendRequest>,
    grants: set<Grant>,
    votes: map<Grant, Log>,
    wins: set<Win>,
    victories: map<nat, Victory>,
    written: map<nat, Log>,
    acks: set<Ack>)

  datatype Step =
    | Campaign(id: NodeId)
    | DeliverBallot(id: NodeId, ballot: VoteRequest)
    | Lead(id: NodeId)
    | Replicate(id: NodeId, payload: seq<byte>, timestampNs: nat)
    | DeliverAppend(id: NodeId, request: AppendRequest)
    | InjectBallot(ballot: VoteRequest)
    | InjectAppend(request: AppendRequest)

  function Start(ids: set<NodeId>): State {
    State(map id | id in ids :: Fresh(id), {}, {}, {}, map[], {}, map[], map[], {})
  }

  function Quorum(s: State): nat {
    |s.nodes| / 2 + 1
  }

  function Voters(s: State, candidate: NodeId, term: nat): set<NodeId> {
    set g <- s.grants | g.candidate == candidate && g.term == term :: g.voter
  }

  predicate Enabled(s: State, step: Step) {
    match step
    case Campaign(id) => id in s.nodes
    case DeliverBallot(id, ballot) => id in s.nodes && ballot in s.ballots
    case Lead(id) =>
      && id in s.nodes && s.nodes[id].state == Candidate
      && |Voters(s, id, s.nodes[id].term)| >= Quorum(s)
    case Replicate(id, _, _) => id in s.nodes && s.nodes[id].state == Leader
    case DeliverAppend(id, request) => id in s.nodes && request in s.appends
    case InjectBallot(_) => true
    case InjectAppend(_) => true
  }

  /** The log a voter first gave a vote with stays on record. */
  function Noted(votes: map<Grant, Log>, g: Grant, log: Log): map<Grant, Log> {
    if g in votes then votes else votes[g := log]
  }

  function AfterCampaign(s: State, id: NodeId): State
    requires id in s.nodes
  {
    var n := Campaigning(s.nodes[id]);
    var g := Grant(id, id, n.term);
    s.(nodes := s.nodes[id := n],
       ballots := s.ballots + {BallotOf(n)},
       grants := s.grants + {g},
       votes := Noted(s.votes, g, n.log))
  }

  function AfterBallot(s: State, id: NodeId, ballot: VoteRequest): State
    requires id in s.nodes
  {
    var n, g := s.nodes[id], Grant(id, ballot.candidate, ballot.term);
    s.(nodes := s.nodes[id := Voted(n, ballot)],
       grants := if Grants(n, ballot) then s.grants + {g} else s.grants,
       votes := if Grants(n, ballot) then Noted(s.votes, g, n.log) else s.votes)
  }

  function AfterLead(s: State, id: NodeId): State
    requires id in s.nodes
  {
    var n := s.nodes[id];
    s.(nodes := s.nodes[id := n.(state := Leader)],
       wins := s.wins + {Win(id, n.term)},
       victories := s.victories[n.term := Victory(id, n.log, Voters(s, id, n.term))])
  }

  /** Building the request and handling it at the leader itself are one step. */
  function AfterReplicate(s: State, id: NodeId, payload: seq<byte>, timestampNs: nat): State
    requires id in s.nodes
  {
    var n := s.nodes[id];
    var r := RequestFor(n, n.id, NewEntry(n, payload, timestampNs));
    s.(nodes := s.nodes[id := Appended(n, r)],
       appends := s.appends + {r},
       written := s.written[n.term := Appended(n, r).log],
       acks := s.acks + {Ack(id, n.term)})
  }

  function AfterAppend(s: State, id: NodeId, r: AppendRequest): State
    requires id in s.nodes
  {
    s.(nodes := s.nodes[id := Appended(s.nodes[id], r)],
       acks := if Accepts(s.nodes[id], r) then s.acks + {Ack(id, r.term)} else s.acks)
  }

  function Apply(s: State, step: Step): State
    requires Enabled(s, step)
  {
    match step
    case Campaign(id) => AfterCampaign(s, id)
    case DeliverBallot(id, ballot) => AfterBallot(s, id, ballot)
    case Lead(id) => AfterLead(s, id)
    case Replicate(id, payload, timestampNs) => AfterReplicate(s, id, payload, timestampNs)
    case DeliverAppend(id, request) => AfterAppend(s, id, request)
    case InjectBallot(ballot) => s.(ballots := s.ballots + {ballot})
    case InjectAppend(request) => s.(appends := s.appends + {request})
  }

  /** Every step of the run is possible when its turn comes. */
  predicate IsRun(s: State, steps: seq<Step>)
    decreases |steps|
  {
    steps == [] || (Enabled(s, steps[0]) && IsRun(Apply(s, steps[0]), steps[1..]))
  }

  function Final(s: State, steps: seq<Step>): State
    requires IsRun(s, steps)
    decreases |steps|
  {
    if steps == [] then s else Final(Apply(s, steps[0]), steps[1..])
  }

  /** The run whose append requests are all built as a leader builds them. */
  predicate Built(steps: seq<Step>) {
    forall i :: 0 <= i < |steps| ==> !steps[i].InjectAppend?
  }

  /** ... and whose vote requests all come from a candidate's campaign. */
  predicate Honest(steps: seq<Step>) {
    Built(steps) && forall i :: 0 <= i < |steps| ==> !steps[i].InjectBallot?
  }

  // ------------------------------------------------------- election safety

  ghost predicate Identified(s: State) {
    forall id :: id in s.nodes ==> s.nodes[id].id == id
  }

  /** A recorded grant is not newer than its voter, and still stands in the voter's current term. */
  ghost predicate GrantsStand(s: State) {
    forall g :: g in s.grants ==>
      && g.voter in s.nodes
      && g.term <= s.nodes[g.voter].term
      && (g.term == s.nodes[g.voter].term ==> s.nodes[g.voter].votedFor == Some(g.candidate))
  }

  ghost predicate OneVotePerTerm(s: State) {
    forall g, h :: g in s.grants && h in s.grants && g.voter == h.voter && g.term == h.term ==> g.candidate == h.candidate
  }

  ghost predicate WinsHaveQuorum(s: State) {
    forall w :: w in s.wins ==> |Voters(s, w.leader, w.term)| >= Quorum(s)
  }

  /** A vote a node holds is on record, and whoever campaigns or leads holds its own. */
  ghost predicate VotesRecorded(s: State) {
    forall id :: id in s.nodes ==>
      var n := s.nodes[id];
      && (n.votedFor.Some? ==> Grant(id, n.votedFor.value, n.term) in s.grants)
      && (n.state != Follower ==> n.votedFor == Some(id))
  }

  ghost predicate ElectionInv(s: State) {
    Identified(s) && GrantsStand(s) && VotesRecorded(s) && OneVotePerTerm(s) && WinsHaveQuorum(s)
  }

  /** At most one node ever becomes leader in a given term. */
  ghost predicate OneLeaderPerTerm(s: State) {
    forall w, v :: w in s.wins && v in s.wins && w.term == v.term ==> w.leader == v.leader
  }

  lemma QuorumsMeet(ids: set<NodeId>, a: set<NodeId>, b: set<NodeId>) returns (common: NodeId)
    requires a <= ids && b <= ids
    requires |a| >= |ids| / 2 + 1 && |b| >= |ids| / 2 + 1
    ensures common in a && common in b
  {
    SubsetSize(a + b, ids);
    assert |a * b| == |a| + |b| - |a + b|;
    common :| common in a * b;
  }

  lemma MoreGrantsMoreVoters(s: State, s': State)
    requires s.grants <= s'.grants && s.nodes.Keys == s'.nodes.Keys && WinsHaveQuorum(s) && s'.wins == s.wins
    ensures WinsHaveQuorum(s')
  {
    assert |s.nodes.Keys| == |s.nodes| && |s'.nodes.Keys| == |s'.nodes|;
    forall w | w in s'.wins ensures |Voters(s', w.leader, w.term)| >= Quorum(s') {
      SubsetSize(Voters(s, w.leader, w.term), Voters(s', w.leader, w.term));
    }
  }

  /** Two quorums share a voter, who voted once, so both wins are of one node. */
  lemma QuorumsElectOne(s: State)
    requires ElectionInv(s)
    ensures OneLeaderPerTerm(s)
  {
    forall w, v | w in s.wins && v in s.wins && w.term == v.term ensures w.leader == v.leader {
      var a, b := Voters(s, w.leader, w.term), Voters(s, v.leader, v.term);
      assert |s.nodes.Keys| == |s.nodes|;
      var voter := QuorumsMeet(s.nodes.Keys, a, b);
      var g :| g in s.grants && g.candidate == w.leader && g.term == w.term && g.voter == voter;
      var h :| h in s.grants && h.candidate == v.leader && h.term == v.term && h.voter == voter;
    }
  }

  lemma CampaignKeepsElection(s: State, id: NodeId)
    requires ElectionInv(s) && id in s.nodes
    ensures ElectionInv(AfterCampaign(s, id))
  {
    MoreGrantsMoreVoters(s, AfterCampaign(s, id));
  }

  lemma BallotKeepsElection(s: State, id: NodeId, ballot: VoteRequest)
    requires ElectionInv(s) && id in s.nodes
    ensures ElectionInv(AfterBallot(s, id, ballot))
  {
    MoreGrantsMoreVoters(s, AfterBallot(s, id, ballot));
  }

  lemma LeadKeepsElection(s: State, id: NodeId)
    requires ElectionInv(s) && Enabled(s, Lead(id))
    ensures ElectionInv(AfterLead(s, id))
  {
  }

  lemma AppendKeepsElection(s: State, id: NodeId, r: AppendRequest)
    requires ElectionInv(s) && id in s.nodes
    ensures ElectionInv(AfterAppend(s, id, r))
  {
  }

  lemma StepKeepsElection(s: State, step: Step)
    requires ElectionInv(s) && Enabled(s, step)
    ensures ElectionInv(Apply(s, step))
  {
    match step
    case Campaign(id) => CampaignKeepsElection(s, id);
    case DeliverBallot(id, ballot) => BallotKeepsElection(s, id, ballot);
    case Lead(id) => LeadKeepsElection(s, id);
    case Replicate(id, payload, timestampNs) =>
      var n := s.nodes[id];
      var r := RequestFor(n, n.id, NewEntry(n, payload, timestampNs));
      AppendKeepsElection(s, id, r);
      MoreGrantsMoreVoters(s, Apply(s, step));
    case DeliverAppend(id, request) => AppendKeepsElection(s, id, request);
    case InjectBallot(_) => MoreGrantsMoreVoters(s, Apply(s, step));
    case InjectAppend(_) => MoreGrantsMoreVoters(s, Apply(s, step));
  }

  lemma {:induction false} RunKeepsElection(s: State, steps: seq<Step>)
    requires ElectionInv(s) && IsRun(s, steps)
    ensures ElectionInv(Final(s, steps))
    decreases |steps|
  {
    if steps != [] {
      StepKeepsElection(s, steps[0]);
      RunKeepsElection(Apply(s, steps[0]), steps[1..]);
    }
  }

  /**
    Election safety: in every run, with requests delayed, repeated or lost and
    arbitrary vote and append requests injected, a term has at most one leader.
   */
  lemma ElectionSafety(ids: set<NodeId>, steps: seq<Step>)
    requires IsRun(Start(ids), steps)
    ensures OneLeaderPerTerm(Final(Start(ids), steps))
  {
    RunKeepsElection(Start(ids), steps);
    QuorumsElectOne(Final(Start(ids), steps));
  }

  // ---------------------------------------------------------- log matching

  /** Up to each of its entries, the log is what that entry's term wrote. */
  ghost predicate Traced(log: Log, written: map<nat, Log>) {
    forall i :: 0 <= i < |log| ==> log[i].term in written && written[log[i].term] == log[..i + 1]
  }

  /** A written log ends in the one entry of its term; all earlier terms are smaller. */
  ghost predicate WrittenIn(log: Log, term: nat) {
    && |log| > 0
    && log[|log| - 1].term == term
    && log[|log| - 1].index == |log|
    && forall i :: 0 <= i < |log| - 1 ==> log[i].term < term
  }

  ghost predicate WrittenSound(written: map<nat, Log>) {
    forall t :: t in written ==> WrittenIn(written[t], t) && Traced(written[t], written)
  }

  ghost predicate NodeTraced(n: Node, written: map<nat, Log>) {
    Traced(n.log, written) && forall i :: 0 <= i < |n.log| ==> n.log[i].term <= n.term
  }

  ghost predicate LogsTraced(s: State) {
    forall id :: id in s.nodes ==> NodeTraced(s.nodes[id], s.written)
  }

  /** The request offers exactly the entry that term wrote, after exactly the log it followed. */
  ghost predicate Offers(r: AppendRequest, written: map<nat, Log>) {
    && r.term in written
    && WrittenIn(written[r.term], r.term)
    && var log := written[r.term];
      && r.entries == [log[|log| - 1]]
      && r.prevLogIndex == |log| - 1
      && r.prevLogTerm == LastTerm(log[..|log| - 1])
      && r.leaderCommit == |log|
  }

  ghost predicate AppendsOffer(s: State) {
    forall r :: r in s.appends ==> Offers(r, s.written)
  }

  /** The node is no longer able to write in term `t`. */
  ghost predicate DoneWith(n: Node, t: nat) {
    n.term > t || (n.term == t && n.state == Follower)
  }

  ghost predicate HasWinner(wins: set<Win>, t: nat) {
    exists w :: w in wins && w.term == t
  }

  ghost predicate LeadersWon(s: State) {
    forall id :: id in s.nodes && s.nodes[id].state == Leader ==> Win(id, s.nodes[id].term) in s.wins
  }

  /** A winner has reached the term it won, and is done with it once the term has its entry. */
  ghost predicate WinnersPast(s: State) {
    forall w :: w in s.wins ==>
      && w.leader in s.nodes
      && w.term <= s.nodes[w.leader].term
      && (w.term in s.written ==> DoneWith(s.nodes[w.leader], w.term))
  }

  ghost predicate WrittenWon(s: State) {
    forall t :: t in s.written ==> HasWinner(s.wins, t)
  }

  ghost predicate WinnersSound(s: State) {
    LeadersWon(s) && WinnersPast(s) && WrittenWon(s)
  }

  ghost predicate LogInv(s: State) {
    WrittenSound(s.written) && LogsTraced(s) && AppendsOffer(s) && WinnersSound(s)
  }

  ghost predicate Inv(s: State) {
    ElectionInv(s) && OneLeaderPerTerm(s) && LogInv(s)
  }

  /** In a traced log indices are positions and terms strictly increase. */
  lemma TracedIsSorted(log: Log, written: map<nat, Log>)
    requires Traced(log, written) && WrittenSound(written)
    ensures WellIndexed(log)
    ensures forall i, j :: 0 <= i < j < |log| ==> log[i].term < log[j].term
  {
  }

  /**
    The heart of log matching: what an accepted request leaves is either the
    unchanged log or the leader's whole log, and begins with the latter.
   */
  lemma OfferedAppend(log: Log, r: AppendRequest, written: map<nat, Log>)
    requires WrittenSound(written) && Traced(log, written) && Offers(r, written) && PrevMatches(log, r)
    ensures PlaceAll(log, r.entries) == log || PlaceAll(log, r.entries) == written[r.term]
    ensures written[r.term] <= PlaceAll(log, r.entries)
  {
  }

  lemma AppendedTraced(n: Node, r: AppendRequest, written: map<nat, Log>)
    requires NodeTraced(n, written) && WrittenSound(written) && Offers(r, written)
    ensures NodeTraced(Appended(n, r), written)
  {
    if Accepts(n, r) {
      OfferedAppend(n.log, r, written);
      var full := written[r.term];
      assert forall i :: 0 <= i < |full| ==> full[i].term <= r.term;
    }
  }

  lemma AppendKeepsTraced(s: State, id: NodeId, r: AppendRequest)
    requires LogInv(s) && id in s.nodes && r in s.appends
    ensures LogsTraced(AfterAppend(s, id, r))
  {
    AppendedTraced(s.nodes[id], r, s.written);
  }

  lemma AppendKeepsWinners(s: State, id: NodeId, r: AppendRequest)
    requires WinnersSound(s) && id in s.nodes
    ensures WinnersSound(AfterAppend(s, id, r))
  {
  }

  /** What the leader's own handling of its request leaves behind. */
  lemma SelfAppend(n: Node, e: LogEntry)
    requires WellIndexed(n.log) && e.index == LastIndex(n.log) + 1
    ensures Appended(n, RequestFor(n, n.id, e)).log == n.log + [e]
    ensures Appended(n, RequestFor(n, n.id, e)).term == n.term
    ensures Appended(n, RequestFor(n, n.id, e)).state == Follower
    ensures Appended(n, RequestFor(n, n.id, e)).id == n.id
  {
    PlaceAllAtEnd(n.log, [e]);
  }

  lemma TracedStands(n: Node, written: map<nat, Log>, t: nat, full: Log)
    requires NodeTraced(n, written) && t !in written
    ensures NodeTraced(n, written[t := full])
  {
  }

  lemma NewTermTraced(log: Log, written: map<nat, Log>, e: LogEntry)
    requires Traced(log, written) && WrittenSound(written) && e.term !in written && e.index == |log| + 1
    requires forall i :: 0 <= i < |log| ==> log[i].term <= e.term
    ensures WrittenIn(log + [e], e.term)
    ensures Traced(log + [e], written[e.term := log + [e]])
    ensures WrittenSound(written[e.term := log + [e]])
  {
  }

  lemma LeaderHasNotWritten(s: State, id: NodeId)
    requires WinnersSound(s) && id in s.nodes && s.nodes[id].state == Leader
    ensures s.nodes[id].term !in s.written
  {
  }

  /** A leader that has not yet written in its term extends the record by one sound log. */
  lemma LeaderWrites(n: Node, written: map<nat, Log>, e: LogEntry)
    requires NodeTraced(n, written) && WrittenSound(written) && n.term !in written
    requires e.term == n.term && e.index == LastIndex(n.log) + 1
    ensures var written', n' := written[n.term := n.log + [e]], Appended(n, RequestFor(n, n.id, e));
            && n'.log == n.log + [e] && n'.term == n.term
            && WrittenSound(written') && NodeTraced(n', written') && Offers(RequestFor(n, n.id, e), written')
  {
    TracedIsSorted(n.log, written);
    SelfAppend(n, e);
    NewTermTraced(n.log, written, e);
    assert (n.log + [e])[..|n.log|] == n.log;
  }

  lemma NodesStand(nodes: map<NodeId, Node>, written: map<nat, Log>, t: nat, full: Log)
    requires t !in written && forall id :: id in nodes ==> NodeTraced(nodes[id], written)
    ensures forall id :: id in nodes ==> NodeTraced(nodes[id], written[t := full])
  {
    forall id | id in nodes ensures NodeTraced(nodes[id], written[t := full]) {
      TracedStands(nodes[id], written, t, full);
    }
  }

  lemma OffersStand(appends: set<AppendRequest>, written: map<nat, Log>, t: nat, full: Log)
    requires t !in written && forall r :: r in appends ==> Offers(r, written)
    ensures forall r :: r in appends ==> Offers(r, written[t := full])
  {
  }

  lemma ReplicateKeepsOffers(s: State, id: NodeId, payload: seq<byte>, timestampNs: nat)
    requires WrittenSound(s.written) && AppendsOffer(s) && id in s.nodes
    requires NodeTraced(s.nodes[id], s.written) && s.nodes[id].term !in s.written
    ensures AppendsOffer(AfterReplicate(s, id, payload, timestampNs))
  {
    var n := s.nodes[id];
    var e := NewEntry(n, payload, timestampNs);
    LeaderWrites(n, s.written, e);
    OffersStand(s.appends, s.written, n.term, n.log + [e]);
  }

  lemma ReplicateKeepsLogs(s: State, id: NodeId, payload: seq<byte>, timestampNs: nat)
    requires WrittenSound(s.written) && LogsTraced(s)
    requires id in s.nodes && s.nodes[id].term !in s.written
    ensures var s' := AfterReplicate(s, id, payload, timestampNs); WrittenSound(s'.written) && LogsTraced(s')
  {
    var n := s.nodes[id];
    var e := NewEntry(n, payload, timestampNs);
    LeaderWrites(n, s.written, e);
    NodesStand(s.nodes, s.written, n.term, n.log + [e]);
  }

  lemma ReplicateKeepsWinners(s: State, id: NodeId, payload: seq<byte>, timestampNs: nat)
    requires WinnersSound(s) && OneLeaderPerTerm(s)
    requires Enabled(s, Replicate(id, payload, timestampNs)) && WellIndexed(s.nodes[id].log)
    ensures WinnersSound(AfterReplicate(s, id, payload, timestampNs))
  {
  }

  lemma CandidateHasNotWritten(s: State, id: NodeId)
    requires WinnersSound(s) && id in s.nodes && s.nodes[id].state == Candidate
    requires OneLeaderPerTerm(AfterLead(s, id))
    ensures s.nodes[id].term !in s.written
  {
  }

  lemma LeadKeepsWinners(s: State, id: NodeId)
    requires WinnersSound(s) && Enabled(s, Lead(id)) && OneLeaderPerTerm(AfterLead(s, id))
    ensures WinnersSound(AfterLead(s, id))
  {
    var s' := AfterLead(s, id);
    CandidateHasNotWritten(s, id);
    forall t | HasWinner(s.wins, t) ensures HasWinner(s'.wins, t) {
      var w :| w in s.wins && w.term == t;
      assert w in s'.wins;
    }
  }

  /** Campaigning and voting leave logs alone and only ever move a node past a term. */
  lemma VotingKeepsLogs(s: State, s': State, id: NodeId)
    requires LogInv(s) && id in s.nodes && id in s'.nodes
    requires s'.nodes == s.nodes[id := s'.nodes[id]] && s'.nodes[id].log == s.nodes[id].log
    requires s'.appends == s.appends && s'.wins == s.wins && s'.written == s.written
    requires s'.nodes[id].term >= s.nodes[id].term
    requires s'.nodes[id].term == s.nodes[id].term ==> s'.nodes[id].state == s.nodes[id].state
    requires s'.nodes[id].term > s.nodes[id].term ==> s'.nodes[id].state != Leader
    ensures LogInv(s')
  {
  }

  lemma LeadKeepsLogs(s: State, id: NodeId)
    requires LogInv(s) && Enabled(s, Lead(id)) && OneLeaderPerTerm(AfterLead(s, id))
    ensures LogInv(AfterLead(s, id))
  {
    LeadKeepsWinners(s, id);
  }

  lemma DeliveryKeepsLogs(s: State, id: NodeId, r: AppendRequest)
    requires LogInv(s) && id in s.nodes && r in s.appends
    ensures LogInv(AfterAppend(s, id, r))
  {
    AppendKeepsTraced(s, id, r);
    AppendKeepsWinners(s, id, r);
  }

  lemma StepKeepsInv(s: State, step: Step)
    requires Inv(s) && Enabled(s, step) && !step.InjectAppend?
    ensures Inv(Apply(s, step))
  {
    StepKeepsElection(s, step);
    QuorumsElectOne(Apply(s, step));
    match step
    case Campaign(id) => VotingKeepsLogs(s, Apply(s, step), id);
    case DeliverBallot(id, ballot) => VotingKeepsLogs(s, Apply(s, step), id);
    case Lead(id) => LeadKeepsLogs(s, id);
    case Replicate(id, payload, timestampNs) =>
      LeaderHasNotWritten(s, id);
      ReplicateKeepsLogs(s, id, payload, timestampNs);
      ReplicateKeepsOffers(s, id, payload, timestampNs);
      TracedIsSorted(s.nodes[id].log, s.written);
      ReplicateKeepsWinners(s, id, payload, timestampNs);
    case DeliverAppend(id, request) => DeliveryKeepsLogs(s, id, request);
    case InjectBallot(_) =>
  }

  lemma {:induction false} RunKeepsInv(s: State, steps: seq<Step>)
    requires Inv(s) && IsRun(s, steps) && Built(steps)
    ensures Inv(Final(s, steps))
    decreases |steps|
  {
    if steps != [] {
      StepKeepsInv(s, steps[0]);
      RunKeepsInv(Apply(s, steps[0]), steps[1..]);
    }
  }

  /**
    Log matching: in every run whose append requests come from leaders, two logs
    that hold the same term at the same position are identical up to and
    including it.
   */
  lemma LogMatching(ids: set<NodeId>, steps: seq<Step>, a: NodeId, b: NodeId, i: nat)
    requires IsRun(Start(ids), steps) && Built(steps) && a in ids && b in ids
    ensures var s := Final(Start(ids), steps);
            && a in s.nodes && b in s.nodes
            && var la, lb := s.nodes[a].log, s.nodes[b].log;
               i < |la| && i < |lb| && la[i].term == lb[i].term ==> la[..i + 1] == lb[..i + 1]
  {
    RunKeepsInv(Start(ids), steps);
    RunKeepsNodes(Start(ids), steps);
  }

  lemma {:induction false} RunKeepsNodes(s: State, steps: seq<Step>)
    requires IsRun(s, steps)
    ensures Final(s, steps).nodes.Keys == s.nodes.Keys
    decreases |steps|
  {
    if steps != [] {
      assert Apply(s, steps[0]).nodes.Keys == s.nodes.Keys;
      RunKeepsNodes(Apply(s, steps[0]), steps[1..]);
    }
  }

  /** Each won election writes at most one entry, so no log holds a term twice. */
  lemma OneEntryPerTerm(ids: set<NodeId>, steps: seq<Step>, id: NodeId)
    requires IsRun(Start(ids), steps) && Built(steps)
    requires id in Final(Start(ids), steps).nodes
    ensures var log := Final(Start(ids), steps).nodes[id].log;
            forall i, j :: 0 <= i < j < |log| ==> log[i].term < log[j].term
  {
    RunKeepsInv(Start(ids), steps);
    TracedIsSorted(Final(Start(ids), steps).nodes[id].log, Final(Start(ids), steps).written);
  }

  /** Every node log the protocol can reach passes the log checker. */
  lemma ReachableLogsPass(ids: set<NodeId>, steps: seq<Step>, id: NodeId)
    requires IsRun(Start(ids), steps) && Built(steps)
    requires id in Final(Start(ids), steps).nodes
    ensures Monotonic(Final(Start(ids), steps).nodes[id].log)
  {
    RunKeepsInv(Start(ids), steps);
    TracedIsSorted(Final(Start(ids), steps).nodes[id].log, Final(Start(ids), steps).written);
  }
}
