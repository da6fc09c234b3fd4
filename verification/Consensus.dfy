/**
  One consensus node: the vote and append handlers, first as functions on node
  values, then as the class whose methods update a node in place.
 */
module Consensus {
  import opened Common

  datatype NodeId = NodeId(uuid: nat)

  datatype NodeState = Follower | Candidate | Leader

  datatype LogEntry = LogEntry(term: nat, index: nat, payload: seq<byte>, timestampNs: nat)

  type Log = seq<LogEntry>

  datatype VoteRequest = VoteRequest(term: nat, candidate: NodeId, lastLogIndex: nat, lastLogTerm: nat)

  datatype VoteResponse = VoteResponse(term: nat, granted: bool)

  datatype AppendRequest = AppendRequest(
    term: nat, leader: NodeId, prevLogIndex: nat, prevLogTerm: nat, entries: seq<LogEntry>, leaderCommit: nat)

  datatype AppendResponse = AppendResponse(term: nat, success: bool, matchIndex: nat)

  /** The value of a node between two handler calls. */
  datatype Node = Node(
    id: NodeId, state: NodeState, term: nat, votedFor: Option<NodeId>, log: Log, commitIndex: nat, lastApplied: nat)

  function Fresh(id: NodeId): Node {
    Node(id, Follower, 0, None, [], 0, 0)
  }

  function LastIndex(log: Log): nat {
    if log == [] then 0 else log[|log| - 1].index
  }

  function LastTerm(log: Log): nat {
    if log == [] then 0 else log[|log| - 1].term
  }

  // ---------------------------------------------------------------- voting

  function Campaigning(n: Node): Node {
    n.(state := Candidate, term := n.term + 1, votedFor := Some(n.id))
  }

  function BallotOf(n: Node): VoteRequest {
    VoteRequest(n.term, n.id, LastIndex(n.log), LastTerm(n.log))
  }

  /** The node after it has caught up with the term of a vote request. */
  function CaughtUp(n: Node, r: VoteRequest): Node {
    if r.term > n.term then n.(term := r.term, votedFor := None, state := Follower) else n
  }

  /** The rule voters apply: a log ending in this term at this index is not behind `log`. */
  predicate NotBehind(term: nat, index: nat, log: Log) {
    term > LastTerm(log) || (term == LastTerm(log) && index >= LastIndex(log))
  }

  predicate UpToDate(log: Log, r: VoteRequest) {
    NotBehind(r.lastLogTerm, r.lastLogIndex, log)
  }

  predicate Grants(n: Node, r: VoteRequest) {
    && r.term >= n.term
    && (CaughtUp(n, r).votedFor == None || CaughtUp(n, r).votedFor == Some(r.candidate))
    && UpToDate(n.log, r)
  }

  function Voted(n: Node, r: VoteRequest): Node {
    if Grants(n, r) then CaughtUp(n, r).(votedFor := Some(r.candidate)) else CaughtUp(n, r)
  }

  // ----------------------------------------------------------- replication

  /**
    The log after one received entry.  Position `index - 1` underflows for index
    zero, which lands beyond every log, so such an entry is pushed.
   */
  function Place(log: Log, e: LogEntry): Log {
    if 0 < e.index <= |log| then
      if log[e.index - 1].term != e.term then log[..e.index - 1] + [e] else log
    else
      log + [e]
  }

  function PlaceAll(log: Log, es: seq<LogEntry>): Log
    decreases |es|
  {
    if es == [] then log else PlaceAll(Place(log, es[0]), es[1..])
  }

  predicate PrevMatches(log: Log, r: AppendRequest) {
    r.prevLogIndex > 0 ==> r.prevLogIndex <= |log| && log[r.prevLogIndex - 1].term == r.prevLogTerm
  }

  predicate Accepts(n: Node, r: AppendRequest) {
    r.term >= n.term && PrevMatches(n.log, r)
  }

  /** The node once a current append request has made it a follower of that term. */
  function Following(n: Node, r: AppendRequest): Node {
    n.(state := Follower, term := Max(n.term, r.term), votedFor := if r.term > n.term then None else n.votedFor)
  }

  function Committed(commitIndex: nat, log: Log, leaderCommit: nat): nat {
    if leaderCommit > commitIndex then Min(LastIndex(log), leaderCommit) else commitIndex
  }

  function Appended(n: Node, r: AppendRequest): Node {
    if r.term < n.term then n
    else if !PrevMatches(n.log, r) then Following(n, r)
    else
      var log := PlaceAll(n.log, r.entries);
      Following(n, r).(log := log, commitIndex := Committed(n.commitIndex, log, r.leaderCommit))
  }

  /** The entry and the request a leader builds from its own log. */
  function NewEntry(n: Node, payload: seq<byte>, timestampNs: nat): LogEntry {
    LogEntry(n.term, LastIndex(n.log) + 1, payload, timestampNs)
  }

  function RequestFor(n: Node, leader: NodeId, e: LogEntry): AppendRequest {
    AppendRequest(n.term, leader, LastIndex(n.log), LastTerm(n.log), [e], e.index)
  }

  // ------------------------------------------- what an append does to a log

  /** Entries numbered consecutively from `prev + 1`, as every leader sends them. */
  predicate Consecutive(prev: nat, es: seq<LogEntry>) {
    forall i :: 0 <= i < |es| ==> es[i].index == prev + 1 + i
  }

  /** Every entry sits at the position its index names. */
  predicate WellIndexed(log: Log) {
    forall i :: 0 <= i < |log| ==> log[i].index == i + 1
  }

  /** The log holds the terms of the first `k` sent entries. */
  predicate Held(log: Log, prev: nat, es: seq<LogEntry>, k: nat) {
    k <= |es| && prev + k <= |log| && forall i {:trigger es[i]} :: 0 <= i < k ==> log[prev + i].term == es[i].term
  }

  /** How many of the sent entries the log already holds, judged by term. */
  function Agreement(log: Log, prev: nat, es: seq<LogEntry>): (k: nat)
    ensures k <= |es|
    ensures prev <= |log| ==> Held(log, prev, es, k)
    ensures k < |es| ==> prev + k >= |log| || log[prev + k].term != es[k].term
    decreases |es|
  {
    if es == [] || prev >= |log| || log[prev].term != es[0].term then 0
    else
      var rest := Agreement(log, prev + 1, es[1..]);
      assert forall i {:trigger es[i]} :: 1 <= i < rest + 1 ==> es[1..][i - 1] == es[i];
      1 + rest
  }

  /** Entries appended at the very end of a log are pushed one after another. */
  lemma {:induction false} PlaceAllAtEnd(log: Log, es: seq<LogEntry>)
    requires Consecutive(|log|, es)
    ensures PlaceAll(log, es) == log + es
    decreases |es|
  {
    if es == [] {
      assert log + es == log;
    } else {
      PlaceAllAtEnd(log + [es[0]], es[1..]);
      assert log + [es[0]] + es[1..] == log + es;
    }
  }

  lemma HeldTail(log: Log, prev: nat, es: seq<LogEntry>, k: nat)
    requires Consecutive(prev, es) && k > 0 && Held(log, prev, es, k)
    ensures Consecutive(prev + 1, es[1..]) && Held(log, prev + 1, es[1..], k - 1)
  {
  }

  /** Sent entries whose terms are already held change nothing. */
  lemma {:induction false} PlaceAllSkips(log: Log, prev: nat, es: seq<LogEntry>, k: nat)
    requires Consecutive(prev, es) && Held(log, prev, es, k)
    ensures PlaceAll(log, es) == PlaceAll(log, es[k..])
    decreases k
  {
    if k == 0 {
      assert es[0..] == es;
    } else {
      assert Place(log, es[0]) == log;
      HeldTail(log, prev, es, k);
      PlaceAllSkips(log, prev + 1, es[1..], k - 1);
      assert es[1..][k - 1..] == es[k..];
    }
  }

  lemma ConsecutiveTail(prev: nat, es: seq<LogEntry>, k: nat)
    requires Consecutive(prev, es) && k <= |es|
    ensures Consecutive(prev + k, es[k..])
  {
  }

  lemma PlaceCuts(log: Log, prev: nat, e: LogEntry)
    requires prev <= |log| && e.index == prev + 1 && (prev == |log| || log[prev].term != e.term)
    ensures Place(log, e) == log[..prev] + [e]
  {
    assert log[..|log|] == log;
  }

  lemma HeadJoins(log: Log, es: seq<LogEntry>)
    requires es != []
    ensures log + [es[0]] + es[1..] == log + es
  {
  }

  /** At the end of the log, or at a conflict, the sent entries replace what follows. */
  lemma PlaceAllReplaces(log: Log, prev: nat, es: seq<LogEntry>)
    requires es != [] && Consecutive(prev, es) && prev <= |log|
    requires prev == |log| || log[prev].term != es[0].term
    ensures PlaceAll(log, es) == log[..prev] + es
  {
    PlaceCuts(log, prev, es[0]);
    ConsecutiveTail(prev, es, 1);
    PlaceAllAtEnd(log[..prev] + [es[0]], es[1..]);
    HeadJoins(log[..prev], es);
  }

  lemma PlaceAllCut(log: Log, prev: nat, es: seq<LogEntry>, k: nat)
    requires Consecutive(prev, es) && Held(log, prev, es, k)
    requires k < |es| ==> prev + k == |log| || log[prev + k].term != es[k].term
    ensures PlaceAll(log, es) == if k == |es| then log else log[..prev + k] + es[k..]
  {
    PlaceAllSkips(log, prev, es, k);
    if k == |es| {
      assert es[k..] == [];
    } else {
      ConsecutiveTail(prev, es, k);
      PlaceAllReplaces(log, prev + k, es[k..]);
    }
  }

  /**
    The whole effect of the receive loop: the part of the log up to the first
    disagreement stays, and only a real disagreement (or the end of the log)
    makes the rest give way to the sent entries.
   */
  lemma PlaceAllShape(log: Log, prev: nat, es: seq<LogEntry>)
    requires Consecutive(prev, es) && prev <= |log|
    ensures var k := Agreement(log, prev, es);
            PlaceAll(log, es) == if k == |es| then log else log[..prev + k] + es[k..]
  {
    PlaceAllCut(log, prev, es, Agreement(log, prev, es));
  }

  lemma HeldAgrees(log: Log, prev: nat, es: seq<LogEntry>)
    requires Held(log, prev, es, |es|)
    ensures Agreement(log, prev, es) == |es|
  {
  }

  lemma CutHolds(log: Log, prev: nat, es: seq<LogEntry>, k: nat, placed: Log)
    requires Held(log, prev, es, k) && placed == if k == |es| then log else log[..prev + k] + es[k..]
    ensures prev + |es| <= |placed| && placed[..prev] == log[..prev] && Agreement(placed, prev, es) == |es|
  {
    forall i | 0 <= i < |es| ensures placed[prev + i].term == es[i].term {
    }
    HeldAgrees(placed, prev, es);
  }

  /** After the loop every sent term stands in the log, and nothing before `prev` has moved. */
  lemma PlaceAllHolds(log: Log, prev: nat, es: seq<LogEntry>)
    requires Consecutive(prev, es) && prev <= |log|
    ensures var placed := PlaceAll(log, es);
            && prev + |es| <= |placed|
            && placed[..prev] == log[..prev]
            && Agreement(placed, prev, es) == |es|
  {
    PlaceAllShape(log, prev, es);
    CutHolds(log, prev, es, Agreement(log, prev, es), PlaceAll(log, es));
  }

  lemma PlaceAllWellIndexed(log: Log, prev: nat, es: seq<LogEntry>)
    requires WellIndexed(log) && Consecutive(prev, es) && prev <= |log|
    ensures WellIndexed(PlaceAll(log, es))
  {
    PlaceAllShape(log, prev, es);
  }

  /** The request meets a real conflict: a held entry whose term differs from the sent one. */
  predicate Conflicts(log: Log, prev: nat, es: seq<LogEntry>) {
    exists i :: 0 <= i < |es| && prev + i < |log| && log[prev + i].term != es[i].term
  }

  /**
    For a consecutive request: indices stay equal to positions, a refused request
    leaves the log alone, an accepted one leaves every sent term in the log.
   */
  lemma AppendKeepsIndices(n: Node, r: AppendRequest)
    requires WellIndexed(n.log) && Consecutive(r.prevLogIndex, r.entries)
    ensures WellIndexed(Appended(n, r).log)
    ensures !Accepts(n, r) ==> Appended(n, r).log == n.log
    ensures Accepts(n, r) ==> Agreement(Appended(n, r).log, r.prevLogIndex, r.entries) == |r.entries|
  {
    if Accepts(n, r) {
      PlaceAllHolds(n.log, r.prevLogIndex, r.entries);
      PlaceAllWellIndexed(n.log, r.prevLogIndex, r.entries);
    }
  }

  /** The log survives whole exactly when no held term conflicts with a sent one. */
  lemma PlaceAllLosesOnConflict(log: Log, prev: nat, es: seq<LogEntry>)
    requires Consecutive(prev, es) && prev <= |log|
    ensures log <= PlaceAll(log, es) <==> !Conflicts(log, prev, es)
  {
    PlaceAllShape(log, prev, es);
    var k := Agreement(log, prev, es);
    if k < |es| && prev + k < |log| {
      assert PlaceAll(log, es)[prev + k] == es[k];
    }
  }

  /**
    An accepted request shortens or rewrites the log exactly when a held term
    conflicts with a sent one; then the entries before the first conflict stay
    and the sent entries from there on replace everything after it.
   */
  lemma AppendTruncatesOnlyOnConflict(n: Node, r: AppendRequest)
    requires Consecutive(r.prevLogIndex, r.entries) && Accepts(n, r)
    ensures n.log <= Appended(n, r).log <==> !Conflicts(n.log, r.prevLogIndex, r.entries)
    ensures var k := Agreement(n.log, r.prevLogIndex, r.entries);
            Conflicts(n.log, r.prevLogIndex, r.entries) ==>
              Appended(n, r).log == n.log[..r.prevLogIndex + k] + r.entries[k..]
  {
    PlaceAllShape(n.log, r.prevLogIndex, r.entries);
    PlaceAllLosesOnConflict(n.log, r.prevLogIndex, r.entries);
  }

  /** Handling the same request twice leaves the whole node as handling it once. */
  lemma AppendIdempotent(n: Node, r: AppendRequest)
    requires Consecutive(r.prevLogIndex, r.entries)
    ensures Appended(Appended(n, r), r) == Appended(n, r)
  {
    if Accepts(n, r) {
      var log := PlaceAll(n.log, r.entries);
      PlaceAllHolds(n.log, r.prevLogIndex, r.entries);
      assert r.prevLogIndex > 0 ==> log[r.prevLogIndex - 1] == log[..r.prevLogIndex][r.prevLogIndex - 1];
      PlaceAllShape(log, r.prevLogIndex, r.entries);
    }
  }

  // ------------------------------------------------ the node as an object

  class ConsensusNode {
    const id: NodeId
    var state: NodeState
    var currentTerm: nat
    var votedFor: Option<NodeId>
    var log: Log
    var commitIndex: nat
    var lastApplied: nat

    /** The abstract value of this object. */
    function View(): Node
      reads this
    {
      Node(id, state, currentTerm, votedFor, log, commitIndex, lastApplied)
    }

    constructor (id: NodeId)
      ensures View() == Fresh(id)
    {
      this.id := id;
      state, currentTerm, votedFor, log, commitIndex, lastApplied := Follower, 0, None, [], 0, 0;
    }

    /** The object for a node value held elsewhere, such as in the cluster's map. */
    constructor Of(n: Node)
      ensures View() == n
    {
      id := n.id;
      state, currentTerm, votedFor, log := n.state, n.term, n.votedFor, n.log;
      commitIndex, lastApplied := n.commitIndex, n.lastApplied;
    }

    method BecomeCandidate() returns (request: VoteRequest)
      modifies this
      ensures View() == Campaigning(old(View()))
      ensures request == BallotOf(View())
    {
      state := Candidate;
      currentTerm := currentTerm + 1;
      votedFor := Some(id);
      request := VoteRequest(currentTerm, id, LastIndex(log), LastTerm(log));
    }

    method BecomeLeader()
      modifies this
      ensures View() == old(View()).(state := Leader)
    {
      state := Leader;
    }

    method HandleRequestVote(request: VoteRequest) returns (response: VoteResponse)
      modifies this
      ensures View() == Voted(old(View()), request)
      ensures response == VoteResponse(View().term, Grants(old(View()), request))
    {
      if request.term < currentTerm {
        return VoteResponse(currentTerm, false);
      }
      if request.term > currentTerm {
        currentTerm := request.term;
        votedFor := None;
        state := Follower;
      }
      var upToDate :=
        || request.lastLogTerm > LastTerm(log)
        || (request.lastLogTerm == LastTerm(log) && request.lastLogIndex >= LastIndex(log));
      var canVote := votedFor == None || votedFor == Some(request.candidate);
      var granted := canVote && upToDate;
      if granted {
        votedFor := Some(request.candidate);
      }
      response := VoteResponse(currentTerm, granted);
    }

    method HandleAppendEntries(request: AppendRequest) returns (response: AppendResponse)
      modifies this
      ensures View() == Appended(old(View()), request)
      ensures response == AppendResponse(View().term, Accepts(old(View()), request), LastIndex(View().log))
    {
      if request.term < currentTerm {
        return AppendResponse(currentTerm, false, LastIndex(log));
      }
      if request.term > currentTerm {
        currentTerm := request.term;
        votedFor := None;
      }
      state := Follower;
      if request.prevLogIndex > 0 {
        if request.prevLogIndex > |log| || log[request.prevLogIndex - 1].term != request.prevLogTerm {
          return AppendResponse(currentTerm, false, LastIndex(log));
        }
      }
      var i := 0;
      while i < |request.entries|
        invariant 0 <= i <= |request.entries|
        invariant PlaceAll(log, request.entries[i..]) == PlaceAll(old(log), request.entries)
        invariant View() == Following(old(View()), request).(log := log)
      {
        var entry := request.entries[i];
        assert request.entries[i..][0] == entry && request.entries[i..][1..] == request.entries[i + 1..];
        if 0 < entry.index <= |log| {
          if log[entry.index - 1].term != entry.term {
            log := log[..entry.index - 1] + [entry];
          }
        } else {
          log := log + [entry];
        }
        i := i + 1;
      }
      if request.leaderCommit > commitIndex {
        commitIndex := Min(LastIndex(log), request.leaderCommit);
      }
      response := AppendResponse(currentTerm, true, LastIndex(log));
    }
  }
}
