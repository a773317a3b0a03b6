/** One Raft participant (src/constellation/consensus/raft.c). */
module RaftNode {
  import opened Options

  // Each transition and RPC handler is one atomic step. The functions give its meaning on an
  // immutable snapshot; the class does the same thing in place and is proved against them.

  type NodeId = string

  /** The empty string is the source's "nobody" in `voted_for` and `current_leader_id`. */
  const NO_ID: NodeId := ""

  /** Terms are `uint64_t`. */
  const TERM_LIMIT: nat := 0x1_0000_0000_0000_0000

  datatype Role = Follower | Candidate | Leader

  datatype LogPos = LogPos(term: nat, index: nat)

  datatype NodeState = NodeState(
    id: NodeId, role: Role, term: nat, votedFor: NodeId, leaderId: NodeId, log: LogPos)

  datatype VoteRequest = VoteRequest(term: nat, candidate: NodeId, log: LogPos)
  datatype VoteReply = VoteReply(term: nat, granted: bool)
  datatype Heartbeat = Heartbeat(term: nat, leader: NodeId)
  datatype HeartbeatReply = HeartbeatReply(term: nat, success: bool)

  /** Section 5.4.1 of the Raft paper: log position `a` is at least as up to date as `b`. */
  predicate UpToDate(a: LogPos, b: LogPos) {
    a.term > b.term || (a.term == b.term && a.index >= b.index)
  }

  /** The number of votes, its own included, that a node with `peerCount` peers must collect. */
  function Majority(peerCount: nat): nat {
    (peerCount + 1) / 2 + 1
  }

  /** Stepping down forgets the vote and the leader even when the term does not change. */
  function FollowerOf(s: NodeState, term: nat): NodeState {
    s.(role := Follower, term := term, votedFor := NO_ID, leaderId := NO_ID)
  }

  function CandidateOf(s: NodeState): NodeState {
    s.(role := Candidate, term := (s.term + 1) % TERM_LIMIT, votedFor := s.id)
  }

  function LeaderOf(s: NodeState): NodeState {
    s.(role := Leader, leaderId := s.id)
  }

  predicate GrantsVote(s: NodeState, req: VoteRequest) {
    && s.term <= req.term
    && (s.votedFor == NO_ID || s.votedFor == req.candidate)
    && UpToDate(req.log, s.log)
  }

  function CatchUp(s: NodeState, term: nat): NodeState {
    if term > s.term then FollowerOf(s, term) else s
  }

  function AfterVoteRequest(s: NodeState, req: VoteRequest): NodeState {
    var s1 := CatchUp(s, req.term);
    if GrantsVote(s1, req) then s1.(votedFor := req.candidate) else s1
  }

  function VoteReplyOf(s: NodeState, req: VoteRequest): VoteReply {
    var s1 := CatchUp(s, req.term);
    VoteReply(s1.term, GrantsVote(s1, req))
  }

  /** A candidate that steps down here loses the leader id it has just stored. */
  function AfterHeartbeat(s: NodeState, hb: Heartbeat): NodeState {
    var s1 := CatchUp(s, hb.term);
    if hb.term != s1.term then s1
    else if s1.role == Candidate then FollowerOf(s1, hb.term)
    else s1.(leaderId := hb.leader)
  }

  function HeartbeatReplyOf(s: NodeState, hb: Heartbeat): HeartbeatReply {
    var s1 := CatchUp(s, hb.term);
    HeartbeatReply(s1.term, hb.term == s1.term)
  }

  class RaftConsensus {
    const nodeId: NodeId
    var role: Role
    var currentTerm: nat
    var votedFor: NodeId
    var currentLeaderId: NodeId
    var logIndex: nat
    var logTerm: nat
    var peerCount: nat

    function Snapshot(): NodeState
      reads this
    {
      NodeState(nodeId, role, currentTerm, votedFor, currentLeaderId, LogPos(logTerm, logIndex))
    }

    constructor (nodeId: NodeId)
      ensures Snapshot() == NodeState(nodeId, Follower, 0, NO_ID, NO_ID, LogPos(0, 0))
      ensures peerCount == 0
    {
      this.nodeId := nodeId;
      role, currentTerm, votedFor, currentLeaderId := Follower, 0, NO_ID, NO_ID;
      logIndex, logTerm, peerCount := 0, 0, 0;
    }

    method BecomeFollower(term: nat)
      modifies this`role, this`currentTerm, this`votedFor, this`currentLeaderId
      ensures Snapshot() == FollowerOf(old(Snapshot()), term)
    {
      role := Follower;
      currentTerm := term;
      votedFor := NO_ID;
      currentLeaderId := NO_ID;
    }

    method BecomeCandidate()
      modifies this`role, this`currentTerm, this`votedFor
      ensures Snapshot() == CandidateOf(old(Snapshot()))
    {
      role := Candidate;
      currentTerm := (currentTerm + 1) % TERM_LIMIT;
      votedFor := nodeId;
    }

    method BecomeLeader() returns (sent: Heartbeat)
      modifies this`role, this`currentLeaderId
      ensures Snapshot() == LeaderOf(old(Snapshot()))
      ensures sent == Heartbeat(currentTerm, nodeId)
    {
      role := Leader;
      currentLeaderId := nodeId;
      var beat := SendHeartbeats();
      sent := beat.value;
    }

    method ShouldGrantVote(request: VoteRequest) returns (grant: bool)
      ensures grant == GrantsVote(Snapshot(), request)
    {
      if request.term < currentTerm {
        return false;
      }
      if votedFor != NO_ID && votedFor != request.candidate {
        return false;
      }
      grant := request.log.term > logTerm
        || (request.log.term == logTerm && request.log.index >= logIndex);
    }

    method HandleRequestVote(request: VoteRequest) returns (reply: VoteReply)
      modifies this`role, this`currentTerm, this`votedFor, this`currentLeaderId
      ensures Snapshot() == AfterVoteRequest(old(Snapshot()), request)
      ensures reply == VoteReplyOf(old(Snapshot()), request)
    {
      if request.term > currentTerm {
        BecomeFollower(request.term);
      }
      var grant := ShouldGrantVote(request);
      reply := VoteReply(currentTerm, grant);
      if grant {
        votedFor := request.candidate;
      }
    }

    /** The first half of an election: campaign, and send this request to every peer. */
    method StartElection() returns (request: VoteRequest)
      modifies this`role, this`currentTerm, this`votedFor
      ensures Snapshot() == CandidateOf(old(Snapshot()))
      ensures request == VoteRequest(currentTerm, nodeId, LogPos(logTerm, logIndex))
    {
      BecomeCandidate();
      request := VoteRequest(currentTerm, nodeId, LogPos(logTerm, logIndex));
    }

    /** The second half: count the peers' grants for the term they were asked about. */
    method ConcludeElection(requestTerm: nat, grants: nat) returns (sent: Option<Heartbeat>)
      modifies this`role, this`currentLeaderId
      ensures
        var won := && old(role) == Candidate && currentTerm == requestTerm
                   && 1 + grants >= Majority(peerCount);
        && Snapshot() == (if won then LeaderOf(old(Snapshot())) else old(Snapshot()))
        && sent == (if won then Some(Heartbeat(requestTerm, nodeId)) else None)
    {
      var votesReceived := 1 + grants;
      var majority := (peerCount + 1) / 2 + 1;
      if votesReceived >= majority && role == Candidate && currentTerm == requestTerm {
        var beat := BecomeLeader();
        return Some(beat);
      }
      return None;
    }

    method HandleHeartbeat(request: Heartbeat) returns (reply: HeartbeatReply)
      modifies this`role, this`currentTerm, this`votedFor, this`currentLeaderId
      ensures Snapshot() == AfterHeartbeat(old(Snapshot()), request)
      ensures reply == HeartbeatReplyOf(old(Snapshot()), request)
    {
      if request.term > currentTerm {
        BecomeFollower(request.term);
      }
      reply := HeartbeatReply(currentTerm, false);
      if request.term == currentTerm {
        reply := HeartbeatReply(currentTerm, true);
        currentLeaderId := request.leader;
        if role == Candidate {
          BecomeFollower(request.term);
        }
      }
    }

    method SendHeartbeats() returns (sent: Option<Heartbeat>)
      ensures sent == if role == Leader then Some(Heartbeat(currentTerm, nodeId)) else None
    {
      if role != Leader {
        return None;
      }
      return Some(Heartbeat(currentTerm, nodeId));
    }
  }
}
