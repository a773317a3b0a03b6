/** What the handlers do, seen from outside (src/constellation/consensus/raft.c). */
module RaftOutcomes {
  import opened RaftNode
  import opened RaftProtocol

  // The rules of sections 5.2 and 5.4.1 of the Raft paper for one message or time-out, in terms of
  // the fields of the node alone, and what a follower knows of its leader in the course of a run.

  /** A majority is more than half of the cluster, and no smaller number is. */
  lemma {:induction false} MajorityIsLeast(peerCount: nat)
    ensures 2 * Majority(peerCount) > peerCount + 1 >= 2 * (Majority(peerCount) - 1)
  {
  }

  /** A vote is granted in a term not over yet, to a log that ends later or is as long, if the
      node has not voted for another in that term; the term and the vote follow. */
  lemma {:induction false} VoteOutcome(n: NodeState, req: VoteRequest)
    ensures var n', reply := AfterVoteRequest(n, req), VoteReplyOf(n, req);
      var upToDate := req.log.term > n.log.term || (req.log.term == n.log.term && req.log.index >= n.log.index);
      var free := req.term > n.term || (req.term == n.term && n.votedFor in {NO_ID, req.candidate});
      && (reply.granted <==> free && upToDate)
      && reply.term == n'.term == (if req.term > n.term then req.term else n.term)
      && n'.id == n.id && n'.log == n.log
      && n'.votedFor == (if reply.granted then req.candidate else if req.term > n.term then NO_ID else n.votedFor)
      && (if req.term > n.term then n'.role == Follower && n'.leaderId == NO_ID
          else n'.role == n.role && n'.leaderId == n.leaderId)
  {
  }

  /** A heartbeat succeeds when its term is not over, and takes the node to that term. It names
      the node's leader, except to a candidate of that very term, which only gives up. */
  lemma {:induction false} HeartbeatOutcome(n: NodeState, hb: Heartbeat)
    ensures var n', reply := AfterHeartbeat(n, hb), HeartbeatReplyOf(n, hb);
      && (reply.success <==> hb.term >= n.term) && reply.term == n'.term
      && n'.id == n.id && n'.log == n.log
      && (hb.term < n.term ==> n' == n)
      && (hb.term >= n.term ==> n'.term == hb.term)
      && (hb.term > n.term ==> n'.role == Follower && n'.leaderId == hb.leader && n'.votedFor == NO_ID)
      && (hb.term == n.term && n.role != Candidate ==>
            n'.role == n.role && n'.leaderId == hb.leader && n'.votedFor == n.votedFor)
      && (hb.term == n.term && n.role == Candidate ==>
            n'.role == Follower && n'.leaderId == NO_ID && n'.votedFor == NO_ID)
  {
  }

  /** A node that times out campaigns in the next term with its own vote and log, and still names
      the leader it knew; one that wins names itself, to the others too. */
  lemma {:induction false} CampaignOutcome(s: System, i: NodeId)
    requires WellFormed(s) && i in s.nodes && s.nodes[i].term + 1 < TERM_LIMIT
    ensures var n := s.nodes[i];
      var s' := Apply(s, Timeout(i));
      && s'.nodes[i] == NodeState(i, Candidate, n.term + 1, i, n.leaderId, n.log)
      && s'.network == s.network + {RequestVote(VoteRequest(n.term + 1, i, n.log))}
      && forall j <- s.nodes :: j != i ==> s'.nodes[j] == s.nodes[j]
  {
  }

  lemma {:induction false} WinOutcome(s: System, i: NodeId, voters: set<NodeId>)
    requires WellFormed(s) && Enabled(s, Win(i, voters))
    ensures var n := s.nodes[i];
      var s' := Apply(s, Win(i, voters));
      && s'.nodes[i] == NodeState(i, Leader, n.term, n.votedFor, i, n.log)
      && s'.network == s.network + {Beat(Heartbeat(n.term, i))}
      && forall j <- s.nodes :: j != i ==> s'.nodes[j] == s.nodes[j]
  {
  }

  /** Whoever leads has a log that ends in a later term than that of every member of some
      majority, or in the same term and no earlier. */
  lemma {:induction false} LeaderLogIsLatest(b: seq<System>, k: nat, i: NodeId) returns (quorum: set<NodeId>)
    requires Run(b) && NoTermWrap(b) && k < |b|
    requires i in b[k].nodes && b[k].nodes[i].role == Leader
    ensures quorum <= b[k].nodes.Keys && 2 * |quorum| > |b[k].nodes|
    ensures forall q <- quorum ::
      var mine, theirs := b[k].nodes[i].log, b[k].nodes[q].log;
      mine.term > theirs.term || (mine.term == theirs.term && mine.index >= theirs.index)
  {
    quorum := LeaderUpToDate(b, k, i);
    MajorityIsLeast(|b[k].nodes| - 1);
  }

  // ---------- What a follower knows ----------

  /** A run with the action of each step. */
  ghost predicate Trace(b: seq<System>, acts: seq<Action>) {
    && |b| == |acts| + 1 && Init(b[0])
    && forall k | 0 <= k < |acts| :: Enabled(b[k], acts[k]) && b[k + 1] == Apply(b[k], acts[k])
  }

  lemma {:induction false} TraceIsRun(b: seq<System>, acts: seq<Action>)
    requires Trace(b, acts)
    ensures Run(b)
  {
    forall k | 0 <= k < |b| - 1 ensures Step(b[k], b[k + 1]) {
      assert Enabled(b[k], acts[k]) && b[k + 1] == Apply(b[k], acts[k]);
    }
  }

  /** A heartbeat of a term that is not over, to a node that is no candidate of that term. */
  predicate Accepts(n: NodeState, hb: Heartbeat) {
    hb.term >= n.term && !(n.role == Candidate && n.term == hb.term)
  }

  ghost predicate AcceptsBeat(s: System, a: Action, i: NodeId) {
    a.DeliverBeat? && a.i == i && i in s.nodes && Accepts(s.nodes[i], a.hb)
  }

  /** In every run a node names the sender of a heartbeat as soon as it has accepted it. */
  lemma {:induction false} BeatNamesLeader(b: seq<System>, acts: seq<Action>, k: nat)
    requires Trace(b, acts) && k < |acts| && acts[k].DeliverBeat?
    ensures var i, hb := acts[k].i, acts[k].hb;
      && i in b[k].nodes && i in b[k + 1].nodes
      && (Accepts(b[k].nodes[i], hb) ==> b[k + 1].nodes[i].leaderId == hb.leader && b[k + 1].nodes[i].term == hb.term)
  {
    assert Enabled(b[k], acts[k]) && b[k + 1] == Apply(b[k], acts[k]);
    HeartbeatOutcome(b[k].nodes[acts[k].i], acts[k].hb);
  }

  /** How a step can leave a follower that names a leader. */
  lemma {:induction false} FollowerStep(s: System, a: Action, i: NodeId)
    requires Inv(s) && Enabled(s, a) && s.nodes[a.i].term + 1 < TERM_LIMIT && i in s.nodes
    requires Apply(s, a).nodes[i].role == Follower
    ensures var n, n' := s.nodes[i], Apply(s, a).nodes[i];
      n'.leaderId != NO_ID <==>
        (AcceptsBeat(s, a, i) || (n.role == Follower && n.term == n'.term && n.leaderId != NO_ID))
  {
    hide OpenVotesHeld, OpenVotesUnique, VotesOk, RequestsOk, RolesOk, ElectionsUnique;
    if a.DeliverBeat? {
      assert Elected(s, a.hb.term, a.hb.leader);
      HeartbeatOutcome(s.nodes[a.i], a.hb);
    }
  }

  /** Node `i` accepted a heartbeat at step `m` and has been a follower in the same term since. */
  ghost predicate KnowsSince(b: seq<System>, acts: seq<Action>, m: nat, k: nat, i: NodeId)
    requires |b| == |acts| + 1 && m < k < |b|
  {
    && AcceptsBeat(b[m], acts[m], i)
    && forall x | m < x <= k ::
      i in b[x].nodes && i in b[k].nodes && b[x].nodes[i].role == Follower && b[x].nodes[i].term == b[k].nodes[i].term
  }

  ghost predicate Knows(b: seq<System>, acts: seq<Action>, k: nat, i: NodeId)
    requires |b| == |acts| + 1 && k < |b|
  {
    exists m: nat :: m < k && KnowsSince(b, acts, m, k, i)
  }

  lemma {:induction false} KnowsStep(b: seq<System>, acts: seq<Action>, k: nat, i: NodeId)
    requires |b| == |acts| + 1 && k + 1 < |b| && i in b[k].nodes && i in b[k + 1].nodes
    requires b[k + 1].nodes[i].role == Follower
    ensures Knows(b, acts, k + 1, i) <==>
      AcceptsBeat(b[k], acts[k], i)
      || (b[k].nodes[i].role == Follower && b[k].nodes[i].term == b[k + 1].nodes[i].term && Knows(b, acts, k, i))
  {
    hide AcceptsBeat;
    if AcceptsBeat(b[k], acts[k], i) {
      assert KnowsSince(b, acts, k, k + 1, i);
    }
    var next := k + 1;
    if m: nat :| m < next && KnowsSince(b, acts, m, next, i) {
      if m < k { assert KnowsSince(b, acts, m, k, i); }
    }
    if b[k].nodes[i].role == Follower && b[k].nodes[i].term == b[k + 1].nodes[i].term && Knows(b, acts, k, i) {
      var m: nat :| m < k && KnowsSince(b, acts, m, k, i);
      assert KnowsSince(b, acts, m, k + 1, i);
    }
  }

  /** In every run a follower names a leader if and only if it has accepted a heartbeat since it
      came to its term or stepped down in it. */
  lemma {:induction false} FollowerKnowsIff(b: seq<System>, acts: seq<Action>, k: nat, i: NodeId)
    requires Trace(b, acts) && NoTermWrap(b) && k < |b| && i in b[k].nodes
    requires b[k].nodes[i].role == Follower
    ensures b[k].nodes[i].leaderId != NO_ID <==> Knows(b, acts, k, i)
  {
    hide Inv, Knows, AcceptsBeat;
    if k == 0 {
      KnowsNothing(b, acts, i);
    } else {
      var s, a := b[k - 1], acts[k - 1];
      assert Enabled(s, a) && b[k - 1 + 1] == Apply(s, a);
      TraceIsRun(b, acts);
      RunInv(b, k - 1);
      FollowerStep(s, a, i);
      KnowsStep(b, acts, k - 1, i);
      if s.nodes[i].role == Follower { FollowerKnowsIff(b, acts, k - 1, i); }
    }
  }

  lemma {:induction false} KnowsNothing(b: seq<System>, acts: seq<Action>, i: NodeId)
    requires |b| == |acts| + 1
    ensures !Knows(b, acts, 0, i)
  {
  }
}
