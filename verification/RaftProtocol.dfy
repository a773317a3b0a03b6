/** Leader election among any number of nodes (src/constellation/consensus/raft.c). */
module RaftProtocol {
  import opened RaftNode

  // The network is asynchronous: it is the set of all messages ever sent, and delivering a message
  // leaves it there, so messages may be lost, delayed, reordered and delivered any number of times.

  datatype Message =
    | RequestVote(req: VoteRequest)
    | Vote(voter: NodeId, candidate: NodeId, term: nat, reply: VoteReply)
    | Beat(hb: Heartbeat)

  datatype System = System(nodes: map<NodeId, NodeState>, network: set<Message>)

  // ---------- Steps ----------

  /** Node ids are distinct and not empty; each log position is arbitrary and never changes. */
  ghost predicate Init(s: System) {
    && NO_ID !in s.nodes
    && s.network == {}
    && forall i <- s.nodes ::
      && s.nodes[i].id == i && s.nodes[i].role == Follower && s.nodes[i].term == 0
      && s.nodes[i].votedFor == NO_ID && s.nodes[i].leaderId == NO_ID
  }

  datatype Action =
    | Timeout(i: NodeId)
    | DeliverRequest(i: NodeId, req: VoteRequest)
    | Win(i: NodeId, voters: set<NodeId>)
    | DeliverBeat(i: NodeId, hb: Heartbeat)
    | SendBeat(i: NodeId)

  function RequestOf(n: NodeState): VoteRequest {
    VoteRequest(n.term, n.id, n.log)
  }

  /** `voter` answered yes when `candidate` asked for its vote in `term`. */
  ghost predicate Yes(s: System, voter: NodeId, candidate: NodeId, term: nat) {
    exists t :: Vote(voter, candidate, term, VoteReply(t, true)) in s.network
  }

  ghost predicate Enabled(s: System, a: Action) {
    && a.i in s.nodes
    && match a
       case Timeout(_) => true
       case DeliverRequest(i, req) => RequestVote(req) in s.network && req.candidate != i
       case Win(i, voters) =>
         var n := s.nodes[i];
         && n.role == Candidate
         && voters <= s.nodes.Keys - {i}
         && (forall v <- voters :: Yes(s, v, i, n.term))
         && 1 + |voters| >= Majority(|s.nodes| - 1)
       case DeliverBeat(i, hb) => Beat(hb) in s.network && hb.leader != i
       case SendBeat(i) => s.nodes[i].role == Leader
  }

  ghost function Apply(s: System, a: Action): System
    requires Enabled(s, a)
  {
    var n := s.nodes[a.i];
    match a
    case Timeout(i) =>
      var n' := CandidateOf(n);
      System(s.nodes[i := n'], s.network + {RequestVote(RequestOf(n'))})
    case DeliverRequest(i, req) =>
      System(s.nodes[i := AfterVoteRequest(n, req)],
             s.network + {Vote(i, req.candidate, req.term, VoteReplyOf(n, req))})
    case Win(i, _) =>
      System(s.nodes[i := LeaderOf(n)], s.network + {Beat(Heartbeat(n.term, i))})
    case DeliverBeat(i, hb) =>
      s.(nodes := s.nodes[i := AfterHeartbeat(n, hb)])
    case SendBeat(i) =>
      s.(network := s.network + {Beat(Heartbeat(n.term, i))})
  }

  ghost predicate Step(s: System, s': System) {
    exists a :: Enabled(s, a) && s' == Apply(s, a)
  }

  ghost predicate Run(b: seq<System>) {
    && |b| > 0
    && Init(b[0])
    && forall k | 0 <= k < |b| - 1 :: Step(b[k], b[k + 1])
  }

  /** No node's term is about to overflow its 64 bits. */
  ghost predicate NoTermWrap(b: seq<System>) {
    forall k, i | 0 <= k < |b| && i in b[k].nodes :: b[k].nodes[i].term + 1 < TERM_LIMIT
  }

  ghost predicate IsLeader(s: System, i: NodeId, term: nat) {
    i in s.nodes && s.nodes[i].role == Leader && s.nodes[i].term == term
  }

  // ---------- The inductive invariant ----------

  ghost predicate WellFormed(s: System) {
    && NO_ID !in s.nodes
    && forall i <- s.nodes :: s.nodes[i].id == i
  }

  /** A leader announces itself as it is elected, so heartbeats record every election. */
  ghost predicate Elected(s: System, term: nat, l: NodeId) {
    Beat(Heartbeat(term, l)) in s.network
  }

  ghost predicate Open(s: System, term: nat) {
    forall l :: !Elected(s, term, l)
  }

  ghost predicate RolesOk(s: System) {
    forall i <- s.nodes ::
      var n := s.nodes[i];
      && (n.role != Follower ==> n.votedFor == i)
      && (n.role == Leader ==> Elected(s, n.term, i))
      && (n.role != Candidate && n.leaderId != NO_ID ==> Elected(s, n.term, n.leaderId))
  }

  ghost predicate RequestsOk(s: System) {
    forall req | RequestVote(req) in s.network ::
      req.candidate in s.nodes && req.log == s.nodes[req.candidate].log
  }

  ghost predicate VotesOk(s: System) {
    forall v, c, term: nat, t: nat | Vote(v, c, term, VoteReply(t, true)) in s.network ::
      && v in s.nodes && c in s.nodes && v != c
      && t == term && term <= s.nodes[v].term
      && UpToDate(s.nodes[c].log, s.nodes[v].log)
  }

  /** While a term has no leader nobody in it forgets a vote. */
  ghost predicate OpenVotesHeld(s: System) {
    forall v, c, term | v in s.nodes && Yes(s, v, c, term) && Open(s, term) ::
      s.nodes[v].term == term ==> s.nodes[v].role == Follower && s.nodes[v].votedFor == c
  }

  ghost predicate OpenVotesUnique(s: System) {
    forall v, c, d, term | Yes(s, v, c, term) && Yes(s, v, d, term) && Open(s, term) :: c == d
  }

  /** A member of the quorum that elected `l` in `term` left the term without ever taking
      its vote back, or is still in it and bound to `l`. */
  ghost predicate Bound(s: System, q: NodeId, term: nat, l: NodeId) {
    && q in s.nodes && l in s.nodes
    && UpToDate(s.nodes[l].log, s.nodes[q].log)
    && (s.nodes[q].term > term
        || (s.nodes[q].term == term && s.nodes[q].votedFor == l
            && s.nodes[q].role == (if q == l then Leader else Follower)))
    && forall c :: Yes(s, q, c, term) ==> c == l
  }

  ghost predicate Quorum(s: System, quorum: set<NodeId>, term: nat, l: NodeId) {
    && l in quorum
    && quorum <= s.nodes.Keys
    && |quorum| >= Majority(|s.nodes| - 1)
    && forall q <- quorum :: Bound(s, q, term, l)
  }

  ghost predicate ElectionsBacked(s: System) {
    forall term, l | Elected(s, term, l) :: exists quorum :: Quorum(s, quorum, term, l)
  }

  ghost predicate ElectionsUnique(s: System) {
    forall term, l, m | Elected(s, term, l) && Elected(s, term, m) :: l == m
  }

  ghost predicate Inv(s: System) {
    && WellFormed(s) && RolesOk(s) && RequestsOk(s) && VotesOk(s)
    && OpenVotesHeld(s) && OpenVotesUnique(s)
    && ElectionsBacked(s) && ElectionsUnique(s)
  }

  // ---------- Preservation ----------

  lemma {:induction false} QuorumsIntersect(all: set<NodeId>, q1: set<NodeId>, q2: set<NodeId>) returns (q: NodeId)
    requires q1 <= all && q2 <= all && all != {}
    requires |q1| >= Majority(|all| - 1) && |q2| >= Majority(|all| - 1)
    ensures q in q1 && q in q2
  {
    if q1 * q2 == {} {
      assert |q1 + q2| == |q1| + |q2|;
      CardinalityMonotone(q1 + q2, all);
    }
    q :| q in q1 * q2;
  }

  lemma {:induction false} CardinalityMonotone<T>(a: set<T>, b: set<T>)
    requires a <= b
    ensures |a| <= |b|
  {
    if x :| x in a {
      CardinalityMonotone(a - {x}, b - {x});
    }
  }

  /** What a quorum member can do in any step leaves it bound. */
  lemma {:induction false} BoundPreserved(s: System, a: Action, q: NodeId, term: nat, l: NodeId)
    requires Inv(s) && Enabled(s, a) && s.nodes[a.i].term + 1 < TERM_LIMIT
    requires Elected(s, term, l) && Bound(s, q, term, l)
    ensures Bound(Apply(s, a), q, term, l)
  {
    hide ElectionsBacked, OpenVotesHeld, OpenVotesUnique, Majority;
    var s' := Apply(s, a);
    forall c | Yes(s', q, c, term)
      ensures c == l
    {
      if !Yes(s, q, c, term) {
        var t :| Vote(q, c, term, VoteReply(t, true)) in s'.network;
      }
    }
  }

  lemma {:induction false} ElectionsBackedPreserved(s: System, a: Action)
    requires Inv(s) && Enabled(s, a) && s.nodes[a.i].term + 1 < TERM_LIMIT
    ensures ElectionsBacked(Apply(s, a))
  {
    var s' := Apply(s, a);
    assert s'.nodes.Keys == s.nodes.Keys;
    forall term, l | Elected(s', term, l)
      ensures exists quorum :: Quorum(s', quorum, term, l)
    {
      if Elected(s, term, l) {
        var quorum :| Quorum(s, quorum, term, l);
        forall q <- quorum
          ensures Bound(s', q, term, l)
        {
          BoundPreserved(s, a, q, term, l);
        }
        assert Quorum(s', quorum, term, l);
      } else {
        assert a.Win?;
        WinnerTermWasOpen(s, a.i, a.voters);
        WinnerHasQuorum(s, a.i, a.voters);
      }
    }
  }

  /** No quorum can be bound to anyone in a term in which a majority just voted for `i`. */
  lemma {:induction false} NoQuorumAgainstWinner(s: System, i: NodeId, voters: set<NodeId>,
          quorum: set<NodeId>, l: NodeId)
    requires Inv(s) && Enabled(s, Win(i, voters))
    ensures !Quorum(s, quorum, s.nodes[i].term, l)
  {
    if quorum <= s.nodes.Keys && |quorum| >= Majority(|s.nodes| - 1) {
      var q := QuorumsIntersect(s.nodes.Keys, quorum, voters + {i});
      assert q != i ==> Yes(s, q, i, s.nodes[i].term);
    }
  }

  /** Nobody can collect a majority in a term that already has a leader. */
  lemma {:induction false} WinnerTermWasOpen(s: System, i: NodeId, voters: set<NodeId>)
    requires Inv(s) && Enabled(s, Win(i, voters))
    ensures Open(s, s.nodes[i].term)
  {
    forall l
      ensures !Elected(s, s.nodes[i].term, l)
    {
      forall quorum
        ensures !Quorum(s, quorum, s.nodes[i].term, l)
      {
        NoQuorumAgainstWinner(s, i, voters, quorum, l);
      }
    }
  }

  lemma {:induction false} WinnerHasQuorum(s: System, i: NodeId, voters: set<NodeId>)
    requires Inv(s) && Enabled(s, Win(i, voters)) && Open(s, s.nodes[i].term)
    ensures Quorum(Apply(s, Win(i, voters)), voters + {i}, s.nodes[i].term, i)
  {
    var s' := Apply(s, Win(i, voters));
    var term := s.nodes[i].term;
    assert s'.nodes.Keys == s.nodes.Keys;
    forall q <- voters + {i}
      ensures Bound(s', q, term, i)
    {
      if q != i {
        assert Yes(s, q, i, term);
        var t :| Vote(q, i, term, VoteReply(t, true)) in s.network;
      }
      forall c | Yes(s', q, c, term)
        ensures c == i
      {
        assert Yes(s, q, c, term);
      }
    }
  }

  lemma {:induction false} OpenVotesPreserved(s: System, a: Action)
    requires Inv(s) && Enabled(s, a) && s.nodes[a.i].term + 1 < TERM_LIMIT
    ensures OpenVotesHeld(Apply(s, a)) && OpenVotesUnique(Apply(s, a))
  {
    var s' := Apply(s, a);
    forall term | Open(s', term)
      ensures Open(s, term)
    {
      forall l
        ensures !Elected(s, term, l)
      {
        assert !Elected(s', term, l);
      }
    }
    forall v, c, term | Yes(s', v, c, term) && Open(s', term) && v in s'.nodes
      ensures s'.nodes[v].term == term ==> s'.nodes[v].role == Follower && s'.nodes[v].votedFor == c
    {
      if Yes(s, v, c, term) {
        var t :| Vote(v, c, term, VoteReply(t, true)) in s.network;
        OldVoteStillHeld(s, a, v, c, term);
      } else {
        NewVoteHeld(s, a, v, c, term);
      }
    }
    forall v, c, d, term | Yes(s', v, c, term) && Yes(s', v, d, term) && Open(s', term)
      ensures c == d
    {
      if !Yes(s, v, d, term) {
        NewVoteHeld(s, a, v, d, term);
        NewVoteIsFirst(s, a, v, d, term, c);
      }
      if !Yes(s, v, c, term) {
        NewVoteHeld(s, a, v, c, term);
        NewVoteIsFirst(s, a, v, c, term, d);
      }
    }
  }

  lemma {:induction false} OldVoteStillHeld(s: System, a: Action, v: NodeId, c: NodeId, term: nat)
    requires Inv(s) && Enabled(s, a) && s.nodes[a.i].term + 1 < TERM_LIMIT
    requires v in s.nodes && Yes(s, v, c, term) && Open(s, term) && term <= s.nodes[v].term
    ensures var n := Apply(s, a).nodes[v]; n.term == term ==> n.role == Follower && n.votedFor == c
  {
    if a.DeliverBeat? {
      assert Elected(s, a.hb.term, a.hb.leader);
    }
    var t :| Vote(v, c, term, VoteReply(t, true)) in s.network;
  }

  lemma {:induction false} NewVoteHeld(s: System, a: Action, v: NodeId, c: NodeId, term: nat)
    requires Inv(s) && Enabled(s, a)
    requires Yes(Apply(s, a), v, c, term) && !Yes(s, v, c, term)
    ensures a.DeliverRequest? && a.i == v && a.req.candidate == c && a.req.term == term
    ensures GrantsVote(CatchUp(s.nodes[v], term), a.req)
    ensures v in s.nodes && c in s.nodes && v != c
    ensures var n := Apply(s, a).nodes[v]; n.term == term && n.role == Follower && n.votedFor == c
  {
    var t :| Vote(v, c, term, VoteReply(t, true)) in Apply(s, a).network;
  }

  lemma {:induction false} NewVoteIsFirst(s: System, a: Action, v: NodeId, c: NodeId, term: nat, d: NodeId)
    requires Inv(s) && Enabled(s, a) && Open(s, term)
    requires Yes(Apply(s, a), v, c, term) && !Yes(s, v, c, term)
    ensures !Yes(s, v, d, term)
  {
    NewVoteHeld(s, a, v, c, term);
    forall t: nat
      ensures Vote(v, d, term, VoteReply(t, true)) !in s.network
    {
      assert Vote(v, d, term, VoteReply(t, true)) in s.network ==> Yes(s, v, d, term);
    }
  }

  lemma {:induction false} RolesPreserved(s: System, a: Action)
    requires Inv(s) && Enabled(s, a)
    ensures RolesOk(Apply(s, a))
  {
    var s' := Apply(s, a);
    forall i <- s'.nodes
      ensures
        var n := s'.nodes[i];
        && (n.role != Follower ==> n.votedFor == i)
        && (n.role == Leader ==> Elected(s', n.term, i))
        && (n.role != Candidate && n.leaderId != NO_ID ==> Elected(s', n.term, n.leaderId))
    {
      assert s.network <= s'.network;
      if a.DeliverBeat? && i == a.i {
        assert Elected(s, a.hb.term, a.hb.leader);
      }
    }
  }

  lemma {:induction false} RequestsPreserved(s: System, a: Action)
    requires Inv(s) && Enabled(s, a)
    ensures WellFormed(Apply(s, a)) && RequestsOk(Apply(s, a))
  {
    var s' := Apply(s, a);
    forall req | RequestVote(req) in s'.network
      ensures req.candidate in s'.nodes && req.log == s'.nodes[req.candidate].log
    {
      if RequestVote(req) !in s.network {
        assert req == RequestOf(s'.nodes[a.i]);
      }
    }
  }

  lemma {:induction false} VotesPreserved(s: System, a: Action)
    requires Inv(s) && Enabled(s, a) && s.nodes[a.i].term + 1 < TERM_LIMIT
    ensures VotesOk(Apply(s, a))
  {
    var s' := Apply(s, a);
    forall v, c, term: nat, t: nat | Vote(v, c, term, VoteReply(t, true)) in s'.network
      ensures
        && v in s'.nodes && c in s'.nodes && v != c
        && t == term && term <= s'.nodes[v].term
        && UpToDate(s'.nodes[c].log, s'.nodes[v].log)
    {
      if Vote(v, c, term, VoteReply(t, true)) in s.network {
        assert s.nodes[v].term <= s'.nodes[v].term;
      } else {
        assert a.DeliverRequest? && a.i == v && a.req.candidate == c && a.req.term == term;
        assert RequestVote(a.req) in s.network;
      }
    }
  }

  lemma {:induction false} StepPreservesInv(s: System, a: Action)
    requires Inv(s) && Enabled(s, a) && s.nodes[a.i].term + 1 < TERM_LIMIT
    ensures Inv(Apply(s, a))
  {
    RolesPreserved(s, a);
    RequestsPreserved(s, a);
    VotesPreserved(s, a);
    OpenVotesPreserved(s, a);
    ElectionsBackedPreserved(s, a);
    if a.Win? {
      WinnerTermWasOpen(s, a.i, a.voters);
    }
    var s' := Apply(s, a);
    forall term, l, m | Elected(s', term, l) && Elected(s', term, m)
      ensures l == m
    {
      assert !Elected(s, term, l) ==> a.Win? && a.i == l && s.nodes[l].term == term;
      assert !Elected(s, term, m) ==> a.Win? && a.i == m && s.nodes[m].term == term;
    }
  }

  lemma {:induction false} RunInv(b: seq<System>, k: nat)
    requires Run(b) && NoTermWrap(b) && k < |b|
    ensures Inv(b[k])
  {
    if k > 0 {
      RunInv(b, k - 1);
      assert Step(b[k - 1], b[k - 1 + 1]);
      var a :| Enabled(b[k - 1], a) && b[k] == Apply(b[k - 1], a);
      StepPreservesInv(b[k - 1], a);
    }
  }

  lemma {:induction false} NetworkGrows(b: seq<System>, j: nat, k: nat)
    requires Run(b) && j <= k < |b|
    ensures b[j].network <= b[k].network
  {
    if j < k {
      NetworkGrows(b, j, k - 1);
      assert Step(b[k - 1], b[k - 1 + 1]);
    }
  }

  // ---------- What the protocol promises ----------

  /** Section 5.2 of the Raft paper: two nodes that lead the same term, at whatever two
      moments of whatever run, are the same node. */
  lemma {:induction false} ElectionSafety(b: seq<System>, j: nat, i: NodeId, k: nat, m: NodeId, term: nat)
    requires Run(b) && NoTermWrap(b) && j < |b| && k < |b|
    requires IsLeader(b[j], i, term) && IsLeader(b[k], m, term)
    ensures i == m
  {
    RunInv(b, j);
    RunInv(b, k);
    NetworkGrows(b, j, |b| - 1);
    NetworkGrows(b, k, |b| - 1);
    RunInv(b, |b| - 1);
    assert Elected(b[|b| - 1], term, i) && Elected(b[|b| - 1], term, m);
  }

  /** A follower or leader that names a leader names the one node that was elected in its
      term; that node took office at some earlier moment of the run. */
  lemma {:induction false} LeaderAgreement(b: seq<System>, k: nat, i: NodeId)
    returns (j: nat)
    requires Run(b) && NoTermWrap(b) && k < |b| && i in b[k].nodes
    requires b[k].nodes[i].role != Candidate && b[k].nodes[i].leaderId != NO_ID
    ensures j <= k && IsLeader(b[j], b[k].nodes[i].leaderId, b[k].nodes[i].term)
  {
    RunInv(b, k);
    j := ElectionHappened(b, k, b[k].nodes[i].term, b[k].nodes[i].leaderId);
  }

  lemma {:induction false} ElectionHappened(b: seq<System>, k: nat, term: nat, l: NodeId)
    returns (j: nat)
    requires Run(b) && NoTermWrap(b) && k < |b| && Elected(b[k], term, l)
    ensures j <= k && IsLeader(b[j], l, term)
  {
    if k > 0 && Elected(b[k - 1], term, l) {
      j := ElectionHappened(b, k - 1, term, l);
    } else {
      j := k;
      if k > 0 {
        assert Step(b[k - 1], b[k - 1 + 1]);
      }
    }
  }

  /** Section 5.4.1: whoever wins in a step of a run has a log at least as up to date as
      every member of a majority of the cluster. */
  lemma {:induction false} LeaderUpToDate(b: seq<System>, k: nat, i: NodeId)
    returns (quorum: set<NodeId>)
    requires Run(b) && NoTermWrap(b) && k < |b|
    requires i in b[k].nodes && b[k].nodes[i].role == Leader
    ensures quorum <= b[k].nodes.Keys && |quorum| >= Majority(|b[k].nodes| - 1)
    ensures forall q <- quorum :: UpToDate(b[k].nodes[i].log, b[k].nodes[q].log)
  {
    RunInv(b, k);
    assert Elected(b[k], b[k].nodes[i].term, i);
    quorum :| Quorum(b[k], quorum, b[k].nodes[i].term, i);
    assert forall q <- quorum :: Bound(b[k], q, b[k].nodes[i].term, i);
  }

  // ---------- When a vote changes within a term ----------

  /** The vote of a node that stays in its term changes in a step exactly when the node is a
      candidate and the step delivers a heartbeat of that term to it. */
  lemma {:induction false} StepChangesVoteIff(s: System, a: Action, i: NodeId)
    requires Inv(s) && Enabled(s, a) && i in s.nodes && s.nodes[i].votedFor != NO_ID
    requires s.nodes[a.i].term + 1 < TERM_LIMIT && Apply(s, a).nodes[i].term == s.nodes[i].term
    ensures Apply(s, a).nodes[i].votedFor != s.nodes[i].votedFor
      <==> a.DeliverBeat? && a.i == i && a.hb.term == s.nodes[i].term && s.nodes[i].role == Candidate
  {
    hide ElectionsBacked, OpenVotesHeld, OpenVotesUnique;
  }

  lemma {:induction false} StepKeepsRole(s: System, a: Action, i: NodeId)
    requires Inv(s) && Enabled(s, a) && s.nodes[a.i].term + 1 < TERM_LIMIT && i in s.nodes
    ensures var n, n' := s.nodes[i], Apply(s, a).nodes[i];
      && n.term <= n'.term
      && (n.term == n'.term && n.role != Candidate ==> n'.role == n.role)
  {
    hide ElectionsBacked, OpenVotesHeld, OpenVotesUnique;
  }

  /** A follower does not hold its own vote. */
  ghost predicate FollowersVoteElsewhere(s: System) {
    forall i <- s.nodes :: s.nodes[i].role == Follower ==> s.nodes[i].votedFor != i
  }

  lemma {:induction false} RunVotesElsewhere(b: seq<System>, k: nat)
    requires Run(b) && NoTermWrap(b) && k < |b|
    ensures FollowersVoteElsewhere(b[k])
  {
    hide Inv;
    RunInv(b, k);
    if k > 0 {
      RunVotesElsewhere(b, k - 1);
      RunInv(b, k - 1);
      assert Step(b[k - 1], b[k - 1 + 1]);
      var a :| Enabled(b[k - 1], a) && b[k] == Apply(b[k - 1], a);
      StepVotesElsewhere(b[k - 1], a);
    } else {
      assert NO_ID !in b[0].nodes;
    }
  }

  lemma {:induction false} StepVotesElsewhere(s: System, a: Action)
    requires Inv(s) && FollowersVoteElsewhere(s) && Enabled(s, a)
    ensures FollowersVoteElsewhere(Apply(s, a))
  {
    hide ElectionsBacked, OpenVotesHeld, OpenVotesUnique, RolesOk, VotesOk, ElectionsUnique;
  }

  lemma {:induction false} RunKeepsVote(b: seq<System>, k: nat, i: NodeId) returns (l: NodeId)
    requires Run(b) && NoTermWrap(b) && k + 1 < |b| && i in b[k].nodes
    ensures i in b[k + 1].nodes
    ensures var n, n' := b[k].nodes[i], b[k + 1].nodes[i];
      && n.term <= n'.term
      && (n.term == n'.term && n.role != Candidate ==> n'.role == n.role)
      && (n.term == n'.term && n.votedFor != NO_ID && n'.votedFor != n.votedFor ==>
            n.role == Candidate && l != i && Elected(b[k], n.term, l))
  {
    hide RolesOk, VotesOk, ElectionsBacked, OpenVotesHeld, OpenVotesUnique, ElectionsUnique;
    RunInv(b, k);
    assert Step(b[k], b[k + 1]);
    var a :| Enabled(b[k], a) && b[k + 1] == Apply(b[k], a);
    StepKeepsRole(b[k], a, i);
    l := if a.DeliverBeat? then a.hb.leader else NO_ID;
    if b[k].nodes[i].term == b[k + 1].nodes[i].term && b[k].nodes[i].votedFor != NO_ID {
      StepChangesVoteIff(b[k], a, i);
    }
  }

  lemma {:induction false} NodeSince(b: seq<System>, j: nat, k: nat, i: NodeId)
    requires Run(b) && NoTermWrap(b) && j <= k < |b| && i in b[j].nodes
    ensures i in b[k].nodes && b[j].nodes[i].term <= b[k].nodes[i].term
    ensures b[j].nodes[i].term == b[k].nodes[i].term && b[k].nodes[i].role == Candidate ==>
      b[j].nodes[i].role == Candidate
  {
    hide Run, NoTermWrap;
    if j < k {
      NodeSince(b, j, k - 1, i);
      var _ := RunKeepsVote(b, k - 1, i);
    }
  }

  /** What the role of a node says about its vote, at any moment of a run. */
  lemma {:induction false} RoleAndVote(b: seq<System>, k: nat, i: NodeId)
    requires Run(b) && NoTermWrap(b) && k < |b| && i in b[k].nodes
    ensures b[k].nodes[i].role == Follower <==> b[k].nodes[i].votedFor != i
  {
    hide Run, NoTermWrap;
    RunInv(b, k);
    RunVotesElsewhere(b, k);
  }

  /** A node whose vote changes while it stays in a term was a candidate of that term, and some
      other node had been elected in it before. */
  lemma {:induction false} VoteChangesAfterElection(b: seq<System>, j: nat, k: nat, i: NodeId)
    returns (l: NodeId, m: nat)
    requires Run(b) && NoTermWrap(b) && j < k < |b| && i in b[j].nodes && i in b[k].nodes
    requires b[j].nodes[i].term == b[k].nodes[i].term
    requires b[j].nodes[i].votedFor != NO_ID && b[k].nodes[i].votedFor != b[j].nodes[i].votedFor
    ensures b[j].nodes[i].role == Candidate && b[j].nodes[i].votedFor == i
    ensures l != i && m < k && IsLeader(b[m], l, b[j].nodes[i].term)
  {
    hide Run, NoTermWrap;
    RoleAndVote(b, j, i);
    NodeSince(b, j, k - 1, i);
    l := RunKeepsVote(b, k - 1, i);
    if b[k - 1].nodes[i].votedFor != b[j].nodes[i].votedFor {
      l, m := VoteChangesAfterElection(b, j, k - 1, i);
    } else {
      m := ElectionHappened(b, k - 1, b[j].nodes[i].term, l);
    }
  }

  /** So a node that has a vote and stays in its term changes it between two moments of a run if
      and only if it was a candidate at the first and is a follower at the second. */
  lemma {:induction false} VoteChangesIff(b: seq<System>, j: nat, k: nat, i: NodeId)
    requires Run(b) && NoTermWrap(b) && j < k < |b| && i in b[j].nodes && i in b[k].nodes
    requires b[j].nodes[i].term == b[k].nodes[i].term && b[j].nodes[i].votedFor != NO_ID
    ensures b[k].nodes[i].votedFor != b[j].nodes[i].votedFor
      <==> b[j].nodes[i].role == Candidate && b[k].nodes[i].role == Follower
  {
    hide Run, NoTermWrap;
    RoleAndVote(b, j, i);
    RoleAndVote(b, k, i);
    if b[k].nodes[i].votedFor != b[j].nodes[i].votedFor {
      var l, m := VoteChangesAfterElection(b, j, k, i);
    }
  }
}
