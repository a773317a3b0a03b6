/** What the guard on winning is for (src/constellation/consensus/raft.c). */
module RaftCampaigns {
  import opened RaftNode
  import opened RaftProtocol

  // `raft_start_election` asks for votes in one term and, with a majority of grants, makes the node
  // leader of whatever term and role it has by then. The paper also wants it to be a candidate
  // still, and in the same term. The term alone is enough.

  ghost predicate Campaigned(s: System, i: NodeId, term: nat) {
    exists log :: RequestVote(VoteRequest(term, i, log)) in s.network
  }

  /** The grants that node `i` collected for `requestTerm` make it leader in its present term. */
  ghost predicate UnguardedWin(s: System, i: NodeId, voters: set<NodeId>, requestTerm: nat, s': System) {
    && i in s.nodes && Campaigned(s, i, requestTerm)
    && voters <= s.nodes.Keys - {i}
    && (forall v <- voters :: Yes(s, v, i, requestTerm))
    && 1 + |voters| >= Majority(|s.nodes| - 1)
    && s' == System(s.nodes[i := LeaderOf(s.nodes[i])], s.network + {Beat(Heartbeat(s.nodes[i].term, i))})
  }

  // ---------- Who campaigned ----------

  ghost predicate CampaignsPast(s: System) {
    forall i, term: nat | Campaigned(s, i, term) :: i in s.nodes && term <= s.nodes[i].term
  }

  /** While its term has no leader, a node that campaigned in it is still a candidate. */
  ghost predicate OpenCampaignsHeld(s: System) {
    forall i, term: nat | Campaigned(s, i, term) && i in s.nodes && Open(s, term) ::
      s.nodes[i].term == term ==> s.nodes[i].role == Candidate && s.nodes[i].votedFor == i
  }

  /** While a term has no leader, nobody who voted for another has campaigned in it. */
  ghost predicate OpenVotersQuiet(s: System) {
    forall v, c, term | Yes(s, v, c, term) && Open(s, term) :: !Campaigned(s, v, term)
  }

  /** A quorum of which only the elected node campaigned in the term. */
  ghost predicate QuietQuorum(s: System, quorum: set<NodeId>, term: nat, l: NodeId) {
    Quorum(s, quorum, term, l) && forall q <- quorum | q != l :: !Campaigned(s, q, term)
  }

  ghost predicate ElectionsQuiet(s: System) {
    forall term, l | Elected(s, term, l) :: exists quorum :: QuietQuorum(s, quorum, term, l)
  }

  ghost predicate LeadersNamed(s: System) {
    forall i <- s.nodes :: s.nodes[i].role == Leader ==> s.nodes[i].leaderId == i
  }

  ghost predicate Quiet(s: System) {
    LeadersNamed(s) && CampaignsPast(s) && OpenCampaignsHeld(s) && OpenVotersQuiet(s) && ElectionsQuiet(s)
  }

  // ---------- Every step keeps it ----------

  lemma {:induction false} NewCampaign(s: System, a: Action, i: NodeId, term: nat)
    requires Enabled(s, a) && Campaigned(Apply(s, a), i, term) && !Campaigned(s, i, term)
    ensures a.Timeout? && Apply(s, a).nodes[a.i].term == term && Apply(s, a).nodes[a.i].id == i
  {
    var log :| RequestVote(VoteRequest(term, i, log)) in Apply(s, a).network;
    assert RequestVote(VoteRequest(term, i, log)) !in s.network;
  }

  lemma {:induction false} OpenBefore(s: System, a: Action, term: nat)
    requires Enabled(s, a) && Open(Apply(s, a), term)
    ensures Open(s, term)
  {
    forall l ensures !Elected(s, term, l) {
      assert !Elected(Apply(s, a), term, l);
    }
  }

  lemma {:induction false} PastPreserved(s: System, a: Action)
    requires Inv(s) && CampaignsPast(s) && Enabled(s, a) && s.nodes[a.i].term + 1 < TERM_LIMIT
    ensures CampaignsPast(Apply(s, a))
  {
    hide RolesOk, VotesOk, ElectionsBacked, OpenVotesHeld, OpenVotesUnique, ElectionsUnique, Campaigned;
    var s' := Apply(s, a);
    forall i, term: nat | Campaigned(s', i, term) ensures i in s'.nodes && term <= s'.nodes[i].term {
      if !Campaigned(s, i, term) { NewCampaign(s, a, i, term); }
    }
  }

  lemma {:induction false} HeldPreserved(s: System, a: Action)
    requires Inv(s) && CampaignsPast(s) && OpenCampaignsHeld(s) && Enabled(s, a)
    requires s.nodes[a.i].term + 1 < TERM_LIMIT
    ensures OpenCampaignsHeld(Apply(s, a))
  {
    hide VotesOk, ElectionsBacked, OpenVotesHeld, OpenVotesUnique, ElectionsUnique, Campaigned, Open;
    var s' := Apply(s, a);
    forall i, term: nat | Campaigned(s', i, term) && i in s'.nodes && Open(s', term)
      ensures s'.nodes[i].term == term ==> s'.nodes[i].role == Candidate && s'.nodes[i].votedFor == i
    {
      OpenBefore(s, a, term);
      if Campaigned(s, i, term) {
        if s'.nodes[i].term == term { CandidateStays(s, a, i, term); }
      } else {
        NewCampaign(s, a, i, term);
      }
    }
  }

  lemma {:induction false} CandidateStays(s: System, a: Action, i: NodeId, term: nat)
    requires Inv(s) && CampaignsPast(s) && OpenCampaignsHeld(s) && Enabled(s, a)
    requires s.nodes[a.i].term + 1 < TERM_LIMIT && i in s.nodes && Campaigned(s, i, term)
    requires Open(s, term) && Open(Apply(s, a), term) && Apply(s, a).nodes[i].term == term
    ensures var n := Apply(s, a).nodes[i]; n.role == Candidate && n.votedFor == i
  {
    hide VotesOk, ElectionsBacked, OpenVotesHeld, OpenVotesUnique, ElectionsUnique, Campaigned;
    if a.DeliverBeat? { assert Elected(s, a.hb.term, a.hb.leader); }
    if a.Win? { assert Elected(Apply(s, a), s.nodes[a.i].term, a.i); }
  }

  lemma {:induction false} QuietPreserved(s: System, a: Action)
    requires Inv(s) && Quiet(s) && Enabled(s, a) && s.nodes[a.i].term + 1 < TERM_LIMIT
    ensures OpenVotersQuiet(Apply(s, a))
  {
    hide RolesOk, ElectionsBacked, OpenVotesHeld, OpenVotesUnique, ElectionsUnique, ElectionsQuiet;
    hide Campaigned, Open, Yes;
    var s' := Apply(s, a);
    forall v, c, term | Yes(s', v, c, term) && Open(s', term) ensures !Campaigned(s', v, term) {
      OpenBefore(s, a, term);
      if Yes(s, v, c, term) {
        VotePast(s, v, c, term);
        if Campaigned(s', v, term) { NewCampaign(s, a, v, term); }
      } else {
        NewVoterQuiet(s, a, v, c, term);
      }
    }
  }

  lemma {:induction false} VotePast(s: System, v: NodeId, c: NodeId, term: nat)
    requires Inv(s) && Yes(s, v, c, term)
    ensures v in s.nodes && term <= s.nodes[v].term
  {
    var t :| Vote(v, c, term, VoteReply(t, true)) in s.network;
  }

  lemma {:induction false} NewVoterQuiet(s: System, a: Action, v: NodeId, c: NodeId, term: nat)
    requires Inv(s) && CampaignsPast(s) && OpenCampaignsHeld(s) && Enabled(s, a) && Open(s, term)
    requires Yes(Apply(s, a), v, c, term) && !Yes(s, v, c, term)
    ensures !Campaigned(Apply(s, a), v, term)
  {
    hide Campaigned, Open, Yes, OpenVotesHeld, OpenVotesUnique, ElectionsBacked;
    NewVoteHeld(s, a, v, c, term);
    if Campaigned(Apply(s, a), v, term) && !Campaigned(s, v, term) {
      NewCampaign(s, a, v, term);
    }
  }

  lemma {:induction false} ElectionsQuietPreserved(s: System, a: Action)
    requires Inv(s) && Quiet(s) && Enabled(s, a) && s.nodes[a.i].term + 1 < TERM_LIMIT
    ensures ElectionsQuiet(Apply(s, a))
  {
    hide Inv, Campaigned, Quorum, CampaignsPast, OpenCampaignsHeld, OpenVotersQuiet;
    var s' := Apply(s, a);
    forall term, l | Elected(s', term, l) ensures exists quorum :: QuietQuorum(s', quorum, term, l) {
      if Elected(s, term, l) {
        var quorum :| QuietQuorum(s, quorum, term, l);
        QuorumStaysQuiet(s, a, quorum, term, l);
      } else {
        NewElection(s, a, term, l);
        WinnerQuiet(s, l, a.voters);
      }
    }
  }

  lemma {:induction false} NewElection(s: System, a: Action, term: nat, l: NodeId)
    requires Inv(s) && Enabled(s, a) && Elected(Apply(s, a), term, l) && !Elected(s, term, l)
    ensures a.Win? && a.i == l && s.nodes[l].term == term
  {
    hide ElectionsBacked, OpenVotesHeld, OpenVotesUnique;
  }

  lemma {:induction false} QuorumStaysQuiet(s: System, a: Action, quorum: set<NodeId>, term: nat, l: NodeId)
    requires Inv(s) && Enabled(s, a) && s.nodes[a.i].term + 1 < TERM_LIMIT
    requires Elected(s, term, l) && QuietQuorum(s, quorum, term, l)
    ensures QuietQuorum(Apply(s, a), quorum, term, l)
  {
    hide Inv, Campaigned;
    var s' := Apply(s, a);
    assert s'.nodes.Keys == s.nodes.Keys;
    forall q <- quorum ensures Bound(s', q, term, l) && (q != l ==> !Campaigned(s', q, term)) {
      assert Bound(s, q, term, l);
      BoundPreserved(s, a, q, term, l);
      if q != l && Campaigned(s', q, term) {
        NewCampaign(s, a, q, term);
        Named(s, a.i);
      }
    }
  }

  lemma {:induction false} Named(s: System, i: NodeId)
    requires Inv(s) && i in s.nodes
    ensures s.nodes[i].id == i
  {
  }

  lemma {:induction false} WinnerQuiet(s: System, i: NodeId, voters: set<NodeId>)
    requires Inv(s) && OpenVotersQuiet(s) && Enabled(s, Win(i, voters))
    ensures QuietQuorum(Apply(s, Win(i, voters)), voters + {i}, s.nodes[i].term, i)
  {
    hide Inv, Campaigned, Quorum, Open;
    var term := s.nodes[i].term;
    var s' := Apply(s, Win(i, voters));
    WinnerTermWasOpen(s, i, voters);
    WinnerHasQuorum(s, i, voters);
    forall q <- voters + {i} | q != i ensures !Campaigned(s', q, term) {
      assert Yes(s, q, i, term);
      if Campaigned(s', q, term) { NewCampaign(s, Win(i, voters), q, term); }
    }
  }

  lemma {:induction false} NamedPreserved(s: System, a: Action)
    requires Inv(s) && LeadersNamed(s) && Enabled(s, a)
    ensures LeadersNamed(Apply(s, a))
  {
    hide ElectionsBacked, OpenVotesHeld, OpenVotesUnique, VotesOk;
    if a.DeliverBeat? { assert Elected(s, a.hb.term, a.hb.leader); }
  }

  lemma {:induction false} StepKeepsQuiet(s: System, a: Action)
    requires Inv(s) && Quiet(s) && Enabled(s, a) && s.nodes[a.i].term + 1 < TERM_LIMIT
    ensures Quiet(Apply(s, a))
  {
    hide Inv, LeadersNamed, CampaignsPast, OpenCampaignsHeld, OpenVotersQuiet, ElectionsQuiet;
    NamedPreserved(s, a);
    PastPreserved(s, a);
    HeldPreserved(s, a);
    QuietPreserved(s, a);
    ElectionsQuietPreserved(s, a);
  }

  lemma {:induction false} RunQuiet(b: seq<System>, k: nat)
    requires Run(b) && NoTermWrap(b) && k < |b|
    ensures Quiet(b[k])
  {
    hide Inv;
    if k > 0 {
      hide Quiet;
      RunQuiet(b, k - 1);
      RunInv(b, k - 1);
      assert Step(b[k - 1], b[k - 1 + 1]);
      var a :| Enabled(b[k - 1], a) && b[k] == Apply(b[k - 1], a);
      StepKeepsQuiet(b[k - 1], a);
    }
  }

  // ---------- The term is guard enough ----------

  lemma {:induction false} NoQuietQuorum(s: System, i: NodeId, voters: set<NodeId>, s': System,
          quorum: set<NodeId>, l: NodeId)
    requires i in s.nodes && UnguardedWin(s, i, voters, s.nodes[i].term, s') && s.nodes[i].role == Follower
    ensures !QuietQuorum(s, quorum, s.nodes[i].term, l)
  {
    hide Campaigned;
    if quorum <= s.nodes.Keys && |quorum| >= Majority(|s.nodes| - 1) {
      var q := QuorumsIntersect(s.nodes.Keys, quorum, voters + {i});
      assert q != i ==> Yes(s, q, i, s.nodes[i].term);
    }
  }

  lemma {:induction false} FollowersTermIsOpen(s: System, i: NodeId, voters: set<NodeId>, s': System)
    requires ElectionsQuiet(s) && i in s.nodes && UnguardedWin(s, i, voters, s.nodes[i].term, s')
    requires s.nodes[i].role == Follower
    ensures Open(s, s.nodes[i].term)
  {
    hide Campaigned, Yes, QuietQuorum;
    forall l ensures !Elected(s, s.nodes[i].term, l) {
      forall quorum ensures !QuietQuorum(s, quorum, s.nodes[i].term, l) {
        NoQuietQuorum(s, i, voters, s', quorum, l);
      }
    }
  }

  /** A follower never has a majority of the grants it asked for in its own term. */
  lemma {:induction false} NoFollowerWins(s: System, i: NodeId, voters: set<NodeId>, s': System)
    requires Quiet(s) && i in s.nodes && UnguardedWin(s, i, voters, s.nodes[i].term, s')
    ensures s.nodes[i].role != Follower
  {
    hide Campaigned, Yes, ElectionsQuiet, Open;
    if s.nodes[i].role == Follower {
      FollowersTermIsOpen(s, i, voters, s');
    }
  }

  /** Winning in the term of the request, whatever the role, is a step of the guarded protocol:
      the guarded win, or a heartbeat of the node that already leads. So all that holds of runs
      with the full guard holds with this half of it. */
  lemma {:induction false} TermGuardSuffices(b: seq<System>, k: nat, i: NodeId, voters: set<NodeId>, s': System)
    requires Run(b) && NoTermWrap(b) && k < |b| && i in b[k].nodes
    requires UnguardedWin(b[k], i, voters, b[k].nodes[i].term, s')
    ensures Step(b[k], s')
  {
    hide Inv, Quiet, Campaigned, Run, NoTermWrap;
    var s := b[k];
    RunInv(b, k);
    RunQuiet(b, k);
    NoFollowerWins(s, i, voters, s');
    if s.nodes[i].role == Candidate {
      assert Enabled(s, Win(i, voters)) && s' == Apply(s, Win(i, voters));
    } else {
      LeaderAgain(s, i);
      assert Enabled(s, SendBeat(i)) && s' == Apply(s, SendBeat(i));
    }
  }

  lemma {:induction false} LeaderAgain(s: System, i: NodeId)
    requires Inv(s) && Quiet(s) && i in s.nodes && s.nodes[i].role == Leader
    ensures s.nodes[i := LeaderOf(s.nodes[i])] == s.nodes
  {
    hide Campaigned, ElectionsQuiet, ElectionsBacked;
    assert LeaderOf(s.nodes[i]) == s.nodes[i];
  }
}
