/** Runs of the election protocol (src/constellation/consensus/raft.c). */
module RaftExamples {
  import opened RaftNode
  import opened RaftProtocol
  import opened RaftCampaigns

  // They show why its invariant is not the textbook one, what the guard on winning an election is
  // for, and why terms must not wrap around.

  const A: NodeId := "A"
  const B: NodeId := "B"
  const C: NodeId := "C"

  /** A cluster of three, spelled out. */
  datatype Trio = Trio(a: NodeState, b: NodeState, c: NodeState, network: set<Message>) {
    function Get(i: NodeId): NodeState {
      if i == A then a else if i == B then b else c
    }

    function Put(i: NodeId, n: NodeState, sent: set<Message>): Trio {
      Trio(if i == A then n else a, if i == B then n else b, if i != A && i != B then n else c, network + sent)
    }

    function Sys(): System {
      System(map[A := a, B := b, C := c], network)
    }
  }

  function Fresh(id: NodeId): NodeState {
    NodeState(id, Follower, 0, NO_ID, NO_ID, LogPos(0, 0))
  }

  const START := Trio(Fresh(A), Fresh(B), Fresh(C), {})

  lemma {:induction false} Distinct()
    ensures A != B && A != C && B != C
  {
    assert A[0] != B[0] && A[0] != C[0] && B[0] != C[0];
  }

  lemma {:induction false} TrioFacts(t: Trio, i: NodeId, n: NodeState, sent: set<Message>)
    requires i == A || i == B || i == C
    ensures A != B && A != C && B != C
    ensures t.Sys().nodes.Keys == {A, B, C} && |t.Sys().nodes| == 3
    ensures t.Sys().nodes[i] == t.Get(i)
    ensures System(t.Sys().nodes[i := n], t.network + sent) == t.Put(i, n, sent).Sys()
  {
    Distinct();
    assert t.Sys().nodes.Keys == {A, B, C};
  }

  lemma {:induction false} TimeoutStep(t: Trio, i: NodeId)
    requires i == A || i == B || i == C
    ensures TrioStep(t, t.Put(i, CandidateOf(t.Get(i)), {RequestVote(RequestOf(CandidateOf(t.Get(i))))}))
  {
    var n := CandidateOf(t.Get(i));
    TrioFacts(t, i, n, {RequestVote(RequestOf(n))});
    assert Enabled(t.Sys(), Timeout(i));
  }

  lemma {:induction false} RequestStep(t: Trio, i: NodeId, req: VoteRequest)
    requires i == A || i == B || i == C
    requires RequestVote(req) in t.network && req.candidate != i
    ensures TrioStep(t, t.Put(i, AfterVoteRequest(t.Get(i), req),
                                {Vote(i, req.candidate, req.term, VoteReplyOf(t.Get(i), req))}))
  {
    var n := AfterVoteRequest(t.Get(i), req);
    TrioFacts(t, i, n, {Vote(i, req.candidate, req.term, VoteReplyOf(t.Get(i), req))});
    assert Enabled(t.Sys(), DeliverRequest(i, req));
  }

  lemma {:induction false} WinStep(t: Trio, i: NodeId, v: NodeId)
    requires (i == A || i == B || i == C) && (v == A || v == B || v == C) && v != i
    requires t.Get(i).role == Candidate
    requires Vote(v, i, t.Get(i).term, VoteReply(t.Get(i).term, true)) in t.network
    ensures TrioStep(t, t.Put(i, LeaderOf(t.Get(i)), {Beat(Heartbeat(t.Get(i).term, i))}))
  {
    TrioFacts(t, i, LeaderOf(t.Get(i)), {Beat(Heartbeat(t.Get(i).term, i))});
    assert Yes(t.Sys(), v, i, t.Get(i).term);
    assert Enabled(t.Sys(), Win(i, {v}));
  }

  lemma {:induction false} BeatStep(t: Trio, i: NodeId, hb: Heartbeat)
    requires i == A || i == B || i == C
    requires Beat(hb) in t.network && hb.leader != i
    ensures TrioStep(t, t.Put(i, AfterHeartbeat(t.Get(i), hb), {}))
  {
    TrioFacts(t, i, AfterHeartbeat(t.Get(i), hb), {});
    assert Enabled(t.Sys(), DeliverBeat(i, hb));
    assert t.network + {} == t.network;
  }

  ghost predicate TrioStep(t: Trio, t': Trio) {
    Step(t.Sys(), t'.Sys())
  }

  ghost predicate TrioRun(ts: seq<Trio>) {
    && |ts| > 0 && ts[0] == START
    && forall k | 0 <= k < |ts| - 1 :: TrioStep(ts[k], ts[k + 1])
  }

  function Systems(ts: seq<Trio>): seq<System> {
    seq(|ts|, k requires 0 <= k < |ts| => ts[k].Sys())
  }

  lemma {:induction false} TrioRunIsRun(ts: seq<Trio>)
    requires TrioRun(ts)
    ensures Run(Systems(ts))
  {
    forall k | 0 <= k < |ts| - 1
      ensures Step(ts[k].Sys(), ts[k + 1].Sys())
    {
      assert TrioStep(ts[k], ts[k + 1]);
    }
    TrioFacts(START, A, Fresh(A), {});
    assert A != NO_ID && B != NO_ID && C != NO_ID;
    assert Init(START.Sys());
  }

  lemma {:induction false} Grow(ts: seq<Trio>, t: Trio) returns (ts': seq<Trio>)
    requires TrioRun(ts) && TrioStep(ts[|ts| - 1], t)
    ensures TrioRun(ts') && ts' == ts + [t]
  {
    ts' := ts + [t];
    forall k | 0 <= k < |ts'| - 1
      ensures TrioStep(ts'[k], ts'[k + 1])
    {
      if k < |ts| - 1 {
        assert TrioStep(ts[k], ts[k + 1]);
      }
    }
  }

  const REQ_A1 := VoteRequest(1, A, LogPos(0, 0))
  const REQ_B1 := VoteRequest(1, B, LogPos(0, 0))
  const REQ_B2 := VoteRequest(2, B, LogPos(0, 0))

  function Node(id: NodeId, role: Role, term: nat, vote: NodeId, leader: NodeId): NodeState {
    NodeState(id, role, term, vote, leader, LogPos(0, 0))
  }

  /** A and B both campaign in term 1 and C votes for A. */
  lemma {:induction false} SplitTerm() returns (ts: seq<Trio>)
    ensures TrioRun(ts) && |ts| == 4
    ensures ts[3].a == Node(A, Candidate, 1, A, NO_ID)
    ensures ts[3].b == Node(B, Candidate, 1, B, NO_ID)
    ensures ts[3].c == Node(C, Follower, 1, A, NO_ID)
    ensures RequestVote(REQ_A1) in ts[3].network && RequestVote(REQ_B1) in ts[3].network
    ensures Vote(C, A, 1, VoteReply(1, true)) in ts[3].network
  {
    Distinct();
    ts := [START];
    TimeoutStep(START, A);
    ts := Grow(ts, START.Put(A, Node(A, Candidate, 1, A, NO_ID), {RequestVote(REQ_A1)}));
    TimeoutStep(ts[1], B);
    ts := Grow(ts, ts[1].Put(B, Node(B, Candidate, 1, B, NO_ID), {RequestVote(REQ_B1)}));
    RequestStep(ts[2], C, REQ_A1);
    ts := Grow(ts, ts[2].Put(C, Node(C, Follower, 1, A, NO_ID), {Vote(C, A, 1, VoteReply(1, true))}));
  }

  /** "One vote per node and term" is false: B votes for itself in term 1, forgets that when
      A's heartbeat arrives, and then votes for A in the same term. */
  lemma {:induction false} VoteIsForgotten() returns (ts: seq<Trio>)
    ensures TrioRun(ts) && Run(Systems(ts)) && |ts| == 7
    ensures ts[3].b.term == 1 && ts[3].b.votedFor == B
    ensures ts[6].b.term == 1 && ts[6].b.votedFor == A
  {
    Distinct();
    ts := SplitTerm();
    WinStep(ts[3], A, C);
    ts := Grow(ts, ts[3].Put(A, Node(A, Leader, 1, A, A), {Beat(Heartbeat(1, A))}));
    BeatStep(ts[4], B, Heartbeat(1, A));
    ts := Grow(ts, ts[4].Put(B, Node(B, Follower, 1, NO_ID, NO_ID), {}));
    RequestStep(ts[5], B, REQ_A1);
    ts := Grow(ts, ts[5].Put(B, Node(B, Follower, 1, A, NO_ID), {Vote(B, A, 1, VoteReply(1, true))}));
    TrioRunIsRun(ts);
  }

  /** B gives up on term 1 and wins term 2 with A's vote. */
  lemma {:induction false} NextTerm() returns (ts: seq<Trio>)
    ensures TrioRun(ts) && |ts| == 7
    ensures ts[6].a == Node(A, Follower, 2, B, NO_ID)
    ensures ts[6].b == Node(B, Leader, 2, B, B)
    ensures Vote(C, A, 1, VoteReply(1, true)) in ts[6].network && RequestVote(REQ_A1) in ts[6].network
  {
    Distinct();
    ts := SplitTerm();
    TimeoutStep(ts[3], B);
    ts := Grow(ts, ts[3].Put(B, Node(B, Candidate, 2, B, NO_ID), {RequestVote(REQ_B2)}));
    RequestStep(ts[4], A, REQ_B2);
    ts := Grow(ts, ts[4].Put(A, Node(A, Follower, 2, B, NO_ID), {Vote(A, B, 2, VoteReply(2, true))}));
    WinStep(ts[5], B, A);
    ts := Grow(ts, ts[5].Put(B, Node(B, Leader, 2, B, B), {Beat(Heartbeat(2, B))}));
  }

  /** Without the guard two nodes lead term 2 at the same moment: A's majority for term 1 is
      counted after A has already voted for B in term 2. */
  lemma {:induction false} UnguardedWinIsUnsafe() returns (ts: seq<Trio>, after: Trio)
    ensures TrioRun(ts) && Run(Systems(ts))
    ensures UnguardedWin(ts[|ts| - 1].Sys(), A, {C}, 1, after.Sys())
    ensures A != B && IsLeader(after.Sys(), A, 2) && IsLeader(after.Sys(), B, 2)
  {
    Distinct();
    ts := NextTerm();
    var t := ts[6];
    after := t.Put(A, LeaderOf(t.a), {Beat(Heartbeat(2, A))});
    TrioFacts(t, A, LeaderOf(t.a), {Beat(Heartbeat(2, A))});
    assert Yes(t.Sys(), C, A, 1);
    assert Campaigned(t.Sys(), A, 1);
    TrioFacts(after, A, after.a, {});
    TrioFacts(after, B, after.b, {});
    TrioRunIsRun(ts);
  }

  /** `t'` is `t` after C has timed out `n` times in a row. */
  ghost predicate CampaignedC(t: Trio, t': Trio, n: nat) {
    && t'.a == t.a && t'.b == t.b && t.network <= t'.network
    && t'.c == (if n == 0 then t.c
                else t.c.(role := Candidate, term := (t.c.term + n) % TERM_LIMIT, votedFor := t.c.id))
  }

  lemma {:induction false} Campaigns(ts: seq<Trio>, n: nat) returns (ts': seq<Trio>)
    requires TrioRun(ts)
    ensures TrioRun(ts') && CampaignedC(ts[|ts| - 1], ts'[|ts'| - 1], n)
  {
    ts' := ts;
    if n > 0 {
      ts' := Campaigns(ts, n - 1);
      var t := ts'[|ts'| - 1];
      Distinct();
      TimeoutStep(t, C);
      ts' := Grow(ts', t.Put(C, CandidateOf(t.c), {RequestVote(RequestOf(CandidateOf(t.c)))}));
      WrapOnce(ts[|ts| - 1].c.term, n - 1);
    }
  }

  lemma {:induction false} WrapOnce(term: nat, n: nat)
    ensures ((term + n) % TERM_LIMIT + 1) % TERM_LIMIT == (term + n + 1) % TERM_LIMIT
  {
  }

  /** Election safety needs terms that do not wrap: A leads term 1 with C's vote, C times out
      until its term is 0 again, grants B's old request for term 1, and B leads term 1 too. */
  lemma {:induction false} WrappedTermsAreUnsafe() returns (ts: seq<Trio>)
    ensures TrioRun(ts) && Run(Systems(ts))
    ensures var s := ts[|ts| - 1].Sys(); A != B && IsLeader(s, A, 1) && IsLeader(s, B, 1)
  {
    Distinct();
    ts := SplitTerm();
    WinStep(ts[3], A, C);
    ts := Grow(ts, ts[3].Put(A, Node(A, Leader, 1, A, A), {Beat(Heartbeat(1, A))}));
    ts := Campaigns(ts, TERM_LIMIT - 1);
    var t := ts[|ts| - 1];
    assert t.c == Node(C, Candidate, 0, C, NO_ID);
    RequestStep(t, C, REQ_B1);
    ts := Grow(ts, t.Put(C, Node(C, Follower, 1, B, NO_ID), {Vote(C, B, 1, VoteReply(1, true))}));
    t := ts[|ts| - 1];
    WinStep(t, B, C);
    ts := Grow(ts, t.Put(B, Node(B, Leader, 1, B, B), {Beat(Heartbeat(1, B))}));
    t := ts[|ts| - 1];
    TrioFacts(t, A, t.a, {});
    TrioFacts(t, B, t.b, {});
    TrioRunIsRun(ts);
  }
}
