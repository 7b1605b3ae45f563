/** Every action of the cluster keeps the invariant. */
module RaftSteps {
  import opened Common
  import opened RaftLog
  import opened RaftQuorum
  import opened RaftServer
  import opened RaftCluster
  import opened RaftInvariant
  import opened RaftHistory

  lemma Assemble(n: nat, s: Cluster, i: Id, sv: Server, msgs: set<Msg>, h: History)
    requires Inv(n, s) && i < n
    requires HistoryInv(h, n) && Grows(s.hist, h)
    requires forall j: nat :: j < n && j != i ==> SameMember(s.hist, h, j)
    requires ServerInv(h, n, i, sv)
    requires forall m :: m in msgs ==> MsgInv(h, n, m)
    ensures Inv(n, Update(s, i, sv, msgs, h)) && Grows(s.hist, Update(s, i, sv, msgs, h).hist)
  {
    var s' := Update(s, i, sv, msgs, h);
    forall j: nat | j < n ensures ServerInv(h, n, j, s'.servers[j]) {
      if j != i {
        assert ServerInv(s.hist, n, j, s.servers[j]);
        ServerGrows(s.hist, h, n, j, s.servers[j]);
      }
    }
    forall m | m in s'.net ensures MsgInv(h, n, m) {
      if m !in msgs {
        assert MsgInv(s.hist, n, m);
        MsgGrows(s.hist, h, n, m);
      }
    }
  }

  lemma KeepsMore(h: History, j: Id, log: seq<Entry>, bound: nat, log': seq<Entry>, bound': nat)
    requires Keeps(h, j, log, bound) && log <= log' && bound <= bound'
    ensures Keeps(h, j, log', bound')
  {
    forall t: nat, i: nat | Point(h, t, i) && i <= Acked(h, j, t)
      ensures Prefix(h, t, i) <= log' || Superseded(h, t, i, bound')
    {
    }
  }

  /** What a voter keeps at the moment it votes in a term without a leader. */
  lemma KeepsAtVote(h: History, n: nat, j: Id, s: Server, u: nat)
    requires HistoryInv(h, n) && ServerInv(h, n, j, s) && s.currentTerm <= u && u !in h.elections
    ensures KeepsBefore(h, j, u, s.log)
  {
    forall t: nat, i: nat | Point(h, t, i) && t < u && i <= Acked(h, j, t)
      ensures Prefix(h, t, i) <= s.log || Superseded(h, t, i, u - 1)
    {
      if !(Prefix(h, t, i) <= s.log) {
        var w: nat :| w <= s.currentTerm && Skips(h, t, i, w);
        assert w <= u - 1;
      }
    }
  }

  /** A change that leaves log, role, calls and leadership data alone and does not lower the term. */
  lemma Quiet(h: History, n: nat, j: Id, s: Server, s': Server)
    requires ServerInv(h, n, j, s) && Wired(s', n)
    requires s'.log == s.log && s'.currentTerm >= s.currentTerm
    requires s'.currentTerm == s.currentTerm ==> s'.votedFor == s.votedFor
    requires s'.calls == s.calls || forall m :: 0 <= m < n ==> s'.calls[m] == None
    requires s'.role == Follower
             || (s'.role == s.role && s'.currentTerm == s.currentTerm && s'.calls == s.calls
                 && (s'.electing == s.electing || s'.electing == None))
    ensures ServerInv(h, n, j, s')
  {
    KeepsMore(h, j, s.log, s.currentTerm, s'.log, s'.currentTerm);
  }

  lemma ElectKeeps(n: nat, s: Cluster, i: Id)
    requires Inv(n, s) && i < n && s.servers[i].electing == None && s.servers[i].role != Leader
    ensures Inv(n, ElectStep(s, i)) && Grows(s.hist, ElectStep(s, i).hist)
  {
    var sv := s.servers[i];
    var sv' := RaftServer.StartElection(sv, i);
    var h, u := s.hist, sv'.currentTerm;
    var v := Vote(i, sv.log);
    var h' := RecordVote(h, i, u, v);
    assert ServerInv(h, n, i, sv);
    assert (i, u) !in h.voted;
    if u !in h.elections { KeepsAtVote(h, n, i, sv, u); }
    VoteRecorded(h, n, i, u, v);
    SourcedGrows(h, h', sv.log);
    KeepsGrows(h, h', n, i, sv.log, sv.currentTerm);
    KeepsMore(h', i, sv.log, sv.currentTerm, sv.log, u);
    assert VotesInv(h', i, sv');
    assert CandidateInv(h', i, sv');
    assert forall t: nat :: Acked(h', i, t) == Acked(h, i, t);
    assert ServerInv(h', n, i, sv');
    Assemble(n, s, i, sv', {VoteRequest(u, i, LastTerm(sv'.log), |sv'.log|)}, h');
  }

  lemma RestartKeeps(n: nat, s: Cluster, i: Id, term: nat, vote: Option<Id>)
    requires Inv(n, s) && i < n && s.servers[i].currentTerm <= term
    requires term == s.servers[i].currentTerm ==> vote == s.servers[i].votedFor
    ensures Inv(n, Update(s, i, Boot(i, n, term, vote, s.servers[i].log), {}, s.hist))
  {
    var sv := s.servers[i];
    assert ServerInv(s.hist, n, i, sv);
    var sv' := Boot(i, n, term, vote, sv.log);
    Quiet(s.hist, n, i, sv, sv');
    Assemble(n, s, i, sv', {}, s.hist);
  }

  /** A refused vote changes at most the term, the vote and the role. */
  lemma RefuseKeeps(h: History, n: nat, j: Id, sv: Server, req: Msg)
    requires ServerInv(h, n, j, sv) && req.VoteRequest?
    requires !RequestVote(sv, req.term, req.candidate, req.lastTerm, req.lastIndex).2
    ensures ServerInv(h, n, j, RequestVote(sv, req.term, req.candidate, req.lastTerm, req.lastIndex).0)
  {
    Quiet(h, n, j, sv, RequestVote(sv, req.term, req.candidate, req.lastTerm, req.lastIndex).0);
  }

  /** A granted vote is on record, once. */
  lemma GrantKeeps(h: History, n: nat, j: Id, sv: Server, req: Msg) returns (h': History)
    requires HistoryInv(h, n) && ServerInv(h, n, j, sv) && req.VoteRequest? && MsgInv(h, n, req) && j != req.candidate
    requires RequestVote(sv, req.term, req.candidate, req.lastTerm, req.lastIndex).2
    ensures h' == RecordVote(h, j, req.term, Vote(req.candidate, sv.log))
    ensures HistoryInv(h', n) && Grows(h, h') && forall i: nat :: i != j ==> SameMember(h, h', i)
    ensures ServerInv(h', n, j, RequestVote(sv, req.term, req.candidate, req.lastTerm, req.lastIndex).0)
    ensures (j, req.term) in h'.voted && h'.voted[(j, req.term)].candidate == req.candidate
  {
    var sv' := RequestVote(sv, req.term, req.candidate, req.lastTerm, req.lastIndex).0;
    var v := Vote(req.candidate, sv.log);
    h' := RecordVote(h, j, req.term, v);
    if (j, req.term) in h.voted {
      Quiet(h, n, j, sv, sv');
    } else {
      if req.term !in h.elections { KeepsAtVote(h, n, j, sv, req.term); }
      VoteRecorded(h, n, j, req.term, v);
      VoterInv(h, h', n, j, sv, sv');
    }
  }

  lemma VoterInv(h: History, h': History, n: nat, j: Id, sv: Server, sv': Server)
    requires HistoryInv(h, n) && Grows(h, h') && ServerInv(h, n, j, sv)
    requires h'.elections == h.elections && h'.leaderLog == h.leaderLog && h'.acked == h.acked
    requires sv' == sv.(currentTerm := sv'.currentTerm, votedFor := sv'.votedFor, role := Follower)
    requires sv.currentTerm <= sv'.currentTerm
    requires VotesInv(h', j, sv')
    ensures ServerInv(h', n, j, sv')
  {
    assert forall t: nat :: Acked(h', j, t) == Acked(h, j, t);
    SourcedGrows(h, h', sv.log);
    KeepsGrows(h, h', n, j, sv.log, sv.currentTerm);
    KeepsMore(h', j, sv.log, sv.currentTerm, sv.log, sv'.currentTerm);
  }

  lemma DeliverVoteKeeps(n: nat, s: Cluster, j: Id, req: Msg)
    requires Inv(n, s) && j < n && req in s.net && req.VoteRequest? && j != req.candidate
    ensures Inv(n, DeliverVoteStep(s, j, req)) && Grows(s.hist, DeliverVoteStep(s, j, req).hist)
  {
    var h, sv := s.hist, s.servers[j];
    var (sv', t, ok) := RequestVote(sv, req.term, req.candidate, req.lastTerm, req.lastIndex);
    assert MsgInv(h, n, req);
    assert ServerInv(h, n, j, sv);
    var reply := VoteReply(req.term, req.candidate, j, t, ok);
    if !ok {
      RefuseKeeps(h, n, j, sv, req);
      Assemble(n, s, j, sv', {reply}, h);
    } else {
      var h' := GrantKeeps(h, n, j, sv, req);
      Assemble(n, s, j, sv', {reply}, h');
    }
  }

  lemma AscendingLog(h: History, n: nat, log: seq<Entry>)
    requires HistoryInv(h, n) && Sourced(h, log)
    ensures Ascending(log)
  {
    forall i, j | 0 <= i <= j < |log| ensures log[i].term <= log[j].term {
      var t := log[j].term;
      assert SourcedAt(h, log, j);
      assert LeaderLogOk(h, t);
      assert log[..j + 1][i] == log[i] && log[..j + 1][j] == log[j];
    }
  }

  /** The members counted, the candidate included, all voted for it in this term. */
  lemma CountedVotes(n: nat, s: Cluster, i: Id, answers: Answers, highest: nat) returns (voters: set<Id>)
    requires Inv(n, s) && Enabled(s, CountVotes(i, answers, highest)) && s.servers[i].role == Candidate
    ensures voters == Granted(answers) + {i}
    ensures |voters| == 1 + |Granted(answers)| && voters <= Ids(n)
    ensures forall v: nat :: v in voters ==>
              (v, s.servers[i].currentTerm) in s.hist.voted
                && s.hist.voted[(v, s.servers[i].currentTerm)].candidate == i
  {
    voters := Granted(answers) + {i};
    assert i !in Granted(answers);
    assert ServerInv(s.hist, n, i, s.servers[i]);
    forall v: nat | v in voters
      ensures (v, s.servers[i].currentTerm) in s.hist.voted
      ensures s.hist.voted[(v, s.servers[i].currentTerm)].candidate == i
    {
      if v != i {
        assert MsgInv(s.hist, n, VoteReply(s.servers[i].currentTerm, i, v, answers[v].0, answers[v].1));
      }
    }
  }

  /** With an odd number of members a term is won at most once. */
  lemma FreshTerm(n: nat, h: History, t: nat, leader: Id, voters: set<Id>)
    requires HistoryInv(h, n) && n % 2 == 1
    requires voters <= Ids(n) && WinningCount(n, |voters|)
    requires forall v: nat :: v in voters ==> (v, t) in h.voted && h.voted[(v, t)].candidate == leader
    requires t in h.elections
    ensures h.elections[t].leader == leader
  {
    assert ElectionOk(h, n, t);
    var v := Overlap(n, voters, h.elections[t].voters);
  }

  /** The member's own append: the leader's log and its own acknowledgement grow together. */
  lemma OwnAppendKeeps(n: nat, h: History, i: Id, sv: Server, cmd: Cmd)
    requires HistoryInv(h, n) && ServerInv(h, n, i, sv) && sv.role == Leader && i < n
    ensures var sv' := AppendOwn(sv, i, cmd);
            var h' := RecordAck(RecordLog(h, sv.currentTerm, sv'.log), i, sv.currentTerm, |sv'.log|);
            && HistoryInv(h', n) && Grows(h, h') && ServerInv(h', n, i, sv')
            && forall j: nat :: j != i ==> SameMember(h, h', j)
  {
    var t, e := sv.currentTerm, Entry(sv.currentTerm, cmd);
    OwnAppend(sv.log, e);
    var sv' := AppendOwn(sv, i, cmd);
    var h1 := RecordLog(h, t, sv'.log);
    LogRecorded(h, n, t, e);
    var h' := RecordAck(h1, i, t, |sv'.log|);
    AckRecorded(h1, n, i, t, |sv'.log|);
    AckGrows(h1, i, t, |sv'.log|);
    assert forall j: nat, u: nat :: Acked(h1, j, u) == Acked(h, j, u);
    GrowsTransitive(h, h1, h');
    LogConcerns(h, t, sv'.log);
    AckConcerns(h1, i, t, |sv'.log|);
    SameMembersTransitive(h, h1, h', i);
    KeepsOwn(n, h, h', i, sv, sv');
    OwnerInv(n, h, h', i, sv, sv');
  }

  lemma OwnerInv(n: nat, h: History, h': History, i: Id, sv: Server, sv': Server)
    requires HistoryInv(h', n) && Grows(h, h') && ServerInv(h, n, i, sv) && sv.role == Leader && i < n
    requires h'.voted == h.voted && h'.elections == h.elections && sv.currentTerm in h'.leaderLog
    requires forall u: nat {:trigger Acked(h', i, u)} :: u != sv.currentTerm ==> Acked(h', i, u) == Acked(h, i, u)
    requires sv' == sv.(log := h'.leaderLog[sv.currentTerm],
                 matchIndex := sv.matchIndex[i := Acked(h', i, sv.currentTerm)])
    requires Keeps(h', i, sv'.log, sv'.currentTerm)
    ensures ServerInv(h', n, i, sv')
  {
    var t := sv.currentTerm;
    assert LeaderLogOk(h', t);
    assert VotesInv(h', i, sv');
    assert LeaderInv(h', i, sv');
  }

  lemma KeepsOwn(n: nat, h: History, h': History, i: Id, sv: Server, sv': Server)
    requires HistoryInv(h, n) && Grows(h, h') && ServerInv(h, n, i, sv)
    requires sv'.currentTerm == sv.currentTerm && sv.log <= sv'.log
    requires sv.currentTerm in h'.leaderLog && sv'.log == h'.leaderLog[sv.currentTerm]
    requires forall u: nat :: u != sv.currentTerm ==> Acked(h', i, u) == Acked(h, i, u)
    ensures Keeps(h', i, sv'.log, sv'.currentTerm)
  {
    forall t: nat, k: nat | Point(h', t, k) && k <= Acked(h', i, t)
      ensures Prefix(h', t, k) <= sv'.log || Superseded(h', t, k, sv'.currentTerm)
    {
      if t != sv.currentTerm {
        assert Acked(h, i, t) > 0;
        PointBack(h, h', t, k);
        if !(Prefix(h, t, k) <= sv.log) { SupersededGrows(h, h', t, k, sv.currentTerm); }
      }
    }
  }

  /** The election record of a winner, with its own log acknowledged. */
  lemma WinRecorded(n: nat, h: History, i: Id, sv: Server, voters: set<Id>) returns (h': History)
    requires HistoryInv(h, n) && ServerInv(h, n, i, sv) && i < n && n % 2 == 1
    requires sv.role == Candidate && sv.electing.Some?
    requires voters <= Ids(n) && WinningCount(n, |voters|)
    requires forall v: nat :: v in voters ==>
               (v, sv.currentTerm) in h.voted && h.voted[(v, sv.currentTerm)].candidate == i
    ensures h' == RecordAck(RecordElection(h, sv.currentTerm, Election(i, voters, sv.log)), i, sv.currentTerm, |sv.log|)
    ensures sv.currentTerm !in h.elections && Acked(h, i, sv.currentTerm) == 0
    ensures HistoryInv(h', n) && Grows(h, h') && forall j: nat :: j != i ==> SameMember(h, h', j)
  {
    var t, e := sv.currentTerm, Election(i, voters, sv.log);
    if t in h.elections { FreshTerm(n, h, t, i, voters); }
    AscendingLog(h, n, sv.log);
    assert t !in h.leaderLog;
    forall k | 0 <= k < |sv.log| ensures sv.log[k].term < t {
      assert SourcedAt(h, sv.log, k);
    }
    ElectionRecorded(h, n, t, e);
    var h1 := RecordElection(h, t, e);
    AckRecorded(h1, n, i, t, |sv.log|);
    h' := RecordAck(h1, i, t, |sv.log|);
    GrowsTransitive(h, h1, h');
    ElectionConcerns(h, t, e);
    AckConcerns(h1, i, t, |sv.log|);
    SameMembersTransitive(h, h1, h', i);
  }

  lemma WinnerInv(n: nat, h: History, h': History, i: Id, sv: Server, voters: set<Id>)
    requires HistoryInv(h, n) && ServerInv(h, n, i, sv) && i < n
    requires sv.role == Candidate && sv.electing.Some?
    requires sv.currentTerm !in h.elections && Acked(h, i, sv.currentTerm) == 0
    requires h' == RecordAck(RecordElection(h, sv.currentTerm, Election(i, voters, sv.log)), i, sv.currentTerm,
                 |sv.log|)
    requires HistoryInv(h', n) && Grows(h, h')
    ensures ServerInv(h', n, i, BecomeLeader(sv.(electing := None), i))
  {
    var sv', t := BecomeLeader(sv.(electing := None), i), sv.currentTerm;
    var h1 := RecordElection(h, t, Election(i, voters, sv.log));
    assert forall j: nat, u: nat :: Acked(h1, j, u) == Acked(h, j, u);
    AckGrows(h1, i, t, |sv.log|);
    SourcedGrows(h, h', sv.log);
    KeepsOwn(n, h, h', i, sv, sv');
    assert VotesInv(h', i, sv');
    assert LeaderInv(h', i, sv');
  }

  lemma WinKeeps(n: nat, s: Cluster, i: Id, voters: set<Id>)
    requires Inv(n, s) && i < n && n % 2 == 1
    requires s.servers[i].role == Candidate && s.servers[i].electing.Some?
    requires voters <= Ids(n) && WinningCount(n, |voters|)
    requires forall v: nat :: v in voters ==>
               (v, s.servers[i].currentTerm) in s.hist.voted
                 && s.hist.voted[(v, s.servers[i].currentTerm)].candidate == i
    ensures Wired(s.servers[i], n)
    ensures var sv, t := s.servers[i], s.servers[i].currentTerm;
            var sv' := AppendOwn(BecomeLeader(sv.(electing := None), i), i, NULL_CMD);
            var h := RecordAck(RecordLog(RecordElection(s.hist, t, Election(i, voters, sv.log)), t, sv'.log), i, t,
                |sv'.log|);
            Inv(n, Update(s, i, sv', {}, h)) && Grows(s.hist, h)
  {
    var h, sv := s.hist, s.servers[i];
    assert ServerInv(h, n, i, sv);
    var h' := LeaderEstablished(n, h, i, sv, voters);
    Assemble(n, s, i, AppendOwn(BecomeLeader(sv.(electing := None), i), i, NULL_CMD), {}, h');
  }

  lemma LeaderEstablished(n: nat, h: History, i: Id, sv: Server, voters: set<Id>) returns (h': History)
    requires HistoryInv(h, n) && ServerInv(h, n, i, sv) && i < n && n % 2 == 1
    requires sv.role == Candidate && sv.electing.Some?
    requires voters <= Ids(n) && WinningCount(n, |voters|)
    requires forall v: nat :: v in voters ==>
               (v, sv.currentTerm) in h.voted && h.voted[(v, sv.currentTerm)].candidate == i
    ensures var sv' := AppendOwn(BecomeLeader(sv.(electing := None), i), i, NULL_CMD);
            && h' == RecordAck(RecordLog(RecordElection(h, sv.currentTerm, Election(i, voters, sv.log)),
                sv.currentTerm, sv'.log),
                               i, sv.currentTerm, |sv'.log|)
            && ServerInv(h', n, i, sv')
    ensures HistoryInv(h', n) && Grows(h, h') && forall j: nat :: j != i ==> SameMember(h, h', j)
  {
    var t := sv.currentTerm;
    var h1 := WinRecorded(n, h, i, sv, voters);
    WinnerInv(n, h, h1, i, sv, voters);
    var sv1 := BecomeLeader(sv.(electing := None), i);
    OwnAppendKeeps(n, h1, i, sv1, NULL_CMD);
    var sv' := AppendOwn(sv1, i, NULL_CMD);
    assert |sv'.log| > |sv.log| by { OwnAppend(sv1.log, Entry(t, NULL_CMD)); }
    h' := RecordAck(RecordLog(h1, t, sv'.log), i, t, |sv'.log|);
    GrowsTransitive(h, h1, h');
    SameMembersTransitive(h, h1, h', i);
    AckTwice(RecordElection(h, t, Election(i, voters, sv.log)), i, t, |sv.log|, sv'.log);
  }

  lemma AckTwice(h: History, i: Id, t: nat, k: nat, log: seq<Entry>)
    requires k < |log| && Acked(h, i, t) < |log|
    ensures RecordAck(RecordLog(RecordAck(h, i, t, k), t, log), i, t, |log|)
              == RecordAck(RecordLog(h, t, log), i, t, |log|)
  {
    assert h.acked[(i, t) := k][(i, t) := |log|] == h.acked[(i, t) := |log|];
  }

  lemma CountVotesKeeps(n: nat, s: Cluster, i: Id, answers: Answers, highest: nat)
    requires Inv(n, s) && Enabled(s, CountVotes(i, answers, highest)) && n % 2 == 1
    ensures var s' := CountVotesStep(s, i, answers, highest); Inv(n, s') && Grows(s.hist, s'.hist)
  {
    var h, sv := s.hist, s.servers[i];
    assert ServerInv(h, n, i, sv);
    var sv' := RaftServer.FinishElection(sv, i, 1 + |Granted(answers)|, highest);
    if sv.role == Candidate && WinningCount(n, 1 + |Granted(answers)|) {
      var voters := CountedVotes(n, s, i, answers, highest);
      WinKeeps(n, s, i, voters);
      assert sv' == AppendOwn(BecomeLeader(sv.(electing := None), i), i, NULL_CMD);
      assert sv'.role == Leader;
    } else {
      Quiet(h, n, i, sv, sv');
      Assemble(n, s, i, sv', {}, h);
    }
  }

  lemma ClientAppendKeeps(n: nat, s: Cluster, i: Id, cmd: Cmd)
    requires Inv(n, s) && i < n && Wired(s.servers[i], n)
    ensures Inv(n, ClientAppendStep(s, i, cmd)) && Grows(s.hist, ClientAppendStep(s, i, cmd).hist)
  {
    var h, sv := s.hist, s.servers[i];
    assert ServerInv(h, n, i, sv);
    if sv.role == Leader {
      OwnAppendKeeps(n, h, i, sv, cmd);
      var sv' := AppendOwn(sv, i, cmd);
      Assemble(n, s, i, sv', {}, RecordAck(RecordLog(h, sv.currentTerm, sv'.log), i, sv.currentTerm, |sv'.log|));
    } else {
      Assemble(n, s, i, sv, {}, h);
    }
  }

  lemma SendKeeps(n: nat, s: Cluster, i: Id, m: Id)
    requires Inv(n, s) && Enabled(s, Send(i, m))
    ensures Inv(n, Step(s, Send(i, m))) && Grows(s.hist, Step(s, Send(i, m)).hist)
  {
    var h, sv := s.hist, s.servers[i];
    assert ServerInv(h, n, i, sv);
    var sv' := RaftServer.SendAppend(sv, i, m);
    var c := MakeAppend(sv, i, m).value;
    assert CallOk(h, c);
    assert LeaderInv(h, i, sv');
    assert ServerInv(h, n, i, sv');
    Assemble(n, s, i, sv', {AppendRequest(c)}, h);
  }

  lemma RejectKeeps(h: History, n: nat, sv: Server, c: AppendCall)
    requires ServerInv(h, n, c.to, sv) && RaftServer.AppendToLog(sv, c).1 != Appended
    ensures ServerInv(h, n, c.to, RaftServer.AppendToLog(sv, c).0)
  {
    Quiet(h, n, c.to, sv, RaftServer.AppendToLog(sv, c).0);
  }

  lemma DeliverAppendKeeps(n: nat, s: Cluster, c: AppendCall)
    requires Inv(n, s) && CallOk(s.hist, c) && c.to < n
    ensures Inv(n, DeliverAppendStep(s, c)) && Grows(s.hist, DeliverAppendStep(s, c).hist)
  {
    assert ServerInv(s.hist, n, c.to, s.servers[c.to]);
    if RaftServer.AppendToLog(s.servers[c.to], c).1 == Appended {
      AppendAccepted(n, s, c);
    } else {
      AppendRejected(n, s, c);
    }
  }

  lemma AppendAccepted(n: nat, s: Cluster, c: AppendCall)
    requires Inv(n, s) && CallOk(s.hist, c) && c.to < n && ServerInv(s.hist, n, c.to, s.servers[c.to])
    requires RaftServer.AppendToLog(s.servers[c.to], c).1 == Appended
    ensures Inv(n, DeliverAppendStep(s, c)) && Grows(s.hist, DeliverAppendStep(s, c).hist)
  {
    var h' := AcceptKeeps(n, s.hist, s.servers[c.to], c);
    var msgs := {AppendReply(c, Appended)};
    assert forall m :: m in msgs ==> MsgInv(h', n, m);
    Assemble(n, s, c.to, RaftServer.AppendToLog(s.servers[c.to], c).0, msgs, h');
  }

  lemma AppendRejected(n: nat, s: Cluster, c: AppendCall)
    requires Inv(n, s) && c.to < n && ServerInv(s.hist, n, c.to, s.servers[c.to])
    requires RaftServer.AppendToLog(s.servers[c.to], c).1 != Appended
    ensures Inv(n, DeliverAppendStep(s, c)) && Grows(s.hist, DeliverAppendStep(s, c).hist)
  {
    var (sv', result) := RaftServer.AppendToLog(s.servers[c.to], c);
    RejectKeeps(s.hist, n, s.servers[c.to], c);
    Assemble(n, s, c.to, sv', {AppendReply(c, result)}, s.hist);
  }

  lemma PreviousAgrees(n: nat, h: History, log: seq<Entry>, c: AppendCall)
    requires HistoryInv(h, n) && CallOk(h, c) && Sourced(h, log) && Follows(log, c.prevTerm, c.prevIndex)
    ensures c.prevIndex <= |log| && log[..c.prevIndex] == h.leaderLog[c.term][..c.prevIndex]
  {
    if c.prevIndex > 0 {
      var l, k := h.leaderLog[c.term], c.prevIndex - 1;
      assert LeaderLogOk(h, c.term);
      assert l[..c.prevIndex][k] == l[k];
      SamePrefix(h, log, l, k);
    }
  }

  /** A batch that passes the check makes the receiver agree with its sender's log up to the end of the batch. */
  lemma AcceptedLog(n: nat, h: History, log: seq<Entry>, c: AppendCall) returns (r: seq<Entry>)
    requires HistoryInv(h, n) && CallOk(h, c) && Sourced(h, log) && Follows(log, c.prevTerm, c.prevIndex)
    ensures r == Merge(log, c.prevIndex, c.batch)
    ensures var l, end := h.leaderLog[c.term], c.prevIndex + |c.batch|;
            && l[..end] <= r
            && (r == log || r == l[..end])
            && (log <= r || (r == l[..end] && Differs(log, l, end)))
  {
    r := Merge(log, c.prevIndex, c.batch);
    var l, end := h.leaderLog[c.term], c.prevIndex + |c.batch|;
    PreviousAgrees(n, h, log, c);
    assert TermsDecide(log, l, c.prevIndex, end) by {
      assert LeaderLogOk(h, c.term);
      forall k | c.prevIndex <= k < end && k < |log| && log[k].term == l[k].term ensures log[..k + 1] == l[..k + 1] {
        SamePrefix(h, log, l, k);
      }
    }
    MergeSlice(log, c.prevIndex, c.batch, l);
  }

  lemma AcceptKeeps(n: nat, h: History, sv: Server, c: AppendCall) returns (h': History)
    requires HistoryInv(h, n) && ServerInv(h, n, c.to, sv) && CallOk(h, c)
    requires RaftServer.AppendToLog(sv, c).1 == Appended
    ensures h' == RecordAck(h, c.to, c.term, c.prevIndex + |c.batch|)
    ensures HistoryInv(h', n) && Grows(h, h') && forall j: nat :: j != c.to ==> SameMember(h, h', j)
    ensures ServerInv(h', n, c.to, RaftServer.AppendToLog(sv, c).0)
    ensures MsgInv(h', n, AppendReply(c, Appended))
  {
    var end := c.prevIndex + |c.batch|;
    h' := RecordAck(h, c.to, c.term, end);
    AckRecorded(h, n, c.to, c.term, end);
    AckConcerns(h, c.to, c.term, end);
    AcceptServer(n, h, h', sv, c);
    AcceptReply(n, h, h', sv, c);
  }

  lemma AcceptReply(n: nat, h: History, h': History, sv: Server, c: AppendCall)
    requires HistoryInv(h, n) && ServerInv(h, n, c.to, sv) && CallOk(h, c) && Grows(h, h')
    requires RaftServer.AppendToLog(sv, c).1 == Appended
    requires h' == RecordAck(h, c.to, c.term, c.prevIndex + |c.batch|)
    ensures MsgInv(h', n, AppendReply(c, Appended))
  {
    AckGrows(h, c.to, c.term, c.prevIndex + |c.batch|);
  }

  lemma AcceptServer(n: nat, h: History, h': History, sv: Server, c: AppendCall)
    requires HistoryInv(h, n) && ServerInv(h, n, c.to, sv) && CallOk(h, c) && Grows(h, h')
    requires RaftServer.AppendToLog(sv, c).1 == Appended
    requires h' == RecordAck(h, c.to, c.term, c.prevIndex + |c.batch|)
    ensures ServerInv(h', n, c.to, RaftServer.AppendToLog(sv, c).0)
  {
    AckGrows(h, c.to, c.term, c.prevIndex + |c.batch|);
    MergedInv(n, h, h', sv, c, RaftServer.AppendToLog(sv, c).0);
  }

  /** A follower that merged a leader's batch, whether or not it acknowledged it. */
  lemma MergedInv(n: nat, h: History, h': History, sv: Server, c: AppendCall, sv': Server)
    requires HistoryInv(h, n) && ServerInv(h, n, c.to, sv) && CallOk(h, c) && Grows(h, h')
    requires sv.currentTerm <= c.term && Follows(sv.log, c.prevTerm, c.prevIndex)
    requires h'.voted == h.voted && h'.elections == h.elections
    requires forall t: nat {:trigger Acked(h', c.to, t)} ::
               Acked(h', c.to, t) == Acked(h, c.to, t) || (t == c.term && Acked(h', c.to, t) == c.prevIndex + |c.batch|)
    requires Wired(sv', n) && sv'.role == Follower && sv'.currentTerm == c.term
    requires sv'.log == Merge(sv.log, c.prevIndex, c.batch)
    requires sv'.calls == sv.calls || forall m :: 0 <= m < n ==> sv'.calls[m] == None
    requires c.term == sv.currentTerm ==> sv'.votedFor == sv.votedFor
    ensures ServerInv(h', n, c.to, sv')
  {
    var log := AcceptedSourced(n, h, sv, c);
    SourcedGrows(h, h', log);
    AcceptKeepsPoints(n, h, h', c.to, sv.log, sv.currentTerm, c, log);
    AckedUpTo(h, h', n, sv, c);
    FollowerInv(h, h', n, c.to, sv, sv');
  }

  lemma AckedUpTo(h: History, h': History, n: nat, sv: Server, c: AppendCall)
    requires ServerInv(h, n, c.to, sv) && sv.currentTerm <= c.term
    requires forall t: nat {:trigger Acked(h', c.to, t)} ::
               Acked(h', c.to, t) == Acked(h, c.to, t) || (t == c.term && Acked(h', c.to, t) == c.prevIndex + |c.batch|)
    ensures forall t: nat {:trigger Acked(h', c.to, t)} :: Acked(h', c.to, t) > 0 ==> t <= c.term
  {
    forall t: nat | Acked(h', c.to, t) > 0 ensures t <= c.term {
      assert t == c.term || Acked(h, c.to, t) > 0;
    }
  }

  lemma AcceptedSourced(n: nat, h: History, sv: Server, c: AppendCall) returns (r: seq<Entry>)
    requires HistoryInv(h, n) && CallOk(h, c) && Sourced(h, sv.log) && TermsUpTo(sv.log, c.term)
    requires Follows(sv.log, c.prevTerm, c.prevIndex)
    ensures r == Merge(sv.log, c.prevIndex, c.batch) && Sourced(h, r) && TermsUpTo(r, c.term)
    ensures var l, end := h.leaderLog[c.term], c.prevIndex + |c.batch|;
            l[..end] <= r && (sv.log <= r || (r == l[..end] && Differs(sv.log, l, end)))
  {
    r := AcceptedLog(n, h, sv.log, c);
    assert LeaderLogOk(h, c.term);
    SlicedSourced(h, h.leaderLog[c.term], c.prevIndex + |c.batch|);
  }

  lemma FollowerInv(h: History, h': History, n: nat, j: Id, sv: Server, sv': Server)
    requires ServerInv(h, n, j, sv) && h'.voted == h.voted && h'.elections == h.elections
    requires Wired(sv', n) && sv'.role == Follower && sv'.currentTerm >= sv.currentTerm
    requires sv'.calls == sv.calls || forall m :: 0 <= m < n ==> sv'.calls[m] == None
    requires sv'.currentTerm == sv.currentTerm ==> sv'.votedFor == sv.votedFor
    requires Sourced(h', sv'.log) && TermsUpTo(sv'.log, sv'.currentTerm) && Keeps(h', j, sv'.log, sv'.currentTerm)
    requires forall t: nat {:trigger Acked(h', j, t)} :: Acked(h', j, t) > 0 ==> t <= sv'.currentTerm
    ensures ServerInv(h', n, j, sv')
  {
    assert VotesInv(h', j, sv');
  }

  /** A crash in the middle of a batch leaves what a shorter batch would have made. */
  lemma TornAppendKeeps(n: nat, s: Cluster, c: AppendCall, written: nat)
    requires Inv(n, s) && CallOk(s.hist, c) && c.to < n && s.servers[c.to].currentTerm <= c.term && written <= |c.batch|
    ensures Inv(n, TornAppendStep(s, c, written)) && Grows(s.hist, TornAppendStep(s, c, written).hist)
  {
    var sv, sv' := s.servers[c.to], TornAppendStep(s, c, written).servers[c.to];
    assert ServerInv(s.hist, n, c.to, sv);
    if Follows(sv.log, c.prevTerm, c.prevIndex) {
      var part := c.(batch := c.batch[..written]);
      assert CallOk(s.hist, part);
      MergedInv(n, s.hist, s.hist, sv, part, sv');
      Assemble(n, s, c.to, sv', {}, s.hist);
    } else {
      RestartKeeps(n, s, c.to, c.term, sv'.votedFor);
    }
  }

  lemma SlicedSourced(h: History, log: seq<Entry>, end: nat)
    requires Sourced(h, log) && end <= |log|
    ensures Sourced(h, log[..end])
  {
    var r := log[..end];
    forall k: nat | k < |r| ensures SourcedAt(h, r, k) {
      assert SourcedAt(h, log, k);
      assert r[k] == log[k] && r[..k + 1] == log[..k + 1];
    }
  }

  /** If accepting a batch loses an acknowledged point, the sender's election log did not have it. */
  lemma AcceptKeepsPoints(
      n: nat, h: History, h': History, j: Id, log: seq<Entry>, bound: nat, c: AppendCall, r: seq<Entry>)
    requires HistoryInv(h, n) && Grows(h, h') && h'.elections == h.elections && CallOk(h, c)
    requires Keeps(h, j, log, bound) && bound <= c.term
    requires forall t: nat {:trigger Acked(h, j, t)} :: Acked(h, j, t) > 0 ==> t <= bound
    requires forall t: nat {:trigger Acked(h', j, t)} ::
               Acked(h', j, t) == Acked(h, j, t) || (t == c.term && Acked(h', j, t) == c.prevIndex + |c.batch|)
    requires var l, end := h.leaderLog[c.term], c.prevIndex + |c.batch|;
             l[..end] <= r && (log <= r || (r == l[..end] && Differs(log, l, end)))
    ensures Keeps(h', j, r, c.term)
  {
    var l, end := h.leaderLog[c.term], c.prevIndex + |c.batch|;
    forall t: nat, i: nat | Point(h', t, i) && i <= Acked(h', j, t)
      ensures Prefix(h', t, i) <= r || Superseded(h', t, i, c.term)
    {
      if i > Acked(h, j, t) {
        assert l <= h'.leaderLog[t];
        assert Prefix(h', t, i) == l[..end][..i];
      } else {
        assert Acked(h, j, t) > 0;
        PointBack(h, h', t, i);
        if !(Prefix(h, t, i) <= log) {
          SupersededGrows(h, h', t, i, bound);
        } else if !(log <= r) {
          LostPoint(n, h, h', log, c, t, i);
        }
      }
    }
  }

  lemma LostPoint(n: nat, h: History, h': History, log: seq<Entry>, c: AppendCall, t: nat, i: nat)
    requires HistoryInv(h, n) && h'.elections == h.elections && CallOk(h, c)
    requires Point(h, t, i) && Point(h', t, i) && Prefix(h, t, i) == Prefix(h', t, i)
    requires t <= c.term && Prefix(h, t, i) <= log
    requires Differs(log, h.leaderLog[c.term], c.prevIndex + |c.batch|)
    ensures Prefix(h', t, i) <= h.leaderLog[c.term][..c.prevIndex + |c.batch|] || Superseded(h', t, i, c.term)
  {
    var l, end := h.leaderLog[c.term], c.prevIndex + |c.batch|;
    var m :| 0 <= m < end && m < |log| && log[m] != l[m];
    if !(Prefix(h, t, i) <= l) {
      assert LeaderLogOk(h, c.term);
      assert Skips(h', t, i, c.term);
    }
  }

  /** An answer, or none, moves next and match indices and takes the call back. */
  lemma ReplyKeeps(n: nat, s: Cluster, i: Id, m: Id, count: nat, result: Option<AppendResult>)
    requires Inv(n, s) && i < n && m < n && Wired(s.servers[i], n)
    ensures Inv(n, Update(s, i, HandleReply(s.servers[i], m, count, result), {}, s.hist))
  {
    var h, sv := s.hist, s.servers[i];
    var sv' := HandleReply(sv, m, count, result);
    assert ServerInv(h, n, i, sv);
    assert LeaderInv(h, i, sv');
    assert ServerInv(h, n, i, sv');
    Assemble(n, s, i, sv', {}, h);
  }

  /** Steps that only move the commit index or the applied index. */
  lemma BookkeepingKeeps(n: nat, s: Cluster, i: Id, sv': Server)
    requires Inv(n, s) && i < n
    requires sv' == s.servers[i].(commitIndex := sv'.commitIndex, applied := sv'.applied)
    ensures Inv(n, Update(s, i, sv', {}, s.hist))
  {
    assert ServerInv(s.hist, n, i, s.servers[i]);
    Quiet(s.hist, n, i, s.servers[i], sv');
    Assemble(n, s, i, sv', {}, s.hist);
  }

  /** Every step of the code keeps the invariant, and the history only grows. */
  lemma StepKeeps(n: nat, s: Cluster, a: Action)
    requires Inv(n, s) && Enabled(s, a) && n % 2 == 1
    ensures Inv(n, Step(s, a)) && Grows(s.hist, Step(s, a).hist)
  {
    match a
    case Elect(i) => ElectKeeps(n, s, i);
    case TornElect(i) => RestartKeeps(n, s, i, s.servers[i].currentTerm + 1, s.servers[i].votedFor);
    case TornVote(j, req) => RestartKeeps(n, s, j, req.term, None);
    case TornAppend(req, written) =>
      assert MsgInv(s.hist, n, req);
      TornAppendKeeps(n, s, req.call, written);
    case DeliverVote(j, req) => DeliverVoteKeeps(n, s, j, req);
    case CountVotes(i, answers, highest) => CountVotesKeeps(n, s, i, answers, highest);
    case ClientAppend(i, cmd) => ClientAppendKeeps(n, s, i, cmd);
    case Send(i, m) => SendKeeps(n, s, i, m);
    case DeliverAppend(req) =>
      assert MsgInv(s.hist, n, req);
      DeliverAppendKeeps(n, s, req.call);
    case Receive(i, m, result) => ReplyKeeps(n, s, i, m, |s.servers[i].calls[m].value.batch|, Some(result));
    case CallFailed(i, m) => ReplyKeeps(n, s, i, m, 0, None);
    case Commit(i) => BookkeepingKeeps(n, s, i, AdvanceCommit(s.servers[i]));
    case Learn(i, req) => BookkeepingKeeps(n, s, i, LearnCommit(s.servers[i], req.call.commit));
    case ApplyOne(i) => BookkeepingKeeps(n, s, i, ApplyNext(s.servers[i]));
    case Crash(i) => RestartKeeps(n, s, i, s.servers[i].currentTerm, s.servers[i].votedFor);
  }

  lemma InitInv(n: nat, s: Cluster)
    requires Init(n, s)
    ensures Inv(n, s)
  {
    forall j: nat | j < n ensures ServerInv(s.hist, n, j, s.servers[j]) {
      assert s.servers[j] == Boot(j, n, 0, None, []);
    }
  }

  /** The invariant holds in every state of every run of the code with an odd number of members. */
  lemma {:induction false} RunInv(n: nat, states: seq<Cluster>, actions: seq<Action>, k: nat)
    requires CodeRun(n, states, actions) && n % 2 == 1 && k < |states|
    ensures Inv(n, states[k])
  {
    if k == 0 {
      InitInv(n, states[0]);
    } else {
      RunInv(n, states, actions, k - 1);
      StepKeeps(n, states[k - 1], actions[k - 1]);
    }
  }
}
