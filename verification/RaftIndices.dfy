/** With timely answers, what a leader believes of the other members is what they acknowledged. */
module RaftIndices {
  import opened Common
  import opened RaftLog
  import opened RaftQuorum
  import opened RaftServer
  import opened RaftCluster
  import opened RaftInvariant
  import opened RaftHistory
  import opened RaftSteps

  /** A leader appended `sv'.log` to its log and acknowledged it itself. */
  lemma OwnIndices(h: History, h': History, i: Id, sv: Server, sv': Server)
    requires IndexInv(h, i, sv) && sv.role == Leader && Grows(h, h') && i < |sv.matchIndex| && |sv.log| <= |sv'.log|
    requires sv' == sv.(log := sv'.log, matchIndex := sv.matchIndex[i := |sv'.log|])
    requires |sv'.log| <= Acked(h', i, sv.currentTerm)
    ensures IndexInv(h', i, sv')
  {
    IndexGrows(h, h', i, sv);
    forall m | 0 <= m < |sv'.matchIndex| ensures sv'.matchIndex[m] <= Acked(h', m, sv.currentTerm) {
      assert sv.matchIndex[m] <= Acked(h', m, sv.currentTerm);
    }
  }

  lemma ClientAppendIndices(n: nat, s: Cluster, i: Id, cmd: Cmd)
    requires Inv(n, s) && i < n && Wired(s.servers[i], n) && IndexInv(s.hist, i, s.servers[i])
    requires Grows(s.hist, ClientAppendStep(s, i, cmd).hist)
    ensures IndexInv(ClientAppendStep(s, i, cmd).hist, i, ClientAppendStep(s, i, cmd).servers[i])
  {
    var sv, s' := s.servers[i], ClientAppendStep(s, i, cmd);
    if sv.role == Leader {
      OwnAppend(sv.log, Entry(sv.currentTerm, cmd));
      var sv' := s'.servers[i];
      AckGrows(RecordLog(s.hist, sv.currentTerm, sv'.log), i, sv.currentTerm, |sv'.log|);
      OwnIndices(s.hist, s'.hist, i, sv, sv');
    }
  }

  lemma CountVotesIndices(n: nat, s: Cluster, i: Id, answers: Answers, highest: nat)
    requires Inv(n, s) && Enabled(s, CountVotes(i, answers, highest)) && IndexInv(s.hist, i, s.servers[i])
    requires Grows(s.hist, CountVotesStep(s, i, answers, highest).hist)
    ensures var s' := CountVotesStep(s, i, answers, highest); IndexInv(s'.hist, i, s'.servers[i])
  {
    var sv, s' := s.servers[i], CountVotesStep(s, i, answers, highest);
    assert ServerInv(s.hist, n, i, sv);
    if sv.role == Candidate && WinningCount(n, 1 + |Granted(answers)|) {
      WinnerIndices(n, s, i, Granted(answers) + {i});
    }
  }

  lemma WinnerIndices(n: nat, s: Cluster, i: Id, voters: set<Id>)
    requires i < n && i < |s.servers| && ServerInv(s.hist, n, i, s.servers[i]) && s.servers[i].role == Candidate
    ensures var sv, t := s.servers[i], s.servers[i].currentTerm;
            var sv' := AppendOwn(BecomeLeader(sv.(electing := None), i), i, NULL_CMD);
            IndexInv(RecordAck(RecordLog(RecordElection(s.hist, t, Election(i, voters, sv.log)), t, sv'.log), i, t,
                |sv'.log|),
                     i, sv')
  {
    var sv, t := s.servers[i], s.servers[i].currentTerm;
    var sv' := AppendOwn(BecomeLeader(sv.(electing := None), i), i, NULL_CMD);
    OwnAppend(sv.log, Entry(t, NULL_CMD));
    AckGrows(RecordLog(RecordElection(s.hist, t, Election(i, voters, sv.log)), t, sv'.log), i, t, |sv'.log|);
  }

  lemma ReplyIndices(h: History, n: nat, i: Id, sv: Server, m: Id, count: nat, result: Option<AppendResult>)
    requires IndexInv(h, i, sv) && Wired(sv, n) && m < n
    requires sv.role == Leader && result == Some(Appended) && count > 0 ==>
               sv.nextIndex[m] - 1 + count <= Acked(h, m, sv.currentTerm) <= |sv.log|
    ensures IndexInv(h, i, HandleReply(sv, m, count, result))
  {
  }

  /** A success that counts came in the term of its call, so it moves the indices no further than the member
      acknowledged. */
  lemma ReceiveIndices(n: nat, h: History, i: Id, sv: Server, m: Id, result: AppendResult)
    requires HistoryInv(h, n) && ServerInv(h, n, i, sv) && IndexInv(h, i, sv) && m < n && sv.calls[m].Some?
    requires MsgInv(h, n, AppendReply(sv.calls[m].value, result))
    requires sv.role == Leader && result == Appended && sv.calls[m].value.batch != [] ==>
               sv.calls[m].value.term == sv.currentTerm
    ensures IndexInv(h, i, HandleReply(sv, m, |sv.calls[m].value.batch|, Some(result)))
  {
    var c := sv.calls[m].value;
    if sv.role == Leader && result == Appended && c.batch != [] {
      assert c.to == m;
      assert Acked(h, m, sv.currentTerm) > 0;
    }
    ReplyIndices(h, n, i, sv, m, |c.batch|, Some(result));
  }

  lemma SendIndices(h: History, n: nat, i: Id, sv: Server, m: Id)
    requires IndexInv(h, i, sv) && Wired(sv, n) && m < n && MakeAppend(sv, i, m).Some?
    ensures IndexInv(h, i, RaftServer.SendAppend(sv, i, m))
  {
  }

  lemma ActorIndices(n: nat, s: Cluster, a: Action)
    requires Inv(n, s) && Indices(n, s) && Enabled(s, a) && Timely(s, a)
    requires Grows(s.hist, Step(s, a).hist) && Actor(a) < |s.servers| == |Step(s, a).servers|
    ensures IndexInv(Step(s, a).hist, Actor(a), Step(s, a).servers[Actor(a)])
  {
    var i := Actor(a);
    assert IndexInv(s.hist, i, s.servers[i]) && ServerInv(s.hist, n, i, s.servers[i]);
    match a
    case CountVotes(_, answers, highest) => CountVotesIndices(n, s, i, answers, highest);
    case ClientAppend(_, cmd) => ClientAppendIndices(n, s, i, cmd);
    case Send(_, m) => SendIndices(s.hist, n, i, s.servers[i], m);
    case Receive(_, m, result) =>
      assert MsgInv(s.hist, n, AppendReply(s.servers[i].calls[m].value, result));
      ReceiveIndices(n, s.hist, i, s.servers[i], m, result);
    case CallFailed(_, m) => ReplyIndices(s.hist, n, i, s.servers[i], m, 0, None);
    case _ =>
  }

  /** A step with a timely answer keeps the indices. */
  lemma StepIndices(n: nat, s: Cluster, a: Action)
    requires Inv(n, s) && Indices(n, s) && Enabled(s, a) && Timely(s, a) && n % 2 == 1
    ensures Indices(n, Step(s, a))
  {
    StepKeeps(n, s, a);
    OnlyActor(s, a);
    ActorIndices(n, s, a);
    var s' := Step(s, a);
    forall j: nat | j < n ensures IndexInv(s'.hist, j, s'.servers[j]) {
      if j != Actor(a) {
        assert IndexInv(s.hist, j, s.servers[j]);
        IndexGrows(s.hist, s'.hist, j, s.servers[j]);
      }
    }
  }

  lemma {:induction false} RunIndices(n: nat, states: seq<Cluster>, actions: seq<Action>, k: nat)
    requires Run(n, states, actions) && n % 2 == 1 && k < |states|
    ensures Indices(n, states[k])
  {
    if k == 0 {
      forall j: nat | j < n ensures IndexInv(states[0].hist, j, states[0].servers[j]) {
        assert states[0].servers[j] == Boot(j, n, 0, None, []);
      }
    } else {
      RunIndices(n, states, actions, k - 1);
      RunInv(n, states, actions, k - 1);
      StepIndices(n, states[k - 1], actions[k - 1]);
    }
  }
}
