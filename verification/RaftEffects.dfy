/** What each step does, said of the cluster before and after it: terms, votes, roles, messages and indices, and not
    in terms of the functions that compute them. */
module RaftEffects {
  import opened Common
  import opened RaftLog
  import opened RaftQuorum
  import opened RaftServer
  import opened RaftCluster

  // ---------------------------------------------------------------- elections

  /** A member that stands enters the next term, votes for itself and asks with its last log position. */
  lemma ElectionBegins(s: Cluster, i: Id)
    requires Enabled(s, Elect(i))
    ensures var sv, sv' := s.servers[i], Step(s, Elect(i)).servers[i];
            && sv'.currentTerm == sv.currentTerm + 1 && sv'.votedFor == Some(i) && sv'.log == sv.log
            && sv'.role == Candidate && sv'.leader == None
    ensures var sv := s.servers[i];
            var lastTerm := if |sv.log| == 0 then 0 else sv.log[|sv.log| - 1].term;
            Step(s, Elect(i)).net == s.net + {VoteRequest(sv.currentTerm + 1, i, lastTerm, |sv.log|)}
  {
  }

  /** The voter may grant: it is not ahead, it has no other vote in that term, and its log is not the newer one. */
  ghost predicate MayGrant(sv: Server, req: Msg)
    requires req.VoteRequest?
  {
    && (req.term > sv.currentTerm
        || (req.term == sv.currentTerm && (sv.votedFor == None || sv.votedFor == Some(req.candidate))))
    && (sv.log != [] ==>
          var last := sv.log[|sv.log| - 1].term;
          last < req.lastTerm || (last == req.lastTerm && |sv.log| <= req.lastIndex))
  }

  /** A vote is granted exactly when it may be, and answered with the greater of the two terms. */
  lemma VoteAnswered(s: Cluster, j: Id, req: Msg)
    requires Enabled(s, DeliverVote(j, req))
    ensures var sv, s' := s.servers[j], Step(s, DeliverVote(j, req));
            var sv', ok := s'.servers[j], MayGrant(s.servers[j], req);
            var term := if req.term > sv.currentTerm then req.term else sv.currentTerm;
            && s'.net == s.net + {VoteReply(req.term, req.candidate, j, term, ok)}
            && sv'.currentTerm == term && sv'.log == sv.log
            && sv'.votedFor == (if ok then Some(req.candidate) else if term > sv.currentTerm then None else sv.votedFor)
            && sv'.role == (if ok || term > sv.currentTerm then Follower else sv.role)
  {
  }

  /** In a run of any size, a member that waits for votes does not lead. */
  lemma {:induction false} WaitingDoesNotLead(n: nat, states: seq<Cluster>, actions: seq<Action>, k: nat, i: Id)
    requires CodeRun(n, states, actions) && k < |states| && i < n
    ensures |states[k].servers| == n
    ensures states[k].servers[i].electing.Some? ==> states[k].servers[i].role != Leader
  {
    if k == 0 {
      assert states[0].servers[i] == Boot(i, n, 0, None, []);
    } else {
      WaitingDoesNotLead(n, states, actions, k - 1, i);
      assert states[k] == Step(states[k - 1], actions[k - 1]);
      WaitingStep(states[k - 1], actions[k - 1], i);
    }
  }

  lemma WaitingStep(s: Cluster, a: Action, i: Id)
    requires Enabled(s, a) && i < |s.servers| && (s.servers[i].electing.Some? ==> s.servers[i].role != Leader)
    ensures |Step(s, a).servers| == |s.servers|
    ensures Step(s, a).servers[i].electing.Some? ==> Step(s, a).servers[i].role != Leader
  {
    OnlyActor(s, a);
    match a
    case DeliverVote(j, req) => VoteAnswered(s, j, req);
    case CountVotes(c, answers, highest) => CountedStopsWaiting(s.servers[c], c, 1 + |Granted(answers)|, highest);
    case _ =>
  }

  lemma CountedStopsWaiting(sv: Server, c: Id, oks: nat, highest: nat)
    requires c < |sv.matchIndex|
    ensures FinishElection(sv, c, oks, highest).electing == None
  {
  }

  /** Enough of `n`: half of all members, the candidate included, rounded up. */
  predicate Enough(n: nat, voters: set<Id>) {
    2 * |voters| >= n
  }

  lemma EnoughCounts(n: nat, i: Id, answers: Answers)
    requires n > 0 && i !in answers
    ensures WinningCount(n, 1 + |Granted(answers)|)
            <==> Enough(n, {i} + set m | m in answers && answers[m].1)
  {
    var voters := set m | m in answers && answers[m].1;
    assert voters == Granted(answers);
    assert |{i} + voters| == 1 + |voters|;
  }

  /** The candidate leads afterwards exactly when it still was one and enough voted for it. */
  lemma ElectionWonIff(
      n: nat, states: seq<Cluster>, actions: seq<Action>, k: nat, i: Id, answers: Answers, highest: nat)
    requires CodeRun(n, states, actions) && k < |actions| && actions[k] == CountVotes(i, answers, highest)
    ensures |states[k].servers| == n && |states[k + 1].servers| == n && i < n
    ensures states[k + 1].servers[i].role == Leader
            <==> states[k].servers[i].role == Candidate && Enough(n, {i} + set m | m in answers && answers[m].1)
  {
    assert Enabled(states[k], actions[k]) && states[k + 1] == Step(states[k], actions[k]);
    SizeStays(n, states, actions, k);
    WaitingDoesNotLead(n, states, actions, k, i);
    EnoughCounts(n, i, answers);
    WonIffEnough(states[k].servers[i], i, 1 + |Granted(answers)|, highest);
  }

  lemma WonIffEnough(sv: Server, i: Id, oks: nat, highest: nat)
    requires i < |sv.matchIndex| && sv.role != Leader
    ensures FinishElection(sv, i, oks, highest).role == Leader
            <==> sv.role == Candidate && WinningCount(|sv.matchIndex|, oks)
  {
  }

  lemma {:induction false} SizeStays(n: nat, states: seq<Cluster>, actions: seq<Action>, k: nat)
    requires CodeRun(n, states, actions) && k < |states|
    ensures |states[k].servers| == n
  {
    if k > 0 {
      SizeStays(n, states, actions, k - 1);
      assert states[k] == Step(states[k - 1], actions[k - 1]);
      OnlyActor(states[k - 1], actions[k - 1]);
    }
  }

  /** `t` is the greatest of the old term and the terms that were answered. */
  ghost predicate GreatestTerm(t: nat, was: nat, answers: Answers) {
    && was <= t && (forall m :: m in answers ==> answers[m].0 <= t)
    && (t == was || exists m :: m in answers && answers[m].0 == t)
  }

  /** A lost election: the term becomes the greatest one heard of, the candidacy ends if that is a later one, and vote
      and log stay. */
  lemma ElectionLost(s: Cluster, i: Id, answers: Answers, highest: nat)
    requires Enabled(s, CountVotes(i, answers, highest))
    requires Step(s, CountVotes(i, answers, highest)).servers[i].role != Leader
    ensures var sv, sv' := s.servers[i], Step(s, CountVotes(i, answers, highest)).servers[i];
            && GreatestTerm(sv'.currentTerm, sv.currentTerm, answers)
            && sv'.votedFor == sv.votedFor && sv'.log == sv.log
            && sv'.role == (if exists m :: m in answers && answers[m].0 > sv.currentTerm then Follower else sv.role)
  {
    var sv := s.servers[i];
    LostEffect(sv, i, 1 + |Granted(answers)|, highest);
    if highest > sv.currentTerm {
      var m :| m in answers && answers[m].0 == highest;
    }
  }

  lemma LostEffect(sv: Server, i: Id, oks: nat, highest: nat)
    requires i < |sv.matchIndex| && FinishElection(sv, i, oks, highest).role != Leader
    ensures var sv' := FinishElection(sv, i, oks, highest);
            && sv'.votedFor == sv.votedFor && sv'.log == sv.log
            && sv'.currentTerm == (if highest > sv.currentTerm then highest else sv.currentTerm)
            && sv'.role == (if highest > sv.currentTerm then Follower else sv.role)
  {
  }

  /** A won election: term and vote stay, the log gets an empty entry of the term, and every other member is taken to
      have nothing and is tried from the old end of the log on. */
  lemma ElectionWon(n: nat, states: seq<Cluster>, actions: seq<Action>, k: nat, i: Id, answers: Answers, highest: nat)
    requires CodeRun(n, states, actions) && k < |actions| && actions[k] == CountVotes(i, answers, highest)
    requires i < |states[k].servers| && i < |states[k + 1].servers| && states[k + 1].servers[i].role == Leader
    ensures var sv, sv' := states[k].servers[i], states[k + 1].servers[i];
            && sv'.currentTerm == sv.currentTerm && sv'.votedFor == sv.votedFor && sv'.leader == Some(i)
            && sv'.log == sv.log + [Entry(sv.currentTerm, "")]
            && |sv'.nextIndex| == n && |sv'.matchIndex| == n && i < n && sv'.matchIndex[i] == |sv.log| + 1
            && forall m :: 0 <= m < n && m != i ==> sv'.nextIndex[m] == |sv.log| + 1 && sv'.matchIndex[m] == 0
  {
    assert Enabled(states[k], actions[k]) && states[k + 1] == Step(states[k], actions[k]);
    SizeStays(n, states, actions, k);
    WaitingDoesNotLead(n, states, actions, k, i);
    WonEffect(states[k].servers[i], i, 1 + |Granted(answers)|, highest);
  }

  lemma WonEffect(sv: Server, i: Id, oks: nat, highest: nat)
    requires i < |sv.matchIndex| == |sv.nextIndex| && sv.role != Leader
    requires FinishElection(sv, i, oks, highest).role == Leader
    ensures var sv' := FinishElection(sv, i, oks, highest);
            && sv'.currentTerm == sv.currentTerm && sv'.votedFor == sv.votedFor && sv'.leader == Some(i)
            && sv'.log == sv.log + [Entry(sv.currentTerm, "")]
            && |sv'.nextIndex| == |sv.nextIndex| && |sv'.matchIndex| == |sv.matchIndex|
            && sv'.matchIndex[i] == |sv.log| + 1
            && forall m :: 0 <= m < |sv.matchIndex| && m != i ==>
                 sv'.nextIndex[m] == |sv.log| + 1 && sv'.matchIndex[m] == 0
  {
    OwnAppend(sv.log, Entry(sv.currentTerm, NULL_CMD));
  }

  // ---------------------------------------------------------------- replication

  /** The call that goes out carries the leader's term, name and commit index, and the log from the next index on: ten
      entries, or fewer up to its end. */
  lemma BatchSent(s: Cluster, i: Id, m: Id, c: AppendCall)
    requires Enabled(s, Send(i, m)) && Step(s, Send(i, m)).servers[i].calls[m] == Some(c)
    ensures Step(s, Send(i, m)).net == s.net + {AppendRequest(c)}
    ensures var sv := s.servers[i];
            && c.term == sv.currentTerm && c.leader == i && c.to == m && c.commit == sv.commitIndex
            && c.prevIndex + 1 == sv.nextIndex[m] && c.prevIndex + |c.batch| <= |sv.log|
            && c.prevTerm == (if c.prevIndex == 0 then 0 else sv.log[c.prevIndex - 1].term)
            && |c.batch| <= 10 && (|c.batch| < 10 ==> c.prevIndex + |c.batch| == |sv.log|)
            && forall k :: 0 <= k < |c.batch| ==> c.batch[k] == sv.log[c.prevIndex + k]
  {
  }

  /** The batch fits: it begins at the start of the log, or follows an entry that is there with the right term. */
  ghost predicate Fits(sv: Server, c: AppendCall) {
    if c.prevIndex == 0 then c.prevTerm == 0
    else c.prevIndex <= |sv.log| && sv.log[c.prevIndex - 1].term == c.prevTerm
  }

  /** A call of an earlier term is refused and changes nothing; any other makes the receiver follow its sender in its
      term, and is taken exactly when it fits. */
  lemma AppendAnswered(s: Cluster, req: Msg)
    requires Enabled(s, DeliverAppend(req))
    ensures var c, s' := req.call, Step(s, DeliverAppend(req));
            var sv, sv' := s.servers[c.to], s'.servers[c.to];
            if c.term < sv.currentTerm then sv' == sv && s'.net == s.net + {AppendReply(c, BadTerm)}
            else
              && sv'.currentTerm == c.term && sv'.leader == Some(c.leader) && sv'.role == Follower
              && sv'.votedFor == (if c.term > sv.currentTerm then None else sv.votedFor)
              && s'.net == s.net + {AppendReply(c, if Fits(sv, c) then Appended else OutOfSequence)}
              && (!Fits(sv, c) ==> sv'.log == sv.log)
              && (Fits(sv, c) ==>
                    && |sv'.log| >= c.prevIndex + |c.batch|
                    && forall k :: 0 <= k < |c.batch| ==> sv'.log[c.prevIndex + k].term == c.batch[k].term)
  {
    var c := req.call;
    var sv := s.servers[c.to];
    if Fits(sv, c) {
      MergeAgrees(sv.log, c.prevIndex, c.batch);
    }
  }

  /** While leading: a success moves the next index past what was sent and the match index to it, a refusal takes the
      next index one back if there is a place to go, and no answer moves anything. */
  lemma AnswerHandled(s: Cluster, i: Id, m: Id, result: AppendResult)
    requires Enabled(s, Receive(i, m, result))
    ensures var sv, sv' := s.servers[i], Step(s, Receive(i, m, result)).servers[i];
            var count := |sv.calls[m].value.batch|;
            && sv'.calls == sv.calls[m := None] && sv'.log == sv.log
            && |sv'.nextIndex| == |sv.nextIndex| && |sv'.matchIndex| == |sv.matchIndex|
            && (forall k :: 0 <= k < |sv.nextIndex| && k != m ==> sv'.nextIndex[k] == sv.nextIndex[k])
            && (forall k :: 0 <= k < |sv.matchIndex| && k != m ==> sv'.matchIndex[k] == sv.matchIndex[k])
            && (sv.role == Leader && result == Appended ==>
                  && sv'.nextIndex[m] == sv.nextIndex[m] + count
                  && sv'.matchIndex[m] == if count == 0 then sv.matchIndex[m] else sv.nextIndex[m] + count - 1)
            && (sv.role == Leader && result == OutOfSequence ==>
                  sv'.nextIndex[m] == if 1 < sv.nextIndex[m] <= |sv.log| + 1 then sv.nextIndex[m] - 1
                                      else sv.nextIndex[m])
            && (sv.role != Leader || result == BadTerm ==>
                  sv'.nextIndex == sv.nextIndex && sv'.matchIndex == sv.matchIndex)
            && (result != Appended ==> sv'.matchIndex == sv.matchIndex)
  {
  }

  /** A call that fails moves nothing; it is only no longer in flight. */
  lemma FailureHandled(s: Cluster, i: Id, m: Id)
    requires Enabled(s, CallFailed(i, m))
    ensures var sv, s' := s.servers[i], Step(s, CallFailed(i, m));
            s'.servers[i] == sv.(calls := sv.calls[m := None]) && s'.net == s.net
  {
  }

  /** A leader logs a client's command as one entry of its term and counts itself; others take nothing. */
  lemma CommandTaken(s: Cluster, i: Id, cmd: Cmd)
    requires Enabled(s, ClientAppend(i, cmd))
    ensures var sv, sv' := s.servers[i], Step(s, ClientAppend(i, cmd)).servers[i];
            if sv.role != Leader then sv' == sv
            else sv' == sv.(log := sv.log + [Entry(sv.currentTerm, cmd)],
                            matchIndex := sv.matchIndex[i := |sv.log| + 1])
  {
    OwnAppend(s.servers[i].log, Entry(s.servers[i].currentTerm, cmd));
  }

  // ---------------------------------------------------------------- commitment

  /** At a leader, the commit index becomes the greatest index that it had or that a quorum of match indices reaches;
      elsewhere it stays. */
  lemma CommitMoved(s: Cluster, i: Id)
    requires Enabled(s, Commit(i))
    ensures var sv, sv' := s.servers[i], Step(s, Commit(i)).servers[i];
            && sv' == sv.(commitIndex := sv'.commitIndex)
            && (sv.role != Leader ==> sv'.commitIndex == sv.commitIndex)
            && (sv.role == Leader ==>
                  forall x: nat :: x <= sv'.commitIndex
                                   <==> x <= sv.commitIndex || 2 * |Reaching(sv.matchIndex, x)| >= |sv.matchIndex|)
  {
    AdvancedTo(s.servers[i]);
  }

  lemma AdvancedTo(sv: Server)
    requires sv.matchIndex != []
    ensures var sv' := AdvanceCommit(sv);
            && sv' == sv.(commitIndex := sv'.commitIndex)
            && (sv.role != Leader ==> sv'.commitIndex == sv.commitIndex)
            && (sv.role == Leader ==>
                  forall x: nat :: x <= sv'.commitIndex
                                   <==> x <= sv.commitIndex || 2 * |Reaching(sv.matchIndex, x)| >= |sv.matchIndex|)
  {
    QuorumReaches(sv.matchIndex);
  }

  lemma QuorumReaches(matched: seq<nat>)
    requires matched != []
    ensures |SortDescending(matched)| == |matched|
    ensures var ci := SortDescending(matched)[Quorum(|matched|) - 1];
            forall x: nat :: x <= ci <==> 2 * |Reaching(matched, x)| >= |matched|
  {
    var n, sorted := |matched|, SortDescending(matched);
    SameSize(sorted, matched);
    CommitSelection(matched, sorted, Quorum(n));
    forall x: nat ensures |Reaching(matched, x)| >= Quorum(n) <==> 2 * |Reaching(matched, x)| >= n {
      QuorumIsHalf(n, |Reaching(matched, x)|);
    }
  }

  lemma QuorumIsHalf(n: nat, count: nat)
    requires n > 0
    ensures count >= Quorum(n) <==> 2 * count >= n
  {
  }

  /** A follower ends with the greater of its commit index and the one its leader reported; others stay. */
  lemma CommitLearned(s: Cluster, i: Id, req: Msg)
    requires Enabled(s, Learn(i, req))
    ensures var sv, sv' := s.servers[i], Step(s, Learn(i, req)).servers[i];
            && sv' == sv.(commitIndex := sv'.commitIndex)
            && (sv.role != Follower ==> sv'.commitIndex == sv.commitIndex)
            && (sv.role == Follower ==>
                  && sv'.commitIndex >= sv.commitIndex && sv'.commitIndex >= req.call.commit
                  && sv'.commitIndex in {sv.commitIndex, req.call.commit})
  {
  }

  // ---------------------------------------------------------------- restarts

  /** After a crash the durable state is there and everything else starts over. */
  lemma Restarted(s: Cluster, i: Id)
    requires Enabled(s, Crash(i))
    ensures var sv, sv' := s.servers[i], Step(s, Crash(i)).servers[i];
            && sv'.currentTerm == sv.currentTerm && sv'.votedFor == sv.votedFor && sv'.log == sv.log
            && sv'.role == Follower && sv'.leader == None && sv'.electing == None
            && sv'.commitIndex == 0 && sv'.applied == 0
            && forall m :: 0 <= m < |sv'.calls| ==> sv'.calls[m] == None
  {
  }
}
