/** Where things come from, over every run of the code and any number of members: calls, commit indices, the terms that
    voters report, and whom a member takes for its leader. */
module RaftOrigins {
  import opened Common
  import opened RaftLog
  import opened RaftQuorum
  import opened RaftServer
  import opened RaftCluster
  import opened RaftSafety
  import opened RaftEffects

  // ---------------------------------------------------------------- calls

  /** Step `a` is the one in which the call was sent, by a leader of its term with its commit index. */
  ghost predicate SentAt(states: seq<Cluster>, actions: seq<Action>, a: nat, c: AppendCall) {
    && a < |actions| && a < |states| && actions[a] == Send(c.leader, c.to) && c.leader < |states[a].servers|
    && var sv := states[a].servers[c.leader];
    sv.role == Leader && sv.currentTerm == c.term && sv.commitIndex == c.commit
  }

  lemma NewRequest(s: Cluster, a: Action, c: AppendCall)
    requires Enabled(s, a) && AppendRequest(c) in Step(s, a).net && AppendRequest(c) !in s.net
    ensures a == Send(c.leader, c.to) && c.leader < |s.servers|
    ensures var sv := s.servers[c.leader];
            sv.role == Leader && sv.currentTerm == c.term && sv.commitIndex == c.commit
  {
    match a
    case DeliverVote(j, req) => VoteAnswered(s, j, req);
    case DeliverAppend(req) => AppendAnswered(s, req);
    case _ =>
  }

  lemma {:induction false} RequestSent(n: nat, states: seq<Cluster>, actions: seq<Action>, k: nat, c: AppendCall)
    requires CodeRun(n, states, actions) && k < |states| && AppendRequest(c) in states[k].net
    ensures exists a: nat :: a < k && SentAt(states, actions, a, c)
  {
    if k > 0 {
      assert states[k] == Step(states[k - 1], actions[k - 1]);
      if AppendRequest(c) in states[k - 1].net {
        RequestSent(n, states, actions, k - 1, c);
        var a: nat :| a < k - 1 && SentAt(states, actions, a, c);
      } else {
        NewRequest(states[k - 1], actions[k - 1], c);
        assert SentAt(states, actions, k - 1, c);
      }
    }
  }

  lemma NewReply(s: Cluster, a: Action, c: AppendCall, result: AppendResult)
    requires Enabled(s, a) && AppendReply(c, result) in Step(s, a).net
    ensures s.net <= Step(s, a).net
    ensures AppendReply(c, result) in s.net || AppendRequest(c) in s.net
  {
    match a
    case DeliverVote(j, req) => VoteAnswered(s, j, req);
    case DeliverAppend(req) => AppendAnswered(s, req);
    case _ =>
  }

  /** Every answer on the network is to a call that was sent. */
  lemma {:induction false} ReplySent(
      n: nat, states: seq<Cluster>, actions: seq<Action>, k: nat, c: AppendCall, result: AppendResult)
    requires CodeRun(n, states, actions) && k < |states| && AppendReply(c, result) in states[k].net
    ensures exists a: nat :: a < k && SentAt(states, actions, a, c)
  {
    if k > 0 {
      assert states[k] == Step(states[k - 1], actions[k - 1]);
      NewReply(states[k - 1], actions[k - 1], c, result);
      if AppendReply(c, result) in states[k - 1].net {
        ReplySent(n, states, actions, k - 1, c, result);
      } else {
        RequestSent(n, states, actions, k - 1, c);
      }
      var a: nat :| a < k - 1 && SentAt(states, actions, a, c);
    }
  }

  // ---------------------------------------------------------------- commit indices

  /** A step that raises a member's commit index on word from a leader raises it to what that leader's commit index was
      when it sent the call; a follower ends no lower than that. */
  lemma LearnRaises(n: nat, states: seq<Cluster>, actions: seq<Action>, k: nat, i: Id, req: Msg)
    requires CodeRun(n, states, actions) && k < |actions| && actions[k] == Learn(i, req)
    ensures i < |states[k].servers| == |states[k + 1].servers| && req.AppendReply?
    ensures var was, now := states[k].servers[i], states[k + 1].servers[i];
            && was.commitIndex <= now.commitIndex
            && (was.role == Follower ==> now.commitIndex >= req.call.commit)
            && (was.commitIndex < now.commitIndex ==> now.commitIndex == req.call.commit)
    ensures exists a: nat :: a < k && SentAt(states, actions, a, req.call)
  {
    assert Enabled(states[k], actions[k]) && states[k + 1] == Step(states[k], actions[k]);
    CommitLearned(states[k], i, req);
    ReplySent(n, states, actions, k, req.call, req.result);
  }

  /** Step `j` moves the commit index of leader `l` up to `x`. */
  ghost predicate CommitSets(states: seq<Cluster>, actions: seq<Action>, j: nat, l: Id, x: nat) {
    && j < |actions| && j + 1 < |states| && actions[j] == Commit(l)
    && l < |states[j].servers| && l < |states[j + 1].servers| && states[j].servers[l].role == Leader
    && states[j].servers[l].commitIndex < states[j + 1].servers[l].commitIndex == x
  }

  /** Nothing but commitment, word from a leader and a restart touches a commit index. */
  lemma CommitStays(s: Cluster, a: Action, i: Id)
    requires Enabled(s, a) && i < |s.servers|
    ensures |Step(s, a).servers| == |s.servers|
    ensures var sv, sv' := s.servers[i], Step(s, a).servers[i];
            sv'.commitIndex == sv.commitIndex || sv'.commitIndex == 0 || a == Commit(i) || (a.Learn? && a.i == i)
  {
    OnlyActor(s, a);
    match a
    case CountVotes(_, answers, highest) => if a.i == i { ElectionApplies(s, i, answers, highest, NULL_CMD); }
    case ClientAppend(_, cmd) => if a.i == i { ElectionApplies(s, i, map[], 0, cmd); }
    case DeliverVote(j, req) => if j == i { DeliveryApplies(s.servers[i], req, AppendCall(0, 0, 0, 0, 0, 0, [])); }
    case DeliverAppend(req) =>
      if req.call.to == i { DeliveryApplies(s.servers[i], VoteRequest(0, 0, 0, 0), req.call); }
    case _ =>
  }

  /** Every commit index, of any member at any moment, is 0 or one that a leader's commitment set before. */
  lemma {:induction false} CommitOrigin(n: nat, states: seq<Cluster>, actions: seq<Action>, k: nat, i: Id)
    requires CodeRun(n, states, actions) && k < |states| && i < n
    ensures |states[k].servers| == n
    ensures var x := states[k].servers[i].commitIndex;
            x == 0 || exists j: nat, l: nat :: j < k && CommitSets(states, actions, j, l, x)
    decreases k, 1
  {
    SizeStays(n, states, actions, k);
    if k == 0 {
      assert states[0].servers[i] == Boot(i, n, 0, None, []);
    } else {
      CommitOrigin(n, states, actions, k - 1, i);
      var s, a := states[k - 1], actions[k - 1];
      assert Enabled(s, a) && states[k] == Step(s, a);
      CommitStays(s, a, i);
      if states[k].servers[i].commitIndex != s.servers[i].commitIndex && states[k].servers[i].commitIndex != 0 {
        CommitCame(n, states, actions, k, i);
      }
    }
  }

  lemma {:induction false} CommitCame(n: nat, states: seq<Cluster>, actions: seq<Action>, k: nat, i: Id)
    requires CodeRun(n, states, actions) && 0 < k < |states| && i < n == |states[k].servers| == |states[k - 1].servers|
    requires states[k].servers[i].commitIndex != states[k - 1].servers[i].commitIndex
    requires actions[k - 1] == Commit(i) || (actions[k - 1].Learn? && actions[k - 1].i == i)
    ensures var x := states[k].servers[i].commitIndex;
            x == 0 || exists j: nat, l: nat :: j < k && CommitSets(states, actions, j, l, x)
    decreases k, 0
  {
    var s, act, x := states[k - 1], actions[k - 1], states[k].servers[i].commitIndex;
    assert Enabled(s, act) && states[k] == Step(s, act);
    if act == Commit(i) {
      CommitMoved(s, i);
      assert x >= s.servers[i].commitIndex;
      assert CommitSets(states, actions, k - 1, i, x);
    } else {
      LearnRaises(n, states, actions, k - 1, i, act.req);
      var a: nat :| a < k - 1 && SentAt(states, actions, a, act.req.call);
      SizeStays(n, states, actions, a);
      CommitOrigin(n, states, actions, a, act.req.call.leader);
      if x != 0 {
        var j: nat, l: nat :| j < a && CommitSets(states, actions, j, l, x);
      }
    }
  }

  // ---------------------------------------------------------------- terms reported

  /** No step lowers a term. */
  lemma TermGrows(s: Cluster, a: Action, i: Id)
    requires Enabled(s, a) && i < |s.servers|
    ensures |Step(s, a).servers| == |s.servers|
    ensures s.servers[i].currentTerm <= Step(s, a).servers[i].currentTerm
  {
    OnlyActor(s, a);
    match a
    case DeliverVote(j, req) => VoteAnswered(s, j, req);
    case DeliverAppend(req) => AppendAnswered(s, req);
    case CountVotes(c, answers, highest) => CountedTerm(s.servers[c], c, 1 + |Granted(answers)|, highest);
    case _ =>
  }

  lemma CountedTerm(sv: Server, c: Id, oks: nat, highest: nat)
    requires c < |sv.matchIndex|
    ensures sv.currentTerm <= FinishElection(sv, c, oks, highest).currentTerm
  {
  }

  lemma {:induction false} TermsGrow(n: nat, states: seq<Cluster>, actions: seq<Action>, a: nat, b: nat, i: Id)
    requires CodeRun(n, states, actions) && a <= b < |states| && i < n
    ensures |states[a].servers| == n == |states[b].servers|
    ensures states[a].servers[i].currentTerm <= states[b].servers[i].currentTerm
    decreases b
  {
    SizeStays(n, states, actions, a);
    SizeStays(n, states, actions, b);
    if a < b {
      TermsGrow(n, states, actions, a, b - 1, i);
      assert states[b] == Step(states[b - 1], actions[b - 1]);
      TermGrows(states[b - 1], actions[b - 1], i);
    }
  }

  /** The voter was in term `rep` in state `a`. */
  ghost predicate InTerm(states: seq<Cluster>, a: nat, voter: Id, rep: nat) {
    a < |states| && voter < |states[a].servers| && states[a].servers[voter].currentTerm == rep
  }

  lemma NewVoteReply(s: Cluster, a: Action, t: nat, c: Id, voter: Id, rep: nat, ok: bool)
    requires Enabled(s, a) && VoteReply(t, c, voter, rep, ok) in Step(s, a).net
    requires VoteReply(t, c, voter, rep, ok) !in s.net
    ensures voter < |Step(s, a).servers| && Step(s, a).servers[voter].currentTerm == rep
    ensures t <= rep && (ok ==> t == rep)
  {
    OnlyActor(s, a);
    match a
    case DeliverVote(j, req) => VoteAnswered(s, j, req);
    case DeliverAppend(req) => AppendAnswered(s, req);
    case _ =>
  }

  /** The term a voter reports is its own, at the moment it answers; it is not below the one it was asked for, and a
      granted vote reports just that one. */
  lemma {:induction false} TermReported(n: nat, states: seq<Cluster>, actions: seq<Action>, k: nat,
                                        t: nat, c: Id, voter: Id, rep: nat, ok: bool)
    requires CodeRun(n, states, actions) && k < |states| && VoteReply(t, c, voter, rep, ok) in states[k].net
    ensures t <= rep && (ok ==> t == rep)
    ensures exists a: nat :: a <= k && InTerm(states, a, voter, rep)
  {
    if k > 0 {
      assert states[k] == Step(states[k - 1], actions[k - 1]);
      if VoteReply(t, c, voter, rep, ok) in states[k - 1].net {
        TermReported(n, states, actions, k - 1, t, c, voter, rep, ok);
        var a: nat :| a <= k - 1 && InTerm(states, a, voter, rep);
      } else {
        NewVoteReply(states[k - 1], actions[k - 1], t, c, voter, rep, ok);
        assert InTerm(states, k, voter, rep);
      }
    }
  }

  // ---------------------------------------------------------------- whom a member follows

  /** Member `l` led, in state `a`, a term not after `term`. */
  ghost predicate Led(states: seq<Cluster>, a: nat, l: Id, term: nat) {
    && a < |states| && l < |states[a].servers|
    && states[a].servers[l].role == Leader && states[a].servers[l].currentTerm <= term
  }

  /** A step leaves the name a member has for its leader, clears it, or sets it by winning or by a leader's call. */
  lemma NameComes(s: Cluster, a: Action, i: Id)
    requires Enabled(s, a) && i < |s.servers|
    requires a.CountVotes? && a.i == i ==> s.servers[i].role != Leader
    ensures |Step(s, a).servers| == |s.servers|
    ensures var sv, sv' := s.servers[i], Step(s, a).servers[i];
            || sv'.leader == sv.leader || sv'.leader == None
            || (sv'.leader == Some(i) && sv'.role == Leader)
            || (a.DeliverAppend? && a.req.AppendRequest? && a.req in s.net && sv'.leader == Some(a.req.call.leader)
                && sv'.currentTerm == a.req.call.term)
  {
    OnlyActor(s, a);
    match a
    case DeliverAppend(req) => if req.call.to == i { AppendAnswered(s, req); }
    case CountVotes(c, answers, highest) => CountedName(s.servers[c], c, 1 + |Granted(answers)|, highest);
    case ClientAppend(c, cmd) => AppendedName(s.servers[c], c, cmd);
    case DeliverVote(j, req) => VotedName(s.servers[j], req);
    case _ =>
  }

  lemma CountedName(sv: Server, c: Id, oks: nat, highest: nat)
    requires c < |sv.matchIndex|
    ensures var sv' := FinishElection(sv, c, oks, highest);
            sv'.leader == sv.leader || (sv'.leader == Some(c) && sv'.role == Leader)
  {
  }

  lemma AppendedName(sv: Server, c: Id, cmd: Cmd)
    requires c < |sv.matchIndex|
    ensures RaftServer.Append(sv, c, cmd).leader == sv.leader
  {
  }

  lemma VotedName(sv: Server, req: Msg)
    requires req.VoteRequest?
    ensures RequestVote(sv, req.term, req.candidate, req.lastTerm, req.lastIndex).0.leader == sv.leader
  {
  }

  /** Whomever a member takes for its leader has led, before, a term not after the member's own. */
  lemma {:induction false} LeaderNamed(n: nat, states: seq<Cluster>, actions: seq<Action>, k: nat, i: Id, l: Id)
    requires CodeRun(n, states, actions) && k < |states| && i < n == |states[k].servers|
    requires states[k].servers[i].leader == Some(l)
    ensures exists a: nat :: a <= k && Led(states, a, l, states[k].servers[i].currentTerm)
  {
    if k > 0 {
      var s, act := states[k - 1], actions[k - 1];
      assert Enabled(s, act) && states[k] == Step(s, act);
      WaitingDoesNotLead(n, states, actions, k - 1, i);
      NameComes(s, act, i);
      TermGrows(s, act, i);
      if s.servers[i].leader == Some(l) {
        LeaderNamed(n, states, actions, k - 1, i, l);
        var a: nat :| a <= k - 1 && Led(states, a, l, s.servers[i].currentTerm);
        assert Led(states, a, l, states[k].servers[i].currentTerm);
      } else if l == i && states[k].servers[i].role == Leader {
        assert Led(states, k, l, states[k].servers[i].currentTerm);
      } else {
        RequestSent(n, states, actions, k - 1, act.req.call);
        var a: nat :| a < k - 1 && SentAt(states, actions, a, act.req.call);
        assert Led(states, a, l, states[k].servers[i].currentTerm);
      }
    }
  }
}
