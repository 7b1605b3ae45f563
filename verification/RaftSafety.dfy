/** The guarantees of the protocol, over every run of a cluster with an odd number of members. */
module RaftSafety {
  import opened Common
  import opened RaftLog
  import opened RaftQuorum
  import opened RaftServer
  import opened RaftCluster
  import opened RaftInvariant
  import opened RaftHistory
  import opened RaftSteps
  import opened RaftIndices

  lemma {:induction false} RunGrows(n: nat, states: seq<Cluster>, actions: seq<Action>, a: nat, b: nat)
    requires CodeRun(n, states, actions) && n % 2 == 1 && a <= b < |states|
    ensures Grows(states[a].hist, states[b].hist)
    decreases b - a
  {
    if a < b {
      RunGrows(n, states, actions, a, b - 1);
      RunInv(n, states, actions, b - 1);
      StepKeeps(n, states[b - 1], actions[b - 1]);
      GrowsTransitive(states[a].hist, states[b - 1].hist, states[b].hist);
    }
  }

  // ---------------------------------------------------------------- elections

  /** Whoever leads term `t` in some state of the run is on record in every later state. */
  lemma LeaderOnRecord(n: nat, states: seq<Cluster>, actions: seq<Action>, a: nat, b: nat, i: Id)
    requires CodeRun(n, states, actions) && n % 2 == 1 && a <= b < |states| && i < n
    requires |states[a].servers| == n && states[a].servers[i].role == Leader
    ensures var t, h := states[a].servers[i].currentTerm, states[b].hist;
            && t in h.elections && h.elections[t].leader == i
            && t in h.leaderLog && states[a].servers[i].log <= h.leaderLog[t]
            && h.elections[t].base <= states[a].servers[i].log
  {
    RunInv(n, states, actions, a);
    RunGrows(n, states, actions, a, b);
    assert ServerInv(states[a].hist, n, i, states[a].servers[i]);
    assert LeaderLogOk(states[a].hist, states[a].servers[i].currentTerm);
  }

  /** Election safety: in the whole run, crashes and restarts included, a term has at most one leader. */
  lemma ElectionSafety(n: nat, states: seq<Cluster>, actions: seq<Action>, a: nat, b: nat, i: Id, j: Id)
    requires CodeRun(n, states, actions) && n % 2 == 1
    requires a < |states| && b < |states| && i < |states[a].servers| && j < |states[b].servers|
    requires states[a].servers[i].role == Leader && states[b].servers[j].role == Leader
    requires states[a].servers[i].currentTerm == states[b].servers[j].currentTerm
    ensures i == j
  {
    RunInv(n, states, actions, a);
    RunInv(n, states, actions, b);
    var c := if a <= b then b else a;
    LeaderOnRecord(n, states, actions, a, c, i);
    LeaderOnRecord(n, states, actions, b, c, j);
  }

  /** A member grants its vote to at most one candidate per term, even when a lost election raised its
      term and left an older vote standing, and even across restarts. */
  lemma OneVotePerTerm(
      n: nat, states: seq<Cluster>, actions: seq<Action>, k: nat, voter: Id, t: nat, c: Id, d: Id, x: nat, y: nat)
    requires CodeRun(n, states, actions) && n % 2 == 1 && k < |states|
    requires VoteReply(t, c, voter, x, true) in states[k].net && VoteReply(t, d, voter, y, true) in states[k].net
    ensures c == d
  {
    RunInv(n, states, actions, k);
    assert MsgInv(states[k].hist, n, VoteReply(t, c, voter, x, true));
    assert MsgInv(states[k].hist, n, VoteReply(t, d, voter, y, true));
  }

  /** A member that stood for election in a term grants its vote in that term to nobody else. */
  lemma CandidateKeepsVote(n: nat, states: seq<Cluster>, actions: seq<Action>, k: nat, voter: Id, t: nat, c: Id, x: nat,
                           lastTerm: nat, lastIndex: nat)
    requires CodeRun(n, states, actions) && n % 2 == 1 && k < |states|
    requires VoteReply(t, c, voter, x, true) in states[k].net
    requires VoteRequest(t, voter, lastTerm, lastIndex) in states[k].net
    ensures c == voter
  {
    RunInv(n, states, actions, k);
    assert MsgInv(states[k].hist, n, VoteReply(t, c, voter, x, true));
    assert MsgInv(states[k].hist, n, VoteRequest(t, voter, lastTerm, lastIndex));
  }

  /** When the votes are counted, a member that is still a candidate is still in the term it asked for.
      The code looks at the role only. */
  lemma StillCandidate(n: nat, states: seq<Cluster>, actions: seq<Action>, k: nat, i: Id)
    requires CodeRun(n, states, actions) && n % 2 == 1 && k < |states| && i < |states[k].servers|
    requires states[k].servers[i].role == Candidate && states[k].servers[i].electing.Some?
    ensures states[k].servers[i].electing.value == states[k].servers[i].currentTerm
  {
    RunInv(n, states, actions, k);
    assert ServerInv(states[k].hist, n, i, states[k].servers[i]);
  }

  // ---------------------------------------------------------------- logs

  /** Log matching: entries with the same index and term make two logs identical up to there. */
  lemma LogMatching(n: nat, states: seq<Cluster>, actions: seq<Action>, a: nat, b: nat, i: Id, j: Id, k: nat)
    requires CodeRun(n, states, actions) && n % 2 == 1
    requires a < |states| && b < |states| && i < |states[a].servers| && j < |states[b].servers|
    requires k < |states[a].servers[i].log| && k < |states[b].servers[j].log|
    requires states[a].servers[i].log[k].term == states[b].servers[j].log[k].term
    ensures states[a].servers[i].log[..k + 1] == states[b].servers[j].log[..k + 1]
  {
    var c := if a <= b then b else a;
    RunInv(n, states, actions, a);
    RunInv(n, states, actions, b);
    RunGrows(n, states, actions, a, c);
    RunGrows(n, states, actions, b, c);
    assert ServerInv(states[a].hist, n, i, states[a].servers[i]);
    assert ServerInv(states[b].hist, n, j, states[b].servers[j]);
    SourcedGrows(states[a].hist, states[c].hist, states[a].servers[i].log);
    SourcedGrows(states[b].hist, states[c].hist, states[b].servers[j].log);
    SamePrefix(states[c].hist, states[a].servers[i].log, states[b].servers[j].log, k);
  }

  /** Leader append-only: while a member leads a term, its log only gets longer. */
  lemma LeaderAppendOnly(n: nat, states: seq<Cluster>, actions: seq<Action>, a: nat, b: nat, i: Id)
    requires CodeRun(n, states, actions) && n % 2 == 1 && a <= b < |states| && i < |states[a].servers|
    requires i < |states[b].servers|
    requires states[a].servers[i].role == Leader && states[b].servers[i].role == Leader
    requires states[a].servers[i].currentTerm == states[b].servers[i].currentTerm
    ensures states[a].servers[i].log <= states[b].servers[i].log
  {
    RunInv(n, states, actions, a);
    RunInv(n, states, actions, b);
    LeaderOnRecord(n, states, actions, a, b, i);
    assert ServerInv(states[b].hist, n, i, states[b].servers[i]);
  }

  // ---------------------------------------------------------------- commitment

  /** A log that is at least as up to date as one holding a point holds that point too, unless the
      leader it came from did not. */
  lemma UpToDateHolds(h: History, n: nat, t: nat, i: nat, cand: seq<Entry>, voter: seq<Entry>)
    requires HistoryInv(h, n) && Point(h, t, i)
    requires Sourced(h, cand) && Sourced(h, voter) && UpToDate(cand, voter)
    requires Prefix(h, t, i) <= voter
    requires t < LastTerm(cand) ==> LastTerm(cand) in h.elections ==>
               Prefix(h, t, i) <= h.elections[LastTerm(cand)].base
    ensures Prefix(h, t, i) <= cand
  {
    var lv := |voter| - 1;
    assert SourcedAt(h, voter, lv);
    AscendingLog(h, n, voter);
    assert voter[i - 1].term == t;
    assert LeaderLogOk(h, voter[lv].term);
    var lc := |cand| - 1;
    assert SourcedAt(h, cand, lc);
    var w := cand[lc].term;
    assert LeaderLogOk(h, w);
    assert cand == cand[..lc + 1] && voter == voter[..lv + 1];
    if w > t {
      var l := h.leaderLog[w];
      assert l[i - 1].term == t && l[lc].term == w;
    }
  }

  /** A point acknowledged by a quorum is in the election log of every later leader. */
  lemma {:induction false} CompletenessInHistory(h: History, n: nat, t: nat, i: nat, q: set<Id>, u: nat)
    requires HistoryInv(h, n) && n % 2 == 1 && Point(h, t, i)
    requires q <= Ids(n) && |q| >= Quorum(n) && forall m: nat :: m in q ==> i <= Acked(h, m, t)
    requires u in h.elections && t < u
    ensures Prefix(h, t, i) <= h.elections[u].base
    decreases u
  {
    var e := h.elections[u];
    assert ElectionOk(h, n, u);
    var m := Overlap(n, q, e.voters);
    assert VoteOk(h, m, u);
    var voter := h.voted[(m, u)].log;
    if Superseded(h, t, i, u - 1) {
      var w: nat :| w <= u - 1 && Skips(h, t, i, w);
      CompletenessInHistory(h, n, t, i, q, w);
    }
    assert VoteOk(h, e.leader, u);
    var w := LastTerm(e.base);
    if t < w && w in h.elections {
      assert LeaderLogOk(h, u);
      CompletenessInHistory(h, n, t, i, q, w);
    }
    UpToDateHolds(h, n, t, i, e.base, voter);
  }

  /** A leader that moves its commit index has at least a quorum of members that acknowledged that much of its log. */
  lemma CommitQuorum(n: nat, s: Cluster, l: Id) returns (q: set<Id>)
    requires Inv(n, s) && Indices(n, s) && n % 2 == 1 && l < n && Wired(s.servers[l], n) && s.servers[l].role == Leader
    requires AdvanceCommit(s.servers[l]).commitIndex > s.servers[l].commitIndex
    ensures var ci, t := AdvanceCommit(s.servers[l]).commitIndex, s.servers[l].currentTerm;
            && q == Reaching(s.servers[l].matchIndex, ci) && q <= Ids(n) && |q| >= Quorum(n)
            && (forall m: nat :: m in q ==> ci <= Acked(s.hist, m, t))
            && 1 <= ci <= |s.servers[l].log|
  {
    var sv := s.servers[l];
    assert ServerInv(s.hist, n, l, sv);
    assert IndexInv(s.hist, l, sv);
    var ci := AdvanceCommit(sv).commitIndex;
    var sorted := SortDescending(sv.matchIndex);
    SameSize(sorted, sv.matchIndex);
    CommitSelection(sv.matchIndex, sorted, Quorum(n));
    q := Reaching(sv.matchIndex, ci);
    var m :| m in q;
    assert Acked(s.hist, m, sv.currentTerm) > 0;
  }

  /** Step `k` of the run moves the commit index of leader `l` to an entry of its own term. */
  ghost predicate OwnTermCommit(n: nat, states: seq<Cluster>, actions: seq<Action>, k: nat, l: Id)
    requires CodeRun(n, states, actions)
  {
    && k < |actions| && actions[k] == Commit(l) && l < |states[k].servers| && l < |states[k + 1].servers|
    && states[k].servers[l].role == Leader
    && states[k + 1].servers[l].commitIndex > states[k].servers[l].commitIndex
    && states[k + 1].servers[l].commitIndex <= |states[k].servers[l].log|
    && states[k].servers[l].log[states[k + 1].servers[l].commitIndex - 1].term == states[k].servers[l].currentTerm
  }

  /** A leader never commits beyond its own log, and only what a quorum of members held in its term. */
  lemma CommitWithinLog(n: nat, states: seq<Cluster>, actions: seq<Action>, k: nat, l: Id)
    requires Run(n, states, actions) && n % 2 == 1 && k < |actions| && actions[k] == Commit(l)
    requires l < |states[k].servers| && l < |states[k + 1].servers|
    requires states[k + 1].servers[l].commitIndex > states[k].servers[l].commitIndex
    ensures var ci, sv := states[k + 1].servers[l].commitIndex, states[k].servers[l];
            && sv.role == Leader && ci <= |sv.log|
            && |Reaching(sv.matchIndex, ci)| >= Quorum(n)
  {
    RunInv(n, states, actions, k);
    RunIndices(n, states, actions, k);
    assert ServerInv(states[k].hist, n, l, states[k].servers[l]);
    var q := CommitQuorum(n, states[k], l);
  }

  /** Leader completeness: if a leader commits an index whose entry is of its own term, every leader of
      a later term, whenever it leads, holds the same log up to that index. */
  lemma LeaderCompleteness(n: nat, states: seq<Cluster>, actions: seq<Action>, k: nat, l: Id, m: nat, j: Id)
    requires Run(n, states, actions) && n % 2 == 1 && OwnTermCommit(n, states, actions, k, l)
    requires m < |states| && j < |states[m].servers| && states[m].servers[j].role == Leader
    requires states[m].servers[j].currentTerm > states[k].servers[l].currentTerm
    ensures states[k].servers[l].log[..states[k + 1].servers[l].commitIndex] <= states[m].servers[j].log
  {
    RunInv(n, states, actions, k);
    RunInv(n, states, actions, m);
    RunIndices(n, states, actions, k);
    assert ServerInv(states[k].hist, n, l, states[k].servers[l]);
    var q := CommitQuorum(n, states[k], l);
    var ci, t, u := states[k + 1].servers[l].commitIndex, states[k].servers[l].currentTerm,
        states[m].servers[j].currentTerm;
    var c := if k <= m then m else k;
    LeaderOnRecord(n, states, actions, k, c, l);
    LeaderOnRecord(n, states, actions, m, c, j);
    var h := states[c].hist;
    QuorumStays(n, states, actions, k, c, t, ci, q);
    RunInv(n, states, actions, c);
    LaterLogHolds(h, n, t, ci, q, u, states[k].servers[l].log, states[m].servers[j].log);
  }

  /** Completeness for a log that the leader of `t` had and a log that the leader of `u` built on. */
  lemma LaterLogHolds(h: History, n: nat, t: nat, i: nat, q: set<Id>, u: nat, log: seq<Entry>, later: seq<Entry>)
    requires HistoryInv(h, n) && n % 2 == 1 && t in h.leaderLog && log <= h.leaderLog[t]
    requires 1 <= i <= |log| && log[i - 1].term == t
    requires q <= Ids(n) && |q| >= Quorum(n) && forall m: nat :: m in q ==> i <= Acked(h, m, t)
    requires u in h.elections && t < u && h.elections[u].base <= later
    ensures log[..i] <= later
  {
    CompletenessInHistory(h, n, t, i, q, u);
    assert Prefix(h, t, i) == log[..i];
  }

  lemma QuorumStays(n: nat, states: seq<Cluster>, actions: seq<Action>, k: nat, c: nat, t: nat, i: nat, q: set<Id>)
    requires CodeRun(n, states, actions) && n % 2 == 1 && k <= c < |states|
    requires forall m: nat :: m in q ==> i <= Acked(states[k].hist, m, t)
    ensures forall m: nat :: m in q ==> i <= Acked(states[c].hist, m, t)
  {
    RunGrows(n, states, actions, k, c);
    forall m: nat | m in q ensures i <= Acked(states[c].hist, m, t) {
      assert Acked(states[k].hist, m, t) <= Acked(states[c].hist, m, t);
    }
  }

  /** Two commits of entries of the committing leaders' own terms agree on everything up to the shorter one. */
  lemma CommitsAgree(n: nat, states: seq<Cluster>, actions: seq<Action>, k: nat, l: Id, k': nat, l': Id)
    requires Run(n, states, actions) && n % 2 == 1
    requires OwnTermCommit(n, states, actions, k, l) && OwnTermCommit(n, states, actions, k', l')
    requires states[k].servers[l].currentTerm <= states[k'].servers[l'].currentTerm
    ensures var a, b := states[k].servers[l].log[..states[k + 1].servers[l].commitIndex],
                        states[k'].servers[l'].log[..states[k' + 1].servers[l'].commitIndex];
            a <= b || b <= a
  {
    if states[k].servers[l].currentTerm < states[k'].servers[l'].currentTerm {
      LeaderCompleteness(n, states, actions, k, l, k', l');
    } else {
      ElectionSafety(n, states, actions, k, k', l, l');
      if k <= k' {
        LeaderAppendOnly(n, states, actions, k, k', l);
      } else {
        LeaderAppendOnly(n, states, actions, k', k, l);
      }
    }
  }

  /** An acknowledgement is recorded only when the member, in that term, holds that much of the leader's log. */
  lemma NewAck(n: nat, s: Cluster, a: Action, m: Id, t: nat, i: nat)
    requires Inv(n, s) && Enabled(s, a) && Inv(n, Step(s, a))
    requires Acked(s.hist, m, t) < i <= Acked(Step(s, a).hist, m, t)
    ensures Held(Step(s, a), m, t, i)
  {
    var s' := Step(s, a);
    assert i <= Acked(s'.hist, m, t) <= |s'.hist.leaderLog[t]|;
    if a.DeliverAppend? {
      NewAckDelivered(n, s, a.req, m, t, i);
    } else {
      OwnAck(s, a, m, t);
      assert ServerInv(s'.hist, n, m, s'.servers[m]);
    }
  }

  lemma WinnerAck(s: Cluster, i: Id, answers: Answers, highest: nat, m: Id, t: nat)
    requires i < |s.servers| && Wired(s.servers[i], |s.servers|)
    requires Acked(s.hist, m, t) < Acked(CountVotesStep(s, i, answers, highest).hist, m, t)
    ensures var sv := CountVotesStep(s, i, answers, highest).servers[i];
            m == i && sv.role == Leader && sv.currentTerm == t
  {
    var was, sv := s.servers[i], CountVotesStep(s, i, answers, highest).servers[i];
    AckGrows(RecordLog(RecordElection(s.hist, was.currentTerm, Election(i, Granted(answers) + {i}, was.log)),
        was.currentTerm, sv.log),
             i, was.currentTerm, |sv.log|);
  }

  lemma AppendAck(s: Cluster, i: Id, cmd: Cmd, m: Id, t: nat)
    requires i < |s.servers| && Wired(s.servers[i], |s.servers|)
    requires Acked(s.hist, m, t) < Acked(ClientAppendStep(s, i, cmd).hist, m, t)
    ensures var sv := ClientAppendStep(s, i, cmd).servers[i];
            m == i && sv.role == Leader && sv.currentTerm == t
  {
    var sv := ClientAppendStep(s, i, cmd).servers[i];
    AckGrows(RecordLog(s.hist, sv.currentTerm, sv.log), i, sv.currentTerm, |sv.log|);
  }

  /** Without a delivery, only a leader's own append is acknowledged. */
  lemma OwnAck(s: Cluster, a: Action, m: Id, t: nat)
    requires Enabled(s, a) && !a.DeliverAppend?
    requires Acked(s.hist, m, t) < Acked(Step(s, a).hist, m, t)
    ensures var s' := Step(s, a);
            m < |s'.servers| && s'.servers[m].role == Leader && s'.servers[m].currentTerm == t
  {
    match a {
      case CountVotes(i, answers, highest) => WinnerAck(s, i, answers, highest, m, t);
      case ClientAppend(i, cmd) => AppendAck(s, i, cmd, m, t);
      case _ =>
    }
  }

  lemma NewAckDelivered(n: nat, s: Cluster, req: Msg, m: Id, t: nat, i: nat)
    requires Inv(n, s) && Enabled(s, DeliverAppend(req))
    requires Acked(s.hist, m, t) < i <= Acked(Step(s, DeliverAppend(req)).hist, m, t)
    ensures var s' := Step(s, DeliverAppend(req));
            m < n && s'.servers[m].currentTerm == t && t in s'.hist.leaderLog && i <= |s'.hist.leaderLog[t]|
            && s'.hist.leaderLog[t][..i] <= s'.servers[m].log
  {
    var c := req.call;
    assert MsgInv(s.hist, n, req) && ServerInv(s.hist, n, c.to, s.servers[c.to]);
    AckDelivered(n, s.hist, s.servers[c.to], c, m, t, i);
  }

  lemma AckDelivered(n: nat, h: History, sv: Server, c: AppendCall, m: Id, t: nat, i: nat)
    requires HistoryInv(h, n) && CallOk(h, c) && Sourced(h, sv.log)
    requires var (sv', result) := RaftServer.AppendToLog(sv, c);
             var h' := if result == Appended then RecordAck(h, c.to, c.term, c.prevIndex + |c.batch|) else h;
             Acked(h, m, t) < i <= Acked(h', m, t)
    ensures var sv' := RaftServer.AppendToLog(sv, c).0;
            && m == c.to && t == c.term && sv'.currentTerm == t
            && t in h.leaderLog && i <= |h.leaderLog[t]| && h.leaderLog[t][..i] <= sv'.log
  {
    AckGrows(h, c.to, c.term, c.prevIndex + |c.batch|);
    var r := AcceptedLog(n, h, sv.log, c);
  }

  lemma {:induction false} AckWitness(n: nat, states: seq<Cluster>, actions: seq<Action>, k: nat, m: Id, t: nat, i: nat)
    returns (a: nat)
    requires CodeRun(n, states, actions) && n % 2 == 1 && k < |states|
    requires 1 <= i <= Acked(states[k].hist, m, t)
    ensures a <= k && m < |states[a].servers| && states[a].servers[m].currentTerm == t
    ensures t in states[k].hist.leaderLog && i <= |states[k].hist.leaderLog[t]|
    ensures states[k].hist.leaderLog[t][..i] <= states[a].servers[m].log
    decreases k
  {
    if k > 0 && i <= Acked(states[k - 1].hist, m, t) {
      a := AckWitness(n, states, actions, k - 1, m, t, i);
      RunGrows(n, states, actions, k - 1, k);
      HeldStays(states[k - 1].hist, states[k].hist, t, i, states[a].servers[m].log);
    } else if k > 0 {
      NewAckAt(n, states, actions, k, m, t, i);
      a := k;
    }
  }

  lemma NewAckAt(n: nat, states: seq<Cluster>, actions: seq<Action>, k: nat, m: Id, t: nat, i: nat)
    requires CodeRun(n, states, actions) && n % 2 == 1 && 0 < k < |states|
    requires Acked(states[k - 1].hist, m, t) < i <= Acked(states[k].hist, m, t)
    ensures Held(states[k], m, t, i)
  {
    RunInv(n, states, actions, k - 1);
    assert Enabled(states[k - 1], actions[k - 1]) && states[k] == Step(states[k - 1], actions[k - 1]);
    StepKeeps(n, states[k - 1], actions[k - 1]);
    NewAck(n, states[k - 1], actions[k - 1], m, t, i);
  }

  /** Member `m` is in term `t` and holds that leader's log up to `i`. */
  ghost predicate Held(s: Cluster, m: Id, t: nat, i: nat) {
    && m < |s.servers| && s.servers[m].currentTerm == t
    && t in s.hist.leaderLog && i <= |s.hist.leaderLog[t]| && s.hist.leaderLog[t][..i] <= s.servers[m].log
  }

  lemma HeldStays(h: History, h': History, t: nat, i: nat, log: seq<Entry>)
    requires Grows(h, h') && t in h.leaderLog && i <= |h.leaderLog[t]| && h.leaderLog[t][..i] <= log
    ensures t in h'.leaderLog && i <= |h'.leaderLog[t]| && h'.leaderLog[t][..i] <= log
  {
    assert h.leaderLog[t] <= h'.leaderLog[t];
  }

  /** A leader's match index for a member is a length of its own log that the member did hold in that term. */
  lemma MatchIndexAcknowledged(n: nat, states: seq<Cluster>, actions: seq<Action>, k: nat, l: Id, m: Id)
    requires Run(n, states, actions) && n % 2 == 1 && k < |states| && l < |states[k].servers|
    requires states[k].servers[l].role == Leader && m < |states[k].servers[l].matchIndex|
    ensures var sv := states[k].servers[l];
            && sv.matchIndex[m] <= |sv.log|
            && (sv.matchIndex[m] > 0 ==>
                  exists a :: 0 <= a <= k && m < |states[a].servers|
                    && states[a].servers[m].currentTerm == sv.currentTerm
                              && sv.log[..sv.matchIndex[m]] <= states[a].servers[m].log)
  {
    var sv := states[k].servers[l];
    RunInv(n, states, actions, k);
    RunIndices(n, states, actions, k);
    assert ServerInv(states[k].hist, n, l, sv) && IndexInv(states[k].hist, l, sv);
    if sv.matchIndex[m] > 0 {
      assert sv.matchIndex[m] <= Acked(states[k].hist, m, sv.currentTerm);
      var a := AckWitness(n, states, actions, k, m, sv.currentTerm, sv.matchIndex[m]);
    }
  }

  // ---------------------------------------------------------------- applying

  ghost predicate Restarts(a: Action, i: Id) {
    (a.Crash? || a.TornElect? || a.TornVote? || a.TornAppend?) && Actor(a) == i
  }

  /** What one apply step takes: the next index, if it is committed and present. */
  function Takes(sv: Server): seq<nat> {
    if sv.applied < sv.commitIndex && sv.applied < |sv.log| then [sv.applied + 1] else []
  }

  function TakenBy(a: Action, i: Id, sv: Server): seq<nat> {
    if a == ApplyOne(i) then Takes(sv) else []
  }

  /** The indices of the entries that the apply steps of member `i` between `a` and `b` consume, in their order. */
  ghost function Consumed(states: seq<Cluster>, actions: seq<Action>, i: Id, a: nat, b: nat): seq<nat>
    requires a <= b <= |actions| < |states|
  {
    if a == b then []
    else
      Consumed(states, actions, i, a, b - 1)
      + if i < |states[b - 1].servers| then TakenBy(actions[b - 1], i, states[b - 1].servers[i]) else []
  }

  /** The indices above `from`, up to `to`. */
  function Above(from: nat, to: nat): seq<nat> {
    if from < to then Above(from, to - 1) + [to] else []
  }

  lemma AboveTaken(from: nat, a: Action, i: Id, sv: Server)
    requires from <= sv.applied
    ensures Above(from, sv.applied) + TakenBy(a, i, sv) == Above(from, sv.applied + |TakenBy(a, i, sv)|)
  {
  }

  /** Between restarts a member's commit index never falls, and it consumes one entry at a time, the next
      one, which is in its log and committed as far as it knows. */
  lemma ApplyStep(s: Cluster, a: Action, i: Id)
    requires Enabled(s, a) && i < |s.servers|
    ensures |Step(s, a).servers| == |s.servers|
    ensures var sv, sv' := s.servers[i], Step(s, a).servers[i];
            if Restarts(a, i) then sv'.commitIndex == 0 && sv'.applied == 0
            else sv.commitIndex <= sv'.commitIndex
                 && sv'.applied == sv.applied + |TakenBy(a, i, sv)|
  {
    OnlyActor(s, a);
    if Actor(a) == i { ActorApplies(s, a, i); }
  }

  lemma ElectionApplies(s: Cluster, i: Id, answers: Answers, highest: nat, cmd: Cmd)
    requires i < |s.servers| && Wired(s.servers[i], |s.servers|)
    ensures var sv, won, logged := s.servers[i], CountVotesStep(s, i, answers, highest).servers[i],
                                   ClientAppendStep(s, i, cmd).servers[i];
            && won.commitIndex == sv.commitIndex && won.applied == sv.applied
            && logged.commitIndex == sv.commitIndex && logged.applied == sv.applied
  {
  }

  lemma DeliveryApplies(sv: Server, req: Msg, c: AppendCall)
    requires req.VoteRequest?
    ensures var voted, appended := RequestVote(sv, req.term, req.candidate, req.lastTerm, req.lastIndex).0,
                                   RaftServer.AppendToLog(sv, c).0;
            && voted.commitIndex == sv.commitIndex && voted.applied == sv.applied
            && appended.commitIndex == sv.commitIndex && appended.applied == sv.applied
  {
  }

  lemma ActorApplies(s: Cluster, a: Action, i: Id)
    requires Enabled(s, a) && i < |s.servers| == |Step(s, a).servers| && Actor(a) == i
    ensures var sv, sv' := s.servers[i], Step(s, a).servers[i];
            if Restarts(a, i) then sv'.commitIndex == 0 && sv'.applied == 0
            else sv.commitIndex <= sv'.commitIndex && sv'.applied == sv.applied + |TakenBy(a, i, sv)|
  {
    var sv, call := s.servers[i], AppendCall(0, 0, 0, 0, 0, 0, []);
    match a
    case CountVotes(_, answers, highest) => ElectionApplies(s, i, answers, highest, NULL_CMD);
    case ClientAppend(_, cmd) => ElectionApplies(s, i, map[], 0, cmd);
    case DeliverVote(_, req) => DeliveryApplies(sv, req, call);
    case DeliverAppend(req) => DeliveryApplies(sv, VoteRequest(0, 0, 0, 0), req.call);
    case _ =>
  }

  /** In every run of the code, applied never passes the commit index. */
  lemma {:induction false} ApplyBounds(n: nat, states: seq<Cluster>, actions: seq<Action>, k: nat, i: Id)
    requires CodeRun(n, states, actions) && k < |states| && i < n
    ensures |states[k].servers| == n && states[k].servers[i].applied <= states[k].servers[i].commitIndex
  {
    if k == 0 {
      assert states[0].servers[i] == Boot(i, n, 0, None, []);
    } else {
      ApplyBounds(n, states, actions, k - 1, i);
      assert states[k] == Step(states[k - 1], actions[k - 1]);
      ApplyStep(states[k - 1], actions[k - 1], i);
    }
  }

  /** Step `k` lowers neither index of member `i` and consumes what an apply step takes. */
  ghost predicate Moves(states: seq<Cluster>, actions: seq<Action>, i: Id, k: nat) {
    && k < |actions| < |states| && i < |states[k].servers| && i < |states[k + 1].servers|
    && states[k].servers[i].commitIndex <= states[k + 1].servers[i].commitIndex
    && states[k + 1].servers[i].applied == states[k].servers[i].applied + |TakenBy(actions[k], i, states[k].servers[i])|
  }

  lemma MovesAt(n: nat, states: seq<Cluster>, actions: seq<Action>, i: Id, k: nat)
    requires CodeRun(n, states, actions) && i < n && k < |actions| && !Restarts(actions[k], i)
    ensures Moves(states, actions, i, k)
  {
    ApplyBounds(n, states, actions, k, i);
    assert states[k + 1] == Step(states[k], actions[k]);
    ApplyStep(states[k], actions[k], i);
  }

  lemma {:induction false} MovesInOrder(states: seq<Cluster>, actions: seq<Action>, i: Id, a: nat, b: nat)
    requires a <= b <= |actions| < |states| && i < |states[a].servers|
    requires forall k: nat {:trigger Moves(states, actions, i, k)} :: a <= k < b ==> Moves(states, actions, i, k)
    ensures i < |states[b].servers|
    ensures var was, now := states[a].servers[i], states[b].servers[i];
            && was.commitIndex <= now.commitIndex && was.applied <= now.applied
            && Consumed(states, actions, i, a, b) == Above(was.applied, now.applied)
    decreases b
  {
    if a < b {
      MovesInOrder(states, actions, i, a, b - 1);
      assert Moves(states, actions, i, b - 1);
      AboveTaken(states[a].servers[i].applied, actions[b - 1], i, states[b - 1].servers[i]);
    }
  }

  /** Apply order: while a member is not restarted, its commit index and its applied index only grow, and the entries
      it consumes are those above the old applied index up to the new one, each once and in order. */
  lemma ApplyOrder(n: nat, states: seq<Cluster>, actions: seq<Action>, a: nat, b: nat, i: Id)
    requires CodeRun(n, states, actions) && a <= b < |states| && i < n
    requires forall k :: a <= k < b ==> !Restarts(actions[k], i)
    ensures |states[a].servers| == n && |states[b].servers| == n
    ensures var was, now := states[a].servers[i], states[b].servers[i];
            && was.commitIndex <= now.commitIndex && was.applied <= now.applied <= now.commitIndex
            && Consumed(states, actions, i, a, b) == Above(was.applied, now.applied)
  {
    ApplyBounds(n, states, actions, a, i);
    ApplyBounds(n, states, actions, b, i);
    forall k: nat | a <= k < b ensures Moves(states, actions, i, k) {
      MovesAt(n, states, actions, i, k);
    }
    MovesInOrder(states, actions, i, a, b);
  }
}
