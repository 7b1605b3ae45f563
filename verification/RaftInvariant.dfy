/** The inductive invariant of the cluster: what holds of the history, of every member and of every message. */
module RaftInvariant {
  import opened Common
  import opened RaftLog
  import opened RaftQuorum
  import opened RaftServer
  import opened RaftCluster

  // ---------------------------------------------------------------- logs

  /** Every entry came from the leader of its term, together with everything before it. */
  ghost predicate Sourced(h: History, log: seq<Entry>) {
    forall k: nat {:trigger SourcedAt(h, log, k)} :: k < |log| ==> SourcedAt(h, log, k)
  }

  ghost predicate SourcedAt(h: History, log: seq<Entry>, k: nat)
    requires k < |log|
  {
    log[k].term in h.leaderLog && log[..k + 1] <= h.leaderLog[log[k].term]
  }

  ghost predicate Ascending(log: seq<Entry>) {
    forall i, j :: 0 <= i <= j < |log| ==> log[i].term <= log[j].term
  }

  ghost predicate TermsUpTo(log: seq<Entry>, t: nat) {
    forall k :: 0 <= k < |log| ==> log[k].term <= t
  }

  ghost predicate LeaderLogOk(h: History, t: nat)
    requires t in h.elections && t in h.leaderLog
  {
    var log, base := h.leaderLog[t], h.elections[t].base;
    && 1 <= t
    && base <= log
    && (forall k :: 0 <= k < |base| ==> log[k].term < t)
    && (forall k :: |base| <= k < |log| ==> log[k].term == t)
    && Ascending(log)
    && Sourced(h, log)
  }

  // ---------------------------------------------------------------- acknowledged points

  /** Index `i` of the term-`t` leader's log, holding an entry of that very term. */
  ghost predicate Point(h: History, t: nat, i: nat) {
    t in h.leaderLog && 1 <= i <= |h.leaderLog[t]| && h.leaderLog[t][i - 1].term == t
  }

  ghost function Prefix(h: History, t: nat, i: nat): seq<Entry>
    requires Point(h, t, i)
  {
    h.leaderLog[t][..i]
  }

  /** The winner of the later term `w` does not hold the log of `t` up to `i`. */
  ghost predicate Skips(h: History, t: nat, i: nat, w: nat)
    requires Point(h, t, i)
  {
    w in h.elections && t < w && !(Prefix(h, t, i) <= h.elections[w].base)
  }

  ghost predicate Superseded(h: History, t: nat, i: nat, bound: nat)
    requires Point(h, t, i)
  {
    exists w: nat :: w <= bound && Skips(h, t, i, w)
  }

  /** Member `j` still holds, in `log`, every point it acknowledged, unless a leader up to `bound` skips it. */
  ghost predicate Keeps(h: History, j: Id, log: seq<Entry>, bound: nat) {
    forall t: nat, i: nat {:trigger Point(h, t, i)} :: Point(h, t, i) && i <= Acked(h, j, t) ==>
      Prefix(h, t, i) <= log || Superseded(h, t, i, bound)
  }

  /** The same for the points of terms before `u`. */
  ghost predicate KeepsBefore(h: History, j: Id, u: nat, log: seq<Entry>) {
    forall t: nat, i: nat {:trigger Point(h, t, i)} :: Point(h, t, i) && t < u && i <= Acked(h, j, t) ==>
      Prefix(h, t, i) <= log || Superseded(h, t, i, u - 1)
  }

  // ---------------------------------------------------------------- votes

  /** The candidate's log is at least as up to date as the voter's. */
  ghost predicate UpToDate(candidate: seq<Entry>, voter: seq<Entry>) {
    || LastTerm(voter) < LastTerm(candidate)
    || (LastTerm(voter) == LastTerm(candidate) && |voter| <= |candidate|)
  }

  ghost predicate VoteOk(h: History, j: Id, t: nat)
    requires (j, t) in h.voted
  {
    var v := h.voted[(j, t)];
    && Sourced(h, v.log)
    && (v.candidate, t) in h.voted
    && h.voted[(v.candidate, t)].candidate == v.candidate
    && UpToDate(h.voted[(v.candidate, t)].log, v.log)
    && (t !in h.elections || j in h.elections[t].voters ==> KeepsBefore(h, j, t, v.log))
  }

  ghost predicate ElectionOk(h: History, n: nat, t: nat)
    requires t in h.elections
  {
    var e := h.elections[t];
    && n > 0
    && e.leader < n
    && e.voters <= Ids(n)
    && WinningCount(n, |e.voters|)
    && (forall v: nat {:trigger v in e.voters} :: v in e.voters ==>
          (v, t) in h.voted && h.voted[(v, t)].candidate == e.leader)
    && (e.leader, t) in h.voted
    && h.voted[(e.leader, t)].log == e.base
  }

  ghost predicate HistoryInv(h: History, n: nat) {
    && h.elections.Keys == h.leaderLog.Keys
    && (forall t: nat {:trigger LeaderLogOk(h, t)} :: t in h.elections ==> LeaderLogOk(h, t))
    && (forall t: nat {:trigger ElectionOk(h, n, t)} :: t in h.elections ==> ElectionOk(h, n, t))
    && (forall j: nat, t: nat {:trigger VoteOk(h, j, t)} :: (j, t) in h.voted ==> VoteOk(h, j, t))
    && (forall j: nat, t: nat {:trigger Acked(h, j, t)} :: Acked(h, j, t) > 0 ==>
          t in h.leaderLog && Acked(h, j, t) <= |h.leaderLog[t]|)
  }

  // ---------------------------------------------------------------- members and messages

  ghost predicate CallOk(h: History, c: AppendCall) {
    && c.term in h.leaderLog
    && c.prevIndex + |c.batch| <= |h.leaderLog[c.term]|
    && c.batch == h.leaderLog[c.term][c.prevIndex..c.prevIndex + |c.batch|]
    && c.prevTerm == LastTerm(h.leaderLog[c.term][..c.prevIndex])
  }

  /** The vote on record, and the terms this member has led, are not ahead of its term. */
  ghost predicate VotesInv(h: History, j: Id, s: Server) {
    && (forall t: nat {:trigger (j, t) in h.voted} :: (j, t) in h.voted ==>
          t <= s.currentTerm && (t == s.currentTerm ==> s.votedFor == Some(h.voted[(j, t)].candidate)))
    && (forall t: nat {:trigger t in h.elections} :: t in h.elections && h.elections[t].leader == j ==>
          t <= s.currentTerm)
  }

  /** A candidate still waiting for votes is in the term it asked them for, with the log it announced. */
  ghost predicate CandidateInv(h: History, j: Id, s: Server) {
    s.role == Candidate ==>
      && 1 <= s.currentTerm
      && (forall m :: 0 <= m < |s.calls| && s.calls[m].Some? ==> s.calls[m].value.term < s.currentTerm)
      && (s.electing.Some? ==>
            && s.electing.value == s.currentTerm
            && (j, s.currentTerm) in h.voted
            && h.voted[(j, s.currentTerm)] == Vote(j, s.log)
            && (s.currentTerm in h.elections ==> h.elections[s.currentTerm].leader != j))
  }

  ghost predicate LeaderInv(h: History, j: Id, s: Server) {
    s.role == Leader ==>
      && s.electing == None
      && s.currentTerm in h.elections
      && h.elections[s.currentTerm].leader == j
      && s.currentTerm in h.leaderLog
      && s.log == h.leaderLog[s.currentTerm]
  }

  ghost predicate ServerInv(h: History, n: nat, j: Id, s: Server) {
    && Wired(s, n)
    && VotesInv(h, j, s)
    && CandidateInv(h, j, s)
    && LeaderInv(h, j, s)
    && Sourced(h, s.log)
    && TermsUpTo(s.log, s.currentTerm)
    && (forall t: nat {:trigger Acked(h, j, t)} :: Acked(h, j, t) > 0 ==> t <= s.currentTerm)
    && Keeps(h, j, s.log, s.currentTerm)
    && (forall m :: 0 <= m < n && s.calls[m].Some? ==>
          s.calls[m].value.to == m && s.calls[m].value.term <= s.currentTerm)
  }

  ghost predicate MsgInv(h: History, n: nat, msg: Msg) {
    match msg
    case VoteRequest(t, c, lastTerm, lastIndex) =>
      && c < n && (c, t) in h.voted && h.voted[(c, t)].candidate == c
      && lastTerm == LastTerm(h.voted[(c, t)].log) && lastIndex == |h.voted[(c, t)].log|
    case VoteReply(t, c, v, _, ok) =>
      ok ==> (v, t) in h.voted && h.voted[(v, t)].candidate == c
    case AppendRequest(c) => CallOk(h, c)
    case AppendReply(c, result) =>
      result == Appended ==> c.prevIndex + |c.batch| <= Acked(h, c.to, c.term)
  }

  ghost predicate Inv(n: nat, s: Cluster) {
    && |s.servers| == n
    && HistoryInv(s.hist, n)
    && (forall j: nat {:trigger ServerInv(s.hist, n, j, s.servers[j])} :: j < n ==>
          ServerInv(s.hist, n, j, s.servers[j]))
    && (forall m {:trigger MsgInv(s.hist, n, m)} :: m in s.net ==> MsgInv(s.hist, n, m))
  }

  /** What a leader knows of the others: no more is matched than was acknowledged, and a call in flight left from
      where the next index still is. This is what needs timely answers. */
  ghost predicate IndexInv(h: History, j: Id, s: Server) {
    s.role == Leader ==>
      && (forall m :: 0 <= m < |s.matchIndex| ==> s.matchIndex[m] <= Acked(h, m, s.currentTerm))
      && (forall m :: 0 <= m < |s.nextIndex| && m != j ==> 1 <= s.nextIndex[m] <= |s.log| + 1)
      && (forall m :: 0 <= m < |s.calls| && m < |s.nextIndex| && s.calls[m].Some?
                      && s.calls[m].value.term == s.currentTerm ==>
            s.nextIndex[m] == s.calls[m].value.prevIndex + 1)
  }

  ghost predicate Indices(n: nat, s: Cluster) {
    && |s.servers| == n
    && (forall j: nat {:trigger IndexInv(s.hist, j, s.servers[j])} :: j < n ==> IndexInv(s.hist, j, s.servers[j]))
  }

  // ---------------------------------------------------------------- consequences for logs

  /** Two logs with an entry of the same term at the same place agree up to it. */
  lemma SamePrefix(h: History, a: seq<Entry>, b: seq<Entry>, k: nat)
    requires Sourced(h, a) && Sourced(h, b)
    requires k < |a| && k < |b| && a[k].term == b[k].term
    ensures a[..k + 1] == b[..k + 1]
  {
    assert SourcedAt(h, a, k) && SourcedAt(h, b, k);
  }
}
