/** The history only grows, and each way it grows keeps its invariant and everything said about
    members and messages it does not concern. */
module RaftHistory {
  import opened RaftLog
  import opened RaftQuorum
  import opened RaftServer
  import opened RaftCluster
  import opened RaftInvariant

  ghost predicate Grows(h: History, h': History) {
    && (forall t: nat {:trigger t in h.elections} :: t in h.elections ==>
          t in h'.elections && h'.elections[t] == h.elections[t])
    && (forall t: nat {:trigger t in h.leaderLog} :: t in h.leaderLog ==>
          t in h'.leaderLog && h.leaderLog[t] <= h'.leaderLog[t])
    && (forall j: nat, t: nat {:trigger (j, t) in h.voted} :: (j, t) in h.voted ==>
          (j, t) in h'.voted && h'.voted[(j, t)] == h.voted[(j, t)])
    && (forall j: nat, t: nat {:trigger Acked(h, j, t)} {:trigger Acked(h', j, t)} :: Acked(h, j, t) <= Acked(h', j, t))
  }

  /** Nothing recorded about member `j` changed. */
  ghost predicate SameMember(h: History, h': History, j: Id) {
    && (forall t: nat {:trigger (j, t) in h'.voted} :: (j, t) in h'.voted ==> (j, t) in h.voted)
    && (forall t: nat {:trigger Acked(h', j, t)} :: Acked(h', j, t) == Acked(h, j, t))
    && (forall t: nat {:trigger t in h'.elections} :: t in h'.elections && h'.elections[t].leader == j ==>
          t in h.elections)
    && (forall t: nat {:trigger t in h'.leaderLog} ::
          t in h.elections && h.elections[t].leader == j && t in h.leaderLog && t in h'.leaderLog ==>
          h'.leaderLog[t] == h.leaderLog[t])
  }

  lemma SourcedGrows(h: History, h': History, log: seq<Entry>)
    requires Grows(h, h') && Sourced(h, log)
    ensures Sourced(h', log)
  {
    forall k: nat | k < |log| ensures SourcedAt(h', log, k) {
      assert SourcedAt(h, log, k);
      assert log[k].term in h.leaderLog;
    }
  }

  /** A point within what was already there is the same point. */
  lemma PointBack(h: History, h': History, t: nat, i: nat)
    requires Grows(h, h') && Point(h', t, i)
    requires t in h.leaderLog && i <= |h.leaderLog[t]|
    ensures Point(h, t, i) && Prefix(h, t, i) == Prefix(h', t, i)
  {
    assert h.leaderLog[t] <= h'.leaderLog[t];
  }

  lemma SupersededGrows(h: History, h': History, t: nat, i: nat, bound: nat)
    requires Grows(h, h') && Point(h, t, i) && Point(h', t, i) && Prefix(h, t, i) == Prefix(h', t, i)
    requires Superseded(h, t, i, bound)
    ensures Superseded(h', t, i, bound)
  {
    var w: nat :| w <= bound && Skips(h, t, i, w);
    assert Skips(h', t, i, w);
  }

  lemma KeepsGrows(h: History, h': History, n: nat, j: Id, log: seq<Entry>, bound: nat)
    requires HistoryInv(h, n) && Grows(h, h') && Keeps(h, j, log, bound)
    requires forall t: nat :: Acked(h', j, t) == Acked(h, j, t)
    ensures Keeps(h', j, log, bound)
  {
    forall t: nat, i: nat | Point(h', t, i) && i <= Acked(h', j, t)
      ensures Prefix(h', t, i) <= log || Superseded(h', t, i, bound)
    {
      assert Acked(h, j, t) > 0;
      PointBack(h, h', t, i);
      if Superseded(h, t, i, bound) { SupersededGrows(h, h', t, i, bound); }
    }
  }

  lemma KeepsBeforeGrows(h: History, h': History, n: nat, j: Id, u: nat, log: seq<Entry>)
    requires HistoryInv(h, n) && Grows(h, h') && KeepsBefore(h, j, u, log)
    requires forall t: nat :: t < u ==> Acked(h', j, t) == Acked(h, j, t)
    ensures KeepsBefore(h', j, u, log)
  {
    forall t: nat, i: nat | Point(h', t, i) && t < u && i <= Acked(h', j, t)
      ensures Prefix(h', t, i) <= log || Superseded(h', t, i, u - 1)
    {
      assert Acked(h, j, t) > 0;
      PointBack(h, h', t, i);
      if Superseded(h, t, i, u - 1) { SupersededGrows(h, h', t, i, u - 1); }
    }
  }

  /** A member the new records do not concern keeps its invariant. */
  lemma ServerGrows(h: History, h': History, n: nat, j: Id, s: Server)
    requires HistoryInv(h, n) && Grows(h, h') && SameMember(h, h', j) && ServerInv(h, n, j, s)
    ensures ServerInv(h', n, j, s)
  {
    SourcedGrows(h, h', s.log);
    KeepsGrows(h, h', n, j, s.log, s.currentTerm);
    assert VotesInv(h', j, s);
    assert CandidateInv(h', j, s);
    assert LeaderInv(h', j, s) by {
      if s.role == Leader {
        assert s.currentTerm in h.elections && s.currentTerm in h'.leaderLog;
      }
    }
  }

  lemma IndexGrows(h: History, h': History, j: Id, s: Server)
    requires Grows(h, h') && IndexInv(h, j, s)
    ensures IndexInv(h', j, s)
  {
    if s.role == Leader {
      forall m | 0 <= m < |s.matchIndex| ensures s.matchIndex[m] <= Acked(h', m, s.currentTerm) {
        assert s.matchIndex[m] <= Acked(h, m, s.currentTerm);
      }
    }
  }

  lemma CallGrows(h: History, h': History, c: AppendCall)
    requires Grows(h, h') && CallOk(h, c)
    ensures CallOk(h', c)
  {
    var a, b := h.leaderLog[c.term], h'.leaderLog[c.term];
    assert a <= b;
    assert a[..c.prevIndex] == b[..c.prevIndex];
    assert a[c.prevIndex..c.prevIndex + |c.batch|] == b[c.prevIndex..c.prevIndex + |c.batch|];
  }

  lemma MsgGrows(h: History, h': History, n: nat, m: Msg)
    requires Grows(h, h') && MsgInv(h, n, m)
    ensures MsgInv(h', n, m)
  {
    match m
    case VoteRequest(t, c, _, _) => assert (c, t) in h'.voted;
    case VoteReply(t, c, v, _, ok) => if ok { assert (v, t) in h'.voted; }
    case AppendRequest(c) => CallGrows(h, h', c);
    case AppendReply(c, _) => assert Acked(h, c.to, c.term) <= Acked(h', c.to, c.term);
  }

  // ---------------------------------------------------------------- the four ways to grow

  /** A vote on record stays in order when the acknowledgements of its voter for earlier terms do not move. */
  lemma VoteGrows(h: History, h': History, n: nat, j: Id, t: nat)
    requires HistoryInv(h, n) && Grows(h, h') && (j, t) in h.voted && (j, t) in h'.voted
    requires t in h'.elections && j in h'.elections[t].voters ==> t !in h.elections || j in h.elections[t].voters
    requires forall u: nat :: u < t ==> Acked(h', j, u) == Acked(h, j, u)
    ensures VoteOk(h', j, t)
  {
    assert VoteOk(h, j, t);
    var v := h.voted[(j, t)];
    SourcedGrows(h, h', v.log);
    assert (v.candidate, t) in h.voted;
    if t !in h'.elections || j in h'.elections[t].voters { KeepsBeforeGrows(h, h', n, j, t, v.log); }
  }

  lemma ElectionGrows(h: History, h': History, n: nat, t: nat)
    requires HistoryInv(h, n) && Grows(h, h') && t in h.elections && t in h'.elections && t in h'.leaderLog
    ensures ElectionOk(h', n, t)
    ensures h'.leaderLog[t] == h.leaderLog[t] ==> LeaderLogOk(h', t)
  {
    assert ElectionOk(h, n, t) && LeaderLogOk(h, t);
    SourcedGrows(h, h', h.leaderLog[t]);
  }

  lemma AckedGrows(h: History, h': History, n: nat)
    requires HistoryInv(h, n) && Grows(h, h')
    ensures forall i: nat, u: nat :: Acked(h, i, u) > 0 ==> u in h'.leaderLog && Acked(h, i, u) <= |h'.leaderLog[u]|
  {
    forall i: nat, u: nat | Acked(h, i, u) > 0 ensures u in h'.leaderLog && Acked(h, i, u) <= |h'.leaderLog[u]| {
      assert u in h.leaderLog;
    }
  }

  lemma VoteRecorded(h: History, n: nat, j: Id, t: nat, v: Vote)
    requires HistoryInv(h, n) && (j, t) !in h.voted
    requires Sourced(h, v.log)
    requires v.candidate != j ==> (v.candidate, t) in h.voted && h.voted[(v.candidate, t)].candidate == v.candidate
                                  && UpToDate(h.voted[(v.candidate, t)].log, v.log)
    requires t !in h.elections ==> KeepsBefore(h, j, t, v.log)
    ensures HistoryInv(RecordVote(h, j, t, v), n) && Grows(h, RecordVote(h, j, t, v))
  {
    var h' := RecordVote(h, j, t, v);
    assert forall k: nat, u: nat :: Acked(h', k, u) == Acked(h, k, u);
    assert Grows(h, h');
    forall u: nat | u in h'.elections ensures LeaderLogOk(h', u) && ElectionOk(h', n, u) {
      ElectionGrows(h, h', n, u);
    }
    forall k: nat, u: nat | (k, u) in h'.voted ensures VoteOk(h', k, u) {
      if (k, u) == (j, t) {
        SourcedGrows(h, h', v.log);
        if t !in h.elections { KeepsBeforeGrows(h, h', n, j, t, v.log); }
        else { assert ElectionOk(h, n, t); }
      } else {
        VoteGrows(h, h', n, k, u);
      }
    }
    AckedGrows(h, h', n);
  }

  lemma AckGrows(h: History, j: Id, t: nat, k: nat)
    ensures Grows(h, RecordAck(h, j, t, k))
    ensures forall i: nat, u: nat {:trigger Acked(RecordAck(h, j, t, k), i, u)} ::
              Acked(RecordAck(h, j, t, k), i, u) == if i == j && u == t && k > Acked(h, j, t) then k else Acked(h, i, u)
  {
  }

  lemma AckRecorded(h: History, n: nat, j: Id, t: nat, k: nat)
    requires HistoryInv(h, n) && t in h.leaderLog && k <= |h.leaderLog[t]|
    requires forall u: nat {:trigger (j, u) in h.voted} :: (j, u) in h.voted ==> u <= t
    ensures HistoryInv(RecordAck(h, j, t, k), n) && Grows(h, RecordAck(h, j, t, k))
  {
    var h' := RecordAck(h, j, t, k);
    AckGrows(h, j, t, k);
    forall u: nat | u in h'.elections ensures LeaderLogOk(h', u) && ElectionOk(h', n, u) {
      ElectionGrows(h, h', n, u);
    }
    forall i: nat, u: nat | (i, u) in h'.voted ensures VoteOk(h', i, u) {
      VoteGrows(h, h', n, i, u);
    }
    AckedGrows(h, h', n);
  }

  lemma LogRecorded(h: History, n: nat, t: nat, e: Entry)
    requires HistoryInv(h, n) && t in h.elections && t in h.leaderLog && e.term == t
    ensures HistoryInv(RecordLog(h, t, h.leaderLog[t] + [e]), n) && Grows(h, RecordLog(h, t, h.leaderLog[t] + [e]))
  {
    var h' := RecordLog(h, t, h.leaderLog[t] + [e]);
    assert forall i: nat, u: nat :: Acked(h', i, u) == Acked(h, i, u);
    assert Grows(h, h');
    assert h'.leaderLog.Keys == h.leaderLog.Keys;
    forall u: nat | u in h'.elections ensures LeaderLogOk(h', u) && ElectionOk(h', n, u) {
      ElectionGrows(h, h', n, u);
      if u == t { LeaderLogExtended(h, h', n, t, e); }
    }
    forall i: nat, u: nat | (i, u) in h'.voted ensures VoteOk(h', i, u) {
      VoteGrows(h, h', n, i, u);
    }
    AckedGrows(h, h', n);
  }

  lemma LeaderLogExtended(h: History, h': History, n: nat, t: nat, e: Entry)
    requires HistoryInv(h, n) && Grows(h, h') && t in h.elections && t in h'.elections && t in h.leaderLog
    requires t in h'.leaderLog
    requires h'.leaderLog[t] == h.leaderLog[t] + [e] && e.term == t
    ensures LeaderLogOk(h', t)
  {
    assert LeaderLogOk(h, t);
    SourcedGrows(h, h', h.leaderLog[t]);
    ExtendSourced(h, h', t, e);
  }

  lemma ExtendSourced(h: History, h': History, t: nat, e: Entry)
    requires t in h.leaderLog && t in h'.leaderLog && Sourced(h', h.leaderLog[t])
    requires h'.leaderLog[t] == h.leaderLog[t] + [e] && e.term == t
    ensures Sourced(h', h'.leaderLog[t])
  {
    var was, log := h.leaderLog[t], h'.leaderLog[t];
    forall k: nat | k < |log| ensures SourcedAt(h', log, k) {
      if k < |was| {
        assert SourcedAt(h', was, k);
        assert was[k] == log[k] && was[..k + 1] == log[..k + 1];
      }
    }
  }

  lemma ElectionRecorded(h: History, n: nat, t: nat, e: Election)
    requires HistoryInv(h, n) && t !in h.elections && 1 <= t
    requires Sourced(h, e.base) && Ascending(e.base) && forall k :: 0 <= k < |e.base| ==> e.base[k].term < t
    requires n > 0 && e.leader < n && e.voters <= Ids(n) && WinningCount(n, |e.voters|)
    requires forall v: nat {:trigger v in e.voters} :: v in e.voters ==>
               (v, t) in h.voted && h.voted[(v, t)].candidate == e.leader
    requires (e.leader, t) in h.voted && h.voted[(e.leader, t)].log == e.base
    ensures HistoryInv(RecordElection(h, t, e), n) && Grows(h, RecordElection(h, t, e))
  {
    var h' := RecordElection(h, t, e);
    assert t !in h.leaderLog;
    assert forall i: nat, u: nat :: Acked(h', i, u) == Acked(h, i, u);
    assert Grows(h, h');
    assert h'.elections.Keys == h'.leaderLog.Keys;
    forall u: nat | u in h'.elections ensures LeaderLogOk(h', u) && ElectionOk(h', n, u) {
      if u == t { SourcedGrows(h, h', e.base); } else { ElectionGrows(h, h', n, u); }
    }
    forall i: nat, u: nat | (i, u) in h'.voted ensures VoteOk(h', i, u) {
      VoteGrows(h, h', n, i, u);
    }
    AckedGrows(h, h', n);
  }

  // ---------------------------------------------------------------- whom a record concerns

  lemma AckConcerns(h: History, j: Id, t: nat, k: nat)
    ensures forall i: nat :: i != j ==> SameMember(h, RecordAck(h, j, t, k), i)
  {
    AckGrows(h, j, t, k);
  }

  lemma LogConcerns(h: History, t: nat, log: seq<Entry>)
    requires t in h.elections
    ensures forall i: nat :: i != h.elections[t].leader ==> SameMember(h, RecordLog(h, t, log), i)
  {
    assert forall i: nat, u: nat :: Acked(RecordLog(h, t, log), i, u) == Acked(h, i, u);
  }

  lemma ElectionConcerns(h: History, t: nat, e: Election)
    requires t !in h.elections
    ensures forall i: nat :: i != e.leader ==> SameMember(h, RecordElection(h, t, e), i)
  {
    assert forall i: nat, u: nat :: Acked(RecordElection(h, t, e), i, u) == Acked(h, i, u);
  }

  lemma SameMembersTransitive(a: History, b: History, c: History, i: Id)
    requires Grows(a, b) && Grows(b, c)
    requires forall j: nat :: j != i ==> SameMember(a, b, j) && SameMember(b, c, j)
    ensures forall j: nat :: j != i ==> SameMember(a, c, j)
  {
    forall j: nat | j != i ensures SameMember(a, c, j) {
      assert SameMember(a, b, j) && SameMember(b, c, j);
      SameMemberTransitive(a, b, c, j);
    }
  }

  lemma SameMemberTransitive(a: History, b: History, c: History, j: Id)
    requires Grows(a, b) && Grows(b, c) && SameMember(a, b, j) && SameMember(b, c, j)
    ensures SameMember(a, c, j)
  {
    forall t: nat | (j, t) in c.voted ensures (j, t) in a.voted { assert (j, t) in b.voted; }
    forall t: nat ensures Acked(c, j, t) == Acked(a, j, t) { assert Acked(b, j, t) == Acked(a, j, t); }
    forall t: nat | t in c.elections && c.elections[t].leader == j ensures t in a.elections { assert t in b.elections; }
    forall t: nat | t in a.elections && a.elections[t].leader == j && t in a.leaderLog && t in c.leaderLog
      ensures c.leaderLog[t] == a.leaderLog[t]
    {
      assert t in b.leaderLog && t in b.elections;
    }
  }

  lemma GrowsTransitive(a: History, b: History, c: History)
    requires Grows(a, b) && Grows(b, c)
    ensures Grows(a, c)
  {
    forall t: nat | t in a.leaderLog ensures t in c.leaderLog && a.leaderLog[t] <= c.leaderLog[t] {
      assert t in b.leaderLog;
    }
    forall t: nat | t in a.elections ensures t in c.elections && c.elections[t] == a.elections[t] {
      assert t in b.elections;
    }
    forall j: nat, t: nat | (j, t) in a.voted ensures (j, t) in c.voted && c.voted[(j, t)] == a.voted[(j, t)] {
      assert (j, t) in b.voted;
    }
  }
}
