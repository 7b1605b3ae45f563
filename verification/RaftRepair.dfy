/** updateFollower against a follower that answers every call: it terminates and leaves the follower
    with the leader's log. */
module RaftRepair {
  import opened Common
  import opened RaftLog
  import opened RaftServer
  import opened RaftCluster
  import opened RaftInvariant
  import opened RaftSteps
  import opened RaftIndices
  import opened RaftSafety

  /** Log matching between the two logs: equal terms at one index mean equal logs up to it. */
  ghost predicate Matching(a: seq<Entry>, b: seq<Entry>) {
    forall k: nat {:trigger MatchAt(a, b, k)} :: k < |a| && k < |b| ==> MatchAt(a, b, k)
  }

  ghost predicate MatchAt(a: seq<Entry>, b: seq<Entry>, k: nat)
    requires k < |a| && k < |b|
  {
    a[k].term == b[k].term ==> a[..k + 1] == b[..k + 1]
  }

  ghost predicate Repairing(leader: Server, follower: Server, me: Id, m: Id) {
    && leader.role == Leader && m < |leader.nextIndex| && m < |leader.matchIndex| && m < |leader.calls|
    && 1 <= leader.nextIndex[m] <= |leader.log| + 1
    && follower.currentTerm <= leader.currentTerm
    && Matching(follower.log, leader.log)
  }

  /** In every run with timely answers, a leader can repair any member that is not ahead of its term. */
  lemma RunRepairs(n: nat, states: seq<Cluster>, actions: seq<Action>, k: nat, l: Id, m: Id)
    requires Run(n, states, actions) && n % 2 == 1 && k < |states| && l < n && m < n && l != m
    requires |states[k].servers| == n && states[k].servers[l].role == Leader
    requires states[k].servers[m].currentTerm <= states[k].servers[l].currentTerm
    ensures Repairing(states[k].servers[l], states[k].servers[m], l, m)
  {
    var leader, follower := states[k].servers[l], states[k].servers[m];
    RunInv(n, states, actions, k);
    RunIndices(n, states, actions, k);
    assert ServerInv(states[k].hist, n, l, leader) && IndexInv(states[k].hist, l, leader);
    forall i: nat | i < |follower.log| && i < |leader.log| ensures MatchAt(follower.log, leader.log, i) {
      if follower.log[i].term == leader.log[i].term {
        LogMatching(n, states, actions, k, k, m, l, i);
      }
    }
  }

  /** A batch cut from the leader's log, accepted after `prev`, leaves the two logs matching and equal up
      to the end of the batch. */
  lemma Accepted(log: seq<Entry>, l: seq<Entry>, prev: nat, batch: seq<Entry>)
    requires Matching(log, l) && prev + |batch| <= |l| && batch == l[prev..prev + |batch|]
    requires Follows(log, LastTerm(l[..prev]), prev)
    ensures prev <= |log|
    ensures var r := Merge(log, prev, batch);
            l[..prev + |batch|] <= r && (r == log || r == l[..prev + |batch|]) && Matching(r, l)
  {
    if prev > 0 {
      assert l[..prev][prev - 1] == l[prev - 1];
      assert MatchAt(log, l, prev - 1);
    }
    assert TermsDecide(log, l, prev, prev + |batch|) by {
      forall k | prev <= k < prev + |batch| && k < |log| && log[k].term == l[k].term
        ensures log[..k + 1] == l[..k + 1]
      {
        assert MatchAt(log, l, k);
      }
    }
    MergeSlice(log, prev, batch, l);
    PrefixMatching(l, prev + |batch|);
  }

  lemma PrefixMatching(l: seq<Entry>, end: nat)
    requires end <= |l|
    ensures Matching(l[..end], l)
  {
  }

  /** A follower that holds the leader's log up to `prev` passes the check there. */
  lemma Refused(log: seq<Entry>, l: seq<Entry>, prev: nat)
    requires prev <= |l| && !Follows(log, LastTerm(l[..prev]), prev)
    ensures prev > 0 && !(l[..prev] <= log)
  {
    if prev > 0 {
      assert l[..prev][prev - 1] == l[prev - 1];
    }
  }

  /** What an answer to `count` entries from `next` on says: the follower is in the leader's term, and
      either it now holds the leader's log up to the last entry sent, or it is unchanged and did not
      hold the log up to `next`. */
  ghost predicate Answered(
      l: seq<Entry>, term: nat, next: nat, count: nat, follower: Server, f: Server, result: AppendResult)
    requires 1 <= next <= |l| + 1
  {
    && result != BadTerm && f.currentTerm == term
    && Matching(f.log, l)
    && (l[..next - 1] <= follower.log ==> result == Appended)
    && next - 1 + count <= |l| && (next <= |l| ==> count > 0)
    && (result == Appended ==> l[..next - 1 + count] <= f.log)
    && (f.log == follower.log || f.log <= l)
    && (result == OutOfSequence ==> f.log == follower.log && next > 1)
  }

  /** One round: send what follows nextIndex, and the follower either appends or refuses. */
  lemma Round(leader: Server, follower: Server, me: Id, m: Id)
    requires Repairing(leader, follower, me, m)
    ensures MakeAppend(leader, me, m).Some?
    ensures var c := MakeAppend(leader, me, m).value;
            var (f, result) := AppendToLog(follower, c);
            Answered(leader.log, leader.currentTerm, leader.nextIndex[m], |c.batch|, follower, f, result)
  {
    var c := MakeAppend(leader, me, m).value;
    if Follows(follower.log, c.prevTerm, c.prevIndex) {
      Accepted(follower.log, leader.log, c.prevIndex, c.batch);
    } else {
      Refused(follower.log, leader.log, c.prevIndex);
    }
  }

  /** The call to the follower. */
  method Call(leader: Server, follower: Server, me: Id, m: Id) returns (count: nat, f: Server, result: AppendResult)
    requires Repairing(leader, follower, me, m)
    ensures Answered(leader.log, leader.currentTerm, leader.nextIndex[m], count, follower, f, result)
  {
    var c := MakeAppend(leader, me, m).value;
    Round(leader, follower, me, m);
    count := |c.batch|;
    var (f', result') := AppendToLog(follower, c);
    f, result := f', result';
  }

  /** The leader's indices after the answer. */
  lemma Advance(leader: Server, f: Server, me: Id, m: Id, count: nat, result: AppendResult)
    requires leader.role == Leader && m < |leader.nextIndex| && m < |leader.matchIndex| && m < |leader.calls|
    requires 1 <= leader.nextIndex[m] <= |leader.log| + 1 && leader.nextIndex[m] - 1 + count <= |leader.log|
    requires result == Appended || (result == OutOfSequence && leader.nextIndex[m] > 1)
    ensures var l := HandleReply(leader, m, count, Some(result));
            && l == leader.(nextIndex := l.nextIndex, matchIndex := l.matchIndex, calls := l.calls)
            && |l.nextIndex| == |leader.nextIndex| && |l.matchIndex| == |leader.matchIndex|
            && |l.calls| == |leader.calls|
            && l.nextIndex[m] == (if result == Appended then leader.nextIndex[m] + count else leader.nextIndex[m] - 1)
            && (result == Appended && count == 0 ==>
                  l.nextIndex == leader.nextIndex && l.matchIndex == leader.matchIndex)
            && (result == Appended && count > 0 ==> l.matchIndex[m] == l.nextIndex[m] - 1)
  {
  }

  /** One iteration of updateFollower: send, let the follower answer, and move the indices. */
  method Exchange(leader: Server, follower: Server, me: Id, m: Id) returns (l: Server, f: Server, ok: bool)
    requires Repairing(leader, follower, me, m)
    ensures Repairing(l, f, me, m) && l.log == leader.log && l.currentTerm == leader.currentTerm
    ensures f.currentTerm == l.currentTerm && (f.log == follower.log || f.log <= l.log)
    ensures leader.log[..leader.nextIndex[m] - 1] <= follower.log ==> ok
    ensures ok ==> l.log[..l.nextIndex[m] - 1] <= f.log
    ensures ok ==>
              if leader.nextIndex[m] > |l.log| then l.nextIndex == leader.nextIndex && l.matchIndex == leader.matchIndex
              else l.nextIndex[m] > leader.nextIndex[m] && l.matchIndex[m] == l.nextIndex[m] - 1
    ensures !ok ==> f.log == follower.log && l.nextIndex[m] == leader.nextIndex[m] - 1
  {
    var count, result;
    count, f, result := Call(leader, follower, me, m);
    Advance(leader, f, me, m, count, result);
    l := HandleReply(leader, m, count, Some(result));
    ok := result == Appended;
  }

  /** What becomes of a call: it is answered, it does not arrive, or its answer does not. */
  datatype Fate = Answer | NoRequest | NoReply

  /** The loop of updateFollower, up to the first call that fails: nextIndex falls until the logs meet, then rises past
      the leader's last index. If no call fails, the follower ends up with the leader's whole log, and is left alone if
      it already had it; if one does, the loop ends where a later one can take up. */
  method UpdateFollower(leader0: Server, follower0: Server, me: Id, m: Id, fate: nat -> Fate)
    returns (leader: Server, follower: Server, calls: nat)
    requires Repairing(leader0, follower0, me, m)
    ensures Repairing(leader, follower, me, m)
    ensures leader.log == leader0.log && leader.currentTerm == leader0.currentTerm
    ensures follower.log == follower0.log || follower.log <= leader.log
    ensures forall k: nat :: k < calls ==> fate(k) == Answer
    ensures fate(calls) == Answer ==>
              && leader.log <= follower.log && (follower.log == leader.log || follower.log == follower0.log)
              && leader.nextIndex[m] == |leader.log| + 1 && follower.currentTerm == leader.currentTerm
              && (leader.matchIndex[m] == |leader.log|
                  || (leader0.nextIndex[m] == |leader.log| + 1 && leader.matchIndex == leader0.matchIndex))
  {
    leader, follower, calls := leader0, follower0, 0;
    var matched := false;
    while true
      invariant Repairing(leader, follower, me, m)
      invariant leader.log == leader0.log && leader.currentTerm == leader0.currentTerm
      invariant follower.log == follower0.log || follower.log <= leader.log
      invariant leader.nextIndex[m] == |leader.log| + 1 ==>
                  leader.nextIndex == leader0.nextIndex && leader.matchIndex == leader0.matchIndex
      invariant matched ==> leader.log[..leader.nextIndex[m] - 1] <= follower.log
      invariant forall k: nat :: k < calls ==> fate(k) == Answer
      decreases if matched then 0 else 1,
          if matched then |leader.log| + 1 - leader.nextIndex[m] else leader.nextIndex[m]
    {
      if fate(calls) == NoRequest {
        return;
      }
      if fate(calls) == NoReply {
        follower := Unheard(leader, follower, me, m);
        return;
      }
      var ok;
      leader, follower, ok := Exchange(leader, follower, me, m);
      if !ok {
        calls := calls + 1;
        continue;
      }
      matched := true;
      if leader.nextIndex[m] > |leader.log| {
        return;
      }
      calls := calls + 1;
    }
  }

  /** The follower handles the call, and the leader never hears of it. */
  method Unheard(leader: Server, follower: Server, me: Id, m: Id) returns (f: Server)
    requires Repairing(leader, follower, me, m)
    ensures Repairing(leader, f, me, m) && (f.log == follower.log || f.log <= leader.log)
  {
    var count, result;
    count, f, result := Call(leader, follower, me, m);
  }
}
