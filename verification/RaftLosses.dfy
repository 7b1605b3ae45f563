/** Where leader completeness stops: for every odd cluster of three members or more, runs of the code that lose a
    committed entry, first with a late answer and then with every answer timely. */
module RaftLosses {
  import opened Common
  import opened RaftLog
  import opened RaftQuorum
  import opened RaftServer
  import opened RaftCluster
  import opened RaftSafety
  import opened RaftLimits

  const N1 := Entry(1, NULL_CMD)
  const N2 := Entry(2, NULL_CMD)
  const N3 := Entry(3, NULL_CMD)
  const N4 := Entry(4, NULL_CMD)

  ghost predicate Leading(sv: Server, n: nat, term: nat, log: seq<Entry>) {
    && Wired(sv, n) && sv.role == Leader && sv.currentTerm == term && sv.log == log
    && sv.electing == None && sv.commitIndex == 0
  }

  /** Not leading, and not in the middle of an election. */
  ghost predicate Standing(sv: Server, n: nat, term: nat, log: seq<Entry>) {
    && Wired(sv, n) && sv.role != Leader && sv.currentTerm == term && sv.log == log
    && sv.electing == None && sv.commitIndex == 0
  }

  // ---------------------------------------------------------------- what AdvanceCommit picks

  /** What AdvanceCommit picks is decided by how many members reach an index. */
  lemma CommitIs(sv: Server, ci: nat)
    requires |sv.matchIndex| > 0 && sv.role == Leader && sv.commitIndex < ci
    requires |Reaching(sv.matchIndex, ci)| >= Quorum(|sv.matchIndex|)
    requires |Reaching(sv.matchIndex, ci + 1)| < Quorum(|sv.matchIndex|)
    ensures AdvanceCommit(sv) == sv.(commitIndex := ci)
  {
    var sorted := SortDescending(sv.matchIndex);
    SameSize(sorted, sv.matchIndex);
    CommitSelection(sv.matchIndex, sorted, Quorum(|sv.matchIndex|));
  }

  /** Leader `l` moves its commit index to `ci`, the greatest index a quorum reaches. */
  lemma DoCommit(t: Trace, l: Id, ci: nat) returns (t': Trace, k: nat)
    requires t.Valid() && l < t.n && Wired(t.Now().servers[l], t.n) && t.Now().servers[l].electing == None
    requires var sv := t.Now().servers[l];
             && sv.role == Leader && sv.commitIndex < ci
             && |Reaching(sv.matchIndex, ci)| >= Quorum(t.n) && |Reaching(sv.matchIndex, ci + 1)| < Quorum(t.n)
    ensures Moved(t, t', l, t.Now().servers[l].(commitIndex := ci), {})
    ensures k < |t'.actions| && t'.actions[k] == Commit(l) && t'.states[k] == t.Now() && t'.states[k + 1] == t'.Now()
  {
    CommitIs(t.Now().servers[l], ci);
    k := |t.actions|;
    t' := Do(t, Commit(l));
  }

  lemma RangeSize(lo: nat, hi: nat)
    requires 1 <= lo <= hi
    ensures |(Ids(hi) - Ids(lo)) + {0}| == hi - lo + 1
  {
    assert Ids(lo) <= Ids(hi);
    assert |Ids(hi) - Ids(lo)| == hi - lo;
    assert 0 !in Ids(hi) - Ids(lo);
  }

  lemma ManyReach(matched: seq<nat>, lo: nat, hi: nat, ci: nat)
    requires 1 <= lo <= hi <= |matched| && matched[0] >= ci && forall m :: lo <= m < hi ==> matched[m] == ci
    ensures |Reaching(matched, ci)| >= hi - lo + 1
  {
    RangeSize(lo, hi);
    var q := (Ids(hi) - Ids(lo)) + {0};
    forall m: nat | m in q ensures m in Reaching(matched, ci) {
      assert m == 0 || lo <= m < hi;
    }
    SubsetSize(q, Reaching(matched, ci));
  }

  /** Member 0 and the members from `lo` up to `hi`, a quorum together, reach `ci`; at most member 0 goes further. */
  lemma RangeReaches(matched: seq<nat>, lo: nat, hi: nat, ci: nat)
    requires 1 <= lo <= hi <= |matched| && hi - lo + 1 >= Quorum(|matched|) >= 2 && matched[0] >= ci
    requires forall m :: lo <= m < hi ==> matched[m] == ci
    requires forall m :: 1 <= m < |matched| && !(lo <= m < hi) ==> matched[m] < ci
    ensures |Reaching(matched, ci)| >= Quorum(|matched|) && |Reaching(matched, ci + 1)| < Quorum(|matched|)
  {
    ManyReach(matched, lo, hi, ci);
    var further := Reaching(matched, ci + 1);
    forall m: nat | m in further ensures m in {0} {
      assert matched[m] >= ci + 1;
    }
    SubsetSize(further, {0});
  }

  // ---------------------------------------------------------------- an answer from an earlier leadership

  function StaleCall(m: Id): AppendCall {
    AppendCall(1, 0, m, 0, 0, 0, [N1])
  }

  /** Member 0 leads term 1, the members up to `b` have logged its entry, and their answers are in flight. */
  ghost predicate Spread(t: Trace, q: nat, b: nat) {
    && t.Valid() && t.n == 2 * q + 1 && b <= q
    && var s := t.Now();
    && Leading(s.servers[0], t.n, 1, [N1])
    && (forall m: nat :: 1 <= m < t.n ==> s.servers[0].nextIndex[m] == 1)
    && (forall m: nat :: 1 <= m <= b ==>
          s.servers[0].calls[m] == Some(StaleCall(m)) && AppendReply(StaleCall(m), Appended) in s.net)
    && (forall m: nat :: b < m < t.n ==> s.servers[0].calls[m] == None)
    && (forall m: nat :: 1 <= m <= q ==> Standing(s.servers[m], t.n, 1, if m <= b then [N1] else []))
    && (forall m: nat :: q < m < t.n ==> Standing(s.servers[m], t.n, 0, []))
  }

  lemma SpreadBegin(q: nat) returns (t: Trace)
    requires q >= 1
    ensures Spread(t, q, 0)
  {
    var t0 := Begin(2 * q + 1);
    t := LeadRange(t0, 0, 1, q + 1);
    assert t.Now().servers[0].log == [N1];
  }

  lemma SpreadOne(t: Trace, q: nat, b: nat) returns (t': Trace)
    requires Spread(t, q, b) && b < q
    ensures Spread(t', q, b + 1)
  {
    var m, sv := b + 1, t.Now().servers[0];
    assert sv.log[0..1] == [N1];
    assert MakeAppend(sv, 0, m) == Some(StaleCall(m));
    var t1 := DoSend(t, 0, m);
    TakesStale(t1.Now().servers[m], t.n, m);
    t' := DoDeliver(t1, StaleCall(m));
  }

  lemma TakesStale(sv: Server, n: nat, m: Id)
    requires Standing(sv, n, 1, [])
    ensures var (sv', result) := RaftServer.AppendToLog(sv, StaleCall(m));
            Standing(sv', n, 1, [N1]) && result == Appended
  {
    assert RaftServer.AppendToLog(sv, StaleCall(m)).0.log == [N1];
  }

  lemma {:induction false} SpreadAll(t: Trace, q: nat, b: nat) returns (t': Trace)
    requires Spread(t, q, b)
    ensures Spread(t', q, q)
    decreases q - b
  {
    if b == q {
      t' := t;
    } else {
      var t1 := SpreadOne(t, q, b);
      t' := SpreadAll(t1, q, b + 1);
    }
  }

  /** Member 0 leads term 3, and has heard the answers of term 1 of the members up to `b`. */
  ghost predicate Heard(t: Trace, q: nat, b: nat) {
    && t.Valid() && t.n == 2 * q + 1 && 1 <= q && b <= q
    && var s := t.Now();
    && Leading(s.servers[0], t.n, 3, [N1, N3])
    && s.servers[0].matchIndex[0] == 2
    && (forall m: nat :: 1 <= m < t.n ==> s.servers[0].matchIndex[m] == if m <= b then 2 else 0)
    && (forall m: nat :: b < m <= q ==>
          && s.servers[0].nextIndex[m] == 2 && s.servers[0].calls[m] == Some(StaleCall(m))
          && AppendReply(StaleCall(m), Appended) in s.net)
    && Standing(s.servers[1], t.n, 2, [N1])
    && (forall m: nat :: q < m < t.n ==> Standing(s.servers[m], t.n, 3, []))
  }

  /** Member 0 loses its leadership and leads again in term 3 before an answer arrives. */
  lemma LeadsAgain(t: Trace, q: nat) returns (t': Trace)
    requires q >= 1 && Spread(t, q, q)
    ensures Heard(t', q, 0)
  {
    var t1 := DoElect(t, 1);
    var t2 := DoVote(t1, 0, VoteRequest(2, 1, 1, 1));
    var t3 := DoLose(t2, 1);
    assert Standing(t3.Now().servers[0], t.n, 2, [N1]) && t3.Now().servers[0].calls == t.Now().servers[0].calls;
    t' := LeadRange(t3, 0, q + 1, t.n);
    assert t'.Now().servers[0].log == [N1, N3];
  }

  /** An answer of term 1 makes the leader of term 3 believe that the member holds its new entry. */
  lemma HearOne(t: Trace, q: nat, b: nat) returns (t': Trace)
    requires Heard(t, q, b) && b < q
    ensures Heard(t', q, b + 1)
  {
    t' := DoReceive(t, 0, b + 1, Appended);
  }

  lemma {:induction false} HearAll(t: Trace, q: nat, b: nat) returns (t': Trace)
    requires Heard(t, q, b)
    ensures Heard(t', q, q)
    decreases q - b
  {
    if b == q {
      t' := t;
    } else {
      var t1 := HearOne(t, q, b);
      t' := HearAll(t1, q, b + 1);
    }
  }

  /** Member 1, which does not have the committed entry, is elected by the members that have none. */
  lemma StaleLater(t: Trace, q: nat) returns (t': Trace)
    requires t.Valid() && t.n == 2 * q + 1 && q >= 1 && Standing(t.Now().servers[1], t.n, 2, [N1])
    requires forall m: nat :: q < m < t.n ==> Standing(t.Now().servers[m], t.n, 3, [])
    ensures Continues(t, t') && t'.Now().servers[1].role == Leader && t'.Now().servers[1].currentTerm == 4
    ensures t'.Now().servers[1].log == [N1, N4]
  {
    var t1 := DoElect(t, 1);
    var t2 := DoLose(t1, 1);
    t' := LeadRange(t2, 1, q + 1, t.n);
  }

  // ---------------------------------------------------------------- what is lost

  /** Step `k` of the run moves the commit index of leader `l` within its log. */
  ghost predicate AnyCommit(n: nat, states: seq<Cluster>, actions: seq<Action>, k: nat, l: Id)
    requires CodeRun(n, states, actions)
  {
    && k < |actions| && actions[k] == Commit(l) && l < |states[k].servers| && l < |states[k + 1].servers|
    && states[k].servers[l].role == Leader
    && states[k].servers[l].commitIndex < states[k + 1].servers[l].commitIndex <= |states[k].servers[l].log|
  }

  /** Member `j` leads, in state `m`, a later term than the committing leader's. */
  ghost predicate LaterLeader(states: seq<Cluster>, k: nat, l: Id, m: nat, j: Id) {
    && k < |states| && l < |states[k].servers| && m < |states| && j < |states[m].servers|
    && states[m].servers[j].role == Leader && states[m].servers[j].currentTerm > states[k].servers[l].currentTerm
  }

  /** What was committed at `k` is in the log of `j` in state `m`. */
  ghost predicate Holds(states: seq<Cluster>, k: nat, l: Id, m: nat, j: Id)
    requires LaterLeader(states, k, l, m, j)
  {
    && k + 1 < |states| && l < |states[k + 1].servers|
    && states[k + 1].servers[l].commitIndex <= |states[k].servers[l].log|
    && states[k].servers[l].log[..states[k + 1].servers[l].commitIndex] <= states[m].servers[j].log
  }

  /** In a cluster of any odd size but one, a late answer loses an entry committed in its own term. */
  lemma StaleReplyLosesCommit(n: nat) returns (t: Trace, k: nat, j: Id)
    requires n % 2 == 1 && n >= 3
    ensures t.Valid() && t.n == n && OwnTermCommit(n, t.states, t.actions, k, 0)
    ensures LaterLeader(t.states, k, 0, |t.actions|, j) && !Holds(t.states, k, 0, |t.actions|, j)
  {
    var q := n / 2;
    var t0 := SpreadBegin(q);
    t0 := SpreadAll(t0, q, 0);
    t0 := LeadsAgain(t0, q);
    t0 := HearAll(t0, q, 0);
    RangeReaches(t0.Now().servers[0].matchIndex, 1, q + 1, 2);
    var t1;
    t1, k := DoCommit(t0, 0, 2);
    t := StaleLater(t1, q);
    j := 1;
    assert t.states[k] == t1.states[k] && t.states[k + 1] == t1.states[k + 1] && t.actions[k] == t1.actions[k];
    assert t.states[k].servers[0].log[..2] == [N1, N3];
  }

  // ---------------------------------------------------------------- committing an entry of an earlier term

  /** As many entries of term 1 as one batch takes, or fewer. */
  function FirstTermLog(k: nat): seq<Entry> {
    seq(k, _ => N1)
  }

  /** Member 0 leads term 1 with `k` entries that nobody else has. */
  ghost predicate Alone(t: Trace, q: nat, k: nat) {
    && t.Valid() && t.Timely() && t.n == 2 * q + 1 && 1 <= q
    && var s := t.Now();
    && Leading(s.servers[0], t.n, 1, FirstTermLog(k))
    && (forall m: nat :: 1 <= m < t.n ==> s.servers[0].calls[m] == None)
    && (forall m: nat :: 1 <= m <= q ==> Standing(s.servers[m], t.n, 1, []))
    && (forall m: nat :: q < m < t.n ==> Standing(s.servers[m], t.n, 0, []))
  }

  lemma AloneBegin(q: nat) returns (t: Trace)
    requires q >= 1
    ensures Alone(t, q, 1)
  {
    var t0 := Begin(2 * q + 1);
    t := LeadRange(t0, 0, 1, q + 1);
    assert t.Now().servers[0].log == FirstTermLog(1);
  }

  lemma {:induction false} AloneAppends(t: Trace, q: nat, k: nat) returns (t': Trace)
    requires Alone(t, q, k) && k <= BATCH
    ensures Alone(t', q, BATCH)
    decreases BATCH - k
  {
    if k == BATCH {
      t' := t;
    } else {
      OwnAppend(t.Now().servers[0].log, N1);
      assert FirstTermLog(k) + [N1] == FirstTermLog(k + 1);
      var t1 := DoAppend(t, 0, NULL_CMD);
      t' := AloneAppends(t1, q, k + 1);
    }
  }

  /** Member 0 leads term 3 and has brought the members up to `done` up to its last entry of term 1; it is trying
      `next` for the one after. Member 1 has an entry of term 2. */
  ghost predicate BackingUp(t: Trace, q: nat, done: nat, next: nat) {
    && t.Valid() && t.Timely() && t.n == 2 * q + 1 && 1 <= q <= done < t.n
    && var s := t.Now();
    && Leading(s.servers[0], t.n, 3, FirstTermLog(BATCH) + [N3])
    && s.servers[0].matchIndex[0] == BATCH + 1
    && (forall m: nat :: 1 <= m < t.n ==> s.servers[0].matchIndex[m] == if q < m <= done then BATCH else 0)
    && (forall m: nat :: done < m < t.n ==>
          s.servers[0].calls[m] == None && s.servers[0].nextIndex[m] == if m == done + 1 then next else BATCH + 1)
    && Standing(s.servers[1], t.n, 3, [N2])
    && (forall m: nat :: q < m < t.n ==> Standing(s.servers[m], t.n, 3, if m <= done then FirstTermLog(BATCH) else []))
  }

  /** Member 1 leads term 2 meanwhile, and member 0 steps down. */
  lemma LeadsSecond(t: Trace, q: nat) returns (t': Trace)
    requires Alone(t, q, BATCH)
    ensures t'.Valid() && t'.Timely() && t'.n == t.n
    ensures var s := t'.Now().servers;
            && Standing(s[0], t.n, 2, FirstTermLog(BATCH)) && s[0].commitIndex == 0
            && (forall m: nat :: 1 <= m < t.n ==> s[0].calls[m] == None)
            && Leading(s[1], t.n, 2, [N2])
            && (forall m: nat :: q < m < t.n ==> Standing(s[m], t.n, 2, []))
  {
    var t1 := LeadRange(t, 1, q + 1, t.n);
    assert t1.Now().servers[1].log == [N2];
    t' := DoVote(t1, 0, VoteRequest(2, 1, 0, 0));
  }

  /** Then member 0 leads term 3, and member 1 steps down. */
  lemma LeadsThird(t: Trace, q: nat) returns (t': Trace)
    requires Alone(t, q, BATCH)
    ensures BackingUp(t', q, q, BATCH + 1)
  {
    var t1 := LeadsSecond(t, q);
    var t2 := LeadRange(t1, 0, q + 1, t.n);
    t' := DoVote(t2, 1, VoteRequest(3, 0, 1, BATCH));
    assert Standing(t'.Now().servers[1], t.n, 3, [N2]);
  }

  /** A call goes out, is answered, and the answer arrives in the same leadership. */
  lemma RoundTrip(t: Trace, l: Id, m: Id, c: AppendCall) returns (t': Trace)
    requires t.Valid() && l < t.n && m < t.n && l != m && t.Now().servers[l].role == Leader
    requires Wired(t.Now().servers[l], t.n) && t.Now().servers[l].calls[m] == None
    requires MakeAppend(t.Now().servers[l], l, m) == Some(c)
    ensures t'.Valid() && t'.n == t.n && (t.Timely() ==> t'.Timely())
    ensures var s, s' := t.Now().servers, t'.Now().servers;
            var (f, result) := RaftServer.AppendToLog(s[m], c);
            && s'[l] == HandleReply(s[l], m, |c.batch|, Some(result)) && s'[m] == f
            && forall v: nat :: v < t.n && v != l && v != m ==> s'[v] == s[v]
  {
    var t1 := DoSend(t, l, m);
    var t2 := DoDeliver(t1, c);
    var (f, result) := RaftServer.AppendToLog(t.Now().servers[m], c);
    assert t1.Now().servers[m] == t.Now().servers[m] && t2.Now().servers[l] == t1.Now().servers[l];
    assert AppendReply(c, result) in t2.Now().net;
    t' := DoReceive(t2, l, m, result);
    SentAndHeard(t.Now().servers[l], m, c, result);
  }

  lemma SentAndHeard(sv: Server, m: Id, c: AppendCall, result: AppendResult)
    requires m < |sv.nextIndex| && m < |sv.matchIndex| && m < |sv.calls|
    ensures HandleReply(sv.(calls := sv.calls[m := Some(c)]), m, |c.batch|, Some(result))
            == HandleReply(sv, m, |c.batch|, Some(result))
  {
    assert sv.calls[m := Some(c)][m := None] == sv.calls[m := None];
  }

  lemma BackUpOnce(t: Trace, q: nat, done: nat, next: nat) returns (t': Trace)
    requires BackingUp(t, q, done, next) && done + 1 < t.n && 1 < next <= BATCH + 1
    ensures BackingUp(t', q, done, next - 1)
  {
    var c := MakeAppend(t.Now().servers[0], 0, done + 1).value;
    assert c.prevIndex == next - 1 > 0;
    t' := RoundTrip(t, 0, done + 1, c);
  }

  lemma {:induction false} BackUp(t: Trace, q: nat, done: nat, next: nat) returns (t': Trace)
    requires BackingUp(t, q, done, next) && done + 1 < t.n && 1 <= next <= BATCH + 1
    ensures BackingUp(t', q, done, 1)
    decreases next
  {
    if next == 1 {
      t' := t;
    } else {
      var t1 := BackUpOnce(t, q, done, next);
      t' := BackUp(t1, q, done, next - 1);
    }
  }

  /** The call that a whole batch goes out in, and what it makes of an empty log. */
  lemma WholeBatch(sv: Server, m: Id, f: Server) returns (c: AppendCall)
    requires m < |sv.nextIndex| && sv.nextIndex[m] == 1 && sv.log == FirstTermLog(BATCH) + [N3]
    requires sv.currentTerm == 3 && f.log == [] && f.currentTerm == 3
    ensures MakeAppend(sv, 0, m) == Some(c) && c.to == m && c.term == 3 && |c.batch| == BATCH
    ensures RaftServer.AppendToLog(f, c) ==
            (f.(leader := Some(0), role := Follower, log := FirstTermLog(BATCH)), Appended)
  {
    c := MakeAppend(sv, 0, m).value;
    assert c.batch == FirstTermLog(BATCH) && c.prevIndex == 0;
    assert Merge(f.log, 0, c.batch) == FirstTermLog(BATCH);
  }

  /** A whole batch stops just short of the leader's own entry. */
  lemma SendBatch(t: Trace, q: nat, done: nat) returns (t': Trace)
    requires BackingUp(t, q, done, 1) && done + 1 < t.n
    ensures BackingUp(t', q, done + 1, BATCH + 1)
  {
    var sv, m := t.Now().servers[0], done + 1;
    var c := WholeBatch(sv, m, t.Now().servers[m]);
    t' := RoundTrip(t, 0, m, c);
    BatchHeard(t, t', q, done);
  }

  /** What the leader knows, and what the member has, once the answer is in. */
  lemma BatchHeard(t: Trace, t': Trace, q: nat, done: nat)
    requires BackingUp(t, q, done, 1) && done + 1 < t.n && t'.Valid() && t'.Timely() && t'.n == t.n
    requires var m, s, s' := done + 1, t.Now().servers, t'.Now().servers;
             && s'[0] == s[0].(calls := s[0].calls[m := None], nextIndex := s[0].nextIndex[m := BATCH + 1],
                               matchIndex := s[0].matchIndex[m := BATCH])
             && s'[m] == s[m].(leader := Some(0), role := Follower, log := FirstTermLog(BATCH))
             && forall v: nat :: v < t.n && v != 0 && v != m ==> s'[v] == s[v]
    ensures BackingUp(t', q, done + 1, BATCH + 1)
  {
  }

  lemma {:induction false} SendBatches(t: Trace, q: nat, done: nat) returns (t': Trace)
    requires BackingUp(t, q, done, BATCH + 1)
    ensures BackingUp(t', q, 2 * q, BATCH + 1)
    decreases 2 * q - done
  {
    if done == 2 * q {
      t' := t;
    } else {
      var t1 := BackUp(t, q, done, BATCH + 1);
      var t2 := SendBatch(t1, q, done);
      t' := SendBatches(t2, q, done + 1);
    }
  }

  /** Member 1 is elected with its entry of term 2 by the members that hold the committed ones. */
  lemma OldLater(t: Trace, q: nat) returns (t': Trace)
    requires t.Valid() && t.n == 2 * q + 1 && q >= 1 && Standing(t.Now().servers[1], t.n, 3, [N2])
    requires forall m: nat :: q < m < t.n ==> Standing(t.Now().servers[m], t.n, 3, FirstTermLog(BATCH))
    ensures Continues(t, t') && t'.Now().servers[1].role == Leader && t'.Now().servers[1].currentTerm == 4
    ensures t'.Now().servers[1].log == [N2, N4]
  {
    t' := LeadRange(t, 1, q + 1, t.n);
  }

  /** In a cluster of any odd size but one, a commit of an entry of an earlier term is lost with every answer timely:
      the commit rule counts replicas and does not look at the entry's term. */
  lemma OldTermCommitLost(n: nat) returns (t: Trace, k: nat, j: Id)
    requires n % 2 == 1 && n >= 3
    ensures t.Valid() && t.n == n && Run(n, t.states, t.actions) && AnyCommit(n, t.states, t.actions, k, 0)
    ensures var sv := t.states[k].servers[0];
            sv.log[t.states[k + 1].servers[0].commitIndex - 1].term < sv.currentTerm
    ensures LaterLeader(t.states, k, 0, |t.actions|, j) && !Holds(t.states, k, 0, |t.actions|, j)
  {
    var q := n / 2;
    var t0 := AloneBegin(q);
    t0 := AloneAppends(t0, q, 1);
    t0 := LeadsThird(t0, q);
    t0 := SendBatches(t0, q, q);
    RangeReaches(t0.Now().servers[0].matchIndex, q + 1, n, BATCH);
    var t1;
    t1, k := DoCommit(t0, 0, BATCH);
    t := OldLater(t1, q);
    j := 1;
    assert t.states[k] == t1.states[k] && t.states[k + 1] == t1.states[k + 1] && t.actions[k] == t1.actions[k];
    assert t.states[k].servers[0].log[..BATCH][0] == N1;
  }

  // ---------------------------------------------------------------- a cluster of one

  /** Nothing but a member's own appends ever touches its log. */
  ghost predicate Solo(s: Cluster) {
    |s.servers| == 1 && forall m :: m in s.net ==> !m.AppendRequest?
  }

  lemma SoloLog(sv: Server, cmd: Cmd, oks: nat, highest: nat)
    requires |sv.matchIndex| == 1
    ensures sv.log <= RaftServer.Append(sv, 0, cmd).log && sv.log <= FinishElection(sv, 0, oks, highest).log
    ensures sv.currentTerm <= FinishElection(sv, 0, oks, highest).currentTerm
  {
    OwnAppend(sv.log, Entry(sv.currentTerm, cmd));
    OwnAppend(sv.log, Entry(sv.currentTerm, NULL_CMD));
  }

  lemma SoloNet(s: Cluster, a: Action)
    requires Solo(s) && Enabled(s, a)
    ensures Solo(Step(s, a))
  {
    OnlyActor(s, a);
  }

  lemma SoloStep(s: Cluster, a: Action)
    requires Solo(s) && Enabled(s, a)
    ensures Solo(Step(s, a))
    ensures s.servers[0].log <= Step(s, a).servers[0].log
    ensures s.servers[0].currentTerm <= Step(s, a).servers[0].currentTerm
  {
    SoloNet(s, a);
    match a
    case ClientAppend(_, cmd) => SoloLog(s.servers[0], cmd, 0, 0);
    case CountVotes(_, answers, highest) => SoloLog(s.servers[0], NULL_CMD, 1 + |Granted(answers)|, highest);
    case _ =>
  }

  lemma {:induction false} SoloRun(states: seq<Cluster>, actions: seq<Action>, a: nat, b: nat)
    requires CodeRun(1, states, actions) && a <= b < |states|
    ensures Solo(states[a]) && Solo(states[b])
    ensures states[a].servers[0].log <= states[b].servers[0].log
    ensures states[a].servers[0].currentTerm <= states[b].servers[0].currentTerm
    decreases b
  {
    if b > 0 {
      var c := if a < b then a else b - 1;
      SoloRun(states, actions, c, b - 1);
      assert states[b] == Step(states[b - 1], actions[b - 1]);
      SoloStep(states[b - 1], actions[b - 1]);
    }
  }

  lemma SoloHolds(states: seq<Cluster>, actions: seq<Action>, k: nat, l: Id, m: nat, j: Id)
    requires CodeRun(1, states, actions) && AnyCommit(1, states, actions, k, l) && LaterLeader(states, k, l, m, j)
    ensures Holds(states, k, l, m, j)
  {
    SoloRun(states, actions, k, k + 1);
    if m <= k {
      SoloRun(states, actions, m, k);
    } else {
      SoloRun(states, actions, k, m);
    }
  }

  // ---------------------------------------------------------------- exactly when

  /** In every run of the code, every leader of a later term holds what an earlier one committed in its own term. */
  ghost predicate Complete(n: nat) {
    forall states: seq<Cluster>, actions: seq<Action>, k: nat, l: nat, m: nat, j: nat ::
      CodeRun(n, states, actions) && OwnTermCommit(n, states, actions, k, l) && LaterLeader(states, k, l, m, j)
      ==> Holds(states, k, l, m, j)
  }

  /** In every run with timely answers, every leader of a later term holds what an earlier one committed. */
  ghost predicate CompleteForAnyTerm(n: nat) {
    forall states: seq<Cluster>, actions: seq<Action>, k: nat, l: nat, m: nat, j: nat ::
      Run(n, states, actions) && AnyCommit(n, states, actions, k, l) && LaterLeader(states, k, l, m, j)
      ==> Holds(states, k, l, m, j)
  }

  /** Without the premise on answers, completeness holds for no odd size but one. */
  lemma CompleteIffAlone(n: nat)
    requires n % 2 == 1
    ensures Complete(n) <==> n == 1
  {
    if n == 1 {
      forall states: seq<Cluster>, actions: seq<Action>, k: nat, l: nat, m: nat, j: nat |
        CodeRun(n, states, actions) && OwnTermCommit(n, states, actions, k, l) && LaterLeader(states, k, l, m, j)
        ensures Holds(states, k, l, m, j)
      {
        SoloHolds(states, actions, k, l, m, j);
      }
    } else {
      var t, k, j := StaleReplyLosesCommit(n);
      assert !Holds(t.states, k, 0, |t.actions|, j);
    }
  }

  /** With the premise, completeness for entries of any term holds for no odd size but one. */
  lemma AnyTermCompleteIffAlone(n: nat)
    requires n % 2 == 1
    ensures CompleteForAnyTerm(n) <==> n == 1
  {
    if n == 1 {
      forall states: seq<Cluster>, actions: seq<Action>, k: nat, l: nat, m: nat, j: nat |
        Run(n, states, actions) && AnyCommit(n, states, actions, k, l) && LaterLeader(states, k, l, m, j)
        ensures Holds(states, k, l, m, j)
      {
        SoloHolds(states, actions, k, l, m, j);
      }
    } else {
      var t, k, j := OldTermCommitLost(n);
      assert !Holds(t.states, k, 0, |t.actions|, j);
    }
  }
}
