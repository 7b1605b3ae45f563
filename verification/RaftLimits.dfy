/** Building runs of the code, and where election safety stops: for exactly the even sizes. */
module RaftLimits {
  import opened Common
  import opened RaftLog
  import opened RaftQuorum
  import opened RaftServer
  import opened RaftCluster
  import opened RaftSafety

  /** A run under construction. */
  datatype Trace = Trace(n: nat, states: seq<Cluster>, actions: seq<Action>) {
    ghost predicate Valid() {
      CodeRun(n, states, actions) && |states[|actions|].servers| == n && AllWired(states[|actions|])
    }

    ghost predicate Timely() {
      forall k {:trigger actions[k]} :: 0 <= k < |actions| && k < |states| && Enabled(states[k], actions[k]) ==>
        RaftCluster.Timely(states[k], actions[k])
    }

    ghost function Now(): Cluster
      requires Valid()
    {
      states[|actions|]
    }
  }

  lemma StepWired(s: Cluster, a: Action)
    requires Enabled(s, a)
    ensures |Step(s, a).servers| == |s.servers| && AllWired(Step(s, a))
  {
    OnlyActor(s, a);
    var i := Actor(a);
    assert Wired(s.servers[i], |s.servers|);
    assert Wired(Step(s, a).servers[i], |s.servers|);
  }

  lemma Do(t: Trace, a: Action) returns (t': Trace)
    requires t.Valid() && Enabled(t.Now(), a)
    ensures t'.Valid() && t'.n == t.n && t'.Now() == Step(t.Now(), a)
    ensures t'.states == t.states + [t'.Now()] && t'.actions == t.actions + [a]
    ensures t.Timely() && Timely(t.Now(), a) ==> t'.Timely()
  {
    var s' := Step(t.Now(), a);
    t' := Trace(t.n, t.states + [s'], t.actions + [a]);
    StepWired(t.Now(), a);
    assert CodeRun(t'.n, t'.states, t'.actions) by {
      forall k | 0 <= k < |t'.actions|
        ensures Enabled(t'.states[k], t'.actions[k]) && t'.states[k + 1] == Step(t'.states[k], t'.actions[k])
      {
        if k < |t.actions| { assert t'.actions[k] == t.actions[k]; }
      }
    }
    if t.Timely() && Timely(t.Now(), a) {
      forall k | 0 <= k < |t'.actions| && k < |t'.states| && Enabled(t'.states[k], t'.actions[k])
        ensures RaftCluster.Timely(t'.states[k], t'.actions[k])
      {
        if k < |t.actions| { assert t'.actions[k] == t.actions[k]; }
      }
    }
  }

  lemma Begin(n: nat) returns (t: Trace)
    requires n > 0
    ensures t.Valid() && t.Timely() && t.n == n && Init(n, t.Now())
  {
    var s := Cluster(seq(n, (i: nat) => Boot(i, n, 0, None, [])), {}, History(map[], map[], map[], map[]));
    t := Trace(n, [s], []);
  }

  /** `t'` goes on from `t`. */
  ghost predicate Continues(t: Trace, t': Trace) {
    && t.Valid() && t'.Valid() && t'.n == t.n && t.states <= t'.states && t.actions <= t'.actions
    && (t.Timely() ==> t'.Timely()) && t.Now().net <= t'.Now().net
  }

  // ---------------------------------------------------------------- steps seen from the members

  /** `t'` continues `t` by one step of member `i`, which becomes `sv` and sends `msgs`. */
  ghost predicate Moved(t: Trace, t': Trace, i: Id, sv: Server, msgs: set<Msg>) {
    && Continues(t, t') && i < t.n
    && t'.Now().servers == t.Now().servers[i := sv]
    && t'.Now().net == t.Now().net + msgs
  }

  lemma DoElect(t: Trace, c: Id) returns (t': Trace)
    requires t.Valid() && c < t.n && t.Now().servers[c].electing == None && t.Now().servers[c].role != Leader
    ensures var sv := t.Now().servers[c];
            Moved(t, t', c, RaftServer.StartElection(sv, c),
                  {VoteRequest(sv.currentTerm + 1, c, LastTerm(sv.log), |sv.log|)})
  {
    t' := Do(t, Elect(c));
  }

  lemma DoVote(t: Trace, v: Id, req: Msg) returns (t': Trace)
    requires t.Valid() && v < t.n && req in t.Now().net && req.VoteRequest? && v != req.candidate
    ensures var (sv, term, ok) :=
              RequestVote(t.Now().servers[v], req.term, req.candidate, req.lastTerm, req.lastIndex);
            Moved(t, t', v, sv, {VoteReply(req.term, req.candidate, v, term, ok)})
  {
    t' := Do(t, DeliverVote(v, req));
  }

  /** A candidate that got no vote but its own gives up its election, and stays candidate. */
  lemma DoLose(t: Trace, c: Id) returns (t': Trace)
    requires t.Valid() && c < t.n && t.Now().servers[c].electing.Some? && !WinningCount(t.n, 1)
    ensures Moved(t, t', c, t.Now().servers[c].(electing := None), {})
  {
    var answers: Answers := map[];
    assert Granted(answers) == {};
    assert Wired(t.Now().servers[c], t.n);
    t' := Do(t, CountVotes(c, answers, 0));
  }

  lemma DoSend(t: Trace, i: Id, m: Id) returns (t': Trace)
    requires t.Valid() && i < t.n && m < t.n && i != m && t.Now().servers[i].role == Leader
    requires Wired(t.Now().servers[i], t.n) && t.Now().servers[i].calls[m] == None
    requires MakeAppend(t.Now().servers[i], i, m).Some?
    ensures var sv := t.Now().servers[i];
            Moved(t, t', i, sv.(calls := sv.calls[m := MakeAppend(sv, i, m)]),
                  {AppendRequest(MakeAppend(sv, i, m).value)})
  {
    t' := Do(t, Send(i, m));
  }

  lemma DoDeliver(t: Trace, c: AppendCall) returns (t': Trace)
    requires t.Valid() && AppendRequest(c) in t.Now().net && c.to < t.n
    ensures var (sv, result) := RaftServer.AppendToLog(t.Now().servers[c.to], c);
            Moved(t, t', c.to, sv, {AppendReply(c, result)})
  {
    t' := Do(t, DeliverAppend(AppendRequest(c)));
  }

  /** The answer to the call in flight arrives; whether it is timely is for the caller to know. */
  lemma DoReceive(t: Trace, i: Id, m: Id, result: AppendResult) returns (t': Trace)
    requires t.Valid() && i < t.n && m < t.n && Wired(t.Now().servers[i], t.n) && t.Now().servers[i].calls[m].Some?
    requires AppendReply(t.Now().servers[i].calls[m].value, result) in t.Now().net
    ensures t'.Valid() && t'.n == t.n && t.states <= t'.states && t.actions <= t'.actions && t'.Now().net == t.Now().net
    ensures var sv := t.Now().servers[i];
            t'.Now().servers == t.Now().servers[i := HandleReply(sv, m, |sv.calls[m].value.batch|, Some(result))]
    ensures t.Timely() && t.Now().servers[i].calls[m].value.term == t.Now().servers[i].currentTerm ==> t'.Timely()
  {
    t' := Do(t, Receive(i, m, result));
  }

  lemma DoAppend(t: Trace, i: Id, cmd: Cmd) returns (t': Trace)
    requires t.Valid() && i < t.n && Wired(t.Now().servers[i], t.n)
    ensures Moved(t, t', i, RaftServer.Append(t.Now().servers[i], i, cmd), {})
  {
    t' := Do(t, ClientAppend(i, cmd));
  }

  // ---------------------------------------------------------------- elections by a range of voters

  ghost predicate Grants(sv: Server, term: nat, c: Id, lastTerm: nat, lastIndex: nat) {
    RequestVote(sv, term, c, lastTerm, lastIndex).2
  }

  ghost function Voted(sv: Server, term: nat, c: Id): Server {
    sv.(currentTerm := term, votedFor := Some(c), role := Follower)
  }

  /** The members from `lo` up to `hi` grant `c` their votes, one after the other. */
  lemma {:induction false} PollRange(t: Trace, req: Msg, lo: nat, hi: nat) returns (t': Trace)
    requires t.Valid() && lo <= hi <= t.n && req.VoteRequest? && req in t.Now().net
    requires !(lo <= req.candidate < hi)
    requires forall v: nat :: lo <= v < hi ==>
               Grants(t.Now().servers[v], req.term, req.candidate, req.lastTerm, req.lastIndex)
    ensures Continues(t, t')
    ensures forall v: nat :: lo <= v < hi ==> VoteReply(req.term, req.candidate, v, req.term, true) in t'.Now().net
    ensures forall v: nat :: v < t.n ==>
              t'.Now().servers[v] ==
              if lo <= v < hi then Voted(t.Now().servers[v], req.term, req.candidate) else t.Now().servers[v]
    decreases hi - lo
  {
    if lo == hi {
      t' := t;
    } else {
      assert Grants(t.Now().servers[lo], req.term, req.candidate, req.lastTerm, req.lastIndex);
      var t1 := DoVote(t, lo, req);
      assert VoteReply(req.term, req.candidate, lo, req.term, true) in t1.Now().net;
      t' := PollRange(t1, req, lo + 1, hi);
    }
  }

  ghost function Ayes(lo: nat, hi: nat, term: nat): (r: Answers)
    requires lo <= hi
    ensures forall v: nat :: v in r <==> lo <= v < hi
    ensures forall v :: v in r ==> r[v] == (term, true)
    ensures |r| == hi - lo
    decreases hi - lo
  {
    if lo == hi then map[] else Ayes(lo, hi - 1, term)[hi - 1 := (term, true)]
  }

  lemma AyesCount(lo: nat, hi: nat, term: nat)
    requires lo <= hi
    ensures |Granted(Ayes(lo, hi, term))| == hi - lo
  {
    var r := Ayes(lo, hi, term);
    assert Granted(r) == r.Keys;
  }

  /** Candidate `c` counts the votes of the members from `lo` up to `hi`. */
  lemma DoCount(t: Trace, c: Id, lo: nat, hi: nat, term: nat) returns (t': Trace)
    requires t.Valid() && c < t.n && lo <= hi <= t.n && !(lo <= c < hi) && t.Now().servers[c].electing == Some(term)
    requires forall v: nat :: lo <= v < hi ==> VoteReply(term, c, v, term, true) in t.Now().net
    ensures Wired(t.Now().servers[c], t.n)
    ensures Moved(t, t', c, FinishElection(t.Now().servers[c], c, 1 + hi - lo, if lo == hi then 0 else term), {})
  {
    var answers := Ayes(lo, hi, term);
    AyesCount(lo, hi, term);
    assert lo < hi ==> lo in answers;
    t' := Do(t, CountVotes(c, answers, if lo == hi then 0 else term));
  }

  /** The member after winning the next term with its present log. */
  ghost function Elected(sv: Server, c: Id): Server
    requires c < |sv.matchIndex|
  {
    var won := BecomeLeader(sv.(currentTerm := sv.currentTerm + 1, votedFor := Some(c), electing := None), c);
    won.(log := sv.log + [Entry(sv.currentTerm + 1, NULL_CMD)], matchIndex := won.matchIndex[c := |sv.log| + 1])
  }

  lemma ElectedWins(sv: Server, c: Id, oks: nat, highest: nat)
    requires c < |sv.matchIndex| && WinningCount(|sv.matchIndex|, oks)
    ensures FinishElection(RaftServer.StartElection(sv, c), c, oks, highest) == Elected(sv, c)
  {
    OwnAppend(sv.log, Entry(sv.currentTerm + 1, NULL_CMD));
  }

  /** `c` asks for votes, the members from `lo` up to `hi` agree, and they are enough. */
  lemma LeadRange(t: Trace, c: Id, lo: nat, hi: nat) returns (t': Trace)
    requires t.Valid() && c < t.n && lo <= hi <= t.n && !(lo <= c < hi) && WinningCount(t.n, 1 + hi - lo)
    requires Wired(t.Now().servers[c], t.n)
    requires t.Now().servers[c].electing == None && t.Now().servers[c].role != Leader
    requires var sv := t.Now().servers[c];
             forall v: nat :: lo <= v < hi ==>
               Grants(t.Now().servers[v], sv.currentTerm + 1, c, LastTerm(sv.log), |sv.log|)
    ensures Continues(t, t')
    ensures var sv := t.Now().servers[c];
            VoteRequest(sv.currentTerm + 1, c, LastTerm(sv.log), |sv.log|) in t'.Now().net
    ensures var s, term := t.Now(), t.Now().servers[c].currentTerm + 1;
            forall v: nat :: v < t.n ==>
              t'.Now().servers[v] ==
              if v == c then Elected(s.servers[c], c)
              else if lo <= v < hi then Voted(s.servers[v], term, c) else s.servers[v]
  {
    var sv := t.Now().servers[c];
    var req := VoteRequest(sv.currentTerm + 1, c, LastTerm(sv.log), |sv.log|);
    var t1 := DoElect(t, c);
    var t2 := PollRange(t1, req, lo, hi);
    t' := DoCount(t2, c, lo, hi, sv.currentTerm + 1);
    ElectedWins(sv, c, 1 + hi - lo, if lo == hi then 0 else sv.currentTerm + 1);
  }

  // ---------------------------------------------------------------- even clusters

  /** With an even number of members, half of them are enough to win: two members lead term 1. */
  lemma EvenClusterElectsTwo(n: nat) returns (t: Trace)
    requires n > 0 && n % 2 == 0
    ensures t.Valid() && Run(n, t.states, t.actions)
    ensures t.Now().servers[0].role == Leader && t.Now().servers[n / 2].role == Leader
    ensures t.Now().servers[0].currentTerm == t.Now().servers[n / 2].currentTerm
  {
    var k := n / 2;
    var t0 := Begin(n);
    var t1 := LeadRange(t0, 0, 1, k);
    assert t1.Now().servers[k] == t0.Now().servers[k];
    t := LeadRange(t1, k, k + 1, n);
  }

  ghost predicate LeadSameTerm(states: seq<Cluster>, a: nat, i: Id, b: nat, j: Id) {
    && a < |states| && b < |states| && i < |states[a].servers| && j < |states[b].servers|
    && states[a].servers[i].role == Leader && states[b].servers[j].role == Leader
    && states[a].servers[i].currentTerm == states[b].servers[j].currentTerm
  }

  /** No run of an `n`-member cluster has two leaders in one term. */
  ghost predicate ElectionSafe(n: nat) {
    forall states: seq<Cluster>, actions: seq<Action>, a: nat, b: nat, i: nat, j: nat ::
      CodeRun(n, states, actions) && LeadSameTerm(states, a, i, b, j) ==> i == j
  }

  /** Elections are safe for exactly the odd cluster sizes. */
  lemma ElectionSafeIffOdd(n: nat)
    requires n > 0
    ensures ElectionSafe(n) <==> n % 2 == 1
  {
    if n % 2 == 1 {
      forall states: seq<Cluster>, actions: seq<Action>, a: nat, b: nat, i: nat, j: nat |
        CodeRun(n, states, actions) && LeadSameTerm(states, a, i, b, j)
        ensures i == j
      {
        ElectionSafety(n, states, actions, a, b, i, j);
      }
    } else {
      var t := EvenClusterElectsTwo(n);
      assert LeadSameTerm(t.states, |t.actions|, 0, |t.actions|, n / 2);
    }
  }
}
