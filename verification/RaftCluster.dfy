/** A cluster: members, a network that may delay, duplicate or lose messages, and the runs it has.

    `History` is auxiliary: no guard and no member ever reads it. It records who won each term, the log
    of each term's leader, whom each member voted for, and how much of a leader's log each member acknowledged. */
module RaftCluster {
  import opened Common
  import opened RaftLog
  import opened RaftQuorum
  import opened RaftServer

  datatype Msg =
    | VoteRequest(term: nat, candidate: Id, lastTerm: nat, lastIndex: nat)
    | VoteReply(term: nat, candidate: Id, voter: Id, repTerm: nat, ok: bool)
    | AppendRequest(call: AppendCall)
    | AppendReply(call: AppendCall, result: AppendResult)

  /** A vote with the voter's log at that moment. */
  datatype Vote = Vote(candidate: Id, log: seq<Entry>)

  /** A won election: the winner, the votes counted, and the log it was won with. */
  datatype Election = Election(leader: Id, voters: set<Id>, base: seq<Entry>)

  datatype History = History(
    elections: map<nat, Election>,          // by term
    leaderLog: map<nat, seq<Entry>>,        // by term
    voted: map<(Id, nat), Vote>,            // by voter and term
    acked: map<(Id, nat), nat>)             // by member and term: prefix length of that leader's log

  datatype Cluster = Cluster(servers: seq<Server>, net: set<Msg>, hist: History)

  /** What one member that answered a RequestVote said: its term, and yes or no. */
  type Answers = map<Id, (nat, bool)>

  datatype Action =
    | Elect(i: Id)                                        // startElection, first part
    | TornElect(i: Id)                                    // crash between the two durable writes of startElection
    | TornVote(j: Id, req: Msg)                           // crash between the two durable writes of RequestVote
    | TornAppend(req: Msg, written: nat)                  // crash in AppendToLog, with so many entries dealt with
    | DeliverVote(j: Id, req: Msg)                        // RequestVote at j
    | CountVotes(i: Id, answers: Answers, highest: nat)   // startElection, second part
    | ClientAppend(i: Id, cmd: Cmd)                       // Append at i
    | Send(i: Id, m: Id)                                  // updateFollower sends
    | DeliverAppend(req: Msg)                             // AppendToLog at the addressee
    | Receive(i: Id, m: Id, result: AppendResult)         // updateFollower gets an answer
    | CallFailed(i: Id, m: Id)                            // updateFollower's call fails or times out
    | Commit(i: Id)                                       // event loop, newMatch
    | Learn(i: Id, req: Msg)                              // event loop, newCommit
    | ApplyOne(i: Id)                                     // event loop, applyCommits
    | Crash(i: Id)                                        // stop, and restart from durable state

  ghost predicate Init(n: nat, s: Cluster) {
    && |s.servers| == n
    && (forall i :: 0 <= i < n ==> s.servers[i] == Boot(i, n, 0, None, []))
    && s.net == {}
    && s.hist == History(map[], map[], map[], map[])
  }

  function Granted(answers: Answers): (s: set<Id>) {
    set m | m in answers && answers[m].1
  }

  /** The per-member tables cover the cluster. */
  predicate Wired(s: Server, n: nat) {
    |s.nextIndex| == n && |s.matchIndex| == n && |s.calls| == n
  }

  ghost predicate AllWired(s: Cluster) {
    forall i {:trigger s.servers[i]} :: 0 <= i < |s.servers| ==> Wired(s.servers[i], |s.servers|)
  }

  /** The guard of an action, as the code has it. Elections, commits and applies on one member are
      serialised by its event loop, and calls to one follower by that follower's own loop. */
  ghost predicate Enabled(s: Cluster, a: Action) {
    var n := |s.servers|;
    AllWired(s) &&
    match a
    case Elect(i) => i < n && s.servers[i].electing == None && s.servers[i].role != Leader
    case TornElect(i) => i < n && s.servers[i].electing == None && s.servers[i].role != Leader
    case DeliverVote(j, req) => j < n && req in s.net && req.VoteRequest? && j != req.candidate
    case TornVote(j, req) =>
      && j < n && req in s.net && req.VoteRequest? && j != req.candidate && req.term > s.servers[j].currentTerm
    case TornAppend(req, written) =>
      && req in s.net && req.AppendRequest? && req.call.to < n
      && req.call.term >= s.servers[req.call.to].currentTerm && written <= |req.call.batch|
    case CountVotes(i, answers, highest) =>
      && i < n && s.servers[i].electing.Some?
      && (forall m :: m in answers ==> m < n && m != i)
      && (forall m :: m in answers ==>
            VoteReply(s.servers[i].electing.value, i, m, answers[m].0, answers[m].1) in s.net)
      && (forall m :: m in answers ==> answers[m].0 <= highest)
      && (highest == 0 || exists m :: m in answers && answers[m].0 == highest)
    case ClientAppend(i, cmd) => i < n
    case Send(i, m) => i < n && m < n && m != i && s.servers[i].role == Leader
                       && s.servers[i].calls[m] == None && MakeAppend(s.servers[i], i, m).Some?
    case DeliverAppend(req) => req in s.net && req.AppendRequest? && req.call.to < n
    case Receive(i, m, result) => i < n && m < n && s.servers[i].calls[m].Some?
                                  && AppendReply(s.servers[i].calls[m].value, result) in s.net
    case CallFailed(i, m) => i < n && m < n && s.servers[i].calls[m].Some?
    case Commit(i) => i < n && s.servers[i].electing == None
    case Learn(i, req) => i < n && s.servers[i].electing == None
                          && req in s.net && req.AppendReply? && req.call.to == i && req.result == Appended
    case ApplyOne(i) => i < n && s.servers[i].electing == None
    case Crash(i) => i < n
  }

  /** The premise about answers: a success that moves a leader's match index belongs to the leadership that asked.
      The code does not check it; `RaftLimits` shows what happens without it. */
  ghost predicate Timely(s: Cluster, a: Action)
    requires Enabled(s, a)
  {
    (a.Receive? && a.result == Appended && s.servers[a.i].role == Leader
     && s.servers[a.i].calls[a.m].value.batch != []) ==>
      s.servers[a.i].calls[a.m].value.term == s.servers[a.i].currentTerm
  }

  function Acked(h: History, j: Id, t: nat): nat {
    if (j, t) in h.acked then h.acked[(j, t)] else 0
  }

  function RecordVote(h: History, j: Id, t: nat, v: Vote): History {
    if (j, t) in h.voted then h else h.(voted := h.voted[(j, t) := v])
  }

  function RecordAck(h: History, j: Id, t: nat, k: nat): History {
    if k <= Acked(h, j, t) then h else h.(acked := h.acked[(j, t) := k])
  }

  function RecordElection(h: History, t: nat, e: Election): History {
    h.(elections := h.elections[t := e], leaderLog := h.leaderLog[t := e.base])
  }

  function RecordLog(h: History, t: nat, log: seq<Entry>): History {
    h.(leaderLog := h.leaderLog[t := log])
  }

  function Update(s: Cluster, i: Id, sv: Server, msgs: set<Msg>, h: History): Cluster
    requires i < |s.servers|
  {
    Cluster(s.servers[i := sv], s.net + msgs, h)
  }

  ghost function ElectStep(s: Cluster, i: Id): Cluster
    requires i < |s.servers|
  {
    var sv := RaftServer.StartElection(s.servers[i], i);
    Update(s, i, sv, {VoteRequest(sv.currentTerm, i, LastTerm(sv.log), |sv.log|)},
           RecordVote(s.hist, i, sv.currentTerm, Vote(i, sv.log)))
  }

  ghost function DeliverVoteStep(s: Cluster, j: Id, req: Msg): Cluster
    requires j < |s.servers| && req.VoteRequest?
  {
    var (sv, t, ok) := RequestVote(s.servers[j], req.term, req.candidate, req.lastTerm, req.lastIndex);
    Update(s, j, sv, {VoteReply(req.term, req.candidate, j, t, ok)},
           if ok then RecordVote(s.hist, j, req.term, Vote(req.candidate, sv.log)) else s.hist)
  }

  ghost function CountVotesStep(s: Cluster, i: Id, answers: Answers, highest: nat): Cluster
    requires i < |s.servers| && Wired(s.servers[i], |s.servers|)
  {
    var was := s.servers[i];
    var sv := RaftServer.FinishElection(was, i, 1 + |Granted(answers)|, highest);
    var t := was.currentTerm;
    Update(s, i, sv, {},
           if sv.role != Leader then s.hist
           else
             var elected := RecordElection(s.hist, t, Election(i, Granted(answers) + {i}, was.log));
             RecordAck(RecordLog(elected, t, sv.log), i, t, |sv.log|))
  }

  ghost function ClientAppendStep(s: Cluster, i: Id, cmd: Cmd): Cluster
    requires i < |s.servers| && Wired(s.servers[i], |s.servers|)
  {
    var sv := RaftServer.Append(s.servers[i], i, cmd);
    Update(s, i, sv, {},
           if sv.role != Leader then s.hist
           else RecordAck(RecordLog(s.hist, sv.currentTerm, sv.log), i, sv.currentTerm, |sv.log|))
  }

  ghost function DeliverAppendStep(s: Cluster, c: AppendCall): Cluster
    requires c.to < |s.servers|
  {
    var (sv, result) := RaftServer.AppendToLog(s.servers[c.to], c);
    Update(s, c.to, sv, {AppendReply(c, result)},
           if result == Appended then RecordAck(s.hist, c.to, c.term, c.prevIndex + |c.batch|) else s.hist)
  }

  /** The durable state that a crash in AppendToLog leaves: the term, if it was raised, and what the entries dealt
      with made of the log. */
  ghost function TornAppendStep(s: Cluster, c: AppendCall, written: nat): Cluster
    requires c.to < |s.servers| && written <= |c.batch|
  {
    var sv := s.servers[c.to];
    var log := if Follows(sv.log, c.prevTerm, c.prevIndex) then Merge(sv.log, c.prevIndex, c.batch[..written])
               else sv.log;
    var vote := if c.term > sv.currentTerm then None else sv.votedFor;
    Update(s, c.to, Boot(c.to, |s.servers|, c.term, vote, log), {}, s.hist)
  }

  /** The effect of an action. */
  ghost function Step(s: Cluster, a: Action): Cluster
    requires Enabled(s, a)
  {
    var h := s.hist;
    match a
    case Elect(i) => ElectStep(s, i)
    case TornElect(i) =>
      var sv := s.servers[i];
      Update(s, i, Boot(i, |s.servers|, sv.currentTerm + 1, sv.votedFor, sv.log), {}, h)
    case TornVote(j, req) => Update(s, j, Boot(j, |s.servers|, req.term, None, s.servers[j].log), {}, h)
    case TornAppend(req, written) => TornAppendStep(s, req.call, written)
    case DeliverVote(j, req) => DeliverVoteStep(s, j, req)
    case CountVotes(i, answers, highest) => CountVotesStep(s, i, answers, highest)
    case ClientAppend(i, cmd) => ClientAppendStep(s, i, cmd)
    case Send(i, m) =>
      var c := MakeAppend(s.servers[i], i, m).value;
      Update(s, i, RaftServer.SendAppend(s.servers[i], i, m), {AppendRequest(c)}, h)
    case DeliverAppend(req) => DeliverAppendStep(s, req.call)
    case Receive(i, m, result) =>
      Update(s, i, HandleReply(s.servers[i], m, |s.servers[i].calls[m].value.batch|, Some(result)), {}, h)
    case CallFailed(i, m) =>
      Update(s, i, HandleReply(s.servers[i], m, 0, None), {}, h)
    case Commit(i) => Update(s, i, AdvanceCommit(s.servers[i]), {}, h)
    case Learn(i, req) => Update(s, i, LearnCommit(s.servers[i], req.call.commit), {}, h)
    case ApplyOne(i) => Update(s, i, ApplyNext(s.servers[i]), {}, h)
    case Crash(i) =>
      var sv := s.servers[i];
      Update(s, i, Boot(i, |s.servers|, sv.currentTerm, sv.votedFor, sv.log), {}, h)
  }

  /** The member an action happens at. */
  function Actor(a: Action): Id {
    match a
    case DeliverVote(j, _) => j
    case TornVote(j, _) => j
    case DeliverAppend(req) => if req.AppendRequest? then req.call.to else 0
    case TornAppend(req, _) => if req.AppendRequest? then req.call.to else 0
    case _ => a.i
  }

  /** An action changes one member at most. */
  lemma OnlyActor(s: Cluster, a: Action)
    requires Enabled(s, a)
    ensures |Step(s, a).servers| == |s.servers| && Actor(a) < |s.servers|
    ensures forall i :: 0 <= i < |s.servers| && i != Actor(a) ==> Step(s, a).servers[i] == s.servers[i]
  {
  }

  /** A run of an `n`-member cluster under the code's own guards. */
  ghost predicate CodeRun(n: nat, states: seq<Cluster>, actions: seq<Action>) {
    && |states| == |actions| + 1
    && Init(n, states[0])
    && forall k {:trigger actions[k]} :: 0 <= k < |actions| ==>
         Enabled(states[k], actions[k]) && states[k + 1] == Step(states[k], actions[k])
  }

  /** A run in which every answer is timely. */
  ghost predicate Run(n: nat, states: seq<Cluster>, actions: seq<Action>) {
    && CodeRun(n, states, actions)
    && forall k {:trigger actions[k]} :: 0 <= k < |actions| ==> Timely(states[k], actions[k])
  }
}
