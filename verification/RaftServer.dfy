/** One raft member: its state and what each critical section does to it.

    Every function is the effect of one stretch of code run under the member's lock. The class
    `RaftMember` performs the same steps in place over the map-based log. */
module RaftServer {
  import opened Common
  import opened RaftLog
  import opened RaftQuorum

  type Id = nat

  datatype Role = Candidate | Follower | Leader

  /** The arguments of an AppendToLog call to member `to`. */
  datatype AppendCall = AppendCall(term: nat, leader: Id, to: Id, prevIndex: nat, prevTerm: nat,
                                   commit: nat, batch: seq<Entry>)

  datatype AppendResult = Appended | OutOfSequence | BadTerm

  datatype Server = Server(
    // durable
    currentTerm: nat,
    votedFor: Option<Id>,
    log: seq<Entry>,
    // volatile
    role: Role,
    leader: Option<Id>,
    electing: Option<nat>,         // the term whose votes the event loop is waiting for
    commitIndex: nat,
    applied: nat,
    nextIndex: seq<nat>,          // per member
    matchIndex: seq<nat>,         // per member
    calls: seq<Option<AppendCall>> // per member: the AppendToLog call in flight
  )

  const BATCH := 10

  /** A member just started from its durable state, or from nothing. */
  function Boot(me: Id, n: nat, currentTerm: nat, votedFor: Option<Id>, log: seq<Entry>): Server {
    Server(currentTerm, votedFor, log, Follower, None, None, 0, 0,
           seq(n, _ => 0), seq(n, i => if i == me then |log| else 0), seq(n, _ => None))
  }

  /** startElection up to dropping the lock. */
  function StartElection(s: Server, me: Id): Server {
    s.(currentTerm := s.currentTerm + 1, role := Candidate, votedFor := Some(me), leader := None,
       electing := Some(s.currentTerm + 1))
  }

  /** RequestVote: the new state, the term reported and whether the vote is granted. */
  function RequestVote(s: Server, term: nat, candidate: Id, lastTerm: nat, lastIndex: nat): (Server, nat, bool) {
    if term < s.currentTerm then (s, s.currentTerm, false)
    else
      var s1 := if term > s.currentTerm then s.(role := Follower, currentTerm := term, votedFor := None) else s;
      if s1.votedFor != None && s1.votedFor != Some(candidate) then (s1, term, false)
      else if LastTerm(s1.log) > lastTerm then (s1, term, false)
      else if LastTerm(s1.log) == lastTerm && |s1.log| > lastIndex then (s1, term, false)
      else (s1.(role := Follower, votedFor := Some(candidate)), term, true)
  }

  function BecomeLeader(s: Server, me: Id): Server {
    s.(role := Leader, leader := Some(me),
       nextIndex := seq(|s.nextIndex|, i requires 0 <= i < |s.nextIndex| =>
                          if i == me then s.nextIndex[i] else |s.log| + 1),
       matchIndex := seq(|s.matchIndex|, i => if i == me then |s.log| else 0))
  }

  /** The leader logs a command of its own term: `appendNull` and the body of `Append`. */
  function AppendOwn(s: Server, me: Id, cmd: Cmd): Server
    requires me < |s.matchIndex|
  {
    if !Follows(s.log, LastTerm(s.log), |s.log|) then s
    else s.(log := Merge(s.log, |s.log|, [Entry(s.currentTerm, cmd)]), matchIndex := s.matchIndex[me := |s.log| + 1])
  }

  /** startElection once the votes are in: `oks` counts the granted votes with our own, `highest` is
      the highest term reported. A lost election may raise the term; the vote is then left as it was. */
  function FinishElection(s: Server, me: Id, oks: nat, highest: nat): Server
    requires me < |s.matchIndex|
  {
    var s1 := s.(electing := None);
    if !WinningCount(|s.matchIndex|, oks) || s.role != Candidate then
      if highest > s.currentTerm then s1.(role := Follower, currentTerm := highest) else s1
    else AppendOwn(BecomeLeader(s1, me), me, NULL_CMD)
  }

  /** Append: only a leader takes a command. */
  function Append(s: Server, me: Id, cmd: Cmd): Server
    requires me < |s.matchIndex|
  {
    if s.role != Leader then s else AppendOwn(s, me, cmd)
  }

  /** AppendToLog at the receiver. */
  function AppendToLog(s: Server, c: AppendCall): (Server, AppendResult) {
    if c.term < s.currentTerm then (s, BadTerm)
    else
      var s1 := (if c.term > s.currentTerm then s.(currentTerm := c.term, votedFor := None) else s)
                .(leader := Some(c.leader), role := Follower);
      if !Follows(s.log, c.prevTerm, c.prevIndex) then (s1, OutOfSequence)
      else (s1.(log := Merge(s.log, c.prevIndex, c.batch)), Appended)
  }

  /** makeAppendMsg: up to ten entries from nextIndex on, if the entry before them is known. */
  function MakeAppend(s: Server, me: Id, m: Id): Option<AppendCall>
    requires m < |s.nextIndex|
  {
    var next := s.nextIndex[m];
    if next == 0 || next - 1 > |s.log| then None
    else
      var end := if next - 1 + BATCH <= |s.log| then next - 1 + BATCH else |s.log|;
      Some(AppendCall(s.currentTerm, me, m, next - 1, LastTerm(s.log[..next - 1]), s.commitIndex, s.log[next - 1..end]))
  }

  /** updateFollower: a call goes out. */
  function SendAppend(s: Server, me: Id, m: Id): Server
    requires m < |s.nextIndex| && m < |s.calls|
  {
    s.(calls := s.calls[m := MakeAppend(s, me, m)])
  }

  /** updateFollower: the call in flight to `m`, of `n` entries, comes back. The code looks at the role again but not
      at the term. `None` stands for a call that failed without reaching the log. */
  function HandleReply(s: Server, m: Id, n: nat, result: Option<AppendResult>): Server
    requires m < |s.nextIndex| && m < |s.matchIndex| && m < |s.calls|
  {
    var s1 := s.(calls := s.calls[m := None]);
    if s.role != Leader then s1
    else match result
      case Some(Appended) =>
        var next := s.nextIndex[m] + n;
        if n > 0 then s1.(nextIndex := s.nextIndex[m := next], matchIndex := s.matchIndex[m := next - 1])
        else s1
      case Some(OutOfSequence) =>
        if s.nextIndex[m] <= 1 || s.nextIndex[m] - 1 > |s.log| then s1
        else s1.(nextIndex := s.nextIndex[m := s.nextIndex[m] - 1])
      case _ => s1
  }

  /** The event loop after a match index changed. */
  function AdvanceCommit(s: Server): Server
    requires |s.matchIndex| > 0
  {
    SameSize(SortDescending(s.matchIndex), s.matchIndex);
    var ci := SortDescending(s.matchIndex)[Quorum(|s.matchIndex|) - 1];
    if s.role != Leader || ci <= s.commitIndex then s else s.(commitIndex := ci)
  }

  /** The event loop after a leader's commit index arrived. */
  function LearnCommit(s: Server, i: nat): Server {
    if s.role != Follower || i <= s.commitIndex then s else s.(commitIndex := i)
  }

  /** One iteration of applyCommits. */
  function ApplyNext(s: Server): Server {
    if s.applied < s.commitIndex && s.applied < |s.log| then s.(applied := s.applied + 1) else s
  }
}
