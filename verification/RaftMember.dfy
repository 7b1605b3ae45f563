/** A member as an object: its handlers update fields in place over an `FsPersist`, and each one does
    exactly the step that `RaftServer` describes. */
module RaftMember {
  import opened Common
  import opened RaftLog
  import opened RaftQuorum
  import opened RaftServer
  import opened RaftPersist

  /** An AppendToLog message as it travels, with whole log entries. */
  datatype WireCall = WireCall(term: nat, leader: Id, to: Id, prevIndex: nat, prevTerm: nat, commit: nat,
      batch: seq<LogEntry>)

  ghost function ViewCall(c: WireCall): AppendCall {
    AppendCall(c.term, c.leader, c.to, c.prevIndex, c.prevTerm, c.commit, View(c.batch))
  }

  class Member {
    const me: Id
    const n: nat
    const p: FsPersist
    var role: Role
    var leader: Option<Id>
    var electing: Option<nat>
    var commitIndex: nat
    var applied: nat
    var nextIndex: seq<nat>
    var matchIndex: seq<nat>
    ghost var calls: seq<Option<AppendCall>>
    /** The calls made to the client's Apply, oldest first. */
    var delivered: seq<(Cmd, nat)>

    ghost predicate Valid()
      reads this, p
    {
      p.Valid() && me < n && |nextIndex| == n && |matchIndex| == n && |calls| == n
    }

    ghost function State(): Server
      reads this, p
    {
      Server(p.currentTerm, p.votedFor, View(p.log), role, leader, electing, commitIndex, applied, nextIndex,
          matchIndex, calls)
    }

    /** newRaft and the start of the event loop, over the records found on disk. */
    constructor (me: Id, n: nat, records: seq<Record>)
      requires me < n && WellFormed(records)
      ensures Valid() && fresh(p) && this.me == me && this.n == n
      ensures var d := Replay(records); State() == Boot(me, n, d.currentTerm, d.votedFor, View(d.log))
      ensures delivered == []
    {
      this.me, this.n := me, n;
      var q := new FsPersist(records);
      p := q;
      role, leader, electing, commitIndex, applied := Follower, None, None, 0, 0;
      var last := q.lastIndex;
      nextIndex := seq(n, _ => 0);
      matchIndex := seq(n, i => if i == me then last else 0);
      calls := seq(n, _ => None);
      delivered := [];
      new;
      ghost var d := Replay(records);
      ghost var booted := Boot(me, n, d.currentTerm, d.votedFor, View(d.log));
      assert nextIndex == booted.nextIndex && matchIndex == booted.matchIndex && calls == booted.calls;
    }

    method RequestVote(term: nat, candidate: Id, lastTerm: nat, lastIndex: nat) returns (repTerm: nat, ok: bool)
      requires Valid()
      modifies this`role, p
      ensures Valid() && p.log == old(p.log)
      ensures (State(), repTerm, ok) == RaftServer.RequestVote(old(State()), term, candidate, lastTerm, lastIndex)
    {
      if term < p.currentTerm {
        return p.currentTerm, false;
      }
      if term > p.currentTerm {
        role := Follower;
        p.SetCurrentTermAndVotedFor(term, None);
      }
      ok := MayVote(candidate, lastTerm, lastIndex);
      if ok {
        role := Follower;
        p.SetCurrentTermAndVotedFor(term, Some(candidate));
      }
      return p.currentTerm, ok;
    }

    /** The tests of RequestVote: the vote is free or already the candidate's, and its log is not behind ours. */
    method MayVote(candidate: Id, lastTerm: nat, lastIndex: nat) returns (ok: bool)
      requires Valid()
      ensures ok <==> && (p.votedFor == None || p.votedFor == Some(candidate))
                      && (LastTerm(State().log) < lastTerm
                          || (LastTerm(State().log) == lastTerm && |State().log| <= lastIndex))
    {
      var vf := p.votedFor;
      if vf != None && vf != Some(candidate) {
        return false;
      }
      if p.lastTerm > lastTerm {
        return false;
      }
      if p.lastTerm == lastTerm && p.lastIndex > lastIndex {
        return false;
      }
      return true;
    }

    method AppendToLog(c: WireCall) returns (result: AppendResult)
      requires Valid() && Consecutive(c.batch, c.prevIndex)
      modifies this`role, this`leader, p
      ensures Valid()
      ensures (State(), result) == RaftServer.AppendToLog(old(State()), ViewCall(c))
    {
      if c.term < p.currentTerm {
        return BadTerm;
      }
      leader := Some(c.leader);
      if c.term > p.currentTerm {
        p.SetCurrentTermAndVotedFor(c.term, None);
      }
      role := Follower;
      result := MergeBatch(c);
    }

    /** The log part of AppendToLog. */
    method MergeBatch(c: WireCall) returns (result: AppendResult)
      requires Valid() && Consecutive(c.batch, c.prevIndex)
      modifies p`lastIndex, p`lastTerm, p`logTail, p`log, p`file
      ensures Valid()
      ensures result == if Follows(old(View(p.log)), c.prevTerm, c.prevIndex) then Appended else OutOfSequence
      ensures View(p.log) ==
              if result == Appended then Merge(old(View(p.log)), c.prevIndex, View(c.batch)) else old(View(p.log))
    {
      ghost var was := p.log;
      var ok := p.AppendToLog(c.prevTerm, c.prevIndex, c.batch);
      if !ok {
        return OutOfSequence;
      }
      MergeEntriesView(was, c.prevIndex, c.batch);
      return Appended;
    }

    /** setRoleAndWatchdogTimer for the leader role. */
    method BecomeLeader()
      requires Valid()
      modifies this`role, this`leader, this`nextIndex, this`matchIndex
      ensures Valid() && State() == RaftServer.BecomeLeader(old(State()), me)
    {
      role := Leader;
      leader := Some(me);
      ResetOthers();
      matchIndex := matchIndex[me := p.lastIndex];
      ghost var s' := RaftServer.BecomeLeader(old(State()), me);
      assert nextIndex == s'.nextIndex && matchIndex == s'.matchIndex;
    }

    /** The loop over the other members. */
    method ResetOthers()
      requires Valid()
      modifies this`nextIndex, this`matchIndex
      ensures |nextIndex| == n && |matchIndex| == n
      ensures forall i :: 0 <= i < n ==> nextIndex[i] == if i != me then p.lastIndex + 1 else old(nextIndex)[i]
      ensures forall i :: 0 <= i < n ==> matchIndex[i] == if i != me then 0 else old(matchIndex)[i]
    {
      for m := 0 to n
        invariant |nextIndex| == n && |matchIndex| == n
        invariant forall i :: 0 <= i < n ==>
                    nextIndex[i] == if i < m && i != me then p.lastIndex + 1 else old(nextIndex)[i]
        invariant forall i :: 0 <= i < n ==> matchIndex[i] == if i < m && i != me then 0 else old(matchIndex)[i]
      {
        if m != me {
          nextIndex := nextIndex[m := p.lastIndex + 1];
          matchIndex := matchIndex[m := 0];
        }
      }
    }

    /** appendNull, and the body of Append: the leader's own append. It never fails the sequence check
        and only extends the log. */
    method AppendOwn(cmd: Cmd, kind: Kind) returns (e: LogEntry)
      requires Valid()
      modifies this`matchIndex, p
      ensures Valid() && State() == RaftServer.AppendOwn(old(State()), me, cmd)
      ensures e == LogEntry(p.currentTerm, old(p.lastIndex) + 1, cmd, kind) && p.log == old(p.log) + [e]
    {
      e := LogOwn(cmd, kind);
      matchIndex := matchIndex[me := e.index];
    }

    /** The log part of a leader's own append. */
    method LogOwn(cmd: Cmd, kind: Kind) returns (e: LogEntry)
      requires Valid()
      modifies p`lastIndex, p`lastTerm, p`logTail, p`log, p`file
      ensures Valid() && e == LogEntry(p.currentTerm, old(p.lastIndex) + 1, cmd, kind) && p.log == old(p.log) + [e]
      ensures Follows(old(View(p.log)), old(LastTerm(View(p.log))), old(|p.log|))
      ensures View(p.log) == Merge(old(View(p.log)), old(|p.log|), [Entry(e.term, cmd)])
    {
      e := LogEntry(p.currentTerm, p.lastIndex + 1, cmd, kind);
      OwnMerge(p.log, e);
      var ok := p.AppendToLog(p.lastTerm, p.lastIndex, [e]);
    }

    method Append(cmd: Cmd) returns (at: Option<(nat, nat)>)
      requires Valid()
      modifies this`matchIndex, p
      ensures Valid() && State() == RaftServer.Append(old(State()), me, cmd)
      ensures at == if role == Leader then Some((p.currentTerm, old(p.lastIndex) + 1)) else None
    {
      if role != Leader {
        return None;
      }
      var e := AppendOwn(cmd, ClientEntry);
      return Some((e.term, e.index));
    }

    /** startElection up to dropping the lock. The request carries the new term and the last log position. */
    method StartElection() returns (term: nat, lastTerm: nat, lastIndex: nat)
      requires Valid()
      modifies this`role, this`leader, this`electing, p
      ensures Valid() && p.log == old(p.log) && State() == RaftServer.StartElection(old(State()), me)
      ensures term == State().currentTerm && lastTerm == LastTerm(State().log) && lastIndex == |State().log|
    {
      p.IncCurrentTerm();
      term, lastTerm, lastIndex := p.currentTerm, p.lastTerm, p.lastIndex;
      role := Candidate;
      p.SetVotedFor(Some(me));
      leader := None;
      electing := Some(term);
    }

    /** startElection once the replies are in: count them, then win, lose, or lose to a higher term. */
    method CountVotes(replies: seq<(nat, bool)>)
      requires Valid()
      modifies this`role, this`leader, this`electing, this`nextIndex, this`matchIndex, p
      ensures Valid()
      ensures State() == RaftServer.FinishElection(old(State()), me, 1 + Oks(replies), Highest(replies))
    {
      var oks, highest := Tally(replies);
      electing := None;
      if oks <= (n - 1) / 2 || role != Candidate {
        if highest > p.currentTerm {
          role := Follower;
          p.SetCurrentTerm(highest);
        }
        return;
      }
      BecomeLeader();
      var e := AppendOwn(NULL_CMD, RaftEntry);
    }

    /** The loop of makeAppendMsg: at most ten entries from `next` on. */
    method Collect(next: nat) returns (batch: seq<LogEntry>)
      requires Valid() && 1 <= next <= p.lastIndex + 1
      ensures batch == p.log[next - 1..if next - 1 + BATCH <= p.lastIndex then next - 1 + BATCH else p.lastIndex]
    {
      batch := [];
      var i := 0;
      while i < BATCH
        invariant 0 <= i <= BATCH && next - 1 + i <= p.lastIndex && batch == p.log[next - 1..next - 1 + i]
      {
        var le := p.Lookup(next + i);
        if le == None {
          break;
        }
        batch := batch + [le.value];
        i := i + 1;
      }
    }

    /** makeAppendMsg. */
    method MakeAppend(m: Id) returns (c: Option<WireCall>)
      requires Valid() && m < n
      ensures match c
              case None => RaftServer.MakeAppend(State(), me, m) == None
              case Some(w) => RaftServer.MakeAppend(State(), me, m) == Some(ViewCall(w))
                              && Consecutive(w.batch, w.prevIndex)
    {
      var next := nextIndex[m];
      var prevTerm, prevIndex, ok := p.LookupPrevious(next);
      if !ok {
        return None;
      }
      var batch := Collect(next);
      BatchView(p.log, next - 1, batch);
      c := Some(WireCall(p.currentTerm, me, m, prevIndex, prevTerm, commitIndex, batch));
    }

    /** updateFollower: the message for `m` goes out, if there is one. */
    method SendAppend(m: Id) returns (c: Option<WireCall>)
      requires Valid() && m < n
      modifies this`calls
      ensures Valid() && State() == RaftServer.SendAppend(old(State()), me, m)
      ensures match c
              case None => RaftServer.MakeAppend(old(State()), me, m) == None
              case Some(w) => RaftServer.MakeAppend(old(State()), me, m) == Some(ViewCall(w))
                              && Consecutive(w.batch, w.prevIndex)
    {
      c := MakeAppend(m);
      calls := calls[m := if c.None? then None else Some(ViewCall(c.value))];
    }

    /** updateFollower after the call to `m` came back. */
    method HandleReply(m: Id, count: nat, result: Option<AppendResult>)
      requires Valid() && m < n
      modifies this`nextIndex, this`matchIndex, this`calls
      ensures Valid() && State() == RaftServer.HandleReply(old(State()), m, count, result)
    {
      calls := calls[m := None];
      if role != Leader {
        return;
      }
      match result
      case Some(Appended) =>
        nextIndex := nextIndex[m := nextIndex[m] + count];
        if count > 0 {
          matchIndex := matchIndex[m := nextIndex[m] - 1];
        }
      case Some(OutOfSequence) =>
        if nextIndex[m] <= 1 {
          return;
        }
        var prev := p.Lookup(nextIndex[m] - 1);
        if prev == None {
          return;
        }
        nextIndex := nextIndex[m := nextIndex[m] - 1];
      case _ =>
    }

    /** The event loop after a match index changed. */
    method AdvanceCommit()
      requires Valid()
      modifies this`commitIndex
      ensures Valid() && State() == RaftServer.AdvanceCommit(old(State()))
      ensures commitIndex >= old(commitIndex)
    {
      if role != Leader {
        return;
      }
      var sorted := SortDescending(matchIndex);
      SameSize(sorted, matchIndex);
      var ci := sorted[Quorum(n) - 1];
      if ci <= commitIndex {
        return;
      }
      commitIndex := ci;
    }

    /** The event loop after a leader's commit index arrived. */
    method LearnCommit(i: nat)
      requires Valid()
      modifies this`commitIndex
      ensures Valid() && State() == RaftServer.LearnCommit(old(State()), i)
      ensures commitIndex >= old(commitIndex)
    {
      if role != Follower {
        return;
      }
      if i > commitIndex {
        commitIndex := i;
      }
    }

    /** One iteration of applyCommits; false when the commit index is ahead of the log. */
    method ApplyNext() returns (more: bool)
      requires Valid()
      modifies this`applied, this`delivered
      ensures more <==> old(applied) < |p.log|
      ensures applied == old(applied) + if more then 1 else 0
      ensures delivered == old(delivered) + if more then Delivery(p.log[old(applied)]) else []
    {
      var next := applied + 1;
      var le := p.Lookup(next);
      if le == None {
        return false;
      }
      if le.value.kind == ClientEntry {
        delivered := delivered + [(le.value.cmd, le.value.index)];
      }
      applied := next;
      return true;
    }

    /** applyCommits: entries are consumed one by one, in index order, up to the commit index or the end
        of the log, and the client sees exactly the client entries among them. */
    method ApplyCommits(ci: nat)
      requires Valid() && ci <= commitIndex
      modifies this`applied, this`delivered
      ensures Valid() && State() == old(State()).(applied := applied)
      ensures applied == Reach(p.log, old(applied), ci)
      ensures delivered == old(delivered) + Deliveries(Stretch(p.log, old(applied), applied))
    {
      ghost var log, end := p.log, Reach(p.log, applied, ci);
      while applied < ci
        invariant old(applied) <= applied <= end
        invariant delivered + Deliveries(Stretch(log, applied, end))
                  == old(delivered) + Deliveries(Stretch(log, old(applied), end))
      {
        ghost var at, had := applied, delivered;
        var more := ApplyNext();
        if !more {
          return;
        }
        NextDelivery(log, at, end, had);
      }
    }
  }

  /** Delivering the next entry leaves the rest of the stretch to deliver. */
  lemma NextDelivery(log: seq<LogEntry>, at: nat, end: nat, had: seq<(Cmd, nat)>)
    requires at < end <= |log|
    ensures (had + Delivery(log[at])) + Deliveries(Stretch(log, at + 1, end)) == had + Deliveries(Stretch(log, at, end))
  {
    assert Stretch(log, at, end)[1..] == Stretch(log, at + 1, end);
    var a, b := Delivery(log[at]), Deliveries(Stretch(log, at + 1, end));
    assert (had + a) + b == had + (a + b);
  }

  /** The batch collected is, entry by entry, the one of the model. */
  lemma BatchView(log: seq<LogEntry>, prev: nat, batch: seq<LogEntry>)
    requires Indexed(log) && prev <= |log|
    requires batch == log[prev..if prev + BATCH <= |log| then prev + BATCH else |log|]
    ensures View(batch) == View(log)[prev..if prev + BATCH <= |log| then prev + BATCH else |log|]
    ensures Consecutive(batch, prev)
  {
    ViewSlice(log, prev, prev + |batch|);
  }

  /** The loop over the replies to a RequestVote; our own vote counts. */
  method Tally(replies: seq<(nat, bool)>) returns (oks: nat, highest: nat)
    ensures oks == 1 + Oks(replies) && highest == Highest(replies)
  {
    oks, highest := 1, 0;
    for i := 0 to |replies|
      invariant oks == 1 + Oks(replies[..i]) && highest == Highest(replies[..i])
    {
      assert replies[..i + 1][..i] == replies[..i];
      if replies[i].1 {
        oks := oks + 1;
      }
      if replies[i].0 > highest {
        highest := replies[i].0;
      }
    }
    assert replies[..|replies|] == replies;
  }

  /** Where applying towards `ci` stops. */
  function Reach(log: seq<LogEntry>, from: nat, ci: nat): nat {
    var end := if ci <= |log| then ci else |log|;
    if from <= end then end else from
  }

  /** The entries of indices above `from`, up to `to`. */
  ghost function Stretch(log: seq<LogEntry>, from: nat, to: nat): seq<LogEntry> {
    if from <= to <= |log| then log[from..to] else []
  }

  ghost function Oks(replies: seq<(nat, bool)>): nat {
    if replies == [] then 0 else Oks(replies[..|replies| - 1]) + if replies[|replies| - 1].1 then 1 else 0
  }

  ghost function Highest(replies: seq<(nat, bool)>): nat {
    if replies == [] then 0
    else
      var h, r := Highest(replies[..|replies| - 1]), replies[|replies| - 1].0;
      if r > h then r else h
  }

  function Delivery(e: LogEntry): seq<(Cmd, nat)> {
    if e.kind == ClientEntry then [(e.cmd, e.index)] else []
  }

  /** What the client's Apply is called with for a stretch of the log: its client entries, in order, each
      with its own index. */
  ghost function Deliveries(log: seq<LogEntry>): seq<(Cmd, nat)> {
    if log == [] then []
    else Delivery(log[0]) + Deliveries(log[1..])
  }

  /** Wherever it stands, a client's entry is handed over once, with its own command and index, between what comes
      before it and what comes after; an entry of raft's own is not. */
  lemma {:induction false} DeliveryAt(before: seq<LogEntry>, e: LogEntry, after: seq<LogEntry>)
    ensures Deliveries(before + [e] + after) ==
            Deliveries(before) + (if e.kind == ClientEntry then [(e.cmd, e.index)] else []) + Deliveries(after)
    decreases |before|
  {
    var log := before + [e] + after;
    if before == [] {
      assert log[0] == e && log[1..] == after;
    } else {
      assert log[0] == before[0] && log[1..] == before[1..] + [e] + after;
      DeliveryAt(before[1..], e, after);
    }
  }

  lemma {:induction false} DeliveriesCount(log: seq<LogEntry>)
    ensures |Deliveries(log)| <= |log|
    ensures |Deliveries(log)| == |log| <==> forall i :: 0 <= i < |log| ==> log[i].kind == ClientEntry
  {
    if log != [] {
      DeliveriesCount(log[1..]);
    }
  }

  /** Replay forgets the kind of an entry, so a restarted member hands its client the same commands
      exactly when its log held no entry of raft's own; otherwise the client sees empty commands too. */
  lemma {:induction false} RestartDeliversSameIff(log: seq<LogEntry>)
    ensures Deliveries(ForgetAll(log)) == Deliveries(log) <==> forall i :: 0 <= i < |log| ==> log[i].kind == ClientEntry
  {
    DeliveriesCount(log);
    DeliveriesCount(ForgetAll(log));
    ForgetsNothingIff(log);
  }

  lemma {:induction false} OwnMerge(log: seq<LogEntry>, e: LogEntry)
    ensures Follows(View(log), LastTerm(View(log)), |log|)
    ensures MergeEntries(log, |log|, [e]) == log + [e]
    ensures View(log + [e]) == Merge(View(log), |log|, [Entry(e.term, e.cmd)])
  {
    OwnAppend(View(log), Entry(e.term, e.cmd));
    MergeReplaces(log, |log|, [e]);
    assert log[..|log|] == log;
  }
}
