/** The durable side of a member: an in-memory map of log entries kept in step with an append-only
    record file, and the replay of that file after a restart. Without snapshots the log starts at index 1. */
module RaftPersist {
  import opened Common
  import opened RaftLog
  import opened RaftServer

  datatype Kind = ClientEntry | RaftEntry

  datatype LogEntry = LogEntry(term: nat, index: nat, cmd: Cmd, kind: Kind)

  /** What the encoder writes: log entries, and control entries with the term and the vote. */
  datatype Record = LogRecord(e: LogEntry) | ControlRecord(currentTerm: nat, votedFor: Option<Id>)

  /** Position `i` of a log holds the entry of index `i + 1`. */
  ghost predicate Indexed(log: seq<LogEntry>) {
    forall i :: 0 <= i < |log| ==> log[i].index == i + 1
  }

  ghost predicate Consecutive(batch: seq<LogEntry>, prevIndex: nat) {
    forall i :: 0 <= i < |batch| ==> batch[i].index == prevIndex + 1 + i
  }

  /** The protocol's view of a log. */
  ghost function View(log: seq<LogEntry>): (r: seq<Entry>)
    ensures |r| == |log| && forall i :: 0 <= i < |log| ==> r[i] == Entry(log[i].term, log[i].cmd)
  {
    seq(|log|, i requires 0 <= i < |log| => Entry(log[i].term, log[i].cmd))
  }

  lemma ViewSlice(log: seq<LogEntry>, a: nat, b: nat)
    requires Indexed(log) && a <= b <= |log|
    ensures View(log[a..b]) == View(log)[a..b] && Consecutive(log[a..b], a)
  {
  }

  /** `Merge` with the entries' kinds. */
  ghost function MergeEntries(log: seq<LogEntry>, prev: nat, batch: seq<LogEntry>): (r: seq<LogEntry>)
    requires prev <= |log|
  {
    var k := Agreed(View(log), prev, View(batch));
    if k == |batch| then log else log[..prev + k] + batch[k..]
  }

  lemma {:induction false} MergeEntriesView(log: seq<LogEntry>, prev: nat, batch: seq<LogEntry>)
    requires prev <= |log|
    ensures View(MergeEntries(log, prev, batch)) == Merge(View(log), prev, View(batch))
  {
  }

  /** addToLogTail: replace from the entry's index on, unless an entry of that term is already there. */
  ghost function Put(log: seq<LogEntry>, e: LogEntry): (r: seq<LogEntry>)
    requires 1 <= e.index <= |log| + 1
  {
    if e.index <= |log| && log[e.index - 1].term == e.term then log else log[..e.index - 1] + [e]
  }

  /** The entries of a batch put one after the other, as the loop does. */
  ghost function PutAll(log: seq<LogEntry>, batch: seq<LogEntry>): seq<LogEntry>
    decreases |batch|
  {
    if batch == [] || !(1 <= batch[0].index <= |log| + 1) then log else PutAll(Put(log, batch[0]), batch[1..])
  }

  lemma {:induction false} MergeSkips(log: seq<LogEntry>, prev: nat, batch: seq<LogEntry>)
    requires prev < |log| && batch != [] && log[prev].term == batch[0].term
    ensures MergeEntries(log, prev, batch) == MergeEntries(log, prev + 1, batch[1..])
  {
    assert View(batch)[1..] == View(batch[1..]);
    var k := Agreed(View(log), prev + 1, View(batch[1..]));
    assert View(log)[prev].term == View(batch)[0].term;
    assert Agreed(View(log), prev, View(batch)) == 1 + k;
    assert batch[1 + k..] == batch[1..][k..];
  }

  lemma {:induction false} MergeReplaces(log: seq<LogEntry>, prev: nat, batch: seq<LogEntry>)
    requires prev <= |log| && (prev == |log| || (batch != [] && log[prev].term != batch[0].term))
    ensures MergeEntries(log, prev, batch) == log[..prev] + batch
  {
    assert Agreed(View(log), prev, View(batch)) == 0;
    assert batch[0..] == batch;
    assert batch == [] ==> log[..prev] + batch == log;
  }

  /** Entries that continue the log are all appended. */
  lemma {:induction false} PutAllAppends(log: seq<LogEntry>, batch: seq<LogEntry>)
    requires Consecutive(batch, |log|)
    ensures PutAll(log, batch) == log + batch
    decreases |batch|
  {
    if batch == [] {
      assert log + batch == log;
    } else {
      assert Put(log, batch[0]) == log + [batch[0]];
      PutAllAppends(log + [batch[0]], batch[1..]);
      assert log + [batch[0]] + batch[1..] == log + batch;
    }
  }

  lemma {:induction false} PutAllReplaces(log: seq<LogEntry>, prev: nat, batch: seq<LogEntry>)
    requires prev <= |log| && Consecutive(batch, prev) && batch != [] && !Present(log, batch[0])
    ensures PutAll(log, batch) == log[..prev] + batch
  {
    PutAllAppends(log[..prev] + [batch[0]], batch[1..]);
    assert log[..prev] + [batch[0]] + batch[1..] == log[..prev] + batch;
  }

  /** The loop over the batch computes the declarative rule. */
  lemma {:induction false} PutAllIsMerge(log: seq<LogEntry>, prev: nat, batch: seq<LogEntry>)
    requires prev <= |log| && Consecutive(batch, prev)
    ensures PutAll(log, batch) == MergeEntries(log, prev, batch)
    decreases |batch|
  {
    if batch == [] {
      assert View(batch) == [];
    } else if Present(log, batch[0]) {
      PutAllIsMerge(log, prev + 1, batch[1..]);
      MergeSkips(log, prev, batch);
    } else {
      PutAllReplaces(log, prev, batch);
      MergeReplaces(log, prev, batch);
    }
  }

  predicate Present(log: seq<LogEntry>, e: LogEntry) {
    1 <= e.index <= |log| && log[e.index - 1].term == e.term
  }

  /** What the loop adds to the file: the entries that were not there when their turn came. */
  ghost function NewRecords(log: seq<LogEntry>, batch: seq<LogEntry>): seq<Record>
    decreases |batch|
  {
    if batch == [] || !(1 <= batch[0].index <= |log| + 1) then []
    else (if Present(log, batch[0]) then [] else [LogRecord(batch[0])]) + NewRecords(Put(log, batch[0]), batch[1..])
  }

  lemma {:induction false} FoldStep(file: seq<Record>, log: seq<LogEntry>, batch: seq<LogEntry>, i: nat)
    requires i < |batch| && 1 <= batch[i].index <= |log| + 1
    ensures PutAll(log, batch[i..]) == PutAll(Put(log, batch[i]), batch[i + 1..])
    ensures file + NewRecords(log, batch[i..])
            == (file + if Present(log, batch[i]) then [] else [LogRecord(batch[i])])
               + NewRecords(Put(log, batch[i]), batch[i + 1..])
  {
    var rest := batch[i..];
    assert rest[0] == batch[i] && rest[1..] == batch[i + 1..];
    var x, y := if Present(log, batch[i]) then [] else [LogRecord(batch[i])],
        NewRecords(Put(log, batch[i]), batch[i + 1..]);
    assert NewRecords(log, rest) == x + y;
    assert file + (x + y) == (file + x) + y;
  }

  lemma {:induction false} NothingNew(log: seq<LogEntry>, prev: nat, batch: seq<LogEntry>)
    requires prev <= |log| && Consecutive(batch, prev)
    requires Agreed(View(log), prev, View(batch)) == |batch|
    ensures NewRecords(log, batch) == []
    decreases |batch|
  {
    if batch != [] {
      assert View(batch)[1..] == View(batch[1..]);
      NothingNew(log, prev + 1, batch[1..]);
    }
  }

  /** Delivering a batch a second time changes neither the log nor the file. */
  lemma {:induction false} RepeatChangesNothing(log: seq<LogEntry>, prev: nat, batch: seq<LogEntry>)
    requires prev <= |log| && Consecutive(batch, prev)
    ensures var r := MergeEntries(log, prev, batch);
            prev <= |r| && MergeEntries(r, prev, batch) == r && NewRecords(r, batch) == []
  {
    MergeEntriesView(log, prev, batch);
    MergeAgrees(View(log), prev, View(batch));
    NothingNew(MergeEntries(log, prev, batch), prev, batch);
  }

  // ---------------------------------------------------------------- replay

  /** Replay rebuilds entries without their kind, so every entry comes back as a client entry. */
  function Forget(e: LogEntry): LogEntry {
    e.(kind := ClientEntry)
  }

  ghost function ForgetAll(log: seq<LogEntry>): (r: seq<LogEntry>)
    ensures |r| == |log| && forall i :: 0 <= i < |log| ==> r[i] == Forget(log[i])
  {
    seq(|log|, i requires 0 <= i < |log| => Forget(log[i]))
  }

  /** The durable state a record file stands for. */
  datatype Durable = Durable(currentTerm: nat, votedFor: Option<Id>, log: seq<LogEntry>)

  ghost function ReplayOne(d: Durable, r: Record): Durable {
    match r
    case LogRecord(e) => if 1 <= e.index <= |d.log| + 1 then d.(log := Put(d.log, Forget(e))) else d
    case ControlRecord(t, v) => d.(currentTerm := t, votedFor := v)
  }

  ghost function Replay(file: seq<Record>): Durable {
    if file == [] then Durable(0, None, [])
    else ReplayOne(Replay(file[..|file| - 1]), file[|file| - 1])
  }

  /** No snapshot came before these records: the first log record that counts has index 1. Later ones may leave
      gaps; replay then skips them. */
  ghost predicate WellFormed(file: seq<Record>) {
    file != [] ==>
      var l := |file| - 1;
      && WellFormed(file[..l])
      && (file[l].LogRecord? && Replay(file[..l]).log == [] ==> file[l].e.index <= 1)
  }

  lemma {:induction false} ReplayMore(file: seq<Record>, r: Record)
    requires WellFormed(file)
    requires r.LogRecord? && Replay(file).log == [] ==> r.e.index <= 1
    ensures WellFormed(file + [r]) && Replay(file + [r]) == ReplayOne(Replay(file), r)
  {
    assert (file + [r])[..|file|] == file;
  }

  lemma {:induction false} WellFormedPrefix(file: seq<Record>, k: nat)
    requires WellFormed(file) && k <= |file|
    ensures WellFormed(file[..k])
    decreases |file|
  {
    if k < |file| {
      WellFormedPrefix(file[..|file| - 1], k);
      assert file[..|file| - 1][..k] == file[..k];
    } else {
      assert file[..k] == file;
    }
  }

  lemma {:induction false} PutForgets(log: seq<LogEntry>, e: LogEntry)
    requires 1 <= e.index <= |log| + 1
    ensures Put(ForgetAll(log), Forget(e)) == ForgetAll(Put(log, e))
  {
  }

  /** Replay loses nothing of a log exactly when it holds no entry of raft's own. */
  lemma {:induction false} ForgetsNothingIff(log: seq<LogEntry>)
    ensures ForgetAll(log) == log <==> forall i :: 0 <= i < |log| ==> log[i].kind == ClientEntry
  {
    if ForgetAll(log) == log {
      forall i | 0 <= i < |log| ensures log[i].kind == ClientEntry {
        assert ForgetAll(log)[i] == log[i];
      }
    }
  }

  /** A file that stands for a log stands, with one more entry, for the log with that entry put. */
  lemma WrittenReplays(file: seq<Record>, term: nat, vote: Option<Id>, log: seq<LogEntry>, e: LogEntry)
    requires WellFormed(file) && Replay(file) == Durable(term, vote, ForgetAll(log)) && 1 <= e.index <= |log| + 1
    ensures WellFormed(file + [LogRecord(e)])
    ensures Replay(file + [LogRecord(e)]) == Durable(term, vote, ForgetAll(Put(log, e)))
  {
    ReplayMore(file, LogRecord(e));
    PutForgets(log, e);
  }

  // ---------------------------------------------------------------- the object

  class FsPersist {
    var currentTerm: nat
    var votedFor: Option<Id>
    const baseIndex: nat := 0
    const baseTerm: nat := 0
    var lastIndex: nat
    var lastTerm: nat
    var logTail: map<nat, LogEntry>
    var file: seq<Record>
    /** The log as a sequence. */
    ghost var log: seq<LogEntry>

    /** The map holds exactly the indices 1 to lastIndex, in the order of `log`, each entry under its own index. */
    ghost predicate Contiguous()
      reads this
    {
      && lastIndex == |log|
      && (forall i: nat :: i in logTail <==> 1 <= i <= lastIndex)
      && (forall i: nat :: 1 <= i <= lastIndex ==> logTail[i] == log[i - 1])
      && Indexed(log)
      && lastTerm == (if log == [] then 0 else log[|log| - 1].term)
    }

    /** A crash now would lose nothing: the file replays to the present term, vote and log. */
    ghost predicate Recoverable()
      requires Contiguous()
      reads this
    {
      WellFormed(file) && Replay(file) == Durable(currentTerm, votedFor, ForgetAll(log))
    }

    ghost predicate Valid()
      reads this
    {
      Contiguous() && Recoverable()
    }

    /** The deletion loop of addToLogTail: drop every entry above `index`. */
    method DeleteAbove(index: nat)
      requires forall j: nat :: j in logTail ==> j <= lastIndex
      modifies this`logTail
      ensures forall j: nat :: j in logTail <==> j in old(logTail) && j <= index
      ensures forall j: nat :: j in logTail ==> logTail[j] == old(logTail)[j]
    {
      var i := index + 1;
      while i <= lastIndex
        invariant index < i && (i <= lastIndex + 1 || i == index + 1)
        invariant forall j: nat :: j in logTail ==> j in old(logTail) && !(index < j < i)
        invariant forall j: nat :: j in old(logTail) && !(index < j < i) ==> j in logTail
        invariant forall j: nat :: j in logTail ==> logTail[j] == old(logTail)[j]
      {
        logTail := logTail - {i};
        i := i + 1;
      }
    }

    /** addToLogTail. */
    method AddToLogTail(e: LogEntry) returns (changed: bool)
      requires Contiguous() && 1 <= e.index <= lastIndex + 1
      modifies this`lastIndex, this`lastTerm, this`logTail, this`log
      ensures Contiguous() && log == Put(old(log), e)
      ensures changed <==> !(e.index <= old(lastIndex) && old(logTail)[e.index].term == e.term)
    {
      if e.index in logTail {
        if logTail[e.index].term == e.term {
          return false;
        }
        DeleteAbove(e.index);
      }
      logTail := logTail[e.index := e];
      lastIndex := e.index;
      lastTerm := e.term;
      log := log[..e.index - 1] + [e];
      return true;
    }

    /** syncLog. */
    method SyncLog()
      requires Contiguous() && WellFormed(file) && Replay(file).log == ForgetAll(log)
      modifies this`file
      ensures Valid() && file == old(file) + [ControlRecord(currentTerm, votedFor)]
    {
      ReplayMore(file, ControlRecord(currentTerm, votedFor));
      file := file + [ControlRecord(currentTerm, votedFor)];
    }

    method SetCurrentTerm(term: nat)
      requires Valid()
      modifies this`currentTerm, this`file
      ensures Valid() && currentTerm == term && log == old(log)
      ensures file == old(file) + [ControlRecord(term, votedFor)]
    {
      currentTerm := term;
      SyncLog();
    }

    method IncCurrentTerm()
      requires Valid()
      modifies this`currentTerm, this`file
      ensures Valid() && currentTerm == old(currentTerm) + 1 && log == old(log)
      ensures file == old(file) + [ControlRecord(currentTerm, votedFor)]
    {
      currentTerm := currentTerm + 1;
      SyncLog();
    }

    /** A vote that is already on record is not written again. */
    method SetVotedFor(vote: Option<Id>)
      requires Valid()
      modifies this`votedFor, this`file
      ensures Valid() && votedFor == vote && log == old(log)
      ensures file == if vote == old(votedFor) then old(file) else old(file) + [ControlRecord(currentTerm, vote)]
    {
      if vote == votedFor {
        return;
      }
      votedFor := vote;
      SyncLog();
    }

    method SetCurrentTermAndVotedFor(term: nat, vote: Option<Id>)
      requires Valid()
      modifies this`currentTerm, this`votedFor, this`file
      ensures Valid() && currentTerm == term && votedFor == vote && log == old(log)
      ensures file == old(file) + [ControlRecord(term, vote)]
    {
      currentTerm := term;
      votedFor := vote;
      SyncLog();
    }

    method Lookup(i: nat) returns (le: Option<LogEntry>)
      requires Contiguous()
      ensures le == if 1 <= i <= lastIndex then Some(log[i - 1]) else None
    {
      if i in logTail {
        return Some(logTail[i]);
      }
      return None;
    }

    /** Term and index preceding `i`; an index of 0 wraps around to one that is not there. */
    method LookupPrevious(i: nat) returns (term: nat, prev: nat, ok: bool)
      requires Contiguous()
      ensures ok <==> 1 <= i <= lastIndex + 1
      ensures ok ==> prev == i - 1 && term == LastTerm(View(log)[..i - 1])
    {
      if i == 0 {
        return 0, 0, false;
      }
      prev := i - 1;
      if prev == baseIndex {
        return baseTerm, prev, true;
      }
      if prev !in logTail {
        return 0, prev, false;
      }
      assert prev - 1 < lastIndex ==> log[prev - 1] == logTail[prev];
      return logTail[prev].term, prev, true;
    }

    /** An entry goes to the file and into the map. */
    method Write(e: LogEntry)
      requires Valid() && 1 <= e.index <= lastIndex + 1
      modifies this`lastIndex, this`lastTerm, this`logTail, this`log, this`file
      ensures Valid() && log == Put(old(log), e) && file == old(file) + [LogRecord(e)]
    {
      WrittenReplays(file, currentTerm, votedFor, log, e);
      ghost var written, put := file + [LogRecord(e)], Put(log, e);
      file := file + [LogRecord(e)];
      var changed := AddToLogTail(e);
      assert file == written && log == put;
    }

    /** The check of AppendToLog: the predecessor is the base, or is there with the right term. */
    method Precedes(prevTerm: nat, prevIndex: nat) returns (ok: bool)
      requires Contiguous()
      ensures ok <==> Follows(View(log), prevTerm, prevIndex)
    {
      if prevIndex == baseIndex && prevTerm == baseTerm {
        return true;
      }
      if prevIndex !in logTail {
        return false;
      }
      assert log[prevIndex - 1] == logTail[prevIndex];
      return logTail[prevIndex].term == prevTerm;
    }

    /** One iteration of AppendToLog. */
    method AppendOne(at: nat, e: LogEntry)
      requires Valid() && e.index == at && 1 <= at <= lastIndex + 1
      modifies this`lastIndex, this`lastTerm, this`logTail, this`log, this`file
      ensures Valid() && log == Put(old(log), e)
      ensures file == old(file) + if Present(old(log), e) then [] else [LogRecord(e)]
    {
      if at in logTail && logTail[at].term == e.term {
        return;
      }
      Write(e);
    }

    /** The loop of AppendToLog. */
    method AppendBatch(prevIndex: nat, batch: seq<LogEntry>)
      requires Valid() && prevIndex <= lastIndex && Consecutive(batch, prevIndex)
      modifies this`lastIndex, this`lastTerm, this`logTail, this`log, this`file
      ensures Valid() && log == MergeEntries(old(log), prevIndex, batch)
      ensures file == old(file) + NewRecords(old(log), batch)
    {
      PutAllIsMerge(old(log), prevIndex, batch);
      for i := 0 to |batch|
        invariant Valid() && prevIndex + i <= lastIndex
        invariant PutAll(log, batch[i..]) == PutAll(old(log), batch)
        invariant file + NewRecords(log, batch[i..]) == old(file) + NewRecords(old(log), batch)
      {
        FoldStep(file, log, batch, i);
        AppendOne(prevIndex + i + 1, batch[i]);
      }
    }

    /** AppendToLog: refuses a batch whose predecessor is missing, and otherwise merges it. Only entries
        that change the log are written to the file. */
    method AppendToLog(prevTerm: nat, prevIndex: nat, batch: seq<LogEntry>) returns (ok: bool)
      requires Valid() && Consecutive(batch, prevIndex)
      modifies this`lastIndex, this`lastTerm, this`logTail, this`log, this`file
      ensures Valid()
      ensures ok <==> Follows(View(old(log)), prevTerm, prevIndex)
      ensures !ok ==> log == old(log) && file == old(file)
      ensures ok ==> log == MergeEntries(old(log), prevIndex, batch)
      ensures ok ==> file == old(file) + NewRecords(old(log), batch)
    {
      ok := Precedes(prevTerm, prevIndex);
      if ok {
        AppendBatch(prevIndex, batch);
      }
    }

    /** openPersist over the records found: a fresh directory has none. The new log file starts with a
        control entry. */
    constructor (records: seq<Record>)
      requires WellFormed(records)
      ensures Valid() && file == records + [ControlRecord(currentTerm, votedFor)]
      ensures Durable(currentTerm, votedFor, log) == Replay(records)
    {
      currentTerm, votedFor, lastIndex, lastTerm := 0, None, 0, 0;
      logTail, log := map[], [];
      file := records;
      new;
      ReadLog(records);
      ForgetsNothingIff(log);
      SyncLog();
    }

    /** readLog: replay every record in order. */
    method ReadLog(records: seq<Record>)
      requires Contiguous() && WellFormed(records) && currentTerm == 0 && votedFor == None && log == []
      modifies this`currentTerm, this`votedFor, this`lastIndex, this`lastTerm, this`logTail, this`log
      ensures Contiguous() && Durable(currentTerm, votedFor, log) == Replay(records)
      ensures forall i :: 0 <= i < |log| ==> log[i].kind == ClientEntry
    {
      for k := 0 to |records|
        invariant Contiguous() && WellFormed(records[..k])
        invariant Durable(currentTerm, votedFor, log) == Replay(records[..k])
        invariant forall i :: 0 <= i < |log| ==> log[i].kind == ClientEntry
      {
        WellFormedPrefix(records, k + 1);
        assert records[..k + 1][..k] == records[..k];
        ReadOne(records[k]);
      }
      assert records[..|records|] == records;
    }

    /** One iteration of readLog. */
    method ReadOne(r: Record)
      requires Contiguous() && (r.LogRecord? && lastIndex == 0 ==> r.e.index <= 1)
      requires forall i :: 0 <= i < |log| ==> log[i].kind == ClientEntry
      modifies this`currentTerm, this`votedFor, this`lastIndex, this`lastTerm, this`logTail, this`log
      ensures Contiguous()
      ensures Durable(currentTerm, votedFor, log) == ReplayOne(old(Durable(currentTerm, votedFor, log)), r)
      ensures forall i :: 0 <= i < |log| ==> log[i].kind == ClientEntry
    {
      match r
      case ControlRecord(t, v) =>
        currentTerm, votedFor := t, v;
      case LogRecord(e) =>
        if e.index != 0 && (lastIndex == 0 || e.index <= lastIndex + 1) {
          var changed := AddToLogTail(LogEntry(e.term, e.index, e.cmd, ClientEntry));
        }
    }
  }

  /** Crash and restart: a member opened on the file of a running one has its term, its vote and its log,
      up to the kind of the entries. */
  method Reopen(p: FsPersist) returns (q: FsPersist)
    requires p.Valid()
    ensures fresh(q) && q.Valid()
    ensures q.currentTerm == p.currentTerm && q.votedFor == p.votedFor
    ensures q.lastIndex == p.lastIndex && q.lastTerm == p.lastTerm
    ensures q.log == ForgetAll(p.log) && View(q.log) == View(p.log)
    ensures q.log == p.log <==> forall i :: 0 <= i < |p.log| ==> p.log[i].kind == ClientEntry
  {
    q := new FsPersist(p.file);
    ForgetsNothingIff(p.log);
  }
}
