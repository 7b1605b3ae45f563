/** The replicated log as a sequence: entry `i` of the protocol (indices start at 1) is `log[i - 1]`.

    `Merge` is the declarative rule for appending a batch; the loop over the in-memory map that
    implements it is `FsPersist.AppendToLog`. */
module RaftLog {

  type Cmd = string

  /** What the members must agree on: the term that created the entry and its command. */
  datatype Entry = Entry(term: nat, cmd: Cmd)

  /** The empty command a new leader logs for its own term. */
  const NULL_CMD: Cmd := ""

  function LastTerm(log: seq<Entry>): nat {
    if log == [] then 0 else log[|log| - 1].term
  }

  /** The consistency check: the entry preceding the batch is present with the right term.
      Index 0 with term 0 is the base of a log without snapshot. */
  predicate Follows(log: seq<Entry>, prevTerm: nat, prevIndex: nat) {
    || (prevIndex == 0 && prevTerm == 0)
    || (1 <= prevIndex <= |log| && log[prevIndex - 1].term == prevTerm)
  }

  /** The number of leading batch entries that the log already holds with the same term. */
  function Agreed(log: seq<Entry>, prev: nat, batch: seq<Entry>): (k: nat)
    requires prev <= |log|
    ensures k <= |batch| && prev + k <= |log|
    ensures forall i :: prev <= i < prev + k ==> log[i].term == batch[i - prev].term
    ensures k < |batch| && prev + k < |log| ==> log[prev + k].term != batch[k].term
    decreases |batch|
  {
    if batch == [] || prev == |log| || log[prev].term != batch[0].term then 0
    else
      1 + Agreed(log, prev + 1, batch[1..])
  }

  /** A batch that is already there changes nothing, so a late heartbeat never truncates;
      otherwise the log is cut at the first disagreement and the rest of the batch follows. */
  function Merge(log: seq<Entry>, prev: nat, batch: seq<Entry>): (r: seq<Entry>)
    requires prev <= |log|
  {
    var k := Agreed(log, prev, batch);
    if k == |batch| then log else log[..prev + k] + batch[k..]
  }

  ghost predicate Differs(a: seq<Entry>, b: seq<Entry>, end: nat)
    requires end <= |b|
  {
    exists m :: 0 <= m < end && m < |a| && a[m] != b[m]
  }

  /** Equal terms mean equal logs, from `prev` to `end`. */
  ghost predicate TermsDecide(log: seq<Entry>, source: seq<Entry>, prev: nat, end: nat)
    requires end <= |source|
  {
    forall k {:trigger log[k]} :: prev <= k < end && k < |log| && log[k].term == source[k].term ==>
      log[..k + 1] == source[..k + 1]
  }

  /** A log that agrees with `source` up to `prev`, merged with a slice of `source` taken there, holds
      `source` up to the end of the slice; it is then the old log, or exactly that much of `source`;
      and an entry of the old log is lost only if it really differed. */
  lemma {:induction false} MergeSlice(log: seq<Entry>, prev: nat, batch: seq<Entry>, source: seq<Entry>)
    requires prev <= |log| && prev + |batch| <= |source| && batch == source[prev..prev + |batch|]
    requires log[..prev] == source[..prev] && TermsDecide(log, source, prev, prev + |batch|)
    ensures var r, end := Merge(log, prev, batch), prev + |batch|;
            && source[..end] <= r
            && (r == log || r == source[..end])
            && (log <= r || (r == source[..end] && Differs(log, source, end)))
  {
    var end := prev + |batch|;
    var k := Agreed(log, prev, batch);
    if k > 0 {
      assert log[prev + k - 1].term == batch[k - 1].term;
    }
    if k < |batch| {
      assert log[..prev + k] + batch[k..] == source[..end];
      if prev + k < |log| {
        assert log[prev + k] != source[prev + k];
      } else {
        assert log == source[..prev + k];
      }
    }
  }

  /** Once merged, every entry of the batch is there with its term. */
  lemma {:induction false} MergeAgrees(log: seq<Entry>, prev: nat, batch: seq<Entry>)
    requires prev <= |log|
    ensures prev <= |Merge(log, prev, batch)| && Agreed(Merge(log, prev, batch), prev, batch) == |batch|
  {
  }

  /** Delivering the same batch twice is the same as delivering it once. */
  lemma {:induction false} MergeIdempotent(log: seq<Entry>, prev: nat, batch: seq<Entry>)
    requires prev <= |log|
    ensures prev <= |Merge(log, prev, batch)|
    ensures Merge(Merge(log, prev, batch), prev, batch) == Merge(log, prev, batch)
  {
    MergeAgrees(log, prev, batch);
  }

  /** A server's append to its own log always passes the check and only ever extends the log. */
  lemma {:induction false} OwnAppend(log: seq<Entry>, e: Entry)
    ensures Follows(log, LastTerm(log), |log|)
    ensures Merge(log, |log|, [e]) == log + [e]
  {
    assert [e][0..] == [e];
  }
}
