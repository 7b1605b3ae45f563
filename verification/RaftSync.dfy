/** Sync and syncLoop: callers take tickets, one loop syncs with the leader on behalf of all of them.

    Each action is one critical section under the sync lock; they interleave in any order. */
module RaftSync {
  import opened Common

  type Caller = nat

  /** `syncing`: the ticket up to which the sync under way will count. */
  datatype State = State(requested: nat, done: nat, syncing: Option<nat>, waiting: map<Caller, nat>)

  datatype Action =
    | Ask(who: Caller)
    | Begin
    | Fail
    | Succeed
    | Return(who: Caller)
    | GiveUp(who: Caller)

  const START := State(0, 0, None, map[])

  predicate Enabled(s: State, a: Action) {
    match a
    case Ask(c) => c !in s.waiting
    case Begin => s.syncing == None && s.requested > s.done
    case Fail => s.syncing.Some?
    case Succeed => s.syncing.Some?
    case Return(c) => c in s.waiting && s.waiting[c] <= s.done
    case GiveUp(c) => c in s.waiting && s.waiting[c] > s.done
  }

  function Step(s: State, a: Action): State
    requires Enabled(s, a)
  {
    match a
    case Ask(c) => s.(requested := s.requested + 1, waiting := s.waiting[c := s.requested + 1])
    case Begin => s.(syncing := Some(s.requested))
    case Fail => s.(syncing := None)
    case Succeed => s.(syncing := None, done := s.syncing.value)
    case Return(c) => s.(waiting := s.waiting - {c})
    case GiveUp(c) => s.(waiting := s.waiting - {c})
  }

  function Front(acts: seq<Action>): (r: seq<Action>)
    requires acts != []
    ensures |r| == |acts| - 1
  {
    acts[..|acts| - 1]
  }

  function Final(acts: seq<Action>): Action
    requires acts != []
  {
    acts[|acts| - 1]
  }

  ghost predicate Run(acts: seq<Action>)
    decreases |acts|, 0
  {
    acts == [] || (Run(Front(acts)) && Enabled(After(Front(acts)), Final(acts)))
  }

  ghost function After(acts: seq<Action>): State
    requires Run(acts)
    decreases |acts|, 1
  {
    if acts == [] then START else Step(After(Front(acts)), Final(acts))
  }

  // ---------------------------------------------------------------- what a trace says

  function Asks(acts: seq<Action>): nat {
    if acts == [] then 0 else Asks(Front(acts)) + if Final(acts).Ask? then 1 else 0
  }

  predicate OfLoop(a: Action) {
    a.Begin? || a.Fail? || a.Succeed?
  }

  /** Where the sync under way began. */
  function Open(acts: seq<Action>): (b: Option<nat>)
    ensures b.Some? ==> b.value < |acts|
  {
    if acts == [] then None
    else if Final(acts).Begin? then Some(|acts| - 1)
    else if OfLoop(Final(acts)) then None
    else Open(Front(acts))
  }

  /** Where the latest sync that succeeded began. */
  function Good(acts: seq<Action>): (b: Option<nat>)
    ensures b.Some? ==> b.value < |acts|
  {
    if acts == [] then None
    else if Final(acts).Succeed? then Open(Front(acts))
    else Good(Front(acts))
  }

  /** Where the call that `c` is in began. */
  function Asked(acts: seq<Action>, c: Caller): (i: Option<nat>)
    ensures i.Some? ==> i.value < |acts| && acts[i.value] == Ask(c)
  {
    if acts == [] then None
    else if Final(acts) == Ask(c) then Some(|acts| - 1)
    else if Final(acts) == Return(c) || Final(acts) == GiveUp(c) then None
    else Asked(Front(acts), c)
  }

  /** One sync, from its beginning to its success. */
  predicate GoodSync(acts: seq<Action>, b: nat, e: nat) {
    && b < e < |acts| && acts[b] == Begin && acts[e] == Succeed
    && forall j :: b < j < e ==> !OfLoop(acts[j])
  }

  lemma {:induction false} AsksMonotone(acts: seq<Action>, n: nat)
    requires n <= |acts|
    ensures Asks(acts[..n]) <= Asks(acts)
    decreases |acts|
  {
    if n < |acts| {
      AsksMonotone(Front(acts), n);
      assert Front(acts)[..n] == acts[..n];
    } else {
      assert acts[..n] == acts;
    }
  }

  /** Tickets count calls: as of now, as of the start of the sync under way, and of the last good one. */
  lemma {:induction false} LoopTickets(acts: seq<Action>)
    requires Run(acts)
    ensures var s := After(acts);
            && s.requested == Asks(acts)
            && s.done == (match Good(acts) case None => 0 case Some(b) => Asks(acts[..b]))
            && s.syncing == (match Open(acts) case None => None case Some(b) => Some(Asks(acts[..b])))
    decreases |acts|
  {
    if acts != [] {
      var f := Front(acts);
      LoopTickets(f);
      if Open(f).Some? { assert f[..Open(f).value] == acts[..Open(f).value]; }
      if Good(f).Some? { assert f[..Good(f).value] == acts[..Good(f).value]; }
    }
  }

  lemma {:induction false} CallTickets(acts: seq<Action>, c: Caller)
    requires Run(acts)
    ensures var s := After(acts);
            && (c in s.waiting <==> Asked(acts, c).Some?)
            && (c in s.waiting ==> s.waiting[c] == Asks(acts[..Asked(acts, c).value]) + 1)
    decreases |acts|
  {
    if acts != [] {
      var f := Front(acts);
      CallTickets(f, c);
      LoopTickets(f);
      if Asked(f, c).Some? { assert f[..Asked(f, c).value] == acts[..Asked(f, c).value]; }
    }
  }

  lemma {:induction false} OpenBegan(acts: seq<Action>, b: nat)
    ensures Open(acts) == Some(b) <==>
            b < |acts| && acts[b] == Begin && forall j :: b < j < |acts| ==> !OfLoop(acts[j])
    decreases |acts|
  {
    if acts != [] {
      OpenBegan(Front(acts), b);
      if b < |acts| - 1 && !OfLoop(Final(acts)) {
        assert forall j :: b < j < |acts| ==> acts[j] == if j == |acts| - 1 then Final(acts) else Front(acts)[j];
      }
    }
  }

  lemma {:induction false} GoodSucceeded(acts: seq<Action>, b: nat)
    requires Good(acts) == Some(b)
    ensures exists e: nat :: GoodSync(acts, b, e)
    decreases |acts|
  {
    var l := |acts| - 1;
    if Final(acts).Succeed? {
      OpenBegan(Front(acts), b);
      assert GoodSync(acts, b, l);
    } else {
      GoodSucceeded(Front(acts), b);
      var e: nat :| GoodSync(Front(acts), b, e);
      assert GoodSync(acts, b, e);
    }
  }

  lemma {:induction false} GoodLatest(acts: seq<Action>, b: nat, e: nat)
    requires Run(acts) && GoodSync(acts, b, e)
    ensures Good(acts).Some? && b <= Good(acts).value
    decreases |acts|
  {
    var f := Front(acts);
    if e == |acts| - 1 {
      OpenBegan(f, b);
    } else {
      assert GoodSync(f, b, e);
      GoodLatest(f, b, e);
      if Final(acts).Succeed? {
        LoopTickets(f);
        var x, g := Open(f).value, Good(f).value;
        OpenBegan(f, x);
        GoodSucceeded(f, g);
        var e': nat :| GoodSync(f, g, e');
        assert OfLoop(f[e']);
      }
    }
  }

  /** A caller may return exactly when a sync that began after it took its ticket has succeeded. */
  lemma ReadyIff(acts: seq<Action>, c: Caller)
    requires Run(acts) && Asked(acts, c).Some?
    ensures var s, i := After(acts), Asked(acts, c).value;
            c in s.waiting && (s.waiting[c] <= s.done <==> exists b: nat, e: nat :: i < b && GoodSync(acts, b, e))
  {
    var s, i := After(acts), Asked(acts, c).value;
    LoopTickets(acts);
    CallTickets(acts, c);
    if s.waiting[c] <= s.done {
      var b := Good(acts).value;
      if b <= i {
        assert acts[..i][..b] == acts[..b];
        AsksMonotone(acts[..i], b);
      }
      GoodSucceeded(acts, b);
    }
    if b: nat, e: nat :| i < b && GoodSync(acts, b, e) {
      GoodLatest(acts, b, e);
      var g := Good(acts).value;
      assert acts[..g][..i + 1] == acts[..i + 1];
      AsksMonotone(acts[..g], i + 1);
      assert Front(acts[..i + 1]) == acts[..i] && Final(acts[..i + 1]) == Ask(c);
    }
  }

  /** The call that `c` is in began at `i`. */
  predicate CallBegan(acts: seq<Action>, c: Caller, i: nat) {
    && i < |acts| && acts[i] == Ask(c)
    && forall j :: i < j < |acts| ==> acts[j] != Ask(c) && acts[j] != Return(c) && acts[j] != GiveUp(c)
  }

  lemma {:induction false} AskedLast(acts: seq<Action>, c: Caller)
    requires Asked(acts, c).Some?
    ensures CallBegan(acts, c, Asked(acts, c).value)
    decreases |acts|
  {
    if Final(acts) != Ask(c) {
      AskedLast(Front(acts), c);
      assert forall j :: 0 <= j < |acts| ==> acts[j] == if j == |acts| - 1 then Final(acts) else Front(acts)[j];
    }
  }

  /** Sync returns success only if, during the call, some sync with the leader began and succeeded. */
  lemma SyncReturns(acts: seq<Action>, c: Caller)
    requires Run(acts + [Return(c)])
    ensures exists i: nat, b: nat, e: nat :: CallBegan(acts, c, i) && i < b && GoodSync(acts, b, e)
  {
    assert Front(acts + [Return(c)]) == acts && Final(acts + [Return(c)]) == Return(c);
    CallTickets(acts, c);
    ReadyIff(acts, c);
    var i := Asked(acts, c).value;
    var b: nat, e: nat :| i < b && GoodSync(acts, b, e);
    AskedLast(acts, c);
    assert CallBegan(acts, c, i);
  }

  /** A sync counts for every caller that was waiting when it began, whatever came in between. */
  lemma AllServed(acts: seq<Action>, c: Caller)
    requires Run(acts + [Succeed]) && Asked(acts, c).Some? && Open(acts).Some?
    ensures Asked(acts, c).value < Open(acts).value ==> Enabled(After(acts + [Succeed]), Return(c))
  {
    var all, b := acts + [Succeed], Open(acts).value;
    assert Front(all) == acts && Final(all) == Succeed;
    OpenBegan(acts, b);
    assert GoodSync(all, b, |acts|) by {
      assert forall j :: b < j < |acts| ==> all[j] == acts[j];
    }
    ReadyIff(all, c);
  }
}
