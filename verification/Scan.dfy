/** The event loop of a discovery scan: plugin events in, a stream of found and lost updates out.

    Decryption, the matcher and the session of an advertisement are given with each event. */
module Scanning {
  import opened Common

  type AdId = nat
  type Hash = nat

  /** There are at most 32 plugins. */
  type Plugin = bv5

  datatype Status = Ready | NotReady | PartiallyReady

  /** Directory addresses are compared after sorting, so their order is not kept. `body` stands for the rest of
      the advertisement. */
  datatype AdInfo = AdInfo(
    id: AdId, hash: Hash, status: Status, dirAddrs: multiset<string>, timestamp: int, body: string, lost: bool)

  /** `own`: made within the scanning session. `plain`: the decrypted body, if it can be had. `matched`: what
      the matcher says, if it does not fail. */
  datatype Event = Event(src: Plugin, ad: AdInfo, own: bool, plain: Option<string>, matched: Option<bool>)

  // ---------------------------------------------------------------- what the loop does

  /** An advertisement that was sent as found, with the plugins it still has. */
  datatype Tracked = Tracked(ad: AdInfo, sources: set<Plugin>)

  type State = map<AdId, Tracked>

  /** The event's advertisement as it would be sent. */
  function Opened(e: Event): AdInfo
    requires e.plain.Some?
  {
    e.ad.(dirAddrs := if e.ad.status == Ready then multiset{} else e.ad.dirAddrs, body := e.plain.value)
  }

  /** Complete enough, readable and matching. What is not ready is fetched, and comes back as another event. */
  predicate Usable(e: Event) {
    && (e.ad.status == Ready || (e.ad.status == PartiallyReady && e.ad.dirAddrs != multiset{}))
    && e.plain.Some? && e.matched == Some(true)
  }

  predicate Changed(was: AdInfo, ad: AdInfo) {
    was.hash != ad.hash || (was.status != Ready && was.dirAddrs != ad.dirAddrs)
  }

  function Lose(st: State, e: Event): (State, seq<AdInfo>) {
    var id := e.ad.id;
    if id !in st then (st, [])
    else
      var rest := st[id].sources - {e.src};
      if rest != {} then (st[id := st[id].(sources := rest)], [])
      else (st - {id}, [st[id].ad.(lost := true)])
  }

  /** A plugin that sees the version already tracked becomes one of its sources. */
  function Noted(st: State, e: Event): State {
    var id := e.ad.id;
    if id in st && st[id].ad.hash == e.ad.hash then st[id := st[id].(sources := st[id].sources + {e.src})] else st
  }

  /** An advertisement fit to be sent: new, older than the one tracked, no different from it, or replacing it. */
  function Accept(st: State, ad: AdInfo, src: Plugin): (State, seq<AdInfo>) {
    if ad.id !in st then (st[ad.id := Tracked(ad, {src})], [ad])
    else
      var was := st[ad.id].ad;
      if was.timestamp > ad.timestamp || !Changed(was, ad) then (st, [])
      else (st[ad.id := Tracked(ad, {src})], [was.(lost := true), ad])
  }

  function Find(st: State, e: Event): (State, seq<AdInfo>) {
    var id, st' := e.ad.id, Noted(st, e);
    if id in st && st[id].ad.hash == e.ad.hash && st[id].ad.status == Ready then (st', [])
    else if !Usable(e) then (st', [])
    else Accept(st', Opened(e), e.src)
  }

  /** One event: the new state, and the updates to send. */
  function Handle(st: State, e: Event): (State, seq<AdInfo>) {
    if e.ad.lost then Lose(st, e)
    else if e.own then (st, [])
    else Find(st, e)
  }

  function After(st: State, events: seq<Event>): State
    decreases |events|
  {
    if events == [] then st else After(Handle(st, events[0]).0, events[1..])
  }

  function Stream(st: State, events: seq<Event>): seq<AdInfo>
    decreases |events|
  {
    if events == [] then [] else
      var (st', us) := Handle(st, events[0]);
      us + Stream(st', events[1..])
  }

  // ---------------------------------------------------------------- the stream is well formed

  ghost predicate Inv(st: State) {
    forall id :: id in st ==> st[id].ad.id == id && !st[id].ad.lost && st[id].sources != {}
  }

  lemma HandleKeeps(st: State, e: Event)
    requires Inv(st)
    ensures Inv(Handle(st, e).0)
  {
    var (st', us) := Handle(st, e);
    forall id | id in st' ensures st'[id].ad.id == id && !st'[id].ad.lost && st'[id].sources != {} {
      if id == e.ad.id {
        assert e.src in {e.src};
      }
    }
  }

  lemma {:induction false} AfterKeeps(st: State, events: seq<Event>)
    requires Inv(st)
    ensures Inv(After(st, events))
    decreases |events|
  {
    if events != [] {
      HandleKeeps(st, events[0]);
      AfterKeeps(Handle(st, events[0]).0, events[1..]);
    }
  }

  /** The advertisement `id` as a listener knows it, if it knows one. */
  function Known(st: State, id: AdId): Option<AdInfo> {
    if id in st then Some(st[id].ad) else None
  }

  /** For one id, found and lost alternate, and each loss repeats in full what was last found. */
  predicate Alternates(us: seq<AdInfo>, id: AdId, known: Option<AdInfo>)
    decreases |us|
  {
    if us == [] then true
    else if us[0].id != id then Alternates(us[1..], id, known)
    else if known.Some? then us[0] == known.value.(lost := true) && Alternates(us[1..], id, None)
    else !us[0].lost && Alternates(us[1..], id, Some(us[0]))
  }

  /** What is known once all of the updates were sent. */
  function Last(us: seq<AdInfo>, id: AdId, known: Option<AdInfo>): Option<AdInfo>
    decreases |us|
  {
    if us == [] then known
    else Last(us[1..], id, if us[0].id != id then known else if us[0].lost then None else Some(us[0]))
  }

  lemma {:induction false} AlternatesConcat(us: seq<AdInfo>, vs: seq<AdInfo>, id: AdId, known: Option<AdInfo>)
    requires Alternates(us, id, known) && Alternates(vs, id, Last(us, id, known))
    ensures Alternates(us + vs, id, known)
    ensures Last(us + vs, id, known) == Last(vs, id, Last(us, id, known))
    decreases |us|
  {
    if us == [] {
      assert us + vs == vs;
    } else {
      assert (us + vs)[1..] == us[1..] + vs;
      var next := if us[0].id != id then known else if us[0].lost then None else Some(us[0]);
      AlternatesConcat(us[1..], vs, id, next);
    }
  }

  lemma HandleAlternates(st: State, e: Event, id: AdId)
    requires Inv(st)
    ensures var (st', us) := Handle(st, e);
            Alternates(us, id, Known(st, id)) && Last(us, id, Known(st, id)) == Known(st', id)
  {
    var us := Handle(st, e).1;
    if |us| == 1 {
      assert us[1..] == [];
    } else if |us| == 2 {
      assert us == [us[0]] + [us[1]] && [us[0]][1..] == [] && [us[1]][1..] == [];
      AlternatesConcat([us[0]], [us[1]], id, Known(st, id));
    }
  }

  /** The whole stream alternates, whatever the events; at its end a listener knows what is tracked. */
  lemma {:induction false} StreamAlternates(st: State, events: seq<Event>, id: AdId)
    requires Inv(st)
    ensures Alternates(Stream(st, events), id, Known(st, id))
    ensures Last(Stream(st, events), id, Known(st, id)) == Known(After(st, events), id)
    decreases |events|
  {
    if events != [] {
      var (st', us) := Handle(st, events[0]);
      HandleAlternates(st, events[0], id);
      HandleKeeps(st, events[0]);
      StreamAlternates(st', events[1..], id);
      AlternatesConcat(us, Stream(st', events[1..]), id, Known(st, id));
    }
  }

  lemma {:induction false} AlternatesPrefix(us: seq<AdInfo>, n: nat, id: AdId, known: Option<AdInfo>)
    requires n <= |us| && Alternates(us, id, known)
    ensures Alternates(us[..n], id, known)
    decreases |us|
  {
    if n > 0 {
      assert us[..n][1..] == us[1..][..n - 1];
      var next := if us[0].id != id then known else if us[0].lost then None else Some(us[0]);
      AlternatesPrefix(us[1..], n - 1, id, next);
    }
  }

  /** After any events, a loss is sent exactly when it takes away the last source. */
  lemma LostIffEmptied(events: seq<Event>, e: Event)
    requires e.ad.lost
    ensures var st := After(map[], events);
            var us := Handle(st, e).1;
            && (us != [] <==> e.ad.id in st && st[e.ad.id].sources == {e.src})
            && (us != [] ==> us == [st[e.ad.id].ad.(lost := true)])
  {
    AfterKeeps(map[], events);
    var st := After(map[], events);
    if e.ad.id in st && st[e.ad.id].sources - {e.src} == {} {
      var s := st[e.ad.id].sources;
      var p :| p in s;
      assert p !in s - {e.src};
    }
  }

  // ---------------------------------------------------------------- one advertisement does not disturb another

  ghost predicate Agree(st: State, st': State, id: AdId) {
    (id in st <==> id in st') && (id in st ==> st[id] == st'[id])
  }

  function About(events: seq<Event>, id: AdId): seq<Event>
    decreases |events|
  {
    if events == [] then [] else
      (if events[0].ad.id == id then [events[0]] else []) + About(events[1..], id)
  }

  function Only(us: seq<AdInfo>, id: AdId): seq<AdInfo>
    decreases |us|
  {
    if us == [] then [] else (if us[0].id == id then [us[0]] else []) + Only(us[1..], id)
  }

  lemma {:induction false} OnlyConcat(us: seq<AdInfo>, vs: seq<AdInfo>, id: AdId)
    ensures Only(us + vs, id) == Only(us, id) + Only(vs, id)
    decreases |us|
  {
    if us == [] {
      assert us + vs == vs;
    } else {
      assert (us + vs)[0] == us[0] && (us + vs)[1..] == us[1..] + vs;
      OnlyConcat(us[1..], vs, id);
      var first, a, b := if us[0].id == id then [us[0]] else [], Only(us[1..], id), Only(vs, id);
      assert Only(us + vs, id) == first + Only(us[1..] + vs, id);
      assert first + (a + b) == (first + a) + b;
    }
  }

  lemma HandleOthers(st: State, e: Event, id: AdId)
    requires Inv(st) && e.ad.id != id
    ensures Agree(Handle(st, e).0, st, id) && Only(Handle(st, e).1, id) == []
  {
    var us := Handle(st, e).1;
    if |us| == 1 {
      assert us[1..] == [];
    } else if |us| == 2 {
      assert us == [us[0]] + [us[1]] && [us[0]][1..] == [] && [us[1]][1..] == [];
      OnlyConcat([us[0]], [us[1]], id);
    }
  }

  lemma HandleOwn(st: State, st': State, e: Event)
    requires Inv(st) && Agree(st, st', e.ad.id)
    ensures Agree(Handle(st, e).0, Handle(st', e).0, e.ad.id)
    ensures Handle(st, e).1 == Handle(st', e).1 == Only(Handle(st, e).1, e.ad.id)
  {
    var us := Handle(st, e).1;
    if |us| == 1 {
      assert us[1..] == [];
    } else if |us| == 2 {
      assert us == [us[0]] + [us[1]] && [us[0]][1..] == [] && [us[1]][1..] == [];
      OnlyConcat([us[0]], [us[1]], e.ad.id);
    }
  }

  /** The updates about one advertisement are those of a scan that sees the events about it alone. */
  lemma {:induction false} Independent(st: State, st': State, events: seq<Event>, id: AdId)
    requires Inv(st) && Inv(st') && Agree(st, st', id)
    ensures Only(Stream(st, events), id) == Stream(st', About(events, id))
    decreases |events|
  {
    if events != [] {
      var e, rest := events[0], events[1..];
      var (next, us) := Handle(st, e);
      HandleKeeps(st, e);
      OnlyConcat(us, Stream(next, rest), id);
      if e.ad.id == id {
        HandleOwn(st, st', e);
        HandleKeeps(st', e);
        Independent(next, Handle(st', e).0, rest, id);
        assert About(events, id)[1..] == About(rest, id);
      } else {
        HandleOthers(st, e, id);
        Independent(next, st', rest, id);
        assert About(events, id) == About(rest, id);
      }
    }
  }

  // ---------------------------------------------------------------- what is sent as found, and when

  lemma {:induction false} Extended(st: State, events: seq<Event>, more: seq<Event>)
    ensures After(st, events + more) == After(After(st, events), more)
    ensures Stream(st, events + more) == Stream(st, events) + Stream(After(st, events), more)
    decreases |events|
  {
    if events == [] {
      assert events + more == more;
    } else {
      assert (events + more)[0] == events[0] && (events + more)[1..] == events[1..] + more;
      var (st', us) := Handle(st, events[0]);
      Extended(st', events[1..], more);
      var vs, ws := Stream(st', events[1..]), Stream(After(st, events), more);
      assert us + (vs + ws) == (us + vs) + ws;
    }
  }

  lemma OneMore(events: seq<Event>, e: Event)
    ensures var st := After(map[], events);
            && Inv(st)
            && Known(st, e.ad.id) == Last(Stream(map[], events), e.ad.id, None)
            && Stream(map[], events + [e]) == Stream(map[], events) + Handle(st, e).1
  {
    var st := After(map[], events);
    AfterKeeps(map[], events);
    StreamAlternates(map[], events, e.ad.id);
    Extended(map[], events, [e]);
    assert [e][1..] == [];
    assert Stream(st, [e]) == Handle(st, e).1 + Stream(Handle(st, e).0, []);
  }

  /** After any events, what one that is no loss adds to the stream, said of what the stream has made known. It is
      sent as found exactly when it is not of the scanning session, complete or reachable, readable and matching,
      and nothing is known of its id, or what is known is no newer and differs from it; what is known is then lost
      first. The addresses of a complete advertisement are left out. */
  lemma FoundIff(events: seq<Event>, e: Event)
    requires !e.ad.lost
    ensures var us, ad := Stream(map[], events), e.ad;
            var known := Last(us, ad.id, None);
            var addrs := if ad.status == Ready then multiset{} else ad.dirAddrs;
            var fit := && !e.own && e.plain.Some? && e.matched == Some(true)
                       && (ad.status == Ready || (ad.status == PartiallyReady && ad.dirAddrs != multiset{}));
            var differs := known.None? || (
              && known.value.timestamp <= ad.timestamp
              && (known.value.hash != ad.hash || (known.value.status != Ready && known.value.dirAddrs != addrs)));
            Stream(map[], events + [e]) == us + (
              if !fit || !differs then []
              else
                var found := AdInfo(ad.id, ad.hash, ad.status, addrs, ad.timestamp, e.plain.value, false);
                if known.None? then [found] else [known.value.(lost := true), found])
  {
    OneMore(events, e);
  }

  /** Whatever the events, a found update that follows the loss of what it replaces is of the same id and not older. */
  lemma ReplacedByNewer(events: seq<Event>, e: Event)
    ensures var n, us := |Stream(map[], events)|, Stream(map[], events + [e]);
            && Stream(map[], events) <= us && |us| <= n + 2
            && (|us| == n + 2 ==>
                  && us[n].lost && !us[n + 1].lost && us[n].id == us[n + 1].id
                  && us[n].timestamp <= us[n + 1].timestamp)
  {
    OneMore(events, e);
  }

  /** While no plugin loses an advertisement, what is known of it is never replaced by something older. */
  lemma {:induction false} NeverOlder(events: seq<Event>, more: seq<Event>, id: AdId)
    requires forall e :: e in more && e.ad.id == id ==> !e.ad.lost
    ensures var known := Last(Stream(map[], events), id, None);
            var later := Last(Stream(map[], events + more), id, None);
            known.Some? ==> later.Some? && known.value.timestamp <= later.value.timestamp
    decreases |more|
  {
    if more == [] {
      assert events + more == events;
    } else {
      assert events + more == (events + [more[0]]) + more[1..];
      NeverOlder(events + [more[0]], more[1..], id);
      NotOlder(events, more[0], id);
    }
  }

  lemma NotOlder(events: seq<Event>, e: Event, id: AdId)
    requires e.ad.id == id ==> !e.ad.lost
    ensures var known := Last(Stream(map[], events), id, None);
            var later := Last(Stream(map[], events + [e]), id, None);
            known.Some? ==> later.Some? && known.value.timestamp <= later.value.timestamp
  {
    var st := After(map[], events);
    AfterKeeps(map[], events);
    Extended(map[], events, [e]);
    assert [e][1..] == [];
    assert After(st, [e]) == After(Handle(st, e).0, []);
    StreamAlternates(map[], events, id);
    StreamAlternates(map[], events + [e], id);
    if e.ad.id != id { HandleOthers(st, e, id); }
  }

  // ---------------------------------------------------------------- who still sees an advertisement

  /** Whether plugin `p` sees version `hash` of `id`, from its own latest word on it. */
  predicate Sees(was: bool, events: seq<Event>, id: AdId, hash: Hash, p: Plugin)
    decreases |events|
  {
    if events == [] then was
    else
      var e := events[0];
      var now := if e.ad.id != id || e.src != p then was
                 else if e.ad.lost then false
                 else was || (!e.own && e.ad.hash == hash);
      Sees(now, events[1..], id, hash, p)
  }

  /** Since it was found, the advertisement has been neither lost nor replaced. */
  predicate Stays(st: State, events: seq<Event>, id: AdId)
    decreases |events|
  {
    id in st && (events != [] ==>
      var (st', us) := Handle(st, events[0]);
      Only(us, id) == [] && Stays(st', events[1..], id))
  }

  lemma StaySame(st: State, e: Event, id: AdId)
    requires Inv(st) && id in st && Only(Handle(st, e).1, id) == []
    ensures id in Handle(st, e).0 && Handle(st, e).0[id].ad == st[id].ad
    ensures forall p :: p in Handle(st, e).0[id].sources <==>
                        Sees(p in st[id].sources, [e], id, st[id].ad.hash, p)
  {
    var (st', us) := Handle(st, e);
    assert [e][1..] == [];
    assert us == [] || us[0].id == e.ad.id;
  }

  /** While an advertisement stays, its sources are exactly the plugins that still see it. */
  lemma {:induction false} SourcesSee(st: State, events: seq<Event>, id: AdId, p: Plugin)
    requires Inv(st) && Stays(st, events, id)
    ensures var st' := After(st, events);
            id in st' && st'[id].ad == st[id].ad
            && (p in st'[id].sources <==> Sees(p in st[id].sources, events, id, st[id].ad.hash, p))
    decreases |events|
  {
    if events != [] {
      StaySame(st, events[0], id);
      HandleKeeps(st, events[0]);
      SourcesSee(Handle(st, events[0]).0, events[1..], id, p);
    }
  }

  lemma {:induction false} SeesConcat(was: bool, events: seq<Event>, more: seq<Event>, id: AdId, hash: Hash, p: Plugin)
    ensures Sees(was, events + more, id, hash, p) == Sees(Sees(was, events, id, hash, p), more, id, hash, p)
    decreases |events|
  {
    if events == [] {
      assert events + more == more;
    } else {
      var e := events[0];
      var now := if e.ad.id != id || e.src != p then was
                 else if e.ad.lost then false
                 else was || (!e.own && e.ad.hash == hash);
      assert (events + more)[1..] == events[1..] + more;
      SeesConcat(now, events[1..], more, id, hash, p);
    }
  }

  /** A loss is passed on exactly when it leaves no plugin that sees the version sent as found. */
  lemma LostIffUnseen(st: State, events: seq<Event>, e: Event)
    requires Inv(st) && Stays(st, events, e.ad.id) && e.ad.lost
    ensures var id := e.ad.id;
            Handle(After(st, events), e).1 != []
            <==> forall p :: !Sees(p in st[id].sources, events + [e], id, st[id].ad.hash, p)
  {
    var id, st' := e.ad.id, After(st, events);
    var hash := st[id].ad.hash;
    SourcesSee(st, events, id, e.src);
    var sources := st'[id].sources;
    forall p ensures Sees(p in st[id].sources, events + [e], id, hash, p) <==> p in sources - {e.src} {
      SourcesSee(st, events, id, p);
      SeesConcat(p in st[id].sources, events, [e], id, hash, p);
      assert [e][1..] == [];
    }
    if sources - {e.src} != {} {
      var p :| p in sources - {e.src};
      assert Sees(p in st[id].sources, events + [e], id, hash, p);
    }
  }

  /** A partial advertisement whose directory moves is sent as lost and found anew, and only the plugin that
      reported the move counts from then on: its loss is passed on while the other plugin still sees the ad. */
  lemma MovedLosesSources(x: string, y: string, e0: Event, e1: Event, e2: Event)
    requires x != y
    requires e0 == Event(0, AdInfo(1, 7, PartiallyReady, multiset{x}, 5, "", false), false, Some("b"), Some(true))
    requires e1 == Event(1, AdInfo(1, 7, PartiallyReady, multiset{y}, 5, "", false), false, Some("b"), Some(true))
    requires e2 == Event(1, AdInfo(1, 7, PartiallyReady, multiset{}, 5, "", true), false, None, None)
    ensures Sees(false, [e0] + [e1] + [e2], 1, 7, 0)
    ensures Known(After(map[], [e0] + [e1] + [e2]), 1) == None
    ensures Stream(map[], [e0] + [e1] + [e2]) ==
            [Opened(e0), Opened(e0).(lost := true), Opened(e1), Opened(e1).(lost := true)]
  {
    var events := [e0] + [e1] + [e2];
    assert events[1..] == [e1] + [e2] && events[1..][1..] == [e2] && events[1..][1..][1..] == [];
    assert x in multiset{x} && x !in multiset{y} && y in multiset{y};
    var (st1, us1) := Handle(map[], e0);
    assert st1 == map[1 := Tracked(Opened(e0), {0})] && us1 == [Opened(e0)];
    var (st2, us2) := Handle(st1, e1);
    assert us2 == [Opened(e0).(lost := true), Opened(e1)];
    assert st2[1] == Tracked(Opened(e1), {1});
    var (st3, us3) := Handle(st2, e2);
    assert us3 == [Opened(e1).(lost := true)];
    assert Stream(st2, events[2..]) == us3 + Stream(st3, []);
    assert Stream(st1, events[1..]) == us2 + Stream(st2, events[2..]);
    assert Sees(true, [e1] + [e2], 1, 7, 0) == Sees(true, [e2], 1, 7, 0) == true;
    assert After(st2, events[2..]) == st3;
  }
}
