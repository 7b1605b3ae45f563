/** The scan loop over its map of seen advertisements, each with a 32-bit map of the plugins that see it. */
module ScanObject {
  import opened Common
  import opened Scanning

  // ---------------------------------------------------------------- bitmaps

  function Mask(p: Plugin): bv32 {
    1 << p
  }

  predicate Has(refs: bv32, p: Plugin) {
    refs & Mask(p) != 0
  }

  ghost predicate Represents(refs: bv32, s: set<Plugin>) {
    forall p :: p in s <==> Has(refs, p)
  }

  lemma MaskNonzero(p: Plugin)
    ensures Mask(p) != 0
  {
  }

  lemma MasksDisjoint(p: Plugin, q: Plugin)
    requires p != q
    ensures Mask(p) & Mask(q) == 0
  {
  }

  lemma SetSame(refs: bv32, p: Plugin)
    ensures Has(refs | Mask(p), p)
  {
    MaskNonzero(p);
  }

  lemma OrOther(r: bv32, x: bv32, y: bv32)
    requires x & y == 0
    ensures (r | x) & y == r & y
  {
  }

  lemma SetOther(refs: bv32, p: Plugin, q: Plugin)
    requires p != q
    ensures (refs | Mask(p)) & Mask(q) == refs & Mask(q)
  {
    MasksDisjoint(p, q);
    OrOther(refs, Mask(p), Mask(q));
  }

  lemma SetBit(refs: bv32, p: Plugin, q: Plugin)
    ensures Has(refs | Mask(p), q) <==> Has(refs, q) || p == q
  {
    if p == q {
      SetSame(refs, p);
    } else {
      SetOther(refs, p, q);
    }
  }

  lemma ClearBit(refs: bv32, p: Plugin, q: Plugin)
    ensures Has(refs & !Mask(p), q) <==> Has(refs, q) && p != q
  {
  }

  /** The bits up to `k`. */
  function UpTo(k: Plugin): bv32 {
    (Mask(k) - 1) | Mask(k)
  }

  lemma {:induction false} NoneUpTo(refs: bv32, k: Plugin)
    requires forall p :: p <= k ==> !Has(refs, p)
    ensures refs & UpTo(k) == 0
    decreases k
  {
    assert !Has(refs, k);
    if k > 0 {
      NoneUpTo(refs, k - 1);
    }
  }

  /** The bitmap is zero exactly when the set it stands for is empty. */
  lemma ZeroIffEmpty(refs: bv32, s: set<Plugin>)
    requires Represents(refs, s)
    ensures refs == 0 <==> s == {}
  {
    if s == {} {
      NoneUpTo(refs, 31);
    }
    if refs == 0 {
      forall p ensures p !in s {
        assert !Has(refs, p);
      }
      assert s == {};
    }
  }

  // ---------------------------------------------------------------- the loop

  datatype AdRef = AdRef(ad: AdInfo, refs: bv32)

  ghost predicate Refines(r: AdRef, t: Tracked) {
    r.ad == t.ad && Represents(r.refs, t.sources)
  }

  function NewRef(ad: AdInfo, plugin: Plugin): (r: AdRef)
    ensures Refines(r, Tracked(ad, {plugin}))
  {
    Nothing();
    SetAll(0, {}, plugin);
    assert {} + {plugin} == {plugin};
    AdRef(ad, 0 | Mask(plugin))
  }

  lemma Nothing()
    ensures Represents(0, {})
  {
    assert forall p :: !Has(0, p);
  }

  lemma SetAll(refs: bv32, s: set<Plugin>, p: Plugin)
    requires Represents(refs, s)
    ensures Represents(refs | Mask(p), s + {p})
  {
    forall q ensures q in s + {p} <==> Has(refs | Mask(p), q) {
      SetBit(refs, p, q);
    }
  }

  /** `n` updates can be sent before the context is done. */
  function Cut(us: seq<AdInfo>, n: nat): seq<AdInfo> {
    if |us| <= n then us else us[..n]
  }

  class Scanner {
    const room: nat
    var seen: map<AdId, AdRef>
    var updates: seq<AdInfo>
    ghost var state: State

    ghost predicate Valid()
      reads this
    {
      && Inv(state) && seen.Keys == state.Keys && |updates| <= room
      && forall id :: id in seen ==> Refines(seen[id], state[id])
    }

    constructor (n: nat)
      ensures Valid() && state == map[] && updates == [] && room == n
    {
      room, seen, updates, state := n, map[], [], map[];
    }

    method Send(u: AdInfo) returns (sent: bool)
      modifies `updates
      ensures sent == (|old(updates)| < room)
      ensures updates == if sent then old(updates) + [u] else old(updates)
    {
      sent := |updates| < room;
      if sent {
        updates := updates + [u];
      }
    }

    /** adref.set, on the entry of an advertisement. */
    method Set(id: AdId, plugin: Plugin)
      requires Valid() && id in seen
      modifies `seen, `state
      ensures Valid() && state == old(state)[id := old(state)[id].(sources := old(state)[id].sources + {plugin})]
      ensures seen == old(seen)[id := seen[id]] && seen[id].ad == old(seen)[id].ad
    {
      SetAll(seen[id].refs, state[id].sources, plugin);
      seen := seen[id := seen[id].(refs := seen[id].refs | Mask(plugin))];
      state := state[id := state[id].(sources := state[id].sources + {plugin})];
      assert plugin in state[id].sources;
    }

    /** adref.unset: the bit is cleared; whether that leaves none. */
    method Unset(id: AdId, plugin: Plugin) returns (empty: bool)
      requires Valid() && id in seen
      modifies `seen
      ensures id in seen && seen == old(seen)[id := seen[id]] && seen[id].ad == old(seen)[id].ad
      ensures Represents(seen[id].refs, state[id].sources - {plugin})
      ensures empty <==> state[id].sources - {plugin} == {}
    {
      var refs := seen[id].refs;
      forall q ensures q in state[id].sources - {plugin} <==> Has(refs & !Mask(plugin), q) {
        ClearBit(refs, plugin, q);
      }
      seen := seen[id := seen[id].(refs := refs & !Mask(plugin))];
      ZeroIffEmpty(seen[id].refs, state[id].sources - {plugin});
      return seen[id].refs == 0;
    }

    method HandleLost(e: Event) returns (live: bool)
      requires Valid()
      modifies this
      ensures var (st, us) := Lose(old(state), e);
              && updates == Cut(old(updates) + us, room)
              && live == (|old(updates) + us| <= room)
              && (live ==> Valid() && state == st)
    {
      var id := e.ad.id;
      if id !in seen {
        return true;
      }
      var empty := Unset(id, e.src);
      if !empty {
        state := state[id := state[id].(sources := state[id].sources - {e.src})];
        return true;
      }
      var lost := seen[id].ad.(lost := true);
      seen := seen - {id};
      state := state - {id};
      live := Send(lost);
    }

    /** The end of the loop body: the advertisement is complete, readable and matches. */
    method HandleUsable(plugin: Plugin, ad: AdInfo) returns (live: bool)
      requires Valid() && !ad.lost
      modifies this
      ensures var (st, us) := Accept(old(state), ad, plugin);
              && updates == Cut(old(updates) + us, room)
              && live == (|old(updates) + us| <= room)
              && (live ==> Valid() && state == st)
    {
      var ref := NewRef(ad, plugin);
      if ad.id !in seen {
        seen := seen[ad.id := ref];
        state := state[ad.id := Tracked(ad, {plugin})];
        live := Send(ad);
        return;
      }
      var prev := seen[ad.id].ad;
      if prev.timestamp > ad.timestamp {
        return true;
      }
      if prev.hash != ad.hash || (prev.status != Ready && prev.dirAddrs != ad.dirAddrs) {
        seen := seen[ad.id := ref];
        state := state[ad.id := Tracked(ad, {plugin})];
        ghost var us := old(updates) + [prev.(lost := true), ad];
        live := Send(prev.(lost := true));
        if !live {
          assert us[..room] == updates;
          return;
        }
        live := Send(ad);
        assert !live ==> us[..room] == updates;
        assert live ==> us == updates;
        return;
      }
      return true;
    }

    method HandleFound(e: Event) returns (live: bool)
      requires Valid() && !e.ad.lost
      modifies this
      ensures var (st, us) := Find(old(state), e);
              && updates == Cut(old(updates) + us, room)
              && live == (|old(updates) + us| <= room)
              && (live ==> Valid() && state == st)
    {
      var id, adinfo := e.ad.id, e.ad;
      assert updates + [] == updates;
      if id in seen && seen[id].ad.hash == adinfo.hash {
        Set(id, e.src);
        if seen[id].ad.status == Ready {
          return true;
        }
      }
      if adinfo.status == Ready {
        adinfo := adinfo.(dirAddrs := multiset{});
      } else if adinfo.dirAddrs == multiset{} {
        return true;
      } else if adinfo.status == NotReady {
        return true;
      }
      if e.plain == None {
        return true;
      }
      adinfo := adinfo.(body := e.plain.value);
      if e.matched == None || !e.matched.value {
        return true;
      }
      assert Usable(e) && adinfo == Opened(e) && state == Noted(old(state), e);
      live := HandleUsable(e.src, adinfo);
    }

    /** One turn of the loop. It goes on as long as what is to be sent can be sent. */
    method HandleEvent(e: Event) returns (live: bool)
      requires Valid()
      modifies this
      ensures var (st, us) := Handle(old(state), e);
              && updates == Cut(old(updates) + us, room)
              && live == (|old(updates) + us| <= room)
              && (live ==> Valid() && state == st)
    {
      if e.ad.lost {
        live := HandleLost(e);
      } else if e.own {
        return true;
      } else {
        live := HandleFound(e);
      }
    }
  }

  lemma StreamNext(sent: seq<AdInfo>, st: State, events: seq<Event>, i: nat)
    requires i < |events|
    ensures sent + Stream(st, events[i..])
            == (sent + Handle(st, events[i]).1) + Stream(Handle(st, events[i]).0, events[i + 1..])
  {
    assert events[i..][0] == events[i] && events[i..][1..] == events[i + 1..];
    var us, rest := Handle(st, events[i]).1, Stream(Handle(st, events[i]).0, events[i + 1..]);
    assert sent + (us + rest) == (sent + us) + rest;
  }

  lemma CutShort(us: seq<AdInfo>, more: seq<AdInfo>, n: nat)
    requires |us| > n
    ensures Cut(us, n) == Cut(us + more, n)
  {
  }

  /** The loop sends the stream of its events, cut off where the context is done; what it sends alternates. */
  method DoScan(events: seq<Event>, room: nat) returns (updates: seq<AdInfo>)
    ensures updates == Cut(Stream(map[], events), room)
    ensures forall id :: Alternates(updates, id, None)
  {
    var scanner := new Scanner(room);
    ghost var all := Stream(map[], events);
    forall id ensures Alternates(Cut(all, room), id, None) {
      StreamAlternates(map[], events, id);
      if |all| > room { AlternatesPrefix(all, room, id, None); }
    }
    var i := 0;
    while i < |events|
      invariant 0 <= i <= |events|
      invariant scanner.Valid() && scanner.room == room
      invariant scanner.updates + Stream(scanner.state, events[i..]) == all
    {
      ghost var st, sent := scanner.state, scanner.updates;
      StreamNext(sent, st, events, i);
      var live := scanner.HandleEvent(events[i]);
      if !live {
        CutShort(sent + Handle(st, events[i]).1, Stream(Handle(st, events[i]).0, events[i + 1..]), room);
        return scanner.updates;
      }
      i := i + 1;
    }
    return scanner.updates;
  }
}
