/** The mounttable publisher: API calls interleaved with the phases of publish, which drops its lock during RPCs.

    The mount table is known through the RPCs that succeeded; expiry of mounts is not part of this model. */
module Publishing {

  /** 0 is the zero time. */
  type Time = nat

  datatype Key = Key(name: string, server: string)

  datatype Attr = Attr(servesMT: bool, isLeaf: bool)

  datatype MountState = Unmounted | Mounted

  datatype Entry = Entry(
    key: Key, desired: MountState, lastState: MountState,
    lastMount: Time, lastMountErr: bool, lastUnmount: Time, lastUnmountErr: bool)

  type Entries = map<Key, Entry>

  datatype MountParams = MountParams(entry: Entry, attr: Attr)

  /** What the lock protects. Once stopped, the names and servers are gone for good. */
  datatype Registry = Registry(stopped: bool, names: map<string, Attr>, servers: set<string>, entries: Entries)

  // ---------------------------------------------------------------- API calls

  function NewEntry(k: Key): Entry {
    Entry(k, Mounted, Unmounted, 0, false, 0, false)
  }

  /** `m'` is `m` with the keys desired mounted, new entries included. */
  ghost predicate Wants(m: Entries, keys: set<Key>, m': Entries) {
    && m'.Keys == m.Keys + keys
    && forall k :: k in m' ==>
         m'[k] == if k !in keys then m[k] else if k in m then m[k].(desired := Mounted) else NewEntry(k)
  }

  /** `m'` is `m` with those of the keys that have entries desired unmounted. */
  ghost predicate Drops(m: Entries, keys: set<Key>, m': Entries) {
    && m'.Keys == m.Keys
    && forall k :: k in m' ==> m'[k] == if k in keys then m[k].(desired := Unmounted) else m[k]
  }

  ghost function Across(name: string, servers: set<string>): set<Key> {
    set server | server in servers :: Key(name, server)
  }

  ghost function Along(names: set<string>, server: string): set<Key> {
    set name | name in names :: Key(name, server)
  }

  ghost predicate AddsName(p: Registry, name: string, attr: Attr, q: Registry) {
    if p.stopped || (name in p.names && p.names[name] == attr) then q == p
    else q == p.(names := p.names[name := attr], entries := q.entries)
         && Wants(p.entries, Across(name, p.servers), q.entries)
  }

  ghost predicate RemovesName(p: Registry, name: string, q: Registry) {
    if p.stopped || name !in p.names then q == p
    else q == p.(names := p.names - {name}, entries := q.entries)
         && Drops(p.entries, Across(name, p.servers), q.entries)
  }

  ghost predicate AddsServer(p: Registry, server: string, q: Registry) {
    if p.stopped || server in p.servers then q == p
    else q == p.(servers := p.servers + {server}, entries := q.entries)
         && Wants(p.entries, Along(p.names.Keys, server), q.entries)
  }

  ghost predicate RemovesServer(p: Registry, server: string, q: Registry) {
    if p.stopped || server !in p.servers then q == p
    else q == p.(servers := p.servers - {server}, entries := q.entries)
         && Drops(p.entries, Along(p.names.Keys, server), q.entries)
  }

  // ---------------------------------------------------------------- the phases of publish

  predicate Settled(e: Entry) {
    e.desired == Unmounted && e.lastState == Unmounted
  }

  predicate DueMount(e: Entry, refreshAll: bool) {
    e.desired == Mounted && (refreshAll || e.lastMount == 0)
  }

  predicate DueUnmount(e: Entry, refreshAll: bool) {
    e.desired == Unmounted && e.lastState != Unmounted && (refreshAll || e.lastUnmount == 0)
  }

  function AttrOf(names: map<string, Attr>, name: string): Attr {
    if name in names then names[name] else Attr(false, false)
  }

  /** entriesToPublish: settled entries leave `m`, and the jobs are drawn from the rest. */
  ghost predicate Collects(
      p: Registry, refreshAll: bool, m: Entries, mounts: map<Key, MountParams>, unmounts: Entries) {
    && (forall k :: k in m <==> k in p.entries && !Settled(p.entries[k]))
    && (forall k :: k in m ==> m[k] == p.entries[k])
    && (forall k :: k in mounts <==> k in p.entries && DueMount(p.entries[k], refreshAll))
    && (forall k :: k in mounts ==> mounts[k] == MountParams(p.entries[k], AttrOf(p.names, k.name)))
    && (forall k :: k in unmounts <==> k in p.entries && DueUnmount(p.entries[k], refreshAll))
    && (forall k :: k in unmounts ==> unmounts[k] == p.entries[k])
  }

  /** The entry after a mount RPC. The last operation tried is never recorded as the earlier one. */
  function MountResult(e: Entry, now: Time, ok: bool): (r: Entry)
    ensures r.lastUnmount <= r.lastMount
    ensures r.lastUnmount < r.lastMount <==> now != e.lastUnmount
    ensures r.lastMount == now <==> e.lastUnmount <= now
    ensures r.lastMountErr <==> !ok
    ensures r.lastState == Mounted <==> ok || e.lastState == Mounted
    ensures e == r.(lastMount := e.lastMount, lastMountErr := e.lastMountErr, lastState := e.lastState)
  {
    var stamped := e.(lastMount := if now < e.lastUnmount then e.lastUnmount + 1 else now, lastMountErr := !ok);
    if ok then stamped.(lastState := Mounted) else stamped
  }

  /** The entry after an unmount RPC. */
  function UnmountResult(e: Entry, now: Time, ok: bool): (r: Entry)
    ensures r.lastMount <= r.lastUnmount
    ensures r.lastMount < r.lastUnmount <==> now != e.lastMount
    ensures r.lastUnmount == now <==> e.lastMount <= now
    ensures r.lastUnmountErr <==> !ok
    ensures r.lastState == Mounted <==> !ok && e.lastState == Mounted
    ensures e == r.(lastUnmount := e.lastUnmount, lastUnmountErr := e.lastUnmountErr, lastState := e.lastState)
  {
    var stamped := e.(lastUnmount := if now < e.lastMount then e.lastMount + 1 else now, lastUnmountErr := !ok);
    if ok then stamped.(lastState := Unmounted) else stamped
  }

  /** A result takes over the desired state that the entry has now. */
  function Stored(m: Entries, e: Entry): Entry {
    if e.key in m then e.(desired := m[e.key].desired) else e
  }

  predicate Gone(e: Entry) {
    e.desired == Unmounted && !e.lastUnmountErr
  }

  /** The first loop of updateEntries. */
  ghost predicate StoresMounts(m: Entries, done: Entries, m': Entries) {
    && m'.Keys == m.Keys + done.Keys
    && forall k :: k in m' ==> m'[k] == if k in done then Stored(m, done[k]) else m[k]
  }

  /** The second loop of updateEntries. */
  ghost predicate StoresUnmounts(m: Entries, done: Entries, m': Entries) {
    && (forall k :: k in m' <==> (k in m || k in done) && !(k in done && Gone(Stored(m, done[k]))))
    && forall k :: k in m' ==> m'[k] == if k in done then Stored(m, done[k]) else m[k]
  }

  // ---------------------------------------------------------------- interleavings

  /** The publisher's goroutine. Jobs are kept by key: the lists of the code follow map iteration, in any order. */
  datatype Phase =
    | Idle
    | Publishing(mounts: map<Key, MountParams>, unmounts: Entries, mountDone: Entries, unmountDone: Entries)

  /** `mounted`: the keys whose last successful RPC was a mount, with the attributes it carried. */
  datatype Sys = Sys(reg: Registry, phase: Phase, mounted: map<Key, Attr>)

  datatype Action =
    | AddingName(name: string, attr: Attr)
    | RemovingName(name: string)
    | AddingServer(server: string)
    | RemovingServer(server: string)
    | Collecting(refreshAll: bool)
    | Mounting(key: Key, now: Time, ok: bool)
    | Unmounting(key: Key, now: Time, ok: bool)
    | Finishing
    | Stopping(unmounted: set<Key>)

  const START := Sys(Registry(false, map[], {}, map[]), Idle, map[])

  ghost predicate ApiStep(s: Sys, a: Action, s': Sys) {
    && s'.phase == s.phase && s'.mounted == s.mounted
    && match a
       case AddingName(name, attr) => AddsName(s.reg, name, attr, s'.reg)
       case RemovingName(name) => RemovesName(s.reg, name, s'.reg)
       case AddingServer(server) => AddsServer(s.reg, server, s'.reg)
       case RemovingServer(server) => RemovesServer(s.reg, server, s'.reg)
       case _ => false
  }

  ghost predicate CollectStep(s: Sys, refreshAll: bool, s': Sys) {
    && s.phase.Idle? && !s.reg.stopped
    && s'.phase.Publishing? && s'.phase.mountDone == map[] && s'.phase.unmountDone == map[]
    && s'.mounted == s.mounted
    && s'.reg == s.reg.(entries := s'.reg.entries)
    && Collects(s.reg, refreshAll, s'.reg.entries, s'.phase.mounts, s'.phase.unmounts)
  }

  /** All mounts come before the first unmount. */
  ghost predicate RpcStep(s: Sys, a: Action, s': Sys)
    requires a.Mounting? || a.Unmounting?
  {
    && s.phase.Publishing? && s'.phase.Publishing? && a.now > 0 && s'.reg == s.reg
    && var f, f', k := s.phase, s'.phase, a.key;
    if a.Mounting? then
      && k in f.mounts
      && f' == f.(mounts := f.mounts - {k},
                  mountDone := f.mountDone[k := MountResult(f.mounts[k].entry, a.now, a.ok)])
      && s'.mounted == if a.ok then s.mounted[k := f.mounts[k].attr] else s.mounted
    else
      && f.mounts == map[] && k in f.unmounts
      && f' == f.(unmounts := f.unmounts - {k},
                  unmountDone := f.unmountDone[k := UnmountResult(f.unmounts[k], a.now, a.ok)])
      && s'.mounted == if a.ok then s.mounted - {k} else s.mounted
  }

  ghost predicate FinishStep(s: Sys, s': Sys) {
    && s.phase.Publishing? && s.phase.mounts == map[] && s.phase.unmounts == map[]
    && s'.phase == Idle && s'.mounted == s.mounted
    && s'.reg == s.reg.(entries := s'.reg.entries)
    && exists m :: StoresMounts(s.reg.entries, s.phase.mountDone, m)
                   && StoresUnmounts(m, s.phase.unmountDone, s'.reg.entries)
  }

  /** One last unmount of every entry; `unmounted` are those that succeed. */
  ghost predicate StopStep(s: Sys, unmounted: set<Key>, s': Sys) {
    && s.phase.Idle? && !s.reg.stopped && unmounted <= s.reg.entries.Keys
    && s'.phase == Idle && s'.mounted == s.mounted - unmounted
    && s'.reg == s.reg.(stopped := true, names := map[], servers := {})
  }

  ghost predicate Next(s: Sys, a: Action, s': Sys) {
    match a
    case Collecting(refreshAll) => CollectStep(s, refreshAll, s')
    case Mounting(_, _, _) => RpcStep(s, a, s')
    case Unmounting(_, _, _) => RpcStep(s, a, s')
    case Finishing => FinishStep(s, s')
    case Stopping(unmounted) => StopStep(s, unmounted, s')
    case _ => ApiStep(s, a, s')
  }

  ghost predicate Run(s: Sys, acts: seq<Action>, s': Sys)
    decreases |acts|
  {
    if acts == [] then s' == s
    else exists t :: Next(s, acts[0], t) && Run(t, acts[1..], s')
  }

  // ---------------------------------------------------------------- the invariant

  /** The key is one of the current names times the current servers. */
  predicate Wanted(p: Registry, k: Key) {
    k.name in p.names && k.server in p.servers
  }

  predicate Desired(m: Entries, k: Key) {
    k in m && m[k].desired == Mounted
  }

  ghost predicate Keyed(m: Entries) {
    forall k :: k in m ==> m[k].key == k
  }

  ghost predicate Intent(p: Registry) {
    forall k {:trigger Desired(p.entries, k)} {:trigger Wanted(p, k)} :: Desired(p.entries, k) <==> Wanted(p, k)
  }

  /** Each job has its own entry, and carries its last state. */
  ghost predicate JobsOk(m: Entries, f: Phase)
    requires f.Publishing?
  {
    && (forall k :: k in f.mounts ==>
          k in m && f.mounts[k].entry.key == k && f.mounts[k].entry.lastState == m[k].lastState
          && k !in f.unmounts && k !in f.mountDone && k !in f.unmountDone)
    && (forall k :: k in f.unmounts ==>
          k in m && f.unmounts[k].key == k && f.unmounts[k].lastState == m[k].lastState
          && k !in f.mountDone && k !in f.unmountDone)
    && (forall k :: k in f.mountDone ==> k in m && f.mountDone[k].key == k && k !in f.unmountDone)
    && (forall k :: k in f.unmountDone ==>
          k in m && f.unmountDone[k].key == k
          && (!f.unmountDone[k].lastUnmountErr ==> f.unmountDone[k].lastState == Unmounted))
  }

  /** The latest news of a key: the result of its RPC if there is one, else its entry. */
  function Latest(m: Entries, f: Phase, k: Key): MountState
    requires k in m
  {
    if f.Publishing? && k in f.mountDone then f.mountDone[k].lastState
    else if f.Publishing? && k in f.unmountDone then f.unmountDone[k].lastState
    else m[k].lastState
  }

  ghost predicate Tracks(s: Sys) {
    && (forall k :: k in s.mounted ==> k in s.reg.entries)
    && (forall k :: k in s.reg.entries ==> (k in s.mounted <==> Latest(s.reg.entries, s.phase, k) == Mounted))
  }

  ghost predicate Inv(s: Sys) {
    !s.reg.stopped ==>
      Keyed(s.reg.entries) && Intent(s.reg) && Tracks(s)
      && (s.phase.Publishing? ==> JobsOk(s.reg.entries, s.phase))
  }

  lemma WantIntent(p: Registry, q: Registry, keys: set<Key>)
    requires Intent(p) && Wants(p.entries, keys, q.entries)
    requires forall k {:trigger Wanted(q, k)} :: Wanted(q, k) <==> Wanted(p, k) || k in keys
    ensures Intent(q)
  {
    forall k ensures Desired(q.entries, k) <==> Wanted(q, k) {
      assert Desired(p.entries, k) <==> Wanted(p, k);
    }
  }

  lemma DropIntent(p: Registry, q: Registry, keys: set<Key>)
    requires Intent(p) && Drops(p.entries, keys, q.entries)
    requires forall k {:trigger Wanted(q, k)} :: Wanted(q, k) <==> Wanted(p, k) && k !in keys
    ensures Intent(q)
  {
    forall k ensures Desired(q.entries, k) <==> Wanted(q, k) {
      assert Desired(p.entries, k) <==> Wanted(p, k);
    }
  }

  /** API calls touch desired states and add entries with nothing mounted; no entry and no last state is lost. */
  ghost predicate Grows(m: Entries, m': Entries) {
    && Keyed(m')
    && (forall k :: k in m ==> k in m' && m'[k].lastState == m[k].lastState)
    && (forall k :: k in m' && k !in m ==> m'[k].lastState == Unmounted)
  }

  lemma GrowthKeeps(s: Sys, s': Sys)
    requires Tracks(s) && Grows(s.reg.entries, s'.reg.entries)
    requires s.phase.Publishing? ==> JobsOk(s.reg.entries, s.phase)
    requires s'.phase == s.phase && s'.mounted == s.mounted
    ensures Tracks(s') && (s'.phase.Publishing? ==> JobsOk(s'.reg.entries, s'.phase))
  {
  }

  lemma NameKeeps(s: Sys, a: Action, s': Sys)
    requires Inv(s) && ApiStep(s, a, s') && (a.AddingName? || a.RemovingName?)
    ensures Inv(s')
  {
    var p, q := s.reg, s'.reg;
    if p != q {
      var keys := Across(a.name, p.servers);
      if a.AddingName? {
        forall k ensures Wanted(q, k) <==> Wanted(p, k) || k in keys {
          assert k == Key(k.name, k.server);
        }
        WantIntent(p, q, keys);
      } else {
        DropIntent(p, q, keys);
      }
      GrowthKeeps(s, s');
    }
  }

  lemma ServerKeeps(s: Sys, a: Action, s': Sys)
    requires Inv(s) && ApiStep(s, a, s') && (a.AddingServer? || a.RemovingServer?)
    ensures Inv(s')
  {
    var p, q := s.reg, s'.reg;
    if p != q {
      var keys := Along(p.names.Keys, a.server);
      if a.AddingServer? {
        forall k ensures Wanted(q, k) <==> Wanted(p, k) || k in keys {
          assert k == Key(k.name, k.server);
        }
        WantIntent(p, q, keys);
      } else {
        DropIntent(p, q, keys);
      }
      GrowthKeeps(s, s');
    }
  }

  lemma CollectKeeps(s: Sys, refreshAll: bool, s': Sys)
    requires Inv(s) && CollectStep(s, refreshAll, s')
    ensures Inv(s')
  {
    forall k ensures Desired(s'.reg.entries, k) <==> Wanted(s'.reg, k) {
      assert Desired(s.reg.entries, k) <==> Wanted(s.reg, k);
    }
  }

  lemma RpcJobs(m: Entries, s: Sys, a: Action, s': Sys)
    requires (a.Mounting? || a.Unmounting?) && RpcStep(s, a, s') && JobsOk(m, s.phase)
    ensures JobsOk(m, s'.phase)
  {
  }

  /** An RPC changes what is known of its own key, and what is mounted, alike. */
  lemma RpcTracksAt(s: Sys, a: Action, s': Sys, k: Key)
    requires (a.Mounting? || a.Unmounting?) && RpcStep(s, a, s') && JobsOk(s.reg.entries, s.phase)
    requires k in s.reg.entries && (k in s.mounted <==> Latest(s.reg.entries, s.phase, k) == Mounted)
    ensures k in s'.mounted <==> Latest(s'.reg.entries, s'.phase, k) == Mounted
  {
  }

  lemma RpcTracks(s: Sys, a: Action, s': Sys)
    requires (a.Mounting? || a.Unmounting?) && RpcStep(s, a, s') && JobsOk(s.reg.entries, s.phase) && Tracks(s)
    ensures Tracks(s')
  {
    forall k | k in s'.reg.entries ensures k in s'.mounted <==> Latest(s'.reg.entries, s'.phase, k) == Mounted {
      RpcTracksAt(s, a, s', k);
    }
    forall k | k in s'.mounted ensures k in s'.reg.entries {
      assert k in s.mounted || k in s.phase.mounts;
    }
  }

  ghost predicate MountsStored(s: Sys, s': Sys) {
    && s.phase.Publishing? && s.phase.mounts == map[] && s.phase.unmounts == map[]
    && s'.reg == s.reg.(entries := s'.reg.entries) && s'.mounted == s.mounted
    && s'.phase == s.phase.(mountDone := map[])
    && StoresMounts(s.reg.entries, s.phase.mountDone, s'.reg.entries)
  }

  lemma StoreMountsIntent(s: Sys, s': Sys)
    requires Intent(s.reg) && MountsStored(s, s') && JobsOk(s.reg.entries, s.phase)
    ensures Intent(s'.reg)
  {
    forall k ensures Desired(s'.reg.entries, k) <==> Wanted(s'.reg, k) {
      assert Desired(s.reg.entries, k) <==> Wanted(s.reg, k);
    }
  }

  lemma StoreMountsTracks(s: Sys, s': Sys)
    requires Tracks(s) && MountsStored(s, s') && JobsOk(s.reg.entries, s.phase)
    ensures Tracks(s')
  {
    forall k | k in s'.reg.entries ensures k in s'.mounted <==> Latest(s'.reg.entries, s'.phase, k) == Mounted {
      assert k in s.reg.entries;
    }
  }

  lemma StoreMountsKeeps(s: Sys, s': Sys)
    requires Inv(s) && !s.reg.stopped && MountsStored(s, s')
    ensures Inv(s')
  {
    StoreMountsIntent(s, s');
    StoreMountsTracks(s, s');
  }

  lemma StoreUnmountsKeeps(s: Sys, s': Sys)
    requires Inv(s) && !s.reg.stopped && s.phase.Publishing?
    requires s'.reg == s.reg.(entries := s'.reg.entries) && s'.mounted == s.mounted
    requires s'.phase == Idle && s.phase.mountDone == map[]
    requires StoresUnmounts(s.reg.entries, s.phase.unmountDone, s'.reg.entries)
    ensures Inv(s')
  {
    forall k ensures Desired(s'.reg.entries, k) <==> Wanted(s'.reg, k) {
      assert Desired(s.reg.entries, k) <==> Wanted(s.reg, k);
    }
  }

  lemma FinishKeeps(s: Sys, s': Sys)
    requires Inv(s) && FinishStep(s, s')
    ensures Inv(s')
  {
    if !s.reg.stopped {
      var m :| StoresMounts(s.reg.entries, s.phase.mountDone, m)
               && StoresUnmounts(m, s.phase.unmountDone, s'.reg.entries);
      var t := Sys(s.reg.(entries := m), s.phase.(mountDone := map[]), s.mounted);
      StoreMountsKeeps(s, t);
      StoreUnmountsKeeps(t, s');
    }
  }

  lemma StepKeeps(s: Sys, a: Action, s': Sys)
    requires Inv(s) && Next(s, a, s')
    ensures Inv(s')
  {
    match a
    case AddingName(_, _) => NameKeeps(s, a, s');
    case RemovingName(_) => NameKeeps(s, a, s');
    case AddingServer(_) => ServerKeeps(s, a, s');
    case RemovingServer(_) => ServerKeeps(s, a, s');
    case Collecting(refreshAll) => CollectKeeps(s, refreshAll, s');
    case Mounting(_, _, _) => if !s.reg.stopped { RpcJobs(s.reg.entries, s, a, s'); RpcTracks(s, a, s'); }
    case Unmounting(_, _, _) => if !s.reg.stopped { RpcJobs(s.reg.entries, s, a, s'); RpcTracks(s, a, s'); }
    case Finishing => FinishKeeps(s, s');
    case Stopping(_) =>
  }

  lemma {:induction false} RunKeeps(s: Sys, acts: seq<Action>, s': Sys)
    requires Inv(s) && Run(s, acts, s')
    ensures Inv(s')
    decreases |acts|
  {
    if acts != [] {
      var t :| Next(s, acts[0], t) && Run(t, acts[1..], s');
      StepKeeps(s, acts[0], t);
      RunKeeps(t, acts[1..], s');
    }
  }

  // ---------------------------------------------------------------- what every run keeps

  /** Whether the last RPC on `k` that succeeded was a mount, given how it stood before these actions. */
  predicate LastWasMount(was: bool, acts: seq<Action>, k: Key)
    decreases |acts|
  {
    if acts == [] then was
    else
      var now := match acts[0]
        case Mounting(key, _, ok) => was || (ok && key == k)
        case Unmounting(key, _, ok) => was && !(ok && key == k)
        case Stopping(unmounted) => was && k !in unmounted
        case _ => was;
      LastWasMount(now, acts[1..], k)
  }

  lemma {:induction false} MountedIsLast(s: Sys, acts: seq<Action>, s': Sys, k: Key)
    requires Run(s, acts, s')
    ensures k in s'.mounted <==> LastWasMount(k in s.mounted, acts, k)
    decreases |acts|
  {
    if acts != [] {
      var t :| Next(s, acts[0], t) && Run(t, acts[1..], s');
      MountedIsLast(t, acts[1..], s', k);
    }
  }

  /** Until stop, the entries desired mounted are exactly the current names times the current servers. */
  lemma IntentHolds(acts: seq<Action>, s: Sys, k: Key)
    requires Run(START, acts, s) && !s.reg.stopped
    ensures Desired(s.reg.entries, k) <==> Wanted(s.reg, k)
  {
    RunKeeps(START, acts, s);
    assert Intent(s.reg);
  }

  /** Until stop, a pair whose last successful RPC was a mount has an entry, and between publishes the entries
      marked mounted are exactly those pairs. */
  lemma NeverForgets(acts: seq<Action>, s: Sys, k: Key)
    requires Run(START, acts, s) && !s.reg.stopped
    ensures LastWasMount(false, acts, k) ==> k in s.reg.entries
    ensures s.phase.Idle? ==>
              (LastWasMount(false, acts, k) <==> k in s.reg.entries && s.reg.entries[k].lastState == Mounted)
  {
    RunKeeps(START, acts, s);
    MountedIsLast(START, acts, s, k);
  }

  /** A stop whose unmounts all succeed leaves nothing mounted. */
  lemma StopUnmountsAll(acts: seq<Action>, s: Sys, s': Sys, k: Key)
    requires Run(START, acts, s) && StopStep(s, s.reg.entries.Keys, s')
    ensures k !in s'.mounted
  {
    RunKeeps(START, acts, s);
    assert Tracks(s);
  }

  // ---------------------------------------------------------------- convergence

  predicate GoodRpc(a: Action) {
    (a.Mounting? || a.Unmounting?) && a.ok
  }

  /** Whether `k` will be mounted, and how, once the jobs that are left succeed. */
  predicate WillMount(s: Sys, k: Key, attr: Attr)
    requires s.phase.Publishing?
  {
    if k in s.phase.mounts then s.phase.mounts[k].attr == attr
    else k !in s.phase.unmounts && k in s.mounted && s.mounted[k] == attr
  }

  lemma GoodRpcKeeps(s: Sys, a: Action, s': Sys, k: Key, attr: Attr)
    requires GoodRpc(a) && RpcStep(s, a, s') && JobsOk(s.reg.entries, s.phase)
    ensures WillMount(s', k, attr) <==> WillMount(s, k, attr)
  {
  }

  lemma {:induction false} GoodRpcs(s: Sys, rpcs: seq<Action>, s': Sys, k: Key, attr: Attr)
    requires s.phase.Publishing? && JobsOk(s.reg.entries, s.phase) && Run(s, rpcs, s')
    requires forall i :: 0 <= i < |rpcs| ==> GoodRpc(rpcs[i])
    ensures s'.phase.Publishing? && s'.reg == s.reg && (WillMount(s', k, attr) <==> WillMount(s, k, attr))
    decreases |rpcs|
  {
    if rpcs != [] {
      assert GoodRpc(rpcs[0]);
      var t :| Next(s, rpcs[0], t) && Run(t, rpcs[1..], s');
      RpcJobs(s.reg.entries, s, rpcs[0], t);
      GoodRpcKeeps(s, rpcs[0], t, k, attr);
      GoodRpcs(t, rpcs[1..], s', k, attr);
    }
  }

  /** A publish that no API call disturbs and whose RPCs all succeed. */
  ghost predicate QuietPublish(s: Sys, refreshAll: bool, rpcs: seq<Action>, t: Sys, u: Sys, s': Sys) {
    && CollectStep(s, refreshAll, t)
    && (forall i :: 0 <= i < |rpcs| ==> GoodRpc(rpcs[i]))
    && Run(t, rpcs, u)
    && FinishStep(u, s')
  }

  lemma PublishedOutcome(s: Sys, refreshAll: bool, rpcs: seq<Action>, t: Sys, u: Sys, s': Sys, k: Key, attr: Attr)
    requires Inv(s) && QuietPublish(s, refreshAll, rpcs, t, u, s')
    ensures k in s'.mounted && s'.mounted[k] == attr <==> WillMount(t, k, attr)
    ensures s'.reg.names == s.reg.names && s'.reg.servers == s.reg.servers
  {
    CollectKeeps(s, refreshAll, t);
    GoodRpcs(t, rpcs, u, k, attr);
  }

  /** An entry whose desired state differs from its last state, which a publish passes over: an operation of
      the right kind was already tried on it and this is no refresh. */
  predicate PassedOver(e: Entry, refreshAll: bool) {
    && e.desired != e.lastState
    && !refreshAll
    && (if e.desired == Mounted then e.lastMount != 0 else e.lastUnmount != 0)
  }

  /** A quiet publish leaves a key mounted just when it is wanted, unless it passes over the key's entry. */
  lemma ConvergesAt(s: Sys, refreshAll: bool, rpcs: seq<Action>, t: Sys, u: Sys, s': Sys, k: Key)
    requires Inv(s) && QuietPublish(s, refreshAll, rpcs, t, u, s')
    ensures (k in s'.mounted <==> Wanted(s.reg, k))
            <==> (k in s.reg.entries ==> !PassedOver(s.reg.entries[k], refreshAll))
  {
    assert Desired(s.reg.entries, k) <==> Wanted(s.reg, k);
    var attr := if k in s'.mounted then s'.mounted[k]
                else if k in t.phase.mounts then t.phase.mounts[k].attr
                else if k in t.mounted then t.mounted[k] else Attr(false, false);
    PublishedOutcome(s, refreshAll, rpcs, t, u, s', k, attr);
  }

  /** A key whose entry a publish passes over although the mount table does not have it as desired: it was tried
      before, and this is no refresh. A wanted pair that is mounted with older attributes is one. */
  predicate Neglected(s: Sys, k: Key, refreshAll: bool) {
    && k in s.reg.entries && !refreshAll
    && var e := s.reg.entries[k];
    if e.desired == Mounted then e.lastMount != 0 && !(k in s.mounted && s.mounted[k] == AttrOf(s.reg.names, k.name))
    else e.lastUnmount != 0 && k in s.mounted
  }

  /** The mount table has the key as the names and servers say. */
  predicate AsWanted(p: Registry, mounted: map<Key, Attr>, k: Key) {
    && (k in mounted <==> Wanted(p, k))
    && (k in mounted && Wanted(p, k) ==> mounted[k] == p.names[k.name])
  }

  /** A quiet publish leaves a key as wanted exactly when it does not neglect it. */
  lemma AsWantedIff(s: Sys, refreshAll: bool, rpcs: seq<Action>, t: Sys, u: Sys, s': Sys, k: Key)
    requires Inv(s) && QuietPublish(s, refreshAll, rpcs, t, u, s')
    ensures AsWanted(s.reg, s'.mounted, k) <==> !Neglected(s, k, refreshAll)
  {
    assert Desired(s.reg.entries, k) <==> Wanted(s.reg, k);
    ConvergesAt(s, refreshAll, rpcs, t, u, s', k);
    PublishedOutcome(s, refreshAll, rpcs, t, u, s', k, AttrOf(s.reg.names, k.name));
  }

  /** A quiet publish leaves exactly the names times the servers mounted, each pair with its name's attributes, if and
      only if it neglects no key. */
  lemma ConvergesIff(s: Sys, refreshAll: bool, rpcs: seq<Action>, t: Sys, u: Sys, s': Sys)
    requires Inv(s) && QuietPublish(s, refreshAll, rpcs, t, u, s')
    ensures (forall k :: AsWanted(s.reg, s'.mounted, k)) <==> (forall k :: !Neglected(s, k, refreshAll))
  {
    forall k ensures AsWanted(s.reg, s'.mounted, k) <==> !Neglected(s, k, refreshAll) {
      AsWantedIff(s, refreshAll, rpcs, t, u, s', k);
    }
  }

  /** A quiet refresh leaves the wanted pairs mounted, and no others, each with its name's current attributes. */
  lemma RefreshConverges(s: Sys, rpcs: seq<Action>, t: Sys, u: Sys, s': Sys, k: Key)
    requires Inv(s) && QuietPublish(s, true, rpcs, t, u, s')
    ensures k in s'.mounted <==> Wanted(s.reg, k)
    ensures k in s'.mounted ==> s'.mounted[k] == s.reg.names[k.name]
  {
    AsWantedIff(s, true, rpcs, t, u, s', k);
  }

  /** The unmount of `k` is still to come, or has succeeded. */
  predicate WillDrop(s: Sys, k: Key)
    requires s.phase.Publishing?
  {
    k in s.phase.unmounts || (k in s.phase.unmountDone && !s.phase.unmountDone[k].lastUnmountErr)
  }

  lemma {:induction false} GoodRpcsDrop(s: Sys, rpcs: seq<Action>, s': Sys, k: Key)
    requires s.phase.Publishing? && JobsOk(s.reg.entries, s.phase) && Run(s, rpcs, s') && WillDrop(s, k)
    requires forall i :: 0 <= i < |rpcs| ==> GoodRpc(rpcs[i])
    ensures s'.phase.Publishing? && s'.reg == s.reg && JobsOk(s'.reg.entries, s'.phase) && WillDrop(s', k)
    decreases |rpcs|
  {
    if rpcs != [] {
      assert GoodRpc(rpcs[0]);
      var t :| Next(s, rpcs[0], t) && Run(t, rpcs[1..], s');
      RpcJobs(s.reg.entries, s, rpcs[0], t);
      GoodRpcsDrop(t, rpcs[1..], s', k);
    }
  }

  /** A quiet refresh keeps no entry but those of the wanted pairs. */
  lemma RefreshForgets(s: Sys, rpcs: seq<Action>, t: Sys, u: Sys, s': Sys, k: Key)
    requires Inv(s) && QuietPublish(s, true, rpcs, t, u, s')
    ensures k in s'.reg.entries <==> Wanted(s.reg, k)
  {
    CollectKeeps(s, true, t);
    GoodRpcs(t, rpcs, u, k, Attr(false, false));
    assert Desired(t.reg.entries, k) <==> Wanted(t.reg, k);
    if Wanted(s.reg, k) {
      RunKeeps(t, rpcs, u);
      FinishKeeps(u, s');
      assert Desired(s'.reg.entries, k) <==> Wanted(s'.reg, k);
    } else if k in t.reg.entries {
      GoodRpcsDrop(t, rpcs, u, k);
    } else {
      RunKeeps(t, rpcs, u);
    }
  }

  /** A pair that an API call makes wanted, and that had no entry, is mounted by the next quiet publish. */
  lemma NewPairMounted(r: Sys, a: Action, s: Sys, refreshAll: bool, rpcs: seq<Action>, t: Sys, u: Sys, s': Sys, k: Key)
    requires Inv(r) && k !in r.reg.entries && ApiStep(r, a, s) && Wanted(s.reg, k)
    requires QuietPublish(s, refreshAll, rpcs, t, u, s')
    ensures k in s'.mounted && s'.mounted[k] == s.reg.names[k.name]
  {
    StepKeeps(r, a, s);
    assert Desired(s.reg.entries, k) <==> Wanted(s.reg, k);
    AsWantedIff(s, refreshAll, rpcs, t, u, s', k);
  }

  /** A publisher with one server and one entry. */
  function Single(e: Entry, names: map<string, Attr>, phase: Phase, mounted: map<Key, Attr>): Sys {
    Sys(Registry(false, names, {e.key.server}, map[e.key := e]), phase, mounted)
  }

  lemma SetupSteps(k: Key, attr: Attr)
    ensures var s := Sys(Registry(false, map[], {k.server}, map[]), Idle, map[]);
            && Next(START, AddingServer(k.server), s)
            && Next(s, AddingName(k.name, attr), Single(NewEntry(k), map[k.name := attr], Idle, map[]))
  {
    assert Across(k.name, {k.server}) == {k};
  }

  lemma MountSteps(k: Key, attr: Attr, e: Entry, e': Entry)
    requires e == NewEntry(k) && e' == MountResult(e, 1, true)
    ensures var names := map[k.name := attr];
            var s := Single(e, names, Publishing(map[k := MountParams(e, attr)], map[], map[], map[]), map[]);
            var t := Single(e, names, Publishing(map[], map[], map[k := e'], map[]), map[k := attr]);
            && Next(Single(e, names, Idle, map[]), Collecting(false), s)
            && Next(s, Mounting(k, 1, true), t)
            && Next(t, Finishing, Single(e', names, Idle, map[k := attr]))
  {
    assert map[k := MountParams(e, attr)] - {k} == map[];
    assert StoresMounts(map[k := e], map[k := e'], map[k := e']);
    assert StoresUnmounts(map[k := e'], map[], map[k := e']);
  }

  lemma RemoveSteps(k: Key, attr: Attr, e: Entry, f: Entry)
    requires e == MountResult(NewEntry(k), 1, true) && f == e.(desired := Unmounted)
    ensures var s := Single(f, map[], Idle, map[k := attr]);
            && Next(Single(e, map[k.name := attr], Idle, map[k := attr]), RemovingName(k.name), s)
            && Next(s, Collecting(false), s.(phase := Publishing(map[], map[k := f], map[], map[])))
  {
    assert Across(k.name, {k.server}) == {k};
    assert map[k.name := attr] - {k.name} == map[];
  }

  lemma ReaddSteps(k: Key, attr: Attr, e: Entry, f: Entry, f': Entry)
    requires e == MountResult(NewEntry(k), 1, true) && f == e.(desired := Unmounted) && f' == UnmountResult(f, 2, true)
    ensures var jobs, names := Publishing(map[], map[k := f], map[], map[]), map[k.name := attr];
            var s := Single(e, names, jobs, map[k := attr]);
            var t := Single(e, names, Publishing(map[], map[], map[], map[k := f']), map[]);
            && Next(Single(f, map[], jobs, map[k := attr]), AddingName(k.name, attr), s)
            && Next(s, Unmounting(k, 2, true), t)
            && Next(t, Finishing, Single(f'.(desired := Mounted), names, Idle, map[]))
  {
    assert Across(k.name, {k.server}) == {k};
    assert map[k := attr] - {k} == map[];
    assert map[k := f] - {k} == map[];
    assert StoresMounts(map[k := e], map[], map[k := e]);
    assert StoresUnmounts(map[k := e], map[k := f'], map[k := f'.(desired := Mounted)]);
  }

  lemma RunOne(s: Sys, a: Action, t: Sys)
    requires Next(s, a, t)
    ensures Run(s, [a], t)
  {
    assert Run(t, [a][1..], t);
  }

  lemma {:induction false} RunJoin(s: Sys, a: seq<Action>, t: Sys, b: seq<Action>, u: Sys)
    requires Run(s, a, t) && Run(t, b, u)
    ensures Run(s, a + b, u)
    decreases |a|
  {
    if a == [] {
      assert a + b == b;
    } else {
      var r :| Next(s, a[0], r) && Run(r, a[1..], t);
      RunJoin(r, a[1..], t, b, u);
      assert (a + b)[1..] == a[1..] + b;
    }
  }

  /** One more action in front of a run. */
  lemma RunFirst(s: Sys, a: Action, t: Sys, acts: seq<Action>, u: Sys)
    requires Next(s, a, t) && Run(t, acts, u)
    ensures Run(s, [a] + acts, u)
  {
    assert ([a] + acts)[1..] == acts;
  }

  lemma RunThree(s: Sys, a1: Action, s1: Sys, a2: Action, s2: Sys, a3: Action, s3: Sys)
    requires Next(s, a1, s1) && Next(s1, a2, s2) && Next(s2, a3, s3)
    ensures Run(s, [a1, a2, a3], s3)
  {
    RunOne(s2, a3, s3);
    RunFirst(s1, a2, s2, [a3], s3);
    RunFirst(s, a1, s1, [a2] + [a3], s3);
    assert [a1] + ([a2] + [a3]) == [a1, a2, a3];
  }

  lemma RunFive(s: Sys, a1: Action, s1: Sys, a2: Action, s2: Sys, a3: Action, s3: Sys,
                a4: Action, s4: Sys, a5: Action, s5: Sys)
    requires Next(s, a1, s1) && Next(s1, a2, s2) && Next(s2, a3, s3) && Next(s3, a4, s4) && Next(s4, a5, s5)
    ensures Run(s, [a1, a2, a3, a4, a5], s5)
  {
    RunThree(s2, a3, s3, a4, s4, a5, s5);
    RunFirst(s1, a2, s2, [a3, a4, a5], s5);
    RunFirst(s, a1, s1, [a2] + [a3, a4, a5], s5);
    assert [a1] + ([a2] + [a3, a4, a5]) == [a1, a2, a3, a4, a5];
  }

  /** The server and the name are added, and the pair is mounted. */
  lemma SetupRun(k: Key, attr: Attr, e: Entry)
    requires e == MountResult(NewEntry(k), 1, true)
    ensures Run(START,
                [AddingServer(k.server), AddingName(k.name, attr), Collecting(false), Mounting(k, 1, true), Finishing],
                Single(e, map[k.name := attr], Idle, map[k := attr]))
  {
    var names := map[k.name := attr];
    SetupSteps(k, attr);
    MountSteps(k, attr, NewEntry(k), e);
    var s2 := Single(NewEntry(k), names, Idle, map[]);
    RunFive(START, AddingServer(k.server), Sys(Registry(false, map[], {k.server}, map[]), Idle, map[]),
            AddingName(k.name, attr), s2,
            Collecting(false), s2.(phase := Publishing(map[k := MountParams(NewEntry(k), attr)], map[], map[], map[])),
            Mounting(k, 1, true),
            Single(NewEntry(k), names, Publishing(map[], map[], map[k := e], map[]), map[k := attr]),
            Finishing, Single(e, names, Idle, map[k := attr]));
  }

  /** The name is removed, and added again while its unmount is under way. */
  lemma ReaddRun(k: Key, attr: Attr, e: Entry, f: Entry, f': Entry)
    requires e == MountResult(NewEntry(k), 1, true) && f == e.(desired := Unmounted) && f' == UnmountResult(f, 2, true)
    ensures Run(Single(e, map[k.name := attr], Idle, map[k := attr]),
                [RemovingName(k.name), Collecting(false), AddingName(k.name, attr), Unmounting(k, 2, true), Finishing],
                Single(f'.(desired := Mounted), map[k.name := attr], Idle, map[]))
  {
    var names, at := map[k.name := attr], map[k := attr];
    RemoveSteps(k, attr, e, f);
    ReaddSteps(k, attr, e, f, f');
    var jobs := Publishing(map[], map[k := f], map[], map[]);
    RunFive(Single(e, names, Idle, at), RemovingName(k.name), Single(f, map[], Idle, at),
            Collecting(false), Single(f, map[], jobs, at),
            AddingName(k.name, attr), Single(e, names, jobs, at),
            Unmounting(k, 2, true), Single(e, names, Publishing(map[], map[], map[], map[k := f']), map[]),
            Finishing, Single(f'.(desired := Mounted), names, Idle, map[]));
  }

  lemma IdlePublish(s: Sys, k: Key, e: Entry)
    requires !s.reg.stopped && s.phase.Idle? && s.reg.entries == map[k := e]
    requires e.desired == Mounted && e.lastMount != 0
    ensures QuietPublish(s, false, [], s.(phase := Publishing(map[], map[], map[], map[])),
                         s.(phase := Publishing(map[], map[], map[], map[])), s)
  {
    var t := s.(phase := Publishing(map[], map[], map[], map[]));
    assert StoresMounts(s.reg.entries, map[], s.reg.entries) && StoresUnmounts(s.reg.entries, map[], s.reg.entries);
    assert CollectStep(s, false, t) && Run(t, [], t) && FinishStep(t, s);
  }

  /** A name removed, and added again while its unmount was under way, is not mounted again before a refresh. */
  lemma ReaddedStaysUnmounted(k: Key, attr: Attr) returns (s: Sys, t: Sys, s': Sys)
    ensures Run(START,
                [AddingServer(k.server), AddingName(k.name, attr), Collecting(false), Mounting(k, 1, true), Finishing]
                + [RemovingName(k.name), Collecting(false), AddingName(k.name, attr),
                   Unmounting(k, 2, true), Finishing],
                s)
    ensures QuietPublish(s, false, [], t, t, s')
    ensures Wanted(s.reg, k) && k !in s'.mounted
  {
    var e := MountResult(NewEntry(k), 1, true);
    var f := e.(desired := Unmounted);
    var f' := UnmountResult(f, 2, true);
    s := Single(f'.(desired := Mounted), map[k.name := attr], Idle, map[]);
    t, s' := s.(phase := Publishing(map[], map[], map[], map[])), s;
    SetupRun(k, attr, e);
    ReaddRun(k, attr, e, f, f');
    RunJoin(START,
            [AddingServer(k.server), AddingName(k.name, attr), Collecting(false), Mounting(k, 1, true), Finishing],
            Single(e, map[k.name := attr], Idle, map[k := attr]),
            [RemovingName(k.name), Collecting(false), AddingName(k.name, attr), Unmounting(k, 2, true), Finishing], s);
    IdlePublish(s, k, f'.(desired := Mounted));
  }

  /** A name added again with other attributes keeps its pairs mounted with the old ones before a refresh. */
  lemma ChangedAttributesWait(k: Key, attr: Attr, attr': Attr) returns (s: Sys, t: Sys, s': Sys)
    requires attr != attr'
    ensures Run(START,
                [AddingServer(k.server), AddingName(k.name, attr), Collecting(false), Mounting(k, 1, true), Finishing]
                + [AddingName(k.name, attr')], s)
    ensures QuietPublish(s, false, [], t, t, s')
    ensures Wanted(s.reg, k) && s.reg.names[k.name] == attr' && k in s'.mounted && s'.mounted[k] == attr
  {
    var e := MountResult(NewEntry(k), 1, true);
    var was := Single(e, map[k.name := attr], Idle, map[k := attr]);
    s := Single(e, map[k.name := attr'], Idle, map[k := attr]);
    t, s' := s.(phase := Publishing(map[], map[], map[], map[])), s;
    SetupRun(k, attr, e);
    ReaddStep(k, attr, attr', e);
    RunOne(was, AddingName(k.name, attr'), s);
    RunJoin(START,
            [AddingServer(k.server), AddingName(k.name, attr), Collecting(false), Mounting(k, 1, true), Finishing],
            was, [AddingName(k.name, attr')], s);
    IdlePublish(s, k, e);
  }

  lemma ReaddStep(k: Key, attr: Attr, attr': Attr, e: Entry)
    requires attr != attr' && e == MountResult(NewEntry(k), 1, true)
    ensures Next(Single(e, map[k.name := attr], Idle, map[k := attr]), AddingName(k.name, attr'),
                 Single(e, map[k.name := attr'], Idle, map[k := attr]))
  {
    assert Across(k.name, {k.server}) == {k};
    assert map[k.name := attr][k.name := attr'] == map[k.name := attr'];
  }
}
