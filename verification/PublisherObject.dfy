/** The publisher object: the API calls and the two locked phases of publish, step by step over its maps. */
module PublisherObject {
  import opened Publishing

  lemma WantsMore(m: Entries, keys: set<Key>, m': Entries, k: Key, m'': Entries)
    requires Wants(m, keys, m') && Wants(m', {k}, m'') && k !in keys
    ensures Wants(m, keys + {k}, m'')
  {
  }

  lemma DropsMore(m: Entries, keys: set<Key>, m': Entries, k: Key, m'': Entries)
    requires Drops(m, keys, m') && Drops(m', {k}, m'')
    ensures Drops(m, keys + {k}, m'')
  {
  }

  // ---------------------------------------------------------------- lists of jobs and results, by key

  function EntryKey(e: Entry): Key {
    e.key
  }

  function JobKey(job: MountParams): Key {
    job.entry.key
  }

  ghost function KeyMap<T>(xs: seq<T>, key: T -> Key): map<Key, T> {
    if xs == [] then map[] else var l := |xs| - 1; KeyMap(xs[..l], key)[key(xs[l]) := xs[l]]
  }

  ghost predicate Distinct<T>(xs: seq<T>, key: T -> Key) {
    forall i, j :: 0 <= i < j < |xs| ==> key(xs[i]) != key(xs[j])
  }

  lemma {:induction false} KeyMapKeys<T>(xs: seq<T>, key: T -> Key, k: Key)
    requires k in KeyMap(xs, key)
    ensures exists i :: 0 <= i < |xs| && key(xs[i]) == k
  {
    var l := |xs| - 1;
    if key(xs[l]) != k {
      KeyMapKeys(xs[..l], key, k);
      var i :| 0 <= i < l && key(xs[..l][i]) == k;
      assert key(xs[i]) == k;
    }
  }

  lemma NotYet<T>(xs: seq<T>, key: T -> Key, i: nat)
    requires Distinct(xs, key) && i < |xs|
    ensures key(xs[i]) !in KeyMap(xs[..i], key)
  {
    if key(xs[i]) in KeyMap(xs[..i], key) {
      KeyMapKeys(xs[..i], key, key(xs[i]));
    }
  }

  /** With distinct keys, the map has each element of the list and as many. */
  lemma {:induction false} KeyMapAt<T>(xs: seq<T>, key: T -> Key)
    requires Distinct(xs, key)
    ensures |KeyMap(xs, key)| == |xs|
    ensures forall i :: 0 <= i < |xs| ==> key(xs[i]) in KeyMap(xs, key) && KeyMap(xs, key)[key(xs[i])] == xs[i]
  {
    if xs != [] {
      var l := |xs| - 1;
      NotYet(xs, key, l);
      KeyMapAt(xs[..l], key);
    }
  }

  /** The jobs that are left once the first `i` are done. */
  ghost predicate Left<T>(xs: seq<T>, key: T -> Key, i: nat, left: map<Key, T>) {
    && i <= |xs| && |left| == |xs| - i
    && forall j :: i <= j < |xs| ==> key(xs[j]) in left && left[key(xs[j])] == xs[j]
  }

  lemma LeftNext<T>(xs: seq<T>, key: T -> Key, i: nat, left: map<Key, T>)
    requires Distinct(xs, key) && i < |xs| && Left(xs, key, i, left)
    ensures Left(xs, key, i + 1, left - {key(xs[i])})
  {
    var k := key(xs[i]);
    assert (left - {k}).Keys == left.Keys - {k};
  }

  /** The entries once those outside `todo` have been looked at. */
  ghost predicate Kept(m: Entries, todo: set<Key>, m': Entries) {
    && (forall k :: k in m' <==> k in m && (k in todo || !Settled(m[k])))
    && (forall k :: k in m' ==> m'[k] == m[k])
  }

  ghost predicate MountsSoFar(p: Registry, refreshAll: bool, todo: set<Key>, mounts: seq<MountParams>) {
    var jobs := KeyMap(mounts, JobKey);
    && Distinct(mounts, JobKey)
    && (forall k :: k in jobs <==> k in p.entries && k !in todo && DueMount(p.entries[k], refreshAll))
    && (forall k :: k in jobs ==> jobs[k] == MountParams(p.entries[k], AttrOf(p.names, k.name)))
  }

  ghost predicate UnmountsSoFar(m: Entries, refreshAll: bool, todo: set<Key>, unmounts: seq<Entry>) {
    var jobs := KeyMap(unmounts, EntryKey);
    && Distinct(unmounts, EntryKey)
    && (forall k :: k in jobs <==> k in m && k !in todo && DueUnmount(m[k], refreshAll))
    && (forall k :: k in jobs ==> jobs[k] == m[k])
  }

  lemma KeptNext(m: Entries, todo: set<Key>, key: Key, m': Entries, m'': Entries)
    requires Kept(m, todo, m') && key in todo && key in m
    requires m'' == if Settled(m[key]) then m' - {key} else m'
    ensures Kept(m, todo - {key}, m'')
  {
  }

  lemma MountsNext(p: Registry, refreshAll: bool, todo: set<Key>, key: Key,
                   mounts: seq<MountParams>, mounts': seq<MountParams>)
    requires Keyed(p.entries) && key in todo && key in p.entries && MountsSoFar(p, refreshAll, todo, mounts)
    requires mounts' == if DueMount(p.entries[key], refreshAll)
                        then mounts + [MountParams(p.entries[key], AttrOf(p.names, key.name))] else mounts
    ensures MountsSoFar(p, refreshAll, todo - {key}, mounts')
  {
    if mounts' != mounts {
      assert mounts'[..|mounts|] == mounts;
      KeyMapAt(mounts, JobKey);
      assert forall i :: 0 <= i < |mounts| ==> mounts[i].entry.key != key;
    }
  }

  lemma UnmountsNext(m: Entries, refreshAll: bool, todo: set<Key>, key: Key,
                     unmounts: seq<Entry>, unmounts': seq<Entry>)
    requires Keyed(m) && key in todo && key in m && UnmountsSoFar(m, refreshAll, todo, unmounts)
    requires unmounts' == if DueUnmount(m[key], refreshAll) then unmounts + [m[key]] else unmounts
    ensures UnmountsSoFar(m, refreshAll, todo - {key}, unmounts')
  {
    if unmounts' != unmounts {
      assert unmounts'[..|unmounts|] == unmounts;
      KeyMapAt(unmounts, EntryKey);
      assert forall i :: 0 <= i < |unmounts| ==> unmounts[i].key != key;
    }
  }

  ghost predicate CollectedSoFar(p: Registry, refreshAll: bool, todo: set<Key>, m: Entries,
                                 mounts: seq<MountParams>, unmounts: seq<Entry>) {
    && Kept(p.entries, todo, m)
    && MountsSoFar(p, refreshAll, todo, mounts)
    && UnmountsSoFar(p.entries, refreshAll, todo, unmounts)
  }

  lemma CollectStart(p: Registry, refreshAll: bool)
    ensures CollectedSoFar(p, refreshAll, p.entries.Keys, p.entries, [], [])
  {
  }

  lemma CollectAt(p: Registry, refreshAll: bool, todo: set<Key>, key: Key,
                  m: Entries, ms: seq<MountParams>, us: seq<Entry>)
    requires key in todo && key in p.entries && CollectedSoFar(p, refreshAll, todo, m, ms, us)
    ensures key in m && m[key] == p.entries[key]
  {
  }

  lemma CollectNext(p: Registry, refreshAll: bool, todo: set<Key>, key: Key,
                    m: Entries, ms: seq<MountParams>, us: seq<Entry>,
                    m': Entries, ms': seq<MountParams>, us': seq<Entry>)
    requires Keyed(p.entries) && key in todo && key in p.entries
    requires CollectedSoFar(p, refreshAll, todo, m, ms, us)
    requires m' == if Settled(p.entries[key]) then m - {key} else m
    requires ms' == if DueMount(p.entries[key], refreshAll)
                    then ms + [MountParams(p.entries[key], AttrOf(p.names, key.name))] else ms
    requires us' == if DueUnmount(p.entries[key], refreshAll) then us + [p.entries[key]] else us
    ensures CollectedSoFar(p, refreshAll, todo - {key}, m', ms', us')
  {
    KeptNext(p.entries, todo, key, m, m');
    MountsNext(p, refreshAll, todo, key, ms, ms');
    UnmountsNext(p.entries, refreshAll, todo, key, us, us');
  }

  lemma CollectDone(p: Registry, refreshAll: bool, m: Entries, mounts: seq<MountParams>, unmounts: seq<Entry>)
    requires CollectedSoFar(p, refreshAll, {}, m, mounts, unmounts)
    ensures Collects(p, refreshAll, m, KeyMap(mounts, JobKey), KeyMap(unmounts, EntryKey))
    ensures Distinct(mounts, JobKey) && Distinct(unmounts, EntryKey)
  {
  }

  // ---------------------------------------------------------------- the RPCs

  lemma RunMore(s: Sys, acts: seq<Action>, t: Sys, a: Action, u: Sys)
    requires Run(s, acts, t) && Next(t, a, u)
    ensures Run(s, acts + [a], u)
  {
    RunOne(t, a, u);
    RunJoin(s, acts, t, [a], u);
  }

  ghost predicate AllRpcs(acts: seq<Action>) {
    forall i :: 0 <= i < |acts| ==> acts[i].Mounting? || acts[i].Unmounting?
  }

  ghost predicate AllOk(acts: seq<Action>)
    requires AllRpcs(acts)
  {
    forall i :: 0 <= i < |acts| ==> acts[i].ok
  }

  lemma MountOnce(s: Sys, acts: seq<Action>, t: Sys, job: MountParams, now: Time, ok: bool) returns (u: Sys)
    requires Run(s, acts, t) && t.phase.Publishing? && now > 0
    requires job.entry.key in t.phase.mounts && t.phase.mounts[job.entry.key] == job
    ensures Run(s, acts + [Mounting(job.entry.key, now, ok)], u) && u.reg == t.reg
    ensures u.phase == t.phase.(mounts := t.phase.mounts - {job.entry.key},
                                mountDone := t.phase.mountDone[job.entry.key := MountResult(job.entry, now, ok)])
  {
    var k, f := job.entry.key, t.phase;
    u := t.(phase := f.(mounts := f.mounts - {k}, mountDone := f.mountDone[k := MountResult(job.entry, now, ok)]),
            mounted := if ok then t.mounted[k := job.attr] else t.mounted);
    RunMore(s, acts, t, Mounting(k, now, ok), u);
  }

  /** After `i` calls: the run so far, the jobs that are left and the results there are. */
  ghost predicate MountProgress(
      jobs: seq<MountParams>, i: nat, s: Sys, acts: seq<Action>, t: Sys, results: seq<Entry>) {
    && Run(s, acts, t) && AllRpcs(acts) && s.phase.Publishing? && t.phase.Publishing? && t.reg == s.reg
    && Left(jobs, JobKey, i, t.phase.mounts)
    && t.phase == s.phase.(mounts := t.phase.mounts, mountDone := KeyMap(results, EntryKey))
    && |results| == i && forall j :: 0 <= j < i ==> results[j].key == jobs[j].entry.key
  }

  lemma MountProgressNext(jobs: seq<MountParams>, i: nat, s: Sys, acts: seq<Action>, t: Sys, results: seq<Entry>,
                       now: Time, ok: bool) returns (u: Sys)
    requires Distinct(jobs, JobKey) && i < |jobs| && MountProgress(jobs, i, s, acts, t, results) && now > 0
    ensures MountProgress(jobs, i + 1, s, acts + [Mounting(jobs[i].entry.key, now, ok)], u,
                          results + [MountResult(jobs[i].entry, now, ok)])
  {
    u := MountOnce(s, acts, t, jobs[i], now, ok);
    LeftNext(jobs, JobKey, i, t.phase.mounts);
    var result := MountResult(jobs[i].entry, now, ok);
    assert (results + [result])[..i] == results;
    assert result.key == jobs[i].entry.key;
  }

  lemma MountProgressDone(jobs: seq<MountParams>, s: Sys, acts: seq<Action>, t: Sys, results: seq<Entry>)
    requires Distinct(jobs, JobKey) && MountProgress(jobs, |jobs|, s, acts, t, results)
    ensures t.phase == s.phase.(mounts := map[], mountDone := KeyMap(results, EntryKey)) && Distinct(results, EntryKey)
  {
    assert t.phase.mounts == map[];
  }

  /** The loop that mounts. `rpc` gives the time and the outcome of each call. */
  method MountAll(mounts: seq<MountParams>, rpc: nat -> (Time, bool), ghost s: Sys)
    returns (results: seq<Entry>, ghost acts: seq<Action>, ghost s': Sys)
    requires Distinct(mounts, JobKey) && forall i :: rpc(i).0 > 0
    requires s.phase.Publishing? && s.phase.mounts == KeyMap(mounts, JobKey) && s.phase.mountDone == map[]
    ensures Run(s, acts, s') && AllRpcs(acts) && ((forall i :: rpc(i).1) ==> AllOk(acts))
    ensures s'.reg == s.reg && s'.phase == s.phase.(mounts := map[], mountDone := KeyMap(results, EntryKey))
    ensures Distinct(results, EntryKey)
  {
    KeyMapAt(mounts, JobKey);
    results, acts, s' := [], [], s;
    for i := 0 to |mounts|
      invariant MountProgress(mounts, i, s, acts, s', results)
      invariant (forall i :: rpc(i).1) ==> AllOk(acts)
    {
      var (now, ok) := rpc(i);
      s' := MountProgressNext(mounts, i, s, acts, s', results, now, ok);
      results := results + [MountResult(mounts[i].entry, now, ok)];
      acts := acts + [Mounting(mounts[i].entry.key, now, ok)];
    }
    MountProgressDone(mounts, s, acts, s', results);
  }

  lemma UnmountOnce(s: Sys, acts: seq<Action>, t: Sys, job: Entry, now: Time, ok: bool) returns (u: Sys)
    requires Run(s, acts, t) && t.phase.Publishing? && now > 0 && t.phase.mounts == map[]
    requires job.key in t.phase.unmounts && t.phase.unmounts[job.key] == job
    ensures Run(s, acts + [Unmounting(job.key, now, ok)], u) && u.reg == t.reg
    ensures u.phase == t.phase.(unmounts := t.phase.unmounts - {job.key},
                                unmountDone := t.phase.unmountDone[job.key := UnmountResult(job, now, ok)])
  {
    var k, f := job.key, t.phase;
    u := t.(phase := f.(unmounts := f.unmounts - {k}, unmountDone := f.unmountDone[k := UnmountResult(job, now, ok)]),
            mounted := if ok then t.mounted - {k} else t.mounted);
    RunMore(s, acts, t, Unmounting(k, now, ok), u);
  }

  /** After `i` calls: the run so far, the jobs that are left and the results there are. */
  ghost predicate UnmountProgress(jobs: seq<Entry>, i: nat, s: Sys, acts: seq<Action>, t: Sys, results: seq<Entry>) {
    && Run(s, acts, t) && AllRpcs(acts) && s.phase.Publishing? && t.phase.Publishing? && t.reg == s.reg
    && Left(jobs, EntryKey, i, t.phase.unmounts)
    && t.phase == s.phase.(unmounts := t.phase.unmounts, unmountDone := KeyMap(results, EntryKey))
    && |results| == i && forall j :: 0 <= j < i ==> results[j].key == jobs[j].key
  }

  lemma UnmountProgressNext(jobs: seq<Entry>, i: nat, s: Sys, acts: seq<Action>, t: Sys, results: seq<Entry>,
                       now: Time, ok: bool) returns (u: Sys)
    requires Distinct(jobs, EntryKey) && i < |jobs| && UnmountProgress(jobs, i, s, acts, t, results) && now > 0
    requires s.phase.mounts == map[]
    ensures UnmountProgress(jobs, i + 1, s, acts + [Unmounting(jobs[i].key, now, ok)], u,
                          results + [UnmountResult(jobs[i], now, ok)])
  {
    u := UnmountOnce(s, acts, t, jobs[i], now, ok);
    LeftNext(jobs, EntryKey, i, t.phase.unmounts);
    var result := UnmountResult(jobs[i], now, ok);
    assert (results + [result])[..i] == results;
    assert result.key == jobs[i].key;
  }

  lemma UnmountProgressDone(jobs: seq<Entry>, s: Sys, acts: seq<Action>, t: Sys, results: seq<Entry>)
    requires Distinct(jobs, EntryKey) && UnmountProgress(jobs, |jobs|, s, acts, t, results)
    ensures t.phase == s.phase.(unmounts := map[], unmountDone := KeyMap(results, EntryKey))
    ensures Distinct(results, EntryKey)
  {
    assert t.phase.unmounts == map[];
  }

  /** The loop that unmounts. */
  method UnmountAll(unmounts: seq<Entry>, rpc: nat -> (Time, bool), ghost s: Sys)
    returns (results: seq<Entry>, ghost acts: seq<Action>, ghost s': Sys)
    requires Distinct(unmounts, EntryKey) && forall i :: rpc(i).0 > 0
    requires s.phase.Publishing? && s.phase.mounts == map[] && s.phase.unmounts == KeyMap(unmounts, EntryKey)
    requires s.phase.unmountDone == map[]
    ensures Run(s, acts, s') && AllRpcs(acts) && ((forall i :: rpc(i).1) ==> AllOk(acts))
    ensures s'.reg == s.reg && s'.phase == s.phase.(unmounts := map[], unmountDone := KeyMap(results, EntryKey))
    ensures Distinct(results, EntryKey)
  {
    KeyMapAt(unmounts, EntryKey);
    results, acts, s' := [], [], s;
    for i := 0 to |unmounts|
      invariant UnmountProgress(unmounts, i, s, acts, s', results)
      invariant (forall i :: rpc(i).1) ==> AllOk(acts)
    {
      var (now, ok) := rpc(i);
      s' := UnmountProgressNext(unmounts, i, s, acts, s', results, now, ok);
      results := results + [UnmountResult(unmounts[i], now, ok)];
      acts := acts + [Unmounting(unmounts[i].key, now, ok)];
    }
    UnmountProgressDone(unmounts, s, acts, s', results);
  }

  class Publisher {
    var stopped: bool
    var names: map<string, Attr>
    var servers: set<string>
    var entries: Entries

    ghost function View(): Registry
      reads this
    {
      Registry(stopped, names, servers, entries)
    }

    constructor ()
      ensures View() == START.reg
    {
      stopped, names, servers, entries := false, map[], {}, map[];
    }

    method WantEntry(key: Key)
      modifies `entries
      ensures Wants(old(entries), {key}, entries)
    {
      if key in entries {
        entries := entries[key := entries[key].(desired := Mounted)];
      } else {
        entries := entries[key := NewEntry(key)];
      }
    }

    method DropEntry(key: Key)
      modifies `entries
      ensures Drops(old(entries), {key}, entries)
    {
      if key in entries {
        entries := entries[key := entries[key].(desired := Unmounted)];
      }
    }

    method AddName(name: string, mt: bool, leaf: bool)
      modifies this
      ensures AddsName(old(View()), name, Attr(mt, leaf), View())
    {
      if stopped {
        return;
      }
      if name in names && names[name] == Attr(mt, leaf) {
        return;
      }
      names := names[name := Attr(mt, leaf)];
      var todo := servers;
      while todo != {}
        invariant todo <= servers
        invariant View() == old(View()).(names := old(names)[name := Attr(mt, leaf)], entries := entries)
        invariant Wants(old(entries), Across(name, servers - todo), entries)
        decreases |todo|
      {
        var server :| server in todo;
        ghost var was := entries;
        WantEntry(Key(name, server));
        WantsMore(old(entries), Across(name, servers - todo), was, Key(name, server), entries);
        assert Across(name, servers - (todo - {server})) == Across(name, servers - todo) + {Key(name, server)};
        todo := todo - {server};
      }
      assert servers - {} == servers;
    }

    method RemoveName(name: string)
      modifies this
      ensures RemovesName(old(View()), name, View())
    {
      if stopped {
        return;
      }
      if name !in names {
        return;
      }
      names := names - {name};
      var todo := servers;
      while todo != {}
        invariant todo <= servers
        invariant View() == old(View()).(names := old(names) - {name}, entries := entries)
        invariant Drops(old(entries), Across(name, servers - todo), entries)
        decreases |todo|
      {
        var server :| server in todo;
        ghost var was := entries;
        DropEntry(Key(name, server));
        DropsMore(old(entries), Across(name, servers - todo), was, Key(name, server), entries);
        assert Across(name, servers - (todo - {server})) == Across(name, servers - todo) + {Key(name, server)};
        todo := todo - {server};
      }
      assert servers - {} == servers;
    }

    method AddServer(server: string)
      modifies this
      ensures AddsServer(old(View()), server, View())
    {
      if stopped {
        return;
      }
      if server in servers {
        return;
      }
      servers := servers + {server};
      var todo := names.Keys;
      while todo != {}
        invariant todo <= names.Keys
        invariant View() == old(View()).(servers := old(servers) + {server}, entries := entries)
        invariant Wants(old(entries), Along(names.Keys - todo, server), entries)
        decreases |todo|
      {
        var name :| name in todo;
        ghost var was := entries;
        WantEntry(Key(name, server));
        WantsMore(old(entries), Along(names.Keys - todo, server), was, Key(name, server), entries);
        assert Along(names.Keys - (todo - {name}), server) == Along(names.Keys - todo, server) + {Key(name, server)};
        todo := todo - {name};
      }
      assert names.Keys - {} == names.Keys;
    }

    method RemoveServer(server: string)
      modifies this
      ensures RemovesServer(old(View()), server, View())
    {
      if stopped {
        return;
      }
      if server !in servers {
        return;
      }
      servers := servers - {server};
      var todo := names.Keys;
      while todo != {}
        invariant todo <= names.Keys
        invariant View() == old(View()).(servers := old(servers) - {server}, entries := entries)
        invariant Drops(old(entries), Along(names.Keys - todo, server), entries)
        decreases |todo|
      {
        var name :| name in todo;
        ghost var was := entries;
        DropEntry(Key(name, server));
        DropsMore(old(entries), Along(names.Keys - todo, server), was, Key(name, server), entries);
        assert Along(names.Keys - (todo - {name}), server) == Along(names.Keys - todo, server) + {Key(name, server)};
        todo := todo - {name};
      }
      assert names.Keys - {} == names.Keys;
    }

    /** One entry of the loop of entriesToPublish. */
    method CollectEntry(key: Key, refreshAll: bool, mounts: seq<MountParams>, unmounts: seq<Entry>)
      returns (mounts': seq<MountParams>, unmounts': seq<Entry>)
      requires key in entries
      modifies `entries
      ensures entries == if Settled(old(entries[key])) then old(entries) - {key} else old(entries)
      ensures mounts' == if DueMount(old(entries[key]), refreshAll)
                         then mounts + [MountParams(old(entries[key]), AttrOf(names, key.name))] else mounts
      ensures unmounts' == if DueUnmount(old(entries[key]), refreshAll)
                           then unmounts + [old(entries[key])] else unmounts
    {
      mounts', unmounts' := mounts, unmounts;
      var entry := entries[key];
      if entry.desired == Unmounted {
        if entry.lastState == Unmounted {
          entries := entries - {key};
        } else if refreshAll || entry.lastUnmount == 0 {
          unmounts' := unmounts + [entry];
        }
      } else {
        if refreshAll || entry.lastMount == 0 {
          mounts' := mounts + [MountParams(entry, AttrOf(names, key.name))];
        }
      }
    }

    method EntriesToPublish(refreshAll: bool) returns (mounts: seq<MountParams>, unmounts: seq<Entry>)
      requires Keyed(entries)
      modifies `entries
      ensures Collects(old(View()), refreshAll, entries, KeyMap(mounts, JobKey), KeyMap(unmounts, EntryKey))
      ensures Distinct(mounts, JobKey) && Distinct(unmounts, EntryKey)
    {
      mounts, unmounts := [], [];
      var todo := entries.Keys;
      CollectStart(View(), refreshAll);
      while todo != {}
        invariant todo <= old(entries).Keys
        invariant CollectedSoFar(old(View()), refreshAll, todo, entries, mounts, unmounts)
        decreases |todo|
      {
        var key :| key in todo;
        ghost var m, ms, us := entries, mounts, unmounts;
        CollectAt(old(View()), refreshAll, todo, key, m, ms, us);
        mounts, unmounts := CollectEntry(key, refreshAll, mounts, unmounts);
        CollectNext(old(View()), refreshAll, todo, key, m, ms, us, entries, mounts, unmounts);
        todo := todo - {key};
      }
      CollectDone(old(View()), refreshAll, entries, mounts, unmounts);
    }

    method UpdateEntries(mountEntries: seq<Entry>, unmountEntries: seq<Entry>)
      requires Distinct(mountEntries, EntryKey) && Distinct(unmountEntries, EntryKey)
      modifies `entries
      ensures exists m :: StoresMounts(old(entries), KeyMap(mountEntries, EntryKey), m)
                          && StoresUnmounts(m, KeyMap(unmountEntries, EntryKey), entries)
    {
      var i := 0;
      while i < |mountEntries|
        invariant 0 <= i <= |mountEntries|
        invariant StoresMounts(old(entries), KeyMap(mountEntries[..i], EntryKey), entries)
      {
        var entry := mountEntries[i];
        assert mountEntries[..i + 1][..i] == mountEntries[..i];
        assert entry.key !in KeyMap(mountEntries[..i], EntryKey) by { NotYet(mountEntries, EntryKey, i); }
        if entry.key in entries {
          entry := entry.(desired := entries[entry.key].desired);
        }
        entries := entries[entry.key := entry];
        i := i + 1;
      }
      ghost var m := entries;
      assert mountEntries[..|mountEntries|] == mountEntries;
      i := 0;
      while i < |unmountEntries|
        invariant 0 <= i <= |unmountEntries|
        invariant StoresUnmounts(m, KeyMap(unmountEntries[..i], EntryKey), entries)
      {
        var entry := unmountEntries[i];
        assert unmountEntries[..i + 1][..i] == unmountEntries[..i];
        assert entry.key !in KeyMap(unmountEntries[..i], EntryKey) by { NotYet(unmountEntries, EntryKey, i); }
        if entry.key in entries {
          entry := entry.(desired := entries[entry.key].desired);
        }
        if entry.desired == Unmounted && !entry.lastUnmountErr {
          entries := entries - {entry.key};
        } else {
          entries := entries[entry.key := entry];
        }
        i := i + 1;
      }
      assert unmountEntries[..|unmountEntries|] == unmountEntries;
      assert StoresMounts(old(entries), KeyMap(mountEntries, EntryKey), m);
    }

    /** publish, when nothing else happens meanwhile: a collecting step, RPCs and a finishing step of the model. */
    method Publish(refreshAll: bool, rpc1: nat -> (Time, bool), rpc2: nat -> (Time, bool), ghost s: Sys)
      returns (ghost acts: seq<Action>, ghost t: Sys, ghost u: Sys, ghost s': Sys)
      requires !stopped && Keyed(entries) && (forall i :: rpc1(i).0 > 0) && (forall i :: rpc2(i).0 > 0)
      requires s.reg == View() && s.phase == Idle
      modifies `entries
      ensures s'.reg == View() && CollectStep(s, refreshAll, t) && Run(t, acts, u) && FinishStep(u, s') && AllRpcs(acts)
      ensures (forall i :: rpc1(i).1 && rpc2(i).1) ==> QuietPublish(s, refreshAll, acts, t, u, s')
    {
      var mounts, unmounts := EntriesToPublish(refreshAll);
      t := Sys(View(), Publishing(KeyMap(mounts, JobKey), KeyMap(unmounts, EntryKey), map[], map[]), s.mounted);
      var mountEntries, unmountEntries;
      ghost var more, mid;
      mountEntries, acts, mid := MountAll(mounts, rpc1, t);
      unmountEntries, more, u := UnmountAll(unmounts, rpc2, mid);
      RunJoin(t, acts, mid, more, u);
      acts := acts + more;
      UpdateEntries(mountEntries, unmountEntries);
      s' := Sys(View(), Idle, u.mounted);
    }
  }
}
