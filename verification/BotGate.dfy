/** The update gate of the bot reconciler, reading the configuration cache while others reload it
    (`SyncBots` in `internal/discord/bot.go` over `LoadedConfig` in `internal/config/config.go`). */
module BotGate {
  import opened GoStrings
  import C = ConfigCache
  import B = Bots

  // ---------- what the stamp does during a run of the cache ----------

  /** Some step of the run stamps the cache with a modification time beyond `v`. */
  predicate Stamps(s: C.State, ls: seq<C.Label>, v: C.Version)
    decreases |ls|
  {
    ls != [] && (StampsNow(s, ls[0], v) || Stamps(C.Exec(s, ls[0]), ls[1..], v))
  }

  /** The event is the last assignment of a reload, with a modification time beyond `v`. */
  predicate StampsNow(s: C.State, l: C.Label, v: C.Version) {
    l.Act? && l.t < |s.phases| && s.phases[l.t].ReloadStamp? && s.phases[l.t].mtime > v
  }

  /** One event: the stamp passes `v` only by such a step, and does not fall back behind it. */
  lemma StampStep(s: C.State, l: C.Label, v: C.Version)
    requires C.Inv(s) && !C.Torn(s, l)
    ensures StampsNow(s, l, v) ==> C.Exec(s, l).lastLoaded > v
    ensures s.lastLoaded <= v && !StampsNow(s, l, v) ==> C.Exec(s, l).lastLoaded <= v
    ensures s.lastLoaded > v ==> C.Exec(s, l).lastLoaded > v
  {
    if l.Act? && l.t < |s.phases| {
      assert C.Fresh(s, s.phases[l.t]);
    }
  }

  lemma {:induction false} StampStays(s: C.State, ls: seq<C.Label>, v: C.Version)
    requires C.Inv(s) && C.Untorn(s, ls) && s.lastLoaded > v
    ensures C.Run(s, ls).lastLoaded > v
    decreases |ls|
  {
    if ls == [] {
    } else {
      StampStep(s, ls[0], v);
      C.ExecInv(s, ls[0]);
      StampStays(C.Exec(s, ls[0]), ls[1..], v);
    }
  }

  /** From a stamp of at most `v`, an untorn run leads beyond `v` if and only if a reload stamps beyond `v`. */
  lemma {:induction false} StampPassesExactlyWhen(s: C.State, ls: seq<C.Label>, v: C.Version)
    requires C.Inv(s) && C.Untorn(s, ls) && s.lastLoaded <= v
    ensures C.Run(s, ls).lastLoaded > v <==> Stamps(s, ls, v)
    decreases |ls|
  {
    if ls == [] {
    } else {
      var s1 := C.Exec(s, ls[0]);
      StampStep(s, ls[0], v);
      C.ExecInv(s, ls[0]);
      if StampsNow(s, ls[0], v) {
        StampStays(s1, ls[1..], v);
      } else {
        StampPassesExactlyWhen(s1, ls[1..], v);
      }
    }
  }

  // ---------- one call of the reconciler ----------

  /** The state of the cache right after goroutine `t` has returned from `Get`. */
  function Fetched(s: C.State, t: nat): C.State { C.Exec(s, C.Act(t, true)) }

  /** The call of a reconciler whose `Get` is about to return in `s`: it fetches the cached version, reads the stamp
      at the gate after `toGate`, and copies it after `toStamp`. */
  function CallAt(s: C.State, t: nat, toGate: seq<C.Label>, toStamp: seq<C.Label>, d: B.Discord): B.Call {
    var gate := C.Run(Fetched(s, t), toGate);
    B.Call(s.config, gate.lastLoaded, C.Run(gate, toStamp).lastLoaded, d)
  }

  ghost predicate Reading(s: C.State, t: nat, toGate: seq<C.Label>, toStamp: seq<C.Label>) {
    && C.Inv(s) && t < |s.phases| && s.phases[t].GetReturn?
    && C.Untorn(Fetched(s, t), toGate) && C.Untorn(C.Run(Fetched(s, t), toGate), toStamp)
  }

  lemma FetchedIs(s: C.State, t: nat)
    requires C.Inv(s) && t < |s.phases| && s.phases[t].GetReturn?
    ensures C.Inv(Fetched(s, t)) && Fetched(s, t).lastLoaded <= s.config && Fetched(s, t).config == s.config
    ensures Fetched(s, t).phases[t].Returned? && Fetched(s, t).phases[t].result == s.config
  {
    C.ExecInv(s, C.Act(t, true));
  }

  /** The stamp that a call copies is newer than what it fetched exactly if another goroutine's reload stamps a
      newer version between the return of `Get` and the copy. */
  lemma StampIsNewerExactlyWhen(s: C.State, t: nat, toGate: seq<C.Label>, toStamp: seq<C.Label>, d: B.Discord)
    requires Reading(s, t, toGate, toStamp)
    ensures var c := CallAt(s, t, toGate, toStamp, d); var fetched := Fetched(s, t);
            c.stamp > c.version <==>
              Stamps(fetched, toGate, c.version) || Stamps(C.Run(fetched, toGate), toStamp, c.version)
  {
    var fetched := Fetched(s, t);
    FetchedIs(s, t);
    StampPassesExactlyWhen(fetched, toGate, s.config);
    C.RunInv(fetched, toGate);
    var gate := C.Run(fetched, toGate);
    if gate.lastLoaded > s.config {
      StampStays(gate, toStamp, s.config);
    } else {
      StampPassesExactlyWhen(gate, toStamp, s.config);
    }
  }

  /** Until a reload stamps beyond the copied stamp, an older configuration than the loaded one stays in force
      exactly if a reload landed between fetching the configuration and copying the stamp. */
  lemma OlderInForceExactlyWhen(files: B.History, states: seq<B.State>, calls: seq<B.Call>, a: nat, b: nat,
                                s: C.State, t: nat, toGate: seq<C.Label>, toStamp: seq<C.Label>, d: B.Discord)
    requires B.Calls(files, states, calls) && a < b <= |calls| && B.Updates(states[a], calls[a])
    requires Reading(s, t, toGate, toStamp) && calls[a] == CallAt(s, t, toGate, toStamp, d)
    requires forall i :: a < i < b ==> calls[i].loaded <= calls[a].stamp
    ensures states[b] == states[a + 1] && B.InForce(states, calls, b).Some?
    ensures var fetched := Fetched(s, t); var gate := C.Run(fetched, toGate);
            B.InForce(states, calls, b).value < C.Run(gate, toStamp).lastLoaded <==>
            Stamps(fetched, toGate, s.config) || Stamps(gate, toStamp, s.config)
  {
    B.GatedUntilReload(files, states, calls, a, b);
    StampIsNewerExactlyWhen(s, t, toGate, toStamp, d);
  }

  // ---------- a run in which the newer version is skipped ----------

  lemma {:induction false} RunConcat(s: C.State, a: seq<C.Label>, b: seq<C.Label>)
    ensures C.Run(s, a + b) == C.Run(C.Run(s, a), b)
    decreases |a|
  {
    if a == [] {
      assert a + b == b;
    } else {
      assert (a + b)[1..] == a[1..] + b;
      RunConcat(C.Exec(s, a[0]), a[1..], b);
    }
  }

  lemma RunTwo(s: C.State, a: C.Label, b: C.Label)
    ensures C.Run(s, [a, b]) == C.Exec(C.Exec(s, a), b)
  {
    assert [a, b][1..] == [b] && [b][1..] == [];
    assert C.Run(C.Exec(s, a), [b]) == C.Exec(C.Exec(s, a), b);
  }

  /** A new file is renamed into place, and goroutine `u` reloads it. */
  function PublishAndReload(f: C.Inode, v: C.Version, u: nat): seq<C.Label> {
    var a := C.Act(u, true);
    [C.Publish(f, v), C.CallReload(u)] + [a, a] + [a, a] + [a, a, a]
  }

  lemma Publishes(s: C.State, f: C.Inode, v: C.Version, u: nat)
    requires u < |s.phases| && s.phases[u].Idle? && f !in s.inodes && v > s.newest
    ensures C.Run(s, [C.Publish(f, v), C.CallReload(u)]) ==
            s.(inodes := s.inodes[f := v], path := Some(f), newest := v,
               phases := s.phases[u := C.ReloadStart(C.Direct)])
  {
    RunTwo(s, C.Publish(f, v), C.CallReload(u));
  }

  lemma OpensFile(s: C.State, f: C.Inode, u: nat)
    requires C.CanLock(s) && u < |s.phases| && s.phases[u] == C.ReloadStart(C.Direct) && s.path == Some(f)
    ensures var a := C.Act(u, true);
            C.Run(s, [a, a]) == s.(writer := Some(u), phases := s.phases[u := C.ReloadDecode(C.Direct, f)])
  {
    var a := C.Act(u, true);
    RunTwo(s, a, a);
    assert C.Exec(s, a).phases[u] == C.ReloadOpen(C.Direct);
    assert C.Exec(C.Exec(s, a), a).phases == s.phases[u := C.ReloadDecode(C.Direct, f)];
  }

  lemma AssignsFile(s: C.State, f: C.Inode, u: nat)
    requires u < |s.phases| && s.phases[u] == C.ReloadDecode(C.Direct, f) && f in s.inodes
    ensures var a := C.Act(u, true);
            C.Run(s, [a, a]) == s.(config := s.inodes[f], phases := s.phases[u := C.ReloadStat(C.Direct, f)])
  {
    var a := C.Act(u, true);
    RunTwo(s, a, a);
    assert C.Exec(s, a).phases[u] == C.ReloadAssign(C.Direct, f, s.inodes[f]);
    assert C.Exec(C.Exec(s, a), a).phases == s.phases[u := C.ReloadStat(C.Direct, f)];
  }

  lemma StampsFile(s: C.State, f: C.Inode, u: nat)
    requires u < |s.phases| && s.phases[u] == C.ReloadStat(C.Direct, f) && f in s.inodes
    ensures var a := C.Act(u, true);
            C.Run(s, [a, a, a]) == s.(lastLoaded := s.inodes[f], writer := None, phases := s.phases[u := C.Idle])
  {
    var a := C.Act(u, true);
    C.RunThree(s, a);
    var s1 := C.Exec(s, a);
    assert s1.phases[u] == C.ReloadStamp(C.Direct, s.inodes[f]);
    var s2 := C.Exec(s1, a);
    assert s2.phases[u] == C.ReloadUnlock(C.Direct, false);
    assert C.Exec(s2, a).phases == s.phases[u := C.Idle];
  }

  /** Afterwards the cache holds the new version, under its own stamp, and everybody is where they were. */
  lemma ReloadsPublished(s: C.State, f: C.Inode, v: C.Version, u: nat)
    requires C.CanLock(s) && u < |s.phases| && s.phases[u].Idle? && f !in s.inodes && v > s.newest
    ensures C.Run(s, PublishAndReload(f, v, u)) ==
            s.(inodes := s.inodes[f := v], path := Some(f), newest := v, config := v, lastLoaded := v)
  {
    var a := C.Act(u, true);
    var open := [C.Publish(f, v), C.CallReload(u)];
    RunConcat(s, open + [a, a] + [a, a], [a, a, a]);
    RunConcat(s, open + [a, a], [a, a]);
    RunConcat(s, open, [a, a]);
    Publishes(s, f, v, u);
    var s0 := C.Run(s, open);
    OpensFile(s0, f, u);
    var s1 := C.Run(s0, [a, a]);
    AssignsFile(s1, f, u);
    var s2 := C.Run(s1, [a, a]);
    StampsFile(s2, f, u);
    assert C.Run(s2, [a, a, a]).phases == s.phases;
  }

  /** Goroutine 0 calls `Get` and reaches its return without a reload. */
  function GetWithoutReload(): seq<C.Label> {
    [C.CallGet(0), C.Act(0, true)] + [C.Act(0, true), C.Act(0, true)]
  }

  lemma GetReturnsCached(s: C.State)
    requires C.CanRLock(s) && |s.phases| > 0 && s.phases[0].Idle? && s.path.Some? && s.path.value in s.inodes
    requires s.inodes[s.path.value] <= s.lastLoaded
    ensures C.Run(s, GetWithoutReload()) ==
            s.(readers := s.readers + {0}, phases := s.phases[0 := C.GetReturn(s.inodes[s.path.value], false)])
  {
    var a := C.Act(0, true);
    RunConcat(s, [C.CallGet(0), a], [a, a]);
    RunTwo(s, C.CallGet(0), a);
    var s1 := C.Exec(C.Exec(s, C.CallGet(0)), a);
    assert s1.phases == s.phases[0 := C.GetStat];
    RunTwo(s1, a, a);
    assert C.Exec(s1, a).phases[0] == C.GetCheck(Some(s.inodes[s.path.value]));
    assert C.Exec(C.Exec(s1, a), a).phases == s.phases[0 := C.GetReturn(s.inodes[s.path.value], false)];
  }

  /** From the start of the program: version 1 is loaded, and the reconciler (goroutine 0) is about to fetch it. */
  function BeforeFetch(): C.State { C.Run(C.Init(2), PublishAndReload(0, 1, 1) + GetWithoutReload()) }

  lemma BeforeFetchIs()
    ensures BeforeFetch() ==
            C.State(map[0 := 1], Some(0), 1, 1, 1, None, {0}, [C.GetReturn(1, false), C.Idle]) && C.Inv(BeforeFetch())
  {
    var s := C.Init(2);
    assert s.phases == [C.Idle, C.Idle];
    C.InitBase(2);
    RunConcat(s, PublishAndReload(0, 1, 1), GetWithoutReload());
    ReloadsPublished(s, 0, 1, 1);
    var s1 := C.Run(s, PublishAndReload(0, 1, 1));
    assert s1 == C.State(map[0 := 1], Some(0), 1, 1, 1, None, {}, [C.Idle, C.Idle]);
    GetReturnsCached(s1);
    assert [C.Idle, C.Idle][0 := C.GetReturn(1, false)] == [C.GetReturn(1, false), C.Idle];
  }

  lemma FetchedState()
    ensures Fetched(BeforeFetch(), 0) ==
            C.State(map[0 := 1], Some(0), 1, 1, 1, None, {}, [C.Returned(1, false, 1), C.Idle])
  {
    BeforeFetchIs();
    assert [C.GetReturn(1, false), C.Idle][0 := C.Returned(1, false, 1)] == [C.Returned(1, false, 1), C.Idle];
  }

  /** Version 2 is published and reloaded between the gate and the copy: the call applies version 1 under stamp 2, so
      that a later call, which does fetch version 2, is gated off. */
  lemma NewerVersionIsSkipped(d: B.Discord)
    ensures var toStamp := PublishAndReload(1, 2, 1);
            && Reading(BeforeFetch(), 0, [], toStamp)
            && CallAt(BeforeFetch(), 0, [], toStamp, d) == B.Call(1, 1, 2, d)
            && C.Run(Fetched(BeforeFetch(), 0), toStamp).config == 2
            && B.Updates(B.State(map[], map[], 0, 0, {}), B.Call(1, 1, 2, d))
            && forall s: B.State :: s.updatedAt == 2 ==> !B.Updates(s, B.Call(2, 2, 2, d))
  {
    BeforeFetchIs();
    FetchedState();
    var s := Fetched(BeforeFetch(), 0);
    var toStamp := PublishAndReload(1, 2, 1);
    ReloadsPublished(s, 1, 2, 1);
    C.ReplacementsAreUntorn(s, toStamp);
  }
}
