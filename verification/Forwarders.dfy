/** The log-forwarder reconciler (`SyncLogForwarders` in `internal/discord/forwarder.go`). */
module Forwarders {
  import opened GoStrings
  import opened Config

  /** One running forwarder: the context that stops it, and the settings it was started with. */
  datatype Forwarder = Forwarder(ctx: nat, logSetting: string, webhook: string)

  /** Contexts are numbered as they are created: `0 .. next` have been started. */
  datatype State = State(active: map<string, Forwarder>, next: nat, cancelled: set<nat>)

  datatype Settings = Settings(logSetting: string, webhook: string)

  predicate Wanted(s: Server) {
    s.discord.Some? && s.discord.value.logSetting != "" && s.discord.value.webhook != ""
  }

  function SettingsOf(s: Server): Settings
    requires Wanted(s)
  {
    Settings(s.discord.value.logSetting, s.discord.value.webhook)
  }

  /** The servers that ask for forwarding, with their settings. */
  function Desired(servers: map<string, Server>): map<string, Settings> {
    map n | n in servers && Wanted(servers[n]) :: SettingsOf(servers[n])
  }

  function Current(f: Forwarder): Settings { Settings(f.logSetting, f.webhook) }

  /** A forwarder that already runs as desired. */
  predicate Kept(active: map<string, Forwarder>, desired: map<string, Settings>, n: string) {
    n in active && n in desired && Current(active[n]) == desired[n]
  }

  /** The contexts started but not cancelled are exactly those of the active forwarders, one per server. */
  ghost predicate Conserved(s: State) {
    && (forall n :: n in s.active ==> s.active[n].ctx < s.next && s.active[n].ctx !in s.cancelled)
    && (forall m, n :: m in s.active && n in s.active && m != n ==> s.active[m].ctx != s.active[n].ctx)
    && (forall c :: c in s.cancelled ==> c < s.next)
    && (forall c: nat :: c < s.next && c !in s.cancelled ==> exists n :: n in s.active && s.active[n].ctx == c)
  }

  /** The servers that need a new forwarder. */
  function Restarts(active: map<string, Forwarder>, desired: map<string, Settings>): set<string> {
    set n | n in desired && !Kept(active, desired, n)
  }

  /** The contexts that must go. */
  function Stops(active: map<string, Forwarder>, desired: map<string, Settings>): set<nat> {
    set n | n in active && !Kept(active, desired, n) :: active[n].ctx
  }

  /** What one pass does to the live forwarders, in whatever order it visits the servers. */
  ghost predicate Pass(s: State, desired: map<string, Settings>, s': State) {
    && s'.active.Keys == desired.Keys
    && (forall n :: n in s'.active ==> NodeOk(s, desired, desired.Keys, n, s'.active[n]))
    && s'.next == s.next + |Restarts(s.active, desired)|
    && s'.cancelled == s.cancelled + Stops(s.active, desired)
  }

  class BotManager {
    var active: map<string, Forwarder>
    var next: nat
    ghost var cancelled: set<nat>

    constructor ()
      ensures Snapshot() == State(map[], 0, {}) && Conserved(Snapshot())
    {
      active := map[];
      next := 0;
      cancelled := {};
    }

    ghost function Snapshot(): State reads this { State(active, next, cancelled) }

    method Cancel(f: Forwarder)
      modifies this`cancelled
      ensures cancelled == old(cancelled) + {f.ctx}
    {
      cancelled := cancelled + {f.ctx};
    }

    method Start(name: string, settings: Settings)
      modifies this`active, this`next
      ensures active == old(active)[name := Forwarder(old(next), settings.logSetting, settings.webhook)]
      ensures next == old(next) + 1
    {
      active := active[name := Forwarder(next, settings.logSetting, settings.webhook)];
      next := next + 1;
    }

    /** The body of the first loop for a server that wants forwarding. */
    method VisitServer(name: string, settings: Settings)
      modifies this
      ensures Snapshot() == Visit(old(Snapshot()), name, settings)
    {
      var running := name in active;
      if running && Current(active[name]) != settings {
        Cancel(active[name]);
        active := active - {name};
        running := false;
      }
      if !running {
        Start(name, settings);
      }
    }

    /** The second loop: stop what is no longer wanted. */
    method StopUnwanted(activeServers: set<string>)
      modifies this
      ensures Snapshot() == Stopped(old(Snapshot()), activeServers)
    {
      ghost var mid := Snapshot();
      var names := active.Keys;
      while names != {}
        invariant names <= active.Keys
        invariant active == mid.active - Gone(mid, activeServers, names)
        invariant next == mid.next
        invariant cancelled == mid.cancelled + ContextsOf(mid, Gone(mid, activeServers, names))
      {
        var name :| name in names;
        ghost var gone := Gone(mid, activeServers, names);
        names := names - {name};
        if name !in activeServers {
          assert Gone(mid, activeServers, names) == gone + {name};
          assert ContextsOf(mid, gone + {name}) == ContextsOf(mid, gone) + {mid.active[name].ctx};
          Cancel(active[name]);
          active := active - {name};
        } else {
          assert Gone(mid, activeServers, names) == gone;
        }
      }
      assert Gone(mid, activeServers, {}) == mid.active.Keys - activeServers;
    }

    /** The first loop: bring every server that wants forwarding to its settings. */
    method StartWanted(servers: map<string, Server>) returns (activeServers: set<string>)
      requires Conserved(Snapshot())
      modifies this
      ensures activeServers == Desired(servers).Keys
      ensures Middle(old(Snapshot()), Desired(servers), activeServers, Snapshot())
    {
      ghost var s := Snapshot();
      ghost var desired := Desired(servers);
      activeServers := {};
      var rest := servers.Keys;
      StartMiddle(s, desired);
      while rest != {}
        invariant rest <= servers.Keys
        invariant forall n :: n in activeServers <==> n in desired && n !in rest
        invariant Middle(s, desired, activeServers, Snapshot())
      {
        var name :| name in rest;
        rest := rest - {name};
        if Wanted(servers[name]) {
          assert name in desired && desired[name] == SettingsOf(servers[name]);
          VisitStep(s, desired, activeServers, Snapshot(), name);
          VisitServer(name, SettingsOf(servers[name]));
          activeServers := activeServers + {name};
        }
      }
    }

    method SyncLogForwarders(servers: map<string, Server>)
      requires Conserved(Snapshot())
      modifies this
      ensures Pass(old(Snapshot()), Desired(servers), Snapshot())
      ensures Conserved(Snapshot())
    {
      ghost var s := Snapshot();
      var activeServers := StartWanted(servers);
      Finish(s, Desired(servers), Snapshot());
      StopConserves(Snapshot(), activeServers);
      StopUnwanted(activeServers);
    }
  }

  /** The servers outside `activeServers` that the second loop has visited. */
  ghost function Gone(mid: State, activeServers: set<string>, names: set<string>): set<string> {
    mid.active.Keys - names - activeServers
  }

  ghost function ContextsOf(m: State, names: set<string>): set<nat> {
    set n | n in m.active && n in names :: m.active[n].ctx
  }

  ghost function Stopped(m: State, activeServers: set<string>): State {
    State(m.active - (m.active.Keys - activeServers), m.next,
          m.cancelled + ContextsOf(m, m.active.Keys - activeServers))
  }

  /** The state after visiting one server with its settings. */
  ghost function Visit(m: State, name: string, settings: Settings): State {
    if name in m.active && Current(m.active[name]) == settings then m
    else
      State(m.active[name := Forwarder(m.next, settings.logSetting, settings.webhook)], m.next + 1,
            m.cancelled + ContextsOf(m, {name}))
  }

  /** The forwarder of `n` once the servers in `visited` have been dealt with. */
  ghost predicate NodeOk(s: State, desired: map<string, Settings>, visited: set<string>, n: string, f: Forwarder) {
    if n in visited && n in desired then
      && Current(f) == desired[n]
      && (if Kept(s.active, desired, n) then f == s.active[n] else f.ctx >= s.next)
    else n in s.active && f == s.active[n]
  }

  ghost function Dropped(s: State, desired: map<string, Settings>, visited: set<string>): set<string> {
    set n | n in s.active && n in visited && !Kept(s.active, desired, n)
  }

  /** Between two visits of the first loop: the visited servers are as desired, the others as before. */
  ghost predicate Middle(s: State, desired: map<string, Settings>, visited: set<string>, m: State) {
    && NodesOk(s, desired, visited, m.active)
    && m.next == s.next + |Restarts(s.active, desired) * visited|
    && m.cancelled == s.cancelled + ContextsOf(s, Dropped(s, desired, visited))
    && Conserved(m)
  }

  ghost predicate NodesOk(s: State, desired: map<string, Settings>, visited: set<string>,
                          active: map<string, Forwarder>) {
    && visited <= desired.Keys
    && active.Keys == s.active.Keys + visited
    && (forall n :: n in active ==> NodeOk(s, desired, visited, n, active[n]))
  }

  lemma StartMiddle(s: State, desired: map<string, Settings>)
    requires Conserved(s)
    ensures Middle(s, desired, {}, s)
  {
    assert Restarts(s.active, desired) * {} == {};
    assert Dropped(s, desired, {}) == {};
    assert ContextsOf(s, {}) == {};
  }

  lemma VisitConserves(m: State, name: string, settings: Settings)
    requires Conserved(m)
    ensures Conserved(Visit(m, name, settings))
  {
    var v := Visit(m, name, settings);
    if v != m {
      forall c: nat | c < v.next && c !in v.cancelled
        ensures exists n :: n in v.active && v.active[n].ctx == c
      {
        if c == m.next {
          assert v.active[name].ctx == c;
        } else {
          var n :| n in m.active && m.active[n].ctx == c;
          assert n == name ==> c in ContextsOf(m, {name});
          assert v.active[n] == m.active[n];
        }
      }
    }
  }

  lemma VisitNodes(s: State, desired: map<string, Settings>, visited: set<string>, m: State, name: string)
    requires NodesOk(s, desired, visited, m.active) && name in desired && name !in visited && s.next <= m.next
    ensures NodesOk(s, desired, visited + {name}, Visit(m, name, desired[name]).active)
    ensures name in m.active <==> name in s.active
    ensures name in s.active ==> m.active[name] == s.active[name]
  {
    if name in m.active {
      assert NodeOk(s, desired, visited, name, m.active[name]);
    }
    var v := Visit(m, name, desired[name]).active;
    forall n | n in v
      ensures NodeOk(s, desired, visited + {name}, n, v[n])
    {
      if n != name {
        assert v[n] == m.active[n] && NodeOk(s, desired, visited, n, m.active[n]);
      }
    }
  }

  lemma VisitStep(s: State, desired: map<string, Settings>, visited: set<string>, m: State, name: string)
    requires Middle(s, desired, visited, m) && name in desired && name !in visited
    ensures Middle(s, desired, visited + {name}, Visit(m, name, desired[name]))
  {
    VisitNodes(s, desired, visited, m, name);
    VisitConserves(m, name, desired[name]);
    VisitCounts(s, desired, visited, m, name);
  }

  lemma VisitCounts(s: State, desired: map<string, Settings>, visited: set<string>, m: State, name: string)
    requires name in desired && name !in visited
    requires (name in m.active <==> name in s.active) && (name in s.active ==> m.active[name] == s.active[name])
    requires m.next == s.next + |Restarts(s.active, desired) * visited|
    requires m.cancelled == s.cancelled + ContextsOf(s, Dropped(s, desired, visited))
    ensures var v := Visit(m, name, desired[name]);
            && v.next == s.next + |Restarts(s.active, desired) * (visited + {name})|
            && v.cancelled == s.cancelled + ContextsOf(s, Dropped(s, desired, visited + {name}))
  {
    var r := Restarts(s.active, desired);
    if Kept(s.active, desired, name) {
      assert r * (visited + {name}) == r * visited;
      assert Dropped(s, desired, visited + {name}) == Dropped(s, desired, visited);
    } else {
      assert r * (visited + {name}) == r * visited + {name};
      DropOne(s, desired, visited, m, name);
    }
  }

  lemma DropOne(s: State, desired: map<string, Settings>, visited: set<string>, m: State, name: string)
    requires !Kept(s.active, desired, name) && (name in m.active <==> name in s.active)
    requires name in s.active ==> m.active[name] == s.active[name]
    ensures ContextsOf(s, Dropped(s, desired, visited + {name})) ==
            ContextsOf(s, Dropped(s, desired, visited)) + ContextsOf(m, {name})
  {
    forall c: nat
      ensures c in ContextsOf(s, Dropped(s, desired, visited + {name})) <==>
              c in ContextsOf(s, Dropped(s, desired, visited)) + ContextsOf(m, {name})
    {
      if name in s.active && c == s.active[name].ctx {
        assert name in Dropped(s, desired, visited + {name});
      }
      if c in ContextsOf(s, Dropped(s, desired, visited)) {
        var n :| n in s.active && n in Dropped(s, desired, visited) && s.active[n].ctx == c;
        assert n in Dropped(s, desired, visited + {name});
      }
    }
  }

  lemma StopConserves(m: State, names: set<string>)
    requires Conserved(m)
    ensures Conserved(Stopped(m, names))
  {
    var end := Stopped(m, names);
    forall c: nat | c < end.next && c !in end.cancelled
      ensures exists n :: n in end.active && end.active[n].ctx == c
    {
      var n :| n in m.active && m.active[n].ctx == c;
      assert n in names;
      assert end.active[n].ctx == c;
    }
  }

  /** The second loop completes the pass. */
  lemma Finish(s: State, desired: map<string, Settings>, mid: State)
    requires NodesOk(s, desired, desired.Keys, mid.active)
    requires mid.next == s.next + |Restarts(s.active, desired) * desired.Keys|
    requires mid.cancelled == s.cancelled + ContextsOf(s, Dropped(s, desired, desired.Keys))
    ensures Pass(s, desired, Stopped(mid, desired.Keys))
  {
    FinishNodes(s, desired, mid);
    FinishStops(s, desired, mid);
    RestartsAreDesired(s.active, desired);
    var a, b := ContextsOf(s, Dropped(s, desired, desired.Keys)), ContextsOf(mid, mid.active.Keys - desired.Keys);
    UnionAssociates(s.cancelled, a, b);
  }

  lemma UnionAssociates(a: set<nat>, b: set<nat>, c: set<nat>)
    ensures a + b + c == a + (b + c)
  {
  }

  lemma RestartsAreDesired(active: map<string, Forwarder>, desired: map<string, Settings>)
    ensures Restarts(active, desired) * desired.Keys == Restarts(active, desired)
  {
  }

  lemma FinishNodes(s: State, desired: map<string, Settings>, mid: State)
    requires NodesOk(s, desired, desired.Keys, mid.active)
    ensures var active := Stopped(mid, desired.Keys).active;
            active.Keys == desired.Keys && forall n :: n in active ==> NodeOk(s, desired, desired.Keys, n, active[n])
  {
  }

  lemma FinishStops(s: State, desired: map<string, Settings>, mid: State)
    requires NodesOk(s, desired, desired.Keys, mid.active)
    ensures ContextsOf(s, Dropped(s, desired, desired.Keys)) + ContextsOf(mid, mid.active.Keys - desired.Keys)
         == Stops(s.active, desired)
  {
    var kept := ContextsOf(s, Dropped(s, desired, desired.Keys));
    var gone := ContextsOf(mid, mid.active.Keys - desired.Keys);
    forall c: nat
      ensures c in kept + gone <==> c in Stops(s.active, desired)
    {
      if c in gone {
        var n :| n in mid.active && n in mid.active.Keys - desired.Keys && mid.active[n].ctx == c;
        assert NodeOk(s, desired, desired.Keys, n, mid.active[n]);
      }
      if c in Stops(s.active, desired) {
        var n :| n in s.active && !Kept(s.active, desired, n) && s.active[n].ctx == c;
        if n in desired {
          assert n in Dropped(s, desired, desired.Keys);
        } else {
          assert NodeOk(s, desired, desired.Keys, n, mid.active[n]);
        }
      }
    }
  }

  /** A pass in terms of the configuration: a server has a forwarder exactly if it has a discord section in which both
      the log setting and the webhook are given, and the forwarder runs with just these. */
  lemma PassFollowsConfig(s: State, servers: map<string, Server>, s': State, n: string)
    requires Pass(s, Desired(servers), s')
    ensures n in s'.active <==>
            && n in servers && servers[n].discord.Some?
            && servers[n].discord.value.logSetting != "" && servers[n].discord.value.webhook != ""
    ensures n in s'.active ==>
            && s'.active[n].logSetting == servers[n].discord.value.logSetting
            && s'.active[n].webhook == servers[n].discord.value.webhook
  {
    if n in s'.active {
      assert NodeOk(s, Desired(servers), Desired(servers).Keys, n, s'.active[n]);
    }
  }

  /** Which forwarders a pass replaces: those whose server has changed either field, or is gone. */
  lemma PassKeepsUnchanged(s: State, servers: map<string, Server>, s': State, n: string)
    requires Pass(s, Desired(servers), s') && n in s.active
    ensures (n in s'.active && s'.active[n] == s.active[n]) || s.active[n].ctx in s'.cancelled
    ensures (n in servers && servers[n].discord.Some?
             && servers[n].discord.value.logSetting == s.active[n].logSetting != ""
             && servers[n].discord.value.webhook == s.active[n].webhook != "") ==>
              n in s'.active && s'.active[n] == s.active[n]
  {
    if Kept(s.active, Desired(servers), n) {
      assert NodeOk(s, Desired(servers), Desired(servers).Keys, n, s'.active[n]);
    }
  }

  // ---------- any sequence of configurations ----------

  /** A second pass over the same configuration starts and cancels nothing. */
  lemma PassIdempotent(s: State, desired: map<string, Settings>, s': State, s'': State)
    requires Pass(s, desired, s') && Pass(s', desired, s'')
    ensures s'' == s'
  {
    forall n | n in desired
      ensures Kept(s'.active, desired, n)
    {
    }
    assert Restarts(s'.active, desired) == {};
    assert Stops(s'.active, desired) == {};
    assert s''.active == s'.active;
  }

  /** One pass, as the method performs it. */
  ghost predicate PassStep(s: State, servers: map<string, Server>, s': State) {
    Pass(s, Desired(servers), s') && Conserved(s')
  }

  ghost predicate Passes(states: seq<State>, configs: seq<map<string, Server>>) {
    && |states| == |configs| + 1
    && forall i :: 0 <= i < |configs| ==> PassStep(states[i], configs[i], states[i + 1])
  }

  ghost predicate Wants(servers: map<string, Server>, n: string, want: Settings) {
    n in Desired(servers) && Desired(servers)[n] == want
  }

  /** `n` runs with `want` afterwards, as the same forwarder if it did so before. */
  ghost predicate Runs(s: State, s': State, n: string, want: Settings) {
    && n in s'.active && Current(s'.active[n]) == want && s'.active[n].ctx !in s'.cancelled
    && (n in s.active && Current(s.active[n]) == want ==> s'.active[n] == s.active[n])
  }

  lemma PassRuns(s: State, servers: map<string, Server>, s': State, n: string, want: Settings)
    requires PassStep(s, servers, s') && Wants(servers, n, want)
    ensures Runs(s, s', n, want)
  {
    assert NodeOk(s, Desired(servers), Desired(servers).Keys, n, s'.active[n]);
  }

  lemma {:induction false} RunsOn(states: seq<State>, n: string, want: Settings, a: nat, b: nat)
    requires a < b < |states| && forall i :: a <= i < b ==> Runs(states[i], states[i + 1], n, want)
    ensures n in states[a + 1].active && Runs(states[a + 1], states[b], n, want)
    decreases b - a
  {
    assert Runs(states[b - 1], states[b], n, want);
    if b > a + 1 {
      RunsOn(states, n, want, a, b - 1);
    }
  }

  /** A server whose settings stay the same keeps its forwarder, uncancelled, however the other servers change. */
  lemma UnchangedKeepsForwarder(states: seq<State>, configs: seq<map<string, Server>>, n: string, want: Settings,
                                a: nat, b: nat)
    requires Passes(states, configs) && a < b <= |configs|
    requires forall i :: a <= i < b ==> Wants(configs[i], n, want)
    ensures n in states[a + 1].active && n in states[b].active && states[b].active[n] == states[a + 1].active[n]
    ensures Current(states[b].active[n]) == want && states[b].active[n].ctx !in states[b].cancelled
  {
    forall i | a <= i < b
      ensures Runs(states[i], states[i + 1], n, want)
    {
      assert PassStep(states[i], configs[i], states[i + 1]);
      PassRuns(states[i], configs[i], states[i + 1], n, want);
    }
    RunsOn(states, n, want, a, b);
    assert Runs(states[a], states[a + 1], n, want);
  }

  /** No pass cancels or replaces a forwarder that already runs as desired. */
  lemma WantedIsNotCancelled(states: seq<State>, configs: seq<map<string, Server>>, i: nat, n: string)
    requires Passes(states, configs) && i < |configs| && Kept(states[i].active, Desired(configs[i]), n)
    ensures n in states[i + 1].active && states[i + 1].active[n] == states[i].active[n]
    ensures states[i].active[n].ctx !in states[i + 1].cancelled
  {
    assert PassStep(states[i], configs[i], states[i + 1]);
    PassRuns(states[i], configs[i], states[i + 1], n, Desired(configs[i])[n]);
  }

  /** A forwarder of `s'` is the one the server had in `s`, or was started later, with a number never used before. */
  ghost predicate OldOrNew(s: State, s': State, n: string)
    requires n in s'.active
  {
    (n in s.active && s'.active[n] == s.active[n]) || s'.active[n].ctx >= s.next
  }

  /** Over any number of passes cancelled contexts stay cancelled, and no number is used again. */
  lemma {:induction false} CancelledForGood(states: seq<State>, configs: seq<map<string, Server>>, a: nat, b: nat)
    requires Passes(states, configs) && a <= b <= |configs|
    ensures states[a].cancelled <= states[b].cancelled && states[a].next <= states[b].next
    ensures forall n :: n in states[b].active ==> OldOrNew(states[a], states[b], n)
    decreases b - a
  {
    if a == b {
    } else {
      CancelledForGood(states, configs, a, b - 1);
      assert PassStep(states[b - 1], configs[b - 1], states[b]);
      var desired := Desired(configs[b - 1]);
      forall n | n in states[b].active
        ensures OldOrNew(states[a], states[b], n)
      {
        assert NodeOk(states[b - 1], desired, desired.Keys, n, states[b].active[n]);
      }
    }
  }
}
