/** The bot session reconciler (`SyncBots` in `internal/discord/bot.go`). */
module Bots {
  import opened GoStrings
  import opened Config

  /** Sessions are numbered as they are opened; `0 .. next` have been opened. A token whose last attempt to open
      failed maps to `None`. */
  datatype State = State(sessions: map<string, Option<nat>>, channels: map<string, string>, updatedAt: nat,
                         next: nat, closed: set<nat>)

  predicate HasToken(s: Server) { s.discord.Some? && s.discord.value.token != "" }
  predicate HasChannel(s: Server) { s.discord.Some? && s.discord.value.channel != "" }

  function Tokens(servers: map<string, Server>): set<string> {
    set n | n in servers && HasToken(servers[n]) :: servers[n].discord.value.token
  }

  /** What Discord answers during one pass: the tokens for which no session object is made, and those that do not
      open. */
  datatype Discord = Discord(refused: set<string>, unreachable: set<string>)

  /** Every session ever opened is the session of exactly one token, or has been closed. */
  ghost predicate Conserved(s: State) {
    && (forall t :: t in s.sessions && s.sessions[t].Some? ==>
          s.sessions[t].value < s.next && s.sessions[t].value !in s.closed)
    && (forall t, u :: t in s.sessions && u in s.sessions && t != u && s.sessions[t].Some? ==>
          s.sessions[t] != s.sessions[u])
    && (forall i :: i in s.closed ==> i < s.next)
    && (forall i: nat :: i < s.next && i !in s.closed ==> exists t :: t in s.sessions && s.sessions[t] == Some(i))
  }

  /** The entry of token `t` after the start loop has dealt with it. */
  ghost predicate Started(s: State, d: Discord, t: string, sessions: map<string, Option<nat>>) {
    if t in s.sessions && s.sessions[t].Some? then t in sessions && sessions[t] == s.sessions[t]
    else if t in d.refused then (t in sessions <==> t in s.sessions) && (t in sessions ==> sessions[t].None?)
    else t in sessions &&
         if t in d.unreachable then sessions[t].None? else sessions[t].Some? && sessions[t].value >= s.next
  }

  predicate ChannelsOk(servers: map<string, Server>, channels: map<string, string>) {
    && (forall c :: c in channels ==>
          channels[c] in servers && HasChannel(servers[channels[c]]) && servers[channels[c]].discord.value.channel == c)
    && (forall n :: n in servers && HasChannel(servers[n]) ==> servers[n].discord.value.channel in channels)
  }

  ghost function SessionsOf(s: State, tokens: set<string>): set<nat> {
    set t | t in s.sessions && t in tokens && s.sessions[t].Some? :: s.sessions[t].value
  }

  /** What a pass that is not gated off does, in whatever order it visits servers and tokens. */
  ghost predicate Pass(s: State, servers: map<string, Server>, stamp: nat, d: Discord, s': State) {
    && s'.updatedAt == stamp
    && ChannelsOk(servers, s'.channels)
    && s'.sessions.Keys <= Tokens(servers)
    && (forall t :: t in Tokens(servers) ==> Started(s, d, t, s'.sessions))
    && s'.closed == s.closed + SessionsOf(s, s.sessions.Keys - Tokens(servers))
    && s.next <= s'.next
  }

  class BotManager {
    var sessions: map<string, Option<nat>>
    var channels: map<string, string>
    var updatedAt: nat
    var next: nat
    ghost var closed: set<nat>

    constructor ()
      ensures Snapshot() == State(map[], map[], 0, 0, {}) && Conserved(Snapshot())
    {
      sessions, channels, updatedAt, next := map[], map[], 0, 0;
      closed := {};
    }

    ghost function Snapshot(): State reads this { State(sessions, channels, updatedAt, next, closed) }

    /** The loop over the servers: channels and tokens of the configuration. For a channel that two servers name,
        the server visited last wins. */
    method Collect(servers: map<string, Server>) returns (newChannels: map<string, string>, activeTokens: set<string>)
      ensures ChannelsOk(servers, newChannels) && activeTokens == Tokens(servers)
    {
      newChannels, activeTokens := map[], {};
      var rest := servers.Keys;
      while rest != {}
        invariant rest <= servers.Keys
        invariant forall c :: c in newChannels ==>
                    newChannels[c] in servers && HasChannel(servers[newChannels[c]])
                    && servers[newChannels[c]].discord.value.channel == c
        invariant forall n :: n in servers && n !in rest && HasChannel(servers[n]) ==>
                    servers[n].discord.value.channel in newChannels
        invariant activeTokens ==
                  set n | n in servers && n !in rest && HasToken(servers[n]) :: servers[n].discord.value.token
      {
        var name :| name in rest;
        rest := rest - {name};
        var server := servers[name];
        if server.discord.Some? {
          if server.discord.value.channel != "" {
            newChannels := newChannels[server.discord.value.channel := name];
          }
          if server.discord.value.token != "" {
            activeTokens := activeTokens + {server.discord.value.token};
          }
        }
      }
    }

    /** One attempt of the start loop. */
    method StartToken(token: string, d: Discord)
      modifies this`sessions, this`next
      ensures StateAfterStart(old(Snapshot()), token, d) == Snapshot()
    {
      if token !in sessions || sessions[token].None? {
        if token in d.refused {
          return;
        }
        if token in d.unreachable {
          sessions := sessions[token := None];
          return;
        }
        sessions := sessions[token := Some(next)];
        next := next + 1;
      }
    }

    method StartTokens(activeTokens: set<string>, d: Discord)
      requires Conserved(Snapshot())
      modifies this`sessions, this`next
      ensures Conserved(Snapshot()) && PartlyStarted(old(Snapshot()), d, activeTokens, Snapshot())
    {
      ghost var s := Snapshot();
      var rest := activeTokens;
      while rest != {}
        invariant rest <= activeTokens
        invariant Conserved(Snapshot())
        invariant PartlyStarted(s, d, activeTokens - rest, Snapshot())
      {
        var token :| token in rest;
        assert activeTokens - rest == activeTokens - (rest - {token}) - {token};
        rest := rest - {token};
        StartConserves(Snapshot(), token, d);
        StartStep(s, d, activeTokens - rest - {token}, Snapshot(), token);
        StartToken(token, d);
        assert activeTokens - rest - {token} + {token} == activeTokens - rest;
      }
    }

    /** The removal loop: close and forget what is no longer configured. */
    method StopTokens(activeTokens: set<string>)
      modifies this`sessions, this`closed
      ensures Snapshot() == StateAfterStop(old(Snapshot()), activeTokens)
    {
      ghost var s := Snapshot();
      var names := sessions.Keys;
      while names != {}
        invariant names <= sessions.Keys
        invariant sessions == s.sessions - (s.sessions.Keys - names - activeTokens)
        invariant closed == s.closed + SessionsOf(s, s.sessions.Keys - names - activeTokens)
      {
        var token :| token in names;
        ghost var gone := s.sessions.Keys - names - activeTokens;
        names := names - {token};
        if token !in activeTokens {
          assert s.sessions.Keys - names - activeTokens == gone + {token};
          ghost var session := sessions[token];
          closed := closed + if session.Some? then {session.value} else {};
          sessions := sessions - {token};
          assert SessionsOf(s, gone + {token}) == SessionsOf(s, gone) + if session.Some? then {session.value} else {};
        } else {
          assert s.sessions.Keys - names - activeTokens == gone;
        }
      }
      assert s.sessions.Keys - {} - activeTokens == s.sessions.Keys - activeTokens;
    }

    /** `loaded` is `LastLoaded` as the gate reads it, `stamp` as it is read again for `ChannelUpdatedAt`. */
    method SyncBots(servers: map<string, Server>, loaded: nat, stamp: nat, d: Discord)
      requires Conserved(Snapshot())
      requires forall t :: t in sessions || t in Tokens(servers) ==> |t| >= 4
      modifies this
      ensures Conserved(Snapshot())
      ensures old(updatedAt) >= loaded ==> Snapshot() == old(Snapshot())
      ensures old(updatedAt) < loaded ==> Pass(old(Snapshot()), servers, stamp, d, Snapshot())
    {
      if updatedAt >= loaded {
        return;
      }
      ghost var s := Snapshot();
      updatedAt := stamp;
      var newChannels, activeTokens := Collect(servers);
      channels := newChannels;
      ghost var stamped := Snapshot();
      StartTokens(activeTokens, d);
      StopConserves(Snapshot(), activeTokens);
      FinishPass(s, stamped, servers, d, Snapshot());
      StopTokens(activeTokens);
    }
  }

  /** The removal loop completes a pass. `s` is the state before, `stamped` the one with the new stamp and channels. */
  lemma FinishPass(s: State, stamped: State, servers: map<string, Server>, d: Discord, m: State)
    requires stamped == State(s.sessions, m.channels, m.updatedAt, s.next, s.closed) && m.closed == s.closed
    requires PartlyStarted(stamped, d, Tokens(servers), m) && ChannelsOk(servers, m.channels)
    ensures Pass(s, servers, m.updatedAt, d, StateAfterStop(m, Tokens(servers)))
  {
    var tokens := Tokens(servers);
    var end := StateAfterStop(m, tokens);
    assert SessionsOf(m, m.sessions.Keys - tokens) == SessionsOf(s, s.sessions.Keys - tokens);
    forall t | t in tokens
      ensures Started(s, d, t, end.sessions)
    {
      assert Started(stamped, d, t, m.sessions);
    }
  }

  ghost function StateAfterStart(s: State, token: string, d: Discord): State {
    if token in s.sessions && s.sessions[token].Some? then s
    else if token in d.refused then s
    else if token in d.unreachable then s.(sessions := s.sessions[token := None])
    else s.(sessions := s.sessions[token := Some(s.next)], next := s.next + 1)
  }

  ghost function StateAfterStop(s: State, activeTokens: set<string>): State {
    s.(sessions := s.sessions - (s.sessions.Keys - activeTokens),
       closed := s.closed + SessionsOf(s, s.sessions.Keys - activeTokens))
  }

  /** The tokens in `visited` have been dealt with, the other entries are as before. */
  ghost predicate PartlyStarted(s: State, d: Discord, visited: set<string>, m: State) {
    && s.next <= m.next
    && m.sessions.Keys <= s.sessions.Keys + visited
    && (forall t :: t in visited ==> Started(s, d, t, m.sessions))
    && (forall t :: t in s.sessions && t !in visited ==> t in m.sessions && m.sessions[t] == s.sessions[t])
  }

  lemma StartStep(s: State, d: Discord, visited: set<string>, m: State, token: string)
    requires PartlyStarted(s, d, visited, m) && token !in visited
    ensures PartlyStarted(s, d, visited + {token}, StateAfterStart(m, token, d))
  {
    var v := StateAfterStart(m, token, d);
    assert token in m.sessions <==> token in s.sessions;
    forall t | t in visited
      ensures Started(s, d, t, v.sessions)
    {
      assert t in m.sessions <==> t in v.sessions;
    }
  }

  lemma StartConserves(s: State, token: string, d: Discord)
    requires Conserved(s)
    ensures Conserved(StateAfterStart(s, token, d))
  {
    var v := StateAfterStart(s, token, d);
    forall i: nat | i < v.next && i !in v.closed
      ensures exists t :: t in v.sessions && v.sessions[t] == Some(i)
    {
      if i == s.next {
        assert v.sessions[token] == Some(i);
      } else {
        var t :| t in s.sessions && s.sessions[t] == Some(i);
        assert v.sessions[t] == Some(i);
      }
    }
  }

  lemma StopConserves(s: State, activeTokens: set<string>)
    requires Conserved(s)
    ensures Conserved(StateAfterStop(s, activeTokens))
  {
    var v := StateAfterStop(s, activeTokens);
    forall i: nat | i < v.next && i !in v.closed
      ensures exists t :: t in v.sessions && v.sessions[t] == Some(i)
    {
      var t :| t in s.sessions && s.sessions[t] == Some(i);
      assert t in activeTokens;
      assert v.sessions[t] == Some(i);
    }
  }

  /** A pass in terms of the configuration. Each server with a discord section binds its channel if one is given,
      with or without a token, and its token is tried if one is given, with or without a channel; there are no other
      bindings and no other sessions. */
  lemma PassFollowsConfig(s: State, servers: map<string, Server>, stamp: nat, d: Discord, s': State)
    requires Pass(s, servers, stamp, d, s')
    ensures forall n :: n in servers && servers[n].discord.Some? && servers[n].discord.value.channel != "" ==>
              servers[n].discord.value.channel in s'.channels
    ensures forall c :: c in s'.channels ==>
              && c != "" && s'.channels[c] in servers && servers[s'.channels[c]].discord.Some?
              && servers[s'.channels[c]].discord.value.channel == c
    ensures forall n :: n in servers && servers[n].discord.Some? && servers[n].discord.value.token != "" ==>
              Started(s, d, servers[n].discord.value.token, s'.sessions)
    ensures forall t :: t in s'.sessions ==> t != "" && NamedBySome(servers, t)
  {
    forall t
      ensures t in Tokens(servers) <==> t != "" && NamedBySome(servers, t)
    {
      if t != "" && NamedBySome(servers, t) {
        var n :| n in servers && servers[n].discord.Some? && servers[n].discord.value.token == t;
        assert HasToken(servers[n]);
      }
    }
  }

  ghost predicate NamedBySome(servers: map<string, Server>, t: string) {
    exists n :: n in servers && servers[n].discord.Some? && servers[n].discord.value.token == t
  }

  // ---------- any sequence of passes ----------

  /** The configuration that each version of the file holds. */
  type History = map<nat, map<string, Server>>

  /** What the reconciler reads and meets in one call: the version of the configuration that it fetched, and the
      stamp of the configuration cache at the gate and again when it is copied. */
  datatype Call = Call(version: nat, loaded: nat, stamp: nat, discord: Discord)

  predicate Updates(s: State, c: Call) { s.updatedAt < c.loaded }

  ghost predicate CallStep(files: History, s: State, c: Call, s': State) {
    && Conserved(s') && c.version in files
    && if Updates(s, c) then Pass(s, files[c.version], c.stamp, c.discord, s') else s' == s
  }

  ghost predicate Calls(files: History, states: seq<State>, calls: seq<Call>) {
    && |states| == |calls| + 1
    && forall i :: 0 <= i < |calls| ==> CallStep(files, states[i], calls[i], states[i + 1])
  }

  /** A healthy session is never reopened or closed, over any sequence of calls, as long as each configuration
      that is applied names its token. */
  lemma {:induction false} HealthySessionsStay(files: History, states: seq<State>, calls: seq<Call>, t: string,
                                               a: nat, b: nat)
    requires Calls(files, states, calls) && a <= b <= |calls|
    requires t in states[a].sessions && states[a].sessions[t].Some?
    requires Conserved(states[a])
    requires forall i :: a <= i < b && Updates(states[i], calls[i]) && calls[i].version in files ==>
               t in Tokens(files[calls[i].version])
    ensures t in states[b].sessions && states[b].sessions[t] == states[a].sessions[t]
    ensures states[a].sessions[t].value !in states[b].closed
    decreases b - a
  {
    if a == b {
    } else {
      HealthySessionsStay(files, states, calls, t, a, b - 1);
      assert CallStep(files, states[b - 1], calls[b - 1], states[b]);
    }
  }

  /** The version of the configuration that the last updating call before `b` applied. */
  function InForce(states: seq<State>, calls: seq<Call>, b: nat): Option<nat>
    requires |states| == |calls| + 1 && b <= |calls|
  {
    if b == 0 then None
    else if Updates(states[b - 1], calls[b - 1]) then Some(calls[b - 1].version)
    else InForce(states, calls, b - 1)
  }

  /** Until the configuration is loaded again, calls after an updating one change nothing: the version it fetched
      stays in force, with the channels and sessions of that pass. */
  lemma {:induction false} GatedUntilReload(files: History, states: seq<State>, calls: seq<Call>, a: nat, b: nat)
    requires Calls(files, states, calls) && a < b <= |calls|
    requires Updates(states[a], calls[a])
    requires forall i :: a < i < b ==> calls[i].loaded <= calls[a].stamp
    ensures states[b] == states[a + 1] && InForce(states, calls, b) == Some(calls[a].version)
    ensures calls[a].version in files
    ensures Pass(states[a], files[calls[a].version], calls[a].stamp, calls[a].discord, states[b])
    decreases b - a
  {
    assert CallStep(files, states[a], calls[a], states[a + 1]);
    if b == a + 1 {
    } else {
      GatedUntilReload(files, states, calls, a, b - 1);
      assert CallStep(files, states[b - 1], calls[b - 1], states[b]);
    }
  }
}
