/** The cache of log rules (`getLogRules` in `internal/discord/forwarder.go`) under any interleaving. */
module LogRulesCache {
  import opened GoStrings

  /** A version of the rules file is named by its modification time; 0 is the zero time and no rules. */
  type Version = nat

  /** One `logRulesState`. */
  datatype Entry = Entry(rules: Version, lastLoaded: Version)

  datatype Phase =
    | Idle
    | Lookup
    | Create                                            // the path was not in the cache
    | Install(id: nat)
    | StatFile(id: nat)
    | Check(id: nat, seen: Version)
    | Load(id: nat, seen: Version)
    | Write(id: nat, seen: Version, loaded: Version)
    | Return(id: nat, seen: Version, failed: bool)
    | Returned(seen: Version, failed: bool, result: Option<Version>)   // `None` is the nil result of a failed stat

  /** `entries` are the states allocated so far, `cached` the one the path maps to. The file exists when `exists`,
      and then holds version `newest`: it may be replaced or edited in place. */
  datatype State = State(entries: seq<Entry>, cached: Option<nat>, fileExists: bool, newest: Version,
    phases: seq<Phase>)

  datatype Label = Edit(version: Version) | Delete | Call(t: nat) | Act(t: nat, ok: bool)

  function Go(s: State, t: nat, p: Phase): State
    requires t < |s.phases|
  {
    s.(phases := s.phases[t := p])
  }

  /** One step of goroutine `t`, whose file access succeeds when `ok`. */
  function Step(s: State, t: nat, ok: bool): State
    requires t < |s.phases|
  {
    match s.phases[t]
    case Idle => s
    case Returned(_, _, _) => Go(s, t, Idle)
    case Lookup => Go(s, t, if s.cached.Some? then StatFile(s.cached.value) else Create)
    case Create => Go(s, t, Install(|s.entries|)).(entries := s.entries + [Entry(0, 0)])
    case Install(id) => Go(s, t, StatFile(id)).(cached := Some(id))
    case StatFile(id) => Go(s, t, if ok && s.fileExists then Check(id, s.newest) else Returned(0, true, None))
    case Check(id, seen) =>
      if id < |s.entries| && seen > s.entries[id].lastLoaded then Go(s, t, Load(id, seen))
      else Go(s, t, Return(id, seen, false))
    case Load(id, seen) =>
      Go(s, t, if ok && s.fileExists then Write(id, seen, s.newest) else Return(id, seen, true))
    case Write(id, seen, loaded) =>
      if id < |s.entries|
      then Go(s, t, Return(id, seen, false)).(entries := s.entries[id := Entry(loaded, seen)])
      else s
    case Return(id, seen, failed) =>
      if id < |s.entries| then Go(s, t, Returned(seen, failed, Some(s.entries[id].rules))) else s
  }

  function Exec(s: State, l: Label): State {
    match l
    case Edit(v) => if v > s.newest then s.(fileExists := true, newest := v) else s
    case Delete => s.(fileExists := false)
    case Call(t) => if t < |s.phases| && s.phases[t].Idle? then Go(s, t, Lookup) else s
    case Act(t, ok) => if t < |s.phases| then Step(s, t, ok) else s
  }

  function Run(s: State, ls: seq<Label>): State
    decreases |ls|
  {
    if ls == [] then s else Run(Exec(s, ls[0]), ls[1..])
  }

  function Init(n: nat): State {
    State([], None, false, 0, seq(n, _ => Idle))
  }

  // ---------- what every step keeps ----------

  /** The stamp of an entry is not newer than its rules: the file is statted before it is read. */
  predicate EntryOk(e: Entry, newest: Version) {
    e.lastLoaded <= e.rules <= newest
  }

  predicate PhaseOk(s: State, p: Phase) {
    match p
    case Install(id) => id < |s.entries|
    case StatFile(id) => id < |s.entries|
    case Check(id, seen) => id < |s.entries| && seen <= s.newest
    case Load(id, seen) => id < |s.entries| && seen <= s.newest
    case Write(id, seen, loaded) => id < |s.entries| && seen <= loaded <= s.newest
    case Return(id, seen, _) => id < |s.entries|
    case _ => true
  }

  predicate Inv(s: State) {
    && (forall i :: 0 <= i < |s.entries| ==> EntryOk(s.entries[i], s.newest))
    && (s.cached.Some? ==> s.cached.value < |s.entries|)
    && (forall t :: 0 <= t < |s.phases| ==> PhaseOk(s, s.phases[t]))
  }

  /** What a step of goroutine `t` does to the entries, and what `t` knows afterwards. */
  lemma StepOwn(s: State, t: nat, ok: bool)
    requires Inv(s) && t < |s.phases|
    ensures var s' := Step(s, t, ok);
            && s'.newest == s.newest && |s.entries| <= |s'.entries|
            && (forall i :: 0 <= i < |s'.entries| ==> EntryOk(s'.entries[i], s'.newest))
            && (s'.cached.Some? ==> s'.cached.value < |s'.entries|)
            && |s'.phases| == |s.phases| && PhaseOk(s', s'.phases[t])
            && forall u :: 0 <= u < |s.phases| && u != t ==> s'.phases[u] == s.phases[u]
  {
    assert PhaseOk(s, s.phases[t]);
  }

  lemma PhaseStaysOk(s: State, s': State, p: Phase)
    requires PhaseOk(s, p) && |s.entries| <= |s'.entries| && s.newest <= s'.newest
    ensures PhaseOk(s', p)
  {
  }

  lemma StepInv(s: State, t: nat, ok: bool)
    requires Inv(s) && t < |s.phases|
    ensures Inv(Step(s, t, ok))
  {
    var s' := Step(s, t, ok);
    StepOwn(s, t, ok);
    forall u | 0 <= u < |s'.phases|
      ensures PhaseOk(s', s'.phases[u])
    {
      if u != t {
        PhaseStaysOk(s, s', s.phases[u]);
      }
    }
  }

  lemma ExecInv(s: State, l: Label)
    requires Inv(s)
    ensures Inv(Exec(s, l))
  {
    var s' := Exec(s, l);
    if l.Act? {
      if l.t < |s.phases| {
        StepInv(s, l.t, l.ok);
      }
    } else {
      forall u | 0 <= u < |s'.phases|
        ensures PhaseOk(s', s'.phases[u])
      {
        PhaseStaysOk(s, s', s.phases[u]);
      }
    }
  }

  lemma {:induction false} RunInv(s: State, ls: seq<Label>)
    requires Inv(s)
    ensures Inv(Run(s, ls))
    decreases |ls|
  {
    if ls == [] {
    } else {
      ExecInv(s, ls[0]);
      RunInv(Exec(s, ls[0]), ls[1..]);
    }
  }

  /** In every interleaving of readers and edits, in place or not, no stamp is newer than the rules beside it. */
  lemma StampNeverAhead(n: nat, ls: seq<Label>, i: nat)
    requires i < |Run(Init(n), ls).entries|
    ensures Run(Init(n), ls).entries[i].lastLoaded <= Run(Init(n), ls).entries[i].rules
  {
    RunInv(Init(n), ls);
    assert EntryOk(Run(Init(n), ls).entries[i], Run(Init(n), ls).newest);
  }

  /** Entries change only when a successful load is written; a failed stat or load leaves all of them alone. */
  lemma OnlyWritesChange(s: State, l: Label, i: nat)
    requires Inv(s) && i < |s.entries|
    ensures i < |Exec(s, l).entries|
    ensures Exec(s, l).entries[i] != s.entries[i] ==>
              l.Act? && l.t < |s.phases| && s.phases[l.t].Write? && s.phases[l.t].id == i
              && Exec(s, l).entries[i] == Entry(s.phases[l.t].loaded, s.phases[l.t].seen)
  {
  }

  // ---------- a call with no other call in flight ----------

  predicate Quiet(p: Phase) { p.Idle? || p.Returned? }

  /** Only goroutine `t` is inside a call. */
  predicate Alone(s: State, t: nat) {
    t < |s.phases| && forall u :: 0 <= u < |s.phases| && u != t ==> Quiet(s.phases[u])
  }

  predicate SoloOk(s: State, p: Phase) {
    match p
    case Return(id, seen, failed) => id < |s.entries| && (!failed ==> seen <= s.entries[id].rules)
    case Returned(seen, failed, result) => !failed ==> result.Some? && seen <= result.value
    case _ => true
  }

  /** Events during a lone call: its own steps, and edits of the file. */
  predicate OnlyBy(l: Label, t: nat) {
    l.Edit? || l.Delete? || (l.Act? && l.t == t)
  }

  lemma {:induction false} SoloRun(s: State, t: nat, ls: seq<Label>)
    requires Inv(s) && Alone(s, t) && SoloOk(s, s.phases[t])
    requires forall l :: l in ls ==> OnlyBy(l, t)
    ensures var s' := Run(s, ls); Inv(s') && Alone(s', t) && SoloOk(s', s'.phases[t])
    decreases |ls|
  {
    if ls == [] {
    } else {
      assert OnlyBy(ls[0], t);
      ExecInv(s, ls[0]);
      assert PhaseOk(s, s.phases[t]);
      SoloRun(Exec(s, ls[0]), t, ls[1..]);
    }
  }

  /** No update is lost for good: whatever interleaving came before, a call with no other call in flight returns
      rules at least as new as the file it statted, unless its own load fails. */
  lemma LoneCallIsFresh(n: nat, before: seq<Label>, t: nat, during: seq<Label>)
    requires var s := Run(Init(n), before); Alone(s, t) && s.phases[t].Idle?
    requires forall l :: l in during ==> OnlyBy(l, t)
    ensures var s := Run(Exec(Run(Init(n), before), Call(t)), during);
            t < |s.phases| &&
            (s.phases[t].Returned? && !s.phases[t].failed ==>
               s.phases[t].result.Some? && s.phases[t].seen <= s.phases[t].result.value)
  {
    RunInv(Init(n), before);
    var s := Run(Init(n), before);
    ExecInv(s, Call(t));
    SoloRun(Exec(s, Call(t)), t, during);
  }

  // ---------- what a call has seen ----------

  predicate Carries(p: Phase, v: Version) {
    match p
    case Check(_, seen) => seen == v
    case Load(_, seen) => seen == v
    case Write(_, seen, _) => seen == v
    case Return(_, seen, _) => seen == v
    case Returned(seen, _, _) => seen == v
    case _ => false
  }

  predicate HasFailed(p: Phase) {
    match p
    case Return(_, _, failed) => failed
    case Returned(_, failed, _) => failed
    case _ => false
  }

  /** The event is a load of `t` that fails. */
  predicate LoadFails(s: State, l: Label, t: nat) {
    l.Act? && l.t == t && t < |s.phases| && s.phases[t].Load? && !(l.ok && s.fileExists)
  }

  predicate LoadFailsIn(s: State, ls: seq<Label>, t: nat)
    decreases |ls|
  {
    ls != [] && (LoadFails(s, ls[0], t) || LoadFailsIn(Exec(s, ls[0]), ls[1..], t))
  }

  predicate InCall(s: State, ls: seq<Label>, t: nat)
    decreases |ls|
  {
    t < |s.phases| && (ls == [] || (!s.phases[t].Returned? && InCall(Exec(s, ls[0]), ls[1..], t)))
  }

  lemma CallStep(s: State, l: Label, t: nat, v: Version)
    requires t < |s.phases| && Carries(s.phases[t], v) && !s.phases[t].Returned?
    ensures var s' := Exec(s, l);
            && t < |s'.phases| && Carries(s'.phases[t], v)
            && (HasFailed(s'.phases[t]) <==> HasFailed(s.phases[t]) || LoadFails(s, l, t))
  {
  }

  lemma {:induction false} CallRun(s: State, ls: seq<Label>, t: nat, v: Version)
    requires InCall(s, ls, t) && Carries(s.phases[t], v)
    ensures var s' := Run(s, ls);
            && t < |s'.phases| && Carries(s'.phases[t], v)
            && (HasFailed(s'.phases[t]) <==> HasFailed(s.phases[t]) || LoadFailsIn(s, ls, t))
    decreases |ls|
  {
    if ls == [] {
    } else {
      CallStep(s, ls[0], t, v);
      CallRun(Exec(s, ls[0]), ls[1..], t, v);
    }
  }

  /** A call with no other call in flight, after any interleaving: from its stat on, and whatever edits come meanwhile,
      it returns the version that was on disk at the stat, or a later one, unless its own load fails. */
  lemma LoneCallReturnsWhatWasOnDisk(n: nat, before: seq<Label>, t: nat, during: seq<Label>)
    requires var s := Run(Init(n), before); Alone(s, t) && s.phases[t].StatFile? && s.fileExists
    requires forall l :: l in during ==> OnlyBy(l, t)
    requires var s1 := Exec(Run(Init(n), before), Act(t, true));
             InCall(s1, during, t) && t < |Run(s1, during).phases| && Run(s1, during).phases[t].Returned?
    ensures var s := Run(Init(n), before); var s1 := Exec(s, Act(t, true)); var p := Run(s1, during).phases[t];
            && p.seen == s.newest && (p.failed <==> LoadFailsIn(s1, during, t))
            && (!LoadFailsIn(s1, during, t) ==> p.result.Some? && p.result.value >= s.newest)
  {
    RunInv(Init(n), before);
    var s := Run(Init(n), before);
    var s1 := Exec(s, Act(t, true));
    ExecInv(s, Act(t, true));
    CallRun(s1, during, t, s.newest);
    SoloRun(s1, t, during);
  }

  // ---------- the call as a program runs it alone ----------

  /** What the file system answers: the stat, and the version read if opening, parsing and compiling succeed. */
  datatype Disk = Disk(stat: Option<Version>, load: Option<Version>)

  function Effect(e: Entry, d: Disk): Entry {
    if d.stat.Some? && d.stat.value > e.lastLoaded && d.load.Some? then Entry(d.load.value, d.stat.value) else e
  }

  class RulesCache {
    var entries: map<string, Entry>

    constructor ()
      ensures entries == map[]
    {
      entries := map[];
    }

    method GetLogRules(path: string, d: Disk) returns (rules: Option<Version>)
      modifies this
      ensures var e := if path in old(entries) then old(entries)[path] else Entry(0, 0);
              && entries == old(entries)[path := Effect(e, d)]
              && rules == (if d.stat.None? then None else Some(Effect(e, d).rules))
              && (d.stat.Some? && d.stat.value > e.lastLoaded && d.load.Some? ==> rules == d.load)
              && (d.stat.Some? && (d.stat.value <= e.lastLoaded || d.load.None?) ==> rules == Some(e.rules))
      ensures (forall p :: p in old(entries) ==> old(entries)[p].lastLoaded <= old(entries)[p].rules)
              && (d.stat.Some? && d.load.Some? ==> d.stat.value <= d.load.value) ==>
                forall p :: p in entries ==> entries[p].lastLoaded <= entries[p].rules
    {
      if path !in entries {
        entries := entries[path := Entry(0, 0)];
      }
      var state := entries[path];
      if d.stat.None? {
        return None;
      }
      if d.stat.value > state.lastLoaded {
        if d.load.None? {
          return Some(state.rules);
        }
        state := Entry(d.load.value, d.stat.value);
        entries := entries[path := state];
      }
      rules := Some(state.rules);
    }
  }

  /** Goroutine `t` alone, for up to `n` steps: its stat succeeds when `stat`, its load when `load`. */
  function Solo(s: State, t: nat, stat: bool, load: bool, n: nat): State
    requires t < |s.phases|
    decreases n
  {
    if n == 0 || s.phases[t].Returned? then s
    else
      var ok := if s.phases[t].StatFile? then stat else if s.phases[t].Load? then load else true;
      Solo(Step(s, t, ok), t, stat, load, n - 1)
  }

  /** The first steps, up to the stat: the entry that the path maps to, or a new one. */
  lemma SoloLookup(s: State, t: nat, stat: bool, load: bool, n: nat)
    requires Inv(s) && t < |s.phases| && s.phases[t].Lookup? && n >= 3
    ensures var id := if s.cached.Some? then s.cached.value else |s.entries|;
            var entries := if s.cached.Some? then s.entries else s.entries + [Entry(0, 0)];
            var s1 := State(entries, Some(id), s.fileExists, s.newest, s.phases[t := StatFile(id)]);
            Solo(s, t, stat, load, n) == Solo(s1, t, stat, load, if s.cached.Some? then n - 1 else n - 3)
  {
    var s1 := Step(s, t, true);
    if s.cached.None? {
      var s2 := Step(s1, t, true);
      var s3 := Step(s2, t, true);
      assert Solo(s, t, stat, load, n) == Solo(s1, t, stat, load, n - 1);
      assert Solo(s1, t, stat, load, n - 1) == Solo(s2, t, stat, load, n - 2);
      assert Solo(s2, t, stat, load, n - 2) == Solo(s3, t, stat, load, n - 3);
      assert s3.phases == s.phases[t := StatFile(|s.entries|)];
    } else {
      assert s1.phases == s.phases[t := StatFile(s.cached.value)];
    }
  }

  /** The other steps, from the stat to the return. */
  lemma SoloServe(s: State, t: nat, d: Disk, n: nat)
    requires t < |s.phases| && s.phases[t].StatFile? && s.phases[t].id < |s.entries| && n >= 5
    requires d.stat.Some? ==> s.fileExists && d.stat.value == s.newest
    requires d.load.Some? ==> s.fileExists && d.load.value == s.newest
    ensures var id := s.phases[t].id; var s' := Solo(s, t, d.stat.Some?, d.load.Some?, n);
            && s'.entries == s.entries[id := Effect(s.entries[id], d)] && s'.cached == s.cached
            && t < |s'.phases| && s'.phases[t].Returned?
            && s'.phases[t].result == if d.stat.None? then None else Some(Effect(s.entries[id], d).rules)
  {
    var id, e := s.phases[t].id, s.entries[s.phases[t].id];
    var stat, load := d.stat.Some?, d.load.Some?;
    var s1 := Step(s, t, stat);
    assert Solo(s, t, stat, load, n) == Solo(s1, t, stat, load, n - 1);
    if stat {
      assert s1.phases[t] == Check(id, s.newest);
      var s2 := Step(s1, t, true);
      assert Solo(s1, t, stat, load, n - 1) == Solo(s2, t, stat, load, n - 2);
      if s.newest > e.lastLoaded {
        assert s2.phases[t] == Load(id, s.newest);
        var s3 := Step(s2, t, load);
        assert Solo(s2, t, stat, load, n - 2) == Solo(s3, t, stat, load, n - 3);
        if load {
          assert s3.phases[t] == Write(id, s.newest, s.newest);
          var s4 := Step(s3, t, true);
          assert Solo(s3, t, stat, load, n - 3) == Solo(s4, t, stat, load, n - 4);
          assert s4.phases[t] == Return(id, s.newest, false);
          assert Solo(s4, t, stat, load, n - 4) == Solo(Step(s4, t, true), t, stat, load, n - 5);
        } else {
          assert Solo(s3, t, stat, load, n - 3) == Solo(Step(s3, t, true), t, stat, load, n - 4);
        }
      } else {
        assert Solo(s2, t, stat, load, n - 2) == Solo(Step(s2, t, true), t, stat, load, n - 3);
      }
    }
  }

  /** Run alone, the steps of a whole call, from the lookup on, have the effect and the result of the method. */
  lemma SoloCall(s: State, t: nat, d: Disk, n: nat)
    requires Inv(s) && t < |s.phases| && s.phases[t].Lookup? && n >= 8
    requires d.stat.Some? ==> s.fileExists && d.stat.value == s.newest
    requires d.load.Some? ==> s.fileExists && d.load.value == s.newest
    ensures var id := if s.cached.Some? then s.cached.value else |s.entries|;
            var entries := if s.cached.Some? then s.entries else s.entries + [Entry(0, 0)];
            var s' := Solo(s, t, d.stat.Some?, d.load.Some?, n);
            && id < |entries| && s'.cached == Some(id)
            && s'.entries == entries[id := Effect(entries[id], d)]
            && t < |s'.phases| && s'.phases[t].Returned?
            && s'.phases[t].result == if d.stat.None? then None else Some(Effect(entries[id], d).rules)
  {
    SoloLookup(s, t, d.stat.Some?, d.load.Some?, n);
    var id := if s.cached.Some? then s.cached.value else |s.entries|;
    var entries := if s.cached.Some? then s.entries else s.entries + [Entry(0, 0)];
    var s1 := State(entries, Some(id), s.fileExists, s.newest, s.phases[t := StatFile(id)]);
    SoloServe(s1, t, d, if s.cached.Some? then n - 1 else n - 3);
  }

  /** The next undisturbed call after an edit returns the new rules; the call then is over. */
  lemma NextCallSeesTheEdit(s: State, t: nat, v: Version, n: nat)
    requires Inv(s) && n >= 8 && t < |s.phases| && s.phases[t].Idle? && v > s.newest
    ensures var s2 := Solo(Exec(Exec(s, Edit(v)), Call(t)), t, true, true, n);
            && t < |s2.phases| && s2.phases[t].Returned? && s2.phases[t].result == Some(v)
            && s2.cached.Some? && s2.cached.value < |s2.entries| && s2.entries[s2.cached.value] == Entry(v, v)
            && Exec(s2, Act(t, true)).phases[t].Idle?
  {
    var s1 := Exec(Exec(s, Edit(v)), Call(t));
    ExecInv(s, Edit(v));
    ExecInv(Exec(s, Edit(v)), Call(t));
    SoloCall(s1, t, Disk(Some(v), Some(v)), n);
  }

  /** Without the file there are no rules, whatever is cached; what is cached stays. */
  lemma NoRulesWithoutFile(s: State, t: nat, n: nat)
    requires Inv(s) && n >= 8 && t < |s.phases| && s.phases[t].Idle?
    ensures var s2 := Solo(Exec(Exec(s, Delete), Call(t)), t, true, true, n);
            && t < |s2.phases| && s2.phases[t].Returned? && s2.phases[t].result == None
            && s.entries <= s2.entries && (s.cached.Some? ==> s2.cached == s.cached)
  {
    var s1 := Exec(Exec(s, Delete), Call(t));
    ExecInv(s, Delete);
    ExecInv(Exec(s, Delete), Call(t));
    SoloLookup(s1, t, true, true, n);
    var id := if s.cached.Some? then s.cached.value else |s.entries|;
    var entries := if s.cached.Some? then s.entries else s.entries + [Entry(0, 0)];
    var s2 := State(entries, Some(id), false, s.newest, s1.phases[t := StatFile(id)]);
    assert Step(s2, t, true).phases[t] == Returned(0, true, None);
    StopsAtOnce(s2, t, if s.cached.Some? then n - 1 else n - 3);
  }

  lemma StopsAtOnce(s: State, t: nat, n: nat)
    requires t < |s.phases| && s.phases[t].StatFile? && !s.fileExists && n >= 1
    ensures Solo(s, t, true, true, n) == Step(s, t, true)
  {
  }
}
