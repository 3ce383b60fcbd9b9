/** The calls of `LoadedConfig` (`internal/config/config.go`): as a program runs them alone, and what one `Get` among
    many stands for. */
module ConfigCalls {
  import opened GoStrings
  import opened ConfigCache

  /** The outcome of the system calls of one `Get`: the stat, the version behind the name if it opens, whether it
      parses, and whether the later stat of the open file succeeds. */
  datatype Disk = Disk(stat: Option<Version>, opens: Option<Version>, parses: bool, stats: bool)

  /** The configuration loads, and the file that was opened is no older than its stat said. */
  predicate LoadsFresh(d: Disk) {
    d.stat.Some? && d.opens.Some? && d.parses && d.stat.value <= d.opens.value
  }

  function ReloadEffect(config: Version, lastLoaded: Version, d: Disk): (Version, Version) {
    if d.opens.None? || !d.parses then (config, lastLoaded)
    else if d.stats then (d.opens.value, d.opens.value)
    else (d.opens.value, lastLoaded)
  }

  /** What a whole `Get` does to the cached pair. */
  function GetEffect(config: Version, lastLoaded: Version, d: Disk): (Version, Version) {
    if d.stat.Some? && d.stat.value > lastLoaded then ReloadEffect(config, lastLoaded, d) else (config, lastLoaded)
  }

  class LoadedConfig {
    var config: Version
    var lastLoaded: Version

    constructor ()
      ensures config == 0 && lastLoaded == 0
    {
      config, lastLoaded := 0, 0;
    }

    method Reload(d: Disk)
      modifies this
      ensures d.opens.None? || !d.parses ==> config == old(config) && lastLoaded == old(lastLoaded)
      ensures d.opens.Some? && d.parses ==> config == d.opens.value
      ensures d.opens.Some? && d.parses ==> lastLoaded == if d.stats then d.opens.value else old(lastLoaded)
      ensures (config, lastLoaded) == ReloadEffect(old(config), old(lastLoaded), d)
    {
      if d.opens.None? {
        return;
      }
      if !d.parses {
        return;
      }
      config := d.opens.value;
      if !d.stats {
        return;
      }
      lastLoaded := d.opens.value;
    }

    method Get(d: Disk) returns (result: Version)
      modifies this
      ensures (config, lastLoaded) == GetEffect(old(config), old(lastLoaded), d)
      ensures result == config
      ensures d.stat.None? || d.stat.value <= old(lastLoaded) ==> config == old(config) && lastLoaded == old(lastLoaded)
      ensures d.stat.Some? && d.stat.value > old(lastLoaded) && d.opens.Some? && d.parses ==> result == d.opens.value
      ensures old(lastLoaded) <= old(config) && LoadsFresh(d) ==> d.stat.value <= result && lastLoaded <= config
    {
      if d.stat.Some? && d.stat.value > lastLoaded {
        Reload(d);
      }
      result := config;
    }
  }

  // ---------- the steps of an undisturbed call ----------

  /** Whether the system call that goroutine `t` makes next succeeds. */
  function Succeeds(p: Phase, d: Disk): bool {
    match p
    case GetStat => d.stat.Some?
    case ReloadOpen(_) => d.opens.Some?
    case ReloadDecode(_, _) => d.parses
    case ReloadStat(_, _) => d.stats
    case _ => true
  }

  /** Goroutine `t` alone, for up to `n` steps. */
  function Solo(s: State, t: nat, d: Disk, n: nat): State
    requires t < |s.phases|
    decreases n
  {
    if n == 0 || s.phases[t].Returned? || s.phases[t].Idle? then s
    else Solo(Step(s, t, Succeeds(s.phases[t], d)), t, d, n - 1)
  }

  /** The disk is as `d` says. */
  predicate Agrees(s: State, d: Disk) {
    && (s.path.Some? ==> s.path.value in s.inodes)
    && (d.stat.Some? ==> s.path.Some? && d.stat.value == s.inodes[s.path.value])
    && (d.opens.Some? ==> s.path.Some? && d.opens.value == s.inodes[s.path.value])
  }

  predicate ReloadFails(d: Disk) { d.opens.None? || !d.parses }

  /** The first half of a reload: open and decode. */
  lemma SoloOpens(s: State, t: nat, d: Disk, who: Caller, n: nat)
    requires t < |s.phases| && s.phases[t] == ReloadStart(who) && CanLock(s) && Agrees(s, d) && n >= 3
    ensures var s3 := s.(writer := Some(t), phases := s.phases[t :=
                        if ReloadFails(d) then ReloadUnlock(who, true)
                        else ReloadAssign(who, s.path.value, d.opens.value)]);
            Solo(s, t, d, n) == Solo(s3, t, d, if d.opens.None? then n - 2 else n - 3)
  {
    var s1 := Step(s, t, true);
    assert s1.phases[t] == ReloadOpen(who);
    assert Solo(s, t, d, n) == Solo(s1, t, d, n - 1);
    var s2 := Step(s1, t, d.opens.Some?);
    assert Solo(s1, t, d, n - 1) == Solo(s2, t, d, n - 2);
    if d.opens.None? {
      assert s2.phases == s.phases[t := ReloadUnlock(who, true)];
    } else {
      assert s2.phases[t] == ReloadDecode(who, s.path.value);
      var s3 := Step(s2, t, d.parses);
      assert Solo(s2, t, d, n - 2) == Solo(s3, t, d, n - 3);
      assert s3.phases == s.phases[t := if d.parses then ReloadAssign(who, s.path.value, d.opens.value)
                                        else ReloadUnlock(who, true)];
    }
  }

  /** The second half, up to the unlock: assign, stat and stamp. */
  lemma SoloAssigns(s: State, t: nat, d: Disk, who: Caller, n: nat)
    requires t < |s.phases| && Agrees(s, d) && d.opens.Some? && s.path.Some? && n >= 3
    requires s.phases[t] == ReloadAssign(who, s.path.value, d.opens.value)
    ensures var s3 := s.(config := d.opens.value, lastLoaded := if d.stats then d.opens.value else s.lastLoaded,
                         phases := s.phases[t := ReloadUnlock(who, false)]);
            Solo(s, t, d, n) == Solo(s3, t, d, if d.stats then n - 3 else n - 2)
  {
    var s1 := Step(s, t, true);
    assert s1.phases[t] == ReloadStat(who, s.path.value);
    assert Solo(s, t, d, n) == Solo(s1, t, d, n - 1);
    var s2 := Step(s1, t, d.stats);
    assert Solo(s1, t, d, n - 1) == Solo(s2, t, d, n - 2);
    if d.stats {
      assert s2.phases[t] == ReloadStamp(who, d.opens.value);
      var s3 := Step(s2, t, true);
      assert Solo(s2, t, d, n - 2) == Solo(s3, t, d, n - 3);
      assert s3.phases == s.phases[t := ReloadUnlock(who, false)];
    } else {
      assert s2.phases == s.phases[t := ReloadUnlock(who, false)];
    }
  }

  /** The state when a reload of `t` has given its lock back. */
  function Reloaded(s: State, t: nat, d: Disk, who: Caller): State
    requires t < |s.phases|
  {
    var e := ReloadEffect(s.config, s.lastLoaded, d);
    s.(config := e.0, lastLoaded := e.1, writer := None,
       phases := s.phases[t := AfterReload(who, ReloadFails(d))])
  }

  /** The state when a reload of `t` has done its work and is about to give its lock back. */
  function Unlocking(s: State, t: nat, d: Disk, who: Caller): State
    requires t < |s.phases|
  {
    Reloaded(s, t, d, who).(writer := Some(t), phases := s.phases[t := ReloadUnlock(who, ReloadFails(d))])
  }

  lemma SoloWorks(s: State, t: nat, d: Disk, who: Caller, n: nat) returns (m: nat)
    requires t < |s.phases| && s.phases[t] == ReloadStart(who) && CanLock(s) && Agrees(s, d) && n >= 6
    ensures n - 6 <= m && Solo(s, t, d, n) == Solo(Unlocking(s, t, d, who), t, d, m)
  {
    SoloOpens(s, t, d, who, n);
    m := if d.opens.None? then n - 2 else n - 3;
    if !ReloadFails(d) {
      var s3 := s.(writer := Some(t), phases := s.phases[t := ReloadAssign(who, s.path.value, d.opens.value)]);
      SoloAssigns(s3, t, d, who, m);
      assert s3.phases[t := ReloadUnlock(who, false)] == s.phases[t := ReloadUnlock(who, false)];
      m := if d.stats then m - 3 else m - 2;
    }
  }

  /** Run alone, the steps of a whole reload have the effect of the method. */
  lemma SoloReload(s: State, t: nat, d: Disk, who: Caller, n: nat) returns (m: nat)
    requires t < |s.phases| && s.phases[t] == ReloadStart(who) && CanLock(s) && Agrees(s, d) && n >= 7
    ensures n - 7 <= m && Solo(s, t, d, n) == Solo(Reloaded(s, t, d, who), t, d, m)
  {
    m := SoloWorks(s, t, d, who, n);
    var s4 := Unlocking(s, t, d, who);
    assert s4.phases[t] == ReloadUnlock(who, ReloadFails(d));
    assert Solo(s4, t, d, m) == Solo(Step(s4, t, true), t, d, m - 1);
    assert s4.phases[t := AfterReload(who, ReloadFails(d))] == s.phases[t := AfterReload(who, ReloadFails(d))];
    assert Step(s4, t, true) == Reloaded(s, t, d, who);
    m := m - 1;
  }

  /** The end of a `Get`. */
  lemma SoloReturns(s: State, t: nat, d: Disk, seen: Version, failed: bool, n: nat)
    requires t < |s.phases| && CanLock(s) && n >= 2
    requires s.phases[t] == GetRelock(seen, failed)
    ensures Solo(s, t, d, n) == s.(phases := s.phases[t := Returned(seen, failed, s.config)])
  {
    var s1 := Step(s, t, true);
    assert Solo(s, t, d, n) == Solo(s1, t, d, n - 1);
    assert s1.phases[t] == GetReturn(seen, failed);
    var s2 := Step(s1, t, true);
    assert Solo(s1, t, d, n - 1) == Solo(s2, t, d, n - 2) == s2;
    assert s2.phases == s.phases[t := Returned(seen, failed, s.config)];
    assert s2.readers == s.readers;
  }

  /** The beginning of a `Get`: the shared lock and the stat ... */
  lemma SoloStats(s: State, t: nat, d: Disk, n: nat)
    requires t < |s.phases| && CanLock(s) && Agrees(s, d) && s.phases[t].Idle? && n >= 2
    ensures Solo(Exec(s, CallGet(t)), t, d, n) ==
            Solo(s.(readers := {t}, phases := s.phases[t := GetCheck(d.stat)]), t, d, n - 2)
  {
    var s1 := Exec(s, CallGet(t));
    var s2 := Step(s1, t, true);
    assert Solo(s1, t, d, n) == Solo(s2, t, d, n - 1);
    assert s2.phases[t] == GetStat && s2.readers == {t};
    var s3 := Step(s2, t, d.stat.Some?);
    assert Solo(s2, t, d, n - 1) == Solo(s3, t, d, n - 2);
    assert s3.phases == s.phases[t := GetCheck(d.stat)];
  }

  /** ... and the decision: to reload, */
  lemma SoloDecides(s: State, t: nat, d: Disk, v: Version, n: nat)
    requires t < |s.phases| && CanLock(s) && d.stat == Some(v) && v > s.lastLoaded && n >= 1
    ensures Solo(s.(readers := {t}, phases := s.phases[t := GetCheck(d.stat)]), t, d, n) ==
            Solo(s.(phases := s.phases[t := ReloadStart(FromGet(v))]), t, d, n - 1)
  {
    var s3 := s.(readers := {t}, phases := s.phases[t := GetCheck(d.stat)]);
    var s4 := Step(s3, t, true);
    assert Solo(s3, t, d, n) == Solo(s4, t, d, n - 1);
    assert s4.phases == s.phases[t := ReloadStart(FromGet(v))] && s4.readers == {t} - {t} == s.readers;
  }

  /** or not. */
  lemma SoloKeeps(s: State, t: nat, d: Disk, n: nat)
    requires t < |s.phases| && CanLock(s) && (d.stat.None? || d.stat.value <= s.lastLoaded) && n >= 2
    ensures Solo(s.(readers := {t}, phases := s.phases[t := GetCheck(d.stat)]), t, d, n) ==
            s.(phases := s.phases[t := Returned(if d.stat.Some? then d.stat.value else 0, false, s.config)])
  {
    var s3 := s.(readers := {t}, phases := s.phases[t := GetCheck(d.stat)]);
    var s4 := Step(s3, t, true);
    assert Solo(s3, t, d, n) == Solo(s4, t, d, n - 1);
    var s5 := Step(s4, t, true);
    assert Solo(s4, t, d, n - 1) == Solo(s5, t, d, n - 2) == s5;
    assert s5.phases == s.phases[t := Returned(if d.stat.Some? then d.stat.value else 0, false, s.config)];
    assert s5.readers == {t} - {t} == s.readers;
  }

  /** The state after an undisturbed `Get`. */
  function Got(s: State, t: nat, d: Disk): State
    requires t < |s.phases|
  {
    var e := GetEffect(s.config, s.lastLoaded, d);
    var reloads := d.stat.Some? && d.stat.value > s.lastLoaded;
    s.(config := e.0, lastLoaded := e.1,
       phases := s.phases[t := Returned(if d.stat.Some? then d.stat.value else 0, reloads && ReloadFails(d), e.0)])
  }

  /** Run alone, the steps of a whole `Get`, for every outcome of its system calls, have the effect and the result of
      the method; `seen` is what the stat found, and `failed` says that the reload could not open or parse. */
  lemma SoloGet(s: State, t: nat, d: Disk, n: nat)
    requires t < |s.phases| && s.phases[t].Idle? && CanLock(s) && Agrees(s, d) && n >= 12
    ensures Solo(Exec(s, CallGet(t)), t, d, n) == Got(s, t, d)
  {
    SoloStats(s, t, d, n);
    if d.stat.Some? && d.stat.value > s.lastLoaded {
      var v := d.stat.value;
      SoloDecides(s, t, d, v, n - 2);
      var s1 := s.(phases := s.phases[t := ReloadStart(FromGet(v))]);
      var m := SoloReload(s1, t, d, FromGet(v), n - 3);
      var s2 := Reloaded(s1, t, d, FromGet(v));
      SoloReturns(s2, t, d, v, ReloadFails(d), m);
      assert s2.phases[t := Returned(v, ReloadFails(d), s2.config)] ==
        s.phases[t := Returned(v, ReloadFails(d), s2.config)];
    } else {
      SoloKeeps(s, t, d, n - 2);
    }
  }

  /** The answer for a file that is there, opens and parses: its version, whatever was cached before, provided that the
      stamp is not ahead of the cache. */
  lemma UndisturbedGetIsFresh(s: State, t: nat, d: Disk, n: nat)
    requires t < |s.phases| && s.phases[t].Idle? && CanLock(s) && Agrees(s, d) && n >= 12
    requires s.path.Some? && d.stat.Some? && d.opens.Some? && d.parses && s.lastLoaded <= s.config
    ensures var s' := Solo(Exec(s, CallGet(t)), t, d, n);
            && |s'.phases| == |s.phases| && s'.phases[t].Returned?
            && s'.phases[t].result >= s.inodes[s.path.value]
            && (s.inodes[s.path.value] > s.lastLoaded ==> s'.phases[t].result == s.inodes[s.path.value])
  {
    SoloGet(s, t, d, n);
  }

  /** The disk as it is, with nothing going wrong; without a file there is nothing to stat. */
  function DiskOf(s: State): Disk
    requires s.path.Some? ==> s.path.value in s.inodes
  {
    var v := if s.path.Some? then Some(s.inodes[s.path.value]) else None;
    Disk(v, v, true, true)
  }

  /** The environment changes the file while nobody is in a call. */
  predicate Changes(s: State, l: Label) {
    || (l.Publish? && l.file !in s.inodes && l.version > s.newest)
    || (l.EditInPlace? && s.path.Some? && l.version > s.newest)
  }

  /** Hot reload: the next undisturbed `Get` after a change, by rename or in place, returns the new version; the call
      then is over, with stamp and cache at that version. */
  lemma NextGetSeesTheChange(s: State, l: Label, t: nat, n: nat)
    requires Bounds(s) && CanLock(s) && t < |s.phases| && s.phases[t].Idle? && Changes(s, l) && n >= 12
    ensures var s1 := Exec(s, l);
            && (s1.path.Some? ==> s1.path.value in s1.inodes)
            && var s2 := Solo(Exec(s1, CallGet(t)), t, DiskOf(s1), n);
               && |s2.phases| == |s.phases| && s2.phases[t] == Returned(l.version, false, l.version)
               && Exec(s2, Act(t, true)) == s1.(config := l.version, lastLoaded := l.version)
  {
    var s1 := Exec(s, l);
    SoloGet(s1, t, DiskOf(s1), n);
    assert s1.phases[t := Idle] == s1.phases;
  }

  /** Without the file `Get` still returns what is cached, as often as it is called, and reports no failure. */
  lemma GetWithoutFile(s: State, t: nat, n: nat)
    requires Bounds(s) && CanLock(s) && t < |s.phases| && s.phases[t].Idle? && n >= 12
    ensures var s1 := Exec(s, Unlink);
            && s1.path.None?
            && var s2 := Solo(Exec(s1, CallGet(t)), t, DiskOf(s1), n);
               && |s2.phases| == |s.phases| && s2.phases[t] == Returned(0, false, s.config)
               && Exec(s2, Act(t, true)) == s1
               && s1.config == s.config && s1.lastLoaded == s.lastLoaded
  {
    var s1 := Exec(s, Unlink);
    SoloGet(s1, t, DiskOf(s1), n);
    assert s1.phases[t := Idle] == s1.phases;
  }

  // ---------- one call among many ----------

  /** The version that a stat finds; 0 if it fails. */
  function OnDisk(s: State, ok: bool): Version {
    if ok && s.path.Some? && s.path.value in s.inodes then s.inodes[s.path.value] else 0
  }

  /** The call has taken `v` from its stat. */
  predicate Carries(p: Phase, v: Version) {
    match p
    case GetCheck(stat) => (if stat.Some? then stat.value else 0) == v
    case ReloadStart(who) => who == FromGet(v)
    case ReloadOpen(who) => who == FromGet(v)
    case ReloadDecode(who, _) => who == FromGet(v)
    case ReloadAssign(who, _, _) => who == FromGet(v)
    case ReloadStat(who, _) => who == FromGet(v)
    case ReloadStamp(who, _) => who == FromGet(v)
    case ReloadUnlock(who, _) => who == FromGet(v)
    case GetRelock(seen, _) => seen == v
    case GetReturn(seen, _) => seen == v
    case Returned(seen, _, _) => seen == v
    case _ => false
  }

  /** The call has failed to open or parse the file. */
  predicate HasFailed(p: Phase) {
    match p
    case ReloadUnlock(_, failed) => failed
    case GetRelock(_, failed) => failed
    case GetReturn(_, failed) => failed
    case Returned(_, failed, _) => failed
    case _ => false
  }

  /** The event is a step of `t` that fails to open the file, or to parse it. */
  predicate FailsNow(s: State, l: Label, t: nat) {
    && l.Act? && l.t == t && t < |s.phases|
    && match s.phases[t]
       case ReloadOpen(_) => !(l.ok && s.path.Some?)
       case ReloadDecode(_, f) => !(l.ok && f in s.inodes)
       case _ => false
  }

  predicate FailsIn(s: State, ls: seq<Label>, t: nat)
    decreases |ls|
  {
    ls != [] && (FailsNow(s, ls[0], t) || FailsIn(Exec(s, ls[0]), ls[1..], t))
  }

  /** Goroutine `t` stays within one call: it has not returned before the last of the events. */
  predicate InCall(s: State, ls: seq<Label>, t: nat)
    decreases |ls|
  {
    t < |s.phases| && (ls == [] || (!s.phases[t].Returned? && InCall(Exec(s, ls[0]), ls[1..], t)))
  }

  lemma CallStep(s: State, l: Label, t: nat, v: Version)
    requires t < |s.phases| && Carries(s.phases[t], v) && !s.phases[t].Returned?
    ensures var s' := Exec(s, l);
            && t < |s'.phases| && Carries(s'.phases[t], v)
            && (HasFailed(s'.phases[t]) <==> HasFailed(s.phases[t]) || FailsNow(s, l, t))
  {
    if l == Act(t, true) || l == Act(t, false) {
      OwnCallStep(s, t, l.ok, v);
    }
  }

  lemma OwnCallStep(s: State, t: nat, ok: bool, v: Version)
    requires t < |s.phases| && Carries(s.phases[t], v) && !s.phases[t].Returned?
    ensures var s' := Step(s, t, ok);
            && t < |s'.phases| && Carries(s'.phases[t], v)
            && (HasFailed(s'.phases[t]) <==> HasFailed(s.phases[t]) || FailsNow(s, Act(t, ok), t))
  {
  }

  lemma {:induction false} CallRun(s: State, ls: seq<Label>, t: nat, v: Version)
    requires InCall(s, ls, t) && Carries(s.phases[t], v)
    ensures var s' := Run(s, ls);
            && t < |s'.phases| && Carries(s'.phases[t], v)
            && (HasFailed(s'.phases[t]) <==> HasFailed(s.phases[t]) || FailsIn(s, ls, t))
    decreases |ls|
  {
    if ls == [] {
    } else {
      CallStep(s, ls[0], t, v);
      CallRun(Exec(s, ls[0]), ls[1..], t, v);
    }
  }

  /** Any `Get` in any run with replacement by rename: whatever the other goroutines do meanwhile, it returns the
      version that was on disk when it made its stat, or a later one, unless it fails to open or parse the file. */
  lemma GetReturnsWhatWasOnDisk(n: nat, before: seq<Label>, t: nat, ok: bool, during: seq<Label>)
    requires EditFree(before) && EditFree(during) && t < n
    requires var s := Run(Init(n), before); t < |s.phases| && s.phases[t].GetStat?
    requires var s1 := Exec(Run(Init(n), before), Act(t, ok));
             InCall(s1, during, t) && t < |Run(s1, during).phases| && Run(s1, during).phases[t].Returned?
    ensures var s := Run(Init(n), before); var s1 := Exec(s, Act(t, ok)); var p := Run(s1, during).phases[t];
            && p.seen == OnDisk(s, ok)
            && (p.failed <==> FailsIn(s1, during, t))
            && (!FailsIn(s1, during, t) ==> OnDisk(s, ok) <= p.result)
  {
    var s := Run(Init(n), before);
    var s1 := Exec(s, Act(t, ok));
    InitBase(n);
    ReplacementsAreUntorn(Init(n), before);
    RunInv(Init(n), before);
    ExecInv(s, Act(t, ok));
    ReplacementsAreUntorn(s1, during);
    RunInv(s1, during);
    CallRun(s1, during, t, OnDisk(s, ok));
    assert Fresh(Run(s1, during), Run(s1, during).phases[t]);
  }
}
