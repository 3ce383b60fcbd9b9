/** The hot-reloaded configuration (`LoadedConfig` in `internal/config/config.go`) under any interleaving. */
module ConfigCache {
  import opened GoStrings

  /** A version of the file is named by its modification time; 0 is the zero time and the zero configuration. */
  type Version = nat
  type Inode = nat

  /** Who runs the reload: a `Get` whose stat saw `seen`, or a plain `Reload` call. */
  datatype Caller = FromGet(seen: Version) | Direct

  /** The next step of a goroutine. */
  datatype Phase =
    | Idle
    | GetStart                                   // before RLock
    | GetStat                                    // RLock held
    | GetCheck(stat: Option<Version>)            // RLock held, file stat done
    | ReloadStart(who: Caller)                    // before Lock
    | ReloadOpen(who: Caller)                     // Lock held from here ...
    | ReloadDecode(who: Caller, file: Inode)
    | ReloadAssign(who: Caller, file: Inode, decoded: Version)
    | ReloadStat(who: Caller, file: Inode)
    | ReloadStamp(who: Caller, mtime: Version)
    | ReloadUnlock(who: Caller, failed: bool)     // ... to here
    | GetRelock(seen: Version, failed: bool)     // before the second RLock
    | GetReturn(seen: Version, failed: bool)     // RLock held
    | Returned(seen: Version, failed: bool, result: Version)

  /** `inodes` gives the version each inode holds, `path` what the name `config.json` refers to, `newest` the
      largest modification time in use. `config` is the version of the cached configuration. */
  datatype State = State(
    inodes: map<Inode, Version>, path: Option<Inode>, newest: Version,
    config: Version, lastLoaded: Version,
    writer: Option<nat>, readers: set<nat>, phases: seq<Phase>)

  /** Outside events, calls, and one atomic step of goroutine `t`, whose system call succeeds when `ok`. */
  datatype Label =
    | Publish(file: Inode, version: Version)     // a new file renamed over the old one
    | Unlink
    | EditInPlace(version: Version)
    | CallGet(t: nat)
    | CallReload(t: nat)
    | Act(t: nat, ok: bool)

  predicate CanRLock(s: State) { s.writer.None? }
  predicate CanLock(s: State) { s.writer.None? && s.readers == {} }

  function Go(s: State, t: nat, p: Phase): State
    requires t < |s.phases|
  {
    s.(phases := s.phases[t := p])
  }

  function AfterReload(who: Caller, failed: bool): Phase {
    match who
    case FromGet(seen) => GetRelock(seen, failed)
    case Direct => Idle
  }

  /** One step of goroutine `t`; a step that has to wait for a lock changes nothing. */
  function Step(s: State, t: nat, ok: bool): State
    requires t < |s.phases|
  {
    match s.phases[t]
    case Idle => s
    case Returned(_, _, _) => Go(s, t, Idle)
    case GetStart =>
      if CanRLock(s) then Go(s, t, GetStat).(readers := s.readers + {t}) else s
    case GetStat =>
      Go(s, t, GetCheck(if ok && s.path.Some? && s.path.value in s.inodes then Some(s.inodes[s.path.value]) else None))
    case GetCheck(stat) =>
      if stat.Some? && stat.value > s.lastLoaded
      then Go(s, t, ReloadStart(FromGet(stat.value))).(readers := s.readers - {t})
      else Go(s, t, GetReturn(if stat.Some? then stat.value else 0, false))
    case ReloadStart(who) =>
      if CanLock(s) then Go(s, t, ReloadOpen(who)).(writer := Some(t)) else s
    case ReloadOpen(who) =>
      if ok && s.path.Some? then Go(s, t, ReloadDecode(who, s.path.value)) else Go(s, t, ReloadUnlock(who, true))
    case ReloadDecode(who, f) =>
      if ok && f in s.inodes then Go(s, t, ReloadAssign(who, f, s.inodes[f])) else Go(s, t, ReloadUnlock(who, true))
    case ReloadAssign(who, f, v) =>
      Go(s, t, ReloadStat(who, f)).(config := v)
    case ReloadStat(who, f) =>
      if ok && f in s.inodes then Go(s, t, ReloadStamp(who, s.inodes[f])) else Go(s, t, ReloadUnlock(who, false))
    case ReloadStamp(who, m) =>
      Go(s, t, ReloadUnlock(who, false)).(lastLoaded := m)
    case ReloadUnlock(who, failed) =>
      Go(s, t, AfterReload(who, failed)).(writer := None)
    case GetRelock(seen, failed) =>
      if CanRLock(s) then Go(s, t, GetReturn(seen, failed)).(readers := s.readers + {t}) else s
    case GetReturn(seen, failed) =>
      Go(s, t, Returned(seen, failed, s.config)).(readers := s.readers - {t})
  }

  /** The effect of an event; an event that is not possible in `s` changes nothing. */
  function Exec(s: State, l: Label): State {
    match l
    case Publish(f, v) =>
      if f !in s.inodes && v > s.newest then s.(inodes := s.inodes[f := v], path := Some(f), newest := v) else s
    case Unlink => s.(path := None)
    case EditInPlace(v) =>
      if s.path.Some? && v > s.newest then s.(inodes := s.inodes[s.path.value := v], newest := v) else s
    case CallGet(t) => if t < |s.phases| && s.phases[t].Idle? then Go(s, t, GetStart) else s
    case CallReload(t) => if t < |s.phases| && s.phases[t].Idle? then Go(s, t, ReloadStart(Direct)) else s
    case Act(t, ok) => if t < |s.phases| then Step(s, t, ok) else s
  }

  function Run(s: State, ls: seq<Label>): State
    decreases |ls|
  {
    if ls == [] then s else Run(Exec(s, ls[0]), ls[1..])
  }

  function Init(n: nat): State {
    State(map[], None, 0, 0, 0, None, {}, seq(n, _ => Idle))
  }

  // ---------- what every step keeps, whatever the editors do ----------

  predicate HoldsLock(p: Phase) {
    p.ReloadOpen? || p.ReloadDecode? || p.ReloadAssign? || p.ReloadStat? || p.ReloadStamp? || p.ReloadUnlock?
  }

  predicate HoldsRLock(p: Phase) { p.GetStat? || p.GetCheck? || p.GetReturn? }

  /** The readers-writer lock is respected. */
  predicate Locked(s: State) {
    && (forall t :: 0 <= t < |s.phases| ==> (HoldsLock(s.phases[t]) <==> s.writer == Some(t)))
    && (forall t :: 0 <= t < |s.phases| ==> (HoldsRLock(s.phases[t]) <==> t in s.readers))
    && (s.writer.Some? ==> s.readers == {})
  }

  function Seen(who: Caller): Version { if who.FromGet? then who.seen else 0 }

  /** What a goroutine that has not yet assigned knows about the files. */
  predicate Ahead(s: State, p: Phase) {
    match p
    case GetCheck(stat) => stat.Some? ==> stat.value <= s.newest
    case ReloadStart(who) => Seen(who) <= s.newest
    case ReloadOpen(who) => Seen(who) <= s.newest
    case ReloadDecode(who, f) => f in s.inodes && s.config <= s.inodes[f] && Seen(who) <= s.inodes[f]
    case ReloadAssign(who, f, v) => f in s.inodes && s.config <= v && Seen(who) <= v && v <= s.inodes[f]
    case ReloadStat(who, f) => f in s.inodes && Seen(who) <= s.config && s.config <= s.inodes[f]
    case ReloadStamp(who, m) => Seen(who) <= s.config && m <= s.newest
    case ReloadUnlock(who, failed) => Seen(who) <= s.newest && (!failed ==> Seen(who) <= s.config)
    case GetRelock(seen, failed) => !failed ==> seen <= s.config
    case _ => true
  }

  predicate Bounds(s: State) {
    && s.config <= s.newest && s.lastLoaded <= s.newest
    && (forall f :: f in s.inodes ==> s.inodes[f] <= s.newest)
    && (s.path.Some? ==> s.path.value in s.inodes && s.inodes[s.path.value] == s.newest)
  }

  predicate Base(s: State) {
    Locked(s) && Bounds(s) && forall t :: 0 <= t < |s.phases| ==> Ahead(s, s.phases[t])
  }

  lemma InitBase(n: nat)
    ensures Base(Init(n))
  {
  }

  lemma StepLocked(s: State, t: nat, ok: bool)
    requires Locked(s) && t < |s.phases|
    ensures Locked(Step(s, t, ok))
  {
    var s' := Step(s, t, ok);
    forall u | 0 <= u < |s'.phases|
      ensures HoldsLock(s'.phases[u]) <==> s'.writer == Some(u)
      ensures HoldsRLock(s'.phases[u]) <==> u in s'.readers
    {
      assert HoldsLock(s.phases[u]) <==> s.writer == Some(u);
      assert HoldsRLock(s.phases[u]) <==> u in s.readers;
      assert HoldsLock(s.phases[t]) <==> s.writer == Some(t);
    }
  }

  /** What a step of `t` changes, and what `t` knows afterwards. */
  predicate OwnOk(s: State, t: nat, s': State)
    requires t < |s.phases|
  {
    && s'.inodes == s.inodes && s'.path == s.path && s'.newest == s.newest && |s'.phases| == |s.phases|
    && s.config <= s'.config && Bounds(s')
    && (s'.config != s.config ==> HoldsLock(s.phases[t]))
    && Ahead(s', s'.phases[t])
  }

  lemma WriterStepOwn(s: State, t: nat, ok: bool)
    requires t < |s.phases| && Bounds(s) && Ahead(s, s.phases[t]) && HoldsLock(s.phases[t])
    ensures OwnOk(s, t, Step(s, t, ok))
  {
  }

  lemma StepOwn(s: State, t: nat, ok: bool)
    requires t < |s.phases| && Bounds(s) && Ahead(s, s.phases[t])
    ensures OwnOk(s, t, Step(s, t, ok))
  {
    if HoldsLock(s.phases[t]) {
      WriterStepOwn(s, t, ok);
    }
  }

  lemma StepBase(s: State, t: nat, ok: bool)
    requires Base(s) && t < |s.phases|
    ensures Base(Step(s, t, ok)) && s.config <= Step(s, t, ok).config
  {
    var s' := Step(s, t, ok);
    StepLocked(s, t, ok);
    assert Ahead(s, s.phases[t]);
    StepOwn(s, t, ok);
    forall u | 0 <= u < |s'.phases|
      ensures Ahead(s', s'.phases[u])
    {
      if u != t {
        StepOther(s, t, u, ok);
      }
    }
  }

  lemma StepOther(s: State, t: nat, u: nat, ok: bool)
    requires Base(s) && t < |s.phases| && u < |s.phases| && t != u
    ensures Step(s, t, ok).phases[u] == s.phases[u] && Ahead(Step(s, t, ok), s.phases[u])
  {
    assert Ahead(s, s.phases[u]) && Ahead(s, s.phases[t]);
    StepOwn(s, t, ok);
    assert HoldsLock(s.phases[u]) <==> s.writer == Some(u);
    assert HoldsLock(s.phases[t]) <==> s.writer == Some(t);
  }

  /** A file event keeps what every goroutine knows. */
  lemma FileEventAhead(s: State, l: Label, p: Phase)
    requires Bounds(s) && Ahead(s, p) && (l.Publish? || l.EditInPlace? || l.Unlink?)
    ensures Ahead(Exec(s, l), p) && Bounds(Exec(s, l))
  {
  }

  lemma FileEventBase(s: State, l: Label)
    requires Base(s) && (l.Publish? || l.EditInPlace? || l.Unlink?)
    ensures Base(Exec(s, l)) && s.config <= Exec(s, l).config
  {
    var s' := Exec(s, l);
    FileEventAhead(s, l, Idle);
    assert Locked(s');
    forall u | 0 <= u < |s'.phases|
      ensures Ahead(s', s'.phases[u])
    {
      FileEventAhead(s, l, s.phases[u]);
    }
  }

  lemma CallBase(s: State, t: nat, p: Phase)
    requires Base(s) && t < |s.phases| && s.phases[t].Idle? && (p == GetStart || p == ReloadStart(Direct))
    ensures Base(Go(s, t, p))
  {
    forall u | 0 <= u < |s.phases|
      ensures Ahead(s, s.phases[u])
    {
    }
  }

  /** The cached version never goes backwards, not even when files are edited in place. */
  lemma ExecBase(s: State, l: Label)
    requires Base(s)
    ensures Base(Exec(s, l)) && s.config <= Exec(s, l).config
  {
    match l
    case Act(t, ok) => if t < |s.phases| { StepBase(s, t, ok); }
    case CallGet(t) => if t < |s.phases| && s.phases[t].Idle? { CallBase(s, t, GetStart); }
    case CallReload(t) => if t < |s.phases| && s.phases[t].Idle? { CallBase(s, t, ReloadStart(Direct)); }
    case _ => FileEventBase(s, l);
  }

  // ---------- freshness, and the one event that spoils it ----------

  predicate InWindow(p: Phase, f: Inode) {
    (p.ReloadAssign? && p.file == f) || (p.ReloadStat? && p.file == f)
  }

  /** An edit in place of the very file that a reload has decoded but not yet statted. */
  predicate Torn(s: State, l: Label) {
    && l.EditInPlace? && s.path.Some? && l.version > s.newest
    && exists t :: 0 <= t < |s.phases| && InWindow(s.phases[t], s.path.value)
  }

  /** What a goroutine knows about freshness. */
  predicate Fresh(s: State, p: Phase) {
    match p
    case ReloadAssign(_, f, v) => f in s.inodes && s.inodes[f] == v
    case ReloadStat(_, f) => f in s.inodes && s.inodes[f] == s.config
    case ReloadStamp(_, m) => m == s.config
    case GetReturn(seen, failed) => !failed ==> seen <= s.config
    case Returned(seen, failed, result) => !failed ==> seen <= result
    case _ => true
  }

  predicate Inv(s: State) {
    && Base(s)
    && s.lastLoaded <= s.config
    && forall t :: 0 <= t < |s.phases| ==> Fresh(s, s.phases[t])
  }

  lemma WriterStepFresh(s: State, t: nat, ok: bool)
    requires t < |s.phases| && HoldsLock(s.phases[t]) && s.lastLoaded <= s.config
    requires Ahead(s, s.phases[t]) && Fresh(s, s.phases[t])
    ensures var s' := Step(s, t, ok); Fresh(s', s'.phases[t]) && s'.lastLoaded <= s'.config
  {
  }

  lemma ReaderStepFresh(s: State, t: nat, ok: bool)
    requires t < |s.phases| && !HoldsLock(s.phases[t]) && s.lastLoaded <= s.config
    requires Ahead(s, s.phases[t]) && Fresh(s, s.phases[t])
    ensures var s' := Step(s, t, ok); Fresh(s', s'.phases[t]) && s'.lastLoaded <= s'.config
  {
  }

  lemma StepFreshOwn(s: State, t: nat, ok: bool)
    requires Inv(s) && t < |s.phases|
    ensures var s' := Step(s, t, ok); Fresh(s', s'.phases[t]) && s'.lastLoaded <= s'.config
  {
    assert Ahead(s, s.phases[t]) && Fresh(s, s.phases[t]);
    if HoldsLock(s.phases[t]) {
      WriterStepFresh(s, t, ok);
    } else {
      ReaderStepFresh(s, t, ok);
    }
  }

  lemma StepFreshOther(s: State, t: nat, u: nat, ok: bool)
    requires Inv(s) && t < |s.phases| && u < |s.phases| && t != u
    ensures Fresh(Step(s, t, ok), s.phases[u])
  {
    assert Ahead(s, s.phases[t]);
    StepOwn(s, t, ok);
    assert Fresh(s, s.phases[u]);
    assert HoldsLock(s.phases[u]) <==> s.writer == Some(u);
    assert HoldsLock(s.phases[t]) <==> s.writer == Some(t);
  }

  lemma StepInv(s: State, t: nat, ok: bool)
    requires Inv(s) && t < |s.phases|
    ensures Inv(Step(s, t, ok))
  {
    StepBase(s, t, ok);
    StepFreshOwn(s, t, ok);
    var s' := Step(s, t, ok);
    forall u | 0 <= u < |s'.phases|
      ensures Fresh(s', s'.phases[u])
    {
      if u != t {
        StepFreshOther(s, t, u, ok);
        StepOther(s, t, u, ok);
      }
    }
  }

  lemma ExecInv(s: State, l: Label)
    requires Inv(s) && !Torn(s, l)
    ensures Inv(Exec(s, l))
  {
    ExecBase(s, l);
    var s' := Exec(s, l);
    match l
    case Act(t, ok) => if t < |s.phases| { StepInv(s, t, ok); }
    case _ =>
      forall u | 0 <= u < |s'.phases|
        ensures Fresh(s', s'.phases[u])
      {
        assert Fresh(s, s.phases[u]) && Ahead(s, s.phases[u]);
      }
  }

  /** Torn edits are the only events that break the invariant, and each of them does. */
  lemma ExecInvExactlyWhen(s: State, l: Label)
    requires Inv(s)
    ensures Inv(Exec(s, l)) <==> !Torn(s, l)
  {
    if Torn(s, l) {
      var t :| 0 <= t < |s.phases| && InWindow(s.phases[t], s.path.value);
      assert Fresh(s, s.phases[t]);
      assert !Fresh(Exec(s, l), Exec(s, l).phases[t]);
    } else {
      ExecInv(s, l);
    }
  }

  /** No event of the run is a torn edit. */
  predicate Untorn(s: State, ls: seq<Label>)
    decreases |ls|
  {
    ls == [] || (!Torn(s, ls[0]) && Untorn(Exec(s, ls[0]), ls[1..]))
  }

  lemma {:induction false} RunInv(s: State, ls: seq<Label>)
    requires Inv(s) && Untorn(s, ls)
    ensures Inv(Run(s, ls)) && s.config <= Run(s, ls).config
    decreases |ls|
  {
    if ls == [] {
    } else {
      ExecInv(s, ls[0]);
      ExecBase(s, ls[0]);
      RunInv(Exec(s, ls[0]), ls[1..]);
    }
  }

  predicate EditFree(ls: seq<Label>) { forall l :: l in ls ==> !l.EditInPlace? }

  lemma {:induction false} ReplacementsAreUntorn(s: State, ls: seq<Label>)
    requires EditFree(ls)
    ensures Untorn(s, ls)
    decreases |ls|
  {
    if ls == [] {
    } else {
      ReplacementsAreUntorn(Exec(s, ls[0]), ls[1..]);
    }
  }

  /** Over every run of any number of goroutines in which files are replaced by rename: the stamp never exceeds
      the cached version, the cached version never goes backwards, and a `Get` whose stat saw a version returns
      that version or a later one unless its own reload failed to open or parse the file. */
  lemma CacheIsCoherent(n: nat, before: seq<Label>, after: seq<Label>)
    requires EditFree(before + after)
    ensures var s := Run(Init(n), before); var s' := Run(s, after);
            && s'.lastLoaded <= s'.config
            && s.config <= s'.config
            && forall t :: 0 <= t < |s'.phases| && s'.phases[t].Returned? && !s'.phases[t].failed ==>
                 s'.phases[t].seen <= s'.phases[t].result
  {
    InitBase(n);
    assert forall l :: l in before ==> l in before + after;
    assert forall l :: l in after ==> l in before + after;
    ReplacementsAreUntorn(Init(n), before);
    RunInv(Init(n), before);
    var s := Run(Init(n), before);
    ReplacementsAreUntorn(s, after);
    RunInv(s, after);
    forall t | 0 <= t < |Run(s, after).phases|
      ensures Fresh(Run(s, after), Run(s, after).phases[t])
    {
    }
  }

  /** The steps that remain of a reload that has decoded the file. */
  function RestOfReload(p: Phase, t: nat): seq<Label> {
    var a := Act(t, true);
    if p.ReloadAssign? then [a, a, a, a] else [a, a, a]
  }

  lemma RunThree(s: State, a: Label)
    ensures Run(s, [a, a, a]) == Exec(Exec(Exec(s, a), a), a)
  {
    assert [a, a, a][1..] == [a, a] && [a, a][1..] == [a] && [a][1..] == [];
    assert Run(Exec(s, a), [a, a]) == Run(Exec(Exec(s, a), a), [a]);
    assert Run(Exec(Exec(s, a), a), [a]) == Exec(Exec(Exec(s, a), a), a);
  }

  /** From the stat on, a reload stamps what its file is now. */
  lemma StampsNow(s: State, t: nat)
    requires Base(s) && t < |s.phases| && s.phases[t].ReloadStat? && s.path == Some(s.phases[t].file)
    ensures var s' := Run(s, [Act(t, true), Act(t, true), Act(t, true)]);
            && s'.config == s.config && s'.lastLoaded == s.newest
            && Base(s') && CanLock(s') && s'.path == s.path && s'.inodes == s.inodes && s'.newest == s.newest
            && |s'.phases| == |s.phases| && forall u :: 0 <= u < |s.phases| && u != t ==> s'.phases[u] == s.phases[u]
  {
    var a := Act(t, true);
    var s2 := Exec(s, a);
    ExecBase(s, a);
    assert s2.phases[t] == ReloadStamp(s.phases[t].who, s.newest);
    var s3 := Exec(s2, a);
    ExecBase(s2, a);
    assert s3.phases[t] == ReloadUnlock(s.phases[t].who, false);
    assert HoldsLock(s3.phases[t]);
    ExecBase(s3, a);
    RunThree(s, a);
  }

  /** What a torn edit leads to: from any good state, whether the reload has yet to assign the configuration or
      only to stat the file, its remaining steps leave a stamp beyond the cached version ... */
  lemma TornEditSpoils(s: State, t: nat, v: Version)
    requires Inv(s) && t < |s.phases| && s.path.Some? && v > s.newest
    requires InWindow(s.phases[t], s.path.value)
    ensures Torn(s, EditInPlace(v))
    ensures var s' := Run(Exec(s, EditInPlace(v)), RestOfReload(s.phases[t], t));
            && s'.config == s.newest < v == s'.lastLoaded
            && Base(s') && CanLock(s') && s'.path == s.path && s'.inodes[s.path.value] == v
            && |s'.phases| == |s.phases| && forall u :: 0 <= u < |s.phases| && u != t ==> s'.phases[u] == s.phases[u]
  {
    var a := Act(t, true);
    var s1 := Exec(s, EditInPlace(v));
    ExecBase(s, EditInPlace(v));
    assert Fresh(s, s.phases[t]);
    if s.phases[t].ReloadAssign? {
      var s2 := Exec(s1, a);
      ExecBase(s1, a);
      assert s2.phases[t] == ReloadStat(s.phases[t].who, s.phases[t].file);
      StampsNow(s2, t);
      assert [a, a, a, a][1..] == [a, a, a];
    } else {
      StampsNow(s1, t);
    }
  }

  /** Without any further edit in place, the stamp can come to exceed the cached version. */
  ghost predicate CanGoStale(s: State) {
    exists ls: seq<Label> :: EditFree(ls) && Run(s, ls).lastLoaded > Run(s, ls).config
  }

  /** In terms of what can be observed: from a good state, an event opens the way for a stamp beyond the cached
      version exactly when it is a torn edit. */
  lemma StaleExactlyWhen(s: State, l: Label)
    requires Inv(s)
    ensures CanGoStale(Exec(s, l)) <==> Torn(s, l)
  {
    if Torn(s, l) {
      var t :| 0 <= t < |s.phases| && InWindow(s.phases[t], s.path.value);
      TornEditSpoils(s, t, l.version);
      assert EditFree(RestOfReload(s.phases[t], t));
    } else {
      ExecInv(s, l);
      forall ls: seq<Label> | EditFree(ls)
        ensures Run(Exec(s, l), ls).lastLoaded <= Run(Exec(s, l), ls).config
      {
        ReplacementsAreUntorn(Exec(s, l), ls);
        RunInv(Exec(s, l), ls);
      }
    }
  }

  /** ... after which a `Get` that sees the edited file returns the old configuration without any failure. */
  lemma StaleAfterTornEdit(s: State, u: nat, v: Version)
    requires u < |s.phases| && s.phases[u].Idle? && CanLock(s) && s.path.Some?
    requires s.path.value in s.inodes && s.inodes[s.path.value] == v && s.config < v == s.lastLoaded
    ensures var a := Act(u, true); var s' := Exec(Exec(Exec(Exec(Exec(s, CallGet(u)), a), a), a), a);
            |s'.phases| == |s.phases| && s'.phases[u] == Returned(v, false, s.config)
  {
    var a := Act(u, true);
    var s1 := Exec(s, CallGet(u));
    var s2 := Exec(s1, a);
    assert s2.phases[u] == GetStat;
    var s3 := Exec(s2, a);
    assert s3.phases[u] == GetCheck(Some(v));
    var s4 := Exec(s3, a);
    assert s4.phases[u] == GetReturn(v, false);
  }
}
