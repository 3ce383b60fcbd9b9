/** When cached log rules go backwards (`getLogRules` in `internal/discord/forwarder.go`), exactly. */
module RulesGoBack {
  import opened GoStrings
  import opened LogRulesCache

  /** Every load that is still to be written is of the newest version. */
  predicate WritesNewest(s: State) {
    forall t :: 0 <= t < |s.phases| && s.phases[t].Write? ==> s.phases[t].loaded == s.newest
  }

  /** An edit that lands while a goroutine has loaded the rules but not yet written them. */
  predicate Overtakes(s: State, l: Label) {
    && l.Edit? && l.version > s.newest
    && exists t :: 0 <= t < |s.phases| && s.phases[t].Write?
  }

  predicate NoFall(s: State, s': State) {
    |s.entries| <= |s'.entries| && forall i :: 0 <= i < |s.entries| ==> s.entries[i].rules <= s'.entries[i].rules
  }

  /** Any other event keeps pending writes up to date, and no entry's rules fall. */
  lemma ExecNoFall(s: State, l: Label)
    requires Inv(s) && WritesNewest(s) && !Overtakes(s, l)
    ensures WritesNewest(Exec(s, l)) && NoFall(s, Exec(s, l))
  {
    var s' := Exec(s, l);
    forall t | 0 <= t < |s'.phases| && s'.phases[t].Write?
      ensures s'.phases[t].loaded == s'.newest
    {
      if s.phases[t].Write? {
        assert l.Edit? ==> s'.newest == s.newest;
      }
    }
  }

  /** No event of the run overtakes a pending write. */
  predicate NeverOvertaken(s: State, ls: seq<Label>)
    decreases |ls|
  {
    ls == [] || (!Overtakes(s, ls[0]) && NeverOvertaken(Exec(s, ls[0]), ls[1..]))
  }

  lemma {:induction false} RunNoFall(s: State, ls: seq<Label>)
    requires Inv(s) && WritesNewest(s) && NeverOvertaken(s, ls)
    ensures Inv(Run(s, ls)) && WritesNewest(Run(s, ls)) && NoFall(s, Run(s, ls))
    decreases |ls|
  {
    if ls == [] {
    } else {
      var s1 := Exec(s, ls[0]);
      ExecInv(s, ls[0]);
      ExecNoFall(s, ls[0]);
      RunNoFall(s1, ls[1..]);
    }
  }

  /** Over every run in which no edit lands between a load and its write, cached rules never go backwards. */
  lemma RulesNeverGoBack(n: nat, before: seq<Label>, after: seq<Label>)
    requires NeverOvertaken(Init(n), before) && NeverOvertaken(Run(Init(n), before), after)
    ensures NoFall(Run(Init(n), before), Run(Run(Init(n), before), after))
  {
    RunNoFall(Init(n), before);
    RunNoFall(Run(Init(n), before), after);
  }

  /** A whole call of goroutine `u`, up to and including its write, and then the write of goroutine `t`. */
  function LateWrite(t: nat, u: nat): seq<Label> {
    var a := Act(u, true);
    [Call(u), a, a, a, a, a, Act(t, true)]
  }

  /** `u` reloads the entry that the path maps to, step by step. */
  lemma ReloadsBy(s: State, u: nat, id: nat)
    requires Inv(s) && u < |s.phases| && s.phases[u].Idle? && s.cached == Some(id)
    requires s.fileExists && s.entries[id].lastLoaded < s.newest
    ensures var a := Act(u, true); var s' := Run(s, [Call(u), a, a, a, a, a]);
            && s'.entries == s.entries[id := Entry(s.newest, s.newest)]
            && |s'.phases| == |s.phases| && (forall v :: 0 <= v < |s.phases| && v != u ==> s'.phases[v] == s.phases[v])
  {
    var a := Act(u, true);
    var s0 := Exec(s, Call(u));
    var s1 := Exec(s0, a);
    assert s1.phases[u] == StatFile(id);
    var s2 := Exec(s1, a);
    assert s2.phases[u] == Check(id, s.newest);
    var s3 := Exec(s2, a);
    assert s3.phases[u] == Load(id, s.newest);
    var s4 := Exec(s3, a);
    assert s4.phases[u] == Write(id, s.newest, s.newest);
    var s5 := Exec(s4, a);
    RunSix(s, Call(u), a, a, a, a, a);
  }

  lemma RunThree(s: State, a: Label, b: Label, c: Label)
    ensures Run(s, [a, b, c]) == Exec(Exec(Exec(s, a), b), c)
  {
    assert [a, b, c][1..] == [b, c] && [b, c][1..] == [c] && [c][1..] == [];
    assert Run(Exec(s, a), [b, c]) == Run(Exec(Exec(s, a), b), [c]);
    assert Run(Exec(Exec(s, a), b), [c]) == Exec(Exec(Exec(s, a), b), c);
  }

  lemma RunSix(s: State, a: Label, b: Label, c: Label, d: Label, e: Label, f: Label)
    ensures Run(s, [a, b, c, d, e, f]) == Exec(Exec(Exec(Exec(Exec(Exec(s, a), b), c), d), e), f)
  {
    assert [a, b, c, d, e, f] == [a, b, c] + [d, e, f];
    RunConcat(s, [a, b, c], [d, e, f]);
    RunThree(s, a, b, c);
    RunThree(Exec(Exec(Exec(s, a), b), c), d, e, f);
  }

  lemma {:induction false} RunConcat(s: State, a: seq<Label>, b: seq<Label>)
    ensures Run(s, a + b) == Run(Run(s, a), b)
    decreases |a|
  {
    if a == [] {
      assert a + b == b;
    } else {
      assert (a + b)[1..] == a[1..] + b;
      RunConcat(Exec(s, a[0]), a[1..], b);
    }
  }

  /** An edit that overtakes a write does make rules go back, as soon as another goroutine serves the new file
      before the old write lands. */
  lemma OvertakenWriteGoesBack(s: State, t: nat, u: nat, v: Version)
    requires Inv(s) && t < |s.phases| && s.phases[t].Write? && s.cached == Some(s.phases[t].id)
    requires u < |s.phases| && s.phases[u].Idle? && v > s.newest
    ensures var id := s.phases[t].id; var s1 := Exec(s, Edit(v));
            var served := Run(s1, LateWrite(t, u)[..6]); var late := Run(s1, LateWrite(t, u));
            && late == Exec(served, Act(t, true))
            && id < |s.entries| == |served.entries| == |late.entries|
            && served.entries[id].rules == v && late.entries[id].rules == s.phases[t].loaded < v
  {
    assert PhaseOk(s, s.phases[t]);
    var id := s.phases[t].id;
    assert EntryOk(s.entries[id], s.newest);
    var s1 := Exec(s, Edit(v));
    ExecInv(s, Edit(v));
    var a := Act(u, true);
    ReloadsBy(s1, u, id);
    assert LateWrite(t, u)[..6] == [Call(u), a, a, a, a, a];
    assert LateWrite(t, u) == [Call(u), a, a, a, a, a] + [Act(t, true)];
    RunConcat(s1, [Call(u), a, a, a, a, a], [Act(t, true)]);
    assert [Act(t, true)][1..] == [];
  }

  predicate EditFree(ls: seq<Label>) { forall x :: x in ls ==> !x.Edit? }

  /** Without any further edit, some step makes some entry's rules fall. */
  ghost predicate CanFall(s: State) {
    exists ls: seq<Label>, l: Label :: FallsAfter(s, ls, l)
  }

  ghost predicate FallsAfter(s: State, ls: seq<Label>, l: Label) {
    EditFree(ls) && !l.Edit? && !NoFall(Run(s, ls), Exec(Run(s, ls), l))
  }

  lemma {:induction false} NoEditsNeverOvertake(s: State, ls: seq<Label>)
    requires EditFree(ls)
    ensures NeverOvertaken(s, ls)
    decreases |ls|
  {
    if ls == [] {
    } else {
      NoEditsNeverOvertake(Exec(s, ls[0]), ls[1..]);
    }
  }

  lemma UpToDateCannotFall(s: State)
    requires Inv(s) && WritesNewest(s)
    ensures !CanFall(s)
  {
    forall ls: seq<Label>, l: Label
      ensures !FallsAfter(s, ls, l)
    {
      if EditFree(ls) {
        NoEditsNeverOvertake(s, ls);
        RunNoFall(s, ls);
        if !l.Edit? {
          ExecNoFall(Run(s, ls), l);
        }
      }
    }
  }

  // ---------- who can write newer rules before a late write lands ----------

  predicate WritesTo(s: State, t: nat, id: nat) {
    t < |s.phases| && s.phases[t].Write? && s.phases[t].id == id
  }

  /** A stat of `seen` will find entry `id` out of date: now, or after a third goroutine's pending write. */
  predicate MayPass(s: State, t: nat, u: nat, id: nat, seen: Version) {
    || (id < |s.entries| && seen > s.entries[id].lastLoaded)
    || exists x :: 0 <= x < |s.phases| && x != t && x != u && WritesTo(s, x, id) && s.phases[x].seen < seen
  }

  /** Goroutine `u` can load the current file into entry `id` while goroutine `t` holds a write to it: it is on its
      way there, or it can come back through the cache. A goroutine that is creating an entry of its own replaces the
      cached one first. */
  predicate CanServe(s: State, t: nat, u: nat, id: nat) {
    && u < |s.phases| && u != t
    && match s.phases[u]
       case Create => false
       case Install(i) => i == id
       case StatFile(i) => i == id || s.cached == Some(id)
       case Check(i, seen) => (i == id && MayPass(s, t, u, id, seen)) || s.cached == Some(id)
       case Load(i, _) => i == id || s.cached == Some(id)
       case _ => s.cached == Some(id)
  }

  /** Some pending write can be overtaken by another goroutine. */
  ghost predicate Contested(s: State) {
    exists t: nat, u: nat, id: nat :: WritesTo(s, t, id) && CanServe(s, t, u, id)
  }

  /** `u` will write the newest rules to `id` with its next steps. */
  predicate OnItsWay(s: State, u: nat, id: nat) {
    && u < |s.phases| && id < |s.entries| && s.entries[id].lastLoaded < s.newest && s.fileExists
    && match s.phases[u]
       case Idle => s.cached == Some(id)
       case Lookup => s.cached == Some(id)
       case Install(i) => i == id
       case StatFile(i) => i == id
       case Check(i, seen) => i == id && seen > s.entries[id].lastLoaded
       case Load(i, _) => i == id
       case Write(i, _, loaded) => i == id && loaded == s.newest
       case _ => false
  }

  function Rank(p: Phase): nat {
    match p
    case Idle => 0
    case Returned(_, _, _) => 1
    case Return(_, _, _) => 2
    case Write(_, _, _) => 3
    case Load(_, _) => 4
    case Check(_, _) => 5
    case StatFile(_) => 6
    case Install(_) => 7
    case Create => 8
    case Lookup => 9
  }

  function Ahead(p: Phase): nat { if p.Idle? then 10 else Rank(p) }

  /** The other goroutines, the file and `t` are as they were. */
  predicate Around(s: State, s': State, t: nat) {
    && s'.newest == s.newest && s'.fileExists == s.fileExists && |s'.phases| == |s.phases|
    && t < |s.phases| && s'.phases[t] == s.phases[t] && |s.entries| <= |s'.entries|
  }

  lemma {:induction false} ServeRun(s: State, t: nat, u: nat, id: nat) returns (ls: seq<Label>)
    requires Inv(s) && t < |s.phases| && t != u && OnItsWay(s, u, id)
    ensures EditFree(ls)
    ensures var s' := Run(s, ls); Inv(s') && Around(s, s', t) && s'.entries[id].rules == s.newest
    decreases if u < |s.phases| then Ahead(s.phases[u]) else 0
  {
    var l := if s.phases[u].Idle? then Call(u) else Act(u, true);
    var s1 := Exec(s, l);
    ExecInv(s, l);
    if s.phases[u].Write? {
      ls := [l];
      assert [l][1..] == [];
    } else {
      var rest := ServeRun(s1, t, u, id);
      ls := [l] + rest;
      assert ls[1..] == rest;
    }
  }

  /** `u` finishes what it is doing, without loading anything. */
  lemma {:induction false} DriveIdle(s: State, t: nat, u: nat, id: nat) returns (ls: seq<Label>)
    requires Inv(s) && t < |s.phases| && u < |s.phases| && t != u && s.cached == Some(id)
    requires !s.phases[u].Create? && !s.phases[u].Install?
    requires s.entries[id].lastLoaded < s.newest && (s.phases[u].Write? ==> s.phases[u].seen < s.newest)
    ensures EditFree(ls)
    ensures var s' := Run(s, ls);
            && Inv(s') && Around(s, s', t) && s'.cached == s.cached && s'.phases[u].Idle?
            && s'.entries[id].lastLoaded < s'.newest
    decreases Rank(s.phases[u])
  {
    assert PhaseOk(s, s.phases[u]);
    if s.phases[u].Idle? {
      ls := [];
    } else {
      var l := Act(u, false);
      ExecInv(s, l);
      var rest := DriveIdle(Exec(s, l), t, u, id);
      ls := [l] + rest;
      assert ls[1..] == rest;
    }
  }

  /** After an edit, whoever can serve the entry does so before the late write. */
  lemma ServesFirst(s: State, t: nat, u: nat, id: nat) returns (ls: seq<Label>)
    requires Inv(s) && WritesTo(s, t, id) && CanServe(s, t, u, id) && s.fileExists
    requires forall i :: 0 <= i < |s.entries| ==> s.entries[i].lastLoaded < s.newest
    requires forall x :: 0 <= x < |s.phases| && s.phases[x].Write? ==> s.phases[x].seen < s.newest
    ensures EditFree(ls)
    ensures var s' := Run(s, ls); Inv(s') && Around(s, s', t) && id < |s.entries| && s'.entries[id].rules == s.newest
  {
    assert PhaseOk(s, s.phases[t]);
    if OnItsWay(s, u, id) {
      ls := ServeRun(s, t, u, id);
    } else if s.cached == Some(id) {
      var first := DriveIdle(s, t, u, id);
      var s1 := Run(s, first);
      var rest := ServeRun(s1, t, u, id);
      RunConcat(s, first, rest);
      ls := first + rest;
    } else {
      var x: nat :| x != t && x != u && WritesTo(s, x, id) && s.phases[x].seen < s.phases[u].seen;
      ThirdLetsPass(s, t, u, x, id);
      var rest := ServeRun(Exec(s, Act(x, true)), t, u, id);
      ls := [Act(x, true)] + rest;
      assert ls[1..] == rest;
    }
  }

  /** A third goroutine's late write puts an older stamp, so that a stat that was not newer now is. */
  lemma ThirdLetsPass(s: State, t: nat, u: nat, x: nat, id: nat)
    requires Inv(s) && t < |s.phases| && u < |s.phases| && x != t && x != u && WritesTo(s, x, id) && s.fileExists
    requires s.phases[u].Check? && s.phases[u].id == id && s.phases[x].seen < s.phases[u].seen
    ensures var s1 := Exec(s, Act(x, true)); Inv(s1) && Around(s, s1, t) && OnItsWay(s1, u, id)
  {
    assert PhaseOk(s, s.phases[x]) && PhaseOk(s, s.phases[u]);
    ExecInv(s, Act(x, true));
    var s1 := Exec(s, Act(x, true));
    assert s1.entries[id] == Entry(s.phases[x].loaded, s.phases[x].seen);
    assert s1.phases[u] == s.phases[u];
  }

  lemma ContestedCanFall(s: State, v: Version)
    requires Inv(s) && WritesNewest(s) && Contested(s) && v > s.newest
    ensures CanFall(Exec(s, Edit(v)))
  {
    var t: nat, u: nat, id: nat :| WritesTo(s, t, id) && CanServe(s, t, u, id);
    var s1 := Exec(s, Edit(v));
    ExecInv(s, Edit(v));
    EditSeen(s, v);
    assert WritesTo(s1, t, id) && CanServe(s1, t, u, id);
    var ls := ServesFirst(s1, t, u, id);
    assert FallsAfter(s1, ls, Act(t, true));
  }

  lemma EditSeen(s: State, v: Version)
    requires Inv(s) && WritesNewest(s) && v > s.newest
    ensures var s1 := Exec(s, Edit(v));
            && (forall i :: 0 <= i < |s1.entries| ==> s1.entries[i].lastLoaded < s1.newest)
            && (forall x :: 0 <= x < |s1.phases| && s1.phases[x].Write? ==> s1.phases[x].seen < s1.newest)
            && forall t: nat, u: nat, id: nat :: CanServe(s, t, u, id) ==> CanServe(s1, t, u, id)
  {
    var s1 := Exec(s, Edit(v));
    forall x | 0 <= x < |s1.phases| && s1.phases[x].Write?
      ensures s1.phases[x].seen < s1.newest
    {
      assert PhaseOk(s, s.phases[x]);
    }
    forall i | 0 <= i < |s1.entries|
      ensures s1.entries[i].lastLoaded < s1.newest
    {
      assert EntryOk(s.entries[i], s.newest);
    }
    assert forall x: nat, id: nat :: WritesTo(s, x, id) ==> WritesTo(s1, x, id);
  }

  // ---------- late writes that nobody can overtake ----------

  /** Pending writes are of the newest version or of `w`; those of `w` find nothing newer in their entry, and nobody
      who could bring something newer. */
  ghost predicate Uncontested(s: State, w: Version) {
    && (forall t :: 0 <= t < |s.phases| && s.phases[t].Write? ==>
          s.phases[t].loaded == w || s.phases[t].loaded == s.newest)
    && forall t: nat, id: nat :: WritesTo(s, t, id) && s.phases[t].loaded != s.newest ==> Unrivalled(s, t, id, w)
  }

  ghost predicate Unrivalled(s: State, t: nat, id: nat, w: Version) {
    && t < |s.phases| && s.phases[t].Write? && s.phases[t].loaded == w
    && id < |s.entries| && s.entries[id].rules <= w
    && (forall u: nat :: u != t && WritesTo(s, u, id) ==> s.phases[u].loaded == w)
    && forall u: nat :: !CanServe(s, t, u, id)
  }

  /** One step of another goroutine, seen by a late write: nobody becomes able to serve the entry. */
  lemma StaysUnrivalled(s: State, l: Label, w: Version, t: nat, id: nat)
    requires Inv(s) && WritesTo(s, t, id) && Unrivalled(s, t, id, w) && !l.Edit? && s.phases[t].loaded != s.newest
    requires WritesTo(Exec(s, l), t, id) && Exec(s, l).phases[t] == s.phases[t]
    ensures Unrivalled(Exec(s, l), t, id, w)
  {
    var s' := Exec(s, l);
    assert PhaseOk(s, s.phases[t]);
    forall u: nat | u != t && WritesTo(s', u, id)
      ensures s'.phases[u].loaded == w
    {
      if !WritesTo(s, u, id) {
        assert !CanServe(s, t, u, id);
      }
    }
    forall u: nat
      ensures !CanServe(s', t, u, id)
    {
      assert !CanServe(s, t, u, id);
      ServersDoNotAppear(s, l, w, t, id, u);
    }
  }

  /** A step of `u` itself. */
  lemma OwnStepServesNot(s: State, ok: bool, w: Version, t: nat, id: nat, u: nat)
    requires Inv(s) && WritesTo(s, t, id) && Unrivalled(s, t, id, w) && u < |s.phases| && u != t
    ensures !CanServe(Step(s, u, ok), t, u, id)
  {
    assert PhaseOk(s, s.phases[t]) && PhaseOk(s, s.phases[u]) && !CanServe(s, t, u, id);
    assert forall x: nat :: x != u && WritesTo(Step(s, u, ok), x, id) ==> WritesTo(s, x, id);
  }

  /** A step of another goroutine `x`: it neither brings the entry back into use nor lets a stat pass that did not. */
  lemma OtherStepServesNot(s: State, ok: bool, w: Version, t: nat, id: nat, u: nat, x: nat)
    requires Inv(s) && WritesTo(s, t, id) && Unrivalled(s, t, id, w) && u < |s.phases| && u != t
    requires x < |s.phases| && x != u && WritesTo(Step(s, x, ok), t, id)
    ensures !CanServe(Step(s, x, ok), t, u, id)
  {
    assert PhaseOk(s, s.phases[u]) && PhaseOk(s, s.phases[x]) && !CanServe(s, t, u, id) && !CanServe(s, t, x, id);
    var s' := Step(s, x, ok);
    assert s'.phases[u] == s.phases[u];
    assert forall y: nat :: y != x && WritesTo(s', y, id) ==> WritesTo(s, y, id);
  }

  lemma ServersDoNotAppear(s: State, l: Label, w: Version, t: nat, id: nat, u: nat)
    requires Inv(s) && WritesTo(s, t, id) && Unrivalled(s, t, id, w) && !l.Edit?
    requires WritesTo(Exec(s, l), t, id) && Exec(s, l).phases[t] == s.phases[t]
    ensures !CanServe(Exec(s, l), t, u, id)
  {
    assert !CanServe(s, t, u, id);
    if u < |s.phases| && u != t {
      if l.Act? && l.t < |s.phases| {
        if l.t == u {
          OwnStepServesNot(s, l.ok, w, t, id, u);
        } else {
          OtherStepServesNot(s, l.ok, w, t, id, u, l.t);
        }
      } else {
        assert forall x: nat :: WritesTo(Exec(s, l), x, id) ==> WritesTo(s, x, id);
      }
    }
  }

  lemma UncontestedNoFall(s: State, l: Label, w: Version)
    requires Inv(s) && Uncontested(s, w) && !l.Edit?
    ensures NoFall(s, Exec(s, l))
  {
    if l.Act? && l.t < |s.phases| && s.phases[l.t].Write? {
      var id := s.phases[l.t].id;
      assert WritesTo(s, l.t, id) && PhaseOk(s, s.phases[l.t]) && EntryOk(s.entries[id], s.newest);
    }
  }

  lemma PendingWritesAre(s: State, l: Label, w: Version, t: nat, id: nat)
    requires Inv(s) && Uncontested(s, w) && !l.Edit? && WritesTo(Exec(s, l), t, id)
    ensures var s' := Exec(s, l);
            || s'.phases[t].loaded == s'.newest
            || (s'.phases[t].loaded == w && WritesTo(s, t, id) && s'.phases[t] == s.phases[t])
  {
  }

  /** Without edits, nothing goes back while the late writes are uncontested. */
  lemma UncontestedStep(s: State, l: Label, w: Version)
    requires Inv(s) && Uncontested(s, w) && !l.Edit?
    ensures Uncontested(Exec(s, l), w) && NoFall(s, Exec(s, l))
  {
    var s' := Exec(s, l);
    forall t: nat, id: nat | WritesTo(s', t, id)
      ensures s'.phases[t].loaded == w || s'.phases[t].loaded == s'.newest
      ensures s'.phases[t].loaded != s'.newest ==> Unrivalled(s', t, id, w)
    {
      PendingWritesAre(s, l, w, t, id);
      if s'.phases[t].loaded != s'.newest {
        StaysUnrivalled(s, l, w, t, id);
      }
    }
    forall t: nat | t < |s'.phases| && s'.phases[t].Write?
      ensures s'.phases[t].loaded == w || s'.phases[t].loaded == s'.newest
    {
      assert WritesTo(s', t, s'.phases[t].id);
    }
    UncontestedNoFall(s, l, w);
  }

  lemma {:induction false} UncontestedRun(s: State, ls: seq<Label>, w: Version)
    requires Inv(s) && Uncontested(s, w) && EditFree(ls)
    ensures Inv(Run(s, ls)) && Uncontested(Run(s, ls), w)
    decreases |ls|
  {
    if ls == [] {
    } else {
      ExecInv(s, ls[0]);
      UncontestedStep(s, ls[0], w);
      UncontestedRun(Exec(s, ls[0]), ls[1..], w);
    }
  }

  lemma UncontestedCannotFall(s: State, w: Version)
    requires Inv(s) && Uncontested(s, w)
    ensures !CanFall(s)
  {
    forall ls: seq<Label>, l: Label
      ensures !FallsAfter(s, ls, l)
    {
      if EditFree(ls) {
        UncontestedRun(s, ls, w);
        if !l.Edit? {
          UncontestedStep(Run(s, ls), l, w);
        }
      }
    }
  }

  lemma EditUncontested(s: State, v: Version)
    requires Inv(s) && WritesNewest(s) && !Contested(s) && v > s.newest
    ensures Uncontested(Exec(s, Edit(v)), s.newest)
  {
    var s1 := Exec(s, Edit(v));
    forall t: nat, id: nat | WritesTo(s1, t, id)
      ensures Unrivalled(s1, t, id, s.newest)
    {
      assert WritesTo(s, t, id) && PhaseOk(s, s.phases[t]) && EntryOk(s.entries[id], s.newest);
      forall u: nat
        ensures !CanServe(s1, t, u, id)
      {
        assert !CanServe(s, t, u, id);
        assert forall x: nat :: WritesTo(s1, x, id) ==> WritesTo(s, x, id);
      }
    }
  }

  /** The exact condition, on the event, for entries in use and for those that the creation race has left behind:
      where pending writes are up to date, an event opens the way for rules to go back if and only if it is an edit
      of the file, and some goroutine can load the file into an entry that another one has a pending write for. */
  lemma BackwardsExactlyWhen(s: State, l: Label)
    requires Inv(s) && WritesNewest(s)
    ensures CanFall(Exec(s, l)) <==> l.Edit? && l.version > s.newest && Contested(s)
  {
    if l.Edit? && l.version > s.newest {
      if Contested(s) {
        ContestedCanFall(s, l.version);
      } else {
        ExecInv(s, l);
        EditUncontested(s, l.version);
        UncontestedCannotFall(Exec(s, l), s.newest);
      }
    } else {
      ExecInv(s, l);
      ExecNoFall(s, l);
      UpToDateCannotFall(Exec(s, l));
    }
  }

  /** A state that the condition applies to: goroutine 0 has created the entry and loaded version 1. */
  function FirstLoad(): seq<Label> {
    var a := Act(0, true);
    [Edit(1), Call(0), a] + [a, a, a] + [a, a]
  }

  lemma FirstLooksUp()
    ensures Run(Init(2), [Edit(1), Call(0), Act(0, true)]) == State([], None, true, 1, [Create, Idle])
  {
    var s0 := Init(2);
    assert s0.phases == [Idle, Idle];
    assert Exec(Exec(s0, Edit(1)), Call(0)).phases == [Lookup, Idle];
    RunThree(s0, Edit(1), Call(0), Act(0, true));
  }

  lemma FirstCreates()
    ensures var a := Act(0, true);
            Run(State([], None, true, 1, [Create, Idle]), [a, a, a]) ==
              State([Entry(0, 0)], Some(0), true, 1, [Check(0, 1), Idle])
  {
    var a, s := Act(0, true), State([], None, true, 1, [Create, Idle]);
    assert Exec(s, a) == State([Entry(0, 0)], None, true, 1, [Install(0), Idle]);
    assert Exec(Exec(s, a), a) == State([Entry(0, 0)], Some(0), true, 1, [StatFile(0), Idle]);
    RunThree(s, a, a, a);
  }

  lemma FirstLoads()
    ensures var a := Act(0, true);
            Run(State([Entry(0, 0)], Some(0), true, 1, [Check(0, 1), Idle]), [a, a]) ==
            State([Entry(0, 0)], Some(0), true, 1, [Write(0, 1, 1), Idle])
  {
    var a, s := Act(0, true), State([Entry(0, 0)], Some(0), true, 1, [Check(0, 1), Idle]);
    assert Exec(s, a) == State([Entry(0, 0)], Some(0), true, 1, [Load(0, 1), Idle]);
    assert [a, a][1..] == [a] && [a][1..] == [];
    assert Run(s, [a, a]) == Run(Exec(s, a), [a]) == Exec(Exec(s, a), a);
  }

  lemma FirstLoadReaches()
    ensures Run(Init(2), FirstLoad()) == State([Entry(0, 0)], Some(0), true, 1, [Write(0, 1, 1), Idle])
  {
    var a := Act(0, true);
    RunConcat(Init(2), [Edit(1), Call(0), a] + [a, a, a], [a, a]);
    RunConcat(Init(2), [Edit(1), Call(0), a], [a, a, a]);
    FirstLooksUp();
    FirstCreates();
    FirstLoads();
  }

  /** From the start of the program: goroutine 0 loads version 1, the file becomes version 2, goroutine 1 serves
      it, and goroutine 0 writes version 1 over it. */
  lemma SlowLoaderGoesBack()
    ensures var served := Run(Exec(Run(Init(2), FirstLoad()), Edit(2)), LateWrite(0, 1)[..6]);
            var late := Exec(served, Act(0, true));
            && |served.entries| == |late.entries| == 1
            && served.entries[0].rules == 2 && late.entries[0].rules == 1
  {
    FirstLoadReaches();
    var s := Run(Init(2), FirstLoad());
    assert Inv(s);
    OvertakenWriteGoesBack(s, 0, 1, 2);
  }
}
