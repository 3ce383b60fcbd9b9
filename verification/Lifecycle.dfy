/** Container lifecycle (`Start`, `Stop`, `Kill`, `Remove` in `internal/container/container.go`) against Docker. */
module Lifecycle {
  import opened GoStrings

  /** What a container was created with. */
  datatype Spec = Spec(image: string, settings: string)

  datatype Container = Container(spec: Spec, running: bool)

  /** Docker's history: containers created and removed. */
  datatype Fact = Created(name: string, spec: Spec) | Removed(name: string, wasRunning: bool)

  /** The next Docker call of a goroutine inside the manager. */
  datatype Phase =
    | Idle
    | StartInspect(name: string, spec: Spec)
    | StartCreate(name: string, spec: Spec)
    | StartRun(name: string)
    | StopCall(name: string)
    | KillStop(name: string)
    | KillKill(name: string)
    | RemoveInspect(name: string)
    | RemoveCall(name: string)
    | Done(err: bool)

  datatype State = State(containers: map<string, Container>, log: seq<Fact>, phases: seq<Phase>)

  /** Manager calls, one Docker call of goroutine `t` (which Docker may refuse unless `ok`), and what happens
      without the manager. `spec` of a start is `None` for a server without an image. */
  datatype Label =
    | Start(t: nat, name: string, spec: Option<Spec>)
    | Stop(t: nat, name: string)
    | Kill(t: nat, name: string)
    | Remove(t: nat, name: string)
    | Act(t: nat, ok: bool)
    | Crash(name: string)
    | ExternalStart(name: string)
    | ExternalStop(name: string)

  function Go(s: State, t: nat, p: Phase): State
    requires t < |s.phases|
  {
    s.(phases := s.phases[t := p])
  }

  function SetRunning(s: State, n: string, b: bool): State {
    if n in s.containers then s.(containers := s.containers[n := s.containers[n].(running := b)]) else s
  }

  /** Docker refuses a second container of the same name, and removes no running container without force. */
  function Step(s: State, t: nat, ok: bool): State
    requires t < |s.phases|
  {
    match s.phases[t]
    case Idle => s
    case Done(_) => Go(s, t, Idle)
    case StartInspect(n, spec) => Go(s, t, if ok && n !in s.containers then StartCreate(n, spec) else Done(true))
    case StartCreate(n, spec) =>
      if ok && n !in s.containers
      then Go(s, t, StartRun(n)).(containers := s.containers[n := Container(spec, false)],
                                  log := s.log + [Created(n, spec)])
      else Go(s, t, Done(true))
    case StartRun(n) =>
      if ok && n in s.containers then Go(SetRunning(s, n, true), t, Done(false)) else Go(s, t, Done(true))
    case StopCall(n) =>
      if ok && n in s.containers then Go(SetRunning(s, n, false), t, Done(false)) else Go(s, t, Done(true))
    case KillStop(n) =>
      if ok && n in s.containers then Go(SetRunning(s, n, false), t, Done(false)) else Go(s, t, KillKill(n))
    case KillKill(n) =>
      if ok && n in s.containers && s.containers[n].running then Go(SetRunning(s, n, false), t, Done(false))
      else Go(s, t, Done(true))
    case RemoveInspect(n) =>
      if !ok then Go(s, t, Done(true))
      else if n !in s.containers then Go(s, t, Done(false))
      else Go(s, t, if s.containers[n].running then Done(true) else RemoveCall(n))
    case RemoveCall(n) =>
      if ok && n in s.containers && !s.containers[n].running
      then Go(s, t, Done(false)).(containers := s.containers - {n},
                                  log := s.log + [Removed(n, s.containers[n].running)])
      else Go(s, t, Done(true))
  }

  function Enter(s: State, t: nat, p: Phase): State {
    if t < |s.phases| && s.phases[t].Idle? then Go(s, t, p) else s
  }

  function Exec(s: State, l: Label): State {
    match l
    case Start(t, n, spec) => Enter(s, t, if spec.Some? then StartInspect(n, spec.value) else Done(false))
    case Stop(t, n) => Enter(s, t, StopCall(n))
    case Kill(t, n) => Enter(s, t, KillStop(n))
    case Remove(t, n) => Enter(s, t, RemoveInspect(n))
    case Act(t, ok) => if t < |s.phases| then Step(s, t, ok) else s
    case Crash(n) => SetRunning(s, n, false)
    case ExternalStart(n) => SetRunning(s, n, true)
    case ExternalStop(n) => SetRunning(s, n, false)
  }

  function Run(s: State, ls: seq<Label>): State
    decreases |ls|
  {
    if ls == [] then s else Run(Exec(s, ls[0]), ls[1..])
  }

  function Init(n: nat): State { State(map[], [], seq(n, _ => Idle)) }

  // ---------- history ----------

  /** The spec of the container that the history says exists under this name. */
  function Alive(log: seq<Fact>, n: string): Option<Spec> {
    if log == [] then None
    else
      var last := log[|log| - 1];
      if last.name != n then Alive(log[..|log| - 1], n)
      else if last.Created? then Some(last.spec) else None
  }

  /** Each creation finds the name free, each removal finds a stopped container. */
  predicate Alternates(log: seq<Fact>) {
    forall i :: 0 <= i < |log| ==>
      if log[i].Created? then Alive(log[..i], log[i].name).None?
      else Alive(log[..i], log[i].name).Some? && !log[i].wasRunning
  }

  ghost predicate Inv(s: State) {
    && Alternates(s.log)
    && forall n :: Alive(s.log, n) == if n in s.containers then Some(s.containers[n].spec) else None
  }

  lemma AppendFact(log: seq<Fact>, f: Fact)
    requires Alternates(log)
    requires if f.Created? then Alive(log, f.name).None? else Alive(log, f.name).Some? && !f.wasRunning
    ensures Alternates(log + [f])
    ensures forall n :: n != f.name ==> Alive(log + [f], n) == Alive(log, n)
    ensures Alive(log + [f], f.name) == if f.Created? then Some(f.spec) else None
  {
    var more := log + [f];
    assert more[..|log|] == log;
    forall i | 0 <= i < |more|
      ensures if more[i].Created? then Alive(more[..i], more[i].name).None?
              else Alive(more[..i], more[i].name).Some? && !more[i].wasRunning
    {
      if i < |log| {
        assert more[..i] == log[..i] && more[i] == log[i];
      }
    }
  }

  /** The fact that an event adds to the history. */
  function FactOf(s: State, l: Label): Option<Fact> {
    if !l.Act? || l.t >= |s.phases| || !l.ok then None
    else
      match s.phases[l.t]
      case StartCreate(n, spec) => if n !in s.containers then Some(Created(n, spec)) else None
      case RemoveCall(n) => if n in s.containers && !s.containers[n].running then Some(Removed(n, false)) else None
      case _ => None
  }

  predicate SameSpecs(a: map<string, Container>, b: map<string, Container>) {
    a.Keys == b.Keys && forall n :: n in a && n in b ==> a[n].spec == b[n].spec
  }

  /** Only creations and removals change which containers exist and what they were created with. */
  lemma ExecShape(s: State, l: Label)
    ensures var s' := Exec(s, l);
            match FactOf(s, l)
            case None => s'.log == s.log && SameSpecs(s.containers, s'.containers)
            case Some(Created(n, spec)) =>
              && n !in s.containers && s'.log == s.log + [Created(n, spec)]
              && s'.containers == s.containers[n := Container(spec, false)]
            case Some(Removed(n, r)) =>
              n in s.containers && !r && s'.log == s.log + [Removed(n, r)] && s'.containers == s.containers - {n}
  {
  }

  lemma ExecInv(s: State, l: Label)
    requires Inv(s)
    ensures Inv(Exec(s, l)) && s.log <= Exec(s, l).log
  {
    ExecShape(s, l);
    match FactOf(s, l)
    case None =>
    case Some(f) =>
      assert Alive(s.log, f.name) == if f.name in s.containers then Some(s.containers[f.name].spec) else None;
      AppendFact(s.log, f);
  }

  lemma {:induction false} RunInv(s: State, ls: seq<Label>)
    requires Inv(s)
    ensures Inv(Run(s, ls)) && s.log <= Run(s, ls).log
    decreases |ls|
  {
    if ls == [] {
    } else {
      ExecInv(s, ls[0]);
      RunInv(Exec(s, ls[0]), ls[1..]);
    }
  }

  /** What was alive stays alive, with its spec, as long as the history shows no removal. */
  lemma {:induction false} AliveUntilRemoved(log: seq<Fact>, n: string, i: nat, j: nat)
    requires Alternates(log) && i <= j <= |log| && Alive(log[..i], n).Some?
    requires forall k :: i <= k < j ==> !(log[k].Removed? && log[k].name == n)
    ensures Alive(log[..j], n) == Alive(log[..i], n)
    decreases j - i
  {
    if i == j {
    } else {
      AliveUntilRemoved(log, n, i, j - 1);
      assert log[..j][..j - 1] == log[..j - 1];
    }
  }

  /** In every interleaving of manager calls, crashes and external starts and stops, between any two successful
      creations of one name lies a removal of that name, and it found the container stopped. */
  lemma RemovalBetweenCreations(threads: nat, ls: seq<Label>, i: nat, j: nat)
    requires var log := Run(Init(threads), ls).log;
             i < j < |log| && log[i].Created? && log[j].Created? && log[i].name == log[j].name
    ensures var log := Run(Init(threads), ls).log;
            exists k :: i < k < j && log[k] == Removed(log[i].name, false)
  {
    RunInv(Init(threads), ls);
    var log := Run(Init(threads), ls).log;
    var n := log[i].name;
    assert log[..i + 1][..i] == log[..i];
    if forall k :: i + 1 <= k < j ==> !(log[k].Removed? && log[k].name == n) {
      AliveUntilRemoved(log, n, i + 1, j);
    } else {
      var k :| i + 1 <= k < j && log[k].Removed? && log[k].name == n;
      assert log[k] == Removed(n, false);
    }
  }

  /** A container keeps its spec from creation until it is removed. */
  lemma SpecIsConstant(threads: nat, before: seq<Label>, after: seq<Label>, n: string)
    requires n in Run(Init(threads), before).containers
    requires var s := Run(Init(threads), before); var s' := Run(s, after);
             |s.log| <= |s'.log| && forall k :: |s.log| <= k < |s'.log| ==> !(s'.log[k].Removed? && s'.log[k].name == n)
    ensures var s := Run(Init(threads), before); var s' := Run(s, after);
            n in s'.containers && s'.containers[n].spec == s.containers[n].spec
  {
    RunInv(Init(threads), before);
    var s := Run(Init(threads), before);
    RunInv(s, after);
    var s' := Run(s, after);
    assert s'.log[..|s.log|] == s.log && s'.log[..|s'.log|] == s'.log;
    AliveUntilRemoved(s'.log, n, |s.log|, |s'.log|);
  }

  /** Starting a server whose container exists, running or not, reports an error and changes nothing. */
  lemma StartOnExistingChangesNothing(s: State, t: nat, n: string, spec: Spec, ok: bool)
    requires t < |s.phases| && s.phases[t].Idle? && n in s.containers
    ensures var s' := Exec(Exec(s, Start(t, n, Some(spec))), Act(t, ok));
            s'.containers == s.containers && s'.log == s.log && |s'.phases| == |s.phases| && s'.phases[t] == Done(true)
  {
  }

  // ---------- what an inspection is worth ----------

  predicate Stopped(s: State, n: string) { n in s.containers && !s.containers[n].running }

  /** The event starts the container or removes it. */
  predicate Upsets(s: State, l: Label, n: string) {
    || (n in s.containers && (l == ExternalStart(n) || Performs(s, l, StartRun(n))))
    || (Stopped(s, n) && Performs(s, l, RemoveCall(n)))
  }

  /** The event stops the container or creates one. */
  predicate Settles(s: State, l: Label, n: string) {
    || (n in s.containers
      && (l == Crash(n) || l == ExternalStop(n) || Performs(s, l, StopCall(n)) || Performs(s, l, KillStop(n))))
    || (n in s.containers && s.containers[n].running && Performs(s, l, KillKill(n)))
    || (n !in s.containers && l.Act? && l.ok && l.t < |s.phases| && s.phases[l.t].StartCreate?
      && s.phases[l.t].name == n)
  }

  predicate Performs(s: State, l: Label, p: Phase) {
    l.Act? && l.ok && l.t < |s.phases| && s.phases[l.t] == p
  }

  predicate SettledBy(s: State, ls: seq<Label>, n: string)
    decreases |ls|
  {
    ls != [] && (Settles(s, ls[0], n) || SettledBy(Exec(s, ls[0]), ls[1..], n))
  }

  /** Some event starts or removes the container, and none after it stops it or creates one. */
  predicate UpsetBy(s: State, ls: seq<Label>, n: string)
    decreases |ls|
  {
    ls != [] &&
    var s1 := Exec(s, ls[0]);
    UpsetBy(s1, ls[1..], n) || (Upsets(s, ls[0], n) && !SettledBy(s1, ls[1..], n))
  }

  lemma StoppedStep(s: State, l: Label, n: string)
    ensures Stopped(Exec(s, l), n) == if Upsets(s, l, n) then false else Settles(s, l, n) || Stopped(s, n)
  {
  }

  lemma {:induction false} StoppedAfter(s: State, ls: seq<Label>, n: string)
    ensures Stopped(Run(s, ls), n) == if UpsetBy(s, ls, n) then false else SettledBy(s, ls, n) || Stopped(s, n)
    decreases |ls|
  {
    if ls == [] {
    } else {
      StoppedStep(s, ls[0], n);
      StoppedAfter(Exec(s, ls[0]), ls[1..], n);
    }
  }

  /** Only its own steps move a goroutine that is inside a call. */
  lemma {:induction false} PhaseStays(s: State, ls: seq<Label>, t: nat)
    requires t < |s.phases| && !s.phases[t].Idle? && forall l :: l in ls && l.Act? ==> l.t != t
    ensures |Run(s, ls).phases| == |s.phases| && Run(s, ls).phases[t] == s.phases[t]
    decreases |ls|
  {
    if ls == [] {
    } else {
      assert ls[0] in ls;
      assert |Exec(s, ls[0]).phases| == |s.phases| && Exec(s, ls[0]).phases[t] == s.phases[t];
      PhaseStays(Exec(s, ls[0]), ls[1..], t);
    }
  }

  /** A removal goes on exactly if its inspection finds the container stopped. Otherwise the call is over without
      touching Docker again: done if there is no such container, an error if it runs or the inspection fails. */
  lemma InspectionPassesExactlyWhen(s: State, t: nat, n: string, ok: bool)
    requires t < |s.phases| && s.phases[t] == RemoveInspect(n)
    ensures var s' := Exec(s, Act(t, ok));
            && s'.containers == s.containers && s'.log == s.log && |s'.phases| == |s.phases|
            && (s'.phases[t] == RemoveCall(n) <==> ok && Stopped(s, n))
            && (s'.phases[t] == Done(false) <==> ok && n !in s.containers)
            && (s'.phases[t] == Done(true) <==> !ok || (n in s.containers && s.containers[n].running))
  {
  }

  /** A removal whose inspection found the container stopped, and that meets no fault of Docker, fails exactly if the
      container was started or removed in between and not stopped or created again. */
  lemma RemovalFailsExactlyWhen(s: State, t: nat, n: string, ls: seq<Label>)
    requires t < |s.phases| && s.phases[t] == RemoveInspect(n) && Stopped(s, n)
    requires forall l :: l in ls && l.Act? ==> l.t != t
    ensures var s1 := Exec(s, Act(t, true)); var s2 := Run(s1, ls); var s3 := Exec(s2, Act(t, true));
            && t < |s3.phases| && s3.phases[t] == Done(UpsetBy(s1, ls, n))
            && s3.containers == if UpsetBy(s1, ls, n) then s2.containers else s2.containers - {n}
  {
    var s1 := Exec(s, Act(t, true));
    PhaseStays(s1, ls, t);
    StoppedAfter(s1, ls, n);
  }

  /** A creation whose inspection found the name free, and that meets no fault of Docker, fails exactly if the history
      shows a container of that name created in between and not removed again. */
  lemma CreationFailsExactlyWhen(s: State, t: nat, n: string, spec: Spec, ls: seq<Label>)
    requires Inv(s) && t < |s.phases| && s.phases[t] == StartInspect(n, spec) && n !in s.containers
    requires forall l :: l in ls && l.Act? ==> l.t != t
    ensures var s2 := Run(Exec(s, Act(t, true)), ls); var s3 := Exec(s2, Act(t, true));
            && t < |s3.phases| && s3.phases[t] == (if Alive(s2.log, n).Some? then Done(true) else StartRun(n))
            && Alive(s3.log, n) == if Alive(s2.log, n).Some? then Alive(s2.log, n) else Some(spec)
  {
    var s1 := Exec(s, Act(t, true));
    ExecInv(s, Act(t, true));
    PhaseStays(s1, ls, t);
    RunInv(s1, ls);
    ExecInv(Run(s1, ls), Act(t, true));
  }

  // ---------- the calls as a program runs them alone ----------

  class Manager {
    var containers: map<string, Container>

    constructor ()
      ensures containers == map[]
    {
      containers := map[];
    }

    /** `inspects`, `creates` and `starts` say which Docker calls go through. */
    method Start(n: string, spec: Option<Spec>, inspects: bool, creates: bool, starts: bool) returns (err: bool)
      modifies this
      ensures spec.None? ==> !err && containers == old(containers)
      ensures spec.Some? && n in old(containers) ==> err && containers == old(containers)
      ensures spec.Some? && n !in old(containers) ==>
                && containers == (if inspects && creates then old(containers)[n := Container(spec.value, starts)]
                                  else old(containers))
                && err == !(inspects && creates && starts)
    {
      if spec.None? {
        return false;
      }
      if n in containers || !inspects {
        return true;
      }
      if !creates {
        return true;
      }
      containers := containers[n := Container(spec.value, false)];
      if !starts {
        return true;
      }
      containers := containers[n := containers[n].(running := true)];
      err := false;
    }

    /** The commands before the stop go to the container and change nothing here. */
    method Stop(n: string, stops: bool) returns (err: bool)
      modifies this
      ensures !err <==> stops && n in old(containers)
      ensures err ==> containers == old(containers)
      ensures !err ==> containers == old(containers)[n := Container(old(containers)[n].spec, false)]
    {
      if !stops || n !in containers {
        return true;
      }
      containers := containers[n := containers[n].(running := false)];
      err := false;
    }

    method Kill(n: string, stops: bool, kills: bool) returns (err: bool)
      modifies this
      ensures containers.Keys == old(containers.Keys)
      ensures forall m :: m in containers ==>
                containers[m].spec == old(containers)[m].spec && (m != n ==> containers[m] == old(containers)[m])
      ensures !err <==> n in old(containers) && (stops || (kills && old(containers)[n].running))
      ensures !err ==> !containers[n].running
      ensures err ==> containers == old(containers)
    {
      if stops && n in containers {
        containers := containers[n := containers[n].(running := false)];
        return false;
      }
      if kills && n in containers && containers[n].running {
        containers := containers[n := containers[n].(running := false)];
        return false;
      }
      err := true;
    }

    method Remove(n: string, inspects: bool, removes: bool) returns (err: bool)
      modifies this
      ensures containers ==
              if n in old(containers) && inspects && removes && !old(containers)[n].running then old(containers) - {n}
              else old(containers)
      ensures !err <==> inspects && (n !in old(containers) || (!old(containers)[n].running && removes))
    {
      if !inspects {
        return true;
      }
      if n !in containers {
        return false;
      }
      if containers[n].running || !removes {
        return true;
      }
      containers := containers - {n};
      err := false;
    }
  }

  /** A call of goroutine `t` up to its end, one Docker call after the other; `oks` says which go through. */
  function Solo(s: State, t: nat, oks: seq<bool>): State
    requires t < |s.phases|
    decreases |oks|
  {
    if oks == [] || s.phases[t].Done? then s else Solo(Step(s, t, oks[0]), t, oks[1..])
  }

  /** Run alone, the Docker calls of a start have the effect that the method states. */
  lemma SoloStart(s: State, t: nat, n: string, spec: Option<Spec>, inspects: bool, creates: bool, starts: bool)
    requires t < |s.phases| && s.phases[t].Idle? && n !in s.containers
    ensures var s' := Solo(Exec(s, Start(t, n, spec)), t, [inspects, creates, starts]);
            && s'.containers == (if spec.Some? && inspects && creates
                                 then s.containers[n := Container(spec.value, starts)] else s.containers)
            && t < |s'.phases| && s'.phases[t] == Done(spec.Some? && !(inspects && creates && starts))
  {
    if spec.Some? {
      SoloStartOf(s, t, n, spec.value, inspects, creates, starts);
    }
  }

  lemma SoloStartOf(s: State, t: nat, n: string, spec: Spec, inspects: bool, creates: bool, starts: bool)
    requires t < |s.phases| && s.phases[t].Idle? && n !in s.containers
    ensures var s' := Solo(Exec(s, Start(t, n, Some(spec))), t, [inspects, creates, starts]);
            && s'.containers ==
               (if inspects && creates then s.containers[n := Container(spec, starts)] else s.containers)
            && t < |s'.phases| && s'.phases[t] == Done(!(inspects && creates && starts))
  {
    var s0 := Exec(s, Start(t, n, Some(spec)));
    var s1 := Step(s0, t, inspects);
    assert [inspects, creates, starts][1..] == [creates, starts];
    assert [creates, starts][1..] == [starts];
    assert [starts][1..] == [];
    assert Solo(s0, t, [inspects, creates, starts]) == Solo(s1, t, [creates, starts]);
    if inspects {
      var s2 := Step(s1, t, creates);
      assert Solo(s1, t, [creates, starts]) == Solo(s2, t, [starts]);
      if creates {
        var s3 := Step(s2, t, starts);
        assert Solo(s2, t, [starts]) == Solo(s3, t, []);
        assert s.containers[n := Container(spec, false)][n := Container(spec, true)] ==
          s.containers[n := Container(spec, true)];
      }
    }
  }

  /** The same for a stop, ... */
  lemma SoloStop(s: State, t: nat, n: string, stops: bool)
    requires t < |s.phases| && s.phases[t].Idle?
    ensures var s' := Solo(Exec(s, Stop(t, n)), t, [stops]);
            && t < |s'.phases| && s'.phases[t] == Done(!(stops && n in s.containers))
            && s'.containers == if stops && n in s.containers
                                then s.containers[n := Container(s.containers[n].spec, false)] else s.containers
  {
    var s0 := Exec(s, Stop(t, n));
    assert [stops][1..] == [];
    assert Solo(s0, t, [stops]) == Solo(Step(s0, t, stops), t, []);
  }

  /** ... for a kill, whose first attempt is an ordinary stop, ... */
  lemma SoloKill(s: State, t: nat, n: string, stops: bool, kills: bool)
    requires t < |s.phases| && s.phases[t].Idle?
    ensures var s' := Solo(Exec(s, Kill(t, n)), t, [stops, kills]);
            && t < |s'.phases| && s'.phases[t].Done?
            && (!s'.phases[t].err <==> n in s.containers && (stops || (kills && s.containers[n].running)))
            && s'.containers == if s'.phases[t].err then s.containers else SetRunning(s, n, false).containers
  {
    var s0 := Exec(s, Kill(t, n));
    var s1 := Step(s0, t, stops);
    assert [stops, kills][1..] == [kills];
    assert [kills][1..] == [];
    assert Solo(s0, t, [stops, kills]) == Solo(s1, t, [kills]);
    if !s1.phases[t].Done? {
      assert Solo(s1, t, [kills]) == Solo(Step(s1, t, kills), t, []);
    }
  }

  /** ... and for a removal. */
  lemma SoloRemove(s: State, t: nat, n: string, inspects: bool, removes: bool)
    requires t < |s.phases| && s.phases[t].Idle?
    ensures var s' := Solo(Exec(s, Remove(t, n)), t, [inspects, removes]);
            && t < |s'.phases| && s'.phases[t].Done?
            && s'.containers ==
               (if n in s.containers && inspects && removes && !s.containers[n].running then s.containers - {n}
                else s.containers)
            && (!s'.phases[t].err <==> inspects && (n !in s.containers || (!s.containers[n].running && removes)))
  {
    var s0 := Exec(s, Remove(t, n));
    var s1 := Step(s0, t, inspects);
    assert [inspects, removes][1..] == [removes];
    assert [removes][1..] == [];
    assert Solo(s0, t, [inspects, removes]) == Solo(s1, t, [removes]);
    if !s1.phases[t].Done? {
      assert Solo(s1, t, [removes]) == Solo(Step(s1, t, removes), t, []);
    }
  }
}
