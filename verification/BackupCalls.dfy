/** The calls `Manager.Backup` and `Manager.Restore` of `internal/container/container.go`. */
module BackupCalls {
  import opened GoStrings
  import opened Config
  import opened Paths
  import opened FileTree
  import opened Backup
  import opened BackupRuns

  /** The source and the base of a `backup` command; other commands and malformed arguments are passed over. */
  function ParseEntry(cmd: Cmd): Option<(string, string)> {
    if cmd.kind == "backup" then Cut(cmd.arg, ':') else None
  }

  /** `cmd` is written as a backup of `src` into `base`. */
  predicate IsEntryText(cmd: Cmd, src: string, base: string) {
    cmd.kind == "backup" && cmd.arg == src + ":" + base && ':' !in src
  }

  /** The argument is read as source, first colon, base; everything else is no entry. */
  lemma ParseEntryExactlyWhen(cmd: Cmd, src: string, base: string)
    ensures ParseEntry(cmd) == Some((src, base)) <==> IsEntryText(cmd, src, base)
    ensures ParseEntry(cmd).None? <==> cmd.kind != "backup" || ':' !in cmd.arg
  {
    CutCorrect(cmd.arg, ':');
    assert src + [':'] + base == src + ":" + base;
  }

  function Src(cmd: Cmd): string requires ParseEntry(cmd).Some? { ParseEntry(cmd).value.0 }
  function Base(cmd: Cmd): string requires ParseEntry(cmd).Some? { ParseEntry(cmd).value.1 }

  /** What one command of a call meets: the disk as others have left it meanwhile, if they changed it (the running
      container, which the call sends commands to and waits for, included), and how far an rsync gets. */
  datatype Turn = Turn(outside: Option<FS>, outcome: Outcome)

  function Meanwhile(fs: FS, turn: Turn): FS {
    match turn.outside case Some(after) => after case None => fs
  }

  /** One command of a backup: the disk afterwards and whether it failed. */
  function BackupCmd(fs: FS, cmd: Cmd, ts: string, turn: Turn): (FS, bool) {
    var before := Meanwhile(fs, turn);
    match ParseEntry(cmd)
    case None => (before, false)
    case Some((src, destBase)) =>
      var (fs', ok) := BackupEntry(before, src, destBase, ts, turn.outcome);
      (fs', !ok)
  }

  function BackupAll(fs: FS, cmds: seq<Cmd>, ts: string, turns: seq<Turn>): (FS, bool)
    requires |turns| == |cmds|
    decreases |cmds|
  {
    if cmds == [] then (fs, false)
    else
      var (fs', failed) := BackupCmd(fs, cmds[0], ts, turns[0]);
      var (fs'', more) := BackupAll(fs', cmds[1..], ts, turns[1..]);
      (fs'', failed || more)
  }

  function RestoreCmd(fs: FS, cmd: Cmd, generation: string, turn: Turn): (FS, bool) {
    var before := Meanwhile(fs, turn);
    match ParseEntry(cmd)
    case None => (before, false)
    case Some((src, destBase)) =>
      var (fs', ok) := RestoreEntry(before, src, destBase, generation, turn.outcome);
      (fs', !ok)
  }

  function RestoreAll(fs: FS, cmds: seq<Cmd>, generation: string, turns: seq<Turn>): (FS, bool)
    requires |turns| == |cmds|
    decreases |cmds|
  {
    if cmds == [] then (fs, false)
    else
      var (fs', failed) := RestoreCmd(fs, cmds[0], generation, turns[0]);
      var (fs'', more) := RestoreAll(fs', cmds[1..], generation, turns[1..]);
      (fs'', failed || more)
  }

  /** The manager with the disk it works on. */
  class Manager {
    var fs: FS

    constructor (initial: FS)
      ensures fs == initial
    {
      fs := initial;
    }

    /** `cmds` is `None` for a server that is not configured. */
    method Backup(cmds: Option<seq<Cmd>>, ts: string, turns: seq<Turn>) returns (err: bool)
      requires cmds.Some? ==> |turns| == |cmds.value|
      modifies this
      ensures cmds.None? ==> err && fs == old(fs)
      ensures cmds.Some? ==> (fs, err) == BackupAll(old(fs), cmds.value, ts, turns)
    {
      if cmds.None? {
        return true;
      }
      var hasError := false;
      for i := 0 to |cmds.value|
        invariant var rest := BackupAll(fs, cmds.value[i..], ts, turns[i..]);
                  BackupAll(old(fs), cmds.value, ts, turns) == (rest.0, hasError || rest.1)
      {
        fs := Meanwhile(fs, turns[i]);
        var cmd := cmds.value[i];
        if cmd.kind == "backup" {
          var parts := Cut(cmd.arg, ':');
          if parts.Some? {
            var (fs', ok) := BackupEntry(fs, parts.value.0, parts.value.1, ts, turns[i].outcome);
            fs := fs';
            if !ok {
              hasError := true;
            }
          }
        }
      }
      err := hasError;
    }

    method Restore(cmds: Option<seq<Cmd>>, generation: string, running: bool, turns: seq<Turn>) returns (err: bool)
      requires cmds.Some? ==> |turns| == |cmds.value|
      modifies this
      ensures generation == "" || cmds.None? || running ==> err && fs == old(fs)
      ensures generation != "" && cmds.Some? && !running ==>
                (fs, err) == RestoreAll(old(fs), cmds.value, generation, turns)
    {
      if generation == "" || cmds.None? || running {
        return true;
      }
      var hasError := false;
      for i := 0 to |cmds.value|
        invariant var rest := RestoreAll(fs, cmds.value[i..], generation, turns[i..]);
                  RestoreAll(old(fs), cmds.value, generation, turns) == (rest.0, hasError || rest.1)
      {
        fs := Meanwhile(fs, turns[i]);
        var entry := ParseEntry(cmds.value[i]);
        if entry.Some? {
          var (fs', ok) := RestoreEntry(fs, entry.value.0, entry.value.1, generation, turns[i].outcome);
          fs := fs';
          if !ok {
            hasError := true;
          }
        }
      }
      err := hasError;
    }
  }

  /** The rsync of command `k` fails on the disk that it meets. */
  predicate FailsAt(fs: FS, cmds: seq<Cmd>, ts: string, turns: seq<Turn>, k: nat)
    requires k < |cmds| == |turns|
  {
    BackupCmd(BackupAll(fs, cmds[..k], ts, turns[..k]).0, cmds[k], ts, turns[k]).1
  }

  lemma FailsAtTail(fs: FS, cmds: seq<Cmd>, ts: string, turns: seq<Turn>, k: nat)
    requires 0 < k < |cmds| == |turns|
    ensures FailsAt(fs, cmds, ts, turns, k) ==
            FailsAt(BackupCmd(fs, cmds[0], ts, turns[0]).0, cmds[1..], ts, turns[1..], k - 1)
  {
    assert cmds[..k][1..] == cmds[1..][..k - 1] && turns[..k][1..] == turns[1..][..k - 1];
    assert cmds[..k][0] == cmds[0] && turns[..k][0] == turns[0];
  }

  /** `Backup` reports an error exactly when the rsync of some entry failed. */
  lemma {:induction false} BackupErrorExactlyWhen(fs: FS, cmds: seq<Cmd>, ts: string, turns: seq<Turn>)
    requires |turns| == |cmds|
    ensures BackupAll(fs, cmds, ts, turns).1 <==> exists k: nat :: k < |cmds| && FailsAt(fs, cmds, ts, turns, k)
    decreases |cmds|
  {
    if cmds == [] {
    } else {
      var (fs', failed) := BackupCmd(fs, cmds[0], ts, turns[0]);
      BackupErrorExactlyWhen(fs', cmds[1..], ts, turns[1..]);
      assert FailsAt(fs, cmds, ts, turns, 0) == failed;
      forall k: nat | 0 < k < |cmds|
        ensures FailsAt(fs, cmds, ts, turns, k) == FailsAt(fs', cmds[1..], ts, turns[1..], k - 1)
      {
        FailsAtTail(fs, cmds, ts, turns, k);
      }
      if j: nat :| j < |cmds[1..]| && FailsAt(fs', cmds[1..], ts, turns[1..], j) {
        assert FailsAt(fs, cmds, ts, turns, j + 1);
      }
    }
  }

  /** The generation is there when the turn of the entry comes, and its rsync is broken off or cannot start. */
  predicate RestoreFault(met: FS, cmd: Cmd, generation: string, o: Outcome) {
    && ParseEntry(cmd).Some?
    && var from := Locate(met, Join2(Base(cmd), generation));
       Exists(met, from) && !(o.Done? && Receives(met, Follow(met, from), Target(met, Src(cmd))))
  }

  /** The disk that command `k` of a restore meets. */
  function MetAt(fs: FS, cmds: seq<Cmd>, generation: string, turns: seq<Turn>, k: nat): FS
    requires k < |cmds| == |turns|
  {
    Meanwhile(RestoreAll(fs, cmds[..k], generation, turns[..k]).0, turns[k])
  }

  lemma MetAtTail(fs: FS, cmds: seq<Cmd>, generation: string, turns: seq<Turn>, k: nat)
    requires 0 < k < |cmds| == |turns|
    ensures MetAt(fs, cmds, generation, turns, k) ==
            MetAt(RestoreCmd(fs, cmds[0], generation, turns[0]).0, cmds[1..], generation, turns[1..], k - 1)
  {
    assert cmds[..k][1..] == cmds[1..][..k - 1] && turns[..k][1..] == turns[1..][..k - 1];
    assert cmds[..k][0] == cmds[0] && turns[..k][0] == turns[0];
  }

  ghost predicate RestoreFaultAt(fs: FS, cmds: seq<Cmd>, generation: string, turns: seq<Turn>, k: nat)
    requires |cmds| == |turns|
  {
    k < |cmds| && RestoreFault(MetAt(fs, cmds, generation, turns, k), cmds[k], generation, turns[k].outcome)
  }

  /** `Restore` reports an error exactly when some entry whose generation is there meets a fault. */
  lemma {:induction false} RestoreErrorExactlyWhen(fs: FS, cmds: seq<Cmd>, generation: string, turns: seq<Turn>)
    requires |turns| == |cmds|
    ensures RestoreAll(fs, cmds, generation, turns).1 <==>
      exists k: nat :: RestoreFaultAt(fs, cmds, generation, turns, k)
    decreases |cmds|
  {
    if cmds == [] {
    } else {
      var (fs', failed) := RestoreCmd(fs, cmds[0], generation, turns[0]);
      RestoreErrorExactlyWhen(fs', cmds[1..], generation, turns[1..]);
      assert MetAt(fs, cmds, generation, turns, 0) == Meanwhile(fs, turns[0]);
      if ParseEntry(cmds[0]).Some? {
        RestoreSucceedsExactlyWhen(Meanwhile(fs, turns[0]), Src(cmds[0]), Base(cmds[0]), generation, turns[0].outcome);
      }
      assert RestoreFaultAt(fs, cmds, generation, turns, 0) == failed;
      forall k: nat | 0 < k < |cmds|
        ensures RestoreFaultAt(fs, cmds, generation, turns, k) ==
                RestoreFaultAt(fs', cmds[1..], generation, turns[1..], k - 1)
      {
        MetAtTail(fs, cmds, generation, turns, k);
      }
      if j: nat :| RestoreFaultAt(fs', cmds[1..], generation, turns[1..], j) {
        assert RestoreFaultAt(fs, cmds, generation, turns, j + 1);
      }
    }
  }

  // ---------- the calls as events of a run ----------

  function OutsideOf(turn: Turn): seq<Event> {
    match turn.outside case Some(after) => [Outside(after)] case None => []
  }

  function BackupEvent(cmd: Cmd, ts: string, turn: Turn): seq<Event> {
    OutsideOf(turn) +
    match ParseEntry(cmd)
    case None => []
    case Some((src, destBase)) => [Entry(src, destBase, ts, turn.outcome)]
  }

  function RestoreEvent(cmd: Cmd, generation: string, turn: Turn): seq<Event> {
    OutsideOf(turn) +
    match ParseEntry(cmd)
    case None => []
    case Some((src, destBase)) => [Restored(src, destBase, generation, turn.outcome)]
  }

  function BackupEvents(cmds: seq<Cmd>, ts: string, turns: seq<Turn>): seq<Event>
    requires |turns| == |cmds|
  {
    if cmds == [] then [] else BackupEvent(cmds[0], ts, turns[0]) + BackupEvents(cmds[1..], ts, turns[1..])
  }

  function RestoreEvents(cmds: seq<Cmd>, generation: string, turns: seq<Turn>): seq<Event>
    requires |turns| == |cmds|
  {
    if cmds == [] then []
    else RestoreEvent(cmds[0], generation, turns[0]) + RestoreEvents(cmds[1..], generation, turns[1..])
  }

  lemma {:induction false} RunConcat(store: set<Path>, w: World, a: seq<Event>, b: seq<Event>)
    ensures Run(w, a + b) == Run(Run(w, a), b)
    ensures AllAllowed(store, w, a + b) <==> AllAllowed(store, w, a) && AllAllowed(store, Run(w, a), b)
    decreases |a|
  {
    if a == [] {
      assert a + b == b;
    } else {
      assert (a + b)[1..] == a[1..] + b;
      RunConcat(store, Apply(w, a[0]), a[1..], b);
    }
  }

  lemma RunSingle(store: set<Path>, w: World, e: Event)
    ensures Run(w, [e]) == Apply(w, e) && (AllAllowed(store, w, [e]) <==> Allowed(store, w, e))
  {
    assert [e][1..] == [];
  }

  /** The world that one command meets. */
  function Met(w: World, turn: Turn): World { w.(fs := Meanwhile(w.fs, turn)) }

  lemma RunOutside(store: set<Path>, w: World, turn: Turn)
    ensures Run(w, OutsideOf(turn)) == Met(w, turn)
    ensures AllAllowed(store, w, OutsideOf(turn)) <==>
            (turn.outside.Some? ==> OutsideStep(w.fs, turn.outside.value, store))
  {
    if turn.outside.Some? {
      RunSingle(store, w, Outside(turn.outside.value));
    }
  }

  lemma BackupEventIs(store: set<Path>, w: World, cmd: Cmd, ts: string, turn: Turn)
    ensures var met := Met(w, turn);
            && Run(w, BackupEvent(cmd, ts, turn)) ==
               (if ParseEntry(cmd).Some? then Apply(met, Entry(Src(cmd), Base(cmd), ts, turn.outcome)) else met)
            && (AllAllowed(store, w, BackupEvent(cmd, ts, turn)) <==>
                  && (turn.outside.Some? ==> OutsideStep(w.fs, met.fs, store))
                  && (ParseEntry(cmd).Some? ==> Allowed(store, met, Entry(Src(cmd), Base(cmd), ts, turn.outcome))))
    ensures Run(w, BackupEvent(cmd, ts, turn)).fs == BackupCmd(w.fs, cmd, ts, turn).0
  {
    RunOutside(store, w, turn);
    if ParseEntry(cmd).Some? {
      var e := Entry(Src(cmd), Base(cmd), ts, turn.outcome);
      RunConcat(store, w, OutsideOf(turn), [e]);
      RunSingle(store, Met(w, turn), e);
    } else {
      assert OutsideOf(turn) + [] == OutsideOf(turn);
    }
  }

  lemma RestoreEventIs(store: set<Path>, w: World, cmd: Cmd, generation: string, turn: Turn)
    ensures var met := Met(w, turn);
            && Run(w, RestoreEvent(cmd, generation, turn)) ==
               (if ParseEntry(cmd).Some? then Apply(met, Restored(Src(cmd), Base(cmd), generation, turn.outcome))
                else met)
            && (AllAllowed(store, w, RestoreEvent(cmd, generation, turn)) <==>
                  && (turn.outside.Some? ==> OutsideStep(w.fs, met.fs, store))
                  && (ParseEntry(cmd).Some? ==>
                    Allowed(store, met, Restored(Src(cmd), Base(cmd), generation, turn.outcome))))
    ensures Run(w, RestoreEvent(cmd, generation, turn)).fs == RestoreCmd(w.fs, cmd, generation, turn).0
    ensures Run(w, RestoreEvent(cmd, generation, turn)).log == w.log
  {
    RunOutside(store, w, turn);
    if ParseEntry(cmd).Some? {
      var e := Restored(Src(cmd), Base(cmd), generation, turn.outcome);
      RunConcat(store, w, OutsideOf(turn), [e]);
      RunSingle(store, Met(w, turn), e);
    } else {
      assert OutsideOf(turn) + [] == OutsideOf(turn);
    }
  }

  /** A backup is a run of its entries under one timestamp, with whatever others do in between. */
  lemma {:induction false} BackupIsRun(w: World, cmds: seq<Cmd>, ts: string, turns: seq<Turn>)
    requires |turns| == |cmds|
    ensures Run(w, BackupEvents(cmds, ts, turns)).fs == BackupAll(w.fs, cmds, ts, turns).0
    decreases |cmds|
  {
    if cmds == [] {
    } else {
      var first := BackupEvent(cmds[0], ts, turns[0]);
      BackupEventIs({}, w, cmds[0], ts, turns[0]);
      RunConcat({}, w, first, BackupEvents(cmds[1..], ts, turns[1..]));
      BackupIsRun(Run(w, first), cmds[1..], ts, turns[1..]);
    }
  }

  /** So is a restore. */
  lemma {:induction false} RestoreIsRun(w: World, cmds: seq<Cmd>, generation: string, turns: seq<Turn>)
    requires |turns| == |cmds|
    ensures Run(w, RestoreEvents(cmds, generation, turns)).fs == RestoreAll(w.fs, cmds, generation, turns).0
    decreases |cmds|
  {
    if cmds == [] {
    } else {
      var first := RestoreEvent(cmds[0], generation, turns[0]);
      RestoreEventIs({}, w, cmds[0], generation, turns[0]);
      RunConcat({}, w, first, RestoreEvents(cmds[1..], generation, turns[1..]));
      RestoreIsRun(Run(w, first), cmds[1..], generation, turns[1..]);
    }
  }

  // ---------- two outcomes that may surprise ----------

  /** The disk as others leave it during a call. */
  function Left(fs: FS, turns: seq<Turn>): FS
    decreases |turns|
  {
    if turns == [] then fs else Left(Meanwhile(fs, turns[0]), turns[1..])
  }

  /** Each entry finds its generation missing when its turn comes. */
  predicate MissingThroughout(fs: FS, cmds: seq<Cmd>, generation: string, turns: seq<Turn>)
    requires |turns| == |cmds|
    decreases |cmds|
  {
    cmds == [] ||
    var met := Meanwhile(fs, turns[0]);
    && (ParseEntry(cmds[0]).Some? ==> !Exists(met, Locate(met, Join2(Base(cmds[0]), generation))))
    && MissingThroughout(met, cmds[1..], generation, turns[1..])
  }

  /** A generation that no base has is skipped: the restore itself changes nothing and still reports success. */
  lemma {:induction false} MissingGenerationIsSkipped(fs: FS, cmds: seq<Cmd>, generation: string, turns: seq<Turn>)
    requires |turns| == |cmds| && MissingThroughout(fs, cmds, generation, turns)
    ensures RestoreAll(fs, cmds, generation, turns) == (Left(fs, turns), false)
    decreases |cmds|
  {
    if cmds == [] {
    } else {
      MissingGenerationIsSkipped(Meanwhile(fs, turns[0]), cmds[1..], generation, turns[1..]);
    }
  }

  /** After its command, the target of an entry shows a generation directory that was there when its turn came. */
  ghost predicate PutBack(fs: FS, cmd: Cmd, generation: string, turn: Turn) {
    ParseEntry(cmd).Some? ==>
      var met := Meanwhile(fs, turn);
      var dir := Follow(met, Locate(met, Join2(Base(cmd), generation)));
      IsDir(met, dir) && View(RestoreCmd(fs, cmd, generation, turn).0, Target(met, Src(cmd))) == View(met, dir)
  }

  /** The generation of the entry is there when its turn comes. */
  predicate Present(fs: FS, cmd: Cmd, generation: string, turn: Turn) {
    ParseEntry(cmd).Some? ==>
      var met := Meanwhile(fs, turn); Exists(met, Locate(met, Join2(Base(cmd), generation)))
  }

  /** A command that reports no failure has put its entry back exactly if the generation was there; otherwise it has
      changed nothing. */
  lemma PutBackExactlyWhen(fs: FS, cmd: Cmd, generation: string, turn: Turn)
    requires WellFormed(Meanwhile(fs, turn)) && !RestoreCmd(fs, cmd, generation, turn).1
    ensures PutBack(fs, cmd, generation, turn) <==> Present(fs, cmd, generation, turn)
    ensures !Present(fs, cmd, generation, turn) ==> RestoreCmd(fs, cmd, generation, turn).0 == Meanwhile(fs, turn)
  {
    if ParseEntry(cmd).Some? {
      var met := Meanwhile(fs, turn);
      var from := Locate(met, Join2(Base(cmd), generation));
      if Exists(met, from) {
        SuccessIsFromDir(met, Follow(met, from), Target(met, Src(cmd)), turn.outcome);
        RsyncCopies(met, Follow(met, from), Target(met, Src(cmd)), None, turn.outcome);
      }
    }
  }

  lemma SuccessIsFromDir(fs: FS, from: Path, dst: Path, o: Outcome)
    requires Rsync(fs, from, dst, None, o).1
    ensures IsDir(fs, from)
  {
  }

  ghost predicate AllPutBack(fs: FS, cmds: seq<Cmd>, generation: string, turns: seq<Turn>)
    requires |turns| == |cmds|
    decreases |cmds|
  {
    cmds == [] ||
    (PutBack(fs, cmds[0], generation, turns[0])
     && AllPutBack(RestoreCmd(fs, cmds[0], generation, turns[0]).0, cmds[1..], generation, turns[1..]))
  }

  predicate AllPresent(fs: FS, cmds: seq<Cmd>, generation: string, turns: seq<Turn>)
    requires |turns| == |cmds|
    decreases |cmds|
  {
    cmds == [] ||
    (Present(fs, cmds[0], generation, turns[0])
     && AllPresent(RestoreCmd(fs, cmds[0], generation, turns[0]).0, cmds[1..], generation, turns[1..]))
  }

  /** A restore that reports no error has put every entry back if and only if no generation was missing when its turn
      came: success alone does not say so. */
  lemma {:induction false} RestoreIsCompleteExactlyWhen(store: set<Path>, w: World, cmds: seq<Cmd>, generation: string,
                                                        turns: seq<Turn>)
    requires StoreOk(store) && Good(store, w) && |turns| == |cmds|
    requires AllAllowed(store, w, RestoreEvents(cmds, generation, turns))
    requires !RestoreAll(w.fs, cmds, generation, turns).1
    ensures AllPutBack(w.fs, cmds, generation, turns) <==> AllPresent(w.fs, cmds, generation, turns)
    decreases |cmds|
  {
    if cmds == [] {
    } else {
      var first := RestoreEvent(cmds[0], generation, turns[0]);
      RunConcat(store, w, first, RestoreEvents(cmds[1..], generation, turns[1..]));
      RestoreEventIs(store, w, cmds[0], generation, turns[0]);
      GenerationsAreImmutable(store, w, first);
      PutBackExactlyWhen(w.fs, cmds[0], generation, turns[0]);
      RestoreIsCompleteExactlyWhen(store, Run(w, first), cmds[1..], generation, turns[1..]);
    }
  }

  /** Two entries that share a base: the second successful copy replaces the first one, whatever its source was. */
  lemma SharedBaseKeepsTheLast(store: set<Path>, w: World, src1: string, src2: string, destBase: string, ts: string,
                               o1: Outcome, o2: Outcome)
    requires StoreOk(store) && Good(store, w) && Allowed(store, w, Entry(src1, destBase, ts, o1))
    requires EntryOk(Apply(w, Entry(src1, destBase, ts, o1)).fs, store, src2, destBase, ts)
    requires var w1 := Apply(w, Entry(src1, destBase, ts, o1)); BackupEntry(w1.fs, src2, destBase, ts, o2).1
    ensures var w1 := Apply(w, Entry(src1, destBase, ts, o1));
            var fs2 := BackupEntry(w1.fs, src2, destBase, ts, o2).0; var gen := Locate(w.fs, destBase) + [ts];
            View(fs2, gen) == View(w1.fs, Source(w1.fs, src2)) && IsDir(fs2, gen)
            && WellFormed(fs2) && fs2.cwd == w.fs.cwd
  {
    ApplyGood(store, w, Entry(src1, destBase, ts, o1));
    var w1 := Apply(w, Entry(src1, destBase, ts, o1));
    assert LatestOk(w1.fs, w1.log, Locate(w.fs, destBase));
    EntrySucceeds(w1.fs, store, src2, destBase, ts, o2);
    EntryKeepsInv(w1.fs, store, src2, destBase, ts, o2);
  }

  /** What that means for a restore: with a shared base the first source comes back exactly if the two sources
      showed the same when they were copied. */
  lemma SharedBaseRestoresExactlyWhen(store: set<Path>, w: World, src1: string, src2: string, destBase: string,
                                      ts: string,
                                      o1: Outcome, o2: Outcome, o3: Outcome)
    requires StoreOk(store) && Good(store, w) && Allowed(store, w, Entry(src1, destBase, ts, o1))
    requires EntryOk(Apply(w, Entry(src1, destBase, ts, o1)).fs, store, src2, destBase, ts)
    requires var w1 := Apply(w, Entry(src1, destBase, ts, o1)); BackupEntry(w1.fs, src2, destBase, ts, o2).1
    requires var w1 := Apply(w, Entry(src1, destBase, ts, o1)); var fs2 := BackupEntry(w1.fs, src2, destBase, ts, o2).0;
             RestoreEntry(fs2, src1, destBase, ts, o3).1
    ensures var w1 := Apply(w, Entry(src1, destBase, ts, o1)); var fs2 := BackupEntry(w1.fs, src2, destBase, ts, o2).0;
            var fs3 := RestoreEntry(fs2, src1, destBase, ts, o3).0;
            View(fs3, Target(fs2, src1)) == View(w.fs, Source(w.fs, src1)) <==>
            View(w1.fs, Source(w1.fs, src2)) == View(w.fs, Source(w.fs, src1))
  {
    SharedBaseKeepsTheLast(store, w, src1, src2, destBase, ts, o1, o2);
    var w1 := Apply(w, Entry(src1, destBase, ts, o1));
    var fs2 := BackupEntry(w1.fs, src2, destBase, ts, o2).0;
    GenerationRestores(fs2, src1, destBase, ts, o3);
  }

  /** Restoring from a generation directory that is there shows that directory. */
  lemma GenerationRestores(fs: FS, src: string, destBase: string, ts: string, o: Outcome)
    requires WellFormed(fs) && Rooted(destBase) && Plain(ts) && IsDir(fs, Locate(fs, destBase) + [ts])
    requires RestoreEntry(fs, src, destBase, ts, o).1
    ensures var fs' := RestoreEntry(fs, src, destBase, ts, o).0;
            View(fs', Target(fs, src)) == View(fs, Locate(fs, destBase) + [ts]) && IsDir(fs', Target(fs, src))
  {
    LocateChild(fs, destBase, ts);
    RsyncCopies(fs, Locate(fs, destBase) + [ts], Target(fs, src), None, o);
  }
}
