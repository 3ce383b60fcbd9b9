/** Backing up and restoring, with anything in between (`Backup` and `Restore` in `internal/container/container.go`). */
module RoundTrip {
  import opened GoStrings
  import opened Config
  import opened Paths
  import opened FileTree
  import opened Backup
  import opened BackupRuns
  import opened BackupCalls

  const NO_RECORD := Rec([], "", [], map[])

  /** The generation that an entry writes, and what its source shows when its own rsync starts. */
  function RecOf(fs: FS, cmd: Cmd, ts: string, turn: Turn): Rec {
    if ParseEntry(cmd).None? then NO_RECORD
    else
      var met := Meanwhile(fs, turn);
      var from := Source(met, Src(cmd));
      Rec(Locate(met, Base(cmd)), ts, from, View(met, from))
  }

  /** The same for each command of a backup. */
  function Recs(fs: FS, cmds: seq<Cmd>, ts: string, turns: seq<Turn>): (recs: seq<Rec>)
    requires |turns| == |cmds|
    ensures |recs| == |cmds|
    decreases |cmds|
  {
    if cmds == [] then []
    else [RecOf(fs, cmds[0], ts, turns[0])] + Recs(BackupCmd(fs, cmds[0], ts, turns[0]).0, cmds[1..], ts, turns[1..])
  }

  /** For each entry of a restore, what its source shows when its own rsync has ended. */
  function Restorations(fs: FS, cmds: seq<Cmd>, generation: string, turns: seq<Turn>): (views: seq<map<Path, Visible>>)
    requires |turns| == |cmds|
    ensures |views| == |cmds|
    decreases |cmds|
  {
    if cmds == [] then []
    else
      var fs' := RestoreCmd(fs, cmds[0], generation, turns[0]).0;
      [if ParseEntry(cmds[0]).Some? then View(fs', Target(Meanwhile(fs, turns[0]), Src(cmds[0]))) else map[]]
      + Restorations(fs', cmds[1..], generation, turns[1..])
  }

  // ---------- backing up ----------

  /** A command, if it is an entry, has left its record `rec` in the history, under its base and its name. */
  ghost predicate EntryRecorded(w: World, cmd: Cmd, ts: string, rec: Rec) {
    ParseEntry(cmd).Some? ==>
      Rooted(Base(cmd)) && rec in w.log && rec.name == ts && rec.base == Locate(w.fs, Base(cmd))
  }

  ghost predicate AllRecorded(w: World, cmds: seq<Cmd>, ts: string, recs: seq<Rec>) {
    |recs| == |cmds| && forall k :: 0 <= k < |cmds| ==> EntryRecorded(w, cmds[k], ts, recs[k])
  }

  lemma RecordedLater(w: World, w': World, cmds: seq<Cmd>, ts: string, recs: seq<Rec>)
    requires AllRecorded(w, cmds, ts, recs) && w.log <= w'.log && w'.fs.cwd == w.fs.cwd
    ensures AllRecorded(w', cmds, ts, recs)
  {
    forall k | 0 <= k < |cmds|
      ensures EntryRecorded(w', cmds[k], ts, recs[k])
    {
      assert EntryRecorded(w, cmds[k], ts, recs[k]);
    }
  }

  lemma RecordedTail(w: World, cmds: seq<Cmd>, ts: string, recs: seq<Rec>)
    requires cmds != []
    ensures AllRecorded(w, cmds, ts, recs) <==>
            recs != [] && EntryRecorded(w, cmds[0], ts, recs[0]) && AllRecorded(w, cmds[1..], ts, recs[1..])
  {
    if recs != [] && EntryRecorded(w, cmds[0], ts, recs[0]) && AllRecorded(w, cmds[1..], ts, recs[1..]) {
      forall k | 0 <= k < |cmds|
        ensures EntryRecorded(w, cmds[k], ts, recs[k])
      {
        if k > 0 {
          assert EntryRecorded(w, cmds[1..][k - 1], ts, recs[1..][k - 1]);
        }
      }
    }
    if AllRecorded(w, cmds, ts, recs) {
      forall k | 0 <= k < |cmds[1..]|
        ensures EntryRecorded(w, cmds[1..][k], ts, recs[1..][k])
      {
        assert EntryRecorded(w, cmds[k + 1], ts, recs[k + 1]);
      }
    }
  }

  /** One command and the rest of a backup. */
  lemma BackupHead(store: set<Path>, w: World, cmds: seq<Cmd>, ts: string, turns: seq<Turn>)
    requires StoreOk(store) && Good(store, w) && |turns| == |cmds| && cmds != []
    requires AllAllowed(store, w, BackupEvents(cmds, ts, turns))
    ensures AllAllowed(store, w, BackupEvent(cmds[0], ts, turns[0]))
    ensures var w1 := Run(w, BackupEvent(cmds[0], ts, turns[0]));
            && w1.fs == BackupCmd(w.fs, cmds[0], ts, turns[0]).0 && w.log <= w1.log && w1.fs.cwd == w.fs.cwd
            && Good(store, w1) && AllAllowed(store, w1, BackupEvents(cmds[1..], ts, turns[1..]))
            && Run(w, BackupEvents(cmds, ts, turns)) == Run(w1, BackupEvents(cmds[1..], ts, turns[1..]))
  {
    var first := BackupEvent(cmds[0], ts, turns[0]);
    RunConcat(store, w, first, BackupEvents(cmds[1..], ts, turns[1..]));
    BackupEventIs(store, w, cmds[0], ts, turns[0]);
    GenerationsAreImmutable(store, w, first);
  }

  lemma CmdRecords(store: set<Path>, w: World, cmd: Cmd, ts: string, turn: Turn)
    requires StoreOk(store) && Good(store, w) && AllAllowed(store, w, BackupEvent(cmd, ts, turn))
    requires !BackupCmd(w.fs, cmd, ts, turn).1
    ensures EntryRecorded(Run(w, BackupEvent(cmd, ts, turn)), cmd, ts, RecOf(w.fs, cmd, ts, turn))
  {
    BackupEventIs(store, w, cmd, ts, turn);
    if ParseEntry(cmd).Some? {
      var met := Met(w, turn);
      var w' := Apply(met, Entry(Src(cmd), Base(cmd), ts, turn.outcome));
      assert w'.log[|w.log|] == RecOf(w.fs, cmd, ts, turn);
      GenerationsAreImmutable(store, w, BackupEvent(cmd, ts, turn));
      RunOutside(store, w, turn);
      GenerationsAreImmutable(store, w, OutsideOf(turn));
    }
  }

  /** A backup that reports no error, whatever others do between its commands, leaves for every entry a record of
      what the source showed at its own rsync. */
  lemma {:induction false} BackupRecords(store: set<Path>, w: World, cmds: seq<Cmd>, ts: string, turns: seq<Turn>)
    requires StoreOk(store) && Good(store, w) && |turns| == |cmds|
    requires AllAllowed(store, w, BackupEvents(cmds, ts, turns)) && !BackupAll(w.fs, cmds, ts, turns).1
    ensures var w' := Run(w, BackupEvents(cmds, ts, turns));
            && Good(store, w') && w.log <= w'.log && w'.fs.cwd == w.fs.cwd
            && AllRecorded(w', cmds, ts, Recs(w.fs, cmds, ts, turns))
    decreases |cmds|
  {
    if cmds == [] {
    } else {
      BackupHead(store, w, cmds, ts, turns);
      CmdRecords(store, w, cmds[0], ts, turns[0]);
      var w1 := Run(w, BackupEvent(cmds[0], ts, turns[0]));
      BackupRecords(store, w1, cmds[1..], ts, turns[1..]);
      var w' := Run(w, BackupEvents(cmds, ts, turns));
      var recs := Recs(w.fs, cmds, ts, turns);
      assert recs[0] == RecOf(w.fs, cmds[0], ts, turns[0]) && recs[1..] == Recs(w1.fs, cmds[1..], ts, turns[1..]);
      RecordedTail(w', cmds, ts, recs);
    }
  }

  // ---------- restoring ----------

  lemma CmdRestores(store: set<Path>, w: World, cmd: Cmd, name: string, turn: Turn, rec: Rec)
    requires StoreOk(store) && Good(store, w) && AllAllowed(store, w, RestoreEvent(cmd, name, turn))
    requires !RestoreCmd(w.fs, cmd, name, turn).1 && EntryRecorded(w, cmd, name, rec)
    ensures var w' := Run(w, RestoreEvent(cmd, name, turn));
            Good(store, w') && w'.log == w.log && w'.fs.cwd == w.fs.cwd
    ensures ParseEntry(cmd).Some? ==>
              var fs' := RestoreCmd(w.fs, cmd, name, turn).0; var dst := Target(Meanwhile(w.fs, turn), Src(cmd));
              View(fs', dst) == rec.view && IsDir(fs', dst)
  {
    RestoreEventIs(store, w, cmd, name, turn);
    GenerationsAreImmutable(store, w, RestoreEvent(cmd, name, turn));
    if ParseEntry(cmd).Some? {
      RunOutside(store, w, turn);
      GenerationsAreImmutable(store, w, OutsideOf(turn));
      var met := Met(w, turn);
      var i :| 0 <= i < |w.log| && w.log[i] == rec;
      assert RecOk(met.fs, met.log[i]);
      GenerationRestores(met.fs, Src(cmd), Base(cmd), name, turn.outcome);
    }
  }

  /** One command and the rest of a restore. */
  lemma RestoreHead(store: set<Path>, w: World, cmds: seq<Cmd>, name: string, turns: seq<Turn>)
    requires StoreOk(store) && Good(store, w) && |turns| == |cmds| && cmds != []
    requires AllAllowed(store, w, RestoreEvents(cmds, name, turns))
    ensures AllAllowed(store, w, RestoreEvent(cmds[0], name, turns[0]))
    ensures var w1 := Run(w, RestoreEvent(cmds[0], name, turns[0]));
            && w1.fs == RestoreCmd(w.fs, cmds[0], name, turns[0]).0 && w1.log == w.log && w1.fs.cwd == w.fs.cwd
            && Good(store, w1) && AllAllowed(store, w1, RestoreEvents(cmds[1..], name, turns[1..]))
  {
    var first := RestoreEvent(cmds[0], name, turns[0]);
    RunConcat(store, w, first, RestoreEvents(cmds[1..], name, turns[1..]));
    RestoreEventIs(store, w, cmds[0], name, turns[0]);
    GenerationsAreImmutable(store, w, first);
  }

  /** A restore that reports no error, whatever others do between its commands: right after its own rsync, each
      source shows what its generation recorded. */
  lemma {:induction false} RestorePutsBack(store: set<Path>, w: World, cmds: seq<Cmd>, name: string, turns: seq<Turn>,
                                           recs: seq<Rec>)
    requires StoreOk(store) && Good(store, w) && |turns| == |cmds| && AllRecorded(w, cmds, name, recs)
    requires AllAllowed(store, w, RestoreEvents(cmds, name, turns)) && !RestoreAll(w.fs, cmds, name, turns).1
    ensures forall k :: 0 <= k < |cmds| && ParseEntry(cmds[k]).Some? ==>
              Restorations(w.fs, cmds, name, turns)[k] == recs[k].view
    decreases |cmds|
  {
    if cmds == [] {
    } else {
      RestoreHead(store, w, cmds, name, turns);
      var w1 := Run(w, RestoreEvent(cmds[0], name, turns[0]));
      RecordedTail(w, cmds, name, recs);
      RecordedLater(w, w1, cmds[1..], name, recs[1..]);
      CmdRestores(store, w, cmds[0], name, turns[0], recs[0]);
      var views, rest := Restorations(w.fs, cmds, name, turns), Restorations(w1.fs, cmds[1..], name, turns[1..]);
      RestorePutsBack(store, w1, cmds[1..], name, turns[1..], recs[1..]);
      RestorationsTail(w.fs, cmds, name, turns);
      forall k | 0 <= k < |cmds| && ParseEntry(cmds[k]).Some?
        ensures views[k] == recs[k].view
      {
        if k > 0 {
          assert ParseEntry(cmds[1..][k - 1]).Some?;
          assert rest[k - 1] == recs[1..][k - 1].view;
        }
      }
    }
  }

  lemma RestorationsTail(fs: FS, cmds: seq<Cmd>, name: string, turns: seq<Turn>)
    requires |turns| == |cmds| && cmds != []
    ensures var views := Restorations(fs, cmds, name, turns); var fs' := RestoreCmd(fs, cmds[0], name, turns[0]).0;
            && views[1..] == Restorations(fs', cmds[1..], name, turns[1..])
            && (ParseEntry(cmds[0]).Some? ==> views[0] == View(fs', Target(Meanwhile(fs, turns[0]), Src(cmds[0]))))
  {
  }

  /** The rest of a restore leaves the directories in `keep`, and then also those it has restored, alone: neither
      others write there, nor do the sources overlap. */
  ghost predicate Undisturbed(fs: FS, cmds: seq<Cmd>, name: string, turns: seq<Turn>, keep: set<Path>)
    requires |turns| == |cmds|
    decreases |cmds|
  {
    cmds == [] ||
    var met := Meanwhile(fs, turns[0]);
    var fs' := RestoreCmd(fs, cmds[0], name, turns[0]).0;
    && (forall d :: d in keep ==> SameBelow(fs, met, d))
    && if ParseEntry(cmds[0]).None? then Undisturbed(fs', cmds[1..], name, turns[1..], keep)
       else
         var p, dst := Locate(met, Src(cmds[0])), Target(met, Src(cmds[0]));
         && Src(cmds[0]) != "" && (p == dst || Apart(p, dst))
         && (forall d :: d in keep ==> Apart(d, dst))
         && Undisturbed(fs', cmds[1..], name, turns[1..], keep + {p, dst})
  }

  lemma CmdKeeps(store: set<Path>, w: World, cmd: Cmd, name: string, turn: Turn, d: Path)
    requires Good(store, w) && AllAllowed(store, w, RestoreEvent(cmd, name, turn))
    requires SameBelow(w.fs, Meanwhile(w.fs, turn), d)
    requires ParseEntry(cmd).Some? ==> Apart(d, Target(Meanwhile(w.fs, turn), Src(cmd)))
    ensures SameBelow(w.fs, RestoreCmd(w.fs, cmd, name, turn).0, d)
  {
    RestoreEventIs(store, w, cmd, name, turn);
    var met := Meanwhile(w.fs, turn);
    if ParseEntry(cmd).Some? {
      var from := Locate(met, Join2(Base(cmd), name));
      if Exists(met, from) {
        RsyncSame(met, Follow(met, from), Target(met, Src(cmd)), None, turn.outcome, d);
        SameTransitive(w.fs, met, RestoreCmd(w.fs, cmd, name, turn).0, d);
      }
    }
  }

  lemma {:induction false} RestoreKeeps(store: set<Path>, w: World, cmds: seq<Cmd>, name: string, turns: seq<Turn>,
                                        keep: set<Path>, d: Path)
    requires StoreOk(store) && Good(store, w) && |turns| == |cmds| && d in keep
    requires AllAllowed(store, w, RestoreEvents(cmds, name, turns)) && Undisturbed(w.fs, cmds, name, turns, keep)
    ensures SameBelow(w.fs, RestoreAll(w.fs, cmds, name, turns).0, d)
    decreases |cmds|
  {
    if cmds == [] {
    } else {
      RestoreHead(store, w, cmds, name, turns);
      CmdKeeps(store, w, cmds[0], name, turns[0], d);
      var w1 := Run(w, RestoreEvent(cmds[0], name, turns[0]));
      var met := Meanwhile(w.fs, turns[0]);
      var keep' := if ParseEntry(cmds[0]).None? then keep
                   else keep + {Locate(met, Src(cmds[0])), Target(met, Src(cmds[0]))};
      RestoreKeeps(store, w1, cmds[1..], name, turns[1..], keep', d);
      SameTransitive(w.fs, w1.fs, RestoreAll(w1.fs, cmds[1..], name, turns[1..]).0, d);
    }
  }

  /** A restored source that nothing disturbs afterwards is found again at its name, link or not. */
  lemma SourceStays(met: FS, fs': FS, final: FS, src: string)
    requires src != "" && fs'.cwd == met.cwd && final.cwd == met.cwd
    requires var p, dst := Locate(met, src), Target(met, src);
             && IsDir(fs', dst) && (p != dst ==> SameBelow(met, fs', p))
             && SameBelow(fs', final, p) && SameBelow(fs', final, dst)
    ensures Source(final, src) == Target(met, src) && View(final, Source(final, src)) == View(fs', Target(met, src))
  {
    LocateSlash(final, src);
    var p, dst := Locate(met, src), Target(met, src);
    assert p <= p && dst <= dst;
    ViewFrame(fs', final, dst);
  }

  /** After such a restore every source shows what its generation recorded. */
  lemma {:induction false} RestoredSourcesStay(store: set<Path>, w: World, cmds: seq<Cmd>, name: string,
                                               turns: seq<Turn>, recs: seq<Rec>, keep: set<Path>)
    requires StoreOk(store) && Good(store, w) && |turns| == |cmds| && AllRecorded(w, cmds, name, recs)
    requires AllAllowed(store, w, RestoreEvents(cmds, name, turns)) && !RestoreAll(w.fs, cmds, name, turns).1
    requires Undisturbed(w.fs, cmds, name, turns, keep)
    ensures var fs' := RestoreAll(w.fs, cmds, name, turns).0;
            fs'.cwd == w.fs.cwd && forall k :: 0 <= k < |cmds| && ParseEntry(cmds[k]).Some? ==>
              View(fs', Source(fs', Src(cmds[k]))) == recs[k].view
    decreases |cmds|
  {
    if cmds == [] {
    } else {
      RestoreHead(store, w, cmds, name, turns);
      var w1 := Run(w, RestoreEvent(cmds[0], name, turns[0]));
      RecordedTail(w, cmds, name, recs);
      RecordedLater(w, w1, cmds[1..], name, recs[1..]);
      var met := Meanwhile(w.fs, turns[0]);
      var keep' := if ParseEntry(cmds[0]).None? then keep
                   else keep + {Locate(met, Src(cmds[0])), Target(met, Src(cmds[0]))};
      RestoredSourcesStay(store, w1, cmds[1..], name, turns[1..], recs[1..], keep');
      if ParseEntry(cmds[0]).Some? {
        FirstSourceStays(store, w, cmds, name, turns, recs[0], keep');
      }
      forall k | 0 < k < |cmds| && ParseEntry(cmds[k]).Some?
        ensures var fs' := RestoreAll(w.fs, cmds, name, turns).0; View(fs', Source(fs', Src(cmds[k]))) == recs[k].view
      {
        assert cmds[k] == cmds[1..][k - 1] && recs[k] == recs[1..][k - 1];
      }
    }
  }

  lemma FirstSourceStays(store: set<Path>, w: World, cmds: seq<Cmd>, name: string, turns: seq<Turn>, rec: Rec,
                         keep: set<Path>)
    requires StoreOk(store) && Good(store, w) && |turns| == |cmds| && cmds != [] && ParseEntry(cmds[0]).Some?
    requires AllAllowed(store, w, RestoreEvents(cmds, name, turns)) && !RestoreCmd(w.fs, cmds[0], name, turns[0]).1
    requires EntryRecorded(w, cmds[0], name, rec)
    requires var met := Meanwhile(w.fs, turns[0]); var p, dst := Locate(met, Src(cmds[0])), Target(met, Src(cmds[0]));
             && Src(cmds[0]) != "" && (p == dst || Apart(p, dst)) && p in keep && dst in keep
             && Undisturbed(RestoreCmd(w.fs, cmds[0], name, turns[0]).0, cmds[1..], name, turns[1..], keep)
    requires RestoreAll(w.fs, cmds, name, turns).0.cwd == w.fs.cwd
    ensures var fs' := RestoreAll(w.fs, cmds, name, turns).0; View(fs', Source(fs', Src(cmds[0]))) == rec.view
  {
    RestoreHead(store, w, cmds, name, turns);
    CmdRestores(store, w, cmds[0], name, turns[0], rec);
    var w1 := Run(w, RestoreEvent(cmds[0], name, turns[0]));
    var met := Met(w, turns[0]);
    var p, dst := Locate(met.fs, Src(cmds[0])), Target(met.fs, Src(cmds[0]));
    RestoreKeeps(store, w1, cmds[1..], name, turns[1..], keep, p);
    RestoreKeeps(store, w1, cmds[1..], name, turns[1..], keep, dst);
    RunOutside(store, w, turns[0]);
    GenerationsAreImmutable(store, w, OutsideOf(turns[0]));
    if p != dst {
      RestoreTargetOnly(met.fs, cmds[0], name, turns[0].outcome, p);
    }
    SourceStays(met.fs, w1.fs, RestoreAll(w.fs, cmds, name, turns).0, Src(cmds[0]));
  }

  lemma RestoreTargetOnly(fs: FS, cmd: Cmd, name: string, o: Outcome, d: Path)
    requires WellFormed(fs) && ParseEntry(cmd).Some? && Apart(d, Target(fs, Src(cmd)))
    ensures SameBelow(fs, RestoreEntry(fs, Src(cmd), Base(cmd), name, o).0, d)
  {
    var from := Locate(fs, Join2(Base(cmd), name));
    if Exists(fs, from) {
      RsyncSame(fs, Follow(fs, from), Target(fs, Src(cmd)), None, o, d);
    }
  }

  // ---------- the round trip ----------

  /** A call of `Backup` at `ts`, any run, and a call of `Restore` of `ts`: nothing is done that is not allowed, and
      neither call reports an error. */
  ghost predicate Trip(store: set<Path>, w: World, cmds: seq<Cmd>, ts: string, turns: seq<Turn>, between: seq<Event>,
                       turns': seq<Turn>) {
    && StoreOk(store) && Good(store, w) && |turns| == |cmds| == |turns'|
    && AllAllowed(store, w, BackupEvents(cmds, ts, turns)) && !BackupAll(w.fs, cmds, ts, turns).1
    && var w1 := Run(w, BackupEvents(cmds, ts, turns)); var w2 := Run(w1, between);
       && AllAllowed(store, w1, between)
       && AllAllowed(store, w2, RestoreEvents(cmds, ts, turns')) && !RestoreAll(w2.fs, cmds, ts, turns').1
  }

  /** Back up without an error, with any outside activity between the commands; then anything at all: edits of the
      sources, failing and successful backups and restores of any server; then restore without an error. Each source
      then shows, when its own rsync ends, exactly what it showed when its own rsync of the backup began. If the
      sources do not overlap and nobody writes to a restored source before the call ends, they all do so at the end. */
  lemma BackupRestoreRoundTrip(store: set<Path>, w: World, cmds: seq<Cmd>, ts: string, turns: seq<Turn>,
                               between: seq<Event>, turns': seq<Turn>)
    requires Trip(store, w, cmds, ts, turns, between, turns')
    ensures var w1 := Run(w, BackupEvents(cmds, ts, turns)); var w2 := Run(w1, between);
            var recs := Recs(w.fs, cmds, ts, turns); var fs' := RestoreAll(w2.fs, cmds, ts, turns').0;
            && w1.fs == BackupAll(w.fs, cmds, ts, turns).0
            && (forall k :: 0 <= k < |cmds| && ParseEntry(cmds[k]).Some? ==>
                  Restorations(w2.fs, cmds, ts, turns')[k] == recs[k].view)
            && (Undisturbed(w2.fs, cmds, ts, turns', {}) ==>
                  forall k :: 0 <= k < |cmds| && ParseEntry(cmds[k]).Some? ==>
                    View(fs', Source(fs', Src(cmds[k]))) == recs[k].view)
  {
    BackupIsRun(w, cmds, ts, turns);
    BackupRecords(store, w, cmds, ts, turns);
    var w1 := Run(w, BackupEvents(cmds, ts, turns));
    GenerationsAreImmutable(store, w1, between);
    var w2 := Run(w1, between);
    var recs := Recs(w.fs, cmds, ts, turns);
    RecordedLater(w1, w2, cmds, ts, recs);
    RestorePutsBack(store, w2, cmds, ts, turns', recs);
    if Undisturbed(w2.fs, cmds, ts, turns', {}) {
      RestoredSourcesStay(store, w2, cmds, ts, turns', recs, {});
    }
  }
}
