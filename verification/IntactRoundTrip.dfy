/** Backup and restore of intact directories, stated on the text of the commands: both calls succeed, and the sources
    come back (`Backup` and `Restore` in `internal/container/container.go`). */
module IntactRoundTrip {
  import opened GoStrings
  import opened Config
  import opened Paths
  import opened FileTree
  import opened Backup
  import opened BackupRuns
  import opened BackupCalls
  import opened RoundTrip
  import opened QuietCalls

  predicate AllDone(turns: seq<Turn>) { forall k :: 0 <= k < |turns| ==> turns[k].outcome.Done? }

  // ---------- backing up ----------

  /** The source is a directory, the way to the base is free, and the generation is not there yet. */
  ghost predicate BackupReady(fs: FS, cmd: Cmd, ts: string) {
    ParseEntry(cmd).Some? ==>
      var b := Locate(fs, Base(cmd));
      IsDir(fs, Locate(fs, Src(cmd))) && WayIsFree(fs, b) && b + [ts] !in fs.nodes
  }

  lemma AtMakesDirs(fs: FS, from: Path, b: Path, ts: string, latest: string, link: Option<Path>, o: Outcome, q: Path)
    requires WellFormed(fs) && !(b + [ts] <= q) && q != b + [latest]
    ensures var fs' := EntryAt(fs, from, b, ts, latest, link, o).0;
            q in fs'.nodes ==> fs'.nodes[q].Dir? || (q in fs.nodes && fs'.nodes[q] == fs.nodes[q])
  {
    MkdirAllFrame(fs, b);
    RsyncOutside(MkdirAll(fs, b), from, b + [ts], link, o, q);
  }

  /** A name that an entry changes lies in its generation, is its `latest`, or becomes a directory. */
  lemma EntryMakesDirs(fs: FS, src: string, destBase: string, ts: string, o: Outcome, q: Path)
    requires WellFormed(fs) && Rooted(destBase) && Plain(ts)
    requires var b := Locate(fs, destBase); !(b + [ts] <= q) && q != b + [LATEST]
    ensures var fs' := BackupEntry(fs, src, destBase, ts, o).0;
            q in fs'.nodes ==> fs'.nodes[q].Dir? || (q in fs.nodes && fs'.nodes[q] == fs.nodes[q])
  {
    EntryIsAt(fs, src, destBase, ts, o);
    var b := Locate(fs, destBase);
    AtMakesDirs(fs, Source(fs, src), b, ts, LATEST, LinkDest(MkdirAll(fs, b), destBase, b + [ts]), o, q);
  }

  lemma OtherBaseFree(store: set<Path>, fs: FS, src: string, destBase: string, ts: string, o: Outcome, b: Path)
    requires WellFormed(fs) && StoreOk(store) && Rooted(destBase) && GenerationName(ts)
    requires Locate(fs, destBase) in store && b in store && b != Locate(fs, destBase)
    requires WayIsFree(fs, b) && b + [ts] !in fs.nodes
    ensures var fs' := BackupEntry(fs, src, destBase, ts, o).0; WayIsFree(fs', b) && b + [ts] !in fs'.nodes
  {
    var base := Locate(fs, destBase);
    var fs' := BackupEntry(fs, src, destBase, ts, o).0;
    assert Apart(base, b);
    forall q | q <= b && q in fs'.nodes
      ensures fs'.nodes[q].Dir?
    {
      assert base <= base + [ts] && base <= base + [LATEST];
      PrefixTransitive(base, base + [ts], q);
      PrefixTransitive(base, q, b);
      EntryMakesDirs(fs, src, destBase, ts, o, q);
    }
    ChildApart(store, b, ts, base, ts);
    ChildApart(store, b, ts, base, LATEST);
    EntryFrame(fs, src, destBase, ts, o, b + [ts]);
    assert b + [ts] <= b + [ts];
  }

  lemma ReadyStays(store: set<Path>, w: World, first: Cmd, other: Cmd, ts: string, o: Outcome)
    requires StoreOk(store) && Good(store, w) && ParseEntry(first).Some?
    requires PlainEntry(w.fs, store, first, ts) && PlainEntry(w.fs, store, other, ts)
      && EntriesApart(w.fs, first, other)
    requires BackupReady(w.fs, other, ts)
    ensures BackupEntry(w.fs, Src(first), Base(first), ts, o).0.cwd == w.fs.cwd ==>
              BackupReady(BackupEntry(w.fs, Src(first), Base(first), ts, o).0, other, ts)
  {
    if ParseEntry(other).Some? {
      var p := Locate(w.fs, Src(other));
      EntryLeavesOutside(store, w.fs, Src(first), Base(first), ts, o, p);
      OtherBaseFree(store, w.fs, Src(first), Base(first), ts, o, Locate(w.fs, Base(other)));
      assert p <= p;
    }
  }

  lemma ReadySucceeds(store: set<Path>, w: World, cmd: Cmd, ts: string, turn: Turn)
    requires Good(store, w) && PlainEntry(w.fs, store, cmd, ts) && BackupReady(w.fs, cmd, ts)
    requires turn.outside.None? && turn.outcome.Done?
    ensures !BackupCmd(w.fs, cmd, ts, turn).1
  {
    if ParseEntry(cmd).Some? {
      PlainSource(w.fs, store, cmd, ts);
      SucceedsExactlyWhen(w.fs, store, Src(cmd), Base(cmd), ts, turn.outcome);
    }
  }

  ghost predicate AllBackupReady(fs: FS, cmds: seq<Cmd>, ts: string) {
    forall k :: 0 <= k < |cmds| ==> BackupReady(fs, cmds[k], ts)
  }

  lemma AllReadyTail(store: set<Path>, w: World, cmds: seq<Cmd>, ts: string, turn: Turn)
    requires StoreOk(store) && Good(store, w) && cmds != [] && turn.outside.None?
    requires ServerOk(w.fs, store, cmds, ts) && AllBackupReady(w.fs, cmds, ts)
    requires BackupCmd(w.fs, cmds[0], ts, turn).0.cwd == w.fs.cwd
    ensures AllBackupReady(BackupCmd(w.fs, cmds[0], ts, turn).0, cmds[1..], ts)
  {
    var fs' := BackupCmd(w.fs, cmds[0], ts, turn).0;
    assert PlainEntry(w.fs, store, cmds[0], ts);
    forall k | 0 <= k < |cmds[1..]|
      ensures BackupReady(fs', cmds[1..][k], ts)
    {
      assert PlainEntry(w.fs, store, cmds[k + 1], ts) && EntriesApart(w.fs, cmds[0], cmds[k + 1]);
      assert BackupReady(w.fs, cmds[k + 1], ts);
      if ParseEntry(cmds[0]).Some? {
        ReadyStays(store, w, cmds[0], cmds[k + 1], ts, turn.outcome);
      }
    }
  }

  /** A backup of intact directories that nobody disturbs, and whose rsync runs are not broken off, succeeds. */
  lemma {:induction false} IntactBackupSucceeds(store: set<Path>, w: World, cmds: seq<Cmd>, ts: string,
                                                turns: seq<Turn>)
    requires StoreOk(store) && Good(store, w) && |turns| == |cmds| && Quiet(turns) && AllDone(turns)
    requires ServerOk(w.fs, store, cmds, ts) && NewFor(w, cmds, ts) && AllBackupReady(w.fs, cmds, ts)
    ensures !BackupAll(w.fs, cmds, ts, turns).1
    decreases |cmds|
  {
    if cmds == [] {
    } else {
      assert PlainEntry(w.fs, store, cmds[0], ts) && BackupReady(w.fs, cmds[0], ts);
      ReadySucceeds(store, w, cmds[0], ts, turns[0]);
      QuietStep(store, w, cmds, ts, turns[0]);
      AllReadyTail(store, w, cmds, ts, turns[0]);
      IntactBackupSucceeds(store, Run(w, BackupEvent(cmds[0], ts, turns[0])), cmds[1..], ts, turns[1..]);
    }
  }

  // ---------- restoring ----------

  /** The parent of the source is a directory, and so is the source if it is there. */
  ghost predicate RestoreReady(fs: FS, cmd: Cmd) {
    ParseEntry(cmd).Some? ==> Receptive(fs, Locate(fs, Src(cmd)))
  }

  ghost predicate Receptive(fs: FS, p: Path) {
    |p| > 0 && IsDir(fs, p[..|p| - 1]) && (p in fs.nodes ==> fs.nodes[p].Dir?)
  }

  ghost predicate SameAt(fs: FS, fs': FS, q: Path) {
    (q in fs'.nodes <==> q in fs.nodes) && (q in fs.nodes ==> fs'.nodes[q] == fs.nodes[q])
  }

  ghost predicate AllRestoreReady(fs: FS, cmds: seq<Cmd>) {
    forall k :: 0 <= k < |cmds| ==> RestoreReady(fs, cmds[k])
  }

  lemma RestoreReadySucceeds(store: set<Path>, w: World, cmd: Cmd, ts: string, turn: Turn, rec: Rec)
    requires Good(store, w) && PlainEntry(w.fs, store, cmd, ts) && RestoreReady(w.fs, cmd)
    requires EntryRecorded(w, cmd, ts, rec) && turn.outside.None? && turn.outcome.Done?
    ensures !RestoreCmd(w.fs, cmd, ts, turn).1
  {
    if ParseEntry(cmd).Some? {
      PlainSource(w.fs, store, cmd, ts);
      var i :| 0 <= i < |w.log| && w.log[i] == rec;
      assert RecOk(w.fs, w.log[i]);
      LocateChild(w.fs, Base(cmd), ts);
      RestoreSucceedsExactlyWhen(w.fs, Src(cmd), Base(cmd), ts, turn.outcome);
    }
  }

  /** A restore changes no name that does not lie in its target. */
  lemma RestoreFrame(fs: FS, cmd: Cmd, ts: string, turn: Turn, q: Path)
    requires WellFormed(fs) && turn.outside.None?
    requires ParseEntry(cmd).Some? ==> !(Target(fs, Src(cmd)) <= q)
    ensures SameAt(fs, RestoreCmd(fs, cmd, ts, turn).0, q)
  {
    if ParseEntry(cmd).Some? {
      var from := Locate(fs, Join2(Base(cmd), ts));
      RsyncOutside(fs, Follow(fs, from), Target(fs, Src(cmd)), None, turn.outcome, q);
    }
  }

  lemma ReceptiveStays(fs: FS, fs': FS, p: Path)
    requires Receptive(fs, p) && SameAt(fs, fs', p) && SameAt(fs, fs', p[..|p| - 1])
    ensures Receptive(fs', p)
  {
  }

  lemma TargetMisses(store: set<Path>, fs: FS, first: Cmd, other: Cmd, ts: string)
    requires PlainEntry(fs, store, first, ts) && EntriesApart(fs, first, other)
    requires ParseEntry(first).Some? && ParseEntry(other).Some? && Locate(fs, Src(other)) != []
    ensures var p, d := Locate(fs, Src(other)), Target(fs, Src(first)); !(d <= p) && !(d <= p[..|p| - 1])
  {
    var p := Locate(fs, Src(other));
    PlainSource(fs, store, first, ts);
    PrefixTransitive(Locate(fs, Src(first)), p[..|p| - 1], p);
  }

  lemma RestoreReadyStays(store: set<Path>, fs: FS, first: Cmd, other: Cmd, ts: string, turn: Turn, fs': FS)
    requires WellFormed(fs) && turn.outside.None? && RestoreReady(fs, other)
    requires PlainEntry(fs, store, first, ts) && EntriesApart(fs, first, other)
    requires fs' == RestoreCmd(fs, first, ts, turn).0 && fs'.cwd == fs.cwd
    ensures RestoreReady(fs', other)
  {
    if ParseEntry(other).Some? {
      var p := Locate(fs, Src(other));
      if ParseEntry(first).Some? {
        TargetMisses(store, fs, first, other, ts);
      }
      RestoreFrame(fs, first, ts, turn, p);
      RestoreFrame(fs, first, ts, turn, p[..|p| - 1]);
      ReceptiveStays(fs, fs', p);
    }
  }

  lemma AllRestoreReadyTail(store: set<Path>, w: World, cmds: seq<Cmd>, ts: string, turn: Turn)
    requires StoreOk(store) && Good(store, w) && cmds != [] && turn.outside.None?
    requires ServerOk(w.fs, store, cmds, ts) && AllRestoreReady(w.fs, cmds)
    requires RestoreCmd(w.fs, cmds[0], ts, turn).0.cwd == w.fs.cwd
    ensures AllRestoreReady(RestoreCmd(w.fs, cmds[0], ts, turn).0, cmds[1..])
  {
    var fs' := RestoreCmd(w.fs, cmds[0], ts, turn).0;
    assert PlainEntry(w.fs, store, cmds[0], ts);
    forall k | 0 <= k < |cmds[1..]|
      ensures RestoreReady(fs', cmds[1..][k])
    {
      assert EntriesApart(w.fs, cmds[0], cmds[k + 1]) && RestoreReady(w.fs, cmds[k + 1]);
      RestoreReadyStays(store, w.fs, cmds[0], cmds[k + 1], ts, turn, fs');
    }
  }

  /** A restore of recorded generations to intact places that nobody disturbs, and whose rsync runs are not broken off,
      succeeds. */
  lemma {:induction false} IntactRestoreSucceeds(store: set<Path>, w: World, cmds: seq<Cmd>, ts: string,
                                                 turns: seq<Turn>, recs: seq<Rec>)
    requires StoreOk(store) && Good(store, w) && |turns| == |cmds| && Quiet(turns) && AllDone(turns)
    requires ServerOk(w.fs, store, cmds, ts) && AllRestoreReady(w.fs, cmds) && AllRecorded(w, cmds, ts, recs)
    ensures !RestoreAll(w.fs, cmds, ts, turns).1
    decreases |cmds|
  {
    if cmds == [] {
    } else {
      assert PlainEntry(w.fs, store, cmds[0], ts) && RestoreReady(w.fs, cmds[0]);
      RecordedTail(w, cmds, ts, recs);
      RestoreReadySucceeds(store, w, cmds[0], ts, turns[0], recs[0]);
      QuietRestoreStep(store, w, cmds, ts, turns[0]);
      var w1 := Run(w, RestoreEvent(cmds[0], ts, turns[0]));
      RestoreEventIs(store, w, cmds[0], ts, turns[0]);
      AllRestoreReadyTail(store, w, cmds, ts, turns[0]);
      RecordedLater(w, w1, cmds[1..], ts, recs[1..]);
      IntactRestoreSucceeds(store, w1, cmds[1..], ts, turns[1..], recs[1..]);
    }
  }

  // ---------- the round trip, on the text of the commands ----------

  /** What the configuration and the disk must offer for the text of a command. */
  ghost predicate TextEntryOk(fs: FS, store: set<Path>, src: string, base: string) {
    && Rooted(base) && Locate(fs, base) in store
    && src != "" && OutOfStore(store, Locate(fs, src)) && IsDir(fs, Locate(fs, src))
  }

  ghost predicate TextApart(fs: FS, src: string, base: string, src': string, base': string) {
    Locate(fs, base) != Locate(fs, base') && Apart(Locate(fs, src), Locate(fs, src'))
  }

  ghost predicate TextOk(fs: FS, store: set<Path>, cmds: seq<Cmd>) {
    && (forall k, src, base :: 0 <= k < |cmds| && IsEntryText(cmds[k], src, base) ==> TextEntryOk(fs, store, src, base))
    && (forall j, k, src, base, src', base' ::
          0 <= j < k < |cmds| && IsEntryText(cmds[j], src, base) && IsEntryText(cmds[k], src', base') ==>
            TextApart(fs, src, base, src', base'))
  }

  lemma TextIs(cmd: Cmd)
    requires ParseEntry(cmd).Some?
    ensures IsEntryText(cmd, Src(cmd), Base(cmd))
  {
    ParseEntryExactlyWhen(cmd, Src(cmd), Base(cmd));
  }

  lemma TextServer(fs: FS, store: set<Path>, cmds: seq<Cmd>, ts: string)
    requires TextOk(fs, store, cmds) && GenerationName(ts)
    ensures ServerOk(fs, store, cmds, ts)
    ensures forall k :: 0 <= k < |cmds| && ParseEntry(cmds[k]).Some? ==>
              TextEntryOk(fs, store, Src(cmds[k]), Base(cmds[k]))
  {
    forall k | 0 <= k < |cmds| && ParseEntry(cmds[k]).Some?
      ensures TextEntryOk(fs, store, Src(cmds[k]), Base(cmds[k]))
    {
      TextIs(cmds[k]);
    }
    forall k | 0 <= k < |cmds|
      ensures PlainEntry(fs, store, cmds[k], ts)
    {
      if ParseEntry(cmds[k]).Some? {
        assert TextEntryOk(fs, store, Src(cmds[k]), Base(cmds[k]));
      }
    }
    forall j, k | 0 <= j < k < |cmds|
      ensures EntriesApart(fs, cmds[j], cmds[k])
    {
      if ParseEntry(cmds[j]).Some? && ParseEntry(cmds[k]).Some? {
        TextIs(cmds[j]);
        TextIs(cmds[k]);
        assert TextApart(fs, Src(cmds[j]), Base(cmds[j]), Src(cmds[k]), Base(cmds[k]));
      }
    }
  }

  /** The base can be made, and has neither a generation nor a record of that name yet. */
  ghost predicate BaseReady(w: World, base: string, ts: string) {
    var b := Locate(w.fs, base);
    WayIsFree(w.fs, b) && b + [ts] !in w.fs.nodes && NewGeneration(w.log, b, ts)
  }

  ghost predicate BasesReady(w: World, cmds: seq<Cmd>, ts: string) {
    forall k, src, base :: 0 <= k < |cmds| && IsEntryText(cmds[k], src, base) ==> BaseReady(w, base, ts)
  }

  ghost predicate ParentsThere(fs: FS, cmds: seq<Cmd>) {
    forall k, src, base :: 0 <= k < |cmds| && IsEntryText(cmds[k], src, base) ==> ParentThere(fs, src)
  }

  ghost predicate ParentThere(fs: FS, src: string) {
    var p := Locate(fs, src);
    |p| > 0 && IsDir(fs, p[..|p| - 1])
  }

  lemma TextBackup(store: set<Path>, w: World, cmds: seq<Cmd>, ts: string, turns: seq<Turn>)
    requires StoreOk(store) && Good(store, w) && |turns| == |cmds| && Quiet(turns) && AllDone(turns)
      && GenerationName(ts)
    requires TextOk(w.fs, store, cmds) && BasesReady(w, cmds, ts)
    ensures ServerOk(w.fs, store, cmds, ts) && NewFor(w, cmds, ts) && !BackupAll(w.fs, cmds, ts, turns).1
  {
    TextServer(w.fs, store, cmds, ts);
    forall k | 0 <= k < |cmds| && ParseEntry(cmds[k]).Some?
      ensures BaseReady(w, Base(cmds[k]), ts)
    {
      TextIs(cmds[k]);
    }
    forall k | 0 <= k < |cmds|
      ensures BackupReady(w.fs, cmds[k], ts)
    {
      if ParseEntry(cmds[k]).Some? {
        assert BaseReady(w, Base(cmds[k]), ts);
      }
    }
    IntactBackupSucceeds(store, w, cmds, ts, turns);
  }

  lemma TextRestoreReady(fs: FS, store: set<Path>, cmds: seq<Cmd>, ts: string)
    requires TextOk(fs, store, cmds) && GenerationName(ts) && ParentsThere(fs, cmds)
    ensures AllRestoreReady(fs, cmds)
  {
    TextServer(fs, store, cmds, ts);
    forall k | 0 <= k < |cmds|
      ensures RestoreReady(fs, cmds[k])
    {
      if ParseEntry(cmds[k]).Some? {
        TextIs(cmds[k]);
        assert ParentThere(fs, Src(cmds[k]));
      }
    }
  }

  /** After the trip: the generation of the entry shows what its source showed, and so does its source again. */
  ghost predicate CameBack(fs: FS, w2: World, fs': FS, src: string, base: string, ts: string) {
    && View(w2.fs, Locate(fs, base) + [ts]) == View(fs, Locate(fs, src))
    && View(fs', Source(fs', src)) == View(fs, Locate(fs, src))
  }

  /** The round trip on the text of the commands, without a hypothesis on the results of the calls. Each command of
      the form `backup`, "src:base" names a source directory outside the store and an absolute base in it; the sources
      do not overlap, and the bases differ and are ready. Nobody disturbs the two calls, and no rsync is broken off;
      between the calls anything allowed happens that leaves the sources directories. Then both calls report success,
      `base` holds a generation that shows what `src` showed, and `src` shows it again in the end. */
  lemma IntactTrip(store: set<Path>, w: World, cmds: seq<Cmd>, ts: string, turns: seq<Turn>, between: seq<Event>,
                   turns': seq<Turn>)
    requires StoreOk(store) && Good(store, w) && GenerationName(ts) && |turns| == |cmds| == |turns'|
    requires Quiet(turns) && AllDone(turns) && Quiet(turns') && AllDone(turns')
    requires TextOk(w.fs, store, cmds) && BasesReady(w, cmds, ts)
    requires var w1 := Run(w, BackupEvents(cmds, ts, turns)); var w2 := Run(w1, between);
             AllAllowed(store, w1, between) && TextOk(w2.fs, store, cmds) && ParentsThere(w2.fs, cmds)
    ensures var w2 := Run(Run(w, BackupEvents(cmds, ts, turns)), between);
            var fs' := RestoreAll(w2.fs, cmds, ts, turns').0;
            && !BackupAll(w.fs, cmds, ts, turns).1 && !RestoreAll(w2.fs, cmds, ts, turns').1
            && forall k, src, base :: 0 <= k < |cmds| && IsEntryText(cmds[k], src, base) ==>
                 CameBack(w.fs, w2, fs', src, base, ts)
  {
    TextBackup(store, w, cmds, ts, turns);
    QuietBackup(store, w, cmds, ts, turns);
    BackupRecords(store, w, cmds, ts, turns);
    var w1 := Run(w, BackupEvents(cmds, ts, turns));
    GenerationsAreImmutable(store, w1, between);
    var w2 := Run(w1, between);
    var recs := Recs(w.fs, cmds, ts, turns);
    RecordedLater(w1, w2, cmds, ts, recs);
    TextServer(w2.fs, store, cmds, ts);
    TextRestoreReady(w2.fs, store, cmds, ts);
    IntactRestoreSucceeds(store, w2, cmds, ts, turns', recs);
    QuietRoundTrip(store, w, cmds, ts, turns, between, turns');
    forall k, src, base | 0 <= k < |cmds| && IsEntryText(cmds[k], src, base)
      ensures CameBack(w.fs, w2, RestoreAll(w2.fs, cmds, ts, turns').0, src, base, ts)
    {
      ParseEntryExactlyWhen(cmds[k], src, base);
      EntryCameBack(store, w, w2, cmds[k], ts, recs[k]);
    }
  }

  /** What the record of an entry says about the disk it was found on. */
  lemma EntryCameBack(store: set<Path>, w: World, w2: World, cmd: Cmd, ts: string, rec: Rec)
    requires Good(store, w2) && ParseEntry(cmd).Some? && PlainEntry(w.fs, store, cmd, ts) && w2.fs.cwd == w.fs.cwd
    requires EntryRecorded(w2, cmd, ts, rec) && Shows(w.fs, cmd, rec)
    ensures View(w2.fs, Locate(w.fs, Base(cmd)) + [ts]) == View(w.fs, Locate(w.fs, Src(cmd)))
    ensures Source(w.fs, Src(cmd)) == Locate(w.fs, Src(cmd))
  {
    PlainSource(w.fs, store, cmd, ts);
    var i :| 0 <= i < |w2.log| && w2.log[i] == rec;
    assert RecOk(w2.fs, w2.log[i]);
  }
}
