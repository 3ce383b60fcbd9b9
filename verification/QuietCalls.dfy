/** The round trip of calls that nobody disturbs, from conditions on the configuration and the disk alone. */
module QuietCalls {
  import opened GoStrings
  import opened Config
  import opened Paths
  import opened FileTree
  import opened Backup
  import opened BackupRuns
  import opened BackupCalls
  import opened RoundTrip

  predicate Quiet(turns: seq<Turn>) { forall k :: 0 <= k < |turns| ==> turns[k].outside.None? }

  /** What a backup entry of a server should look like: an absolute base of the store, and a source that is not a
      link and lies apart from the store. */
  ghost predicate PlainEntry(fs: FS, store: set<Path>, cmd: Cmd, ts: string) {
    ParseEntry(cmd).Some? ==>
      && Rooted(Base(cmd)) && Locate(fs, Base(cmd)) in store && GenerationName(ts)
      && Src(cmd) != "" && OutOfStore(store, Locate(fs, Src(cmd)))
      && (Locate(fs, Src(cmd)) in fs.nodes ==> !fs.nodes[Locate(fs, Src(cmd))].Link?)
  }

  ghost predicate EntriesApart(fs: FS, a: Cmd, b: Cmd) {
    ParseEntry(a).Some? && ParseEntry(b).Some? ==>
      Locate(fs, Base(a)) != Locate(fs, Base(b)) && Apart(Locate(fs, Src(a)), Locate(fs, Src(b)))
  }

  /** The backup entries of one server: plain, with different bases and sources that do not overlap. */
  ghost predicate ServerOk(fs: FS, store: set<Path>, cmds: seq<Cmd>, ts: string) {
    && (forall k :: 0 <= k < |cmds| ==> PlainEntry(fs, store, cmds[k], ts))
    && (forall j, k :: 0 <= j < k < |cmds| ==> EntriesApart(fs, cmds[j], cmds[k]))
  }

  predicate NewFor(w: World, cmds: seq<Cmd>, ts: string) {
    forall k :: 0 <= k < |cmds| && ParseEntry(cmds[k]).Some? ==> NewGeneration(w.log, Locate(w.fs, Base(cmds[k])), ts)
  }

  lemma PlainSource(fs: FS, store: set<Path>, cmd: Cmd, ts: string)
    requires ParseEntry(cmd).Some? && PlainEntry(fs, store, cmd, ts)
    ensures Source(fs, Src(cmd)) == Target(fs, Src(cmd)) == Locate(fs, Src(cmd))
    ensures EntryOk(fs, store, Src(cmd), Base(cmd), ts)
  {
    LocateSlash(fs, Src(cmd));
  }

  /** What leaves the source of a plain entry alone leaves the entry plain. */
  lemma PlainStays(fs: FS, fs': FS, store: set<Path>, cmd: Cmd, ts: string)
    requires PlainEntry(fs, store, cmd, ts) && fs'.cwd == fs.cwd
    requires ParseEntry(cmd).Some? ==> SameBelow(fs, fs', Locate(fs, Src(cmd)))
    ensures PlainEntry(fs', store, cmd, ts)
  {
    if ParseEntry(cmd).Some? {
      assert Locate(fs, Src(cmd)) <= Locate(fs, Src(cmd));
    }
  }

  lemma ServerTail(fs: FS, fs': FS, store: set<Path>, cmds: seq<Cmd>, ts: string)
    requires cmds != [] && ServerOk(fs, store, cmds, ts) && fs'.cwd == fs.cwd
    requires forall k :: 0 < k < |cmds| && ParseEntry(cmds[k]).Some? ==> SameBelow(fs, fs', Locate(fs, Src(cmds[k])))
    ensures ServerOk(fs', store, cmds[1..], ts)
  {
    var t := cmds[1..];
    forall k | 0 <= k < |t|
      ensures PlainEntry(fs', store, t[k], ts)
    {
      PlainStays(fs, fs', store, cmds[k + 1], ts);
    }
    forall j, k | 0 <= j < k < |t|
      ensures EntriesApart(fs', t[j], t[k])
    {
      assert EntriesApart(fs, cmds[j + 1], cmds[k + 1]);
    }
  }

  lemma SourceApart(store: set<Path>, d: Path, b: Path, n: string)
    requires OutOfStore(store, d) && b in store
    ensures Apart(d, b + [n]) && !(d <= b) && !(d <= b + [n])
  {
    assert Apart(b, d);
    assert b <= b + [n];
    OutsideApart(store, d, b, n);
  }

  /** An entry leaves everything outside the store alone. */
  lemma EntryLeavesOutside(store: set<Path>, fs: FS, src: string, destBase: string, ts: string, o: Outcome, d: Path)
    requires WellFormed(fs) && Rooted(destBase) && Plain(ts) && Locate(fs, destBase) in store && OutOfStore(store, d)
    ensures SameBelow(fs, BackupEntry(fs, src, destBase, ts, o).0, d)
  {
    var b := Locate(fs, destBase);
    SourceApart(store, d, b, ts);
    SourceApart(store, d, b, LATEST);
    EntryFrame(fs, src, destBase, ts, o, d);
  }

  lemma StaysNew(w: World, e: Event, base: Path, ts: string)
    requires NewGeneration(w.log, base, ts) && e.Entry? && Locate(w.fs, e.destBase) != base
    ensures NewGeneration(Apply(w, e).log, base, ts)
  {
    ApplyLog(w, e);
    var log := Apply(w, e).log;
    assert forall i :: 0 <= i < |w.log| ==> log[i] == log[..|w.log|][i];
  }

  /** After one entry another one of the server stands as it did. */
  lemma QuietEntry(store: set<Path>, w: World, first: Cmd, other: Cmd, ts: string, o: Outcome)
    requires StoreOk(store) && Good(store, w) && ParseEntry(first).Some? && ParseEntry(other).Some?
    requires PlainEntry(w.fs, store, first, ts) && PlainEntry(w.fs, store, other, ts)
      && EntriesApart(w.fs, first, other)
    requires NewGeneration(w.log, Locate(w.fs, Base(other)), ts)
    ensures var w1 := Apply(w, Entry(Src(first), Base(first), ts, o));
            SameBelow(w.fs, w1.fs, Locate(w.fs, Src(other))) && NewGeneration(w1.log, Locate(w.fs, Base(other)), ts)
  {
    EntryLeavesOutside(store, w.fs, Src(first), Base(first), ts, o, Locate(w.fs, Src(other)));
    StaysNew(w, Entry(Src(first), Base(first), ts, o), Locate(w.fs, Base(other)), ts);
  }

  /** What one command of a quiet call leaves of the others. */
  ghost predicate OthersStand(fs: FS, fs': FS, cmds: seq<Cmd>) {
    fs'.cwd == fs.cwd &&
    forall k :: 0 < k < |cmds| && ParseEntry(cmds[k]).Some? ==> SameBelow(fs, fs', Locate(fs, Src(cmds[k])))
  }

  lemma QuietAllowed(store: set<Path>, w: World, cmd: Cmd, ts: string, turn: Turn)
    requires StoreOk(store) && Good(store, w) && turn.outside.None? && PlainEntry(w.fs, store, cmd, ts)
    requires ParseEntry(cmd).Some? ==> NewGeneration(w.log, Locate(w.fs, Base(cmd)), ts)
    ensures AllAllowed(store, w, BackupEvent(cmd, ts, turn))
    ensures var w1 := Run(w, BackupEvent(cmd, ts, turn));
            && Good(store, w1) && w1.fs == BackupCmd(w.fs, cmd, ts, turn).0 && w1.fs.cwd == w.fs.cwd
            && w1 == (if ParseEntry(cmd).Some? then Apply(w, Entry(Src(cmd), Base(cmd), ts, turn.outcome)) else w)
  {
    BackupEventIs(store, w, cmd, ts, turn);
    if ParseEntry(cmd).Some? {
      PlainSource(w.fs, store, cmd, ts);
    }
    GenerationsAreImmutable(store, w, BackupEvent(cmd, ts, turn));
  }

  /** After one command of a quiet backup the rest of it is as good as before. */
  lemma QuietStep(store: set<Path>, w: World, cmds: seq<Cmd>, ts: string, turn: Turn)
    requires StoreOk(store) && Good(store, w) && cmds != [] && turn.outside.None?
    requires ServerOk(w.fs, store, cmds, ts) && NewFor(w, cmds, ts)
    ensures AllAllowed(store, w, BackupEvent(cmds[0], ts, turn))
    ensures var w1 := Run(w, BackupEvent(cmds[0], ts, turn));
            && Good(store, w1) && w1.fs == BackupCmd(w.fs, cmds[0], ts, turn).0
            && OthersStand(w.fs, w1.fs, cmds) && ServerOk(w1.fs, store, cmds[1..], ts) && NewFor(w1, cmds[1..], ts)
  {
    assert PlainEntry(w.fs, store, cmds[0], ts);
    QuietAllowed(store, w, cmds[0], ts, turn);
    var w1 := Run(w, BackupEvent(cmds[0], ts, turn));
    forall k | 0 < k < |cmds| && ParseEntry(cmds[k]).Some?
      ensures SameBelow(w.fs, w1.fs, Locate(w.fs, Src(cmds[k])))
        && NewGeneration(w1.log, Locate(w.fs, Base(cmds[k])), ts)
    {
      assert PlainEntry(w.fs, store, cmds[k], ts) && EntriesApart(w.fs, cmds[0], cmds[k]);
      if ParseEntry(cmds[0]).Some? {
        QuietEntry(store, w, cmds[0], cmds[k], ts, turn.outcome);
      }
    }
    ServerTail(w.fs, w1.fs, store, cmds, ts);
    NewForTail(w, w1, cmds, ts);
  }

  lemma NewForTail(w: World, w1: World, cmds: seq<Cmd>, ts: string)
    requires cmds != [] && w1.fs.cwd == w.fs.cwd
    requires forall k :: 0 < k < |cmds| && ParseEntry(cmds[k]).Some? ==>
               NewGeneration(w1.log, Locate(w.fs, Base(cmds[k])), ts)
    ensures NewFor(w1, cmds[1..], ts)
  {
    var t := cmds[1..];
    forall k | 0 <= k < |t| && ParseEntry(t[k]).Some?
      ensures NewGeneration(w1.log, Locate(w1.fs, Base(t[k])), ts)
    {
      assert t[k] == cmds[k + 1];
    }
  }

  /** The record of an entry holds what its source shows on `fs`. */
  ghost predicate Shows(fs: FS, cmd: Cmd, rec: Rec) {
    ParseEntry(cmd).Some? ==> rec.view == View(fs, Source(fs, Src(cmd)))
  }

  ghost predicate AllShow(fs: FS, cmds: seq<Cmd>, recs: seq<Rec>) {
    |recs| == |cmds| && forall k :: 0 <= k < |cmds| ==> Shows(fs, cmds[k], recs[k])
  }

  lemma ShowsEarlier(store: set<Path>, fs: FS, fs': FS, cmds: seq<Cmd>, ts: string, recs: seq<Rec>)
    requires cmds != [] && ServerOk(fs, store, cmds, ts) && OthersStand(fs, fs', cmds)
    requires |recs| == |cmds| && AllShow(fs', cmds[1..], recs[1..]) && Shows(fs, cmds[0], recs[0])
    ensures AllShow(fs, cmds, recs)
  {
    forall k | 0 <= k < |cmds|
      ensures Shows(fs, cmds[k], recs[k])
    {
      if k > 0 {
        assert Shows(fs', cmds[1..][k - 1], recs[1..][k - 1]);
        if ParseEntry(cmds[k]).Some? {
          assert PlainEntry(fs, store, cmds[k], ts);
          QuietView(store, fs, fs', cmds[k], ts);
        }
      }
    }
  }

  /** A backup of plain entries that nobody disturbs is allowed, and copies what the sources showed at its start. */
  lemma {:induction false} QuietBackup(store: set<Path>, w: World, cmds: seq<Cmd>, ts: string, turns: seq<Turn>)
    requires StoreOk(store) && Good(store, w) && |turns| == |cmds| && Quiet(turns)
    requires ServerOk(w.fs, store, cmds, ts) && NewFor(w, cmds, ts)
    ensures AllAllowed(store, w, BackupEvents(cmds, ts, turns))
    ensures AllShow(w.fs, cmds, Recs(w.fs, cmds, ts, turns))
    decreases |cmds|
  {
    if cmds == [] {
    } else {
      QuietStep(store, w, cmds, ts, turns[0]);
      var first := BackupEvent(cmds[0], ts, turns[0]);
      var w1 := Run(w, first);
      QuietBackup(store, w1, cmds[1..], ts, turns[1..]);
      RunConcat(store, w, first, BackupEvents(cmds[1..], ts, turns[1..]));
      var recs := Recs(w.fs, cmds, ts, turns);
      assert recs[0] == RecOf(w.fs, cmds[0], ts, turns[0]) && recs[1..] == Recs(w1.fs, cmds[1..], ts, turns[1..]);
      ShowsEarlier(store, w.fs, w1.fs, cmds, ts, recs);
    }
  }

  lemma QuietView(store: set<Path>, fs: FS, fs': FS, cmd: Cmd, ts: string)
    requires ParseEntry(cmd).Some? && PlainEntry(fs, store, cmd, ts) && fs'.cwd == fs.cwd
    requires SameBelow(fs, fs', Locate(fs, Src(cmd)))
    ensures View(fs', Source(fs', Src(cmd))) == View(fs, Source(fs, Src(cmd)))
  {
    PlainSource(fs, store, cmd, ts);
    PlainStays(fs, fs', store, cmd, ts);
    PlainSource(fs', store, cmd, ts);
    ViewFrame(fs, fs', Locate(fs, Src(cmd)));
  }

  ghost predicate SourcesApartFrom(fs: FS, cmds: seq<Cmd>, keep: set<Path>) {
    forall d, k :: d in keep && 0 <= k < |cmds| && ParseEntry(cmds[k]).Some? ==> Apart(d, Locate(fs, Src(cmds[k])))
  }

  /** One command of a quiet restore. */
  lemma QuietRestoreStep(store: set<Path>, w: World, cmds: seq<Cmd>, ts: string, turn: Turn)
    requires StoreOk(store) && Good(store, w) && cmds != [] && turn.outside.None? && ServerOk(w.fs, store, cmds, ts)
    ensures AllAllowed(store, w, RestoreEvent(cmds[0], ts, turn))
    ensures var w1 := Run(w, RestoreEvent(cmds[0], ts, turn));
            && Good(store, w1) && w1.fs == RestoreCmd(w.fs, cmds[0], ts, turn).0
            && OthersStand(w.fs, w1.fs, cmds) && ServerOk(w1.fs, store, cmds[1..], ts)
  {
    assert PlainEntry(w.fs, store, cmds[0], ts);
    RestoreEventIs(store, w, cmds[0], ts, turn);
    if ParseEntry(cmds[0]).Some? {
      PlainSource(w.fs, store, cmds[0], ts);
    }
    GenerationsAreImmutable(store, w, RestoreEvent(cmds[0], ts, turn));
    var w1 := Run(w, RestoreEvent(cmds[0], ts, turn));
    forall k | 0 < k < |cmds| && ParseEntry(cmds[k]).Some?
      ensures SameBelow(w.fs, w1.fs, Locate(w.fs, Src(cmds[k])))
    {
      assert EntriesApart(w.fs, cmds[0], cmds[k]);
      if ParseEntry(cmds[0]).Some? {
        RestoreTargetOnly(w.fs, cmds[0], ts, turn.outcome, Locate(w.fs, Src(cmds[k])));
      }
    }
    ServerTail(w.fs, w1.fs, store, cmds, ts);
  }

  lemma KeepsApart(fs: FS, fs': FS, store: set<Path>, cmds: seq<Cmd>, ts: string, keep: set<Path>, keep': set<Path>)
    requires cmds != [] && ServerOk(fs, store, cmds, ts) && fs'.cwd == fs.cwd && SourcesApartFrom(fs, cmds, keep)
    requires keep' <= keep + if ParseEntry(cmds[0]).Some? then {Locate(fs, Src(cmds[0]))} else {}
    ensures SourcesApartFrom(fs', cmds[1..], keep')
  {
    var t := cmds[1..];
    forall d, k | d in keep' && 0 <= k < |t| && ParseEntry(t[k]).Some?
      ensures Apart(d, Locate(fs', Src(t[k])))
    {
      assert t[k] == cmds[k + 1];
      if d in keep {
        assert Apart(d, Locate(fs, Src(cmds[k + 1])));
      } else {
        assert EntriesApart(fs, cmds[0], cmds[k + 1]);
      }
    }
  }

  /** A restore into plain entries that nobody disturbs is allowed, and leaves what it has restored alone. */
  lemma {:induction false} QuietRestore(store: set<Path>, w: World, cmds: seq<Cmd>, ts: string, turns: seq<Turn>,
                                        keep: set<Path>)
    requires StoreOk(store) && Good(store, w) && |turns| == |cmds| && Quiet(turns) && ServerOk(w.fs, store, cmds, ts)
    requires SourcesApartFrom(w.fs, cmds, keep)
    ensures AllAllowed(store, w, RestoreEvents(cmds, ts, turns)) && Undisturbed(w.fs, cmds, ts, turns, keep)
    decreases |cmds|
  {
    if cmds == [] {
    } else {
      var first := RestoreEvent(cmds[0], ts, turns[0]);
      QuietRestoreStep(store, w, cmds, ts, turns[0]);
      var w1 := Run(w, first);
      assert PlainEntry(w.fs, store, cmds[0], ts);
      var keep' := keep;
      if ParseEntry(cmds[0]).Some? {
        PlainSource(w.fs, store, cmds[0], ts);
        keep' := keep + {Locate(w.fs, Src(cmds[0])), Target(w.fs, Src(cmds[0]))};
      }
      KeepsApart(w.fs, w1.fs, store, cmds, ts, keep, keep');
      QuietRestore(store, w1, cmds[1..], ts, turns[1..], keep');
      RunConcat(store, w, first, RestoreEvents(cmds[1..], ts, turns[1..]));
    }
  }

  /** The round trip from conditions that can be read off the configuration and the disk: if nobody disturbs the two
      calls themselves, whatever happens between them, every source is afterwards exactly what it was when the backup
      was started. */
  lemma QuietRoundTrip(store: set<Path>, w: World, cmds: seq<Cmd>, ts: string, turns: seq<Turn>, between: seq<Event>,
                       turns': seq<Turn>)
    requires StoreOk(store) && Good(store, w) && |turns| == |cmds| == |turns'| && Quiet(turns) && Quiet(turns')
    requires ServerOk(w.fs, store, cmds, ts) && NewFor(w, cmds, ts) && !BackupAll(w.fs, cmds, ts, turns).1
    requires var w1 := Run(w, BackupEvents(cmds, ts, turns)); var w2 := Run(w1, between);
             AllAllowed(store, w1, between) && ServerOk(w2.fs, store, cmds, ts)
             && !RestoreAll(w2.fs, cmds, ts, turns').1
    ensures var w2 := Run(Run(w, BackupEvents(cmds, ts, turns)), between);
            var fs' := RestoreAll(w2.fs, cmds, ts, turns').0;
            forall k :: 0 <= k < |cmds| && ParseEntry(cmds[k]).Some? ==>
              View(fs', Source(fs', Src(cmds[k]))) == View(w.fs, Source(w.fs, Src(cmds[k])))
  {
    QuietBackup(store, w, cmds, ts, turns);
    var w1 := Run(w, BackupEvents(cmds, ts, turns));
    GenerationsAreImmutable(store, w, BackupEvents(cmds, ts, turns));
    GenerationsAreImmutable(store, w1, between);
    QuietRestore(store, Run(w1, between), cmds, ts, turns', {});
    BackupRestoreRoundTrip(store, w, cmds, ts, turns, between, turns');
    forall k | 0 <= k < |cmds|
      ensures Shows(w.fs, cmds[k], Recs(w.fs, cmds, ts, turns)[k])
    {
    }
  }
}
