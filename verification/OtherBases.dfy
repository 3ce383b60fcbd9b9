/** Backups into a base that is no absolute path (`Backup` in `internal/container/container.go`). */
module OtherBases {
  import opened GoStrings
  import opened Paths
  import opened FileTree
  import opened Backup
  import opened BackupRuns

  lemma {:induction false} WalkDown(acc: Path, parts: seq<string>)
    requires ".." !in parts
    ensures acc <= Walk(true, acc, parts)
    decreases |parts|
  {
    if parts != [] {
      var next := Push(true, acc, parts[0]);
      WalkDown(next, parts[1..]);
      PrefixTransitive(acc, next, Walk(true, next, parts[1..]));
    }
  }

  /** The link directory is looked up from inside the new generation, so a relative base leads back into it. */
  lemma RelativeLinkIsInside(destBase: string, current: Path)
    requires destBase != "" && !Rooted(destBase) && ".." !in Split(destBase, '/')
    ensures current <= LocateFrom(current, destBase + "/" + LATEST)
  {
    LatestIsPlain();
    var s := destBase + "/" + LATEST;
    assert s == destBase + ['/'] + LATEST;
    SplitConcat(destBase, LATEST, '/');
    SplitOfFree(LATEST, '/');
    assert ".." !in Split(s, '/');
    WalkDown(current, Split(s, '/'));
  }

  ghost predicate NothingBelow(fs: FS, d: Path) { forall p :: p in fs.nodes ==> !(d <= p) }

  lemma NoLink(fs: FS, destBase: string, current: Path)
    requires destBase != "" && !Rooted(destBase) && ".." !in Split(destBase, '/') && NothingBelow(fs, current)
    ensures var l := LinkDest(fs, destBase, current); l.Some? ==> NothingBelow(fs, l.value)
  {
    RelativeLinkIsInside(destBase, current);
    var p := LocateFrom(current, destBase + "/" + LATEST);
    assert p !in fs.nodes && Follow(fs, p) == p;
    forall q | q in fs.nodes
      ensures !(p <= q)
    {
      if p <= q {
        PrefixTransitive(current, p, q);
      }
    }
  }

  lemma AllNewBelow(fs: FS, from: Path, dst: Path, link: Option<Path>, o: Outcome, p: Path)
    requires WellFormed(fs) && NothingBelow(fs, dst) && (link.Some? ==> NothingBelow(fs, link.value)) && dst <= p
    ensures var fs' := Rsync(fs, from, dst, link, o).0;
            p in fs'.nodes && fs'.nodes[p].File? ==> fs'.nodes[p].ino !in fs.heap
  {
    var (copied, kept) := match o case Broken(c, k) => (c, k) case Done => (Names(fs, from), {});
    var fs' := Sync(fs, from, dst, link, copied, kept);
    if p in fs'.nodes && fs'.nodes[p].File? {
      SyncOrigin(fs, from, dst, link, copied, kept, p);
      if link.Some? {
        assert link.value <= link.value + p[|dst|..];
      }
    }
  }

  lemma MkdirKeepsBelow(fs: FS, b: Path, ts: string)
    requires WellFormed(fs) && NothingBelow(fs, b + [ts])
    ensures WellFormed(MkdirAll(fs, b)) && MkdirAll(fs, b).heap == fs.heap && NothingBelow(MkdirAll(fs, b), b + [ts])
  {
    MkdirAllFrame(fs, b);
  }

  lemma EntryAtNew(fs: FS, from: Path, b: Path, ts: string, latest: string, link: Option<Path>, o: Outcome, r: Path)
    requires WellFormed(fs) && ts != latest && NothingBelow(fs, b + [ts])
    requires link.Some? ==> NothingBelow(MkdirAll(fs, b), link.value)
    ensures var fs' := EntryAt(fs, from, b, ts, latest, link, o).0; var p := b + [ts] + r;
            p in fs'.nodes && fs'.nodes[p].File? ==> fs'.nodes[p].ino !in fs.heap
  {
    var fs1, dst, p := MkdirAll(fs, b), b + [ts], b + [ts] + r;
    MkdirKeepsBelow(fs, b, ts);
    assert dst <= p && p[|b|] == ts && (b + [latest])[|b|] == latest;
    AllNewBelow(fs1, from, dst, link, o, p);
    RelinkElsewhere(Rsync(fs1, from, dst, link, o).0, b + [latest], ts, p);
  }

  lemma RelinkElsewhere(fs: FS, at: Path, target: string, p: Path)
    requires p != at
    ensures var fs' := Relink(fs, at, target);
            (p in fs'.nodes <==> p in fs.nodes) && (p in fs.nodes ==> fs'.nodes[p] == fs.nodes[p])
  {
  }

  lemma RelativeEntryIsAt(fs: FS, src: string, destBase: string, ts: string, o: Outcome)
    requires destBase != "" && Plain(ts)
    ensures var b := Locate(fs, destBase);
            BackupEntry(fs, src, destBase, ts, o) ==
            EntryAt(fs, Source(fs, src), b, ts, LATEST, LinkDest(MkdirAll(fs, b), destBase, b + [ts]), o)
  {
    LatestIsPlain();
    LocateChild(fs, destBase, ts);
    LocateChild(fs, destBase, LATEST);
  }

  /** Incremental backups need an absolute base. With a relative one without "..", rsync looks for the link directory
      below the new generation and finds none, so that no file is ever shared with an earlier generation. */
  lemma RelativeBaseSharesNothing(fs: FS, src: string, destBase: string, ts: string, o: Outcome, r: Path)
    requires WellFormed(fs) && GenerationName(ts)
    requires destBase != "" && !Rooted(destBase) && ".." !in Split(destBase, '/')
    requires NothingBelow(fs, Locate(fs, destBase) + [ts])
    ensures var fs' := BackupEntry(fs, src, destBase, ts, o).0; var p := Locate(fs, destBase) + [ts] + r;
            p in fs'.nodes && fs'.nodes[p].File? ==> fs'.nodes[p].ino !in fs.heap
  {
    var b := Locate(fs, destBase);
    var fs1 := MkdirAll(fs, b);
    MkdirKeepsBelow(fs, b, ts);
    RelativeEntryIsAt(fs, src, destBase, ts, o);
    NoLink(fs1, destBase, b + [ts]);
    EntryAtNew(fs, Source(fs, src), b, ts, LATEST, LinkDest(fs1, destBase, b + [ts]), o, r);
  }

  /** An empty base is the root directory, not the working directory: the generation and `latest` lie there, and no
      directory is made. */
  lemma EmptyBaseIsTheRoot(fs: FS, src: string, ts: string, o: Outcome, q: Path)
    requires WellFormed(fs) && Plain(ts) && !([ts] <= q) && q != [LATEST]
    ensures var fs' := BackupEntry(fs, src, "", ts, o).0;
            (q in fs'.nodes <==> q in fs.nodes) && (q in fs.nodes ==> fs'.nodes[q] == fs.nodes[q])
    ensures BackupEntry(fs, src, "", ts, o).1 <==> o.Done? && CanCopy(fs, Source(fs, src), [ts])
  {
    LocateInRoot(fs, ts);
    LatestIsPlain();
    LocateInRoot(fs, LATEST);
    RsyncOutside(fs, Source(fs, src), [ts], LinkDest(fs, "", [ts]), o, q);
  }

  /** But a restore looks for it in the working directory: what a backup with an empty base has written to the root is
      skipped without an error, unless the working directory has something of that name. */
  lemma EmptyBaseIsNotFoundAgain(fs: FS, src: string, generation: string, o: Outcome)
    requires Plain(generation) && fs.cwd + [generation] !in fs.nodes
    ensures RestoreEntry(fs, src, "", generation, o) == (fs, true)
  {
    LocateClean(fs.cwd, generation);
    SplitOfFree(generation, '/');
    assert !Rooted(generation);
    assert Walk(true, fs.cwd, [generation]) == fs.cwd + [generation];
  }

  lemma LocateInRoot(fs: FS, name: string)
    requires Plain(name)
    ensures Locate(fs, "" + "/" + name) == [name]
  {
    LocateChild(fs, "/", name);
    var s := "" + "/" + name;
    assert s == "" + ['/'] + name && Rooted(s);
    SplitConcat("", name, '/');
    SplitOfFree(name, '/');
    assert Split(s, '/') == [""] + [name];
    assert Walk(true, [], [""] + [name]) == Walk(true, [], [name]) == [name];
  }
}
