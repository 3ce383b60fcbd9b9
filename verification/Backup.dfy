/** Versioned backups with hard links (`Backup`, `Restore` in `internal/container/container.go`). */
module Backup {
  import opened GoStrings
  import opened Paths
  import opened FileTree

  const LATEST := "latest"

  // ---------- one entry of a backup or a restore ----------

  /** The directory handed to `--link-dest`, if `latest` can be statted: rsync reads a relative one from its
      destination. */
  function LinkDest(fs: FS, destBase: string, current: Path): Option<Path> {
    if Exists(fs, Locate(fs, destBase + "/" + LATEST))
    then Some(Follow(fs, LocateFrom(current, destBase + "/" + LATEST)))
    else None
  }

  /** The directory that rsync reads for `src/`: a source that is a symbolic link is followed. */
  function Source(fs: FS, src: string): Path { Follow(fs, Locate(fs, src + "/")) }

  /** The directory that rsync writes for `src`: a link is followed if it leads to a directory. */
  function Target(fs: FS, src: string): Path {
    var p := Locate(fs, src);
    if IsDir(fs, Follow(fs, p)) then Follow(fs, p) else p
  }

  /** One `backup` command: make the base, copy, and repoint `latest` only after a successful copy. */
  function BackupEntry(fs: FS, src: string, destBase: string, ts: string, o: Outcome): (FS, bool) {
    var current := Locate(fs, destBase + "/" + ts);
    var fs1 := if destBase == "" then fs else MkdirAll(fs, Locate(fs, destBase));
    var (fs2, ok) := Rsync(fs1, Source(fs, src), current, LinkDest(fs1, destBase, current), o);
    if ok then (Relink(fs2, Locate(fs, destBase + "/" + LATEST), ts), true) else (fs2, false)
  }

  /** One `backup` command during a restore; a generation that is missing is skipped without an error. */
  function RestoreEntry(fs: FS, src: string, destBase: string, generation: string, o: Outcome): (FS, bool) {
    var from := Locate(fs, Join2(destBase, generation));
    if !Exists(fs, from) then (fs, true)
    else Rsync(fs, Follow(fs, from), Target(fs, src), None, o)
  }

  /** An rsync into `dst` that is not broken off succeeds from this directory. */
  predicate Receives(fs: FS, from: Path, dst: Path) {
    && IsDir(fs, from)
    && |dst| > 0 && IsDir(fs, dst[..|dst| - 1]) && (dst in fs.nodes ==> fs.nodes[dst].Dir?)
  }

  /** A restore of one entry: without the generation nothing happens and nothing is wrong. With it, the copy succeeds
      exactly if it is not broken off, the generation is a directory, the parent of the target is one, and nothing but
      a directory is at the target. */
  lemma RestoreSucceedsExactlyWhen(fs: FS, src: string, destBase: string, generation: string, o: Outcome)
    ensures var from := Locate(fs, Join2(destBase, generation));
            var r := RestoreEntry(fs, src, destBase, generation, o);
            && (!Exists(fs, from) ==> r == (fs, true))
            && (Exists(fs, from) ==> (r.1 <==> o.Done? && Receives(fs, Follow(fs, from), Target(fs, src))))
  {
  }

  /** The target is the place that the source names; a link there is followed if it leads to a directory. */
  lemma TargetIs(fs: FS, src: string)
    ensures var p := Locate(fs, src);
            && (p !in fs.nodes || !fs.nodes[p].Link? ==> Target(fs, src) == p)
            && (IsDir(fs, Follow(fs, p)) ==> Target(fs, src) == Follow(fs, p))
            && (!IsDir(fs, Follow(fs, p)) ==> Target(fs, src) == p)
  {
  }

  // ---------- the store and the rest of the disk ----------

  /** The base directories of all configured backups; none lies inside another. */
  ghost predicate StoreOk(store: set<Path>) {
    forall a, b :: a in store && b in store && a != b ==> Apart(a, b)
  }

  ghost predicate InStore(store: set<Path>, p: Path) {
    exists b :: b in store && b <= p
  }

  /** `d` neither lies in the store nor contains a part of it. */
  ghost predicate OutOfStore(store: set<Path>, d: Path) {
    forall b :: b in store ==> Apart(b, d)
  }

  /** No inode is shared between the store and the rest of the disk. */
  ghost predicate Separate(fs: FS, store: set<Path>) {
    forall p, q ::
      (p in fs.nodes && q in fs.nodes && fs.nodes[p].File? && fs.nodes[p] == fs.nodes[q]) ==>
        (InStore(store, p) <==> InStore(store, q))
  }

  ghost predicate Inv(fs: FS, store: set<Path>) {
    WellFormed(fs) && Separate(fs, store)
  }

  /** Other programs can write to an inode if some name outside the store has it, or if no name has it. */
  ghost predicate Writable(fs: FS, store: set<Path>, i: Inode) {
    (exists q :: q in fs.nodes && !InStore(store, q) && fs.nodes[q] == File(i)) || !Named(fs, i)
  }

  ghost predicate Named(fs: FS, i: Inode) {
    exists q :: q in fs.nodes && fs.nodes[q] == File(i)
  }

  /** Anything that other programs do without entering the store: names outside it change at will, and each inode
      that can be written to from there is overwritten in place or vanishes at will. A file outside takes its inode
      from outside or is new. What this does to the contents of the store is not said here. */
  ghost predicate OutsideStep(fs: FS, fs': FS, store: set<Path>) {
    && WellFormed(fs') && fs'.tick >= fs.tick && fs'.cwd == fs.cwd
    && (forall p :: InStore(store, p) ==> (p in fs.nodes <==> p in fs'.nodes))
    && (forall p :: InStore(store, p) && p in fs.nodes && p in fs'.nodes ==> fs'.nodes[p] == fs.nodes[p])
    && (forall i :: i in fs.heap && !Writable(fs, store, i) ==> i in fs'.heap && fs'.heap[i] == fs.heap[i])
    && (forall p :: p in fs'.nodes && fs'.nodes[p].File? && !InStore(store, p) ==>
          fs'.nodes[p].ino !in fs.heap
          || exists q :: q in fs.nodes && !InStore(store, q) && fs.nodes[q] == fs'.nodes[p])
  }

  /** While no inode is shared between the two sides, nothing outside reaches the store. */
  lemma OutsideLeavesStore(fs: FS, fs': FS, store: set<Path>, b: Path)
    requires Inv(fs, store) && OutsideStep(fs, fs', store) && b in store
    ensures SameBelow(fs, fs', b)
  {
    forall p | b <= p
      ensures p in fs.nodes <==> p in fs'.nodes
      ensures p in fs.nodes && p in fs'.nodes ==>
                fs.nodes[p] == fs'.nodes[p] && ContentOf(fs, fs.nodes[p]) == ContentOf(fs', fs.nodes[p])
    {
      assert InStore(store, p);
      if p in fs.nodes && fs.nodes[p].File? {
        StoreFileIsSafe(fs, store, p);
      }
    }
  }

  lemma StoreFileIsSafe(fs: FS, store: set<Path>, p: Path)
    requires Inv(fs, store) && InStore(store, p) && p in fs.nodes && fs.nodes[p].File?
    ensures fs.nodes[p].ino in fs.heap && !Writable(fs, store, fs.nodes[p].ino)
  {
    assert Named(fs, fs.nodes[p].ino);
  }

  /** No outside step changes anything in the store. */
  ghost predicate StoreIsImmune(fs: FS, store: set<Path>) {
    forall fs', b :: OutsideStep(fs, fs', store) && b in store ==> SameBelow(fs, fs', b)
  }

  /** The separation is exactly what protects the store from in-place writes. */
  lemma ImmuneExactlyWhen(fs: FS, store: set<Path>)
    requires WellFormed(fs)
    ensures StoreIsImmune(fs, store) <==> Separate(fs, store)
  {
    if Separate(fs, store) {
      forall fs', b | OutsideStep(fs, fs', store) && b in store
        ensures SameBelow(fs, fs', b)
      {
        OutsideLeavesStore(fs, fs', store, b);
      }
    } else {
      var p, q :| p in fs.nodes && q in fs.nodes && fs.nodes[p].File? && fs.nodes[p] == fs.nodes[q]
                  && InStore(store, p) && !InStore(store, q);
      SharedInodeIsReached(fs, store, p, q);
    }
  }

  /** A write through the outside name of a shared inode shows in the store. */
  lemma SharedInodeIsReached(fs: FS, store: set<Path>, p: Path, q: Path)
    requires WellFormed(fs) && p in fs.nodes && q in fs.nodes && fs.nodes[p].File? && fs.nodes[p] == fs.nodes[q]
    requires InStore(store, p) && !InStore(store, q)
    ensures !StoreIsImmune(fs, store)
  {
    var i := fs.nodes[p].ino;
    var fs' := fs.(heap := fs.heap[i := Content(fs.heap[i].data + "x", 0)]);
    assert |fs'.heap[i].data| > |fs.heap[i].data|;
    assert OutsideStep(fs, fs', store);
    var b :| b in store && b <= p;
    assert !SameBelow(fs, fs', b);
  }

  lemma OutsideKeepsInv(fs: FS, fs': FS, store: set<Path>)
    requires Inv(fs, store) && OutsideStep(fs, fs', store)
    ensures Inv(fs', store)
  {
    forall p, q | p in fs'.nodes && q in fs'.nodes && fs'.nodes[p].File? && fs'.nodes[p] == fs'.nodes[q]
                  && InStore(store, p)
      ensures InStore(store, q)
    {
      assert fs.nodes[p] == fs'.nodes[p];
    }
  }

  lemma PrefixesComparable(a: Path, b: Path, p: Path)
    requires a <= p && b <= p
    ensures a <= b || b <= a
  {
    if |a| <= |b| {
      assert a == p[..|a|] == b[..|a|];
    } else {
      assert b == p[..|b|] == a[..|b|];
    }
  }

  lemma ApartDisjoint(a: Path, b: Path, p: Path)
    requires Apart(a, b) && a <= p
    ensures !(b <= p)
  {
    if b <= p {
      PrefixesComparable(a, b, p);
    }
  }

  lemma SyncSame(fs: FS, src: Path, dst: Path, link: Option<Path>, copied: set<Path>, kept: set<Path>, d: Path)
    requires WellFormed(fs) && Apart(d, dst)
    ensures SameBelow(fs, Sync(fs, src, dst, link, copied, kept), d)
  {
    SyncFrame(fs, src, dst, link, copied, kept);
    var fs' := Sync(fs, src, dst, link, copied, kept);
    forall p | d <= p && (p in fs.nodes || p in fs'.nodes)
      ensures !(dst <= p)
    {
      ApartDisjoint(d, dst, p);
    }
  }

  lemma PrefixTransitive(a: Path, b: Path, c: Path)
    ensures a <= b && b <= c ==> a <= c
  {
  }

  lemma MkdirSame(fs: FS, p: Path, d: Path)
    requires WellFormed(fs) && !(d <= p)
    ensures SameBelow(fs, MkdirAll(fs, p), d)
  {
    MkdirAllFrame(fs, p);
    var fs' := MkdirAll(fs, p);
    forall q | d <= q && (q in fs.nodes || q in fs'.nodes)
      ensures !(q <= p)
    {
      PrefixTransitive(d, q, p);
    }
  }

  lemma RelinkSame(fs: FS, p: Path, target: string, d: Path)
    requires !(d <= p)
    ensures SameBelow(fs, Relink(fs, p, target), d)
  {
  }

  lemma SameTransitive(a: FS, b: FS, c: FS, d: Path)
    requires SameBelow(a, b, d) && SameBelow(b, c, d)
    ensures SameBelow(a, c, d)
  {
  }

  // ---------- the separation is kept ----------

  ghost predicate OldSibling(fs: FS, store: set<Path>, p: Path, i: Inode) {
    exists q :: q in fs.nodes && fs.nodes[q] == File(i) && (InStore(store, q) <==> InStore(store, p))
  }

  /** Each file after a copy has a new inode, or one from its own side of the disk. */
  lemma SyncSides(fs: FS, store: set<Path>, src: Path, dst: Path, link: Option<Path>, copied: set<Path>,
                  kept: set<Path>, p: Path)
    requires WellFormed(fs)
    requires forall r: Path :: InStore(store, dst + r) <==> InStore(store, dst)
    requires link.Some? ==> InStore(store, dst) && InStore(store, link.value)
    requires var fs' := Sync(fs, src, dst, link, copied, kept); p in fs'.nodes && fs'.nodes[p].File?
    ensures var i := Sync(fs, src, dst, link, copied, kept).nodes[p].ino;
            i == Ino(fs.tick, p) || OldSibling(fs, store, p, i)
  {
    var fs' := Sync(fs, src, dst, link, copied, kept);
    var i := fs'.nodes[p].ino;
    if dst <= p {
      SyncOrigin(fs, src, dst, link, copied, kept, p);
      var r := p[|dst|..];
      assert p == dst + r;
      if link.Some? && link.value + r in fs.nodes && fs.nodes[link.value + r] == File(i) {
        StoreBelow(store, link.value, r);
        assert OldSibling(fs, store, p, i);
      }
    } else {
      SyncFrame(fs, src, dst, link, copied, kept);
      assert fs.nodes[p] == File(i);
    }
  }

  lemma StoreBelow(store: set<Path>, d: Path, r: Path)
    requires InStore(store, d)
    ensures InStore(store, d + r)
  {
    var b :| b in store && b <= d;
    assert b <= d + r;
  }

  lemma SyncKeepsInv(fs: FS, store: set<Path>, src: Path, dst: Path, link: Option<Path>, copied: set<Path>,
                     kept: set<Path>)
    requires Inv(fs, store)
    requires InStore(store, dst) || OutOfStore(store, dst)
    requires link.Some? ==> InStore(store, dst) && InStore(store, link.value)
    ensures Inv(Sync(fs, src, dst, link, copied, kept), store)
  {
    var fs' := Sync(fs, src, dst, link, copied, kept);
    SyncWellFormed(fs, src, dst, link, copied, kept);
    forall r: Path
      ensures InStore(store, dst + r) <==> InStore(store, dst)
    {
      if InStore(store, dst) {
        StoreBelow(store, dst, r);
      } else if b :| b in store && b <= dst + r {
        assert dst <= dst + r;
        ApartDisjoint(b, dst, dst + r);
        assert false;
      }
    }
    forall p, q | p in fs'.nodes && q in fs'.nodes && fs'.nodes[p].File? && fs'.nodes[p] == fs'.nodes[q]
      ensures InStore(store, p) <==> InStore(store, q)
    {
      SyncSides(fs, store, src, dst, link, copied, kept, p);
      SyncSides(fs, store, src, dst, link, copied, kept, q);
      var i := fs'.nodes[p].ino;
      if i == Ino(fs.tick, p) && OldSibling(fs, store, q, i) {
        assert false;
      }
      if i == Ino(fs.tick, q) && OldSibling(fs, store, p, i) {
        assert false;
      }
    }
  }

  lemma MkdirKeepsInv(fs: FS, store: set<Path>, p: Path)
    requires Inv(fs, store)
    ensures Inv(MkdirAll(fs, p), store)
  {
    MkdirAllFrame(fs, p);
  }

  lemma RelinkKeepsInv(fs: FS, store: set<Path>, p: Path, target: string)
    requires Inv(fs, store)
    ensures Inv(Relink(fs, p, target), store)
  {
  }

  lemma RsyncKeepsInv(fs: FS, store: set<Path>, src: Path, dst: Path, link: Option<Path>, o: Outcome)
    requires Inv(fs, store)
    requires InStore(store, dst) || OutOfStore(store, dst)
    requires link.Some? ==> InStore(store, dst) && InStore(store, link.value)
    ensures Inv(Rsync(fs, src, dst, link, o).0, store)
  {
    match o
    case Broken(copied, kept) => SyncKeepsInv(fs, store, src, dst, link, copied, kept);
    case Done => if CanCopy(fs, src, dst) { SyncKeepsInv(fs, store, src, dst, link, Names(fs, src), {}); }
  }

  lemma RsyncSame(fs: FS, src: Path, dst: Path, link: Option<Path>, o: Outcome, d: Path)
    requires WellFormed(fs) && Apart(d, dst)
    ensures SameBelow(fs, Rsync(fs, src, dst, link, o).0, d)
  {
    match o
    case Broken(copied, kept) => SyncSame(fs, src, dst, link, copied, kept, d);
    case Done => if CanCopy(fs, src, dst) { SyncSame(fs, src, dst, link, Names(fs, src), {}, d); }
  }

  /** A successful rsync leaves a directory that shows the source, next to its existing parent. */
  lemma RsyncCopies(fs: FS, src: Path, dst: Path, link: Option<Path>, o: Outcome)
    requires WellFormed(fs) && Rsync(fs, src, dst, link, o).1
    ensures var fs' := Rsync(fs, src, dst, link, o).0;
            && View(fs', dst) == View(fs, src) && IsDir(fs', dst)
            && |dst| > 0 && IsDir(fs', dst[..|dst| - 1]) && fs'.cwd == fs.cwd
  {
    SyncCopies(fs, src, dst, link);
    SyncFrame(fs, src, dst, link, Names(fs, src), {});
    SyncRoot(fs, src, dst, link);
  }

  lemma SyncRoot(fs: FS, src: Path, dst: Path, link: Option<Path>)
    requires WellFormed(fs) && IsDir(fs, src)
    ensures IsDir(Sync(fs, src, dst, link, Names(fs, src), {}), dst)
  {
    NamesAre(fs, src, []);
    assert src + [] == src && dst + [] == dst;
    SyncNode(fs, src, dst, link, Names(fs, src), {}, []);
  }
}
