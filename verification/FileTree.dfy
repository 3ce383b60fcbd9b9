/** A file system as an inode heap with a tree of names over it, and the copying step of rsync on it. */
module FileTree {
  import opened GoStrings
  import opened Paths

  type Path = seq<string>

  /** An inode is named by the copy that allocated it and the path it was allocated for. */
  datatype Inode = Ino(born: nat, at: Path)

  /** A file's data together with the attributes that archive mode preserves. */
  datatype Content = Content(data: string, attributes: nat)

  datatype Node = Dir | File(ino: Inode) | Link(target: string)

  datatype FS = FS(nodes: map<Path, Node>, heap: map<Inode, Content>, tick: nat, cwd: Path)

  /** What a reader sees: contents, never inodes. */
  datatype Visible = VDir | VFile(content: Content) | VLink(target: string)

  predicate Apart(a: Path, b: Path) { !(a <= b) && !(b <= a) }

  function ContentOf(fs: FS, n: Node): Content {
    if n.File? && n.ino in fs.heap then fs.heap[n.ino] else Content("", 0)
  }

  function See(fs: FS, n: Node): Visible {
    match n
    case Dir => VDir
    case Link(t) => VLink(t)
    case File(_) => VFile(ContentOf(fs, n))
  }

  /** The relative names below `d`; `[]` is `d` itself. */
  function Names(fs: FS, d: Path): set<Path> {
    set p | p in fs.nodes && d <= p :: p[|d|..]
  }

  lemma NamesAre(fs: FS, d: Path, r: Path)
    ensures r in Names(fs, d) <==> d + r in fs.nodes
  {
    if d + r in fs.nodes {
      assert d <= d + r && (d + r)[|d|..] == r;
    }
    if r in Names(fs, d) {
      var p :| p in fs.nodes && d <= p && p[|d|..] == r;
      assert p == d + r;
    }
  }

  /** Everything visible below `d`. */
  function View(fs: FS, d: Path): map<Path, Visible> {
    map r | r in Names(fs, d) && d + r in fs.nodes :: See(fs, fs.nodes[d + r])
  }

  /** Every file has contents, and every inode was allocated in the past. */
  predicate WellFormed(fs: FS) {
    && (forall p :: p in fs.nodes && fs.nodes[p].File? ==> fs.nodes[p].ino in fs.heap)
    && (forall i :: i in fs.heap ==> i.born < fs.tick)
  }

  /** Nothing below `d` differs between the two file systems. */
  ghost predicate SameBelow(fs: FS, fs': FS, d: Path) {
    && (forall p :: d <= p ==> (p in fs.nodes <==> p in fs'.nodes))
    && (forall p :: d <= p && p in fs.nodes && p in fs'.nodes ==>
          fs.nodes[p] == fs'.nodes[p] && ContentOf(fs, fs.nodes[p]) == ContentOf(fs', fs.nodes[p]))
  }

  lemma ViewFrame(fs: FS, fs': FS, d: Path)
    requires SameBelow(fs, fs', d)
    ensures View(fs, d) == View(fs', d)
  {
    forall r
      ensures LooksAlike(fs, d, fs', d, r)
    {
      assert d <= d + r;
    }
    ViewsEqual(fs, d, fs', d);
  }

  /** Inode contents are only ever added. */
  predicate HeapGrows(fs: FS, fs': FS) {
    forall i :: i in fs.heap ==> i in fs'.heap && fs'.heap[i] == fs.heap[i]
  }

  // ---------- rsync ----------

  predicate HasContent(fs: FS, p: Path, c: Content) {
    p in fs.nodes && fs.nodes[p].File? && fs.nodes[p].ino in fs.heap && fs.heap[fs.nodes[p].ino] == c
  }

  /** A file to copy is left alone if the destination has it, linked if the link directory has it, else new.
      An existing inode is never written. */
  function NewNode(fs: FS, src: Path, dst: Path, link: Option<Path>, r: Path): Node
    requires src + r in fs.nodes
  {
    var n := fs.nodes[src + r];
    if !n.File? then n
    else
      var c := ContentOf(fs, n);
      if HasContent(fs, dst + r, c) then fs.nodes[dst + r]
      else if link.Some? && HasContent(fs, link.value + r, c) then fs.nodes[link.value + r]
      else File(Ino(fs.tick, dst + r))
  }

  /** The names below `dst` that the copy has dealt with, and the old ones that it has not yet deleted. */
  function Keys(fs: FS, src: Path, dst: Path, copied: set<Path>, kept: set<Path>): set<Path> {
    (set p | p in fs.nodes && (!(dst <= p) || p[|dst|..] in kept))
    + (set r | r in copied && src + r in fs.nodes :: dst + r)
  }

  predicate Copied(fs: FS, src: Path, dst: Path, copied: set<Path>, p: Path) {
    dst <= p && p[|dst|..] in copied && src + p[|dst|..] in fs.nodes
  }

  function Sync(fs: FS, src: Path, dst: Path, link: Option<Path>, copied: set<Path>, kept: set<Path>): FS {
    var nodes := map p | p in Keys(fs, src, dst, copied, kept) ::
                   if Copied(fs, src, dst, copied, p) then NewNode(fs, src, dst, link, p[|dst|..])
                   else if p in fs.nodes then fs.nodes[p] else Dir;
    var added := set r | r in copied && src + r in fs.nodes && fs.nodes[src + r].File?
                           && NewNode(fs, src, dst, link, r) == File(Ino(fs.tick, dst + r)) :: Ino(fs.tick, dst + r);
    FS(nodes,
       fs.heap + map i | i in added && dst <= i.at && src + i.at[|dst|..] in fs.nodes
                   :: i := ContentOf(fs, fs.nodes[src + i.at[|dst|..]]),
       fs.tick + 1, fs.cwd)
  }

  /** How far one rsync run gets. */
  datatype Outcome = Done | Broken(copied: set<Path>, kept: set<Path>)

  predicate IsDir(fs: FS, p: Path) { p in fs.nodes && fs.nodes[p].Dir? }

  /** rsync makes the destination directory itself, but not its parent. */
  predicate CanCopy(fs: FS, src: Path, dst: Path) {
    IsDir(fs, src) && |dst| > 0 && IsDir(fs, dst[..|dst| - 1]) && (dst in fs.nodes ==> fs.nodes[dst].Dir?)
  }

  /** `rsync -a --delete [--link-dest link] src/ dst` */
  function Rsync(fs: FS, src: Path, dst: Path, link: Option<Path>, o: Outcome): (FS, bool) {
    match o
    case Broken(copied, kept) => (Sync(fs, src, dst, link, copied, kept), false)
    case Done =>
      if CanCopy(fs, src, dst) then (Sync(fs, src, dst, link, Names(fs, src), {}), true) else (fs, false)
  }

  lemma KeysAre(fs: FS, src: Path, dst: Path, copied: set<Path>, kept: set<Path>, p: Path)
    ensures p in Keys(fs, src, dst, copied, kept) <==>
              (p in fs.nodes && (!(dst <= p) || p[|dst|..] in kept)) || Copied(fs, src, dst, copied, p)
  {
    if Copied(fs, src, dst, copied, p) {
      assert dst + p[|dst|..] == p;
    }
    if r :| r in copied && src + r in fs.nodes && dst + r == p {
      assert p[|dst|..] == r;
    }
  }

  /** Outside the destination nothing changes, and old inodes keep their contents. */
  lemma SyncFrame(fs: FS, src: Path, dst: Path, link: Option<Path>, copied: set<Path>, kept: set<Path>)
    requires WellFormed(fs)
    ensures var fs' := Sync(fs, src, dst, link, copied, kept);
            && HeapGrows(fs, fs') && fs'.cwd == fs.cwd && fs'.tick == fs.tick + 1
            && forall p :: !(dst <= p) ==> (p in fs'.nodes <==> p in fs.nodes)
                                           && (p in fs.nodes ==> fs'.nodes[p] == fs.nodes[p])
  {
    var fs' := Sync(fs, src, dst, link, copied, kept);
    forall p | !(dst <= p)
      ensures p in fs'.nodes <==> p in fs.nodes
      ensures p in fs.nodes ==> fs'.nodes[p] == fs.nodes[p]
    {
      KeysAre(fs, src, dst, copied, kept, p);
    }
  }

  /** Where a copied file's inode comes from, and what it holds. */
  lemma SyncNode(fs: FS, src: Path, dst: Path, link: Option<Path>, copied: set<Path>, kept: set<Path>, r: Path)
    requires WellFormed(fs) && r in copied && src + r in fs.nodes
    ensures var fs' := Sync(fs, src, dst, link, copied, kept);
            && dst + r in fs'.nodes && fs'.nodes[dst + r] == NewNode(fs, src, dst, link, r)
            && See(fs', fs'.nodes[dst + r]) == See(fs, fs.nodes[src + r])
            && (fs'.nodes[dst + r].File? ==> fs'.nodes[dst + r].ino in fs'.heap)
  {
    var p := dst + r;
    assert dst <= p && p[|dst|..] == r;
    KeysAre(fs, src, dst, copied, kept, p);
    var n := NewNode(fs, src, dst, link, r);
    if n == File(Ino(fs.tick, dst + r)) && fs.nodes[src + r].File? {
      assert Ino(fs.tick, p).at[|dst|..] == r;
    }
  }

  /** Which files of the destination stay as they are: exactly those that equal the source's. All others are
      replaced by another inode; none is written to. */
  lemma FileStaysExactlyWhen(fs: FS, src: Path, dst: Path, link: Option<Path>, copied: set<Path>, kept: set<Path>,
                             r: Path)
    requires WellFormed(fs) && r in copied && src + r in fs.nodes && fs.nodes[src + r].File?
    requires dst + r in fs.nodes && fs.nodes[dst + r].File?
    ensures var fs' := Sync(fs, src, dst, link, copied, kept);
            && dst + r in fs'.nodes
            && (fs'.nodes[dst + r] == fs.nodes[dst + r] <==>
                  ContentOf(fs, fs.nodes[dst + r]) == ContentOf(fs, fs.nodes[src + r]))
  {
    SyncNode(fs, src, dst, link, copied, kept, r);
  }

  /** A run that is broken off, name by name: what it had reached shows the source, and the rest is as before or
      gone. */
  lemma BrokenRunLeaves(fs: FS, src: Path, dst: Path, link: Option<Path>, copied: set<Path>, kept: set<Path>, r: Path)
    requires WellFormed(fs)
    ensures var (fs', ok) := Rsync(fs, src, dst, link, Broken(copied, kept));
            && !ok
            && (r in copied && src + r in fs.nodes ==>
                  dst + r in fs'.nodes && See(fs', fs'.nodes[dst + r]) == See(fs, fs.nodes[src + r]))
            && (!(r in copied && src + r in fs.nodes) ==>
                  && (dst + r in fs'.nodes <==> dst + r in fs.nodes && r in kept)
                  && (dst + r in fs'.nodes ==> fs'.nodes[dst + r] == fs.nodes[dst + r]))
  {
    assert (dst + r)[|dst|..] == r;
    if r in copied && src + r in fs.nodes {
      SyncNode(fs, src, dst, link, copied, kept, r);
    } else {
      KeysAre(fs, src, dst, copied, kept, dst + r);
    }
  }

  lemma RsyncOutside(fs: FS, from: Path, dst: Path, link: Option<Path>, o: Outcome, q: Path)
    requires WellFormed(fs) && !(dst <= q)
    ensures var fs' := Rsync(fs, from, dst, link, o).0;
            (q in fs'.nodes <==> q in fs.nodes) && (q in fs.nodes ==> fs'.nodes[q] == fs.nodes[q])
  {
    match o
    case Broken(copied, kept) => SyncFrame(fs, from, dst, link, copied, kept);
    case Done => SyncFrame(fs, from, dst, link, Names(fs, from), {});
  }

  lemma SyncWellFormed(fs: FS, src: Path, dst: Path, link: Option<Path>, copied: set<Path>, kept: set<Path>)
    requires WellFormed(fs)
    ensures WellFormed(Sync(fs, src, dst, link, copied, kept))
  {
    var fs' := Sync(fs, src, dst, link, copied, kept);
    forall p | p in fs'.nodes && fs'.nodes[p].File?
      ensures fs'.nodes[p].ino in fs'.heap
    {
      KeysAre(fs, src, dst, copied, kept, p);
      if Copied(fs, src, dst, copied, p) {
        assert p == dst + p[|dst|..];
        SyncNode(fs, src, dst, link, copied, kept, p[|dst|..]);
      }
    }
  }

  /** An inode below the destination was there before, comes from the link directory, or is new. */
  lemma SyncOrigin(fs: FS, src: Path, dst: Path, link: Option<Path>, copied: set<Path>, kept: set<Path>, p: Path)
    requires WellFormed(fs)
    requires var fs' := Sync(fs, src, dst, link, copied, kept); p in fs'.nodes && fs'.nodes[p].File? && dst <= p
    ensures var i := Sync(fs, src, dst, link, copied, kept).nodes[p].ino;
            var r := p[|dst|..];
            || i == Ino(fs.tick, p)
            || (p in fs.nodes && fs.nodes[p] == File(i))
            || (link.Some? && link.value + r in fs.nodes && fs.nodes[link.value + r] == File(i))
  {
    KeysAre(fs, src, dst, copied, kept, p);
    assert p == dst + p[|dst|..];
  }

  /** A completed copy shows exactly what the source shows, whatever it was linked against. */
  lemma SyncCopies(fs: FS, src: Path, dst: Path, link: Option<Path>)
    requires WellFormed(fs)
    ensures View(Sync(fs, src, dst, link, Names(fs, src), {}), dst) == View(fs, src)
  {
    var names := Names(fs, src);
    var fs' := Sync(fs, src, dst, link, names, {});
    forall r
      ensures LooksAlike(fs, src, fs', dst, r)
    {
      SyncCopiesAt(fs, src, dst, link, r);
    }
    ViewsEqual(fs, src, fs', dst);
  }

  predicate LooksAlike(fs: FS, d: Path, fs': FS, d': Path, r: Path) {
    && (d + r in fs.nodes <==> d' + r in fs'.nodes)
    && (d + r in fs.nodes && d' + r in fs'.nodes ==> See(fs, fs.nodes[d + r]) == See(fs', fs'.nodes[d' + r]))
  }

  lemma ViewsEqual(fs: FS, d: Path, fs': FS, d': Path)
    requires forall r :: LooksAlike(fs, d, fs', d', r)
    ensures View(fs, d) == View(fs', d')
  {
    forall r
      ensures r in View(fs', d') <==> r in View(fs, d)
      ensures r in View(fs, d) && r in View(fs', d') ==> View(fs', d')[r] == View(fs, d)[r]
    {
      assert LooksAlike(fs, d, fs', d', r);
      NamesAre(fs, d, r);
      NamesAre(fs', d', r);
    }
  }

  lemma SyncCopiesAt(fs: FS, src: Path, dst: Path, link: Option<Path>, r: Path)
    requires WellFormed(fs)
    ensures var fs' := Sync(fs, src, dst, link, Names(fs, src), {});
            && (dst + r in fs'.nodes <==> src + r in fs.nodes)
            && (src + r in fs.nodes ==> See(fs', fs'.nodes[dst + r]) == See(fs, fs.nodes[src + r]))
  {
    NamesAre(fs, src, r);
    assert dst <= dst + r && (dst + r)[|dst|..] == r;
    KeysAre(fs, src, dst, Names(fs, src), {}, dst + r);
    if src + r in fs.nodes {
      SyncNode(fs, src, dst, link, Names(fs, src), {}, r);
    }
  }

  /** Linking saves space without being visible: it shows what a full copy shows, a file unchanged since the
      linked directory is the very same inode, and an inode is allocated only for a file that differs. */
  lemma LinkedCopyRefinesFullCopy(fs: FS, src: Path, dst: Path, link: Path, r: Path)
    requires WellFormed(fs) && r in Names(fs, src) && dst + r !in fs.nodes
    ensures var fs' := Sync(fs, src, dst, Some(link), Names(fs, src), {});
            && View(fs', dst) == View(Sync(fs, src, dst, None, Names(fs, src), {}), dst)
            && dst + r in fs'.nodes
            && (fs'.nodes[dst + r].File? ==>
                  if link + r in fs.nodes && fs.nodes[link + r].File?
                     && ContentOf(fs, fs.nodes[link + r]) == ContentOf(fs', fs'.nodes[dst + r])
                  then fs'.nodes[dst + r] == fs.nodes[link + r]
                  else fs'.nodes[dst + r].ino !in fs.heap)
  {
    SyncCopies(fs, src, dst, Some(link));
    SyncCopies(fs, src, dst, None);
    NamesAre(fs, src, r);
    SyncNode(fs, src, dst, Some(link), Names(fs, src), {}, r);
  }

  // ---------- the other calls ----------

  /** Where the kernel looks up a path string, `..` resolved lexically. */
  function LocateFrom(cwd: Path, s: string): Path {
    Walk(true, if Rooted(s) then [] else cwd, Split(s, '/'))
  }

  function Locate(fs: FS, s: string): Path { LocateFrom(fs.cwd, s) }

  /** A final symbolic link is followed once. */
  function Follow(fs: FS, p: Path): Path {
    if p in fs.nodes && fs.nodes[p].Link? && |p| > 0
    then LocateFrom(p[..|p| - 1], fs.nodes[p].target) else p
  }

  /** `os.Stat` succeeds. */
  predicate Exists(fs: FS, p: Path) { Follow(fs, p) in fs.nodes }

  function Prefixes(p: Path): set<Path> {
    set k | 0 <= k <= |p| :: p[..k]
  }

  /** `os.MkdirAll`; on failure nothing changes. */
  function MkdirAll(fs: FS, p: Path): FS {
    if forall q :: q in Prefixes(p) && q in fs.nodes ==> fs.nodes[q].Dir?
    then fs.(nodes := fs.nodes + map q | q in Prefixes(p) :: Dir)
    else fs
  }

  /** `os.Remove(p)` and then `os.Symlink(target, p)`, errors ignored. */
  function Relink(fs: FS, p: Path, target: string): FS {
    var removable := p in fs.nodes && (fs.nodes[p].Dir? ==> Names(fs, p) == {[]});
    var nodes := if removable then fs.nodes - {p} else fs.nodes;
    if p !in nodes && |p| > 0 && p[..|p| - 1] in nodes && nodes[p[..|p| - 1]].Dir?
    then fs.(nodes := nodes[p := Link(target)])
    else fs.(nodes := nodes)
  }

  lemma PrefixesAre(p: Path, q: Path)
    ensures q in Prefixes(p) <==> q <= p
  {
    if q <= p {
      assert p[..|q|] == q;
    }
  }

  lemma MkdirAllFrame(fs: FS, p: Path)
    requires WellFormed(fs)
    ensures var fs' := MkdirAll(fs, p);
            && WellFormed(fs') && fs'.heap == fs.heap && fs'.cwd == fs.cwd && fs'.tick == fs.tick
            && (forall q :: !(q <= p) ==> (q in fs'.nodes <==> q in fs.nodes))
            && (forall q :: q in fs.nodes ==> q in fs'.nodes && fs'.nodes[q] == fs.nodes[q])
            && (forall q :: q in fs'.nodes && q !in fs.nodes ==> fs'.nodes[q] == Dir)
  {
    forall q
      ensures q in Prefixes(p) <==> q <= p
    {
      PrefixesAre(p, q);
    }
  }

  /** Each name on the way to `p` is free or a directory. */
  ghost predicate WayIsFree(fs: FS, p: Path) {
    forall q :: q <= p && q in fs.nodes ==> fs.nodes[q].Dir?
  }

  /** `os.MkdirAll` makes the whole way if nothing blocks it, and otherwise nothing. */
  lemma MkdirAllMakes(fs: FS, p: Path)
    ensures WayIsFree(fs, p) ==> forall q :: q <= p ==> IsDir(MkdirAll(fs, p), q)
    ensures !WayIsFree(fs, p) ==> MkdirAll(fs, p) == fs
  {
    forall q
      ensures q in Prefixes(p) <==> q <= p
    {
      PrefixesAre(p, q);
    }
  }

  /** What `Relink` leaves: the link, if its directory is there and no non-empty directory is in the way. */
  lemma RelinkIs(fs: FS, p: Path, target: string)
    requires p != []
    ensures var fs' := Relink(fs, p, target);
            var parent := p[..|p| - 1];
            var blocked := IsDir(fs, p) && Names(fs, p) != {[]};
            && (blocked ==> fs' == fs)
            && (!blocked && IsDir(fs, parent) ==> fs' == fs.(nodes := fs.nodes[p := Link(target)]))
            && (!blocked && !IsDir(fs, parent) ==> fs' == fs.(nodes := fs.nodes - {p}))
  {
    assert p[..|p| - 1] != p;
  }

  /** A path below `d` string-joined with a plain name. */
  lemma LocateChild(fs: FS, d: string, name: string)
    requires Plain(name) && d != ""
    ensures Locate(fs, d + "/" + name) == Locate(fs, d) + [name]
    ensures Locate(fs, Join2(d, name)) == Locate(fs, d) + [name]
  {
    var s := d + "/" + name;
    var start := if Rooted(d) then [] else fs.cwd;
    assert s == d + ['/'] + name && Rooted(s) == Rooted(d);
    SplitConcat(d, name, '/');
    SplitOfFree(name, '/');
    WalkConcat(true, start, Split(d, '/'), [name]);
    LocateClean(fs.cwd, s);
  }

  lemma LocateSlash(fs: FS, d: string)
    requires d != ""
    ensures Locate(fs, d + "/") == Locate(fs, d)
  {
    assert d + "/" == d + ['/'] + "";
    SplitConcat(d, "", '/');
    WalkConcat(true, if Rooted(d) then [] else fs.cwd, Split(d, '/'), [""]);
  }

  /** Cleaning a path string does not move it. */
  lemma LocateClean(cwd: Path, s: string)
    ensures LocateFrom(cwd, Clean(s)) == LocateFrom(cwd, s)
  {
    CompsNormal(s);
    CleanComps(s);
    SplitFree(s, '/');
    var start := if Rooted(s) then [] else cwd;
    WalkThroughNormal(Rooted(s), start, [], Split(s, '/'));
    RenderSplit(Rooted(s), Comps(s));
    assert Split(Clean(s), '/') == Split(Render(Rooted(s), Comps(s)), '/');
    if Comps(s) == [] {
      if Rooted(s) {
        assert Walk(true, start, ["", ""]) == Walk(true, start, [""]) == start;
      } else {
        assert Walk(true, start, ["."]) == start;
      }
    } else if Rooted(s) {
      var padded := [""] + Comps(s);
      assert padded[1..] == Comps(s);
      assert Walk(true, start, padded) == Walk(true, start, Comps(s));
    } else {
      assert [] + Comps(s) == Comps(s);
    }
  }

  /** Walking the normalised components from `start` is walking the raw ones. */
  lemma {:induction false} WalkThroughNormal(rooted: bool, start: Path, acc: seq<string>, parts: seq<string>)
    requires Normal(rooted, acc) && NoneContain(parts, '/') && (rooted ==> start == [])
    ensures Walk(true, start, Walk(rooted, acc, parts)) == Walk(true, Walk(true, start, acc), parts)
    decreases |parts|
  {
    if parts == [] {
    } else {
      var c := parts[0];
      PushNormal(rooted, acc, c);
      WalkThroughNormal(rooted, start, Push(rooted, acc, c), parts[1..]);
      PushThrough(rooted, start, acc, c);
    }
  }

  lemma PushThrough(rooted: bool, start: Path, acc: seq<string>, c: string)
    requires Normal(rooted, acc) && (rooted ==> start == [])
    ensures Walk(true, start, Push(rooted, acc, c)) == Push(true, Walk(true, start, acc), c)
  {
    WalkConcat(true, start, acc, [c]);
    if acc != [] {
      assert Kept(rooted, acc[|acc| - 1]);
    }
    if c == ".." && acc != [] && acc[|acc| - 1] != ".." {
      var front, last := acc[..|acc| - 1], acc[|acc| - 1];
      assert Kept(rooted, last);
      assert acc == front + [last];
      WalkConcat(true, start, front, [last]);
      var w := Walk(true, start, front);
      assert Walk(true, w, [last]) == w + [last];
      assert (w + [last])[..|w|] == w;
    }
  }
}
