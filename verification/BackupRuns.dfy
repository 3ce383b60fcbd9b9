/** Whole runs of backups, restores and outside activity over one disk. */
module BackupRuns {
  import opened GoStrings
  import opened Paths
  import opened FileTree
  import opened Backup

  /** A generation written by a successful rsync, and what its source showed at that moment. */
  datatype Rec = Rec(base: Path, name: string, src: Path, view: map<Path, Visible>)

  function GenDir(r: Rec): Path { r.base + [r.name] }

  /** The disk, and the history of successful copies. */
  datatype World = World(fs: FS, log: seq<Rec>)

  datatype Event =
    | Outside(after: FS)
    | Entry(src: string, destBase: string, ts: string, outcome: Outcome)
    | Restored(src: string, destBase: string, generation: string, outcome: Outcome)

  function Apply(w: World, e: Event): World {
    match e
    case Outside(after) => w.(fs := after)
    case Entry(src, destBase, ts, o) =>
      var (fs', ok) := BackupEntry(w.fs, src, destBase, ts, o);
      var from := Source(w.fs, src);
      World(fs', if ok then w.log + [Rec(Locate(w.fs, destBase), ts, from, View(w.fs, from))] else w.log)
    case Restored(src, destBase, generation, o) =>
      w.(fs := RestoreEntry(w.fs, src, destBase, generation, o).0)
  }

  function Run(w: World, es: seq<Event>): World
    decreases |es|
  {
    if es == [] then w else Run(Apply(w, es[0]), es[1..])
  }

  predicate GenerationName(s: string) { Plain(s) && s != LATEST }

  /** A backup entry of the configuration: an absolute base of the store, a source directory apart from the whole
      store. */
  ghost predicate EntryOk(fs: FS, store: set<Path>, src: string, destBase: string, ts: string) {
    && Rooted(destBase) && Locate(fs, destBase) in store && GenerationName(ts)
    && OutOfStore(store, Source(fs, src))
  }

  /** The clock has advanced: this base has no generation of that name yet. */
  predicate NewGeneration(log: seq<Rec>, base: Path, ts: string) {
    forall i :: 0 <= i < |log| ==> !(log[i].base == base && log[i].name == ts)
  }

  ghost predicate Allowed(store: set<Path>, w: World, e: Event) {
    match e
    case Outside(after) => OutsideStep(w.fs, after, store)
    case Entry(src, destBase, ts, _) =>
      EntryOk(w.fs, store, src, destBase, ts) && NewGeneration(w.log, Locate(w.fs, destBase), ts)
    case Restored(src, _, _, _) => OutOfStore(store, Target(w.fs, src))
  }

  ghost predicate AllAllowed(store: set<Path>, w: World, es: seq<Event>)
    decreases |es|
  {
    es == [] || (Allowed(store, w, es[0]) && AllAllowed(store, Apply(w, es[0]), es[1..]))
  }

  /** The name of the most recent generation of `b`. */
  function Last(log: seq<Rec>, b: Path): Option<string> {
    if log == [] then None
    else if log[|log| - 1].base == b then Some(log[|log| - 1].name)
    else Last(log[..|log| - 1], b)
  }

  predicate RecOk(fs: FS, r: Rec) {
    View(fs, GenDir(r)) == r.view && IsDir(fs, GenDir(r)) && GenerationName(r.name)
  }

  /** `latest` exists exactly when some copy to `b` succeeded, and then names the most recent one. */
  predicate LatestOk(fs: FS, log: seq<Rec>, b: Path) {
    var p := b + [LATEST];
    match Last(log, b)
    case None => p !in fs.nodes
    case Some(name) => p in fs.nodes && fs.nodes[p] == Link(name) && GenerationName(name)
  }

  ghost predicate Good(store: set<Path>, w: World) {
    && Inv(w.fs, store)
    && (forall i :: 0 <= i < |w.log| ==> w.log[i].base in store && RecOk(w.fs, w.log[i]))
    && (forall b :: b in store ==> LatestOk(w.fs, w.log, b))
  }

  // ---------- the effect of one backup entry ----------

  lemma LatestIsPlain()
    ensures Plain(LATEST)
  {
  }

  lemma ChildApart(store: set<Path>, a: Path, m: string, b: Path, n: string)
    requires StoreOk(store) && a in store && b in store && (a != b || m != n)
    ensures Apart(a + [m], b + [n]) && !(a + [m] <= b)
  {
    if a != b {
      if a + [m] <= b + [n] || a + [m] <= b {
        assert a <= a + [m];
        assert b <= b + [n];
        PrefixesComparable(a, b, b + [n]);
      }
      if b + [n] <= a + [m] {
        assert b <= b + [n];
        assert a <= a + [m];
        PrefixesComparable(a, b, a + [m]);
      }
    } else {
      assert (a + [m])[|a|] == m && (b + [n])[|a|] == n;
    }
  }

  lemma OutsideApart(store: set<Path>, d: Path, b: Path, n: string)
    requires OutOfStore(store, d) && b in store && d != b + [n]
    ensures Apart(d, b + [n]) && !(d <= b)
  {
    assert Apart(b, d);
    assert b <= b + [n];
    if d <= b + [n] {
      PrefixesComparable(d, b, b + [n]);
    }
    PrefixTransitive(b, b + [n], d);
  }

  /** The directories of one entry, as the disk resolves them. */
  lemma EntryPaths(fs: FS, destBase: string, ts: string)
    requires Rooted(destBase) && Plain(ts)
    ensures Locate(fs, destBase + "/" + ts) == Locate(fs, destBase) + [ts]
    ensures Locate(fs, destBase + "/" + LATEST) == Locate(fs, destBase) + [LATEST]
    ensures forall from: Path :: LocateFrom(from, destBase + "/" + LATEST) == Locate(fs, destBase) + [LATEST]
  {
    LatestIsPlain();
    LocateChild(fs, destBase, ts);
    LocateChild(fs, destBase, LATEST);
    var s := destBase + "/" + LATEST;
    assert Rooted(s);
  }

  /** Where an absolute base has its link directory: it is `latest`, or the place that `latest` points to. A `latest`
      that points to nothing is passed over. */
  lemma LinkDestIs(fs: FS, destBase: string, current: Path)
    requires Rooted(destBase)
    ensures var b := Locate(fs, destBase);
            var p := b + [LATEST];
            var d := if p in fs.nodes && fs.nodes[p].Link? then LocateFrom(b, fs.nodes[p].target) else p;
            LinkDest(fs, destBase, current) == if d in fs.nodes then Some(d) else None
  {
    LatestIsPlain();
    EntryPaths(fs, destBase, LATEST);
    var b := Locate(fs, destBase);
    var p := b + [LATEST];
    assert p[..|p| - 1] == b;
  }

  /** The link directory, when there is one, lies in the store. */
  lemma LinkInStore(fs: FS, store: set<Path>, destBase: string, current: Path)
    requires Rooted(destBase) && Locate(fs, destBase) in store
    requires var p := Locate(fs, destBase) + [LATEST];
             p in fs.nodes && fs.nodes[p].Link? ==> Plain(fs.nodes[p].target)
    ensures var l := LinkDest(fs, destBase, current); l.Some? ==> InStore(store, l.value)
  {
    LatestIsPlain();
    EntryPaths(fs, destBase, LATEST);
    var b := Locate(fs, destBase);
    var p := b + [LATEST];
    assert p[..|p| - 1] == b && b <= p;
    if p in fs.nodes && fs.nodes[p].Link? {
      var t := fs.nodes[p].target;
      SplitOfFree(t, '/');
      assert Walk(true, b, [t]) == b + [t];
      assert !Rooted(t) by {
        if Rooted(t) { assert false; }
      }
      assert b <= b + [t];
    }
  }

  /** Everything apart from the base, the new generation and `latest` stays as it was. */
  lemma EntryFrame(fs: FS, src: string, destBase: string, ts: string, o: Outcome, d: Path)
    requires WellFormed(fs) && Rooted(destBase) && Plain(ts)
    requires var b := Locate(fs, destBase); !(d <= b) && Apart(d, b + [ts]) && !(d <= b + [LATEST])
    ensures SameBelow(fs, BackupEntry(fs, src, destBase, ts, o).0, d)
  {
    EntryPaths(fs, destBase, ts);
    var b := Locate(fs, destBase);
    var fs1 := MkdirAll(fs, b);
    MkdirAllFrame(fs, b);
    MkdirSame(fs, b, d);
    var link := LinkDest(fs1, destBase, b + [ts]);
    var r := Rsync(fs1, Source(fs, src), b + [ts], link, o);
    RsyncSame(fs1, Source(fs, src), b + [ts], link, o, d);
    SameTransitive(fs, fs1, r.0, d);
    if r.1 {
      RelinkSame(r.0, b + [LATEST], ts, d);
      SameTransitive(fs, r.0, Relink(r.0, b + [LATEST], ts), d);
    }
  }

  lemma EntryKeepsInv(fs: FS, store: set<Path>, src: string, destBase: string, ts: string, o: Outcome)
    requires Inv(fs, store) && EntryOk(fs, store, src, destBase, ts)
    requires var p := Locate(fs, destBase) + [LATEST];
             p in fs.nodes && fs.nodes[p].Link? ==> Plain(fs.nodes[p].target)
    ensures Inv(BackupEntry(fs, src, destBase, ts, o).0, store)
    ensures BackupEntry(fs, src, destBase, ts, o).0.cwd == fs.cwd
  {
    EntryPaths(fs, destBase, ts);
    var b := Locate(fs, destBase);
    var fs1 := MkdirAll(fs, b);
    MkdirAllFrame(fs, b);
    MkdirKeepsInv(fs, store, b);
    assert Locate(fs1, destBase) == b;
    LinkInStore(fs1, store, destBase, b + [ts]);
    var link := LinkDest(fs1, destBase, b + [ts]);
    assert b <= b + [ts];
    var from := Source(fs, src);
    RsyncKeepsInv(fs1, store, from, b + [ts], link, o);
    RsyncCwd(fs1, from, b + [ts], link, o);
    var r := Rsync(fs1, from, b + [ts], link, o);
    if r.1 {
      RelinkKeepsInv(r.0, store, b + [LATEST], ts);
    }
  }

  lemma RsyncCwd(fs: FS, src: Path, dst: Path, link: Option<Path>, o: Outcome)
    ensures Rsync(fs, src, dst, link, o).0.cwd == fs.cwd
  {
  }

  /** One entry on resolved directories. */
  function EntryAt(fs: FS, from: Path, b: Path, ts: string, latest: string, link: Option<Path>,
                   o: Outcome): (FS, bool) {
    var (fs2, ok) := Rsync(MkdirAll(fs, b), from, b + [ts], link, o);
    if ok then (Relink(fs2, b + [latest], ts), true) else (fs2, false)
  }

  lemma EntryIsAt(fs: FS, src: string, destBase: string, ts: string, o: Outcome)
    requires Rooted(destBase) && Plain(ts)
    ensures var b := Locate(fs, destBase);
            BackupEntry(fs, src, destBase, ts, o) ==
            EntryAt(fs, Source(fs, src), b, ts, LATEST, LinkDest(MkdirAll(fs, b), destBase, b + [ts]), o)
  {
    EntryPaths(fs, destBase, ts);
  }

  /** Replacing a link, or making it, in an existing directory succeeds and leaves its siblings alone. */
  lemma RelinkPoints(fs: FS, b: Path, name: string, target: string, gen: Path)
    requires IsDir(fs, b) && (b + [name] in fs.nodes ==> fs.nodes[b + [name]].Link?) && Apart(gen, b + [name])
    ensures var fs' := Relink(fs, b + [name], target);
            && SameBelow(fs, fs', gen) && b + [name] in fs'.nodes && fs'.nodes[b + [name]] == Link(target)
  {
    var p := b + [name];
    assert p[..|p| - 1] == b;
    assert p[|b|] == name;
    RelinkSame(fs, p, target, gen);
  }

  /** The copy of an entry, before `latest` is repointed. */
  lemma CopiesAt(fs: FS, from: Path, b: Path, ts: string, link: Option<Path>, o: Outcome)
    requires WellFormed(fs) && Apart(b, from) && Rsync(MkdirAll(fs, b), from, b + [ts], link, o).1
    ensures var fs2 := Rsync(MkdirAll(fs, b), from, b + [ts], link, o).0;
            View(fs2, b + [ts]) == View(fs, from) && IsDir(fs2, b + [ts]) && IsDir(fs2, b)
  {
    var fs1 := MkdirAll(fs, b);
    MkdirAllFrame(fs, b);
    MkdirSame(fs, b, from);
    ViewFrame(fs, fs1, from);
    RsyncCopies(fs1, from, b + [ts], link, o);
    assert (b + [ts])[..|b|] == b;
  }

  lemma SiblingAt(fs: FS, from: Path, b: Path, ts: string, name: string, link: Option<Path>, o: Outcome)
    requires WellFormed(fs) && ts != name
    ensures var fs2 := Rsync(MkdirAll(fs, b), from, b + [ts], link, o).0; var p := b + [name];
            && Apart(b + [ts], p) && (p in fs2.nodes ==> p in fs.nodes && fs2.nodes[p] == fs.nodes[p])
  {
    var p := b + [name];
    var fs1 := MkdirAll(fs, b);
    MkdirAllFrame(fs, b);
    assert (b + [ts])[|b|] == ts && p[|b|] == name;
    RsyncSame(fs1, from, b + [ts], link, o, p);
    assert p <= p && !(p <= b);
  }

  lemma SucceedsAt(fs: FS, from: Path, b: Path, ts: string, latest: string, link: Option<Path>, o: Outcome)
    requires WellFormed(fs) && Apart(b, from) && ts != latest
    requires b + [latest] in fs.nodes ==> fs.nodes[b + [latest]].Link?
    requires EntryAt(fs, from, b, ts, latest, link, o).1
    ensures var fs' := EntryAt(fs, from, b, ts, latest, link, o).0;
            && View(fs', b + [ts]) == View(fs, from) && IsDir(fs', b + [ts])
            && b + [latest] in fs'.nodes && fs'.nodes[b + [latest]] == Link(ts)
  {
    var gen := b + [ts];
    CopiesAt(fs, from, b, ts, link, o);
    SiblingAt(fs, from, b, ts, latest, link, o);
    var fs2 := Rsync(MkdirAll(fs, b), from, gen, link, o).0;
    RelinkPoints(fs2, b, latest, ts, gen);
    ViewFrame(fs2, Relink(fs2, b + [latest], ts), gen);
    assert gen <= gen;
  }

  /** A successful entry: the generation shows its source, and `latest` points to it. */
  lemma EntrySucceeds(fs: FS, store: set<Path>, src: string, destBase: string, ts: string, o: Outcome)
    requires Inv(fs, store) && EntryOk(fs, store, src, destBase, ts)
    requires var p := Locate(fs, destBase) + [LATEST]; p in fs.nodes ==> fs.nodes[p].Link?
    requires BackupEntry(fs, src, destBase, ts, o).1
    ensures var fs' := BackupEntry(fs, src, destBase, ts, o).0; var b := Locate(fs, destBase);
            && View(fs', b + [ts]) == View(fs, Source(fs, src)) && IsDir(fs', b + [ts])
            && b + [LATEST] in fs'.nodes && fs'.nodes[b + [LATEST]] == Link(ts)
  {
    EntryIsAt(fs, src, destBase, ts, o);
    var b := Locate(fs, destBase);
    assert Apart(b, Source(fs, src));
    SucceedsAt(fs, Source(fs, src), b, ts, LATEST, LinkDest(MkdirAll(fs, b), destBase, b + [ts]), o);
  }

  /** A copy succeeds exactly when it is not broken off, the source is a directory, the base is one or can be made,
      and nothing but a directory is in the way. */
  lemma SucceedsExactlyWhen(fs: FS, store: set<Path>, src: string, destBase: string, ts: string, o: Outcome)
    requires Inv(fs, store) && EntryOk(fs, store, src, destBase, ts)
    ensures var b := Locate(fs, destBase);
            BackupEntry(fs, src, destBase, ts, o).1 <==>
            && o.Done? && IsDir(fs, Source(fs, src))
            && (WayIsFree(fs, b) || IsDir(fs, b)) && (b + [ts] in fs.nodes ==> IsDir(fs, b + [ts]))
  {
    EntryIsAt(fs, src, destBase, ts, o);
    var b := Locate(fs, destBase);
    assert Apart(b, Source(fs, src));
    CanCopyAt(fs, Source(fs, src), b, ts);
  }

  lemma CanCopyAt(fs: FS, from: Path, b: Path, ts: string)
    requires WellFormed(fs) && Apart(b, from)
    ensures CanCopy(MkdirAll(fs, b), from, b + [ts]) <==>
            && IsDir(fs, from) && (WayIsFree(fs, b) || IsDir(fs, b))
            && (b + [ts] in fs.nodes ==> IsDir(fs, b + [ts]))
  {
    MkdirAllFrame(fs, b);
    MkdirAllMakes(fs, b);
    assert (b + [ts])[..|b|] == b && !(b + [ts] <= b) && b <= b;
  }

  /** A failing entry leaves `latest` alone. */
  lemma EntryFails(fs: FS, src: string, destBase: string, ts: string, o: Outcome)
    requires WellFormed(fs) && Rooted(destBase) && GenerationName(ts)
    requires !BackupEntry(fs, src, destBase, ts, o).1
    ensures SameBelow(fs, BackupEntry(fs, src, destBase, ts, o).0, Locate(fs, destBase) + [LATEST])
  {
    EntryPaths(fs, destBase, ts);
    var b := Locate(fs, destBase);
    var gen, latest := b + [ts], b + [LATEST];
    assert gen[|b|] == ts && latest[|b|] == LATEST;
    var fs1 := MkdirAll(fs, b);
    MkdirAllFrame(fs, b);
    MkdirSame(fs, b, latest);
    var link := LinkDest(fs1, destBase, gen);
    RsyncSame(fs1, Source(fs, src), gen, link, o, latest);
    SameTransitive(fs, fs1, Rsync(fs1, Source(fs, src), gen, link, o).0, latest);
  }

  // ---------- every event keeps the store good ----------

  /** A recorded generation and a `latest` link that an event does not touch stay as they are. */
  lemma RecFrame(fs: FS, fs': FS, r: Rec)
    requires RecOk(fs, r) && SameBelow(fs, fs', GenDir(r))
    ensures RecOk(fs', r)
  {
    ViewFrame(fs, fs', GenDir(r));
    assert GenDir(r) <= GenDir(r);
  }

  lemma LatestFrame(fs: FS, fs': FS, log: seq<Rec>, b: Path)
    requires LatestOk(fs, log, b) && SameBelow(fs, fs', b + [LATEST])
    ensures LatestOk(fs', log, b)
  {
    assert b + [LATEST] <= b + [LATEST];
  }

  lemma SameBelowChild(fs: FS, fs': FS, b: Path, n: string)
    requires SameBelow(fs, fs', b)
    ensures SameBelow(fs, fs', b + [n])
  {
    forall p | b + [n] <= p && (p in fs.nodes || p in fs'.nodes)
      ensures b <= p
    {
      assert b <= b + [n];
      PrefixTransitive(b, b + [n], p);
    }
  }

  lemma OutsideGood(store: set<Path>, w: World, after: FS)
    requires Good(store, w) && OutsideStep(w.fs, after, store)
    ensures Good(store, w.(fs := after))
  {
    OutsideKeepsInv(w.fs, after, store);
    forall i | 0 <= i < |w.log|
      ensures RecOk(after, w.log[i])
    {
      OutsideLeavesStore(w.fs, after, store, w.log[i].base);
      SameBelowChild(w.fs, after, w.log[i].base, w.log[i].name);
      RecFrame(w.fs, after, w.log[i]);
    }
    forall b | b in store
      ensures LatestOk(after, w.log, b)
    {
      OutsideLeavesStore(w.fs, after, store, b);
      SameBelowChild(w.fs, after, b, LATEST);
      LatestFrame(w.fs, after, w.log, b);
    }
  }

  lemma RestoreGood(store: set<Path>, w: World, src: string, destBase: string, generation: string, o: Outcome)
    requires Good(store, w) && OutOfStore(store, Target(w.fs, src))
    ensures var fs' := RestoreEntry(w.fs, src, destBase, generation, o).0;
            Good(store, w.(fs := fs')) && fs'.cwd == w.fs.cwd
  {
    var from := Locate(w.fs, Join2(destBase, generation));
    if Exists(w.fs, from) {
      var dst := Target(w.fs, src);
      var fs' := Rsync(w.fs, Follow(w.fs, from), dst, None, o).0;
      RsyncKeepsInv(w.fs, store, Follow(w.fs, from), dst, None, o);
      forall b | b in store
        ensures SameBelow(w.fs, fs', b)
      {
        RsyncSame(w.fs, Follow(w.fs, from), dst, None, o, b);
      }
      forall i | 0 <= i < |w.log|
        ensures RecOk(fs', w.log[i])
      {
        SameBelowChild(w.fs, fs', w.log[i].base, w.log[i].name);
        RecFrame(w.fs, fs', w.log[i]);
      }
      forall b | b in store
        ensures LatestOk(fs', w.log, b)
      {
        SameBelowChild(w.fs, fs', b, LATEST);
        LatestFrame(w.fs, fs', w.log, b);
      }
    }
  }

  lemma EntryGoodRecs(store: set<Path>, w: World, src: string, destBase: string, ts: string, o: Outcome, i: nat)
    requires StoreOk(store) && Good(store, w) && Allowed(store, w, Entry(src, destBase, ts, o)) && i < |w.log|
    ensures RecOk(BackupEntry(w.fs, src, destBase, ts, o).0, w.log[i])
  {
    var r := w.log[i];
    var b := Locate(w.fs, destBase);
    ChildApart(store, r.base, r.name, b, ts);
    ChildApart(store, r.base, r.name, b, LATEST);
    EntryFrame(w.fs, src, destBase, ts, o, GenDir(r));
    RecFrame(w.fs, BackupEntry(w.fs, src, destBase, ts, o).0, r);
  }

  lemma EntryGoodLatest(store: set<Path>, w: World, src: string, destBase: string, ts: string, o: Outcome, b: Path)
    requires StoreOk(store) && Good(store, w) && Allowed(store, w, Entry(src, destBase, ts, o)) && b in store
    ensures var w' := Apply(w, Entry(src, destBase, ts, o)); LatestOk(w'.fs, w'.log, b)
  {
    var base := Locate(w.fs, destBase);
    var (fs', ok) := BackupEntry(w.fs, src, destBase, ts, o);
    var w' := Apply(w, Entry(src, destBase, ts, o));
    assert LatestOk(w.fs, w.log, b);
    if ok {
      assert w'.log[..|w'.log| - 1] == w.log;
    }
    if b == base {
      if ok {
        EntrySucceeds(w.fs, store, src, destBase, ts, o);
      } else {
        EntryFails(w.fs, src, destBase, ts, o);
        LatestFrame(w.fs, fs', w.log, b);
      }
    } else {
      ChildApart(store, b, LATEST, base, ts);
      ChildApart(store, b, LATEST, base, LATEST);
      EntryFrame(w.fs, src, destBase, ts, o, b + [LATEST]);
      LatestFrame(w.fs, fs', w.log, b);
      assert LatestOk(fs', w.log, b);
    }
  }

  lemma EntryGood(store: set<Path>, w: World, src: string, destBase: string, ts: string, o: Outcome)
    requires StoreOk(store) && Good(store, w) && Allowed(store, w, Entry(src, destBase, ts, o))
    ensures Good(store, Apply(w, Entry(src, destBase, ts, o)))
    ensures Apply(w, Entry(src, destBase, ts, o)).fs.cwd == w.fs.cwd
  {
    var b := Locate(w.fs, destBase);
    var w' := Apply(w, Entry(src, destBase, ts, o));
    assert LatestOk(w.fs, w.log, b);
    EntryKeepsInv(w.fs, store, src, destBase, ts, o);
    forall i | 0 <= i < |w'.log|
      ensures w'.log[i].base in store && RecOk(w'.fs, w'.log[i])
    {
      if i < |w.log| {
        EntryGoodRecs(store, w, src, destBase, ts, o, i);
      } else {
        EntrySucceeds(w.fs, store, src, destBase, ts, o);
      }
    }
    forall b | b in store
      ensures LatestOk(w'.fs, w'.log, b)
    {
      EntryGoodLatest(store, w, src, destBase, ts, o, b);
    }
  }

  lemma ApplyGood(store: set<Path>, w: World, e: Event)
    requires StoreOk(store) && Good(store, w) && Allowed(store, w, e)
    ensures Good(store, Apply(w, e)) && w.log <= Apply(w, e).log && Apply(w, e).fs.cwd == w.fs.cwd
  {
    match e
    case Outside(after) => OutsideGood(store, w, after);
    case Entry(src, destBase, ts, o) => EntryGood(store, w, src, destBase, ts, o);
    case Restored(src, destBase, generation, o) => RestoreGood(store, w, src, destBase, generation, o);
  }

  /** What one event adds to the history. */
  lemma ApplyLog(w: World, e: Event)
    ensures var log := Apply(w, e).log;
            log == w.log || (e.Entry? && |log| == |w.log| + 1 && log[..|w.log|] == w.log
                             && log[|w.log|].base == Locate(w.fs, e.destBase) && log[|w.log|].name == e.ts)
    ensures e.Entry? && BackupEntry(w.fs, e.src, e.destBase, e.ts, e.outcome).1 ==> |Apply(w, e).log| == |w.log| + 1
  {
  }

  /** Over every run of backups that may fail, restores that may fail, and outside activity between any two
      entries: each generation still shows what its source showed when it was copied, and each `latest` link
      names the most recent successful generation of its base. */
  lemma {:induction false} GenerationsAreImmutable(store: set<Path>, w: World, es: seq<Event>)
    requires StoreOk(store) && Good(store, w) && AllAllowed(store, w, es)
    ensures var w' := Run(w, es); Good(store, w') && w.log <= w'.log && w'.fs.cwd == w.fs.cwd
    decreases |es|
  {
    if es == [] {
    } else {
      ApplyGood(store, w, es[0]);
      GenerationsAreImmutable(store, Apply(w, es[0]), es[1..]);
    }
  }

  /** A disk without generations and without `latest` links, and an empty history, is a good start. */
  lemma GoodStart(store: set<Path>, fs: FS)
    requires Inv(fs, store) && forall b :: b in store ==> b + [LATEST] !in fs.nodes
    ensures Good(store, World(fs, []))
  {
    assert forall b :: Last([], b).None?;
  }

  ghost predicate Recorded(log: seq<Rec>, b: Path, n: string) {
    exists i :: 0 <= i < |log| && log[i].base == b && log[i].name == n
  }

  lemma {:induction false} LastRecorded(log: seq<Rec>, b: Path)
    requires Last(log, b).Some?
    ensures Recorded(log, b, Last(log, b).value)
  {
    var n := |log| - 1;
    if log[n].base != b {
      LastRecorded(log[..n], b);
      var i :| 0 <= i < |log[..n]| && log[..n][i].base == b && log[..n][i].name == Last(log, b).value;
      assert log[i] == log[..n][i];
    }
  }

  /** The generation that `latest` names is there. */
  lemma LastExists(store: set<Path>, w: World, b: Path)
    requires Good(store, w) && Last(w.log, b).Some?
    ensures IsDir(w.fs, b + [Last(w.log, b).value])
  {
    LastRecorded(w.log, b);
    var i :| 0 <= i < |w.log| && w.log[i].base == b && w.log[i].name == Last(w.log, b).value;
    assert RecOk(w.fs, w.log[i]);
  }

  /** The link directory of an entry is the previous generation. */
  lemma LinkIsPrevious(store: set<Path>, w: World, destBase: string, ts: string)
    requires Good(store, w) && Rooted(destBase) && Locate(w.fs, destBase) in store && GenerationName(ts)
    requires Last(w.log, Locate(w.fs, destBase)).Some?
    ensures var b := Locate(w.fs, destBase);
            LinkDest(MkdirAll(w.fs, b), destBase, b + [ts]) == Some(b + [Last(w.log, b).value])
  {
    var b := Locate(w.fs, destBase);
    assert LatestOk(w.fs, w.log, b);
    var prev := Last(w.log, b).value;
    LastExists(store, w, b);
    var fs1 := MkdirAll(w.fs, b);
    MkdirAllFrame(w.fs, b);
    EntryPaths(fs1, destBase, ts);
    var p := b + [LATEST];
    assert p[..|p| - 1] == b;
    SplitOfFree(prev, '/');
    assert Walk(true, b, [prev]) == b + [prev];
    assert !Rooted(prev) by {
      if Rooted(prev) { assert false; }
    }
  }

  predicate SharedOrNew(fs: FS, fs': FS, source: Path, prev: Path, copy: Path) {
    && source in fs.nodes && copy in fs'.nodes && fs'.nodes[copy].File?
    && if prev in fs.nodes && fs.nodes[prev].File? && ContentOf(fs, fs.nodes[prev]) == ContentOf(fs, fs.nodes[source])
       then fs'.nodes[copy] == fs.nodes[prev]
       else fs'.nodes[copy].ino !in fs.heap
  }

  lemma CopyShares(fs: FS, from: Path, gen: Path, prevDir: Path, r: Path)
    requires WellFormed(fs) && from + r in fs.nodes && fs.nodes[from + r].File? && gen + r !in fs.nodes
    ensures SharedOrNew(fs, Sync(fs, from, gen, Some(prevDir), Names(fs, from), {}), from + r, prevDir + r, gen + r)
  {
    NamesAre(fs, from, r);
    SyncNode(fs, from, gen, Some(prevDir), Names(fs, from), {}, r);
    LinkedCopyRefinesFullCopy(fs, from, gen, prevDir, r);
  }

  lemma SharesAt(fs: FS, from: Path, b: Path, ts: string, latest: string, prev: string, r: Path)
    requires WellFormed(fs) && ts != latest
    requires EntryAt(fs, from, b, ts, latest, Some(b + [prev]), Done).1
    requires from + r in fs.nodes && fs.nodes[from + r].File? && b + [ts] + r !in fs.nodes
    ensures SharedOrNew(fs, EntryAt(fs, from, b, ts, latest, Some(b + [prev]), Done).0,
                        from + r, b + [prev] + r, b + [ts] + r)
  {
    var gen, prevDir := b + [ts], b + [prev];
    var fs1 := MkdirAll(fs, b);
    MkdirAllFrame(fs, b);
    assert |gen + r| > |b| && |prevDir + r| > |b|;
    CopyShares(fs1, from, gen, prevDir, r);
    assert (gen + r)[|b|] == ts && (b + [latest])[|b|] == latest;
  }

  /** Generations share inodes, as incremental backups should: a file of the source that equals the one in the
      previous generation gets that file's inode, and every other file gets one that did not exist before. */
  lemma UnchangedFilesAreShared(store: set<Path>, w: World, src: string, destBase: string, ts: string, r: Path)
    requires Good(store, w) && EntryOk(w.fs, store, src, destBase, ts)
    requires BackupEntry(w.fs, src, destBase, ts, Done).1
    requires var b := Locate(w.fs, destBase); Last(w.log, b).Some? && b + [ts] + r !in w.fs.nodes
    requires var p := Source(w.fs, src) + r; p in w.fs.nodes && w.fs.nodes[p].File?
    ensures var b := Locate(w.fs, destBase);
            SharedOrNew(w.fs, BackupEntry(w.fs, src, destBase, ts, Done).0,
                        Source(w.fs, src) + r, b + [Last(w.log, b).value] + r, b + [ts] + r)
  {
    var b := Locate(w.fs, destBase);
    EntryIsAt(w.fs, src, destBase, ts, Done);
    LinkIsPrevious(store, w, destBase, ts);
    SharesAt(w.fs, Source(w.fs, src), b, ts, LATEST, Last(w.log, b).value, r);
  }
}
