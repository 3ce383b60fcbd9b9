/** Listing backup generations (`ListBackupGenerations` in `internal/container/container.go`). */
module Generations {
  import opened GoStrings
  import opened Config
  import opened Paths
  import opened FileTree
  import opened Backup
  import opened BackupRuns
  import opened BackupCalls

  // ---------- the order of strings ----------

  /** Go's `<` on strings. */
  predicate Less(a: string, b: string) {
    if b == "" then false
    else if a == "" then true
    else a[0] < b[0] || (a[0] == b[0] && Less(a[1..], b[1..]))
  }

  lemma {:induction false} LessTotal(a: string, b: string)
    ensures Less(a, b) || a == b || Less(b, a)
    ensures !(Less(a, b) && (a == b || Less(b, a)))
  {
    if a != "" && b != "" && a[0] == b[0] {
      LessTotal(a[1..], b[1..]);
      assert a == [a[0]] + a[1..] && b == [b[0]] + b[1..];
    }
  }

  lemma {:induction false} LessTransitive(a: string, b: string, c: string)
    requires Less(a, b) && Less(b, c)
    ensures Less(a, c)
  {
    if a != "" && a[0] == b[0] == c[0] {
      LessTransitive(a[1..], b[1..], c[1..]);
    }
  }

  // ---------- timestamps ----------

  /** A local calendar time with the fields that the format prints. */
  datatype Time = Time(year: nat, month: nat, day: nat, hour: nat, minute: nat, second: nat)

  predicate InRange(t: Time) {
    t.year < 10000 && t.month < 100 && t.day < 100 && t.hour < 100 && t.minute < 100 && t.second < 100
  }

  function Digit(n: nat): char requires n < 10 { '0' + n as char }

  function Two(n: nat): string
    requires n < 100
  {
    [Digit(n / 10), Digit(n % 10)]
  }

  /** `Format("20060102_150405")` */
  function Stamp(t: Time): string
    requires InRange(t)
  {
    Two(t.year / 100) + (Two(t.year % 100) + (Two(t.month) + (Two(t.day)
      + ("_" + (Two(t.hour) + (Two(t.minute) + Two(t.second)))))))
  }

  predicate Lex(a: nat, b: nat, rest: bool) { a < b || (a == b && rest) }

  /** Calendar order. */
  predicate Earlier(t: Time, u: Time) {
    Lex(t.year, u.year, Lex(t.month, u.month, Lex(t.day, u.day,
      Lex(t.hour, u.hour, Lex(t.minute, u.minute, t.second < u.second)))))
  }

  lemma LessTwo(a: nat, b: nat, x: string, y: string)
    requires a < 100 && b < 100
    ensures Less(Two(a) + x, Two(b) + y) <==> Lex(a, b, Less(x, y))
  {
    var s, t := Two(a) + x, Two(b) + y;
    assert s[1..][1..] == x && t[1..][1..] == y;
    assert Less(s, t) <==> s[0] < t[0] || (s[0] == t[0] && Less(s[1..], t[1..]));
    assert Less(s[1..], t[1..]) <==> s[1] < t[1] || (s[1] == t[1] && Less(x, y));
  }

  lemma LessHead(c: char, x: string, y: string)
    ensures Less([c] + x, [c] + y) <==> Less(x, y)
  {
    assert ([c] + x)[1..] == x && ([c] + y)[1..] == y;
  }

  /** The zero-padded format is strictly monotone: string order is calendar order. */
  lemma StampMonotone(t: Time, u: Time)
    requires InRange(t) && InRange(u)
    ensures Less(Stamp(t), Stamp(u)) <==> Earlier(t, u)
  {
    assert Two(t.second) + "" == Two(t.second) && Two(u.second) + "" == Two(u.second);
    LessTwo(t.second, u.second, "", "");
    LessTwo(t.minute, u.minute, Two(t.second), Two(u.second));
    var a, b := Two(t.minute) + Two(t.second), Two(u.minute) + Two(u.second);
    LessTwo(t.hour, u.hour, a, b);
    a, b := Two(t.hour) + a, Two(u.hour) + b;
    LessHead('_', a, b);
    a, b := "_" + a, "_" + b;
    LessTwo(t.day, u.day, a, b);
    a, b := Two(t.day) + a, Two(u.day) + b;
    LessTwo(t.month, u.month, a, b);
    a, b := Two(t.month) + a, Two(u.month) + b;
    LessTwo(t.year % 100, u.year % 100, a, b);
    LessTwo(t.year / 100, u.year / 100, Two(t.year % 100) + a, Two(u.year % 100) + b);
  }

  /** The format, literally. */
  lemma StampLiteral()
    ensures Stamp(Time(2024, 3, 9, 17, 5, 42)) == "20240309_170542"
  {
    assert Two(20) == "20" && Two(24) == "24" && Two(3) == "03" && Two(9) == "09";
    assert Two(17) == "17" && Two(5) == "05" && Two(42) == "42";
  }

  /** A timestamp is a usable generation name. */
  lemma StampIsName(t: Time)
    requires InRange(t)
    ensures GenerationName(Stamp(t))
  {
    var s := Stamp(t);
    assert |s| == 15;
    forall i | 0 <= i < |s|
      ensures s[i] != '/'
    {
    }
  }

  // ---------- listing ----------

  /** Sorted newest first, without duplicates. */
  predicate Descending(s: seq<string>) {
    forall i, j :: 0 <= i < j < |s| ==> Less(s[j], s[i])
  }

  function Insert(x: string, s: seq<string>): seq<string> {
    if s == [] then [x]
    else if Less(s[0], x) then [x] + s
    else [s[0]] + Insert(x, s[1..])
  }

  /** `sort.Sort(sort.Reverse(sort.StringSlice(s)))` */
  function SortDescending(s: seq<string>): seq<string> {
    if s == [] then [] else Insert(s[0], SortDescending(s[1..]))
  }

  lemma {:induction false} InsertDescending(x: string, s: seq<string>)
    requires Descending(s) && x !in s
    ensures Descending(Insert(x, s))
    ensures forall y :: y in Insert(x, s) <==> y == x || y in s
  {
    if s == [] {
    } else {
      assert forall y :: y in s <==> y == s[0] || y in s[1..];
      if Less(s[0], x) {
        forall j | 0 < j < |s|
          ensures Less(s[j], x)
        {
          LessTransitive(s[j], s[0], x);
        }
      } else {
        LessTotal(x, s[0]);
        InsertDescending(x, s[1..]);
        var r := Insert(x, s[1..]);
        forall j | 0 <= j < |r|
          ensures Less(r[j], s[0])
        {
          assert r[j] in r;
        }
      }
    }
  }

  lemma {:induction false} SortIsDescending(s: seq<string>)
    requires forall i, j :: 0 <= i < j < |s| ==> s[i] != s[j]
    ensures Descending(SortDescending(s))
    ensures forall y :: y in SortDescending(s) <==> y in s
  {
    if s == [] {
    } else {
      assert forall y :: y in s <==> y == s[0] || y in s[1..];
      SortIsDescending(s[1..]);
      InsertDescending(s[0], SortDescending(s[1..]));
    }
  }

  /** The directories that `os.ReadDir` finds in `b`, except one called `latest`. */
  function SubDirs(fs: FS, b: Path): set<string> {
    set p | p in fs.nodes && b <= p && |p| == |b| + 1 && fs.nodes[p].Dir? && p[|b|] != LATEST :: p[|b|]
  }

  lemma SubDirsAre(fs: FS, b: Path, n: string)
    ensures n in SubDirs(fs, b) <==> IsDir(fs, b + [n]) && n != LATEST
  {
    if IsDir(fs, b + [n]) {
      assert (b + [n])[|b|] == n && b <= b + [n];
    }
    if n in SubDirs(fs, b) {
      var p :| p in fs.nodes && b <= p && |p| == |b| + 1 && fs.nodes[p].Dir? && p[|b|] == n;
      assert p == b + [n];
    }
  }

  /** The generations of one command; a base that cannot be read counts as empty. */
  function CmdNames(fs: FS, cmd: Cmd): set<string> {
    match ParseEntry(cmd)
    case None => {}
    case Some((_, destBase)) =>
      if destBase != "" && IsDir(fs, Locate(fs, destBase)) then SubDirs(fs, Locate(fs, destBase)) else {}
  }

  ghost predicate Listed(fs: FS, cmds: seq<Cmd>, n: string) {
    exists k :: 0 <= k < |cmds| && n in CmdNames(fs, cmds[k])
  }

  /** A base that a command names, on its text, has a generation directory `n`. */
  ghost predicate HasGeneration(fs: FS, cmd: Cmd, n: string) {
    exists src, base :: IsEntryText(cmd, src, base) && GenerationIn(fs, base, n)
  }

  predicate GenerationIn(fs: FS, base: string, n: string) {
    base != "" && IsDir(fs, Locate(fs, base)) && IsDir(fs, Locate(fs, base) + [n]) && n != "latest"
  }

  /** What is listed, in terms of the commands and the disk. */
  lemma ListedExactlyWhen(fs: FS, cmds: seq<Cmd>, n: string)
    ensures Listed(fs, cmds, n) <==> exists k :: 0 <= k < |cmds| && HasGeneration(fs, cmds[k], n)
  {
    forall k | 0 <= k < |cmds|
      ensures n in CmdNames(fs, cmds[k]) <==> HasGeneration(fs, cmds[k], n)
    {
      if ParseEntry(cmds[k]).Some? {
        var src, base := Src(cmds[k]), Base(cmds[k]);
        ParseEntryExactlyWhen(cmds[k], src, base);
        SubDirsAre(fs, Locate(fs, base), n);
        if n in CmdNames(fs, cmds[k]) {
          assert IsEntryText(cmds[k], src, base) && GenerationIn(fs, base, n);
        }
      }
      if src, base :| IsEntryText(cmds[k], src, base) && GenerationIn(fs, base, n) {
        ParseEntryExactlyWhen(cmds[k], src, base);
      }
    }
  }

  /** `None` is the error for a server that is not configured. The list is newest first, free of duplicates, and
      holds exactly the generations of all bases. */
  method ListBackupGenerations(fs: FS, cmds: Option<seq<Cmd>>) returns (r: Option<seq<string>>)
    ensures r.None? <==> cmds.None?
    ensures r.Some? ==> Descending(r.value) && forall n :: n in r.value <==> Listed(fs, cmds.value, n)
  {
    if cmds.None? {
      return None;
    }
    var seen: set<string> := {};
    var generations: seq<string> := [];
    for i := 0 to |cmds.value|
      invariant forall n :: n in generations <==> n in seen
      invariant forall n :: n in seen <==> exists k :: 0 <= k < i && n in CmdNames(fs, cmds.value[k])
      invariant forall j, k :: 0 <= j < k < |generations| ==> generations[j] != generations[k]
    {
      ghost var before := seen;
      var entries := CmdNames(fs, cmds.value[i]);
      while entries != {}
        invariant entries <= CmdNames(fs, cmds.value[i])
        invariant forall n :: n in generations <==> n in seen
        invariant forall n :: n in seen <==> n in before || (n in CmdNames(fs, cmds.value[i]) && n !in entries)
        invariant forall j, k :: 0 <= j < k < |generations| ==> generations[j] != generations[k]
      {
        var n :| n in entries;
        entries := entries - {n};
        if n !in seen {
          seen := seen + {n};
          generations := generations + [n];
        }
      }
    }
    SortIsDescending(generations);
    r := Some(SortDescending(generations));
  }

  /** A descending list is determined by its elements, so the listing is the only possible one. */
  lemma {:induction false} DescendingUnique(a: seq<string>, b: seq<string>)
    requires Descending(a) && Descending(b) && forall n :: n in a <==> n in b
    ensures a == b
  {
    if a == [] {
      HeadIsMember(b);
    } else {
      assert a[0] in a && a[0] in b && b != [];
      assert b[0] in b && b[0] in a;
      HeadIsGreatest(a, b[0]);
      HeadIsGreatest(b, a[0]);
      LessTotal(a[0], b[0]);
      forall n
        ensures n in a[1..] <==> n in b[1..]
      {
        TailMembers(a, n);
        TailMembers(b, n);
      }
      DescendingUnique(a[1..], b[1..]);
      assert a == [a[0]] + a[1..] && b == [b[0]] + b[1..];
    }
  }

  lemma HeadIsMember(a: seq<string>)
    ensures a != [] ==> a[0] in a
  {
  }

  lemma HeadIsGreatest(a: seq<string>, n: string)
    requires Descending(a) && n in a
    ensures n == a[0] || Less(n, a[0])
  {
  }

  lemma TailMembers(a: seq<string>, n: string)
    requires Descending(a) && a != []
    ensures n in a[1..] <==> n in a && n != a[0]
  {
    LessTotal(a[0], a[0]);
    if n in a && n != a[0] {
      var i :| 0 <= i < |a| && a[i] == n;
      assert a[1..][i - 1] == n;
    }
    if n in a[1..] {
      var i :| 0 <= i < |a[1..]| && a[1..][i] == n;
      assert a[i + 1] == n && Less(n, a[0]);
      LessTotal(n, a[0]);
    }
  }

  // ---------- the newest generation is the target of `latest` ----------

  /** The clock is later than every recorded generation of the base. */
  ghost predicate Advances(log: seq<Rec>, b: Path, ts: string) {
    forall i :: 0 <= i < |log| && log[i].base == b ==> Less(log[i].name, ts)
  }

  /** The directories of the base are its recorded generations, and the last one recorded is the newest. */
  ghost predicate Tidy(w: World, b: Path) {
    && (forall n :: IsDir(w.fs, b + [n]) && n != LATEST ==> Recorded(w.log, b, n))
    && (forall n :: Recorded(w.log, b, n) ==>
          Last(w.log, b).Some? && (n == Last(w.log, b).value || Less(n, Last(w.log, b).value)))
  }

  /** Entries for `b` succeed, at times that advance. */
  ghost predicate Orderly(w: World, b: Path, e: Event) {
    e.Entry? && Locate(w.fs, e.destBase) == b ==>
      BackupEntry(w.fs, e.src, e.destBase, e.ts, e.outcome).1 && Advances(w.log, b, e.ts)
  }

  ghost predicate AllOrderly(w: World, b: Path, es: seq<Event>)
    decreases |es|
  {
    es == [] || (Orderly(w, b, es[0]) && AllOrderly(Apply(w, es[0]), b, es[1..]))
  }

  /** A child directory of a base that an event leaves is one it found, or the generation it made. */
  lemma ChildOrigin(store: set<Path>, w: World, e: Event, b: Path, n: string)
    requires StoreOk(store) && Good(store, w) && Allowed(store, w, e) && b in store
    requires n != LATEST && IsDir(Apply(w, e).fs, b + [n])
    ensures IsDir(w.fs, b + [n]) || (e.Entry? && Locate(w.fs, e.destBase) == b && e.ts == n)
  {
    var p := b + [n];
    assert p <= p;
    match e
    case Outside(after) =>
      OutsideLeavesStore(w.fs, after, store, b);
      SameBelowChild(w.fs, after, b, n);
    case Restored(src, destBase, generation, o) =>
      var from := Locate(w.fs, Join2(destBase, generation));
      if Exists(w.fs, from) {
        RsyncSame(w.fs, Follow(w.fs, from), Target(w.fs, src), None, o, b);
        SameBelowChild(w.fs, Apply(w, e).fs, b, n);
      }
    case Entry(src, destBase, ts, o) =>
      var base := Locate(w.fs, destBase);
      if base != b || ts != n {
        ChildApart(store, b, n, base, ts);
        ChildApart(store, b, n, base, LATEST);
        EntryFrame(w.fs, src, destBase, ts, o, p);
      }
  }

  lemma RecordedAppend(log: seq<Rec>, r: Rec, b: Path, n: string)
    ensures Recorded(log + [r], b, n) <==> Recorded(log, b, n) || (r.base == b && r.name == n)
  {
    if i :| 0 <= i < |log| && log[i].base == b && log[i].name == n {
      assert (log + [r])[i] == log[i];
    }
    if r.base == b && r.name == n {
      assert (log + [r])[|log|] == r;
    }
  }

  /** A directory of the base is recorded ... */
  lemma DirsRecorded(store: set<Path>, w: World, e: Event, b: Path, n: string)
    requires StoreOk(store) && Good(store, w) && Allowed(store, w, e) && b in store
    requires Tidy(w, b) && Orderly(w, b, e)
    requires IsDir(Apply(w, e).fs, b + [n]) && n != LATEST
    ensures Recorded(Apply(w, e).log, b, n)
  {
    var log := Apply(w, e).log;
    ChildOrigin(store, w, e, b, n);
    ApplyLog(w, e);
    if log != w.log {
      assert log == w.log + [log[|w.log|]];
      RecordedAppend(w.log, log[|w.log|], b, n);
    }
  }

  /** ... and the last one recorded is the newest. */
  lemma LastIsNewest(w: World, e: Event, b: Path, n: string)
    requires Tidy(w, b) && Orderly(w, b, e) && Recorded(Apply(w, e).log, b, n)
    ensures var last := Last(Apply(w, e).log, b); last.Some? && (n == last.value || Less(n, last.value))
  {
    var log := Apply(w, e).log;
    ApplyLog(w, e);
    if log != w.log {
      assert log[..|log| - 1] == w.log && log == w.log + [log[|w.log|]];
      RecordedAppend(w.log, log[|w.log|], b, n);
    }
  }

  lemma ApplyTidy(store: set<Path>, w: World, e: Event, b: Path)
    requires StoreOk(store) && Good(store, w) && Allowed(store, w, e) && b in store
    requires Tidy(w, b) && Orderly(w, b, e)
    ensures Tidy(Apply(w, e), b)
  {
    var w' := Apply(w, e);
    forall n | IsDir(w'.fs, b + [n]) && n != LATEST
      ensures Recorded(w'.log, b, n)
    {
      DirsRecorded(store, w, e, b, n);
    }
    forall n | Recorded(w'.log, b, n)
      ensures Last(w'.log, b).Some? && (n == Last(w'.log, b).value || Less(n, Last(w'.log, b).value))
    {
      LastIsNewest(w, e, b, n);
    }
  }

  lemma {:induction false} RunTidy(store: set<Path>, w: World, es: seq<Event>, b: Path)
    requires StoreOk(store) && Good(store, w) && AllAllowed(store, w, es) && b in store
    requires Tidy(w, b) && AllOrderly(w, b, es)
    ensures Good(store, Run(w, es)) && Tidy(Run(w, es), b) && Run(w, es).fs.cwd == w.fs.cwd
    decreases |es|
  {
    if es == [] {
    } else {
      ApplyGood(store, w, es[0]);
      ApplyTidy(store, w, es[0], b);
      RunTidy(store, Apply(w, es[0]), es[1..], b);
    }
  }

  /** When all commands share the base, the listing is the history of the base. */
  lemma ListedIsRecorded(store: set<Path>, w: World, cmds: seq<Cmd>, b: Path, n: string)
    requires Good(store, w) && Tidy(w, b) && IsDir(w.fs, b)
    requires exists k :: 0 <= k < |cmds| && ParseEntry(cmds[k]).Some?
    requires forall k :: 0 <= k < |cmds| && ParseEntry(cmds[k]).Some? ==>
               Base(cmds[k]) != "" && Locate(w.fs, Base(cmds[k])) == b
    ensures Listed(w.fs, cmds, n) <==> Recorded(w.log, b, n)
  {
    var k0 :| 0 <= k0 < |cmds| && ParseEntry(cmds[k0]).Some?;
    assert CmdNames(w.fs, cmds[k0]) == SubDirs(w.fs, b);
    SubDirsAre(w.fs, b, n);
    if Recorded(w.log, b, n) {
      var i :| 0 <= i < |w.log| && w.log[i].base == b && w.log[i].name == n;
      assert RecOk(w.fs, w.log[i]);
      assert n in CmdNames(w.fs, cmds[k0]);
    }
  }

  /** With one base, and over any run in which its backups succeed under an advancing clock, the head of the
      listing is the generation that `latest` points to; the list is empty exactly when there is no `latest`. */
  lemma HeadIsLatest(store: set<Path>, w: World, es: seq<Event>, cmds: seq<Cmd>, b: Path, list: seq<string>)
    requires StoreOk(store) && Good(store, w) && AllAllowed(store, w, es) && b in store
    requires Tidy(w, b) && AllOrderly(w, b, es)
    requires var fs := Run(w, es).fs;
             && (exists k :: 0 <= k < |cmds| && ParseEntry(cmds[k]).Some?)
             && (forall k :: 0 <= k < |cmds| && ParseEntry(cmds[k]).Some? ==>
                   Base(cmds[k]) != "" && Locate(fs, Base(cmds[k])) == b)
             && IsDir(fs, b)
             && Descending(list) && forall n :: n in list <==> Listed(fs, cmds, n)
    ensures var fs := Run(w, es).fs;
            if list == [] then b + [LATEST] !in fs.nodes
            else b + [LATEST] in fs.nodes && fs.nodes[b + [LATEST]] == Link(list[0])
  {
    RunTidy(store, w, es, b);
    var w' := Run(w, es);
    assert LatestOk(w'.fs, w'.log, b);
    forall n
      ensures n in list <==> Recorded(w'.log, b, n)
    {
      ListedIsRecorded(store, w', cmds, b, n);
    }
    if Last(w'.log, b).Some? {
      LastRecorded(w'.log, b);
    }
    if list != [] {
      assert list[0] in list && Recorded(w'.log, b, list[0]);
      var last := Last(w'.log, b).value;
      assert last in list;
      HeadIsGreatest(list, last);
      LessTotal(last, list[0]);
    }
  }
}
