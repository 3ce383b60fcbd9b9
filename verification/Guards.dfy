/** The write guards of the WebDAV and SFTP adapters (`internal/webdav/server.go`, `internal/sftp/server.go`). */
module Guards {
  import opened GoStrings
  import opened Permissions
  import opened Config
  import opened Paths
  import opened Vfs

  // ---------- which container a guard names ----------

  /** The container name that the WebDAV and SFTP write guards take from the raw path. */
  function GuardName(path: string): string {
    Parts(path)[0]
  }

  /** `checkWritePerm` of the WebDAV adapter. */
  predicate WebdavMayWrite(cfg: Config, username: string, path: string) {
    GuardName(path) != "" && HasPermission(UserOf(cfg, username), GuardName(path), FILE_WRITE)
  }

  /** The first check of `Filewrite` and `Filecmd` in the SFTP adapter. */
  predicate SftpMayWrite(cfg: Config, username: string, path: string) {
    HasPermission(UserOf(cfg, username), GuardName(path), FILE_WRITE)
  }

  /** Counting how deep the path is: it ends below a first component called `name`. `inside` says that the
      current first component has that name. A relative path that climbs out of everything starts with "..". */
  predicate LandsIn(rooted: bool, name: string, depth: nat, inside: bool, parts: seq<string>)
    decreases |parts|
  {
    if parts == [] then depth > 0 && inside
    else if parts[0] == "" || parts[0] == "." then LandsIn(rooted, name, depth, inside, parts[1..])
    else if parts[0] != ".." then
      LandsIn(rooted, name, depth + 1, if depth == 0 then parts[0] == name else inside, parts[1..])
    else if depth > 0 then LandsIn(rooted, name, depth - 1, inside, parts[1..])
    else if rooted then LandsIn(rooted, name, 0, inside, parts[1..])
    else name == ".."
  }

  lemma {:induction false} ClimbedOutStays(acc: seq<string>, parts: seq<string>)
    requires acc != [] && acc[0] == ".."
    ensures var w := Walk(false, acc, parts); w != [] && w[0] == ".."
    decreases |parts|
  {
    if parts == [] {
    } else {
      ClimbedOutStays(Push(false, acc, parts[0]), parts[1..]);
    }
  }

  lemma {:induction false} LandsInWalk(rooted: bool, name: string, acc: seq<string>, inside: bool, parts: seq<string>)
    requires ".." !in acc && (acc != [] ==> inside == (acc[0] == name))
    ensures var w := Walk(rooted, acc, parts); LandsIn(rooted, name, |acc|, inside, parts) <==> w != [] && w[0] == name
    decreases |parts|
  {
    if parts == [] {
    } else {
      var c := parts[0];
      var next := Push(rooted, acc, c);
      if c == ".." && acc == [] && !rooted {
        ClimbedOutStays(next, parts[1..]);
      } else {
        var inside' := if acc == [] && c != "" && c != "." && c != ".." then c == name else inside;
        LandsInWalk(rooted, name, next, inside', parts[1..]);
      }
    }
  }

  lemma {:induction false} EmptyPartsVanish(rooted: bool, acc: seq<string>, s: string)
    ensures Walk(rooted, acc, Split(s, '/')) == Walk(rooted, acc, Split(TrimLeft(s, '/'), '/'))
  {
    if s != "" && s[0] == '/' {
      EmptyPartsVanish(rooted, acc, s[1..]);
      assert ([""] + Split(s[1..], '/'))[1..] == Split(s[1..], '/');
    }
  }

  lemma {:induction false} TrailingVanishes(rooted: bool, acc: seq<string>, s: string)
    ensures Walk(rooted, acc, Split(s, '/')) == Walk(rooted, acc, Split(TrimRight(s, '/'), '/'))
    decreases |s|
  {
    if s != "" && s[|s| - 1] == '/' {
      var t := s[..|s| - 1];
      assert s == t + ['/'] + "";
      SplitConcat(t, "", '/');
      assert Split(s, '/') == Split(t, '/') + [""];
      WalkConcat(rooted, acc, Split(t, '/'), [""]);
      TrailingVanishes(rooted, acc, t);
    }
  }

  lemma CompsOfParts(path: string)
    ensures Comps(path) == Walk(Rooted(path), [], Parts(path))
  {
    EmptyPartsVanish(Rooted(path), [], path);
    TrailingVanishes(Rooted(path), [], TrimLeft(path, '/'));
  }

  predicate GuardAgrees(path: string) {
    LandsIn(Rooted(path), GuardName(path), 0, false, Parts(path))
  }

  /** The guard reads the container that resolution uses exactly on the paths that come back to it, if they leave
      their first component at all. */
  lemma GuardNamesContainerExactlyWhen(path: string)
    ensures Comps(path) != [] && Comps(path)[0] == GuardName(path) <==> GuardAgrees(path)
    ensures GuardAgrees(path) ==> Parts(Clean(path))[0] == GuardName(path)
  {
    CompsOfParts(path);
    LandsInWalk(Rooted(path), GuardName(path), [], false, Parts(path));
    PartsOfClean(path);
  }

  /** Every cleaned path that names something is such a path. */
  lemma CleanPathsAgree(path: string)
    requires Clean(path) == path && Comps(path) != []
    ensures GuardAgrees(path)
  {
    PartsOfClean(path);
    GuardNamesContainerExactlyWhen(path);
  }

  const CLIMBING := "a/../b/m"

  lemma ClimbingPath()
    ensures Split(CLIMBING, '/') == Parts(CLIMBING) == ["a", "..", "b", "m"]
  {
    var parts := ["a", "..", "b", "m"];
    assert parts[1..] == ["..", "b", "m"] && ["..", "b", "m"][1..] == ["b", "m"] && ["b", "m"][1..] == ["m"];
    assert Join(["b", "m"], '/') == "b/m";
    assert Join(["..", "b", "m"], '/') == "../b/m";
    assert Join(parts, '/') == CLIMBING;
    SplitJoin(parts, '/');
    TrimRightKeeps(CLIMBING, '/');
  }

  lemma WalkClimbs(a: string, b: string, m: string)
    requires Plain(a) && Plain(b) && Plain(m)
    ensures Walk(false, [], [a, "..", b, m]) == [b, m]
  {
    assert [a, "..", b, m] == [a, ".."] + [b, m];
    WalkConcat(false, [], [a, ".."], [b, m]);
    assert [a, ".."][1..] == [".."] && [".."][1..] == [];
    assert Push(false, [a], "..") == [];
    PlainIsNormal(false, [b, m]);
    assert [] + [b, m] == [b, m];
    WalkKeeps(false, [], [b, m]);
  }

  /** On an uncleaned path that climbs out of its first component, guard and resolution differ. */
  lemma GuardCanDiffer()
    ensures GuardName(CLIMBING) == "a" && Comps(CLIMBING) == ["b", "m"] && !GuardAgrees(CLIMBING)
  {
    ClimbingPath();
    WalkClimbs("a", "b", "m");
    GuardNamesContainerExactlyWhen(CLIMBING);
  }

  lemma {:induction false} TrimLeftStops(s: string, c: char)
    ensures TrimLeft(s, c) != "" ==> TrimLeft(s, c)[0] != c
  {
    if s == "" {
    } else if s[0] == c {
      TrimLeftStops(s[1..], c);
    }
  }

  lemma {:induction false} TrimRightPrefix(s: string, c: char)
    ensures TrimRight(s, c) <= s
    decreases |s|
  {
    if s == "" {
    } else if s[|s| - 1] == c {
      TrimRightPrefix(s[..|s| - 1], c);
    }
  }

  lemma FirstPartEmpty(t: string)
    requires t != "" ==> t[0] != '/'
    ensures Split(t, '/')[0] == "" ==> t == ""
  {
  }

  /** A guard that names nothing looks at a path that names nothing. */
  lemma EmptyGuardName(path: string)
    requires GuardName(path) == ""
    ensures Comps(path) == []
  {
    TrimLeftStops(path, '/');
    TrimRightPrefix(TrimLeft(path, '/'), '/');
    FirstPartEmpty(Trim(path, '/'));
    assert Parts(path) == [""];
    CompsOfParts(path);
    assert [""][1..] == [];
  }

  // ---------- what the guards protect ----------

  /** The container that resolution uses; "" if there is none. */
  function Container(path: string): string {
    if Comps(path) == [] then "" else Comps(path)[0]
  }

  /** `h` lies in a mount of container `c`, where the user may write by one configuration and read by another. */
  ghost predicate Permitted(guardCfg: Config, mapCfg: Config, username: string, docker: Docker, c: string, h: string) {
    && HasPermission(UserOf(guardCfg, username), c, FILE_WRITE)
    && HasPermission(UserOf(mapCfg, username), c, CONTAINER_READ)
    && c in mapCfg.servers && c in docker
    && exists k :: 0 <= k < |docker[c]| && Below(docker[c][k].source, h)
  }

  /** A resolved path is permitted exactly when the user may write in the container it resolves through. */
  lemma PermittedExactlyWhen(guardCfg: Config, mapCfg: Config, username: string, docker: Docker, path: string)
    requires AbsoluteSources(docker) && !HasDotDotHole(mapCfg, username, docker)
    requires MapPath(mapCfg, username, docker, path).Host?
    ensures Permitted(guardCfg, mapCfg, username, docker, Container(path),
                      MapPath(mapCfg, username, docker, path).path) <==>
            HasPermission(UserOf(guardCfg, username), Container(path), FILE_WRITE)
  {
    HostPosition(mapCfg, username, docker, path);
    ContainedExactlyWhen(mapCfg, username, docker);
  }

  /** The paths on which a guard does its work: it names the right container, or nothing resolves, or it asks for
      the permission on "*", which holds everywhere. */
  predicate Protected(path: string) {
    GuardAgrees(path) || |Comps(path)| < 2 || GuardName(path) == "*"
  }

  lemma StarHoldsEverywhere(u: User, server: string, required: string)
    requires HasPermission(u, "*", required)
    ensures HasPermission(u, server, required)
  {
  }

  lemma ProtectedIsPermitted(guardCfg: Config, mapCfg: Config, username: string, docker: Docker, path: string)
    requires AbsoluteSources(docker) && !HasDotDotHole(mapCfg, username, docker) && Protected(path)
    requires SftpMayWrite(guardCfg, username, path) && MapPath(mapCfg, username, docker, path).Host?
    ensures Permitted(guardCfg, mapCfg, username, docker, Container(path), MapPath(mapCfg, username, docker, path).path)
  {
    GuardNamesContainerExactlyWhen(path);
    HostExactlyWhen(mapCfg, username, docker, path);
    if GuardName(path) == "*" {
      StarHoldsEverywhere(UserOf(guardCfg, username), Container(path), FILE_WRITE);
    }
    PermittedExactlyWhen(guardCfg, mapCfg, username, docker, path);
  }

  /** The WebDAV guard lets the user through, the path resolves, and the user may not write where it leads. */
  ghost predicate Bypasses(name: string, guardCfg: Config, mapCfg: Config, username: string, docker: Docker) {
    && AbsoluteSources(docker) && !HasDotDotHole(mapCfg, username, docker)
    && WebdavMayWrite(guardCfg, username, name) && MapPath(mapCfg, username, docker, name).Host?
    && !Permitted(guardCfg, mapCfg, username, docker, Container(name), MapPath(mapCfg, username, docker, name).path)
  }

  ghost predicate GuardProtects(name: string) {
    forall guardCfg, mapCfg, username, docker :: !Bypasses(name, guardCfg, mapCfg, username, docker)
  }

  const SOMEONE := "someone"

  const BARE := Server("", None, [], None)

  /** Someone who may write in `g` and only read in the one configured container `c`. */
  function ReaderOf(g: string, c: string): Config {
    Config(map[SOMEONE := User("", map[g := [FILE_WRITE], c := [CONTAINER_READ]])], map[c := BARE])
  }

  lemma OnePermission(held: string, required: string)
    ensures CheckPermission([held], required) <==> MatchRecursive(held, required)
  {
    if MatchRecursive(held, required) {
      assert MatchRecursive([held][0], required);
    }
  }

  predicate Word(s: string) { '.' !in s && s != "*" }

  /** Permissions of two words each, the first words different. */
  lemma WordsDiffer(a: string, b: string, c: string, d: string)
    requires Word(a) && Word(b) && Word(c) && Word(d) && a != c
    ensures !MatchRecursive(a + ['.'] + b, c + ['.'] + d)
  {
    SplitConcat(a, b, '.');
    SplitConcat(c, d, '.');
    SplitOfFree(a, '.');
    SplitOfFree(b, '.');
    SplitOfFree(c, '.');
    SplitOfFree(d, '.');
    MatchIsCover(a + ['.'] + b, c + ['.'] + d);
    assert FirstStar([a] + [b]) == 2;
  }

  lemma ReadWords()
    ensures CONTAINER_READ == "container" + ['.'] + "read" && Word("container") && Word("read")
  {
  }

  lemma WriteWords()
    ensures FILE_WRITE == "file" + ['.'] + "write" && Word("file") && Word("write") && "container" != "file"
  {
  }

  lemma SpeltDifferently(held: string, required: string, a: string, b: string, c: string, d: string)
    requires held == a + ['.'] + b && required == c + ['.'] + d
    requires Word(a) && Word(b) && Word(c) && Word(d) && a != c
    ensures !MatchRecursive(held, required)
  {
    WordsDiffer(a, b, c, d);
  }

  lemma ReadIsNotWrite()
    ensures !MatchRecursive(CONTAINER_READ, FILE_WRITE)
  {
    ReadWords();
    WriteWords();
    SpeltDifferently(CONTAINER_READ, FILE_WRITE, "container", "read", "file", "write");
  }

  lemma GrantsDiffer(g: string, c: string, write: string, read: string)
    requires g != c && g != "*" && !MatchRecursive(read, write)
    ensures var u := User("", map[g := [write], c := [read]]);
            HasPermission(u, g, write) && HasPermission(u, c, read) && !HasPermission(u, c, write)
  {
    var u := User("", map[g := [write], c := [read]]);
    OnePermission(write, write);
    OnePermission(read, read);
    OnePermission(read, write);
    assert PermsFor(u, g) == [write] && PermsFor(u, c) == [read];
    assert PermsFor(u, "*") == [] || PermsFor(u, "*") == [read];
  }

  lemma ReaderHolds(g: string, c: string)
    requires g != c && g != "*"
    ensures var u := UserOf(ReaderOf(g, c), SOMEONE);
            HasPermission(u, g, FILE_WRITE) && HasPermission(u, c, CONTAINER_READ) && !HasPermission(u, c, FILE_WRITE)
  {
    ReadIsNotWrite();
    GrantsDiffer(g, c, FILE_WRITE, CONTAINER_READ);
  }

  lemma {:induction false} TrimFree(s: string, c: char)
    requires c !in s
    ensures Trim(s, c) == s
  {
    if s == "" {
    } else {
      assert s[0] != c;
      TrimRightKeeps(s, c);
    }
  }

  lemma ReaderIs(g: string, c: string)
    ensures var cfg := ReaderOf(g, c);
            cfg.servers.Keys == {c} && SOMEONE in cfg.users && UserOf(cfg, SOMEONE) == cfg.users[SOMEONE]
  {
  }

  function RootMount(c: string, m: string): Docker { map[c := [Mount("/", m)]] }

  lemma RootMountIs(c: string, m: string)
    requires '/' !in m
    ensures var docker := RootMount(c, m);
            && AbsoluteSources(docker) && docker.Keys == {c} && FirstMount(docker[c], m) < |docker[c]|
            && forall k :: 0 <= k < |docker[c]| ==> Comps(docker[c][k].source) == []
  {
    TrimFree(m, '/');
    RootHasNoComps();
  }

  /** On every other path there are a configuration and a mount for which the guard lets the wrong user through. */
  lemma UnprotectedBypasses(name: string)
    requires !Protected(name)
    ensures var cfg := ReaderOf(GuardName(name), Container(name));
            Bypasses(name, cfg, cfg, SOMEONE, RootMount(Container(name), Comps(name)[1]))
  {
    var g, c, m := GuardName(name), Container(name), Comps(name)[1];
    var cfg, docker := ReaderOf(g, c), RootMount(c, m);
    GuardNamesContainerExactlyWhen(name);
    if g == "" {
      EmptyGuardName(name);
    }
    ReaderHolds(g, c);
    ReaderIs(g, c);
    CompsNormal(name);
    NormalFree(Rooted(name), Comps(name));
    RootMountIs(c, m);
    HostExactlyWhen(cfg, SOMEONE, docker, name);
    PermittedExactlyWhen(cfg, cfg, SOMEONE, docker, name);
  }

  /** A concrete case: someone may write in "a" and only read in "b", and the guard lets "a/../b/m" through. */
  lemma ClimbingBypasses()
    ensures Bypasses(CLIMBING, ReaderOf("a", "b"), ReaderOf("a", "b"), SOMEONE, RootMount("b", "m"))
  {
    GuardCanDiffer();
    UnprotectedBypasses(CLIMBING);
  }

  lemma RootHasNoComps()
    ensures Comps("/") == []
  {
    SplitConcat("", "", '/');
    assert "" + ['/'] + "" == "/";
    DegenerateWalks();
  }

  /** The exact condition: over all configurations, users and mounts, whatever the guard lets through and
      resolution finds is permitted if and only if the path is a protected one. */
  lemma GuardProtectsExactlyWhen(name: string)
    ensures GuardProtects(name) <==> Protected(name)
  {
    if Protected(name) {
      forall guardCfg, mapCfg, username, docker
        ensures !Bypasses(name, guardCfg, mapCfg, username, docker)
      {
        if AbsoluteSources(docker) && !HasDotDotHole(mapCfg, username, docker)
           && WebdavMayWrite(guardCfg, username, name) && MapPath(mapCfg, username, docker, name).Host? {
          ProtectedIsPermitted(guardCfg, mapCfg, username, docker, name);
        }
      }
    } else {
      UnprotectedBypasses(name);
    }
  }

  /** The two guards differ only on paths that do not resolve. */
  lemma GuardsAgree(guardCfg: Config, mapCfg: Config, username: string, docker: Docker, path: string)
    ensures MapPath(mapCfg, username, docker, path).Host? ==>
              (WebdavMayWrite(guardCfg, username, path) <==> SftpMayWrite(guardCfg, username, path))
  {
    HostExactlyWhen(mapCfg, username, docker, path);
    if GuardName(path) == "" {
      EmptyGuardName(path);
    }
  }

  /** The same for the SFTP guard. */
  ghost predicate SftpBypasses(name: string, guardCfg: Config, mapCfg: Config, username: string, docker: Docker) {
    && AbsoluteSources(docker) && !HasDotDotHole(mapCfg, username, docker)
    && SftpMayWrite(guardCfg, username, name) && MapPath(mapCfg, username, docker, name).Host?
    && !Permitted(guardCfg, mapCfg, username, docker, Container(name), MapPath(mapCfg, username, docker, name).path)
  }

  ghost predicate SftpGuardProtects(name: string) {
    forall guardCfg, mapCfg, username, docker :: !SftpBypasses(name, guardCfg, mapCfg, username, docker)
  }

  lemma SftpGuardProtectsExactlyWhen(name: string)
    ensures SftpGuardProtects(name) <==> Protected(name)
  {
    forall guardCfg, mapCfg, username, docker
      ensures SftpBypasses(name, guardCfg, mapCfg, username, docker) <==>
        Bypasses(name, guardCfg, mapCfg, username, docker)
    {
      GuardsAgree(guardCfg, mapCfg, username, docker, name);
    }
    GuardProtectsExactlyWhen(name);
    if SftpGuardProtects(name) {
      assert GuardProtects(name);
    }
  }

  // ---------- WebDAV operations ----------

  datatype Op = Mkdir(name: string) | OpenForWrite(name: string) | RemoveAll(name: string)
    | Rename(source: string, target: string)

  /** The paths an operation names. */
  function Targets(op: Op): seq<string> {
    match op
    case Mkdir(n) => [n]
    case OpenForWrite(n) => [n]
    case RemoveAll(n) => [n]
    case Rename(o, n) => [o, n]
  }

  /** The host paths a WebDAV operation changes; none when a guard or the resolution refuses.
      Guards and resolutions each read the configuration anew. */
  function WebdavChanges(guardCfg: seq<Config>, mapCfg: seq<Config>, username: string, docker: Docker,
                         op: Op): seq<string>
    requires |guardCfg| == |mapCfg| == |Targets(op)|
  {
    var ts := Targets(op);
    if exists i :: 0 <= i < |ts| && !WebdavMayWrite(guardCfg[i], username, ts[i]) then []
    else if exists i :: 0 <= i < |ts| && !MapPath(mapCfg[i], username, docker, ts[i]).Host? then []
    else seq(|ts|, i requires 0 <= i < |ts| && MapPath(mapCfg[i], username, docker, ts[i]).Host? =>
               MapPath(mapCfg[i], username, docker, ts[i]).path)
  }

  /** The guard accepts the name, and the name leads to the host. */
  ghost predicate Accepted(guardCfg: Config, mapCfg: Config, username: string, docker: Docker, name: string) {
    && GuardName(name) != "" && HasPermission(UserOf(guardCfg, username), GuardName(name), "file.write")
    && |Comps(name)| >= 2 && Offers(mapCfg, username, docker, Comps(name)[0], Comps(name)[1])
  }

  /** What an operation changes, exactly: if all the names it is given are accepted, one path for each, in order, and
      each the one that its name leads to; otherwise nothing. */
  lemma WebdavChangesExactly(guardCfg: seq<Config>, mapCfg: seq<Config>, username: string, docker: Docker, op: Op)
    requires |guardCfg| == |mapCfg| == |Targets(op)| && AbsoluteSources(docker)
    ensures var ts := Targets(op); var changed := WebdavChanges(guardCfg, mapCfg, username, docker, op);
            if forall i :: 0 <= i < |ts| ==> Accepted(guardCfg[i], mapCfg[i], username, docker, ts[i])
            then |changed| == |ts| && forall i :: 0 <= i < |ts| ==> LeadsTo(docker, ts[i], changed[i])
            else changed == []
  {
    var ts := Targets(op);
    forall i | 0 <= i < |ts|
      ensures Accepted(guardCfg[i], mapCfg[i], username, docker, ts[i]) <==>
              WebdavMayWrite(guardCfg[i], username, ts[i]) && MapPath(mapCfg[i], username, docker, ts[i]).Host?
    {
      HostExactlyWhen(mapCfg[i], username, docker, ts[i]);
    }
    forall i | 0 <= i < |ts| && MapPath(mapCfg[i], username, docker, ts[i]).Host?
      ensures LeadsTo(docker, ts[i], MapPath(mapCfg[i], username, docker, ts[i]).path)
    {
      ResolvesToHost(mapCfg[i], username, docker, ts[i]);
    }
  }

  /** The same for a rename: the source leads to the first path, the target to the second. Each name is guarded and
      resolved by a configuration of its own. */
  lemma WebdavRenameExactly(g: Config, m: Config, g': Config, m': Config, username: string, docker: Docker,
                            source: string, target: string)
    requires AbsoluteSources(docker)
    ensures var r := WebdavChanges([g, g'], [m, m'], username, docker, Rename(source, target));
            if Accepted(g, m, username, docker, source) && Accepted(g', m', username, docker, target)
            then |r| == 2 && LeadsTo(docker, source, r[0]) && LeadsTo(docker, target, r[1])
            else r == []
  {
    WebdavChangesExactly([g, g'], [m, m'], username, docker, Rename(source, target));
    var ts := Targets(Rename(source, target));
    assert |ts| == 2 && ts[0] == source && ts[1] == target;
  }

  /** And for the operations on one name. */
  lemma WebdavChangeExactly(g: Config, m: Config, username: string, docker: Docker, op: Op, name: string)
    requires AbsoluteSources(docker) && (op == Mkdir(name) || op == OpenForWrite(name) || op == RemoveAll(name))
    ensures var r := WebdavChanges([g], [m], username, docker, op);
            if Accepted(g, m, username, docker, name) then |r| == 1 && LeadsTo(docker, name, r[0]) else r == []
  {
    WebdavChangesExactly([g], [m], username, docker, op);
    assert |Targets(op)| == 1 && Targets(op)[0] == name;
  }

  /** Each host path WebDAV changes, both ends of a rename included, belongs to a mount of a container
      where the user holds `file.write` and `container.read`. */
  lemma WebdavChangesAreAllowed(guardCfg: seq<Config>, mapCfg: seq<Config>, username: string, docker: Docker, op: Op,
                                i: nat)
    requires |guardCfg| == |mapCfg| == |Targets(op)|
    requires AbsoluteSources(docker) && forall cfg :: cfg in mapCfg ==> !HasDotDotHole(cfg, username, docker)
    requires forall t :: t in Targets(op) ==> Protected(t)
    requires i < |WebdavChanges(guardCfg, mapCfg, username, docker, op)|
    ensures Permitted(guardCfg[i], mapCfg[i], username, docker, Container(Targets(op)[i]),
                      WebdavChanges(guardCfg, mapCfg, username, docker, op)[i])
  {
    var t := Targets(op)[i];
    assert WebdavMayWrite(guardCfg[i], username, t);
    assert MapPath(mapCfg[i], username, docker, t).Host?;
    ProtectedIsPermitted(guardCfg[i], mapCfg[i], username, docker, t);
  }

  // ---------- SFTP operations ----------

  /** The host path of an SFTP write, removal or directory creation; `None` when the guard or the resolution refuses. */
  function SftpChange(guardCfg: Config, mapCfg: Config, username: string, docker: Docker,
                      path: string): Option<string> {
    if !SftpMayWrite(guardCfg, username, path) then None
    else match MapPath(mapCfg, username, docker, path) case Host(h) => Some(h) case _ => None
  }

  /** The two host paths of an SFTP rename: the guard looks at the source, the target is only resolved. */
  function SftpRename(guardCfg: Config, mapCfg: Config, targetCfg: Config, username: string, docker: Docker,
                      source: string, target: string): Option<(string, string)> {
    match (SftpChange(guardCfg, mapCfg, username, docker, source), MapPath(targetCfg, username, docker, target))
    case (Some(from), Host(to)) => Some((from, to))
    case _ => None
  }

  /** What an SFTP write, removal or directory creation changes, exactly. */
  lemma SftpChangeExactly(guardCfg: Config, mapCfg: Config, username: string, docker: Docker, path: string)
    requires AbsoluteSources(docker)
    ensures var r := SftpChange(guardCfg, mapCfg, username, docker, path);
            && (r.Some? <==> Accepted(guardCfg, mapCfg, username, docker, path))
            && (r.Some? ==> LeadsTo(docker, path, r.value))
  {
    HostExactlyWhen(mapCfg, username, docker, path);
    ResolvesToHost(mapCfg, username, docker, path);
    GuardsAgree(guardCfg, mapCfg, username, docker, path);
  }

  /** What an SFTP rename changes, exactly: the place that the guarded source leads to, and the one that the target
      leads to. */
  lemma SftpRenameExactly(guardCfg: Config, mapCfg: Config, targetCfg: Config, username: string, docker: Docker,
                          source: string, target: string)
    requires AbsoluteSources(docker)
    ensures var r := SftpRename(guardCfg, mapCfg, targetCfg, username, docker, source, target);
            && (r.Some? <==>
                  && Accepted(guardCfg, mapCfg, username, docker, source)
                  && |Comps(target)| >= 2 && Offers(targetCfg, username, docker, Comps(target)[0], Comps(target)[1]))
            && (r.Some? ==> LeadsTo(docker, source, r.value.0) && LeadsTo(docker, target, r.value.1))
  {
    SftpChangeExactly(guardCfg, mapCfg, username, docker, source);
    HostExactlyWhen(targetCfg, username, docker, target);
    ResolvesToHost(targetCfg, username, docker, target);
  }

  lemma SftpChangeIsAllowed(guardCfg: Config, mapCfg: Config, username: string, docker: Docker, path: string)
    requires AbsoluteSources(docker) && !HasDotDotHole(mapCfg, username, docker) && Protected(path)
    requires SftpChange(guardCfg, mapCfg, username, docker, path).Some?
    ensures Permitted(guardCfg, mapCfg, username, docker, Container(path),
                      SftpChange(guardCfg, mapCfg, username, docker, path).value)
  {
    ProtectedIsPermitted(guardCfg, mapCfg, username, docker, path);
  }

  /** The target of a rename that goes through is permitted exactly when the user may write in its container. */
  lemma SftpRenameTargetExactlyWhen(guardCfg: Config, mapCfg: Config, targetCfg: Config, username: string,
                                    docker: Docker,
                                    source: string, target: string)
    requires AbsoluteSources(docker) && !HasDotDotHole(targetCfg, username, docker)
    ensures var r := SftpRename(guardCfg, mapCfg, targetCfg, username, docker, source, target);
            r.Some? ==>
              (Permitted(guardCfg, targetCfg, username, docker, Container(target), r.value.1) <==>
               HasPermission(UserOf(guardCfg, username), Container(target), FILE_WRITE))
  {
    if MapPath(targetCfg, username, docker, target).Host? {
      PermittedExactlyWhen(guardCfg, targetCfg, username, docker, target);
    }
  }

  /** A rename between cleaned absolute paths, as the SFTP library hands them over, that goes through. */
  ghost predicate Renames(cfg: Config, username: string, docker: Docker, source: string, target: string) {
    && Rooted(source) && Clean(source) == source && Rooted(target) && Clean(target) == target
    && SftpRename(cfg, cfg, cfg, username, docker, source, target).Some?
  }

  ghost predicate RenamesArePermitted(cfg: Config, username: string, docker: Docker) {
    forall source, target :: Renames(cfg, username, docker, source, target) ==>
      Permitted(cfg, cfg, username, docker, Container(target), MapPath(cfg, username, docker, target).path)
  }

  ghost predicate PlainOffer(cfg: Config, username: string, docker: Docker, c: string, m: string) {
    Plain(c) && Plain(m) && Offers(cfg, username, docker, c, m)
  }

  ghost predicate WritesNowhere(cfg: Config, username: string, docker: Docker) {
    forall c, m :: PlainOffer(cfg, username, docker, c, m) ==> !HasPermission(UserOf(cfg, username), c, FILE_WRITE)
  }

  ghost predicate WritesEverywhere(cfg: Config, username: string, docker: Docker) {
    forall c, m :: PlainOffer(cfg, username, docker, c, m) ==> HasPermission(UserOf(cfg, username), c, FILE_WRITE)
  }

  /** The path of a mount: cleaned, absolute, and found. */
  lemma MountPath(cfg: Config, username: string, docker: Docker, c: string, m: string)
    requires PlainOffer(cfg, username, docker, c, m)
    ensures var path := Render(true, [c, m]);
            && Rooted(path) && Clean(path) == path && GuardName(path) == Container(path) == c
            && MapPath(cfg, username, docker, path).Host?
  {
    var path := Render(true, [c, m]);
    PlainIsNormal(true, [c, m]);
    RenderComps(true, [c, m]);
    CleanPathsAgree(path);
    GuardNamesContainerExactlyWhen(path);
    HostExactlyWhen(cfg, username, docker, path);
  }

  /** The mount that a cleaned absolute path resolves through. */
  lemma ResolvesThrough(cfg: Config, username: string, docker: Docker, path: string)
    requires Rooted(path) && Clean(path) == path && MapPath(cfg, username, docker, path).Host?
    ensures |Comps(path)| >= 2 && PlainOffer(cfg, username, docker, Container(path), Comps(path)[1])
    ensures GuardName(path) == Container(path)
  {
    HostExactlyWhen(cfg, username, docker, path);
    CompsNormal(path);
    RootedNormalIsPlain(Comps(path));
    CleanPathsAgree(path);
    GuardNamesContainerExactlyWhen(path);
  }

  /** The exact condition on the configuration: every rename a user can make has a permitted target if and only if
      the user can write through no mount, or holds `file.write` on every readable container with a mount. */
  lemma SftpRenamesArePermittedExactlyWhen(cfg: Config, username: string, docker: Docker)
    requires AbsoluteSources(docker) && !HasDotDotHole(cfg, username, docker)
    ensures RenamesArePermitted(cfg, username, docker) <==>
            WritesNowhere(cfg, username, docker) || WritesEverywhere(cfg, username, docker)
  {
    if WritesNowhere(cfg, username, docker) || WritesEverywhere(cfg, username, docker) {
      forall source, target | Renames(cfg, username, docker, source, target)
        ensures Permitted(cfg, cfg, username, docker, Container(target), MapPath(cfg, username, docker, target).path)
      {
        ResolvesThrough(cfg, username, docker, source);
        ResolvesThrough(cfg, username, docker, target);
        PermittedExactlyWhen(cfg, cfg, username, docker, target);
      }
    } else {
      var c, m :| PlainOffer(cfg, username, docker, c, m) && HasPermission(UserOf(cfg, username), c, FILE_WRITE);
      var c', m' :| PlainOffer(cfg, username, docker, c', m') && !HasPermission(UserOf(cfg, username), c', FILE_WRITE);
      RenameOutside(cfg, username, docker, c, m, c', m');
    }
  }

  /** From a container with `file.write` into one without. */
  lemma RenameOutside(cfg: Config, username: string, docker: Docker, c: string, m: string, c': string, m': string)
    requires AbsoluteSources(docker) && !HasDotDotHole(cfg, username, docker)
    requires PlainOffer(cfg, username, docker, c, m) && HasPermission(UserOf(cfg, username), c, FILE_WRITE)
    requires PlainOffer(cfg, username, docker, c', m') && !HasPermission(UserOf(cfg, username), c', FILE_WRITE)
    ensures var source, target := Render(true, [c, m]), Render(true, [c', m']);
            Renames(cfg, username, docker, source, target) && Container(target) == c'
    ensures !RenamesArePermitted(cfg, username, docker)
  {
    MountPath(cfg, username, docker, c, m);
    MountPath(cfg, username, docker, c', m');
    var target := Render(true, [c', m']);
    PermittedExactlyWhen(cfg, cfg, username, docker, target);
    assert Renames(cfg, username, docker, Render(true, [c, m]), target);
  }

  // ---------- renames between any two path strings ----------

  predicate Nameable(n: string) { n != "" && '/' !in n }

  ghost predicate AnyRenameIsPermitted(cfg: Config, username: string, docker: Docker) {
    forall source, target :: SftpRename(cfg, cfg, cfg, username, docker, source, target).Some? ==>
      Permitted(cfg, cfg, username, docker, Container(target), MapPath(cfg, username, docker, target).path)
  }

  /** No guard lets the user through, whatever it names. */
  ghost predicate NamesNothing(cfg: Config, username: string) {
    forall n :: Nameable(n) ==> !HasPermission(UserOf(cfg, username), n, FILE_WRITE)
  }

  ghost predicate AnyOffer(cfg: Config, username: string, docker: Docker, c: string, m: string) {
    Normal(false, [c, m]) && Offers(cfg, username, docker, c, m)
  }

  ghost predicate WritesAllOffers(cfg: Config, username: string, docker: Docker) {
    forall c, m :: AnyOffer(cfg, username, docker, c, m) ==> HasPermission(UserOf(cfg, username), c, FILE_WRITE)
  }

  lemma {:induction false} JoinKeepsEnds(parts: seq<string>)
    requires |parts| > 0 && NoneContain(parts, '/') && parts[0] != "" && parts[|parts| - 1] != ""
    ensures var j := Join(parts, '/'); j != "" && j[0] != '/' && j[|j| - 1] != '/'
  {
    if |parts| == 1 {
    } else if parts[1] == "" {
      JoinLast(parts[1..]);
    } else {
      JoinKeepsEnds(parts[1..]);
    }
  }

  lemma {:induction false} JoinLast(parts: seq<string>)
    requires |parts| > 0 && NoneContain(parts, '/') && parts[|parts| - 1] != ""
    ensures var j := Join(parts, '/'); j != "" && j[|j| - 1] != '/'
  {
    if |parts| == 1 {
    } else {
      JoinLast(parts[1..]);
    }
  }

  /** A path string with given parts. */
  function PathOf(rooted: bool, parts: seq<string>): string {
    (if rooted then "/" else "") + Join(parts, '/')
  }

  lemma PathOfParts(rooted: bool, parts: seq<string>)
    requires |parts| > 0 && NoneContain(parts, '/') && parts[0] != "" && parts[|parts| - 1] != ""
    ensures var path := PathOf(rooted, parts);
            Rooted(path) == rooted && Parts(path) == parts && Comps(path) == Walk(rooted, [], parts)
  {
    JoinKeepsEnds(parts);
    var j, path := Join(parts, '/'), PathOf(rooted, parts);
    if rooted {
      assert path[1..] == j;
    } else {
      assert path == j;
    }
    assert TrimLeft(path, '/') == TrimLeft(j, '/') == j;
    TrimRightKeeps(j, '/');
    SplitJoin(parts, '/');
    CompsOfParts(path);
  }

  /** A path on which the guard names `n`, and which leads to mount `m` of container `c`. */
  function ClimbFrom(n: string, c: string, m: string): string {
    if n == "." then PathOf(false, [n, c, m])
    else if n == ".." then (if c == ".." then PathOf(false, [n, m]) else PathOf(true, [n, c, m]))
    else PathOf(false, [n, "..", c, m])
  }

  lemma WalkPair(rooted: bool, c: string, m: string)
    requires Normal(rooted, [c, m])
    ensures Walk(rooted, [], [c, m]) == [c, m]
  {
    assert [] + [c, m] == [c, m];
    WalkKeeps(rooted, [], [c, m]);
  }

  lemma PairParts(c: string, m: string)
    requires Normal(false, [c, m])
    ensures Nameable(c) && Nameable(m) && (c != ".." ==> Normal(true, [c, m])) && (m == ".." ==> c == "..")
  {
    assert Kept(false, [c, m][0]) && Kept(false, [c, m][1]);
    assert [c, m][1] == ".." ==> [c, m][0] == "..";
  }

  lemma ClimbsTo(n: string, c: string, m: string)
    requires Nameable(n) && Normal(false, [c, m])
    ensures GuardName(ClimbFrom(n, c, m)) == n && Comps(ClimbFrom(n, c, m)) == [c, m]
  {
    PairParts(c, m);
    WalkPair(false, c, m);
    if n == "." {
      PathOfParts(false, [n, c, m]);
      assert [n, c, m][1..] == [c, m];
    } else if n == ".." && c == ".." {
      PathOfParts(false, [n, m]);
    } else if n == ".." {
      PathOfParts(true, [n, c, m]);
      assert [n, c, m][1..] == [c, m];
      WalkPair(true, c, m);
    } else {
      PathOfParts(false, [n, "..", c, m]);
      assert [n, "..", c, m] == [n, ".."] + [c, m];
      WalkConcat(false, [], [n, ".."], [c, m]);
      assert [n, ".."][1..] == [".."] && [".."][1..] == [];
      assert Push(false, [n], "..") == [];
    }
  }

  lemma GuardNameIsPart(path: string)
    requires Comps(path) != []
    ensures Nameable(GuardName(path))
  {
    if GuardName(path) == "" {
      EmptyGuardName(path);
    }
    SplitFree(Trim(path, '/'), '/');
  }

  lemma FirstTwo(rooted: bool, comps: seq<string>)
    requires Normal(rooted, comps) && |comps| >= 2
    ensures Normal(false, [comps[0], comps[1]])
  {
    assert Kept(rooted, comps[0]) && Kept(rooted, comps[1]);
  }

  /** What a resolving path tells: the guard names something, and container and mount are on offer. */
  lemma ResolvingPath(cfg: Config, username: string, docker: Docker, path: string)
    requires MapPath(cfg, username, docker, path).Host?
    ensures Nameable(GuardName(path)) && |Comps(path)| >= 2
    ensures AnyOffer(cfg, username, docker, Container(path), Comps(path)[1])
  {
    HostExactlyWhen(cfg, username, docker, path);
    GuardNameIsPart(path);
    CompsNormal(path);
    FirstTwo(Rooted(path), Comps(path));
  }

  /** The same condition over all path strings, cleaned or not: every rename has a permitted target if and only if no
      guard lets the user through at all, or the user may write wherever a path can lead. */
  lemma AnyRenameIsPermittedExactlyWhen(cfg: Config, username: string, docker: Docker)
    requires AbsoluteSources(docker) && !HasDotDotHole(cfg, username, docker)
    ensures AnyRenameIsPermitted(cfg, username, docker) <==>
            NamesNothing(cfg, username) || WritesAllOffers(cfg, username, docker)
  {
    if NamesNothing(cfg, username) || WritesAllOffers(cfg, username, docker) {
      forall source, target | SftpRename(cfg, cfg, cfg, username, docker, source, target).Some?
        ensures Permitted(cfg, cfg, username, docker, Container(target), MapPath(cfg, username, docker, target).path)
      {
        ResolvingPath(cfg, username, docker, source);
        ResolvingPath(cfg, username, docker, target);
        PermittedExactlyWhen(cfg, cfg, username, docker, target);
      }
    } else {
      var n :| Nameable(n) && HasPermission(UserOf(cfg, username), n, FILE_WRITE);
      var c, m :| AnyOffer(cfg, username, docker, c, m) && !HasPermission(UserOf(cfg, username), c, FILE_WRITE);
      ClimbsTo(n, c, m);
      var path := ClimbFrom(n, c, m);
      HostExactlyWhen(cfg, username, docker, path);
      PermittedExactlyWhen(cfg, cfg, username, docker, path);
      assert SftpRename(cfg, cfg, cfg, username, docker, path, path).Some?;
    }
  }

  // ---------- a concrete rename ----------

  /** Someone who may write and read in container `a` and only read in container `b`. */
  function TwoContainers(a: string, b: string): Config {
    Config(map[SOMEONE := User("", map[a := [CONTAINER_READ, FILE_WRITE], b := [CONTAINER_READ]])],
           map[a := BARE, b := BARE])
  }

  function TwoMounts(a: string, m: string, b: string, n: string): Docker {
    map[a := [Mount("/" + a, "/" + m)], b := [Mount("/" + b, "/" + n)]]
  }

  lemma BothGrants(a: string, b: string, write: string, read: string)
    requires a != b && a != "*" && b != "*" && !MatchRecursive(read, write)
    ensures var u := User("", map[a := [read, write], b := [read]]);
            && HasPermission(u, a, write) && HasPermission(u, a, read)
            && HasPermission(u, b, read) && !HasPermission(u, b, write)
  {
    var u := User("", map[a := [read, write], b := [read]]);
    OnePermission(read, write);
    OnePermission(read, read);
    assert PermsFor(u, a) == [read, write] && PermsFor(u, b) == [read] && PermsFor(u, "*") == [];
    assert MatchRecursive(PermsFor(u, a)[0], read) && MatchRecursive(PermsFor(u, a)[1], write);
  }

  lemma OneMount(source: string, m: string)
    requires Plain(m)
    ensures FirstMount([Mount(source, "/" + m)], m) == 0
  {
    assert ("/" + m)[1..] == m;
    TrimFree(m, '/');
    assert m[0] != '/';
    assert TrimLeft("/" + m, '/') == TrimLeft(m, '/') == m;
  }

  lemma TwoContainersHold(a: string, b: string)
    requires a != b && a != "*" && b != "*"
    ensures var u := UserOf(TwoContainers(a, b), SOMEONE);
            && HasPermission(u, a, FILE_WRITE) && HasPermission(u, a, CONTAINER_READ)
            && HasPermission(u, b, CONTAINER_READ) && !HasPermission(u, b, FILE_WRITE)
  {
    ReadIsNotWrite();
    BothGrants(a, b, FILE_WRITE, CONTAINER_READ);
  }

  lemma TwoMountsAre(a: string, m: string, b: string, n: string)
    requires a != b && Plain(m) && Plain(n)
    ensures var docker := TwoMounts(a, m, b, n);
            && AbsoluteSources(docker) && a in docker && b in docker
            && FirstMount(docker[a], m) < |docker[a]| && FirstMount(docker[b], n) < |docker[b]|
  {
    OneMount("/" + a, m);
    OneMount("/" + b, n);
    var docker := TwoMounts(a, m, b, n);
    assert docker[a] == [Mount("/" + a, "/" + m)] && docker[b] == [Mount("/" + b, "/" + n)];
  }

  lemma TwoContainersAre(a: string, b: string)
    ensures var cfg := TwoContainers(a, b);
            && cfg.servers.Keys == {a, b} && SOMEONE in cfg.users && UserOf(cfg, SOMEONE) == cfg.users[SOMEONE]
  {
  }

  lemma TwoContainersOffer(a: string, m: string, b: string, n: string)
    requires Plain(a) && Plain(m) && Plain(b) && Plain(n) && a != b && a != "*" && b != "*"
    ensures var cfg, docker := TwoContainers(a, b), TwoMounts(a, m, b, n);
            && PlainOffer(cfg, SOMEONE, docker, a, m) && PlainOffer(cfg, SOMEONE, docker, b, n)
            && AbsoluteSources(docker) && !HasDotDotHole(cfg, SOMEONE, docker)
  {
    TwoContainersHold(a, b);
    TwoContainersAre(a, b);
    TwoMountsAre(a, m, b, n);
  }

  /** Renaming from `a` to `b` goes through and lands in the container that is only readable. */
  lemma RenameIntoReadable(a: string, m: string, b: string, n: string)
    requires Plain(a) && Plain(m) && Plain(b) && Plain(n) && a != b && a != "*" && b != "*"
    ensures var cfg, docker := TwoContainers(a, b), TwoMounts(a, m, b, n);
            var source, target := Render(true, [a, m]), Render(true, [b, n]);
            && AbsoluteSources(docker) && !HasDotDotHole(cfg, SOMEONE, docker)
            && Renames(cfg, SOMEONE, docker, source, target) && Container(target) == b
            && !HasPermission(UserOf(cfg, SOMEONE), b, FILE_WRITE)
            && !RenamesArePermitted(cfg, SOMEONE, docker)
  {
    TwoContainersOffer(a, m, b, n);
    TwoContainersHold(a, b);
    RenameOutside(TwoContainers(a, b), SOMEONE, TwoMounts(a, m, b, n), a, m, b, n);
  }

  /** The same with names: "/a/m" is renamed to "/b/n", where "b" is only readable. */
  lemma RenameIntoReadOnly()
    ensures var cfg, docker := TwoContainers("a", "b"), TwoMounts("a", "m", "b", "n");
            && Renames(cfg, SOMEONE, docker, "/a/m", "/b/n") && Container("/b/n") == "b"
            && !HasPermission(UserOf(cfg, SOMEONE), "b", FILE_WRITE)
            && !RenamesArePermitted(cfg, SOMEONE, docker)
  {
    assert ["a", "m"][1..] == ["m"] && ["b", "n"][1..] == ["n"];
    assert Render(true, ["a", "m"]) == "/a/m" && Render(true, ["b", "n"]) == "/b/n";
    RenameIntoReadable("a", "m", "b", "n");
  }
}
