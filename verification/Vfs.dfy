/** Virtual path resolution (`internal/vfs/vfs.go`) and the listings of its two adapters. */
module Vfs {
  import opened GoStrings
  import opened Permissions
  import opened Config
  import opened Paths

  datatype Mount = Mount(source: string, destination: string)

  /** What Docker reports per container name; inspecting a missing name fails. */
  type Docker = map<string, seq<Mount>>

  datatype Resolved = Host(path: string) | VfsRoot | ContainerRoot | Denied | NotExist

  function FirstMount(mounts: seq<Mount>, target: string): (k: nat)
    ensures k <= |mounts|
    ensures k < |mounts| ==> Trim(mounts[k].destination, '/') == target
    ensures forall j :: 0 <= j < k ==> Trim(mounts[j].destination, '/') != target
  {
    if mounts == [] then 0
    else if Trim(mounts[0].destination, '/') == target then 0
    else 1 + FirstMount(mounts[1..], target)
  }

  /** `Handler.MapPath` */
  function MapPath(cfg: Config, username: string, docker: Docker, path: string): Resolved {
    var clean := Clean(path);
    var parts := Parts(clean);
    if |parts| == 1 && parts[0] == "" then VfsRoot
    else
      var container := parts[0];
      if username !in cfg.users then Denied
      else if !HasPermission(cfg.users[username], container, CONTAINER_READ) then Denied
      else if container !in cfg.servers then NotExist
      else if |parts| == 1 then ContainerRoot
      else if container !in docker then NotExist
      else
        var mounts := docker[container];
        var k := FirstMount(mounts, parts[1]);
        if k == |mounts| then NotExist
        else
          var rel := match Rel(parts[1], Join(parts[1..], '/')) case Some(r) => r case None => "";
          Host(Join2(mounts[k].source, rel))
  }

  ghost predicate AbsoluteSources(docker: Docker) {
    forall c, k :: c in docker && 0 <= k < |docker[c]| ==> Rooted(docker[c][k].source)
  }

  /** Resolution only looks at the cleaned path. */
  lemma MapPathFactorsThroughClean(cfg: Config, username: string, docker: Docker, path: string)
    ensures MapPath(cfg, username, docker, Clean(path)) == MapPath(cfg, username, docker, path)
  {
    CleanComps(path);
  }

  /** Only an absolute path without components is the root; "" and "." are not. */
  lemma VfsRootExactlyWhen(cfg: Config, username: string, docker: Docker, path: string)
    ensures MapPath(cfg, username, docker, path) == VfsRoot <==> Rooted(path) && Comps(path) == []
  {
    PartsOfClean(path);
    CompsNormal(path);
    if Comps(path) != [] {
      assert Kept(Rooted(path), Comps(path)[0]);
    }
  }

  /** The user can read the configured container `c`, and Docker reports a mount `m` of it. */
  predicate Offers(cfg: Config, username: string, docker: Docker, c: string, m: string) {
    && username in cfg.users && HasPermission(cfg.users[username], c, CONTAINER_READ)
    && c in cfg.servers && c in docker && FirstMount(docker[c], m) < |docker[c]|
  }

  /** A path resolves to the host exactly when its first two components are a container and a mount on offer. */
  lemma HostExactlyWhen(cfg: Config, username: string, docker: Docker, path: string)
    ensures MapPath(cfg, username, docker, path).Host? <==>
            |Comps(path)| >= 2 && Offers(cfg, username, docker, Comps(path)[0], Comps(path)[1])
  {
    PartsOfClean(path);
  }

  /** The first part of the cleaned path, which resolution takes for a container: "." for a relative path that names
      nothing. */
  function FirstPart(path: string): string {
    if Comps(path) != [] then Comps(path)[0] else if Rooted(path) then "" else "."
  }

  /** The user is known and may read in the container that the path names. */
  predicate Admitted(cfg: Config, username: string, path: string) {
    username in cfg.users && HasPermission(cfg.users[username], FirstPart(path), "container.read")
  }

  /** Every answer other than a host path, exactly. Whoever may not read is refused before anything is looked up. */
  lemma AnswerExactlyWhen(cfg: Config, username: string, docker: Docker, path: string)
    ensures var r := MapPath(cfg, username, docker, path); var root := Rooted(path) && Comps(path) == [];
            var comps, c := Comps(path), FirstPart(path);
            && (r == VfsRoot <==> root)
            && (r == Denied <==> !root && !Admitted(cfg, username, path))
            && (r == ContainerRoot <==> !root && Admitted(cfg, username, path) && c in cfg.servers && |comps| <= 1)
            && (r == NotExist <==>
                  && !root && Admitted(cfg, username, path)
                  && (c !in cfg.servers
                      || (|comps| >= 2 && (c !in docker || FirstMount(docker[c], comps[1]) == |docker[c]|))))
  {
    PartsOfClean(path);
    CompsNormal(path);
    if Comps(path) != [] {
      assert Kept(Rooted(path), Comps(path)[0]);
    }
  }

  /** Where a path leads on the host: the components of the source of its mount, walked on by the rest of the path. */
  ghost predicate LeadsTo(docker: Docker, path: string, h: string) {
    var comps := Comps(path);
    && |comps| >= 2 && comps[0] in docker
    && var k := FirstMount(docker[comps[0]], comps[1]);
       k < |docker[comps[0]]| && Rooted(h) && h == Clean(h)
       && Comps(h) == Walk(true, Comps(docker[comps[0]][k].source), comps[2..])
  }

  lemma ResolvesToHost(cfg: Config, username: string, docker: Docker, path: string)
    requires AbsoluteSources(docker)
    ensures var r := MapPath(cfg, username, docker, path); r.Host? ==> LeadsTo(docker, path, r.path)
  {
    if MapPath(cfg, username, docker, path).Host? {
      HostPosition(cfg, username, docker, path);
    }
  }

  // ---------- containment ----------

  /** The container and the mount through which `path` resolves to the host path `h`. */
  ghost predicate ResolvesVia(cfg: Config, username: string, docker: Docker, path: string, h: string, k: nat) {
    var comps := Comps(path);
    && |comps| >= 2
    && comps[0] in docker && k < |docker[comps[0]]| && k == FirstMount(docker[comps[0]], comps[1])
    && comps[0] in cfg.servers && username in cfg.users
    && HasPermission(cfg.users[username], comps[0], CONTAINER_READ)
    && Rooted(h)
    && AllPlain(Comps(h)) && h == Clean(h)
  }

  /** The one configuration in which ".." survives cleaning as a container name and a mount. */
  predicate HasDotDotHole(cfg: Config, username: string, docker: Docker) {
    && ".." in cfg.servers && username in cfg.users && ".." in docker
    && HasPermission(cfg.users[username], "..", CONTAINER_READ)
    && var k := FirstMount(docker[".."], "..");
       k < |docker[".."]| && Comps(docker[".."][k].source) != []
  }

  lemma HostParts(path: string)
    requires var parts := Parts(Clean(path)); |parts| > 1
    ensures Parts(Clean(path)) == Comps(path)
  {
    PartsOfClean(path);
  }

  lemma RelRest(comps: seq<string>)
    requires Normal(false, comps) && |comps| > 1
    ensures var rel := Rel(comps[0], Join(comps, '/'));
            rel == Some(Join(comps[1..], '/')) && Split(rel.value, '/') == comps[1..]
  {
    RelOfRest(comps);
    NormalFree(false, comps);
    SplitJoin(comps[1..], '/');
  }

  /** Where a resolved path lands: below the cleaned source, at the remainder of the virtual path. */
  lemma HostPosition(cfg: Config, username: string, docker: Docker, path: string)
    requires AbsoluteSources(docker)
    requires MapPath(cfg, username, docker, path).Host?
    ensures var h := MapPath(cfg, username, docker, path).path; var comps := Comps(path);
            && |comps| >= 2 && comps[0] in docker
            && var k := FirstMount(docker[comps[0]], comps[1]);
               && ResolvesVia(cfg, username, docker, path, h, k)
               && Comps(h) == Walk(true, Comps(docker[comps[0]][k].source), comps[2..])
  {
    HostParts(path);
    CompsNormal(path);
    var comps := Comps(path);
    NormalTail(Rooted(path), comps);
    var k := FirstMount(docker[comps[0]], comps[1]);
    var source := docker[comps[0]][k].source;
    assert Rooted(source);
    var tail := comps[1..];
    var h := MapPath(cfg, username, docker, path).path;
    if |comps| == 2 {
      RelOfRest(tail);
      JoinWalks(source, ".");
      assert Split(".", '/') == ["."] by { SplitOfFree(".", '/'); }
      assert Walk(true, Comps(source), ["."]) == Comps(source) == Walk(true, Comps(source), []);
    } else {
      RelRest(tail);
      assert tail[1..] == comps[2..];
      JoinWalks(source, Join(tail[1..], '/'));
    }
    CompsNormal(h);
    RootedNormalIsPlain(Comps(h));
    CleanComps(if |comps| == 2 then source + "/" + "." else source + "/" + Join(tail[1..], '/'));
  }

  lemma RootedNormalIsPlain(comps: seq<string>)
    requires Normal(true, comps)
    ensures AllPlain(comps)
  {
    forall i | 0 <= i < |comps|
      ensures Plain(comps[i])
    {
      assert Kept(true, comps[i]);
    }
  }

  ghost predicate Below(source: string, h: string) {
    Comps(source) <= Comps(h)
  }

  /** Every host path the user can reach is the cleaned mount source or lies below it. */
  ghost predicate Contained(cfg: Config, username: string, docker: Docker) {
    forall path: string ::
      var r := MapPath(cfg, username, docker, path); var comps := Comps(path);
      r.Host? ==>
        && |comps| >= 2 && comps[0] in docker
        && var k := FirstMount(docker[comps[0]], comps[1]);
           k < |docker[comps[0]]| && Below(docker[comps[0]][k].source, r.path)
  }

  /** Without a ".." component the position is exact: source components, then the rest of the path. */
  lemma HostPositionPlain(cfg: Config, username: string, docker: Docker, path: string)
    requires AbsoluteSources(docker)
    requires MapPath(cfg, username, docker, path).Host?
    requires |Comps(path)| >= 2 && Comps(path)[1] != ".."
    ensures var h := MapPath(cfg, username, docker, path).path; var comps := Comps(path);
            && comps[0] in docker
            && var k := FirstMount(docker[comps[0]], comps[1]);
               && k < |docker[comps[0]]|
               && Comps(h) == Comps(docker[comps[0]][k].source) + comps[2..]
               && AllPlain(comps[2..])
  {
    HostPosition(cfg, username, docker, path);
    CompsNormal(path);
    var comps := Comps(path);
    var source := docker[comps[0]][FirstMount(docker[comps[0]], comps[1])].source;
    forall i | 0 <= i < |comps| - 2
      ensures Plain(comps[2..][i])
    {
      assert Kept(Rooted(path), comps[i + 2]);
    }
    CompsNormal(source);
    PlainExtends(Comps(source), comps[2..]);
    WalkKeeps(true, Comps(source), comps[2..]);
  }

  lemma PlainExtends(a: seq<string>, b: seq<string>)
    requires Normal(true, a) && AllPlain(b)
    ensures Normal(true, a + b)
  {
    RootedNormalIsPlain(a);
    assert AllPlain(a + b);
  }

  /** Containment holds for every path exactly when no ".." hole is configured. */
  lemma ContainedExactlyWhen(cfg: Config, username: string, docker: Docker)
    requires AbsoluteSources(docker)
    ensures Contained(cfg, username, docker) <==> !HasDotDotHole(cfg, username, docker)
  {
    if HasDotDotHole(cfg, username, docker) {
      HoleEscapes(cfg, username, docker);
    } else {
      forall path: string | MapPath(cfg, username, docker, path).Host?
        ensures var comps := Comps(path);
                && |comps| >= 2 && comps[0] in docker
                && var k := FirstMount(docker[comps[0]], comps[1]);
                   k < |docker[comps[0]]|
                     && Below(docker[comps[0]][k].source, MapPath(cfg, username, docker, path).path)
      {
        HostPosition(cfg, username, docker, path);
        CompsNormal(path);
        if Comps(path)[1] != ".." {
          HostPositionPlain(cfg, username, docker, path);
        }
      }
    }
  }

  lemma HoleEscapes(cfg: Config, username: string, docker: Docker)
    requires AbsoluteSources(docker) && HasDotDotHole(cfg, username, docker)
    ensures !Contained(cfg, username, docker)
  {
    var comps := ["..", "..", ".."];
    assert Normal(false, comps);
    var path := Render(false, comps);
    RenderComps(false, comps);
    PartsOfClean(path);
    assert MapPath(cfg, username, docker, path).Host?;
    HostPosition(cfg, username, docker, path);
    var source := docker[".."][FirstMount(docker[".."], "..")].source;
    CompsNormal(source);
    RootedNormalIsPlain(Comps(source));
    assert comps[2..] == [".."];
    assert Plain(Comps(source)[|Comps(source)| - 1]);
    assert Walk(true, Comps(source), [".."]) == Comps(source)[..|Comps(source)| - 1];
  }

  // ---------- listings ----------

  ghost predicate Readable(cfg: Config, username: string, name: string) {
    name in cfg.servers && HasPermission(UserOf(cfg, username), name, CONTAINER_READ)
  }

  /** The root branch of `Filelist` and `Readdir`: one entry per readable server, in map order. */
  method RootListing(cfg: Config, username: string) returns (items: seq<string>)
    ensures forall name :: name in items <==> Readable(cfg, username, name)
    ensures forall i, j :: 0 <= i < j < |items| ==> items[i] != items[j]
  {
    items := [];
    var user := UserOf(cfg, username);
    var rest := cfg.servers.Keys;
    while rest != {}
      invariant rest <= cfg.servers.Keys
      invariant forall name :: name in items <==> name !in rest && Readable(cfg, username, name)
      invariant forall i, j :: 0 <= i < j < |items| ==> items[i] != items[j]
    {
      var name :| name in rest;
      rest := rest - {name};
      if HasPermission(user, name, CONTAINER_READ) {
        items := items + [name];
      }
    }
  }

  /** The container branch: one entry per mount, its destination without the outer slashes. */
  method MountListing(docker: Docker, container: string) returns (items: seq<string>)
    ensures container !in docker ==> items == []
    ensures container in docker ==> |items| == |docker[container]|
    ensures container in docker ==>
              forall i :: 0 <= i < |items| ==> items[i] == Trim(docker[container][i].destination, '/')
  {
    items := [];
    if container in docker {
      var mounts := docker[container];
      for i := 0 to |mounts|
        invariant |items| == i
        invariant forall j :: 0 <= j < i ==> items[j] == Trim(mounts[j].destination, '/')
      {
        items := items + [Trim(mounts[i].destination, '/')];
      }
    }
  }

  lemma SlashComps(comps: seq<string>)
    requires AllPlain(comps) && comps != []
    ensures Rooted("/" + Join(comps, '/')) && Comps("/" + Join(comps, '/')) == comps
  {
    PlainIsNormal(true, comps);
    RenderComps(true, comps);
  }

  /** A name is listed at the root exactly when the path of that name resolves to a container root. */
  lemma RootListingResolves(cfg: Config, username: string, docker: Docker, name: string)
    requires Plain(name)
    ensures Readable(cfg, username, name) <==> MapPath(cfg, username, docker, "/" + name) == ContainerRoot
  {
    assert Join([name], '/') == name;
    SlashComps([name]);
    PartsOfClean("/" + name);
    NoUserHoldsNothing(name, CONTAINER_READ);
  }

  /** A listed single-component mount resolves to the cleaned source of the first mount of that name. */
  lemma MountListingResolves(cfg: Config, username: string, docker: Docker, container: string, name: string)
    requires Plain(container) && Plain(name) && Readable(cfg, username, container)
    requires container in docker && AbsoluteSources(docker)
    ensures var k := FirstMount(docker[container], name);
            MapPath(cfg, username, docker, "/" + container + "/" + name) ==
            if k < |docker[container]| then Host(Clean(docker[container][k].source)) else NotExist
  {
    var path := "/" + container + "/" + name;
    TwoComps(container, name);
    PartsOfClean(path);
    assert Parts(Clean(path)) == [container, name];
    NoUserHoldsNothing(container, CONTAINER_READ);
    var k := FirstMount(docker[container], name);
    if k < |docker[container]| {
      assert MapPath(cfg, username, docker, path).Host?;
      HostPosition(cfg, username, docker, path);
      assert Comps(path)[2..] == [];
    }
  }

  lemma TwoComps(container: string, name: string)
    requires Plain(container) && Plain(name)
    ensures var path := "/" + container + "/" + name; Rooted(path) && Comps(path) == [container, name]
  {
    var comps := [container, name];
    assert Join(comps[1..], '/') == name;
    assert "/" + Join(comps, '/') == "/" + container + "/" + name;
    SlashComps(comps);
  }

  /** A mount whose destination has several components is listed, but no path ever resolves through it. */
  lemma DeepMountNeverResolves(cfg: Config, username: string, docker: Docker, path: string)
    requires AbsoluteSources(docker) && MapPath(cfg, username, docker, path).Host?
    ensures var comps := Comps(path);
            && |comps| >= 2 && comps[0] in docker
            && var k := FirstMount(docker[comps[0]], comps[1]);
               k < |docker[comps[0]]| && '/' !in Trim(docker[comps[0]][k].destination, '/')
  {
    HostPosition(cfg, username, docker, path);
    CompsNormal(path);
    NormalFree(Rooted(path), Comps(path));
  }

  /** `path` resolves through mount `k` of container `c`. */
  ghost predicate Reaches(cfg: Config, username: string, docker: Docker, path: string, c: string, k: nat)
    requires c in docker
  {
    && MapPath(cfg, username, docker, path).Host?
    && |Comps(path)| >= 2 && Comps(path)[0] == c && FirstMount(docker[c], Comps(path)[1]) == k
  }

  /** Which of the listed mounts can be reached at all: exactly those whose trimmed destination is a single ordinary
      component that no earlier mount has. */
  lemma MountReachedExactlyWhen(cfg: Config, username: string, docker: Docker, c: string, k: nat)
    requires Plain(c) && Readable(cfg, username, c) && c in docker && k < |docker[c]|
    ensures (exists path :: Reaches(cfg, username, docker, path, c, k)) <==>
            var d := Trim(docker[c][k].destination, '/'); Plain(d) && FirstMount(docker[c], d) == k
  {
    var d := Trim(docker[c][k].destination, '/');
    if Plain(d) && FirstMount(docker[c], d) == k {
      var path := "/" + c + "/" + d;
      TwoComps(c, d);
      NoUserHoldsNothing(c, CONTAINER_READ);
      HostExactlyWhen(cfg, username, docker, path);
      assert Reaches(cfg, username, docker, path, c, k);
    }
    if path :| Reaches(cfg, username, docker, path, c, k) {
      CompsNormal(path);
      var comps := Comps(path);
      assert Kept(Rooted(path), comps[1]);
    }
  }
}
