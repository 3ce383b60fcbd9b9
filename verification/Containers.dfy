/** The container list and the permission gates of its actions (`internal/api/handlers_containers.go`). */
module Containers {
  import opened GoStrings
  import opened Permissions
  import opened Config

  // ---------- actions ----------

  datatype Action = Start | Stop | Kill | Backup | Restore | Remove

  /** The permission that the common action handler asks for; it knows no restore. */
  function ContainerToPerm(a: Action): string {
    match a
    case Start => CONTAINER_START
    case Stop => CONTAINER_STOP
    case Kill => CONTAINER_KILL
    case Backup => CONTAINER_BACKUP
    case Remove => CONTAINER_REMOVE
    case Restore => CONTAINER_EXECUTE
  }

  /** What the handler that runs the action asks for; restore has a handler of its own. */
  function GatePerm(a: Action): string {
    if a.Restore? then CONTAINER_RESTORE else ContainerToPerm(a)
  }

  predicate GateAccepts(u: User, server: string, a: Action) { HasPermission(u, server, GatePerm(a)) }

  predicate MayRead(u: User, server: string) { HasPermission(u, server, CONTAINER_READ) }

  predicate MayExecute(u: User, server: string) { HasPermission(u, server, CONTAINER_EXECUTE) }

  /** Which actions the configuration of a server supports. */
  predicate Supported(s: Server, a: Action) {
    match a
    case Start => s.image != ""
    case Stop => s.stop.Some?
    case Kill => s.stop.Some?
    case Backup => s.backup != []
    case Restore => s.backup != []
    case Remove => true
  }

  /** `calculateActions`: a slice that grows by what the configuration supports. */
  method CalculateActions(u: User, name: string, s: Server) returns (actions: seq<Action>)
    ensures actions == Actions(u, name, s)
  {
    if !MayExecute(u, name) {
      return [];
    }
    actions := [];
    if s.image != "" {
      actions := actions + [Start];
    }
    if s.stop.Some? {
      actions := actions + [Stop];
      actions := actions + [Kill];
    }
    if |s.backup| > 0 {
      actions := actions + [Backup];
      actions := actions + [Restore];
    }
    actions := actions + [Remove];
  }

  /** The same list as a value. */
  function Actions(u: User, name: string, s: Server): seq<Action> {
    if !MayExecute(u, name) then []
    else
      (if s.image != "" then [Start] else [])
      + (if s.stop.Some? then [Stop, Kill] else [])
      + (if s.backup != [] then [Backup, Restore] else [])
      + [Remove]
  }

  /** What is offered: everything the server supports, to whoever may execute everything, and to nobody else. */
  lemma OfferedExactlyWhen(u: User, name: string, s: Server, a: Action)
    ensures a in Actions(u, name, s) <==> MayExecute(u, name) && Supported(s, a)
  {
  }

  /** The order in which actions are listed. */
  function Place(a: Action): nat {
    match a
    case Start => 0
    case Stop => 1
    case Kill => 2
    case Backup => 3
    case Restore => 4
    case Remove => 5
  }

  /** Offered actions come in one fixed order, each at most once, so that the list is determined by its elements. */
  lemma OfferedInOrder(u: User, name: string, s: Server)
    ensures var r := Actions(u, name, s); forall i, j :: 0 <= i < j < |r| ==> Place(r[i]) < Place(r[j])
  {
  }

  function ActionName(a: Action): string {
    match a
    case Start => "start"
    case Stop => "stop"
    case Kill => "kill"
    case Backup => "backup"
    case Restore => "restore"
    case Remove => "remove"
  }

  lemma GateIsExecute(a: Action)
    ensures GatePerm(a) == "container.execute." + ActionName(a) && '.' !in ActionName(a)
  {
    match a
    case Start => assert CONTAINER_START == "container.execute." + "start";
    case Stop => assert CONTAINER_STOP == "container.execute." + "stop";
    case Kill => assert CONTAINER_KILL == "container.execute." + "kill";
    case Backup => assert CONTAINER_BACKUP == "container.execute." + "backup";
    case Restore => assert CONTAINER_RESTORE == "container.execute." + "restore";
    case Remove => assert CONTAINER_REMOVE == "container.execute." + "remove";
  }

  /** Every offered action passes the gate of the handler that runs it, for every permission map, whether the
      permission comes from the server's own entry or from "*". */
  lemma OfferedIsAccepted(u: User, name: string, s: Server, a: Action)
    requires a in Actions(u, name, s)
    ensures GateAccepts(u, name, a)
  {
    GateIsExecute(a);
    ExecuteCovers(ActionName(a));
    HoldsWhatItCovers(u, name, CONTAINER_EXECUTE, GatePerm(a));
  }

  const STARTER := User("", map["*" := [CONTAINER_START]])

  lemma StartDoesNotCoverExecute()
    ensures !MatchRecursive(CONTAINER_START, CONTAINER_EXECUTE)
  {
    GateIsExecute(Start);
    ExecuteParts("start");
    ExecuteStar();
    MatchIsCover(CONTAINER_START, CONTAINER_EXECUTE);
    StemlessMismatch(["container", "execute", "start"], ["container", "execute", "*"]);
  }

  lemma StemlessMismatch(p: seq<string>, r: seq<string>)
    requires |p| == |r| == 3 && p[2] != r[2] && p[0] != "*" && p[1] != "*" && p[2] != "*"
    ensures !Covers(p, r)
  {
    assert FirstStar(p) == 3;
  }

  lemma SingleGrant(held: string, name: string, required: string)
    ensures HasPermission(User("", map["*" := [held]]), name, required) <==> MatchRecursive(held, required)
  {
    var u := User("", map["*" := [held]]);
    assert PermsFor(u, "*") == [held];
    if MatchRecursive(held, required) {
      assert MatchRecursive(PermsFor(u, "*")[0], required);
    }
  }

  /** The converse fails: who holds only the permission to start may start, but is offered nothing. */
  lemma StartOnlyIsOfferedNothing(name: string, s: Server)
    ensures GateAccepts(STARTER, name, Start) && Actions(STARTER, name, s) == []
  {
    StartDoesNotCoverExecute();
    SingleGrant(CONTAINER_START, name, CONTAINER_EXECUTE);
    SingleGrant(CONTAINER_START, name, GatePerm(Start));
  }

  // ---------- the list ----------

  /** One container as Docker lists it; names start with a slash. */
  datatype Summary = Summary(id: string, names: seq<string>, state: string)

  datatype Item = Item(id: string, names: seq<string>, state: string, actions: seq<Action>, permissions: seq<string>)

  predicate NamesNonEmpty(cs: seq<Summary>) {
    forall i, j :: 0 <= i < |cs| && 0 <= j < |cs[i].names| ==> cs[i].names[j] != ""
  }

  function AddNames(m: map<string, Summary>, names: seq<string>, c: Summary): map<string, Summary>
    requires forall j :: 0 <= j < |names| ==> names[j] != ""
  {
    if names == [] then m else AddNames(m, names[..|names| - 1], c)[names[|names| - 1][1..] := c]
  }

  /** The containers by name, later ones winning. */
  function DockerMap(cs: seq<Summary>): map<string, Summary>
    requires NamesNonEmpty(cs)
  {
    if cs == [] then map[]
    else AddNames(DockerMap(cs[..|cs| - 1]), cs[|cs| - 1].names, cs[|cs| - 1])
  }

  function OneIf(held: bool, s: string): (r: seq<string>)
    ensures forall p :: p in r <==> held && p == s
  {
    if held then [s] else []
  }

  function PermissionList(u: User, name: string, execute: string): seq<string> {
    OneIf(MayRead(u, name), CONTAINER_READ)
    + OneIf(HasPermission(u, name, CONTAINER_WRITE), CONTAINER_WRITE)
    + OneIf(MayExecute(u, name), execute)
  }

  /** The entry of a configured server. */
  function ServerItem(u: User, docker: map<string, Summary>, name: string, s: Server): Item {
    Item(name, ["/" + name], if name in docker then docker[name].state else "missing",
         Actions(u, name, s), PermissionList(u, name, CONTAINER_EXECUTE))
  }

  /** The entry of a container that is not configured: no actions, and a differently spelt execute permission. */
  function DockerItem(u: User, c: Summary): Item
    requires c.names != [] && c.names[0] != ""
  {
    Item(c.id, c.names, c.state, [], PermissionList(u, c.names[0][1..], "execute"))
  }

  predicate Unmanaged(u: User, processed: set<string>, c: Summary)
    requires c.names != [] ==> c.names[0] != ""
  {
    c.names != [] && c.names[0][1..] !in processed && MayRead(u, c.names[0][1..])
  }

  /** The entries of the second loop, in Docker's order. */
  function Rest(u: User, processed: set<string>, cs: seq<Summary>): seq<Item>
    requires NamesNonEmpty(cs)
  {
    if cs == [] then []
    else
      var front, c := cs[..|cs| - 1], cs[|cs| - 1];
      Rest(u, processed, front) + if Unmanaged(u, processed, c) then [DockerItem(u, c)] else []
  }

  function Readable(u: User, servers: map<string, Server>): set<string> {
    set n | n in servers && MayRead(u, n)
  }

  /** `order` lists each element of `names` exactly once. */
  ghost predicate Enumerates(order: seq<string>, names: set<string>) {
    && (forall n :: n in order <==> n in names)
    && (forall i, j :: 0 <= i < j < |order| ==> order[i] != order[j])
  }

  function ServerItems(u: User, docker: map<string, Summary>, servers: map<string, Server>,
                       order: seq<string>): seq<Item>
    requires forall n :: n in order ==> n in servers
  {
    seq(|order|, i requires 0 <= i < |order| =>
      assert order[i] in order; ServerItem(u, docker, order[i], servers[order[i]]))
  }

  /** One entry per readable server in some order, then the readable containers that were not among them. */
  ghost predicate IsListing(r: seq<Item>, u: User, servers: map<string, Server>, cs: seq<Summary>, order: seq<string>)
    requires NamesNonEmpty(cs)
  {
    var docker := DockerMap(cs);
    && Enumerates(order, Readable(u, servers))
    && (forall n :: n in order ==> n in servers)
    && r == ServerItems(u, docker, servers, order) + Rest(u, Readable(u, servers) * docker.Keys, cs)
  }

  /** `ListContainers` for a user, given the configuration and Docker's answer (`None` when Docker fails). */
  method ListContainers(cfg: Config, username: string, answer: Option<seq<Summary>>) returns (r: Option<seq<Item>>)
    requires answer.Some? ==> NamesNonEmpty(answer.value)
    ensures r.Some? <==> answer.Some?
    ensures r.Some? ==> exists order :: IsListing(r.value, UserOf(cfg, username), cfg.servers, answer.value, order)
  {
    if answer.None? {
      return None;
    }
    var cs := answer.value;
    var docker := IndexByName(cs);
    var user := UserOf(cfg, username);
    var mine, processed, order := ListServers(user, cfg.servers, docker);
    var others := ListOthers(user, processed, cs);
    r := Some(mine + others);
    assert IsListing(r.value, user, cfg.servers, cs, order);
  }

  /** The second loop, in Docker's order. */
  method ListOthers(u: User, processed: set<string>, cs: seq<Summary>) returns (result: seq<Item>)
    requires NamesNonEmpty(cs)
    ensures result == Rest(u, processed, cs)
  {
    result := [];
    for i := 0 to |cs|
      invariant result == Rest(u, processed, cs[..i])
    {
      assert cs[..i + 1][..i] == cs[..i];
      var c := cs[i];
      if |c.names| != 0 {
        var name := c.names[0][1..];
        if !(name in processed || !MayRead(u, name)) {
          result := result + [DockerItem(u, c)];
        }
      }
    }
    assert cs[..|cs|] == cs;
  }

  method IndexByName(cs: seq<Summary>) returns (docker: map<string, Summary>)
    requires NamesNonEmpty(cs)
    ensures docker == DockerMap(cs)
  {
    docker := map[];
    for i := 0 to |cs|
      invariant docker == DockerMap(cs[..i])
    {
      assert cs[..i + 1][..i] == cs[..i];
      var c := cs[i];
      for j := 0 to |c.names|
        invariant docker == AddNames(DockerMap(cs[..i]), c.names[..j], c)
      {
        assert c.names[..j + 1][..j] == c.names[..j];
        docker := docker[c.names[j][1..] := c];
      }
      assert c.names[..|c.names|] == c.names;
    }
    assert cs[..|cs|] == cs;
  }

  lemma OneMoreItem(u: User, docker: map<string, Summary>, servers: map<string, Server>, order: seq<string>, n: string)
    requires n in servers && forall m :: m in order ==> m in servers
    ensures ServerItems(u, docker, servers, order + [n]) ==
            ServerItems(u, docker, servers, order) + [ServerItem(u, docker, n, servers[n])]
  {
  }

  /** The first loop, in map order. */
  method ListServers(u: User, servers: map<string, Server>, docker: map<string, Summary>)
    returns (result: seq<Item>, processed: set<string>, ghost order: seq<string>)
    ensures Enumerates(order, Readable(u, servers)) && forall n :: n in order ==> n in servers
    ensures result == ServerItems(u, docker, servers, order)
    ensures processed == Readable(u, servers) * docker.Keys
  {
    result, processed, order := [], {}, [];
    var rest := servers.Keys;
    while rest != {}
      invariant rest <= servers.Keys
      invariant Enumerates(order, Readable(u, servers) - rest) && forall n :: n in order ==> n in servers
      invariant result == ServerItems(u, docker, servers, order)
      invariant processed == (Readable(u, servers) - rest) * docker.Keys
    {
      var name :| name in rest;
      rest := rest - {name};
      if MayRead(u, name) {
        var actions := CalculateActions(u, name, servers[name]);
        var state := "missing";
        if name in docker {
          state := docker[name].state;
          processed := processed + {name};
        }
        var item := Item(name, ["/" + name], state, actions, PermissionList(u, name, CONTAINER_EXECUTE));
        assert item == ServerItem(u, docker, name, servers[name]);
        OneMoreItem(u, docker, servers, order, name);
        result := result + [item];
        order := order + [name];
      }
    }
  }

  // ---------- an exact outer join ----------

  /** Each Docker container has one name, and no two share it. */
  ghost predicate UniqueNames(cs: seq<Summary>) {
    && (forall i :: 0 <= i < |cs| ==> |cs[i].names| == 1 && cs[i].names[0] != "" && cs[i].names[0][0] == '/')
    && (forall i, j :: 0 <= i < j < |cs| ==> cs[i].names[0] != cs[j].names[0])
  }

  function NameOf(c: Summary): string
    requires |c.names| == 1 && c.names[0] != ""
  {
    c.names[0][1..]
  }

  lemma DockerMapLast(cs: seq<Summary>)
    requires UniqueNames(cs) && NamesNonEmpty(cs) && cs != []
    ensures var front, c := cs[..|cs| - 1], cs[|cs| - 1];
            UniqueNames(front) && NamesNonEmpty(front) && DockerMap(cs) == DockerMap(front)[NameOf(c) := c]
  {
    var front, c := cs[..|cs| - 1], cs[|cs| - 1];
    assert c.names[..|c.names| - 1] == [];
    assert AddNames(DockerMap(front), c.names, c) == AddNames(DockerMap(front), [], c)[NameOf(c) := c];
  }

  lemma NamesDiffer(cs: seq<Summary>, i: nat, j: nat)
    requires UniqueNames(cs) && i < j < |cs|
    ensures NameOf(cs[i]) != NameOf(cs[j])
  {
    assert cs[i].names[0] == "/" + NameOf(cs[i]) && cs[j].names[0] == "/" + NameOf(cs[j]);
  }

  lemma {:induction false} DockerMapHas(cs: seq<Summary>, i: nat)
    requires UniqueNames(cs) && NamesNonEmpty(cs) && i < |cs|
    ensures NameOf(cs[i]) in DockerMap(cs) && DockerMap(cs)[NameOf(cs[i])] == cs[i]
    decreases |cs|
  {
    DockerMapLast(cs);
    if i < |cs| - 1 {
      NamesDiffer(cs, i, |cs| - 1);
      DockerMapHas(cs[..|cs| - 1], i);
    }
  }

  lemma {:induction false} DockerMapFrom(cs: seq<Summary>, n: string) returns (i: nat)
    requires UniqueNames(cs) && NamesNonEmpty(cs) && n in DockerMap(cs)
    ensures i < |cs| && NameOf(cs[i]) == n
    decreases |cs|
  {
    DockerMapLast(cs);
    i := |cs| - 1;
    if n != NameOf(cs[i]) {
      i := DockerMapFrom(cs[..|cs| - 1], n);
    }
  }

  /** `item` is the entry of the unmanaged container `i`. */
  ghost predicate Comes(u: User, processed: set<string>, cs: seq<Summary>, i: nat, item: Item)
    requires NamesNonEmpty(cs)
  {
    i < |cs| && Unmanaged(u, processed, cs[i]) && item == DockerItem(u, cs[i])
  }

  ghost predicate ComesFromSome(u: User, processed: set<string>, cs: seq<Summary>, item: Item)
    requires NamesNonEmpty(cs)
  {
    exists i: nat :: Comes(u, processed, cs, i, item)
  }

  /** The second part: each entry is that of an unmanaged readable container ... */
  lemma {:induction false} RestFrom(u: User, processed: set<string>, cs: seq<Summary>, k: nat)
    requires NamesNonEmpty(cs) && k < |Rest(u, processed, cs)|
    ensures ComesFromSome(u, processed, cs, Rest(u, processed, cs)[k])
    decreases |cs|
  {
    var n := |cs| - 1;
    var front := cs[..n];
    if k < |Rest(u, processed, front)| {
      RestFrom(u, processed, front, k);
      var i: nat :| Comes(u, processed, front, i, Rest(u, processed, front)[k]);
      assert Comes(u, processed, cs, i, Rest(u, processed, cs)[k]);
    } else {
      assert Comes(u, processed, cs, n, Rest(u, processed, cs)[k]);
    }
  }

  /** ... each such container has an entry ... */
  lemma {:induction false} RestHas(u: User, processed: set<string>, cs: seq<Summary>, i: nat)
    requires NamesNonEmpty(cs) && i < |cs| && Unmanaged(u, processed, cs[i])
    ensures DockerItem(u, cs[i]) in Rest(u, processed, cs)
    decreases |cs|
  {
    var front := cs[..|cs| - 1];
    if i < |cs| - 1 {
      assert front[i] == cs[i];
      RestHas(u, processed, front, i);
      assert Rest(u, processed, front) <= Rest(u, processed, cs);
    } else {
      assert Rest(u, processed, cs)[|Rest(u, processed, front)|] == DockerItem(u, cs[i]);
    }
  }

  lemma LastDiffers(u: User, processed: set<string>, cs: seq<Summary>, j: nat)
    requires UniqueNames(cs) && NamesNonEmpty(cs) && cs != [] && j < |Rest(u, processed, cs[..|cs| - 1])|
    ensures Rest(u, processed, cs[..|cs| - 1])[j].names != cs[|cs| - 1].names
  {
    var n := |cs| - 1;
    var front := cs[..n];
    RestFrom(u, processed, front, j);
    var i: nat :| Comes(u, processed, front, i, Rest(u, processed, front)[j]);
    assert front[i] == cs[i];
    assert cs[i].names[0] != cs[n].names[0];
  }

  /** ... and no two entries have the same names. */
  lemma {:induction false} RestDistinct(u: User, processed: set<string>, cs: seq<Summary>, j: nat, k: nat)
    requires UniqueNames(cs) && NamesNonEmpty(cs) && j < k < |Rest(u, processed, cs)|
    ensures Rest(u, processed, cs)[j].names != Rest(u, processed, cs)[k].names
    decreases |cs|
  {
    var front := cs[..|cs| - 1];
    assert Rest(u, processed, front) <= Rest(u, processed, cs);
    if k < |Rest(u, processed, front)| {
      RestDistinct(u, processed, front, j, k);
    } else {
      LastDiffers(u, processed, cs, j);
      assert Rest(u, processed, cs)[k] == DockerItem(u, cs[|cs| - 1]);
    }
  }

  /** Index `k` of the list is the one entry for `n`. */
  ghost predicate OnlyEntry(r: seq<Item>, n: string, k: nat) {
    k < |r| && forall j :: 0 <= j < |r| ==> (r[j].names == ["/" + n] <==> j == k)
  }

  lemma SlashInjective(a: string, b: string)
    ensures ["/" + a] == ["/" + b] <==> a == b
  {
    assert ("/" + a)[1..] == a && ("/" + b)[1..] == b;
    assert ["/" + a][0] == "/" + a && ["/" + b][0] == "/" + b;
  }

  lemma NameIsSlash(cs: seq<Summary>, i: nat)
    requires UniqueNames(cs) && i < |cs|
    ensures cs[i].names == ["/" + NameOf(cs[i])]
  {
    assert cs[i].names[0] == "/" + NameOf(cs[i]);
  }

  ghost predicate Known(servers: map<string, Server>, cs: seq<Summary>, n: string)
    requires NamesNonEmpty(cs)
  {
    n in servers || n in DockerMap(cs)
  }

  /** What an entry says about the name it stands for. */
  ghost predicate EntryFor(item: Item, u: User, servers: map<string, Server>, cs: seq<Summary>, n: string)
    requires NamesNonEmpty(cs)
  {
    && item.names == ["/" + n] && MayRead(u, n) && Known(servers, cs, n)
    && item.state == (if n in DockerMap(cs) then DockerMap(cs)[n].state else "missing")
    && item.actions == (if n in servers then Actions(u, n, servers[n]) else [])
    && (n in servers ==> item.id == n) && (n !in servers ==> n in DockerMap(cs) && item.id == DockerMap(cs)[n].id)
    && PermissionsShown(item.permissions, u, n, ExecuteName(n in servers))
  }

  /** How the permission to execute is spelt in an entry. */
  function ExecuteName(configured: bool): string { if configured then CONTAINER_EXECUTE else "execute" }

  /** The list names reading, writing and executing, each exactly if the user holds it. */
  ghost predicate PermissionsShown(permissions: seq<string>, u: User, n: string, execute: string) {
    forall p :: p in permissions <==>
      || (p == CONTAINER_READ && MayRead(u, n))
      || (p == CONTAINER_WRITE && HasPermission(u, n, CONTAINER_WRITE))
      || (p == execute && MayExecute(u, n))
  }

  lemma PermissionListShows(u: User, n: string, execute: string)
    ensures PermissionsShown(PermissionList(u, n, execute), u, n, execute)
  {
  }

  /** What the list and the gates ask for, by name. */
  lemma AsksFor(u: User, n: string)
    ensures MayRead(u, n) <==> HasPermission(u, n, "container.read")
    ensures MayExecute(u, n) <==> HasPermission(u, n, "container.execute.*")
    ensures CONTAINER_WRITE == "container.write" && ContainerToPerm(Restore) == "container.execute.*"
  {
  }

  ghost predicate EntryForSome(item: Item, u: User, servers: map<string, Server>, cs: seq<Summary>)
    requires NamesNonEmpty(cs)
  {
    exists m :: EntryFor(item, u, servers, cs, m)
  }

  lemma ServerItemIsEntry(u: User, servers: map<string, Server>, cs: seq<Summary>, n: string)
    requires NamesNonEmpty(cs) && n in servers && MayRead(u, n)
    ensures EntryFor(ServerItem(u, DockerMap(cs), n, servers[n]), u, servers, cs, n)
  {
    PermissionListShows(u, n, CONTAINER_EXECUTE);
  }

  lemma DockerItemIsEntry(u: User, servers: map<string, Server>, cs: seq<Summary>, i: nat)
    requires UniqueNames(cs) && NamesNonEmpty(cs) && i < |cs|
    requires MayRead(u, NameOf(cs[i])) && NameOf(cs[i]) !in servers
    ensures EntryFor(DockerItem(u, cs[i]), u, servers, cs, NameOf(cs[i]))
  {
    NameIsSlash(cs, i);
    DockerMapHas(cs, i);
    PermissionListShows(u, NameOf(cs[i]), "execute");
  }

  /** Each entry stands for one name; entries of the second part are not configured. */
  lemma EntryStandsFor(r: seq<Item>, u: User, servers: map<string, Server>, cs: seq<Summary>, order: seq<string>,
                       k: nat) returns (n: string)
    requires UniqueNames(cs) && NamesNonEmpty(cs) && IsListing(r, u, servers, cs, order) && k < |r|
    ensures EntryFor(r[k], u, servers, cs, n)
    ensures if k < |order| then n == order[k] else n !in servers
  {
    if k < |order| {
      n := order[k];
      assert n in order;
      ServerItemIsEntry(u, servers, cs, n);
    } else {
      RestAt(r, u, servers, cs, order, k);
      var i := UnmanagedAt(u, servers, cs, k - |order|);
      n := NameOf(cs[i]);
      DockerItemIsEntry(u, servers, cs, i);
    }
  }

  lemma UnmanagedAt(u: User, servers: map<string, Server>, cs: seq<Summary>, k: nat) returns (i: nat)
    requires UniqueNames(cs) && NamesNonEmpty(cs)
    requires k < |Rest(u, Readable(u, servers) * DockerMap(cs).Keys, cs)|
    ensures i < |cs| && Rest(u, Readable(u, servers) * DockerMap(cs).Keys, cs)[k] == DockerItem(u, cs[i])
    ensures MayRead(u, NameOf(cs[i])) && NameOf(cs[i]) !in servers
  {
    var processed := Readable(u, servers) * DockerMap(cs).Keys;
    RestFrom(u, processed, cs, k);
    i :| Comes(u, processed, cs, i, Rest(u, processed, cs)[k]);
    DockerMapHas(cs, i);
  }

  lemma RestAt(r: seq<Item>, u: User, servers: map<string, Server>, cs: seq<Summary>, order: seq<string>, k: nat)
    requires NamesNonEmpty(cs) && IsListing(r, u, servers, cs, order) && |order| <= k < |r|
    ensures var rest := Rest(u, Readable(u, servers) * DockerMap(cs).Keys, cs);
            k - |order| < |rest| && |r| == |order| + |rest| && r[k] == rest[k - |order|]
  {
  }

  lemma RestIndex(r: seq<Item>, u: User, servers: map<string, Server>, cs: seq<Summary>, order: seq<string>,
                  h: nat) returns (k: nat)
    requires NamesNonEmpty(cs) && IsListing(r, u, servers, cs, order)
    requires h < |Rest(u, Readable(u, servers) * DockerMap(cs).Keys, cs)|
    ensures k < |r| && r[k] == Rest(u, Readable(u, servers) * DockerMap(cs).Keys, cs)[h]
  {
    k := |order| + h;
  }

  lemma RestDiffers(r: seq<Item>, u: User, servers: map<string, Server>, cs: seq<Summary>, order: seq<string>, j: nat,
                    k: nat)
    requires UniqueNames(cs) && NamesNonEmpty(cs) && IsListing(r, u, servers, cs, order) && |order| <= j < k < |r|
    ensures r[j].names != r[k].names
  {
    RestAt(r, u, servers, cs, order, j);
    RestAt(r, u, servers, cs, order, k);
    RestDistinct(u, Readable(u, servers) * DockerMap(cs).Keys, cs, j - |order|, k - |order|);
  }

  lemma EntriesDiffer(r: seq<Item>, u: User, servers: map<string, Server>, cs: seq<Summary>, order: seq<string>,
                      j: nat, k: nat)
    requires UniqueNames(cs) && NamesNonEmpty(cs) && IsListing(r, u, servers, cs, order) && j < k < |r|
    ensures r[j].names != r[k].names
  {
    var m := EntryStandsFor(r, u, servers, cs, order, j);
    var n := EntryStandsFor(r, u, servers, cs, order, k);
    SlashInjective(m, n);
    if j < |order| {
      assert m in order && order[j] == m;
      assert k < |order| ==> order[j] != order[k];
    } else {
      RestDiffers(r, u, servers, cs, order, j, k);
    }
  }

  lemma EntryExists(r: seq<Item>, u: User, servers: map<string, Server>, cs: seq<Summary>, order: seq<string>,
                    n: string) returns (k: nat)
    requires UniqueNames(cs) && NamesNonEmpty(cs) && IsListing(r, u, servers, cs, order)
    requires MayRead(u, n) && Known(servers, cs, n)
    ensures k < |r| && r[k].names == ["/" + n]
  {
    if n in servers {
      assert n in Readable(u, servers) && n in order;
      k :| k < |order| && order[k] == n;
    } else {
      k := UnmanagedExists(r, u, servers, cs, order, n);
    }
  }

  lemma UnmanagedExists(r: seq<Item>, u: User, servers: map<string, Server>, cs: seq<Summary>, order: seq<string>,
                        n: string) returns (k: nat)
    requires UniqueNames(cs) && NamesNonEmpty(cs) && IsListing(r, u, servers, cs, order)
    requires MayRead(u, n) && n !in servers && n in DockerMap(cs)
    ensures k < |r| && r[k].names == ["/" + n]
  {
    var i := DockerMapFrom(cs, n);
    NameIsSlash(cs, i);
    k := UnmanagedIndex(u, Readable(u, servers) * DockerMap(cs).Keys, cs, i);
    k := RestIndex(r, u, servers, cs, order, k);
  }

  lemma UnmanagedIndex(u: User, processed: set<string>, cs: seq<Summary>, i: nat) returns (k: nat)
    requires UniqueNames(cs) && NamesNonEmpty(cs) && i < |cs| && Unmanaged(u, processed, cs[i])
    ensures k < |Rest(u, processed, cs)| && Rest(u, processed, cs)[k].names == cs[i].names
  {
    RestHas(u, processed, cs, i);
    var rest := Rest(u, processed, cs);
    assert DockerItem(u, cs[i]) in rest;
    k :| k < |rest| && rest[k] == DockerItem(u, cs[i]);
  }

  /** The list is an exact outer join of configuration and Docker, for any order of the maps: a name has an entry
      exactly when the user may read it and one side knows it, and then exactly one, which carries Docker's state
      or "missing", and the actions of a configured server; there are no other entries. */
  lemma ListIsOuterJoin(r: seq<Item>, u: User, servers: map<string, Server>, cs: seq<Summary>, order: seq<string>,
                        n: string)
    requires UniqueNames(cs) && NamesNonEmpty(cs) && IsListing(r, u, servers, cs, order)
    ensures MayRead(u, n) && Known(servers, cs, n) <==> exists k: nat :: OnlyEntry(r, n, k)
    ensures forall k: nat :: k < |r| && r[k].names == ["/" + n] ==> EntryFor(r[k], u, servers, cs, n)
    ensures forall k: nat :: k < |r| ==> EntryForSome(r[k], u, servers, cs)
  {
    EntriesAreMeant(r, u, servers, cs, order, n);
    if MayRead(u, n) && Known(servers, cs, n) {
      EntryIsOnly(r, u, servers, cs, order, n);
    } else if k: nat :| OnlyEntry(r, n, k) {
      OnlyEntryIsThere(r, n, k);
    }
  }

  lemma OnlyEntryIsThere(r: seq<Item>, n: string, k: nat)
    requires OnlyEntry(r, n, k)
    ensures r[k].names == ["/" + n]
  {
  }

  lemma EntriesAreMeant(r: seq<Item>, u: User, servers: map<string, Server>, cs: seq<Summary>, order: seq<string>,
                        n: string)
    requires UniqueNames(cs) && NamesNonEmpty(cs) && IsListing(r, u, servers, cs, order)
    ensures forall k: nat :: k < |r| && r[k].names == ["/" + n] ==> EntryFor(r[k], u, servers, cs, n)
    ensures forall k: nat :: k < |r| ==> EntryForSome(r[k], u, servers, cs)
  {
    forall k: nat | k < |r|
      ensures EntryForSome(r[k], u, servers, cs)
      ensures r[k].names == ["/" + n] ==> EntryFor(r[k], u, servers, cs, n)
    {
      var m := EntryStandsFor(r, u, servers, cs, order, k);
      SlashInjective(m, n);
    }
  }

  lemma EntryIsOnly(r: seq<Item>, u: User, servers: map<string, Server>, cs: seq<Summary>, order: seq<string>,
                    n: string)
    requires UniqueNames(cs) && NamesNonEmpty(cs) && IsListing(r, u, servers, cs, order)
    requires MayRead(u, n) && Known(servers, cs, n)
    ensures exists k: nat :: OnlyEntry(r, n, k)
  {
    var k := EntryExists(r, u, servers, cs, order, n);
    forall j: nat | j < |r| && j != k
      ensures r[j].names != ["/" + n]
    {
      if j < k {
        EntriesDiffer(r, u, servers, cs, order, j, k);
      } else {
        EntriesDiffer(r, u, servers, cs, order, k, j);
      }
    }
    assert OnlyEntry(r, n, k);
  }

  /** What the list offers for a listed server passes both the middleware and the gate of the handler. */
  lemma ListedActionsAreAccepted(r: seq<Item>, u: User, servers: map<string, Server>, cs: seq<Summary>,
                                 order: seq<string>, k: nat, a: Action)
    requires UniqueNames(cs) && NamesNonEmpty(cs) && IsListing(r, u, servers, cs, order)
    requires k < |r| && a in r[k].actions
    ensures exists n :: r[k].names == ["/" + n] && n in servers && MayRead(u, n) && GateAccepts(u, n, a)
  {
    var n := EntryStandsFor(r, u, servers, cs, order, k);
    OfferedIsAccepted(u, n, servers[n], a);
  }
}
