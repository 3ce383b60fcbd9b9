/** Hierarchical permissions with wildcards (`internal/config/config.go`). */
module Permissions {
  import opened GoStrings

  const FILE_WRITE := "file.write"
  const CONTAINER_READ := "container.read"
  const CONTAINER_WRITE := "container.write"
  const CONTAINER_EXECUTE := "container.execute.*"
  const CONTAINER_START := "container.execute.start"
  const CONTAINER_STOP := "container.execute.stop"
  const CONTAINER_KILL := "container.execute.kill"
  const CONTAINER_BACKUP := "container.execute.backup"
  const CONTAINER_RESTORE := "container.execute.restore"
  const CONTAINER_REMOVE := "container.execute.remove"

  /** A user; an absent or null permission map is the empty map. */
  datatype User = User(password: string, permissions: map<string, seq<string>>)

  const NO_USER := User("", map[])

  /** The component loop of `matchRecursive`, from index `i` on. */
  predicate MatchFrom(user: seq<string>, required: seq<string>, i: nat)
    decreases |user| - i
  {
    if i >= |user| then |user| == |required|
    else if user[i] == "*" then true
    else if i >= |required| || user[i] != required[i] then false
    else MatchFrom(user, required, i + 1)
  }

  predicate MatchRecursive(user: string, required: string) {
    if user == "*" then true
    else if user == required then true
    else MatchFrom(Split(user, '.'), Split(required, '.'), 0)
  }

  predicate CheckPermission(perms: seq<string>, required: string) {
    exists i :: 0 <= i < |perms| && MatchRecursive(perms[i], required)
  }

  function PermsFor(u: User, server: string): seq<string> {
    if server in u.permissions then u.permissions[server] else []
  }

  predicate HasPermission(u: User, server: string, required: string) {
    CheckPermission(PermsFor(u, server), required) || CheckPermission(PermsFor(u, "*"), required)
  }

  // ---------- what a match means ----------

  /** The index of the first wildcard component; the length if there is none. */
  function FirstStar(parts: seq<string>): (k: nat)
    ensures k <= |parts|
    ensures k < |parts| ==> parts[k] == "*"
    ensures forall j :: 0 <= j < k ==> parts[j] != "*"
  {
    if parts == [] then 0
    else if parts[0] == "*" then 0
    else 1 + FirstStar(parts[1..])
  }

  predicate Wild(parts: seq<string>) { FirstStar(parts) < |parts| }

  /** The components up to and including the first wildcard; all of them if there is none. */
  function Stem(parts: seq<string>): seq<string> {
    if Wild(parts) then parts[..FirstStar(parts) + 1] else parts
  }

  predicate AgreeBelow(a: seq<string>, b: seq<string>, k: nat) {
    k <= |a| && k <= |b| && forall j :: 0 <= j < k ==> a[j] == b[j]
  }

  /** `required` starts with what stands before the first wildcard of `user`. */
  predicate Covers(user: seq<string>, required: seq<string>) {
    AgreeBelow(user, required, FirstStar(user)) && (!Wild(user) ==> |user| == |required|)
  }

  lemma {:induction false} MatchFromCovers(user: seq<string>, required: seq<string>, i: nat)
    requires i <= FirstStar(user) && AgreeBelow(user, required, i)
    ensures MatchFrom(user, required, i) <==> Covers(user, required)
    decreases |user| - i
  {
    if i < FirstStar(user) && i < |required| && user[i] == required[i] {
      MatchFromCovers(user, required, i + 1);
    }
  }

  /** The loop alone decides the match: both shortcuts before it are redundant. */
  lemma MatchIsCover(user: string, required: string)
    ensures MatchRecursive(user, required) <==> MatchFrom(Split(user, '.'), Split(required, '.'), 0)
    ensures MatchRecursive(user, required) <==> Covers(Split(user, '.'), Split(required, '.'))
  {
    MatchFromCovers(Split(user, '.'), Split(required, '.'), 0);
    if user == "*" {
      SplitOfFree("*", '.');
    }
  }

  /** The length comparison after the loop never accepts anything: the equality test got there first. */
  lemma FinalTestNeverAccepts(user: string, required: string)
    requires user != required && !Wild(Split(user, '.'))
    ensures !MatchRecursive(user, required)
  {
    MatchIsCover(user, required);
    SplitInjective(user, required, '.');
    var u, r := Split(user, '.'), Split(required, '.');
    assert Covers(u, r) ==> u == r;
  }

  /** The loop accepts a pattern for itself, wildcards included. */
  lemma LoopReflexive(p: string)
    ensures MatchFrom(Split(p, '.'), Split(p, '.'), 0)
  {
    MatchIsCover(p, p);
  }

  lemma CoversTransitive(p: seq<string>, q: seq<string>, r: seq<string>)
    requires Covers(p, q) && Covers(q, r)
    ensures Covers(p, r)
  {
    if FirstStar(q) < FirstStar(p) {
      assert false;
    }
  }

  lemma MutualCover(p: seq<string>, q: seq<string>)
    requires Covers(p, q) && Covers(q, p)
    ensures Stem(p) == Stem(q)
  {
    var j, k := FirstStar(p), FirstStar(q);
    if j < k {
      assert false;
    }
    if k < j {
      assert false;
    }
    assert Wild(p) == Wild(q);
  }

  lemma SameStemCovers(p: seq<string>, q: seq<string>)
    requires Stem(p) == Stem(q)
    ensures Covers(p, q)
  {
    var s := Stem(p);
    var j, k := FirstStar(p), FirstStar(q);
    assert forall i :: 0 <= i < |s| ==> p[i] == s[i] == q[i];
    if Wild(p) {
      assert s[j] == "*" && q[j] == "*";
    } else if Wild(q) {
      assert false;
    }
  }

  /** Matching is transitive when required permissions are also read as patterns. */
  lemma MatchTransitive(p: string, q: string, r: string)
    requires MatchRecursive(p, q) && MatchRecursive(q, r)
    ensures MatchRecursive(p, r)
  {
    MatchIsCover(p, q);
    MatchIsCover(q, r);
    MatchIsCover(p, r);
    CoversTransitive(Split(p, '.'), Split(q, '.'), Split(r, '.'));
  }

  /** Two patterns grant the same permissions exactly when they agree up to the first wildcard. */
  lemma MutualMatch(p: string, q: string)
    ensures (forall r :: MatchRecursive(p, r) <==> MatchRecursive(q, r)) <==> Stem(Split(p, '.')) == Stem(Split(q, '.'))
  {
    MatchIsCover(p, q);
    MatchIsCover(q, p);
    if forall r :: MatchRecursive(p, r) <==> MatchRecursive(q, r) {
      assert MatchRecursive(p, p) && MatchRecursive(q, q);
      MutualCover(Split(p, '.'), Split(q, '.'));
    }
    if Stem(Split(p, '.')) == Stem(Split(q, '.')) {
      SameStemCovers(Split(p, '.'), Split(q, '.'));
      SameStemCovers(Split(q, '.'), Split(p, '.'));
      forall r
        ensures MatchRecursive(p, r) <==> MatchRecursive(q, r)
      {
        if MatchRecursive(q, r) { MatchTransitive(p, q, r); }
        if MatchRecursive(p, r) { MatchTransitive(q, p, r); }
      }
    }
  }

  /** Whoever holds a permission holds everything that permission matches, per server or through "*". */
  lemma HoldsWhatItCovers(u: User, server: string, held: string, required: string)
    requires HasPermission(u, server, held) && MatchRecursive(held, required)
    ensures HasPermission(u, server, required)
  {
    if CheckPermission(PermsFor(u, server), held) {
      var ps := PermsFor(u, server);
      var i :| 0 <= i < |ps| && MatchRecursive(ps[i], held);
      MatchTransitive(ps[i], held, required);
    } else {
      var ps := PermsFor(u, "*");
      var i :| 0 <= i < |ps| && MatchRecursive(ps[i], held);
      MatchTransitive(ps[i], held, required);
    }
  }

  /** Some grant of the entry for `server` covers the required permission. */
  ghost predicate Grants(u: User, server: string, required: string) {
    server in u.permissions && exists p :: p in u.permissions[server] && Covers(Split(p, '.'), Split(required, '.'))
  }

  /** What a permission map means: any one grant suffices, of the server's own entry or of the entry "*". */
  lemma HasPermissionExactlyWhen(u: User, server: string, required: string)
    ensures HasPermission(u, server, required) <==> Grants(u, server, required) || Grants(u, "*", required)
  {
    CheckIsGrant(u, server, required);
    CheckIsGrant(u, "*", required);
  }

  lemma CheckIsGrant(u: User, server: string, required: string)
    ensures CheckPermission(PermsFor(u, server), required) <==> Grants(u, server, required)
  {
    var ps := PermsFor(u, server);
    if i :| 0 <= i < |ps| && MatchRecursive(ps[i], required) {
      MatchIsCover(ps[i], required);
      assert ps[i] in u.permissions[server];
    }
    if server in u.permissions {
      if p :| p in u.permissions[server] && Covers(Split(p, '.'), Split(required, '.')) {
        MatchIsCover(p, required);
        var i :| 0 <= i < |ps| && ps[i] == p;
      }
    }
  }

  /** `container.execute.*` covers each single execute permission. */
  lemma ExecuteCovers(name: string)
    requires '.' !in name
    ensures MatchRecursive(CONTAINER_EXECUTE, "container.execute." + name)
  {
    MatchIsCover(CONTAINER_EXECUTE, "container.execute." + name);
    ExecuteParts(name);
    ExecuteStar();
  }

  lemma ExecuteStar()
    ensures Split(CONTAINER_EXECUTE, '.') == ["container", "execute", "*"]
    ensures FirstStar(["container", "execute", "*"]) == 2
  {
    assert CONTAINER_EXECUTE == "container.execute." + "*";
    ExecuteParts("*");
    FirstStarIs(["container", "execute", "*"], 2);
  }

  lemma FirstStarIs(parts: seq<string>, k: nat)
    requires k < |parts| && parts[k] == "*" && forall j :: 0 <= j < k ==> parts[j] != "*"
    ensures FirstStar(parts) == k
  {
  }

  lemma ExecuteParts(name: string)
    requires '.' !in name
    ensures Split("container.execute." + name, '.') == ["container", "execute", name]
  {
    var parts := ["container", "execute", name];
    assert Join(parts[1..], '.') == "execute" + ['.'] + name;
    assert "container.execute." + name == Join(parts, '.');
    SplitJoin(parts, '.');
  }
}
