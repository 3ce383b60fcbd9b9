/** Go's lexical path rules: `filepath.Clean`, `Rel` and `Join` on slash-separated paths. */
module Paths {
  import opened GoStrings

  /** A single ordinary path component. */
  predicate Plain(c: string) {
    c != "" && c != "." && c != ".." && '/' !in c
  }

  predicate AllPlain(comps: seq<string>) {
    forall i :: 0 <= i < |comps| ==> Plain(comps[i])
  }

  /** One step of cleaning: what component `c` does to the components kept so far. */
  function Push(rooted: bool, acc: seq<string>, c: string): seq<string> {
    if c == "" || c == "." then acc
    else if c == ".." then
      if acc != [] && acc[|acc| - 1] != ".." then acc[..|acc| - 1]
      else if rooted then acc
      else acc + [".."]
    else acc + [c]
  }

  function Walk(rooted: bool, acc: seq<string>, parts: seq<string>): seq<string>
    decreases |parts|
  {
    if parts == [] then acc else Walk(rooted, Push(rooted, acc, parts[0]), parts[1..])
  }

  predicate Rooted(s: string) { s != "" && s[0] == '/' }

  /** The components that cleaning keeps. */
  function Comps(s: string): seq<string> {
    Walk(Rooted(s), [], Split(s, '/'))
  }

  function Render(rooted: bool, comps: seq<string>): string {
    if rooted then "/" + Join(comps, '/')
    else if comps == [] then "."
    else Join(comps, '/')
  }

  /** `filepath.Clean` */
  function Clean(s: string): string {
    Render(Rooted(s), Comps(s))
  }

  /** `strings.Split(strings.Trim(s, "/"), "/")` */
  function Parts(s: string): seq<string> {
    Split(Trim(s, '/'), '/')
  }

  /** `filepath.Join` of two elements. */
  function Join2(a: string, b: string): string {
    if a != "" then Clean(a + "/" + b)
    else if b != "" then Clean(b)
    else ""
  }

  function CommonLength(a: seq<string>, b: seq<string>): (k: nat)
    ensures k <= |a| && k <= |b| && a[..k] == b[..k]
    ensures k < |a| && k < |b| ==> a[k] != b[k]
  {
    if a == [] || b == [] || a[0] != b[0] then 0 else 1 + CommonLength(a[1..], b[1..])
  }

  function Ups(n: nat): seq<string> {
    seq(n, _ => "..")
  }

  function RelParts(clean: string): seq<string> {
    if clean == "/" then [""] else Split(clean, '/')
  }

  /** `filepath.Rel`; `None` is its error result. */
  function Rel(base: string, target: string): Option<string> {
    RelCleaned(Clean(base), Clean(target))
  }

  function RelCleaned(b: string, t: string): Option<string> {
    if b == t then Some(".")
    else if Rooted(b) != Rooted(t) then None
    else
      var bs, ts := BaseParts(b), RelParts(t);
      var k := CommonLength(bs, ts);
      if k < |bs| && bs[k] == ".." then None
      else Some(Join(Ups(|bs| - k) + ts[k..], '/'))
  }

  /** The parts of the cleaned base, as `Rel` reads it. */
  function BaseParts(b: string): seq<string> {
    if b == "." then [] else RelParts(b)
  }

  // ---------- cleaning ----------

  predicate Kept(rooted: bool, c: string) {
    Plain(c) || (c == ".." && !rooted)
  }

  /** What cleaning leaves: plain components, after leading ".." if the path is relative. */
  predicate Normal(rooted: bool, comps: seq<string>) {
    && (forall i :: 0 <= i < |comps| ==> Kept(rooted, comps[i]))
    && (forall i, j :: 0 <= i < j < |comps| && comps[j] == ".." ==> comps[i] == "..")
  }

  lemma PushNormal(rooted: bool, acc: seq<string>, c: string)
    requires Normal(rooted, acc) && '/' !in c
    ensures Normal(rooted, Push(rooted, acc, c))
  {
    if c == ".." && !rooted && (acc == [] || acc[|acc| - 1] == "..") {
      assert forall i :: 0 <= i < |acc| ==> acc[i] == "..";
    }
  }

  lemma {:induction false} WalkNormal(rooted: bool, acc: seq<string>, parts: seq<string>)
    requires Normal(rooted, acc) && NoneContain(parts, '/')
    ensures Normal(rooted, Walk(rooted, acc, parts))
    decreases |parts|
  {
    if parts == [] {
    } else {
      PushNormal(rooted, acc, parts[0]);
      WalkNormal(rooted, Push(rooted, acc, parts[0]), parts[1..]);
    }
  }

  lemma CompsNormal(s: string)
    ensures Normal(Rooted(s), Comps(s))
  {
    SplitFree(s, '/');
    WalkNormal(Rooted(s), [], Split(s, '/'));
  }

  lemma {:induction false} WalkConcat(rooted: bool, acc: seq<string>, a: seq<string>, b: seq<string>)
    ensures Walk(rooted, acc, a + b) == Walk(rooted, Walk(rooted, acc, a), b)
    decreases |a|
  {
    if a == [] {
      assert a + b == b;
    } else {
      assert (a + b)[1..] == a[1..] + b;
      WalkConcat(rooted, Push(rooted, acc, a[0]), a[1..], b);
    }
  }

  /** Normal components are kept as they are. */
  lemma {:induction false} WalkKeeps(rooted: bool, acc: seq<string>, comps: seq<string>)
    requires Normal(rooted, acc + comps)
    ensures Walk(rooted, acc, comps) == acc + comps
    decreases |comps|
  {
    if comps == [] {
      assert acc + comps == acc;
    } else {
      var c := comps[0];
      assert (acc + comps)[|acc|] == c;
      if c == ".." && acc != [] {
        assert (acc + comps)[|acc| - 1] == acc[|acc| - 1];
      }
      assert Push(rooted, acc, c) == acc + [c];
      assert acc + [c] + comps[1..] == acc + comps;
      WalkKeeps(rooted, acc + [c], comps[1..]);
    }
  }

  lemma PlainIsNormal(rooted: bool, comps: seq<string>)
    requires AllPlain(comps)
    ensures Normal(rooted, comps)
  {
  }

  lemma NormalFree(rooted: bool, comps: seq<string>)
    requires Normal(rooted, comps)
    ensures NoneContain(comps, '/')
  {
    forall i | 0 <= i < |comps|
      ensures '/' !in comps[i]
    {
      assert Kept(rooted, comps[i]);
    }
  }

  lemma NormalTail(rooted: bool, comps: seq<string>)
    requires Normal(rooted, comps) && comps != []
    ensures Normal(false, comps[1..]) && Normal(false, [comps[0]])
  {
    assert Kept(rooted, comps[0]);
    forall i | 0 <= i < |comps| - 1
      ensures Kept(false, comps[1..][i])
    {
      assert Kept(rooted, comps[i + 1]);
    }
  }

  /** Joined normal components neither start nor end with a slash. */
  lemma {:induction false} JoinEnds(rooted: bool, comps: seq<string>)
    requires Normal(rooted, comps) && comps != []
    ensures var j := Join(comps, '/'); j != "" && j[0] != '/' && j[|j| - 1] != '/'
  {
    assert Kept(rooted, comps[0]);
    if |comps| > 1 {
      NormalTail(rooted, comps);
      JoinEnds(false, comps[1..]);
    }
  }

  /** Splitting a rendered path gives its components back, after one empty part for the root. */
  lemma RenderSplit(rooted: bool, comps: seq<string>)
    requires Normal(rooted, comps)
    ensures Rooted(Render(rooted, comps)) == rooted
    ensures comps != [] ==> Split(Render(rooted, comps), '/') == (if rooted then [""] else []) + comps
    ensures comps == [] ==> Split(Render(rooted, comps), '/') == if rooted then ["", ""] else ["."]
  {
    NormalFree(rooted, comps);
    if comps != [] {
      JoinEnds(rooted, comps);
      SplitJoin(comps, '/');
      if rooted {
        SplitConcat("", Join(comps, '/'), '/');
        assert "" + ['/'] + Join(comps, '/') == Render(rooted, comps);
      }
    } else if rooted {
      assert Split("/", '/') == ["", ""] by {
        SplitConcat("", "", '/');
        assert "" + ['/'] + "" == "/";
      }
    } else {
      SplitOfFree(".", '/');
    }
  }

  lemma DegenerateWalks()
    ensures Walk(true, [], ["", ""]) == [] && Walk(false, [], ["."]) == []
  {
    assert Walk(true, [], ["", ""]) == Walk(true, [], [""]) == [];
  }

  /** A leading empty part changes nothing. */
  lemma WalkPadded(comps: seq<string>)
    ensures Walk(true, [], [""] + comps) == Walk(true, [], comps)
  {
    assert ([""] + comps)[1..] == comps;
  }

  lemma RenderComps(rooted: bool, comps: seq<string>)
    requires Normal(rooted, comps)
    ensures Rooted(Render(rooted, comps)) == rooted && Comps(Render(rooted, comps)) == comps
  {
    RenderSplit(rooted, comps);
    if comps == [] {
      DegenerateWalks();
    } else {
      assert [] + comps == comps;
      WalkKeeps(rooted, [], comps);
      WalkPadded(comps);
    }
  }

  /** Cleaning keeps the components and the root, so it is idempotent. */
  lemma CleanComps(s: string)
    ensures Rooted(Clean(s)) == Rooted(s) && Comps(Clean(s)) == Comps(s)
    ensures Clean(Clean(s)) == Clean(s)
  {
    CompsNormal(s);
    RenderComps(Rooted(s), Comps(s));
  }

  /** A path is already clean exactly when it is the rendering of normal components. */
  lemma CleanFixpoint(s: string)
    ensures Clean(s) == s <==> exists comps :: Normal(Rooted(s), comps) && s == Render(Rooted(s), comps)
  {
    CompsNormal(s);
    if comps :| Normal(Rooted(s), comps) && s == Render(Rooted(s), comps) {
      RenderComps(Rooted(s), comps);
    }
  }

  lemma {:induction false} TrimRightKeeps(s: string, c: char)
    requires s != "" && s[|s| - 1] != c
    ensures TrimRight(s, c) == s
  {
  }

  /** The parts of a cleaned path are its components; the root and "." stand for themselves. */
  lemma PartsOfClean(s: string)
    ensures Comps(s) != [] ==> Parts(Clean(s)) == Comps(s)
    ensures Comps(s) == [] ==> Parts(Clean(s)) == if Rooted(s) then [""] else ["."]
  {
    CompsNormal(s);
    var comps := Comps(s);
    if comps != [] {
      NormalFree(Rooted(s), comps);
      JoinEnds(Rooted(s), comps);
      SplitJoin(comps, '/');
      var j := Join(comps, '/');
      TrimRightKeeps(j, '/');
      assert TrimLeft(j, '/') == j;
      if Rooted(s) {
        assert Clean(s)[1..] == j;
        assert TrimLeft(Clean(s), '/') == TrimLeft(j, '/');
      }
    } else if Rooted(s) {
      assert Clean(s) == "/" && TrimLeft("/", '/') == TrimLeft("", '/') == "";
    } else {
      assert Clean(s) == "." && Trim(".", '/') == ".";
      SplitOfFree(".", '/');
    }
  }

  /** Appending to an absolute path walks on from its components. */
  lemma JoinWalks(a: string, b: string)
    requires a != ""
    ensures Rooted(Join2(a, b)) == Rooted(a)
    ensures Comps(Join2(a, b)) == Walk(Rooted(a), Comps(a), Split(b, '/'))
  {
    var s := a + "/" + b;
    assert Rooted(s) == Rooted(a);
    assert s == a + ['/'] + b;
    SplitConcat(a, b, '/');
    WalkConcat(Rooted(a), [], Split(a, '/'), Split(b, '/'));
    CleanComps(s);
  }

  /** What joining gives is clean, or empty if both elements are; an empty first element is passed over. */
  lemma JoinIsClean(a: string, b: string)
    ensures Join2(a, b) == "" <==> a == "" && b == ""
    ensures Join2(a, b) != "" ==> Clean(Join2(a, b)) == Join2(a, b)
    ensures b != "" ==> Rooted(Join2("", b)) == Rooted(b) && Comps(Join2("", b)) == Comps(b)
  {
    CleanComps(a + "/" + b);
    CleanComps(b);
    CleanNonEmpty(a + "/" + b);
    CleanNonEmpty(b);
  }

  lemma CleanNonEmpty(s: string)
    ensures Clean(s) != ""
  {
    CompsNormal(s);
    if !Rooted(s) && Comps(s) != [] {
      JoinEnds(false, Comps(s));
    }
  }

  /** Relative to its own first component, a clean relative path is the rest of it. */
  lemma RelOfRest(comps: seq<string>)
    requires Normal(false, comps) && |comps| > 0
    ensures Rel(comps[0], Join(comps, '/')) == Some(if |comps| == 1 then "." else Join(comps[1..], '/'))
  {
    var head := [comps[0]];
    NormalTail(false, comps);
    RenderComps(false, head);
    RenderComps(false, comps);
    assert Render(false, head) == comps[0] && Render(false, comps) == Join(comps, '/');
    RenderSplit(false, head);
    RenderSplit(false, comps);
    assert Clean(comps[0]) == comps[0] && Clean(Join(comps, '/')) == Join(comps, '/');
    JoinEnds(false, comps);
    assert comps[0] != "." && comps[0] != "/";
    assert Split(comps[0], '/') == head && Split(Join(comps, '/'), '/') == comps;
    RelToRest(comps[0], Join(comps, '/'), comps);
  }

  lemma RelToRest(b: string, t: string, comps: seq<string>)
    requires comps != [] && RelParts(b) == [comps[0]] && RelParts(t) == comps && b != "." && Rooted(b) == Rooted(t)
    requires |comps| == 1 ==> b == t
    ensures RelCleaned(b, t) == Some(if |comps| == 1 then "." else Join(comps[1..], '/'))
  {
    var head := [comps[0]];
    assert head[1..] == [] && CommonLength(head, comps) == 1;
    assert Ups(0) + comps[1..] == comps[1..];
    assert b == t ==> comps == head;
  }

  // ---------- relative paths ----------

  lemma {:induction false} WalkUps(rooted: bool, acc: seq<string>, n: nat)
    requires n <= |acc| && forall i :: |acc| - n <= i < |acc| ==> acc[i] != ".."
    ensures Walk(rooted, acc, Ups(n)) == acc[..|acc| - n]
    decreases n
  {
    if n == 0 {
      assert acc[..|acc|] == acc;
    } else {
      assert Ups(n)[1..] == Ups(n - 1);
      var front := acc[..|acc| - 1];
      WalkUps(rooted, front, n - 1);
      assert front[..|front| - (n - 1)] == acc[..|acc| - n];
    }
  }

  /** Climbing from `bs` to the common part and down again leads to `ts`. */
  lemma WalkAcross(rooted: bool, bs: seq<string>, ts: seq<string>, k: nat)
    requires Normal(rooted, bs) && Normal(rooted, ts) && k <= |bs| && k <= |ts| && bs[..k] == ts[..k]
    requires k < |bs| ==> bs[k] != ".."
    ensures Walk(rooted, bs, Ups(|bs| - k) + ts[k..]) == ts
  {
    forall i | k <= i < |bs|
      ensures bs[i] != ".."
    {
    }
    WalkUps(rooted, bs, |bs| - k);
    WalkConcat(rooted, bs, Ups(|bs| - k), ts[k..]);
    assert ts[..k] + ts[k..] == ts;
    WalkKeeps(rooted, ts[..k], ts[k..]);
  }

  lemma DotIsNoPath(comps: seq<string>)
    requires Normal(false, comps) && comps != []
    ensures Join(comps, '/') != "."
  {
    NormalFree(false, comps);
    SplitJoin(comps, '/');
    SplitOfFree(".", '/');
    assert Kept(false, comps[0]);
  }

  lemma BasePartsAre(s: string)
    ensures BaseParts(Clean(s)) == (if Rooted(s) then [""] else []) + Comps(s)
    ensures Clean(s) == "." <==> !Rooted(s) && Comps(s) == []
  {
    CompsNormal(s);
    RenderSplit(Rooted(s), Comps(s));
    if Comps(s) != [] {
      JoinEnds(Rooted(s), Comps(s));
      if Rooted(s) {
        assert Clean(s) == "/" + Join(Comps(s), '/') && |Clean(s)| > 1;
      } else {
        assert Clean(s)[0] != '/';
        DotIsNoPath(Comps(s));
      }
    }
  }

  /** The parts of the target: a "." stands for itself. */
  lemma TargetPartsAre(s: string)
    ensures RelParts(Clean(s)) ==
            if !Rooted(s) && Comps(s) == [] then ["."] else (if Rooted(s) then [""] else []) + Comps(s)
    ensures NoneContain(RelParts(Clean(s)), '/')
  {
    BasePartsAre(s);
    SplitFree(Clean(s), '/');
    SplitOfFree(".", '/');
  }

  lemma SameParts(base: string, target: string)
    requires Rooted(base) == Rooted(target) && BaseParts(Clean(base)) == RelParts(Clean(target))
    ensures Clean(base) == Clean(target)
  {
    BasePartsAre(base);
    TargetPartsAre(target);
    CompsNormal(base);
    var bs, ts := Comps(base), Comps(target);
    if Rooted(base) {
      assert ([""] + bs)[1..] == bs && ([""] + ts)[1..] == ts;
    } else {
      assert [] + bs == bs && [] + ts == ts;
      DotIsKept(bs);
    }
  }

  lemma DotIsKept(comps: seq<string>)
    requires Normal(false, comps) || Normal(true, comps)
    ensures comps != ["."]
  {
    if comps != [] {
      assert Kept(false, comps[0]) || Kept(true, comps[0]);
    }
  }

  lemma UpsFree(n: nat, rest: seq<string>)
    requires NoneContain(rest, '/')
    ensures NoneContain(Ups(n) + rest, '/')
  {
  }

  /** `Rel` read off its definition, on the parts of both paths. */
  lemma RelCleanedIs(b: string, t: string)
    requires RelCleaned(b, t).Some? && b != t
    ensures var bs, ts := BaseParts(b), RelParts(t); var k := CommonLength(bs, ts);
            && Rooted(b) == Rooted(t) && (k < |bs| ==> bs[k] != "..")
            && RelCleaned(b, t).value == Join(Ups(|bs| - k) + ts[k..], '/')
  {
  }

  lemma CommonAll(b: seq<string>, t: seq<string>, k: nat)
    requires k <= |b| && k <= |t| && b[..k] == t[..k] && Ups(|b| - k) + t[k..] == []
    ensures b == t
  {
    assert |b| == k && |t| == k;
  }

  /** The parts that `Rel` joins, when it has an answer other than ".". */
  lemma RelJoined(base: string, target: string)
    requires Rel(base, target).Some? && Clean(base) != Clean(target)
    ensures var b, t := BaseParts(Clean(base)), RelParts(Clean(target)); var k := CommonLength(b, t);
            && Rooted(base) == Rooted(target) && (k < |b| ==> b[k] != "..")
            && Split(Rel(base, target).value, '/') == Ups(|b| - k) + t[k..]
  {
    RelRoots(base);
    RelRoots(target);
    RelCleanedIs(Clean(base), Clean(target));
    var b, t := BaseParts(Clean(base)), RelParts(Clean(target));
    var k := CommonLength(b, t);
    TargetPartsAre(target);
    RelSplits(base, target, b, t, k);
  }

  lemma RelSplits(base: string, target: string, b: seq<string>, t: seq<string>, k: nat)
    requires Rooted(base) == Rooted(target) && Clean(base) != Clean(target)
    requires b == BaseParts(Clean(base)) && t == RelParts(Clean(target)) && NoneContain(t, '/')
    requires k <= |b| && k <= |t| && b[..k] == t[..k]
    ensures Split(Join(Ups(|b| - k) + t[k..], '/'), '/') == Ups(|b| - k) + t[k..]
  {
    var parts := Ups(|b| - k) + t[k..];
    if parts == [] {
      CommonAll(b, t, k);
      SameParts(base, target);
    }
    UpsFree(|b| - k, t[k..]);
    SplitJoin(parts, '/');
  }

  lemma RelRoots(s: string)
    ensures Rooted(Clean(s)) == Rooted(s) && Clean(Clean(s)) == Clean(s)
  {
    CleanComps(s);
  }

  /** The empty part for the root is common to both. */
  lemma RootIsCommon(bs: seq<string>, ts: seq<string>)
    ensures CommonLength([""] + bs, [""] + ts) == CommonLength(bs, ts) + 1
  {
    assert ([""] + bs)[1..] == bs && ([""] + ts)[1..] == ts;
  }

  lemma RootedIsPlain(bs: seq<string>, k: nat)
    requires Normal(true, bs) && k < |bs|
    ensures bs[k] != ".."
  {
    assert Kept(true, bs[k]);
  }

  /** Walking from the base through what `Rel` joined: between absolute paths ... */
  lemma WalkRelAbsolute(bs: seq<string>, ts: seq<string>, b: seq<string>, t: seq<string>, k: nat)
    requires Normal(true, bs) && Normal(true, ts) && b == [""] + bs && t == [""] + ts && k == CommonLength(b, t)
    ensures Walk(true, bs, Ups(|b| - k) + t[k..]) == ts
  {
    RootIsCommon(bs, ts);
    var j := CommonLength(bs, ts);
    if j < |bs| {
      RootedIsPlain(bs, j);
    }
    WalkAcross(true, bs, ts, j);
    assert t[k..] == ts[j..];
  }

  /** ... and between relative ones. */
  lemma WalkRelRelative(bs: seq<string>, ts: seq<string>, t: seq<string>)
    requires Normal(false, bs) && Normal(false, ts) && t == if ts == [] then ["."] else ts
    requires var k := CommonLength(bs, t); k < |bs| ==> bs[k] != ".."
    ensures var k := CommonLength(bs, t); Walk(false, bs, Ups(|bs| - k) + t[k..]) == ts
  {
    var k := CommonLength(bs, t);
    if ts == [] {
      WalkToDot(bs, k);
    } else {
      WalkAcross(false, bs, ts, k);
    }
  }

  lemma WalkToDot(bs: seq<string>, k: nat)
    requires Normal(false, bs) && k == CommonLength(bs, ["."]) && (k < |bs| ==> bs[k] != "..")
    ensures Walk(false, bs, Ups(|bs| - k) + ["."][k..]) == []
  {
    if bs != [] {
      assert Kept(false, bs[0]);
    }
    assert k == 0;
    WalkUps(false, bs, |bs|);
    WalkConcat(false, bs, Ups(|bs|), ["."]);
    assert Walk(false, [], ["."]) == [];
  }

  lemma RelWalksSame(base: string, target: string)
    requires Clean(base) == Clean(target)
    ensures Rel(base, target) == Some(".")
    ensures Rooted(base) == Rooted(target) && Walk(Rooted(base), Comps(base), Split(".", '/')) == Comps(target)
  {
    CleanComps(base);
    CleanComps(target);
    SplitOfFree(".", '/');
    WalkDot(Rooted(base), Comps(base));
  }

  /** The parts of base and target, in the form that the walk needs. */
  lemma PartsToWalk(base: string, target: string)
    ensures Normal(Rooted(base), Comps(base)) && Normal(Rooted(target), Comps(target))
    ensures Rooted(base) ==> BaseParts(Clean(base)) == [""] + Comps(base)
    ensures !Rooted(base) ==> BaseParts(Clean(base)) == Comps(base)
    ensures Rooted(target) ==> RelParts(Clean(target)) == [""] + Comps(target)
    ensures !Rooted(target) ==> RelParts(Clean(target)) == if Comps(target) == [] then ["."] else Comps(target)
  {
    BasePartsAre(base);
    TargetPartsAre(target);
    CompsNormal(base);
    CompsNormal(target);
    assert [] + Comps(base) == Comps(base) && [] + Comps(target) == Comps(target);
  }

  lemma WalkRel(rooted: bool, bs: seq<string>, ts: seq<string>, b: seq<string>, t: seq<string>)
    requires Normal(rooted, bs) && Normal(rooted, ts)
    requires rooted ==> b == [""] + bs && t == [""] + ts
    requires !rooted ==> b == bs && t == if ts == [] then ["."] else ts
    requires var k := CommonLength(b, t); k < |b| ==> b[k] != ".."
    ensures var k := CommonLength(b, t); Walk(rooted, bs, Ups(|b| - k) + t[k..]) == ts
  {
    if rooted {
      WalkRelAbsolute(bs, ts, b, t, CommonLength(b, t));
    } else {
      WalkRelRelative(bs, ts, t);
    }
  }

  lemma PartsWalkAcross(base: string, target: string)
    requires Rooted(base) == Rooted(target)
    requires var b, t := BaseParts(Clean(base)), RelParts(Clean(target)); var k := CommonLength(b, t);
             k < |b| ==> b[k] != ".."
    ensures var b, t := BaseParts(Clean(base)), RelParts(Clean(target)); var k := CommonLength(b, t);
            Walk(Rooted(base), Comps(base), Ups(|b| - k) + t[k..]) == Comps(target)
  {
    PartsToWalk(base, target);
    WalkRel(Rooted(base), Comps(base), Comps(target), BaseParts(Clean(base)), RelParts(Clean(target)));
  }

  lemma RelWalksAcross(base: string, target: string)
    requires Rel(base, target).Some? && Clean(base) != Clean(target)
    ensures Rooted(base) == Rooted(target)
    ensures Walk(Rooted(base), Comps(base), Split(Rel(base, target).value, '/')) == Comps(target)
  {
    RelJoined(base, target);
    PartsWalkAcross(base, target);
  }

  /** Joining the relative path to its base leads to the target: what `Rel` promises. */
  lemma RelLeadsBack(base: string, target: string)
    requires base != "" && Rel(base, target).Some?
    ensures Clean(Join2(base, Rel(base, target).value)) == Clean(target)
  {
    JoinWalks(base, Rel(base, target).value);
    if Clean(base) == Clean(target) {
      RelWalksSame(base, target);
    } else {
      RelWalksAcross(base, target);
    }
  }

  lemma WalkDot(rooted: bool, acc: seq<string>)
    ensures Walk(rooted, acc, ["."]) == acc
  {
    assert ["."][1..] == [];
  }
}
