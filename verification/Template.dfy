/** Webhook templates (`replacePlaceholders` in `internal/discord/forwarder.go`). */
module Template {

  const SERVER := "${server}"

  /** `strings.ReplaceAll` for a non-empty pattern: leftmost occurrences, inserted text is not rescanned. */
  function ReplaceAll(s: string, pat: string, text: string): string
    requires pat != ""
    decreases |s|
  {
    if s == "" then ""
    else if pat <= s then text + ReplaceAll(s[|pat|..], pat, text)
    else [s[0]] + ReplaceAll(s[1..], pat, text)
  }

  predicate IsDigit(c: char) { '0' <= c <= '9' }

  function DigitChar(d: nat): (c: char)
    requires d < 10
    ensures IsDigit(c) && c as int == '0' as int + d
  {
    '0' + d as char
  }

  /** `fmt.Sprintf("%d", n)` */
  function Decimal(n: nat): (s: string)
    ensures s != "" && IsDigit(s[0])
    ensures n < 10 ==> s == [DigitChar(n)]
    ensures n >= 10 ==> s[0] != '0' && |s| >= 2
    ensures forall i :: 0 <= i < |s| ==> IsDigit(s[i])
  {
    if n < 10 then [DigitChar(n)] else Decimal(n / 10) + [DigitChar(n % 10)]
  }

  function Placeholder(i: nat): string { "$" + Decimal(i) }

  /** The captures from index `i` on, substituted one after the other. */
  function PassesFrom(v: string, matches: seq<string>, i: nat): string
    requires i <= |matches|
    decreases |matches| - i
  {
    if i == |matches| then v
    else PassesFrom(ReplaceAll(v, Placeholder(i), matches[i]), matches, i + 1)
  }

  /** What the code computes for a string. */
  function Sequential(v: string, matches: seq<string>, server: string): string {
    PassesFrom(ReplaceAll(v, SERVER, server), matches, 0)
  }

  /** The string case of `replacePlaceholders`: a loop that rewrites `v`. */
  method SubstituteString(template: string, matches: seq<string>, server: string) returns (v: string)
    ensures v == Sequential(template, matches, server)
  {
    v := ReplaceAll(template, SERVER, server);
    for i := 0 to |matches|
      invariant PassesFrom(v, matches, i) == Sequential(template, matches, server)
    {
      v := ReplaceAll(v, Placeholder(i), matches[i]);
    }
  }

  // ---------- the one-pass reference ----------

  datatype Token = Lit(c: char) | Server | Capture(d: nat)

  /** A capture placeholder of one digit, for one of the first ten captures. */
  predicate CaptureAt(v: string, n: nat) {
    |v| >= 2 && v[0] == '$' && IsDigit(v[1]) && v[1] as int - '0' as int < n
  }

  function CaptureIndex(v: string): nat
    requires |v| >= 2 && IsDigit(v[1])
  {
    v[1] as int - '0' as int
  }

  /** The template read once from left to right, `n` captures being available. */
  function Parse(v: string, n: nat): seq<Token>
    decreases |v|
  {
    if v == "" then []
    else if SERVER <= v then [Server] + Parse(v[|SERVER|..], n)
    else if CaptureAt(v, n) then [Capture(CaptureIndex(v))] + Parse(v[2..], n)
    else [Lit(v[0])] + Parse(v[1..], n)
  }

  function Text(t: Token, matches: seq<string>, server: string): string {
    match t
    case Lit(c) => [c]
    case Server => server
    case Capture(d) => if d < |matches| then matches[d] else ""
  }

  function Emit(ts: seq<Token>, matches: seq<string>, server: string): string {
    if ts == [] then "" else Text(ts[0], matches, server) + Emit(ts[1..], matches, server)
  }

  /** All placeholders at once. Only captures 0 to 9 have a placeholder of their own. */
  function Simultaneous(v: string, matches: seq<string>, server: string): string {
    Emit(Parse(v, |matches|), matches, server)
  }

  /** A token that may follow a literal "$": plain text, or a placeholder after whose pass no other pass comes. */
  predicate MayFollowDollar(t: Token, n: nat) {
    t.Lit? || (t.Server? && n == 0) || (t.Capture? && t.d + 1 == n)
  }

  /** No literal "$" stands directly before a placeholder whose text a later pass could misread. */
  predicate NoStrayDollar(ts: seq<Token>, n: nat) {
    forall i :: 0 <= i < |ts| - 1 && ts[i] == Lit('$') ==> MayFollowDollar(ts[i + 1], n)
  }

  predicate DollarFree(s: string) { '$' !in s }

  /** No occurrence of `pat` starts inside `x`, whatever text follows `x`. */
  predicate Clear(x: string, pat: string) {
    forall p :: 0 <= p < |x| ==> !(pat <= x[p..]) && !(x[p..] <= pat)
  }

  /** No pass from `first` on can misread `x`. */
  predicate ClearFrom(x: string, first: nat, n: nat) {
    forall k :: first <= k < n ==> Clear(x, Placeholder(k))
  }

  /** Inserted text that no later pass can misread: the server name by any pass, a capture by the passes after its
      own. Text without "$" is always harmless, and so is much text with one. */
  predicate Harmless(matches: seq<string>, server: string) {
    && ClearFrom(server, 0, |matches|)
    && forall d :: 0 <= d < |matches| && d < 10 ==> ClearFrom(matches[d], d + 1, |matches|)
  }

  lemma DollarFreeIsClear(x: string, pat: string)
    requires DollarFree(x) && pat != "" && pat[0] == '$'
    ensures Clear(x, pat)
  {
    forall p | 0 <= p < |x|
      ensures !(pat <= x[p..]) && !(x[p..] <= pat)
    {
      assert x[p..][0] == x[p];
    }
  }

  predicate AllDollarFree(matches: seq<string>) { forall m :: m in matches ==> DollarFree(m) }

  lemma DollarFreeIsHarmless(matches: seq<string>, server: string)
    requires DollarFree(server) && AllDollarFree(matches)
    ensures Harmless(matches, server)
  {
    forall x: string, k: nat | DollarFree(x)
      ensures Clear(x, Placeholder(k))
    {
      DollarFreeIsClear(x, Placeholder(k));
    }
    assert forall d :: 0 <= d < |matches| ==> matches[d] in matches;
  }

  // ---------- between two passes ----------

  /** The token's text once the server name and the captures below `k` have been substituted. */
  function TextAt(t: Token, matches: seq<string>, server: string, k: nat): string {
    match t
    case Lit(c) => [c]
    case Server => server
    case Capture(d) =>
      if d >= 10 then "" else if d < k && d < |matches| then matches[d] else ['$', DigitChar(d)]
  }

  function Stage(ts: seq<Token>, matches: seq<string>, server: string, k: nat): string {
    if ts == [] then "" else TextAt(ts[0], matches, server, k) + Stage(ts[1..], matches, server, k)
  }

  /** Tokens that can come out of `Parse`: captures in range, and a literal "$" followed by no such digit. */
  predicate Parsed(ts: seq<Token>, n: nat) {
    && (forall i :: 0 <= i < |ts| && ts[i].Capture? ==> ts[i].d < n && ts[i].d < 10)
    && (forall i :: 0 <= i < |ts| - 1 && ts[i] == Lit('$') && ts[i + 1].Lit? ==>
          !(IsDigit(ts[i + 1].c) && ts[i + 1].c as int - '0' as int < n))
  }

  lemma {:induction false} ParseParsed(v: string, n: nat)
    ensures Parsed(Parse(v, n), n)
    ensures v != "" && Parse(v, n)[0].Lit? ==> Parse(v, n)[0].c == v[0]
    decreases |v|
  {
    if v == "" {
    } else {
      if SERVER <= v {
        ParseParsed(v[|SERVER|..], n);
      } else if CaptureAt(v, n) {
        ParseParsed(v[2..], n);
      } else {
        ParseParsed(v[1..], n);
      }
    }
  }

  lemma {:induction false} ReplaceSkips(x: string, rest: string, pat: string, text: string)
    requires pat != "" && Clear(x, pat)
    ensures ReplaceAll(x + rest, pat, text) == x + ReplaceAll(rest, pat, text)
  {
    if x == "" {
      assert x + rest == rest;
    } else {
      assert x[0..] == x;
      NotAtFront(x, rest, pat);
      assert (x + rest)[0] == x[0] && (x + rest)[1..] == x[1..] + rest;
      forall p | 0 <= p < |x[1..]|
        ensures !(pat <= x[1..][p..]) && !(x[1..][p..] <= pat)
      {
        assert x[1..][p..] == x[p + 1..];
      }
      ReplaceSkips(x[1..], rest, pat, text);
    }
  }

  lemma NotAtFront(x: string, rest: string, pat: string)
    requires !(pat <= x) && !(x <= pat)
    ensures !(pat <= x + rest)
  {
    if |pat| <= |x| {
      assert (x + rest)[..|pat|] == x[..|pat|];
    } else {
      assert (x + rest)[..|x|] == x;
    }
  }

  lemma ReplaceHits(pat: string, rest: string, text: string)
    requires pat != ""
    ensures ReplaceAll(pat + rest, pat, text) == text + ReplaceAll(rest, pat, text)
  {
    assert (pat + rest)[|pat|..] == rest;
  }

  lemma ReplaceMisses(c: char, rest: string, pat: string, text: string)
    requires |pat| >= 2 && pat[0] == '$'
    requires c == '$' ==> rest == "" || rest[0] != pat[1]
    ensures ReplaceAll([c] + rest, pat, text) == [c] + ReplaceAll(rest, pat, text)
  {
    var s := [c] + rest;
    assert s[1..] == rest;
    if rest != "" {
      assert s[1] == rest[0];
    }
  }

  lemma CaptureIsSkipped(v: string, server: string)
    requires |v| >= 2 && v[0] == '$' && IsDigit(v[1])
    ensures ReplaceAll(v, SERVER, server) == ['$', DigitChar(CaptureIndex(v))] + ReplaceAll(v[2..], SERVER, server)
  {
    var rest := v[2..];
    assert v == [v[0]] + ([v[1]] + rest);
    ReplaceMisses(v[0], [v[1]] + rest, SERVER, server);
    ReplaceMisses(v[1], rest, SERVER, server);
  }

  /** The first pass: the template with the server name in place. */
  lemma {:induction false} ServerPass(v: string, matches: seq<string>, server: string)
    ensures ReplaceAll(v, SERVER, server) == Stage(Parse(v, |matches|), matches, server, 0)
    decreases |v|
  {
    var n := |matches|;
    if v != "" {
      if SERVER <= v {
        ServerPass(v[|SERVER|..], matches, server);
      } else if CaptureAt(v, n) {
        ServerPass(v[2..], matches, server);
        CaptureIsSkipped(v, server);
      } else {
        ServerPass(v[1..], matches, server);
      }
    }
  }

  lemma NoStrayTail(ts: seq<Token>, n: nat)
    requires ts != [] && Parsed(ts, n)
    ensures Parsed(ts[1..], n) && (NoStrayDollar(ts, n) ==> NoStrayDollar(ts[1..], n))
  {
    var t := ts[1..];
    forall i | 0 <= i < |t| - 1 && t[i] == Lit('$')
      ensures t[i + 1].Lit? ==> !(IsDigit(t[i + 1].c) && t[i + 1].c as int - '0' as int < n)
      ensures NoStrayDollar(ts, n) ==> MayFollowDollar(t[i + 1], n)
    {
      assert ts[i + 1] == t[i] && ts[i + 2] == t[i + 1];
    }
  }

  /** After a literal "$" the staged text does not go on with a digit that has a capture. */
  lemma AfterDollar(ts: seq<Token>, matches: seq<string>, server: string, k: nat)
    requires Parsed(ts, |matches|) && NoStrayDollar(ts, |matches|) && ts != [] && ts[0] == Lit('$') && k < |matches|
    ensures var rest := Stage(ts[1..], matches, server, k);
            rest == "" || !(IsDigit(rest[0]) && rest[0] as int - '0' as int < |matches|)
  {
    if |ts| > 1 {
      assert MayFollowDollar(ts[0 + 1], |matches|);
      assert ts[1..][0] == ts[1];
    }
  }

  /** One token, given that the rest of the text has been dealt with. */
  lemma TokenPass(ts: seq<Token>, matches: seq<string>, server: string, k: nat)
    requires ts != [] && Parsed(ts, |matches|) && NoStrayDollar(ts, |matches|) && k < |matches|
    requires Harmless(matches, server)
    ensures var rest := Stage(ts[1..], matches, server, k);
            ReplaceAll(TextAt(ts[0], matches, server, k) + rest, Placeholder(k), matches[k]) ==
            TextAt(ts[0], matches, server, k + 1) + ReplaceAll(rest, Placeholder(k), matches[k])
  {
    var rest := Stage(ts[1..], matches, server, k);
    match ts[0]
    case Lit(c) =>
      if c == '$' {
        AfterDollar(ts, matches, server, k);
      }
      assert Placeholder(k)[1] == Decimal(k)[0];
      ReplaceMisses(c, rest, Placeholder(k), matches[k]);
    case Server => ReplaceSkips(server, rest, Placeholder(k), matches[k]);
    case Capture(d) => CaptureTokenPass(d, rest, matches, server, k);
  }

  lemma CaptureTokenPass(d: nat, rest: string, matches: seq<string>, server: string, k: nat)
    requires d < |matches| && d < 10 && k < |matches| && ClearFrom(matches[d], d + 1, |matches|)
    ensures ReplaceAll(TextAt(Capture(d), matches, server, k) + rest, Placeholder(k), matches[k]) ==
            TextAt(Capture(d), matches, server, k + 1) + ReplaceAll(rest, Placeholder(k), matches[k])
  {
    var pat := Placeholder(k);
    if d < k {
      ReplaceSkips(matches[d], rest, pat, matches[k]);
    } else if d == k {
      assert pat == ['$', DigitChar(d)];
      ReplaceHits(pat, rest, matches[k]);
    } else {
      var c := DigitChar(d);
      assert pat[1] == Decimal(k)[0] != c;
      ReplaceMisses('$', [c] + rest, pat, matches[k]);
      ReplaceMisses(c, rest, pat, matches[k]);
      assert ['$', c] + rest == ['$'] + ([c] + rest);
      var r := ReplaceAll(rest, pat, matches[k]);
      assert ['$', c] + r == ['$'] + ([c] + r);
    }
  }

  /** One capture pass turns stage `k` into stage `k + 1`; from the eleventh capture on it changes nothing. */
  lemma {:induction false} CapturePass(ts: seq<Token>, matches: seq<string>, server: string, k: nat)
    requires Parsed(ts, |matches|) && NoStrayDollar(ts, |matches|) && k < |matches|
    requires Harmless(matches, server)
    ensures ReplaceAll(Stage(ts, matches, server, k), Placeholder(k), matches[k]) == Stage(ts, matches, server, k + 1)
  {
    if ts == [] {
    } else {
      NoStrayTail(ts, |matches|);
      CapturePass(ts[1..], matches, server, k);
      TokenPass(ts, matches, server, k);
    }
  }

  lemma {:induction false} LastStage(ts: seq<Token>, matches: seq<string>, server: string)
    requires Parsed(ts, |matches|)
    ensures Stage(ts, matches, server, |matches|) == Emit(ts, matches, server)
  {
    if ts == [] {
    } else {
      NoStrayTail(ts, |matches|);
      LastStage(ts[1..], matches, server);
    }
  }

  lemma {:induction false} AllPasses(ts: seq<Token>, matches: seq<string>, server: string, k: nat)
    requires Parsed(ts, |matches|) && NoStrayDollar(ts, |matches|) && k <= |matches|
    requires Harmless(matches, server)
    ensures PassesFrom(Stage(ts, matches, server, k), matches, k) == Stage(ts, matches, server, |matches|)
    decreases |matches| - k
  {
    if k == |matches| {
    } else {
      CapturePass(ts, matches, server, k);
      AllPasses(ts, matches, server, k + 1);
    }
  }

  /** The sequence of passes equals the one-pass substitution, for any number of captures. */
  lemma SequentialIsSimultaneous(v: string, matches: seq<string>, server: string)
    requires Harmless(matches, server)
    requires NoStrayDollar(Parse(v, |matches|), |matches|)
    ensures Sequential(v, matches, server) == Simultaneous(v, matches, server)
  {
    ParseParsed(v, |matches|);
    ServerPass(v, matches, server);
    AllPasses(Parse(v, |matches|), matches, server, 0);
    LastStage(Parse(v, |matches|), matches, server);
  }

  // ---------- the condition on the template is exact ----------

  ghost predicate Contains(s: string, pat: string) {
    exists i :: 0 <= i <= |s| && pat <= s[i..]
  }

  lemma ContainsTail(s: string, pat: string)
    requires s != "" && pat != ""
    ensures Contains(s, pat) <==> pat <= s || Contains(s[1..], pat)
  {
    if i :| 0 <= i <= |s| && pat <= s[i..] && i > 0 {
      assert s[1..][i - 1..] == s[i..];
    }
    if pat <= s {
      assert s[0..] == s;
    }
    if i :| 0 <= i <= |s[1..]| && pat <= s[1..][i..] {
      assert s[1..][i..] == s[i + 1..];
    }
  }

  lemma ContainsDrop(s: string, n: nat, pat: string)
    requires n <= |s|
    ensures Contains(s[n..], pat) ==> Contains(s, pat)
  {
    if i :| 0 <= i <= |s[n..]| && pat <= s[n..][i..] {
      assert s[n..][i..] == s[n + i..];
    }
  }

  /** Text without "x" at the front of a result of replacing by "x" was at the front before. */
  lemma {:induction false} FrontSurvives(s: string, pat: string, q: string)
    requires pat != "" && 'x' !in q
    ensures q <= ReplaceAll(s, pat, "x") ==> q <= s
  {
    if q != "" && s != "" && q <= ReplaceAll(s, pat, "x") {
      assert ReplaceAll(s, pat, "x")[0] == q[0];
      assert !(pat <= s);
      assert ReplaceAll(s, pat, "x")[1..] == ReplaceAll(s[1..], pat, "x");
      assert q[1..] <= ReplaceAll(s[1..], pat, "x");
      FrontSurvives(s[1..], pat, q[1..]);
    }
  }

  /** Replacing by "x" leaves no occurrence of the pattern, and creates none of anything else. */
  lemma {:induction false} ReplacedIsGone(s: string, pat: string, q: string)
    requires pat != "" && q != "" && 'x' !in q && (pat == q || !Contains(s, q))
    ensures !Contains(ReplaceAll(s, pat, "x"), q)
    decreases |s|
  {
    if s == "" {
      assert forall i :: 0 <= i <= |s| ==> s[i..] == "";
    } else {
      var r := ReplaceAll(s, pat, "x");
      if pat <= s {
        var rest := s[|pat|..];
        ContainsDrop(s, |pat|, q);
        ReplacedIsGone(rest, pat, q);
        assert r[0] == 'x' && q[0] != 'x' && r[1..] == ReplaceAll(rest, pat, "x");
      } else {
        ContainsTail(s, q);
        ReplacedIsGone(s[1..], pat, q);
        assert r[1..] == ReplaceAll(s[1..], pat, "x");
        FrontSurvives(s, pat, q);
      }
      ContainsTail(r, q);
    }
  }

  lemma {:induction false} StaysGone(v: string, matches: seq<string>, i: nat, q: string)
    requires i <= |matches| && q != "" && 'x' !in q && !Contains(v, q)
    requires forall j :: i <= j < |matches| ==> matches[j] == "x"
    ensures !Contains(PassesFrom(v, matches, i), q)
    decreases |matches| - i
  {
    if i == |matches| {
    } else {
      ReplacedIsGone(v, Placeholder(i), q);
      StaysGone(ReplaceAll(v, Placeholder(i), "x"), matches, i + 1, q);
    }
  }

  /** Once pass `k` has run with the text "x", and only such passes follow, its placeholder is gone. */
  lemma {:induction false} PassesRemove(v: string, matches: seq<string>, i: nat, k: nat)
    requires i <= k < |matches|
    requires forall j :: k <= j < |matches| ==> matches[j] == "x"
    ensures !Contains(PassesFrom(v, matches, i), Placeholder(k))
    decreases k - i
  {
    if i < k {
      PassesRemove(ReplaceAll(v, Placeholder(i), matches[i]), matches, i + 1, k);
    } else {
      ReplacedIsGone(v, Placeholder(k), Placeholder(k));
      StaysGone(ReplaceAll(v, Placeholder(k), "x"), matches, k + 1, Placeholder(k));
    }
  }

  lemma {:induction false} EmitContains(ts: seq<Token>, matches: seq<string>, server: string, i: nat, d: string)
    requires i + 1 < |ts| && ts[i] == Lit('$') && Text(ts[i + 1], matches, server) == d
    ensures Contains(Emit(ts, matches, server), "$" + d)
  {
    var e := Emit(ts, matches, server);
    if i == 0 {
      assert ts[1..][0] == ts[1];
      assert e == "$" + (d + Emit(ts[1..][1..], matches, server));
      assert "$" + d <= e[0..];
    } else {
      EmitContains(ts[1..], matches, server, i - 1, d);
      var t := Emit(ts[1..], matches, server);
      var j :| 0 <= j <= |t| && "$" + d <= t[j..];
      var l := |Text(ts[0], matches, server)|;
      assert e[j + l..] == t[j..];
    }
  }

  ghost predicate AlwaysSimultaneous(v: string, n: nat) {
    forall matches: seq<string>, server: string ::
      |matches| == n && Harmless(matches, server) ==>
        Sequential(v, matches, server) == Simultaneous(v, matches, server)
  }

  /** Harmless captures, except that the one before `k` reads like placeholder `k` without its "$". */
  function Misleading(n: nat, k: nat): (matches: seq<string>)
    ensures |matches| == n
    ensures forall j :: 0 <= j < n ==> matches[j] == if j + 1 == k then Decimal(k) else "x"
    ensures AllDollarFree(matches)
  {
    assert DollarFree(Decimal(k)) && DollarFree("x");
    seq(n, j => if j + 1 == k then Decimal(k) else "x")
  }

  /** A placeholder that the one-pass result contains is gone from the result of the passes. */
  lemma RemainderDiffers(v: string, matches: seq<string>, server: string, k: nat)
    requires k < |matches| && forall j :: k <= j < |matches| ==> matches[j] == "x"
    requires Contains(Simultaneous(v, matches, server), Placeholder(k))
    ensures Sequential(v, matches, server) != Simultaneous(v, matches, server)
  {
    PassesRemove(ReplaceAll(v, SERVER, server), matches, 0, k);
  }

  lemma StrayDiffers(v: string, matches: seq<string>, server: string, i: nat, k: nat)
    requires var ts := Parse(v, |matches|);
             i + 1 < |ts| && ts[i] == Lit('$') && Text(ts[i + 1], matches, server) == Decimal(k)
    requires k < |matches| && forall j :: k <= j < |matches| ==> matches[j] == "x"
    ensures Sequential(v, matches, server) != Simultaneous(v, matches, server)
  {
    EmitContains(Parse(v, |matches|), matches, server, i, Decimal(k));
    RemainderDiffers(v, matches, server, k);
  }

  lemma StrayBreaks(v: string, n: nat)
    requires !NoStrayDollar(Parse(v, n), n)
    ensures !AlwaysSimultaneous(v, n)
  {
    var ts := Parse(v, n);
    ParseParsed(v, n);
    var i :| 0 <= i < |ts| - 1 && ts[i] == Lit('$') && !MayFollowDollar(ts[i + 1], n);
    var k := if ts[i + 1].Server? then 0 else ts[i + 1].d + 1;
    var server := if k == 0 then Decimal(0) else "x";
    var matches := Misleading(n, k);
    StrayDiffers(v, matches, server, i, k);
    assert DollarFree(server);
    DollarFreeIsHarmless(matches, server);
  }

  /** For a template and a number of captures, the code is the one-pass substitution for every harmless server
      name and captures exactly when the template has no harmful stray "$". */
  lemma SequentialIsSimultaneousExactlyWhen(v: string, n: nat)
    ensures AlwaysSimultaneous(v, n) <==> NoStrayDollar(Parse(v, n), n)
  {
    if NoStrayDollar(Parse(v, n), n) {
      forall matches: seq<string>, server: string
        | |matches| == n && Harmless(matches, server)
        ensures Sequential(v, matches, server) == Simultaneous(v, matches, server)
      {
        SequentialIsSimultaneous(v, matches, server);
      }
    } else {
      StrayBreaks(v, n);
    }
  }

  // ---------- the condition on what is inserted is exact ----------

  predicate Digits(q: string) { forall i :: 0 <= i < |q| ==> IsDigit(q[i]) }

  predicate PlainTokens(ts: seq<Token>) { forall i :: 0 <= i < |ts| ==> ts[i].Lit? && ts[i].c != '$' }

  lemma {:induction false} DigitsStay(q: string, matches: seq<string>, server: string)
    requires Digits(q)
    ensures PlainTokens(Parse(q, |matches|)) && Emit(Parse(q, |matches|), matches, server) == q
  {
    if q == "" {
    } else {
      assert SERVER[0] == '$' && q[0] != '$';
      DigitsStay(q[1..], matches, server);
      assert [q[0]] + q[1..] == q;
    }
  }

  /** The end of `pat` that is missing after an unclear place `p` of `x`. */
  function Missing(x: string, p: nat, pat: string): string
    requires p < |x|
  {
    if |pat| <= |x| - p then "" else pat[|x| - p..]
  }

  lemma MissingCompletes(x: string, p: nat, pat: string)
    requires p < |x| && (pat <= x[p..] || x[p..] <= pat) && forall i :: 1 <= i < |pat| ==> IsDigit(pat[i])
    ensures Digits(Missing(x, p, pat)) && pat <= (x + Missing(x, p, pat))[p..]
  {
    var q := Missing(x, p, pat);
    assert (x + q)[p..] == x[p..] + q;
  }

  /** An unclear place in the text for the first token, with the missing digits after it in the template, is
      misread. */
  lemma UnclearDiffers(v: string, t: Token, q: string, matches: seq<string>, server: string, p: nat, k: nat)
    requires k < |matches| && forall j :: k <= j < |matches| ==> matches[j] == "x"
    requires Digits(q) && Parse(v, |matches|) == [t] + Parse(q, |matches|) && !t.Lit?
    requires p < |Text(t, matches, server)| && Placeholder(k) <= (Text(t, matches, server) + q)[p..]
    ensures NoStrayDollar(Parse(v, |matches|), |matches|)
    ensures Sequential(v, matches, server) != Simultaneous(v, matches, server)
  {
    DigitsStay(q, matches, server);
    var ts := Parse(v, |matches|);
    assert ts[0] == t && ts[1..] == Parse(q, |matches|);
    assert forall i :: 1 <= i < |ts| ==> ts[i] == ts[1..][i - 1];
    assert Simultaneous(v, matches, server) == Text(t, matches, server) + q;
    RemainderDiffers(v, matches, server, k);
  }

  /** Every template without a stray "$" comes out right when capture `d` is `x` and everything else is "$"-free. */
  ghost predicate CaptureNeverMisread(x: string, d: nat, n: nat)
    requires d < n
  {
    forall v: string, matches: seq<string>, server: string ::
      (|matches| == n && matches[d] == x && OthersDollarFree(matches, d) && DollarFree(server)
       && NoStrayDollar(Parse(v, n), n)) ==>
        Sequential(v, matches, server) == Simultaneous(v, matches, server)
  }

  predicate OthersDollarFree(matches: seq<string>, d: nat) {
    forall j :: 0 <= j < |matches| && j != d ==> DollarFree(matches[j])
  }

  lemma CaptureIsHarmless(x: string, d: nat, matches: seq<string>, server: string)
    requires d < |matches| && matches[d] == x && OthersDollarFree(matches, d) && DollarFree(server)
    requires d >= 10 || ClearFrom(x, d + 1, |matches|)
    ensures Harmless(matches, server)
  {
    forall y: string, k: nat | DollarFree(y)
      ensures Clear(y, Placeholder(k))
    {
      DollarFreeIsClear(y, Placeholder(k));
    }
  }

  lemma UnclearCapture(x: string, d: nat, n: nat, k: nat, p: nat)
    requires d < 10 && d < k < n && p < |x| && (Placeholder(k) <= x[p..] || x[p..] <= Placeholder(k))
    ensures !CaptureNeverMisread(x, d, n)
  {
    var matches := seq(n, j => if j == d then x else "x");
    var q := Missing(x, p, Placeholder(k));
    MissingCompletes(x, p, Placeholder(k));
    var v := ['$', DigitChar(d)] + q;
    assert v[2..] == q && v[1] == DigitChar(d);
    assert SERVER[1] == '{' && !(SERVER <= v);
    assert Parse(v, n) == [Capture(d)] + Parse(q, n);
    UnclearDiffers(v, Capture(d), q, matches, "", p, k);
    assert |matches| == n && matches[d] == x && OthersDollarFree(matches, d) && DollarFree("");
  }

  /** Which captures are safe, exactly: over all templates without a stray "$" and all "$"-free other inputs, a
      capture comes out right if and only if it has no place that a pass after its own can misread. A capture from
      the eleventh on has no placeholder and is always safe. */
  lemma CaptureNeverMisreadExactlyWhen(x: string, d: nat, n: nat)
    requires d < n
    ensures CaptureNeverMisread(x, d, n) <==> d >= 10 || ClearFrom(x, d + 1, n)
  {
    if d >= 10 || ClearFrom(x, d + 1, n) {
      forall v: string, matches: seq<string>, server: string
        | |matches| == n && matches[d] == x && OthersDollarFree(matches, d) && DollarFree(server)
          && NoStrayDollar(Parse(v, n), n)
        ensures Sequential(v, matches, server) == Simultaneous(v, matches, server)
      {
        CaptureIsHarmless(x, d, matches, server);
        SequentialIsSimultaneous(v, matches, server);
      }
    } else {
      var k :| d + 1 <= k < n && !Clear(x, Placeholder(k));
      var p :| 0 <= p < |x| && (Placeholder(k) <= x[p..] || x[p..] <= Placeholder(k));
      UnclearCapture(x, d, n, k, p);
    }
  }

  /** The same for the server name. */
  ghost predicate ServerNeverMisread(x: string, n: nat) {
    forall v: string, matches: seq<string> ::
      |matches| == n && AllDollarFree(matches) && NoStrayDollar(Parse(v, n), n) ==>
        Sequential(v, matches, x) == Simultaneous(v, matches, x)
  }

  lemma UnclearServer(x: string, n: nat, k: nat, p: nat)
    requires k < n && p < |x| && (Placeholder(k) <= x[p..] || x[p..] <= Placeholder(k))
    ensures !ServerNeverMisread(x, n)
  {
    var matches := seq(n, _ => "x");
    var q := Missing(x, p, Placeholder(k));
    MissingCompletes(x, p, Placeholder(k));
    var v := SERVER + q;
    assert v[|SERVER|..] == q;
    assert Parse(v, n) == [Server] + Parse(q, n);
    UnclearDiffers(v, Server, q, matches, x, p, k);
    assert |matches| == n && AllDollarFree(matches);
  }

  lemma ServerNeverMisreadExactlyWhen(x: string, n: nat)
    ensures ServerNeverMisread(x, n) <==> ClearFrom(x, 0, n)
  {
    if ClearFrom(x, 0, n) {
      forall v: string, matches: seq<string> | |matches| == n && AllDollarFree(matches) && NoStrayDollar(Parse(v, n), n)
        ensures Sequential(v, matches, x) == Simultaneous(v, matches, x)
      {
        DollarFreeIsHarmless(matches, "");
        SequentialIsSimultaneous(v, matches, x);
      }
    } else {
      var k :| 0 <= k < n && !Clear(x, Placeholder(k));
      var p :| 0 <= p < |x| && (Placeholder(k) <= x[p..] || x[p..] <= Placeholder(k));
      UnclearServer(x, n, k, p);
    }
  }

  /** The placeholder of the server name, literally. */
  lemma ServerPlaceholder(server: string)
    ensures Sequential("${server}", [], server) == server
  {
    assert SERVER == "${server}" && SERVER + "" == SERVER;
    ReplaceHits(SERVER, "", server);
  }

  /** A concrete case: the first capture reads "$1", and is itself replaced by the second. */
  lemma RescannedCapture()
    ensures Sequential("$0", ["$1", "x"], "") == "x" && Simultaneous("$0", ["$1", "x"], "") == "$1"
  {
    assert Placeholder(0) == "$0" && Placeholder(1) == "$1";
    Rescanned("$0", ["$1", "x"], "");
  }

  lemma Rescanned(v: string, ms: seq<string>, server: string)
    requires v == Placeholder(0) == ['$', DigitChar(0)] && |ms| == 2 && ms[0] == Placeholder(1)
    ensures Sequential(v, ms, server) == ms[1] && Simultaneous(v, ms, server) == ms[0]
  {
    ServerPass(v, ms, server);
    assert v[2..] == "" && SERVER[1] == '{';
    assert Parse(v, 2) == [Capture(0)] + Parse("", 2) == [Capture(0)];
    assert [Capture(0)][1..] == [];
    assert Stage([Capture(0)], ms, server, 0) == v + "" == v;
    ReplaceHits(v, "", ms[0]);
    assert ms[0] + "" == ms[0] && ms[1] + "" == ms[1];
    ReplaceHits(ms[0], "", ms[1]);
    assert PassesFrom(v, ms, 0) == PassesFrom(ms[0], ms, 1) == PassesFrom(ms[1], ms, 2);
    assert Emit([Capture(0)], ms, server) == ms[0] + "";
  }

  /** With eleven captures or more "$10" is read as capture 1 followed by a zero. */
  lemma TenthIsCaptureOneThenZero(matches: seq<string>, server: string)
    requires |matches| >= 11 && Harmless(matches, server)
    ensures Sequential(Placeholder(10), matches, server) == matches[1] + "0"
  {
    var v := Placeholder(10);
    assert Decimal(10) == Decimal(1) + [DigitChar(0)];
    assert v == "$10";
    var ts := [Capture(1), Lit('0')];
    assert v[2..] == "0" && "0"[1..] == "";
    assert Parse(v, |matches|) == ts by {
      assert !(SERVER <= v) by { assert SERVER[1] == '{' && v[1] == '1'; }
      assert CaptureAt(v, |matches|) && CaptureIndex(v) == 1;
      assert Parse("0", |matches|) == [Lit('0')] by {
        assert !(SERVER <= "0");
        assert !CaptureAt("0", |matches|);
      }
    }
    SequentialIsSimultaneous(v, matches, server);
    assert ts[1..] == [Lit('0')] && ts[1..][1..] == [];
    assert Emit([Lit('0')], matches, server) == "0";
  }

  // ---------- whole payloads ----------

  datatype Json = Null | Bool(b: bool) | Number(r: real) | Str(s: string) | Arr(items: seq<Json>)
    | Obj(fields: map<string, Json>)

  /** `replacePlaceholders` */
  function ReplacePlaceholders(data: Json, matches: seq<string>, server: string): Json {
    match data
    case Str(s) => Str(Sequential(s, matches, server))
    case Arr(items) =>
      Arr(seq(|items|, i requires 0 <= i < |items| => ReplacePlaceholders(items[i], matches, server)))
    case Obj(fields) =>
      Obj(map k | k in fields :: ReplacePlaceholders(fields[k], matches, server))
    case _ => data
  }

  /** A way down a JSON tree. */
  datatype Key = Index(i: nat) | Field(name: string)

  function Child(data: Json, key: Key): seq<Json> {
    match (data, key)
    case (Arr(items), Index(i)) => if i < |items| then [items[i]] else []
    case (Obj(fields), Field(k)) => if k in fields then [fields[k]] else []
    case _ => []
  }

  /** The subtree at a path, as a list of zero or one trees. */
  function At(data: Json, path: seq<Key>): seq<Json>
    decreases |path|
  {
    if path == [] then [data]
    else
      var c := Child(data, path[0]);
      if c == [] then [] else At(c[0], path[1..])
  }

  /** The shape is kept: a path leads somewhere after the substitution exactly when it did before, to a node of
      the same kind with as many items or the same field names. Strings are substituted, in one pass where the
      template allows it, and every other leaf is untouched. */
  lemma {:induction false} TreeSubstitution(data: Json, matches: seq<string>, server: string, path: seq<Key>)
    ensures var before, after := At(data, path), At(ReplacePlaceholders(data, matches, server), path);
            && |before| == |after|
            && (before != [] ==>
                  match before[0]
                  case Arr(items) => after[0].Arr? && |after[0].items| == |items|
                  case Obj(fields) => after[0].Obj? && after[0].fields.Keys == fields.Keys
                  case Str(s) =>
                    && after[0] == Str(Sequential(s, matches, server))
                    && (Harmless(matches, server) && NoStrayDollar(Parse(s, |matches|), |matches|) ==>
                          after[0] == Str(Simultaneous(s, matches, server)))
                  case leaf => after[0] == leaf)
    decreases |path|
  {
    if path == [] {
      if data.Str? && Harmless(matches, server) && NoStrayDollar(Parse(data.s, |matches|), |matches|) {
        SequentialIsSimultaneous(data.s, matches, server);
      }
    } else {
      var c := Child(data, path[0]);
      var c' := Child(ReplacePlaceholders(data, matches, server), path[0]);
      if c == [] {
        assert c' == [];
      } else {
        assert c' == [ReplacePlaceholders(c[0], matches, server)];
        TreeSubstitution(c[0], matches, server, path[1..]);
      }
    }
  }
}
