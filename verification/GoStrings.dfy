/** The string operations of the Go standard library that the repository's logic rests on. */
module GoStrings {

  datatype Option<+T> = None | Some(value: T)

  /** `strings.Split` for a one-character separator. */
  function Split(s: string, sep: char): (parts: seq<string>)
    ensures |parts| >= 1
  {
    if s == "" then [""]
    else
      var rest := Split(s[1..], sep);
      if s[0] == sep then [""] + rest else [[s[0]] + rest[0]] + rest[1..]
  }

  /** `strings.Join` for a one-character separator. */
  function Join(parts: seq<string>, sep: char): string {
    if |parts| == 0 then ""
    else if |parts| == 1 then parts[0]
    else parts[0] + [sep] + Join(parts[1..], sep)
  }

  predicate NoneContain(parts: seq<string>, sep: char) {
    forall i :: 0 <= i < |parts| ==> sep !in parts[i]
  }

  lemma {:induction false} SplitFree(s: string, sep: char)
    ensures NoneContain(Split(s, sep), sep)
  {
    if s == "" {
    } else {
      SplitFree(s[1..], sep);
    }
  }

  /** Joining undoes splitting, so a string is determined by its parts. */
  lemma {:induction false} JoinSplit(s: string, sep: char)
    ensures Join(Split(s, sep), sep) == s
  {
    if s == "" {
    } else {
      JoinSplit(s[1..], sep);
      var rest := Split(s[1..], sep);
      if s[0] == sep {
        assert ([""] + rest)[1..] == rest;
      } else {
        var parts := [[s[0]] + rest[0]] + rest[1..];
        assert parts[1..] == rest[1..];
        if |rest| == 1 {
          assert Join(parts, sep) == [s[0]] + s[1..];
        } else {
          assert Join(parts, sep) == [s[0]] + (rest[0] + [sep] + Join(rest[1..], sep));
        }
      }
    }
  }

  lemma SplitInjective(a: string, b: string, sep: char)
    ensures Split(a, sep) == Split(b, sep) <==> a == b
  {
    JoinSplit(a, sep);
    JoinSplit(b, sep);
  }

  lemma {:induction false} SplitOfFree(s: string, sep: char)
    requires sep !in s
    ensures Split(s, sep) == [s]
  {
    if s == "" {
    } else {
      SplitOfFree(s[1..], sep);
      assert [s[0]] + s[1..] == s;
    }
  }

  lemma {:induction false} SplitConcat(a: string, b: string, sep: char)
    ensures Split(a + [sep] + b, sep) == Split(a, sep) + Split(b, sep)
  {
    if a == "" {
      assert a + [sep] + b == [sep] + b;
    } else {
      SplitConcat(a[1..], b, sep);
      var s, t := a + [sep] + b, a[1..] + [sep] + b;
      assert s[0] == a[0] && s[1..] == t;
      ConsConcat(a[0] == sep, a[0], Split(a[1..], sep), Split(b, sep));
    }
  }

  /** The step of `Split`, on the front of a concatenation. */
  lemma ConsConcat(apart: bool, c: char, x: seq<string>, y: seq<string>)
    requires |x| > 0
    ensures (if apart then [""] + (x + y) else [[c] + (x + y)[0]] + (x + y)[1..]) ==
            (if apart then [""] + x else [[c] + x[0]] + x[1..]) + y
  {
  }

  /** Splitting undoes joining, for a non-empty list of separator-free parts. */
  lemma {:induction false} SplitJoin(parts: seq<string>, sep: char)
    requires |parts| > 0 && NoneContain(parts, sep)
    ensures Split(Join(parts, sep), sep) == parts
  {
    SplitOfFree(parts[0], sep);
    if |parts| > 1 {
      SplitJoin(parts[1..], sep);
      SplitConcat(parts[0], Join(parts[1..], sep), sep);
      assert [parts[0]] + parts[1..] == parts;
    }
  }

  function TrimLeft(s: string, c: char): string {
    if s != "" && s[0] == c then TrimLeft(s[1..], c) else s
  }

  function TrimRight(s: string, c: char): string {
    if s != "" && s[|s| - 1] == c then TrimRight(s[..|s| - 1], c) else s
  }

  /** `strings.Trim` for a one-character cut set. */
  function Trim(s: string, c: char): string {
    TrimRight(TrimLeft(s, c), c)
  }

  predicate Only(s: string, c: char) { forall i :: 0 <= i < |s| ==> s[i] == c }

  lemma {:induction false} TrimLeftIs(s: string, c: char) returns (cut: string)
    ensures s == cut + TrimLeft(s, c) && Only(cut, c)
    ensures TrimLeft(s, c) != "" ==> TrimLeft(s, c)[0] != c
  {
    if s != "" && s[0] == c {
      cut := TrimLeftIs(s[1..], c);
      cut := [c] + cut;
    } else {
      cut := "";
    }
  }

  lemma {:induction false} TrimRightIs(s: string, c: char) returns (cut: string)
    ensures s == TrimRight(s, c) + cut && Only(cut, c)
    ensures TrimRight(s, c) != "" ==> TrimRight(s, c)[|TrimRight(s, c)| - 1] != c
    decreases |s|
  {
    if s != "" && s[|s| - 1] == c {
      cut := TrimRightIs(s[..|s| - 1], c);
      cut := cut + [c];
    } else {
      cut := "";
    }
  }

  /** Trimming cuts all of the character off both ends, and nothing else. */
  lemma TrimIs(s: string, c: char) returns (left: string, right: string)
    ensures s == left + Trim(s, c) + right && Only(left, c) && Only(right, c)
    ensures var t := Trim(s, c); t != "" ==> t[0] != c && t[|t| - 1] != c
  {
    left := TrimLeftIs(s, c);
    right := TrimRightIs(TrimLeft(s, c), c);
  }

  /** `strings.SplitN(s, sep, 2)`, with `None` when the separator does not occur. */
  function Cut(s: string, sep: char): Option<(string, string)> {
    if s == "" then None
    else if s[0] == sep then Some(("", s[1..]))
    else
      match Cut(s[1..], sep)
      case None => None
      case Some((a, b)) => Some(([s[0]] + a, b))
  }

  /** `Cut` finds the first separator, and nothing else. */
  lemma {:induction false} CutCorrect(s: string, sep: char)
    ensures Cut(s, sep).None? <==> sep !in s
    ensures forall a, b :: Cut(s, sep) == Some((a, b)) <==> s == a + [sep] + b && sep !in a
  {
    if s == "" {
    } else {
      CutCorrect(s[1..], sep);
      forall a: string, b: string
        ensures Cut(s, sep) == Some((a, b)) <==> s == a + [sep] + b && sep !in a
      {
        if s[0] == sep {
          if s == a + [sep] + b && sep !in a {
            assert (a + [sep] + b)[0] == sep;
            assert a == "";
            assert s[1..] == b;
          }
          if Cut(s, sep) == Some((a, b)) {
            assert s == a + [sep] + b;
          }
        } else {
          if s == a + [sep] + b && sep !in a {
            assert a != "";
            assert a[0] == s[0];
            assert s[1..] == a[1..] + [sep] + b;
            assert Cut(s[1..], sep) == Some((a[1..], b));
            assert [s[0]] + a[1..] == a;
          }
          if Cut(s, sep) == Some((a, b)) {
            assert Cut(s[1..], sep) == Some((a[1..], b));
            assert s[1..] == a[1..] + [sep] + b;
            assert s == [s[0]] + s[1..];
            assert a == [s[0]] + a[1..];
          }
        }
      }
    }
  }
}
