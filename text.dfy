/** Option/Result wrappers and the handful of Python string builtins the core relies on
    (`str.find`, `str.rfind`, `str.split`, `str.replace`), stated over `seq<char>`. */
module Wrappers {

  datatype Option<+T> = None | Some(value: T)

  datatype Result<+R, +E> = Success(value: R) | Failure(error: E)
}

module Text {

  import opened Wrappers

  /** `s.find(c)`: the first index holding `c`, or None when `c` does not occur. */
  function IndexOf(s: string, c: char): (r: Option<nat>)
    ensures r.Some? ==> r.value < |s|
  {
    if |s| == 0 then None
    else if s[0] == c then Some(0)
    else match IndexOf(s[1..], c)
      case None => None
      case Some(i) => Some(i + 1)
  }

  /** IndexOf finds the first occurrence, and finds nothing exactly when there is none. */
  lemma {:induction false} IndexOfSpec(s: string, c: char)
    ensures var r := IndexOf(s, c);
      && (r.Some? ==> s[r.value] == c && c !in s[..r.value])
      && (r.None? <==> c !in s)
  {
    if |s| > 0 && s[0] != c {
      IndexOfSpec(s[1..], c);
      assert s == [s[0]] + s[1..];
      match IndexOf(s[1..], c)
      case None =>
      case Some(i) => assert s[..i + 1] == [s[0]] + s[1..][..i];
    }
  }

  /** `s.rfind(c)`: the last index holding `c`, or None when `c` does not occur. */
  function LastIndexOf(s: string, c: char): (r: Option<nat>)
    ensures r.Some? ==> r.value < |s|
  {
    if |s| == 0 then None
    else if s[|s| - 1] == c then Some(|s| - 1)
    else LastIndexOf(s[..|s| - 1], c)
  }

  /** LastIndexOf finds the last occurrence, and finds nothing exactly when there is none. */
  lemma {:induction false} LastIndexOfSpec(s: string, c: char)
    ensures var r := LastIndexOf(s, c);
      && (r.Some? ==> s[r.value] == c && c !in s[r.value + 1..])
      && (r.None? <==> c !in s)
  {
    if |s| > 0 && s[|s| - 1] != c {
      var t := s[..|s| - 1];
      LastIndexOfSpec(t, c);
      assert s == t + [s[|s| - 1]];
      match LastIndexOf(t, c)
      case None =>
      case Some(i) => assert s[i + 1..] == t[i + 1..] + [s[|s| - 1]];
    }
  }

  /** The last occurrence is found: an index holding `c` with no `c` after it is what
      LastIndexOf returns. */
  lemma {:induction false} LastIndexOfAt(s: string, c: char, k: nat)
    requires k < |s| && s[k] == c
    requires forall i :: k < i < |s| ==> s[i] != c
    ensures LastIndexOf(s, c) == Some(k)
    decreases |s|
  {
    if k < |s| - 1 {
      LastIndexOfAt(s[..|s| - 1], c, k);
    }
  }

  /** `s.split(sep)` for a one-character separator: the pieces between the separators, in order.
      There is always at least one piece; the empty string splits into `[""]`. */
  function Split(s: string, sep: char): (pieces: seq<string>)
    ensures |pieces| >= 1
    ensures forall k :: 0 <= k < |pieces| ==> sep !in pieces[k]
    decreases |s|
  {
    IndexOfSpec(s, sep);
    match IndexOf(s, sep)
    case None => [s]
    case Some(i) => [s[..i]] + Split(s[i + 1..], sep)
  }

  /** `sep.join(pieces)`: the inverse of `Split`. */
  function Join(pieces: seq<string>, sep: char): string
    requires |pieces| >= 1
  {
    if |pieces| == 1 then pieces[0] else pieces[0] + [sep] + Join(pieces[1..], sep)
  }

  /** Joining the pieces of a split gives back the string. */
  lemma {:induction false} JoinSplit(s: string, sep: char)
    ensures Join(Split(s, sep), sep) == s
    decreases |s|
  {
    IndexOfSpec(s, sep);
    match IndexOf(s, sep)
    case None =>
    case Some(i) =>
      var rest := Split(s[i + 1..], sep);
      assert Split(s, sep) == [s[..i]] + rest;
      JoinCons(s[..i], rest, sep);
      JoinSplit(s[i + 1..], sep);
      assert s == s[..i] + [sep] + s[i + 1..];
  }

  lemma JoinCons(p: string, rest: seq<string>, sep: char)
    requires |rest| >= 1
    ensures Join([p] + rest, sep) == p + [sep] + Join(rest, sep)
  {
    assert ([p] + rest)[1..] == rest;
  }

  /** The first occurrence is found: an index holding `c` with no `c` before it is what
      IndexOf returns. */
  lemma {:induction false} IndexOfAt(s: string, c: char, k: nat)
    requires k < |s| && s[k] == c
    requires forall i :: 0 <= i < k ==> s[i] != c
    ensures IndexOf(s, c) == Some(k)
  {
    if k > 0 {
      IndexOfAt(s[1..], c, k - 1);
    }
  }

  /** Splitting a join of separator-free pieces gives back the pieces. */
  lemma {:induction false} SplitJoin(pieces: seq<string>, sep: char)
    requires |pieces| >= 1
    requires forall k :: 0 <= k < |pieces| ==> sep !in pieces[k]
    ensures Split(Join(pieces, sep), sep) == pieces
    decreases |pieces|
  {
    var p := pieces[0];
    if |pieces| == 1 {
      IndexOfSpec(p, sep);
    } else {
      var rest := Join(pieces[1..], sep);
      var s := p + [sep] + rest;
      assert s[..|p|] == p;
      IndexOfAt(s, sep, |p|);
      assert s[|p| + 1..] == rest;
      SplitJoin(pieces[1..], sep);
    }
  }

  /** `line.split(" ", 2)` unpacked into exactly three names, as in `dev, path, _ = ...`:
      None when the line has fewer than two spaces (the unpacking raises ValueError). */
  function Fields3(line: string): Option<(string, string, string)>
  {
    match IndexOf(line, ' ')
    case None => None
    case Some(i) =>
      var tail := line[i + 1..];
      match IndexOf(tail, ' ')
      case None => None
      case Some(j) => Some((line[..i], tail[..j], tail[j + 1..]))
  }

  /** The first two fields hold no space, and the unpacking fails exactly when the line has
      fewer than two spaces. */
  lemma Fields3Spec(line: string)
    ensures var r := Fields3(line);
      && (r.Some? ==> ' ' !in r.value.0 && ' ' !in r.value.1)
      && (r.None? <==> multiset(line)[' '] < 2)
  {
    IndexOfSpec(line, ' ');
    match IndexOf(line, ' ')
    case None =>
      assert ' ' !in multiset(line);
    case Some(i) =>
      var tail := line[i + 1..];
      SpacesAround(line, i);
      IndexOfSpec(tail, ' ');
      match IndexOf(tail, ' ')
      case None =>
        assert ' ' !in multiset(tail);
      case Some(j) =>
        SpacesAround(tail, j);
  }

  /** The spaces of a line split at a space that has none before it. */
  lemma SpacesAround(s: string, i: nat)
    requires i < |s| && s[i] == ' ' && ' ' !in s[..i]
    ensures multiset(s)[' '] == 1 + multiset(s[i + 1..])[' ']
  {
    assert s == s[..i] + [' '] + s[i + 1..];
    assert ' ' !in multiset(s[..i]);
  }

  /** Fields3 undoes the way a mount-table line is laid out: fields without spaces come back. */
  lemma Fields3OfLine(a: string, b: string, c: string)
    requires ' ' !in a && ' ' !in b
    ensures Fields3(a + " " + b + " " + c) == Some((a, b, c))
  {
    var line := a + " " + b + " " + c;
    assert line[..|a|] == a;
    IndexOfAt(line, ' ', |a|);
    var tail := line[|a| + 1..];
    assert tail == b + " " + c;
    assert tail[..|b|] == b;
    IndexOfAt(tail, ' ', |b|);
    assert tail[|b| + 1..] == c;
  }

  /** `s.replace(from, to)` for one-character strings: every `from` becomes `to`. */
  function ReplaceChar(s: string, from: char, to: char): (r: string)
    ensures |r| == |s|
  {
    if |s| == 0 then [] else [if s[0] == from then to else s[0]] + ReplaceChar(s[1..], from, to)
  }

  /** Every `from` becomes `to` and every other character stays. */
  lemma {:induction false} ReplaceCharSpec(s: string, from: char, to: char)
    ensures forall k :: 0 <= k < |s| ==> ReplaceChar(s, from, to)[k] == if s[k] == from then to else s[k]
  {
    if |s| > 0 {
      ReplaceCharSpec(s[1..], from, to);
      var r := ReplaceChar(s, from, to);
      forall k | 0 <= k < |s| ensures r[k] == if s[k] == from then to else s[k] {
        if k > 0 { assert r[k] == ReplaceChar(s[1..], from, to)[k - 1]; assert s[k] == s[1..][k - 1]; }
      }
    }
  }

  /** `s.replace(a + b, [c])`: occurrences of the two-character pattern `ab` are replaced by `c`,
      scanning left to right without overlaps, which is what Python's `str.replace` does. */
  function ReplacePair(s: string, a: char, b: char, c: char): string
    decreases |s|
  {
    if |s| >= 2 && s[0] == a && s[1] == b then [c] + ReplacePair(s[2..], a, b, c)
    else if |s| == 0 then []
    else [s[0]] + ReplacePair(s[1..], a, b, c)
  }

  /** Without an `a` there is nothing to replace. */
  lemma {:induction false} ReplacePairWithout(s: string, a: char, b: char, c: char)
    requires a !in s
    ensures ReplacePair(s, a, b, c) == s
  {
    if |s| > 0 {
      ReplacePairWithout(s[1..], a, b, c);
      assert s == [s[0]] + s[1..];
    }
  }
}
