/** split and join (string.cpp): tokens between runs of separator characters. */
module Tokens {

  predicate IsSeparator(c: char, sep: string) { c in sep }

  /** The end of the run of separators, or of other characters, that starts at from. */
  function Scan(s: string, sep: string, separators: bool, from: nat): (i: nat)
    requires from <= |s|
    ensures IsRunEnd(s, sep, separators, from, i)
    decreases |s| - from
  {
    if from == |s| || IsSeparator(s[from], sep) != separators then from else Scan(s, sep, separators, from + 1)
  }

  predicate IsRunEnd(s: string, sep: string, separators: bool, from: nat, i: nat) {
    && from <= i <= |s| && (forall j | from <= j < i :: IsSeparator(s[j], sep) == separators)
    && (i < |s| ==> IsSeparator(s[i], sep) != separators)
  }

  /** The maximal runs of characters that are not separators. */
  function Pieces(s: string, sep: string): seq<string>
    decreases |s|
  {
    var start := Scan(s, sep, true, 0);
    if start == |s| then [] else
    var end := Scan(s, sep, false, start);
    [s[start..end]] + Pieces(s[end..], sep)
  }

  lemma RunEndUnique(s: string, sep: string, separators: bool, from: nat, i: nat)
    requires IsRunEnd(s, sep, separators, from, i)
    ensures Scan(s, sep, separators, from) == i
  {
  }

  lemma RunEndShift(s: string, sep: string, separators: bool, from: nat, k: nat, i: nat)
    requires from + k <= i <= |s| && IsRunEnd(s, sep, separators, from + k, i)
    ensures IsRunEnd(s[from..], sep, separators, k, i - from)
  {
  }

  method Split(s: string, separator: string) returns (result: seq<string>)
    ensures result == Pieces(s, separator)
  {
    hide Pieces, IsSeparator;
    result := [];
    var i := 0;
    assert s[0..] == s;
    while i != |s|
      invariant i <= |s| && result + Pieces(s[i..], separator) == Pieces(s, separator)
    {
      ghost var begin := i;
      while i != |s| && IsSeparator(s[i], separator)
        invariant begin <= i <= |s| && forall m | begin <= m < i :: IsSeparator(s[m], separator)
      {
        i := i + 1;
      }
      var j := i;
      while j != |s| && !IsSeparator(s[j], separator)
        invariant i <= j <= |s| && forall m | i <= m < j :: !IsSeparator(s[m], separator)
      {
        j := j + 1;
      }
      OnePiece(s, separator, begin, i, j);
      if i != j {
        result := result + [s[i..j]];
        i := j;
      }
    }
    assert s[i..] == "";
    NoPieces(separator);
  }

  lemma NoPieces(sep: string)
    ensures Pieces("", sep) == []
  {
  }

  lemma FirstPiece(t: string, sep: string, start: nat, end: nat)
    requires start < |t| && IsRunEnd(t, sep, true, 0, start) && IsRunEnd(t, sep, false, start, end)
    ensures start < end && Pieces(t, sep) == [t[start..end]] + Pieces(t[end..], sep)
  {
  }

  lemma OnlySeparators(t: string, sep: string)
    requires IsRunEnd(t, sep, true, 0, |t|)
    ensures Pieces(t, sep) == []
  {
    hide IsSeparator;
    RunEndUnique(t, sep, true, 0, |t|);
  }

  lemma RunBounds(s: string, sep: string, separators: bool, from: nat, i: nat)
    requires IsRunEnd(s, sep, separators, from, i)
    ensures from <= i <= |s|
  {
  }

  /** The piece between i and j, after separators that start at begin. */
  lemma OnePiece(s: string, sep: string, begin: nat, i: nat, j: nat)
    requires IsRunEnd(s, sep, true, begin, i) && IsRunEnd(s, sep, false, i, j)
    ensures begin <= i <= j <= |s|
    ensures Pieces(s[begin..], sep) == (if i != j then [s[i..j]] else []) + Pieces(s[j..], sep)
    ensures i == j ==> j == |s|
  {
    hide Pieces, IsRunEnd, IsSeparator;
    RunBounds(s, sep, true, begin, i);
    RunBounds(s, sep, false, i, j);
    RunEndShift(s, sep, true, begin, 0, i);
    var t := s[begin..];
    if i < |s| {
      RunEndShift(s, sep, false, begin, i - begin, j);
      FirstPiece(t, sep, i - begin, j - begin);
      assert t[i - begin..j - begin] == s[i..j] && t[j - begin..] == s[j..];
    } else {
      OnlySeparators(t, sep);
      assert s[j..] == "";
      NoPieces(sep);
    }
  }

  function Joined(arr: seq<string>, delimiter: string): string {
    if arr == [] then ""
    else if |arr| == 1 then arr[0]
    else Joined(arr[..|arr| - 1], delimiter) + delimiter + arr[|arr| - 1]
  }

  predicate TokenOk(t: string, sep: string) { t != "" && forall i | 0 <= i < |t| :: !IsSeparator(t[i], sep) }

  lemma {:induction false} PiecesAreTokens(s: string, sep: string)
    ensures forall k | 0 <= k < |Pieces(s, sep)| :: TokenOk(Pieces(s, sep)[k], sep)
    decreases |s|
  {
    var start := Scan(s, sep, true, 0);
    if start < |s| { PiecesAreTokens(s[Scan(s, sep, false, start)..], sep); }
  }

  lemma {:induction false} JoinedCons(x: string, rest: seq<string>, d: string)
    requires rest != []
    ensures Joined([x] + rest, d) == x + d + Joined(rest, d)
  {
    var all := [x] + rest;
    if |rest| == 1 {
      assert all[..1] == [x];
    } else {
      assert all[..|all| - 1] == [x] + rest[..|rest| - 1];
      JoinedCons(x, rest[..|rest| - 1], d);
    }
  }

  lemma WordRun(x: string, d: string, rest: string)
    requires TokenOk(x, d) && d != ""
    ensures IsRunEnd(x + d + rest, d, true, 0, 0) && IsRunEnd(x + d + rest, d, false, 0, |x|)
  {
  }

  lemma PiecesAfter(x: string, d: string, rest: string)
    requires TokenOk(x, d) && d != ""
    ensures Pieces(x + d + rest, d) == [x] + Pieces(rest, d)
  {
    hide IsRunEnd, Pieces, IsSeparator;
    var s := x + d + rest;
    WordRun(x, d, rest);
    OnePiece(s, d, 0, 0, |x|);
    assert s == x + (d + rest);
    assert s[0..] == s && s[0..|x|] == x && s[|x|..] == d + rest;
    DropSeparators(d, rest);
  }

  lemma RunsAfter(d: string, rest: string, separators: bool, from: nat, i: nat)
    requires IsRunEnd(rest, d, separators, from, i)
    ensures IsRunEnd(d + rest, d, separators, |d| + from, |d| + i)
  {
  }

  lemma RunFromStart(d: string, rest: string, i: nat)
    requires IsRunEnd(d + rest, d, true, |d|, i)
    ensures IsRunEnd(d + rest, d, true, 0, i)
  {
  }

  lemma DropSeparators(d: string, rest: string)
    ensures Pieces(d + rest, d) == Pieces(rest, d)
  {
    hide IsRunEnd, Pieces;
    var s, n := d + rest, |d|;
    var start := Scan(rest, d, true, 0);
    assert 0 <= start <= |rest| by { RunBounds(rest, d, true, 0, start); }
    var end := Scan(rest, d, false, start);
    RunBounds(rest, d, false, start, end);
    RunsAfter(d, rest, true, 0, start);
    RunFromStart(d, rest, n + start);
    RunsAfter(d, rest, false, start, end);
    OnePiece(rest, d, 0, start, end);
    OnePiece(s, d, 0, n + start, n + end);
    assert s[0..] == s && rest[0..] == rest;
    assert s[n + start..n + end] == rest[start..end] && s[n + end..] == rest[end..];
  }

  lemma {:induction false} JoinedPieces(arr: seq<string>, d: string)
    requires d != "" && forall k | 0 <= k < |arr| :: TokenOk(arr[k], d)
    ensures Pieces(Joined(arr, d), d) == arr
  {
    if |arr| == 1 {
      var x := arr[0];
      OnePiece(x, d, 0, 0, |x|);
      NoPieces(d);
      assert x[0..] == x && x[0..|x|] == x && x[|x|..] == "";
    } else if |arr| > 1 {
      var rest := arr[1..];
      assert arr == [arr[0]] + rest;
      JoinedCons(arr[0], rest, d);
      PiecesAfter(arr[0], d, Joined(rest, d));
      JoinedPieces(rest, d);
    }
  }

  /** Without separators a text is one piece. */
  lemma NoSeparators(s: string)
    ensures Pieces(s, "") == if s == "" then [] else [s]
  {
    assert IsRunEnd(s, "", true, 0, 0) && IsRunEnd(s, "", false, 0, |s|);
    OnePiece(s, "", 0, 0, |s|);
    NoPieces("");
    assert s[0..] == s && s[0..|s|] == s && s[|s|..] == "";
  }

  /** Splitting undoes joining exactly when no string is empty or holds a separator, and,
      if there is no separator, there are not two strings. */
  lemma SplitJoin(arr: seq<string>, d: string)
    ensures Pieces(Joined(arr, d), d) == arr <==>
            (forall k | 0 <= k < |arr| :: TokenOk(arr[k], d)) && (d == "" ==> |arr| <= 1)
  {
    hide IsSeparator;
    if d == "" {
      NoSeparators(Joined(arr, d));
    }
    if !(forall k | 0 <= k < |arr| :: TokenOk(arr[k], d)) {
      PiecesAreTokens(Joined(arr, d), d);
    } else if d != "" {
      JoinedPieces(arr, d);
    } else if |arr| == 1 {
      assert arr == [arr[0]];
    }
  }
}
