/** The string helpers of string.cpp and string.h. A std::string is a Dafny string;
    where the original returns npos, find-like functions return the length. */
module StringUtil {

  predicate IsBytes(s: string) { forall i | 0 <= i < |s| :: s[i] as int < 256 }

  predicate Free(s: string, c: char) { forall i | 0 <= i < |s| :: s[i] != c }

  /** The first position of c at or after from, or |s|. */
  function Find(s: string, c: char, from: nat := 0): (i: nat)
    requires from <= |s|
    ensures from <= i <= |s| && (i < |s| ==> s[i] == c)
    ensures forall j | from <= j < i :: s[j] != c
    decreases |s| - from
  {
    if from == |s| || s[from] == c then from else Find(s, c, from + 1)
  }

  /** The last position of c before end, or |s|. */
  function FindLast(s: string, c: char, end: nat): (i: nat)
    requires end <= |s|
    ensures i < end || i == |s|
    ensures i < end ==> s[i] == c && forall j | i < j < end :: s[j] != c
    ensures i == |s| ==> forall j | 0 <= j < end :: s[j] != c
  {
    if end == 0 then |s| else if s[end - 1] == c then end - 1 else FindLast(s, c, end - 1)
  }

  /** std::string ends with the given text. */
  predicate EndsWith(s: string, tail: string) { |tail| <= |s| && s[|s| - |tail|..] == tail }

  lemma CutLast(a: string, c: char, b: string)
    requires Free(b, c)
    ensures var s := a + [c] + b; FindLast(s, c, |s|) == |a| < |s| && s[..|a|] == a && s[|a| + 1..] == b
  {
    var s := a + [c] + b;
    assert s[|a|] == c && forall i | |a| < i < |s| :: s[i] == b[i - |a| - 1];
  }

  predicate OccursAt(s: string, pattern: string, i: int) {
    0 <= i && i + |pattern| <= |s| && s[i..i + |pattern|] == pattern
  }

  /** std::string::find of a string, or |s| + 1 when there is none. */
  function FindString(s: string, pattern: string, from: nat): (i: nat)
    requires from <= |s|
    ensures (OccursAt(s, pattern, i) && from <= i) || i == |s| + 1
    ensures forall j | from <= j < i :: !OccursAt(s, pattern, j)
    decreases |s| - from
  {
    if OccursAt(s, pattern, from) then from
    else if from == |s| then |s| + 1
    else FindString(s, pattern, from + 1)
  }

  predicate Contains(s: string, pattern: string) { exists i | 0 <= i <= |s| :: OccursAt(s, pattern, i) }

  /** std::string::replace of len characters at an offset past an already finished part. */
  lemma Splice(done: string, rest: string, k: nat, len: nat, mid: string, tail: string)
    requires k + len <= |rest|
    ensures (done + rest)[..|done| + k] + mid + (done + rest)[|done| + k + len..] == (done + (rest[..k] + mid)) + rest[k + len..]
    ensures done + (rest[..k] + (mid + tail)) == (done + (rest[..k] + mid)) + tail
  {
  }

  // ----- replaceAllDistinct -----

  /** Leftmost non-overlapping occurrences of old replaced by new, in one pass. */
  function Replace(s: string, old_: string, new_: string): string
    requires old_ != ""
    decreases |s|
  {
    if s == "" then ""
    else if old_ <= s then new_ + Replace(s[|old_|..], old_, new_)
    else [s[0]] + Replace(s[1..], old_, new_)
  }

  lemma ReplaceStep(s: string, old_: string, new_: string)
    requires old_ != "" && s != "" && !OccursAt(s, old_, 0)
    ensures Replace(s, old_, new_) == [s[0]] + Replace(s[1..], old_, new_)
  {
    assert |old_| <= |s| ==> s[0..|old_|] == s[..|old_|];
  }

  lemma {:induction false} ReplaceSkip(s: string, old_: string, new_: string, k: nat)
    requires old_ != "" && k <= |s| && forall j | 0 <= j < k :: !OccursAt(s, old_, j)
    ensures Replace(s, old_, new_) == s[..k] + Replace(s[k..], old_, new_)
    decreases k
  {
    hide OccursAt, Replace;
    if k > 0 {
      var rest := s[1..];
      assert s == [s[0]] + rest;
      forall j | 0 <= j < k - 1 ensures !OccursAt(rest, old_, j) { OccursShift([s[0]], rest, old_, j); }
      ReplaceStep(s, old_, new_);
      ReplaceSkip(rest, old_, new_, k - 1);
      assert rest[k - 1..] == s[k..] && [s[0]] + rest[..k - 1] == s[..k];
    } else {
      assert s[0..] == s;
    }
  }

  lemma OccursShift(done: string, rest: string, pattern: string, j: nat)
    ensures OccursAt(rest, pattern, j) <==> OccursAt(done + rest, pattern, |done| + j)
  {
  }

  lemma FindInRest(done: string, rest: string, pattern: string)
    ensures var found := FindString(done + rest, pattern, |done|);
            && (found <= |done + rest| ==> OccursAt(rest, pattern, found - |done|))
            && (forall j | 0 <= j < found - |done| :: !OccursAt(rest, pattern, j))
  {
    hide OccursAt;
    var found := FindString(done + rest, pattern, |done|);
    if found <= |done + rest| { OccursShift(done, rest, pattern, found - |done|); }
    forall j | 0 <= j < found - |done| ensures !OccursAt(rest, pattern, j) {
      OccursShift(done, rest, pattern, j);
    }
  }

  /** The text and the position after k rounds of replaceAllDistinct with an empty old value. */
  function Inserted(s: string, newValue: string, k: nat): (r: (string, nat))
    ensures r.1 <= |r.0|
  {
    if k == 0 then (s, 0) else
    var (str, pos) := Inserted(s, newValue, k - 1);
    var found := FindString(str, "", pos);
    if found <= |str| then (str[..found] + newValue + str[found..], found + |newValue|) else (str, pos)
  }

  /** An empty old value is found in every round, so that the loop does not end. */
  lemma EmptyIsAlwaysFound(s: string, newValue: string, k: nat)
    ensures var (str, pos) := Inserted(s, newValue, k); FindString(str, "", pos) == pos <= |str|
  {
    var (str, pos) := Inserted(s, newValue, k);
    assert OccursAt(str, "", pos);
  }

  /** Terminates although the string may grow: what is left to scan shrinks. */
  method ReplaceAllDistinct(s: string, oldValue: string, newValue: string) returns (str: string)
    requires oldValue != ""
    ensures str == Replace(s, oldValue, newValue)
  {
    hide OccursAt, Replace;
    str := s;
    var pos := 0;
    ghost var done, rest := "", s;
    while true
      invariant pos == |done| && str == done + rest
      invariant done + Replace(rest, oldValue, newValue) == Replace(s, oldValue, newValue)
      decreases |rest|
    {
      var found := FindString(str, oldValue, pos);
      FindInRest(done, rest, oldValue);
      if found > |str| {
        ReplaceSkip(rest, oldValue, newValue, |rest|);
        assert rest[..|rest|] == rest && rest[|rest|..] == "";
        ReplaceEmpty(oldValue, newValue);
        return;
      }
      ghost var k := found - pos;
      ReplaceSkip(rest, oldValue, newValue, k);
      ReplaceHere(rest, k, oldValue, newValue);
      Splice(done, rest, k, |oldValue|, newValue, Replace(rest[k + |oldValue|..], oldValue, newValue));
      str := str[..found] + newValue + str[found + |oldValue|..];
      pos := found + |newValue|;
      done, rest := done + (rest[..k] + newValue), rest[k + |oldValue|..];
    }
  }

  lemma ReplaceEmpty(old_: string, new_: string)
    requires old_ != ""
    ensures Replace("", old_, new_) == ""
  {
  }

  lemma ReplaceHere(rest: string, k: nat, old_: string, new_: string)
    requires old_ != "" && OccursAt(rest, old_, k)
    ensures k + |old_| <= |rest|
    ensures Replace(rest[k..], old_, new_) == new_ + Replace(rest[k + |old_|..], old_, new_)
  {
  }

  // ----- processEscapeChar and processEscapeCharReverse -----

  predicate IsEscapeLetter(c: char) { c == 'n' || c == 'r' || c == 't' }

  /** The character an escape sequence stands for. */
  function EscapedBy(letter: char): char
    requires IsEscapeLetter(letter)
  {
    if letter == 'n' then '\n' else if letter == 'r' then '\r' else '\t'
  }

  predicate IsEscape(s: string, i: int) { 0 <= i && i + 1 < |s| && s[i] == '\\' && IsEscapeLetter(s[i + 1]) }

  function Unescape(s: string): string {
    if s == "" then ""
    else if IsEscape(s, 0) then [EscapedBy(s[1])] + Unescape(s[2..])
    else [s[0]] + Unescape(s[1..])
  }

  function Escape(s: string): string {
    if s == "" then "" else EscapeChar(s[0]) + Escape(s[1..])
  }

  function EscapeChar(c: char): string {
    if c == '\n' then "\\n" else if c == '\r' then "\\r" else if c == '\t' then "\\t" else [c]
  }

  /** The result if everything before pos is finished. */
  function UnescapeFrom(str: string, pos: nat): string
    requires pos <= |str|
  {
    str[..pos] + Unescape(str[pos..])
  }

  lemma FromReplaced(str: string, pos: nat)
    requires IsEscape(str, pos)
    ensures var next := str[..pos] + [EscapedBy(str[pos + 1])] + str[pos + 2..];
            pos + 1 <= |next| && UnescapeFrom(next, pos + 1) == UnescapeFrom(str, pos)
  {
  }

  lemma FromKept(str: string, pos: nat)
    requires pos < |str| && !IsEscape(str, pos)
    ensures UnescapeFrom(str, pos + 1) == UnescapeFrom(str, pos)
  {
  }

  lemma {:induction false} FromSkipped(str: string, from: nat, pos: nat)
    requires from <= pos <= |str| && forall j | from <= j < pos :: str[j] != '\\'
    ensures UnescapeFrom(str, from) == UnescapeFrom(str, pos)
    decreases pos - from
  {
    hide UnescapeFrom;
    if from < pos {
      FromKept(str, from);
      FromSkipped(str, from + 1, pos);
    }
  }

  method ProcessEscapeChar(s: string) returns (str: string)
    ensures str == Unescape(s)
  {
    hide UnescapeFrom, Unescape;
    str := s;
    var pos := Find(str, '\\');
    FromStart(s);
    FromSkipped(s, 0, pos);
    while pos < |str|
      invariant 0 <= pos <= |str| && UnescapeFrom(str, pos) == Unescape(s) && (pos < |str| ==> str[pos] == '\\')
      decreases |str| - pos
    {
      if pos + 1 < |str| && IsEscapeLetter(str[pos + 1]) {
        FromReplaced(str, pos);
        str := str[..pos] + [EscapedBy(str[pos + 1])] + str[pos + 2..];
      } else {
        FromKept(str, pos);
      }
      var next := Find(str, '\\', pos + 1);
      FromSkipped(str, pos + 1, next);
      pos := next;
    }
    FromStart(str);
  }

  lemma FromStart(s: string)
    ensures UnescapeFrom(s, 0) == Unescape(s) && UnescapeFrom(s, |s|) == s
  {
  }

  lemma UnescapeAt(s: string, k: nat)
    requires k < |s|
    ensures Unescape(s[k..]) == if IsEscape(s, k) then [EscapedBy(s[k + 1])] + Unescape(s[k + 2..])
                                else [s[k]] + Unescape(s[k + 1..])
  {
  }

  method ProcessEscapeCharReverse(s: string) returns (str: string)
    ensures str == Escape(s)
  {
    str := s;
    var pos := 0;
    ghost var done, rest := "", s;
    while pos < |str|
      invariant pos == |done| && str == done + rest && done + Escape(rest) == Escape(s)
      decreases |rest|
    {
      ghost var c := rest[0];
      assert str[pos] == c;
      Splice(done, rest, 0, 1, EscapeChar(c), Escape(rest[1..]));
      ghost var next := str[..pos] + EscapeChar(c) + str[pos + 1..];
      assert rest[..0] + EscapeChar(c) == EscapeChar(c) && rest[..0] + Escape(rest) == Escape(rest);
      if str[pos] == '\n' {
        str := str[..pos] + "\\n" + str[pos + 1..];
        pos := pos + 1;
      } else if str[pos] == '\r' {
        str := str[..pos] + "\\r" + str[pos + 1..];
        pos := pos + 1;
      } else if str[pos] == '\t' {
        str := str[..pos] + "\\t" + str[pos + 1..];
        pos := pos + 1;
      } else {
        assert str[..pos] + [str[pos]] + str[pos + 1..] == str;
      }
      assert str == next;
      pos := pos + 1;
      done, rest := done + EscapeChar(c), rest[1..];
    }
  }

  /** Unescaping undoes escaping exactly for strings without an escape sequence. */
  lemma EscapeRoundTrip(s: string)
    ensures Unescape(Escape(s)) == s <==> forall i :: !IsEscape(s, i)
  {
    EscapeShrinks(s);
    if i :| IsEscape(s, i) {
      EscapeLoses(s, i);
    } else {
      EscapeKeeps(s);
    }
  }

  lemma {:induction false} EscapeKeeps(s: string)
    requires forall i :: !IsEscape(s, i)
    ensures Unescape(Escape(s)) == s
  {
    if s != "" {
      forall i ensures !IsEscape(s[1..], i) { assert IsEscape(s[1..], i) ==> IsEscape(s, i + 1); }
      EscapeKeeps(s[1..]);
      var e, rest := Escape(s), Escape(s[1..]);
      assert e == EscapeChar(s[0]) + rest;
      if |EscapeChar(s[0])| == 2 {
        assert e[2..] == rest;
      } else {
        assert e[1..] == rest && !IsEscape(s, 0);
        if s[0] == '\\' && |s| > 1 {
          assert rest[0] == EscapeChar(s[1])[0];
        }
      }
    }
  }

  lemma EscapeCons(s: string)
    requires s != ""
    ensures Escape(s) == EscapeChar(s[0]) + Escape(s[1..])
  {
  }

  /** Undoing the escaping of a text takes its first character, or an escape sequence that
      was there before. */
  lemma EscapeHead(s: string)
    requires s != ""
    ensures if IsEscape(s, 0) then |Unescape(Escape(s))| == 1 + |Unescape(Escape(s[2..]))|
            else |Unescape(Escape(s))| == 1 + |Unescape(Escape(s[1..]))|
  {
    hide Unescape, Escape;
    var e, rest := Escape(s), Escape(s[1..]);
    EscapeCons(s);
    assert e[0..] == e;
    UnescapeAt(e, 0);
    if |EscapeChar(s[0])| == 2 {
      assert e[2..] == rest;
    } else {
      assert e == [s[0]] + rest && e[1..] == rest;
      if |s| > 1 {
        EscapeCons(s[1..]);
        assert s[1..][1..] == s[2..] && s[1..][0] == s[1];
        assert rest == EscapeChar(s[1]) + Escape(s[2..]);
        assert e[1] == EscapeChar(s[1])[0];
        if IsEscape(s, 0) { assert e[2..] == Escape(s[2..]); }
      } else {
        assert s[1..] == "";
        NothingEscaped();
      }
    }
  }

  lemma {:induction false} EscapeShrinks(s: string)
    ensures |Unescape(Escape(s))| <= |s|
    decreases |s|
  {
    hide Escape, Unescape;
    if s == "" {
      NothingEscaped();
    } else {
      EscapeHead(s);
      if IsEscape(s, 0) { EscapeShrinks(s[2..]); } else { EscapeShrinks(s[1..]); }
    }
  }

  lemma NothingEscaped()
    ensures Escape("") == "" && Unescape("") == ""
  {
  }

  /** The letters of the three escape sequences, and the characters that have none. */
  lemma EscapeLetters(c: char)
    ensures Escape("\n") == "\\n" && Escape("\r") == "\\r" && Escape("\t") == "\\t"
    ensures Unescape("\\n") == "\n" && Unescape("\\r") == "\r" && Unescape("\\t") == "\t"
    ensures c != '\n' && c != '\r' && c != '\t' ==> Escape([c]) == [c]
    ensures c != 'n' && c != 'r' && c != 't' ==> Unescape(['\\', c]) == ['\\', c]
  {
    assert ['\\', c][1..] == [c];
    assert Unescape([c]) == [c];
  }

  lemma {:induction false} EscapeLoses(s: string, i: int)
    requires IsEscape(s, i)
    ensures |Unescape(Escape(s))| < |s|
    decreases |s|
  {
    hide Escape, Unescape;
    EscapeHead(s);
    if IsEscape(s, 0) {
      EscapeShrinks(s[2..]);
    } else {
      assert IsEscape(s[1..], i - 1);
      EscapeLoses(s[1..], i - 1);
    }
  }

  // ----- lines and trimming -----

  /** What repeated getline calls deliver: the pieces between delimiters, without an
      empty piece after the last one. */
  function Lines(s: string, delimiter: char): seq<string>
    decreases |s|
  {
    if s == "" then [] else
    var i := Find(s, delimiter);
    if i == |s| then [s] else [s[..i]] + Lines(s[i + 1..], delimiter)
  }

  function LineBreak(s: string): char { if '\n' in s then '\n' else '\r' }

  lemma LinesCons(line: string, rest: string, delimiter: char)
    requires Free(line, delimiter)
    ensures Lines(line + [delimiter] + rest, delimiter) == [line] + Lines(rest, delimiter)
  {
    var s := line + [delimiter] + rest;
    var i := Find(s, delimiter);
    assert i <= |line| by { assert s[|line|] == delimiter; }
    assert forall j | 0 <= j < |line| :: s[j] == line[j];
    assert s[..i] == line && s[i + 1..] == rest;
  }

  /** Every line ended by a line feed. */
  function Unlines(lines: seq<string>): string {
    if lines == [] then "" else Unlines(lines[..|lines| - 1]) + lines[|lines| - 1] + "\n"
  }

  lemma UnlinesNothing()
    ensures Unlines([]) == ""
  {
  }

  lemma UnlinesOne(line: string)
    ensures Unlines([line]) == line + "\n"
  {
  }

  lemma {:induction false} UnlinesAppend(xs: seq<string>, ys: seq<string>)
    ensures Unlines(xs + ys) == Unlines(xs) + Unlines(ys)
    decreases |ys|
  {
    if ys == [] {
      assert xs + ys == xs;
    } else {
      var all, most := xs + ys, ys[..|ys| - 1];
      assert all[..|all| - 1] == xs + most && all[|all| - 1] == ys[|ys| - 1];
      UnlinesAppend(xs, most);
    }
  }

  lemma NoLines(delimiter: char)
    ensures Lines("", delimiter) == []
  {
  }

  lemma {:induction false} LinesAppend(s: string, t: string)
    requires s == "" || s[|s| - 1] == '\n'
    ensures Lines(s + t, '\n') == Lines(s, '\n') + Lines(t, '\n')
    decreases |s|
  {
    hide Lines;
    if s == "" {
      NoLines('\n');
      assert s + t == t;
    } else {
      var i := Find(s, '\n');
      var line, rest := s[..i], s[i + 1..];
      assert s == line + ['\n'] + rest && s + t == line + ['\n'] + (rest + t);
      LinesCons(line, rest, '\n');
      LinesCons(line, rest + t, '\n');
      LinesAppend(rest, t);
    }
  }

  lemma {:induction false} LinesOfUnlines(lines: seq<string>)
    requires forall k | 0 <= k < |lines| :: Free(lines[k], '\n')
    ensures Lines(Unlines(lines), '\n') == lines
    ensures lines != [] ==> Unlines(lines) != "" && Unlines(lines)[|Unlines(lines)| - 1] == '\n'
  {
    if lines != [] {
      var n := |lines| - 1;
      LinesOfUnlines(lines[..n]);
      var init, last := Unlines(lines[..n]), lines[n];
      assert Unlines(lines) == init + (last + "\n");
      LinesAppend(init, last + "\n");
      LinesCons(last, "", '\n');
      assert last + ['\n'] + "" == last + "\n";
      assert lines == lines[..n] + [last];
    }
  }

  /** One of space, tab, line feed, vertical tab, form feed and carriage return. */
  predicate IsWhitespace(c: char) { c == ' ' || 9 <= c as int <= 13 }

  /** trimWhitespace with its default arguments: only the end is trimmed. */
  function TrimWhitespace(s: string): string {
    if s == "" then ""
    else if IsWhitespace(s[|s| - 1]) then TrimWhitespace(s[..|s| - 1])
    else s
  }

  function SkipSpaces(s: string): string {
    if s != "" && s[0] == ' ' then SkipSpaces(s[1..]) else s
  }

  function DropSpaces(s: string): string {
    if s != "" && s[|s| - 1] == ' ' then DropSpaces(s[..|s| - 1]) else s
  }

  /** trim: spaces off both ends, but a string of spaces only is returned as it is. */
  function Trim(s: string): string {
    if SkipSpaces(s) == "" then s else DropSpaces(SkipSpaces(s))
  }

  lemma {:induction false} SkipShrinks(s: string)
    ensures |SkipSpaces(s)| <= |s| && (|SkipSpaces(s)| == |s| ==> SkipSpaces(s) == s)
  {
    if s != "" && s[0] == ' ' { SkipShrinks(s[1..]); }
  }

  lemma {:induction false} TrimShrinks(s: string)
    ensures TrimWhitespace(s) <= s
  {
    if s != "" { TrimShrinks(s[..|s| - 1]); }
  }

  // ----- decimal numbers -----

  function ToDecimal(n: nat): string {
    if n < 10 then [(48 + n) as char] else ToDecimal(n / 10) + [(48 + n % 10) as char]
  }

  predicate IsDigit(c: char) { '0' <= c <= '9' }

  predicate AllDigits(s: string) { forall i | 0 <= i < |s| :: IsDigit(s[i]) }

  /** The number a string of digits stands for. */
  function FromDecimal(s: string): nat
    requires AllDigits(s)
  {
    if s == "" then 0 else FromDecimal(s[..|s| - 1]) * 10 + (s[|s| - 1] as int - 48)
  }

  lemma {:induction false} DecimalRoundTrip(n: nat)
    ensures ToDecimal(n) != "" && AllDigits(ToDecimal(n)) && FromDecimal(ToDecimal(n)) == n
    ensures n > 0 ==> ToDecimal(n) != "0"
  {
    var s := ToDecimal(n);
    if n < 10 {
      assert FromDecimal(s[..0]) == 0;
    } else {
      DecimalRoundTrip(n / 10);
      assert s[..|s| - 1] == ToDecimal(n / 10);
    }
  }

  lemma DecimalInjective(m: nat, n: nat)
    requires ToDecimal(m) == ToDecimal(n)
    ensures m == n
  {
    DecimalRoundTrip(m);
    DecimalRoundTrip(n);
  }

  // ----- lists of names -----

  predicate Distinct(order: seq<string>) { forall i, j | 0 <= i < j < |order| :: order[i] != order[j] }

  lemma DistinctCons(head: string, rest: seq<string>)
    ensures Distinct([head] + rest) <==> Distinct(rest) && head !in rest
  {
    var all := [head] + rest;
    assert all[1..] == rest;
    if Distinct(all) {
      forall i, j | 0 <= i < j < |rest| ensures rest[i] != rest[j] {
        assert all[i + 1] != all[j + 1];
      }
      forall j | 0 <= j < |rest| ensures rest[j] != head { assert all[0] != all[j + 1]; }
    }
  }

  lemma DistinctAppend(order: seq<string>, section: string)
    requires Distinct(order) && section !in order
    ensures Distinct(order + [section])
  {
  }
}
