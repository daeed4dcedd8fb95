/** What the single lines of an INI text do, character by character. */
module IniLines {
  import opened StringUtil
  import opened IniModel
  import opened IniRoundTrip

  const BLANKS := [' ', '\t', '\n', 11 as char, 12 as char, '\r']

  predicate Blank(s: string) { forall i | 0 <= i < |s| :: s[i] in BLANKS }

  lemma WhitespaceIsBlank(c: char)
    ensures IsWhitespace(c) <==> c in BLANKS
  {
    assert BLANKS[0] == ' ' && BLANKS[1] == '\t' && BLANKS[2] == '\n' && BLANKS[3] == 11 as char && BLANKS[4] == 12 as char
           && BLANKS[5] == '\r';
  }

  lemma {:induction false} TrimmedBlank(t: string, w: string)
    requires Blank(w) && (t != "" ==> t[|t| - 1] !in BLANKS)
    ensures TrimWhitespace(t + w) == t
    decreases |w|
  {
    hide IsWhitespace;
    if w == "" {
      assert t + w == t;
      if t != "" { WhitespaceIsBlank(t[|t| - 1]); }
    } else {
      var n := |w| - 1;
      WhitespaceIsBlank(w[n]);
      assert (t + w)[|t| + n] == w[n] && (t + w)[..|t| + n] == t + w[..n];
      TrimmedBlank(t, w[..n]);
    }
  }

  // ----- comments and blank lines -----

  /** Blank, or with one of the three comment marks at the very start. */
  predicate IsRemark(raw: string) { Blank(raw) || ";" <= raw || "#" <= raw || "//" <= raw }

  lemma KeepsStart(raw: string)
    requires raw != "" && !IsWhitespace(raw[0])
    ensures TrimWhitespace(raw) != "" && TrimWhitespace(raw)[0] == raw[0]
    ensures |raw| >= 2 && !IsWhitespace(raw[1]) ==> |TrimWhitespace(raw)| >= 2 && TrimWhitespace(raw)[1] == raw[1]
  {
    TrimTail(raw[..1], raw[1..]);
    assert raw[..1] + raw[1..] == raw;
    if |raw| >= 2 && !IsWhitespace(raw[1]) {
      TrimTail(raw[..2], raw[2..]);
      assert raw[..2] + raw[2..] == raw;
    }
  }

  /** Outside a direct-save section a remark changes nothing. */
  lemma RemarkSkipped(cfg: Config, p: Progress, raw: string)
    requires IsRemark(raw) && !p.inDirect
    ensures ParseLine(cfg, p, raw) == Next(p)
  {
    hide Unescape;
    if Blank(raw) {
      TrimmedBlank("", raw);
      assert "" + raw == raw;
    } else {
      KeepsStart(raw);
    }
  }

  /** So it can stand between any two lines, */
  lemma {:induction false} RemarkBetween(cfg: Config, p: Progress, xs: seq<string>, raw: string, ys: seq<string>)
    requires IsRemark(raw)
    requires var o := ParseLines(cfg, p, xs); o.Next? ==> !o.p.inDirect
    ensures ParseLines(cfg, p, xs + [raw] + ys) == ParseLines(cfg, p, xs + ys)
    decreases |xs|
  {
    hide ParseLine;
    if xs == [] {
      assert ([] + [raw] + ys)[0] == raw && ([] + [raw] + ys)[1..] == ys && [] + ys == ys;
      RemarkSkipped(cfg, p, raw);
    } else {
      assert (xs + [raw] + ys)[0] == xs[0] && (xs + [raw] + ys)[1..] == xs[1..] + [raw] + ys;
      assert (xs + ys)[0] == xs[0] && (xs + ys)[1..] == xs[1..] + ys;
      var o := ParseLine(cfg, p, xs[0]);
      if o.Next? { RemarkBetween(cfg, o.p, xs[1..], raw, ys); }
    }
  }

  /** and the text with it parses to the same map, order, status and code. */
  lemma RemarkInText(cfg: Config, xs: seq<string>, raw: string, ys: seq<string>)
    requires IsRemark(raw) && Free(raw, '\n') && xs + ys != [] && !(BOM <= Unlines(xs + ys))
    requires (forall k | 0 <= k < |xs| :: Free(xs[k], '\n')) && (forall k | 0 <= k < |ys| :: Free(ys[k], '\n'))
    requires var o := ParseLines(cfg, Start(cfg), xs); o.Next? ==> !o.p.inDirect
    ensures ParseText(cfg, Unlines(xs + [raw] + ys)) == ParseText(cfg, Unlines(xs + ys))
  {
    hide IsRemark, Unlines, ParseText, ParseLines, CloseAtEnd, Start, Free, Lines;
    AllFree(xs, ys);
    AllFree(xs, [raw]);
    AllFree(xs + [raw], ys);
    NoMark(xs, raw, ys);
    TextOfLines(cfg, xs + [raw] + ys);
    TextOfLines(cfg, xs + ys);
    RemarkBetween(cfg, Start(cfg), xs, raw, ys);
  }

  lemma AllFree(xs: seq<string>, ys: seq<string>)
    requires (forall k | 0 <= k < |xs| :: Free(xs[k], '\n')) && (forall k | 0 <= k < |ys| :: Free(ys[k], '\n'))
    ensures forall k | 0 <= k < |xs + ys| :: Free((xs + ys)[k], '\n')
  {
  }

  lemma TextOfLines(cfg: Config, lines: seq<string>)
    requires lines != [] && (forall k | 0 <= k < |lines| :: Free(lines[k], '\n')) && !(BOM <= Unlines(lines))
    ensures var o := ParseLines(cfg, Start(cfg), lines);
            ParseText(cfg, Unlines(lines)) == if o.Fail? then o else CloseAtEnd(cfg, o.p)
  {
    hide Unlines, Lines, ParseLines, CloseAtEnd, Start;
    var text := Unlines(lines);
    LinesOfUnlines(lines);
    assert text[|text| - 1] == '\n';
    assert LineBreak(text) == '\n';
  }

  lemma MarkAt(s: string)
    ensures BOM <= s <==> |s| >= 3 && s[0] == 0xEF as char && s[1] == 0xBB as char && s[2] == 0xBF as char
  {
  }

  lemma NoMark(xs: seq<string>, raw: string, ys: seq<string>)
    requires IsRemark(raw) && !(BOM <= Unlines(xs + ys)) && xs + ys != []
    requires forall k | 0 <= k < |xs| :: Free(xs[k], '\n')
    ensures !(BOM <= Unlines(xs + [raw] + ys))
  {
    hide Unlines;
    if xs == [] {
      assert xs + [raw] + ys == [raw] + ys;
      UnlinesAppend([raw], ys);
      UnlinesOne(raw);
      var s := raw + "\n" + Unlines(ys);
      MarkAt(s);
      assert raw != "" ==> s[0] == raw[0] != 0xEF as char;
    } else {
      UnlinesAppend(xs, ys);
      UnlinesAppend(xs + [raw], ys);
      UnlinesAppend(xs, [raw]);
      LinesOfUnlines(xs);
      var a, b, c := Unlines(xs), Unlines([raw]), Unlines(ys);
      MarkAt(a + b + c);
      MarkAt(a + c);
      assert forall k | 0 <= k < |a| :: (a + b + c)[k] == a[k] == (a + c)[k];
      assert a[|a| - 1] == '\n';
    }
  }

  // ----- items -----

  /** A name as it is written: no comment mark, bracket or blank in front, no blank at its
      end, no equals sign and no backslash. */
  predicate IsName(name: string) {
    && name != "" && name[0] != ';' && name[0] != '#' && name[0] != '[' && !("//" <= name)
    && name[0] != ' ' && name[|name| - 1] != ' ' && Free(name, '=') && Free(name, '\\')
  }

  /** A value as it is written: no blank in front or at its end, and no backslash. */
  predicate IsValue(value: string) {
    (value != "" ==> value[0] != ' ' && value[|value| - 1] !in BLANKS) && Free(value, '\\')
  }

  predicate Spaces(s: string) { forall i | 0 <= i < |s| :: s[i] == ' ' }

  /** "name = value" with any spaces around the sign. */
  function Written(name: string, left: string, right: string, value: string): string {
    name + left + "=" + right + value
  }

  lemma {:induction false} SpacesSkipped(s: string, rest: string)
    requires Spaces(s) && (rest != "" ==> rest[0] != ' ')
    ensures SkipSpaces(s + rest) == rest
  {
    if s == "" {
      assert s + rest == rest;
    } else {
      assert (s + rest)[0] == ' ' && (s + rest)[1..] == s[1..] + rest;
      SpacesSkipped(s[1..], rest);
    }
  }

  lemma {:induction false} SpacesDropped(head: string, s: string)
    requires Spaces(s) && (head != "" ==> head[|head| - 1] != ' ')
    ensures DropSpaces(head + s) == head
    decreases |s|
  {
    if s == "" {
      assert head + s == head;
    } else {
      var n := |s| - 1;
      assert (head + s)[|head| + n] == ' ' && (head + s)[..|head| + n] == head + s[..n];
      SpacesDropped(head, s[..n]);
    }
  }

  lemma NameTrimmedOf(name: string, left: string)
    requires IsName(name) && Spaces(left)
    ensures Trim(name + left) == name
  {
    assert (name + left)[0] == name[0];
    assert "" + (name + left) == name + left;
    SpacesSkipped("", name + left);
    SpacesDropped(name, left);
  }

  /** The line before trimming is what is written and any blanks. */
  lemma WrittenLine(name: string, left: string, right: string, value: string, tail: string)
    requires IsName(name) && Spaces(left) && Spaces(right) && IsValue(value) && Blank(tail) && (value == "" ==> right == "")
    ensures var line := Written(name, left, right, value);
            && TrimWhitespace(line + tail) == line == Unescape(line)
            && Find(line, '=') == |name + left| && !IsComment(line) && line[0] != '['
            && line[..|name + left|] == name + left && line[|name + left| + 1..] == right + value
  {
    hide Unescape, TrimWhitespace;
    var line, head := Written(name, left, right, value), name + left;
    assert line == head + ("=" + (right + value));
    assert line[|head|] == '=' && forall i | 0 <= i < |head| :: line[i] == head[i];
    assert forall i | 0 <= i < |line| :: line[i] != '\\' by { NoBackslash(name, left, right, value); }
    UnescapePrefix(line, |line|);
    NothingEscaped();
    assert line[..|line|] == line && line[|line|..] == "";
    assert line[|line| - 1] !in BLANKS by { LastWritten(name, left, right, value); }
    TrimmedBlank(line, tail);
  }

  lemma NoBackslash(name: string, left: string, right: string, value: string)
    requires Free(name, '\\') && Spaces(left) && Spaces(right) && Free(value, '\\')
    ensures Free(Written(name, left, right, value), '\\')
  {
  }

  lemma LastWritten(name: string, left: string, right: string, value: string)
    requires IsValue(value) && (value == "" ==> right == "")
    ensures var line := Written(name, left, right, value); line[|line| - 1] !in BLANKS
  {
    var line := Written(name, left, right, value);
    if value == "" {
      assert line[|line| - 1] == '=';
      WhitespaceIsBlank('=');
    } else {
      assert line[|line| - 1] == value[|value| - 1];
    }
  }

  /** "name = value" in a section that is kept adds exactly this item; in an excluded section
      it is ignored, and before any section it is an error. */
  lemma ItemAdded(cfg: Config, p: Progress, name: string, left: string, right: string, value: string, tail: string)
    requires IsName(name) && Spaces(left) && Spaces(right) && IsValue(value) && Blank(tail) && (value == "" ==> right == "")
    requires !p.inDirect
    ensures var o := ParseLine(cfg, p, Written(name, left, right, value) + tail);
            if p.inExcluded then o == Next(p)
            else if p.section == "" then o == Fail(OUTOFBOUND, p)
            else var q := p.(group := Insert(p.group, Item(name, value)));
                 o == if cfg.included != [] && cfg.included == p.read then Stop(q) else Next(q)
  {
    hide Unescape, TrimWhitespace, IsComment, Trim, SkipSpaces, IsName, IsValue, Spaces, Blank;
    WrittenLine(name, left, right, value, tail);
    NameTrimmedOf(name, left);
    SpacesSkipped(right, value) by { ValueStart(value); }
    assert !IsTitle(Written(name, left, right, value), |Written(name, left, right, value)|);
  }

  lemma ValueStart(value: string)
    requires IsValue(value)
    ensures value != "" ==> value[0] != ' '
  {
  }
}
