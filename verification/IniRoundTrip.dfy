/** Parsing what a well-formed document prints as rebuilds the document. */
module IniRoundTrip {
  import opened StringUtil
  import opened IniModel
  import opened IniReader

  // ----- well-formed documents -----

  predicate NoEscape(s: string) { forall i | 0 <= i < |s| :: !IsEscape(s, i) }

  predicate SectionOk(name: string) { name != "" && '\n' !in name && NoEscape(name) }

  predicate NameOk(name: string) {
    && '\n' !in name && '=' !in name && NoEscape(name) && Trim(name) == name
    && (name != "" ==> !IsComment(name) && name[0] != '[')
  }

  /** Spaces and other blanks at the end would be trimmed; escaped ones are kept. */
  predicate EndOk(value: string) {
    value == "" || var c := value[|value| - 1]; !IsWhitespace(c) || c == '\n' || c == '\r' || c == '\t'
  }

  predicate ItemOk(cfg: Config, item: Item) {
    && NoEscape(item.value) && EndOk(item.value)
    && if item.name == NONAME
       then cfg.storeAnyLine && !IsComment(item.value) && item.value[0] != '[' && '=' !in item.value
       else NameOk(item.name) && (item.value != "" ==> item.value[0] != ' ')
  }

  predicate Plain(cfg: Config) {
    && cfg.excluded == [] && cfg.included == [] && cfg.directSave == []
    && !(cfg.storeIsolatedLine && cfg.isolatedSection != "")
  }

  ghost predicate DocOk(cfg: Config, content: map<string, Items>, order: seq<string>) {
    && (forall s :: s in order <==> s in content)
    && (forall i, j | 0 <= i < j < |order| :: order[i] != order[j])
    && forall s | s in content ::
         && SectionOk(s) && Sorted(content[s]) && (cfg.keepEmpty || content[s] != [])
         && forall k | 0 <= k < |content[s]| :: ItemOk(cfg, content[s][k])
  }

  // ----- escaped values inside lines -----

  lemma {:induction false} UnescapePrefix(s: string, n: nat)
    requires n <= |s| && forall i | 0 <= i < n :: !IsEscape(s, i)
    ensures Unescape(s) == s[..n] + Unescape(s[n..])
  {
    hide Unescape;
    if n > 0 {
      UnescapePrefix(s, n - 1);
      UnescapeAt(s, n - 1);
      assert s[..n - 1] + [s[n - 1]] == s[..n];
    } else {
      assert s[0..] == s;
    }
  }

  lemma {:induction false} EscapeChars(s: string)
    ensures forall i | 0 <= i < |Escape(s)| :: Escape(s)[i] != '\n' && (Escape(s)[i] == '=' ==> '=' in s)
  {
    if s != "" {
      EscapeChars(s[1..]);
      assert forall i | 0 <= i < |EscapeChar(s[0])| :: EscapeChar(s[0])[i] != '\n' && (EscapeChar(s[0])[i] == '=' ==> s[0] == '=');
      assert '=' in s[1..] ==> '=' in s;
    }
  }

  lemma EscapeStart(s: string)
    requires s != "" && !IsComment(s)
    ensures Escape(s) != "" && !IsComment(Escape(s)) && (Escape(s)[0] == s[0] || Escape(s)[0] == '\\')
  {
  }

  lemma EscapeEnd(s: string)
    requires s != "" && EndOk(s)
    ensures Escape(s) != "" && !IsWhitespace(Escape(s)[|Escape(s)| - 1])
  {
  }

  lemma NoEscapeKept(s: string)
    requires NoEscape(s)
    ensures Unescape(Escape(s)) == s && Unescape(s) == s
  {
    EscapeRoundTrip(s);
    UnescapePrefix(s, |s|);
    assert s[..|s|] == s && s[|s|..] == "";
  }

  // ----- single lines -----

  lemma ParseTitleLine(cfg: Config, p: Progress, title: string)
    requires Plain(cfg) && SectionOk(title) && !p.inDirect
    ensures ParseLine(cfg, p, "[" + title + "]") ==
            match CloseAtTitle(cfg, p.(title := title, inExcluded := false, inDirect := false))
            case Next(q) => Next(q.(inIsolated := false, group := [], section := title))
            case Stop(q) => Stop(q)
            case Fail(code, q) => Fail(code, q)
  {
    var line := "[" + title + "]";
    assert line[|line| - 1] == ']' && line[0] == '[';
    assert TrimWhitespace(line) == line;
    forall i | 0 <= i < |line| ensures !IsEscape(line, i) {
      if 0 < i < |title| { assert !IsEscape(title, i - 1); }
    }
    UnescapePrefix(line, |line|);
    assert Unescape(line) == line by { assert line[..|line|] == line && line[|line|..] == ""; }
    assert line[1..|line| - 1] == title;
  }

  lemma ParseNoNameLine(cfg: Config, p: Progress, item: Item)
    requires Plain(cfg) && ItemOk(cfg, item) && item.name == NONAME
    requires !p.inExcluded && !p.inDirect && p.section != ""
    ensures ParseLine(cfg, p, ItemLine(item)) == Next(p.(group := Insert(p.group, item)))
  {
    hide Unescape, Escape;
    var line := Escape(item.value);
    assert ItemLine(item) == line;
    EscapeChars(item.value);
    EscapeStart(item.value);
    EscapeEnd(item.value);
    NoEscapeKept(item.value);
    assert TrimWhitespace(line) == line;
    assert Find(line, '=') == |line|;
  }

  /** What is read of a printed value. */
  function ReadValue(value: string): string { SkipSpaces(Unescape(TrimWhitespace(Escape(value)))) }

  lemma {:induction false} TrimTail(a: string, t: string)
    requires a != "" && !IsWhitespace(a[|a| - 1])
    ensures TrimWhitespace(a + t) == a + TrimWhitespace(t)
  {
    if t == "" {
      assert a + t == a;
    } else {
      assert (a + t)[|a + t| - 1] == t[|t| - 1] && (a + t)[..|a + t| - 1] == a + t[..|t| - 1];
      TrimTail(a, t[..|t| - 1]);
      if !IsWhitespace(t[|t| - 1]) { assert TrimWhitespace(a + t) == a + t; }
    }
  }

  /** The part of the line before the value is left as it is. */
  lemma UnescapeNamed(key: string, value: string)
    requires NoEscape(key)
    ensures Unescape(key + "=" + value) == key + "=" + Unescape(value)
  {
    var line, n := key + "=" + value, |key|;
    assert line[n] == '=' && forall i | 0 <= i < n :: line[i] == key[i];
    forall i | 0 <= i < n + 1 ensures !IsEscape(line, i) {
      if i + 1 < n { assert !IsEscape(key, i); }
    }
    UnescapePrefix(line, n + 1);
    assert line[n + 1..] == value && line[..n + 1] == key + "=";
  }

  lemma NamedLine(key: string, value: string)
    requires NameOk(key)
    ensures var line := key + "=" + value; Find(line, '=') == |key| && !IsComment(line) && line[0] != '['
  {
    var line, n := key + "=" + value, |key|;
    assert line[n] == '=' && forall i | 0 <= i < n :: line[i] == key[i];
  }

  /** A printed item with a proper name is read with that name, whatever its value is. */
  lemma ReadNamedLine(cfg: Config, p: Progress, name: string, value: string)
    requires Plain(cfg) && NameOk(name) && name != NONAME
    requires !p.inExcluded && !p.inDirect && p.section != ""
    ensures ParseLine(cfg, p, ItemLine(Item(name, value))) == Next(p.(group := Insert(p.group, Item(name, ReadValue(value)))))
  {
    hide Unescape, Escape, TrimWhitespace, Insert, IsComment, NameOk, SkipSpaces;
    var t := TrimWhitespace(Escape(value));
    assert ItemLine(Item(name, value)) == name + "=" + Escape(value);
    TrimTail(name + "=", Escape(value));
    var line := name + "=" + t;
    NamedLine(name, t);
    NameTrimmed(name);
    UnescapeNamed(name, t);
    NamedLine(name, Unescape(t));
    var whole := name + "=" + Unescape(t);
    assert whole[..|name|] == name && whole[|name| + 1..] == Unescape(t);
  }

  lemma NameTrimmed(name: string)
    requires NameOk(name)
    ensures NoEscape(name) && Trim(name) == name
  {
  }

  lemma {:induction false} TrimCut(s: string) returns (w: string)
    ensures s == TrimWhitespace(s) + w && forall i | 0 <= i < |w| :: IsWhitespace(w[i])
    ensures TrimWhitespace(s) != "" ==> !IsWhitespace(TrimWhitespace(s)[|TrimWhitespace(s)| - 1])
  {
    if s == "" || !IsWhitespace(s[|s| - 1]) {
      w := "";
    } else {
      w := TrimCut(s[..|s| - 1]);
      assert s == s[..|s| - 1] + [s[|s| - 1]];
      w := w + [s[|s| - 1]];
    }
  }

  lemma FirstWithTail(t: string, w: string)
    requires t != "" && forall i | 0 <= i < |w| :: IsWhitespace(w[i])
    ensures var s := t + w; (IsEscape(s, 0) <==> IsEscape(t, 0)) && s[0] == t[0] && s[1..] == t[1..] + w
    ensures var s := t + w; IsEscape(t, 0) ==> s[1] == t[1] && s[2..] == t[2..] + w
  {
    if |t| == 1 && w != "" { assert (t + w)[1] == w[0]; }
  }

  /** White space behind a text takes no part in its escape sequences. */
  lemma {:induction false} UnescapeTail(t: string, w: string)
    requires forall i | 0 <= i < |w| :: IsWhitespace(w[i])
    ensures Unescape(t + w) == Unescape(t) + w
    decreases |t|
  {
    hide Unescape, IsWhitespace;
    var s := t + w;
    if t == "" {
      UnescapeWhitespace(w);
      assert s == w;
    } else {
      FirstWithTail(t, w);
      assert s[0..] == s && t[0..] == t;
      UnescapeAt(t, 0);
      UnescapeAt(s, 0);
      if IsEscape(t, 0) {
        UnescapeTail(t[2..], w);
      } else {
        UnescapeTail(t[1..], w);
      }
    }
  }

  lemma UnescapeWhitespace(w: string)
    requires forall i | 0 <= i < |w| :: IsWhitespace(w[i])
    ensures Unescape(w) == w && Unescape("") == ""
  {
    UnescapePrefix(w, |w|);
    assert w[..|w|] == w && w[|w|..] == "";
  }

  /** A value is read back exactly if it holds no escape sequence, starts with no blank and
      ends in no white space but a line break or a tab, which are escaped. */
  lemma ValueKept(value: string)
    ensures ReadValue(value) == value <==> NoEscape(value) && EndOk(value) && (value != "" ==> value[0] != ' ')
  {
    hide Unescape, Escape, TrimWhitespace, SkipSpaces;
    var e := Escape(value);
    var w := TrimCut(e);
    UnescapeTail(TrimWhitespace(e), w);
    EscapeRoundTrip(value);
    EscapeShrinks(value);
    var u := Unescape(TrimWhitespace(e));
    SkipShrinks(u);
    SkipStart(u);
    SkipStart(value);
    LastEscaped(value);
    if w == "" { assert TrimWhitespace(e) == e; }
  }

  lemma {:induction false} SkipStart(s: string)
    ensures SkipSpaces(s) != "" ==> SkipSpaces(s)[0] != ' '
    ensures (s == "" || s[0] != ' ') ==> SkipSpaces(s) == s
  {
    if s != "" && s[0] == ' ' { SkipStart(s[1..]); }
  }

  lemma {:induction false} LastChar(s: string)
    requires s != ""
    ensures Escape(s) != ""
    ensures var e, c := Escape(s), EscapeChar(s[|s| - 1]); e[|e| - 1] == c[|c| - 1]
  {
    if |s| > 1 { LastChar(s[1..]); }
  }

  lemma LastEscaped(s: string)
    ensures EndOk(s) <==> TrimWhitespace(Escape(s)) == Escape(s)
  {
    hide Escape;
    NothingEscaped();
    if s != "" {
      LastChar(s);
      var e := Escape(s);
      TrimShrinks(e[..|e| - 1]);
    }
  }

  lemma ParseNamedLine(cfg: Config, p: Progress, item: Item)
    requires Plain(cfg) && ItemOk(cfg, item) && item.name != NONAME
    requires !p.inExcluded && !p.inDirect && p.section != ""
    ensures ParseLine(cfg, p, ItemLine(item)) == Next(p.(group := Insert(p.group, item)))
  {
    hide ReadValue, NoEscape;
    ReadNamedLine(cfg, p, item.name, item.value);
    ValueKept(item.value);
  }

  // ----- blocks of lines -----

  lemma {:induction false} ParseAppend(cfg: Config, p: Progress, xs: seq<string>, ys: seq<string>)
    requires ParseLines(cfg, p, xs).Next?
    ensures ParseLines(cfg, p, xs + ys) == ParseLines(cfg, ParseLines(cfg, p, xs).p, ys)
    decreases |xs|
  {
    hide ParseLine;
    if xs == [] {
      assert xs + ys == ys;
    } else {
      assert (xs + ys)[0] == xs[0] && (xs + ys)[1..] == xs[1..] + ys;
      ParseAppend(cfg, ParseLine(cfg, p, xs[0]).p, xs[1..], ys);
    }
  }

  lemma ParseOne(cfg: Config, p: Progress, line: string)
    ensures ParseLine(cfg, p, line).Next? ==> ParseLines(cfg, p, [line]) == ParseLine(cfg, p, line)
  {
  }

  lemma {:induction false} ParseItems(cfg: Config, p: Progress, items: Items)
    requires Plain(cfg) && Sorted(items) && forall k | 0 <= k < |items| :: ItemOk(cfg, items[k])
    requires !p.inExcluded && !p.inDirect && p.section != "" && p.group == []
    ensures ParseLines(cfg, p, ItemLines(items)) == Next(p.(group := items))
  {
    hide ParseLine, ItemOk, ItemLine;
    if items != [] {
      var n := |items| - 1;
      var init, last := items[..n], items[n];
      ParseItems(cfg, p, init);
      var q := p.(group := init);
      ParseAppend(cfg, p, ItemLines(init), [ItemLine(last)]);
      if last.name == NONAME { ParseNoNameLine(cfg, q, last); } else { ParseNamedLine(cfg, q, last); }
      ParseOne(cfg, q, ItemLine(last));
      InsertAtEnd(init, last);
      assert init + [last] == items;
    }
  }

  lemma ParseSection(cfg: Config, p: Progress, q: Progress, section: string, items: Items)
    requires Plain(cfg) && SectionOk(section) && Sorted(items) && forall k | 0 <= k < |items| :: ItemOk(cfg, items[k])
    requires !p.inDirect
    requires CloseAtTitle(cfg, p.(title := section, inExcluded := false, inDirect := false)) == Next(q)
    requires !q.inExcluded && !q.inDirect
    ensures ParseLines(cfg, p, SectionLines(section, items))
            == Next(q.(inIsolated := false, group := items, section := section))
  {
    hide ParseLine, ItemOk, CloseAtTitle, ItemLines, Sorted;
    var title := "[" + section + "]";
    var r := q.(inIsolated := false, group := [], section := section);
    ParseTitleLine(cfg, p, section);
    ParseOne(cfg, p, title);
    ParseItems(cfg, r, items);
    var s := r.(group := items);
    ParseAppend(cfg, p, [title], ItemLines(items));
    ParseAppend(cfg, p, [title] + ItemLines(items), [""]);
    ParseBlank(cfg, s);
    assert [title] + ItemLines(items) + [] == [title] + ItemLines(items);
  }

  lemma ParseBlank(cfg: Config, p: Progress)
    requires !p.inDirect
    ensures ParseLines(cfg, p, [""]) == Next(p)
  {
  }

  function Sub(content: map<string, Items>, order: seq<string>): map<string, Items> {
    map s | s in order && s in content :: content[s]
  }

  /** The sections of order are read; the last of them is not stored yet. */
  predicate At(content: map<string, Items>, order: seq<string>, p: Progress) {
    && !p.inExcluded && !p.inDirect && !p.inIsolated
    && if order == []
       then p.section == "" && p.group == [] && p.content == map[] && p.order == []
       else
         var n := |order| - 1;
         order[n] in content && p.section == order[n] && p.group == content[order[n]]
         && p.content == Sub(content, order[..n]) && p.order == order[..n]
  }

  lemma {:induction false} ParseDoc(cfg: Config, content: map<string, Items>, order: seq<string>, k: nat)
    requires Plain(cfg) && DocOk(cfg, content, order) && k <= |order|
    ensures var o := ParseLines(cfg, Start(cfg), DocLines(content, order[..k]));
            o.Next? && At(content, order[..k], o.p)
  {
    hide SectionLines, ParseLine;
    if k > 0 {
      ParseDoc(cfg, content, order, k - 1);
      var init, section := order[..k - 1], order[k - 1];
      assert order[..k][..k - 1] == init && order[..k][k - 1] == section;
      assert section in content;
      var lines := DocLines(content, init);
      var p := ParseLines(cfg, Start(cfg), lines).p;
      ParseAppend(cfg, Start(cfg), lines, SectionLines(section, content[section]));
      var closing := p.(title := section, inExcluded := false, inDirect := false);
      var q := if k == 1 then closing else Store(closing);
      Closed(cfg, content, order, k - 1, closing);
      ParseSection(cfg, p, q, section, content[section]);
    }
  }

  /** The section read last is stored, either at the next title or at the end. */
  lemma Closed(cfg: Config, content: map<string, Items>, order: seq<string>, k: nat, p: Progress)
    requires DocOk(cfg, content, order) && k <= |order| && At(content, order[..k], p)
    ensures CloseAtTitle(cfg, p) == CloseAtEnd(cfg, p) == Next(if k == 0 then p else Store(p))
    ensures k > 0 ==> Store(p).content == Sub(content, order[..k]) && Store(p).order == order[..k]
  {
    if k > 0 {
      var n := k - 1;
      assert order[..k][..n] == order[..n] && order[..k][n] == order[n] == p.section;
      assert p.section !in order[..n];
      assert order[..k] == order[..n] + [order[n]];
      assert Store(p).content == Sub(content, order[..k]);
    }
  }

  // ----- text and lines -----

  lemma {:induction false} FirstOfUnlines(lines: seq<string>)
    requires lines != [] && lines[0] != ""
    ensures Unlines(lines) != "" && Unlines(lines)[0] == lines[0][0]
  {
    if |lines| > 1 {
      FirstOfUnlines(lines[..|lines| - 1]);
    } else {
      assert lines[..0] == [];
    }
  }

  lemma {:induction false} ItemLinesOk(cfg: Config, items: Items)
    requires forall k | 0 <= k < |items| :: ItemOk(cfg, items[k])
    ensures forall k | 0 <= k < |ItemLines(items)| :: '\n' !in ItemLines(items)[k]
  {
    if items != [] {
      var n := |items| - 1;
      ItemLinesOk(cfg, items[..n]);
      EscapeChars(items[n].value);
      assert ItemOk(cfg, items[n]);
    }
  }

  lemma {:induction false} DocLinesOk(cfg: Config, content: map<string, Items>, order: seq<string>)
    requires forall s | s in order :: s in content && SectionOk(s) && forall k | 0 <= k < |content[s]| :: ItemOk(cfg, content[s][k])
    ensures forall k | 0 <= k < |DocLines(content, order)| :: '\n' !in DocLines(content, order)[k]
    ensures order != [] ==> DocLines(content, order) != [] && DocLines(content, order)[0] == "[" + order[0] + "]"
  {
    hide ItemOk, ItemLines;
    if order != [] {
      var n := |order| - 1;
      DocLinesOk(cfg, content, order[..n]);
      assert order[n] in order;
      ItemLinesOk(cfg, content[order[n]]);
      assert '\n' !in "[" + order[n] + "]";
    }
  }

  /** The round trip: a non-empty well-formed document is rebuilt from its text, with the
      same section order and the same items in every section. */
  lemma RoundTrip(cfg: Config, content: map<string, Items>, order: seq<string>)
    requires Plain(cfg) && DocOk(cfg, content, order) && order != []
    ensures var text := Unlines(DocLines(content, order));
            var o := ParseText(cfg, text);
            text != "" && o.Next? && o.p.content == content && o.p.order == order
  {
    hide ParseLines, CloseAtEnd, ItemOk, SectionOk, DocLines, Unlines, Lines, Start, At, Sorted;
    var lines := DocLines(content, order);
    var text := Unlines(lines);
    DocLinesOk(cfg, content, order);
    LinesOfUnlines(lines);
    FirstOfUnlines(lines);
    assert WithoutBom(text) == text by { assert text[0] == '['; }
    assert LineBreak(text) == '\n';
    assert order[..|order|] == order;
    ParseDoc(cfg, content, order, |order|);
    var p := ParseLines(cfg, Start(cfg), lines).p;
    Closed(cfg, content, order, |order|, p);
    assert Sub(content, order) == content;
  }

  /** One reader printed and another one parsing the text: it has the same sections in the
      same order, with the same items. */
  method Reload(from: INIReader, to: INIReader) returns (code: int)
    requires from != to && from.Valid() && to.Valid() && from.parsed && from.sectionOrder != []
    requires Plain(to.config) && DocOk(to.config, from.Doc(), from.sectionOrder)
    modifies to
    ensures to.Valid() && from.Valid() && code == NONE && to.parsed
    ensures to.Doc() == from.Doc() == old(from.Doc()) && to.sectionOrder == from.sectionOrder == old(from.sectionOrder)
  {
    hide ParseText, DocLines, Unlines, DocOk, Sorted;
    var text := from.ToString();
    RoundTrip(to.config, from.Doc(), from.sectionOrder);
    code := to.Parse(text);
  }
}
