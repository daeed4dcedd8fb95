/** What titles and repeated sections do to an INI text, for every configuration. */
module IniSections {
  import opened StringUtil
  import opened IniModel
  import opened IniRoundTrip
  import opened IniLines

  // ----- a title -----

  lemma TitleLine(title: string, tail: string)
    requires Free(title, '\\') && Blank(tail)
    ensures var line := "[" + title + "]";
            TrimWhitespace(line + tail) == line == Unescape(line) && IsTitle(line, |line|) && !IsComment(line)
            && line[1..|line| - 1] == title
  {
    hide Unescape, TrimWhitespace;
    var line := "[" + title + "]";
    assert line[|line| - 1] == ']' && line[0] == '[';
    assert ']' !in BLANKS by { WhitespaceIsBlank(']'); }
    TrimmedBlank(line, tail);
    assert forall i | 0 <= i < |line| :: line[i] != '\\';
    UnescapePrefix(line, |line|);
    NothingEscaped();
    assert line[..|line|] == line && line[|line|..] == "";
  }

  /** A title starts its section, ignored if it is excluded or not among the included ones. */
  lemma TitleStarts(cfg: Config, p: Progress, title: string, tail: string)
    requires Free(title, '\\') && Blank(tail)
    ensures var o := ParseLine(cfg, p, "[" + title + "]" + tail);
            if o.Fail? then o.code == DUPLICATE else
            && o.p.title == o.p.section == title && o.p.group == [] && !o.p.inIsolated
            && (o.p.inExcluded <==> title in cfg.excluded || (cfg.included != [] && title !in cfg.included))
            && (o.p.inDirect <==> title in cfg.directSave)
            && (o.Stop? <==> cfg.included != [] && cfg.included == o.p.read)
  {
    hide Unescape, TrimWhitespace, IsComment, IsTitle, CloseAtTitle;
    TitleLine(title, tail);
    CloseKeeps(cfg, p.(title := title, inExcluded := cfg.Ignores(title), inDirect := title in cfg.directSave));
  }

  lemma CloseKeeps(cfg: Config, p: Progress)
    ensures match CloseAtTitle(cfg, p)
            case Next(q) => q.title == p.title && q.inExcluded == p.inExcluded && q.inDirect == p.inDirect
            case Stop(_) => false
            case Fail(code, _) => code == DUPLICATE
  {
  }

  /** A title stores the section before it, unless that is empty and empty ones are not kept.
      A new one comes last in the order; a repeated one is an error, or its items are lost. */
  lemma TitleStores(cfg: Config, p: Progress, title: string, tail: string)
    requires Free(title, '\\') && Blank(tail)
    requires p.section != "" && (cfg.keepEmpty || p.group != []) && !p.inIsolated
    ensures var o := ParseLine(cfg, p, "[" + title + "]" + tail);
            if p.section !in p.content then
              && !o.Fail? && o.p.content == p.content[p.section := p.group]
              && (p.section !in p.order ==> o.p.order == p.order + [p.section])
              && o.p.read == if p.group == [] then p.read else p.read + [p.section]
            else if !cfg.allowDuplicates && p.content[p.section] != [] then
              o.Fail? && o.code == DUPLICATE
            else
              !o.Fail? && o.p.content == p.content && o.p.order == p.order && o.p.read == p.read
  {
    hide Unescape, TrimWhitespace, IsComment, IsTitle;
    TitleLine(title, tail);
  }

  /** Nothing is stored of an empty section that is not kept, and nothing of the lines
      before the first title, unless they belong to the isolated section and that is not
      the section which starts. */
  lemma TitleSkips(cfg: Config, p: Progress, title: string, tail: string)
    requires Free(title, '\\') && Blank(tail)
    requires p.section == "" || (!cfg.keepEmpty && p.group == [])
             || (p.inIsolated && title == cfg.isolatedSection && p.section !in p.content)
    ensures var o := ParseLine(cfg, p, "[" + title + "]" + tail);
            !o.Fail? && o.p.content == p.content && o.p.order == p.order && o.p.read == p.read
  {
    hide Unescape, TrimWhitespace, IsComment, IsTitle;
    TitleLine(title, tail);
  }

  // ----- lines that are no items -----

  /** In a direct-save section every line is stored as it is, remarks and items too. */
  lemma DirectLine(cfg: Config, p: Progress, raw: string, tail: string)
    requires p.inDirect && !p.inExcluded && p.section != ""
    requires Free(raw, '\\') && Blank(tail) && (raw != "" ==> raw[0] != '[' && raw[|raw| - 1] !in BLANKS)
    ensures var q := p.(group := Insert(p.group, Item("{NONAME}", raw)));
            ParseLine(cfg, p, raw + tail) == if cfg.included != [] && cfg.included == p.read then Stop(q) else Next(q)
  {
    hide Unescape, TrimWhitespace, IsComment;
    PlainLine(raw, tail);
  }

  /** Elsewhere a line without '=' is stored that way if any line is, and skipped otherwise. */
  lemma NamelessLine(cfg: Config, p: Progress, raw: string, tail: string)
    requires !p.inDirect && Free(raw, '=') && !IsRemark(raw)
    requires Free(raw, '\\') && Blank(tail) && (raw != "" ==> raw[0] != '[' && raw[|raw| - 1] !in BLANKS)
    ensures var q := if cfg.storeAnyLine && !p.inExcluded && p.section != ""
                     then p.(group := Insert(p.group, Item("{NONAME}", raw))) else p;
            ParseLine(cfg, p, raw + tail) == if cfg.included != [] && cfg.included == p.read then Stop(q) else Next(q)
  {
    hide Unescape, TrimWhitespace;
    PlainLine(raw, tail);
    assert Find(raw, '=') == |raw|;
  }

  lemma PlainLine(raw: string, tail: string)
    requires Free(raw, '\\') && Blank(tail) && (raw != "" ==> raw[|raw| - 1] !in BLANKS)
    ensures TrimWhitespace(raw + tail) == raw == Unescape(raw)
  {
    hide Unescape, TrimWhitespace;
    TrimmedBlank(raw, tail);
    UnescapePrefix(raw, |raw|);
    NothingEscaped();
    assert raw[..|raw|] == raw && raw[|raw|..] == "";
  }

  // ----- repeated sections -----

  /** A section that is printed twice, as the last one of the text, is merged or refused. */
  lemma RepeatedLast(cfg: Config, a: string, xs: Items, ys: Items)
    requires Plain(cfg) && SectionOk(a) && xs != [] && ys != [] && Printable(cfg, xs) && Printable(cfg, ys)
    ensures var o := ParseText(cfg, Unlines(SectionLines(a, xs) + SectionLines(a, ys)));
            if cfg.allowDuplicates || cfg.isolatedSection == a
            then o.Next? && o.p.content == map[a := Merge(xs, ys)] && o.p.order == [a]
            else o.Fail? && o.code == DUPLICATE
  {
    hide ParseLines, Unlines, SectionLines, CloseAtEnd, Merge, Printable, NoEscape, ParseText;
    TwoSections(cfg, a, xs, a, ys);
    SectionLinesFree(cfg, a, ys);
    TextOfSections(cfg, a, xs, SectionLines(a, ys));
    var p := ParseLines(cfg, Start(cfg), SectionLines(a, xs) + SectionLines(a, ys)).p;
    assert p.section in p.content && p.content[p.section] == xs;
    RepeatedAtEnd(cfg, p);
    assert map[a := xs][a := Merge(xs, ys)] == map[a := Merge(xs, ys)];
  }

  /** Followed by another section, the items printed second are lost. */
  lemma RepeatedInside(cfg: Config, a: string, xs: Items, ys: Items, b: string, zs: Items)
    requires Plain(cfg) && SectionOk(a) && SectionOk(b) && a != b && xs != [] && ys != [] && zs != []
    requires Printable(cfg, xs) && Printable(cfg, ys) && Printable(cfg, zs) && cfg.allowDuplicates
    ensures var o := ParseText(cfg, Unlines(SectionLines(a, xs) + SectionLines(a, ys) + SectionLines(b, zs)));
            o.Next? && o.p.content == map[a := xs, b := zs] && o.p.order == [a, b]
  {
    hide ParseLines, Unlines, SectionLines, CloseAtEnd, Printable, NoEscape, ParseText, Sorted;
    var second, third := SectionLines(a, ys), SectionLines(b, zs);
    var head := SectionLines(a, xs) + second;
    TwoSections(cfg, a, xs, a, ys);
    var p := ParseLines(cfg, Start(cfg), head).p;
    PrintableIs(cfg, zs);
    var q := p.(title := b, inExcluded := false, inDirect := false);
    assert CloseAtTitle(cfg, q) == Next(q) by { assert a in p.content; }
    ParseSection(cfg, p, q, b, zs);
    ParseAppend(cfg, Start(cfg), head, third);
    assert SectionLines(a, xs) + (second + third) == head + third;
    SectionLinesFree(cfg, a, ys);
    SectionLinesFree(cfg, b, zs);
    AllFree(second, third);
    TextOfSections(cfg, a, xs, second + third);
    assert map[a := xs][b := zs] == map[a := xs, b := zs];
    NewAtEnd(cfg, q.(inIsolated := false, group := zs, section := b));
  }

  predicate Printable(cfg: Config, items: Items) {
    Sorted(items) && forall k | 0 <= k < |items| :: ItemOk(cfg, items[k])
  }

  lemma PrintableIs(cfg: Config, items: Items)
    requires Printable(cfg, items)
    ensures Sorted(items) && forall k | 0 <= k < |items| :: ItemOk(cfg, items[k])
  {
  }

  lemma RepeatedAtEnd(cfg: Config, p: Progress)
    requires p.section != "" && p.group != [] && p.section in p.content && p.content[p.section] != []
    ensures CloseAtEnd(cfg, p) == if cfg.allowDuplicates || cfg.isolatedSection == p.title
                                  then Next(p.(content := p.content[p.section := Merge(p.content[p.section], p.group)]))
                                  else Fail(DUPLICATE, p)
  {
  }

  lemma NewAtEnd(cfg: Config, p: Progress)
    requires p.section != "" && p.group != [] && p.section !in p.content && p.section !in p.order && !p.inIsolated
    ensures var o := CloseAtEnd(cfg, p);
            o.Next? && o.p.content == p.content[p.section := p.group] && o.p.order == p.order + [p.section]
  {
  }

  /** After two sections the first is stored and the second is still open. */
  lemma TwoSections(cfg: Config, a: string, xs: Items, b: string, ys: Items)
    requires Plain(cfg) && SectionOk(a) && SectionOk(b) && xs != [] && Printable(cfg, xs) && Printable(cfg, ys)
    ensures var o := ParseLines(cfg, Start(cfg), SectionLines(a, xs) + SectionLines(b, ys));
            o.Next? && o.p.content == map[a := xs] && o.p.order == [a] && o.p.read == [a]
            && o.p.title == o.p.section == b && o.p.group == ys && !o.p.inIsolated && !o.p.inExcluded && !o.p.inDirect
  {
    hide ParseLines, SectionLines, Printable, Sorted;
    PrintableIs(cfg, xs);
    PrintableIs(cfg, ys);
    var s := Start(cfg);
    var first := s.(title := a, inExcluded := false, inDirect := false);
    ParseSection(cfg, s, first, a, xs);
    var p := first.(inIsolated := false, group := xs, section := a);
    var closing := p.(title := b, inExcluded := false, inDirect := false);
    assert CloseAtTitle(cfg, closing) == Next(Store(closing));
    ParseSection(cfg, p, Store(closing), b, ys);
    ParseAppend(cfg, s, SectionLines(a, xs), SectionLines(b, ys));
    assert map[][a := xs] == map[a := xs];
  }

  lemma SectionLinesFree(cfg: Config, section: string, items: Items)
    requires SectionOk(section) && Printable(cfg, items)
    ensures forall k | 0 <= k < |SectionLines(section, items)| :: Free(SectionLines(section, items)[k], '\n')
  {
    hide ItemOk, ItemLines, Sorted;
    PrintableIs(cfg, items);
    ItemLinesOk(cfg, items);
    assert '\n' !in "[" + section + "]";
  }

  lemma TextOfSections(cfg: Config, a: string, xs: Items, more: seq<string>)
    requires SectionOk(a) && Printable(cfg, xs) && forall k | 0 <= k < |more| :: Free(more[k], '\n')
    ensures var lines := SectionLines(a, xs) + more;
            var o := ParseLines(cfg, Start(cfg), lines);
            ParseText(cfg, Unlines(lines)) == if o.Fail? then o else CloseAtEnd(cfg, o.p)
  {
    hide Unlines, Printable, SectionOk, ParseLines, ParseText, Start, CloseAtEnd, ItemLines;
    var lines := SectionLines(a, xs) + more;
    SectionLinesFree(cfg, a, xs);
    AllFree(SectionLines(a, xs), more);
    assert lines[0] == "[" + a + "]";
    FirstOfUnlines(lines);
    MarkAt(Unlines(lines));
    TextOfLines(cfg, lines);
  }

  // ----- the ends of a text -----

  /** Before the first title an item belongs to the isolated section; without one it is an
      error. */
  lemma BeforeAnyTitle(cfg: Config, name: string, value: string)
    requires IsName(name) && IsValue(value) && Free(name, '\n') && Free(value, '\n') && name[0] != 0xEF as char
    requires cfg.excluded == [] && cfg.included == [] && cfg.directSave == []
    ensures var o := ParseText(cfg, name + "=" + value + "\n");
            if cfg.storeIsolatedLine && cfg.isolatedSection != ""
            then o.Next? && o.p.content == map[cfg.isolatedSection := [Item(name, value)]] && o.p.order == [cfg.isolatedSection]
            else o.Fail? && o.code == OUTOFBOUND
  {
    hide ParseLine, Unlines, IsName, IsValue, ParseText;
    var line := Written(name, "", "", value);
    assert line + "" == line == name + "=" + value;
    ItemAdded(cfg, Start(cfg), name, "", "", value, "");
    UnlinesOne(line);
    MarkAt(line + "\n");
    assert line[0] == name[0] && [line][1..] == [] by { NameNotEmpty(name); }
    TextOfLines(cfg, [line]);
    assert Insert([], Item(name, value)) == [Item(name, value)];
    assert map[][cfg.isolatedSection := [Item(name, value)]] == map[cfg.isolatedSection := [Item(name, value)]];
  }

  lemma NameNotEmpty(name: string)
    requires IsName(name)
    ensures name != ""
  {
  }

  /** A byte order mark in front is no part of the text. */
  lemma MarkDropped(cfg: Config, text: string)
    requires !(BOM <= text)
    ensures ParseText(cfg, [0xEF as char, 0xBB as char, 0xBF as char] + text) == ParseText(cfg, text)
  {
    hide ParseLines, CloseAtEnd, Start, Lines;
    assert (BOM + text)[3..] == text;
  }

  /** How a section is printed: a blank line follows, unless its last value is empty. */
  lemma PrintedForms(section: string, name: string, value: string)
    ensures SectionLines(section, []) == ["[" + section + "]", ""]
    ensures value != "" && name != "{NONAME}" ==>
              SectionLines(section, [Item(name, value)]) == ["[" + section + "]", name + "=" + Escape(value), ""]
    ensures value != "" ==> SectionLines(section, [Item("{NONAME}", value)]) == ["[" + section + "]", Escape(value), ""]
    ensures name != "{NONAME}" ==> SectionLines(section, [Item(name, "")]) == ["[" + section + "]", name + "="]
  {
    OneItemLine(Item(name, value));
    OneItemLine(Item("{NONAME}", value));
    OneItemLine(Item(name, ""));
    assert Escape("") == "" && name + "=" + "" == name + "=" && "" + Escape(value) == Escape(value);
  }

  lemma OneItemLine(item: Item)
    ensures ItemLines([item]) == [ItemLine(item)]
  {
    assert [item][..0] == [];
  }
}
