/** The class INIReader of ini_reader.h. A Section object is a node of the section map;
    the cached iterator is a reference to such a node, so a stale cache would show. */
module IniReader {
  import opened StringUtil
  import opened IniModel

  /** The local variables of Parse. */
  datatype Scan = Scan(read: seq<string>, title: string, section: string, group: Items,
                       inExcluded: bool, inDirect: bool, inIsolated: bool)

  /** How a line ends: the loop goes on, breaks or returns an error. */
  datatype Flow = Going | Stopping | Failing(code: int)

  ghost function Reached(flow: Flow, p: Progress): Outcome {
    match flow
    case Going => Next(p)
    case Stopping => Stop(p)
    case Failing(code) => Fail(code, p)
  }

  class Section {
    ghost const name: string
    var items: Items

    constructor (ghost name: string, items: Items)
      ensures this.name == name && this.items == items
    {
      this.name, this.items := name, items;
    }
  }

  class INIReader {
    var config: Config
    var parsed: bool
    var currentSection: string
    var content: map<string, Section>
    var sectionOrder: seq<string>
    var cachedSection: string
    var cachedContent: Section?
    var lastError: int

    /** The plain map that every lookup is compared with. */
    ghost function Doc(): map<string, Items>
      reads `content, content.Values
    {
      map s | s in content :: content[s].items
    }

    ghost predicate NodesOk()
      reads `content, content.Values
    {
      && "" !in content
      && (forall s | s in content :: content[s].name == s && Sorted(content[s].items))
    }

    ghost predicate OrderOk()
      reads `content, `sectionOrder
    {
      (forall s :: s in sectionOrder <==> s in content) && Distinct(sectionOrder)
    }

    /** The cached iterator is the node of the cached name, if a name is cached. */
    ghost predicate CacheOk()
      reads `content, `cachedSection, `cachedContent
    {
      if cachedSection == "" then cachedContent == null
      else cachedSection in content && cachedContent == content[cachedSection]
    }

    ghost predicate Valid()
      reads `content, `sectionOrder, `cachedSection, `cachedContent, content.Values
    {
      NodesOk() && OrderOk() && CacheOk()
    }

    constructor (config: Config)
      ensures Valid() && this.config == config && !parsed && content == map[] && sectionOrder == []
      ensures currentSection == ""
    {
      this.config := config;
      parsed := false;
      currentSection, cachedSection := "", "";
      content := map[];
      sectionOrder := [];
      cachedContent := null;
      lastError := NONE;
    }

    // ----- lookups -----

    /** The caching step shared by all lookups. */
    method Seek(section: string)
      requires Valid() && section in content
      modifies this`cachedSection, this`cachedContent
      ensures Valid() && cachedSection == section && cachedContent == content[section]
    {
      if section != cachedSection {
        cachedSection := section;
        cachedContent := content[section];
      }
    }

    method EnterSection(section: string) returns (code: int)
      requires Valid()
      modifies this`currentSection, this`cachedSection, this`cachedContent, this`lastError
      ensures Valid() && code == lastError == if section in content then NONE else NOTEXIST
      ensures currentSection == if section in content then section else old(currentSection)
      ensures section in content ==> cachedSection == section && cachedContent == content[section]
      ensures section !in content ==> unchanged(`cachedSection, `cachedContent)
    {
      if section !in content {
        lastError := NOTEXIST;
        return lastError;
      }
      currentSection, cachedSection := section, section;
      cachedContent := content[section];
      lastError := NONE;
      return lastError;
    }

    method ItemExist(section: string, name: string) returns (found: bool)
      requires Valid()
      modifies this`cachedSection, this`cachedContent
      ensures Valid() && (found <==> section in Doc() && Values(Doc()[section], name) != [])
    {
      if section !in content { return false; }
      Seek(section);
      var cache := cachedContent.items;
      found := false;
      var k := 0;
      while k < |cache| && !found
        invariant k <= |cache|
        invariant Values(cache, name) != [] <==> found || Values(cache[k..], name) != []
      {
        assert cache[k..][1..] == cache[k + 1..];
        found := cache[k].name == name;
        k := k + 1;
      }
      assert cache[|cache|..] == [];
    }

    /** GetItemsRef and GetItems: the items, or None with an error code. */
    method GetItems(section: string) returns (code: int, data: Items)
      requires Valid()
      modifies this`cachedSection, this`cachedContent, this`lastError
      ensures Valid() && code == lastError
      ensures parsed && section in Doc() ==> code == NONE && data == Doc()[section]
      ensures !(parsed && section in Doc()) ==> code == NOTEXIST && data == []
    {
      if !parsed || section !in content {
        lastError := NOTEXIST;
        return lastError, [];
      }
      Seek(section);
      lastError := NONE;
      return lastError, cachedContent.items;
    }

    method GetAll(section: string, prefix: string, before: seq<string>) returns (code: int, results: seq<string>)
      requires Valid()
      modifies this`cachedSection, this`cachedContent, this`lastError
      ensures Valid() && code == lastError
      ensures code == if !parsed then NOTPARSED else if section in Doc() then NONE else NOTEXIST
      ensures results == before + if code == NONE then PrefixValues(Doc()[section], prefix) else []
    {
      hide Sorted;
      results := before;
      if !parsed {
        lastError := NOTPARSED;
        return lastError, results;
      }
      if section !in content {
        lastError := NOTEXIST;
        return lastError, results;
      }
      Seek(section);
      var items := cachedContent.items;
      assert items[0..] == items;
      for k := 0 to |items|
        invariant results + PrefixValues(items[k..], prefix) == before + PrefixValues(items, prefix)
      {
        assert items[k..][1..] == items[k + 1..];
        if prefix <= items[k].name {
          results := results + [items[k].value];
        }
      }
      lastError := NONE;
      return lastError, results;
    }

    /** The first value under the name, or "". */
    method Get(section: string, name: string) returns (value: string)
      requires Valid()
      modifies this`cachedSection, this`cachedContent
      ensures Valid()
      ensures value == if parsed && section in Doc() && Values(Doc()[section], name) != []
                       then Values(Doc()[section], name)[0] else ""
    {
      if !parsed || section !in content { return ""; }
      Seek(section);
      var cache := cachedContent.items;
      assert cache[0..] == cache;
      for k := 0 to |cache|
        invariant Values(cache, name) == Values(cache[k..], name)
      {
        assert cache[k..][1..] == cache[k + 1..];
        if cache[k].name == name { return cache[k].value; }
      }
      return "";
    }

    // ----- changes -----

    /** Assigning to the node of a stored section. */
    method Assign(section: string, items: Items)
      requires Valid() && section in content && Sorted(items)
      modifies content.Values
      ensures Valid() && Doc() == old(Doc())[section := items]
    {
      hide Sorted;
      content[section].items := items;
    }

    method Set(section: string, name: string, value: string) returns (code: int)
      requires Valid()
      modifies this`content, this`sectionOrder, this`parsed, this`lastError, content.Values
      ensures Valid()
      ensures forall s | s in content :: fresh(content[s]) || (s in old(content) && content[s] == old(content[s]))
      ensures section == "" ==> code == NOTEXIST && Doc() == old(Doc()) && sectionOrder == old(sectionOrder)
      ensures section != "" ==>
                && code == NONE && parsed
                && Doc() == old(Doc())[section := Insert(if section in old(content) then old(content[section].items) else [], Item(name, value))]
                && sectionOrder == if section in old(content) then old(sectionOrder) else old(sectionOrder) + [section]
    {
      hide Sorted, Distinct, Insert;
      if section == "" {
        lastError := NOTEXIST;
        return lastError;
      }
      parsed := true;
      lastError := NONE;
      if section in content {
        var items := content[section].items;
        InsertSorted(items, Item(name, value));
        Assign(section, Insert(items, Item(name, value)));
      } else {
        SortedNothing();
        InsertSorted([], Item(name, value));
        Emplace(section, Insert([], Item(name, value)));
      }
      return lastError;
    }

    /** A new node at the end of the section order. */
    method Emplace(section: string, items: Items)
      requires Valid() && section !in content && section != "" && Sorted(items)
      modifies this`content, this`sectionOrder
      ensures Valid() && Doc() == old(Doc())[section := items]
      ensures section in content && fresh(content[section])
      ensures content == old(content)[section := content[section]]
      ensures sectionOrder == old(sectionOrder) + [section]
    {
      hide Sorted, Distinct;
      DistinctAppend(sectionOrder, section);
      var node := new Section(section, items);
      content := content[section := node];
      sectionOrder := sectionOrder + [section];
      assert NodesOk() by { hide OrderOk, CacheOk, Doc; }
      assert OrderOk() by { hide NodesOk, CacheOk, Doc; }
      assert CacheOk() by { hide NodesOk, OrderOk, Doc; }
      hide NodesOk, OrderOk, CacheOk;
    }

    /** Returns how many items went, or an error code. */
    method Erase(section: string, name: string) returns (result: int)
      requires Valid()
      modifies this`cachedContent, this`lastError, content.Values
      ensures Valid()
      ensures section !in content ==> result == NOTEXIST && Doc() == old(Doc())
      ensures section in content ==>
                && result == |Values(old(Doc())[section], name)|
                && Doc() == old(Doc())[section := Without(old(Doc())[section], name)]
    {
      hide Sorted, Distinct, Without, Values;
      if section !in content {
        lastError := NOTEXIST;
        return lastError;
      }
      var before := content[section].items;
      WithoutSorted(before, name);
      Assign(section, Without(before, name));
      result := |before| - |Without(before, name)|;
      if result != 0 && cachedSection == section {
        cachedContent := content[section];
      }
    }

    /** An unknown section makes map::at throw. */
    method EraseFirst(section: string, name: string) returns (threw: bool, code: int)
      requires Valid()
      modifies this`lastError, content.Values
      ensures Valid() && (threw <==> section !in content)
      ensures threw ==> Doc() == old(Doc())
      ensures !threw ==>
                && Doc() == old(Doc())[section := WithoutFirst(old(Doc())[section], name)]
                && code == lastError == if Values(old(Doc())[section], name) != [] then NONE else NOTEXIST
    {
      hide Sorted, Distinct, WithoutFirst, Values;
      if section !in content { return true, lastError; }
      threw := false;
      var before := content[section].items;
      NoneToErase(before, name);
      WithoutFirstSorted(before, name);
      if exists k :: 0 <= k < |before| && before[k].name == name {
        Assign(section, WithoutFirst(before, name));
        lastError := NONE;
      } else {
        lastError := NOTEXIST;
      }
      code := lastError;
    }

    /** The section stays, without items. */
    method EraseSection(section: string)
      requires Valid()
      modifies this`cachedSection, this`cachedContent, content.Values
      ensures Valid()
      ensures Doc() == if section in content then old(Doc())[section := []] else old(Doc())
      ensures section in content ==> cachedSection != section
      ensures section !in content || old(cachedSection) != section ==> unchanged(`cachedSection, `cachedContent)
    {
      hide Sorted, Distinct;
      if section !in content { return; }
      SortedNothing();
      Assign(section, []);
      if cachedSection == section {
        cachedContent := null;
        cachedSection := "";
      }
    }

    method RemoveSection(section: string)
      requires Valid()
      modifies this`content, this`cachedSection, this`cachedContent, this`sectionOrder
      ensures Valid() && Doc() == old(Doc()) - {section}
      ensures sectionOrder == Remaining(old(sectionOrder), section)
    {
      hide Sorted, Distinct, Remaining;
      RemainingMembers(sectionOrder, section);
      if section !in content { return; }
      content := content - {section};
      if cachedSection == section {
        cachedSection := "";
        cachedContent := null;
      }
      sectionOrder := Remaining(sectionOrder, section);
      assert NodesOk() by { hide OrderOk, CacheOk, Doc; }
      assert OrderOk() by { hide NodesOk, CacheOk, Doc; }
      assert CacheOk() by { hide NodesOk, OrderOk, Doc; }
      hide NodesOk, OrderOk, CacheOk;
    }

    // ----- parsing and printing -----

    /** The reader's data with the local variables of Parse. */
    ghost function Now(scan: Scan): Progress
      reads `content, `sectionOrder, content.Values
    {
      Progress(Doc(), sectionOrder, scan.read, scan.title, scan.section, scan.group,
               scan.inExcluded, scan.inDirect, scan.inIsolated)
    }

    /** Storing the section that a title ends. */
    method CloseAtNextTitle(scan: Scan) returns (ok: bool, after: Scan)
      requires Valid() && Sorted(scan.group)
      modifies this`content, this`sectionOrder
      ensures Valid() && forall s | s in content :: fresh(content[s]) || (s in old(content) && content[s] == old(content[s]))
      ensures CloseAtTitle(config, old(Now(scan))) == if ok then Next(Now(after)) else Fail(DUPLICATE, Now(after))
      ensures after == scan.(read := after.read)
    {
      ok, after := true, scan;
      var section, group := scan.section, scan.group;
      assert (section in content <==> section in sectionOrder) && (section in content <==> section in Doc());
      assert section in content ==> Doc()[section] == content[section].items;
      hide Valid, Doc;
      if section != "" && (config.keepEmpty || group != []) {
        if section in content {
          if config.allowDuplicates || content[section].items == [] {
            var copy := content[section].items;
            copy := Merge(copy, group);
          } else {
            return false, scan;
          }
        } else if !scan.inIsolated || config.isolatedSection != scan.title {
          if group != [] {
            after := scan.(read := scan.read + [section]);
          }
          Emplace(section, group);
        }
      }
    }

    /** Merging into the node of a stored section. */
    method MergeInto(section: string, group: Items)
      requires Valid() && section in content && Sorted(group)
      modifies content.Values
      ensures Valid() && Doc() == old(Doc())[section := Merge(old(content[section].items), group)]
    {
      hide Sorted, Distinct, Merge;
      MergeSorted(content[section].items, group);
      Assign(section, Merge(content[section].items, group));
    }

    /** Storing the last section. */
    method CloseLast(scan: Scan) returns (ok: bool, after: Scan)
      requires Valid() && Sorted(scan.group)
      modifies this`content, this`sectionOrder, content.Values
      ensures Valid()
      ensures CloseAtEnd(config, old(Now(scan))) == if ok then Next(Now(after)) else Fail(DUPLICATE, Now(after))
    {
      hide Sorted, Merge;
      ok, after := true, scan;
      var section, group := scan.section, scan.group;
      assert (section in content <==> section in sectionOrder) && (section in content <==> section in Doc());
      assert section in content ==> Doc()[section] == content[section].items;
      hide Valid, Doc;
      if section != "" && (config.keepEmpty || group != []) {
        if section in content {
          if config.allowDuplicates || config.isolatedSection == scan.title {
            MergeInto(section, group);
          } else if content[section].items != [] {
            return false, scan;
          }
        } else if !scan.inIsolated || config.isolatedSection != scan.title {
          if group != [] {
            after := scan.(read := scan.read + [section]);
          }
          Emplace(section, group);
        }
      }
    }

    /** A title ends the section before it. */
    method ReadTitle(title: string, scan: Scan) returns (flow: Flow, after: Scan)
      requires Valid() && Sorted(scan.group)
      modifies this`content, this`sectionOrder
      ensures Valid() && Sorted(after.group)
      ensures forall s | s in content :: fresh(content[s]) || (s in old(content) && content[s] == old(content[s]))
      ensures ParseTitle(config, old(Now(scan)), title) == Reached(flow, Now(after))
    {
      hide Valid, Doc, Sorted, CloseAtTitle;
      SortedNothing();
      after := scan.(title := title, inExcluded := config.Ignores(title), inDirect := title in config.directSave);
      var ok;
      ok, after := CloseAtNextTitle(after);
      if !ok { return Failing(DUPLICATE), after; }
      after := after.(inIsolated := false, group := [], section := title);
      flow := if config.included != [] && config.included == after.read then Stopping else Going;
    }

    /** The body of Parse's loop. */
    method ReadLine(raw: string, scan: Scan) returns (flow: Flow, after: Scan)
      requires Valid() && Sorted(scan.group)
      modifies this`content, this`sectionOrder
      ensures Valid() && Sorted(after.group)
      ensures forall s | s in content :: fresh(content[s]) || (s in old(content) && content[s] == old(content[s]))
      ensures ParseLine(config, old(Now(scan)), raw) == Reached(flow, Now(after))
    {
      hide Valid, Doc, Sorted, Insert, Unescape, ParseTitle, Trim, SkipSpaces, TrimWhitespace;
      var trimmed := TrimWhitespace(raw);
      var size, equal := |trimmed|, Find(trimmed, '=');
      after := scan;
      if IsComment(trimmed) && !scan.inDirect { return Going, after; }
      var line := ProcessEscapeChar(trimmed);
      if IsTitle(line, size) {
        flow, after := ReadTitle(line[1..size - 1], scan);
        return;
      } else if ((config.storeAnyLine && equal == size) || scan.inDirect) && !scan.inExcluded && scan.section != "" {
        InsertSorted(scan.group, Item(NONAME, line));
        after := after.(group := Insert(scan.group, Item(NONAME, line)));
      } else if equal != size {
        if scan.inExcluded { return Going, after; }
        if scan.section == "" { return Failing(OUTOFBOUND), after; }
        var item := Item(Trim(line[..Clip(line, equal)]), SkipSpaces(line[Clip(line, equal + 1)..]));
        InsertSorted(scan.group, item);
        after := after.(group := Insert(scan.group, item));
      }
      flow := if config.included != [] && config.included == after.read then Stopping else Going;
    }

    /** Parse's loop. */
    method ReadLines(lines: seq<string>, scan: Scan) returns (flow: Flow, after: Scan)
      requires Valid() && Sorted(scan.group)
      modifies this`content, this`sectionOrder
      ensures Valid() && Sorted(after.group)
      ensures forall s | s in content :: fresh(content[s]) || (s in old(content) && content[s] == old(content[s]))
      ensures ParseLines(config, old(Now(scan)), lines) == Reached(flow, Now(after))
    {
      hide Valid, Doc, Sorted, ParseLine;
      flow, after := Going, scan;
      ghost var all := ParseLines(config, Now(scan), lines);
      assert lines[0..] == lines;
      var i := 0;
      while i < |lines| && flow.Going?
        invariant i <= |lines| && Valid() && Sorted(after.group)
        invariant forall s | s in content :: fresh(content[s]) || (s in old(content) && content[s] == old(content[s]))
        invariant all == if flow.Going? then ParseLines(config, Now(after), lines[i..]) else Reached(flow, Now(after))
      {
        assert lines[i..][0] == lines[i] && lines[i..][1..] == lines[i + 1..];
        flow, after := ReadLine(lines[i], after);
        i := i + 1;
      }
      if flow.Going? { assert lines[i..] == []; }
    }

    method Parse(text: string) returns (code: int)
      requires Valid()
      modifies this
      ensures Valid() && code == lastError && config == old(config) && currentSection == old(currentSection)
      ensures text == "" ==> code == EMPTY && unchanged(`content, `sectionOrder, `parsed, `cachedSection, `cachedContent)
      ensures text != "" ==>
                var o := ParseText(config, text);
                && Doc() == o.p.content && sectionOrder == o.p.order
                && parsed == !o.Fail? && code == if o.Fail? then o.code else NONE
    {
      hide Valid, Doc, Sorted, Lines, ParseLines, CloseAtEnd, WithoutBom, LineBreak;
      if text == "" {
        lastError := EMPTY;
        return lastError;
      }
      var body := WithoutBom(text);
      var lines := Lines(body, LineBreak(body));
      EraseAll();
      SortedNothing();
      var scan := Scan([], "", "", [], false, false, false);
      if config.storeIsolatedLine && config.isolatedSection != "" {
        var section := config.isolatedSection;
        scan := Scan([], "", section, [], config.Ignores(section), section in config.directSave, true);
      }
      assert Now(scan) == Start(config);
      var flow;
      flow, scan := ReadLines(lines, scan);
      if flow.Failing? {
        lastError := flow.code;
        return lastError;
      }
      var ok;
      ok, scan := CloseLast(scan);
      if !ok {
        lastError := DUPLICATE;
        return lastError;
      }
      parsed := true;
      lastError := NONE;
      return lastError;
    }

    method ToString() returns (text: string)
      requires Valid()
      ensures text == if parsed then Unlines(DocLines(Doc(), sectionOrder)) else ""
    {
      hide Sorted, Distinct, Unlines, ItemLines, Escape;
      text := "";
      UnlinesNothing();
      if !parsed { return; }
      ghost var doc := Doc();
      assert sectionOrder[..0] == [];
      for k := 0 to |sectionOrder|
        invariant text == Unlines(DocLines(doc, sectionOrder[..k]))
      {
        hide DocLines;
        var x := sectionOrder[k];
        var items := content[x].items;
        DocLinesSnoc(doc, sectionOrder, k);
        UnlinesAppend(DocLines(doc, sectionOrder[..k]), SectionLines(x, items));
        var block := PrintSection(x, items);
        text := text + block;
      }
      assert sectionOrder[..|sectionOrder|] == sectionOrder;
    }

    /** What the body of ToString's loop appends for one section. */
    static method PrintSection(section: string, items: Items) returns (text: string)
      ensures text == Unlines(SectionLines(section, items))
    {
      hide Unlines, ItemLines, Escape;
      var title := "[" + section + "]";
      text := title + "\n";
      UnlinesOne(title);
      if items == [] {
        text := text + "\n";
        NoItemLines();
        UnlinesOne("");
        UnlinesAppend([title], [""]);
        assert SectionLines(section, items) == [title] + [""];
        return;
      }
      NoItemLines();
      var size := 0;
      assert items[..0] == [] && [title] + [] == [title];
      for k := 0 to |items|
        invariant text == Unlines([title] + ItemLines(items[..k]))
        invariant k == |items| ==> (size == 0 <==> items[k - 1].value == "")
      {
        var line := "";
        if items[k].name != NONAME {
          line := items[k].name + "=";
        }
        var value := ProcessEscapeCharReverse(items[k].value);
        EscapeGrows(items[k].value);
        text := text + line + value + "\n";
        ItemLinesSnoc(items, k);
        UnlinesOne(line + value);
        UnlinesAppend([title] + ItemLines(items[..k]), [line + value]);
        assert [title] + ItemLines(items[..k]) + [line + value] == [title] + ItemLines(items[..k + 1]);
        if k + 1 == |items| {
          size := |value|;
        }
      }
      assert items[..|items|] == items;
      if size != 0 {
        text := text + "\n";
        UnlinesOne("");
        UnlinesAppend([title] + ItemLines(items), [""]);
      } else {
        assert SectionLines(section, items) == [title] + ItemLines(items);
      }
    }

    method EraseAll()
      modifies this`content, this`sectionOrder, this`cachedSection, this`cachedContent, this`parsed
      ensures Valid() && content == map[] && Doc() == map[] && sectionOrder == [] && !parsed
    {
      content := map[];
      sectionOrder := [];
      cachedSection := "";
      cachedContent := null;
      parsed := false;
    }
  }

  /** The order without the first entry that is the section. */
  function Remaining(order: seq<string>, section: string): seq<string> {
    if order == [] then []
    else if order[0] == section then order[1..]
    else [order[0]] + Remaining(order[1..], section)
  }

  lemma {:induction false} RemainingMembers(order: seq<string>, section: string)
    requires Distinct(order)
    ensures Distinct(Remaining(order, section))
    ensures forall s :: s in Remaining(order, section) <==> s in order && s != section
    ensures section !in order ==> Remaining(order, section) == order
  {
    hide Distinct;
    if order != [] {
      var head, rest := order[0], order[1..];
      assert order == [head] + rest;
      DistinctCons(head, rest);
      if head == section {
        assert Remaining(order, section) == rest;
      } else {
        RemainingMembers(rest, section);
        DistinctCons(head, Remaining(rest, section));
        assert Remaining(order, section) == [head] + Remaining(rest, section);
      }
    }
  }

  lemma {:induction false} NoneToErase(items: Items, name: string)
    ensures Values(items, name) != [] <==> exists k :: 0 <= k < |items| && items[k].name == name
    ensures Values(items, name) == [] ==> WithoutFirst(items, name) == items
  {
    if items != [] {
      NoneToErase(items[1..], name);
      if k :| 0 <= k < |items[1..]| && items[1..][k].name == name { assert items[k + 1].name == name; }
    }
  }

  // ----- printed lines -----

  lemma NoItemLines()
    ensures ItemLines([]) == []
  {
  }

  lemma ItemLinesSnoc(items: Items, k: nat)
    requires k < |items|
    ensures ItemLines(items[..k + 1]) == ItemLines(items[..k]) + [ItemLine(items[k])]
  {
    assert items[..k + 1][..k] == items[..k];
  }

  lemma DocLinesSnoc(content: map<string, Items>, order: seq<string>, k: nat)
    requires k < |order| && forall s | s in order :: s in content
    ensures DocLines(content, order[..k + 1]) == DocLines(content, order[..k]) + SectionLines(order[k], content[order[k]])
  {
    assert order[..k + 1][..k] == order[..k];
  }

  lemma EscapeGrows(s: string)
    ensures Escape(s) == "" <==> s == ""
  {
  }
}
