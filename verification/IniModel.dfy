/** The values behind INIReader (ini_reader.h): ordered multimaps of items, what a text
    parses to, line by line, and what a document prints as. */
module IniModel {
  import opened StringUtil

  // ----- std::multimap<string, string> -----

  datatype Item = Item(name: string, value: string)

  type Items = seq<Item>

  /** The order of std::string. */
  predicate Less(a: string, b: string) {
    b != "" && (a == "" || a[0] < b[0] || (a[0] == b[0] && Less(a[1..], b[1..])))
  }

  predicate Sorted(items: Items) {
    forall i, j | 0 <= i < j < |items| :: !Less(items[j].name, items[i].name)
  }

  /** Insertion at the upper bound: after every item with an equal or smaller name. */
  function Insert(items: Items, item: Item): Items {
    if items == [] || Less(item.name, items[0].name) then [item] + items
    else [items[0]] + Insert(items[1..], item)
  }

  function Merge(items: Items, more: Items): Items
    decreases |more|
  {
    if more == [] then items else Merge(Insert(items, more[0]), more[1..])
  }

  function Without(items: Items, name: string): Items {
    if items == [] then []
    else if items[0].name == name then Without(items[1..], name)
    else [items[0]] + Without(items[1..], name)
  }

  function WithoutFirst(items: Items, name: string): Items {
    if items == [] then []
    else if items[0].name == name then items[1..]
    else [items[0]] + WithoutFirst(items[1..], name)
  }

  /** The values under a name, in order. */
  function Values(items: Items, name: string): seq<string> {
    if items == [] then []
    else (if items[0].name == name then [items[0].value] else []) + Values(items[1..], name)
  }

  /** The values of all items whose name starts with the prefix, in order. */
  function PrefixValues(items: Items, prefix: string): seq<string> {
    if items == [] then []
    else (if prefix <= items[0].name then [items[0].value] else []) + PrefixValues(items[1..], prefix)
  }

  lemma {:induction false} LessIrreflexive(a: string)
    ensures !Less(a, a)
  {
    if a != "" { LessIrreflexive(a[1..]); }
  }

  lemma {:induction false} LessTransitive(a: string, b: string, c: string)
    requires Less(a, b) && !Less(c, b)
    ensures Less(a, c)
  {
    if a != "" && b[0] == c[0] && a[0] == b[0] { LessTransitive(a[1..], b[1..], c[1..]); }
  }

  lemma {:induction false} LessAsymmetric(a: string, b: string)
    requires Less(a, b)
    ensures !Less(b, a)
  {
    if a != "" && a[0] == b[0] { LessAsymmetric(a[1..], b[1..]); }
  }

  lemma SortedCons(head: Item, rest: Items)
    ensures Sorted([head] + rest) <==> Sorted(rest) && forall x | x in rest :: !Less(x.name, head.name)
  {
    var all := [head] + rest;
    assert forall j | 0 <= j < |rest| :: all[j + 1] == rest[j];
    if Sorted(all) {
      forall i, j | 0 <= i < j < |rest| ensures !Less(rest[j].name, rest[i].name) {
        assert !Less(all[j + 1].name, all[i + 1].name);
      }
      forall j | 0 <= j < |rest| ensures !Less(rest[j].name, head.name) {
        assert !Less(all[j + 1].name, all[0].name);
      }
    }
  }

  lemma SortedNothing()
    ensures Sorted([])
  {
  }

  lemma {:induction false} InsertSorted(items: Items, item: Item)
    requires Sorted(items)
    ensures Sorted(Insert(items, item))
    ensures forall x | x in Insert(items, item) :: x in items || x == item
  {
    hide Sorted;
    if items == [] {
      SortedNothing();
      SortedCons(item, []);
    } else {
      var head, rest := items[0], items[1..];
      assert items == [head] + rest;
      SortedCons(head, rest);
      if Less(item.name, head.name) {
        forall x | x in items ensures !Less(x.name, item.name) {
          if x != head { LessTransitive(item.name, head.name, x.name); }
          LessAsymmetric(item.name, x.name);
        }
        SortedCons(item, items);
      } else {
        InsertSorted(rest, item);
        SortedCons(head, Insert(rest, item));
      }
    }
  }

  lemma {:induction false} MergeSorted(items: Items, more: Items)
    requires Sorted(items)
    ensures Sorted(Merge(items, more))
    decreases |more|
  {
    if more != [] {
      InsertSorted(items, more[0]);
      MergeSorted(Insert(items, more[0]), more[1..]);
    }
  }

  lemma {:induction false} WithoutSorted(items: Items, name: string)
    requires Sorted(items)
    ensures Sorted(Without(items, name)) && forall x | x in Without(items, name) :: x in items && x.name != name
    ensures |Without(items, name)| + |Values(items, name)| == |items|
  {
    hide Sorted;
    SortedNothing();
    if items != [] {
      assert items == [items[0]] + items[1..];
      SortedCons(items[0], items[1..]);
      WithoutSorted(items[1..], name);
      SortedCons(items[0], Without(items[1..], name));
    }
  }

  lemma {:induction false} WithoutFirstSorted(items: Items, name: string)
    requires Sorted(items)
    ensures Sorted(WithoutFirst(items, name)) && forall x | x in WithoutFirst(items, name) :: x in items
  {
    hide Sorted;
    SortedNothing();
    if items != [] {
      assert items == [items[0]] + items[1..];
      SortedCons(items[0], items[1..]);
      if items[0].name != name {
        WithoutFirstSorted(items[1..], name);
        SortedCons(items[0], WithoutFirst(items[1..], name));
      }
    }
  }

  /** A new item comes last among the items of its name and leaves the other names alone. */
  lemma {:induction false} InsertValues(items: Items, item: Item, name: string)
    requires Sorted(items)
    ensures Values(Insert(items, item), name) == Values(items, name) + (if name == item.name then [item.value] else [])
  {
    if items == [] {
    } else if Less(item.name, items[0].name) {
      if name == item.name {
        forall j | 0 <= j < |items| ensures items[j].name != name {
          LessIrreflexive(name);
        }
        NoValues(items, name);
      }
      assert ([item] + items)[1..] == items;
    } else {
      InsertValues(items[1..], item, name);
    }
  }

  lemma {:induction false} NoValues(items: Items, name: string)
    requires forall j | 0 <= j < |items| :: items[j].name != name
    ensures Values(items, name) == []
  {
    if items != [] { NoValues(items[1..], name); }
  }

  /** Erasing a name removes its values and no others. */
  lemma {:induction false} WithoutValues(items: Items, erased: string, name: string)
    ensures Values(Without(items, erased), name) == if name == erased then [] else Values(items, name)
  {
    if items != [] { WithoutValues(items[1..], erased, name); }
  }

  /** Items that are not smaller than anything before them are appended. */
  lemma {:induction false} InsertAtEnd(items: Items, item: Item)
    requires forall j | 0 <= j < |items| :: !Less(item.name, items[j].name)
    ensures Insert(items, item) == items + [item]
  {
    if items != [] { InsertAtEnd(items[1..], item); }
  }

  /** The order is that of the first difference. */
  lemma {:induction false} LessAtDifference(a: string, c: char, x: string, d: char, y: string)
    ensures c < d ==> Less(a + [c] + x, a + [d] + y) && !Less(a + [d] + y, a + [c] + x)
    ensures Less(a, a + [c] + x) && !Less(a + [c] + x, a)
    decreases |a|
  {
    var s, t := a + [c] + x, a + [d] + y;
    if a == "" {
      assert s[0] == c && t[0] == d;
    } else {
      assert s[0] == a[0] == t[0] && s[1..] == a[1..] + [c] + x && t[1..] == a[1..] + [d] + y;
      LessAtDifference(a[1..], c, x, d, y);
    }
  }

  /** Merging puts the new values of a name behind its old ones. */
  lemma {:induction false} MergeValues(items: Items, more: Items, name: string)
    requires Sorted(items)
    ensures Values(Merge(items, more), name) == Values(items, name) + Values(more, name)
    decreases |more|
  {
    hide Sorted, Insert;
    if more == [] {
      assert Merge(items, more) == items && Values(more, name) == [];
    } else {
      InsertSorted(items, more[0]);
      InsertValues(items, more[0], name);
      MergeValues(Insert(items, more[0]), more[1..], name);
      hide Merge;
      assert Values(items, name) + [more[0].value] + Values(more[1..], name) == Values(items, name) + ([more[0].value] + Values(more[1..], name));
    }
  }

  /** A value is under a prefix iff an item has it whose name is the prefix and any rest. */
  lemma {:induction false} PrefixMembers(items: Items, prefix: string, value: string)
    ensures value in PrefixValues(items, prefix) <==>
            exists k, rest :: 0 <= k < |items| && items[k] == Item(prefix + rest, value)
  {
    if items != [] {
      PrefixMembers(items[1..], prefix, value);
      if prefix <= items[0].name && items[0].value == value {
        assert items[0] == Item(prefix + items[0].name[|prefix|..], value);
      }
      if k, rest :| 0 <= k < |items| && items[k] == Item(prefix + rest, value) {
        if k > 0 { assert items[1..][k - 1] == Item(prefix + rest, value); }
      }
      if k, rest :| 0 <= k < |items| - 1 && items[1..][k] == Item(prefix + rest, value) {
        assert items[k + 1] == Item(prefix + rest, value);
      }
    }
  }

  // ----- parsing -----

  const NONE: int := 0
  const NOTPARSED: int := -1
  const NOTEXIST: int := -2
  const OUTOFBOUND: int := -3
  const DUPLICATE: int := -4
  const EMPTY: int := -5

  const NONAME := "{NONAME}"

  datatype Config = Config(
    storeAnyLine: bool, storeIsolatedLine: bool, isolatedSection: string,
    allowDuplicates: bool, keepEmpty: bool,
    excluded: seq<string>, included: seq<string>, directSave: seq<string>)
  {
    predicate Ignores(section: string) {
      section in excluded || (included != [] && section !in included)
    }
  }

  /** The reader's data and the local variables of Parse. */
  datatype Progress = Progress(
    content: map<string, Items>, order: seq<string>, read: seq<string>,
    title: string, section: string, group: Items,
    inExcluded: bool, inDirect: bool, inIsolated: bool)

  datatype Outcome = Next(p: Progress) | Stop(p: Progress) | Fail(code: int, p: Progress)

  predicate IsComment(line: string) {
    line == "" || line[0] == ';' || line[0] == '#' || (|line| >= 2 && line[0] == '/' && line[1] == '/')
  }

  /** After a line that was looked at: stop once all included sections have been read. */
  function Checked(cfg: Config, p: Progress): Outcome {
    if cfg.included != [] && cfg.included == p.read then Stop(p) else Next(p)
  }

  function Store(p: Progress): Progress {
    p.(read := if p.group != [] then p.read + [p.section] else p.read,
       order := if p.section in p.order then p.order else p.order + [p.section],
       content := p.content[p.section := p.group])
  }

  /** At the next title a section is stored; the items of a repeated section are merged
      into a copy of the stored one and so are lost. */
  function CloseAtTitle(cfg: Config, p: Progress): Outcome {
    if p.section == "" || !(cfg.keepEmpty || p.group != []) then Next(p)
    else if p.section in p.content then
      if cfg.allowDuplicates || p.content[p.section] == [] then Next(p) else Fail(DUPLICATE, p)
    else if !p.inIsolated || cfg.isolatedSection != p.title then Next(Store(p))
    else Next(p)
  }

  /** At the end of the text a repeated section is merged in place. */
  function CloseAtEnd(cfg: Config, p: Progress): Outcome {
    if p.section == "" || !(cfg.keepEmpty || p.group != []) then Next(p)
    else if p.section in p.content then
      if cfg.allowDuplicates || cfg.isolatedSection == p.title
      then Next(p.(content := p.content[p.section := Merge(p.content[p.section], p.group)]))
      else if p.content[p.section] != [] then Fail(DUPLICATE, p)
      else Next(p)
    else if !p.inIsolated || cfg.isolatedSection != p.title then Next(Store(p))
    else Next(p)
  }

  function Clip(s: string, n: nat): (k: nat)
    ensures k <= n && k <= |s|
  {
    if n <= |s| then n else |s|
  }

  /** A section title, tested on the unescaped line at the length it had before. */
  predicate IsTitle(line: string, size: nat) {
    line != "" && line[0] == '[' && 2 <= size <= |line| && line[size - 1] == ']'
  }

  /** A title stores the section before it and starts a new one. */
  function ParseTitle(cfg: Config, p: Progress, title: string): Outcome {
    var closing := p.(title := title, inExcluded := cfg.Ignores(title), inDirect := title in cfg.directSave);
    match CloseAtTitle(cfg, closing)
    case Next(q) => Checked(cfg, q.(inIsolated := false, group := [], section := title))
    case Stop(q) => Stop(q)
    case Fail(code, q) => Fail(code, q)
  }

  /** One line of the text. */
  function ParseLine(cfg: Config, p: Progress, raw: string): Outcome {
    var trimmed := TrimWhitespace(raw);
    var size, equal := |trimmed|, Find(trimmed, '=');
    if IsComment(trimmed) && !p.inDirect then Next(p) else
    var line := Unescape(trimmed);
    if IsTitle(line, size) then ParseTitle(cfg, p, line[1..size - 1])
    else if ((cfg.storeAnyLine && equal == size) || p.inDirect) && !p.inExcluded && p.section != "" then
      Checked(cfg, p.(group := Insert(p.group, Item(NONAME, line))))
    else if equal != size then
      if p.inExcluded then Next(p)
      else if p.section == "" then Fail(OUTOFBOUND, p)
      else
        var item := Item(Trim(line[..Clip(line, equal)]), SkipSpaces(line[Clip(line, equal + 1)..]));
        Checked(cfg, p.(group := Insert(p.group, item)))
    else Checked(cfg, p)
  }

  function ParseLines(cfg: Config, p: Progress, lines: seq<string>): Outcome
    decreases |lines|
  {
    if lines == [] then Next(p) else
    var o := ParseLine(cfg, p, lines[0]);
    if o.Next? then ParseLines(cfg, o.p, lines[1..]) else o
  }

  function Start(cfg: Config): Progress {
    var isolated := cfg.storeIsolatedLine && cfg.isolatedSection != "";
    var section := if isolated then cfg.isolatedSection else "";
    Progress(map[], [], [], "", section, [],
             isolated && cfg.Ignores(section), isolated && section in cfg.directSave, isolated)
  }

  /** The UTF-8 byte order mark. */
  const BOM: string := [0xEF as char, 0xBB as char, 0xBF as char]

  function WithoutBom(text: string): string { if BOM <= text then text[3..] else text }

  /** What a non-empty text parses to; Fail leaves what was stored before. */
  function ParseText(cfg: Config, text: string): Outcome {
    var body := WithoutBom(text);
    var o := ParseLines(cfg, Start(cfg), Lines(body, LineBreak(body)));
    if o.Fail? then o else CloseAtEnd(cfg, o.p)
  }

  // ----- printing -----

  function ItemLine(item: Item): string {
    (if item.name != NONAME then item.name + "=" else "") + Escape(item.value)
  }

  function ItemLines(items: Items): seq<string> {
    if items == [] then [] else ItemLines(items[..|items| - 1]) + [ItemLine(items[|items| - 1])]
  }

  /** A blank line ends a section unless its last value is empty. */
  function SectionLines(section: string, items: Items): seq<string> {
    ["[" + section + "]"] + ItemLines(items)
    + (if items == [] || items[|items| - 1].value != "" then [""] else [])
  }

  function DocLines(content: map<string, Items>, order: seq<string>): seq<string>
    requires forall s | s in order :: s in content
  {
    if order == [] then []
    else
      var last := order[|order| - 1];
      DocLines(content, order[..|order| - 1]) + SectionLines(last, content[last])
  }
}
