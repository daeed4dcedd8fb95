/** Rule providers: findFileName and renderClashScript with script off (templates.cpp). */
module RuleProviders {
  import opened Common
  import opened StringUtil
  import opened NodeNames
  import ShareLinks

  // ----- file names -----

  /** The last path component without its extension. A path without any slash loses its
      first character; a leading dot then starts no extension. */
  function FindFileName(path: string): string
    requires path != ""
  {
    var slash, back := FindLast(path, '/', |path|), FindLast(path, '\\', |path|);
    var pos := if slash < |path| then slash else if back < |path| then back else 0;
    var dot := FindLast(path, '.', |path|);
    path[pos + 1..if dot <= pos then |path| else dot]
  }

  lemma FileNameStem(dir: string, stem: string, extension: string)
    requires Free(stem, '/') && Free(extension, '/') && Free(extension, '.')
    ensures FindFileName(dir + "/" + stem + "." + extension) == stem
  {
    var tail := stem + "." + extension;
    var path := dir + "/" + tail;
    assert path == (dir + "/" + stem) + ['.'] + extension && path == dir + ['/'] + tail;
    CutLast(dir, '/', tail);
    CutLast(dir + "/" + stem, '.', extension);
    assert path == (dir + "/") + stem + ("." + extension);
    assert path[|dir| + 1..|dir| + 1 + |stem|] == stem;
  }

  // ----- rules -----

  function Commas(s: string): nat {
    if s == "" then 0 else (if s[0] == ',' then 1 else 0) + Commas(s[1..])
  }

  /** With three commas or more the last field, the policy, moves to the third place. */
  function Regrouped(s: string): string {
    if Commas(s) < 3 then s else
    var first := Find(s, ',');
    if first == |s| then s else
    var second, last := Find(s, ',', first + 1), FindLast(s, ',', |s|);
    if second < last < |s| then s[..second] + s[last..] + s[second..last] else s
  }

  function WithPolicy(line: string, policy: string): string { Regrouped(line + "," + policy) }

  lemma {:induction false} CommasAppend(a: string, b: string)
    ensures Commas(a + b) == Commas(a) + Commas(b)
  {
    if a == "" {
      assert a + b == b;
    } else {
      CommasAppend(a[1..], b);
      assert (a + b)[1..] == a[1..] + b;
    }
  }

  lemma {:induction false} NoCommas(s: string)
    ensures Commas(s) == 0 <==> Free(s, ',')
  {
    if s != "" {
      NoCommas(s[1..]);
      assert forall i | 1 <= i < |s| :: s[i] == s[1..][i - 1];
      if Free(s, ',') {
        assert forall i | 0 <= i < |s[1..]| :: s[1..][i] == s[i + 1];
      }
    }
  }

  lemma FirstAt(a: string, rest: string)
    requires Free(a, ',')
    ensures Find(a + "," + rest, ',') == |a|
  {
    var s := a + "," + rest;
    assert s[|a|] == ',' && forall i | 0 <= i < |a| :: s[i] == a[i];
  }

  lemma FindShift(s: string, n: nat)
    requires n <= |s|
    ensures Find(s, ',', n) == n + Find(s[n..], ',')
  {
  }

  lemma Joined(a: string, b: string, rest: string)
    ensures a + "," + b + "," + rest == a + "," + (b + "," + rest)
  {
  }

  lemma FirstTwo(a: string, b: string, rest: string)
    requires Free(a, ',') && Free(b, ',')
    ensures var s := a + "," + b + "," + rest; Find(s, ',') == |a| && Find(s, ',', |a| + 1) == |a| + 1 + |b|
  {
    var s, tail := a + "," + b + "," + rest, b + "," + rest;
    Joined(a, b, rest);
    FirstAt(a, tail);
    assert s[|a| + 1..] == tail;
    FindShift(s, |a| + 1);
    FirstAt(b, rest);
  }

  lemma CommasOfFour(a: string, b: string, options: string, d: string)
    requires Free(a, ',') && Free(b, ',') && Free(d, ',')
    ensures Commas(a + "," + b + "," + d) == 2 && Commas(a + "," + b + "," + options + "," + d) >= 3
  {
    hide Commas;
    var two := a + "," + b;
    NoCommas(a);
    NoCommas(b);
    NoCommas(d);
    OneComma();
    CommasAppend(a, ",");
    CommasAppend(a + ",", b);
    CommasAppend(two, ",");
    CommasAppend(two + ",", d);
    CommasAppend(two + ",", options);
    CommasAppend(two + "," + options, ",");
    CommasAppend(two + "," + options + ",", d);
  }

  /** The policy comes third, in front of the options. */
  lemma PolicyThird(kind: string, pattern: string, options: string, policy: string)
    requires Free(kind, ',') && Free(pattern, ',') && Free(policy, ',')
    ensures WithPolicy(kind + "," + pattern, policy) == kind + "," + pattern + "," + policy
    ensures WithPolicy(kind + "," + pattern + "," + options, policy)
            == kind + "," + pattern + "," + policy + "," + options
  {
    hide Commas;
    var two := kind + "," + pattern;
    var s := two + "," + options + "," + policy;
    CommasOfFour(kind, pattern, options, policy);
    Joined(two, options, policy);
    CutLast(two + "," + options, ',', policy);
    FirstTwo(kind, pattern, options + "," + policy);
    Slices(two, options, policy);
    JoinedPair(two, policy, options);
  }

  lemma JoinedPair(a: string, b: string, c: string)
    ensures a + ("," + b) + ("," + c) == a + "," + b + "," + c
  {
  }

  lemma Slices(a: string, b: string, c: string)
    ensures var s := a + "," + b + "," + c;
            && s[..|a|] == a && s[|a| + 1 + |b|..] == "," + c && s[|a|..|a| + 1 + |b|] == "," + b
            && s == (a + "," + b) + [','] + c
  {
  }

  lemma OneComma()
    ensures Commas(",") == 1
  {
  }

  datatype RulesetType = Surge | QuanX | ClashDomain | ClashIpcidr | ClashClassical

  datatype Content = Content(policy: string, path: string, pathTyped: string, kind: RulesetType, text: string, interval: nat)

  /** An emitted rule: a plain line, or "RULE-SET,key,policy". */
  datatype Rule = Line(text: string) | RuleSet(key: string, policy: string)

  /** A ruleset that got a name, with what was found in it. */
  datatype Source = Source(name: string, policy: string, url: string, kind: RulesetType, interval: nat,
                           hasDomain: bool, hasIpcidr: bool)

  datatype Built = Built(sources: seq<Source>, rules: seq<Rule>)

  /** The prefix of provider links, the classical switch, which paths can be fetched, and
      the conversion of rulesets to Surge lines. */
  datatype Setup = Setup(prefix: string, classical: bool, reachable: string -> bool,
                         convert: (string, RulesetType) -> string)

  predicate IsClash(kind: RulesetType) { kind.ClashDomain? || kind.ClashIpcidr? || kind.ClashClassical? }

  function SourceNames(sources: seq<Source>): seq<string> {
    seq(|sources|, k requires 0 <= k < |sources| => sources[k].name)
  }

  ghost function FreeName(base: string, taken: seq<string>): (name: string)
    ensures IsFirstFree(base, '_', taken, name)
  {
    FreeExists(base, '_', taken, 1);
    var name :| IsFirstFree(base, '_', taken, name);
    name
  }

  /** A line of a ruleset without its carriage return, or "" for one that is ignored. */
  function Kept(raw: string): string {
    var line := if raw != "" && raw[|raw| - 1] == '\r' then raw[..|raw| - 1] else raw;
    if line == "" || line[0] == ';' || line[0] == '#' || (|line| >= 2 && line[0] == '/' && line[1] == '/') then "" else line
  }

  predicate IsKeywordLine(line: string) { "DOMAIN-KEYWORD," <= line }

  predicate IsDomainLine(line: string) { "DOMAIN," <= line || "DOMAIN-SUFFIX," <= line }

  predicate IsIpLine(line: string) { "IP-CIDR," <= line || "IP-CIDR6," <= line }

  predicate AnyDomain(lines: seq<string>) { exists k :: 0 <= k < |lines| && IsDomainLine(Kept(lines[k])) }

  predicate AnyIp(lines: seq<string>) { exists k :: 0 <= k < |lines| && IsIpLine(Kept(lines[k])) }

  function KeywordRules(lines: seq<string>, policy: string): seq<Rule> {
    if lines == [] then [] else
    var line := Kept(lines[|lines| - 1]);
    KeywordRules(lines[..|lines| - 1], policy) + if IsKeywordLine(line) then [Line(WithPolicy(line, policy))] else []
  }

  function PlainRule(x: Content): Rule
    requires |x.text| >= 2
  {
    var t := x.text[2..];
    Line(WithPolicy(if "FINAL" <= t then "MATCH" + t[5..] else t, x.policy))
  }

  /** The rule sets of a converted ruleset. */
  function SuffixRules(s: Source): seq<Rule> {
    (if s.hasDomain then [RuleSet(s.name + "_domain", s.policy)] else [])
    + (if s.hasIpcidr then [RuleSet(s.name + "_ipcidr", s.policy)] else [])
  }

  function TextLines(x: Content, c: Setup): seq<string> {
    var text := c.convert(x.text, x.kind);
    Lines(text, LineBreak(text))
  }

  predicate ContentOk(x: Content) { x.path == "" ==> |x.text| >= 2 }

  /** The named ruleset that a content becomes, if it becomes one. */
  ghost function NewSource(taken: seq<string>, x: Content, c: Setup): Option<Source> {
    if x.path == "" then None else
    var name := FreeName(FindFileName(x.path), taken);
    if IsClash(x.kind) then
      Some(Source(name, x.policy, "*" + x.path, x.kind, x.interval, x.kind.ClashDomain?, x.kind.ClashIpcidr?))
    else if !c.reachable(x.path) then None
    else if c.classical then Some(Source(name, x.policy, x.pathTyped, x.kind, x.interval, false, false))
    else if x.text == "" then None
    else Some(Source(name, x.policy, x.pathTyped, x.kind, x.interval, AnyDomain(TextLines(x, c)), AnyIp(TextLines(x, c))))
  }

  /** The rules that it gives rise to. */
  function NewRules(x: Content, s: Option<Source>, c: Setup): seq<Rule>
    requires ContentOk(x)
  {
    if x.path == "" then [PlainRule(x)]
    else if s.None? then []
    else if IsClash(x.kind) || c.classical then [RuleSet(s.value.name, x.policy)]
    else KeywordRules(TextLines(x, c), x.policy) + SuffixRules(s.value)
  }

  function Listed(s: Option<Source>): seq<Source> { if s.Some? then [s.value] else [] }

  /** What one ruleset adds. */
  ghost function AddContent(b: Built, x: Content, c: Setup): Built
    requires ContentOk(x)
  {
    var s := NewSource(SourceNames(b.sources), x, c);
    Built(b.sources + Listed(s), b.rules + NewRules(x, s, c))
  }

  ghost predicate ContentsOk(contents: seq<Content>) { forall k | 0 <= k < |contents| :: ContentOk(contents[k]) }

  ghost function Build(contents: seq<Content>, c: Setup, first: seq<Rule>): Built
    requires ContentsOk(contents)
  {
    if contents == [] then Built([], first)
    else AddContent(Build(contents[..|contents| - 1], c, first), contents[|contents| - 1], c)
  }

  /** The rulesets and their names, before any rule or provider is made of them. */
  ghost function Sources(contents: seq<Content>, c: Setup): seq<Source> {
    if contents == [] then [] else
    var before := Sources(contents[..|contents| - 1], c);
    before + Listed(NewSource(SourceNames(before), contents[|contents| - 1], c))
  }

  // ----- providers -----

  datatype Provider = Provider(behavior: string, url: string, interval: nat)

  datatype Emission = Emission(key: string, provider: Provider)

  /** A '*' in front marks an address used as it is. */
  function ProviderUrl(s: Source, kind: string, prefix: string): string {
    if s.url != "" && s.url[0] == '*' then s.url[1..]
    else prefix + "/getruleset?type=" + kind + "&url=" + ShareLinks.B64(s.url)
  }

  function DomainEmission(s: Source, prefix: string): Emission {
    Emission(if s.kind.ClashDomain? then s.name else s.name + "_domain",
             Provider("domain", ProviderUrl(s, "3", prefix), s.interval))
  }

  function IpcidrEmission(s: Source, prefix: string): Emission {
    Emission(if s.kind.ClashIpcidr? then s.name else s.name + "_ipcidr",
             Provider("ipcidr", ProviderUrl(s, "4", prefix), s.interval))
  }

  function ClassicalEmission(s: Source, prefix: string): Emission {
    Emission(s.name, Provider("classical", ProviderUrl(s, "6", prefix), s.interval))
  }

  function Emissions(s: Source, prefix: string): seq<Emission> {
    (if s.hasDomain then [DomainEmission(s, prefix)] else [])
    + (if s.hasIpcidr then [IpcidrEmission(s, prefix)] else [])
    + (if !s.hasDomain && !s.hasIpcidr then [ClassicalEmission(s, prefix)] else [])
  }

  function AllEmissions(sources: seq<Source>, prefix: string): seq<Emission> {
    if sources == [] then []
    else AllEmissions(sources[..|sources| - 1], prefix) + Emissions(sources[|sources| - 1], prefix)
  }

  type Providers = map<string, Provider>

  /** Fields are assigned one by one; an interval of 0 leaves the field as it was. */
  function Put(m: Providers, e: Emission): Providers {
    var interval := if e.provider.interval != 0 then e.provider.interval
                    else if e.key in m then m[e.key].interval else 0;
    m[e.key := e.provider.(interval := interval)]
  }

  function PutAll(m: Providers, es: seq<Emission>): Providers {
    if es == [] then m else Put(PutAll(m, es[..|es| - 1]), es[|es| - 1])
  }

  lemma PutSnoc(m: Providers, es: seq<Emission>, e: Emission)
    ensures PutAll(m, es + [e]) == Put(PutAll(m, es), e)
  {
    assert (es + [e])[..|es|] == es;
  }

  // ----- the function -----

  method RenderClashScript(contents: seq<Content>, c: Setup, baseRules: seq<Rule>, overwrite: bool, base: Providers)
    returns (rules: seq<Rule>, providers: Providers)
    requires ContentsOk(contents) && c.prefix != ""
    ensures var b := Build(contents, c, if overwrite then [] else baseRules);
            rules == b.rules && providers == PutAll(base, AllEmissions(b.sources, c.prefix))
  {
    hide AddContent, Describes;
    NothingDescribed();
    rules := if overwrite then [] else baseRules;
    ghost var first := rules;
    var groups: seq<string> := [];
    var t := Tables(map[], map[], map[], map[], {}, {});
    ghost var b := Built([], first);
    assert contents[..0] == [];
    for k := 0 to |contents|
      invariant b == Build(contents[..k], c, first) && rules == b.rules && Describes(groups, t, b.sources)
    {
      assert contents[..k + 1][..k] == contents[..k];
      rules, groups, t := AddRuleset(contents[k], c, rules, groups, t, b);
      b := AddContent(b, contents[k], c);
    }
    assert contents[..|contents|] == contents;
    providers := DefineProviders(groups, t, c.prefix, base, b.sources);
  }

  lemma NothingDescribed()
    ensures Describes([], Tables(map[], map[], map[], map[], {}, {}), [])
  {
  }

  /** The maps that the first loop fills. */
  datatype Tables = Tables(names: map<string, string>, urls: map<string, string>, types: map<string, RulesetType>,
                           intervals: map<string, nat>, domains: set<string>, ipcidrs: set<string>)

  ghost predicate DescribedAt(t: Tables, s: Source) {
    && s.name in t.urls && t.urls[s.name] == s.url && s.name in t.types && t.types[s.name] == s.kind
    && s.name in t.intervals && t.intervals[s.name] == s.interval
    && (s.name in t.domains <==> s.hasDomain) && (s.name in t.ipcidrs <==> s.hasIpcidr)
  }

  ghost predicate Describes(groups: seq<string>, t: Tables, sources: seq<Source>) {
    && groups == SourceNames(sources)
    && (forall k | 0 <= k < |sources| :: DescribedAt(t, sources[k]))
    && (forall name | name in t.domains || name in t.ipcidrs :: name in groups)
  }

  lemma Described(groups: seq<string>, t: Tables, sources: seq<Source>, s: Source, u: Tables)
    requires Describes(groups, t, sources) && s.name !in groups && DescribedAt(u, s)
    requires SameBut(t, u, s.name)
    ensures Describes(groups + [s.name], u, sources + [s])
  {
    var all := sources + [s];
    forall k | 0 <= k < |all| ensures DescribedAt(u, all[k]) {
      if k < |sources| {
        assert DescribedAt(t, sources[k]) && groups[k] == sources[k].name;
      }
    }
    assert SourceNames(all) == groups + [s.name];
  }

  /** The tables differ at one name only. */
  ghost predicate SameBut(t: Tables, u: Tables, name: string) {
    && (forall n | n != name :: n in t.urls <==> n in u.urls)
    && (forall n | n != name && n in t.urls :: t.urls[n] == u.urls[n])
    && (forall n | n != name :: n in t.types <==> n in u.types)
    && (forall n | n != name && n in t.types :: t.types[n] == u.types[n])
    && (forall n | n != name :: n in t.intervals <==> n in u.intervals)
    && (forall n | n != name && n in t.intervals :: t.intervals[n] == u.intervals[n])
    && (forall n | n != name :: n in t.domains <==> n in u.domains)
    && (forall n | n != name :: n in t.ipcidrs <==> n in u.ipcidrs)
  }

  /** A name that was entered in the tables and then given up. */
  lemma GivenUp(groups: seq<string>, t: Tables, sources: seq<Source>, name: string, u: Tables)
    requires Describes(groups, t, sources) && name !in groups && SameBut(t, u, name)
    requires u.domains == t.domains && u.ipcidrs == t.ipcidrs
    ensures Describes(groups, u, sources)
  {
    forall k | 0 <= k < |sources| ensures DescribedAt(u, sources[k]) {
      assert DescribedAt(t, sources[k]) && groups[k] == sources[k].name;
    }
  }

  /** The body of the first loop. */
  method AddRuleset(x: Content, c: Setup, rules: seq<Rule>, groups: seq<string>, t: Tables, ghost b: Built)
    returns (newRules: seq<Rule>, newGroups: seq<string>, u: Tables)
    requires ContentOk(x) && rules == b.rules && Describes(groups, t, b.sources)
    ensures var n := AddContent(b, x, c); newRules == n.rules && Describes(newGroups, u, n.sources)
  {
    hide Describes, NewSource, NewRules;
    newRules, newGroups, u := rules, groups, t;
    NoRuleset(SourceNames(b.sources), x, c);
    assert b.sources + [] == b.sources && rules + [] == rules;
    if x.path == "" {
      newRules := newRules + [PlainRule(x)];
    } else if IsClash(x.kind) {
      newRules, newGroups, u := AddClash(x, c, rules, groups, t, b.sources);
    } else if c.reachable(x.path) {
      newRules, newGroups, u := AddFetched(x, c, rules, groups, t, b.sources);
    }
  }

  lemma NoRuleset(taken: seq<string>, x: Content, c: Setup)
    requires ContentOk(x)
    ensures var s := NewSource(taken, x, c);
            && (x.path == "" ==> s == None && NewRules(x, s, c) == [PlainRule(x)])
            && (x.path != "" && !IsClash(x.kind) && !c.reachable(x.path) ==> s == None && NewRules(x, s, c) == [])
  {
  }

  /** A Clash ruleset is linked to as it is. */
  method AddClash(x: Content, c: Setup, rules: seq<Rule>, groups: seq<string>, t: Tables, ghost sources: seq<Source>)
    returns (newRules: seq<Rule>, newGroups: seq<string>, u: Tables)
    requires x.path != "" && IsClash(x.kind) && Describes(groups, t, sources)
    ensures var s := NewSource(SourceNames(sources), x, c);
            newRules == rules + NewRules(x, s, c) && Describes(newGroups, u, sources + Listed(s))
  {
    hide FindFileName, FreeName, Describes, IsFirstFree;
    DescribesNames(groups, t, sources);
    var name := Renumber(FindFileName(x.path), '_', groups);
    Fresh(FindFileName(x.path), groups, name);
    u := Entered(t, name, x.policy, "*" + x.path, x.kind, x.interval);
    match x.kind {
      case ClashIpcidr => u := u.(ipcidrs := u.ipcidrs + {name});
      case ClashDomain => u := u.(domains := u.domains + {name});
      case _ =>
    }
    Described(groups, t, sources, NewSource(SourceNames(sources), x, c).value, u);
    newRules, newGroups := rules + [RuleSet(name, x.policy)], groups + [name];
  }

  /** Any other ruleset that can be fetched. */
  method AddFetched(x: Content, c: Setup, rules: seq<Rule>, groups: seq<string>, t: Tables, ghost sources: seq<Source>)
    returns (newRules: seq<Rule>, newGroups: seq<string>, u: Tables)
    requires x.path != "" && !IsClash(x.kind) && c.reachable(x.path) && Describes(groups, t, sources)
    ensures var s := NewSource(SourceNames(sources), x, c);
            newRules == rules + NewRules(x, s, c) && Describes(newGroups, u, sources + Listed(s))
  {
    hide FindFileName, FreeName, Describes, IsFirstFree, KeywordRules, AnyDomain, AnyIp, TextLines, DescribedAt, SameBut;
    newRules, newGroups, u := rules, groups, t;
    DescribesNames(groups, t, sources);
    var name := Renumber(FindFileName(x.path), '_', groups);
    Fresh(FindFileName(x.path), groups, name);
    u := Entered(u, name, x.policy, x.pathTyped, x.kind, x.interval);
    JustEntered(t, name, x);
    ghost var s := NewSource(SourceNames(sources), x, c);
    if c.classical {
      Described(groups, t, sources, s.value, u);
      return newRules + [RuleSet(name, x.policy)], newGroups + [name], u;
    }
    if x.text == "" {
      GivenUp(groups, t, sources, name, u);
      assert sources + [] == sources && rules + [] == rules;
      return;
    }
    var keywords;
    keywords, u := ScanLines(TextLines(x, c), x.policy, name, u);
    WithFlags(t, s.value, x);
    Described(groups, t, sources, s.value, u);
    newRules := newRules + keywords;
    if name in u.domains {
      newRules := newRules + [RuleSet(name + "_domain", x.policy)];
    }
    if name in u.ipcidrs {
      newRules := newRules + [RuleSet(name + "_ipcidr", x.policy)];
    }
    if name !in groups {
      newGroups := newGroups + [name];
    }
  }

  /** A name entered without a domain or an address. */
  lemma JustEntered(t: Tables, name: string, x: Content)
    requires name !in t.domains && name !in t.ipcidrs
    ensures var u := Entered(t, name, x.policy, x.pathTyped, x.kind, x.interval);
            && SameBut(t, u, name) && u.domains == t.domains && u.ipcidrs == t.ipcidrs
            && DescribedAt(u, Source(name, x.policy, x.pathTyped, x.kind, x.interval, false, false))
  {
  }

  lemma WithFlags(t: Tables, s: Source, x: Content)
    requires s.name !in t.domains && s.name !in t.ipcidrs
    requires s == Source(s.name, x.policy, x.pathTyped, x.kind, x.interval, s.hasDomain, s.hasIpcidr)
    ensures var e := Entered(t, s.name, x.policy, x.pathTyped, x.kind, x.interval);
            var u := e.(domains := if s.hasDomain then e.domains + {s.name} else e.domains,
                        ipcidrs := if s.hasIpcidr then e.ipcidrs + {s.name} else e.ipcidrs);
            SameBut(t, u, s.name) && DescribedAt(u, s)
  {
  }

  lemma DescribesNames(groups: seq<string>, t: Tables, sources: seq<Source>)
    requires Describes(groups, t, sources)
    ensures groups == SourceNames(sources) && forall n | n in t.domains || n in t.ipcidrs :: n in groups
  {
  }

  lemma Fresh(base: string, groups: seq<string>, name: string)
    requires IsFirstFree(base, '_', groups, name)
    ensures name == FreeName(base, groups) && name !in groups
  {
  }

  function Entered(t: Tables, name: string, policy: string, url: string, kind: RulesetType, interval: nat): Tables {
    t.(names := t.names[name := policy], urls := t.urls[name := url], types := t.types[name := kind],
       intervals := t.intervals[name := interval])
  }

  lemma LineKinds(line: string)
    ensures IsKeywordLine(line) ==> !IsDomainLine(line) && !IsIpLine(line)
    ensures IsDomainLine(line) ==> !IsIpLine(line)
  {
    if IsDomainLine(line) || IsKeywordLine(line) { assert line[0] == 'D'; }
    if IsIpLine(line) { assert line[0] == 'I'; }
    if IsKeywordLine(line) { assert line[6] == '-' && line[7] == 'K'; }
  }

  lemma AnySnoc(lines: seq<string>, j: nat)
    requires j < |lines|
    ensures AnyDomain(lines[..j + 1]) <==> AnyDomain(lines[..j]) || IsDomainLine(Kept(lines[j]))
    ensures AnyIp(lines[..j + 1]) <==> AnyIp(lines[..j]) || IsIpLine(Kept(lines[j]))
  {
    hide Kept, IsDomainLine, IsIpLine;
    var before, after := lines[..j], lines[..j + 1];
    assert forall k | 0 <= k < j :: after[k] == before[k];
    assert after[j] == lines[j];
    if AnyDomain(before) {
      var k :| 0 <= k < |before| && IsDomainLine(Kept(before[k]));
      assert IsDomainLine(Kept(after[k]));
    }
    if AnyIp(before) {
      var k :| 0 <= k < |before| && IsIpLine(Kept(before[k]));
      assert IsIpLine(Kept(after[k]));
    }
  }

  lemma NoLinesYet(policy: string)
    ensures !AnyDomain([]) && !AnyIp([]) && KeywordRules([], policy) == []
  {
  }

  /** The loop over the lines of a converted ruleset. */
  method ScanLines(lines: seq<string>, policy: string, name: string, t: Tables) returns (rules: seq<Rule>, u: Tables)
    requires name !in t.domains && name !in t.ipcidrs
    ensures rules == KeywordRules(lines, policy)
    ensures u == t.(domains := if AnyDomain(lines) then t.domains + {name} else t.domains,
                    ipcidrs := if AnyIp(lines) then t.ipcidrs + {name} else t.ipcidrs)
  {
    hide IsKeywordLine, IsDomainLine, IsIpLine, AnyDomain, AnyIp, WithPolicy;
    rules, u := [], t;
    NoLinesYet(policy);
    assert lines[..0] == [];
    for j := 0 to |lines|
      invariant rules == KeywordRules(lines[..j], policy)
      invariant u == t.(domains := if AnyDomain(lines[..j]) then t.domains + {name} else t.domains,
                        ipcidrs := if AnyIp(lines[..j]) then t.ipcidrs + {name} else t.ipcidrs)
    {
      assert lines[..j + 1][..j] == lines[..j];
      AnySnoc(lines, j);
      var line := Kept(lines[j]);
      LineKinds(line);
      IgnoredLine();
      if line == "" { continue; }
      if IsKeywordLine(line) {
        rules := rules + [Line(WithPolicy(line, policy))];
      } else if name !in u.domains && IsDomainLine(line) {
        u := u.(domains := u.domains + {name});
      } else if name !in u.ipcidrs && IsIpLine(line) {
        u := u.(ipcidrs := u.ipcidrs + {name});
      }
    }
    assert lines[..|lines|] == lines;
  }

  lemma IgnoredLine()
    ensures !IsKeywordLine("") && !IsDomainLine("") && !IsIpLine("")
  {
  }

  /** The second loop. */
  method DefineProviders(groups: seq<string>, t: Tables, prefix: string, base: Providers, ghost sources: seq<Source>)
    returns (providers: Providers)
    requires Describes(groups, t, sources)
    ensures providers == PutAll(base, AllEmissions(sources, prefix))
  {
    hide PutAll, Put, ProviderUrl;
    providers := base;
    NoEmissions(base, prefix);
    assert sources[..0] == [];
    for k := 0 to |groups|
      invariant providers == PutAll(base, AllEmissions(sources[..k], prefix))
    {
      assert sources[..k + 1][..k] == sources[..k];
      ghost var es, s := AllEmissions(sources[..k], prefix), sources[k];
      var x := groups[k];
      assert DescribedAt(t, s) && s.name == x;
      var url, interval, kind := t.urls[x], t.intervals[x], t.types[x];
      var hasDomain, hasIpcidr := x in t.domains, x in t.ipcidrs;
      var source := Source(x, "", url, kind, interval, hasDomain, hasIpcidr);
      SameEmissions(source, s, prefix);
      if hasDomain {
        PutSnoc(base, es, DomainEmission(s, prefix));
        providers := Put(providers, DomainEmission(source, prefix));
        es := es + [DomainEmission(s, prefix)];
      }
      if hasIpcidr {
        PutSnoc(base, es, IpcidrEmission(s, prefix));
        providers := Put(providers, IpcidrEmission(source, prefix));
        es := es + [IpcidrEmission(s, prefix)];
      }
      if !hasDomain && !hasIpcidr {
        PutSnoc(base, es, ClassicalEmission(s, prefix));
        providers := Put(providers, ClassicalEmission(source, prefix));
        es := es + [ClassicalEmission(s, prefix)];
      }
      assert es == AllEmissions(sources[..k], prefix) + Emissions(s, prefix);
    }
    assert sources[..|groups|] == sources;
  }

  lemma NoEmissions(base: Providers, prefix: string)
    ensures PutAll(base, AllEmissions([], prefix)) == base
  {
  }

  lemma SameEmissions(a: Source, b: Source, prefix: string)
    requires a == b.(policy := "")
    ensures DomainEmission(a, prefix) == DomainEmission(b, prefix) && IpcidrEmission(a, prefix) == IpcidrEmission(b, prefix)
    ensures ClassicalEmission(a, prefix) == ClassicalEmission(b, prefix)
  {
  }
}
