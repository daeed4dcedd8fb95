/** Policy groups: groupGenerate and the group loop of proxyToClash (subexport.cpp). */
module ProxyGroups {
  import opened StringUtil
  import opened NodeNames

  datatype GroupKind = Select | Relay | LoadBalance | URLTest | Fallback | SSID

  /** A configured group: its rules ("[]name" literals and node filters) and providers. */
  datatype Group = Group(name: string, kind: GroupKind, rules: seq<string>, usingProvider: seq<string>)

  /** A group of the output. */
  datatype Entry = Entry(name: string, kind: GroupKind, proxies: seq<string>, use: seq<string>)

  /** applyMatcher followed by the regular expression on the remark. */
  type Matcher = (string, Node) -> bool

  // ----- filling one group -----

  predicate IsLiteral(rule: string) { "[]" <= rule }

  /** What a rule offers to a group, in order: a literal, or the nodes it matches. */
  datatype Offer = Literal(text: string) | Match(name: string)

  function Matched(rule: string, nodes: seq<Node>, matches: Matcher): seq<Offer> {
    if nodes == [] then []
    else
      var last := nodes[|nodes| - 1];
      Matched(rule, nodes[..|nodes| - 1], matches) + if matches(rule, last) then [Match(last.remark)] else []
  }

  function RuleOffers(rule: string, nodes: seq<Node>, matches: Matcher): seq<Offer> {
    if IsLiteral(rule) then [Literal(rule[2..])] else Matched(rule, nodes, matches)
  }

  /** All offers, rule by rule and node by node. */
  function Offers(rules: seq<string>, nodes: seq<Node>, matches: Matcher): seq<Offer> {
    if rules == [] then []
    else Offers(rules[..|rules| - 1], nodes, matches) + RuleOffers(rules[|rules| - 1], nodes, matches)
  }

  /** Literals are always taken, matched nodes only if their name is not there yet. */
  function Take(names: seq<string>, o: Offer): seq<string> {
    match o
    case Literal(text) => names + [text]
    case Match(name) => if name in names then names else names + [name]
  }

  function Taken(offers: seq<Offer>): seq<string> {
    if offers == [] then [] else Take(Taken(offers[..|offers| - 1]), offers[|offers| - 1])
  }

  lemma TakenSnoc(offers: seq<Offer>, o: Offer)
    ensures Taken(offers + [o]) == Take(Taken(offers), o)
  {
  }

  method GroupGenerate(rule: string, nodelist: seq<Node>, before: seq<string>, matches: Matcher, ghost offers: seq<Offer>)
    returns (filtered: seq<string>)
    requires before == Taken(offers)
    ensures filtered == Taken(offers + RuleOffers(rule, nodelist, matches))
  {
    filtered := before;
    if "[]" <= rule {
      TakenSnoc(offers, Literal(rule[2..]));
      return filtered + [rule[2..]];
    }
    assert nodelist[..0] == [] && offers + [] == offers;
    for k := 0 to |nodelist|
      invariant filtered == Taken(offers + Matched(rule, nodelist[..k], matches))
    {
      var x := nodelist[k];
      assert nodelist[..k + 1][..k] == nodelist[..k];
      ghost var so := offers + Matched(rule, nodelist[..k], matches);
      if matches(rule, x) {
        TakenSnoc(so, Match(x.remark));
        assert offers + Matched(rule, nodelist[..k + 1], matches) == so + [Match(x.remark)];
        if x.remark !in filtered {
          filtered := filtered + [x.remark];
        }
      } else {
        assert offers + Matched(rule, nodelist[..k + 1], matches) == so;
      }
    }
    assert nodelist[..|nodelist|] == nodelist;
  }

  // ----- what is in a group -----

  lemma TimesSnoc<T>(s: seq<T>, last: T, x: T)
    ensures multiset(s + [last])[x] == multiset(s)[x] + if last == x then 1 else 0
    ensures x in s + [last] <==> x in s || x == last
  {
  }

  lemma TimesIn<T>(s: seq<T>, x: T)
    ensures x in s <==> multiset(s)[x] > 0
  {
    assert x in s <==> x in multiset(s);
  }

  /** A name is in the group exactly when it was offered. It is there once for each
      literal, and once more at most for all the matches together. */
  lemma {:induction false} TakenOnce(offers: seq<Offer>, name: string)
    ensures name in Taken(offers) <==> Literal(name) in offers || Match(name) in offers
    ensures var literals, times := multiset(offers)[Literal(name)], multiset(Taken(offers))[name];
            && literals <= times <= literals + 1
            && (Match(name) !in offers ==> times == literals)
            && (literals == 0 && Match(name) in offers ==> times == 1)
  {
    if offers == [] {
      assert Taken(offers) == [];
    } else {
      hide Taken;
      var before, o := offers[..|offers| - 1], offers[|offers| - 1];
      assert offers == before + [o];
      TakenOnce(before, name);
      TakenSnoc(before, o);
      TimesSnoc(before, o, Literal(name));
      TimesIn(Taken(before), name);
      TimesSnoc(Taken(before), if o.Literal? then o.text else o.name, name);
    }
  }

  /** The rule is a filter that matches a node of that name. */
  ghost predicate Filters(rule: string, nodes: seq<Node>, matches: Matcher, name: string) {
    !IsLiteral(rule) && exists k :: 0 <= k < |nodes| && matches(rule, nodes[k]) && nodes[k].remark == name
  }

  /** Matches are offered by filters, literals by literal rules, and by nothing else. */
  lemma {:induction false} OffersOf(rules: seq<string>, nodes: seq<Node>, matches: Matcher, name: string)
    ensures Literal(name) in Offers(rules, nodes, matches) <==> "[]" + name in rules
    ensures Match(name) in Offers(rules, nodes, matches) <==> exists r :: r in rules && Filters(r, nodes, matches, name)
  {
    hide Filters, IsLiteral, RuleOffers;
    if rules != [] {
      var most, last := rules[..|rules| - 1], rules[|rules| - 1];
      assert rules == most + [last];
      OffersOf(most, nodes, matches, name);
      RuleOffersOf(last, nodes, matches, name);
    }
  }

  lemma RuleOffersOf(rule: string, nodes: seq<Node>, matches: Matcher, name: string)
    ensures Literal(name) in RuleOffers(rule, nodes, matches) <==> rule == "[]" + name
    ensures Match(name) in RuleOffers(rule, nodes, matches) <==> Filters(rule, nodes, matches, name)
  {
    if IsLiteral(rule) {
      assert rule == "[]" + rule[2..];
    } else {
      MatchedOf(rule, nodes, matches, name);
    }
  }

  lemma {:induction false} MatchedOf(rule: string, nodes: seq<Node>, matches: Matcher, name: string)
    ensures Literal(name) !in Matched(rule, nodes, matches)
    ensures Match(name) in Matched(rule, nodes, matches) <==>
            exists k :: 0 <= k < |nodes| && matches(rule, nodes[k]) && nodes[k].remark == name
  {
    if nodes != [] {
      var most := nodes[..|nodes| - 1];
      MatchedOf(rule, most, matches, name);
      if k :| 0 <= k < |nodes| && matches(rule, nodes[k]) && nodes[k].remark == name {
        if k < |most| { assert matches(rule, most[k]) && most[k].remark == name; }
      }
    }
  }

  // ----- the group loop -----

  /** One group; without a provider an empty group holds DIRECT. */
  function Filled(g: Group, nodes: seq<Node>, matches: Matcher): Entry {
    var names := Taken(Offers(g.rules, nodes, matches));
    Entry(g.name, g.kind, if g.usingProvider == [] && names == [] then ["DIRECT"] else names, g.usingProvider)
  }

  /** Group names in the order of their first definition; SSID groups are passed over. */
  function FirstNames(groups: seq<Group>): seq<string> {
    if groups == [] then [] else
    var before, last := FirstNames(groups[..|groups| - 1]), groups[|groups| - 1];
    if last.kind.SSID? || last.name in before then before else before + [last.name]
  }

  /** The last definition of a group. */
  function LastDefinition(groups: seq<Group>, name: string): (g: Group)
    requires name in FirstNames(groups)
    ensures g in groups && g.name == name && !g.kind.SSID?
  {
    var last := groups[|groups| - 1];
    if !last.kind.SSID? && last.name == name then last else LastDefinition(groups[..|groups| - 1], name)
  }

  /** Every group once, where it was first defined, as it was last defined. */
  function GroupEntries(groups: seq<Group>, nodes: seq<Node>, matches: Matcher): seq<Entry> {
    var names := FirstNames(groups);
    seq(|names|, i requires 0 <= i < |names| => Filled(LastDefinition(groups, names[i]), nodes, matches))
  }

  lemma {:induction false} FirstNamesDistinct(groups: seq<Group>)
    ensures Distinct(FirstNames(groups))
  {
    if groups != [] {
      FirstNamesDistinct(groups[..|groups| - 1]);
      var before := FirstNames(groups[..|groups| - 1]);
      if groups[|groups| - 1].name !in before { DistinctAppend(before, groups[|groups| - 1].name); }
    }
  }

  /** One round of the loop: a new definition replaces the entry of its name or is added. */
  lemma OneGroup(groups: seq<Group>, k: nat, nodes: seq<Node>, matches: Matcher, at: nat)
    requires k < |groups| && !groups[k].kind.SSID?
    requires var names := FirstNames(groups[..k]);
             at <= |names| && (at < |names| ==> names[at] == groups[k].name)
             && forall i | 0 <= i < at :: names[i] != groups[k].name
    ensures var before, e := GroupEntries(groups[..k], nodes, matches), Filled(groups[k], nodes, matches);
            GroupEntries(groups[..k + 1], nodes, matches) == if at < |before| then before[at := e] else before + [e]
  {
    hide Filled;
    var gs := groups[..k + 1];
    assert gs[..k] == groups[..k] && gs[k] == groups[k];
    var names, e := FirstNames(groups[..k]), Filled(groups[k], nodes, matches);
    FirstNamesDistinct(groups[..k]);
    forall i | 0 <= i < |names| && names[i] != groups[k].name
      ensures LastDefinition(gs, names[i]) == LastDefinition(groups[..k], names[i])
    {
    }
    if at < |names| {
      assert forall i | at < i < |names| :: names[i] != names[at];
    }
  }

  method GenerateGroups(groups: seq<Group>, nodelist: seq<Node>, matches: Matcher) returns (entries: seq<Entry>)
    ensures entries == GroupEntries(groups, nodelist, matches)
  {
    hide FirstNames, LastDefinition, Taken, Offers, RuleOffers;
    entries := [];
    NoGroups();
    assert groups[..0] == [];
    for k := 0 to |groups|
      invariant entries == GroupEntries(groups[..k], nodelist, matches)
    {
      var x := groups[k];
      if x.kind.SSID? {
        PassedOver(groups, k, nodelist, matches);
        continue;
      }
      var filtered := FillGroup(x.rules, nodelist, matches);
      if x.usingProvider == [] {
        if filtered == [] {
          filtered := ["DIRECT"];
        }
      }
      var single := Entry(x.name, x.kind, filtered, x.usingProvider);
      var i := 0;
      while i < |entries| && entries[i].name != x.name
        invariant i <= |entries| && forall j | 0 <= j < i :: entries[j].name != x.name
      {
        i := i + 1;
      }
      assert forall j | 0 <= j < |entries| :: entries[j].name == FirstNames(groups[..k])[j];
      OneGroup(groups, k, nodelist, matches, i);
      if i < |entries| {
        entries := entries[i := single];
      } else {
        entries := entries + [single];
      }
    }
    assert groups[..|groups|] == groups;
  }

  lemma NoGroups()
    ensures FirstNames([]) == []
  {
  }

  lemma PassedOver(groups: seq<Group>, k: nat, nodes: seq<Node>, matches: Matcher)
    requires k < |groups| && groups[k].kind.SSID?
    ensures GroupEntries(groups[..k + 1], nodes, matches) == GroupEntries(groups[..k], nodes, matches)
  {
    hide Filled;
    var gs := groups[..k + 1];
    assert gs[..k] == groups[..k] && gs[k] == groups[k];
    forall name | name in FirstNames(gs) ensures LastDefinition(gs, name) == LastDefinition(groups[..k], name) {
    }
  }

  /** The loop over the rules of one group. */
  method FillGroup(rules: seq<string>, nodelist: seq<Node>, matches: Matcher) returns (filtered: seq<string>)
    ensures filtered == Taken(Offers(rules, nodelist, matches))
  {
    assert Taken([]) == [];
    hide Taken, RuleOffers;
    filtered := [];
    assert rules[..0] == [];
    for k := 0 to |rules|
      invariant filtered == Taken(Offers(rules[..k], nodelist, matches))
    {
      assert rules[..k + 1][..k] == rules[..k];
      filtered := GroupGenerate(rules[k], nodelist, filtered, matches, Offers(rules[..k], nodelist, matches));
    }
    assert rules[..|rules|] == rules;
  }

  // ----- integrity -----

  /** What the name of a group may stand for. */
  ghost predicate Explained(e: Entry, g: Group, nodes: seq<Node>, name: string) {
    || "[]" + name in g.rules
    || (name == "DIRECT" && e.proxies == ["DIRECT"] && e.use == [])
    || name in Remarks(nodes)
  }

  lemma FilteredIsNamed(rule: string, nodes: seq<Node>, matches: Matcher, name: string)
    requires Filters(rule, nodes, matches, name)
    ensures name in Remarks(nodes)
  {
    var k :| 0 <= k < |nodes| && matches(rule, nodes[k]) && nodes[k].remark == name;
    assert Remarks(nodes)[k] == name;
  }

  ghost predicate FilterFor(g: Group, nodes: seq<Node>, matches: Matcher, name: string) {
    exists r :: r in g.rules && Filters(r, nodes, matches, name)
  }

  /** A group against one name: what is in it is explained, and an emitted name that is no
      literal is in it once if a filter matches its node, and otherwise not at all. */
  ghost predicate NameOk(e: Entry, g: Group, nodes: seq<Node>, matches: Matcher, name: string) {
    && (name in e.proxies ==> Explained(e, g, nodes, name))
    && (name in Remarks(nodes) && "[]" + name !in g.rules && name != "DIRECT" ==>
          multiset(e.proxies)[name] == if FilterFor(g, nodes, matches, name) then 1 else 0)
  }

  lemma GroupExplained(g: Group, nodes: seq<Node>, matches: Matcher, name: string)
    ensures var e := Filled(g, nodes, matches); (e.proxies != [] || e.use != []) && NameOk(e, g, nodes, matches, name)
  {
    hide Taken, Offers, Filters;
    var e, offers := Filled(g, nodes, matches), Offers(g.rules, nodes, matches);
    TakenOnce(offers, name);
    OffersOf(g.rules, nodes, matches, name);
    if r :| r in g.rules && Filters(r, nodes, matches, name) { FilteredIsNamed(r, nodes, matches, name); }
  }

  ghost predicate EntryOk(e: Entry, g: Group, nodes: seq<Node>, matches: Matcher) {
    e.name == g.name && (e.proxies != [] || e.use != []) && forall name :: NameOk(e, g, nodes, matches, name)
  }

  /** Groups of the output over named nodes: distinct names in the order of first
      definition; each filled from its last definition, never empty without a provider;
      every entry a literal, the fallback or an emitted node; and each matched node in
      exactly once. */
  lemma GroupIntegrity(groups: seq<Group>, old_: seq<Node>, new_: seq<Node>, f: Format, matches: Matcher)
    requires Renamed(old_, new_, f)
    ensures var nodes := Supported(new_, f);
            var entries, names := GroupEntries(groups, nodes, matches), FirstNames(groups);
            && Distinct(Remarks(nodes)) && Distinct(names) && |entries| == |names|
            && forall i | 0 <= i < |names| ::
                 entries[i].name == names[i] && EntryOk(entries[i], LastDefinition(groups, names[i]), nodes, matches)
  {
    hide Filled, NameOk, Renamed, Supported;
    NamesDistinct(old_, new_, f);
    FirstNamesDistinct(groups);
    var nodes, names := Supported(new_, f), FirstNames(groups);
    forall i | 0 <= i < |names|
      ensures EntryOk(Filled(LastDefinition(groups, names[i]), nodes, matches), LastDefinition(groups, names[i]), nodes, matches)
    {
      var g := LastDefinition(groups, names[i]);
      FilledName(g, nodes, matches);
      forall name ensures NameOk(Filled(g, nodes, matches), g, nodes, matches, name) {
        GroupExplained(g, nodes, matches, name);
      }
      GroupExplained(g, nodes, matches, "");
    }
  }

  lemma FilledName(g: Group, nodes: seq<Node>, matches: Matcher)
    ensures Filled(g, nodes, matches).name == g.name
  {
  }
}
