/** Which provider a "RULE-SET,key,policy" rule of renderClashScript (templates.cpp) finds. */
module RuleProviderKeys {
  import opened Common
  import opened StringUtil
  import opened NodeNames
  import opened RuleProviders

  // ----- the rules and what they mean -----

  /** A RULE-SET rule with the behaviour and the address of the list it is made for. */
  datatype Claim = Claim(key: string, policy: string, behavior: string, url: string)

  /** The rules of one ruleset: a Clash list, and any list in classical mode, goes by its
      own name; the domains and addresses found in another list by its name and a suffix. */
  function Claims(s: Source, classical: bool, prefix: string): seq<Claim> {
    if s.kind.ClashDomain? then [Claim(s.name, s.policy, "domain", ProviderUrl(s, "3", prefix))]
    else if s.kind.ClashIpcidr? then [Claim(s.name, s.policy, "ipcidr", ProviderUrl(s, "4", prefix))]
    else if s.kind.ClashClassical? || classical then [Claim(s.name, s.policy, "classical", ProviderUrl(s, "6", prefix))]
    else
      (if s.hasDomain then [Claim(s.name + "_domain", s.policy, "domain", ProviderUrl(s, "3", prefix))] else [])
      + (if s.hasIpcidr then [Claim(s.name + "_ipcidr", s.policy, "ipcidr", ProviderUrl(s, "4", prefix))] else [])
  }

  function AllClaims(sources: seq<Source>, classical: bool, prefix: string): seq<Claim> {
    if sources == [] then []
    else AllClaims(sources[..|sources| - 1], classical, prefix) + Claims(sources[|sources| - 1], classical, prefix)
  }

  function RulesOf(claims: seq<Claim>): seq<Rule> {
    seq(|claims|, k requires 0 <= k < |claims| => RuleSet(claims[k].key, claims[k].policy))
  }

  /** The RULE-SET rules among all rules. */
  function RuleSets(rules: seq<Rule>): seq<Rule> {
    if rules == [] then []
    else RuleSets(rules[..|rules| - 1]) + if rules[|rules| - 1].RuleSet? then [rules[|rules| - 1]] else []
  }

  /** What the kind of a ruleset says about what was found in it. */
  predicate SourceOk(s: Source, classical: bool) {
    && (s.kind.ClashDomain? ==> s.hasDomain && !s.hasIpcidr)
    && (s.kind.ClashIpcidr? ==> s.hasIpcidr && !s.hasDomain)
    && (s.kind.ClashClassical? || (classical && !IsClash(s.kind)) ==> !s.hasDomain && !s.hasIpcidr)
  }

  ghost predicate SourcesOk(sources: seq<Source>, classical: bool) {
    Distinct(SourceNames(sources)) && forall i | 0 <= i < |sources| :: SourceOk(sources[i], classical)
  }

  lemma {:induction false} RuleSetsAppend(a: seq<Rule>, b: seq<Rule>)
    ensures RuleSets(a + b) == RuleSets(a) + RuleSets(b)
    decreases |b|
  {
    if b == [] {
      assert a + b == a;
    } else {
      var all, most := a + b, b[..|b| - 1];
      assert all[..|all| - 1] == a + most && all[|all| - 1] == b[|b| - 1];
      RuleSetsAppend(a, most);
    }
  }

  lemma {:induction false} LinesOnly(rules: seq<Rule>)
    requires forall k | 0 <= k < |rules| :: rules[k].Line?
    ensures RuleSets(rules) == []
  {
    if rules != [] { LinesOnly(rules[..|rules| - 1]); }
  }

  lemma {:induction false} KeywordsAreLines(lines: seq<string>, policy: string)
    ensures forall k | 0 <= k < |KeywordRules(lines, policy)| :: KeywordRules(lines, policy)[k].Line?
  {
    if lines != [] { KeywordsAreLines(lines[..|lines| - 1], policy); }
  }

  lemma {:induction false} RuleSetsOnly(rules: seq<Rule>)
    requires forall k | 0 <= k < |rules| :: rules[k].RuleSet?
    ensures RuleSets(rules) == rules
  {
    if rules != [] { RuleSetsOnly(rules[..|rules| - 1]); }
  }

  /** One ruleset is made well and gives rise to its own rules, and no other ones. */
  lemma OneRuleset(taken: seq<string>, x: Content, c: Setup)
    requires ContentOk(x)
    ensures var s := NewSource(taken, x, c);
            && (s.Some? ==> SourceOk(s.value, c.classical) && s.value.name !in taken)
            && RuleSets(NewRules(x, s, c)) == RulesOf(if s.Some? then Claims(s.value, c.classical, c.prefix) else [])
  {
    hide FindFileName, FreeName, TextLines, AnyDomain, AnyIp, KeywordRules, RuleSets, IsFirstFree, ProviderUrl, WithPolicy;
    var s := NewSource(taken, x, c);
    if x.path == "" {
      LinesOnly([PlainRule(x)]);
    } else {
      NotTaken(FindFileName(x.path), '_', taken, FreeName(FindFileName(x.path), taken));
      if s.None? {
        LinesOnly([]);
      } else if IsClash(x.kind) || c.classical {
        RuleSetsOnly(NewRules(x, s, c));
      } else {
        var keywords := KeywordRules(TextLines(x, c), x.policy);
        KeywordsAreLines(TextLines(x, c), x.policy);
        LinesOnly(keywords);
        RuleSetsOnly(SuffixRules(s.value));
        RuleSetsAppend(keywords, SuffixRules(s.value));
        assert SuffixRules(s.value) == RulesOf(Claims(s.value, c.classical, c.prefix));
      }
    }
  }

  /** All rulesets: their names are distinct, and the RULE-SET rules are their rules in order. */
  lemma {:induction false} BuildClaims(contents: seq<Content>, c: Setup, first: seq<Rule>)
    requires ContentsOk(contents) && forall k | 0 <= k < |first| :: first[k].Line?
    ensures var b := Build(contents, c, first);
            && b.sources == Sources(contents, c) && SourcesOk(b.sources, c.classical)
            && RuleSets(b.rules) == RulesOf(AllClaims(b.sources, c.classical, c.prefix))
  {
    hide NewSource, NewRules, Claims, RuleSets, SourceOk, Distinct;
    if contents == [] {
      LinesOnly(first);
      NothingNamed();
    } else {
      var most, x := contents[..|contents| - 1], contents[|contents| - 1];
      BuildClaims(most, c, first);
      var b := Build(most, c, first);
      var s := NewSource(SourceNames(b.sources), x, c);
      OneRuleset(SourceNames(b.sources), x, c);
      RuleSetsAppend(b.rules, NewRules(x, s, c));
      if s.Some? {
        OneMore(b.sources, s.value, c.classical, c.prefix);
      } else {
        assert b.sources + [] == b.sources;
      }
    }
  }

  lemma NothingNamed()
    ensures Distinct(SourceNames([]))
  {
  }

  lemma OneMore(sources: seq<Source>, s: Source, classical: bool, prefix: string)
    requires SourcesOk(sources, classical) && SourceOk(s, classical) && s.name !in SourceNames(sources)
    ensures SourcesOk(sources + [s], classical)
    ensures RulesOf(AllClaims(sources + [s], classical, prefix))
            == RulesOf(AllClaims(sources, classical, prefix)) + RulesOf(Claims(s, classical, prefix))
  {
    hide Distinct, SourceOk, Claims;
    var all := sources + [s];
    assert all[..|sources|] == sources;
    assert SourceNames(all) == SourceNames(sources) + [s.name];
    DistinctAppend(SourceNames(sources), s.name);
  }

  // ----- who defines a key -----

  /** A ruleset whose provider goes by its own name. */
  predicate Bare(s: Source) { IsClash(s.kind) || (!s.hasDomain && !s.hasIpcidr) }

  predicate Defines(s: Source, key: string) {
    if Bare(s) then key == s.name
    else (s.hasDomain && key == s.name + "_domain") || (s.hasIpcidr && key == s.name + "_ipcidr")
  }

  /** The provider that a ruleset puts under a key. */
  function Defined(s: Source, key: string, prefix: string): Provider
    requires Defines(s, key)
  {
    if s.kind.ClashDomain? then DomainEmission(s, prefix).provider
    else if s.kind.ClashIpcidr? then IpcidrEmission(s, prefix).provider
    else if Bare(s) then ClassicalEmission(s, prefix).provider
    else if EndsWith(key, "_domain") then DomainEmission(s, prefix).provider
    else IpcidrEmission(s, prefix).provider
  }

  lemma Suffixes(a: string)
    ensures EndsWith(a + "_domain", "_domain") && !EndsWith(a + "_ipcidr", "_domain") && EndsWith(a + "_ipcidr", "_ipcidr")
    ensures (a + "_domain")[..|a|] == a && (a + "_ipcidr")[..|a|] == a
  {
    var y := a + "_ipcidr";
    assert y[|y| - 7..] == "_ipcidr" && "_ipcidr"[6] == 'r' && "_domain"[6] == 'n';
  }

  /** Names with the same suffix are apart, and so are the two suffixes. */
  lemma SuffixesApart(a: string, b: string)
    ensures a + "_domain" != b + "_ipcidr"
    ensures a + "_domain" == b + "_domain" ==> a == b
    ensures a + "_ipcidr" == b + "_ipcidr" ==> a == b
    ensures a != a + "_domain" && a != a + "_ipcidr"
  {
    Suffixes(a);
    Suffixes(b);
  }

  /** The emissions of a ruleset are what it defines. */
  lemma EmissionsDefine(s: Source, classical: bool, prefix: string, key: string)
    requires SourceOk(s, classical)
    ensures Defines(s, key) <==> exists e :: e in Emissions(s, prefix) && e.key == key
    ensures forall e | e in Emissions(s, prefix) :: Defines(s, e.key) && e.provider == Defined(s, e.key, prefix)
  {
    hide ProviderUrl, EndsWith;
    Suffixes(s.name);
    if Defines(s, key) {
      var e := Emission(key, Defined(s, key, prefix));
      assert e in Emissions(s, prefix);
    }
  }

  predicate Same(p: Provider, q: Provider) { p.behavior == q.behavior && p.url == q.url }

  lemma {:induction false} PutAllAt(m: Providers, es: seq<Emission>, key: string, p: Provider)
    requires forall e | e in es && e.key == key :: e.provider == p
    ensures if exists e :: e in es && e.key == key then key in PutAll(m, es) && Same(PutAll(m, es)[key], p)
            else (key in PutAll(m, es) <==> key in m) && (key in m ==> PutAll(m, es)[key] == m[key])
  {
    if es != [] {
      var most, last := es[..|es| - 1], es[|es| - 1];
      assert es == most + [last];
      PutAllAt(m, most, key, p);
    }
  }

  lemma {:induction false} PutAllAppend(m: Providers, a: seq<Emission>, b: seq<Emission>)
    ensures PutAll(m, a + b) == PutAll(PutAll(m, a), b)
    decreases |b|
  {
    if b == [] {
      assert a + b == a;
    } else {
      var all, most := a + b, b[..|b| - 1];
      assert all[..|all| - 1] == a + most && all[|all| - 1] == b[|b| - 1];
      PutAllAppend(m, a, most);
    }
  }

  /** The last ruleset that defines a key, or -1. */
  function LastDefiner(sources: seq<Source>, key: string): (l: int)
    ensures -1 <= l < |sources| && (l >= 0 ==> Defines(sources[l], key))
    ensures forall j | l < j < |sources| :: !Defines(sources[j], key)
  {
    if sources == [] then -1
    else if Defines(sources[|sources| - 1], key) then |sources| - 1
    else LastDefiner(sources[..|sources| - 1], key)
  }

  /** A key holds what its last definer has put there. */
  lemma {:induction false} LastOneWins(m: Providers, sources: seq<Source>, classical: bool, prefix: string, key: string)
    requires forall i | 0 <= i < |sources| :: SourceOk(sources[i], classical)
    ensures var l, end := LastDefiner(sources, key), PutAll(m, AllEmissions(sources, prefix));
            l >= 0 ==> key in end && Same(end[key], Defined(sources[l], key, prefix))
  {
    hide Emissions, Defines, Defined, SourceOk, PutAll;
    if sources != [] {
      var n := |sources| - 1;
      var most, last := sources[..n], sources[n];
      LastOneWins(m, most, classical, prefix, key);
      EmissionsDefine(last, classical, prefix, key);
      PutAllAppend(m, AllEmissions(most, prefix), Emissions(last, prefix));
      PutAllAt(PutAll(m, AllEmissions(most, prefix)), Emissions(last, prefix), key,
               if Defines(last, key) then Defined(last, key, prefix) else Provider("", "", 0));
    }
  }

  // ----- rulesets that meet -----

  /** The name of s is the name of t with a suffix under which t is defined. */
  predicate Meets(s: Source, t: Source) { Bare(s) && !Bare(t) && Defines(t, s.name) }

  /** A Clash list that is itself the list which the suffix stands for. */
  predicate Twins(s: Source, t: Source, prefix: string) {
    if EndsWith(s.name, "_domain") then s.kind.ClashDomain? && ProviderUrl(s, "3", prefix) == ProviderUrl(t, "3", prefix)
    else s.kind.ClashIpcidr? && ProviderUrl(s, "4", prefix) == ProviderUrl(t, "4", prefix)
  }

  /** Ruleset i goes by the name that ruleset j has with a suffix, as another list, and it
      has a rule of its own or comes later. */
  predicate Misleads(sources: seq<Source>, i: int, j: int, prefix: string) {
    && 0 <= i < |sources| && 0 <= j < |sources| && Meets(sources[i], sources[j])
    && !Twins(sources[i], sources[j], prefix) && (IsClash(sources[i].kind) || i > j)
  }

  /** Two rulesets of different names that define one key meet, one way or the other, and
      a third one does not define it. */
  lemma TwoDefine(s: Source, t: Source, key: string)
    requires s.name != t.name && Defines(s, key) && Defines(t, key)
    ensures Bare(s) != Bare(t)
    ensures Bare(s) ==> Meets(s, t) && key == s.name
    ensures Bare(t) ==> Meets(t, s) && key == t.name
  {
    SuffixesApart(s.name, t.name);
    SuffixesApart(t.name, s.name);
  }

  lemma SameIffTwins(s: Source, t: Source, classical: bool, prefix: string)
    requires SourceOk(s, classical) && SourceOk(t, classical) && Meets(s, t)
    ensures Same(Defined(s, s.name, prefix), Defined(t, s.name, prefix)) <==> Twins(s, t, prefix)
  {
    hide ProviderUrl, EndsWith;
    Suffixes(t.name);
  }

  /** The claims of a ruleset are what it defines, and a bare name without a rule is the
      name of a list that holds keyword rules only. */
  lemma ClaimsDefine(s: Source, classical: bool, prefix: string, key: string)
    requires SourceOk(s, classical)
    ensures forall cl | cl in Claims(s, classical, prefix) ::
              Defines(s, cl.key) && Defined(s, cl.key, prefix).behavior == cl.behavior && Defined(s, cl.key, prefix).url == cl.url
    ensures (exists cl :: cl in Claims(s, classical, prefix) && cl.key == key)
            <==> Defines(s, key) && (Bare(s) ==> IsClash(s.kind) || classical)
  {
    hide ProviderUrl, EndsWith;
    Suffixes(s.name);
    var claims := Claims(s, classical, prefix);
    if Defines(s, key) && (Bare(s) ==> IsClash(s.kind) || classical) {
      assert exists cl :: cl in claims && cl.key == key by {
        if |claims| == 2 && claims[1].key == key { assert claims[1] in claims; } else { assert claims[0] in claims; }
      }
    }
  }

  predicate Finds(m: Providers, cl: Claim) {
    cl.key in m && m[cl.key].behavior == cl.behavior && m[cl.key].url == cl.url
  }

  lemma {:induction false} AllOf(sources: seq<Source>, classical: bool, prefix: string, cl: Claim)
    ensures cl in AllClaims(sources, classical, prefix) <==>
            exists i :: 0 <= i < |sources| && cl in Claims(sources[i], classical, prefix)
  {
    hide Claims;
    if sources != [] {
      var most := sources[..|sources| - 1];
      AllOf(most, classical, prefix, cl);
      if i :| 0 <= i < |sources| && cl in Claims(sources[i], classical, prefix) {
        if i < |most| { assert cl in Claims(most[i], classical, prefix); }
      }
    }
  }

  /** A rule of ruleset a finds its own list exactly when the last definer of its key has
      put the same list there. */
  lemma ClaimFound(m: Providers, sources: seq<Source>, classical: bool, prefix: string, a: nat, cl: Claim)
    requires SourcesOk(sources, classical) && a < |sources| && cl in Claims(sources[a], classical, prefix)
    ensures Defines(sources[a], cl.key)
    ensures var end, l := PutAll(m, AllEmissions(sources, prefix)), LastDefiner(sources, cl.key);
            && a <= l < |sources| && cl.key in end
            && (Finds(end, cl) <==> Same(Defined(sources[l], cl.key, prefix), Defined(sources[a], cl.key, prefix)))
  {
    hide PutAll, Emissions, Defines, Defined, Claims, SourceOk, Distinct;
    ClaimsDefine(sources[a], classical, prefix, cl.key);
    LastOneWins(m, sources, classical, prefix, cl.key);
  }

  /** A rule that does not find its own list has been misled. */
  lemma NotFound(m: Providers, sources: seq<Source>, classical: bool, prefix: string, a: nat, cl: Claim)
    requires SourcesOk(sources, classical) && a < |sources| && cl in Claims(sources[a], classical, prefix)
    requires !Finds(PutAll(m, AllEmissions(sources, prefix)), cl)
    ensures exists i, j :: Misleads(sources, i, j, prefix)
  {
    hide PutAll, Emissions, Defines, Defined, Claims, SourceOk, Bare, Twins;
    ClaimFound(m, sources, classical, prefix, a, cl);
    ClaimsDefine(sources[a], classical, prefix, cl.key);
    var l := LastDefiner(sources, cl.key);
    var s, t := sources[a], sources[l];
    assert SourceNames(sources)[a] != SourceNames(sources)[l];
    TwoDefine(s, t, cl.key);
    if Bare(s) {
      NotClassical(t, classical);
      SameIffTwins(s, t, classical, prefix);
      assert Misleads(sources, a, l, prefix);
    } else {
      SameIffTwins(t, s, classical, prefix);
      assert Misleads(sources, l, a, prefix);
    }
  }

  lemma NotClassical(t: Source, classical: bool)
    requires SourceOk(t, classical) && !Bare(t)
    ensures !classical
  {
  }

  /** A ruleset that misleads leaves a rule without its own list. */
  lemma Misled(m: Providers, sources: seq<Source>, classical: bool, prefix: string, i: int, j: int)
    requires SourcesOk(sources, classical) && Misleads(sources, i, j, prefix)
    ensures exists cl :: cl in AllClaims(sources, classical, prefix) && !Finds(PutAll(m, AllEmissions(sources, prefix)), cl)
  {
    hide PutAll, Emissions, Defined, Claims, SourceOk, Twins, AllClaims, AllEmissions;
    var s, t := sources[i], sources[j];
    var key, a, l := s.name, if i > j then j else i, if i > j then i else j;
    SameIffTwins(s, t, classical, prefix);
    OnlyTwo(sources, classical, i, j, key);
    assert LastDefiner(sources, key) == l;
    ClaimsDefine(sources[a], classical, prefix, key);
    var cl :| cl in Claims(sources[a], classical, prefix) && cl.key == key;
    ClaimFound(m, sources, classical, prefix, a, cl);
    AllOf(sources, classical, prefix, cl);
  }

  lemma OnlyTwo(sources: seq<Source>, classical: bool, i: nat, j: nat, key: string)
    requires SourcesOk(sources, classical) && i < |sources| && j < |sources|
    requires Meets(sources[i], sources[j]) && key == sources[i].name
    ensures forall k | 0 <= k < |sources| && k != i && k != j :: !Defines(sources[k], key)
  {
    hide Defines, Bare;
    DefinesOwn(sources[i]);
    forall k | 0 <= k < |sources| && k != i && k != j && Defines(sources[k], key) ensures false {
      assert SourceNames(sources)[k] != SourceNames(sources)[i] && SourceNames(sources)[k] != SourceNames(sources)[j];
      TwoDefine(sources[k], sources[i], key);
      TwoDefine(sources[k], sources[j], key);
    }
  }

  lemma DefinesOwn(s: Source)
    ensures Bare(s) ==> Defines(s, s.name)
  {
  }

  /** The names are distinct; the RULE-SET rules are those of the rulesets in order, and
      each names a defined key; and every rule finds the behaviour and the address of its
      own ruleset exactly when no ruleset misleads: none is called like another one with a
      suffix in use, as another list, with a rule of its own or later in order. */
  lemma RuleProviderIntegrity(contents: seq<Content>, c: Setup, first: seq<Rule>, base: Providers)
    requires ContentsOk(contents) && forall k | 0 <= k < |first| :: first[k].Line?
    ensures var sources := Sources(contents, c);
            var claims, end := AllClaims(sources, c.classical, c.prefix), PutAll(base, AllEmissions(sources, c.prefix));
            && Build(contents, c, first).sources == sources && Distinct(SourceNames(sources))
            && RuleSets(Build(contents, c, first).rules) == RulesOf(claims)
            && (forall cl | cl in claims :: cl.key in end)
            && ((forall cl | cl in claims :: Finds(end, cl)) <==> forall i, j :: !Misleads(sources, i, j, c.prefix))
  {
    hide PutAll, AllEmissions, Build, Misleads, Claims, RuleSets, Sources, AllClaims, LastDefiner, Finds;
    BuildClaims(contents, c, first);
    var sources := Sources(contents, c);
    var claims, end := AllClaims(sources, c.classical, c.prefix), PutAll(base, AllEmissions(sources, c.prefix));
    forall cl | cl in claims
      ensures cl.key in end && (Finds(end, cl) || exists i, j :: Misleads(sources, i, j, c.prefix))
    {
      AllOf(sources, c.classical, c.prefix, cl);
      var a :| 0 <= a < |sources| && cl in Claims(sources[a], c.classical, c.prefix);
      ClaimFound(base, sources, c.classical, c.prefix, a, cl);
      if !Finds(end, cl) { NotFound(base, sources, c.classical, c.prefix, a, cl); }
    }
    if i, j :| Misleads(sources, i, j, c.prefix) {
      Misled(base, sources, c.classical, c.prefix, i, j);
    }
  }

  // ----- seen from the rulesets' paths -----

  predicate Suffixed(name: string) { EndsWith(name, "_domain") || EndsWith(name, "_ipcidr") }

  /** No file is called like a name with one of the suffixes. */
  ghost predicate NoSuffixedFile(contents: seq<Content>) {
    forall k | 0 <= k < |contents| && contents[k].path != "" :: !Suffixed(FindFileName(contents[k].path))
  }

  /** A number at the end is no suffix. */
  lemma NumberedNotSuffixed(base: string, k: nat)
    ensures Suffixed(Candidate(base, '_', k)) ==> k <= 1
  {
    var name := base + ['_'] + ToDecimal(k);
    DecimalRoundTrip(k);
    var digits := ToDecimal(k);
    assert IsDigit(digits[|digits| - 1]) && name[|name| - 1] == digits[|digits| - 1];
    LastOfSuffix(name);
  }

  lemma LastOfSuffix(name: string)
    ensures Suffixed(name) ==> name != "" && (name[|name| - 1] == 'n' || name[|name| - 1] == 'r')
  {
    if |name| >= 7 { assert name[|name| - 7..][6] == name[|name| - 1]; }
  }

  lemma NewNotSuffixed(taken: seq<string>, x: Content, c: Setup)
    requires x.path != "" ==> !Suffixed(FindFileName(x.path))
    ensures var s := NewSource(taken, x, c); s.Some? ==> !Suffixed(s.value.name)
  {
    hide FindFileName, Suffixed, Candidate, FreeName;
    if x.path != "" {
      var base := FindFileName(x.path);
      var name := FreeName(base, taken);
      var k: nat :| 1 <= k <= |taken| + 1 && name == Candidate(base, '_', k) && forall j | 1 <= j < k :: Candidate(base, '_', j) in taken;
      NumberedNotSuffixed(base, k);
      FirstCandidate(base);
    }
  }

  lemma FirstCandidate(base: string)
    ensures Candidate(base, '_', 1) == base
  {
  }

  lemma {:induction false} NoneSuffixed(contents: seq<Content>, c: Setup)
    requires NoSuffixedFile(contents)
    ensures forall i | 0 <= i < |Sources(contents, c)| :: !Suffixed(Sources(contents, c)[i].name)
  {
    hide NewSource, Suffixed, FindFileName;
    if contents != [] {
      var most := contents[..|contents| - 1];
      NoneSuffixed(most, c);
      NewNotSuffixed(SourceNames(Sources(most, c)), contents[|contents| - 1], c);
    }
  }

  lemma MeetingIsSuffixed(s: Source, t: Source)
    ensures Meets(s, t) ==> Suffixed(s.name)
  {
    Suffixes(t.name);
  }

  /** With such paths every rule finds the behaviour and the address of its own ruleset. */
  lemma EveryRuleFindsItsList(contents: seq<Content>, c: Setup, first: seq<Rule>, base: Providers)
    requires ContentsOk(contents) && (forall k | 0 <= k < |first| :: first[k].Line?) && NoSuffixedFile(contents)
    ensures var sources := Sources(contents, c);
            forall cl | cl in AllClaims(sources, c.classical, c.prefix) :: Finds(PutAll(base, AllEmissions(sources, c.prefix)), cl)
  {
    hide Sources, Suffixed, NoSuffixedFile, Meets, AllClaims, AllEmissions, PutAll, Finds;
    RuleProviderIntegrity(contents, c, first, base);
    NoneSuffixed(contents, c);
    var sources := Sources(contents, c);
    forall i, j ensures !Misleads(sources, i, j, c.prefix) {
      if 0 <= i < |sources| && 0 <= j < |sources| { MeetingIsSuffixed(sources[i], sources[j]); }
    }
  }

  // ----- and where it fails -----

  /** The second of two rulesets is a list of addresses and goes by the name of the domains
      of the first: the rule for the domains finds the addresses. */
  lemma KeysCanMeet(x: Content, y: Content, c: Setup, base: Providers, name: string)
    requires x.path != "" && !IsClash(x.kind) && c.reachable(x.path) && !c.classical && x.text != ""
    requires FindFileName(x.path) == name && AnyDomain(TextLines(x, c))
    requires y.path != "" && y.kind.ClashIpcidr? && FindFileName(y.path) == name + "_domain"
    ensures var sources := Sources([x, y], c);
            var end, key := PutAll(base, AllEmissions(sources, c.prefix)), name + "_domain";
            && RuleSet(key, x.policy) in RulesOf(AllClaims(sources, c.classical, c.prefix))
            && key in end && end[key].behavior == "ipcidr"
            && exists cl :: cl in AllClaims(sources, c.classical, c.prefix) && cl.key == key && cl.behavior == "domain" && !Finds(end, cl)
  {
    hide FindFileName, TextLines, AnyDomain, AnyIp, FreeName, IsFirstFree, PutAll, AllEmissions, AllClaims, ProviderUrl, Emissions;
    var key := name + "_domain";
    assert SourceNames([]) == [];
    Unnumbered(name, []);
    var s := NewSource([], x, c).value;
    assert SourceNames([s]) == [name];
    SuffixesApart(name, name);
    Unnumbered(key, [name]);
    var t := NewSource([name], y, c).value;
    TwoSources(x, y, c);
    assert Sources([x, y], c) == [s, t];
    LastOneWins(base, [s, t], c.classical, c.prefix, key);
    assert LastDefiner([s, t], key) == 1;
    var cl := Claims(s, c.classical, c.prefix)[0];
    assert cl.key == key && [s, t][0] == s;
    AllOf([s, t], c.classical, c.prefix, cl);
    var claims := AllClaims([s, t], c.classical, c.prefix);
    var k :| 0 <= k < |claims| && claims[k] == cl;
    assert RulesOf(claims)[k] == RuleSet(key, x.policy);
  }

  lemma TwoSources(x: Content, y: Content, c: Setup)
    ensures Sources([x, y], c) ==
            var s := Listed(NewSource(SourceNames([]), x, c)); s + Listed(NewSource(SourceNames(s), y, c))
  {
    hide NewSource;
    assert [x, y][..1] == [x] && [x][..0] == [];
    assert Sources([], c) == [];
    assert Sources([x], c) == Listed(NewSource(SourceNames([]), x, c));
  }

  lemma Unnumbered(name: string, taken: seq<string>)
    requires name !in taken
    ensures FreeName(name, taken) == name
  {
    FreeStays(name, '_', taken, FreeName(name, taken));
  }

  /** For example "a.list" with one domain, followed by the Clash list "a_domain.yaml". */
  lemma MeetingExample(c: Setup)
    requires c.convert("DOMAIN,x", Surge) == "DOMAIN,x" && c.reachable("r/a.list") && !c.classical
    ensures var contents := [Content("P", "r/a.list", "r/a.list", Surge, "DOMAIN,x", 0),
                             Content("Q", "r/a_domain.yaml", "r/a_domain.yaml", ClashIpcidr, "", 0)];
            var sources := Sources(contents, c);
            var end := PutAll(map[], AllEmissions(sources, c.prefix));
            && RuleSet("a_domain", "P") in RulesOf(AllClaims(sources, c.classical, c.prefix))
            && "a_domain" in end && end["a_domain"].behavior == "ipcidr"
            && exists cl :: cl in AllClaims(sources, c.classical, c.prefix)
                            && cl.key == "a_domain" && cl.behavior == "domain" && !Finds(end, cl)
  {
    hide FindFileName, IsDomainLine, Lines, LineBreak, Kept, Sources, PutAll, AllEmissions, AllClaims, RulesOf;
    ExampleNames();
    ExampleLine();
    var x := Content("P", "r/a.list", "r/a.list", Surge, "DOMAIN,x", 0);
    assert IsDomainLine(Kept(TextLines(x, c)[0]));
    KeysCanMeet(x, Content("Q", "r/a_domain.yaml", "r/a_domain.yaml", ClashIpcidr, "", 0), c, map[], "a");
    assert "a" + "_domain" == "a_domain";
  }

  lemma ExampleNames()
    ensures FindFileName("r/a.list") == "a" && FindFileName("r/a_domain.yaml") == "a" + "_domain"
  {
    hide FindFileName;
    FileNameStem("r", "a", "list");
    FileNameStem("r", "a_domain", "yaml");
    assert "r" + "/" + "a" + "." + "list" == "r/a.list" && "r" + "/" + "a_domain" + "." + "yaml" == "r/a_domain.yaml";
    assert "a" + "_domain" == "a_domain";
  }

  lemma SingleLine(text: string)
    requires text != "" && Free(text, '\n') && Free(text, '\r')
    ensures Lines(text, LineBreak(text)) == [text]
  {
  }

  lemma ExampleLine()
    ensures var text := "DOMAIN,x"; Lines(text, LineBreak(text)) == [text] && IsDomainLine(Kept(text))
  {
    hide Lines, LineBreak;
    SingleLine("DOMAIN,x");
    assert Kept("DOMAIN,x") == "DOMAIN,x" && "DOMAIN," <= "DOMAIN,x";
  }
}
