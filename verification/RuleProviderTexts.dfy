/** The rules and addresses that renderClashScript (templates.cpp) writes, as texts. */
module RuleProviderTexts {
  import opened Common
  import opened StringUtil
  import opened UrlArgs
  import Base64
  import ShareLinks
  import ShareLinksRoundTrip
  import opened NodeNames
  import opened RuleProviders
  import opened RuleProviderKeys

  // ----- addresses -----

  /** The address of a provider asks for its own ruleset, in the form of its behaviour. */
  predicate AsksFor(address: string, kind: string, url: string) {
    UrlArg(address, "type") == kind && Base64.UrlSafeDecode(UrlArg(address, "url")) == url
  }

  lemma KeysOk()
    ensures KeyOk("type") && KeyOk("url") && ValueOk("3") && ValueOk("4") && ValueOk("6")
  {
  }

  lemma ProviderAsks(s: Source, kind: string, prefix: string)
    requires (s.url == "" || s.url[0] != '*') && ShareLinksRoundTrip.Small(s.url) && (kind == "3" || kind == "4" || kind == "6")
    ensures prefix + "/getruleset?" <= ProviderUrl(s, kind, prefix) && AsksFor(ProviderUrl(s, kind, prefix), kind, s.url)
  {
    hide UrlArg, KeyOk, ValueOk, ShareLinks.B64, Base64.UrlSafeDecode;
    var b, head := ShareLinks.B64(s.url), prefix + "/getruleset";
    var pairs := [Pair("type", kind), Pair("url", b)];
    KeysOk();
    ShareLinksRoundTrip.B64Calm(s.url);
    ShareLinksRoundTrip.B64Back(s.url);
    TwoPairs("type", kind, "url", b);
    assert ProviderUrl(s, kind, prefix) == head + "?" + Query(pairs);
    assert pairs[0].key == "type" && pairs[1].key == "url";
    AddressArg(head, pairs, "type");
    AddressArg(head, pairs, "url");
  }

  lemma TwoPairs(k: string, v: string, l: string, w: string)
    ensures var pairs := [Pair(k, v), Pair(l, w)];
            && Query(pairs) == k + "=" + v + "&" + l + "=" + w
            && LastValue(pairs, l) == w && (k != l ==> LastValue(pairs, k) == v)
  {
    var pairs := [Pair(k, v), Pair(l, w)];
    assert pairs[..1] == [Pair(k, v)];
    assert LastValue([Pair(k, v)], k) == v;
    assert Query([Pair(k, v)]) == k + "=" + v;
  }

  /** The rule of a Clash list goes to the list itself, with the behaviour of its kind. */
  lemma ClashClaim(taken: seq<string>, x: Content, c: Setup)
    requires x.path != "" && IsClash(x.kind)
    ensures var s := NewSource(taken, x, c);
            && s.Some?
            && Claims(s.value, c.classical, c.prefix)
               == [Claim(s.value.name, x.policy,
                         match x.kind case ClashDomain => "domain" case ClashIpcidr => "ipcidr" case _ => "classical", x.path)]
  {
    hide FindFileName, FreeName, IsFirstFree;
    assert ("*" + x.path)[0] == '*' && ("*" + x.path)[1..] == x.path;
  }

  /** The rules of another list: one for the domains and one for the addresses found in it,
      or in classical mode one for all; each asks for that list in that form. */
  lemma FetchedClaims(taken: seq<string>, x: Content, c: Setup)
    requires x.path != "" && !IsClash(x.kind) && c.reachable(x.path) && x.text != ""
    requires x.pathTyped == "" || x.pathTyped[0] != '*'
    requires ShareLinksRoundTrip.Small(x.pathTyped)
    ensures var s, lines := NewSource(taken, x, c), TextLines(x, c);
            && s.Some?
            && var claims, name := Claims(s.value, c.classical, c.prefix), s.value.name;
               && (forall cl | cl in claims ::
                     && cl.policy == x.policy
                     && if c.classical then cl.key == name && cl.behavior == "classical" && AsksFor(cl.url, "6", x.pathTyped)
                        else if cl.behavior == "domain" then cl.key == name + "_domain" && AsksFor(cl.url, "3", x.pathTyped)
                        else cl.behavior == "ipcidr" && cl.key == name + "_ipcidr" && AsksFor(cl.url, "4", x.pathTyped))
               && (c.classical ==> |claims| == 1)
               && (!c.classical ==>
                     && ((exists cl :: cl in claims && cl.behavior == "domain") <==> AnyDomain(lines))
                     && ((exists cl :: cl in claims && cl.behavior == "ipcidr") <==> AnyIp(lines)))
  {
    hide FindFileName, FreeName, IsFirstFree, AnyDomain, AnyIp, ProviderUrl, AsksFor;
    var s := NewSource(taken, x, c).value;
    var claims := Claims(s, c.classical, c.prefix);
    ProviderAsks(s, "3", c.prefix);
    ProviderAsks(s, "4", c.prefix);
    ProviderAsks(s, "6", c.prefix);
    if !c.classical && s.hasDomain { assert claims[0].behavior == "domain" && claims[0] in claims; }
    if !c.classical && s.hasIpcidr { assert claims[|claims| - 1].behavior == "ipcidr" && claims[|claims| - 1] in claims; }
  }

  // ----- lines -----

  predicate DomainMark(raw: string) { "DOMAIN," <= raw || "DOMAIN-SUFFIX," <= raw }

  predicate AddressMark(raw: string) { "IP-CIDR," <= raw || "IP-CIDR6," <= raw }

  lemma MarkKept(raw: string, mark: string)
    requires mark == "DOMAIN," || mark == "DOMAIN-SUFFIX," || mark == "IP-CIDR," || mark == "IP-CIDR6," || mark == "DOMAIN-KEYWORD,"
    ensures mark <= Kept(raw) <==> mark <= raw
  {
    var n := |mark|;
    assert mark[n - 1] == ',' && (mark[0] == 'D' || mark[0] == 'I');
    if mark <= raw { assert raw[0] == mark[0] && raw[n - 1] == ','; }
  }

  /** A list has domains, or addresses, exactly if one of its lines starts as such a rule. */
  lemma LineFlags(lines: seq<string>)
    ensures AnyDomain(lines) <==> exists k :: 0 <= k < |lines| && DomainMark(lines[k])
    ensures AnyIp(lines) <==> exists k :: 0 <= k < |lines| && AddressMark(lines[k])
  {
    hide Kept;
    forall k | 0 <= k < |lines|
      ensures (IsDomainLine(Kept(lines[k])) <==> DomainMark(lines[k])) && (IsIpLine(Kept(lines[k])) <==> AddressMark(lines[k]))
    {
      MarkKept(lines[k], "DOMAIN,");
      MarkKept(lines[k], "DOMAIN-SUFFIX,");
      MarkKept(lines[k], "IP-CIDR,");
      MarkKept(lines[k], "IP-CIDR6,");
    }
  }

  /** A keyword line becomes a rule with the policy, with or without a carriage return. */
  lemma KeywordRule(lines: seq<string>, word: string, policy: string)
    requires Free(word, ',') && Free(policy, ',') && (word != "" ==> word[|word| - 1] != '\r')
    ensures var rule := Line("DOMAIN-KEYWORD," + word + "," + policy);
            && KeywordRules(lines + ["DOMAIN-KEYWORD," + word], policy) == KeywordRules(lines, policy) + [rule]
            && KeywordRules(lines + ["DOMAIN-KEYWORD," + word + "\r"], policy) == KeywordRules(lines, policy) + [rule]
  {
    hide WithPolicy;
    var line := "DOMAIN-KEYWORD," + word;
    assert line == "DOMAIN-KEYWORD" + "," + word;
    assert Free("DOMAIN-KEYWORD", ',');
    PolicyThird("DOMAIN-KEYWORD", word, "", policy);
    assert "DOMAIN-KEYWORD" + "," + word + "," + policy == "DOMAIN-KEYWORD," + word + "," + policy;
    assert line[0] == 'D' && (line + "\r")[..|line|] == line;
    assert word != "" ==> line[|line| - 1] == word[|word| - 1];
    assert (lines + [line])[..|lines|] == lines && (lines + [line + "\r"])[..|lines|] == lines;
  }

  // ----- rules without a list -----

  /** "[]FINAL" is called MATCH in Clash; other rules keep their name, and the policy comes
      before the options. */
  lemma PlainRules(x: Content, pattern: string, options: string)
    requires Free(pattern, ',') && Free(x.policy, ',')
    ensures x.text == "[]FINAL" ==> PlainRule(x) == Line("MATCH," + x.policy)
    ensures x.text == "[]FINAL," + pattern ==> PlainRule(x) == Line("MATCH," + pattern + "," + x.policy)
    ensures x.text == "[]GEOIP," + pattern ==> PlainRule(x) == Line("GEOIP," + pattern + "," + x.policy)
    ensures x.text == "[]GEOIP," + pattern + "," + options ==> PlainRule(x) == Line("GEOIP," + pattern + "," + x.policy + "," + options)
  {
    hide WithPolicy, Free;
    PlainFinal(x, "");
    PlainFinal(x, "," + pattern);
    PlainOther(x, "GEOIP," + pattern);
    PlainOther(x, "GEOIP," + pattern + "," + options);
    NamesFree();
    OneField(x.policy);
    PolicyThird("MATCH", pattern, "", x.policy);
    PolicyThird("GEOIP", pattern, options, x.policy);
    Spelled(pattern, options, x.policy);
  }

  lemma PlainFinal(x: Content, rest: string)
    ensures x.text == "[]FINAL" + rest ==> PlainRule(x) == Line(WithPolicy("MATCH" + rest, x.policy))
  {
    if x.text == "[]FINAL" + rest { assert x.text[2..] == "FINAL" + rest && ("FINAL" + rest)[5..] == rest; }
  }

  lemma PlainOther(x: Content, line: string)
    requires line != "" && line[0] == 'G'
    ensures x.text == "[]" + line ==> PlainRule(x) == Line(WithPolicy(line, x.policy))
  {
    if x.text == "[]" + line { assert x.text[2..] == line; }
  }

  lemma NamesFree()
    ensures Free("MATCH", ',') && Free("GEOIP", ',')
  {
  }

  lemma OneField(policy: string)
    requires Free(policy, ',')
    ensures WithPolicy("MATCH", policy) == "MATCH," + policy
  {
    NoCommas("MATCH");
    NoCommas(policy);
    CommasAppend("MATCH", ",");
    CommasAppend("MATCH" + ",", policy);
    OneComma();
    assert "MATCH" + "," + policy == "MATCH," + policy;
  }

  lemma Spelled(pattern: string, options: string, policy: string)
    ensures "[]FINAL" + "" == "[]FINAL" && "MATCH" + "" == "MATCH" && "[]FINAL" + ("," + pattern) == "[]FINAL," + pattern
    ensures "MATCH" + ("," + pattern) == "MATCH" + "," + pattern
    ensures "MATCH" + "," + pattern + "," + policy == "MATCH," + pattern + "," + policy
    ensures "GEOIP," + pattern == "GEOIP" + "," + pattern && "[]" + ("GEOIP," + pattern) == "[]GEOIP," + pattern
    ensures "[]" + ("GEOIP," + pattern + "," + options) == "[]GEOIP," + pattern + "," + options
  {
  }

  // ----- names and intervals -----

  /** Backslashes part components where there is no slash, an extension may be missing, and a
      path without any slash loses its first character. */
  lemma FileNameForms(dir: string, stem: string, extension: string, c: char)
    requires Free(stem, '/') && Free(stem, '\\') && Free(extension, '/') && Free(extension, '\\') && Free(extension, '.')
    requires Free(dir, '/') && c != '/' && c != '\\'
    ensures FindFileName(dir + "\\" + stem + "." + extension) == stem
    ensures Free(dir, '.') && Free(stem, '.') ==> FindFileName(dir + "/" + stem) == stem
    ensures FindFileName([c] + stem + "." + extension) == stem
  {
    WithBackslash(dir, stem, extension);
    if Free(dir, '.') && Free(stem, '.') { WithoutExtension(dir, stem); }
    WithoutDirectory(c, stem, extension);
  }

  lemma WithBackslash(dir: string, stem: string, extension: string)
    requires Free(stem, '/') && Free(stem, '\\') && Free(extension, '/') && Free(extension, '\\') && Free(extension, '.') && Free(dir, '/')
    ensures FindFileName(dir + "\\" + stem + "." + extension) == stem
  {
    var tail := stem + "." + extension;
    var path := dir + "\\" + stem + "." + extension;
    assert path == (dir + "\\" + stem) + ['.'] + extension && path == dir + ['\\'] + tail;
    CutLast(dir, '\\', tail);
    CutLast(dir + "\\" + stem, '.', extension);
    assert Free(path, '/');
    NotLast(path, '/');
    assert path[|dir| + 1..|dir| + 1 + |stem|] == stem;
  }

  lemma WithoutExtension(dir: string, stem: string)
    requires Free(dir, '.') && Free(stem, '.') && Free(stem, '/')
    ensures FindFileName(dir + "/" + stem) == stem
  {
    var path := dir + "/" + stem;
    assert path == dir + ['/'] + stem;
    CutLast(dir, '/', stem);
    assert Free(path, '.');
    NotLast(path, '.');
    assert path[|dir| + 1..] == stem;
  }

  lemma WithoutDirectory(c: char, stem: string, extension: string)
    requires Free(stem, '/') && Free(stem, '\\') && Free(extension, '/') && Free(extension, '\\') && Free(extension, '.')
    requires c != '/' && c != '\\'
    ensures FindFileName([c] + stem + "." + extension) == stem
  {
    var path := [c] + stem + "." + extension;
    assert path == ([c] + stem) + ['.'] + extension;
    CutLast([c] + stem, '.', extension);
    assert Free(path, '/') && Free(path, '\\');
    NotLast(path, '/');
    NotLast(path, '\\');
    assert path[1..1 + |stem|] == stem;
  }

  lemma NotLast(s: string, c: char)
    requires Free(s, c)
    ensures FindLast(s, c, |s|) == |s|
  {
  }

  /** The interval of a provider is the last one given that is not 0, or else the one of the
      base configuration. */
  lemma {:induction false} LastInterval(m: Providers, es: seq<Emission>, key: string, j: int)
    requires -1 <= j < |es| && (j >= 0 ==> es[j].key == key && es[j].provider.interval != 0)
    requires forall i | j < i < |es| && es[i].key == key :: es[i].provider.interval == 0
    ensures key in PutAll(m, es) <==> key in m || exists i :: 0 <= i < |es| && es[i].key == key
    ensures key in PutAll(m, es) ==>
              PutAll(m, es)[key].interval == if j >= 0 then es[j].provider.interval else if key in m then m[key].interval else 0
    decreases |es|
  {
    if es != [] {
      var n := |es| - 1;
      if j == n {
        LastIntervalAny(m, es[..n], key);
      } else {
        LastInterval(m, es[..n], key, j);
      }
      if i :| 0 <= i < |es| && es[i].key == key {
        if i < n { assert es[..n][i].key == key; }
      }
    }
  }

  lemma {:induction false} LastIntervalAny(m: Providers, es: seq<Emission>, key: string)
    ensures key in PutAll(m, es) <==> key in m || exists i :: 0 <= i < |es| && es[i].key == key
  {
    if es != [] {
      var n := |es| - 1;
      LastIntervalAny(m, es[..n], key);
      if i :| 0 <= i < |es| && es[i].key == key {
        if i < n { assert es[..n][i].key == key; }
      }
      assert es[n].key == key ==> exists i :: 0 <= i < |es| && es[i].key == key;
    }
  }
}
