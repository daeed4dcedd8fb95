/** Rules printed as a Clash payload and read back (interfaces.cpp, ruleconvert.cpp). */
module PayloadRoundTrip {
  import opened Common
  import opened StringUtil
  import opened Payload

  // ----- one pattern -----

  /** Reading leaves the pattern alone: no blanks around it, no carriage return after it,
      no comment in it, and it is not a comment itself. */
  predicate Untouched(e: string) {
    && e != "" && e[0] != ';' && e[0] != '#' && Trim(e) == e && e[|e| - 1] != '\r' && !Contains(e, "//")
  }

  lemma {:induction false} DropShrinks(s: string)
    ensures DropSpaces(s) <= s
  {
    if s != "" && s[|s| - 1] == ' ' { DropShrinks(s[..|s| - 1]); }
  }

  lemma TrimmedShrinks(s: string)
    ensures |Trim(s)| <= |s| && (|Trim(s)| == |s| ==> Trim(s) == s)
  {
    SkipShrinks(s);
    DropShrinks(SkipSpaces(s));
  }

  lemma FoundIsContained(s: string)
    ensures FindString(s, "//", 0) <= |s| <==> Contains(s, "//")
  {
  }

  /** Cleaning shortens everything but the untouched, and comments. */
  lemma CleanedIff(e: string)
    ensures |Cleaned(e)| <= |e| && (|Cleaned(e)| == |e| ==> Cleaned(e) == e)
    ensures Cleaned(e) == e <==> Trim(e) == e && (e != "" ==> e[|e| - 1] != '\r') && !Contains(e, "//")
  {
    hide Trim, WithoutComment, Contains;
    var t := Trim(e);
    TrimmedShrinks(e);
    CommentIff(if t != "" && t[|t| - 1] == '\r' then t[..|t| - 1] else t);
  }

  lemma CommentIff(b: string)
    ensures |WithoutComment(b)| <= |b| && (|WithoutComment(b)| == |b| <==> !Contains(b, "//"))
    ensures !Contains(b, "//") ==> WithoutComment(b) == b
  {
    hide TrimWhitespace, Contains;
    FoundIsContained(b);
    var at := FindString(b, "//", 0);
    if at <= |b| {
      TrimShrinks(b[..at]);
      assert |WithoutComment(b)| <= at < |b|;
    }
  }

  lemma {:induction false} StarsShrink(s: string)
    ensures DropStars(s) <= s
    ensures DropStars(s) == s <==> !(|s| >= 2 && s[|s| - 2..] == ".*")
  {
    if |s| >= 2 && s[|s| - 2..] == ".*" { StarsShrink(s[..|s| - 2]); }
  }

  predicate PlainDomain(p: string) { Untouched(p) && Free(p, '/') && p[0] != '.' && !("+." <= p) }

  /** What the two rule kinds start with. */
  lemma Prefixes(c: string, p: string)
    ensures c != "DOMAIN," + p || |c| > |p|
    ensures "IP-CIDR," + c != "DOMAIN," + p && "IP-CIDR6," + c != "DOMAIN," + p && "DOMAIN-" + c != "DOMAIN," + p
    ensures "DOMAIN," + c == "DOMAIN," + p ==> c == p
    ensures "DOMAIN," + c != "DOMAIN-SUFFIX," + p && "IP-CIDR," + c != "DOMAIN-SUFFIX," + p && "IP-CIDR6," + c != "DOMAIN-SUFFIX," + p
  {
    assert ("DOMAIN-" + c)[6] == '-' && ("DOMAIN," + p)[6] == ',' && ("DOMAIN," + c)[6] == ',';
    assert ("DOMAIN-SUFFIX," + p)[6] == '-' && ("DOMAIN-SUFFIX," + p)[0] == 'D';
    assert ("IP-CIDR," + c)[0] == 'I' && ("IP-CIDR6," + c)[0] == 'I' && ("DOMAIN," + p)[0] == 'D';
    assert ("DOMAIN," + c)[7..] == c && ("DOMAIN," + p)[7..] == p;
  }

  /** A DOMAIN pattern reads back exactly when it is plain. */
  lemma DomainKept(p: string, isIPv4: string -> bool)
    ensures RuleLine(p, isIPv4) == "DOMAIN," + p <==> PlainDomain(p)
  {
    hide Cleaned, Trim, Contains, DropStars;
    var c := Cleaned(p);
    CleanedIff(p);
    Prefixes(c, p);
    var d := DropStars(c);
    var tail := (if d != c then "KEYWORD," else "SUFFIX,") + Drop(d, if d != "" && d[0] == '.' then 1 else 2);
    Prefixes(tail, p);
    assert "DOMAIN-" + tail == "DOMAIN-" + (if d != c then "KEYWORD," else "SUFFIX,") + Drop(d, if d != "" && d[0] == '.' then 1 else 2);
  }

  lemma CleanedPrefix(e: string)
    requires e != "" && e[0] != ' '
    ensures Cleaned(e) <= e
  {
    hide TrimWhitespace;
    DropShrinks(e);
    var t := Trim(e);
    assert t <= e;
    var b := if t != "" && t[|t| - 1] == '\r' then t[..|t| - 1] else t;
    var at := FindString(b, "//", 0);
    if at <= |b| { TrimShrinks(b[..at]); }
  }

  predicate PlainSuffix(p: string) {
    var e := "+." + p;
    Trim(e) == e && e[|e| - 1] != '\r' && !Contains(e, "//") && Free(p, '/') && e[|e| - 2..] != ".*"
  }

  lemma SuffixPrefixes(c: string, p: string)
    ensures "DOMAIN-KEYWORD," + c != "DOMAIN-SUFFIX," + p
    ensures "DOMAIN-SUFFIX," + c == "DOMAIN-SUFFIX," + p ==> c == p
    ensures |c| <= |p| + 2 ==> c != "DOMAIN-SUFFIX," + p
  {
    assert ("DOMAIN-KEYWORD," + c)[7] == 'K' && ("DOMAIN-SUFFIX," + p)[7] == 'S';
    assert ("DOMAIN-SUFFIX," + c)[14..] == c && ("DOMAIN-SUFFIX," + p)[14..] == p;
  }

  lemma SuffixFree(p: string)
    ensures Free("+." + p, '/') <==> Free(p, '/')
  {
    var e := "+." + p;
    assert e[0] == '+' && e[1] == '.' && forall i | 0 <= i < |p| :: e[i + 2] == p[i];
    if Free(e, '/') { forall i | 0 <= i < |p| ensures p[i] != '/' { assert e[i + 2] != '/'; } }
  }

  /** What is read of a text that starts with "+." like the entry and ends no later. */
  lemma SuffixOrKeyword(c: string, p: string)
    requires "+." <= c <= "+." + p
    ensures var d := DropStars(c);
            var rest := Drop(d, if d != "" && d[0] == '.' then 1 else 2);
            "DOMAIN-" + (if d != c then "KEYWORD," else "SUFFIX,") + rest == "DOMAIN-SUFFIX," + p <==>
              c == "+." + p && DropStars(c) == c
  {
    hide DropStars;
    var e, d := "+." + p, DropStars(c);
    var rest := Drop(d, if d != "" && d[0] == '.' then 1 else 2);
    assert e[0] == '+' && e[2..] == p;
    StarsShrink(c);
    SuffixPrefixes(rest, p);
    assert "DOMAIN-" + "KEYWORD," + rest == "DOMAIN-KEYWORD," + rest;
    assert "DOMAIN-" + "SUFFIX," + rest == "DOMAIN-SUFFIX," + rest;
  }

  lemma RuledSuffix(c: string, p: string, isIPv4: string -> bool)
    requires c <= "+." + p
    ensures Ruled(c, isIPv4) == "DOMAIN-SUFFIX," + p <==> c == "+." + p && Free(p, '/') && DropStars(c) == c
  {
    hide DropStars, Drop;
    var e := "+." + p;
    assert e[0] == '+' && e[1] == '.';
    SuffixFree(p);
    Prefixes(c, p);
    SuffixPrefixes(c, p);
    if c != "" {
      assert c[0] == e[0] && (|c| >= 2 ==> c[1] == e[1]);
    }
    if "+." <= c { SuffixOrKeyword(c, p); }
  }

  /** A DOMAIN-SUFFIX pattern reads back exactly when it is plain; one that ends in ".*"
      becomes a keyword. */
  lemma SuffixKept(p: string, isIPv4: string -> bool)
    ensures RuleLine("+." + p, isIPv4) == "DOMAIN-SUFFIX," + p <==> PlainSuffix(p)
  {
    hide Cleaned, Trim, Contains, DropStars, Ruled, Free;
    var e := "+." + p;
    assert e[0] == '+' && |e| >= 2;
    CleanedIff(e);
    CleanedPrefix(e);
    StarsShrink(e);
    RuledSuffix(Cleaned(e), p, isIPv4);
  }

  predicate PlainDotted(p: string) {
    var e := "." + p;
    Trim(e) == e && e[|e| - 1] != '\r' && !Contains(e, "//") && Free(p, '/') && !(|e| >= 2 && e[|e| - 2..] == ".*")
  }

  lemma DottedFree(p: string)
    ensures Free("." + p, '/') <==> Free(p, '/')
  {
    var e := "." + p;
    assert e[0] == '.' && forall i | 0 <= i < |p| :: e[i + 1] == p[i];
    if Free(e, '/') { forall i | 0 <= i < |p| ensures p[i] != '/' { assert e[i + 1] != '/'; } }
  }

  lemma DottedOrKeyword(c: string, p: string)
    requires c != "" && c <= "." + p
    ensures var d := DropStars(c);
            var rest := Drop(d, if d != "" && d[0] == '.' then 1 else 2);
            "DOMAIN-" + (if d != c then "KEYWORD," else "SUFFIX,") + rest == "DOMAIN-SUFFIX," + p <==>
              c == "." + p && DropStars(c) == c
  {
    hide DropStars;
    var e, d := "." + p, DropStars(c);
    var rest := Drop(d, if d != "" && d[0] == '.' then 1 else 2);
    assert e[0] == '.' && e[1..] == p && c[0] == '.';
    StarsShrink(c);
    SuffixPrefixes(rest, p);
    assert "DOMAIN-" + "KEYWORD," + rest == "DOMAIN-KEYWORD," + rest;
    assert "DOMAIN-" + "SUFFIX," + rest == "DOMAIN-SUFFIX," + rest;
  }

  lemma RuledDotted(c: string, p: string, isIPv4: string -> bool)
    requires c <= "." + p
    ensures Ruled(c, isIPv4) == "DOMAIN-SUFFIX," + p <==> c == "." + p && Free(p, '/') && DropStars(c) == c
  {
    hide DropStars, Drop;
    var e := "." + p;
    assert e[0] == '.';
    DottedFree(p);
    Prefixes(c, p);
    SuffixPrefixes(c, p);
    if c != "" {
      assert c[0] == '.';
      DottedOrKeyword(c, p);
    }
  }

  /** An entry with one dot in front is a suffix too, without the dot, exactly if it is plain. */
  lemma DottedKept(p: string, isIPv4: string -> bool)
    ensures RuleLine("." + p, isIPv4) == "DOMAIN-SUFFIX," + p <==> PlainDotted(p)
  {
    hide Cleaned, Trim, Contains, DropStars, Ruled, Free;
    var e := "." + p;
    assert e[0] == '.' && |e| >= 1;
    CleanedIff(e);
    CleanedPrefix(e);
    StarsShrink(e);
    RuledDotted(Cleaned(e), p, isIPv4);
  }

  /** A suffix with ".*" at its end becomes a keyword without it. */
  lemma StarsMakeKeyword(p: string, isIPv4: string -> bool)
    requires PlainSuffix(p) && p != ""
    ensures RuleLine("+." + p + ".*", isIPv4) == "DOMAIN-KEYWORD," + p
  {
    hide Cleaned, Trim, Contains, DropStars, Free;
    var e, k := "+." + p, "+." + p + ".*";
    StarredIsClean(p);
    CleanedIff(k);
    assert k[..|k| - 2] == e && k[|k| - 2..] == ".*";
    assert DropStars(k) == DropStars(e) by { OneStar(k); }
    StarsShrink(e);
    SuffixFree(p);
    assert Free(k, '/') by { FreeStars(p); }
    assert Find(k, '/') == |k| by { NotFound(k); }
    assert e[0] == '+' && k[0] == '+' && k[1] == '.' && e[2..] == p;
    assert "DOMAIN-" + "KEYWORD," + p == "DOMAIN-KEYWORD," + p;
  }

  lemma NotFound(s: string)
    requires Free(s, '/')
    ensures Find(s, '/') == |s|
  {
  }

  lemma FreeStars(p: string)
    requires Free(p, '/')
    ensures Free("+." + p + ".*", '/')
  {
  }

  lemma StarredIsClean(p: string)
    requires PlainSuffix(p)
    ensures var k := "+." + p + ".*"; Trim(k) == k && k[|k| - 1] != '\r' && !Contains(k, "//")
  {
    var k := "+." + p + ".*";
    assert k[0] == '+' && k[|k| - 1] == '*';
    FreeStars(p);
    NoSlashes(k);
  }

  /** An item may be quoted in either way, or not at all. */
  lemma ItemForms(indent: string, e: string)
    requires forall i | 0 <= i < |indent| :: indent[i] == ' '
    requires e != "" && !IsWhitespace(e[0]) && e[0] != '\'' && e[0] != '"'
    ensures ItemText(indent + "- " + e) == e
    ensures ItemText(indent + "- '" + e + "'") == e && ItemText(indent + "- \"" + e + "\"") == e
  {
    hide ItemText;
    UnquotedItem(indent, e);
    QuotedItem(indent, '\'', e);
    QuotedItem(indent, '"', e);
    assert "- '" == "- " + "'" && "- \"" == "- " + "\"";
    assert indent + "- " + ['\''] + e + ['\''] == indent + "- '" + e + "'";
    assert indent + "- " + ['"'] + e + ['"'] == indent + "- \"" + e + "\"";
  }

  lemma {:induction false} Indented(indent: string, t: string)
    requires (forall i | 0 <= i < |indent| :: indent[i] == ' ') && t != "" && !IsWhitespace(t[0])
    ensures SkipWhitespace(indent + t) == t
  {
    if indent == "" {
      assert indent + t == t;
    } else {
      assert (indent + t)[0] == ' ' && (indent + t)[1..] == indent[1..] + t;
      Indented(indent[1..], t);
    }
  }

  lemma Marked(t: string)
    requires t != "" && !IsWhitespace(t[0])
    ensures var s := "- " + t; s[0] == '-' && s[1] == ' ' && SkipWhitespace(s[1..]) == t
  {
    var s := "- " + t;
    assert s[1..] == " " + t && (" " + t)[1..] == t;
  }

  lemma UnquotedItem(indent: string, e: string)
    requires forall i | 0 <= i < |indent| :: indent[i] == ' '
    requires e != "" && !IsWhitespace(e[0]) && e[0] != '\'' && e[0] != '"'
    ensures ItemText(indent + "- " + e) == e
  {
    assert indent + ("- " + e) == indent + "- " + e;
    Indented(indent, "- " + e);
    Marked(e);
  }

  lemma QuotedItem(indent: string, quote: char, e: string)
    requires (forall i | 0 <= i < |indent| :: indent[i] == ' ') && (quote == '\'' || quote == '"')
    ensures ItemText(indent + "- " + [quote] + e + [quote]) == e
  {
    var t := [quote] + e + [quote];
    assert indent + ("- " + t) == indent + "- " + [quote] + e + [quote];
    Indented(indent, "- " + t);
    Marked(t);
    assert t[1..|t| - 1] == e;
  }

  /** A lone dash is no item, and one in front of nothing but white space is an empty one. */
  lemma DashItems(e: string)
    ensures ItemText("- ") == "" && ItemText("-") == "-"
    ensures e != "" && !IsWhitespace(e[0]) ==> ItemText("-" + e) == "-" + e
  {
    assert "- "[1..] == " " && " "[1..] == "";
  }

  /** Lines that are no items stay as they are. */
  lemma {:induction false} BareBody(lines: seq<string>, last: string)
    requires forall k | 0 <= k < |lines| :: Free(lines[k], '\n') && !IsItem(lines[k])
    requires Free(last, '\n') && !IsItem(last)
    ensures Unwrapped(Unlines(lines) + last) == Unlines(lines) + last
  {
    hide IsItem, Unlines, ItemTexts;
    BareTexts(lines, last);
    if lines == [] {
      UnlinesNothing();
      assert "" + last == last == last[..|last|];
    } else {
      var rest := Unlines(lines[1..]) + last;
      UnlinesHead(lines, last);
      hide Free;
      FindBreak(lines[0], rest);
      assert lines[0] in lines;
    }
  }

  lemma {:induction false} BareTexts(lines: seq<string>, last: string)
    requires forall k | 0 <= k < |lines| :: Free(lines[k], '\n') && !IsItem(lines[k])
    requires Free(last, '\n') && !IsItem(last)
    ensures ItemTexts(Unlines(lines) + last) == Unlines(lines) + last
    decreases |lines|
  {
    hide IsItem, Unlines;
    if lines == [] {
      UnlinesNothing();
      assert "" + last == last;
    } else {
      BareTexts(lines[1..], last);
      UnlinesHead(lines, last);
      FindBreak(lines[0], Unlines(lines[1..]) + last);
    }
  }

  lemma FindBreak(line: string, rest: string)
    requires Free(line, '\n')
    ensures var s := line + "\n" + rest;
            Find(s, '\n') == |line| < |s| && s[..|line|] == line && s[|line| + 1..] == rest
  {
    assert (line + "\n" + rest)[|line|] == '\n';
  }

  lemma UnlinesHead(lines: seq<string>, last: string)
    requires lines != []
    ensures Unlines(lines) + last == lines[0] + "\n" + (Unlines(lines[1..]) + last)
  {
    hide Unlines;
    UnlinesAppend(lines[..1], lines[1..]);
    UnlinesOne(lines[0]);
    assert lines[..1] == [lines[0]] && [lines[0]] + lines[1..] == lines;
  }

  function CidrName(v6: bool): string { if v6 then "IP-CIDR6," else "IP-CIDR," }

  predicate PlainCidr(p: string, v6: bool, isIPv4: string -> bool) {
    Untouched(p) && !Free(p, '/') && (isIPv4(p[..Find(p, '/')]) <==> !v6)
  }

  lemma CidrPrefixes(c: string, p: string)
    ensures "IP-CIDR," + c != "IP-CIDR6," + p
    ensures "IP-CIDR," + c == "IP-CIDR," + p ==> c == p
    ensures "IP-CIDR6," + c == "IP-CIDR6," + p ==> c == p
    ensures |c| <= |p| ==> c != "IP-CIDR," + p && c != "IP-CIDR6," + p
    ensures "DOMAIN," + c != "IP-CIDR," + p && "DOMAIN," + c != "IP-CIDR6," + p
    ensures "DOMAIN-" + c != "IP-CIDR," + p && "DOMAIN-" + c != "IP-CIDR6," + p
  {
    assert ("IP-CIDR," + c)[7] == ',' && ("IP-CIDR6," + p)[7] == '6';
    assert ("IP-CIDR," + c)[8..] == c && ("IP-CIDR," + p)[8..] == p;
    assert ("IP-CIDR6," + c)[9..] == c && ("IP-CIDR6," + p)[9..] == p;
    assert ("IP-CIDR," + p)[0] == 'I' && ("IP-CIDR6," + p)[0] == 'I' && ("DOMAIN," + c)[0] == 'D' && ("DOMAIN-" + c)[0] == 'D';
  }

  /** An address range reads back exactly when it is plain and of the kind its rule says. */
  lemma CidrKept(p: string, v6: bool, isIPv4: string -> bool)
    ensures RuleLine(p, isIPv4) == CidrName(v6) + p <==> PlainCidr(p, v6, isIPv4)
  {
    hide Cleaned, Trim, Contains, DropStars;
    var c := Cleaned(p);
    CleanedIff(p);
    CidrPrefixes(c, p);
    CidrPrefixes(p, c);
    var d := DropStars(c);
    var rest := (if d != c then "KEYWORD," else "SUFFIX,") + Drop(d, if d != "" && d[0] == '.' then 1 else 2);
    CidrPrefixes(rest, p);
    assert "DOMAIN-" + rest == "DOMAIN-" + (if d != c then "KEYWORD," else "SUFFIX,") + Drop(d, if d != "" && d[0] == '.' then 1 else 2);
  }

  // ----- the payload text -----

  lemma ItemBack(e: string)
    ensures IsItem("  - '" + e + "'") && ItemText("  - '" + e + "'") == e
  {
    var line := "  - '" + e + "'";
    assert line[1..] == " - '" + e + "'";
    assert line[1..][1..] == "- '" + e + "'";
    var t := "- '" + e + "'";
    assert SkipWhitespace(t) == t && SkipWhitespace(line[1..]) == t && SkipWhitespace(line) == t;
    var u := t[1..];
    assert u == " '" + e + "'" && u[1..] == "'" + e + "'";
    assert SkipWhitespace(u) == u[1..];
    assert u[1..][1..|u[1..]| - 1] == e;
  }

  lemma {:induction false} ItemsBack(es: seq<string>)
    requires forall k | 0 <= k < |es| :: Free(es[k], '\n')
    ensures ItemTexts(Unlines(Wrapped(es))) == Unlines(es)
    decreases |es|
  {
    hide Unlines, ItemText;
    UnlinesNothing();
    if es == [] {
      NothingWrapped();
      EmptyItem();
    } else {
      var piece, rest := "  - '" + es[0] + "'", es[1..];
      ItemBack(es[0]);
      ItemsBack(rest);
      assert Wrapped(es) == [piece] + Wrapped(rest) && es == [es[0]] + rest;
      UnlinesAppend([piece], Wrapped(rest));
      UnlinesAppend([es[0]], rest);
      UnlinesOne(piece);
      UnlinesOne(es[0]);
      PieceFree(es[0]);
      FirstLine(piece, Unlines(Wrapped(rest)));
      assert es[0] + "\n" + Unlines(rest) == Unlines(es);
    }
  }

  lemma EmptyItem()
    ensures ItemText("") == "" && ItemTexts("") == "" && !IsItem("")
  {
  }

  lemma PieceFree(e: string)
    ensures Free(e, '\n') ==> Free("  - '" + e + "'", '\n')
  {
  }

  lemma FirstLine(line: string, rest: string)
    requires Free(line, '\n')
    ensures var body := line + "\n" + rest;
            body[..Find(body, '\n')] == line && ItemTexts(body) == ItemText(line) + "\n" + ItemTexts(rest)
  {
    hide ItemText;
    var body := line + "\n" + rest;
    assert body[|line|] == '\n' && forall i | 0 <= i < |line| :: body[i] == line[i];
    assert Find(body, '\n') == |line|;
    assert body[..|line|] == line && body[|line| + 1..] == rest;
  }

  /** Reading a payload gives a blank line and the rules of its entries. */
  lemma ReadBack(es: seq<string>, isIPv4: string -> bool)
    requires es != [] && forall k | 0 <= k < |es| :: Free(es[k], '\n')
    ensures Converted("payload:\n" + Unlines(Wrapped(es)), isIPv4) == "\n" + Unlines(RuleLines(es, isIPv4))
  {
    hide Unlines, ItemTexts, IsItem, Lines, RuleLine;
    var body := Unlines(Wrapped(es));
    assert ("payload:\n" + body)[9..] == body;
    var piece, rest := "  - '" + es[0] + "'", es[1..];
    assert Wrapped(es) == [piece] + Wrapped(rest);
    UnlinesAppend([piece], Wrapped(rest));
    UnlinesOne(piece);
    PieceFree(es[0]);
    FirstLine(piece, Unlines(Wrapped(rest)));
    ItemBack(es[0]);
    ItemsBack(es);
    var text := "\n" + Unlines(es);
    assert Unwrapped(body) == text && text[0] == '\n';
    LinesCons("", Unlines(es), '\n');
    assert "" + ['\n'] + Unlines(es) == text;
    LinesOfUnlines(es);
    assert RuleLines([""] + es, isIPv4) == [RuleLine("", isIPv4)] + RuleLines(es, isIPv4);
    BlankRule(isIPv4);
    UnlinesAppend([""], RuleLines(es, isIPv4));
    UnlinesOne("");
  }

  lemma BlankRule(isIPv4: string -> bool)
    ensures RuleLine("", isIPv4) == ""
  {
  }

  // ----- whole lists -----

  /** A Surge rule with whatever follows its pattern, or any other line. */
  datatype Rule = Domain(pattern: string, rest: string) | Suffix(pattern: string, rest: string)
                | Cidr(v6: bool, pattern: string, rest: string) | Plain(line: string)

  function Name(r: Rule): string
    requires !r.Plain?
  {
    match r
    case Domain(_, _) => "DOMAIN"
    case Suffix(_, _) => "DOMAIN-SUFFIX"
    case Cidr(v6, _, _) => if v6 then "IP-CIDR6" else "IP-CIDR"
  }

  function Line(r: Rule): string { if r.Plain? then r.line else Name(r) + "," + r.pattern + r.rest }

  predicate Selected(r: Rule, kind: Kind) { if kind.DomainPayload? then r.Domain? || r.Suffix? else r.Cidr? }

  /** The pattern is the whole second field of a line without a comment. */
  predicate LineOk(r: Rule) {
    && Free(Line(r), '\n')
    && if r.Plain? then !IsPrinted(WithoutComment(r.line), DomainPayload) && !IsPrinted(WithoutComment(r.line), IpcidrPayload)
       else Free(r.pattern, ',') && !Contains(Line(r), "//") && (r.rest == "" || r.rest[0] == ',')
            && (r.rest == "" ==> Line(r)[|Line(r)| - 1] != '\r')
  }

  predicate PatternOk(r: Rule, isIPv4: string -> bool) {
    match r
    case Domain(p, _) => PlainDomain(p)
    case Suffix(p, _) => PlainSuffix(p)
    case Cidr(v6, p, _) => PlainCidr(p, v6, isIPv4)
    case Plain(_) => true
  }

  function EntryOf(r: Rule): string
    requires !r.Plain?
  {
    (if r.Suffix? then "+." else "") + r.pattern
  }

  lemma NameFacts(r: Rule)
    requires !r.Plain?
    ensures Free(Name(r), ',') && |Name(r)| >= 6 && (Name(r)[|Name(r)| - 1] == 'X' <==> r.Suffix?)
    ensures forall t: string :: IsPrinted(Name(r) + "," + t, DomainPayload) <==> r.Domain? || r.Suffix?
    ensures forall t: string :: IsPrinted(Name(r) + "," + t, IpcidrPayload) <==> r.Cidr?
  {
    forall t: string
      ensures IsPrinted(Name(r) + "," + t, DomainPayload) <==> r.Domain? || r.Suffix?
      ensures IsPrinted(Name(r) + "," + t, IpcidrPayload) <==> r.Cidr?
    {
      var line := Name(r) + "," + t;
      assert line[..|Name(r)| + 1] == Name(r) + ",";
      assert "DOMAIN" + "," == "DOMAIN," && "DOMAIN-SUFFIX" + "," == "DOMAIN-SUFFIX,";
      assert "IP-CIDR" + "," == "IP-CIDR," && "IP-CIDR6" + "," == "IP-CIDR6,";
      assert r.Cidr? ==> line[0] == 'I';
      assert !r.Cidr? ==> line[0] == 'D';
    }
  }

  lemma TwoFields(a: string, b: string, rest: string)
    requires Free(a, ',') && Free(b, ',') && (rest == "" || rest[0] == ',')
    requires var s := a + "," + b + rest; rest == "" ==> s[|s| - 1] != '\r'
    ensures var s := a + "," + b + rest;
            SecondField(s) == Some((|a| + 1, |b|)) && s[|a| + 1..|a| + 1 + |b|] == b
  {
    var s, n := a + "," + b + rest, |a| + 1;
    assert s[n - 1] == ',' && forall i | 0 <= i < |a| :: s[i] == a[i];
    assert s[n..n + |b|] == b;
    forall i | n <= i < n + |b| ensures s[i] != ',' { assert s[i] == b[i - n]; }
    assert rest != "" ==> s[n + |b|] == rest[0];
  }

  /** The second field of a rule line is its pattern. */
  lemma FieldOf(r: Rule)
    requires LineOk(r) && !r.Plain?
    ensures SecondField(Line(r)) == Some((|Name(r)| + 1, |r.pattern|))
    ensures Line(r)[|Name(r)| + 1..|Name(r)| + 1 + |r.pattern|] == r.pattern
  {
    hide Contains, Name, SecondField, IsPrinted;
    NameFacts(r);
    TwoFields(Name(r), r.pattern, r.rest);
  }

  lemma EntryBack(r: Rule, kind: Kind)
    requires LineOk(r)
    ensures Entry(Line(r), kind) == if !r.Plain? && Selected(r, kind) then Some(EntryOf(r)) else None
  {
    hide WithoutComment, SecondField, IsPrinted, Contains, Free, Name;
    if !r.Plain? {
      var line := Line(r);
      CommentIff(line);
      NameFacts(r);
      FieldOf(r);
      assert line == Name(r) + "," + (r.pattern + r.rest);
      assert line[|Name(r)| - 1] == Name(r)[|Name(r)| - 1];
    }
  }

  /** A line ends at a comment, without the white space in front of it. */
  lemma CommentDropped(head: string, comment: string)
    requires forall i | 0 <= i < |head| :: head[i] != '/'
    ensures WithoutComment(head + "//" + comment) == TrimWhitespace(head)
  {
    hide TrimWhitespace;
    var s := head + "//" + comment;
    assert OccursAt(s, "//", |head|) && s[..|head|] == head;
    forall j | 0 <= j < |head| ensures !OccursAt(s, "//", j) {
      assert j + 2 <= |s| ==> s[j..j + 2][0] == head[j];
    }
  }

  /** The carriage return of a line without options is no part of the pattern. */
  lemma ReturnDropped(r: Rule)
    requires !r.Plain? && r.rest == "\r" && Free(r.pattern, ',') && !Contains(Line(r), "//")
    ensures forall kind :: Entry(Line(r), kind) == if Selected(r, kind) then Some(EntryOf(r)) else None
  {
    hide WithoutComment, SecondField, IsPrinted, Contains, Free, Name;
    var line := Line(r);
    CommentIff(line);
    NameFacts(r);
    FieldBeforeReturn(Name(r), r.pattern);
    assert line == Name(r) + "," + (r.pattern + r.rest);
    assert line[|Name(r)| - 1] == Name(r)[|Name(r)| - 1];
  }

  lemma FieldBeforeReturn(a: string, b: string)
    requires Free(a, ',') && Free(b, ',')
    ensures var s := a + "," + b + "\r";
            SecondField(s) == Some((|a| + 1, |b|)) && s[|a| + 1..|a| + 1 + |b|] == b
  {
    var s, n := a + "," + b + "\r", |a| + 1;
    assert s[n - 1] == ',' && forall i | 0 <= i < |a| :: s[i] == a[i];
    assert s[n..n + |b|] == b && s[n + |b|] == '\r';
    forall i | n <= i < n + |b| ensures s[i] != ',' { assert s[i] == b[i - n]; }
  }

  function RulesText(rules: seq<Rule>): seq<string> { seq(|rules|, k requires 0 <= k < |rules| => Line(rules[k])) }

  /** The rules of the kind, without what follows their patterns. */
  function Expected(rules: seq<Rule>, kind: Kind): seq<string> {
    if rules == [] then [] else
    var r := rules[|rules| - 1];
    Expected(rules[..|rules| - 1], kind) + if !r.Plain? && Selected(r, kind) then [Name(r) + "," + r.pattern] else []
  }

  /** Every printed pattern is one that reads back. */
  predicate AllKept(rules: seq<Rule>, kind: Kind, isIPv4: string -> bool) {
    forall k | 0 <= k < |rules| && Selected(rules[k], kind) :: PatternOk(rules[k], isIPv4)
  }

  lemma {:induction false} EntriesBack(rules: seq<Rule>, kind: Kind, isIPv4: string -> bool)
    requires forall k | 0 <= k < |rules| :: LineOk(rules[k])
    ensures var es, expected := Entries(RulesText(rules), kind), Expected(rules, kind);
            && |es| == |expected|
            && (RuleLines(es, isIPv4) == expected <==> AllKept(rules, kind, isIPv4))
            && (forall k | 0 <= k < |es| :: Free(es[k], '\n'))
            && (forall k | 0 <= k < |es| :: Free(expected[k], '\n'))
  {
    hide LineOk, PatternOk, Entry, RuleLine, Line, Name;
    if rules != [] {
      hide AllKept, Free;
      var n := |rules| - 1;
      var r, most := rules[n], rules[..n];
      EntriesBack(most, kind, isIPv4);
      EntryBack(r, kind);
      assert RulesText(rules)[..n] == RulesText(most);
      KeptSnoc(rules, kind, isIPv4);
      if !r.Plain? && Selected(r, kind) {
        EntryRule(r, isIPv4);
        var es, expected := Entries(RulesText(most), kind), Expected(most, kind);
        assert RuleLines(es + [EntryOf(r)], isIPv4) == RuleLines(es, isIPv4) + [RuleLine(EntryOf(r), isIPv4)];
        SameSnoc(RuleLines(es, isIPv4), RuleLine(EntryOf(r), isIPv4), expected, Name(r) + "," + r.pattern);
        assert Entries(RulesText(rules), kind) == es + [EntryOf(r)];
      } else {
        assert Entries(RulesText(rules), kind) == Entries(RulesText(most), kind);
        assert Expected(rules, kind) == Expected(most, kind);
      }
    }
  }

  lemma KeptSnoc(rules: seq<Rule>, kind: Kind, isIPv4: string -> bool)
    requires rules != []
    ensures var n := |rules| - 1;
            AllKept(rules, kind, isIPv4) <==>
              AllKept(rules[..n], kind, isIPv4) && (Selected(rules[n], kind) ==> PatternOk(rules[n], isIPv4))
  {
    hide PatternOk, Selected;
    var n := |rules| - 1;
    assert forall k | 0 <= k < n :: rules[..n][k] == rules[k];
  }

  lemma SameSnoc(a: seq<string>, x: string, b: seq<string>, y: string)
    requires |a| == |b|
    ensures a + [x] == b + [y] <==> a == b && x == y
  {
    assert (a + [x])[..|a|] == a && (a + [x])[|a|] == x && (b + [y])[..|a|] == b && (b + [y])[|a|] == y;
  }

  lemma EntryRule(r: Rule, isIPv4: string -> bool)
    requires !r.Plain? && LineOk(r)
    ensures RuleLine(EntryOf(r), isIPv4) == Name(r) + "," + r.pattern <==> PatternOk(r, isIPv4)
    ensures Free(EntryOf(r), '\n') && Free(Name(r) + "," + r.pattern, '\n')
  {
    hide RuleLine, PlainDomain, PlainSuffix, PlainCidr, LineOk;
    var p := r.pattern;
    PatternFree(r);
    assert "DOMAIN" + "," == "DOMAIN," && "DOMAIN-SUFFIX" + "," == "DOMAIN-SUFFIX,";
    assert "IP-CIDR" + "," == "IP-CIDR," && "IP-CIDR6" + "," == "IP-CIDR6,";
    assert "" + p == p;
    match r {
      case Domain(_, _) => DomainKept(p, isIPv4);
      case Suffix(_, _) => SuffixKept(p, isIPv4);
      case Cidr(v6, _, _) => CidrKept(p, v6, isIPv4);
    }
  }

  lemma PatternFree(r: Rule)
    requires !r.Plain? && LineOk(r)
    ensures Free(EntryOf(r), '\n') && Free(Name(r) + "," + r.pattern, '\n')
  {
    hide Contains, Name;
    var n := |Name(r)| + 1;
    assert Name(r) + "," + r.pattern <= Line(r);
    forall i | 0 <= i < |r.pattern| ensures r.pattern[i] != '\n' { assert Line(r)[n + i] == r.pattern[i]; }
  }

  // ----- what is read has no line breaks -----

  lemma {:induction false} SpacesFree(s: string)
    requires Free(s, '\n')
    ensures Free(SkipSpaces(s), '\n')
  {
    if s != "" && s[0] == ' ' { SpacesFree(s[1..]); }
  }

  lemma CleanedFree(e: string)
    requires Free(e, '\n')
    ensures Free(Cleaned(e), '\n')
  {
    hide TrimWhitespace;
    SpacesFree(e);
    DropShrinks(SkipSpaces(e));
    var t := Trim(e);
    assert Free(t, '\n');
    var b := if t != "" && t[|t| - 1] == '\r' then t[..|t| - 1] else t;
    var at := FindString(b, "//", 0);
    if at <= |b| { TrimShrinks(b[..at]); }
  }

  lemma RuleLineFree(e: string, isIPv4: string -> bool)
    requires Free(e, '\n')
    ensures Free(RuleLine(e, isIPv4), '\n')
  {
    hide Cleaned;
    CleanedFree(e);
    RuledFree(Cleaned(e), isIPv4);
  }

  lemma RuledFree(c: string, isIPv4: string -> bool)
    requires Free(c, '\n')
    ensures Free(Ruled(c, isIPv4), '\n')
  {
    hide DropStars, Drop;
    SuffixRuleFree(c);
    FreeAfter("DOMAIN,", c);
    FreeAfter("IP-CIDR,", c);
    FreeAfter("IP-CIDR6,", c);
    hide Free;
  }

  lemma SuffixRuleFree(c: string)
    requires Free(c, '\n')
    ensures var d := DropStars(c);
            Free("DOMAIN-" + (if d != c then "KEYWORD," else "SUFFIX,") + Drop(d, if d != "" && d[0] == '.' then 1 else 2), '\n')
  {
    hide DropStars;
    StarsShrink(c);
    var d := DropStars(c);
    var rest := Drop(d, if d != "" && d[0] == '.' then 1 else 2);
    FreeAfter("DOMAIN-" + "KEYWORD,", rest);
    FreeAfter("DOMAIN-" + "SUFFIX,", rest);
  }

  lemma FreeAfter(head: string, tail: string)
    requires Free(head, '\n') && Free(tail, '\n')
    ensures Free(head + tail, '\n')
  {
  }

  /** Printing a list of rules as a payload and reading it back gives its rules of that
      kind, in order, without what followed the patterns, exactly if each of their
      patterns is one that reads back. */
  lemma RoundTrip(rules: seq<Rule>, kind: Kind, isIPv4: string -> bool)
    requires forall k | 0 <= k < |rules| :: LineOk(rules[k])
    requires Expected(rules, kind) != []
    ensures var payload := PayloadText(Unlines(RulesText(rules)), kind);
            && "payload:\n" <= payload
            && (Converted(payload, isIPv4) == "\n" + Unlines(Expected(rules, kind)) <==> AllKept(rules, kind, isIPv4))
  {
    hide LineOk, AllKept, Unlines, Lines, Entries, Converted, RuleLine, Expected, Line;
    EntriesBack(rules, kind, isIPv4);
    var lines := RulesText(rules);
    var text, es := Unlines(lines), Entries(lines, kind);
    forall k | 0 <= k < |lines| ensures Free(lines[k], '\n') { LineIsOne(rules[k]); }
    LinesOfUnlines(lines);
    NothingExpected(kind);
    assert text[|text| - 1] == '\n';
    assert LineBreak(text) == '\n';
    ReadBack(es, isIPv4);
    SameText(RuleLines(es, isIPv4), Expected(rules, kind)) by {
      forall k | 0 <= k < |es| ensures Free(RuleLine(es[k], isIPv4), '\n') { RuleLineFree(es[k], isIPv4); }
    }
  }

  function PlaceholderEntry(kind: Kind): string { if kind.DomainPayload? then "--placeholder--" else "0.0.0.0/32" }

  /** With nothing to print, what is read back is the rule of the placeholder. */
  lemma PlaceholderBack(rules: seq<Rule>, kind: Kind, isIPv4: string -> bool)
    requires (forall k | 0 <= k < |rules| :: LineOk(rules[k])) && Expected(rules, kind) == []
    ensures var payload := PayloadText(Unlines(RulesText(rules)), kind);
            && "payload:\n" <= payload
            && Converted(payload, isIPv4) == "\n" +
                 (if kind.DomainPayload? then "DOMAIN,--placeholder--\n"
                  else CidrName(!isIPv4("0.0.0.0")) + "0.0.0.0/32\n")
  {
    hide LineOk, Unlines, Lines, Entries, RuleLine, Expected, Line, LineBreak, Unwrapped;
    EntriesBack(rules, kind, isIPv4);
    var lines, e := RulesText(rules), PlaceholderEntry(kind);
    forall k | 0 <= k < |lines| ensures Free(lines[k], '\n') { LineIsOne(rules[k]); }
    PlaceholderText(lines, kind);
    PlaceholderUnwrapped(kind);
    PlaceholderRule(kind, isIPv4);
    BlankRule(isIPv4);
    var line := RuleLine(e, isIPv4);
    assert RuleLines(["", e], isIPv4) == [""] + [line];
    UnlinesAppend([""], [line]);
    UnlinesOne("");
    UnlinesOne(line);
  }

  lemma PlaceholderText(lines: seq<string>, kind: Kind)
    requires (forall k | 0 <= k < |lines| :: Free(lines[k], '\n')) && Entries(lines, kind) == []
    ensures PayloadText(Unlines(lines), kind) == "payload:\n" + Placeholder(kind)
    ensures ("payload:\n" + Placeholder(kind))[9..] == "  - '" + PlaceholderEntry(kind) + "'"
  {
    hide Entry, Lines;
    assert "  - '--placeholder--'" == "  - '" + "--placeholder--" + "'";
    assert "  - '0.0.0.0/32'" == "  - '" + "0.0.0.0/32" + "'";
    var text := Unlines(lines);
    if lines == [] {
      NoLines(LineBreak(text));
      UnlinesNothing();
    } else {
      LinesOfUnlines(lines);
      assert text[|text| - 1] == '\n';
    }
  }

  lemma PlaceholderUnwrapped(kind: Kind)
    ensures var text := Unwrapped("  - '" + PlaceholderEntry(kind) + "'");
            Lines(text, LineBreak(text)) == ["", PlaceholderEntry(kind)]
  {
    hide Lines, ItemText, IsItem;
    var e := PlaceholderEntry(kind);
    var piece := "  - '" + e + "'";
    ItemBack(e);
    assert Free(e, '\n');
    PieceFree(e);
    assert Find(piece, '\n') == |piece| && piece[..|piece|] == piece;
    var text := "\n" + e;
    assert Unwrapped(piece) == text && text[0] == '\n';
    LinesCons("", e, '\n');
    assert "" + ['\n'] + e == text;
    LastLine(e);
  }

  lemma LastLine(e: string)
    requires e != "" && Free(e, '\n')
    ensures Lines(e, '\n') == [e]
  {
    assert e[..|e|] == e;
  }

  lemma PlaceholderRule(kind: Kind, isIPv4: string -> bool)
    ensures var line := RuleLine(PlaceholderEntry(kind), isIPv4) + "\n";
            line == if kind.DomainPayload? then "DOMAIN,--placeholder--\n"
                    else CidrName(!isIPv4("0.0.0.0")) + "0.0.0.0/32\n"
  {
    hide RuleLine, PlainDomain, PlainCidr;
    if kind.DomainPayload? {
      PlainPlaceholder();
      DomainKept("--placeholder--", isIPv4);
      assert "DOMAIN," + "--placeholder--" + "\n" == "DOMAIN,--placeholder--\n";
    } else {
      PlainRange(isIPv4);
      CidrKept("0.0.0.0/32", !isIPv4("0.0.0.0"), isIPv4);
    }
  }

  lemma PlainPlaceholder()
    ensures PlainDomain("--placeholder--")
  {
    var p := "--placeholder--";
    assert p[0] == '-' && p[|p| - 1] == '-';
    NoSlashes(p);
  }

  lemma PlainRange(isIPv4: string -> bool)
    ensures PlainCidr("0.0.0.0/32", !isIPv4("0.0.0.0"), isIPv4)
  {
    var p := "0.0.0.0/32";
    assert p[0] == '0' && p[|p| - 1] == '2' && p[7] == '/';
    NoSlashes(p);
    assert p[..Find(p, '/')] == "0.0.0.0";
  }

  lemma NoSlashes(p: string)
    requires forall i | 0 <= i < |p| - 1 :: p[i] != '/' || p[i + 1] != '/'
    ensures !Contains(p, "//")
  {
    forall i | 0 <= i <= |p| ensures !OccursAt(p, "//", i) {
      if i + 2 <= |p| { assert p[i..i + 2][0] == p[i] && p[i..i + 2][1] == p[i + 1]; }
    }
  }

  lemma SameText(a: seq<string>, b: seq<string>)
    requires forall k | 0 <= k < |a| :: Free(a[k], '\n')
    requires forall k | 0 <= k < |b| :: Free(b[k], '\n')
    ensures "\n" + Unlines(a) == "\n" + Unlines(b) <==> a == b
  {
    hide Unlines;
    LinesOfUnlines(a);
    LinesOfUnlines(b);
    assert ("\n" + Unlines(a))[1..] == Unlines(a) && ("\n" + Unlines(b))[1..] == Unlines(b);
  }

  lemma LineIsOne(r: Rule)
    requires LineOk(r)
    ensures Free(Line(r), '\n')
  {
  }

  lemma NothingExpected(kind: Kind)
    ensures Expected([], kind) == []
  {
  }
}
