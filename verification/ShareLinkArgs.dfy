/** What the arguments of a link mean to the parsers, whoever printed the link, and which
    nodes are printed as which links. */
module ShareLinkArgs {
  import opened Common
  import opened StringUtil
  import opened Regex
  import opened UrlArgs
  import opened UrlEncoding
  import opened Base64
  import opened ShareLinks
  import opened ShareLinksRoundTrip

  // ----- trojan:// -----

  /** An argument of a query is the last value of its key. */
  lemma TrojanFields(login: Login, pairs: seq<Pair>, remark: string)
    requires PairsOk(pairs)
    ensures var n := TrojanFilled(login, Query(pairs), remark);
            var sni, group, ws := LastValue(pairs, "sni"), UrlDecoded(LastValue(pairs, "group")), LastValue(pairs, "ws") == "1";
            && n.kind == Trojan && n.tlsSecure
            && n.password == login.secret && n.hostname == login.server && n.port == ToPort(login.port)
            && n.remark == (if remark != "" then remark else login.server + ":" + login.port)
            && n.group == (if group != "" then group else "TrojanProvider")
            && n.host == (if sni != "" then sni else LastValue(pairs, "peer"))
            && n.transport == (if ws then "ws" else "tcp") && n.path == (if ws then LastValue(pairs, "wspath") else "")
            && n.tfo == ToTribool(LastValue(pairs, "tfo")) && n.allowInsecure == ToTribool(LastValue(pairs, "allowInsecure"))
  {
    hide UrlArg, Query, LastValue, PairsOk, KeyOk, UrlDecoded, ToPort, ToTribool;
    FlagsOk();
    OtherKeysOk();
    QueryArg(pairs, "sni");
    QueryArg(pairs, "peer");
    QueryArg(pairs, "tfo");
    QueryArg(pairs, "group");
    QueryArg(pairs, "allowInsecure");
    QueryArg(pairs, "ws");
    QueryArg(pairs, "wspath");
  }

  lemma FlagTexts()
    ensures ToTribool("true") == ToTribool("1") == Yes && ToTribool("false") == ToTribool("0") == No
    ensures ToTribool("") == ToTribool("x") == ToTribool("01") == Undef && ToTribool("2") == Yes
  {
    assert "01"[1..] == "1" && "1"[1..] == "";
    assert LeadingDigits("1") == "1" && LeadingDigits("01") == "01" && "01"[..1] == "0";
    assert FromDecimal("01") == 1;
    assert "2"[1..] == "";
    assert LeadingDigits("2") == "2";
  }

  /** The text of a Trojan link with any arguments. */
  lemma TrojanText(x: Proxy, pairs: seq<Pair>)
    requires TrojanOk(x) && Free(Query(pairs), '#')
    ensures TrojanNode(x.password + "@" + Endpoint(x) + "?" + Query(pairs) + "#" + UrlEncoded(x.remark))
            == TrojanFilled(Login(x.password, x.hostname, ToDecimal(x.port)), Query(pairs), x.remark)
  {
    hide UrlEncoded, UrlDecoded, Query, TrojanLogin, ToDecimal, TrojanFilled, Before, After, TrojanOk, Endpoint, Calm;
    var a, q, e := x.password + "@" + Endpoint(x), Query(pairs), UrlEncoded(x.remark);
    var main := a + ['?'] + q;
    var text := x.password + "@" + Endpoint(x) + "?" + q + "#" + e;
    assert text == main + ['#'] + e;
    EncodedCalm(x.remark);
    CalmFree(e);
    CutLast(main, '#', e);
    TrojanLoginBack(x);
    Cut(a, '?', q);
    TrojanPortOk(x);
    UrlRoundTrip(x.remark) by { TrojanBytes(x); }
  }

  /** Without arguments and remark all of them are empty. */
  lemma TrojanBare(x: Proxy)
    requires TrojanOk(x) && Free(x.password, '#')
    ensures TrojanNode(x.password + "@" + Endpoint(x)) == TrojanFilled(Login(x.password, x.hostname, ToDecimal(x.port)), "", "")
  {
    hide UrlDecoded, TrojanLogin, ToDecimal, TrojanFilled, Endpoint, Calm;
    var a := x.password + "@" + Endpoint(x);
    TrojanLoginBack(x);
    TrojanPortOk(x);
    EndpointCalm(x);
    CalmFree(Endpoint(x));
    assert Free(a, '#');
    assert FindLast(a, '#', |a|) == |a| && a[..|a|] == a;
    Uncut(a, '?');
  }

  lemma TrojanBytes(x: Proxy)
    requires TrojanOk(x)
    ensures IsBytes(x.remark)
  {
  }

  // ----- ss:// -----

  /** The text of an SS link with any arguments: a plugin and its options are parted by the
      first ';', and the group is base64. */
  lemma SsText(x: Proxy, pairs: seq<Pair>)
    requires SsOk(x) && PairsOk(pairs) && Free(Query(pairs), '#') && Free(Query(pairs), '/')
    ensures var n, plugin := SsNode(SsAddress(x) + "?" + Query(pairs) + "#" + UrlEncoded(x.remark)), UrlDecoded(LastValue(pairs, "plugin"));
            && n.(group := "", plugin := "", pluginOption := "") == CameBack(x, SS, "").(cipher := x.cipher)
            && n.group == UrlSafeDecode(LastValue(pairs, "group"))
            && forall a, b | Free(a, ';') && (plugin == a + ";" + b || (plugin == a && b == a)) :: n.plugin == a && n.pluginOption == b
  {
    hide Replace, B64, Calm, UrlEncoded, UrlDecoded, UrlArg, UrlSafeDecode, SsLogin, CipherAndPassword, Search, ToPort, ToDecimal,
         Before, After, Endpoint, Query, LastValue, PairsOk, KeyOk, SsAddress;
    var text := SsAddress(x) + "?" + Query(pairs) + "#" + UrlEncoded(x.remark);
    SsTextCut(x, Query(pairs));
    SsLoginBack(x);
    B64Back(x.cipher + ":" + x.password);
    SecretBack(x);
    PortBack(x.port);
    UrlRoundTrip(x.remark);
    PluginKey();
    OtherKeysOk();
    QueryArg(pairs, "plugin");
    QueryArg(pairs, "group");
    var plugin := UrlDecoded(LastValue(pairs, "plugin"));
    assert x.hostname + ":" + ToDecimal(x.port) == Endpoint(x) by { EndpointIs(x); }
    forall a, b | Free(a, ';') && (plugin == a + ";" + b || (plugin == a && b == a))
      ensures SsNode(text).plugin == a && SsNode(text).pluginOption == b
    {
      PluginCut(plugin, a, b);
    }
  }

  lemma PluginKey()
    ensures KeyOk("plugin")
  {
  }

  lemma PluginCut(plugin: string, a: string, b: string)
    requires Free(a, ';') && (plugin == a + ";" + b || (plugin == a && b == a))
    ensures Before(plugin, ';') == a && (if Find(plugin, ';') < |plugin| then After(plugin, ';') else plugin) == b
  {
    if plugin == a + ";" + b {
      assert plugin == a + [';'] + b;
      Cut(a, ';', b);
    } else {
      Uncut(a, ';');
    }
  }

  lemma SsTextCut(x: Proxy, q: string)
    requires SsOk(x) && Free(q, '#') && Free(q, '/')
    ensures var text := SsAddress(x) + "?" + q + "#" + UrlEncoded(x.remark);
            var main := Before(text, '#');
            && Replace(text, "/?", "?") == text && After(text, '#') == UrlEncoded(x.remark)
            && Find(main, '?') < |main| && Before(main, '?') == SsAddress(x) && After(main, '?') == q
  {
    hide Replace, Calm, UrlEncoded, SsAddress, SsOk;
    var a, e := SsAddress(x), UrlEncoded(x.remark);
    SsAddressCalm(x);
    CalmFree(a);
    EncodedCalm(x.remark);
    CalmFree(e);
    var main := a + ['?'] + q;
    var text := a + "?" + q + "#" + e;
    assert text == main + ['#'] + e;
    assert Free(text, '/');
    ReplaceAbsent(text, "/?", "?");
    Cut(main, '#', e);
    Cut(a, '?', q);
  }

  // ----- ssr:// -----

  /** The text of an SSR link with any arguments, all of them base64. */
  lemma SsrText(x: Proxy, pairs: seq<Pair>)
    requires SsrOk(x, false) && PairsOk(pairs) && IsBytes(SsrPlain(x, pairs)) && |SsrPlain(x, pairs)| < TWO_32
    ensures var n := SsrNode(B64(SsrPlain(x, pairs)));
            var group, remark := UrlSafeDecode(LastValue(pairs, "group")), UrlSafeDecode(LastValue(pairs, "remarks"));
            && n.hostname == x.hostname && n.port == x.port && n.cipher == x.cipher && n.password == x.password
            && n.group == (if group != "" then group else "SSRProvider")
            && n.remark == (if remark != "" then remark else x.hostname + ":" + ToDecimal(x.port))
            && if x.protocol == "origin" && x.obfs == "plain" && x.cipher in SS_CIPHERS
               then n.kind == SS && n.protocol == n.obfs == n.obfsParam == n.protocolParam == ""
               else n.kind == SSR && n.protocol == x.protocol && n.obfs == x.obfs
                    && n.obfsParam == WithoutSpaces(UrlSafeDecode(LastValue(pairs, "obfsparam")))
                    && n.protocolParam == WithoutSpaces(UrlSafeDecode(LastValue(pairs, "protoparam")))
  {
    hide Replace, B64, Calm, UrlArg, UrlSafeDecode, SsrFields, ToPort, ToDecimal, Query, SsrBody, WithoutSpaces, FindString,
         LastValue, PairsOk, KeyOk, IsBytes, SsrPairs;
    var body, q, plain := SsrBody(x), Query(pairs), SsrPlain(x, pairs);
    PlainDecoded(plain);
    SsrFieldsBack(x, false);
    CalmFree(body);
    FindOnce(body, "/?", q);
    assert plain[..|body|] == body && plain[|body| + 2..] == q;
    SsrKeysOk();
    QueryArg(pairs, "group");
    QueryArg(pairs, "remarks");
    QueryArg(pairs, "obfsparam");
    QueryArg(pairs, "protoparam");
    B64Back(x.password);
    PortBack(x.port);
  }

  /** Without arguments they are all empty. */
  lemma SsrBare(x: Proxy)
    requires SsrOk(x, false) && |SsrBody(x)| < TWO_32 - 2
    ensures SsrNode(B64(SsrBody(x))) == SsrNode(B64(SsrPlain(x, [])))
  {
    hide Replace, B64, Calm, UrlArg, UrlSafeDecode, SsrFields, ToPort, ToDecimal, SsrBody, WithoutSpaces, FindString, IsBytes;
    var body, plain := SsrBody(x), SsrPlain(x, []);
    SsrFieldsBack(x, false);
    CalmFree(body);
    assert plain == body + "/?" + "" && IsBytes(plain) by { SlashBytes(body); }
    PlainDecoded(body);
    PlainDecoded(plain);
    FindOnce(body, "/?", "");
    assert plain[..|body|] == body && plain[|body| + 2..] == "";
    NoSlash(body);
  }

  lemma SlashBytes(s: string)
    requires IsBytes(s)
    ensures IsBytes(s + "/?" + "")
  {
  }

  lemma PlainDecoded(s: string)
    requires IsBytes(s) && |s| < TWO_32
    ensures UrlSafeDecode(Replace(B64(s), "\r", "")) == s
  {
    hide B64, Replace, UrlSafeDecode, Calm;
    B64Calm(s);
    CalmFree(B64(s));
    ReplaceAbsent(B64(s), "\r", "");
    B64Back(s);
  }

  lemma NoSlash(s: string)
    requires Free(s, '/')
    ensures FindString(s, "/?", 0) == |s| + 1
  {
    forall i | 0 <= i <= |s| ensures !OccursAt(s, "/?", i) {
      if i + 2 <= |s| { assert s[i..i + 2][0] == s[i]; }
    }
  }

  /** White space goes wherever it stands in a parameter. */
  lemma SpacesGo(a: string, w: string, b: string)
    requires (forall i | 0 <= i < |w| :: IsWhitespace(w[i])) && NoSpace(a) && NoSpace(b)
    ensures WithoutSpaces(a + w + b) == a + b
  {
    hide WithoutSpaces, NoSpace;
    WithoutAppend(a + w, b);
    WithoutAppend(a, w);
    NothingToDrop(a);
    NothingToDrop(b);
    OnlySpaces(w);
    assert a + "" + b == a + b;
  }

  lemma {:induction false} WithoutAppend(a: string, b: string)
    ensures WithoutSpaces(a + b) == WithoutSpaces(a) + WithoutSpaces(b)
  {
    if a == "" {
      assert "" + b == b;
    } else {
      assert (a + b)[0] == a[0] && (a + b)[1..] == a[1..] + b;
      WithoutAppend(a[1..], b);
    }
  }

  lemma {:induction false} OnlySpaces(w: string)
    requires forall i | 0 <= i < |w| :: IsWhitespace(w[i])
    ensures WithoutSpaces(w) == ""
  {
    if w != "" { OnlySpaces(w[1..]); }
  }

  function SsrPlain(x: Proxy, pairs: seq<Pair>): string { SsrBody(x) + "/?" + Query(pairs) }

  // ----- the kinds that are asked for -----

  /** The number of a choice of kinds; there are more kinds that this model leaves out. */
  function Types(ss: bool, ssr: bool, vmess: bool, trojan: bool, more: nat): int {
    (if ss then 1 else 0) + (if ssr then 2 else 0) + (if vmess then 4 else 0) + (if trojan then 8 else 0) + 16 * more
  }

  lemma BitsOf(ss: bool, ssr: bool, vmess: bool, trojan: bool, more: nat)
    ensures var types := Types(ss, ssr, vmess, trojan, more);
            && (Bit(types, 1) <==> ss) && (Bit(types, 2) <==> ssr) && (Bit(types, 3) <==> vmess) && (Bit(types, 4) <==> trojan)
  {
    var a, b, c, d := if ss then 1 else 0, if ssr then 1 else 0, if vmess then 1 else 0, if trojan then 1 else 0;
    var types := a + 2 * b + 4 * c + 8 * d + 16 * more;
    Digits(a, b + 2 * c + 4 * d + 8 * more, types);
    Digits(b, c + 2 * d + 4 * more, types / 2);
    Digits(c, d + 2 * more, types / 4) by { Twice(types); }
    Digits(d, more, types / 8) by { Twice(types); }
  }

  lemma Digits(low: int, high: int, n: int)
    requires 0 <= low <= 1 && n == low + 2 * high
    ensures n % 2 == low && n / 2 == high
  {
  }

  lemma Twice(n: int)
    requires n >= 0
    ensures n / 4 == n / 2 / 2 && n / 8 == n / 2 / 2 / 2
  {
  }

  /** A node is printed in its own form if that is asked for, and otherwise in the other one
      of SS and SSR, if that is asked for and can say the same. */
  lemma PrintedKinds(x: Proxy, ss: bool, ssr: bool, vmess: bool, trojan: bool, more: nat)
    ensures var how := HowPrinted(x, Types(ss, ssr, vmess, trojan, more));
            match x.kind
            case SS =>
              && (ss ==> how == AsSS(x)) && (!ss && !ssr ==> how == Skip)
              && (!ss && ssr && x.cipher in SSR_CIPHERS && x.plugin == "" ==>
                    how == AsSSR(x.(protocol := "origin", obfs := "plain"), false))
            case SSR =>
              && (ssr ==> how == AsSSR(x, true)) && (!ss && !ssr ==> how == Skip)
              && (!ssr && ss && x.cipher in SS_CIPHERS && x.protocol == "origin" && x.obfs == "plain" ==>
                    how == AsSS(x.(plugin := "")))
            case Trojan => how == if trojan then AsTrojan(x) else Skip
            case _ => how == Skip
  {
    BitsOf(ss, ssr, vmess, trojan, more);
    hide Types, Bit;
  }

  /** No kind at all is asked for by 0 and by negative numbers. */
  lemma NothingAsked(x: Proxy, types: int)
    requires types < 1
    ensures HowPrinted(x, types) == Skip
  {
  }

  // ----- numbers -----

  /** atoi: a number with or without a sign, and anything after it. */
  lemma NumberTexts(n: nat, rest: string)
    requires rest != "" ==> !IsDigit(rest[0])
    ensures var t := ToDecimal(n) + rest; ToInt(t) == ToInt("+" + t) == n && ToInt("-" + t) == 0 - n
  {
    hide ToDecimal;
    Leading(n, rest);
    Signs(n, ToDecimal(n) + rest);
  }

  lemma Signs(n: nat, t: string)
    requires t != "" && IsDigit(t[0]) && FromDecimal(LeadingDigits(t)) == n
    ensures ToInt(t) == ToInt("+" + t) == n && ToInt("-" + t) == 0 - n
  {
    hide LeadingDigits, FromDecimal;
    assert ("+" + t)[1..] == t && ("-" + t)[1..] == t;
  }

  /** What starts with no number is 0. */
  lemma NoNumber(rest: string)
    requires rest == "" || (!IsDigit(rest[0]) && !IsWhitespace(rest[0]) && rest[0] != '-' && rest[0] != '+')
    ensures ToInt(rest) == 0
  {
  }

  /** A port counts modulo 65536. */
  lemma PortWraps(n: nat)
    requires n < 65536
    ensures ToPort(ToDecimal(n)) == ToPort(ToDecimal(65536 + n)) == n
  {
    hide ToDecimal;
    NumberTexts(n, "");
    NumberTexts(65536 + n, "");
    assert ToDecimal(n) + "" == ToDecimal(n) && ToDecimal(65536 + n) + "" == ToDecimal(65536 + n);
  }

  lemma Leading(n: nat, rest: string)
    requires rest != "" ==> !IsDigit(rest[0])
    ensures ToDecimal(n) != "" && IsDigit(ToDecimal(n)[0]) && FromDecimal(LeadingDigits(ToDecimal(n) + rest)) == n
  {
    hide ToDecimal;
    DigitsCalm(n);
    DecimalRoundTrip(n);
    LeadingThen(ToDecimal(n), rest);
  }

  lemma {:induction false} LeadingThen(d: string, rest: string)
    requires AllDigits(d) && (rest != "" ==> !IsDigit(rest[0]))
    ensures LeadingDigits(d + rest) == d
  {
    if d == "" {
      assert "" + rest == rest;
    } else {
      assert (d + rest)[0] == d[0] && (d + rest)[1..] == d[1..] + rest;
      LeadingThen(d[1..], rest);
    }
  }

  /** White space in front is skipped. */
  lemma {:induction false} PastSpaces(w: string, s: string)
    requires forall i | 0 <= i < |w| :: IsWhitespace(w[i])
    ensures ToInt(w + s) == ToInt(s)
  {
    if w == "" {
      assert "" + s == s;
    } else {
      assert (w + s)[0] == w[0] && (w + s)[1..] == w[1..] + s;
      PastSpaces(w[1..], s);
    }
  }

  // ----- lines of a subscription -----

  function Separated(links: seq<string>, sep: string): string {
    if links == [] then "" else links[0] + sep + Separated(links[1..], sep)
  }

  predicate OneWord(link: string) { link != "" && Free(link, ' ') && Free(link, '\n') && Free(link, '\r') }

  /** Links may be parted by line feeds with or without a carriage return, by carriage
      returns or by blanks. */
  lemma AnyBreaks(links: seq<string>, sep: string, others: Parsers)
    requires forall k | 0 <= k < |links| :: OneWord(links[k])
    requires links != [] && (sep == "\n" || sep == "\r\n" || sep == "\r" || sep == " ")
    ensures var t := Separated(links, sep); Nodes(Lines(t, Delimiter(t)), others) == Nodes(links, others)
  {
    hide Lines, Nodes, OneWord, Separated;
    var t := Separated(links, sep);
    Parted(links, sep);
    if sep == "\r\n" {
      var lines := seq(|links|, k requires 0 <= k < |links| => links[k] + "\r");
      forall k | 0 <= k < |lines| ensures Free(lines[k], '\n') { WordFree(links[k]); }
      SeparatedAgain(links, lines);
      LinesSeparated(lines, '\n');
      ReturnsStripped(links, lines, others);
    } else {
      var c := sep[0];
      assert sep == [c];
      forall k | 0 <= k < |links| ensures Free(links[k], c) { WordFree(links[k]); }
      LinesSeparated(links, c);
    }
  }

  lemma WordFree(link: string)
    requires OneWord(link)
    ensures Free(link, ' ') && Free(link, '\n') && Free(link, '\r') && Free(link + "\r", '\n')
  {
  }

  lemma {:induction false} Parted(links: seq<string>, sep: string)
    requires forall k | 0 <= k < |links| :: OneWord(links[k])
    requires links != [] && (sep == "\n" || sep == "\r\n" || sep == "\r" || sep == " ")
    ensures Free(Separated(links, sep), '\n') <==> sep == "\r" || sep == " "
    ensures Free(Separated(links, sep), '\r') <==> sep == "\n" || sep == " "
  {
    var t, rest := Separated(links, sep), Separated(links[1..], sep);
    assert t == links[0] + sep + rest;
    assert OneWord(links[0]) && t[|links[0]|] == sep[0] && t[|links[0]| + |sep| - 1] == sep[|sep| - 1];
    if |links| > 1 {
      Parted(links[1..], sep);
    } else {
      assert rest == "";
    }
    hide Separated, OneWord;
    FreeParts(links[0], sep, rest, '\n');
    FreeParts(links[0], sep, rest, '\r');
  }

  lemma FreeParts(a: string, b: string, c: string, x: char)
    ensures Free(a + b + c, x) <==> Free(a, x) && Free(b, x) && Free(c, x)
  {
    var t := a + b + c;
    assert forall i | 0 <= i < |a| :: t[i] == a[i];
    assert forall i | 0 <= i < |b| :: t[|a| + i] == b[i];
    assert forall i | 0 <= i < |c| :: t[|a| + |b| + i] == c[i];
  }

  lemma {:induction false} LinesSeparated(lines: seq<string>, c: char)
    requires forall k | 0 <= k < |lines| :: Free(lines[k], c)
    ensures Lines(Separated(lines, [c]), c) == lines
  {
    if lines != [] {
      LinesSeparated(lines[1..], c);
      LinesCons(lines[0], Separated(lines[1..], [c]), c);
      assert [lines[0]] + lines[1..] == lines;
    }
  }

  lemma {:induction false} SeparatedAgain(links: seq<string>, lines: seq<string>)
    requires |lines| == |links| && forall k | 0 <= k < |links| :: lines[k] == links[k] + "\r"
    ensures Separated(links, "\r\n") == Separated(lines, "\n")
  {
    if links != [] {
      SeparatedAgain(links[1..], lines[1..]);
      assert links[0] + "\r\n" == links[0] + "\r" + "\n";
    }
  }

  lemma {:induction false} ReturnsStripped(links: seq<string>, lines: seq<string>, others: Parsers)
    requires |lines| == |links| && forall k | 0 <= k < |links| :: OneWord(links[k]) && lines[k] == links[k] + "\r"
    ensures Nodes(lines, others) == Nodes(links, others)
  {
    if links != [] {
      var n := |links| - 1;
      ReturnsStripped(links[..n], lines[..n], others);
      hide Explode;
      assert OneWord(links[n]) && lines[n][|links[n]|] == '\r';
      assert Stripped(lines[n]) == links[n] == Stripped(links[n]);
    }
  }

  // ----- what a link does not say -----

  /** The fields that no link of a kind carries stay unset, whatever the text; a text that is
      no link leaves all of them. */
  lemma UnsetFields(text: string)
    ensures var n := SsNode(text);
            && n.protocol == n.protocolParam == n.obfs == n.obfsParam == n.transport == n.host == n.path == ""
            && !n.tlsSecure && n.tfo == n.allowInsecure == Undef
            && (n.kind != SS ==> n.kind == Unknown && n.port == 0 && n.group == n.remark == n.hostname == n.password == n.cipher
                                                                     == n.plugin == n.pluginOption == "")
    ensures var n := SsrNode(text);
            && n.plugin == n.pluginOption == n.transport == n.host == n.path == ""
            && !n.tlsSecure && n.tfo == n.allowInsecure == Undef
            && (n.kind != SS && n.kind != SSR ==> n.kind == Unknown && n.port == 0 && n.hostname == n.cipher == "")
    ensures var n := TrojanNode(text);
            && n.cipher == n.plugin == n.pluginOption == n.protocol == n.protocolParam == n.obfs == n.obfsParam == ""
            && (n.kind != Trojan ==> n.kind == Unknown && n.port == 0 && n.hostname == n.password == "")
  {
    hide Replace, UrlArg, UrlSafeDecode, UrlDecoded, AddressAccount, SsrFields, TrojanLogin, ToPort, ToTribool, FindString, WithoutSpaces;
  }

  const SHARED_CIPHERS := [
    "rc4-md5", "aes-128-cfb", "aes-192-cfb", "aes-256-cfb", "aes-128-ctr", "aes-192-ctr", "aes-256-ctr",
    "camellia-128-cfb", "camellia-192-cfb", "camellia-256-cfb", "bf-cfb", "salsa20", "chacha20", "chacha20-ietf"]

  const AEAD_CIPHERS := ["aes-128-gcm", "aes-192-gcm", "aes-256-gcm", "chacha20-ietf-poly1305", "xchacha20-ietf-poly1305"]

  const OLD_CIPHERS := ["none", "table", "rc4", "cast5-cfb", "des-cfb", "idea-cfb", "rc2-cfb", "seed-cfb"]

  /** Nodes with an AEAD cipher have no SSR link, and those with one of eight old ones no SS link. */
  lemma CipherKinds(c: string)
    ensures IsSsCipher(c) <==> c in SHARED_CIPHERS || c in AEAD_CIPHERS
    ensures IsSsrCipher(c) <==> c in SHARED_CIPHERS || c in OLD_CIPHERS
  {
  }

  // ----- what the expressions take -----

  predicate Word(s: string) { s != "" && NoSpace(s) }

  predicate NumberText(s: string) { s != "" && AllDigits(s) }

  predicate OneLineText(s: string) { Free(s, '\n') }

  /** A group at the start of a pattern, and the character behind it. */
  lemma FirstGroup(p: Pattern, groups: seq<string>)
    requires p.Group? && |groups| == Groups(p) && Fits(p, groups)
    ensures p.of == NotSpace && p.least > 0 ==> Word(groups[0])
    ensures p.of == Digit && p.least > 0 ==> NumberText(groups[0])
    ensures p.of == NotLineFeed ==> OneLineText(groups[0])
    ensures p.next.Character? ==> Groups(p.next.next) == |groups| - 1 && Fits(p.next.next, groups[1..])
  {
  }

  lemma LoginShape(s: string)
    requires SsLogin(s).Some?
    ensures var l := SsLogin(s).value; Word(l.secret) && Word(l.server) && NumberText(l.port)
  {
    hide Search, Fits, Word, NumberText;
    var at := Found(SS_LOGIN, s);
    var g := Search(SS_LOGIN, s).value;
    var q := SS_LOGIN.next.next;
    FirstGroup(SS_LOGIN, g);
    FirstGroup(q, g[1..]);
    FirstGroup(q.next.next, g[1..][1..]);
  }

  lemma SecretShape(s: string)
    requires CipherAndPassword(s).Some?
    ensures var pair := CipherAndPassword(s).value; Word(pair.0) && Word(pair.1)
  {
    hide Search, Fits, Word;
    var at := Found(SECRET, s);
    var g := Search(SECRET, s).value;
    FirstGroup(SECRET, g);
    FirstGroup(SECRET.next.next, g[1..]);
  }

  lemma LegacyShape(s: string)
    requires Search(LEGACY, s).Some?
    ensures var g := Search(LEGACY, s).value; Word(g[0]) && Word(g[1]) && Word(g[2]) && NumberText(g[3])
  {
    hide Search, Fits, Word, NumberText;
    var at := Found(LEGACY, s);
    var g := Search(LEGACY, s).value;
    var q := LEGACY.next.next;
    var r := q.next.next;
    FirstGroup(LEGACY, g);
    FirstGroup(q, g[1..]);
    FirstGroup(r, g[1..][1..]);
    FirstGroup(r.next.next, g[1..][1..][1..]);
  }

  /** No field of an account is empty or holds white space, and its port is digits. */
  lemma AccountShape(address: string)
    requires AddressAccount(address).Some?
    ensures var a := AddressAccount(address).value;
            Word(a.cipher) && Word(a.password) && Word(a.server) && NumberText(a.port)
  {
    hide Search, UrlSafeDecode, SsLogin, CipherAndPassword, Word, NumberText;
    if Find(address, '@') < |address| {
      LoginShape(address);
      SecretShape(UrlSafeDecode(SsLogin(address).value.secret));
    } else {
      LegacyShape(UrlSafeDecode(address));
    }
  }

  /** The same for the fields of an SSR link. */
  lemma SsrShape(s: string)
    requires SsrFields(s).Some?
    ensures var g := SsrFields(s).value; Word(g[0]) && NumberText(g[1]) && Word(g[2]) && Word(g[3]) && Word(g[4]) && Word(g[5])
  {
    hide Search, Fits, Word, NumberText;
    var at := Found(SSR_FIELDS, s);
    var g := Search(SSR_FIELDS, s).value;
    var p1 := SSR_FIELDS.next.next;
    var p2 := p1.next.next;
    var p3 := p2.next.next;
    var p4 := p3.next.next;
    FirstGroup(SSR_FIELDS, g);
    FirstGroup(p1, g[1..]);
    FirstGroup(p2, g[1..][1..]);
    FirstGroup(p3, g[1..][1..][1..]);
    FirstGroup(p4, g[1..][1..][1..][1..]);
    FirstGroup(p4.next.next, g[1..][1..][1..][1..][1..]);
  }

  /** The parts of a Trojan login may be empty and hold blanks, but no line feed. */
  lemma TrojanShape(s: string)
    requires TrojanLogin(s).Some?
    ensures var l := TrojanLogin(s).value; OneLineText(l.secret) && OneLineText(l.server) && OneLineText(l.port)
    ensures TrojanLogin("@:") == Some(Login("", "", "")) && TrojanLogin("a b@c d:") == Some(Login("a b", "c d", ""))
  {
    hide Search, Fits, OneLineText;
    var at := Found(TROJAN_LOGIN, s);
    var g := Search(TROJAN_LOGIN, s).value;
    var q := TROJAN_LOGIN.next.next;
    FirstGroup(TROJAN_LOGIN, g);
    FirstGroup(q, g[1..]);
    FirstGroup(q.next.next, g[1..][1..]);
    LoginsWithBlanks();
  }

  lemma LoginsWithBlanks()
    ensures TrojanLogin("@:") == Some(Login("", "", "")) && TrojanLogin("a b@c d:") == Some(Login("a b", "c d", ""))
  {
    hide Reads, Search, HasCharacters;
    LoginReads("", "");
    LoginReads("a b", "c d");
    assert "" + "@" + "" + ":" == "@:" && "a b" + "@" + "c d" + ":" == "a b@c d:";
  }

  lemma LoginReads(secret: string, server: string)
    requires OneLineText(secret) && OneLineText(server) && Free(secret, '@')
    ensures TrojanLogin(secret + "@" + server + ":") == Some(Login(secret, server, ""))
  {
    hide Reads, Search, HasCharacters;
    var q := TROJAN_LOGIN.next.next;
    ReadsEnd();
    ReadsGroup(q.next.next, "", [], "");
    assert "" + "" == "" && [""] + [] == [""];
    ReadsCharacter(':', q.next.next, [""], "");
    PastField(q.next, "", "");
    assert ([':'] + "")[1..] == "";
    ReadsGroup(q, server, [""], [':'] + "");
    ReadsCharacter('@', q, [server] + [""], server + ([':'] + ""));
    ReadsGroup(TROJAN_LOGIN, secret, [server] + [""], ['@'] + (server + ([':'] + "")));
    assert secret + (['@'] + (server + ([':'] + ""))) == secret + "@" + server + ":";
    SearchReads(TROJAN_LOGIN, [secret] + ([server] + [""]), secret + "@" + server + ":");
  }
}
