/** What the parsers make of the links that proxyToSingle prints. */
module ShareLinksRoundTrip {
  import opened Common
  import opened StringUtil
  import opened Regex
  import opened UrlArgs
  import opened UrlEncoding
  import opened Base64
  import opened ShareLinks

  // ----- well-formed fields and what comes back -----

  predicate IsCalm(c: char) { c as int < 256 && !IsWhitespace(c) && c != '/' && c != '?' && c != '#' }

  /** Bytes without white space, '/', '?' and '#'. A host may hold '@' and ':'. */
  predicate Calm(s: string) { forall i | 0 <= i < |s| :: IsCalm(s[i]) }

  predicate Small(s: string) { |s| < TWO_32 && IsBytes(s) }

  predicate EndpointOk(x: Proxy) { x.hostname != "" && Calm(x.hostname) && 0 < x.port < 65536 }

  predicate SsOk(x: Proxy) {
    && EndpointOk(x) && Small(x.remark) && Small(x.cipher + ":" + x.password)
    && x.cipher != "" && NoSpace(x.cipher) && Free(x.cipher, ':') && x.password != "" && NoSpace(x.password)
    && (HasPlugin(x) ==> Free(x.plugin, ';') && IsBytes(x.plugin) && IsBytes(x.pluginOption))
  }

  predicate FieldOk(s: string) { s != "" && Calm(s) && Free(s, ':') }

  predicate SsrOk(x: Proxy, params: bool) {
    && EndpointOk(x) && FieldOk(x.protocol) && FieldOk(x.cipher) && FieldOk(x.obfs)
    && x.password != "" && Small(x.password) && Small(x.group) && Small(x.remark)
    && (params ==> Small(x.obfsParam) && Small(x.protocolParam) && NoSpace(x.obfsParam) && NoSpace(x.protocolParam))
    && |SsrBody(x) + "/?" + Query(SsrPairs(x, params))| < TWO_32
  }

  predicate TrojanOk(x: Proxy) {
    && EndpointOk(x) && IsBytes(x.remark) && IsBytes(x.password) && IsBytes(x.host) && IsBytes(x.path)
    && Free(x.password, '@') && Free(x.password, '?') && !Contains(x.password, "://")
    && Free(x.password, '\n') && Free(x.password, '\r')
    && ValueOk(x.host) && Free(x.host, '/') && Free(x.host, '\n') && Free(x.host, '\r')
  }

  predicate LinkOk(p: Printing) {
    match p
    case Skip => true
    case Repeat => true
    case AsSS(x) => SsOk(x)
    case AsSSR(x, params) => SsrOk(x, params)
    case AsTrojan(x) => TrojanOk(x)
  }

  function CameBack(x: Proxy, kind: Kind, group: string): Proxy {
    BLANK.(kind := kind, group := group, remark := OrElse(x.remark, Endpoint(x)),
           hostname := x.hostname, port := x.port, password := x.password)
  }

  /** A plugin replaces the default group by nothing. */
  function SsBack(x: Proxy): Proxy {
    var node := CameBack(x, SS, SS_DEFAULT_GROUP).(cipher := x.cipher);
    if HasPlugin(x) then node.(group := "", plugin := x.plugin, pluginOption := x.pluginOption) else node
  }

  /** Without protocol and obfuscation an SSR node with a shared cipher is an SS node. */
  function SsrBack(x: Proxy, params: bool): Proxy {
    var node := CameBack(x, SSR, OrElse(x.group, SSR_DEFAULT_GROUP)).(cipher := x.cipher);
    if IsSsCipher(x.cipher) && x.obfs == "plain" && x.protocol == "origin" then node.(kind := SS)
    else node.(protocol := x.protocol, obfs := x.obfs,
               obfsParam := if params then x.obfsParam else "", protocolParam := if params then x.protocolParam else "")
  }

  /** The path stays percent-encoded. */
  function TrojanBack(x: Proxy): Proxy {
    CameBack(x, Trojan, TROJAN_DEFAULT_GROUP).(
      host := x.host, tlsSecure := true, allowInsecure := if x.allowInsecure.Yes? then Yes else No,
      transport := if x.transport == "ws" then "ws" else "tcp",
      path := if x.transport == "ws" then UrlEncoded(x.path) else "")
  }

  function Back(p: Printing): Proxy
    requires !p.Skip? && !p.Repeat?
  {
    match p
    case AsSS(x) => SsBack(x)
    case AsSSR(x, params) => SsrBack(x, params)
    case AsTrojan(x) => TrojanBack(x)
  }

  // ----- characters -----

  lemma CalmFree(s: string)
    requires Calm(s)
    ensures Free(s, '/') && Free(s, '?') && Free(s, '#') && Free(s, '\n') && Free(s, '\r') && NoSpace(s) && IsBytes(s)
  {
  }

  lemma B64Calm(s: string)
    ensures Calm(B64(s)) && Free(B64(s), '@') && Free(B64(s), ':') && ValueOk(B64(s))
    ensures s != "" && |s| < TWO_32 ==> B64(s) != ""
  {
    hide UrlSafeEncode;
    var t := s[..|s| % TWO_32];
    if |s| < TWO_32 { ModSmall(|s|); }
    UrlSafeAlphabet(t);
    forall i | 0 <= i < |B64(s)| ensures IsCalm(B64(s)[i]) && B64(s)[i] != '@' && B64(s)[i] != ':' && B64(s)[i] != '&' {
      assert IsUrlSafe(UrlSafeEncode(t)[i]);
    }
  }

  lemma B64Back(s: string)
    requires Small(s)
    ensures UrlSafeDecode(B64(s)) == s
  {
    hide UrlSafeDecode, UrlSafeEncode;
    ModSmall(|s|);
    assert s[..|s|] == s;
    UrlSafeRoundTrip(s);
  }

  lemma EncodedCalm(s: string)
    ensures Calm(UrlEncoded(s)) && ValueOk(UrlEncoded(s))
  {
  }

  lemma DigitsCalm(n: nat)
    ensures Calm(ToDecimal(n)) && Free(ToDecimal(n), ':') && ToDecimal(n) != "" && AllDigits(ToDecimal(n))
  {
  }

  lemma {:induction false} LeadingAll(s: string)
    requires AllDigits(s)
    ensures LeadingDigits(s) == s
  {
    if s != "" {
      assert forall i | 0 <= i < |s[1..]| :: IsDigit(s[1..][i]) by {
        assert forall i | 0 <= i < |s[1..]| :: s[1..][i] == s[i + 1];
      }
      LeadingAll(s[1..]);
    }
  }

  lemma PortBack(n: nat)
    requires 0 < n < 65536
    ensures ToPort(ToDecimal(n)) == n && ToDecimal(n) != "0"
  {
    hide ToDecimal;
    DecimalRoundTrip(n);
    var s := ToDecimal(n);
    LeadingAll(s);
    assert IsDigit(s[0]);
  }

  // ----- cutting -----

  lemma Cut(a: string, c: char, b: string)
    requires Free(a, c)
    ensures var s := a + [c] + b; Find(s, c) == |a| < |s| && Before(s, c) == a && After(s, c) == b
  {
    var s := a + [c] + b;
    assert s[|a|] == c && forall i | 0 <= i < |a| :: s[i] == a[i];
    assert s[..|a|] == a && s[|a| + 1..] == b;
  }

  lemma Uncut(a: string, c: char)
    requires Free(a, c)
    ensures Find(a, c) == |a| && Before(a, c) == a && After(a, c) == ""
  {
  }

  lemma ReplaceAbsent(s: string, pattern: string, by_: string)
    requires pattern != "" && Free(s, pattern[0])
    ensures Replace(s, pattern, by_) == s
  {
  }

  lemma ReplaceOnce(a: string, b: string)
    requires Free(a, '/') && Free(b, '/')
    ensures Replace(a + "/?" + b, "/?", "?") == a + "?" + b
  {
    var s := a + "/?" + b;
    forall j | 0 <= j < |a| ensures !OccursAt(s, "/?", j) {
      OccursChar(s, "/?", j, 0);
      assert s[j] == a[j];
    }
    ReplaceSkip(s, "/?", "?", |a|);
    assert s[..|a|] == a && s[|a|..] == "/?" + b && OccursAt(s, "/?", |a|);
    ReplaceHere(s, |a|, "/?", "?");
    assert s[|a| + 2..] == b;
    ReplaceAbsent(b, "/?", "?");
  }

  lemma FindOnce(a: string, pattern: string, b: string)
    requires pattern != "" && Free(a, pattern[0])
    ensures FindString(a + pattern + b, pattern, 0) == |a|
  {
    var s := a + pattern + b;
    forall j | 0 <= j < |a| ensures !OccursAt(s, pattern, j) {
      OccursChar(s, pattern, j, 0);
      assert s[j] == a[j];
    }
    assert s[|a|..|a| + |pattern|] == pattern;
    assert OccursAt(s, pattern, |a|);
  }

  // ----- which parser is chosen -----

  /** A link whose only "://" ends its scheme contains another "name://" exactly when the
      scheme ends with that name. */
  lemma SchemeOf(scheme: string, rest: string, name: string)
    requires Free(scheme, ':') && !Contains(rest, "://")
    ensures Contains(scheme + "://" + rest, name + "://") <==> EndsWith(scheme, name)
  {
    var link, pattern, n := scheme + "://" + rest, name + "://", |scheme|;
    if EndsWith(scheme, name) {
      var i := n - |name|;
      assert link[i..i + |pattern|] == pattern;
      assert OccursAt(link, pattern, i);
    }
    if i :| 0 <= i <= |link| && OccursAt(link, pattern, i) {
      var k := i + |name|;
      assert link[k..k + 3] == link[i..i + |pattern|][|name|..] == "://";
      OnlyColon(scheme, rest, k);
      assert scheme[i..] == link[i..i + |pattern|][..|name|];
    }
  }

  /** The same for a name and what follows "://". */
  lemma FormOf(scheme: string, rest: string, name: string, more: string)
    requires Free(scheme, ':') && !Contains(rest, "://")
    ensures Contains(scheme + "://" + rest, name + "://" + more) <==> EndsWith(scheme, name) && more <= rest
  {
    hide EndsWith, OccursAt, Free;
    if EndsWith(scheme, name) && more <= rest { FormIsThere(scheme, rest, name, more); }
    var link, pattern := scheme + "://" + rest, name + "://" + more;
    if i: nat :| i <= |link| && OccursAt(link, pattern, i) { FormIsAtEnd(scheme, rest, name, more, i); }
  }

  lemma FormIsThere(scheme: string, rest: string, name: string, more: string)
    requires EndsWith(scheme, name) && more <= rest
    ensures Contains(scheme + "://" + rest, name + "://" + more)
  {
    var link, pattern, i := scheme + "://" + rest, name + "://" + more, |scheme| - |name|;
    assert link[i..i + |pattern|] == pattern;
    assert OccursAt(link, pattern, i);
  }

  lemma FormIsAtEnd(scheme: string, rest: string, name: string, more: string, i: nat)
    requires Free(scheme, ':') && !Contains(rest, "://") && OccursAt(scheme + "://" + rest, name + "://" + more, i)
    ensures EndsWith(scheme, name) && more <= rest
  {
    hide Free, Contains;
    var link, pattern, n := scheme + "://" + rest, name + "://" + more, |scheme|;
    PartOccurs(link, pattern, i, |name|, |name| + 3);
    assert pattern[|name|..|name| + 3] == "://";
    OnlyColon(scheme, rest, i + |name|);
    PartOccurs(link, pattern, i, 0, |name|);
    assert pattern[0..|name|] == name && link[i..n] == scheme[i..];
    PartOccurs(link, pattern, i, |name| + 3, |pattern|);
    assert pattern[|name| + 3..|pattern|] == more && link[n + 3..] == rest;
  }

  lemma PartOccurs(s: string, pattern: string, i: nat, a: nat, b: nat)
    requires OccursAt(s, pattern, i) && a <= b <= |pattern|
    ensures OccursAt(s, pattern[a..b], i + a)
  {
    var w := s[i..i + |pattern|];
    forall k | 0 <= k < b - a ensures w[a..b][k] == s[i + a..i + b][k] {
      assert w[a..b][k] == w[a + k] == s[i + (a + k)];
    }
    assert w[a..b] == s[i + a..i + b];
  }

  lemma OnlyColon(scheme: string, rest: string, k: nat)
    requires Free(scheme, ':') && !Contains(rest, "://") && OccursAt(scheme + "://" + rest, "://", k)
    ensures k == |scheme|
  {
    var link, n := scheme + "://" + rest, |scheme|;
    ThreeChars(link, k);
    assert forall j | 0 <= j < n :: link[j] == scheme[j];
    assert link[n] == ':' && link[n + 1] == '/' && link[n + 2] == '/';
    forall m | 0 <= m && m + 3 <= |rest| ensures OccursAt(link, "://", n + 3 + m) <==> OccursAt(rest, "://", m) {
      ThreeChars(rest, m);
      ThreeChars(link, n + 3 + m);
    }
    assert k < n + 3 || OccursAt(rest, "://", k - n - 3);
  }

  lemma ThreeChars(s: string, m: nat)
    requires m + 3 <= |s|
    ensures OccursAt(s, "://", m) <==> s[m] == ':' && s[m + 1] == '/' && s[m + 2] == '/'
  {
  }

  lemma NoScheme(a: string, c: char, b: string)
    requires !Contains(a, "://") && Free(b, '/') && c != ':' && c != '/'
    ensures !Contains(a + [c] + b, "://")
  {
    var s := a + [c] + b;
    forall i | 0 <= i <= |s| ensures !OccursAt(s, "://", i) {
      if i + 3 <= |s| { ThreeChars(s, i); }
      if i + 3 <= |a| { ThreeChars(a, i); }
      assert i + 3 <= |a| ==> !OccursAt(a, "://", i);
      assert forall j | |a| < j < |s| :: s[j] == b[j - |a| - 1];
    }
  }

  lemma NoDoubleSlash(s: string, k: nat)
    requires forall i | 0 <= i < |s| && i != k :: s[i] != '/'
    ensures !Contains(s, "://")
  {
    forall i | 0 <= i <= |s| ensures !OccursAt(s, "://", i) {
      if i + 3 <= |s| { ThreeChars(s, i); }
    }
  }

  // ----- ss:// -----

  function SsAddress(x: Proxy): string { B64(x.cipher + ":" + x.password) + "@" + Endpoint(x) }

  function PluginText(x: Proxy): string { UrlEncoded(x.plugin + ";" + x.pluginOption) }

  lemma EndpointCalm(x: Proxy)
    requires EndpointOk(x)
    ensures Calm(Endpoint(x))
    ensures var e := Endpoint(x); FindLast(e, ':', |e|) == |x.hostname|
  {
    hide ToDecimal;
    DigitsCalm(x.port);
    CutLast(x.hostname, ':', ToDecimal(x.port));
  }

  lemma SsAddressCalm(x: Proxy)
    requires SsOk(x)
    ensures Calm(SsAddress(x))
  {
    hide B64, Endpoint;
    B64Calm(x.cipher + ":" + x.password);
    EndpointCalm(x);
  }

  /** A host, a colon and a port. */
  lemma EndpointReads(p: Pattern, x: Proxy)
    requires p.Group? && p.least <= 1 && !p.lazy && p.of != Digit
    requires p.next == Character(':', Group(Digit, 1, false, End)) || p.next == Character(':', Group(NotLineFeed, 0, false, End))
    requires EndpointOk(x)
    ensures Reads(p, [x.hostname, ToDecimal(x.port)], Endpoint(x))
  {
    hide ToDecimal, Reads, HasCharacters;
    var port := ToDecimal(x.port);
    DigitsCalm(x.port);
    CalmFree(port);
    CalmFree(x.hostname);
    ReadsEnd();
    var q := p.next.next;
    ReadsGroup(q, port, [], "");
    assert port + "" == port && [port] + [] == [port];
    ReadsCharacter(':', q, [port], port);
    PastField(p.next, port, "");
    assert ([':'] + port)[1..] == port;
    ReadsGroup(p, x.hostname, [port], [':'] + port);
    assert x.hostname + ([':'] + port) == Endpoint(x) && [x.hostname] + [port] == [x.hostname, port];
  }

  lemma SsLoginBack(x: Proxy)
    requires SsOk(x)
    ensures Find(SsAddress(x), '@') < |SsAddress(x)|
    ensures SsLogin(SsAddress(x)) == Some(Login(B64(x.cipher + ":" + x.password), x.hostname, ToDecimal(x.port)))
  {
    hide B64, ToDecimal, Calm, Reads, Endpoint, Search, HasCharacters;
    var secret, port := B64(x.cipher + ":" + x.password), ToDecimal(x.port);
    B64Calm(x.cipher + ":" + x.password);
    CalmFree(secret);
    Cut(secret, '@', Endpoint(x));
    EndpointReads(SS_LOGIN.next.next, x);
    ReadsCharacter('@', SS_LOGIN.next.next, [x.hostname, port], Endpoint(x));
    ReadsGroup(SS_LOGIN, secret, [x.hostname, port], ['@'] + Endpoint(x));
    assert secret + (['@'] + Endpoint(x)) == SsAddress(x) == secret + ['@'] + Endpoint(x);
    SearchReads(SS_LOGIN, [secret] + [x.hostname, port], SsAddress(x));
  }

  lemma SecretBack(x: Proxy)
    requires SsOk(x)
    ensures CipherAndPassword(x.cipher + ":" + x.password) == Some((x.cipher, x.password))
  {
    hide Reads, Search, HasCharacters;
    ReadsEnd();
    ReadsGroup(SECRET.next.next, x.password, [], "");
    assert x.password + "" == x.password && [x.password] + [] == [x.password];
    ReadsCharacter(':', SECRET.next.next, [x.password], x.password);
    ReadsGroup(SECRET, x.cipher, [x.password], [':'] + x.password);
    assert x.cipher + ([':'] + x.password) == x.cipher + ":" + x.password;
    SearchReads(SECRET, [x.cipher] + [x.password], x.cipher + ":" + x.password);
  }

  // ----- the older form, encoded as a whole -----

  function LegacyText(x: Proxy): string { x.cipher + ":" + x.password + "@" + Endpoint(x) }

  predicate LegacyOk(x: Proxy) { SsOk(x) && Free(x.hostname, '@') && IsBytes(LegacyText(x)) && |LegacyText(x)| < TWO_32 }

  lemma LegacyReads(x: Proxy)
    requires LegacyOk(x)
    ensures Reads(LEGACY, [x.cipher, x.password, x.hostname, ToDecimal(x.port)], LegacyText(x))
  {
    hide Reads, HasCharacters, ToDecimal, Endpoint, Calm;
    var q := LEGACY.next.next;
    var back := [x.hostname, ToDecimal(x.port)];
    EndpointReads(q.next.next, x);
    ReadsCharacter('@', q.next.next, back, Endpoint(x));
    EndpointHasNoAt(x);
    PastField(q.next, Endpoint(x), "");
    assert (['@'] + Endpoint(x))[1..] == Endpoint(x);
    ReadsGroup(q, x.password, back, ['@'] + Endpoint(x));
    var rest := x.password + (['@'] + Endpoint(x));
    ReadsCharacter(':', q, [x.password] + back, rest);
    ReadsGroup(LEGACY, x.cipher, [x.password] + back, [':'] + rest);
    assert x.cipher + ([':'] + rest) == LegacyText(x);
    assert [x.cipher] + ([x.password] + back) == [x.cipher, x.password, x.hostname, ToDecimal(x.port)];
  }

  lemma EndpointHasNoAt(x: Proxy)
    requires Free(x.hostname, '@')
    ensures Free(Endpoint(x), '@')
  {
    hide ToDecimal;
    DecimalRoundTrip(x.port);
    var e, n := Endpoint(x), |x.hostname|;
    forall i | 0 <= i < |e| ensures e[i] != '@' {
      if i < n { assert e[i] == x.hostname[i]; }
      if i > n { assert e[i] == ToDecimal(x.port)[i - n - 1] && IsDigit(e[i]); }
    }
  }

  /** A link whose cipher, password, host and port are encoded together reads as its node. */
  lemma LegacyBack(x: Proxy)
    requires LegacyOk(x)
    ensures SsNode(B64(LegacyText(x)) + "#" + UrlEncoded(x.remark)) == CameBack(x, SS, "SSProvider").(cipher := x.cipher)
  {
    hide B64, Calm, UrlEncoded, UrlDecoded, UrlArg, UrlSafeDecode, Search, ToPort, ToDecimal, Endpoint, LegacyText, Before, After, Replace;
    var a, e := B64(LegacyText(x)), UrlEncoded(x.remark);
    var text := a + "#" + e;
    B64Calm(LegacyText(x));
    EncodedCalm(x.remark);
    CalmFree(a);
    CalmFree(e);
    assert Free(text, '/');
    ReplaceAbsent(text, "/?", "?");
    Cut(a, '#', e);
    assert text == a + ['#'] + e;
    Uncut(a, '?');
    Uncut(a, '@');
    LegacyReads(x);
    B64Back(LegacyText(x));
    SearchReads(LEGACY, [x.cipher, x.password, x.hostname, ToDecimal(x.port)], LegacyText(x));
    PortBack(x.port);
    UrlRoundTrip(x.remark);
    NoArgs("plugin");
    Uncut("", ';');
    assert x.hostname + ":" + ToDecimal(x.port) == Endpoint(x) by { EndpointIs(x); }
  }

  lemma EndpointIs(x: Proxy)
    ensures Endpoint(x) == x.hostname + ":" + ToDecimal(x.port)
  {
  }

  lemma SsParts(x: Proxy)
    ensures |SsLink(x)| >= 5
    ensures SsLink(x)[5..] == SsAddress(x) + (if HasPlugin(x) then "/?plugin=" + PluginText(x) else "") + "#" + UrlEncoded(x.remark)
  {
    hide B64, UrlEncoded, Endpoint;
    var rest := SsAddress(x) + (if HasPlugin(x) then "/?plugin=" + PluginText(x) else "") + "#" + UrlEncoded(x.remark);
    assert SsLink(x) == "ss://" + rest;
  }

  /** The text after "ss://" once "/?" has been replaced. */
  lemma SsTextReplaced(x: Proxy)
    requires SsOk(x)
    ensures |SsLink(x)| >= 5
    ensures var args := if HasPlugin(x) then "?plugin=" + PluginText(x) else "";
            Replace(SsLink(x)[5..], "/?", "?") == SsAddress(x) + args + "#" + UrlEncoded(x.remark)
  {
    hide Replace, Calm, UrlEncoded, SsAddress, SsLink, PluginText, SsOk, ValueOk, NoSpace, IsBytes;
    var e, a, p := UrlEncoded(x.remark), SsAddress(x), PluginText(x);
    SsParts(x);
    SsAddressCalm(x);
    EncodedCalm(x.remark);
    CalmFree(e);
    CalmFree(a);
    PluginTextCalm(x);
    CalmFree(p);
    if HasPlugin(x) {
      PluginReplaced(a, p, e);
    } else {
      FreeConcat(a, e);
      ReplaceAbsent(a + "" + "#" + e, "/?", "?");
    }
  }

  lemma PluginTextCalm(x: Proxy)
    ensures Calm(PluginText(x)) && ValueOk(PluginText(x))
  {
    hide UrlEncoded;
    EncodedCalm(x.plugin + ";" + x.pluginOption);
  }

  lemma FreeConcat(a: string, e: string)
    requires Free(a, '/') && Free(e, '/')
    ensures Free(a + "" + "#" + e, '/')
  {
  }

  lemma PluginReplaced(a: string, p: string, e: string)
    requires Free(a, '/') && Free(p, '/') && Free(e, '/')
    ensures Replace(a + ("/?plugin=" + p) + "#" + e, "/?", "?") == a + ("?plugin=" + p) + "#" + e
  {
    hide Replace;
    var b := "plugin=" + p + "#" + e;
    assert a + ("/?plugin=" + p) + "#" + e == a + "/?" + b;
    assert a + "?" + b == a + ("?plugin=" + p) + "#" + e;
    ReplaceOnce(a, b);
  }

  lemma PluginArgs(value: string)
    requires ValueOk(value)
    ensures UrlArg("plugin=" + value, "plugin") == value && UrlArg("plugin=" + value, "group") == ""
  {
    hide UrlArg;
    var pairs := [Pair("plugin", value)];
    QuerySnoc([], "plugin", value, "plugin=");
    assert pairs[..0] == [];
    QueryArg(pairs, "plugin");
    QueryArg(pairs, "group");
  }

  /** The pieces that the text is cut into, with and without a plugin. */
  lemma SsCuts(x: Proxy, t: string)
    requires SsOk(x) && t == SsAddress(x) + (if HasPlugin(x) then "?plugin=" + PluginText(x) else "") + "#" + UrlEncoded(x.remark)
    ensures var a, main := SsAddress(x), Before(t, '#');
            && After(t, '#') == UrlEncoded(x.remark) && Before(main, '?') == a
            && (Find(main, '?') < |main| <==> HasPlugin(x))
            && After(main, '?') == if HasPlugin(x) then "plugin=" + PluginText(x) else ""
  {
    hide B64, Calm, UrlEncoded, Endpoint;
    var a, e := SsAddress(x), UrlEncoded(x.remark);
    SsAddressCalm(x);
    CalmFree(a);
    if HasPlugin(x) {
      var p := PluginText(x);
      EncodedCalm(x.plugin + ";" + x.pluginOption);
      CalmFree(p);
      var main := a + "?" + ("plugin=" + p);
      assert t == main + ['#'] + e && main == a + ['?'] + ("plugin=" + p);
      Cut(main, '#', e);
      Cut(a, '?', "plugin=" + p);
    } else {
      assert t == a + ['#'] + e;
      Cut(a, '#', e);
      Uncut(a, '?');
    }
  }

  lemma PluginBack(x: Proxy)
    requires SsOk(x) && HasPlugin(x)
    ensures var args := "plugin=" + PluginText(x);
            && UrlDecoded(UrlArg(args, "plugin")) == x.plugin + ";" + x.pluginOption && UrlArg(args, "group") == ""
            && var plugins := x.plugin + ";" + x.pluginOption;
               Before(plugins, ';') == x.plugin && Find(plugins, ';') < |plugins| && After(plugins, ';') == x.pluginOption
  {
    hide UrlEncoded, UrlDecoded, UrlArg;
    EncodedCalm(x.plugin + ";" + x.pluginOption);
    PluginArgs(PluginText(x));
    UrlRoundTrip(x.plugin + ";" + x.pluginOption);
    Cut(x.plugin, ';', x.pluginOption);
    assert x.plugin + ";" + x.pluginOption == x.plugin + [';'] + x.pluginOption;
  }

  lemma SsNodeBack(x: Proxy)
    requires SsOk(x)
    ensures |SsLink(x)| >= 5 && SsNode(SsLink(x)[5..]) == SsBack(x)
  {
    hide Replace, B64, Calm, UrlEncoded, UrlDecoded, UrlArg, UrlSafeDecode, SsLogin, CipherAndPassword, Search, ToPort, ToDecimal,
         Before, After, SsAddress, SsLink, PluginText;
    SsTextReplaced(x);
    SsCuts(x, Replace(SsLink(x)[5..], "/?", "?"));
    SsLoginBack(x);
    B64Back(x.cipher + ":" + x.password);
    SecretBack(x);
    PortBack(x.port);
    UrlRoundTrip(x.remark);
    NoArgs("plugin");
    NoArgs("group");
    if HasPlugin(x) {
      PluginBack(x);
    } else {
      assert Before("", ';') == "" by { Uncut("", ';'); }
    }
  }

  // ----- ssr:// -----

  /** One more field without a colon in front of what is read. */
  lemma FieldReads(p: Pattern, f: string, fields: seq<string>, s: string)
    requires p.Group? && p.next.Character? && p == Group(p.of, 1, true, Character(':', p.next.next))
    requires Reads(p.next.next, fields, s)
    requires f != "" && Free(f, ':') && forall i | 0 <= i < |f| :: In(f[i], p.of)
    ensures Reads(p, [f] + fields, f + ":" + s)
  {
    hide Reads, In, HasCharacters;
    ReadsCharacter(':', p.next.next, fields, s);
    ReadsGroup(p, f, fields, [':'] + s);
    assert f + ([':'] + s) == f + ":" + s;
  }

  /** What follows the host and its colon. */
  function SsrTail(x: Proxy): string {
    ToDecimal(x.port) + ":" + (x.protocol + ":" + (x.cipher + ":" + (x.obfs + ":" + B64(x.password))))
  }

  lemma SsrBodyCalm(x: Proxy, params: bool)
    requires SsrOk(x, params)
    ensures Calm(SsrBody(x)) && SsrBody(x) == x.hostname + ([':'] + SsrTail(x))
    ensures Free(ToDecimal(x.port), ':') && Free(B64(x.password), ':') && B64(x.password) != "" && NoSpace(x.hostname)
    ensures NoSpace(x.protocol) && NoSpace(x.cipher) && NoSpace(x.obfs) && NoSpace(B64(x.password))
  {
    hide B64, ToDecimal, Query, IsCalm;
    B64Calm(x.password);
    DigitsCalm(x.port);
    CalmFree(B64(x.password));
    CalmFree(x.obfs);
    CalmFree(x.cipher);
    CalmFree(x.protocol);
    CalmFree(x.hostname);
    assert IsCalm(':') by { CalmColon(); }
  }

  lemma CalmColon()
    ensures IsCalm(':')
  {
  }

  lemma PastGroup(p: Pattern, s: string)
    requires p.Group?
    ensures HasCharacters(p, s) == HasCharacters(p.next, s)
  {
  }

  /** Behind the host there are only four colons. */
  lemma FourColons(x: Proxy, params: bool)
    requires SsrOk(x, params)
    ensures !HasCharacters(SSR_FIELDS.next, SsrTail(x))
  {
    SsrBodyCalm(x, params);
    hide HasCharacters, Free, SsrOk, SsrBody, Calm, NoSpace;
    var port, secret := ToDecimal(x.port), B64(x.password);
    var p1 := SSR_FIELDS.next;
    var p2 := p1.next.next;
    var p3 := p2.next.next;
    var p4 := p3.next.next;
    var p5 := p4.next.next;
    PastField(p5, secret, "");
    PastGroup(p4.next, secret);
    PastField(p4, x.obfs, secret);
    assert x.obfs + [':'] + secret == x.obfs + ":" + secret;
    var t4 := x.obfs + ":" + secret;
    PastGroup(p3.next, t4);
    PastField(p3, x.cipher, t4);
    assert x.cipher + [':'] + t4 == x.cipher + ":" + t4;
    var t3 := x.cipher + ":" + t4;
    PastGroup(p2.next, t3);
    PastField(p2, x.protocol, t3);
    assert x.protocol + [':'] + t3 == x.protocol + ":" + t3;
    var t2 := x.protocol + ":" + t3;
    PastGroup(p1.next, t2);
    PastField(p1, port, t2);
    assert port + [':'] + t2 == port + ":" + t2;
  }

  function SsrTailFields(x: Proxy): seq<string> {
    [ToDecimal(x.port)] + ([x.protocol] + ([x.cipher] + ([x.obfs] + [B64(x.password)])))
  }

  lemma SsrTailReads(x: Proxy, params: bool)
    requires SsrOk(x, params)
    ensures Reads(SSR_FIELDS.next.next, SsrTailFields(x), SsrTail(x))
  {
    SsrBodyCalm(x, params);
    DigitsCalm(x.port);
    hide B64, ToDecimal, Reads, HasCharacters, Calm, Free, SsrBody, Query;
    var port, secret := ToDecimal(x.port), B64(x.password);
    var p1 := SSR_FIELDS.next.next;
    var p2 := p1.next.next;
    var p3 := p2.next.next;
    var p4 := p3.next.next;
    ReadsEnd();
    ReadsGroup(p4.next.next, secret, [], "");
    assert secret + "" == secret && [secret] + [] == [secret];
    FieldReads(p4, x.obfs, [secret], secret);
    var t4 := x.obfs + ":" + secret;
    FieldReads(p3, x.cipher, [x.obfs] + [secret], t4);
    var t3 := x.cipher + ":" + t4;
    FieldReads(p2, x.protocol, [x.cipher] + ([x.obfs] + [secret]), t3);
    FieldReads(p1, port, [x.protocol] + ([x.cipher] + ([x.obfs] + [secret])), x.protocol + ":" + t3);
  }

  lemma SsrFieldsBack(x: Proxy, params: bool)
    requires SsrOk(x, params)
    ensures Calm(SsrBody(x))
    ensures SsrFields(SsrBody(x)) == Some([x.hostname, ToDecimal(x.port), x.protocol, x.cipher, x.obfs, B64(x.password)])
  {
    hide B64, ToDecimal, Query, Reads, Search, HasCharacters, SsrTail, Calm, Free, SsrBody;
    SsrBodyCalm(x, params);
    SsrTailReads(x, params);
    FourColons(x, params);
    var fields, tail := SsrTailFields(x), SsrTail(x);
    ReadsCharacter(':', SSR_FIELDS.next.next, fields, tail);
    assert ([':'] + tail)[1..] == tail;
    ReadsGroup(SSR_FIELDS, x.hostname, fields, [':'] + tail);
    assert [x.hostname] + fields == [x.hostname, ToDecimal(x.port), x.protocol, x.cipher, x.obfs, B64(x.password)];
    SearchReads(SSR_FIELDS, [x.hostname] + fields, SsrBody(x));
  }

  lemma SsrKeysOk()
    ensures KeyOk("group") && KeyOk("remarks") && KeyOk("obfsparam") && KeyOk("protoparam")
  {
  }

  lemma SsrArgs(x: Proxy, params: bool)
    ensures var q := Query(SsrPairs(x, params));
            && UrlArg(q, "group") == B64(x.group) && UrlArg(q, "remarks") == B64(x.remark)
            && UrlArg(q, "obfsparam") == (if params then B64(x.obfsParam) else "")
            && UrlArg(q, "protoparam") == (if params then B64(x.protocolParam) else "")
  {
    hide UrlArg, Query, B64, Calm, ValueOk, LastValue, KeyOk;
    var pairs := SsrPairs(x, params);
    SsrKeysOk();
    B64Calm(x.group);
    B64Calm(x.remark);
    B64Calm(x.obfsParam);
    B64Calm(x.protocolParam);
    assert PairsOk(pairs);
    QueryArg(pairs, "group");
    QueryArg(pairs, "remarks");
    QueryArg(pairs, "obfsparam");
    QueryArg(pairs, "protoparam");
    LastValueIs(pairs, "group", 0);
    LastValueIs(pairs, "remarks", 1);
    LastValueIs(pairs, "obfsparam", if params then 2 else -1);
    LastValueIs(pairs, "protoparam", if params then 3 else -1);
  }

  lemma {:induction false} LastValueIs(pairs: seq<Pair>, key: string, k: int)
    requires -1 <= k < |pairs| && (k >= 0 ==> pairs[k].key == key)
    requires forall j | k < j < |pairs| :: pairs[j].key != key
    ensures LastValue(pairs, key) == if k < 0 then "" else pairs[k].value
  {
    if k + 1 < |pairs| { LastValueIs(pairs[..|pairs| - 1], key, k); }
  }

  lemma {:induction false} NothingToDrop(s: string)
    requires NoSpace(s)
    ensures WithoutSpaces(s) == s
  {
    if s != "" {
      assert forall i | 0 <= i < |s[1..]| :: s[1..][i] == s[i + 1];
      NothingToDrop(s[1..]);
    }
  }

  lemma SsrTextDecoded(x: Proxy, params: bool)
    requires SsrOk(x, params)
    ensures UrlSafeDecode(Replace(SsrLink(x, params)[6..], "\r", "")) == SsrBody(x) + "/?" + Query(SsrPairs(x, params))
  {
    hide B64, Replace, UrlSafeDecode, SsrBody, Query;
    var plain := SsrBody(x) + "/?" + Query(SsrPairs(x, params));
    B64Calm(plain);
    CalmFree(B64(plain));
    assert SsrLink(x, params)[6..] == B64(plain);
    ReplaceAbsent(B64(plain), "\r", "");
    SsrTextBytes(x, params);
    B64Back(plain);
  }

  lemma {:induction false} QueryBytes(pairs: seq<Pair>)
    requires forall i | 0 <= i < |pairs| :: IsBytes(pairs[i].key) && IsBytes(pairs[i].value)
    ensures IsBytes(Query(pairs))
  {
    if |pairs| > 1 {
      QueryBytes(pairs[..|pairs| - 1]);
    }
  }

  lemma SsrTextBytes(x: Proxy, params: bool)
    requires SsrOk(x, params)
    ensures IsBytes(SsrBody(x) + "/?" + Query(SsrPairs(x, params)))
  {
    hide B64, Query, SsrBody, Calm;
    SsrFieldsBack(x, params);
    CalmFree(SsrBody(x));
    var pairs := SsrPairs(x, params);
    forall i | 0 <= i < |pairs| ensures IsBytes(pairs[i].key) && IsBytes(pairs[i].value) {
      B64Calm(x.group);
      B64Calm(x.remark);
      B64Calm(x.obfsParam);
      B64Calm(x.protocolParam);
      CalmFree(pairs[i].value);
    }
    QueryBytes(pairs);
  }

  lemma SsrNodeBack(x: Proxy, params: bool)
    requires SsrOk(x, params)
    ensures SsrNode(SsrLink(x, params)[6..]) == SsrBack(x, params)
  {
    hide Replace, B64, Calm, UrlArg, UrlSafeDecode, SsrFields, ToPort, ToDecimal, Query, SsrPairs, SsrLink, SsrBody,
         WithoutSpaces, IsSsCipher, FindString;
    var body, q := SsrBody(x), Query(SsrPairs(x, params));
    SsrTextDecoded(x, params);
    SsrFieldsBack(x, params);
    CalmFree(body);
    var t := body + "/?" + q;
    FindOnce(body, "/?", q);
    assert t[..|body|] == body && t[|body| + 2..] == q;
    SsrArgs(x, params);
    B64Back(x.group);
    B64Back(x.remark);
    B64Back(x.password);
    PortBack(x.port);
    NoArgs("obfsparam");
    NoSpaces();
    if params {
      B64Back(x.obfsParam);
      B64Back(x.protocolParam);
      NothingToDrop(x.obfsParam);
      NothingToDrop(x.protocolParam);
    }
  }

  // ----- trojan:// -----

  lemma FlagsOk()
    ensures ValueOk("0") && ValueOk("1") && KeyOk("allowInsecure") && KeyOk("sni") && KeyOk("ws")
  {
  }

  lemma OtherKeysOk()
    ensures KeyOk("wspath") && KeyOk("peer") && KeyOk("tfo") && KeyOk("group")
  {
  }

  lemma TrojanPairsAt(x: Proxy)
    ensures var pairs, sni, ws := TrojanPairs(x), if x.host != "" then 1 else 0, x.transport == "ws";
            && |pairs| == 1 + sni + (if ws then if x.path != "" then 2 else 1 else 0)
            && pairs[0] == Pair("allowInsecure", if x.allowInsecure.Yes? then "1" else "0")
            && (sni == 1 ==> pairs[1] == Pair("sni", x.host))
            && (ws ==> pairs[1 + sni] == Pair("ws", "1"))
            && (ws && x.path != "" ==> pairs[2 + sni] == Pair("wspath", UrlEncoded(x.path)))
  {
  }

  lemma TrojanPairsOk(x: Proxy)
    requires ValueOk(x.host)
    ensures PairsOk(TrojanPairs(x))
  {
    hide UrlEncoded, ValueOk;
    EncodedCalm(x.path);
    FlagsOk();
    OtherKeysOk();
  }

  lemma TrojanArgs(x: Proxy)
    requires ValueOk(x.host)
    ensures var q, ws := Query(TrojanPairs(x)), x.transport == "ws";
            && UrlArg(q, "sni") == x.host && UrlArg(q, "peer") == "" && UrlArg(q, "tfo") == "" && UrlArg(q, "group") == ""
            && UrlArg(q, "allowInsecure") == (if x.allowInsecure.Yes? then "1" else "0")
            && UrlArg(q, "ws") == (if ws then "1" else "")
            && (ws ==> UrlArg(q, "wspath") == UrlEncoded(x.path))
  {
    hide UrlArg, Query, UrlEncoded, LastValue, TrojanPairs, PairsOk, ValueOk, KeyOk;
    var pairs := TrojanPairs(x);
    TrojanPairsOk(x);
    TrojanPairsAt(x);
    FlagsOk();
    OtherKeysOk();
    QueryArg(pairs, "sni");
    QueryArg(pairs, "peer");
    QueryArg(pairs, "tfo");
    QueryArg(pairs, "group");
    QueryArg(pairs, "allowInsecure");
    QueryArg(pairs, "ws");
    QueryArg(pairs, "wspath");
    NothingEncoded();
    var sni := if x.host != "" then 1 else 0;
    var ws := x.transport == "ws";
    LastValueIs(pairs, "sni", if x.host != "" then 1 else -1);
    LastValueIs(pairs, "peer", -1);
    LastValueIs(pairs, "tfo", -1);
    LastValueIs(pairs, "group", -1);
    LastValueIs(pairs, "allowInsecure", 0);
    LastValueIs(pairs, "ws", if ws then 1 + sni else -1);
    LastValueIs(pairs, "wspath", if ws && x.path != "" then 2 + sni else -1);
  }

  lemma NothingEncoded()
    ensures UrlEncoded("") == ""
  {
  }

  /** The parts of the printed text after "trojan://". */
  lemma TrojanText(x: Proxy)
    ensures |TrojanLink(x)| >= 9
    ensures TrojanLink(x)[9..] == x.password + "@" + Endpoint(x) + "?" + Query(TrojanPairs(x)) + "#" + UrlEncoded(x.remark)
  {
    hide Query, TrojanPairs, UrlEncoded, Endpoint;
    var rest := x.password + "@" + Endpoint(x) + "?" + Query(TrojanPairs(x)) + "#" + UrlEncoded(x.remark);
    assert TrojanLink(x) == "trojan://" + rest;
  }

  lemma TrojanLoginBack(x: Proxy)
    requires TrojanOk(x)
    ensures var a := x.password + "@" + Endpoint(x);
            Free(a, '?') && TrojanLogin(a) == Some(Login(x.password, x.hostname, ToDecimal(x.port)))
  {
    hide ToDecimal, Calm, Reads, Endpoint, Search, HasCharacters;
    var a, port := x.password + "@" + Endpoint(x), ToDecimal(x.port);
    EndpointCalm(x);
    CalmFree(Endpoint(x));
    EndpointReads(TROJAN_LOGIN.next.next, x);
    ReadsCharacter('@', TROJAN_LOGIN.next.next, [x.hostname, port], Endpoint(x));
    ReadsGroup(TROJAN_LOGIN, x.password, [x.hostname, port], ['@'] + Endpoint(x));
    assert x.password + (['@'] + Endpoint(x)) == a;
    SearchReads(TROJAN_LOGIN, [x.password] + [x.hostname, port], a);
  }

  /** The pieces that the text is cut into. */
  lemma TrojanCuts(x: Proxy, text: string)
    requires TrojanOk(x) && |TrojanLink(x)| >= 9 && text == TrojanLink(x)[9..]
    ensures var hash := FindLast(text, '#', |text|);
            && hash < |text| && text[hash + 1..] == UrlEncoded(x.remark)
            && Before(text[..hash], '?') == x.password + "@" + Endpoint(x)
            && After(text[..hash], '?') == Query(TrojanPairs(x))
  {
    hide UrlEncoded, Query, TrojanPairs, TrojanLogin, Calm, ValueOk, TrojanLink, Before, After, Endpoint, Contains;
    var a, q, e := x.password + "@" + Endpoint(x), Query(TrojanPairs(x)), UrlEncoded(x.remark);
    TrojanText(x);
    EncodedCalm(x.remark);
    CalmFree(e);
    var main := a + ['?'] + q;
    assert text == main + ['#'] + e;
    CutLast(main, '#', e);
    TrojanLoginBack(x);
    Cut(a, '?', q);
  }

  lemma Tribools()
    ensures ToTribool("") == Undef && ToTribool("0") == No && ToTribool("1") == Yes
  {
  }

  lemma TrojanFilledBack(x: Proxy)
    requires TrojanOk(x)
    ensures TrojanFilled(Login(x.password, x.hostname, ToDecimal(x.port)), Query(TrojanPairs(x)), x.remark) == TrojanBack(x)
  {
    hide UrlArg, UrlEncoded, UrlDecoded, Query, TrojanPairs, ToPort, ToDecimal, Calm, ValueOk, Contains, Free, IsBytes, ToTribool;
    Tribools();
    TrojanArgs(x);
    PortBack(x.port);
    NoArgs("group");
    assert UrlDecoded(UrlArg(Query(TrojanPairs(x)), "group")) == "";
    assert UrlArg(Query(TrojanPairs(x)), "ws") == "1" <==> x.transport == "ws";
    assert x.hostname + ":" + ToDecimal(x.port) == Endpoint(x);
  }

  lemma TrojanNodeBack(x: Proxy)
    requires TrojanOk(x)
    ensures |TrojanLink(x)| >= 9 && TrojanNode(TrojanLink(x)[9..]) == TrojanBack(x)
  {
    hide UrlEncoded, UrlDecoded, Query, TrojanPairs, TrojanLogin, ToDecimal, TrojanLink, TrojanFilled, TrojanBack,
         Before, After, TrojanOk;
    TrojanText(x);
    TrojanCuts(x, TrojanLink(x)[9..]);
    TrojanLoginBack(x);
    TrojanPortOk(x);
    TrojanFilledBack(x);
  }

  lemma TrojanPortOk(x: Proxy)
    requires TrojanOk(x)
    ensures ToDecimal(x.port) != "0" && UrlDecoded(UrlEncoded(x.remark)) == x.remark
  {
    hide UrlEncoded, UrlDecoded, ToDecimal, ToPort;
    PortBack(x.port);
    UrlRoundTrip(x.remark);
  }

  // ----- one link -----

  lemma LastChars(s: string, name: string)
    requires EndsWith(s, name)
    ensures |name| <= |s|
    ensures name != "" ==> s[|s| - 1] == name[|name| - 1]
    ensures |name| >= 2 ==> s[|s| - 2] == name[|name| - 2]
  {
    var tail := s[|s| - |name|..];
    assert name != "" ==> tail[|name| - 1] == s[|s| - 1];
    assert |name| >= 2 ==> tail[|name| - 2] == s[|s| - 2];
  }

  lemma NotEnding(s: string, name: string)
    requires s != "" && name != ""
    requires |s| < |name| || s[|s| - 1] != name[|name| - 1] || (|s| >= 2 && |name| >= 2 && s[|s| - 2] != name[|name| - 2])
    ensures !EndsWith(s, name)
  {
    if EndsWith(s, name) { LastChars(s, name); }
  }

  lemma Endings()
    ensures !EndsWith("ss", "ssr") && !EndsWith("ss", "vmess") && !EndsWith("ss", "vmess1") && EndsWith("ss", "ss") && EndsWith("ssr", "ssr")
    ensures !EndsWith("vmess", "ssr") && EndsWith("vmess", "vmess") && !EndsWith("vmess1", "ssr") && EndsWith("vmess1", "vmess1")
  {
    NotEnding("ss", "ssr");
    NotEnding("ss", "vmess");
    NotEnding("ss", "vmess1");
    NotEnding("vmess", "ssr");
    NotEnding("vmess1", "ssr");
  }

  /** None of the later schemes ends like one of the first, nor like another of them. */
  lemma LaterEndings(s: string)
    requires s == "socks" || s == "https" || s == "tg" || s == "Netch" || s == "trojan" || s == "http"
    ensures !EndsWith(s, "ssr") && !EndsWith(s, "vmess") && !EndsWith(s, "vmess1") && !EndsWith(s, "ss")
    ensures (EndsWith(s, "socks") <==> s == "socks") && (EndsWith(s, "https") <==> s == "https") && (EndsWith(s, "tg") <==> s == "tg")
    ensures (EndsWith(s, "Netch") <==> s == "Netch") && (EndsWith(s, "trojan") <==> s == "trojan")
  {
    hide EndsWith;
    NotEnding(s, "ssr");
    NotEnding(s, "vmess");
    NotEnding(s, "vmess1");
    NotEnding(s, "ss");
    if s != "socks" { NotEnding(s, "socks"); }
    if s != "https" { NotEnding(s, "https"); }
    if s != "tg" { NotEnding(s, "tg"); }
    if s != "Netch" { NotEnding(s, "Netch"); }
    if s != "trojan" { NotEnding(s, "trojan"); }
    EndsWithItself(s);
  }

  lemma EndsWithItself(s: string)
    ensures EndsWith(s, s)
  {
    assert s[0..] == s;
  }

  /** The three tests before the one for "ss://", and that one. */
  lemma FirstTests(scheme: string, rest: string)
    requires Free(scheme, ':') && !Contains(rest, "://")
    ensures var link := scheme + "://" + rest;
            && (Contains(link, "ssr://") <==> EndsWith(scheme, "ssr"))
            && (Contains(link, "vmess://") <==> EndsWith(scheme, "vmess"))
            && (Contains(link, "vmess1://") <==> EndsWith(scheme, "vmess1"))
            && (Contains(link, "ss://") <==> EndsWith(scheme, "ss"))
  {
    hide Contains, EndsWith, Free;
    SchemeOf(scheme, rest, "ssr");
    SchemeOf(scheme, rest, "vmess");
    SchemeOf(scheme, rest, "vmess1");
    SchemeOf(scheme, rest, "ss");
    assert "ssr" + "://" == "ssr://" && "vmess" + "://" == "vmess://" && "vmess1" + "://" == "vmess1://" && "ss" + "://" == "ss://";
  }

  /** The tests after it. */
  lemma LastTests(scheme: string, rest: string)
    requires Free(scheme, ':') && !Contains(rest, "://")
    ensures var link := scheme + "://" + rest;
            && (Contains(link, "socks://") <==> EndsWith(scheme, "socks"))
            && (Contains(link, "https://t.me/socks") <==> EndsWith(scheme, "https") && "t.me/socks" <= rest)
            && (Contains(link, "tg://socks") <==> EndsWith(scheme, "tg") && "socks" <= rest)
            && (Contains(link, "https://t.me/http") <==> EndsWith(scheme, "https") && "t.me/http" <= rest)
            && (Contains(link, "tg://http") <==> EndsWith(scheme, "tg") && "http" <= rest)
            && (Contains(link, "Netch://") <==> EndsWith(scheme, "Netch"))
            && (Contains(link, "trojan://") <==> EndsWith(scheme, "trojan"))
  {
    hide Contains, EndsWith, Free;
    SchemeOf(scheme, rest, "socks");
    SchemeOf(scheme, rest, "Netch");
    SchemeOf(scheme, rest, "trojan");
    FormOf(scheme, rest, "https", "t.me/socks");
    FormOf(scheme, rest, "https", "t.me/http");
    FormOf(scheme, rest, "tg", "socks");
    FormOf(scheme, rest, "tg", "http");
    assert "https" + "://" + "t.me/socks" == "https://t.me/socks" && "https" + "://" + "t.me/http" == "https://t.me/http";
    assert "tg" + "://" + "socks" == "tg://socks" && "tg" + "://" + "http" == "tg://http";
    assert "socks" + "://" == "socks://" && "Netch" + "://" == "Netch://" && "trojan" + "://" == "trojan://";
  }

  /** A link with one "://" goes to the parser of its scheme; "vmess://" is not taken for
      "ss://", nor a Telegram link of one kind for one of the other. */
  lemma Chosen(scheme: string, rest: string, others: Parsers)
    requires !Contains(rest, "://")
    ensures var link := scheme + "://" + rest; var to := Explode(link, others);
            && (scheme == "ss" ==> to == SsNode(link[5..]))
            && (scheme == "ssr" ==> to == SsrNode(link[6..]))
            && (scheme == "trojan" ==> to == TrojanNode(link[9..]))
            && (scheme == "vmess" || scheme == "vmess1" ==> to == others.vmess(link))
            && (scheme == "socks" ==> to == others.socks(link))
            && (scheme == "https" && "t.me/socks" <= rest ==> to == others.socks(link))
            && (scheme == "tg" && "socks" <= rest ==> to == others.socks(link))
            && (scheme == "https" && "t.me/http" <= rest ==> to == others.http(link))
            && (scheme == "tg" && "http" <= rest ==> to == others.http(link))
            && (scheme == "Netch" ==> to == others.netch(link))
            && (scheme == "https" && !("t.me/http" <= rest) && !("t.me/socks" <= rest) ==> to == others.httpSub(link))
            && (scheme == "http" ==> to == others.httpSub(link))
  {
    hide SsNode, SsrNode, TrojanNode, Contains, EndsWith;
    if scheme == "ss" || scheme == "ssr" || scheme == "vmess" || scheme == "vmess1" {
      Endings();
      FirstTests(scheme, rest);
    } else if scheme == "socks" || scheme == "https" || scheme == "tg" || scheme == "Netch" || scheme == "trojan"
              || scheme == "http" {
      LaterEndings(scheme);
      OneTelegram(rest);
      FirstTests(scheme, rest);
      LastTests(scheme, rest);
      LinkStart(scheme, rest);
    }
  }

  lemma LinkStart(scheme: string, rest: string)
    ensures scheme == "https" || scheme == "http" ==> IsLink(scheme + "://" + rest)
  {
    assert "https" + "://" == "https://" && "http" + "://" == "http://";
  }

  /** A text without "://" is a data link or nothing. */
  lemma NoneChosen(link: string, others: Parsers)
    requires !Contains(link, "://")
    ensures Explode(link, others) == if "data:" <= link then others.httpSub(link) else BLANK
  {
    hide Contains;
    NoForm(link, "ssr", "");
    NoForm(link, "vmess", "");
    NoForm(link, "vmess1", "");
    NoForm(link, "ss", "");
    NoForm(link, "socks", "");
    NoForm(link, "Netch", "");
    NoForm(link, "trojan", "");
    assert "ssr" + "://" == "ssr://" && "vmess" + "://" == "vmess://" && "vmess1" + "://" == "vmess1://" && "ss" + "://" == "ss://";
    assert "socks" + "://" == "socks://" && "Netch" + "://" == "Netch://" && "trojan" + "://" == "trojan://";
    NoForm(link, "https", "t.me/socks");
    NoForm(link, "https", "t.me/http");
    NoForm(link, "tg", "socks");
    NoForm(link, "tg", "http");
    assert "https" + "://" + "t.me/socks" == "https://t.me/socks" && "https" + "://" + "t.me/http" == "https://t.me/http";
    assert "tg" + "://" + "socks" == "tg://socks" && "tg" + "://" + "http" == "tg://http";
    NotThere(link);
  }

  lemma NoForm(link: string, name: string, more: string)
    requires !Contains(link, "://")
    ensures !Contains(link, name + "://" + more) && (more == "" ==> !Contains(link, name + "://"))
  {
    assert more == "" ==> name + "://" + more == name + "://";
    if Contains(link, name + "://" + more) { FormHasMark(link, name, more); }
  }

  lemma FormHasMark(link: string, name: string, more: string)
    requires Contains(link, name + "://" + more)
    ensures Contains(link, "://")
  {
    var pattern := name + "://" + more;
    var i :| 0 <= i <= |link| && OccursAt(link, pattern, i);
    PartOccurs(link, pattern, i, |name|, |name| + 3);
    assert pattern[|name|..|name| + 3] == "://";
  }

  lemma NotThere(link: string)
    requires !Contains(link, "://")
    ensures !("https://" <= link) && !("http://" <= link)
  {
    if "https://" <= link { PrefixHasMark(link, "https"); }
    if "http://" <= link { PrefixHasMark(link, "http"); }
  }

  lemma PrefixHasMark(link: string, scheme: string)
    requires scheme + "://" <= link
    ensures Contains(link, "://")
  {
    assert link[|scheme|..|scheme| + 3] == "://";
    assert OccursAt(link, "://", |scheme|);
  }

  lemma OneTelegram(rest: string)
    ensures !("t.me/socks" <= rest && "t.me/http" <= rest) && !("socks" <= rest && "http" <= rest)
  {
    assert "t.me/socks"[5] == 's' && "t.me/http"[5] == 'h' && "socks"[0] == 's' && "http"[0] == 'h';
  }

  function Scheme(p: Printing): string
    requires !p.Skip? && !p.Repeat?
  {
    if p.AsSS? then "ss" else if p.AsSSR? then "ssr" else "trojan"
  }

  predicate OneLine(s: string) { Free(s, '\n') && Free(s, '\r') && IsBytes(s) }

  /** A printed link has one "://" and is a line of bytes. */
  lemma LinkShape(p: Printing) returns (rest: string)
    requires LinkOk(p) && !p.Skip? && !p.Repeat?
    ensures LinkText(p) == Scheme(p) + "://" + rest && !Contains(rest, "://") && OneLine(rest)
  {
    hide B64, Query, UrlEncoded, Endpoint, ValueOk;
    match p {
      case AsSS(x) => rest := SsShape(x);
      case AsSSR(x, params) =>
        var text := SsrBody(x) + "/?" + Query(SsrPairs(x, params));
        rest := B64(text);
        B64Calm(text);
        CalmFree(rest);
        NoDoubleSlash(rest, 0);
      case AsTrojan(x) => rest := TrojanShape(x);
    }
  }

  lemma SsShape(x: Proxy) returns (rest: string)
    requires SsOk(x)
    ensures SsLink(x) == "ss://" + rest && !Contains(rest, "://") && OneLine(rest)
  {
    hide B64, UrlEncoded, Endpoint, ValueOk;
    var a, e, p := SsAddress(x), UrlEncoded(x.remark), PluginText(x);
    SsAddressCalm(x);
    EncodedCalm(x.remark);
    EncodedCalm(x.plugin + ";" + x.pluginOption);
    rest := a + (if HasPlugin(x) then "/?plugin=" + p else "") + "#" + e;
    assert SsLink(x) == "ss://" + rest;
    NoDoubleSlash(rest, |a|);
  }

  lemma TrojanShape(x: Proxy) returns (rest: string)
    requires TrojanOk(x)
    ensures TrojanLink(x) == "trojan://" + rest && !Contains(rest, "://") && OneLine(rest)
  {
    hide Query, UrlEncoded, Endpoint, TrojanPairs, Contains, ValueOk, Calm;
    var q, e := Query(TrojanPairs(x)), UrlEncoded(x.remark);
    TrojanText(x);
    EndpointCalm(x);
    CalmFree(Endpoint(x));
    EncodedCalm(x.remark);
    CalmFree(e);
    TrojanQueryLine(x);
    var tail := Endpoint(x) + "?" + q + "#" + e;
    rest := x.password + ['@'] + tail;
    assert TrojanLink(x) == "trojan://" + rest;
    assert Free(tail, '/') && OneLine(tail);
    NoScheme(x.password, '@', tail);
  }

  predicate SafeText(s: string) { OneLine(s) && Free(s, '/') }

  lemma SafeWords()
    ensures SafeText("allowInsecure") && SafeText("sni") && SafeText("ws") && SafeText("wspath")
    ensures SafeText("0") && SafeText("1")
  {
  }

  lemma TrojanQueryLine(x: Proxy)
    requires TrojanOk(x)
    ensures SafeText(Query(TrojanPairs(x)))
  {
    hide UrlEncoded, Query, ValueOk, Calm, TrojanPairs;
    var pairs := TrojanPairs(x);
    TrojanPairsAt(x);
    EncodedCalm(x.path);
    CalmFree(UrlEncoded(x.path));
    SafeWords();
    assert SafeText(x.host) && SafeText(UrlEncoded(x.path));
    hide SafeText;
    QueryLine(pairs);
  }

  lemma {:induction false} QueryLine(pairs: seq<Pair>)
    requires forall i | 0 <= i < |pairs| :: SafeText(pairs[i].key) && SafeText(pairs[i].value)
    ensures SafeText(Query(pairs))
  {
    if |pairs| > 1 { QueryLine(pairs[..|pairs| - 1]); }
  }

  /** Each printed link is given to its own parser, which reads the node back. */
  lemma LinkBack(p: Printing, others: Parsers)
    requires LinkOk(p) && !p.Skip? && !p.Repeat?
    ensures Explode(LinkText(p), others) == Back(p) && !Back(p).kind.Unknown?
    ensures LinkText(p) != "" && OneLine(LinkText(p))
  {
    hide SsNode, SsrNode, TrojanNode, Explode, SsLink, SsrLink, TrojanLink, SsOk, SsrOk, TrojanOk, Contains;
    var rest := LinkShape(p);
    Chosen(Scheme(p), rest, others);
    assert OneLine(Scheme(p) + "://");
    match p {
      case AsSS(x) => SsNodeBack(x);
      case AsSSR(x, params) => SsrNodeBack(x, params);
      case AsTrojan(x) => TrojanNodeBack(x);
    }
  }

  // ----- whole lists -----

  /** What an exported list reads back as: skipped nodes are gone, a repeated link gives
      the node before once more. */
  function Backs(nodes: seq<Proxy>, types: int): seq<Proxy> {
    if nodes == [] then [] else
    var before, how := Backs(nodes[..|nodes| - 1], types), HowPrinted(nodes[|nodes| - 1], types);
    if how.Skip? then before
    else if how.Repeat? then if before == [] then [] else before + [before[|before| - 1]]
    else before + [Back(how)]
  }

  /** The links read as those nodes; the last link, if it is not empty, as the last node. */
  ghost predicate ReadAs(links: seq<string>, backs: seq<Proxy>, others: Parsers) {
    && Nodes(links, others) == backs && (forall k | 0 <= k < |links| :: OneLine(links[k]))
    && var last := LastLink(links);
       if last == "" then backs == []
       else backs != [] && Explode(last, others) == backs[|backs| - 1] && !backs[|backs| - 1].kind.Unknown?
  }

  lemma OneMoreLink(links: seq<string>, backs: seq<Proxy>, link: string, others: Parsers)
    requires ReadAs(links, backs, others) && OneLine(link)
    requires if link == "" then backs == [] else !Explode(link, others).kind.Unknown?
    ensures ReadAs(links + [link], if link == "" then backs else backs + [Explode(link, others)], others)
  {
    hide Explode;
    var all := links + [link];
    assert all[..|links|] == links && all[|links|] == link;
    assert Stripped(link) == link;
  }

  lemma {:induction false} PrintedBack(nodes: seq<Proxy>, types: int, others: Parsers)
    requires forall k | 0 <= k < |nodes| :: LinkOk(HowPrinted(nodes[k], types))
    ensures ReadAs(Printed(nodes, types), Backs(nodes, types), others)
  {
    hide LinkOk, Explode, HowPrinted, LinkText, Back;
    if nodes != [] {
      var n := |nodes| - 1;
      var how, links, backs := HowPrinted(nodes[n], types), Printed(nodes[..n], types), Backs(nodes[..n], types);
      PrintedBack(nodes[..n], types, others);
      if !how.Skip? {
        if !how.Repeat? { LinkBack(how, others); }
        var link := if how.Repeat? then LastLink(links) else LinkText(how);
        OneMoreLink(links, backs, link, others);
      }
    }
  }

  /** Reading the base64 export of a list gives the nodes back, in order. */
  lemma RoundTrip(nodes: seq<Proxy>, types: int, others: Parsers)
    requires forall k | 0 <= k < |nodes| :: LinkOk(HowPrinted(nodes[k], types))
    requires |Unlines(Printed(nodes, types))| < TWO_32
    ensures Subscription(Export(Unlines(Printed(nodes, types)), false), others) == Backs(nodes, types)
  {
    hide LinkOk, HowPrinted, Lines, Unlines, Nodes, Backs, Printed, UrlSafeDecode, Export, Delimiter, OneLine, ReadAs;
    var links := Printed(nodes, types);
    PrintedBack(nodes, types, others);
    ReadAsNodes(links, Backs(nodes, types), others);
    TextBack(links);
    ExportBack(Unlines(links));
  }

  lemma ExportBack(text: string)
    requires IsBytes(text) && |text| < TWO_32
    ensures UrlSafeDecode(Export(text, false)) == text
  {
    hide Encode, Decode;
    ModSmall(|text|);
    assert text[..|text|] == text;
    DecodeEncode(text, true);
  }

  lemma ReadAsNodes(links: seq<string>, backs: seq<Proxy>, others: Parsers)
    requires ReadAs(links, backs, others)
    ensures Nodes(links, others) == backs && forall k | 0 <= k < |links| :: OneLine(links[k])
  {
  }

  /** The exported text is bytes and is cut into the printed lines. */
  lemma TextBack(links: seq<string>)
    requires forall k | 0 <= k < |links| :: OneLine(links[k])
    ensures var text := Unlines(links); IsBytes(text) && Lines(text, Delimiter(text)) == links
  {
    hide Lines, Unlines;
    var text := Unlines(links);
    LinesOfUnlines(links);
    UnlinesBytes(links);
    UnlinesNothing();
    if links == [] {
      NoLinesAt(Delimiter(text));
    } else {
      assert text[|text| - 1] == '\n';
    }
  }

  lemma NoLinesAt(delimiter: char)
    ensures Lines("", delimiter) == []
  {
  }

  lemma {:induction false} UnlinesBytes(lines: seq<string>)
    requires forall k | 0 <= k < |lines| :: OneLine(lines[k])
    ensures IsBytes(Unlines(lines))
  {
    if lines != [] { UnlinesBytes(lines[..|lines| - 1]); }
  }

  // ----- exports of one kind -----

  /** A node of the kind that is not asked for, which cannot be written as the other one. */
  predicate Unconvertible(x: Proxy, types: int) {
    || (x.kind.SS? && !Bit(types, 1) && Bit(types, 2) && !(IsSsrCipher(x.cipher) && x.plugin == ""))
    || (x.kind.SSR? && !Bit(types, 2) && Bit(types, 1)
        && !(IsSsCipher(x.cipher) && x.protocol == "origin" && x.obfs == "plain"))
  }

  /** The nodes that have a link of their own, and those links. */
  function OwnLinks(nodes: seq<Proxy>, types: int): seq<string> {
    if nodes == [] then [] else
    var before, how := OwnLinks(nodes[..|nodes| - 1], types), HowPrinted(nodes[|nodes| - 1], types);
    if how.Skip? || how.Repeat? then before else before + [LinkText(how)]
  }

  function OwnBacks(nodes: seq<Proxy>, types: int): seq<Proxy> {
    if nodes == [] then [] else
    var before, how := OwnBacks(nodes[..|nodes| - 1], types), HowPrinted(nodes[|nodes| - 1], types);
    if how.Skip? || how.Repeat? then before else before + [Back(how)]
  }

  /** The previous link is printed again exactly for the unconvertible nodes. There are
      none when both kinds are asked for, as by types 15. */
  lemma RepeatIff(x: Proxy, types: int)
    ensures HowPrinted(x, types).Repeat? <==> Unconvertible(x, types)
    ensures Bit(types, 1) == Bit(types, 2) ==> !Unconvertible(x, types)
    ensures Bit(15, 1) && Bit(15, 2)
  {
  }

  predicate AnyUnconvertible(nodes: seq<Proxy>, types: int) {
    exists k :: 0 <= k < |nodes| && Unconvertible(nodes[k], types)
  }

  /** Some unconvertible node stands behind a node that was printed. */
  predicate RepeatsANode(nodes: seq<Proxy>, types: int) {
    exists j, k :: 0 <= j < k < |nodes| && Unconvertible(nodes[k], types) && Own(nodes[j], types)
  }

  predicate Own(x: Proxy, types: int) { !HowPrinted(x, types).Skip? && !HowPrinted(x, types).Repeat? }

  lemma AnySnoc(nodes: seq<Proxy>, types: int)
    requires nodes != []
    ensures AnyUnconvertible(nodes, types) <==>
            AnyUnconvertible(nodes[..|nodes| - 1], types) || Unconvertible(nodes[|nodes| - 1], types)
  {
    hide Unconvertible;
    var n := |nodes| - 1;
    var most := nodes[..n];
    assert forall j | 0 <= j < n :: most[j] == nodes[j];
    if AnyUnconvertible(nodes, types) {
      var k :| 0 <= k < |nodes| && Unconvertible(nodes[k], types);
      if k < n { assert Unconvertible(most[k], types); }
    }
    if k :| 0 <= k < |most| && Unconvertible(most[k], types) { assert Unconvertible(nodes[k], types); }
  }

  predicate AnyOwn(nodes: seq<Proxy>, types: int) { exists j :: 0 <= j < |nodes| && Own(nodes[j], types) }

  lemma RepeatsSnoc(nodes: seq<Proxy>, types: int)
    requires nodes != []
    ensures var most, last := nodes[..|nodes| - 1], nodes[|nodes| - 1];
            && (RepeatsANode(nodes, types) <==> (RepeatsANode(most, types) || (Unconvertible(last, types) && AnyOwn(most, types))))
            && (AnyOwn(nodes, types) <==> (AnyOwn(most, types) || Own(last, types)))
  {
    hide Unconvertible, Own;
    var n := |nodes| - 1;
    var most := nodes[..n];
    assert forall j | 0 <= j < n :: most[j] == nodes[j];
    if RepeatsANode(nodes, types) {
      var j, k :| 0 <= j < k < |nodes| && Unconvertible(nodes[k], types) && Own(nodes[j], types);
      assert Own(most[j], types);
      if k < n { assert Unconvertible(most[k], types); }
    }
    if RepeatsANode(most, types) {
      var j, k :| 0 <= j < k < |most| && Unconvertible(most[k], types) && Own(most[j], types);
      assert Unconvertible(nodes[k], types) && Own(nodes[j], types);
    }
    if j :| 0 <= j < |most| && Own(most[j], types) { assert Own(nodes[j], types); }
    if j :| 0 <= j < |nodes| && Own(nodes[j], types) {
      if j < n { assert Own(most[j], types); }
    }
  }

  /** The printed lines are the nodes' own links exactly when no node is unconvertible. */
  lemma {:induction false} PrintedOwn(nodes: seq<Proxy>, types: int)
    ensures |OwnLinks(nodes, types)| <= |Printed(nodes, types)|
    ensures Printed(nodes, types) == OwnLinks(nodes, types) <==> !AnyUnconvertible(nodes, types)
  {
    hide HowPrinted, Unconvertible, LinkText, AnyUnconvertible;
    if nodes == [] {
      NoNodes(types);
    } else {
      var n := |nodes| - 1;
      PrintedOwn(nodes[..n], types);
      AnySnoc(nodes, types);
      RepeatIff(nodes[n], types);
      var links, own := Printed(nodes[..n], types), OwnLinks(nodes[..n], types);
      var how := HowPrinted(nodes[n], types);
      if !how.Skip? && !how.Repeat? {
        assert (links + [LinkText(how)])[..|links|] == links && (own + [LinkText(how)])[..|own|] == own;
      }
    }
  }

  lemma NoNodes(types: int)
    ensures !AnyUnconvertible([], types) && !RepeatsANode([], types) && !AnyOwn([], types)
  {
  }

  /** Every node with a link of its own comes back once, and nothing else does, exactly
      when no unconvertible node stands behind a printed one. */
  lemma {:induction false} BacksOwn(nodes: seq<Proxy>, types: int)
    ensures |OwnBacks(nodes, types)| <= |Backs(nodes, types)|
    ensures Backs(nodes, types) == [] <==> !AnyOwn(nodes, types)
    ensures Backs(nodes, types) == OwnBacks(nodes, types) <==> !RepeatsANode(nodes, types)
  {
    hide HowPrinted, Unconvertible, Back, RepeatsANode, AnyOwn;
    if nodes == [] {
      NoNodes(types);
    } else {
      var n := |nodes| - 1;
      var most, last := nodes[..n], nodes[n];
      BacksOwn(most, types);
      RepeatsSnoc(nodes, types);
      RepeatIff(last, types);
      var backs, own := Backs(most, types), OwnBacks(most, types);
      var how := HowPrinted(last, types);
      if !how.Skip? && !how.Repeat? {
        assert (backs + [Back(how)])[..|backs|] == backs && (own + [Back(how)])[..|own|] == own;
      }
    }
  }

  /** An export of SSR links of two SS nodes, the second with a plugin: its line is the link
      of the first one again. */
  lemma RepeatExample(x: Proxy, y: Proxy)
    requires x.kind.SS? && x.cipher == "none" && x.plugin == ""
    requires y.kind.SS? && y.plugin == "obfs-local"
    ensures var link := SsrLink(x.(protocol := "origin", obfs := "plain"), false);
            Printed([x, y], 2) == [link, link] && OwnLinks([x, y], 2) == [link]
  {
    hide SsrLink, IsSsrCipher;
    FirstCipher();
    assert [x, y][..1] == [x] && [x][..0] == [];
    assert HowPrinted(y, 2).Repeat?;
    assert Printed([], 2) == [] && OwnLinks([], 2) == [];
  }

  lemma FirstCipher()
    ensures IsSsrCipher("none")
  {
    assert SSR_CIPHERS[0] == "none";
  }

  /** Fields that no link carries have their initial values. */
  predicate Canonical(x: Proxy) {
    && x.remark != ""
    && match x.kind
       case SS =>
         && (x.plugin == "" <==> x.pluginOption == "") && x.group == (if x.plugin == "" then SS_DEFAULT_GROUP else "")
         && x.protocol == x.protocolParam == x.obfs == x.obfsParam == x.transport == x.host == x.path == ""
         && !x.tlsSecure && x.tfo == x.allowInsecure == Undef
       case SSR =>
         && x.group != "" && x.plugin == x.pluginOption == x.transport == x.host == x.path == ""
         && !(IsSsCipher(x.cipher) && x.obfs == "plain" && x.protocol == "origin")
         && !x.tlsSecure && x.tfo == x.allowInsecure == Undef
       case Trojan =>
         && x.group == TROJAN_DEFAULT_GROUP && x.tlsSecure && x.tfo == Undef && x.allowInsecure != Undef
         && x.cipher == x.plugin == x.pluginOption == x.protocol == x.protocolParam == x.obfs == x.obfsParam == ""
         && (if x.transport == "ws" then forall i | 0 <= i < |x.path| :: IsUnreserved(x.path[i])
             else x.transport == "tcp" && x.path == "")
       case Unknown => false
       case Other => false
  }

  lemma SsUnchanged(x: Proxy)
    requires x.kind.SS?
    ensures SsBack(x) == x <==> Canonical(x)
  {
    hide ToDecimal;
    assert Endpoint(x) != "";
  }

  lemma SsrUnchanged(x: Proxy)
    requires x.kind.SSR?
    ensures SsrBack(x, true) == x <==> Canonical(x)
  {
    hide ToDecimal, IsSsCipher;
    assert Endpoint(x) != "";
  }

  lemma TrojanUnchanged(x: Proxy)
    requires x.kind.Trojan?
    ensures TrojanBack(x) == x <==> Canonical(x)
  {
    hide ToDecimal, UrlEncoded, IsUnreserved;
    assert Endpoint(x) != "";
    EncodeIsIdentity(x.path);
    NothingEncoded();
  }

  /** Exactly the canonical nodes come back unchanged; a WebSocket path must not need
      percent-encoding, which rules out every path with a '/'. */
  lemma ComesBackUnchanged(x: Proxy)
    requires LinkOk(HowPrinted(x, 15)) && !HowPrinted(x, 15).Skip?
    ensures !HowPrinted(x, 15).Repeat? && (Back(HowPrinted(x, 15)) == x <==> Canonical(x))
  {
    hide LinkOk, SsBack, SsrBack, TrojanBack, Canonical;
    match x.kind {
      case SS => SsUnchanged(x);
      case SSR => SsrUnchanged(x);
      case Trojan => TrojanUnchanged(x);
      case _ =>
    }
  }
}
