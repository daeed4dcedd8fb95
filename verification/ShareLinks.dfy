/** Nodes and their share links: what proxyToSingle of subexport.cpp prints and what
    explode of subparser.cpp and its parsers read. */
module ShareLinks {
  import opened Common
  import opened StringUtil
  import opened Regex
  import opened UrlArgs
  import opened UrlEncoding
  import opened Base64

  // ----- nodes -----

  /** ProxyType; Other stands for the types that are never printed. */
  datatype Kind = Unknown | SS | SSR | Trojan | Other

  datatype Tribool = Undef | No | Yes

  /** The fields of Proxy that the links below carry. */
  datatype Proxy = Proxy(
    kind: Kind, group: string, remark: string, hostname: string, port: nat,
    password: string, cipher: string, plugin: string, pluginOption: string,
    protocol: string, protocolParam: string, obfs: string, obfsParam: string,
    transport: string, host: string, path: string, tlsSecure: bool,
    tfo: Tribool, allowInsecure: Tribool)

  const BLANK := Proxy(Unknown, "", "", "", 0, "", "", "", "", "", "", "", "", "", "", "", false, Undef, Undef)

  const SS_DEFAULT_GROUP := "SSProvider"
  const SSR_DEFAULT_GROUP := "SSRProvider"
  const TROJAN_DEFAULT_GROUP := "TrojanProvider"

  const SS_CIPHERS := [
    "rc4-md5", "aes-128-gcm", "aes-192-gcm", "aes-256-gcm", "aes-128-cfb", "aes-192-cfb", "aes-256-cfb",
    "aes-128-ctr", "aes-192-ctr", "aes-256-ctr", "camellia-128-cfb", "camellia-192-cfb", "camellia-256-cfb",
    "bf-cfb", "chacha20-ietf-poly1305", "xchacha20-ietf-poly1305", "salsa20", "chacha20", "chacha20-ietf"]

  const SSR_CIPHERS := [
    "none", "table", "rc4", "rc4-md5", "aes-128-cfb", "aes-192-cfb", "aes-256-cfb", "aes-128-ctr",
    "aes-192-ctr", "aes-256-ctr", "bf-cfb", "camellia-128-cfb", "camellia-192-cfb", "camellia-256-cfb",
    "cast5-cfb", "des-cfb", "idea-cfb", "rc2-cfb", "seed-cfb", "salsa20", "chacha20", "chacha20-ietf"]

  predicate IsSsCipher(c: string) { c in SS_CIPHERS }

  predicate IsSsrCipher(c: string) { c in SSR_CIPHERS }

  // ----- printing -----

  /** urlSafeBase64Encode. */
  function B64(s: string): string { UrlSafeEncode(s[..|s| % TWO_32]) }

  function Endpoint(x: Proxy): string { x.hostname + ":" + ToDecimal(x.port) }

  predicate HasPlugin(x: Proxy) { x.plugin != "" && x.pluginOption != "" }

  function SsLink(x: Proxy): string {
    "ss://" + B64(x.cipher + ":" + x.password) + "@" + Endpoint(x)
    + (if HasPlugin(x) then "/?plugin=" + UrlEncoded(x.plugin + ";" + x.pluginOption) else "")
    + "#" + UrlEncoded(x.remark)
  }

  function SsrBody(x: Proxy): string {
    Endpoint(x) + ":" + x.protocol + ":" + x.cipher + ":" + x.obfs + ":" + B64(x.password)
  }

  function SsrPairs(x: Proxy, params: bool): seq<Pair> {
    [Pair("group", B64(x.group)), Pair("remarks", B64(x.remark))]
    + if params then [Pair("obfsparam", B64(x.obfsParam)), Pair("protoparam", B64(x.protocolParam))] else []
  }

  /** Links of Shadowsocks nodes carry no parameters. */
  function SsrLink(x: Proxy, params: bool): string {
    "ssr://" + B64(SsrBody(x) + "/?" + Query(SsrPairs(x, params)))
  }

  function TrojanPairs(x: Proxy): seq<Pair> {
    [Pair("allowInsecure", if x.allowInsecure.Yes? then "1" else "0")]
    + (if x.host != "" then [Pair("sni", x.host)] else [])
    + (if x.transport == "ws" then [Pair("ws", "1")] else [])
    + (if x.transport == "ws" && x.path != "" then [Pair("wspath", UrlEncoded(x.path))] else [])
  }

  function TrojanLink(x: Proxy): string {
    "trojan://" + x.password + "@" + Endpoint(x) + "?" + Query(TrojanPairs(x)) + "#" + UrlEncoded(x.remark)
  }

  /** What the export does with a node: nothing, repeat the last link, or print a link of
      the node seen as one of the three kinds. */
  datatype Printing = Skip | Repeat | AsSS(x: Proxy) | AsSSR(x: Proxy, params: bool) | AsTrojan(x: Proxy)

  predicate Bit(types: int, n: nat)
    requires 1 <= n <= 4
  {
    types >= 1 && types / (if n == 1 then 1 else if n == 2 then 2 else if n == 3 then 4 else 8) % 2 == 1
  }

  function HowPrinted(x: Proxy, types: int): Printing {
    match x.kind
    case SS =>
      if Bit(types, 1) then AsSS(x)
      else if !Bit(types, 2) then Skip
      else if IsSsrCipher(x.cipher) && x.plugin == "" then AsSSR(x.(protocol := "origin", obfs := "plain"), false)
      else Repeat
    case SSR =>
      if Bit(types, 2) then AsSSR(x, true)
      else if !Bit(types, 1) then Skip
      else if IsSsCipher(x.cipher) && x.protocol == "origin" && x.obfs == "plain" then AsSS(x.(plugin := ""))
      else Repeat
    case Trojan => if Bit(types, 4) then AsTrojan(x) else Skip
    case Unknown => Skip
    case Other => Skip
  }

  function LinkText(p: Printing): string
    requires !p.Skip? && !p.Repeat?
  {
    match p
    case AsSS(x) => SsLink(x)
    case AsSSR(x, params) => SsrLink(x, params)
    case AsTrojan(x) => TrojanLink(x)
  }

  function LastLink(links: seq<string>): string { if links == [] then "" else links[|links| - 1] }

  /** The printed links; a repeated link is the one before it, or "" at the start. */
  function Printed(nodes: seq<Proxy>, types: int): seq<string> {
    if nodes == [] then [] else
    var links, how := Printed(nodes[..|nodes| - 1], types), HowPrinted(nodes[|nodes| - 1], types);
    if how.Skip? then links else links + [if how.Repeat? then LastLink(links) else LinkText(how)]
  }

  function Export(links: string, nodelist: bool): string {
    if nodelist then links else Encode(links[..|links| % TWO_32])
  }

  method ProxyToSingle(nodes: seq<Proxy>, types: int, nodelist: bool) returns (text: string)
    ensures text == Export(Unlines(Printed(nodes, types)), nodelist)
  {
    hide Unlines, Encode, B64, SsLink, SsrLink, TrojanLink;
    var proxyStr, allLinks := "", "";
    var ss, ssr, trojan := Bit(types, 1), Bit(types, 2), Bit(types, 4);
    UnlinesNothing();
    assert nodes[..0] == [];
    for k := 0 to |nodes|
      invariant allLinks == Unlines(Printed(nodes[..k], types)) && proxyStr == LastLink(Printed(nodes[..k], types))
    {
      var x := nodes[k];
      ghost var links := Printed(nodes[..k], types);
      assert nodes[..k + 1][..k] == nodes[..k];
      match x.kind {
        case SS =>
          if ss {
            proxyStr := PrintSs(x);
          } else if ssr {
            if IsSsrCipher(x.cipher) && x.plugin == "" {
              proxyStr := PrintSsr(x.(protocol := "origin", obfs := "plain"), false);
            }
          } else {
            continue;
          }
        case SSR =>
          if ssr {
            proxyStr := PrintSsr(x, true);
          } else if ss {
            if IsSsCipher(x.cipher) && x.protocol == "origin" && x.obfs == "plain" {
              proxyStr := PrintSs(x.(plugin := ""));
            }
          } else {
            continue;
          }
        case Trojan =>
          if !trojan { continue; }
          proxyStr := PrintTrojan(x);
        case Unknown => continue;
        case Other => continue;
      }
      UnlinesOne(proxyStr);
      UnlinesAppend(links, [proxyStr]);
      allLinks := allLinks + proxyStr + "\n";
    }
    assert nodes[..|nodes|] == nodes;
    if nodelist { return allLinks; }
    text := Base64Encode(allLinks);
  }

  method PrintSs(x: Proxy) returns (link: string)
    ensures link == SsLink(x)
  {
    var secret := UrlSafeBase64Encode(x.cipher + ":" + x.password);
    link := "ss://" + secret + "@" + x.hostname + ":" + ToDecimal(x.port);
    if x.plugin != "" && x.pluginOption != "" {
      var plugin := UrlEncode(x.plugin + ";" + x.pluginOption);
      link := link + "/?plugin=" + plugin;
    }
    var remark := UrlEncode(x.remark);
    link := link + "#" + remark;
  }

  /** Appending "&key=value" to a query. */
  lemma QuerySnoc(pairs: seq<Pair>, key: string, value: string, prefix: string)
    requires prefix == (if pairs == [] then "" else "&") + key + "="
    ensures Query(pairs + [Pair(key, value)]) == Query(pairs) + prefix + value
    ensures pairs == [] ==> Query([Pair(key, value)]) == prefix + value
  {
  }

  method PrintSsr(x: Proxy, params: bool) returns (link: string)
    ensures link == SsrLink(x, params)
  {
    hide UrlSafeEncode, Query, ToDecimal;
    var password := UrlSafeBase64Encode(x.password);
    var group := UrlSafeBase64Encode(x.group);
    var remark := UrlSafeBase64Encode(x.remark);
    var text := x.hostname + ":" + ToDecimal(x.port) + ":" + x.protocol + ":" + x.cipher + ":" + x.obfs + ":" + password;
    assert text == SsrBody(x);
    var query := "group=" + group + "&remarks=" + remark;
    QuerySnoc([], "group", group, "group=");
    ghost var pairs := [Pair("group", group)];
    QuerySnoc(pairs, "remarks", remark, "&remarks=");
    pairs := pairs + [Pair("remarks", remark)];
    if params {
      var obfsParam := UrlSafeBase64Encode(x.obfsParam);
      var protocolParam := UrlSafeBase64Encode(x.protocolParam);
      QuerySnoc(pairs, "obfsparam", obfsParam, "&obfsparam=");
      pairs := pairs + [Pair("obfsparam", obfsParam)];
      QuerySnoc(pairs, "protoparam", protocolParam, "&protoparam=");
      pairs := pairs + [Pair("protoparam", protocolParam)];
      query := query + "&obfsparam=" + obfsParam + "&protoparam=" + protocolParam;
    }
    assert pairs == SsrPairs(x, params);
    assert query == Query(SsrPairs(x, params));
    text := text + "/?" + query;
    link := UrlSafeBase64Encode(text);
    link := "ssr://" + link;
  }

  method PrintTrojanQuery(x: Proxy) returns (query: string)
    ensures query == Query(TrojanPairs(x))
  {
    hide Query, UrlEncoded;
    var allow := if x.allowInsecure.Yes? then "1" else "0";
    query := "allowInsecure=" + allow;
    ghost var pairs := [Pair("allowInsecure", allow)];
    QuerySnoc([], "allowInsecure", allow, "allowInsecure=");
    if x.host != "" {
      QuerySnoc(pairs, "sni", x.host, "&sni=");
      query, pairs := query + "&sni=" + x.host, pairs + [Pair("sni", x.host)];
    }
    ghost var upToHost := pairs;
    if x.transport == "ws" {
      QuerySnoc(pairs, "ws", "1", "&ws=");
      query, pairs := query + "&ws=" + "1", pairs + [Pair("ws", "1")];
      if x.path != "" {
        var path := UrlEncode(x.path);
        QuerySnoc(pairs, "wspath", path, "&wspath=");
        query, pairs := query + "&wspath=" + path, pairs + [Pair("wspath", path)];
      }
    }
    assert pairs == TrojanPairs(x) by {
      assert upToHost == [Pair("allowInsecure", allow)] + (if x.host != "" then [Pair("sni", x.host)] else []);
    }
  }

  method PrintTrojan(x: Proxy) returns (link: string)
    ensures link == TrojanLink(x)
  {
    hide Query, TrojanPairs, ToDecimal, UrlEncoded;
    link := "trojan://" + x.password + "@" + x.hostname + ":" + ToDecimal(x.port) + "?";
    var query := PrintTrojanQuery(x);
    var remark := UrlEncode(x.remark);
    assert link == "trojan://" + x.password + "@" + Endpoint(x) + "?";
    link := link + query + "#" + remark;
  }

  // ----- splitting -----

  datatype Login = Login(secret: string, server: string, port: string)

  function Before(s: string, c: char): string { s[..Find(s, c)] }

  function After(s: string, c: char): string { if Find(s, c) < |s| then s[Find(s, c) + 1..] else "" }

  predicate NoSpace(s: string) { forall i | 0 <= i < |s| :: !IsWhitespace(s[i]) }

  function WithoutSpaces(s: string): string {
    if s == "" then "" else (if IsWhitespace(s[0]) then "" else [s[0]]) + WithoutSpaces(s[1..])
  }

  /** (\S+?)@(\S+):(\d+) */
  const SS_LOGIN := Group(NotSpace, 1, true, Character('@', Group(NotSpace, 1, false, Character(':', Group(Digit, 1, false, End)))))

  function SsLogin(s: string): Option<Login> {
    var g := Search(SS_LOGIN, s);
    if g.Some? then Some(Login(g.value[0], g.value[1], g.value[2])) else None
  }

  /** (\S+?):(\S+) */
  const SECRET := Group(NotSpace, 1, true, Character(':', Group(NotSpace, 1, false, End)))

  function CipherAndPassword(s: string): Option<(string, string)> {
    var g := Search(SECRET, s);
    if g.Some? then Some((g.value[0], g.value[1])) else None
  }

  /** (\S+?):(\S+)@(\S+):(\d+) */
  const LEGACY :=
    Group(NotSpace, 1, true, Character(':', Group(NotSpace, 1, false, Character('@',
      Group(NotSpace, 1, false, Character(':', Group(Digit, 1, false, End)))))))

  /** (.*?)@(.*):(.*) */
  const TROJAN_LOGIN :=
    Group(NotLineFeed, 0, true, Character('@', Group(NotLineFeed, 0, false, Character(':', Group(NotLineFeed, 0, false, End)))))

  function TrojanLogin(s: string): Option<Login> {
    var g := Search(TROJAN_LOGIN, s);
    if g.Some? then Some(Login(g.value[0], g.value[1], g.value[2])) else None
  }

  /** (\S+):(\d+?):(\S+?):(\S+?):(\S+?):(\S+) */
  const SSR_FIELDS :=
    Group(NotSpace, 1, false, Character(':', Group(Digit, 1, true, Character(':', Group(NotSpace, 1, true, Character(':',
      Group(NotSpace, 1, true, Character(':', Group(NotSpace, 1, true, Character(':', Group(NotSpace, 1, false, End)))))))))))

  function SsrFields(s: string): (f: Option<seq<string>>)
    ensures f.Some? ==> |f.value| == 6
  {
    Search(SSR_FIELDS, s)
  }

  // ----- conversions -----

  function LeadingDigits(s: string): (d: string)
    ensures AllDigits(d)
  {
    if s != "" && IsDigit(s[0]) then [s[0]] + LeadingDigits(s[1..]) else ""
  }

  /** atoi, without its overflow. */
  function ToInt(s: string): int {
    if s == "" then 0
    else if IsWhitespace(s[0]) then ToInt(s[1..])
    else if s[0] == '-' then 0 - FromDecimal(LeadingDigits(s[1..]))
    else if s[0] == '+' then FromDecimal(LeadingDigits(s[1..]))
    else FromDecimal(LeadingDigits(s))
  }

  /** A port is stored in 16 bits. */
  function ToPort(s: string): nat { ToInt(s) % 65536 }

  function ToTribool(s: string): Tribool {
    if s == "true" || s == "1" then Yes
    else if s == "false" || s == "0" then No
    else if ToInt(s) > 1 then Yes else Undef
  }

  function OrElse(s: string, other: string): string { if s != "" then s else other }

  // ----- parsing -----

  datatype Account = Account(cipher: string, password: string, server: string, port: string)

  /** Only "cipher:password" is encoded, or everything. */
  function AddressAccount(address: string): Option<Account> {
    if Find(address, '@') < |address| then
      var login := SsLogin(address);
      if login.None? then None else
      var pair := CipherAndPassword(UrlSafeDecode(login.value.secret));
      if pair.Some? then Some(Account(pair.value.0, pair.value.1, login.value.server, login.value.port)) else None
    else
      var g := Search(LEGACY, UrlSafeDecode(address));
      if g.Some? then Some(Account(g.value[0], g.value[1], g.value[2], g.value[3])) else None
  }

  /** What follows "ss://". */
  function SsNode(text: string): Proxy {
    var t := Replace(text, "/?", "?");
    var main, hasArgs := Before(t, '#'), Find(Before(t, '#'), '?') < |Before(t, '#')|;
    var address, args := Before(main, '?'), After(main, '?');
    var plugins := UrlDecoded(UrlArg(args, "plugin"));
    var account := AddressAccount(address);
    if account.None? || account.value.port == "0" then BLANK else
    var Account(cipher, password, server, port) := account.value;
    BLANK.(kind := SS,
           group := if hasArgs then UrlSafeDecode(UrlArg(args, "group")) else SS_DEFAULT_GROUP,
           remark := OrElse(UrlDecoded(After(t, '#')), server + ":" + port),
           hostname := server, port := ToPort(port), cipher := cipher, password := password,
           plugin := Before(plugins, ';'),
           pluginOption := if Find(plugins, ';') < |plugins| then After(plugins, ';') else plugins)
  }

  /** What follows "ssr://". */
  function SsrNode(text: string): Proxy {
    var t := UrlSafeDecode(Replace(text, "\r", ""));
    var cut := FindString(t, "/?", 0);
    var body, args := if cut < |t| then t[..cut] else t, if cut < |t| then t[cut + 2..] else "";
    var f := SsrFields(body);
    if f.None? || f.value[1] == "0" then BLANK else
    var server, port, protocol, cipher, obfs := f.value[0], f.value[1], f.value[2], f.value[3], f.value[4];
    var node := BLANK.(
      group := OrElse(UrlSafeDecode(UrlArg(args, "group")), SSR_DEFAULT_GROUP),
      remark := OrElse(UrlSafeDecode(UrlArg(args, "remarks")), server + ":" + port),
      hostname := server, port := ToPort(port), cipher := cipher, password := UrlSafeDecode(f.value[5]));
    if IsSsCipher(cipher) && (obfs == "" || obfs == "plain") && (protocol == "" || protocol == "origin") then node.(kind := SS)
    else node.(kind := SSR, protocol := protocol, obfs := obfs,
               obfsParam := WithoutSpaces(UrlSafeDecode(UrlArg(args, "obfsparam"))),
               protocolParam := WithoutSpaces(UrlSafeDecode(UrlArg(args, "protoparam"))))
  }

  function TrojanFilled(login: Login, args: string, remark: string): Proxy {
    var Login(password, server, port) := login;
    var ws := UrlArg(args, "ws") == "1";
    BLANK.(kind := Trojan,
           group := OrElse(UrlDecoded(UrlArg(args, "group")), TROJAN_DEFAULT_GROUP),
           remark := OrElse(remark, server + ":" + port),
           hostname := server, port := ToPort(port), password := password,
           transport := if ws then "ws" else "tcp", path := if ws then UrlArg(args, "wspath") else "",
           host := OrElse(UrlArg(args, "sni"), UrlArg(args, "peer")), tlsSecure := true,
           tfo := ToTribool(UrlArg(args, "tfo")), allowInsecure := ToTribool(UrlArg(args, "allowInsecure")))
  }

  /** What follows "trojan://". */
  function TrojanNode(text: string): Proxy {
    var hash := FindLast(text, '#', |text|);
    var main, remark := text[..hash], if hash < |text| then UrlDecoded(text[hash + 1..]) else "";
    var login := TrojanLogin(Before(main, '?'));
    if login.None? || login.value.port == "0" then BLANK else TrojanFilled(login.value, After(main, '?'), remark)
  }

  /** The parsers behind the other schemes. */
  datatype Parsers = Parsers(
    vmess: string -> Proxy, socks: string -> Proxy, http: string -> Proxy, netch: string -> Proxy, httpSub: string -> Proxy)

  predicate IsLink(url: string) { "https://" <= url || "http://" <= url || "data:" <= url }

  /** explode: the first scheme found anywhere in the link decides. */
  function Explode(link: string, others: Parsers): Proxy {
    if Contains(link, "ssr://") then SsrNode(link[6..])
    else if Contains(link, "vmess://") || Contains(link, "vmess1://") then others.vmess(link)
    else if Contains(link, "ss://") then SsNode(link[5..])
    else if Contains(link, "socks://") || Contains(link, "https://t.me/socks") || Contains(link, "tg://socks") then others.socks(link)
    else if Contains(link, "https://t.me/http") || Contains(link, "tg://http") then others.http(link)
    else if Contains(link, "Netch://") then others.netch(link)
    else if Contains(link, "trojan://") then TrojanNode(link[9..])
    else if IsLink(link) then others.httpSub(link)
    else BLANK
  }

  function Delimiter(text: string): char {
    if Free(text, '\n') then if Free(text, '\r') then ' ' else '\r' else '\n'
  }

  function Stripped(line: string): string { if Free(line, '\r') then line else line[..|line| - 1] }

  /** The nodes of the lines that are recognised. */
  function Nodes(lines: seq<string>, others: Parsers): seq<Proxy> {
    if lines == [] then [] else
    var link := Stripped(lines[|lines| - 1]);
    var node := Explode(link, others);
    Nodes(lines[..|lines| - 1], others) + if link == "" || node.kind.Unknown? then [] else [node]
  }

  /** A base64 subscription. */
  function Subscription(sub: string, others: Parsers): seq<Proxy> {
    var text := UrlSafeDecode(sub);
    Nodes(Lines(text, Delimiter(text)), others)
  }

  // ----- the parsers as the original runs them -----

  lemma NoArgs(key: string)
    ensures UrlArg("", key) == "" && UrlDecoded("") == "" && UrlSafeDecode("") == ""
  {
  }

  lemma NotSkipped(url: string, key: string)
    requires key != "" && key[0] != '='
    ensures !Skips(url, key)
  {
    WhenTheScanMisses(url, key);
  }

  method Arg(url: string, key: string) returns (value: string)
    requires key != "" && key[0] != '='
    ensures value == UrlArg(url, key)
  {
    NotSkipped(url, key);
    value := GetUrlArg(url, key);
  }

  method ReadAddress(address: string) returns (account: Option<Account>)
    ensures account == AddressAccount(address)
  {
    hide Decode, SsLogin, CipherAndPassword, Search;
    if Find(address, '@') < |address| {
      var login := SsLogin(address);
      if login.None? { return None; }
      var secret := Base64Decode(login.value.secret, true);
      var pair := CipherAndPassword(secret);
      if pair.None? { return None; }
      account := Some(Account(pair.value.0, pair.value.1, login.value.server, login.value.port));
    } else {
      var whole := Base64Decode(address, true);
      var g := Search(LEGACY, whole);
      if g.None? { return None; }
      account := Some(Account(g.value[0], g.value[1], g.value[2], g.value[3]));
    }
  }

  /** find, substr and erase: the text before the character, and after it if it is there. */
  method CutAt(s: string, c: char) returns (found: bool, before: string, after: string)
    ensures (found <==> Find(s, c) < |s|) && before == Before(s, c) && after == After(s, c)
  {
    var pos := Find(s, c);
    found, before, after := pos < |s|, s[..pos], if pos < |s| then s[pos + 1..] else "";
  }

  lemma NothingAfter(c: char)
    ensures After("", c) == "" && Before("", c) == "" && Find("", c) == 0
  {
  }

  lemma NotFoundAfter(s: string, c: char)
    ensures Find(s, c) == |s| ==> After(s, c) == ""
  {
  }

  method ExplodeSS(link: string) returns (node: Proxy)
    requires |link| >= 5
    ensures node == SsNode(link[5..])
  {
    hide Replace, UrlArg, UrlDecoded, UrlSafeDecode, AddressAccount, ToPort, Before, After;
    var ps, plugin, pluginOpts, group := "", "", "", SS_DEFAULT_GROUP;
    NoArgs("plugin");
    NothingAfter(';');
    node := BLANK;
    var ss := ReplaceAllDistinct(link[5..], "/?", "?");
    var found, after;
    NotFoundAfter(ss, '#');
    found, ss, after := CutAt(ss, '#');
    if found {
      ps := UrlDecode(after);
    }
    NotFoundAfter(ss, '?');
    found, ss, after := CutAt(ss, '?');
    if found {
      var plugins := Arg(after, "plugin");
      plugins := UrlDecode(plugins);
      var options;
      found, plugin, options := CutAt(plugins, ';');
      pluginOpts := if found then options else plugins;
      group := Arg(after, "group");
      if group != "" {
        group := UrlSafeBase64Decode(group);
      }
    }
    var account := ReadAddress(ss);
    if account.None? { return; }
    var Account(cipher, password, server, port) := account.value;
    if port == "0" { return; }
    if ps == "" {
      ps := server + ":" + port;
    }
    node := BLANK.(kind := SS, group := group, remark := ps, hostname := server, port := ToPort(port),
                   cipher := cipher, password := password, plugin := plugin, pluginOption := pluginOpts);
  }

  method DecodedArg(url: string, key: string) returns (value: string)
    requires key != "" && key[0] != '='
    ensures value == UrlSafeDecode(UrlArg(url, key))
  {
    hide UrlArg, Decode;
    value := Arg(url, key);
    value := UrlSafeBase64Decode(value);
  }

  method ExplodeSSR(link: string) returns (node: Proxy)
    requires |link| >= 6
    ensures node == SsrNode(link[6..])
  {
    hide Replace, UrlArg, UrlSafeDecode, SsrFields, WithoutSpaces, ToPort, IsSsCipher, FindString;
    var remarks, group, obfsParam, protoParam := "", "", "", "";
    NoArgs("group");
    NoArgs("remarks");
    NoArgs("obfsparam");
    NoArgs("protoparam");
    assert WithoutSpaces("") == "" by { NoSpaces(); }
    node := BLANK;
    var ssr := ReplaceAllDistinct(link[6..], "\r", "");
    ssr := UrlSafeBase64Decode(ssr);
    var cut := FindString(ssr, "/?", 0);
    if cut < |ssr| {
      var args := ssr[cut + 2..];
      ssr := ssr[..cut];
      group := DecodedArg(args, "group");
      remarks := DecodedArg(args, "remarks");
      obfsParam := DecodedArg(args, "obfsparam");
      obfsParam := WithoutSpaces(obfsParam);
      protoParam := DecodedArg(args, "protoparam");
      protoParam := WithoutSpaces(protoParam);
    }
    var f := SsrFields(ssr);
    if f.None? { return; }
    var server, port, protocol, cipher, obfs := f.value[0], f.value[1], f.value[2], f.value[3], f.value[4];
    var password := UrlSafeBase64Decode(f.value[5]);
    if port == "0" { return; }
    if group == "" {
      group := SSR_DEFAULT_GROUP;
    }
    if remarks == "" {
      remarks := server + ":" + port;
    }
    node := BLANK.(group := group, remark := remarks, hostname := server, port := ToPort(port),
                   cipher := cipher, password := password);
    if IsSsCipher(cipher) && (obfs == "" || obfs == "plain") && (protocol == "" || protocol == "origin") {
      node := node.(kind := SS);
    } else {
      node := node.(kind := SSR, protocol := protocol, obfs := obfs, obfsParam := obfsParam, protocolParam := protoParam);
    }
  }

  lemma NoSpaces()
    ensures WithoutSpaces("") == ""
  {
  }

  /** The arguments of a Trojan link and its defaults. */
  method FillTrojan(login: Login, addition: string, named: string) returns (node: Proxy)
    ensures node == TrojanFilled(login, addition, named)
  {
    hide UrlArg, UrlDecoded, ToPort, ToTribool;
    var psk, server, port := login.secret, login.server, login.port;
    var remark := named;
    var host := Arg(addition, "sni");
    if host == "" {
      host := Arg(addition, "peer");
    }
    var tfo := Arg(addition, "tfo");
    var scv := Arg(addition, "allowInsecure");
    var group := Arg(addition, "group");
    group := UrlDecode(group);
    var path, network := "", "";
    var ws := Arg(addition, "ws");
    if ws == "1" {
      path := Arg(addition, "wspath");
      network := "ws";
    }
    if remark == "" {
      remark := server + ":" + port;
    }
    if group == "" {
      group := TROJAN_DEFAULT_GROUP;
    }
    node := BLANK.(kind := Trojan, group := group, remark := remark, hostname := server, port := ToPort(port),
                   password := psk, host := host, tlsSecure := true, transport := if network == "" then "tcp" else network,
                   path := path, tfo := ToTribool(tfo), allowInsecure := ToTribool(scv));
  }

  method ExplodeTrojan(link: string) returns (node: Proxy)
    requires |link| >= 9
    ensures node == TrojanNode(link[9..])
  {
    hide UrlDecoded, TrojanLogin, TrojanFilled;
    var remark, addition := "", "";
    node := BLANK;
    var trojan := link[9..];
    var pos := FindLast(trojan, '#', |trojan|);
    if pos < |trojan| {
      remark := UrlDecode(trojan[pos + 1..]);
      trojan := trojan[..pos];
    }
    assert trojan == link[9..][..pos];
    pos := Find(trojan, '?');
    assert trojan[..|trojan|] == trojan;
    if pos < |trojan| {
      addition := trojan[pos + 1..];
      trojan := trojan[..pos];
    }
    var login := TrojanLogin(trojan);
    if login.None? { return; }
    if login.value.port == "0" { return; }
    node := FillTrojan(login.value, addition, remark);
  }

  method ExplodeLink(link: string, others: Parsers) returns (node: Proxy)
    ensures node == Explode(link, others)
  {
    hide SsNode, SsrNode, TrojanNode;
    if Contains(link, "ssr://") {
      node := ExplodeSSR(link);
    } else if Contains(link, "vmess://") || Contains(link, "vmess1://") {
      node := others.vmess(link);
    } else if Contains(link, "ss://") {
      node := ExplodeSS(link);
    } else if Contains(link, "socks://") || Contains(link, "https://t.me/socks") || Contains(link, "tg://socks") {
      node := others.socks(link);
    } else if Contains(link, "https://t.me/http") || Contains(link, "tg://http") {
      node := others.http(link);
    } else if Contains(link, "Netch://") {
      node := others.netch(link);
    } else if Contains(link, "trojan://") {
      node := ExplodeTrojan(link);
    } else if IsLink(link) {
      node := others.httpSub(link);
    } else {
      node := BLANK;
    }
  }

  /** The last branch of explodeSub. */
  method ExplodeSub(sub: string, others: Parsers, before: seq<Proxy>) returns (nodes: seq<Proxy>)
    ensures nodes == before + Subscription(sub, others)
  {
    hide Lines, Explode, Decode;
    var text := Base64Decode(sub, true);
    var lines := Lines(text, Delimiter(text));
    nodes := before;
    assert lines[..0] == [];
    for k := 0 to |lines|
      invariant nodes == before + Nodes(lines[..k], others)
    {
      assert lines[..k + 1][..k] == lines[..k];
      var strLink := lines[k];
      if !Free(strLink, '\r') {
        strLink := strLink[..|strLink| - 1];
      }
      var node := ExplodeLink(strLink, others);
      if strLink == "" || node.kind.Unknown? { continue; }
      nodes := nodes + [node];
    }
    assert lines[..|lines|] == lines;
  }
}
