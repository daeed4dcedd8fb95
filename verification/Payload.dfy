/** Rulesets as Clash payloads and back: the line loop of getRuleset (interfaces.cpp) for
    types 3 and 4, and the Clash branch of convertRuleset (ruleconvert.cpp). */
module Payload {
  import opened Common
  import opened StringUtil

  // ----- printing -----

  datatype Kind = DomainPayload | IpcidrPayload

  /** A line up to "//", then without trailing white space. */
  function WithoutComment(line: string): string {
    var at := FindString(line, "//", 0);
    if at <= |line| then TrimWhitespace(line[..at]) else line
  }

  predicate IsPrinted(line: string, kind: Kind) {
    if kind.DomainPayload? then "DOMAIN-SUFFIX," <= line || "DOMAIN," <= line
    else "IP-CIDR," <= line || "IP-CIDR6," <= line
  }

  /** The second field: start and length. */
  function SecondField(line: string): (r: Option<(nat, nat)>)
    ensures r.Some? ==> 1 <= r.value.0 && r.value.0 + r.value.1 <= |line|
  {
    var comma := Find(line, ',');
    if comma == |line| then None else
    var start, next := comma + 1, Find(line, ',', comma + 1);
    if next < |line| then Some((start, next - start))
    else if line[|line| - 1] == '\r' then Some((start, |line| - 1 - start)) else Some((start, |line| - start))
  }

  /** What a line contributes; the X of DOMAIN-SUFFIX asks for a "+." in front. */
  function Entry(raw: string, kind: Kind): Option<string> {
    var line := WithoutComment(raw);
    var field := SecondField(line);
    if !IsPrinted(line, kind) || field.None? then None else
    var (start, len) := field.value;
    Some((if kind.DomainPayload? && start >= 2 && line[start - 2] == 'X' then "+." else "") + line[start..start + len])
  }

  function Entries(lines: seq<string>, kind: Kind): seq<string> {
    if lines == [] then [] else
    var e := Entry(lines[|lines| - 1], kind);
    Entries(lines[..|lines| - 1], kind) + if e.Some? then [e.value] else []
  }

  function Wrapped(entries: seq<string>): seq<string> {
    seq(|entries|, k requires 0 <= k < |entries| => "  - '" + entries[k] + "'")
  }

  function Placeholder(kind: Kind): string {
    if kind.DomainPayload? then "  - '--placeholder--'" else "  - '0.0.0.0/32'"
  }

  function PayloadText(text: string, kind: Kind): string {
    var entries := Entries(Lines(text, LineBreak(text)), kind);
    "payload:\n" + if entries == [] then Placeholder(kind) else Unlines(Wrapped(entries))
  }

  method PrintPayload(text: string, kind: Kind) returns (output: string)
    ensures output == PayloadText(text, kind)
  {
    hide Lines, Unlines, Wrapped, Entry, LineBreak;
    output := "payload:\n";
    ghost var head := output;
    var lines := Lines(text, LineBreak(text));
    ghost var entries: seq<string> := [];
    UnlinesNothing();
    assert lines[..0] == [];
    NothingWrapped();
    for k := 0 to |lines|
      invariant entries == Entries(lines[..k], kind) && output == head + Unlines(Wrapped(entries))
    {
      assert lines[..k + 1][..k] == lines[..k];
      var piece := PrintLine(lines[k], kind);
      if piece == "" { continue; }
      ghost var e := Entry(lines[k], kind).value;
      OnePiece(entries, e);
      output := output + (piece + "\n");
      entries := entries + [e];
    }
    assert lines[..|lines|] == lines;
    NonEmpty(entries);
    if output == "payload:\n" {
      output := output + Placeholder(kind);
    }
  }

  /** What one line adds to the payload, or "". */
  method PrintLine(raw: string, kind: Kind) returns (piece: string)
    ensures var e := Entry(raw, kind); piece == if e.Some? then "  - '" + e.value + "'" else ""
  {
    hide WithoutComment, IsPrinted, SecondField;
    var line := WithoutComment(raw);
    if !IsPrinted(line, kind) { return ""; }
    var field := SecondField(line);
    if field.None? { return ""; }
    var start, len := field.value.0, field.value.1;
    piece := "  - '";
    if kind.DomainPayload? && start >= 2 && line[start - 2] == 'X' {
      piece := piece + "+.";
    }
    piece := piece + line[start..start + len] + "'";
  }

  lemma NonEmpty(entries: seq<string>)
    ensures entries != [] ==> Unlines(Wrapped(entries)) != ""
  {
  }

  lemma NothingWrapped()
    ensures Wrapped([]) == []
  {
  }

  lemma OnePiece(entries: seq<string>, e: string)
    ensures Unlines(Wrapped(entries + [e])) == Unlines(Wrapped(entries)) + ("  - '" + e + "'" + "\n")
  {
    var piece := "  - '" + e + "'";
    UnlinesOne(piece);
    UnlinesAppend(Wrapped(entries), [piece]);
    assert Wrapped(entries + [e]) == Wrapped(entries) + [piece];
  }

  // ----- reading -----

  function SkipWhitespace(s: string): string {
    if s != "" && IsWhitespace(s[0]) then SkipWhitespace(s[1..]) else s
  }

  /** A list item: "- " with white space around it. */
  predicate IsItem(line: string) {
    var t := SkipWhitespace(line);
    |t| >= 2 && t[0] == '-' && IsWhitespace(t[1])
  }

  /** The text of an item, without a pair of quotes around it. */
  function ItemText(line: string): string {
    if !IsItem(line) then line else
    var t := SkipWhitespace(SkipWhitespace(line)[1..]);
    if |t| >= 2 && (t[0] == '\'' || t[0] == '"') && t[|t| - 1] == t[0] then t[1..|t| - 1] else t
  }

  function ItemTexts(body: string): string
    decreases |body|
  {
    var end := Find(body, '\n');
    if end == |body| then ItemText(body) else ItemText(body[..end]) + "\n" + ItemTexts(body[end + 1..])
  }

  /** The items one a line; the replacement puts a line feed before the first one. */
  function Unwrapped(body: string): string {
    (if IsItem(body[..Find(body, '\n')]) then "\n" else "") + ItemTexts(body)
  }

  /** ".*" removed from the end as often as it is there. */
  function DropStars(s: string): string {
    if |s| >= 2 && s[|s| - 2..] == ".*" then DropStars(s[..|s| - 2]) else s
  }

  function Drop(s: string, n: nat): string { if n <= |s| then s[n..] else "" }

  /** The line without blanks around it, a carriage return and a comment. */
  function Cleaned(raw: string): string {
    var t := Trim(raw);
    WithoutComment(if t != "" && t[|t| - 1] == '\r' then t[..|t| - 1] else t)
  }

  /** One line of a domain or ipcidr payload as a Surge rule. */
  function RuleLine(raw: string, isIPv4: string -> bool): string { Ruled(Cleaned(raw), isIPv4) }

  function Ruled(c: string, isIPv4: string -> bool): string {
    if c == "" || c[0] == ';' || c[0] == '#' then c
    else if Find(c, '/') < |c| then (if isIPv4(c[..Find(c, '/')]) then "IP-CIDR," else "IP-CIDR6,") + c
    else if c[0] == '.' || "+." <= c then
      var d := DropStars(c);
      "DOMAIN-" + (if d != c then "KEYWORD," else "SUFFIX,") + Drop(d, if d != "" && d[0] == '.' then 1 else 2)
    else "DOMAIN," + c
  }

  function RuleLines(lines: seq<string>, isIPv4: string -> bool): seq<string> {
    seq(|lines|, k requires 0 <= k < |lines| => RuleLine(lines[k], isIPv4))
  }

  function Converted(content: string, isIPv4: string -> bool): string
    requires "payload:\n" <= content
  {
    var text := Unwrapped(content[9..]);
    Unlines(RuleLines(Lines(text, LineBreak(text)), isIPv4))
  }

  method ConvertPayload(content: string, isIPv4: string -> bool) returns (output: string)
    requires "payload:\n" <= content
    ensures output == Converted(content, isIPv4)
  {
    hide Lines, Unlines, RuleLine, LineBreak, Unwrapped;
    var text := Unwrapped(content[9..]);
    var lines := Lines(text, LineBreak(text));
    output := "";
    UnlinesNothing();
    assert RuleLines(lines[..0], isIPv4) == [];
    for k := 0 to |lines|
      invariant output == Unlines(RuleLines(lines[..k], isIPv4))
    {
      var line := ConvertLine(lines[k], isIPv4);
      UnlinesOne(line);
      UnlinesAppend(RuleLines(lines[..k], isIPv4), [line]);
      assert RuleLines(lines[..k + 1], isIPv4) == RuleLines(lines[..k], isIPv4) + [line];
      output := output + (line + "\n");
    }
    assert lines[..|lines|] == lines;
  }

  /** The editing of a line in place; the size is that of the line before its comment was cut. */
  method CleanLine(raw: string) returns (strLine: string, lineSize: nat)
    ensures strLine == Cleaned(raw) && |strLine| <= lineSize && !("//" <= strLine)
  {
    hide Trim, TrimWhitespace;
    strLine := Trim(raw);
    lineSize := |strLine|;
    if lineSize > 0 && strLine[lineSize - 1] == '\r' {
      lineSize := lineSize - 1;
      strLine := strLine[..lineSize];
    }
    CleanedHasNoComment(strLine);
    var comment := FindString(strLine, "//", 0);
    if comment <= |strLine| {
      strLine := TrimWhitespace(strLine[..comment]);
    }
  }

  /** The body of the loop. */
  method ConvertLine(raw: string, isIPv4: string -> bool) returns (output: string)
    ensures output == RuleLine(raw, isIPv4)
  {
    hide Cleaned, DropStars;
    var strLine, lineSize := CleanLine(raw);
    output := "";
    if strLine != "" && strLine[0] != ';' && strLine[0] != '#' && !(lineSize >= 2 && "//" <= strLine) {
      var pos := Find(strLine, '/');
      if pos < |strLine| {
        if isIPv4(strLine[..pos]) {
          output := output + "IP-CIDR,";
        } else {
          output := output + "IP-CIDR6,";
        }
      } else if strLine[0] == '.' || (lineSize >= 2 && "+." <= strLine) {
        output := ConvertSuffix(strLine);
        return;
      } else {
        output := output + "DOMAIN,";
      }
    }
    output := output + strLine;
  }

  /** A pattern that starts with a dot or with "+.". */
  method ConvertSuffix(c: string) returns (output: string)
    ensures var d := DropStars(c);
            output == "DOMAIN-" + (if d != c then "KEYWORD," else "SUFFIX,") + Drop(d, if d != "" && d[0] == '.' then 1 else 2)
  {
    hide DropStars;
    var strLine, keyword := c, false;
    while |strLine| >= 2 && strLine[|strLine| - 2..] == ".*"
      invariant DropStars(strLine) == DropStars(c) && |strLine| <= |c| && (keyword <==> |strLine| < |c|)
      invariant !keyword ==> strLine == c
    {
      OneStar(strLine);
      keyword := true;
      strLine := strLine[..|strLine| - 2];
    }
    NoStar(strLine);
    output := "DOMAIN-";
    if keyword {
      output := output + "KEYWORD,";
    } else {
      output := output + "SUFFIX,";
    }
    output := output + Drop(strLine, if strLine != "" && strLine[0] == '.' then 1 else 2);
  }

  lemma OneStar(s: string)
    requires |s| >= 2 && s[|s| - 2..] == ".*"
    ensures DropStars(s) == DropStars(s[..|s| - 2])
  {
  }

  lemma NoStar(s: string)
    requires !(|s| >= 2 && s[|s| - 2..] == ".*")
    ensures DropStars(s) == s
  {
  }

  /** After the comment is cut no "//" is left in front, and nothing has grown. */
  lemma CleanedHasNoComment(t: string)
    ensures !("//" <= WithoutComment(t)) && |WithoutComment(t)| <= |t|
  {
    var at := FindString(t, "//", 0);
    PrefixOccurs(t, "//");
    if at <= |t| { TrimShrinks(t[..at]); }
  }

  lemma PrefixOccurs(s: string, p: string)
    ensures p <= s <==> OccursAt(s, p, 0)
  {
  }
}
