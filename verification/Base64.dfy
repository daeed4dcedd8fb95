/** base64.cpp: base64 with its url-safe form. The encoder keeps the length in 32 bits;
    the decoder stops at '=', and copies what is no base64 character, dropping the
    group begun before it. */
module Base64 {
  import opened Common
  import opened StringUtil

  // ----- the alphabet -----

  /** base64_chars[v]. */
  function Letter(v: nat): char
    requires v < 64
  {
    if v < 26 then (65 + v) as char
    else if v < 52 then (71 + v) as char
    else if v < 62 then (v - 4) as char
    else if v == 62 then '+' else '/'
  }

  predicate IsPlain(c: char) { 'A' <= c <= 'Z' || 'a' <= c <= 'z' || '0' <= c <= '9' || c == '+' || c == '/' }

  /** The entry test of the decoder: itable holds 1 for the alphabet, 2 for '-' and '_'. */
  predicate Accepts(c: char, urlSafe: bool) { IsPlain(c) || (urlSafe && (c == '-' || c == '_')) }

  /** The table dtable. */
  function Sextet(c: char): (v: nat)
    requires Accepts(c, true)
    ensures v < 64
  {
    if 'A' <= c <= 'Z' then c as int - 65
    else if 'a' <= c <= 'z' then c as int - 71
    else if '0' <= c <= '9' then c as int + 4
    else if c == '+' || c == '-' then 62 else 63
  }

  lemma SextetLetter(v: nat)
    requires v < 64
    ensures IsPlain(Letter(v)) && Sextet(Letter(v)) == v
  {
  }

  // ----- encoding (sections 4 and 5 of RFC 4648) -----

  /** A character as an unsigned char. */
  function Octet(c: char): (b: nat)
    ensures b < 256
  {
    c as int % 256
  }

  predicate AreSextets(g: seq<nat>) { forall k | 0 <= k < |g| :: g[k] < 64 }

  function Quad(a: nat, b: nat, c: nat): (q: seq<nat>)
    requires a < 256 && b < 256 && c < 256
    ensures |q| == 4 && AreSextets(q)
  {
    [a / 4, a % 4 * 16 + b / 16, b % 16 * 4 + c / 64, c % 64]
  }

  function Letters(q: seq<nat>): (s: string)
    requires AreSextets(q)
    ensures |s| == |q|
  {
    seq(|q|, k requires 0 <= k < |q| => Letter(q[k]))
  }

  /** Groups of three octets as four letters; a last group of one or two octets is
      zero-filled and padded with '='. */
  function Encode(s: string): string {
    if |s| == 0 then ""
    else if |s| == 1 then Letters(Quad(Octet(s[0]), 0, 0)[..2]) + "=="
    else if |s| == 2 then Letters(Quad(Octet(s[0]), Octet(s[1]), 0)[..3]) + "="
    else Letters(Quad(Octet(s[0]), Octet(s[1]), Octet(s[2]))) + Encode(s[3..])
  }

  lemma EncodeGroup(s: string)
    requires |s| >= 3
    ensures Encode(s) == Letters(Quad(Octet(s[0]), Octet(s[1]), Octet(s[2]))) + Encode(s[3..])
  {
  }

  lemma EncodeLast(s: string, a: char, b: char, c: char)
    requires 0 < |s| < 3 && a == s[0] && b == (if |s| > 1 then s[1] else '\0') && c == '\0'
    ensures Encode(s) == Letters(Quad(Octet(a), Octet(b), Octet(c))[..|s| + 1]) + seq(3 - |s|, _ => '=')
  {
  }

  method Base64Encode(text: string) returns (ret: string)
    ensures ret == Encode(text[..|text| % TWO_32])
  {
    hide Encode, Quad, Letters, Octet;
    var inLen := |text| % TWO_32;
    ret := "";
    var i, at := 0, 0;
    var chars := new char[3](_ => '\0');
    ghost var s := text[..inLen];
    ghost var rest := s;
    while at < inLen
      invariant i < 3 == chars.Length && at <= inLen && |rest| == inLen - at + i
      invariant rest[i..] == s[at..] && rest[..i] == chars[..i]
      invariant ret + Encode(rest) == Encode(s)
    {
      chars[i] := text[at];
      assert rest[i] == rest[i..][0] == s[at] && rest[i + 1..] == rest[i..][1..];
      i, at := i + 1, at + 1;
      assert rest[..i] == chars[..i];
      if i == 3 {
        assert forall k | 0 <= k < 3 :: rest[k] == rest[..3][k] == chars[k];
        EncodeGroup(rest);
        ret := ret + Letters(Quad(Octet(chars[0]), Octet(chars[1]), Octet(chars[2])));
        rest := rest[3..];
        i := 0;
      }
    }
    if i != 0 {
      assert rest == rest[..i] && rest[0] == chars[0] && (i == 2 ==> rest[1] == chars[1]);
      var j := i;
      while j < 3
        invariant i <= j <= 3 && rest[0] == chars[0] && (i == 2 ==> rest[1] == chars[1])
        invariant forall k | i <= k < j :: chars[k] == '\0'
      {
        chars[j] := '\0';
        j := j + 1;
      }
      EncodeLast(rest, chars[0], chars[1], chars[2]);
      ret := ret + Letters(Quad(Octet(chars[0]), Octet(chars[1]), Octet(chars[2]))[..i + 1]) + seq(3 - i, _ => '=');
    } else {
      assert rest == s[at..] == "";
      EncodeGroupEmpty();
    }
  }

  lemma EncodeGroupEmpty()
    ensures Encode("") == ""
  {
  }

  // ----- decoding -----

  /** The three octets of four sextets. */
  function Triple(g: seq<nat>): (t: string)
    requires |g| == 4 && AreSextets(g)
    ensures |t| == 3
  {
    [(g[0] * 4 % 256 + g[1] / 16) as char, (g[1] % 16 * 16 + g[2] / 4) as char, (g[2] % 4 * 64 + g[3]) as char]
  }

  predicate IsGroup(g: seq<nat>) { |g| < 4 && AreSextets(g) }

  lemma SextetsAppend(g: seq<nat>, h: seq<nat>)
    requires AreSextets(g) && AreSextets(h)
    ensures AreSextets(g + h)
  {
  }

  lemma Zeroes(n: nat)
    ensures AreSextets(seq(n, _ => 0)) && AreSextets([])
  {
  }

  lemma OneSextet(v: nat)
    requires v < 64
    ensures AreSextets([v])
  {
  }

  /** The unfinished last group: n sextets give n - 1 octets. */
  function Flush(g: seq<nat>): string
    requires IsGroup(g)
  {
    if g == [] then "" else Triple(g + seq(4 - |g|, _ => 0))[..|g| - 1]
  }

  /** Decoding with the sextets of the group begun so far. */
  function DecodeFrom(s: string, group: seq<nat>, urlSafe: bool): string
    requires IsGroup(group)
  {
    if s == "" || s[0] == '=' then Flush(group)
    else if !Accepts(s[0], urlSafe) then [s[0]] + DecodeFrom(s[1..], [], urlSafe)
    else if |group| == 3 then Triple(group + [Sextet(s[0])]) + DecodeFrom(s[1..], [], urlSafe)
    else DecodeFrom(s[1..], group + [Sextet(s[0])], urlSafe)
  }

  function Decode(s: string, urlSafe: bool): string { DecodeFrom(s, [], urlSafe) }

  lemma DecodeEnd(s: string, group: seq<nat>, urlSafe: bool)
    requires IsGroup(group) && (s == "" || s[0] == '=')
    ensures DecodeFrom(s, group, urlSafe) == Flush(group)
  {
  }

  method Base64Decode(encoded: string, acceptUrlSafe: bool) returns (ret: string)
    ensures ret == Decode(encoded, acceptUrlSafe)
  {
    hide DecodeFrom, Triple, Accepts, Sextet, AreSextets;
    Zeroes(0);
    ret := "";
    var i, at := 0, 0;
    var sextets := new nat[4](_ => 0);
    ghost var group := [];
    assert encoded[0..] == encoded;
    while at < |encoded| && encoded[at] != '='
      invariant i == |group| < 4 && at <= |encoded| && AreSextets(group) && group == sextets[..i]
      invariant ret + DecodeFrom(encoded[at..], group, acceptUrlSafe) == DecodeFrom(encoded, [], acceptUrlSafe)
    {
      var c := encoded[at];
      DecodeRoundAt(encoded, at, group, acceptUrlSafe);
      at := at + 1;
      if !Accepts(c, acceptUrlSafe) {
        ret := ret + [c];
        i, group := 0, [];
        continue;
      }
      sextets[i] := Sextet(c);
      i, group := i + 1, group + [Sextet(c)];
      assert group == sextets[..i];
      if i == 4 {
        assert sextets[..] == group;
        ret := ret + Triple(sextets[..]);
        i, group := 0, [];
      }
    }
    ghost var rest := encoded[at..];
    DecodeEnd(rest, group, acceptUrlSafe);
    if i != 0 {
      var tail := FlushArray(sextets, i, group);
      ret := ret + tail;
    }
  }

  /** One round of the loop, at a position of the text. */
  lemma DecodeRoundAt(s: string, at: nat, group: seq<nat>, urlSafe: bool)
    requires IsGroup(group) && at < |s| && s[at] != '='
    ensures Accepts(s[at], urlSafe) ==> Accepts(s[at], true) && AreSextets(group + [Sextet(s[at])])
    ensures DecodeFrom(s[at..], group, urlSafe) ==
            if !Accepts(s[at], urlSafe) then [s[at]] + DecodeFrom(s[at + 1..], [], urlSafe)
            else if |group| == 3 then Triple(group + [Sextet(s[at])]) + DecodeFrom(s[at + 1..], [], urlSafe)
            else DecodeFrom(s[at + 1..], group + [Sextet(s[at])], urlSafe)
  {
    hide Triple, Sextet;
    assert s[at..][1..] == s[at + 1..];
    if Accepts(s[at], urlSafe) { OneSextet(Sextet(s[at])); }
  }

  /** The last, incomplete group is filled up with zeroes. */
  method FlushArray(sextets: array<nat>, i: nat, ghost group: seq<nat>) returns (tail: string)
    requires sextets.Length == 4 && 0 < i < 4 && group == sextets[..i] && AreSextets(group)
    modifies sextets
    ensures tail == Flush(group)
  {
    hide Triple, AreSextets;
    var j := i;
    while j < 4
      invariant i <= j <= 4 && sextets[..i] == group && forall k | i <= k < j :: sextets[k] == 0
    {
      sextets[j] := 0;
      j := j + 1;
    }
    assert sextets[..] == group + seq(4 - i, _ => 0);
    Zeroes(4 - i);
    SextetsAppend(group, seq(4 - i, _ => 0));
    tail := Triple(sextets[..])[..i - 1];
  }

  // ----- round trips -----

  lemma FirstOctet(a: nat, b: nat)
    requires a < 256 && b < 256
    ensures a / 4 * 4 % 256 + (a % 4 * 16 + b / 16) / 16 == a
  {
  }

  lemma SecondOctet(a: nat, b: nat, c: nat)
    requires a < 256 && b < 256 && c < 256
    ensures (a % 4 * 16 + b / 16) % 16 * 16 + (b % 16 * 4 + c / 64) / 4 == b
  {
    assert (a % 4 * 16 + b / 16) % 16 == b / 16;
    assert (b % 16 * 4 + c / 64) / 4 == b % 16;
  }

  lemma ThirdOctet(b: nat, c: nat)
    requires b < 256 && c < 256
    ensures (b % 16 * 4 + c / 64) % 4 * 64 + c % 64 == c
  {
    assert (b % 16 * 4 + c / 64) % 4 == c / 64;
  }

  lemma TripleQuad(a: nat, b: nat, c: nat)
    requires a < 256 && b < 256 && c < 256
    ensures Triple(Quad(a, b, c)) == [a as char, b as char, c as char]
  {
    FirstOctet(a, b);
    SecondOctet(a, b, c);
    ThirdOctet(b, c);
  }

  lemma OneLetter(v: nat, group: seq<nat>, rest: string, urlSafe: bool)
    requires IsGroup(group) && v < 64
    ensures AreSextets(group + [v])
    ensures DecodeFrom([Letter(v)] + rest, group, urlSafe)
            == if |group| < 3 then DecodeFrom(rest, group + [v], urlSafe)
               else Triple(group + [v]) + DecodeFrom(rest, [], urlSafe)
  {
    hide Triple;
    SextetLetter(v);
    assert ([Letter(v)] + rest)[1..] == rest;
  }

  /** Letters fill the group one by one. */
  lemma {:induction false} DecodeLetters(q: seq<nat>, group: seq<nat>, rest: string, urlSafe: bool)
    requires IsGroup(group) && |group| + |q| <= 4 && AreSextets(q)
    ensures AreSextets(group + q)
    ensures |group| + |q| < 4 ==>
              DecodeFrom(Letters(q) + rest, group, urlSafe) == DecodeFrom(rest, group + q, urlSafe)
    ensures q != [] && |group| + |q| == 4 ==>
              DecodeFrom(Letters(q) + rest, group, urlSafe) == Triple(group + q) + DecodeFrom(rest, [], urlSafe)
    decreases |q|
  {
    hide DecodeFrom, Triple, Letter;
    if q == [] {
      assert Letters(q) + rest == rest && group + q == group;
    } else {
      var more := q[1..];
      assert Letters(q) + rest == [Letter(q[0])] + (Letters(more) + rest);
      OneLetter(q[0], group, Letters(more) + rest, urlSafe);
      assert group + [q[0]] + more == group + q;
      if |group| < 3 {
        DecodeLetters(more, group + [q[0]], rest, urlSafe);
      } else {
        assert more == [] && Letters(more) + rest == rest && group + [q[0]] == group + q;
      }
    }
  }

  lemma DecodeGroup(a: nat, b: nat, c: nat, rest: string, urlSafe: bool)
    requires a < 256 && b < 256 && c < 256
    ensures DecodeFrom(Letters(Quad(a, b, c)) + rest, [], urlSafe)
            == [a as char, b as char, c as char] + DecodeFrom(rest, [], urlSafe)
  {
    hide DecodeFrom, Letters;
    var q := Quad(a, b, c);
    DecodeLetters(q, [], rest, urlSafe);
    assert [] + q == q;
    TripleQuad(a, b, c);
  }

  lemma DecodeLast(a: nat, b: nat, n: nat, padding: string, urlSafe: bool)
    requires a < 256 && b < 256 && (n == 2 || n == 3) && (n == 2 ==> b == 0) && padding != "" && padding[0] == '='
    ensures DecodeFrom(Letters(Quad(a, b, 0)[..n]) + padding, [], urlSafe) == [a as char, b as char][..n - 1]
  {
    hide DecodeFrom, Letters;
    DecodeLetters(Quad(a, b, 0)[..n], [], padding, urlSafe);
    DecodeEnd(padding, [] + Quad(a, b, 0)[..n], urlSafe);
    FlushQuad(a, b, 0, n);
  }

  /** Decoding undoes encoding in both modes, for every byte string. */
  lemma {:induction false} DecodeEncode(s: string, urlSafe: bool)
    requires IsBytes(s)
    ensures Decode(Encode(s), urlSafe) == s
    decreases |s|
  {
    hide DecodeFrom, Letters, Quad;
    if |s| == 0 {
      DecodeEnd("", [], urlSafe);
    } else if |s| == 1 {
      DecodeLast(Octet(s[0]), 0, 2, "==", urlSafe);
    } else if |s| == 2 {
      DecodeLast(Octet(s[0]), Octet(s[1]), 3, "=", urlSafe);
    } else {
      DecodeGroup(Octet(s[0]), Octet(s[1]), Octet(s[2]), Encode(s[3..]), urlSafe);
      DecodeEncode(s[3..], urlSafe);
    }
  }

  lemma FlushQuad(a: nat, b: nat, c: nat, n: nat)
    requires a < 256 && b < 256 && c < 256 && (n == 2 || n == 3)
    requires c == 0 && (n == 2 ==> b == 0)
    ensures var q := Quad(a, b, c);
            [] + q[..n] == q[..n] && Flush(q[..n]) == [a as char, b as char][..n - 1]
  {
    var q := Quad(a, b, c);
    assert q[..n] + seq(4 - n, _ => 0) == q;
    TripleQuad(a, b, c);
  }

  /** The encoder cuts the text to its length modulo 2^32, so the round trip through
      base64Encode holds exactly below that length. */
  lemma EncodeCutsLength(text: string)
    requires IsBytes(text)
    ensures Decode(Encode(text[..|text| % TWO_32]), false) == text <==> |text| < TWO_32
  {
    hide Encode, Decode;
    DecodeEncode(text[..|text| % TWO_32], false);
    assert text[..|text|] == text;
  }

  // ----- the url-safe form -----

  function UrlSafeReverse(s: string): string { Replace(Replace(s, "-", "+"), "_", "/") }

  function UrlSafeApply(s: string): string { Replace(Replace(Replace(s, "+", "-"), "/", "_"), "=", "") }

  function UrlSafeEncode(s: string): string { UrlSafeApply(Encode(s)) }

  function UrlSafeDecode(s: string): string { Decode(s, true) }

  function Reversed(c: char): char { if c == '-' then '+' else if c == '_' then '/' else c }

  lemma ReverseCons(s: string)
    requires s != ""
    ensures UrlSafeReverse(s) == [Reversed(s[0])] + UrlSafeReverse(s[1..])
  {
  }

  /** For every text at all, decoding it url-safely is decoding its plain form. */
  lemma {:induction false} UrlSafeDecodeIsPlain(s: string, group: seq<nat>)
    requires IsGroup(group)
    ensures DecodeFrom(s, group, true) == DecodeFrom(UrlSafeReverse(s), group, false)
    decreases |s|
  {
    if s != "" {
      var r := UrlSafeReverse(s);
      ReverseCons(s);
      assert r[0] == Reversed(s[0]) && r[1..] == UrlSafeReverse(s[1..]);
      if s[0] == '=' {
      } else if !Accepts(s[0], true) {
        UrlSafeDecodeIsPlain(s[1..], []);
      } else if |group| == 3 {
        UrlSafeDecodeIsPlain(s[1..], []);
      } else {
        UrlSafeDecodeIsPlain(s[1..], group + [Sextet(s[0])]);
      }
    }
  }

  function Applied(c: char): string {
    if c == '+' then "-" else if c == '/' then "_" else if c == '=' then "" else [c]
  }

  lemma ApplyCons(s: string)
    requires s != ""
    ensures UrlSafeApply(s) == Applied(s[0]) + UrlSafeApply(s[1..])
  {
  }

  /** Letters, then nothing but padding. */
  predicate IsEncoded(s: string) {
    s == "" || (if IsPlain(s[0]) then IsEncoded(s[1..]) else forall k | 0 <= k < |s| :: s[k] == '=')
  }

  lemma {:induction false} LettersEncoded(q: seq<nat>, rest: string)
    requires IsEncoded(rest) && AreSextets(q)
    ensures IsEncoded(Letters(q) + rest)
    decreases |q|
  {
    var s := Letters(q) + rest;
    if q == [] {
      assert s == rest;
    } else {
      SextetLetter(q[0]);
      assert s[0] == Letter(q[0]) && s[1..] == Letters(q[1..]) + rest;
      LettersEncoded(q[1..], rest);
    }
  }

  lemma {:induction false} EncodeIsEncoded(s: string)
    ensures IsEncoded(Encode(s))
    decreases |s|
  {
    if |s| == 0 {
    } else if |s| == 1 {
      LettersEncoded(Quad(Octet(s[0]), 0, 0)[..2], "==");
    } else if |s| == 2 {
      LettersEncoded(Quad(Octet(s[0]), Octet(s[1]), 0)[..3], "=");
    } else {
      EncodeIsEncoded(s[3..]);
      LettersEncoded(Quad(Octet(s[0]), Octet(s[1]), Octet(s[2])), Encode(s[3..]));
    }
  }

  lemma {:induction false} ApplyPadding(s: string)
    requires forall k | 0 <= k < |s| :: s[k] == '='
    ensures UrlSafeApply(s) == ""
  {
    if s != "" {
      ApplyCons(s);
      ApplyPadding(s[1..]);
    }
  }

  lemma {:induction false} DecodeApplied(s: string, group: seq<nat>)
    requires IsEncoded(s) && IsGroup(group)
    ensures DecodeFrom(UrlSafeApply(s), group, true) == DecodeFrom(s, group, true)
    decreases |s|
  {
    if s != "" {
      if IsPlain(s[0]) {
        ApplyCons(s);
        var a := UrlSafeApply(s);
        assert a[0] == Applied(s[0])[0] && a[1..] == UrlSafeApply(s[1..]);
        assert Accepts(a[0], true) && Sextet(a[0]) == Sextet(s[0]);
        if |group| == 3 {
          DecodeApplied(s[1..], []);
        } else {
          DecodeApplied(s[1..], group + [Sextet(s[0])]);
        }
      } else {
        ApplyPadding(s);
      }
    }
  }

  /** The url-safe round trip, for every byte string. */
  lemma UrlSafeRoundTrip(s: string)
    requires IsBytes(s)
    ensures UrlSafeDecode(UrlSafeEncode(s)) == s
  {
    EncodeIsEncoded(s);
    DecodeApplied(Encode(s), []);
    DecodeEncode(s, true);
  }

  predicate IsUrlSafe(c: char) { 'A' <= c <= 'Z' || 'a' <= c <= 'z' || '0' <= c <= '9' || c == '-' || c == '_' }

  predicate AllUrlSafe(s: string) { forall k | 0 <= k < |s| :: IsUrlSafe(s[k]) }

  lemma {:induction false} AppliedSafe(s: string)
    requires IsEncoded(s)
    ensures AllUrlSafe(UrlSafeApply(s))
    ensures s != "" && IsPlain(s[0]) ==> UrlSafeApply(s) != ""
  {
    if s != "" {
      if IsPlain(s[0]) {
        ApplyCons(s);
        AppliedSafe(s[1..]);
      } else {
        ApplyPadding(s);
      }
    }
  }

  /** The url-safe form uses letters, digits, '-' and '_' only, and is empty only for "". */
  lemma UrlSafeAlphabet(s: string)
    ensures AllUrlSafe(UrlSafeEncode(s)) && (UrlSafeEncode(s) == "" ==> s == "")
  {
    EncodeIsEncoded(s);
    AppliedSafe(Encode(s));
    if |s| > 0 {
      SextetLetter(Octet(s[0]) / 4);
      assert Encode(s)[0] == Letter(Octet(s[0]) / 4);
    }
  }

  // ----- url-safe conversions as the original composes them -----

  method UrlSafeBase64Decode(encoded: string) returns (ret: string)
    ensures ret == UrlSafeDecode(encoded)
  {
    ret := Base64Decode(encoded, true);
  }

  method UrlSafeBase64Encode(text: string) returns (ret: string)
    ensures ret == UrlSafeEncode(text[..|text| % TWO_32])
  {
    hide Encode, Replace;
    ret := Base64Encode(text);
    ret := ReplaceAllDistinct(ret, "+", "-");
    ret := ReplaceAllDistinct(ret, "/", "_");
    ret := ReplaceAllDistinct(ret, "=", "");
  }

  // ----- known texts -----

  /** Test vectors of section 10 of RFC 4648. */
  lemma TestVectors()
    ensures Encode("") == "" && Encode("f") == "Zg==" && Encode("fo") == "Zm8=" && Encode("foobar") == "Zm9vYmFy"
  {
    ShortVectors();
    hide Quad, Letters;
    assert "foobar"[3..] == "bar" && "bar"[3..] == "";
    Group(102, 111, 111);
    Group(98, 97, 114);
    assert Encode("bar") == Letters(Quad(98, 97, 114)) + "";
    assert Letters(Quad(102, 111, 111)) == "Zm9v" && Letters(Quad(98, 97, 114)) == "YmFy";
  }

  lemma ShortVectors()
    ensures Encode("") == "" && Encode("f") == "Zg==" && Encode("fo") == "Zm8="
  {
    LastGroup('f', 'o');
    hide Quad, Letters, Encode;
    assert "f" == ['f'] && "fo" == ['f', 'o'] && Encode("") == "" by { EmptyEncoded(); }
  }

  lemma EmptyEncoded()
    ensures Encode("") == ""
  {
  }

  /** One or two octets of ASCII. */
  lemma LastGroup(c: char, d: char)
    requires c as int < 128 && d as int < 128
    ensures Encode([c]) == [Letter(c as int / 4), Letter(c as int % 4 * 16), '=', '=']
    ensures Encode([c, d]) == [Letter(c as int / 4), Letter(c as int % 4 * 16 + d as int / 16), Letter(d as int % 16 * 4), '=']
  {
  }

  const CORNERS: string := [0x01 as char, 0x96 as char, 0xb3 as char, 0xd3 as char, 0xdf as char, 0xbf as char]

  /** The first and the last letter of each range of the alphabet, and both forms of the rest. */
  lemma AlphabetCorners()
    ensures Encode(CORNERS) == "AZaz09+/" && UrlSafeEncode(CORNERS) == "AZaz09-_"
  {
    hide UrlSafeApply;
    PlainCorners();
    SafeForm("AZaz09+/");
  }

  lemma PlainCorners()
    ensures Encode(CORNERS) == "AZaz09+/"
  {
    hide Quad, Letters;
    var a, b := CORNERS[..3], CORNERS[3..];
    assert a + b == CORNERS && b[3..] == "";
    Group(0x01, 0x96, 0xb3);
    Group(0xd3, 0xdf, 0xbf);
    assert Encode(b) == Letters(Quad(0xd3, 0xdf, 0xbf)) + "";
    assert Letter(0) == 'A' && Letter(25) == 'Z' && Letter(26) == 'a' && Letter(51) == 'z';
    assert Letter(52) == '0' && Letter(61) == '9' && Letter(62) == '+' && Letter(63) == '/';
  }

  lemma Group(a: nat, b: nat, c: nat)
    requires a < 256 && b < 256 && c < 256
    ensures Letters(Quad(a, b, c)) == [Letter(a / 4), Letter(a % 4 * 16 + b / 16), Letter(b % 16 * 4 + c / 64), Letter(c % 64)]
  {
  }

  /** Letter by letter, without the padding. */
  lemma {:induction false} SafeForm(s: string)
    requires forall i | 0 <= i < |s| :: s[i] != '='
    ensures |UrlSafeApply(s)| == |s|
    ensures forall i | 0 <= i < |s| ::
              UrlSafeApply(s)[i] == if s[i] == '+' then '-' else if s[i] == '/' then '_' else s[i]
  {
    if s != "" {
      ApplyCons(s);
      hide UrlSafeApply;
      SafeForm(s[1..]);
    }
  }
}
