/** urlencode.cpp: percent-encoding of byte strings. */
module UrlEncoding {
  import opened StringUtil
  import opened UrlArgs

  predicate IsAlnum(c: char) { '0' <= c <= '9' || 'A' <= c <= 'Z' || 'a' <= c <= 'z' }

  predicate IsUnreserved(c: char) { IsAlnum(c) || c == '-' || c == '_' || c == '.' || c == '~' }

  function ToHex(x: nat): char
    requires x < 16
  {
    if x > 9 then (x + 55) as char else (x + 48) as char
  }

  /** Letters past 'F' are taken as digits too. */
  function FromHex(c: char): nat
    requires IsAlnum(c)
  {
    if 'A' <= c <= 'Z' then c as int - 55 else if 'a' <= c <= 'z' then c as int - 87 else c as int - 48
  }

  function EncodeChar(c: char): string {
    if IsUnreserved(c) then [c] else ['%', ToHex(c as int % 256 / 16), ToHex(c as int % 16)]
  }

  function UrlEncoded(s: string): string {
    if s == "" then "" else EncodeChar(s[0]) + UrlEncoded(s[1..])
  }

  /** '+' is a space; a '%' with fewer than two characters left ends the result. */
  function UrlDecoded(s: string): string
    decreases |s|
  {
    if s == "" then ""
    else if s[0] == '+' then " " + UrlDecoded(s[1..])
    else if s[0] == '%' then
      if |s| <= 2 then ""
      else if IsAlnum(s[1]) && IsAlnum(s[2]) then
        [((FromHex(s[1]) * 16 + FromHex(s[2])) % 256) as char] + UrlDecoded(s[3..])
      else "%" + UrlDecoded(s[1..])
    else [s[0]] + UrlDecoded(s[1..])
  }

  method UrlEncode(str: string) returns (result: string)
    ensures result == UrlEncoded(str)
  {
    result := "";
    assert str[0..] == str;
    for i := 0 to |str|
      invariant result + UrlEncoded(str[i..]) == UrlEncoded(str)
    {
      ghost var rest := str[i..];
      assert rest[0] == str[i] && rest[1..] == str[i + 1..];
      if IsUnreserved(str[i]) {
        result := result + [str[i]];
      } else {
        result := result + ['%', ToHex(str[i] as int % 256 / 16), ToHex(str[i] as int % 16)];
      }
    }
  }

  /** One round of the decoding loop. */
  lemma DecodeRound(s: string, i: nat)
    requires i < |s|
    ensures UrlDecoded(s[i..]) ==
            if s[i] == '+' then " " + UrlDecoded(s[i + 1..])
            else if s[i] == '%' then
              if |s| - i <= 2 then ""
              else if IsAlnum(s[i + 1]) && IsAlnum(s[i + 2]) then
                [((FromHex(s[i + 1]) * 16 + FromHex(s[i + 2])) % 256) as char] + UrlDecoded(s[i + 3..])
              else "%" + UrlDecoded(s[i + 1..])
            else [s[i]] + UrlDecoded(s[i + 1..])
  {
  }

  method UrlDecode(str: string) returns (result: string)
    ensures result == UrlDecoded(str)
  {
    hide UrlDecoded, FromHex;
    result := "";
    var i := 0;
    assert str[0..] == str;
    while i < |str|
      invariant i <= |str| && result + UrlDecoded(str[i..]) == UrlDecoded(str)
    {
      DecodeRound(str, i);
      if str[i] == '+' {
        result := result + " ";
      } else if str[i] == '%' {
        if i + 2 >= |str| { return; }
        if IsAlnum(str[i + 1]) && IsAlnum(str[i + 2]) {
          result := result + [((FromHex(str[i + 1]) * 16 + FromHex(str[i + 2])) % 256) as char];
          i := i + 2;
        } else {
          result := result + [str[i]];
        }
      } else {
        result := result + [str[i]];
      }
      i := i + 1;
    }
    DecodeNothing();
    assert str[i..] == "";
  }

  lemma DecodeNothing()
    ensures UrlDecoded("") == ""
  {
  }

  lemma HexRoundTrip(x: nat)
    requires x < 16
    ensures IsAlnum(ToHex(x)) && FromHex(ToHex(x)) == x
  {
  }

  /** Decoding undoes encoding, for every byte string. */
  lemma {:induction false} UrlRoundTrip(s: string)
    requires IsBytes(s)
    ensures UrlDecoded(UrlEncoded(s)) == s
  {
    hide FromHex, ToHex, UrlDecoded;
    DecodeNothing();
    if s != "" {
      UrlRoundTrip(s[1..]);
      assert UrlEncoded(s)[0..] == UrlEncoded(s);
      DecodeRound(UrlEncoded(s), 0);
      var e, n := UrlEncoded(s), s[0] as int;
      if IsUnreserved(s[0]) {
        assert e[0] == s[0] && e[1..] == UrlEncoded(s[1..]);
      } else {
        assert e[0] == '%' && e[1] == ToHex(n / 16) && e[2] == ToHex(n % 16) && e[3..] == UrlEncoded(s[1..]);
        HexRoundTrip(n / 16);
        HexRoundTrip(n % 16);
      }
    }
  }

  predicate IsEncodedChar(c: char) { IsUnreserved(c) || c == '%' }

  lemma {:induction false} EncodedAlphabet(s: string)
    ensures forall i | 0 <= i < |UrlEncoded(s)| :: IsEncodedChar(UrlEncoded(s)[i])
  {
    if s != "" {
      EncodedAlphabet(s[1..]);
      assert forall i | 0 <= i < |EncodeChar(s[0])| :: IsEncodedChar(EncodeChar(s[0])[i]);
    }
  }

  /** Encoding leaves a text alone exactly when it has unreserved characters only. */
  lemma {:induction false} EncodeIsIdentity(s: string)
    ensures UrlEncoded(s) == s <==> forall i | 0 <= i < |s| :: IsUnreserved(s[i])
    ensures |UrlEncoded(s)| >= |s|
  {
    if s != "" {
      EncodeIsIdentity(s[1..]);
      var e := UrlEncoded(s);
      if IsUnreserved(s[0]) {
        assert e[1..] == UrlEncoded(s[1..]);
        assert s == [s[0]] + s[1..];
        assert (forall i | 0 <= i < |s| :: IsUnreserved(s[i])) <==> (forall i | 0 <= i < |s[1..]| :: IsUnreserved(s[1..][i])) by {
          assert forall i | 1 <= i < |s| :: s[i] == s[1..][i - 1];
        }
      } else {
        assert |e| > |s|;
      }
    }
  }

  function EncodedPairs(pairs: seq<Pair>): seq<Pair> {
    seq(|pairs|, i requires 0 <= i < |pairs| => Pair(pairs[i].key, UrlEncoded(pairs[i].value)))
  }

  lemma {:induction false} LastValueEncoded(pairs: seq<Pair>, key: string)
    ensures LastValue(EncodedPairs(pairs), key) == UrlEncoded(LastValue(pairs, key))
  {
    if pairs != [] {
      var n := |pairs| - 1;
      assert EncodedPairs(pairs)[..n] == EncodedPairs(pairs[..n]);
      LastValueEncoded(pairs[..n], key);
    }
  }

  /** Reading an argument of a query of percent-encoded values gives the value back. */
  lemma EncodedQueryArg(pairs: seq<Pair>, key: string)
    requires KeyOk(key) && forall i | 0 <= i < |pairs| :: KeyOk(pairs[i].key) && IsBytes(pairs[i].value)
    ensures UrlDecoded(UrlArg(Query(EncodedPairs(pairs)), key)) == LastValue(pairs, key)
  {
    forall i | 0 <= i < |pairs| ensures ValueOk(EncodedPairs(pairs)[i].value) { EncodedAlphabet(pairs[i].value); }
    QueryArg(EncodedPairs(pairs), key);
    LastValueEncoded(pairs, key);
    LastValueBytes(pairs, key);
    UrlRoundTrip(LastValue(pairs, key));
  }

  lemma {:induction false} LastValueBytes(pairs: seq<Pair>, key: string)
    requires forall i | 0 <= i < |pairs| :: IsBytes(pairs[i].value)
    ensures IsBytes(LastValue(pairs, key))
  {
    if pairs != [] { LastValueBytes(pairs[..|pairs| - 1], key); }
  }

  // ----- what other programs write -----

  function Digit(x: nat, small: bool): char
    requires x < 16
  {
    if x < 10 then ('0' as int + x) as char else ((if small then 'a' else 'A') as int + x - 10) as char
  }

  /** A byte as a form may send it: a space as '+', and digits in capitals or not. */
  function FormChar(c: char, small: bool): string {
    if c == ' ' then "+"
    else if IsUnreserved(c) then [c]
    else ['%', Digit(c as int % 256 / 16, small), Digit(c as int % 16, small)]
  }

  function FormEncoded(s: string, small: bool): string {
    if s == "" then "" else FormChar(s[0], small) + FormEncoded(s[1..], small)
  }

  lemma DigitValue(x: nat, small: bool)
    requires x < 16
    ensures IsAlnum(Digit(x, small)) && FromHex(Digit(x, small)) == x
  {
  }

  lemma FormCharDecoded(c: char, small: bool, rest: string)
    requires c as int < 256
    ensures UrlDecoded(FormChar(c, small) + rest) == [c] + UrlDecoded(rest)
  {
    hide FromHex, UrlDecoded, Digit;
    var e, n := FormChar(c, small) + rest, c as int;
    assert e[0..] == e;
    DecodeRound(e, 0);
    if c == ' ' || IsUnreserved(c) {
      assert e[1..] == rest;
    } else {
      assert e[3..] == rest;
      DigitValue(n / 16, small);
      DigitValue(n % 16, small);
    }
  }

  lemma {:induction false} FormDecoded(s: string, small: bool, rest: string)
    requires IsBytes(s)
    ensures UrlDecoded(FormEncoded(s, small) + rest) == s + UrlDecoded(rest)
    decreases |s|
  {
    hide UrlDecoded, FormChar;
    if s == "" {
      assert FormEncoded(s, small) + rest == rest;
    } else {
      FormDecoded(s[1..], small, rest);
      FormCharDecoded(s[0], small, FormEncoded(s[1..], small) + rest);
      assert FormEncoded(s, small) + rest == FormChar(s[0], small) + (FormEncoded(s[1..], small) + rest);
    }
  }

  /** What a form sends is decoded too, and a '%' at the end with at most one character
      after it is dropped. */
  lemma FormRoundTrip(s: string, small: bool, tail: string)
    requires IsBytes(s) && (tail == "" || (tail[0] == '%' && |tail| <= 2))
    ensures UrlDecoded(FormEncoded(s, small) + tail) == s
  {
    hide FormEncoded;
    FormDecoded(s, small, tail);
    assert UrlDecoded(tail) == "";
  }

  /** A '%' without two letters or digits after it stands for itself. */
  lemma BareSign(a: string, small: bool, x: char, y: char, b: string)
    requires IsBytes(a) && (!IsAlnum(x) || !IsAlnum(y))
    ensures UrlDecoded(FormEncoded(a, small) + ("%" + [x, y] + b)) == a + "%" + UrlDecoded([x, y] + b)
  {
    hide UrlDecoded, FormEncoded;
    var s := "%" + [x, y] + b;
    assert s[0..] == s && s[1..] == [x, y] + b;
    DecodeRound(s, 0);
    FormDecoded(a, small, s);
  }

  /** The characters that stand for themselves, and some that do not. */
  lemma PlainCharacters(c: char)
    ensures UrlEncoded([c]) == [c] <==>
            'a' <= c <= 'z' || 'A' <= c <= 'Z' || '0' <= c <= '9' || c == '-' || c == '_' || c == '.' || c == '~'
    ensures UrlEncoded(" ") == "%20" && UrlEncoded("/") == "%2F" && UrlEncoded("+") == "%2B" && UrlEncoded([0xFF as char]) == "%FF"
  {
  }

  /** Letters behind F count on, and what does not fit an octet is cut off. */
  lemma LettersCountOn()
    ensures UrlDecoded("%0Z") == UrlDecoded("%0z") == "#" && UrlDecoded("%Z0") == UrlDecoded("%z0") == "0"
    ensures UrlDecoded("%0G") == UrlDecoded("%0g") == [16 as char]
  {
    assert "%0Z"[3..] == "%0z"[3..] == "%Z0"[3..] == "%z0"[3..] == "%0G"[3..] == "%0g"[3..] == "";
  }
}
