/** getUrlArg of string.cpp: the value of the last "key=" that starts the text or
    follows '&' or '?', found by scanning backwards. */
module UrlArgs {
  import opened StringUtil

  /** An occurrence of the pattern where an argument can start. */
  predicate Hit(url: string, pattern: string, p: int) {
    OccursAt(url, pattern, p) && (p == 0 || url[p - 1] == '&' || url[p - 1] == '?')
  }

  /** The last hit at or before p, or -1. */
  function LastHit(url: string, pattern: string, p: int): (h: int)
    requires -1 <= p
    ensures -1 <= h <= p && (h >= 0 ==> Hit(url, pattern, h))
    ensures forall q | h < q <= p :: !Hit(url, pattern, q)
    decreases p
  {
    if p < 0 || Hit(url, pattern, p) then p else LastHit(url, pattern, p - 1)
  }

  function ValueAt(url: string, start: nat): string
    requires start <= |url|
  {
    url[start..Find(url, '&', start)]
  }

  /** What the function is for. */
  function UrlArg(url: string, key: string): string {
    var h := LastHit(url, key + "=", |url|);
    if h < 0 then "" else ValueAt(url, h + |key| + 1)
  }

  /** std::string::rfind: the last occurrence at or before p, or -1. */
  function Rfind(url: string, pattern: string, p: int): (r: int)
    requires -1 <= p
    ensures -1 <= r <= p && (r >= 0 ==> OccursAt(url, pattern, r))
    ensures forall q | r < q <= p :: !OccursAt(url, pattern, q)
    decreases p
  {
    if p < 0 || OccursAt(url, pattern, p) then p else Rfind(url, pattern, p - 1)
  }

  /** The scan stops at position 1 and never looks at the only hit, which is at 0. */
  predicate Skips(url: string, key: string) {
    LastHit(url, key + "=", |url|) == 0 && OccursAt(url, key + "=", 1)
  }

  method GetUrlArg(url: string, request: string) returns (value: string)
    ensures value == if Skips(url, request) then "" else UrlArg(url, request)
  {
    var pattern := request + "=";
    var pos := |url|;
    ghost var last := LastHit(url, pattern, |url|);
    while pos != 0
      invariant 0 <= pos <= |url| && last <= pos
      invariant pos == 0 && last == 0 ==> |url| > 0 && OccursAt(url, pattern, 1)
      decreases pos
    {
      var found := Rfind(url, pattern, pos);
      if found < 0 { return ""; }
      if found == 0 || url[found - 1] == '&' || url[found - 1] == '?' {
        assert Hit(url, pattern, found);
        assert last == found && (found == 0 ==> !OccursAt(url, pattern, 1));
        return ValueAt(url, found + |pattern|);
      }
      pos := found - 1;
    }
    value := "";
  }

  /** The scan misses the argument exactly when it skips, and that takes a key of
      nothing but '=' signs, a text of more of them, and no later hit. */
  lemma WhenTheScanMisses(url: string, key: string)
    ensures Skips(url, key) ==> UrlArg(url, key) != ""
    ensures Skips(url, key) <==> (forall i | 0 <= i < |key| :: key[i] == '=')
                                 && |url| >= |key| + 2 && (forall i | 0 <= i < |key| + 2 :: url[i] == '=')
                                 && LastHit(url, key + "=", |url|) == 0
  {
    hide Skips, UrlArg, LastHit;
    if Skips(url, key) {
      SkipsMeansEquals(url, key);
    } else if (forall i | 0 <= i < |key| :: key[i] == '=') && LastHit(url, key + "=", |url|) == 0
              && |url| >= |key| + 2 && (forall i | 0 <= i < |key| + 2 :: url[i] == '=') {
      EqualsMeansSkips(url, key);
    }
  }

  /** The text "==" starts with an argument whose key is empty; its value "=" is missed. */
  lemma ScanMissExample(url: string, key: string)
    requires url == "==" && key == ""
    ensures Skips(url, key) && UrlArg(url, key) == "="
  {
    var pattern := key + "=";
    assert pattern == "=" && OccursAt(url, pattern, 0) && OccursAt(url, pattern, 1);
    assert LastHit(url, pattern, 2) == LastHit(url, pattern, 1) == LastHit(url, pattern, 0) == 0;
    assert ValueAt(url, 1) == "="[0..];
  }

  lemma EqualsMeansSkips(url: string, key: string)
    requires (forall i | 0 <= i < |key| :: key[i] == '=') && LastHit(url, key + "=", |url|) == 0
    requires |url| >= |key| + 2 && (forall i | 0 <= i < |key| + 2 :: url[i] == '=')
    ensures Skips(url, key)
  {
  }

  lemma SkipsMeansEquals(url: string, key: string)
    requires Skips(url, key)
    ensures UrlArg(url, key) != ""
    ensures (forall i | 0 <= i < |key| :: key[i] == '=')
            && |url| >= |key| + 2 && (forall i | 0 <= i < |key| + 2 :: url[i] == '=')
            && LastHit(url, key + "=", |url|) == 0
  {
    hide LastHit;
    var pattern, n := key + "=", |key|;
    assert url[0..n + 1] == pattern && url[1..n + 2] == pattern;
    AllEqualsBack(url, pattern, n);
    KeyIsThere(url, key);
    assert UrlArg(url, key) == url[n + 1..Find(url, '&', n + 1)] && url[n + 1] == '=';
  }

  lemma KeyIsThere(url: string, key: string)
    requires |key| < |url| && url[0..|key| + 1] == key + "="
    ensures forall i | 0 <= i < |key| :: key[i] == url[i]
  {
    forall i | 0 <= i < |key| ensures key[i] == url[i] { assert url[0..|key| + 1][i] == (key + "=")[i]; }
  }

  lemma {:induction false} AllEqualsBack(url: string, pattern: string, i: nat)
    requires i < |pattern| && |pattern| + 1 <= |url| && pattern[|pattern| - 1] == '='
    requires url[0..|pattern|] == pattern && url[1..|pattern| + 1] == pattern
    requires forall j | i < j < |pattern| :: pattern[j] == '='
    ensures forall j | 0 <= j <= |pattern| :: url[j] == '='
  {
    assert forall j {:trigger pattern[j]} | 0 <= j < |pattern| :: url[j] == pattern[j] && url[j + 1] == pattern[j] by {
      forall j | 0 <= j < |pattern| ensures url[j] == pattern[j] && url[j + 1] == pattern[j] {
        assert url[0..|pattern|][j] == url[j] && url[1..|pattern| + 1][j] == url[j + 1];
      }
    }
    if i < |pattern| - 1 {
      assert pattern[i] == url[i + 1] == pattern[i + 1];
    }
    if i > 0 { AllEqualsBack(url, pattern, i - 1); }
  }

  // ----- queries made of '&'-joined pairs -----

  datatype Pair = Pair(key: string, value: string)

  function PairText(p: Pair): string { p.key + "=" + p.value }

  function Query(pairs: seq<Pair>): string {
    if pairs == [] then ""
    else if |pairs| == 1 then PairText(pairs[0])
    else Query(pairs[..|pairs| - 1]) + "&" + PairText(pairs[|pairs| - 1])
  }

  /** The value of the last pair with the key, or "" if there is none. */
  function LastValue(pairs: seq<Pair>, key: string): string {
    if pairs == [] then ""
    else if pairs[|pairs| - 1].key == key then pairs[|pairs| - 1].value
    else LastValue(pairs[..|pairs| - 1], key)
  }

  predicate KeyOk(k: string) { '&' !in k && '?' !in k && '=' !in k }

  predicate ValueOk(v: string) { '&' !in v && '?' !in v }

  predicate PairsOk(pairs: seq<Pair>) { forall i | 0 <= i < |pairs| :: KeyOk(pairs[i].key) && ValueOk(pairs[i].value) }

  /** A pair text can only be hit at its start, and only by its own key. */
  lemma PairHit(p: Pair, key: string, i: int)
    requires KeyOk(p.key) && ValueOk(p.value) && KeyOk(key) && 0 <= i <= |PairText(p)|
    requires i == 0 || Hit(PairText(p), key + "=", i)
    ensures i == 0
    ensures OccursAt(PairText(p), key + "=", 0) <==> p.key == key
  {
    var text, pattern, n := PairText(p), key + "=", |p.key|;
    assert forall j | 0 <= j < n :: text[j] == p.key[j];
    assert text[n] == '=';
    assert forall j {:trigger text[j]} | n < j < |text| :: text[j] == p.value[j - n - 1];
    assert forall j | 0 <= j < |text| :: text[j] != '&' && text[j] != '?';
    if OccursAt(text, pattern, 0) {
      assert forall j | 0 <= j < |pattern| :: pattern[j] == text[0..|pattern|][j] == text[j];
      assert forall j | 0 <= j < |key| :: pattern[j] == key[j] && key[j] != '=';
      assert forall j | 0 <= j < n :: text[j] != '=';
      assert pattern[|key|] == '=';
      assert forall j | 0 <= j < n :: pattern[j] == key[j] == p.key[j];
      assert key == p.key;
    }
    if p.key == key {
      assert text == pattern + p.value;
      assert text[0..|pattern|] == pattern;
    }
  }

  /** Appending "&key=value" changes the answer for that key only. */
  lemma AppendPair(q: string, p: Pair, key: string)
    requires KeyOk(p.key) && ValueOk(p.value) && KeyOk(key)
    ensures UrlArg(q + "&" + PairText(p), key) == if p.key == key then p.value else UrlArg(q, key)
  {
    hide Hit, PairText, OccursAt, ValueOk, LastHit;
    var text, pattern := PairText(p), key + "=";
    var url := q + "&" + text;
    forall i | |q| <= i <= |url| && Hit(url, pattern, i) ensures i == |q| + 1 && p.key == key { LateHit(q, p, key, i); }
    if p.key == key {
      PairHit(p, key, 0);
      StartHit(text, pattern);
      ShiftHit(q, text, pattern, 0);
      assert LastHit(url, pattern, |url|) == |q| + 1;
      LastPairValue(q, p);
    } else {
      forall i | 0 <= i <= |q| ensures Hit(url, pattern, i) <==> Hit(q, pattern, i) { PrefixHit(q, text, pattern, i); }
      LastHitPrefix(q, url, pattern, |url|);
      var h := LastHit(q, pattern, |q|);
      if h >= 0 {
        HitInside(q, pattern, h);
        ValuePrefix(q, text, h + |pattern|);
      }
    }
  }

  lemma StartHit(text: string, pattern: string)
    ensures OccursAt(text, pattern, 0) ==> Hit(text, pattern, 0)
  {
  }

  lemma HitInside(q: string, pattern: string, h: nat)
    requires Hit(q, pattern, h)
    ensures h + |pattern| <= |q|
  {
  }

  lemma LastPairValue(q: string, p: Pair)
    requires KeyOk(p.key) && ValueOk(p.value)
    ensures ValueAt(q + "&" + PairText(p), |q| + 1 + |p.key| + 1) == p.value
  {
  }

  /** At or after the joining '&' only the appended key can be hit, at its start. */
  lemma LateHit(q: string, p: Pair, key: string, i: nat)
    requires KeyOk(p.key) && ValueOk(p.value) && KeyOk(key)
    requires |q| <= i && Hit(q + "&" + PairText(p), key + "=", i)
    ensures i == |q| + 1 && p.key == key
  {
    var text, pattern := PairText(p), key + "=";
    var url := q + "&" + text;
    assert url[i] == pattern[0] by { assert url[i..i + |pattern|][0] == url[i]; }
    assert pattern[0] != '&' && url[|q|] == '&';
    ShiftHit(q, text, pattern, i - |q| - 1);
    PairHit(p, key, i - |q| - 1);
  }

  lemma ShiftHit(q: string, text: string, pattern: string, i: nat)
    ensures Hit(q + "&" + text, pattern, |q| + 1 + i) <==> Hit(text, pattern, i)
  {
  }

  lemma PrefixHit(q: string, text: string, pattern: string, i: nat)
    requires i <= |q| && '&' !in pattern && pattern != ""
    ensures Hit(q + "&" + text, pattern, i) <==> Hit(q, pattern, i)
  {
    var url := q + "&" + text;
    if i + |pattern| <= |q| {
      assert url[i..i + |pattern|] == q[i..i + |pattern|];
    } else {
      assert forall j | 0 <= j < |pattern| :: pattern[j] != '&';
      OccursChar(url, pattern, i, |q| - i);
    }
  }

  lemma OccursChar(s: string, pattern: string, i: nat, j: nat)
    ensures OccursAt(s, pattern, i) && j < |pattern| ==> i + j < |s| && s[i + j] == pattern[j]
  {
  }

  lemma {:induction false} LastHitPrefix(q: string, url: string, pattern: string, p: nat)
    requires |q| <= p
    requires forall i | 0 <= i <= |q| :: Hit(url, pattern, i) <==> Hit(q, pattern, i)
    requires forall i | |q| < i <= p :: !Hit(url, pattern, i)
    ensures LastHit(url, pattern, p) == LastHit(q, pattern, |q|)
  {
    var h, g := LastHit(url, pattern, p), LastHit(q, pattern, |q|);
    assert g >= 0 ==> Hit(url, pattern, g);
    assert h >= 0 ==> Hit(q, pattern, h);
  }

  lemma ValuePrefix(q: string, text: string, start: nat)
    requires start <= |q|
    ensures ValueAt(q + "&" + text, start) == ValueAt(q, start)
  {
    var url := q + "&" + text;
    assert url[|q|] == '&' && forall j | 0 <= j < |q| :: url[j] == q[j];
    assert Find(url, '&', start) == Find(q, '&', start);
  }

  /** On '&'-joined pairs the answer is the value of the last pair with the key. */
  lemma {:induction false} QueryArg(pairs: seq<Pair>, key: string)
    requires PairsOk(pairs) && KeyOk(key)
    ensures UrlArg(Query(pairs), key) == LastValue(pairs, key)
  {
    var pattern, n := key + "=", |pairs| - 1;
    if pairs == [] {
    } else if n == 0 {
      var p := pairs[0];
      var text := PairText(p);
      forall i | 0 <= i <= |text| && Hit(text, pattern, i) ensures i == 0 && p.key == key { PairHit(p, key, i); }
      PairHit(p, key, 0);
      if p.key == key {
        StartHit(text, pattern);
        assert LastHit(text, pattern, |text|) == 0;
        assert text[|pattern|..] == p.value;
        assert forall j {:trigger text[j]} | |pattern| <= j < |text| :: text[j] == p.value[j - |pattern|];
      }
      assert pairs[..n] == [];
    } else {
      QueryArg(pairs[..n], key);
      AppendPair(Query(pairs[..n]), pairs[n], key);
    }
  }

  lemma FirstPair(head: string, p: Pair)
    requires KeyOk(p.key) && ValueOk(p.value)
    ensures UrlArg(head + "?" + PairText(p), p.key) == p.value
  {
    var text, pattern, n := PairText(p), p.key + "=", |head| + 1;
    var url := head + "?" + text;
    assert text == pattern + p.value;
    assert url[n..n + |pattern|] == pattern && url[n - 1] == '?';
    assert Hit(url, pattern, n);
    forall i | n < i <= |url| ensures !Hit(url, pattern, i) {
      assert url[i - 1] == text[i - 1 - n];
      PlainText(p, i - 1 - n);
    }
    assert LastHit(url, pattern, |url|) == n;
    assert url[n + |pattern|..] == p.value;
    forall j | n + |pattern| <= j < |url| ensures url[j] != '&' {
      assert url[j] == text[j - n];
      PlainText(p, j - n);
    }
  }

  lemma PlainText(p: Pair, i: nat)
    requires KeyOk(p.key) && ValueOk(p.value) && i < |PairText(p)|
    ensures PairText(p)[i] != '&' && PairText(p)[i] != '?'
  {
    var text := PairText(p);
    if i < |p.key| { assert text[i] == p.key[i]; }
    if i > |p.key| { assert text[i] == p.value[i - |p.key| - 1]; }
  }

  /** In an address with a query the arguments of the query are found, whatever is before it. */
  lemma {:induction false} AddressArg(head: string, pairs: seq<Pair>, key: string)
    requires PairsOk(pairs) && KeyOk(key) && exists k :: 0 <= k < |pairs| && pairs[k].key == key
    ensures UrlArg(head + "?" + Query(pairs), key) == LastValue(pairs, key)
  {
    hide UrlArg, PairText;
    var n := |pairs| - 1;
    if n == 0 {
      FirstPair(head, pairs[0]);
      assert Query(pairs) == PairText(pairs[0]) by { OnePair(pairs); }
    } else {
      var before := head + "?" + Query(pairs[..n]);
      assert head + "?" + Query(pairs) == before + "&" + PairText(pairs[n]);
      AppendPair(before, pairs[n], key);
      if pairs[n].key != key {
        var k :| 0 <= k < |pairs| && pairs[k].key == key;
        assert pairs[..n][k].key == key;
        AddressArg(head, pairs[..n], key);
      }
    }
  }

  lemma OnePair(pairs: seq<Pair>)
    requires |pairs| == 1
    ensures Query(pairs) == PairText(pairs[0])
  {
  }
}
