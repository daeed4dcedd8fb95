/** The expressions that take links apart: groups of characters of one class, longest or
    shortest first, with literal characters between them, searched for from the left. */
module Regex {
  import opened Common
  import opened StringUtil

  /** \S, \d and the full stop. */
  datatype Class = NotSpace | Digit | NotLineFeed

  predicate In(c: char, k: Class) {
    match k
    case NotSpace => !IsWhitespace(c)
    case Digit => IsDigit(c)
    case NotLineFeed => c != '\n'
  }

  /** A captured group of at least so many characters, a character, or nothing more. */
  datatype Pattern = Group(of: Class, least: nat, lazy: bool, next: Pattern) | Character(c: char, next: Pattern) | End

  /** How many characters of the class come first. */
  function Run(s: string, k: Class): (n: nat)
    ensures n <= |s|
  {
    if s != "" && In(s[0], k) then 1 + Run(s[1..], k) else 0
  }

  function Groups(p: Pattern): nat {
    match p
    case Group(_, _, _, next) => 1 + Groups(next)
    case Character(_, next) => Groups(next)
    case End => 0
  }

  /** The groups of the match that starts s, in the order in which a backtracking matcher tries. */
  function MatchAt(p: Pattern, s: string): (groups: Option<seq<string>>)
    ensures groups.Some? ==> |groups.value| == Groups(p)
    decreases p, 0
  {
    match p
    case End => Some([])
    case Character(c, next) => if s != "" && s[0] == c then MatchAt(next, s[1..]) else None
    case Group(k, least, lazy, next) =>
      var n := Run(s, k);
      if n < least then None else if lazy then Shortest(next, s, least, n) else Longest(next, s, least, n)
  }

  /** A group of from low to n characters, the longest first, and the rest. */
  function Longest(next: Pattern, s: string, low: nat, n: nat): (groups: Option<seq<string>>)
    requires low <= n <= |s|
    ensures groups.Some? ==> |groups.value| == 1 + Groups(next)
    decreases next, n - low + 1
  {
    var rest := MatchAt(next, s[n..]);
    if rest.Some? then Some([s[..n]] + rest.value)
    else if n == low then None
    else Longest(next, s, low, n - 1)
  }

  /** A group of from n to high characters, the shortest first, and the rest. */
  function Shortest(next: Pattern, s: string, n: nat, high: nat): (groups: Option<seq<string>>)
    requires n <= high <= |s|
    ensures groups.Some? ==> |groups.value| == 1 + Groups(next)
    decreases next, high - n + 1
  {
    var rest := MatchAt(next, s[n..]);
    if rest.Some? then Some([s[..n]] + rest.value)
    else if n == high then None
    else Shortest(next, s, n + 1, high)
  }

  /** The groups of the first match. */
  function Search(p: Pattern, s: string): (groups: Option<seq<string>>)
    ensures groups.Some? ==> |groups.value| == Groups(p)
  {
    var here := MatchAt(p, s);
    if here.Some? || s == "" then here else Search(p, s[1..])
  }

  /** The text that the groups and the characters between them make up. */
  function Written(p: Pattern, groups: seq<string>): string
    requires |groups| == Groups(p)
  {
    match p
    case Group(_, _, _, next) => groups[0] + Written(next, groups[1..])
    case Character(c, next) => [c] + Written(next, groups)
    case End => ""
  }

  /** The groups are as long as the pattern asks for and of its classes. */
  predicate Fits(p: Pattern, groups: seq<string>)
    requires |groups| == Groups(p)
  {
    match p
    case Group(k, least, _, next) =>
      |groups[0]| >= least && (forall i | 0 <= i < |groups[0]| :: In(groups[0][i], k)) && Fits(next, groups[1..])
    case Character(_, next) => Fits(next, groups)
    case End => true
  }

  /** What is found starts at the first place with a match, is there, and fits. */
  lemma {:induction false} Found(p: Pattern, s: string) returns (at: nat)
    requires Search(p, s).Some?
    ensures at <= |s| && Search(p, s) == MatchAt(p, s[at..]) && forall k | 0 <= k < at :: MatchAt(p, s[k..]).None?
    ensures Written(p, Search(p, s).value) <= s[at..] && Fits(p, Search(p, s).value)
  {
    assert s[0..] == s;
    if MatchAt(p, s).Some? {
      at := 0;
      MatchIsThere(p, s);
    } else {
      at := Found(p, s[1..]);
      assert forall k | 0 <= k < at :: s[1..][k..] == s[k + 1..];
      assert s[1..][at..] == s[at + 1..];
      assert forall k | 1 <= k < at + 1 :: s[k..] == s[1..][k - 1..];
      at := at + 1;
    }
  }

  lemma {:induction false} MatchIsThere(p: Pattern, s: string)
    requires MatchAt(p, s).Some?
    ensures Written(p, MatchAt(p, s).value) <= s && Fits(p, MatchAt(p, s).value)
    decreases p
  {
    match p
    case End =>
    case Character(c, next) => MatchIsThere(next, s[1..]);
    case Group(k, least, lazy, next) =>
      var n := FirstEnd(p, s);
      RunIn(s, k);
      MatchIsThere(next, s[n..]);
      assert s == s[..n] + s[n..];
  }

  lemma {:induction false} RunIn(s: string, k: Class)
    ensures forall i | 0 <= i < Run(s, k) :: In(s[i], k)
  {
    if s != "" && In(s[0], k) {
      RunIn(s[1..], k);
      assert forall i | 1 <= i < Run(s, k) :: s[i] == s[1..][i - 1];
    }
  }

  /** Where the first group of a match ends. */
  lemma FirstEnd(p: Pattern, s: string) returns (n: nat)
    requires p.Group? && MatchAt(p, s).Some?
    ensures p.least <= n <= Run(s, p.of) && MatchAt(p.next, s[n..]).Some?
    ensures MatchAt(p, s) == Some([s[..n]] + MatchAt(p.next, s[n..]).value)
  {
    if p.lazy {
      n := ShortestEnd(p.next, s, p.least, Run(s, p.of));
    } else {
      n := LongestEnd(p.next, s, p.least, Run(s, p.of));
    }
  }

  lemma {:induction false} LongestEnd(next: Pattern, s: string, low: nat, high: nat) returns (n: nat)
    requires low <= high <= |s| && Longest(next, s, low, high).Some?
    ensures low <= n <= high && MatchAt(next, s[n..]).Some?
    ensures Longest(next, s, low, high) == Some([s[..n]] + MatchAt(next, s[n..]).value)
    decreases high
  {
    n := high;
    if MatchAt(next, s[high..]).None? { n := LongestEnd(next, s, low, high - 1); }
  }

  lemma {:induction false} ShortestEnd(next: Pattern, s: string, low: nat, high: nat) returns (n: nat)
    requires low <= high <= |s| && Shortest(next, s, low, high).Some?
    ensures low <= n <= high && MatchAt(next, s[n..]).Some?
    ensures Shortest(next, s, low, high) == Some([s[..n]] + MatchAt(next, s[n..]).value)
    decreases high - low
  {
    n := low;
    if MatchAt(next, s[low..]).None? { n := ShortestEnd(next, s, low + 1, high); }
  }

  // ----- nothing is missed -----

  /** A match is found exactly if groups that fit stand somewhere in the text. */
  lemma FoundIff(p: Pattern, s: string)
    ensures Search(p, s).Some? <==> exists at: nat, groups :: at <= |s| && Stands(p, groups, s, at)
  {
    if Search(p, s).Some? {
      var at := Found(p, s);
      assert Stands(p, Search(p, s).value, s, at);
    }
    if at: nat, groups :| at <= |s| && Stands(p, groups, s, at) {
      SearchTries(p, s, groups, at);
    }
  }

  predicate Stands(p: Pattern, groups: seq<string>, s: string, at: nat)
    requires at <= |s|
  {
    |groups| == Groups(p) && Fits(p, groups) && Written(p, groups) <= s[at..]
  }

  lemma {:induction false} SearchTries(p: Pattern, s: string, groups: seq<string>, at: nat)
    requires at <= |s| && Stands(p, groups, s, at)
    ensures Search(p, s).Some?
  {
    if at == 0 {
      assert s[0..] == s;
      MatchTries(p, s, groups);
    } else if MatchAt(p, s).None? {
      assert s[1..][at - 1..] == s[at..];
      SearchTries(p, s[1..], groups, at - 1);
    }
  }

  lemma {:induction false} MatchTries(p: Pattern, s: string, groups: seq<string>)
    requires Stands(p, groups, s, 0)
    ensures MatchAt(p, s).Some?
    decreases p
  {
    assert s[0..] == s;
    match p
    case End =>
    case Character(c, next) =>
      var t := Written(next, groups);
      assert Written(p, groups) == [c] + t && s[0] == ([c] + t)[0];
      Behind([c], t, s);
      assert s[1..][0..] == s[1..];
      MatchTries(next, s[1..], groups);
    case Group(k, least, lazy, next) =>
      var n, t := |groups[0]|, Written(next, groups[1..]);
      Behind(groups[0], t, s);
      assert s[n..][0..] == s[n..];
      MatchTries(next, s[n..], groups[1..]);
      RunAtLeast(s, k, n);
      if lazy { ShortestTries(next, s, least, Run(s, k), n); } else { LongestTries(next, s, least, Run(s, k), n); }
  }

  lemma Behind(a: string, t: string, s: string)
    requires a + t <= s
    ensures a <= s && t <= s[|a|..]
  {
    assert s[..|a| + |t|] == a + t;
    assert s[|a|..][..|t|] == (a + t)[|a|..] == t;
    assert s[..|a|] == (a + t)[..|a|] == a;
  }

  lemma {:induction false} LongestTries(next: Pattern, s: string, low: nat, high: nat, n: nat)
    requires low <= n <= high <= |s| && MatchAt(next, s[n..]).Some?
    ensures Longest(next, s, low, high).Some?
    decreases high
  {
    if MatchAt(next, s[high..]).None? { LongestTries(next, s, low, high - 1, n); }
  }

  lemma {:induction false} ShortestTries(next: Pattern, s: string, low: nat, high: nat, n: nat)
    requires low <= n <= high <= |s| && MatchAt(next, s[n..]).Some?
    ensures Shortest(next, s, low, high).Some?
    decreases high - low
  {
    if MatchAt(next, s[low..]).None? { ShortestTries(next, s, low + 1, high, n); }
  }

  // ----- what is found in a text put together from fields -----

  /** The characters of the pattern are in the text, one after the other. */
  predicate HasCharacters(p: Pattern, s: string) {
    match p
    case End => true
    case Group(_, _, _, next) => HasCharacters(next, s)
    case Character(c, next) => Find(s, c) < |s| && HasCharacters(next, s[Find(s, c) + 1..])
  }

  /** The text is the fields with the characters of the pattern between them, and no other
      division comes first: the character behind a shortest group is not in its field, and
      the characters behind a longest group are not found again further on. */
  predicate Reads(p: Pattern, fields: seq<string>, s: string) {
    match p
    case End => fields == [] && s == ""
    case Character(c, next) => s != "" && s[0] == c && Reads(next, fields, s[1..])
    case Group(k, least, lazy, next) =>
      fields != [] && fields[0] <= s && |fields[0]| >= least && (forall i | 0 <= i < |fields[0]| :: In(s[i], k))
      && Reads(next, fields[1..], s[|fields[0]|..])
      && (if lazy then next.Character? && Free(fields[0], next.c)
          else |fields[0]| < |s| ==> !HasCharacters(next, s[|fields[0]| + 1..]))
  }

  lemma {:induction false} RunAtLeast(s: string, k: Class, n: nat)
    requires n <= |s| && forall i | 0 <= i < n :: In(s[i], k)
    ensures Run(s, k) >= n
  {
    if n > 0 {
      assert forall i | 0 <= i < n - 1 :: s[1..][i] == s[i + 1];
      RunAtLeast(s[1..], k, n - 1);
    }
  }

  lemma {:induction false} MoreCharacters(p: Pattern, s: string, n: nat)
    requires n <= |s| && HasCharacters(p, s[n..])
    ensures HasCharacters(p, s)
    decreases p
  {
    match p
    case End =>
    case Group(_, _, _, next) => MoreCharacters(next, s, n);
    case Character(c, next) =>
      var later := n + Find(s[n..], c);
      assert s[later] == c && s[n..][Find(s[n..], c) + 1..] == s[later + 1..];
      var first := Find(s, c);
      assert first <= later && s[first + 1..][later - first..] == s[later + 1..];
      MoreCharacters(next, s[first + 1..], later - first);
  }

  lemma {:induction false} MatchHasCharacters(p: Pattern, s: string)
    requires MatchAt(p, s).Some?
    ensures HasCharacters(p, s)
    decreases p, 0
  {
    match p
    case End =>
    case Character(c, next) => MatchHasCharacters(next, s[1..]);
    case Group(k, least, lazy, next) =>
      var n := FirstEnd(p, s);
      MatchHasCharacters(next, s[n..]);
      MoreCharacters(next, s, n);
  }

  lemma {:induction false} LongestIs(next: Pattern, s: string, low: nat, high: nat, n: nat)
    requires low <= n <= high <= |s| && MatchAt(next, s[n..]).Some?
    requires forall m | n < m <= high :: MatchAt(next, s[m..]).None?
    ensures Longest(next, s, low, high) == Some([s[..n]] + MatchAt(next, s[n..]).value)
    decreases high
  {
    if n < high { LongestIs(next, s, low, high - 1, n); }
  }

  lemma {:induction false} ShortestIs(next: Pattern, s: string, low: nat, high: nat, n: nat)
    requires low <= n <= high <= |s| && MatchAt(next, s[n..]).Some?
    requires forall m | low <= m < n :: MatchAt(next, s[m..]).None?
    ensures Shortest(next, s, low, high) == Some([s[..n]] + MatchAt(next, s[n..]).value)
    decreases high - low
  {
    if low < n { ShortestIs(next, s, low + 1, high, n); }
  }

  /** A text that reads as fields is matched by exactly these fields. */
  lemma {:induction false} MatchReads(p: Pattern, fields: seq<string>, s: string)
    requires Reads(p, fields, s)
    ensures MatchAt(p, s) == Some(fields)
    decreases p
  {
    match p
    case End =>
    case Character(c, next) => MatchReads(next, fields, s[1..]);
    case Group(k, least, lazy, next) =>
      var f, n := fields[0], |fields[0]|;
      RunAtLeast(s, k, n);
      MatchReads(next, fields[1..], s[n..]);
      assert s[..n] == f && [f] + fields[1..] == fields;
      if lazy {
        forall m | least <= m < n ensures MatchAt(next, s[m..]).None? { assert s[m..][0] == f[m]; }
        ShortestIs(next, s, least, Run(s, k), n);
      } else {
        forall m | n < m <= Run(s, k) ensures MatchAt(next, s[m..]).None? { NotFurther(next, s, n, m); }
        LongestIs(next, s, least, Run(s, k), n);
      }
  }

  lemma NotFurther(next: Pattern, s: string, n: nat, m: nat)
    requires n < m <= |s| && !HasCharacters(next, s[n + 1..])
    ensures MatchAt(next, s[m..]).None?
  {
    if MatchAt(next, s[m..]).Some? {
      MatchHasCharacters(next, s[m..]);
      assert s[n + 1..][m - n - 1..] == s[m..];
      MoreCharacters(next, s[n + 1..], m - n - 1);
    }
  }

  /** And the search finds it at once. */
  lemma SearchReads(p: Pattern, fields: seq<string>, s: string)
    requires Reads(p, fields, s)
    ensures Search(p, s) == Some(fields)
  {
    MatchReads(p, fields, s);
  }

  // ----- reading piece by piece -----

  lemma ReadsEnd()
    ensures Reads(End, [], "")
  {
  }

  lemma ReadsCharacter(c: char, next: Pattern, fields: seq<string>, s: string)
    requires Reads(next, fields, s)
    ensures Reads(Character(c, next), fields, [c] + s)
  {
    assert ([c] + s)[1..] == s;
  }

  lemma ReadsGroup(p: Pattern, f: string, fields: seq<string>, s: string)
    requires p.Group? && |f| >= p.least && (forall i | 0 <= i < |f| :: In(f[i], p.of)) && Reads(p.next, fields, s)
    requires if p.lazy then p.next.Character? && Free(f, p.next.c) else s != "" ==> !HasCharacters(p.next, s[1..])
    ensures Reads(p, [f] + fields, f + s)
  {
    hide In, HasCharacters;
    var t := f + s;
    assert t[|f|..] == s && ([f] + fields)[1..] == fields;
    assert s != "" ==> t[|f| + 1..] == s[1..];
  }

  /** Past a field without the next character the rest of the pattern is looked for. */
  lemma PastField(p: Pattern, f: string, s: string)
    requires p.Character? && Free(f, p.c)
    ensures !HasCharacters(p, f) && (HasCharacters(p, f + [p.c] + s) <==> HasCharacters(p.next, s))
  {
    var t := f + [p.c] + s;
    assert t[|f|] == p.c && forall i | 0 <= i < |f| :: t[i] == f[i];
    assert t[|f| + 1..] == s;
  }

  /** A full stop takes everything up to a line feed, and \\S everything up to a blank. */
  lemma {:induction false} RunEnds(s: string)
    ensures Run(s, NotLineFeed) == Find(s, '\n')
    ensures var n := Run(s, NotSpace); (n < |s| ==> IsWhitespace(s[n])) && forall i | 0 <= i < n :: !IsWhitespace(s[i])
    ensures var n := Run(s, Digit); (n < |s| ==> !('0' <= s[n] <= '9')) && forall i | 0 <= i < n :: '0' <= s[i] <= '9'
  {
    if s != "" {
      RunEnds(s[1..]);
      assert forall i | 1 <= i < |s| :: s[i] == s[1..][i - 1];
      if s[0] != '\n' { LaterFind(s); }
    }
  }

  lemma LaterFind(s: string)
    requires s != "" && s[0] != '\n'
    ensures Find(s, '\n') == 1 + Find(s[1..], '\n')
  {
    var n := Find(s[1..], '\n');
    assert forall i | 0 <= i < |s| - 1 :: s[i + 1] == s[1..][i];
    assert forall i | 1 <= i < n + 1 :: s[i] == s[1..][i - 1];
  }
}
