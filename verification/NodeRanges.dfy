/** matchRange (subexport.cpp): the comma-separated number filters of !!GROUPID, !!INSERT
    and !!PORT. */
module NodeRanges {
  import opened StringUtil
  import opened Tokens

  /** "n", "a-b", "!n", "!a-b", "n-" and "n+"; any other text has no effect. A negated
      number is read without its sign. */
  datatype Part = Exactly(n: int) | Between(low: int, high: int) | Not(n: int) | NotBetween(low: int, high: int)
                | AtMost(n: int) | AtLeast(n: int) | Other

  predicate Negated(p: Part) { p.Not? || p.NotBetween? }

  /** The numbers a part speaks of, negated or not. */
  predicate Names(p: Part, target: int) {
    match p
    case Exactly(n) => n == target
    case Between(low, high) => low <= target <= high
    case Not(n) => n == target
    case NotBetween(low, high) => low <= target <= high
    case AtMost(n) => n >= target
    case AtLeast(n) => n <= target
    case Other => false
  }

  /** The last negated part, or -1. */
  function LastNegated(parts: seq<Part>): (k: int)
    ensures -1 <= k < |parts| && (k >= 0 ==> Negated(parts[k]))
    ensures forall j | k < j < |parts| :: !Negated(parts[j])
  {
    if parts == [] then -1
    else if Negated(parts[|parts| - 1]) then |parts| - 1
    else LastNegated(parts[..|parts| - 1])
  }

  /** What the loop decides: a negated part throws away everything before it. It admits all
      other numbers; later parts can only admit more. */
  predicate Matches(parts: seq<Part>, target: int) {
    var k := LastNegated(parts);
    (k >= 0 && !Names(parts[k], target)) || exists j :: k < j < |parts| && Names(parts[j], target)
  }

  lemma MatchesSnoc(parts: seq<Part>, p: Part, target: int)
    ensures Matches(parts + [p], target) ==
            if Negated(p) then !Names(p, target) else Matches(parts, target) || Names(p, target)
  {
  }

  // ----- from the text -----

  predicate IsNumber(s: string) { s != "" && AllDigits(s) }

  predicate IsSigned(s: string) { IsNumber(s) || (s != "" && s[0] == '-' && IsNumber(s[1..])) }

  /** Two numbers with a dash between them. */
  predicate IsRange(s: string) {
    var dash := Find(s, '-');
    dash < |s| && IsNumber(s[..dash]) && IsNumber(s[dash + 1..])
  }

  function Low(s: string): nat
    requires IsRange(s)
  {
    FromDecimal(s[..Find(s, '-')])
  }

  function High(s: string): nat
    requires IsRange(s)
  {
    FromDecimal(s[Find(s, '-') + 1..])
  }

  function Unsigned(s: string): nat
    requires IsSigned(s)
  {
    FromDecimal(if s[0] == '-' then s[1..] else s)
  }

  predicate IsNumberThen(s: string, c: char) { s != "" && s[|s| - 1] == c && IsNumber(s[..|s| - 1]) }

  /** The six patterns in the order of the tests, each on the whole text. */
  function PartOf(x: string): Part {
    if IsSigned(x) then Exactly(if x[0] == '-' then 0 - Unsigned(x) else Unsigned(x))
    else if IsRange(x) then Between(Low(x), High(x))
    else if x != "" && x[0] == '!' && IsSigned(x[1..]) then Not(Unsigned(x[1..]))
    else if x != "" && x[0] == '!' && IsRange(x[1..]) then NotBetween(Low(x[1..]), High(x[1..]))
    else if IsNumberThen(x, '-') then AtMost(FromDecimal(x[..|x| - 1]))
    else if IsNumberThen(x, '+') then AtLeast(FromDecimal(x[..|x| - 1]))
    else Other
  }

  function PartsOf(texts: seq<string>): seq<Part> { seq(|texts|, k requires 0 <= k < |texts| => PartOf(texts[k])) }

  method MatchRange(range: string, target: int) returns (matched: bool)
    ensures matched == Matches(PartsOf(Pieces(range, ",")), target)
  {
    hide Matches, PartOf;
    var texts := Split(range, ",");
    matched := false;
    NothingMatches(target);
    assert PartsOf(texts[..0]) == [];
    for i := 0 to |texts|
      invariant matched == Matches(PartsOf(texts[..i]), target)
    {
      var part := PartOf(texts[i]);
      MatchesSnoc(PartsOf(texts[..i]), part, target);
      assert PartsOf(texts[..i + 1]) == PartsOf(texts[..i]) + [part];
      match part {
        case Exactly(n) => if n == target { matched := true; }
        case Between(low, high) => if target >= low && target <= high { matched := true; }
        case Not(n) =>
          matched := true;
          if n == target { matched := false; }
        case NotBetween(low, high) =>
          matched := true;
          if target >= low && target <= high { matched := false; }
        case AtMost(n) => if n >= target { matched := true; }
        case AtLeast(n) => if n <= target { matched := true; }
        case Other =>
      }
    }
    assert texts[..|texts|] == texts;
  }

  lemma NothingMatches(target: int)
    ensures !Matches([], target)
  {
  }

  // ----- writing a filter -----

  /** Only an exact number can have a sign. */
  predicate PartOk(p: Part) {
    match p
    case Exactly(_) => true
    case Between(low, high) => 0 <= low && 0 <= high
    case Not(n) => n >= 0
    case NotBetween(low, high) => 0 <= low && 0 <= high
    case AtMost(n) => n >= 0
    case AtLeast(n) => n >= 0
    case Other => false
  }

  function RangeText(low: nat, high: nat): string { ToDecimal(low) + "-" + ToDecimal(high) }

  function PartText(p: Part): string
    requires PartOk(p)
  {
    match p
    case Exactly(n) => if n < 0 then "-" + ToDecimal(-n) else ToDecimal(n)
    case Between(low, high) => RangeText(low, high)
    case Not(n) => "!" + ToDecimal(n)
    case NotBetween(low, high) => "!" + RangeText(low, high)
    case AtMost(n) => ToDecimal(n) + "-"
    case AtLeast(n) => ToDecimal(n) + "+"
  }

  /** A number with a character in front or behind is no number. */
  lemma NotDigits(s: string, i: nat)
    requires i < |s| && !IsDigit(s[i])
    ensures !IsNumber(s)
  {
  }

  lemma NumberBack(n: nat)
    ensures var s := ToDecimal(n);
            IsNumber(s) && IsSigned(s) && Unsigned(s) == FromDecimal(s) == n && s[0] != '-' && s[0] != '!' && Free(s, '-')
  {
    DecimalRoundTrip(n);
    var s := ToDecimal(n);
    assert IsDigit(s[0]);
  }

  lemma RangeBack(low: nat, high: nat)
    ensures var s := RangeText(low, high);
            IsRange(s) && !IsSigned(s) && Low(s) == low && High(s) == high && s[0] != '!'
  {
    var a, b := ToDecimal(low), ToDecimal(high);
    var s := a + "-" + b;
    NumberBack(low);
    NumberBack(high);
    assert s[|a|] == '-' && forall i | 0 <= i < |a| :: s[i] == a[i];
    assert Find(s, '-') == |a| && s[..|a|] == a && s[|a| + 1..] == b;
    NotDigits(s, |a|);
  }

  lemma NumberThenBack(n: nat, c: char)
    requires c == '-' || c == '+'
    ensures var s := ToDecimal(n) + [c];
            IsNumberThen(s, c) && FromDecimal(s[..|s| - 1]) == n && !IsSigned(s) && !IsRange(s) && s[0] != '!'
            && (c == '+' ==> !IsNumberThen(s, '-'))
  {
    var a := ToDecimal(n);
    var s := a + [c];
    NumberBack(n);
    assert s[..|s| - 1] == a && s[|a|] == c && s[0] == a[0];
    NotDigits(s, |a|);
    if c == '-' {
      assert Find(s, '-') == |a| && s[|a| + 1..] == "";
    } else {
      assert Find(s, '-') == |s|;
    }
  }

  lemma {:induction false} PartBack(p: Part)
    requires PartOk(p)
    ensures PartOf(PartText(p)) == p && TokenOk(PartText(p), ",")
  {
    hide IsSigned, IsRange, IsNumberThen, Unsigned, Low, High, ToDecimal, FromDecimal, RangeText;
    NoComma(p);
    match p {
      case Exactly(n) =>
        if n < 0 { SignedBack(-n); } else { NumberBack(n); }
      case Between(low, high) => RangeBack(low, high);
      case Not(n) =>
        NumberBack(n);
        AfterBang(ToDecimal(n));
      case NotBetween(low, high) =>
        RangeBack(low, high);
        AfterBang(RangeText(low, high));
      case AtMost(n) => NumberThenBack(n, '-');
      case AtLeast(n) => NumberThenBack(n, '+');
    }
  }

  lemma SignedBack(n: nat)
    ensures var s := "-" + ToDecimal(n); IsSigned(s) && s[0] == '-' && Unsigned(s) == n
  {
    NumberBack(n);
    assert ("-" + ToDecimal(n))[1..] == ToDecimal(n);
  }

  lemma AfterBang(s: string)
    ensures var x := "!" + s; x[0] == '!' && x[1..] == s && !IsSigned(x) && !IsRange(x)
  {
    var x := "!" + s;
    assert x[0] == '!' && x[1..] == s;
    NotDigits(x, 0);
    var dash := Find(x, '-');
    if 0 < dash < |x| { NotDigits(x[..dash], 0); }
  }

  lemma FreeAppend(a: string, b: string)
    requires Free(a, ',') && Free(b, ',')
    ensures Free(a + b, ',')
  {
  }

  lemma NumberFree(n: nat)
    ensures Free(ToDecimal(n), ',') && ToDecimal(n) != ""
  {
    NumberBack(n);
  }

  lemma RangeFree(low: nat, high: nat)
    ensures Free(RangeText(low, high), ',') && RangeText(low, high) != ""
  {
    hide ToDecimal;
    NumberFree(low);
    NumberFree(high);
    FreeAppend(ToDecimal(low), "-");
    FreeAppend(ToDecimal(low) + "-", ToDecimal(high));
  }

  lemma FreeIsToken(s: string)
    requires s != "" && Free(s, ',')
    ensures TokenOk(s, ",")
  {
  }

  lemma NoComma(p: Part)
    requires PartOk(p)
    ensures TokenOk(PartText(p), ",")
  {
    hide ToDecimal, RangeText, TokenOk;
    match p {
      case Exactly(n) =>
        NumberFree(if n < 0 then -n else n);
        if n < 0 { FreeAppend("-", ToDecimal(-n)); }
      case Between(low, high) => RangeFree(low, high);
      case Not(n) =>
        NumberFree(n);
        FreeAppend("!", ToDecimal(n));
      case NotBetween(low, high) =>
        RangeFree(low, high);
        FreeAppend("!", RangeText(low, high));
      case AtMost(n) =>
        NumberFree(n);
        FreeAppend(ToDecimal(n), "-");
      case AtLeast(n) =>
        NumberFree(n);
        FreeAppend(ToDecimal(n), "+");
    }
    FreeIsToken(PartText(p));
  }

  function PartTexts(parts: seq<Part>): seq<string>
    requires forall k | 0 <= k < |parts| :: PartOk(parts[k])
  {
    seq(|parts|, k requires 0 <= k < |parts| => PartText(parts[k]))
  }

  /** A filter written with commas is read as its parts. */
  lemma FilterBack(parts: seq<Part>)
    requires forall k | 0 <= k < |parts| :: PartOk(parts[k])
    ensures PartsOf(Pieces(Joined(PartTexts(parts), ","), ",")) == parts
  {
    hide PartOk, PartOf, PartText, TokenOk;
    var texts := PartTexts(parts);
    forall k | 0 <= k < |parts| ensures PartOf(texts[k]) == parts[k] && TokenOk(texts[k], ",") { PartBack(parts[k]); }
    SplitJoin(texts, ",");
  }

  /** The sign behind a negation is lost: "!-5" keeps out 5, and admits -5. */
  lemma NegatedSign(n: nat)
    ensures PartOf("!-" + ToDecimal(n)) == Not(n)
    ensures n > 0 ==> Matches([PartOf("!-" + ToDecimal(n))], 0 - n) && !Matches([PartOf("!-" + ToDecimal(n))], n)
  {
    hide IsSigned, IsRange, IsNumberThen, Unsigned, Low, High, ToDecimal;
    var s := "-" + ToDecimal(n);
    assert "!" + s == "!-" + ToDecimal(n);
    SignedBack(n);
    AfterBang(s);
    assert PartOf("!-" + ToDecimal(n)) == Not(n);
    NothingMatches(n);
    MatchesSnoc([], Not(n), n);
    MatchesSnoc([], Not(n), 0 - n);
    assert [] + [Not(n)] == [Not(n)];
  }

  // ----- what a filter means -----

  /** Each form of a part alone, as text. */
  lemma Meaning(low: nat, high: nat, target: int)
    ensures Matches([PartOf(ToDecimal(low))], target) <==> target == low
    ensures Matches([PartOf("-" + ToDecimal(low))], target) <==> target == 0 - low
    ensures Matches([PartOf(RangeText(low, high))], target) <==> low <= target <= high
    ensures Matches([PartOf("!" + ToDecimal(low))], target) <==> target != low
    ensures Matches([PartOf("!" + RangeText(low, high))], target) <==> !(low <= target <= high)
    ensures Matches([PartOf(ToDecimal(low) + "-")], target) <==> target <= low
    ensures Matches([PartOf(ToDecimal(low) + "+")], target) <==> low <= target
  {
    hide PartOf, ToDecimal, RangeText, Matches;
    Single(Exactly(low), target);
    Signed(low, target);
    Single(Between(low, high), target);
    Single(Not(low), target);
    Single(NotBetween(low, high), target);
    Single(AtMost(low), target);
    Single(AtLeast(low), target);
  }

  lemma Single(p: Part, target: int)
    requires PartOk(p)
    ensures Matches([PartOf(PartText(p))], target) <==> if Negated(p) then !Names(p, target) else Names(p, target)
  {
    hide PartOf, PartText, Matches;
    PartBack(p);
    NothingMatches(target);
    MatchesSnoc([], p, target);
    assert [] + [p] == [p];
  }

  lemma Signed(n: nat, target: int)
    ensures Matches([PartOf("-" + ToDecimal(n))], target) <==> target == 0 - n
  {
    hide ToDecimal, IsRange, IsNumberThen, Matches, IsSigned, Unsigned;
    SignedBack(n);
    NothingMatches(target);
    var p := Exactly(0 - n);
    assert PartOf("-" + ToDecimal(n)) == p;
    MatchesSnoc([], p, target);
    assert [] + [p] == [p];
  }

  /** Parts that are not negated are alternatives, and a negated part overrules what is
      before it. */
  lemma Overruled(before: seq<Part>, p: Part, after: seq<Part>, target: int)
    requires forall k | 0 <= k < |after| :: !Negated(after[k])
    ensures Matches(after, target) <==> exists k :: 0 <= k < |after| && Names(after[k], target)
    ensures Negated(p) ==> (Matches(before + [p] + after, target) <==> !Names(p, target) || Matches(after, target))
  {
    hide Names;
    var all := before + [p] + after;
    if Negated(p) {
      assert all[|before|] == p;
      assert forall k | 0 <= k < |after| :: all[|before| + 1 + k] == after[k];
      assert LastNegated(all) == |before|;
      if j :| |before| < j < |all| && Names(all[j], target) { assert Names(after[j - |before| - 1], target); }
      if k :| 0 <= k < |after| && Names(after[k], target) { assert Names(all[|before| + 1 + k], target); }
    }
  }

  /** A part with any other character in it says nothing. */
  lemma NothingSaid(parts: seq<Part>, x: string, i: nat, target: int)
    requires i < |x| && !IsDigit(x[i]) && x[i] != '-' && x[i] != '!' && x[i] != '+'
    ensures Matches(parts + [PartOf(x)], target) <==> Matches(parts, target)
  {
    MatchesSnoc(parts, PartOf(x), target);
    hide Matches;
    NoPart(x, i);
    if i > 0 { NoPart(x[1..], i - 1); }
    if i < |x| - 1 { assert x[..|x| - 1][i] == x[i]; }
  }

  lemma NoPart(x: string, i: nat)
    requires i < |x| && !IsDigit(x[i]) && x[i] != '-'
    ensures !IsSigned(x) && !IsRange(x)
  {
    var dash := Find(x, '-');
    if dash < |x| {
      if i < dash { assert x[..dash][i] == x[i]; } else { assert x[dash + 1..][i - dash - 1] == x[i]; }
    }
    if x[0] == '-' { assert x[1..][i - 1] == x[i]; }
  }
}
