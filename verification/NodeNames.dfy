/** Unique node names: processRemark and the node loops of proxyToClash and proxyToSurge
    (subexport.cpp). */
module NodeNames {
  import opened StringUtil

  /** A node, as far as naming and grouping look at it. */
  datatype Node = Node(typeName: string, remark: string, group: string, rest: string)

  // ----- one name -----

  /** The k-th name tried for a base name, from 1. */
  function Candidate(base: string, sep: char, k: nat): string { if k <= 1 then base else base + [sep] + ToDecimal(k) }

  /** A remark with a comma is quoted where the output format asks for it. */
  function Quoted(remark: string, quoteComma: bool): string {
    if quoteComma && !Free(remark, ',') then "\"" + remark + "\"" else remark
  }

  /** A quoted remark has quotation marks around it exactly if it has a comma, and can be
      told from the plain remark it came from. */
  lemma CommasAreQuoted(remark: string)
    ensures Quoted(remark, true) == (if ',' in remark then "\"" + remark + "\"" else remark) && Quoted(remark, false) == remark
  {
    if ',' in remark {
      var i :| 0 <= i < |remark| && remark[i] == ',';
      assert !Free(remark, ',');
    }
  }

  /** The name is the first of the candidates that is not taken. */
  ghost predicate IsFirstFree(base: string, sep: char, taken: seq<string>, name: string) {
    name !in taken && exists k: nat ::
      1 <= k <= |taken| + 1 && name == Candidate(base, sep, k) && forall j | 1 <= j < k :: Candidate(base, sep, j) in taken
  }

  lemma CandidatesDiffer(base: string, sep: char, j: nat, k: nat)
    requires 1 <= j < k
    ensures Candidate(base, sep, j) != Candidate(base, sep, k)
  {
    if Candidate(base, sep, j) == Candidate(base, sep, k) && j > 1 {
      assert Candidate(base, sep, j)[|base| + 1..] == ToDecimal(j) && Candidate(base, sep, k)[|base| + 1..] == ToDecimal(k);
      DecimalInjective(j, k);
    }
  }

  /** No list can hold more candidates than it has entries. */
  lemma {:induction false} Pigeonhole(base: string, sep: char, taken: seq<string>, n: nat)
    requires forall j | 1 <= j <= n :: Candidate(base, sep, j) in taken
    ensures n <= |taken|
  {
    hide Candidate;
    var names := set k | 0 <= k < |taken| :: taken[k];
    var tried := TriedNames(base, sep, n);
    NamesFit(taken);
    forall s | s in tried ensures s in names {
      var j :| 1 <= j <= n && s == Candidate(base, sep, j);
      var k :| 0 <= k < |taken| && taken[k] == s;
    }
    Subset(tried, names);
  }

  lemma {:induction false} TriedNames(base: string, sep: char, n: nat) returns (tried: set<string>)
    ensures |tried| == n && forall s :: s in tried <==> exists j :: 1 <= j <= n && s == Candidate(base, sep, j)
  {
    hide Candidate;
    if n == 0 {
      tried := {};
    } else {
      var before := TriedNames(base, sep, n - 1);
      forall j | 1 <= j <= n - 1 ensures Candidate(base, sep, j) != Candidate(base, sep, n) { CandidatesDiffer(base, sep, j, n); }
      tried := before + {Candidate(base, sep, n)};
      forall s ensures s in tried <==> exists j :: 1 <= j <= n && s == Candidate(base, sep, j) {
        if s in before { var j :| 1 <= j <= n - 1 && s == Candidate(base, sep, j); }
      }
    }
  }

  lemma {:induction false} NamesFit(taken: seq<string>)
    ensures |set k | 0 <= k < |taken| :: taken[k]| <= |taken|
  {
    var names := set k | 0 <= k < |taken| :: taken[k];
    if taken == [] {
      assert names == {};
    } else {
      var n := |taken| - 1;
      var before := set k | 0 <= k < |taken[..n]| :: taken[..n][k];
      NamesFit(taken[..n]);
      assert names == before + {taken[n]};
    }
  }

  lemma {:induction false} Subset(a: set<string>, b: set<string>)
    requires a <= b
    ensures |a| <= |b|
    decreases a
  {
    if x :| x in a { Subset(a - {x}, b - {x}); }
  }

  lemma {:induction false} FreeExists(base: string, sep: char, taken: seq<string>, k: nat)
    requires k >= 1 && forall j | 1 <= j < k :: Candidate(base, sep, j) in taken
    ensures exists name :: IsFirstFree(base, sep, taken, name)
    decreases |taken| + 2 - k
  {
    hide Candidate;
    Pigeonhole(base, sep, taken, k - 1);
    if Candidate(base, sep, k) in taken {
      Pigeonhole(base, sep, taken, k);
      FreeExists(base, sep, taken, k + 1);
    } else {
      assert IsFirstFree(base, sep, taken, Candidate(base, sep, k));
    }
  }

  /** The renumbering loop ends, after at most one try more than there are names. */
  method Renumber(base: string, sep: char, taken: seq<string>) returns (name: string)
    ensures IsFirstFree(base, sep, taken, name)
  {
    hide ToDecimal;
    name := base;
    var cnt := 2;
    while name in taken
      invariant cnt >= 2 && name == Candidate(base, sep, cnt - 1)
      invariant forall j | 1 <= j < cnt - 1 :: Candidate(base, sep, j) in taken
      decreases |taken| + 2 - cnt
    {
      Pigeonhole(base, sep, taken, cnt - 1);
      name := base + [sep] + ToDecimal(cnt);
      cnt := cnt + 1;
    }
    Pigeonhole(base, sep, taken, cnt - 2);
  }

  method ProcessRemark(oldRemark: string, remarksList: seq<string>, quoteComma: bool) returns (newRemark: string)
    ensures IsFirstFree(Quoted(oldRemark, quoteComma), ' ', remarksList, newRemark)
  {
    var base := oldRemark;
    if quoteComma && !Free(oldRemark, ',') {
      base := "\"" + oldRemark + "\"";
    }
    newRemark := Renumber(base, ' ', remarksList);
  }

  /** The name is determined by the remark and the names taken. */
  lemma FirstFreeUnique(base: string, sep: char, taken: seq<string>, a: string, b: string)
    requires IsFirstFree(base, sep, taken, a) && IsFirstFree(base, sep, taken, b)
    ensures a == b
  {
  }

  lemma FreeStays(base: string, sep: char, taken: seq<string>, name: string)
    requires IsFirstFree(base, sep, taken, name)
    ensures name == base <==> base !in taken
  {
    if base !in taken {
      var k: nat :| 1 <= k <= |taken| + 1 && name == Candidate(base, sep, k) && forall j | 1 <= j < k :: Candidate(base, sep, j) in taken;
      assert Candidate(base, sep, 1) == base;
    }
  }

  // ----- the node loops -----

  /** How a format names nodes: with the type in front, quoting commas, and which node
      types and features it can express. */
  datatype Format = Format(appendType: bool, quoteComma: bool, supports: Node -> bool)

  function Base(x: Node, f: Format): string {
    Quoted((if f.appendType then "[" + x.typeName + "] " else "") + x.remark, f.quoteComma)
  }

  function Supported(nodes: seq<Node>, f: Format): seq<Node> {
    if nodes == [] then []
    else Supported(nodes[..|nodes| - 1], f) + if f.supports(nodes[|nodes| - 1]) then [nodes[|nodes| - 1]] else []
  }

  function Remarks(nodes: seq<Node>): seq<string> { seq(|nodes|, k requires 0 <= k < |nodes| => nodes[k].remark) }

  /** Every node is renamed, in order, to the first name that no supported node before it
      has got; a node that is not supported takes no name away. */
  ghost predicate Renamed(old_: seq<Node>, new_: seq<Node>, f: Format) {
    |new_| == |old_| && forall k | 0 <= k < |old_| :: RenamedAt(old_, new_, f, k)
  }

  ghost predicate RenamedAt(old_: seq<Node>, new_: seq<Node>, f: Format, k: nat)
    requires k < |old_| == |new_|
  {
    new_[k] == old_[k].(remark := new_[k].remark)
    && IsFirstFree(Base(old_[k], f), ' ', Remarks(Supported(new_[..k], f)), new_[k].remark)
  }

  method NameNodes(nodes: array<Node>, f: Format) returns (remarksList: seq<string>, nodelist: seq<Node>)
    modifies nodes
    ensures Renamed(old(nodes[..]), nodes[..], f)
    ensures nodelist == Supported(nodes[..], f) && remarksList == Remarks(nodelist)
  {
    hide IsFirstFree, Quoted;
    remarksList, nodelist := [], [];
    ghost var before := nodes[..];
    assert nodes[..0] == [];
    for i := 0 to nodes.Length
      invariant nodes[i..] == before[i..]
      invariant nodelist == Supported(nodes[..i], f) && remarksList == Remarks(nodelist)
      invariant Renamed(before[..i], nodes[..i], f)
    {
      ghost var done := nodes[..i];
      var x := nodes[i];
      assert x == before[i] by { assert nodes[i..][0] == before[i..][0]; }
      if f.appendType {
        x := x.(remark := "[" + x.typeName + "] " + x.remark);
      }
      var remark := ProcessRemark(x.remark, remarksList, f.quoteComma);
      assert x.remark == (if f.appendType then "[" + before[i].typeName + "] " else "") + before[i].remark;
      x := x.(remark := remark);
      nodes[i] := x;
      assert nodes[..i] == done && nodes[..i + 1] == done + [x];
      OneMore(before, done, x, f, i);
      assert nodes[i + 1..] == before[i + 1..] by {
        assert forall j | i + 1 <= j < nodes.Length :: nodes[j] == before[i..][j - i];
      }
      if !f.supports(x) { continue; }
      remarksList := remarksList + [remark];
      nodelist := nodelist + [x];
    }
    assert nodes[..nodes.Length] == nodes[..] && before[..nodes.Length] == before;
  }

  lemma OneMore(old_: seq<Node>, done: seq<Node>, x: Node, f: Format, i: nat)
    requires i < |old_| && Renamed(old_[..i], done, f) && x == old_[i].(remark := x.remark)
    requires IsFirstFree(Base(old_[i], f), ' ', Remarks(Supported(done, f)), x.remark)
    ensures Renamed(old_[..i + 1], done + [x], f)
    ensures Supported(done + [x], f) == Supported(done, f) + if f.supports(x) then [x] else []
  {
    hide IsFirstFree, Base, Supported;
    var all, olds := done + [x], old_[..i + 1];
    assert all[..i] == done;
    forall k | 0 <= k < |olds| ensures RenamedAt(olds, all, f, k) {
      if k < i {
        assert RenamedAt(old_[..i], done, f, k);
        assert all[..k] == done[..k];
      }
    }
    SupportedSnoc(done, x, f);
  }

  lemma SupportedSnoc(done: seq<Node>, x: Node, f: Format)
    ensures Supported(done + [x], f) == Supported(done, f) + if f.supports(x) then [x] else []
  {
  }

  /** The emitted names are pairwise distinct, whatever the remarks are. */
  lemma {:induction false} NamesDistinct(old_: seq<Node>, new_: seq<Node>, f: Format)
    requires Renamed(old_, new_, f)
    ensures Distinct(Remarks(Supported(new_, f)))
  {
    hide IsFirstFree;
    if new_ != [] {
      var n := |new_| - 1;
      RenamedPrefix(old_, new_, f, n);
      NamesDistinct(old_[..n], new_[..n], f);
      assert RenamedAt(old_, new_, f, n);
      var names := Remarks(Supported(new_[..n], f));
      NotTaken(Base(old_[n], f), ' ', names, new_[n].remark);
      DistinctAppend(names, new_[n].remark);
      if f.supports(new_[n]) {
        assert Remarks(Supported(new_, f)) == names + [new_[n].remark];
      } else {
        assert Supported(new_, f) == Supported(new_[..n], f);
      }
    }
  }

  lemma NotTaken(base: string, sep: char, taken: seq<string>, name: string)
    requires IsFirstFree(base, sep, taken, name)
    ensures name !in taken
  {
  }

  lemma RenamedPrefix(old_: seq<Node>, new_: seq<Node>, f: Format, n: nat)
    requires Renamed(old_, new_, f) && n <= |old_|
    ensures Renamed(old_[..n], new_[..n], f)
  {
    hide IsFirstFree, Base, Supported;
    forall k | 0 <= k < n ensures RenamedAt(old_[..n], new_[..n], f, k) {
      assert RenamedAt(old_, new_, f, k);
      assert new_[..n][..k] == new_[..k];
    }
  }

  /** The result is a function of the nodes and the format. */
  lemma {:induction false} RenamingUnique(old_: seq<Node>, a: seq<Node>, b: seq<Node>, f: Format)
    requires Renamed(old_, a, f) && Renamed(old_, b, f)
    ensures a == b
  {
    hide IsFirstFree;
    if old_ != [] {
      var n := |old_| - 1;
      RenamedPrefix(old_, a, f, n);
      RenamedPrefix(old_, b, f, n);
      RenamingUnique(old_[..n], a[..n], b[..n], f);
      assert RenamedAt(old_, a, f, n) && RenamedAt(old_, b, f, n);
      FirstFreeUnique(Base(old_[n], f), ' ', Remarks(Supported(a[..n], f)), a[n].remark, b[n].remark);
      assert a == a[..n] + [a[n]] && b == b[..n] + [b[n]];
    }
  }

  /** The first supported node with a remark keeps it, so a remark is some emitted name
      exactly when a supported node has it or a numbered form of another remark hits it. */
  lemma {:induction false} BaseIsEmitted(old_: seq<Node>, new_: seq<Node>, f: Format, k: nat)
    requires Renamed(old_, new_, f) && k < |old_| && f.supports(new_[k])
    ensures Base(old_[k], f) in Remarks(Supported(new_, f))
  {
    hide IsFirstFree, Base;
    var base, names := Base(old_[k], f), Remarks(Supported(new_[..k], f));
    assert RenamedAt(old_, new_, f, k);
    FreeStays(base, ' ', names, new_[k].remark);
    SupportedPrefix(new_, f, k + 1);
    var early := Supported(new_[..k + 1], f);
    assert new_[..k + 1][..k] == new_[..k];
    assert early == Supported(new_[..k], f) + [new_[k]];
    if base in names {
      var j :| 0 <= j < |names| && names[j] == base;
      assert Remarks(Supported(new_, f))[j] == base;
    } else {
      assert Remarks(Supported(new_, f))[|names|] == base;
    }
  }

  lemma {:induction false} SupportedPrefix(nodes: seq<Node>, f: Format, k: nat)
    requires k <= |nodes|
    ensures Supported(nodes[..k], f) <= Supported(nodes, f)
    decreases |nodes|
  {
    if k < |nodes| {
      SupportedPrefix(nodes[..|nodes| - 1], f, k);
      assert nodes[..|nodes| - 1][..k] == nodes[..k];
    } else {
      assert nodes[..k] == nodes;
    }
  }

  /** A supported node whose name is w. */
  lemma {:induction false} WhoIsNamed(nodes: seq<Node>, f: Format, w: string) returns (k: nat)
    requires w in Remarks(Supported(nodes, f))
    ensures k < |nodes| && f.supports(nodes[k]) && nodes[k].remark == w
  {
    var n := |nodes| - 1;
    var most := Supported(nodes[..n], f);
    if f.supports(nodes[n]) && nodes[n].remark == w { return n; }
    var j :| 0 <= j < |Remarks(Supported(nodes, f))| && Remarks(Supported(nodes, f))[j] == w;
    assert Remarks(most)[j] == w;
    k := WhoIsNamed(nodes[..n], f, w);
  }

  predicate Wants(old_: seq<Node>, new_: seq<Node>, f: Format, w: string, k: int)
    requires |old_| == |new_|
  {
    0 <= k < |old_| && f.supports(new_[k]) && Base(old_[k], f) == w
  }

  /** A name without a blank is given out exactly when a supported node asks for it, as a
      renumbered name has a blank. */
  lemma ReservedName(old_: seq<Node>, new_: seq<Node>, f: Format, w: string)
    requires Renamed(old_, new_, f) && Free(w, ' ')
    ensures w in Remarks(Supported(new_, f)) <==> exists k :: Wants(old_, new_, f, w, k)
  {
    hide IsFirstFree, Base, Supported;
    if k: nat :| Wants(old_, new_, f, w, k) {
      BaseIsEmitted(old_, new_, f, k);
    }
    if w in Remarks(Supported(new_, f)) {
      var k := WhoIsNamed(new_, f, w);
      assert RenamedAt(old_, new_, f, k);
      NoBlank(Base(old_[k], f), Remarks(Supported(new_[..k], f)), w);
      assert Wants(old_, new_, f, w, k);
    }
  }

  lemma NoBlank(base: string, taken: seq<string>, w: string)
    requires IsFirstFree(base, ' ', taken, w) && Free(w, ' ')
    ensures w == base
  {
    var k: nat :| 1 <= k <= |taken| + 1 && w == Candidate(base, ' ', k) && forall j | 1 <= j < k :: Candidate(base, ' ', j) in taken;
    NumberedHasBlank(base, k);
  }

  lemma NumberedHasBlank(base: string, k: nat)
    ensures k > 1 ==> !Free(Candidate(base, ' ', k), ' ')
  {
    assert (base + [' '] + ToDecimal(k))[|base|] == ' ';
  }

  /** Surge's [Proxy] section starts with the policy DIRECT, which the list of names does
      not hold: the section repeats a name exactly when a supported node is called DIRECT. */
  lemma SurgeProxySection(old_: seq<Node>, new_: seq<Node>, f: Format)
    requires Renamed(old_, new_, f)
    ensures Distinct(["DIRECT"] + Remarks(Supported(new_, f))) <==> forall k :: !Wants(old_, new_, f, "DIRECT", k)
  {
    hide Wants, Renamed;
    NamesDistinct(old_, new_, f);
    ReservedName(old_, new_, f, "DIRECT");
    DistinctCons("DIRECT", Remarks(Supported(new_, f)));
  }

  /** One supported node called DIRECT is enough, and it keeps its name. */
  lemma NodeCalledDirect(f: Format)
    requires var node := Node("ss", "DIRECT", "", ""); f.supports(node) && !f.appendType
    ensures var nodes := [Node("ss", "DIRECT", "", "")];
            Renamed(nodes, nodes, f) && ["DIRECT"] + Remarks(Supported(nodes, f)) == ["DIRECT", "DIRECT"]
  {
    var nodes := [Node("ss", "DIRECT", "", "")];
    assert Base(nodes[0], f) == "DIRECT" == Candidate("DIRECT", ' ', 1);
    assert Supported(nodes[..0], f) == [] && Supported(nodes, f) == nodes;
    assert RenamedAt(nodes, nodes, f, 0);
  }

  /** The first of two nodes of the same name keeps it, and the second becomes number 2. */
  lemma SecondOfTwo(f: Format, x: Node, new_: seq<Node>)
    requires Renamed([x, x], new_, f) && f.supports(new_[0])
    ensures new_[0].remark == Base(x, f) && new_[1].remark == Base(x, f) + " 2"
  {
    hide Base;
    assert RenamedAt([x, x], new_, f, 0) && RenamedAt([x, x], new_, f, 1);
    assert Supported(new_[..0], f) == [] && new_[..1] == [new_[0]] && Supported([new_[0]], f) == [new_[0]];
    assert Remarks(Supported(new_[..0], f)) == [];
    FreeStays(Base(x, f), ' ', [], new_[0].remark);
    var taken := Remarks([new_[0]]);
    assert taken == [Base(x, f)];
    var k: nat :| 1 <= k <= 2 && new_[1].remark == Candidate(Base(x, f), ' ', k)
                  && forall j | 1 <= j < k :: Candidate(Base(x, f), ' ', j) in taken;
    assert Candidate(Base(x, f), ' ', 1) in taken;
    assert ToDecimal(2) == "2" && [' '] + "2" == " 2";
  }

  /** Where the format asks for it, the type stands in brackets in front. */
  lemma TypeInFront(x: Node, supports: Node -> bool)
    requires Free(x.typeName, ',') && Free(x.remark, ',')
    ensures Base(x, Format(true, true, supports)) == "[" + x.typeName + "] " + x.remark
    ensures Base(x, Format(false, true, supports)) == x.remark
  {
  }
}
