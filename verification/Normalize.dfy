/** Normalisation: negations are pushed to the leaves, and conjunctions distributed over disjunctions. */
module Normalize {
  import opened Bytes
  import opened Entities
  import opened Language

  // ---------- Leaves ----------

  function LowerText(v: Value): Value
    requires v.Text?
  {
    Text(ToLower(v.s))
  }

  function LowerTexts(ss: seq<Str>): (r: seq<Str>)
    ensures |r| == |ss|
  {
    seq(|ss|, i requires 0 <= i < |ss| => ToLower(ss[i]))
  }

  /** Values of hexadecimal keys in lower case; an inclusion keeps its texts only. */
  function NormalLeaf(l: Leaf): (r: Leaf)
    ensures r.key == l.key
  {
    if !HexKey(l.key) then l
    else
      match l
      case Assign(k, n, v) => Assign(k, n, LowerText(v))
      case Inclusion(k, n, vs) => Inclusion(k, n, Texts(if vs.Texts? then LowerTexts(vs.ss) else []))
      case LessThan(k, v) => LessThan(k, LowerText(v))
      case LessOrEqualThan(k, v) => LessOrEqualThan(k, LowerText(v))
      case GreaterThan(k, v) => GreaterThan(k, LowerText(v))
      case GreaterOrEqualThan(k, v) => GreaterOrEqualThan(k, LowerText(v))
      case GlobExpr(_, _, _) => l
  }

  method NormalizeLeaf(l: Leaf) returns (r: Leaf)
    ensures r == NormalLeaf(l)
  {
    if HexKey(l.key) && l.Inclusion? {
      var vals: seq<Str> := [];
      var strings := if l.values.Texts? then l.values.ss else [];
      for i := 0 to |strings|
        invariant vals == LowerTexts(strings)[..i]
      {
        vals := vals + [ToLower(strings[i])];
      }
      assert vals == LowerTexts(strings);
      return Inclusion(l.key, l.isNot, Texts(vals));
    }
    return NormalLeaf(l);
  }

  // ---------- Inversion ----------

  function InvertedEq(e: EqualExpr): EqualExpr {
    match e
    case Paren(n, x) => Paren(!n, x)
    case Term(l) => Term(InvertLeaf(l))
  }

  function InvertedAnd(a: AndExpression): (o: OrExpression)
    ensures |o.right| == |a.right|
  {
    OrExpression(
      AndExpression(InvertedEq(a.left), []),
      seq(|a.right|, i requires 0 <= i < |a.right| => AndExpression(InvertedEq(a.right[i]), [])))
  }

  function Wrap(a: AndExpression): EqualExpr { Paren(false, Expression(InvertedAnd(a))) }

  function InvertedOr(o: OrExpression): (a: AndExpression)
    ensures |a.right| == |o.right|
  {
    AndExpression(Wrap(o.left), seq(|o.right|, i requires 0 <= i < |o.right| => Wrap(o.right[i])))
  }

  function Inverted(e: Expression): Expression {
    var l := InvertedOr(e.disjunction);
    if |l.right| == 0 then l.left.nested else Expression(OrExpression(l, []))
  }

  method InvertAnd(a: AndExpression) returns (o: OrExpression)
    ensures o == InvertedAnd(a)
  {
    var right: seq<AndExpression> := [];
    for i := 0 to |a.right|
      invariant right == InvertedAnd(a).right[..i]
    {
      right := right + [AndExpression(InvertedEq(a.right[i]), [])];
    }
    return OrExpression(AndExpression(InvertedEq(a.left), []), right);
  }

  method InvertOr(o: OrExpression) returns (a: AndExpression)
    ensures a == InvertedOr(o)
  {
    var left := InvertAnd(o.left);
    var right: seq<EqualExpr> := [];
    for i := 0 to |o.right|
      invariant right == InvertedOr(o).right[..i]
    {
      var inv := InvertAnd(o.right[i]);
      right := right + [Paren(false, Expression(inv))];
    }
    return AndExpression(Paren(false, Expression(left)), right);
  }

  method Invert(e: Expression) returns (r: Expression)
    ensures r == Inverted(e)
  {
    var left := InvertOr(e.disjunction);
    if |left.right| == 0 {
      return left.left.nested;
    }
    return Expression(OrExpression(left, []));
  }

  // ---------- Why normalisation ends ----------

  function Max(a: nat, b: nat): nat { if a < b then b else a }

  /** Depth of parentheses. */
  function Depth(e: Expression): nat { OrDepth(e.disjunction) }

  function OrDepth(o: OrExpression): nat { Max(AndDepth(o.left), AndsDepth(o.right)) }

  function AndsDepth(s: seq<AndExpression>): (d: nat)
    ensures forall i :: 0 <= i < |s| ==> AndDepth(s[i]) <= d
    decreases s
  {
    if s == [] then 0 else Max(AndDepth(s[0]), AndsDepth(s[1..]))
  }

  function AndDepth(a: AndExpression): nat { Max(EqDepth(a.left), EqsDepth(a.right)) }

  function EqsDepth(s: seq<EqualExpr>): (d: nat)
    ensures forall i :: 0 <= i < |s| ==> EqDepth(s[i]) <= d
    decreases s
  {
    if s == [] then 0 else Max(EqDepth(s[0]), EqsDepth(s[1..]))
  }

  function EqDepth(e: EqualExpr): nat {
    match e
    case Paren(_, x) => 1 + Depth(x)
    case Term(_) => 0
  }

  /** A negated pair of parentheses ranks above a plain one of the same depth, and below any deeper one. */
  function EqRank(e: EqualExpr): nat { 2 * EqDepth(e) + if e.Paren? && e.isNot then 1 else 0 }

  function AndRank(a: AndExpression): nat { Max(EqRank(a.left), EqsRank(a.right)) }

  function EqsRank(s: seq<EqualExpr>): (d: nat)
    ensures forall i :: 0 <= i < |s| ==> EqRank(s[i]) <= d
  {
    if s == [] then 0 else Max(EqRank(s[0]), EqsRank(s[1..]))
  }

  function OrRank(o: OrExpression): nat { Max(AndRank(o.left), AndsRank(o.right)) }

  function AndsRank(s: seq<AndExpression>): (d: nat)
    ensures forall i :: 0 <= i < |s| ==> AndRank(s[i]) <= d
  {
    if s == [] then 0 else Max(AndRank(s[0]), AndsRank(s[1..]))
  }

  function Rank(e: Expression): nat { OrRank(e.disjunction) }

  lemma {:induction false} EqsRankBound(s: seq<EqualExpr>, d: nat)
    requires forall i :: 0 <= i < |s| ==> EqRank(s[i]) <= d
    ensures EqsRank(s) <= d
  {
    if s != [] { EqsRankBound(s[1..], d); }
  }

  lemma {:induction false} AndsRankBound(s: seq<AndExpression>, d: nat)
    requires forall i :: 0 <= i < |s| ==> AndRank(s[i]) <= d
    ensures AndsRank(s) <= d
  {
    if s != [] { AndsRankBound(s[1..], d); }
  }

  lemma AndRankDepth(a: AndExpression)
    ensures AndRank(a) <= 2 * AndDepth(a) + 1
  {
    hide EqDepth;
    EqsRankBound(a.right, 2 * AndDepth(a) + 1);
  }

  lemma RankDepth(e: Expression)
    ensures Rank(e) <= 2 * Depth(e) + 1
  {
    hide AndDepth, AndRank;
    var o := e.disjunction;
    AndRankDepth(o.left);
    forall i | 0 <= i < |o.right| ensures AndRank(o.right[i]) <= 2 * Depth(e) + 1 { AndRankDepth(o.right[i]); }
    AndsRankBound(o.right, 2 * Depth(e) + 1);
  }

  /** No part ranks above the whole. */
  lemma OrRankParts(o: OrExpression)
    ensures AndRank(o.left) <= OrRank(o) && forall i :: 0 <= i < |o.right| ==> AndRank(o.right[i]) <= OrRank(o)
  {
    hide AndRank;
  }

  lemma AndRankParts(a: AndExpression)
    ensures EqRank(a.left) <= AndRank(a) && forall i :: 0 <= i < |a.right| ==> EqRank(a.right[i]) <= AndRank(a)
  {
    hide EqRank;
  }

  lemma InvertedEqDepth(e: EqualExpr)
    ensures EqDepth(InvertedEq(e)) == EqDepth(e)
    ensures AndDepth(AndExpression(InvertedEq(e), [])) == EqDepth(e)
  {
  }

  lemma InvertedAndDepth(a: AndExpression)
    ensures OrDepth(InvertedAnd(a)) <= AndDepth(a)
  {
    hide EqDepth, InvertedEq;
    var o := InvertedAnd(a);
    InvertedEqDepth(a.left);
    forall i | 0 <= i < |o.right| ensures AndDepth(o.right[i]) <= AndDepth(a) {
      assert o.right[i] == AndExpression(InvertedEq(a.right[i]), []);
      InvertedEqDepth(a.right[i]);
    }
    AndsDepthBound(o.right, AndDepth(a));
  }

  lemma WrapRank(a: AndExpression)
    ensures EqRank(Wrap(a)) <= 2 * AndDepth(a) + 2
    ensures Rank(Wrap(a).nested) <= 2 * AndDepth(a) + 1
  {
    hide InvertedAnd, OrDepth, AndDepth, OrRank;
    InvertedAndDepth(a);
    RankDepth(Wrap(a).nested);
  }

  lemma {:induction false} AndsDepthBound(s: seq<AndExpression>, d: nat)
    requires forall i :: 0 <= i < |s| ==> AndDepth(s[i]) <= d
    ensures AndsDepth(s) <= d
  {
    if s != [] { AndsDepthBound(s[1..], d); }
  }

  /** Inverting adds at most one layer of parentheses, and then only plain ones. */
  lemma InvertedRank(e: Expression)
    ensures Rank(Inverted(e)) <= 2 * Depth(e) + 2
  {
    hide Wrap, EqRank, AndDepth, OrRank;
    var o, a := e.disjunction, InvertedOr(e.disjunction);
    WrapRank(o.left);
    if |a.right| > 0 {
      forall i | 0 <= i < |a.right| ensures EqRank(a.right[i]) <= 2 * Depth(e) + 2 {
        WrapRank(o.right[i]);
      }
      EqsRankBound(a.right, 2 * Depth(e) + 2);
      SingleRank(a);
    }
  }

  lemma SingleRank(a: AndExpression)
    ensures Rank(Expression(OrExpression(a, []))) == Max(EqRank(a.left), EqsRank(a.right))
  {
  }

  /** The expression inside parentheses, negated if they are, ranks below them. */
  lemma ParenRank(e: EqualExpr)
    requires e.Paren?
    ensures Rank(if e.isNot then Inverted(e.nested) else e.nested) < EqRank(e)
  {
    RankDepth(e.nested);
    InvertedRank(e.nested);
  }

  // ---------- The normal form ----------

  function Row(x: Conjunction, ys: Dnf): (r: Dnf)
    ensures |r| == |ys|
  {
    seq(|ys|, j requires 0 <= j < |ys| => x + ys[j])
  }

  function Product(xs: Dnf, ys: Dnf): Dnf {
    if xs == [] then [] else Product(xs[..|xs| - 1], ys) + Row(xs[|xs| - 1], ys)
  }

  function ProductAll(ds: seq<Dnf>): Dnf {
    if ds == [] then [[]] else Product(ProductAll(ds[..|ds| - 1]), ds[|ds| - 1])
  }

  function ExprDnf(e: Expression): Dnf
    decreases Rank(e), 5, 0
  {
    AndDnf(e.disjunction.left) + AndsDnf(e.disjunction.right)
  }

  function AndsDnf(s: seq<AndExpression>): Dnf
    decreases AndsRank(s), 4, |s|
  {
    if s == [] then [] else AndDnf(s[0]) + AndsDnf(s[1..])
  }

  function AndDnf(a: AndExpression): Dnf
    decreases AndRank(a), 3, 0
  {
    ProductAll([EqDnf(a.left)] + EqsDnf(a.right))
  }

  function EqsDnf(s: seq<EqualExpr>): (r: seq<Dnf>)
    ensures |r| == |s|
    decreases EqsRank(s), 2, |s|
  {
    if s == [] then [] else [EqDnf(s[0])] + EqsDnf(s[1..])
  }

  function EqDnf(e: EqualExpr): Dnf
    decreases EqRank(e), 1, 0
  {
    match e
    case Term(l) => [[NormalLeaf(l)]]
    case Paren(isNot, nested) =>
      ParenRank(e);
      ExprDnf(if isNot then Inverted(nested) else nested)
  }

  function Normal(t: TopLevel): Ast {
    match t
    case Everything => AllAst
    case Query(e) => OrAst(ExprDnf(e))
  }

  // ---------- The methods ----------

  method NormalizeTopLevel(t: TopLevel) returns (a: Ast)
    ensures a == Normal(t)
  {
    match t {
      case Everything => return AllAst;
      case Query(e) =>
        var d := NormalizeExpression(e);
        return OrAst(d);
    }
  }

  method NormalizeExpression(e: Expression) returns (d: Dnf)
    ensures d == ExprDnf(e)
    decreases Rank(e), 5, 0
  {
    d := NormalizeOr(e.disjunction);
  }

  method NormalizeOr(o: OrExpression) returns (terms: Dnf)
    ensures terms == ExprDnf(Expression(o))
    decreases OrRank(o), 4, 0
  {
    hide AndRank, OrRank, AndDnf, AndsDnf;
    OrRankParts(o);
    terms := NormalizeAnd(o.left);
    assert o.right[0..] == o.right;
    for i := 0 to |o.right|
      invariant terms + AndsDnf(o.right[i..]) == ExprDnf(Expression(o))
    {
      AndsDnfStep(o.right, i);
      var d := NormalizeAnd(o.right[i]);
      terms := terms + d;
    }
    AndsDnfEnd(o.right);
  }

  lemma AndsDnfStep(s: seq<AndExpression>, i: nat)
    requires i < |s|
    ensures AndsDnf(s[i..]) == AndDnf(s[i]) + AndsDnf(s[i + 1..])
  {
    hide AndDnf;
    assert s[i..][1..] == s[i + 1..];
  }

  lemma AndsDnfEnd(s: seq<AndExpression>)
    ensures AndsDnf(s[|s|..]) == []
  {
  }

  lemma EqsDnfStep(s: seq<EqualExpr>, i: nat)
    requires i < |s|
    ensures EqsDnf(s[i..]) == [EqDnf(s[i])] + EqsDnf(s[i + 1..])
  {
    hide EqDnf;
    assert s[i..][1..] == s[i + 1..];
  }

  lemma EqsDnfEnd(s: seq<EqualExpr>)
    ensures EqsDnf(s[|s|..]) == []
  {
  }

  lemma AndDnfParts(a: AndExpression)
    ensures AndDnf(a) == ProductAll([EqDnf(a.left)] + EqsDnf(a.right))
  {
  }

  method NormalizeParen(e: EqualExpr) returns (d: Dnf)
    requires e.Paren?
    ensures d == EqDnf(e)
    decreases EqRank(e), 0, 0
  {
    ParenRank(e);
    var nested := e.nested;
    if e.isNot {
      nested := Invert(nested);
    }
    d := NormalizeExpression(nested);
  }

  method ConvertToTerms(e: EqualExpr) returns (es: Dnf)
    ensures es == EqDnf(e)
    decreases EqRank(e), 1, 0
  {
    es := [];
    if e.Paren? {
      var normalised := NormalizeParen(e);
      for i := 0 to |normalised|
        invariant es == normalised[..i]
      {
        es := es + [normalised[i]];
      }
    } else {
      var l := NormalizeLeaf(e.leaf);
      es := es + [[l]];
    }
  }

  method NormalizeAnd(a: AndExpression) returns (ast: Dnf)
    ensures ast == AndDnf(a)
    decreases AndRank(a), 3, 0
  {
    hide AndRank, EqRank, EqDnf, EqsDnf, Product;
    AndRankParts(a);
    AndDnfParts(a);
    var left := ConvertToTerms(a.left);
    var terms := [left];
    assert a.right[0..] == a.right;
    for i := 0 to |a.right|
      invariant terms + EqsDnf(a.right[i..]) == [EqDnf(a.left)] + EqsDnf(a.right)
    {
      EqsDnfStep(a.right, i);
      var d := ConvertToTerms(a.right[i]);
      terms := terms + [d];
    }
    EqsDnfEnd(a.right);
    assert terms == [EqDnf(a.left)] + EqsDnf(a.right);
    ast := [[]];
    assert terms[..0] == [];
    for i := 0 to |terms|
      invariant ast == ProductAll(terms[..i])
    {
      ast := Distribute(ast, terms[i]);
      assert terms[..i + 1][..i] == terms[..i];
    }
    assert terms[..|terms|] == terms;
  }

  /** Every conjunction of the first list joined with every one of the second. */
  method Distribute(ast: Dnf, disjunctions: Dnf) returns (tmp: Dnf)
    ensures tmp == Product(ast, disjunctions)
  {
    tmp := [];
    for i := 0 to |ast|
      invariant tmp == Product(ast[..i], disjunctions)
    {
      ghost var before := tmp;
      for j := 0 to |disjunctions|
        invariant tmp == before + Row(ast[i], disjunctions)[..j]
      {
        var combined := ast[i] + disjunctions[j];
        tmp := tmp + [combined];
      }
      assert ast[..i + 1][..i] == ast[..i];
    }
    assert ast[..|ast|] == ast;
  }

  // ---------- What a query means ----------

  /**
   * The meaning of an expression under an interpretation of the leaves. Under an odd number of negations
   * "and" and "or" change places, and a leaf means its inverted form.
   */
  ghost predicate Means(e: Expression, neg: bool, holds: Leaf -> bool) {
    MeansOr(e.disjunction, neg, holds)
  }

  ghost predicate MeansOr(o: OrExpression, neg: bool, holds: Leaf -> bool) {
    if neg then
      MeansAnd(o.left, neg, holds) && forall i :: 0 <= i < |o.right| ==> MeansAnd(o.right[i], neg, holds)
    else
      MeansAnd(o.left, neg, holds) || exists i :: 0 <= i < |o.right| && MeansAnd(o.right[i], neg, holds)
  }

  ghost predicate MeansAnd(a: AndExpression, neg: bool, holds: Leaf -> bool) {
    if neg then
      MeansEq(a.left, neg, holds) || exists i :: 0 <= i < |a.right| && MeansEq(a.right[i], neg, holds)
    else
      MeansEq(a.left, neg, holds) && forall i :: 0 <= i < |a.right| ==> MeansEq(a.right[i], neg, holds)
  }

  ghost predicate MeansEq(e: EqualExpr, neg: bool, holds: Leaf -> bool) {
    match e
    case Paren(isNot, nested) => Means(nested, neg != isNot, holds)
    case Term(l) => holds(NormalLeaf(if neg then InvertLeaf(l) else l))
  }

  /** A disjunction of conjunctions. */
  ghost predicate SatDnf(d: Dnf, holds: Leaf -> bool) {
    exists i :: 0 <= i < |d| && SatAll(d[i], holds)
  }

  ghost predicate SatAll(c: Conjunction, holds: Leaf -> bool) {
    forall i :: 0 <= i < |c| ==> holds(c[i])
  }

  // ---------- Meaning is preserved ----------

  lemma SatConcat(c: Dnf, d: Dnf, holds: Leaf -> bool)
    ensures SatDnf(c + d, holds) <==> SatDnf(c, holds) || SatDnf(d, holds)
  {
    hide SatAll;
    var e := c + d;
    if i :| 0 <= i < |c| && SatAll(c[i], holds) { assert e[i] == c[i]; }
    if i :| 0 <= i < |d| && SatAll(d[i], holds) { assert e[|c| + i] == d[i]; }
  }

  lemma SatRow(x: Conjunction, ys: Dnf, holds: Leaf -> bool)
    ensures SatDnf(Row(x, ys), holds) <==> SatAll(x, holds) && SatDnf(ys, holds)
  {
    hide SatAll;
    forall j | 0 <= j < |ys| ensures SatAll(x + ys[j], holds) <==> SatAll(x, holds) && SatAll(ys[j], holds) {
      SatJoin(x, ys[j], holds);
    }
    if SatAll(x, holds) && SatDnf(ys, holds) {
      var j :| 0 <= j < |ys| && SatAll(ys[j], holds);
      assert SatAll(Row(x, ys)[j], holds);
    }
  }

  lemma SatJoin(c: Conjunction, d: Conjunction, holds: Leaf -> bool)
    ensures SatAll(c + d, holds) <==> SatAll(c, holds) && SatAll(d, holds)
  {
    var e := c + d;
    if SatAll(e, holds) {
      forall i | 0 <= i < |c| ensures holds(c[i]) { assert e[i] == c[i]; }
      forall i | 0 <= i < |d| ensures holds(d[i]) { assert e[|c| + i] == d[i]; }
    }
  }

  lemma {:induction false} SatProduct(xs: Dnf, ys: Dnf, holds: Leaf -> bool)
    ensures SatDnf(Product(xs, ys), holds) <==> SatDnf(xs, holds) && SatDnf(ys, holds)
  {
    hide SatDnf;
    SatNothing(holds);
    if xs != [] {
      var init, x := xs[..|xs| - 1], xs[|xs| - 1];
      SatProduct(init, ys, holds);
      SatRow(x, ys, holds);
      SatConcat(Product(init, ys), Row(x, ys), holds);
      SatConcat(init, [x], holds);
      SatOne(x, holds);
      assert xs == init + [x];
    }
  }

  lemma SatNothing(holds: Leaf -> bool)
    ensures !SatDnf([], holds) && SatDnf([[]], holds)
  {
    assert SatAll([[]][0], holds);
  }

  lemma SatOne(x: Conjunction, holds: Leaf -> bool)
    ensures SatDnf([x], holds) <==> SatAll(x, holds)
  {
    if SatAll(x, holds) { assert SatAll([x][0], holds); }
  }

  lemma SatLeaf(l: Leaf, holds: Leaf -> bool)
    ensures SatDnf([[l]], holds) <==> holds(l)
  {
    SatOne([l], holds);
    assert SatAll([l], holds) <==> holds([l][0]);
  }

  lemma {:induction false} SatProductAll(ds: seq<Dnf>, holds: Leaf -> bool)
    ensures SatDnf(ProductAll(ds), holds) <==> forall i :: 0 <= i < |ds| ==> SatDnf(ds[i], holds)
  {
    hide SatDnf, Product;
    SatNothing(holds);
    if ds != [] {
      var init, d := ds[..|ds| - 1], ds[|ds| - 1];
      SatProductAll(init, holds);
      SatProduct(ProductAll(init), d, holds);
      assert forall i :: 0 <= i < |init| ==> init[i] == ds[i];
    }
  }

  lemma InvertedEqMeans(e: EqualExpr, neg: bool, holds: Leaf -> bool)
    ensures MeansEq(InvertedEq(e), neg, holds) <==> MeansEq(e, !neg, holds)
  {
    hide NormalLeaf;
    if e.Term? { InvertTwice(e.leaf); }
  }

  lemma WrapMeans(a: AndExpression, holds: Leaf -> bool)
    ensures MeansEq(Wrap(a), false, holds) <==> MeansAnd(a, true, holds)
    ensures Means(Wrap(a).nested, false, holds) <==> MeansAnd(a, true, holds)
  {
    hide MeansEq, InvertedEq;
    var o := InvertedAnd(a);
    InvertedEqMeans(a.left, false, holds);
    forall i | 0 <= i < |a.right|
      ensures MeansAnd(o.right[i], false, holds) <==> MeansEq(a.right[i], true, holds)
    {
      InvertedEqMeans(a.right[i], false, holds);
    }
    assert MeansOr(o, false, holds) <==> MeansAnd(a, true, holds);
    ParenMeans(Expression(o), holds);
  }

  lemma ParenMeans(e: Expression, holds: Leaf -> bool)
    ensures MeansEq(Paren(false, e), false, holds) <==> Means(e, false, holds)
    ensures Means(e, false, holds) <==> MeansOr(e.disjunction, false, holds)
  {
  }

  /** The inverted expression means what the original means under one more negation. */
  lemma InvertedMeans(e: Expression, holds: Leaf -> bool)
    ensures Means(Inverted(e), false, holds) <==> Means(e, true, holds)
  {
    hide MeansEq, MeansAnd, Wrap;
    var o, a := e.disjunction, InvertedOr(e.disjunction);
    WrapMeans(o.left, holds);
    forall i | 0 <= i < |o.right|
      ensures MeansEq(a.right[i], false, holds) <==> MeansAnd(o.right[i], true, holds)
    {
      WrapMeans(o.right[i], holds);
    }
    if |a.right| > 0 { ConjunctionMeans(a, holds); }
  }

  lemma ConjunctionMeans(a: AndExpression, holds: Leaf -> bool)
    ensures Means(Expression(OrExpression(a, [])), false, holds) <==>
            MeansEq(a.left, false, holds) && forall i :: 0 <= i < |a.right| ==> MeansEq(a.right[i], false, holds)
  {
    hide MeansEq;
    assert MeansOr(OrExpression(a, []), false, holds) <==> MeansAnd(a, false, holds);
  }

  /** Under every interpretation of the leaves, the normal form means what the expression means. */
  lemma {:induction false} MeaningPreserved(e: Expression, holds: Leaf -> bool)
    ensures SatDnf(ExprDnf(e), holds) <==> Means(e, false, holds)
    decreases Rank(e), 5, 0
  {
    hide SatDnf, MeansAnd, AndDnf, AndRank;
    var o := e.disjunction;
    OrRankParts(o);
    AndMeaning(o.left, holds);
    AndsMeaning(o.right, holds);
    SatConcat(AndDnf(o.left), AndsDnf(o.right), holds);
  }

  lemma {:induction false} AndsMeaning(s: seq<AndExpression>, holds: Leaf -> bool)
    ensures SatDnf(AndsDnf(s), holds) <==> exists i :: 0 <= i < |s| && MeansAnd(s[i], false, holds)
    decreases AndsRank(s), 4, |s|
  {
    hide SatDnf, MeansAnd, AndDnf, AndRank;
    SatNothing(holds);
    if s != [] {
      AndMeaning(s[0], holds);
      AndsMeaning(s[1..], holds);
      SatConcat(AndDnf(s[0]), AndsDnf(s[1..]), holds);
      if i :| 0 <= i < |s| && MeansAnd(s[i], false, holds) {
        if i > 0 { assert s[1..][i - 1] == s[i]; }
      }
    }
  }

  lemma {:induction false} AndMeaning(a: AndExpression, holds: Leaf -> bool)
    ensures SatDnf(AndDnf(a), holds) <==> MeansAnd(a, false, holds)
    decreases AndRank(a), 3, 0
  {
    hide SatDnf, MeansEq, EqDnf, EqsDnf, ProductAll, EqRank, AndRank;
    AndRankParts(a);
    EqMeaning(a.left, holds);
    forall i | 0 <= i < |a.right|
      ensures SatDnf(EqsDnf(a.right)[i], holds) <==> MeansEq(a.right[i], false, holds)
    {
      EqMeaning(a.right[i], holds);
      EqsDnfAt(a.right, i);
    }
    AndSat(a, holds);
    MeansEach(a, holds);
    if SatDnf(AndDnf(a), holds) {
      forall i | 0 <= i < |a.right| ensures MeansEq(a.right[i], false, holds) {
        assert SatDnf(EqsDnf(a.right)[i], holds);
      }
    }
  }

  lemma MeansEach(a: AndExpression, holds: Leaf -> bool)
    ensures MeansAnd(a, false, holds) <==>
            MeansEq(a.left, false, holds) && forall i :: 0 <= i < |a.right| ==> MeansEq(a.right[i], false, holds)
  {
    hide MeansEq;
  }

  lemma {:induction false} EqsDnfAt(s: seq<EqualExpr>, i: nat)
    requires i < |s|
    ensures EqsDnf(s)[i] == EqDnf(s[i])
  {
    hide EqDnf;
    if i > 0 { EqsDnfAt(s[1..], i - 1); }
  }

  lemma AndSat(a: AndExpression, holds: Leaf -> bool)
    ensures SatDnf(AndDnf(a), holds) <==>
            SatDnf(EqDnf(a.left), holds) && forall i :: 0 <= i < |a.right| ==> SatDnf(EqsDnf(a.right)[i], holds)
  {
    hide SatDnf, EqDnf, EqsDnf, ProductAll;
    var rest := EqsDnf(a.right);
    var ds := [EqDnf(a.left)] + rest;
    SatProductAll(ds, holds);
    AndDnfParts(a);
    if SatDnf(AndDnf(a), holds) {
      assert SatDnf(ds[0], holds);
      forall i | 0 <= i < |rest| ensures SatDnf(rest[i], holds) { assert ds[i + 1] == rest[i]; }
    } else if SatDnf(EqDnf(a.left), holds) {
      var i :| 0 <= i < |ds| && !SatDnf(ds[i], holds);
      assert ds[i] == rest[i - 1];
    }
  }

  lemma {:induction false} EqMeaning(e: EqualExpr, holds: Leaf -> bool)
    ensures SatDnf(EqDnf(e), holds) <==> MeansEq(e, false, holds)
    decreases EqRank(e), 1, 0
  {
    hide SatDnf, NormalLeaf;
    match e {
      case Term(l) =>
        SatLeaf(NormalLeaf(l), holds);
      case Paren(isNot, nested) =>
        ParenRank(e);
        InvertedMeans(nested, holds);
        MeaningPreserved(if isNot then Inverted(nested) else nested, holds);
    }
  }

  // ---------- No conjunction is empty ----------

  predicate NonEmpty(d: Dnf) { forall i :: 0 <= i < |d| ==> d[i] != [] }

  lemma {:induction false} ProductNonEmpty(xs: Dnf, ys: Dnf)
    requires NonEmpty(ys)
    ensures NonEmpty(Product(xs, ys))
  {
    if xs != [] { ProductNonEmpty(xs[..|xs| - 1], ys); }
  }

  lemma {:induction false} ExprNonEmpty(e: Expression)
    ensures NonEmpty(ExprDnf(e))
    decreases Rank(e), 5, 0
  {
    hide AndDnf;
    AndNonEmpty(e.disjunction.left);
    AndsNonEmpty(e.disjunction.right);
  }

  lemma {:induction false} AndsNonEmpty(s: seq<AndExpression>)
    ensures NonEmpty(AndsDnf(s))
    decreases AndsRank(s), 4, |s|
  {
    hide AndDnf, AndRank;
    if s != [] {
      AndNonEmpty(s[0]);
      AndsNonEmpty(s[1..]);
    }
  }

  lemma {:induction false} AndNonEmpty(a: AndExpression)
    ensures NonEmpty(AndDnf(a))
    decreases AndRank(a), 3, 0
  {
    hide EqDnf, EqsDnf, NonEmpty, Product, EqRank, AndRank;
    AndRankParts(a);
    var ds := [EqDnf(a.left)] + EqsDnf(a.right);
    var k := |ds| - 1;
    if k == 0 {
      EqNonEmpty(a.left);
    } else {
      EqNonEmpty(a.right[k - 1]);
      EqsDnfAt(a.right, k - 1);
    }
    ProductNonEmpty(ProductAll(ds[..k]), ds[k]);
  }

  lemma {:induction false} EqNonEmpty(e: EqualExpr)
    ensures NonEmpty(EqDnf(e))
    decreases EqRank(e), 1, 0
  {
    hide NormalLeaf;
    if e.Paren? {
      ParenRank(e);
      ExprNonEmpty(if e.isNot then Inverted(e.nested) else e.nested);
    }
  }
}
