/** When negating a query selects the complement among the live entities. */
module Negation {
  import opened Bytes
  import opened Entities
  import opened Ledger
  import opened Chain
  import opened Machine
  import opened Language
  import opened Normalize
  import opened Evaluate
  import opened Answers

  // ---------- Negation of expressions ----------

  /** Inverting the leaf negates it. */
  ghost predicate Negates(holds: Leaf -> bool, l: Leaf) {
    holds(NormalLeaf(InvertLeaf(l))) <==> !holds(NormalLeaf(l))
  }

  /** If inverting negates every leaf, one more negation negates the whole expression. */
  lemma {:induction false} NegationComplements(e: Expression, holds: Leaf -> bool)
    requires EachLeaf(e, (l: Leaf) => Negates(holds, l))
    ensures Means(e, true, holds) <==> !Means(e, false, holds)
    decreases e
  {
    hide EachLeafAnd, MeansAnd, Negates;
    var o := e.disjunction;
    AndComplements(o.left, holds);
    forall i | 0 <= i < |o.right|
      ensures MeansAnd(o.right[i], true, holds) <==> !MeansAnd(o.right[i], false, holds)
    {
      AndComplements(o.right[i], holds);
    }
  }

  lemma {:induction false} AndComplements(a: AndExpression, holds: Leaf -> bool)
    requires EachLeafAnd(a, (l: Leaf) => Negates(holds, l))
    ensures MeansAnd(a, true, holds) <==> !MeansAnd(a, false, holds)
    decreases a
  {
    hide EachLeafEq, MeansEq, Negates;
    EqComplements(a.left, holds);
    forall i | 0 <= i < |a.right|
      ensures MeansEq(a.right[i], true, holds) <==> !MeansEq(a.right[i], false, holds)
    {
      EqComplements(a.right[i], holds);
    }
  }

  lemma {:induction false} EqComplements(e: EqualExpr, holds: Leaf -> bool)
    requires EachLeafEq(e, (l: Leaf) => Negates(holds, l))
    ensures MeansEq(e, true, holds) <==> !MeansEq(e, false, holds)
    decreases e
  {
    hide NormalLeaf;
    if e.Paren? { NegationComplements(e.nested, holds); }
  }

  // ---------- Ranges ----------

  predicate IsRange(l: Leaf) { l.LessThan? || l.LessOrEqualThan? || l.GreaterThan? || l.GreaterOrEqualThan? }

  datatype Kind = TextKind | NumberKind

  function KindOf(x: Value): Kind { if x.Text? then TextKind else NumberKind }

  /** The stored values that a range looks at: non-empty ones for a text bound, eight-byte ones for a number. */
  predicate Counts(kind: Kind, v: Str) {
    match kind
    case TextKind => v != []
    case NumberKind => |v| == 8
  }

  /** On a value it looks at, a range and its inversion exclude each other and leave nothing out. */
  lemma RangeSplits(l: Leaf, v: Str)
    requires IsRange(l)
    ensures Hits(l, v) ==> Counts(KindOf(l.value), v)
    ensures Counts(KindOf(l.value), v) ==> (Hits(InvertLeaf(l), v) <==> !Hits(l, v))
  {
    hide NumericOf, Less;
    if l.value.Text? { LessTotal(v, l.value.s); }
  }

  ghost predicate IsCarried(e: Entity, k: Str, kind: Kind, v: Str) {
    Counts(kind, v) && Pair(k, v) in Annots(e)
  }

  /** The entity has exactly one value of the key that such a range looks at. */
  ghost predicate CarriesOne(e: Entity, k: Str, kind: Kind) {
    exists v: Str :: IsCarried(e, k, kind, v) && forall w: Str :: IsCarried(e, k, kind, w) ==> w == v
  }

  lemma RangeMeets(e: Entity, l: Leaf)
    requires IsRange(l)
    ensures EntityMeets(e, l) <==> exists v: Str :: IsCarried(e, l.key, KindOf(l.value), v) && Hits(l, v)
  {
    hide Annots, Hits, Counts;
    if EntityMeets(e, l) {
      var p :| p in Annots(e) && p.key == l.key && Hits(l, p.val);
      RangeSplits(l, p.val);
      assert p == Pair(l.key, p.val) && IsCarried(e, l.key, KindOf(l.value), p.val);
    }
    if v: Str :| IsCarried(e, l.key, KindOf(l.value), v) && Hits(l, v) {
      assert Pair(l.key, v).key == l.key && Hits(l, Pair(l.key, v).val);
    }
  }

  lemma OneValueNegates(e: Entity, l: Leaf)
    requires IsRange(l) && CarriesOne(e, l.key, KindOf(l.value))
    ensures EntityMeets(e, InvertLeaf(l)) <==> !EntityMeets(e, l)
  {
    hide EntityMeets, Hits, IsCarried;
    RangeMeets(e, l);
    RangeMeets(e, InvertLeaf(l));
    var v: Str :| IsCarried(e, l.key, KindOf(l.value), v) &&
      forall w: Str :: IsCarried(e, l.key, KindOf(l.value), w) ==> w == v;
    CarriedCounts(e, l.key, KindOf(l.value), v);
    RangeSplits(l, v);
  }

  lemma CarriedCounts(e: Entity, k: Str, kind: Kind, v: Str)
    requires IsCarried(e, k, kind, v)
    ensures Counts(kind, v)
  {
  }

  // ---------- Both operator pairs, both kinds of bound ----------

  /** `k <= x` or `k < x`. */
  function Under(k: Str, inclusive: bool, x: Value): (l: Leaf)
    requires HexKey(k) ==> x.Text?
    ensures IsRange(l) && l.key == k && l.value == x
  {
    if inclusive then LessOrEqualThan(k, x) else LessThan(k, x)
  }

  /** The inversion: `k > x` or `k >= x`. */
  function Over(k: Str, inclusive: bool, x: Value): (l: Leaf)
    requires HexKey(k) ==> x.Text?
    ensures IsRange(l) && l.key == k && l.value == x && l == InvertLeaf(Under(k, inclusive, x))
  {
    if inclusive then GreaterThan(k, x) else GreaterOrEqualThan(k, x)
  }

  /** For every bound of the kind, the entity meets one of the range and its inversion, and not both. */
  ghost predicate RangesComplement(e: Entity, k: Str, inclusive: bool, kind: Kind)
    requires HexKey(k) ==> kind.TextKind?
  {
    forall x: Value :: KindOf(x) == kind ==>
      (EntityMeets(e, Over(k, inclusive, x)) <==> !EntityMeets(e, Under(k, inclusive, x)))
  }

  /** A bound between two values: the lower one is under it, the upper one over it. */
  lemma Separates(k: Str, inclusive: bool, kind: Kind, v: Str, w: Str) returns (x: Value)
    requires HexKey(k) ==> kind.TextKind?
    requires Counts(kind, v) && Counts(kind, w) && v != w
    ensures KindOf(x) == kind
    ensures || (Hits(Under(k, inclusive, x), v) && Hits(Over(k, inclusive, x), w))
            || (Hits(Under(k, inclusive, x), w) && Hits(Over(k, inclusive, x), v))
  {
    hide NumericOf, NumericVal, Less, HexKey;
    match kind {
      case TextKind =>
        LessTotal(v, w);
        LessTotal(w, v);
        x := Text(if Less(v, w) == inclusive then v else w);
      case NumberKind =>
        var a, b := NumericOf(v), NumericOf(w);
        assert NumericVal(a) == v && NumericVal(b) == w;
        x := Number(if (a < b) == inclusive then a else b);
    }
  }

  /** An entity with two values of the key meets both the range and its inversion, for some bound. */
  lemma RangeMeetsBoth(e: Entity, k: Str, inclusive: bool, kind: Kind, v: Str, w: Str)
    requires HexKey(k) ==> kind.TextKind?
    requires IsCarried(e, k, kind, v) && IsCarried(e, k, kind, w) && v != w
    ensures exists x: Value ::
              KindOf(x) == kind && EntityMeets(e, Under(k, inclusive, x)) && EntityMeets(e, Over(k, inclusive, x))
  {
    hide EntityMeets, Hits, IsCarried, Counts, HexKey;
    CarriedCounts(e, k, kind, v);
    CarriedCounts(e, k, kind, w);
    var x := Separates(k, inclusive, kind, v, w);
    RangeMeets(e, Under(k, inclusive, x));
    RangeMeets(e, Over(k, inclusive, x));
  }

  /** An entity without a value of the key meets neither, for any bound. */
  lemma RangeMeetsNeither(e: Entity, k: Str, inclusive: bool, x: Value)
    requires HexKey(k) ==> x.Text?
    requires forall v: Str :: !IsCarried(e, k, KindOf(x), v)
    ensures !EntityMeets(e, Under(k, inclusive, x)) && !EntityMeets(e, Over(k, inclusive, x))
  {
    hide EntityMeets, Hits, IsCarried, HexKey;
    RangeMeets(e, Under(k, inclusive, x));
    RangeMeets(e, Over(k, inclusive, x));
  }

  /** Inverting a range negates it for every bound exactly when the entity has one value of the key to look at. */
  lemma RangesComplementIff(e: Entity, k: Str, inclusive: bool, kind: Kind)
    requires HexKey(k) ==> kind.TextKind?
    ensures RangesComplement(e, k, inclusive, kind) <==> CarriesOne(e, k, kind)
  {
    hide EntityMeets, Hits, IsCarried, HexKey, Under, Over;
    if CarriesOne(e, k, kind) {
      forall x: Value | KindOf(x) == kind
        ensures EntityMeets(e, Over(k, inclusive, x)) <==> !EntityMeets(e, Under(k, inclusive, x))
      {
        OneValueNegates(e, Under(k, inclusive, x));
      }
    }
    if RangesComplement(e, k, inclusive, kind) {
      var x := if kind.TextKind? then Text([]) else Number(0);
      assert KindOf(x) == kind && !(!EntityMeets(e, Over(k, inclusive, x)) && !EntityMeets(e, Under(k, inclusive, x)));
      if forall v: Str :: !IsCarried(e, k, kind, v) { RangeMeetsNeither(e, k, inclusive, x); }
      var v: Str :| IsCarried(e, k, kind, v);
      forall w: Str | IsCarried(e, k, kind, w) ensures w == v {
        if w != v { RangeMeetsBoth(e, k, inclusive, kind, v, w); }
      }
    }
  }

  /** For every bound of the kind, the live entities outside the range are those inside its inversion. */
  ghost predicate RangeSetsComplement(annot: map<Pair, Hash>, k: Str, inclusive: bool, kind: Kind)
    requires HexKey(k) ==> kind.TextKind?
  {
    forall x: Value :: KindOf(x) == kind ==>
      LeafSet(annot, annot, Over(k, inclusive, x)) ==
        Bits(annot, ALL_PAIR) - LeafSet(annot, annot, Under(k, inclusive, x))
  }

  /**
   * On results, for both operator pairs and both kinds of bound: inverting a range takes the complement for every bound
   * exactly when every live entity has one value of the key to look at.
   */
  lemma RangeSetsComplementIff(l: Ledger, k: Str, inclusive: bool, kind: Kind)
    requires LedgerInv(l) && (HexKey(k) ==> kind.TextKind?)
    ensures RangeSetsComplement(l.trie.annot, k, inclusive, kind) <==>
            forall id: uint64 :: Live(l.trie, id) ==> CarriesOne(EntityOf(l.trie, id), k, kind)
  {
    hide LedgerInv, EntityMeets, CarriesOne, HexKey, Under, Over, Live, EntityOf, LeafSet;
    var annot := l.trie.annot;
    forall x: Value, id: uint64 | KindOf(x) == kind
      ensures id in LeafSet(annot, annot, Over(k, inclusive, x)) <==>
              Live(l.trie, id) && EntityMeets(EntityOf(l.trie, id), Over(k, inclusive, x))
      ensures id in LeafSet(annot, annot, Under(k, inclusive, x)) <==>
              Live(l.trie, id) && EntityMeets(EntityOf(l.trie, id), Under(k, inclusive, x))
      ensures id in Bits(annot, ALL_PAIR) <==> Live(l.trie, id)
    {
      LeafExact(l, Over(k, inclusive, x), id);
      LeafExact(l, Under(k, inclusive, x), id);
      LiveIs(l, id);
    }
    if RangeSetsComplement(annot, k, inclusive, kind) {
      forall id: uint64 | Live(l.trie, id) ensures CarriesOne(EntityOf(l.trie, id), k, kind) {
        forall x: Value | KindOf(x) == kind
          ensures EntityMeets(EntityOf(l.trie, id), Over(k, inclusive, x)) <==>
                  !EntityMeets(EntityOf(l.trie, id), Under(k, inclusive, x))
        {
          assert id in LeafSet(annot, annot, Over(k, inclusive, x)) <==>
                 id !in LeafSet(annot, annot, Under(k, inclusive, x));
        }
        RangesComplementIff(EntityOf(l.trie, id), k, inclusive, kind);
      }
    }
    if forall id: uint64 :: Live(l.trie, id) ==> CarriesOne(EntityOf(l.trie, id), k, kind) {
      forall x: Value | KindOf(x) == kind
        ensures LeafSet(annot, annot, Over(k, inclusive, x)) ==
                Bits(annot, ALL_PAIR) - LeafSet(annot, annot, Under(k, inclusive, x))
      {
        forall id: uint64
          ensures id in LeafSet(annot, annot, Over(k, inclusive, x)) <==>
                  id in Bits(annot, ALL_PAIR) && id !in LeafSet(annot, annot, Under(k, inclusive, x))
        {
          if Live(l.trie, id) { RangesComplementIff(EntityOf(l.trie, id), k, inclusive, kind); }
        }
      }
    }
  }

  // ---------- Whole queries ----------

  /** Every live entity has one value of the key that a range leaf looks at; other leaves are free. */
  ghost predicate Decided(t: Trie, l: Leaf) {
    IsRange(l) ==> forall id: uint64 :: Live(t, id) ==> CarriesOne(EntityOf(t, id), l.key, KindOf(l.value))
  }

  lemma NormalRange(l: Leaf)
    requires IsRange(l)
    ensures IsRange(NormalLeaf(l)) && NormalLeaf(l).key == l.key && KindOf(NormalLeaf(l).value) == KindOf(l.value)
    ensures NormalLeaf(InvertLeaf(l)) == InvertLeaf(NormalLeaf(l))
  {
    hide ToLower, HexKey;
  }

  lemma LeafNegates(e: Entity, l: Leaf)
    requires IsRange(l) ==> CarriesOne(e, l.key, KindOf(l.value))
    ensures Negates((x: Leaf) => EntityMeets(e, x), l)
  {
    hide EntityMeets, CarriesOne, NormalLeaf;
    if IsRange(l) {
      NormalRange(l);
      OneValueNegates(e, NormalLeaf(l));
    } else {
      FlagNegates(e, l);
    }
  }

  lemma FlagNegates(e: Entity, l: Leaf)
    requires l.Assign? || l.Inclusion? || l.GlobExpr?
    ensures Negates((x: Leaf) => EntityMeets(e, x), l)
  {
    hide Annots, ToLower;
    var a, b := NormalLeaf(l), NormalLeaf(InvertLeaf(l));
    assert Negated(a) != Negated(b) && a.key == b.key;
    assert forall v :: Hits(a, v) <==> Hits(b, v);
  }

  function Not(e: Expression): Expression {
    Expression(OrExpression(AndExpression(Paren(true, e), []), []))
  }

  lemma NotMeans(e: Expression, holds: Leaf -> bool)
    ensures Means(Not(e), false, holds) <==> Means(e, true, holds)
  {
    hide MeansOr;
    var a := AndExpression(Paren(true, e), []);
    assert MeansEq(a.left, false, holds) <==> Means(e, true, holds);
    ParenAlone(a, holds);
  }

  lemma ParenAlone(a: AndExpression, holds: Leaf -> bool)
    requires a.right == []
    ensures Means(Expression(OrExpression(a, [])), false, holds) <==> MeansEq(a.left, false, holds)
  {
    hide MeansEq;
    ConjunctionMeans(a, holds);
  }

  /**
   * At the head, and at any depth of nesting, negating an expression selects AllEntities minus what the expression
   * selects, provided every live entity has one value of each key that a range in it looks at.
   */
  lemma NotIsComplement(l: Ledger, e: Expression)
    requires LedgerInv(l) && EachLeaf(e, (x: Leaf) => Decided(l.trie, x))
    ensures var annot := l.trie.annot;
            AstSet(annot, annot, Normal(Query(Not(e)))) ==
            Bits(annot, ALL_PAIR) - AstSet(annot, annot, Normal(Query(e)))
  {
    hide LedgerInv, EntityMeets, AstSet, Means, EachLeaf, Normal, Decided;
    var annot := l.trie.annot;
    forall id: uint64
      ensures id in AstSet(annot, annot, Normal(Query(Not(e)))) <==>
              id in Bits(annot, ALL_PAIR) && id !in AstSet(annot, annot, Normal(Query(e)))
    {
      LiveIs(l, id);
      QueryExact(l, Query(e), id);
      QueryExact(l, Query(Not(e)), id);
      if Live(l.trie, id) { NotOnEntity(l.trie, id, e); }
    }
  }

  lemma NotOnEntity(t: Trie, id: uint64, e: Expression)
    requires Live(t, id) && EachLeaf(e, (x: Leaf) => Decided(t, x))
    ensures Satisfies(EntityOf(t, id), Query(Not(e))) <==> !Satisfies(EntityOf(t, id), Query(e))
  {
    hide EntityMeets, Means, EachLeaf, Negates, CarriesOne;
    var holds := (x: Leaf) => EntityMeets(EntityOf(t, id), x);
    forall x: Leaf | Decided(t, x) ensures Negates(holds, x) { LeafNegates(EntityOf(t, id), x); }
    LeavesImply(e, (x: Leaf) => Decided(t, x), (x: Leaf) => Negates(holds, x));
    NegationComplements(e, holds);
    NotMeans(e, holds);
  }

  /** The query as an ordinary boolean formula over its leaves: `||`, `&&`, parentheses and `!`. */
  ghost predicate Plain(e: Expression, holds: Leaf -> bool) {
    || PlainAnd(e.disjunction.left, holds)
    || exists i :: 0 <= i < |e.disjunction.right| && PlainAnd(e.disjunction.right[i], holds)
  }

  ghost predicate PlainAnd(a: AndExpression, holds: Leaf -> bool) {
    PlainEq(a.left, holds) && forall i :: 0 <= i < |a.right| ==> PlainEq(a.right[i], holds)
  }

  ghost predicate PlainEq(e: EqualExpr, holds: Leaf -> bool) {
    match e
    case Paren(isNot, x) => isNot != Plain(x, holds)
    case Term(l) => holds(NormalLeaf(l))
  }

  /** If inverting negates every leaf, carrying negations to the leaves gives the ordinary boolean meaning. */
  lemma {:induction false} MeansPlain(e: Expression, holds: Leaf -> bool)
    requires EachLeaf(e, (l: Leaf) => Negates(holds, l))
    ensures Means(e, false, holds) <==> Plain(e, holds)
    decreases e
  {
    hide EachLeafAnd, MeansAnd, PlainAnd, Negates;
    var o := e.disjunction;
    AndMeansPlain(o.left, holds);
    forall i | 0 <= i < |o.right| ensures MeansAnd(o.right[i], false, holds) <==> PlainAnd(o.right[i], holds) {
      AndMeansPlain(o.right[i], holds);
    }
  }

  lemma {:induction false} AndMeansPlain(a: AndExpression, holds: Leaf -> bool)
    requires EachLeafAnd(a, (l: Leaf) => Negates(holds, l))
    ensures MeansAnd(a, false, holds) <==> PlainAnd(a, holds)
    decreases a
  {
    hide EachLeafEq, MeansEq, PlainEq, Negates;
    EqMeansPlain(a.left, holds);
    forall i | 0 <= i < |a.right| ensures MeansEq(a.right[i], false, holds) <==> PlainEq(a.right[i], holds) {
      EqMeansPlain(a.right[i], holds);
    }
  }

  lemma {:induction false} EqMeansPlain(e: EqualExpr, holds: Leaf -> bool)
    requires EachLeafEq(e, (l: Leaf) => Negates(holds, l))
    ensures MeansEq(e, false, holds) <==> PlainEq(e, holds)
    decreases e
  {
    hide NormalLeaf, EachLeaf, Means, Plain, Negates;
    if e.Paren? {
      MeansPlain(e.nested, holds);
      NegationComplements(e.nested, holds);
    }
  }

  /**
   * At the head, a query whose ranges are decided selects exactly the live entities that satisfy it as an ordinary
   * boolean formula.
   */
  lemma PlainQueryExact(l: Ledger, e: Expression, id: uint64)
    requires LedgerInv(l) && EachLeaf(e, (x: Leaf) => Decided(l.trie, x))
    ensures id in AstSet(l.trie.annot, l.trie.annot, Normal(Query(e))) <==>
            Live(l.trie, id) && Plain(e, (x: Leaf) => EntityMeets(EntityOf(l.trie, id), x))
  {
    hide LedgerInv, EntityMeets, AstSet, Means, Plain, EachLeaf, Normal, Negates, CarriesOne;
    QueryExact(l, Query(e), id);
    if Live(l.trie, id) {
      var holds := (x: Leaf) => EntityMeets(EntityOf(l.trie, id), x);
      forall x: Leaf | Decided(l.trie, x) ensures Negates(holds, x) { LeafNegates(EntityOf(l.trie, id), x); }
      LeavesImply(e, (x: Leaf) => Decided(l.trie, x), (x: Leaf) => Negates(holds, x));
      MeansPlain(e, holds);
    }
  }

  // ---------- The built-in numeric keys ----------

  /** The numeric keys that every entity carries exactly once. */
  predicate SingleKey(k: Str) { k == EXPIRATION_KEY || k == CREATED_AT_KEY }

  function SingleValue(e: Entity, k: Str): uint64 { if k == EXPIRATION_KEY then e.expiresAt else e.createdAtBlock }

  lemma SingleCarried(e: Entity, k: Str, p: Pair)
    requires ValidEntity(e) && SingleKey(k)
    ensures p in Annots(e) && p.key == k <==> p == Pair(k, NumericVal(SingleValue(e, k)))
    ensures !HexKey(k)
  {
    hide Annots, ValidEntity, NumericVal, LowerHex, Ascii;
    BuiltinKeysDistinct(e);
    BuiltinCarried(e, if k == EXPIRATION_KEY then 6 else 2, p);
    assert BuiltinAnnotations(e)[2].key != EXPIRATION_KEY;
  }

  lemma SingleIsOne(e: Entity, k: Str, kind: Kind)
    requires ValidEntity(e) && SingleKey(k)
    ensures CarriesOne(e, k, kind)
  {
    hide Annots, ValidEntity, NumericVal, SingleKey;
    var v := NumericVal(SingleValue(e, k));
    SingleCarried(e, k, Pair(k, v));
    forall w: Str | IsCarried(e, k, kind, w) ensures w == v {
      SingleCarried(e, k, Pair(k, w));
    }
    assert IsCarried(e, k, kind, v);
  }

  /** Ranges on `$expiration` and `$createdAtBlock` are decided in every ledger, so negation is the complement. */
  lemma NotIsComplementBuiltin(l: Ledger, e: Expression)
    requires LedgerInv(l) && EachLeaf(e, (x: Leaf) => IsRange(x) ==> SingleKey(x.key))
    ensures var annot := l.trie.annot;
            AstSet(annot, annot, Normal(Query(Not(e)))) ==
            Bits(annot, ALL_PAIR) - AstSet(annot, annot, Normal(Query(e)))
  {
    hide LedgerInv, AstSet, EachLeaf, Normal, SingleKey, CarriesOne, Live, EntityOf;
    forall x: Leaf | IsRange(x) ==> SingleKey(x.key) ensures Decided(l.trie, x) {
      forall id: uint64 | IsRange(x) && Live(l.trie, id)
        ensures CarriesOne(EntityOf(l.trie, id), x.key, KindOf(x.value))
      {
        LiveIs(l, id);
        SingleIsOne(EntityOf(l.trie, id), x.key, KindOf(x.value));
      }
    }
    LeavesImply(e, (x: Leaf) => IsRange(x) ==> SingleKey(x.key), (x: Leaf) => Decided(l.trie, x));
    NotIsComplement(l, e);
  }

  // ---------- Chains on which inverting a range is not the complement ----------

  /** The trie holds one entity, with ID 1. */
  ghost predicate Alone(t: Trie, e: Entity) {
    exists a: Address :: t.ids == map[1 := a] && t.code == map[a := e]
  }

  lemma AloneLive(t: Trie, e: Entity, id: uint64)
    requires Alone(t, e)
    ensures Live(t, id) <==> id == 1
    ensures Live(t, 1) && EntityOf(t, 1) == e
  {
  }

  function OneCreate(c: CreateOp, hash: Hash32, parent: Hash32): seq<Block> { [OneOpBlock(1, hash, parent, Create(c))] }

  lemma OneCreateAlone(c: CreateOp, hash: Hash32, parent: Hash32)
    requires hash != parent && UserAddress(Addr(c.key)) && ValidAttributes(c.attributes)
    ensures var chain := OneCreate(c, hash, parent);
            ChainOk(chain) && LedgerInv(Replay(chain)) && Alone(Replay(chain).trie, Created(Sent(c), 1))
  {
    hide Replay, ChainOk, LedgerInv, Created, Addr, ValidAttributes, OneOpBlock;
    EmptyChain();
    FirstCreate([], c, hash, parent);
    assert [] + OneCreate(c, hash, parent) == OneCreate(c, hash, parent);
    ReplayInv(OneCreate(c, hash, parent));
  }

  lemma UserKeyIsNotHex(k: Str)
    requires ValidName(k)
    ensures !HexKey(k)
  {
    BuiltinKeys();
    KeyBytes();
  }

  /** The two ranges over a user key. */
  function UserUnder(k: Str, inclusive: bool, x: Value): (l: Leaf)
    requires ValidName(k)
    ensures !HexKey(k) && l == Under(k, inclusive, x)
  {
    UserKeyIsNotHex(k);
    Under(k, inclusive, x)
  }

  function UserOver(k: Str, inclusive: bool, x: Value): (l: Leaf)
    requires ValidName(k)
    ensures !HexKey(k) && l == Over(k, inclusive, x)
  {
    UserKeyIsNotHex(k);
    Over(k, inclusive, x)
  }

  /** An entity without user attributes carries no value under a user key. */
  lemma NoAttributes(c: CreateOp, n: uint64, k: Str, kind: Kind, v: Str)
    requires c.attributes == [] && ValidName(k)
    ensures !IsCarried(Created(c, n), k, kind, v)
  {
    hide Annots, NumericVal;
    UserCarried(Created(c, n), Pair(k, v));
  }

  /**
   * One block that creates an entity without attributes: a range over any user key and its inversion are both empty,
   * for every bound, while one entity is live.
   */
  lemma RangeGap(c: CreateOp, hash: Hash32, parent: Hash32, k: Str, inclusive: bool, x: Value)
    requires hash != parent && UserAddress(Addr(c.key)) && c.attributes == [] && ValidName(k)
    ensures var chain := OneCreate(c, hash, parent);
            var annot := Replay(chain).trie.annot;
            && ChainOk(chain)
            && LeafSet(annot, annot, UserUnder(k, inclusive, x)) == {}
            && LeafSet(annot, annot, UserOver(k, inclusive, x)) == {}
            && Bits(annot, ALL_PAIR) == {1}
  {
    hide Replay, ChainOk, LedgerInv, Created, Addr, OneCreate, EntityMeets, LeafSet, HexKey, UserUnder, UserOver,
         Under, Over, Live, EntityOf;
    hide Alone, IsCarried;
    UserKeyIsNotHex(k);
    OneCreateAlone(c, hash, parent);
    var l, e := Replay(OneCreate(c, hash, parent)), Created(Sent(c), 1);
    forall v: Str ensures !IsCarried(e, k, KindOf(x), v) { NoAttributes(Sent(c), 1, k, KindOf(x), v); }
    RangeMeetsNeither(e, k, inclusive, x);
    forall id: uint64
      ensures id !in LeafSet(l.trie.annot, l.trie.annot, UserUnder(k, inclusive, x))
      ensures id !in LeafSet(l.trie.annot, l.trie.annot, UserOver(k, inclusive, x))
      ensures id in Bits(l.trie.annot, ALL_PAIR) <==> id == 1
    {
      AloneLive(l.trie, e, id);
      LeafExact(l, UserUnder(k, inclusive, x), id);
      LeafExact(l, UserOver(k, inclusive, x), id);
      LiveIs(l, id);
    }
  }

  /** Two numeric attributes under one key. */
  function TwoNumbers(k: Str): seq<Attribute> {
    [Attribute(UintValue, k, [1]), Attribute(UintValue, k, [2])]
  }

  lemma TwoNumbersAre(k: Str)
    ensures NumericsOf(TwoNumbers(k)) == [NumericAnnot(k, 1), NumericAnnot(k, 2)]
  {
    var attrs := TwoNumbers(k);
    assert attrs[..1][..0] == [] && attrs[..2] == attrs;
    assert [1][..0] == [] && [2][..0] == [];
    AttributesStep(attrs, 0);
    AttributesStep(attrs, 1);
    AttributesEmpty(attrs[..0]);
    assert UintOf([1]) == 1 && UintOf([2]) == 2;
  }

  lemma TwoNumbersCarried(c: CreateOp, n: uint64, k: Str, kind: Kind)
    requires c.attributes == TwoNumbers(k) && ValidName(k)
    ensures IsCarried(Created(c, n), k, kind, NumericVal(1)) && IsCarried(Created(c, n), k, kind, NumericVal(2))
    ensures NumericVal(1) != NumericVal(2)
  {
    hide Annots, NumericVal, NumericsOf, StringsOf, TwoNumbers;
    var e := Created(c, n);
    TwoNumbersAre(k);
    assert e.numericAnnotations[0] == NumericAnnot(k, 1) && e.numericAnnotations[1] == NumericAnnot(k, 2);
    UserCarried(e, Pair(k, NumericVal(1)));
    UserCarried(e, Pair(k, NumericVal(2)));
    NumericOrder(1, 2);
  }

  /**
   * One block that creates an entity with two numbers under a user key: for some bound of either kind, the range and
   * its inversion both select it.
   */
  lemma RangeOverlap(c: CreateOp, hash: Hash32, parent: Hash32, k: Str, inclusive: bool, kind: Kind)
    requires hash != parent && UserAddress(Addr(c.key)) && c.attributes == TwoNumbers(k) && ValidName(k)
    ensures var chain := OneCreate(c, hash, parent);
            var annot := Replay(chain).trie.annot;
            && ChainOk(chain)
            && exists x: Value ::
                 && KindOf(x) == kind
                 && 1 in LeafSet(annot, annot, UserUnder(k, inclusive, x))
                 && 1 in LeafSet(annot, annot, UserOver(k, inclusive, x))
  {
    hide Replay, ChainOk, LedgerInv, Created, Addr, OneCreate, EntityMeets, LeafSet, HexKey, UserUnder, UserOver,
         Under, Over, Live, EntityOf;
    hide Alone, IsCarried, NumericVal, ValidName;
    UserKeyIsNotHex(k);
    OneCreateAlone(c, hash, parent);
    var l, e := Replay(OneCreate(c, hash, parent)), Created(Sent(c), 1);
    TwoNumbersCarried(Sent(c), 1, k, kind);
    RangeMeetsBoth(e, k, inclusive, kind, NumericVal(1), NumericVal(2));
    var x: Value :| KindOf(x) == kind && EntityMeets(e, UserUnder(k, inclusive, x)) &&
      EntityMeets(e, UserOver(k, inclusive, x));
    AloneLive(l.trie, e, 1);
    LeafExact(l, UserUnder(k, inclusive, x), 1);
    LeafExact(l, UserOver(k, inclusive, x), 1);
  }
}
