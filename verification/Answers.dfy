/** What a query answers: live entities, judged by the query as it was written. */
module Answers {
  import opened Bytes
  import opened Entities
  import opened Ledger
  import opened Machine
  import opened Language
  import opened Normalize
  import opened Evaluate

  // ---------- An entity meets a query ----------

  /** The entity carries a value that the leaf asks for; a negated leaf asks for an entity that carries none. */
  ghost predicate EntityMeets(e: Entity, l: Leaf) {
    Negated(l) != exists p :: p in Annots(e) && p.key == l.key && Hits(l, p.val)
  }

  ghost predicate Live(t: Trie, id: uint64) { id in t.ids && t.ids[id] in t.code }

  ghost function EntityOf(t: Trie, id: uint64): Entity
    requires Live(t, id)
  {
    t.code[t.ids[id]]
  }

  /** The boolean query as written, on one entity. */
  ghost predicate Satisfies(e: Entity, q: TopLevel) {
    match q
    case Everything => true
    case Query(x) => Means(x, false, (l: Leaf) => EntityMeets(e, l))
  }

  lemma LiveIs(l: Ledger, id: uint64)
    requires LedgerInv(l)
    ensures Live(l.trie, id) <==> id in l.trie.ids
    ensures Live(l.trie, id) <==> id in Bits(l.trie.annot, ALL_PAIR)
    ensures Live(l.trie, id) ==> ValidEntity(EntityOf(l.trie, id))
  {
    hide IndexExact;
    AllBitmap(l);
  }

  lemma HitsCarried(l: Ledger, leaf: Leaf, id: uint64)
    requires LedgerInv(l)
    ensures id in HitSet(l.trie.annot, leaf) <==>
            Live(l.trie, id) && exists p :: p in Annots(EntityOf(l.trie, id)) && p.key == leaf.key && Hits(leaf, p.val)
  {
    hide IdsInv, EntitiesInv, Hits, Annots, HitSet;
    HitIff(l.trie.annot, leaf, id);
    if id in HitSet(l.trie.annot, leaf) {
      var v: Str :| Hits(leaf, v) && id in Bits(l.trie.annot, Pair(leaf.key, v));
      assert Carries(l.trie, Pair(leaf.key, v), id);
      assert Pair(leaf.key, v) in Annots(EntityOf(l.trie, id)) && Hits(leaf, Pair(leaf.key, v).val);
    }
    if Live(l.trie, id) {
      if p :| p in Annots(EntityOf(l.trie, id)) && p.key == leaf.key && Hits(leaf, p.val) {
        assert p == Pair(leaf.key, p.val) && Carries(l.trie, p, id);
        assert id in Bits(l.trie.annot, Pair(leaf.key, p.val));
      }
    }
  }

  /** At the head a leaf selects exactly the live entities that meet it. */
  lemma LeafExact(l: Ledger, leaf: Leaf, id: uint64)
    requires LedgerInv(l)
    ensures id in LeafSet(l.trie.annot, l.trie.annot, leaf) <==>
            Live(l.trie, id) && EntityMeets(EntityOf(l.trie, id), leaf)
  {
    hide LedgerInv, Hits, Annots, HitSet;
    HitsCarried(l, leaf, id);
    LiveIs(l, id);
  }

  // ---------- From the normal form back to the query ----------

  lemma {:induction false} AndSetIff(hist: map<Pair, Hash>, head: map<Pair, Hash>, c: Conjunction, id: uint64)
    ensures id in AndSet(hist, head, c) <==> c != [] && SatAll(c, (l: Leaf) => id in LeafSet(hist, head, l))
  {
    hide LeafSet;
    if |c| > 1 {
      var init := c[..|c| - 1];
      AndSetIff(hist, head, init, id);
      assert forall i :: 0 <= i < |init| ==> init[i] == c[i];
    }
  }

  lemma {:induction false} OrSetIff(hist: map<Pair, Hash>, head: map<Pair, Hash>, d: Dnf, id: uint64)
    requires NonEmpty(d)
    ensures id in OrSet(hist, head, d) <==> SatDnf(d, (l: Leaf) => id in LeafSet(hist, head, l))
  {
    hide LeafSet, SatAll, SatDnf, AndSet;
    var holds := (l: Leaf) => id in LeafSet(hist, head, l);
    SatNothing(holds);
    if d != [] {
      var init, c := d[..|d| - 1], d[|d| - 1];
      OrSetIff(hist, head, init, id);
      AndSetIff(hist, head, c, id);
      SatConcat(init, [c], holds);
      SatOne(c, holds);
      assert d == init + [c];
    }
  }

  lemma SatSame(d: Dnf, f: Leaf -> bool, g: Leaf -> bool)
    requires forall l :: f(l) == g(l)
    ensures SatDnf(d, f) == SatDnf(d, g)
  {
    forall i | 0 <= i < |d| ensures SatAll(d[i], f) == SatAll(d[i], g) {
    }
  }

  lemma SatNone(d: Dnf, f: Leaf -> bool)
    requires NonEmpty(d) && forall l :: !f(l)
    ensures !SatDnf(d, f)
  {
    forall i | 0 <= i < |d| ensures !SatAll(d[i], f) {
      assert !f(d[i][0]);
    }
  }

  /** At the head, normalising and evaluating a query gives exactly the live entities that satisfy it as written. */
  lemma QueryExact(l: Ledger, q: TopLevel, id: uint64)
    requires LedgerInv(l)
    ensures id in AstSet(l.trie.annot, l.trie.annot, Normal(q)) <==>
            Live(l.trie, id) && Satisfies(EntityOf(l.trie, id), q)
  {
    hide LedgerInv, EntityMeets, LeafSet, SatDnf, ExprDnf, OrSet, Means, NonEmpty;
    LiveIs(l, id);
    match q {
      case Everything =>
      case Query(e) => ExpressionExact(l, e, id);
    }
  }

  lemma ExpressionExact(l: Ledger, e: Expression, id: uint64)
    requires LedgerInv(l)
    ensures id in OrSet(l.trie.annot, l.trie.annot, ExprDnf(e)) <==>
            Live(l.trie, id) && Means(e, false, (x: Leaf) => EntityMeets(EntityOf(l.trie, id), x))
  {
    hide LedgerInv, EntityMeets, LeafSet, SatDnf, ExprDnf, OrSet, Means, NonEmpty;
    var annot, d := l.trie.annot, ExprDnf(e);
    var selected := (x: Leaf) => id in LeafSet(annot, annot, x);
    ExprNonEmpty(e);
    OrSetIff(annot, annot, d, id);
    forall x: Leaf
      ensures id in LeafSet(annot, annot, x) <==> Live(l.trie, id) && EntityMeets(EntityOf(l.trie, id), x)
    {
      LeafExact(l, x, id);
    }
    if Live(l.trie, id) {
      var meets := (x: Leaf) => EntityMeets(EntityOf(l.trie, id), x);
      SatSame(d, selected, meets);
      MeaningPreserved(e, meets);
    } else {
      SatNone(d, selected);
    }
  }

  // ---------- The leaves of an expression ----------

  ghost predicate EachLeaf(e: Expression, ok: Leaf -> bool) {
    && EachLeafAnd(e.disjunction.left, ok)
    && forall i :: 0 <= i < |e.disjunction.right| ==> EachLeafAnd(e.disjunction.right[i], ok)
  }

  ghost predicate EachLeafAnd(a: AndExpression, ok: Leaf -> bool) {
    EachLeafEq(a.left, ok) && forall i :: 0 <= i < |a.right| ==> EachLeafEq(a.right[i], ok)
  }

  ghost predicate EachLeafEq(e: EqualExpr, ok: Leaf -> bool) {
    match e
    case Paren(_, x) => EachLeaf(x, ok)
    case Term(l) => ok(l)
  }

  lemma {:induction false} LeavesImply(e: Expression, ok: Leaf -> bool, good: Leaf -> bool)
    requires EachLeaf(e, ok) && forall l :: ok(l) ==> good(l)
    ensures EachLeaf(e, good)
    decreases e, 1
  {
    hide EachLeafAnd;
    var o := e.disjunction;
    LeavesImplyAnd(o.left, ok, good);
    forall i | 0 <= i < |o.right| ensures EachLeafAnd(o.right[i], good) { LeavesImplyAnd(o.right[i], ok, good); }
  }

  lemma {:induction false} LeavesImplyAnd(a: AndExpression, ok: Leaf -> bool, good: Leaf -> bool)
    requires EachLeafAnd(a, ok) && forall l :: ok(l) ==> good(l)
    ensures EachLeafAnd(a, good)
    decreases a, 1
  {
    hide EachLeafEq;
    LeavesImplyEq(a.left, ok, good);
    forall i | 0 <= i < |a.right| ensures EachLeafEq(a.right[i], good) { LeavesImplyEq(a.right[i], ok, good); }
  }

  lemma {:induction false} LeavesImplyEq(e: EqualExpr, ok: Leaf -> bool, good: Leaf -> bool)
    requires EachLeafEq(e, ok) && forall l :: ok(l) ==> good(l)
    ensures EachLeafEq(e, good)
    decreases e, 1
  {
    if e.Paren? { LeavesImply(e.nested, ok, good); }
  }

  // ---------- Historical queries ----------

  /** Leaves that are read at the requested block rather than scanned at the head. */
  predicate ReadAtBlock(l: Leaf) { l.Assign? || l.Inclusion? }

  /** Two interpretations agree on a leaf and on its inverted form. */
  ghost predicate Agree(f: Leaf -> bool, g: Leaf -> bool, l: Leaf) {
    f(NormalLeaf(l)) == g(NormalLeaf(l)) && f(NormalLeaf(InvertLeaf(l))) == g(NormalLeaf(InvertLeaf(l)))
  }

  /** The meaning of an expression depends only on its own leaves. */
  lemma {:induction false} MeansAgree(e: Expression, neg: bool, f: Leaf -> bool, g: Leaf -> bool)
    requires EachLeaf(e, (l: Leaf) => Agree(f, g, l))
    ensures Means(e, neg, f) <==> Means(e, neg, g)
    decreases e
  {
    hide EachLeafAnd, MeansAnd, Agree;
    var o := e.disjunction;
    AndAgrees(o.left, neg, f, g);
    forall i | 0 <= i < |o.right| ensures MeansAnd(o.right[i], neg, f) <==> MeansAnd(o.right[i], neg, g) {
      AndAgrees(o.right[i], neg, f, g);
    }
  }

  lemma {:induction false} AndAgrees(a: AndExpression, neg: bool, f: Leaf -> bool, g: Leaf -> bool)
    requires EachLeafAnd(a, (l: Leaf) => Agree(f, g, l))
    ensures MeansAnd(a, neg, f) <==> MeansAnd(a, neg, g)
    decreases a
  {
    hide EachLeafEq, MeansEq, Agree;
    EqAgrees(a.left, neg, f, g);
    forall i | 0 <= i < |a.right| ensures MeansEq(a.right[i], neg, f) <==> MeansEq(a.right[i], neg, g) {
      EqAgrees(a.right[i], neg, f, g);
    }
  }

  lemma {:induction false} EqAgrees(e: EqualExpr, neg: bool, f: Leaf -> bool, g: Leaf -> bool)
    requires EachLeafEq(e, (l: Leaf) => Agree(f, g, l))
    ensures MeansEq(e, neg, f) <==> MeansEq(e, neg, g)
    decreases e
  {
    hide NormalLeaf;
    if e.Paren? { MeansAgree(e.nested, neg != e.isNot, f, g); }
  }

  /**
   * A query made of equalities and inclusions, asked at an earlier block, gives exactly the entities that were live
   * there and satisfied it there, whatever the head holds now.
   */
  lemma HistoricalExact(l: Ledger, head: map<Pair, Hash>, e: Expression, id: uint64)
    requires LedgerInv(l) && EachLeaf(e, (x: Leaf) => ReadAtBlock(x))
    ensures id in AstSet(l.trie.annot, head, Normal(Query(e))) <==>
            Live(l.trie, id) && Satisfies(EntityOf(l.trie, id), Query(e))
  {
    hide LedgerInv, Satisfies, LeafSet, SatDnf, ExprDnf, OrSet, Means, NonEmpty, EachLeaf, Agree, ReadAtBlock;
    var annot, d := l.trie.annot, ExprDnf(e);
    var there := (x: Leaf) => id in LeafSet(annot, head, x);
    var here := (x: Leaf) => id in LeafSet(annot, annot, x);
    forall x: Leaf | ReadAtBlock(x) ensures Agree(there, here, x) { ReadsAgree(annot, head, x, id); }
    LeavesImply(e, (x: Leaf) => ReadAtBlock(x), (x: Leaf) => Agree(there, here, x));
    MeansAgree(e, false, there, here);
    ExprNonEmpty(e);
    OrSetIff(annot, head, d, id);
    OrSetIff(annot, annot, d, id);
    MeaningPreserved(e, there);
    MeaningPreserved(e, here);
    QueryExact(l, Query(e), id);
  }

  lemma ReadsAgree(annot: map<Pair, Hash>, head: map<Pair, Hash>, l: Leaf, id: uint64)
    requires ReadAtBlock(l)
    ensures Agree((x: Leaf) => id in LeafSet(annot, head, x), (x: Leaf) => id in LeafSet(annot, annot, x), l)
  {
    hide HitSet, ToLower;
  }

  // ---------- Hexadecimal keys ----------

  /** The address or hash that an entity carries under a hexadecimal key. */
  function HexOf(e: Entity, k: Str): Str {
    if k == OWNER_KEY then e.owner else if k == CREATOR_KEY then e.creator else e.key
  }

  lemma HexCarried(e: Entity, k: Str, p: Pair)
    requires ValidEntity(e) && HexKey(k)
    ensures p in Annots(e) && p.key == k <==> p == Pair(k, LowerHex(HexOf(e, k)))
  {
    hide Annots, ValidEntity, NumericVal, LowerHex, Ascii;
    BuiltinKeysDistinct(e);
    assert BuiltinAnnotations(e)[4].key != BuiltinAnnotations(e)[1].key;
    BuiltinCarried(e, if k == OWNER_KEY then 4 else if k == CREATOR_KEY then 1 else 5, p);
    assert BuiltinAnnotations(e)[5].key != BuiltinAnnotations(e)[4].key &&
           BuiltinAnnotations(e)[5].key != BuiltinAnnotations(e)[1].key;
  }

  lemma HexMeets(e: Entity, l: Leaf)
    requires ValidEntity(e) && HexKey(l.key) && !Negated(l)
    ensures EntityMeets(e, l) <==> Hits(l, LowerHex(HexOf(e, l.key)))
  {
    hide ValidEntity, Annots, LowerHex, Hits, HexKey;
    var p := Pair(l.key, LowerHex(HexOf(e, l.key)));
    HexCarried(e, l.key, p);
    if EntityMeets(e, l) {
      var q :| q in Annots(e) && q.key == l.key && Hits(l, q.val);
      HexCarried(e, l.key, q);
    }
  }

  /** A query for an owner, creator or key finds the entities of that value, however its digits are capitalised. */
  lemma HexQuery(e: Entity, k: Str, x: Str, spelled: Str)
    requires ValidEntity(e) && HexKey(k) && |x| == |HexOf(e, k)| && ToLower(spelled) == LowerHex(x)
    ensures EntityMeets(e, NormalLeaf(Assign(k, false, Text(spelled)))) <==> HexOf(e, k) == x
  {
    hide ValidEntity, EntityMeets, LowerHex, ToLower, HexKey, HexOf;
    var l := NormalLeaf(Assign(k, false, Text(spelled)));
    HexMeets(e, l);
    if LowerHex(HexOf(e, k)) == LowerHex(x) { LowerHexInjective(HexOf(e, k), x); }
  }

  /** An inclusion over such a key finds the entities whose value is among the listed ones, in any capitalisation. */
  lemma HexInclusion(e: Entity, k: Str, spelled: seq<Str>)
    requires ValidEntity(e) && HexKey(k)
    ensures EntityMeets(e, NormalLeaf(Inclusion(k, false, Texts(spelled)))) <==>
            exists i :: 0 <= i < |spelled| && ToLower(spelled[i]) == LowerHex(HexOf(e, k))
  {
    hide ValidEntity, EntityMeets, LowerHex, ToLower, HexKey, HexOf;
    var l := NormalLeaf(Inclusion(k, false, Texts(spelled)));
    HexMeets(e, l);
    var x := LowerHex(HexOf(e, k));
    assert l == Inclusion(k, false, Texts(LowerTexts(spelled)));
    assert Hits(l, x) <==> x in LowerTexts(spelled);
    if i :| 0 <= i < |spelled| && ToLower(spelled[i]) == x {
      assert LowerTexts(spelled)[i] == x;
    }
  }
}
