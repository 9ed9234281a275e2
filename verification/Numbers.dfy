/** String and numeric annotations share buckets: when a numeric leaf selects by numeric annotations only. */
module Numbers {
  import opened Bytes
  import opened Entities
  import opened Ledger
  import opened Chain
  import opened Machine
  import opened Language
  import opened Evaluate
  import opened Answers
  import opened Negation

  ghost predicate Annotated(e: Entity, k: Str, n: uint64) { NumericAnnot(k, n) in e.numericAnnotations }

  /** A string attribute whose eight bytes read as the number n. */
  ghost predicate Looks(e: Entity, k: Str, n: uint64) { StringAnnot(k, NumericVal(n)) in e.stringAnnotations }

  predicate NumericLeaf(l: Leaf, k: Str) { IsRange(l) && l.value.Number? && l.key == k }

  /** What the leaf asks of a number. */
  predicate Accepts(l: Leaf, n: uint64)
    requires IsRange(l) && l.value.Number?
  {
    match l
    case LessThan(_, x) => n < x.n
    case LessOrEqualThan(_, x) => n <= x.n
    case GreaterThan(_, x) => n > x.n
    case GreaterOrEqualThan(_, x) => n >= x.n
  }

  lemma NumberCarried(e: Entity, k: Str, n: uint64)
    requires ValidName(k)
    ensures Pair(k, NumericVal(n)) in Annots(e) <==> Annotated(e, k, n) || Looks(e, k, n)
  {
    hide Annots, NumericVal, ValidName;
    UserCarried(e, Pair(k, NumericVal(n)));
    forall m: uint64 ensures NumericVal(m) == NumericVal(n) <==> m == n { NumericOrder(m, n); }
  }

  lemma HitsAccepted(l: Leaf, n: uint64)
    requires IsRange(l) && l.value.Number?
    ensures Hits(l, NumericVal(n)) <==> Accepts(l, n)
  {
    hide NumericVal, NumericOf;
    NumericRound(n);
  }

  ghost predicate Shown(e: Entity, k: Str, n: uint64) { Annotated(e, k, n) || Looks(e, k, n) }

  lemma NumberShown(e: Entity, k: Str, n: uint64)
    requires ValidName(k)
    ensures IsCarried(e, k, NumberKind, NumericVal(n)) <==> Shown(e, k, n)
  {
    hide Annots, NumericVal, ValidName, Annotated, Looks;
    NumberCarried(e, k, n);
  }

  /** A numeric range meets an entity through numbers and through strings that look like numbers. */
  lemma NumericMeets(e: Entity, l: Leaf, k: Str)
    requires ValidName(k) && NumericLeaf(l, k)
    ensures EntityMeets(e, l) <==> exists n: uint64 :: Shown(e, k, n) && Accepts(l, n)
  {
    hide NumericVal, NumericOf, ValidName, EntityMeets, Shown, IsCarried, Hits, Accepts;
    RangeMeets(e, l);
    if EntityMeets(e, l) {
      var v: Str :| IsCarried(e, k, NumberKind, v) && Hits(l, v);
      CarriedCounts(e, k, NumberKind, v);
      NumberShown(e, k, NumericOf(v));
      HitsAccepted(l, NumericOf(v));
    }
    if n: uint64 :| Shown(e, k, n) && Accepts(l, n) {
      NumberShown(e, k, n);
      HitsAccepted(l, n);
    }
  }

  lemma NumericRound(n: uint64)
    ensures NumericOf(NumericVal(n)) == n
  {
    NumericOrder(n, NumericOf(NumericVal(n)));
  }

  ghost predicate NumberMeets(e: Entity, l: Leaf, k: Str)
    requires NumericLeaf(l, k)
  {
    exists n: uint64 :: Annotated(e, k, n) && Accepts(l, n)
  }

  /** Every numeric range over the key meets the entity through its numeric annotations or not at all. */
  ghost predicate NumbersDecide(e: Entity, k: Str) {
    forall l: Leaf :: NumericLeaf(l, k) ==> (EntityMeets(e, l) <==> NumberMeets(e, l, k))
  }

  /** Every string that looks like a number lies between two numeric annotations of the key. */
  ghost predicate Bracketed(e: Entity, k: Str) {
    forall n: uint64 :: Looks(e, k, n) ==>
      (exists a: uint64 :: Annotated(e, k, a) && a <= n) && (exists b: uint64 :: Annotated(e, k, b) && n <= b)
  }

  /** Ranges see only the ends: they select by numeric annotations exactly when the look-alikes lie between those. */
  lemma NumbersDecideIff(e: Entity, k: Str)
    requires ValidName(k)
    ensures NumbersDecide(e, k) <==> Bracketed(e, k)
  {
    hide EntityMeets, Annotated, Looks, ValidName;
    if NumbersDecide(e, k) {
      assert !HexKey(k) by { UserKeyIsNotHex(k); }
      forall n: uint64 | Looks(e, k, n)
        ensures exists a: uint64 :: Annotated(e, k, a) && a <= n
        ensures exists b: uint64 :: Annotated(e, k, b) && n <= b
      {
        assert Shown(e, k, n);
        NumericMeets(e, LessOrEqualThan(k, Number(n)), k);
        NumericMeets(e, GreaterOrEqualThan(k, Number(n)), k);
        assert NumberMeets(e, LessOrEqualThan(k, Number(n)), k) && NumberMeets(e, GreaterOrEqualThan(k, Number(n)), k);
      }
    }
    if Bracketed(e, k) {
      forall l: Leaf | NumericLeaf(l, k) ensures EntityMeets(e, l) <==> NumberMeets(e, l, k) {
        NumericMeets(e, l, k);
      }
    }
  }

  /** A numeric equality selects by numeric annotations exactly when every look-alike is a numeric annotation too. */
  lemma NumericEqualityIff(e: Entity, k: Str)
    requires ValidName(k)
    ensures (forall n: uint64 :: EntityMeets(e, EqualTo(k, n)) <==> Annotated(e, k, n)) <==>
            (forall n: uint64 :: Looks(e, k, n) ==> Annotated(e, k, n))
  {
    hide EntityMeets, Annotated, Looks, ValidName, EqualTo, NumericVal;
    forall n: uint64
      ensures EntityMeets(e, EqualTo(k, n)) <==> Annotated(e, k, n) || Looks(e, k, n)
    {
      EqualMeets(e, k, n);
      NumberCarried(e, k, n);
    }
  }

  /** `k = n` and `k >= n` over a user key. */
  function EqualTo(k: Str, n: uint64): (l: Leaf)
    requires ValidName(k)
    ensures l.Assign? && l.key == k && !l.isNot && l.value == Number(n)
  {
    UserKeyIsNotHex(k);
    Assign(k, false, Number(n))
  }

  function AtLeast(k: Str, n: uint64): (l: Leaf)
    requires ValidName(k)
    ensures l.GreaterOrEqualThan? && l.key == k && l.value == Number(n)
  {
    UserKeyIsNotHex(k);
    GreaterOrEqualThan(k, Number(n))
  }

  lemma EqualMeets(e: Entity, k: Str, n: uint64)
    requires ValidName(k)
    ensures EntityMeets(e, EqualTo(k, n)) <==> Pair(k, NumericVal(n)) in Annots(e)
  {
    hide Annots, NumericVal, EqualTo, ValidName;
    var l := EqualTo(k, n);
    if Pair(k, NumericVal(n)) in Annots(e) {
      assert Pair(k, NumericVal(n)).key == l.key && Hits(l, Pair(k, NumericVal(n)).val);
    }
    if EntityMeets(e, l) {
      var p :| p in Annots(e) && p.key == l.key && Hits(l, p.val);
      assert p == Pair(k, NumericVal(n));
    }
  }

  /** Every numeric range over the key selects exactly the live entities with a numeric annotation in it. */
  ghost predicate RangesSelectByNumber(l: Ledger, k: Str) {
    forall leaf: Leaf, id: uint64 :: NumericLeaf(leaf, k) ==>
      (id in LeafSet(l.trie.annot, l.trie.annot, leaf) <==>
        Live(l.trie, id) && NumberMeets(EntityOf(l.trie, id), leaf, k))
  }

  lemma RangesSelectByNumberIff(l: Ledger, k: Str)
    requires LedgerInv(l) && ValidName(k)
    ensures RangesSelectByNumber(l, k) <==> forall id: uint64 :: Live(l.trie, id) ==> Bracketed(EntityOf(l.trie, id), k)
  {
    hide LedgerInv, LeafSet, EntityMeets, NumberMeets, Bracketed, Live, EntityOf, ValidName, NumericLeaf;
    forall leaf: Leaf, id: uint64
      ensures id in LeafSet(l.trie.annot, l.trie.annot, leaf) <==>
              Live(l.trie, id) && EntityMeets(EntityOf(l.trie, id), leaf)
    {
      LeafExact(l, leaf, id);
    }
    if RangesSelectByNumber(l, k) {
      forall id: uint64 | Live(l.trie, id) ensures Bracketed(EntityOf(l.trie, id), k) {
        forall leaf: Leaf | NumericLeaf(leaf, k)
          ensures EntityMeets(EntityOf(l.trie, id), leaf) <==> NumberMeets(EntityOf(l.trie, id), leaf, k)
        {
          assert id in LeafSet(l.trie.annot, l.trie.annot, leaf) <==> NumberMeets(EntityOf(l.trie, id), leaf, k);
        }
        NumbersDecideIff(EntityOf(l.trie, id), k);
      }
    }
    if forall id: uint64 :: Live(l.trie, id) ==> Bracketed(EntityOf(l.trie, id), k) {
      forall leaf: Leaf, id: uint64 | NumericLeaf(leaf, k)
        ensures id in LeafSet(l.trie.annot, l.trie.annot, leaf) <==>
                Live(l.trie, id) && NumberMeets(EntityOf(l.trie, id), leaf, k)
      {
        if Live(l.trie, id) { NumbersDecideIff(EntityOf(l.trie, id), k); }
      }
    }
  }

  /** A string attribute of eight bytes meets numeric ranges although the entity has no numeric annotation. */
  lemma LookAlikeMeets(e: Entity, k: Str, n: uint64)
    requires ValidName(k) && e.numericAnnotations == [] && Looks(e, k, n)
    ensures EntityMeets(e, AtLeast(k, n)) && !NumbersDecide(e, k)
  {
    hide EntityMeets, Looks, ValidName, AtLeast;
    assert Shown(e, k, n);
    NumericMeets(e, AtLeast(k, n), k);
    NumbersDecideIff(e, k);
  }

  /** Text that reads as n is trimmed unless its last byte is zero. */
  lemma LookAlikeTrimmed(n: uint64)
    requires n % 256 != 0
    ensures Trimmed(NumericVal(n))
  {
    Pow256Eight();
    assert NumericVal(n) == ToBE(n / 256, 7) + [n % 256];
  }

  /**
   * One block that creates an entity with a string attribute and no number: the numeric range selects it. Attribute
   * text loses trailing NULs, so n must not be a multiple of 256.
   */
  lemma LookAlikeStored(c: CreateOp, hash: Hash32, parent: Hash32, k: Str, n: uint64)
    requires hash != parent && UserAddress(Addr(c.key)) && ValidName(k) && n % 256 != 0
    requires c.attributes == [Attribute(StringValue, k, NumericVal(n))]
    ensures var chain := OneCreate(c, hash, parent);
            var t := Replay(chain).trie;
            && ChainOk(chain) && Live(t, 1) && EntityOf(t, 1).numericAnnotations == []
            && 1 in LeafSet(t.annot, t.annot, AtLeast(k, n))
            && !RangesSelectByNumber(Replay(chain), k)
  {
    hide Replay, ChainOk, LedgerInv, Addr, OneCreate, EntityMeets, LeafSet, AtLeast, Live, EntityOf, Alone, NumericVal;
    hide TrimRightNul, StringsOf, NumericsOf, ValidName, RangesSelectByNumber, Bracketed, NumbersDecide;
    OneCreateAlone(c, hash, parent);
    var l, e := Replay(OneCreate(c, hash, parent)), Created(Sent(c), 1);
    LookAlikeTrimmed(n);
    TrimmedStays(NumericVal(n));
    OneAttribute(c.attributes[0]);
    NoNumber(c.attributes);
    assert e.stringAnnotations[0] == StringAnnot(k, NumericVal(n));
    LookAlikeMeets(e, k, n);
    AloneLive(l.trie, e, 1);
    LeafExact(l, AtLeast(k, n), 1);
    NumbersDecideIff(e, k);
    RangesSelectByNumberIff(l, k);
  }

  lemma NoNumber(attrs: seq<Attribute>)
    requires |attrs| == 1 && attrs[0].valueType.StringValue?
    ensures NumericsOf(attrs) == []
  {
    hide UintOf;
    AttributesEmpty(attrs[..0]);
  }
}
