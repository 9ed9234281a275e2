/** What each leaf of a query asks of an entity, stated on the record and on the text of the leaf. */
module Meanings {
  import opened Bytes
  import opened Entities
  import opened Ledger
  import opened Glob
  import opened Language
  import opened Normalize
  import opened Evaluate
  import opened Answers
  import opened Effects

  // ---------- Leaves ----------

  ghost predicate Carries(e: Entity, k: Str, v: Str) { Pair(k, v) in Annots(e) }

  /** The meaning of a leaf on an entity, case by case. */
  ghost predicate Asks(e: Entity, l: Leaf) {
    match l
    case Assign(k, isNot, Text(s)) => isNot != Carries(e, k, s)
    case Assign(k, isNot, Number(n)) => isNot != Carries(e, k, NumericVal(n))
    case Inclusion(k, isNot, Texts(ss)) => isNot != exists i :: 0 <= i < |ss| && Carries(e, k, ss[i])
    case Inclusion(k, isNot, Numbers(ns)) => isNot != exists i :: 0 <= i < |ns| && Carries(e, k, NumericVal(ns[i]))
    case GlobExpr(k, isNot, p) => isNot != exists v: Str :: Carries(e, k, v) && v != [] && Matches(p, v)
    case LessThan(k, Text(s)) => exists v: Str :: Carries(e, k, v) && v != [] && Less(v, s)
    case LessOrEqualThan(k, Text(s)) => exists v: Str :: Carries(e, k, v) && v != [] && (Less(v, s) || v == s)
    case GreaterThan(k, Text(s)) => exists v: Str :: Carries(e, k, v) && v != [] && Less(s, v)
    case GreaterOrEqualThan(k, Text(s)) => exists v: Str :: Carries(e, k, v) && v != [] && (Less(s, v) || v == s)
    case LessThan(k, Number(n)) => exists m: uint64 :: Carries(e, k, NumericVal(m)) && m < n
    case LessOrEqualThan(k, Number(n)) => exists m: uint64 :: Carries(e, k, NumericVal(m)) && m <= n
    case GreaterThan(k, Number(n)) => exists m: uint64 :: Carries(e, k, NumericVal(m)) && m > n
    case GreaterOrEqualThan(k, Number(n)) => exists m: uint64 :: Carries(e, k, NumericVal(m)) && m >= n
  }

  /** An entity meets a leaf exactly when it is as the leaf asks. */
  lemma LeafMeaning(e: Entity, l: Leaf)
    ensures EntityMeets(e, l) <==> Asks(e, l)
  {
    hide EntityMeets, Asks, Less, NumericVal;
    match l {
      case Assign(_, _, _) => EqualityMeaning(e, l);
      case Inclusion(_, _, _) => InclusionMeaning(e, l);
      case GlobExpr(_, _, _) => GlobMeaning(e, l);
      case _ => RangeMeaning(e, l);
    }
  }

  lemma MeetsIff(e: Entity, l: Leaf)
    ensures EntityMeets(e, l) <==> Negated(l) != exists v: Str :: Carries(e, l.key, v) && Hits(l, v)
  {
    hide Annots, Hits;
    if v: Str :| Carries(e, l.key, v) && Hits(l, v) {
      assert Pair(l.key, v).key == l.key && Hits(l, Pair(l.key, v).val);
    }
    if p :| p in Annots(e) && p.key == l.key && Hits(l, p.val) {
      assert p == Pair(l.key, p.val) && Carries(e, l.key, p.val);
    }
  }

  lemma EqualityMeaning(e: Entity, l: Leaf)
    requires l.Assign?
    ensures EntityMeets(e, l) <==> Asks(e, l)
  {
    hide EntityMeets, Carries, NumericVal;
    MeetsIff(e, l);
  }

  lemma InclusionMeaning(e: Entity, l: Leaf)
    requires l.Inclusion?
    ensures EntityMeets(e, l) <==> Asks(e, l)
  {
    hide EntityMeets, Carries, NumericVal;
    MeetsIff(e, l);
    match l.values {
      case Texts(ss) =>
        if i :| 0 <= i < |ss| && Carries(e, l.key, ss[i]) { assert Hits(l, ss[i]); }
      case Numbers(ns) =>
        if i :| 0 <= i < |ns| && Carries(e, l.key, NumericVal(ns[i])) {
          assert Candidates(l.values)[i] == NumericVal(ns[i]);
          assert Hits(l, NumericVal(ns[i]));
        }
    }
  }

  lemma GlobMeaning(e: Entity, l: Leaf)
    requires l.GlobExpr?
    ensures EntityMeets(e, l) <==> Asks(e, l)
  {
    hide EntityMeets, Carries, Matches;
    MeetsIff(e, l);
  }

  lemma RangeMeaning(e: Entity, l: Leaf)
    requires !l.Assign? && !l.Inclusion? && !l.GlobExpr?
    ensures EntityMeets(e, l) <==> Asks(e, l)
  {
    hide EntityMeets, Carries, Less, NumericVal, NumericOf;
    MeetsIff(e, l);
    match l.value {
      case Text(s) => forall v: Str ensures Hits(l, v) <==> TextInRange(l, v) { TextHits(l, v); }
      case Number(n) =>
        forall v: Str ensures Hits(l, v) <==> |v| == 8 && InRange(l, NumericOf(v)) { NumberHits(l, v); }
        forall m: uint64 ensures NumericOf(NumericVal(m)) == m { NumericOrder(m, NumericOf(NumericVal(m))); }
    }
  }

  predicate TextInRange(l: Leaf, v: Str)
    requires !l.Assign? && !l.Inclusion? && !l.GlobExpr? && l.value.Text?
  {
    v != [] &&
    match l
    case LessThan(_, x) => Less(v, x.s)
    case LessOrEqualThan(_, x) => Less(v, x.s) || v == x.s
    case GreaterThan(_, x) => Less(x.s, v)
    case GreaterOrEqualThan(_, x) => Less(x.s, v) || v == x.s
  }

  predicate InRange(l: Leaf, m: uint64)
    requires !l.Assign? && !l.Inclusion? && !l.GlobExpr? && l.value.Number?
  {
    match l
    case LessThan(_, x) => m < x.n
    case LessOrEqualThan(_, x) => m <= x.n
    case GreaterThan(_, x) => m > x.n
    case GreaterOrEqualThan(_, x) => m >= x.n
  }

  lemma TextHits(l: Leaf, v: Str)
    requires !l.Assign? && !l.Inclusion? && !l.GlobExpr? && l.value.Text?
    ensures Hits(l, v) <==> TextInRange(l, v)
  {
    hide Less;
    LessTotal(v, l.value.s);
  }

  lemma NumberHits(l: Leaf, v: Str)
    requires !l.Assign? && !l.Inclusion? && !l.GlobExpr? && l.value.Number?
    ensures Hits(l, v) <==> |v| == 8 && InRange(l, NumericOf(v))
  {
    hide NumericOf;
  }

  // ---------- Which keys are compared in lower case ----------

  lemma HexKeysAre(k: Str)
    ensures HexKey(k) <==> k == Ascii("$key") || k == Ascii("$owner") || k == Ascii("$creator")
  {
    hide Ascii;
  }

  /** Normalisation changes leaves of the three hexadecimal keys only. */
  lemma OtherLeavesStay(l: Leaf)
    requires l.key != Ascii("$key") && l.key != Ascii("$owner") && l.key != Ascii("$creator")
    ensures NormalLeaf(l) == l
  {
    hide Ascii, HexKey;
    HexKeysAre(l.key);
  }

  /** s is v, with letters in either case. */
  predicate AnyCase(s: Str, v: Str) {
    |s| == |v| && forall i :: 0 <= i < |v| ==> s[i] == v[i] || ('a' as int <= v[i] <= 'z' as int && s[i] == v[i] - 32)
  }

  lemma AnyCaseLowers(s: Str, v: Str)
    requires AnyCase(s, v) && ToLower(v) == v
    ensures ToLower(s) == v
  {
    forall i | 0 <= i < |v| ensures ToLower(s)[i] == v[i] { assert ToLower(v)[i] == v[i]; }
  }

  /** An owner, creator or key, spelled in any case, finds exactly the entities of that address or key. */
  lemma SpelledQueries(e: Entity, bytes: Str, v: Str, s: Str)
    requires ValidEntity(e) && Spells(v, bytes) && AnyCase(s, v)
    ensures |bytes| == 20 ==>
              (Asks(e, NormalLeaf(Assign(Ascii("$owner"), false, Text(s)))) <==> e.owner == bytes)
    ensures |bytes| == 20 ==>
              (Asks(e, NormalLeaf(Assign(Ascii("$creator"), false, Text(s)))) <==> e.creator == bytes)
    ensures |bytes| == 32 ==>
              (Asks(e, NormalLeaf(Assign(Ascii("$key"), false, Text(s)))) <==> e.key == bytes)
  {
    hide ValidEntity, Spells, AnyCase, ToLower, LowerHex, Asks, NormalLeaf, Ascii, EntityMeets;
    SpellsIff(v, bytes);
    LowerHexIsLower(bytes);
    AnyCaseLowers(s, v);
    DistinctHexKeys();
    forall k | HexKey(k) && |bytes| == |HexOf(e, k)|
      ensures Asks(e, NormalLeaf(Assign(k, false, Text(s)))) <==> HexOf(e, k) == bytes
    {
      HexQuery(e, k, bytes, s);
      LeafMeaning(e, NormalLeaf(Assign(k, false, Text(s))));
    }
    assert HexKey(Ascii("$owner")) && HexKey(Ascii("$creator")) && HexKey(Ascii("$key"));
  }

  /** Numbers listed for a hexadecimal key find nothing. */
  lemma HexNumbersFindNothing(e: Entity, k: Str, isNot: bool, ns: seq<uint64>)
    requires k == Ascii("$key") || k == Ascii("$owner") || k == Ascii("$creator")
    ensures Asks(e, NormalLeaf(Inclusion(k, isNot, Numbers(ns)))) <==> isNot
  {
    hide Ascii, HexKey;
    HexKeysAre(k);
  }

  lemma DistinctHexKeys()
    ensures OWNER_KEY != CREATOR_KEY && OWNER_KEY != ENTITY_KEY_KEY && CREATOR_KEY != ENTITY_KEY_KEY
  {
    KeyBytes();
  }

  // ---------- What equality queries find at the head ----------

  /** The entities whose user attribute is the text, or a number that is stored as these bytes. */
  lemma TextEqualityFinds(l: Ledger, k: Str, s: Str, id: uint64)
    requires LedgerInv(l) && ValidName(k)
    ensures id in LeafSet(l.trie.annot, l.trie.annot, NormalLeaf(Assign(k, false, Text(s)))) <==>
            && Live(l.trie, id)
            && var e := EntityOf(l.trie, id);
               || StringAnnot(k, s) in e.stringAnnotations
               || exists n: uint64 :: NumericAnnot(k, n) in e.numericAnnotations && s == NumericVal(n)
  {
    hide LedgerInv, LeafSet, EntityMeets, NormalLeaf, Annots, ValidEntity, NumericVal, Live, EntityOf, ValidName;
    var leaf := Assign(k, false, Text(s));
    UserKeyStays(leaf);
    LeafExact(l, leaf, id);
    if Live(l.trie, id) {
      LeafMeaning(EntityOf(l.trie, id), leaf);
      UserCarried(EntityOf(l.trie, id), Pair(k, s));
    }
  }

  lemma UserKeyStays(l: Leaf)
    requires ValidName(l.key)
    ensures NormalLeaf(l) == l
  {
    hide NormalLeaf;
    BuiltinKeys();
    KeyBytes();
    OtherLeavesStay(l);
  }

  /** The entities with this content type, read off the record. */
  lemma ContentTypeFinds(l: Ledger, s: Str, id: uint64)
    requires LedgerInv(l)
    ensures id in LeafSet(l.trie.annot, l.trie.annot, NormalLeaf(Assign(Ascii("$contentType"), false, Text(s)))) <==>
            Live(l.trie, id) && EntityOf(l.trie, id).contentType == s
  {
    hide LedgerInv, LeafSet, EntityMeets, NormalLeaf, Annots, ValidEntity, Live, EntityOf, Ascii;
    var leaf := Assign(Ascii("$contentType"), false, Text(s));
    ContentTypeStays(leaf);
    LeafExact(l, leaf, id);
    LiveIs(l, id);
    if Live(l.trie, id) {
      var e := EntityOf(l.trie, id);
      LeafMeaning(e, leaf);
      BuiltinCarried(e, 7, Pair(leaf.key, s));
      EachBuiltin(e);
    }
  }

  lemma ContentTypeStays(l: Leaf)
    requires l.key == Ascii("$contentType")
    ensures NormalLeaf(l) == l
  {
    hide NormalLeaf;
    KeyBytes();
    OtherLeavesStay(l);
  }
}
