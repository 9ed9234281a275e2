/** Which leaves answer a query at an earlier block with that block's entities. */
module History {
  import opened Bytes
  import opened Entities
  import opened Ledger
  import opened Chain
  import opened Machine
  import opened Reads
  import opened Glob
  import opened Language
  import opened Normalize
  import opened Evaluate
  import opened Answers
  import opened Negation

  /** Asked at block n, the leaf selects what it would select if block n were the head. */
  ghost predicate ExactOn(chain: seq<Block>, n: uint64, l: Leaf) {
    Selected(chain, n, l) == LeafSet(HistAnnot(chain, n), HistAnnot(chain, n), l)
  }

  ghost predicate ExactOnChains(l: Leaf) {
    forall chain: seq<Block>, n: uint64 :: ChainOk(chain) && KnownBlock(chain, n) ==> ExactOn(chain, n, l)
  }

  ghost predicate HitsEntity(e: Entity, l: Leaf) {
    exists p :: p in Annots(e) && p.key == l.key && Hits(l, p.val)
  }

  lemma LedgerAtInv(chain: seq<Block>, n: uint64)
    requires ChainOk(chain) && KnownBlock(chain, n)
    ensures LedgerInv(LedgerAt(chain, n)) && HistAnnot(chain, n) == LedgerAt(chain, n).trie.annot
  {
    hide LedgerInv, ChainOk, Replay;
    ChainPrefix(chain, if n == 0 then |chain| else n);
    assert chain[..|chain|] == chain;
    ReplayInv(if n == 0 then chain else chain[..n]);
  }

  // ---------- Whole queries ----------

  /** A leaf and its inversion, as normalised, answer every earlier block exactly. */
  ghost predicate ExactBothWays(l: Leaf) {
    ExactOnChains(NormalLeaf(l)) && ExactOnChains(NormalLeaf(InvertLeaf(l)))
  }

  /** A query made of such leaves, asked at an earlier block, gives exactly the entities that satisfied it there. */
  lemma HistoricalQueryExact(chain: seq<Block>, n: uint64, e: Expression, id: uint64)
    requires ChainOk(chain) && KnownBlock(chain, n) && EachLeaf(e, (x: Leaf) => ExactBothWays(x))
    ensures var t := LedgerAt(chain, n).trie;
            id in AstSet(HistAnnot(chain, n), AnnotAt(chain, 0), Normal(Query(e))) <==>
            Live(t, id) && Satisfies(EntityOf(t, id), Query(e))
  {
    hide LedgerInv, Satisfies, LeafSet, SatDnf, ExprDnf, OrSet, Means, NonEmpty, EachLeaf, Agree, ExactBothWays;
    hide ChainOk, LedgerAt, HistAnnot, AnnotAt;
    var annot, head, d := HistAnnot(chain, n), AnnotAt(chain, 0), ExprDnf(e);
    var there := (x: Leaf) => id in LeafSet(annot, head, x);
    var here := (x: Leaf) => id in LeafSet(annot, annot, x);
    LedgerAtInv(chain, n);
    forall x: Leaf | ExactBothWays(x) ensures Agree(there, here, x) { ExactAgrees(chain, n, x, id); }
    LeavesImply(e, (x: Leaf) => ExactBothWays(x), (x: Leaf) => Agree(there, here, x));
    MeansAgree(e, false, there, here);
    ExprNonEmpty(e);
    OrSetIff(annot, head, d, id);
    OrSetIff(annot, annot, d, id);
    MeaningPreserved(e, there);
    MeaningPreserved(e, here);
    QueryExact(LedgerAt(chain, n), Query(e), id);
  }

  lemma ExactAgrees(chain: seq<Block>, n: uint64, l: Leaf, id: uint64)
    requires ChainOk(chain) && KnownBlock(chain, n) && ExactBothWays(l)
    ensures Agree((x: Leaf) => id in LeafSet(HistAnnot(chain, n), AnnotAt(chain, 0), x),
                  (x: Leaf) => id in LeafSet(HistAnnot(chain, n), HistAnnot(chain, n), x), l)
  {
    hide ChainOk, LeafSet, NormalLeaf, HistAnnot, AnnotAt;
    assert ExactOn(chain, n, NormalLeaf(l)) && ExactOn(chain, n, NormalLeaf(InvertLeaf(l)));
  }

  // ---------- What entities of a chain carry ----------

  /** Block numbers start at one, and so do the creation blocks of entities. */
  ghost predicate BornLater(t: Trie) {
    forall a :: a in t.code ==> t.code[a].createdAtBlock >= 1
  }

  lemma OpBorn(l: Ledger, n: uint64, op: Op)
    requires n >= 1 && BornLater(l.trie) && ApplyOp(l, n, op).Ok?
    ensures BornLater(ApplyOp(l, n, op).value.trie)
  {
    hide Annots, AddTo, RemoveFrom, MoveBucket, Addr, IdOf, StringsOf, NumericsOf;
  }

  lemma {:induction false} OpsBorn(l: Ledger, n: uint64, ops: seq<Op>)
    requires n >= 1 && BornLater(l.trie) && ApplyOps(l, n, ops).Ok?
    ensures BornLater(ApplyOps(l, n, ops).value.trie)
  {
    hide ApplyOp, BornLater;
    if ops != [] {
      OpsBorn(l, n, ops[..|ops| - 1]);
      OpBorn(ApplyOps(l, n, ops[..|ops| - 1]).value, n, ops[|ops| - 1]);
    }
  }

  lemma {:induction false} ChainBorn(chain: seq<Block>)
    requires ChainOk(chain)
    ensures BornLater(Replay(chain).trie)
  {
    hide ApplyOps, OpsValid;
    if chain != [] {
      var init, b := chain[..|chain| - 1], chain[|chain| - 1];
      ChainBorn(init);
      OpsBorn(Start(Replay(init)), b.number, BlockOps(b.txs));
    }
  }

  /**
   * The values that entities on chains carry under the keys a range or glob may name: any eight bytes as an expiration,
   * a positive number as a creation block, and under a user key a number or text that does not end in NUL.
   */
  predicate Storable(k: Str, v: Str) {
    if k == EXPIRATION_KEY then |v| == 8
    else if k == CREATED_AT_KEY then |v| == 8 && NumericOf(v) >= 1
    else ValidName(k) && (|v| == 8 || Trimmed(v))
  }

  /** The keys that the grammar allows: identifiers anywhere, and two built-in keys in ranges. */
  predicate Askable(l: Leaf) {
    !ReadAtBlock(l) && (ValidName(l.key) || (IsRange(l) && SingleKey(l.key)))
  }

  lemma BuiltinsAreNot(k: Str)
    requires ValidName(k)
    ensures k != EXPIRATION_KEY && k != CREATED_AT_KEY
  {
    BuiltinKeys();
    KeyBytes();
  }

  lemma CarriedStorable(e: Entity, k: Str, v: Str)
    requires ValidEntity(e) && e.createdAtBlock >= 1 && (ValidName(k) || SingleKey(k)) && Pair(k, v) in Annots(e)
    ensures Storable(k, v)
  {
    hide Annots, NumericVal, NumericOf, ValidName, Trimmed;
    if SingleKey(k) {
      SingleCarried(e, k, Pair(k, v));
      SingleKeysDiffer();
      NumericRoundTrip(SingleValue(e, k));
    } else {
      UserCarried(e, Pair(k, v));
      if StringAnnot(k, v) in e.stringAnnotations {
        var i :| 0 <= i < |e.stringAnnotations| && e.stringAnnotations[i] == StringAnnot(k, v);
      }
    }
  }

  lemma SingleKeysDiffer()
    ensures EXPIRATION_KEY != CREATED_AT_KEY
  {
    KeyBytes();
  }

  lemma NumericRoundTrip(m: uint64)
    ensures NumericOf(NumericVal(m)) == m
  {
    NumericOrder(m, NumericOf(NumericVal(m)));
  }

  /** Where no storable value is hit, a leaf selects nothing at any block of any chain. */
  lemma NothingHit(chain: seq<Block>, n: uint64, l: Leaf)
    requires ChainOk(chain) && KnownBlock(chain, n) && Askable(l)
    requires forall v :: Storable(l.key, v) ==> !Hits(l, v)
    ensures HitSet(HistAnnot(chain, n), l) == {}
  {
    hide ChainOk, Replay, LedgerInv, HitSet, Hits, Annots, ValidEntity, ValidName, Storable, SingleKey, Live;
    LedgerAtInv(chain, n);
    BornAt(chain, n);
    var g := LedgerAt(chain, n);
    forall id: uint64 ensures id !in HitSet(g.trie.annot, l) {
      HitsCarried(g, l, id);
      LiveIs(g, id);
      if id in HitSet(g.trie.annot, l) {
        var e := EntityOf(g.trie, id);
        var p :| p in Annots(e) && p.key == l.key && Hits(l, p.val);
        assert p == Pair(l.key, p.val);
        LiveBorn(g.trie, id);
        CarriedStorable(e, l.key, p.val);
      }
    }
  }

  lemma BornAt(chain: seq<Block>, n: uint64)
    requires ChainOk(chain) && KnownBlock(chain, n)
    ensures BornLater(LedgerAt(chain, n).trie)
  {
    hide ChainOk, Replay, BornLater;
    ChainPrefix(chain, if n == 0 then |chain| else n);
    ChainBorn(if n == 0 then chain else chain[..n]);
  }

  lemma LiveBorn(t: Trie, id: uint64)
    requires BornLater(t) && Live(t, id)
    ensures EntityOf(t, id).createdAtBlock >= 1
  {
  }

  // ---------- Chains that store a given value ----------

  /** Distinct block hashes, one for each number. */
  function SampleHash(i: uint64): Hash32 { NumericVal(i) + seq(24, _ => 0) }

  lemma SampleHashes(i: uint64, j: uint64)
    requires i != j
    ensures SampleHash(i) != SampleHash(j)
  {
    hide NumericVal;
    assert SampleHash(i)[..8] == NumericVal(i) && SampleHash(j)[..8] == NumericVal(j);
    NumericOrder(i, j);
  }

  function EmptyBlocks(k: uint64): seq<Block> {
    if k == 0 then [] else EmptyBlocks(k - 1) + [Block(k, SampleHash(k), SampleHash(k - 1), [])]
  }

  /** Block i of the chain has sample hash i, and the first has parent zero. */
  ghost predicate Sampled(chain: seq<Block>) {
    && |chain| < TWO64
    && (forall i :: 0 <= i < |chain| ==> chain[i].hash == SampleHash(i + 1))
    && (chain != [] ==> chain[0].parentHash == SampleHash(0))
  }

  lemma SampledFollows(chain: seq<Block>)
    requires Sampled(chain) && |chain| + 1 < TWO64
    ensures Follows(chain, SampleHash(|chain| + 1), SampleHash(|chain|))
  {
    hide SampleHash;
    var n := |chain| + 1;
    forall i: uint64 | i < n ensures SampleHash(i) != SampleHash(n) { SampleHashes(i, n); }
  }

  lemma SampledNone()
    ensures Sampled([])
  {
  }

  lemma SampledNext(chain: seq<Block>, b: Block)
    requires Sampled(chain) && |chain| + 1 < TWO64
    requires b.hash == SampleHash(|chain| + 1) && b.parentHash == SampleHash(|chain|)
    ensures Sampled(chain + [b])
  {
    hide SampleHash;
  }

  lemma {:induction false} EmptyBlocksOk(k: uint64)
    ensures |EmptyBlocks(k)| == k && Sampled(EmptyBlocks(k))
    ensures ChainOk(EmptyBlocks(k)) && Untouched(EmptyBlocks(k))
  {
    hide ChainOk, Untouched, SampleHash, Sampled, Follows;
    if k == 0 {
      EmptyChain();
      SampledNone();
    } else {
      EmptyBlocksOk(k - 1);
      SampledFollows(EmptyBlocks(k - 1));
      SampledNext(EmptyBlocks(k - 1), Block(k, SampleHash(k), SampleHash(k - 1), []));
      EmptyNext(EmptyBlocks(k - 1), SampleHash(k), SampleHash(k - 1));
    }
  }

  /** Empty blocks, then an entity created in block b. */
  function CreatedAt(b: uint64, c: CreateOp): seq<Block>
    requires b >= 1
  {
    EmptyBlocks(b - 1) + [OneOpBlock(b, SampleHash(b), SampleHash(b - 1), Create(c))]
  }

  /** The same, and the entity deleted in the next block. */
  function DeletedAfter(b: uint64, c: CreateOp): seq<Block>
    requires 1 <= b < MAX_UINT64
  {
    CreatedAt(b, c) + [OneOpBlock(b + 1, SampleHash(b + 1), SampleHash(b), Delete(c.key))]
  }

  predicate Makeable(c: CreateOp) { UserAddress(Addr(c.key)) && ValidAttributes(c.attributes) }

  lemma CreatedAtOk(b: uint64, c: CreateOp)
    requires b >= 1 && Makeable(c)
    ensures var chain := CreatedAt(b, c);
            && ChainOk(chain) && |chain| == b && Sampled(chain) && chain[..b - 1] == EmptyBlocks(b - 1)
            && Replay(chain).trie.ids == map[1 := Addr(c.key)]
            && Replay(chain).trie.code == map[Addr(c.key) := Created(Sent(c), b)]
  {
    hide ChainOk, Untouched, SampleHash, EmptyBlocks, Created, Addr, ValidAttributes, Replay;
    EmptyBlocksOk(b - 1);
    SampledFollows(EmptyBlocks(b - 1));
    FirstCreate(EmptyBlocks(b - 1), c, SampleHash(b), SampleHash(b - 1));
  }

  lemma DeletedAfterOk(b: uint64, c: CreateOp)
    requires 1 <= b < MAX_UINT64 && Makeable(c)
    ensures var chain := DeletedAfter(b, c);
            ChainOk(chain) && |chain| == b + 1 && chain[..b] == CreatedAt(b, c) && Replay(chain).trie.ids == map[]
  {
    hide ChainOk, SampleHash, CreatedAt, Created, Addr, ValidAttributes, Replay;
    CreatedAtOk(b, c);
    SampledFollows(CreatedAt(b, c));
    FirstDelete(CreatedAt(b, c), c.key, SampleHash(b + 1), SampleHash(b));
  }

  /** A leaf's hits where one entity lives and where none does. */
  lemma HitsAlone(l: Ledger, e: Entity, leaf: Leaf)
    requires LedgerInv(l) && Alone(l.trie, e)
    ensures 1 in HitSet(l.trie.annot, leaf) <==> HitsEntity(e, leaf)
    ensures 1 in Bits(l.trie.annot, ALL_PAIR)
  {
    hide LedgerInv, HitSet, Hits, Annots, Alone;
    AloneLive(l.trie, e, 1);
    HitsCarried(l, leaf, 1);
    LiveIs(l, 1);
  }

  lemma HitsNone(l: Ledger, leaf: Leaf)
    requires LedgerInv(l) && l.trie.ids == map[]
    ensures HitSet(l.trie.annot, leaf) == {} && Bits(l.trie.annot, ALL_PAIR) == {}
  {
    hide LedgerInv, HitSet, Hits, Annots;
    forall id: uint64 ensures id !in HitSet(l.trie.annot, leaf) && id !in Bits(l.trie.annot, ALL_PAIR) {
      HitsCarried(l, leaf, id);
      LiveIs(l, id);
    }
  }

  // ---------- Chains on which a scanned leaf is wrong ----------

  /**
   * Create in block b, delete in the next, ask at block b: a range or glob that the entity hits misses it, and a
   * negated glob selects it although it does not meet it.
   */
  lemma HistoricalDeletedWrong(b: uint64, c: CreateOp, l: Leaf)
    requires 1 <= b < MAX_UINT64 && Makeable(c) && !ReadAtBlock(l) && HitsEntity(Created(Sent(c), b), l)
    ensures var chain := DeletedAfter(b, c);
            && ChainOk(chain) && KnownBlock(chain, b) && !ExactOn(chain, b, l)
            && (1 in Selected(chain, b, l) <==> Negated(l))
            && (1 in LeafSet(HistAnnot(chain, b), HistAnnot(chain, b), l) <==> !Negated(l))
  {
    hide ChainOk, LedgerInv, HitSet, HitsEntity, Created, DeletedAfter, CreatedAt, Replay, Makeable;
    var chain := DeletedAfter(b, c);
    DeletedAfterOk(b, c);
    CreatedAtOk(b, c);
    LedgerAtInv(chain, b);
    LedgerAtInv(chain, 0);
    HitsAlone(LedgerAt(chain, b), Created(Sent(c), b), l);
    HitsNone(LedgerAt(chain, 0), l);
  }

  /** Create in block b, ask at the block before: a range or glob that the entity hits selects it. */
  lemma HistoricalScanWrong(b: uint64, c: CreateOp, l: Leaf)
    requires b >= 2 && Makeable(c) && !ReadAtBlock(l) && !Negated(l) && HitsEntity(Created(Sent(c), b), l)
    ensures var chain := CreatedAt(b, c);
            && ChainOk(chain) && KnownBlock(chain, b - 1) && !ExactOn(chain, b - 1, l)
            && 1 in Selected(chain, b - 1, l) && Bits(HistAnnot(chain, b - 1), ALL_PAIR) == {}
  {
    hide ChainOk, LedgerInv, HitSet, HitsEntity, Created, CreatedAt, Replay, Makeable;
    var chain := CreatedAt(b, c);
    CreatedAtOk(b, c);
    EmptyBlocksOk(b - 1);
    LedgerAtInv(chain, b - 1);
    LedgerAtInv(chain, 0);
    HitsAlone(LedgerAt(chain, 0), Created(Sent(c), b), l);
    HitsNone(LedgerAt(chain, b - 1), l);
  }

  /** For instance `$expiration >= 0`, whatever is created, asked at the empty first block. */
  lemma HistoricalExpirationWrong(c: CreateOp) returns (l: Leaf)
    requires Makeable(c)
    ensures l.key == EXPIRATION_KEY && l.GreaterOrEqualThan? && l.value == Number(0)
    ensures var chain := CreatedAt(2, c);
            ChainOk(chain) && KnownBlock(chain, 1) && 1 in Selected(chain, 1, l) &&
              Bits(HistAnnot(chain, 1), ALL_PAIR) == {}
  {
    hide Replay, ChainOk, Addr, CreatedAt, Annots, HitSet, NumericVal, NumericOf, Selected, ExactOn;
    var e := Created(Sent(c), 2);
    CreatedIsValid(Sent(c), 2);
    var p := Pair(EXPIRATION_KEY, NumericVal(e.expiresAt));
    SingleCarried(e, EXPIRATION_KEY, p);
    l := GreaterOrEqualThan(EXPIRATION_KEY, Number(0));
    assert p in Annots(e) && p.key == l.key && Hits(l, p.val);
    HistoricalScanWrong(2, c, l);
  }

  // ---------- Every storable value is stored on some chain ----------

  function SampleKey(): Hash32 { seq(32, _ => 1) }

  function SampleCreate(expiresAt: uint64, attributes: seq<Attribute>): CreateOp {
    CreateOp(SampleKey(), ZERO_ADDRESS, expiresAt, [], [], attributes, 0, ZERO_ADDRESS, 0)
  }

  lemma SampleMakeable(expiresAt: uint64, attributes: seq<Attribute>)
    requires ValidAttributes(attributes)
    ensures Makeable(SampleCreate(expiresAt, attributes))
  {
    hide ValidAttributes;
    var a := Addr(SampleKey());
    assert a[0] == 1 && ZERO_ADDRESS[0] == 0 && SYSTEM_ADDRESS[0] == 172;
  }

  /** The attribute that stores a user value: text if it is trimmed, a number otherwise. */
  function ValueAttribute(k: Str, v: Str): Attribute {
    if Trimmed(v) then Attribute(StringValue, k, v) else Attribute(UintValue, k, v)
  }

  lemma UserStored(k: Str, v: Str, b: uint64)
    requires ValidName(k) && (|v| == 8 || Trimmed(v))
    ensures ValidAttributes([ValueAttribute(k, v)])
    ensures Pair(k, v) in Annots(Created(Sent(SampleCreate(0, [ValueAttribute(k, v)])), b))
  {
    hide Annots, NumericVal, NumericOf, UintOf, TrimRightNul, ValidName, StringsOf, NumericsOf, SampleKey;
    var a := ValueAttribute(k, v);
    var e := Created(Sent(SampleCreate(0, [a])), b);
    OneAttribute(a);
    UserCarried(e, Pair(k, v));
    if Trimmed(v) {
      TrimmedStays(v);
      assert e.stringAnnotations[0] == StringAnnot(k, v);
    } else {
      EightBytes(v);
      assert e.numericAnnotations[0] == NumericAnnot(k, UintOf(v));
    }
  }

  /** The block and the create that store a value under a key. */
  function StoringBlock(k: Str, v: Str): (b: uint64)
    requires Storable(k, v)
    ensures b >= 1
  {
    if k == CREATED_AT_KEY && k != EXPIRATION_KEY then NumericOf(v) else 1
  }

  function StoringCreate(k: Str, v: Str): CreateOp
    requires Storable(k, v)
  {
    if k == EXPIRATION_KEY then SampleCreate(NumericOf(v), [])
    else if k == CREATED_AT_KEY then SampleCreate(0, [])
    else SampleCreate(0, [ValueAttribute(k, v)])
  }

  lemma StorableStored(k: Str, v: Str)
    requires Storable(k, v)
    ensures Makeable(StoringCreate(k, v))
    ensures Pair(k, v) in Annots(Created(Sent(StoringCreate(k, v)), StoringBlock(k, v)))
  {
    hide Annots, NumericVal, NumericOf, ValidName, Makeable, ValueAttribute;
    var c, b := StoringCreate(k, v), StoringBlock(k, v);
    var e := Created(Sent(c), b);
    SingleKeysDiffer();
    if SingleKey(k) {
      NothingToCheck();
      SampleMakeable(c.expiresAt, []);
      CreatedIsValid(Sent(c), b);
      SingleCarried(e, k, Pair(k, v));
    } else {
      UserStored(k, v, b);
      SampleMakeable(0, [ValueAttribute(k, v)]);
    }
  }

  lemma NothingToCheck()
    ensures ValidAttributes([])
  {
  }

  /** A leaf that hits a storable value is wrong on some chain. */
  lemma StoredWrong(l: Leaf, v: Str)
    requires Askable(l) && Storable(l.key, v) && Hits(l, v)
    ensures !ExactOnChains(l)
  {
    hide Storable, Hits, Annots, Created, ChainOk, CreatedAt, DeletedAfter, ExactOn, Makeable, StoringCreate,
         StoringBlock,
         ValidName;
    var c, b := StoringCreate(l.key, v), StoringBlock(l.key, v);
    StorableStored(l.key, v);
    var p := Pair(l.key, v);
    assert p in Annots(Created(Sent(c), b)) && p.key == l.key && Hits(l, p.val);
    assert HitsEntity(Created(Sent(c), b), l);
    if b < MAX_UINT64 {
      HistoricalDeletedWrong(b, c, l);
    } else {
      OnlyRangesReach(l, v);
      HistoricalScanWrong(b, c, l);
    }
  }

  lemma OnlyRangesReach(l: Leaf, v: Str)
    requires Askable(l) && Storable(l.key, v) && StoringBlock(l.key, v) == MAX_UINT64
    ensures !Negated(l)
  {
    hide ValidName, NumericOf;
    if ValidName(l.key) { BuiltinsAreNot(l.key); }
  }

  /**
   * A negated glob, asked at the block of a create after the entity was deleted: it selects the entity although it
   * carries the very text that the glob excludes.
   */
  lemma HistoricalNotGlobWrong(k: Str, v: Str) returns (chain: seq<Block>)
    requires ValidName(k) && Trimmed(v) && v != []
    ensures ChainOk(chain) && KnownBlock(chain, 1)
    ensures 1 in Bits(HistAnnot(chain, 1), Pair(k, v)) && 1 in Selected(chain, 1, GlobExpr(k, true, v))
    ensures 1 !in LeafSet(HistAnnot(chain, 1), HistAnnot(chain, 1), GlobExpr(k, true, v))
  {
    hide Annots, Created, ChainOk, DeletedAfter, CreatedAt, HitSet, Makeable, ValidName, Matches, ExactOn, LedgerInv,
         Replay;
    var c := SampleCreate(0, [ValueAttribute(k, v)]);
    var e, l, p := Created(Sent(c), 1), GlobExpr(k, true, v), Pair(k, v);
    UserStored(k, v, 1);
    SampleMakeable(0, [ValueAttribute(k, v)]);
    SelfMatch(v);
    assert p in Annots(e) && p.key == l.key && Hits(l, p.val);
    chain := DeletedAfter(1, c);
    HistoricalDeletedWrong(1, c, l);
    DeletedAfterOk(1, c);
    CreatedAtOk(1, c);
    LedgerAtInv(chain, 1);
    AloneCarries(LedgerAt(chain, 1), e, p);
  }

  lemma AloneCarries(l: Ledger, e: Entity, p: Pair)
    requires LedgerInv(l) && Alone(l.trie, e) && p in Annots(e)
    ensures 1 in Bits(l.trie.annot, p)
  {
    hide Annots, IdsInv, EntitiesInv;
    assert Carries(l.trie, p, 1);
  }

  // ---------- The condition on the text of the leaf ----------

  /** The least and the greatest storable value, as far as a range over the key with this bound can tell. */
  function Extreme(l: Leaf): Str
    requires IsRange(l)
  {
    if l.LessThan? || l.LessOrEqualThan? then NumericVal(if l.key == CREATED_AT_KEY then 1 else 0)
    else if l.value.Number? || SingleKey(l.key) then NumericVal(MAX_UINT64)
    else l.value.s + [1]
  }

  /** How many bytes of the pattern stand for one byte each. */
  function Literals(p: Str): nat {
    if p == [] then 0 else (if p[0] == STAR then 0 else 1) + Literals(p[1..])
  }

  /** Some string of eight bytes matches the pattern. */
  predicate FitsEight(p: Str) { Literals(p) == 8 || (Literals(p) < 8 && STAR in p) }

  /** A leaf that some storable value meets. */
  predicate Satisfiable(l: Leaf)
    requires !ReadAtBlock(l)
  {
    match l
    case GlobExpr(_, _, p) => p != [] && (p[|p| - 1] != 0 || FitsEight(p))
    case LessThan(_, x) => Below(Extreme(l), x)
    case LessOrEqualThan(_, x) => Below(Extreme(l), x) || Equals(Extreme(l), x)
    case GreaterThan(_, x) => NotBelow(Extreme(l), x) && !Equals(Extreme(l), x)
    case GreaterOrEqualThan(_, x) => NotBelow(Extreme(l), x)
  }

  // Globs

  lemma {:induction false} SelfMatch(pattern: Str)
    ensures Matches(pattern, pattern)
  {
    if pattern == [] {
      MatchesNothing([]);
    } else {
      SelfMatch(pattern[1..]);
      assert pattern[..1] == [pattern[0]];
      MatchFrom(pattern, pattern, 1);
    }
  }

  /** The pattern with its first star replaced by that many bytes and the other stars dropped. */
  function Fit(p: Str, pad: nat): (s: Str)
    ensures |s| == Literals(p) + if STAR in p then pad else 0
  {
    if p == [] then []
    else if p[0] == STAR then seq(pad, _ => STAR) + Fit(p[1..], 0)
    else [p[0]] + Fit(p[1..], pad)
  }

  lemma {:induction false} FitMatches(p: Str, pad: nat)
    ensures Matches(p, Fit(p, pad))
  {
    if p == [] {
      MatchesNothing([]);
    } else {
      var k := if p[0] == STAR then pad else 1;
      var s := Fit(p, pad);
      var rest := if p[0] == STAR then 0 else pad;
      FitMatches(p[1..], rest);
      assert s[k..] == Fit(p[1..], rest);
      assert SegmentOk(p[0], s[..k]);
      MatchFrom(p, s, k);
    }
  }

  lemma {:induction false} MatchLength(p: Str, s: Str)
    requires Matches(p, s)
    ensures |s| >= Literals(p) && (STAR !in p ==> |s| == Literals(p))
  {
    hide Matches;
    if p == [] {
      MatchesNothing(s);
    } else {
      var k := MatchSplit(p, s);
      MatchLength(p[1..], s[k..]);
    }
  }

  /** A match ends in the pattern's last byte, unless that is a wildcard. */
  lemma {:induction false} MatchLast(p: Str, s: Str)
    requires p != [] && p[|p| - 1] != STAR && p[|p| - 1] != QUESTION && Matches(p, s)
    ensures s != [] && s[|s| - 1] == p[|p| - 1]
  {
    hide Matches;
    var k := MatchSplit(p, s);
    if |p| == 1 {
      assert p[1..] == [];
      MatchesNothing(s[k..]);
      assert s == s[..k];
    } else {
      MatchLast(p[1..], s[k..]);
    }
  }

  lemma GlobSatisfiable(l: Leaf, v: Str)
    requires l.GlobExpr? && ValidName(l.key) && Storable(l.key, v) && Hits(l, v)
    ensures Satisfiable(l)
  {
    hide Matches, ValidName;
    var p := l.pattern;
    if p == [] { MatchesNothing(v); }
    if p != [] && p[|p| - 1] == 0 {
      BuiltinsAreNot(l.key);
      MatchLast(p, v);
      MatchLength(p, v);
    }
  }

  lemma GlobHitsStorable(l: Leaf) returns (v: Str)
    requires l.GlobExpr? && ValidName(l.key) && Satisfiable(l)
    ensures Storable(l.key, v) && Hits(l, v)
  {
    hide Matches, ValidName;
    BuiltinsAreNot(l.key);
    var p := l.pattern;
    if p[|p| - 1] != 0 {
      v := p;
      SelfMatch(p);
    } else {
      v := Fit(p, 8 - Literals(p));
      FitMatches(p, 8 - Literals(p));
    }
  }

  // Ranges

  lemma ZeroText(n: nat)
    ensures FromBE(seq(n, _ => 0)) == 0
    decreases n
  {
    if n > 0 {
      var s: Str := seq(n, _ => 0);
      assert s[..n - 1] == seq(n - 1, _ => 0);
      ZeroText(n - 1);
    }
  }

  lemma {:induction false} ZerosBelow(n: nat, v: Str)
    requires v != [] && v[|v| - 1] != 0
    ensures LessEq(seq(n, _ => 0), v)
  {
    var z: Str := seq(n, _ => 0);
    if n > 0 && v[0] == 0 {
      assert z[1..] == seq(n - 1, _ => 0);
      ZerosBelow(n - 1, v[1..]);
      assert z == [0] + z[1..] && v == [0] + v[1..];
    }
  }

  lemma NumericEnds(v: Str)
    requires |v| == 8
    ensures LessEq(NumericVal(0), v) && LessEq(v, NumericVal(MAX_UINT64))
    ensures NumericOf(v) >= 1 ==> LessEq(NumericVal(1), v)
  {
    hide NumericVal, NumericOf, Less;
    NumericOrder(0, NumericOf(v));
    NumericOrder(1, NumericOf(v));
    NumericOrder(NumericOf(v), MAX_UINT64);
  }

  /** Eight NULs are the least text that a user key can hold, apart from the empty one. */
  lemma LeastStorable(v: Str)
    requires v != [] && (|v| == 8 || Trimmed(v))
    ensures LessEq(NumericVal(0), v)
  {
    hide NumericVal, NumericOf, Less, FromBE;
    if |v| == 8 {
      NumericEnds(v);
    } else {
      var z: Str := seq(8, _ => 0);
      ZeroText(8);
      FromBEInjective(NumericVal(0), z);
      ZerosBelow(8, v);
    }
  }

  lemma NextText(s: Str)
    ensures Less(s, s + [1])
  {
    LessSamePrefix(s, [], [1]);
    assert s + [] == s;
  }

  /** The extreme value is storable, and no storable value is beyond it. */
  lemma ExtremeStorable(l: Leaf)
    requires IsRange(l) && Askable(l)
    ensures Storable(l.key, Extreme(l))
  {
    hide NumericVal, ValidName, NumericOf;
    NumericRoundTrip(1);
    NumericRoundTrip(MAX_UINT64);
    if ValidName(l.key) { BuiltinsAreNot(l.key); }
  }

  lemma ExtremeBounds(l: Leaf, v: Str)
    requires IsRange(l) && Askable(l) && Storable(l.key, v) && v != []
    ensures l.LessThan? || l.LessOrEqualThan? ==> LessEq(Extreme(l), v)
    ensures (l.GreaterThan? || l.GreaterOrEqualThan?) && SingleKey(l.key) ==> LessEq(v, Extreme(l))
  {
    hide NumericVal, NumericOf, Less, ValidName, Trimmed;
    if SingleKey(l.key) {
      NumericEnds(v);
    } else {
      BuiltinsAreNot(l.key);
      LeastStorable(v);
    }
  }

  lemma RangeSatisfiable(l: Leaf, v: Str)
    requires IsRange(l) && Askable(l) && Storable(l.key, v) && Hits(l, v)
    ensures Satisfiable(l)
  {
    hide NumericVal, NumericOf, Less, ValidName, Storable, SingleKey, HexKey;
    RangeSplits(l, v);
    ExtremeBounds(l, v);
    if l.value.Text? {
      TextExtreme(l, v);
    } else {
      NumberExtreme(l, v);
    }
  }

  lemma NumberExtreme(l: Leaf, v: Str)
    requires IsRange(l) && Askable(l) && Storable(l.key, v) && Hits(l, v) && l.value.Number?
    ensures Satisfiable(l)
  {
    hide NumericVal, NumericOf, Less, ValidName, HexKey, Trimmed;
    NumericRoundTrip(0);
    NumericRoundTrip(1);
    NumericRoundTrip(MAX_UINT64);
    if ValidName(l.key) { BuiltinsAreNot(l.key); }
    SingleKeysDiffer();
  }

  lemma TextExtreme(l: Leaf, v: Str)
    requires IsRange(l) && Askable(l) && l.value.Text? && Hits(l, v)
    requires l.LessThan? || l.LessOrEqualThan? ==> LessEq(Extreme(l), v)
    requires (l.GreaterThan? || l.GreaterOrEqualThan?) && SingleKey(l.key) ==> LessEq(v, Extreme(l))
    ensures Satisfiable(l)
  {
    hide NumericVal, Less, ValidName, SingleKey, HexKey;
    var x, s := Extreme(l), l.value.s;
    NextText(s);
    LessTotal(x, s);
    LessTotal(v, s);
    LessTotal(s, s);
    if Less(x, v) && Less(v, s) { LessTransitive(x, v, s); }
    if Less(s, v) && Less(v, x) { LessTransitive(s, v, x); }
  }

  lemma RangeHitsExtreme(l: Leaf)
    requires IsRange(l) && Satisfiable(l)
    ensures Hits(l, Extreme(l))
  {
    hide Below, NotBelow, Equals, Extreme;
  }

  /**
   * For every leaf that a query can hold: it answers every block of every canonical chain exactly if and only if it is
   * an equality or an inclusion, or no storable value can meet it, which is read off its text: `k < 0`,
   * `k > 2^64-1`, `k < ""`, `$createdAtBlock < 1`, the empty glob, a glob that ends in a NUL and fits no eight bytes.
   */
  lemma ExactOnChainsIff(l: Leaf)
    requires ReadAtBlock(l) || Askable(l)
    ensures ExactOnChains(l) <==> ReadAtBlock(l) || !Satisfiable(l)
  {
    hide ChainOk, Hits, ValidName, SingleKey, Extreme, Satisfiable, Storable, HistAnnot, AnnotAt;
    if ReadAtBlock(l) {
      ReadIsExact(l);
    } else if Satisfiable(l) {
      var v: Str;
      if l.GlobExpr? {
        v := GlobHitsStorable(l);
      } else {
        v := Extreme(l);
        ExtremeStorable(l);
        RangeHitsExtreme(l);
      }
      StoredWrong(l, v);
    } else {
      forall v | Storable(l.key, v) ensures !Hits(l, v) {
        if Hits(l, v) {
          if l.GlobExpr? { GlobSatisfiable(l, v); } else { RangeSatisfiable(l, v); }
        }
      }
      UnhitIsExact(l);
    }
  }

  lemma ReadIsExact(l: Leaf)
    requires ReadAtBlock(l)
    ensures ExactOnChains(l)
  {
    hide ChainOk, HitSet, HistAnnot, AnnotAt;
  }

  lemma UnhitIsExact(l: Leaf)
    requires Askable(l) && forall v :: Storable(l.key, v) ==> !Hits(l, v)
    ensures ExactOnChains(l)
  {
    hide ChainOk, HitSet, Hits, Storable, ValidName, SingleKey;
    forall chain: seq<Block>, n: uint64 | ChainOk(chain) && KnownBlock(chain, n) ensures ExactOn(chain, n, l) {
      NothingHit(chain, n, l);
      NothingHit(chain, 0, l);
    }
  }
}
