/**
 * The write-through meaning of blocks: every operation acts at once on the entity trie.
 * Roots, bitmap hashes and block hashes are symbolic, so equal hashes mean equal contents.
 */
module Ledger {
  import opened Bytes
  import opened Wrappers
  import opened Entities

  // ---------- Blocks ----------

  datatype CreateOp = CreateOp(
    key: Hash32, owner: Address, expiresAt: uint64, payload: Str, contentType: Str,
    attributes: seq<Attribute>, opIndex: uint64, sender: Address, txIndex: uint64)

  datatype UpdateOp = UpdateOp(key: Hash32, payload: Str, contentType: Str, attributes: seq<Attribute>)

  datatype Op =
    | Create(create: CreateOp)
    | Update(update: UpdateOp)
    | Delete(key: Hash32)
    | Extend(key: Hash32, expiresAt: uint64)
    | Transfer(key: Hash32, owner: Address)
    | Expire(key: Hash32)
    | NoOp

  datatype Tx = Tx(sender: Address, index: uint64, ops: seq<Op>)

  datatype Block = Block(number: uint64, hash: Hash32, parentHash: Hash32, txs: seq<Tx>)

  /** Sender and transaction index live on the transaction and are injected into creates. */
  function Inject(tx: Tx, op: Op): Op {
    match op
    case Create(c) => Create(c.(sender := tx.sender, txIndex := tx.index))
    case _ => op
  }

  function InjectAll(tx: Tx, ops: seq<Op>): (r: seq<Op>)
    ensures |r| == |ops|
  {
    seq(|ops|, i requires 0 <= i < |ops| => Inject(tx, ops[i]))
  }

  /** The operations of a block in execution order. */
  function BlockOps(txs: seq<Tx>): seq<Op> {
    if txs == [] then []
    else BlockOps(txs[..|txs| - 1]) + InjectAll(txs[|txs| - 1], txs[|txs| - 1].ops)
  }

  function Addr(key: Hash32): Address { key[..20] }

  function Target(op: Op): Address
    requires !op.NoOp?
  {
    match op
    case Create(c) => Addr(c.key)
    case Update(u) => Addr(u.key)
    case Delete(k) => Addr(k)
    case Extend(k, _) => Addr(k)
    case Transfer(k, _) => Addr(k)
    case Expire(k) => Addr(k)
  }

  // ---------- The trie ----------

  /** keccak256 of a serialised bitmap, standing for the set it serialises. */
  datatype Hash = OfBitmap(ids: set<uint64>)

  /** System account (existence, entity count, annotation and ID slots) and entity accounts. Absent slots are zero. */
  datatype Trie = Trie(
    sys: bool,
    count: uint64,
    annot: map<Pair, Hash>,
    ids: map<uint64, Address>,
    code: map<Address, Entity>)

  /** A state root, standing for the trie it commits to. */
  datatype Root = OfTrie(trie: Trie)

  const EMPTY_TRIE := Trie(false, 0, map[], map[], map[])
  const EMPTY_ROOT := OfTrie(EMPTY_TRIE)

  function Bits(annot: map<Pair, Hash>, p: Pair): set<uint64> {
    if p in annot then annot[p].ids else {}
  }

  function AddTo(annot: map<Pair, Hash>, ps: set<Pair>, id: uint64): map<Pair, Hash> {
    map p | p in annot.Keys + ps :: if p in ps then OfBitmap(Bits(annot, p) + {id}) else annot[p]
  }

  function RemoveFrom(annot: map<Pair, Hash>, ps: set<Pair>, id: uint64): map<Pair, Hash> {
    map p | p in annot.Keys + ps :: if p in ps then OfBitmap(Bits(annot, p) - {id}) else annot[p]
  }

  /** A trie with its history: the ID each address was created with, and how many entities were removed. */
  datatype Ledger = Ledger(trie: Trie, created: map<Address, uint64>, removed: nat)

  const GENESIS := Ledger(EMPTY_TRIE, map[], 0)

  function IdOf(l: Ledger, a: Address): uint64 {
    if a in l.created then l.created[a] else 0
  }

  /** What applyAttributes makes of a fresh entity. */
  function WithAttributes(e: Entity, attrs: seq<Attribute>): Entity {
    e.(stringAnnotations := StringsOf(attrs), numericAnnotations := NumericsOf(attrs))
  }

  function Created(c: CreateOp, n: uint64): Entity {
    WithAttributes(
      Entity(c.payload, c.owner, c.sender, c.expiresAt, n, n, c.txIndex, c.opIndex, c.contentType, c.key, [], []),
      c.attributes)
  }

  function Updated(e: Entity, u: UpdateOp, n: uint64): Entity {
    WithAttributes(
      e.(payload := u.payload, contentType := u.contentType, lastModifiedAtBlock := n),
      u.attributes)
  }

  function SetIdSlot(ids: map<uint64, Address>, id: uint64, a: Address): map<uint64, Address> {
    if a == ZERO_ADDRESS then ids - {id} else ids[id := a]
  }

  /** Replaces the entity at a, moving its ID between the buckets that differ. */
  ghost function Replace(t: Trie, a: Address, e: Entity, id: uint64): Trie
    requires a in t.code
  {
    var before, after := Annots(t.code[a]), Annots(e);
    t.(annot := AddTo(RemoveFrom(t.annot, before - after, id), after - before, id), code := t.code[a := e])
  }

  ghost function ApplyCreate(l: Ledger, n: uint64, c: CreateOp): Ledger {
    var t, a, e := l.trie, Addr(c.key), Created(c, n);
    var id := (t.count + 1) % TWO64;
    Ledger(
      Trie(t.sys, id, AddTo(t.annot, Annots(e), id), SetIdSlot(t.ids, id, a), t.code[a := e]),
      l.created[a := id],
      l.removed)
  }

  ghost function RemoveEntity(l: Ledger, a: Address): Ledger
    requires a in l.trie.code
  {
    var t, id := l.trie, IdOf(l, a);
    Ledger(
      t.(annot := RemoveFrom(t.annot, Annots(t.code[a]), id), ids := t.ids - {id}, code := t.code - {a}),
      l.created,
      l.removed + 1)
  }

  /** Moves one ID from bucket (key, from) to bucket (key, to). */
  function MoveBucket(annot: map<Pair, Hash>, key: Str, from: Str, to: Str, id: uint64): map<Pair, Hash> {
    AddTo(RemoveFrom(annot, {Pair(key, from)}, id), {Pair(key, to)}, id)
  }

  ghost function ApplyOp(l: Ledger, n: uint64, op: Op): Result<Ledger>
  {
    if op.NoOp? then Err(EmptyOperation)
    else if op.Create? then Ok(ApplyCreate(l, n, op.create))
    else
      var t, a := l.trie, Target(op);
      if a !in t.code then Err(EntityNotFound)
      else
        var e, id := t.code[a], IdOf(l, a);
        match op
        case Update(u) => Ok(l.(trie := Replace(t, a, Updated(e, u, n), id)))
        case Extend(_, x) =>
          Ok(l.(trie := t.(
            annot := MoveBucket(t.annot, EXPIRATION_KEY, NumericVal(e.expiresAt), NumericVal(x), id),
            code := t.code[a := e.(expiresAt := x)])))
        case Transfer(_, o) =>
          Ok(l.(trie := t.(
            annot := MoveBucket(t.annot, OWNER_KEY, LowerHex(e.owner), LowerHex(o), id),
            code := t.code[a := e.(owner := o)])))
        case _ => Ok(RemoveEntity(l, a))
  }

  // ---------- What every ledger keeps ----------

  /** ID slots and entity accounts are inverse to each other through the creation history. */
  ghost predicate IdsInv(l: Ledger) {
    && l.trie.count == |l.created|
    && (forall a :: a in l.created ==> 1 <= l.created[a] <= l.trie.count)
    && (forall id :: id in l.trie.ids ==>
          var a := l.trie.ids[id]; a in l.trie.code && a in l.created && l.created[a] == id)
    && (forall a :: a in l.trie.code ==>
          a in l.created && l.created[a] in l.trie.ids && l.trie.ids[l.created[a]] == a)
    && |l.trie.ids| + l.removed == |l.created|
  }

  ghost predicate CreatedOnce(l: Ledger) {
    forall a, b :: a in l.created && b in l.created && l.created[a] == l.created[b] ==> a == b
  }

  ghost predicate EntitiesInv(t: Trie) {
    && (forall a :: a in t.code ==> ValidEntity(t.code[a]) && Addr(t.code[a].key) == a)
    && (forall p :: p in t.annot ==> 0 !in p.key)
  }

  /** Entity id is live and carries the pair. */
  ghost predicate Carries(t: Trie, p: Pair, id: uint64) {
    id in t.ids && t.ids[id] in t.code && p in Annots(t.code[t.ids[id]])
  }

  /** The bitmap of every pair is the naive scan over live entities. */
  ghost predicate IndexExact(t: Trie) {
    forall p, id: uint64 :: id in Bits(t.annot, p) <==> Carries(t, p, id)
  }

  ghost predicate LedgerInv(l: Ledger) {
    IdsInv(l) && CreatedOnce(l) && EntitiesInv(l.trie) && IndexExact(l.trie)
  }

  lemma ValidPairKeys(e: Entity, p: Pair)
    requires ValidEntity(e) && p in Annots(e)
    ensures 0 !in p.key
  {
    BuiltinKeys();
  }

  lemma CreatedIsValid(c: CreateOp, n: uint64)
    requires ValidAttributes(c.attributes)
    ensures ValidEntity(Created(c, n)) && Created(c, n).key == c.key
  {
    AttributeNames(c.attributes);
  }

  lemma BitsAdd(annot: map<Pair, Hash>, ps: set<Pair>, id: uint64, p: Pair)
    ensures Bits(AddTo(annot, ps, id), p) == if p in ps then Bits(annot, p) + {id} else Bits(annot, p)
  {
  }

  lemma BitsRemove(annot: map<Pair, Hash>, ps: set<Pair>, id: uint64, p: Pair)
    ensures Bits(RemoveFrom(annot, ps, id), p) == if p in ps then Bits(annot, p) - {id} else Bits(annot, p)
  {
  }

  // Create

  ghost predicate Creatable(l: Ledger, c: CreateOp) {
    && l.trie.count < MAX_UINT64
    && UserAddress(Addr(c.key))
    && Addr(c.key) !in l.created
    && ValidAttributes(c.attributes)
  }

  lemma MapGrows<K, V>(m: map<K, V>, k: K, v: V)
    requires k !in m
    ensures |m[k := v]| == |m| + 1
  {
    assert m[k := v].Keys == m.Keys + {k};
  }

  /** The parts that a create writes. */
  lemma CreateShape(l: Ledger, n: uint64, c: CreateOp)
    requires Creatable(l, c)
    ensures var l', a, id := ApplyCreate(l, n, c), Addr(c.key), l.trie.count + 1;
            && id < TWO64 && a !in l.created
            && l'.trie.count == id && l'.removed == l.removed
            && l'.trie.ids == l.trie.ids[id := a] && l'.created == l.created[a := id]
            && l'.trie.code == l.trie.code[a := Created(c, n)]
            && l'.trie.annot == AddTo(l.trie.annot, Annots(Created(c, n)), id)
  {
    hide Annots, AddTo, Addr, Created, ValidAttributes;
  }

  /** One more entity, with the next ID. */
  ghost predicate Grown(l: Ledger, l': Ledger, a: Address, id: uint64, e: Entity) {
    && id == l.trie.count + 1 && a !in l.created
    && l'.trie.count == id && l'.removed == l.removed
    && l'.trie.ids == l.trie.ids[id := a] && l'.created == l.created[a := id]
    && l'.trie.code == l.trie.code[a := e]
  }

  lemma NewKeys(l: Ledger, a: Address)
    requires IdsInv(l) && a !in l.created
    ensures forall id :: id in l.trie.ids ==> id <= l.trie.count && l.trie.ids[id] != a
    ensures a !in l.trie.code && forall b :: b in l.created ==> l.created[b] <= l.trie.count
  {
  }

  lemma GrownIds(l: Ledger, l': Ledger, a: Address, id: uint64, e: Entity)
    requires IdsInv(l) && Grown(l, l', a, id, e)
    ensures IdsInv(l')
  {
    NewKeys(l, a);
    MapGrows(l.trie.ids, id, a);
    MapGrows(l.created, a, id);
  }

  lemma CreateIds(l: Ledger, n: uint64, c: CreateOp)
    requires IdsInv(l) && Creatable(l, c)
    ensures IdsInv(ApplyCreate(l, n, c))
  {
    hide IdsInv, ApplyCreate, Creatable, Created, Addr, Annots, AddTo;
    CreateShape(l, n, c);
    GrownIds(l, ApplyCreate(l, n, c), Addr(c.key), l.trie.count + 1, Created(c, n));
  }

  lemma GrownCarries(l: Ledger, l': Ledger, a: Address, id: uint64, e: Entity, p: Pair, i: uint64)
    requires IdsInv(l) && Grown(l, l', a, id, e)
    ensures Carries(l'.trie, p, i) <==> Carries(l.trie, p, i) || (i == id && p in Annots(e))
  {
    hide Annots;
    NewKeys(l, a);
  }

  lemma CreateIndex(l: Ledger, n: uint64, c: CreateOp)
    requires LedgerInv(l) && Creatable(l, c)
    ensures IndexExact(ApplyCreate(l, n, c).trie)
  {
    hide IdsInv, CreatedOnce, EntitiesInv, ApplyCreate, Creatable, Created, Addr, Annots, AddTo, Bits, Carries;
    var l', e, id := ApplyCreate(l, n, c), Created(c, n), l.trie.count + 1;
    CreateShape(l, n, c);
    forall p, i: uint64
      ensures i in Bits(l'.trie.annot, p) <==> Carries(l'.trie, p, i)
    {
      BitsAdd(l.trie.annot, Annots(e), id, p);
      GrownCarries(l, l', Addr(c.key), id, e, p, i);
      assert i in Bits(l.trie.annot, p) <==> Carries(l.trie, p, i);
    }
  }

  lemma CreateEntities(l: Ledger, n: uint64, c: CreateOp)
    requires LedgerInv(l) && Creatable(l, c)
    ensures EntitiesInv(ApplyCreate(l, n, c).trie)
  {
    hide Annots, ValidEntity, Created, IdsInv, IndexExact;
    var e := Created(c, n);
    CreatedIsValid(c, n);
    forall p | p in Annots(e) ensures 0 !in p.key {
      ValidPairKeys(e, p);
    }
  }

  // Remove

  lemma RemoveIds(l: Ledger, a: Address)
    requires IdsInv(l) && a in l.trie.code
    ensures IdsInv(RemoveEntity(l, a))
  {
    hide Annots, RemoveFrom;
    var l', id := RemoveEntity(l, a), l.created[a];
    assert l'.trie.ids.Keys == l.trie.ids.Keys - {id};
  }

  lemma RemoveIndex(l: Ledger, a: Address)
    requires LedgerInv(l) && a in l.trie.code
    ensures IndexExact(RemoveEntity(l, a).trie)
  {
    hide Annots, EntitiesInv;
    var t, t' := l.trie, RemoveEntity(l, a).trie;
    forall p, i: uint64
      ensures i in Bits(t'.annot, p) <==> Carries(t', p, i)
    {
      BitsRemove(t.annot, Annots(t.code[a]), l.created[a], p);
      assert i in Bits(t.annot, p) <==> Carries(t, p, i);
    }
  }

  lemma RemoveEntities(l: Ledger, a: Address)
    requires EntitiesInv(l.trie) && a in l.trie.code
    ensures EntitiesInv(RemoveEntity(l, a).trie)
  {
    hide Annots, ValidEntity;
    var e := l.trie.code[a];
    forall p | p in Annots(e) ensures 0 !in p.key {
      ValidPairKeys(e, p);
    }
  }

  // Update, Extend, Transfer: one entity changes, its ID moves between buckets.

  /** Each bucket holds id exactly when e carries its pair; other IDs stay. */
  ghost predicate Rebucketed(annot: map<Pair, Hash>, annot': map<Pair, Hash>, e: Entity, id: uint64) {
    && (forall p :: Bits(annot', p) == if p in Annots(e) then Bits(annot, p) + {id} else Bits(annot, p) - {id})
    && (forall p :: p in annot' ==> p in annot || 0 !in p.key)
  }

  lemma RebucketedIndex(l: Ledger, a: Address, e: Entity, annot': map<Pair, Hash>)
    requires IdsInv(l) && IndexExact(l.trie) && a in l.trie.code
    requires Rebucketed(l.trie.annot, annot', e, l.created[a])
    ensures IndexExact(l.trie.(annot := annot', code := l.trie.code[a := e]))
  {
    hide Annots;
    var t := l.trie;
    var t' := t.(annot := annot', code := t.code[a := e]);
    forall p, i: uint64
      ensures i in Bits(annot', p) <==> Carries(t', p, i)
    {
      assert i in Bits(t.annot, p) <==> Carries(t, p, i);
      assert Bits(annot', p) ==
             if p in Annots(e) then Bits(t.annot, p) + {l.created[a]} else Bits(t.annot, p) - {l.created[a]};
    }
  }

  lemma RebucketedInv(l: Ledger, a: Address, e: Entity, annot': map<Pair, Hash>)
    requires LedgerInv(l) && a in l.trie.code
    requires Rebucketed(l.trie.annot, annot', e, l.created[a])
    requires ValidEntity(e) && e.key == l.trie.code[a].key
    ensures LedgerInv(l.(trie := l.trie.(annot := annot', code := l.trie.code[a := e])))
  {
    hide IdsInv, EntitiesInv, IndexExact, CreatedOnce, Rebucketed, ValidEntity;
    RebucketedIndex(l, a, e, annot');
    RebucketedIds(l, a, e, annot');
    RebucketedEntities(l, a, e, annot');
  }

  lemma RebucketedIds(l: Ledger, a: Address, e: Entity, annot': map<Pair, Hash>)
    requires IdsInv(l) && CreatedOnce(l) && a in l.trie.code
    ensures var l' := l.(trie := l.trie.(annot := annot', code := l.trie.code[a := e]));
            IdsInv(l') && CreatedOnce(l') && a in l.created
  {
  }

  lemma RebucketedEntities(l: Ledger, a: Address, e: Entity, annot': map<Pair, Hash>)
    requires EntitiesInv(l.trie) && a in l.trie.code && a in l.created
    requires Rebucketed(l.trie.annot, annot', e, l.created[a])
    requires ValidEntity(e) && e.key == l.trie.code[a].key
    ensures EntitiesInv(l.trie.(annot := annot', code := l.trie.code[a := e]))
  {
    hide Annots, ValidEntity, Bits, Addr;
  }

  lemma ReplaceRebuckets(l: Ledger, a: Address, e: Entity)
    requires LedgerInv(l) && a in l.trie.code && ValidEntity(e)
    ensures Rebucketed(l.trie.annot, Replace(l.trie, a, e, l.created[a]).annot, e, l.created[a])
  {
    hide Annots, ValidEntity;
    var t, id := l.trie, l.created[a];
    var before, after := Annots(t.code[a]), Annots(e);
    var mid := RemoveFrom(t.annot, before - after, id);
    forall p ensures Bits(AddTo(mid, after - before, id), p) ==
                     if p in after then Bits(t.annot, p) + {id} else Bits(t.annot, p) - {id}
    {
      BitsRemove(t.annot, before - after, id, p);
      BitsAdd(mid, after - before, id, p);
      assert id in Bits(t.annot, p) <==> Carries(t, p, id);
    }
    forall p | p in before || p in after ensures 0 !in p.key {
      if p in before { ValidPairKeys(t.code[a], p); } else { ValidPairKeys(e, p); }
    }
  }

  /** Only the pair at position i of the list of pairs changes, from one value of a built-in key to another. */
  ghost predicate ChangesAt(e: Entity, e': Entity, i: nat) {
    && (i == 4 || i == 6)
    && AllPairs(e') == AllPairs(e)[i := AllPairs(e')[i]]
    && AllPairs(e')[i].key == AllPairs(e)[i].key
  }

  lemma ChangedAnnots(e: Entity, e': Entity, i: nat, p: Pair)
    requires ValidEntity(e) && ChangesAt(e, e', i)
    ensures p in Annots(e') <==> (p in Annots(e) && p != AllPairs(e)[i]) || p == AllPairs(e')[i]
  {
    var s := AllPairs(e);
    forall j | 0 <= j < |s| && j != i ensures s[j] != s[i] {
      OtherKeys(e, i, j);
    }
    hide AllPairs, ValidEntity;
    SwapElement(s, i, AllPairs(e')[i], p);
  }

  lemma SwapElement<T>(s: seq<T>, i: nat, q: T, p: T)
    requires i < |s| && forall j :: 0 <= j < |s| && j != i ==> s[j] != s[i]
    ensures p in s[i := q] <==> (p in s && p != s[i]) || p == q
  {
    assert s[i := q][i] == q;
    if p in s && p != s[i] {
      var k :| 0 <= k < |s| && s[k] == p;
      assert s[i := q][k] == p;
    }
  }

  lemma OtherKeys(e: Entity, i: nat, j: nat)
    requires ValidEntity(e) && (i == 4 || i == 6) && j != i && j < |AllPairs(e)|
    ensures AllPairs(e)[j].key != AllPairs(e)[i].key
  {
    BuiltinKeys();
    if j >= 8 {
      assert ValidName(AllPairs(e)[j].key);
    }
  }

  lemma MoveRebuckets(l: Ledger, a: Address, e: Entity, i: nat)
    requires LedgerInv(l) && a in l.trie.code && ChangesAt(l.trie.code[a], e, i)
    requires 0 !in AllPairs(e)[i].key
    ensures var q, q' := AllPairs(l.trie.code[a])[i], AllPairs(e)[i];
            Rebucketed(l.trie.annot, MoveBucket(l.trie.annot, q.key, q.val, q'.val, l.created[a]), e, l.created[a])
  {
    hide Annots, ValidEntity, AllPairs;
    var t, id := l.trie, l.created[a];
    var q, q' := AllPairs(t.code[a])[i], AllPairs(e)[i];
    assert q == Pair(q.key, q.val) && q' == Pair(q.key, q'.val);
    var mid := RemoveFrom(t.annot, {q}, id);
    forall p ensures Bits(AddTo(mid, {q'}, id), p) ==
                     if p in Annots(e) then Bits(t.annot, p) + {id} else Bits(t.annot, p) - {id}
    {
      BitsRemove(t.annot, {q}, id, p);
      BitsAdd(mid, {q'}, id, p);
      ChangedAnnots(t.code[a], e, i, p);
      assert id in Bits(t.annot, p) <==> Carries(t, p, id);
    }
  }

  // ---------- Every operation keeps the ledger invariant ----------

  /** What the registry contract promises about an operation reaching ledger l. */
  ghost predicate OpValid(l: Ledger, op: Op) {
    match op
    case Create(c) => Creatable(l, c)
    case Update(u) => ValidAttributes(u.attributes)
    case _ => true
  }

  lemma CreateKeeps(l: Ledger, n: uint64, c: CreateOp)
    requires LedgerInv(l) && Creatable(l, c)
    ensures LedgerInv(ApplyCreate(l, n, c))
  {
    hide IdsInv, IndexExact, EntitiesInv, Created, ValidAttributes, AddTo, Annots;
    CreateIds(l, n, c);
    CreateIndex(l, n, c);
    CreateEntities(l, n, c);
    CreateOnce(l, n, c);
  }

  lemma CreateOnce(l: Ledger, n: uint64, c: CreateOp)
    requires IdsInv(l) && CreatedOnce(l) && Creatable(l, c)
    ensures CreatedOnce(ApplyCreate(l, n, c))
  {
    hide Created, ValidAttributes, AddTo, Annots, Addr;
  }

  lemma RemoveKeeps(l: Ledger, a: Address)
    requires LedgerInv(l) && a in l.trie.code
    ensures LedgerInv(RemoveEntity(l, a))
  {
    hide IndexExact, EntitiesInv, IdsInv, Annots, RemoveFrom;
    RemoveIds(l, a);
    RemoveIndex(l, a);
    RemoveEntities(l, a);
  }

  lemma UpdateKeeps(l: Ledger, a: Address, n: uint64, u: UpdateOp)
    requires LedgerInv(l) && a in l.trie.code && ValidAttributes(u.attributes)
    ensures LedgerInv(l.(trie := Replace(l.trie, a, Updated(l.trie.code[a], u, n), l.created[a])))
  {
    hide ValidEntity, Updated, IndexExact, EntitiesInv, Annots, AddTo, RemoveFrom;
    var e := Updated(l.trie.code[a], u, n);
    UpdatedIsValid(l.trie.code[a], u, n);
    ReplaceRebuckets(l, a, e);
    RebucketedInv(l, a, e, Replace(l.trie, a, e, l.created[a]).annot);
  }

  lemma UpdatedIsValid(e: Entity, u: UpdateOp, n: uint64)
    requires ValidAttributes(u.attributes)
    ensures ValidEntity(Updated(e, u, n)) && Updated(e, u, n).key == e.key
  {
    AttributeNames(u.attributes);
  }

  lemma MoveKeeps(l: Ledger, a: Address, e: Entity, i: nat)
    requires LedgerInv(l) && a in l.trie.code && ChangesAt(l.trie.code[a], e, i)
    requires 0 !in AllPairs(e)[i].key && ValidEntity(e) && e.key == l.trie.code[a].key
    ensures var q, q' := AllPairs(l.trie.code[a])[i], AllPairs(e)[i];
            LedgerInv(l.(trie := l.trie.(
              annot := MoveBucket(l.trie.annot, q.key, q.val, q'.val, l.created[a]),
              code := l.trie.code[a := e])))
  {
    var q, q' := AllPairs(l.trie.code[a])[i], AllPairs(e)[i];
    MoveRebuckets(l, a, e, i);
    RebucketedInv(l, a, e, MoveBucket(l.trie.annot, q.key, q.val, q'.val, l.created[a]));
  }

  lemma ExtendChanges(e: Entity, x: uint64)
    ensures ChangesAt(e, e.(expiresAt := x), 6)
    ensures AllPairs(e)[6] == Pair(EXPIRATION_KEY, NumericVal(e.expiresAt))
    ensures AllPairs(e.(expiresAt := x))[6] == Pair(EXPIRATION_KEY, NumericVal(x))
  {
    hide LowerHex, StringPairs, NumericPairs;
  }

  lemma TransferChanges(e: Entity, o: Address)
    ensures ChangesAt(e, e.(owner := o), 4)
    ensures AllPairs(e)[4] == Pair(OWNER_KEY, LowerHex(e.owner))
    ensures AllPairs(e.(owner := o))[4] == Pair(OWNER_KEY, LowerHex(o))
  {
    hide LowerHex, StringPairs, NumericPairs;
  }

  lemma LiveIsValid(l: Ledger, a: Address)
    requires LedgerInv(l) && a in l.trie.code
    ensures a in l.created
    ensures forall x, o :: ValidEntity(l.trie.code[a].(expiresAt := x)) && ValidEntity(l.trie.code[a].(owner := o))
  {
    hide IndexExact, ValidName, Trimmed, Addr, CreatedOnce;
  }

  lemma ExtendKeeps(l: Ledger, a: Address, x: uint64)
    requires LedgerInv(l) && a in l.trie.code
    ensures var e := l.trie.code[a];
            LedgerInv(l.(trie := l.trie.(
              annot := MoveBucket(l.trie.annot, EXPIRATION_KEY, NumericVal(e.expiresAt), NumericVal(x), l.created[a]),
              code := l.trie.code[a := e.(expiresAt := x)])))
  {
    hide LedgerInv, AllPairs, MoveBucket, LowerHex, ValidEntity, ChangesAt;
    var e := l.trie.code[a];
    var e' := e.(expiresAt := x);
    BuiltinKeys();
    LiveIsValid(l, a);
    ExtendChanges(e, x);
    MoveKeeps(l, a, e', 6);
  }

  lemma TransferKeeps(l: Ledger, a: Address, o: Address)
    requires LedgerInv(l) && a in l.trie.code
    ensures var e := l.trie.code[a];
            LedgerInv(l.(trie := l.trie.(
              annot := MoveBucket(l.trie.annot, OWNER_KEY, LowerHex(e.owner), LowerHex(o), l.created[a]),
              code := l.trie.code[a := e.(owner := o)])))
  {
    hide LedgerInv, AllPairs, MoveBucket, LowerHex, ValidEntity, ChangesAt;
    var e := l.trie.code[a];
    var e' := e.(owner := o);
    BuiltinKeys();
    LiveIsValid(l, a);
    TransferChanges(e, o);
    MoveKeeps(l, a, e', 4);
  }

  lemma LiveWasCreated(l: Ledger)
    requires LedgerInv(l)
    ensures forall a :: a in l.trie.code ==> a in l.created
  {
  }

  /** All six operations keep the index exact and the ID bookkeeping consistent. */
  lemma OpKeeps(l: Ledger, n: uint64, op: Op)
    requires LedgerInv(l) && OpValid(l, op) && ApplyOp(l, n, op).Ok?
    ensures LedgerInv(ApplyOp(l, n, op).value)
  {
    hide LedgerInv, ApplyCreate, Replace, RemoveEntity, MoveBucket, Updated, Addr;
    assert forall a :: a in l.trie.code ==> a in l.created by { LiveWasCreated(l); }
    match op {
      case Create(c) => CreateKeeps(l, n, c);
      case Update(u) => UpdateKeeps(l, Target(op), n, u);
      case Extend(k, x) => ExtendKeeps(l, Addr(k), x);
      case Transfer(k, o) => TransferKeeps(l, Addr(k), o);
      case Delete(k) => RemoveKeeps(l, Addr(k));
      case Expire(k) => RemoveKeeps(l, Addr(k));
    }
  }

  // ---------- IDs are assigned once and never come back ----------

  /** l' has seen everything l has: IDs stay assigned, and an ID known to l and live in l' is live in l. */
  ghost predicate Extends(l: Ledger, l': Ledger) {
    && l.trie.count <= l'.trie.count
    && l.removed <= l'.removed
    && (forall a :: a in l.created ==> a in l'.created && l'.created[a] == l.created[a])
    && (forall id :: id in l'.trie.ids && id <= l.trie.count ==> id in l.trie.ids && l'.trie.ids[id] == l.trie.ids[id])
  }

  lemma CreateExtends(l: Ledger, n: uint64, c: CreateOp)
    requires LedgerInv(l) && Creatable(l, c)
    ensures Extends(l, ApplyCreate(l, n, c))
    ensures ApplyCreate(l, n, c).trie.count == l.trie.count + 1
  {
    hide ApplyCreate, Creatable, IdsInv, IndexExact, EntitiesInv, CreatedOnce, Addr, Annots, AddTo, Created;
    CreateShape(l, n, c);
  }

  lemma OtherOpShape(l: Ledger, n: uint64, op: Op)
    requires !op.Create? && ApplyOp(l, n, op).Ok?
    ensures var l' := ApplyOp(l, n, op).value;
            && l'.created == l.created && l'.removed >= l.removed && l'.trie.count == l.trie.count
            && (l'.trie.ids == l.trie.ids || l'.trie.ids == l.trie.ids - {IdOf(l, Target(op))})
  {
    hide Annots, AddTo, RemoveFrom, Updated, MoveBucket, Addr, IdOf;
    match op {
      case Update(u) =>
      case Extend(k, x) =>
      case Transfer(k, o) =>
      case Delete(k) =>
      case Expire(k) =>
    }
  }

  lemma OpExtends(l: Ledger, n: uint64, op: Op)
    requires LedgerInv(l) && OpValid(l, op) && ApplyOp(l, n, op).Ok?
    ensures Extends(l, ApplyOp(l, n, op).value)
    ensures ApplyOp(l, n, op).value.trie.count == if op.Create? then l.trie.count + 1 else l.trie.count
  {
    hide LedgerInv, ApplyCreate, Extends, Creatable;
    if op.Create? {
      CreateExtends(l, n, op.create);
    } else {
      OtherOpExtends(l, n, op);
    }
  }

  lemma OtherOpExtends(l: Ledger, n: uint64, op: Op)
    requires !op.Create? && ApplyOp(l, n, op).Ok?
    ensures Extends(l, ApplyOp(l, n, op).value)
    ensures ApplyOp(l, n, op).value.trie.count == l.trie.count
  {
    hide ApplyOp, IdOf;
    OtherOpShape(l, n, op);
  }
}
