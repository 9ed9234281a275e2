/** Reads of the store: one state root for a whole read, at the head or at a canonical block. */
module Reads {
  import opened Bytes
  import opened Wrappers
  import opened Entities
  import opened Ledger
  import opened Chain
  import opened Machine
  import opened Keys
  import opened Database
  import opened CacheStores
  import opened Disk
  import opened Bitmaps
  import opened Stores

  /** Block number 0 stands for the head. */
  predicate KnownBlock(chain: seq<Block>, n: uint64) { n <= |chain| }

  ghost function LedgerAt(chain: seq<Block>, n: uint64): Ledger
    requires KnownBlock(chain, n)
  {
    Replay(if n == 0 then chain else chain[..n])
  }

  ghost function AnnotAt(chain: seq<Block>, n: uint64): map<Pair, Hash>
    requires KnownBlock(chain, n)
  {
    LedgerAt(chain, n).trie.annot
  }

  // ---------- Finding the root ----------

  /** The root under which a read at block n looks, or why there is none. */
  function StoredRoot(db: Db, head: Root, n: uint64): Result<Root> {
    if n == 0 then Ok(head)
    else
      match Lookup(db, BlockNumberKey(n))
      case Some(BlockHashVal(h)) =>
        (match Lookup(db, RootKey(h)) case Some(RootVal(r)) => Ok(r) case _ => Err(StateNotFound))
      case _ => Err(BlockNotFound)
  }

  /** The block index leads every canonical number to that block's state, and every other number nowhere. */
  lemma StoredRootExact(db: Db, s: State, n: uint64)
    requires DiskInv(db, s)
    ensures var r := StoredRoot(db, HeadOf(db).root, n);
            if KnownBlock(s.chain, n) then
              && r == Ok(OfTrie(LedgerAt(s.chain, n).trie)) && CanOpen(db, r.value)
              && Covered(db, AnnotAt(s.chain, n))
            else r == Err(BlockNotFound)
  {
    hide Inv, Archive, AnnotSync, IdSync, TriesKept, Covered, CanOpen, Replay, InChain;
    if KnownBlock(s.chain, n) {
      var k := if n == 0 then |s.chain| else n;
      HeadCovered(db, s.chain, k);
      if n == 0 {
        assert s.chain[..k] == s.chain;
      } else {
        assert s.chain[n - 1].number == n && s.chain[..n - 1 + 1] == s.chain[..n];
      }
    }
  }

  method OpenStateAt(s: Store, n: uint64) returns (r: Result<StateDB>)
    requires s.Valid()
    ensures r.Ok? <==> KnownBlock(s.state.chain, n)
    ensures r.Ok? ==> fresh(r.value) && r.value.trie == LedgerAt(s.state.chain, n).trie
    ensures r.Err? ==> r.error == BlockNotFound
  {
    hide DiskInv, CanOpen, Covered, HeadOf, Replay;
    StoredRootExact(s.rawDB.data, s.state, n);
    var root := RootOf(s, n);
    if root.Err? {
      return Err(root.error);
    }
    r := OpenState(s.rawDB, root.value);
  }

  method RootOf(s: Store, n: uint64) returns (r: Result<Root>)
    ensures r == StoredRoot(s.rawDB.data, s.headRoot, n)
  {
    if n == 0 {
      return Ok(s.headRoot);
    }
    var h := s.rawDB.Get(BlockNumberKey(n));
    if h.None? || !h.value.BlockHashVal? {
      return Err(BlockNotFound);
    }
    var root := s.rawDB.Get(RootKey(h.value.b));
    if root.None? || !root.value.RootVal? {
      return Err(StateNotFound);
    }
    return Ok(root.value.r);
  }

  // ---------- Bitmaps ----------

  /** What a reader holding a trie finds for a pair: nothing for a zero slot or a missing bitmap. */
  function SlotBits(db: Db, annot: map<Pair, Hash>, p: Pair): set<uint64> {
    if p !in annot then {}
    else match Lookup(db, BitmapKey(annot[p])) case Some(BitmapVal(ids)) => ids case _ => {}
  }

  lemma CoveredSlots(db: Db, annot: map<Pair, Hash>, p: Pair)
    requires Covered(db, annot)
    ensures SlotBits(db, annot, p) == Bits(annot, p)
  {
  }

  /** A reader that holds any root the store ever committed finds the same bitmaps after any later steps. */
  lemma OldRootResolves(db: Db, s: State, db': Db, s': State, r: Root, p: Pair)
    requires DiskInv(db, s) && DiskInv(db', s') && Grows(db, db') && TrieKey(r) in db
    ensures TrieKey(r) in db' &&
            SlotBits(db', r.trie.annot, p) == SlotBits(db, r.trie.annot, p) == Bits(r.trie.annot, p)
  {
    hide Inv, HeadInv, BlockIndex, AnnotSync, IdSync, TriesKept, Covered, SlotBits;
    CoveredSlots(db, r.trie.annot, p);
    CoveredSlots(db', r.trie.annot, p);
  }

  /**
   * Two stores on one canonical chain answer every bitmap read alike, at the head and at every block, whatever blocks,
   * failures, reverts and reorgs brought each of them there.
   */
  lemma SameChainSameReads(db: Db, s: State, db': Db, s': State, n: uint64, p: Pair)
    requires DiskInv(db, s) && DiskInv(db', s') && s.chain == s'.chain
    ensures var r, r' := StoredRoot(db, HeadOf(db).root, n), StoredRoot(db', HeadOf(db').root, n);
            r == r' && (r.Ok? ==> SlotBits(db, r.value.trie.annot, p) == SlotBits(db', r.value.trie.annot, p))
  {
    hide DiskInv, StoredRoot, CanOpen, Covered, SlotBits, Replay, HeadOf;
    StoredRootExact(db, s, n);
    StoredRootExact(db', s', n);
    if KnownBlock(s.chain, n) {
      CoveredSlots(db, AnnotAt(s.chain, n), p);
      CoveredSlots(db', AnnotAt(s.chain, n), p);
    }
  }

  method LoadSlot(disk: RawDb, sdb: StateDB, p: Pair) returns (bm: Bitmap)
    ensures fresh(bm) && bm.ids == SlotBits(disk.data, sdb.trie.annot, p)
  {
    if p !in sdb.trie.annot {
      bm := new Bitmap({});
      return;
    }
    var b := disk.Get(BitmapKey(sdb.trie.annot[p]));
    if b.None? || !b.value.BitmapVal? {
      bm := new Bitmap({});
      return;
    }
    bm := new Bitmap(b.value.ids);
  }

  /** The bitmap of a pair as committed at block n. */
  method ReadAnnotBitmap(s: Store, n: uint64, p: Pair) returns (r: Result<Bitmap>)
    requires s.Valid()
    ensures r.Ok? <==> KnownBlock(s.state.chain, n)
    ensures r.Ok? ==> fresh(r.value) && r.value.ids == Bits(AnnotAt(s.state.chain, n), p)
    ensures r.Err? ==> r.error == BlockNotFound
  {
    hide DiskInv, CanOpen, Covered, HeadOf, Replay, SlotBits;
    var sdb := OpenStateAt(s, n);
    if sdb.Err? {
      return Err(sdb.error);
    }
    StoredRootExact(s.rawDB.data, s.state, n);
    CoveredSlots(s.rawDB.data, AnnotAt(s.state.chain, n), p);
    var bm := LoadSlot(s.rawDB, sdb.value, p);
    return Ok(bm);
  }

  method AllEntities(s: Store, n: uint64) returns (r: Result<Bitmap>)
    requires s.Valid()
    ensures r.Ok? <==> KnownBlock(s.state.chain, n)
    ensures r.Ok? ==> fresh(r.value) && r.value.ids == Bits(AnnotAt(s.state.chain, n), ALL_PAIR)
    ensures r.Err? ==> r.error == BlockNotFound
  {
    r := ReadAnnotBitmap(s, n, ALL_PAIR);
  }

  /** In any state of the store, the bitmap of a pair at block n is the scan over the entities live there. */
  lemma BitmapIsScan(db: Db, s: State, n: uint64, p: Pair, id: uint64)
    requires DiskInv(db, s) && KnownBlock(s.chain, n)
    ensures LedgerInv(LedgerAt(s.chain, n))
    ensures id in Bits(AnnotAt(s.chain, n), p) <==> Carries(LedgerAt(s.chain, n).trie, p, id)
    ensures Bits(AnnotAt(s.chain, n), ALL_PAIR) == LedgerAt(s.chain, n).trie.ids.Keys
  {
    hide Carries, ChainOk, Replay, IdsInv, EntitiesInv, HeadInv, BlockIndex, AnnotSync, IdSync, TriesKept, Archive,
         CacheSound;
    InvChain(s);
    ChainPrefix(s.chain, if n == 0 then |s.chain| else n);
    assert s.chain[..|s.chain|] == s.chain;
    ReplayInv(if n == 0 then s.chain else s.chain[..n]);
    AllBitmap(LedgerAt(s.chain, n));
  }

  // ---------- Entities ----------

  ghost function EntityAt(chain: seq<Block>, n: uint64, a: Address): Option<Entity>
    requires KnownBlock(chain, n)
  {
    var code := LedgerAt(chain, n).trie.code;
    if a in code then Some(code[a]) else None
  }

  method GetEntity(s: Store, n: uint64, a: Address) returns (r: Result<Entity>)
    requires s.Valid()
    ensures r == if !KnownBlock(s.state.chain, n) then Err(BlockNotFound)
                 else if EntityAt(s.state.chain, n, a).None? then Err(EntityNotFound)
                 else Ok(EntityAt(s.state.chain, n, a).value)
  {
    hide DiskInv, HeadOf, Replay;
    var sdb := OpenStateAt(s, n);
    if sdb.Err? {
      return Err(sdb.error);
    }
    if a !in sdb.value.trie.code {
      return Err(EntityNotFound);
    }
    return Ok(sdb.value.trie.code[a]);
  }

  /** The address the ID cache gives for an ID. */
  method IDToAddress(s: Store, id: uint64) returns (r: Option<Address>)
    requires s.Valid()
    ensures r == if id in s.state.cache then Some(s.state.cache[id]) else None
  {
    hide Inv, HeadInv, BlockIndex, TriesKept, AnnotSync, Archive, HeadOf;
    var v := s.rawDB.Get(IdKey(id));
    assert v == if id in s.state.cache then Some(AddressVal(s.state.cache[id])) else None;
    return if v.Some? && v.value.AddressVal? then Some(v.value.a) else None;
  }
}
