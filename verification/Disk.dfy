/** What the database holds for a canonical chain, and how commits and reverts keep it. */
module Disk {
  import opened Bytes
  import opened Wrappers
  import opened Entities
  import opened Ledger
  import opened Chain
  import opened Machine
  import opened Keys
  import opened CacheStores
  import opened Revert

  datatype Head = Head(number: uint64, hash: Hash32, root: Root)

  /** The head a store opened on this database starts from. */
  function HeadOf(db: Db): Head {
    match Lookup(db, HeadKey)
    case Some(HeadVal(n, h, r)) => Head(n, h, r)
    case _ => Head(0, ZERO_HASH, EMPTY_ROOT)
  }

  ghost function RootAt(chain: seq<Block>): Root { OfTrie(Replay(chain).trie) }

  ghost predicate HeadInv(db: Db, chain: seq<Block>) {
    && HeadOf(db).number == |chain|
    && HeadOf(db).root == RootAt(chain)
    && (chain != [] ==> HeadOf(db).hash == chain[|chain| - 1].hash)
  }

  ghost predicate InChain(chain: seq<Block>, h: Hash32) {
    exists i :: 0 <= i < |chain| && chain[i].hash == h
  }

  /** The block index holds the canonical blocks and nothing else. */
  ghost predicate BlockIndex(db: Db, chain: seq<Block>) {
    && (forall i {:trigger chain[i]} :: 0 <= i < |chain| ==>
          && Lookup(db, RootKey(chain[i].hash)) == Some(RootVal(RootAt(chain[..i + 1])))
          && Lookup(db, ParentKey(chain[i].hash)) == Some(BlockHashVal(chain[i].parentHash))
          && Lookup(db, BlockNumberKey(chain[i].number)) == Some(BlockHashVal(chain[i].hash))
          && chain[i].number == i + 1)
    && (forall h :: RootKey(h) in db ==> InChain(chain, h))
    && (forall h :: ParentKey(h) in db ==> InChain(chain, h))
    && (forall n: uint64 :: BlockNumberKey(n) in db ==> 1 <= n <= |chain|)
  }

  /** Content-addressed entries are what their keys say, and every stored trie is covered. */
  ghost predicate Archive(db: Db) {
    && (forall h :: BitmapKey(h) in db ==> db[BitmapKey(h)] == BitmapVal(h.ids))
    && (forall r :: TrieKey(r) in db ==> Covered(db, r.trie.annot))
    && CleanPairs(db)
    && PairsUsed(db)
  }

  /** The pair index holds no pair that was never non-zero at a committed root. */
  ghost predicate PairsUsed(db: Db) {
    forall p :: PairsKey(p) in db ==> exists r :: TrieKey(r) in db && p in r.trie.annot
  }

  ghost predicate TriesKept(db: Db, chain: seq<Block>) {
    forall k :: 1 <= k <= |chain| ==> TrieKey(RootAt(chain[..k])) in db
  }

  ghost predicate DiskInv(db: Db, s: State) {
    && Inv(s)
    && HeadInv(db, s.chain)
    && BlockIndex(db, s.chain)
    && Archive(db)
    && TriesKept(db, s.chain)
    && AnnotSync(db, Replay(s.chain).trie.annot)
    && IdSync(db, s.cache)
  }

  /** Nothing content-addressed or pair-indexing is ever lost. */
  ghost predicate Grows(db: Db, db': Db) {
    forall k :: k in db && (k.BitmapKey? || k.TrieKey? || k.PairsKey?) ==> k in db'
  }

  /** state.New succeeds. */
  predicate CanOpen(db: Db, r: Root) { r == EMPTY_ROOT || TrieKey(r) in db }

  lemma EmptyDisk()
    ensures DiskInv(map[], INITIAL)
  {
    InitialInv();
  }

  lemma HeadCovered(db: Db, chain: seq<Block>, k: nat)
    requires Archive(db) && TriesKept(db, chain) && k <= |chain|
    ensures Covered(db, Replay(chain[..k]).trie.annot) && CanOpen(db, RootAt(chain[..k]))
  {
    hide Replay, RootAt;
    if k == 0 {
      assert chain[..0] == [];
      GenesisRoot();
    } else {
      RootTrie(chain[..k]);
    }
  }

  lemma GenesisRoot()
    ensures RootAt([]) == EMPTY_ROOT && Replay([]).trie.annot == map[]
  {
  }

  lemma RootTrie(chain: seq<Block>)
    ensures RootAt(chain).trie == Replay(chain).trie
  {
  }

  // ---------- Commit ----------

  /** The state of the overlay just before a successful block commits. */
  ghost predicate BeforeCommit(db: Db, v: Db, annot: map<Pair, Hash>, dirty: map<Pair, set<uint64>>, y: Exec) {
    && (forall k: DbKey :: !k.IdKey? && !k.AddrKey? ==> Lookup(v, k) == Lookup(db, k))
    && IdSync(v, y.cache)
    && Overlay(annot, dirty) == y.ledger.trie.annot
    && LedgerInv(y.ledger)
  }

  ghost predicate AfterCommit(v: Db, db': Db, dirty: map<Pair, set<uint64>>, b: Header) {
    forall k :: Lookup(db', k) == CommitLookup(v, dirty, b, k)
  }

  lemma CommitAnnot(db: Db, v: Db, db': Db, annot: map<Pair, Hash>, dirty: map<Pair, set<uint64>>, y: Exec, b: Header)
    requires AnnotSync(db, annot) && BeforeCommit(db, v, annot, dirty, y) && AfterCommit(v, db', dirty, b)
    ensures AnnotSync(db', y.ledger.trie.annot)
  {
    hide BeforeCommit, AfterCommit, Overlay;
    OverlaySlots(annot, dirty);
    assert Overlay(annot, dirty) == y.ledger.trie.annot by {
      CommitAnnotKey(db, v, db', annot, dirty, y, b, ALL_PAIR);
    }
    forall p ensures Lookup(db', AnnotKey(p)) ==
                     if p in y.ledger.trie.annot then Some(HashVal(y.ledger.trie.annot[p])) else None
    {
      CommitAnnotKey(db, v, db', annot, dirty, y, b, p);
    }
  }

  lemma CommitAnnotKey(
    db: Db, v: Db, db': Db, annot: map<Pair, Hash>, dirty: map<Pair, set<uint64>>, y: Exec, b: Header, p: Pair)
    requires BeforeCommit(db, v, annot, dirty, y) && AfterCommit(v, db', dirty, b)
    ensures Overlay(annot, dirty) == y.ledger.trie.annot
    ensures Lookup(db', AnnotKey(p)) ==
            if p in dirty then Some(HashVal(OfBitmap(dirty[p]))) else Lookup(db, AnnotKey(p))
  {
    hide LedgerInv, IdSync, Overlay;
    assert Lookup(db', AnnotKey(p)) == CommitLookup(v, dirty, b, AnnotKey(p));
    assert Lookup(v, AnnotKey(p)) == Lookup(db, AnnotKey(p));
  }

  lemma OverlaySlots(annot: map<Pair, Hash>, dirty: map<Pair, set<uint64>>)
    ensures forall p :: p in Overlay(annot, dirty) <==> p in annot || p in dirty
    ensures forall p :: p in dirty ==> Overlay(annot, dirty)[p] == OfBitmap(dirty[p])
    ensures forall p :: p in annot && p !in dirty ==> Overlay(annot, dirty)[p] == annot[p]
  {
  }

  lemma CommitIds(db: Db, v: Db, db': Db, annot: map<Pair, Hash>, dirty: map<Pair, set<uint64>>, y: Exec, b: Header)
    requires BeforeCommit(db, v, annot, dirty, y) && AfterCommit(v, db', dirty, b)
    ensures IdSync(db', y.cache)
  {
    hide LedgerInv, Overlay;
    SameIds(v, db', dirty, b);
    IdSyncTransfer(v, db', y.cache);
  }

  lemma SameIds(v: Db, db': Db, dirty: map<Pair, set<uint64>>, b: Header)
    requires AfterCommit(v, db', dirty, b)
    ensures forall id :: Lookup(db', IdKey(id)) == Lookup(v, IdKey(id))
    ensures forall a :: Lookup(db', AddrKey(a)) == Lookup(v, AddrKey(a))
  {
    forall id ensures Lookup(db', IdKey(id)) == Lookup(v, IdKey(id)) {
      assert Lookup(db', IdKey(id)) == CommitLookup(v, dirty, b, IdKey(id));
    }
    forall a ensures Lookup(db', AddrKey(a)) == Lookup(v, AddrKey(a)) {
      assert Lookup(db', AddrKey(a)) == CommitLookup(v, dirty, b, AddrKey(a));
    }
  }

  lemma IdSyncTransfer(v: Db, db': Db, cache: Cache)
    requires IdSync(v, cache)
    requires forall id :: Lookup(db', IdKey(id)) == Lookup(v, IdKey(id))
    requires forall a :: Lookup(db', AddrKey(a)) == Lookup(v, AddrKey(a))
    ensures IdSync(db', cache)
  {
    forall a | AddrKey(a) in db'
      ensures db'[AddrKey(a)].IdVal? && db'[AddrKey(a)].id in cache && cache[db'[AddrKey(a)].id] == a
    {
      assert Lookup(db', AddrKey(a)) == Lookup(v, AddrKey(a));
    }
  }

  /** What the commit leaves under one content-addressed key. */
  lemma CommitArchiveKey(
    db: Db, v: Db, db': Db, annot: map<Pair, Hash>, dirty: map<Pair, set<uint64>>, y: Exec, b: Header, k: DbKey)
    requires Archive(db) && BeforeCommit(db, v, annot, dirty, y) && AfterCommit(v, db', dirty, b)
    requires k.BitmapKey? || k.PairsKey? || k.TrieKey?
    ensures k.BitmapKey? ==>
              (k in db' <==> k in db || k.h.ids in dirty.Values) && (k in db' ==> db'[k] == BitmapVal(k.h.ids))
    ensures k.PairsKey? ==> (k in db' <==> k in db || k.p in dirty)
    ensures k.TrieKey? ==> (k in db' <==> k in db || k.r == b.root)
  {
    hide LedgerInv, IdSync, Overlay, Covered;
    assert Lookup(db', k) == CommitLookup(v, dirty, b, k);
    assert Lookup(v, k) == Lookup(db, k);
  }

  /** The pair index grows by exactly the non-zero slots of the new trie. */
  lemma CommitPairs(
    db: Db, v: Db, db': Db, annot: map<Pair, Hash>, dirty: map<Pair, set<uint64>>, y: Exec, b: Header)
    requires Archive(db) && BeforeCommit(db, v, annot, dirty, y) && AfterCommit(v, db', dirty, b)
    requires Covered(db, annot)
    ensures StoredPairs(db') == StoredPairs(db) + y.ledger.trie.annot.Keys
  {
    hide LedgerInv, IdSync, AfterCommit, Archive, Overlay;
    OverlaySlots(annot, dirty);
    forall p ensures p in StoredPairs(db') <==> p in StoredPairs(db) || p in y.ledger.trie.annot {
      CommitArchiveKey(db, v, db', annot, dirty, y, b, PairsKey(p));
      PairStored(db, p);
      PairStored(db', p);
    }
  }

  lemma PairStored(db: Db, p: Pair)
    ensures p in StoredPairs(db) <==> PairsKey(p) in db
  {
    if PairsKey(p) in db { assert PairsKey(p).p in StoredPairs(db); }
  }

  lemma CommitUsed(
    db: Db, v: Db, db': Db, annot: map<Pair, Hash>, dirty: map<Pair, set<uint64>>, y: Exec, b: Header)
    requires Archive(db) && BeforeCommit(db, v, annot, dirty, y) && AfterCommit(v, db', dirty, b)
    requires b.root == OfTrie(y.ledger.trie) && Grows(db, db') && TrieKey(b.root) in db'
    ensures PairsUsed(db')
  {
    hide LedgerInv, IdSync, AfterCommit, Covered, Overlay;
    OverlaySlots(annot, dirty);
    forall p | PairsKey(p) in db' ensures exists r :: TrieKey(r) in db' && p in r.trie.annot {
      CommitArchiveKey(db, v, db', annot, dirty, y, b, PairsKey(p));
      if PairsKey(p) in db {
        var r :| TrieKey(r) in db && p in r.trie.annot;
        assert TrieKey(r) in db';
      } else {
        assert p in b.root.trie.annot;
      }
    }
  }

  lemma CommitCovered(
    db: Db, v: Db, db': Db, annot: map<Pair, Hash>, dirty: map<Pair, set<uint64>>, y: Exec, b: Header,
    annot1: map<Pair, Hash>)
    requires Archive(db) && BeforeCommit(db, v, annot, dirty, y) && AfterCommit(v, db', dirty, b)
    requires Covered(db, annot)
    requires annot1 == y.ledger.trie.annot || Covered(db, annot1)
    ensures Covered(db', annot1)
  {
    hide LedgerInv, IdSync, AfterCommit, Archive;
    forall p | p in annot1
      ensures Lookup(db', BitmapKey(annot1[p])) == Some(BitmapVal(annot1[p].ids)) && PairsKey(p) in db'
    {
      CommitArchiveKey(db, v, db', annot, dirty, y, b, BitmapKey(annot1[p]));
      CommitArchiveKey(db, v, db', annot, dirty, y, b, PairsKey(p));
      if p in dirty { assert dirty[p] in dirty.Values; }
    }
  }

  lemma CommitArchive(db: Db, v: Db, db': Db, annot: map<Pair, Hash>, dirty: map<Pair, set<uint64>>, y: Exec, b: Header)
    requires Archive(db) && BeforeCommit(db, v, annot, dirty, y) && AfterCommit(v, db', dirty, b)
    requires Covered(db, annot) && b.root == OfTrie(y.ledger.trie)
    ensures Archive(db') && Grows(db, db') && TrieKey(b.root) in db'
  {
    hide IdSync, AfterCommit, Covered, Overlay, PairsUsed, LedgerInv;
    forall k | k in db && (k.BitmapKey? || k.TrieKey? || k.PairsKey?) ensures k in db' {
      CommitArchiveKey(db, v, db', annot, dirty, y, b, k);
    }
    forall h | BitmapKey(h) in db' ensures db'[BitmapKey(h)] == BitmapVal(h.ids) {
      CommitArchiveKey(db, v, db', annot, dirty, y, b, BitmapKey(h));
    }
    CommitArchiveKey(db, v, db', annot, dirty, y, b, TrieKey(b.root));
    forall r | TrieKey(r) in db' ensures Covered(db', r.trie.annot) {
      CommitArchiveKey(db, v, db', annot, dirty, y, b, TrieKey(r));
      CommitCovered(db, v, db', annot, dirty, y, b, r.trie.annot);
    }
    CommitClean(db, v, db', annot, dirty, y, b);
    CommitUsed(db, v, db', annot, dirty, y, b);
  }

  lemma CommitClean(db: Db, v: Db, db': Db, annot: map<Pair, Hash>, dirty: map<Pair, set<uint64>>, y: Exec, b: Header)
    requires Archive(db) && BeforeCommit(db, v, annot, dirty, y) && AfterCommit(v, db', dirty, b)
    ensures CleanPairs(db')
  {
    hide IdSync, AfterCommit, Covered;
    DirtyClean(annot, dirty, y);
    forall p | PairsKey(p) in db' ensures 0 !in p.key {
      CommitArchiveKey(db, v, db', annot, dirty, y, b, PairsKey(p));
    }
  }

  lemma DirtyClean(annot: map<Pair, Hash>, dirty: map<Pair, set<uint64>>, y: Exec)
    requires LedgerInv(y.ledger) && Overlay(annot, dirty) == y.ledger.trie.annot
    ensures forall p :: p in dirty ==> 0 !in p.key
  {
    hide IdsInv, IndexExact, CreatedOnce, ValidEntity;
    forall p | p in dirty ensures 0 !in p.key {
      assert p in Overlay(annot, dirty);
    }
  }

  lemma CommitIndex(
    db: Db, v: Db, db': Db, s: State, s': State, blk: Block, annot: map<Pair, Hash>, dirty: map<Pair, set<uint64>>,
    y: Exec, b: Header)
    requires BlockIndex(db, s.chain) && BeforeCommit(db, v, annot, dirty, y) && AfterCommit(v, db', dirty, b)
    requires s'.chain == s.chain + [blk] && BlockValid(s.chain, blk)
    requires b == Header(blk.number, blk.hash, blk.parentHash, RootAt(s'.chain))
    ensures BlockIndex(db', s'.chain)
  {
    hide LedgerInv, BeforeCommit, Replay, OpsValid, RootAt, AfterCommit, InChain;
    var c := s'.chain;
    ChainGrows(s.chain, blk);
    forall i {:trigger c[i]} | 0 <= i < |c|
      ensures Lookup(db', RootKey(c[i].hash)) == Some(RootVal(RootAt(c[..i + 1])))
      ensures Lookup(db', ParentKey(c[i].hash)) == Some(BlockHashVal(c[i].parentHash))
      ensures Lookup(db', BlockNumberKey(c[i].number)) == Some(BlockHashVal(c[i].hash))
      ensures c[i].number == i + 1
    {
      CommitIndexKey(db, v, db', annot, dirty, y, b, RootKey(c[i].hash));
      CommitIndexKey(db, v, db', annot, dirty, y, b, ParentKey(c[i].hash));
      CommitIndexKey(db, v, db', annot, dirty, y, b, BlockNumberKey(c[i].number));
      if i < |s.chain| { assert c[i] == s.chain[i]; }
    }
    forall h | RootKey(h) in db' ensures InChain(c, h) {
      CommitIndexKey(db, v, db', annot, dirty, y, b, RootKey(h));
    }
    forall h | ParentKey(h) in db' ensures InChain(c, h) {
      CommitIndexKey(db, v, db', annot, dirty, y, b, ParentKey(h));
    }
    forall n: uint64 | BlockNumberKey(n) in db' ensures 1 <= n <= |c| {
      CommitIndexKey(db, v, db', annot, dirty, y, b, BlockNumberKey(n));
    }
  }

  lemma ChainGrows(chain: seq<Block>, blk: Block)
    ensures forall i :: 0 <= i <= |chain| ==> (chain + [blk])[..i] == chain[..i]
    ensures (chain + [blk])[..|chain| + 1] == chain + [blk]
    ensures forall h :: InChain(chain + [blk], h) <==> InChain(chain, h) || h == blk.hash
  {
    forall h ensures InChain(chain + [blk], h) <==> InChain(chain, h) || h == blk.hash {
      assert (chain + [blk])[|chain|] == blk;
      if InChain(chain, h) {
        var i :| 0 <= i < |chain| && chain[i].hash == h;
        assert (chain + [blk])[i].hash == h;
      }
    }
  }

  lemma CommitIndexKey(
    db: Db, v: Db, db': Db, annot: map<Pair, Hash>, dirty: map<Pair, set<uint64>>, y: Exec, b: Header, k: DbKey)
    requires BeforeCommit(db, v, annot, dirty, y) && AfterCommit(v, db', dirty, b)
    requires k.RootKey? || k.ParentKey? || k.BlockNumberKey?
    ensures Lookup(db', k) == if k == RootKey(b.hash) then Some(RootVal(b.root))
                              else if k == ParentKey(b.hash) then Some(BlockHashVal(b.parent))
                              else if k == BlockNumberKey(b.number) then Some(BlockHashVal(b.hash))
                              else Lookup(db, k)
  {
    hide LedgerInv, IdSync, Overlay;
    assert Lookup(db', k) == CommitLookup(v, dirty, b, k);
    assert Lookup(v, k) == Lookup(db, k);
  }

  /** A successful commit takes the disk from one canonical chain to the next. */
  lemma CommitKeepsDisk(db: Db, v: Db, db': Db, s: State, blk: Block, dirty: map<Pair, set<uint64>>, y: Exec)
    requires DiskInv(db, s) && BlockValid(s.chain, blk) && ExecBlock(ExecOf(s), blk) == Ok(y)
    requires BeforeCommit(db, v, Replay(s.chain).trie.annot, dirty, y)
    requires AfterCommit(v, db', dirty, Header(blk.number, blk.hash, blk.parentHash, OfTrie(y.ledger.trie)))
    ensures DiskInv(db', CommitStep(s, blk)) && Grows(db, db')
    ensures StoredPairs(db') == StoredPairs(db) + y.ledger.trie.annot.Keys
    ensures HeadOf(db') == Head(blk.number, blk.hash, OfTrie(y.ledger.trie))
  {
    hide AnnotSync, IdSync, Covered, Archive, BlockIndex, LedgerInv, BeforeCommit, AfterCommit, Replay, Inv,
         BlockValid, ExecBlock, TriesKept, HeadInv, Grows, StoredPairs;
    var annot := Replay(s.chain).trie.annot;
    var s' := CommitStep(s, blk);
    CommitFacts(s, blk);
    var b := Header(blk.number, blk.hash, blk.parentHash, OfTrie(y.ledger.trie));
    assert b.root == RootAt(s'.chain);
    HeadCovered(db, s.chain, |s.chain|);
    assert s.chain[..|s.chain|] == s.chain;
    CommitAnnot(db, v, db', annot, dirty, y, b);
    CommitIds(db, v, db', annot, dirty, y, b);
    CommitArchive(db, v, db', annot, dirty, y, b);
    CommitPairs(db, v, db', annot, dirty, y, b);
    CommitIndex(db, v, db', s, s', blk, annot, dirty, y, b);
    CommitTries(db, db', s.chain, blk);
    CommitHead(v, db', dirty, b, s, blk);
  }

  lemma CommitTries(db: Db, db': Db, chain: seq<Block>, blk: Block)
    requires TriesKept(db, chain) && Grows(db, db') && TrieKey(RootAt(chain + [blk])) in db'
    ensures TriesKept(db', chain + [blk])
  {
    hide RootAt, InChain;
    ChainGrows(chain, blk);
    var grown := chain + [blk];
    forall k | 1 <= k <= |grown| ensures TrieKey(RootAt(grown[..k])) in db' {
      if k <= |chain| {
        assert grown[..k] == chain[..k];
      } else {
        assert grown[..k] == grown;
      }
    }
  }

  lemma CommitHead(v: Db, db': Db, dirty: map<Pair, set<uint64>>, b: Header, s: State, blk: Block)
    requires AfterCommit(v, db', dirty, b) && BlockValid(s.chain, blk)
    requires b == Header(blk.number, blk.hash, blk.parentHash, RootAt(s.chain + [blk]))
    ensures HeadInv(db', s.chain + [blk]) && HeadOf(db') == Head(b.number, b.hash, b.root)
  {
    hide RootAt, OpsValid, Replay;
    assert Lookup(db', HeadKey) == CommitLookup(v, dirty, b, HeadKey);
  }

  // ---------- Revert ----------

  ghost function GoneHashes(chain: seq<Block>, k: nat): set<Hash32> {
    set i | k <= i < |chain| :: chain[i].hash
  }

  ghost function GoneNumbers(chain: seq<Block>, k: nat): set<uint64> {
    set i | k <= i < |chain| :: chain[i].number
  }

  ghost function FullProgress(db: Db, chain: seq<Block>, k: nat): Progress {
    Progress(StoredPairs(db), StoredIds(db), GoneHashes(chain, k), GoneNumbers(chain, k))
  }

  /** The disk after reverting to the first k blocks. */
  ghost predicate AfterRevert(db: Db, db': Db, s: State, k: nat, hash: Hash32)
    requires k <= |s.chain| < TWO64
  {
    forall x :: Lookup(db', x) ==
      if x == HeadKey then Some(HeadVal(k, hash, RootAt(s.chain[..k])))
      else RevertLookup(db, Replay(s.chain[..k]).trie, FullProgress(db, s.chain, k), x)
  }

  lemma RevertAnnot(db: Db, db': Db, s: State, k: nat, hash: Hash32)
    requires k <= |s.chain| < TWO64 && AfterRevert(db, db', s, k, hash)
    requires AnnotSync(db, Replay(s.chain).trie.annot)
    requires Covered(db, Replay(s.chain).trie.annot) && Covered(db, Replay(s.chain[..k]).trie.annot)
    ensures AnnotSync(db', Replay(s.chain[..k]).trie.annot)
  {
    hide Replay, RootAt, GoneHashes, GoneNumbers, StoredIds;
    var annot := Replay(s.chain[..k]).trie.annot;
    forall p ensures Lookup(db', AnnotKey(p)) == if p in annot then Some(HashVal(annot[p])) else None {
      assert Lookup(db', AnnotKey(p)) ==
             RevertLookup(db, Replay(s.chain[..k]).trie, FullProgress(db, s.chain, k), AnnotKey(p));
      if PairsKey(p) in db { assert PairsKey(p).p in StoredPairs(db); }
    }
  }

  lemma RevertIds(db: Db, db': Db, s: State, k: nat, hash: Hash32)
    requires k <= |s.chain| < TWO64 && AfterRevert(db, db', s, k, hash) && IdSync(db, s.cache)
    ensures IdSync(db', Kept(s.cache, LiveIds(s.chain[..k])))
  {
    hide Replay, RootAt, GoneHashes, GoneNumbers, StoredPairs, AfterRevert;
    var t, pr := Replay(s.chain[..k]).trie, FullProgress(db, s.chain, k);
    forall id ensures id in pr.ids <==> id in s.cache {
      assert Lookup(db, IdKey(id)) == if id in s.cache then Some(AddressVal(s.cache[id])) else None;
      if id in s.cache { assert IdKey(id) in db && IdKey(id).IdKey? && IdKey(id).id == id; }
    }
    forall id ensures Lookup(db', IdKey(id)) == RevertLookup(db, t, pr, IdKey(id)) {
      RevertAt(db, db', s, k, hash, IdKey(id));
    }
    forall a ensures Lookup(db', AddrKey(a)) == RevertLookup(db, t, pr, AddrKey(a)) {
      RevertAt(db, db', s, k, hash, AddrKey(a));
    }
    KeptSync(db, db', s.cache, t, pr);
  }

  lemma RevertAt(db: Db, db': Db, s: State, k: nat, hash: Hash32, x: DbKey)
    requires k <= |s.chain| < TWO64 && AfterRevert(db, db', s, k, hash) && x != HeadKey
    ensures Lookup(db', x) == RevertLookup(db, Replay(s.chain[..k]).trie, FullProgress(db, s.chain, k), x)
  {
    hide Replay, RootAt, GoneHashes, GoneNumbers, StoredPairs, StoredIds, RevertLookup;
  }

  lemma KeptSync(db: Db, db': Db, cache: Cache, t: Trie, pr: Progress)
    requires IdSync(db, cache) && forall id :: id in pr.ids <==> id in cache
    requires forall id :: Lookup(db', IdKey(id)) == RevertLookup(db, t, pr, IdKey(id))
    requires forall a :: Lookup(db', AddrKey(a)) == RevertLookup(db, t, pr, AddrKey(a))
    ensures IdSync(db', Kept(cache, t.ids.Keys))
  {
    var kept := Kept(cache, t.ids.Keys);
    forall a | AddrKey(a) in db'
      ensures db'[AddrKey(a)].IdVal? && db'[AddrKey(a)].id in kept && kept[db'[AddrKey(a)].id] == a
    {
      KeptAddress(db, db', cache, t, pr, a);
    }
    forall id | id in kept ensures Lookup(db', AddrKey(kept[id])) == Some(IdVal(id)) {
      assert Lookup(db, AddrKey(cache[id])) == Some(IdVal(id));
    }
  }

  lemma KeptAddress(db: Db, db': Db, cache: Cache, t: Trie, pr: Progress, a: Address)
    requires IdSync(db, cache) && forall id :: id in pr.ids <==> id in cache
    requires Lookup(db', AddrKey(a)) == RevertLookup(db, t, pr, AddrKey(a)) && AddrKey(a) in db'
    ensures var v, kept := db'[AddrKey(a)], Kept(cache, t.ids.Keys);
            v.IdVal? && v.id in kept && kept[v.id] == a
  {
  }

  lemma RevertArchive(db: Db, db': Db, s: State, k: nat, hash: Hash32)
    requires k <= |s.chain| < TWO64 && AfterRevert(db, db', s, k, hash) && Archive(db)
    ensures Archive(db') && Grows(db, db') && StoredPairs(db') == StoredPairs(db)
    ensures forall r :: TrieKey(r) in db ==> TrieKey(r) in db'
  {
    hide Replay, RootAt, GoneHashes, GoneNumbers, StoredPairs, StoredIds, AfterRevert, FullProgress, Archive, Grows;
    forall x: DbKey | x.BitmapKey? || x.TrieKey? || x.PairsKey?
      ensures Lookup(db', x) == Lookup(db, x)
    {
      RevertAt(db, db', s, k, hash, x);
    }
    ArchiveTransfer(db, db');
  }

  lemma ArchiveTransfer(db: Db, db': Db)
    requires Archive(db)
    requires forall x: DbKey :: x.BitmapKey? || x.TrieKey? || x.PairsKey? ==> Lookup(db', x) == Lookup(db, x)
    ensures Archive(db') && Grows(db, db') && StoredPairs(db') == StoredPairs(db)
    ensures forall r :: TrieKey(r) in db ==> TrieKey(r) in db'
  {
    hide Covered, StoredPairs;
    forall x | x in db && (x.BitmapKey? || x.TrieKey? || x.PairsKey?) ensures x in db' {
      assert Lookup(db', x) == Lookup(db, x);
    }
    forall x | x in db' && (x.BitmapKey? || x.TrieKey? || x.PairsKey?) ensures x in db && db[x] == db'[x] {
      assert Lookup(db', x) == Lookup(db, x);
    }
    forall r | TrieKey(r) in db' ensures Covered(db', r.trie.annot) { CoveredTransfer(db, db', r.trie.annot); }
    forall p ensures p in StoredPairs(db') <==> p in StoredPairs(db) {
      PairStored(db, p);
      PairStored(db', p);
    }
  }

  lemma CoveredTransfer(db: Db, db': Db, annot: map<Pair, Hash>)
    requires Covered(db, annot)
    requires forall x: DbKey :: x.BitmapKey? || x.PairsKey? ==> Lookup(db', x) == Lookup(db, x)
    ensures Covered(db', annot)
  {
    forall p | p in annot
      ensures Lookup(db', BitmapKey(annot[p])) == Some(BitmapVal(annot[p].ids)) && PairsKey(p) in db'
    {
      assert Lookup(db', PairsKey(p)) == Lookup(db, PairsKey(p));
    }
  }

  /** Canonical blocks are linked, have distinct hashes, and the genesis hash is none of them. */
  ghost predicate Linked(chain: seq<Block>) {
    && (forall i, j :: 0 <= i < j < |chain| ==> chain[i].hash != chain[j].hash)
    && (forall i, j :: 0 <= i && j == i + 1 && j < |chain| ==> chain[j].parentHash == chain[i].hash)
    && (forall i :: 0 <= i < |chain| ==> chain[0].parentHash != chain[i].hash)
  }

  lemma {:induction false} ChainLinked(chain: seq<Block>)
    requires ChainOk(chain)
    ensures Linked(chain)
  {
    hide BlockValid, ApplyBlock, Linked;
    if chain == [] {
      NothingLinked(chain);
    } else {
      var init, b := chain[..|chain| - 1], chain[|chain| - 1];
      ChainLinked(init);
      LinkNext(init, b);
      assert init + [b] == chain;
    }
  }

  lemma NothingLinked(chain: seq<Block>)
    requires chain == []
    ensures Linked(chain)
  {
  }

  lemma LinkNext(chain: seq<Block>, b: Block)
    requires Linked(chain) && BlockValid(chain, b)
    ensures Linked(chain + [b])
  {
    hide OpsValid, Replay;
  }

  /** The root the store finds for the parent of block k is the state of the first k blocks. */
  lemma ParentRoot(db: Db, chain: seq<Block>, k: nat)
    requires Linked(chain) && BlockIndex(db, chain) && k < |chain|
    ensures Lookup(db, ParentKey(chain[k].hash)) == Some(BlockHashVal(chain[k].parentHash))
    ensures k == 0 ==> RootKey(chain[k].parentHash) !in db && RootAt(chain[..k]) == EMPTY_ROOT
    ensures k > 0 ==> Lookup(db, RootKey(chain[k].parentHash)) == Some(RootVal(RootAt(chain[..k])))
    ensures k > 0 ==> chain[k].parentHash == chain[k - 1].hash
  {
    hide RootAt;
    if k == 0 {
      assert chain[..0] == [];
      GenesisRoot();
    } else {
      assert chain[k].parentHash == chain[k - 1].hash;
    }
  }

  /** A block that stays keeps its three index entries. */
  lemma RevertIndexAt(db: Db, db': Db, s: State, k: nat, hash: Hash32, i: nat)
    requires i < k <= |s.chain| < TWO64 && AfterRevert(db, db', s, k, hash)
    requires BlockIndex(db, s.chain) && Linked(s.chain)
    ensures Lookup(db', RootKey(s.chain[i].hash)) == Some(RootVal(RootAt(s.chain[..i + 1])))
    ensures Lookup(db', ParentKey(s.chain[i].hash)) == Some(BlockHashVal(s.chain[i].parentHash))
    ensures Lookup(db', BlockNumberKey(s.chain[i].number)) == Some(BlockHashVal(s.chain[i].hash))
  {
    hide Replay, RootAt, StoredPairs, StoredIds, AfterRevert, InChain;
    RevertAt(db, db', s, k, hash, RootKey(s.chain[i].hash));
    RevertAt(db, db', s, k, hash, ParentKey(s.chain[i].hash));
    RevertAt(db, db', s, k, hash, BlockNumberKey(s.chain[i].number));
  }

  lemma RevertIndex(db: Db, db': Db, s: State, k: nat, hash: Hash32)
    requires k <= |s.chain| < TWO64 && AfterRevert(db, db', s, k, hash)
    requires BlockIndex(db, s.chain) && Linked(s.chain)
    ensures BlockIndex(db', s.chain[..k])
  {
    hide Replay, RootAt, StoredPairs, StoredIds, AfterRevert, InChain, Linked, GoneHashes, GoneNumbers;
    var chain, c := s.chain, s.chain[..k];
    forall i {:trigger c[i]} | 0 <= i < k
      ensures Lookup(db', RootKey(c[i].hash)) == Some(RootVal(RootAt(c[..i + 1])))
      ensures Lookup(db', ParentKey(c[i].hash)) == Some(BlockHashVal(c[i].parentHash))
      ensures Lookup(db', BlockNumberKey(c[i].number)) == Some(BlockHashVal(c[i].hash))
      ensures c[i].number == i + 1
    {
      assert c[i] == chain[i] && c[..i + 1] == chain[..i + 1];
      RevertIndexAt(db, db', s, k, hash, i);
    }
    forall h | RootKey(h) in db' ensures InChain(c, h) {
      RevertAt(db, db', s, k, hash, RootKey(h));
      KeptHash(chain, k, h);
    }
    forall h | ParentKey(h) in db' ensures InChain(c, h) {
      RevertAt(db, db', s, k, hash, ParentKey(h));
      KeptHash(chain, k, h);
    }
    forall n: uint64 | BlockNumberKey(n) in db' ensures 1 <= n <= k {
      RevertAt(db, db', s, k, hash, BlockNumberKey(n));
      GoneNumber(chain, k, n);
    }
  }

  lemma GoneNumber(chain: seq<Block>, k: nat, n: uint64)
    requires forall i :: 0 <= i < |chain| ==> chain[i].number == i + 1
    ensures n in GoneNumbers(chain, k) <==> k < n <= |chain|
  {
    if k < n <= |chain| { assert chain[n - 1].number == n; }
  }

  lemma KeptHash(chain: seq<Block>, k: nat, h: Hash32)
    requires k <= |chain| && InChain(chain, h) && h !in GoneHashes(chain, k)
    ensures InChain(chain[..k], h)
  {
    var i :| 0 <= i < |chain| && chain[i].hash == h;
    assert i < k;
    assert chain[..k][i].hash == h;
  }

  lemma RevertHead(db: Db, db': Db, s: State, k: nat)
    requires k < |s.chain| < TWO64 && AfterRevert(db, db', s, k, s.chain[k].parentHash) && Linked(s.chain)
    ensures HeadInv(db', s.chain[..k])
    ensures HeadOf(db') == Head(k, s.chain[k].parentHash, RootAt(s.chain[..k]))
  {
    hide Replay, RootAt, RevertLookup, FullProgress;
    assert Lookup(db', HeadKey) == Some(HeadVal(k, s.chain[k].parentHash, RootAt(s.chain[..k])));
    if k > 0 { assert s.chain[k].parentHash == s.chain[k - 1].hash; }
  }

  lemma RevertTries(db: Db, db': Db, chain: seq<Block>, k: nat)
    requires k <= |chain| && TriesKept(db, chain) && forall r :: TrieKey(r) in db ==> TrieKey(r) in db'
    ensures TriesKept(db', chain[..k])
  {
    hide RootAt;
    forall i | 1 <= i <= k ensures TrieKey(RootAt(chain[..k][..i])) in db' {
      assert chain[..k][..i] == chain[..i];
    }
  }

  /** The revert batch takes the disk back to the state of the ancestor. */
  lemma RevertKeepsDisk(db: Db, db': Db, s: State, d: nat)
    requires DiskInv(db, s) && 1 <= d <= |s.chain| < TWO64
    requires AfterRevert(db, db', s, |s.chain| - d, s.chain[|s.chain| - d].parentHash)
    ensures DiskInv(db', RevertStep(s, d)) && Grows(db, db') && StoredPairs(db') == StoredPairs(db)
    ensures var k := |s.chain| - d; HeadOf(db') == Head(k, s.chain[k].parentHash, RootAt(s.chain[..k]))
  {
    hide AnnotSync, IdSync, Covered, Archive, BlockIndex, AfterRevert, Replay, Inv, TriesKept, HeadInv, Grows,
         Linked, ChainOk, CacheSound;
    var k := |s.chain| - d;
    var hash := s.chain[k].parentHash;
    RevertFacts(s, d);
    InvChain(s);
    ChainLinked(s.chain);
    HeadCovered(db, s.chain, k);
    HeadCovered(db, s.chain, |s.chain|);
    assert s.chain[..|s.chain|] == s.chain;
    RevertAnnot(db, db', s, k, hash);
    RevertIds(db, db', s, k, hash);
    RevertArchive(db, db', s, k, hash);
    RevertIndex(db, db', s, k, hash);
    RevertHead(db, db', s, k);
    RevertTries(db, db', s.chain, k);
  }

  // ---------- Stores on the same chain ----------

  /**
   * Whatever happened before, two databases with the same canonical chain have the same pointers, the same block index
   * and the same head number and root. They have the same head hash if the chain is not empty; for the empty chain see
   * `EmptyChainAnyHash` and `HeadHashAlong`.
   */
  lemma SameChainSameIndex(db: Db, s: State, db': Db, s': State, p: Pair)
    requires DiskInv(db, s) && DiskInv(db', s') && s.chain == s'.chain
    ensures HeadOf(db).number == HeadOf(db').number && HeadOf(db).root == HeadOf(db').root
    ensures s.chain != [] ==> HeadOf(db).hash == HeadOf(db').hash
    ensures Lookup(db, AnnotKey(p)) == Lookup(db', AnnotKey(p))
    ensures forall h :: Lookup(db, RootKey(h)) == Lookup(db', RootKey(h))
    ensures forall h :: Lookup(db, ParentKey(h)) == Lookup(db', ParentKey(h))
    ensures forall n: uint64 :: Lookup(db, BlockNumberKey(n)) == Lookup(db', BlockNumberKey(n))
  {
    hide Replay, Inv, Archive, TriesKept, IdSync, BlockIndex, AnnotSync;
    SameSlots(db, db', Replay(s.chain).trie.annot, p);
    SameBlocks(db, db', s.chain);
  }

  lemma SameSlots(db: Db, db': Db, annot: map<Pair, Hash>, p: Pair)
    requires AnnotSync(db, annot) && AnnotSync(db', annot)
    ensures Lookup(db, AnnotKey(p)) == Lookup(db', AnnotKey(p))
  {
  }

  lemma SameBlocks(db: Db, db': Db, chain: seq<Block>)
    requires BlockIndex(db, chain) && BlockIndex(db', chain)
    ensures forall h :: Lookup(db, RootKey(h)) == Lookup(db', RootKey(h))
    ensures forall h :: Lookup(db, ParentKey(h)) == Lookup(db', ParentKey(h))
    ensures forall n: uint64 :: Lookup(db, BlockNumberKey(n)) == Lookup(db', BlockNumberKey(n))
  {
    hide RootAt;
    forall h
      ensures Lookup(db, RootKey(h)) == Lookup(db', RootKey(h)) && Lookup(db, ParentKey(h)) == Lookup(db', ParentKey(h))
    {
      if InChain(chain, h) {
        var i :| 0 <= i < |chain| && chain[i].hash == h;
      }
    }
    forall n: uint64 ensures Lookup(db, BlockNumberKey(n)) == Lookup(db', BlockNumberKey(n)) {
      if 1 <= n <= |chain| { assert chain[n - 1].number == n; }
    }
  }

  /**
   * After any commits, failures, reverts and reorgs, the head, the pointers and the block index are those of an empty
   * store that was fed the canonical chain; on the empty chain this leaves the head hash open.
   */
  lemma SameAsFreshStore(db: Db, s: State, db': Db, p: Pair)
    requires DiskInv(db, s) && DiskInv(db', CommitAll(INITIAL, s.chain))
    ensures HeadOf(db).number == HeadOf(db').number && HeadOf(db).root == HeadOf(db').root
    ensures s.chain != [] ==> HeadOf(db).hash == HeadOf(db').hash
    ensures Lookup(db, AnnotKey(p)) == Lookup(db', AnnotKey(p))
    ensures forall h :: Lookup(db, RootKey(h)) == Lookup(db', RootKey(h))
    ensures forall h :: Lookup(db, ParentKey(h)) == Lookup(db', ParentKey(h))
    ensures forall n: uint64 :: Lookup(db, BlockNumberKey(n)) == Lookup(db', BlockNumberKey(n))
  {
    hide HeadInv, BlockIndex, Archive, TriesKept, AnnotSync, IdSync, ChainOk, CacheSound, CommitAll;
    InvChain(s);
    FreshReplay(s.chain);
    SameChainSameIndex(db, s, db', CommitAll(INITIAL, s.chain), p);
  }

  /** On the empty chain the head record may carry any hash; `EmptiedHead` reaches each. */
  lemma EmptyChainAnyHash(h: Hash32)
    ensures DiskInv(map[HeadKey := HeadVal(0, h, EMPTY_ROOT)], INITIAL)
    ensures HeadOf(map[HeadKey := HeadVal(0, h, EMPTY_ROOT)]) == Head(0, h, EMPTY_ROOT)
    ensures HeadOf(map[]) == Head(0, ZERO_HASH, EMPTY_ROOT)
  {
    InitialInv();
  }

  /** The head hash of a store along a run. */
  ghost function HeadHash(ss: seq<State>, es: seq<Event>, n: nat): Hash32
    requires IsRun(ss, es) && n < |ss|
  {
    if n == 0 then ZERO_HASH
    else
      match es[n - 1]
      case Commit(b) => if Committed(ss[n - 1], b) then b.hash else HeadHash(ss, es, n - 1)
      case Revert(d) =>
        assert EventValid(ss[n - 1], es[n - 1]);
        ss[n - 1].chain[|ss[n - 1].chain| - d].parentHash
  }

  /** Step m of the run reverted every block, and the first of them had this parent. */
  ghost predicate Emptied(ss: seq<State>, es: seq<Event>, m: nat, h: Hash32)
    requires |ss| == |es| + 1
  {
    && 1 <= m < |ss| && es[m - 1].Revert? && ss[m - 1].chain != [] && ss[m].chain == []
    && h == ss[m - 1].chain[0].parentHash
  }

  predicate NoReverts(es: seq<Event>) { forall i :: 0 <= i < |es| ==> !es[i].Revert? }

  lemma NoRevertsNext(es: seq<Event>, m: nat, n: nat)
    requires m < n <= |es| && NoReverts(es[m..n - 1]) && !es[n - 1].Revert?
    ensures NoReverts(es[m..n])
  {
    assert es[m..n] == es[m..n - 1] + [es[n - 1]];
  }

  /**
   * Along every run, the head hash is that of the last block; on the empty chain it is zero if no block was ever
   * reverted, and otherwise the parent hash of the first block that the last revert took away.
   */
  lemma {:induction false} HeadHashAlong(ss: seq<State>, es: seq<Event>, n: nat)
    requires IsRun(ss, es) && n < |ss| && |ss| == |es| + 1
    ensures var chain, h := ss[n].chain, HeadHash(ss, es, n);
            && (chain != [] ==> h == chain[|chain| - 1].hash)
            && (chain == [] ==>
                  || (h == ZERO_HASH && NoReverts(es[..n]))
                  || (exists m: nat :: m <= n && Emptied(ss, es, m, h) && NoReverts(es[m..n])))
  {
    hide Inv, IsRun, ExecBlock, BlockValid, LiveIds, Linked, CommitStep, Committed, HeadHash;
    StartsEmpty(ss, es);
    if n == 0 {
      HeadHashStart(ss, es);
    } else {
      HeadHashAlong(ss, es, n - 1);
      RunStep(ss, es, n);
      var s, h := ss[n - 1], HeadHash(ss, es, n);
      HeadHashStep(ss, es, n);
      match es[n - 1] {
        case Commit(b) =>
          if Committed(s, b) {
            CommitFacts(s, b);
          } else {
            CommitFails(s, b);
            if s.chain == [] { StaysEmpty(ss, es, n, h); }
          }
        case Revert(d) =>
          RevertLink(s, d);
          if ss[n].chain == [] { assert Emptied(ss, es, n, h) && NoReverts(es[n..n]); }
      }
    }
  }

  /** A block that fails on the empty chain leaves the history of its head hash. */
  lemma StaysEmpty(ss: seq<State>, es: seq<Event>, n: nat, h: Hash32)
    requires |ss| == |es| + 1 && 1 <= n < |ss| && !es[n - 1].Revert?
    requires || (h == ZERO_HASH && NoReverts(es[..n - 1]))
             || (exists m: nat :: m <= n - 1 && Emptied(ss, es, m, h) && NoReverts(es[m..n - 1]))
    ensures || (h == ZERO_HASH && NoReverts(es[..n]))
            || (exists m: nat :: m <= n && Emptied(ss, es, m, h) && NoReverts(es[m..n]))
  {
    hide NoReverts, Emptied;
    if NoReverts(es[..n - 1]) {
      assert es[0..n - 1] == es[..n - 1] && es[0..n] == es[..n];
      NoRevertsNext(es, 0, n);
    }
    if m: nat :| m <= n - 1 && Emptied(ss, es, m, h) && NoReverts(es[m..n - 1]) {
      NoRevertsNext(es, m, n);
    }
  }

  lemma HeadHashStart(ss: seq<State>, es: seq<Event>)
    requires IsRun(ss, es)
    ensures HeadHash(ss, es, 0) == ZERO_HASH
  {
  }

  lemma HeadHashStep(ss: seq<State>, es: seq<Event>, n: nat)
    requires IsRun(ss, es) && 1 <= n < |ss| && |ss| == |es| + 1
    ensures EventValid(ss[n - 1], es[n - 1])
    ensures HeadHash(ss, es, n) ==
            match es[n - 1]
            case Commit(b) => if Committed(ss[n - 1], b) then b.hash else HeadHash(ss, es, n - 1)
            case Revert(d) => ss[n - 1].chain[|ss[n - 1].chain| - d].parentHash
  {
    hide Committed, EventValid;
  }

  lemma RevertLink(s: State, d: nat)
    requires Inv(s) && 1 <= d <= |s.chain|
    ensures var k := |s.chain| - d;
            && RevertStep(s, d).chain == s.chain[..k]
            && (k > 0 ==> s.chain[k].parentHash == s.chain[k - 1].hash)
  {
    hide ChainOk, CacheSound, Replay;
    InvChain(s);
    ChainLinked(s.chain);
  }

  /** Commit one empty block and revert it: the state is that of a new store, the head hash is the block's parent. */
  lemma EmptiedHead(hash: Hash32, parent: Hash32) returns (ss: seq<State>, es: seq<Event>)
    requires hash != parent
    ensures IsRun(ss, es) && |ss| == 3 && ss[2] == INITIAL && HeadHash(ss, es, 2) == parent
  {
    hide HeadHash, CommitStep;
    var b := Block(1, hash, parent, []);
    es := [Commit(b), Revert(1)];
    ss := [INITIAL, State([b], map[]), INITIAL];
    OneEmptyBlock(b);
    assert IsRun(ss, es);
    HeadHashStep(ss, es, 2);
  }

  lemma OneEmptyBlock(b: Block)
    requires b == Block(1, b.hash, b.parentHash, []) && b.hash != b.parentHash
    ensures BlockValid([], b) && CommitStep(INITIAL, b) == State([b], map[])
    ensures RevertStep(State([b], map[]), 1) == INITIAL
  {
    hide LiveIds;
    EmptyBlockApplies(GENESIS, b);
    EmptyBlockExecutes(ExecOf(INITIAL), b);
    assert [b][..0] == [];
  }

  lemma EmptyBlockExecutes(x: Exec, b: Block)
    requires b.txs == []
    ensures ExecBlock(x, b) == Ok(x.(ledger := Start(x.ledger)))
  {
  }
}
