/** The block store: one writer, whole blocks or nothing. */
module Stores {
  import opened Bytes
  import opened Wrappers
  import opened Entities
  import opened Ledger
  import opened Chain
  import opened Machine
  import opened Keys
  import opened Database
  import opened CacheStores
  import opened Revert
  import opened Disk

  datatype BlockRef = BlockRef(number: uint64, hash: Hash32)

  /** The references name the last blocks of the chain, newest first. */
  ghost predicate NewestFirst(chain: seq<Block>, refs: seq<BlockRef>) {
    && |refs| <= |chain|
    && forall j :: 0 <= j < |refs| ==>
         refs[j] == BlockRef(chain[|chain| - 1 - j].number, chain[|chain| - 1 - j].hash)
  }

  // ---------- Running the operations of a block ----------

  lemma {:induction false} ExecOpsStops(x: Exec, n: uint64, ops: seq<Op>, i: nat)
    requires i <= |ops| && ExecOps(x, n, ops[..i]).Err?
    ensures ExecOps(x, n, ops) == ExecOps(x, n, ops[..i])
  {
    hide ExecOp;
    if i == |ops| {
      assert ops[..i] == ops;
    } else {
      var init := ops[..|ops| - 1];
      assert init[..i] == ops[..i];
      ExecOpsStops(x, n, init, i);
    }
  }

  lemma {:induction false} OpsValidAt(l: Ledger, n: uint64, ops: seq<Op>, i: nat)
    requires OpsValid(l, n, ops) && i < |ops| && ApplyOps(l, n, ops[..i]).Ok?
    ensures OpsValid(l, n, ops[..i]) && OpValid(ApplyOps(l, n, ops[..i]).value, ops[i])
  {
    hide ApplyOp, OpValid;
    if i < |ops| - 1 {
      var init := ops[..|ops| - 1];
      assert init[..i] == ops[..i];
      OpsValidAt(l, n, init, i);
    }
  }

  /** What the next operation of a running block may rely on, and what running it gives. */
  lemma NextOp(x: Exec, n: uint64, ops: seq<Op>, i: nat, y: Exec)
    requires LedgerInv(x.ledger) && CacheSound(x) && OpsValid(x.ledger, n, ops)
    requires i < |ops| && ExecOps(x, n, ops[..i]) == Ok(y)
    ensures OpValid(y.ledger, ops[i])
    ensures ExecOps(x, n, ops[..i + 1]) == ExecOp(y, n, ops[i])
    ensures ExecOp(y, n, ops[i]).Err? ==> ExecOps(x, n, ops) == ExecOp(y, n, ops[i])
  {
    hide ApplyOp, OpValid, ExecOp, LedgerInv, CacheSound, OpsValid, ApplyOps;
    assert ops[..i + 1][..i] == ops[..i];
    OpsValidPrefix(x.ledger, n, ops, i);
    ExecOpsCache(x, n, ops[..i]);
    OpsValidAt(x.ledger, n, ops, i);
    if ExecOp(y, n, ops[i]).Err? {
      ExecOpsStops(x, n, ops, i + 1);
    }
  }

  lemma {:induction false} OpsValidPrefix(l: Ledger, n: uint64, ops: seq<Op>, i: nat)
    requires OpsValid(l, n, ops) && i <= |ops|
    ensures OpsValid(l, n, ops[..i])
  {
    hide ApplyOp, OpValid, ApplyOps;
    if i == |ops| {
      assert ops[..i] == ops;
    } else {
      assert ops[..|ops| - 1][..i] == ops[..i];
      OpsValidPrefix(l, n, ops[..|ops| - 1], i);
    }
  }

  lemma {:induction false} BlockOpsPrefix(txs: seq<Tx>, i: nat)
    requires i < |txs|
    ensures BlockOps(txs[..i + 1]) == BlockOps(txs[..i]) + InjectAll(txs[i], txs[i].ops)
    ensures BlockOps(txs[..i + 1]) <= BlockOps(txs)
    decreases |txs|
  {
    hide InjectAll;
    assert txs[..i + 1][..i] == txs[..i];
    if i + 1 == |txs| {
      assert txs[..i + 1] == txs;
    } else {
      var init := txs[..|txs| - 1];
      assert init[..i + 1] == txs[..i + 1] && init[..i] == txs[..i];
      BlockOpsPrefix(init, i);
    }
  }

  /** A buffer that has run the first operations of a block from x; the disk is as it was. */
  ghost predicate Running(cs: CacheStore, x: Exec, n: uint64, done: seq<Op>)
    reads cs, cs.stagingDB, cs.stagingDB.disk, cs.stateDB
  {
    cs.Valid() && cs.blockNumber == n && ExecOps(x, n, done) == Ok(cs.exec)
  }

  /** Runs one transaction; stops at the first operation that fails. */
  method RunTx(cs: CacheStore, tx: Tx, ghost x: Exec, ghost all: seq<Op>, ghost before: seq<Op>) returns (r: Result<()>)
    requires LedgerInv(x.ledger) && CacheSound(x) && OpsValid(x.ledger, cs.blockNumber, all)
    requires before + InjectAll(tx, tx.ops) <= all
    requires Running(cs, x, cs.blockNumber, before)
    modifies cs, cs.stagingDB, cs.stateDB
    ensures r.Ok? ==> Running(cs, x, cs.blockNumber, before + InjectAll(tx, tx.ops))
    ensures r.Err? ==> ExecOps(x, cs.blockNumber, all) == Err(r.error)
  {
    hide LedgerInv, CacheSound, OpsValid, ExecOps, ExecOp, OpValid, CacheStore.Valid;
    ghost var ops := InjectAll(tx, tx.ops);
    var i := 0;
    assert before + ops[..0] == before;
    while i < |tx.ops|
      invariant 0 <= i <= |tx.ops|
      invariant Running(cs, x, cs.blockNumber, before + ops[..i])
    {
      ghost var k := |before| + i;
      assert all[..k] == before + ops[..i] && all[k] == ops[i];
      assert all[..k + 1] == before + ops[..i + 1];
      NextOp(x, cs.blockNumber, all, k, cs.exec);
      var s := cs.ApplyOp(Inject(tx, tx.ops[i]));
      if s.Err? {
        return Err(s.error);
      }
      i := i + 1;
    }
    assert ops[..|tx.ops|] == ops;
    return Ok(());
  }

  /** Runs every transaction of a block in order. */
  method RunTxs(cs: CacheStore, txs: seq<Tx>, ghost x: Exec) returns (r: Result<()>)
    requires LedgerInv(x.ledger) && CacheSound(x) && OpsValid(x.ledger, cs.blockNumber, BlockOps(txs))
    requires cs.Valid() && cs.exec == x
    modifies cs, cs.stagingDB, cs.stateDB
    ensures r.Ok? ==> Running(cs, x, cs.blockNumber, BlockOps(txs))
    ensures r.Err? ==> ExecOps(x, cs.blockNumber, BlockOps(txs)) == Err(r.error)
  {
    hide LedgerInv, CacheSound, OpsValid, ExecOp, OpValid, InjectAll, CacheStore.Valid;
    var i := 0;
    assert txs[..0] == [];
    while i < |txs|
      invariant 0 <= i <= |txs|
      invariant Running(cs, x, cs.blockNumber, BlockOps(txs[..i]))
    {
      BlockOpsPrefix(txs, i);
      r := RunTx(cs, txs[i], x, BlockOps(txs), BlockOps(txs[..i]));
      if r.Err? {
        return;
      }
      i := i + 1;
    }
    assert txs[..|txs|] == txs;
    return Ok(());
  }

  /** state.New: opens a trie that the database holds. */
  method OpenState(disk: RawDb, root: Root) returns (r: Result<StateDB>)
    ensures r.Ok? <==> CanOpen(disk.data, root)
    ensures r.Ok? ==> fresh(r.value) && r.value.trie == root.trie
    ensures r.Err? ==> r.error == StateNotFound
  {
    if root != EMPTY_ROOT && TrieKey(root) !in disk.data {
      return Err(StateNotFound);
    }
    var sdb := new StateDB(root);
    return Ok(sdb);
  }

  lemma AnnotDetermined(db: Db, v: Db, annot: map<Pair, Hash>, annot': map<Pair, Hash>)
    requires AnnotSync(db, annot) && AnnotSync(v, annot')
    requires forall p :: Lookup(v, AnnotKey(p)) == Lookup(db, AnnotKey(p))
    ensures annot == annot'
  {
    forall p ensures p in annot <==> p in annot' {
      assert Lookup(v, AnnotKey(p)) == Lookup(db, AnnotKey(p));
    }
    forall p | p in annot ensures annot[p] == annot'[p] {
      assert Lookup(v, AnnotKey(p)) == Lookup(db, AnnotKey(p));
    }
  }

  lemma ReadyToCommit(cs: CacheStore, db: Db, annot: map<Pair, Hash>)
    requires cs.Valid() && cs.stagingDB.disk.data == db && AnnotSync(db, annot)
    ensures BeforeCommit(db, cs.stagingDB.View(), annot, cs.dirtyBitmaps, cs.exec)
  {
    hide LedgerInv, CacheSound, Overlay, IdSync, Covered;
    var v := cs.stagingDB.View();
    forall k: DbKey | !k.IdKey? && !k.AddrKey? ensures Lookup(v, k) == Lookup(db, k) {
      assert k !in cs.stagingDB.staging;
    }
    AnnotDetermined(db, v, annot, cs.stateDB.trie.annot);
  }

  lemma ChainShort(db: Db, chain: seq<Block>)
    requires BlockIndex(db, chain)
    ensures |chain| < TWO64
  {
    hide RootAt;
    if chain != [] { assert chain[|chain| - 1].number == |chain|; }
  }

  lemma InitialBuffer(db: Db, s: State)
    requires DiskInv(db, s)
    ensures var x := ExecOf(s).(ledger := Start(Replay(s.chain)));
            && LedgerInv(x.ledger) && CacheSound(x)
            && AnnotSync(db, x.ledger.trie.annot) && Covered(db, x.ledger.trie.annot) && IdSync(db, x.cache)
            && CanOpen(db, RootAt(s.chain)) && HeadOf(db).root == RootAt(s.chain)
  {
    hide LedgerInv, CacheSound, IdSync, AnnotSync, Covered, Archive, BlockIndex, TriesKept, Replay, ChainOk, CanOpen;
    StartSound(s);
    HeadCovered(db, s.chain, |s.chain|);
    assert s.chain[..|s.chain|] == s.chain;
  }

  class Store {
    const rawDB: RawDb
    var headRoot: Root
    var headHash: Hash32
    var headNumber: uint64
    ghost var state: State

    ghost predicate Valid()
      reads this, rawDB
    {
      && DiskInv(rawDB.data, state)
      && HeadOf(rawDB.data) == Head(headNumber, headHash, headRoot)
    }

    /** Opens a store; a database that held a head continues from it. */
    constructor (disk: RawDb, ghost s: State)
      requires DiskInv(disk.data, s)
      ensures Valid() && rawDB == disk && state == s
    {
      var h := HeadOf(disk.data);
      rawDB := disk;
      headRoot, headHash, headNumber := h.root, h.hash, h.number;
      state := s;
    }

    /** A write buffer on the head state, with the system account in place. */
    method NewBuffer(block: Block) returns (cs: CacheStore)
      requires Valid() && BlockValid(state.chain, block)
      ensures fresh(cs) && fresh(cs.stagingDB) && fresh(cs.stateDB) && cs.stagingDB.disk == rawDB
      ensures cs.Valid() && cs.exec == ExecOf(state).(ledger := Start(Replay(state.chain)))
      ensures cs.blockNumber == block.number && cs.blockHash == block.hash && cs.parentHash == block.parentHash
    {
      hide LedgerInv, CacheSound, IdSync, AnnotSync, Covered, DiskInv, Replay, BlockValid, CanOpen;
      InitialBuffer(rawDB.data, state);
      ghost var x := ExecOf(state).(ledger := Start(Replay(state.chain)));
      var st := OpenState(rawDB, headRoot);
      var sdb := st.value;
      cs := new CacheStore(rawDB, sdb, block.number, block.hash, block.parentHash, x);
      sdb.InitSystemAccount();
      assert rawDB.data + map[] == rawDB.data;
      FlushNone(rawDB.data, sdb.trie.annot, map[]);
      assert sdb.trie.code + map[] == sdb.trie.code;
    }

    /** Applies a whole block, or fails and changes nothing. */
    method ProcessBlock(block: Block) returns (r: Result<Root>)
      requires Valid() && BlockValid(state.chain, block)
      modifies this, rawDB
      ensures Valid()
      ensures state == CommitStep(old(state), block)
      ensures r.Ok? <==> Committed(old(state), block)
      ensures r.Ok? ==> r.value == headRoot == RootAt(state.chain) && headHash == block.hash
      ensures r.Ok? ==>
                StoredPairs(rawDB.data) == StoredPairs(old(rawDB.data)) + Replay(state.chain).trie.annot.Keys
      ensures r.Err? ==> ExecBlock(ExecOf(old(state)), block) == Err(r.error)
      ensures r.Err? ==>
              rawDB.data == old(rawDB.data) && (headRoot, headHash, headNumber) == old((headRoot, headHash, headNumber))
      ensures Grows(old(rawDB.data), rawDB.data)
    {
      hide LedgerInv, CacheSound, Replay, DiskInv, CacheStore.Valid, ExecOps, OpsValid, HeadOf, BeforeCommit,
           AnnotSync, StoredPairs;
      ghost var s, db := state, rawDB.data;
      var cs := NewBuffer(block);
      DiskAnnot(db, s);
      var run := RunTxs(cs, block.txs, cs.exec);
      if run.Err? {
        return Err(run.error);
      }
      ghost var v, dirty, y := cs.stagingDB.View(), cs.dirtyBitmaps, cs.exec;
      ReadyToCommit(cs, db, Replay(s.chain).trie.annot);
      var newRoot := cs.Commit();
      CommitKeepsDisk(db, v, rawDB.data, s, block, dirty, y);
      headRoot, headHash, headNumber := newRoot, block.hash, block.number;
      state := CommitStep(s, block);
      CommitRoot(s, block, y);
      return Ok(newRoot);
    }

    /** Parent hash of a stored block, and the state root of that parent. */
    method FindAncestor(hash: Hash32) returns (r: Result<(Hash32, Root)>)
      ensures r.Err? <==> !(ParentKey(hash) in rawDB.data && rawDB.data[ParentKey(hash)].BlockHashVal?)
      ensures r.Err? ==> r.error == ParentNotFound
      ensures r.Ok? ==> r.value.0 == rawDB.data[ParentKey(hash)].b
      ensures r.Ok? ==> r.value.1 == RootOrEmpty(rawDB.data, r.value.0)
    {
      var parent := rawDB.Get(ParentKey(hash));
      if parent.None? || !parent.value.BlockHashVal? {
        return Err(ParentNotFound);
      }
      var root := rawDB.Get(RootKey(parent.value.b));
      if root.Some? && root.value.RootVal? {
        return Ok((parent.value.b, root.value.r));
      }
      return Ok((parent.value.b, EMPTY_ROOT));
    }

    /** Reverts one block. */
    method RevertBlock(ref: BlockRef) returns (r: Result<Root>)
      requires Valid()
      requires NewestFirst(state.chain, [ref]) || !InChain(state.chain, ref.hash)
      modifies this, rawDB
      ensures Valid() && Grows(old(rawDB.data), rawDB.data)
      ensures r.Ok? <==> InChain(old(state).chain, ref.hash)
      ensures r.Ok? ==> state == RevertStep(old(state), 1) && r.value == headRoot == RootAt(state.chain)
      ensures r.Ok? ==> headHash == old(state).chain[|old(state).chain| - 1].parentHash
      ensures r.Err? ==> r.error == ParentNotFound && state == old(state) && rawDB.data == old(rawDB.data)
    {
      hide DiskInv, Replay, HeadOf, BatchIs, RootAt, InChain, Grows, StoredPairs, StoredIds, GoneHashes, GoneNumbers,
           RefHashes, RefNumbers;
      ghost var s, db := state, rawDB.data;
      RefsFacts(db, s, [ref]);
      var f := FindAncestor(ref.hash);
      if f.Err? {
        GrowsRefl(db);
        return Err(f.error);
      }
      var (parentHash, parentRoot) := f.value;
      var st := OpenState(rawDB, parentRoot);
      var batch := new Batch();
      Repopulate(batch, st.value, s);
      RefStep(db, st.value.trie, batch.writes, Progress(StoredPairs(db), StoredIds(db), {}, {}), ref.hash, ref.number);
      DropBlock(batch, ref);
      assert [ref][..0] == [] && [ref][..1] == [ref];
      GoneStep([ref], 0);
      GoneAll(s.chain, [ref]);
      var newHeadNumber := if ref.number > 0 then ref.number - 1 else 0;
      WriteRevert(batch, newHeadNumber, parentHash, parentRoot, 1);
      return Ok(headRoot);
    }

    /** Reverts a newest-first list of blocks in one batch, rebuilding the caches once from the common ancestor. */
    method RevertToAncestor(refs: seq<BlockRef>) returns (r: Result<()>)
      requires Valid() && refs != []
      requires NewestFirst(state.chain, refs) || !InChain(state.chain, refs[|refs| - 1].hash)
      modifies this, rawDB
      ensures Valid() && Grows(old(rawDB.data), rawDB.data)
      ensures r.Ok? <==> InChain(old(state).chain, refs[|refs| - 1].hash)
      ensures r.Ok? ==> NewestFirst(old(state).chain, refs) && state == RevertStep(old(state), |refs|)
      ensures r.Ok? ==> headHash == old(state).chain[|old(state).chain| - |refs|].parentHash
      ensures r.Err? ==> r.error == ParentNotFound && state == old(state) && rawDB.data == old(rawDB.data)
    {
      hide DiskInv, Replay, HeadOf, BatchIs, RootAt, InChain, Grows, StoredPairs, StoredIds, GoneHashes, GoneNumbers,
           RefHashes, RefNumbers;
      ghost var s, db := state, rawDB.data;
      var oldest := refs[|refs| - 1];
      RefsFacts(db, s, refs);
      var f := FindAncestor(oldest.hash);
      if f.Err? {
        GrowsRefl(db);
        return Err(f.error);
      }
      var (ancestorHash, ancestorRoot) := f.value;
      var st := OpenState(rawDB, ancestorRoot);
      var batch := new Batch();
      Repopulate(batch, st.value, s);
      DropBlocks(batch, refs, st.value, s.chain);
      GoneAll(s.chain, refs);
      var ancestorNumber := oldest.number;
      if ancestorNumber > 0 {
        ancestorNumber := ancestorNumber - 1;
      }
      WriteRevert(batch, ancestorNumber, ancestorHash, ancestorRoot, |refs|);
      return Ok(());
    }

    /** Rewrites pointers and ID entries from the trie, into the batch. */
    method Repopulate(batch: Batch, sdb: StateDB, ghost s: State)
      requires DiskInv(rawDB.data, s) && batch.writes == map[]
      modifies batch
      ensures BatchIs(rawDB.data, sdb.trie, batch.writes,
                      Progress(StoredPairs(rawDB.data), StoredIds(rawDB.data), {}, {}))
    {
      hide Inv, HeadInv, BlockIndex, TriesKept, AnnotSync, IdSync, BatchIs, Covered, StoredPairs, StoredIds;
      EmptyBatch(rawDB.data, sdb.trie);
      RepopulateAnnot(rawDB, batch, sdb);
      RepopulateIDs(rawDB, batch, sdb, StoredPairs(rawDB.data), s.cache);
    }

    method DropBlock(batch: Batch, ref: BlockRef)
      modifies batch
      ensures batch.writes ==
        old(batch.writes)[RootKey(ref.hash) := None][ParentKey(ref.hash) := None][BlockNumberKey(ref.number) := None]
    {
      batch.Delete(RootKey(ref.hash));
      batch.Delete(ParentKey(ref.hash));
      batch.Delete(BlockNumberKey(ref.number));
    }

    method DropBlocks(batch: Batch, refs: seq<BlockRef>, ghost sdb: StateDB, ghost chain: seq<Block>)
      requires NewestFirst(chain, refs)
      requires BatchIs(rawDB.data, sdb.trie, batch.writes,
                       Progress(StoredPairs(rawDB.data), StoredIds(rawDB.data), {}, {}))
      modifies batch
      ensures BatchIs(rawDB.data, sdb.trie, batch.writes, Dropped(rawDB.data, refs))
    {
      hide BatchIs, StoredPairs, StoredIds;
      assert refs[..0] == [];
      assert RefHashes([]) == {} && RefNumbers([]) == {};
      for i := 0 to |refs|
        invariant BatchIs(rawDB.data, sdb.trie, batch.writes, Dropped(rawDB.data, refs[..i]))
      {
        RefStep(rawDB.data, sdb.trie, batch.writes, Dropped(rawDB.data, refs[..i]), refs[i].hash, refs[i].number);
        DropBlock(batch, refs[i]);
        GoneStep(refs, i);
      }
      assert refs[..|refs|] == refs;
    }

    /** Writes the revert batch and moves the head to the ancestor. */
    method WriteRevert(batch: Batch, number: uint64, hash: Hash32, root: Root, ghost d: nat)
      requires Valid() && 1 <= d <= |state.chain| < TWO64
      requires var k := |state.chain| - d;
               number == k && hash == state.chain[k].parentHash && root == RootAt(state.chain[..k])
      requires BatchIs(rawDB.data, root.trie, batch.writes, FullProgress(rawDB.data, state.chain, |state.chain| - d))
      modifies this, rawDB, batch
      ensures Valid() && Grows(old(rawDB.data), rawDB.data)
      ensures state == RevertStep(old(state), d) && headRoot == RootAt(state.chain) && headHash == hash
    {
      hide DiskInv, Replay, HeadOf, FullProgress, BatchIs, RevertLookup, AfterRevert;
      ghost var s, db := state, rawDB.data;
      ghost var w := batch.writes;
      batch.Put(HeadKey, HeadVal(number, hash, root));
      rawDB.Write(batch);
      BatchGives(db, w, rawDB.data, s, |s.chain| - d, hash);
      RevertKeepsDisk(db, rawDB.data, s, d);
      headRoot, headHash, headNumber := root, hash, number;
      state := RevertStep(s, d);
    }

    /** Reverts a list of blocks; an empty list changes nothing. */
    method RevertBlocks(refs: seq<BlockRef>) returns (r: Result<Root>)
      requires Valid()
      requires refs == [] || NewestFirst(state.chain, refs) || !InChain(state.chain, refs[|refs| - 1].hash)
      modifies this, rawDB
      ensures Valid() && Grows(old(rawDB.data), rawDB.data)
      ensures r.Ok? <==> refs == [] || InChain(old(state).chain, refs[|refs| - 1].hash)
      ensures r.Ok? ==>
              state == (if refs == [] then old(state) else RevertStep(old(state), |refs|)) && r.value == headRoot
      ensures r.Err? ==> r.error == ParentNotFound && state == old(state) && rawDB.data == old(rawDB.data)
    {
      hide DiskInv, HeadOf, InChain, Grows, NewestFirst;
      if refs == [] {
        GrowsRefl(rawDB.data);
        return Ok(headRoot);
      }
      var s := RevertToAncestor(refs);
      if s.Err? {
        return Err(s.error);
      }
      return Ok(headRoot);
    }

    /**
     * Applies blocks one by one, each atomic on its own: when block i fails, the first i blocks stay.
     */
    method ApplyBlocks(newBlocks: seq<Block>) returns (r: Result<Root>)
      requires Valid() && BlocksValid(state, newBlocks)
      modifies this, rawDB
      ensures Valid() && Grows(old(rawDB.data), rawDB.data)
      ensures ChainEnds(old(state), newBlocks, state, r)
      ensures r.Ok? ==> r.value == headRoot
      ensures r.Err? && state.chain == old(state).chain ==> state == old(state) && rawDB.data == old(rawDB.data)
    {
      hide DiskInv, HeadOf, Grows, CommitStep, CommitAll, BlockValid, BlocksValid, Committed, ExecBlock;
      ghost var s, db := state, rawDB.data;
      GrowsRefl(db);
      NoBlocks(s, newBlocks);
      var i := 0;
      while i < |newBlocks|
        invariant 0 <= i <= |newBlocks| && Valid() && Grows(db, rawDB.data)
        invariant state == CommitAll(s, newBlocks[..i]) && state.chain == s.chain + newBlocks[..i]
        invariant i == 0 ==> rawDB.data == db
      {
        NextBlock(s, newBlocks, i);
        ghost var before := rawDB.data;
        var p := ProcessBlock(newBlocks[i]);
        GrowsTransitive(db, before, rawDB.data);
        if p.Err? {
          CommitFails(CommitAll(s, newBlocks[..i]), newBlocks[i]);
          assert StopsAt(s, newBlocks, state, i, p.error);
          return Err(p.error);
        }
        CommitExtends(CommitAll(s, newBlocks[..i]), newBlocks[i]);
        i := i + 1;
      }
      assert newBlocks[..i] == newBlocks;
      return Ok(headRoot);
    }

    /**
     * Reverts, then applies the new blocks. The revert is atomic and stays when a new block fails.
     * An unknown block to revert changes nothing. The chain ends as it was exactly when the blocks that
     * went in are those that were taken out (`ReorgSameChainIff`).
     */
    method Reorg(refs: seq<BlockRef>, newBlocks: seq<Block>) returns (r: Result<Root>)
      requires Valid()
      requires refs == [] || NewestFirst(state.chain, refs) || !InChain(state.chain, refs[|refs| - 1].hash)
      requires KnownRefs(state.chain, refs) ==> BlocksValid(AfterRefs(state, refs), newBlocks)
      modifies this, rawDB
      ensures Valid() && Grows(old(rawDB.data), rawDB.data)
      ensures !KnownRefs(old(state).chain, refs) ==>
                r == Err(ParentNotFound) && state == old(state) && rawDB.data == old(rawDB.data)
      ensures KnownRefs(old(state).chain, refs) ==> ChainEnds(AfterRefs(old(state), refs), newBlocks, state, r)
      ensures r.Ok? ==> r.value == headRoot
      ensures r.Err? && refs == [] && state.chain == old(state).chain ==>
                state == old(state) && rawDB.data == old(rawDB.data)
    {
      hide DiskInv, HeadOf, InChain, Grows, RevertStep, ChainEnds, BlocksValid, NewestFirst;
      ghost var db := rawDB.data;
      if |refs| > 0 {
        RefsKnown(state.chain, refs);
        var rev := RevertToAncestor(refs);
        if rev.Err? {
          return Err(rev.error);
        }
      } else {
        GrowsRefl(db);
      }
      ghost var between := rawDB.data;
      r := ApplyBlocks(newBlocks);
      GrowsTransitive(db, between, rawDB.data);
    }
  }

  /** A store on an empty database. */
  method NewMemory() returns (s: Store)
    ensures fresh(s) && fresh(s.rawDB) && s.Valid() && s.state == INITIAL && s.headNumber == 0 &&
            s.headRoot == EMPTY_ROOT
  {
    hide DiskInv;
    EmptyDisk();
    var disk := new RawDb();
    s := new Store(disk, INITIAL);
  }

  // ---------- Facts the revert methods rest on ----------

  function RootOrEmpty(db: Db, h: Hash32): Root {
    match Lookup(db, RootKey(h))
    case Some(RootVal(r)) => r
    case _ => EMPTY_ROOT
  }

  lemma GrowsRefl(db: Db)
    ensures Grows(db, db)
  {
  }

  lemma GrowsTransitive(a: Db, b: Db, c: Db)
    requires Grows(a, b) && Grows(b, c)
    ensures Grows(a, c)
  {
  }

  lemma NewestKnown(chain: seq<Block>, refs: seq<BlockRef>)
    requires NewestFirst(chain, refs) && refs != []
    ensures InChain(chain, refs[|refs| - 1].hash)
  {
    assert chain[|chain| - |refs|].hash == refs[|refs| - 1].hash;
  }

  /** What the database tells about the ancestor of the reverted blocks. */
  lemma RefsFacts(db: Db, s: State, refs: seq<BlockRef>)
    requires DiskInv(db, s) && refs != []
    requires NewestFirst(s.chain, refs) || !InChain(s.chain, refs[|refs| - 1].hash)
    ensures var h := refs[|refs| - 1].hash;
            if InChain(s.chain, h) then
              var k := |s.chain| - |refs|;
              && NewestFirst(s.chain, refs) && |s.chain| < TWO64
              && refs[|refs| - 1].number == k + 1
              && Lookup(db, ParentKey(h)) == Some(BlockHashVal(s.chain[k].parentHash))
              && RootOrEmpty(db, s.chain[k].parentHash) == RootAt(s.chain[..k])
              && CanOpen(db, RootAt(s.chain[..k]))
            else ParentKey(h) !in db
  {
    hide DiskInv, NewestFirst, InChain, RootAt, CanOpen, Replay, RootOrEmpty;
    if InChain(s.chain, refs[|refs| - 1].hash) {
      OldestRef(s.chain, refs);
      AncestorFacts(db, s, |s.chain| - |refs|);
    } else {
      UnknownBlock(db, s, refs[|refs| - 1].hash);
    }
  }

  lemma OldestRef(chain: seq<Block>, refs: seq<BlockRef>)
    requires NewestFirst(chain, refs) && refs != []
    ensures var k := |chain| - |refs|; 0 <= k < |chain| && refs[|refs| - 1] == BlockRef(chain[k].number, chain[k].hash)
  {
  }

  lemma UnknownBlock(db: Db, s: State, h: Hash32)
    requires DiskInv(db, s) && !InChain(s.chain, h)
    ensures ParentKey(h) !in db
  {
    hide Inv, Archive, AnnotSync, IdSync, TriesKept, RootAt, HeadInv, InChain;
  }

  /** What the index says about canonical block k and the state before it. */
  lemma AncestorFacts(db: Db, s: State, k: nat)
    requires DiskInv(db, s) && k < |s.chain|
    ensures |s.chain| < TWO64 && s.chain[k].number == k + 1
    ensures Lookup(db, ParentKey(s.chain[k].hash)) == Some(BlockHashVal(s.chain[k].parentHash))
    ensures RootOrEmpty(db, s.chain[k].parentHash) == RootAt(s.chain[..k]) && CanOpen(db, RootAt(s.chain[..k]))
  {
    hide Inv, Archive, AnnotSync, IdSync, TriesKept, RootAt, Linked, CanOpen, InChain, HeadInv, ChainOk, CacheSound;
    ChainShort(db, s.chain);
    InvChain(s);
    ChainLinked(s.chain);
    ParentRoot(db, s.chain, k);
    HeadCovered(db, s.chain, k);
  }

  ghost function Dropped(db: Db, refs: seq<BlockRef>): Progress {
    Progress(StoredPairs(db), StoredIds(db), RefHashes(refs), RefNumbers(refs))
  }

  ghost function RefHashes(refs: seq<BlockRef>): set<Hash32> { set r | r in refs :: r.hash }

  ghost function RefNumbers(refs: seq<BlockRef>): set<uint64> { set r | r in refs :: r.number }

  lemma GoneStep(refs: seq<BlockRef>, i: nat)
    requires i < |refs|
    ensures RefHashes(refs[..i + 1]) == RefHashes(refs[..i]) + {refs[i].hash}
    ensures RefNumbers(refs[..i + 1]) == RefNumbers(refs[..i]) + {refs[i].number}
    ensures RefHashes(refs[..0]) == {} && RefNumbers(refs[..0]) == {}
  {
    assert refs[..i + 1] == refs[..i] + [refs[i]];
  }

  lemma GoneAll(chain: seq<Block>, refs: seq<BlockRef>)
    requires NewestFirst(chain, refs)
    ensures RefHashes(refs) == GoneHashes(chain, |chain| - |refs|)
    ensures RefNumbers(refs) == GoneNumbers(chain, |chain| - |refs|)
    ensures refs[..|refs|] == refs
  {
    var k := |chain| - |refs|;
    forall i | k <= i < |chain| ensures BlockRef(chain[i].number, chain[i].hash) in refs {
      assert refs[|chain| - 1 - i] == BlockRef(chain[i].number, chain[i].hash);
    }
    forall r | r in refs ensures exists i :: k <= i < |chain| && r == BlockRef(chain[i].number, chain[i].hash) {
      var j :| 0 <= j < |refs| && refs[j] == r;
      assert r == BlockRef(chain[|chain| - 1 - j].number, chain[|chain| - 1 - j].hash);
    }
  }

  lemma BatchGives(db: Db, w: Writes, db': Db, s: State, k: nat, hash: Hash32)
    requires k <= |s.chain| < TWO64
    requires BatchIs(db, Replay(s.chain[..k]).trie, w, FullProgress(db, s.chain, k))
    requires db' == ApplyWrites(db, w[HeadKey := Some(HeadVal(k, hash, RootAt(s.chain[..k])))])
    ensures AfterRevert(db, db', s, k, hash)
  {
    hide RevertLookup, FullProgress, Replay, ApplyWrites;
    var t := Replay(s.chain[..k]).trie;
    forall x ensures Lookup(db', x) ==
                     if x == HeadKey then Some(HeadVal(k, hash, RootAt(s.chain[..k])))
                     else RevertLookup(db, t, FullProgress(db, s.chain, k), x)
    {
      assert Pending(db, w, x) == RevertLookup(db, t, FullProgress(db, s.chain, k), x);
    }
  }

  // ---------- Facts the reorg method rests on ----------

  /** The references are the last blocks of the chain, or there are none. */
  ghost predicate KnownRefs(chain: seq<Block>, refs: seq<BlockRef>) {
    refs == [] || NewestFirst(chain, refs)
  }

  ghost function AfterRefs(s: State, refs: seq<BlockRef>): State
    requires KnownRefs(s.chain, refs)
  {
    if refs == [] then s else RevertStep(s, |refs|)
  }

  /** Block i failed with this error; the blocks before it stay. */
  ghost predicate StopsAt(s: State, bs: seq<Block>, end: State, i: int, e: Error) {
    && 0 <= i < |bs|
    && end == CommitAll(s, bs[..i]) && end.chain == s.chain + bs[..i]
    && ExecBlock(ExecOf(end), bs[i]) == Err(e)
  }

  /** How a list of blocks ends. The length of the chain tells which block failed. */
  ghost predicate ChainEnds(s: State, bs: seq<Block>, end: State, r: Result<Root>) {
    match r
    case Ok(_) => end == CommitAll(s, bs) && end.chain == s.chain + bs
    case Err(e) => StopsAt(s, bs, end, |end.chain| - |s.chain|, e)
  }

  lemma RefsKnown(chain: seq<Block>, refs: seq<BlockRef>)
    requires refs != [] && (NewestFirst(chain, refs) || !InChain(chain, refs[|refs| - 1].hash))
    ensures KnownRefs(chain, refs) <==> InChain(chain, refs[|refs| - 1].hash)
  {
    if NewestFirst(chain, refs) { NewestKnown(chain, refs); }
  }

  /** A reorg leaves the chain as it was exactly when the blocks that went in are those it took out. */
  lemma ReorgSameChainIff(s: State, refs: seq<BlockRef>, bs: seq<Block>)
    requires NewestFirst(s.chain, refs) && refs != []
    ensures AfterRefs(s, refs).chain + bs == s.chain <==> bs == s.chain[|s.chain| - |refs|..]
  {
    hide Replay, LiveIds;
    var k := |s.chain| - |refs|;
    assert s.chain == s.chain[..k] + s.chain[k..];
    if s.chain[..k] + bs == s.chain {
      assert bs == (s.chain[..k] + bs)[k..];
    }
  }

  /** Each new block is valid on the chain it would extend. */
  ghost predicate BlocksValid(s: State, bs: seq<Block>) {
    forall i :: 0 <= i < |bs| ==> BlockValid(s.chain + bs[..i], bs[i])
  }

  lemma NoBlocks(s: State, bs: seq<Block>)
    ensures CommitAll(s, bs[..0]) == s && s.chain + bs[..0] == s.chain
  {
  }

  lemma NextBlock(s: State, bs: seq<Block>, i: nat)
    requires BlocksValid(s, bs) && i < |bs|
    ensures BlockValid(s.chain + bs[..i], bs[i])
    ensures CommitAll(s, bs[..i + 1]) == CommitStep(CommitAll(s, bs[..i]), bs[i])
    ensures s.chain + bs[..i + 1] == s.chain + bs[..i] + [bs[i]]
  {
    hide BlockValid, CommitStep;
    assert bs[..i + 1][..i] == bs[..i];
  }

  lemma CommitExtends(s: State, b: Block)
    requires Committed(s, b)
    ensures CommitStep(s, b).chain == s.chain + [b]
  {
  }

  lemma DiskAnnot(db: Db, s: State)
    requires DiskInv(db, s)
    ensures AnnotSync(db, Replay(s.chain).trie.annot) && Inv(s)
    ensures var x := ExecOf(s).(ledger := Start(Replay(s.chain)));
            LedgerInv(x.ledger) && CacheSound(x)
  {
    hide LedgerInv, CacheSound;
    StartSound(s);
  }

  lemma CommitRoot(s: State, b: Block, y: Exec)
    requires Inv(s) && BlockValid(s.chain, b) && ExecBlock(ExecOf(s), b) == Ok(y)
    ensures RootAt(CommitStep(s, b).chain) == OfTrie(y.ledger.trie) && Committed(s, b)
    ensures Replay(CommitStep(s, b).chain).trie == y.ledger.trie
  {
    hide Inv, ExecBlock, BlockValid, ApplyBlock, Replay;
    CommitFacts(s, b);
  }

  // ---------- A reorg that ends partway ----------

  predicate Distinct(h: seq<Hash32>) { forall i, j :: 0 <= i < j < |h| ==> h[i] != h[j] }

  /** What the reorg puts in place of the empty third block: another one, then a delete of the deleted entity. */
  function Replacement(c: CreateOp, h: seq<Hash32>): seq<Block>
    requires |h| == 6
  {
    [Block(3, h[4], h[2], []), OneOpBlock(4, h[5], h[4], Delete(c.key))]
  }

  lemma EmptyBlockRuns(x: Exec, b: Block)
    requires b.txs == []
    ensures ExecBlock(x, b) == Ok(x.(ledger := Start(x.ledger))) && ApplyBlock(x.ledger, b) == Ok(Start(x.ledger))
    ensures OpsValid(Start(x.ledger), b.number, BlockOps(b.txs))
  {
    EmptyBlockExecutes(x, b);
    EmptyBlockApplies(x.ledger, b);
  }

  /** Deleting what is not there fails, though the block is one the node may deliver. */
  lemma DeleteFails(x: Exec, n: uint64, hash: Hash32, parent: Hash32, key: Hash32)
    requires Addr(key) !in x.ledger.trie.code
    ensures var b := OneOpBlock(n, hash, parent, Delete(key));
            ExecBlock(x, b) == Err(EntityNotFound) && OpsValid(Start(x.ledger), n, BlockOps(b.txs))
  {
    hide Addr;
    var op := Delete(key);
    OneOp(n, hash, parent, op);
    OneOpApply(Start(x.ledger), n, op);
    assert [op][..0] == [] && ExecOps(x.(ledger := Start(x.ledger)), n, [op]) ==
                              ExecOp(x.(ledger := Start(x.ledger)), n, op);
  }

  /** After the first two blocks of the gap chain the entity is gone. */
  lemma GapDeleted(c: CreateOp, h: seq<Hash32>)
    requires |h| == 6 && Distinct(h) && UserAddress(Addr(c.key)) && ValidAttributes(c.attributes)
    ensures ChainOk(GapChain(c, h[..4])) && ChainOk(GapChain(c, h[..4])[..2])
    ensures Addr(c.key) !in Replay(GapChain(c, h[..4])[..2]).trie.code
  {
    hide Replay, ChainOk, LedgerInv, Addr, ValidAttributes, GapChain;
    GapRest(c, h[..4]);
    var chain := GapChain(c, h[..4]);
    assert |chain| == 3 by { GapLength(c, h[..4]); }
    ChainPrefix(chain, 2);
    ReplayInv(chain[..2]);
    var l := Replay(chain[..2]);
    if Addr(c.key) in l.trie.code { LiveId(l, Addr(c.key)); }
  }

  lemma GapLength(c: CreateOp, h: seq<Hash32>)
    requires |h| == 4
    ensures |GapChain(c, h)| == 3
  {
  }

  /**
   * A reorg that ends partway: on three blocks, take out the last, put in a block that commits and one that fails.
   * The store is left on a chain that is neither the old one nor the new one.
   */
  lemma ReorgPartway(c: CreateOp, h: seq<Hash32>) returns (s: State, end: State)
    requires |h| == 6 && Distinct(h) && UserAddress(Addr(c.key)) && ValidAttributes(c.attributes)
    ensures s == CommitAll(INITIAL, GapChain(c, h[..4])) && s.chain == GapChain(c, h[..4])
    ensures NewestFirst(s.chain, [BlockRef(3, h[3])])
    ensures BlocksValid(AfterRefs(s, [BlockRef(3, h[3])]), Replacement(c, h))
    ensures ChainEnds(AfterRefs(s, [BlockRef(3, h[3])]), Replacement(c, h), end, Err(EntityNotFound))
    ensures end.chain == s.chain[..2] + [Replacement(c, h)[0]]
  {
    hide Replay, ChainOk, Addr, ValidAttributes, LiveIds, ExecBlock, ApplyBlock, Inv, BlockOps, OpsValid, OneOpBlock;
    GapDeleted(c, h);
    var chain, bs := GapChain(c, h[..4]), Replacement(c, h);
    FreshReplay(chain);
    s := CommitAll(INITIAL, chain);
    var s0 := RevertStep(s, 1);
    var x := ExecOf(s0);
    assert s0.chain == chain[..2];
    EmptyBlockRuns(x, bs[0]);
    end := State(chain[..2] + [bs[0]], s0.cache);
    assert CommitStep(s0, bs[0]) == end;
    ReplayNext(s0.chain, bs[0]);
    DeleteFails(ExecOf(end), 4, h[5], h[4], c.key);
    NextIs(s0, bs);
    PartwayLinks(c, h);
    assert forall i :: 0 <= i < |bs| ==> BlockValid(s0.chain + bs[..i], bs[i]);
  }

  lemma ReplayNext(chain: seq<Block>, b: Block)
    requires ApplyBlock(Replay(chain), b).Ok?
    ensures Replay(chain + [b]) == ApplyBlock(Replay(chain), b).value
  {
    hide ApplyBlock;
    assert (chain + [b])[..|chain|] == chain;
  }

  lemma NextIs(s: State, bs: seq<Block>)
    requires |bs| == 2
    ensures CommitAll(s, bs[..1]) == CommitStep(s, bs[0]) && bs[..1] == [bs[0]] && bs[..0] == []
    ensures s.chain + bs[..0] == s.chain && s.chain + bs[..1] == s.chain + [bs[0]]
  {
    hide CommitStep;
    assert [bs[0]][..0] == [];
    assert CommitAll(s, [bs[0]]) == CommitStep(CommitAll(s, []), bs[0]);
  }

  lemma PartwayLinks(c: CreateOp, h: seq<Hash32>)
    requires |h| == 6 && Distinct(h)
    ensures var chain, bs := GapChain(c, h[..4])[..2], Replacement(c, h);
            && chain[0].hash == h[1] && chain[1].hash == h[2] && chain[0].parentHash == h[0] && |chain| == 2
            && bs[1] == OneOpBlock(4, h[5], h[4], Delete(c.key)) && bs[1].number == 4
            && bs[1].hash == h[5] && bs[1].parentHash == h[4]
  {
  }
}
