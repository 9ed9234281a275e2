/** Folding operations into blocks and blocks into a canonical chain, with the entity-ID cache beside the ledger. */
module Chain {
  import opened Bytes
  import opened Wrappers
  import opened Entities
  import opened Ledger

  /** The entity-ID cache: `arkiv_id` entries. An `arkiv_addr` entry mirrors each of them. */
  type Cache = map<uint64, Address>

  // ---------- Operations ----------

  /** The ledger together with the ID cache. */
  datatype Exec = Exec(ledger: Ledger, cache: Cache)

  predicate Resolves(x: Exec, a: Address) {
    a in x.ledger.created && x.ledger.created[a] in x.cache && x.cache[x.ledger.created[a]] == a
  }

  /** One operation as the store runs it: besides the entity it needs the entity's ID from the cache. */
  ghost function ExecOp(x: Exec, n: uint64, op: Op): Result<Exec> {
    match ApplyOp(x.ledger, n, op)
    case Err(e) => Err(e)
    case Ok(l) =>
      if op.Create? then Ok(Exec(l, x.cache[l.trie.count := Addr(op.create.key)]))
      else if !Resolves(x, Target(op)) then Err(EntityIdNotFound)
      else Ok(Exec(l, x.cache))
  }

  ghost function ExecOps(x: Exec, n: uint64, ops: seq<Op>): Result<Exec> {
    if ops == [] then Ok(x)
    else
      match ExecOps(x, n, ops[..|ops| - 1])
      case Err(e) => Err(e)
      case Ok(y) => ExecOp(y, n, ops[|ops| - 1])
  }

  ghost function ApplyOps(l: Ledger, n: uint64, ops: seq<Op>): Result<Ledger> {
    if ops == [] then Ok(l)
    else
      match ApplyOps(l, n, ops[..|ops| - 1])
      case Err(e) => Err(e)
      case Ok(m) => ApplyOp(m, n, ops[|ops| - 1])
  }

  /** Every operation that is reached is one the registry contract can emit there. */
  ghost predicate OpsValid(l: Ledger, n: uint64, ops: seq<Op>) {
    ops != [] ==>
      && OpsValid(l, n, ops[..|ops| - 1])
      && (ApplyOps(l, n, ops[..|ops| - 1]).Ok? ==>
            OpValid(ApplyOps(l, n, ops[..|ops| - 1]).value, ops[|ops| - 1]))
  }

  lemma {:induction false} OpsKeep(l: Ledger, n: uint64, ops: seq<Op>)
    requires LedgerInv(l) && OpsValid(l, n, ops) && ApplyOps(l, n, ops).Ok?
    ensures LedgerInv(ApplyOps(l, n, ops).value) && Extends(l, ApplyOps(l, n, ops).value)
  {
    hide LedgerInv, ApplyOp, OpValid;
    if ops != [] {
      var m := ApplyOps(l, n, ops[..|ops| - 1]);
      OpsKeep(l, n, ops[..|ops| - 1]);
      OpKeeps(m.value, n, ops[|ops| - 1]);
      OpExtends(m.value, n, ops[|ops| - 1]);
    }
  }

  /** Cached IDs are the IDs the addresses were created with. */
  ghost predicate CacheSound(x: Exec) {
    forall id :: id in x.cache ==> x.cache[id] in x.ledger.created && x.ledger.created[x.cache[id]] == id
  }

  ghost predicate Complete(x: Exec) {
    forall id :: id in x.ledger.trie.ids ==> id in x.cache
  }

  /** In a sound cache, an entry for a live ID is its address. */
  lemma SoundEntry(x: Exec, id: uint64)
    requires LedgerInv(x.ledger) && CacheSound(x) && id in x.ledger.trie.ids && id in x.cache
    ensures x.cache[id] == x.ledger.trie.ids[id] && Resolves(x, x.cache[id])
  {
    hide IndexExact, EntitiesInv;
    assert x.ledger.created[x.cache[id]] == x.ledger.created[x.ledger.trie.ids[id]];
  }

  /** With the ID cache complete the store refuses exactly the operations the ledger refuses. */
  lemma CompleteExecOp(x: Exec, n: uint64, op: Op)
    requires LedgerInv(x.ledger) && OpValid(x.ledger, op) && CacheSound(x) && Complete(x)
    ensures ExecOp(x, n, op).Ok? <==> ApplyOp(x.ledger, n, op).Ok?
    ensures ExecOp(x, n, op).Ok? ==> Complete(ExecOp(x, n, op).value)
  {
    hide ApplyCreate, LedgerInv, CacheSound, Creatable, Resolves;
    if ApplyOp(x.ledger, n, op).Ok? {
      if op.Create? {
        CreateShape(x.ledger, n, op.create);
      } else {
        TargetResolves(x, n, op);
        OtherOpShape(x.ledger, n, op);
      }
    }
  }

  lemma TargetResolves(x: Exec, n: uint64, op: Op)
    requires LedgerInv(x.ledger) && CacheSound(x) && Complete(x)
    requires !op.Create? && ApplyOp(x.ledger, n, op).Ok?
    ensures Resolves(x, Target(op))
  {
    hide LedgerInv, CacheSound, Complete, Resolves, Replace, RemoveEntity, MoveBucket, Updated;
    var a := Target(op);
    LiveId(x.ledger, a);
    CompleteEntry(x, a);
  }

  lemma CompleteEntry(x: Exec, a: Address)
    requires LedgerInv(x.ledger) && CacheSound(x) && Complete(x) && a in x.ledger.trie.code
    ensures Resolves(x, a)
  {
    hide LedgerInv, CacheSound;
    LiveId(x.ledger, a);
    SoundEntry(x, x.ledger.created[a]);
  }

  lemma LiveId(l: Ledger, a: Address)
    requires LedgerInv(l) && a in l.trie.code
    ensures a in l.created && l.created[a] in l.trie.ids && l.trie.ids[l.created[a]] == a
  {
  }

  /** One operation adds at most the entry of the ID it assigns, and keeps the cache sound. */
  lemma ExecOpCache(x: Exec, n: uint64, op: Op)
    requires LedgerInv(x.ledger) && OpValid(x.ledger, op) && CacheSound(x) && ExecOp(x, n, op).Ok?
    ensures var y := ExecOp(x, n, op).value;
            && CacheSound(y)
            && (forall id :: id in y.cache <==> id in x.cache || x.ledger.trie.count < id <= y.ledger.trie.count)
            && (forall id :: id in x.cache ==> y.cache[id] == x.cache[id])
            && ApplyOp(x.ledger, n, op) == Ok(y.ledger)
  {
    hide ApplyCreate, CacheSound, LedgerInv, Creatable, Resolves;
    if op.Create? {
      ExecCreateCache(x, n, op.create);
    } else {
      ExecOtherCache(x, n, op);
    }
  }

  lemma ExecOtherCache(x: Exec, n: uint64, op: Op)
    requires CacheSound(x) && ExecOp(x, n, op).Ok? && !op.Create?
    ensures var y := ExecOp(x, n, op).value;
            && CacheSound(y) && y.cache == x.cache && y.ledger.trie.count == x.ledger.trie.count
            && ApplyOp(x.ledger, n, op) == Ok(y.ledger)
  {
    hide ApplyOp, Resolves;
    OtherOpShape(x.ledger, n, op);
  }

  lemma ExecCreateCache(x: Exec, n: uint64, c: CreateOp)
    requires LedgerInv(x.ledger) && Creatable(x.ledger, c) && CacheSound(x)
    ensures var l := ApplyCreate(x.ledger, n, c);
            var y := Exec(l, x.cache[l.trie.count := Addr(c.key)]);
            && CacheSound(y)
            && (forall id :: id in y.cache <==> id in x.cache || x.ledger.trie.count < id <= y.ledger.trie.count)
            && (forall id :: id in x.cache ==> y.cache[id] == x.cache[id])
  {
    hide ApplyCreate, LedgerInv, ValidAttributes, Addr;
    CreateShape(x.ledger, n, c);
    CountBound(x);
  }

  lemma CountBound(x: Exec)
    requires LedgerInv(x.ledger) && CacheSound(x)
    ensures forall id :: id in x.cache ==> 1 <= id <= x.ledger.trie.count
  {
    hide IndexExact, EntitiesInv;
  }

  lemma {:induction false} ExecOpsCache(x: Exec, n: uint64, ops: seq<Op>)
    requires LedgerInv(x.ledger) && OpsValid(x.ledger, n, ops) && CacheSound(x) && ExecOps(x, n, ops).Ok?
    ensures var y := ExecOps(x, n, ops).value;
            && CacheSound(y)
            && (forall id :: id in y.cache <==> id in x.cache || x.ledger.trie.count < id <= y.ledger.trie.count)
            && (forall id :: id in x.cache ==> y.cache[id] == x.cache[id])
            && ApplyOps(x.ledger, n, ops) == Ok(y.ledger)
            && x.ledger.trie.count <= y.ledger.trie.count
  {
    hide LedgerInv, ApplyOp, OpValid, CacheSound, ExecOp;
    if ops != [] {
      var init := ops[..|ops| - 1];
      var y := ExecOps(x, n, init).value;
      ExecOpsCache(x, n, init);
      OpsKeep(x.ledger, n, init);
      ExecOpCache(y, n, ops[|ops| - 1]);
      OpExtends(y.ledger, n, ops[|ops| - 1]);
    }
  }

  lemma {:induction false} CompleteExecOps(x: Exec, n: uint64, ops: seq<Op>)
    requires LedgerInv(x.ledger) && OpsValid(x.ledger, n, ops) && CacheSound(x) && Complete(x)
    ensures ExecOps(x, n, ops).Ok? <==> ApplyOps(x.ledger, n, ops).Ok?
    ensures ExecOps(x, n, ops).Ok? ==> Complete(ExecOps(x, n, ops).value)
  {
    hide LedgerInv, ApplyOp, OpValid, CacheSound, ExecOp, Complete;
    if ops != [] {
      var init := ops[..|ops| - 1];
      CompleteExecOps(x, n, init);
      if ApplyOps(x.ledger, n, init).Ok? {
        ExecOpsCache(x, n, init);
        OpsKeep(x.ledger, n, init);
        CompleteExecOp(ExecOps(x, n, init).value, n, ops[|ops| - 1]);
      }
    }
  }

  // ---------- Blocks and chains ----------

  /** The ledger a block starts from: the system account exists from the first block on. */
  function Start(l: Ledger): Ledger { l.(trie := l.trie.(sys := true)) }

  ghost function ApplyBlock(l: Ledger, b: Block): Result<Ledger> {
    ApplyOps(Start(l), b.number, BlockOps(b.txs))
  }

  ghost function ExecBlock(x: Exec, b: Block): Result<Exec> {
    ExecOps(x.(ledger := Start(x.ledger)), b.number, BlockOps(b.txs))
  }

  /** The naive replay of a chain from the empty state. */
  ghost function Replay(chain: seq<Block>): Ledger {
    if chain == [] then GENESIS
    else
      var l := Replay(chain[..|chain| - 1]);
      match ApplyBlock(l, chain[|chain| - 1])
      case Ok(m) => m
      case Err(_) => l
  }

  /** What the node promises about the next block on a chain. */
  ghost predicate BlockValid(chain: seq<Block>, b: Block) {
    && b.number == |chain| + 1
    && (forall i :: 0 <= i < |chain| ==> chain[i].hash != b.hash)
    && (chain != [] ==> b.parentHash == chain[|chain| - 1].hash && b.hash != chain[0].parentHash)
    && b.hash != b.parentHash
    && OpsValid(Start(Replay(chain)), b.number, BlockOps(b.txs))
  }

  /** A canonical chain: every block is valid on its prefix and replays without error. */
  ghost predicate ChainOk(chain: seq<Block>) {
    chain != [] ==>
      var init, b := chain[..|chain| - 1], chain[|chain| - 1];
      ChainOk(init) && BlockValid(init, b) && ApplyBlock(Replay(init), b).Ok?
  }

  lemma StartInv(l: Ledger)
    requires LedgerInv(l)
    ensures LedgerInv(Start(l)) && Extends(l, Start(l)) && Extends(Start(l), l)
  {
    hide IdsInv, CreatedOnce, EntitiesInv, IndexExact;
    StartIds(l);
    StartEntities(l.trie);
    StartIndex(l.trie);
  }

  lemma StartIds(l: Ledger)
    requires IdsInv(l) && CreatedOnce(l)
    ensures IdsInv(Start(l)) && CreatedOnce(Start(l))
  {
  }

  lemma StartEntities(t: Trie)
    requires EntitiesInv(t)
    ensures EntitiesInv(t.(sys := true))
  {
    hide ValidEntity, Addr;
  }

  /** The index does not depend on the system account. */
  lemma StartIndex(t: Trie)
    requires IndexExact(t)
    ensures IndexExact(t.(sys := true))
  {
    hide Annots, Bits;
    forall p, id: uint64 ensures id in Bits(t.annot, p) <==> Carries(t.(sys := true), p, id) {
      assert id in Bits(t.annot, p) <==> Carries(t, p, id);
    }
  }

  lemma GenesisInv()
    ensures LedgerInv(GENESIS)
  {
  }

  lemma ExtendsTransitive(l: Ledger, m: Ledger, k: Ledger)
    requires Extends(l, m) && Extends(m, k)
    ensures Extends(l, k)
  {
  }

  lemma BlockKeeps(l: Ledger, b: Block)
    requires LedgerInv(l) && OpsValid(Start(l), b.number, BlockOps(b.txs)) && ApplyBlock(l, b).Ok?
    ensures LedgerInv(ApplyBlock(l, b).value) && Extends(l, ApplyBlock(l, b).value)
  {
    hide LedgerInv, Extends, OpsValid, ApplyOps;
    StartInv(l);
    OpsKeep(Start(l), b.number, BlockOps(b.txs));
    ExtendsTransitive(l, Start(l), ApplyBlock(l, b).value);
  }

  /** Along every canonical chain the index equals the naive scan and the ID bookkeeping is consistent. */
  lemma {:induction false} ReplayInv(chain: seq<Block>)
    requires ChainOk(chain)
    ensures LedgerInv(Replay(chain))
  {
    hide LedgerInv, ApplyBlock, OpsValid;
    if chain == [] {
      GenesisInv();
    } else {
      var init := chain[..|chain| - 1];
      ReplayInv(init);
      BlockKeeps(Replay(init), chain[|chain| - 1]);
    }
  }

  lemma {:induction false} ChainPrefix(chain: seq<Block>, k: nat)
    requires ChainOk(chain) && k <= |chain|
    ensures ChainOk(chain[..k])
    ensures Extends(Replay(chain[..k]), Replay(chain))
  {
    hide LedgerInv, ApplyBlock, OpsValid, Extends, BlockValid;
    if k == |chain| {
      assert chain[..k] == chain;
      assert Extends(Replay(chain), Replay(chain)) by { ExtendsReflexive(Replay(chain)); }
    } else {
      var init := chain[..|chain| - 1];
      ChainPrefix(init, k);
      assert chain[..k] == init[..k];
      ReplayInv(init);
      LastValid(chain);
      BlockKeeps(Replay(init), chain[|chain| - 1]);
      ExtendsTransitive(Replay(init[..k]), Replay(init), Replay(chain));
    }
  }

  lemma LastValid(chain: seq<Block>)
    requires ChainOk(chain) && chain != []
    ensures var init, b := chain[..|chain| - 1], chain[|chain| - 1];
            OpsValid(Start(Replay(init)), b.number, BlockOps(b.txs)) && ApplyBlock(Replay(init), b).Ok?
  {
  }

  lemma ExtendsReflexive(l: Ledger)
    ensures Extends(l, l)
  {
  }
}
