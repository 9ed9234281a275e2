/**
 * Runs of the store: any interleaving of blocks that succeed, blocks that fail, and reverts.
 * The state is the canonical chain and the entity-ID cache; everything else is a function of these.
 */
module Machine {
  import opened Bytes
  import opened Wrappers
  import opened Entities
  import opened Ledger
  import opened Chain

  datatype State = State(chain: seq<Block>, cache: Cache)

  const INITIAL := State([], map[])

  /** A reorg is a revert followed by commits. */
  datatype Event = Commit(block: Block) | Revert(depth: nat)

  ghost function ExecOf(s: State): Exec { Exec(Replay(s.chain), s.cache) }

  ghost function LiveIds(chain: seq<Block>): set<uint64> { Replay(chain).trie.ids.Keys }

  ghost predicate EventValid(s: State, e: Event) {
    match e
    case Commit(b) => BlockValid(s.chain, b)
    case Revert(d) => 1 <= d <= |s.chain|
  }

  /** Reverting drops every ID entry whose slot is zero at the ancestor, however old the entry is. */
  function Kept(cache: Cache, ids: set<uint64>): Cache {
    map id | id in cache && id in ids :: cache[id]
  }

  ghost function CommitStep(s: State, b: Block): State {
    match ExecBlock(ExecOf(s), b)
    case Ok(y) => State(s.chain + [b], y.cache)
    case Err(_) => s
  }

  ghost function RevertStep(s: State, depth: nat): State
    requires depth <= |s.chain|
  {
    var ancestor := s.chain[..|s.chain| - depth];
    State(ancestor, Kept(s.cache, LiveIds(ancestor)))
  }

  ghost function Step(s: State, e: Event): State
    requires EventValid(s, e)
  {
    match e
    case Commit(b) => CommitStep(s, b)
    case Revert(d) => RevertStep(s, d)
  }

  ghost predicate Inv(s: State) {
    ChainOk(s.chain) && CacheSound(ExecOf(s))
  }

  ghost predicate Committed(s: State, b: Block) {
    ExecBlock(ExecOf(s), b).Ok?
  }

  lemma StartSound(s: State)
    requires Inv(s)
    ensures var x := ExecOf(s).(ledger := Start(Replay(s.chain)));
            LedgerInv(x.ledger) && CacheSound(x)
  {
    hide LedgerInv;
    ReplayInv(s.chain);
    StartInv(Replay(s.chain));
  }

  /** A successful block extends the chain by itself and the cache by exactly the IDs it assigns. */
  lemma CommitFacts(s: State, b: Block)
    requires Inv(s) && BlockValid(s.chain, b) && Committed(s, b)
    ensures var s' := CommitStep(s, b);
            && Inv(s')
            && s'.chain == s.chain + [b]
            && ApplyBlock(Replay(s.chain), b) == Ok(Replay(s'.chain))
            && (forall id :: id in s'.cache <==>
                  id in s.cache || Replay(s.chain).trie.count < id <= Replay(s'.chain).trie.count)
            && ExecBlock(ExecOf(s), b) == Ok(ExecOf(s'))
  {
    hide LedgerInv, OpsValid, ExecOps, ApplyOps, CacheSound;
    var x := ExecOf(s).(ledger := Start(Replay(s.chain)));
    var s' := CommitStep(s, b);
    StartSound(s);
    ExecOpsCache(x, b.number, BlockOps(b.txs));
    assert s'.chain[..|s'.chain| - 1] == s.chain && s'.chain[|s'.chain| - 1] == b;
  }

  lemma RevertFacts(s: State, d: nat)
    requires Inv(s) && 1 <= d <= |s.chain|
    ensures var s' := RevertStep(s, d);
            Inv(s') && forall id :: id in s'.cache <==> id in s.cache && id in LiveIds(s'.chain)
  {
    hide LedgerInv, Replay, ChainOk, Extends, CacheSound;
    var k := |s.chain| - d;
    ChainPrefix(s.chain, k);
    ReplayInv(s.chain[..k]);
    ReplayInv(s.chain);
    KeptSound(Replay(s.chain[..k]), ExecOf(s));
  }

  /** Entries that survive a revert name addresses the ancestor had already created. */
  lemma KeptSound(l: Ledger, x: Exec)
    requires LedgerInv(l) && CacheSound(x) && Extends(l, x.ledger) && LedgerInv(x.ledger)
    ensures CacheSound(Exec(l, Kept(x.cache, l.trie.ids.Keys)))
  {
    hide IndexExact, EntitiesInv;
    forall id | id in x.cache && id in l.trie.ids
      ensures x.cache[id] in l.created && l.created[x.cache[id]] == id
    {
      assert x.ledger.created[l.trie.ids[id]] == id;
      assert x.ledger.created[x.cache[id]] == id;
    }
  }

  lemma InitialInv()
    ensures Inv(INITIAL)
  {
  }

  /** Every step of every kind keeps the invariant. */
  lemma StepKeeps(s: State, e: Event)
    requires Inv(s) && EventValid(s, e)
    ensures Inv(Step(s, e))
  {
    hide Inv, BlockValid, ExecBlock;
    match e {
      case Commit(b) => if Committed(s, b) { CommitFacts(s, b); }
      case Revert(d) => RevertFacts(s, d);
    }
  }

  // ---------- Runs ----------

  /** A run from the empty store. */
  ghost predicate IsRun(ss: seq<State>, es: seq<Event>) {
    && |ss| == |es| + 1
    && ss[0] == INITIAL
    && forall i :: 0 <= i < |es| ==> EventValid(ss[i], es[i]) && ss[i + 1] == Step(ss[i], es[i])
  }

  lemma {:induction false} RunInv(ss: seq<State>, es: seq<Event>, n: nat)
    requires IsRun(ss, es) && n < |ss|
    ensures Inv(ss[n])
  {
    hide Inv, Step, EventValid;
    if n == 0 {
      InitialInv();
    } else {
      RunInv(ss, es, n - 1);
      assert EventValid(ss[n - 1], es[n - 1]) && ss[n] == Step(ss[n - 1], es[n - 1]);
      StepKeeps(ss[n - 1], es[n - 1]);
    }
  }

  /** In every reachable state the head index is the naive scan over live entities, and IDs are never reused. */
  lemma RunLedgerInv(ss: seq<State>, es: seq<Event>, n: nat)
    requires IsRun(ss, es) && n < |ss|
    ensures LedgerInv(Replay(ss[n].chain)) && ChainOk(ss[n].chain)
  {
    hide LedgerInv, IsRun, ChainOk;
    RunInv(ss, es, n);
    InvChain(ss[n]);
    ReplayInv(ss[n].chain);
  }

  lemma InvChain(s: State)
    requires Inv(s)
    ensures ChainOk(s.chain) && CacheSound(ExecOf(s))
  {
  }

  // ---------- When the ID cache resolves an entity ----------

  function CountOf(l: Ledger): uint64 { l.trie.count }

  /** Entity id was assigned by block j of the chain. */
  ghost predicate Born(chain: seq<Block>, j: nat, id: uint64) {
    j < |chain| && CountOf(Replay(chain[..j])) < id <= CountOf(Replay(chain[..j + 1]))
  }

  /** From state i to state n the chain was never cut back to block j or below. */
  ghost predicate StaysAbove(ss: seq<State>, i: nat, n: nat, j: nat)
    requires n < |ss|
  {
    forall k :: i <= k <= n ==> |ss[k].chain| > j
  }

  /** Entity id was live at the ancestor of every revert made since its block was last applied. */
  ghost predicate LiveAtEveryRevert(ss: seq<State>, es: seq<Event>, n: nat, j: nat, id: uint64)
    requires n < |ss| && |ss| == |es| + 1
  {
    forall i :: 1 <= i <= n && StaysAbove(ss, i, n, j) && es[i - 1].Revert? ==> id in LiveIds(ss[i].chain)
  }

  lemma LiveAtEveryRevertStep(ss: seq<State>, es: seq<Event>, n: nat, j: nat, id: uint64)
    requires 1 <= n < |ss| && |ss| == |es| + 1
    requires |ss[n - 1].chain| > j && |ss[n].chain| > j
    ensures LiveAtEveryRevert(ss, es, n, j, id) <==>
            LiveAtEveryRevert(ss, es, n - 1, j, id) && (es[n - 1].Revert? ==> id in LiveIds(ss[n].chain))
  {
    hide Replay, LiveIds;
    assert forall i :: 1 <= i <= n - 1 ==> (StaysAbove(ss, i, n, j) <==> StaysAbove(ss, i, n - 1, j));
    assert StaysAbove(ss, n, n, j);
  }

  lemma NewbornLive(ss: seq<State>, es: seq<Event>, n: nat, j: nat, id: uint64)
    requires 1 <= n < |ss| && |ss| == |es| + 1
    requires |ss[n - 1].chain| == j && !es[n - 1].Revert?
    ensures LiveAtEveryRevert(ss, es, n, j, id)
  {
    hide Replay, LiveIds;
    assert forall i :: 1 <= i <= n - 1 ==> !StaysAbove(ss, i, n, j);
  }

  lemma BornPrefix(chain: seq<Block>, chain': seq<Block>, j: nat, id: uint64)
    requires chain <= chain' && j < |chain|
    ensures Born(chain, j, id) <==> Born(chain', j, id)
  {
    assert chain[..j] == chain'[..j] && chain[..j + 1] == chain'[..j + 1];
  }

  lemma BornBound(chain: seq<Block>, j: nat, id: uint64)
    requires ChainOk(chain) && Born(chain, j, id)
    ensures id <= CountOf(Replay(chain))
  {
    hide ChainOk, Replay;
    ChainPrefix(chain, j + 1);
  }

  /** The step at which the run reaches state n. */
  lemma RunStep(ss: seq<State>, es: seq<Event>, n: nat)
    requires IsRun(ss, es) && 1 <= n < |ss|
    ensures EventValid(ss[n - 1], es[n - 1]) && ss[n] == Step(ss[n - 1], es[n - 1]) && Inv(ss[n - 1])
  {
    hide Inv, Step, EventValid;
    RunInv(ss, es, n - 1);
  }

  /**
   * An entity's ID resolves exactly when the entity was live at the ancestor of every revert
   * since the block that created it was last applied.
   */
  lemma {:induction false} IdResolvesIff(ss: seq<State>, es: seq<Event>, n: nat, j: nat, id: uint64)
    requires IsRun(ss, es) && n < |ss| && Born(ss[n].chain, j, id)
    ensures id in ss[n].cache <==> LiveAtEveryRevert(ss, es, n, j, id)
    decreases n, 1
  {
    hide Born, Inv, LiveAtEveryRevert, StaysAbove, ExecBlock, BlockValid, Replay, LiveIds, IsRun, Committed, CommitStep;
    BornInside(ss[n].chain, j, id);
    StartsEmpty(ss, es);
    if n > 0 {
      RunStep(ss, es, n);
      var s, s' := ss[n - 1], ss[n];
      match es[n - 1] {
        case Commit(b) => ResolvesAfterCommit(ss, es, n, j, id, b);
        case Revert(d) =>
          RevertFacts(s, d);
          BornPrefix(s'.chain, s.chain, j, id);
          IdResolvesIff(ss, es, n - 1, j, id);
          LiveAtEveryRevertStep(ss, es, n, j, id);
      }
    }
  }

  lemma StartsEmpty(ss: seq<State>, es: seq<Event>)
    requires IsRun(ss, es)
    ensures ss[0].chain == [] && |ss| == |es| + 1
  {
  }

  lemma BornInside(chain: seq<Block>, j: nat, id: uint64)
    requires Born(chain, j, id)
    ensures j < |chain|
  {
  }

  lemma ResolvesAfterCommit(ss: seq<State>, es: seq<Event>, n: nat, j: nat, id: uint64, b: Block)
    requires IsRun(ss, es) && 1 <= n < |ss| && es[n - 1] == Commit(b) && Born(ss[n].chain, j, id)
    requires EventValid(ss[n - 1], es[n - 1]) && ss[n] == CommitStep(ss[n - 1], b) && Inv(ss[n - 1])
    ensures id in ss[n].cache <==> LiveAtEveryRevert(ss, es, n, j, id)
    decreases n, 0
  {
    hide Born, Inv, LiveAtEveryRevert, StaysAbove, ExecBlock, ApplyBlock, BlockValid, Replay, LiveIds, IsRun;
    hide CommitStep, Committed;
    StartsEmpty(ss, es);
    var s, s' := ss[n - 1], ss[n];
    BornInside(s'.chain, j, id);
    if Committed(s, b) {
      CommitFacts(s, b);
      if j == |s.chain| {
        BornLast(s.chain, b, id);
        NewbornLive(ss, es, n, j, id);
      } else {
        BornPrefix(s.chain, s'.chain, j, id);
        InvChain(s);
        BornBound(s.chain, j, id);
        IdResolvesIff(ss, es, n - 1, j, id);
        LiveAtEveryRevertStep(ss, es, n, j, id);
      }
    } else {
      CommitFails(s, b);
      IdResolvesIff(ss, es, n - 1, j, id);
      LiveAtEveryRevertStep(ss, es, n, j, id);
    }
  }

  /** A block that fails at any operation changes nothing. */
  lemma CommitFails(s: State, b: Block)
    requires !Committed(s, b)
    ensures CommitStep(s, b) == s
  {
  }

  lemma BornLast(chain: seq<Block>, b: Block, id: uint64)
    requires Born(chain + [b], |chain|, id)
    ensures CountOf(Replay(chain)) < id <= CountOf(Replay(chain + [b]))
  {
    hide Replay, CountOf;
    assert (chain + [b])[..|chain|] == chain && (chain + [b])[..|chain| + 1] == chain + [b];
  }

  // ---------- Runs whose ID cache is complete ----------

  /** No revert goes below the ancestor of an earlier revert. */
  ghost predicate RevertsClimb(ss: seq<State>, es: seq<Event>, n: nat)
    requires n < |ss| && |ss| == |es| + 1
  {
    forall i, k :: 1 <= i <= k <= n && es[i - 1].Revert? && es[k - 1].Revert? ==> |ss[i].chain| <= |ss[k].chain|
  }

  lemma {:induction false} AncestorKept(ss: seq<State>, es: seq<Event>, i: nat, n: nat)
    requires IsRun(ss, es) && 1 <= i <= n < |ss| && |ss| == |es| + 1
    requires es[i - 1].Revert? && RevertsClimb(ss, es, n)
    ensures ss[i].chain <= ss[n].chain
    decreases n
  {
    hide Inv, IsRun, ExecBlock, BlockValid, LiveIds;
    if i < n {
      AncestorKept(ss, es, i, n - 1);
      RunStep(ss, es, n);
    }
  }

  lemma {:induction false} BornSomewhere(chain: seq<Block>, id: uint64) returns (j: nat)
    requires ChainOk(chain) && 1 <= id <= CountOf(Replay(chain))
    ensures Born(chain, j, id)
  {
    hide BlockValid, ApplyBlock;
    var init := chain[..|chain| - 1];
    if chain != [] && id <= CountOf(Replay(init)) {
      j := BornSomewhere(init, id);
      BornPrefix(init, chain, j, id);
    } else {
      j := |chain| - 1;
      assert chain[..j + 1] == chain;
    }
  }

  lemma IdBound(l: Ledger, id: uint64)
    requires LedgerInv(l) && id in l.trie.ids
    ensures 1 <= id <= CountOf(l)
  {
  }

  lemma LiveBackward(chain: seq<Block>, chain': seq<Block>, id: uint64)
    requires ChainOk(chain') && chain <= chain' && id in LiveIds(chain') && id <= CountOf(Replay(chain))
    ensures id in LiveIds(chain)
  {
    hide ChainOk, Replay;
    ChainPrefix(chain', |chain|);
    assert chain'[..|chain|] == chain;
  }

  /** In a run where no revert goes below the ancestor of an earlier one, every live entity's ID resolves. */
  lemma ClimbingRunsComplete(ss: seq<State>, es: seq<Event>, n: nat)
    requires IsRun(ss, es) && n < |ss| && |ss| == |es| + 1 && RevertsClimb(ss, es, n)
    ensures Complete(ExecOf(ss[n]))
  {
    hide Inv, IsRun, ChainOk, Replay, LedgerInv, Born, RevertsClimb, StaysAbove, LiveIds;
    var chain := ss[n].chain;
    RunLedgerInv(ss, es, n);
    forall id | id in Replay(chain).trie.ids ensures id in ss[n].cache {
      IdBound(Replay(chain), id);
      var j := BornSomewhere(chain, id);
      ClimbingRunsResolve(ss, es, n, j, id);
    }
  }

  lemma ClimbingRunsResolve(ss: seq<State>, es: seq<Event>, n: nat, j: nat, id: uint64)
    requires IsRun(ss, es) && n < |ss| && |ss| == |es| + 1 && RevertsClimb(ss, es, n)
    requires Born(ss[n].chain, j, id) && id in Replay(ss[n].chain).trie.ids
    ensures id in ss[n].cache
  {
    hide Inv, IsRun, ChainOk, Replay, LedgerInv, Born, CountOf;
    var chain := ss[n].chain;
    RunLedgerInv(ss, es, n);
    forall i | 1 <= i <= n && StaysAbove(ss, i, n, j) && es[i - 1].Revert?
      ensures id in LiveIds(ss[i].chain)
    {
      ClimbPrefix(ss, es, i, n);
      AncestorKept(ss, es, i, n);
      RunLedgerInv(ss, es, i);
      assert |ss[i].chain| > j;
      BornPrefix(ss[i].chain, chain, j, id);
      BornBound(ss[i].chain, j, id);
      LiveBackward(ss[i].chain, chain, id);
    }
    IdResolvesIff(ss, es, n, j, id);
  }

  lemma ClimbPrefix(ss: seq<State>, es: seq<Event>, i: nat, n: nat)
    requires n < |ss| && |ss| == |es| + 1 && RevertsClimb(ss, es, n) && i <= n
    ensures RevertsClimb(ss, es, i)
  {
  }

  // ---------- The store against a fresh replay ----------

  /** With a complete ID cache a block is accepted exactly when its replay succeeds, and the cache stays complete. */
  lemma CompleteCommit(s: State, b: Block)
    requires Inv(s) && BlockValid(s.chain, b) && Complete(ExecOf(s))
    ensures Committed(s, b) <==> ApplyBlock(Replay(s.chain), b).Ok?
    ensures Committed(s, b) ==> Complete(ExecOf(CommitStep(s, b)))
  {
    hide LedgerInv, ExecOps, ApplyOps, OpsValid, CacheSound, Inv, Replay;
    var x := ExecOf(s).(ledger := Start(Replay(s.chain)));
    StartSound(s);
    CompleteExecOps(x, b.number, BlockOps(b.txs));
    if Committed(s, b) { CommitFacts(s, b); }
  }

  ghost function CommitAll(s: State, bs: seq<Block>): State {
    if bs == [] then s else CommitStep(CommitAll(s, bs[..|bs| - 1]), bs[|bs| - 1])
  }

  /** Feeding a canonical chain to an empty store gives the same chain and resolves every ID. */
  lemma {:induction false} FreshReplay(chain: seq<Block>)
    requires ChainOk(chain)
    ensures var s := CommitAll(INITIAL, chain);
            Inv(s) && s.chain == chain && Complete(ExecOf(s))
  {
    hide ApplyBlock, BlockValid, Complete, Inv, ExecBlock, CommitStep;
    if chain == [] {
      InitialInv();
      InitialComplete();
    } else {
      var init, b := chain[..|chain| - 1], chain[|chain| - 1];
      FreshReplay(init);
      var s := CommitAll(INITIAL, init);
      CompleteCommit(s, b);
      CommitFacts(s, b);
    }
  }

  lemma InitialComplete()
    ensures Complete(ExecOf(INITIAL))
  {
  }

  // ---------- Snapshots ----------

  /** While the chain stays at least n blocks long, its first n blocks and their states do not change. */
  lemma {:induction false} SnapshotStable(ss: seq<State>, es: seq<Event>, i: nat, k: nat, n: nat)
    requires IsRun(ss, es) && i <= k < |ss|
    requires forall m :: i <= m <= k ==> |ss[m].chain| >= n
    ensures ss[k].chain[..n] == ss[i].chain[..n]
    ensures Replay(ss[k].chain[..n]) == Replay(ss[i].chain[..n])
    decreases k
  {
    hide Inv, IsRun, ExecBlock, BlockValid, LiveIds, Replay;
    if i < k {
      SnapshotStable(ss, es, i, k - 1, n);
      StartsEmpty(ss, es);
      RunStep(ss, es, k);
      assert |ss[k - 1].chain| >= n && |ss[k].chain| >= n;
      assert ss[k].chain[..n] == ss[k - 1].chain[..n];
    }
  }

  // ---------- Counting ----------

  function Creates(ops: seq<Op>): nat {
    if ops == [] then 0 else Creates(ops[..|ops| - 1]) + if ops[|ops| - 1].Create? then 1 else 0
  }

  function Removes(ops: seq<Op>): nat {
    if ops == [] then 0
    else Removes(ops[..|ops| - 1]) + if ops[|ops| - 1].Delete? || ops[|ops| - 1].Expire? then 1 else 0
  }

  function ChainCreates(chain: seq<Block>): nat {
    if chain == [] then 0
    else ChainCreates(chain[..|chain| - 1]) + Creates(BlockOps(chain[|chain| - 1].txs))
  }

  function ChainRemoves(chain: seq<Block>): nat {
    if chain == [] then 0
    else ChainRemoves(chain[..|chain| - 1]) + Removes(BlockOps(chain[|chain| - 1].txs))
  }

  lemma {:induction false} OpsCount(l: Ledger, n: uint64, ops: seq<Op>)
    requires LedgerInv(l) && OpsValid(l, n, ops) && ApplyOps(l, n, ops).Ok?
    ensures var m := ApplyOps(l, n, ops).value;
            CountOf(m) == CountOf(l) + Creates(ops) && m.removed == l.removed + Removes(ops)
  {
    hide LedgerInv, ApplyOp, OpValid;
    if ops != [] {
      var init := ops[..|ops| - 1];
      OpsCount(l, n, init);
      OpsKeep(l, n, init);
      OpExtends(ApplyOps(l, n, init).value, n, ops[|ops| - 1]);
      OpRemoves(ApplyOps(l, n, init).value, n, ops[|ops| - 1]);
    }
  }

  lemma OpRemoves(l: Ledger, n: uint64, op: Op)
    requires ApplyOp(l, n, op).Ok?
    ensures ApplyOp(l, n, op).value.removed == l.removed + if op.Delete? || op.Expire? then 1 else 0
  {
    hide Annots, AddTo, RemoveFrom, Updated, MoveBucket, Addr, IdOf, Created;
  }

  lemma {:induction false} ChainCount(chain: seq<Block>)
    requires ChainOk(chain)
    ensures CountOf(Replay(chain)) == ChainCreates(chain) && Replay(chain).removed == ChainRemoves(chain)
  {
    hide LedgerInv, ApplyOps, OpsValid;
    if chain != [] {
      var init, b := chain[..|chain| - 1], chain[|chain| - 1];
      ChainCount(init);
      ReplayInv(init);
      StartInv(Replay(init));
      OpsCount(Start(Replay(init)), b.number, BlockOps(b.txs));
    }
  }

  /** The $all bitmap holds the live IDs; its size is creates minus deletes and expires on the canonical chain. */
  lemma AllBitmapCounts(ss: seq<State>, es: seq<Event>, n: nat)
    requires IsRun(ss, es) && n < |ss|
    ensures var chain := ss[n].chain;
            var all := Bits(Replay(chain).trie.annot, ALL_PAIR);
            && all == LiveIds(chain)
            && |all| == ChainCreates(chain) - ChainRemoves(chain)
  {
    hide LedgerInv, IsRun, Replay, ChainOk, ChainCreates, ChainRemoves;
    RunLedgerInv(ss, es, n);
    AllBitmap(Replay(ss[n].chain));
    ChainCount(ss[n].chain);
  }

  lemma AllBitmap(l: Ledger)
    requires LedgerInv(l)
    ensures Bits(l.trie.annot, ALL_PAIR) == l.trie.ids.Keys
    ensures |l.trie.ids.Keys| + l.removed == CountOf(l)
  {
    hide EntitiesInv, BuiltinAnnotations;
    forall id: uint64 ensures id in Bits(l.trie.annot, ALL_PAIR) <==> id in l.trie.ids {
      assert id in Bits(l.trie.annot, ALL_PAIR) <==> Carries(l.trie, ALL_PAIR, id);
      if id in l.trie.ids { AllPairCarried(l.trie.code[l.trie.ids[id]]); }
    }
  }

  lemma AllPairCarried(e: Entity)
    ensures ALL_PAIR in Annots(e)
  {
    assert AllPairs(e)[0] == ALL_PAIR;
  }

  // ---------- A run after which a live entity no longer resolves ----------

  function OneOpBlock(n: uint64, hash: Hash32, parent: Hash32, op: Op): Block {
    Block(n, hash, parent, [Tx(ZERO_ADDRESS, 0, [op])])
  }

  lemma OneOp(n: uint64, hash: Hash32, parent: Hash32, op: Op)
    ensures BlockOps(OneOpBlock(n, hash, parent, op).txs) == [Inject(Tx(ZERO_ADDRESS, 0, [op]), op)]
  {
    var tx := Tx(ZERO_ADDRESS, 0, [op]);
    assert [tx][..0] == [] && BlockOps([]) == [];
    assert InjectAll(tx, [op]) == [Inject(tx, op)];
  }

  lemma OneOpApply(l: Ledger, n: uint64, op: Op)
    ensures ApplyOps(l, n, [op]) == ApplyOp(l, n, op)
    ensures OpsValid(l, n, [op]) <==> OpValid(l, op)
    ensures ApplyOps(l, n, []) == Ok(l) && OpsValid(l, n, [])
  {
    hide ApplyOp, OpValid;
    assert [op][..0] == [];
  }

  /** The create as it runs inside OneOpBlock. */
  function Sent(c: CreateOp): CreateOp { c.(sender := ZERO_ADDRESS, txIndex := 0) }

  /** Nothing was ever created on the chain. */
  ghost predicate Untouched(chain: seq<Block>) {
    var l := Replay(chain);
    l.created == map[] && l.trie.count == 0 && l.trie.ids == map[] && l.trie.code == map[] && l.trie.annot == map[]
  }

  ghost predicate Follows(chain: seq<Block>, hash: Hash32, parent: Hash32) {
    && (forall i :: 0 <= i < |chain| ==> chain[i].hash != hash)
    && (chain != [] ==> parent == chain[|chain| - 1].hash && hash != chain[0].parentHash)
    && hash != parent
  }

  lemma CreateOnNothing(l: Ledger, n: uint64, c: CreateOp)
    requires l.created == map[] && l.trie.count == 0 && l.trie.ids == map[] && l.trie.code == map[]
    requires UserAddress(Addr(c.key)) && ValidAttributes(c.attributes)
    ensures Creatable(Start(l), Sent(c))
    ensures ApplyCreate(Start(l), n, Sent(c)).trie.ids == map[1 := Addr(c.key)]
    ensures ApplyCreate(Start(l), n, Sent(c)).trie.code == map[Addr(c.key) := Created(Sent(c), n)]
  {
    hide Annots, AddTo, Created, Addr, ValidAttributes;
  }

  /** A first create on an untouched chain: one live entity, with ID 1. */
  lemma FirstCreate(chain: seq<Block>, c: CreateOp, hash: Hash32, parent: Hash32)
    requires ChainOk(chain) && Untouched(chain) && Follows(chain, hash, parent) && |chain| + 1 < TWO64
    requires UserAddress(Addr(c.key)) && ValidAttributes(c.attributes)
    ensures var chain' := chain + [OneOpBlock(|chain| + 1, hash, parent, Create(c))];
            && ChainOk(chain')
            && Replay(chain').trie.ids == map[1 := Addr(c.key)]
            && Replay(chain').trie.code == map[Addr(c.key) := Created(Sent(c), |chain| + 1)]
  {
    hide ApplyCreate, Creatable, Created, Addr, ValidAttributes, BlockOps, ApplyOps, OpsValid, Start;
    var n := |chain| + 1;
    var b := OneOpBlock(n, hash, parent, Create(c));
    var chain' := chain + [b];
    assert chain'[..|chain|] == chain && chain'[|chain|] == b;
    OneOp(n, hash, parent, Create(c));
    CreateOnNothing(Replay(chain), n, c);
    OneOpApply(Start(Replay(chain)), n, Create(Sent(c)));
    assert Replay(chain') == ApplyCreate(Start(Replay(chain)), n, Sent(c));
  }

  lemma EmptyChain()
    ensures ChainOk([]) && Untouched([])
  {
  }

  /** An empty block leaves an untouched chain untouched. */
  lemma EmptyNext(chain: seq<Block>, hash: Hash32, parent: Hash32)
    requires ChainOk(chain) && Untouched(chain) && Follows(chain, hash, parent) && |chain| + 1 < TWO64
    ensures var chain' := chain + [Block(|chain| + 1, hash, parent, [])];
            ChainOk(chain') && Untouched(chain')
  {
    var b := Block(|chain| + 1, hash, parent, []);
    var chain' := chain + [b];
    assert chain'[..|chain|] == chain && chain'[|chain|] == b;
    OneOpApply(Start(Replay(chain)), b.number, NoOp);
    assert Replay(chain') == Start(Replay(chain));
  }

  lemma DeleteOnly(l: Ledger, n: uint64, key: Hash32)
    requires l.trie.ids == map[1 := Addr(key)] && Addr(key) in l.trie.code
    requires Addr(key) in l.created && l.created[Addr(key)] == 1
    ensures ApplyOp(Start(l), n, Delete(key)).Ok?
    ensures ApplyOp(Start(l), n, Delete(key)).value.trie.ids == map[]
  {
    hide Annots, RemoveFrom, Addr;
  }

  /** Deleting the only entity leaves none. */
  lemma FirstDelete(chain: seq<Block>, key: Hash32, hash: Hash32, parent: Hash32)
    requires ChainOk(chain) && Follows(chain, hash, parent) && |chain| + 1 < TWO64
    requires Replay(chain).trie.ids == map[1 := Addr(key)] && Addr(key) in Replay(chain).trie.code
    ensures var chain' := chain + [OneOpBlock(|chain| + 1, hash, parent, Delete(key))];
            ChainOk(chain') && Replay(chain').trie.ids == map[]
  {
    hide ApplyOp, Addr, BlockOps, ApplyOps, OpsValid, Start, LedgerInv;
    var n := |chain| + 1;
    var b := OneOpBlock(n, hash, parent, Delete(key));
    var chain' := chain + [b];
    assert chain'[..|chain|] == chain && chain'[|chain|] == b;
    ReplayInv(chain);
    LiveId(Replay(chain), Addr(key));
    OneOp(n, hash, parent, Delete(key));
    DeleteOnly(Replay(chain), n, key);
    OneOpApply(Start(Replay(chain)), n, Delete(key));
    assert ApplyBlock(Replay(chain), b) == ApplyOp(Start(Replay(chain)), n, Delete(key));
  }

  /** Create an entity, delete it, add an empty block. */
  function GapChain(c: CreateOp, h: seq<Hash32>): seq<Block>
    requires |h| == 4
  {
    [ OneOpBlock(1, h[1], h[0], Create(c)),
      OneOpBlock(2, h[2], h[1], Delete(c.key)),
      Block(3, h[3], h[2], []) ]
  }

  lemma GapFirst(c: CreateOp, h: seq<Hash32>)
    requires |h| == 4 && h[0] != h[1]
    requires UserAddress(Addr(c.key)) && ValidAttributes(c.attributes)
    ensures var chain := GapChain(c, h)[..1];
            && ChainOk(chain) && LiveIds(chain) == {1} && Replay(chain).trie.ids == map[1 := Addr(c.key)]
            && Replay(chain).trie.code == map[Addr(c.key) := Created(Sent(c), 1)]
  {
    hide Replay, ChainOk, Untouched, Created, Addr, ValidAttributes;
    EmptyChain();
    FirstCreate([], c, h[1], h[0]);
    assert GapChain(c, h)[..1] == [] + [OneOpBlock(1, h[1], h[0], Create(c))];
  }

  lemma GapRest(c: CreateOp, h: seq<Hash32>)
    requires |h| == 4 && h[0] != h[1] && h[0] != h[2] && h[0] != h[3] && h[1] != h[2] && h[1] != h[3] && h[2] != h[3]
    requires UserAddress(Addr(c.key)) && ValidAttributes(c.attributes)
    ensures ChainOk(GapChain(c, h)) && LiveIds(GapChain(c, h)[..2]) == {}
  {
    hide Replay, Addr, ValidAttributes, ApplyBlock, OpsValid, BlockOps;
    GapFirst(c, h);
    var chain := GapChain(c, h);
    assert |chain[..1]| == 1 && chain[..1][0] == chain[0];
    FirstDelete(chain[..1], c.key, h[2], h[1]);
    assert chain[..2] == chain[..1] + [chain[1]];
    assert chain[..3] == chain && chain[..2] + [chain[2]] == chain;
    EmptyBlockApplies(Replay(chain[..2]), chain[2]);
  }

  lemma EmptyBlockApplies(l: Ledger, b: Block)
    requires b.txs == []
    ensures ApplyBlock(l, b) == Ok(Start(l)) && OpsValid(Start(l), b.number, BlockOps(b.txs))
  {
  }

  /** Create, delete, add an empty block, revert it: the cache is empty while the creating block is still there. */
  lemma GapRun(c: CreateOp, h: seq<Hash32>) returns (ss: seq<State>, es: seq<Event>)
    requires |h| == 4 && h[0] != h[1] && h[0] != h[2] && h[0] != h[3] && h[1] != h[2] && h[1] != h[3] && h[2] != h[3]
    requires UserAddress(Addr(c.key)) && ValidAttributes(c.attributes)
    ensures IsRun(ss, es) && |ss| == 5 && |es| == 4 && RevertsClimb(ss, es, 4)
    ensures ss[4].chain == GapChain(c, h)[..2] && ss[4].cache == map[]
  {
    hide Replay, BlockValid, ApplyBlock, ExecBlock, Addr, ValidAttributes, Complete, Inv, CommitStep, ChainOk,
         OneOpBlock;
    GapRest(c, h);
    var chain := GapChain(c, h);
    es := [Commit(chain[0]), Commit(chain[1]), Commit(chain[2]), Revert(1)];
    var s1, s2, s3 := CommitAll(INITIAL, chain[..1]), CommitAll(INITIAL, chain[..2]), CommitAll(INITIAL, chain[..3]);
    GapCommit(chain, 0);
    GapCommit(chain, 1);
    GapCommit(chain, 2);
    var s4 := RevertStep(s3, 1);
    ss := [INITIAL, s1, s2, s3, s4];
    assert s4.chain == chain[..2];
    assert s4.cache == map[];
  }

  /**
   * The ID cache is not complete on every run. Create an entity in block 1, delete it in block 2,
   * add block 3, revert block 3, revert block 2: the entity is live again, its ID entry is gone,
   * and an operation on it that the ledger accepts is refused.
   */
  lemma IdCacheGap(c: CreateOp, h: seq<Hash32>, expiry: uint64) returns (ss: seq<State>, es: seq<Event>)
    requires |h| == 4 && h[0] != h[1] && h[0] != h[2] && h[0] != h[3] && h[1] != h[2] && h[1] != h[3] && h[2] != h[3]
    requires UserAddress(Addr(c.key)) && ValidAttributes(c.attributes)
    ensures IsRun(ss, es) && |es| == 5
    ensures ss[5].chain == GapChain(c, h)[..1]
    ensures LiveIds(ss[5].chain) == {1} && 1 !in ss[5].cache
    ensures ApplyOp(Replay(ss[5].chain), 2, Extend(c.key, expiry)).Ok?
    ensures ExecOp(ExecOf(ss[5]), 2, Extend(c.key, expiry)) == Err(EntityIdNotFound)
  {
    hide Replay, BlockValid, ExecBlock, Addr, ValidAttributes, Inv, CommitStep, MoveBucket, OneOpBlock, LiveIds;
    GapFirst(c, h);
    var chain := GapChain(c, h);
    var ss4, es4 := GapRun(c, h);
    var s5 := RevertStep(ss4[4], 1);
    ss, es := ss4 + [s5], es4 + [Revert(1)];
    assert s5.chain == chain[..1] && s5.cache == map[];
    assert Target(Extend(c.key, expiry)) == Addr(c.key);
  }

  lemma GapCommit(chain: seq<Block>, k: nat)
    requires ChainOk(chain) && k < |chain|
    ensures CommitAll(INITIAL, chain[..k]).chain == chain[..k]
    ensures CommitAll(INITIAL, chain[..k + 1]).chain == chain[..k + 1]
    ensures EventValid(CommitAll(INITIAL, chain[..k]), Commit(chain[k]))
    ensures CommitAll(INITIAL, chain[..k + 1]) == CommitStep(CommitAll(INITIAL, chain[..k]), chain[k])
    ensures chain[..0] == [] && CommitAll(INITIAL, chain[..0]) == INITIAL
  {
    hide Replay, BlockValid, ApplyBlock, ExecBlock, Complete, Inv, CommitStep;
    ChainPrefix(chain, k);
    ChainPrefix(chain, k + 1);
    FreshReplay(chain[..k]);
    FreshReplay(chain[..k + 1]);
    assert chain[..k + 1][..k] == chain[..k];
  }
}
