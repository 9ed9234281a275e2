/** Rebuilding the mutable caches from an old trie. */
module Revert {
  import opened Bytes
  import opened Wrappers
  import opened Entities
  import opened Ledger
  import opened Chain
  import opened Keys
  import opened Database
  import opened CacheStores

  /** How far a revert batch has come: pairs and IDs looked at, block hashes and numbers dropped. */
  datatype Progress = Progress(pairs: set<Pair>, ids: set<uint64>, hashes: set<Hash32>, numbers: set<uint64>)

  const NOTHING := Progress({}, {}, {}, {})

  function SlotVal(t: Trie, p: Pair): Option<DbVal> {
    if p in t.annot then Some(HashVal(t.annot[p])) else None
  }

  /** The ID entry named by an address entry has been looked at and its slot is zero. */
  predicate Orphan(db: Db, t: Trie, ids: set<uint64>, k: DbKey) {
    k in db && db[k].IdVal? && db[k].id in ids && db[k].id !in t.ids
  }

  /** The content of each key once the batch is written. */
  function RevertLookup(db: Db, t: Trie, pr: Progress, k: DbKey): Option<DbVal> {
    match k
    case AnnotKey(p) => if p in pr.pairs then SlotVal(t, p) else Lookup(db, k)
    case IdKey(id) => if id in pr.ids && id !in t.ids then None else Lookup(db, k)
    case AddrKey(a) => if Orphan(db, t, pr.ids, k) then None else Lookup(db, k)
    case RootKey(h) => if h in pr.hashes then None else Lookup(db, k)
    case ParentKey(h) => if h in pr.hashes then None else Lookup(db, k)
    case BlockNumberKey(n) => if n in pr.numbers then None else Lookup(db, k)
    case _ => Lookup(db, k)
  }

  function Pending(db: Db, w: Writes, k: DbKey): Option<DbVal> {
    if k in w then w[k] else Lookup(db, k)
  }

  ghost predicate BatchIs(db: Db, t: Trie, w: Writes, pr: Progress) {
    forall k :: Pending(db, w, k) == RevertLookup(db, t, pr, k)
  }

  lemma EmptyBatch(db: Db, t: Trie)
    ensures BatchIs(db, t, map[], NOTHING)
  {
  }

  lemma PairStep(db: Db, t: Trie, w: Writes, pr: Progress, p: Pair)
    requires BatchIs(db, t, w, pr)
    ensures BatchIs(db, t, w[AnnotKey(p) := SlotVal(t, p)], pr.(pairs := pr.pairs + {p}))
  {
    var w', pr' := w[AnnotKey(p) := SlotVal(t, p)], pr.(pairs := pr.pairs + {p});
    forall k ensures Pending(db, w', k) == RevertLookup(db, t, pr', k) {
      assert Pending(db, w, k) == RevertLookup(db, t, pr, k);
    }
  }

  lemma LiveIdStep(db: Db, t: Trie, w: Writes, pr: Progress, id: uint64)
    requires BatchIs(db, t, w, pr) && id in t.ids
    ensures BatchIs(db, t, w, pr.(ids := pr.ids + {id}))
  {
    forall k ensures Pending(db, w, k) == RevertLookup(db, t, pr.(ids := pr.ids + {id}), k) {
      assert Pending(db, w, k) == RevertLookup(db, t, pr, k);
    }
  }

  lemma ZeroIdStep(db: Db, t: Trie, w: Writes, pr: Progress, id: uint64, a: Address, cache: Cache)
    requires BatchIs(db, t, w, pr) && id !in t.ids
    requires IdSync(db, cache) && id in cache && cache[id] == a
    ensures BatchIs(db, t, w[AddrKey(a) := None][IdKey(id) := None], pr.(ids := pr.ids + {id}))
  {
    var w', pr' := w[AddrKey(a) := None][IdKey(id) := None], pr.(ids := pr.ids + {id});
    forall k ensures Pending(db, w', k) == RevertLookup(db, t, pr', k) {
      assert Pending(db, w, k) == RevertLookup(db, t, pr, k);
    }
  }

  lemma RefStep(db: Db, t: Trie, w: Writes, pr: Progress, h: Hash32, n: uint64)
    requires BatchIs(db, t, w, pr)
    ensures BatchIs(db, t, w[RootKey(h) := None][ParentKey(h) := None][BlockNumberKey(n) := None],
                    pr.(hashes := pr.hashes + {h}, numbers := pr.numbers + {n}))
  {
    var w' := w[RootKey(h) := None][ParentKey(h) := None][BlockNumberKey(n) := None];
    var pr' := pr.(hashes := pr.hashes + {h}, numbers := pr.numbers + {n});
    forall k ensures Pending(db, w', k) == RevertLookup(db, t, pr', k) {
      assert Pending(db, w, k) == RevertLookup(db, t, pr, k);
    }
  }

  ghost predicate CleanPairs(db: Db) {
    forall p :: PairsKey(p) in db ==> 0 !in p.key
  }

  ghost function StoredPairs(db: Db): set<Pair> { set k | k in db && k.PairsKey? :: k.p }

  ghost function StoredIds(db: Db): set<uint64> { set k | k in db && k.IdKey? :: k.id }

  /**
   * Every pair ever indexed gets its pointer rewritten from the slot at the given trie, or deleted.
   * `Keys.PrefixScanExact` says that the prefix scan meets exactly these keys.
   */
  method RepopulateAnnot(disk: RawDb, batch: Batch, sdb: StateDB)
    requires CleanPairs(disk.data) && BatchIs(disk.data, sdb.trie, batch.writes, NOTHING)
    modifies batch
    ensures BatchIs(disk.data, sdb.trie, batch.writes, NOTHING.(pairs := StoredPairs(disk.data)))
  {
    hide BatchIs, PairSuffix, SlotVal;
    var keys := set k | k in disk.data && k.PairsKey?;
    ghost var done: set<Pair> := {};
    while keys != {}
      invariant keys <= set k | k in disk.data && k.PairsKey?
      invariant forall k :: k in disk.data && k.PairsKey? ==> k in keys || k.p in done
      invariant done <= StoredPairs(disk.data)
      invariant BatchIs(disk.data, sdb.trie, batch.writes, NOTHING.(pairs := done))
      decreases keys
    {
      var key :| key in keys;
      keys := keys - {key};
      SplitRecovers(key.p);
      PairStep(disk.data, sdb.trie, batch.writes, NOTHING.(pairs := done), key.p);
      var suffix := PairSuffix(key.p);
      var sep := IndexNul(suffix);
      var pair := Pair(suffix[..sep], suffix[sep + 1..]);
      RewritePointer(batch, sdb, pair);
      done := done + {pair};
    }
    assert done == StoredPairs(disk.data);
  }

  method RewritePointer(batch: Batch, sdb: StateDB, p: Pair)
    modifies batch
    ensures batch.writes == old(batch.writes)[AnnotKey(p) := SlotVal(sdb.trie, p)]
  {
    if p !in sdb.trie.annot {
      batch.Delete(AnnotKey(p));
    } else {
      batch.Put(AnnotKey(p), HashVal(sdb.trie.annot[p]));
    }
  }

  /** Every ID entry whose slot is zero at the given trie is removed with its address entry. */
  method RepopulateIDs(disk: RawDb, batch: Batch, sdb: StateDB, ghost pairs: set<Pair>, ghost cache: Cache)
    requires IdSync(disk.data, cache) && BatchIs(disk.data, sdb.trie, batch.writes, NOTHING.(pairs := pairs))
    modifies batch
    ensures BatchIs(disk.data, sdb.trie, batch.writes, Progress(pairs, StoredIds(disk.data), {}, {}))
  {
    hide BatchIs;
    var keys := set k | k in disk.data && k.IdKey?;
    ghost var done: set<uint64> := {};
    while keys != {}
      invariant keys <= set k | k in disk.data && k.IdKey?
      invariant forall k :: k in disk.data && k.IdKey? ==> k in keys || k.id in done
      invariant done <= StoredIds(disk.data)
      invariant BatchIs(disk.data, sdb.trie, batch.writes, Progress(pairs, done, {}, {}))
      decreases keys
    {
      var key :| key in keys;
      keys := keys - {key};
      var id, pr := key.id, Progress(pairs, done, {}, {});
      var v := disk.data[key];
      assert Lookup(disk.data, IdKey(id)) == Some(AddressVal(cache[id]));
      if id !in sdb.trie.ids {
        ZeroIdStep(disk.data, sdb.trie, batch.writes, pr, id, cache[id], cache);
        batch.Delete(AddrKey(v.a));
        batch.Delete(key);
      } else {
        LiveIdStep(disk.data, sdb.trie, batch.writes, pr, id);
      }
      done := done + {id};
    }
    assert done == StoredIds(disk.data);
  }
}
