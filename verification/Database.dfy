/** The real database, its batches, and the per-block staging overlay. */
module Database {
  import opened Wrappers
  import opened Keys

  /** The effect of a batch: the last write to each key, None for a delete. */
  type Writes = map<DbKey, Option<DbVal>>

  function ApplyWrites(db: Db, w: Writes): (r: Db)
    ensures forall k :: Lookup(r, k) == if k in w then w[k] else Lookup(db, k)
  {
    map k | k in db.Keys + w.Keys && (k in w ==> w[k].Some?) :: if k in w then w[k].value else db[k]
  }

  class Batch {
    var writes: Writes

    constructor ()
      ensures writes == map[]
    {
      writes := map[];
    }

    method Put(k: DbKey, v: DbVal)
      modifies this
      ensures writes == old(writes)[k := Some(v)]
    {
      writes := writes[k := Some(v)];
    }

    method Delete(k: DbKey)
      modifies this
      ensures writes == old(writes)[k := None]
    {
      writes := writes[k := None];
    }
  }

  /** The key-value store on disk. A batch is written in one atomic step. */
  class RawDb {
    var data: Db

    constructor ()
      ensures data == map[]
    {
      data := map[];
    }

    method Get(k: DbKey) returns (v: Option<DbVal>)
      ensures v == Lookup(data, k)
    {
      v := Lookup(data, k);
    }

    method Write(b: Batch)
      modifies this
      ensures data == ApplyWrites(old(data), b.writes)
    {
      data := ApplyWrites(data, b.writes);
    }
  }

  /** Routes writes to an in-memory map; reads check it before the real database. */
  class StagingDB {
    const disk: RawDb
    var staging: Db

    constructor (disk: RawDb)
      ensures this.disk == disk && staging == map[]
    {
      this.disk := disk;
      staging := map[];
    }

    /** What a reader of the overlay sees. */
    ghost function View(): Db
      reads this, disk
    {
      disk.data + staging
    }

    method Get(k: DbKey) returns (v: Option<DbVal>)
      ensures v == Lookup(View(), k)
    {
      if k in staging {
        return Some(staging[k]);
      }
      v := disk.Get(k);
    }

    method Has(k: DbKey) returns (b: bool)
      ensures b <==> k in View()
    {
      if k in staging {
        return true;
      }
      b := k in disk.data;
    }

    method Put(k: DbKey, v: DbVal)
      modifies this
      ensures staging == old(staging)[k := v] && View() == old(View())[k := v]
    {
      staging := staging[k := v];
    }

    /** Only the staged entry goes: an entry of the real database stays visible. */
    method Delete(k: DbKey)
      modifies this
      ensures staging == old(staging) - {k}
      ensures View() == if k in disk.data then old(View())[k := disk.data[k]] else old(View()) - {k}
    {
      staging := staging - {k};
    }

    /** Copies every staged entry to the real database in one batch. */
    method Commit()
      modifies disk
      ensures disk.data == old(View())
    {
      var batch := new Batch();
      var todo := staging.Keys;
      while todo != {}
        invariant todo <= staging.Keys && disk.data == old(disk.data) && staging == old(staging)
        invariant fresh(batch)
        invariant batch.writes.Keys == staging.Keys - todo
        invariant forall k :: k in batch.writes ==> batch.writes[k] == Some(staging[k])
        decreases todo
      {
        var k :| k in todo;
        batch.Put(k, staging[k]);
        todo := todo - {k};
      }
      disk.Write(batch);
      assert forall k :: Lookup(disk.data, k) == Lookup(old(View()), k);
      LookupExtensional(disk.data, old(View()));
    }
  }

  lemma LookupExtensional(a: Db, b: Db)
    requires forall k :: Lookup(a, k) == Lookup(b, k)
    ensures a == b
  {
    forall k ensures k in a <==> k in b {
      assert Lookup(a, k) == Lookup(b, k);
    }
    forall k | k in a ensures a[k] == b[k] {
      assert Lookup(a, k) == Lookup(b, k);
    }
  }

  // ---------- Staging against direct application ----------

  datatype DbOp = PutOp(k: DbKey, v: DbVal) | DeleteOp(k: DbKey)

  /** The operations applied directly to a database. */
  function Direct(db: Db, ops: seq<DbOp>): Db {
    if ops == [] then db
    else
      var d, op := Direct(db, ops[..|ops| - 1]), ops[|ops| - 1];
      match op
      case PutOp(k, v) => d[k := v]
      case DeleteOp(k) => d - {k}
  }

  /** What the operations leave in the staging map. */
  function Staged(ops: seq<DbOp>): Db { Direct(map[], ops) }

  predicate LastIsDelete(ops: seq<DbOp>, k: DbKey) {
    ops != [] &&
    var op := ops[|ops| - 1];
    if op.k == k then op.DeleteOp? else LastIsDelete(ops[..|ops| - 1], k)
  }

  predicate Touched(ops: seq<DbOp>, k: DbKey) {
    ops != [] && (ops[|ops| - 1].k == k || Touched(ops[..|ops| - 1], k))
  }

  lemma {:induction false} DirectLookup(db: Db, ops: seq<DbOp>, k: DbKey)
    ensures Lookup(Direct(db, ops), k) ==
            if Touched(ops, k) then Lookup(Staged(ops), k) else Lookup(db, k)
    ensures Touched(ops, k) ==> (k in Staged(ops) <==> !LastIsDelete(ops, k))
    ensures !Touched(ops, k) ==> k !in Staged(ops) && !LastIsDelete(ops, k)
  {
    if ops != [] {
      DirectLookup(db, ops[..|ops| - 1], k);
    }
  }

  /**
   * Committing the staged entries gives the directly updated database exactly when
   * no key of the database has a delete as its last operation. The block path only puts.
   */
  lemma StagingIsDirectIff(db: Db, ops: seq<DbOp>)
    ensures db + Staged(ops) == Direct(db, ops) <==> forall k :: k in db ==> !LastIsDelete(ops, k)
  {
    forall k ensures Lookup(db + Staged(ops), k) == Lookup(Direct(db, ops), k) <==> !(k in db && LastIsDelete(ops, k)) {
      DirectLookup(db, ops, k);
    }
    if forall k :: k in db ==> !LastIsDelete(ops, k) {
      LookupExtensional(db + Staged(ops), Direct(db, ops));
    } else {
      var k :| k in db && LastIsDelete(ops, k);
      assert Lookup(db + Staged(ops), k) != Lookup(Direct(db, ops), k);
    }
  }
}
