/**
 * The write buffer of one block. Entities and bitmaps gather in dirty maps and are flushed once at Commit;
 * `exec` is the write-through state the buffer stands for.
 */
module CacheStores {
  import opened Bytes
  import opened Wrappers
  import opened Entities
  import opened Ledger
  import opened Chain
  import opened Keys
  import opened Database

  // ---------- How the flat caches mirror a trie ----------

  /** Every pointer equals the trie slot of its pair, and is absent exactly when the slot is zero. */
  ghost predicate AnnotSync(db: Db, annot: map<Pair, Hash>) {
    forall p :: Lookup(db, AnnotKey(p)) == if p in annot then Some(HashVal(annot[p])) else None
  }

  /** Every bitmap a trie commits to is stored, and every pair it uses is in the pair index. */
  ghost predicate Covered(db: Db, annot: map<Pair, Hash>) {
    forall p :: p in annot ==> Lookup(db, BitmapKey(annot[p])) == Some(BitmapVal(annot[p].ids)) && PairsKey(p) in db
  }

  /** The two ID maps are inverse to each other and hold exactly the cache. */
  ghost predicate IdSync(db: Db, cache: Cache) {
    && (forall id :: Lookup(db, IdKey(id)) == if id in cache then Some(AddressVal(cache[id])) else None)
    && (forall a :: AddrKey(a) in db ==>
          db[AddrKey(a)].IdVal? && db[AddrKey(a)].id in cache && cache[db[AddrKey(a)].id] == a)
    && (forall id :: id in cache ==> Lookup(db, AddrKey(cache[id])) == Some(IdVal(id)))
  }

  /** What the staging area may hold before Commit. */
  ghost predicate OnlyIds(staging: Db) {
    forall k :: k in staging ==> k.IdKey? || k.AddrKey?
  }

  function Overlay(annot: map<Pair, Hash>, dirty: map<Pair, set<uint64>>): map<Pair, Hash> {
    map p | p in annot.Keys + dirty.Keys :: if p in dirty then OfBitmap(dirty[p]) else annot[p]
  }

  // ---------- The trie under construction ----------

  class StateDB {
    var trie: Trie

    constructor (root: Root)
      ensures trie == root.trie
    {
      trie := root.trie;
    }

    method InitSystemAccount()
      modifies this
      ensures trie == old(trie).(sys := true)
    {
      if !trie.sys {
        trie := trie.(sys := true);
      }
    }

    method IncrementEntityCount() returns (id: uint64)
      modifies this
      ensures id == (old(trie).count + 1) % TWO64 && trie == old(trie).(count := id)
    {
      id := (trie.count + 1) % TWO64;
      trie := trie.(count := id);
    }

    /** A fresh account carries no code. */
    method CreateAccount(a: Address)
      modifies this
      ensures trie == old(trie).(code := old(trie).code - {a})
    {
      trie := trie.(code := trie.code - {a});
    }

    method SetIDSlot(id: uint64, a: Address)
      modifies this
      ensures trie == old(trie).(ids := SetIdSlot(old(trie).ids, id, a))
    {
      trie := trie.(ids := SetIdSlot(trie.ids, id, a));
    }

    method ClearIDSlot(id: uint64)
      modifies this
      ensures trie == old(trie).(ids := old(trie).ids - {id})
    {
      trie := trie.(ids := trie.ids - {id});
    }

    method SetAnnotSlot(p: Pair, h: Hash)
      modifies this
      ensures trie == old(trie).(annot := old(trie).annot[p := h])
    {
      trie := trie.(annot := trie.annot[p := h]);
    }

    method SetCode(a: Address, e: Option<Entity>)
      modifies this
      ensures trie == old(trie).(code := if e.Some? then old(trie).code[a := e.value] else old(trie).code - {a})
    {
      trie := trie.(code := if e.Some? then trie.code[a := e.value] else trie.code - {a});
    }
  }

  // ---------- Bucket lemmas ----------

  lemma AddOne(annot: map<Pair, Hash>, ps: set<Pair>, p: Pair, id: uint64)
    ensures AddTo(AddTo(annot, ps, id), {p}, id) == AddTo(annot, ps + {p}, id)
  {
  }

  lemma RemoveOne(annot: map<Pair, Hash>, ps: set<Pair>, p: Pair, id: uint64)
    ensures RemoveFrom(RemoveFrom(annot, ps, id), {p}, id) == RemoveFrom(annot, ps + {p}, id)
  {
    var b := Bits(annot, p);
    assert (b - {id}) - {id} == b - {id};
    assert RemoveFrom(RemoveFrom(annot, ps, id), {p}, id).Keys == RemoveFrom(annot, ps + {p}, id).Keys;
  }

  lemma AddNone(annot: map<Pair, Hash>, id: uint64)
    ensures AddTo(annot, {}, id) == annot && RemoveFrom(annot, {}, id) == annot
  {
  }

  lemma OverlayAdd(annot: map<Pair, Hash>, dirty: map<Pair, set<uint64>>, p: Pair, id: uint64)
    ensures Overlay(annot, dirty[p := Bits(Overlay(annot, dirty), p) + {id}]) == AddTo(Overlay(annot, dirty), {p}, id)
    ensures Overlay(annot, dirty[p := Bits(Overlay(annot, dirty), p) - {id}]) ==
            RemoveFrom(Overlay(annot, dirty), {p}, id)
  {
  }

  class CacheStore {
    const stagingDB: StagingDB
    const stateDB: StateDB
    const blockNumber: uint64
    const blockHash: Hash32
    const parentHash: Hash32
    var dirtyEntities: map<Address, Entity>
    var dirtyBitmaps: map<Pair, set<uint64>>
    ghost var exec: Exec

    constructor (disk: RawDb, state: StateDB, number: uint64, hash: Hash32, parent: Hash32, ghost x: Exec)
      ensures stagingDB.disk == disk && stateDB == state && fresh(stagingDB)
      ensures stagingDB.staging == map[] && dirtyEntities == map[] && dirtyBitmaps == map[]
      ensures blockNumber == number && blockHash == hash && parentHash == parent && exec == x
    {
      stagingDB := new StagingDB(disk);
      stateDB := state;
      blockNumber, blockHash, parentHash := number, hash, parent;
      dirtyEntities, dirtyBitmaps, exec := map[], map[], x;
    }

    ghost function Annot(): map<Pair, Hash>
      reads this, stateDB
    {
      Overlay(stateDB.trie.annot, dirtyBitmaps)
    }

    /** The trie with the dirty maps on top of it. */
    ghost function View(): Trie
      reads this, stateDB
    {
      stateDB.trie.(annot := Annot(), code := stateDB.trie.code + dirtyEntities)
    }

    /** The overlay still mirrors the trie the block started from. */
    ghost predicate Synced()
      reads stagingDB, stagingDB.disk, stateDB
    {
      && AnnotSync(stagingDB.View(), stateDB.trie.annot)
      && Covered(stagingDB.View(), stateDB.trie.annot)
    }

    ghost predicate Valid()
      reads this, stagingDB, stagingDB.disk, stateDB
    {
      && Synced()
      && View() == exec.ledger.trie
      && LedgerInv(exec.ledger)
      && CacheSound(exec)
      && IdSync(stagingDB.View(), exec.cache)
      && OnlyIds(stagingDB.staging)
    }

    // ---------- store/bitmap.go ----------

    /** The stored hash of the pair leads to no bitmap. */
    ghost predicate MissingBlob(p: Pair)
      reads stagingDB, stagingDB.disk
    {
      var v := Lookup(stagingDB.View(), AnnotKey(p));
      && v.Some? && v.value.HashVal?
      && !(BitmapKey(v.value.h) in stagingDB.View() && stagingDB.View()[BitmapKey(v.value.h)].BitmapVal?)
    }

    ghost function Stored(p: Pair): set<uint64>
      reads stagingDB, stagingDB.disk
      requires !MissingBlob(p)
    {
      var v := Lookup(stagingDB.View(), AnnotKey(p));
      if v.Some? && v.value.HashVal? then stagingDB.View()[BitmapKey(v.value.h)].ids else {}
    }

    /** Loads the bitmap on first touch, then changes the cached copy. */
    method MutateBitmap(p: Pair, mutate: set<uint64> -> set<uint64>) returns (r: Result<()>)
      modifies this`dirtyBitmaps
      ensures r.Err? <==> p !in old(dirtyBitmaps) && MissingBlob(p)
      ensures r.Err? ==> dirtyBitmaps == old(dirtyBitmaps) && r.error == BitmapNotFound
      ensures r.Ok? ==>
        dirtyBitmaps ==
          old(dirtyBitmaps)[p := mutate(if p in old(dirtyBitmaps) then old(dirtyBitmaps)[p] else Stored(p))]
    {
      if p !in dirtyBitmaps {
        var pointer := stagingDB.Get(AnnotKey(p));
        var bm := {};
        if pointer.Some? && pointer.value.HashVal? {
          var bytes := stagingDB.Get(BitmapKey(pointer.value.h));
          if bytes.None? || !bytes.value.BitmapVal? {
            return Err(BitmapNotFound);
          }
          bm := bytes.value.ids;
        }
        dirtyBitmaps := dirtyBitmaps[p := bm];
      }
      dirtyBitmaps := dirtyBitmaps[p := mutate(dirtyBitmaps[p])];
      return Ok(());
    }

    lemma LoadsSlot(p: Pair)
      requires Synced()
      ensures !MissingBlob(p) && Stored(p) == Bits(stateDB.trie.annot, p)
    {
    }

    method BitmapAdd(p: Pair, id: uint64)
      requires Synced()
      modifies this`dirtyBitmaps
      ensures Annot() == AddTo(old(Annot()), {p}, id)
    {
      LoadsSlot(p);
      OverlayAdd(stateDB.trie.annot, dirtyBitmaps, p, id);
      ghost var before := Bits(Annot(), p);
      var r := MutateBitmap(p, s => s + {id});
      assert dirtyBitmaps == old(dirtyBitmaps)[p := before + {id}];
    }

    method BitmapRemove(p: Pair, id: uint64)
      requires Synced()
      modifies this`dirtyBitmaps
      ensures Annot() == RemoveFrom(old(Annot()), {p}, id)
    {
      LoadsSlot(p);
      OverlayAdd(stateDB.trie.annot, dirtyBitmaps, p, id);
      ghost var before := Bits(Annot(), p);
      var r := MutateBitmap(p, s => s - {id});
      assert dirtyBitmaps == old(dirtyBitmaps)[p := before - {id}];
    }

    method AddEach(pairs: seq<Pair>, id: uint64)
      requires Synced()
      modifies this`dirtyBitmaps
      ensures Annot() == AddTo(old(Annot()), PairSet(pairs), id)
    {
      hide AnnotSync, Covered, AddTo, Overlay;
      ghost var done := {};
      AddNone(Annot(), id);
      for i := 0 to |pairs|
        invariant done == PairSet(pairs[..i])
        invariant Annot() == AddTo(old(Annot()), done, id)
      {
        AddOne(old(Annot()), done, pairs[i], id);
        BitmapAdd(pairs[i], id);
        done := done + {pairs[i]};
      }
      assert pairs[..|pairs|] == pairs;
    }

    method RemoveEach(pairs: seq<Pair>, id: uint64)
      requires Synced()
      modifies this`dirtyBitmaps
      ensures Annot() == RemoveFrom(old(Annot()), PairSet(pairs), id)
    {
      hide AnnotSync, Covered, RemoveFrom, Overlay;
      ghost var done := {};
      AddNone(Annot(), id);
      for i := 0 to |pairs|
        invariant done == PairSet(pairs[..i])
        invariant Annot() == RemoveFrom(old(Annot()), done, id)
      {
        RemoveOne(old(Annot()), done, pairs[i], id);
        BitmapRemove(pairs[i], id);
        done := done + {pairs[i]};
      }
      assert pairs[..|pairs|] == pairs;
    }

    /** Adds id to the pairs of `after` that are not in `before`, in any iteration order. */
    method AddMissing(before: set<Pair>, after: set<Pair>, id: uint64)
      requires Synced()
      modifies this`dirtyBitmaps
      ensures Annot() == AddTo(old(Annot()), after - before, id)
    {
      hide AnnotSync, Covered, AddTo, Overlay;
      var todo := after;
      AddNone(Annot(), id);
      assert after - before - todo == {};
      while todo != {}
        invariant todo <= after
        invariant Annot() == AddTo(old(Annot()), after - before - todo, id)
        decreases todo
      {
        var p :| p in todo;
        if p !in before {
          AddOne(old(Annot()), after - before - todo, p, id);
          BitmapAdd(p, id);
          assert after - before - todo + {p} == after - before - (todo - {p});
        } else {
          assert after - before - todo == after - before - (todo - {p});
        }
        todo := todo - {p};
      }
      assert after - before - todo == after - before;
    }

    /** Removes id from the pairs of `before` that are not in `after`, in any iteration order. */
    method RemoveDropped(before: set<Pair>, after: set<Pair>, id: uint64)
      requires Synced()
      modifies this`dirtyBitmaps
      ensures Annot() == RemoveFrom(old(Annot()), before - after, id)
    {
      hide AnnotSync, Covered, RemoveFrom, Overlay;
      var todo := before;
      AddNone(Annot(), id);
      assert before - after - todo == {};
      while todo != {}
        invariant todo <= before
        invariant Annot() == RemoveFrom(old(Annot()), before - after - todo, id)
        decreases todo
      {
        var p :| p in todo;
        if p !in after {
          RemoveOne(old(Annot()), before - after - todo, p, id);
          BitmapRemove(p, id);
          assert before - after - todo + {p} == before - after - (todo - {p});
        } else {
          assert before - after - todo == before - after - (todo - {p});
        }
        todo := todo - {p};
      }
      assert before - after - todo == before - after;
    }

    // ---------- store/ops.go ----------

    /** The entity from the dirty cache, or from the trie on first access. */
    method GetEntity(a: Address) returns (r: Result<Entity>)
      modifies this`dirtyEntities
      ensures r == if a in old(View()).code then Ok(old(View()).code[a]) else Err(EntityNotFound)
      ensures View() == old(View())
      ensures r.Ok? ==> dirtyEntities == old(dirtyEntities)[a := r.value]
    {
      if a in dirtyEntities {
        assert dirtyEntities == dirtyEntities[a := dirtyEntities[a]];
        return Ok(dirtyEntities[a]);
      }
      if a !in stateDB.trie.code {
        return Err(EntityNotFound);
      }
      var e := stateDB.trie.code[a];
      assert stateDB.trie.code + dirtyEntities == stateDB.trie.code + dirtyEntities[a := e];
      dirtyEntities := dirtyEntities[a := e];
      return Ok(e);
    }

    /** The ID of an address through the staging overlay. */
    method GetEntityId(a: Address) returns (r: Result<uint64>)
      requires Valid()
      ensures r == if Resolves(exec, a) then Ok(IdOf(exec.ledger, a)) else Err(EntityIdNotFound)
    {
      hide LedgerInv, Synced, OnlyIds, View;
      var v := stagingDB.Get(AddrKey(a));
      AddrKeyResolves(stagingDB.View(), exec, a);
      if v.None? || !v.value.IdVal? {
        return Err(EntityIdNotFound);
      }
      return Ok(v.value.id);
    }

    /** Takes the next ID, opens the account, and records the ID in the trie and in the two ID maps. */
    method AssignId(addr: Address) returns (id: uint64)
      modifies stagingDB, stateDB
      ensures id == (old(stateDB.trie.count) + 1) % TWO64
      ensures stateDB.trie == old(stateDB.trie).(
                count := id, ids := SetIdSlot(old(stateDB.trie.ids), id, addr), code := old(stateDB.trie.code) - {addr})
      ensures stagingDB.View() == old(stagingDB.View())[IdKey(id) := AddressVal(addr)][AddrKey(addr) := IdVal(id)]
      ensures OnlyIds(old(stagingDB.staging)) ==> OnlyIds(stagingDB.staging)
    {
      hide SetIdSlot;
      id := stateDB.IncrementEntityCount();
      stateDB.CreateAccount(addr);
      stateDB.SetIDSlot(id, addr);
      stagingDB.Put(IdKey(id), AddressVal(addr));
      stagingDB.Put(AddrKey(addr), IdVal(id));
    }

    /** The account part of a create: afterwards the caches mirror the trie with the new ID in place. */
    method OpenAccount(addr: Address) returns (id: uint64)
      requires Valid() && addr !in exec.ledger.created && exec.ledger.trie.count < MAX_UINT64
      modifies stagingDB, stateDB
      ensures id == exec.ledger.trie.count + 1
      ensures Synced() && IdSync(stagingDB.View(), exec.cache[id := addr]) && OnlyIds(stagingDB.staging)
      ensures stateDB.trie == old(stateDB.trie).(
                count := id, ids := SetIdSlot(old(stateDB.trie.ids), id, addr), code := old(stateDB.trie.code) - {addr})
    {
      hide LedgerInv, CacheSound, AnnotSync, Covered, IdSync, Overlay, SetIdSlot, OnlyIds;
      IdPuts(stagingDB.View(), stateDB.trie.annot, exec, addr);
      id := AssignId(addr);
    }

    method ProcessCreate(op: CreateOp)
      requires Valid() && Creatable(exec.ledger, op)
      modifies this, stagingDB, stateDB
      ensures Valid()
      ensures Ok(exec) == ExecOp(old(exec), blockNumber, Create(op))
    {
      hide LedgerInv, CacheSound, IdSync, Created, AddTo, Overlay, Annots, ValidAttributes, Addr;
      hide ExecOp, ApplyCreate, SetIdSlot, OnlyIds, Synced, AllPairs, PairSet;
      var addr := Addr(op.key);
      ghost var x := exec;
      CreateFacts(x, blockNumber, op);
      CreatedTrie(x.ledger, blockNumber, op, stateDB.trie, Annot(), dirtyEntities);
      var id := OpenAccount(addr);
      var entity := NewEntity(op, blockNumber);
      dirtyEntities := dirtyEntities[addr := entity];
      var pairs := AllAnnotations(entity);
      AddEach(pairs, id);
      exec := ExecOp(x, blockNumber, Create(op)).value;
      PairSetOfEntity(entity);
    }

    /** Fetches entity and ID, in that order, for an operation on an existing entity. */
    method Fetch(a: Address) returns (r: Result<(Entity, uint64)>)
      requires Valid()
      modifies this`dirtyEntities
      ensures Valid() && View() == old(View())
      ensures r == if a !in old(View()).code then Err(EntityNotFound)
                   else if !Resolves(exec, a) then Err(EntityIdNotFound)
                   else Ok((old(View()).code[a], IdOf(exec.ledger, a)))
      ensures r.Ok? ==> a in dirtyEntities
    {
      hide LedgerInv, CacheSound, IdSync, OnlyIds, Resolves;
      var e := GetEntity(a);
      if e.Err? {
        return Err(e.error);
      }
      var id := GetEntityId(a);
      if id.Err? {
        return Err(id.error);
      }
      return Ok((e.value, id.value));
    }

    method ProcessUpdate(op: UpdateOp) returns (r: Result<()>)
      requires Valid() && ValidAttributes(op.attributes)
      modifies this
      ensures Valid()
      ensures r.Ok? ==> Ok(exec) == ExecOp(old(exec), blockNumber, Update(op))
      ensures r.Err? ==> exec == old(exec) && ExecOp(exec, blockNumber, Update(op)) == Err(r.error)
    {
      hide LedgerInv, CacheSound, IdSync, OnlyIds, Resolves, Updated, AddTo, RemoveFrom, Annots, AllPairs,
           ValidAttributes, Overlay, Addr, AnnotSync, Covered;
      var addr := Addr(op.key);
      ghost var x := exec;
      var f := Fetch(addr);
      if f.Err? {
        return Err(f.error);
      }
      var (before, id) := f.value;
      var updated := UpdatedEntity(before, op, blockNumber);
      var oldPairs := AllAnnotations(before);
      var newPairs := AllAnnotations(updated);
      var oldSet := AnnotPairSet(oldPairs);
      var newSet := AnnotPairSet(newPairs);
      PairSetOfEntity(before);
      PairSetOfEntity(updated);
      RemoveDropped(oldSet, newSet, id);
      AddMissing(oldSet, newSet, id);
      CodeAfterUpdate(stateDB.trie.code, dirtyEntities, addr, updated);
      dirtyEntities := dirtyEntities[addr := updated];
      OpFacts(x, blockNumber, Update(op));
      exec := ExecOp(x, blockNumber, Update(op)).value;
      return Ok(());
    }

    method DeleteEntity(addr: Address) returns (r: Result<()>)
      requires Valid()
      modifies this, stateDB
      ensures r.Ok? ==> addr in old(exec).ledger.trie.code && Resolves(old(exec), addr)
      ensures r.Ok? ==> exec == Exec(RemoveEntity(old(exec).ledger, addr), old(exec).cache) && Valid()
      ensures r.Err? ==> Valid() && exec == old(exec)
      ensures r.Err? ==> r.error == if addr !in exec.ledger.trie.code then EntityNotFound else EntityIdNotFound
      ensures r.Err? ==> addr !in exec.ledger.trie.code || !Resolves(exec, addr)
    {
      hide LedgerInv, CacheSound, IdSync, OnlyIds, Resolves, RemoveFrom, Annots, AllPairs, Overlay, AnnotSync, Covered;
      ghost var x := exec;
      var f := Fetch(addr);
      if f.Err? {
        return Err(f.error);
      }
      var (entity, id) := f.value;
      var pairs := AllAnnotations(entity);
      PairSetOfEntity(entity);
      RemoveEach(pairs, id);
      stateDB.ClearIDSlot(id);
      CodeAfterDelete(stateDB.trie.code, dirtyEntities, addr);
      dirtyEntities := dirtyEntities - {addr};
      stateDB.SetCode(addr, None);
      DeleteFacts(x, addr);
      exec := Exec(RemoveEntity(x.ledger, addr), x.cache);
      return Ok(());
    }

    method ProcessDelete(key: Hash32) returns (r: Result<()>)
      requires Valid()
      modifies this, stateDB
      ensures Valid()
      ensures r.Ok? ==> Ok(exec) == ExecOp(old(exec), blockNumber, Delete(key))
      ensures r.Err? ==> exec == old(exec) && ExecOp(exec, blockNumber, Delete(key)) == Err(r.error)
    {
      hide LedgerInv, CacheSound, Valid, Resolves, RemoveEntity, Addr;
      r := DeleteEntity(Addr(key));
    }

    method ProcessExpire(key: Hash32) returns (r: Result<()>)
      requires Valid()
      modifies this, stateDB
      ensures Valid()
      ensures r.Ok? ==> Ok(exec) == ExecOp(old(exec), blockNumber, Expire(key))
      ensures r.Err? ==> exec == old(exec) && ExecOp(exec, blockNumber, Expire(key)) == Err(r.error)
    {
      hide LedgerInv, CacheSound, Valid, Resolves, RemoveEntity, Addr;
      r := DeleteEntity(Addr(key));
    }

    method ProcessExtend(key: Hash32, expiresAt: uint64) returns (r: Result<()>)
      requires Valid()
      modifies this
      ensures Valid()
      ensures r.Ok? ==> Ok(exec) == ExecOp(old(exec), blockNumber, Extend(key, expiresAt))
      ensures r.Err? ==> exec == old(exec) && ExecOp(exec, blockNumber, Extend(key, expiresAt)) == Err(r.error)
    {
      hide LedgerInv, CacheSound, IdSync, OnlyIds, Resolves, AddTo, RemoveFrom, Overlay, Addr, AnnotSync, Covered;
      var addr := Addr(key);
      ghost var x := exec;
      var f := Fetch(addr);
      if f.Err? {
        return Err(f.error);
      }
      var (entity, id) := f.value;
      BitmapRemove(Pair(EXPIRATION_KEY, NumericVal(entity.expiresAt)), id);
      entity := entity.(expiresAt := expiresAt);
      BitmapAdd(Pair(EXPIRATION_KEY, NumericVal(entity.expiresAt)), id);
      CodeAfterUpdate(stateDB.trie.code, dirtyEntities, addr, entity);
      dirtyEntities := dirtyEntities[addr := entity];
      OpFacts(x, blockNumber, Extend(key, expiresAt));
      exec := ExecOp(x, blockNumber, Extend(key, expiresAt)).value;
      return Ok(());
    }

    method ProcessTransfer(key: Hash32, owner: Address) returns (r: Result<()>)
      requires Valid()
      modifies this
      ensures Valid()
      ensures r.Ok? ==> Ok(exec) == ExecOp(old(exec), blockNumber, Transfer(key, owner))
      ensures r.Err? ==> exec == old(exec) && ExecOp(exec, blockNumber, Transfer(key, owner)) == Err(r.error)
    {
      hide LedgerInv, CacheSound, IdSync, OnlyIds, Resolves, AddTo, RemoveFrom, Overlay, Addr, AnnotSync, Covered,
           LowerHex;
      var addr := Addr(key);
      ghost var x := exec;
      var f := Fetch(addr);
      if f.Err? {
        return Err(f.error);
      }
      var (entity, id) := f.value;
      BitmapRemove(Pair(OWNER_KEY, LowerHex(entity.owner)), id);
      entity := entity.(owner := owner);
      BitmapAdd(Pair(OWNER_KEY, LowerHex(entity.owner)), id);
      CodeAfterUpdate(stateDB.trie.code, dirtyEntities, addr, entity);
      dirtyEntities := dirtyEntities[addr := entity];
      OpFacts(x, blockNumber, Transfer(key, owner));
      exec := ExecOp(x, blockNumber, Transfer(key, owner)).value;
      return Ok(());
    }

    /** Dispatches one operation; the buffer then stands for the write-through result. */
    method ApplyOp(op: Op) returns (r: Result<()>)
      requires Valid() && OpValid(exec.ledger, op)
      modifies this, stagingDB, stateDB
      ensures Valid()
      ensures r.Ok? ==> Ok(exec) == ExecOp(old(exec), blockNumber, op)
      ensures r.Err? ==> exec == old(exec) && ExecOp(exec, blockNumber, op) == Err(r.error)
    {
      hide Valid, ExecOp, LedgerInv, Creatable;
      match op {
        case Create(c) => ProcessCreate(c); r := Ok(());
        case Update(u) => r := ProcessUpdate(u);
        case Delete(k) => r := ProcessDelete(k);
        case Extend(k, x) => r := ProcessExtend(k, x);
        case Transfer(k, o) => r := ProcessTransfer(k, o);
        case Expire(k) => r := ProcessExpire(k);
        case NoOp => NoOpFails(exec, blockNumber); r := Err(EmptyOperation);
      }
    }

    // ---------- store/staging.go: Commit ----------

    /** Encodes each dirty entity once, in any order. */
    method FlushEntities()
      modifies stateDB
      ensures stateDB.trie == old(stateDB.trie).(code := old(stateDB.trie.code) + dirtyEntities)
    {
      var todo := dirtyEntities.Keys;
      assert stateDB.trie.code == stateDB.trie.code + (dirtyEntities - todo);
      while todo != {}
        invariant todo <= dirtyEntities.Keys
        invariant stateDB.trie == old(stateDB.trie).(code := old(stateDB.trie.code) + (dirtyEntities - todo))
        decreases todo
      {
        var a :| a in todo;
        CodeAfterUpdate(old(stateDB.trie.code), dirtyEntities - todo, a, dirtyEntities[a]);
        assert (dirtyEntities - todo)[a := dirtyEntities[a]] == dirtyEntities - (todo - {a});
        stateDB.SetCode(a, Some(dirtyEntities[a]));
        todo := todo - {a};
      }
      assert dirtyEntities - todo == dirtyEntities;
    }

    /** Writes one blob, one pointer and one slot per dirty pair, in any order. */
    method FlushBitmaps()
      modifies stagingDB, stateDB
      ensures stateDB.trie == old(stateDB.trie).(annot := Overlay(old(stateDB.trie.annot), dirtyBitmaps))
      ensures forall k :: Lookup(stagingDB.View(), k) == FlushLookup(old(stagingDB.View()), dirtyBitmaps, k)
    {
      var todo := dirtyBitmaps.Keys;
      FlushNone(old(stagingDB.View()), old(stateDB.trie.annot), dirtyBitmaps - todo);
      while todo != {}
        invariant todo <= dirtyBitmaps.Keys
        invariant stateDB.trie == old(stateDB.trie).(annot := Overlay(old(stateDB.trie.annot), dirtyBitmaps - todo))
        invariant forall k :: Lookup(stagingDB.View(), k) == FlushLookup(old(stagingDB.View()), dirtyBitmaps - todo, k)
        decreases todo
      {
        hide Overlay, FlushLookup;
        var p :| p in todo;
        ghost var v := stagingDB.View();
        FlushStep(old(stagingDB.View()), v, old(stateDB.trie.annot), dirtyBitmaps - todo, p, dirtyBitmaps[p]);
        assert (dirtyBitmaps - todo)[p := dirtyBitmaps[p]] == dirtyBitmaps - (todo - {p});
        FlushPair(p, dirtyBitmaps[p]);
        todo := todo - {p};
      }
      assert dirtyBitmaps - todo == dirtyBitmaps;
    }

    method FlushPair(p: Pair, bm: set<uint64>)
      modifies stagingDB, stateDB
      ensures stateDB.trie == old(stateDB.trie).(annot := old(stateDB.trie.annot)[p := OfBitmap(bm)])
      ensures stagingDB.View() == FlushedPair(old(stagingDB.View()), p, bm)
    {
      var newHash := OfBitmap(bm);
      stagingDB.Put(BitmapKey(newHash), BitmapVal(bm));
      stagingDB.Put(AnnotKey(p), HashVal(newHash));
      stateDB.SetAnnotSlot(p, newHash);
      var has := stagingDB.Has(PairsKey(p));
      if !has {
        stagingDB.Put(PairsKey(p), FlagVal);
      }
    }

    /** Flushes everything and writes it to disk in one atomic batch. */
    method Commit() returns (newRoot: Root)
      requires Valid()
      modifies stagingDB, stateDB, stagingDB.disk
      ensures newRoot == OfTrie(exec.ledger.trie)
      ensures forall k :: Lookup(stagingDB.disk.data, k) ==
                var b := Header(blockNumber, blockHash, parentHash, newRoot);
                CommitLookup(old(stagingDB.View()), dirtyBitmaps, b, k)
    {
      hide LedgerInv, CacheSound, IdSync, OnlyIds, Synced, Overlay, FlushLookup, HeaderPuts, CommitLookup;
      FlushEntities();
      FlushBitmaps();
      newRoot := OfTrie(stateDB.trie);
      ghost var b := Header(blockNumber, blockHash, parentHash, newRoot);
      HeaderLookup(old(stagingDB.View()), stagingDB.View(), dirtyBitmaps, b);
      StageHeader(newRoot);
      stagingDB.Commit();
    }

    /** The trie, the block index and the head record; the head is staged last. */
    method StageHeader(newRoot: Root)
      modifies stagingDB
      ensures stagingDB.View() == HeaderPuts(old(stagingDB.View()), Header(blockNumber, blockHash, parentHash, newRoot))
    {
      stagingDB.Put(TrieKey(newRoot), TrieVal);
      stagingDB.Put(RootKey(blockHash), RootVal(newRoot));
      stagingDB.Put(ParentKey(blockHash), BlockHashVal(parentHash));
      stagingDB.Put(BlockNumberKey(blockNumber), BlockHashVal(blockHash));
      stagingDB.Put(HeadKey, HeadVal(blockNumber, blockHash, newRoot));
    }
  }

  /** What Commit records about the block itself. */
  datatype Header = Header(number: uint64, hash: Hash32, parent: Hash32, root: Root)

  /** The content of each key after the dirty bitmaps are flushed, whatever the order. */
  ghost function FlushLookup(v: Db, dirty: map<Pair, set<uint64>>, k: DbKey): Option<DbVal> {
    match k
    case BitmapKey(h) => if h.ids in dirty.Values then Some(BitmapVal(h.ids)) else Lookup(v, k)
    case AnnotKey(p) => if p in dirty then Some(HashVal(OfBitmap(dirty[p]))) else Lookup(v, k)
    case PairsKey(p) => if k !in v && p in dirty then Some(FlagVal) else Lookup(v, k)
    case _ => Lookup(v, k)
  }

  /** The content of each key after Commit. */
  ghost function CommitLookup(v: Db, dirty: map<Pair, set<uint64>>, b: Header, k: DbKey): Option<DbVal> {
    if k == TrieKey(b.root) then Some(TrieVal)
    else if k == RootKey(b.hash) then Some(RootVal(b.root))
    else if k == ParentKey(b.hash) then Some(BlockHashVal(b.parent))
    else if k == BlockNumberKey(b.number) then Some(BlockHashVal(b.hash))
    else if k == HeadKey then Some(HeadVal(b.number, b.hash, b.root))
    else FlushLookup(v, dirty, k)
  }

  function HeaderPuts(v: Db, b: Header): Db {
    v[TrieKey(b.root) := TrieVal][RootKey(b.hash) := RootVal(b.root)][ParentKey(b.hash) := BlockHashVal(b.parent)]
     [BlockNumberKey(b.number) := BlockHashVal(b.hash)][HeadKey := HeadVal(b.number, b.hash, b.root)]
  }

  lemma HeaderLookup(v0: Db, v: Db, dirty: map<Pair, set<uint64>>, b: Header)
    requires forall k :: Lookup(v, k) == FlushLookup(v0, dirty, k)
    ensures forall k :: Lookup(HeaderPuts(v, b), k) == CommitLookup(v0, dirty, b, k)
  {
    forall k ensures Lookup(HeaderPuts(v, b), k) == CommitLookup(v0, dirty, b, k) {
      HeaderLookupAt(v0, v, dirty, b, k);
    }
  }

  lemma HeaderLookupAt(v0: Db, v: Db, dirty: map<Pair, set<uint64>>, b: Header, k: DbKey)
    requires Lookup(v, k) == FlushLookup(v0, dirty, k)
    ensures Lookup(HeaderPuts(v, b), k) == CommitLookup(v0, dirty, b, k)
  {
    hide FlushLookup;
  }

  function FlushedPair(v: Db, p: Pair, bm: set<uint64>): Db {
    var v' := v[BitmapKey(OfBitmap(bm)) := BitmapVal(bm)][AnnotKey(p) := HashVal(OfBitmap(bm))];
    if PairsKey(p) in v' then v' else v'[PairsKey(p) := FlagVal]
  }

  lemma FlushNone(v: Db, annot: map<Pair, Hash>, dirty: map<Pair, set<uint64>>)
    requires dirty.Keys == {}
    ensures Overlay(annot, dirty) == annot
    ensures forall k :: FlushLookup(v, dirty, k) == Lookup(v, k)
  {
  }

  lemma FlushStep(v0: Db, v: Db, annot: map<Pair, Hash>, dirty: map<Pair, set<uint64>>, p: Pair, bm: set<uint64>)
    requires p !in dirty && forall k :: Lookup(v, k) == FlushLookup(v0, dirty, k)
    ensures Overlay(annot, dirty[p := bm]) == Overlay(annot, dirty)[p := OfBitmap(bm)]
    ensures forall k :: Lookup(FlushedPair(v, p, bm), k) == FlushLookup(v0, dirty[p := bm], k)
  {
    ValuesGrow(dirty, p, bm);
    forall k ensures Lookup(FlushedPair(v, p, bm), k) == FlushLookup(v0, dirty[p := bm], k) {
      FlushStepAt(v0, v, dirty, p, bm, k);
    }
  }

  lemma FlushStepAt(v0: Db, v: Db, dirty: map<Pair, set<uint64>>, p: Pair, bm: set<uint64>, k: DbKey)
    requires p !in dirty && Lookup(v, k) == FlushLookup(v0, dirty, k)
    requires dirty[p := bm].Values == dirty.Values + {bm}
    ensures Lookup(FlushedPair(v, p, bm), k) == FlushLookup(v0, dirty[p := bm], k)
  {
  }

  lemma ValuesGrow(dirty: map<Pair, set<uint64>>, p: Pair, bm: set<uint64>)
    requires p !in dirty
    ensures dirty[p := bm].Values == dirty.Values + {bm}
  {
    var d := dirty[p := bm];
    assert d[p] == bm;
    forall q | q in dirty ensures dirty[q] in d.Values {
      assert d[q] == dirty[q];
    }
  }

  lemma NoOpFails(x: Exec, n: uint64)
    ensures ExecOp(x, n, NoOp) == Err(EmptyOperation)
  {
  }

  method UpdatedEntity(before: Entity, op: UpdateOp, n: uint64) returns (e: Entity)
    ensures e == Updated(before, op, n)
  {
    e := Entity(op.payload, before.owner, before.creator, before.expiresAt, before.createdAtBlock, n,
      before.transactionIndexInBlock, before.operationIndexInTransaction, op.contentType, before.key, [], []);
    e := ApplyAttributes(e, op.attributes);
  }

  lemma CodeAfterUpdate(code: map<Address, Entity>, dirty: map<Address, Entity>, a: Address, e: Entity)
    ensures code + dirty[a := e] == (code + dirty)[a := e]
  {
  }

  lemma CodeAfterDelete(code: map<Address, Entity>, dirty: map<Address, Entity>, a: Address)
    ensures (code - {a}) + (dirty - {a}) == (code + dirty) - {a}
  {
  }

  lemma OpFacts(x: Exec, n: uint64, op: Op)
    requires LedgerInv(x.ledger) && CacheSound(x) && OpValid(x.ledger, op) && ExecOp(x, n, op).Ok?
    ensures LedgerInv(ExecOp(x, n, op).value.ledger) && CacheSound(ExecOp(x, n, op).value)
  {
    hide LedgerInv, CacheSound, ApplyOp, OpValid, Resolves;
    OpKeeps(x.ledger, n, op);
    ExecOpCache(x, n, op);
  }

  lemma DeleteFacts(x: Exec, a: Address)
    requires LedgerInv(x.ledger) && CacheSound(x) && a in x.ledger.trie.code && Resolves(x, a)
    ensures var l := RemoveEntity(x.ledger, a);
            LedgerInv(l) && CacheSound(Exec(l, x.cache))
  {
    hide LedgerInv, RemoveFrom, Annots;
    RemoveKeeps(x.ledger, a);
  }

  lemma PairSetOfEntity(e: Entity)
    ensures PairSet(AllPairs(e)) == Annots(e)
  {
  }

  method NewEntity(op: CreateOp, n: uint64) returns (e: Entity)
    ensures e == Created(op, n)
  {
    e := Entity(op.payload, op.owner, op.sender, op.expiresAt, n, n,
      op.txIndex, op.opIndex, op.contentType, op.key, [], []);
    e := ApplyAttributes(e, op.attributes);
  }

  /** The trie parts that a create writes, put together, are the write-through result. */
  lemma CreatedTrie(l: Ledger, n: uint64, c: CreateOp, base: Trie, annot: map<Pair, Hash>, dirty: map<Address, Entity>)
    requires base.(annot := annot, code := base.code + dirty) == l.trie && l.trie.count < MAX_UINT64
    ensures var a, e, id := Addr(c.key), Created(c, n), l.trie.count + 1;
            base.(count := id, ids := SetIdSlot(base.ids, id, a), annot := AddTo(annot, Annots(e), id),
                  code := (base.code - {a}) + dirty[a := e])
            == ApplyCreate(l, n, c).trie
  {
    hide Created, SetIdSlot, AddTo, Annots, Addr;
    var a, e := Addr(c.key), Created(c, n);
    assert (base.code - {a}) + dirty[a := e] == (base.code + dirty)[a := e];
  }

  lemma CreateFacts(x: Exec, n: uint64, op: CreateOp)
    requires LedgerInv(x.ledger) && Creatable(x.ledger, op) && CacheSound(x)
    ensures var y := ExecOp(x, n, Create(op));
            && y.Ok? && LedgerInv(y.value.ledger) && CacheSound(y.value)
            && y.value.ledger == ApplyCreate(x.ledger, n, op)
            && y.value.cache == x.cache[x.ledger.trie.count + 1 := Addr(op.key)]
            && x.ledger.trie.count + 1 < TWO64
  {
    hide LedgerInv, CacheSound, ApplyCreate, ValidAttributes, Addr;
    CreateKeeps(x.ledger, n, op);
    ExecCreateCache(x, n, op);
    CreateShape(x.ledger, n, op);
  }

  lemma AddrKeyResolves(db: Db, x: Exec, a: Address)
    requires IdSync(db, x.cache) && CacheSound(x)
    ensures Resolves(x, a) ==> Lookup(db, AddrKey(a)) == Some(IdVal(x.ledger.created[a]))
    ensures AddrKey(a) in db ==> Resolves(x, a)
  {
  }

  /** Staging the two ID entries of a new entity keeps every mirror. */
  lemma IdPuts(db: Db, annot: map<Pair, Hash>, x: Exec, a: Address)
    requires AnnotSync(db, annot) && Covered(db, annot) && IdSync(db, x.cache)
    requires LedgerInv(x.ledger) && CacheSound(x) && a !in x.ledger.created && x.ledger.trie.count < MAX_UINT64
    ensures var id := x.ledger.trie.count + 1;
            var db' := db[IdKey(id) := AddressVal(a)][AddrKey(a) := IdVal(id)];
            AnnotSync(db', annot) && Covered(db', annot) && IdSync(db', x.cache[id := a])
  {
    hide LedgerInv, IdSync, CacheSound;
    CountBound(x);
    NewAddress(x, a);
    IdPutsSync(db, x.cache, x.ledger.trie.count + 1, a);
  }

  lemma NewAddress(x: Exec, a: Address)
    requires CacheSound(x) && a !in x.ledger.created
    ensures forall i :: i in x.cache ==> x.cache[i] != a
  {
  }

  lemma IdPutsSync(db: Db, cache: Cache, id: uint64, a: Address)
    requires IdSync(db, cache) && id !in cache && forall i :: i in cache ==> cache[i] != a
    ensures IdSync(db[IdKey(id) := AddressVal(a)][AddrKey(a) := IdVal(id)], cache[id := a])
  {
  }
}
