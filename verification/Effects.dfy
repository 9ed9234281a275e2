/**
 * What operations, transactions and blocks do, stated on the wire data and on the records: field by field,
 * attribute by attribute, and in which order.
 */
module Effects {
  import opened Bytes
  import opened Wrappers
  import opened Entities
  import opened Ledger
  import opened Chain

  // ---------- Attributes ----------

  const DIGITS := "0123456789abcdef"

  predicate IsText(a: Attribute) { a.valueType.StringValue? || a.valueType.EntityKeyValue? }

  function TextCount(attrs: seq<Attribute>): nat {
    if attrs == [] then 0 else TextCount(attrs[..|attrs| - 1]) + if IsText(attrs[|attrs| - 1]) then 1 else 0
  }

  function UintCount(attrs: seq<Attribute>): nat {
    if attrs == [] then 0
    else UintCount(attrs[..|attrs| - 1]) + if attrs[|attrs| - 1].valueType.UintValue? then 1 else 0
  }

  /** v spells the bytes as `0x` and lower-case digits. */
  predicate Spells(v: Str, bytes: Str) {
    && |v| == 2 + 2 * |bytes| && v[0] == '0' as int && v[1] == 'x' as int
    && forall i :: 0 <= i < |bytes| ==>
         v[2 + 2 * i] == DIGITS[bytes[i] / 16] as int && v[3 + 2 * i] == DIGITS[bytes[i] % 16] as int
  }

  /** Byte i of the 32-byte hash that a value of any length stands for: its end, with zeros in front. */
  function HashByte(value: Str, i: nat): byte
    requires i < 32
  {
    if |value| + i >= 32 then value[|value| + i - 32] else 0
  }

  /** v is the text that a text attribute stores. */
  ghost predicate TextOf(a: Attribute, v: Str) {
    if a.valueType.StringValue? then
      && v <= a.value && (v != [] ==> v[|v| - 1] != 0)
      && forall i :: |v| <= i < |a.value| ==> a.value[i] == 0
    else
      exists h: Hash32 :: Spells(v, h) && forall i :: 0 <= i < 32 ==> h[i] == HashByte(a.value, i)
  }

  /** The annotations of an entity are the attributes, each in its own list and in their order. */
  ghost predicate HoldsAttributes(e: Entity, attrs: seq<Attribute>) {
    && |e.stringAnnotations| == TextCount(attrs) && |e.numericAnnotations| == UintCount(attrs)
    && (forall i :: 0 <= i < |attrs| && IsText(attrs[i]) ==> HoldsText(e, attrs[i], TextCount(attrs[..i])))
    && (forall i :: 0 <= i < |attrs| && attrs[i].valueType.UintValue? ==> HoldsUint(e, attrs[i], UintCount(attrs[..i])))
  }

  ghost predicate HoldsText(e: Entity, a: Attribute, k: nat) {
    k < |e.stringAnnotations| && e.stringAnnotations[k].key == a.name && TextOf(a, e.stringAnnotations[k].value)
  }

  ghost predicate HoldsUint(e: Entity, a: Attribute, k: nat) {
    && k < |e.numericAnnotations|
    && e.numericAnnotations[k] == NumericAnnot(a.name, FromBE(a.value) % TWO64)
  }

  lemma {:induction false} HexDigitsSpell(b: Str, i: nat)
    requires i < |b|
    ensures HexDigits(b)[2 * i] == DIGITS[b[i] / 16] as int && HexDigits(b)[2 * i + 1] == DIGITS[b[i] % 16] as int
  {
    hide HexDigit;
    DigitIs(b[i] / 16);
    DigitIs(b[i] % 16);
    if i > 0 { HexDigitsSpell(b[1..], i - 1); }
  }

  lemma DigitIs(n: nat)
    requires n < 16
    ensures HexDigit(n) == DIGITS[n] as int
  {
  }

  lemma LowerHexSpells(b: Str)
    ensures Spells(LowerHex(b), b)
  {
    var v := LowerHex(b);
    forall i | 0 <= i < |b|
      ensures v[2 + 2 * i] == DIGITS[b[i] / 16] as int && v[3 + 2 * i] == DIGITS[b[i] % 16] as int
    {
      HexDigitsSpell(b, i);
      assert v[2..] == HexDigits(b);
      assert v[2 + 2 * i] == v[2..][2 * i] && v[3 + 2 * i] == v[2..][2 * i + 1];
    }
  }

  /** Spelling is unambiguous. */
  lemma SpellsOnce(v: Str, w: Str, bytes: Str)
    requires Spells(v, bytes) && Spells(w, bytes)
    ensures v == w
  {
    forall k | 0 <= k < |v| ensures v[k] == w[k] {
      if k >= 2 {
        var i := (k - 2) / 2;
        assert 0 <= bytes[i] < 256;
        assert v[2 + 2 * i] == w[2 + 2 * i] && v[3 + 2 * i] == w[3 + 2 * i];
        assert k == 2 + 2 * i || k == 3 + 2 * i;
      }
    }
  }

  lemma TextStored(a: Attribute)
    requires IsText(a)
    ensures StringsOf([a]) == [StringsOf([a])[0]] && StringsOf([a])[0].key == a.name
    ensures TextOf(a, StringsOf([a])[0].value) && NumericsOf([a]) == []
  {
    hide TrimRightNul, LowerHex, BytesToHash, Spells;
    assert [a][..0] == [];
    AttributesEmpty([a][..0]);
    if a.valueType.EntityKeyValue? {
      var h := BytesToHash(a.value);
      HashBytes(a.value);
      LowerHexSpells(h);
    }
  }

  lemma HashBytes(value: Str)
    ensures forall i :: 0 <= i < 32 ==> BytesToHash(value)[i] == HashByte(value, i)
  {
  }

  lemma SplitLast(attrs: seq<Attribute>)
    requires attrs != []
    ensures var init, a := attrs[..|attrs| - 1], attrs[|attrs| - 1];
            StringsOf(attrs) == StringsOf(init) + StringsOf([a]) &&
              NumericsOf(attrs) == NumericsOf(init) + NumericsOf([a])
  {
    hide TrimRightNul, LowerHex, BytesToHash, UintOf;
    var a := attrs[|attrs| - 1];
    assert [a][..0] == [];
    AttributesEmpty([a][..0]);
  }

  lemma {:induction false} AttributesHeld(e: Entity, attrs: seq<Attribute>)
    requires e.stringAnnotations == StringsOf(attrs) && e.numericAnnotations == NumericsOf(attrs)
    ensures HoldsAttributes(e, attrs)
    decreases |attrs|
  {
    hide StringsOf, NumericsOf, TextOf;
    if attrs == [] {
      AttributesEmpty(attrs);
    } else {
      var init, a := attrs[..|attrs| - 1], attrs[|attrs| - 1];
      var d := e.(stringAnnotations := StringsOf(init), numericAnnotations := NumericsOf(init));
      AttributesHeld(d, init);
      SplitLast(attrs);
      if IsText(a) { TextStored(a); } else { NumberStored(a); }
      forall i | 0 <= i < |attrs| && IsText(attrs[i]) ensures HoldsText(e, attrs[i], TextCount(attrs[..i])) {
        if i < |init| { assert attrs[..i] == init[..i] && HoldsText(d, init[i], TextCount(init[..i])); }
      }
      forall i | 0 <= i < |attrs| && attrs[i].valueType.UintValue?
        ensures HoldsUint(e, attrs[i], UintCount(attrs[..i]))
      {
        if i < |init| { assert attrs[..i] == init[..i] && HoldsUint(d, init[i], UintCount(init[..i])); }
      }
    }
  }

  lemma NumberStored(a: Attribute)
    requires !IsText(a)
    ensures StringsOf([a]) == []
    ensures NumericsOf([a]) == if a.valueType.UintValue? then [NumericAnnot(a.name, FromBE(a.value) % TWO64)] else []
  {
    hide FromBE;
    assert [a][..0] == [];
    AttributesEmpty([a][..0]);
  }

  // ---------- Operations ----------

  ghost predicate OthersSame(t: Trie, t': Trie, a: Address) {
    forall b :: b != a ==> (b in t'.code <==> b in t.code) && (b in t.code ==> t'.code[b] == t.code[b])
  }

  /** Counter, ID slots, creation history and removals are as they were. */
  ghost predicate SameIds(l: Ledger, l': Ledger) {
    && l'.trie.sys == l.trie.sys && l'.trie.count == l.trie.count && l'.trie.ids == l.trie.ids
    && l'.created == l.created && l'.removed == l.removed
  }

  /** Which operations fail, and how. */
  lemma OpFailsIff(l: Ledger, n: uint64, op: Op)
    ensures op.NoOp? ==> ApplyOp(l, n, op) == Err(EmptyOperation)
    ensures op.Create? ==> ApplyOp(l, n, op).Ok?
    ensures !op.NoOp? && !op.Create? ==>
              var key := if op.Update? then op.update.key else op.key;
              if key[..20] in l.trie.code then ApplyOp(l, n, op).Ok? else ApplyOp(l, n, op) == Err(EntityNotFound)
  {
    hide Annots, AddTo, RemoveFrom, Updated, MoveBucket, IdOf, Created;
  }

  /** The new record of a create, field by field. */
  lemma CreateWrites(l: Ledger, n: uint64, c: CreateOp)
    requires Creatable(l, c)
    ensures ApplyOp(l, n, Create(c)).Ok?
    ensures var l', a := ApplyOp(l, n, Create(c)).value, c.key[..20];
            && a in l'.trie.code && OthersSame(l.trie, l'.trie, a)
            && (var e := l'.trie.code[a];
                && e.key == c.key && e.owner == c.owner && e.creator == c.sender && e.payload == c.payload
                && e.contentType == c.contentType && e.expiresAt == c.expiresAt
                && e.createdAtBlock == n && e.lastModifiedAtBlock == n
                && e.transactionIndexInBlock == c.txIndex && e.operationIndexInTransaction == c.opIndex
                && HoldsAttributes(e, c.attributes))
            && l'.trie.sys == l.trie.sys && l'.trie.count == l.trie.count + 1 && l'.removed == l.removed
            && l'.trie.ids == l.trie.ids[l.trie.count + 1 := a] && l'.created == l.created[a := l.trie.count + 1]
  {
    hide Annots, AddTo, StringsOf, NumericsOf, HoldsAttributes, ValidAttributes;
    AttributesHeld(Created(c, n), c.attributes);
  }

  /** The record after an update, field by field. */
  lemma UpdateWrites(l: Ledger, n: uint64, u: UpdateOp)
    requires ApplyOp(l, n, Update(u)).Ok?
    ensures var l', a := ApplyOp(l, n, Update(u)).value, u.key[..20];
            && a in l.trie.code && a in l'.trie.code && OthersSame(l.trie, l'.trie, a) && SameIds(l, l')
            && (var d, e := l.trie.code[a], l'.trie.code[a];
                && e.payload == u.payload && e.contentType == u.contentType && e.lastModifiedAtBlock == n
                && HoldsAttributes(e, u.attributes)
                && e.key == d.key && e.owner == d.owner && e.creator == d.creator && e.expiresAt == d.expiresAt
                && e.createdAtBlock == d.createdAtBlock && e.transactionIndexInBlock == d.transactionIndexInBlock
                && e.operationIndexInTransaction == d.operationIndexInTransaction)
  {
    hide Annots, AddTo, RemoveFrom, StringsOf, NumericsOf, HoldsAttributes, IdOf;
    AttributesHeld(Updated(l.trie.code[u.key[..20]], u, n), u.attributes);
  }

  lemma ExtendRecord(l: Ledger, n: uint64, key: Hash32, x: uint64)
    requires ApplyOp(l, n, Extend(key, x)).Ok?
    ensures var l', a := ApplyOp(l, n, Extend(key, x)).value, key[..20];
            && a in l.trie.code && a in l'.trie.code && OthersSame(l.trie, l'.trie, a) && SameIds(l, l')
            && l'.trie.code[a] == l.trie.code[a].(expiresAt := x)
  {
    hide MoveBucket, IdOf;
  }

  lemma TransferRecord(l: Ledger, n: uint64, key: Hash32, owner: Address)
    requires ApplyOp(l, n, Transfer(key, owner)).Ok?
    ensures var l', a := ApplyOp(l, n, Transfer(key, owner)).value, key[..20];
            && a in l.trie.code && a in l'.trie.code && OthersSame(l.trie, l'.trie, a) && SameIds(l, l')
            && l'.trie.code[a] == l.trie.code[a].(owner := owner)
  {
    hide MoveBucket, IdOf;
  }

  /** An extend changes the expiry of one record and leaves its ID in exactly the new expiration bucket. */
  lemma ExtendWrites(l: Ledger, n: uint64, key: Hash32, x: uint64)
    requires LedgerInv(l) && ApplyOp(l, n, Extend(key, x)).Ok?
    ensures var l', a := ApplyOp(l, n, Extend(key, x)).value, key[..20];
            && a in l.trie.code && a in l'.trie.code && OthersSame(l.trie, l'.trie, a) && SameIds(l, l')
            && l'.trie.code[a] == l.trie.code[a].(expiresAt := x)
            && a in l.created
            && forall v :: l.created[a] in Bits(l'.trie.annot, Pair(Ascii("$expiration"), v)) <==> v == NumericVal(x)
  {
    hide LedgerInv, ApplyOp, OthersSame, SameIds, Ascii, Bits, NumericVal;
    ExtendRecord(l, n, key, x);
    OpKeeps(l, n, Extend(key, x));
    LiveId(l, key[..20]);
    OwnIdBuckets(l, ApplyOp(l, n, Extend(key, x)).value, key[..20]);
  }

  /** A transfer changes the owner of one record and leaves its ID in exactly the new owner's bucket. */
  lemma TransferWrites(l: Ledger, n: uint64, key: Hash32, owner: Address)
    requires LedgerInv(l) && ApplyOp(l, n, Transfer(key, owner)).Ok?
    ensures var l', a := ApplyOp(l, n, Transfer(key, owner)).value, key[..20];
            && a in l.trie.code && a in l'.trie.code && OthersSame(l.trie, l'.trie, a) && SameIds(l, l')
            && l'.trie.code[a] == l.trie.code[a].(owner := owner)
            && a in l.created
            && forall v :: l.created[a] in Bits(l'.trie.annot, Pair(Ascii("$owner"), v)) <==> Spells(v, owner)
  {
    hide LedgerInv, ApplyOp, OthersSame, SameIds, Ascii, Bits, LowerHex, Spells;
    TransferRecord(l, n, key, owner);
    OpKeeps(l, n, Transfer(key, owner));
    LiveId(l, key[..20]);
    OwnIdBuckets(l, ApplyOp(l, n, Transfer(key, owner)).value, key[..20]);
  }

  /** A delete or expire takes away one record with its ID slot, and its ID is in no bucket afterwards. */
  lemma RemoveWrites(l: Ledger, n: uint64, op: Op)
    requires LedgerInv(l) && (op.Delete? || op.Expire?) && ApplyOp(l, n, op).Ok?
    ensures var l', a := ApplyOp(l, n, op).value, op.key[..20];
            && a in l.trie.code && a !in l'.trie.code && OthersSame(l.trie, l'.trie, a)
            && a in l.created && l'.trie.ids == l.trie.ids - {l.created[a]}
            && l'.trie.sys == l.trie.sys && l'.trie.count == l.trie.count && l'.created == l.created
            && l'.removed == l.removed + 1
            && forall p :: l.created[a] !in Bits(l'.trie.annot, p)
  {
    hide LedgerInv, Annots, RemoveFrom, Bits;
    LiveId(l, op.key[..20]);
    OpKeeps(l, n, op);
    GoneBuckets(ApplyOp(l, n, op).value, l.created[op.key[..20]]);
  }

  lemma GoneBuckets(l: Ledger, id: uint64)
    requires LedgerInv(l) && id !in l.trie.ids
    ensures forall p :: id !in Bits(l.trie.annot, p)
  {
    hide IdsInv, EntitiesInv, CreatedOnce, Bits;
    forall p ensures id !in Bits(l.trie.annot, p) {
      assert id in Bits(l.trie.annot, p) <==> Carries(l.trie, p, id);
    }
  }

  /**
   * One operation as the store runs it: beyond the ledger's conditions, an operation on an existing entity needs the
   * entity's ID in the cache; a create adds its ID there.
   */
  lemma StoreRuns(x: Exec, n: uint64, op: Op)
    ensures ApplyOp(x.ledger, n, op).Err? ==> ExecOp(x, n, op) == Err(ApplyOp(x.ledger, n, op).error)
    ensures op.Create? ==>
              var l := ApplyOp(x.ledger, n, op).value;
              ExecOp(x, n, op) == Ok(Exec(l, x.cache[l.trie.count := op.create.key[..20]]))
    ensures ApplyOp(x.ledger, n, op).Ok? && !op.Create? ==>
              var a, created := (if op.Update? then op.update.key else op.key)[..20], x.ledger.created;
              ExecOp(x, n, op) ==
              if a in created && created[a] in x.cache && x.cache[created[a]] == a
              then Ok(Exec(ApplyOp(x.ledger, n, op).value, x.cache)) else Err(EntityIdNotFound)
  {
    hide Annots, AddTo, RemoveFrom, Updated, MoveBucket, IdOf, Created, SetIdSlot;
  }

  // ---------- Buckets of the built-in keys ----------

  lemma BucketIs(l: Ledger, a: Address, p: Pair)
    requires LedgerInv(l) && a in l.trie.code
    ensures a in l.created && (l.created[a] in Bits(l.trie.annot, p) <==> p in Annots(l.trie.code[a]))
    ensures ValidEntity(l.trie.code[a])
  {
    hide Annots, Bits, CreatedOnce;
    assert l.created[a] in Bits(l.trie.annot, p) <==> Carries(l.trie, p, l.created[a]);
  }

  /** Which bucket of each built-in key holds a live entity, read off its record. */
  lemma BuiltinBuckets(l: Ledger, a: Address, v: Str)
    requires LedgerInv(l) && a in l.trie.code
    ensures a in l.created
    ensures var annot, e, id := l.trie.annot, l.trie.code[a], l.created[a];
            && (id in Bits(annot, Pair(Ascii("$all"), v)) <==> v == Ascii("true"))
            && (id in Bits(annot, Pair(Ascii("$creator"), v)) <==> Spells(v, e.creator))
            && (id in Bits(annot, Pair(Ascii("$owner"), v)) <==> Spells(v, e.owner))
            && (id in Bits(annot, Pair(Ascii("$key"), v)) <==> Spells(v, e.key))
            && (id in Bits(annot, Pair(Ascii("$contentType"), v)) <==> v == e.contentType)
            && (id in Bits(annot, Pair(Ascii("$createdAtBlock"), v)) <==> v == NumericVal(e.createdAtBlock))
            && (id in Bits(annot, Pair(Ascii("$lastModifiedAtBlock"), v)) <==> v == NumericVal(e.lastModifiedAtBlock))
            && (id in Bits(annot, Pair(Ascii("$expiration"), v)) <==> v == NumericVal(e.expiresAt))
  {
    hide LedgerInv, Annots, Bits, Ascii, LowerHex, NumericVal, Spells, ValidEntity;
    var e, builtin := l.trie.code[a], BuiltinAnnotations(l.trie.code[a]);
    BucketIs(l, a, ALL_PAIR);
    forall i | 0 <= i < 8
      ensures l.created[a] in Bits(l.trie.annot, Pair(builtin[i].key, v)) <==> v == builtin[i].val
    {
      BucketIs(l, a, Pair(builtin[i].key, v));
      BuiltinCarried(e, i, Pair(builtin[i].key, v));
    }
    SpellsIff(v, e.creator);
    SpellsIff(v, e.owner);
    SpellsIff(v, e.key);
    EachBuiltin(e);
  }

  lemma SpellsIff(v: Str, bytes: Str)
    ensures Spells(v, bytes) <==> v == LowerHex(bytes)
  {
    hide Spells, LowerHex;
    LowerHexSpells(bytes);
    if Spells(v, bytes) { SpellsOnce(v, LowerHex(bytes), bytes); }
  }

  lemma EachBuiltin(e: Entity)
    ensures BuiltinAnnotations(e)[0] == Pair(Ascii("$all"), Ascii("true"))
    ensures BuiltinAnnotations(e)[1] == Pair(Ascii("$creator"), LowerHex(e.creator))
    ensures BuiltinAnnotations(e)[2] == Pair(Ascii("$createdAtBlock"), NumericVal(e.createdAtBlock))
    ensures BuiltinAnnotations(e)[3] == Pair(Ascii("$lastModifiedAtBlock"), NumericVal(e.lastModifiedAtBlock))
    ensures BuiltinAnnotations(e)[4] == Pair(Ascii("$owner"), LowerHex(e.owner))
    ensures BuiltinAnnotations(e)[5] == Pair(Ascii("$key"), LowerHex(e.key))
    ensures BuiltinAnnotations(e)[6] == Pair(Ascii("$expiration"), NumericVal(e.expiresAt))
    ensures BuiltinAnnotations(e)[7] == Pair(Ascii("$contentType"), e.contentType)
  {
    hide Ascii, LowerHex, NumericVal;
  }

  /** An entity that keeps its ID: its buckets after an operation are those of its new record. */
  lemma OwnIdBuckets(l: Ledger, l': Ledger, a: Address)
    requires LedgerInv(l') && SameIds(l, l') && a in l'.trie.code && a in l.created
    ensures forall v :: l.created[a] in Bits(l'.trie.annot, Pair(Ascii("$expiration"), v)) <==>
                        v == NumericVal(l'.trie.code[a].expiresAt)
    ensures forall v :: l.created[a] in Bits(l'.trie.annot, Pair(Ascii("$owner"), v)) <==>
                        Spells(v, l'.trie.code[a].owner)
  {
    hide LedgerInv, Bits, Ascii, NumericVal, Spells;
    forall v
      ensures l.created[a] in Bits(l'.trie.annot, Pair(Ascii("$expiration"), v)) <==>
              v == NumericVal(l'.trie.code[a].expiresAt)
      ensures l.created[a] in Bits(l'.trie.annot, Pair(Ascii("$owner"), v)) <==> Spells(v, l'.trie.code[a].owner)
    {
      BuiltinBuckets(l', a, v);
    }
  }

  /** Under a user key an entity is in the buckets of its strings and of the encodings of its numbers. */
  lemma UserBuckets(l: Ledger, a: Address, k: Str, v: Str)
    requires LedgerInv(l) && a in l.trie.code && ValidName(k)
    ensures a in l.created
    ensures var e := l.trie.code[a];
            l.created[a] in Bits(l.trie.annot, Pair(k, v)) <==>
            || StringAnnot(k, v) in e.stringAnnotations
            || exists n: uint64 :: NumericAnnot(k, n) in e.numericAnnotations && v == NumericVal(n)
  {
    hide LedgerInv, Annots, Bits, NumericVal, ValidEntity, ValidName;
    BucketIs(l, a, Pair(k, v));
    UserCarried(l.trie.code[a], Pair(k, v));
  }

  // ---------- Order ----------

  function TotalOps(txs: seq<Tx>): nat {
    if txs == [] then 0 else TotalOps(txs[..|txs| - 1]) + |txs[|txs| - 1].ops|
  }

  /** What the block runs for an operation of a transaction: a create gets the sender and index of the transaction. */
  predicate RunsAs(tx: Tx, op: Op, run: Op) {
    if op.Create? then
      run.Create? && run.create == op.create.(sender := tx.sender, txIndex := tx.index)
    else
      run == op
  }

  /** A block runs the operations of its transactions in list order, one transaction after the other. */
  lemma {:induction false} BlockOrder(txs: seq<Tx>, t: nat, j: nat)
    requires t < |txs| && j < |txs[t].ops|
    ensures |BlockOps(txs)| == TotalOps(txs) && TotalOps(txs[..t]) + j < TotalOps(txs)
    ensures RunsAs(txs[t], txs[t].ops[j], BlockOps(txs)[TotalOps(txs[..t]) + j])
    decreases |txs|
  {
    var init, last := txs[..|txs| - 1], txs[|txs| - 1];
    BlockLength(txs);
    BlockLength(init);
    if t < |init| {
      BlockOrder(init, t, j);
      assert init[..t] == txs[..t];
    }
  }

  lemma {:induction false} BlockLength(txs: seq<Tx>)
    ensures |BlockOps(txs)| == TotalOps(txs)
  {
    if txs != [] { BlockLength(txs[..|txs| - 1]); }
  }

  /** The ledgers between the operations, in order. */
  ghost predicate Trace(ls: seq<Ledger>, l: Ledger, n: uint64, ops: seq<Op>) {
    && |ls| == |ops| + 1 && ls[0] == l
    && forall i :: 0 <= i < |ops| ==> ApplyOp(ls[i], n, ops[i]) == Ok(ls[i + 1])
  }

  /** Operations run one after the other from the first to the last. */
  lemma {:induction false} OpsInOrder(l: Ledger, n: uint64, ops: seq<Op>, m: Ledger)
    ensures ApplyOps(l, n, ops) == Ok(m) <==> exists ls :: Trace(ls, l, n, ops) && ls[|ops|] == m
  {
    hide ApplyOp;
    if ops == [] {
      if l == m { assert Trace([l], l, n, ops); }
    } else {
      var init, last := ops[..|ops| - 1], |ops| - 1;
      if ApplyOps(l, n, ops) == Ok(m) {
        var k := ApplyOps(l, n, init).value;
        OpsInOrder(l, n, init, k);
        var ls :| Trace(ls, l, n, init) && ls[|init|] == k;
        TraceExtends(ls, l, n, ops, m);
      }
      if ls :| Trace(ls, l, n, ops) && ls[|ops|] == m {
        TracePrefix(ls, l, n, ops);
        OpsInOrder(l, n, init, ls[last]);
      }
    }
  }

  lemma TraceExtends(ls: seq<Ledger>, l: Ledger, n: uint64, ops: seq<Op>, m: Ledger)
    requires ops != [] && Trace(ls, l, n, ops[..|ops| - 1]) && ApplyOp(ls[|ops| - 1], n, ops[|ops| - 1]) == Ok(m)
    ensures Trace(ls + [m], l, n, ops) && (ls + [m])[|ops|] == m
  {
    hide ApplyOp;
    var init := ops[..|ops| - 1];
    forall i | 0 <= i < |ops| ensures ApplyOp((ls + [m])[i], n, ops[i]) == Ok((ls + [m])[i + 1]) {
      if i < |init| { assert init[i] == ops[i]; }
    }
  }

  lemma TracePrefix(ls: seq<Ledger>, l: Ledger, n: uint64, ops: seq<Op>)
    requires ops != [] && Trace(ls, l, n, ops)
    ensures Trace(ls[..|ops|], l, n, ops[..|ops| - 1]) && ls[..|ops|][|ops| - 1] == ls[|ops| - 1]
    ensures ApplyOp(ls[|ops| - 1], n, ops[|ops| - 1]) == Ok(ls[|ops|])
  {
    hide ApplyOp;
  }

  /** The operations before i run, and operation i fails. */
  ghost predicate FailsAt(ls: seq<Ledger>, l: Ledger, n: uint64, ops: seq<Op>, i: nat, e: Error) {
    i < |ops| && Trace(ls, l, n, ops[..i]) && ApplyOp(ls[i], n, ops[i]) == Err(e)
  }

  /** A list of operations fails with the error of the first that fails. */
  lemma {:induction false} OpsFailFirst(l: Ledger, n: uint64, ops: seq<Op>, e: Error)
    ensures ApplyOps(l, n, ops) == Err(e) <==> exists i: nat, ls :: FailsAt(ls, l, n, ops, i, e)
  {
    hide ApplyOp;
    if ops != [] {
      var init, last := ops[..|ops| - 1], |ops| - 1;
      OpsFailFirst(l, n, init, e);
      if ApplyOps(l, n, ops) == Err(e) {
        if ApplyOps(l, n, init).Ok? {
          OpsInOrder(l, n, init, ApplyOps(l, n, init).value);
          var ls :| Trace(ls, l, n, init) && ls[|init|] == ApplyOps(l, n, init).value;
          assert FailsAt(ls, l, n, ops, last, e);
        } else {
          var i: nat, ls :| FailsAt(ls, l, n, init, i, e);
          assert init[..i] == ops[..i];
          assert FailsAt(ls, l, n, ops, i, e);
        }
      }
      if i: nat, ls :| FailsAt(ls, l, n, ops, i, e) {
        if i == last {
          OpsInOrder(l, n, init, ls[|init|]);
        } else {
          assert init[..i] == ops[..i];
          assert FailsAt(ls, l, n, init, i, e);
        }
      }
    }
  }

  /** The state of a canonical chain grows block by block from the empty state. */
  lemma {:induction false} ChainInOrder(chain: seq<Block>, i: nat)
    requires ChainOk(chain) && i < |chain|
    ensures Replay(chain[..0]) == GENESIS
    ensures ApplyBlock(Replay(chain[..i]), chain[i]) == Ok(Replay(chain[..i + 1])) && chain[i].number == i + 1
    ensures chain[..|chain|] == chain
  {
    hide ApplyBlock, OpsValid;
    ChainPrefix(chain, i + 1);
    assert chain[..i + 1][..i] == chain[..i];
  }

  // ---------- The system account ----------

  lemma OpSystem(l: Ledger, n: uint64, op: Op)
    requires ApplyOp(l, n, op).Ok?
    ensures ApplyOp(l, n, op).value.trie.sys == l.trie.sys
  {
    hide Annots, AddTo, RemoveFrom, Updated, MoveBucket, IdOf, Created, Addr;
  }

  lemma {:induction false} OpsSystem(l: Ledger, n: uint64, ops: seq<Op>)
    requires ApplyOps(l, n, ops).Ok?
    ensures ApplyOps(l, n, ops).value.trie.sys == l.trie.sys
  {
    hide ApplyOp;
    if ops != [] {
      OpsSystem(l, n, ops[..|ops| - 1]);
      OpSystem(ApplyOps(l, n, ops[..|ops| - 1]).value, n, ops[|ops| - 1]);
    }
  }

  /** The system account exists from the first block on, an empty one included, and a block does nothing else to it. */
  lemma SystemAccount(chain: seq<Block>)
    requires ChainOk(chain)
    ensures Replay(chain).trie.sys <==> chain != []
  {
    hide ApplyOps, OpsValid;
    if chain != [] {
      var init, b := chain[..|chain| - 1], chain[|chain| - 1];
      OpsSystem(Start(Replay(init)), b.number, BlockOps(b.txs));
    }
  }

  /** A block without operations adds the system account and changes nothing else. */
  lemma EmptyBlock(l: Ledger, b: Block)
    requires TotalOps(b.txs) == 0
    ensures ApplyBlock(l, b).Ok?
    ensures var m := ApplyBlock(l, b).value;
            && m.trie.sys && m.trie.count == l.trie.count && m.trie.annot == l.trie.annot && m.trie.ids == l.trie.ids
            && m.trie.code == l.trie.code && m.created == l.created && m.removed == l.removed
  {
    BlockLength(b.txs);
  }

  /** The operations of a block run from the parent's state with the system account in place. */
  lemma BlockRuns(l: Ledger, b: Block, m: Ledger)
    ensures ApplyBlock(l, b) == Ok(m) <==>
            exists ls :: Trace(ls, l.(trie := l.trie.(sys := true)), b.number, BlockOps(b.txs)) && ls[|ls| - 1] == m
  {
    hide ApplyOps, ApplyOp, Trace;
    OpsInOrder(Start(l), b.number, BlockOps(b.txs), m);
    forall ls | Trace(ls, Start(l), b.number, BlockOps(b.txs)) ensures |ls| == |BlockOps(b.txs)| + 1 {
      TraceLength(ls, Start(l), b.number, BlockOps(b.txs));
    }
  }

  lemma TraceLength(ls: seq<Ledger>, l: Ledger, n: uint64, ops: seq<Op>)
    requires Trace(ls, l, n, ops)
    ensures |ls| == |ops| + 1
  {
  }
}
