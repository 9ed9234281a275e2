/** Scans of one annotation key in the byte order of its values. */
module Scans {
  import opened Bytes
  import opened Wrappers
  import opened Entities
  import opened Ledger
  import opened Keys
  import opened Database
  import opened CacheStores
  import opened Bitmaps
  import opened Glob

  // ---------- The order of values ----------

  /** Every string from the prefix on, up to its successor, extends the prefix. */
  lemma {:induction false} PrefixBelow(prefix: Str, v: Str)
    requires prefix <= v
    ensures LessEq(prefix, v)
  {
    if prefix != [] {
      PrefixBelow(prefix[1..], v[1..]);
      if prefix[1..] == v[1..] { assert prefix == [prefix[0]] + prefix[1..] && v == [v[0]] + v[1..]; }
    }
  }

  /** Replaces the last byte by the next one. */
  function Bump(s: Str): Str
    requires s != [] && s[|s| - 1] < 255
  {
    s[..|s| - 1] + [s[|s| - 1] + 1]
  }

  /** The strings between s and Bump(s) are the extensions of s. */
  lemma {:induction false} BumpBounds(s: Str, v: Str)
    requires s != [] && s[|s| - 1] < 255
    ensures s <= v <==> LessEq(s, v) && Less(v, Bump(s))
  {
    if s <= v { PrefixBelow(s, v); }
    if |s| == 1 {
      assert s[1..] == [] && Bump(s) == [s[0] + 1] && Bump(s)[1..] == [];
      if v != [] { assert s <= v <==> v[0] == s[0]; }
    } else if v != [] {
      assert Bump(s)[1..] == Bump(s[1..]) && Bump(s)[0] == s[0];
      BumpBounds(s[1..], v[1..]);
      assert s == [s[0]] + s[1..] && v == [v[0]] + v[1..];
    }
  }

  predicate AllFF(s: Str) { forall i :: 0 <= i < |s| ==> s[i] == 255 }

  /** Past the prefix everything up to a tail of 0xFF bytes extends it. */
  lemma {:induction false} FFBounds(s: Str, v: Str)
    requires AllFF(s)
    ensures s <= v <==> LessEq(s, v)
  {
    if s <= v { PrefixBelow(s, v); }
    if s != [] && v != [] && LessEq(s, v) {
      assert v[0] == s[0];
      if s != v { FFBounds(s[1..], v[1..]); }
      assert s == [s[0]] + s[1..] && v == [v[0]] + v[1..];
    }
  }

  /** A tail of 0xFF bytes does not move the successor. */
  lemma FFTail(s: Str, tail: Str, v: Str)
    requires s != [] && s[|s| - 1] < 255 && AllFF(tail)
    ensures s + tail <= v <==> LessEq(s + tail, v) && Less(v, Bump(s))
  {
    if s + tail <= v {
      assert s <= v;
      PrefixBelow(s + tail, v);
      BumpBounds(s, v);
    }
    if LessEq(s + tail, v) && Less(v, Bump(s)) {
      PrefixBelow(s, s + tail);
      if s != s + tail && s + tail != v { LessTransitive(s, s + tail, v); }
      BumpBounds(s, v);
      var w := v[|s|..];
      assert v == s + w;
      LessSamePrefix(s, tail, w);
      FFBounds(tail, w);
    }
  }

  /** u is above every extension of the prefix. */
  ghost predicate Above(prefix: Str, u: Str) {
    forall v :: prefix <= v ==> Less(v, u)
  }

  /** An exact upper end of the extensions is the least string above them. */
  lemma LeastAbove(prefix: Str, r: Str, u: Str)
    requires forall v :: prefix <= v <==> LessEq(prefix, v) && Less(v, r)
    ensures Above(prefix, r) && (Above(prefix, u) ==> LessEq(r, u))
  {
    if Above(prefix, u) {
      LessTotal(u, r);
      LessTotal(u, u);
      assert Less(prefix, u);
    }
  }

  lemma NothingAbove(prefix: Str, u: Str)
    requires AllFF(prefix)
    ensures !Above(prefix, u)
  {
    if Above(prefix, u) {
      assert prefix <= prefix;
      FFBounds(prefix, u);
      LessTotal(u, u);
    }
  }

  /** The least string above every extension of the prefix; none exists exactly for prefixes of 0xFF bytes. */
  method PrefixSuccessor(prefix: Str) returns (r: Option<Str>)
    ensures r.None? <==> forall u :: !Above(prefix, u)
    ensures r.Some? ==> Above(prefix, r.value) && forall u :: Above(prefix, u) ==> LessEq(r.value, u)
    ensures forall v :: prefix <= v <==> LessEq(prefix, v) && (r.Some? ==> Less(v, r.value))
  {
    hide Above;
    var i := |prefix|;
    while i > 0
      invariant 0 <= i <= |prefix| && AllFF(prefix[i..])
    {
      i := i - 1;
      if prefix[i] < 255 {
        var head := prefix[..i + 1];
        var b := head[i := head[i] + 1];
        assert b == Bump(head);
        assert prefix == head + prefix[i + 1..];
        forall v ensures prefix <= v <==> LessEq(prefix, v) && Less(v, b) {
          FFTail(head, prefix[i + 1..], v);
        }
        LeastAbove(prefix, b, b);
        forall u | Above(prefix, u) ensures LessEq(b, u) {
          LeastAbove(prefix, b, u);
        }
        return Some(b);
      }
      assert prefix[i..] == [prefix[i]] + prefix[i + 1..];
    }
    assert prefix[0..] == prefix;
    forall v ensures prefix <= v <==> LessEq(prefix, v) {
      FFBounds(prefix, v);
    }
    forall u ensures !Above(prefix, u) {
      NothingAbove(prefix, u);
    }
    return None;
  }

  // ---------- What a scan returns ----------

  /** The values that the pointers hold for a key, from a starting value on. */
  function ValuesFrom(db: Db, key: Str, start: Str): set<Str> {
    set k | k in db.Keys && k.AnnotKey? && k.p.key == key && LessEq(start, k.p.val) :: k.p.val
  }

  /**
   * On the bytes: a scan of the key's prefix from a starting value meets exactly the pointers of the key
   * from that value on.
   */
  lemma ByteRangeExact(key: Str, start: Str, k: DbKey, digest: Hash -> Hash32)
    requires 0 !in key && !k.TrieKey? && CleanKey(k)
    ensures AnnotPrefix(key) <= Encode(k, digest) && LessEq(AnnotPrefix(key) + start, Encode(k, digest)) <==>
            k.AnnotKey? && k.p.key == key && LessEq(start, k.p.val)
  {
    hide AnnotPrefix, Encode, Less, CleanKey;
    AnnotScanExact(key, k, digest);
    if k.AnnotKey? && k.p.key == key {
      LessSamePrefix(AnnotPrefix(key), start, k.p.val);
      assert AnnotPrefix(key) + start == AnnotPrefix(key) + k.p.val ==> start == k.p.val by {
        if AnnotPrefix(key) + start == AnnotPrefix(key) + k.p.val {
          assert start == (AnnotPrefix(key) + start)[|AnnotPrefix(key)|..];
          assert k.p.val == (AnnotPrefix(key) + k.p.val)[|AnnotPrefix(key)|..];
        }
      }
    }
  }

  /** The pointers of a store all have clean keys, so the byte range is the set of values. */
  lemma PointersClean(db: Db, t: Trie, k: DbKey)
    requires AnnotSync(db, t.annot) && EntitiesInv(t) && k in db && k.AnnotKey?
    ensures CleanKey(k)
  {
    assert Lookup(db, AnnotKey(k.p)).Some?;
  }

  /** The union of the buckets of a key over a set of values. */
  ghost function Union(annot: map<Pair, Hash>, key: Str, vals: set<Str>): set<uint64> {
    set v, id | v in vals && id in Bits(annot, Pair(key, v)) :: id
  }

  lemma UnionOne(annot: map<Pair, Hash>, key: Str, vals: set<Str>, v: Str)
    ensures Union(annot, key, vals + {v}) == Union(annot, key, vals) + Bits(annot, Pair(key, v))
    ensures Union(annot, key, {}) == {}
  {
  }

  datatype Bound = Bound(value: Str, incl: bool)

  /** The values that a scan looks for. String, prefix and glob scans skip the empty value. */
  datatype Test =
    | NumericRange(lo: uint64, hi: uint64)
    | StringRange(low: Option<Bound>, high: Option<Bound>)
    | Prefix(prefix: Str)
    | Pattern(pattern: Str)

  predicate AboveLow(v: Str, lo: Option<Bound>) {
    lo.Some? ==> Less(lo.value.value, v) || (lo.value.incl && v == lo.value.value)
  }

  predicate BelowHigh(v: Str, hi: Option<Bound>) {
    hi.Some? ==> Less(v, hi.value.value) || (hi.value.incl && v == hi.value.value)
  }

  ghost predicate Passes(test: Test, v: Str) {
    match test
    case NumericRange(lo, hi) => |v| == 8 && lo <= NumericOf(v) <= hi
    case StringRange(lo, hi) => v != [] && AboveLow(v, lo) && BelowHigh(v, hi)
    case Prefix(p) => v != [] && p <= v
    case Pattern(p) => v != [] && Matches(p, v)
  }

  /** Every ID in a bucket of the key whose value passes the test. */
  ghost function Where(annot: map<Pair, Hash>, key: Str, test: Test): set<uint64> {
    set p, id | p in annot && p.key == key && Passes(test, p.val) && id in annot[p].ids :: id
  }

  lemma WhereIff(annot: map<Pair, Hash>, key: Str, test: Test, id: uint64)
    ensures id in Where(annot, key, test) <==> exists v: Str :: Passes(test, v) && id in Bits(annot, Pair(key, v))
  {
    hide Passes;
    if v: Str :| Passes(test, v) && id in Bits(annot, Pair(key, v)) {
      assert Pair(key, v) in annot && Pair(key, v).key == key && Pair(key, v).val == v;
    }
    if id in Where(annot, key, test) {
      var p :| p in annot && p.key == key && Passes(test, p.val) && id in annot[p].ids;
      assert p == Pair(key, p.val);
    }
  }

  lemma WhereSame(annot: map<Pair, Hash>, key: Str, test: Test, other: Test)
    requires forall v :: Passes(test, v) <==> Passes(other, v)
    ensures Where(annot, key, test) == Where(annot, key, other)
  {
    hide Passes;
  }

  /** What a scan has read: the entries behind the iterator that pass the test. */
  ghost predicate Scanned(seen: set<Str>, all: set<Str>, todo: set<Str>, test: Test) {
    todo <= all && forall v :: v in seen <==> v in all && v !in todo && Passes(test, v)
  }

  lemma ScanSkips(seen: set<Str>, all: set<Str>, todo: set<Str>, v: Str, test: Test)
    requires Scanned(seen, all, todo, test) && !Passes(test, v)
    ensures Scanned(seen, all, todo - {v}, test)
  {
    hide Passes;
  }

  lemma ScanTakes(seen: set<Str>, all: set<Str>, todo: set<Str>, v: Str, test: Test)
    requires Scanned(seen, all, todo, test) && v in todo && Passes(test, v)
    ensures Scanned(seen + {v}, all, todo - {v}, test)
  {
    hide Passes;
  }

  lemma ScanStarts(all: set<Str>, test: Test)
    ensures Scanned({}, all, all, test)
  {
    hide Passes;
  }

  /** A scan may start and stop where the test fails for everything it leaves out. */
  lemma ScanDone(db: Db, annot: map<Pair, Hash>, key: Str, start: Str, seen: set<Str>, todo: set<Str>, test: Test)
    requires AnnotSync(db, annot) && Scanned(seen, ValuesFrom(db, key, start), todo, test)
    requires forall v :: v in todo ==> !Passes(test, v)
    requires forall v :: Passes(test, v) ==> LessEq(start, v)
    ensures Union(annot, key, seen) == Where(annot, key, test)
  {
    hide LessEq, Passes;
    forall id ensures id in Union(annot, key, seen) <==> id in Where(annot, key, test) {
      WhereIff(annot, key, test, id);
      if v: Str :| Passes(test, v) && id in Bits(annot, Pair(key, v)) {
        assert Lookup(db, AnnotKey(Pair(key, v))).Some?;
        assert AnnotKey(Pair(key, v)).p.val in ValuesFrom(db, key, start);
        assert v in seen;
      }
    }
  }

  lemma EmptyIsLeast(v: Str)
    ensures LessEq([], v)
  {
  }

  // ---------- The iterator ----------

  lemma {:induction false} LeastExists(vals: set<Str>) returns (v: Str)
    requires vals != {}
    ensures v in vals && forall w :: w in vals ==> LessEq(v, w)
  {
    var x :| x in vals;
    var rest := vals - {x};
    if rest == {} {
      v := x;
      assert vals == {x};
    } else {
      var y := LeastExists(rest);
      v := if Less(x, y) then x else y;
      LessTotal(x, y);
      forall w | w in vals ensures LessEq(v, w) {
        if w != x {
          assert w in rest;
          if v == x && y != w { LessTransitive(x, y, w); }
        }
      }
    }
  }

  /** A database iterator over the pointers of one annotation key, in byte order of the values. */
  class AnnotIterator {
    const disk: RawDb
    const key: Str
    var todo: set<Str>
    var suffix: Str

    constructor (disk: RawDb, key: Str, start: Str)
      ensures this.disk == disk && this.key == key && todo == ValuesFrom(disk.data, key, start)
    {
      this.disk := disk;
      this.key := key;
      todo := ValuesFrom(disk.data, key, start);
      suffix := [];
    }

    method Next() returns (more: bool)
      modifies this
      ensures more <==> old(todo) != {}
      ensures more ==> suffix in old(todo) && todo == old(todo) - {suffix}
      ensures more ==> forall w :: w in old(todo) ==> LessEq(suffix, w)
      ensures !more ==> todo == {}
    {
      if todo == {} {
        return false;
      }
      ghost var least := LeastExists(todo);
      var v :| v in todo && forall w :: w in todo ==> LessEq(v, w);
      suffix := v;
      todo := todo - {v};
      return true;
    }

    method Value() returns (v: Option<DbVal>)
      ensures v == Lookup(disk.data, AnnotKey(Pair(key, suffix)))
    {
      v := disk.Get(AnnotKey(Pair(key, suffix)));
    }
  }

  /** What a pointer leads to. */
  function Pointed(db: Db, v: Option<DbVal>): Option<set<uint64>> {
    match v
    case Some(HashVal(h)) => (match Lookup(db, BitmapKey(h)) case Some(BitmapVal(ids)) => Some(ids) case _ => None)
    case _ => None
  }

  method LoadBitmapFromPointer(disk: RawDb, v: Option<DbVal>) returns (r: Option<Bitmap>)
    ensures r.Some? <==> Pointed(disk.data, v).Some?
    ensures r.Some? ==> fresh(r.value) && r.value.ids == Pointed(disk.data, v).value
  {
    if v.None? || !v.value.HashVal? {
      return None;
    }
    var b := disk.Get(BitmapKey(v.value.h));
    if b.None? || !b.value.BitmapVal? {
      return None;
    }
    var bm := new Bitmap(b.value.ids);
    return Some(bm);
  }

  /** Adds the bucket of the current entry to the result. */
  method OrCurrent(it: AnnotIterator, result: Bitmap, ghost annot: map<Pair, Hash>, ghost seen: set<Str>)
    requires AnnotSync(it.disk.data, annot) && Covered(it.disk.data, annot)
    requires result.ids == Union(annot, it.key, seen)
    modifies result
    ensures result.ids == Union(annot, it.key, seen + {it.suffix})
  {
    hide Union;
    var v := it.Value();
    var bm := LoadBitmapFromPointer(it.disk, v);
    ghost var p := Pair(it.key, it.suffix);
    UnionOne(annot, it.key, seen, it.suffix);
    assert Lookup(it.disk.data, AnnotKey(p)) == if p in annot then Some(HashVal(annot[p])) else None;
    if bm.Some? {
      result.Or(bm.value);
    }
  }

  // ---------- The scans ----------

  function NumericStart(lo: uint64): Str { if lo > 0 then NumericVal(lo) else [] }

  /** Eight-byte values from lo on are not before the starting value. */
  lemma NumericStartBelow(lo: uint64, v: Str)
    requires |v| == 8
    ensures LessEq(NumericStart(lo), v) <==> lo <= NumericOf(v)
  {
    hide NumericVal, NumericOf, Less;
    EmptyIsLeast(v);
    NumericOrder(lo, NumericOf(v));
  }

  lemma NumericStartsBelow(lo: uint64, hi: uint64)
    ensures forall v :: Passes(NumericRange(lo, hi), v) ==> LessEq(NumericStart(lo), v)
  {
    hide NumericOf, LessEq, NumericStart;
    forall v | Passes(NumericRange(lo, hi), v) ensures LessEq(NumericStart(lo), v) {
      NumericStartBelow(lo, v);
    }
  }

  /** An eight-byte value that the iterator reached is in the range unless it is past hi. */
  lemma NumericHere(lo: uint64, hi: uint64, v: Str)
    requires LessEq(NumericStart(lo), v)
    ensures Passes(NumericRange(lo, hi), v) <==> |v| == 8 && NumericOf(v) <= hi
  {
    hide NumericOf, LessEq, NumericStart;
    if |v| == 8 { NumericStartBelow(lo, v); }
  }

  /** Once an eight-byte value is past hi, no value after it is in the range. */
  lemma PastHi(lo: uint64, hi: uint64, v: Str, todo: set<Str>)
    requires |v| == 8 && NumericOf(v) > hi && forall w :: w in todo ==> LessEq(v, w)
    ensures forall w :: w in todo ==> !Passes(NumericRange(lo, hi), w)
  {
    hide NumericVal, NumericOf, Less;
    forall w | w in todo ensures !Passes(NumericRange(lo, hi), w) {
      if |w| == 8 { NumericOrder(NumericOf(v), NumericOf(w)); }
    }
  }

  /** The IDs under all eight-byte values of the key from lo to hi. */
  method IterateNumericAnnotBitmaps(disk: RawDb, key: Str, lo: uint64, hi: uint64, ghost annot: map<Pair, Hash>)
    returns (result: Bitmap)
    requires AnnotSync(disk.data, annot) && Covered(disk.data, annot)
    ensures fresh(result) && result.ids == Where(annot, key, NumericRange(lo, hi))
  {
    hide AnnotSync, Covered, Union, Where, ValuesFrom, LessEq, NumericOf, NumericStart, Scanned, Passes;
    ghost var test := NumericRange(lo, hi);
    var start := NumericStart(lo);
    result := new Bitmap({});
    var it := new AnnotIterator(disk, key, start);
    ghost var all, seen := it.todo, {};
    UnionOne(annot, key, {}, []);
    ScanStarts(all, test);
    while true
      invariant fresh(it) && fresh(result) && it.todo <= all
      invariant Scanned(seen, all, it.todo, test) && result.ids == Union(annot, key, seen)
      decreases |it.todo|
    {
      ghost var todo := it.todo;
      var more := it.Next();
      if !more {
        break;
      }
      FromStart(disk.data, key, start, it.suffix);
      NumericHere(lo, hi, it.suffix);
      if |it.suffix| != 8 {
        ScanSkips(seen, all, todo, it.suffix, test);
        continue;
      }
      if NumericOf(it.suffix) > hi {
        ScanSkips(seen, all, todo, it.suffix, test);
        PastHi(lo, hi, it.suffix, todo);
        break;
      }
      OrCurrent(it, result, annot, seen);
      ScanTakes(seen, all, todo, it.suffix, test);
      seen := seen + {it.suffix};
    }
    NumericStartsBelow(lo, hi);
    ScanDone(disk.data, annot, key, start, seen, it.todo, test);
  }

  lemma FromStart(db: Db, key: Str, start: Str, v: Str)
    requires v in ValuesFrom(db, key, start)
    ensures LessEq(start, v)
  {
  }

  /** A value that the iterator reached is in the range unless the code skips it or stops at it. */
  lemma StringHere(lo: Option<Bound>, hi: Option<Bound>, v: Str)
    requires lo.Some? ==> LessEq(lo.value.value, v)
    ensures Passes(StringRange(lo, hi), v) <==>
            && |v| > 0
            && !(lo.Some? && !lo.value.incl && v == lo.value.value)
            && !(hi.Some? && (Less(hi.value.value, v) || (v == hi.value.value && !hi.value.incl)))
  {
    hide Less;
    if lo.Some? { LessTotal(lo.value.value, v); }
    if hi.Some? { LessTotal(hi.value.value, v); }
  }

  lemma PastHigh(lo: Option<Bound>, hi: Option<Bound>, v: Str, todo: set<Str>)
    requires hi.Some? && (Less(hi.value.value, v) || (v == hi.value.value && !hi.value.incl))
    requires forall w :: w in todo ==> LessEq(v, w)
    ensures forall w :: w in todo ==> !Passes(StringRange(lo, hi), w)
  {
    hide Less;
    var h := hi.value.value;
    forall w | w in todo ensures !Passes(StringRange(lo, hi), w) {
      LessTotal(v, h);
      LessTotal(w, h);
      if Less(v, w) && Less(w, h) { LessTransitive(v, w, h); }
    }
  }

  lemma StringStartsBelow(lo: Option<Bound>, hi: Option<Bound>)
    ensures forall v :: Passes(StringRange(lo, hi), v) ==> LessEq(StringStart(lo), v)
  {
    hide Less;
    forall v: Str ensures LessEq([], v) { EmptyIsLeast(v); }
  }

  function StringStart(lo: Option<Bound>): Str { if lo.Some? then lo.value.value else [] }

  /** The IDs under all non-empty values of the key within the bounds. */
  method IterateStringAnnotBitmaps(
    disk: RawDb, key: Str, lo: Option<Bound>, hi: Option<Bound>, ghost annot: map<Pair, Hash>)
    returns (result: Bitmap)
    requires AnnotSync(disk.data, annot) && Covered(disk.data, annot)
    ensures fresh(result) && result.ids == Where(annot, key, StringRange(lo, hi))
  {
    hide AnnotSync, Covered, Union, Where, ValuesFrom, Less, Scanned, Passes;
    ghost var test := StringRange(lo, hi);
    var start := StringStart(lo);
    result := new Bitmap({});
    var it := new AnnotIterator(disk, key, start);
    ghost var all, seen := it.todo, {};
    UnionOne(annot, key, {}, []);
    ScanStarts(all, test);
    while true
      invariant fresh(it) && fresh(result) && it.todo <= all
      invariant Scanned(seen, all, it.todo, test) && result.ids == Union(annot, key, seen)
      decreases |it.todo|
    {
      ghost var todo := it.todo;
      var more := it.Next();
      if !more {
        break;
      }
      FromStart(disk.data, key, start, it.suffix);
      StringHere(lo, hi, it.suffix);
      if |it.suffix| == 0 {
        ScanSkips(seen, all, todo, it.suffix, test);
        continue;
      }
      if lo.Some? && !lo.value.incl && it.suffix == lo.value.value {
        ScanSkips(seen, all, todo, it.suffix, test);
        continue;
      }
      if hi.Some? && (Less(hi.value.value, it.suffix) || (it.suffix == hi.value.value && !hi.value.incl)) {
        ScanSkips(seen, all, todo, it.suffix, test);
        PastHigh(lo, hi, it.suffix, todo);
        break;
      }
      OrCurrent(it, result, annot, seen);
      ScanTakes(seen, all, todo, it.suffix, test);
      seen := seen + {it.suffix};
    }
    StringStartsBelow(lo, hi);
    ScanDone(disk.data, annot, key, start, seen, it.todo, test);
  }

  /** The IDs under all non-empty values of the key that start with the prefix. */
  method IteratePrefixAnnotBitmaps(disk: RawDb, key: Str, prefix: Str, ghost annot: map<Pair, Hash>)
    returns (result: Bitmap)
    requires AnnotSync(disk.data, annot) && Covered(disk.data, annot)
    ensures fresh(result) && result.ids == Where(annot, key, Prefix(prefix))
  {
    hide AnnotSync, Covered, Above, Less, Where;
    var hi := PrefixSuccessor(prefix);
    var low := Some(Bound(prefix, true));
    var high := if hi.Some? then Some(Bound(hi.value, false)) else None;
    result := IterateStringAnnotBitmaps(disk, key, low, high, annot);
    forall v ensures Passes(StringRange(low, high), v) <==> Passes(Prefix(prefix), v) {
      assert prefix <= v <==> LessEq(prefix, v) && (hi.Some? ==> Less(v, hi.value));
    }
    WhereSame(annot, key, StringRange(low, high), Prefix(prefix));
  }

  /** The IDs under all non-empty values of the key that match the pattern. */
  method IterateGlobAnnotBitmaps(disk: RawDb, key: Str, pattern: Str, ghost annot: map<Pair, Hash>)
    returns (result: Bitmap)
    requires AnnotSync(disk.data, annot) && Covered(disk.data, annot)
    ensures fresh(result) && result.ids == Where(annot, key, Pattern(pattern))
  {
    hide AnnotSync, Covered, Union, Where, ValuesFrom, LessEq, Scanned, Matches;
    ghost var test := Pattern(pattern);
    result := new Bitmap({});
    var it := new AnnotIterator(disk, key, []);
    ghost var all, seen := it.todo, {};
    UnionOne(annot, key, {}, []);
    ScanStarts(all, test);
    while true
      invariant fresh(it) && fresh(result) && it.todo <= all
      invariant Scanned(seen, all, it.todo, test) && result.ids == Union(annot, key, seen)
      decreases |it.todo|
    {
      ghost var todo := it.todo;
      var more := it.Next();
      if !more {
        break;
      }
      if |it.suffix| == 0 {
        ScanSkips(seen, all, todo, it.suffix, test);
        continue;
      }
      var m := GlobMatch(pattern, it.suffix);
      if !m {
        ScanSkips(seen, all, todo, it.suffix, test);
        continue;
      }
      OrCurrent(it, result, annot, seen);
      ScanTakes(seen, all, todo, it.suffix, test);
      seen := seen + {it.suffix};
    }
    forall v: Str ensures LessEq([], v) { EmptyIsLeast(v); }
    ScanDone(disk.data, annot, key, [], seen, it.todo, test);
  }

  /** Whenever the prefix fast path is taken, it returns what the full glob scan would. */
  lemma FastPathExact(annot: map<Pair, Hash>, key: Str, pattern: Str)
    requires PrefixGlob(pattern).0
    ensures Where(annot, key, Prefix(PrefixGlob(pattern).1)) == Where(annot, key, Pattern(pattern))
  {
    hide Matches, Where;
    var prefix := PrefixGlob(pattern).1;
    forall v ensures Passes(Prefix(prefix), v) <==> Passes(Pattern(pattern), v) {
      PrefixGlobMatches(prefix, v);
    }
    WhereSame(annot, key, Prefix(prefix), Pattern(pattern));
  }
}
