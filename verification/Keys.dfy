/** The flat key-value database: typed keys and values, and the byte layout of the keys. */
module Keys {
  import opened Bytes
  import opened Wrappers
  import opened Entities
  import opened Ledger

  datatype DbKey =
    | BitmapKey(h: Hash)
    | AnnotKey(p: Pair)
    | IdKey(id: uint64)
    | AddrKey(a: Address)
    | PairsKey(p: Pair)
    | RootKey(b: Hash32)
    | ParentKey(b: Hash32)
    | BlockNumberKey(n: uint64)
    | HeadKey
    | TrieKey(r: Root)

  datatype DbVal =
    | BitmapVal(ids: set<uint64>)
    | HashVal(h: Hash)
    | AddressVal(a: Address)
    | IdVal(id: uint64)
    | FlagVal
    | RootVal(r: Root)
    | BlockHashVal(b: Hash32)
    | HeadVal(number: uint64, hash: Hash32, root: Root)
    | TrieVal

  type Db = map<DbKey, DbVal>

  function Lookup(db: Db, k: DbKey): Option<DbVal> {
    if k in db then Some(db[k]) else None
  }

  // ---------- Byte layout ----------

  function AnnotPrefix(key: Str): Str { Ascii("arkiv_annot") + key + [0] }

  const PAIRS_PREFIX := Ascii("arkiv_pairs")
  const ID_PREFIX := Ascii("arkiv_id")

  function PairSuffix(p: Pair): Str { p.key + [0] + p.val }

  /** The bytes of a key; trie nodes live under their own 32-byte hashes and are not part of this layout. */
  function Encode(k: DbKey, digest: Hash -> Hash32): Str
    requires !k.TrieKey?
  {
    match k
    case BitmapKey(h) => Ascii("arkiv_bm") + digest(h)
    case AnnotKey(p) => Ascii("arkiv_annot") + PairSuffix(p)
    case IdKey(id) => ID_PREFIX + NumericVal(id)
    case AddrKey(a) => Ascii("arkiv_addr") + a
    case PairsKey(p) => PAIRS_PREFIX + PairSuffix(p)
    case RootKey(b) => Ascii("arkiv_root") + b
    case ParentKey(b) => Ascii("arkiv_parent") + b
    case BlockNumberKey(n) => Ascii("arkiv_blknum") + NumericVal(n)
    case HeadKey => Ascii("arkiv_head")
  }

  predicate CleanKey(k: DbKey) {
    (k.AnnotKey? || k.PairsKey?) ==> 0 !in k.p.key
  }

  /** Bytes 6 to 8 tell the nine kinds of key apart. */
  function Tag(k: DbKey): Str
    requires !k.TrieKey?
  {
    match k
    case BitmapKey(_) => Ascii("bm")
    case AnnotKey(_) => Ascii("an")
    case IdKey(_) => Ascii("id")
    case AddrKey(_) => Ascii("ad")
    case PairsKey(_) => Ascii("pai")
    case RootKey(_) => Ascii("ro")
    case ParentKey(_) => Ascii("par")
    case BlockNumberKey(_) => Ascii("bl")
    case HeadKey => Ascii("he")
  }

  lemma TagOf(k: DbKey, digest: Hash -> Hash32)
    requires !k.TrieKey?
    ensures |Encode(k, digest)| >= 9 && Tag(k) <= Encode(k, digest)[6..]
  {
    hide NumericVal, PairSuffix;
    var e := Encode(k, digest);
    assert |Tag(k)| <= 3 && forall i :: 0 <= i < |Tag(k)| ==> Tag(k)[i] == e[6 + i];
  }

  lemma TagsDiffer(k: DbKey, k': DbKey, s: Str)
    requires !k.TrieKey? && !k'.TrieKey? && Tag(k) <= s && Tag(k') <= s
    ensures Tag(k) == Tag(k')
    ensures k.BitmapKey? == k'.BitmapKey? && k.AnnotKey? == k'.AnnotKey? && k.IdKey? == k'.IdKey?
    ensures k.AddrKey? == k'.AddrKey? && k.PairsKey? == k'.PairsKey? && k.RootKey? == k'.RootKey?
    ensures k.ParentKey? == k'.ParentKey? && k.BlockNumberKey? == k'.BlockNumberKey? && k.HeadKey? == k'.HeadKey?
  {
    assert s[0] == Tag(k)[0] == Tag(k')[0] && s[1] == Tag(k)[1] == Tag(k')[1];
    if |Tag(k)| == 3 && |Tag(k')| == 3 {
      assert s[2] == Tag(k)[2] == Tag(k')[2];
    }
  }

  /** Position of the first NUL byte, or the length. */
  function FirstNul(s: Str): (i: nat)
    ensures i <= |s|
    ensures 0 !in s[..i]
    ensures i < |s| ==> s[i] == 0
  {
    if s == [] || s[0] == 0 then 0
    else
      var i := FirstNul(s[1..]) + 1;
      assert s[..i] == [s[0]] + s[1..][..i - 1];
      i
  }

  /** bytes.IndexByte(s, 0). */
  method IndexNul(s: Str) returns (i: int)
    ensures i == if FirstNul(s) < |s| then FirstNul(s) else -1
  {
    i := 0;
    while i < |s| && s[i] != 0
      invariant 0 <= i <= |s| && 0 !in s[..i]
    {
      assert s[..i + 1] == s[..i] + [s[i]];
      i := i + 1;
    }
    FirstNulUnique(s, i);
    if i == |s| { i := -1; }
  }

  lemma {:induction false} FirstNulUnique(s: Str, i: nat)
    requires i <= |s| && 0 !in s[..i] && (i < |s| ==> s[i] == 0)
    ensures FirstNul(s) == i
  {
    if i > 0 {
      assert s[0] == s[..i][0];
      assert s[..i] == [s[0]] + s[1..][..i - 1];
      FirstNulUnique(s[1..], i - 1);
    }
  }

  /** Splitting at the first NUL recovers key and value, even when the value holds NULs. */
  lemma SplitRecovers(p: Pair)
    requires 0 !in p.key
    ensures var s := PairSuffix(p);
            var i := FirstNul(s);
            i < |s| && Pair(s[..i], s[i + 1..]) == p
  {
    var s := PairSuffix(p);
    assert s[..|p.key|] == p.key && s[|p.key|] == 0 && s[|p.key| + 1..] == p.val;
    FirstNulUnique(s, |p.key|);
  }

  /** Distinct keys have distinct bytes, provided annotation keys hold no NUL and bitmap hashes do not collide. */
  lemma EncodeInjective(k: DbKey, k': DbKey, digest: Hash -> Hash32)
    requires !k.TrieKey? && !k'.TrieKey? && CleanKey(k) && CleanKey(k')
    requires k.BitmapKey? && k'.BitmapKey? && digest(k.h) == digest(k'.h) ==> k.h == k'.h
    requires Encode(k, digest) == Encode(k', digest)
    ensures k == k'
  {
    TagOf(k, digest);
    TagOf(k', digest);
    TagsDiffer(k, k', Encode(k, digest)[6..]);
    SameKind(k, k', digest);
  }

  lemma SameKind(k: DbKey, k': DbKey, digest: Hash -> Hash32)
    requires !k.TrieKey? && !k'.TrieKey? && CleanKey(k) && CleanKey(k')
    requires k.BitmapKey? && k'.BitmapKey? && digest(k.h) == digest(k'.h) ==> k.h == k'.h
    requires Encode(k, digest) == Encode(k', digest)
    requires k.BitmapKey? == k'.BitmapKey? && k.AnnotKey? == k'.AnnotKey? && k.IdKey? == k'.IdKey?
    requires k.AddrKey? == k'.AddrKey? && k.PairsKey? == k'.PairsKey? && k.RootKey? == k'.RootKey?
    requires k.ParentKey? == k'.ParentKey? && k.BlockNumberKey? == k'.BlockNumberKey? && k.HeadKey? == k'.HeadKey?
    ensures k == k'
  {
    hide NumericVal, PairSuffix, Ascii;
    var e, e' := Encode(k, digest), Encode(k', digest);
    match k {
      case BitmapKey(h) => assert e[8..] == digest(h) && e'[8..] == digest(k'.h);
      case AnnotKey(p) =>
        assert e[11..] == PairSuffix(p) && e'[11..] == PairSuffix(k'.p);
        SplitRecovers(p);
        SplitRecovers(k'.p);
      case IdKey(id) => assert e[8..] == NumericVal(id) && e'[8..] == NumericVal(k'.id); NumericOrder(id, k'.id);
      case AddrKey(a) => assert e[10..] == a && e'[10..] == k'.a;
      case PairsKey(p) =>
        assert e[11..] == PairSuffix(p) && e'[11..] == PairSuffix(k'.p);
        SplitRecovers(p);
        SplitRecovers(k'.p);
      case RootKey(b) => assert e[10..] == b && e'[10..] == k'.b;
      case ParentKey(b) => assert e[12..] == b && e'[12..] == k'.b;
      case BlockNumberKey(n) => assert e[12..] == NumericVal(n) && e'[12..] == NumericVal(k'.n); NumericOrder(n, k'.n);
      case HeadKey =>
    }
  }

  /**
   * A prefix scan over one annotation key meets exactly that key's entries,
   * and meets them in the byte order of their values.
   */
  lemma AnnotScanExact(key: Str, k: DbKey, digest: Hash -> Hash32)
    requires 0 !in key && !k.TrieKey? && CleanKey(k)
    ensures AnnotPrefix(key) <= Encode(k, digest) <==> k.AnnotKey? && k.p.key == key
    ensures k.AnnotKey? && k.p.key == key ==> Encode(k, digest) == AnnotPrefix(key) + k.p.val
  {
    hide Encode, AnnotPrefix;
    if AnnotPrefix(key) <= Encode(k, digest) {
      AnnotScanKind(key, k, digest);
      AnnotScanKey(key, k.p, digest);
    }
    if k.AnnotKey? && k.p.key == key {
      AnnotBytes(k.p, digest);
    }
  }

  /** A scan of the pair-index prefix meets exactly the pair entries, and one of the ID prefix the ID entries. */
  lemma PrefixScanExact(k: DbKey, digest: Hash -> Hash32)
    requires !k.TrieKey?
    ensures PAIRS_PREFIX <= Encode(k, digest) <==> k.PairsKey?
    ensures ID_PREFIX <= Encode(k, digest) <==> k.IdKey?
    ensures k.PairsKey? ==> Encode(k, digest)[|PAIRS_PREFIX|..] == PairSuffix(k.p)
    ensures k.IdKey? ==> Encode(k, digest)[|ID_PREFIX|..] == NumericVal(k.id)
  {
    hide NumericVal, PairSuffix, Tag;
    var e := Encode(k, digest);
    TagOf(k, digest);
    if PAIRS_PREFIX <= e {
      var any := PairsKey(Pair([], []));
      assert Tag(any) <= e[6..] by { PrefixTags(); assert PAIRS_PREFIX[6..] <= e[6..]; }
      TagsDiffer(k, any, e[6..]);
    }
    if ID_PREFIX <= e {
      assert Tag(IdKey(0)) <= e[6..] by { PrefixTags(); assert ID_PREFIX[6..] <= e[6..]; }
      TagsDiffer(k, IdKey(0), e[6..]);
    }
  }

  lemma PrefixTags()
    ensures |PAIRS_PREFIX| == 11 && Tag(PairsKey(Pair([], []))) <= PAIRS_PREFIX[6..]
    ensures |ID_PREFIX| == 8 && Tag(IdKey(0)) <= ID_PREFIX[6..]
  {
  }

  lemma AnnotBytes(p: Pair, digest: Hash -> Hash32)
    ensures Encode(AnnotKey(p), digest) == AnnotPrefix(p.key) + p.val
    ensures AnnotPrefix(p.key) <= Encode(AnnotKey(p), digest)
  {
    hide Ascii;
    assert Encode(AnnotKey(p), digest) == AnnotPrefix(p.key) + p.val;
  }

  lemma AnnotScanKind(key: Str, k: DbKey, digest: Hash -> Hash32)
    requires !k.TrieKey? && AnnotPrefix(key) <= Encode(k, digest)
    ensures k.AnnotKey?
  {
    hide Encode, AnnotPrefix, Ascii, Tag;
    var any, e := AnnotKey(Pair(key, [])), Encode(k, digest);
    TagOf(k, digest);
    TagOf(any, digest);
    AnnotBytes(Pair(key, []), digest);
    assert Encode(any, digest) == AnnotPrefix(key);
    assert Tag(any) <= e[6..] by {
      assert AnnotPrefix(key)[6..] <= e[6..];
    }
    TagsDiffer(k, any, e[6..]);
  }

  lemma AnnotScanKey(key: Str, p: Pair, digest: Hash -> Hash32)
    requires 0 !in key && 0 !in p.key && AnnotPrefix(key) <= Encode(AnnotKey(p), digest)
    ensures p.key == key
  {
    hide Ascii;
    var s, e := PairSuffix(p), Encode(AnnotKey(p), digest);
    assert s == e[11..];
    assert key == AnnotPrefix(key)[11..][..|key|] && AnnotPrefix(key)[11..][|key|] == 0;
    assert s[..|key|] == key && s[|key|] == 0;
    FirstNulUnique(s, |key|);
    SplitRecovers(p);
  }

  lemma AnnotScanOrder(key: Str, v: Str, w: Str, digest: Hash -> Hash32)
    ensures Less(Encode(AnnotKey(Pair(key, v)), digest), Encode(AnnotKey(Pair(key, w)), digest)) <==> Less(v, w)
  {
    hide Encode, AnnotPrefix;
    AnnotBytes(Pair(key, v), digest);
    AnnotBytes(Pair(key, w), digest);
    LessSamePrefix(AnnotPrefix(key), v, w);
  }

  // ---------- Slot keys ----------

  /** Pre-images of the system account's storage slots. */
  datatype Slot = CountSlot | AnnotSlot(p: Pair) | IdSlot(id: uint64)

  function SlotPreimage(s: Slot): Str {
    match s
    case CountSlot => Ascii("entity_count")
    case AnnotSlot(p) => Ascii("annot") + PairSuffix(p)
    case IdSlot(id) => Ascii("id") + NumericVal(id)
  }

  /** The slots of the system account never share a pre-image, so the trie keeps them apart. */
  lemma SlotPreimagesDistinct(s: Slot, t: Slot)
    requires (s.AnnotSlot? ==> 0 !in s.p.key) && (t.AnnotSlot? ==> 0 !in t.p.key)
    requires SlotPreimage(s) == SlotPreimage(t)
    ensures s == t
  {
    hide NumericVal, PairSuffix;
    var x, y := SlotPreimage(s), SlotPreimage(t);
    assert x[0] == y[0];
    if s.AnnotSlot? {
      assert x[5..] == PairSuffix(s.p) && y[5..] == PairSuffix(t.p);
      SplitRecovers(s.p);
      SplitRecovers(t.p);
    } else if s.IdSlot? {
      assert x[2..] == NumericVal(s.id) && y[2..] == NumericVal(t.id);
      NumericOrder(s.id, t.id);
    }
  }

  // ---------- The head record ----------

  /** encodeHead: eight bytes of number, then the two 32-byte hashes. */
  function EncodeHead(number: uint64, hash: Hash32, root: Hash32): (r: Str)
    ensures |r| == 72
  {
    NumericVal(number) + hash + root
  }

  function DecodeHead(b: Str): (uint64, Hash32, Hash32)
    requires |b| == 72
  {
    (NumericOf(b[..8]), b[8..40], b[40..72])
  }

  lemma HeadRoundTrip(number: uint64, hash: Hash32, root: Hash32)
    ensures DecodeHead(EncodeHead(number, hash, root)) == (number, hash, root)
  {
    hide NumericVal;
    var b := EncodeHead(number, hash, root);
    assert b[..8] == NumericVal(number) && b[8..40] == hash && b[40..72] == root;
    NumericOrder(number, NumericOf(b[..8]));
  }
}
