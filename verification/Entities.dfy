/** Entities, their wire attributes, and the annotation pairs they are indexed under. */
module Entities {
  import opened Bytes

  type Address = a: Str | |a| == 20 witness seq(20, _ => 0)
  type Hash32 = h: Str | |h| == 32 witness seq(32, _ => 0)

  const ZERO_ADDRESS: Address := [0, 0, 0, 0, 0, 0, 0, 0, 0, 0, 0, 0, 0, 0, 0, 0, 0, 0, 0, 0]

  /** The last twenty bytes of the Keccak-256 hash of "arkiv.system". */
  const SYSTEM_ADDRESS: Address :=
    [172, 123, 211, 130, 115, 118, 212, 165, 123, 30, 253, 194, 189, 204, 40, 50, 66, 222, 14, 175]

  /** An address that the registry contract can give to an entity. */
  predicate UserAddress(a: Address) { a != ZERO_ADDRESS && a != SYSTEM_ADDRESS }

  const ZERO_HASH: Hash32 :=
    [0, 0, 0, 0, 0, 0, 0, 0, 0, 0, 0, 0, 0, 0, 0, 0, 0, 0, 0, 0, 0, 0, 0, 0, 0, 0, 0, 0, 0, 0, 0, 0]

  datatype Pair = Pair(key: Str, val: Str)

  datatype StringAnnot = StringAnnot(key: Str, value: Str)
  datatype NumericAnnot = NumericAnnot(key: Str, value: uint64)

  datatype Entity = Entity(
    payload: Str,
    owner: Address,
    creator: Address,
    expiresAt: uint64,
    createdAtBlock: uint64,
    lastModifiedAtBlock: uint64,
    transactionIndexInBlock: uint64,
    operationIndexInTransaction: uint64,
    contentType: Str,
    key: Hash32,
    stringAnnotations: seq<StringAnnot>,
    numericAnnotations: seq<NumericAnnot>)

  datatype ValueType = StringValue | UintValue | EntityKeyValue | UnknownValue
  datatype Attribute = Attribute(valueType: ValueType, name: Str, value: Str)

  // ---------- Text ----------

  function Ascii(s: string): (r: Str)
    ensures |r| == |s|
  {
    seq(|s|, i requires 0 <= i < |s| => s[i] as int % 256)
  }

  const DOLLAR: byte := 36
  const ALL_KEY := Ascii("$all")
  const ALL_VAL := Ascii("true")
  const CREATOR_KEY := Ascii("$creator")
  const CREATED_AT_KEY := Ascii("$createdAtBlock")
  const LAST_MODIFIED_KEY := Ascii("$lastModifiedAtBlock")
  const OWNER_KEY := Ascii("$owner")
  const ENTITY_KEY_KEY := Ascii("$key")
  const EXPIRATION_KEY := Ascii("$expiration")
  const CONTENT_TYPE_KEY := Ascii("$contentType")

  const ALL_PAIR := Pair(ALL_KEY, ALL_VAL)

  function LowerByte(b: byte): byte {
    if 65 <= b <= 90 then b + 32 else b
  }

  /** strings.ToLower on ASCII text. */
  function ToLower(s: Str): (r: Str)
    ensures |r| == |s|
  {
    seq(|s|, i requires 0 <= i < |s| => LowerByte(s[i]))
  }

  function HexDigit(n: nat): byte
    requires n < 16
  {
    if n < 10 then 48 + n else 87 + n
  }

  function HexDigits(b: Str): (r: Str)
    ensures |r| == 2 * |b|
  {
    if b == [] then [] else [HexDigit(b[0] / 16), HexDigit(b[0] % 16)] + HexDigits(b[1..])
  }

  /** strings.ToLower(x.Hex()) for an address or a hash. */
  function LowerHex(b: Str): Str {
    Ascii("0x") + HexDigits(b)
  }

  lemma {:induction false} HexDigitsInjective(a: Str, b: Str)
    requires |a| == |b| && HexDigits(a) == HexDigits(b)
    ensures a == b
  {
    if a != [] {
      var x, y := HexDigits(a), HexDigits(b);
      assert x[0] == HexDigit(a[0] / 16) && x[1] == HexDigit(a[0] % 16);
      assert y[0] == HexDigit(b[0] / 16) && y[1] == HexDigit(b[0] % 16);
      assert x[2..] == HexDigits(a[1..]) && y[2..] == HexDigits(b[1..]);
      HexDigitsInjective(a[1..], b[1..]);
      assert a == [a[0]] + a[1..] && b == [b[0]] + b[1..];
    }
  }

  lemma LowerHexInjective(a: Str, b: Str)
    requires |a| == |b| && LowerHex(a) == LowerHex(b)
    ensures a == b
  {
    assert LowerHex(a)[2..] == HexDigits(a) && LowerHex(b)[2..] == HexDigits(b);
    HexDigitsInjective(a, b);
  }

  // ---------- Attributes ----------

  function TrimRightNul(s: Str): (r: Str)
    ensures r <= s && (r != [] ==> r[|r| - 1] != 0)
    ensures forall i :: |r| <= i < |s| ==> s[i] == 0
  {
    if s != [] && s[|s| - 1] == 0 then TrimRightNul(s[..|s| - 1]) else s
  }

  /** common.BytesToHash: the last 32 bytes, or zeros on the left. */
  function BytesToHash(s: Str): Hash32 {
    if |s| >= 32 then s[|s| - 32..] else seq(32 - |s|, _ => 0) + s
  }

  /** Reads a big-endian number of any length modulo 2^64. */
  method AttrUint64(b: Str) returns (v: uint64)
    ensures v == FromBE(b) % TWO64
  {
    var low := if |b| > 8 then b[|b| - 8..] else b;
    Pow256Eight();
    Pow256Monotone(|low|, 8);
    v := 0;
    var i := 0;
    while i < |low|
      invariant 0 <= i <= |low|
      invariant v == FromBE(low[..i])
    {
      assert low[..i + 1] == low[..i] + [low[i]];
      FromBEAppend(low[..i], low[i]);
      Pow256Monotone(i + 1, 8);
      assert FromBE(low[..i + 1]) < Pow256(i + 1) <= TWO64;
      v := v * 256 + low[i];
      i := i + 1;
    }
    assert low[..|low|] == low;
    FromBESuffix(b);
  }

  /** The uint64 an "uint" attribute carries. */
  function UintOf(b: Str): uint64 { FromBE(b) % TWO64 }

  function StringsOf(attrs: seq<Attribute>): seq<StringAnnot> {
    if attrs == [] then []
    else
      var a := attrs[|attrs| - 1];
      StringsOf(attrs[..|attrs| - 1]) +
      match a.valueType
      case StringValue => [StringAnnot(a.name, TrimRightNul(a.value))]
      case EntityKeyValue => [StringAnnot(a.name, LowerHex(BytesToHash(a.value)))]
      case _ => []
  }

  function NumericsOf(attrs: seq<Attribute>): seq<NumericAnnot> {
    if attrs == [] then []
    else
      var a := attrs[|attrs| - 1];
      NumericsOf(attrs[..|attrs| - 1]) +
      if a.valueType.UintValue? then [NumericAnnot(a.name, UintOf(a.value))] else []
  }

  lemma AttributesStep(attrs: seq<Attribute>, i: nat)
    requires i < |attrs|
    ensures StringsOf(attrs[..i + 1]) == StringsOf(attrs[..i]) +
              match attrs[i].valueType
              case StringValue => [StringAnnot(attrs[i].name, TrimRightNul(attrs[i].value))]
              case EntityKeyValue => [StringAnnot(attrs[i].name, LowerHex(BytesToHash(attrs[i].value)))]
              case _ => []
    ensures NumericsOf(attrs[..i + 1]) == NumericsOf(attrs[..i]) +
              if attrs[i].valueType.UintValue? then [NumericAnnot(attrs[i].name, UintOf(attrs[i].value))] else []
  {
    hide TrimRightNul, LowerHex, BytesToHash, UintOf;
    assert attrs[..i + 1][..i] == attrs[..i];
  }

  method ApplyAttributes(e: Entity, attrs: seq<Attribute>) returns (r: Entity)
    ensures r == e.(stringAnnotations := e.stringAnnotations + StringsOf(attrs),
                    numericAnnotations := e.numericAnnotations + NumericsOf(attrs))
  {
    hide StringsOf, NumericsOf, TrimRightNul, LowerHex, BytesToHash;
    assert StringsOf(attrs[..0]) == [] && NumericsOf(attrs[..0]) == [] by { AttributesEmpty(attrs[..0]); }
    r := e;
    for i := 0 to |attrs|
      invariant r == e.(stringAnnotations := r.stringAnnotations, numericAnnotations := r.numericAnnotations)
      invariant r.stringAnnotations == e.stringAnnotations + StringsOf(attrs[..i])
      invariant r.numericAnnotations == e.numericAnnotations + NumericsOf(attrs[..i])
    {
      var a := attrs[i];
      AttributesStep(attrs, i);
      match a.valueType {
        case StringValue =>
          r := r.(stringAnnotations := r.stringAnnotations + [StringAnnot(a.name, TrimRightNul(a.value))]);
        case UintValue =>
          var v := AttrUint64(a.value);
          r := r.(numericAnnotations := r.numericAnnotations + [NumericAnnot(a.name, v)]);
        case EntityKeyValue =>
          r := r.(stringAnnotations := r.stringAnnotations + [StringAnnot(a.name, LowerHex(BytesToHash(a.value)))]);
        case UnknownValue =>
      }
    }
    assert attrs[..|attrs|] == attrs;
  }

  lemma AttributesEmpty(attrs: seq<Attribute>)
    requires attrs == []
    ensures StringsOf(attrs) == [] && NumericsOf(attrs) == []
  {
  }

  // ---------- Annotation pairs ----------

  function BuiltinAnnotations(e: Entity): (r: seq<Pair>)
    ensures |r| == 8
  {
    [ ALL_PAIR,
      Pair(CREATOR_KEY, LowerHex(e.creator)),
      Pair(CREATED_AT_KEY, NumericVal(e.createdAtBlock)),
      Pair(LAST_MODIFIED_KEY, NumericVal(e.lastModifiedAtBlock)),
      Pair(OWNER_KEY, LowerHex(e.owner)),
      Pair(ENTITY_KEY_KEY, LowerHex(e.key)),
      Pair(EXPIRATION_KEY, NumericVal(e.expiresAt)),
      Pair(CONTENT_TYPE_KEY, e.contentType) ]
  }

  function StringPairs(s: seq<StringAnnot>): (r: seq<Pair>)
    ensures |r| == |s|
  {
    seq(|s|, i requires 0 <= i < |s| => Pair(s[i].key, s[i].value))
  }

  function NumericPairs(s: seq<NumericAnnot>): (r: seq<Pair>)
    ensures |r| == |s|
  {
    seq(|s|, i requires 0 <= i < |s| => Pair(s[i].key, NumericVal(s[i].value)))
  }

  function AllPairs(e: Entity): (r: seq<Pair>)
    ensures |r| >= 8
  {
    BuiltinAnnotations(e) + (StringPairs(e.stringAnnotations) + NumericPairs(e.numericAnnotations))
  }

  method UserAnnotations(e: Entity) returns (pairs: seq<Pair>)
    ensures pairs == StringPairs(e.stringAnnotations) + NumericPairs(e.numericAnnotations)
  {
    pairs := [];
    for i := 0 to |e.stringAnnotations|
      invariant pairs == StringPairs(e.stringAnnotations)[..i]
    {
      pairs := pairs + [Pair(e.stringAnnotations[i].key, e.stringAnnotations[i].value)];
    }
    ghost var s := pairs;
    for i := 0 to |e.numericAnnotations|
      invariant pairs == s + NumericPairs(e.numericAnnotations)[..i]
    {
      pairs := pairs + [Pair(e.numericAnnotations[i].key, NumericVal(e.numericAnnotations[i].value))];
    }
  }

  method AllAnnotations(e: Entity) returns (pairs: seq<Pair>)
    ensures pairs == AllPairs(e)
  {
    var user := UserAnnotations(e);
    pairs := BuiltinAnnotations(e) + user;
  }

  ghost function PairSet(pairs: seq<Pair>): set<Pair> {
    set p | p in pairs
  }

  method AnnotPairSet(pairs: seq<Pair>) returns (m: set<Pair>)
    ensures m == PairSet(pairs)
  {
    m := {};
    for i := 0 to |pairs|
      invariant forall p :: p in m <==> p in pairs[..i]
    {
      m := m + {pairs[i]};
    }
    assert pairs[..|pairs|] == pairs;
  }

  /** The pairs an entity is indexed under. */
  ghost function Annots(e: Entity): set<Pair> {
    PairSet(AllPairs(e))
  }

  // ---------- What the registry contract promises ----------

  /** User attribute names hold no NUL byte and do not start with a dollar sign. */
  predicate ValidName(n: Str) {
    0 !in n && (n != [] ==> n[0] != DOLLAR)
  }

  /** Attribute text is trimmed of trailing NULs, and hexadecimal text has none. */
  predicate Trimmed(s: Str) { s != [] ==> s[|s| - 1] != 0 }

  predicate ValidEntity(e: Entity) {
    && (forall i :: 0 <= i < |e.stringAnnotations| ==>
          ValidName(e.stringAnnotations[i].key) && Trimmed(e.stringAnnotations[i].value))
    && (forall i :: 0 <= i < |e.numericAnnotations| ==> ValidName(e.numericAnnotations[i].key))
  }

  predicate ValidAttributes(attrs: seq<Attribute>) {
    forall i :: 0 <= i < |attrs| ==> ValidName(attrs[i].name)
  }

  lemma {:induction false} AttributeNames(attrs: seq<Attribute>)
    requires ValidAttributes(attrs)
    ensures forall i :: 0 <= i < |StringsOf(attrs)| ==>
              ValidName(StringsOf(attrs)[i].key) && Trimmed(StringsOf(attrs)[i].value)
    ensures forall i :: 0 <= i < |NumericsOf(attrs)| ==> ValidName(NumericsOf(attrs)[i].key)
  {
    hide BytesToHash, LowerHex, TrimRightNul, UintOf;
    if attrs != [] {
      var a := attrs[|attrs| - 1];
      AttributeNames(attrs[..|attrs| - 1]);
      LowerHexTrimmed(BytesToHash(a.value));
      assert Trimmed(TrimRightNul(a.value));
    }
  }

  lemma LowerHexTrimmed(b: Str)
    ensures Trimmed(LowerHex(b))
  {
    HexDigitsPrint(b);
  }

  lemma {:induction false} HexDigitsPrint(b: Str)
    ensures forall i :: 0 <= i < |HexDigits(b)| ==> HexDigits(b)[i] != 0
  {
    if b != [] { HexDigitsPrint(b[1..]); }
  }

  lemma AsciiClean(s: string)
    requires forall i :: 0 <= i < |s| ==> ' ' < s[i] < '~'
    ensures 0 !in Ascii(s)
  {
  }

  lemma BuiltinKeys()
    ensures ALL_KEY[0] == CREATOR_KEY[0] == CREATED_AT_KEY[0] == LAST_MODIFIED_KEY[0] == DOLLAR
    ensures OWNER_KEY[0] == ENTITY_KEY_KEY[0] == EXPIRATION_KEY[0] == CONTENT_TYPE_KEY[0] == DOLLAR
    ensures ALL_KEY != ENTITY_KEY_KEY
    ensures 0 !in ALL_KEY && 0 !in CREATOR_KEY && 0 !in CREATED_AT_KEY && 0 !in LAST_MODIFIED_KEY
    ensures 0 !in OWNER_KEY && 0 !in ENTITY_KEY_KEY && 0 !in EXPIRATION_KEY && 0 !in CONTENT_TYPE_KEY
  {
    assert ALL_KEY[1] != ENTITY_KEY_KEY[1];
    AsciiClean("$all");
    AsciiClean("$creator");
    AsciiClean("$createdAtBlock");
    AsciiClean("$lastModifiedAtBlock");
    AsciiClean("$owner");
    AsciiClean("$key");
    AsciiClean("$expiration");
    AsciiClean("$contentType");
  }

  lemma KeyBytes()
    ensures |ALL_KEY| > 1 && |OWNER_KEY| > 1 && |ENTITY_KEY_KEY| > 1 && |EXPIRATION_KEY| > 1 && |LAST_MODIFIED_KEY| > 1
    ensures |CREATED_AT_KEY| == 15 && |CREATOR_KEY| == 8 && |CONTENT_TYPE_KEY| == 12
    ensures ALL_KEY[1] == 97 && CREATOR_KEY[1] == CREATED_AT_KEY[1] == CONTENT_TYPE_KEY[1] == 99 &&
            EXPIRATION_KEY[1] == 101
    ensures ENTITY_KEY_KEY[1] == 107 && LAST_MODIFIED_KEY[1] == 108 && OWNER_KEY[1] == 111
  {
  }

  /** The eight built-in keys are distinct and start with a dollar sign. */
  lemma BuiltinKeysDistinct(e: Entity)
    ensures forall i, j :: 0 <= i < j < 8 ==> BuiltinAnnotations(e)[i].key != BuiltinAnnotations(e)[j].key
    ensures forall i :: 0 <= i < 8 ==> BuiltinAnnotations(e)[i].key != [] && BuiltinAnnotations(e)[i].key[0] == DOLLAR
  {
    hide LowerHex, NumericVal, Ascii;
    BuiltinKeys();
    KeyBytes();
  }

  lemma UserPairs(e: Entity, p: Pair)
    requires ValidEntity(e) && p in StringPairs(e.stringAnnotations) + NumericPairs(e.numericAnnotations)
    ensures p.key == [] || p.key[0] != DOLLAR
  {
  }

  /** Under each built-in key an entity carries exactly its built-in value: no user attribute can add another. */
  lemma BuiltinCarried(e: Entity, i: nat, p: Pair)
    requires ValidEntity(e) && i < 8
    ensures p in Annots(e) && p.key == BuiltinAnnotations(e)[i].key <==> p == BuiltinAnnotations(e)[i]
  {
    hide ValidEntity, StringPairs, NumericPairs, BuiltinAnnotations, LowerHex, NumericVal;
    BuiltinKeysDistinct(e);
    var builtin, user := BuiltinAnnotations(e), StringPairs(e.stringAnnotations) + NumericPairs(e.numericAnnotations);
    assert |builtin| == 8;
    assert p in AllPairs(e) <==> p in builtin || p in user;
    if p in user { UserPairs(e, p); }
    if p in builtin {
      var j :| 0 <= j < 8 && builtin[j] == p;
    }
  }

  /** Under a user key an entity carries the values of its string and numeric annotations, and nothing else. */
  lemma UserCarried(e: Entity, p: Pair)
    requires ValidName(p.key)
    ensures p in Annots(e) <==>
            || StringAnnot(p.key, p.val) in e.stringAnnotations
            || exists n: uint64 :: NumericAnnot(p.key, n) in e.numericAnnotations && p.val == NumericVal(n)
  {
    hide BuiltinAnnotations, NumericVal;
    BuiltinKeysDistinct(e);
    var builtin, user := BuiltinAnnotations(e), StringPairs(e.stringAnnotations) + NumericPairs(e.numericAnnotations);
    assert p in AllPairs(e) <==> p in builtin || p in user;
    assert p !in builtin;
    StringPairIff(e.stringAnnotations, p);
    NumericPairIff(e.numericAnnotations, p);
  }

  lemma StringPairIff(s: seq<StringAnnot>, p: Pair)
    ensures p in StringPairs(s) <==> StringAnnot(p.key, p.val) in s
  {
    if p in StringPairs(s) {
      var i :| 0 <= i < |s| && StringPairs(s)[i] == p;
      assert s[i] == StringAnnot(p.key, p.val);
    }
    if StringAnnot(p.key, p.val) in s {
      var i :| 0 <= i < |s| && s[i] == StringAnnot(p.key, p.val);
      assert StringPairs(s)[i] == p;
    }
  }

  lemma NumericPairIff(s: seq<NumericAnnot>, p: Pair)
    ensures p in NumericPairs(s) <==> exists n: uint64 :: NumericAnnot(p.key, n) in s && p.val == NumericVal(n)
  {
    hide NumericVal;
    if p in NumericPairs(s) {
      var i :| 0 <= i < |s| && NumericPairs(s)[i] == p;
      assert s[i] == NumericAnnot(p.key, s[i].value);
    }
    if n: uint64 :| NumericAnnot(p.key, n) in s && p.val == NumericVal(n) {
      var i :| 0 <= i < |s| && s[i] == NumericAnnot(p.key, n);
      assert NumericPairs(s)[i] == p;
    }
  }

  /** Lower-case hexadecimal text has no capital letters. */
  lemma LowerHexIsLower(b: Str)
    ensures ToLower(LowerHex(b)) == LowerHex(b)
  {
    HexDigitsLower(b);
    assert forall i :: 0 <= i < |LowerHex(b)| ==> !(65 <= LowerHex(b)[i] <= 90);
  }

  lemma {:induction false} HexDigitsLower(b: Str)
    ensures forall i :: 0 <= i < |HexDigits(b)| ==> !(65 <= HexDigits(b)[i] <= 90)
  {
    if b != [] { HexDigitsLower(b[1..]); }
  }

  // ---------- Single attributes ----------

  lemma {:induction false} TrimmedStays(s: Str)
    requires Trimmed(s)
    ensures TrimRightNul(s) == s
  {
  }

  lemma OneAttribute(a: Attribute)
    ensures a.valueType.StringValue? ==> StringsOf([a]) == [StringAnnot(a.name, TrimRightNul(a.value))]
    ensures a.valueType.UintValue? ==> NumericsOf([a]) == [NumericAnnot(a.name, UintOf(a.value))]
  {
    hide TrimRightNul, UintOf;
    assert [a][..0] == [];
    AttributesEmpty([a][..0]);
  }

  lemma EightBytes(v: Str)
    requires |v| == 8
    ensures UintOf(v) == NumericOf(v) && NumericVal(UintOf(v)) == v
  {
    hide FromBE, Pow256;
    Pow256Eight();
    assert FromBE(v) < Pow256(8);
    ModTwo64(0, FromBE(v));
  }
}
