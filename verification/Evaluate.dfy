/** Evaluation of a normalised query: bitmap reads, scans, and in-place set operations on fresh bitmaps. */
module Evaluate {
  import opened Bytes
  import opened Wrappers
  import opened Entities
  import opened Ledger
  import opened Chain
  import opened Machine
  import opened Keys
  import opened CacheStores
  import opened Disk
  import opened Bitmaps
  import opened Stores
  import opened Reads
  import opened Glob
  import opened Scans
  import opened Language

  // ---------- What a leaf selects ----------

  function AnnotVal(v: Value): Str {
    match v
    case Text(s) => s
    case Number(n) => NumericVal(n)
  }

  function Candidates(vs: Values): seq<Str> {
    match vs
    case Texts(ss) => ss
    case Numbers(ns) => seq(|ns|, i requires 0 <= i < |ns| => NumericVal(ns[i]))
  }

  predicate Negated(l: Leaf) { (l.Assign? || l.Inclusion? || l.GlobExpr?) && l.isNot }

  /** A stored value below a bound: as text unless empty, as a number if it has eight bytes. */
  predicate Below(v: Str, x: Value) {
    match x
    case Text(s) => v != [] && Less(v, s)
    case Number(n) => |v| == 8 && NumericOf(v) < n
  }

  predicate NotBelow(v: Str, x: Value) {
    match x
    case Text(s) => v != [] && !Less(v, s)
    case Number(n) => |v| == 8 && NumericOf(v) >= n
  }

  predicate Equals(v: Str, x: Value) {
    match x
    case Text(s) => v != [] && v == s
    case Number(n) => |v| == 8 && NumericOf(v) == n
  }

  /** A stored value meets the test of a leaf, apart from the leaf's own negation. */
  ghost predicate Hits(l: Leaf, v: Str) {
    match l
    case Assign(_, _, x) => v == AnnotVal(x)
    case Inclusion(_, _, vs) => v in Candidates(vs)
    case GlobExpr(_, _, p) => v != [] && Matches(p, v)
    case LessThan(_, x) => Below(v, x)
    case LessOrEqualThan(_, x) => Below(v, x) || Equals(v, x)
    case GreaterThan(_, x) => NotBelow(v, x) && !Equals(v, x)
    case GreaterOrEqualThan(_, x) => NotBelow(v, x)
  }

  ghost function HitSet(annot: map<Pair, Hash>, l: Leaf): set<uint64> {
    set p, id | p in annot && p.key == l.key && Hits(l, p.val) && id in annot[p].ids :: id
  }

  /** Equality and inclusion read the requested block; ranges and globs always scan the head. */
  ghost function LeafSet(hist: map<Pair, Hash>, head: map<Pair, Hash>, l: Leaf): set<uint64> {
    var hits := HitSet(if l.Assign? || l.Inclusion? then hist else head, l);
    if Negated(l) then Bits(hist, ALL_PAIR) - hits else hits
  }

  /** Whether evaluating a leaf looks at the requested block at all. */
  predicate ReadsBlock(l: Leaf) {
    match l
    case Assign(_, _, _) => true
    case Inclusion(_, n, vs) => n || Candidates(vs) != []
    case GlobExpr(_, n, _) => n
    case _ => false
  }

  ghost function HistAnnot(chain: seq<Block>, n: uint64): map<Pair, Hash> {
    if KnownBlock(chain, n) then AnnotAt(chain, n) else map[]
  }

  ghost function Selected(chain: seq<Block>, n: uint64, l: Leaf): set<uint64> {
    LeafSet(HistAnnot(chain, n), AnnotAt(chain, 0), l)
  }

  // ---------- Leaves ----------

  lemma HitsAre(annot: map<Pair, Hash>, l: Leaf, test: Test)
    requires forall v :: Passes(test, v) <==> Hits(l, v)
    ensures HitSet(annot, l) == Where(annot, l.key, test)
  {
    hide Passes, Hits;
  }

  lemma HitsNothing(annot: map<Pair, Hash>, l: Leaf)
    requires forall v :: !Hits(l, v)
    ensures HitSet(annot, l) == {}
  {
    hide Hits;
  }

  lemma HitIff(annot: map<Pair, Hash>, l: Leaf, id: uint64)
    ensures id in HitSet(annot, l) <==> exists v: Str :: Hits(l, v) && id in Bits(annot, Pair(l.key, v))
  {
    hide Hits;
    if v: Str :| Hits(l, v) && id in Bits(annot, Pair(l.key, v)) {
      assert Pair(l.key, v) in annot && Pair(l.key, v).key == l.key && Pair(l.key, v).val == v;
    }
    if id in HitSet(annot, l) {
      var p :| p in annot && p.key == l.key && Hits(l, p.val) && id in annot[p].ids;
      assert p == Pair(l.key, p.val);
    }
  }

  lemma HeadIndex(db: Db, s: State)
    requires DiskInv(db, s)
    ensures AnnotSync(db, AnnotAt(s.chain, 0)) && Covered(db, AnnotAt(s.chain, 0))
  {
    hide Inv, HeadInv, BlockIndex, Archive, TriesKept, AnnotSync, IdSync, Covered, Replay;
    HeadCovered(db, s.chain, |s.chain|);
    assert s.chain[..|s.chain|] == s.chain;
  }

  method EvaluateLessThan(s: Store, l: Leaf) returns (r: Bitmap)
    requires s.Valid() && l.LessThan?
    ensures fresh(r) && r.ids == HitSet(AnnotAt(s.state.chain, 0), l)
  {
    hide DiskInv, HeadOf, AnnotSync, Covered, HitSet, Where, NumericOf, Less;
    ghost var annot := AnnotAt(s.state.chain, 0);
    HeadIndex(s.rawDB.data, s.state);
    match l.value {
      case Text(x) =>
        var hi := Some(Bound(x, false));
        r := IterateStringAnnotBitmaps(s.rawDB, l.key, None, hi, annot);
        HitsAre(annot, l, StringRange(None, hi));
      case Number(n) =>
        if n == 0 {
          r := new Bitmap({});
          HitsNothing(annot, l);
        } else {
          r := IterateNumericAnnotBitmaps(s.rawDB, l.key, 0, n - 1, annot);
          HitsAre(annot, l, NumericRange(0, n - 1));
        }
    }
  }

  method EvaluateLessOrEqualThan(s: Store, l: Leaf) returns (r: Bitmap)
    requires s.Valid() && l.LessOrEqualThan?
    ensures fresh(r) && r.ids == HitSet(AnnotAt(s.state.chain, 0), l)
  {
    hide DiskInv, HeadOf, AnnotSync, Covered, HitSet, Where, NumericOf, Less;
    ghost var annot := AnnotAt(s.state.chain, 0);
    HeadIndex(s.rawDB.data, s.state);
    match l.value {
      case Text(x) =>
        var hi := Some(Bound(x, true));
        r := IterateStringAnnotBitmaps(s.rawDB, l.key, None, hi, annot);
        HitsAre(annot, l, StringRange(None, hi));
      case Number(n) =>
        r := IterateNumericAnnotBitmaps(s.rawDB, l.key, 0, n, annot);
        HitsAre(annot, l, NumericRange(0, n));
    }
  }

  /** The lower bound of a string scan cuts off what is below it. */
  lemma StringFrom(x: Str, v: Str)
    ensures Less(x, v) <==> !Less(v, x) && v != x
  {
    LessTotal(x, v);
  }

  method EvaluateGreaterThan(s: Store, l: Leaf) returns (r: Bitmap)
    requires s.Valid() && l.GreaterThan?
    ensures fresh(r) && r.ids == HitSet(AnnotAt(s.state.chain, 0), l)
  {
    hide DiskInv, HeadOf, AnnotSync, Covered, HitSet, Where, NumericOf, Less;
    ghost var annot := AnnotAt(s.state.chain, 0);
    HeadIndex(s.rawDB.data, s.state);
    match l.value {
      case Text(x) =>
        var lo := Some(Bound(x, false));
        r := IterateStringAnnotBitmaps(s.rawDB, l.key, lo, None, annot);
        forall v ensures Less(x, v) <==> !Less(v, x) && v != x { StringFrom(x, v); }
        HitsAre(annot, l, StringRange(lo, None));
      case Number(n) =>
        if n == MAX_UINT64 {
          r := new Bitmap({});
          HitsNothing(annot, l);
        } else {
          r := IterateNumericAnnotBitmaps(s.rawDB, l.key, n + 1, MAX_UINT64, annot);
          HitsAre(annot, l, NumericRange(n + 1, MAX_UINT64));
        }
    }
  }

  method EvaluateGreaterOrEqualThan(s: Store, l: Leaf) returns (r: Bitmap)
    requires s.Valid() && l.GreaterOrEqualThan?
    ensures fresh(r) && r.ids == HitSet(AnnotAt(s.state.chain, 0), l)
  {
    hide DiskInv, HeadOf, AnnotSync, Covered, HitSet, Where, NumericOf, Less;
    ghost var annot := AnnotAt(s.state.chain, 0);
    HeadIndex(s.rawDB.data, s.state);
    match l.value {
      case Text(x) =>
        var lo := Some(Bound(x, true));
        r := IterateStringAnnotBitmaps(s.rawDB, l.key, lo, None, annot);
        forall v ensures Less(x, v) <==> !Less(v, x) && v != x { StringFrom(x, v); }
        HitsAre(annot, l, StringRange(lo, None));
      case Number(n) =>
        r := IterateNumericAnnotBitmaps(s.rawDB, l.key, n, MAX_UINT64, annot);
        HitsAre(annot, l, NumericRange(n, MAX_UINT64));
    }
  }

  /** Replaces a bitmap by its complement among the entities live at block n. */
  method Complement(s: Store, n: uint64, bm: Bitmap) returns (r: Result<Bitmap>)
    requires s.Valid()
    ensures r.Ok? <==> KnownBlock(s.state.chain, n)
    ensures r.Ok? ==> fresh(r.value) && r.value.ids == Bits(HistAnnot(s.state.chain, n), ALL_PAIR) - bm.ids
    ensures r.Err? ==> r.error == BlockNotFound
  {
    hide DiskInv, HeadOf, Replay;
    var all := AllEntities(s, n);
    if all.Err? {
      return Err(all.error);
    }
    all.value.AndNot(bm);
    return all;
  }

  method EvaluateEquality(s: Store, n: uint64, l: Leaf) returns (r: Result<Bitmap>)
    requires s.Valid() && l.Assign?
    ensures r.Ok? <==> KnownBlock(s.state.chain, n)
    ensures r.Ok? ==> fresh(r.value) && r.value.ids == Selected(s.state.chain, n, l)
    ensures r.Err? ==> r.error == BlockNotFound
  {
    hide DiskInv, HeadOf, HitSet, Replay;
    var bm := ReadAnnotBitmap(s, n, Pair(l.key, AnnotVal(l.value)));
    if bm.Err? {
      return Err(bm.error);
    }
    EqualityHits(HistAnnot(s.state.chain, n), l);
    if l.isNot {
      r := Complement(s, n, bm.value);
      return;
    }
    return bm;
  }

  lemma EqualityHits(annot: map<Pair, Hash>, l: Leaf)
    requires l.Assign?
    ensures HitSet(annot, l) == Bits(annot, Pair(l.key, AnnotVal(l.value)))
  {
    forall id: uint64 ensures id in HitSet(annot, l) <==> id in Bits(annot, Pair(l.key, AnnotVal(l.value))) {
      HitIff(annot, l, id);
    }
  }

  method EvaluateGlob(s: Store, n: uint64, l: Leaf) returns (r: Result<Bitmap>)
    requires s.Valid() && l.GlobExpr?
    ensures r.Err? <==> l.isNot && !KnownBlock(s.state.chain, n)
    ensures r.Ok? ==> fresh(r.value) && r.value.ids == Selected(s.state.chain, n, l)
    ensures r.Err? ==> r.error == BlockNotFound
  {
    hide DiskInv, HeadOf, AnnotSync, Covered, HitSet, Where, Matches, Replay;
    ghost var annot := AnnotAt(s.state.chain, 0);
    HeadIndex(s.rawDB.data, s.state);
    HitsAre(annot, l, Pattern(l.pattern));
    var (ok, prefix) := PrefixGlob(l.pattern);
    var bm: Bitmap;
    if ok {
      bm := IteratePrefixAnnotBitmaps(s.rawDB, l.key, prefix, annot);
      FastPathExact(annot, l.key, l.pattern);
    } else {
      bm := IterateGlobAnnotBitmaps(s.rawDB, l.key, l.pattern, annot);
    }
    if l.isNot {
      r := Complement(s, n, bm);
      return;
    }
    return Ok(bm);
  }

  /** The union of the buckets of the first candidates. */
  ghost function UnionOf(annot: map<Pair, Hash>, key: Str, vals: seq<Str>): set<uint64> {
    if vals == [] then {} else UnionOf(annot, key, vals[..|vals| - 1]) + Bits(annot, Pair(key, vals[|vals| - 1]))
  }

  lemma {:induction false} UnionOfIff(annot: map<Pair, Hash>, key: Str, vals: seq<Str>, id: uint64)
    ensures id in UnionOf(annot, key, vals) <==> exists v :: v in vals && id in Bits(annot, Pair(key, v))
  {
    if vals != [] {
      UnionOfIff(annot, key, vals[..|vals| - 1], id);
      assert vals == vals[..|vals| - 1] + [vals[|vals| - 1]];
    }
  }

  lemma InclusionHits(annot: map<Pair, Hash>, l: Leaf)
    requires l.Inclusion?
    ensures HitSet(annot, l) == UnionOf(annot, l.key, Candidates(l.values))
  {
    hide UnionOf, Candidates;
    forall id: uint64 ensures id in HitSet(annot, l) <==> id in UnionOf(annot, l.key, Candidates(l.values)) {
      HitIff(annot, l, id);
      UnionOfIff(annot, l.key, Candidates(l.values), id);
    }
  }

  method EvaluateInclusion(s: Store, n: uint64, l: Leaf) returns (r: Result<Bitmap>)
    requires s.Valid() && l.Inclusion?
    ensures r.Err? <==> ReadsBlock(l) && !KnownBlock(s.state.chain, n)
    ensures r.Ok? ==> fresh(r.value) && r.value.ids == Selected(s.state.chain, n, l)
    ensures r.Err? ==> r.error == BlockNotFound
  {
    hide DiskInv, HeadOf, HitSet, Replay, Candidates;
    ghost var annot := HistAnnot(s.state.chain, n);
    var vals := Candidates(l.values);
    var union := new Bitmap({});
    assert vals[..0] == [];
    for i := 0 to |vals|
      invariant fresh(union) && union.ids == UnionOf(annot, l.key, vals[..i])
      invariant i > 0 ==> KnownBlock(s.state.chain, n)
    {
      var bm := ReadAnnotBitmap(s, n, Pair(l.key, vals[i]));
      if bm.Err? {
        return Err(bm.error);
      }
      union.Or(bm.value);
      assert vals[..i + 1][..i] == vals[..i];
    }
    assert vals[..|vals|] == vals;
    InclusionHits(annot, l);
    if l.isNot {
      r := Complement(s, n, union);
      return;
    }
    return Ok(union);
  }

  /** One term of a conjunction. */
  method EvaluateTerm(s: Store, n: uint64, l: Leaf) returns (r: Result<Bitmap>)
    requires s.Valid()
    ensures r.Err? <==> ReadsBlock(l) && !KnownBlock(s.state.chain, n)
    ensures r.Ok? ==> fresh(r.value) && r.value.ids == Selected(s.state.chain, n, l)
    ensures r.Err? ==> r.error == BlockNotFound
  {
    hide DiskInv, HeadOf, HitSet, Replay, HistAnnot;
    var bm: Bitmap;
    match l {
      case Assign(_, _, _) => r := EvaluateEquality(s, n, l);
      case Inclusion(_, _, _) => r := EvaluateInclusion(s, n, l);
      case GlobExpr(_, _, _) => r := EvaluateGlob(s, n, l);
      case LessThan(_, _) => bm := EvaluateLessThan(s, l); r := Ok(bm);
      case LessOrEqualThan(_, _) => bm := EvaluateLessOrEqualThan(s, l); r := Ok(bm);
      case GreaterThan(_, _) => bm := EvaluateGreaterThan(s, l); r := Ok(bm);
      case GreaterOrEqualThan(_, _) => bm := EvaluateGreaterOrEqualThan(s, l); r := Ok(bm);
    }
  }

  // ---------- Conjunctions and disjunctions ----------

  /** The intersection of the terms; no terms select nothing. */
  ghost function AndSet(hist: map<Pair, Hash>, head: map<Pair, Hash>, c: Conjunction): set<uint64> {
    if c == [] then {}
    else if |c| == 1 then LeafSet(hist, head, c[0])
    else AndSet(hist, head, c[..|c| - 1]) * LeafSet(hist, head, c[|c| - 1])
  }

  /** The union of the conjunctions. */
  ghost function OrSet(hist: map<Pair, Hash>, head: map<Pair, Hash>, d: Dnf): set<uint64> {
    if d == [] then {} else OrSet(hist, head, d[..|d| - 1]) + AndSet(hist, head, d[|d| - 1])
  }

  ghost function AstSet(hist: map<Pair, Hash>, head: map<Pair, Hash>, a: Ast): set<uint64> {
    match a
    case AllAst => Bits(hist, ALL_PAIR)
    case OrAst(d) => OrSet(hist, head, d)
  }

  predicate AndReads(c: Conjunction) { exists i :: 0 <= i < |c| && ReadsBlock(c[i]) }

  predicate AstReads(a: Ast) {
    a.AllAst? || exists i :: 0 <= i < |a.terms| && AndReads(a.terms[i])
  }

  lemma AndSetStep(hist: map<Pair, Hash>, head: map<Pair, Hash>, c: Conjunction, i: nat)
    requires i < |c|
    ensures AndSet(hist, head, c[..i + 1]) ==
            if i == 0 then LeafSet(hist, head, c[0]) else AndSet(hist, head, c[..i]) * LeafSet(hist, head, c[i])
  {
    hide LeafSet;
    assert c[..i + 1][..i] == c[..i];
  }

  method EvaluateAnd(s: Store, n: uint64, c: Conjunction) returns (r: Result<Bitmap>)
    requires s.Valid()
    ensures r.Err? <==> AndReads(c) && !KnownBlock(s.state.chain, n)
    ensures r.Ok? ==> fresh(r.value) && r.value.ids == AndSet(HistAnnot(s.state.chain, n), AnnotAt(s.state.chain, 0), c)
    ensures r.Err? ==> r.error == BlockNotFound
  {
    hide DiskInv, HeadOf, LeafSet, Replay, HistAnnot, AndSet, ReadsBlock, Candidates;
    ghost var hist, head := HistAnnot(s.state.chain, n), AnnotAt(s.state.chain, 0);
    var result := new Bitmap({});
    for i := 0 to |c|
      invariant fresh(result)
      invariant i > 0 ==> result.ids == AndSet(hist, head, c[..i])
      invariant i == 0 ==> result.ids == {}
      invariant forall k :: 0 <= k < i ==> !(ReadsBlock(c[k]) && !KnownBlock(s.state.chain, n))
    {
      var bm := EvaluateTerm(s, n, c[i]);
      if bm.Err? {
        return Err(bm.error);
      }
      AndSetStep(hist, head, c, i);
      if i == 0 {
        result := bm.value;
      } else {
        result.And(bm.value);
      }
    }
    assert c[..|c|] == c;
    if |c| == 0 { AndSetEmpty(hist, head, c); }
    return Ok(result);
  }

  lemma AndSetEmpty(hist: map<Pair, Hash>, head: map<Pair, Hash>, c: Conjunction)
    requires c == []
    ensures AndSet(hist, head, c) == {}
  {
  }

  method EvaluateOr(s: Store, n: uint64, d: Dnf) returns (r: Result<Bitmap>)
    requires s.Valid()
    ensures r.Err? <==> AstReads(OrAst(d)) && !KnownBlock(s.state.chain, n)
    ensures r.Ok? ==> fresh(r.value) && r.value.ids == OrSet(HistAnnot(s.state.chain, n), AnnotAt(s.state.chain, 0), d)
    ensures r.Err? ==> r.error == BlockNotFound
  {
    hide DiskInv, HeadOf, Replay, HistAnnot, AndSet, AndReads;
    ghost var hist, head := HistAnnot(s.state.chain, n), AnnotAt(s.state.chain, 0);
    var result := new Bitmap({});
    assert d[..0] == [];
    for i := 0 to |d|
      invariant fresh(result) && result.ids == OrSet(hist, head, d[..i])
      invariant forall k :: 0 <= k < i ==> !(AndReads(d[k]) && !KnownBlock(s.state.chain, n))
    {
      var bm := EvaluateAnd(s, n, d[i]);
      if bm.Err? {
        return Err(bm.error);
      }
      result.Or(bm.value);
      assert d[..i + 1][..i] == d[..i];
    }
    assert d[..|d|] == d;
    return Ok(result);
  }

  /** Evaluates a normalised query. The store is only read; the result is a bitmap nobody else holds. */
  method EvaluateAst(s: Store, n: uint64, a: Ast) returns (r: Result<Bitmap>)
    requires s.Valid()
    ensures r.Err? <==> AstReads(a) && !KnownBlock(s.state.chain, n)
    ensures r.Ok? ==> fresh(r.value) && r.value.ids == AstSet(HistAnnot(s.state.chain, n), AnnotAt(s.state.chain, 0), a)
    ensures r.Err? ==> r.error == BlockNotFound
  {
    hide DiskInv, HeadOf, Replay, OrSet, AndReads;
    match a {
      case AllAst => r := AllEntities(s, n);
      case OrAst(d) => r := EvaluateOr(s, n, d);
    }
  }
}
