/** Byte strings, their lexicographic order, and big-endian numbers. */
module Bytes {
  type byte = b: int | 0 <= b < 256

  /** Keys and values are Go strings, that is byte strings. */
  type Str = seq<byte>

  const TWO64: int := 0x1_0000_0000_0000_0000
  const MAX_UINT64: uint64 := 0xFFFF_FFFF_FFFF_FFFF
  type uint64 = n: int | 0 <= n < 0x1_0000_0000_0000_0000

  /** Strict lexicographic order: the key order of the database and of Go's `<` on strings. */
  predicate Less(a: Str, b: Str)
  {
    b != [] && (a == [] || a[0] < b[0] || (a[0] == b[0] && Less(a[1..], b[1..])))
  }

  predicate LessEq(a: Str, b: Str) { a == b || Less(a, b) }

  lemma {:induction false} LessTransitive(a: Str, b: Str, c: Str)
    requires Less(a, b) && Less(b, c)
    ensures Less(a, c)
  {
    if a != [] && a[0] == b[0] == c[0] {
      LessTransitive(a[1..], b[1..], c[1..]);
    }
  }

  lemma {:induction false} LessTotal(a: Str, b: Str)
    ensures Less(a, b) || a == b || Less(b, a)
    ensures !(Less(a, b) && Less(b, a)) && !Less(a, a)
  {
    if a != [] {
      LessTotal(a[1..], a[1..]);
      if b != [] {
        LessTotal(a[1..], b[1..]);
        if a[0] == b[0] && a[1..] == b[1..] {
          assert a == [a[0]] + a[1..] && b == [b[0]] + b[1..];
        }
      }
    }
  }

  lemma {:induction false} LessSamePrefix(p: Str, a: Str, b: Str)
    ensures Less(p + a, p + b) <==> Less(a, b)
  {
    if p == [] {
      assert p + a == a && p + b == b;
    } else {
      assert (p + a)[1..] == p[1..] + a && (p + b)[1..] == p[1..] + b;
      LessSamePrefix(p[1..], a, b);
    }
  }

  function Pow256(k: nat): (r: nat)
    ensures r > 0
  {
    if k == 0 then 1 else 256 * Pow256(k - 1)
  }

  /** Value of a big-endian byte string. */
  function FromBE(s: Str): (n: nat)
    ensures n < Pow256(|s|)
  {
    if s == [] then 0
    else
      var r := FromBE(s[..|s| - 1]);
      256 * r + s[|s| - 1]
  }

  /** The k-byte big-endian form of n. */
  function ToBE(n: nat, k: nat): (s: Str)
    requires n < Pow256(k)
    ensures |s| == k && FromBE(s) == n
  {
    if k == 0 then []
    else
      var s := ToBE(n / 256, k - 1);
      var r := s + [n % 256];
      assert r[..|r| - 1] == s;
      r
  }

  lemma {:induction false} FromBEInjective(s: Str, t: Str)
    requires |s| == |t| && FromBE(s) == FromBE(t)
    ensures s == t
  {
    if s != [] {
      var i := |s| - 1;
      FromBEInjective(s[..i], t[..i]);
      assert s == s[..i] + [s[i]] && t == t[..i] + [t[i]];
    }
  }

  lemma {:induction false} FromBEAppend(s: Str, x: byte)
    ensures FromBE(s + [x]) == 256 * FromBE(s) + x
  {
    assert (s + [x])[..|s|] == s;
  }

  lemma {:induction false} LessAppend(s: Str, t: Str, x: byte, y: byte)
    requires |s| == |t|
    ensures Less(s + [x], t + [y]) <==> Less(s, t) || (s == t && x < y)
  {
    if s == [] {
      assert s + [x] == [x] && t + [y] == [y];
      assert [x][1..] == [y][1..] == [];
    } else {
      assert (s + [x])[1..] == s[1..] + [x] && (t + [y])[1..] == t[1..] + [y];
      LessAppend(s[1..], t[1..], x, y);
      assert s == [s[0]] + s[1..] && t == [t[0]] + t[1..];
    }
  }

  /** Among byte strings of one length, byte order is numeric order. */
  lemma {:induction false} BigEndianOrder(s: Str, t: Str)
    requires |s| == |t|
    ensures Less(s, t) <==> FromBE(s) < FromBE(t)
  {
    hide FromBE, Less, Pow256;
    if s == [] {
      LessTotal(s, t);
      assert s == t;
    } else {
      var i := |s| - 1;
      var s', t' := s[..i], t[..i];
      BigEndianOrder(s', t');
      assert s == s' + [s[i]] && t == t' + [t[i]];
      LessAppend(s', t', s[i], t[i]);
      FromBEAppend(s', s[i]);
      FromBEAppend(t', t[i]);
      if FromBE(s') == FromBE(t') { FromBEInjective(s', t'); }
    }
  }

  lemma Pow256Eight()
    ensures Pow256(8) == TWO64
  {
    assert Pow256(2) == 0x1_0000;
    assert Pow256(4) == 0x1_0000_0000;
    assert Pow256(6) == 0x1_0000_0000_0000;
  }

  lemma {:induction false} Pow256Monotone(j: nat, k: nat)
    requires j <= k
    ensures Pow256(j) <= Pow256(k)
    decreases k - j
  {
    if j < k { Pow256Monotone(j + 1, k); }
  }

  lemma HornerStep(p: nat, a: nat, f: nat, x: nat)
    ensures 256 * (p * a + f) + x == (256 * p) * a + (256 * f + x)
  {
  }

  lemma {:induction false} FromBEConcat(a: Str, b: Str)
    ensures FromBE(a + b) == Pow256(|b|) * FromBE(a) + FromBE(b)
  {
    if b == [] {
      assert a + b == a;
    } else {
      var i := |b| - 1;
      var c, x := b[..i], b[i];
      FromBEConcat(a, c);
      assert a + b == (a + c) + [x] && b == c + [x];
      FromBEAppend(a + c, x);
      FromBEAppend(c, x);
      HornerStep(Pow256(i), FromBE(a), FromBE(c), x);
      assert Pow256(|b|) == 256 * Pow256(i);
    }
  }

  lemma ModTwo64(h: nat, l: nat)
    requires l < TWO64
    ensures (TWO64 * h + l) % TWO64 == l
  {
  }

  /** Dropping all but the last eight bytes is reduction modulo 2^64. */
  lemma {:induction false} FromBESuffix(b: Str)
    ensures FromBE(if |b| > 8 then b[|b| - 8..] else b) == FromBE(b) % TWO64
  {
    hide FromBE, Pow256;
    Pow256Eight();
    if |b| <= 8 {
      Pow256Monotone(|b|, 8);
      ModTwo64(0, FromBE(b));
    } else {
      var hi, lo := b[..|b| - 8], b[|b| - 8..];
      assert b == hi + lo;
      FromBEConcat(hi, lo);
      ModTwo64(FromBE(hi), FromBE(lo));
    }
  }

  /** Eight-byte big-endian encoding of a uint64. */
  function NumericVal(v: uint64): (s: Str)
    ensures |s| == 8 && FromBE(s) == v
  {
    Pow256Eight();
    ToBE(v, 8)
  }

  function NumericOf(s: Str): (v: uint64)
    requires |s| == 8
    ensures NumericVal(v) == s
  {
    Pow256Eight();
    FromBEInjective(s, NumericVal(FromBE(s)));
    FromBE(s)
  }

  /** The encoding is an order isomorphism from uint64 onto the strings of length eight. */
  lemma NumericOrder(a: uint64, b: uint64)
    ensures Less(NumericVal(a), NumericVal(b)) <==> a < b
    ensures NumericVal(a) == NumericVal(b) <==> a == b
  {
    BigEndianOrder(NumericVal(a), NumericVal(b));
  }
}
