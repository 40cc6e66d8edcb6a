/**
 Big-endian integers inside ordered keys: byte order is numeric order, and a range scan bounded by two keys with a
 common prefix sees only keys under that prefix.
 */
module ByteKeys {
  type Byte = x: int | 0 <= x < 256

  type Bytes = seq<Byte>

  const MAX_U64 := 0xFFFF_FFFF_FFFF_FFFF

  function Pow256(w: nat): (p: nat)
    ensures p >= 1
  {
    if w == 0 then 1 else 256 * Pow256(w - 1)
  }

  /** `n` in `w` big-endian bytes, dropping what does not fit. */
  function BigEndian(n: nat, w: nat): (b: Bytes)
    ensures |b| == w
  {
    if w == 0 then [] else BigEndian(n / 256, w - 1) + [n % 256]
  }

  function Number(b: Bytes): nat {
    if b == [] then 0 else 256 * Number(b[..|b| - 1]) + b[|b| - 1]
  }

  lemma {:induction false} NumberOfBigEndian(n: nat, w: nat)
    requires n < Pow256(w)
    ensures Number(BigEndian(n, w)) == n
  {
    if w > 0 {
      NumberOfBigEndian(n / 256, w - 1);
      assert BigEndian(n, w)[..w - 1] == BigEndian(n / 256, w - 1);
    }
  }

  lemma {:induction false} NumberBound(b: Bytes)
    ensures Number(b) < Pow256(|b|)
  {
    if b != [] {
      NumberBound(b[..|b| - 1]);
    }
  }

  /** Byte-string order: at the first difference the smaller byte comes first, and a proper prefix comes before. */
  predicate Before(a: Bytes, b: Bytes) {
    if a == [] then b != []
    else b != [] && (a[0] < b[0] || (a[0] == b[0] && Before(a[1..], b[1..])))
  }

  predicate AtOrAfter(a: Bytes, b: Bytes) {
    !Before(a, b)
  }

  lemma {:induction false} BeforeTotal(a: Bytes, b: Bytes)
    ensures Before(a, b) ==> !Before(b, a)
    ensures !Before(a, b) && !Before(b, a) ==> a == b
  {
    if a != [] && b != [] && a[0] == b[0] {
      BeforeTotal(a[1..], b[1..]);
      assert a == [a[0]] + a[1..] && b == [b[0]] + b[1..];
    }
  }

  lemma {:induction false} BeforeSamePrefix(p: Bytes, a: Bytes, b: Bytes)
    ensures Before(p + a, p + b) <==> Before(a, b)
  {
    if p == [] {
      assert p + a == a && p + b == b;
    } else {
      assert (p + a)[1..] == p[1..] + a && (p + b)[1..] == p[1..] + b;
      BeforeSamePrefix(p[1..], a, b);
    }
  }

  /** A key between two keys that start with `p` starts with `p`. */
  lemma {:induction false} BetweenSamePrefix(p: Bytes, lo: Bytes, k: Bytes, hi: Bytes)
    requires AtOrAfter(k, p + lo) && Before(k, p + hi)
    ensures p <= k
  {
    if p != [] {
      var ps, ks := p[1..], if k == [] then [] else k[1..];
      assert (p + lo)[0] == p[0] && (p + lo)[1..] == ps + lo;
      assert (p + hi)[0] == p[0] && (p + hi)[1..] == ps + hi;
      BetweenSamePrefix(ps, lo, ks, hi);
      assert k == [p[0]] + ks && p == [p[0]] + ps;
    }
  }

  /** Equal-width strings compare at the last byte only when everything before it agrees. */
  lemma {:induction false} BeforeSnoc(a: Bytes, x: Byte, b: Bytes, y: Byte)
    requires |a| == |b|
    ensures Before(a + [x], b + [y]) <==> Before(a, b) || (a == b && x < y)
  {
    if a != [] {
      BeforeSnoc(a[1..], x, b[1..], y);
      assert (a + [x])[1..] == a[1..] + [x] && (b + [y])[1..] == b[1..] + [y];
      assert a == [a[0]] + a[1..] && b == [b[0]] + b[1..];
    }
  }

  /** For equal widths, byte order is the order of the numbers the bytes spell. */
  lemma {:induction false} OrderIsNumeric(a: Bytes, b: Bytes)
    requires |a| == |b|
    ensures Before(a, b) <==> Number(a) < Number(b)
    ensures a == b <==> Number(a) == Number(b)
  {
    if a != [] {
      var fa, fb := a[..|a| - 1], b[..|b| - 1];
      OrderIsNumeric(fa, fb);
      assert a == fa + [a[|a| - 1]] && b == fb + [b[|b| - 1]];
      BeforeSnoc(fa, a[|a| - 1], fb, b[|b| - 1]);
    }
  }

  /** Unequal strings of one width decide the order whatever follows them. */
  lemma {:induction false} BeforeByHead(a: Bytes, s: Bytes, b: Bytes, t: Bytes)
    requires |a| == |b| && a != b
    ensures Before(a + s, b + t) <==> Before(a, b)
  {
    if a != [] {
      assert (a + s)[1..] == a[1..] + s && (b + t)[1..] == b[1..] + t;
      if a[0] == b[0] {
        assert a[1..] != b[1..] by {
          assert a == [a[0]] + a[1..] && b == [b[0]] + b[1..];
        }
        BeforeByHead(a[1..], s, b[1..], t);
      }
    }
  }

  /** A byte string is the big-endian form of its number. */
  lemma BigEndianOfNumber(b: Bytes)
    ensures BigEndian(Number(b), |b|) == b
  {
    NumberBound(b);
    NumberOfBigEndian(Number(b), |b|);
    OrderIsNumeric(BigEndian(Number(b), |b|), b);
  }

  lemma Pow256Of8()
    ensures Pow256(8) == MAX_U64 + 1
  {
    assert Pow256(4) == 0x1_0000_0000;
    assert Pow256(8) == 256 * (256 * (256 * (256 * Pow256(4))));
  }

  /** Eight bytes spell exactly the numbers up to 2^64 - 1. */
  lemma U64RoundTrip(n: nat)
    requires n <= MAX_U64
    ensures Number(BigEndian(n, 8)) == n
  {
    Pow256Of8();
    NumberOfBigEndian(n, 8);
  }

  /** An extended number compares with a bare one as the numbers do, a tie going to the longer. */
  lemma ExtendedOrder(m: nat, tail: Bytes, n: nat)
    requires m <= MAX_U64 && n <= MAX_U64 && tail != []
    ensures Before(BigEndian(m, 8) + tail, BigEndian(n, 8) + []) <==> m < n
  {
    U64RoundTrip(m);
    U64RoundTrip(n);
    OrderIsNumeric(BigEndian(m, 8), BigEndian(n, 8));
    if m != n {
      BeforeByHead(BigEndian(m, 8), tail, BigEndian(n, 8), []);
    } else {
      BeforeSamePrefix(BigEndian(m, 8), tail, []);
    }
  }

  /** The first key behind all keys with a prefix; nothing for a prefix of 0xFF bytes only. */
  function PrefixEnd(p: Bytes): Bytes {
    if p == [] then []
    else if p[|p| - 1] < 255 then p[..|p| - 1] + [p[|p| - 1] + 1]
    else PrefixEnd(p[..|p| - 1])
  }

  lemma {:induction false} UnderPrefixBefore(p: Bytes, tail: Bytes)
    requires exists i :: 0 <= i < |p| && p[i] < 255
    ensures Before(p + tail, PrefixEnd(p))
  {
    var front, last := p[..|p| - 1], p[|p| - 1];
    assert p + tail == front + ([last] + tail);
    if last < 255 {
      BeforeSamePrefix(front, [last] + tail, [last + 1]);
    } else {
      var i :| 0 <= i < |p| && p[i] < 255;
      assert front[i] < 255;
      UnderPrefixBefore(front, [last] + tail);
    }
  }

  /** A key from under the prefix on, and before its end, has the prefix. */
  lemma {:induction false} PrefixEndBounds(p: Bytes, lo: Bytes, k: Bytes)
    requires (exists i :: 0 <= i < |p| && p[i] < 255) && AtOrAfter(k, p + lo) && Before(k, PrefixEnd(p))
    ensures p <= k
  {
    var front, last := p[..|p| - 1], p[|p| - 1];
    assert p + lo == front + ([last] + lo);
    if last < 255 {
      BetweenSamePrefix(front, [last] + lo, k, [last + 1]);
      var tail := k[|front|..];
      assert k == front + tail;
      BeforeSamePrefix(front, tail, [last + 1]);
    } else {
      var i :| 0 <= i < |p| && p[i] < 255;
      assert front[i] < 255;
      PrefixEndBounds(front, [last] + lo, k);
    }
    LastOfPrefix(front, last, lo, k);
  }

  lemma LastOfPrefix(front: Bytes, last: Byte, lo: Bytes, k: Bytes)
    requires front <= k && AtOrAfter(k, front + ([last] + lo))
    requires last == 255 || (k == front + k[|front|..] && Before(k[|front|..], [last + 1]))
    ensures front + [last] <= k
  {
    var tail := k[|front|..];
    assert k == front + tail;
    BeforeSamePrefix(front, tail, [last] + lo);
    assert tail != [] && tail[0] == last;
  }
}
