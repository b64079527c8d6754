// Byte-level helpers shared by the storage codecs: fixed-width little- and
// big-endian integers, lexicographic byte-string order and `next_key`.

module Bytes {
  type byte = x: int | 0 <= x < 256
  type u8 = byte
  type u16 = x: int | 0 <= x < 0x1_0000
  type u32 = x: int | 0 <= x < 0x1_0000_0000
  type u64 = x: int | 0 <= x < 0x1_0000_0000_0000_0000
  type bytes = seq<byte>

  const U32_MAX: int := 0xFFFF_FFFF
  const U64_MAX: int := 0xFFFF_FFFF_FFFF_FFFF

  datatype Option<T> = None | Some(value: T)

  function Pow256(n: nat): (r: nat)
    ensures r >= 1
  {
    if n == 0 then 1 else 256 * Pow256(n - 1)
  }

  /** The `n` low bytes of `x`, least significant first (`put_uN_le`). */
  function LE(x: nat, n: nat): (r: bytes)
    ensures |r| == n
  {
    if n == 0 then [] else [x % 256] + LE(x / 256, n - 1)
  }

  /** The number a little-endian byte string denotes (`get_uN_le`). */
  function FromLE(s: bytes): (r: nat)
    ensures r < Pow256(|s|)
  {
    if |s| == 0 then 0 else s[0] + 256 * FromLE(s[1..])
  }

  /** The `n` low bytes of `x`, most significant first (`put_uN`, `to_be_bytes`). */
  function BE(x: nat, n: nat): (r: bytes)
    ensures |r| == n
  {
    if n == 0 then [] else BE(x / 256, n - 1) + [x % 256]
  }

  function FromBE(s: bytes): (r: nat)
    ensures r < Pow256(|s|)
  {
    if |s| == 0 then 0 else 256 * FromBE(s[..|s| - 1]) + s[|s| - 1]
  }

  lemma {:induction false} LERoundTrip(x: nat, n: nat)
    requires x < Pow256(n)
    ensures FromLE(LE(x, n)) == x
  {
    if n > 0 {
      LERoundTrip(x / 256, n - 1);
      assert LE(x, n)[1..] == LE(x / 256, n - 1);
    }
  }

  lemma {:induction false} BERoundTrip(x: nat, n: nat)
    requires x < Pow256(n)
    ensures FromBE(BE(x, n)) == x
  {
    if n > 0 {
      BERoundTrip(x / 256, n - 1);
      var s := BE(x, n);
      assert s[..|s| - 1] == BE(x / 256, n - 1);
    }
  }

  /** Reading back a fixed-width little-endian integer that precedes `rest`. */
  lemma LEPrefix(x: nat, n: nat, rest: bytes)
    requires x < Pow256(n)
    ensures (LE(x, n) + rest)[..n] == LE(x, n) && (LE(x, n) + rest)[n..] == rest
    ensures FromLE((LE(x, n) + rest)[..n]) == x
  {
    assert (LE(x, n) + rest)[..n] == LE(x, n);
    LERoundTrip(x, n);
  }

  lemma BEPrefix(x: nat, n: nat, rest: bytes)
    requires x < Pow256(n)
    ensures (BE(x, n) + rest)[..n] == BE(x, n) && (BE(x, n) + rest)[n..] == rest
    ensures FromBE((BE(x, n) + rest)[..n]) == x
  {
    assert (BE(x, n) + rest)[..n] == BE(x, n);
    BERoundTrip(x, n);
  }

  // ---------------------------------------------------------------------
  // Lexicographic order on byte strings (the order of memcomparable keys).

  predicate IsPrefix(p: bytes, s: bytes) {
    |p| <= |s| && s[..|p|] == p
  }

  /** `a` sorts strictly before `b` (Rust's `<` on `[u8]`). */
  predicate LexLess(a: bytes, b: bytes)
    decreases |a|
  {
    if |a| == 0 then |b| > 0
    else if |b| == 0 then false
    else a[0] < b[0] || (a[0] == b[0] && LexLess(a[1..], b[1..]))
  }

  lemma {:induction false} LexLessIrreflexive(a: bytes)
    ensures !LexLess(a, a)
  {
    if |a| > 0 { LexLessIrreflexive(a[1..]); }
  }

  lemma {:induction false} LexLessTransitive(a: bytes, b: bytes, c: bytes)
    requires LexLess(a, b) && LexLess(b, c)
    ensures LexLess(a, c)
  {
    if |a| > 0 && a[0] == b[0] && b[0] == c[0] {
      LexLessTransitive(a[1..], b[1..], c[1..]);
    }
  }

  lemma {:induction false} LexLessTotal(a: bytes, b: bytes)
    ensures a == b || LexLess(a, b) || LexLess(b, a)
  {
    if |a| > 0 && |b| > 0 && a[0] == b[0] {
      LexLessTotal(a[1..], b[1..]);
      if a[1..] == b[1..] {
        assert a == [a[0]] + a[1..] && b == [b[0]] + b[1..];
      }
    }
  }

  /** A proper prefix sorts first. */
  lemma {:induction false} PrefixLess(p: bytes, s: bytes)
    requires IsPrefix(p, s) && |p| < |s|
    ensures LexLess(p, s)
  {
    if |p| > 0 {
      assert s[1..][..|p| - 1] == p[1..];
      PrefixLess(p[1..], s[1..]);
    }
  }

  /** A shared prefix does not change the order of two byte strings. */
  lemma {:induction false} LexLessAppend(p: bytes, a: bytes, b: bytes)
    ensures LexLess(p + a, p + b) <==> LexLess(a, b)
  {
    if |p| > 0 {
      assert (p + a)[1..] == p[1..] + a;
      assert (p + b)[1..] == p[1..] + b;
      LexLessAppend(p[1..], a, b);
      assert (p + a)[0] == (p + b)[0];
    } else {
      assert p + a == a && p + b == b;
    }
  }

  // ---------------------------------------------------------------------
  // `next_key`: the smallest byte string greater than every string that has
  // the argument as a prefix, or the empty string when there is none.

  function NextKey(k: bytes): (r: bytes)
    ensures |r| <= |k|
    decreases |k|
  {
    if |k| == 0 then []
    else if k[|k| - 1] < 255 then k[..|k| - 1] + [k[|k| - 1] + 1]
    else NextKey(k[..|k| - 1])
  }

  predicate AllMax(k: bytes) {
    forall i :: 0 <= i < |k| ==> k[i] == 255
  }

  lemma {:induction false} NextKeyEmptyIff(k: bytes)
    ensures NextKey(k) == [] <==> AllMax(k)
    decreases |k|
  {
    if |k| > 0 && k[|k| - 1] == 255 {
      NextKeyEmptyIff(k[..|k| - 1]);
      if AllMax(k[..|k| - 1]) {
        forall i | 0 <= i < |k| ensures k[i] == 255 {
          if i < |k| - 1 { assert k[..|k| - 1][i] == k[i]; }
        }
      }
    }
  }

  /** Every key that extends `k` sorts strictly before `NextKey(k)`. */
  lemma {:induction false} NextKeyBoundsPrefix(k: bytes, s: bytes)
    requires NextKey(k) != [] && IsPrefix(k, s)
    ensures LexLess(s, NextKey(k))
    decreases |k|
  {
    var n := |k| - 1;
    if k[n] < 255 {
      // s = k[..n] + [k[n]] + ..., NextKey(k) = k[..n] + [k[n] + 1]
      assert s == k[..n] + s[n..];
      assert NextKey(k) == k[..n] + [k[n] + 1];
      LexLessAppend(k[..n], s[n..], [k[n] + 1]);
    } else {
      assert IsPrefix(k[..n], s);
      NextKeyBoundsPrefix(k[..n], s);
    }
  }

  /** `NextKey(k)` itself does not extend `k`. */
  lemma {:induction false} NextKeyNotPrefixed(k: bytes)
    requires NextKey(k) != []
    ensures !IsPrefix(k, NextKey(k))
    decreases |k|
  {
    var n := |k| - 1;
    if k[n] == 255 {
      NextKeyNotPrefixed(k[..n]);
    }
  }
}
