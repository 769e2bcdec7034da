/** Byte strings and big-endian integers: the vocabulary of the two wire encoders. */
module Bytes {

  type Byte = x: int | 0 <= x < 256

  /** A 32-byte word. */
  type Word = s: seq<Byte> | |s| == 32 witness Zeros(32)

  const U64: nat := 0x1_0000_0000_0000_0000
  const U128: nat := 0x1_0000_0000_0000_0000_0000_0000_0000_0000

  function Pow256(n: nat): (p: nat)
    ensures p >= 1
  {
    if n == 0 then 1 else 256 * Pow256(n - 1)
  }

  /** The `width` low-order bytes of `v`, most significant first (Rust's `to_be_bytes`). */
  function ToBE(v: nat, width: nat): (s: seq<Byte>)
    ensures |s| == width
  {
    if width == 0 then [] else ToBE(v / 256, width - 1) + [v % 256]
  }

  /** The integer a big-endian byte string denotes. */
  function FromBE(s: seq<Byte>): nat {
    if s == [] then 0 else FromBE(s[..|s| - 1]) * 256 + s[|s| - 1]
  }

  function Zeros(n: nat): (s: seq<Byte>)
    ensures |s| == n
    ensures forall i :: 0 <= i < n ==> s[i] == 0
  {
    seq(n, i => 0)
  }

  lemma {:induction false} FromToBE(v: nat, width: nat)
    requires v < Pow256(width)
    ensures FromBE(ToBE(v, width)) == v
  {
    if width != 0 {
      FromToBE(v / 256, width - 1);
      assert ToBE(v, width)[..width - 1] == ToBE(v / 256, width - 1);
    }
  }

  lemma {:induction false} ToFromBE(s: seq<Byte>)
    ensures ToBE(FromBE(s), |s|) == s
    ensures FromBE(s) < Pow256(|s|)
  {
    if s != [] {
      var init := s[..|s| - 1];
      ToFromBE(init);
      assert FromBE(s) / 256 == FromBE(init) && FromBE(s) % 256 == s[|s| - 1];
      assert s == init + [s[|s| - 1]];
    }
  }

  lemma {:induction false} Pow256Add(m: nat, n: nat)
    ensures Pow256(m + n) == Pow256(m) * Pow256(n)
  {
    if m != 0 { Pow256Add(m - 1, n); }
  }

  lemma {:induction false} Pow256Monotone(m: nat, n: nat)
    requires m <= n
    ensures Pow256(m) <= Pow256(n)
  {
    if m < n { Pow256Monotone(m, n - 1); }
  }

  lemma PowersOfUse()
    ensures Pow256(1) == 256 && Pow256(4) == 0x1_0000_0000
    ensures Pow256(8) == U64 && Pow256(16) == U128
  {
    assert Pow256(4) == 0x1_0000_0000;
    assert Pow256(8) == U64 by { Pow256Add(4, 4); }
    assert Pow256(16) == U128 by { Pow256Add(8, 8); }
  }

  /** Splitting a big-endian string splits the integer at the matching power. */
  lemma {:induction false} FromBEConcat(a: seq<Byte>, b: seq<Byte>)
    ensures FromBE(a + b) == FromBE(a) * Pow256(|b|) + FromBE(b)
  {
    if b == [] {
      assert a + b == a;
    } else {
      var c := b[..|b| - 1];
      FromBEConcat(a, c);
      assert (a + b)[..|a + b| - 1] == a + c;
      assert FromBE(a + b) == FromBE(a + c) * 256 + b[|b| - 1];
      assert FromBE(a) * Pow256(|c|) * 256 == FromBE(a) * Pow256(|b|);
    }
  }

  lemma {:induction false} FromBEZeros(n: nat)
    ensures FromBE(Zeros(n)) == 0
  {
    if n != 0 {
      FromBEZeros(n - 1);
      assert Zeros(n)[..n - 1] == Zeros(n - 1);
    }
  }

  /** Leading zero bytes do not change the integer. */
  lemma LeadingZeros(n: nat, s: seq<Byte>)
    ensures FromBE(Zeros(n) + s) == FromBE(s)
  {
    FromBEConcat(Zeros(n), s);
    FromBEZeros(n);
  }

  /** No leading zero byte: the shape a canonical integer must have. */
  predicate NoLeadingZero(s: seq<Byte>) {
    s == [] || s[0] != 0
  }

  /** A string with a non-zero first byte is at least the power its length implies. */
  lemma {:induction false} FromBELower(s: seq<Byte>)
    requires s != [] && s[0] != 0
    ensures FromBE(s) >= Pow256(|s| - 1)
  {
    if |s| > 1 {
      FromBELower(s[..|s| - 1]);
    }
  }

  /** A longer canonical string denotes a larger integer than any shorter string. */
  lemma LongerIsLarger(a: seq<Byte>, b: seq<Byte>)
    requires NoLeadingZero(b) && |a| < |b|
    ensures FromBE(a) < FromBE(b)
  {
    ToFromBE(a);
    FromBELower(b);
    Pow256Monotone(|a|, |b| - 1);
  }

  /** Canonical big-endian strings are unique: equal value means equal bytes. */
  lemma CanonicalUnique(a: seq<Byte>, b: seq<Byte>)
    requires NoLeadingZero(a) && NoLeadingZero(b)
    requires FromBE(a) == FromBE(b)
    ensures a == b
  {
    ToFromBE(a);
    ToFromBE(b);
    if |a| < |b| {
      LongerIsLarger(a, b);
    } else if |b| < |a| {
      LongerIsLarger(b, a);
    }
  }
}
