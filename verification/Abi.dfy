/** The static ABI words of crates/chain/src/abi.rs: builders, and the readers that invert them. */
module Abi {
  import opened Wrappers
  import opened Bytes
  import opened Seqs
  import opened Text

  datatype AbiError = BadHex | BadLength(len: nat) | TooShort(len: nat) | TooLarge

  type Int128 = x: int |
    -0x8000_0000_0000_0000_0000_0000_0000_0000 <= x < 0x8000_0000_0000_0000_0000_0000_0000_0000
  type Int32 = x: int | -0x8000_0000 <= x < 0x8000_0000

  // ---- hex ----

  function HexDigit(c: char): Option<nat> {
    if '0' <= c <= '9' then Some(c as int - '0' as int)
    else if 'a' <= c <= 'f' then Some(c as int - 'a' as int + 10)
    else if 'A' <= c <= 'F' then Some(c as int - 'A' as int + 10)
    else None
  }

  function Strip0x(s: string): string {
    if |s| >= 2 && s[0] == '0' && (s[1] == 'x' || s[1] == 'X') then s[2..] else s
  }

  /** Digits in pairs, most significant first; an odd count or a foreign character is an error. */
  function DecodeHex(s: string): Result<seq<Byte>, AbiError> {
    if s == "" then Ok([])
    else if |s| == 1 then Err(BadHex)
    else
      match (HexDigit(s[0]), HexDigit(s[1]))
      case (Some(hi), Some(lo)) =>
        if hi > 15 || lo > 15 then Err(BadHex)
        else
          var rest :- DecodeHex(s[2..]);
          Ok([hi * 16 + lo] + rest)
      case _ => Err(BadHex)
  }

  function FromHex(s: string): Result<seq<Byte>, AbiError> {
    DecodeHex(Strip0x(s))
  }

  predicate IsDigits(s: string) {
    forall i :: 0 <= i < |s| ==> '0' <= s[i] <= '9' || 'a' <= s[i] <= 'f' || 'A' <= s[i] <= 'F'
  }

  lemma {:induction false} DecodeHexExactly(s: string)
    ensures DecodeHex(s).Ok? <==> |s| % 2 == 0 && IsDigits(s)
    ensures DecodeHex(s).Ok? ==> 2 * |DecodeHex(s).value| == |s|
  {
    if |s| >= 2 { DecodeHexExactly(s[2..]); }
  }

  /** Digits of either case are read as the bytes that `hex::encode` writes with them. */
  lemma {:induction false} HexReadsBack(bytes: seq<Byte>, s: string)
    requires SameLetters(s, Hex(bytes))
    ensures DecodeHex(s) == Ok(bytes)
  {
    if bytes != [] {
      var hi, lo := bytes[0] / 16, bytes[0] % 16;
      assert Hex(bytes)[0] == HexChar(hi) && Hex(bytes)[1] == HexChar(lo);
      assert Hex(bytes)[2..] == Hex(bytes[1..]);
      HexReadsBack(bytes[1..], s[2..]);
      DigitReadsBack(hi, s[0]);
      DigitReadsBack(lo, s[1]);
      assert bytes == [hi * 16 + lo] + bytes[1..];
    }
  }

  lemma DigitReadsBack(d: nat, c: char)
    requires d < 16 && SameLetter(c, HexChar(d))
    ensures HexDigit(c) == Some(d)
  {}

  lemma {:induction false} HexIsDigits(bytes: seq<Byte>)
    ensures forall i :: 0 <= i < |Hex(bytes)| ==> '0' <= Hex(bytes)[i] <= '9' || 'a' <= Hex(bytes)[i] <= 'f'
  {
    if bytes != [] { HexIsDigits(bytes[1..]); }
  }

  /** The same with a prefix of either case, and without one: a digit is never taken for the prefix. */
  lemma HexRoundTrip(bytes: seq<Byte>, s: string)
    requires SameLetters(s, Hex(bytes))
    ensures FromHex(s) == FromHex("0x" + s) == FromHex("0X" + s) == Ok(bytes)
  {
    hide DecodeHex, Hex;
    HexReadsBack(bytes, s);
    HexIsDigits(bytes);
    PrefixComesOff(s);
    if |s| >= 2 { assert SameLetter(s[1], Hex(bytes)[1]); }
  }

  lemma PrefixComesOff(s: string)
    ensures Strip0x("0x" + s) == Strip0x("0X" + s) == s
    ensures |s| >= 2 && s[1] != 'x' && s[1] != 'X' ==> Strip0x(s) == s
  {
    assert ("0x" + s)[2..] == s && ("0X" + s)[2..] == s;
  }

  // ---- words ----

  function Repeat(b: Byte, n: nat): (s: seq<Byte>)
    ensures |s| == n
  {
    seq(n, i => b)
  }

  /** `fill` in front, `tail` at the right-hand end of the word. */
  function RightAligned(fill: Byte, tail: seq<Byte>): (w: Word)
    requires |tail| <= 32
  {
    Repeat(fill, 32 - |tail|) + tail
  }

  /** `uint_word`, and the identical `word_uint` of the dex crate. */
  function UintWord(value: nat): Word {
    RightAligned(0, ToBE(value, 16))
  }

  function BoolWord(b: bool): Word {
    RightAligned(0, [if b then 1 else 0])
  }

  function IntWord(value: Int128): Word {
    RightAligned(if value < 0 then 0xff else 0, ToBE(value % U128, 16))
  }

  function AddressWord(addr: string): Result<Word, AbiError> {
    var raw :- FromHex(addr);
    if |raw| != 20 then Err(BadLength(|raw|)) else Ok(RightAligned(0, raw))
  }

  /** A word is a zeroed (or 0xff-filled) buffer whose right-hand end is overwritten. */
  method FillWord(fill: Byte, tail: seq<Byte>) returns (w: seq<Byte>)
    requires |tail| <= 32
    ensures w == RightAligned(fill, tail)
  {
    var buf := new Byte[32](i => fill);
    var at := 32 - |tail|;
    for i := 0 to |tail|
      invariant forall k :: 0 <= k < at ==> buf[k] == fill
      invariant forall k :: 0 <= k < i ==> buf[at + k] == tail[k]
    {
      buf[at + i] := tail[i];
    }
    w := buf[..];
    assert w[..at] == Repeat(fill, at);
    assert w[at..] == tail;
    Rejoin(w, at);
  }

  method BuildIntWord(value: Int128) returns (w: seq<Byte>)
    ensures w == IntWord(value)
  {
    w := FillWord(if value < 0 then 0xff else 0, ToBE(value % U128, 16));
  }

  // ---- decode_u128 and decode_i32 ----

  function DecodeU128(ret: seq<Byte>): Result<nat, AbiError> {
    if |ret| < 32 then Err(TooShort(|ret|))
    else if exists i :: 0 <= i < 16 && ret[i] != 0 then Err(TooLarge)
    else Ok(FromBE(ret[16..32]))
  }

  function DecodeI32(ret: seq<Byte>): Result<int, AbiError> {
    if |ret| < 32 then Err(TooShort(|ret|))
    else
      var bits := FromBE(ret[28..32]);
      Ok(if bits < 0x8000_0000 then bits else bits - 0x1_0000_0000)
  }

  // ---- main results ----

  lemma ZeroRepeat(n: nat)
    ensures Repeat(0, n) == Zeros(n)
  {}

  lemma UintWordValue(value: nat)
    requires value < U128
    ensures FromBE(UintWord(value)) == value
  {
    ZeroRepeat(16);
    LeadingZeros(16, ToBE(value, 16));
    PowersOfUse();
    FromToBE(value, 16);
  }

  /** `decode_u128` reads exactly the words below 2^128, and reads the value they hold. */
  lemma DecodeU128Exact(w: Word)
    ensures DecodeU128(w) == if FromBE(w) < U128 then Ok(FromBE(w)) else Err(TooLarge)
  {
    hide FromBE, Pow256;
    var hi, lo := w[..16], w[16..];
    Rejoin(w, 16);
    FromBEConcat(hi, lo);
    ToFromBE(lo);
    PowersOfUse();
    assert w[16..32] == lo;
    if exists i :: 0 <= i < 16 && w[i] != 0 {
      var i :| 0 <= i < 16 && w[i] != 0;
      NonZeroByte(hi, i);
    } else {
      assert hi == Zeros(16);
      FromBEZeros(16);
    }
  }

  /** Only the first word is read, and a shorter return is an error. */
  lemma FirstWordIsRead(ret: seq<Byte>)
    ensures |ret| < 32 ==> DecodeU128(ret) == DecodeI32(ret) == Err(TooShort(|ret|))
    ensures |ret| >= 32 ==> DecodeU128(ret) == DecodeU128(ret[..32]) && DecodeI32(ret) == DecodeI32(ret[..32])
  {
    if |ret| >= 32 {
      assert ret[..32][16..32] == ret[16..32] && ret[..32][28..32] == ret[28..32];
      assert forall i :: 0 <= i < 16 ==> ret[..32][i] == ret[i];
    }
  }

  /** `decode_i32` reads the signed 32-bit number that agrees with the word modulo 2^32. */
  lemma DecodeI32Exact(w: Word)
    ensures DecodeI32(w).Ok? && -0x8000_0000 <= DecodeI32(w).value < 0x8000_0000
    ensures (FromBE(w) - DecodeI32(w).value) % 0x1_0000_0000 == 0
  {
    hide FromBE, Pow256;
    var hi, lo := w[..28], w[28..];
    Rejoin(w, 28);
    FromBEConcat(hi, lo);
    ToFromBE(lo);
    PowersOfUse();
    assert w[28..32] == lo;
  }

  lemma {:induction false} NonZeroByte(s: seq<Byte>, i: nat)
    requires i < |s| && s[i] != 0
    ensures FromBE(s) > 0
  {
    if i < |s| - 1 {
      NonZeroByte(s[..|s| - 1], i);
    }
  }

  /** The low four bytes of a sixteen-byte integer. */
  lemma LowFourBytes(v: nat)
    ensures FromBE(ToBE(v, 16)[12..]) == v % 0x1_0000_0000
  {
    TailOfToBE(v, 12, 4);
    FromToBEMod(v, 4);
    PowersOfUse();
  }

  lemma {:induction false} TailOfToBE(v: nat, m: nat, n: nat)
    ensures ToBE(v, m + n)[m..] == ToBE(v, n)
  {
    if n == 0 {
    } else {
      TailOfToBE(v / 256, m, n - 1);
      assert ToBE(v, m + n)[m..] == ToBE(v / 256, m + n - 1)[m..] + [v % 256];
    }
  }

  lemma {:induction false} FromToBEMod(v: nat, n: nat)
    ensures FromBE(ToBE(v, n)) == v % Pow256(n)
  {
    if n != 0 {
      FromToBEMod(v / 256, n - 1);
      assert ToBE(v, n)[..n - 1] == ToBE(v / 256, n - 1);
      ModStep(v, Pow256(n - 1));
    }
  }

  lemma ModStep(v: nat, p: nat)
    requires p > 0
    ensures v % (256 * p) == (v / 256 % p) * 256 + v % 256
  {
    var q, r := v / 256, v % 256;
    var a, b := q / p, q % p;
    assert v == (a * p + b) * 256 + r;
    assert v == a * (256 * p) + (b * 256 + r) by { assert (a * p) * 256 == a * (256 * p); }
    assert 0 <= b * 256 + r < 256 * p;
    QuotientUnique(v, 256 * p, a, b * 256 + r);
  }

  lemma QuotientUnique(v: nat, d: nat, a: nat, r: nat)
    requires d > 0 && v == a * d + r && r < d
    ensures v % d == r
  {
    var k := v / d - a;
    assert v == (v / d) * d + v % d;
    assert k * d == r - v % d;
    if k >= 1 { AtLeastOnce(k, d); } else if k <= -1 { AtLeastOnce(-k, d); }
  }

  lemma AtLeastOnce(k: int, d: int)
    requires k >= 1 && d > 0
    ensures k * d >= d
  {}

  /** What truncation to 32 bits leaves of a 128-bit two's complement integer. */
  lemma TruncatedBits(value: Int32)
    ensures value % U128 % 0x1_0000_0000 == if value < 0 then value + 0x1_0000_0000 else value
  {
    assert U128 == 0x1_0000_0000_0000_0000_0000_0000 * 0x1_0000_0000;
  }

  /** Sign extension is undone by `decode_i32`, which truncates, negative values included. */
  lemma IntWordRoundTrip(value: Int32)
    ensures DecodeI32(IntWord(value)) == Ok(value)
  {
    hide FromBE, ToBE;
    var low := ToBE(value % U128, 16);
    assert IntWord(value)[28..32] == low[12..];
    LowFourBytes(value % U128);
    TruncatedBits(value);
  }
}
