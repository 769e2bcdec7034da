/**
 The RLP encoder of crates/signer/src/rlp.rs, and the strict decoder it must agree with
 (Ethereum Yellow Paper, Appendix B, "Recursive Length Prefix").

 The repository only encodes. The decoder below accepts canonical encodings only: minimal
 length-of-length, no long form where a short one exists, no prefix on a single byte below 0x80.
 */
module Rlp {
  import opened Wrappers
  import opened Bytes
  import opened Seqs

  // ---- the encoder's expressions ----

  /** Index of the first non-zero byte, or the length when there is none. */
  function FirstNonZero(be: seq<Byte>): (i: nat)
    ensures i <= |be|
    ensures i < |be| ==> be[i] != 0
  {
    if be == [] || be[0] != 0 then 0 else 1 + FirstNonZero(be[1..])
  }

  lemma {:induction false} BeforeFirstNonZero(be: seq<Byte>)
    ensures be == Zeros(FirstNonZero(be)) + be[FirstNonZero(be)..]
  {
    if be != [] && be[0] == 0 {
      BeforeFirstNonZero(be[1..]);
      assert be == [be[0]] + be[1..];
    }
  }

  /** `minimal_be`: the 16-byte form without its leading zeros, but never empty. */
  function MinimalBE(v: nat): (s: seq<Byte>)
    ensures 1 <= |s| <= 16
  {
    var be := ToBE(v, 16);
    var first := FirstNonZero(be);
    be[if first < 16 then first else 15..]
  }

  lemma MinimalBEIsMinimal(v: nat)
    requires 0 < v < U128
    ensures MinimalBE(v)[0] != 0 && FromBE(MinimalBE(v)) == v
  {
    var be := ToBE(v, 16);
    var first := FirstNonZero(be);
    PowersOfUse();
    FromToBE(v, 16);
    BeforeFirstNonZero(be);
    LeadingZeros(first, be[first..]);
    if first == |be| { AllZerosIsZero(be); }
  }

  lemma AllZerosIsZero(be: seq<Byte>)
    requires FirstNonZero(be) == |be|
    ensures FromBE(be) == 0
  {
    BeforeFirstNonZero(be);
    FromBEZeros(|be|);
    assert be == Zeros(|be|);
  }

  lemma LengthOfLength(v: nat)
    requires 0 < v < U64
    ensures 1 <= |MinimalBE(v)| <= 8
  {
    PowersOfUse();
    MinimalBEIsMinimal(v);
    if |MinimalBE(v)| > 8 {
      FromBELower(MinimalBE(v));
      Pow256Monotone(8, |MinimalBE(v)| - 1);
    }
  }

  /**
   `length_prefix`. A `usize` is below 2^64, so the length takes at most eight bytes; what is
   written for the lengths that no `usize` reaches does not matter.
   */
  function LengthPrefix(shortBase: Byte, longBase: Byte, len: nat): (s: seq<Byte>)
    requires shortBase + 55 < 256 && longBase + 8 < 256
  {
    if len <= 55 then
      [shortBase + len]
    else
      var lenBytes := MinimalBE(len);
      [longBase + if |lenBytes| <= 8 then |lenBytes| else 8] + lenBytes
  }

  function BytesEncoding(data: seq<Byte>): seq<Byte> {
    if |data| == 1 && data[0] < 0x80 then data
    else LengthPrefix(0x80, 0xb7, |data|) + data
  }

  function Flatten(items: seq<seq<Byte>>): seq<Byte> {
    if items == [] then [] else items[0] + Flatten(items[1..])
  }

  function ListEncoding(items: seq<seq<Byte>>): seq<Byte> {
    LengthPrefix(0xc0, 0xf7, |Flatten(items)|) + Flatten(items)
  }

  /** The canonical byte string of an integer: empty for zero, no leading zero otherwise. */
  function UintBytes(value: nat): (s: seq<Byte>)
    ensures |s| <= 16
  {
    if value == 0 then [] else MinimalBE(value)
  }

  function UintEncoding(value: nat): seq<Byte> {
    BytesEncoding(UintBytes(value))
  }

  // ---- build_length_prefix, encode_bytes, encode_list and encode_uint ----

  method BuildLengthPrefix(shortBase: Byte, longBase: Byte, len: nat) returns (out: seq<Byte>)
    requires shortBase + 55 < 256 && longBase + 8 < 256
    ensures out == LengthPrefix(shortBase, longBase, len)
  {
    hide MinimalBE;
    if len <= 55 {
      out := [shortBase + len];
    } else {
      var lenBytes := MinimalBE(len);
      out := [longBase + if |lenBytes| <= 8 then |lenBytes| else 8];
      out := out + lenBytes;
    }
  }

  method EncodeBytes(data: seq<Byte>) returns (out: seq<Byte>)
    ensures out == BytesEncoding(data)
  {
    if |data| == 1 && data[0] < 0x80 {
      return [data[0]];
    }
    out := BuildLengthPrefix(0x80, 0xb7, |data|);
    out := out + data;
  }

  lemma {:induction false} FlattenSnoc(items: seq<seq<Byte>>, last: seq<Byte>)
    ensures Flatten(items + [last]) == Flatten(items) + last
  {
    if items == [] {
      assert items + [last] == [last];
      AppendNil(last);
    } else {
      FlattenSnoc(items[1..], last);
      assert (items + [last])[1..] == items[1..] + [last];
      Assoc(items[0], Flatten(items[1..]), last);
    }
  }

  /** One more item of the list is flattened. */
  lemma FlattenTake(items: seq<seq<Byte>>, i: nat)
    requires i < |items|
    ensures Flatten(items[..i + 1]) == Flatten(items[..i]) + items[i]
  {
    TakeNext(items, i);
    FlattenSnoc(items[..i], items[i]);
  }

  method EncodeList(items: seq<seq<Byte>>) returns (out: seq<Byte>)
    ensures out == ListEncoding(items)
  {
    var body := 0;
    for i := 0 to |items|
      invariant body == |Flatten(items[..i])|
    {
      FlattenTake(items, i);
      body := body + |items[i]|;
    }
    assert items[..|items|] == items;
    out := BuildLengthPrefix(0xc0, 0xf7, body);
    ghost var prefix := out;
    for i := 0 to |items|
      invariant out == prefix + Flatten(items[..i])
    {
      FlattenTake(items, i);
      Assoc(prefix, Flatten(items[..i]), items[i]);
      out := out + items[i];
    }
  }

  method EncodeUint(value: nat) returns (out: seq<Byte>)
    requires value < U128
    ensures out == UintEncoding(value)
  {
    if value == 0 {
      out := EncodeBytes([]);
      return;
    }
    var be := ToBE(value, 16);
    var first := FirstNonZero(be);
    out := EncodeBytes(be[if first < 16 then first else 15..]);
  }

  // ---- nested items and the strict decoder ----

  /** What RLP encodes: a byte string, or a list of items. */
  datatype Item = Str(bytes: seq<Byte>) | List(items: seq<Item>)

  function Encode(item: Item): seq<Byte>
    decreases item, 0
  {
    match item
    case Str(b) => BytesEncoding(b)
    case List(xs) => LengthPrefix(0xc0, 0xf7, |Body(xs)|) + Body(xs)
  }

  /** The concatenated encodings of the items of a list. */
  function Body(xs: seq<Item>): seq<Byte>
    decreases xs, 1
  {
    if xs == [] then [] else Encode(xs[0]) + Body(xs[1..])
  }

  /** Every string and every list body of the tree has a length that a `usize` can hold. */
  predicate Fits(item: Item) {
    match item
    case Str(b) => |b| < U64
    case List(xs) => |Body(xs)| < U64 && forall i :: 0 <= i < |xs| ==> Fits(xs[i])
  }

  /**
   Splits off the payload announced by the prefix at the front of `s`: the short form for up to
   55 bytes, the long form otherwise, and only with a minimal length.
   */
  function ReadPrefix(s: seq<Byte>, base: Byte): (r: Option<(seq<Byte>, seq<Byte>)>)
    requires s != [] && base <= s[0] < base + 64
    ensures r.Some? ==> |r.value.0| + |r.value.1| < |s|
  {
    var n := s[0] - base;
    if n <= 55 then
      if |s| < 1 + n then None else Some((s[1..1 + n], s[1 + n..]))
    else
      var at := 1 + (n - 55);
      if |s| < at || s[1] == 0 then None
      else
        var len := FromBE(s[1..at]);
        if len <= 55 || |s| < at + len then None
        else Some((s[at..at + len], s[at + len..]))
  }

  /** One item from the front of `s`, and what follows it. */
  function Decode(s: seq<Byte>): (r: Option<(Item, seq<Byte>)>)
    ensures r.Some? ==> |r.value.1| < |s|
    decreases |s|, 0
  {
    if s == [] then None
    else if s[0] < 0x80 then Some((Str([s[0]]), s[1..]))
    else if s[0] < 0xc0 then
      match ReadPrefix(s, 0x80)
      case None => None
      case Some((payload, rest)) =>
        if |payload| == 1 && payload[0] < 0x80 then None else Some((Str(payload), rest))
    else
      match ReadPrefix(s, 0xc0)
      case None => None
      case Some((payload, rest)) =>
        match DecodeAll(payload)
        case None => None
        case Some(xs) => Some((List(xs), rest))
  }

  /** Items back to back until `s` is used up. */
  function DecodeAll(s: seq<Byte>): Option<seq<Item>>
    decreases |s|, 1
  {
    if s == [] then Some([])
    else
      match Decode(s)
      case None => None
      case Some((x, rest)) =>
        match DecodeAll(rest)
        case None => None
        case Some(xs) => Some([x] + xs)
  }

  // ---- prefixes ----

  lemma ReadsItsLongPrefix(base: Byte, first: Byte, lenBytes: seq<Byte>, payload: seq<Byte>,
                           suffix: seq<Byte>)
    requires base + 63 < 256 && 55 < |payload|
    requires 1 <= |lenBytes| <= 8 && lenBytes[0] != 0 && FromBE(lenBytes) == |payload|
    requires first == base + 55 + |lenBytes|
    ensures var s := [first] + lenBytes + payload + suffix;
            base <= s[0] < base + 64 && ReadPrefix(s, base) == Some((payload, suffix))
  {
    var s := [first] + lenBytes + payload + suffix;
    var at := 1 + |lenBytes|;
    Assoc([first] + lenBytes, payload, suffix);
    Middle([first], lenBytes, payload + suffix);
    Middle([first] + lenBytes, payload, suffix);
    assert s[1..at] == lenBytes && s[1] == lenBytes[0];
  }

  lemma ReadsItsShortPrefix(base: Byte, payload: seq<Byte>, suffix: seq<Byte>)
    requires base + 63 < 256 && |payload| <= 55
    ensures var s := [base + |payload|] + payload + suffix;
            base <= s[0] < base + 64 && ReadPrefix(s, base) == Some((payload, suffix))
  {
    Middle([base + |payload|], payload, suffix);
  }

  lemma ReadsItsPrefix(base: Byte, payload: seq<Byte>, suffix: seq<Byte>)
    requires base + 63 < 256 && |payload| < U64
    ensures var s := LengthPrefix(base, base + 55, |payload|) + payload + suffix;
            s != [] && base <= s[0] < base + 64 && ReadPrefix(s, base) == Some((payload, suffix))
  {
    hide ReadPrefix, FromBE, MinimalBE;
    if |payload| > 55 {
      var lenBytes := MinimalBE(|payload|);
      LengthOfLength(|payload|);
      MinimalBEIsMinimal(|payload|);
      ReadsItsLongPrefix(base, base + 55 + |lenBytes|, lenBytes, payload, suffix);
    } else {
      ReadsItsShortPrefix(base, payload, suffix);
    }
  }

  /** A length-of-length field without a leading zero is the minimal one. */
  lemma LengthFieldIsMinimal(lenBytes: seq<Byte>)
    requires 1 <= |lenBytes| <= 8 && lenBytes[0] != 0
    ensures FromBE(lenBytes) < U64 && MinimalBE(FromBE(lenBytes)) == lenBytes
  {
    ToFromBE(lenBytes);
    PowersOfUse();
    Pow256Monotone(|lenBytes|, 8);
    FromBELower(lenBytes);
    Pow256Monotone(0, |lenBytes| - 1);
    MinimalBEIsMinimal(FromBE(lenBytes));
    CanonicalUnique(lenBytes, MinimalBE(FromBE(lenBytes)));
  }

  lemma LongPrefixIsCanonical(first: Byte, base: Byte, lenBytes: seq<Byte>)
    requires base + 63 < 256 && first - base - 55 == |lenBytes|
    requires 1 <= |lenBytes| <= 8 && lenBytes[0] != 0 && FromBE(lenBytes) > 55
    ensures FromBE(lenBytes) < U64
    ensures LengthPrefix(base, base + 55, FromBE(lenBytes)) == [first] + lenBytes
  {
    LengthFieldIsMinimal(lenBytes);
  }

  lemma Pieces(s: seq<Byte>, i: nat, j: nat)
    requires 1 <= i <= j <= |s|
    ensures s == ([s[0]] + s[1..i]) + s[i..j] + s[j..]
  {}

  lemma PrefixIsCanonical(s: seq<Byte>, base: Byte)
    requires base + 63 < 256
    requires s != [] && base <= s[0] < base + 64 && ReadPrefix(s, base).Some?
    ensures var (payload, rest) := ReadPrefix(s, base).value;
            |payload| < U64 && s == LengthPrefix(base, base + 55, |payload|) + payload + rest
  {
    hide FromBE, MinimalBE;
    var n := s[0] - base;
    if n <= 55 {
      Pieces(s, 1, 1 + n);
    } else {
      var at := n - 54;
      LongPrefixIsCanonical(s[0], base, s[1..at]);
      Pieces(s, at, at + FromBE(s[1..at]));
    }
  }

  // ---- main results ----

  /** Decoding an encoding followed by anything gives back the item and exactly what followed. */
  lemma {:induction false} DecodeEncode(item: Item, suffix: seq<Byte>)
    requires Fits(item)
    ensures Decode(Encode(item) + suffix) == Some((item, suffix))
    decreases item, 0
  {
    var s := Encode(item) + suffix;
    match item
    case Str(b) =>
      if |b| == 1 && b[0] < 0x80 {
        assert s[1..] == suffix;
        assert b == [s[0]];
      } else {
        ReadsItsPrefix(0x80, b, suffix);
        assert s == LengthPrefix(0x80, 0xb7, |b|) + b + suffix;
      }
    case List(xs) =>
      ReadsItsPrefix(0xc0, Body(xs), suffix);
      assert s == LengthPrefix(0xc0, 0xf7, |Body(xs)|) + Body(xs) + suffix;
      DecodeAllBody(xs);
  }

  lemma {:induction false} DecodeAllBody(xs: seq<Item>)
    requires forall i :: 0 <= i < |xs| ==> Fits(xs[i])
    ensures DecodeAll(Body(xs)) == Some(xs)
    decreases xs, 1
  {
    if xs != [] {
      DecodeEncode(xs[0], Body(xs[1..]));
      DecodeAllBody(xs[1..]);
      assert [xs[0]] + xs[1..] == xs;
    }
  }

  /** The decoder is strict: whatever it accepts is the encoding of what it returns. */
  lemma {:induction false} EncodeDecode(s: seq<Byte>)
    requires Decode(s).Some?
    ensures var (item, rest) := Decode(s).value;
            Fits(item) && s == Encode(item) + rest
    decreases |s|, 0
  {
    if s[0] < 0x80 {
      assert s == [s[0]] + s[1..];
    } else if s[0] < 0xc0 {
      PrefixIsCanonical(s, 0x80);
    } else {
      PrefixIsCanonical(s, 0xc0);
      var (payload, _) := ReadPrefix(s, 0xc0).value;
      EncodeDecodeAll(payload);
    }
  }

  lemma {:induction false} EncodeDecodeAll(s: seq<Byte>)
    requires DecodeAll(s).Some?
    ensures var xs := DecodeAll(s).value;
            Body(xs) == s && forall i :: 0 <= i < |xs| ==> Fits(xs[i])
    decreases |s|, 1
  {
    if s != [] {
      EncodeDecode(s);
      var (x, rest) := Decode(s).value;
      EncodeDecodeAll(rest);
      var xs := DecodeAll(s).value;
      assert xs[0] == x && xs[1..] == DecodeAll(rest).value;
    }
  }

  /** No encoding is a prefix of another one, and no two items share an encoding. */
  lemma PrefixFree(a: Item, b: Item, afterA: seq<Byte>, afterB: seq<Byte>)
    requires Fits(a) && Fits(b)
    requires Encode(a) + afterA == Encode(b) + afterB
    ensures a == b && afterA == afterB
  {
    DecodeEncode(a, afterA);
    DecodeEncode(b, afterB);
  }

  /** `encode_uint` is an encoding of the only leading-zero-free string of that value. */
  lemma UintIsCanonical(value: nat, s: seq<Byte>)
    requires value < U128
    ensures NoLeadingZero(UintBytes(value)) && FromBE(UintBytes(value)) == value
    ensures UintEncoding(value) == Encode(Str(UintBytes(value)))
    ensures NoLeadingZero(s) && FromBE(s) == value <==> s == UintBytes(value)
  {
    if value > 0 { MinimalBEIsMinimal(value); }
    if NoLeadingZero(s) && FromBE(s) == value {
      CanonicalUnique(s, UintBytes(value));
    }
  }
}
