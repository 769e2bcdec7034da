/**
 The EIP-1559 transaction of crates/signer/src/eip1559.rs: its nine unsigned fields, the signing
 payload and the raw signed form, against a decoder for the layout of EIP-1559, section
 "Specification" (a type byte 0x02 in front of an RLP list, as in EIP-2718).
 */
module Eip1559 {
  import opened Wrappers
  import opened Bytes
  import opened Seqs
  import opened Rlp

  type Uint8 = x: int | 0 <= x < 0x100
  type Uint64 = x: int | 0 <= x < 0x1_0000_0000_0000_0000
  type Uint128 = x: int | 0 <= x < 0x1_0000_0000_0000_0000_0000_0000_0000_0000
  type Address = s: seq<Byte> | |s| == 20 witness Zeros(20)

  /** Rust allocates no vector above `isize::MAX` bytes. */
  const MAX_ALLOC: nat := 0x8000_0000_0000_0000
  type Data = s: seq<Byte> | |s| < 0x8000_0000_0000_0000

  datatype Tx = Tx(
    chainId: Uint64,
    nonce: Uint64,
    maxPriorityFeePerGas: Uint128,
    maxFeePerGas: Uint128,
    gasLimit: Uint64,
    to: Address,
    value: Uint128,
    data: Data)

  // ---- encoding ----

  /** The fields before `data`, as RLP items. */
  function HeadItems(tx: Tx): seq<Item> {
    [ Str(UintBytes(tx.chainId)),
      Str(UintBytes(tx.nonce)),
      Str(UintBytes(tx.maxPriorityFeePerGas)),
      Str(UintBytes(tx.maxFeePerGas)),
      Str(UintBytes(tx.gasLimit)),
      Str(tx.to),
      Str(UintBytes(tx.value)) ]
  }

  function UnsignedItems(tx: Tx): seq<Item> {
    HeadItems(tx) + [Str(tx.data), List([])]
  }

  function SignatureItems(yParity: Uint8, r: Word, s: Word): seq<Item> {
    [Str(UintBytes(yParity)), Str(r), Str(s)]
  }

  function Payload(tx: Tx): seq<Byte> {
    [0x02] + Encode(List(UnsignedItems(tx)))
  }

  function RawSigned(tx: Tx, yParity: Uint8, r: Word, s: Word): seq<Byte> {
    [0x02] + Encode(List(UnsignedItems(tx) + SignatureItems(yParity, r, s)))
  }

  /** `fields` are the encodings of `items`, one by one and in order. */
  ghost predicate Encodes(fields: seq<seq<Byte>>, items: seq<Item>) {
    |fields| == |items| && forall i :: 0 <= i < |fields| ==> fields[i] == Encode(items[i])
  }

  lemma NothingEncodesNothing()
    ensures Encodes([], [])
  {}

  lemma EncodesSnoc(fields: seq<seq<Byte>>, items: seq<Item>, field: seq<Byte>, item: Item)
    requires Encodes(fields, items) && field == Encode(item)
    ensures Encodes(fields + [field], items + [item])
  {
    hide Encode;
  }

  /** Joined, the fields are the body of the list. */
  lemma {:induction false} EncodesBody(fields: seq<seq<Byte>>, items: seq<Item>)
    requires Encodes(fields, items)
    ensures Flatten(fields) == Body(items)
  {
    if fields != [] {
      EncodesBody(fields[1..], items[1..]);
    }
  }

  method PushUint(fields: seq<seq<Byte>>, ghost items: seq<Item>, value: Uint128)
    returns (more: seq<seq<Byte>>, ghost moreItems: seq<Item>)
    requires Encodes(fields, items)
    ensures moreItems == items + [Str(UintBytes(value))] && Encodes(more, moreItems)
  {
    var field := EncodeUint(value);
    EncodesSnoc(fields, items, field, Str(UintBytes(value)));
    more, moreItems := fields + [field], items + [Str(UintBytes(value))];
  }

  method PushBytes(fields: seq<seq<Byte>>, ghost items: seq<Item>, data: Data)
    returns (more: seq<seq<Byte>>, ghost moreItems: seq<Item>)
    requires Encodes(fields, items)
    ensures moreItems == items + [Str(data)] && Encodes(more, moreItems)
  {
    var field := EncodeBytes(data);
    EncodesSnoc(fields, items, field, Str(data));
    more, moreItems := fields + [field], items + [Str(data)];
  }

  /** The nine encoded fields, `accessList` empty. */
  method UnsignedFields(tx: Tx) returns (fields: seq<seq<Byte>>)
    ensures |fields| == 9 && Encodes(fields, UnsignedItems(tx))
  {
    hide Encodes, UintBytes;
    fields := [];
    ghost var items: seq<Item> := [];
    NothingEncodesNothing();
    fields, items := PushUint(fields, items, tx.chainId);
    fields, items := PushUint(fields, items, tx.nonce);
    fields, items := PushUint(fields, items, tx.maxPriorityFeePerGas);
    fields, items := PushUint(fields, items, tx.maxFeePerGas);
    fields, items := PushUint(fields, items, tx.gasLimit);
    fields, items := PushBytes(fields, items, tx.to);
    fields, items := PushUint(fields, items, tx.value);
    fields, items := PushBytes(fields, items, tx.data);
    var accessList := EncodeList([]);
    EncodesSnoc(fields, items, accessList, List([]));
    fields := fields + [accessList];
    assert items + [List([])] == UnsignedItems(tx);
  }

  method SigningPayload(tx: Tx) returns (out: seq<Byte>)
    ensures out == Payload(tx)
  {
    var fields := UnsignedFields(tx);
    EncodesBody(fields, UnsignedItems(tx));
    out := [0x02];
    var list := EncodeList(fields);
    out := out + list;
  }

  method IntoRawSigned(tx: Tx, yParity: Uint8, r: Word, s: Word) returns (out: seq<Byte>)
    ensures out == RawSigned(tx, yParity, r, s)
  {
    var fields := UnsignedFields(tx);
    ghost var items := UnsignedItems(tx);
    fields, items := PushUint(fields, items, yParity);
    fields, items := PushBytes(fields, items, r);
    fields, items := PushBytes(fields, items, s);
    assert items == UnsignedItems(tx) + SignatureItems(yParity, r, s);
    EncodesBody(fields, items);
    out := [0x02];
    var list := EncodeList(fields);
    out := out + list;
  }

  // ---- lengths stay below 2^64 ----

  predicate IsShort(item: Item) {
    item.Str? && |item.bytes| <= 55
  }

  lemma {:induction false} ShortItems(xs: seq<Item>)
    requires forall i :: 0 <= i < |xs| ==> IsShort(xs[i])
    ensures |Body(xs)| <= 56 * |xs|
  {
    if xs != [] {
      ShortItems(xs[1..]);
    }
  }

  lemma {:induction false} BodyAppend(a: seq<Item>, b: seq<Item>)
    ensures Body(a + b) == Body(a) + Body(b)
  {
    hide BytesEncoding, LengthPrefix;
    if a == [] {
      assert a + b == b;
    } else {
      BodyAppend(a[1..], b);
      assert (a + b)[1..] == a[1..] + b;
      Assoc(Encode(a[0]), Body(a[1..]), Body(b));
    }
  }

  lemma DataAndAccessList(tx: Tx)
    ensures |Body([Str(tx.data), List([])])| <= |tx.data| + 18
  {
    var tail := [Str(tx.data), List([])];
    assert tail[1..] == [List([])] && tail[1..][1..] == [];
    assert Encode(List([])) == [0xc0];
    assert |MinimalBE(|tx.data|)| <= 16;
    assert Body(tail) == Encode(Str(tx.data)) + Body([List([])]);
  }

  lemma UnsignedItemsFit(tx: Tx)
    ensures |Body(UnsignedItems(tx))| <= |tx.data| + 410
    ensures forall i :: 0 <= i < 9 ==> Fits(UnsignedItems(tx)[i])
  {
    ShortItems(HeadItems(tx));
    DataAndAccessList(tx);
    BodyAppend(HeadItems(tx), [Str(tx.data), List([])]);
  }

  lemma SignedItemsFit(tx: Tx, yParity: Uint8, r: Word, s: Word)
    ensures Fits(List(UnsignedItems(tx) + SignatureItems(yParity, r, s)))
  {
    UnsignedItemsFit(tx);
    ShortItems(SignatureItems(yParity, r, s));
    BodyAppend(UnsignedItems(tx), SignatureItems(yParity, r, s));
  }

  // ---- decoding ----

  /** A canonical integer of at most `width` bytes. */
  function ReadUint(item: Item, width: nat): (r: Option<nat>)
    ensures r.Some? ==> r.value < Pow256(width)
  {
    if item.Str? && NoLeadingZero(item.bytes) && |item.bytes| <= width then
      ToFromBE(item.bytes);
      Pow256Monotone(|item.bytes|, width);
      Some(FromBE(item.bytes))
    else None
  }

  function ReadTx(xs: seq<Item>): Option<Tx>
    requires |xs| >= 9
  {
    PowersOfUse();
    match (ReadUint(xs[0], 8), ReadUint(xs[1], 8), ReadUint(xs[2], 16), ReadUint(xs[3], 16),
           ReadUint(xs[4], 8), ReadUint(xs[6], 16))
    case (Some(chainId), Some(nonce), Some(tip), Some(cap), Some(gas), Some(value)) =>
      if xs[5].Str? && |xs[5].bytes| == 20 && xs[7].Str? && |xs[7].bytes| < MAX_ALLOC
         && xs[8] == List([])
      then Some(Tx(chainId, nonce, tip, cap, gas, xs[5].bytes, value, xs[7].bytes))
      else None
    case _ => None
  }

  /** The items of a type-2 envelope with nothing left over. */
  function ReadEnvelope(s: seq<Byte>): Option<seq<Item>> {
    if s == [] || s[0] != 0x02 then None
    else
      match Decode(s[1..])
      case Some((List(xs), rest)) => if rest == [] then Some(xs) else None
      case _ => None
  }

  function DecodePayload(s: seq<Byte>): Option<Tx> {
    match ReadEnvelope(s)
    case Some(xs) => if |xs| == 9 then ReadTx(xs) else None
    case None => None
  }

  datatype Signed = Signed(tx: Tx, yParity: nat, r: seq<Byte>, s: seq<Byte>)

  /** The twelve fields, with r and s as the byte strings that are there. */
  function DecodeRaw(s: seq<Byte>): Option<Signed> {
    match ReadEnvelope(s)
    case None => None
    case Some(xs) =>
      if |xs| != 12 || !xs[10].Str? || !xs[11].Str? then None
      else
        match (ReadTx(xs), ReadUint(xs[9], 1))
        case (Some(tx), Some(y)) => Some(Signed(tx, y, xs[10].bytes, xs[11].bytes))
        case _ => None
  }

  datatype Signature = Signature(tx: Tx, yParity: nat, r: nat, s: nat)

  /** The twelve fields as EIP-1559 defines them: r and s are integers of up to 256 bits. */
  function DecodeSigned(s: seq<Byte>): Option<Signature> {
    match DecodeRaw(s)
    case None => None
    case Some(raw) =>
      match (ReadUint(Str(raw.r), 32), ReadUint(Str(raw.s), 32))
      case (Some(r), Some(s)) => Some(Signature(raw.tx, raw.yParity, r, s))
      case _ => None
  }

  // ---- main results ----

  lemma UintReadsBack(value: nat, width: nat)
    requires width <= 16 && value < Pow256(width)
    ensures Pow256(width) <= U128 && ReadUint(Str(UintBytes(value)), width) == Some(value)
  {
    hide FromBE, UintBytes;
    PowersOfUse();
    Pow256Monotone(width, 16);
    UintIsCanonical(value, []);
    if |UintBytes(value)| > width {
      FromBELower(UintBytes(value));
      Pow256Monotone(width, |UintBytes(value)| - 1);
    }
  }

  lemma TxReadsBack(tx: Tx, more: seq<Item>)
    ensures ReadTx(UnsignedItems(tx) + more) == Some(tx)
  {
    hide ReadUint, UintBytes;
    var xs := UnsignedItems(tx) + more;
    assert Pow256(8) == U64 && Pow256(16) == U128 by { PowersOfUse(); }
    UintReadsBack(tx.chainId, 8);
    UintReadsBack(tx.nonce, 8);
    UintReadsBack(tx.maxPriorityFeePerGas, 16);
    UintReadsBack(tx.maxFeePerGas, 16);
    UintReadsBack(tx.gasLimit, 8);
    UintReadsBack(tx.value, 16);
    assert xs[5] == Str(tx.to) && xs[7] == Str(tx.data) && xs[8] == List([]);
  }

  lemma EnvelopeReadsBack(xs: seq<Item>)
    requires Fits(List(xs))
    ensures ReadEnvelope([0x02] + Encode(List(xs))) == Some(xs)
  {
    var s := [0x02] + Encode(List(xs));
    DecodeEncode(List(xs), []);
    assert s[1..] == Encode(List(xs)) + [];
  }

  /** The signing payload is nine fields with nothing left over. */
  lemma DecodeOfPayload(tx: Tx)
    ensures DecodePayload(Payload(tx)) == Some(tx)
  {
    UnsignedItemsFit(tx);
    EnvelopeReadsBack(UnsignedItems(tx));
    TxReadsBack(tx, []);
    assert UnsignedItems(tx) + [] == UnsignedItems(tx);
  }

  /** Two different transactions never share a payload, so never a signing hash preimage. */
  lemma PayloadInjective(a: Tx, b: Tx)
    ensures Payload(a) == Payload(b) ==> a == b
  {
    DecodeOfPayload(a);
    DecodeOfPayload(b);
  }

  lemma ReadUintIsCanonical(item: Item, width: nat)
    requires width <= 16 && ReadUint(item, width).Some?
    ensures ReadUint(item, width).value < U128
    ensures item == Str(UintBytes(ReadUint(item, width).value))
  {
    PowersOfUse();
    Pow256Monotone(width, 16);
    UintIsCanonical(FromBE(item.bytes), item.bytes);
  }

  lemma ReadTxIsCanonical(xs: seq<Item>)
    requires |xs| == 9 && ReadTx(xs).Some?
    ensures xs == UnsignedItems(ReadTx(xs).value)
  {
    hide UintBytes, Pow256;
    var items := UnsignedItems(ReadTx(xs).value);
    assert items[0] == xs[0] by { ReadUintIsCanonical(xs[0], 8); }
    assert items[1] == xs[1] by { ReadUintIsCanonical(xs[1], 8); }
    assert items[2] == xs[2] by { ReadUintIsCanonical(xs[2], 16); }
    assert items[3] == xs[3] by { ReadUintIsCanonical(xs[3], 16); }
    assert items[4] == xs[4] by { ReadUintIsCanonical(xs[4], 8); }
    assert items[6] == xs[6] by { ReadUintIsCanonical(xs[6], 16); }
    assert |items| == 9;
  }

  lemma EnvelopeOfRead(s: seq<Byte>)
    requires ReadEnvelope(s).Some?
    ensures s == [0x02] + Encode(List(ReadEnvelope(s).value))
  {
    hide Encode, Decode, Fits;
    EncodeDecode(s[1..]);
    AppendNil(Encode(List(ReadEnvelope(s).value)));
    assert s == [0x02] + s[1..];
  }

  /** The strict decoder accepts nothing but signing payloads. */
  lemma PayloadOfDecode(s: seq<Byte>)
    requires DecodePayload(s).Some?
    ensures s == Payload(DecodePayload(s).value)
  {
    hide Encode, ReadEnvelope, ReadTx, UnsignedItems;
    EnvelopeOfRead(s);
    ReadTxIsCanonical(ReadEnvelope(s).value);
  }

  /** A raw transaction carries the nine fields, the parity, and r and s as 32-byte strings. */
  lemma DecodeOfRawSigned(tx: Tx, yParity: Uint8, r: Word, s: Word)
    ensures DecodeRaw(RawSigned(tx, yParity, r, s)) == Some(Signed(tx, yParity, r, s))
  {
    var xs := UnsignedItems(tx) + SignatureItems(yParity, r, s);
    SignedItemsFit(tx, yParity, r, s);
    EnvelopeReadsBack(xs);
    TxReadsBack(tx, SignatureItems(yParity, r, s));
    assert Pow256(1) == 256;
    UintReadsBack(yParity, 1);
  }

  /**
   EIP-1559 wants r and s as integers, and RLP integers carry no leading zero. The encoder writes
   all 32 bytes, so the result is a well-formed transaction exactly when neither starts with zero.
   */
  lemma SignatureIsCanonicalIff(tx: Tx, yParity: Uint8, r: Word, s: Word)
    ensures DecodeSigned(RawSigned(tx, yParity, r, s)) ==
            if r[0] != 0 && s[0] != 0
            then Some(Signature(tx, yParity, FromBE(r), FromBE(s)))
            else None
  {
    DecodeOfRawSigned(tx, yParity, r, s);
  }
}
