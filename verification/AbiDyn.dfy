/**
 The dynamic ABI encoder of crates/dex/src/abi_dyn.rs, and a strict reader for the head/tail layout
 it must produce (Solidity Contract ABI Specification, section "Formal Specification of the
 Encoding"): every offset is followed, must be word-aligned and in bounds, and all padding is zero.
 */
module AbiDyn {
  import opened Wrappers
  import opened Bytes
  import opened Seqs
  import opened Abi

  // ---- encoding ----

  /** Bytes missing to the next word boundary. */
  function Missing(len: nat): (n: nat)
    ensures n < 32 && (len + n) % 32 == 0
  {
    if len % 32 == 0 then 0 else 32 - len % 32
  }

  function Padded(data: seq<Byte>): (s: seq<Byte>)
    ensures |s| == |data| + Missing(|data|) && |s| % 32 == 0
  {
    data + Zeros(Missing(|data|))
  }

  function BytesEnc(data: seq<Byte>): (s: seq<Byte>)
    ensures |s| == 32 + |data| + Missing(|data|) && |s| % 32 == 0
  {
    WordsAdd(32, |Padded(data)|);
    UintWord(|data|) + Padded(data)
  }

  function Tails(items: seq<seq<Byte>>): seq<Byte> {
    if items == [] then [] else BytesEnc(items[0]) + Tails(items[1..])
  }

  lemma {:induction false} TailsBound(items: seq<seq<Byte>>, bound: nat, total: nat)
    requires forall i :: 0 <= i < |items| ==> |items[i]| <= bound
    requires |items| <= 3 && total == 3 * (bound + 64)
    ensures |Tails(items)| <= total
  {
    assert forall i :: 0 <= i < |items| ==> |BytesEnc(items[i])| <= bound + 64;
    hide BytesEnc;
    if |items| > 0 {
      var one := items[1..];
      if |one| > 0 {
        var two := one[1..];
        assert |Tails(two)| <= if |two| == 0 then 0 else bound + 64 by {
          if |two| > 0 { assert two[1..] == []; }
        }
      }
    }
  }

  lemma {:induction false} TailsAligned(items: seq<seq<Byte>>)
    ensures |Tails(items)| % 32 == 0
  {
    hide Missing;
    if items != [] {
      TailsAligned(items[1..]);
      WordsAdd(|BytesEnc(items[0])|, |Tails(items[1..])|);
    }
  }

  lemma WordsAdd(m: nat, n: nat)
    requires m % 32 == 0 && n % 32 == 0
    ensures (m + n) % 32 == 0
  {}

  /** One offset word per item, the first at `offset`, each next one a tail further on. */
  function Offsets(items: seq<seq<Byte>>, offset: nat): (s: seq<Byte>)
    ensures |s| == 32 * |items|
  {
    if items == [] then []
    else UintWord(offset) + Offsets(items[1..], offset + |BytesEnc(items[0])|)
  }

  function BytesArrayEnc(items: seq<seq<Byte>>): seq<Byte> {
    UintWord(|items|) + Offsets(items, 32 * |items|) + Tails(items)
  }

  /** `abi.encode(a, b)` for a `bytes` and a `bytes[]`. */
  function PairEnc(a: seq<Byte>, b: seq<seq<Byte>>): seq<Byte> {
    UintWord(64) + UintWord(64 + |BytesEnc(a)|) + BytesEnc(a) + BytesArrayEnc(b)
  }

  function StructEnc(body: seq<Byte>): seq<Byte> {
    UintWord(32) + body
  }

  // ---- pad_to_word and the three encoders ----

  method PadToWord(data: seq<Byte>) returns (out: seq<Byte>)
    ensures out == Padded(data)
  {
    out := data;
    var rem := |data| % 32;
    if rem != 0 {
      out := out + Zeros(32 - rem);
    } else {
      assert data + Zeros(0) == data;
    }
  }

  lemma MissingShifts(len: nat)
    ensures Missing(32 + len) == Missing(len)
  {}

  method EncodeBytes(data: seq<Byte>) returns (out: seq<Byte>)
    ensures out == BytesEnc(data)
  {
    hide UintWord, Missing;
    out := UintWord(|data|);
    out := out + data;
    out := PadToWord(out);
    MissingShifts(|data|);
    Assoc(UintWord(|data|), data, Zeros(Missing(|data|)));
  }

  lemma {:induction false} TailsAppend(a: seq<seq<Byte>>, b: seq<seq<Byte>>)
    ensures Tails(a + b) == Tails(a) + Tails(b)
  {
    hide BytesEnc;
    if a == [] {
      assert a + b == b;
      AppendNil(Tails(b));
    } else {
      TailsAppend(a[1..], b);
      assert (a + b)[1..] == a[1..] + b;
      Assoc(BytesEnc(a[0]), Tails(a[1..]), Tails(b));
    }
  }

  lemma NoTails()
    ensures |Tails([])| == 0
  {}

  lemma TailsFirst(items: seq<seq<Byte>>)
    requires items != []
    ensures |Tails(items)| == |BytesEnc(items[0])| + |Tails(items[1..])|
  {
    hide BytesEnc;
  }

  lemma OffsetsFirst(a: seq<seq<Byte>>, b: seq<seq<Byte>>, offset: nat)
    requires a != []
    ensures Offsets(a + b, offset) == UintWord(offset) + Offsets(a[1..] + b, offset + |BytesEnc(a[0])|)
  {
    hide BytesEnc, UintWord;
    assert (a + b)[0] == a[0] && (a + b)[1..] == a[1..] + b;
  }

  lemma {:induction false} OffsetsAppend(a: seq<seq<Byte>>, b: seq<seq<Byte>>, offset: nat)
    ensures Offsets(a + b, offset) == Offsets(a, offset) + Offsets(b, offset + |Tails(a)|)
  {
    hide BytesEnc, UintWord, Tails;
    if a == [] {
      assert a + b == b;
      AppendNil(Offsets(b, offset));
      NoTails();
    } else {
      var next := offset + |BytesEnc(a[0])|;
      OffsetsAppend(a[1..], b, next);
      hide Offsets;
      OffsetsFirst(a, b, offset);
      TailsFirst(a);
      AppendNil(a);
      OffsetsFirst(a, [], offset);
      Assoc(UintWord(offset), Offsets(a[1..], next), Offsets(b, next + |Tails(a[1..])|));
    }
  }

  /** One more item: its tail, and the offset word that points at it. */
  lemma ArrayTake(items: seq<seq<Byte>>, i: nat, offset: nat)
    requires i < |items|
    ensures Tails(items[..i + 1]) == Tails(items[..i]) + BytesEnc(items[i])
    ensures Offsets(items[..i + 1], offset) ==
            Offsets(items[..i], offset) + UintWord(offset + |Tails(items[..i])|)
  {
    hide BytesEnc, UintWord;
    var last := [items[i]];
    TakeNext(items, i);
    TailsAppend(items[..i], last);
    OffsetsAppend(items[..i], last, offset);
    AppendNil(BytesEnc(items[i]));
    AppendNil<Byte>(UintWord(offset + |Tails(items[..i])|));
  }

  method EncodeBytesArray(items: seq<seq<Byte>>) returns (out: seq<Byte>)
    ensures out == BytesArrayEnc(items)
  {
    hide BytesEnc, UintWord;
    var encoded: seq<seq<Byte>> := [];
    for i := 0 to |items|
      invariant |encoded| == i && forall k :: 0 <= k < i ==> encoded[k] == BytesEnc(items[k])
    {
      var e := EncodeBytes(items[i]);
      encoded := encoded + [e];
    }
    out := UintWord(|items|);
    var headLen := |items| * 32;
    var offset := headLen;
    for i := 0 to |encoded|
      invariant offset == headLen + |Tails(items[..i])|
      invariant out == UintWord(|items|) + Offsets(items[..i], headLen)
    {
      ArrayTake(items, i, headLen);
      Assoc(UintWord(|items|), Offsets(items[..i], headLen), UintWord(offset));
      out := out + UintWord(offset);
      offset := offset + |encoded[i]|;
    }
    ghost var head := out;
    assert items[..|items|] == items;
    for i := 0 to |encoded|
      invariant out == head + Tails(items[..i])
    {
      ArrayTake(items, i, headLen);
      Assoc(head, Tails(items[..i]), encoded[i]);
      out := out + encoded[i];
    }
  }

  method EncodeBytesAndBytesArray(a: seq<Byte>, b: seq<seq<Byte>>) returns (out: seq<Byte>)
    ensures out == PairEnc(a, b)
  {
    hide BytesEnc, BytesArrayEnc, UintWord;
    var encA := EncodeBytes(a);
    var encB := EncodeBytesArray(b);
    out := UintWord(2 * 32);
    out := out + UintWord(2 * 32 + |encA|);
    out := out + encA;
    out := out + encB;
  }

  method EncodeSingleDynamicStruct(body: seq<Byte>) returns (out: seq<Byte>)
    ensures out == StructEnc(body)
  {
    out := UintWord(32);
    out := out + body;
  }

  // ---- the strict reader ----

  function ReadWord(buf: seq<Byte>, at: nat): Option<Word> {
    if at + 32 <= |buf| then Some(buf[at..at + 32]) else None
  }

  function ReadNat(buf: seq<Byte>, at: nat): Option<nat> {
    match ReadWord(buf, at)
    case Some(w) => Some(FromBE(w))
    case None => None
  }

  /** `bytes` at `at`: length, content, zero padding to the word boundary. */
  function ReadBytes(buf: seq<Byte>, at: nat): Option<seq<Byte>> {
    match ReadNat(buf, at)
    case None => None
    case Some(len) =>
      var from, to := at + 32, at + 32 + len + Missing(len);
      if at % 32 == 0 && to <= |buf| && buf[from + len..to] == Zeros(Missing(len))
      then Some(buf[from..from + len])
      else None
  }

  /** The elements `i..` of an array whose offsets count from `base`. */
  function ReadElements(buf: seq<Byte>, base: nat, n: nat, i: nat): Option<seq<seq<Byte>>>
    requires i <= n
    decreases n - i
  {
    if i == n then Some([])
    else
      match ReadNat(buf, base + 32 * i)
      case None => None
      case Some(offset) =>
        match (ReadBytes(buf, base + offset), ReadElements(buf, base, n, i + 1))
        case (Some(x), Some(xs)) => Some([x] + xs)
        case _ => None
  }

  function ReadBytesArray(buf: seq<Byte>, at: nat): Option<seq<seq<Byte>>> {
    match ReadNat(buf, at)
    case Some(n) => if at % 32 == 0 then ReadElements(buf, at + 32, n, 0) else None
    case None => None
  }

  /** `abi.decode(buf, (bytes, bytes[]))`. */
  function ReadPair(buf: seq<Byte>): Option<(seq<Byte>, seq<seq<Byte>>)> {
    match (ReadNat(buf, 0), ReadNat(buf, 32))
    case (Some(atA), Some(atB)) =>
      (match (ReadBytes(buf, atA), ReadBytesArray(buf, atB))
       case (Some(a), Some(b)) => Some((a, b))
       case _ => None)
    case _ => None
  }

  // ---- pieces in place ----

  /** `piece` stands in `buf` at `at`. */
  predicate At(buf: seq<Byte>, at: nat, piece: seq<Byte>) {
    at + |piece| <= |buf| && buf[at..at + |piece|] == piece
  }

  lemma AtSplit(buf: seq<Byte>, at: nat, x: seq<Byte>, y: seq<Byte>)
    ensures At(buf, at, x + y) <==> At(buf, at, x) && At(buf, at + |x|, y)
  {
    if At(buf, at, x + y) {
      Splits(x, y);
      assert buf[at..at + |x|] == buf[at..at + |x + y|][..|x|];
      assert buf[at + |x|..at + |x| + |y|] == buf[at..at + |x + y|][|x|..];
    }
    if At(buf, at, x) && At(buf, at + |x|, y) {
      assert buf[at..at + |x + y|] == buf[at..at + |x|] + buf[at + |x|..at + |x| + |y|];
    }
  }

  lemma NatAt(buf: seq<Byte>, at: nat, value: nat)
    requires At(buf, at, UintWord(value)) && value < U128
    ensures ReadNat(buf, at) == Some(value)
  {
    UintWordValue(value);
  }

  /** An encoded byte string reads back wherever it stands on a word boundary. */
  lemma BytesAt(buf: seq<Byte>, at: nat, data: seq<Byte>)
    requires At(buf, at, BytesEnc(data)) && at % 32 == 0 && |data| < U128
    ensures ReadBytes(buf, at) == Some(data)
  {
    hide UintWord;
    AtSplit(buf, at, UintWord(|data|), Padded(data));
    AtSplit(buf, at + 32, data, Zeros(Missing(|data|)));
    NatAt(buf, at, |data|);
  }

  /** Where the tail of item `i` starts, counted from the offset table. */
  function TailStart(items: seq<seq<Byte>>, i: nat): nat
    requires i <= |items|
  {
    32 * |items| + |Tails(items[..i])|
  }

  lemma OffsetsAround(before: seq<seq<Byte>>, item: seq<Byte>, after: seq<seq<Byte>>, offset: nat)
    ensures var start := offset + |Tails(before)|;
            Offsets(before + ([item] + after), offset) ==
            Offsets(before, offset) + (UintWord(start) + Offsets(after, start + |BytesEnc(item)|))
  {
    hide BytesEnc, UintWord, Tails;
    OffsetsAppend(before, [item] + after, offset);
    assert ([item] + after)[1..] == after;
  }

  lemma TailsAround(before: seq<seq<Byte>>, item: seq<Byte>, after: seq<seq<Byte>>)
    ensures Tails(before + ([item] + after)) == Tails(before) + (BytesEnc(item) + Tails(after))
  {
    hide BytesEnc;
    TailsAppend(before, [item] + after);
    assert ([item] + after)[1..] == after;
  }

  lemma TileOf(items: seq<seq<Byte>>, i: nat)
    requires i < |items|
    ensures TailStart(items, i) % 32 == 0
    ensures At(BytesArrayEnc(items), 32 + 32 * i, UintWord(TailStart(items, i)))
    ensures At(BytesArrayEnc(items), 32 + TailStart(items, i), BytesEnc(items[i]))
    ensures TailStart(items, i + 1) == TailStart(items, i) + |BytesEnc(items[i])|
  {
    hide BytesEnc, UintWord, Offsets, At;
    ArrayTake(items, i, 0);
    TailsAligned(items[..i]);
    var buf := BytesArrayEnc(items);
    WholeAt(buf);
    TileAt(items, i, buf, 0);
  }

  /**
   The tails tile what follows the offset table: they start right after it, each begins where the
   previous one ends, the last one ends the buffer, and offset word `i` holds the start of tail `i`.
   */
  lemma TailsTile(items: seq<seq<Byte>>)
    ensures TailStart(items, 0) == 32 * |items|
    ensures 32 + TailStart(items, |items|) == |BytesArrayEnc(items)|
    ensures forall i :: 0 <= i < |items| ==>
              && TailStart(items, i) % 32 == 0
              && At(BytesArrayEnc(items), 32 + 32 * i, UintWord(TailStart(items, i)))
              && At(BytesArrayEnc(items), 32 + TailStart(items, i), BytesEnc(items[i]))
              && TailStart(items, i + 1) == TailStart(items, i) + |BytesEnc(items[i])|
  {
    hide BytesEnc, UintWord, Offsets, At;
    assert items[..0] == [] && items[..|items|] == items;
    hide TailStart, BytesArrayEnc;
    forall i | 0 <= i < |items|
      ensures TailStart(items, i) % 32 == 0
      ensures At(BytesArrayEnc(items), 32 + 32 * i, UintWord(TailStart(items, i)))
      ensures At(BytesArrayEnc(items), 32 + TailStart(items, i), BytesEnc(items[i]))
      ensures TailStart(items, i + 1) == TailStart(items, i) + |BytesEnc(items[i])|
    {
      TileOf(items, i);
    }
  }

  lemma WholeAt(buf: seq<Byte>)
    ensures At(buf, 0, buf)
  {}

  lemma TileAt(items: seq<seq<Byte>>, i: nat, buf: seq<Byte>, at: nat)
    requires i < |items| && At(buf, at, BytesArrayEnc(items))
    ensures At(buf, at, UintWord(|items|))
    ensures At(buf, at + 32 + 32 * i, UintWord(TailStart(items, i)))
    ensures At(buf, at + 32 + TailStart(items, i), BytesEnc(items[i]))
  {
    hide At, BytesEnc, UintWord, Offsets, Tails;
    var before, item, after := items[..i], items[i], items[i + 1..];
    assert items == before + ([item] + after);
    var table := Offsets(items, 32 * |items|);
    AtSplit(buf, at, UintWord(|items|) + table, Tails(items));
    AtSplit(buf, at, UintWord(|items|), table);
    OffsetWordAt(before, item, after, 32 * |items|, buf, at + 32);
    TailAt(before, item, after, buf, at + 32 + 32 * |items|);
  }

  lemma OffsetWordAt(before: seq<seq<Byte>>, item: seq<Byte>, after: seq<seq<Byte>>, offset: nat,
                     buf: seq<Byte>, at: nat)
    requires At(buf, at, Offsets(before + ([item] + after), offset))
    ensures At(buf, at + 32 * |before|, UintWord(offset + |Tails(before)|))
  {
    hide At, BytesEnc, UintWord, Offsets, Tails;
    var start := offset + |Tails(before)|;
    var rest := Offsets(after, start + |BytesEnc(item)|);
    OffsetsAround(before, item, after, offset);
    AtSplit(buf, at, Offsets(before, offset), UintWord(start) + rest);
    AtSplit(buf, at + 32 * |before|, UintWord(start), rest);
  }

  lemma TailAt(before: seq<seq<Byte>>, item: seq<Byte>, after: seq<seq<Byte>>, buf: seq<Byte>, at: nat)
    requires At(buf, at, Tails(before + ([item] + after)))
    ensures At(buf, at + |Tails(before)|, BytesEnc(item))
  {
    hide At, BytesEnc, Tails;
    TailsAround(before, item, after);
    AtSplit(buf, at, Tails(before), BytesEnc(item) + Tails(after));
    AtSplit(buf, at + |Tails(before)|, BytesEnc(item), Tails(after));
  }

  lemma ElementAt(buf: seq<Byte>, at: nat, items: seq<seq<Byte>>, i: nat)
    requires i < |items| && at % 32 == 0 && |buf| < U128
    requires At(buf, at, BytesArrayEnc(items))
    ensures ReadNat(buf, at + 32 + 32 * i) == Some(TailStart(items, i))
    ensures ReadBytes(buf, at + 32 + TailStart(items, i)) == Some(items[i])
  {
    hide BytesEnc, UintWord, BytesArrayEnc, ReadBytes, ReadNat, Tails;
    TileAt(items, i, buf, at);
    TailsAligned(items[..i]);
    NatAt(buf, at + 32 + 32 * i, TailStart(items, i));
    BytesAt(buf, at + 32 + TailStart(items, i), items[i]);
  }

  lemma {:induction false} ElementsAt(buf: seq<Byte>, at: nat, items: seq<seq<Byte>>, i: nat)
    requires i <= |items| && at % 32 == 0 && |buf| < U128
    requires At(buf, at, BytesArrayEnc(items))
    ensures ReadElements(buf, at + 32, |items|, i) == Some(items[i..])
    decreases |items| - i
  {
    hide BytesEnc, UintWord, BytesArrayEnc, ReadBytes, ReadNat, At, TailStart;
    if i < |items| {
      ElementsAt(buf, at, items, i + 1);
      ElementAt(buf, at, items, i);
      assert [items[i]] + items[i + 1..] == items[i..];
    } else {
      assert items[i..] == [];
    }
  }

  /** Following the offsets of an encoded array, wherever it stands, gives back every element. */
  lemma BytesArrayAt(buf: seq<Byte>, at: nat, items: seq<seq<Byte>>)
    requires At(buf, at, BytesArrayEnc(items)) && at % 32 == 0 && |buf| < U128
    ensures ReadBytesArray(buf, at) == Some(items)
  {
    hide UintWord, ReadElements, Offsets, Tails;
    AtSplit(buf, at, UintWord(|items|) + Offsets(items, 32 * |items|), Tails(items));
    AtSplit(buf, at, UintWord(|items|), Offsets(items, 32 * |items|));
    NatAt(buf, at, |items|);
    ElementsAt(buf, at, items, 0);
  }

  /** `abi.decode` inverts `abi.encode` on `(bytes, bytes[])`. */
  lemma ReadPairEnc(a: seq<Byte>, b: seq<seq<Byte>>)
    requires |PairEnc(a, b)| < U128
    ensures ReadPair(PairEnc(a, b)) == Some((a, b))
  {
    hide At, UintWord, BytesEnc, BytesArrayEnc, ReadNat, ReadBytes, ReadBytesArray;
    var buf := PairEnc(a, b);
    var offA: seq<Byte>, offB: seq<Byte> := UintWord(64), UintWord(64 + |BytesEnc(a)|);
    WholeAt(buf);
    AtSplit(buf, 0, offA + offB + BytesEnc(a), BytesArrayEnc(b));
    AtSplit(buf, 0, offA + offB, BytesEnc(a));
    AtSplit(buf, 0, offA, offB);
    NatAt(buf, 0, 64);
    NatAt(buf, 32, 64 + |BytesEnc(a)|);
    BytesAt(buf, 64, a);
    BytesArrayAt(buf, 64 + |BytesEnc(a)|, b);
  }
}
