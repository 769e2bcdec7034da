/**
 The `execute(bytes,bytes[],uint256)` calldata of crates/dex/src/v4swap.rs for one single-hop
 exact-input swap, and the strict decoder that recovers every field of it.
 */
module V4Swap {
  import opened Wrappers
  import opened Bytes
  import opened Seqs
  import opened Abi
  import opened AbiDyn

  type Uint32 = x: int | 0 <= x < 0x1_0000_0000
  type Uint64 = x: int | 0 <= x < 0x1_0000_0000_0000_0000
  type Uint128 = x: int | 0 <= x < 0x1_0000_0000_0000_0000_0000_0000_0000_0000
  type Selector = s: seq<Byte> | |s| == 4 witness Zeros(4)

  const CMD_V4_SWAP: Byte := 0x10
  const ACTION_SWAP_EXACT_IN_SINGLE: Byte := 0x06
  const ACTION_SETTLE_ALL: Byte := 0x0c
  const ACTION_TAKE_ALL: Byte := 0x0f

  datatype PoolKey = PoolKey(currency0: string, currency1: string, fee: Uint32,
                             tickSpacing: Int32, hooks: string)

  datatype Swap = Swap(pool: PoolKey, zeroForOne: bool, amountIn: Uint128, amountOutMinimum: Uint128)
  {
    function TokenIn(): string {
      if zeroForOne then pool.currency0 else pool.currency1
    }

    function TokenOut(): string {
      if zeroForOne then pool.currency1 else pool.currency0
    }
  }

  // ---- words in a row ----

  function Join(words: seq<Word>): (s: seq<Byte>)
    ensures |s| == 32 * |words|
  {
    if words == [] then [] else words[0] + Join(words[1..])
  }

  lemma {:induction false} JoinSnoc(words: seq<Word>, last: Word)
    ensures Join(words + [last]) == Join(words) + last
  {
    if words == [] {
      assert words + [last] == [last];
      AppendNil<Byte>(last);
    } else {
      JoinSnoc(words[1..], last);
      assert (words + [last])[1..] == words[1..] + [last];
      Assoc<Byte>(words[0], Join(words[1..]), last);
    }
  }

  lemma {:induction false} JoinAt(words: seq<Word>, k: nat, buf: seq<Byte>, at: nat)
    requires k < |words| && At(buf, at, Join(words))
    ensures At(buf, at + 32 * k, words[k])
  {
    hide At;
    AtSplit(buf, at, words[0], Join(words[1..]));
    if k > 0 {
      JoinAt(words[1..], k - 1, buf, at + 32);
    }
  }

  function Joined(words: Result<seq<Word>, AbiError>): Result<seq<Byte>, AbiError> {
    match words
    case Ok(w) => Ok(Join(w))
    case Err(e) => Err(e)
  }

  // ---- encoding ----

  /** The ten head words of `ExactInputSingleParams` and the empty `hookData` behind them. */
  function ParamsWords(swap: Swap, hookDataOffset: nat): Result<seq<Word>, AbiError> {
    var currency0 :- AddressWord(swap.pool.currency0);
    var currency1 :- AddressWord(swap.pool.currency1);
    var hooks :- AddressWord(swap.pool.hooks);
    Ok([ currency0,
         currency1,
         UintWord(swap.pool.fee),
         IntWord(swap.pool.tickSpacing),
         hooks,
         BoolWord(swap.zeroForOne),
         UintWord(swap.amountIn),
         UintWord(swap.amountOutMinimum),
         UintWord(0),
         UintWord(hookDataOffset),
         UintWord(0) ])
  }

  function TokenAmount(token: string, amount: Uint128): Result<seq<Word>, AbiError> {
    var currency :- AddressWord(token);
    Ok([currency, UintWord(amount)])
  }

  function SwapInput(swap: Swap, hookDataOffset: nat): Result<seq<Byte>, AbiError> {
    var words :- ParamsWords(swap, hookDataOffset);
    var settle :- TokenAmount(swap.TokenIn(), swap.amountIn);
    var take :- TokenAmount(swap.TokenOut(), swap.amountOutMinimum);
    Ok(PairEnc([ACTION_SWAP_EXACT_IN_SINGLE, ACTION_SETTLE_ALL, ACTION_TAKE_ALL],
               [StructEnc(Join(words)), Join(settle), Join(take)]))
  }

  /** The argument block of `execute`: two offsets, the deadline, commands, inputs. */
  function ExecuteArgs(input: seq<Byte>, deadline: nat): seq<Byte> {
    var commands := BytesEnc([CMD_V4_SWAP]);
    UintWord(96) + UintWord(96 + |commands|) + UintWord(deadline) + commands + BytesArrayEnc([input])
  }

  function Calldata(selector: Selector, swap: Swap, hookDataOffset: nat, deadline: Uint64)
    : Result<seq<Byte>, AbiError>
  {
    var input :- SwapInput(swap, hookDataOffset);
    Ok(selector + ExecuteArgs(input, deadline))
  }

  /** Offset of `hookData` from the start of the struct: past all ten head words. */
  const HOOK_DATA_OFFSET: nat := 10 * 32

  method PushWord(body: seq<Byte>, ghost words: seq<Word>, word: Word)
    returns (more: seq<Byte>, ghost moreWords: seq<Word>)
    requires body == Join(words)
    ensures moreWords == words + [word] && more == Join(moreWords)
  {
    JoinSnoc(words, word);
    more, moreWords := body + word, words + [word];
  }

  method ExactInputSingleParamsBody(swap: Swap) returns (r: Result<seq<Byte>, AbiError>)
    ensures r == Joined(ParamsWords(swap, HOOK_DATA_OFFSET))
  {
    hide AddressWord, UintWord, IntWord, BoolWord, Join;
    var body: seq<Byte> := [];
    ghost var words: seq<Word> := [];
    assert body == Join(words) by { assert |Join(words)| == 0; }
    var currency0 :- AddressWord(swap.pool.currency0);
    body, words := PushWord(body, words, currency0);
    var currency1 :- AddressWord(swap.pool.currency1);
    body, words := PushWord(body, words, currency1);
    body, words := PushWord(body, words, UintWord(swap.pool.fee));
    body, words := PushWord(body, words, IntWord(swap.pool.tickSpacing));
    var hooks :- AddressWord(swap.pool.hooks);
    body, words := PushWord(body, words, hooks);
    assert words == [currency0, currency1, UintWord(swap.pool.fee), IntWord(swap.pool.tickSpacing), hooks];
    body, words := PushWord(body, words, BoolWord(swap.zeroForOne));
    body, words := PushWord(body, words, UintWord(swap.amountIn));
    body, words := PushWord(body, words, UintWord(swap.amountOutMinimum));
    body, words := PushWord(body, words, UintWord(0));
    body, words := PushWord(body, words, UintWord(10 * 32));
    body, words := PushWord(body, words, UintWord(0));
    assert words == ParamsWords(swap, HOOK_DATA_OFFSET).value;
    r := Ok(body);
  }

  method TokenAmountParams(token: string, amount: Uint128) returns (r: Result<seq<Byte>, AbiError>)
    ensures r == Joined(TokenAmount(token, amount))
  {
    hide AddressWord, UintWord;
    var body: seq<Byte> := [];
    ghost var words: seq<Word> := [];
    var currency :- AddressWord(token);
    body, words := PushWord(body, words, currency);
    body, words := PushWord(body, words, UintWord(amount));
    assert words == TokenAmount(token, amount).value;
    r := Ok(body);
  }

  method V4SwapInput(swap: Swap) returns (r: Result<seq<Byte>, AbiError>)
    ensures r == SwapInput(swap, HOOK_DATA_OFFSET)
  {
    hide ParamsWords, TokenAmount, Join, PairEnc;
    var actions := [ACTION_SWAP_EXACT_IN_SINGLE, ACTION_SETTLE_ALL, ACTION_TAKE_ALL];
    var body :- ExactInputSingleParamsBody(swap);
    var swapParams := EncodeSingleDynamicStruct(body);
    var settle :- TokenAmountParams(swap.TokenIn(), swap.amountIn);
    var take :- TokenAmountParams(swap.TokenOut(), swap.amountOutMinimum);
    var out := EncodeBytesAndBytesArray(actions, [swapParams, settle, take]);
    r := Ok(out);
  }

  method ExecuteCalldata(selector: Selector, swap: Swap, deadline: Uint64)
    returns (r: Result<seq<Byte>, AbiError>)
    ensures r == Calldata(selector, swap, HOOK_DATA_OFFSET, deadline)
  {
    hide SwapInput, UintWord, BytesEnc, BytesArrayEnc;
    var input :- V4SwapInput(swap);
    var headAndTail: seq<Byte> := UintWord(3 * 32);
    var encCommands := EncodeBytes([CMD_V4_SWAP]);
    headAndTail := headAndTail + UintWord(3 * 32 + |encCommands|);
    headAndTail := headAndTail + UintWord(deadline);
    headAndTail := headAndTail + encCommands;
    var encInputs := EncodeBytesArray([input]);
    headAndTail := headAndTail + encInputs;
    r := Ok(selector + headAndTail);
  }

  // ---- strict decoding ----

  function ReadAddress(buf: seq<Byte>, at: nat): Option<seq<Byte>> {
    match ReadWord(buf, at)
    case Some(w) => if w[..12] == Zeros(12) then Some(w[12..]) else None
    case None => None
  }

  function ReadBool(buf: seq<Byte>, at: nat): Option<bool> {
    match ReadNat(buf, at)
    case Some(v) => if v == 1 then Some(true) else if v == 0 then Some(false) else None
    case None => None
  }

  /** A 256-bit two's complement integer. */
  function ReadInt(buf: seq<Byte>, at: nat): Option<int> {
    match ReadNat(buf, at)
    case Some(v) => Some(if v < Pow256(32) / 2 then v else v - Pow256(32))
    case None => None
  }

  datatype SwapParams = SwapParams(
    currency0: seq<Byte>, currency1: seq<Byte>, fee: nat, tickSpacing: int, hooks: seq<Byte>,
    zeroForOne: bool, amountIn: nat, amountOutMinimum: nat, minHopPriceX36: nat,
    hookData: seq<Byte>)

  /** `abi.decode(buf, (ExactInputSingleParams))`. */
  function ReadSwapParams(buf: seq<Byte>): Option<SwapParams> {
    match ReadNat(buf, 0)
    case None => None
    case Some(at) =>
      if at % 32 != 0 then None
      else
        match (ReadAddress(buf, at), ReadAddress(buf, at + 32), ReadNat(buf, at + 64),
               ReadInt(buf, at + 96), ReadAddress(buf, at + 128), ReadBool(buf, at + 160),
               ReadNat(buf, at + 192), ReadNat(buf, at + 224), ReadNat(buf, at + 256),
               ReadHookData(buf, at))
        case (Some(c0), Some(c1), Some(fee), Some(tick), Some(hooks), Some(zeroForOne),
              Some(amountIn), Some(amountOut), Some(minHop), Some(hookData)) =>
          Some(SwapParams(c0, c1, fee, tick, hooks, zeroForOne, amountIn, amountOut, minHop, hookData))
        case _ => None
  }

  function ReadHookData(buf: seq<Byte>, at: nat): Option<seq<Byte>> {
    match ReadNat(buf, at + 288)
    case Some(offset) => ReadBytes(buf, at + offset)
    case None => None
  }

  function ReadTokenAmount(buf: seq<Byte>): Option<(seq<Byte>, nat)> {
    match (ReadAddress(buf, 0), ReadNat(buf, 32))
    case (Some(token), Some(amount)) => Some((token, amount))
    case _ => None
  }

  datatype Execution = Execution(
    commands: seq<Byte>, deadline: nat, actions: seq<Byte>, swap: SwapParams,
    settle: (seq<Byte>, nat), take: (seq<Byte>, nat))

  function ReadSwapInput(input: seq<Byte>): Option<(seq<Byte>, SwapParams, (seq<Byte>, nat), (seq<Byte>, nat))> {
    match ReadPair(input)
    case None => None
    case Some((actions, params)) =>
      if |params| != 3 then None
      else
        match (ReadSwapParams(params[0]), ReadTokenAmount(params[1]), ReadTokenAmount(params[2]))
        case (Some(swap), Some(settle), Some(take)) => Some((actions, swap, settle, take))
        case _ => None
  }

  /** Commands, deadline and the single input of an `execute` argument block. */
  function ReadExecuteArgs(args: seq<Byte>): Option<(seq<Byte>, nat, seq<Byte>)> {
    match (ReadNat(args, 0), ReadNat(args, 32), ReadNat(args, 64))
    case (Some(atCommands), Some(atInputs), Some(deadline)) =>
      (match (ReadBytes(args, atCommands), ReadBytesArray(args, atInputs))
       case (Some(commands), Some(inputs)) =>
         if |inputs| == 1 then Some((commands, deadline, inputs[0])) else None
       case _ => None)
    case _ => None
  }

  function ReadCalldata(selector: Selector, calldata: seq<Byte>): Option<Execution> {
    if |calldata| < 4 || calldata[..4] != selector then None
    else
      match ReadExecuteArgs(calldata[4..])
      case None => None
      case Some((commands, deadline, input)) =>
        match ReadSwapInput(input)
        case None => None
        case Some((actions, swap, settle, take)) =>
          Some(Execution(commands, deadline, actions, swap, settle, take))
  }

  // ---- words read back ----

  /** The address bytes a hex string stands for. */
  function AddressBytes(addr: string): seq<Byte>
    requires AddressWord(addr).Ok?
  {
    FromHex(addr).value
  }

  lemma AddressAt(buf: seq<Byte>, at: nat, addr: string)
    requires AddressWord(addr).Ok? && At(buf, at, AddressWord(addr).value)
    ensures ReadAddress(buf, at) == Some(AddressBytes(addr))
  {
    hide FromHex;
    ZeroRepeat(12);
    Splits(Zeros(12), AddressBytes(addr));
  }

  lemma BoolAt(buf: seq<Byte>, at: nat, b: bool)
    requires At(buf, at, BoolWord(b))
    ensures ReadBool(buf, at) == Some(b)
  {
    var bit: seq<Byte> := [if b then 1 else 0];
    ZeroRepeat(31);
    LeadingZeros(31, bit);
    assert FromBE(bit) == if b then 1 else 0;
  }

  lemma {:induction false} AllOnes(n: nat)
    ensures FromBE(Repeat(0xff, n)) == Pow256(n) - 1
  {
    if n > 0 {
      AllOnes(n - 1);
      assert Repeat(0xff, n)[..n - 1] == Repeat(0xff, n - 1);
    }
  }

  lemma IntWordValue(value: Int128)
    ensures FromBE(IntWord(value)) == if value < 0 then Pow256(32) + value else value
  {
    hide FromBE, ToBE, Pow256;
    var low := ToBE(value % U128, 16);
    PowersOfUse();
    Pow256Add(16, 16);
    FromToBE(value % U128, 16);
    if value < 0 {
      assert value % U128 == value + U128;
      FromBEConcat(Repeat(0xff, 16), low);
      AllOnes(16);
    } else {
      assert value % U128 == value;
      ZeroRepeat(16);
      LeadingZeros(16, low);
    }
  }

  lemma IntAt(buf: seq<Byte>, at: nat, value: Int128)
    requires At(buf, at, IntWord(value))
    ensures ReadInt(buf, at) == Some(value)
  {
    hide FromBE, ToBE, Pow256;
    IntWordValue(value);
    PowersOfUse();
    Pow256Add(16, 16);
  }

  // ---- main results ----

  predicate ValidAddress(addr: string) {
    FromHex(addr).Ok? && |FromHex(addr).value| == 20
  }

  /** What the calldata must say about a swap whose three addresses are well formed. */
  function Meaning(swap: Swap): SwapParams
    requires ValidAddress(swap.pool.currency0) && ValidAddress(swap.pool.currency1)
    requires ValidAddress(swap.pool.hooks)
  {
    SwapParams(AddressBytes(swap.pool.currency0), AddressBytes(swap.pool.currency1), swap.pool.fee,
               swap.pool.tickSpacing, AddressBytes(swap.pool.hooks), swap.zeroForOne,
               swap.amountIn, swap.amountOutMinimum, 0, [])
  }

  lemma WordsAt(words: seq<Word>)
    ensures forall k :: 0 <= k < |words| ==> At(StructEnc(Join(words)), 32 + 32 * k, words[k])
    ensures forall k :: 0 <= k < |words| ==> At(Join(words), 32 * k, words[k])
    ensures At(StructEnc(Join(words)), 0, UintWord(32))
  {
    hide At, UintWord, Join;
    var buf := StructEnc(Join(words));
    WholeAt(buf);
    WholeAt(Join(words));
    AtSplit(buf, 0, UintWord(32), Join(words));
    forall k | 0 <= k < |words|
      ensures At(buf, 32 + 32 * k, words[k]) && At(Join(words), 32 * k, words[k])
    {
      JoinAt(words, k, buf, 32);
      JoinAt(words, k, Join(words), 0);
    }
  }

  lemma EmptyBytesAt(buf: seq<Byte>, at: nat)
    requires At(buf, at, UintWord(0)) && at % 32 == 0
    ensures ReadBytes(buf, at) == Some([])
  {
    NatAt(buf, at, 0);
  }

  /** The struct's offset word and the fields of the pool. */
  lemma PoolReadsBack(swap: Swap)
    requires ValidAddress(swap.pool.currency0) && ValidAddress(swap.pool.currency1)
    requires ValidAddress(swap.pool.hooks)
    ensures ParamsWords(swap, HOOK_DATA_OFFSET).Ok?
    ensures var buf := StructEnc(Join(ParamsWords(swap, HOOK_DATA_OFFSET).value));
            && ReadNat(buf, 0) == Some(32)
            && ReadAddress(buf, 32) == Some(AddressBytes(swap.pool.currency0))
            && ReadAddress(buf, 64) == Some(AddressBytes(swap.pool.currency1))
            && ReadNat(buf, 96) == Some(swap.pool.fee) && ReadInt(buf, 128) == Some(swap.pool.tickSpacing)
            && ReadAddress(buf, 160) == Some(AddressBytes(swap.pool.hooks))
  {
    hide At, UintWord, IntWord, BoolWord, Join, FromHex, ReadNat, ReadAddress, ReadInt, StructEnc;
    var words := ParamsWords(swap, HOOK_DATA_OFFSET).value;
    var buf := StructEnc(Join(words));
    WordsAt(words);
    NatAt(buf, 0, 32);
    assert At(buf, 32, words[0]);
    AddressAt(buf, 32, swap.pool.currency0);
    assert At(buf, 64, words[1]);
    AddressAt(buf, 64, swap.pool.currency1);
    assert At(buf, 96, words[2]);
    NatAt(buf, 96, swap.pool.fee);
    assert At(buf, 128, words[3]);
    IntAt(buf, 128, swap.pool.tickSpacing);
    assert At(buf, 160, words[4]);
    AddressAt(buf, 160, swap.pool.hooks);
  }

  /** The direction, the amounts and, through its offset word, the empty hook data. */
  lemma AmountsReadBack(swap: Swap)
    requires ParamsWords(swap, HOOK_DATA_OFFSET).Ok?
    ensures var buf := StructEnc(Join(ParamsWords(swap, HOOK_DATA_OFFSET).value));
            && ReadBool(buf, 192) == Some(swap.zeroForOne) && ReadNat(buf, 224) == Some(swap.amountIn)
            && ReadNat(buf, 256) == Some(swap.amountOutMinimum) && ReadNat(buf, 288) == Some(0)
            && ReadHookData(buf, 32) == Some([])
  {
    hide At, UintWord, IntWord, BoolWord, AddressWord, Join, ReadNat, ReadBool, ReadBytes, StructEnc;
    var words := ParamsWords(swap, HOOK_DATA_OFFSET).value;
    var buf := StructEnc(Join(words));
    WordsAt(words);
    assert At(buf, 192, words[5]);
    BoolAt(buf, 192, swap.zeroForOne);
    assert At(buf, 224, words[6]);
    NatAt(buf, 224, swap.amountIn);
    assert At(buf, 256, words[7]);
    NatAt(buf, 256, swap.amountOutMinimum);
    assert At(buf, 288, words[8]);
    NatAt(buf, 288, 0);
    assert At(buf, 320, words[9]);
    NatAt(buf, 320, 320);
    assert At(buf, 352, words[10]);
    EmptyBytesAt(buf, 352);
  }

  /** Every swap field comes back, the offset of the empty `hookData` included. */
  lemma SwapParamsReadBack(swap: Swap)
    requires ValidAddress(swap.pool.currency0) && ValidAddress(swap.pool.currency1)
    requires ValidAddress(swap.pool.hooks)
    ensures ParamsWords(swap, HOOK_DATA_OFFSET).Ok?
    ensures ReadSwapParams(StructEnc(Join(ParamsWords(swap, HOOK_DATA_OFFSET).value))) == Some(Meaning(swap))
  {
    hide At, UintWord, IntWord, BoolWord, AddressWord, Join, FromHex, ReadNat, ReadAddress, ReadBool, ReadInt;
    hide ReadHookData, StructEnc, ParamsWords;
    PoolReadsBack(swap);
    AmountsReadBack(swap);
  }

  lemma TokenAmountReadBack(token: string, amount: Uint128)
    requires ValidAddress(token)
    ensures TokenAmount(token, amount).Ok?
    ensures ReadTokenAmount(Join(TokenAmount(token, amount).value)) == Some((AddressBytes(token), amount))
  {
    hide At, UintWord, Join, FromHex, ReadNat, ReadAddress;
    var words := TokenAmount(token, amount).value;
    WordsAt(words);
    assert At(Join(words), 0, words[0]) && At(Join(words), 32, words[1]);
    AddressAt(Join(words), 0, token);
    NatAt(Join(words), 32, amount);
  }

  /** Lengths that the offset words must hold: the calldata is a few words long. */
  lemma InputLength(actions: seq<Byte>, params: seq<seq<Byte>>)
    requires |actions| <= 1000 && |params| <= 3
    requires forall i :: 0 <= i < |params| ==> |params[i]| <= 1000
    ensures |PairEnc(actions, params)| <= 5000
  {
    hide Tails, UintWord, Missing;
    TailsBound(params, 1000, 3192);
  }

  lemma SwapInputReadBack(swap: Swap)
    requires ValidAddress(swap.pool.currency0) && ValidAddress(swap.pool.currency1)
    requires ValidAddress(swap.pool.hooks)
    ensures SwapInput(swap, HOOK_DATA_OFFSET).Ok?
    ensures |SwapInput(swap, HOOK_DATA_OFFSET).value| <= 5000
    ensures ReadSwapInput(SwapInput(swap, HOOK_DATA_OFFSET).value) ==
            Some(([0x06, 0x0c, 0x0f], Meaning(swap),
                  (AddressBytes(swap.TokenIn()), swap.amountIn),
                  (AddressBytes(swap.TokenOut()), swap.amountOutMinimum)))
  {
    hide Join, PairEnc, ReadPair, FromHex, UintWord, ReadSwapParams, ReadTokenAmount;
    SwapParamsReadBack(swap);
    TokenAmountReadBack(swap.TokenIn(), swap.amountIn);
    TokenAmountReadBack(swap.TokenOut(), swap.amountOutMinimum);
    var actions := [ACTION_SWAP_EXACT_IN_SINGLE, ACTION_SETTLE_ALL, ACTION_TAKE_ALL];
    var params := [StructEnc(Join(ParamsWords(swap, HOOK_DATA_OFFSET).value)),
                   Join(TokenAmount(swap.TokenIn(), swap.amountIn).value),
                   Join(TokenAmount(swap.TokenOut(), swap.amountOutMinimum).value)];
    InputLength(actions, params);
    ReadPairEnc(actions, params);
  }

  lemma ArgsLength(input: seq<Byte>, deadline: nat)
    requires |input| <= 5000
    ensures |ExecuteArgs(input, deadline)| <= 20000
  {
    hide Tails, UintWord, Missing;
    TailsBound([input], 5000, 15192);
  }

  /** Where the five parts of the argument block lie. */
  lemma ArgsLieAt(input: seq<Byte>, deadline: Uint64)
    ensures var args := ExecuteArgs(input, deadline);
            && At(args, 0, UintWord(96)) && At(args, 32, UintWord(160)) && At(args, 64, UintWord(deadline))
            && At(args, 96, BytesEnc([CMD_V4_SWAP])) && At(args, 160, BytesArrayEnc([input]))
  {
    var args := ExecuteArgs(input, deadline);
    var commands := BytesEnc([CMD_V4_SWAP]);
    var w0: seq<Byte>, w1: seq<Byte>, w2: seq<Byte> := UintWord(96), UintWord(160), UintWord(deadline);
    assert |commands| == 64;
    hide At, UintWord, BytesEnc, BytesArrayEnc;
    WholeAt(args);
    AtSplit(args, 0, w0 + w1 + w2 + commands, BytesArrayEnc([input]));
    AtSplit(args, 0, w0 + w1 + w2, commands);
    AtSplit(args, 0, w0 + w1, w2);
    AtSplit(args, 0, w0, w1);
  }

  lemma ExecuteArgsReadBack(input: seq<Byte>, deadline: Uint64)
    requires |input| <= 5000
    ensures ReadExecuteArgs(ExecuteArgs(input, deadline)) == Some(([CMD_V4_SWAP], deadline, input))
  {
    hide At, UintWord, BytesEnc, BytesArrayEnc, ExecuteArgs, ReadNat, ReadBytes, ReadBytesArray;
    ArgsLength(input, deadline);
    ArgsLieAt(input, deadline);
    var args := ExecuteArgs(input, deadline);
    NatAt(args, 0, 96);
    NatAt(args, 32, 160);
    NatAt(args, 64, deadline);
    BytesAt(args, 96, [CMD_V4_SWAP]);
    BytesArrayAt(args, 160, [input]);
  }

  /**
   Decoding the calldata by following its offsets recovers the command, the deadline, the three
   actions and every field of the swap; the token spent is settled and the token received is taken.
   */
  lemma CalldataReadBack(selector: Selector, swap: Swap, deadline: Uint64)
    requires ValidAddress(swap.pool.currency0) && ValidAddress(swap.pool.currency1)
    requires ValidAddress(swap.pool.hooks)
    ensures Calldata(selector, swap, HOOK_DATA_OFFSET, deadline).Ok?
    ensures var token0, token1 := AddressBytes(swap.pool.currency0), AddressBytes(swap.pool.currency1);
            var (tokenIn, tokenOut) := if swap.zeroForOne then (token0, token1) else (token1, token0);
            ReadCalldata(selector, Calldata(selector, swap, HOOK_DATA_OFFSET, deadline).value) ==
            Some(Execution([0x10], deadline, [0x06, 0x0c, 0x0f], Meaning(swap),
                           (tokenIn, swap.amountIn), (tokenOut, swap.amountOutMinimum)))
  {
    hide SwapInput, ExecuteArgs, ReadExecuteArgs, ReadSwapInput, Meaning, FromHex;
    SwapInputReadBack(swap);
    var input := SwapInput(swap, HOOK_DATA_OFFSET).value;
    ExecuteArgsReadBack(input, deadline);
    Splits<Byte>(selector, ExecuteArgs(input, deadline));
  }

  /** Calldata is built exactly when the three addresses are 20 bytes of hex. */
  lemma BuildsIff(selector: Selector, swap: Swap, deadline: Uint64)
    ensures Calldata(selector, swap, HOOK_DATA_OFFSET, deadline).Ok? <==>
            ValidAddress(swap.pool.currency0) && ValidAddress(swap.pool.currency1)
            && ValidAddress(swap.pool.hooks)
  {
    hide FromHex, UintWord, IntWord, PairEnc, Join;
  }

  /** Read from the calldata alone: each leg names the token and the amount that its own swap asks for. */
  lemma LegsMatchTheSwap(selector: Selector, swap: Swap, deadline: Uint64)
    requires Calldata(selector, swap, HOOK_DATA_OFFSET, deadline).Ok?
    ensures var read := ReadCalldata(selector, Calldata(selector, swap, HOOK_DATA_OFFSET, deadline).value);
            && read.Some?
            && var e := read.value;
               && e.settle == (if e.swap.zeroForOne then e.swap.currency0 else e.swap.currency1, e.swap.amountIn)
               && e.take ==
                  (if e.swap.zeroForOne then e.swap.currency1 else e.swap.currency0, e.swap.amountOutMinimum)
  {
    hide Calldata, ReadCalldata, FromHex;
    BuildsIff(selector, swap, deadline);
    CalldataReadBack(selector, swap, deadline);
  }

  /** Two swaps with the same calldata agree on every field and on the deadline. */
  lemma CalldataInjective(selector: Selector, a: Swap, b: Swap, deadlineA: Uint64, deadlineB: Uint64)
    requires ValidAddress(a.pool.currency0) && ValidAddress(a.pool.currency1) && ValidAddress(a.pool.hooks)
    requires ValidAddress(b.pool.currency0) && ValidAddress(b.pool.currency1) && ValidAddress(b.pool.hooks)
    ensures Calldata(selector, a, HOOK_DATA_OFFSET, deadlineA) == Calldata(selector, b, HOOK_DATA_OFFSET, deadlineB) ==>
              Meaning(a) == Meaning(b) && deadlineA == deadlineB
  {
    hide Calldata, ReadCalldata, Meaning, FromHex;
    CalldataReadBack(selector, a, deadlineA);
    CalldataReadBack(selector, b, deadlineB);
  }

  /**
   The layout before `minHopPriceX36` counted nine head words. Its offset points at the offset word
   itself, whose value then reads as a length that runs past the end: no swap decodes.
   */
  lemma NineWordOffsetNeverDecodes(swap: Swap)
    requires ParamsWords(swap, 9 * 32).Ok?
    ensures ReadSwapParams(StructEnc(Join(ParamsWords(swap, 9 * 32).value))).None?
  {
    hide At, UintWord, IntWord, BoolWord, Join, FromHex, ReadNat, ReadAddress, ReadBool, ReadInt;
    var words := ParamsWords(swap, 9 * 32).value;
    var buf := StructEnc(Join(words));
    WordsAt(words);
    NatAt(buf, 0, 32);
    assert At(buf, 320, words[9]);
    NatAt(buf, 320, 288);
    assert |buf| == 384;
  }
}
