# A verified model of sherwood-agent

This project models the deterministic core of an automated trading agent and its order gate, and
proves what that core promises. Amounts are exact reals, clocks are integer readings in nanoseconds,
a section under one lock is one atomic step, a database table is a sequence, and hash functions,
parsers, remote nodes and language models are arbitrary functions.

Code that changes things step by step is modelled by classes and methods with loops; each is proved
equal to a specification function, and the promises are lemmas about that function over every input
or every run. A lemma named `…Exactly` says what such a function answers without naming its parts.

| files | subject |
|---|---|
| `Rlp`, `Eip1559` | Recursive Length Prefix (Ethereum Yellow Paper, Appendix B) and type-2 transactions (EIP-1559, EIP-2718), against strict decoders |
| `Abi`, `AbiDyn`, `V4Swap` | Solidity contract ABI words, dynamic arguments, and the nested swap calldata, against a decoder that follows the offsets |
| `AuditChain` | the hash-chained audit table |
| `SseFrames`, `AuditFeed`, `FeedToDashboard` | the live audit feed from the server's cursor to the dashboard's window |
| `Approvals`, `ApprovalRuns`, `Budget`, `RateLimiter` | the shared state machines of the server and the wallets |
| `RiskGate`, `OrderParse`, `HookGate`, `Server`, `ServerSteps`, `ServerRuns`, `HeldOrders` | the order gate, what each of its steps does, every interleaving of them, and what the kill switch and timeouts do to orders in progress |
| `Portfolio`, `Sums`, `Backtest` | the ledger and the backtest's second bookkeeping of the same fills |
| `PaperExecutor`, `RunLoop`, `RunSafety`, `AiDecider` | the trading loop, its safety, and the decider that feeds it |
| `LogScan`, `Price` | bisecting range scans and the fixed-point pool price |
| `Orders`, `Text`, `Bytes`, `Seqs`, `Wrappers` | shared types and facts |

## Where the code differs from what is said about it

The model follows the code. Each point is a lemma below, with the exact condition where there is one.

- `crates/store/migrations/0001_init.sql:43` and `docs/DATA-MODEL.md:72` give the audit preimage without a
  final newline; the code ends every part with one, the last included (`AuditChain.HashParts`).
- The audit head hash determines the table exactly for newline-free rows: a newline in any field gives
  a second table with the same head (`AuditChain.NewlineMakesTwin`).
- A signature whose r or s begins with a zero byte is written as a 32-byte string all the same, so the
  signed form is then not the canonical EIP-1559 encoding (`Eip1559.SignatureIsCanonicalIff`).
- `docs/API.md:32` says an engaged kill switch denies every order immediately. It denies every order
  that arrives afterwards; an order in progress can still become allowed exactly if it is held, cleared
  or waiting on a channel that shows Pending or Approved, and an empty budget would take its notional
  (`HeldOrders.KillReachesExactly`). Every allowed order was evaluated with the switch off
  (`ServerRuns.AllowedWasBeforeKill`).
- A hook can answer "timed out" before the sweep marks its entry. An approval after that takes effect
  exactly if no step since the timeout was a terminal decision on that id or a sweep more than the
  timeout after the entry's creation (`HeldOrders.ApprovalAfterTimeout`). The channel does not tell:
  with the ticket its only receiver is dropped, and it shows Pending for ever
  (`ApprovalRuns.ChannelSays`, `HeldOrders.DecisionTakesExactly`).
- `post_approval` can fail to find the entry it has decided: it decides and looks up under two locks,
  and a decided entry is listed exactly while fewer than 50 decided entries stand behind it
  (`ApprovalRuns.ListedExactly`). It can be gone at once (`ApprovalRuns.JustDecidedCanVanish`), or
  when another decision comes in between (`ApprovalRuns.CrossingApprovalsVanish`).
- `crates/core/src/risk.rs:9-11` says a sell that reduces exposure is never blocked by the notional limit. The
  cap on a single order does block it (`RiskGate.SellRefusedExactly`, `RiskGate.ReducingSellIsRefused`).
- A cooldown of 2^63 seconds or more is cast to a negative number and stops nothing, unless the last
  order lies far enough in the future (`RiskGate.CooldownExactly`, `RiskGate.HugeCooldownStopsNothing`).
- An order is charged its worth exactly if its price is not negative; a negative limit price passes
  the notional limits and is charged nothing (`ServerRuns.ChargedItsWorthExactly`,
  `HeldOrders.NegativeLimitIsChargedNothing`).
- A latched notional refusal reports a total that "would exceed" the cap but does not
  (`Budget.ReportsNameACap`).
- The rate limiter limits nothing if its window is zero (`RateLimiter.LimitsIff`).
- The call budget of the model-backed decider is overshot exactly when a retry starts on the last
  call, and at the largest 32-bit budget that call lifts it (`AiDecider.CallBudget`,
  `AiDecider.LargestBudgetIsLifted`); cutting a long reason inside a character panics
  (`AiDecider.PanicsExactly`).
- With negative values on the curve the one-pass drawdown can understate: it is right exactly if
  every negative point, seen from the least positive value before it, lies no deeper than some
  negative point below its own peak (`Backtest.OnePassExactly`).

## Model

| member | source | states |
|---|---|---|
| Rlp.BuildLengthPrefix | crates/signer/src/rlp.rs:45-55 | short form up to 55 bytes, else the length's minimal big-endian bytes behind a length-of-length byte |
| Rlp.EncodeBytes | crates/signer/src/rlp.rs:13-20 | the encoding that the strict decoder inverts |
| Rlp.EncodeList | crates/signer/src/rlp.rs:24-31 | appending item by item gives the list encoding that the strict decoder inverts |
| Rlp.EncodeUint | crates/signer/src/rlp.rs:36-43 | an integer is encoded as its leading-zero-free bytes |
| Rlp.DecodeEncode | crates/signer/src/rlp.rs:13-55 | for every tree of byte strings and lists, decoding its encoding followed by anything gives back that tree and that remainder |
| Rlp.DecodeAllBody | crates/signer/src/rlp.rs:24-31 | a concatenation of encodings decodes to exactly those items with nothing left |
| Rlp.EncodeDecode | crates/signer/src/rlp.rs:13-55 | what the strict decoder accepts is exactly an encoding: every value has one form only |
| Rlp.EncodeDecodeAll | crates/signer/src/rlp.rs:24-31 | the same for a whole list body |
| Rlp.PrefixFree | crates/signer/src/rlp.rs:13-55 | no encoding is a prefix of another, so two different trees never share one |
| Rlp.UintIsCanonical | crates/signer/src/rlp.rs:36-61 | the integer form is the unique leading-zero-free big-endian form |
| Eip1559.UnsignedFields | crates/signer/src/eip1559.rs:27-39 | nine fields, each the encoding of the item that belongs at its place |
| Eip1559.SigningPayload | crates/signer/src/eip1559.rs:43-47 | type byte 2 followed by the list of the nine fields |
| Eip1559.IntoRawSigned | crates/signer/src/eip1559.rs:53-61 | the same nine followed by the parity, r and s |
| Eip1559.DecodeOfPayload | crates/signer/src/eip1559.rs:27-47 | decoding the signing payload gives the transaction with nothing left over |
| Eip1559.PayloadInjective | crates/signer/src/eip1559.rs:43-47 | two different transactions never share a signing payload |
| Eip1559.PayloadOfDecode | crates/signer/src/eip1559.rs:27-47 | every payload that decodes is the payload of what it decodes to |
| Eip1559.DecodeOfRawSigned | crates/signer/src/eip1559.rs:53-61 | the signed form decodes to the same transaction, the parity and r and s as 32-byte strings |
| Eip1559.SignatureIsCanonicalIff | crates/signer/src/eip1559.rs:53-61 | a reader of canonical integers accepts r and s exactly if their first bytes are non-zero |
| Abi.FillWord | crates/chain/src/abi.rs:32-60 | filling the 32-byte array in place right-aligns the bytes behind the fill |
| Abi.BuildIntWord | crates/chain/src/abi.rs:56-60 | a signed number becomes its sign-extended two's complement word |
| Abi.UintWordValue | crates/chain/src/abi.rs:47-51 | a word holds exactly the number it was built from |
| Abi.DecodeU128Exact | crates/chain/src/abi.rs:91-107 | a word decodes exactly if its value is below 2^128, and then to that value |
| Abi.IntWordRoundTrip | crates/chain/src/abi.rs:56-76 | every 32-bit signed number, negative ones included, survives the word |
| Abi.DecodeI32Exact | crates/chain/src/abi.rs:67-77 | any word is read as the signed 32-bit number that agrees with it modulo 2^32 |
| Abi.FirstWordIsRead | crates/chain/src/abi.rs:67-107 | only the first word of a return counts, and a shorter one is an error |
| Abi.HexRoundTrip | crates/chain/src/abi.rs:11-22 | digits of either case, with or without a prefix of either case, are read as the bytes they stand for |
| Abi.DecodeHexExactly | crates/chain/src/abi.rs:19-22 | hex is read exactly if it is an even number of hex digits |
| AbiDyn.PadToWord | crates/dex/src/abi_dyn.rs:17-23 | zero bytes up to the next multiple of 32 and no more |
| AbiDyn.EncodeBytes | crates/dex/src/abi_dyn.rs:27-32 | length word, data, padding |
| AbiDyn.EncodeBytesArray | crates/dex/src/abi_dyn.rs:38-52 | the loop over a running offset gives count, offset table and tails |
| AbiDyn.EncodeBytesAndBytesArray | crates/dex/src/abi_dyn.rs:58-67 | two offsets, then both tails |
| AbiDyn.EncodeSingleDynamicStruct | crates/dex/src/abi_dyn.rs:73-78 | one offset word in front of the body |
| AbiDyn.TailsTile | crates/dex/src/abi_dyn.rs:38-52 | for any list of byte strings the tails tile the buffer: aligned, each where its offset word says, no gap or overlap, the last one ending the buffer |
| AbiDyn.BytesArrayAt | crates/dex/src/abi_dyn.rs:38-52 | a reader that follows the offsets anywhere in a larger buffer recovers the list |
| AbiDyn.ReadPairEnc | crates/dex/src/abi_dyn.rs:58-67 | a strict head/tail reader recovers both arguments |
| V4Swap.ExactInputSingleParamsBody | crates/dex/src/v4swap.rs:63-87 | the ten head words and the empty hook data, or the error of the first bad address |
| V4Swap.TokenAmountParams | crates/dex/src/v4swap.rs:89-101 | a token word and an amount word for settling and for taking |
| V4Swap.V4SwapInput | crates/dex/src/v4swap.rs:105-117 | the three actions and their three parameters as one pair |
| V4Swap.ExecuteCalldata | crates/dex/src/v4swap.rs:123-139 | selector, three head words, command and input |
| V4Swap.SwapParamsReadBack | crates/dex/src/v4swap.rs:63-87 | every field of the swap, negative tick spacing included, comes back through the hook-data offset |
| V4Swap.CalldataReadBack | crates/dex/src/v4swap.rs:42-139 | decoding the calldata recovers command 0x10, the deadline, the actions and all three parameters; the token spent is settled and the token received is taken |
| V4Swap.BuildsIff | crates/dex/src/v4swap.rs:63-139 | calldata is built exactly if the three addresses are 20 bytes of hex |
| V4Swap.LegsMatchTheSwap | crates/dex/src/v4swap.rs:42-101 | read from the calldata alone, each leg names the token and the amount that its own swap asks for |
| V4Swap.CalldataInjective | crates/dex/src/v4swap.rs:123-139 | equal calldata means equal swap and equal deadline |
| V4Swap.NineWordOffsetNeverDecodes | crates/dex/src/v4swap.rs:183-198 | the offset that was once one word short decodes for no swap |
| AuditChain.HashParts | crates/store/src/lib.rs:72-79 | feeding the parts one by one hashes each part followed by a newline |
| AuditChain.VerifyAuditChain | crates/store/src/lib.rs:332-370 | Ok with the row count exactly for verifying tables, else the first row that breaks and why |
| AuditChain.Store.AppendAudit | crates/store/src/lib.rs:263-307 | the table grows by one row linked to the previous head |
| AuditChain.Store.AuditTail | crates/store/src/lib.rs:309-330 | the end of the table, oldest first: n rows, or all of them if there are fewer or n is negative |
| AuditChain.AppendedVerifies | crates/store/src/lib.rs:263-307 | every table built by appending verifies, and so does each of its prefixes |
| AuditChain.AppendedHolds | crates/store/src/lib.rs:263-307 | a table built by appending holds its entries in order, from number 1 and behind 64 noughts |
| AuditChain.HeadDeterminesTable | crates/store/src/lib.rs:72-79 | two verifying tables with equal heads, one of them newline-free, are identical row for row, or exhibit a hash collision |
| AuditChain.NewlineMakesTwin | crates/store/src/lib.rs:72-79 | every verifying table with a newline in a row has a different verifying table with the same head |
| SseFrames.ReadStream | frontend/src/hooks/useAuditStream.ts:34-56 | the nested loops deliver the batches of the frames of the whole text and keep the rest |
| SseFrames.SplitIsTheFraming | frontend/src/hooks/useAuditStream.ts:39-42 | splitting finds the only way to cut a text into whole frames and an unfinished rest |
| SseFrames.FedIsWhole | frontend/src/hooks/useAuditStream.ts:34-42 | feeding chunk by chunk gives the frames and the rest of the whole text |
| SseFrames.ChunkingIsInvisible | frontend/src/hooks/useAuditStream.ts:34-42 | two ways of cutting the same text give the same frames and rest, cuts inside a separator included |
| SseFrames.DataOfAuditFrame | frontend/src/hooks/useAuditStream.ts:43-47 | the frame the server writes reads back as its data |
| SseFrames.DataOfExactly | frontend/src/hooks/useAuditStream.ts:43-47 | the data of any frame are its data lines joined by newlines, other lines left out |
| SseFrames.DataLineExactly | frontend/src/hooks/useAuditStream.ts:45-46 | a data line holds what follows its name, without one space in front |
| SseFrames.BadFrameIsSkipped | frontend/src/hooks/useAuditStream.ts:48-54 | a frame that does not parse delivers nothing and disturbs no other |
| AuditFeed.Connection.Tick | crates/server/src/routes.rs:892-913 | one poll sends the rows of the tail above the cursor and moves the cursor to the highest sent |
| AuditFeed.TickSends | crates/server/src/routes.rs:892-913 | a poll sends what follows the cursor within the last 200 rows, and catches up |
| AuditFeed.SentExactly | crates/server/src/routes.rs:886-913 | per connection each row is sent at most once in increasing order, and none is missed exactly if at most 200 land between polls |
| AuditFeed.ConnectionSends | crates/server/src/routes.rs:886-913 | a fresh connection replays the last 200 rows and then the same holds |
| AuditFeed.DashboardIsWindow | frontend/src/pages/DashboardPage.tsx:30-37 | after any batches over any reconnects the dashboard holds exactly the 200 highest rows received, sorted |
| AuditFeed.InsertExactly | frontend/src/pages/DashboardPage.tsx:34 | the sort is stable: a row goes in front of the higher numbers only |
| AuditFeed.WindowIsUnique | frontend/src/pages/DashboardPage.tsx:30-37 | there is only one such list |
| AuditFeed.DashboardCatchesUp | frontend/src/pages/DashboardPage.tsx:30-37 | once the current tail has arrived the dashboard shows exactly it |
| FeedToDashboard.DashboardShowsTheFeed | crates/server/src/routes.rs:886-913 | over one growing table, any connections, any polls, any chunking and any breaks, the dashboard shows exactly the 200 highest rows of what arrived, all of them from the table |
| FeedToDashboard.DashboardIsUpToDate | crates/server/src/routes.rs:886-913 | after a connection that was never overrun, saw the current table and lost nothing, the dashboard shows exactly its last 200 rows |
| AuditFeed.BatchesArrive | frontend/src/hooks/useAuditStream.ts:34-56 | from server ticks through any chunking to the callback: the non-empty batches in order, up to where the stream broke off |
| Approvals.ApprovalStore.Enqueue | crates/server/src/approvals.rs:144-168 | a pending entry at the end under the next id, and its ticket |
| Approvals.ApprovalStore.Decide | crates/server/src/approvals.rs:170-194 | an error for a non-terminal state, false for an unknown or decided id, else the decision, its signal if the ticket is still there, and a trim |
| Approvals.ApprovalStore.SweepExpired | crates/server/src/approvals.rs:196-209 | every pending entry older than the timeout expires, is signalled if its ticket is still there, and old entries are trimmed |
| Approvals.ApprovalStore.DropTicket | crates/server/src/approvals.rs:96-123 | a channel whose ticket is gone keeps the value it has, whatever is sent later |
| Approvals.ApprovalStore.Trim | crates/server/src/approvals.rs:227-246 | collecting indices and dropping marked ones keeps every pending entry and the last 50 decided ones |
| ApprovalRuns.RequestIsRecorded | crates/server/src/approvals.rs:48-168 | a request is queued last, pending, under the next id, with creation time, tool and the card of its order |
| ApprovalRuns.DecisionIsRecorded | crates/server/src/approvals.rs:170-194 | on every reachable queue a decision is recorded with time and note on the pending entry of its id and on no other |
| ApprovalRuns.SweepIsRecorded | crates/server/src/approvals.rs:196-209 | a sweep marks the pending entries whose time is up, with its time, and no others |
| ApprovalRuns.ListedAsRequested | crates/server/src/approvals.rs:48-168 | at every later point of every run the entry of an id shows the request that got it |
| ApprovalRuns.IdsDiffer | crates/server/src/approvals.rs:146-147 | ids with different counters differ, whatever the clock said |
| ApprovalRuns.KeepIsSubsequence | crates/server/src/approvals.rs:227-246 | a trim keeps order and keeps an entry exactly if it is pending or fewer than n decided ones follow |
| ApprovalRuns.KeepCommutes | crates/server/src/approvals.rs:170-246 | trimming early and late come to the same, whatever is decided in between |
| ApprovalRuns.StoreRefines | crates/server/src/approvals.rs:144-246 | on every run the store is the trimmed image of one that never forgets |
| ApprovalRuns.AnswersAlike | crates/server/src/approvals.rs:144-246 | every call answers as if nothing had been forgotten |
| ApprovalRuns.StoreInvariant | crates/server/src/approvals.rs:144-246 | unique ids, at most 50 decided entries, no pending entry ever dropped |
| ApprovalRuns.DecidedIsFinal | crates/server/src/approvals.rs:170-209 | a decided entry never changes again, and no request ever does |
| ApprovalRuns.PendingExactly | crates/server/src/approvals.rs:170-209 | an entry stays pending exactly as long as no call is a terminal decision on its id or a sweep past its time |
| ApprovalRuns.ListedExactly | crates/server/src/approvals.rs:211-246 | at every point of every run a decided entry is listed exactly if fewer than 50 decided ones stand behind it among all that were ever enqueued |
| ApprovalRuns.JustDecidedCanVanish | crates/server/src/routes.rs:827-845 | a run with 50 denied requests behind a pending one: its approval succeeds and the entry is gone |
| ApprovalRuns.CrossingApprovalsVanish | crates/server/src/routes.rs:827-845 | with 49 denied and one pending request behind it, an approved entry is listed, and gone once that request is approved too, before the look-up |
| ApprovalRuns.ChannelSays | crates/server/src/approvals.rs:106-194 | a channel shows Approved or Denied exactly if such a decision took effect on its id while its ticket was still there |
| ApprovalRuns.Wait | crates/server/src/approvals.rs:106-123 | the wait loop returns the first terminal value seen, else Expired |
| ApprovalRuns.TicketNeedsApproval | crates/server/src/approvals.rs:106-194 | a ticket returns Approved only after an approval of its own id took effect |
| Budget.SessionBudget.TryRecord | crates/server/src/budget.rs:118-151 | one charge: latched, duration, count, notional in this order, else recorded |
| Budget.SessionBudget.FirstBreach | crates/server/src/budget.rs:153-172 | which cap a latched session reports |
| Budget.SessionBudget.Reset | crates/server/src/budget.rs:174-180 | everything zeroed, clock restarted, latch cleared |
| Budget.WalletBudget.TryReserve | crates/wallets/src/budget.rs:110-142 | the same machine under the wallet's names |
| Budget.WalletBudget.FirstBreach | crates/wallets/src/budget.rs:144-163 | which limit a latched wallet reports |
| Budget.WalletBudget.Reset | crates/wallets/src/budget.rs:165-171 | everything zeroed, clock restarted, latch cleared |
| Budget.ChargedExactly | crates/server/src/budget.rs:118-172 | when a charge is booked, what is booked, and which figures a refusal reports, first or latched |
| Budget.WalletRefusesExactly | crates/wallets/src/budget.rs:110-163 | the same refusals in the wallet's names |
| Budget.Lockstep | crates/wallets/src/budget.rs:110-171 | driven by the same calls, session and wallet stay in the same state and answer alike |
| Budget.TotalsAreSums | crates/server/src/budget.rs:118-180 | totals are the sums over the calls accepted since the last reset and stay within every cap set; the latch is set exactly if one was refused |
| Budget.AcceptedExactly | crates/server/src/budget.rs:118-151 | a charge is accepted exactly if nothing was refused since the reset and every cap has room |
| Budget.RefusalLatches | crates/server/src/budget.rs:118-180 | after a refusal nothing changes and everything is refused until a reset |
| Budget.ReportsNameACap | crates/server/src/budget.rs:118-172 | on a monotone clock every refusal names a cap that is set and reached; a latched notional report states the unchanged total |
| RateLimiter.RateLimiter.Check | crates/server/src/limit.rs:32-47 | one request against the fixed window |
| RateLimiter.CheckedExactly | crates/server/src/limit.rs:32-47 | a request is accepted exactly if the limit is off, its window is over, or fewer than max were counted; only accepted ones count |
| RateLimiter.AtMostTwice | crates/server/src/limit.rs:32-47 | any stretch no longer than the window contains at most 2*max accepted requests |
| RateLimiter.EveryInterval | crates/server/src/limit.rs:32-47 | the same for every stretch of every trace of a new limiter |
| RateLimiter.PerWindow | crates/server/src/limit.rs:32-47 | one window accepts at most max, and its counter counts them |
| RateLimiter.TwiceIsReached | crates/server/src/limit.rs:32-47 | 2*max is reached one clock tick around a window's end |
| RateLimiter.LimitsIff | crates/server/src/limit.rs:19-47 | the bound holds exactly for configurations with a positive max and a positive window |
| RiskGate.CooldownExactly | crates/core/src/risk.rs:210-221 | below 2^63 seconds the cooldown stops a buy exactly if less than that has passed; from there up, exactly if the last order lies at least 2^64 - n + 1 whole seconds ahead |
| RiskGate.HugeCooldownStopsNothing | crates/core/src/risk.rs:210-221 | at 2^63 seconds a buy passes at the second of the last one, one second less stops it, and the longest cooldown stops one whose last order is in the future |
| RiskGate.SecondsAndCast | crates/core/src/risk.rs:210-221 | elapsed seconds are cut off toward zero; the cast keeps the low 64 bits, the top one as a sign |
| RiskGate.PassesExactly | crates/core/src/risk.rs:141-240 | an order passes exactly if the switch is off, its symbol permitted, its slippage, the daily loss and its notional within limits, it has a price, and, for a buy, cash, unrealized loss, open positions, cooldown and position fraction allow it |
| RiskGate.RefusedForTheFirstReason | crates/core/src/risk.rs:141-240 | it is refused for the first of twelve reasons that applies, with the figures of that reason |
| RiskGate.SellRefusedExactly | crates/core/src/risk.rs:165-186 | a sell that no hard stop concerns is refused exactly for a missing price or a notional above the order cap |
| RiskGate.ReducingSellIsRefused | crates/core/src/risk.rs:165-186 | a sell of part of a position is refused by the order cap |
| RiskGate.PassedBuyIsWithinLimits | crates/core/src/risk.rs:141-240 | a buy that passes is of a permitted symbol and within slippage, unrealized loss, order cap, cash, open positions, position fraction and cooldown after the buy |
| OrderParse.SameOrderEitherTime | crates/execution/src/order_parse.rs:34-97 | reading the same arguments twice gives the same error or the same order up to its id |
| OrderParse.ParsedExactly | crates/execution/src/order_parse.rs:34-119 | arguments are read as an order exactly if it is what they say: symbol, side, quantity or notional, limit price and slippage under their first names that are given |
| OrderParse.FaultsAreReal | crates/execution/src/order_parse.rs:34-119 | arguments are refused only for a fault that is there |
| OrderParse.NumberTextExactly | crates/execution/src/order_parse.rs:121-135 | white space, dollar signs in front and separators come off a number in text; nothing but numbers and text is one |
| OrderParse.SeparatorsComeOut | crates/execution/src/order_parse.rs:121-135 | exactly the commas and underscores come out, wherever they stand |
| OrderParse.ParsedOrder | crates/execution/src/order_parse.rs:34-135 | a parsed order has a proper symbol, the quantity given or the one the notional buys, and is positive |
| OrderParse.PlainArgumentsAreRead | crates/execution/src/order_parse.rs:34-97 | a plain buy is read as written, for every positive quantity and every limit price, negative ones included |
| HookGate.SecondReadingAgrees | crates/execution/src/hook.rs:155-179 | an order call is allowed exactly if the order of any second reading passes the gate |
| HookGate.DenialSaysWhy | crates/execution/src/hook.rs:155-179 | a call is denied exactly for an unknown tool, unreadable arguments or a refusal of the risk gate, and says which |
| HookGate.ReadsAndCancelsAlwaysPass | crates/execution/src/hook.rs:155-164 | unlisted tools are denied, reads and cancels pass even when everything is stopped, orders do not |
| Server.AppState.PreToolUse | crates/server/src/routes.rs:161-215 | evaluation under one read of the control, the pass-through answers, the second reading |
| Server.AppState.HoldForApproval | crates/server/src/routes.rs:217-219 | a held order gets its own entry and ticket |
| Server.AppState.WakeUp | crates/server/src/routes.rs:219-232 | once its channel is terminal the hook drops its ticket: approved goes on, denied and expired answer Deny |
| Server.AppState.WaitTimedOut | crates/server/src/routes.rs:219-232 | a wait whose time is up drops its ticket and answers Deny, and the entry stays as it is |
| Server.AppState.CallerGaveUp | crates/server/src/lib.rs:166-168 | a request whose caller went away drops its ticket and is never answered |
| Server.AppState.ChargeBudget | crates/server/src/routes.rs:235-248 | one charge of the order's notional decides the answer |
| Server.AppState.PostKill | crates/server/src/routes.rs:323-342 | the switch is set as asked and nothing else changes |
| Server.AppState.ApplyReload | crates/server/src/routes.rs:688-716 | the new config, tools and mode; an engaged switch stays engaged |
| Server.AppState.PostSessionReset | crates/server/src/routes.rs:861-872 | the budget starts afresh |
| Server.AppState.SweepTick | crates/server/src/lib.rs:170-179 | the sweeper's tick on the approval queue |
| Server.AppState.DecideApproval | crates/server/src/routes.rs:811-836 | bad words change nothing, unknown or decided ids are not found, else the decision took effect |
| Server.AppState.LookUpApproval | crates/server/src/routes.rs:837-844 | under its own lock: the entry of that id if it is listed, else it has vanished |
| ServerSteps.ControlMoves | crates/server/src/routes.rs:323-342 | a kill call sets the switch as asked, a reload installs every limit, the tools and the mode and keeps an engaged switch, and nothing else touches the control |
| ServerSteps.ControlGoverns | crates/server/src/routes.rs:688-716 | what a kill call or a reload installs governs every request that arrives before the next one, for as long as that request takes |
| ServerSteps.PartsMove | crates/server/src/routes.rs:161-248 | queue, budget and requests are touched by their own steps only |
| ServerSteps.ArrivalIs | crates/server/src/routes.rs:173-215 | a call is evaluated under the present control and at the present time; an allowed order is held or goes on to be charged, any other answer is final |
| ServerSteps.HoldIs | crates/server/src/routes.rs:216-219 | a held order waits for the entry that it is given |
| ServerSteps.WaitIs | crates/server/src/routes.rs:219-232 | how a wait ends: by what its channel shows, by its time or by its caller |
| ServerSteps.ChargeIs | crates/server/src/routes.rs:234-248 | the charge is the quantity at the limit price, else at the reference price, else nothing |
| ServerSteps.OthersAre | crates/server/src/routes.rs:811-872 | decisions, sweeps and session resets go to their part and to no other |
| ServerSteps.OperatorSeesTheOrder | crates/server/src/approvals.rs:37-61 | in every reachable state an entry shows the tool and the order of the request that waits for it |
| ServerRuns.PartsRunAlone | crates/server/src/routes.rs:161-249 | inside every interleaving the queue and the budget behave as runs of their own |
| ServerRuns.ArrivedOk | crates/server/src/routes.rs:176-215 | the branch for a second reading that fails is unreachable for an allowed order |
| ServerRuns.ChargedExactlyOnce | crates/server/src/routes.rs:235-248 | in every interleaving an allowed order was charged exactly once, and no other hook ever was |
| ServerRuns.AllowedOrdersWereGated | crates/server/src/routes.rs:161-249 | in every interleaving an allowed order passed the gate under the control it was evaluated against, was charged once, and if held had its own entry approved; no two hooks share an entry |
| ServerRuns.KillHolds | crates/server/src/routes.rs:323-342 | only the kill endpoint releases the switch, and until then every arriving order is denied |
| ServerRuns.AllowedWasBeforeKill | crates/server/src/routes.rs:176-194 | every order ever allowed was evaluated with the switch off |
| ServerRuns.ChargedItsWorthExactly | crates/server/src/routes.rs:235-240 | every order in progress is charged its worth exactly if its price is not negative, else nothing |
| ServerRuns.AllowedOrdersStayWithinCaps | crates/server/src/routes.rs:235-248 | in every interleaving the number and notional of the orders allowed since the last reset are what the budget booked, and within the caps set |
| HeldOrders.DecisionTakesExactly | crates/server/src/approvals.rs:170-194 | on every reachable queue a decision takes effect exactly if the entry of its id is pending; as long as the ticket is there, exactly if the channel shows Pending |
| HeldOrders.KillReachesExactly | crates/server/src/routes.rs:214-248 | in every reachable state with the switch on, and going on at any later time, a hook can still become an allowed order without a release exactly if it carries one that is held, cleared, or waiting on a pending or approved channel, with room in an empty budget |
| HeldOrders.HeldOrderOutlivesKill | crates/server/src/routes.rs:323-342 | in either approval mode there is a run that ends with the switch on and such an order |
| HeldOrders.ApprovalAfterTimeout | crates/server/src/approvals.rs:106-209 | in every reachable state, a hook that timed out stays denied and one whose caller gave up is never answered; an approval of its entry then takes effect exactly if no later step is a terminal decision on it or a sweep past its time |
| HeldOrders.ApprovalCanComeTooLate | crates/server/src/approvals.rs:106-123 | a run in which the hook has answered Deny and the approval then succeeds |
| HeldOrders.NegativeLimitIsChargedNothing | crates/execution/src/order_parse.rs:62-91 | an order with a negative limit price passes a gate with every limit set and is charged nothing |
| Portfolio.Portfolio.Apply | crates/core/src/portfolio.rs:95-120 | one fill's effect on cash, position, average cost and realized profit |
| Portfolio.BuyExactly | crates/core/src/portfolio.rs:95-120 | a buy adds to the position and blends the cost by quantity; one that exactly closes a short leaves the recorded cost |
| Portfolio.SellExactly | crates/core/src/portfolio.rs:95-120 | a sell realizes the gain on what it closes less its fee, and drops the cost exactly at a zero position |
| Portfolio.Portfolio.MarkToMarket | crates/core/src/portfolio.rs:83-91 | the loop gives the same equity in whatever order the map is visited |
| Portfolio.Portfolio.UnrealizedPnl | crates/core/src/portfolio.rs:72-80 | likewise for unrealized profit |
| Portfolio.Portfolio.OpenPositionCount | crates/core/src/portfolio.rs:57-67 | the number of symbols with a non-zero position |
| Portfolio.LedgerBalances | crates/core/src/portfolio.rs:95-120 | over every sequence of fills, cash plus cost is start plus realized less buy fees plus the stated drift |
| Portfolio.BalancedExactly | crates/core/src/portfolio.rs:95-120 | a fill drifts exactly if it sells beyond the position, or closes a short, at a price other than its cost |
| Portfolio.LongRunKeeps | crates/core/src/portfolio.rs:95-120 | long-only runs never drift, never go short, and hold an average cost exactly for non-zero positions |
| Portfolio.EquityIdentity | crates/core/src/portfolio.rs:72-120 | on every long-only run and any prices, equity is start plus realized plus unrealized less buy fees less the cost of what has no price |
| Backtest.ClosedTradePnls | crates/cli/src/backtest.rs:51-78 | the loop over the books gives the closed profits of the lots |
| Backtest.FillMovesTheLot | crates/cli/src/backtest.rs:51-78 | a fill moves its own lot only; a buy adds what was paid, a sell of nothing held is skipped |
| Backtest.SellSplitsTheLot | crates/cli/src/backtest.rs:66-75 | a sell closes its part of the lot at the lot's cost per unit, which stays the same for the rest |
| Backtest.BooksAgree | crates/cli/src/backtest.rs:51-78 | for every sequence of fills, closed profits less open cost are the ledger's change of cash less the cash the books do not see |
| Backtest.BacktestAgrees | crates/cli/src/backtest.rs:51-78 | on every long-only run both books hold the same quantities, closed profits less open cost are the cash change less the stated fees of empty sells, and without such fees a flat book's profits are the cash gained |
| Backtest.MaxDrawdownPct | crates/cli/src/backtest.rs:80-95 | the one pass finds the greatest drop from the running peak |
| Backtest.OnePassIsWorstPair | crates/cli/src/backtest.rs:80-95 | for non-negative curves that is the greatest drop between any two points, between 0 and 100 |
| Backtest.NeverOverstates | crates/cli/src/backtest.rs:80-95 | on any curve it is at most that |
| Backtest.PeakIsWorstStartExactly | crates/cli/src/backtest.rs:80-95 | at one point the peak is the worst start exactly if the value is not negative or no other positive value came before |
| Backtest.OnePassExactly | crates/cli/src/backtest.rs:80-95 | on any curve the one pass finds the greatest drop exactly if every negative point, seen from the least positive value before it, lies no deeper than some negative point below its peak |
| Backtest.NegativeEquityUnderstates | crates/cli/src/backtest.rs:80-95 | a curve on which it understates, and a negative one on which it does not |
| PaperExecutor.PaperExecutor.SetPrice | crates/execution/src/lib.rs:90-92 | the symbol's price is replaced |
| PaperExecutor.PaperExecutor.Execute | crates/execution/src/lib.rs:111-146 | no price, a division by a zero limit, too much slippage, or a fill at the spread price with its fee; only a fill counts |
| PaperExecutor.SlipIsSpread | crates/execution/src/lib.rs:118-131 | an order limited at the market slips by exactly the spread |
| PaperExecutor.ExecutedExactly | crates/execution/src/lib.rs:111-146 | an order is filled exactly if its symbol has a price and the price with the spread is within its tolerance of its limit; fee on that price |
| PaperExecutor.RoundTripCost | crates/execution/src/lib.rs:111-146 | buying and at once selling the same costs the spread and the fee twice |
| RunLoop.RunTicks | crates/cli/src/runner.rs:206-327 | from a snapshot or from fresh cash, the loop up to the first shutdown request, tick by tick: size, gate, fill, book, record |
| RunSafety.SizedExactly | crates/cli/src/runner.rs:365-408 | a decision becomes an order exactly for a positive price and amount; a buy is worth its fraction of equity, a sell is its fraction of the position |
| RunSafety.FilledExactly | crates/cli/src/runner.rs:268-300 | a tick is filled exactly if its decision becomes an order that passes the gate; the venue refuses none of them |
| RunSafety.FillHasShape | crates/cli/src/runner.rs:268-300 | a fill is the decision's order at the spread price, its quantity the decided fraction, within what the gate allows |
| RunSafety.FillCostsExactly | crates/execution/src/lib.rs:103-108 | a fill costs ten basis points of spread and five of fee |
| RunSafety.CurveIsEquity | crates/cli/src/runner.rs:320-323 | the equity curve has one point per tick: the ledger after it at the prices known then |
| RunSafety.LatestIsLastTick | crates/cli/src/runner.rs:228-245 | the price known for a symbol is that of its last tick |
| RunSafety.UnseenHasNoPrice | crates/cli/src/runner.rs:228-245 | a symbol that has not ticked has no price |
| RunSafety.TakenExactly | crates/cli/src/runner.rs:224-229 | the run takes the ticks up to the first shutdown request |
| RunSafety.RunIsSafe | crates/cli/src/runner.rs:224-411 | in every run, fresh or resumed without short positions, whatever fraction is bought, and selling at most all, no position is negative, open positions stay within the limit (or what was restored), and cash stays above the floor |
| RunSafety.FloorIsReached | crates/cli/src/runner.rs:365-411 | the floor is sharp for every order cap and price |
| RunSafety.AccountsAgree | crates/cli/src/runner.rs:224-327 | ledger, equity and the backtest's lots agree after every run from fresh cash |
| RunSafety.BuysKeepCooldown | crates/cli/src/runner.rs:268-291 | a buy is checked at least the cooldown after that symbol's last fill was recorded |
| RunSafety.LossStopsTheRun | crates/cli/src/runner.rs:268-291 | once realized profit reaches the daily loss nothing is ever filled again |
| LogScan.GetLogsBisecting | crates/chain/src/rpc.rs:109-140 | the recursion over left and right halves, request by request |
| LogScan.OkCovers | crates/chain/src/rpc.rs:109-140 | an Ok result is the node's answers to consecutive ranges that cover the range without gap or overlap |
| LogScan.OkIsDirect | crates/chain/src/rpc.rs:109-140 | from an honest node it is the direct scan of the range |
| LogScan.ScanIsBounded | crates/chain/src/rpc.rs:109-140 | at most 8191 requests |
| LogScan.SucceedsExactly | crates/chain/src/rpc.rs:109-170 | from a node that serves up to k blocks, a scan succeeds exactly up to 4096*k blocks |
| LogScan.TooWideExactly | crates/chain/src/rpc.rs:164-170 | a range is too wide exactly if the node says one of four words, in any case |
| LogScan.ErrIsAnAnswer | crates/chain/src/rpc.rs:109-140 | a failure is the node's own answer to a request in the range that could not be split |
| Price.Pow10 | crates/chain/src/univ4.rs:156-167 | the power for exponents 0 to 28, an error outside |
| Price.TenToExactly | crates/chain/src/univ4.rs:156-167 | the power written out is a one and as many noughts |
| Price.ToDecimalExactly | crates/chain/src/univ4.rs:149-154 | a decimal holds exactly the numbers below 2^96 |
| Price.PriceFromSqrtPriceX96 | crates/chain/src/univ4.rs:123-146 | the shifted, squared and scaled price |
| Price.FailsExactly | crates/chain/src/univ4.rs:123-167 | both conversions always fit; it fails exactly if the decimals differ by more than 28 |
| Price.PriceIsClose | crates/chain/src/univ4.rs:123-146 | in whole tokens of either currency, never above the exact price and short of it by less than twice the ratio over 2^48 |
| Price.PriceIsMonotone | crates/chain/src/univ4.rs:123-146 | a larger square root never gives a smaller price |
| Price.PriceIsZeroExactly | crates/chain/src/univ4.rs:123-146 | the price is zero exactly below 2^48 |
| Price.QuoteIsClose | crates/chain/src/univ4.rs:365-396 | a token that is currency 0 is quoted that price with its own decimals first, the other one its inverse |
| Price.SameAddressExactly | crates/chain/src/univ4.rs:374 | the token is recognized exactly up to the case of letters |
| Price.SidesAreReciprocal | crates/chain/src/univ4.rs:365-396 | the two sides of a pool quote exact reciprocals, and fail exactly where stated |
| AiDecider.Provider.DecideWithProvider | crates/decision/src/ai.rs:137-182 | budget, adversarial symbol, then at most two calls |
| AiDecider.ReplyReadsExactly | crates/decision/src/ai.rs:234-278 | short of a panic, a reply is taken exactly for what it says and refused exactly for what it lacks |
| AiDecider.DecisionComesFromAReply | crates/decision/src/ai.rs:137-182 | a buy or sell is decided exactly if the budget has a call left, the symbol is trusted, and the first reply says so, or the first is unreadable and the second says so |
| AiDecider.PanicComesFromAReply | crates/decision/src/ai.rs:137-182 | a decision panics exactly if a reply that is read panics |
| AiDecider.FlaggedExactly | crates/decision/src/ai.rs:295-317 | a symbol is adversarial exactly if it hides a character, holds one of seven phrases in any case, or is longer than 32 bytes and no address |
| AiDecider.AddressIsTrusted | crates/decision/src/ai.rs:290-317 | a raw chain address is never taken for adversarial text, though longer than a symbol may be |
| AiDecider.DecisionsAreFractions | crates/decision/src/ai.rs:234-278 | whatever the model replies, a decision asks for a fraction in (0, 1] |
| AiDecider.PanicsExactly | crates/decision/src/ai.rs:245-249 | cutting the reason panics exactly if byte 200 lies inside a character |
| AiDecider.Utf8LenIsLeast | crates/decision/src/ai.rs:245-249 | a character counts the fewest bytes that can hold it |
| AiDecider.AccentAtTheLimitPanics | crates/decision/src/ai.rs:245-249 | 199 plain letters and one two-byte letter panic |
| AiDecider.AsciiNeverPanics | crates/decision/src/ai.rs:245-249 | no plain ASCII reason panics |
| AiDecider.FencesComeOff | crates/decision/src/ai.rs:281-288 | a reply in a code fence of either kind reads as the bare one |
| AiDecider.AffixesComeOff | crates/decision/src/ai.rs:281-288 | a prefix or suffix is taken off once if it is there, and nothing else is |
| AiDecider.CallBudget | crates/decision/src/ai.rs:137-182 | a run exceeds its budget exactly when a retry starts on the last call, and then by one call, except at the largest 32-bit budget |
| AiDecider.BudgetIsExceeded | crates/decision/src/ai.rs:137-182 | a run that exceeds the budget, for every budget |
| AiDecider.LargestBudgetIsLifted | crates/decision/src/ai.rs:137-182 | at the largest 32-bit budget the counter wraps and the run goes on past it |

## Left out

- Decimal rounding and overflow: amounts are exact reals, so the 28-digit limit of the decimal library is not modelled.
- Hash functions and signatures: SHA-256 is an arbitrary function, and the result that needs it names the collision; key handling is not modelled.
- HTTP, authentication, roles, JSON, TOML and SQL: handlers start where the request is authorized and parsed, and a table is a sequence of rows.
- The paper/live mode toggle and its pre-flight: the order gate does not read the mode.
- A reload that cannot be read, and the file write of a config change: they leave the control as it was.
- The instant between a wait's timer firing and its ticket's drop: they are one step here; a decision in between is stored in a channel that nobody reads any more.
- 64-bit counters: the approval counter and the paper venue's fill counter are unbounded here.
- The byte-level text decoding of the event stream: chunks are text, so a character cut in two is the browser decoder's concern.
- The sort of the approval listing by creation time: only what is listed is modelled, not its order on the page.
- Price.PriceIsZeroExactly: exact reals; with 28 decimal places 1/2^96 rounds to zero, so the price is also zero for roots from 2^48 up to 2^49.
- Price.SidesAreReciprocal: exact reals; for those roots the code still quotes zero on one side.
- Price.QuoteIsClose: exact reals; it is stated from 2^48 up, and for roots below 2^49 the 28-digit decimal does not meet its bound.
- OrderParse.ParsedOrder: the decimal reader is arbitrary, so the digits a quantity may have are not modelled.
- LogScan.SucceedsExactly: non-ASCII letters of a node's error message are not case-folded.
- RunLoop.RunTicks: event publishing and the decision context shown to the decider are not modelled, and decisions are arbitrary inputs.
- Backtest report ratios (win rate, profit factor, expectancy) and formatting: each is settled by reading one expression.
- Pool discovery and ranking, the router, the sniper screen, copy trading and token roles: they would add only easy members.
