/** The pre-tool-use gate (crates/execution/src/hook.rs): every path that is not clean is a denial. */
module HookGate {
  import opened Wrappers
  import opened Orders
  import opened RiskGate
  import opened OrderParse

  datatype ToolClass = ReadOnly | PlaceOrder | CancelOrder

  type Tools = map<string, ToolClass>

  datatype ToolCall = ToolCall(name: string, arguments: Json)

  /** Why a call was denied, by the gate or later by the server. */
  datatype Reason =
    | UnknownTool(name: string)
    | RejectedOrder(error: ParseError)
    | RiskReject(reject: Reject)
    | OperatorDenied
    | TimedOut
    | BudgetReject

  datatype Outcome = Allow | Deny(reason: Reason)

  function Classify(tools: Tools, name: string): Option<ToolClass> {
    if name in tools then Some(tools[name]) else None
  }

  /** `id` is the clock-generated id of the parsed order; no explicit slippage means zero. */
  function Evaluate(read: Reader, tools: Tools, cfg: Config, call: ToolCall, c: Context, id: string): Outcome {
    match Classify(tools, call.name)
    case None => Deny(UnknownTool(call.name))
    case Some(ReadOnly) => Allow
    case Some(CancelOrder) => Allow
    case Some(PlaceOrder) => EvaluateOrder(read, cfg, call, c, id)
  }

  function EvaluateOrder(read: Reader, cfg: Config, call: ToolCall, c: Context, id: string): Outcome {
    match ParseOrder(read, call.name, call.arguments, 0.0, id)
    case Err(e) => Deny(RejectedOrder(e))
    case Ok(order) =>
      match Check(cfg, order, c)
      case Ok(_) => Allow
      case Err(r) => Deny(RiskReject(r))
  }

  /** Every denial says why: the tool is unknown, its arguments are no order, or the risk gate refused it. */
  lemma DenialSaysWhy(read: Reader, tools: Tools, cfg: Config, call: ToolCall, c: Context, id: string, why: Reason)
    ensures Evaluate(read, tools, cfg, call, c, id) == Deny(why) <==>
            match why
            case UnknownTool(name) => name == call.name && name !in tools
            case RejectedOrder(e) =>
              && call.name in tools && tools[call.name] == PlaceOrder
              && ParseOrder(read, call.name, call.arguments, 0.0, id) == Err(e)
            case RiskReject(r) =>
              && call.name in tools && tools[call.name] == PlaceOrder
              && var order := ParseOrder(read, call.name, call.arguments, 0.0, id);
                 order.Ok? && Check(cfg, order.value, c) == Err(r)
            case _ => false
  {
    hide ParseOrder, Check;
  }

  /** The call places an order, the arguments are a readable order, and the risk gate passes it. */
  predicate PassesAsOrder(read: Reader, tools: Tools, cfg: Config, call: ToolCall, c: Context, order: Order) {
    && Classify(tools, call.name) == Some(PlaceOrder)
    && ParseOrder(read, call.name, call.arguments, 0.0, order.id) == Ok(order)
    && Check(cfg, order, c).Ok?
  }

  /** The risk gate does not look at an order's id. */
  lemma CheckIgnoresId(cfg: Config, order: Order, c: Context, id: string)
    ensures Check(cfg, order.(id := id), c) == Check(cfg, order, c)
  {
    hide Worth, Share, WholeSeconds, AsSigned;
  }

  /**
   An order call is allowed exactly if the order it carries passes, and then any second reading of
   the same arguments succeeds, gives the same order up to its id, and passes too.
   */
  lemma SecondReadingAgrees(read: Reader, tools: Tools, cfg: Config, call: ToolCall, c: Context,
                            id1: string, id2: string)
    requires Classify(tools, call.name) == Some(PlaceOrder)
    ensures Evaluate(read, tools, cfg, call, c, id1) == Allow <==>
            var again := ParseOrder(read, call.name, call.arguments, 0.0, id2);
            again.Ok? && PassesAsOrder(read, tools, cfg, call, c, again.value)
  {
    hide ParseOrder, Check;
    SameOrderEitherTime(read, call.name, call.arguments, 0.0, id1, id2);
    var first, again := ParseOrder(read, call.name, call.arguments, 0.0, id1),
                        ParseOrder(read, call.name, call.arguments, 0.0, id2);
    if first.Ok? {
      CheckIgnoresId(cfg, first.value, c, id2);
      ParsedId(read, call.name, call.arguments, id2);
    }
  }

  lemma ParsedId(read: Reader, tool: string, args: Json, id: string)
    ensures var r := ParseOrder(read, tool, args, 0.0, id); r.Ok? ==> r.value.id == id
  {
    hide SymbolOf, SideOf, OptionalDecimal, Size;
  }

  /** Tools that are not listed are denied; reads and cancels pass even when everything is stopped. */
  lemma ReadsAndCancelsAlwaysPass(read: Reader, tools: Tools, cfg: Config, call: ToolCall, c: Context, id: string)
    ensures call.name !in tools ==> Evaluate(read, tools, cfg, call, c, id).Deny?
    ensures call.name in tools && tools[call.name] != PlaceOrder ==> Evaluate(read, tools, cfg, call, c, id) == Allow
    ensures call.name in tools && tools[call.name] == PlaceOrder && cfg.killSwitch ==>
            Evaluate(read, tools, cfg, call, c, id).Deny?
  {
    hide ParseOrder;
  }
}
