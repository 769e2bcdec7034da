/**
 Reading an agent's order-tool arguments (crates/execution/src/order_parse.rs). JSON values are taken
 as parsed; the decimal reader of a cleaned string is a parameter.
 */
module OrderParse {
  import opened Wrappers
  import opened Seqs
  import opened Orders
  import opened Text

  /** A number carries what the decimal reader makes of its text. */
  datatype Json = Null | Number(decimal: Option<real>) | Str(s: string) | Object(fields: map<string, Json>) | Other

  type Reader = string -> Option<real>

  datatype ParseError =
    | NotAnObject
    | MissingField(name: string)
    | BadField(field: string)
    | UnknownSide(side: string)
    | CannotSize

  // ---- text ----

  function DropDollars(s: string): string {
    if s != "" && s[0] == '$' then DropDollars(s[1..]) else s
  }

  function Kept(c: char): string {
    if c == ',' || c == '_' then "" else [c]
  }

  function DropSeparators(s: string): string {
    if s == "" then "" else Kept(s[0]) + DropSeparators(s[1..])
  }

  // ---- fields ----

  function ValueToDecimal(read: Reader, v: Json): Option<real> {
    match v
    case Number(d) => d
    case Str(s) => read(Trim(DropSeparators(DropDollars(Trim(s)))))
    case _ => None
  }

  /** The first of the keys that is present and not null; an error if it is not a number. */
  function OptionalDecimal(read: Reader, o: map<string, Json>, keys: seq<string>): Result<Option<real>, ParseError> {
    if keys == [] then Ok(None)
    else if keys[0] !in o || o[keys[0]] == Null then OptionalDecimal(read, o, keys[1..])
    else
      match ValueToDecimal(read, o[keys[0]])
      case Some(d) => Ok(Some(d))
      case None => Err(BadField(keys[0]))
  }

  /** The first key that is present, even if null; `None` unless that one is a string. */
  function FirstString(o: map<string, Json>, first: string, second: string): Option<string> {
    var v := if first in o then o[first] else if second in o then o[second] else Null;
    if v.Str? then Some(v.s) else None
  }

  function SymbolOf(o: map<string, Json>): Result<string, ParseError> {
    match FirstString(o, "symbol", "ticker")
    case Some(s) => if Trim(s) == "" then Err(MissingField("symbol")) else Ok(Upper(Trim(s)))
    case None => Err(MissingField("symbol"))
  }

  function SideNamed(s: string): Option<Side> {
    if s in ["buy", "bought", "long"] then Some(Buy)
    else if s in ["sell", "sold", "short"] then Some(Sell)
    else None
  }

  function SideOf(o: map<string, Json>): Result<Side, ParseError> {
    match FirstString(o, "side", "action")
    case None => Err(MissingField("side"))
    case Some(s) =>
      match SideNamed(Lower(Trim(s)))
      case Some(side) => Ok(side)
      case None => Err(UnknownSide(Lower(Trim(s))))
  }

  function Size(quantity: Option<real>, notional: Option<real>, limit: Option<real>): Result<real, ParseError> {
    match quantity
    case Some(q) => Ok(q)
    case None =>
      match notional
      case Some(n) => if limit.Some? && limit.value > 0.0 then Ok(n / limit.value) else Err(CannotSize)
      case None => Err(MissingField("quantity"))
  }

  const LIMIT_KEYS := ["limit_price", "price", "limit"]
  const QUANTITY_KEYS := ["quantity", "qty", "shares", "amount"]
  const NOTIONAL_KEYS := ["notional", "notional_value", "dollars"]
  const SLIPPAGE_KEYS := ["max_slippage", "slippage"]

  function ParseOrder(read: Reader, tool: string, args: Json, defaultSlippage: real, id: string)
    : Result<Order, ParseError>
  {
    if !args.Object? then Err(NotAnObject)
    else
      var o := args.fields;
      var symbol :- SymbolOf(o);
      var side :- SideOf(o);
      var limit :- OptionalDecimal(read, o, LIMIT_KEYS);
      var quantity :- OptionalDecimal(read, o, QUANTITY_KEYS);
      var notional :- OptionalDecimal(read, o, NOTIONAL_KEYS);
      var qty :- Size(quantity, notional, limit);
      if qty <= 0.0 then Err(BadField("quantity"))
      else
        var given :- OptionalDecimal(read, o, SLIPPAGE_KEYS);
        var slippage := if given.Some? then given.value else defaultSlippage;
        Ok(Order(id, symbol, side, qty, limit, if slippage > 0.0 then slippage else 0.0, RobinhoodMcp,
                 "agent tool call: " + tool))
  }

  // ---- what a parsed order promises ----

  /**
   The generated id is the only part that differs between two readings of the same arguments: the
   same arguments give the same error, or the same order up to its id.
   */
  lemma SameOrderEitherTime(read: Reader, tool: string, args: Json, slippage: real, id1: string, id2: string)
    ensures var a, b := ParseOrder(read, tool, args, slippage, id1), ParseOrder(read, tool, args, slippage, id2);
            && (a.Ok? <==> b.Ok?)
            && (a.Ok? ==> b.value == a.value.(id := id2))
            && (a.Err? ==> a == b)
  {
    hide SymbolOf, SideOf, OptionalDecimal, Size;
  }

  lemma SizeTimesPrice(n: real, p: real)
    requires p > 0.0
    ensures (n / p) * p == n
  {}

  /**
   A parsed order has a symbol without lower-case letters, a positive quantity and a non-negative
   slippage; it has the quantity given, or, if none is given, the one that costs the notional given
   at the limit price given.
   */
  lemma ParsedOrder(read: Reader, tool: string, args: Json, slippage: real, id: string)
    requires ParseOrder(read, tool, args, slippage, id).Ok?
    ensures args.Object?
    ensures var o := ParseOrder(read, tool, args, slippage, id).value;
            var quantity := OptionalDecimal(read, args.fields, QUANTITY_KEYS);
            var notional := OptionalDecimal(read, args.fields, NOTIONAL_KEYS);
            && o.symbol != "" && NoLowercase(o.symbol)
            && o.qty > 0.0 && o.maxSlippage >= 0.0 && o.id == id
            && quantity.Ok? && notional.Ok?
            && (quantity.value.Some? ==> o.qty == quantity.value.value)
            && (quantity.value.None? ==>
                  notional.value.Some? && o.limitPrice.Some? && o.qty * o.limitPrice.value == notional.value.value)
  {
    hide OptionalDecimal, SideOf, Trim, Upper, NoLowercase, SameLetters;
    var quantity := OptionalDecimal(read, args.fields, QUANTITY_KEYS);
    var notional := OptionalDecimal(read, args.fields, NOTIONAL_KEYS);
    var limit := OptionalDecimal(read, args.fields, LIMIT_KEYS);
    CaseExactly(Trim(FirstString(args.fields, "symbol", "ticker").value));
    if quantity.value.None? { SizeTimesPrice(notional.value.value, limit.value.value); }
  }

  // ---- numbers in text ----

  lemma {:induction false} DollarsComeOff(s: string) returns (dollars: string)
    ensures s == dollars + DropDollars(s) && forall i :: 0 <= i < |dollars| ==> dollars[i] == '$'
    ensures DropDollars(s) != "" ==> DropDollars(s)[0] != '$'
  {
    dollars := "";
    if s != "" && s[0] == '$' {
      dollars := DollarsComeOff(s[1..]);
      dollars := "$" + dollars;
    }
  }

  lemma {:induction false} SeparatorsPiecewise(a: string, b: string)
    ensures DropSeparators(a + b) == DropSeparators(a) + DropSeparators(b)
  {
    hide Kept;
    if a == "" {
      assert a + b == b;
    } else {
      SeparatorsPiecewise(a[1..], b);
      assert (a + b)[1..] == a[1..] + b;
      Assoc(Kept(a[0]), DropSeparators(a[1..]), DropSeparators(b));
    }
  }

  /** Exactly the commas and underscores go, wherever they stand. */
  lemma SeparatorsComeOut(a: string, c: char, b: string)
    ensures DropSeparators(a + [c] + b) ==
            DropSeparators(a) + (if c == ',' || c == '_' then "" else [c]) + DropSeparators(b)
    ensures DropSeparators("") == ""
  {
    assert [c][1..] == "";
    assert DropSeparators([c]) == Kept(c);
    hide DropSeparators;
    SeparatorsPiecewise(a + [c], b);
    SeparatorsPiecewise(a, [c]);
  }

  /**
   A number may be text: white space around it, dollar signs in front and separators inside are taken
   off before it is read. Nothing but numbers and text is a number.
   */
  lemma NumberTextExactly(read: Reader, v: Json) returns (a: string, dollars: string, body: string, b: string)
    ensures v.Number? ==> ValueToDecimal(read, v) == v.decimal
    ensures v.Str? ==>
              && v.s == a + dollars + body + b && AllSpace(a) && AllSpace(b)
              && (forall i :: 0 <= i < |dollars| ==> dollars[i] == '$') && (body != "" ==> body[0] != '$')
              && (dollars + body != "" ==>
                    !IsSpace((dollars + body)[0]) && !IsSpace((dollars + body)[|dollars + body| - 1]))
              && ValueToDecimal(read, v) == read(Trim(DropSeparators(body)))
    ensures !v.Number? && !v.Str? ==> ValueToDecimal(read, v) == None
  {
    hide Trim, IsSpace, AllSpace, DropSeparators, DropDollars;
    a, dollars, body, b := "", "", "", "";
    if v.Str? {
      a, b := TrimExactly(v.s);
      dollars := DollarsComeOff(Trim(v.s));
      body := DropDollars(Trim(v.s));
      Assoc(a, dollars, body);
    }
  }

  // ---- exactly what is read ----

  /** The text under the first of two keys that is there; one that holds no text counts as none. */
  function TextUnder(o: map<string, Json>, first: string, second: string): Option<string> {
    if first in o then (if o[first].Str? then Some(o[first].s) else None)
    else if second in o && o[second].Str? then Some(o[second].s)
    else None
  }

  predicate Blank(o: map<string, Json>, key: string) {
    key !in o || o[key] == Null
  }

  /** The first of the keys that is not blank holds this number; `None` if all are blank. */
  predicate Gives(read: Reader, o: map<string, Json>, keys: seq<string>, d: Option<real>) {
    match d
    case None => forall i :: 0 <= i < |keys| ==> Blank(o, keys[i])
    case Some(x) =>
      exists i :: && 0 <= i < |keys| && !Blank(o, keys[i]) && ValueToDecimal(read, o[keys[i]]) == Some(x)
                  && forall j :: 0 <= j < i ==> Blank(o, keys[j])
  }

  /** The key whose value is no number although it is the first of its kind that is not blank. */
  predicate Garbled(read: Reader, o: map<string, Json>, keys: seq<string>, key: string) {
    exists i :: && 0 <= i < |keys| && keys[i] == key && !Blank(o, key) && ValueToDecimal(read, o[key]).None?
                && forall j :: 0 <= j < i ==> Blank(o, keys[j])
  }

  lemma {:induction false} OptionalDecimalExactly(read: Reader, o: map<string, Json>, keys: seq<string>)
    ensures var r := OptionalDecimal(read, o, keys);
            && (r.Ok? ==> Gives(read, o, keys, r.value))
            && (r.Err? ==> r.error.BadField? && Garbled(read, o, keys, r.error.field))
  {
    hide ValueToDecimal;
    if keys != [] && Blank(o, keys[0]) {
      OptionalDecimalExactly(read, o, keys[1..]);
      var r := OptionalDecimal(read, o, keys[1..]);
      if r.Ok? && r.value.Some? {
        var i :| 0 <= i < |keys[1..]| && !Blank(o, keys[1..][i])
                 && ValueToDecimal(read, o[keys[1..][i]]) == r.value
                 && forall j :: 0 <= j < i ==> Blank(o, keys[1..][j]);
        assert keys[i + 1] == keys[1..][i];
        assert forall j :: 0 < j < i + 1 ==> keys[j] == keys[1..][j - 1];
      } else if r.Ok? {
        assert forall j :: 0 < j < |keys| ==> keys[j] == keys[1..][j - 1];
      } else {
        var i :| 0 <= i < |keys[1..]| && keys[1..][i] == r.error.field && !Blank(o, r.error.field)
                 && ValueToDecimal(read, o[r.error.field]).None?
                 && forall j :: 0 <= j < i ==> Blank(o, keys[1..][j]);
        assert keys[i + 1] == keys[1..][i];
        assert forall j :: 0 < j < i + 1 ==> keys[j] == keys[1..][j - 1];
      }
    }
  }

  lemma OneIsGiven(read: Reader, o: map<string, Json>, keys: seq<string>, a: Option<real>, b: Option<real>)
    requires Gives(read, o, keys, a) && Gives(read, o, keys, b)
    ensures a == b
  {
    hide ValueToDecimal, Blank;
  }

  lemma GivenIsNotGarbled(read: Reader, o: map<string, Json>, keys: seq<string>, d: Option<real>, key: string)
    requires Gives(read, o, keys, d)
    ensures !Garbled(read, o, keys, key)
  {
    hide ValueToDecimal, Blank;
  }

  /** What is read of these keys is what they give, and reading fails exactly if they give nothing. */
  lemma ReadsWhatIsGiven(read: Reader, o: map<string, Json>, keys: seq<string>, d: Option<real>)
    ensures OptionalDecimal(read, o, keys) == Ok(d) <==> Gives(read, o, keys, d)
  {
    hide Gives, Garbled, OptionalDecimal;
    OptionalDecimalExactly(read, o, keys);
    var r := OptionalDecimal(read, o, keys);
    if Gives(read, o, keys, d) {
      if r.Ok? { OneIsGiven(read, o, keys, d, r.value); } else { GivenIsNotGarbled(read, o, keys, d, r.error.field); }
    }
  }

  /** The order has the quantity given, or else the one that costs the notional given at a positive limit price. */
  predicate SizedBy(order: Order, quantity: Option<real>, notional: Option<real>) {
    && order.qty > 0.0
    && match quantity
       case Some(q) => order.qty == q
       case None =>
         && notional.Some? && order.limitPrice.Some? && order.limitPrice.value > 0.0
         && order.qty * order.limitPrice.value == notional.value
  }

  /** The order is what the arguments say. */
  ghost predicate Describes(read: Reader, tool: string, args: Json, defaultSlippage: real, id: string, order: Order) {
    && args.Object?
    && var o := args.fields;
       var symbol, side := TextUnder(o, "symbol", "ticker"), TextUnder(o, "side", "action");
       && order.id == id && order.venue == RobinhoodMcp && order.reason == "agent tool call: " + tool
       && symbol.Some? && order.symbol == Upper(Trim(symbol.value)) != ""
       && side.Some?
       && Lower(Trim(side.value)) in (if order.side.Buy? then ["buy", "bought", "long"] else ["sell", "sold", "short"])
       && Gives(read, o, ["limit_price", "price", "limit"], order.limitPrice)
       && (exists q, n ::
             && Gives(read, o, ["quantity", "qty", "shares", "amount"], q)
             && Gives(read, o, ["notional", "notional_value", "dollars"], n)
             && SizedBy(order, q, n))
       && (exists s ::
             && Gives(read, o, ["max_slippage", "slippage"], s)
             && var slippage := if s.Some? then s.value else defaultSlippage;
                order.maxSlippage == if slippage > 0.0 then slippage else 0.0)
  }

  lemma SizeExactly(q: Option<real>, n: Option<real>, limit: Option<real>, order: Order)
    requires order.limitPrice == limit
    ensures Size(q, n, limit) == Ok(order.qty) && order.qty > 0.0 <==> SizedBy(order, q, n)
  {
    if q.None? && n.Some? && limit.Some? && limit.value > 0.0 {
      SizeTimesPrice(n.value, limit.value);
      if order.qty * limit.value == n.value { DivideBack(order.qty, limit.value, n.value); }
    }
  }

  lemma DivideBack(x: real, d: real, y: real)
    requires d != 0.0 && x * d == y
    ensures y / d == x
  {}

  /** Arguments are read as an order exactly if it is what they say. */
  lemma ParsedExactly(read: Reader, tool: string, args: Json, slippage: real, id: string, order: Order)
    ensures ParseOrder(read, tool, args, slippage, id) == Ok(order) <==>
            Describes(read, tool, args, slippage, id, order)
  {
    hide OptionalDecimal, Gives, Trim, Upper, Lower, Size, SizedBy;
    if args.Object? {
      var o := args.fields;
      var r := ParseOrder(read, tool, args, slippage, id);
      forall keys, d
        ensures OptionalDecimal(read, o, keys) == Ok(d) <==> Gives(read, o, keys, d)
      {
        ReadsWhatIsGiven(read, o, keys, d);
      }
      forall q, n
        ensures Size(q, n, order.limitPrice) == Ok(order.qty) && order.qty > 0.0 <==> SizedBy(order, q, n)
      {
        SizeExactly(q, n, order.limitPrice, order);
      }
      UpperOfNothing();
      if r == Ok(order) {
        var q := OptionalDecimal(read, o, QUANTITY_KEYS).value;
        var n := OptionalDecimal(read, o, NOTIONAL_KEYS).value;
        var s := OptionalDecimal(read, o, SLIPPAGE_KEYS).value;
        assert Gives(read, o, QUANTITY_KEYS, q) && Gives(read, o, NOTIONAL_KEYS, n) && SizedBy(order, q, n);
        assert Gives(read, o, SLIPPAGE_KEYS, s);
      }
    }
  }

  lemma UpperOfNothing()
    ensures forall s :: Upper(s) == "" <==> s == ""
  {
    hide Upper;
  }

  /** Whatever is refused is refused for a fault that is there. */
  lemma FaultsAreReal(read: Reader, tool: string, args: Json, slippage: real, id: string)
    ensures var r := ParseOrder(read, tool, args, slippage, id);
            r.Err? ==>
              match r.error
              case NotAnObject => !args.Object?
              case UnknownSide(word) =>
                && args.Object?
                && var side := TextUnder(args.fields, "side", "action");
                   && side.Some? && word == Lower(Trim(side.value))
                   && word !in ["buy", "bought", "long", "sell", "sold", "short"]
              case MissingField(name) =>
                && args.Object?
                && var o := args.fields;
                   if name == "symbol" then
                     var symbol := TextUnder(o, "symbol", "ticker");
                     symbol.None? || Trim(symbol.value) == ""
                   else if name == "side" then TextUnder(o, "side", "action").None?
                   else name == "quantity" && Gives(read, o, QUANTITY_KEYS, None) && Gives(read, o, NOTIONAL_KEYS, None)
              case CannotSize =>
                && args.Object?
                && var o := args.fields;
                   && Gives(read, o, QUANTITY_KEYS, None) && !Gives(read, o, NOTIONAL_KEYS, None)
                   && forall p :: p > 0.0 ==> !Gives(read, o, LIMIT_KEYS, Some(p))
              case BadField(key) =>
                && args.Object?
                && var o := args.fields;
                   || Garbled(read, o, LIMIT_KEYS, key) || Garbled(read, o, QUANTITY_KEYS, key)
                   || Garbled(read, o, NOTIONAL_KEYS, key) || Garbled(read, o, SLIPPAGE_KEYS, key)
                   || (key == "quantity"
                       && (|| Gives(read, o, QUANTITY_KEYS, None)
                           || exists q :: q <= 0.0 && Gives(read, o, QUANTITY_KEYS, Some(q))))
  {
    hide OptionalDecimal, Gives, Garbled, Trim, Upper, Lower, Blank, ValueToDecimal;
    if args.Object? {
      var o := args.fields;
      forall keys
        ensures var r := OptionalDecimal(read, o, keys);
                if r.Ok? then Gives(read, o, keys, r.value)
                else r.error.BadField? && Garbled(read, o, keys, r.error.field)
      {
        OptionalDecimalExactly(read, o, keys);
      }
      forall keys, d
        ensures OptionalDecimal(read, o, keys) == Ok(d) <==> Gives(read, o, keys, d)
      {
        ReadsWhatIsGiven(read, o, keys, d);
      }
    }
  }

  /** The plainest arguments: buy a quantity of X at a limit price. */
  function PlainArguments(qty: real, limit: real): Json {
    Object(map["symbol" := Str("X"), "side" := Str("buy"), "quantity" := Number(Some(qty)),
               "limit_price" := Number(Some(limit))])
  }

  function PlainOrder(tool: string, qty: real, limit: real, id: string): Order {
    Order(id, "X", Buy, qty, Some(limit), 0.0, RobinhoodMcp, "agent tool call: " + tool)
  }

  lemma PlainWords()
    ensures Upper(Trim("X")) == "X" && Trim("X") == "X"
    ensures Lower(Trim("buy")) == "buy"
  {
    assert Trim("X") == "X";
    assert Trim("buy") == "buy";
    assert Lower("uy") == "uy";
  }

  /** They are read as written, for every positive quantity and for every limit price, negative ones included. */
  lemma PlainArgumentsAreRead(read: Reader, tool: string, qty: real, limit: real, id: string)
    requires qty > 0.0
    ensures ParseOrder(read, tool, PlainArguments(qty, limit), 0.0, id) == Ok(PlainOrder(tool, qty, limit, id))
  {
    hide Trim, Upper, Lower;
    PlainWords();
    var o := PlainArguments(qty, limit).fields;
    assert SymbolOf(o) == Ok("X");
    assert SideOf(o) == Ok(Buy);
    assert OptionalDecimal(read, o, LIMIT_KEYS) == Ok(Some(limit));
    assert OptionalDecimal(read, o, QUANTITY_KEYS) == Ok(Some(qty));
    Missing(read, o, NOTIONAL_KEYS);
    Missing(read, o, SLIPPAGE_KEYS);
  }

  lemma {:induction false} Missing(read: Reader, o: map<string, Json>, keys: seq<string>)
    requires forall i :: 0 <= i < |keys| ==> keys[i] !in o
    ensures OptionalDecimal(read, o, keys) == Ok(None)
  {
    if keys != [] { Missing(read, o, keys[1..]); }
  }
}
