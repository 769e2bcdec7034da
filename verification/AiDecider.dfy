/**
 The model-backed decider (crates/decision/src/ai.rs): reading a reply into a decision, one retry, and
 the call budget of a run. The replies and the JSON reader are arbitrary.
 */
module AiDecider {
  import opened Wrappers
  import opened Seqs
  import opened Text
  import opened RunLoop

  /** The fields of a reply that reads as the expected JSON. */
  datatype AiOutput = AiOutput(action: string, fraction: Option<real>, reason: string)

  type JsonReader = string -> Option<AiOutput>

  datatype Rejection = NotJson | NotInUniverse | NoFraction | BadFraction | UnknownAction

  /** `Crashed` is a panic of `parse_output`. */
  datatype Parsed = Accepted(decision: Decision) | Rejected(why: Rejection) | Crashed

  // ---- fences ----

  predicate StartsWith(s: string, prefix: string) {
    prefix <= s
  }

  function StripPrefix(s: string, prefix: string): Option<string> {
    if StartsWith(s, prefix) then Some(s[|prefix|..]) else None
  }

  function StripSuffix(s: string, suffix: string): string {
    if |s| >= |suffix| && s[|s| - |suffix|..] == suffix then s[..|s| - |suffix|] else s
  }

  /** What stands in front or at the end is taken off once, and nothing else is. */
  lemma AffixesComeOff(s: string, affix: string)
    ensures StripPrefix(affix + s, affix) == Some(s) && StripSuffix(s + affix, affix) == s
    ensures StripPrefix(s, affix).None? <==> !(affix <= s)
    ensures (forall a :: s != a + affix) ==> StripSuffix(s, affix) == s
  {
    Splits(affix, s);
    Splits(s, affix);
    if |s| >= |affix| { Rejoin(s, |s| - |affix|); }
  }

  function StripFences(text: string): string {
    var t := Trim(text);
    var inner :=
      match StripPrefix(t, "```json")
      case Some(r) => r
      case None =>
        match StripPrefix(t, "```")
        case Some(r) => r
        case None => t;
    Trim(StripSuffix(inner, "```"))
  }

  // ---- the reason's length limit, in UTF-8 bytes ----

  const REASON_LIMIT: nat := 200

  function Utf8Len(c: char): (n: nat)
    ensures 1 <= n <= 4
  {
    if c as int < 0x80 then 1 else if c as int < 0x800 then 2 else if c as int < 0x10000 then 3 else 4
  }

  /** What `n` bytes can hold in UTF-8: 7, 11, 16 or 21 bits. */
  predicate FitsIn(c: char, n: nat) {
    (c as int) < if n == 1 then 128 else if n == 2 then 2048 else if n == 3 then 65536 else 2097152
  }

  /** A character takes the fewest bytes that can hold it. */
  lemma Utf8LenIsLeast(c: char)
    ensures FitsIn(c, Utf8Len(c)) && forall n :: 1 <= n < Utf8Len(c) ==> !FitsIn(c, n)
  {}

  function ByteCount(s: string): nat {
    if s == "" then 0 else Utf8Len(s[0]) + ByteCount(s[1..])
  }

  /** Byte `n` of the text is where a character starts, or its end. */
  predicate Boundary(s: string, n: nat) {
    n == 0 || (s != "" && n >= Utf8Len(s[0]) && Boundary(s[1..], n - Utf8Len(s[0])))
  }

  /** Cutting the reason panics if byte 200 lies inside a character. */
  predicate CanTruncate(s: string) {
    ByteCount(s) < REASON_LIMIT || Boundary(s, REASON_LIMIT)
  }

  lemma {:induction false} AsciiBoundary(s: string, n: nat)
    requires (forall i :: 0 <= i < |s| ==> s[i] as int < 0x80) && n <= ByteCount(s)
    ensures Boundary(s, n)
  {
    if n > 0 {
      AsciiBoundary(s[1..], n - 1);
    }
  }

  /** A boundary is where some prefix of the characters ends. */
  lemma {:induction false} BoundaryIsPrefix(s: string, n: nat)
    ensures Boundary(s, n) <==> exists k :: 0 <= k <= |s| && ByteCount(s[..k]) == n
  {
    if n == 0 {
      assert ByteCount(s[..0]) == n;
    } else if s == "" {
      assert forall k :: 0 <= k <= |s| ==> s[..k] == "";
    } else {
      forall k | 1 <= k <= |s|
        ensures ByteCount(s[..k]) == Utf8Len(s[0]) + ByteCount(s[1..][..k - 1])
      {
        assert s[..k][1..] == s[1..][..k - 1];
      }
      if n >= Utf8Len(s[0]) {
        BoundaryIsPrefix(s[1..], n - Utf8Len(s[0]));
        if Boundary(s, n) {
          var j :| 0 <= j <= |s[1..]| && ByteCount(s[1..][..j]) == n - Utf8Len(s[0]);
          assert ByteCount(s[..j + 1]) == n;
        }
        if k :| 0 <= k <= |s| && ByteCount(s[..k]) == n {
          assert ByteCount(s[1..][..k - 1]) == n - Utf8Len(s[0]);
        }
      }
    }
  }

  // ---- symbols that are not trusted ----

  const SYMBOL_LIMIT: nat := 32

  const MARKERS: seq<string> := [
    "ignore previous", "ignore above", "disregard", "system:", "you are now", "new instructions", "override"]

  /** Unicode control characters, and the zero-width and direction marks. */
  predicate IsHidden(c: char) {
    || (c as int) < 0x20 || 0x7f <= (c as int) < 0xa0
    || '\U{200B}' <= c <= '\U{200F}'
  }

  predicate LooksLikeInjection(s: string) {
    || (exists i :: 0 <= i < |s| && IsHidden(s[i]))
    || (exists m :: 0 <= m < |MARKERS| && Contains(Lower(s), MARKERS[m]))
  }

  predicate IsHexDigit(c: char) {
    '0' <= c <= '9' || 'a' <= c <= 'f' || 'A' <= c <= 'F'
  }

  /** 42 bytes, "0x", and hex digits only; then bytes and characters are the same. */
  predicate LooksLikeChainAddress(s: string) {
    ByteCount(s) == 42 && "0x" <= s && forall i :: 2 <= i < |s| ==> IsHexDigit(s[i])
  }

  predicate Flagged(symbol: string) {
    LooksLikeInjection(symbol) || (ByteCount(symbol) > SYMBOL_LIMIT && !LooksLikeChainAddress(symbol))
  }

  predicate OfAddress(c: char) {
    '0' <= c <= '9' || 'a' <= c <= 'f' || c == 'x'
  }

  /** Every marker has a letter that no address has, at this place. */
  lemma MarkersAreNotOfAddresses(m: nat) returns (at: nat)
    requires m < |MARKERS|
    ensures at < |MARKERS[m]| && !OfAddress(MARKERS[m][at])
  {
    at := if m == 2 || m == 6 then 1 else 0;
  }

  /** A raw on-chain address is never taken for adversarial text, although it is longer than a symbol may be. */
  lemma AddressIsTrusted(s: string)
    requires LooksLikeChainAddress(s)
    ensures !Flagged(s) && ByteCount(s) > SYMBOL_LIMIT
  {
    hide ByteCount, Lower;
    var low := Lower(s);
    forall i | 0 <= i < |s|
      ensures OfAddress(low[i]) && !IsHidden(s[i])
    {
      CaseAt(s, i);
    }
    forall m | 0 <= m < |MARKERS|
      ensures !Contains(low, MARKERS[m])
    {
      var at := MarkersAreNotOfAddresses(m);
      NotContained(low, MARKERS[m], at);
    }
  }

  lemma NotContained(low: string, part: string, at: nat)
    requires forall i :: 0 <= i < |low| ==> OfAddress(low[i])
    requires at < |part| && !OfAddress(part[at])
    ensures !Contains(low, part)
  {
    hide OfAddress;
    forall i | 0 <= i <= |low|
      ensures !(part <= low[i..])
    {
      if |part| <= |low| - i { assert low[i..][at] == low[i + at]; }
    }
  }

  lemma {:induction false} AsciiBytes(s: string)
    requires forall i :: 0 <= i < |s| ==> s[i] as int < 0x80
    ensures ByteCount(s) == |s|
  {
    if s != "" { AsciiBytes(s[1..]); }
  }

  /** A character that is not shown: a control character, or a zero-width or direction mark. */
  predicate NotShown(c: char) {
    var n := c as int;
    n <= 0x1f || 0x7f <= n <= 0x9f || 0x200b <= n <= 0x200f
  }

  const INJECTED: seq<string> := ["ignore previous", "ignore above", "disregard", "system:", "you are now",
                                  "new instructions", "override"]

  lemma InjectionExactly(s: string)
    ensures LooksLikeInjection(s) <==>
            || (exists i :: 0 <= i < |s| && NotShown(s[i]))
            || (exists m, i: nat :: 0 <= m < |INJECTED| && OccursAt(s, INJECTED[m], i))
  {
    assert INJECTED == MARKERS;
    forall m | 0 <= m < |MARKERS|
      ensures Contains(Lower(s), MARKERS[m]) <==> exists i: nat :: OccursAt(s, INJECTED[m], i)
    {
      MarkersAreLowerCase(m);
      FoundInAnyCase(s, MARKERS[m]);
    }
    hide Lower, Contains, OccursAt;
    assert forall c :: IsHidden(c) <==> NotShown(c);
  }

  lemma MarkersAreLowerCase(m: nat)
    requires m < |MARKERS|
    ensures NoUppercase(MARKERS[m])
  {}

  /**
   A symbol is taken for adversarial exactly if it holds a character that is not shown, or one of seven
   phrases in any case, or is longer than 32 bytes and no address of "0x" and 40 hex digits.
   */
  lemma FlaggedExactly(s: string)
    ensures Flagged(s) <==>
            || (exists i :: 0 <= i < |s| && NotShown(s[i]))
            || (exists m, i: nat :: 0 <= m < |INJECTED| && OccursAt(s, INJECTED[m], i))
            || (ByteCount(s) > 32
                && !(|s| == 42 && s[0] == '0' && s[1] == 'x'
                     && forall i :: 2 <= i < 42 ==> '0' <= s[i] <= '9' || 'a' <= s[i] <= 'f' || 'A' <= s[i] <= 'F'))
  {
    InjectionExactly(s);
    hide LooksLikeInjection, OccursAt, ByteCount;
    if "0x" <= s && forall i :: 2 <= i < |s| ==> IsHexDigit(s[i]) {
      AsciiBytes(s);
    }
  }

  // ---- one reply ----

  function ParseOutput(read: JsonReader, text: string, symbol: string, universe: seq<string>): Parsed {
    match read(StripFences(text))
    case None => Rejected(NotJson)
    case Some(out) =>
      if universe != [] && symbol !in universe then Rejected(NotInUniverse)
      else if !CanTruncate(out.reason) then Crashed
      else if out.action == "hold" then Accepted(Hold)
      else if out.action == "buy" || out.action == "sell" then
        if out.fraction.None? then Rejected(NoFraction)
        else
          var f := out.fraction.value;
          if f <= 0.0 || f > 1.0 then Rejected(BadFraction)
          else Accepted(if out.action == "buy" then BuyFraction(f) else SellFraction(f))
      else Rejected(UnknownAction)
  }

  // ---- one decision ----

  datatype Reply = Completion(text: string) | ProviderError

  datatype Config = Config(maxCallsPerRun: nat, universe: seq<string>)

  /** One call of the decider: the symbol, and the replies to come. */
  datatype Question = Question(symbol: string, first: Reply, second: Reply)

  datatype Answer = Made(decision: Decision) | Panicked

  const TWO_32: nat := 0x1_0000_0000

  predicate Exhausted(cfg: Config, calls: nat) {
    cfg.maxCallsPerRun > 0 && calls >= cfg.maxCallsPerRun
  }

  function Read(read: JsonReader, cfg: Config, q: Question, r: Reply): Parsed {
    match r
    case ProviderError => Accepted(Hold)
    case Completion(text) => ParseOutput(read, text, q.symbol, cfg.universe)
  }

  function AnswerOf(p: Parsed): Answer {
    match p
    case Accepted(d) => Made(d)
    case Rejected(_) => Made(Hold)
    case Crashed => Panicked
  }

  /** The answer and the call counter afterwards, a wrapping 32-bit number. */
  function Decide(read: JsonReader, cfg: Config, calls: nat, q: Question): (Answer, nat) {
    if Exhausted(cfg, calls) || Flagged(q.symbol) then (Made(Hold), calls)
    else
      var first := Read(read, cfg, q, q.first);
      if !first.Rejected? then (AnswerOf(first), (calls + 1) % TWO_32)
      else (AnswerOf(Read(read, cfg, q, q.second)), (calls + 2) % TWO_32)
  }

  class Provider {
    const cfg: Config
    var calls: nat

    constructor (cfg: Config)
      ensures this.cfg == cfg && calls == 0
    {
      this.cfg := cfg;
      calls := 0;
    }

    method DecideWithProvider(read: JsonReader, q: Question) returns (a: Answer)
      modifies this
      ensures (a, calls) == Decide(read, cfg, old(calls), q)
    {
      hide ParseOutput, StripFences, LooksLikeInjection, LooksLikeChainAddress, ByteCount, IsHidden, Contains, Lower;
      if cfg.maxCallsPerRun > 0 && calls >= cfg.maxCallsPerRun {
        return Made(Hold);
      }
      var injection := LooksLikeInjection(q.symbol);
      if injection || (ByteCount(q.symbol) > SYMBOL_LIMIT && !LooksLikeChainAddress(q.symbol)) {
        return Made(Hold);
      }
      for attempt := 0 to 2
        invariant calls == if attempt == 0 then old(calls) else (old(calls) + attempt) % TWO_32
        invariant attempt >= 1 ==> Read(read, cfg, q, q.first).Rejected?
        invariant attempt == 2 ==> Read(read, cfg, q, q.second).Rejected?
      {
        WrapAdd(old(calls) + attempt, 1);
        calls := (calls + 1) % TWO_32;
        match if attempt == 0 then q.first else q.second {
          case ProviderError =>
            return Made(Hold);
          case Completion(text) =>
            match ParseOutput(read, text, q.symbol, cfg.universe) {
              case Accepted(d) => return Made(d);
              case Crashed => return Panicked;
              case Rejected(_) =>
            }
        }
      }
      a := Made(Hold);
    }
  }

  // ---- what a reply can do ----

  predicate InUnitRange(d: Decision) {
    match d
    case Hold => true
    case BuyFraction(f) => 0.0 < f <= 1.0
    case SellFraction(f) => 0.0 < f <= 1.0
  }

  /** A reply that reads as JSON for a symbol that is permitted. */
  predicate ReadsFor(read: JsonReader, text: string, symbol: string, universe: seq<string>) {
    read(StripFences(text)).Some? && (universe == [] || symbol in universe)
  }

  /** Short of a panic, a reply is taken exactly for what it says, and refused exactly for what it lacks. */
  lemma ReplyReadsExactly(read: JsonReader, text: string, symbol: string, universe: seq<string>, p: Parsed)
    requires ParseOutput(read, text, symbol, universe) != Crashed && p != Crashed
    ensures ParseOutput(read, text, symbol, universe) == p <==>
            var out := read(StripFences(text));
            match p
            case Rejected(NotJson) => out.None?
            case Rejected(NotInUniverse) => out.Some? && universe != [] && symbol !in universe
            case Accepted(Hold) => ReadsFor(read, text, symbol, universe) && out.value.action == "hold"
            case Accepted(BuyFraction(f)) =>
              && ReadsFor(read, text, symbol, universe) && out.value.action == "buy"
              && out.value.fraction == Some(f) && 0.0 < f <= 1.0
            case Accepted(SellFraction(f)) =>
              && ReadsFor(read, text, symbol, universe) && out.value.action == "sell"
              && out.value.fraction == Some(f) && 0.0 < f <= 1.0
            case Rejected(NoFraction) =>
              && ReadsFor(read, text, symbol, universe) && out.value.action in ["buy", "sell"]
              && out.value.fraction.None?
            case Rejected(BadFraction) =>
              && ReadsFor(read, text, symbol, universe) && out.value.action in ["buy", "sell"]
              && out.value.fraction.Some? && !(0.0 < out.value.fraction.value <= 1.0)
            case Rejected(UnknownAction) =>
              ReadsFor(read, text, symbol, universe) && out.value.action !in ["hold", "buy", "sell"]
            case Crashed => false
  {
    hide StripFences, CanTruncate;
    assert "buy" != "sell" && "hold" != "buy" && "hold" != "sell";
  }

  /** The reply is a text that reads as this decision. */
  predicate Says(read: JsonReader, cfg: Config, symbol: string, r: Reply, d: Decision) {
    r.Completion? && ParseOutput(read, r.text, symbol, cfg.universe) == Accepted(d)
  }

  predicate Unreadable(read: JsonReader, cfg: Config, symbol: string, r: Reply) {
    r.Completion? && ParseOutput(read, r.text, symbol, cfg.universe).Rejected?
  }

  /**
   Anything but Hold is decided exactly if the budget is unlimited or not used up, the symbol is trusted,
   and the first reply says so, or the first is unreadable and the second says so.
   */
  lemma DecisionComesFromAReply(read: JsonReader, cfg: Config, calls: nat, q: Question, d: Decision)
    requires d != Hold
    ensures Decide(read, cfg, calls, q).0 == Made(d) <==>
            && (cfg.maxCallsPerRun == 0 || calls < cfg.maxCallsPerRun) && !Flagged(q.symbol)
            && (|| Says(read, cfg, q.symbol, q.first, d)
                || (Unreadable(read, cfg, q.symbol, q.first) && Says(read, cfg, q.symbol, q.second, d)))
  {
    hide ParseOutput, Flagged;
  }

  predicate Crashes(read: JsonReader, cfg: Config, symbol: string, r: Reply) {
    r.Completion? && ParseOutput(read, r.text, symbol, cfg.universe) == Crashed
  }

  /** A decision panics exactly if a reply that is read panics. */
  lemma PanicComesFromAReply(read: JsonReader, cfg: Config, calls: nat, q: Question)
    ensures Decide(read, cfg, calls, q).0 == Panicked <==>
            && (cfg.maxCallsPerRun == 0 || calls < cfg.maxCallsPerRun) && !Flagged(q.symbol)
            && (|| Crashes(read, cfg, q.symbol, q.first)
                || (Unreadable(read, cfg, q.symbol, q.first) && Crashes(read, cfg, q.symbol, q.second)))
  {
    hide ParseOutput, Flagged;
  }

  /** Whatever the model replies, a decision asks for a fraction in (0, 1]. */
  lemma DecisionsAreFractions(read: JsonReader, cfg: Config, calls: nat, q: Question)
    ensures var a := Decide(read, cfg, calls, q).0; a.Made? ==> InUnitRange(a.decision)
  {
    hide StripFences, CanTruncate;
  }

  /**
   A reply panics exactly if it reads as JSON for a permitted symbol and no prefix of its reason has
   200 bytes although the whole has more.
   */
  lemma PanicsExactly(read: JsonReader, text: string, symbol: string, universe: seq<string>)
    ensures ParseOutput(read, text, symbol, universe) == Crashed <==>
            var out := read(StripFences(text));
            && out.Some? && (universe == [] || symbol in universe)
            && ByteCount(out.value.reason) > REASON_LIMIT
            && !exists k :: 0 <= k <= |out.value.reason| && ByteCount(out.value.reason[..k]) == REASON_LIMIT
  {
    hide StripFences, Boundary, ByteCount;
    var out := read(StripFences(text));
    if out.Some? {
      var reason := out.value.reason;
      BoundaryIsPrefix(reason, REASON_LIMIT);
      assert reason[..|reason|] == reason;
    }
  }

  /** No reply whose reason is plain ASCII panics. */
  lemma AsciiNeverPanics(read: JsonReader, text: string, symbol: string, universe: seq<string>)
    requires var out := read(StripFences(text));
             out.Some? ==> forall i :: 0 <= i < |out.value.reason| ==> out.value.reason[i] as int < 0x80
    ensures ParseOutput(read, text, symbol, universe) != Crashed
  {
    hide StripFences, Boundary, ByteCount;
    var out := read(StripFences(text));
    if out.Some? && ByteCount(out.value.reason) >= REASON_LIMIT {
      AsciiBoundary(out.value.reason, REASON_LIMIT);
    }
  }

  function Letters(n: nat): (s: string)
    ensures |s| == n && forall i :: 0 <= i < n ==> s[i] == 'a'
  {
    seq(n, i => 'a')
  }

  lemma {:induction false} LettersBytes(n: nat, tail: string)
    ensures ByteCount(Letters(n) + tail) == n + ByteCount(tail)
  {
    var s := Letters(n) + tail;
    if n == 0 {
      assert s == tail;
    } else {
      assert s[1..] == Letters(n - 1) + tail;
      LettersBytes(n - 1, tail);
    }
  }

  /** 199 plain letters and one two-byte letter: the cut at byte 200 panics. */
  lemma AccentAtTheLimitPanics(text: string, symbol: string)
    ensures var reason := Letters(199) + ['\U{E9}'];
            ParseOutput(_ => Some(AiOutput("hold", None, reason)), text, symbol, []) == Crashed
  {
    var accent := ['\U{E9}'];
    var reason := Letters(199) + accent;
    var read: JsonReader := _ => Some(AiOutput("hold", None, reason));
    assert ByteCount(accent) == 2;
    LettersBytes(199, accent);
    forall k | 0 <= k <= |reason|
      ensures ByteCount(reason[..k]) != REASON_LIMIT
    {
      if k <= 199 {
        assert reason[..k] == Letters(k) + "";
        LettersBytes(k, "");
      } else {
        assert reason[..k] == reason;
      }
    }
    PanicsExactly(read, text, symbol, []);
  }

  // ---- a fenced reply reads as the bare one ----

  /** Text that neither starts nor ends with white space or a fence character. */
  predicate Bare(s: string) {
    s != "" && !IsSpace(s[0]) && !IsSpace(s[|s| - 1]) && s[0] != '`' && s[|s| - 1] != '`'
  }

  lemma TrimNothing(s: string)
    requires s == "" || (!IsSpace(s[0]) && !IsSpace(s[|s| - 1]))
    ensures Trim(s) == s
  {}

  lemma TrimNewlines(s: string)
    requires Bare(s)
    ensures Trim("\n" + s + "\n") == s
  {
    var t := "\n" + s + "\n";
    assert t[1..] == s + "\n";
    assert TrimStart(t) == TrimStart(s + "\n") == s + "\n";
    assert (s + "\n")[..|s|] == s;
    assert TrimEnd(s + "\n") == TrimEnd(s) == s;
  }

  lemma ClosingFenceComesOff(s: string)
    requires Bare(s)
    ensures Trim(StripSuffix("\n" + s + "\n```", "```")) == s
  {
    hide Trim;
    var inner := "\n" + s + "\n```";
    assert inner[|inner| - 3..] == "```" && inner[..|inner| - 3] == "\n" + s + "\n";
    TrimNewlines(s);
  }

  lemma OpeningComesOff(open: string, rest: string)
    requires Trim(open + rest) == open + rest
    requires open == "```json" || (open == "```" && rest != "" && rest[0] != 'j')
    ensures StripFences(open + rest) == Trim(StripSuffix(rest, "```"))
  {
    hide Trim, StripSuffix;
    Splits(open, rest);
    if open == "```" { assert (open + rest)[3] != "```json"[3]; }
  }

  lemma FencedIsTrimmed(open: string, s: string)
    requires open != "" && open[0] == '`'
    ensures var t := open + ("\n" + s + "\n```"); Trim(t) == t && t == open + "\n" + s + "\n```"
  {
    var t := open + ("\n" + s + "\n```");
    assert t == open + "\n" + s + "\n```";
    assert t[0] == '`' && t[|t| - 1] == '`';
    TrimNothing(t);
  }

  /** A text in a fence that begins with one of the two openings that are taken off. */
  lemma FenceComesOff(open: string, s: string)
    requires Bare(s) && (open == "```json" || open == "```")
    ensures StripFences(open + "\n" + s + "\n```") == s
  {
    hide StripFences, StripSuffix, Trim, Bare;
    FencedIsTrimmed(open, s);
    OpeningComesOff(open, "\n" + s + "\n```");
    ClosingFenceComesOff(s);
  }

  /** A bare reply, and the same in a fence of either kind, read alike. */
  lemma FencesComeOff(s: string)
    requires Bare(s)
    ensures StripFences(s) == s
    ensures StripFences("```json\n" + s + "\n```") == s
    ensures StripFences("```\n" + s + "\n```") == s
  {
    hide Trim;
    FenceComesOff("```json", s);
    FenceComesOff("```", s);
    assert "```json" + "\n" == "```json\n" && "```" + "\n" == "```\n";
    BareHasNoFence(s);
  }

  lemma BareHasNoFence(s: string)
    requires Bare(s)
    ensures StripFences(s) == s
  {
    TrimNothing(s);
    hide Trim;
  }

  // ---- the call budget of a run ----

  function CallsAfter(read: JsonReader, cfg: Config, qs: seq<Question>): nat {
    if qs == [] then 0 else Decide(read, cfg, CallsAfter(read, cfg, qs[..|qs| - 1]), qs[|qs| - 1]).1
  }

  /** How often one question reaches the provider. */
  function CallsFor(read: JsonReader, cfg: Config, calls: nat, q: Question): nat {
    if Exhausted(cfg, calls) || Flagged(q.symbol) then 0 else if Read(read, cfg, q, q.first).Rejected? then 2 else 1
  }

  /** How often a run reaches the provider; the counter is this number modulo 2^32. */
  function Requests(read: JsonReader, cfg: Config, qs: seq<Question>): nat {
    if qs == [] then 0
    else
      var init := qs[..|qs| - 1];
      Requests(read, cfg, init) + CallsFor(read, cfg, CallsAfter(read, cfg, init), qs[|qs| - 1])
  }

  /** The question reaches the provider twice. */
  predicate Retries(read: JsonReader, cfg: Config, q: Question) {
    !Flagged(q.symbol) && Read(read, cfg, q, q.first).Rejected?
  }

  lemma CallStep(read: JsonReader, cfg: Config, calls: nat, q: Question)
    requires 0 < cfg.maxCallsPerRun < TWO_32 && calls < TWO_32
    ensures var more := CallsFor(read, cfg, calls, q);
            && Decide(read, cfg, calls, q).1 == (calls + more) % TWO_32
            && more <= 2
            && (calls >= cfg.maxCallsPerRun ==> more == 0)
            && (calls < cfg.maxCallsPerRun ==>
                  (calls + more > cfg.maxCallsPerRun <==> calls + 1 == cfg.maxCallsPerRun && Retries(read, cfg, q)))
  {
    hide Read, Flagged;
  }

  /** Before question k, exactly one call of the budget is left. */
  predicate OneLeft(read: JsonReader, cfg: Config, qs: seq<Question>, k: nat)
    requires k < |qs|
  {
    CallsAfter(read, cfg, qs[..k]) + 1 == cfg.maxCallsPerRun
  }

  /** Some question began with one call left, and its first reply was rejected. */
  predicate Overshoots(read: JsonReader, cfg: Config, qs: seq<Question>) {
    exists k :: 0 <= k < |qs| && OneLeft(read, cfg, qs, k) && Retries(read, cfg, qs[k])
  }

  lemma OvershootsPush(read: JsonReader, cfg: Config, init: seq<Question>, q: Question)
    ensures Overshoots(read, cfg, init + [q]) <==>
            || Overshoots(read, cfg, init)
            || (CallsAfter(read, cfg, init) + 1 == cfg.maxCallsPerRun && Retries(read, cfg, q))
  {
    hide Retries, CallsAfter;
    var qs := init + [q];
    forall k | 0 <= k <= |init|
      ensures qs[..k] == init[..k]
    {}
    assert init[..|init|] == init;
    if Overshoots(read, cfg, init) {
      var k :| 0 <= k < |init| && OneLeft(read, cfg, init, k) && Retries(read, cfg, init[k]);
      assert OneLeft(read, cfg, qs, k) && qs[k] == init[k];
    }
    if CallsAfter(read, cfg, init) + 1 == cfg.maxCallsPerRun && Retries(read, cfg, q) {
      assert OneLeft(read, cfg, qs, |init|) && qs[|init|] == q;
    }
  }

  lemma WrapAdd(a: nat, b: nat)
    ensures (a % TWO_32 + b) % TWO_32 == (a + b) % TWO_32
  {}

  /** One question, in numbers: the budget, the counter, the requests so far, and the calls to come. */
  lemma BudgetStep(max: nat, calls: nat, requests: nat, more: nat, over: bool, crosses: bool)
    requires 0 < max < TWO_32 && calls == requests % TWO_32 && more <= 2
    requires requests > max <==> over
    requires max < TWO_32 - 1 ==> requests <= max + 1
    requires calls >= max ==> more == 0
    requires crosses ==> calls + 1 == max
    requires calls < max ==> (calls + more > max <==> crosses)
    ensures requests + more > max <==> over || crosses
    ensures max < TWO_32 - 1 ==> requests + more <= max + 1
  {
    if !over { assert calls == requests; }
  }

  /**
   For every budget a run exceeds it exactly if some question starts with one call left and its first
   reply is rejected, and then by one call only; except for the largest 32-bit budget, where the
   counter wraps to zero on that call and the budget is lifted.
   */
  lemma {:induction false} CallBudget(read: JsonReader, cfg: Config, qs: seq<Question>)
    requires 0 < cfg.maxCallsPerRun < TWO_32
    ensures CallsAfter(read, cfg, qs) == Requests(read, cfg, qs) % TWO_32
    ensures Requests(read, cfg, qs) > cfg.maxCallsPerRun <==> Overshoots(read, cfg, qs)
    ensures cfg.maxCallsPerRun < TWO_32 - 1 ==> Requests(read, cfg, qs) <= cfg.maxCallsPerRun + 1
  {
    hide Decide, Retries, CallsFor, Overshoots;
    if qs == [] {
      NothingOvershoots(read, cfg);
    } else {
      var init, last := qs[..|qs| - 1], qs[|qs| - 1];
      assert qs == init + [last];
      CallBudget(read, cfg, init);
      var calls, requests := CallsAfter(read, cfg, init), Requests(read, cfg, init);
      var more := CallsFor(read, cfg, calls, last);
      CallStep(read, cfg, calls, last);
      OvershootsPush(read, cfg, init, last);
      WrapAdd(requests, more);
      BudgetStep(cfg.maxCallsPerRun, calls, requests, more, Overshoots(read, cfg, init),
                 calls + 1 == cfg.maxCallsPerRun && Retries(read, cfg, last));
      RequestsPush(read, cfg, init, last);
      hide CallsAfter, Requests;
    }
  }

  lemma NothingOvershoots(read: JsonReader, cfg: Config)
    ensures !Overshoots(read, cfg, [])
  {}

  lemma RequestsPush(read: JsonReader, cfg: Config, init: seq<Question>, q: Question)
    ensures var calls := CallsAfter(read, cfg, init);
            && CallsAfter(read, cfg, init + [q]) == Decide(read, cfg, calls, q).1
            && Requests(read, cfg, init + [q]) == Requests(read, cfg, init) + CallsFor(read, cfg, calls, q)
  {
    hide Decide, CallsFor;
    assert (init + [q])[..|init|] == init;
  }

  /** `n` questions that take one call each. */
  function Plain(n: nat): seq<Question> {
    if n == 0 then [] else Plain(n - 1) + [Question("X", ProviderError, ProviderError)]
  }

  lemma SymbolXIsTrusted()
    ensures !Flagged("X")
  {
    assert Lower("X") == "x";
    assert ByteCount("X") == 1;
    forall m | 0 <= m < |MARKERS|
      ensures !Contains("x", MARKERS[m])
    {
      assert |MARKERS[m]| > 1;
    }
  }

  /** A question about a trusted symbol below the budget: one call, or two if the first reply is rejected. */
  lemma TrustedCalls(read: JsonReader, cfg: Config, calls: nat, first: Reply, second: Reply)
    requires calls < cfg.maxCallsPerRun < TWO_32
    ensures var q := Question("X", first, second);
            var more := if Read(read, cfg, q, first).Rejected? then 2 else 1;
            CallsFor(read, cfg, calls, q) == more && Decide(read, cfg, calls, q).1 == (calls + more) % TWO_32
  {
    SymbolXIsTrusted();
    hide Flagged, Read;
  }

  lemma {:induction false} PlainCalls(read: JsonReader, cfg: Config, n: nat)
    requires n <= cfg.maxCallsPerRun < TWO_32
    ensures CallsAfter(read, cfg, Plain(n)) == Requests(read, cfg, Plain(n)) == n
  {
    hide CallsAfter, Requests, Decide, CallsFor;
    if n == 0 {
      NoCalls(read, cfg);
    } else {
      var q := Question("X", ProviderError, ProviderError);
      PlainCalls(read, cfg, n - 1);
      TrustedCalls(read, cfg, n - 1, ProviderError, ProviderError);
      RequestsPush(read, cfg, Plain(n - 1), q);
    }
  }

  lemma NoCalls(read: JsonReader, cfg: Config)
    ensures CallsAfter(read, cfg, []) == Requests(read, cfg, []) == 0
  {}

  /** A reader that takes nothing for the expected JSON. */
  function NothingReads(): JsonReader {
    (_: string) => None
  }

  /** Every budget is exceeded by one by some run: the last call allowed is spent on a rejected reply. */
  lemma BudgetIsExceeded(cfg: Config, text: string)
    requires 0 < cfg.maxCallsPerRun < TWO_32
    ensures var qs := Plain(cfg.maxCallsPerRun - 1) + [Question("X", Completion(text), ProviderError)];
            && Requests(NothingReads(), cfg, qs) == cfg.maxCallsPerRun + 1
            && CallsAfter(NothingReads(), cfg, qs) == (cfg.maxCallsPerRun + 1) % TWO_32
  {
    hide CallsAfter, Requests, Decide, CallsFor, StripFences, Plain;
    var read := NothingReads();
    var init, last := Plain(cfg.maxCallsPerRun - 1), Question("X", Completion(text), ProviderError);
    PlainCalls(read, cfg, cfg.maxCallsPerRun - 1);
    TrustedCalls(read, cfg, cfg.maxCallsPerRun - 1, last.first, last.second);
    RequestsPush(read, cfg, init, last);
  }

  /** At the largest budget that call wraps the counter to zero, and the run goes on past the budget. */
  lemma LargestBudgetIsLifted(cfg: Config, text: string)
    requires cfg.maxCallsPerRun == TWO_32 - 1
    ensures var qs := Plain(cfg.maxCallsPerRun - 1) + [Question("X", Completion(text), ProviderError)];
            && !Exhausted(cfg, CallsAfter(NothingReads(), cfg, qs))
            && Requests(NothingReads(), cfg, qs + Plain(1)) == cfg.maxCallsPerRun + 2
  {
    hide CallsAfter, Requests, Decide, CallsFor, StripFences;
    var qs := Plain(cfg.maxCallsPerRun - 1) + [Question("X", Completion(text), ProviderError)];
    BudgetIsExceeded(cfg, text);
    var q := Question("X", ProviderError, ProviderError);
    TrustedCalls(NothingReads(), cfg, 0, ProviderError, ProviderError);
    RequestsPush(NothingReads(), cfg, qs, q);
    assert Plain(1) == [q];
  }
}
