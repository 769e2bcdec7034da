/**
 The incremental Server-Sent Events splitter of frontend/src/hooks/useAuditStream.ts. Chunks arrive
 cut anywhere; frames end at a blank line, "\n\n".
 */
module SseFrames {
  import opened Wrappers
  import opened Seqs
  import opened Text

  // ---- splitting ----

  predicate SepAt(s: string, k: nat) {
    k + 1 < |s| && s[k] == '\n' && s[k + 1] == '\n'
  }

  /** `buf.indexOf("\n\n")`. */
  function IndexOfSep(s: string): (r: Option<nat>)
    ensures r.Some? ==> SepAt(s, r.value) && forall k :: 0 <= k < r.value ==> !SepAt(s, k)
    ensures r.None? ==> forall k: nat :: !SepAt(s, k)
  {
    if |s| < 2 then None
    else if SepAt(s, 0) then Some(0)
    else
      var rest := IndexOfSep(s[1..]);
      assert forall k: nat :: k > 0 ==> SepAt(s, k) == SepAt(s[1..], k - 1);
      if rest.Some? then Some(rest.value + 1) else None
  }

  /** All complete frames of a buffer, and the incomplete rest. */
  function Split(buf: string): (r: (seq<string>, string))
    decreases |buf|
  {
    match IndexOfSep(buf)
    case None => ([], buf)
    case Some(i) =>
      var (frames, rest) := Split(buf[i + 2..]);
      ([buf[..i]] + frames, rest)
  }

  function Concat(chunks: seq<string>): string {
    if chunks == [] then "" else Concat(chunks[..|chunks| - 1]) + chunks[|chunks| - 1]
  }

  lemma SepStaysFirst(a: string, b: string)
    requires IndexOfSep(a).Some?
    ensures IndexOfSep(a + b) == IndexOfSep(a)
  {
    var i := IndexOfSep(a).value;
    assert SepAt(a + b, i);
    assert forall k :: 0 <= k < i ==> SepAt(a + b, k) == SepAt(a, k);
  }

  /** What arrives later is split as if it had followed the leftover directly. */
  lemma {:induction false} SplitAppend(a: string, b: string)
    ensures var (framesA, restA) := Split(a);
            var (framesB, restB) := Split(restA + b);
            Split(a + b) == (framesA + framesB, restB)
    decreases |a|
  {
    match IndexOfSep(a)
    case None =>
      AppendNil(Split(a + b).0);
    case Some(i) =>
      SepStaysFirst(a, b);
      assert (a + b)[..i] == a[..i] && (a + b)[i + 2..] == a[i + 2..] + b;
      SplitAppend(a[i + 2..], b);
      var (framesA, restA) := Split(a[i + 2..]);
      Assoc([a[..i]], framesA, Split(restA + b).0);
  }

  // ---- what the split means ----

  function Joined(frames: seq<string>): string {
    if frames == [] then "" else frames[0] + "\n\n" + Joined(frames[1..])
  }

  /** A frame that its terminator really ends: no earlier blank line. */
  predicate Whole(frame: string) {
    forall k :: 0 <= k < |frame| ==> !SepAt(frame + "\n\n", k)
  }

  ghost predicate IsFraming(text: string, frames: seq<string>, rest: string) {
    && text == Joined(frames) + rest
    && (forall i :: 0 <= i < |frames| ==> Whole(frames[i]))
    && (forall k: nat :: !SepAt(rest, k))
  }

  lemma FirstSep(frame: string, after: string)
    requires Whole(frame)
    ensures IndexOfSep(frame + "\n\n" + after) == Some(|frame|)
  {
    var s := frame + "\n\n" + after;
    assert SepAt(s, |frame|);
    assert forall k :: 0 <= k < |frame| ==> SepAt(s, k) == SepAt(frame + "\n\n", k);
  }

  lemma {:induction false} FramingIsSplit(text: string, frames: seq<string>, rest: string)
    requires IsFraming(text, frames, rest)
    ensures Split(text) == (frames, rest)
    decreases |frames|
  {
    if frames == [] {
      assert text == rest;
    } else {
      var after := Joined(frames[1..]) + rest;
      Assoc(frames[0] + "\n\n", Joined(frames[1..]), rest);
      assert text == frames[0] + "\n\n" + after;
      FirstSep(frames[0], after);
      assert text[..|frames[0]|] == frames[0] && text[|frames[0]| + 2..] == after;
      FramingIsSplit(after, frames[1..], rest);
      assert [frames[0]] + frames[1..] == frames;
    }
  }

  /** One more frame in front. */
  lemma FramingGrows(frame: string, after: string, frames: seq<string>, rest: string)
    requires Whole(frame) && IsFraming(after, frames, rest)
    ensures IsFraming(frame + "\n\n" + after, [frame] + frames, rest)
  {
    hide Whole, SepAt;
    assert ([frame] + frames)[1..] == frames;
    Assoc(frame + "\n\n", Joined(frames), rest);
  }

  lemma {:induction false} SplitIsFraming(text: string)
    ensures IsFraming(text, Split(text).0, Split(text).1)
    decreases |text|
  {
    match IndexOfSep(text)
    case None =>
      assert Joined([]) + text == text;
    case Some(i) =>
      var frame, after := text[..i], text[i + 2..];
      assert text == frame + "\n\n" + after;
      assert forall k :: 0 <= k < i ==> SepAt(frame + "\n\n", k) ==> SepAt(text, k);
      SplitIsFraming(after);
      hide IsFraming;
      FramingGrows(frame, after, Split(after).0, Split(after).1);
  }

  /** The split is the one way to read the text as whole frames and a rest without a blank line. */
  lemma SplitIsTheFraming(text: string, frames: seq<string>, rest: string)
    ensures IsFraming(text, frames, rest) <==> Split(text) == (frames, rest)
  {
    hide IsFraming, Split;
    SplitIsFraming(text);
    if IsFraming(text, frames, rest) { FramingIsSplit(text, frames, rest); }
  }

  // ---- data lines ----

  /** `frame.split("\n")`. */
  function Lines(s: string): (lines: seq<string>)
    ensures lines != []
  {
    if s == "" then [""]
    else
      var rest := Lines(s[1..]);
      if s[0] == '\n' then [""] + rest else [[s[0]] + rest[0]] + rest[1..]
  }

  /** The payload of one `data:` line, or nothing. */
  function DataLine(line: string): seq<string> {
    if "data:" <= line then
      var value := line[5..];
      [if value != "" && value[0] == ' ' then value[1..] else value]
    else []
  }

  function DataLines(lines: seq<string>): seq<string> {
    if lines == [] then [] else DataLine(lines[0]) + DataLines(lines[1..])
  }

  /** `parts.join("\n")`. */
  function JoinLines(parts: seq<string>): string {
    if parts == [] then ""
    else if |parts| == 1 then parts[0]
    else parts[0] + "\n" + JoinLines(parts[1..])
  }

  function DataOf(frame: string): string {
    JoinLines(DataLines(Lines(frame)))
  }

  // ---- delivery ----

  /** `JSON.parse`, with `None` for what it rejects and for what is not an array. */
  type Parser<!T> = string -> Option<seq<T>>

  /** The batch a frame delivers, if any. */
  function Delivered<T>(parse: Parser<T>, frame: string): seq<seq<T>> {
    var data := DataOf(frame);
    if data == "" then []
    else
      match parse(data)
      case Some(rows) => if rows != [] then [rows] else []
      case None => []
  }

  function DeliverAll<T>(parse: Parser<T>, frames: seq<string>): seq<seq<T>> {
    if frames == [] then []
    else Delivered(parse, frames[0]) + DeliverAll(parse, frames[1..])
  }

  lemma {:induction false} DeliverAppend<T>(parse: Parser<T>, a: seq<string>, b: seq<string>)
    ensures DeliverAll(parse, a + b) == DeliverAll(parse, a) + DeliverAll(parse, b)
  {
    hide Delivered;
    if a == [] {
      assert a + b == b;
    } else {
      DeliverAppend(parse, a[1..], b);
      assert (a + b)[1..] == a[1..] + b;
      Assoc(Delivered(parse, a[0]), DeliverAll(parse, a[1..]), DeliverAll(parse, b));
    }
  }

  lemma NextChunk(chunks: seq<string>, i: nat)
    requires i < |chunks|
    ensures Concat(chunks[..i + 1]) == Concat(chunks[..i]) + chunks[i]
  {
    assert chunks[..i + 1][..i] == chunks[..i];
  }

  /** Taking one frame off the buffer delivers its batch first and the others after it. */
  lemma TakeFrame<T>(parse: Parser<T>, batches: seq<seq<T>>, buf: string)
    requires IndexOfSep(buf).Some?
    ensures var i := IndexOfSep(buf).value;
            && Split(buf).1 == Split(buf[i + 2..]).1
            && batches + DeliverAll(parse, Split(buf).0) ==
               (batches + Delivered(parse, buf[..i])) + DeliverAll(parse, Split(buf[i + 2..]).0)
  {
    hide Delivered;
    var i := IndexOfSep(buf).value;
    var frames := Split(buf).0;
    assert frames[0] == buf[..i] && frames[1..] == Split(buf[i + 2..]).0;
    Assoc(batches, Delivered(parse, buf[..i]), DeliverAll(parse, Split(buf[i + 2..]).0));
  }

  /**
   The reading loop. However the text is cut into chunks, what is delivered and what is left over
   depend on the whole text alone.
   */
  method ReadStream<T>(parse: Parser<T>, chunks: seq<string>) returns (batches: seq<seq<T>>, buf: string)
    ensures batches == DeliverAll(parse, Split(Concat(chunks)).0)
    ensures buf == Split(Concat(chunks)).1
  {
    hide Split, DeliverAll, DataOf, Concat;
    buf, batches := "", [];
    NothingSplits(parse);
    for i := 0 to |chunks|
      invariant batches == DeliverAll(parse, Split(Concat(chunks[..i])).0)
      invariant buf == Split(Concat(chunks[..i])).1
    {
      ghost var before := Concat(chunks[..i]);
      ghost var after := before + chunks[i];
      NextChunk(chunks, i);
      SplitAppend(before, chunks[i]);
      buf := buf + chunks[i];
      DeliverAppend(parse, Split(before).0, Split(buf).0);
      var sep := IndexOfSep(buf);
      while sep.Some?
        invariant sep == IndexOfSep(buf)
        invariant batches + DeliverAll(parse, Split(buf).0) == DeliverAll(parse, Split(after).0)
        invariant Split(buf).1 == Split(after).1
        decreases |buf|
      {
        TakeFrame(parse, batches, buf);
        var frame := buf[..sep.value];
        buf := buf[sep.value + 2..];
        var data := DataOf(frame);
        if data != "" {
          var parsed := parse(data);
          if parsed.Some? && parsed.value != [] {
            batches := batches + [parsed.value];
          }
        }
        sep := IndexOfSep(buf);
      }
      DrainedBuffer(parse, batches, buf);
    }
    assert chunks[..|chunks|] == chunks;
  }

  lemma NothingSplits<T>(parse: Parser<T>)
    ensures Split(Concat([])) == ([], "") && DeliverAll(parse, []) == []
  {}

  lemma DrainedBuffer<T>(parse: Parser<T>, batches: seq<seq<T>>, buf: string)
    requires IndexOfSep(buf).None?
    ensures Split(buf) == ([], buf) && batches + DeliverAll(parse, Split(buf).0) == batches
  {}

  /** The splitter as a fold over the chunks. */
  function Fed(chunks: seq<string>): (seq<string>, string) {
    if chunks == [] then ([], "")
    else
      var (frames, rest) := Fed(chunks[..|chunks| - 1]);
      var (more, rest') := Split(rest + chunks[|chunks| - 1]);
      (frames + more, rest')
  }

  lemma {:induction false} FedIsWhole(chunks: seq<string>)
    ensures Fed(chunks) == Split(Concat(chunks))
  {
    if chunks != [] {
      var init := chunks[..|chunks| - 1];
      FedIsWhole(init);
      SplitAppend(Concat(init), chunks[|chunks| - 1]);
    }
  }

  /** Two ways of cutting the same text give the same frames and the same leftover. */
  lemma ChunkingIsInvisible(chunks: seq<string>, others: seq<string>)
    requires Concat(chunks) == Concat(others)
    ensures Fed(chunks) == Fed(others)
  {
    FedIsWhole(chunks);
    FedIsWhole(others);
  }

  // ---- frames as the server writes them ----

  /** One audit event on the wire: an event name line and one data line. */
  function AuditFrame(json: string): string {
    "event: audit\n" + ("data: " + json)
  }

  /** A keep-alive comment. */
  const KEEP_ALIVE: string := ":"

  lemma {:induction false} OneLine(s: string)
    requires Free(s, '\n')
    ensures Lines(s) == [s]
  {
    if s != "" {
      OneLine(s[1..]);
      assert [s[0]] + s[1..] == s;
    }
  }

  lemma {:induction false} LineThen(s: string, rest: string)
    requires Free(s, '\n')
    ensures Lines(s + "\n" + rest) == [s] + Lines(rest)
  {
    var t := s + "\n" + rest;
    if s == "" {
      assert t[1..] == rest;
    } else {
      LineThen(s[1..], rest);
      assert t[1..] == s[1..] + "\n" + rest;
      assert [s[0]] + s[1..] == s;
    }
  }

  /** Joining with newlines is undone by cutting at newlines. */
  lemma {:induction false} LinesReadBack(parts: seq<string>)
    requires parts != [] && forall i :: 0 <= i < |parts| ==> Free(parts[i], '\n')
    ensures Lines(JoinLines(parts)) == parts
  {
    if |parts| == 1 {
      OneLine(parts[0]);
    } else {
      LinesReadBack(parts[1..]);
      LineThen(parts[0], JoinLines(parts[1..]));
      assert parts == [parts[0]] + parts[1..];
    }
  }

  /** A line is a `data:` line exactly if it begins so, and then without one space that may follow. */
  lemma DataLineExactly(line: string, value: string)
    ensures DataLine(line) == [value] <==>
            line == "data: " + value || (line == "data:" + value && !(value != "" && value[0] == ' '))
    ensures DataLine(line) == [] <==> !("data:" <= line)
  {
    if "data:" <= line {
      var rest := line[5..];
      assert line == "data:" + rest;
      assert rest != "" && rest[0] == ' ' ==> line == "data: " + rest[1..];
    }
    var spaced, plain := "data: " + value, "data:" + value;
    assert spaced[5..] == " " + value && plain[5..] == value && (" " + value)[1..] == value;
  }

  /** The data of a frame are its `data:` lines, in order and joined by newlines, whatever other lines there are. */
  lemma DataOfExactly(lines: seq<string>)
    requires lines != [] && forall i :: 0 <= i < |lines| ==> Free(lines[i], '\n')
    ensures DataOf(JoinLines(lines)) == JoinLines(DataLines(lines))
  {
    LinesReadBack(lines);
  }

  /** A frame whose data do not parse delivers nothing and disturbs no other frame. */
  lemma BadFrameIsSkipped<T>(parse: Parser<T>, before: seq<string>, bad: string, after: seq<string>)
    requires parse(DataOf(bad)).None?
    ensures DeliverAll(parse, before + [bad] + after) == DeliverAll(parse, before + after)
  {
    hide DataOf;
    DeliverAppend(parse, before + [bad], after);
    DeliverAppend(parse, before, [bad]);
    DeliverAppend(parse, before, after);
    assert [bad][1..] == [];
    assert DeliverAll(parse, [bad]) == [];
    AppendNil(DeliverAll(parse, before));
  }

  lemma AuditFrameIsWhole(json: string)
    requires Free(json, '\n')
    ensures Whole(AuditFrame(json)) && Whole(KEEP_ALIVE)
  {
    var f := AuditFrame(json);
    assert |"event: audit\n"| == 13;
    forall k | 0 <= k < |f|
      ensures !SepAt(f + "\n\n", k)
    {
      if k > 12 {
        assert f[k] == ("data: " + json)[k - 13];
        assert k - 13 >= 6 ==> f[k] == json[k - 19];
      } else if k == 12 {
        assert f[13] == 'd';
      }
    }
  }

  lemma DataLinesOfTwo(first: string, second: string)
    ensures DataLines([first, second]) == DataLine(first) + DataLine(second)
    ensures DataLines([second]) == DataLine(second)
  {
    hide DataLine;
    var one, two := [second], [first, second];
    assert one[1..] == [] && two[1..] == one;
    AppendNil(DataLine(second));
    assert DataLines(one) == DataLine(second);
    assert DataLines(two) == DataLine(first) + DataLines(two[1..]);
  }

  lemma PayloadLine(json: string)
    ensures DataLine("data: " + json) == [json]
    ensures DataLine("event: audit") == [] && DataLine(KEEP_ALIVE) == []
  {
    var line := "data: " + json;
    assert line[5..] == " " + json && line[5..][1..] == json;
    assert "event: audit"[0] == 'e';
  }

  /** The client reads back exactly the JSON the server wrote, and nothing from a keep-alive. */
  lemma DataOfAuditFrame(json: string)
    requires Free(json, '\n')
    ensures DataOf(AuditFrame(json)) == json && DataOf(KEEP_ALIVE) == ""
  {
    hide DataLine, DataLines, Lines;
    var first, second := "event: audit", "data: " + json;
    LineThen(first, second);
    OneLine(second);
    assert [first] + [second] == [first, second];
    assert AuditFrame(json) == first + "\n" + second;
    DataLinesOfTwo(first, second);
    DataLinesOfTwo(first, KEEP_ALIVE);
    PayloadLine(json);
    AppendNil([json]);
    OneLine(KEEP_ALIVE);
  }
}
