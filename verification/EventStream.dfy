/**
 * The event stream between the bridge's streaming loop (src/core/server/sampling-bridge-server.ts) and the
 * line-buffering reader injected into the sandbox (src/executors/sandbox-executor.ts). Chunks are the text
 * the decoder delivers; JSON.parse together with the field tests on its result is the parameter `parse`.
 */
module EventStream {
  import opened Wrappers
  import opened Text

  // ----- The reader

  datatype Parsed =
    | ChunkEvent(content: string)   // an object whose type is "chunk"
    | DoneEvent                     // an object whose type is "done"
    | ErrorEvent                    // neither, but with an error field
    | OtherValue
    | Malformed                     // JSON.parse throws, or reading a field of the result does

  datatype Action = Yield(content: string) | Stop | Skip

  const PREFIX := "data: "
  const NEWLINE := '\n'

  /** What the reader does with one complete line. The error it throws for an error event is caught on the spot. */
  function Interpret(parse: string -> Parsed, line: string): Action {
    if PREFIX <= line then
      var data := line[|PREFIX|..];
      if data == "[DONE]" then Stop
      else
        match parse(data)
        case ChunkEvent(content) => Yield(content)
        case DoneEvent => Stop
        case _ => Skip
    else Skip
  }

  /** The contents yielded by complete lines, up to the first one that stops the stream; and whether one did. */
  function Consume(parse: string -> Parsed, lines: seq<string>): (seq<string>, bool) {
    if lines == [] then ([], false)
    else
      var (out, stopped) := Consume(parse, lines[..|lines| - 1]);
      if stopped then (out, true)
      else
        match Interpret(parse, lines[|lines| - 1])
        case Yield(content) => (out + [content], false)
        case Stop => (out, true)
        case Skip => (out, false)
  }

  function Flatten(chunks: seq<string>): string {
    if chunks == [] then "" else Flatten(chunks[..|chunks| - 1]) + chunks[|chunks| - 1]
  }

  /** The contents of a whole text, read line by line in one go. */
  function ReadAll(parse: string -> Parsed, text: string): seq<string> {
    Consume(parse, Complete(text, NEWLINE)).0
  }

  lemma ConsumeSnoc(parse: string -> Parsed, lines: seq<string>, line: string)
    ensures Consume(parse, lines + [line]) ==
            var (out, stopped) := Consume(parse, lines);
            if stopped then (out, true)
            else match Interpret(parse, line)
                 case Yield(content) => (out + [content], false)
                 case Stop => (out, true)
                 case Skip => (out, false)
  {
    assert (lines + [line])[..|lines|] == lines;
  }

  lemma {:induction false} ConsumeMore(parse: string -> Parsed, lines: seq<string>, more: seq<string>)
    ensures
      var (out, stopped) := Consume(parse, lines);
      Consume(parse, lines + more) ==
      if stopped then (out, true) else (out + Consume(parse, more).0, Consume(parse, more).1)
  {
    if more == [] {
      assert lines + more == lines;
      assert Consume(parse, lines).0 + [] == Consume(parse, lines).0;
    } else {
      var init, last := more[..|more| - 1], more[|more| - 1];
      ConsumeMore(parse, lines, init);
      assert lines + more == (lines + init) + [last] && more == init + [last];
      ConsumeSnoc(parse, lines + init, last);
      ConsumeSnoc(parse, init, last);
      var out, out' := Consume(parse, lines).0, Consume(parse, init).0;
      assert forall c :: (out + out') + [c] == out + (out' + [c]);
    }
  }

  lemma {:induction false} FlattenConcat(a: seq<string>, b: seq<string>)
    ensures Flatten(a + b) == Flatten(a) + Flatten(b)
  {
    if b == [] {
      assert a + b == a;
    } else {
      hide Flatten;
      var init, last := b[..|b| - 1], b[|b| - 1];
      FlattenConcat(a, init);
      assert a + b == (a + init) + [last] && b == init + [last];
      FlattenSnoc(a + init, last);
      FlattenSnoc(init, last);
    }
  }

  lemma FlattenSnoc(chunks: seq<string>, last: string)
    ensures Flatten(chunks + [last]) == Flatten(chunks) + last
  {
    assert (chunks + [last])[..|chunks|] == chunks;
  }

  /** Once a prefix of the text has stopped the stream, the rest of the text does not matter. */
  lemma StoppedEarly(parse: string -> Parsed, prefix: string, rest: string)
    ensures ReadAll(parse, prefix) <= ReadAll(parse, prefix + rest)
    ensures Consume(parse, Complete(prefix, NEWLINE)).1 ==> ReadAll(parse, prefix + rest) == ReadAll(parse, prefix)
  {
    SplitConcat(prefix, rest, NEWLINE);
    ConsumeMore(parse, Complete(prefix, NEWLINE), Complete(Rest(prefix, NEWLINE) + rest, NEWLINE));
  }

  /** The buffer and the lines in hand after one more chunk are those of the text so far. */
  lemma NextChunk(chunks: seq<string>, k: nat, buffer: string)
    requires k < |chunks| && buffer == Rest(Flatten(chunks[..k]), NEWLINE)
    ensures
      var before, after := Flatten(chunks[..k]), Flatten(chunks[..k + 1]);
      && Complete(after, NEWLINE) == Complete(before, NEWLINE) + Complete(buffer + chunks[k], NEWLINE)
      && Rest(after, NEWLINE) == Rest(buffer + chunks[k], NEWLINE)
  {
    assert chunks[..k + 1][..k] == chunks[..k];
    SplitConcat(Flatten(chunks[..k]), chunks[k], NEWLINE);
  }

  /** The `for` loop over the complete lines of one read. */
  method ProcessLines(parse: string -> Parsed, lines: seq<string>) returns (out: seq<string>, stopped: bool)
    ensures (out, stopped) == Consume(parse, lines)
  {
    out, stopped := [], false;
    var i := 0;
    while i < |lines|
      invariant 0 <= i <= |lines|
      invariant Consume(parse, lines[..i]) == (out, false)
    {
      var line := lines[i];
      ConsumeSnoc(parse, lines[..i], line);
      assert lines[..i] + [line] == lines[..i + 1];
      i := i + 1;
      if PREFIX <= line {
        var data := line[|PREFIX|..];
        if data == "[DONE]" || parse(data).DoneEvent? {
          ConsumeMore(parse, lines[..i], lines[i..]);
          assert lines[..i] + lines[i..] == lines;
          return out, true;
        }
        if parse(data).ChunkEvent? {
          out := out + [parse(data).content];
        }
      }
    }
    assert lines[..i] == lines;
  }

  lemma StopAt(parse: string -> Parsed, chunks: seq<string>, k: nat)
    requires k <= |chunks| && Consume(parse, Complete(Flatten(chunks[..k]), NEWLINE)).1
    ensures ReadAll(parse, Flatten(chunks)) == ReadAll(parse, Flatten(chunks[..k]))
  {
    assert chunks == chunks[..k] + chunks[k..];
    FlattenConcat(chunks[..k], chunks[k..]);
    StoppedEarly(parse, Flatten(chunks[..k]), Flatten(chunks[k..]));
  }

  /**
   * The buffered reader yields what reading the whole text in one go yields: however the text is cut into
   * chunks, it stops at the first done marker and drops an unterminated last line.
   */
  method ReadStream(parse: string -> Parsed, chunks: seq<string>) returns (out: seq<string>)
    ensures out == ReadAll(parse, Flatten(chunks))
  {
    out := [];
    var buffer, k := "", 0;
    while k < |chunks|
      invariant 0 <= k <= |chunks|
      invariant buffer == Rest(Flatten(chunks[..k]), NEWLINE)
      invariant Consume(parse, Complete(Flatten(chunks[..k]), NEWLINE)) == (out, false)
    {
      ghost var before := Complete(Flatten(chunks[..k]), NEWLINE);
      NextChunk(chunks, k, buffer);
      buffer := buffer + chunks[k];
      var lines := Split(buffer, NEWLINE);
      buffer := lines[|lines| - 1];
      lines := lines[..|lines| - 1];
      k := k + 1;
      ConsumeMore(parse, before, lines);
      var more, stopped := ProcessLines(parse, lines);
      out := out + more;
      if stopped {
        StopAt(parse, chunks, k);
        return;
      }
    }
    assert chunks[..k] == chunks;
  }

  /** A stream cut short anywhere yields a prefix of what the whole stream yields. */
  lemma CutShort(parse: string -> Parsed, text: string, cut: nat)
    requires cut <= |text|
    ensures ReadAll(parse, text[..cut]) <= ReadAll(parse, text)
  {
    assert text == text[..cut] + text[cut..];
    StoppedEarly(parse, text[..cut], text[cut..]);
  }

  // ----- JSON strings, as JSON.stringify writes them

  /** One character inside a JSON string: quotes, backslashes and control characters are escaped. */
  function EscapeChar(c: char): (e: string)
    ensures |e| == 1 || |e| == 2 || |e| == 6
  {
    if c == '"' then "\\\""
    else if c == '\\' then "\\\\"
    else if c == '\U{8}' then "\\b"
    else if c == '\t' then "\\t"
    else if c == '\n' then "\\n"
    else if c == '\U{c}' then "\\f"
    else if c == '\r' then "\\r"
    else if c < ' ' then "\\u00" + [DigitChar(c as int / 16), DigitChar(c as int % 16)]
    else [c]
  }

  function Escape(s: string): string {
    if s == "" then "" else EscapeChar(s[0]) + Escape(s[1..])
  }

  function Quote(s: string): string {
    "\"" + Escape(s) + "\""
  }

  /** The character an escape sequence without hexadecimal digits stands for. */
  function Unescaped(c: char): char {
    if c == 'b' then '\U{8}' else if c == 't' then '\t' else if c == 'n' then '\n'
    else if c == 'f' then '\U{c}' else if c == 'r' then '\r' else c
  }

  function Unescape(s: string): string {
    if s == "" then ""
    else if s[0] != '\\' || |s| == 1 then [s[0]] + Unescape(s[1..])
    else if s[1] == 'u' && |s| >= 6 then
      [((DigitValue(s[4]) * 16 + DigitValue(s[5])) % 256) as char] + Unescape(s[6..])
    else [Unescaped(s[1])] + Unescape(s[2..])
  }

  lemma EscapeCharPlain(c: char)
    ensures forall i | 0 <= i < |EscapeChar(c)| :: ' ' <= EscapeChar(c)[i]
  {
  }

  /** An encoded string never contains a raw newline or any other control character. */
  lemma {:induction false} NoControlCharacters(s: string)
    ensures forall i | 0 <= i < |Quote(s)| :: ' ' <= Quote(s)[i]
  {
    if s == "" {
    } else {
      hide EscapeChar;
      NoControlCharacters(s[1..]);
      EscapeCharPlain(s[0]);
      var e, rest := EscapeChar(s[0]), Escape(s[1..]);
      forall i | 0 <= i < |rest| ensures ' ' <= rest[i] {
        assert Quote(s[1..])[i + 1] == rest[i];
      }
      assert Escape(s) == e + rest;
    }
  }

  lemma UnescapePlain(c: char, rest: string)
    requires c != '\\'
    ensures Unescape([c] + rest) == [c] + Unescape(rest)
  {
    assert ([c] + rest)[1..] == rest;
  }

  lemma UnescapeShort(e: string, rest: string)
    requires |e| == 2 && e[0] == '\\' && e[1] != 'u'
    ensures Unescape(e + rest) == [Unescaped(e[1])] + Unescape(rest)
  {
    assert (e + rest)[2..] == rest;
  }

  lemma UnescapeHex(e: string, rest: string)
    requires |e| == 6 && e[0] == '\\' && e[1] == 'u'
    ensures Unescape(e + rest) == [((DigitValue(e[4]) * 16 + DigitValue(e[5])) % 256) as char] + Unescape(rest)
  {
    assert (e + rest)[6..] == rest;
  }

  /** The two digits written for a control character without a short escape. */
  lemma ControlDigits(c: char)
    requires |EscapeChar(c)| == 6
    ensures
      var e := EscapeChar(c);
      e[0] == '\\' && e[1] == 'u' && DigitValue(e[4]) * 16 + DigitValue(e[5]) == c as int < 256
  {
    hide DigitValue, DigitChar;
    DigitRoundTrip(c as int / 16);
    DigitRoundTrip(c as int % 16);
  }

  lemma PlainChar(c: char)
    requires |EscapeChar(c)| == 1
    ensures EscapeChar(c) == [c] && c != '\\'
  {
  }

  lemma ShortEscape(c: char)
    requires |EscapeChar(c)| == 2
    ensures
      var e := EscapeChar(c);
      e[0] == '\\' && e[1] != 'u' && Unescaped(e[1]) == c
  {
  }

  lemma EscapeCharRoundTrip(c: char, rest: string)
    ensures Unescape(EscapeChar(c) + rest) == [c] + Unescape(rest)
  {
    var e := EscapeChar(c);
    hide EscapeChar, Unescape, Unescaped, DigitValue;
    if |e| == 1 {
      PlainChar(c);
      UnescapePlain(c, rest);
    } else if |e| == 2 {
      ShortEscape(c);
      UnescapeShort(e, rest);
    } else {
      ControlDigits(c);
      UnescapeHex(e, rest);
    }
  }

  /** The encoding loses nothing. */
  lemma {:induction false} QuoteRoundTrip(s: string)
    ensures Unescape(Escape(s)) == s
  {
    if s == "" {
    } else {
      EscapeCharRoundTrip(s[0], Escape(s[1..]));
      QuoteRoundTrip(s[1..]);
    }
  }

  // ----- The writer

  datatype StreamEvent = Chunk(content: string) | Usage(inputTokens: nat, outputTokens: nat)

  function ChunkJson(content: string): string {
    "{\"type\":\"chunk\",\"content\":" + Quote(content) + "}"
  }

  function DoneJson(fullText: string, inputTokens: nat, outputTokens: nat): string {
    "{\"type\":\"done\",\"content\":" + Quote(fullText) + ",\"usage\":{\"inputTokens\":" + Decimal(inputTokens)
    + ",\"outputTokens\":" + Decimal(outputTokens) + "}}"
  }

  /** The event of a token overrun has no details, the one of a failed stream does. */
  function ErrorJson(error: string, details: Option<string>): string {
    match details
    case None => "{\"error\":" + Quote(error) + "}"
    case Some(d) => "{\"error\":" + Quote(error) + ",\"details\":" + Quote(d) + "}"
  }

  function Frame(json: string): string {
    PREFIX + json + "\n\n"
  }

  function Frames(contents: seq<string>): string {
    if contents == [] then "" else Frames(contents[..|contents| - 1]) + Frame(ChunkJson(contents[|contents| - 1]))
  }

  function Contents(events: seq<StreamEvent>): seq<string> {
    if events == [] then []
    else Contents(events[..|events| - 1]) + (match events[|events| - 1] case Chunk(c) => [c] case Usage(_, _) => [])
  }

  function Filtered(scan: string -> string, contents: seq<string>): seq<string> {
    if contents == [] then [] else Filtered(scan, contents[..|contents| - 1]) + [scan(contents[|contents| - 1])]
  }

  /** Token counts as accumulated: a zero in a usage event keeps the earlier count. */
  function UsageOf(events: seq<StreamEvent>): (nat, nat) {
    if events == [] then (0, 0)
    else
      var (i, o) := UsageOf(events[..|events| - 1]);
      match events[|events| - 1]
      case Chunk(_) => (i, o)
      case Usage(i', o') => (if i' != 0 then i' else i, if o' != 0 then o' else o)
  }

  /** What the loop has done after some of the events. */
  ghost predicate Relayed(events: seq<StreamEvent>, scan: string -> string, written: string, fullText: string,
                          writes: nat, inputTokens: nat, outputTokens: nat)
  {
    && writes == |Contents(events)|
    && written == Frames(Filtered(scan, Contents(events)))
    && fullText == Flatten(Contents(events))
    && (inputTokens, outputTokens) == UsageOf(events)
  }

  lemma RelayedNothing(scan: string -> string)
    ensures Relayed([], scan, "", "", 0, 0, 0)
  {
  }

  lemma RelayedChunk(events: seq<StreamEvent>, scan: string -> string, written: string, fullText: string,
                     writes: nat, i: nat, o: nat, c: string)
    requires Relayed(events, scan, written, fullText, writes, i, o)
    ensures Relayed(events + [Chunk(c)], scan, written + Frame(ChunkJson(scan(c))), fullText + c, writes + 1, i, o)
  {
    var events', contents := events + [Chunk(c)], Contents(events);
    assert events'[..|events|] == events;
    assert Contents(events') == contents + [c];
    assert (contents + [c])[..|contents|] == contents;
    var filtered := Filtered(scan, contents);
    assert (filtered + [scan(c)])[..|filtered|] == filtered;
  }

  lemma RelayedUsage(events: seq<StreamEvent>, scan: string -> string, written: string, fullText: string,
                     writes: nat, i: nat, o: nat, i': nat, o': nat)
    requires Relayed(events, scan, written, fullText, writes, i, o)
    ensures Relayed(events + [Usage(i', o')], scan, written, fullText, writes,
                    if i' != 0 then i' else i, if o' != 0 then o' else o)
  {
    assert (events + [Usage(i', o')])[..|events|] == events;
    assert Contents(events) + [] == Contents(events);
  }

  /**
   * The streaming loop: writes every chunk filtered, accumulates the unfiltered text and the usage, and
   * gives up when a write fails because the client is gone (write number `lost`, if any).
   */
  method StreamChunks(events: seq<StreamEvent>, scan: string -> string, lost: Option<nat>)
    returns (written: string, fullText: string, inputTokens: nat, outputTokens: nat, abandoned: bool)
    ensures abandoned <==> lost.Some? && lost.value < |Contents(events)|
    ensures abandoned ==> written == Frames(Filtered(scan, Contents(events)[..lost.value]))
    ensures !abandoned ==>
              && written == Frames(Filtered(scan, Contents(events)))
              && fullText == Flatten(Contents(events))
              && (inputTokens, outputTokens) == UsageOf(events)
  {
    hide ChunkJson, Frame, Contents, Frames, Filtered, Flatten, UsageOf;
    RelayedNothing(scan);
    assert events[..0] == [];
    written, fullText, inputTokens, outputTokens, abandoned := "", "", 0, 0, false;
    var k, writes := 0, 0;
    while k < |events|
      invariant 0 <= k <= |events|
      invariant lost.Some? ==> writes <= lost.value
      invariant Relayed(events[..k], scan, written, fullText, writes, inputTokens, outputTokens)
    {
      assert events[..k + 1] == events[..k] + [events[k]];
      match events[k] {
        case Chunk(chunk) =>
          if lost == Some(writes) {
            ContentsPrefix(events, k);
            fullText, abandoned := fullText + chunk, true;
            return;
          }
          RelayedChunk(events[..k], scan, written, fullText, writes, inputTokens, outputTokens, chunk);
          fullText := fullText + chunk;
          written := written + Frame(ChunkJson(scan(chunk)));
          writes := writes + 1;
        case Usage(i, o) =>
          RelayedUsage(events[..k], scan, written, fullText, writes, inputTokens, outputTokens, i, o);
          inputTokens := if i != 0 then i else inputTokens;
          outputTokens := if o != 0 then o else outputTokens;
      }
      k := k + 1;
    }
    assert events[..k] == events;
  }

  lemma {:induction false} ContentsPrefix(events: seq<StreamEvent>, k: nat)
    requires k < |events| && events[k].Chunk?
    ensures |Contents(events[..k])| < |Contents(events)|
    ensures Contents(events[..k]) == Contents(events)[..|Contents(events[..k])|]
    decreases |events|
  {
    var init := events[..|events| - 1];
    if k == |init| {
      assert init == events[..k];
    } else {
      ContentsPrefix(init, k);
      assert init[..k] == events[..k];
    }
  }

  // ----- Writer and reader

  /** How a response ends after its chunks. */
  datatype Ending =
    | Done(fullText: string, inputTokens: nat, outputTokens: nat)
    | Failed(error: string, details: Option<string>)
    | Lost

  function EndFrame(e: Ending): string {
    match e
    case Done(fullText, i, o) => Frame(DoneJson(fullText, i, o))
    case Failed(error, details) => Frame(ErrorJson(error, details))
    case Lost => ""
  }

  /** The JSON parser recognises what the JSON encoder wrote. */
  ghost predicate Agrees(parse: string -> Parsed) {
    && (forall c :: parse(ChunkJson(c)) == ChunkEvent(c))
    && (forall t, i, o :: parse(DoneJson(t, i, o)) == DoneEvent)
    && (forall e, d :: parse(ErrorJson(e, d)) == ErrorEvent)
  }

  /** Text without control characters. */
  ghost predicate Plain(s: string) {
    forall i | 0 <= i < |s| :: ' ' <= s[i]
  }

  lemma {:induction false} DecimalPlain(n: nat)
    ensures Plain(Decimal(n))
  {
    if n >= 10 {
      DecimalPlain(n / 10);
    }
  }

  lemma PlainConcat(a: string, b: string)
    requires Plain(a) && Plain(b)
    ensures Plain(a + b)
  {
  }

  lemma QuotePlain(before: string, s: string, after: string)
    requires Plain(before) && Plain(after)
    ensures Plain(before + Quote(s) + after)
  {
    NoControlCharacters(s);
    PlainConcat(before, Quote(s));
    PlainConcat(before + Quote(s), after);
  }

  lemma ChunkPlain(content: string)
    ensures Plain(ChunkJson(content)) && ChunkJson(content) != "" && ChunkJson(content)[0] == '{'
  {
    QuotePlain("{\"type\":\"chunk\",\"content\":", content, "}");
  }

  lemma ErrorPlain(error: string, details: Option<string>)
    ensures Plain(ErrorJson(error, details)) && ErrorJson(error, details) != "" && ErrorJson(error, details)[0] == '{'
  {
    var head, mid := "{\"error\":", ",\"details\":";
    match details {
      case None => QuotePlain(head, error, "}");
      case Some(d) =>
        QuotePlain(head, error, mid);
        QuotePlain(head + Quote(error) + mid, d, "}");
    }
  }

  lemma DonePlain(fullText: string, i: nat, o: nat)
    ensures Plain(DoneJson(fullText, i, o)) && DoneJson(fullText, i, o) != "" && DoneJson(fullText, i, o)[0] == '{'
  {
    var head, mid, sep := "{\"type\":\"done\",\"content\":", ",\"usage\":{\"inputTokens\":", ",\"outputTokens\":";
    QuotePlain(head, fullText, mid);
    DecimalPlain(i);
    DecimalPlain(o);
    var start := head + Quote(fullText) + mid;
    PiecesPlain(start, Decimal(i), sep, Decimal(o), "}}");
  }

  lemma PiecesPlain(a: string, b: string, c: string, d: string, e: string)
    requires Plain(a) && Plain(b) && Plain(c) && Plain(d) && Plain(e) && a != ""
    ensures Plain(a + b + c + d + e) && (a + b + c + d + e)[0] == a[0]
  {
    hide Plain;
    PlainConcat(a, b);
    PlainConcat(a + b, c);
    PlainConcat(a + b + c, d);
    PlainConcat(a + b + c + d, e);
  }

  /** A frame adds its data line and an empty line, and leaves nothing in the buffer. */
  lemma FrameLines(text: string, json: string)
    requires Plain(json) && Rest(text, NEWLINE) == ""
    ensures Complete(text + Frame(json), NEWLINE) == Complete(text, NEWLINE) + [PREFIX + json] + [""]
    ensures Rest(text + Frame(json), NEWLINE) == ""
  {
    var line := PREFIX + json;
    PlainConcat(PREFIX, json);
    LineAppended(text, line);
    SplitSnoc(text + line, NEWLINE, NEWLINE);
    SplitSnoc(text + line + [NEWLINE], NEWLINE, NEWLINE);
    assert text + Frame(json) == text + line + [NEWLINE] + [NEWLINE];
  }

  lemma LineAppended(text: string, line: string)
    requires Plain(line) && Rest(text, NEWLINE) == ""
    ensures Complete(text + line, NEWLINE) == Complete(text, NEWLINE) && Rest(text + line, NEWLINE) == line
  {
    SplitConcat(text, line, NEWLINE);
    assert "" + line == line;
    SplitNone(line, NEWLINE);
  }

  lemma FrameConsumed(parse: string -> Parsed, text: string, json: string)
    requires Plain(json) && json != "" && json[0] == '{' && Rest(text, NEWLINE) == ""
    requires !Consume(parse, Complete(text, NEWLINE)).1
    ensures
      var out := ReadAll(parse, text);
      Consume(parse, Complete(text + Frame(json), NEWLINE)) ==
      match parse(json)
      case ChunkEvent(c) => (out + [c], false)
      case DoneEvent => (out, true)
      case _ => (out, false)
  {
    FrameLines(text, json);
    var lines := Complete(text, NEWLINE);
    ConsumeSnoc(parse, lines, PREFIX + json);
    ConsumeSnoc(parse, lines + [PREFIX + json], "");
    assert (PREFIX + json)[|PREFIX|..] == json;
  }

  lemma NothingRead(parse: string -> Parsed)
    ensures Rest("", NEWLINE) == "" && Consume(parse, Complete("", NEWLINE)) == ([], false)
  {
  }

  lemma {:induction false} FramesConsumed(parse: string -> Parsed, contents: seq<string>)
    requires Agrees(parse)
    ensures Rest(Frames(contents), NEWLINE) == ""
    ensures Consume(parse, Complete(Frames(contents), NEWLINE)) == (contents, false)
  {
    hide Consume, Complete, Rest, ChunkJson, Frame, Plain;
    if contents == [] {
      NothingRead(parse);
    } else {
      var init, c := contents[..|contents| - 1], contents[|contents| - 1];
      FramesConsumed(parse, init);
      ChunkPlain(c);
      FrameConsumed(parse, Frames(init), ChunkJson(c));
      FrameLines(Frames(init), ChunkJson(c));
      assert contents == init + [c];
    }
  }

  /**
   * Writer and reader undo each other: whatever contents are written, however the response ends, and
   * however the text is cut into chunks, the reader yields exactly those contents in order. An error
   * event at the end leaves no trace.
   */
  lemma WriterThenReader(parse: string -> Parsed, contents: seq<string>, e: Ending, chunks: seq<string>)
    requires Agrees(parse) && Flatten(chunks) == Frames(contents) + EndFrame(e)
    ensures ReadAll(parse, Flatten(chunks)) == contents
  {
    hide Consume, Complete, Rest, ChunkJson, DoneJson, ErrorJson, Frame, Frames, Plain;
    FramesConsumed(parse, contents);
    match e {
      case Done(t, i, o) =>
        DonePlain(t, i, o);
        FrameConsumed(parse, Frames(contents), DoneJson(t, i, o));
      case Failed(error, details) =>
        ErrorPlain(error, details);
        FrameConsumed(parse, Frames(contents), ErrorJson(error, details));
      case Lost => assert Frames(contents) + "" == Frames(contents);
    }
  }

  const CHUNK_HEAD := "{\"type\":\"chunk\",\"content\":\""
  const DONE_HEAD := "{\"type\":\"done\",\"content\":"

  /** A recogniser of the writer's own three shapes. */
  function OwnShapes(data: string): Parsed {
    if CHUNK_HEAD <= data && |data| >= |CHUNK_HEAD| + 2 then ChunkEvent(Unescape(data[|CHUNK_HEAD|..|data| - 2]))
    else if DONE_HEAD <= data then DoneEvent
    else ErrorEvent
  }

  lemma OwnChunk(c: string)
    ensures OwnShapes(ChunkJson(c)) == ChunkEvent(c)
  {
    hide Escape, Unescape;
    var data := ChunkJson(c);
    assert data == CHUNK_HEAD + Escape(c) + "\"}";
    assert data[|CHUNK_HEAD|..|data| - 2] == Escape(c);
    QuoteRoundTrip(c);
  }

  lemma OwnDone(t: string, i: nat, o: nat)
    ensures OwnShapes(DoneJson(t, i, o)) == DoneEvent
  {
    hide Quote, Decimal, Unescape;
    var data := DoneJson(t, i, o);
    assert data[..|DONE_HEAD|] == DONE_HEAD;
    assert data[9] == 'd' && CHUNK_HEAD[9] == 'c';
  }

  lemma OwnError(e: string, d: Option<string>)
    ensures OwnShapes(ErrorJson(e, d)) == ErrorEvent
  {
    hide Quote, Unescape;
    assert ErrorJson(e, d)[2] == 'e' && CHUNK_HEAD[2] == DONE_HEAD[2] == 't';
  }

  /** What is asked of the JSON parser can be met: the three shapes are told apart and lose nothing. */
  lemma AgreementPossible()
    ensures Agrees(OwnShapes)
  {
    hide ChunkJson, DoneJson, ErrorJson, OwnShapes;
    forall c ensures OwnShapes(ChunkJson(c)) == ChunkEvent(c) {
      OwnChunk(c);
    }
    forall t, i, o ensures OwnShapes(DoneJson(t, i, o)) == DoneEvent {
      OwnDone(t, i, o);
    }
    forall e, d ensures OwnShapes(ErrorJson(e, d)) == ErrorEvent {
      OwnError(e, d);
    }
  }
}
