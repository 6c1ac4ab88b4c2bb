/**
 * A whole streamed response (src/core/server/sampling-bridge-server.ts), from the provider's events
 * through the content filter, the socket and the sandbox's reader (src/executors/sandbox-executor.ts).
 */
module StreamedResponse {
  import opened Wrappers
  import opened Text
  import opened EventStream

  /** What follows the loop: the tokens fit, they do not, or the provider failed after its last event. */
  datatype Aftermath =
    | TokensFit
    | TokensExceeded(error: string)
    | ProviderFailed(details: string)

  function EndingOf(events: seq<StreamEvent>, after: Aftermath): Ending {
    match after
    case TokensFit => Done(Flatten(Contents(events)), UsageOf(events).0, UsageOf(events).1)
    case TokensExceeded(error) => Failed(error, None)
    case ProviderFailed(details) => Failed("Streaming error", Some(details))
  }

  /** The chunk contents that leave the server: all filtered ones, or those before the write that fails. */
  function Delivered(events: seq<StreamEvent>, scan: string -> string, lost: Option<nat>): seq<string> {
    var contents := Filtered(scan, Contents(events));
    if lost.Some? && lost.value < |contents| then contents[..lost.value] else contents
  }

  /** The text that leaves the server; the closing event does too, unless its own write or an earlier one fails. */
  function Sent(events: seq<StreamEvent>, scan: string -> string, lost: Option<nat>, after: Aftermath): string {
    Frames(Delivered(events, scan, lost)) +
    EndFrame(if lost.Some? && lost.value <= |Contents(events)| then Lost else EndingOf(events, after))
  }

  lemma {:induction false} FilteredEach(scan: string -> string, contents: seq<string>)
    ensures |Filtered(scan, contents)| == |contents|
    ensures forall i | 0 <= i < |contents| :: Filtered(scan, contents)[i] == scan(contents[i])
  {
    if contents == [] {
    } else {
      FilteredEach(scan, contents[..|contents| - 1]);
    }
  }

  lemma FilteredPrefix(scan: string -> string, contents: seq<string>, k: nat)
    requires k <= |contents|
    ensures |Filtered(scan, contents)| == |contents|
    ensures Filtered(scan, contents[..k]) == Filtered(scan, contents)[..k]
  {
    hide Filtered;
    FilteredEach(scan, contents);
    FilteredEach(scan, contents[..k]);
  }

  /** The streaming branch of handleRequest, from the loop to the last write. */
  method Respond(events: seq<StreamEvent>, scan: string -> string, lost: Option<nat>, after: Aftermath)
    returns (written: string)
    ensures written == Sent(events, scan, lost, after)
  {
    hide Filtered, Contents, Frames, Flatten, UsageOf, Frame, DoneJson, ErrorJson;
    FilteredPrefix(scan, Contents(events), 0);
    var text, fullText, inputTokens, outputTokens, abandoned := StreamChunks(events, scan, lost);
    if abandoned {
      FilteredPrefix(scan, Contents(events), lost.value);
      assert text + "" == text;
      return text;
    }
    var last := match after
      case TokensFit => Frame(DoneJson(fullText, inputTokens, outputTokens))
      case TokensExceeded(error) => Frame(ErrorJson(error, None))
      case ProviderFailed(details) => Frame(ErrorJson("Streaming error", Some(details)));
    var lastWriteFails := lost.Some? && lost.value <= |Contents(events)|;
    written := if lastWriteFails then text + "" else text + last;
  }

  /**
   * End to end: for any events, filter, failing write and outcome, and however the text is cut into
   * chunks, the sandbox yields exactly the filtered contents that left the server, in order; and if the
   * connection is cut anywhere, a prefix of them.
   */
  lemma EndToEnd(parse: string -> Parsed, events: seq<StreamEvent>, scan: string -> string, lost: Option<nat>,
                 after: Aftermath, chunks: seq<string>, cut: nat)
    requires Agrees(parse) && cut <= |Sent(events, scan, lost, after)|
    requires Flatten(chunks) == Sent(events, scan, lost, after)[..cut]
    ensures ReadAll(parse, Flatten(chunks)) <= Delivered(events, scan, lost) <= Filtered(scan, Contents(events))
    ensures cut == |Sent(events, scan, lost, after)| ==>
              ReadAll(parse, Flatten(chunks)) == Delivered(events, scan, lost)
  {
    hide Frames, ReadAll, EndFrame, EndingOf, Filtered, Contents, Agrees;
    var sent := Sent(events, scan, lost, after);
    var ending := if lost.Some? && lost.value <= |Contents(events)| then Lost else EndingOf(events, after);
    Whole(sent);
    WriterThenReader(parse, Delivered(events, scan, lost), ending, [sent]);
    CutShort(parse, sent, cut);
    assert cut == |sent| ==> sent[..cut] == sent;
  }

  lemma Whole(text: string)
    ensures Flatten([text]) == text
  {
    assert [text][..0] == [];
    assert "" + text == text;
  }

  /**
   * A failing write: when the write after the first k fails, exactly the frames of the first k filtered
   * contents have left the server and nothing else; every content leaves it when no write fails before.
   */
  lemma LostFrom(events: seq<StreamEvent>, scan: string -> string, k: nat, after: Aftermath)
    requires k <= |Contents(events)|
    ensures |Filtered(scan, Contents(events))| == |Contents(events)|
    ensures Sent(events, scan, Some(k), after) == Frames(Filtered(scan, Contents(events))[..k])
    ensures forall lost: Option<nat> | lost.None? || lost.value > |Contents(events)| ::
              Sent(events, scan, lost, after) == Sent(events, scan, None, after)
  {
    hide Frames, Filtered, Contents, EndingOf;
    FilteredPrefix(scan, Contents(events), k);
    var filtered := Filtered(scan, Contents(events));
    assert filtered[..|filtered|] == filtered;
    assert Frames(filtered[..k]) + "" == Frames(filtered[..k]);
  }

  // ----- The closing event

  /** Text, character by character, as it stands on the wire: a data line and an empty line. */
  function DataLine(json: string): string {
    "data: " + json + "\n\n"
  }

  /**
   * The last event of a response whose writes all succeed: done, with the unfiltered text and both token
   * counts; or the error of the overrun; or the streaming error with its details.
   */
  lemma ClosingEvent(events: seq<StreamEvent>, scan: string -> string, after: Aftermath)
    ensures
      var frames := Frames(Filtered(scan, Contents(events)));
      Sent(events, scan, None, after) == frames +
      match after
      case TokensFit =>
        DataLine("{\"type\":\"done\",\"content\":" + Quote(Flatten(Contents(events))) + ",\"usage\":{\"inputTokens\":"
                 + Decimal(UsageOf(events).0) + ",\"outputTokens\":" + Decimal(UsageOf(events).1) + "}}")
      case TokensExceeded(error) => DataLine("{\"error\":" + Quote(error) + "}")
      case ProviderFailed(details) =>
        DataLine("{\"error\":" + Quote("Streaming error") + ",\"details\":" + Quote(details) + "}")
  {
    hide Frames, Filtered, Quote, Decimal, Flatten, UsageOf, Contents;
  }

  /** And the events before it, one for each chunk. */
  lemma {:induction false} ChunkEvents(contents: seq<string>, c: string)
    ensures Frames(contents + [c]) == Frames(contents) + DataLine("{\"type\":\"chunk\",\"content\":" + Quote(c) + "}")
  {
    assert (contents + [c])[..|contents|] == contents;
  }

  // ----- What the loop collects

  /** The text collected is every chunk's content, in order, and nothing else. */
  lemma {:induction false} EachChunkCollected(events: seq<StreamEvent>, k: nat)
    requires k < |events|
    ensures Contents(events[..k]) <= Contents(events[..k + 1]) <= Contents(events)
    ensures Contents(events[..k + 1]) ==
            Contents(events[..k]) + match events[k] case Chunk(c) => [c] case Usage(_, _) => []
  {
    assert events[..k + 1][..k] == events[..k];
    assert Contents(events[..k]) + [] == Contents(events[..k]);
    ContentsGrow(events, k + 1);
  }

  lemma {:induction false} ContentsGrow(events: seq<StreamEvent>, k: nat)
    requires k <= |events|
    ensures Contents(events[..k]) <= Contents(events)
    decreases |events|
  {
    if k == |events| {
      assert events[..k] == events;
    } else {
      var init := events[..|events| - 1];
      ContentsGrow(init, k);
      assert init[..k] == events[..k];
    }
  }

  /** `n` is the input count, or output count, of the last usage event in which it is not zero. */
  ghost predicate LastCount(events: seq<StreamEvent>, n: nat, input: bool) {
    if n == 0 then forall k | 0 <= k < |events| && events[k].Usage? :: CountIn(events[k], input) == 0
    else exists k :: 0 <= k < |events| && IsLastCount(events, k, n, input)
  }

  ghost predicate IsLastCount(events: seq<StreamEvent>, k: nat, n: nat, input: bool) {
    && k < |events| && events[k].Usage? && CountIn(events[k], input) == n
    && forall j | k < j < |events| && events[j].Usage? :: CountIn(events[j], input) == 0
  }

  function CountIn(e: StreamEvent, input: bool): nat
    requires e.Usage?
  {
    if input then e.inputTokens else e.outputTokens
  }

  lemma LastCountLater(events: seq<StreamEvent>, e: StreamEvent, n: nat, input: bool)
    requires LastCount(events, n, input)
    ensures LastCount(events + [e], if e.Usage? && CountIn(e, input) != 0 then CountIn(e, input) else n, input)
  {
    if e.Usage? && CountIn(e, input) != 0 {
      assert IsLastCount(events + [e], |events|, CountIn(e, input), input);
    } else if n != 0 {
      var k :| 0 <= k < |events| && IsLastCount(events, k, n, input);
      assert IsLastCount(events + [e], k, n, input);
    }
  }

  /** The usage counted is that of the last usage events, a zero never overwriting an earlier count. */
  lemma {:induction false} UsageIsLast(events: seq<StreamEvent>)
    ensures LastCount(events, UsageOf(events).0, true) && LastCount(events, UsageOf(events).1, false)
  {
    if events == [] {
    } else {
      var rest, e := events[..|events| - 1], events[|events| - 1];
      UsageIsLast(rest);
      assert events == rest + [e];
      LastCountLater(rest, e, UsageOf(rest).0, true);
      LastCountLater(rest, e, UsageOf(rest).1, false);
    }
  }

  // ----- What one more line does to the reader

  lemma LineAdded(text: string, line: string)
    requires Rest(text, NEWLINE) == "" && NEWLINE !in line
    ensures Complete(text + line + [NEWLINE], NEWLINE) == Complete(text, NEWLINE) + [line]
  {
    hide Complete, Rest;
    SplitConcat(text, line, NEWLINE);
    SplitNone(line, NEWLINE);
    assert "" + line == line;
    assert Complete(text, NEWLINE) + [] == Complete(text, NEWLINE);
    SplitSnoc(text + line, NEWLINE, NEWLINE);
  }

  lemma DoneLine(line: string)
    requires "data: " <= line
    ensures line[6..] == "[DONE]" <==> line == "data: [DONE]"
  {
    assert line == "data: " + line[6..];
  }

  /** A complete line changes what is read only by its own event, and nothing at all once the stream has stopped. */
  lemma OneMoreLine(parse: string -> Parsed, text: string, line: string)
    requires Rest(text, NEWLINE) == "" && NEWLINE !in line
    ensures
      var stopped := Consume(parse, Complete(text, NEWLINE)).1;
      ReadAll(parse, text + line + [NEWLINE]) ==
      ReadAll(parse, text) +
      if !stopped && "data: " <= line && line != "data: [DONE]" && parse(line[6..]).ChunkEvent?
      then [parse(line[6..]).content] else []
  {
    hide Complete, Rest, Consume;
    LineAdded(text, line);
    ConsumeSnoc(parse, Complete(text, NEWLINE), line);
    assert ReadAll(parse, text) + [] == ReadAll(parse, text);
    if "data: " <= line {
      DoneLine(line);
    }
  }

  /** Both done markers end the stream: whatever follows them is not read. */
  lemma DoneEndsStream(parse: string -> Parsed, text: string, line: string, rest: string)
    requires Rest(text, NEWLINE) == "" && NEWLINE !in line
    requires line == "data: [DONE]" || ("data: " <= line && parse(line[6..]).DoneEvent?)
    ensures ReadAll(parse, text + line + [NEWLINE] + rest) == ReadAll(parse, text)
  {
    hide Complete, Rest, Consume;
    LineAdded(text, line);
    ConsumeSnoc(parse, Complete(text, NEWLINE), line);
    DoneLine(line);
    StoppedEarly(parse, text + line + [NEWLINE], rest);
  }
}
