/** What the two ends of the chat stream do together: the frames the backend
    yields, delivered in chunks that each hold whole frames, leave the full
    response in the chat page's assistant message; and the history the page
    sends reaches the prompt as its last five messages. */
module EndToEnd {
  import opened Wrappers
  import opened Seqs
  import opened Text
  import opened Protocol
  import opened ChatStream
  import opened Backend

  /** The part of the JSON codec the stream relies on: `json.dumps` output
      has no raw newline and `JSON.parse` reads it back. */
  predicate CodecFor(p: Payload, dumps: Payload -> string, parse: string -> Option<Payload>) {
    parse(dumps(p)) == Some(p) && '\n' !in dumps(p)
  }

  /** The events the page draws from a run of frames, frame by frame. */
  function FrameEvents(frames: seq<Frame>): seq<Event>
    decreases |frames|
  {
    if frames == [] then [] else PayloadEvents(PayloadOf(frames[0])) + FrameEvents(frames[1..])
  }

  lemma {:induction false} FrameEventsAppend(a: seq<Frame>, b: seq<Frame>)
    ensures FrameEvents(a + b) == FrameEvents(a) + FrameEvents(b)
    decreases |a|
  {
    if a == [] {
      assert a + b == b;
    } else {
      assert (a + b)[1..] == a[1..] + b;
      FrameEventsAppend(a[1..], b);
      ConcatAssoc(PayloadEvents(PayloadOf(a[0])), FrameEvents(a[1..]), FrameEvents(b));
    }
  }

  /** The lines of a run of frames: each frame is its `data: ` line and a blank line. */
  function FrameLines(frames: seq<Frame>, dumps: Payload -> string): seq<string>
    decreases |frames|
  {
    if frames == [] then []
    else [DataPrefix + dumps(PayloadOf(frames[0])), ""] + FrameLines(frames[1..], dumps)
  }

  /** A newline-free line followed by a blank line splits off as those two lines. */
  lemma SplitFrameLines(line: string, rest: string)
    requires '\n' !in line
    ensures Split(line + "\n\n" + rest, '\n') == [line, ""] + Split(rest, '\n')
  {
    assert line + "\n\n" + rest == line + ['\n'] + ([] + ['\n'] + rest);
    SplitAtSeparator(line, [] + ['\n'] + rest, '\n');
    SplitAtSeparator([], rest, '\n');
    SplitWithoutSeparator(line, '\n');
  }

  lemma {:induction false} SplitWire(frames: seq<Frame>, dumps: Payload -> string, parse: string -> Option<Payload>)
    requires forall p :: CodecFor(p, dumps, parse)
    ensures Split(WireAll(frames, dumps), '\n') == FrameLines(frames, dumps) + [""]
    decreases |frames|
  {
    if frames != [] {
      var line := DataPrefix + dumps(PayloadOf(frames[0]));
      var rest := WireAll(frames[1..], dumps);
      assert CodecFor(PayloadOf(frames[0]), dumps, parse);
      assert '\n' !in line;
      assert WireAll(frames, dumps) == line + "\n\n" + rest;
      SplitFrameLines(line, rest);
      SplitWire(frames[1..], dumps, parse);
      assert FrameLines(frames, dumps) + [""] == [line, ""] + (FrameLines(frames[1..], dumps) + [""]);
    }
  }

  /** One frame's two lines yield exactly that frame's events. */
  lemma FrameLineEvents(f: Frame, dumps: Payload -> string, parse: string -> Option<Payload>)
    requires CodecFor(PayloadOf(f), dumps, parse)
    ensures LinesEvents([DataPrefix + dumps(PayloadOf(f)), ""], parse) == PayloadEvents(PayloadOf(f))
  {
    var json := dumps(PayloadOf(f));
    var line := DataPrefix + json;
    assert line[..|DataPrefix|] == DataPrefix && line[|DataPrefix|..] == json;
    assert LineEvents(line, parse) == PayloadEvents(PayloadOf(f));
    assert LineEvents("", parse) == [];
    assert LinesEvents([line], parse) == LineEvents(line, parse) by { assert [line][..0] == []; }
    assert [line, ""][..1] == [line];
  }

  lemma {:induction false} LinesOfFrames(frames: seq<Frame>, dumps: Payload -> string, parse: string -> Option<Payload>)
    requires forall p :: CodecFor(p, dumps, parse)
    ensures LinesEvents(FrameLines(frames, dumps), parse) == FrameEvents(frames)
    decreases |frames|
  {
    if frames != [] {
      var pair := [DataPrefix + dumps(PayloadOf(frames[0])), ""];
      assert FrameLines(frames, dumps) == pair + FrameLines(frames[1..], dumps);
      FrameLineEvents(frames[0], dumps, parse);
      LinesEventsAppend(pair, FrameLines(frames[1..], dumps), parse);
      LinesOfFrames(frames[1..], dumps, parse);
    }
  }

  /** A chunk of whole frames yields exactly the frames' events. */
  lemma WholeFramesChunk(frames: seq<Frame>, dumps: Payload -> string, parse: string -> Option<Payload>)
    requires forall p :: CodecFor(p, dumps, parse)
    ensures ChunkEvents(WireAll(frames, dumps), parse) == FrameEvents(frames)
  {
    SplitWire(frames, dumps, parse);
    LinesEventsAppend(FrameLines(frames, dumps), [""], parse);
    LinesOfFrames(frames, dumps, parse);
    assert LinesEvents([""], parse) == [] by { assert [""][..0] == []; }
  }

  /** The response body cut into chunks along frame boundaries. */
  function Deliver(groups: seq<seq<Frame>>, dumps: Payload -> string): (chunks: seq<string>)
    ensures |chunks| == |groups|
    ensures forall i :: 0 <= i < |groups| ==> chunks[i] == WireAll(groups[i], dumps)
  {
    seq(|groups|, i requires 0 <= i < |groups| => WireAll(groups[i], dumps))
  }

  lemma {:induction false} DeliveredEvents(groups: seq<seq<Frame>>, dumps: Payload -> string, parse: string -> Option<Payload>)
    requires forall p :: CodecFor(p, dumps, parse)
    ensures StreamEvents(Deliver(groups, dumps), parse) == FrameEvents(Flatten(groups))
    decreases |groups|
  {
    if groups != [] {
      var n := |groups| - 1;
      assert Deliver(groups, dumps)[..n] == Deliver(groups[..n], dumps);
      DeliveredEvents(groups[..n], dumps, parse);
      WholeFramesChunk(groups[n], dumps, parse);
      FrameEventsAppend(Flatten(groups[..n]), groups[n]);
    }
  }

  /** Content frames only: the message holds their text and is still streaming. */
  lemma {:induction false} ContentFramesFold(frames: seq<Frame>)
    requires forall i :: 0 <= i < |frames| ==> frames[i].ContentFrame?
    ensures Fold(Placeholder, FrameEvents(frames)) == Progress(Contents(frames), true)
    decreases |frames|
  {
    if frames != [] {
      var n := |frames| - 1;
      var init, c := frames[..n], frames[n].content;
      assert frames == init + [frames[n]];
      ContentFramesFold(init);
      FrameEventsAppend(init, [frames[n]]);
      assert Contents(frames) == Contents(init) + c;
      if c == "" {
        assert FrameEvents([frames[n]]) == [];
        assert FrameEvents(frames) == FrameEvents(init);
      } else {
        assert FrameEvents([frames[n]]) == [Delta(c)];
        assert FrameEvents(frames) == FrameEvents(init) + [Delta(c)];
        FoldSnoc(Placeholder, FrameEvents(init), Delta(c));
      }
    }
  }

  /** The terminal frame: `done` settles the message, an error leaves it streaming. */
  lemma TerminalFrameFold(text: string, terminal: Frame)
    requires !terminal.ContentFrame?
    ensures Fold(Progress(text, true), FrameEvents([terminal])) == Progress(text, terminal.ErrorFrame?)
  {
    assert [terminal][1..] == [];
    if terminal.DoneFrame? {
      assert FrameEvents([terminal]) == [Done];
    } else if terminal.error != "" {
      assert FrameEvents([terminal]) == [Notice(terminal.error)];
    } else {
      assert FrameEvents([terminal]) == [];
    }
  }

  /** Whatever the model produced, and however the body is cut along frame
      boundaries, the page ends with the whole response; the message is
      settled exactly when the generation did not fail. */
  lemma WholeFramesDeliverResponse(deltas: seq<Option<string>>, failure: bool, error: string,
                                   groups: seq<seq<Frame>>, dumps: Payload -> string,
                                   parse: string -> Option<Payload>)
    requires forall p :: CodecFor(p, dumps, parse)
    requires Flatten(groups) == GeneratedFrames(deltas, failure, error)
    ensures Fold(Placeholder, StreamEvents(Deliver(groups, dumps), parse)) == Progress(ResponseText(deltas), failure)
  {
    var frames := GeneratedFrames(deltas, failure, error);
    var n := |frames| - 1;
    var content := frames[..n];
    var terminal := frames[n];
    assert frames == content + [terminal];
    assert forall i :: 0 <= i < |content| ==> content[i].ContentFrame?;
    DeliveredEvents(groups, dumps, parse);
    ContentFramesFold(content);
    FrameEventsAppend(content, [terminal]);
    FoldAppend(Placeholder, FrameEvents(content), FrameEvents([terminal]));
    TerminalFrameFold(Contents(content), terminal);
    assert Contents(frames) == Contents(content) by { assert frames[..n] == content; }
  }

  /** The turn the page records for such a reply, read to its end. */
  lemma WholeFramesTurn(before: seq<Message>, input: string,
                        deltas: seq<Option<string>>, failure: bool, error: string,
                        groups: seq<seq<Frame>>, dumps: Payload -> string,
                        parse: string -> Option<Payload>)
    requires forall p :: CodecFor(p, dumps, parse)
    requires Flatten(groups) == GeneratedFrames(deltas, failure, error)
    ensures TurnTranscript(before, input, Reply(true, Deliver(groups, dumps), false), parse)
         == before + [UserMessage(input), Message(Assistant, ResponseText(deltas), failure)]
  {
    WholeFramesDeliverResponse(deltas, failure, error, groups, dumps, parse);
  }

  // ------------------------------------------------------- history to prompt

  function RoleName(r: Role): string {
    match r
    case User => "user"
    case Assistant => "assistant"
  }

  /** `conversation_history` as the backend receives it. */
  function WireHistory(ms: seq<Message>): (h: seq<ChatMessage>)
    ensures |h| == |ms|
    ensures forall i :: 0 <= i < |ms| ==> h[i] == ChatMessage(RoleName(ms[i].role), ms[i].content)
  {
    seq(|ms|, i requires 0 <= i < |ms| => ChatMessage(RoleName(ms[i].role), ms[i].content))
  }

  /** The page sends its last ten messages and the backend keeps the last five
      of those, so the prompt sees the last five messages of the transcript. */
  lemma PromptSeesLastFive(before: seq<Message>)
    ensures var h := WireHistory(HistoryWindow(before));
            h[|h| - Min(|h|, 5)..] == WireHistory(LastN(before, 5))
  {
    var w := HistoryWindow(before);
    var h := WireHistory(w);
    LastNOfLastN(before, HistoryLimit, 5);
    assert LastN(w, 5) == w[|w| - Min(|w|, 5)..];
    assert h[|h| - Min(|h|, 5)..] == WireHistory(LastN(w, 5));
  }
}
