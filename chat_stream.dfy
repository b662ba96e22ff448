/** The chat page's reading of a streamed reply, as values: each chunk is
    split on newlines by itself (nothing is carried over from one chunk to the
    next), every `data: ` line is parsed, and the parsed frames are folded into
    the assistant message. JSON decoding is the parameter `parse`. */
module ChatStream {
  import opened Wrappers
  import opened Seqs
  import opened Text
  import opened Protocol

  datatype Role = User | Assistant

  /** A transcript entry; a user message has no `streaming` flag, which reads as false. */
  datatype Message = Message(role: Role, content: string, streaming: bool)

  function UserMessage(text: string): Message {
    Message(User, text, false)
  }

  /** What a parsed frame does, in the order the page tests its fields:
      `content`, then `done`, then `error`. */
  datatype Event = Delta(text: string) | Done | Notice(message: string)

  function PayloadEvents(p: Payload): (evs: seq<Event>)
    // a frame that sets none of the three fields does nothing; content comes first
    ensures evs == [] <==> p.content == "" && !p.done && p.error == ""
    ensures p.content != "" ==> evs[0] == Delta(p.content)
    ensures |evs| <= 3
  {
    (if p.content != "" then [Delta(p.content)] else [])
    + (if p.done then [Done] else [])
    + (if p.error != "" then [Notice(p.error)] else [])
  }

  /** A line yields events only if it starts with `data: ` and the rest parses. */
  function LineEvents(line: string, parse: string -> Option<Payload>): (evs: seq<Event>)
    ensures evs != [] ==> StartsWith(line, DataPrefix) && parse(line[|DataPrefix|..]).Some?
    ensures StartsWith(line, DataPrefix) && parse(line[|DataPrefix|..]).Some? ==>
              evs == PayloadEvents(parse(line[|DataPrefix|..]).value)
  {
    if StartsWith(line, DataPrefix) then
      match parse(line[|DataPrefix|..])
      case None => []
      case Some(p) => PayloadEvents(p)
    else []
  }

  function LinesEvents(lines: seq<string>, parse: string -> Option<Payload>): (evs: seq<Event>)
    // each line yields at most three events
    ensures |evs| <= 3 * |lines|
    decreases |lines|
  {
    if lines == [] then []
    else LinesEvents(lines[..|lines| - 1], parse) + LineEvents(lines[|lines| - 1], parse)
  }

  /** `chunk.split("\n")`, then each line. */
  function ChunkEvents(chunk: string, parse: string -> Option<Payload>): (evs: seq<Event>)
    // at most three events per line of the chunk
    ensures |evs| <= 3 * |Split(chunk, '\n')|
  {
    LinesEvents(Split(chunk, '\n'), parse)
  }

  /** A chunk without a newline is a single line. */
  lemma OneLineChunk(chunk: string, parse: string -> Option<Payload>)
    requires '\n' !in chunk
    ensures ChunkEvents(chunk, parse) == LineEvents(chunk, parse)
  {
    SplitWithoutSeparator(chunk, '\n');
    assert [chunk][..0] == [];
  }

  function StreamEvents(chunks: seq<string>, parse: string -> Option<Payload>): (evs: seq<Event>)
    // a reply read in one chunk yields that chunk's events
    ensures |chunks| == 1 ==> evs == ChunkEvents(chunks[0], parse)
    decreases |chunks|
  {
    if chunks == [] then []
    else
      assert chunks[..|chunks| - 1] == [] <==> |chunks| == 1;
      StreamEvents(chunks[..|chunks| - 1], parse) + ChunkEvents(chunks[|chunks| - 1], parse)
  }

  lemma {:induction false} LinesEventsAppend(a: seq<string>, b: seq<string>, parse: string -> Option<Payload>)
    ensures LinesEvents(a + b, parse) == LinesEvents(a, parse) + LinesEvents(b, parse)
    decreases |b|
  {
    if b == [] {
      assert a + b == a;
    } else {
      var n := |b| - 1;
      LinesEventsAppend(a, b[..n], parse);
      InitOfAppend(a, b);
      assert LinesEvents(a + b, parse) == LinesEvents(a + b[..n], parse) + LineEvents(b[n], parse);
      assert LinesEvents(b, parse) == LinesEvents(b[..n], parse) + LineEvents(b[n], parse);
      ConcatAssoc(LinesEvents(a, parse), LinesEvents(b[..n], parse), LineEvents(b[n], parse));
    }
  }

  /** No carry-over: the events of a stream are those of its chunks, each
      decoded on its own. */
  lemma {:induction false} StreamEventsAppend(a: seq<string>, b: seq<string>, parse: string -> Option<Payload>)
    ensures StreamEvents(a + b, parse) == StreamEvents(a, parse) + StreamEvents(b, parse)
    decreases |b|
  {
    if b == [] {
      assert a + b == a;
    } else {
      var n := |b| - 1;
      StreamEventsAppend(a, b[..n], parse);
      InitOfAppend(a, b);
      assert StreamEvents(a + b, parse) == StreamEvents(a + b[..n], parse) + ChunkEvents(b[n], parse);
      assert StreamEvents(b, parse) == StreamEvents(b[..n], parse) + ChunkEvents(b[n], parse);
      ConcatAssoc(StreamEvents(a, parse), StreamEvents(b[..n], parse), ChunkEvents(b[n], parse));
    }
  }

  /** A frame cut by a chunk boundary is lost: neither half is a `data: ` line. */
  lemma SplitFrameIsLost(json: string, parse: string -> Option<Payload>)
    requires '\n' !in json
    ensures StreamEvents(["dat", "a: " + json + "\n\n"], parse) == []
  {
    SplitWithoutSeparator("dat", '\n');
    var head := "a: " + json;
    assert '\n' !in head;
    SplitWithoutSeparator(head, '\n');
    assert head + "\n\n" == head + ['\n'] + ([] + ['\n'] + []);
    SplitAtSeparator(head, [] + ['\n'] + [], '\n');
    SplitAtSeparator([], [], '\n');
    assert Split(head + "\n\n", '\n') == [head, "", ""];
    assert LineEvents("", parse) == [];
    assert LineEvents(head, parse) == [] by {
      if |DataPrefix| <= |head| {
        assert head[..|DataPrefix|][0] == 'a' != DataPrefix[0];
      }
    }
    assert LinesEvents([head], parse) == [] by { assert [head][..0] == []; }
    assert LinesEvents([head, ""], parse) == [] by { assert [head, ""][..1] == [head]; }
    assert LinesEvents([head, "", ""], parse) == [] by { assert [head, "", ""][..2] == [head, ""]; }
    assert LineEvents("dat", parse) == [];
    assert ChunkEvents("dat", parse) == [] by { assert ["dat"][..0] == []; }
    assert ["dat", "a: " + json + "\n\n"][..1] == ["dat"];
  }

  // ------------------------------------------------ folding into the transcript

  /** The accumulated `assistantMessage` and the `streaming` flag of the last message. */
  datatype Progress = Progress(text: string, streaming: bool)

  /** The placeholder appended once the response is ok. */
  const Placeholder: Progress := Progress("", true)

  function Step(p: Progress, e: Event): (q: Progress)
    // only `done` clears the flag, and a notice changes nothing
    ensures !q.streaming <==> e == Done || (e.Notice? && !p.streaming)
    ensures e.Notice? ==> q == p
  {
    match e
    case Delta(t) => Progress(p.text + t, true)
    case Done => Progress(p.text, false)
    case Notice(_) => p
  }

  function Fold(p: Progress, evs: seq<Event>): (q: Progress)
    // the message never shrinks, and without `done` it stays streaming
    ensures |p.text| <= |q.text|
    ensures Done !in evs && p.streaming ==> q.streaming
    decreases |evs|
  {
    if evs == [] then p else Step(Fold(p, evs[..|evs| - 1]), evs[|evs| - 1])
  }

  lemma FoldSnoc(p: Progress, evs: seq<Event>, e: Event)
    ensures Fold(p, evs + [e]) == Step(Fold(p, evs), e)
  {
    assert (evs + [e])[..|evs|] == evs;
  }

  /** One parsed frame: its content is appended, a `done` settles the
      message, a non-empty content reopens it, and the error changes nothing. */
  lemma FoldPayload(start: Progress, p: Payload)
    ensures Fold(start, PayloadEvents(p))
         == Progress(start.text + p.content,
                     if p.done then false else if p.content != "" then true else start.streaming)
  {
    var c: seq<Event> := if p.content != "" then [Delta(p.content)] else [];
    var d: seq<Event> := if p.done then [Done] else [];
    var e: seq<Event> := if p.error != "" then [Notice(p.error)] else [];
    assert PayloadEvents(p) == c + d + e;
    FoldAppend(start, c + d, e);
    FoldAppend(start, c, d);
    if p.content != "" { assert Fold(start, c) == Step(Fold(start, []), Delta(p.content)); }
    else { assert start.text + p.content == start.text; }
    if p.done { FoldSnoc(start, c, Done); assert c + d == c + [Done]; } else { assert c + d == c; }
    if p.error != "" { FoldSnoc(start, c + d, Notice(p.error)); assert c + d + e == (c + d) + [Notice(p.error)]; }
    else { assert c + d + e == c + d; }
  }

  lemma {:induction false} FoldAppend(p: Progress, a: seq<Event>, b: seq<Event>)
    ensures Fold(p, a + b) == Fold(Fold(p, a), b)
    decreases |b|
  {
    if b == [] {
      assert a + b == a;
    } else {
      assert (a + b)[..|a + b| - 1] == a + b[..|b| - 1];
      FoldAppend(p, a, b[..|b| - 1]);
    }
  }

  /** Reading one more chunk folds that chunk's events into the progress so far. */
  lemma FoldNextChunk(start: Progress, chunks: seq<string>, i: nat, parse: string -> Option<Payload>)
    requires i < |chunks|
    ensures Fold(start, StreamEvents(chunks[..i + 1], parse))
         == Fold(Fold(start, StreamEvents(chunks[..i], parse)), ChunkEvents(chunks[i], parse))
  {
    assert chunks[..i + 1][..i] == chunks[..i];
    FoldAppend(start, StreamEvents(chunks[..i], parse), ChunkEvents(chunks[i], parse));
  }

  /** Reading one more line, likewise. */
  lemma FoldNextLine(start: Progress, lines: seq<string>, j: nat, parse: string -> Option<Payload>)
    requires j < |lines|
    ensures Fold(start, LinesEvents(lines[..j + 1], parse))
         == Fold(Fold(start, LinesEvents(lines[..j], parse)), LineEvents(lines[j], parse))
  {
    assert lines[..j + 1][..j] == lines[..j];
    FoldAppend(start, LinesEvents(lines[..j], parse), LineEvents(lines[j], parse));
  }

  /** The text of the deltas, concatenated. */
  function DeltaText(evs: seq<Event>): string
    decreases |evs|
  {
    if evs == [] then ""
    else DeltaText(evs[..|evs| - 1]) + (match evs[|evs| - 1] case Delta(t) => t case _ => "")
  }

  /** The last delta-or-done event is a `done`. */
  function Settled(evs: seq<Event>): bool
    decreases |evs|
  {
    if evs == [] then false
    else match evs[|evs| - 1]
      case Done => true
      case Delta(_) => false
      case Notice(_) => Settled(evs[..|evs| - 1])
  }

  /** From the placeholder, the message holds every delta so far and is
      settled exactly when the last delta-or-done event was a `done`; error
      notices change nothing. */
  lemma {:induction false} FoldFromPlaceholder(evs: seq<Event>)
    ensures Fold(Placeholder, evs) == Progress(DeltaText(evs), !Settled(evs))
    decreases |evs|
  {
    if evs != [] {
      FoldFromPlaceholder(evs[..|evs| - 1]);
    }
  }

  lemma {:induction false} SettledNeedsDone(evs: seq<Event>)
    ensures Settled(evs) ==> Done in evs
    decreases |evs|
  {
    if evs != [] {
      SettledNeedsDone(evs[..|evs| - 1]);
    }
  }

  /** End of stream without a `done`: the message stays marked streaming. */
  lemma NoDoneStaysStreaming(evs: seq<Event>)
    requires Done !in evs
    ensures Fold(Placeholder, evs).streaming
  {
    FoldFromPlaceholder(evs);
    SettledNeedsDone(evs);
  }

  // ------------------------------------------------------------- one chat turn

  /** What the network does with the request: `ok` is false when `fetch`
      rejects or the status is not ok; otherwise the body arrives as `chunks`,
      and `failure` says whether the next read then throws. */
  datatype Reply = Reply(ok: bool, chunks: seq<string>, failure: bool)

  /** The body of the request to `/chat`. */
  datatype ChatRequest = ChatRequest(documentId: string, message: string, history: seq<Message>)

  const HistoryLimit: nat := 10

  /** `messages.slice(-10)`: the last ten messages before the send, in order. */
  function HistoryWindow(before: seq<Message>): (h: seq<Message>)
    ensures |h| == Min(|before|, HistoryLimit)
    ensures h == before[|before| - |h|..]
  {
    LastN(before, HistoryLimit)
  }

  /** `newMessages[newMessages.length - 1] = m` on a copy; on an empty array the
      assignment creates no element. */
  function ReplaceLast(ms: seq<Message>, m: Message): (r: seq<Message>)
    ensures |r| == |ms|
    ensures ms != [] ==> r == ms[..|ms| - 1] + [m]
  {
    if ms == [] then ms else ms[..|ms| - 1] + [m]
  }

  lemma ReplaceLastOfTurn(before: seq<Message>, user: Message, last: Message, m: Message)
    ensures ReplaceLast(before + [user, last], m) == before + [user, m]
  {
    assert (before + [user, last])[..|before| + 1] == before + [user];
  }

  /** `prev.slice(0, -1)`: drop the last element, if any. */
  function DropLast(ms: seq<Message>): (r: seq<Message>)
    ensures |r| == if ms == [] then 0 else |ms| - 1
    ensures r == ms[..|r|]
  {
    if ms == [] then ms else ms[..|ms| - 1]
  }

  /** The transcript a send leaves behind, starting from `before`. */
  function TurnTranscript(before: seq<Message>, input: string, reply: Reply,
                          parse: string -> Option<Payload>): (r: seq<Message>)
    // earlier messages are untouched
    ensures |r| >= |before| && r[..|before|] == before
    // a rejected request restores the transcript; a failed read keeps the user
    // message and drops the assistant message
    ensures |r| == |before| + (if !reply.ok then 0 else if reply.failure then 1 else 2)
    ensures reply.ok ==> r[|before|] == UserMessage(input)
    // a completed read leaves every delta in the assistant message, settled
    // exactly when the last delta-or-done event was a `done`
    ensures reply.ok && !reply.failure ==>
              var evs := StreamEvents(reply.chunks, parse);
              r[|before| + 1] == Message(Assistant, DeltaText(evs), !Settled(evs))
  {
    if !reply.ok then before
    else if reply.failure then before + [UserMessage(input)]
    else
      var p := Fold(Placeholder, StreamEvents(reply.chunks, parse));
      FoldFromPlaceholder(StreamEvents(reply.chunks, parse));
      before + [UserMessage(input), Message(Assistant, p.text, p.streaming)]
  }

  /** A reply that ends without `done` leaves a message marked streaming that
      is no longer last once the next turn is sent. */
  /** The transcript of an accepted request, unfolded. */
  lemma AcceptedTurn(before: seq<Message>, input: string, reply: Reply, parse: string -> Option<Payload>)
    requires reply.ok
    ensures reply.failure ==> TurnTranscript(before, input, reply, parse) == before + [UserMessage(input)]
    ensures !reply.failure ==>
              TurnTranscript(before, input, reply, parse)
              == before + [UserMessage(input), Message(Assistant, Fold(Placeholder, StreamEvents(reply.chunks, parse)).text,
                                                       Fold(Placeholder, StreamEvents(reply.chunks, parse)).streaming)]
  {
  }

  lemma StreamingMessageCanBeBuried(before: seq<Message>, input: string, input': string,
                                   reply: Reply, reply': Reply, parse: string -> Option<Payload>)
    requires reply.ok && !reply.failure && Done !in StreamEvents(reply.chunks, parse)
    requires reply'.ok
    ensures var t := TurnTranscript(before, input, reply, parse);
            var t' := TurnTranscript(t, input', reply', parse);
            t'[|t| - 1].streaming && |t| - 1 < |t'| - 1
  {
    var evs := StreamEvents(reply.chunks, parse);
    SettledNeedsDone(evs);
    var t := TurnTranscript(before, input, reply, parse);
    var t' := TurnTranscript(t, input', reply', parse);
    assert t'[..|t|][|t| - 1] == t[|t| - 1];
  }
}
