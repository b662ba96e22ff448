/** The backend's own logic: splitting a document into overlapping chunks,
    assembling the model prompt, turning the model's token stream into
    protocol frames, and the bookkeeping of an upload.

    MongoDB, Pinecone, the embedding and chat services and PDF text
    extraction are foreign; their results are parameters. */
module Backend {
  import opened Wrappers
  import opened Seqs
  import opened Text
  import opened Protocol

  // ---------------------------------------------------------------- chunk_text

  const DefaultChunkSize: nat := 1000
  const DefaultOverlap: int := 200

  /** `text[start:start + size]`; Python clamps the end to the length. */
  function Window(text: string, start: nat, size: nat): (w: string)
    requires start <= |text|
    ensures |w| == Min(size, |text| - start)
    ensures w == text[start..start + |w|]
  {
    text[start..Min(start + size, |text|)]
  }

  /** The windows examined from `start` on, one every `step` characters. */
  function WindowsFrom(text: string, start: nat, size: nat, step: nat): (ws: seq<string>)
    requires step > 0
    // a window is examined exactly when `start` is inside the text
    ensures ws == [] <==> start >= |text|
    decreases |text| - start
  {
    if start >= |text| then []
    else [Window(text, start, size)] + WindowsFrom(text, start + step, size, step)
  }

  /** The windows that are not white space only, in order. */
  function NonBlank(ws: seq<string>): (r: seq<string>)
    ensures |r| <= |ws|
  {
    if ws == [] then []
    else (if IsBlank(ws[0]) then [] else [ws[0]]) + NonBlank(ws[1..])
  }

  /** The chunks kept from `start` on: each non-blank window, in order. */
  function ChunksFrom(text: string, start: nat, size: nat, step: nat): seq<string>
    requires step > 0
    decreases |text| - start
  {
    if start >= |text| then []
    else
      var w := Window(text, start, size);
      (if IsBlank(w) then [] else [w]) + ChunksFrom(text, start + step, size, step)
  }

  /** What `chunk_text(text, size, overlap)` returns. */
  function TextChunks(text: string, size: nat, overlap: int): (chunks: seq<string>)
    requires overlap < size
    ensures chunks == NonBlank(WindowsFrom(text, 0, size, size - overlap))
  {
    ChunksAreNonBlankWindows(text, 0, size, size - overlap);
    ChunksFrom(text, 0, size, size - overlap)
  }

  /** `chunk_text`: slide a window of `chunkSize` characters forward by
      `chunkSize - overlap`, keeping the windows that are not blank. The loop
      only terminates when `overlap < chunkSize`. */
  method ChunkText(text: string, chunkSize: nat, overlap: int) returns (chunks: seq<string>)
    requires overlap < chunkSize
    ensures chunks == TextChunks(text, chunkSize, overlap)
  {
    chunks := [];
    var start: nat := 0;
    var textLen := |text|;
    var step: nat := chunkSize - overlap;
    ghost var all := TextChunks(text, chunkSize, overlap);
    while start < textLen
      invariant chunks + ChunksFrom(text, start, chunkSize, step) == all
      decreases textLen - start
    {
      var chunk := Window(text, start, chunkSize);
      ghost var later := ChunksFrom(text, start + step, chunkSize, step);
      if !IsBlank(chunk) {
        assert ChunksFrom(text, start, chunkSize, step) == [chunk] + later;
        assert chunks + ([chunk] + later) == (chunks + [chunk]) + later;
        chunks := chunks + [chunk];
      } else {
        assert ChunksFrom(text, start, chunkSize, step) == later;
      }
      start := start + step;
    }
  }

  /** The kept chunks are the windows filtered by `NonBlank`. */
  lemma {:induction false} ChunksAreNonBlankWindows(text: string, start: nat, size: nat, step: nat)
    requires step > 0
    ensures ChunksFrom(text, start, size, step) == NonBlank(WindowsFrom(text, start, size, step))
    decreases |text| - start
  {
    if start < |text| {
      ChunksAreNonBlankWindows(text, start + step, size, step);
      NextWindowKept(text, start, size, step);
    }
  }

  /** One window further: the window at `start` is kept exactly when it is not blank. */
  lemma NextWindowKept(text: string, start: nat, size: nat, step: nat)
    requires step > 0 && start < |text|
    requires ChunksFrom(text, start + step, size, step) == NonBlank(WindowsFrom(text, start + step, size, step))
    ensures ChunksFrom(text, start, size, step) == NonBlank(WindowsFrom(text, start, size, step))
  {
    var w, rest := Window(text, start, size), WindowsFrom(text, start + step, size, step);
    assert WindowsFrom(text, start, size, step) == [w] + rest;
    NonBlankCons(w, rest);
    assert ChunksFrom(text, start, size, step) == (if IsBlank(w) then [] else [w]) + ChunksFrom(text, start + step, size, step);
  }

  lemma NonBlankCons(w: string, rest: seq<string>)
    ensures NonBlank([w] + rest) == (if IsBlank(w) then [] else [w]) + NonBlank(rest)
  {
    assert ([w] + rest)[1..] == rest && ([w] + rest)[0] == w;
  }

  /** The filter keeps exactly the windows that are not blank. */
  lemma {:induction false} NonBlankFilters(ws: seq<string>)
    ensures forall c :: c in NonBlank(ws) <==> c in ws && !IsBlank(c)
  {
    if ws != [] {
      NonBlankFilters(ws[1..]);
      assert ws == [ws[0]] + ws[1..];
    }
  }

  lemma {:induction false} WindowsAreShort(text: string, start: nat, size: nat, step: nat)
    requires step > 0
    ensures forall w :: w in WindowsFrom(text, start, size, step) ==> |w| <= size
    decreases |text| - start
  {
    if start < |text| {
      WindowsAreShort(text, start + step, size, step);
    }
  }

  /** Every chunk is a non-empty, non-blank window of at most `size` characters. */
  lemma ChunkIsShortAndNotBlank(text: string, size: nat, overlap: int, c: string)
    requires overlap < size && c in TextChunks(text, size, overlap)
    ensures c in WindowsFrom(text, 0, size, size - overlap)
    ensures 0 < |c| <= size && !IsBlank(c)
  {
    var ws := WindowsFrom(text, 0, size, size - overlap);
    ChunksAreNonBlankWindows(text, 0, size, size - overlap);
    assert c in NonBlank(ws);
    NonBlankFilters(ws);
    assert c in ws && !IsBlank(c);
    WindowsAreShort(text, 0, size, size - overlap);
    assert |c| <= size;
    assert IsBlank([]);
  }

  /** Window `k` starts at `k * step`. */
  lemma {:induction false} WindowAt(text: string, start: nat, size: nat, step: nat, k: nat)
    requires step > 0 && k < |WindowsFrom(text, start, size, step)|
    ensures start + k * step < |text|
    ensures WindowsFrom(text, start, size, step)[k] == Window(text, start + k * step, size)
    decreases k
  {
    var rest := WindowsFrom(text, start + step, size, step);
    assert start < |text| && WindowsFrom(text, start, size, step) == [Window(text, start, size)] + rest;
    if k > 0 {
      assert WindowsFrom(text, start, size, step)[k] == rest[k - 1];
      WindowAt(text, start + step, size, step, k - 1);
      NextMultiple(step, k);
    }
  }

  lemma NextMultiple(step: nat, k: nat)
    requires k > 0
    ensures step + (k - 1) * step == k * step
  {
  }

  /** The number of windows examined is the least `m` with
      `start + m * step >= |text|`, that is `ceil((|text| - start) / step)`. */
  lemma {:induction false} WindowCountBounds(text: string, start: nat, size: nat, step: nat)
    requires step > 0
    ensures var m := |WindowsFrom(text, start, size, step)|;
            start + m * step >= |text| && (m > 0 ==> start + (m - 1) * step < |text|)
    decreases |text| - start
  {
    if start < |text| {
      WindowCountBounds(text, start + step, size, step);
      var m' := |WindowsFrom(text, start + step, size, step)|;
      assert |WindowsFrom(text, start, size, step)| == m' + 1;
      NextMultiple(step, m' + 1);
      if m' > 0 {
        NextMultiple(step, m');
      }
    }
  }

  lemma EmptyTextHasNoChunks(size: nat, overlap: int)
    requires overlap < size
    ensures TextChunks("", size, overlap) == []
  {
  }

  // ------------------------------------------------------------ prompt assembly

  /** A message of the chat completion request. */
  datatype ChatMessage = ChatMessage(role: string, content: string)

  const FallbackPrompt: string :=
    "You are an expert research assistant.\nThe user's question could not be answered directly from the document.\n\nTask:\n- Provide a thoughtful, general answer based on academic and technical best practices.\n- If relevant, suggest possible improvements, additions or analysis approaches.\n- Be concise and professional."

  const GroundedHead: string :=
    "You are a helpful AI assistant that answers questions based on the provided document context.\n\nDocument Context:\n"

  const GroundedTail: string :=
    "\n\nInstructions:\n- Use the context above as your main reference.\n- If the answer isn't clearly stated, infer the most likely explanation.\n- If absolutely nothing relevant is present, politely say so.\n- Be concise and clear."

  /** The prompt that grounds the answer in the retrieved context. */
  function GroundedPrompt(context: string): (prompt: string)
    // the context sits between the fixed opening and closing text, and can be read back
    ensures |prompt| == |GroundedHead| + |context| + |GroundedTail|
    ensures StartsWith(prompt, GroundedHead) && EndsWith(prompt, GroundedTail)
    ensures prompt[|GroundedHead|..|prompt| - |GroundedTail|] == context
  {
    GroundedHead + context + GroundedTail
  }

  /** The grounded prompt's fixed text alone is longer than the fallback prompt. */
  lemma PromptsDiffer(context: string)
    ensures GroundedPrompt(context) != FallbackPrompt
  {
    assert |GroundedHead| == 113 && |GroundedTail| == 222 && |FallbackPrompt| == 312;
  }

  /** The retrieved match texts joined by a blank line. */
  function JoinContext(matchTexts: seq<string>): (context: string)
    ensures IsBlank(context) <==> forall i :: 0 <= i < |matchTexts| ==> IsBlank(matchTexts[i])
    ensures |matchTexts| == 1 ==> context == matchTexts[0]
  {
    assert IsBlank("\n\n");
    JoinBlankIffAllBlank(matchTexts, "\n\n");
    if matchTexts == [] then "" else JoinWith(matchTexts, "\n\n")
  }

  /** The system message: the fallback prompt exactly when every retrieved
      text is white space (so the joined context is), otherwise the grounded
      prompt around the context. */
  function SystemMessage(matchTexts: seq<string>): (m: ChatMessage)
    ensures m.role == "system"
    ensures m.content == FallbackPrompt <==> forall i :: 0 <= i < |matchTexts| ==> IsBlank(matchTexts[i])
    ensures m.content != FallbackPrompt ==> m.content == GroundedPrompt(JoinContext(matchTexts))
  {
    var context := JoinContext(matchTexts);
    if IsBlank(context) then ChatMessage("system", FallbackPrompt)
    else
      PromptsDiffer(context);
      ChatMessage("system", GroundedPrompt(context))
  }

  /** The request's message list: the system message, the last five turns of
      the client's history in order, then the user's message. */
  method BuildMessages(system: ChatMessage, history: seq<ChatMessage>, message: string)
    returns (messages: seq<ChatMessage>)
    ensures |messages| == 2 + Min(|history|, 5)
    ensures messages[0] == system && messages[|messages| - 1] == ChatMessage("user", message)
    ensures messages[1..|messages| - 1] == history[|history| - Min(|history|, 5)..]
  {
    messages := [system];
    var recent := LastN(history, 5);
    var i := 0;
    while i < |recent|
      invariant 0 <= i <= |recent|
      invariant messages == [system] + recent[..i]
    {
      messages := messages + [ChatMessage(recent[i].role, recent[i].content)];
      i := i + 1;
    }
    messages := messages + [ChatMessage("user", message)];
    assert messages[1..|messages| - 1] == recent;
  }

  // -------------------------------------------------------------- the generator

  /** One content frame per non-empty delta, in order; `None` is a chunk with
      no delta, no content, or one that failed to parse. */
  function ContentFrames(deltas: seq<Option<string>>): (frames: seq<Frame>)
    ensures |frames| <= |deltas|
    ensures forall i :: 0 <= i < |frames| ==> frames[i].ContentFrame? && frames[i].content != ""
    ensures Contents(frames) == ResponseText(deltas)
    decreases |deltas|
  {
    if deltas == [] then []
    else
      var init := ContentFrames(deltas[..|deltas| - 1]);
      var last := deltas[|deltas| - 1];
      if last.Some? && last.value != "" then
        ContentsAppend(init, [ContentFrame(last.value)]);
        init + [ContentFrame(last.value)]
      else init
  }

  /** The indices of the non-empty deltas, in increasing order. */
  function DeltaPositions(deltas: seq<Option<string>>): (js: seq<nat>)
    ensures forall k :: 0 <= k < |js| ==> js[k] < |deltas| && deltas[js[k]].Some? && deltas[js[k]].value != ""
    ensures forall k, l :: 0 <= k < l < |js| ==> js[k] < js[l]
    decreases |deltas|
  {
    if deltas == [] then []
    else
      var init := DeltaPositions(deltas[..|deltas| - 1]);
      var last := deltas[|deltas| - 1];
      assert forall k :: 0 <= k < |init| ==> deltas[init[k]] == deltas[..|deltas| - 1][init[k]];
      if last.Some? && last.value != "" then init + [|deltas| - 1] else init
  }

  /** Every non-empty delta has a position. */
  lemma {:induction false} DeltaPositionsComplete(deltas: seq<Option<string>>, j: nat)
    requires j < |deltas| && deltas[j].Some? && deltas[j].value != ""
    ensures j in DeltaPositions(deltas)
    decreases |deltas|
  {
    if j < |deltas| - 1 {
      assert deltas[..|deltas| - 1][j] == deltas[j];
      DeltaPositionsComplete(deltas[..|deltas| - 1], j);
    }
  }

  /** One content frame per non-empty delta, in order: the k-th frame carries
      the k-th non-empty delta. */
  lemma {:induction false} ContentFramesFollowDeltas(deltas: seq<Option<string>>)
    ensures |ContentFrames(deltas)| == |DeltaPositions(deltas)|
    ensures forall k :: 0 <= k < |ContentFrames(deltas)| ==>
              ContentFrames(deltas)[k] == ContentFrame(deltas[DeltaPositions(deltas)[k]].value)
    decreases |deltas|
  {
    if deltas != [] {
      var prefix := deltas[..|deltas| - 1];
      var last := deltas[|deltas| - 1];
      ContentFramesFollowDeltas(prefix);
      var fs, js := ContentFrames(prefix), DeltaPositions(prefix);
      forall k | 0 <= k < |fs| ensures fs[k] == ContentFrame(deltas[js[k]].value) {
        assert deltas[js[k]] == prefix[js[k]];
      }
      if last.Some? && last.value != "" {
        var fs', js' := fs + [ContentFrame(last.value)], js + [|deltas| - 1];
        assert ContentFrames(deltas) == fs' && DeltaPositions(deltas) == js';
        forall k | 0 <= k < |fs'| ensures fs'[k] == ContentFrame(deltas[js'[k]].value) {
          if k < |fs| {
            assert fs'[k] == fs[k] && js'[k] == js[k];
          }
        }
      } else {
        assert ContentFrames(deltas) == fs && DeltaPositions(deltas) == js;
      }
    }
  }

  /** The text a frame carries: its content, or nothing. */
  function FrameText(f: Frame): string {
    match f
    case ContentFrame(c) => c
    case _ => ""
  }

  /** The texts of the content frames, concatenated. */
  function Contents(frames: seq<Frame>): string
    decreases |frames|
  {
    if frames == [] then ""
    else Contents(frames[..|frames| - 1]) + FrameText(frames[|frames| - 1])
  }

  lemma {:induction false} ContentsAppend(a: seq<Frame>, b: seq<Frame>)
    ensures Contents(a + b) == Contents(a) + Contents(b)
    decreases |b|
  {
    if b == [] {
      assert a + b == a;
    } else {
      var n := |b| - 1;
      ContentsAppend(a, b[..n]);
      InitOfAppend(a, b);
      ConcatAssoc(Contents(a), Contents(b[..n]), FrameText(b[n]));
    }
  }

  /** `assistant_response`: the non-empty deltas concatenated. */
  function ResponseText(deltas: seq<Option<string>>): (response: string)
    // the last delta's text is the end of the response
    ensures deltas != [] && deltas[|deltas| - 1].Some? ==> EndsWith(response, deltas[|deltas| - 1].value)
    decreases |deltas|
  {
    if deltas == [] then ""
    else
      var last := deltas[|deltas| - 1];
      ResponseText(deltas[..|deltas| - 1]) + (if last.Some? then last.value else "")
  }

  /** The response is empty exactly when no delta carried text. */
  lemma {:induction false} EmptyResponse(deltas: seq<Option<string>>)
    ensures ResponseText(deltas) == "" <==> forall i :: 0 <= i < |deltas| ==> deltas[i].None? || deltas[i].value == ""
    decreases |deltas|
  {
    if deltas != [] {
      var init := deltas[..|deltas| - 1];
      EmptyResponse(init);
      assert forall i :: 0 <= i < |init| ==> init[i] == deltas[i];
    }
  }

  /** Everything `generate` yields when the model produced `deltas` and then
      either finished (`failure == false`) or raised `error`. */
  function GeneratedFrames(deltas: seq<Option<string>>, failure: bool, error: string): (frames: seq<Frame>)
    // content frames first, then exactly one terminal frame, last
    ensures |frames| >= 1 && forall i :: 0 <= i < |frames| - 1 ==> frames[i].ContentFrame?
    ensures frames[|frames| - 1] == if failure then ErrorFrame(error) else DoneFrame
    ensures DoneFrame in frames <==> !failure
    ensures (exists i :: 0 <= i < |frames| && frames[i].ErrorFrame?) <==> failure
    // the content streamed is the whole response
    ensures Contents(frames) == ResponseText(deltas)
  {
    var content := ContentFrames(deltas);
    var terminal := if failure then ErrorFrame(error) else DoneFrame;
    var frames := content + [terminal];
    ContentsAppend(content, [terminal]);
    assert frames[..|frames| - 1] == content && frames[|frames| - 1] == terminal;
    assert forall i :: 0 <= i < |frames| - 1 ==> frames[i] == content[i];
    assert failure ==> forall i :: 0 <= i < |frames| ==> frames[i] != DoneFrame;
    assert !failure ==> forall i :: 0 <= i < |frames| ==> !frames[i].ErrorFrame?;
    frames
  }

  /** `generate`: stream the model's deltas as frames, then save the exchange
      and send `done`; an exception anywhere (in the model call, the stream or
      the save) ends the stream with one `error` frame and saves nothing. */
  method Generate(deltas: seq<Option<string>>, failure: bool, error: string,
                  history: seq<ChatMessage>, message: string)
    returns (frames: seq<Frame>, response: string, saved: Option<seq<ChatMessage>>)
    ensures frames == GeneratedFrames(deltas, failure, error)
    ensures response == ResponseText(deltas)
    ensures saved == if failure then None
                     else Some(history + [ChatMessage("user", message), ChatMessage("assistant", response)])
  {
    frames := [];
    response := "";
    var i := 0;
    while i < |deltas|
      invariant 0 <= i <= |deltas|
      invariant frames == ContentFrames(deltas[..i])
      invariant response == ResponseText(deltas[..i])
    {
      assert deltas[..i + 1][..i] == deltas[..i];
      var content := deltas[i];
      if content.Some? && content.value != "" {
        response := response + content.value;
        frames := frames + [ContentFrame(content.value)];
      }
      i := i + 1;
    }
    assert deltas[..i] == deltas;
    if failure {
      saved := None;
      frames := frames + [ErrorFrame(error)];
    } else {
      saved := Some(history + [ChatMessage("user", message), ChatMessage("assistant", response)]);
      frames := frames + [DoneFrame];
    }
  }

  // ------------------------------------------------------------------ upload

  /** A record upserted into the vector index (its embedding values are foreign). */
  datatype Vector = Vector(id: string, documentId: string, userId: string, chunkNumber: nat, text: string)

  datatype DocumentRecord = DocumentRecord(id: string, userId: string, filename: string,
                                           filePath: string, chunkCount: nat)

  datatype HttpError = HttpError(status: nat, detail: string)

  const MetadataTextLimit: nat := 1000

  /** `f"{doc_id}#chunk_{i}"` */
  function VectorId(docId: string, i: nat): (id: string)
    // the document id, the marker, then the chunk number in decimal, which reads back
    ensures |id| > |docId| + 7 && id[..|docId| + 7] == docId + "#chunk_"
    ensures IsDigits(id[|docId| + 7..]) && DigitsValue(id[|docId| + 7..]) == i
  {
    NatToStringRoundTrip(i);
    var id := docId + "#chunk_" + NatToString(i);
    assert id[|docId| + 7..] == NatToString(i);
    id
  }

  lemma VectorIdInjective(docId: string, i: nat, j: nat)
    requires VectorId(docId, i) == VectorId(docId, j)
    ensures i == j
  {
    var p := |docId + "#chunk_"|;
    assert NatToString(i) == VectorId(docId, i)[p..];
    assert NatToString(j) == VectorId(docId, j)[p..];
    NatToStringInjective(i, j);
  }

  function VectorFor(docId: string, userId: string, chunks: seq<string>, i: nat): (v: Vector)
    requires i < |chunks|
    ensures v.id == VectorId(docId, i) && v.documentId == docId && v.userId == userId && v.chunkNumber == i
    // the metadata text is the chunk, cut to its first 1000 characters
    ensures |v.text| == Min(MetadataTextLimit, |chunks[i]|) && v.text <= chunks[i]
    ensures |chunks[i]| <= MetadataTextLimit ==> v.text == chunks[i]
  {
    Vector(VectorId(docId, i), docId, userId, i, chunks[i][..Min(MetadataTextLimit, |chunks[i]|)])
  }

  /** The vectors of the first `n` chunks whose embedding and upsert did not fail. */
  function IndexedVectors(docId: string, userId: string, chunks: seq<string>, failed: set<nat>, n: nat)
    : (vs: seq<Vector>)
    requires n <= |chunks|
    ensures forall k :: 0 <= k < |vs| ==> vs[k].chunkNumber < n && vs[k].chunkNumber !in failed
    ensures forall k :: 0 <= k < |vs| ==> vs[k] == VectorFor(docId, userId, chunks, vs[k].chunkNumber)
    ensures forall k, l :: 0 <= k < l < |vs| ==> vs[k].chunkNumber < vs[l].chunkNumber
  {
    if n == 0 then []
    else
      var init := IndexedVectors(docId, userId, chunks, failed, n - 1);
      if n - 1 in failed then init
      else
        var vs := init + [VectorFor(docId, userId, chunks, n - 1)];
        assert vs[|init|].chunkNumber == n - 1;
        vs
  }

  /** Every chunk that did not fail is indexed. */
  lemma {:induction false} IndexedVectorsComplete(docId: string, userId: string, chunks: seq<string>,
                                                  failed: set<nat>, n: nat, i: nat)
    requires n <= |chunks| && i < n && i !in failed
    ensures exists k :: 0 <= k < |IndexedVectors(docId, userId, chunks, failed, n)| &&
                        IndexedVectors(docId, userId, chunks, failed, n)[k].chunkNumber == i
  {
    var k := IndexedPosition(docId, userId, chunks, failed, n, i);
  }

  /** Where chunk `i` sits among the indexed vectors. */
  lemma {:induction false} IndexedPosition(docId: string, userId: string, chunks: seq<string>,
                                           failed: set<nat>, n: nat, i: nat) returns (k: nat)
    requires n <= |chunks| && i < n && i !in failed
    ensures k < |IndexedVectors(docId, userId, chunks, failed, n)|
    ensures IndexedVectors(docId, userId, chunks, failed, n)[k].chunkNumber == i
  {
    var init := IndexedVectors(docId, userId, chunks, failed, n - 1);
    IndexedVectorsStep(docId, userId, chunks, failed, n);
    if i < n - 1 {
      k := IndexedPosition(docId, userId, chunks, failed, n - 1, i);
      assert IndexedVectors(docId, userId, chunks, failed, n)[k] == init[k];
    } else {
      k := |init|;
      assert IndexedVectors(docId, userId, chunks, failed, n)[k] == VectorFor(docId, userId, chunks, i);
    }
  }

  /** One more chunk: it is indexed unless its upload failed. */
  lemma IndexedVectorsStep(docId: string, userId: string, chunks: seq<string>, failed: set<nat>, n: nat)
    requires 0 < n <= |chunks|
    ensures var init := IndexedVectors(docId, userId, chunks, failed, n - 1);
            IndexedVectors(docId, userId, chunks, failed, n) ==
              if n - 1 in failed then init else init + [VectorFor(docId, userId, chunks, n - 1)]
  {
  }

  /** Distinct chunks get distinct vector ids, and with the default chunk size
      the metadata text is the whole chunk. */
  lemma IndexedVectorsAreDistinctWholeChunks(docId: string, userId: string, text: string, failed: set<nat>)
    ensures var chunks := TextChunks(text, DefaultChunkSize, DefaultOverlap);
            var vs := IndexedVectors(docId, userId, chunks, failed, |chunks|);
            (forall k, l :: 0 <= k < l < |vs| ==> vs[k].id != vs[l].id) &&
            (forall k :: 0 <= k < |vs| ==> vs[k].text == chunks[vs[k].chunkNumber])
  {
    var chunks := TextChunks(text, DefaultChunkSize, DefaultOverlap);
    var vs := IndexedVectors(docId, userId, chunks, failed, |chunks|);
    forall k, l | 0 <= k < l < |vs| ensures vs[k].id != vs[l].id {
      if vs[k].id == vs[l].id {
        VectorIdInjective(docId, vs[k].chunkNumber, vs[l].chunkNumber);
      }
    }
    forall k | 0 <= k < |vs| ensures vs[k].text == chunks[vs[k].chunkNumber] {
      var c := chunks[vs[k].chunkNumber];
      assert c in chunks;
      ChunkIsShortAndNotBlank(text, DefaultChunkSize, DefaultOverlap, c);
    }
  }

  /** `upload_document`: reject a name without the `.pdf` extension, store the
      file, split its text, index each chunk (a chunk whose embedding or upsert
      raises is skipped), and record the document with the number of chunks
      the text was split into, skipped ones included. */
  method UploadDocument(filename: string, docId: string, userId: string, uploadsDir: string,
                        extracted: Result<string, string>, failed: set<nat>)
    returns (result: Result<DocumentRecord, HttpError>, vectors: seq<Vector>)
    ensures !HasPdfExtension(filename) ==>
              result == Failure(HttpError(400, "Only PDF files are supported")) && vectors == []
    ensures HasPdfExtension(filename) && extracted.Failure? ==>
              result == Failure(HttpError(500, "Failed to extract text from PDF: " + extracted.error)) && vectors == []
    ensures HasPdfExtension(filename) && extracted.Success? ==>
              var chunks := TextChunks(extracted.value, DefaultChunkSize, DefaultOverlap);
              result == Success(DocumentRecord(docId, userId, filename, uploadsDir + "/" + docId + "_" + filename, |chunks|)) &&
              vectors == IndexedVectors(docId, userId, chunks, failed, |chunks|)
  {
    vectors := [];
    if !HasPdfExtension(filename) {
      return Failure(HttpError(400, "Only PDF files are supported")), [];
    }
    var filePath := uploadsDir + "/" + docId + "_" + filename;
    if extracted.Failure? {
      return Failure(HttpError(500, "Failed to extract text from PDF: " + extracted.error)), [];
    }
    var chunks := ChunkText(extracted.value, DefaultChunkSize, DefaultOverlap);
    var i := 0;
    while i < |chunks|
      invariant 0 <= i <= |chunks|
      invariant vectors == IndexedVectors(docId, userId, chunks, failed, i)
    {
      if i !in failed {
        vectors := vectors + [VectorFor(docId, userId, chunks, i)];
      }
      i := i + 1;
    }
    result := Success(DocumentRecord(docId, userId, filename, filePath, |chunks|));
  }
}
