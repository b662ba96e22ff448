/** The chat page's state: the selected document, its transcript, the input
    box, the busy flag and the browser's local storage of transcripts. Each
    handler runs to completion, and the effects it triggers run right after it
    in declaration order: load history when the selection changes, save
    history when the transcript or the selection changes. */
module Dashboard {
  import opened Wrappers
  import opened Text
  import opened Protocol
  import opened ChatStream

  /** A document object as the list holds it. `fetch` tells apart objects
      that carry the same id but came from different fetches of the list:
      the selection effect compares objects, not ids. */
  datatype Doc = Doc(id: string, fetch: nat)

  function HistoryKey(id: string): (key: string)
    ensures |key| == |"chat_history_"| + |id| && key[|"chat_history_"|..] == id
  {
    "chat_history_" + id
  }

  lemma HistoryKeyInjective(a: string, b: string)
    ensures HistoryKey(a) == HistoryKey(b) <==> a == b
  {
    if HistoryKey(a) == HistoryKey(b) {
      assert a == HistoryKey(a)[|"chat_history_"|..];
    }
  }

  /** The stored transcript of a document; none stored reads as empty. */
  function Load(storage: map<string, seq<Message>>, id: string): (ms: seq<Message>)
    ensures HistoryKey(id) !in storage ==> ms == []
    ensures ms != [] ==> HistoryKey(id) in storage && storage[HistoryKey(id)] == ms
  {
    if HistoryKey(id) in storage then storage[HistoryKey(id)] else []
  }

  /** A second save under the same key overwrites the first. */
  lemma SaveTwice(storage: map<string, seq<Message>>, key: string, first: seq<Message>, second: seq<Message>)
    ensures storage[key := first][key := second] == storage[key := second]
  {
  }

  /** Saving one document's transcript leaves every other document's as it was. */
  lemma LoadAfterSave(storage: map<string, seq<Message>>, saved: string, id: string, ms: seq<Message>)
    ensures Load(storage[HistoryKey(saved) := ms], id) == if id == saved then ms else Load(storage, id)
  {
    HistoryKeyInjective(saved, id);
  }

  /** The file picker's verdict, before anything is sent. */
  datatype FilePick = NoFile | NotPdf | Accepted(name: string)

  function PickFile(file: Option<string>): (r: FilePick)
    ensures r == NoFile <==> file == None
    ensures r.Accepted? <==> file.Some? && HasPdfExtension(file.value)
    ensures r.Accepted? ==> r.name == file.value
  {
    match file
    case None => NoFile
    case Some(name) => if HasPdfExtension(name) then Accepted(name) else NotPdf
  }

  class ChatPage {
    var selectedDoc: Option<Doc>
    var messages: seq<Message>
    var inputMessage: string
    var loading: bool
    var storage: map<string, seq<Message>>

    /** Once the effects have run, the selected document's stored transcript
        is the one on screen. */
    ghost predicate Valid()
      reads this
    {
      selectedDoc.Some? ==>
        HistoryKey(selectedDoc.value.id) in storage && storage[HistoryKey(selectedDoc.value.id)] == messages
    }

    constructor (saved: map<string, seq<Message>>)
      ensures Valid()
      ensures selectedDoc == None && messages == [] && inputMessage == "" && !loading
      ensures storage == saved
    {
      selectedDoc := None;
      messages := [];
      inputMessage := "";
      loading := false;
      storage := saved;
    }

    /** `setMessages` followed by the save effect. */
    method SetMessages(ms: seq<Message>)
      modifies this`messages, this`storage
      ensures messages == ms
      ensures storage == if selectedDoc.Some? then old(storage)[HistoryKey(selectedDoc.value.id) := ms]
                         else old(storage)
    {
      messages := ms;
      if selectedDoc.Some? {
        storage := storage[HistoryKey(selectedDoc.value.id) := ms];
      }
    }

    method TypeInput(text: string)
      modifies this`inputMessage
      ensures inputMessage == text
    {
      inputMessage := text;
    }

    /** A click on a document card: select it and clear the transcript. A new
        object triggers the load effect, which reads the stored transcript
        before the save effect of the same render writes the empty one; the
        same object again only clears, and the save effect then overwrites
        the stored transcript with the empty one. */
    method SelectDocument(doc: Doc)
      requires Valid()
      modifies this`selectedDoc, this`messages, this`storage
      ensures Valid() && selectedDoc == Some(doc)
      ensures old(selectedDoc) == Some(doc) ==> messages == []
      ensures old(selectedDoc) != Some(doc) ==> messages == Load(old(storage), doc.id)
      ensures storage == old(storage)[HistoryKey(doc.id) := messages]
    {
      if selectedDoc == Some(doc) {
        SetMessages([]);
      } else {
        var saved := Load(storage, doc.id);
        selectedDoc := Some(doc);
        SetMessages([]);
        SetMessages(saved);
      }
    }

    /** After the server confirms a deletion, the selection is cleared if it was
        the deleted document. The save effect sees no selection, so the
        deleted document's stored transcript stays where it was. */
    method DeleteDocument(docId: string, deleted: bool)
      requires Valid()
      modifies this`selectedDoc, this`messages
      ensures Valid()
      ensures deleted && old(selectedDoc).Some? && old(selectedDoc).value.id == docId ==>
                selectedDoc == None && messages == []
      ensures !(deleted && old(selectedDoc).Some? && old(selectedDoc).value.id == docId) ==>
                selectedDoc == old(selectedDoc) && messages == old(messages)
    {
      if deleted && selectedDoc.Some? && selectedDoc.value.id == docId {
        selectedDoc := None;
        messages := [];
      }
    }

    /** From an ok response on: append the assistant placeholder, read every
        chunk, and drop the last message if a read throws. */
    method ReadReply(reply: Reply, parse: string -> Option<Payload>, ghost before: seq<Message>, ghost text: string)
      requires reply.ok
      requires Valid() && selectedDoc.Some?
      requires messages == before + [UserMessage(text)]
      modifies this`messages, this`storage
      ensures messages == TurnTranscript(before, text, reply, parse)
      ensures storage == old(storage)[HistoryKey(selectedDoc.value.id) := messages]
    {
      ghost var key, saved := HistoryKey(selectedDoc.value.id), storage;
      SetMessages(messages + [Message(Assistant, "", true)]);
      ghost var placeholder := messages;
      ghost var progress := ReadBody(reply.chunks, parse, before, text);
      SaveTwice(saved, key, placeholder, messages);
      ghost var read := messages;
      SettleTurn(reply, parse, before, text, progress);
      SaveTwice(saved, key, read, messages);
    }

    /** After the read loop: a read that threw drops the assistant message. */
    method SettleTurn(reply: Reply, parse: string -> Option<Payload>, ghost before: seq<Message>, ghost text: string,
                      ghost progress: Progress)
      requires reply.ok && selectedDoc.Some?
      requires progress == Fold(Placeholder, StreamEvents(reply.chunks, parse))
      requires messages == before + [UserMessage(text), Message(Assistant, progress.text, progress.streaming)]
      modifies this`messages, this`storage
      ensures messages == TurnTranscript(before, text, reply, parse)
      ensures storage == if reply.failure then old(storage)[HistoryKey(selectedDoc.value.id) := messages]
                         else old(storage)
    {
      AcceptedTurn(before, text, reply, parse);
      if reply.failure {
        assert DropLast(messages) == before + [UserMessage(text)];
        SetMessages(DropLast(messages));
      }
    }

    /** The read loop: every chunk, in order, into the placeholder. */
    method ReadBody(chunks: seq<string>, parse: string -> Option<Payload>, ghost before: seq<Message>, ghost text: string)
      returns (ghost progress: Progress)
      requires Valid() && selectedDoc.Some?
      requires messages == before + [UserMessage(text), Message(Assistant, "", true)]
      modifies this`messages, this`storage
      ensures progress == Fold(Placeholder, StreamEvents(chunks, parse))
      ensures messages == before + [UserMessage(text), Message(Assistant, progress.text, progress.streaming)]
      ensures storage == old(storage)[HistoryKey(selectedDoc.value.id) := messages]
    {
      ghost var key, saved := HistoryKey(selectedDoc.value.id), storage;
      var assistantMessage := "";
      ghost var streaming := true;
      var i := 0;
      while i < |chunks|
        invariant 0 <= i <= |chunks|
        invariant Fold(Placeholder, StreamEvents(chunks[..i], parse)) == Progress(assistantMessage, streaming)
        invariant messages == before + [UserMessage(text), Message(Assistant, assistantMessage, streaming)]
        invariant storage == saved[key := messages]
      {
        ghost var shown := messages;
        assistantMessage, streaming := ReadChunk(chunks[i], parse, before, UserMessage(text), assistantMessage, streaming);
        SaveTwice(saved, key, shown, messages);
        FoldNextChunk(Placeholder, chunks, i, parse);
        i := i + 1;
      }
      assert chunks[..i] == chunks;
      progress := Progress(assistantMessage, streaming);
    }

    /** The body of the read loop for one chunk: every line of it, in order. */
    method ReadChunk(chunk: string, parse: string -> Option<Payload>, ghost before: seq<Message>,
                     ghost userMessage: Message, assistantMessage: string, ghost streaming: bool)
      returns (accumulated: string, ghost streaming': bool)
      requires Valid() && selectedDoc.Some?
      requires messages == before + [userMessage, Message(Assistant, assistantMessage, streaming)]
      modifies this`messages, this`storage
      ensures Fold(Progress(assistantMessage, streaming), ChunkEvents(chunk, parse)) == Progress(accumulated, streaming')
      ensures messages == before + [userMessage, Message(Assistant, accumulated, streaming')]
      ensures storage == old(storage)[HistoryKey(selectedDoc.value.id) := messages]
    {
      ghost var key, saved := HistoryKey(selectedDoc.value.id), storage;
      var lines := Split(chunk, '\n');
      accumulated, streaming' := assistantMessage, streaming;
      var j := 0;
      while j < |lines|
        invariant 0 <= j <= |lines|
        invariant Fold(Progress(assistantMessage, streaming), LinesEvents(lines[..j], parse)) == Progress(accumulated, streaming')
        invariant messages == before + [userMessage, Message(Assistant, accumulated, streaming')]
        invariant storage == saved[key := messages]
      {
        ghost var shown := messages;
        accumulated, streaming' := ReadLine(lines[j], parse, before, userMessage, accumulated, streaming');
        SaveTwice(saved, key, shown, messages);
        FoldNextLine(Progress(assistantMessage, streaming), lines, j, parse);
        j := j + 1;
      }
      assert lines[..j] == lines;
    }

    /** One line: only a `data: ` line whose rest parses is applied. */
    method ReadLine(line: string, parse: string -> Option<Payload>, ghost before: seq<Message>,
                    ghost userMessage: Message, assistantMessage: string, ghost streaming: bool)
      returns (accumulated: string, ghost streaming': bool)
      requires Valid() && selectedDoc.Some?
      requires messages == before + [userMessage, Message(Assistant, assistantMessage, streaming)]
      modifies this`messages, this`storage
      ensures Fold(Progress(assistantMessage, streaming), LineEvents(line, parse)) == Progress(accumulated, streaming')
      ensures messages == before + [userMessage, Message(Assistant, accumulated, streaming')]
      ensures storage == old(storage)[HistoryKey(selectedDoc.value.id) := messages]
    {
      accumulated, streaming' := assistantMessage, streaming;
      if StartsWith(line, DataPrefix) {
        var data := parse(line[|DataPrefix|..]);
        if data.Some? {
          accumulated, streaming' := ApplyPayload(data.value, before, userMessage, assistantMessage, streaming);
        }
      }
    }

    /** A parsed frame appends its content and updates the last message, marks
        it finished on `done`, and only toasts an error. */
    method ApplyPayload(p: Payload, ghost before: seq<Message>,
                        ghost userMessage: Message, assistantMessage: string, ghost streaming: bool)
      returns (accumulated: string, ghost streaming': bool)
      requires Valid() && selectedDoc.Some?
      requires messages == before + [userMessage, Message(Assistant, assistantMessage, streaming)]
      modifies this`messages, this`storage
      ensures Fold(Progress(assistantMessage, streaming), PayloadEvents(p)) == Progress(accumulated, streaming')
      ensures messages == before + [userMessage, Message(Assistant, accumulated, streaming')]
      ensures storage == old(storage)[HistoryKey(selectedDoc.value.id) := messages]
    {
      accumulated, streaming' := assistantMessage, streaming;
      if p.content != "" {
        accumulated := accumulated + p.content;
        ReplaceLastOfTurn(before, userMessage, messages[|messages| - 1], Message(Assistant, accumulated, true));
        SetMessages(ReplaceLast(messages, Message(Assistant, accumulated, true)));
        streaming' := true;
      }
      if p.done {
        ReplaceLastOfTurn(before, userMessage, messages[|messages| - 1], Message(Assistant, accumulated, false));
        SetMessages(ReplaceLast(messages, Message(Assistant, accumulated, false)));
        streaming' := false;
      }
      // an error is only shown as a toast
      FoldPayload(Progress(assistantMessage, streaming), p);
    }

    /** Send the typed message and read the streamed reply into the transcript.
        Returns the request body, or `None` when the guard stops the send. */
    method SendMessage(reply: Reply, parse: string -> Option<Payload>) returns (request: Option<ChatRequest>)
      requires Valid()
      modifies this
      ensures Valid()
      ensures request.None? <==> IsBlank(old(inputMessage)) || old(selectedDoc).None? || old(loading)
      ensures request.None? ==>
                selectedDoc == old(selectedDoc) && messages == old(messages) && inputMessage == old(inputMessage)
                && loading == old(loading) && storage == old(storage)
      ensures request.Some? ==>
                request.value == ChatRequest(old(selectedDoc).value.id, old(inputMessage), HistoryWindow(old(messages)))
                && selectedDoc == old(selectedDoc) && inputMessage == "" && !loading
                && messages == TurnTranscript(old(messages), old(inputMessage), reply, parse)
                && storage == old(storage)[HistoryKey(selectedDoc.value.id) := messages]
    {
      if IsBlank(inputMessage) || selectedDoc.None? || loading {
        return None;
      }
      var before := messages;
      var text := inputMessage;
      var userMessage := UserMessage(text);
      ghost var key, saved := HistoryKey(selectedDoc.value.id), storage;
      SetMessages(messages + [userMessage]);
      ghost var sent := messages;
      inputMessage := "";
      loading := true;
      request := Some(ChatRequest(selectedDoc.value.id, text, HistoryWindow(before)));

      if !reply.ok {
        assert DropLast(messages) == before;
        SetMessages(DropLast(messages));
      } else {
        ReadReply(reply, parse, before, text);
      }
      SaveTwice(saved, key, sent, messages);
      loading := false;
    }
  }
}
