/** The streaming client of src/lib/ollama.ts: the prompt it sends and the
    newline-delimited framing of the generate endpoint's response body.
    The network is a parameter: the response arrives as a `Response` value
    whose body is a list of already-decoded text chunks, and `JSON.parse`
    is a partial function `parse` from a line to a record. */
module Ollama {
  import opened Types
  import opened Text

  // ---------------------------------------------------------------- prompt

  /** The speaker label of a turn: only user turns are `Human`. */
  function Label(role: Role): string
  {
    if role == User then "Human" else "Assistant"
  }

  /** The transcript line of one turn: the speaker's label, a colon and a space,
      the content, then a newline. */
  function TurnLine(m: Message): (r: string)
    ensures |r| == |Label(m.role)| + 2 + |m.content| + 1
  {
    Label(m.role) + ": " + m.content + "\n"
  }

  /** A turn's line carries its content verbatim between the label and the newline. */
  lemma TurnLineContent(m: Message)
    ensures var r, n := TurnLine(m), |Label(m.role)|;
      r[n + 2..|r| - 1] == m.content && r[|r| - 1] == '\n'
  {
    SliceOfMiddle(Label(m.role) + ": ", m.content, "\n", 0, |m.content|);
  }

  /** The transcript lines of a list of turns, one per turn, in order. */
  function TurnLines(ms: seq<Message>): seq<string>
  {
    seq(|ms|, i requires 0 <= i < |ms| => TurnLine(ms[i]))
  }

  /** The transcript of a list of turns. */
  function Transcript(ms: seq<Message>): string
  {
    Concat(TurnLines(ms))
  }

  const ContextLabel: string := "Context: "
  const ContextIntro: string := ContextLabel + ContextExplanation
  const ContextExplanation: string := "The user has provided the following project files for reference:\n"
  const ConversationHeader: string := "Conversation:\n"
  const AssistantCue: string := "Assistant:"

  /** What precedes the transcript: the context block when a context is given,
      then the conversation header. The header is the bare conversation header
      exactly when there is no context; otherwise it opens with the introduction,
      carries the context verbatim after it, and still ends with the conversation
      header. */
  function Header(context: string): (h: string)
    ensures h == ConversationHeader <==> context == ""
    ensures |h| >= |ConversationHeader| && h[|h| - |ConversationHeader|..] == ConversationHeader
    ensures context != "" ==>
      && |ContextIntro| + |context| <= |h|
      && h[..|ContextIntro|] == ContextIntro
      && h[|ContextIntro|..|ContextIntro| + |context|] == context
  {
    if context == "" then ConversationHeader
    else
      var block := ContextIntro + context + "\n\n";
      SuffixOfConcat(block, ConversationHeader);
      PrefixOfConcat(ContextIntro, context + "\n\n" + ConversationHeader);
      SliceOfMiddle(ContextIntro, context, "\n\n" + ConversationHeader, 0, |context|);
      AppendAssoc(ContextIntro, context, "\n\n" + ConversationHeader);
      block + ConversationHeader
  }

  /** The prompt `buildPrompt` sends: header, transcript, and the cue for the
      model's turn; the transcript stands whole between the other two. */
  function Prompt(ms: seq<Message>, context: string): (p: string)
    ensures |p| == |Header(context)| + |Transcript(ms)| + |AssistantCue|
    ensures p[|Header(context)|..|Header(context)| + |Transcript(ms)|] == Transcript(ms)
  {
    SliceOfMiddle(Header(context), Transcript(ms), AssistantCue, 0, |Transcript(ms)|);
    assert Transcript(ms)[0..|Transcript(ms)|] == Transcript(ms);
    Header(context) + Transcript(ms) + AssistantCue
  }

  /** `buildPrompt`: the prompt is accumulated with `+=` over the turns. */
  method BuildPrompt(messages: seq<Message>, context: string) returns (prompt: string)
    ensures prompt == Prompt(messages, context)
  {
    prompt := "";
    if context != "" {
      prompt := prompt + ContextIntro + context + "\n\n";
      assert prompt == ContextIntro + context + "\n\n";
    }
    prompt := prompt + ConversationHeader;
    ghost var header := prompt;
    assert header == Header(context);
    for i := 0 to |messages|
      invariant prompt == header + Transcript(messages[..i])
    {
      PromptStep(header, messages, i, prompt);
      prompt := prompt + TurnLine(messages[i]);
    }
    assert messages[..|messages|] == messages;
    prompt := prompt + AssistantCue;
  }

  lemma PromptStep(header: string, ms: seq<Message>, i: nat, prompt: string)
    requires i < |ms| && prompt == header + Transcript(ms[..i])
    ensures prompt + TurnLine(ms[i]) == header + Transcript(ms[..i + 1])
  {
    var a, x := ms[..i], ms[i];
    assert ms[..i + 1] == a + [x];
    TranscriptSnoc(a, x);
    AppendAssoc(header, Transcript(a), TurnLine(x));
  }

  /** The transcript of two runs of turns is the two transcripts one after the other. */
  lemma TranscriptAppend(a: seq<Message>, b: seq<Message>)
    ensures Transcript(a + b) == Transcript(a) + Transcript(b)
  {
    assert TurnLines(a + b) == TurnLines(a) + TurnLines(b);
    ConcatAppend(TurnLines(a), TurnLines(b));
  }

  /** Adding a turn adds its line at the end of the transcript. */
  lemma TranscriptSnoc(a: seq<Message>, x: Message)
    ensures Transcript(a + [x]) == Transcript(a) + TurnLine(x)
  {
    assert TurnLines(a + [x]) == TurnLines(a) + [TurnLine(x)];
    ConcatSnoc(TurnLines(a), TurnLine(x));
  }

  /** The prompt opens with the context block exactly when a context is given;
      otherwise it opens with the conversation header. */
  lemma PromptOpening(ms: seq<Message>, context: string)
    ensures context != "" <==> |Prompt(ms, context)| >= 9 && Prompt(ms, context)[..9] == "Context: "
    ensures context == "" ==> Prompt(ms, context)[..|ConversationHeader|] == ConversationHeader
  {
    var rest := Transcript(ms) + AssistantCue;
    assert Prompt(ms, context) == Header(context) + rest;
    HeaderOpening(context, rest);
  }

  lemma HeaderOpening(context: string, rest: string)
    ensures context != "" <==> |Header(context) + rest| >= 9 && (Header(context) + rest)[..9] == "Context: "
    ensures context == "" ==> (Header(context) + rest)[..|ConversationHeader|] == ConversationHeader
  {
    var h := Header(context);
    PrefixOfConcat(h, rest);
    if context == "" {
      assert (h + rest)[3] == 'v';
    } else {
      PrefixOfConcat(ContextLabel, ContextExplanation);
      PieceInSlice(h + rest, 0, h, 0, ContextIntro);
      PieceInSlice(h + rest, 0, ContextIntro, 0, ContextLabel);
    }
  }

  /** The prompt always ends with the cue for the model's turn. */
  lemma PromptEndsWithCue(ms: seq<Message>, context: string)
    ensures |Prompt(ms, context)| >= |AssistantCue|
    ensures Prompt(ms, context)[|Prompt(ms, context)| - |AssistantCue|..] == AssistantCue
  {
    var front := Header(context) + Transcript(ms);
    assert Prompt(ms, context) == front + AssistantCue;
  }

  /** The k-th turn's line stands in the transcript right after the lines of the turns before it. */
  lemma TranscriptLineAt(ms: seq<Message>, k: nat)
    requires k < |ms|
    ensures var start := |Transcript(ms[..k])|;
      start + |TurnLine(ms[k])| <= |Transcript(ms)|
      && Transcript(ms)[start..start + |TurnLine(ms[k])|] == TurnLine(ms[k])
  {
    assert TurnLines(ms)[..k] == TurnLines(ms[..k]);
    ConcatPieceAt(TurnLines(ms), k);
  }

  /** The k-th turn's line stands in the prompt right after the header and the
      lines of the turns before it: one line per turn, in log order. */
  lemma PromptLineAt(ms: seq<Message>, context: string, k: nat)
    requires k < |ms|
    ensures var start := |Header(context)| + |Transcript(ms[..k])|;
      start + |TurnLine(ms[k])| <= |Prompt(ms, context)|
      && Prompt(ms, context)[start..start + |TurnLine(ms[k])|] == TurnLine(ms[k])
  {
    TranscriptLineAt(ms, k);
    PieceInSlice(Prompt(ms, context), |Header(context)|, Transcript(ms), |Transcript(ms[..k])|, TurnLine(ms[k]));
  }

  /** Every role other than `User`, `System` included, is labelled `Assistant`. */
  lemma OnlyUserIsHuman(m: Message)
    ensures TurnLine(m)[..5] == (if m.role == User then "Human" else "Assist")[..5]
    ensures m.role != User ==> TurnLine(m)[..11] == "Assistant: "
  {
  }

  // --------------------------------------------------------------- framing

  /** What the reader has produced from a prefix of the lines, and whether a
      record with `done` has ended the stream. */
  datatype Progress = Progress(yielded: seq<string>, done: bool)

  /** What one complete line contributes: nothing when it is blank or does not
      parse; otherwise its non-empty `response`, and whether it ends the stream. */
  function LineEffect(line: string, parse: string -> Option<StreamRecord>): (e: Progress)
    ensures |e.yielded| <= 1 && (e.yielded != [] ==> e.yielded[0] != "")
    ensures e.yielded != [] ==> Trim(line) != "" && parse(line).Some? && parse(line).value.response == Some(e.yielded[0])
    ensures e.done <==> Trim(line) != "" && parse(line).Some? && parse(line).value.done
  {
    if Trim(line) == "" then Progress([], false)
    else match parse(line)
      case None => Progress([], false)
      case Some(rec) =>
        Progress(if rec.response.Some? && rec.response.value != "" then [rec.response.value] else [], rec.done)
  }

  /** Reading `e` after `p`: nothing more is taken once `p` has ended the stream. */
  function Then(p: Progress, e: Progress): Progress
  {
    if p.done then p else Progress(p.yielded + e.yielded, e.done)
  }

  /** Reading complete lines in order; after the first `done`, nothing more is read. */
  function RunLines(lines: seq<string>, parse: string -> Option<StreamRecord>): (p: Progress)
    ensures |p.yielded| <= |lines|
    ensures forall i :: 0 <= i < |p.yielded| ==> p.yielded[i] != ""
    ensures p.done ==> lines != []
  {
    if lines == [] then Progress([], false)
    else Then(RunLines(lines[..|lines| - 1], parse), LineEffect(lines[|lines| - 1], parse))
  }

  /** The reader's output on a whole text: only lines a newline has terminated are read. */
  function Decode(text: string, parse: string -> Option<StreamRecord>): (p: Progress)
    ensures |p.yielded| <= |TerminatedPieces(text, '\n')|
    ensures forall i :: 0 <= i < |p.yielded| ==> p.yielded[i] != ""
  {
    RunLines(TerminatedPieces(text, '\n'), parse)
  }

  lemma RunLinesSnoc(lines: seq<string>, line: string, parse: string -> Option<StreamRecord>)
    ensures RunLines(lines + [line], parse) == Then(RunLines(lines, parse), LineEffect(line, parse))
  {
    SnocParts(lines, line);
  }

  /** Reading in sequence does not depend on how the reads are grouped. */
  lemma ThenAssoc(p: Progress, q: Progress, r: Progress)
    ensures Then(Then(p, q), r) == Then(p, Then(q, r))
  {
    if !p.done && !q.done {
      AppendAssoc(p.yielded, q.yielded, r.yielded);
    }
  }

  /** Reading two runs of lines: the second is read only if the first did not end the stream. */
  lemma {:induction false} RunLinesAppend(a: seq<string>, b: seq<string>, parse: string -> Option<StreamRecord>)
    ensures RunLines(a + b, parse) == Then(RunLines(a, parse), RunLines(b, parse))
    decreases |b|
  {
    if b == [] {
      assert a + b == a;
      assert RunLines(a, parse).yielded + [] == RunLines(a, parse).yielded;
    } else {
      var b', x := b[..|b| - 1], b[|b| - 1];
      DropLast(b);
      AppendAssoc(a, b', [x]);
      RunLinesAppend(a, b', parse);
      RunLinesSnoc(a + b', x, parse);
      RunLinesSnoc(b', x, parse);
      ThenAssoc(RunLines(a, parse), RunLines(b', parse), LineEffect(x, parse));
    }
  }

  /** Once a `done` record has been read, no later line, in the same chunk or a later one, yields anything. */
  lemma DoneIsFinal(a: seq<string>, b: seq<string>, parse: string -> Option<StreamRecord>)
    requires RunLines(a, parse).done
    ensures RunLines(a + b, parse) == RunLines(a, parse)
  {
    RunLinesAppend(a, b, parse);
  }

  /** A line that contributes nothing can be removed without changing what is read. */
  lemma SilentLineSkipped(a: seq<string>, line: string, b: seq<string>, parse: string -> Option<StreamRecord>)
    requires LineEffect(line, parse) == Progress([], false)
    ensures RunLines(a + [line] + b, parse) == RunLines(a + b, parse)
  {
    RunLinesSnoc(a, line, parse);
    assert RunLines(a + [line], parse) == RunLines(a, parse) by {
      assert RunLines(a, parse).yielded + [] == RunLines(a, parse).yielded;
    }
    RunLinesAppend(a + [line], b, parse);
    RunLinesAppend(a, b, parse);
  }

  /** A blank or whitespace-only line produces nothing and does not end the stream. */
  lemma BlankLineSkipped(a: seq<string>, line: string, b: seq<string>, parse: string -> Option<StreamRecord>)
    requires Trim(line) == ""
    ensures RunLines(a + [line] + b, parse) == RunLines(a + b, parse)
  {
    SilentLineSkipped(a, line, b, parse);
  }

  /** A line that does not parse is dropped, and the lines after it are still read. */
  lemma UnparsableLineSkipped(a: seq<string>, line: string, b: seq<string>, parse: string -> Option<StreamRecord>)
    requires parse(line).None?
    ensures RunLines(a + [line] + b, parse) == RunLines(a + b, parse)
  {
    SilentLineSkipped(a, line, b, parse);
  }

  /** A parsed record with a non-empty `response` yields exactly that text, after
      everything yielded before it, unless the stream has already ended. */
  lemma ResponseYielded(a: seq<string>, line: string, rec: StreamRecord, parse: string -> Option<StreamRecord>)
    requires Trim(line) != "" && parse(line) == Some(rec)
    requires rec.response.Some? && rec.response.value != ""
    requires !RunLines(a, parse).done
    ensures RunLines(a + [line], parse) == Progress(RunLines(a, parse).yielded + [rec.response.value], rec.done)
  {
    RunLinesSnoc(a, line, parse);
  }

  /** Text after the last newline is never read: appending more unterminated text changes nothing. */
  lemma UnterminatedTailIgnored(text: string, tail: string, parse: string -> Option<StreamRecord>)
    requires '\n' !in tail
    ensures Decode(text + tail, parse) == Decode(text, parse)
  {
    SplitAppendNoSep(text, tail, '\n');
  }

  /** Once the text read so far has ended the stream, further text changes nothing. */
  lemma DecodeDoneIsFinal(text: string, more: string, parse: string -> Option<StreamRecord>)
    requires Decode(text, parse).done
    ensures Decode(text + more, parse) == Decode(text, parse)
  {
    TerminatedAppend(text, more, '\n');
    DoneIsFinal(TerminatedPieces(text, '\n'), TerminatedPieces(LastPiece(text, '\n') + more, '\n'), parse);
  }

  // ------------------------------------------------------------- transport

  /** The body `streamChat` posts to the generate endpoint: the model and the
      prompt; `stream` is always true. */
  datatype GenerateRequest = GenerateRequest(model: string, prompt: string)

  /** What `fetch` and the body reader deliver. `Body` lists the decoded chunks
      in arrival order; `readFails` says whether the read after the last chunk
      throws instead of reporting the end of the body. */
  datatype Response =
    | Unreachable
    | HttpError(status: int)
    | NoBody
    | Body(chunks: seq<string>, readFails: bool)

  /** What the consumer of `streamChat` sees: the texts yielded, in order, and
      whether the generator then throws. */
  datatype StreamResult = StreamResult(yielded: seq<string>, failure: Option<string>)

  /** Every failure, whatever its cause, reaches the caller as this one message. */
  const StreamFailure: string := "Failed to get response from Ollama"

  /** The whole behaviour of `streamChat` on a response. A failed read is seen only
      if no `done` record was read before it: the generator returns without reading again. */
  function Stream(resp: Response, parse: string -> Option<StreamRecord>): (r: StreamResult)
    ensures !resp.Body? ==> r == StreamResult([], Some(StreamFailure))
    ensures r.failure.Some? ==> r.failure.value == StreamFailure
    ensures resp.Body? && !resp.readFails ==> r.failure.None?
    ensures forall i :: 0 <= i < |r.yielded| ==> r.yielded[i] != ""
  {
    match resp
    case Body(chunks, readFails) =>
      var p := Decode(Concat(chunks), parse);
      StreamResult(p.yielded, if readFails && !p.done then Some(StreamFailure) else None)
    case _ => StreamResult([], Some(StreamFailure))
  }

  /** Where the text is cut into chunks does not matter: any chunking of a text
      gives what the text in a single chunk gives. Stated of `Stream`, this
      follows from `Stream` reading only the concatenated chunks; the proof that
      the chunk-by-chunk reader with its carried buffer achieves exactly that is
      the loop invariant of `ReadChunks`. */
  lemma ChunkingIrrelevant(chunks: seq<string>, readFails: bool, parse: string -> Option<StreamRecord>)
    ensures Stream(Body(chunks, readFails), parse) == Stream(Body([Concat(chunks)], readFails), parse)
  {
    ConcatSingle(Concat(chunks));
  }

  /** The framing state loses nothing: the lines read so far, joined by newlines,
      then the buffer, which holds no newline, are exactly the text received. */
  lemma LinesAndBufferAreTheText(text: string)
    ensures Join(TerminatedPieces(text, '\n') + [LastPiece(text, '\n')], "\n") == text
    ensures '\n' !in LastPiece(text, '\n')
  {
    DropLast(Split(text, '\n'));
    SplitJoin(text, '\n');
    SplitPiecesExcludeSep(text, '\n');
  }

  /** `streamChat`: builds the prompt, reads the body chunk by chunk, and turns
      every failure into the one message; a failed read is not seen once a `done`
      record has been read, since the generator has returned by then. */
  method StreamChat(model: string, messages: seq<Message>, context: string, resp: Response,
                    parse: string -> Option<StreamRecord>)
    returns (request: GenerateRequest, res: StreamResult)
    ensures request == GenerateRequest(model, Prompt(messages, context))
    ensures res == Stream(resp, parse)
  {
    var prompt := BuildPrompt(messages, context);
    request := GenerateRequest(model, prompt);
    if !resp.Body? {
      return request, StreamResult([], Some(StreamFailure));
    }
    var out, done := ReadChunks(resp.chunks, parse);
    if !done && resp.readFails {
      return request, StreamResult(out, Some(StreamFailure));
    }
    return request, StreamResult(out, None);
  }

  /** The `while (true)` read loop: keeps one buffer across chunks, reads only the
      lines a newline has completed, and keeps the unfinished last line for the
      next chunk. Its invariant: the lines read so far are the newline-terminated
      lines of the text received, and the buffer, which never holds a newline, is
      the rest of it. So the chunks yield what their concatenation yields. */
  method ReadChunks(chunks: seq<string>, parse: string -> Option<StreamRecord>)
    returns (out: seq<string>, done: bool)
    ensures Decode(Concat(chunks), parse) == Progress(out, done)
  {
    var buffer := "";
    out := [];
    ghost var seen: seq<string> := [];
    var i := 0;
    while i < |chunks|
      invariant 0 <= i <= |chunks|
      invariant TerminatedPieces(Concat(chunks[..i]), '\n') == seen
      invariant LastPiece(Concat(chunks[..i]), '\n') == buffer
      invariant '\n' !in buffer
      invariant RunLines(seen, parse) == Progress(out, false)
    {
      var lines := Split(buffer + chunks[i], '\n');
      ChunkStep(chunks, i, seen, buffer);
      var complete := lines[..|lines| - 1];
      out, done := ReadLines(seen, complete, out, parse);
      if done {
        DoneInChunk(chunks, i, seen + complete, parse);
        return;
      }
      seen := seen + complete;
      buffer := lines[|lines| - 1];
      i := i + 1;
    }
    assert chunks[..i] == chunks;
    done := false;
  }

  /** The inner `for` over the complete lines of one chunk: yields what each line
      yields and stops at the first `done`. `before` are the lines read in earlier chunks. */
  method ReadLines(ghost before: seq<string>, lines: seq<string>, out0: seq<string>,
                   parse: string -> Option<StreamRecord>)
    returns (out: seq<string>, done: bool)
    requires RunLines(before, parse) == Progress(out0, false)
    ensures RunLines(before + lines, parse) == Progress(out, done)
  {
    out := out0;
    var j := 0;
    assert before + lines[..0] == before;
    while j < |lines|
      invariant 0 <= j <= |lines|
      invariant RunLines(before + lines[..j], parse) == Progress(out, false)
    {
      ReadOneMore(before, lines, j, parse);
      var piece, stop := ReadLine(lines[j], parse);
      out := out + piece;
      if stop {
        return out, true;
      }
      j := j + 1;
    }
    assert lines[..j] == lines;
    done := false;
  }

  /** The body of the inner `for`: a blank line and a line `JSON.parse` rejects
      are skipped; otherwise a non-empty `response` is yielded, and a `done`
      record stops the reading. */
  method ReadLine(line: string, parse: string -> Option<StreamRecord>) returns (piece: seq<string>, stop: bool)
    ensures LineEffect(line, parse) == Progress(piece, stop)
  {
    piece, stop := [], false;
    if Trim(line) != "" {
      var data := parse(line);
      if data.Some? {
        if data.value.response.Some? && data.value.response.value != "" {
          piece := [data.value.response.value];
        }
        if data.value.done {
          stop := true;
        }
      }
    }
  }

  /** Reading line `j` of a chunk when the stream has not ended before it; if the
      line ends the stream, the rest of the chunk is not read. */
  lemma ReadOneMore(before: seq<string>, lines: seq<string>, j: nat, parse: string -> Option<StreamRecord>)
    requires j < |lines| && !RunLines(before + lines[..j], parse).done
    ensures var e := LineEffect(lines[j], parse);
      && RunLines(before + lines[..j + 1], parse) == Progress(RunLines(before + lines[..j], parse).yielded + e.yielded, e.done)
      && (e.done ==> RunLines(before + lines, parse) == RunLines(before + lines[..j + 1], parse))
  {
    TakeOneMore(lines, j);
    AppendAssoc(before, lines[..j], [lines[j]]);
    RunLinesSnoc(before + lines[..j], lines[j], parse);
    if LineEffect(lines[j], parse).done {
      assert lines == lines[..j + 1] + lines[j + 1..];
      AppendAssoc(before, lines[..j + 1], lines[j + 1..]);
      DoneIsFinal(before + lines[..j + 1], lines[j + 1..], parse);
    }
  }

  /** How one chunk extends the framing state: the lines it completes follow those
      read before, and the last piece becomes the new buffer. */
  lemma ChunkStep(chunks: seq<string>, i: nat, seen: seq<string>, buffer: string)
    requires i < |chunks|
    requires TerminatedPieces(Concat(chunks[..i]), '\n') == seen
    requires LastPiece(Concat(chunks[..i]), '\n') == buffer
    ensures var lines := Split(buffer + chunks[i], '\n');
      && TerminatedPieces(Concat(chunks[..i + 1]), '\n') == seen + lines[..|lines| - 1]
      && LastPiece(Concat(chunks[..i + 1]), '\n') == lines[|lines| - 1]
      && '\n' !in lines[|lines| - 1]
  {
    TakeOneMore(chunks, i);
    ConcatSnoc(chunks[..i], chunks[i]);
    TerminatedAppend(Concat(chunks[..i]), chunks[i], '\n');
    SplitPiecesExcludeSep(buffer + chunks[i], '\n');
  }

  /** Returning at a `done` record in chunk `i`: nothing in later chunks is read. */
  lemma DoneInChunk(chunks: seq<string>, i: nat, read: seq<string>, parse: string -> Option<StreamRecord>)
    requires i < |chunks|
    requires TerminatedPieces(Concat(chunks[..i + 1]), '\n') == read
    requires RunLines(read, parse).done
    ensures Decode(Concat(chunks), parse) == RunLines(read, parse)
  {
    assert chunks == chunks[..i + 1] + chunks[i + 1..];
    ConcatAppend(chunks[..i + 1], chunks[i + 1..]);
    DecodeDoneIsFinal(Concat(chunks[..i + 1]), Concat(chunks[i + 1..]), parse);
  }
}
