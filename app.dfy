/** The conversation state of src/App.tsx: the context block built from the
    uploaded files, and the log updates of `handleSendMessage` (append the
    user turn, add an empty assistant placeholder, rewrite it by id as text
    streams in, roll back on failure) and `handleClearChat`.
    The `Date.now()` clock is a parameter (`userStamp`, `assistantStamp`), the
    toasts are the returned notice, and the network is the `Response` value
    handed on to `Ollama.StreamChat`. */
module Chat {
  import opened Types
  import opened Text
  import Ollama

  // ------------------------------------------------------------- context

  /** The block one uploaded file contributes to the context. */
  function FileBlock(f: ProjectFile): string
  {
    "--- " + f.name + " ---\n" + f.content + "\n"
  }

  /** The blocks of the files, one per file, in list order. */
  function Blocks(files: seq<ProjectFile>): seq<string>
  {
    seq(|files|, i requires 0 <= i < |files| => FileBlock(files[i]))
  }

  /** `buildContext`: no files give the empty context; otherwise the blocks joined
      by newlines. The context is empty exactly when no file is uploaded, so a
      prompt carries the context block exactly when files are uploaded; it opens
      with the first file's block and closes with the last one's. */
  function BuildContext(files: seq<ProjectFile>): (c: string)
    ensures c == "" <==> files == []
    ensures files != [] ==> |FileBlock(files[0])| <= |c| && c[..|FileBlock(files[0])|] == FileBlock(files[0])
    ensures files != [] ==> var last := FileBlock(files[|files| - 1]);
      |last| <= |c| && c[|c| - |last|..] == last
  {
    if |files| == 0 then "" else JoinEnds(Blocks(files), "\n"); Join(Blocks(files), "\n")
  }

  /** A file's block is the whole context when it is the only file. */
  lemma BuildContextSingle(f: ProjectFile)
    ensures BuildContext([f]) == FileBlock(f)
  {
    assert Blocks([f]) == [FileBlock(f)];
  }

  /** Uploading one more file appends its block after a newline: the blocks stand in list order. */
  lemma BuildContextSnoc(files: seq<ProjectFile>, f: ProjectFile)
    requires files != []
    ensures BuildContext(files + [f]) == BuildContext(files) + "\n" + FileBlock(f)
  {
    assert Blocks(files + [f]) == Blocks(files) + [FileBlock(f)];
    JoinAppend(Blocks(files), [FileBlock(f)], "\n");
  }

  /** The context of two lists of files is their contexts joined by a newline. */
  lemma BuildContextAppend(a: seq<ProjectFile>, b: seq<ProjectFile>)
    requires a != [] && b != []
    ensures BuildContext(a + b) == BuildContext(a) + "\n" + BuildContext(b)
  {
    assert Blocks(a + b) == Blocks(a) + Blocks(b);
    JoinAppend(Blocks(a), Blocks(b), "\n");
  }

  // ------------------------------------------------------------ log update

  /** The `map` inside the functional `setMessages` update: the message whose
      id matches gets the new content; every other message is kept as it is. */
  function WithContent(ms: seq<Message>, id: string, content: string): (r: seq<Message>)
    ensures |r| == |ms|
    ensures forall i :: 0 <= i < |ms| ==>
      r[i] == if ms[i].id == id then ms[i].(content := content) else ms[i]
  {
    if ms == [] then []
    else [if ms[0].id == id then ms[0].(content := content) else ms[0]] + WithContent(ms[1..], id, content)
  }

  /** The ids of a log. */
  function Ids(ms: seq<Message>): set<string>
  {
    set i | 0 <= i < |ms| :: ms[i].id
  }

  /** An update keeps the ids, roles and models of every message, and so the
      shape of the log: only contents change. */
  lemma WithContentKeepsIds(ms: seq<Message>, id: string, content: string)
    ensures forall i :: 0 <= i < |ms| ==>
      && WithContent(ms, id, content)[i].id == ms[i].id
      && WithContent(ms, id, content)[i].role == ms[i].role
      && WithContent(ms, id, content)[i].model == ms[i].model
  {
  }

  /** Updating an id no message carries changes nothing. */
  lemma WithContentAbsent(ms: seq<Message>, id: string, content: string)
    requires id !in Ids(ms)
    ensures WithContent(ms, id, content) == ms
  {
    var r := WithContent(ms, id, content);
    forall i | 0 <= i < |ms| ensures r[i] == ms[i] {
      assert ms[i].id in Ids(ms);
    }
  }

  /** Of two updates of the same id, the second wins: each chunk's update
      replaces the text of the one before it. */
  lemma WithContentLastWins(ms: seq<Message>, id: string, c1: string, c2: string)
    ensures WithContent(WithContent(ms, id, c1), id, c2) == WithContent(ms, id, c2)
  {
  }

  /** An update of a log is the updates of its parts. */
  lemma WithContentAppend(a: seq<Message>, b: seq<Message>, id: string, content: string)
    ensures WithContent(a + b, id, content) == WithContent(a, id, content) + WithContent(b, id, content)
  {
  }

  // ------------------------------------------------------------- sending

  const NoModelNotice: string := "Please select a model first"
  const NotConnectedNotice: string := "Not connected to Ollama. Make sure Ollama is running."
  const EmptyResponseNotice: string := "Empty response from model"
  const ChatClearedNotice: string := "Chat cleared"

  /** The user turn `handleSendMessage` appends: the text as typed, under the
      selected model, with an id that starts `user-`. */
  function UserTurn(content: string, stamp: string, model: string): (m: Message)
    ensures m.role == User && m.content == content && m.model == Some(model)
    ensures |m.id| >= 5 && m.id[..5] == "user-"
  {
    Message("user-" + stamp, User, content, Some(model))
  }

  /** The empty assistant turn that receives the streamed text, under the
      selected model, with an id that starts `assistant-`. */
  function Placeholder(stamp: string, model: string): (m: Message)
    ensures m.role == Assistant && m.content == "" && m.model == Some(model)
    ensures |m.id| >= 10 && m.id[..10] == "assistant-"
  {
    Message("assistant-" + stamp, Assistant, "", Some(model))
  }

  /** The prompt sent for an exchange ends with the user turn's line just before
      the cue for the model: the empty placeholder is not part of it. */
  lemma SentPromptEndsWithUserTurn(prior: seq<Message>, user: Message, context: string)
    ensures var p, line := Ollama.Prompt(prior + [user], context), Ollama.TurnLine(user);
      && |line| + |Ollama.AssistantCue| <= |p|
      && p[|p| - |Ollama.AssistantCue| - |line|..|p| - |Ollama.AssistantCue|] == line
  {
    var ms := prior + [user];
    assert ms[..|prior|] == prior && ms[|prior|] == user;
    Ollama.PromptLineAt(ms, context, |prior|);
    Ollama.TranscriptSnoc(prior, user);
  }

  /** The user turn and the placeholder never share an id, whatever the clock reads. */
  lemma TurnIdsDiffer(userStamp: string, assistantStamp: string)
    ensures ("user-" + userStamp) != ("assistant-" + assistantStamp)
  {
    assert ("user-" + userStamp)[0] == 'u';
    assert ("assistant-" + assistantStamp)[0] == 'a';
  }

  /** Whether the exchange is rolled back: the stream failed, or all it produced is whitespace. */
  predicate RolledBack(res: Ollama.StreamResult)
  {
    res.failure.Some? || Trim(Concat(res.yielded)) == ""
  }

  /** What the user is told when an exchange is rolled back: the stream's own
      failure, or that the reply was empty. */
  function SendNotice(res: Ollama.StreamResult): (n: Option<string>)
    ensures n.Some? <==> RolledBack(res)
  {
    if res.failure.Some? then res.failure
    else if Trim(Concat(res.yielded)) == "" then Some(EmptyResponseNotice)
    else None
  }

  /** The log once the first `k` streamed pieces have been written into the placeholder. */
  function Streamed(base: seq<Message>, id: string, pieces: seq<string>, k: nat): seq<Message>
    requires k <= |pieces|
  {
    if k == 0 then base else WithContent(base, id, Concat(pieces[..k]))
  }

  /** One more streamed piece: its text is appended to the reply, and the whole
      reply so far is written into the placeholder. */
  lemma StreamedStep(base: seq<Message>, id: string, pieces: seq<string>, k: nat)
    requires k < |pieces|
    ensures Concat(pieces[..k + 1]) == Concat(pieces[..k]) + pieces[k]
    ensures Streamed(base, id, pieces, k + 1) == WithContent(Streamed(base, id, pieces, k), id, Concat(pieces[..k + 1]))
  {
    TakeOneMore(pieces, k);
    ConcatSnoc(pieces[..k], pieces[k]);
    if k > 0 {
      WithContentLastWins(base, id, Concat(pieces[..k]), Concat(pieces[..k + 1]));
    }
  }

  /** The log after an exchange: the prior turns and the user turn, followed,
      unless the exchange is rolled back, by the placeholder holding the reply.
      The update is by id, so an older message with the placeholder's id is
      rewritten as well. */
  function AfterSend(prior: seq<Message>, user: Message, placeholder: Message, res: Ollama.StreamResult): (r: seq<Message>)
    ensures |r| == |prior| + (if RolledBack(res) then 1 else 2)
    ensures user.id != placeholder.id ==> r[|prior|] == user
  {
    if RolledBack(res) then prior + [user]
    else WithContent(prior + [user, placeholder], placeholder.id, Concat(res.yielded))
  }

  /** When the exchange is kept, the log after the last piece is the log `AfterSend` describes. */
  lemma StreamedToEnd(prior: seq<Message>, user: Message, placeholder: Message, res: Ollama.StreamResult)
    requires !RolledBack(res)
    ensures Streamed(prior + [user] + [placeholder], placeholder.id, res.yielded, |res.yielded|)
      == AfterSend(prior, user, placeholder, res)
  {
    assert res.yielded != [];
    assert res.yielded[..|res.yielded|] == res.yielded;
    assert prior + [user] + [placeholder] == prior + [user, placeholder];
  }

  /** A failed or blank exchange leaves exactly the prior turns and the user turn:
      partial assistant text is discarded. */
  lemma RollbackKeepsUserTurn(prior: seq<Message>, user: Message, placeholder: Message, res: Ollama.StreamResult)
    requires res.failure.Some? || AllWhitespace(Concat(res.yielded))
    ensures AfterSend(prior, user, placeholder, res) == prior + [user]
  {
    TrimEmptyIff(Concat(res.yielded));
  }

  /** A successful exchange with a fresh placeholder id appends the user turn and
      the placeholder holding every streamed piece in order; earlier turns are unchanged. */
  lemma SuccessAppendsTwoTurns(prior: seq<Message>, user: Message, placeholder: Message, res: Ollama.StreamResult)
    requires user.id != placeholder.id && placeholder.id !in Ids(prior)
    requires res.failure.None? && !AllWhitespace(Concat(res.yielded))
    ensures AfterSend(prior, user, placeholder, res) ==
      prior + [user, placeholder.(content := Concat(res.yielded))]
  {
    var reply := Concat(res.yielded);
    TrimEmptyIff(reply);
    WithContentAppend(prior, [user, placeholder], placeholder.id, reply);
    WithContentAbsent(prior, placeholder.id, reply);
    assert WithContent([user, placeholder], placeholder.id, reply) == [user, placeholder.(content := reply)];
  }

  /** The state `App` keeps: the persisted log, files and model, and the two flags. */
  class ChatSession {
    var messages: seq<Message>
    var projectFiles: seq<ProjectFile>
    var selectedModel: string
    var isConnected: bool
    var isLoading: bool

    /** The initial state: nothing stored, not connected, not loading. */
    constructor()
      ensures messages == [] && projectFiles == [] && selectedModel == ""
      ensures !isConnected && !isLoading
    {
      messages := [];
      projectFiles := [];
      selectedModel := "";
      isConnected := false;
      isLoading := false;
    }

    /** `handleSendMessage`. Without a model or a connection it only reports why.
        Otherwise the user turn is appended and the placeholder added; each
        streamed piece is appended to the reply and written into the placeholder;
        on a failure or a blank reply the log returns to the prior turns and the
        user turn. `isLoading` is set for the exchange and cleared on every exit.
        `request` is what is posted to the model: nothing without a model or a
        connection, and otherwise the selected model with the prompt built from
        the prior turns and the user turn, the placeholder left out, and the
        context of the uploaded files. */
    method SendMessage(content: string, userStamp: string, assistantStamp: string,
                       resp: Ollama.Response, parse: string -> Option<StreamRecord>)
      returns (notice: Option<string>, request: Option<Ollama.GenerateRequest>)
      modifies this
      ensures projectFiles == old(projectFiles) && selectedModel == old(selectedModel)
      ensures isConnected == old(isConnected)
      ensures old(selectedModel) == "" ==>
        messages == old(messages) && isLoading == old(isLoading) && notice == Some(NoModelNotice)
        && request.None?
      ensures old(selectedModel) != "" && !old(isConnected) ==>
        messages == old(messages) && isLoading == old(isLoading) && notice == Some(NotConnectedNotice)
        && request.None?
      ensures old(selectedModel) != "" && old(isConnected) ==>
        var res := Ollama.Stream(resp, parse);
        && request == Some(Ollama.GenerateRequest(selectedModel,
             Ollama.Prompt(old(messages) + [UserTurn(content, userStamp, selectedModel)], BuildContext(old(projectFiles)))))
        && !isLoading
        && messages == AfterSend(old(messages), UserTurn(content, userStamp, selectedModel),
                                 Placeholder(assistantStamp, selectedModel), res)
        && notice == SendNotice(res)
    {
      if selectedModel == "" {
        return Some(NoModelNotice), None;
      }
      if !isConnected {
        return Some(NotConnectedNotice), None;
      }
      ghost var prior := messages;
      var user := UserTurn(content, userStamp, selectedModel);
      var newMessages := messages + [user];
      messages := newMessages;
      isLoading := true;

      var context := BuildContext(projectFiles);
      var assistantContent := "";
      var assistant := Placeholder(assistantStamp, selectedModel);
      var withAssistant := newMessages + [assistant];
      messages := withAssistant;

      var sent, res := Ollama.StreamChat(selectedModel, newMessages, context, resp, parse);
      request := Some(sent);
      assistantContent := WriteStream(assistant.id, res.yielded);

      if res.failure.Some? {
        notice := res.failure;
        messages := newMessages;
      } else if Trim(assistantContent) == "" {
        notice := Some(EmptyResponseNotice);
        messages := newMessages;
      } else {
        StreamedToEnd(prior, user, assistant, res);
        notice := None;
      }
      isLoading := false;
    }

    /** The `for await` loop of `handleSendMessage`: each piece is appended to the
        reply, and the reply so far is written into the message with the given id.
        It runs only while `isLoading` is set, and only the log changes. */
    method WriteStream(id: string, pieces: seq<string>) returns (reply: string)
      requires isLoading
      modifies this
      ensures reply == Concat(pieces)
      ensures messages == Streamed(old(messages), id, pieces, |pieces|)
      ensures projectFiles == old(projectFiles) && selectedModel == old(selectedModel)
      ensures isConnected == old(isConnected) && isLoading == old(isLoading)
    {
      ghost var base := messages;
      reply := "";
      var k := 0;
      while k < |pieces|
        invariant 0 <= k <= |pieces|
        invariant reply == Concat(pieces[..k])
        invariant messages == Streamed(base, id, pieces, k)
        invariant projectFiles == old(projectFiles) && selectedModel == old(selectedModel)
        invariant isConnected == old(isConnected) && isLoading == old(isLoading)
      {
        StreamedStep(base, id, pieces, k);
        reply := reply + pieces[k];
        messages := WithContent(messages, id, reply);
        k := k + 1;
      }
      assert pieces[..k] == pieces;
    }

    /** `handleClearChat`: the log becomes empty, nothing else changes, and the
        user is told so. */
    method ClearChat() returns (notice: string)
      modifies this
      ensures messages == [] && notice == ChatClearedNotice
      ensures projectFiles == old(projectFiles) && selectedModel == old(selectedModel)
      ensures isConnected == old(isConnected) && isLoading == old(isLoading)
    {
      messages := [];
      notice := ChatClearedNotice;
    }
  }
}
