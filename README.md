# localspark chat core in Dafny

localspark is a local code assistant: a React front end that chats with a
model served by Ollama, and a small Express server that enriches a prompt
with project files. This project models the parts of it that handle text
and lists, and proves what they promise:

- **Ollama client** (`ollama.dfy`, module `Ollama`). `buildPrompt` turns the
  context and the conversation into one transcript. `streamChat` frames the
  newline-delimited JSON body of the generate endpoint. It keeps one buffer
  across chunks, reads only lines a newline has completed, and skips blank
  and unparsable lines. It yields each non-empty `response` and stops at the
  first `done`. Every failure reaches the caller as one message.
- **Conversation state** (`app.dfy`, module `Chat`). `buildContext` formats
  the uploaded files. `handleSendMessage` appends the user turn and an empty
  assistant placeholder, then rewrites the placeholder by id as text streams
  in. It rolls back to the prior turns plus the user turn on a failure or a
  blank reply, and sets `isLoading` for the exchange only. `handleClearChat`
  (`src/App.tsx:97-100`) empties the log; it is modelled, but App.tsx's JSX
  passes it to no component, so nothing in the interface calls it. The
  state is the class `ChatSession`.
- **Chat endpoint** (`server.dfy`, module `Server`). The `/chat` handler
  enriches the message with each requested file's content, or a line naming
  the read error. It picks one prompt template from keywords of the
  lowercased message, in fixed priority. It derives `hasCodeBlock` and
  `suggestedAction` from the model's reply.
- **Message box** (`message_input.dfy`, module `MessageInput`). The class
  `MessageBox` holds the typed text. `handleSend` trims the text, refuses
  empty or disabled input, refuses over 10000 characters, and otherwise
  sends the trimmed text and clears the box. Enter without Shift sends.
- **Project files panel** (`files_sidebar.dfy`, module `FilesSidebar`):
  - the icon chosen from the lowercased text after the last dot;
  - the size label;
  - `removeFile`;
  - `handleFileUpload`, which appends the new files after the existing ones
    once every read has completed.
- `text.dfy` (module `Text`) holds the JavaScript string operations these
  rely on: `split`, `join`, `trim`, `toLowerCase` and `includes`, with their
  laws. `types.dfy` (module `Types`) holds the records of
  `src/lib/types.ts`.

Two things are parameters. The network is a value: a `Response` with
already-decoded chunks for the client, and a `generate` function for the
server. `JSON.parse` and reading a file are partial functions.

## Model

| member | source | states |
|---|---|---|
| Ollama.BuildPrompt | src/lib/ollama.ts:97-111 | the `+=` loop builds exactly `Prompt`: the context block when a context is given, the conversation header, one line per turn in order, then the `Assistant:` cue |
| Ollama.TurnLine | src/lib/ollama.ts:105-107 | a turn's line is its label, `: `, the content and a newline, so its length is the label's plus the content's plus 3 |
| Ollama.TurnLineContent | src/lib/ollama.ts:105-107 | the content stands verbatim between the label with `: ` and the final newline |
| Ollama.Header | src/lib/ollama.ts:98-104 | the header is the bare `Conversation:\n` exactly when the context is empty, and always ends with it; a non-empty context's header opens with `Context: ` and the introduction, and the context follows verbatim |
| Ollama.Prompt | src/lib/ollama.ts:97-111 | the prompt is the header, the transcript and the cue: its length is the sum of theirs, and the whole transcript stands right after the header |
| Ollama.PromptOpening | src/lib/ollama.ts:100-104 | the prompt opens with `Context: ` exactly when the context is non-empty, and otherwise with `Conversation:\n` |
| Ollama.HeaderOpening | src/lib/ollama.ts:100-104 | the same statement for the header followed by any text |
| Ollama.PromptLineAt | src/lib/ollama.ts:104-107 | the k-th turn's line stands in the prompt right after the header and the lines of the turns before it |
| Ollama.TranscriptLineAt | src/lib/ollama.ts:105-107 | the k-th turn's line stands in the transcript right after the lines of the earlier turns |
| Ollama.TranscriptAppend | src/lib/ollama.ts:105-107 | the transcript of two runs of turns is their transcripts one after the other |
| Ollama.TranscriptSnoc | src/lib/ollama.ts:105-107 | one more turn adds its line at the end of the transcript |
| Ollama.PromptEndsWithCue | src/lib/ollama.ts:109 | the prompt always ends with `Assistant:` |
| Ollama.OnlyUserIsHuman | src/lib/ollama.ts:106 | only user turns are labelled `Human`; every other role, `system` included, is labelled `Assistant: ` |
| Ollama.StreamChat | src/lib/ollama.ts:40-94 | the request posted is the model with `Prompt` of the turns and the context. The generator's outcome is exactly `Stream(resp)`: a fetch error, an HTTP error or a missing body yields nothing and fails with the one message; otherwise the texts the body yields, then the failure only if a read fails before any `done`. |
| Ollama.ReadChunks | src/lib/ollama.ts:64-90 | the chunk-by-chunk read loop gives exactly `Decode` of the concatenated chunks. Its invariant: the lines read are the newline-terminated lines of the text received, the buffer is the rest, and the buffer holds no newline. |
| Ollama.ReadLines | src/lib/ollama.ts:75-89 | the inner loop over one chunk's complete lines continues the reading of the lines before it, and reports whether a `done` record stopped it |
| Ollama.ReadLine | src/lib/ollama.ts:76-87 | one line's branches give exactly `LineEffect`: blank or unparsable lines give nothing; a parsed record gives its non-empty `response` and stops on `done` |
| Ollama.LineEffect | src/lib/ollama.ts:76-87 | one line yields at most one text, never an empty one, and only the `response` of a non-blank line that parses; it ends the stream exactly when the line is non-blank, parses and has `done` |
| Ollama.RunLines | src/lib/ollama.ts:75-89 | reading complete lines in order yields at most one non-empty text per line, and ends only after reading at least one line |
| Ollama.Decode | src/lib/ollama.ts:67-90 | a whole text yields at most one non-empty text per newline-terminated line; the unterminated rest is not read |
| Ollama.Stream | src/lib/ollama.ts:40-94 | without a body the result is no text and the one failure message; every failure is that message; a body whose reads all succeed never fails; no yielded text is empty |
| Ollama.ReadOneMore | src/lib/ollama.ts:75-89 | reading one more line adds that line's effect; if the line ends the stream, the rest of the chunk is never read |
| Ollama.ChunkStep | src/lib/ollama.ts:71-73 | after a chunk, the lines read are the earlier ones plus those the chunk completes, and the new buffer is the last piece, which holds no newline |
| Ollama.LinesAndBufferAreTheText | src/lib/ollama.ts:71-73 | the lines read so far joined by `\n`, then the buffer, are exactly the text received; the buffer holds no newline |
| Ollama.ChunkingIrrelevant | src/lib/ollama.ts:67-90 | any chunking of a text yields what the whole text in one chunk yields. Stated of `Stream`, this follows from its definition, which reads only the concatenation; the chunk-by-chunk proof is the loop invariant of `ReadChunks`. |
| Ollama.DoneInChunk | src/lib/ollama.ts:82-84 | returning at a `done` in some chunk gives what reading the whole body would give |
| Ollama.RunLinesSnoc | src/lib/ollama.ts:75-89 | reading one more line is reading the lines, then that line |
| Ollama.ThenAssoc | src/lib/ollama.ts:75-89 | reading in sequence does not depend on how the reads are grouped |
| Ollama.RunLinesAppend | src/lib/ollama.ts:67-89 | reading two runs of lines reads the second only if the first did not end the stream |
| Ollama.DoneIsFinal | src/lib/ollama.ts:82-84 | after a `done` record no later line, in the same chunk or a later one, changes anything |
| Ollama.SilentLineSkipped | src/lib/ollama.ts:76-87 | a line that contributes nothing can be removed without changing the result |
| Ollama.BlankLineSkipped | src/lib/ollama.ts:76 | a blank or whitespace-only line yields nothing and does not end the stream |
| Ollama.UnparsableLineSkipped | src/lib/ollama.ts:77-87 | a line that fails to parse is dropped, and the lines after it are still read |
| Ollama.ResponseYielded | src/lib/ollama.ts:79-84 | a parsed record with a non-empty `response` yields exactly that text after everything before it, and ends the stream iff `done` |
| Ollama.UnterminatedTailIgnored | src/lib/ollama.ts:68-73 | text after the last newline is never parsed: appending more unterminated text changes nothing |
| Ollama.DecodeDoneIsFinal | src/lib/ollama.ts:82-84 | once the text received has ended the stream, more text changes nothing |
| Chat.BuildContext | src/App.tsx:18-24 | the context is empty exactly when no file is uploaded; otherwise it opens with the first file's block and closes with the last file's block |
| Chat.BuildContextSingle | src/App.tsx:21-23 | one file's context is `--- name ---\ncontent\n` |
| Chat.BuildContextSnoc | src/App.tsx:21-23 | one more file appends `\n` and its block: blocks stand in list order |
| Chat.BuildContextAppend | src/App.tsx:21-23 | the context of two lists is their contexts joined by `\n` |
| Chat.WithContent | src/App.tsx:73-79 | the update by id keeps length and order; the message with the id gets the new content, and every other message is unchanged |
| Chat.WithContentKeepsIds | src/App.tsx:73-79 | an update changes no id, role or model |
| Chat.WithContentAbsent | src/App.tsx:73-79 | updating an id no message carries is a no-op |
| Chat.WithContentLastWins | src/App.tsx:69-79 | of two updates of the same id the second wins |
| Chat.WithContentAppend | src/App.tsx:73-79 | an update of a log is the updates of its parts |
| Chat.UserTurn | src/App.tsx:40-46 | the user turn has role user, the content as typed, the selected model, and an id starting `user-` |
| Chat.Placeholder | src/App.tsx:56-62 | the placeholder has role assistant, empty content, the selected model, and an id starting `assistant-` |
| Chat.SentPromptEndsWithUserTurn | src/App.tsx:48-67 | the prompt sent ends with the user turn's line just before the cue: the empty placeholder is not part of it |
| Chat.TurnIdsDiffer | src/App.tsx:40-62 | the user turn's id and the placeholder's id never coincide, whatever the clock reads |
| Chat.SendNotice | src/App.tsx:82-91 | the user is told something exactly when the exchange is rolled back |
| Chat.StreamedStep | src/App.tsx:69-79 | after piece k+1, the reply is the reply so far plus that piece, and the placeholder holds the concatenation of pieces 1..k+1 |
| Chat.AfterSend | src/App.tsx:48-91 | the log after an exchange grows by one turn when rolled back and by two otherwise; the user turn stands right after the prior turns |
| Chat.StreamedToEnd | src/App.tsx:69-84 | when kept, the log after the last piece is the one `AfterSend` describes |
| Chat.RollbackKeepsUserTurn | src/App.tsx:82-91 | a failed or whitespace-only exchange leaves exactly the prior turns and the user turn |
| Chat.SuccessAppendsTwoTurns | src/App.tsx:40-80 | a kept exchange appends the user turn and the placeholder holding the whole reply; earlier turns are unchanged |
| Chat.ChatSession.constructor | src/App.tsx:12-16 | the initial state: empty log and files, no model, not connected, not loading |
| Chat.ChatSession.SendMessage | src/App.tsx:26-95 | without a model, or when not connected, only the notice and nothing else changes, and nothing is sent. Otherwise the request sent is the selected model with the prompt of the prior turns plus the user turn, the placeholder left out, and the context of the uploaded files. The log becomes `AfterSend` of the stream's result, `isLoading` ends false, the notice is `SendNotice`, and files, model and connection are unchanged. |
| Chat.ChatSession.WriteStream | src/App.tsx:50-80 | the `for await` loop runs only while `isLoading` is set: the reply is the concatenation of the pieces, the log is the old log with the placeholder rewritten after every piece, and no other field changes |
| Chat.ChatSession.ClearChat | src/App.tsx:97-100 | the log becomes empty, nothing else changes, and the notice says the chat was cleared |
| Server.ModelOf | server.js:18 | a missing model is `gpt-oss:20b` |
| Server.FilesOf | server.js:18 | missing context files are the empty list |
| Server.FileSection | server.js:26-28 | a section opens with a blank line and ends with the file's text when the read succeeds, or with the error's message when it fails |
| Server.Enriched | server.js:19-30 | the enriched prompt starts with the message, and is the message alone when no file is requested |
| Server.Sections | server.js:22-30 | one section per requested file |
| Server.EnrichPrompt | server.js:19-30 | the loop builds the message followed by every file's section in request order |
| Server.EnrichedSectionAt | server.js:22-30 | the k-th file's section stands right after the message and the earlier sections, whichever reads fail |
| Server.UnreadableFileReported | server.js:27-29 | a failed read contributes an `Error leyendo` line naming the file and the error |
| Server.ClassifyIntent | server.js:34-40 | in the lowercased message: the fix template exactly when `fix` or `arregla` occurs; the test template exactly when `test` or `prueba` occurs and no fix keyword; the build template exactly when `build` or `construye` occurs and neither of the others; no template exactly when none of the six occurs |
| Server.TemplatePrefix | server.js:35-39 | every template's fixed text ends with `Usuario: ` |
| Server.Adapted | server.js:33-40 | the adapted prompt ends with the unchanged enriched prompt, and equals it exactly when no template applies |
| Server.AdaptPrompt | server.js:33-40 | the `if`/`else if` chain gives `Adapted`: the chosen template's prefix before the enriched prompt |
| Server.AdaptedIsPrefixThenPrompt | server.js:33-40 | at most one template applies, as a prefix fixed by the message alone, followed by the unchanged enriched prompt; file text cannot choose a template |
| Server.NoKeywordKeepsPrompt | server.js:33 | with no keyword the enriched prompt is sent as is |
| Server.IntentPriority | server.js:34-40 | a fix keyword beats test and build keywords; a test keyword, `test` or `prueba`, beats a build keyword; a build keyword is enough for the build template when no other keyword occurs, and needed for it |
| Server.IntentIgnoresCase | server.js:34-38 | lowercasing the message first changes no choice |
| Server.PrefixAsksForFix | server.js:34 | matching is on substrings: "prefix" selects the fix template |
| Server.LatestAsksForTests | server.js:36 | "latest" selects the test template |
| Server.HasCodeBlock | server.js:54 | true iff the reply contains a markdown fence |
| Server.SuggestedAction | server.js:55 | `apply_fix` iff the reply has a code block, and none otherwise |
| Server.HandleChat | server.js:17-58 | the handler's reply for the requested or default model and the adapted prompt: the reply with its derived fields, or status 500 with `Error con Ollama: ` and the error |
| Server.ReplyActionMatchesCode | server.js:54-55 | `apply_fix` is offered exactly when the reply contains a fence |
| MessageInput.Decide | src/components/MessageInput.tsx:15-25 | nothing is sent iff the trimmed text is empty or the box is disabled. An over-long complaint comes iff the trimmed text is non-empty, enabled and over 10000 characters. Otherwise the trimmed text, of 1 to 10000 characters, is sent. |
| MessageInput.ButtonDisabledIffNothingHappens | src/components/MessageInput.tsx:47 | the send button is disabled exactly when pressing send would do nothing |
| MessageInput.WhitespaceNeverSent | src/components/MessageInput.tsx:16-17 | a text of whitespace only is never sent |
| MessageInput.SentTextIsTrimmed | src/components/MessageInput.tsx:16-22 | what is sent is the trimmed text: a slice of the typed text with only whitespace dropped around it, not starting or ending with whitespace, unchanged by trimming again |
| MessageInput.LimitIsInclusive | src/components/MessageInput.tsx:18-21 | exactly 10000 characters are sent; 10001 are refused |
| MessageInput.MessageBox.constructor | src/components/MessageInput.tsx:13 | the box starts empty |
| MessageInput.MessageBox.OnChange | src/components/MessageInput.tsx:39 | the box holds what was typed |
| MessageInput.MessageBox.HandleSend | src/components/MessageInput.tsx:15-25 | sends as `Decide` says, shows the length notice when too long, and clears the box only after a send |
| MessageInput.MessageBox.HandleKeyDown | src/components/MessageInput.tsx:27-32 | Enter without Shift prevents the newline and acts as `HandleSend`; every other key changes nothing |
| FilesSidebar.ExtensionAfterLastDot | src/components/ProjectFilesSidebar.tsx:27 | the extension is the lowercased text after the last dot |
| FilesSidebar.NameWithoutDot | src/components/ProjectFilesSidebar.tsx:27 | a name without a dot is its own extension, lowercased |
| FilesSidebar.Extension | src/components/ProjectFilesSidebar.tsx:27 | the extension never holds a dot and is already lowercase |
| FilesSidebar.KindOfExtension | src/components/ProjectFilesSidebar.tsx:28-48 | each icon is picked exactly for its group of listed extensions; plain text exactly for an extension none lists |
| FilesSidebar.IconKind | src/components/ProjectFilesSidebar.tsx:26-48 | a name gets plain text exactly when its extension is unlisted, and the code icon exactly when its extension is json, xml, yaml or yml; a name without a dot is matched whole, lowercased |
| FilesSidebar.IconIgnoresCase | src/components/ProjectFilesSidebar.tsx:27 | the icon does not depend on the case of the name |
| FilesSidebar.UpperCaseScript | src/components/ProjectFilesSidebar.tsx:27-33 | any name ending in `.TSX` gets the script icon |
| FilesSidebar.LastExtensionDecides | src/components/ProjectFilesSidebar.tsx:27-48 | any name ending in `.tar.gz` gets the plain-text icon: only the last extension counts |
| FilesSidebar.BareNameIsExtension | src/components/ProjectFilesSidebar.tsx:27-45 | any name without a dot whose lowercase is `json`, `xml`, `yaml` or `yml` gets the code icon |
| FilesSidebar.SizeUnit | src/components/ProjectFilesSidebar.tsx:51-55 | bytes iff under 1024, KB iff from 1024 to under 1048576, MB from there on |
| FilesSidebar.NearestTenths | src/components/ProjectFilesSidebar.tsx:53-54 | `toFixed(1)` of the exact quotient: the nearest tenth, halves rounded up |
| FilesSidebar.FormatFileSize | src/components/ProjectFilesSidebar.tsx:51-55 | every label is a figure of digits and points followed by its unit; it has a decimal point exactly when the size is at least 1024 |
| FilesSidebar.Figure | src/components/ProjectFilesSidebar.tsx:52-54 | the figure is non-empty, holds only digits and points, and has no point exactly when the size is under 1024 |
| FilesSidebar.Tenths | src/components/ProjectFilesSidebar.tsx:53-54 | `toFixed(1)` of t tenths: the decimal form of the whole part, a point, then the tenths digit |
| FilesSidebar.ByteLabelReadsBack | src/components/ProjectFilesSidebar.tsx:52 | under 1024 the label's digits read back as the exact size |
| FilesSidebar.DecimalRoundTrip | src/components/ProjectFilesSidebar.tsx:52 | an integer written in decimal is all digits, has a leading zero only for 0, and reads back as the integer |
| FilesSidebar.TenthsIsDecimalWithPoint | src/components/ProjectFilesSidebar.tsx:53-54 | a one-decimal figure is the decimal form of its tenths with a point before the last digit |
| FilesSidebar.SmallSizeLabels | src/components/ProjectFilesSidebar.tsx:51-55 | 1023 bytes show as `1023B`, 1536 as `1.5KB` |
| FilesSidebar.JustUnderAMebibyte | src/components/ProjectFilesSidebar.tsx:51-55 | 1048575 bytes show as `1024.0KB`: the unit is chosen before rounding |
| FilesSidebar.OneMebibyte | src/components/ProjectFilesSidebar.tsx:51-55 | 1048576 bytes show as `1.0MB` |
| FilesSidebar.WithoutId | src/components/ProjectFilesSidebar.tsx:100-101 | a file is kept iff it was there and has another id; the list never grows |
| FilesSidebar.WithoutIdAppend | src/components/ProjectFilesSidebar.tsx:100-101 | filtering works piece by piece, so the kept files stay in their order |
| FilesSidebar.WithoutAbsentId | src/components/ProjectFilesSidebar.tsx:100-101 | removing an id no file has changes nothing |
| FilesSidebar.WithoutIdIdempotent | src/components/ProjectFilesSidebar.tsx:100-101 | removing twice is removing once |
| FilesSidebar.RemoveFile | src/components/ProjectFilesSidebar.tsx:100-101 | the session's files become the filtered list; nothing else changes |
| FilesSidebar.LoadedFile | src/components/ProjectFilesSidebar.tsx:64-71 | the new entry has the file's name and size, the text read, the stamped id, and `text/plain` when no type is reported |
| FilesSidebar.NewFiles | src/components/ProjectFilesSidebar.tsx:58-73 | one entry per completed read, in completion order: the k-th holds the name and size of the file that read was for, the text read and the id stamped on it |
| FilesSidebar.CompletedIndicesSize | src/components/ProjectFilesSidebar.tsx:60-77 | distinct completions name as many picked files as there are completions |
| FilesSidebar.CompletionsCoverPicked | src/components/ProjectFilesSidebar.tsx:74-76 | there are never more completions than files. When there are as many, every picked file has been read exactly once. |
| FilesSidebar.HandleFileUpload | src/components/ProjectFilesSidebar.tsx:57-80 | once the last read completes, the files become the existing ones, unchanged, followed by the new entries in completion order. Otherwise, and for an empty selection, nothing changes. |
| Text.Split | src/lib/ollama.ts:72 | `split` never returns an empty list |
| Text.SplitJoin | src/lib/ollama.ts:72-73 | joining the pieces of a split with the separator gives back the text |
| Text.SplitPiecesExcludeSep | src/lib/ollama.ts:72-73 | no piece holds the separator |
| Text.SplitAppend | src/lib/ollama.ts:71-73 | splitting more text only extends the last piece and adds new pieces |
| Text.LastPieceLower | src/components/ProjectFilesSidebar.tsx:27 | the last piece of the lowercased name is the lowercased last piece |
| Text.JoinAppend | src/App.tsx:21-23 | joining two lists is joining each, with the separator between |
| Text.Join | src/App.tsx:21-23 | joining nothing gives the empty text; otherwise the result is at least as long as its first and its last element |
| Text.JoinEnds | src/App.tsx:21-23 | a join opens with its first element and closes with its last |
| Text.Contains | server.js:34-38 | `includes` holds iff the pattern occurs at some position |
| Text.IsWhitespace | src/components/MessageInput.tsx:16 | space, tab, newline and carriage return are whitespace; no letter, digit or dot is |
| Text.Trim | src/components/MessageInput.tsx:16 | the trimmed text is never longer, and neither starts nor ends with whitespace |
| Text.TrimIsCore | src/components/MessageInput.tsx:16 | the trimmed text is a slice of the original with only whitespace dropped before and after it |
| Text.TrimEmptyIff | src/lib/ollama.ts:76 | a text trims to empty iff it is all whitespace |
| Text.TrimIdempotent | src/components/MessageInput.tsx:16 | trimming twice is trimming once |
| Text.ToLower | server.js:34 | lowercasing keeps the length, maps each character on its own, and leaves no capital letter |
| Text.ToLowerIdempotent | server.js:34-38 | lowercasing twice is lowercasing once, so an already lowercased message or extension is unchanged |
| Text.LowerKeepsOut | src/components/ProjectFilesSidebar.tsx:27 | lowercasing adds no character that is not a letter, so a text without a dot still has none |

## Left out

- `fetch`, the body reader and `TextDecoder`: the body arrives as a list of already-decoded string chunks. Whether the read after the last chunk fails is a flag.
- `JSON.parse`, `fs.readFile` with `path.join`, and the model call in `server.js` are parameters. They are partial functions returning an `Option` or a `Result`.
- `Ollama.StreamChat`: `console.error` logging is not modelled, and neither is the `error` field of a record, which the code never inspects. Nothing is added for timeouts, cancellation or a body that ends without `done`, since the code has none.
- `Ollama.StreamChat`: the whole response is computed first, and `SendMessage` then replays the yielded texts. A single-threaded run cannot tell this apart from the interleaved generator.
- `Chat.ChatSession.SendMessage`: `Date.now()` becomes the `userStamp` and `assistantStamp` parameters. Timestamps are not modelled. Toasts are the returned notice.
- `Chat.ChatSession.SendMessage`: the null fallbacks `messages || []` and `projectFiles || []` are not modelled, because the stored lists are never absent here. `useKV` persistence to local storage is not modelled.
- `Server.HandleChat`: a missing or non-string `message` makes the code throw outside its `try`, and this is not modelled. A reply without a `response` field is covered by `generate` failing, which gives the same status 500. The destructuring defaults at `server.js:18` apply only to a field that is absent (`undefined`), not to one that is `null`. A `"model": null` is passed on to Ollama as null, and a `"contextFiles": null` makes the `for` at `server.js:22` throw outside the `try`. `ChatRequest` has no `null`, so neither case is modelled.
- `Text.ToLower`: it lowercases only `A`–`Z`, while `toLowerCase` also lowercases other Unicode letters. This affects the keyword tests and the file extension only for non-ASCII text.
- `MessageInput.Decide`: length is counted in characters (code points). JavaScript counts UTF-16 code units, so a text with characters outside the Basic Multilingual Plane can reach the 10000 limit sooner in the browser.
- `FilesSidebar.FormatFileSize`: sizes are natural numbers. `toFixed` switches to exponent notation from 10^21 on, which no file reaches.
- `FilesSidebar.HandleFileUpload`: `FileReader` is asynchronous. The completions are an input list in the order they happen, and a read that fails never completes. As written, such a batch is then never merged. The merge at `src/components/ProjectFilesSidebar.tsx:75` uses the `files` the handler captured when it ran. If `removeFile` or another batch's merge happens while reads are pending, that change is overwritten. The method runs the whole batch as one step, so it cannot show this. The entry ids (`Date.now()` and `Math.random()`) are parameters, and `lastModified` and `path` are not modelled.
- Rendering (JSX, icons as components, drag-and-drop state), the model selector, connection monitoring, `getModels`/`checkConnection`, and the `/files` and `/exec` routes of `server.js` are not part of this model.
