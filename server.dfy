/** The `/chat` handler of server.js: request defaults, the enrichment of the
    message with the requested project files, the choice of one prompt template
    from keywords of the message, and the fields derived from the model's reply.
    Reading a file and calling the model are parameters: `readFile` gives a
    file's text or the error's message, and `generate` gives the reply text for
    a model and a prompt, or the error's message. */
module Server {
  import opened Types
  import opened Text

  // ------------------------------------------------------------- request

  const DefaultModel: string := "gpt-oss:20b"

  /** The body of a `/chat` request; absent fields are `None`. A field sent as
      JSON `null` is not represented. */
  datatype ChatRequest = ChatRequest(message: string, model: Option<string>, contextFiles: Option<seq<string>>)

  /** The model asked for, `gpt-oss:20b` when none is given. */
  function ModelOf(req: ChatRequest): (m: string)
    ensures req.model.None? ==> m == DefaultModel
    ensures req.model.Some? ==> m == req.model.value
  {
    if req.model.Some? then req.model.value else DefaultModel
  }

  /** The files asked for, none when the field is absent. */
  function FilesOf(req: ChatRequest): (paths: seq<string>)
    ensures req.contextFiles.None? ==> paths == []
    ensures req.contextFiles.Some? ==> paths == req.contextFiles.value
  {
    if req.contextFiles.Some? then req.contextFiles.value else []
  }

  // ---------------------------------------------------------- enrichment

  /** What one requested file adds to the prompt: its content under a heading,
      or, when it cannot be read, a line naming it and the error. Either way the
      section opens with a blank line and closes with the file's text or the
      error's message, verbatim. */
  function FileSection(path: string, read: Result<string, string>): (r: string)
    ensures |r| >= 2 && r[..2] == "\n\n"
    ensures read.Success? ==> |read.value| <= |r| && r[|r| - |read.value|..] == read.value
    ensures read.Failure? ==> |read.error| <= |r| && r[|r| - |read.error|..] == read.error
  {
    match read
    case Success(content) => "\n\nContexto del archivo " + path + ":\n" + content
    case Failure(msg) => "\n\nError leyendo " + path + ": " + msg
  }

  /** The sections of the requested files, one per path, in request order. */
  function Sections(paths: seq<string>, readFile: string -> Result<string, string>): (r: seq<string>)
    ensures |r| == |paths|
  {
    seq(|paths|, i requires 0 <= i < |paths| => FileSection(paths[i], readFile(paths[i])))
  }

  /** The enriched prompt: the message, then every section. It starts with the
      message itself, and is just the message when no file is requested. */
  function Enriched(message: string, paths: seq<string>, readFile: string -> Result<string, string>): (r: string)
    ensures |message| <= |r| && r[..|message|] == message
    ensures paths == [] ==> r == message
  {
    PrefixOfConcat(message, Concat(Sections(paths, readFile)));
    message + Concat(Sections(paths, readFile))
  }

  /** The enrichment loop: `fullPrompt` starts as the message and each file's
      section is appended in turn; a read error appends its line and the loop goes on. */
  method EnrichPrompt(message: string, paths: seq<string>, readFile: string -> Result<string, string>)
    returns (fullPrompt: string)
    ensures fullPrompt == Enriched(message, paths, readFile)
  {
    fullPrompt := message;
    for i := 0 to |paths|
      invariant fullPrompt == message + Concat(Sections(paths[..i], readFile))
    {
      SectionsStep(message, paths, i, readFile);
      fullPrompt := fullPrompt + FileSection(paths[i], readFile(paths[i]));
    }
    assert paths[..|paths|] == paths;
  }

  lemma SectionsStep(message: string, paths: seq<string>, i: nat, readFile: string -> Result<string, string>)
    requires i < |paths|
    ensures message + Concat(Sections(paths[..i + 1], readFile))
      == (message + Concat(Sections(paths[..i], readFile))) + FileSection(paths[i], readFile(paths[i]))
  {
    var before := Sections(paths[..i], readFile);
    var x := FileSection(paths[i], readFile(paths[i]));
    assert Sections(paths[..i + 1], readFile) == before + [x];
    ConcatSnoc(before, x);
    AppendAssoc(message, Concat(before), x);
  }

  /** The k-th file's section, content or error line alike, stands right after the
      message and the sections of the files before it: no file is skipped and the
      request order is kept, whichever reads fail. */
  lemma EnrichedSectionAt(message: string, paths: seq<string>, readFile: string -> Result<string, string>, k: nat)
    requires k < |paths|
    ensures var start := |message| + |Concat(Sections(paths[..k], readFile))|;
      var section := FileSection(paths[k], readFile(paths[k]));
      start + |section| <= |Enriched(message, paths, readFile)|
      && Enriched(message, paths, readFile)[start..start + |section|] == section
  {
    var parts := Sections(paths, readFile);
    assert Enriched(message, paths, readFile) == message + Concat(parts);
    assert parts[..k] == Sections(paths[..k], readFile);
    PieceAfterPrefix(message, parts, k);
  }

  /** A file that cannot be read contributes its error line, naming the file and the error. */
  lemma UnreadableFileReported(path: string, msg: string)
    ensures FileSection(path, Failure(msg)) == "\n\nError leyendo " + path + ": " + msg
  {
  }

  // --------------------------------------------------------------- intent

  /** The three prompt templates. */
  datatype Intent = Fix | Test | Build

  /** The lowercased message holds a fix keyword. */
  predicate AsksFix(message: string)
  {
    Contains(ToLower(message), "fix") || Contains(ToLower(message), "arregla")
  }

  /** The lowercased message holds a test keyword. */
  predicate AsksTest(message: string)
  {
    Contains(ToLower(message), "test") || Contains(ToLower(message), "prueba")
  }

  /** The lowercased message holds a build keyword. */
  predicate AsksBuild(message: string)
  {
    Contains(ToLower(message), "build") || Contains(ToLower(message), "construye")
  }

  /** The keyword checks, in priority order, on the lowercased message. Matching
      is plain substring containment: a fix keyword selects the fix template; a
      test keyword selects the test template when there is no fix keyword; a
      build keyword selects the build template when there is neither; and no
      template is chosen exactly when none of the six keywords occurs. */
  function ClassifyIntent(message: string): (r: Option<Intent>)
    ensures r == Some(Fix) <==> AsksFix(message)
    ensures r == Some(Test) <==> !AsksFix(message) && AsksTest(message)
    ensures r == Some(Build) <==> !AsksFix(message) && !AsksTest(message) && AsksBuild(message)
    ensures r.None? <==> !AsksFix(message) && !AsksTest(message) && !AsksBuild(message)
  {
    var m := ToLower(message);
    if Contains(m, "fix") || Contains(m, "arregla") then Some(Fix)
    else if Contains(m, "test") || Contains(m, "prueba") then Some(Test)
    else if Contains(m, "build") || Contains(m, "construye") then Some(Build)
    else None
  }

  /** The fixed text each template puts before the enriched prompt; every one of
      them ends by introducing the user's text. */
  function TemplatePrefix(intent: Intent): (p: string)
    ensures |p| >= |UserIntro| && p[|p| - |UserIntro|..] == UserIntro
  {
    var instruction := match intent
      case Fix => FixInstruction
      case Test => TestInstruction
      case Build => BuildInstruction;
    SuffixOfConcat(instruction, UserIntro);
    instruction + UserIntro
  }

  const FixInstruction: string :=
    "Analiza el c\U{F3}digo y genera una versi\U{F3}n corregida. Responde con el c\U{F3}digo nuevo en bloque markdown. "
  const TestInstruction: string := "Sugiere o ayuda con tests. "
  const BuildInstruction: string := "Sugiere comandos para build. "
  const UserIntro: string := "Usuario: "

  /** The prompt sent to the model: the template's prefix, if a template applies,
      before the unchanged enriched prompt. The enriched prompt always ends it,
      and it is sent unchanged exactly when no template applies. */
  function Adapted(message: string, fullPrompt: string): (r: string)
    ensures |fullPrompt| <= |r| && r[|r| - |fullPrompt|..] == fullPrompt
    ensures r == fullPrompt <==> ClassifyIntent(message).None?
  {
    match ClassifyIntent(message)
    case None => fullPrompt
    case Some(intent) => SuffixOfConcat(TemplatePrefix(intent), fullPrompt); TemplatePrefix(intent) + fullPrompt
  }

  /** The `if`/`else if` chain choosing the template; each test lowercases the message again. */
  method AdaptPrompt(message: string, fullPrompt: string) returns (adaptedPrompt: string)
    ensures adaptedPrompt == Adapted(message, fullPrompt)
  {
    ghost var intent := ClassifyIntent(message);
    adaptedPrompt := fullPrompt;
    if Contains(ToLower(message), "fix") || Contains(ToLower(message), "arregla") {
      assert intent == Some(Fix);
      adaptedPrompt := TemplatePrefix(Fix) + fullPrompt;
    } else if Contains(ToLower(message), "test") || Contains(ToLower(message), "prueba") {
      assert intent == Some(Test);
      adaptedPrompt := TemplatePrefix(Test) + fullPrompt;
    } else if Contains(ToLower(message), "build") || Contains(ToLower(message), "construye") {
      assert intent == Some(Build);
      adaptedPrompt := TemplatePrefix(Build) + fullPrompt;
    } else {
      assert intent == None;
    }
  }

  /** At most one template applies, and whatever it is, the enriched prompt follows
      it unchanged: the adapted prompt is a prefix chosen by the message alone,
      then the enriched prompt. So text from the files can never choose a template. */
  lemma AdaptedIsPrefixThenPrompt(message: string, fullPrompt: string)
    ensures Adapted(message, fullPrompt) == Adapted(message, "") + fullPrompt
    ensures |fullPrompt| <= |Adapted(message, fullPrompt)|
    ensures Adapted(message, fullPrompt)[|Adapted(message, fullPrompt)| - |fullPrompt|..] == fullPrompt
  {
    var prefix := if ClassifyIntent(message).Some? then TemplatePrefix(ClassifyIntent(message).value) else "";
    assert Adapted(message, fullPrompt) == prefix + fullPrompt;
    AppendEmpty(prefix);
    assert Adapted(message, "") == prefix;
    SuffixOfConcat(prefix, fullPrompt);
  }

  /** Without a keyword the prompt is sent as enriched. */
  lemma NoKeywordKeepsPrompt(message: string, fullPrompt: string)
    requires ClassifyIntent(message).None?
    ensures Adapted(message, fullPrompt) == fullPrompt
  {
  }

  /** A fix keyword wins over every other keyword; a test keyword, `test` or
      `prueba`, wins over a build keyword; a build keyword is enough for the
      build template when neither of the others occurs, and needed for it. */
  lemma IntentPriority(message: string)
    ensures AsksFix(message) ==> ClassifyIntent(message) == Some(Fix)
    ensures AsksTest(message) && !AsksFix(message) ==> ClassifyIntent(message) == Some(Test)
    ensures AsksBuild(message) && !AsksFix(message) && !AsksTest(message) ==> ClassifyIntent(message) == Some(Build)
    ensures ClassifyIntent(message) == Some(Build) ==> AsksBuild(message)
  {
  }

  /** The keyword test ignores case: lowercasing the message first changes nothing. */
  lemma IntentIgnoresCase(message: string)
    ensures ClassifyIntent(ToLower(message)) == ClassifyIntent(message)
  {
    ToLowerIdempotent(message);
  }

  /** Containment is on substrings, not words: "prefix" asks for a fix. */
  lemma PrefixAsksForFix()
    ensures ClassifyIntent("prefix") == Some(Fix)
  {
    assert ToLower("prefix") == "prefix";
    assert OccursAt("prefix", "fix", 3);
  }

  /** "latest" holds "test", so it selects the test template. */
  lemma LatestAsksForTests()
    ensures ClassifyIntent("latest") == Some(Test)
  {
    var m := ToLower("latest");
    assert m == "latest";
    ContainsHasFirst(m, "fix");
    assert OccursAt(m, "test", 2);
  }

  // ---------------------------------------------------------------- reply

  /** The reply holds a markdown code fence. */
  function HasCodeBlock(response: string): (b: bool)
    ensures b <==> exists i :: OccursAt(response, "```", i)
  {
    Contains(response, "```")
  }

  /** The action offered with a reply: applying a fix exactly when the reply holds code. */
  function SuggestedAction(response: string): (a: Option<string>)
    ensures a.Some? <==> HasCodeBlock(response)
    ensures a.Some? ==> a.value == "apply_fix"
  {
    if HasCodeBlock(response) then Some("apply_fix") else None
  }

  /** What the handler sends back: the reply with its derived fields, or status 500. */
  datatype ChatReply =
    | Reply(response: string, hasCodeBlock: bool, suggestedAction: Option<string>)
    | ServerError(status: int, error: string)

  /** The `/chat` handler end to end: enrich, adapt, call the model with the
      requested or default model, and derive the reply's fields. */
  method HandleChat(req: ChatRequest, readFile: string -> Result<string, string>,
                    generate: (string, string) -> Result<string, string>)
    returns (reply: ChatReply)
    ensures var sent := generate(ModelOf(req), Adapted(req.message, Enriched(req.message, FilesOf(req), readFile)));
      reply == match sent
        case Success(response) => Reply(response, HasCodeBlock(response), SuggestedAction(response))
        case Failure(msg) => ServerError(500, "Error con Ollama: " + msg)
  {
    var model := ModelOf(req);
    var contextFiles := FilesOf(req);
    var fullPrompt := EnrichPrompt(req.message, contextFiles, readFile);
    var adaptedPrompt := AdaptPrompt(req.message, fullPrompt);
    var data := generate(model, adaptedPrompt);
    if data.Failure? {
      return ServerError(500, "Error con Ollama: " + data.error);
    }
    var response := data.value;
    var hasCodeBlock := HasCodeBlock(response);
    reply := Reply(response, hasCodeBlock, if hasCodeBlock then Some("apply_fix") else None);
  }

  /** A reply offers `apply_fix` exactly when it holds a code fence. */
  lemma ReplyActionMatchesCode(response: string)
    ensures SuggestedAction(response) == Some("apply_fix") <==> Contains(response, "```")
  {
  }
}
