/** The project files panel of src/components/ProjectFilesSidebar.tsx: the icon
    chosen from a file's extension, the size label, and the two changes the panel
    makes to the session's file list (`files` and `onFilesChange` are the chat
    session's `projectFiles` and its setter). */
module FilesSidebar {
  import opened Types
  import opened Text
  import Chat

  // ---------------------------------------------------------------- icons

  /** The five icons `getFileIcon` chooses from. */
  datatype FileKind = JsFile | CssFile | HtmlFile | CodeFile | TextFile

  /** The extensions each `case` group of the `switch` lists. */
  const ScriptExtensions: set<string> := {"js", "jsx", "ts", "tsx"}
  const StyleExtensions: set<string> := {"css", "scss", "less"}
  const MarkupExtensions: set<string> := {"html", "htm"}
  const DataExtensions: set<string> := {"json", "xml", "yaml", "yml"}
  const KnownExtensions: set<string> := ScriptExtensions + StyleExtensions + MarkupExtensions + DataExtensions

  /** The lowercased text after the last dot; a name without a dot is its own
      extension. It never holds a dot, and it is already lowercase. */
  function Extension(name: string): (ext: string)
    ensures '.' !in ext
    ensures ToLower(ext) == ext
  {
    var piece := LastPiece(name, '.');
    SplitPiecesExcludeSep(name, '.');
    LowerKeepsOut(piece, '.');
    ToLowerIdempotent(piece);
    ToLower(piece)
  }

  /** The `switch` on the extension: each group of cases picks its icon, and
      anything unlisted is plain text. */
  function KindOfExtension(ext: string): (k: FileKind)
    ensures k == JsFile <==> ext in ScriptExtensions
    ensures k == CssFile <==> ext in StyleExtensions
    ensures k == HtmlFile <==> ext in MarkupExtensions
    ensures k == CodeFile <==> ext in DataExtensions
    ensures k == TextFile <==> ext !in KnownExtensions
  {
    if ext == "js" || ext == "jsx" || ext == "ts" || ext == "tsx" then JsFile
    else if ext == "css" || ext == "scss" || ext == "less" then CssFile
    else if ext == "html" || ext == "htm" then HtmlFile
    else if ext == "json" || ext == "xml" || ext == "yaml" || ext == "yml" then CodeFile
    else TextFile
  }

  /** `getFileIcon`: a listed extension picks its group's icon, anything else is
      plain text; a name without a dot is matched whole, lowercased. */
  function IconKind(name: string): (k: FileKind)
    ensures k == TextFile <==> Extension(name) !in KnownExtensions
    ensures k == CodeFile <==> Extension(name) in DataExtensions
    ensures '.' !in name ==> k == KindOfExtension(ToLower(name))
  {
    var k := KindOfExtension(Extension(name));
    if '.' in name then k else NameWithoutDot(name); k
  }

  /** Only the text after the last dot counts, in any case. */
  lemma ExtensionAfterLastDot(stem: string, ext: string)
    requires '.' !in ext
    ensures Extension(stem + "." + ext) == ToLower(ext)
  {
    LastPieceSnoc(stem, '.', '.');
    SplitAppendNoSep(stem + ".", ext, '.');
  }

  /** A name without a dot is taken whole as the extension. */
  lemma NameWithoutDot(name: string)
    requires '.' !in name
    ensures Extension(name) == ToLower(name)
  {
    SplitNoSep(name, '.');
  }

  /** The icon does not depend on the case of the name. */
  lemma IconIgnoresCase(name: string)
    ensures IconKind(ToLower(name)) == IconKind(name)
  {
    LastPieceLower(name, '.');
    ToLowerIdempotent(LastPiece(name, '.'));
  }

  /** The extension's case does not matter: any name ending in ".TSX" is a script. */
  lemma UpperCaseScript(stem: string)
    ensures IconKind(stem + ".TSX") == JsFile
  {
    ExtensionAfterLastDot(stem, "TSX");
    assert stem + "." + "TSX" == stem + ".TSX";
  }

  /** Only the last extension counts: any name ending in ".tar.gz" is plain text. */
  lemma LastExtensionDecides(stem: string)
    ensures IconKind(stem + ".tar.gz") == TextFile
  {
    ExtensionAfterLastDot(stem + ".tar", "gz");
    assert (stem + ".tar") + "." + "gz" == stem + ".tar.gz";
  }

  /** A name without a dot counts whole, in any case: a file called "JSON" or
      "Yaml" gets the data icon. */
  lemma BareNameIsExtension(name: string)
    requires '.' !in name && ToLower(name) in DataExtensions
    ensures IconKind(name) == CodeFile
  {
    NameWithoutDot(name);
  }

  // ----------------------------------------------------------------- sizes

  function DigitChar(d: nat): char
    requires d < 10
  {
    ('0' as int + d) as char
  }

  predicate IsDigit(c: char)
  {
    '0' <= c <= '9'
  }

  /** A natural number written in decimal, as JavaScript writes an integer. */
  function DecimalString(n: nat): (s: string)
    ensures |s| >= 1
    decreases n
  {
    if n < 10 then [DigitChar(n)] else DecimalString(n / 10) + [DigitChar(n % 10)]
  }

  /** The number a string of digits stands for. */
  function DecimalValue(s: string): nat
    requires forall i :: 0 <= i < |s| ==> IsDigit(s[i])
  {
    if s == [] then 0 else DecimalValue(s[..|s| - 1]) * 10 + DigitValue(s[|s| - 1])
  }

  function DigitValue(c: char): nat
    requires IsDigit(c)
  {
    c as int - '0' as int
  }

  /** The decimal form is all digits, without a leading zero, and reads back as
      the number. */
  lemma {:induction false} DecimalRoundTrip(n: nat)
    ensures forall i :: 0 <= i < |DecimalString(n)| ==> IsDigit(DecimalString(n)[i])
    ensures DecimalString(n)[0] == '0' <==> n == 0
    ensures DecimalValue(DecimalString(n)) == n
    decreases n
  {
    if n >= 10 {
      DecimalRoundTrip(n / 10);
      var front := DecimalString(n / 10);
      SnocParts(front, DigitChar(n % 10));
    }
  }

  /** A number of tenths with one decimal place, as `toFixed(1)` writes it: the
      whole part in decimal, a point, and the tenths digit. */
  function Tenths(t: nat): (s: string)
    ensures |s| >= 3 && s[|s| - 2] == '.' && s[|s| - 1] == DigitChar(t % 10)
    ensures forall i :: 0 <= i < |s| ==> IsDigit(s[i]) || s[i] == '.'
    ensures forall i :: 0 <= i < |s| - 2 ==> IsDigit(s[i])
    ensures DecimalString(t / 10) == s[..|s| - 2]
  {
    var whole := DecimalString(t / 10);
    DecimalRoundTrip(t / 10);
    assert whole + "." + [DigitChar(t % 10)] == whole + ("." + [DigitChar(t % 10)]);
    whole + "." + [DigitChar(t % 10)]
  }

  /** The nearest number of tenths of `unit` in `size`, halves rounded up. */
  function NearestTenths(size: nat, unit: nat): (t: nat)
    requires unit > 0 && unit % 2 == 0
    ensures t * unit <= size * 10 + unit / 2 < (t + 1) * unit
  {
    (size * 10 + unit / 2) / unit
  }

  /** The unit `formatFileSize` chooses: bytes under a kibibyte, kibibytes under
      a mebibyte, mebibytes from there on. */
  function SizeUnit(size: nat): (u: string)
    ensures u == "B" <==> size < 1024
    ensures u == "KB" <==> 1024 <= size < 1024 * 1024
    ensures u == "MB" <==> 1024 * 1024 <= size
  {
    if size < 1024 then "B" else if size < 1024 * 1024 then "KB" else "MB"
  }

  /** The number before the unit: the exact count of bytes, or the size in the
      chosen unit to one decimal place. */
  function Figure(size: nat): (f: string)
    ensures |f| > 0
    ensures forall i :: 0 <= i < |f| ==> IsDigit(f[i]) || f[i] == '.'
    ensures size < 1024 <==> '.' !in f
  {
    if size < 1024 then
      var d := DecimalString(size);
      DecimalRoundTrip(size);
      assert forall i :: 0 <= i < |d| ==> d[i] != '.';
      d
    else
      var t := if size < 1024 * 1024 then NearestTenths(size, 1024) else NearestTenths(size, 1024 * 1024);
      var s := Tenths(t);
      assert s[|s| - 2] == '.';
      s
  }

  /** `formatFileSize`. Every label is a number, digits and at most a decimal
      point, followed by its unit, so the unit can be read back from the label;
      only sizes of a kibibyte and more carry a decimal point. */
  function FormatFileSize(size: nat): (shown: string)
    ensures |shown| > |SizeUnit(size)|
    ensures shown[|shown| - |SizeUnit(size)|..] == SizeUnit(size)
    ensures forall i :: 0 <= i < |shown| - |SizeUnit(size)| ==> IsDigit(shown[i]) || shown[i] == '.'
    ensures size < 1024 <==> '.' !in shown
  {
    var f, u := Figure(size), SizeUnit(size);
    SuffixOfConcat(f, u);
    assert forall i :: 0 <= i < |f| ==> (f + u)[i] == f[i];
    assert '.' !in u;
    f + u
  }

  /** Under a kibibyte the label is the exact count: its digits read back as the size. */
  lemma ByteLabelReadsBack(size: nat)
    requires size < 1024
    ensures var shown := FormatFileSize(size);
      && shown[|shown| - 1] == 'B'
      && (forall i :: 0 <= i < |shown| - 1 ==> IsDigit(shown[i]))
      && DecimalValue(shown[..|shown| - 1]) == size
  {
    DecimalRoundTrip(size);
    SnocParts(DecimalString(size), 'B');
  }

  /** With a decimal point the label is the decimal form of the rounded tenths with
      a point before its last digit, so it reads back as those tenths. */
  lemma TenthsIsDecimalWithPoint(t: nat)
    requires t >= 10
    ensures var d := DecimalString(t);
      Tenths(t) == d[..|d| - 1] + "." + d[|d| - 1..]
  {
    var d := DecimalString(t);
    SnocParts(DecimalString(t / 10), DigitChar(t % 10));
    assert d[|d| - 1..] == [DigitChar(t % 10)];
  }

  /** Small files are labelled in whole bytes; a kibibyte and a half is "1.5KB". */
  lemma SmallSizeLabels()
    ensures FormatFileSize(1023) == "1023B"
    ensures FormatFileSize(1536) == "1.5KB"
  {
    assert DecimalString(102) == "102";
    assert DecimalString(1023) == "1023";
    assert Figure(1023) == "1023";
    assert NearestTenths(1536, 1024) == 15;
    assert Tenths(15) == "1.5";
    assert Figure(1536) == "1.5";
  }

  /** Sizes just short of a mebibyte round up to "1024.0KB" rather than switching
      to megabytes: the unit is chosen before rounding. */
  lemma JustUnderAMebibyte()
    ensures FormatFileSize(1048575) == "1024.0KB"
  {
    assert NearestTenths(1048575, 1024) == 10240;
    assert DecimalString(102) == "102";
    assert DecimalString(1024) == "1024";
    assert Tenths(10240) == "1024.0";
    assert Figure(1048575) == "1024.0";
  }

  /** A mebibyte exactly is the first size labelled in megabytes. */
  lemma OneMebibyte()
    ensures FormatFileSize(1048576) == "1.0MB"
  {
    assert NearestTenths(1048576, 1024 * 1024) == 10;
    assert Tenths(10) == "1.0";
    assert Figure(1048576) == "1.0";
  }

  // ------------------------------------------------------------ the list

  /** `files.filter(f => f.id !== fileId)`. */
  function WithoutId(files: seq<ProjectFile>, id: string): (r: seq<ProjectFile>)
    ensures |r| <= |files|
    ensures forall f :: f in r <==> f in files && f.id != id
  {
    if files == [] then []
    else
      var last := files[|files| - 1];
      WithoutId(files[..|files| - 1], id) + (if last.id == id then [] else [last])
  }

  /** Filtering keeps the order: it works piece by piece. */
  lemma {:induction false} WithoutIdAppend(a: seq<ProjectFile>, b: seq<ProjectFile>, id: string)
    ensures WithoutId(a + b, id) == WithoutId(a, id) + WithoutId(b, id)
    decreases |b|
  {
    if b == [] {
      assert a + b == a;
    } else {
      var front, last := b[..|b| - 1], b[|b| - 1];
      DropLast(b);
      AppendAssoc(a, front, [last]);
      SnocParts(a + front, last);
      WithoutIdAppend(a, front, id);
      var tail := if last.id == id then [] else [last];
      AppendAssoc(WithoutId(a, id), WithoutId(front, id), tail);
    }
  }

  /** Removing an id no file has changes nothing. */
  lemma {:induction false} WithoutAbsentId(files: seq<ProjectFile>, id: string)
    requires forall f :: f in files ==> f.id != id
    ensures WithoutId(files, id) == files
    decreases |files|
  {
    if files != [] {
      DropLast(files);
      WithoutAbsentId(files[..|files| - 1], id);
    }
  }

  /** Removing twice is removing once. */
  lemma WithoutIdIdempotent(files: seq<ProjectFile>, id: string)
    ensures WithoutId(WithoutId(files, id), id) == WithoutId(files, id)
  {
    WithoutAbsentId(WithoutId(files, id), id);
  }

  /** What the browser reports about a picked file. */
  datatype PickedFile = PickedFile(name: string, mimeType: string, size: nat)

  /** One completed read, in the order the reads complete: which picked file it
      was, the text read, and the id stamped on the new entry. */
  datatype Completion = Completion(index: nat, content: string, id: string)

  /** Each read completes at most once, and only for a picked file. */
  predicate ValidCompletions(picked: seq<PickedFile>, completions: seq<Completion>)
  {
    && (forall k :: 0 <= k < |completions| ==> completions[k].index < |picked|)
    && (forall j, k :: 0 <= j < k < |completions| ==> completions[j].index != completions[k].index)
  }

  /** The entry a completed read produces: the file's name and size, the text read,
      and `text/plain` when the browser reports no type. */
  function LoadedFile(file: PickedFile, content: string, id: string): (p: ProjectFile)
    ensures p.name == file.name && p.content == content && p.size == file.size && p.id == id
    ensures p.mimeType == (if file.mimeType == "" then "text/plain" else file.mimeType)
  {
    ProjectFile(id, file.name, content, if file.mimeType == "" then "text/plain" else file.mimeType, file.size)
  }

  function NewFile(picked: seq<PickedFile>, c: Completion): ProjectFile
    requires c.index < |picked|
  {
    LoadedFile(picked[c.index], c.content, c.id)
  }

  /** The entries in completion order. */
  function NewFiles(picked: seq<PickedFile>, completions: seq<Completion>): (r: seq<ProjectFile>)
    requires ValidCompletions(picked, completions)
    ensures |r| == |completions|
    ensures forall k :: 0 <= k < |r| ==>
      && r[k].name == picked[completions[k].index].name && r[k].size == picked[completions[k].index].size
      && r[k].content == completions[k].content && r[k].id == completions[k].id
  {
    seq(|completions|, k requires 0 <= k < |completions| => NewFile(picked, completions[k]))
  }

  /** The picked files whose reads completed among the first `n` completions. */
  function CompletedIndices(completions: seq<Completion>, n: nat): set<nat>
    requires n <= |completions|
  {
    set k | 0 <= k < n :: completions[k].index
  }

  /** Distinct completions name as many files as there are completions. */
  lemma {:induction false} CompletedIndicesSize(picked: seq<PickedFile>, completions: seq<Completion>, n: nat)
    requires ValidCompletions(picked, completions) && n <= |completions|
    ensures |CompletedIndices(completions, n)| == n
    ensures forall i :: i in CompletedIndices(completions, n) ==> i < |picked|
  {
    if n > 0 {
      CompletedIndicesSize(picked, completions, n - 1);
      var before := CompletedIndices(completions, n - 1);
      assert CompletedIndices(completions, n) == before + {completions[n - 1].index};
      assert completions[n - 1].index !in before;
    }
  }

  /** The indices of `n` picked files. */
  function Below(n: nat): (r: set<nat>)
    ensures forall i: nat :: i in r <==> i < n
  {
    if n == 0 then {} else Below(n - 1) + {n - 1}
  }

  lemma {:induction false} BelowSize(n: nat)
    ensures |Below(n)| == n
  {
    if n > 0 {
      BelowSize(n - 1);
      var before := Below(n - 1);
      assert n - 1 !in before;
      assert Below(n) == before + {n - 1};
    }
  }

  /** There are never more completions than picked files, and when there are as
      many, every picked file's read has completed, each exactly once: the merged
      entries are the picked files, in completion order. */
  lemma CompletionsCoverPicked(picked: seq<PickedFile>, completions: seq<Completion>)
    requires ValidCompletions(picked, completions)
    ensures |completions| <= |picked|
    ensures |completions| == |picked| ==> CompletedIndices(completions, |completions|) == Below(|picked|)
  {
    var done := CompletedIndices(completions, |completions|);
    CompletedIndicesSize(picked, completions, |completions|);
    BelowSize(|picked|);
    var all := Below(|picked|);
    assert done <= all;
    assert all * done == done;
    assert |all - done| == |all| - |done|;
    if |completions| == |picked| {
      assert all - done == {};
    }
  }

  /** `removeFile`: the session keeps every file but those with the id, in order. */
  method RemoveFile(session: Chat.ChatSession, fileId: string)
    modifies session
    ensures session.projectFiles == WithoutId(old(session.projectFiles), fileId)
    ensures session.messages == old(session.messages) && session.selectedModel == old(session.selectedModel)
    ensures session.isConnected == old(session.isConnected) && session.isLoading == old(session.isLoading)
  {
    session.projectFiles := WithoutId(session.projectFiles, fileId);
  }

  /** `handleFileUpload`. Each completed read pushes its entry onto `newFiles`;
      the completion that makes `newFiles` as long as the selection appends them
      all, in completion order, after the files the session had. So nothing is
      added unless every read completes, and an empty selection adds nothing. */
  method HandleFileUpload(session: Chat.ChatSession, picked: seq<PickedFile>, completions: seq<Completion>)
    requires ValidCompletions(picked, completions)
    modifies session
    ensures session.projectFiles ==
      if 0 < |completions| == |picked| then old(session.projectFiles) + NewFiles(picked, completions)
      else old(session.projectFiles)
    ensures session.messages == old(session.messages) && session.selectedModel == old(session.selectedModel)
    ensures session.isConnected == old(session.isConnected) && session.isLoading == old(session.isLoading)
  {
    CompletionsCoverPicked(picked, completions);
    var files := session.projectFiles;
    var newFiles: seq<ProjectFile> := [];
    for i := 0 to |completions|
      invariant |newFiles| == i
      invariant forall k :: 0 <= k < i ==> newFiles[k] == NewFile(picked, completions[k])
      invariant session.projectFiles == if 0 < i == |picked| then files + newFiles else files
      invariant session.messages == old(session.messages) && session.selectedModel == old(session.selectedModel)
      invariant session.isConnected == old(session.isConnected) && session.isLoading == old(session.isLoading)
    {
      newFiles := newFiles + [NewFile(picked, completions[i])];
      if |newFiles| == |picked| {
        session.projectFiles := files + newFiles;
      }
    }
    assert newFiles == NewFiles(picked, completions);
  }
}
