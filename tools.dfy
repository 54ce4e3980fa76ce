/**
 * Tool-call handling: input sanitisation, the one-line preview table, path
 * helpers standing in for `pathlib`, language detection by extension, and the
 * derivation of a file artifact from a `Read`, `Write` or `Edit` call.
 */
module Tools {
  import opened Wrappers
  import opened Text
  import opened Entities

  // ---------------------------------------------------------------------------
  // Reading the tool input

  /** The value under `key` is a string, or there is none. */
  predicate StrOrAbsent(input: ToolInput, key: string) {
    key in input ==> input[key].Str?
  }

  /** `input.get(key, "")` for a key whose value is a string or absent. */
  function TextOf(input: ToolInput, key: string): string {
    if key in input && input[key].Str? then input[key].s else ""
  }

  /** The text an f-string shows for `input.get(key, "")`: Python's `str` of the value. */
  function Render(input: ToolInput, key: string): string {
    if key !in input then ""
    else match input[key]
      case Str(s) => s
      case NonStr(_, shown) => shown
  }

  predicate IsFileTool(name: string) {
    name == "Read" || name == "Write" || name == "Edit"
  }

  /**
   * The inputs the builder slices, measures or turns into paths are strings.
   * A file path of any other type makes `Path` raise; a command, pattern or
   * edit string that is a number, boolean, null or object cannot be sliced.
   * The edit strings are only read when the file path is non-empty.
   */
  predicate InputTyped(name: string, input: ToolInput) {
    && (IsFileTool(name) ==> StrOrAbsent(input, "file_path"))
    && (name == "Edit" && TextOf(input, "file_path") != "" ==>
          StrOrAbsent(input, "old_string") && StrOrAbsent(input, "new_string"))
    && (name == "Bash" ==> StrOrAbsent(input, "command"))
    && (name == "Grep" ==> StrOrAbsent(input, "pattern"))
  }

  // ---------------------------------------------------------------------------
  // Sanitisation

  function SanitizeValue(v: Value, maxLength: nat): Value {
    if v.Str? && |v.s| > maxLength then Str(v.s[..maxLength] + "...") else v
  }

  /**
   * A fresh input object with the same keys, in which every string longer
   * than `maxLength` is cut to its first `maxLength` characters plus "...".
   */
  function Sanitize(input: ToolInput, maxLength: nat): (r: ToolInput)
    ensures r.Keys == input.Keys
    ensures forall k :: k in input && input[k].Str? && |input[k].s| > maxLength ==>
              r[k] == Str(input[k].s[..maxLength] + "...")
    ensures forall k :: k in input && !(input[k].Str? && |input[k].s| > maxLength) ==>
              r[k] == input[k]
    ensures forall k :: k in r && r[k].Str? ==> input[k].Str? && |r[k].s| <= maxLength + 3
    ensures forall k :: k in r ==> (r[k].Str? <==> input[k].Str?)
  {
    map k | k in input :: SanitizeValue(input[k], maxLength)
  }

  /** Sanitising keeps each input well typed, so the artifact can be derived from the sanitised input. */
  lemma SanitizeKeepsTyped(name: string, input: ToolInput, maxLength: nat)
    ensures InputTyped(name, input) ==> InputTyped(name, Sanitize(input, maxLength))
  {
  }

  // ---------------------------------------------------------------------------
  // Paths

  /** The path without the separators that end it. */
  function TrimTrailingSlashes(p: string): (r: string)
    ensures |r| <= |p| && r == p[..|r|]
    ensures forall k :: |r| <= k < |p| ==> p[k] == '/'
    ensures r == "" || r[|r| - 1] != '/'
  {
    if |p| > 0 && p[|p| - 1] == '/' then TrimTrailingSlashes(p[..|p| - 1]) else p
  }

  /**
   * `Path(p).name`: the last component of the path once the separators that
   * end it are dropped, i.e. the part after the last remaining separator.
   */
  function Basename(p: string): (name: string)
    ensures '/' !in name
    ensures EndsWith(TrimTrailingSlashes(p), name)
    ensures |name| == |TrimTrailingSlashes(p)| ||
            TrimTrailingSlashes(p)[|TrimTrailingSlashes(p)| - |name| - 1] == '/'
  {
    var t := TrimTrailingSlashes(p);
    match LastIndex(t, '/')
    case None => t
    case Some(i) => t[i + 1..]
  }

  /**
   * `Path(name).suffix`: from the last dot on, unless that dot starts or ends
   * the name, in which case there is no suffix.
   */
  function Suffix(name: string): (ext: string)
    ensures ext == "" || (|ext| >= 2 && ext[0] == '.' && '.' !in ext[1..] && EndsWith(name, ext) && |ext| < |name|)
    ensures forall i :: 0 < i < |name| - 1 && name[i] == '.' && '.' !in name[i + 1..] ==> ext == name[i..]
  {
    match LastIndex(name, '.')
    case None => ""
    case Some(i) => if 0 < i < |name| - 1 then name[i..] else ""
  }

  /** `Path(p).relative_to(root)`, falling back to `Path(p).name` when `p` is not under `root`. */
  function RelativePath(root: string, p: string): (r: string)
    ensures StartsWith(p, RootPrefix(root)) && |p| > |RootPrefix(root)| ==> RootPrefix(root) + r == p
    ensures p == root ==> r == "."
    ensures p != root && !StartsWith(p, RootPrefix(root)) ==> r == Basename(p)
  {
    var prefix := RootPrefix(root);
    if p == root then "."
    else if StartsWith(p, prefix) then
      (if |p| == |prefix| then "." else p[|prefix|..])
    else Basename(p)
  }

  /** The root with exactly one separator after it. */
  function RootPrefix(root: string): string {
    if |root| > 0 && root[|root| - 1] == '/' then root else root + "/"
  }

  // ---------------------------------------------------------------------------
  // Language detection

  /** The extension table, looked up with the lower-cased suffix. */
  const LANGUAGE_BY_EXTENSION: map<string, string> := map[
    ".py" := "python", ".do" := "stata", ".js" := "javascript", ".ts" := "typescript",
    ".html" := "html", ".css" := "css", ".json" := "json", ".md" := "markdown",
    ".sh" := "bash", ".r" := "r", ".R" := "r"]

  /**
   * The language of a file, from its lower-cased extension; "text" when the
   * extension is not in the table.
   */
  function DetectLanguage(path: string): (lang: string)
    ensures Lower(Suffix(Basename(path))) !in LANGUAGE_BY_EXTENSION ==> lang == "text"
    ensures Lower(Suffix(Basename(path))) in LANGUAGE_BY_EXTENSION ==>
              lang == LANGUAGE_BY_EXTENSION[Lower(Suffix(Basename(path)))]
  {
    var ext := Lower(Suffix(Basename(path)));
    if ext in LANGUAGE_BY_EXTENSION then LANGUAGE_BY_EXTENSION[ext] else "text"
  }

  // ---------------------------------------------------------------------------
  // Previews and tool calls

  /** The one-line description shown for a tool call, taken from a table keyed by tool name. */
  function ToolPreview(name: string, input: ToolInput): (preview: string)
    ensures IsFileTool(name) ==> preview == name + " " + Basename(TextOf(input, "file_path"))
    ensures name == "Bash" ==> preview == "Run: " + Truncated(TextOf(input, "command"), 50) && |preview| <= 5 + 53
    ensures name == "Bash" && |TextOf(input, "command")| <= 50 ==> preview == "Run: " + TextOf(input, "command")
    ensures name == "Grep" ==> preview == "Search: " + Truncated(TextOf(input, "pattern"), 30) && |preview| <= 8 + 33
    ensures name == "Grep" && |TextOf(input, "pattern")| <= 30 ==> preview == "Search: " + TextOf(input, "pattern")
    ensures name == "Glob" ==> preview == "Find files: " + Render(input, "pattern")
    ensures !IsFileTool(name) && name !in {"Bash", "Glob", "Grep"} ==> preview == name
  {
    if IsFileTool(name) then name + " " + Basename(TextOf(input, "file_path"))
    else if name == "Bash" then "Run: " + Truncated(TextOf(input, "command"), 50)
    else if name == "Glob" then "Find files: " + Render(input, "pattern")
    else if name == "Grep" then "Search: " + Truncated(TextOf(input, "pattern"), 30)
    else name
  }

  /**
   * A `tool_use` item as a tool call: id and name are kept, the stored input
   * is the sanitised one while the preview is taken from the raw input, and
   * the input stays as well typed as the artifact code needs it.
   */
  function ParseToolUse(id: string, name: string, input: ToolInput, maxLength: nat): (call: ToolCall)
    ensures call.id == id && call.name == name
    ensures call.input == Sanitize(input, maxLength) && call.input.Keys == input.Keys
    ensures call.inputPreview == ToolPreview(name, input)
    ensures InputTyped(name, input) ==> InputTyped(call.name, call.input)
  {
    SanitizeKeepsTyped(name, input, maxLength);
    ToolCall(id, name, Sanitize(input, maxLength), ToolPreview(name, input))
  }

  // ---------------------------------------------------------------------------
  // Artifacts

  /** `"art_" + md5(f"{uuid}_{path}").hexdigest()[:8]`, with the hex digest supplied as `md5Hex`. */
  function ArtifactId(md5Hex: string -> string, uuid: string, path: string): (id: string)
    ensures StartsWith(id, "art_") && |id| <= 12
  {
    "art_" + Take(md5Hex(uuid + "_" + path), 8)
  }

  function KindOf(name: string): ArtifactKind {
    if name == "Edit" then FileEdit else if name == "Write" then FileCreate else FileRead
  }

  /**
   * The artifact a tool call implies, if any: only `Read`, `Write` and `Edit`
   * with a non-empty `file_path` yield one.
   */
  function ArtifactOf(root: string, md5Hex: string -> string, msgUuid: string, msgId: string,
                      msgTimestamp: string, call: ToolCall): (r: Option<Artifact>)
    requires InputTyped(call.name, call.input)
    ensures r.Some? <==> IsFileTool(call.name) && TextOf(call.input, "file_path") != ""
    ensures r.Some? ==>
      var a := r.value;
      var path := TextOf(call.input, "file_path");
      && a.id == ArtifactId(md5Hex, msgUuid, path)
      && a.path == path
      && a.relativePath == RelativePath(root, path)
      && a.operation == call.name
      && a.kind == (if call.name == "Edit" then FileEdit else if call.name == "Write" then FileCreate else FileRead)
      && a.messageId == msgId && a.toolCallId == call.id && a.timestamp == msgTimestamp
      && a.language == DetectLanguage(path)
      && (a.preview.Some? <==> call.name == "Edit")
      && (a.preview.Some? ==>
            a.preview.value.before == Take(TextOf(call.input, "old_string"), 100) &&
            a.preview.value.after == Take(TextOf(call.input, "new_string"), 100))
  {
    if !IsFileTool(call.name) then None
    else
      var path := TextOf(call.input, "file_path");
      if path == "" then None
      else
        var preview :=
          if call.name == "Edit"
          then Some(EditPreview(Take(TextOf(call.input, "old_string"), 100), Take(TextOf(call.input, "new_string"), 100)))
          else None;
        Some(Artifact(
          ArtifactId(md5Hex, msgUuid, path), KindOf(call.name), path, RelativePath(root, path),
          call.name, msgTimestamp, msgId, call.id, DetectLanguage(path), preview))
  }
}
