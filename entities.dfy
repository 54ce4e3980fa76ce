/**
 * The records the builder reads and the entities it produces.
 *
 * Transcript lines arrive already decoded from JSON: a line that does not
 * decode is `None`, and a decoded record carries the fields the parser reads,
 * with the defaults of the parser's `.get(key, default)` calls already filled
 * in (a missing `type` decodes as the empty string, a missing `uuid` as "", a
 * missing `content` list as the empty list, and so on).
 */
module Entities {
  import opened Wrappers

  /**
   * A value of a tool call's `input` object: a JSON string, or any other JSON
   * value, kept both as its JSON text (what the output files hold) and as the
   * text Python's `str` gives it (what an f-string shows: `None`, `True`,
   * `['a']`, `{'k': 1}`).
   */
  datatype Value = Str(s: string) | NonStr(json: string, shown: string)

  /** A tool call's `input` object. */
  type ToolInput = map<string, Value>

  /** An element of the list form of a `tool_result` content. */
  datatype ToolResultPart =
    | TextPart(text: string)   // an object whose `type` is "text"
    | OtherPart                // anything else

  /** The `content` of a `tool_result` item, which may be a string, a list or something else. */
  datatype ToolResultContent =
    | ResultString(s: string)
    | ResultList(parts: seq<ToolResultPart>)
    | ResultOther

  /**
   * An element of a record's `message.content` list. A string `content` is
   * iterated character by character by the parser; it decodes as one
   * `NonObject` per character.
   */
  datatype ContentItem =
    | NonObject
    | TextItem(text: string)
    | ThinkingItem(thinking: string)
    | ToolResultItem(result: ToolResultContent)
    | ToolUseItem(id: string, name: string, input: ToolInput)
    | OtherItem(kind: string)

  /** One decoded transcript line. */
  datatype Record = Record(
    kind: string,                  // the record's `type`
    uuid: string,
    parentUuid: Option<string>,
    timestamp: string,
    sessionId: string,
    content: seq<ContentItem>)

  /** The configuration options the core reads. */
  datatype Config = Config(
    messagesPerPage: nat,
    showThinkingPreview: bool,
    toolResultMaxLength: nat)

  /** The builder's default configuration. */
  const DEFAULT_CONFIG := Config(100, true, 500)

  /** A tool invocation; its `hasResult` is always false and its `resultPreview` always null in the output. */
  datatype ToolCall = ToolCall(id: string, name: string, input: ToolInput, inputPreview: string)

  datatype Content = Content(
    text: string,
    textPreview: string,
    hasThinking: bool,
    thinkingPreview: Option<string>,
    toolCalls: seq<ToolCall>)

  datatype Message = Message(
    id: string,
    uuid: string,
    parentUuid: Option<string>,
    role: string,
    timestamp: string,
    sessionId: string,
    lineNum: nat,
    content: Content,
    artifacts: seq<string>,
    relatedCommits: seq<string>,
    searchText: string)

  datatype ArtifactKind = FileRead | FileCreate | FileEdit {
    /** The artifact's `type` string in the output. */
    function Name(): string {
      match this
      case FileRead => "file_read"
      case FileCreate => "file_create"
      case FileEdit => "file_edit"
    }
  }

  datatype EditPreview = EditPreview(before: string, after: string)

  datatype Artifact = Artifact(
    id: string,
    kind: ArtifactKind,
    path: string,
    relativePath: string,
    operation: string,
    timestamp: string,
    messageId: string,
    toolCallId: string,
    language: string,
    preview: Option<EditPreview>)

  datatype FileChange = FileChange(status: string, path: string)

  datatype VersionedArtifact = VersionedArtifact(path: string, localPath: string)

  /**
   * A commit. An empty `versionedArtifacts` stands for the key being absent:
   * the extractor creates the list on the first snapshot it records.
   */
  datatype Commit = Commit(
    hash: string,
    fullHash: string,
    timestamp: string,
    message: string,
    author: string,
    filesChanged: seq<FileChange>,
    relatedMessages: seq<string>,
    relatedArtifacts: seq<string>,
    versionedArtifacts: seq<VersionedArtifact>)
}
