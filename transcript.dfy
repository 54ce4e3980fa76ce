/**
 * Message normalisation: how one decoded transcript record becomes a message
 * (text, previews, thinking flag, tool calls, artifacts), which records are
 * kept, and how artifacts land in the builder's artifact map.
 *
 * The functions here are the specification the `Builder` methods are proved
 * against; they fold over the content items in the order the source loops.
 */
module Transcript {
  import opened Wrappers
  import opened Text
  import opened Entities
  import opened Tools

  /** What the parser needs from the builder: its configuration, the repository root and the digest function. */
  datatype Env = Env(config: Config, repoRoot: string, md5Hex: string -> string)

  /** Only tool results whose text starts with this are folded into the message text. */
  const ANSWER_PREFIX := "User has answered"

  /** A text item with the four embedded context regions removed, then stripped. */
  function StripContext(text: string): (r: string)
    ensures |r| <= |text|
    ensures r == "" || (!IsSpace(r[0]) && !IsSpace(r[|r| - 1]))
  {
    var t1 := StripRegions(text, "<system-reminder>", "</system-reminder>");
    var t2 := StripRegions(t1, "<ide_opened_file>", "</ide_opened_file>");
    var t3 := StripRegions(t2, "<ide_selection>", "</ide_selection>");
    var t4 := StripRegions(t3, "<ide_file_context>", "</ide_file_context>");
    Strip(t4)
  }

  /** `"msg_" + uuid[:8]`. */
  function MessageId(uuid: string): string {
    "msg_" + Take(uuid, 8)
  }

  /** Tool inputs of the item are typed as the builder needs them (see `Tools.InputTyped`). */
  predicate ItemTyped(item: ContentItem) {
    item.ToolUseItem? ==> InputTyped(item.name, item.input)
  }

  predicate RecordTyped(r: Record) {
    forall k :: 0 <= k < |r.content| ==> ItemTyped(r.content[k])
  }

  /** The accumulators of `_parse_message_entry`: `text_parts`, `search_parts`, and the fields it sets on the message. */
  datatype Parts = Parts(
    texts: seq<string>,
    searches: seq<string>,
    hasThinking: bool,
    thinkingPreview: Option<string>,
    toolCalls: seq<ToolCall>,
    artifacts: seq<Artifact>)

  const NO_PARTS := Parts([], [], false, None, [], [])

  function AddText(p: Parts, t: string): Parts {
    p.(texts := p.texts + [t], searches := p.searches + [Lower(t)])
  }

  /** The answered-question texts of a tool result's list content, added in order. */
  function AddAnswers(p: Parts, parts: seq<ToolResultPart>): Parts
    decreases |parts|
  {
    if |parts| == 0 then p
    else
      var q := AddAnswers(p, parts[..|parts| - 1]);
      match parts[|parts| - 1]
      case TextPart(t) => if StartsWith(t, ANSWER_PREFIX) then AddText(q, t) else q
      case OtherPart => q
  }

  /** One iteration of the content loop. */
  function Step(env: Env, r: Record, p: Parts, item: ContentItem): Parts
    requires ItemTyped(item)
  {
    match item
    case NonObject => p
    case OtherItem(_) => p
    case TextItem(t) =>
      var s := StripContext(t);
      if s == "" then p else AddText(p, s)
    case ThinkingItem(th) =>
      if th == "" then p
      else p.(hasThinking := true,
              thinkingPreview := if env.config.showThinkingPreview then Some(Truncated(th, 300)) else p.thinkingPreview)
    case ToolResultItem(c) =>
      (match c
       case ResultString(s) => if StartsWith(s, ANSWER_PREFIX) then AddText(p, s) else p
       case ResultList(parts) => AddAnswers(p, parts)
       case ResultOther => p)
    case ToolUseItem(id, name, input) =>
      var call := ParseToolUse(id, name, input, env.config.toolResultMaxLength);
      SanitizeKeepsTyped(name, input, env.config.toolResultMaxLength);
      UseTool(env, r, p, call)
  }

  /** The artifact of a tool call of record `r`, if it has one. */
  function CallArtifact(env: Env, r: Record, call: ToolCall): Option<Artifact>
    requires InputTyped(call.name, call.input)
  {
    ArtifactOf(env.repoRoot, env.md5Hex, r.uuid, MessageId(r.uuid), r.timestamp, call)
  }

  /** The zero or one elements of an option. */
  function AsList<T>(a: Option<T>): (l: seq<T>)
    ensures |l| <= 1 && (a.Some? <==> |l| == 1) && (a.Some? ==> l[0] == a.value)
  {
    if a.Some? then [a.value] else []
  }

  /**
   * The artifact id a call contributes to the message: one for a file tool
   * with a non-empty `file_path`, derived from the record's uuid and the path.
   */
  function FileCallId(md5Hex: string -> string, uuid: string, call: ToolCall): seq<string> {
    var path := TextOf(call.input, "file_path");
    if IsFileTool(call.name) && path != "" then [ArtifactId(md5Hex, uuid, path)] else []
  }

  /**
   * A parsed `tool_use` item: the call is appended to the tool calls, its
   * artifact (if any) to the artifacts, so the message's artifact ids grow by
   * the call's file artifact id; nothing else changes.
   */
  function UseTool(env: Env, r: Record, p: Parts, call: ToolCall): (q: Parts)
    requires InputTyped(call.name, call.input)
    ensures q == p.(toolCalls := q.toolCalls, artifacts := q.artifacts)
    ensures q.toolCalls == p.toolCalls + [call]
    ensures q.artifacts == p.artifacts + AsList(CallArtifact(env, r, call))
  {
    p.(toolCalls := p.toolCalls + [call], artifacts := p.artifacts + AsList(CallArtifact(env, r, call)))
  }

  /**
   * The message's artifact ids grow by the call's file artifact id, and the
   * new artifact belongs to this message.
   */
  lemma UseToolIds(env: Env, r: Record, p: Parts, call: ToolCall)
    requires InputTyped(call.name, call.input)
    ensures var q := UseTool(env, r, p, call);
            && Ids(q.artifacts) == Ids(p.artifacts) + FileCallId(env.md5Hex, r.uuid, call)
            && forall k :: |p.artifacts| <= k < |q.artifacts| ==>
                 q.artifacts[k].messageId == MessageId(r.uuid) && q.artifacts[k].timestamp == r.timestamp
  {
    CallArtifactId(env, r, call);
    AppendIds(p.artifacts, CallArtifact(env, r, call), FileCallId(env.md5Hex, r.uuid, call));
  }

  lemma AppendIds(arts: seq<Artifact>, a: Option<Artifact>, ids: seq<string>)
    requires a.Some? <==> ids != []
    requires a.Some? ==> ids == [a.value.id]
    ensures Ids(arts + AsList(a)) == Ids(arts) + ids
    ensures forall k :: |arts| <= k < |arts + AsList(a)| ==> a.Some? && (arts + AsList(a))[k] == a.value
  {
    IdsAppend(arts, AsList(a));
  }

  /** A call has an artifact exactly when it contributes an artifact id, and that id is the artifact's. */
  lemma CallArtifactId(env: Env, r: Record, call: ToolCall)
    requires InputTyped(call.name, call.input)
    ensures var a := CallArtifact(env, r, call);
            && (a.Some? <==> FileCallId(env.md5Hex, r.uuid, call) != [])
            && (a.Some? ==> FileCallId(env.md5Hex, r.uuid, call) == [a.value.id])
            && (a.Some? ==> a.value.messageId == MessageId(r.uuid) && a.value.timestamp == r.timestamp)
  {
  }

  /** The content loop over the first `|items|` items. */
  function Fold(env: Env, r: Record, items: seq<ContentItem>): Parts
    requires forall k :: 0 <= k < |items| ==> ItemTyped(items[k])
    decreases |items|
  {
    if |items| == 0 then NO_PARTS
    else Step(env, r, Fold(env, r, items[..|items| - 1]), items[|items| - 1])
  }

  function Ids(arts: seq<Artifact>): (ids: seq<string>)
    ensures |ids| == |arts| && forall k :: 0 <= k < |arts| ==> ids[k] == arts[k].id
  {
    seq(|arts|, k requires 0 <= k < |arts| => arts[k].id)
  }

  lemma IdsAppend(a: seq<Artifact>, b: seq<Artifact>)
    ensures Ids(a + b) == Ids(a) + Ids(b)
  {
  }

  /** The message assembled from the accumulators once the loop is done. */
  function Assemble(r: Record, lineNum: nat, p: Parts): Message {
    var text := Join(p.texts, "\n\n");
    Message(
      MessageId(r.uuid), r.uuid, r.parentUuid, r.kind, r.timestamp, r.sessionId, lineNum,
      Content(text, Truncated(text, 200), p.hasThinking, p.thinkingPreview, p.toolCalls),
      Ids(p.artifacts), [], Join(p.searches, " "))
  }

  /** `_parse_message_entry(entry, line_num)`. */
  function ParseEntry(env: Env, r: Record, lineNum: nat): Message
    requires RecordTyped(r)
  {
    Assemble(r, lineNum, Fold(env, r, r.content))
  }

  /** The artifacts `_parse_message_entry` stores, in the order it stores them. */
  function EntryArtifacts(env: Env, r: Record): seq<Artifact>
    requires RecordTyped(r)
  {
    Fold(env, r, r.content).artifacts
  }

  // ---------------------------------------------------------------------------
  // Properties of one entry

  /** The text accumulators grow in step; every part is non-empty and its search form is its lower-cased text. */
  ghost predicate PartsAligned(p: Parts) {
    && |p.texts| == |p.searches|
    && forall k :: 0 <= k < |p.texts| ==> p.texts[k] != "" && p.searches[k] == Lower(p.texts[k])
  }

  lemma {:induction false} AddAnswersAligned(p: Parts, parts: seq<ToolResultPart>)
    requires PartsAligned(p)
    ensures PartsAligned(AddAnswers(p, parts))
    ensures AddAnswers(p, parts).toolCalls == p.toolCalls && AddAnswers(p, parts).artifacts == p.artifacts
    ensures AddAnswers(p, parts).hasThinking == p.hasThinking
    ensures AddAnswers(p, parts).thinkingPreview == p.thinkingPreview
    decreases |parts|
  {
    if |parts| > 0 {
      AddAnswersAligned(p, parts[..|parts| - 1]);
    }
  }

  /**
   * Every text part is non-empty and is matched, at the same position, by its
   * lower-cased form among the search parts.
   */
  lemma {:induction false} FoldAligned(env: Env, r: Record, items: seq<ContentItem>)
    requires forall k :: 0 <= k < |items| ==> ItemTyped(items[k])
    ensures PartsAligned(Fold(env, r, items))
    decreases |items|
  {
    if |items| > 0 {
      var n := |items| - 1;
      FoldAligned(env, r, items[..n]);
      StepAligned(env, r, Fold(env, r, items[..n]), items[n]);
    }
  }

  lemma StepAligned(env: Env, r: Record, p: Parts, item: ContentItem)
    requires ItemTyped(item) && PartsAligned(p)
    ensures PartsAligned(Step(env, r, p, item))
  {
    match item
    case TextItem(t) =>
      var s := StripContext(t);
      if s != "" {
        AddTextAligned(p, s);
      }
    case ToolResultItem(c) =>
      match c {
        case ResultString(s) =>
          if StartsWith(s, ANSWER_PREFIX) {
            AddTextAligned(p, s);
          }
        case ResultList(parts) => AddAnswersAligned(p, parts);
        case ResultOther =>
      }
    case _ =>
  }

  lemma AddTextAligned(p: Parts, t: string)
    requires PartsAligned(p) && t != ""
    ensures PartsAligned(AddText(p, t))
  {
  }

  /** A message has text exactly when some content item contributed a text part, and its search text is the lower-cased parts joined by spaces. */
  lemma TextEmptyIffNoParts(env: Env, r: Record, lineNum: nat)
    requires RecordTyped(r)
    ensures var p := Fold(env, r, r.content);
            var m := ParseEntry(env, r, lineNum);
            && (m.content.text == "" <==> p.texts == [])
            && m.content.text == Join(p.texts, "\n\n")
            && m.searchText == Join(p.searches, " ")
            && |p.texts| == |p.searches|
            && (forall k :: 0 <= k < |p.texts| ==> p.searches[k] == Lower(p.texts[k]))
  {
    FoldAligned(env, r, r.content);
    JoinIsEmpty(Fold(env, r, r.content).texts, "\n\n");
  }

  /** The message is flagged as thinking exactly when one of its items is a non-empty thinking segment. */
  lemma {:induction false} HasThinkingIff(env: Env, r: Record, items: seq<ContentItem>)
    requires forall k :: 0 <= k < |items| ==> ItemTyped(items[k])
    ensures Fold(env, r, items).hasThinking <==>
            exists k :: 0 <= k < |items| && items[k].ThinkingItem? && items[k].thinking != ""
    decreases |items|
  {
    if |items| > 0 {
      var n := |items| - 1;
      HasThinkingIff(env, r, items[..n]);
      assert forall k :: 0 <= k < n ==> items[..n][k] == items[k];
      ThinkingStep(env, r, Fold(env, r, items[..n]), items[n]);
    }
  }

  lemma {:induction false} AddAnswersThinking(p: Parts, parts: seq<ToolResultPart>)
    ensures AddAnswers(p, parts).hasThinking == p.hasThinking
    ensures AddAnswers(p, parts).thinkingPreview == p.thinkingPreview
    ensures AddAnswers(p, parts).toolCalls == p.toolCalls && AddAnswers(p, parts).artifacts == p.artifacts
    decreases |parts|
  {
    if |parts| > 0 {
      AddAnswersThinking(p, parts[..|parts| - 1]);
    }
  }

  /** A thinking segment with some text. */
  predicate IsThinking(item: ContentItem) {
    item.ThinkingItem? && item.thinking != ""
  }

  /**
   * A reference definition: the text of the last non-empty thinking segment
   * among `items`, or `None` when there is none.
   */
  function LastThinking(items: seq<ContentItem>): Option<string>
    decreases |items|
  {
    if |items| == 0 then None
    else if IsThinking(items[|items| - 1]) then Some(items[|items| - 1].thinking)
    else LastThinking(items[..|items| - 1])
  }

  /** There is no last thinking segment exactly when no item is a non-empty thinking segment. */
  lemma {:induction false} LastThinkingNone(items: seq<ContentItem>)
    ensures LastThinking(items).None? <==> forall k :: 0 <= k < |items| ==> !IsThinking(items[k])
    decreases |items|
  {
    if |items| > 0 {
      var n := |items| - 1;
      LastThinkingNone(items[..n]);
      assert forall k :: 0 <= k < n ==> items[..n][k] == items[k];
    }
  }

  /** The last thinking segment is the text of item `k`, and no later item is a non-empty thinking segment. */
  lemma {:induction false} LastThinkingAt(items: seq<ContentItem>) returns (k: nat)
    requires LastThinking(items).Some?
    ensures k < |items| && IsThinking(items[k]) && items[k].thinking == LastThinking(items).value
    ensures forall k' :: k < k' < |items| ==> !IsThinking(items[k'])
    decreases |items|
  {
    var n := |items| - 1;
    if IsThinking(items[n]) {
      k := n;
    } else {
      k := LastThinkingAt(items[..n]);
      assert items[..n][k] == items[k];
      assert forall k' :: k < k' < n ==> items[..n][k'] == items[k'];
    }
  }

  /**
   * A thinking preview is kept exactly when previews are enabled and there was
   * thinking: it is the last non-empty thinking segment, cut to 300 characters
   * plus an ellipsis when it is longer.
   */
  lemma {:induction false} ThinkingPreviewShape(env: Env, r: Record, items: seq<ContentItem>)
    requires forall k :: 0 <= k < |items| ==> ItemTyped(items[k])
    ensures var p := Fold(env, r, items);
            && (p.thinkingPreview.Some? <==> env.config.showThinkingPreview && p.hasThinking)
            && (p.thinkingPreview.Some? ==> |p.thinkingPreview.value| <= 303)
            && p.thinkingPreview == (if env.config.showThinkingPreview && LastThinking(items).Some?
                                     then Some(Truncated(LastThinking(items).value, 300)) else None)
    decreases |items|
  {
    if |items| > 0 {
      var n := |items| - 1;
      ThinkingPreviewShape(env, r, items[..n]);
      ThinkingStep(env, r, Fold(env, r, items[..n]), items[n]);
    }
  }

  /** One content item sets the thinking flag and preview only when it is a non-empty thinking segment. */
  lemma ThinkingStep(env: Env, r: Record, p: Parts, item: ContentItem)
    requires ItemTyped(item)
    ensures Step(env, r, p, item).hasThinking == (p.hasThinking || IsThinking(item))
    ensures Step(env, r, p, item).thinkingPreview ==
            if IsThinking(item) && env.config.showThinkingPreview then Some(Truncated(item.thinking, 300)) else p.thinkingPreview
  {
    if item.ToolResultItem? && item.result.ResultList? {
      AddAnswersThinking(p, item.result.parts);
    }
  }

  /** The calls a content item adds: its parsed call for a `tool_use` item, none otherwise. */
  function NewCalls(env: Env, item: ContentItem): seq<ToolCall> {
    if item.ToolUseItem? then [ParseToolUse(item.id, item.name, item.input, env.config.toolResultMaxLength)] else []
  }

  /** A reference definition: the parsed calls of the `tool_use` items among `items`, in order. */
  function ToolUses(env: Env, items: seq<ContentItem>): seq<ToolCall>
    decreases |items|
  {
    if |items| == 0 then []
    else ToolUses(env, items[..|items| - 1]) + NewCalls(env, items[|items| - 1])
  }

  /** The artifact ids of the file tool calls among `calls` that name a file, in order. */
  function FileCallIds(md5Hex: string -> string, uuid: string, calls: seq<ToolCall>): (ids: seq<string>)
    ensures |ids| <= |calls|
    decreases |calls|
  {
    if |calls| == 0 then []
    else FileCallIds(md5Hex, uuid, calls[..|calls| - 1]) + FileCallId(md5Hex, uuid, calls[|calls| - 1])
  }

  lemma {:induction false} FileCallIdsAppend(md5Hex: string -> string, uuid: string, a: seq<ToolCall>, b: seq<ToolCall>)
    ensures FileCallIds(md5Hex, uuid, a + b) == FileCallIds(md5Hex, uuid, a) + FileCallIds(md5Hex, uuid, b)
    decreases |b|
  {
    if |b| == 0 {
      assert a + b == a;
    } else {
      var n := |b| - 1;
      assert (a + b)[..|a + b| - 1] == a + b[..n];
      FileCallIdsAppend(md5Hex, uuid, a, b[..n]);
    }
  }

  /**
   * The message's tool calls are the parsed `tool_use` items, in order; its
   * artifacts are those of the calls that name a file with `Read`, `Write` or
   * `Edit`, so its artifact ids are theirs, in the same order; every artifact
   * belongs to this message.
   */
  lemma {:induction false} ToolCallsAndArtifacts(env: Env, r: Record, items: seq<ContentItem>)
    requires forall k :: 0 <= k < |items| ==> ItemTyped(items[k])
    ensures var p := Fold(env, r, items);
            && p.toolCalls == ToolUses(env, items)
            && Ids(p.artifacts) == FileCallIds(env.md5Hex, r.uuid, p.toolCalls)
            && |p.artifacts| <= |p.toolCalls|
            && forall k :: 0 <= k < |p.artifacts| ==>
                 p.artifacts[k].messageId == MessageId(r.uuid) && p.artifacts[k].timestamp == r.timestamp
    decreases |items|
  {
    if |items| > 0 {
      var n := |items| - 1;
      var p := Fold(env, r, items[..n]);
      ToolCallsAndArtifacts(env, r, items[..n]);
      StepCalls(env, r, p, items[n]);
      FileCallIdsAppend(env.md5Hex, r.uuid, p.toolCalls, NewCalls(env, items[n]));
    }
  }

  /** What one content item does to the tool calls and the artifacts. */
  ghost predicate CallsStep(env: Env, r: Record, p: Parts, item: ContentItem, q: Parts) {
    && q.toolCalls == p.toolCalls + NewCalls(env, item)
    && Ids(q.artifacts) == Ids(p.artifacts) + FileCallIds(env.md5Hex, r.uuid, NewCalls(env, item))
    && |p.artifacts| <= |q.artifacts| && q.artifacts[..|p.artifacts|] == p.artifacts
    && forall k :: |p.artifacts| <= k < |q.artifacts| ==>
         q.artifacts[k].messageId == MessageId(r.uuid) && q.artifacts[k].timestamp == r.timestamp
  }

  lemma StepCalls(env: Env, r: Record, p: Parts, item: ContentItem)
    requires ItemTyped(item)
    ensures CallsStep(env, r, p, item, Step(env, r, p, item))
  {
    if item.ToolUseItem? {
      StepToolUse(env, r, p, item);
      assert NewCalls(env, item) == [ParseToolUse(item.id, item.name, item.input, env.config.toolResultMaxLength)];
    } else {
      StepKeepsCalls(env, r, p, item);
      var q := Step(env, r, p, item);
      assert NewCalls(env, item) == [];
      assert q.artifacts[..|p.artifacts|] == p.artifacts;
    }
  }

  lemma StepToolUse(env: Env, r: Record, p: Parts, item: ContentItem)
    requires ItemTyped(item) && item.ToolUseItem?
    ensures CallsStep(env, r, p, item, Step(env, r, p, item))
  {
    var call := ParseToolUse(item.id, item.name, item.input, env.config.toolResultMaxLength);
    assert Step(env, r, p, item) == UseTool(env, r, p, call);
    UseToolIds(env, r, p, call);
    SingleCallIds(env.md5Hex, r.uuid, call);
  }

  lemma SingleCallIds(md5Hex: string -> string, uuid: string, call: ToolCall)
    ensures FileCallIds(md5Hex, uuid, [call]) == FileCallId(md5Hex, uuid, call)
  {
    assert [call][..0] == [];
  }

  /** The items other than `tool_use` leave the tool calls and the artifacts alone. */
  lemma StepKeepsCalls(env: Env, r: Record, p: Parts, item: ContentItem)
    requires ItemTyped(item) && !item.ToolUseItem?
    ensures Step(env, r, p, item).toolCalls == p.toolCalls && Step(env, r, p, item).artifacts == p.artifacts
  {
    if item.ToolResultItem? && item.result.ResultList? {
      AddAnswersThinking(p, item.result.parts);
    }
  }

  // ---------------------------------------------------------------------------
  // The artifact map

  /** `self.artifacts[a.id] = a` for each artifact in turn: the last writer of an id wins. */
  function Store(m: map<string, Artifact>, arts: seq<Artifact>): map<string, Artifact>
    decreases |arts|
  {
    if |arts| == 0 then m
    else var last := arts[|arts| - 1]; Store(m, arts[..|arts| - 1])[last.id := last]
  }

  /**
   * After storing, an id is present exactly when it was before or some stored
   * artifact has it; its entry is the last stored artifact with that id, or
   * the old entry when none has.
   */
  lemma {:induction false} StoreLastWriterWins(m: map<string, Artifact>, arts: seq<Artifact>, id: string)
    ensures id in Store(m, arts) <==> id in m || exists k :: 0 <= k < |arts| && arts[k].id == id
    ensures forall k :: 0 <= k < |arts| && arts[k].id == id && (forall k' :: k < k' < |arts| ==> arts[k'].id != id) ==>
              Store(m, arts)[id] == arts[k]
    ensures (forall k :: 0 <= k < |arts| ==> arts[k].id != id) && id in m ==> Store(m, arts)[id] == m[id]
    decreases |arts|
  {
    if |arts| > 0 {
      var n := |arts| - 1;
      StoreLastWriterWins(m, arts[..n], id);
      assert forall k :: 0 <= k < n ==> arts[..n][k] == arts[k];
    }
  }

  /** Storing no artifact leaves the map as it was. */
  lemma NothingStored(m: map<string, Artifact>, arts: seq<Artifact>)
    ensures arts[..|arts|] == arts && Store(m, arts[|arts|..]) == m
  {
    assert arts[|arts|..] == [];
  }

  lemma {:induction false} StoreAppend(m: map<string, Artifact>, a: seq<Artifact>, b: seq<Artifact>)
    ensures Store(m, a + b) == Store(Store(m, a), b)
    decreases |b|
  {
    if |b| == 0 {
      assert a + b == a;
    } else {
      var n := |b| - 1;
      assert (a + b)[..|a + b| - 1] == a + b[..n];
      StoreAppend(m, a, b[..n]);
    }
  }

  // ---------------------------------------------------------------------------
  // A whole transcript

  predicate IsChatRecord(r: Record) {
    r.kind == "user" || r.kind == "assistant"
  }

  /** The filter of `parse_transcript`: a message is kept when it has text or tool calls. */
  predicate Retained(m: Message) {
    m.content.text != "" || |m.content.toolCalls| > 0
  }

  predicate LinesTyped(lines: seq<Option<Record>>) {
    forall k :: 0 <= k < |lines| && lines[k].Some? ==> RecordTyped(lines[k].value)
  }

  /** The messages of `parse_transcript` over the first `|lines|` lines; line numbers start at 1. */
  function ParseLines(env: Env, lines: seq<Option<Record>>): seq<Message>
    requires LinesTyped(lines)
    decreases |lines|
  {
    if |lines| == 0 then []
    else
      var n := |lines| - 1;
      var before := ParseLines(env, lines[..n]);
      match lines[n]
      case None => before
      case Some(r) =>
        if !IsChatRecord(r) then before
        else
          var m := ParseEntry(env, r, n + 1);
          if Retained(m) then before + [m] else before
  }

  /** The artifacts `parse_transcript` stores, in order (those of dropped records included). */
  function LinesArtifacts(env: Env, lines: seq<Option<Record>>): seq<Artifact>
    requires LinesTyped(lines)
    decreases |lines|
  {
    if |lines| == 0 then []
    else
      var n := |lines| - 1;
      var before := LinesArtifacts(env, lines[..n]);
      match lines[n]
      case None => before
      case Some(r) => if !IsChatRecord(r) then before else before + EntryArtifacts(env, r)
  }

  /** `m` is the parse of the user or assistant record on the line `m.lineNum` of `lines`. */
  ghost predicate ParsedFrom(env: Env, lines: seq<Option<Record>>, m: Message) {
    && 1 <= m.lineNum <= |lines|
    && lines[m.lineNum - 1].Some? && IsChatRecord(lines[m.lineNum - 1].value)
    && RecordTyped(lines[m.lineNum - 1].value)
    && m == ParseEntry(env, lines[m.lineNum - 1].value, m.lineNum)
  }

  lemma ParsedFromPrefix(env: Env, lines: seq<Option<Record>>, n: nat, m: Message)
    requires n <= |lines| && ParsedFrom(env, lines[..n], m)
    ensures ParsedFrom(env, lines, m)
  {
    assert lines[..n][m.lineNum - 1] == lines[m.lineNum - 1];
  }

  /**
   * Every retained message is the parse of a user or assistant record on the
   * line it names, has text or tool calls, and the messages keep line order.
   */
  lemma {:induction false} ParseLinesWellFormed(env: Env, lines: seq<Option<Record>>)
    requires LinesTyped(lines)
    ensures forall k :: 0 <= k < |ParseLines(env, lines)| ==>
              var m := ParseLines(env, lines)[k];
              (m.role == "user" || m.role == "assistant") && Retained(m) && ParsedFrom(env, lines, m)
    ensures forall k, k' :: 0 <= k < k' < |ParseLines(env, lines)| ==>
              ParseLines(env, lines)[k].lineNum < ParseLines(env, lines)[k'].lineNum
    decreases |lines|
  {
    if |lines| > 0 {
      var n := |lines| - 1;
      var before := ParseLines(env, lines[..n]);
      ParseLinesWellFormed(env, lines[..n]);
      forall k | 0 <= k < |before|
        ensures ParsedFrom(env, lines, before[k])
      {
        ParsedFromPrefix(env, lines, n, before[k]);
      }
      if lines[n].Some? && IsChatRecord(lines[n].value) {
        var m := ParseEntry(env, lines[n].value, n + 1);
        assert m.role == lines[n].value.kind && m.lineNum == n + 1;
      }
    }
  }

  /**
   * The other half of the filter: the parse of every user or assistant record
   * that has text or tool calls is among the messages.
   */
  lemma {:induction false} ParseLinesKeeps(env: Env, lines: seq<Option<Record>>, k: nat) returns (j: nat)
    requires LinesTyped(lines) && k < |lines| && lines[k].Some? && IsChatRecord(lines[k].value)
    requires Retained(ParseEntry(env, lines[k].value, k + 1))
    ensures j < |ParseLines(env, lines)| && ParseLines(env, lines)[j] == ParseEntry(env, lines[k].value, k + 1)
    decreases |lines|
  {
    var n := |lines| - 1;
    if k == n {
      j := |ParseLines(env, lines[..n])|;
    } else {
      assert lines[..n][k] == lines[k];
      j := ParseLinesKeeps(env, lines[..n], k);
    }
  }

  /** A dropped record stores no artifacts: it had no tool calls. */
  lemma DroppedEntryStoresNothing(env: Env, r: Record, lineNum: nat)
    requires RecordTyped(r)
    requires !Retained(ParseEntry(env, r, lineNum))
    ensures EntryArtifacts(env, r) == []
  {
    ToolCallsAndArtifacts(env, r, r.content);
  }
}
