/**
 * The builder object: its configuration, the repository root, and the
 * artifact map that transcript parsing fills and the correlator reads.
 *
 * Each method is proved against the specification functions of `Transcript`,
 * `Correlation` and `Versions`: what it returns, and what the artifact map,
 * the commits and the messages hold afterwards.
 */
module Builder {
  import opened Wrappers
  import opened Text
  import opened Entities
  import opened Tools
  import opened Transcript
  import opened Correlation
  import opened Versions
  import opened Search
  import opened Pages

  class Builder {
    /** The resolved repository root. */
    const repoRoot: string
    /** The default configuration overlaid with the caller's. */
    const config: Config
    /** The MD5 hex digest of a string's encoding. */
    const md5Hex: string -> string
    /** Artifacts by id, filled while transcripts are parsed. */
    var artifacts: map<string, Artifact>

    constructor(repoRoot: string, config: Config, md5Hex: string -> string)
      ensures this.repoRoot == repoRoot && this.config == config && this.md5Hex == md5Hex
      ensures artifacts == map[]
    {
      this.repoRoot := repoRoot;
      this.config := config;
      this.md5Hex := md5Hex;
      artifacts := map[];
    }

    function Env(): Env {
      Transcript.Env(config, repoRoot, md5Hex)
    }

    // -------------------------------------------------------------------------
    // Transcripts

    /** The artifact a tool call implies, stored under its id before it is returned. */
    method ExtractArtifactFromTool(call: ToolCall, msgUuid: string, msgId: string, msgTimestamp: string)
      returns (a: Option<Artifact>)
      requires InputTyped(call.name, call.input)
      modifies this
      ensures a == ArtifactOf(repoRoot, md5Hex, msgUuid, msgId, msgTimestamp, call)
      ensures artifacts == if a.Some? then old(artifacts)[a.value.id := a.value] else old(artifacts)
    {
      a := ArtifactOf(repoRoot, md5Hex, msgUuid, msgId, msgTimestamp, call);
      if a.Some? {
        artifacts := artifacts[a.value.id := a.value];
      }
    }

    /** The answered-question texts of a tool result's list content. */
    method AddAnswerTexts(p: Parts, parts: seq<ToolResultPart>) returns (q: Parts)
      ensures q == AddAnswers(p, parts)
      ensures q.artifacts == p.artifacts
    {
      q := p;
      var j := 0;
      while j < |parts|
        invariant 0 <= j <= |parts|
        invariant q == AddAnswers(p, parts[..j])
        invariant q.artifacts == p.artifacts
      {
        match parts[j] {
          case TextPart(t) =>
            if StartsWith(t, ANSWER_PREFIX) {
              q := q.(texts := q.texts + [t], searches := q.searches + [Lower(t)]);
            }
          case OtherPart =>
        }
        assert parts[..j + 1][..j] == parts[..j];
        j := j + 1;
      }
      assert parts[..j] == parts;
    }

    /** One iteration of the content loop of `_parse_message_entry`. */
    method ParseItem(r: Record, p: Parts, item: ContentItem) returns (q: Parts)
      requires ItemTyped(item)
      modifies this
      ensures q == Step(Env(), r, p, item)
      ensures |p.artifacts| <= |q.artifacts| && q.artifacts[..|p.artifacts|] == p.artifacts
      ensures artifacts == Store(old(artifacts), q.artifacts[|p.artifacts|..])
    {
      if item.ToolUseItem? {
        q := ParseToolUseItem(r, p, item.id, item.name, item.input);
      } else {
        q := ParseContentItem(r, p, item);
        NothingStored(artifacts, p.artifacts);
      }
    }

    /** The items other than `tool_use`: text, thinking and tool results add to the text parts or the thinking fields. */
    method ParseContentItem(r: Record, p: Parts, item: ContentItem) returns (q: Parts)
      requires !item.ToolUseItem?
      ensures q == Step(Env(), r, p, item)
      ensures q.artifacts == p.artifacts
    {
      q := p;
      match item
      case TextItem(t) =>
        var text := StripContext(t);
        if text != "" {
          q := q.(texts := q.texts + [text], searches := q.searches + [Lower(text)]);
        }
      case ThinkingItem(thinking) =>
        if thinking != "" {
          q := q.(hasThinking := true);
          if config.showThinkingPreview {
            q := q.(thinkingPreview := Some(Truncated(thinking, 300)));
          }
        }
      case ToolResultItem(content) =>
        match content {
          case ResultString(s) =>
            if StartsWith(s, ANSWER_PREFIX) {
              q := q.(texts := q.texts + [s], searches := q.searches + [Lower(s)]);
            }
          case ResultList(parts) =>
            q := AddAnswerTexts(p, parts);
          case ResultOther =>
        }
      case NonObject =>
      case OtherItem(_) =>
    }

    /** A `tool_use` item: `_parse_tool_use` gives the call, then `_extract_artifact_from_tool` stores and returns its artifact. */
    method ParseToolUseItem(r: Record, p: Parts, id: string, name: string, input: ToolInput) returns (q: Parts)
      requires InputTyped(name, input)
      modifies this
      ensures q == (SanitizeKeepsTyped(name, input, config.toolResultMaxLength);
                    UseTool(Env(), r, p, ParseToolUse(id, name, input, config.toolResultMaxLength)))
      ensures |p.artifacts| <= |q.artifacts| && q.artifacts[..|p.artifacts|] == p.artifacts
      ensures artifacts == Store(old(artifacts), q.artifacts[|p.artifacts|..])
    {
      var call := ParseToolUse(id, name, input, config.toolResultMaxLength);
      q := p.(toolCalls := p.toolCalls + [call]);
      SanitizeKeepsTyped(name, input, config.toolResultMaxLength);
      var a := ExtractArtifactFromTool(call, r.uuid, MessageId(r.uuid), r.timestamp);
      if a.Some? {
        q := q.(artifacts := q.artifacts + [a.value]);
        assert q.artifacts[|p.artifacts|..] == [a.value];
        assert [a.value][..0] == [];
      }
      assert q.artifacts == p.artifacts + AsList(a);
    }

    /** `_parse_message_entry`: the message of one record; the artifacts of its tool calls are stored in turn. */
    method ParseMessageEntry(r: Record, lineNum: nat) returns (msg: Message)
      requires RecordTyped(r)
      modifies this
      ensures msg == ParseEntry(Env(), r, lineNum)
      ensures artifacts == Store(old(artifacts), EntryArtifacts(Env(), r))
    {
      var p := NO_PARTS;
      var i := 0;
      while i < |r.content|
        invariant 0 <= i <= |r.content|
        invariant p == Fold(Env(), r, r.content[..i])
        invariant artifacts == Store(old(artifacts), p.artifacts)
      {
        var q := ParseItem(r, p, r.content[i]);
        StoreAppend(old(artifacts), p.artifacts, q.artifacts[|p.artifacts|..]);
        assert p.artifacts + q.artifacts[|p.artifacts|..] == q.artifacts;
        assert r.content[..i + 1][..i] == r.content[..i];
        p := q;
        i := i + 1;
      }
      assert r.content[..i] == r.content;
      var text := Join(p.texts, "\n\n");
      msg := Message(
        MessageId(r.uuid), r.uuid, r.parentUuid, r.kind, r.timestamp, r.sessionId, lineNum,
        Content(text, Truncated(text, 200), p.hasThinking, p.thinkingPreview, p.toolCalls),
        Ids(p.artifacts), [], Join(p.searches, " "));
    }

    /**
     * `parse_transcript` over the decoded lines of one file (`None` for a line
     * that is not valid JSON): the kept messages, numbered from line 1.
     */
    method ParseTranscript(lines: seq<Option<Record>>) returns (messages: seq<Message>)
      requires LinesTyped(lines)
      modifies this
      ensures messages == ParseLines(Env(), lines)
      ensures artifacts == Store(old(artifacts), LinesArtifacts(Env(), lines))
    {
      messages := [];
      for i := 0 to |lines|
        invariant messages == ParseLines(Env(), lines[..i])
        invariant artifacts == Store(old(artifacts), LinesArtifacts(Env(), lines[..i]))
      {
        assert lines[..i + 1][..i] == lines[..i];
        match lines[i] {
          case None =>
          case Some(entry) =>
            if IsChatRecord(entry) {
              StoreAppend(old(artifacts), LinesArtifacts(Env(), lines[..i]), EntryArtifacts(Env(), entry));
              var msg := ParseMessageEntry(entry, i + 1);
              if Retained(msg) {
                messages := messages + [msg];
              }
            }
        }
      }
      assert lines[..|lines|] == lines;
    }

    // -------------------------------------------------------------------------
    // Commits and messages

    /** The scan of the changed files for one artifact's relative path; it stops at the first match. */
    method TouchesAnyFile(rel: string, files: seq<FileChange>) returns (found: bool)
      ensures found <==> Touches(rel, files)
    {
      found := false;
      var f := 0;
      while f < |files|
        invariant 0 <= f <= |files|
        invariant forall i :: 0 <= i < f ==> !(rel != "" && Contains(files[i].path, rel))
      {
        if rel != "" && Contains(files[f].path, rel) {
          found := true;
          break;
        }
        f := f + 1;
      }
    }

    /** The artifact loop for a commit and a message in the same window: one link per artifact that touches a changed file. */
    method LinkArtifacts(c: Commit, m: Message) returns (c': Commit, m': Message)
      ensures c' == c.(relatedMessages := c.relatedMessages + Repeat(m.id, |Matching(artifacts, c.filesChanged, m.artifacts)|),
                       relatedArtifacts := c.relatedArtifacts + Matching(artifacts, c.filesChanged, m.artifacts))
      ensures m' == m.(relatedCommits := m.relatedCommits + Repeat(c.hash, |Matching(artifacts, c.filesChanged, m.artifacts)|))
    {
      c', m' := c, m;
      for a := 0 to |m.artifacts|
        invariant c' == c.(relatedMessages := c.relatedMessages + Repeat(m.id, |Matching(artifacts, c.filesChanged, m.artifacts[..a])|),
                           relatedArtifacts := c.relatedArtifacts + Matching(artifacts, c.filesChanged, m.artifacts[..a]))
        invariant m' == m.(relatedCommits := m.relatedCommits + Repeat(c.hash, |Matching(artifacts, c.filesChanged, m.artifacts[..a])|))
      {
        assert m.artifacts[..a + 1][..a] == m.artifacts[..a];
        var aid := m.artifacts[a];
        var rel := RelPath(artifacts, aid);
        var touches := TouchesAnyFile(rel, c.filesChanged);
        ghost var n := |Matching(artifacts, c.filesChanged, m.artifacts[..a])|;
        if touches {
          assert Repeat(m.id, n + 1) == Repeat(m.id, n) + [m.id];
          assert Repeat(c.hash, n + 1) == Repeat(c.hash, n) + [c.hash];
          c' := c'.(relatedMessages := c'.relatedMessages + [m.id], relatedArtifacts := c'.relatedArtifacts + [aid]);
          m' := m'.(relatedCommits := m'.relatedCommits + [c.hash]);
        }
      }
      assert m.artifacts[..|m.artifacts|] == m.artifacts;
    }

    /** One iteration of the message loop: the window test, then the artifact loop. */
    method MatchMessage(c: Commit, commitTime: int, m: Message, iso: string -> Option<int>) returns (c': Commit, m': Message)
      requires CommitTime(iso, c.timestamp) == Some(commitTime)
      ensures c' == Gained(artifacts, iso, c, m)
      ensures m' == Tagged(artifacts, iso, c, m)
    {
      c', m' := c, m;
      if m.role != "assistant" {
        return;
      }
      var msgTime := MessageTime(iso, m.timestamp);
      if msgTime.None? {
        return;
      }
      var delta := commitTime - msgTime.value;
      if 0 <= delta <= WINDOW_SECONDS {
        c', m' := LinkArtifacts(c, m);
      }
    }

    /** The message loop for one commit whose timestamp parsed to `commitTime`. */
    method MatchCommit(messages: array<Message>, c: Commit, commitTime: int, iso: string -> Option<int>) returns (c': Commit)
      requires CommitTime(iso, c.timestamp) == Some(commitTime)
      modifies messages
      ensures c' == CommitAfter(artifacts, iso, c, old(messages[..]))
      ensures messages[..] == TaggedAll(artifacts, iso, c, old(messages[..]))
    {
      ghost var ms, arts := messages[..], artifacts;
      c' := c;
      for k := 0 to messages.Length
        invariant c' == CommitAfter(arts, iso, c, ms[..k])
        invariant messages[..k] == TaggedAll(arts, iso, c, ms[..k])
        invariant forall j :: k <= j < messages.Length ==> messages[j] == ms[j]
      {
        GainStep(arts, iso, c, c', ms, k);
        TaggedAllStep(arts, iso, c, ms, k);
        var msg := messages[k];
        assert msg == ms[k];
        c', msg := MatchMessage(c', commitTime, msg, iso);
        messages[k] := msg;
        assert messages[..k + 1] == messages[..k] + [msg];
      }
      assert ms[..messages.Length] == ms;
      assert messages[..messages.Length] == messages[..];
    }

    /** One iteration of the commit loop: commit `j` and every message gain that commit's links. */
    method CorrelateCommit(messages: array<Message>, commits: array<Commit>, j: nat, iso: string -> Option<int>,
                           ghost cs: seq<Commit>, ghost ms: seq<Message>)
      requires j < commits.Length == |cs| && messages.Length == |ms|
      requires commits[..j] == CommitsAfter(artifacts, iso, cs[..j], ms)
      requires forall j' :: j <= j' < commits.Length ==> commits[j'] == cs[j']
      requires messages[..] == MessagesAfter(artifacts, iso, cs[..j], ms)
      modifies messages, commits
      ensures commits[..j + 1] == CommitsAfter(artifacts, iso, cs[..j + 1], ms)
      ensures forall j' :: j < j' < commits.Length ==> commits[j'] == cs[j']
      ensures messages[..] == MessagesAfter(artifacts, iso, cs[..j + 1], ms)
    {
      ghost var arts := artifacts;
      assert cs[..j + 1][..j] == cs[..j];
      var commit := commits[j];
      assert commit == cs[j];
      var commitTime := CommitTime(iso, commit.timestamp);
      if commitTime.None? {
        UnparseableCommitStep(arts, iso, cs[..j + 1], ms, commits[..j], messages[..]);
        assert commits[..j + 1] == commits[..j] + [commit];
        return;
      }
      CorrelateTimedCommit(messages, commits, j, commitTime.value, iso, cs, ms);
    }

    /** The part of `CorrelateCommit` for a commit whose timestamp parses to `t`. */
    method CorrelateTimedCommit(messages: array<Message>, commits: array<Commit>, j: nat, t: int,
                                iso: string -> Option<int>, ghost cs: seq<Commit>, ghost ms: seq<Message>)
      requires j < commits.Length == |cs| && messages.Length == |ms|
      requires commits[..j] == CommitsAfter(artifacts, iso, cs[..j], ms)
      requires forall j' :: j <= j' < commits.Length ==> commits[j'] == cs[j']
      requires messages[..] == MessagesAfter(artifacts, iso, cs[..j], ms)
      requires CommitTime(iso, cs[j].timestamp) == Some(t)
      modifies messages, commits
      ensures commits[..j + 1] == CommitsAfter(artifacts, iso, cs[..j + 1], ms)
      ensures forall j' :: j < j' < commits.Length ==> commits[j'] == cs[j']
      ensures messages[..] == MessagesAfter(artifacts, iso, cs[..j + 1], ms)
    {
      ghost var arts := artifacts;
      ghost var before, msgs := commits[..], messages[..];
      var commit := commits[j];
      assert commit == cs[j];
      var c' := MatchCommit(messages, commit, t, iso);
      commits[j] := c';
      CorrelatedCommitState(arts, iso, cs, ms, j, before, msgs, c', messages[..]);
      assert commits[..] == before[j := c'];
    }

    /**
     * `match_commits_to_messages`: each commit gains one message id and one
     * artifact id per link, each message one short hash per link, in loop
     * order; nothing else changes.
     */
    method MatchCommitsToMessages(messages: array<Message>, commits: array<Commit>, iso: string -> Option<int>)
      modifies messages, commits
      ensures forall j :: 0 <= j < commits.Length ==>
                commits[j] == CommitAfter(artifacts, iso, old(commits[j]), old(messages[..]))
      ensures forall k :: 0 <= k < messages.Length ==>
                messages[k] == MessageAfter(artifacts, iso, old(commits[..]), old(messages[k]))
    {
      ghost var cs, ms, arts := commits[..], messages[..], artifacts;
      MessagesAfterNoCommits(arts, iso, ms);
      assert cs[..0] == [];
      for j := 0 to commits.Length
        invariant commits[..j] == CommitsAfter(arts, iso, cs[..j], ms)
        invariant forall j' :: j <= j' < commits.Length ==> commits[j'] == cs[j']
        invariant messages[..] == MessagesAfter(arts, iso, cs[..j], ms)
      {
        CorrelateCommit(messages, commits, j, iso, cs, ms);
      }
      assert cs[..commits.Length] == cs && commits[..commits.Length] == commits[..];
      forall j | 0 <= j < commits.Length
        ensures commits[j] == CommitAfter(arts, iso, cs[j], ms)
      {
        CommitsAfterAt(arts, iso, cs, ms, j);
      }
      forall k | 0 <= k < messages.Length
        ensures messages[k] == MessageAfter(arts, iso, cs, ms[k])
      {
        MessagesAfterAt(arts, iso, cs, ms, k);
      }
    }

    // -------------------------------------------------------------------------
    // Image versions

    /**
     * The file loop of `extract_versioned_artifacts` for one commit: every
     * changed ".png" or ".jpg" file that git returns is appended to the
     * commit's snapshots and to the history of its file name.
     */
    method SnapshotCommit(c: Commit, versions: map<string, seq<ImageVersion>>, retrieve: (string, string) -> bool)
      returns (c': Commit, versions': map<string, seq<ImageVersion>>)
      ensures c' == Snapshotted(retrieve, c)
      ensures versions' == AddSnapshots(retrieve, versions, c, c.filesChanged)
    {
      c', versions' := c, versions;
      var files := c.filesChanged;
      for i := 0 to |files|
        invariant c' == c.(versionedArtifacts := c.versionedArtifacts + Snapshots(retrieve, c, files[..i]))
        invariant versions' == AddSnapshots(retrieve, versions, c, files[..i])
      {
        SnapshotStep(retrieve, versions, c, files, i);
        var path := files[i].path;
        if Retrieved(retrieve, c, files[i]) {
          var name := Basename(path);
          var localPath := LocalPath(c.hash, path);
          c' := c'.(versionedArtifacts := c'.versionedArtifacts + [VersionedArtifact(path, localPath)]);
          var history := if name in versions' then versions'[name] else [];
          versions' := versions'[name := history + [ImageVersion(c.hash, c.timestamp, localPath)]];
        }
      }
      assert files[..|files|] == files;
    }

    /**
     * `extract_versioned_artifacts`: each commit gains the snapshots of its
     * changed images, and the result maps each image name to its snapshots
     * in commit order (see `HistoriesAgree`).
     */
    method ExtractVersionedArtifacts(commits: array<Commit>, retrieve: (string, string) -> bool)
      returns (versions: map<string, seq<ImageVersion>>)
      modifies commits
      ensures versions == Histories(retrieve, old(commits[..]))
      ensures forall j :: 0 <= j < commits.Length ==> commits[j] == Snapshotted(retrieve, old(commits[j]))
    {
      ghost var cs := commits[..];
      versions := map[];
      for j := 0 to commits.Length
        invariant versions == Histories(retrieve, cs[..j])
        invariant forall j' :: 0 <= j' < j ==> commits[j'] == Snapshotted(retrieve, cs[j'])
        invariant forall j' :: j <= j' < commits.Length ==> commits[j'] == cs[j']
      {
        assert cs[..j + 1][..j] == cs[..j];
        var c', v' := SnapshotCommit(commits[j], versions, retrieve);
        commits[j] := c';
        versions := v';
      }
      assert cs[..commits.Length] == cs;
    }
    // -------------------------------------------------------------------------
    // Output structures

    /**
     * `build_search_index`. Each message gets a document-map entry holding
     * its page number, and is indexed under its terms (see `MessageIndexIff`
     * and `PostingsIncreasing`). A page size of zero raises as soon as there
     * is a message.
     */
    method BuildSearchIndex(messages: seq<Message>) returns (index: SearchIndex)
      requires config.messagesPerPage > 0 || |messages| == 0
      ensures index.documents == |messages|
      ensures index.terms == Index(TermSets(messages))
      ensures |index.documentMap| == |messages|
      ensures forall i :: 0 <= i < |messages| ==> index.documentMap[i] == DocEntryOf(messages[i], i, config.messagesPerPage)
    {
      var size := config.messagesPerPage;
      var terms: map<string, seq<nat>> := map[];
      var documentMap: seq<DocEntry> := [];
      for i := 0 to |messages|
        invariant terms == Index(TermSets(messages)[..i])
        invariant size > 0 ==> documentMap == DocMap(messages[..i], size)
        invariant size == 0 ==> documentMap == []
      {
        DocMapStep(messages, size, i);
        documentMap := documentMap + [DocEntryOf(messages[i], i, size)];
        terms := IndexMessage(terms, messages, i);
      }
      assert TermSets(messages)[..|messages|] == TermSets(messages);
      assert messages[..|messages|] == messages;
      index := SearchIndex(|messages|, terms, documentMap);
      forall i | 0 <= i < |messages|
        ensures index.documentMap[i] == DocEntryOf(messages[i], i, config.messagesPerPage)
      {
        DocMapAt(messages, size, i);
      }
    }

    /**
     * `paginate_messages`: the loop over `range(0, len(messages), size)`
     * builds exactly the pages of `Paginated` (see `Partition`). A page size
     * of zero makes `range` raise.
     */
    method PaginateMessages(messages: seq<Message>) returns (pages: seq<Page>)
      requires config.messagesPerPage > 0
      ensures pages == Paginated(messages, config.messagesPerPage)
    {
      var size := config.messagesPerPage;
      var total := (|messages| + size - 1) / size;
      pages := [];
      var i := 0;
      while i < |messages|
        invariant i == |pages| * size
        invariant |pages| <= TotalPages(|messages|, size)
        invariant |pages| > 0 ==> (|pages| - 1) * size < |messages|
        invariant pages == Paginated(messages, size)[..|pages|]
        decreases |messages| - i
      {
        BelowCeiling(|messages|, size, |pages|);
        PageStart(|pages|, size);
        var pageMessages := messages[i..Min(i + size, |messages|)];
        pages := pages + [Page(i / size + 1, total, i, i + |pageMessages|, pageMessages)];
        i := i + size;
      }
      CeilingUnique(|messages|, size, |pages|);
    }

    /**
     * The counts of `generate_manifest`. Only the lengths of the image and
     * session lists are read, so they are passed as counts.
     */
    function ManifestCounts(messages: seq<Message>, commits: seq<Commit>, images: nat, sessions: nat): (m: Manifest)
      requires config.messagesPerPage > 0
      reads this
      ensures m.stats.totalMessages == |messages| && m.stats.totalCommits == |commits|
      ensures m.stats.userMessages == CountRole(messages, "user")
      ensures m.stats.assistantMessages == CountRole(messages, "assistant")
      ensures m.stats.userMessages + m.stats.assistantMessages <= m.stats.totalMessages
      ensures m.stats.totalImages == images && m.stats.sessions == sessions
      ensures m.messagesPerPage == config.messagesPerPage
      ensures m.stats.totalArtifacts == |artifacts|
      ensures m.totalPages == |Paginated(messages, config.messagesPerPage)|
      ensures m.totalPages * m.messagesPerPage >= |messages|
    {
      RoleCounts(messages);
      TotalPagesIsCeiling(|messages|, config.messagesPerPage);
      Manifest(
        Stats(|messages|, CountRole(messages, "user"), CountRole(messages, "assistant"), |artifacts|, |commits|, images, sessions),
        config.messagesPerPage,
        (|messages| + config.messagesPerPage - 1) / config.messagesPerPage)
    }
  }

  /** For the messages of a transcript, the user and assistant counts add up to the total. */
  lemma ParsedRoleCounts(env: Env, lines: seq<Option<Record>>)
    requires LinesTyped(lines)
    ensures CountRole(ParseLines(env, lines), "user") + CountRole(ParseLines(env, lines), "assistant") == |ParseLines(env, lines)|
  {
    ParseLinesWellFormed(env, lines);
    RoleCounts(ParseLines(env, lines));
  }
}
