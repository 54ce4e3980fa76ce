# Hypertransparency builder core, in Dafny

This project models the core of the hypertransparency site builder
(`HypertransparencyBuilder` in `src/builder.py`). The builder turns the
JSONL transcripts of an AI coding session and the git history of the
repository into the data files of a static site. The model covers these
parts:

- **Transcript parsing.** Records are turned into messages: text with the
  system and IDE context regions stripped, answered-question tool results,
  thinking previews, and tool calls with sanitised inputs and previews. Each
  `Read`/`Write`/`Edit` call yields a file artifact, stored by id in the
  builder's artifact map.
- **The git log parser.** This is the line-by-line state machine over the
  output of `git log --format=%H|%ci|%s|%an --name-status --reverse`.
- **The correlator.** It links a commit to an assistant message whose
  timestamp lies at most one hour before the commit. The link is made once
  per artifact of the message whose relative path occurs in one of the
  commit's changed paths.
- **Versioned images.** Every `.png`/`.jpg` in a commit's changed files that
  git can return becomes a snapshot on the commit and an entry in the history
  of its file name.
- **The output structures.** These are the inverted search index with its
  document map, the pages, and the counts of the manifest.

Modules: `Wrappers` (Option), `Text` (the string operations the builder
uses), `Entities` (decoded records and output entities), `Tools` (tool-call
handling), `Transcript`, `GitLog`, `Correlation`, `Versions`, `Search` and
`Pages` (specification functions and their lemmas), and `Builder`.

`Builder` is a class holding the resolved repository root, the merged
configuration, the digest function and the mutable artifact map. Its methods
are the builder's loops. Each method is proved equal to a specification
function, and lemmas prove what the source promises about those functions.
The correlator and the image extractor update the commit and message
dictionaries in place, so they work on `array<Commit>` and `array<Message>`.

Calls the model cannot see are parameters:

- `md5Hex` stands for `hashlib.md5(...).hexdigest()`.
- `iso` stands for `datetime.fromisoformat`, giving seconds, or `None`
  where it raises.
- `retrieve(fullHash, path)` stands for `git show <fullHash>:<path>`
  exiting with status 0 and its output being written.
- `GitLog.GetGitCommits` takes the standard output of `git log`.
- Transcript lines arrive already decoded from JSON: `None` marks a line
  that is not valid JSON.

## Model

| member | source | states |
|---|---|---|
| Text.Take | src/builder.py:124 | `s[:n]` is the prefix of `s` of length `min(n, len(s))` |
| Text.Truncated | src/builder.py:194 | the preview idiom keeps a string of at most `n` characters, and otherwise cuts it to `n` characters plus "..." |
| Text.SplitN | src/builder.py:305 | splitting at the first three separators yields at most four parts; only the last may hold the separator, and joining them gives the line back |
| Text.Split | src/builder.py:317 | `split` pieces hold no separator, there is at least one, and joining them gives the string back |
| Text.Before | src/builder.py:317-322 | the text before the first separator: it holds no separator, begins the string, and is followed by the separator when there is one |
| Text.SplitFirst | src/builder.py:317-319 | the first piece of `split` is the text before the first separator, and there is a second piece exactly when the separator occurs |
| Text.Remove | src/builder.py:343 | `replace("Z", "")` leaves no `Z` and never lengthens the string |
| Text.RemoveKeeps | src/builder.py:343 | the result is shorter by exactly the number of `Z` in the string, and a string without `Z` is kept unchanged |
| Text.RemoveAppend | src/builder.py:343 | removal works piece by piece, so the result is the characters of `s` other than `c`, in order |
| Text.Strip | src/builder.py:159 | `strip()` returns the piece of `s` that starts right after its leading white space and is followed only by white space; it has no white space at either end |
| Text.Lower | src/builder.py:162 | `lower()` keeps the length, leaves no capital letter, keeps every other character, and turns each capital into the small letter at the same place in the alphabet |
| Text.StripRegions | src/builder.py:155-158 | the non-greedy region removal never lengthens and is the identity when the opening tag is absent |
| Text.JoinIsEmpty | src/builder.py:193 | joining non-empty parts is empty exactly when there are no parts |
| Tools.Sanitize | src/builder.py:226-234 | same keys; a string longer than the limit becomes its first `limit` characters plus "..."; every other value is unchanged |
| Tools.SanitizeKeepsTyped | src/builder.py:186-189 | the sanitised input of a tool call is as well typed as the raw one, so the artifact can be derived from it |
| Tools.Basename | src/builder.py:217 | `Path(p).name` is the last component of the path without its trailing separators: it ends that path, holds no separator, and is either the whole path or preceded by a separator |
| Tools.Suffix | src/builder.py:285 | `Path(name).suffix` is empty or a final `.ext` with no further dot that ends, and is shorter than, the name; when the name has a dot after its first character and before its last with no dot after it, the suffix runs from that dot |
| Tools.RelativePath | src/builder.py:271-276 | under the root, the root plus the result gives the path back; the root itself gives "."; any other path gives its last component |
| Tools.DetectLanguage | src/builder.py:278-285 | a lower-cased suffix in the table gives that table entry; any other suffix gives "text" |
| Tools.ToolPreview | src/builder.py:214-224 | the preview for each tool name: file tools show the base name; Bash shows "Run: " and the command cut at 50 characters, Grep "Search: " and the pattern cut at 30, each with "..." when cut; Glob shows the pattern as Python prints it; any other name shows itself |
| Tools.ParseToolUse | src/builder.py:199-212 | the call keeps id and name; its input has the keys of the raw input and is its sanitised form; the preview is computed from the raw input, before sanitisation; a well-typed input stays well typed, so the artifact can be derived from the call |
| Tools.ArtifactId | src/builder.py:248 | an artifact id starts with "art_" and is at most 12 characters long |
| Tools.ArtifactOf | src/builder.py:236-269 | there is an artifact exactly for Read/Write/Edit with a non-empty `file_path`; each of its fields as derived; an edit preview exactly for Edit, whose before and after are the first 100 characters of `old_string` and `new_string` |
| Transcript.FoldAligned | src/builder.py:146-183 | text parts and search parts grow in step; every text part is non-empty and its search part is its lower-cased form |
| Transcript.StripContext | src/builder.py:153-159 | the cleaned text is never longer than the item text and has no white space at either end |
| Transcript.Step | src/builder.py:146-191 | definition: one content item's effect on the text parts, thinking, tool calls and artifacts |
| Transcript.ParseEntry | src/builder.py:118-197 | definition: the message of one record, from the fold over its content items |
| Transcript.ParseLines | src/builder.py:98-116 | definition: the user and assistant records, parsed with their line numbers and kept when they have text or tool calls |
| Transcript.TextEmptyIffNoParts | src/builder.py:193-195 | the message text is empty exactly when no item added a part; the text joins the parts with blank lines and the search text joins their lower-cased forms with spaces |
| Transcript.HasThinkingIff | src/builder.py:164-167 | `hasThinking` holds exactly when some item is a non-empty thinking segment |
| Transcript.ThinkingPreviewShape | src/builder.py:164-169 | with previews enabled, the preview is the last non-empty thinking segment, cut to its first 300 characters plus "..." when longer; with previews disabled, or without thinking, there is none; it is at most 303 characters |
| Transcript.ThinkingStep | src/builder.py:164-169 | one content item sets the thinking flag, and with previews enabled replaces the preview, exactly when it is a non-empty thinking segment; every other item leaves both alone |
| Transcript.LastThinkingNone | src/builder.py:164-166 | there is no last thinking segment exactly when no item is a non-empty thinking segment |
| Transcript.LastThinkingAt | src/builder.py:164-169 | the last thinking segment is the text of a non-empty thinking item after which no non-empty thinking item follows |
| Transcript.ToolCallsAndArtifacts | src/builder.py:185-191 | the tool calls are the parsed `tool_use` items, in order; the message's artifact ids are those of the calls that are Read/Write/Edit with a non-empty `file_path`, in order; every artifact names this message and its timestamp |
| Transcript.UseTool | src/builder.py:185-191 | a parsed `tool_use` item appends exactly its call to the tool calls, and its artifact, when `ArtifactOf` gives one, to the artifacts; nothing else changes |
| Transcript.UseToolIds | src/builder.py:185-191 | the message's artifact ids grow by the call's artifact id exactly when the call is Read/Write/Edit with a non-empty path; the new artifact names this message and its timestamp |
| Transcript.StoreLastWriterWins | src/builder.py:268 | after storing, an id is present exactly when it was before or was stored; its entry is the last artifact stored under it |
| Transcript.StoreAppend | src/builder.py:268 | storing two lists in turn is storing their concatenation |
| Transcript.ParseLinesWellFormed | src/builder.py:98-116 | every kept message is the parse of the user or assistant record on the line it names, and has text or tool calls; messages keep line order |
| Transcript.ParseLinesKeeps | src/builder.py:98-116 | the other half of the filter: the parse of every user or assistant record that has text or tool calls is among the messages |
| Transcript.DroppedEntryStoresNothing | src/builder.py:112-114 | a record that the filter drops stored no artifacts |
| GitLog.GetGitCommits | src/builder.py:287-300 | the commits are those of the log output split into lines |
| GitLog.ParseLines | src/builder.py:297-327 | the line loop and the final flush compute `Commits(lines)` |
| GitLog.Feed | src/builder.py:300-322 | one loop iteration is one step of the line state machine |
| GitLog.HeaderCommit | src/builder.py:305-315 | definition: the commit a header line opens (its fields are stated by `HeaderFields`) |
| GitLog.FileLine | src/builder.py:316-322 | a line gives a file change exactly when it holds a tab; the status is the text before the first tab; the path is the text after it, up to the next tab or the end of the line |
| GitLog.LogStep | src/builder.py:300-322 | definition: one step of the line state machine (its effect is stated by the `CommitsAppend` lemmas) |
| GitLog.HeaderFields | src/builder.py:305-315 | a header splits into four fields, the first three without a bar; the commit's fields are taken from them |
| GitLog.CommitsAppendHeader | src/builder.py:301-315 | a header line appends exactly one new commit |
| GitLog.CommitsAppendFileLine | src/builder.py:316-322 | a tab-separated line adds `{status, path}` to the last commit and nothing else |
| GitLog.CommitsAppendOther | src/builder.py:316-318 | blank lines, lines without a tab and lines before the first header change nothing |
| GitLog.HeadersOpenCommit | src/builder.py:298-303 | once a commit is closed, a current commit is open |
| GitLog.OneCommitPerHeader | src/builder.py:301-325 | there are exactly as many commits as header lines, and the `i`-th commit is the one the `i`-th header opened, with its file changes |
| Correlation.MatchingIff | src/builder.py:350-359 | an artifact id is linked exactly when it is one of the message's artifacts and its relative path is non-empty and occurs in a changed path |
| Correlation.CommitTime | src/builder.py:332-333 | definition: `iso` of the first two space-separated fields of the commit timestamp joined by "T"; the offset field is dropped |
| Correlation.MessageTime | src/builder.py:343-344 | definition: `iso` of the message timestamp with every "Z" removed, cut at its first "." |
| Correlation.InWindow | src/builder.py:339-349 | definition: an assistant message whose time parses and lies zero to 3600 seconds before the parsed commit time |
| Correlation.Matching | src/builder.py:350-359 | definition: the message's artifact ids whose relative path touches a changed path, in order (stated by `MatchingIff`) |
| Correlation.LinksIff | src/builder.py:338-359 | a (commit, message, artifact) link exists exactly when the message is an assistant message within the hour before the commit and the artifact touches a changed file |
| Correlation.CommitLinksPaired | src/builder.py:356-357 | a commit's related message ids and artifact ids grow in lockstep; each pair is one link |
| Correlation.LinkPairedAt | src/builder.py:350-357 | the `p`-th entries of a commit's two lists are the message and the artifact of one link |
| Correlation.MessageLinksFromCommits | src/builder.py:358 | every related commit hash of a message comes from a commit in the window with at least one link to it |
| Correlation.UnparseableCommitGainsNothing | src/builder.py:332-336 | a commit whose timestamp does not parse is skipped |
| Correlation.UnlinkableMessageGainsNothing | src/builder.py:339-346 | non-assistant messages and messages whose timestamp does not parse gain nothing |
| Correlation.LinksReadOnly | src/builder.py:338-355 | the link decision does not read the message's related commits |
| Correlation.GainsIgnoreRelatedCommits | src/builder.py:331-359 | what a commit gains does not depend on related commits that earlier commits added to the messages |
| Correlation.CommitAfterStep | src/builder.py:338-359 | one more message adds its links to the commit's related artifacts, and its id once per link to the related messages |
| Correlation.UnparseableCommitStep | src/builder.py:332-336 | one step of the commit loop over a commit whose timestamp does not parse: the commit is kept as it is and no message changes |
| Correlation.CorrelatedCommitStep | src/builder.py:329-359 | one step of the commit loop over a parsed commit: the commit becomes `CommitAfter` over the messages as tagged so far, and the messages become `TaggedAll` of it, which is the next `MessagesAfter` |
| Correlation.CorrelatedCommitState | src/builder.py:338-359 | writing a parsed commit's result at its index extends the finished commits by one, keeps the later commits, and the tagged messages are the next `MessagesAfter` |
| Correlation.LinksBalance | src/builder.py:356-358 | over the whole run, the related entries added to commits equal those added to messages |
| Versions.AddSnapshotsAppends | src/builder.py:394-398 | processing one commit appends that commit's entries to each name's history |
| Versions.LocalPath | src/builder.py:383-387 | definition: `data/artifacts/<hash>/` followed by the file's base name |
| Versions.AddSnapshots | src/builder.py:373-398 | definition: one commit's retrieved images appended to the histories of their base names |
| Versions.HistoriesAgree | src/builder.py:366-401 | a name is a key of the result exactly when its reference history is non-empty, and maps to that history |
| Versions.EntriesIff | src/builder.py:373-398 | a commit's entry for a name comes from a changed image file with that base name that git returned, and records the hash, timestamp and local path |
| Versions.HistoryIff | src/builder.py:368-398 | a name's history holds exactly the entries of every commit, in commit order |
| Versions.HistoriesIgnoreSnapshots | src/builder.py:361-401 | the histories do not depend on snapshots already on the commits, so extracting twice gives the same map |
| Versions.SnapshotsIff | src/builder.py:373-392 | a commit's snapshots are exactly its changed image files that git returned, with their local paths |
| Search.Tokens | src/builder.py:447 | every token is a non-empty run of word characters |
| Search.TokenAt | src/builder.py:447 | each token occurs in the text as a whole run of word characters: neither the character before it nor the one after it is a word character |
| Search.RunIsToken | src/builder.py:447 | conversely, every whole run of word characters in the text is a token |
| Search.TokensIff | src/builder.py:447 | a string is a token exactly when it occurs in the text as a whole run of word characters |
| Search.TokensKeepWordChars | src/builder.py:447 | the tokens, concatenated, are exactly the word characters of the text |
| Search.TermSets | src/builder.py:447-450 | a word is a term of message `i` exactly when it has at least three characters and is a token of the lower-cased search text of that message |
| Search.TermSetsIff | src/builder.py:447-450 | a word is a term of message `i` exactly when it has at least three characters and occurs as a whole run of word characters in the lower-cased search text |
| Search.AddWords | src/builder.py:447-452 | the word loop with its `seen` set appends the position once to each distinct term |
| Search.IndexMessage | src/builder.py:438-452 | one iteration of the message loop turns the index of the first `i` messages into that of the first `i + 1` |
| Search.IndexIsPostings | src/builder.py:446-454 | a word is a key exactly when it has postings, and maps to the reference postings |
| Search.PostingsIff | src/builder.py:447-451 | a position is in a word's postings exactly when that message has the word as a term |
| Search.PostingsIncreasing | src/builder.py:446-451 | postings are strictly increasing and below the number of messages |
| Search.MessageIndexIff | src/builder.py:446-451 | message `i` is listed under word `w` exactly when `w` is one of its terms |
| Search.DocEntryOf | src/builder.py:438-444 | the entry carries the message's id and role; its page is the one whose index range holds `i`; its preview is the first 50 characters of the text preview, or all of it when shorter |
| Search.Index | src/builder.py:446-452 | definition: the postings built message by message (stated by `IndexIsPostings`) |
| Pages.TotalPagesIsCeiling | src/builder.py:469 | the page count is the ceiling of messages / page size; it is zero exactly for no messages |
| Pages.TotalPages | src/builder.py:469 | definition: `(n + size - 1) // size` (its meaning is stated by `TotalPagesIsCeiling`) |
| Pages.PageAt | src/builder.py:462-475 | definition: the page starting at `p * size`, with the page number, total and index range |
| Pages.Paginated | src/builder.py:462-475 | definition: one page per step of `range(0, n, size)` (stated by `Partition`) |
| Pages.CeilingUnique | src/builder.py:462-469 | the number of iterations of `range(0, n, size)` is the page count |
| Pages.Partition | src/builder.py:457-475 | the pages, read in order, give back every message once; each page holds 1 to `size` messages; page numbers run 1, 2, … |
| Pages.PageOfIndex | src/builder.py:442 | the document map's page `i // size + 1` is the page holding message `i` |
| Pages.CountRole | src/builder.py:486-487 | a role count never exceeds the number of messages |
| Pages.RoleCounts | src/builder.py:485-487 | user plus assistant messages never exceed the total, and equal it exactly when no other role occurs |
| Builder.Builder.constructor | src/builder.py:40-53 | root and merged configuration are kept; the artifact map starts empty |
| Builder.Builder.ExtractArtifactFromTool | src/builder.py:236-269 | returns `ArtifactOf(call)` and stores it under its id |
| Builder.Builder.AddAnswerTexts | src/builder.py:177-183 | the list-content loop adds the answered-question texts and stores no artifact |
| Builder.Builder.ParseItem | src/builder.py:146-191 | one content item is one `Step`; the new artifacts extend the old ones and are stored in turn |
| Builder.Builder.ParseContentItem | src/builder.py:152-183 | a text, thinking or tool-result item is one `Step` and adds no artifact |
| Builder.Builder.ParseToolUseItem | src/builder.py:185-191 | a `tool_use` item records the parsed call; its artifact, if any, is appended and stored |
| Builder.Builder.ParseMessageEntry | src/builder.py:118-197 | the message is `ParseEntry` and its artifacts are stored in turn |
| Builder.Builder.ParseTranscript | src/builder.py:98-116 | the messages are `ParseLines`, and every artifact of every user or assistant record is stored in line order (a record the filter drops has none) |
| Builder.Builder.TouchesAnyFile | src/builder.py:354-359 | the scan finds a match exactly when the relative path is non-empty and occurs in some changed path |
| Builder.Builder.LinkArtifacts | src/builder.py:350-359 | commit and message gain one entry per matching artifact, in artifact order |
| Builder.Builder.MatchMessage | src/builder.py:338-359 | one message-loop iteration gains the commit's links to that message |
| Builder.Builder.MatchCommit | src/builder.py:338-359 | the message loop of one commit: the commit ends as `CommitAfter` over the messages, and every message is tagged with this commit's links |
| Builder.Builder.CorrelateCommit | src/builder.py:331-359 | one iteration of the commit loop: commit `j` becomes the next entry of `CommitsAfter`, the later commits are untouched, and the messages become the next `MessagesAfter` |
| Builder.Builder.CorrelateTimedCommit | src/builder.py:338-359 | the same iteration for a commit whose timestamp parses |
| Builder.Builder.MatchCommitsToMessages | src/builder.py:329-359 | each commit ends as `CommitAfter` over the original messages and each message as `MessageAfter` over the original commits |
| Builder.Builder.SnapshotCommit | src/builder.py:373-398 | one commit's file loop records its snapshots and extends the histories |
| Builder.Builder.ExtractVersionedArtifacts | src/builder.py:361-401 | returns `Histories` of the commits and leaves each commit `Snapshotted` |
| Builder.Builder.BuildSearchIndex | src/builder.py:429-455 | the document count; the terms are `Index` of the messages' term sets; one document entry per message with its page |
| Builder.Builder.PaginateMessages | src/builder.py:457-475 | the pages are exactly `Paginated(messages, size)` |
| Builder.Builder.ManifestCounts | src/builder.py:477-496 | the totals; the user and assistant counts are the numbers of messages with those roles and add up to at most the total; the image, session and artifact counts; the configured page size; the page count is that of the pages and covers every message |
| Builder.ParsedRoleCounts | src/builder.py:109-114 | for parsed transcripts, user and assistant messages add up to the total |

## Left out

- File and process I/O are not modelled: session discovery, `get_images`, `build`, `_copy_templates`, writing the JSON files, creating directories and copying images. Only the counts of images and sessions enter the manifest.
- JSON decoding is not modelled: lines arrive decoded, with `.get(key, default)` defaults filled in.
- MD5, `datetime.fromisoformat`, `git log` and `git show` are not modelled. They are parameters: a digest function, an `iso` parser giving seconds, the log's standard output, and a `retrieve` predicate. The git-log timeout and a missing `git` (which give no commits) are outside `GetGitCommits`.
- The commit time is always naive, because the offset field is dropped before parsing. An assistant message timestamp with a UTC offset and no fractional seconds (such as `2025-01-01T10:00:00+00:00`) parses as an aware time, and subtracting it from the naive commit time raises an uncaught `TypeError` in the source. The model compares the seconds that `iso` returns instead.
- `str.lower`, `\w` and `str.strip` are restricted to ASCII (plus the Latin-1 spaces for `strip`). `Path` handling is string-based: no normalisation of `.` or `..`, and the repository root is taken as already resolved.
- InputTyped: excludes a JSON array as the `command` of Bash, the `pattern` of Grep, or the `old_string`/`new_string` of an Edit with a non-empty `file_path`. The source accepts these: it slices the list and shows or stores the slice. The model has no list values. Over the other non-string values the precondition matches the source, which raises for them: a non-string `file_path` of Read/Write/Edit, and a number, boolean, null or object in the other keys named here. The strings of an Edit whose `file_path` is empty are never read, so they are not constrained.
- Any other non-string tool-input value is kept by sanitisation. The model carries two texts for it: its JSON text, for the written input, and Python's `str` of it (`None`, `True`, `['a']`), which the Glob preview shows.
- Tokens: its own contract states only that each token is a non-empty run of word characters. `TokenAt`, `RunIsToken` and `TokensIff` state that the tokens are exactly the whole runs of word characters.
- The configuration merge in `__init__` happens outside the model: the constructor receives the merged configuration. `time_window_minutes`, `search_enabled`, `exclude_patterns` and `image_folders` are not read by the modelled code.
- The tool-call fields `hasResult` (always false) and `resultPreview` (always null), the artifact `metadata` wrapper, and the constant `version`/`type` fields of the index and pages are implicit in the datatypes.
- Document-map keys are the decimal strings `str(i)` in the source; the model indexes the entries by position.
- Builder.Builder.ManifestCounts: covers `stats` and `pagination` only. The manifest's `project`, `generated` and `sources` are not modelled because they copy caller data and the clock.
- Builder.Builder.BuildSearchIndex: requires a positive page size when there are messages; the source raises `ZeroDivisionError` there. `PaginateMessages` and `ManifestCounts` require a positive page size because the source raises for a page size of 0 on any input.
- Entities.Config: `messagesPerPage` and `toolResultMaxLength` are natural numbers. The source also accepts negative values without raising. A negative page size gives no pages, page numbers of 0 or below in the document map, and a negative page total in the manifest. A negative maximum length makes every string input longer than it, so each is cut by that many characters from its end and given "...". The model does not cover these configurations.
- A transcript line that is valid JSON but not an object, or a record whose `message` is not an object, makes the source raise `AttributeError` when it calls `.get` on it. The model has no form for such a line: lines are decoded records or `None`.
- A `versionedArtifacts` list that is empty stands for the key being absent; the source creates it on the first snapshot.
