/**
 * The parser for the output of
 * `git log --format=%H|%ci|%s|%an --name-status --reverse`:
 * a line-by-line state machine with a "current commit" accumulator.
 */
module GitLog {
  import opened Wrappers
  import opened Text
  import opened Entities

  /** A line with at least three `|` starts a new commit. */
  predicate IsHeader(line: string) {
    Count(line, '|') >= 3
  }

  /** The commit a header line starts: the line is split at its first three `|`. */
  function HeaderCommit(line: string): Commit
    requires IsHeader(line)
  {
    var parts := SplitN(line, '|', 3);
    Commit(
      Take(parts[0], 7), parts[0], Strip(parts[1]), Strip(parts[2]),
      if |parts| > 3 then Strip(parts[3]) else "",
      [], [], [], [])
  }

  /** A name-status line `<status>\t<path>[\t...]`; `None` when it has no tab. */
  function FileLine(line: string): (f: Option<FileChange>)
    ensures f.Some? <==> '\t' in line
    ensures f.Some? ==> f.value.status == line[..IndexOf(line, '\t')] && '\t' !in f.value.path
    ensures f.Some? ==> f.value.path == Before(line[IndexOf(line, '\t') + 1..], '\t')
  {
    var parts := Split(line, '\t');
    SplitFirst(line, '\t');
    if |parts| >= 2 then
      SplitFirst(line[IndexOf(line, '\t') + 1..], '\t');
      Some(FileChange(parts[0], parts[1]))
    else None
  }

  /** The commits already closed and the commit being filled, if any. */
  datatype LogState = LogState(done: seq<Commit>, current: Option<Commit>)

  function Closed(st: LogState): seq<Commit> {
    st.done + (if st.current.Some? then [st.current.value] else [])
  }

  /** One iteration of the line loop. */
  function LogStep(st: LogState, line: string): LogState {
    if IsHeader(line) then LogState(Closed(st), Some(HeaderCommit(line)))
    else if st.current.Some? && Strip(line) != "" then
      match FileLine(line)
      case Some(f) =>
        var c := st.current.value;
        st.(current := Some(c.(filesChanged := c.filesChanged + [f])))
      case None => st
    else st
  }

  /** The state after the first `|lines|` lines. */
  function Run(lines: seq<string>): LogState
    decreases |lines|
  {
    if |lines| == 0 then LogState([], None)
    else LogStep(Run(lines[..|lines| - 1]), lines[|lines| - 1])
  }

  /** The commits of a list of lines, the last one flushed. */
  function Commits(lines: seq<string>): seq<Commit> {
    Closed(Run(lines))
  }

  /** The commits of the query's standard output. */
  function ParseLog(stdout: string): seq<Commit> {
    Commits(Split(stdout, '\n'))
  }

  /** The part of `get_git_commits` after the `git log` call: its standard output, split into lines, is parsed. */
  method GetGitCommits(stdout: string) returns (commits: seq<Commit>)
    ensures commits == ParseLog(stdout)
  {
    commits := ParseLines(Split(stdout, '\n'));
  }

  /** The line loop. */
  method ParseLines(lines: seq<string>) returns (commits: seq<Commit>)
    ensures commits == Commits(lines)
  {
    commits := [];
    var current: Option<Commit> := None;
    var i := 0;
    while i < |lines|
      invariant 0 <= i <= |lines|
      invariant Run(lines[..i]) == LogState(commits, current)
    {
      commits, current := Feed(commits, current, lines[i]);
      RunStep(lines, i);
      i := i + 1;
    }
    RunAll(lines);
    if current.Some? {
      commits := commits + [current.value];
    }
  }

  /** The body of the line loop: a header closes the current commit and opens a new one; a tab-separated line adds a file change. */
  method Feed(commits: seq<Commit>, current: Option<Commit>, line: string)
    returns (commits': seq<Commit>, current': Option<Commit>)
    ensures LogState(commits', current') == LogStep(LogState(commits, current), line)
  {
    commits', current' := commits, current;
    if IsHeader(line) {
      if current.Some? {
        commits' := commits + [current.value];
      }
      current' := Some(HeaderCommit(line));
      HeaderStep(commits, current, line);
    } else if current.Some? && Strip(line) != "" {
      var f := FileLine(line);
      if f.Some? {
        var c := current.value;
        current' := Some(c.(filesChanged := c.filesChanged + [f.value]));
      }
    }
  }

  lemma HeaderStep(commits: seq<Commit>, current: Option<Commit>, line: string)
    requires IsHeader(line)
    ensures LogStep(LogState(commits, current), line) ==
              LogState(commits + (if current.Some? then [current.value] else []), Some(HeaderCommit(line)))
  {
  }

  lemma RunStep(lines: seq<string>, i: nat)
    requires i < |lines|
    ensures Run(lines[..i + 1]) == LogStep(Run(lines[..i]), lines[i])
  {
    assert lines[..i + 1][..i] == lines[..i];
  }

  lemma RunAll(lines: seq<string>)
    ensures Run(lines[..|lines|]) == Run(lines)
  {
    assert lines[..|lines|] == lines;
  }

  // ---------------------------------------------------------------------------
  // Properties

  /**
   * A header line splits into exactly four fields; the first three hold no
   * `|`, so any further `|` stays in the author field; the short hash is the
   * first seven characters of the full hash.
   */
  lemma HeaderFields(line: string)
    requires IsHeader(line)
    ensures |SplitN(line, '|', 3)| == 4
    ensures forall k :: 0 <= k < 3 ==> '|' !in SplitN(line, '|', 3)[k]
    ensures Join(SplitN(line, '|', 3), "|") == line
    ensures var parts := SplitN(line, '|', 3);
            var c := HeaderCommit(line);
            && c.fullHash == parts[0] && c.hash == Take(parts[0], 7)
            && c.timestamp == Strip(parts[1]) && c.message == Strip(parts[2]) && c.author == Strip(parts[3])
            && c.filesChanged == [] && c.relatedMessages == [] && c.relatedArtifacts == []
  {
  }

  /** A header line closes the commit being filled (if any) and opens a new one, which the flush keeps. */
  lemma CommitsAppendHeader(lines: seq<string>, line: string)
    requires IsHeader(line)
    ensures Commits(lines + [line]) == Commits(lines) + [HeaderCommit(line)]
  {
    assert (lines + [line])[..|lines|] == lines;
  }

  /** A tab-separated line after a header adds `{status, path}` to the most recent commit and changes nothing else. */
  lemma CommitsAppendFileLine(lines: seq<string>, line: string)
    requires !IsHeader(line) && Strip(line) != "" && |Split(line, '\t')| >= 2
    requires Commits(lines) != []
    ensures var before := Commits(lines);
            var parts := Split(line, '\t');
            var last := before[|before| - 1];
            Commits(lines + [line]) ==
              before[..|before| - 1] + [last.(filesChanged := last.filesChanged + [FileChange(parts[0], parts[1])])]
  {
    assert (lines + [line])[..|lines|] == lines;
    HeadersOpenCommit(lines);
  }

  /** Any other line leaves the commits as they were: blank lines, lines without a tab, and every line before the first header. */
  lemma CommitsAppendOther(lines: seq<string>, line: string)
    requires !IsHeader(line)
    requires Commits(lines) == [] || Strip(line) == "" || |Split(line, '\t')| < 2
    ensures Commits(lines + [line]) == Commits(lines)
  {
    assert (lines + [line])[..|lines|] == lines;
    HeadersOpenCommit(lines);
  }

  /** Once some commit exists, one is being filled. */
  lemma {:induction false} HeadersOpenCommit(lines: seq<string>)
    ensures Run(lines).current.None? ==> Run(lines).done == []
    decreases |lines|
  {
    if |lines| > 0 {
      HeadersOpenCommit(lines[..|lines| - 1]);
    }
  }

  /** The header lines among `lines`, in order. */
  function Headers(lines: seq<string>): (hs: seq<string>)
    ensures forall k :: 0 <= k < |hs| ==> IsHeader(hs[k])
    decreases |lines|
  {
    if |lines| == 0 then []
    else Headers(lines[..|lines| - 1]) + (if IsHeader(lines[|lines| - 1]) then [lines[|lines| - 1]] else [])
  }

  /** `c` is the commit `o` with whatever file changes followed it. */
  predicate Extends(c: Commit, o: Commit) {
    c == o.(filesChanged := c.filesChanged)
  }

  /** `c` is the commit the header `h` opened, with whatever file changes followed it. */
  predicate FromHeader(c: Commit, h: string)
    requires IsHeader(h)
  {
    Extends(c, HeaderCommit(h))
  }

  /** `f` applied to each element of `xs`, in order. */
  function Map<A, B>(f: A --> B, xs: seq<A>): (ys: seq<B>)
    requires forall k :: 0 <= k < |xs| ==> f.requires(xs[k])
    ensures |ys| == |xs|
    decreases |xs|
  {
    if |xs| == 0 then [] else Map(f, xs[..|xs| - 1]) + [f(xs[|xs| - 1])]
  }

  lemma {:induction false} MapAt<A, B>(f: A --> B, xs: seq<A>, i: nat)
    requires forall k :: 0 <= k < |xs| ==> f.requires(xs[k])
    requires i < |xs|
    ensures Map(f, xs)[i] == f(xs[i])
    decreases |xs|
  {
    var n := |xs| - 1;
    if i < n {
      assert xs[..n][i] == xs[i];
      MapAt(f, xs[..n], i);
    }
  }

  lemma MapAppend<A, B>(f: A --> B, xs: seq<A>, x: A)
    requires forall k :: 0 <= k < |xs| ==> f.requires(xs[k])
    requires f.requires(x)
    ensures Map(f, xs + [x]) == Map(f, xs) + [f(x)]
  {
    assert (xs + [x])[..|xs|] == xs;
  }

  /** The commits the header lines `hs` open, in order, before any file change. */
  function Opened(hs: seq<string>): (os: seq<Commit>)
    requires forall k :: 0 <= k < |hs| ==> IsHeader(hs[k])
    ensures |os| == |hs|
  {
    Map(HeaderCommit, hs)
  }

  /** There is one commit per header line, and the `i`-th commit is the one the `i`-th header opened. */
  lemma OneCommitPerHeader(lines: seq<string>)
    ensures |Commits(lines)| == |Headers(lines)|
    ensures forall i :: 0 <= i < |Commits(lines)| ==> FromHeader(Commits(lines)[i], Headers(lines)[i])
  {
    AlignedAll(lines);
    forall i | 0 <= i < |Commits(lines)|
      ensures FromHeader(Commits(lines)[i], Headers(lines)[i])
    {
      AlignedAt(lines, i);
    }
  }

  lemma AlignedAt(lines: seq<string>, i: nat)
    requires Aligned(lines) && i < |Commits(lines)|
    ensures FromHeader(Commits(lines)[i], Headers(lines)[i])
  {
    var cs, hs := Commits(lines), Headers(lines);
    MapAt(HeaderCommit, hs, i);
    assert Extends(cs[i], Opened(hs)[i]);
  }

  ghost predicate Aligned(lines: seq<string>) {
    var cs, os := Commits(lines), Opened(Headers(lines));
    && |cs| == |os|
    && forall i :: 0 <= i < |cs| ==> Extends(cs[i], os[i])
  }

  lemma {:induction false} AlignedAll(lines: seq<string>)
    ensures Aligned(lines)
    decreases |lines|
  {
    if |lines| > 0 {
      var n := |lines| - 1;
      assert lines == lines[..n] + [lines[n]];
      AlignedAll(lines[..n]);
      AlignedStep(lines[..n], lines[n]);
    }
  }

  lemma AlignedStep(lines: seq<string>, line: string)
    requires Aligned(lines)
    ensures Aligned(lines + [line])
  {
    if IsHeader(line) {
      AlignedHeader(lines, line);
    } else if Commits(lines) != [] && Strip(line) != "" && |Split(line, '\t')| >= 2 {
      AlignedFileLine(lines, line);
    } else {
      AlignedOther(lines, line);
    }
  }

  lemma HeadersAppend(lines: seq<string>, line: string)
    ensures Headers(lines + [line]) == Headers(lines) + (if IsHeader(line) then [line] else [])
  {
    assert (lines + [line])[..|lines|] == lines;
  }

  /** Appending a commit to a sequence, and the commit it extends to the opened ones, keeps them aligned. */
  lemma ExtendsAppend(cs: seq<Commit>, os: seq<Commit>, c: Commit, o: Commit)
    requires |cs| == |os| && forall i :: 0 <= i < |cs| ==> Extends(cs[i], os[i])
    requires Extends(c, o)
    ensures forall i :: 0 <= i < |cs| + 1 ==> Extends((cs + [c])[i], (os + [o])[i])
  {
  }

  /** Replacing the last commit by one extending the same opened commit keeps them aligned. */
  lemma ExtendsLast(cs: seq<Commit>, os: seq<Commit>, c: Commit)
    requires |cs| == |os| > 0 && forall i :: 0 <= i < |cs| ==> Extends(cs[i], os[i])
    requires Extends(c, os[|os| - 1])
    ensures forall i :: 0 <= i < |cs| ==> Extends((cs[..|cs| - 1] + [c])[i], os[i])
  {
  }

  lemma AlignedHeader(lines: seq<string>, line: string)
    requires Aligned(lines) && IsHeader(line)
    ensures Aligned(lines + [line])
  {
    CommitsAppendHeader(lines, line);
    HeadersAppend(lines, line);
    var hs := Headers(lines);
    MapAppend(HeaderCommit, hs, line);
    var c := HeaderCommit(line);
    ExtendsAppend(Commits(lines), Opened(hs), c, c);
  }

  lemma AlignedFileLine(lines: seq<string>, line: string)
    requires Aligned(lines) && !IsHeader(line) && Strip(line) != "" && |Split(line, '\t')| >= 2
    requires Commits(lines) != []
    ensures Aligned(lines + [line])
  {
    CommitsAppendFileLine(lines, line);
    HeadersAppend(lines, line);
    var cs, os := Commits(lines), Opened(Headers(lines));
    var last := cs[|cs| - 1];
    var parts := Split(line, '\t');
    ExtendsLast(cs, os, last.(filesChanged := last.filesChanged + [FileChange(parts[0], parts[1])]));
    assert Headers(lines + [line]) == Headers(lines);
  }

  lemma AlignedOther(lines: seq<string>, line: string)
    requires Aligned(lines) && !IsHeader(line)
    requires Commits(lines) == [] || Strip(line) == "" || |Split(line, '\t')| < 2
    ensures Aligned(lines + [line])
  {
    CommitsAppendOther(lines, line);
    HeadersAppend(lines, line);
    assert Headers(lines + [line]) == Headers(lines);
  }
}
