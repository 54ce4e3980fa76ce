/**
 * The specification of image snapshots at each commit.
 *
 * For every changed file whose path ends in ".png" or ".jpg", the builder
 * asks git for the file's content at that commit; `retrieve(fullHash, path)`
 * stands for `git show <fullHash>:<path>` exiting with status 0 (a timeout or
 * any other failure counts as false). Each retrieved snapshot is recorded on
 * its commit and, under the image's file name, in the image history.
 */
module Versions {
  import opened Text
  import opened Entities
  import opened Tools

  /** One snapshot of an image in the history keyed by file name. */
  datatype ImageVersion = ImageVersion(commitHash: string, timestamp: string, localPath: string)

  predicate IsImage(path: string) {
    EndsWith(path, ".png") || EndsWith(path, ".jpg")
  }

  /** Where the snapshot is written, relative to the output directory: inside the commit's directory, under the file's base name. */
  function LocalPath(hash: string, path: string): string {
    "data/artifacts/" + hash + "/" + Basename(path)
  }

  /** The changed file is an image and git returned its content at the commit. */
  predicate Retrieved(retrieve: (string, string) -> bool, c: Commit, f: FileChange) {
    IsImage(f.path) && retrieve(c.fullHash, f.path)
  }

  /** The elements of `files` that `keep` selects, each turned into `make` of it, in order. */
  function Collect<T>(files: seq<FileChange>, keep: FileChange -> bool, make: FileChange -> T): seq<T>
    decreases |files|
  {
    if |files| == 0 then []
    else
      var n := |files| - 1;
      Collect(files[..n], keep, make) + (if keep(files[n]) then [make(files[n])] else [])
  }

  /** An element is collected exactly when some selected file makes it. */
  lemma {:induction false} CollectIff<T>(files: seq<FileChange>, keep: FileChange -> bool, make: FileChange -> T, x: T)
    ensures x in Collect(files, keep, make) <==> exists i :: 0 <= i < |files| && keep(files[i]) && x == make(files[i])
    decreases |files|
  {
    if |files| > 0 {
      var n := |files| - 1;
      CollectIff(files[..n], keep, make, x);
      assert forall i :: 0 <= i < n ==> files[..n][i] == files[i];
    }
  }

  /** The snapshot of a changed image file at commit `c`. */
  function SnapshotOf(c: Commit): FileChange -> VersionedArtifact {
    (f: FileChange) => VersionedArtifact(f.path, LocalPath(c.hash, f.path))
  }

  function IsRetrieved(retrieve: (string, string) -> bool, c: Commit): FileChange -> bool {
    (f: FileChange) => Retrieved(retrieve, c, f)
  }

  /** The snapshots recorded on a commit for its changed files `files`. */
  function Snapshots(retrieve: (string, string) -> bool, c: Commit, files: seq<FileChange>): seq<VersionedArtifact> {
    Collect(files, IsRetrieved(retrieve, c), SnapshotOf(c))
  }

  /** The history of one image name, or the empty list. */
  function Get(versions: map<string, seq<ImageVersion>>, name: string): seq<ImageVersion> {
    if name in versions then versions[name] else []
  }

  /** The image histories after the first `|files|` changed files of one commit. */
  function AddSnapshots(retrieve: (string, string) -> bool, versions: map<string, seq<ImageVersion>>, c: Commit,
                  files: seq<FileChange>): map<string, seq<ImageVersion>>
    decreases |files|
  {
    if |files| == 0 then versions
    else
      var n := |files| - 1;
      var m := AddSnapshots(retrieve, versions, c, files[..n]);
      if Retrieved(retrieve, c, files[n]) then
        var name := Basename(files[n].path);
        m[name := Get(m, name) + [ImageVersion(c.hash, c.timestamp, LocalPath(c.hash, files[n].path))]]
      else m
  }

  /** The image histories after a list of commits, as the extractor builds them. */
  function Histories(retrieve: (string, string) -> bool, cs: seq<Commit>): map<string, seq<ImageVersion>>
    decreases |cs|
  {
    if |cs| == 0 then map[]
    else
      var n := |cs| - 1;
      AddSnapshots(retrieve, Histories(retrieve, cs[..n]), cs[n], cs[n].filesChanged)
  }

  /** A commit after extraction: only its snapshot list grows. */
  function Snapshotted(retrieve: (string, string) -> bool, c: Commit): Commit {
    c.(versionedArtifacts := c.versionedArtifacts + Snapshots(retrieve, c, c.filesChanged))
  }

  /** One more changed file: the snapshots and the histories grow by that file's snapshot, if git returned it. */
  lemma SnapshotStep(retrieve: (string, string) -> bool, versions: map<string, seq<ImageVersion>>, c: Commit,
                     files: seq<FileChange>, i: nat)
    requires i < |files|
    ensures Snapshots(retrieve, c, files[..i + 1]) ==
              Snapshots(retrieve, c, files[..i]) +
              (if Retrieved(retrieve, c, files[i]) then [VersionedArtifact(files[i].path, LocalPath(c.hash, files[i].path))] else [])
    ensures var m := AddSnapshots(retrieve, versions, c, files[..i]);
            var name := Basename(files[i].path);
            AddSnapshots(retrieve, versions, c, files[..i + 1]) ==
              if Retrieved(retrieve, c, files[i])
              then m[name := Get(m, name) + [ImageVersion(c.hash, c.timestamp, LocalPath(c.hash, files[i].path))]]
              else m
  {
    assert files[..i + 1][..i] == files[..i];
  }

  // ---------------------------------------------------------------------------
  // A reference definition: the history of one name, commit by commit

  /** The snapshots of one commit that belong to the image `name`, in file order. */
  function Entries(retrieve: (string, string) -> bool, c: Commit, files: seq<FileChange>, name: string): seq<ImageVersion> {
    Collect(files, IsNamed(retrieve, c, name), EntryOf(c))
  }

  /** The history entry of a changed image file at commit `c`. */
  function EntryOf(c: Commit): FileChange -> ImageVersion {
    (f: FileChange) => ImageVersion(c.hash, c.timestamp, LocalPath(c.hash, f.path))
  }

  function IsNamed(retrieve: (string, string) -> bool, c: Commit, name: string): FileChange -> bool {
    (f: FileChange) => Retrieved(retrieve, c, f) && Basename(f.path) == name
  }

  /** The history of the image `name` across commits, in commit order. */
  function History(retrieve: (string, string) -> bool, cs: seq<Commit>, name: string): seq<ImageVersion>
    decreases |cs|
  {
    if |cs| == 0 then []
    else
      var n := |cs| - 1;
      History(retrieve, cs[..n], name) + Entries(retrieve, cs[n], cs[n].filesChanged, name)
  }

  // ---------------------------------------------------------------------------
  // Properties

  /** Recording one commit appends that commit's entries to each name's history. */
  lemma {:induction false} AddSnapshotsAppends(retrieve: (string, string) -> bool, versions: map<string, seq<ImageVersion>>,
                                         c: Commit, files: seq<FileChange>, name: string)
    ensures Get(AddSnapshots(retrieve, versions, c, files), name) == Get(versions, name) + Entries(retrieve, c, files, name)
    ensures name in AddSnapshots(retrieve, versions, c, files) <==> name in versions || Entries(retrieve, c, files, name) != []
    decreases |files|
  {
    if |files| > 0 {
      AddSnapshotsAppends(retrieve, versions, c, files[..|files| - 1], name);
    }
  }

  /**
   * The extractor's map agrees with the reference history: a name is a key
   * exactly when its history is not empty, and its value is that history.
   */
  lemma {:induction false} HistoriesAgree(retrieve: (string, string) -> bool, cs: seq<Commit>, name: string)
    ensures name in Histories(retrieve, cs) <==> History(retrieve, cs, name) != []
    ensures name in Histories(retrieve, cs) ==> Histories(retrieve, cs)[name] == History(retrieve, cs, name)
    decreases |cs|
  {
    if |cs| > 0 {
      var n := |cs| - 1;
      HistoriesAgree(retrieve, cs[..n], name);
      AddSnapshotsAppends(retrieve, Histories(retrieve, cs[..n]), cs[n], cs[n].filesChanged, name);
    }
  }

  /** An entry belongs to a changed image file that git returned, and names that file's commit and local copy. */
  lemma EntriesIff(retrieve: (string, string) -> bool, c: Commit, files: seq<FileChange>, name: string, e: ImageVersion)
    ensures e in Entries(retrieve, c, files, name) <==>
              exists i :: 0 <= i < |files| && Retrieved(retrieve, c, files[i]) && Basename(files[i].path) == name
                       && e == ImageVersion(c.hash, c.timestamp, LocalPath(c.hash, files[i].path))
  {
    CollectIff(files, IsNamed(retrieve, c, name), EntryOf(c), e);
  }

  /**
   * An entry is in the history of a name exactly when it is one of the
   * entries of some commit (which `EntriesIff` characterises file by file).
   */
  lemma {:induction false} HistoryIff(retrieve: (string, string) -> bool, cs: seq<Commit>, name: string, e: ImageVersion)
    ensures e in History(retrieve, cs, name) <==>
              exists j :: 0 <= j < |cs| && e in Entries(retrieve, cs[j], cs[j].filesChanged, name)
    decreases |cs|
  {
    if |cs| > 0 {
      var n := |cs| - 1;
      HistoryIff(retrieve, cs[..n], name, e);
      assert History(retrieve, cs, name) ==
             History(retrieve, cs[..n], name) + Entries(retrieve, cs[n], cs[n].filesChanged, name);
      assert forall j :: 0 <= j < n ==> cs[..n][j] == cs[j];
    }
  }

  /**
   * The histories read only hashes, timestamps and changed files: they do not
   * depend on snapshots the commits already carry, so a second extraction over
   * the same commits yields the same map.
   */
  lemma {:induction false} HistoriesIgnoreSnapshots(retrieve: (string, string) -> bool, cs: seq<Commit>, cs': seq<Commit>)
    requires |cs| == |cs'|
    requires forall j :: 0 <= j < |cs| ==> cs'[j] == cs[j].(versionedArtifacts := cs'[j].versionedArtifacts)
    ensures Histories(retrieve, cs) == Histories(retrieve, cs')
    decreases |cs|
  {
    if |cs| > 0 {
      var n := |cs| - 1;
      HistoriesIgnoreSnapshots(retrieve, cs[..n], cs'[..n]);
      AddSnapshotsIgnoresSnapshots(retrieve, Histories(retrieve, cs[..n]), cs[n], cs'[n], cs[n].filesChanged);
    }
  }

  lemma {:induction false} AddSnapshotsIgnoresSnapshots(retrieve: (string, string) -> bool, versions: map<string, seq<ImageVersion>>,
                                                  c: Commit, c': Commit, files: seq<FileChange>)
    requires c' == c.(versionedArtifacts := c'.versionedArtifacts)
    ensures AddSnapshots(retrieve, versions, c, files) == AddSnapshots(retrieve, versions, c', files)
    decreases |files|
  {
    if |files| > 0 {
      AddSnapshotsIgnoresSnapshots(retrieve, versions, c, c', files[..|files| - 1]);
    }
  }

  /** Every snapshot recorded on a commit is one of its changed image files that git returned, and each such file has one. */
  lemma SnapshotsIff(retrieve: (string, string) -> bool, c: Commit, files: seq<FileChange>, v: VersionedArtifact)
    ensures v in Snapshots(retrieve, c, files) <==>
              exists i :: 0 <= i < |files| && Retrieved(retrieve, c, files[i]) && v == VersionedArtifact(files[i].path, LocalPath(c.hash, files[i].path))
  {
    CollectIff(files, IsRetrieved(retrieve, c), SnapshotOf(c), v);
  }
}
