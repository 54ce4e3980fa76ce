/**
 * The specification of the commit-to-message correlator.
 *
 * A commit and an assistant message are in the same window when the commit's
 * time minus the message's time lies between zero and one hour. Within a
 * window, each artifact of the message whose relative path occurs inside the
 * path of some file the commit changed makes one link: the commit gains the
 * message's id and the artifact's id, the message gains the commit's short
 * hash. Timestamps are read with a supplied parser `iso` standing in for
 * `datetime.fromisoformat`; it yields seconds, or `None` where Python raises.
 *
 * The decision to link reads only fields the correlator never writes, so the
 * lists it appends to have closed forms, one per commit and one per message.
 */
module Correlation {
  import opened Wrappers
  import opened Text
  import opened Entities

  /** The largest commit-minus-message delay that still links, in seconds. */
  const WINDOW_SECONDS: int := 3600

  /** The commit's date and time (the first two space-separated fields), joined by "T". */
  function CommitTime(iso: string -> Option<int>, timestamp: string): Option<int> {
    var fields := Split(timestamp, ' ');
    iso(Join(fields[..if |fields| < 2 then |fields| else 2], "T"))
  }

  /** The message's timestamp without any "Z" and without its fractional seconds. */
  function MessageTime(iso: string -> Option<int>, timestamp: string): Option<int> {
    iso(Split(Remove(timestamp, 'Z'), '.')[0])
  }

  /** The commit and the message are in the same window. */
  predicate InWindow(iso: string -> Option<int>, c: Commit, m: Message) {
    && m.role == "assistant"
    && CommitTime(iso, c.timestamp).Some?
    && MessageTime(iso, m.timestamp).Some?
    && 0 <= CommitTime(iso, c.timestamp).value - MessageTime(iso, m.timestamp).value <= WINDOW_SECONDS
  }

  /** The stored artifact's relative path; "" for an id with no stored artifact. */
  function RelPath(arts: map<string, Artifact>, aid: string): string {
    if aid in arts then arts[aid].relativePath else ""
  }

  /** A non-empty relative path occurs inside the path of one of the changed files. */
  predicate Touches(rel: string, files: seq<FileChange>) {
    rel != "" && exists i :: 0 <= i < |files| && Contains(files[i].path, rel)
  }

  /** The artifact ids among `ids` whose relative path touches one of `files`, in order, repeats kept. */
  function Matching(arts: map<string, Artifact>, files: seq<FileChange>, ids: seq<string>): seq<string>
    decreases |ids|
  {
    if |ids| == 0 then []
    else
      var n := |ids| - 1;
      Matching(arts, files, ids[..n]) + (if Touches(RelPath(arts, ids[n]), files) then [ids[n]] else [])
  }

  /** The artifact ids of the links between one commit and one message. */
  function Links(arts: map<string, Artifact>, iso: string -> Option<int>, c: Commit, m: Message): seq<string> {
    if InWindow(iso, c, m) then Matching(arts, c.filesChanged, m.artifacts) else []
  }

  /** One link between a commit and a message, through the artifact `aid`. */
  predicate Linked(arts: map<string, Artifact>, iso: string -> Option<int>, c: Commit, m: Message, aid: string) {
    InWindow(iso, c, m) && aid in m.artifacts && Touches(RelPath(arts, aid), c.filesChanged)
  }

  function Repeat(x: string, n: nat): (r: seq<string>)
    ensures |r| == n && forall i :: 0 <= i < n ==> r[i] == x
  {
    seq(n, _ => x)
  }

  /** The message ids one commit gains from a list of messages, one per link. */
  function LinkedMessageIds(arts: map<string, Artifact>, iso: string -> Option<int>, c: Commit, ms: seq<Message>): seq<string>
    decreases |ms|
  {
    if |ms| == 0 then []
    else
      var n := |ms| - 1;
      LinkedMessageIds(arts, iso, c, ms[..n]) + Repeat(ms[n].id, |Links(arts, iso, c, ms[n])|)
  }

  /** The artifact ids one commit gains from a list of messages, one per link. */
  function LinkedArtifactIds(arts: map<string, Artifact>, iso: string -> Option<int>, c: Commit, ms: seq<Message>): seq<string>
    decreases |ms|
  {
    if |ms| == 0 then []
    else
      var n := |ms| - 1;
      LinkedArtifactIds(arts, iso, c, ms[..n]) + Links(arts, iso, c, ms[n])
  }

  /** The short hashes one message gains from a list of commits, one per link. */
  function LinkedHashes(arts: map<string, Artifact>, iso: string -> Option<int>, cs: seq<Commit>, m: Message): seq<string>
    decreases |cs|
  {
    if |cs| == 0 then []
    else
      var n := |cs| - 1;
      LinkedHashes(arts, iso, cs[..n], m) + Repeat(cs[n].hash, |Links(arts, iso, cs[n], m)|)
  }

  /** A commit after correlation: only its related messages and related artifacts grow. */
  function CommitAfter(arts: map<string, Artifact>, iso: string -> Option<int>, c: Commit, ms: seq<Message>): Commit {
    c.(relatedMessages := c.relatedMessages + LinkedMessageIds(arts, iso, c, ms),
       relatedArtifacts := c.relatedArtifacts + LinkedArtifactIds(arts, iso, c, ms))
  }

  /** A message after correlation: only its related commits grow. */
  function MessageAfter(arts: map<string, Artifact>, iso: string -> Option<int>, cs: seq<Commit>, m: Message): Message {
    m.(relatedCommits := m.relatedCommits + LinkedHashes(arts, iso, cs, m))
  }

  /** A message after the links with one commit. */
  function Tagged(arts: map<string, Artifact>, iso: string -> Option<int>, c: Commit, m: Message): Message {
    m.(relatedCommits := m.relatedCommits + Repeat(c.hash, |Links(arts, iso, c, m)|))
  }

  /** A commit after the links with one message. */
  function Gained(arts: map<string, Artifact>, iso: string -> Option<int>, c: Commit, m: Message): Commit {
    c.(relatedMessages := c.relatedMessages + Repeat(m.id, |Links(arts, iso, c, m)|),
       relatedArtifacts := c.relatedArtifacts + Links(arts, iso, c, m))
  }

  /** Every message of `ms` after the links with one commit. */
  function TaggedAll(arts: map<string, Artifact>, iso: string -> Option<int>, c: Commit, ms: seq<Message>): (r: seq<Message>)
    ensures |r| == |ms|
    decreases |ms|
  {
    if |ms| == 0 then [] else TaggedAll(arts, iso, c, ms[..|ms| - 1]) + [Tagged(arts, iso, c, ms[|ms| - 1])]
  }

  lemma {:induction false} TaggedAllAt(arts: map<string, Artifact>, iso: string -> Option<int>, c: Commit, ms: seq<Message>, k: nat)
    requires k < |ms|
    ensures TaggedAll(arts, iso, c, ms)[k] == Tagged(arts, iso, c, ms[k])
    decreases |ms|
  {
    if k < |ms| - 1 {
      TaggedAllAt(arts, iso, c, ms[..|ms| - 1], k);
    }
  }

  /** Every commit of `cs` after correlation with the messages `ms`. */
  function CommitsAfter(arts: map<string, Artifact>, iso: string -> Option<int>, cs: seq<Commit>, ms: seq<Message>): (r: seq<Commit>)
    ensures |r| == |cs|
    decreases |cs|
  {
    if |cs| == 0 then [] else CommitsAfter(arts, iso, cs[..|cs| - 1], ms) + [CommitAfter(arts, iso, cs[|cs| - 1], ms)]
  }

  /** Every message of `ms` after correlation with the commits `cs`. */
  function MessagesAfter(arts: map<string, Artifact>, iso: string -> Option<int>, cs: seq<Commit>, ms: seq<Message>): (r: seq<Message>)
    ensures |r| == |ms|
    decreases |ms|
  {
    if |ms| == 0 then [] else MessagesAfter(arts, iso, cs, ms[..|ms| - 1]) + [MessageAfter(arts, iso, cs, ms[|ms| - 1])]
  }

  lemma {:induction false} CommitsAfterAt(arts: map<string, Artifact>, iso: string -> Option<int>, cs: seq<Commit>, ms: seq<Message>, j: nat)
    requires j < |cs|
    ensures CommitsAfter(arts, iso, cs, ms)[j] == CommitAfter(arts, iso, cs[j], ms)
    decreases |cs|
  {
    if j < |cs| - 1 {
      CommitsAfterAt(arts, iso, cs[..|cs| - 1], ms, j);
    }
  }

  lemma {:induction false} MessagesAfterAt(arts: map<string, Artifact>, iso: string -> Option<int>, cs: seq<Commit>, ms: seq<Message>, k: nat)
    requires k < |ms|
    ensures MessagesAfter(arts, iso, cs, ms)[k] == MessageAfter(arts, iso, cs, ms[k])
    decreases |ms|
  {
    if k < |ms| - 1 {
      MessagesAfterAt(arts, iso, cs, ms[..|ms| - 1], k);
    }
  }

  // ---------------------------------------------------------------------------
  // Properties

  /** An id is kept by the filter exactly when it is one of `ids` and its relative path touches a changed file. */
  lemma {:induction false} MatchingIff(arts: map<string, Artifact>, files: seq<FileChange>, ids: seq<string>, aid: string)
    ensures aid in Matching(arts, files, ids) <==> aid in ids && Touches(RelPath(arts, aid), files)
    ensures |Matching(arts, files, ids)| <= |ids|
    decreases |ids|
  {
    if |ids| > 0 {
      var n := |ids| - 1;
      MatchingIff(arts, files, ids[..n], aid);
      assert ids == ids[..n] + [ids[n]];
    }
  }

  /** A link exists exactly when the pair is in the window and the artifact touches a changed file. */
  lemma LinksIff(arts: map<string, Artifact>, iso: string -> Option<int>, c: Commit, m: Message, aid: string)
    ensures aid in Links(arts, iso, c, m) <==> Linked(arts, iso, c, m, aid)
    ensures |Links(arts, iso, c, m)| > 0 ==> InWindow(iso, c, m)
  {
    MatchingIff(arts, c.filesChanged, m.artifacts, aid);
  }

  /**
   * The commit's two lists grow in lockstep: the p-th message id and the
   * p-th artifact id are the two ends of one link, with an assistant message
   * written at most an hour before the commit.
   */
  lemma CommitLinksPaired(arts: map<string, Artifact>, iso: string -> Option<int>, c: Commit, ms: seq<Message>)
    ensures |LinkedMessageIds(arts, iso, c, ms)| == |LinkedArtifactIds(arts, iso, c, ms)|
    ensures forall p :: 0 <= p < |LinkedArtifactIds(arts, iso, c, ms)| ==>
              exists k :: 0 <= k < |ms| && LinkedMessageIds(arts, iso, c, ms)[p] == ms[k].id
                       && Linked(arts, iso, c, ms[k], LinkedArtifactIds(arts, iso, c, ms)[p])
  {
    LinkedLengths(arts, iso, c, ms);
    forall p | 0 <= p < |LinkedArtifactIds(arts, iso, c, ms)|
      ensures exists k :: 0 <= k < |ms| && LinkedMessageIds(arts, iso, c, ms)[p] == ms[k].id
                       && Linked(arts, iso, c, ms[k], LinkedArtifactIds(arts, iso, c, ms)[p])
    {
      var k := LinkPairedAt(arts, iso, c, ms, p);
    }
  }

  lemma {:induction false} LinkedLengths(arts: map<string, Artifact>, iso: string -> Option<int>, c: Commit, ms: seq<Message>)
    ensures |LinkedMessageIds(arts, iso, c, ms)| == |LinkedArtifactIds(arts, iso, c, ms)|
    decreases |ms|
  {
    if |ms| > 0 {
      LinkedLengths(arts, iso, c, ms[..|ms| - 1]);
    }
  }

  /** The `p`-th pair of a commit's lists is one link, with the message at position `k`. */
  lemma {:induction false} LinkPairedAt(arts: map<string, Artifact>, iso: string -> Option<int>, c: Commit, ms: seq<Message>, p: nat)
    returns (k: nat)
    requires p < |LinkedArtifactIds(arts, iso, c, ms)|
    ensures p < |LinkedMessageIds(arts, iso, c, ms)| && k < |ms|
    ensures LinkedMessageIds(arts, iso, c, ms)[p] == ms[k].id
    ensures Linked(arts, iso, c, ms[k], LinkedArtifactIds(arts, iso, c, ms)[p])
    decreases |ms|
  {
    var n := |ms| - 1;
    LinkedLengths(arts, iso, c, ms);
    LinkedLengths(arts, iso, c, ms[..n]);
    var mids, aids := LinkedMessageIds(arts, iso, c, ms), LinkedArtifactIds(arts, iso, c, ms);
    var mids0, aids0 := LinkedMessageIds(arts, iso, c, ms[..n]), LinkedArtifactIds(arts, iso, c, ms[..n]);
    var links := Links(arts, iso, c, ms[n]);
    assert mids == mids0 + Repeat(ms[n].id, |links|);
    assert aids == aids0 + links;
    if p < |aids0| {
      k := LinkPairedAt(arts, iso, c, ms[..n], p);
      assert ms[..n][k] == ms[k] && mids[p] == mids0[p] && aids[p] == aids0[p];
    } else {
      k := n;
      assert aids[p] == links[p - |aids0|];
      LinksIff(arts, iso, c, ms[n], aids[p]);
    }
  }

  /** Every hash a message gains is that of a commit made at most an hour after it, sharing at least one link. */
  lemma {:induction false} MessageLinksFromCommits(arts: map<string, Artifact>, iso: string -> Option<int>, cs: seq<Commit>, m: Message)
    ensures forall p :: 0 <= p < |LinkedHashes(arts, iso, cs, m)| ==>
              exists j :: 0 <= j < |cs| && LinkedHashes(arts, iso, cs, m)[p] == cs[j].hash
                       && InWindow(iso, cs[j], m) && |Links(arts, iso, cs[j], m)| > 0
    decreases |cs|
  {
    if |cs| > 0 {
      var n := |cs| - 1;
      MessageLinksFromCommits(arts, iso, cs[..n], m);
      var hs, hs0 := LinkedHashes(arts, iso, cs, m), LinkedHashes(arts, iso, cs[..n], m);
      assert hs == hs0 + Repeat(cs[n].hash, |Links(arts, iso, cs[n], m)|);
      forall p | 0 <= p < |hs|
        ensures exists j :: 0 <= j < |cs| && hs[p] == cs[j].hash && InWindow(iso, cs[j], m) && |Links(arts, iso, cs[j], m)| > 0
      {
        if p < |hs0| {
          var j :| 0 <= j < n && hs0[p] == cs[..n][j].hash && InWindow(iso, cs[..n][j], m) && |Links(arts, iso, cs[..n][j], m)| > 0;
          assert cs[..n][j] == cs[j];
        } else {
          LinksIff(arts, iso, cs[n], m, "");
          assert hs[p] == cs[n].hash && InWindow(iso, cs[n], m) && |Links(arts, iso, cs[n], m)| > 0;
        }
      }
    } else {
      assert LinkedHashes(arts, iso, cs, m) == [];
    }
  }

  /** A commit whose timestamp does not parse gains nothing. */
  lemma {:induction false} UnparseableCommitGainsNothing(arts: map<string, Artifact>, iso: string -> Option<int>, c: Commit, ms: seq<Message>)
    requires CommitTime(iso, c.timestamp).None?
    ensures CommitAfter(arts, iso, c, ms) == c
    decreases |ms|
  {
    if |ms| > 0 {
      var n := |ms| - 1;
      UnparseableCommitGainsNothing(arts, iso, c, ms[..n]);
      assert Links(arts, iso, c, ms[n]) == [];
      assert LinkedMessageIds(arts, iso, c, ms) == LinkedMessageIds(arts, iso, c, ms[..n]);
      assert LinkedArtifactIds(arts, iso, c, ms) == LinkedArtifactIds(arts, iso, c, ms[..n]);
    }
  }

  /** A user message, or one whose timestamp does not parse, gains nothing. */
  lemma {:induction false} UnlinkableMessageGainsNothing(arts: map<string, Artifact>, iso: string -> Option<int>, cs: seq<Commit>, m: Message)
    requires m.role != "assistant" || MessageTime(iso, m.timestamp).None?
    ensures MessageAfter(arts, iso, cs, m) == m
    decreases |cs|
  {
    if |cs| > 0 {
      UnlinkableMessageGainsNothing(arts, iso, cs[..|cs| - 1], m);
    }
  }

  /** The links between a commit and a message do not depend on the message's related commits. */
  lemma LinksReadOnly(arts: map<string, Artifact>, iso: string -> Option<int>, c: Commit, m: Message, m': Message)
    requires m' == m.(relatedCommits := m'.relatedCommits)
    ensures Links(arts, iso, c, m) == Links(arts, iso, c, m') && m.id == m'.id
  {
    assert m.role == m'.role && m.timestamp == m'.timestamp && m.artifacts == m'.artifacts;
  }

  /**
   * Taking one more message into account extends the commit's lists by that
   * message's links; the links read no field the earlier messages changed.
   */
  lemma GainStep(arts: map<string, Artifact>, iso: string -> Option<int>, c: Commit, cur: Commit, ms: seq<Message>, k: nat)
    requires k < |ms| && cur == CommitAfter(arts, iso, c, ms[..k])
    ensures Tagged(arts, iso, cur, ms[k]) == Tagged(arts, iso, c, ms[k])
    ensures CommitAfter(arts, iso, c, ms[..k + 1]) == Gained(arts, iso, cur, ms[k])
  {
    LinksIgnoreCommitLists(arts, iso, c, cur, ms[k]);
    CommitAfterStep(arts, iso, c, ms, k);
  }

  /** Taking one more message into account adds its links, and its id once per link, to the commit. */
  lemma CommitAfterStep(arts: map<string, Artifact>, iso: string -> Option<int>, c: Commit, ms: seq<Message>, k: nat)
    requires k < |ms|
    ensures var cur, l := CommitAfter(arts, iso, c, ms[..k]), Links(arts, iso, c, ms[k]);
            CommitAfter(arts, iso, c, ms[..k + 1]) ==
              cur.(relatedMessages := cur.relatedMessages + Repeat(ms[k].id, |l|), relatedArtifacts := cur.relatedArtifacts + l)
  {
    var s := ms[..k + 1];
    assert s[..k] == ms[..k] && s[k] == ms[k];
    var a, b := LinkedMessageIds(arts, iso, c, ms[..k]), LinkedArtifactIds(arts, iso, c, ms[..k]);
    var l := Links(arts, iso, c, ms[k]);
    var x := Repeat(ms[k].id, |l|);
    assert LinkedMessageIds(arts, iso, c, s) == a + x;
    assert LinkedArtifactIds(arts, iso, c, s) == b + l;
    ExtendLists(c, a, b, x, l);
  }

  /** Growing a commit's two lists in two steps is growing them once by both parts. */
  lemma ExtendLists(c: Commit, a: seq<string>, b: seq<string>, x: seq<string>, y: seq<string>)
    ensures var cur := c.(relatedMessages := c.relatedMessages + a, relatedArtifacts := c.relatedArtifacts + b);
            c.(relatedMessages := c.relatedMessages + (a + x), relatedArtifacts := c.relatedArtifacts + (b + y)) ==
              cur.(relatedMessages := cur.relatedMessages + x, relatedArtifacts := cur.relatedArtifacts + y)
  {
    assert c.relatedMessages + (a + x) == c.relatedMessages + a + x;
    assert c.relatedArtifacts + (b + y) == c.relatedArtifacts + b + y;
  }

  lemma TaggedAllStep(arts: map<string, Artifact>, iso: string -> Option<int>, c: Commit, ms: seq<Message>, k: nat)
    requires k < |ms|
    ensures TaggedAll(arts, iso, c, ms[..k + 1]) == TaggedAll(arts, iso, c, ms[..k]) + [Tagged(arts, iso, c, ms[k])]
  {
    var s := ms[..k + 1];
    assert s[..k] == ms[..k] && s[k] == ms[k];
  }

  /** The links read no list the correlator appends to a commit. */
  lemma LinksIgnoreCommitLists(arts: map<string, Artifact>, iso: string -> Option<int>, c: Commit, c': Commit, m: Message)
    requires c'.timestamp == c.timestamp && c'.filesChanged == c.filesChanged
    ensures Links(arts, iso, c', m) == Links(arts, iso, c, m)
  {
  }

  /** Taking one more commit into account tags the message with that commit's links. */
  lemma TagStep(arts: map<string, Artifact>, iso: string -> Option<int>, cs: seq<Commit>, m: Message)
    requires |cs| > 0
    ensures MessageAfter(arts, iso, cs, m) == Tagged(arts, iso, cs[|cs| - 1], MessageAfter(arts, iso, cs[..|cs| - 1], m))
  {
    var m' := MessageAfter(arts, iso, cs[..|cs| - 1], m);
    LinksReadOnly(arts, iso, cs[|cs| - 1], m, m');
  }

  /** Taking one more commit into account tags every message with that commit's links. */
  lemma {:induction false} MessagesAfterStep(arts: map<string, Artifact>, iso: string -> Option<int>, cs: seq<Commit>, ms: seq<Message>)
    requires |cs| > 0
    ensures MessagesAfter(arts, iso, cs, ms) == TaggedAll(arts, iso, cs[|cs| - 1], MessagesAfter(arts, iso, cs[..|cs| - 1], ms))
    decreases |ms|
  {
    if |ms| > 0 {
      var n := |ms| - 1;
      var c, init := cs[|cs| - 1], cs[..|cs| - 1];
      MessagesAfterStep(arts, iso, cs, ms[..n]);
      TagStep(arts, iso, cs, ms[n]);
      var before := MessagesAfter(arts, iso, init, ms);
      assert before == MessagesAfter(arts, iso, init, ms[..n]) + [MessageAfter(arts, iso, init, ms[n])];
      assert before[..n] == MessagesAfter(arts, iso, init, ms[..n]);
      assert TaggedAll(arts, iso, c, before) == TaggedAll(arts, iso, c, before[..n]) + [Tagged(arts, iso, c, before[n])];
    }
  }

  /** Without commits, no message changes. */
  lemma {:induction false} MessagesAfterNoCommits(arts: map<string, Artifact>, iso: string -> Option<int>, ms: seq<Message>)
    ensures MessagesAfter(arts, iso, [], ms) == ms
    decreases |ms|
  {
    if |ms| > 0 {
      var n := |ms| - 1;
      MessagesAfterNoCommits(arts, iso, ms[..n]);
      assert LinkedHashes(arts, iso, [], ms[n]) == [];
      assert ms[n].relatedCommits + [] == ms[n].relatedCommits;
      assert MessageAfter(arts, iso, [], ms[n]) == ms[n];
      assert ms == ms[..n] + [ms[n]];
    }
  }

  /** Correlation changes no field of a message but its related commits. */
  lemma MessagesAfterKeepFields(arts: map<string, Artifact>, iso: string -> Option<int>, cs: seq<Commit>, ms: seq<Message>)
    ensures forall k :: 0 <= k < |ms| ==>
              MessagesAfter(arts, iso, cs, ms)[k] == ms[k].(relatedCommits := MessagesAfter(arts, iso, cs, ms)[k].relatedCommits)
  {
    forall k | 0 <= k < |ms|
      ensures MessagesAfter(arts, iso, cs, ms)[k] == ms[k].(relatedCommits := MessagesAfter(arts, iso, cs, ms)[k].relatedCommits)
    {
      MessagesAfterAt(arts, iso, cs, ms, k);
    }
  }

  /** A commit whose timestamp does not parse tags no message. */
  /** A commit whose timestamp does not parse is kept as it is, and so is every message. */
  lemma UnparseableCommitStep(arts: map<string, Artifact>, iso: string -> Option<int>, cs: seq<Commit>, ms: seq<Message>,
                              done: seq<Commit>, msgs: seq<Message>)
    requires |cs| > 0 && CommitTime(iso, cs[|cs| - 1].timestamp).None?
    requires done == CommitsAfter(arts, iso, cs[..|cs| - 1], ms) && msgs == MessagesAfter(arts, iso, cs[..|cs| - 1], ms)
    ensures done + [cs[|cs| - 1]] == CommitsAfter(arts, iso, cs, ms)
    ensures msgs == MessagesAfter(arts, iso, cs, ms)
  {
    var c := cs[|cs| - 1];
    MessagesAfterStep(arts, iso, cs, ms);
    UnparseableCommitGainsNothing(arts, iso, c, ms);
    TaggedAllUnparseable(arts, iso, c, msgs);
  }

  /** The last commit gains its links over the messages as earlier commits left them, and tags those messages. */
  lemma CorrelatedCommitStep(arts: map<string, Artifact>, iso: string -> Option<int>, cs: seq<Commit>, ms: seq<Message>,
                             done: seq<Commit>, msgs: seq<Message>)
    requires |cs| > 0
    requires done == CommitsAfter(arts, iso, cs[..|cs| - 1], ms) && msgs == MessagesAfter(arts, iso, cs[..|cs| - 1], ms)
    ensures done + [CommitAfter(arts, iso, cs[|cs| - 1], msgs)] == CommitsAfter(arts, iso, cs, ms)
    ensures TaggedAll(arts, iso, cs[|cs| - 1], msgs) == MessagesAfter(arts, iso, cs, ms)
  {
    var c := cs[|cs| - 1];
    MessagesAfterStep(arts, iso, cs, ms);
    MessagesAfterKeepFields(arts, iso, cs[..|cs| - 1], ms);
    GainsIgnoreRelatedCommits(arts, iso, c, ms, msgs);
  }

  /**
   * The commit loop's state after a parsed commit `j`: writing its result at
   * index `j` extends the finished prefix by one and leaves the later commits as
   * they were, and the tagged messages are the next `MessagesAfter`.
   */
  lemma CorrelatedCommitState(arts: map<string, Artifact>, iso: string -> Option<int>, cs: seq<Commit>, ms: seq<Message>,
                              j: nat, before: seq<Commit>, msgs: seq<Message>, c': Commit, msgs': seq<Message>)
    requires j < |before| == |cs|
    requires before[..j] == CommitsAfter(arts, iso, cs[..j], ms) && msgs == MessagesAfter(arts, iso, cs[..j], ms)
    requires forall j' :: j <= j' < |before| ==> before[j'] == cs[j']
    requires c' == CommitAfter(arts, iso, cs[j], msgs) && msgs' == TaggedAll(arts, iso, cs[j], msgs)
    ensures before[j := c'][..j + 1] == CommitsAfter(arts, iso, cs[..j + 1], ms)
    ensures forall j' :: j < j' < |before| ==> before[j := c'][j'] == cs[j']
    ensures msgs' == MessagesAfter(arts, iso, cs[..j + 1], ms)
  {
    assert cs[..j + 1][..j] == cs[..j] && cs[..j + 1][j] == cs[j];
    CorrelatedCommitStep(arts, iso, cs[..j + 1], ms, before[..j], msgs);
    UpdatePrefix(before, j, c');
  }

  /** Writing `x` at index `j` makes the prefix up to `j` the old prefix followed by `x`, and keeps what follows. */
  lemma UpdatePrefix<T>(xs: seq<T>, j: nat, x: T)
    requires j < |xs|
    ensures xs[j := x][..j + 1] == xs[..j] + [x]
    ensures forall k :: j < k < |xs| ==> xs[j := x][k] == xs[k]
  {
    assert xs[j := x][..j + 1] == xs[..j] + [x];
  }

  lemma {:induction false} TaggedAllUnparseable(arts: map<string, Artifact>, iso: string -> Option<int>, c: Commit, ms: seq<Message>)
    requires CommitTime(iso, c.timestamp).None?
    ensures TaggedAll(arts, iso, c, ms) == ms
    decreases |ms|
  {
    if |ms| > 0 {
      var n := |ms| - 1;
      TaggedAllUnparseable(arts, iso, c, ms[..n]);
      assert Links(arts, iso, c, ms[n]) == [];
      assert ms[n].relatedCommits + Repeat(c.hash, 0) == ms[n].relatedCommits;
      assert Tagged(arts, iso, c, ms[n]) == ms[n];
      assert ms == ms[..n] + [ms[n]];
    }
  }

  /** What a commit gains depends only on the messages' fields the correlator reads, not on their related commits. */
  lemma {:induction false} GainsIgnoreRelatedCommits(arts: map<string, Artifact>, iso: string -> Option<int>, c: Commit,
                                                     ms: seq<Message>, ms': seq<Message>)
    requires |ms| == |ms'|
    requires forall k :: 0 <= k < |ms| ==> ms'[k] == ms[k].(relatedCommits := ms'[k].relatedCommits)
    ensures LinkedMessageIds(arts, iso, c, ms) == LinkedMessageIds(arts, iso, c, ms')
    ensures LinkedArtifactIds(arts, iso, c, ms) == LinkedArtifactIds(arts, iso, c, ms')
    decreases |ms|
  {
    if |ms| > 0 {
      var n := |ms| - 1;
      GainsIgnoreRelatedCommits(arts, iso, c, ms[..n], ms'[..n]);
      LinksReadOnly(arts, iso, c, ms[n], ms'[n]);
      assert LinkedArtifactIds(arts, iso, c, ms) == LinkedArtifactIds(arts, iso, c, ms[..n]) + Links(arts, iso, c, ms[n]);
      assert LinkedArtifactIds(arts, iso, c, ms') == LinkedArtifactIds(arts, iso, c, ms'[..n]) + Links(arts, iso, c, ms'[n]);
    }
  }

  /** The number of links counted commit by commit. */
  function LinksByCommit(arts: map<string, Artifact>, iso: string -> Option<int>, cs: seq<Commit>, ms: seq<Message>): nat
    decreases |cs|
  {
    if |cs| == 0 then 0
    else LinksByCommit(arts, iso, cs[..|cs| - 1], ms) + |LinkedArtifactIds(arts, iso, cs[|cs| - 1], ms)|
  }

  /** The number of links counted message by message. */
  function LinksByMessage(arts: map<string, Artifact>, iso: string -> Option<int>, cs: seq<Commit>, ms: seq<Message>): nat
    decreases |ms|
  {
    if |ms| == 0 then 0
    else LinksByMessage(arts, iso, cs, ms[..|ms| - 1]) + |LinkedHashes(arts, iso, cs, ms[|ms| - 1])|
  }

  /** Adding a commit adds its links to the message-by-message count. */
  lemma {:induction false} LinksByMessageLastCommit(arts: map<string, Artifact>, iso: string -> Option<int>, cs: seq<Commit>, ms: seq<Message>)
    requires |cs| > 0
    ensures LinksByMessage(arts, iso, cs, ms) ==
            LinksByMessage(arts, iso, cs[..|cs| - 1], ms) + |LinkedArtifactIds(arts, iso, cs[|cs| - 1], ms)|
    decreases |ms|
  {
    if |ms| > 0 {
      LinksByMessageLastCommit(arts, iso, cs, ms[..|ms| - 1]);
    }
  }

  /**
   * Over the whole run, the hashes added to messages are exactly as many as the
   * artifact ids (and so the message ids) added to commits.
   */
  lemma {:induction false} LinksBalance(arts: map<string, Artifact>, iso: string -> Option<int>, cs: seq<Commit>, ms: seq<Message>)
    ensures LinksByCommit(arts, iso, cs, ms) == LinksByMessage(arts, iso, cs, ms)
    decreases |cs|
  {
    if |cs| == 0 {
      LinksByMessageNoCommits(arts, iso, ms);
    } else {
      LinksBalance(arts, iso, cs[..|cs| - 1], ms);
      LinksByMessageLastCommit(arts, iso, cs, ms);
    }
  }

  lemma {:induction false} LinksByMessageNoCommits(arts: map<string, Artifact>, iso: string -> Option<int>, ms: seq<Message>)
    ensures LinksByMessage(arts, iso, [], ms) == 0
    decreases |ms|
  {
    if |ms| > 0 {
      LinksByMessageNoCommits(arts, iso, ms[..|ms| - 1]);
    }
  }
}
