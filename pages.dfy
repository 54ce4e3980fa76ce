/**
 * The specification of pagination and of the manifest's counts.
 *
 * Messages are cut into consecutive pages of `size` messages, the last one
 * possibly shorter; page numbers start at 1.
 */
module Pages {
  import opened Entities

  /** One page file; its `version` is always "1.0". */
  datatype Page = Page(page: nat, totalPages: nat, startIndex: nat, endIndex: nat, messages: seq<Message>)

  /** `(n + size - 1) // size`. */
  function TotalPages(n: nat, size: nat): nat
    requires size > 0
  {
    (n + size - 1) / size
  }

  function Min(a: int, b: int): int {
    if a <= b then a else b
  }

  /** The page with number `p + 1`. */
  function PageAt(messages: seq<Message>, size: nat, p: nat): Page
    requires size > 0 && p * size <= |messages|
  {
    var start := p * size;
    var end := Min(start + size, |messages|);
    Page(p + 1, TotalPages(|messages|, size), start, end, messages[start..end])
  }

  /** The pages of `messages`, in order. */
  function Paginated(messages: seq<Message>, size: nat): seq<Page>
    requires size > 0
  {
    TotalPagesIsCeiling(|messages|, size);
    seq(TotalPages(|messages|, size), p requires 0 <= p < TotalPages(|messages|, size) =>
      MulMono(p, TotalPages(|messages|, size) - 1, size);
      PageAt(messages, size, p))
  }

  /** The messages of a list of pages, one page after the other. */
  function Flatten(pages: seq<Page>): seq<Message>
    decreases |pages|
  {
    if |pages| == 0 then [] else Flatten(pages[..|pages| - 1]) + pages[|pages| - 1].messages
  }

  // ---------------------------------------------------------------------------
  // Properties

  lemma MulMono(a: nat, b: nat, size: nat)
    requires a <= b
    ensures a * size <= b * size
  {
  }

  /** The page count is the ceiling of `n / size`: the pages hold all `n` messages, and one page fewer would not. */
  lemma TotalPagesIsCeiling(n: nat, size: nat)
    requires size > 0
    ensures TotalPages(n, size) * size >= n
    ensures TotalPages(n, size) > 0 ==> (TotalPages(n, size) - 1) * size < n
    ensures n == 0 <==> TotalPages(n, size) == 0
  {
    var t := TotalPages(n, size);
    var r := (n + size - 1) % size;
    assert n + size - 1 == t * size + r;
    assert t * size == n + size - 1 - r;
    assert (t - 1) * size == t * size - size;
  }

  /** A count of full pages that does not reach `n` leaves at least one more page. */
  lemma BelowCeiling(n: nat, size: nat, k: nat)
    requires size > 0 && k * size < n
    ensures k < TotalPages(n, size)
  {
    TotalPagesIsCeiling(n, size);
    if k >= TotalPages(n, size) {
      MulMono(TotalPages(n, size), k, size);
    }
  }

  /** The page that starts at `k * size` has number `k + 1`. */
  lemma PageStart(k: nat, size: nat)
    requires size > 0
    ensures (k * size) / size == k
  {
    var q, r := (k * size) / size, (k * size) % size;
    assert k * size == q * size + r;
    if q < k {
      MulMono(q + 1, k, size);
    } else if q > k {
      MulMono(k + 1, q, size);
    }
  }

  /** The ceiling is the only count with that property, which is how the page loop ends. */
  lemma CeilingUnique(n: nat, size: nat, t: nat)
    requires size > 0
    requires t * size >= n && (t > 0 ==> (t - 1) * size < n)
    ensures t == TotalPages(n, size)
  {
    TotalPagesIsCeiling(n, size);
    var c := TotalPages(n, size);
    if t < c {
      MulMono(t, c - 1, size);
    } else if t > c {
      MulMono(c, t - 1, size);
    }
  }

  /** The first `k` pages hold the first `k * size` messages (all of them once `k` reaches the page count). */
  lemma {:induction false} FlattenPrefix(messages: seq<Message>, size: nat, k: nat)
    requires size > 0 && k <= TotalPages(|messages|, size)
    ensures k * size <= |messages| + size
    ensures Flatten(Paginated(messages, size)[..k]) == messages[..Min(k * size, |messages|)]
    decreases k
  {
    var n, t := |messages|, TotalPages(|messages|, size);
    TotalPagesIsCeiling(n, size);
    MulMono(k, t, size);
    if t > 0 {
      MulPred(t, size);
    }
    if k > 0 {
      FlattenPrefix(messages, size, k - 1);
      var pages := Paginated(messages, size);
      assert pages[..k][..k - 1] == pages[..k - 1];
      MulMono(k - 1, t - 1, size);
      MulPred(k, size);
      var start := (k - 1) * size;
      assert start < n && Min(start, n) == start;
      assert pages[k - 1] == PageAt(messages, size, k - 1);
      assert Flatten(pages[..k]) == messages[..start] + messages[start..Min(k * size, n)];
      assert messages[..start] + messages[start..Min(k * size, n)] == messages[..Min(k * size, n)];
    }
  }

  lemma MulPred(k: nat, size: nat)
    requires k > 0
    ensures (k - 1) * size == k * size - size
  {
  }

  /** Each page holds between 1 and `size` consecutive messages and knows its number and the page count. */
  lemma PageShape(messages: seq<Message>, size: nat, p: nat)
    requires size > 0 && p < TotalPages(|messages|, size)
    ensures var pg := Paginated(messages, size)[p];
            && pg.page == p + 1 && pg.totalPages == |Paginated(messages, size)|
            && 1 <= |pg.messages| <= size && pg.endIndex - pg.startIndex == |pg.messages|
            && pg.messages == messages[pg.startIndex..pg.endIndex]
  {
    TotalPagesIsCeiling(|messages|, size);
    MulMono(p, TotalPages(|messages|, size) - 1, size);
  }

  /**
   * The pages partition the messages: read in order they give back every
   * message once, each page holds between 1 and `size` messages, and the
   * page numbers run from 1 without a gap.
   */
  lemma Partition(messages: seq<Message>, size: nat)
    requires size > 0
    ensures Flatten(Paginated(messages, size)) == messages
    ensures forall p :: 0 <= p < |Paginated(messages, size)| ==>
              var pg := Paginated(messages, size)[p];
              && pg.page == p + 1 && pg.totalPages == |Paginated(messages, size)|
              && 1 <= |pg.messages| <= size && pg.endIndex - pg.startIndex == |pg.messages|
              && pg.messages == messages[pg.startIndex..pg.endIndex]
  {
    var pages := Paginated(messages, size);
    FlattenPrefix(messages, size, |pages|);
    TotalPagesIsCeiling(|messages|, size);
    assert Min(|pages| * size, |messages|) == |messages|;
    assert pages[..|pages|] == pages;
    forall p | 0 <= p < |pages|
      ensures var pg := pages[p];
              && pg.page == p + 1 && pg.totalPages == |pages|
              && 1 <= |pg.messages| <= size && pg.endIndex - pg.startIndex == |pg.messages|
              && pg.messages == messages[pg.startIndex..pg.endIndex]
    {
      PageShape(messages, size, p);
    }
  }

  /**
   * The page a message's position lies on: position `i` is on the page with
   * number `i / size + 1`, inside that page's index range.
   */
  lemma PageOfIndex(messages: seq<Message>, size: nat, i: nat)
    requires size > 0 && i < |messages|
    ensures i / size < |Paginated(messages, size)|
    ensures var pg := Paginated(messages, size)[i / size];
            pg.page == i / size + 1 && pg.startIndex <= i < pg.endIndex
            && pg.messages[i - pg.startIndex] == messages[i]
  {
    var p := i / size;
    assert p * size + i % size == i;
    TotalPagesIsCeiling(|messages|, size);
    if p >= TotalPages(|messages|, size) {
      MulMono(TotalPages(|messages|, size), p, size);
    }
  }

  // ---------------------------------------------------------------------------
  // Manifest counts

  /** The manifest's `stats` object. */
  datatype Stats = Stats(
    totalMessages: nat,
    userMessages: nat,
    assistantMessages: nat,
    totalArtifacts: nat,
    totalCommits: nat,
    totalImages: nat,
    sessions: nat)

  /** The manifest's counts: its `stats` and its `pagination` object. */
  datatype Manifest = Manifest(stats: Stats, messagesPerPage: nat, totalPages: nat)

  /** The number of messages with role `role`. */
  function CountRole(messages: seq<Message>, role: string): (c: nat)
    ensures c <= |messages|
    decreases |messages|
  {
    if |messages| == 0 then 0
    else CountRole(messages[..|messages| - 1], role) + (if messages[|messages| - 1].role == role then 1 else 0)
  }

  /** User and assistant messages never outnumber all messages, and make them up exactly when no other role occurs. */
  lemma {:induction false} RoleCounts(messages: seq<Message>)
    ensures CountRole(messages, "user") + CountRole(messages, "assistant") <= |messages|
    ensures CountRole(messages, "user") + CountRole(messages, "assistant") == |messages| <==>
              forall m :: m in messages ==> m.role == "user" || m.role == "assistant"
    decreases |messages|
  {
    if |messages| > 0 {
      var n := |messages| - 1;
      RoleCounts(messages[..n]);
      assert messages == messages[..n] + [messages[n]];
    }
  }
}
