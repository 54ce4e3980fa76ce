/**
 * The specification of the full-text search index: every message is
 * indexed under the distinct words of three or more characters of its
 * lower-cased search text, and each word maps to the ascending list of the
 * positions of the messages it occurs in.
 */
module Search {
  import opened Text
  import opened Entities

  /** The `documentMap` entry of a message, under the key `str(i)` for its position `i`. */
  datatype DocEntry = DocEntry(id: string, page: nat, role: string, preview: string)

  /** The entry of the message `m` at position `i`, with `size` messages per page. */
  function DocEntryOf(m: Message, i: nat, size: nat): (e: DocEntry)
    requires size > 0
    ensures e.id == m.id && e.role == m.role
    ensures e.page >= 1 && (e.page - 1) * size <= i < e.page * size
    ensures |e.preview| == (if |m.content.textPreview| <= 50 then |m.content.textPreview| else 50)
    ensures StartsWith(m.content.textPreview, e.preview)
  {
    var e := DocEntry(m.id, i / size + 1, m.role, Take(m.content.textPreview, 50));
    assert i == (i / size) * size + i % size;
    e
  }

  /** The entries of the messages, by position. */
  function DocMap(messages: seq<Message>, size: nat): (r: seq<DocEntry>)
    requires size > 0
    ensures |r| == |messages|
    decreases |messages|
  {
    if |messages| == 0 then []
    else
      var n := |messages| - 1;
      DocMap(messages[..n], size) + [DocEntryOf(messages[n], n, size)]
  }

  lemma {:induction false} DocMapAt(messages: seq<Message>, size: nat, i: nat)
    requires size > 0 && i < |messages|
    ensures DocMap(messages, size)[i] == DocEntryOf(messages[i], i, size)
    decreases |messages|
  {
    if i < |messages| - 1 {
      DocMapAt(messages[..|messages| - 1], size, i);
    }
  }

  lemma DocMapStep(messages: seq<Message>, size: nat, i: nat)
    requires size > 0 && i < |messages|
    ensures DocMap(messages[..i + 1], size) == DocMap(messages[..i], size) + [DocEntryOf(messages[i], i, size)]
  {
    assert messages[..i + 1][..i] == messages[..i];
  }

  /** The index file; its `version` is always "1.0" and its `type` "inverted_index". */
  datatype SearchIndex = SearchIndex(documents: nat, terms: map<string, seq<nat>>, documentMap: seq<DocEntry>)

  /** A character of `\w`, restricted to ASCII: a letter, a digit or `_`. */
  predicate IsWordChar(ch: char) {
    ('a' <= ch <= 'z') || ('A' <= ch <= 'Z') || ('0' <= ch <= '9') || ch == '_'
  }

  /** The length of the run of word characters that starts `s`. */
  function RunLength(s: string): (n: nat)
    ensures n <= |s|
    ensures forall k :: 0 <= k < n ==> IsWordChar(s[k])
    ensures n < |s| ==> !IsWordChar(s[n])
    decreases |s|
  {
    if |s| == 0 || !IsWordChar(s[0]) then 0 else 1 + RunLength(s[1..])
  }

  /**
   * What `re.findall(r"\b\w+\b", s)` returns: the maximal runs of word
   * characters of `s`, left to right.
   */
  function Tokens(s: string): (r: seq<string>)
    ensures forall t :: t in r ==> t != [] && forall k :: 0 <= k < |t| ==> IsWordChar(t[k])
    decreases |s|
  {
    if |s| == 0 then []
    else if !IsWordChar(s[0]) then Tokens(s[1..])
    else
      var n := RunLength(s);
      [s[..n]] + Tokens(s[n..])
  }

  /**
   * `t` sits in `s` at position `i` as a whole run: it starts with a word
   * character, and neither the character before it nor the one after it is one.
   */
  predicate RunAt(s: string, t: string, i: nat) {
    && i + |t| <= |s| && t == s[i..i + |t|]
    && i < |s| && IsWordChar(s[i])
    && (i > 0 ==> !IsWordChar(s[i - 1]))
    && (i + |t| < |s| ==> !IsWordChar(s[i + |t|]))
  }

  /** Tokens are maximal runs: the `k`-th token sits in `s` at some position `i` as a whole run. */
  lemma {:induction false} TokenAt(s: string, k: nat) returns (i: nat)
    requires k < |Tokens(s)|
    ensures RunAt(s, Tokens(s)[k], i)
    decreases |s|, 1
  {
    if !IsWordChar(s[0]) {
      i := TokenAtSkip(s, k);
    } else if k == 0 {
      var n := RunLength(s);
      TokensRun(s, n);
      i := 0;
      FirstRun(s, n);
    } else {
      i := TokenAtRun(s, k);
    }
  }

  lemma {:induction false} TokenAtSkip(s: string, k: nat) returns (i: nat)
    requires k < |Tokens(s)| && !IsWordChar(s[0])
    ensures RunAt(s, Tokens(s)[k], i)
    decreases |s|, 0
  {
    TokensSkip(s);
    var t := Tokens(s[1..])[k];
    var i' := TokenAt(s[1..], k);
    i := i' + 1;
    ShiftedRun(s, 1, i', t);
  }

  lemma {:induction false} TokenAtRun(s: string, k: nat) returns (i: nat)
    requires 0 < k < |Tokens(s)| && IsWordChar(s[0])
    ensures RunAt(s, Tokens(s)[k], i)
    decreases |s|, 0
  {
    var n := RunLength(s);
    LaterToken(s, n, k);
    var t := Tokens(s)[k];
    var i' := TokenAt(s[n..], k - 1);
    i := i' + n;
    ShiftedRun(s, n, i', t);
  }

  /** After the first run of `s`, of length `n`, the `k`-th token of `s` is the `k - 1`-th token of the rest. */
  lemma LaterToken(s: string, n: nat, k: nat)
    requires 0 < k < |Tokens(s)| && IsWordChar(s[0]) && n == RunLength(s)
    ensures 0 < n < |s| && !IsWordChar(s[n])
    ensures k - 1 < |Tokens(s[n..])| && Tokens(s)[k] == Tokens(s[n..])[k - 1]
  {
    TokensRun(s, n);
  }

  lemma TokensSkip(s: string)
    requires |s| > 0 && !IsWordChar(s[0])
    ensures Tokens(s) == Tokens(s[1..])
  {
  }

  lemma TokensRun(s: string, n: nat)
    requires |s| > 0 && IsWordChar(s[0]) && n == RunLength(s)
    ensures Tokens(s) == [s[..n]] + Tokens(s[n..])
    ensures n > 0 && (n < |s| ==> !IsWordChar(s[n]))
    ensures n == |s| ==> Tokens(s) == [s]
  {
    if n == |s| {
      assert s[n..] == [] && s[..n] == s;
    }
  }

  lemma FirstRun(s: string, n: nat)
    requires |s| > 0 && IsWordChar(s[0]) && n == RunLength(s)
    ensures RunAt(s, s[..n], 0)
  {
  }

  /** A whole run at `i'` in `s[d..]`, when `s[d]` is not a word character or `d` is 0, is a whole run at `i' + d` in `s`. */
  lemma ShiftedRun(s: string, d: nat, i': nat, t: string)
    requires d <= |s| && RunAt(s[d..], t, i')
    requires d > 0 ==> !IsWordChar(s[d - 1]) || (d < |s| && !IsWordChar(s[d]))
    ensures RunAt(s, t, i' + d)
  {
    assert s[d..][i'..i' + |t|] == s[i' + d..i' + d + |t|];
  }

  /** `t` sits in `s` at `i` as a whole run made only of word characters. */
  predicate WordRun(s: string, t: string, i: nat) {
    RunAt(s, t, i) && forall j :: 0 <= j < |t| ==> IsWordChar(t[j])
  }

  /**
   * The converse of `TokenAt`: a whole run of word characters, one neither
   * preceded nor followed by a word character, is a token.
   */
  lemma {:induction false} RunIsToken(s: string, t: string, i: nat) returns (k: nat)
    requires WordRun(s, t, i)
    ensures k < |Tokens(s)| && Tokens(s)[k] == t
    decreases |s|, 1
  {
    if !IsWordChar(s[0]) {
      k := RunIsTokenSkip(s, t, i);
    } else if i == 0 {
      assert s[..|t|] == t;
      RunLengthIs(s, |t|);
      TokensRun(s, RunLength(s));
      k := 0;
    } else {
      k := RunIsTokenLater(s, t, i);
    }
  }

  /** A whole run at `i` in `s` is a whole run at `i - d` in `s[d..]`. */
  lemma UnshiftedRun(s: string, t: string, i: nat, d: nat)
    requires d <= i && WordRun(s, t, i)
    ensures WordRun(s[d..], t, i - d)
  {
    assert s[d..][i - d..i - d + |t|] == s[i..i + |t|];
  }

  lemma {:induction false} RunIsTokenSkip(s: string, t: string, i: nat) returns (k: nat)
    requires WordRun(s, t, i) && !IsWordChar(s[0])
    ensures k < |Tokens(s)| && Tokens(s)[k] == t
    decreases |s|, 0
  {
    TokensSkip(s);
    UnshiftedRun(s, t, i, 1);
    k := RunIsToken(s[1..], t, i - 1);
  }

  lemma {:induction false} RunIsTokenLater(s: string, t: string, i: nat) returns (k: nat)
    requires WordRun(s, t, i) && IsWordChar(s[0]) && i > 0
    ensures k < |Tokens(s)| && Tokens(s)[k] == t
    decreases |s|, 0
  {
    var n := RunLength(s);
    assert n < i;
    UnshiftedRun(s, t, i, n);
    var k' := RunIsToken(s[n..], t, i - n);
    k := k' + 1;
    EarlierToken(s, n, k');
  }

  /** After the first run of `s`, of length `n`, the `k`-th token of the rest is the `k + 1`-th token of `s`. */
  lemma EarlierToken(s: string, n: nat, k: nat)
    requires 0 < |s| && IsWordChar(s[0]) && n == RunLength(s) && k < |Tokens(s[n..])|
    ensures k + 1 < |Tokens(s)| && Tokens(s)[k + 1] == Tokens(s[n..])[k]
  {
    TokensRun(s, n);
  }

  /** A run of word characters that ends at the end of `s` or before a non-word character is the run `RunLength` measures. */
  lemma {:induction false} RunLengthIs(s: string, m: nat)
    requires m <= |s| && (forall j :: 0 <= j < m ==> IsWordChar(s[j])) && (m < |s| ==> !IsWordChar(s[m]))
    ensures RunLength(s) == m
    decreases m
  {
    if m > 0 {
      RunLengthIs(s[1..], m - 1);
    }
  }

  /**
   * `re.findall(r"\b\w+\b", s)` in both directions: `t` is a token exactly
   * when it occurs somewhere in `s` as a whole run of word characters.
   */
  lemma TokensIff(s: string, t: string)
    ensures t in Tokens(s) <==> exists i: nat :: WordRun(s, t, i)
  {
    if t in Tokens(s) {
      var k :| 0 <= k < |Tokens(s)| && Tokens(s)[k] == t;
      var i := TokenAt(s, k);
      assert WordRun(s, t, i);
    }
    if i: nat :| WordRun(s, t, i) {
      var k := RunIsToken(s, t, i);
    }
  }

  /** The word characters of `s`, in order. */
  function WordChars(s: string): string
    decreases |s|
  {
    if |s| == 0 then [] else (if IsWordChar(s[0]) then [s[0]] else []) + WordChars(s[1..])
  }

  /** The strings of `ts`, one after the other. */
  function Concat(ts: seq<string>): string
    decreases |ts|
  {
    if |ts| == 0 then [] else ts[0] + Concat(ts[1..])
  }

  /** A run of word characters passes into `WordChars` whole. */
  lemma {:induction false} WordCharsOfRun(s: string, n: nat)
    requires n <= |s|
    requires forall k :: 0 <= k < n ==> IsWordChar(s[k])
    ensures WordChars(s) == s[..n] + WordChars(s[n..])
    decreases n
  {
    if n > 0 {
      WordCharsOfRun(s[1..], n - 1);
      assert s[1..][n - 1..] == s[n..];
      assert s[..n] == [s[0]] + s[1..][..n - 1];
    }
  }

  /** Tokenising loses no word character and keeps every other character out. */
  lemma {:induction false} TokensKeepWordChars(s: string)
    ensures Concat(Tokens(s)) == WordChars(s)
    decreases |s|
  {
    if |s| > 0 {
      if !IsWordChar(s[0]) {
        TokensKeepWordChars(s[1..]);
      } else {
        var n := RunLength(s);
        TokensKeepWordChars(s[n..]);
        WordCharsOfRun(s, n);
        assert ([s[..n]] + Tokens(s[n..]))[1..] == Tokens(s[n..]);
      }
    }
  }

  /** The distinct words of a token list that are long enough to index. */
  function TermsOf(words: seq<string>): set<string> {
    set w | w in words && |w| >= 3
  }

  /** The terms a search text is indexed under. */
  function Terms(searchText: string): set<string> {
    TermsOf(Tokens(Lower(searchText)))
  }

  /** The term set of each message, by position. */
  function TermSets(messages: seq<Message>): (docs: seq<set<string>>)
    ensures |docs| == |messages|
    ensures forall i, w :: 0 <= i < |messages| ==>
              (w in docs[i] <==> |w| >= 3 && w in Tokens(Lower(messages[i].searchText)))
  {
    seq(|messages|, i requires 0 <= i < |messages| => Terms(messages[i].searchText))
  }

  /** Message `i` has the term `w` exactly when `w` is a whole word run of at least three characters in its lower-cased search text. */
  lemma TermSetsIff(messages: seq<Message>, i: nat, w: string)
    requires i < |messages|
    ensures w in TermSets(messages)[i] <==> |w| >= 3 && exists j: nat :: WordRun(Lower(messages[i].searchText), w, j)
  {
    TokensIff(Lower(messages[i].searchText), w);
  }

  /** A word's posting list, or the empty list. */
  function PostingList(terms: map<string, seq<nat>>, w: string): seq<nat> {
    if w in terms then terms[w] else []
  }

  /** Indexing document `i` under the terms `ws`: each of them gets `i` appended, once. */
  function AddDoc(terms: map<string, seq<nat>>, i: nat, ws: set<string>): map<string, seq<nat>> {
    map w | w in terms.Keys + ws :: if w in ws then PostingList(terms, w) + [i] else terms[w]
  }

  /** The index after the documents `docs`, in order. */
  function Index(docs: seq<set<string>>): map<string, seq<nat>>
    decreases |docs|
  {
    if |docs| == 0 then map[]
    else
      var n := |docs| - 1;
      AddDoc(Index(docs[..n]), n, docs[n])
  }

  /** A reference definition: the positions of the documents holding `w`, in ascending order. */
  function Postings(docs: seq<set<string>>, w: string): seq<nat>
    decreases |docs|
  {
    if |docs| == 0 then []
    else
      var n := |docs| - 1;
      Postings(docs[..n], w) + (if w in docs[n] then [n] else [])
  }

  /** The inner loop of the indexer: each long-enough word not yet seen in this message gets `i` appended. */
  method AddWords(terms: map<string, seq<nat>>, i: nat, words: seq<string>) returns (terms': map<string, seq<nat>>)
    ensures terms' == AddDoc(terms, i, TermsOf(words))
  {
    terms' := terms;
    var seen: set<string> := {};
    for k := 0 to |words|
      invariant seen == TermsOf(words[..k])
      invariant terms' == AddDoc(terms, i, seen)
    {
      TermsOfStep(words, k);
      var word := words[k];
      if |word| >= 3 && word !in seen {
        AddDocStep(terms, i, seen, word);
        terms' := terms'[word := PostingList(terms', word) + [i]];
        seen := seen + {word};
      }
    }
    assert words[..|words|] == words;
  }

  /** One iteration of the indexer's message loop: the message's words are added under its position. */
  method IndexMessage(terms: map<string, seq<nat>>, messages: seq<Message>, i: nat) returns (terms': map<string, seq<nat>>)
    requires i < |messages| && terms == Index(TermSets(messages)[..i])
    ensures terms' == Index(TermSets(messages)[..i + 1])
  {
    IndexStep(messages, i);
    terms' := AddWords(terms, i, Tokens(Lower(messages[i].searchText)));
  }

  lemma TermsOfStep(words: seq<string>, k: nat)
    requires k < |words|
    ensures TermsOf(words[..k + 1]) == TermsOf(words[..k]) + (if |words[k]| >= 3 then {words[k]} else {})
  {
    assert words[..k + 1] == words[..k] + [words[k]];
  }

  lemma AddDocStep(terms: map<string, seq<nat>>, i: nat, seen: set<string>, w: string)
    requires w !in seen
    ensures AddDoc(terms, i, seen + {w}) == AddDoc(terms, i, seen)[w := PostingList(AddDoc(terms, i, seen), w) + [i]]
  {
  }

  /** Indexing one more message. */
  lemma IndexStep(messages: seq<Message>, i: nat)
    requires i < |messages|
    ensures Index(TermSets(messages)[..i + 1]) ==
              AddDoc(Index(TermSets(messages)[..i]), i, TermsOf(Tokens(Lower(messages[i].searchText))))
  {
    var docs := TermSets(messages);
    assert docs[..i + 1][..i] == docs[..i];
  }

  // ---------------------------------------------------------------------------
  // Properties

  /** The index agrees with the reference: a word is a key exactly when it has postings, and maps to them. */
  lemma {:induction false} IndexIsPostings(docs: seq<set<string>>, w: string)
    ensures w in Index(docs) <==> Postings(docs, w) != []
    ensures w in Index(docs) ==> Index(docs)[w] == Postings(docs, w)
    decreases |docs|
  {
    if |docs| > 0 {
      IndexIsPostings(docs[..|docs| - 1], w);
    }
  }

  /** A position is in a word's postings exactly when that document holds the word. */
  lemma {:induction false} PostingsIff(docs: seq<set<string>>, w: string, i: int)
    ensures i in Postings(docs, w) <==> 0 <= i < |docs| && w in docs[i]
    decreases |docs|
  {
    if |docs| > 0 {
      var n := |docs| - 1;
      PostingsIff(docs[..n], w, i);
    }
  }

  /** Postings are strictly increasing positions below the number of documents: no duplicates, in order. */
  lemma {:induction false} PostingsIncreasing(docs: seq<set<string>>, w: string)
    ensures forall a, b :: 0 <= a < b < |Postings(docs, w)| ==> Postings(docs, w)[a] < Postings(docs, w)[b]
    ensures forall a :: 0 <= a < |Postings(docs, w)| ==> Postings(docs, w)[a] < |docs|
    decreases |docs|
  {
    if |docs| > 0 {
      var n := |docs| - 1;
      PostingsIncreasing(docs[..n], w);
    }
  }

  /**
   * For the messages of a transcript: a word has the message at position `i`
   * in its postings exactly when it is one of that message's terms.
   */
  lemma MessageIndexIff(messages: seq<Message>, w: string, i: int)
    ensures (w in Index(TermSets(messages)) && i in Index(TermSets(messages))[w]) <==>
              0 <= i < |messages| && w in Terms(messages[i].searchText)
  {
    IndexIsPostings(TermSets(messages), w);
    PostingsIff(TermSets(messages), w, i);
  }
}
