/**
 * String operations of the Python standard library that the builder relies on:
 * slicing, `startswith`/`endswith`, `in`, `strip`, `lower`, `split`, `join`,
 * `count`, `rfind`, and the non-greedy delimited-region removal done by `re.sub`.
 */
module Text {
  import opened Wrappers

  /** Python's `s[:n]` for a non-negative `n`. */
  function Take(s: string, n: nat): (r: string)
    ensures |r| == (if |s| <= n then |s| else n) && r == s[..|r|]
  {
    if |s| <= n then s else s[..n]
  }

  /**
   * The builder's preview idiom `s[:n] + "..." if len(s) > n else s`:
   * the string itself when it fits, else its first `n` characters and an ellipsis.
   */
  function Truncated(s: string, n: nat): (r: string)
    ensures |r| <= n + 3
    ensures |s| <= n ==> r == s
    ensures |s| > n ==> |r| == n + 3 && r[..n] == s[..n] && r[n..] == "..."
  {
    if |s| > n then s[..n] + "..." else s
  }

  predicate StartsWith(s: string, prefix: string) {
    |prefix| <= |s| && s[..|prefix|] == prefix
  }

  predicate EndsWith(s: string, suffix: string) {
    |suffix| <= |s| && s[|s| - |suffix|..] == suffix
  }

  /** `pat` occurs in `s` starting at position `i`. */
  predicate OccursAt(s: string, pat: string, i: nat) {
    i + |pat| <= |s| && s[i..i + |pat|] == pat
  }

  lemma OccursAtTail(s: string, pat: string, i: nat)
    requires |s| > 0
    ensures OccursAt(s, pat, i + 1) <==> OccursAt(s[1..], pat, i)
  {
    if i + 1 + |pat| <= |s| {
      assert s[1..][i..i + |pat|] == s[i + 1..i + 1 + |pat|];
    }
  }

  /**
   * The first position at which `pat` occurs in `s` (Python's `s.find(pat)`),
   * and `None` exactly when it occurs nowhere.
   */
  function Find(s: string, pat: string): (r: Option<nat>)
    ensures r.Some? ==> OccursAt(s, pat, r.value)
    ensures r.Some? ==> forall i: nat :: i < r.value ==> !OccursAt(s, pat, i)
    ensures r.None? ==> forall i: nat :: !OccursAt(s, pat, i)
    decreases |s|
  {
    if |pat| > |s| then None
    else if s[..|pat|] == pat then
      assert OccursAt(s, pat, 0);
      Some(0)
    else
      var r := Find(s[1..], pat);
      assert forall i: nat :: 0 < i && OccursAt(s, pat, i) ==> OccursAt(s[1..], pat, i - 1) by {
        forall i: nat | 0 < i ensures OccursAt(s, pat, i) ==> OccursAt(s[1..], pat, i - 1) {
          OccursAtTail(s, pat, i - 1);
        }
      }
      match r
      case None => None
      case Some(k) =>
        OccursAtTail(s, pat, k);
        Some(k + 1)
  }

  /** Python's substring test `pat in s`. */
  predicate Contains(s: string, pat: string) {
    Find(s, pat).Some?
  }

  /** The last position holding `c` (Python's `s.rfind(c)`), if any. */
  function LastIndex(s: string, c: char): (r: Option<nat>)
    ensures r.Some? <==> c in s
    ensures r.Some? ==> r.value < |s| && s[r.value] == c && c !in s[r.value + 1..]
  {
    if |s| == 0 then None
    else if s[|s| - 1] == c then Some(|s| - 1)
    else LastIndex(s[..|s| - 1], c)
  }

  /** The first position holding `c`. */
  function IndexOf(s: string, c: char): (i: nat)
    requires c in s
    ensures i < |s| && s[i] == c && c !in s[..i]
  {
    if s[0] == c then 0 else 1 + IndexOf(s[1..], c)
  }

  /** Python's `s.count(c)` for a one-character `c`. */
  function Count(s: string, c: char): nat {
    if |s| == 0 then 0 else (if s[0] == c then 1 else 0) + Count(s[1..], c)
  }

  lemma {:induction false} CountAtFirst(s: string, c: char)
    requires c in s
    ensures Count(s, c) == 1 + Count(s[IndexOf(s, c) + 1..], c)
    decreases |s|
  {
    if s[0] != c {
      CountAtFirst(s[1..], c);
    }
  }

  lemma {:induction false} CountZero(s: string, c: char)
    requires c !in s
    ensures Count(s, c) == 0
    decreases |s|
  {
    if |s| > 0 {
      CountZero(s[1..], c);
    }
  }

  /** Python's `sep.join(parts)`. */
  function Join(parts: seq<string>, sep: string): string {
    if |parts| == 0 then ""
    else if |parts| == 1 then parts[0]
    else parts[0] + sep + Join(parts[1..], sep)
  }

  /** Joining non-empty parts gives the empty string exactly when there are no parts. */
  lemma JoinIsEmpty(parts: seq<string>, sep: string)
    requires forall k :: 0 <= k < |parts| ==> parts[k] != ""
    ensures Join(parts, sep) == "" <==> parts == []
  {
    if |parts| > 1 {
      assert |Join(parts, sep)| >= |parts[0]|;
    }
  }

  /** Python's `s.split(c, n)`: at most `n` splits, at the first occurrences of `c`. */
  function SplitN(s: string, c: char, n: nat): (parts: seq<string>)
    ensures 1 <= |parts| <= n + 1
    ensures Count(s, c) >= n ==> |parts| == n + 1
    ensures forall k :: 0 <= k < |parts| - 1 ==> c !in parts[k]
    ensures Join(parts, [c]) == s
    decreases n
  {
    if c !in s then
      CountZero(s, c);
      [s]
    else if n == 0 then
      [s]
    else
      var i := IndexOf(s, c);
      var rest := SplitN(s[i + 1..], c, n - 1);
      CountAtFirst(s, c);
      assert ([s[..i]] + rest)[1..] == rest;
      assert s == s[..i] + [c] + s[i + 1..];
      [s[..i]] + rest
  }

  /** The text of `s` before its first `c`, or all of `s` when it holds none. */
  function Before(s: string, c: char): (r: string)
    ensures c !in r && StartsWith(s, r)
    ensures c in s ==> |r| < |s| && s[|r|] == c
  {
    if c in s then s[..IndexOf(s, c)] else s
  }

  /** Python's `s.split(c)` for a one-character separator: no piece holds `c`. */
  function Split(s: string, c: char): (parts: seq<string>)
    ensures |parts| >= 1
    ensures forall k :: 0 <= k < |parts| ==> c !in parts[k]
    ensures Join(parts, [c]) == s
    decreases |s|
  {
    if c !in s then [s]
    else
      var i := IndexOf(s, c);
      var rest := Split(s[i + 1..], c);
      assert ([s[..i]] + rest)[1..] == rest;
      assert s == s[..i] + [c] + s[i + 1..];
      [s[..i]] + rest
  }

  /** The first piece of a split is the text before the first separator; there is a second piece exactly when `c` occurs. */
  lemma SplitFirst(s: string, c: char)
    ensures Split(s, c)[0] == Before(s, c)
    ensures |Split(s, c)| >= 2 <==> c in s
    ensures c in s ==> Split(s, c)[1..] == Split(s[IndexOf(s, c) + 1..], c)
  {
  }

  /** Python's `s.replace(c, "")`: no `c` is left, and the string never grows. */
  function Remove(s: string, c: char): (r: string)
    ensures c !in r
    ensures |r| <= |s|
  {
    if |s| == 0 then ""
    else (if s[0] == c then "" else [s[0]]) + Remove(s[1..], c)
  }

  /** Exactly the `Count(s, c)` occurrences of `c` go, and a string without `c` is kept as it is. */
  lemma {:induction false} RemoveKeeps(s: string, c: char)
    ensures |Remove(s, c)| == |s| - Count(s, c)
    ensures c !in s ==> Remove(s, c) == s
    decreases |s|
  {
    if |s| > 0 {
      RemoveKeeps(s[1..], c);
      assert s == [s[0]] + s[1..];
    }
  }

  /**
   * Removal works piece by piece, and a single character is dropped exactly
   * when it is `c`: the result is the other characters of `s`, in their order.
   */
  lemma {:induction false} RemoveAppend(a: string, b: string, c: char)
    ensures Remove(a + b, c) == Remove(a, c) + Remove(b, c)
    ensures |a| == 1 ==> Remove(a, c) == (if a[0] == c then "" else a)
    decreases |a|
  {
    if |a| == 0 {
      assert a + b == b;
    } else {
      assert (a + b)[0] == a[0] && (a + b)[1..] == a[1..] + b;
      RemoveAppend(a[1..], b, c);
      if |a| == 1 {
        assert Remove(a[1..], c) == "";
      }
    }
  }

  /**
   * The characters `str.strip()` removes, restricted to the ASCII and Latin-1
   * ones: space, the C0 layout controls, the separators 0x1C-0x1F, NEL and NBSP.
   */
  predicate IsSpace(ch: char) {
    ch == ' ' || ('\t' <= ch <= '\r') || ('\U{1C}' <= ch <= '\U{1F}') || ch == '\U{85}' || ch == '\U{A0}'
  }

  /** Every character of `t` is white space. */
  predicate AllSpace(t: string) {
    forall k :: 0 <= k < |t| ==> IsSpace(t[k])
  }

  /** The number of white-space characters that start `s`. */
  function LeadingSpaces(s: string): (n: nat)
    ensures n <= |s| && AllSpace(s[..n])
    ensures n < |s| ==> !IsSpace(s[n])
    decreases |s|
  {
    if |s| > 0 && IsSpace(s[0]) then
      var n := 1 + LeadingSpaces(s[1..]);
      assert s[..n] == [s[0]] + s[1..][..n - 1];
      n
    else 0
  }

  function TrimEnd(s: string): (r: string)
    ensures |r| <= |s| && r == s[..|r|]
    ensures AllSpace(s[|r|..])
    ensures r == "" || !IsSpace(r[|r| - 1])
  {
    if |s| > 0 && IsSpace(s[|s| - 1]) then
      var r := TrimEnd(s[..|s| - 1]);
      assert s[|r|..] == s[..|s| - 1][|r|..] + [s[|s| - 1]];
      r
    else s
  }

  /**
   * Python's `s.strip()`: the piece of `s` after its leading white space, cut
   * before its trailing white space; no white space is left at either end.
   */
  function Strip(s: string): (r: string)
    ensures LeadingSpaces(s) + |r| <= |s|
    ensures r == s[LeadingSpaces(s)..LeadingSpaces(s) + |r|] && AllSpace(s[LeadingSpaces(s) + |r|..])
    ensures r == "" || (!IsSpace(r[0]) && !IsSpace(r[|r| - 1]))
  {
    var i := LeadingSpaces(s);
    var r := TrimEnd(s[i..]);
    SliceOfSlice(s, s[i..], r, i);
    r
  }

  lemma SliceOfSlice(s: string, t: string, r: string, i: nat)
    requires i <= |s| && t == s[i..] && |r| <= |t| && r == t[..|r|]
    ensures r == s[i..i + |r|] && s[i + |r|..] == t[|r|..]
  {
  }

  /** `str.lower()` on one character, restricted to ASCII letters. */
  function LowerChar(ch: char): char {
    if 'A' <= ch <= 'Z' then (ch as int - 'A' as int + 'a' as int) as char else ch
  }

  predicate IsUpper(ch: char) {
    'A' <= ch <= 'Z'
  }

  /**
   * `str.lower()`: no capital letter is left; each capital becomes the small
   * letter at the same place in the alphabet, and every other character is kept.
   */
  function Lower(s: string): (r: string)
    ensures |r| == |s|
    ensures forall i :: 0 <= i < |r| ==> !IsUpper(r[i])
    ensures forall i :: 0 <= i < |s| && !IsUpper(s[i]) ==> r[i] == s[i]
    ensures forall i :: 0 <= i < |s| && IsUpper(s[i]) ==> r[i] as int - 'a' as int == s[i] as int - 'A' as int
  {
    seq(|s|, i requires 0 <= i < |s| => LowerChar(s[i]))
  }

  /** Lower-casing twice is lower-casing once. */
  lemma LowerIdempotent(s: string)
    ensures Lower(Lower(s)) == Lower(s)
  {
  }

  /**
   * `re.sub("<open>.*?<close>", "", s, flags=re.DOTALL)`: removes, from left to
   * right, each region that starts with `open` and runs to the nearest `close`
   * after it. Once an `open` has no `close` after it, nothing further matches.
   */
  function StripRegions(s: string, open: string, close: string): (r: string)
    requires |open| > 0
    ensures |r| <= |s|
    ensures !Contains(s, open) ==> r == s
    decreases |s|
  {
    match Find(s, open)
    case None => s
    case Some(i) =>
      var body := s[i + |open|..];
      match Find(body, close)
      case None => s
      case Some(j) => s[..i] + StripRegions(body[j + |close|..], open, close)
  }
}
