/**
 * Python `str` operations used by the chat wrapper, with the semantics CPython gives them:
 * `isspace`, `strip()`, `split(sep)` with an explicit separator, `sep.join(parts)`,
 * `replace(old, new)` and the slice `s[k:]`.
 */
module PyStr {
  import opened Results

  /** `c.isspace()`: the characters CPython treats as whitespace, which `strip()` removes. */
  predicate IsSpace(c: char) {
    ('\t' <= c <= '\r') || ('\U{1C}' <= c <= ' ') || c == '\U{85}' || c == '\U{A0}' ||
    c == '\U{1680}' || ('\U{2000}' <= c <= '\U{200A}') || c == '\U{2028}' || c == '\U{2029}' ||
    c == '\U{202F}' || c == '\U{205F}' || c == '\U{3000}'
  }

  /** Neither the first nor the last character of `s` is whitespace. */
  predicate Trimmed(s: string) {
    s == [] || (!IsSpace(s[0]) && !IsSpace(s[|s| - 1]))
  }

  /** How many whitespace characters `s.lstrip()` removes from the front of `s`. */
  function LeadingSpaces(s: string): (n: nat)
    ensures n <= |s|
    ensures forall k :: 0 <= k < n ==> IsSpace(s[k])
    ensures n < |s| ==> !IsSpace(s[n])
    decreases |s|
  {
    if s != [] && IsSpace(s[0]) then 1 + LeadingSpaces(s[1..]) else 0
  }

  /** How many whitespace characters `s.rstrip()` removes from the back of `s`. */
  function TrailingSpaces(s: string): (n: nat)
    ensures n <= |s|
    ensures forall k :: |s| - n <= k < |s| ==> IsSpace(s[k])
    ensures n < |s| ==> !IsSpace(s[|s| - n - 1])
    decreases |s|
  {
    if s != [] && IsSpace(s[|s| - 1]) then 1 + TrailingSpaces(s[..|s| - 1]) else 0
  }

  /** `s.strip()`: `s` without its leading and its trailing whitespace. */
  function Strip(s: string): (r: string)
    ensures |r| <= |s|
    ensures Trimmed(r)
  {
    var t := s[LeadingSpaces(s)..];
    t[..|t| - TrailingSpaces(t)]
  }

  /** `strip()` removes whitespace at the two ends and nothing else: its result is a contiguous
      slice of `s`, and every character of `s` before or after that slice is whitespace. */
  lemma StripSlice(s: string) returns (a: nat)
    ensures a + |Strip(s)| <= |s| && Strip(s) == s[a..a + |Strip(s)|]
    ensures forall k :: 0 <= k < a ==> IsSpace(s[k])
    ensures forall k :: a + |Strip(s)| <= k < |s| ==> IsSpace(s[k])
  {
    a := LeadingSpaces(s);
    var t := s[a..];
    var n := |t| - TrailingSpaces(t);
    assert Strip(s) == t[..n] == s[a..a + n];
    forall k | a + n <= k < |s| ensures IsSpace(s[k]) {
      assert s[k] == t[k - a];
    }
  }

  /** A string without surrounding whitespace is its own `strip()`. */
  lemma {:induction false} StripTrimmed(s: string)
    requires Trimmed(s)
    ensures Strip(s) == s
  {
  }

  /** `strip()` is idempotent. */
  lemma StripIdempotent(s: string)
    ensures Strip(Strip(s)) == Strip(s)
  {
    StripTrimmed(Strip(s));
  }

  /** `p` occurs in `s` starting at index `i`. */
  predicate OccursAt(s: string, p: string, i: int) {
    0 <= i && i + |p| <= |s| && s[i..i + |p|] == p
  }

  /** `p in s`. */
  predicate Contains(s: string, p: string) {
    exists i :: 0 <= i <= |s| - |p| && OccursAt(s, p, i)
  }

  lemma OccursAtTail(s: string, p: string, j: nat)
    requires s != []
    ensures OccursAt(s[1..], p, j) <==> OccursAt(s, p, j + 1)
  {
    if j + 1 + |p| <= |s| {
      assert s[1..][j..j + |p|] == s[j + 1..j + 1 + |p|];
    }
  }

  lemma OccursAtPrefix(s: string, p: string, n: nat, j: int)
    requires n <= |s|
    ensures OccursAt(s[..n], p, j) ==> OccursAt(s, p, j)
  {
    if OccursAt(s[..n], p, j) {
      assert s[..n][j..j + |p|] == s[j..j + |p|];
    }
  }

  lemma OccursAtSuffix(s: string, p: string, n: nat, j: int)
    requires n <= |s|
    ensures OccursAt(s[n..], p, j) ==> OccursAt(s, p, n + j)
  {
    if OccursAt(s[n..], p, j) {
      assert s[n..][j..j + |p|] == s[n + j..n + j + |p|];
    }
  }

  /** What is found inside a slice of `s` is found in `s`. */
  lemma ContainsSlice(s: string, p: string, a: nat, b: nat)
    requires a <= b <= |s|
    ensures Contains(s[a..b], p) ==> Contains(s, p)
  {
    if Contains(s[a..b], p) {
      var j :| OccursAt(s[a..b], p, j);
      assert s[a..b] == s[a..][..b - a];
      OccursAtPrefix(s[a..], p, b - a, j);
      OccursAtSuffix(s, p, a, j);
    }
  }

  /** `strip()` only removes characters, so it cannot create an occurrence of `p`. */
  lemma StripContains(s: string, p: string)
    ensures Contains(Strip(s), p) ==> Contains(s, p)
  {
    var t := s[LeadingSpaces(s)..];
    assert t == s[LeadingSpaces(s)..|s|];
    ContainsSlice(s, p, LeadingSpaces(s), |s|);
    assert Strip(s) == t[0..|t| - TrailingSpaces(t)];
    ContainsSlice(t, p, 0, |t| - TrailingSpaces(t));
  }

  /** `s.find(p)`: the index of the first occurrence of `p`, if any. */
  function FindFirst(s: string, p: string): (r: Option<nat>)
    requires p != []
    ensures r.Some? ==> OccursAt(s, p, r.value) && forall j :: 0 <= j < r.value ==> !OccursAt(s, p, j)
    ensures r.None? <==> !Contains(s, p)
    decreases |s|
  {
    if |s| < |p| then
      None
    else if s[..|p|] == p then
      assert OccursAt(s, p, 0);
      Some(0)
    else
      var rest := FindFirst(s[1..], p);
      assert forall j: nat :: OccursAt(s[1..], p, j) <==> OccursAt(s, p, j + 1) by {
        forall j: nat { OccursAtTail(s, p, j); }
      }
      assert forall j :: OccursAt(s, p, j) ==> j >= 1 && OccursAt(s[1..], p, j - 1);
      match rest
      case None => None
      case Some(i) => Some(i + 1)
  }

  /** When `i` is an occurrence with none before it, `find` returns `i`. */
  lemma FindFirstIs(s: string, p: string, i: nat)
    requires p != []
    requires OccursAt(s, p, i)
    requires forall j :: 0 <= j < i ==> !OccursAt(s, p, j)
    ensures FindFirst(s, p) == Some(i)
  {
  }

  /** `find` cuts `s` into the text before the first occurrence, which holds no occurrence,
      the pattern itself, and what follows it. */
  lemma FindFirstSplits(s: string, p: string, i: nat)
    requires p != [] && FindFirst(s, p) == Some(i)
    ensures i + |p| <= |s|
    ensures !Contains(s[..i], p)
    ensures s == s[..i] + p + s[i + |p|..]
  {
    forall j | 0 <= j <= i - |p| ensures !OccursAt(s[..i], p, j) {
      OccursAtPrefix(s, p, i, j);
    }
    assert !Contains(s[..i], p);
    OccursAtCuts(s, p, i);
  }

  /** An occurrence at `i` cuts `s` into the text before it, the pattern, and the rest. */
  lemma OccursAtCuts(s: string, p: string, i: nat)
    requires OccursAt(s, p, i)
    ensures s == s[..i] + p + s[i + |p|..]
  {
    var a, b := s[..i], s[i + |p|..];
    assert |a + p + b| == |s|;
    forall k | 0 <= k < |s| ensures (a + p + b)[k] == s[k] {
      if i <= k < i + |p| {
        assert p[k - i] == s[i..i + |p|][k - i];
      }
    }
  }

  /** `s.split(sep)` for a non-empty separator: the pieces between non-overlapping occurrences
      of `sep`, scanned from the left. */
  function Split(s: string, sep: string): (parts: seq<string>)
    requires sep != []
    ensures |parts| >= 1
    ensures |parts| == 1 <==> !Contains(s, sep)
    ensures forall k :: 0 <= k < |parts| ==> !Contains(parts[k], sep)
    decreases |s|
  {
    match FindFirst(s, sep)
    case None => [s]
    case Some(i) =>
      assert !Contains(s[..i], sep) by {
        forall j | OccursAt(s[..i], sep, j) ensures false {
          OccursAtPrefix(s, sep, i, j);
        }
      }
      [s[..i]] + Split(s[i + |sep|..], sep)
  }

  /** `sep.join(parts)`. */
  function Join(sep: string, parts: seq<string>): (r: string)
    decreases |parts|
  {
    if |parts| == 0 then ""
    else if |parts| == 1 then parts[0]
    else parts[0] + sep + Join(sep, parts[1..])
  }

  /** Joining what `split` returned with the same separator gives back the string. */
  lemma {:induction false} JoinSplit(s: string, sep: string)
    requires sep != []
    ensures Join(sep, Split(s, sep)) == s
    decreases |s|
  {
    match FindFirst(s, sep)
    case None =>
    case Some(i) =>
      var rest := Split(s[i + |sep|..], sep);
      JoinSplit(s[i + |sep|..], sep);
      FindFirstSplits(s, sep, i);
      assert ([s[..i]] + rest)[1..] == rest;
  }

  /** A string without `sep` splits into itself alone. */
  lemma SplitWhole(s: string, sep: string)
    requires sep != []
    requires !Contains(s, sep)
    ensures Split(s, sep) == [s]
  {
  }

  /** `p` cannot overlap a copy of itself: no proper suffix of `p` is also a prefix of it. */
  predicate SelfDisjoint(p: string) {
    forall d :: 0 < d < |p| ==> p[d..] != p[..|p| - d]
  }

  /** A pattern whose last character occurs nowhere else in it cannot overlap itself. */
  lemma LastCharUnique(p: string)
    requires p != []
    requires forall k :: 0 <= k < |p| - 1 ==> p[k] != p[|p| - 1]
    ensures SelfDisjoint(p)
  {
    forall d | 0 < d < |p| ensures p[d..] != p[..|p| - d] {
      assert p[d..][|p| - d - 1] == p[|p| - 1];
      assert p[..|p| - d][|p| - d - 1] == p[|p| - d - 1];
    }
  }

  /** Two occurrences of `p` that overlap make a proper suffix of `p` equal to a prefix of it. */
  lemma OverlapBorder(s: string, p: string, i: nat, j: nat)
    requires OccursAt(s, p, i) && i < j < i + |p|
    ensures OccursAt(s, p, j) ==> p[j - i..] == p[..|p| - (j - i)]
  {
    if OccursAt(s, p, j) {
      var d := j - i;
      calc {
        p[d..];
        s[i..i + |p|][d..];
        s[j..i + |p|];
        s[j..j + |p|][..|p| - d];
        p[..|p| - d];
      }
    }
  }

  /** Two occurrences of a self-disjoint pattern are at least its length apart. */
  lemma NoOverlap(s: string, p: string, i: nat, j: nat)
    requires SelfDisjoint(p)
    requires OccursAt(s, p, i) && i < j < i + |p|
    ensures !OccursAt(s, p, j)
  {
    OverlapBorder(s, p, i, j);
  }

  /** `split` at the first occurrence of a self-disjoint separator that follows a piece without it. */
  lemma SplitAfter(a: string, sep: string, rest: string)
    requires sep != [] && SelfDisjoint(sep)
    requires !Contains(a, sep)
    ensures Split(a + sep + rest, sep) == [a] + Split(rest, sep)
  {
    var s := a + sep + rest;
    assert OccursAt(s, sep, |a|) by {
      assert s[|a|..|a| + |sep|] == sep;
    }
    forall j | 0 <= j < |a| ensures !OccursAt(s, sep, j) {
      if OccursAt(s, sep, j) {
        if j + |sep| <= |a| {
          assert s[j..j + |sep|] == a[j..j + |sep|];
          assert OccursAt(a, sep, j);
        } else {
          assert OccursAt(s, sep, |a|);
          assert s[|a|..|a| + |sep|] == sep;
          NoOverlap(s, sep, j, |a|);
        }
      }
    }
    FindFirstIs(s, sep, |a|);
    assert s[..|a|] == a;
    assert s[|a| + |sep|..] == rest;
  }

  /** When no character of `a` is the first character of `p`, the first occurrence of `p` in
      `a + p + b` is the one right after `a`. */
  lemma FindFirstAfter(a: string, p: string, b: string)
    requires p != [] && forall k :: 0 <= k < |a| ==> a[k] != p[0]
    ensures FindFirst(a + p + b, p) == Some(|a|)
  {
    var s := a + p + b;
    assert s[|a|..|a| + |p|] == p;
    forall j | 0 <= j < |a| ensures !OccursAt(s, p, j) {
      assert s[j] == a[j];
    }
    FindFirstIs(s, p, |a|);
  }

  /** The text of `s` before the first occurrence of `p`, or all of `s` when there is none. */
  function BeforeFirst(s: string, p: string): (t: string)
    requires p != []
    ensures t <= s && !Contains(t, p)
  {
    match FindFirst(s, p)
    case None => s
    case Some(j) =>
      FindFirstSplits(s, p, j);
      s[..j]
  }

  /** The second piece of `split` starts right after the first occurrence of a self-disjoint
      separator and runs to the next occurrence or the end. */
  lemma SplitSecondPiece(s: string, sep: string, i: nat)
    requires sep != [] && SelfDisjoint(sep) && FindFirst(s, sep) == Some(i)
    ensures i + |sep| <= |s|
    ensures |Split(s, sep)| >= 2 && Split(s, sep)[1] == BeforeFirst(s[i + |sep|..], sep)
  {
    FindFirstSplits(s, sep, i);
    var rest := s[i + |sep|..];
    SplitAfter(s[..i], sep, rest);
    match FindFirst(rest, sep)
    case None =>
      SplitWhole(rest, sep);
    case Some(j) =>
      FindFirstSplits(rest, sep, j);
      SplitAfter(rest[..j], sep, rest[j + |sep|..]);
  }

  /** `s.replace(pat, repl)` for a non-empty `pat`: CPython's replacement scans from the left and
      replaces non-overlapping occurrences, which is `repl.join(s.split(pat))`. */
  function Replace(s: string, pat: string, repl: string): (r: string)
    requires pat != []
  {
    Join(repl, Split(s, pat))
  }

  /** A string that does not contain the pattern comes back from `replace` unchanged. */
  lemma ReplaceAbsent(s: string, pat: string, repl: string)
    requires pat != [] && !Contains(s, pat)
    ensures Replace(s, pat, repl) == s
  {
    SplitWhole(s, pat);
  }

  /** The number of characters in all parts together. */
  function TotalLength(parts: seq<string>): nat
    decreases |parts|
  {
    if parts == [] then 0 else |parts[0]| + TotalLength(parts[1..])
  }

  lemma {:induction false} JoinLength(sep: string, parts: seq<string>)
    requires |parts| >= 1
    ensures |Join(sep, parts)| == TotalLength(parts) + (|parts| - 1) * |sep|
    decreases |parts|
  {
    if |parts| > 1 {
      JoinLength(sep, parts[1..]);
    }
  }

  /** Replacing `pat` by `repl` changes the length by `|repl| - |pat|` per piece boundary. */
  lemma ReplaceLength(s: string, pat: string, repl: string)
    requires pat != []
    ensures |Replace(s, pat, repl)| + (|Split(s, pat)| - 1) * |pat| == |s| + (|Split(s, pat)| - 1) * |repl|
  {
    JoinSplit(s, pat);
    JoinLengthDiff(pat, repl, Split(s, pat));
  }

  /** Joining the same parts with two separators: the lengths differ by the separators' length
      difference per boundary. */
  lemma JoinLengthDiff(a: string, b: string, parts: seq<string>)
    requires |parts| >= 1
    ensures |Join(b, parts)| + (|parts| - 1) * |a| == |Join(a, parts)| + (|parts| - 1) * |b|
  {
    JoinLength(a, parts);
    JoinLength(b, parts);
  }

  /** The number of indices at which `p` occurs in `s`, overlapping occurrences included. */
  function Occurrences(s: string, p: string): nat
    requires p != []
    decreases |s|
  {
    if |s| < |p| then 0
    else (if s[..|p|] == p then 1 else 0) + Occurrences(s[1..], p)
  }

  /** Dropping a prefix in which `p` does not start keeps the count. */
  lemma {:induction false} OccurrencesSkip(s: string, p: string, k: nat)
    requires p != [] && k <= |s|
    requires forall j :: 0 <= j < k ==> !OccursAt(s, p, j)
    ensures Occurrences(s, p) == Occurrences(s[k..], p)
    decreases k
  {
    if k > 0 {
      if |s| >= |p| {
        assert !OccursAt(s, p, 0);
      }
      forall j | 0 <= j < k - 1 ensures !OccursAt(s[1..], p, j) {
        OccursAtTail(s, p, j);
      }
      OccurrencesSkip(s[1..], p, k - 1);
      assert s[1..][k - 1..] == s[k..];
    }
  }

  /** For a self-disjoint separator, `split` has one piece more than there are occurrences. */
  lemma {:induction false} SplitCountsOccurrences(s: string, p: string)
    requires p != [] && SelfDisjoint(p)
    ensures |Split(s, p)| - 1 == Occurrences(s, p)
    decreases |s|
  {
    match FindFirst(s, p)
    case None =>
      forall j | 0 <= j <= |s| ensures !OccursAt(s, p, j) { }
      OccurrencesSkip(s, p, |s|);
      assert s[|s|..] == [];
    case Some(i) =>
      OccurrencesAfterFirst(s, p, i);
      SplitCountsOccurrences(s[i + |p|..], p);
  }

  /** The first occurrence of a self-disjoint pattern counts once, and no other occurrence
      starts before its end. */
  lemma OccurrencesAfterFirst(s: string, p: string, i: nat)
    requires p != [] && SelfDisjoint(p) && FindFirst(s, p) == Some(i)
    ensures Occurrences(s, p) == 1 + Occurrences(s[i + |p|..], p)
  {
    OccurrencesSkip(s, p, i);
    var t := s[i..];
    assert Occurrences(s, p) == Occurrences(t, p);
    assert t[..|p|] == p by { assert t[..|p|] == s[i..i + |p|]; }
    assert Occurrences(t, p) == 1 + Occurrences(t[1..], p);
    NoOccurrenceInsideFirst(s, p, i, t[1..]);
    OccurrencesSkip(t[1..], p, |p| - 1);
    assert t[1..][|p| - 1..] == s[i + |p|..];
  }

  /** No occurrence of a self-disjoint pattern starts strictly inside an occurrence at `i`:
      the text `t` after its first character holds none among its first `|p| - 1` positions. */
  lemma NoOccurrenceInsideFirst(s: string, p: string, i: nat, t: string)
    requires p != [] && SelfDisjoint(p) && OccursAt(s, p, i) && t == s[i + 1..]
    ensures forall j :: 0 <= j < |p| - 1 ==> !OccursAt(t, p, j)
  {
    forall j | 0 <= j < |p| - 1 ensures !OccursAt(t, p, j) {
      OccursAtSuffix(s, p, i + 1, j);
      NoOverlap(s, p, i, i + 1 + j);
    }
  }

  /** The index at which the slice `s[k:]` of a sequence of length `len` starts: a negative
      `k` counts from the end, and either kind is clamped to `0..len`. */
  function SliceStart(len: nat, k: int): (i: nat)
    ensures i <= len
    ensures 0 <= k <= len ==> i == k
    ensures k > len ==> i == len
    ensures k < 0 && len + k >= 0 ==> i == len + k
    ensures len + k < 0 ==> i == 0
  {
    if k >= 0 then (if k <= len then k else len)
    else if -k <= len then len + k
    else 0
  }

  /** `s[k:]`: the elements from index `k` on, or the last `-k` elements for a negative `k`,
      clamped to what `s` has. */
  function SliceFrom<T>(s: seq<T>, k: int): (r: seq<T>)
    ensures 0 <= k <= |s| ==> |r| == |s| - k
    ensures k < 0 && -k <= |s| ==> |r| == -k
    ensures k >= |s| ==> r == []
    ensures k < 0 && -k >= |s| ==> r == s
  {
    s[SliceStart(|s|, k)..]
  }

  /** `s[k:]` is always a suffix of `s`. */
  lemma SliceFromSuffix<T>(s: seq<T>, k: int)
    ensures |SliceFrom(s, k)| <= |s| && SliceFrom(s, k) == s[|s| - |SliceFrom(s, k)|..]
  {
  }

  /** Everything written by a series of `write` calls, in order. */
  function Concat(chunks: seq<string>): string
    decreases |chunks|
  {
    if chunks == [] then "" else chunks[0] + Concat(chunks[1..])
  }

  lemma {:induction false} ConcatAppend(a: seq<string>, b: seq<string>)
    ensures Concat(a + b) == Concat(a) + Concat(b)
    decreases |a|
  {
    if a != [] {
      assert (a + b)[0] == a[0] && (a + b)[1..] == a[1..] + b;
      ConcatAppend(a[1..], b);
      calc {
        Concat(a + b);
        a[0] + Concat(a[1..] + b);
        a[0] + (Concat(a[1..]) + Concat(b));
        (a[0] + Concat(a[1..])) + Concat(b);
      }
    } else {
      assert a + b == b;
    }
  }
}
