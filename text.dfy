/**
 * The few Python string operations the handlers rely on, written out:
 * `str.strip()`, `str.startswith`, `str.endswith`, `needle in s`,
 * `str.split(sep)` for a one-character separator and `str.lower()` on ASCII.
 */
module Text {

  /** Python's `str.isspace()` for one character (the 29 code points it accepts). */
  predicate IsSpace(c: char) {
    || ('\t' <= c <= '\r')
    || ('\U{1C}' <= c <= '\U{1F}')
    || c == ' ' || c == '\U{85}' || c == '\U{A0}' || c == '\U{1680}'
    || ('\U{2000}' <= c <= '\U{200A}')
    || c == '\U{2028}' || c == '\U{2029}' || c == '\U{202F}' || c == '\U{205F}' || c == '\U{3000}'
  }

  ghost predicate AllSpace(s: string) {
    forall i :: 0 <= i < |s| ==> IsSpace(s[i])
  }

  /** The leading half of Python's `s.strip()`: `s` without its longest all-whitespace prefix. */
  function TrimStart(s: string): (r: string)
    ensures |r| <= |s| && r == s[|s| - |r|..]
    ensures r == [] || !IsSpace(r[0])
  {
    if |s| > 0 && IsSpace(s[0]) then TrimStart(s[1..]) else s
  }

  /** What the leading half of `strip` removes is whitespace. */
  lemma {:induction false} TrimStartCuts(s: string)
    ensures AllSpace(s[..|s| - |TrimStart(s)|])
  {
    if |s| > 0 && IsSpace(s[0]) {
      TrimStartCuts(s[1..]);
      var n := |s| - |TrimStart(s)|;
      assert forall i :: 1 <= i < n ==> s[..n][i] == s[1..][..n - 1][i - 1];
    }
  }

  /** The trailing half of Python's `s.strip()`: `s` without its longest all-whitespace suffix. */
  function TrimEnd(s: string): (r: string)
    ensures |r| <= |s| && r == s[..|r|]
    ensures r == [] || !IsSpace(r[|r| - 1])
  {
    if |s| > 0 && IsSpace(s[|s| - 1]) then TrimEnd(s[..|s| - 1]) else s
  }

  /** What the trailing half of `strip` removes is whitespace. */
  lemma {:induction false} TrimEndCuts(s: string)
    ensures AllSpace(s[|TrimEnd(s)|..])
  {
    if |s| > 0 && IsSpace(s[|s| - 1]) {
      TrimEndCuts(s[..|s| - 1]);
      var n := |TrimEnd(s)|;
      assert forall i :: 0 <= i < |s| - 1 - n ==> s[n..][i] == s[..|s| - 1][n..][i];
    }
  }

  /** Python's `s.strip()`: the leading half, then the trailing half. */
  function Strip(s: string): (r: string)
    ensures |r| <= |s|
    ensures r == [] || (!IsSpace(r[0]) && !IsSpace(r[|r| - 1]))
  {
    TrimEnd(TrimStart(s))
  }

  /** A suffix `front` of `s` and a prefix `r` of `front` cut `s` into three. */
  lemma Recompose(s: string, front: string, r: string)
    requires |front| <= |s| && front == s[|s| - |front|..]
    requires |r| <= |front| && r == front[..|r|]
    ensures s == s[..|s| - |front|] + r + front[|r|..]
  {
    assert front == r + front[|r|..];
    assert s == s[..|s| - |front|] + front;
  }

  /**
   * What `strip` removes: the result is `s` with an all-whitespace prefix `pre`
   * and an all-whitespace suffix `post` cut off.
   */
  lemma StripCuts(s: string) returns (pre: string, post: string)
    ensures s == pre + Strip(s) + post && AllSpace(pre) && AllSpace(post)
  {
    var front := TrimStart(s);
    var r := TrimEnd(front);
    TrimStartCuts(s);
    TrimEndCuts(front);
    Recompose(s, front, r);
    pre, post := s[..|s| - |front|], front[|r|..];
  }

  /** Stripping keeps every character that is not whitespace. */
  lemma {:induction false} StripKeeps(s: string, c: char)
    requires c in s && !IsSpace(c)
    ensures c in Strip(s)
  {
    var pre, post := StripCuts(s);
    assert forall i :: 0 <= i < |pre| ==> pre[i] != c;
    assert forall i :: 0 <= i < |post| ==> post[i] != c;
    assert c in pre + Strip(s) + post;
  }

  /** Neither starts nor ends with whitespace. */
  predicate Trimmed(s: string) {
    s == [] || (!IsSpace(s[0]) && !IsSpace(s[|s| - 1]))
  }

  /** Stripping leaves a string that is already trimmed unchanged. */
  lemma StripTrimmed(s: string)
    requires Trimmed(s)
    ensures Strip(s) == s
  {
    assert TrimStart(s) == s;
  }

  /** Stripping a trimmed, non-empty line ends at its line break. */
  lemma StripLine(s: string)
    requires s != [] && Trimmed(s)
    ensures Strip(s + "\n") == s
  {
    var line := s + "\n";
    assert line[0] == s[0];
    assert TrimStart(line) == line;
    assert line[..|line| - 1] == s;
    assert TrimEnd(line) == TrimEnd(s);
    assert TrimEnd(s) == s;
  }

  /** Stripping twice is stripping once. */
  lemma StripIdempotent(s: string)
    ensures Strip(Strip(s)) == Strip(s)
  {
    var r := Strip(s);
    assert TrimStart(r) == r;
    assert TrimEnd(r) == r;
  }

  /** Python's `s.startswith(prefix)`. */
  predicate StartsWith(s: string, prefix: string) {
    |prefix| <= |s| && s[..|prefix|] == prefix
  }

  /** Python's `s.endswith(suffix)`. */
  predicate EndsWith(s: string, suffix: string) {
    |suffix| <= |s| && s[|s| - |suffix|..] == suffix
  }

  /** Python's `needle in s` on strings: `needle` occurs in `s` at some offset. */
  predicate Contains(s: string, needle: string) {
    exists i :: 0 <= i <= |s| && StartsWith(s[i..], needle)
  }

  /** Whatever is joined into a string occurs in it. */
  lemma ContainsJoined(pre: string, needle: string, post: string)
    ensures Contains(pre + needle + post, needle)
  {
    var s := pre + needle + post;
    assert s[|pre|..][..|needle|] == needle;
  }

  /** A string ends with what was appended last. */
  lemma EndsWithJoined(pre: string, suffix: string)
    ensures EndsWith(pre + suffix, suffix)
  {
    assert (pre + suffix)[|pre|..] == suffix;
  }

  /** Occurring in a string that occurs in `s` is occurring in `s`. */
  lemma ContainsTransitive(s: string, mid: string, needle: string)
    requires Contains(s, mid) && Contains(mid, needle)
    ensures Contains(s, needle)
  {
    var i :| 0 <= i <= |s| && StartsWith(s[i..], mid);
    var j :| 0 <= j <= |mid| && StartsWith(mid[j..], needle);
    forall k | 0 <= k < |needle|
      ensures s[i + j + k] == needle[k]
    {
      assert s[i..][j + k] == mid[j + k];
      assert mid[j..][k] == needle[k];
    }
    assert s[i + j..][..|needle|] == needle;
  }

  /** Position of the first `c` in `s`. */
  function IndexOf(s: string, c: char): (i: nat)
    requires c in s
    ensures i < |s| && s[i] == c && c !in s[..i]
  {
    if s[0] == c then 0 else 1 + IndexOf(s[1..], c)
  }

  /** A string is its part before position `k`, the character at `k`, and the rest. */
  lemma SplitAround(s: string, k: nat)
    requires k < |s|
    ensures s == s[..k] + [s[k]] + s[k + 1..]
  {
  }

  /** The first occurrence is the one with no earlier occurrence. */
  lemma IndexOfFirst(s: string, c: char, k: nat)
    requires k < |s| && s[k] == c && c !in s[..k]
    ensures IndexOf(s, c) == k
  {
    var i := IndexOf(s, c);
    assert forall j :: 0 <= j < k ==> s[j] != c by {
      forall j | 0 <= j < k ensures s[j] != c { assert s[..k][j] == s[j]; }
    }
    assert forall j :: 0 <= j < i ==> s[j] != c by {
      forall j | 0 <= j < i ensures s[j] != c { assert s[..i][j] == s[j]; }
    }
  }

  /** Python's `sep.join(parts)` for a one-character separator. */
  function Join(parts: seq<string>, sep: char): string {
    if |parts| == 0 then ""
    else if |parts| == 1 then parts[0]
    else parts[0] + [sep] + Join(parts[1..], sep)
  }

  /**
   * Python's `s.split(sep)` for a one-character separator: at least one part,
   * and no part contains the separator.
   */
  function Split(s: string, sep: char): (parts: seq<string>)
    ensures |parts| >= 1
    ensures forall k :: 0 <= k < |parts| ==> sep !in parts[k]
    decreases |s|
  {
    if sep !in s then [s]
    else
      var i := IndexOf(s, sep);
      [s[..i]] + Split(s[i + 1..], sep)
  }

  /** Joining the parts of a split gives back the string. */
  lemma {:induction false} JoinSplit(s: string, sep: char)
    ensures Join(Split(s, sep), sep) == s
    decreases |s|
  {
    if sep in s {
      var head, tail := SplitAtFirst(s, sep);
      JoinSplit(tail, sep);
      var parts := Split(s, sep);
      assert parts[1..] == Split(tail, sep);
    }
  }

  /** `s` splits into two or more parts exactly when it contains the separator. */
  lemma SplitCount(s: string, sep: char)
    ensures |Split(s, sep)| >= 2 <==> sep in s
  {
  }

  /** Splitting at a first separator peels off the part before it. */
  lemma SplitFirst(head: string, sep: char, rest: string)
    requires sep !in head
    ensures Split(head + [sep] + rest, sep) == [head] + Split(rest, sep)
  {
    var s := head + [sep] + rest;
    assert s[..|head|] == head;
    IndexOfFirst(s, sep, |head|);
    assert s[|head| + 1..] == rest;
  }

  /** Splitting what was joined gives back the parts, when no part holds the separator. */
  lemma {:induction false} SplitJoin(parts: seq<string>, sep: char)
    requires |parts| >= 1
    requires forall k :: 0 <= k < |parts| ==> sep !in parts[k]
    ensures Split(Join(parts, sep), sep) == parts
  {
    if |parts| > 1 {
      SplitJoin(parts[1..], sep);
      SplitFirst(parts[0], sep, Join(parts[1..], sep));
      assert parts == [parts[0]] + parts[1..];
    }
  }

  /**
   * `seg` starts at position `k` of `s` and is followed by a separator with no
   * separator after it, and is preceded by the start of `s` or by a separator.
   */
  predicate SegmentAt(s: string, sep: char, seg: string, k: nat) {
    && k + |seg| < |s|
    && s[k..k + |seg|] == seg
    && s[k + |seg|] == sep
    && (forall j :: k + |seg| < j < |s| ==> s[j] != sep)
    && (k == 0 || s[k - 1] == sep)
  }

  /**
   * `seg` stands between the last two separators of `s`, or between the start
   * of `s` and its only separator.
   */
  ghost predicate SecondToLastSegment(s: string, sep: char, seg: string) {
    exists k: nat :: SegmentAt(s, sep, seg, k)
  }

  /** A segment placed after a first separator moves right by the part before it. */
  lemma SegmentAtShift(s: string, head: string, sep: char, tail: string, seg: string, k: nat, at: nat)
    requires s == head + [sep] + tail && at == |head| + 1 + k
    requires SegmentAt(tail, sep, seg, k)
    ensures SegmentAt(s, sep, seg, at)
  {
    var o := |head| + 1;
    assert s[o..] == tail;
    assert s[o + k..o + k + |seg|] == tail[k..k + |seg|];
    assert s[o + k + |seg| + 1..] == tail[k + |seg| + 1..];
  }

  /** With one separator only, the segment before it starts the string. */
  lemma SegmentAtOnly(s: string, head: string, sep: char, tail: string)
    requires s == head + [sep] + tail && sep !in tail
    ensures SegmentAt(s, sep, head, 0)
  {
    assert s[..|head|] == head;
    assert s[|head| + 1..] == tail;
  }

  /** A string with a separator is split at its first one. */
  lemma SplitAtFirst(s: string, sep: char) returns (head: string, tail: string)
    requires sep in s
    ensures s == head + [sep] + tail && sep !in head && |tail| < |s|
    ensures Split(s, sep) == [head] + Split(tail, sep)
  {
    var i := IndexOf(s, sep);
    head, tail := s[..i], s[i + 1..];
    SplitAround(s, i);
    SplitFirst(head, sep, tail);
  }

  /**
   * The second-to-last part of a split is the text between the last two
   * separators; `k` is where it starts.
   */
  lemma {:induction false} SplitSecondToLast(s: string, sep: char) returns (k: nat)
    requires sep in s
    ensures |Split(s, sep)| >= 2
    ensures SegmentAt(s, sep, Split(s, sep)[|Split(s, sep)| - 2], k)
    decreases |s|
  {
    var head, tail := SplitAtFirst(s, sep);
    if sep !in tail {
      assert Split(tail, sep) == [tail];
      SegmentAtOnly(s, head, sep, tail);
      k := 0;
    } else {
      var k' := SplitSecondToLast(tail, sep);
      k := |head| + 1 + k';
      SegmentAtShift(s, head, sep, tail, Split(tail, sep)[|Split(tail, sep)| - 2], k', k);
    }
  }

  /** Python's `str.lower()` on one character; only ASCII letters change. */
  function LowerChar(c: char): char {
    if 'A' <= c <= 'Z' then (c as int + 32) as char else c
  }

  /** Python's `str.lower()` restricted to ASCII case mapping. */
  function Lower(s: string): (r: string)
    ensures |r| == |s|
    ensures forall i :: 0 <= i < |r| ==> !('A' <= r[i] <= 'Z') && (r[i] == s[i] || 'A' <= s[i] <= 'Z')
    ensures forall i :: 0 <= i < |s| && 'A' <= s[i] <= 'Z' ==> r[i] as int == s[i] as int + 32
  {
    seq(|s|, i requires 0 <= i < |s| => LowerChar(s[i]))
  }
}
