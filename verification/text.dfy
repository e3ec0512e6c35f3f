/** The Python `str` operations the core relies on: `isspace`, `lower`,
    `strip()` and `split()` with no arguments. */
module Text {

  /** `str.isspace` of one character: the ASCII whitespace 0x09-0x0D, the
      ASCII separators 0x1C-0x1F, the space, and the Unicode spaces. */
  predicate IsSpace(c: char) {
    var n := c as int;
    if n <= 0x20 then
      n == 0x20 || 0x09 <= n <= 0x0D || 0x1C <= n
    else
      (n == 0x85 || n == 0xA0 || n == 0x1680 || 0x2000 <= n <= 0x200A ||
       n == 0x2028 || n == 0x2029 || n == 0x202F || n == 0x205F || n == 0x3000)
  }

  predicate AllSpace(s: string) {
    forall i :: 0 <= i < |s| ==> IsSpace(s[i])
  }

  predicate EndsWith(s: string, suffix: string) {
    |suffix| <= |s| && s[|s| - |suffix|..] == suffix
  }

  /** `str.lower` on one character; only ASCII letters are mapped. */
  function LowerChar(c: char): (r: char)
    ensures IsSpace(r) <==> IsSpace(c)
    ensures !('A' <= r <= 'Z')
  {
    if 'A' <= c <= 'Z' then (c as int + 32) as char else c
  }

  function Lower(s: string): (r: string)
    ensures |r| == |s|
    ensures forall i :: 0 <= i < |s| ==> r[i] == LowerChar(s[i])
  {
    seq(|s|, i requires 0 <= i < |s| => LowerChar(s[i]))
  }

  lemma LowerSlice(s: string, i: nat, j: nat)
    requires i <= j <= |s|
    ensures Lower(s)[i..j] == Lower(s[i..j])
  {
  }

  /** Drops leading whitespace. */
  function TrimLeft(s: string): (r: string)
    ensures |r| <= |s| && r == s[|s| - |r|..]
    ensures AllSpace(s[..|s| - |r|])
    ensures r == [] || !IsSpace(r[0])
  {
    if s != [] && IsSpace(s[0]) then TrimLeft(s[1..]) else s
  }

  /** Drops trailing whitespace. */
  function TrimRight(s: string): (r: string)
    ensures |r| <= |s| && r == s[..|r|]
    ensures AllSpace(s[|r|..])
    ensures r == [] || !IsSpace(r[|r| - 1])
  {
    if s != [] && IsSpace(s[|s| - 1]) then TrimRight(s[..|s| - 1]) else s
  }

  /** Where the text `strip()` keeps begins. */
  function StripOffset(s: string): (i: nat)
    ensures i <= |s|
  {
    |s| - |TrimLeft(s)|
  }

  /** `str.strip()`: the slice of `s` left once the whitespace at both ends
      is gone. */
  function Strip(s: string): (r: string)
    ensures StripOffset(s) + |r| <= |s|
    ensures r == s[StripOffset(s)..StripOffset(s) + |r|]
    ensures AllSpace(s[..StripOffset(s)]) && AllSpace(s[StripOffset(s) + |r|..])
    ensures r == [] || (!IsSpace(r[0]) && !IsSpace(r[|r| - 1]))
  {
    var t := TrimLeft(s);
    var r := TrimRight(t);
    SliceOfSuffix(s, |s| - |t|, |r|);
    r
  }

  /** A prefix of the suffix starting at `i` is a slice starting at `i`, and
      what follows it is the rest of `s`. */
  lemma SliceOfSuffix(s: string, i: nat, n: nat)
    requires i + n <= |s|
    ensures s[i..][..n] == s[i..i + n]
    ensures s[i..][n..] == s[i + n..]
  {
  }

  lemma {:induction false} TrimLeftPadded(a: string, t: string)
    requires AllSpace(a)
    requires t == [] || !IsSpace(t[0])
    ensures TrimLeft(a + t) == t
    decreases |a|
  {
    if a != [] {
      assert (a + t)[1..] == a[1..] + t;
      TrimLeftPadded(a[1..], t);
    } else {
      assert a + t == t;
    }
  }

  lemma {:induction false} TrimRightPadded(t: string, b: string)
    requires AllSpace(b)
    requires t == [] || !IsSpace(t[|t| - 1])
    ensures TrimRight(t + b) == t
    decreases |b|
  {
    if b != [] {
      assert (t + b)[..|t + b| - 1] == t + b[..|b| - 1];
      TrimRightPadded(t, b[..|b| - 1]);
    } else {
      assert t + b == t;
    }
  }

  /** Whitespace around a string that starts and ends with a non-space is
      exactly what `strip()` removes. */
  lemma StripPadded(a: string, t: string, b: string)
    requires AllSpace(a) && AllSpace(b)
    requires t == [] || (!IsSpace(t[0]) && !IsSpace(t[|t| - 1]))
    ensures Strip(a + t + b) == t
  {
    if t == [] {
      assert a + t + b == a + b;
      assert AllSpace(a + b);
      AllSpaceTrimsToEmpty(a + b);
    } else {
      assert a + t + b == a + (t + b);
      TrimLeftPadded(a, t + b);
      TrimRightPadded(t, b);
    }
  }

  /** The bounds of what `strip()` keeps, named. */
  lemma StripParts(s: string) returns (i: nat, j: nat)
    ensures i <= j <= |s| && i == StripOffset(s) && j == i + |Strip(s)|
    ensures AllSpace(s[..i]) && AllSpace(s[j..]) && Strip(s) == s[i..j]
  {
    i := StripOffset(s);
    j := i + |Strip(s)|;
  }

  /** A string without whitespace at either end is its own `strip()`. */
  lemma StripUnpadded(t: string)
    requires t == [] || (!IsSpace(t[0]) && !IsSpace(t[|t| - 1]))
    ensures Strip(t) == t
  {
    StripPadded("", t, "");
    assert "" + t + "" == t;
  }

  lemma AllSpaceTrimsToEmpty(s: string)
    requires AllSpace(s)
    ensures TrimLeft(s) == []
  {
  }

  /** Length of the run of non-space characters at the start of `s`. */
  function WordLength(s: string): (n: nat)
    ensures n <= |s|
    ensures forall i :: 0 <= i < n ==> !IsSpace(s[i])
    ensures n == |s| || IsSpace(s[n])
  {
    if s == [] || IsSpace(s[0]) then 0 else 1 + WordLength(s[1..])
  }

  /** `str.split()`: the maximal runs of non-space characters, in order. */
  function Split(s: string): (words: seq<string>)
    ensures forall k :: 0 <= k < |words| ==> words[k] != [] && !IsSpace(words[k][0])
    decreases |s|
  {
    if s == [] then []
    else if IsSpace(s[0]) then Split(s[1..])
    else
      var n := WordLength(s);
      [s[..n]] + Split(s[n..])
  }

  /** `s` holds at least two whitespace-separated words. */
  predicate TwoWords(s: string) {
    exists i, j, k | 0 <= i < j < k < |s| :: WordGap(s, i, j, k)
  }

  lemma {:induction false} SplitEmptyIffAllSpace(s: string)
    ensures Split(s) == [] <==> AllSpace(s)
    decreases |s|
  {
    if s != [] && IsSpace(s[0]) {
      SplitEmptyIffAllSpace(s[1..]);
      if AllSpace(s[1..]) {
        forall i | 0 <= i < |s| ensures IsSpace(s[i]) {
          if i > 0 { assert s[i] == s[1..][i - 1]; }
        }
      }
    }
  }

  /** Three witnesses for `TwoWords`. */
  predicate WordGap(s: string, i: int, j: int, k: int) {
    0 <= i < j < k < |s| && !IsSpace(s[i]) && IsSpace(s[j]) && !IsSpace(s[k])
  }

  lemma TwoWordsSkipSpace(s: string)
    requires s != [] && IsSpace(s[0])
    ensures TwoWords(s) <==> TwoWords(s[1..])
  {
    var t := s[1..];
    if TwoWords(s) {
      var i, j, k :| 0 <= i < j < k < |s| && WordGap(s, i, j, k);
      assert WordGap(t, i - 1, j - 1, k - 1) by {
        assert t[i - 1] == s[i] && t[j - 1] == s[j] && t[k - 1] == s[k];
      }
    }
    if TwoWords(t) {
      var i, j, k :| 0 <= i < j < k < |t| && WordGap(t, i, j, k);
      assert WordGap(s, i + 1, j + 1, k + 1) by {
        assert s[i + 1] == t[i] && s[j + 1] == t[j] && s[k + 1] == t[k];
      }
    }
  }

  lemma TwoWordsAfterFirstWord(s: string)
    requires s != [] && !IsSpace(s[0])
    ensures TwoWords(s) <==> !AllSpace(s[WordLength(s)..])
  {
    var n := WordLength(s);
    var rest := s[n..];
    if TwoWords(s) {
      var i, j, k :| 0 <= i < j < k < |s| && WordGap(s, i, j, k);
      assert n <= j;
      assert rest[k - n] == s[k] && !IsSpace(rest[k - n]);
    }
    if !AllSpace(rest) {
      var k :| 0 <= k < |rest| && !IsSpace(rest[k]);
      assert 0 < n < |s| && IsSpace(s[n]);
      assert rest[k] == s[n + k];
      assert WordGap(s, 0, n, n + k);
    }
  }

  /** `len(s.split()) > 1` holds exactly when `s` has two words. */
  lemma {:induction false} SplitCountsWords(s: string)
    ensures |Split(s)| > 1 <==> TwoWords(s)
    decreases |s|
  {
    if s == [] {
    } else if IsSpace(s[0]) {
      SplitCountsWords(s[1..]);
      TwoWordsSkipSpace(s);
    } else {
      var n := WordLength(s);
      assert Split(s) == [s[..n]] + Split(s[n..]);
      SplitEmptyIffAllSpace(s[n..]);
      TwoWordsAfterFirstWord(s);
    }
  }
}
