/**
 * The few java.lang.String operations the core relies on, over Dafny strings
 * (sequences of Unicode scalar values).
 */
module JavaStrings {

  /** Character.isWhitespace: the Unicode space, line and paragraph separators
      except the no-break spaces, plus the ASCII controls TAB..CR and FS..US. */
  predicate IsWhitespace(c: char) {
    var n := c as int;
    || 9 <= n <= 13
    || 28 <= n <= 32
    || n == 0x1680
    || 0x2000 <= n <= 0x2006
    || 0x2008 <= n <= 0x200A
    || n == 0x2028 || n == 0x2029 || n == 0x205F || n == 0x3000
  }

  /** String.isBlank: empty or only whitespace. */
  predicate IsBlank(s: string) {
    forall i :: 0 <= i < |s| ==> IsWhitespace(s[i])
  }

  /** StringUtils.hasText on a non-null string. */
  predicate HasText(s: string) {
    !IsBlank(s)
  }

  /** The characters String.trim removes: everything up to U+0020. */
  predicate IsTrimmable(c: char) {
    c <= ' '
  }

  predicate AllTrimmable(s: string) {
    forall i :: 0 <= i < |s| ==> IsTrimmable(s[i])
  }

  /** Drops the leading characters String.trim removes. */
  function TrimStart(s: string): (r: string)
    ensures |r| <= |s| && r == s[|s| - |r|..]
    ensures r == [] || !IsTrimmable(r[0])
  {
    if |s| > 0 && IsTrimmable(s[0]) then TrimStart(s[1..]) else s
  }

  /** Drops the trailing characters String.trim removes. */
  function TrimEnd(s: string): (r: string)
    ensures |r| <= |s| && r == s[..|r|]
    ensures r == [] || !IsTrimmable(r[|r| - 1])
  {
    if |s| > 0 && IsTrimmable(s[|s| - 1]) then TrimEnd(s[..|s| - 1]) else s
  }

  /** Everything TrimStart drops is trimmable. */
  lemma {:induction false} TrimStartDropsTrimmable(s: string)
    ensures AllTrimmable(s[..|s| - |TrimStart(s)|])
  {
    if |s| > 0 && IsTrimmable(s[0]) {
      var r := TrimStart(s[1..]);
      TrimStartDropsTrimmable(s[1..]);
      assert s[..|s| - |r|] == [s[0]] + s[1..][..|s| - 1 - |r|];
    }
  }

  /** Everything TrimEnd drops is trimmable. */
  lemma {:induction false} TrimEndDropsTrimmable(s: string)
    ensures AllTrimmable(s[|TrimEnd(s)|..])
  {
    if |s| > 0 && IsTrimmable(s[|s| - 1]) {
      var r := TrimEnd(s[..|s| - 1]);
      TrimEndDropsTrimmable(s[..|s| - 1]);
      assert s[|r|..] == s[..|s| - 1][|r|..] + [s[|s| - 1]];
    }
  }

  /** String.trim. */
  function Trim(s: string): string {
    TrimEnd(TrimStart(s))
  }

  /** `s.trim().isEmpty()`, the blank test RecordService applies. */
  predicate TrimsToEmpty(s: string) {
    Trim(s) == []
  }

  lemma TrimStartOfTrimmed(s: string)
    requires s == [] || !IsTrimmable(s[0])
    ensures TrimStart(s) == s
  {
  }

  lemma TrimEndOfTrimmed(s: string)
    requires s == [] || !IsTrimmable(s[|s| - 1])
    ensures TrimEnd(s) == s
  {
  }

  /** Trimming twice is trimming once. */
  lemma TrimIdempotent(s: string)
    ensures Trim(Trim(s)) == Trim(s)
  {
    var t := TrimStart(s);
    var r := TrimEnd(t);
    assert r == [] || r[0] == t[0];
    TrimStartOfTrimmed(r);
    TrimEndOfTrimmed(r);
  }

  lemma {:induction false} TrimStartAbsorbs(w: string, s: string)
    requires AllTrimmable(w)
    ensures TrimStart(w + s) == TrimStart(s)
  {
    if w == [] {
      assert w + s == s;
    } else {
      assert (w + s)[1..] == w[1..] + s;
      TrimStartAbsorbs(w[1..], s);
    }
  }

  lemma {:induction false} TrimEndAbsorbs(s: string, w: string)
    requires AllTrimmable(w)
    ensures TrimEnd(s + w) == TrimEnd(s)
  {
    if w == [] {
      assert s + w == s;
    } else {
      var w' := w[..|w| - 1];
      assert (s + w)[..|s + w| - 1] == s + w';
      TrimEndAbsorbs(s, w');
    }
  }

  lemma {:induction false} TrimSuffixAbsorbed(s: string, w: string)
    requires AllTrimmable(w)
    ensures Trim(s + w) == Trim(s)
  {
    if s == [] {
      assert s + w == w;
      TrimStartAbsorbs(w, []);
      assert w + [] == w;
    } else if IsTrimmable(s[0]) {
      assert (s + w)[1..] == s[1..] + w;
      TrimSuffixAbsorbed(s[1..], w);
    } else {
      TrimEndAbsorbs(s, w);
    }
  }

  /** Surrounding characters that String.trim removes do not change the result. */
  lemma TrimIgnoresPadding(w1: string, s: string, w2: string)
    requires AllTrimmable(w1) && AllTrimmable(w2)
    ensures Trim(w1 + s + w2) == Trim(s)
  {
    var t := s + w2;
    assert w1 + s + w2 == w1 + t;
    TrimStartAbsorbs(w1, t);
    assert Trim(w1 + t) == TrimEnd(TrimStart(w1 + t)) == TrimEnd(TrimStart(t)) == Trim(t);
    TrimSuffixAbsorbed(s, w2);
  }

  /** Whitespace that trim keeps (such as U+3000) stays whitespace, so a blank
      string trims to a blank string. */
  lemma BlankTrimsToBlank(s: string)
    requires IsBlank(s)
    ensures IsBlank(Trim(s))
  {
    var t := TrimStart(s);
    BlankSlice(s, |s| - |t|, |s|);
    BlankSlice(t, 0, |TrimEnd(t)|);
  }

  lemma BlankSlice(s: string, i: nat, j: nat)
    requires IsBlank(s) && i <= j <= |s|
    ensures IsBlank(s[i..j])
  {
    forall k | 0 <= k < j - i ensures IsWhitespace(s[i..j][k]) {
      assert s[i..j][k] == s[i + k];
    }
  }

  /** A string with a character above U+0020 does not trim to empty. */
  lemma VisibleCharNotTrimmedAway(s: string, k: nat)
    requires k < |s| && !IsTrimmable(s[k])
    ensures !TrimsToEmpty(s)
  {
    var t := TrimStart(s);
    var d := |s| - |t|;
    TrimStartDropsTrimmable(s);
    assert k >= d;
    var r := TrimEnd(t);
    TrimEndDropsTrimmable(t);
    assert t[k - d] == s[k];
    assert |r| > k - d;
  }

  /** String.toLowerCase on the ASCII letters; other characters are kept. */
  function ToLowerChar(c: char): char {
    if 'A' <= c <= 'Z' then (c as int + 32) as char else c
  }

  function ToLower(s: string): (r: string)
    ensures |r| == |s|
    ensures forall i :: 0 <= i < |s| ==> r[i] == ToLowerChar(s[i])
  {
    if s == [] then [] else [ToLowerChar(s[0])] + ToLower(s[1..])
  }

  /** Lower-casing neither adds nor removes characters that trim drops. */
  lemma {:induction false} TrimStartCommutesWithLower(s: string)
    ensures TrimStart(ToLower(s)) == ToLower(TrimStart(s))
  {
    if s != [] {
      var l := ToLower(s);
      assert l[1..] == ToLower(s[1..]);
      TrimStartCommutesWithLower(s[1..]);
    }
  }

  lemma {:induction false} TrimEndCommutesWithLower(s: string)
    ensures TrimEnd(ToLower(s)) == ToLower(TrimEnd(s))
  {
    if s != [] {
      var l := ToLower(s);
      var p := s[..|s| - 1];
      assert l[..|l| - 1] == ToLower(p);
      TrimEndCommutesWithLower(p);
    }
  }

  lemma TrimCommutesWithLower(s: string)
    ensures Trim(ToLower(s)) == ToLower(Trim(s))
  {
    TrimStartCommutesWithLower(s);
    TrimEndCommutesWithLower(TrimStart(s));
  }

  /** Lower-casing twice is lower-casing once. */
  lemma ToLowerIdempotent(s: string)
    ensures ToLower(ToLower(s)) == ToLower(s)
  {
    var l := ToLower(s);
    assert ToLower(l) == l by {
      forall i | 0 <= i < |l| ensures ToLower(l)[i] == l[i] {
      }
    }
  }

  /** Whitespace is never an ASCII letter, so lower-casing keeps blankness. */
  lemma BlankUnderLower(s: string)
    ensures IsBlank(ToLower(s)) <==> IsBlank(s)
  {
    var l := ToLower(s);
    assert forall i :: 0 <= i < |s| ==> (IsWhitespace(l[i]) <==> IsWhitespace(s[i]));
  }

  predicate StartsWith(s: string, prefix: string) {
    |prefix| <= |s| && s[..|prefix|] == prefix
  }

  predicate EndsWith(s: string, suffix: string) {
    |suffix| <= |s| && s[|s| - |suffix|..] == suffix
  }

  predicate OccursAt(s: string, pattern: string, i: int) {
    0 <= i && i + |pattern| <= |s| && s[i..i + |pattern|] == pattern
  }

  /** String.indexOf(String): the first occurrence of `pattern` at or after
      `from`, or -1. */
  function IndexOfFrom(s: string, pattern: string, from: nat): (r: int)
    requires from <= |s|
    ensures r == -1 || (from <= r && OccursAt(s, pattern, r))
    ensures r == -1 ==> forall j :: from <= j <= |s| ==> !OccursAt(s, pattern, j)
    ensures r != -1 ==> forall j :: from <= j < r ==> !OccursAt(s, pattern, j)
    decreases |s| - from
  {
    if OccursAt(s, pattern, from) then from
    else if from == |s| then -1
    else IndexOfFrom(s, pattern, from + 1)
  }

  function IndexOf(s: string, pattern: string): (r: int)
    ensures r == -1 <==> forall j :: 0 <= j <= |s| ==> !OccursAt(s, pattern, j)
    ensures r != -1 ==> OccursAt(s, pattern, r) && forall j :: 0 <= j < r ==> !OccursAt(s, pattern, j)
  {
    IndexOfFrom(s, pattern, 0)
  }

  /** String.indexOf(char): the first position holding `c`, or -1. */
  function IndexOfChar(s: string, c: char): (r: int)
    ensures -1 <= r < |s|
    ensures r == -1 <==> c !in s
    ensures r != -1 ==> s[r] == c && c !in s[..r]
  {
    if |s| == 0 then -1
    else if s[0] == c then 0
    else
      var r := IndexOfChar(s[1..], c);
      if r == -1 then -1
      else
        assert s[..r + 1] == [s[0]] + s[1..][..r];
        r + 1
  }

  /** String.lastIndexOf(char): the last position holding `c`, or -1. */
  function LastIndexOfChar(s: string, c: char): (r: int)
    ensures -1 <= r < |s|
    ensures r == -1 <==> c !in s
    ensures r != -1 ==> s[r] == c && c !in s[r + 1..]
  {
    if |s| == 0 then -1
    else if s[|s| - 1] == c then |s| - 1
    else
      var r := LastIndexOfChar(s[..|s| - 1], c);
      if r == -1 then
        assert s == s[..|s| - 1] + [s[|s| - 1]];
        -1
      else
        assert s[r + 1..] == s[..|s| - 1][r + 1..] + [s[|s| - 1]];
        r
  }

  /** The position of a character with no earlier copy is its first index. */
  lemma IndexOfCharAt(s: string, c: char, k: nat)
    requires k < |s| && s[k] == c && c !in s[..k]
    ensures IndexOfChar(s, c) == k
  {
    assert s[k] in s;
  }

  /** The position of a character with no later copy is its last index. */
  lemma LastIndexOfCharAt(s: string, c: char, k: nat)
    requires k < |s| && s[k] == c && c !in s[k + 1..]
    ensures LastIndexOfChar(s, c) == k
  {
    assert s[k] in s;
  }

  /** String.replace(CharSequence, CharSequence): every non-overlapping
      occurrence of `target`, scanned from the left, becomes `replacement`. */
  function Replace(s: string, target: string, replacement: string): (r: string)
    requires |target| > 0
    ensures |replacement| <= |target| ==> |r| <= |s|
    decreases |s|
  {
    if |s| < |target| then s
    else if s[..|target|] == target then replacement + Replace(s[|target|..], target, replacement)
    else [s[0]] + Replace(s[1..], target, replacement)
  }

  /** A text without the target's first character has nothing to replace. */
  lemma {:induction false} ReplaceAbsent(s: string, target: string, replacement: string)
    requires |target| > 0 && target[0] !in s
    ensures Replace(s, target, replacement) == s
    decreases |s|
  {
    if |s| >= |target| {
      assert s[..|target|][0] == s[0] != target[0];
      assert s[0] in s;
      assert forall c :: c in s[1..] ==> c in s;
      ReplaceAbsent(s[1..], target, replacement);
      assert s == [s[0]] + s[1..];
    }
  }

  /** A character that cannot start the target is copied, and the scan goes on
      after it. */
  lemma ReplaceSkip(c: char, x: string, target: string, replacement: string)
    requires |target| > 0 && c != target[0]
    ensures Replace([c] + x, target, replacement) == [c] + Replace(x, target, replacement)
  {
    var s := [c] + x;
    assert s[1..] == x;
    if |s| >= |target| {
      assert s[..|target|][0] == c;
    }
  }

  /** An occurrence at the front is replaced, and the scan goes on after it. */
  lemma ReplaceHit(x: string, target: string, replacement: string)
    requires |target| > 0
    ensures Replace(target + x, target, replacement) == replacement + Replace(x, target, replacement)
  {
    var s := target + x;
    assert s[..|target|] == target;
    assert s[|target|..] == x;
  }

  /** Dropping the first character shifts every occurrence one place left. */
  lemma OccursAtShift(s: string, target: string, i: int)
    requires |s| > 0
    ensures OccursAt(s[1..], target, i) <==> i >= 0 && OccursAt(s, target, i + 1)
  {
    if i >= 0 && i + |target| <= |s[1..]| {
      assert s[1..][i..i + |target|] == s[i + 1..i + 1 + |target|];
    }
  }

  /** A text in which the target never occurs is returned unchanged. */
  lemma {:induction false} ReplaceNoOccurrence(s: string, target: string, replacement: string)
    requires |target| > 0
    requires forall i :: !OccursAt(s, target, i)
    ensures Replace(s, target, replacement) == s
    decreases |s|
  {
    if |s| >= |target| {
      assert !OccursAt(s, target, 0);
      forall i
        ensures !OccursAt(s[1..], target, i)
      {
        OccursAtShift(s, target, i);
      }
      ReplaceNoOccurrence(s[1..], target, replacement);
      assert s == [s[0]] + s[1..];
    }
  }

  /** The first occurrence of the target is replaced, the text before it is
      kept, and the scan resumes after it: occurrences do not overlap. */
  lemma {:induction false} ReplaceFirstOccurrence(a: string, b: string, target: string, replacement: string)
    requires |target| > 0
    requires forall i :: 0 <= i < |a| ==> !OccursAt(a + target, target, i)
    ensures Replace(a + target + b, target, replacement) == a + replacement + Replace(b, target, replacement)
    decreases |a|
  {
    if a == [] {
      assert a + target + b == target + b;
      ReplaceHit(b, target, replacement);
    } else {
      var s := a + target + b;
      assert !OccursAt(a + target, target, 0);
      assert (a + target)[..|target|] == s[..|target|];
      assert s[1..] == a[1..] + target + b;
      assert (a + target)[1..] == a[1..] + target;
      forall i | 0 <= i < |a[1..]|
        ensures !OccursAt(a[1..] + target, target, i)
      {
        OccursAtShift(a + target, target, i);
      }
      ReplaceFirstOccurrence(a[1..], b, target, replacement);
      assert a + replacement + Replace(b, target, replacement)
             == [a[0]] + (a[1..] + replacement + Replace(b, target, replacement));
    }
  }
}
