/** The string operations of Python the pipeline relies on, written out on
    `seq<char>`: `str(int)`, `str.strip()`, `s.split(c)[-1]`, `s.split(c)[0]`
    and `str.startswith`. */
module Text {

  predicate IsDigit(c: char) {
    '0' <= c <= '9'
  }

  function DigitChar(d: nat): (c: char)
    requires d < 10
    ensures IsDigit(c) && c as int - '0' as int == d
  {
    ('0' as int + d) as char
  }

  /** `str(n)` for a non-negative integer: decimal digits, no leading zero. */
  function NatToString(n: nat): (s: string)
    ensures |s| > 0
    ensures forall i :: 0 <= i < |s| ==> IsDigit(s[i])
    ensures n >= 10 ==> |s| >= 2
    decreases n
  {
    if n < 10 then [DigitChar(n)] else NatToString(n / 10) + [DigitChar(n % 10)]
  }

  /** Different numbers print differently, so ids and file names built from
      page indices never collide. */
  lemma {:induction false} NatToStringInjective(a: nat, b: nat)
    requires NatToString(a) == NatToString(b)
    ensures a == b
    decreases a
  {
    var s := NatToString(a);
    if a < 10 && b < 10 {
      assert s == [DigitChar(a)] && s == [DigitChar(b)];
    } else if a >= 10 && b >= 10 {
      var pa, pb := NatToString(a / 10), NatToString(b / 10);
      assert s == pa + [DigitChar(a % 10)];
      assert s == pb + [DigitChar(b % 10)];
      assert DigitChar(a % 10) == s[|s| - 1] == DigitChar(b % 10);
      assert pa == s[..|s| - 1] == pb;
      NatToStringInjective(a / 10, b / 10);
    }
  }

  /** `str(i)` for any integer. */
  function IntToString(i: int): string {
    if i < 0 then "-" + NatToString(-i) else NatToString(i)
  }

  predicate StartsWith(s: string, prefix: string) {
    |prefix| <= |s| && s[..|prefix|] == prefix
  }

  /** `os.path.join(directory, name)` on POSIX: an absolute `name` replaces
      the directory; otherwise a `/` separates them unless the directory is
      empty or already ends in one. */
  function JoinPath(directory: string, name: string): string {
    if 0 < |name| && name[0] == '/' then name
    else if directory == [] || directory[|directory| - 1] == '/' then directory + name
    else directory + "/" + name
  }

  /** The characters for which Python's `str.isspace()` holds; `str.strip()`
      with no argument removes exactly these from both ends. */
  predicate IsSpace(c: char) {
    || '\U{0009}' <= c <= '\U{000D}'
    || '\U{001C}' <= c <= '\U{0020}'
    || c == '\U{0085}' || c == '\U{00A0}' || c == '\U{1680}'
    || '\U{2000}' <= c <= '\U{200A}'
    || c == '\U{2028}' || c == '\U{2029}' || c == '\U{202F}' || c == '\U{205F}' || c == '\U{3000}'
  }

  /** The first index at or after `i` whose character is not white space,
      or `|s|`. */
  function SkipSpace(s: string, i: nat): (n: nat)
    requires i <= |s|
    ensures i <= n <= |s|
    ensures forall k :: i <= k < n ==> IsSpace(s[k])
    ensures n < |s| ==> !IsSpace(s[n])
    decreases |s| - i
  {
    if i == |s| || !IsSpace(s[i]) then i else SkipSpace(s, i + 1)
  }

  /** Going left from `j` but not past `lo`: the index just after the last
      character that is not white space, or `lo`. */
  function SkipSpaceBack(s: string, lo: nat, j: nat): (n: nat)
    requires lo <= j <= |s|
    ensures lo <= n <= j
    ensures forall k :: n <= k < j ==> IsSpace(s[k])
    ensures n > lo ==> !IsSpace(s[n - 1])
    decreases j
  {
    if j == lo || !IsSpace(s[j - 1]) then j else SkipSpaceBack(s, lo, j - 1)
  }

  /** `s.strip()`: `s` without its leading and trailing white space. */
  function Strip(s: string): string {
    var lo := SkipSpace(s, 0);
    s[lo..SkipSpaceBack(s, lo, |s|)]
  }

  /** What `strip()` keeps is a contiguous part of `s` that neither starts
      nor ends with white space, and everything it cuts off around that part
      is white space. */
  lemma StripKeepsMiddle(s: string)
    ensures var lo := SkipSpace(s, 0); var hi := SkipSpaceBack(s, lo, |s|);
      && Strip(s) == s[lo..hi]
      && (forall k :: 0 <= k < lo || hi <= k < |s| ==> IsSpace(s[k]))
      && (lo < hi ==> !IsSpace(s[lo]) && !IsSpace(s[hi - 1]))
  {
  }

  /** `strip()` keeps nothing exactly when `s` is all white space. */
  lemma StripEmptyIffAllSpace(s: string)
    ensures Strip(s) == [] <==> forall k :: 0 <= k < |s| ==> IsSpace(s[k])
  {
    var lo := SkipSpace(s, 0);
    var hi := SkipSpaceBack(s, lo, |s|);
    if lo < hi {
      assert Strip(s)[0] == s[lo];
    } else {
      assert lo == |s|;
    }
  }

  /** The first index at or after `i` where `s` holds `c`, or `|s|`. */
  function IndexOf(s: string, c: char, i: nat): (n: nat)
    requires i <= |s|
    ensures i <= n <= |s|
    ensures forall k :: i <= k < n ==> s[k] != c
    ensures n < |s| ==> s[n] == c
    decreases |s| - i
  {
    if i == |s| || s[i] == c then i else IndexOf(s, c, i + 1)
  }

  /** Where the last `c`-separated segment of `s[..j]` starts: just after
      the last `c` before `j`, or 0 when there is none. */
  function SegmentStart(s: string, c: char, j: nat): (n: nat)
    requires j <= |s|
    ensures n <= j
    ensures forall k :: n <= k < j ==> s[k] != c
    ensures n > 0 ==> s[n - 1] == c
    decreases j
  {
    if j == 0 || s[j - 1] == c then j else SegmentStart(s, c, j - 1)
  }

  /** `s.split(c)[-1]`: everything after the last `c`, or all of `s` when it
      holds no `c`. */
  function AfterLast(s: string, c: char): string {
    s[SegmentStart(s, c, |s|)..]
  }

  /** `s.split(c)[0]`: everything before the first `c`, or all of `s` when
      it holds no `c`. */
  function BeforeFirst(s: string, c: char): string {
    s[..IndexOf(s, c, 0)]
  }

  /** `AfterLast` looks no further left than the last `c`: whatever precedes a
      `c` does not matter. */
  lemma AfterLastAfterSeparator(p: string, c: char, s: string)
    requires c !in s
    ensures AfterLast(p + [c] + s, c) == s
  {
    var w := p + [c] + s;
    var n := SegmentStart(w, c, |w|);
    assert w[|p|] == c;
    assert w[|p| + 1..] == s;
  }

  /** A string without `c` is its own last `c`-segment. */
  lemma AfterLastWithout(s: string, c: char)
    requires c !in s
    ensures AfterLast(s, c) == s
  {
    var n := SegmentStart(s, c, |s|);
  }

  /** `BeforeFirst` stops at the first `c`: whatever follows it does not matter. */
  lemma BeforeFirstBeforeSeparator(s: string, c: char, q: string)
    requires c !in s
    ensures BeforeFirst(s + [c] + q, c) == s
  {
    var w := s + [c] + q;
    var n := IndexOf(w, c, 0);
    assert w[|s|] == c;
    assert w[..|s|] == s;
  }

  /** A string without `c` is its own first `c`-segment. */
  lemma BeforeFirstWithout(s: string, c: char)
    requires c !in s
    ensures BeforeFirst(s, c) == s
  {
    var n := IndexOf(s, c, 0);
  }
}
