/**
 * The line reader of error_log_analyzer.py:107-114 without its file I/O: the
 * lines the file yields are given as a sequence, and each is trimmed as
 * Python's `str.strip()` with no argument trims it.
 */
module LineReader {

  /**
   * Python's `str.isspace()` for one character: the ASCII whitespace and
   * separators \t \n \v \f \r \x1c-\x1f and space, NEL, NO-BREAK SPACE and
   * the Unicode space separators.
   */
  predicate IsSpace(c: char)
  {
    || c == ' '
    || ('\t' <= c <= '\r')
    || ('\U{1C}' <= c <= '\U{1F}')
    || c == '\U{85}'
    || c == '\U{A0}'
    || c == '\U{1680}'
    || ('\U{2000}' <= c <= '\U{200A}')
    || c == '\U{2028}'
    || c == '\U{2029}'
    || c == '\U{202F}'
    || c == '\U{205F}'
    || c == '\U{3000}'
  }

  /** Every character of `s` from `lo` up to `hi` is whitespace. */
  predicate AllSpaceIn(s: string, lo: int, hi: int)
  {
    forall k | lo <= k < hi && 0 <= k < |s| :: IsSpace(s[k])
  }

  /** The first index at or after `i` that is not whitespace, or `|s|`. */
  function SkipSpace(s: string, i: nat): (r: nat)
    requires i <= |s|
    ensures i <= r <= |s|
    decreases |s| - i
  {
    if i < |s| && IsSpace(s[i]) then SkipSpace(s, i + 1) else i
  }

  /** Moving `j` left past whitespace, not below `lo`. */
  function SkipSpaceBack(s: string, lo: nat, j: nat): (r: nat)
    requires lo <= j <= |s|
    ensures lo <= r <= j
  {
    if j > lo && IsSpace(s[j - 1]) then SkipSpaceBack(s, lo, j - 1) else j
  }

  /**
   * The bounds `i <= j` that `str.strip()` computes: `i` skips the leading
   * whitespace, then `j` moves back from the end over trailing whitespace
   * but not past `i`.
   */
  function StripBounds(s: string): (b: (nat, nat))
    ensures b.0 <= b.1 <= |s|
  {
    var i := SkipSpace(s, 0);
    (i, SkipSpaceBack(s, i, |s|))
  }

  /** `s.strip()`. */
  function Strip(s: string): (r: string)
    ensures |r| <= |s|
  {
    var b := StripBounds(s);
    s[b.0..b.1]
  }

  /** `SkipSpace` passes only whitespace and stops at a non-space or the end. */
  lemma {:induction false} SkipSpaceSpec(s: string, i: nat)
    requires i <= |s|
    ensures var r := SkipSpace(s, i);
      AllSpaceIn(s, i, r) && (r < |s| ==> !IsSpace(s[r]))
    decreases |s| - i
  {
    if i < |s| && IsSpace(s[i]) {
      SkipSpaceSpec(s, i + 1);
    }
  }

  /** `SkipSpaceBack` passes only whitespace and stops after a non-space or at `lo`. */
  lemma {:induction false} SkipSpaceBackSpec(s: string, lo: nat, j: nat)
    requires lo <= j <= |s|
    ensures var r := SkipSpaceBack(s, lo, j);
      AllSpaceIn(s, r, j) && (r > lo ==> !IsSpace(s[r - 1]))
  {
    if j > lo && IsSpace(s[j - 1]) {
      SkipSpaceBackSpec(s, lo, j - 1);
    }
  }

  /**
   * `strip` cuts `s` to the infix between its bounds: everything before and
   * after it is whitespace, and the infix is empty or neither starts nor
   * ends with whitespace.
   */
  lemma StripSpec(s: string)
    ensures var (i, j) := StripBounds(s);
      && Strip(s) == s[i..j]
      && AllSpaceIn(s, 0, i) && AllSpaceIn(s, j, |s|)
      && (i < j ==> !IsSpace(s[i]) && !IsSpace(s[j - 1]))
  {
    var i := SkipSpace(s, 0);
    SkipSpaceSpec(s, 0);
    SkipSpaceBackSpec(s, i, |s|);
  }

  /**
   * Whitespace at the ends is the only thing `Strip` removes: it is exactly
   * the identity on strings that neither start nor end with whitespace.
   */
  lemma StripIdentity(s: string)
    ensures Strip(s) == s <==> (s == [] || (!IsSpace(s[0]) && !IsSpace(s[|s| - 1])))
  {
    StripSpec(s);
    var (i, j) := StripBounds(s);
    if Strip(s) == s && s != [] {
      assert |s[i..j]| == |s|;
    }
  }

  /** Trimming twice trims no more than once. */
  lemma StripIdempotent(s: string)
    ensures Strip(Strip(s)) == Strip(s)
  {
    StripSpec(s);
    StripIdentity(Strip(s));
  }

  /** A line the file yields with its newline still on is trimmed back to its text. */
  lemma StripNewline(s: string)
    requires s != [] && !IsSpace(s[0]) && !IsSpace(s[|s| - 1])
    ensures Strip(s + "\n") == s
  {
    var t := s + "\n";
    assert t[0] == s[0] && t[|s|] == '\n' && t[|s| - 1] == s[|s| - 1];
    assert SkipSpace(t, 0) == 0;
    assert SkipSpaceBack(t, 0, |t|) == SkipSpaceBack(t, 0, |s|) == |s|;
    assert t[..|s|] == s;
  }

  /** `(line.strip() for line in file)`: every line the file yields, trimmed, in order. */
  function ReadLogFile(fileLines: seq<string>): (lines: seq<string>)
    ensures |lines| == |fileLines|
  {
    seq(|fileLines|, i requires 0 <= i < |fileLines| => Strip(fileLines[i]))
  }

  /**
   * Each line the reader yields is a piece of the file's line, the same but
   * for whitespace at the ends, and has no whitespace left at either end.
   */
  lemma ReadLinesTrimmed(fileLines: seq<string>, i: nat)
    requires i < |fileLines|
    ensures var line, raw := ReadLogFile(fileLines)[i], fileLines[i];
      && (line == [] || (!IsSpace(line[0]) && !IsSpace(line[|line| - 1])))
      && (exists lo, hi :: 0 <= lo <= hi <= |raw| && line == raw[lo..hi] && AllSpaceIn(raw, 0, lo) && AllSpaceIn(raw, hi, |raw|))
  {
    var raw := fileLines[i];
    StripSpec(raw);
    var (lo, hi) := StripBounds(raw);
    assert ReadLogFile(fileLines)[i] == raw[lo..hi];
  }
}
