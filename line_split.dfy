/**
 * Cutting a log line at the separator "] " the way Python's
 * `line.split("] ", 2)` does (error_log_analyzer.py:132), and reading the
 * severity level as `parts[1][1:]` (error_log_analyzer.py:133).
 */
module LineSplit {

  datatype Option<T> = None | Some(value: T)

  /** The separator that closes each bracketed token of a log line. */
  const Sep: string := "] "

  /** An occurrence of `Sep` starts at index `i` of `s`. */
  predicate SepAt(s: string, i: int)
  {
    0 <= i && i + 1 < |s| && s[i] == ']' && s[i + 1] == ' '
  }

  predicate HasSep(s: string)
  {
    exists i | 0 <= i < |s| :: SepAt(s, i)
  }

  /** A string without the character ']' cannot contain the separator. */
  lemma NoBracketNoSep(s: string)
    requires ']' !in s
    ensures !HasSep(s)
  {
    forall i | 0 <= i < |s| ensures s[i] != ']' {
      assert s[i] in s;
    }
  }

  /** The leftmost occurrence of `Sep` at or after `from` (Python's `str.find`). */
  function FindFrom(s: string, from: nat): (r: Option<nat>)
    requires from <= |s|
    ensures r.Some? ==> from <= r.value && r.value + 2 <= |s|
    decreases |s| - from
  {
    if from + 1 >= |s| then None
    else if SepAt(s, from) then Some(from)
    else FindFrom(s, from + 1)
  }

  /** The leftmost occurrence of `Sep` in `s`, if any. */
  function Find(s: string): (r: Option<nat>)
    ensures r.Some? ==> r.value + 2 <= |s|
  {
    FindFrom(s, 0)
  }

  /** `FindFrom` finds an occurrence, and no occurrence lies before it. */
  lemma {:induction false} FindFromLeftmost(s: string, from: nat)
    requires from <= |s|
    ensures var r := FindFrom(s, from);
      && (r.Some? ==> SepAt(s, r.value))
      && (forall j :: from <= j && (r.None? || j < r.value) ==> !SepAt(s, j))
    decreases |s| - from
  {
    if from + 1 < |s| && !SepAt(s, from) {
      FindFromLeftmost(s, from + 1);
    }
  }

  /**
   * `Find` returns the leftmost occurrence of the separator, and returns
   * nothing exactly when there is none.
   */
  lemma FindLeftmost(s: string)
    ensures var r := Find(s);
      && (r.Some? ==> SepAt(s, r.value))
      && (r.Some? ==> forall j :: 0 <= j < r.value ==> !SepAt(s, j))
      && (r.None? <==> !HasSep(s))
  {
    FindFromLeftmost(s, 0);
  }

  /**
   * `s.split(Sep, maxsplit)`: cut at the leftmost occurrence of `Sep`, then
   * go on in the rest, at most `maxsplit` times; the last part keeps
   * whatever remains.
   */
  function SplitN(s: string, maxsplit: nat): (parts: seq<string>)
    ensures 1 <= |parts| <= maxsplit + 1
    decreases maxsplit
  {
    if maxsplit == 0 then [s]
    else match Find(s)
      case None => [s]
      case Some(i) => [s[..i]] + SplitN(s[i + 2..], maxsplit - 1)
  }

  /** `line.split("] ", 2)`. */
  function Split(line: string): (parts: seq<string>)
    ensures 1 <= |parts| <= 3
  {
    SplitN(line, 2)
  }

  /** The line splits into a single part exactly when it holds no separator. */
  lemma SplitOnePart(line: string)
    ensures |Split(line)| == 1 <==> !HasSep(line)
  {
    FindLeftmost(line);
  }

  /** `Sep.join(parts)`, the inverse of splitting. */
  function Join(parts: seq<string>): string
  {
    if parts == [] then ""
    else if |parts| == 1 then parts[0]
    else parts[0] + Sep + Join(parts[1..])
  }

  /** Python's `s[1:]`: drop the first character, if there is one. */
  function DropFirst(s: string): (r: string)
    ensures s == [] ==> r == []
    ensures s != [] ==> s == [s[0]] + r
  {
    if s == [] then [] else s[1..]
  }

  /**
   * `parts[1][1:]`: the severity level, or None where indexing `parts[1]`
   * raises IndexError.
   */
  function Level(parts: seq<string>): (r: Option<string>)
    ensures r.None? <==> |parts| < 2
    ensures r.Some? ==> if parts[1] == [] then r.value == [] else parts[1] == [parts[1][0]] + r.value
  {
    if |parts| < 2 then None else Some(DropFirst(parts[1]))
  }

  /** Joining the parts with the separator rebuilds the line exactly. */
  lemma {:induction false} SplitNJoin(s: string, maxsplit: nat)
    ensures Join(SplitN(s, maxsplit)) == s
    decreases maxsplit
  {
    if maxsplit > 0 {
      match Find(s)
      case None =>
      case Some(i) =>
        var rest := SplitN(s[i + 2..], maxsplit - 1);
        FindLeftmost(s);
        SplitNJoin(s[i + 2..], maxsplit - 1);
        assert ([s[..i]] + rest)[1..] == rest;
        assert s == s[..i] + Sep + s[i + 2..];
    }
  }

  /** A prefix that ends before the first separator holds no separator. */
  lemma PrefixBeforeSep(s: string, i: nat)
    requires i <= |s|
    requires forall j :: 0 <= j < i ==> !SepAt(s, j)
    ensures !HasSep(s[..i])
  {
    forall j | SepAt(s[..i], j) ensures SepAt(s, j) { }
  }

  /**
   * Every part but the last is free of the separator; so is the last one
   * when the split stopped early because no separator was left.
   */
  lemma {:induction false} SplitNSepFree(s: string, maxsplit: nat)
    ensures var parts := SplitN(s, maxsplit);
      && (forall k :: 0 <= k < |parts| - 1 ==> !HasSep(parts[k]))
      && (|parts| <= maxsplit ==> !HasSep(parts[|parts| - 1]))
    decreases maxsplit
  {
    FindLeftmost(s);
    if maxsplit > 0 {
      match Find(s)
      case None =>
      case Some(i) =>
        PrefixBeforeSep(s, i);
        SplitNSepFree(s[i + 2..], maxsplit - 1);
    }
  }

  /** In `a + Sep + tail` with `a` separator-free, the first separator is the one after `a`. */
  lemma FindAfterSepFree(a: string, tail: string)
    requires !HasSep(a)
    ensures Find(a + Sep + tail) == Some(|a|)
  {
    var s, n := a + Sep + tail, |a|;
    FindLeftmost(s);
    assert SepAt(s, n);
    forall j | 0 <= j < n ensures !SepAt(s, j) {
      if j + 1 < n {
        assert !SepAt(a, j);
      } else {
        assert s[j + 1] == ']';
      }
    }
  }

  /**
   * Splitting is determined by the round trip and the separator-freedom of
   * the parts: any such decomposition is the one `SplitN` computes.
   */
  lemma {:induction false} SplitNUnique(s: string, maxsplit: nat, parts: seq<string>)
    requires 1 <= |parts| <= maxsplit + 1
    requires Join(parts) == s
    requires forall k :: 0 <= k < |parts| - 1 ==> !HasSep(parts[k])
    requires |parts| <= maxsplit ==> !HasSep(parts[|parts| - 1])
    ensures SplitN(s, maxsplit) == parts
    decreases maxsplit
  {
    if |parts| == 1 {
      assert s == parts[0];
      FindLeftmost(s);
      if maxsplit > 0 {
        assert Find(s).None?;
      }
    } else {
      var a, rest := parts[0], parts[1..];
      var n := |a|;
      assert !HasSep(a);
      assert s == a + Sep + Join(rest);
      FindAfterSepFree(a, Join(rest));
      assert s[..n] == a;
      assert s[n + 2..] == Join(rest);
      forall k | 0 <= k < |rest| - 1 ensures !HasSep(rest[k]) {
        assert rest[k] == parts[k + 1];
      }
      SplitNUnique(s[n + 2..], maxsplit - 1, rest);
      assert parts == [a] + rest;
    }
  }

  /**
   * The line grammar `<a>] <b>] <rest>`: when neither `a` nor `b` holds the
   * separator, the line splits into exactly `[a, b, rest]`, whatever `rest`
   * contains.
   */
  lemma SplitThree(a: string, b: string, rest: string)
    requires !HasSep(a) && !HasSep(b)
    ensures Split(a + Sep + b + Sep + rest) == [a, b, rest]
  {
    var parts := [a, b, rest];
    assert parts[1..] == [b, rest];
    assert parts[1..][1..] == [rest];
    assert Join(parts[1..]) == b + Sep + rest;
    assert Join(parts) == a + Sep + (b + Sep + rest);
    SplitNUnique(a + Sep + b + Sep + rest, 2, parts);
  }

  /** A line `<a>] <b>` with both pieces separator-free splits into `[a, b]`. */
  lemma SplitTwo(a: string, b: string)
    requires !HasSep(a) && !HasSep(b)
    ensures Split(a + Sep + b) == [a, b]
  {
    var parts := [a, b];
    assert parts[1..] == [b];
    SplitNUnique(a + Sep + b, 2, parts);
  }

  /** Facts about `Split` gathered: 1 to 3 parts, the round trip, separator-free parts. */
  lemma SplitProperties(line: string)
    ensures var parts := Split(line);
      && 1 <= |parts| <= 3
      && Join(parts) == line
      && (forall k :: 0 <= k < |parts| - 1 ==> !HasSep(parts[k]))
      && (|parts| < 3 ==> !HasSep(parts[|parts| - 1]))
  {
    SplitNJoin(line, 2);
    SplitNSepFree(line, 2);
  }
}
