/**
 * The error aggregator `count_error_messages` (error_log_analyzer.py:120-146):
 * one pass over the trimmed lines that counts every line, counts the lines
 * whose level is "ERROR", and tallies their messages; a line on which
 * indexing the split parts raises IndexError is skipped with a warning.
 */
module Aggregator {
  import opened LineSplit
  import opened LineReader
  import opened Tallies

  /** What the loop body of error_log_analyzer.py:130-141 does with one line. */
  datatype LineOutcome =
    | Malformed                     // `parts[1]` raises: only a warning
    | NotError                      // a level was read and it is not "ERROR"
    | ErrorWithoutMessage           // level "ERROR", then `parts[2]` raises: a warning
    | ErrorMessage(message: string) // level "ERROR" and the message is tallied

  /** The outcome of one line, following the order of the statements in the source. */
  function Classify(line: string): LineOutcome
  {
    var parts := Split(line);
    match Level(parts)
    case None => Malformed
    case Some(level) =>
      if level != "ERROR" then NotError
      else if |parts| < 3 then ErrorWithoutMessage
      else ErrorMessage(parts[2])
  }

  /** The line bumps `error_lines` (line 136). */
  predicate IsErrorLine(o: LineOutcome)
  {
    o.ErrorWithoutMessage? || o.ErrorMessage?
  }

  /** The line reaches the `except IndexError` handler and logs a warning (line 141). */
  predicate Warns(o: LineOutcome)
  {
    o.Malformed? || o.ErrorWithoutMessage?
  }

  predicate IsMalformed(o: LineOutcome) { o.Malformed? }

  predicate IsNotError(o: LineOutcome) { o.NotError? }

  /** The three variables of the loop: the tally and the two line counters. */
  datatype Summary = Summary(errorCounter: Tally, totalLines: nat, errorLines: nat)

  /** One iteration of the loop at error_log_analyzer.py:129-141, given what the line turned out to be. */
  function Apply(s: Summary, o: LineOutcome): Summary
  {
    match o
    case Malformed => s.(totalLines := s.totalLines + 1)
    case NotError => s.(totalLines := s.totalLines + 1)
    case ErrorWithoutMessage => s.(totalLines := s.totalLines + 1, errorLines := s.errorLines + 1)
    case ErrorMessage(m) => Summary(Increment(s.errorCounter, m), s.totalLines + 1, s.errorLines + 1)
  }

  /** One iteration of the loop on one line. */
  function Step(s: Summary, line: string): Summary
  {
    Apply(s, Classify(line))
  }

  /** The outcome of each line, in order. */
  function Outcomes(lines: seq<string>): (os: seq<LineOutcome>)
    ensures |os| == |lines|
  {
    seq(|lines|, i requires 0 <= i < |lines| => Classify(lines[i]))
  }

  /** The state after the loop has consumed the first `n` outcomes, from an empty tally. */
  function AnalyzeFirst(os: seq<LineOutcome>, n: nat): Summary
    requires n <= |os|
  {
    if n == 0 then Summary(Empty(), 0, 0)
    else Apply(AnalyzeFirst(os, n - 1), os[n - 1])
  }

  /** The state after the loop has consumed every line. */
  function Analyze(lines: seq<string>): Summary
  {
    AnalyzeFirst(Outcomes(lines), |lines|)
  }

  /** The number of outcomes among the first `n` that satisfy `p`. */
  function CountFirst(os: seq<LineOutcome>, n: nat, p: LineOutcome -> bool): (c: nat)
    requires n <= |os|
    ensures c <= n
  {
    if n == 0 then 0
    else CountFirst(os, n - 1, p) + (if p(os[n - 1]) then 1 else 0)
  }

  /** The number of lines whose outcome satisfies `p`. */
  function CountLines(lines: seq<string>, p: LineOutcome -> bool): nat
  {
    CountFirst(Outcomes(lines), |lines|, p)
  }

  /** The messages of the tallied outcomes among the first `n`, in order. */
  function MessagesFirst(os: seq<LineOutcome>, n: nat): seq<string>
    requires n <= |os|
  {
    if n == 0 then []
    else MessagesFirst(os, n - 1) + (if os[n - 1].ErrorMessage? then [os[n - 1].message] else [])
  }

  /** The messages of all tallied lines, in input order. */
  function Messages(lines: seq<string>): seq<string>
  {
    MessagesFirst(Outcomes(lines), |lines|)
  }

  /** The distinct elements of `xs`, each at the place of its first occurrence. */
  function FirstOccurrences(xs: seq<string>): (r: seq<string>)
    ensures forall i, j :: 0 <= i < j < |r| ==> r[i] != r[j]
    ensures forall x :: x in r <==> x in xs
  {
    if xs == [] then []
    else
      var init := xs[..|xs| - 1];
      var last := xs[|xs| - 1];
      if last in init then FirstOccurrences(init)
      else FirstOccurrences(init) + [last]
  }

  /**
   * The loop, written as the source writes it, proved equal to `Analyze` on
   * the trimmed lines; from that, what it computes: every line is counted,
   * `error_lines` counts the ERROR lines, each message's count is its number
   * of tallied lines, the keys come in first-occurrence order, and the
   * counters bound each other.
   */
  method CountErrorMessages(fileLines: seq<string>) returns (errorCounter: Tally, totalLines: nat, errorLines: nat)
    ensures Summary(errorCounter, totalLines, errorLines) == Analyze(ReadLogFile(fileLines))
    ensures errorCounter.Valid() && errorCounter.Positive()
    ensures totalLines == |fileLines|
    ensures errorLines == CountLines(ReadLogFile(fileLines), IsErrorLine)
    ensures forall m :: Get(errorCounter, m) == multiset(Messages(ReadLogFile(fileLines)))[m]
    ensures errorCounter.keys == FirstOccurrences(Messages(ReadLogFile(fileLines)))
    ensures Total(errorCounter) == |Messages(ReadLogFile(fileLines))| <= errorLines <= totalLines
  {
    var lines := ReadLogFile(fileLines);
    ghost var os := Outcomes(lines);
    errorCounter := Empty();
    totalLines := 0;
    errorLines := 0;
    var i := 0;
    while i < |lines|
      invariant 0 <= i <= |lines|
      invariant Summary(errorCounter, totalLines, errorLines) == AnalyzeFirst(os, i)
    {
      errorCounter, totalLines, errorLines := CountLine(errorCounter, totalLines, errorLines, lines[i]);
      AnalyzeNext(lines, i);
      i := i + 1;
    }
    AnalyzeMeaning(lines);
  }

  /**
   * The body of the loop (error_log_analyzer.py:130-141) as the source
   * writes it: count the line, split it, read the level, and on "ERROR"
   * count the line and tally its message; it does what `Step` does.
   */
  method CountLine(errorCounter0: Tally, totalLines0: nat, errorLines0: nat, line: string)
    returns (errorCounter: Tally, totalLines: nat, errorLines: nat)
    ensures Summary(errorCounter, totalLines, errorLines) == Step(Summary(errorCounter0, totalLines0, errorLines0), line)
  {
    errorCounter, errorLines := errorCounter0, errorLines0;
    totalLines := totalLines0 + 1;
    var parts := Split(line);
    if |parts| >= 2 {
      var level := DropFirst(parts[1]);
      if level == "ERROR" {
        errorLines := errorLines + 1;
        if |parts| >= 3 {
          var message := parts[2];
          errorCounter := Increment(errorCounter, message);
        }
        // otherwise `parts[2]` raises IndexError: a warning, nothing tallied
      }
    }
    // otherwise `parts[1]` raises IndexError: a warning, the line is skipped
    StepAsWritten(Summary(errorCounter0, totalLines0, errorLines0), line);
  }

  /** One iteration spelled out with the tests of lines 133-137 in their order. */
  lemma StepAsWritten(s: Summary, line: string)
    ensures var parts := Split(line);
      Step(s, line) ==
        if |parts| >= 2 && DropFirst(parts[1]) == "ERROR" then
          if |parts| >= 3 then Summary(Increment(s.errorCounter, parts[2]), s.totalLines + 1, s.errorLines + 1)
          else s.(totalLines := s.totalLines + 1, errorLines := s.errorLines + 1)
        else s.(totalLines := s.totalLines + 1)
  {
  }

  /** Consuming one more line is one more `Step`. */
  lemma AnalyzeNext(lines: seq<string>, i: nat)
    requires i < |lines|
    ensures AnalyzeFirst(Outcomes(lines), i + 1) == Step(AnalyzeFirst(Outcomes(lines), i), lines[i])
  {
  }

  /** The tally stays well formed, and each of its counts stays at least 1. */
  lemma {:induction false} AnalyzeValid(os: seq<LineOutcome>, n: nat)
    requires n <= |os|
    ensures AnalyzeFirst(os, n).errorCounter.Valid()
    ensures AnalyzeFirst(os, n).errorCounter.Positive()
  {
    if n > 0 {
      AnalyzeValid(os, n - 1);
      if os[n - 1].ErrorMessage? {
        IncrementValid(AnalyzeFirst(os, n - 1).errorCounter, os[n - 1].message);
      }
    }
  }

  /** Every line is counted in `total_lines`, and `error_lines` counts the ERROR lines. */
  lemma {:induction false} AnalyzeLineCounts(os: seq<LineOutcome>, n: nat)
    requires n <= |os|
    ensures AnalyzeFirst(os, n).totalLines == n
    ensures AnalyzeFirst(os, n).errorLines == CountFirst(os, n, IsErrorLine)
  {
    if n > 0 {
      AnalyzeLineCounts(os, n - 1);
    }
  }

  /** Each message's count is its multiplicity among the tallied messages. */
  lemma {:induction false} AnalyzeCounts(os: seq<LineOutcome>, n: nat)
    requires n <= |os|
    ensures forall m :: Get(AnalyzeFirst(os, n).errorCounter, m) == multiset(MessagesFirst(os, n))[m]
  {
    if n > 0 {
      AnalyzeCounts(os, n - 1);
      var t := AnalyzeFirst(os, n - 1).errorCounter;
      var msgs := MessagesFirst(os, n - 1);
      if os[n - 1].ErrorMessage? {
        var m := os[n - 1].message;
        IncrementGet(t, m);
        assert MessagesFirst(os, n) == msgs + [m];
        assert AnalyzeFirst(os, n).errorCounter == Increment(t, m);
      } else {
        assert MessagesFirst(os, n) == msgs;
        assert AnalyzeFirst(os, n).errorCounter == t;
      }
    }
  }

  /** The sum of the counts is the number of tallied lines. */
  lemma {:induction false} AnalyzeTotal(os: seq<LineOutcome>, n: nat)
    requires n <= |os|
    ensures Total(AnalyzeFirst(os, n).errorCounter) == |MessagesFirst(os, n)|
  {
    if n > 0 {
      AnalyzeTotal(os, n - 1);
      AnalyzeValid(os, n - 1);
      if os[n - 1].ErrorMessage? {
        IncrementTotal(AnalyzeFirst(os, n - 1).errorCounter, os[n - 1].message);
      }
    }
  }

  /** Appending an element adds it to the first occurrences only if it is new. */
  lemma FirstOccurrencesSnoc(xs: seq<string>, x: string)
    ensures FirstOccurrences(xs + [x]) == if x in xs then FirstOccurrences(xs) else FirstOccurrences(xs) + [x]
  {
    var all := xs + [x];
    assert all[..|all| - 1] == xs;
  }

  /** Tallying one more message keeps the keys in first-occurrence order. */
  lemma KeysSnoc(t: Tally, msgs: seq<string>, m: string)
    requires t.Valid()
    requires t.keys == FirstOccurrences(msgs)
    ensures Increment(t, m).keys == FirstOccurrences(msgs + [m])
  {
    FirstOccurrencesSnoc(msgs, m);
    IncrementValid(t, m);
    assert m in t.keys <==> m in msgs;
  }

  /** The keys of the tally are the tallied messages in first-occurrence order. */
  lemma {:induction false} AnalyzeKeys(os: seq<LineOutcome>, n: nat)
    requires n <= |os|
    ensures AnalyzeFirst(os, n).errorCounter.keys == FirstOccurrences(MessagesFirst(os, n))
  {
    if n > 0 {
      AnalyzeKeys(os, n - 1);
      var t := AnalyzeFirst(os, n - 1).errorCounter;
      var msgs := MessagesFirst(os, n - 1);
      if os[n - 1].ErrorMessage? {
        var m := os[n - 1].message;
        AnalyzeValid(os, n - 1);
        KeysSnoc(t, msgs, m);
        assert MessagesFirst(os, n) == msgs + [m];
        assert AnalyzeFirst(os, n).errorCounter == Increment(t, m);
      } else {
        assert MessagesFirst(os, n) == msgs;
        assert AnalyzeFirst(os, n).errorCounter == t;
      }
    }
  }

  /** Tallied lines are ERROR lines. */
  lemma {:induction false} MessagesAreErrorLines(os: seq<LineOutcome>, n: nat)
    requires n <= |os|
    ensures |MessagesFirst(os, n)| <= CountFirst(os, n, IsErrorLine)
  {
    if n > 0 {
      MessagesAreErrorLines(os, n - 1);
    }
  }

  /**
   * What the aggregation computes, against independent definitions: every
   * line counted, the ERROR lines counted, each message's count its number
   * of tallied lines, the keys in first-occurrence order, and the sum of the
   * counts at most `error_lines`, itself at most `total_lines`.
   */
  lemma AnalyzeMeaning(lines: seq<string>)
    ensures var r := Analyze(lines);
      && r.errorCounter.Valid() && r.errorCounter.Positive()
      && r.totalLines == |lines|
      && r.errorLines == CountLines(lines, IsErrorLine)
      && (forall m :: Get(r.errorCounter, m) == multiset(Messages(lines))[m])
      && r.errorCounter.keys == FirstOccurrences(Messages(lines))
      && Total(r.errorCounter) == |Messages(lines)| <= r.errorLines <= r.totalLines
  {
    var os := Outcomes(lines);
    AnalyzeValid(os, |lines|);
    AnalyzeLineCounts(os, |lines|);
    AnalyzeCounts(os, |lines|);
    AnalyzeTotal(os, |lines|);
    AnalyzeKeys(os, |lines|);
    MessagesAreErrorLines(os, |lines|);
  }

  /**
   * Every line is an ERROR line, a well-formed non-ERROR line or a malformed
   * one; the warnings are the malformed lines plus the ERROR lines that have
   * no message part.
   */
  lemma {:induction false} PartitionFirst(os: seq<LineOutcome>, n: nat)
    requires n <= |os|
    ensures n == CountFirst(os, n, IsErrorLine) + CountFirst(os, n, IsNotError) + CountFirst(os, n, IsMalformed)
    ensures CountFirst(os, n, Warns) == CountFirst(os, n, IsMalformed) + CountFirst(os, n, IsErrorLine) - |MessagesFirst(os, n)|
  {
    if n > 0 {
      PartitionFirst(os, n - 1);
    }
  }

  /** `PartitionFirst` for the whole input. */
  lemma LinesPartition(lines: seq<string>)
    ensures |lines| == CountLines(lines, IsErrorLine) + CountLines(lines, IsNotError) + CountLines(lines, IsMalformed)
    ensures CountLines(lines, Warns) == CountLines(lines, IsMalformed) + CountLines(lines, IsErrorLine) - |Messages(lines)|
  {
    PartitionFirst(Outcomes(lines), |lines|);
  }

  /** A line without any "] " (the empty line among them) is malformed, and only such a line is. */
  lemma MalformedIffNoSep(line: string)
    ensures Classify(line) == Malformed <==> !HasSep(line)
  {
    SplitOnePart(line);
  }

  /**
   * A malformed line is skipped: it is counted in `total_lines` and leaves
   * the tally and `error_lines` as they were.
   */
  lemma SkipWithoutSep(s: Summary, line: string)
    requires !HasSep(line)
    ensures Step(s, line) == s.(totalLines := s.totalLines + 1)
  {
    MalformedIffNoSep(line);
  }

  /**
   * A line changes the tally exactly when it splits into three parts and its
   * level is "ERROR"; then only the entry of its third part grows, by one.
   * It bumps `error_lines` exactly when its level is "ERROR", two parts or
   * three.
   */
  lemma StepEffect(s: Summary, line: string)
    ensures var r, parts := Step(s, line), Split(line);
      && (r.errorCounter != s.errorCounter <==> |parts| == 3 && Level(parts) == Some("ERROR"))
      && (forall x :: Get(r.errorCounter, x) == Get(s.errorCounter, x) + (if Classify(line) == ErrorMessage(x) then 1 else 0))
      && (r.errorLines == s.errorLines + 1 <==> Level(parts) == Some("ERROR"))
      && (r.errorLines == s.errorLines || r.errorLines == s.errorLines + 1)
  {
    var r := Step(s, line);
    if Classify(line).ErrorMessage? {
      var m := Classify(line).message;
      IncrementGet(s.errorCounter, m);
      assert Get(r.errorCounter, m) == Get(s.errorCounter, m) + 1;
    }
  }

  /**
   * The line grammar `<timestamp>] <x>ERROR] <message>`: with the first two
   * pieces free of "] ", the line is tallied under `message`.
   */
  lemma ErrorLineTallied(a: string, b: string, message: string)
    requires !HasSep(a) && !HasSep(b)
    requires DropFirst(b) == "ERROR"
    ensures Classify(a + Sep + b + Sep + message) == ErrorMessage(message)
  {
    SplitThree(a, b, message);
  }

  /** Conversely, a tallied line has exactly that shape. */
  lemma TalliedLineShape(line: string)
    requires Classify(line).ErrorMessage?
    ensures var parts := Split(line);
      && line == parts[0] + Sep + parts[1] + Sep + Classify(line).message
      && !HasSep(parts[0]) && !HasSep(parts[1])
      && DropFirst(parts[1]) == "ERROR"
  {
    var parts := Split(line);
    SplitProperties(line);
    assert parts[1..] == [parts[1], parts[2]];
    assert parts[1..][1..] == [parts[2]];
  }

  /**
   * A line `<timestamp>] <x>ERROR` whose message part is missing is an
   * ERROR line that is not tallied.
   */
  lemma ErrorLineWithoutMessage(a: string, b: string)
    requires !HasSep(a) && !HasSep(b)
    requires DropFirst(b) == "ERROR"
    ensures Classify(a + Sep + b) == ErrorWithoutMessage
  {
    SplitTwo(a, b);
  }

  /** Conversely, an ERROR line without a message has exactly that shape. */
  lemma ErrorWithoutMessageShape(line: string)
    requires Classify(line) == ErrorWithoutMessage
    ensures var parts := Split(line);
      && line == parts[0] + Sep + parts[1]
      && !HasSep(parts[0]) && !HasSep(parts[1])
      && DropFirst(parts[1]) == "ERROR"
  {
    var parts := Split(line);
    SplitProperties(line);
    assert parts[1..] == [parts[1]];
  }

  /** A line in the grammar `[<timestamp>] [<level>] <message>`. */
  function FormatLine(timestamp: string, level: string, message: string): string
  {
    "[" + timestamp + Sep + "[" + level + Sep + message
  }

  /**
   * A line in the grammar whose timestamp and level hold no ']' is tallied
   * under its message when its level is "ERROR", and is otherwise a
   * well-formed non-ERROR line, whatever its message holds.
   */
  lemma FormattedLine(timestamp: string, level: string, message: string)
    requires ']' !in timestamp && ']' !in level
    ensures Classify(FormatLine(timestamp, level, message)) ==
      if level == "ERROR" then ErrorMessage(message) else NotError
  {
    var a, b := "[" + timestamp, "[" + level;
    assert ']' !in a && ']' !in b;
    NoBracketNoSep(a);
    NoBracketNoSep(b);
    assert FormatLine(timestamp, level, message) == a + Sep + b + Sep + message;
    SplitThree(a, b, message);
    assert DropFirst(b) == level;
  }

  /**
   * The shape of tests/test_error_log_analyzer.py:8-19: two ERROR lines with
   * the same message and one INFO line give that message the count 2, and
   * nothing else is tallied.
   */
  lemma TwoErrorsOneInfo(timestamp: string, message: string, info: string)
    requires ']' !in timestamp
    ensures var r := Analyze([
        FormatLine(timestamp, "ERROR", message),
        FormatLine(timestamp, "ERROR", message),
        FormatLine(timestamp, "INFO", info)]);
      && r.errorCounter.keys == [message]
      && Get(r.errorCounter, message) == 2
      && r.totalLines == 3 && r.errorLines == 2
  {
    var e := FormatLine(timestamp, "ERROR", message);
    var lines := [e, e, FormatLine(timestamp, "INFO", info)];
    FormattedLine(timestamp, "ERROR", message);
    FormattedLine(timestamp, "INFO", info);
    var os := Outcomes(lines);
    assert os == [ErrorMessage(message), ErrorMessage(message), NotError];
    assert AnalyzeFirst(os, 1) == Summary(Tally([message], map[message := 1]), 1, 1);
    assert AnalyzeFirst(os, 2) == Summary(Tally([message], map[message := 2]), 2, 2);
  }

  /** A formatted line as the file yields it, newline included, reads back as the line. */
  lemma FormattedLineRead(timestamp: string, level: string, message: string)
    requires message != [] && !IsSpace(message[|message| - 1])
    ensures Strip(FormatLine(timestamp, level, message) + "\n") == FormatLine(timestamp, level, message)
  {
    var line := FormatLine(timestamp, level, message);
    assert line[0] == '[';
    assert line[|line| - 1] == message[|message| - 1];
    StripNewline(line);
  }

  /**
   * The test's file, read through the line reader: its lines still carry
   * their newlines, and trimming them leaves the shape of `TwoErrorsOneInfo`.
   */
  lemma TwoErrorsOneInfoFromFile(timestamp: string, message: string, info: string)
    requires ']' !in timestamp
    requires message != [] && !IsSpace(message[|message| - 1])
    requires info != [] && !IsSpace(info[|info| - 1])
    ensures var r := Analyze(ReadLogFile([
        FormatLine(timestamp, "ERROR", message) + "\n",
        FormatLine(timestamp, "ERROR", message) + "\n",
        FormatLine(timestamp, "INFO", info) + "\n"]));
      && r.errorCounter.keys == [message]
      && Get(r.errorCounter, message) == 2
      && r.totalLines == 3 && r.errorLines == 2
  {
    var e := FormatLine(timestamp, "ERROR", message);
    var i := FormatLine(timestamp, "INFO", info);
    FormattedLineRead(timestamp, "ERROR", message);
    FormattedLineRead(timestamp, "INFO", info);
    assert ReadLogFile([e + "\n", e + "\n", i + "\n"]) == [e, e, i];
    TwoErrorsOneInfo(timestamp, message, info);
  }

  /**
   * The test's own data (tests/test_error_log_analyzer.py:10-19): the file's
   * three lines give "Database connection timeout" the count 2.
   */
  lemma DatabaseTimeoutCountedTwice()
    ensures var r := Analyze(ReadLogFile([
        FormatLine("2024-01-01", "ERROR", "Database connection timeout") + "\n",
        FormatLine("2024-01-01", "ERROR", "Database connection timeout") + "\n",
        FormatLine("2024-01-01", "INFO", "Request processed") + "\n"]));
      Get(r.errorCounter, "Database connection timeout") == 2 && r.totalLines == 3 && r.errorLines == 2
  {
    TwoErrorsOneInfoFromFile("2024-01-01", "Database connection timeout", "Request processed");
  }

  /**
   * A line with no brackets at all is malformed: only `total_lines` moves,
   * and it is the one line that reaches the warning.
   */
  lemma GarbageLineSkipped()
    ensures Analyze(["garbage no brackets"]) == Summary(Empty(), 1, 0)
    ensures CountLines(["garbage no brackets"], IsMalformed) == 1
    ensures CountLines(["garbage no brackets"], Warns) == 1
  {
    NoBracketNoSep("garbage no brackets");
    MalformedIffNoSep("garbage no brackets");
    assert Outcomes(["garbage no brackets"]) == [Malformed];
  }
}
