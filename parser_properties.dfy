/** What parse_rqinfo guarantees about the snapshot it builds, stated over the
    raw lines of the report and proved about the Step/Run/Parse definitions
    that ParseRqinfo is verified against. */
module ParserProperties {
  import opened Wrappers
  import opened Text
  import opened RqInfo

  // ---------------------------------------------------------------- line kinds

  /** Blank or whitespace-only: skipped. */
  predicate IsBlank(line: string) {
    Strip(line) == []
  }

  /** After stripping, the line starts with `queue`. */
  predicate IsQueueLine(line: string) {
    StartsWith(Strip(line), QueuePrefix)
  }

  /** Any other non-blank line is read as `<name>: <workers>`. */
  predicate IsWorkerLine(line: string) {
    !IsBlank(line) && !IsQueueLine(line)
  }

  /** The n-th whitespace token of the stripped line, or "" when it has fewer. */
  function Token(line: string, n: nat): string {
    var tokens := Words(Strip(line));
    if n < |tokens| then tokens[n] else []
  }

  /** The queue name of a worker line: everything before its colon, unstripped. */
  function WorkerKey(line: string): string {
    SplitOn(Strip(line), ':')[0]
  }

  /** The stripped text after a worker line's colon. */
  function WorkerData(line: string): string {
    var halves := SplitOn(Strip(line), ':');
    if |halves| >= 2 then Strip(halves[1]) else []
  }

  /** A line parse_rqinfo rejects, described directly: a queue line without
      exactly three tokens, or a `failed` queue line whose count is not an
      integer; a worker line without exactly one colon, or whose worker list
      (other than the en dash) has a comma-separated part with no token. */
  predicate Malformed(line: string) {
    var l := Strip(line);
    if l == [] then false
    else if StartsWith(l, QueuePrefix) then
      var tokens := Words(l);
      |tokens| != 3 || (tokens[1] == "failed" && ParseInt(tokens[2]).None?)
    else
      Count(l, ':') != 1 ||
      var data := Strip(SplitOn(l, ':')[1]);
      data != NoWorkers &&
      exists j :: 0 <= j < |SplitOn(data, ',')| && AllSpace(SplitOn(data, ',')[j])
  }

  // ---------------------------------------------------------------- selections

  /** The second token of each queue line, in input order. */
  function QueueNames(lines: seq<string>): seq<string> {
    if lines == [] then []
    else (if IsQueueLine(lines[0]) then [Token(lines[0], 1)] else []) + QueueNames(lines[1..])
  }

  /** A `queue failed <count>` line. */
  predicate IsFailedLine(line: string) {
    IsQueueLine(line) && Token(line, 1) == "failed"
  }

  /** The `queue failed <count>` lines. */
  function FailedLines(lines: seq<string>): seq<string> {
    if lines == [] then []
    else (if IsFailedLine(lines[0]) then [lines[0]] else []) + FailedLines(lines[1..])
  }

  /** The worker lines for queue `key`. */
  function WorkerLinesFor(lines: seq<string>, key: string): seq<string> {
    if lines == [] then []
    else (if IsWorkerLine(lines[0]) && WorkerKey(lines[0]) == key then [lines[0]] else [])
         + WorkerLinesFor(lines[1..], key)
  }

  function Last(s: seq<string>): string
    requires s != []
  {
    s[|s| - 1]
  }

  // ---------------------------------------------------------------- worker lists

  /** The stripped remainder of a worker line: the en dash alone gives no
      workers; any other text, the en dash included among other characters,
      gives one worker id per comma-separated part, in order, so at least one;
      a part with no token is the IndexError. */
  lemma WorkerListShape(data: string)
    ensures WorkerList(data) == Success([]) <==> data == NoWorkers
    ensures data != NoWorkers ==>
      (WorkerList(data).Success? <==>
         EveryPartHasToken(SplitOn(data, ',')))
    ensures data != NoWorkers && WorkerList(data).Success? ==>
      |WorkerList(data).value| == |SplitOn(data, ',')|
    ensures data != NoWorkers && WorkerList(data).Success? ==>
      forall j :: 0 <= j < |SplitOn(data, ',')| ==> WorkerList(data).value[j] == Words(SplitOn(data, ',')[j])[0]
    ensures WorkerList(data).Failure? ==>
      WorkerList(data).error.EmptyWorkerEntry? && AllSpace(WorkerList(data).error.part) &&
      WorkerList(data).error.part in SplitOn(data, ',')
  {
    if data != NoWorkers {
      var parts := SplitOn(data, ',');
      assert WorkerList(data) == WorkerIds(parts);
      assert |parts| >= 1;
    }
  }

  // ---------------------------------------------------------------- one line

  /** Every line is stripped before it is classified. */
  lemma StepStripped(acc: Snapshot, line: string)
    ensures Step(acc, Strip(line)) == Step(acc, line)
  {
    StripIdempotent(line);
  }

  /** A queue line appends its name (repeats included) and leaves the worker
      map alone; only a `failed` line sets the failed count, to its integer. */
  lemma StepQueueLine(acc: Snapshot, line: string, s: Snapshot)
    requires IsQueueLine(line) && Step(acc, line) == Success(s)
    ensures s.queues == acc.queues + [Token(line, 1)]
    ensures s.workersByQueue == acc.workersByQueue
    ensures Token(line, 1) == "failed" ==> ParseInt(Token(line, 2)) == Some(s.failedCount)
    ensures Token(line, 1) != "failed" ==> s.failedCount == acc.failedCount
  {
  }

  /** A worker line inserts or overwrites the entry for its queue and changes
      nothing else; the entry is empty exactly when the list is the en dash,
      and otherwise holds the first token of each comma-separated part. */
  lemma StepWorkerLine(acc: Snapshot, line: string, s: Snapshot)
    requires IsWorkerLine(line) && Step(acc, line) == Success(s)
    ensures WorkerKey(line) in s.workersByQueue
    ensures s == acc.(workersByQueue := acc.workersByQueue[WorkerKey(line) := s.workersByQueue[WorkerKey(line)]])
    ensures s.workersByQueue[WorkerKey(line)] == [] <==> WorkerData(line) == NoWorkers
    ensures WorkerData(line) != NoWorkers ==>
      var parts := SplitOn(WorkerData(line), ',');
      var ids := s.workersByQueue[WorkerKey(line)];
      |ids| == |parts| && forall j :: 0 <= j < |parts| ==> ids[j] == Words(parts[j])[0]
  {
  }

  /** Step fails exactly on the lines Malformed describes. */
  lemma StepFailsIff(acc: Snapshot, line: string)
    ensures Step(acc, line).Failure? <==> Malformed(line)
  {
    var l := Strip(line);
    if l != [] && !StartsWith(l, QueuePrefix) && Count(l, ':') == 1 {
      var data := Strip(SplitOn(l, ':')[1]);
      if data != NoWorkers {
        var parts := SplitOn(data, ',');
        forall j | 0 <= j < |parts| ensures Words(parts[j]) == [] <==> AllSpace(parts[j]) { }
      }
    }
  }

  /** Which error a malformed line raises does not depend on the lines before it. */
  lemma StepErrorIgnoresState(acc: Snapshot, other: Snapshot, line: string)
    requires Step(acc, line).Failure?
    ensures Step(other, line) == Step(acc, line)
  {
  }

  // ---------------------------------------------------------------- many lines

  /** A blank or whitespace-only line anywhere leaves the result unchanged. */
  lemma {:induction false} RunSkipsBlank(acc: Snapshot, before: seq<string>, blank: string, after: seq<string>)
    requires IsBlank(blank)
    ensures Run(acc, before + [blank] + after) == Run(acc, before + after)
    decreases |before|
  {
    if before == [] {
      assert before + [blank] + after == [blank] + after;
      assert ([blank] + after)[1..] == after;
      assert before + after == after;
    } else {
      var lines := before + [blank] + after;
      assert lines[0] == before[0] && lines[1..] == before[1..] + [blank] + after;
      assert (before + after)[0] == before[0] && (before + after)[1..] == before[1..] + after;
      match Step(acc, before[0])
      case Failure(_) =>
      case Success(next) => RunSkipsBlank(next, before[1..], blank, after);
    }
  }

  /** A successful run took a successful first step. */
  lemma RunCons(acc: Snapshot, lines: seq<string>, s: Snapshot)
    requires lines != [] && Run(acc, lines) == Success(s)
    ensures Step(acc, lines[0]).Success? && Run(Step(acc, lines[0]).value, lines[1..]) == Success(s)
  {
  }

  /** What one line does to the queue list. */
  lemma StepQueues(acc: Snapshot, line: string, next: Snapshot)
    requires Step(acc, line) == Success(next)
    ensures next.queues == acc.queues + (if IsQueueLine(line) then [Token(line, 1)] else [])
  {
    if IsQueueLine(line) {
      StepQueueLine(acc, line, next);
    } else if !IsBlank(line) {
      StepWorkerLine(acc, line, next);
    } else {
      assert acc.queues + [] == acc.queues;
    }
  }

  /** The queue list is the names of the queue lines, in input order,
      repeats included. */
  lemma {:induction false} RunQueues(acc: Snapshot, lines: seq<string>, s: Snapshot)
    requires Run(acc, lines) == Success(s)
    ensures s.queues == acc.queues + QueueNames(lines)
    decreases |lines|
  {
    if lines == [] {
      assert acc.queues + [] == acc.queues;
    } else {
      RunCons(acc, lines, s);
      var next := Step(acc, lines[0]).value;
      RunQueues(next, lines[1..], s);
      StepQueues(acc, lines[0], next);
      var t := if IsQueueLine(lines[0]) then [Token(lines[0], 1)] else [];
      assert (acc.queues + t) + QueueNames(lines[1..]) == acc.queues + (t + QueueNames(lines[1..]));
    }
  }

  /** The failed count after the lines: unchanged without a `queue failed`
      line, otherwise the integer on the last one. */
  predicate FailedCountAfter(lines: seq<string>, before: int, after: int) {
    if FailedLines(lines) == [] then after == before
    else ParseInt(Token(Last(FailedLines(lines)), 2)) == Some(after)
  }

  /** What one line does to the failed count. */
  lemma StepFailedCount(acc: Snapshot, line: string, next: Snapshot)
    requires Step(acc, line) == Success(next)
    ensures IsFailedLine(line) ==> ParseInt(Token(line, 2)) == Some(next.failedCount)
    ensures !IsFailedLine(line) ==> next.failedCount == acc.failedCount
  {
    if IsQueueLine(line) {
      StepQueueLine(acc, line, next);
    } else if !IsBlank(line) {
      StepWorkerLine(acc, line, next);
    }
  }

  /** The failed count carries over from the rest of the lines to the whole,
      given what the first line does to it. */
  lemma FailedCountCons(lines: seq<string>, before: int, middle: int, after: int)
    requires lines != []
    requires IsFailedLine(lines[0]) ==> ParseInt(Token(lines[0], 2)) == Some(middle)
    requires !IsFailedLine(lines[0]) ==> middle == before
    requires FailedCountAfter(lines[1..], middle, after)
    ensures FailedCountAfter(lines, before, after)
  {
    var rest := FailedLines(lines[1..]);
    var first := if IsFailedLine(lines[0]) then [lines[0]] else [];
    assert FailedLines(lines) == first + rest;
    if rest != [] {
      assert Last(first + rest) == Last(rest);
    } else {
      assert first + rest == first;
    }
  }

  /** Without a `queue failed` line the failed count stays as it was; otherwise
      it is the integer on the last such line. */
  lemma {:induction false} RunFailedCount(acc: Snapshot, lines: seq<string>, s: Snapshot)
    requires Run(acc, lines) == Success(s)
    ensures FailedCountAfter(lines, acc.failedCount, s.failedCount)
    decreases |lines|
  {
    if lines != [] {
      RunCons(acc, lines, s);
      var next := Step(acc, lines[0]).value;
      RunFailedCount(next, lines[1..], s);
      StepFailedCount(acc, lines[0], next);
      FailedCountCons(lines, acc.failedCount, next.failedCount, s.failedCount);
    }
  }

  /** The entry for `key` after the lines: unchanged (present or absent) when
      no worker line names the queue, otherwise the worker list of the last
      worker line that does. */
  predicate WorkersAfter(lines: seq<string>, key: string, before: map<string, seq<string>>, after: map<string, seq<string>>) {
    if WorkerLinesFor(lines, key) == [] then
      (key in after <==> key in before) && (key in before ==> after[key] == before[key])
    else
      key in after && WorkerList(WorkerData(Last(WorkerLinesFor(lines, key)))) == Success(after[key])
  }

  /** What one line does to the entry for `key`. */
  lemma StepWorkers(acc: Snapshot, line: string, next: Snapshot, key: string)
    requires Step(acc, line) == Success(next)
    ensures WorkersAfter([line], key, acc.workersByQueue, next.workersByQueue)
  {
    assert [line][1..] == [];
    assert WorkerLinesFor([line], key) == (if IsWorkerLine(line) && WorkerKey(line) == key then [line] else []);
    if IsQueueLine(line) {
      StepQueueLine(acc, line, next);
    } else if !IsBlank(line) {
      StepWorkerLine(acc, line, next);
    }
  }

  lemma WorkerLinesForCons(lines: seq<string>, key: string)
    requires lines != []
    ensures WorkerLinesFor(lines, key) == WorkerLinesFor([lines[0]], key) + WorkerLinesFor(lines[1..], key)
  {
    assert [lines[0]][1..] == [];
    var first := if IsWorkerLine(lines[0]) && WorkerKey(lines[0]) == key then [lines[0]] else [];
    assert WorkerLinesFor([lines[0]], key) == first + [];
    assert first + [] == first;
  }

  /** The entry for `key` carries over from the rest of the lines to the
      whole, given what the first line does to it. */
  lemma WorkersCons(lines: seq<string>, key: string, before: map<string, seq<string>>, middle: map<string, seq<string>>, after: map<string, seq<string>>)
    requires lines != []
    requires WorkersAfter([lines[0]], key, before, middle)
    requires WorkersAfter(lines[1..], key, middle, after)
    ensures WorkersAfter(lines, key, before, after)
  {
    var rest := WorkerLinesFor(lines[1..], key);
    var first := WorkerLinesFor([lines[0]], key);
    WorkerLinesForCons(lines, key);
    if rest != [] {
      assert Last(first + rest) == Last(rest);
    } else {
      assert first + rest == first;
    }
  }

  /** The entry for a queue comes from the last worker line naming it; a queue
      no worker line names keeps the entry (or absence of one) it had. */
  lemma {:induction false} RunWorkers(acc: Snapshot, lines: seq<string>, s: Snapshot, key: string)
    requires Run(acc, lines) == Success(s)
    ensures WorkersAfter(lines, key, acc.workersByQueue, s.workersByQueue)
    decreases |lines|
  {
    if lines != [] {
      RunCons(acc, lines, s);
      var next := Step(acc, lines[0]).value;
      RunWorkers(next, lines[1..], s, key);
      StepWorkers(acc, lines[0], next, key);
      WorkersCons(lines, key, acc.workersByQueue, next.workersByQueue, s.workersByQueue);
    }
  }

  /** Some line is malformed. */
  predicate AnyMalformed(lines: seq<string>) {
    exists j :: 0 <= j < |lines| && Malformed(lines[j])
  }

  lemma AnyMalformedCons(lines: seq<string>)
    requires lines != []
    ensures AnyMalformed(lines) <==> Malformed(lines[0]) || AnyMalformed(lines[1..])
  {
    if AnyMalformed(lines) {
      var j :| 0 <= j < |lines| && Malformed(lines[j]);
      if j > 0 {
        assert lines[1..][j - 1] == lines[j];
      }
    }
    if AnyMalformed(lines[1..]) {
      var j :| 0 <= j < |lines[1..]| && Malformed(lines[1..][j]);
      assert lines[j + 1] == lines[1..][j];
    }
  }

  /** The whole parse fails exactly when some line is malformed. */
  lemma {:induction false} RunFailsIff(acc: Snapshot, lines: seq<string>)
    ensures Run(acc, lines).Failure? <==> AnyMalformed(lines)
    decreases |lines|
  {
    if lines != [] {
      StepFailsIff(acc, lines[0]);
      AnyMalformedCons(lines);
      match Step(acc, lines[0])
      case Failure(_) =>
      case Success(next) => RunFailsIff(next, lines[1..]);
    }
  }

  /** The error reported is the one raised by the first malformed line. */
  lemma {:induction false} RunFirstError(acc: Snapshot, lines: seq<string>, j: nat)
    requires j < |lines| && Malformed(lines[j])
    requires forall i :: 0 <= i < j ==> !Malformed(lines[i])
    ensures Run(acc, lines) == Step(Initial, lines[j])
    decreases j
  {
    StepFailsIff(acc, lines[0]);
    if j == 0 {
      StepErrorIgnoresState(acc, Initial, lines[0]);
    } else {
      var next := Step(acc, lines[0]).value;
      forall i | 0 <= i < j - 1 ensures !Malformed(lines[1..][i]) {
        assert lines[1..][i] == lines[i + 1];
      }
      RunFirstError(next, lines[1..], j - 1);
    }
  }

  // ---------------------------------------------------------------- whole reports

  /** A whitespace-only line between two parts of a report changes nothing. */
  lemma ParseIgnoresBlankLine(before: string, blank: string, after: string)
    requires AllSpace(blank) && '\n' !in blank
    ensures Parse(before + "\n" + blank + "\n" + after) == Parse(before + "\n" + after)
  {
    var nl := '\n';
    assert before + "\n" + blank + "\n" + after == before + [nl] + (blank + [nl] + after);
    assert before + "\n" + after == before + [nl] + after;
    SplitOnConcat(before, blank + [nl] + after, nl);
    SplitOnConcat(blank, after, nl);
    SplitJoin([blank], nl);
    StripEmpty(blank);
    var a, c := Lines(before), Lines(after);
    SplitOnConcat(before, after, nl);
    assert Lines(before + "\n" + blank + "\n" + after) == a + [blank] + c;
    RunSkipsBlank(Initial, a, blank, c);
  }

  /** A whitespace-only first line changes nothing. */
  lemma ParseIgnoresLeadingBlankLine(blank: string, after: string)
    requires AllSpace(blank) && '\n' !in blank
    ensures Parse(blank + "\n" + after) == Parse(after)
  {
    var nl := '\n';
    assert blank + "\n" + after == blank + [nl] + after;
    SplitOnConcat(blank, after, nl);
    SplitJoin([blank], nl);
    StripEmpty(blank);
    var c := Lines(after);
    assert Lines(blank + "\n" + after) == [blank] + c;
    RunSkipsBlank(Initial, [], blank, c);
    assert [] + [blank] + c == [blank] + c && [] + c == c;
  }

  /** A whitespace-only last line, with no newline after it, changes nothing. */
  lemma ParseIgnoresFinalBlankLine(before: string, blank: string)
    requires AllSpace(blank) && '\n' !in blank
    ensures Parse(before + "\n" + blank) == Parse(before)
  {
    var nl := '\n';
    assert before + "\n" + blank == before + [nl] + blank;
    SplitOnConcat(before, blank, nl);
    SplitJoin([blank], nl);
    StripEmpty(blank);
    var a := Lines(before);
    assert Lines(before + "\n" + blank) == a + [blank];
    RunSkipsBlank(Initial, a, blank, []);
    assert a + [blank] + [] == a + [blank] && a + [] == a;
  }

  /** A trailing newline changes nothing. */
  lemma ParseIgnoresTrailingNewline(report: string)
    ensures Parse(report + "\n") == Parse(report)
  {
    var nl := '\n';
    assert report + "\n" == report + [nl] + [];
    SplitOnConcat(report, [], nl);
    assert Lines([]) == [[]];
    StripEmpty([]);
    RunSkipsBlank(Initial, Lines(report), [], []);
    assert Lines(report) + [[]] + [] == Lines(report) + [[]];
    assert Lines(report) + [] == Lines(report);
  }

  /** The report-level summary: queues are the queue lines' names in order,
      the failed count is 0 without a `queue failed` line and otherwise the
      integer on the last one, and the report fails to parse exactly when one
      of its lines is malformed. */
  lemma ParseSnapshot(report: string)
    ensures Parse(report).Failure? <==> AnyMalformed(Lines(report))
    ensures Parse(report).Success? ==>
      var s := Parse(report).value;
      var lines := Lines(report);
      && s.queues == QueueNames(lines)
      && (FailedLines(lines) == [] ==> s.failedCount == 0)
      && (FailedLines(lines) != [] ==> ParseInt(Token(Last(FailedLines(lines)), 2)) == Some(s.failedCount))
  {
    RunFailsIff(Initial, Lines(report));
    if Parse(report).Success? {
      var s := Parse(report).value;
      RunQueues(Initial, Lines(report), s);
      RunFailedCount(Initial, Lines(report), s);
      assert [] + QueueNames(Lines(report)) == QueueNames(Lines(report));
    }
  }
}
