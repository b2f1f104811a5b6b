/** Concrete reports: the docstring example of parse_rqinfo and lines it
    rejects, worked through the lemmas about the line grammar. */
module RqInfoExamples {
  import opened Wrappers
  import opened Text
  import opened RqInfo

  // ---------------------------------------------------------------- helpers

  /** A trimmed string strips to itself. */
  lemma StripTrimmed(s: string)
    requires Trimmed(s)
    ensures Strip(s) == s
  {
    StripOf([], s, []);
    assert [] + s + [] == s;
  }

  /** A line without a newline, then a newline, then the rest of the report. */
  lemma LinesCons(line: string, rest: string)
    requires '\n' !in line
    ensures Lines(line + "\n" + rest) == [line] + Lines(rest)
  {
    SplitOnConcat(line, rest, '\n');
    SplitJoin([line], '\n');
  }

  /** A string without the separator splits into itself alone. */
  lemma SplitOnNone(a: string, sep: char)
    requires sep !in a
    ensures SplitOn(a, sep) == [a]
  {
    SplitJoin([a], sep);
  }

  /** Two separator-free strings joined by the separator split back apart. */
  lemma SplitOnTwo(a: string, b: string, sep: char)
    requires sep !in a && sep !in b
    ensures SplitOn(a + [sep] + b, sep) == [a, b]
  {
    SplitOnConcat(a, b, sep);
    SplitOnNone(a, sep);
    SplitOnNone(b, sep);
  }

  /** A run that takes a successful first step continues from its result. */
  lemma RunSuccessStep(acc: Snapshot, lines: seq<string>, next: Snapshot)
    requires lines != [] && Step(acc, lines[0]) == Success(next)
    ensures Run(acc, lines) == Run(next, lines[1..])
  {
  }

  /** A run whose first step fails fails with that step's error. */
  lemma RunFailureStep(acc: Snapshot, lines: seq<string>, e: ParseError)
    requires lines != [] && Step(acc, lines[0]) == Failure(e)
    ensures Run(acc, lines) == Failure(e)
  {
  }

  // ---------------------------------------------------------------- formatted lines

  /** The line rqinfo prints for a queue: `queue <name> <count>`. */
  function QueueLine(name: string, count: string): string {
    QueuePrefix + " " + (name + " " + count)
  }

  /** The line rqinfo prints for the workers of a queue: `<name>: <workers>`. */
  function WorkerLine(name: string, workers: string): string {
    name + ":" + (" " + workers)
  }

  /** A worker descriptor such as `server.968 (idle)`. */
  function Descriptor(id: string, state: string): string {
    id + " " + state
  }

  /** The queue prefix is a single token. */
  lemma QueuePrefixToken()
    ensures QueuePrefix != [] && NoSpace(QueuePrefix)
  {
    var q := QueuePrefix;
    assert q == ['q', 'u', 'e', 'u', 'e'];
  }

  /** A string that neither starts nor ends with whitespace is trimmed, and so
      is its own strip. */
  lemma StripEnds(a: string, b: string)
    requires a != [] && b != [] && !IsSpace(a[0]) && !IsSpace(b[|b| - 1])
    ensures Strip(a + b) == a + b
  {
    var s := a + b;
    assert s[0] == a[0] && s[|s| - 1] == b[|b| - 1];
    StripTrimmed(s);
  }

  /** A string starts with any of its prefixes. */
  lemma StartsWithConcat(p: string, sep: string, rest: string)
    ensures StartsWith(p + sep + rest, p)
  {
    assert (p + sep + rest)[..|p|] == p;
  }

  /** A line `queue <name> <count>` of two whitespace-free tokens is its own
      strip, is a queue line, and splits into exactly those three tokens. */
  lemma QueueLineShapeOf(name: string, count: string)
    requires name != [] && NoSpace(name) && count != [] && NoSpace(count)
    ensures var line := QueueLine(name, count);
      Strip(line) == line && StartsWith(line, QueuePrefix) && Words(line) == [QueuePrefix, name, count]
  {
    var q := QueuePrefix;
    var tail := name + " " + count;
    QueuePrefixToken();
    WordsSingle(count);
    WordsCons(name, count);
    WordsCons(q, tail);
    assert tail[|tail| - 1] == count[|count| - 1];
    StripEnds(q + " ", tail);
    StartsWithConcat(q, " ", tail);
  }

  /** Such a line appends the name; for `failed` it sets the failed count to
      the integer, or fails when the count is not one. */
  lemma QueueLineOf(acc: Snapshot, name: string, count: string)
    requires name != [] && NoSpace(name) && count != [] && NoSpace(count)
    ensures var line := QueueLine(name, count);
      && (name != "failed" ==> Step(acc, line) == Success(acc.(queues := acc.queues + [name])))
      && (name == "failed" && ParseInt(count).Some? ==>
            Step(acc, line) == Success(Snapshot(ParseInt(count).value, acc.queues + [name], acc.workersByQueue)))
      && (name == "failed" && ParseInt(count).None? ==> Step(acc, line) == Failure(BadCount(count)))
  {
    QueueLineShapeOf(name, count);
  }

  /** A worker line is not a queue line when its name is colon-free and does
      not itself start with `queue`. */
  lemma NotQueueLine(name: string, workers: string)
    requires ':' !in name && !StartsWith(name, QueuePrefix)
    ensures !StartsWith(WorkerLine(name, workers), QueuePrefix)
  {
    var q, line := QueuePrefix, WorkerLine(name, workers);
    assert q == ['q', 'u', 'e', 'u', 'e'];
    if |line| >= |q| {
      if |name| >= |q| {
        assert line[..|q|] == name[..|q|];
      } else {
        assert line[..|q|][|name|] == line[|name|] == ':';
      }
    }
  }

  /** A worker line whose name and list hold no colon and whose list is
      trimmed sets the entry for the name to the ids of the list, or fails as
      the list does. */
  lemma WorkerLineOf(acc: Snapshot, name: string, workers: string)
    requires name != [] && !IsSpace(name[0]) && ':' !in name
    requires workers != [] && Trimmed(workers) && ':' !in workers
    requires !StartsWith(WorkerLine(name, workers), QueuePrefix)
    ensures Step(acc, WorkerLine(name, workers)) ==
      match WorkerList(workers)
      case Failure(e) => Failure(e)
      case Success(ids) => Success(acc.(workersByQueue := acc.workersByQueue[name := ids]))
  {
    var rest := " " + workers;
    assert rest[|rest| - 1] == workers[|workers| - 1];
    StripEnds(name + ":", rest);
    SplitOnTwo(name, rest, ':');
    StripOf(" ", workers, []);
    assert " " + workers + [] == rest;
  }

  /** A descriptor `<id> <state>` starts with the worker id. */
  lemma DescriptorWords(id: string, state: string)
    requires id != [] && NoSpace(id) && state != [] && NoSpace(state)
    ensures Words(Descriptor(id, state)) == [id, state]
    ensures Words(" " + Descriptor(id, state)) == [id, state]
  {
    WordsSingle(state);
    WordsCons(id, state);
    WordsLeadingSpace(" ", id + " " + state);
  }

  /** One comma part gives one worker id: its first token. */
  lemma WorkerIdsOne(a: string)
    requires Words(a) != []
    ensures WorkerIds([a]) == Success([Words(a)[0]])
  {
    assert [a][1..] == [];
    assert WorkerIds([]) == Success([]);
    assert [Words(a)[0]] + [] == [Words(a)[0]];
  }

  /** A worker list of one part names the first token of that part. */
  lemma WorkerListOne(a: string)
    requires a != NoWorkers && ',' !in a && Words(a) != []
    ensures WorkerList(a) == Success([Words(a)[0]])
  {
    SplitOnNone(a, ',');
    WorkerIdsOne(a);
  }

  /** A worker list of two parts names the first token of each, in order. */
  lemma WorkerListTwo(a: string, b: string)
    requires a + "," + b != NoWorkers && ',' !in a && ',' !in b
    requires Words(a) != [] && Words(b) != []
    ensures WorkerList(a + "," + b) == Success([Words(a)[0], Words(b)[0]])
  {
    var parts := [a, b];
    SplitOnTwo(a, b, ',');
    assert WorkerList(a + "," + b) == WorkerIds(parts);
    assert parts[0] == a && parts[1..] == [b];
    WorkerIdsOne(b);
    assert WorkerIds(parts) == Success([Words(a)[0]] + [Words(b)[0]]);
    assert [Words(a)[0]] + [Words(b)[0]] == [Words(a)[0], Words(b)[0]];
  }

  /** The tokens a descriptor is made of: non-empty, free of whitespace, and
      free of the two separators of a worker line. */
  predicate DescriptorToken(t: string) {
    t != [] && NoSpace(t) && ',' !in t && ':' !in t
  }

  /** A descriptor is a trimmed, colon-free and comma-free list part that is
      not the no-workers placeholder. */
  lemma DescriptorChars(id: string, state: string)
    requires DescriptorToken(id) && DescriptorToken(state)
    ensures var d := Descriptor(id, state);
      && d != [] && Trimmed(d) && d != NoWorkers && |d| > |NoWorkers|
      && ',' !in d && ':' !in d && ',' !in " " + d && ':' !in " " + d
  {
    var d := Descriptor(id, state);
    assert d[0] == id[0] && d[|d| - 1] == state[|state| - 1];
  }

  /** A worker line listing one descriptor maps the queue to its worker id. */
  lemma WorkerLineOne(acc: Snapshot, name: string, id: string, state: string)
    requires name != [] && !IsSpace(name[0]) && ':' !in name && !StartsWith(name, QueuePrefix)
    requires DescriptorToken(id) && DescriptorToken(state)
    ensures Step(acc, WorkerLine(name, Descriptor(id, state))) ==
      Success(acc.(workersByQueue := acc.workersByQueue[name := [id]]))
  {
    var d := Descriptor(id, state);
    DescriptorChars(id, state);
    DescriptorWords(id, state);
    WorkerListOne(d);
    NotQueueLine(name, d);
    WorkerLineOf(acc, name, d);
  }

  /** A worker line listing two descriptors, the second after `", "`, maps the
      queue to both worker ids in order. */
  lemma WorkerLineTwo(acc: Snapshot, name: string, id1: string, state1: string, id2: string, state2: string)
    requires name != [] && !IsSpace(name[0]) && ':' !in name && !StartsWith(name, QueuePrefix)
    requires DescriptorToken(id1) && DescriptorToken(state1)
    requires DescriptorToken(id2) && DescriptorToken(state2)
    ensures Step(acc, WorkerLine(name, Descriptor(id1, state1) + "," + (" " + Descriptor(id2, state2)))) ==
      Success(acc.(workersByQueue := acc.workersByQueue[name := [id1, id2]]))
  {
    var d1, d2 := Descriptor(id1, state1), " " + Descriptor(id2, state2);
    var d := d1 + "," + d2;
    DescriptorChars(id1, state1);
    DescriptorChars(id2, state2);
    DescriptorWords(id1, state1);
    DescriptorWords(id2, state2);
    assert |d| != |NoWorkers|;
    WorkerListTwo(d1, d2);
    assert d[0] == d1[0] && d[|d| - 1] == d2[|d2| - 1];
    NotQueueLine(name, d);
    WorkerLineOf(acc, name, d);
  }

  // ---------------------------------------------------------------- the docstring example

  const DocLine1: string := QueueLine("q_1", "0")
  const DocLine2: string := QueueLine("q_2", "0")
  const DocLine3: string := QueueLine("failed", "333")
  const DocLine4: string :=
    WorkerLine("q_1", Descriptor("server.968", "(idle)") + "," + (" " + Descriptor("server.952", "(idle)")))
  const DocLine5: string := WorkerLine("q_2", Descriptor("server.952", "(idle)"))
  const DocLine6: string := WorkerLine("failed", NoWorkers)

  /** The report of parse_rqinfo's docstring: six lines, each ended by a
      newline. */
  const DocReport: string :=
    DocLine1 + "\n" + (DocLine2 + "\n" + (DocLine3 + "\n" +
    (DocLine4 + "\n" + (DocLine5 + "\n" + (DocLine6 + "\n" + [])))))

  /** The snapshot the docstring shows for it. */
  const DocSnapshot: Snapshot := Snapshot(
    333,
    ["q_1", "q_2", "failed"],
    map["q_1" := ["server.968", "server.952"], "q_2" := ["server.952"], "failed" := []])

  /** The report splits into its six lines and the empty string after the
      last newline. */
  lemma DocLines()
    ensures Lines(DocReport) == [DocLine1, DocLine2, DocLine3, DocLine4, DocLine5, DocLine6, []]
  {
    assert Lines([]) == [[]];
    LinesCons(DocLine6, []);
    LinesCons(DocLine5, DocLine6 + "\n" + []);
    LinesCons(DocLine4, DocLine5 + "\n" + (DocLine6 + "\n" + []));
    LinesCons(DocLine3, DocLine4 + "\n" + (DocLine5 + "\n" + (DocLine6 + "\n" + [])));
    LinesCons(DocLine2, DocLine3 + "\n" + (DocLine4 + "\n" + (DocLine5 + "\n" + (DocLine6 + "\n" + []))));
    LinesCons(DocLine1, DocLine2 + "\n" + (DocLine3 + "\n" + (DocLine4 + "\n" + (DocLine5 + "\n" + (DocLine6 + "\n" + [])))));
  }

  /** The tokens of the queue lines hold no whitespace. */
  lemma DocQueueTokens()
    ensures NoSpace("q_1") && NoSpace("q_2") && NoSpace("failed") && NoSpace("0") && NoSpace("333")
  {
  }

  /** int("333") is 333. */
  lemma DocCount()
    ensures ParseInt("333") == Some(333)
  {
    var c: string := "333";
    assert c[..2] == "33" && "33"[..1] == "3" && "3"[..0] == [];
    assert DigitsValue("3") == 3;
    assert DigitsValue("33") == 33;
    assert DigitsValue(c) == 333;
  }

  const DocS1: Snapshot := Snapshot(0, ["q_1"], map[])
  const DocS2: Snapshot := Snapshot(0, ["q_1", "q_2"], map[])
  const DocS3: Snapshot := Snapshot(333, ["q_1", "q_2", "failed"], map[])
  const DocS4: Snapshot := DocS3.(workersByQueue := map["q_1" := ["server.968", "server.952"]])
  const DocS5: Snapshot := DocS4.(workersByQueue := DocS4.workersByQueue["q_2" := ["server.952"]])
  const DocS6: Snapshot := DocS5.(workersByQueue := DocS5.workersByQueue["failed" := []])

  lemma DocStep1()
    ensures Step(Initial, DocLine1) == Success(DocS1)
  {
    DocQueueTokens();
    QueueLineOf(Initial, "q_1", "0");
    assert Initial.queues + ["q_1"] == ["q_1"];
  }

  lemma DocStep2()
    ensures Step(DocS1, DocLine2) == Success(DocS2)
  {
    DocQueueTokens();
    QueueLineOf(DocS1, "q_2", "0");
    assert DocS1.queues + ["q_2"] == ["q_1", "q_2"];
  }

  lemma DocStep3()
    ensures Step(DocS2, DocLine3) == Success(DocS3)
  {
    DocQueueTokens();
    DocCount();
    QueueLineOf(DocS2, "failed", "333");
    assert DocS2.queues + ["failed"] == ["q_1", "q_2", "failed"];
  }

  /** The tokens of the worker descriptors. */
  lemma DocWorkerTokens()
    ensures DescriptorToken("server.968") && DescriptorToken("server.952") && DescriptorToken("(idle)")
  {
  }

  lemma DocStep4()
    ensures Step(DocS3, DocLine4) == Success(DocS4)
  {
    DocWorkerTokens();
    WorkerLineTwo(DocS3, "q_1", "server.968", "(idle)", "server.952", "(idle)");
  }

  lemma DocStep5()
    ensures Step(DocS4, DocLine5) == Success(DocS5)
  {
    DocWorkerTokens();
    WorkerLineOne(DocS4, "q_2", "server.952", "(idle)");
  }

  lemma DocStep6()
    ensures Step(DocS5, DocLine6) == Success(DocS6)
  {
    assert "failed"[..|QueuePrefix|][0] != QueuePrefix[0];
    NotQueueLine("failed", NoWorkers);
    WorkerLineOf(DocS5, "failed", NoWorkers);
  }

  /** The three queue lines. */
  lemma DocRunQueues(rest: seq<string>)
    ensures Run(Initial, [DocLine1, DocLine2, DocLine3] + rest) == Run(DocS3, rest)
  {
    var lines := [DocLine1, DocLine2, DocLine3] + rest;
    assert lines[0] == DocLine1 && lines[1..][0] == DocLine2 && lines[2..][0] == DocLine3;
    assert lines[3..] == rest;
    DocStep1();
    RunSuccessStep(Initial, lines, DocS1);
    DocStep2();
    RunSuccessStep(DocS1, lines[1..], DocS2);
    DocStep3();
    RunSuccessStep(DocS2, lines[2..], DocS3);
  }

  /** The three worker lines and the empty string after the last newline. */
  lemma DocRunWorkers()
    ensures Run(DocS3, [DocLine4, DocLine5, DocLine6, []]) == Success(DocS6)
  {
    var lines := [DocLine4, DocLine5, DocLine6, []];
    DocStep4();
    RunSuccessStep(DocS3, lines, DocS4);
    DocStep5();
    RunSuccessStep(DocS4, lines[1..], DocS5);
    DocStep6();
    RunSuccessStep(DocS5, lines[2..], DocS6);
    RunSuccessStep(DocS6, lines[3..], DocS6);
    assert lines[3..][1..] == [];
  }

  /** parse_rqinfo's docstring example: queues q_1, q_2 and failed in that
      order, a failed count of 333, two workers on q_1, one on q_2 and none
      on failed. */
  lemma DocExample()
    ensures Parse(DocReport) == Success(DocSnapshot)
  {
    DocLines();
    var rest := [DocLine4, DocLine5, DocLine6, []];
    assert Lines(DocReport) == [DocLine1, DocLine2, DocLine3] + rest;
    DocRunQueues(rest);
    DocRunWorkers();
    assert DocS6 == DocSnapshot;
  }

  // ---------------------------------------------------------------- rejected and partial reports

  /** A queue line with no count does not unpack into three tokens. */
  lemma ShortQueueLine(acc: Snapshot, name: string)
    requires name != [] && NoSpace(name)
    ensures Step(acc, QueuePrefix + " " + name) == Failure(QueueLineShape(QueuePrefix + " " + name))
  {
    QueuePrefixToken();
    WordsSingle(name);
    WordsCons(QueuePrefix, name);
    StripEnds(QueuePrefix + " ", name);
    StartsWithConcat(QueuePrefix, " ", name);
  }

  /** The `failed` queue line with a count int() rejects raises. */
  lemma BadFailedCount(acc: Snapshot, count: string)
    requires count != [] && NoSpace(count) && ParseInt(count).None?
    ensures Step(acc, QueueLine("failed", count)) == Failure(BadCount(count))
  {
    DocQueueTokens();
    QueueLineOf(acc, "failed", count);
  }

  /** A queue line of newline-free tokens is a single line of the report. */
  lemma QueueLineOneLine(name: string, count: string)
    requires '\n' !in name && '\n' !in count
    ensures '\n' !in QueueLine(name, count)
  {
    var q := QueuePrefix;
    assert q == ['q', 'u', 'e', 'u', 'e'];
  }

  /** "many" is a single token that int() rejects. */
  lemma ManyIsNoCount()
    ensures "many" != [] && NoSpace("many") && ParseInt("many").None? && '\n' !in "many"
  {
    assert !IsDigit("many"[0]);
  }

  /** A bad count aborts the whole parse, whatever follows it. */
  lemma BadCountAborts(rest: string)
    ensures Parse(QueueLine("failed", "many") + "\n" + rest) == Failure(BadCount("many"))
  {
    var line := QueueLine("failed", "many");
    ManyIsNoCount();
    BadFailedCount(Initial, "many");
    QueueLineOneLine("failed", "many");
    LinesCons(line, rest);
    RunFailureStep(Initial, [line] + Lines(rest), BadCount("many"));
  }

  /** A line that is neither blank nor a queue line and holds no colon does
      not unpack into a name and a worker list. */
  lemma NoColonLine(acc: Snapshot, line: string)
    requires line != [] && Trimmed(line) && ':' !in line && !StartsWith(line, QueuePrefix)
    ensures Step(acc, line) == Failure(WorkerLineShape(line))
  {
    StripTrimmed(line);
    SplitOnNone(line, ':');
  }

  /** A comma-free part followed by a comma leaves an empty last part, which
      has no first token. */
  lemma WorkerListEmptyLast(a: string)
    requires ',' !in a && Words(a) != []
    ensures WorkerList(a + ",") == Failure(EmptyWorkerEntry([]))
  {
    var empty: string := [];
    assert |a + ","| != |NoWorkers| by {
      assert a != [];
    }
    assert a + [','] + empty == a + ",";
    SplitOnTwo(a, empty, ',');
    assert Words(empty) == [];
    assert WorkerIds([empty]) == Failure(EmptyWorkerEntry(empty));
    assert [a, empty][1..] == [empty];
    assert WorkerIds([a, empty]) == Failure(EmptyWorkerEntry(empty));
  }

  /** A worker list ending in a comma has an empty last part, whose first token
      does not exist. */
  lemma TrailingComma(acc: Snapshot, name: string, id: string, state: string)
    requires name != [] && !IsSpace(name[0]) && ':' !in name && !StartsWith(name, QueuePrefix)
    requires DescriptorToken(id) && DescriptorToken(state)
    ensures Step(acc, WorkerLine(name, Descriptor(id, state) + ",")) == Failure(EmptyWorkerEntry([]))
  {
    var d := Descriptor(id, state);
    var w := d + ",";
    DescriptorChars(id, state);
    DescriptorWords(id, state);
    assert w[0] == d[0] && w[|w| - 1] == ',';
    WorkerListEmptyLast(d);
    NotQueueLine(name, w);
    WorkerLineOf(acc, name, w);
  }

  /** A queue with no worker line is listed but has no entry in the worker
      map: parse_rqinfo does not demand that the two agree. */
  lemma QueueWithoutWorkers()
    ensures Parse(DocLine1 + "\n" + []) == Success(Snapshot(0, ["q_1"], map[]))
  {
    assert Lines([]) == [[]];
    LinesCons(DocLine1, []);
    var empty: string := [];
    var lines := [DocLine1, empty];
    DocStep1();
    RunSuccessStep(Initial, lines, DocS1);
    assert lines[1..] == [empty] && [empty][1..] == [];
    assert Strip([]) == [];
  }
}
