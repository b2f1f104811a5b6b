/** The report parser of queue_check.py (parse_rqinfo): the text that
    `rqinfo --by-queue --raw` prints becomes a snapshot of the queue runtime.

    The report has two kinds of line.  `queue <name> <count>` registers a queue
    (and, for the queue called `failed`, its backlog); `<name>: <workers>` lists
    the workers listening on a queue, either as a comma-separated list of
    descriptors such as `server.968 (idle)` or as a lone en dash (U+2013) when
    there are none.  Blank lines are skipped. */
module RqInfo {
  import opened Wrappers
  import opened Text

  /** The dictionary parse_rqinfo returns: 'failed_count', 'queues' and
      'workers_by_queue'. */
  datatype Snapshot = Snapshot(
    failedCount: int,
    queues: seq<string>,
    workersByQueue: map<string, seq<string>>)

  /** The dictionary parse_rqinfo starts from. */
  const Initial := Snapshot(0, [], map[])

  /** The exceptions parse_rqinfo lets escape on a malformed line. */
  datatype ParseError =
    | QueueLineShape(line: string)    // `(_, name, count) = line.split()` does not unpack
    | BadCount(count: string)         // int(count) raises ValueError
    | WorkerLineShape(line: string)   // `(name, data) = line.split(':')` does not unpack
    | EmptyWorkerEntry(part: string)  // part.split()[0] raises IndexError

  /** The placeholder rqinfo prints for a queue with no workers: an en dash. */
  const NoWorkers: string := "\U{2013}"

  /** The prefix that marks a queue line. */
  const QueuePrefix: string := "queue"

  /** Every comma-separated part of a worker list holds at least one token. */
  predicate EveryPartHasToken(parts: seq<string>) {
    forall j :: 0 <= j < |parts| ==> Words(parts[j]) != []
  }

  /** The worker ids of the comma-separated parts of a worker list: the first
      whitespace-delimited token of each part, in order.  A part with no token
      is the IndexError of `part.split()[0]`, reported for the first such part. */
  function WorkerIds(parts: seq<string>): (r: Result<seq<string>, ParseError>)
    ensures r.Success? <==> EveryPartHasToken(parts)
    ensures r.Success? ==> |r.value| == |parts|
    ensures r.Success? ==> forall j :: 0 <= j < |parts| ==> r.value[j] == Words(parts[j])[0]
    ensures r.Failure? ==> r.error.EmptyWorkerEntry? && AllSpace(r.error.part) && r.error.part in parts
  {
    if parts == [] then Success([])
    else
      var tokens := Words(parts[0]);
      if tokens == [] then Failure(EmptyWorkerEntry(parts[0]))
      else
        match WorkerIds(parts[1..])
        case Failure(e) => Failure(e)
        case Success(ids) => Success([tokens[0]] + ids)
  }

  /** The workers a worker line's (stripped) remainder lists. */
  function WorkerList(data: string): Result<seq<string>, ParseError> {
    if data == NoWorkers then Success([]) else WorkerIds(SplitOn(data, ','))
  }

  /** A stripped line `queue <name> <count>`: the name is appended to the queue
      list, duplicates included, and the count is read only for `failed`. */
  function QueueStep(acc: Snapshot, line: string): Result<Snapshot, ParseError> {
    var tokens := Words(line);
    if |tokens| != 3 then Failure(QueueLineShape(line))
    else
      var appended := acc.(queues := acc.queues + [tokens[1]]);
      if tokens[1] == "failed" then
        match ParseInt(tokens[2])
        case None => Failure(BadCount(tokens[2]))
        case Some(n) => Success(appended.(failedCount := n))
      else Success(appended)
  }

  /** A stripped line `<name>: <workers>`: the entry for the (unstripped) name
      is inserted or overwritten. */
  function WorkerStep(acc: Snapshot, line: string): Result<Snapshot, ParseError> {
    var halves := SplitOn(line, ':');
    if |halves| != 2 then Failure(WorkerLineShape(line))
    else
      match WorkerList(Strip(halves[1]))
      case Failure(e) => Failure(e)
      case Success(names) => Success(acc.(workersByQueue := acc.workersByQueue[halves[0] := names]))
  }

  /** One pass of parse_rqinfo's loop body: the snapshot after the raw line
      `rawLine` has been processed, or the exception it raises. */
  function Step(acc: Snapshot, rawLine: string): Result<Snapshot, ParseError> {
    var line := Strip(rawLine);
    if line == [] then Success(acc)
    else if StartsWith(line, QueuePrefix) then QueueStep(acc, line)
    else WorkerStep(acc, line)
  }

  /** The loop over the remaining lines, starting from the snapshot built so far;
      the first malformed line aborts the whole parse. */
  function Run(acc: Snapshot, lines: seq<string>): Result<Snapshot, ParseError>
    decreases |lines|
  {
    if lines == [] then Success(acc)
    else
      match Step(acc, lines[0])
      case Failure(e) => Failure(e)
      case Success(next) => Run(next, lines[1..])
  }

  /** The lines of the report, as `rq_output.split('\n')` makes them. */
  function Lines(rqOutput: string): seq<string> {
    SplitOn(rqOutput, '\n')
  }

  /** What parse_rqinfo computes from the whole report. */
  function Parse(rqOutput: string): Result<Snapshot, ParseError> {
    Run(Initial, Lines(rqOutput))
  }

  /** The body of parse_rqinfo's loop for one raw line: strip it, skip it when
      blank, otherwise treat it as a queue line or a worker line and update the
      snapshot built so far; a malformed line raises. */
  method ParseLine(acc: Snapshot, rawLine: string) returns (r: Result<Snapshot, ParseError>)
    ensures r == Step(acc, rawLine)
  {
    var line := Strip(rawLine);
    if line == [] {
      return Success(acc);
    }
    var failedCount, queues, workersByQueue := acc.failedCount, acc.queues, acc.workersByQueue;
    if StartsWith(line, QueuePrefix) {
      var tokens := Words(line);
      if |tokens| != 3 {
        return Failure(QueueLineShape(line));
      }
      var queueName, count := tokens[1], tokens[2];
      queues := queues + [queueName];
      if queueName == "failed" {
        var n := ParseInt(count);
        if n.None? {
          return Failure(BadCount(count));
        }
        failedCount := n.value;
      }
    } else {
      var halves := SplitOn(line, ':');
      if |halves| != 2 {
        return Failure(WorkerLineShape(line));
      }
      var queueName, workerData := halves[0], Strip(halves[1]);
      var workerNames: seq<string> := [];
      if workerData != NoWorkers {
        var ids := WorkerIds(SplitOn(workerData, ','));
        if ids.Failure? {
          return Failure(ids.error);
        }
        workerNames := ids.value;
      }
      workersByQueue := workersByQueue[queueName := workerNames];
    }
    return Success(Snapshot(failedCount, queues, workersByQueue));
  }

  /** parse_rqinfo: splits the report into lines and processes them in order,
      starting from the empty snapshot; the first malformed line aborts. */
  method ParseRqinfo(rqOutput: string) returns (r: Result<Snapshot, ParseError>)
    ensures r == Parse(rqOutput)
  {
    var lines := Lines(rqOutput);
    var output := Initial;
    ghost var whole := Parse(rqOutput);
    var i := 0;
    while i < |lines|
      invariant 0 <= i <= |lines|
      invariant Run(output, lines[i..]) == whole
    {
      assert lines[i..][0] == lines[i] && lines[i..][1..] == lines[i + 1..];
      var next := ParseLine(output, lines[i]);
      if next.Failure? {
        return next;
      }
      output := next.value;
      i := i + 1;
    }
    assert lines[i..] == [];
    return Success(output);
  }
}
