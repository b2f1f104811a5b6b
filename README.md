# queue_check: the rqinfo parser and the queue evaluation, in Dafny

queue_check.py is a monitoring script for an RQ (Redis Queue) deployment. It
runs `rqinfo --by-queue --raw` and parses the report into a snapshot with three
parts:
- the failed-job count;
- the queue names, in report order;
- the workers listening on each queue.

It then compares the snapshot with a set of expectations, producing three
verdicts:
- every expected queue exists;
- every expected queue has exactly the expected number of workers;
- the failed count has not risen by more than the surge limit since the
  previous run.

Unless all three verdicts are `ok`, it sends a notification.

This project models the two functions that decide this, plus the notify
predicate:

- `RqInfo` models `parse_rqinfo`.
  - `ParseRqinfo` is an imperative method. Like the source, it loops over the
    lines of the report, and it is proved equal to the specification function
    `Parse`.
  - `Parse` runs `Step` over the lines. One `Step` is one pass of the loop
    body, and `ParseLine` is its imperative form.
  - The exceptions the Python code lets escape on a malformed line are the
    `Failure` values of a `Result`:
    - `ValueError` from unpacking `line.split()`;
    - `ValueError` from `int(count)`;
    - `ValueError` from unpacking `line.split(':')`;
    - `IndexError` from `part.split()[0]`.
- `Text` models the Python `str` operations the parser relies on:
  - `strip()`, with Python's `isspace` character set;
  - `split(sep)`, which keeps empty parts;
  - `split()`, which drops runs of whitespace;
  - `startswith`;
  - `int()`, as an optional sign followed by ASCII digits (the simplification is
    listed under "Left out").
- `ParserProperties` proves what the parser computes, for every report:
  - how blank lines are handled;
  - the queue list;
  - where the failed count comes from;
  - the worker entry of each queue;
  - exactly which reports are rejected.
- `RqInfoExamples` works through the docstring example of `parse_rqinfo`. It
  also covers rejected lines and a report the parser accepts although its
  queue list and worker map disagree.
- `Evaluation` models `evaluate_qdata` and the notify decision of `run_code`.
  - `EvaluateQdata` is an imperative method. It has the source's loops, the
    `'init'`/`'fail'` flags and the early `break`s.
  - It is proved equal to `Evaluate`, a declarative definition built from
    "for all expected queues…" predicates.

## Model

| member | source | states |
|---|---|---|
| RqInfo.ParseRqinfo | queue_check.py:93-141 | parse_rqinfo's loop over `rq_output.split('\n')`, starting from the empty snapshot and stopping at the first malformed line, computes exactly `Parse(rqOutput)` |
| RqInfo.ParseLine | queue_check.py:121-138 | the loop body for one raw line computes exactly and only `Step(acc, rawLine)`: blank after stripping means no change; otherwise a queue line, else a worker line, each with its error cases |
| RqInfo.WorkerIds | queue_check.py:137 | the comprehension `[part.split()[0] for part in …]` has a result exactly when every part has a token; that result holds one id per part, in order, each the part's first token; otherwise the error names an all-whitespace part of the list |
| ParserProperties.StepStripped | queue_check.py:122 | a line and its stripped form are processed identically |
| ParserProperties.StepQueueLine | queue_check.py:126-130 | a queue line that parses appends its second token to `queues` and leaves the worker map alone; it sets the failed count to int(third token) exactly when the name is `failed`, and leaves it unchanged otherwise |
| ParserProperties.StepWorkerLine | queue_check.py:133-138 | a worker line that parses overwrites the entry for its (unstripped) name, and nothing else changes; the entry is `[]` exactly when the stripped remainder is the en dash, otherwise one first token per comma part, in order |
| ParserProperties.StepFailsIff | queue_check.py:126-138 | one line raises exactly when it is `Malformed`. That covers a queue line without three tokens, a `failed` count int() rejects, a non-queue line without exactly one colon, and a comma part with no token |
| ParserProperties.StepErrorIgnoresState | queue_check.py:127-137 | whether and how a line fails does not depend on the snapshot built so far |
| ParserProperties.RunSkipsBlank | queue_check.py:122-125 | inserting a whitespace-only line anywhere in the line list does not change the outcome |
| ParserProperties.RunQueues | queue_check.py:126-128 | on success, `queues` is the second token of every queue line, in input order, repeats included |
| ParserProperties.RunFailedCount | queue_check.py:119-130 | on success, the failed count is unchanged from its start when there is no `queue failed` line, otherwise it is the integer on the last such line |
| ParserProperties.RunWorkers | queue_check.py:131-138 | on success, the entry for any queue name is unchanged (present or absent) when no worker line names it, otherwise it is the worker list of the last worker line for it: later lines overwrite earlier ones |
| ParserProperties.RunFailsIff | queue_check.py:120-138 | the parse fails exactly when some line of the report is malformed |
| ParserProperties.RunFirstError | queue_check.py:120-138 | the error reported is the one raised by the first malformed line, whatever was parsed before it |
| ParserProperties.ParseIgnoresBlankLine | queue_check.py:117-125 | a whitespace-only line between two lines of the report text does not change the result |
| ParserProperties.ParseIgnoresLeadingBlankLine | queue_check.py:117-125 | a whitespace-only first line does not change the result |
| ParserProperties.ParseIgnoresFinalBlankLine | queue_check.py:117-125 | a whitespace-only last line with no newline after it does not change the result |
| ParserProperties.ParseIgnoresTrailingNewline | queue_check.py:117-125 | an extra trailing newline does not change the result |
| ParserProperties.WorkerListShape | queue_check.py:134-137 | the stripped remainder gives no workers exactly when it is the en dash alone; any other remainder gives one id per comma part, in order, each the part's first token, and raises the IndexError exactly when some part is all whitespace |
| ParserProperties.ParseSnapshot | queue_check.py:117-140 | the whole parse of a report fails exactly when it has a malformed line; otherwise its queues are the names of the queue lines, in order, and its failed count is 0 without a `queue failed` line and the last such line's integer otherwise |
| RqInfoExamples.QueueLineOf | queue_check.py:126-130 | `queue <name> <count>` appends the name; for `failed` it sets the count to int(count), or raises when int() rejects it |
| RqInfoExamples.WorkerLineOf | queue_check.py:133-138 | `<name>: <workers>` sets the entry for the name to the ids of the list, or raises as the list does |
| RqInfoExamples.WorkerListOne | queue_check.py:136-137 | a list with one part yields that part's first token |
| RqInfoExamples.WorkerListTwo | queue_check.py:136-137 | a list with two parts yields the first token of each, in order |
| RqInfoExamples.WorkerLineOne | queue_check.py:131-138 | for any colon-free queue name that does not start with `queue`, a worker line listing one `<id> <state>` descriptor maps the queue to `[id]` |
| RqInfoExamples.WorkerLineTwo | queue_check.py:131-138 | for any colon-free queue name that does not start with `queue`, a worker line listing two descriptors separated by `", "` maps the queue to both ids, in order |
| RqInfoExamples.DocExample | queue_check.py:100-115 | the docstring report parses to failed count 333, queues `q_1, q_2, failed`, and workers `q_1: [server.968, server.952]`, `q_2: [server.952]`, `failed: []` |
| RqInfoExamples.ShortQueueLine | queue_check.py:127 | `queue <name>` without a count raises the unpacking error |
| RqInfoExamples.BadFailedCount | queue_check.py:129-130 | `queue failed <count>` with a count int() rejects raises |
| RqInfoExamples.BadCountAborts | queue_check.py:120-130 | a report whose first line is `queue failed many` fails with that error, whatever follows |
| RqInfoExamples.NoColonLine | queue_check.py:133 | a non-blank, non-queue line without a colon raises the unpacking error |
| RqInfoExamples.WorkerListEmptyLast | queue_check.py:137 | a worker list ending in a comma has an empty last part and raises the IndexError |
| RqInfoExamples.NotQueueLine | queue_check.py:126 | a worker line whose name is colon-free and does not start with `queue` is not taken for a queue line |
| RqInfoExamples.TrailingComma | queue_check.py:133-137 | for any colon-free queue name that does not start with `queue`, a worker line whose list ends in a comma raises the IndexError |
| RqInfoExamples.QueueWithoutWorkers | queue_check.py:126-138 | a report with a queue line and no worker line for it parses, listing the queue with no worker entry |
| Text.Strip | queue_check.py:122 | `str.strip()`: the result has no whitespace at either end and is no longer than the input |
| Text.StripSlice | queue_check.py:122 | the stripped string is a contiguous slice of the input, with only whitespace outside it |
| Text.StripOf | queue_check.py:122 | whitespace around a trimmed middle strips to that middle |
| Text.StripIdempotent | queue_check.py:122 | stripping twice is stripping once |
| Text.StripEmpty | queue_check.py:122-123 | a line strips to `''` exactly when it is all whitespace |
| Text.SplitOn | queue_check.py:117 | `str.split(sep)`: one part more than there are separators, no part containing the separator |
| Text.JoinSplit | queue_check.py:117 | joining the parts of `split(sep)` with the separator gives the string back |
| Text.SplitJoin | queue_check.py:117 | splitting separator-free parts joined by the separator gives the parts back |
| Text.SplitOnConcat | queue_check.py:117 | splitting at a separator between x and y splits x and y separately |
| Text.Words | queue_check.py:127 | `str.split()`: every token is non-empty and whitespace-free, and there are none exactly when the string is all whitespace |
| Text.WordsUnwords | queue_check.py:127 | whitespace-free tokens joined by spaces split back into those tokens |
| Text.WordsLeadingSpace | queue_check.py:137 | leading whitespace does not change `split()` |
| Text.WordsSpaceRun | queue_check.py:127 | a word followed by any non-empty run of whitespace splits off as one token, whatever the whitespace characters |
| Text.WordsTrailingSpace | queue_check.py:137 | trailing whitespace does not change `split()` |
| Text.StartsWithIff | queue_check.py:126 | `startswith(p)` holds exactly when the string is p followed by something |
| Text.ParseInt | queue_check.py:130 | `int()`: a result only for a non-empty token of digits after an optional `+`/`-` sign, which needs at least one digit after it; a negative result only after `-` |
| Text.ParseIntAccepts | queue_check.py:130 | `int()` gives a result exactly for the tokens that are digits, or a `+`/`-` sign followed by digits |
| Text.ParseIntDigits | queue_check.py:130 | a run of digits reads as its decimal value, unchanged after `+` and negated after `-` |
| Text.ParseIntZeros | queue_check.py:130 | leading zeros and a sign are read as Python reads them: zeros then the digits of n give n, after `+` n, after `-` -n (`007` is 7, `+5` is 5) |
| Text.ParseIntExamples | queue_check.py:130 | `int("007")` is 7 and `int("+5")` is 5 |
| Text.ParseShowInt | queue_check.py:130 | `int()` reads back every integer's decimal rendering |
| Evaluation.EvaluateQdata | queue_check.py:166-233 | the loops with flags and breaks compute exactly `Evaluate`, and no verdict is left at `'init'` |
| Evaluation.EvaluateVerdicts | queue_check.py:190-232 | queue_check is ok iff every expected queue is listed, and FAIL iff one is not. worker_check is ok iff every expected queue has a worker entry of exactly the expected length, and FAIL iff one does not. failure_queue_check is FAIL iff the increase exceeds the surge limit, and ok iff it does not |
| Evaluation.SurgeBoundary | queue_check.py:222-230 | an increase equal to the limit passes; one more fails |
| Evaluation.DecreasePasses | queue_check.py:222-230 | with a non-negative limit, an unchanged or falling failed count passes |
| Evaluation.WorkerCountOffByOne | queue_check.py:213-217 | one worker too many or too few on any expected queue fails worker_check |
| Evaluation.ExtrasHarmless | queue_check.py:193-219 | extra queues and extra worker entries never turn an ok queue or worker check into FAIL |
| Evaluation.OrderIrrelevant | queue_check.py:193-219 | the verdicts depend only on which queues and worker expectations are listed, not their order or repeats |
| Evaluation.ShouldNotify | queue_check.py:57-63 | the all-ok comparison: a notification is due exactly when some one of the three checks is not ok |
| Evaluation.NotifyIff | queue_check.py:57-63 | a notification is sent exactly when a queue is missing, a worker count is wrong, or the failures surged |
| Evaluation.ExampleAllOk | queue_check.py:171-177 | the first docstring example yields three ok verdicts and no notification |
| Evaluation.ExampleAllFail | queue_check.py:179-185 | the second docstring example yields three FAIL verdicts and a notification |

## Left out

- Reading configuration and the logging setup from the environment at import time (queue_check.py:23-33). The expectations and the previous failed count are parameters of the model.
- Running `rqinfo` as a subprocess and decoding its bytes (queue_check.py:81-90). The model starts from the report text.
- Loading and saving the history file as JSON, including the `makedirs` fallback (queue_check.py:71-78, 144-163). This is file I/O.
- Building the e-mail body (which uses `datetime.now()` and `pprint`) and sending it over SMTP (queue_check.py:236-287). This is nondeterministic and foreign code; only the decision to send is modelled.
- How `run_code` orders its steps, beyond the notify decision (queue_check.py:39-65). This includes that the new snapshot is saved before it is evaluated.
- The `log.debug` calls. They do not affect any result.
- An absolute permitted-failures ceiling. queue_check.py has only the surge-delta policy (lines 222-230), so no such variant is modelled.
- Text.ParseInt: Python's `int()` also accepts underscores between digits and non-ASCII decimal digits. Counts here are an optional sign and ASCII digits only.
- Evaluation.Expectations: the expectations are a typed record. The `KeyError` that a missing `expected_queues`, `expected_workers` or `surge_failure_limit` key, or a missing `queue`/`worker_count` key, would raise is not modelled; the same goes for the `type(...)` assertions at lines 187-189.
- RqInfo.Snapshot: the worker map is a Dafny `map`. Python dictionaries also keep insertion order, but nothing at lines 166-233 depends on that order.
- Evaluation.DecreasePasses: requires a non-negative surge limit, because with a negative limit even an unchanged count fails, as the code is written.
- RqInfo.Parse: a negative `queue failed -3` count is accepted, as the code accepts it. No bound on the count is imposed.
- RqInfo.Parse: nothing forces the queue list and the worker map to name the same queues. A queue line with no worker line, or a worker line with no queue line, is accepted as is (`RqInfoExamples.QueueWithoutWorkers`).
