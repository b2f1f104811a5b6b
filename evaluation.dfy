/** The decision procedure of queue_check.py (evaluate_qdata): a snapshot of
    the queue runtime is checked against the expectations, giving three
    independent verdicts, and a notification is sent unless all three are ok. */
module Evaluation {
  import opened RqInfo

  /** The values of the result record: 'init' before a check has run, then
      'ok' or 'FAIL'. */
  datatype Verdict = Init | Ok | Fail

  /** One entry of 'expected_workers': a queue and how many workers it must
      have. */
  datatype WorkerExpectation = WorkerExpectation(queue: string, workerCount: int)

  /** The expectations record: 'expected_queues', 'expected_workers' and
      'surge_failure_limit'. */
  datatype Expectations = Expectations(
    expectedQueues: seq<string>,
    expectedWorkers: seq<WorkerExpectation>,
    surgeFailureLimit: int)

  /** The result record: 'queue_check', 'worker_check' and
      'failure_queue_check'. */
  datatype Checks = Checks(queueCheck: Verdict, workerCheck: Verdict, failureQueueCheck: Verdict)

  /** The record the three checks start from. */
  const Pending := Checks(Init, Init, Init)

  /** The record that means nothing needs reporting. */
  const AllOk := Checks(Ok, Ok, Ok)

  // ---------------------------------------------------------------- the rules

  /** Every expected queue is among the snapshot's queues. */
  predicate QueuesPresent(expected: seq<string>, data: Snapshot) {
    forall i :: 0 <= i < |expected| ==> expected[i] in data.queues
  }

  /** The queue has an entry in the worker map, with exactly the expected
      number of workers. */
  predicate WorkerMatches(w: WorkerExpectation, data: Snapshot) {
    w.queue in data.workersByQueue && |data.workersByQueue[w.queue]| == w.workerCount
  }

  /** Every expected worker entry matches. */
  predicate WorkersMatch(expected: seq<WorkerExpectation>, data: Snapshot) {
    forall i :: 0 <= i < |expected| ==> WorkerMatches(expected[i], data)
  }

  /** The failed count grew by more than the limit since the previous run. */
  predicate Surge(previousFailedCount: int, limit: int, data: Snapshot) {
    data.failedCount - previousFailedCount > limit
  }

  function VerdictOf(passed: bool): Verdict {
    if passed then Ok else Fail
  }

  /** What evaluate_qdata decides, stated as the three rules. */
  function Evaluate(previousFailedCount: int, e: Expectations, data: Snapshot): Checks {
    Checks(
      VerdictOf(QueuesPresent(e.expectedQueues, data)),
      VerdictOf(WorkersMatch(e.expectedWorkers, data)),
      VerdictOf(!Surge(previousFailedCount, e.surgeFailureLimit, data)))
  }

  /** Whether run_code sends the notification for this result: whenever any of
      the three checks is not 'ok'. */
  predicate ShouldNotify(r: Checks): (b: bool)
    ensures b <==> r.queueCheck != Ok || r.workerCheck != Ok || r.failureQueueCheck != Ok
  {
    r != AllOk
  }

  // ---------------------------------------------------------------- the procedure

  /** evaluate_qdata: each check starts at 'init'; the queue and worker checks
      walk their expectation list and stop at the first entry that fails,
      marking the check 'FAIL' and raising their flag; a check whose flag is
      still down after its loop is 'ok'.  The failure check compares the
      increase of the failed count with the surge limit. */
  method EvaluateQdata(previousFailedCount: int, expectations: Expectations, data: Snapshot)
    returns (checksResult: Checks)
    ensures checksResult == Evaluate(previousFailedCount, expectations, data)
    ensures checksResult.queueCheck != Init && checksResult.workerCheck != Init
    ensures checksResult.failureQueueCheck != Init
  {
    checksResult := Pending;

    // queue check
    var queueCheckFailed := false;
    var i := 0;
    while i < |expectations.expectedQueues|
      invariant 0 <= i <= |expectations.expectedQueues|
      invariant forall k :: 0 <= k < i ==> expectations.expectedQueues[k] in data.queues
      invariant !queueCheckFailed && checksResult == Pending
    {
      var queue := expectations.expectedQueues[i];
      if queue !in data.queues {
        checksResult := checksResult.(queueCheck := Fail);
        queueCheckFailed := true;
        break;
      }
      i := i + 1;
    }
    if !queueCheckFailed {
      checksResult := checksResult.(queueCheck := Ok);
    }
    assert checksResult.queueCheck == VerdictOf(QueuesPresent(expectations.expectedQueues, data));

    // worker check
    var workerCheckFailed := false;
    var j := 0;
    while j < |expectations.expectedWorkers|
      invariant 0 <= j <= |expectations.expectedWorkers|
      invariant forall k :: 0 <= k < j ==> WorkerMatches(expectations.expectedWorkers[k], data)
      invariant !workerCheckFailed && checksResult.workerCheck == Init
      invariant checksResult.queueCheck == VerdictOf(QueuesPresent(expectations.expectedQueues, data))
      invariant checksResult.failureQueueCheck == Init
    {
      var queue := expectations.expectedWorkers[j].queue;
      var workerCount := expectations.expectedWorkers[j].workerCount;
      if queue !in data.workersByQueue {
        checksResult := checksResult.(workerCheck := Fail);
        workerCheckFailed := true;
        break;
      }
      if |data.workersByQueue[queue]| != workerCount {
        checksResult := checksResult.(workerCheck := Fail);
        workerCheckFailed := true;
        break;
      }
      j := j + 1;
    }
    if !workerCheckFailed {
      checksResult := checksResult.(workerCheck := Ok);
    }

    // failure-count check
    var failureIncrease := data.failedCount - previousFailedCount;
    var surgeFailureLimit := expectations.surgeFailureLimit;
    if failureIncrease > surgeFailureLimit {
      checksResult := checksResult.(failureQueueCheck := Fail);
    } else {
      checksResult := checksResult.(failureQueueCheck := Ok);
    }
  }

  // ---------------------------------------------------------------- properties

  /** Each check is 'ok' exactly when its rule holds and 'FAIL' otherwise; no
      check is left at 'init'. */
  lemma EvaluateVerdicts(previousFailedCount: int, e: Expectations, data: Snapshot)
    ensures var r := Evaluate(previousFailedCount, e, data);
      && (r.queueCheck == Ok <==> forall q :: q in e.expectedQueues ==> q in data.queues)
      && (r.queueCheck == Fail <==> exists q :: q in e.expectedQueues && q !in data.queues)
      && (r.workerCheck == Ok <==>
            forall w :: w in e.expectedWorkers ==>
              w.queue in data.workersByQueue && |data.workersByQueue[w.queue]| == w.workerCount)
      && (r.workerCheck == Fail <==>
            exists w :: w in e.expectedWorkers &&
              (w.queue !in data.workersByQueue || |data.workersByQueue[w.queue]| != w.workerCount))
      && (r.failureQueueCheck == Fail <==> data.failedCount - previousFailedCount > e.surgeFailureLimit)
      && (r.failureQueueCheck == Ok <==> data.failedCount - previousFailedCount <= e.surgeFailureLimit)
  {
    var r := Evaluate(previousFailedCount, e, data);
    if r.queueCheck == Fail {
      var i :| 0 <= i < |e.expectedQueues| && e.expectedQueues[i] !in data.queues;
      assert e.expectedQueues[i] in e.expectedQueues;
    }
    if r.workerCheck == Fail {
      var i :| 0 <= i < |e.expectedWorkers| && !WorkerMatches(e.expectedWorkers[i], data);
      assert e.expectedWorkers[i] in e.expectedWorkers;
    }
  }

  /** An increase equal to the limit passes; one more fails. */
  lemma SurgeBoundary(previousFailedCount: int, e: Expectations, data: Snapshot)
    ensures data.failedCount == previousFailedCount + e.surgeFailureLimit ==>
      Evaluate(previousFailedCount, e, data).failureQueueCheck == Ok
    ensures data.failedCount == previousFailedCount + e.surgeFailureLimit + 1 ==>
      Evaluate(previousFailedCount, e, data).failureQueueCheck == Fail
  {
  }

  /** With a limit that is not negative, an unchanged or falling failed count
      passes. */
  lemma DecreasePasses(previousFailedCount: int, e: Expectations, data: Snapshot)
    requires e.surgeFailureLimit >= 0 && data.failedCount <= previousFailedCount
    ensures Evaluate(previousFailedCount, e, data).failureQueueCheck == Ok
  {
  }

  /** One worker more or fewer than expected fails the worker check. */
  lemma WorkerCountOffByOne(previousFailedCount: int, e: Expectations, data: Snapshot, i: nat)
    requires i < |e.expectedWorkers|
    requires e.expectedWorkers[i].queue in data.workersByQueue
    requires |data.workersByQueue[e.expectedWorkers[i].queue]| == e.expectedWorkers[i].workerCount + 1
          || |data.workersByQueue[e.expectedWorkers[i].queue]| == e.expectedWorkers[i].workerCount - 1
    ensures Evaluate(previousFailedCount, e, data).workerCheck == Fail
  {
    assert !WorkerMatches(e.expectedWorkers[i], data);
  }

  /** A snapshot with more queues, and with more entries in the worker map,
      passes every queue and worker check the smaller one passes: queues and
      workers nobody expects never cause a failure. */
  lemma ExtrasHarmless(previousFailedCount: int, e: Expectations, data: Snapshot, bigger: Snapshot)
    requires forall q :: q in data.queues ==> q in bigger.queues
    requires forall k :: k in data.workersByQueue ==>
      k in bigger.workersByQueue && bigger.workersByQueue[k] == data.workersByQueue[k]
    ensures Evaluate(previousFailedCount, e, data).queueCheck == Ok ==>
      Evaluate(previousFailedCount, e, bigger).queueCheck == Ok
    ensures Evaluate(previousFailedCount, e, data).workerCheck == Ok ==>
      Evaluate(previousFailedCount, e, bigger).workerCheck == Ok
  {
    if WorkersMatch(e.expectedWorkers, data) {
      forall i | 0 <= i < |e.expectedWorkers| ensures WorkerMatches(e.expectedWorkers[i], bigger) {
        assert WorkerMatches(e.expectedWorkers[i], data);
      }
    }
  }

  /** The order in which the expectations are listed does not matter: only
      which entries are listed does. */
  lemma OrderIrrelevant(previousFailedCount: int, e: Expectations, f: Expectations, data: Snapshot)
    requires forall q :: q in e.expectedQueues <==> q in f.expectedQueues
    requires forall w :: w in e.expectedWorkers <==> w in f.expectedWorkers
    requires e.surgeFailureLimit == f.surgeFailureLimit
    ensures Evaluate(previousFailedCount, e, data) == Evaluate(previousFailedCount, f, data)
  {
    EvaluateVerdicts(previousFailedCount, e, data);
    EvaluateVerdicts(previousFailedCount, f, data);
  }

  /** The notification goes out exactly when an expected queue is missing, an
      expected worker entry does not match, or the failed count surged. */
  lemma NotifyIff(previousFailedCount: int, e: Expectations, data: Snapshot)
    ensures ShouldNotify(Evaluate(previousFailedCount, e, data)) <==>
      || !QueuesPresent(e.expectedQueues, data)
      || !WorkersMatch(e.expectedWorkers, data)
      || Surge(previousFailedCount, e.surgeFailureLimit, data)
  {
  }

  // ---------------------------------------------------------------- the docstring examples

  /** The all-ok example: previous count 10, limit 10, count 15. */
  lemma ExampleAllOk()
    ensures var e := Expectations(["q1", "q2"], [WorkerExpectation("q1", 1)], 10);
      var data := Snapshot(15, ["q1", "q2", "failed"],
        map["q1" := ["server.123"], "q2" := ["server.234"], "failed" := []]);
      Evaluate(10, e, data) == AllOk && !ShouldNotify(Evaluate(10, e, data))
  {
    var e := Expectations(["q1", "q2"], [WorkerExpectation("q1", 1)], 10);
    var data := Snapshot(15, ["q1", "q2", "failed"],
      map["q1" := ["server.123"], "q2" := ["server.234"], "failed" := []]);
    assert e.expectedQueues[0] == data.queues[0];
    assert e.expectedQueues[1] == data.queues[1];
    assert QueuesPresent(e.expectedQueues, data);
    assert |data.workersByQueue["q1"]| == 1;
    assert WorkersMatch(e.expectedWorkers, data);
  }

  /** The problem example: q3 is missing, q2 has no worker entry, and the
      failed count rose by 20 against a limit of 10. */
  lemma ExampleAllFail()
    ensures var e := Expectations(["q1", "q2", "q3"],
        [WorkerExpectation("q1", 1), WorkerExpectation("q2", 1)], 10);
      var data := Snapshot(30, ["q1", "failed"], map["q1" := ["server.123"], "failed" := []]);
      Evaluate(10, e, data) == Checks(Fail, Fail, Fail) && ShouldNotify(Evaluate(10, e, data))
  {
    var e := Expectations(["q1", "q2", "q3"],
      [WorkerExpectation("q1", 1), WorkerExpectation("q2", 1)], 10);
    var data := Snapshot(30, ["q1", "failed"], map["q1" := ["server.123"], "failed" := []]);
    var q2 := e.expectedQueues[1];
    assert q2 != data.queues[0] && q2 != data.queues[1];
    assert !QueuesPresent(e.expectedQueues, data);
    assert q2 !in data.workersByQueue.Keys;
    assert !WorkerMatches(e.expectedWorkers[1], data);
  }
}
