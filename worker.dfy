/**
  The prime-number background worker: a request handler that, for the
  'calculate' command, scans 2 .. max-1, collects the primes, posts a progress
  report at every multiple of 1000 and finally posts one result message.
  Posting a message is appending it to the worker's outbox.
*/
module PrimeWorker {
  import opened Primality
  import opened Rounding

  /** An incoming message: its command and the exclusive upper bound of the scan. */
  datatype Request = Request(command: string, max: int)

  /** An outgoing message: a progress report or the final list of primes. */
  datatype Message = Progress(value: int) | Result(primes: seq<int>)

  /** The command that starts a computation; every other command is ignored. */
  const Calculate: string := "calculate"

  /** The progress reports the scan posts while i runs over [2, n). */
  function ProgressReports(n: int, max: int): seq<Message>
    requires n <= max || n <= 2
    decreases n
  {
    if n <= 2 then []
    else
      var i := n - 1;
      ProgressReports(i, max) + (if i % 1000 == 0 then [Progress(PercentComplete(i, max))] else [])
  }

  /** Everything a 'calculate' request with bound max posts, in order. */
  ghost function Emitted(max: int): seq<Message>
  {
    ProgressReports(max, max) + [Result(PrimesBelow(max))]
  }

  /** Everything the worker posts in answer to one request. */
  ghost function Respond(req: Request): seq<Message>
  {
    if req.command == Calculate then Emitted(req.max) else []
  }

  /** Everything the worker posts in answer to a series of requests. */
  ghost function RespondAll(reqs: seq<Request>): seq<Message>
  {
    if reqs == [] then [] else Respond(reqs[0]) + RespondAll(reqs[1..])
  }

  /** Progress reports only, each within [0, 100], never decreasing. */
  predicate ReportsInOrder(s: seq<Message>)
  {
    (forall k :: 0 <= k < |s| ==> s[k].Progress? && 0 <= s[k].value <= 100) &&
    (forall j, k :: 0 <= j < k < |s| ==> s[j].Progress? && s[k].Progress? && s[j].value <= s[k].value)
  }

  /** The shape of one computation's output: progress reports in order, then exactly one result. */
  predicate WellFormedStream(msgs: seq<Message>)
  {
    |msgs| >= 1 && msgs[|msgs| - 1].Result? && ReportsInOrder(msgs[..|msgs| - 1])
  }

  /** The number of result messages in msgs. */
  function CountResults(msgs: seq<Message>): nat
  {
    if msgs == [] then 0 else (if msgs[0].Result? then 1 else 0) + CountResults(msgs[1..])
  }

  /** The number of requests that carry the 'calculate' command. */
  function CountCalculate(reqs: seq<Request>): nat
  {
    if reqs == [] then 0 else (if reqs[0].command == Calculate then 1 else 0) + CountCalculate(reqs[1..])
  }

  /**
    The k-th progress report of a scan up to n carries the percentage of the
    k-th multiple of 1000, and there is one report per multiple of 1000 in [2, n).
  */
  lemma {:induction false} ProgressReportsAt(n: int, max: int)
    requires 2 <= n <= max
    ensures |ProgressReports(n, max)| == (n - 1) / 1000
    ensures forall k :: 0 <= k < |ProgressReports(n, max)| ==>
              ProgressReports(n, max)[k] == Progress(PercentComplete(1000 * (k + 1), max))
    decreases n
  {
    if n > 2 {
      ProgressReportsAt(n - 1, max);
    }
  }

  /** The progress reports of a scan are within [0, 100] and never decrease. */
  lemma ProgressReportsInOrder(n: int, max: int)
    requires 2 <= n <= max
    ensures ReportsInOrder(ProgressReports(n, max))
  {
    var s := ProgressReports(n, max);
    ProgressReportsAt(n, max);
    forall k | 0 <= k < |s|
      ensures s[k].Progress? && 0 <= s[k].value <= 100
    {
      PercentInRange(1000 * (k + 1), max);
    }
    forall j, k | 0 <= j < k < |s|
      ensures s[j].Progress? && s[k].Progress? && s[j].value <= s[k].value
    {
      PercentMonotone(1000 * (j + 1), 1000 * (k + 1), max);
    }
  }

  /**
    A 'calculate' request with bound max posts progress reports in order, one
    per multiple of 1000 below max, then one result holding exactly the primes
    below max in ascending order.
  */
  lemma EmittedWellFormed(max: int)
    ensures WellFormedStream(Emitted(max))
    ensures |Emitted(max)| == 1 + (if max <= 2 then 0 else (max - 1) / 1000)
    ensures Emitted(max)[|Emitted(max)| - 1] == Result(PrimesBelow(max))
  {
    var e := Emitted(max);
    assert e[..|e| - 1] == ProgressReports(max, max);
    if max > 2 {
      ProgressReportsInOrder(max, max);
      ProgressReportsAt(max, max);
    }
  }

  /**
    The result message of a 'calculate' request holds exactly the primes p with
    2 <= p < max, strictly ascending, so without duplicates.
  */
  lemma ResultIsPrimesBelow(max: int)
    ensures Emitted(max)[|Emitted(max)| - 1].Result?
    ensures var r := Emitted(max)[|Emitted(max)| - 1].primes;
            (forall p :: p in r <==> 2 <= p < max && IsPrimeNumber(p)) &&
            (forall j, k :: 0 <= j < k < |r| ==> r[j] < r[k])
  {
    EmittedWellFormed(max);
    PrimesBelowMembers(max);
    PrimesBelowAscending(max);
  }

  /** For a bound of 2 or less nothing is scanned: no progress, and an empty result. */
  lemma SmallBoundEmitsEmptyResult(max: int)
    requires max <= 2
    ensures Emitted(max) == [Result([])]
  {
  }

  /** A request posts something exactly when its command is 'calculate', and then a well-formed stream. */
  lemma RespondShape(req: Request)
    ensures Respond(req) != [] <==> req.command == Calculate
    ensures Respond(req) != [] ==> WellFormedStream(Respond(req))
  {
    EmittedWellFormed(req.max);
  }

  lemma {:induction false} CountResultsAppend(a: seq<Message>, b: seq<Message>)
    ensures CountResults(a + b) == CountResults(a) + CountResults(b)
    decreases |a|
  {
    if a != [] {
      CountResultsAppend(a[1..], b);
      assert (a + b)[1..] == a[1..] + b;
    } else {
      assert a + b == b;
    }
  }

  lemma {:induction false} CountResultsOfReports(s: seq<Message>)
    requires forall k :: 0 <= k < |s| ==> s[k].Progress?
    ensures CountResults(s) == 0
    decreases |s|
  {
    if s != [] {
      CountResultsOfReports(s[1..]);
    }
  }

  /** Every 'calculate' request is answered by exactly one result, and no other request by any. */
  lemma {:induction false} OneResultPerCalculate(reqs: seq<Request>)
    ensures CountResults(RespondAll(reqs)) == CountCalculate(reqs)
    decreases |reqs|
  {
    if reqs != [] {
      var r := Respond(reqs[0]);
      OneResultPerCalculate(reqs[1..]);
      CountResultsAppend(r, RespondAll(reqs[1..]));
      if reqs[0].command == Calculate {
        RespondShape(reqs[0]);
        CountResultsAppend(r[..|r| - 1], [r[|r| - 1]]);
        assert r[..|r| - 1] + [r[|r| - 1]] == r;
        CountResultsOfReports(r[..|r| - 1]);
      }
    }
  }

  /** The worker's global scope: what it has posted to the main thread so far. */
  class Worker {
    var outbox: seq<Message>

    constructor ()
      ensures outbox == []
    {
      outbox := [];
    }

    /** self.postMessage: deliver one message to the main thread. */
    method PostMessage(m: Message)
      modifies this
      ensures outbox == old(outbox) + [m]
    {
      outbox := outbox + [m];
    }

    /** self.onmessage: only the 'calculate' command starts a computation. */
    method OnMessage(req: Request)
      modifies this
      ensures outbox == old(outbox) + Respond(req)
    {
      if req.command == Calculate {
        CalculatePrimes(req.max);
      }
    }

    /** calculatePrimes(max): scan i = 2 .. max-1, collect primes, report progress, post the result. */
    method CalculatePrimes(max: int)
      modifies this
      ensures outbox == old(outbox) + Emitted(max)
    {
      var primes: seq<int> := [];
      var i := 2;
      while i < max
        invariant 2 <= i && (i <= max || i == 2)
        invariant primes == PrimesBelow(i)
        invariant outbox == old(outbox) + ProgressReports(i, max)
      {
        var isPrime := IsPrime(i);
        if isPrime {
          primes := primes + [i];
        }
        if i % 1000 == 0 {
          PostMessage(Progress(PercentComplete(i, max)));
        }
        i := i + 1;
      }
      PostMessage(Result(primes));
    }
  }
}
