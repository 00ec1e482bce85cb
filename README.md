# Prime-number background worker, modelled in Dafny

This project models the prime-number background worker of the web-workers
lecture (`HTML_Fundamentals/Advanced/08_web_workers/worker.js`). The worker
gets a message from the main thread. It acts only on the `'calculate'`
command. It scans `i = 2 .. max-1`, tests each `i` with a trial-division
primality test, and collects the primes in ascending order. At every `i` that
is a multiple of 1000 it posts a progress message carrying
`Math.round(i / max * 100)`. At the end it posts one result message with the
collected primes.

Files:

- `primality.dfy`, module `Primality`: the mathematical meaning of primality
  (`IsPrimeNumber`), the worker's `isPrime` as the method `IsPrime` with its
  `while` loop and invariants, and the specification `PrimesBelow(max)` of the
  collected list, with its lemmas.
- `rounding.dfy`, module `Rounding`: the progress percentage
  `PercentComplete(i, max)`. It is `Math.round(i / max * 100)` in exact
  arithmetic, i.e. `(200*i + max) / (2*max)`, the nearest integer with halves
  rounded up.
- `worker.dfy`, module `PrimeWorker`: the `Request` and `Message` datatypes,
  the class `Worker`, and the specification of the output stream with its
  lemmas. `Worker` stands for the worker's global scope `self`. Its field
  `outbox` is the sequence of messages posted so far, so `self.postMessage` is
  an append to `outbox`. `OnMessage` is `self.onmessage`. `CalculatePrimes` is
  `calculatePrimes`, with the `for` loop as a `while` loop whose invariants
  tie the local `primes` list and the outbox to `PrimesBelow` and
  `ProgressReports`.

`CalculatePrimes` is proved to post exactly `Emitted(max)`. The lemmas then show
what that stream is: zero or more progress reports, then exactly one result.
There is one report per multiple of 1000 in `[2, max)`, in increasing order.
Every report lies in `[0, 100]`, and the values never decrease. The result
holds exactly the primes below `max`, strictly ascending.

## Model

| member | source | states |
|---|---|---|
| Primality.IsPrime | HTML_Fundamentals/Advanced/08_web_workers/worker.js:16-27 | returns true exactly when n is prime (n >= 2 with no divisor in [2, n)). So it is false for n <= 1, true for 2 and 3, and false for multiples of 2 or 3 above 3. The loop keeps i = 5 mod 6 and "no divisor of n in [2, i)", and terminates because n - i*i decreases |
| Primality.RoundExtendsRange | HTML_Fundamentals/Advanced/08_web_workers/worker.js:21-25 | one round of the loop (neither i nor i+2 divides n, i = 5 mod 6, n odd and not a multiple of 3) extends the divisor-free range [2, i) to [2, i+6) |
| Primality.SquareBoundSuffices | HTML_Fundamentals/Advanced/08_web_workers/worker.js:22-26 | when the loop stops with i*i > n and no divisor of n in [2, i), n is prime, so the final `return true` is right |
| Primality.PrimesBelowMembers | HTML_Fundamentals/Advanced/08_web_workers/worker.js:30-34 | p is in the collected list for bound max exactly when 2 <= p < max and p is prime |
| Primality.PrimesBelowAscending | HTML_Fundamentals/Advanced/08_web_workers/worker.js:30-34 | the collected list is strictly ascending, so it has no duplicates |
| Primality.SmallBoundHasNoPrimes | HTML_Fundamentals/Advanced/08_web_workers/worker.js:30 | for max <= 2 the collected list is empty |
| Primality.PrimesBelowTen | HTML_Fundamentals/Advanced/08_web_workers/worker.js:30-34 | for max = 10 the collected list is [2, 3, 5, 7] |
| Rounding.PercentComplete | HTML_Fundamentals/Advanced/08_web_workers/worker.js:37 | the result r is Math.round(i/max*100) in exact arithmetic: r - 1/2 <= 100*i/max < r + 1/2 |
| Rounding.PercentInRange | HTML_Fundamentals/Advanced/08_web_workers/worker.js:37 | for 0 <= i <= max the percentage lies in [0, 100] |
| Rounding.PercentMonotone | HTML_Fundamentals/Advanced/08_web_workers/worker.js:30-37 | a larger i never gives a smaller percentage |
| PrimeWorker.ProgressReportsAt | HTML_Fundamentals/Advanced/08_web_workers/worker.js:30-42 | a scan up to n posts (n-1)/1000 progress reports, one per multiple of 1000 in [2, n); the k-th report carries the percentage of i = 1000*(k+1), so reports come in increasing i order |
| PrimeWorker.ProgressReportsInOrder | HTML_Fundamentals/Advanced/08_web_workers/worker.js:36-41 | every progress value lies in [0, 100], and successive values never decrease |
| PrimeWorker.EmittedWellFormed | HTML_Fundamentals/Advanced/08_web_workers/worker.js:30-53 | a 'calculate' request posts progress reports in order, then exactly one result and nothing after it; the stream has 1 + (max-1)/1000 messages for max > 2 and one for max <= 2; the result holds PrimesBelow(max) |
| PrimeWorker.ResultIsPrimesBelow | HTML_Fundamentals/Advanced/08_web_workers/worker.js:13-34 | the final result holds exactly the primes p with 2 <= p < max, strictly ascending |
| PrimeWorker.SmallBoundEmitsEmptyResult | HTML_Fundamentals/Advanced/08_web_workers/worker.js:30-53 | for max <= 2 the loop body never runs: no progress report, and one result with an empty list |
| PrimeWorker.RespondShape | HTML_Fundamentals/Advanced/08_web_workers/worker.js:4-8 | a request produces output exactly when its command is 'calculate', and that output is a well-formed stream; any other command produces no message at all |
| PrimeWorker.OneResultPerCalculate | HTML_Fundamentals/Advanced/08_web_workers/worker.js:4-8 | over a series of requests, the number of result messages equals the number of 'calculate' requests |
| PrimeWorker.Worker.PostMessage | HTML_Fundamentals/Advanced/08_web_workers/worker.js:38-41 | posting appends exactly that message to the outbox |
| PrimeWorker.Worker.OnMessage | HTML_Fundamentals/Advanced/08_web_workers/worker.js:4-8 | the outbox grows by Respond(req): the whole stream of a computation for 'calculate', nothing otherwise |
| PrimeWorker.Worker.CalculatePrimes | HTML_Fundamentals/Advanced/08_web_workers/worker.js:11-54 | the outbox grows by exactly Emitted(max): the loop keeps the local primes list equal to PrimesBelow(i) and the outbox equal to the old outbox plus ProgressReports(i, max) |

## Left out

- The elapsed time: `performance.now()` and `Math.round(end - start)` read a clock, so the result message carries only the primes.
- The worker runtime: delivery of messages between threads, isolation from the main thread, and asynchrony. Posting is modelled as appending to the `outbox` sequence, and each request is handled to completion.
- JavaScript numbers: `max` is an unbounded `int`. A missing, non-integer or non-numeric `max`, and integers beyond 2^53, are not modelled.
- Rounding.PercentComplete: computes `i / max * 100` exactly. The source computes it in double precision, so at an exact `.5` boundary the floating-point value may round differently.
- `csv-worker.js` (CSV statistics worker) is not part of this model: its results come from `parseFloat`, floating-point sums and averages and `toFixed` formatting.
- `non-critical.js` is not part of this model: it is DOM and console glue with no computation.
