/** The bookkeeping of the fine-tuning run in `train_lora.py`: the step budget computed once
    at startup, and the nested epoch/micro-batch loop with its global micro-batch counter,
    gradient-accumulation boundaries and double `break`. The forward and backward passes,
    loss scaling and AdamW updates are not modelled; the optimiser, the scheduler and the
    gradient buffers are reduced to counters. Whether the gradient scaler finds a non-finite
    gradient at the k-th accumulation boundary is the parameter `nonFinite(k)`. */
module Training {
  import opened Results

  /** What the device probe can answer. */
  datatype Device = Cuda | Mps | Cpu

  /** The command-line arguments the bookkeeping depends on. */
  datatype TrainArgs = TrainArgs(gradAccum: int, epochs: int, warmupSteps: int, maxTrainSteps: int)

  /** `steps_per_epoch`, `total_steps` and the warmup length handed to the scheduler. */
  datatype StepBudget = StepBudget(stepsPerEpoch: int, totalSteps: int, warmupSteps: int)

  datatype TrainError =
    | DeviceNotCuda   // the RuntimeError raised when the device is not "cuda"
    | ZeroDivision    // `len(train_loader) // 0` with `--grad_accum 0`

  /** The counters of the loop. `pending` is the number of micro-batches whose gradients sit
      in the buffers since they were last zeroed; `optimizerSteps` counts the parameter
      updates the scaler actually applied; `schedulerSteps` counts `sched.step()` calls;
      `windows[k]` is the number of micro-batches accumulated when the k-th boundary came. */
  datatype Counters = Counters(step: nat, pending: nat, optimizerSteps: nat, schedulerSteps: nat, windows: seq<nat>)

  datatype TrainRun = TrainRun(budget: StepBudget, counters: Counters)

  function Abs(x: int): nat
  {
    if x < 0 then -x else x
  }

  function Min(a: int, b: int): int
  {
    if a <= b then a else b
  }

  function Max(a: int, b: int): int
  {
    if a >= b then a else b
  }

  /** Python's `a // b`: division rounded towards negative infinity. */
  function FloorDiv(a: int, b: int): (q: int)
    requires b != 0
    ensures b > 0 ==> b * q <= a < b * q + b
    ensures b < 0 ==> b * q >= a > b * q + b
  {
    if b > 0 then a / b else (-a) / (-b)
  }

  /** Python's `a % b`: the remainder takes the sign of the divisor. */
  function PyMod(a: int, b: int): (m: int)
    requires b != 0
    ensures b > 0 ==> 0 <= m < b
    ensures b < 0 ==> b < m <= 0
    ensures m == 0 <==> a % Abs(b) == 0
    ensures m == a - b * FloorDiv(a, b)
  {
    var m := a - b * FloorDiv(a, b);
    NegModZero(a, Abs(b));
    m
  }

  lemma Distrib(d: int, x: int, y: int)
    ensures d * (x + y) == d * x + d * y
  {
  }

  lemma {:induction false} MulAtLeast(d: nat, k: int)
    requires k >= 1
    ensures d * k >= d
    decreases k
  {
    if k > 1 {
      MulAtLeast(d, k - 1);
      Distrib(d, k - 1, 1);
    }
  }

  /** Euclidean division is determined by its defining equation. */
  lemma DivModUnique(a: int, d: int, q: int, r: int)
    requires d > 0 && 0 <= r < d && a == d * q + r
    ensures a / d == q && a % d == r
  {
    var q', r' := a / d, a % d;
    assert a == d * q' + r';
    if q > q' {
      MulAtLeast(d, q - q');
      Distrib(d, q', q - q');
      assert false;
    } else if q < q' {
      MulAtLeast(d, q' - q);
      Distrib(d, q, q' - q);
      assert false;
    }
  }

  lemma NegModZero(a: int, d: int)
    requires d > 0
    ensures (-a) % d == 0 <==> a % d == 0
  {
    if a % d == 0 {
      DivModUnique(-a, d, -(a / d), 0);
    }
    if (-a) % d == 0 {
      DivModUnique(a, d, -((-a) / d), 0);
    }
  }

  /** Lines 87-92: `steps_per_epoch` counts the complete accumulation windows of one epoch but
      is at least 1; `total_steps` is the smaller of the step cap and `steps_per_epoch * epochs`;
      the warmup is the smaller of `--warmup_steps` and a fifth of `total_steps`, rounded down. */
  function Budget(loaderLen: nat, args: TrainArgs): (b: StepBudget)
    requires args.gradAccum != 0
    ensures b.stepsPerEpoch >= 1
    ensures args.gradAccum > 0 && loaderLen >= args.gradAccum ==>
              b.stepsPerEpoch * args.gradAccum <= loaderLen < (b.stepsPerEpoch + 1) * args.gradAccum
    ensures args.gradAccum < 0 || loaderLen < args.gradAccum ==> b.stepsPerEpoch == 1
    ensures b.totalSteps <= args.maxTrainSteps && b.totalSteps <= b.stepsPerEpoch * args.epochs
    ensures b.totalSteps == args.maxTrainSteps || b.totalSteps == b.stepsPerEpoch * args.epochs
    ensures b.warmupSteps <= args.warmupSteps && 5 * b.warmupSteps <= b.totalSteps
    ensures b.warmupSteps == args.warmupSteps || b.totalSteps < 5 * b.warmupSteps + 5
  {
    var stepsPerEpoch := Max(1, FloorDiv(loaderLen, args.gradAccum));
    var totalSteps := Min(args.maxTrainSteps, stepsPerEpoch * args.epochs);
    StepBudget(stepsPerEpoch, totalSteps, Min(args.warmupSteps, FloorDiv(totalSteps, 5)))
  }

  /** One pass through the loop body (lines 103-118) on the counters: the micro-batch's
      gradients are accumulated; on a boundary of the global counter the scaler steps the
      optimiser unless the gradients are non-finite, the gradients are zeroed and the
      scheduler advances regardless; then `step` grows by one. */
  function OnMicroBatch(c: Counters, gradAccum: int, nonFinite: nat -> bool): (r: Counters)
    requires gradAccum != 0
    ensures r.step == c.step + 1
    ensures r.schedulerSteps == c.schedulerSteps + 1 <==> (c.step + 1) % Abs(gradAccum) == 0
    ensures r.schedulerSteps == c.schedulerSteps + 1 ==>
      r.pending == 0 && r.windows == c.windows + [c.pending + 1] &&
      r.optimizerSteps == c.optimizerSteps + (if nonFinite(c.schedulerSteps) then 0 else 1)
    ensures r.schedulerSteps != c.schedulerSteps + 1 ==>
      r.schedulerSteps == c.schedulerSteps && r.pending == c.pending + 1 &&
      r.windows == c.windows && r.optimizerSteps == c.optimizerSteps
  {
    var pending := c.pending + 1;
    if PyMod(c.step + 1, gradAccum) == 0 then
      Counters(c.step + 1, 0,
               c.optimizerSteps + (if nonFinite(c.schedulerSteps) then 0 else 1),
               c.schedulerSteps + 1, c.windows + [pending])
    else
      Counters(c.step + 1, pending, c.optimizerSteps, c.schedulerSteps, c.windows)
  }

  /** The counters after `n` micro-batches, starting from `zero_grad` at line 100. */
  function CountersAfter(n: nat, gradAccum: int, nonFinite: nat -> bool): Counters
    requires gradAccum != 0
  {
    if n == 0 then Counters(0, 0, 0, 0, [])
    else OnMicroBatch(CountersAfter(n - 1, gradAccum, nonFinite), gradAccum, nonFinite)
  }

  /** Number of the first `k` boundaries at which the scaler applied the optimiser step. */
  function Applied(k: nat, nonFinite: nat -> bool): nat
  {
    if k == 0 then 0 else Applied(k - 1, nonFinite) + (if nonFinite(k - 1) then 0 else 1)
  }

  lemma DivModSucc(n: nat, d: nat)
    requires d > 0
    ensures (n + 1) % d == 0 ==> n % d == d - 1 && (n + 1) / d == n / d + 1
    ensures (n + 1) % d != 0 ==> (n + 1) % d == n % d + 1 && (n + 1) / d == n / d
  {
    var q, r := n / d, n % d;
    if r + 1 == d {
      DivModUnique(n + 1, d, q + 1, 0);
    } else {
      DivModUnique(n + 1, d, q, r + 1);
    }
  }

  /** After `n` micro-batches, with `G = |grad_accum|`: the scheduler has stepped `n div G`
      times, once per boundary of the global counter, however the micro-batches fell into
      epochs; the optimiser has stepped at the boundaries with finite gradients and at no
      other time; `n mod G` micro-batches wait in the gradient buffers; and every boundary
      found exactly `G` micro-batches accumulated since the gradients were last zeroed. */
  lemma {:induction false} CountersAfterSpec(n: nat, gradAccum: int, nonFinite: nat -> bool)
    requires gradAccum != 0
    ensures CountersAfter(n, gradAccum, nonFinite).step == n
    ensures CountersAfter(n, gradAccum, nonFinite).schedulerSteps == n / Abs(gradAccum)
    ensures CountersAfter(n, gradAccum, nonFinite).pending == n % Abs(gradAccum)
    ensures CountersAfter(n, gradAccum, nonFinite).optimizerSteps
              == Applied(CountersAfter(n, gradAccum, nonFinite).schedulerSteps, nonFinite)
    ensures |CountersAfter(n, gradAccum, nonFinite).windows| == n / Abs(gradAccum)
    ensures forall k :: 0 <= k < |CountersAfter(n, gradAccum, nonFinite).windows| ==>
              CountersAfter(n, gradAccum, nonFinite).windows[k] == Abs(gradAccum)
  {
    if n > 0 {
      CountersAfterSpec(n - 1, gradAccum, nonFinite);
      DivModSucc(n - 1, Abs(gradAccum));
    }
  }

  /** With no non-finite gradients, the optimiser and the scheduler step equally often. */
  lemma {:induction false} AppliedAllFinite(k: nat, nonFinite: nat -> bool)
    requires forall j :: 0 <= j < k ==> !nonFinite(j)
    ensures Applied(k, nonFinite) == k
  {
    if k > 0 {
      AppliedAllFinite(k - 1, nonFinite);
    }
  }

  /** Skipped optimiser steps never outnumber boundaries: at most one update per boundary. */
  lemma {:induction false} AppliedAtMost(k: nat, nonFinite: nat -> bool)
    ensures Applied(k, nonFinite) <= k
  {
    if k > 0 {
      AppliedAtMost(k - 1, nonFinite);
    }
  }

  /** How many micro-batches the loop runs when it stops once the global counter reaches
      `stopAt`: every micro-batch of every epoch, cut off at `stopAt`; since the test comes
      after the counter is increased, at least one micro-batch runs whenever there is data. */
  function MicroBatchesRun(loaderLen: nat, epochs: int, stopAt: int): nat
  {
    if loaderLen == 0 || epochs <= 0 then 0 else Min(loaderLen * epochs, Max(stopAt, 1))
  }

  lemma MulMonotone(a: nat, b: nat, c: nat)
    requires a <= b
    ensures a * c <= b * c
  {
    if a < b {
      MulAtLeast(c, b - a);
      Distrib(c, a, b - a);
    }
  }

  /** `e * n` by repeated addition, as the loop accumulates it epoch by epoch. */
  function Times(e: nat, n: nat): nat
  {
    if e == 0 then 0 else Times(e - 1, n) + n
  }

  lemma {:induction false} TimesIsMul(e: nat, n: nat)
    ensures Times(e, n) == e * n
  {
    if e > 0 {
      TimesIsMul(e - 1, n);
      Distrib(n, e - 1, 1);
    }
  }

  /** Part-way through epoch `e` of `epochs`, the counter is still within all the data. */
  lemma TimesBound(e: nat, epochs: int, n: nat)
    requires e < epochs
    ensures Times(e, n) + n <= epochs * n
    ensures n > 0 ==> Times(e, n) + n > 0
  {
    TimesIsMul(e + 1, n);
    MulMonotone(e + 1, epochs, n);
  }

  /** The loop stopped on its test: the counter had just reached `stopAt` (or 1). */
  lemma RunLengthAtStop(loaderLen: nat, epochs: int, stopAt: int, step: nat)
    requires loaderLen > 0 && epochs > 0
    requires step == Max(stopAt, 1) && step <= epochs * loaderLen
    ensures step == MicroBatchesRun(loaderLen, epochs, stopAt)
  {
  }

  /** The loop ran out of data: every micro-batch of every epoch was processed. */
  lemma RunLengthAtEnd(loaderLen: nat, epochs: int, stopAt: int, step: nat)
    requires epochs > 0 && step == epochs * loaderLen
    requires step == 0 || step < stopAt
    ensures step == MicroBatchesRun(loaderLen, epochs, stopAt)
  {
    if loaderLen > 0 {
      MulAtLeast(loaderLen, epochs);
    }
  }

  /** Lines 99-125: the nested loop, as written, with its stop test `step >= total_steps`
      given by `stopAt`. It runs exactly `MicroBatchesRun` micro-batches and leaves the
      counters that many micro-batches produce. */
  method TrainLoop(loaderLen: nat, epochs: int, gradAccum: int, stopAt: int, nonFinite: nat -> bool)
    returns (c: Counters)
    requires gradAccum != 0
    ensures c == CountersAfter(MicroBatchesRun(loaderLen, epochs, stopAt), gradAccum, nonFinite)
  {
    var step: nat, pending: nat, optimizerSteps: nat, schedulerSteps: nat := 0, 0, 0, 0;
    var windows: seq<nat> := [];
    var epoch: nat := 0;
    ghost var stopped := false;
    while epoch < epochs
      invariant epochs > 0 ==> epoch <= epochs
      invariant epochs <= 0 ==> epoch == 0
      invariant step == Times(epoch, loaderLen)
      invariant step == 0 || step < stopAt
      invariant !stopped
      invariant Counters(step, pending, optimizerSteps, schedulerSteps, windows)
                == CountersAfter(step, gradAccum, nonFinite)
      decreases epochs - epoch
    {
      var b := 0;
      while b < loaderLen
        invariant 0 <= b <= loaderLen
        invariant step == Times(epoch, loaderLen) + b
        invariant step == 0 || step < stopAt
        invariant !stopped
        invariant Counters(step, pending, optimizerSteps, schedulerSteps, windows)
                  == CountersAfter(step, gradAccum, nonFinite)
      {
        ghost var before := Counters(step, pending, optimizerSteps, schedulerSteps, windows);
        pending := pending + 1;
        if PyMod(step + 1, gradAccum) == 0 {
          windows := windows + [pending];
          if !nonFinite(schedulerSteps) {
            optimizerSteps := optimizerSteps + 1;
          }
          pending := 0;
          schedulerSteps := schedulerSteps + 1;
        }
        step := step + 1;
        assert Counters(step, pending, optimizerSteps, schedulerSteps, windows)
               == OnMicroBatch(before, gradAccum, nonFinite);
        if step >= stopAt {
          TimesBound(epoch, epochs, loaderLen);
          RunLengthAtStop(loaderLen, epochs, stopAt, step);
          stopped := true;
          break;
        }
        b := b + 1;
      }
      if step >= stopAt {
        break;
      }
      epoch := epoch + 1;
    }
    if !stopped {
      if epochs > 0 && epoch == epochs {
        TimesIsMul(epochs, loaderLen);
        RunLengthAtEnd(loaderLen, epochs, stopAt, step);
      } else if epochs > 0 {
        TimesBound(epoch, epochs, loaderLen);
      }
    }
    c := Counters(step, pending, optimizerSteps, schedulerSteps, windows);
  }

  /** What the counters say at the end of a run that stops at `stopAt`. */
  lemma RunCounters(loaderLen: nat, epochs: int, gradAccum: int, stopAt: int, nonFinite: nat -> bool)
    requires gradAccum != 0
    ensures var c := CountersAfter(MicroBatchesRun(loaderLen, epochs, stopAt), gradAccum, nonFinite);
            c.step <= Max(stopAt, 1)
            && c.schedulerSteps == c.step / Abs(gradAccum)
            && c.optimizerSteps <= c.schedulerSteps
  {
    var n := MicroBatchesRun(loaderLen, epochs, stopAt);
    CountersAfterSpec(n, gradAccum, nonFinite);
    AppliedAtMost(CountersAfter(n, gradAccum, nonFinite).schedulerSteps, nonFinite);
  }

  /** `main` from the device check to the end of the loop: training refuses any device other
      than CUDA before anything else, `--grad_accum 0` fails at the budget computation, and
      otherwise the loop runs against the computed `total_steps`. The global counter never
      passes `total_steps` except that one micro-batch always runs when there is data. */
  method TrainMain(device: Device, args: TrainArgs, loaderLen: nat, nonFinite: nat -> bool)
    returns (r: Result<TrainRun, TrainError>)
    ensures device != Cuda ==> r == Err(DeviceNotCuda)
    ensures device == Cuda && args.gradAccum == 0 ==> r == Err(ZeroDivision)
    ensures r.Ok? ==> device == Cuda && args.gradAccum != 0
    ensures r.Ok? ==>
              r.value.budget == Budget(loaderLen, args)
              && r.value.counters
                 == CountersAfter(MicroBatchesRun(loaderLen, args.epochs, r.value.budget.totalSteps),
                                  args.gradAccum, nonFinite)
    ensures r.Ok? ==>
              r.value.counters.step <= Max(r.value.budget.totalSteps, 1)
              && r.value.counters.schedulerSteps == r.value.counters.step / Abs(args.gradAccum)
              && r.value.counters.optimizerSteps <= r.value.counters.schedulerSteps
  {
    if device != Cuda {
      return Err(DeviceNotCuda);
    }
    if args.gradAccum == 0 {
      return Err(ZeroDivision);
    }
    var budget := Budget(loaderLen, args);
    var counters := TrainLoop(loaderLen, args.epochs, args.gradAccum, budget.totalSteps, nonFinite);
    RunCounters(loaderLen, args.epochs, args.gradAccum, budget.totalSteps, nonFinite);
    return Ok(TrainRun(budget, counters));
  }

  /** Dividing a count no larger than `t` by two or more leaves less than `t`. */
  lemma QuotientBelow(n: nat, g: int, t: int)
    requires g >= 2 && t >= 1 && n <= t
    ensures n / g < t
  {
    var q := n / g;
    assert n == g * q + n % g;
    if q >= t {
      MulMonotone(t, q, g);
      MulAtLeast(t, g - 1);
      Distrib(t, g - 1, 1);
      assert false;
    }
  }

  /** `t` windows of `g` fit in `e` epochs of `l` micro-batches when `t <= s * e` and `s * g <= l`. */
  lemma WindowsFit(t: nat, s: nat, e: nat, g: nat, l: nat)
    requires t <= s * e && s * g <= l
    ensures t * g <= l * e
  {
    MulMonotone(t, s * e, g);
    assert (s * e) * g == (s * g) * e;
    MulMonotone(s * g, l, e);
  }

  /** As written, `total_steps` counts optimiser steps but stops a counter of micro-batches:
      with two or more micro-batches per update and at least one full window of data, the
      scheduler, built for `total_steps` positions, never reaches the end of its schedule. */
  lemma WrittenScheduleFallsShort(loaderLen: nat, args: TrainArgs, nonFinite: nat -> bool)
    requires args.gradAccum >= 2 && loaderLen >= args.gradAccum
    requires args.epochs >= 1 && args.maxTrainSteps >= 1
    ensures var b := Budget(loaderLen, args);
            CountersAfter(MicroBatchesRun(loaderLen, args.epochs, b.totalSteps), args.gradAccum, nonFinite)
              .schedulerSteps < b.totalSteps
  {
    var b := Budget(loaderLen, args);
    MulAtLeast(b.stepsPerEpoch, args.epochs);
    var n := MicroBatchesRun(loaderLen, args.epochs, b.totalSteps);
    CountersAfterSpec(n, args.gradAccum, nonFinite);
    QuotientBelow(n, args.gradAccum, b.totalSteps);
  }

  /** A concrete run: 100 micro-batches per epoch, `--grad_accum 4`, one epoch and the default
      cap of 2000 give `total_steps == 25`; the loop stops after 25 micro-batches, having
      stepped the scheduler 6 times out of the 25 it was configured for. */
  lemma WrittenScheduleExample(nonFinite: nat -> bool)
    ensures Budget(100, TrainArgs(4, 1, 200, 2000)).totalSteps == 25
    ensures MicroBatchesRun(100, 1, 25) == 25
    ensures CountersAfter(25, 4, nonFinite).schedulerSteps == 6
  {
    CountersAfterSpec(25, 4, nonFinite);
  }

  /** The stop test the budget calls for: `total_steps` accumulation windows of micro-batches. */
  function IntendedStop(b: StepBudget, gradAccum: int): int
  {
    b.totalSteps * Abs(gradAccum)
  }

  /** Stopping after `total_steps * grad_accum` micro-batches runs the scheduler through exactly
      `total_steps` positions, as configured, with no micro-batch left un-stepped. */
  lemma IntendedScheduleCompletes(loaderLen: nat, args: TrainArgs, nonFinite: nat -> bool)
    requires args.gradAccum >= 1 && loaderLen >= args.gradAccum
    requires args.epochs >= 1 && args.maxTrainSteps >= 1
    ensures var b := Budget(loaderLen, args);
            var c := CountersAfter(MicroBatchesRun(loaderLen, args.epochs, IntendedStop(b, args.gradAccum)),
                                   args.gradAccum, nonFinite);
            c.schedulerSteps == b.totalSteps && c.step == b.totalSteps * args.gradAccum && c.pending == 0
  {
    var b := Budget(loaderLen, args);
    var g := args.gradAccum;
    MulAtLeast(b.stepsPerEpoch, args.epochs);
    WindowsFit(b.totalSteps, b.stepsPerEpoch, args.epochs, g, loaderLen);
    MulAtLeast(b.totalSteps, g);
    var n := MicroBatchesRun(loaderLen, args.epochs, IntendedStop(b, g));
    CountersAfterSpec(n, g, nonFinite);
    DivModUnique(n, g, b.totalSteps, 0);
  }

  /** `main` with the corrected stop test: the same guards and budget, the same loop, stopped
      after `total_steps` full accumulation windows. With at least one window of data, the
      scheduler then completes exactly the `total_steps` steps it was configured with. */
  method TrainMainIntended(device: Device, args: TrainArgs, loaderLen: nat, nonFinite: nat -> bool)
    returns (r: Result<TrainRun, TrainError>)
    ensures device != Cuda ==> r == Err(DeviceNotCuda)
    ensures device == Cuda && args.gradAccum == 0 ==> r == Err(ZeroDivision)
    ensures r.Ok? ==> device == Cuda && args.gradAccum != 0
    ensures r.Ok? ==>
              r.value.budget == Budget(loaderLen, args)
              && r.value.counters
                 == CountersAfter(MicroBatchesRun(loaderLen, args.epochs,
                                                  IntendedStop(r.value.budget, args.gradAccum)),
                                  args.gradAccum, nonFinite)
    ensures r.Ok? && args.gradAccum >= 1 && loaderLen >= args.gradAccum
            && args.epochs >= 1 && args.maxTrainSteps >= 1 ==>
              r.value.counters.schedulerSteps == r.value.budget.totalSteps
              && r.value.counters.pending == 0
  {
    if device != Cuda {
      return Err(DeviceNotCuda);
    }
    if args.gradAccum == 0 {
      return Err(ZeroDivision);
    }
    var budget := Budget(loaderLen, args);
    var counters := TrainLoop(loaderLen, args.epochs, args.gradAccum, IntendedStop(budget, args.gradAccum), nonFinite);
    if args.gradAccum >= 1 && loaderLen >= args.gradAccum && args.epochs >= 1 && args.maxTrainSteps >= 1 {
      IntendedScheduleCompletes(loaderLen, args, nonFinite);
    }
    return Ok(TrainRun(budget, counters));
  }
}
