/** Run options: clamping host input and pricing the waits between attempts. */
module RunOptions {
  import opened Wrappers
  import opened DependRef

  const MAX_RETRIES_CAP: nat := 10
  const MAX_DELAY_MS_CAP: nat := 60000
  const DEFAULT_MAX_RETRIES: nat := 2
  const DEFAULT_DELAY_MS: nat := 500

  datatype Backoff = Fixed | Exponential

  datatype RetryOptions = RetryOptions(enabled: bool, maxRetries: nat, delayMs: nat, backoff: Backoff)

  datatype CollectionRunOptions = CollectionRunOptions(retry: RetryOptions, skipDestructiveRequests: bool)

  /** Host input; `None` stands for a value that is missing or not a safe integer, boolean or backoff name. */
  datatype RetryInput = RetryInput(
    enabled: Option<bool>, maxRetries: Option<int>, delayMs: Option<int>, backoff: Option<Backoff>)

  datatype RunOptionsInput = RunOptionsInput(retry: Option<RetryInput>, skipDestructiveRequests: Option<bool>)

  const DISABLED_RETRY: RetryOptions := RetryOptions(false, DEFAULT_MAX_RETRIES, DEFAULT_DELAY_MS, Exponential)

  function ClampInt(value: Option<int>, fallback: nat, low: nat, high: nat): nat {
    if value.None? || value.value < low then fallback
    else if value.value < high then value.value else high
  }

  /** Whatever is given is used, numbers that are not negative as far as the caps allow. */
  predicate Honours(o: CollectionRunOptions, i: RunOptionsInput) {
    && (i.skipDestructiveRequests.Some? ==> o.skipDestructiveRequests == i.skipDestructiveRequests.value)
    && (i.retry.Some? ==>
      var given := i.retry.value;
      && (given.enabled.Some? ==> o.retry.enabled == given.enabled.value)
      && (given.maxRetries.Some? && given.maxRetries.value >= 0 ==>
            o.retry.maxRetries == AtMost(given.maxRetries.value, MAX_RETRIES_CAP))
      && (given.delayMs.Some? && given.delayMs.value >= 0 ==>
            o.retry.delayMs == AtMost(given.delayMs.value, MAX_DELAY_MS_CAP))
      && (given.backoff.Some? ==> o.retry.backoff == given.backoff.value))
  }

  /** Whatever is missing, or negative where a count is asked for, is replaced by its default. */
  predicate FallsBack(o: CollectionRunOptions, i: Option<RunOptionsInput>) {
    if i.None? || i.value.retry.None? then o.retry == RetryOptions(false, 2, 500, Exponential)
    else
      var given := i.value.retry.value;
      && (given.maxRetries.None? || given.maxRetries.value < 0 ==> o.retry.maxRetries == 2)
      && (given.delayMs.None? || given.delayMs.value < 0 ==> o.retry.delayMs == 500)
      && (given.backoff.None? ==> o.retry.backoff == Exponential)
  }

  predicate WithinCaps(o: CollectionRunOptions) {
    o.retry.maxRetries <= MAX_RETRIES_CAP && o.retry.delayMs <= MAX_DELAY_MS_CAP
  }

  function NormalizeCollectionRunOptions(input: Option<RunOptionsInput>): (r: CollectionRunOptions)
    ensures WithinCaps(r)
    ensures r.retry.enabled || r.skipDestructiveRequests ==> input.Some?
    ensures r.retry.enabled ==> input.value.retry.Some? && input.value.retry.value.enabled == Some(true)
    ensures r.skipDestructiveRequests ==> input.value.skipDestructiveRequests == Some(true)
    ensures input.Some? ==> Honours(r, input.value)
    ensures FallsBack(r, input)
  {
    match input
    case None => CollectionRunOptions(DISABLED_RETRY, false)
    case Some(i) =>
      var skip := i.skipDestructiveRequests == Some(true);
      match i.retry
      case None => CollectionRunOptions(DISABLED_RETRY, skip)
      case Some(retry) =>
        CollectionRunOptions(
          RetryOptions(
            retry.enabled == Some(true),
            ClampInt(retry.maxRetries, DEFAULT_MAX_RETRIES, 0, MAX_RETRIES_CAP),
            ClampInt(retry.delayMs, DEFAULT_DELAY_MS, 0, MAX_DELAY_MS_CAP),
            if retry.backoff.Some? then retry.backoff.value else Exponential),
          skip)
  }

  function AsInput(o: CollectionRunOptions): RunOptionsInput {
    RunOptionsInput(
      Some(RetryInput(Some(o.retry.enabled), Some(o.retry.maxRetries), Some(o.retry.delayMs), Some(o.retry.backoff))),
      Some(o.skipDestructiveRequests))
  }

  /**
   Options are kept exactly when they are within the caps. So the plan's builder and the run, which both normalize,
   agree on them.
   */
  lemma KeptIffWithinCaps(o: CollectionRunOptions)
    ensures NormalizeCollectionRunOptions(Some(AsInput(o))) == o <==> WithinCaps(o)
  {
    if NormalizeCollectionRunOptions(Some(AsInput(o))) == o {
      assert WithinCaps(NormalizeCollectionRunOptions(Some(AsInput(o))));
    }
  }

  function Pow2(n: nat): (p: nat)
    ensures p >= 1
  {
    if n == 0 then 1 else 2 * Pow2(n - 1)
  }

  /** The wait before attempt `attemptIndex + 1`. */
  function ComputeRetryDelayMs(attemptIndex: int, delayMs: int, backoff: Backoff): (ms: nat)
    ensures ms <= MAX_DELAY_MS_CAP
  {
    if delayMs <= 0 || attemptIndex < 1 then 0
    else
      var raw := if backoff == Fixed then delayMs else delayMs * Pow2(attemptIndex - 1);
      if raw <= 0 then 0 else if raw < MAX_DELAY_MS_CAP then raw else MAX_DELAY_MS_CAP
  }

  /** Waits never shrink from one attempt to the next, whichever backoff is chosen. */
  lemma {:induction false} WaitsNeverShrink(i: int, j: int, delayMs: int, backoff: Backoff)
    requires i <= j
    ensures ComputeRetryDelayMs(i, delayMs, backoff) <= ComputeRetryDelayMs(j, delayMs, backoff)
    decreases j - i
  {
    if i < j {
      WaitsNeverShrink(i, j - 1, delayMs, backoff);
      if j > 1 && delayMs > 0 {
        assert delayMs * Pow2(j - 1) == 2 * (delayMs * Pow2(j - 2)) by {
          DoubleProduct(delayMs, Pow2(j - 2));
        }
        ProductIsPositive(delayMs, Pow2(j - 2));
      }
    }
  }

  /** Exponential waits double until they meet the cap; fixed waits stay. */
  lemma {:induction false} WaitsDoubleToCap(i: nat, delayMs: int)
    requires i >= 1 && delayMs > 0
    ensures ComputeRetryDelayMs(i + 1, delayMs, Exponential)
         == AtMost(2 * ComputeRetryDelayMs(i, delayMs, Exponential), MAX_DELAY_MS_CAP)
    ensures ComputeRetryDelayMs(1, delayMs, Exponential) == ComputeRetryDelayMs(i, delayMs, Fixed)
  {
    assert Pow2(i) == 2 * Pow2(i - 1);
    DoubleProduct(delayMs, Pow2(i - 1));
    ProductIsPositive(delayMs, Pow2(i - 1));
  }

  /**
   Every wait in full: none before the first attempt or without a delay, else the delay, doubled for each wait
   before when exponential, and never more than a minute.
   */
  lemma WaitInFull(k: int, delayMs: int, backoff: Backoff)
    ensures delayMs <= 0 || k < 1 ==> ComputeRetryDelayMs(k, delayMs, backoff) == 0
    ensures delayMs > 0 && k >= 1 && backoff == Fixed ==>
      ComputeRetryDelayMs(k, delayMs, backoff) == AtMost(delayMs, 60000)
    ensures delayMs > 0 && k >= 1 && backoff == Exponential ==>
      ComputeRetryDelayMs(k, delayMs, backoff) == AtMost(delayMs * Pow2(k - 1), 60000)
    ensures delayMs > 0 && backoff == Exponential ==>
      ComputeRetryDelayMs(1, delayMs, backoff) == AtMost(delayMs, 60000)
  {
    if delayMs > 0 && k >= 1 {
      ProductIsPositive(delayMs, Pow2(k - 1));
    }
  }

  lemma {:induction false} Pow2Doubles(n: nat)
    ensures Pow2(0) == 1 && Pow2(n + 1) == Pow2(n) + Pow2(n)
  {
  }

  function AtMost(a: int, cap: nat): int {
    if a < cap then a else cap
  }

  lemma DoubleProduct(a: int, b: int)
    ensures a * (2 * b) == 2 * (a * b)
  {
  }

  lemma ProductIsPositive(a: int, b: int)
    requires a > 0 && b > 0
    ensures a * b > 0
  {
  }

  function TotalWait(waits: seq<nat>): nat {
    if waits == [] then 0 else TotalWait(waits[..|waits| - 1]) + waits[|waits| - 1]
  }

  /** However many waits there are, each is capped. */
  lemma {:induction false} TotalWaitIsCapped(waits: seq<nat>)
    requires forall w :: w in waits ==> w <= MAX_DELAY_MS_CAP
    ensures TotalWait(waits) <= |waits| * MAX_DELAY_MS_CAP
  {
    if waits != [] {
      var front := waits[..|waits| - 1];
      assert waits[|waits| - 1] in waits;
      assert forall w :: w in front ==> w in waits;
      TotalWaitIsCapped(front);
    }
  }

  function UpperCase(c: char): char {
    if 'a' <= c <= 'z' then c - 'a' + 'A' else c
  }

  /** DELETE in any letter case, blanks around it ignored. */
  predicate IsDestructiveHttpMethod(name: string) {
    var trimmed := Trim(name);
    seq(|trimmed|, i requires 0 <= i < |trimmed| => UpperCase(trimmed[i])) == "DELETE"
  }

  /** The methods skipped as destructive: DELETE, whatever its letter case and the blanks around it. */
  lemma DestructiveIff(name: string)
    ensures IsDestructiveHttpMethod(name) <==>
      var t := Trim(name);
      && |t| == 6 && t[0] in {'D', 'd'} && t[1] in {'E', 'e'} && t[2] in {'L', 'l'} && t[3] in {'E', 'e'}
      && t[4] in {'T', 't'} && t[5] in {'E', 'e'}
  {
    var t := Trim(name);
    if |t| == 6 {
      var upper := seq(|t|, i requires 0 <= i < |t| => UpperCase(t[i]));
      assert upper == [UpperCase(t[0]), UpperCase(t[1]), UpperCase(t[2]), UpperCase(t[3]), UpperCase(t[4]),
                       UpperCase(t[5])];
      assert "DELETE" == ['D', 'E', 'L', 'E', 'T', 'E'];
    }
  }
}
