/**
 * The retry loop of `GroqLLMClient.generate` (`backend/app/llm/client.py`) over any stream of provider outcomes.
 * Time is counted in quarters of a second.
 */
module LlmRetry {
  import opened Common

  datatype Outcome =
    | Answer(value: string)
    | TemporaryError
    | InvalidOutput
    | ClientError
    | StatusError(code: int)
    | UnexpectedError

  datatype GenerateError = ProviderUnavailable | InvalidResponse | RequestRejected | RequestFailed

  function PowerOfTwo(n: nat): (p: nat)
    ensures p >= 1
  {
    if n == 0 then 1 else 2 * PowerOfTwo(n - 1)
  }

  /** `min(0.25 * 2 ** (retries - 1), 2.0)` */
  function Delay(retry: nat): nat
    requires retry >= 1
  {
    if PowerOfTwo(retry - 1) < 8 then PowerOfTwo(retry - 1) else 8
  }

  /** The pauses before the first `n` retries together. */
  function TotalDelay(n: nat): nat {
    if n == 0 then 0 else TotalDelay(n - 1) + Delay(n)
  }

  lemma {:induction false} DelaySaturates(n: nat)
    requires n >= 4
    ensures PowerOfTwo(n - 1) >= 8
  {
    if n == 4 {
      assert PowerOfTwo(3) == 2 * PowerOfTwo(2) && PowerOfTwo(2) == 2 * PowerOfTwo(1);
    } else {
      DelaySaturates(n - 1);
    }
  }

  /** In closed form: doubling pauses up to the fourth retry, two seconds each from then on. */
  lemma {:induction false} TotalDelayIs(n: nat)
    ensures TotalDelay(n) == FullPause(n)
  {
    if n > 4 {
      TotalDelayIs(n - 1);
      DelaySaturates(n);
      assert PowerOfTwo(4) == 2 * PowerOfTwo(3) && PowerOfTwo(3) == 2 * PowerOfTwo(2) && PowerOfTwo(2) == 2 * PowerOfTwo(1);
    } else if n > 0 {
      TotalDelayIs(n - 1);
      assert PowerOfTwo(3) == 2 * PowerOfTwo(2) && PowerOfTwo(2) == 2 * PowerOfTwo(1);
    }
  }

  /** The closed form of `TotalDelay`. */
  function FullPause(n: nat): nat {
    if n <= 4 then PowerOfTwo(n) - 1 else 15 + 8 * (n - 4)
  }

  /** The first `n` calls failed, and `corrected` is the only one of them whose answer was invalid, if there is one. */
  ghost predicate FailedBefore(outcomes: nat -> Outcome, n: nat, corrected: Option<nat>) {
    && (corrected.Some? ==> corrected.value < n)
    && forall i: nat | i < n ::
      if corrected == Some(i) then outcomes(i).InvalidOutput?
      else outcomes(i).TemporaryError? || (outcomes(i).StatusError? && (outcomes(i).code == 429 || outcomes(i).code >= 500))
  }

  /** All pauses of `n` retries, save the one that a correction takes the place of. */
  function PauseWithout(n: nat, corrected: Option<nat>): int {
    FullPause(n) - match corrected
      case None => 0
      case Some(j) => if PowerOfTwo(j) < 8 then PowerOfTwo(j) else 8
  }

  /**
   * At most `maxRetries + 1` calls and one correction, and a pause before each of the other retries. The last outcome
   * decides: an answer is returned; a failure is reported only if it is final, or no retry is left, or a correction was
   * made already.
   */
  method Generate(outcomes: nat -> Outcome, messages: seq<string>, correction: string, maxRetries: nat)
    returns (r: Result<string, GenerateError>, calls: nat, slept: int, sent: seq<string>, corrected: Option<nat>)
    ensures 1 <= calls <= maxRetries + 1
    ensures FailedBefore(outcomes, calls - 1, corrected)
    ensures sent == messages + if corrected.Some? then [correction] else []
    ensures slept == PauseWithout(calls - 1, corrected) <= FullPause(maxRetries)
    ensures match outcomes(calls - 1)
      case Answer(value) => r == Ok(value)
      case TemporaryError => r == Err(ProviderUnavailable) && calls == maxRetries + 1
      case InvalidOutput => r == Err(InvalidResponse) && (calls == maxRetries + 1 || corrected.Some?)
      case ClientError => r == Err(RequestRejected)
      case StatusError(code) =>
        if code == 429 || code >= 500 then r == Err(ProviderUnavailable) && calls == maxRetries + 1 else r == Err(RequestFailed)
      case UnexpectedError => r == Err(RequestFailed)
  {
    hide PowerOfTwo, FullPause;
    var retries := 0;
    sent, slept, corrected := messages, 0, None;
    NoPauseYet();
    while true
      invariant 0 <= retries <= maxRetries
      invariant FailedBefore(outcomes, retries, corrected)
      invariant sent == messages + if corrected.Some? then [correction] else []
      invariant slept == PauseWithout(retries, corrected)
      decreases maxRetries - retries
    {
      calls := retries + 1;
      OneMorePause(retries, corrected);
      PausesGrow(retries, maxRetries, corrected);
      var outcome := outcomes(retries);
      if outcome.Answer? {
        return Ok(outcome.value), calls, slept, sent, corrected;
      } else if outcome.TemporaryError? {
        if retries >= maxRetries {
          return Err(ProviderUnavailable), calls, slept, sent, corrected;
        }
        retries := retries + 1;
        slept := slept + Delay(retries);
      } else if outcome.InvalidOutput? {
        if corrected.Some? || retries >= maxRetries {
          return Err(InvalidResponse), calls, slept, sent, corrected;
        }
        corrected := Some(retries);
        retries := retries + 1;
        sent := sent + [correction];
      } else if outcome.ClientError? {
        return Err(RequestRejected), calls, slept, sent, corrected;
      } else if outcome.StatusError? {
        if outcome.code == 429 || outcome.code >= 500 {
          if retries >= maxRetries {
            return Err(ProviderUnavailable), calls, slept, sent, corrected;
          }
          retries := retries + 1;
          slept := slept + Delay(retries);
        } else {
          return Err(RequestFailed), calls, slept, sent, corrected;
        }
      } else {
        return Err(RequestFailed), calls, slept, sent, corrected;
      }
    }
  }

  lemma NoPauseYet()
    ensures PauseWithout(0, None) == 0
  {
  }

  lemma OneMorePause(n: nat, corrected: Option<nat>)
    ensures PauseWithout(n + 1, corrected) == PauseWithout(n, corrected) + Delay(n + 1)
    ensures PauseWithout(n + 1, Some(n)) == PauseWithout(n, None)
  {
    TotalDelayIs(n);
    TotalDelayIs(n + 1);
  }

  lemma PausesGrow(m: nat, n: nat, corrected: Option<nat>)
    requires m <= n
    ensures PauseWithout(m, corrected) <= FullPause(n)
  {
    TotalDelayGrows(m, n);
    TotalDelayIs(m);
    TotalDelayIs(n);
  }

  lemma {:induction false} TotalDelayGrows(m: nat, n: nat)
    requires m <= n
    ensures TotalDelay(m) <= TotalDelay(n)
    decreases n - m
  {
    if m == n {
    } else {
      TotalDelayGrows(m, n - 1);
    }
  }
}
