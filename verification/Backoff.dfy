/**
 The retry delay of a failed job: quadratic in the attempt number, capped at five minutes.
 */
module Backoff {

  const BASE_SECONDS := 15
  const CAP_SECONDS := 300

  // retryBackoff, in seconds
  function RetryBackoff(attempt: int): int {
    if attempt <= 1 then BASE_SECONDS
    else
      var seconds := BASE_SECONDS * attempt * attempt;
      if seconds > CAP_SECONDS then CAP_SECONDS else seconds
  }

  // The delay accumulated by failures 1 .. failures - 1, each of which is retried.
  function TotalBackoff(failures: int): int
    decreases failures
  {
    if failures <= 1 then 0 else TotalBackoff(failures - 1) + RetryBackoff(failures - 1)
  }

  // For a real attempt number the delay is the smaller of the cap and 15 n^2, and never shrinks.
  lemma RetryBackoffIsCappedQuadratic(m: int, n: int)
    ensures 1 <= n <= 4 ==> RetryBackoff(n) == 15 * n * n <= CAP_SECONDS
    ensures n >= 5 ==> RetryBackoff(n) == CAP_SECONDS < 15 * n * n
    ensures m <= n ==> BASE_SECONDS <= RetryBackoff(m) <= RetryBackoff(n) <= CAP_SECONDS
  {
    QuadraticIsMonotone(m, n);
    if n >= 5 {
      QuadraticIsMonotone(5, n);
    }
    QuadraticIsMonotone(1, m);
    QuadraticIsMonotone(1, n);
  }

  lemma QuadraticIsMonotone(m: int, n: int)
    ensures 1 <= m <= n ==> 15 * m * m <= 15 * n * n
  {
    if 1 <= m <= n {
      assert m * m <= n * n by {
        assert n * n - m * m == (n - m) * (n + m);
      }
    }
  }

  lemma {:induction false} TotalBackoffClosedForm(failures: int)
    requires failures >= 1
    ensures failures <= 5 ==>
              6 * TotalBackoff(failures) == 15 * (failures - 1) * failures * (2 * failures - 1)
    ensures failures >= 5 ==> TotalBackoff(failures) == 450 + 300 * (failures - 5)
  {
    if failures > 1 {
      TotalBackoffClosedForm(failures - 1);
      RetryBackoffIsCappedQuadratic(failures - 1, failures - 1);
    }
  }
}
