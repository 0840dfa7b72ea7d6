/** Small shared types. */
module Basics {
  datatype Option<+T> = None | Some(value: T)

  /** One octet of a wire format. */
  type Byte = x: int | 0 <= x < 256

  /** Seconds as microseconds: every timer in the firmware counts microseconds. */
  function Micros(seconds: int): int { seconds * 1_000_000 }

  /** If k gaps of length d fit into a span, k is at most the quotient. */
  lemma QuotientBound(k: int, d: int, span: int)
    requires 0 < d && 0 <= span && k * d <= span
    ensures k <= span / d
  {
    var q := span / d;
    assert span < (q + 1) * d by {
      assert span == q * d + span % d;
    }
    if q + 1 <= k {
      MulMonotone(q + 1, k, d);
    }
  }

  lemma MulMonotone(x: int, y: int, d: int)
    requires x <= y && 0 <= d
    ensures x * d <= y * d
  {
    assert y * d - x * d == (y - x) * d;
  }
}
