/** `Long.coerceAtLeast(minimumValue: Long?)` from the common extensions. */
module PrimitiveExtensions {
  import opened Wrappers

  /**
   * Raises `x` to `minimum` when a minimum is given and `x` is below it;
   * a null minimum leaves `x` as it is.
   */
  function CoerceAtLeast(x: int, minimum: Option<int>): (r: int)
    ensures r >= x
    ensures minimum.None? ==> r == x
    ensures minimum.Some? ==> r >= minimum.value && (r == x || r == minimum.value)
  {
    if minimum.Some? && x < minimum.value then minimum.value else x
  }

  /** With a minimum the result is the larger of the two. */
  lemma CoerceAtLeastIsMax(x: int, m: int)
    ensures CoerceAtLeast(x, Some(m)) == if x >= m then x else m
  {
  }

  /**
   * Coercing twice against the same minimum is coercing once. It follows
   * from the definition alone and documents the extension's behaviour.
   */
  lemma CoerceAtLeastIdempotent(x: int, minimum: Option<int>)
    ensures CoerceAtLeast(CoerceAtLeast(x, minimum), minimum) == CoerceAtLeast(x, minimum)
  {
  }

  /** Coercion keeps the order of its inputs. */
  lemma CoerceAtLeastMonotonic(x: int, y: int, minimum: Option<int>)
    requires x <= y
    ensures CoerceAtLeast(x, minimum) <= CoerceAtLeast(y, minimum)
  {
  }
}
