/** Window assignment: every accepted timestamp belongs to exactly one
    one-minute tumbling window, named by the millisecond at which it starts. */
module Window {

  /** Length of a tumbling window, in milliseconds. */
  const WindowMs: int := 60000

  /** The start of the window that contains `ms`. Dafny's `/` with a positive
      divisor rounds toward negative infinity, as `Math.floor` of the quotient
      does, so negative timestamps fall in the window below them as well. */
  function FloorToMinute(ms: int): (start: int)
    ensures start % WindowMs == 0
    ensures start <= ms < start + WindowMs
  {
    (ms / WindowMs) * WindowMs
  }

  /** A window start is determined by any timestamp inside its window. */
  lemma SameWindowSameKey(t: int, k: int)
    requires k % WindowMs == 0
    requires k <= t < k + WindowMs
    ensures FloorToMinute(t) == k
  {
  }

  /** Two timestamps share a window exactly when the second lies in the
      half-open minute that starts at the first one's window start. */
  lemma SameKeyIff(t1: int, t2: int)
    ensures FloorToMinute(t1) == FloorToMinute(t2)
        <==> FloorToMinute(t1) <= t2 < FloorToMinute(t1) + WindowMs
  {
  }
}
