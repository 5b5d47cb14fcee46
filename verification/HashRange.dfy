/** Points on the circle of 2^32 hash values, and the cyclic ranges [start, end) of migration tasks. */
module HashRange {
  const SPACE := 0x1_0000_0000

  type uint32 = x: int | 0 <= x < SPACE

  /** internal/cache/enumeration.go and internal/cluster/migration.go each hold a copy of this test;
      start == end means the whole circle. */
  predicate HashInRange(hash: uint32, start: uint32, end: uint32) {
    if start < end then start <= hash < end else hash >= start || hash < end
  }

  /** How far one travels clockwise from a to reach b. */
  function Gap(a: uint32, b: uint32): uint32 {
    if a <= b then b - a else b - a + SPACE
  }

  /** The next point clockwise. */
  function Next(h: uint32): uint32 {
    if h + 1 == SPACE then 0 else h + 1
  }

  /** A point is in [start, end) exactly when the point after it is in (start, end]; all are if the two are the same. */
  lemma InRangeByGap(h: uint32, start: uint32, end: uint32)
    ensures HashInRange(h, start, end) <==> start == end || Gap(Next(h), end) < Gap(start, end)
  {
  }
}
