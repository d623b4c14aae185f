/** Tags of the reorder buffer: 32-bit, wrapping, never 0, compared by signed distance. */
module RobTags {
  const U32 := 0x1_0000_0000
  const HALF := 0x8000_0000

  type Tag = t: int | 0 <= t < U32

  /** `(a.wrapping_sub(b) as i32) < 0` */
  predicate IsOlderThan(a: Tag, b: Tag) { (a - b) % U32 >= HALF }

  predicate IsNewerThan(a: Tag, b: Tag) { IsOlderThan(b, a) }

  /** The counter of `Rob::allocate`: wrapping increment that skips 0. */
  function NextTag(t: Tag): (r: Tag)
    ensures r != 0
  {
    if (t + 1) % U32 == 0 then 1 else (t + 1) % U32
  }

  /** The tag of the `n`-th allocation since reset. */
  function TagOf(n: nat): (t: Tag)
    ensures t != 0
  {
    1 + n % (U32 - 1)
  }

  lemma {:induction false} NextTagOf(n: nat)
    ensures NextTag(TagOf(n)) == TagOf(n + 1)
  {
  }

  /** How far apart two allocations lie in tag space; one more than in allocations if 0 was skipped. */
  function Distance(m: nat, n: nat): (d: int)
  {
    (TagOf(n) - TagOf(m)) % U32
  }

  lemma {:induction false} DistanceRange(m: nat, n: nat)
    requires m <= n < m + (U32 - 1)
    ensures n - m <= Distance(m, n) <= n - m + 1
    ensures m < n ==> 0 < Distance(m, n) < U32
  {
  }

  /** The comparison puts two allocations in their order exactly when they lie less than half the
      tag space apart. */
  lemma {:induction false} OrderIsExact(m: nat, n: nat)
    requires m < n < m + (U32 - 1)
    ensures (IsOlderThan(TagOf(m), TagOf(n)) && !IsOlderThan(TagOf(n), TagOf(m))) <==> Distance(m, n) < HALF
  {
    DistanceRange(m, n);
    var d := Distance(m, n);
    assert (TagOf(m) - TagOf(n)) % U32 == U32 - d;
  }

  /** The largest gap in allocations for which the order is right wherever the counter stands. */
  const WINDOW := HALF - 2

  lemma {:induction false} LiveOrder(m: nat, n: nat)
    requires -WINDOW <= m - n <= WINDOW
    ensures IsOlderThan(TagOf(m), TagOf(n)) <==> m < n
    ensures TagOf(m) == TagOf(n) <==> m == n
  {
    if m < n {
      DistanceRange(m, n);
      OrderIsExact(m, n);
    } else if n < m {
      DistanceRange(n, m);
      OrderIsExact(n, m);
    }
  }

  /** One allocation more, and a skipped 0 between the two, makes each look older than the other. */
  lemma {:induction false} WindowIsTight(m: nat)
    requires m == U32 - 2
    ensures IsOlderThan(TagOf(m), TagOf(m + WINDOW + 1)) && IsOlderThan(TagOf(m + WINDOW + 1), TagOf(m))
  {
  }
}
