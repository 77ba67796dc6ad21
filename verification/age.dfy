/**
 * How long ago something happened, in the coarse units the listings show: under a
 * minute, whole minutes, whole hours or whole days. The elapsed time is integer
 * seconds; Go's `int(d.Minutes())`, `int(d.Hours())` and `int(d.Hours()/24)` truncate,
 * which for a non-negative count of seconds is the floor of the quotient.
 */
module Age {
  const SecondsPerMinute: int := 60
  const SecondsPerHour: int := 60 * 60
  const SecondsPerDay: int := 24 * 60 * 60

  /** The bucket an age falls in, with its whole number of units. */
  datatype Bucket = UnderAMinute | Minutes(n: nat) | Hours(n: nat) | Days(n: nat)

  /**
   * The bucket of `elapsed` seconds: the first unit whose next size up has not been
   * reached, and the number of whole units elapsed. A negative age (a clock running
   * behind) counts as under a minute.
   */
  function BucketOf(elapsed: int): (b: Bucket)
    ensures b.UnderAMinute? <==> elapsed < SecondsPerMinute
    ensures b.Minutes? <==> SecondsPerMinute <= elapsed < SecondsPerHour
    ensures b.Hours? <==> SecondsPerHour <= elapsed < SecondsPerDay
    ensures b.Days? <==> SecondsPerDay <= elapsed
    ensures b.Minutes? ==> 1 <= b.n < 60 && b.n * SecondsPerMinute <= elapsed < (b.n + 1) * SecondsPerMinute
    ensures b.Hours? ==> 1 <= b.n < 24 && b.n * SecondsPerHour <= elapsed < (b.n + 1) * SecondsPerHour
    ensures b.Days? ==> 1 <= b.n && b.n * SecondsPerDay <= elapsed < (b.n + 1) * SecondsPerDay
  {
    if elapsed < SecondsPerMinute then UnderAMinute
    else if elapsed < SecondsPerHour then Minutes(elapsed / SecondsPerMinute)
    else if elapsed < SecondsPerDay then Hours(elapsed / SecondsPerHour)
    else Days(elapsed / SecondsPerDay)
  }

  /** An older age never lands in a smaller bucket, nor in fewer units of the same one. */
  lemma BucketMonotone(a: int, b: int)
    requires a <= b
    ensures Rank(BucketOf(a)) <= Rank(BucketOf(b))
    ensures Rank(BucketOf(a)) == Rank(BucketOf(b)) && !BucketOf(a).UnderAMinute? ==> BucketOf(a).n <= BucketOf(b).n
  {
    var x, y := BucketOf(a), BucketOf(b);
    if Rank(x) == Rank(y) && !x.UnderAMinute? {
      var unit := if x.Minutes? then SecondsPerMinute else if x.Hours? then SecondsPerHour else SecondsPerDay;
      assert x.n * unit <= a <= b < (y.n + 1) * unit;
    }
  }

  /** The order of the buckets. */
  function Rank(b: Bucket): nat
  {
    match b
    case UnderAMinute => 0
    case Minutes(_) => 1
    case Hours(_) => 2
    case Days(_) => 3
  }
}
