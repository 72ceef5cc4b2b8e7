/**
 * The helpers of utils.py: drawing an (open, close, duration) triple from two
 * calls of `random.randrange`, and the percentage formula.
 *
 * A call `randrange(start, stop)` is modelled by `Randrange`, which takes the
 * generator's internal draw as an argument (`entropy`); the value is
 * `start + entropy % (stop - start)`, and every value of the range is reached
 * by some entropy. An empty range raises ValueError in Python; here it is
 * `None`.
 */
module Utils {
  import opened Wrappers

  /** The generator's two internal draws for one call of generateRandomRange. */
  datatype Entropy = Entropy(forOpen: nat, forDuration: nat)

  /** An (open day, close day, duration) triple, as generateRandomRange returns it. */
  datatype Key = Key(openDay: nat, closeDay: nat, duration: nat)

  /** `random.randrange(start, stop, 1)`; `None` is the ValueError of an empty range. */
  function Randrange(start: int, stop: int, entropy: nat): (r: Option<int>)
    ensures r.Some? <==> start < stop
    ensures r.Some? ==> start <= r.value < stop
  {
    if stop <= start then None else Some(start + entropy % (stop - start))
  }

  /** The rebinding of `durationCap` in generateRandomRange: the smaller of the cap and `max - open`. */
  function DurationCap(max: int, durationCap: int, open: int): (cap: int)
    ensures cap <= durationCap && cap <= max - open
    ensures cap == durationCap || cap == max - open
    ensures open <= max - 2 && durationCap >= 2 ==> cap >= 2
  {
    if max - open > durationCap then durationCap else max - open
  }

  /** The keys generateRandomRange can return for a table of `max` rows. */
  predicate ValidKey(max: int, durationCap: int, k: Key)
  {
    && k.openDay <= max - 2
    && 1 <= k.duration < durationCap
    && k.duration <= max - k.openDay - 1
    && k.closeDay == k.openDay + k.duration
  }

  /**
   * generateRandomRange(max, durationCap): the open day from randrange(0, max - 1),
   * the duration from randrange(1, min(durationCap, max - open)), close = open + duration.
   */
  function GenerateRandomRange(max: int, durationCap: int, e: Entropy): (r: Option<Key>)
    ensures r.Some? <==> max >= 2 && durationCap >= 2
    ensures r.Some? ==> ValidKey(max, durationCap, r.value)
    ensures r.Some? ==> r.value.duration < durationCap && r.value.closeDay <= max - 1
  {
    match Randrange(0, max - 1, e.forOpen)
    case None => None
    case Some(open) =>
      match Randrange(1, DurationCap(max, durationCap, open), e.forDuration)
      case None => None
      case Some(duration) => Some(Key(open, open + duration, duration))
  }

  /** Every valid key is the outcome of some pair of draws: ValidKey is exactly what can come out. */
  lemma EveryValidKeyIsDrawn(max: int, durationCap: int, k: Key)
    requires ValidKey(max, durationCap, k)
    ensures GenerateRandomRange(max, durationCap, Entropy(k.openDay, k.duration - 1)) == Some(k)
  {
    SmallRemainder(k.openDay, max - 1);
    var cap := DurationCap(max, durationCap, k.openDay);
    SmallRemainder(k.duration - 1, cap - 1);
  }

  lemma SmallRemainder(x: int, m: int)
    requires 0 <= x < m
    ensures x % m == x
  {
  }

  /** The set of all valid keys for a table of `max` rows. */
  function KeySpace(max: int, durationCap: int): (space: set<Key>)
    ensures forall k :: k in space <==> ValidKey(max, durationCap, k)
  {
    set open: nat, close: nat, duration: nat
      | open < max && close < max && duration < durationCap && ValidKey(max, durationCap, Key(open, close, duration))
      :: Key(open, close, duration)
  }

  /** percentage(part, whole) = 100 * part / whole; the source does not guard against a zero whole. */
  function Percentage(part: real, whole: real): (r: real)
    requires whole != 0.0
    ensures r * whole == 100.0 * part
  {
    100.0 * part / whole
  }
}
