/**
 * generatePositions (main.py): sample `quantity` positions whose
 * (open day, close day) pairs are all different, keeping them in a dictionary
 * keyed by `f'{openDay}-{closeDay}'`.
 *
 * The source retries without bound until a draw with a new key comes up. The
 * model consumes a finite sequence of draws instead: when the sequence ends
 * before `quantity` keys were accepted, the result is `OutOfDraws`, which
 * stands for a run that is still drawing.
 */
module Generator {
  import opened Wrappers
  import opened Utils
  import opened PositionKeys
  import opened Positions
  import opened Sampling

  datatype SamplingError =
    | TooFewIndicators  // Exception('Total indicators must be more than 1')
    | EmptyRange        // ValueError from randrange when maxDuration <= 1
    | OutOfDraws        // the supplied draws ended while the loop was still retrying

  /** close = open + duration, as every key generateRandomRange returns. */
  predicate WellFormed(k: Key)
  {
    k.closeDay == k.openDay + k.duration
  }

  predicate AllWellFormed(keys: seq<Key>)
  {
    forall k :: k in keys ==> WellFormed(k)
  }

  /** Both days of every key are rows of a table with `rows` rows. */
  predicate InTable(keys: seq<Key>, rows: nat)
  {
    forall i :: 0 <= i < |keys| ==> keys[i].openDay < rows && keys[i].closeDay < rows
  }

  /** The positions of a sequence of keys, in order: the dictionary's values(). */
  function Build(table: seq<Row>, keys: seq<Key>): (ps: seq<Position>)
    requires InTable(keys, |table|)
    ensures |ps| == |keys|
    ensures forall j :: 0 <= j < |ps| ==>
      ps[j].openDay == keys[j].openDay && ps[j].closeDay == keys[j].closeDay && ps[j].duration == keys[j].duration
  {
    seq(|keys|, j requires 0 <= j < |keys| => CreatePosition(keys[j].openDay, keys[j].closeDay, keys[j].duration, table))
  }

  /** The dictionary after inserting the positions of `keys`, one after another. */
  function Index(table: seq<Row>, keys: seq<Key>): (m: map<string, Position>)
    requires InTable(keys, |table|)
    ensures |m| <= |keys|
  {
    if keys == [] then map[]
    else
      var k := keys[|keys| - 1];
      Index(table, keys[..|keys| - 1])[KeyString(k.openDay, k.closeDay) := CreatePosition(k.openDay, k.closeDay, k.duration, table)]
  }

  /** The dictionary lookup finds a draw's key exactly when that draw was accepted before. */
  lemma {:induction false} IndexHasKey(table: seq<Row>, keys: seq<Key>, k: Key)
    requires InTable(keys, |table|)
    requires AllWellFormed(keys) && WellFormed(k)
    ensures KeyString(k.openDay, k.closeDay) in Index(table, keys) <==> k in keys
  {
    if keys != [] {
      var last := keys[|keys| - 1];
      var earlier := keys[..|keys| - 1];
      assert keys == earlier + [last];
      assert last in keys;
      IndexHasKey(table, earlier, k);
      if KeyString(k.openDay, k.closeDay) == KeyString(last.openDay, last.closeDay) {
        KeyStringInjective(k.openDay, k.closeDay, last.openDay, last.closeDay);
      }
    }
  }

  /**
   * Entries are never overwritten: with no key accepted twice, the position
   * of every accepted key is still stored under its own key at the end.
   */
  lemma {:induction false} IndexKeepsEntries(table: seq<Row>, keys: seq<Key>, j: nat)
    requires InTable(keys, |table|)
    requires AllWellFormed(keys) && Distinct(keys)
    requires j < |keys|
    ensures var k := keys[j];
      KeyString(k.openDay, k.closeDay) in Index(table, keys)
      && Index(table, keys)[KeyString(k.openDay, k.closeDay)] == CreatePosition(k.openDay, k.closeDay, k.duration, table)
  {
    var last := keys[|keys| - 1];
    var earlier := keys[..|keys| - 1];
    if j < |keys| - 1 {
      assert earlier[j] == keys[j];
      IndexKeepsEntries(table, earlier, j);
      var k := keys[j];
      assert k in keys && last in keys;
      if KeyString(k.openDay, k.closeDay) == KeyString(last.openDay, last.closeDay) {
        KeyStringInjective(k.openDay, k.closeDay, last.openDay, last.closeDay);
        assert false;
      }
    }
  }

  /** The dictionary holds exactly one entry per accepted key. */
  lemma {:induction false} IndexSize(table: seq<Row>, keys: seq<Key>)
    requires InTable(keys, |table|)
    requires AllWellFormed(keys) && Distinct(keys)
    ensures |Index(table, keys)| == |keys|
  {
    if keys != [] {
      var last := keys[|keys| - 1];
      var earlier := keys[..|keys| - 1];
      IndexSize(table, earlier);
      assert last !in earlier;
      IndexHasKey(table, earlier, last);
    }
  }

  /** No two positions share an (open day, close day) pair. */
  predicate DistinctPairs(ps: seq<Position>)
  {
    forall i, j :: 0 <= i < j < |ps| ==> ps[i].openDay != ps[j].openDay || ps[i].closeDay != ps[j].closeDay
  }

  /** The bounds a position sampled from a table of `rows` rows satisfies. */
  predicate PositionInRange(rows: int, maxDuration: int, p: Position)
  {
    p.closeDay == p.openDay + p.duration && 1 <= p.duration < maxDuration && p.closeDay < rows
  }

  /**
   * The positions of distinct valid keys never share an (open day, close day)
   * pair and stay within the table and the duration cap.
   */
  lemma BuildValidKeys(table: seq<Row>, keys: seq<Key>, rows: int, maxDuration: int)
    requires rows <= |table|
    requires forall k :: k in keys ==> ValidKey(rows, maxDuration, k)
    requires Distinct(keys)
    ensures InTable(keys, |table|)
    ensures DistinctPairs(Build(table, keys))
    ensures forall p :: p in Build(table, keys) ==> PositionInRange(rows, maxDuration, p)
  {
    assert InTable(keys, |table|) by {
      forall i | 0 <= i < |keys| ensures keys[i].openDay < |table| && keys[i].closeDay < |table| {
        assert keys[i] in keys;
      }
    }
    var ps := Build(table, keys);
    forall i, j | 0 <= i < j < |ps|
      ensures ps[i].openDay != ps[j].openDay || ps[i].closeDay != ps[j].closeDay
    {
      assert keys[i] in keys && keys[j] in keys;
    }
    forall p | p in ps
      ensures PositionInRange(rows, maxDuration, p)
    {
      var j :| 0 <= j < |ps| && ps[j] == p;
      assert keys[j] in keys;
    }
  }

  /**
   * On a table whose closing price rises every day, every sampled position
   * is green with a positive profit.
   */
  lemma RisingSeriesAllGreen(table: seq<Row>, keys: seq<Key>)
    requires forall i, j :: 0 <= i < j < |table| ==> table[i].close < table[j].close
    requires InTable(keys, |table|)
    requires forall k :: k in keys ==> k.openDay < k.closeDay
    ensures forall p :: p in Build(table, keys) ==> p.classLabel == Green && p.profit > 0.0
  {
  }

  /** Valid keys of a table with at most `|table|` rows address rows of the table. */
  lemma ValidKeysInTable(keys: seq<Key>, max: int, durationCap: int, table: seq<Row>)
    requires max <= |table|
    requires forall k :: k in keys ==> ValidKey(max, durationCap, k)
    ensures InTable(keys, |table|) && AllWellFormed(keys)
  {
    forall i | 0 <= i < |keys|
      ensures keys[i].openDay < |table| && keys[i].closeDay < |table|
    {
      assert keys[i] in keys;
    }
  }

  /** The local state of generatePositions: the dictionary and its values in insertion order. */
  datatype Sampler = Sampler(positions: map<string, Position>, values: seq<Position>)

  /**
   * One pass of the retry loop: draw a key; a key already in the dictionary
   * is discarded, a new one is stored with its position.
   */
  function Retry(table: seq<Row>, max: int, durationCap: int, s: Sampler, e: Entropy): Sampler
    requires max <= |table|
  {
    match GenerateRandomRange(max, durationCap, e)
    case None => s
    case Some(k) =>
      var name := KeyString(k.openDay, k.closeDay);
      if name in s.positions then s
      else
        var position := CreatePosition(k.openDay, k.closeDay, k.duration, table);
        Sampler(s.positions[name := position], s.values + [position])
  }

  /** The state after the retry loop has consumed the first `used` draws. */
  function SamplerAfter(table: seq<Row>, max: int, durationCap: int, draws: seq<Entropy>, used: nat): Sampler
    requires max <= |table| && used <= |draws|
  {
    if used == 0 then Sampler(map[], [])
    else Retry(table, max, durationCap, SamplerAfter(table, max, durationCap, draws, used - 1), draws[used - 1])
  }

  /**
   * After any number of draws, the values are the positions of the drawn
   * keys with repeats removed, in the order first drawn, and the dictionary
   * stores each of them under its own key.
   */
  lemma {:induction false} SamplerAfterAccepts(table: seq<Row>, max: int, durationCap: int, draws: seq<Entropy>, used: nat)
    requires max <= |table| && used <= |draws|
    ensures var accepted := Dedup(DrawnKeys(max, durationCap, draws[..used]));
      && InTable(accepted, |table|)
      && SamplerAfter(table, max, durationCap, draws, used) == Sampler(Index(table, accepted), Build(table, accepted))
  {
    var accepted := Dedup(DrawnKeys(max, durationCap, draws[..used]));
    ValidKeysInTable(accepted, max, durationCap, table);
    if used > 0 {
      SamplerAfterAccepts(table, max, durationCap, draws, used - 1);
      AcceptsStep(table, max, durationCap, draws, used - 1);
    }
  }

  /**
   * The dictionary only grows: a later state keeps every entry of an earlier
   * one unchanged, and the values of the earlier state are a prefix of the later.
   */
  lemma {:induction false} SamplerOnlyGrows(table: seq<Row>, max: int, durationCap: int, draws: seq<Entropy>, used1: nat, used2: nat)
    requires max <= |table| && used1 <= used2 <= |draws|
    ensures var s1 := SamplerAfter(table, max, durationCap, draws, used1);
      var s2 := SamplerAfter(table, max, durationCap, draws, used2);
      && (forall name :: name in s1.positions ==> name in s2.positions && s2.positions[name] == s1.positions[name])
      && s1.values <= s2.values
  {
    if used1 < used2 {
      SamplerOnlyGrows(table, max, durationCap, draws, used1, used2 - 1);
    }
  }

  /**
   * The dictionary never holds more entries than there are keys
   * generateRandomRange can return.
   */
  lemma SamplerWithinKeySpace(table: seq<Row>, max: int, durationCap: int, draws: seq<Entropy>, used: nat)
    requires max <= |table| && used <= |draws|
    ensures |SamplerAfter(table, max, durationCap, draws, used).positions| <= |KeySpace(max, durationCap)|
  {
    SamplerAfterAccepts(table, max, durationCap, draws, used);
    var accepted := Dedup(DrawnKeys(max, durationCap, draws[..used]));
    ValidKeysInTable(accepted, max, durationCap, table);
    IndexSize(table, accepted);
    AcceptedWithinKeySpace(max, durationCap, draws[..used]);
  }

  /** Accepting one more key appends its position to the values and stores it under its own key. */
  lemma Append(table: seq<Row>, keys: seq<Key>, k: Key)
    requires InTable(keys, |table|) && k.openDay < |table| && k.closeDay < |table|
    ensures InTable(keys + [k], |table|)
    ensures var p := CreatePosition(k.openDay, k.closeDay, k.duration, table);
      && Build(table, keys + [k]) == Build(table, keys) + [p]
      && Index(table, keys + [k]) == Index(table, keys)[KeyString(k.openDay, k.closeDay) := p]
  {
  }

  /** One pass of the retry loop keeps the values and the dictionary in step with the accepted keys. */
  lemma AcceptsStep(table: seq<Row>, max: int, durationCap: int, draws: seq<Entropy>, used: nat)
    requires max <= |table| && used < |draws|
    requires var accepted := Dedup(DrawnKeys(max, durationCap, draws[..used]));
      && InTable(accepted, |table|)
      && SamplerAfter(table, max, durationCap, draws, used) == Sampler(Index(table, accepted), Build(table, accepted))
    ensures var accepted := Dedup(DrawnKeys(max, durationCap, draws[..used + 1]));
      && InTable(accepted, |table|)
      && SamplerAfter(table, max, durationCap, draws, used + 1) == Sampler(Index(table, accepted), Build(table, accepted))
  {
    var before := DrawnKeys(max, durationCap, draws[..used]);
    var earlier := Dedup(before);
    var accepted := Dedup(DrawnKeys(max, durationCap, draws[..used + 1]));
    ValidKeysInTable(earlier, max, durationCap, table);
    ValidKeysInTable(accepted, max, durationCap, table);
    match GenerateRandomRange(max, durationCap, draws[used])
    case None =>
      assert draws[..used + 1][..used] == draws[..used];
    case Some(k) =>
      DrawnKeysStep(max, durationCap, draws, used, k);
      DedupStep(before, k);
      IndexHasKey(table, earlier, k);
      if k !in earlier {
        Append(table, earlier, k);
      }
  }

  /**
   * Once the first `used` draws have produced `quantity` distinct keys, those
   * keys are the first `quantity` distinct keys of the whole stream.
   */
  lemma AcceptedPrefix(max: int, durationCap: int, draws: seq<Entropy>, used: nat, quantity: nat)
    requires used <= |draws|
    requires |Dedup(DrawnKeys(max, durationCap, draws[..used]))| == quantity
    ensures quantity <= |Dedup(DrawnKeys(max, durationCap, draws))|
    ensures Dedup(DrawnKeys(max, durationCap, draws))[..quantity] == Dedup(DrawnKeys(max, durationCap, draws[..used]))
  {
    DrawnKeysPrefix(max, durationCap, draws, used);
    DedupPrefix(DrawnKeys(max, durationCap, draws[..used]), DrawnKeys(max, durationCap, draws));
  }

  /**
   * When the loop stops after `used` draws holding `quantity` positions,
   * those are the positions of the first `quantity` distinct keys drawn
   * from the whole stream, pairwise distinct and inside the table.
   */
  lemma SamplerFilled(table: seq<Row>, max: int, durationCap: int, draws: seq<Entropy>, used: nat, quantity: nat)
    requires max <= |table| && used <= |draws|
    requires |SamplerAfter(table, max, durationCap, draws, used).values| == quantity
    ensures quantity <= |Dedup(DrawnKeys(max, durationCap, draws))|
    ensures quantity <= |KeySpace(max, durationCap)|
    ensures var values := SamplerAfter(table, max, durationCap, draws, used).values;
      var accepted := Dedup(DrawnKeys(max, durationCap, draws))[..quantity];
      && InTable(accepted, |table|) && values == Build(table, accepted)
      && DistinctPairs(values)
      && forall p :: p in values ==> PositionInRange(max, durationCap, p)
  {
    SamplerAfterAccepts(table, max, durationCap, draws, used);
    var accepted := Dedup(DrawnKeys(max, durationCap, draws[..used]));
    assert |Build(table, accepted)| == |accepted|;
    BuildValidKeys(table, accepted, max, durationCap);
    AcceptedPrefix(max, durationCap, draws, used, quantity);
    AcceptedWithinKeySpace(max, durationCap, draws);
  }

  /** When every draw is used up before `quantity` positions are held, fewer than `quantity` distinct keys exist in the stream. */
  lemma SamplerExhausted(table: seq<Row>, max: int, durationCap: int, draws: seq<Entropy>, quantity: int)
    requires max <= |table|
    requires |SamplerAfter(table, max, durationCap, draws, |draws|).values| < quantity
    ensures |Dedup(DrawnKeys(max, durationCap, draws))| < quantity
  {
    SamplerAfterAccepts(table, max, durationCap, draws, |draws|);
    assert draws[..|draws|] == draws;
  }

  /**
   * generatePositions(quantity, totalIndicators, maxDuration, indicators),
   * with `draws` the successive draws of the random generator.
   */
  method GeneratePositions(quantity: int, totalIndicators: int, maxDuration: int, table: seq<Row>, draws: seq<Entropy>)
      returns (r: Result<seq<Position>, SamplingError>)
    requires totalIndicators <= |table|
    ensures r == Err(TooFewIndicators) <==> totalIndicators <= 1
    ensures r == Err(EmptyRange) <==> totalIndicators > 1 && quantity > 0 && maxDuration <= 1 && draws != []
    ensures r.Ok? <==> (totalIndicators > 1
      && (quantity <= 0 || quantity <= |Dedup(DrawnKeys(totalIndicators, maxDuration, draws))|))
    ensures r.Ok? ==> |r.value| == if quantity > 0 then quantity else 0
    ensures r.Ok? && quantity > 0 ==>
      var accepted := Dedup(DrawnKeys(totalIndicators, maxDuration, draws))[..quantity];
      InTable(accepted, |table|) && r.value == Build(table, accepted)
    ensures r.Ok? ==> DistinctPairs(r.value)
    ensures r.Ok? ==> forall p :: p in r.value ==> PositionInRange(totalIndicators, maxDuration, p)
    ensures totalIndicators > 1 && quantity > |KeySpace(totalIndicators, maxDuration)| ==> r.Err?
  {
    if totalIndicators <= 1 {
      return Err(TooFewIndicators);
    }
    var positions: map<string, Position> := map[];
    var values: seq<Position> := [];  // positions.values(), in insertion order
    var used := 0;
    var n := 0;
    while n < quantity
      invariant n <= if quantity < 0 then 0 else quantity
      invariant used <= |draws| && (used > 0 ==> maxDuration >= 2)
      invariant Sampler(positions, values) == SamplerAfter(table, totalIndicators, maxDuration, draws, used)
      invariant |values| == n
      decreases quantity - n
    {
      var failure;
      positions, values, used, failure := RetryUntilNew(table, totalIndicators, maxDuration, draws, positions, values, used);
      if failure.Some? {
        if failure.value == OutOfDraws {
          SamplerExhausted(table, totalIndicators, maxDuration, draws, quantity);
          AcceptedWithinKeySpace(totalIndicators, maxDuration, draws);
        }
        return Err(failure.value);
      }
      n := n + 1;
    }
    SamplerFilled(table, totalIndicators, maxDuration, draws, used, n);
    return Ok(values);
  }

  /**
   * The retry loop inside generatePositions: draw keys from `draws[start..]`
   * until one is not yet in the dictionary, then store its position.
   */
  method RetryUntilNew(table: seq<Row>, totalIndicators: int, maxDuration: int, draws: seq<Entropy>,
                       positions: map<string, Position>, values: seq<Position>, start: nat)
      returns (newPositions: map<string, Position>, newValues: seq<Position>, used: nat, failure: Option<SamplingError>)
    requires totalIndicators <= |table| && start <= |draws|
    requires Sampler(positions, values) == SamplerAfter(table, totalIndicators, maxDuration, draws, start)
    ensures start <= used <= |draws|
    ensures Sampler(newPositions, newValues) == SamplerAfter(table, totalIndicators, maxDuration, draws, used)
    ensures failure == None ==> start < used && maxDuration >= 2 && |newValues| == |values| + 1
    ensures failure == None ==> |SamplerAfter(table, totalIndicators, maxDuration, draws, used - 1).values| == |values|
    ensures failure == Some(EmptyRange) <==> start < |draws| && GenerateRandomRange(totalIndicators, maxDuration, draws[start]).None?
    ensures failure == Some(OutOfDraws) ==> used == |draws| && |newValues| == |values|
    ensures failure != Some(TooFewIndicators)
  {
    newPositions, newValues, used := positions, values, start;
    while true
      invariant start <= used <= |draws|
      invariant start < used ==> GenerateRandomRange(totalIndicators, maxDuration, draws[start]).Some?
      invariant Sampler(newPositions, newValues) == SamplerAfter(table, totalIndicators, maxDuration, draws, used)
      invariant |newValues| == |values|
      decreases |draws| - used
    {
      if used == |draws| {
        return newPositions, newValues, used, Some(OutOfDraws);
      }
      var drawn := GenerateRandomRange(totalIndicators, maxDuration, draws[used]);
      if drawn.None? {
        return newPositions, newValues, used, Some(EmptyRange);
      }
      var added;
      newPositions, newValues, added := StoreIfNew(table, totalIndicators, maxDuration, draws, newPositions, newValues, used, drawn.value);
      used := used + 1;
      if added {
        return newPositions, newValues, used, None;
      }
    }
  }

  /**
   * The dictionary check after one draw: a key not yet in the dictionary is
   * stored with its position, a key already there is dropped.
   */
  method StoreIfNew(table: seq<Row>, totalIndicators: int, maxDuration: int, ghost draws: seq<Entropy>,
                    positions: map<string, Position>, values: seq<Position>, ghost used: nat, key: Key)
      returns (newPositions: map<string, Position>, newValues: seq<Position>, added: bool)
    requires totalIndicators <= |table| && used < |draws|
    requires GenerateRandomRange(totalIndicators, maxDuration, draws[used]) == Some(key)
    requires Sampler(positions, values) == SamplerAfter(table, totalIndicators, maxDuration, draws, used)
    ensures Sampler(newPositions, newValues) == SamplerAfter(table, totalIndicators, maxDuration, draws, used + 1)
    ensures added <==> KeyString(key.openDay, key.closeDay) !in positions
    ensures !added ==> newPositions == positions && newValues == values
    ensures added ==>
      var position := CreatePosition(key.openDay, key.closeDay, key.duration, table);
      newPositions == positions[KeyString(key.openDay, key.closeDay) := position] && newValues == values + [position]
  {
    var name := KeyString(key.openDay, key.closeDay);
    if name in positions {
      return positions, values, false;
    }
    var position := CreatePosition(key.openDay, key.closeDay, key.duration, table);
    newPositions := positions[name := position];
    newValues := values + [position];
    added := true;
  }
}
