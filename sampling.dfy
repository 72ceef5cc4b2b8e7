/**
 * What the retry loop of generatePositions (main.py) accepts, stated over the
 * sequence of draws it consumes: every draw whose (open day, close day) pair
 * has not been seen yet is accepted, every other draw is discarded, so the
 * accepted keys are the draws with their repeats removed, in order.
 */
module Sampling {
  import opened Wrappers
  import opened Utils

  predicate Distinct<T(==)>(s: seq<T>)
  {
    forall i, j :: 0 <= i < j < |s| ==> s[i] != s[j]
  }

  /** The keys that a sequence of draws yields (none when every draw raises). */
  function DrawnKeys(max: int, durationCap: int, draws: seq<Entropy>): (keys: seq<Key>)
    ensures forall k :: k in keys ==> ValidKey(max, durationCap, k)
    ensures max >= 2 && durationCap >= 2 ==> |keys| == |draws|
    ensures !(max >= 2 && durationCap >= 2) ==> keys == []
  {
    if draws == [] then []
    else
      var earlier := DrawnKeys(max, durationCap, draws[..|draws| - 1]);
      match GenerateRandomRange(max, durationCap, draws[|draws| - 1])
      case None => earlier
      case Some(k) => earlier + [k]
  }

  /** The first occurrence of every element, in order: the keys the retry loop accepts. */
  function Dedup<T(==, !new)>(s: seq<T>): (r: seq<T>)
    ensures Distinct(r)
    ensures forall x :: x in r <==> x in s
    ensures |r| <= |s|
  {
    if s == [] then []
    else
      var earlier := Dedup(s[..|s| - 1]);
      var x := s[|s| - 1];
      assert s == s[..|s| - 1] + [x];
      if x in earlier then earlier else earlier + [x]
  }

  /** One more draw appends its key, when the draw does not raise. */
  lemma DrawnKeysStep(max: int, durationCap: int, draws: seq<Entropy>, used: nat, key: Key)
    requires used < |draws|
    requires GenerateRandomRange(max, durationCap, draws[used]) == Some(key)
    ensures DrawnKeys(max, durationCap, draws[..used + 1]) == DrawnKeys(max, durationCap, draws[..used]) + [key]
  {
    assert draws[..used + 1][..used] == draws[..used];
  }

  /** One more element is accepted exactly when it was not accepted before. */
  lemma DedupStep<T(!new)>(s: seq<T>, x: T)
    ensures Dedup(s + [x]) == if x in Dedup(s) then Dedup(s) else Dedup(s) + [x]
  {
  }

  /** Drawing more never changes what was drawn before. */
  lemma {:induction false} DrawnKeysPrefix(max: int, durationCap: int, draws: seq<Entropy>, n: nat)
    requires n <= |draws|
    ensures DrawnKeys(max, durationCap, draws[..n]) <= DrawnKeys(max, durationCap, draws)
    decreases |draws| - n
  {
    if n < |draws| {
      var shorter := draws[..|draws| - 1];
      assert shorter[..n] == draws[..n];
      DrawnKeysPrefix(max, durationCap, shorter, n);
    } else {
      assert draws[..n] == draws;
    }
  }

  /** Accepting more keys never changes the keys accepted before. */
  lemma {:induction false} DedupPrefix<T(!new)>(s: seq<T>, t: seq<T>)
    requires s <= t
    ensures Dedup(s) <= Dedup(t)
    decreases |t|
  {
    if |s| < |t| {
      var shorter := t[..|t| - 1];
      assert s <= shorter;
      DedupPrefix(s, shorter);
    } else {
      assert s == t;
    }
  }

  /** A sequence without repeats, drawn from a set, is no longer than the set is large. */
  lemma {:induction false} DistinctBound<T>(s: seq<T>, universe: set<T>)
    requires Distinct(s)
    requires forall x :: x in s ==> x in universe
    ensures |s| <= |universe|
  {
    if s != [] {
      var last := s[|s| - 1];
      var earlier := s[..|s| - 1];
      forall x | x in earlier
        ensures x in universe - {last}
      {
        var i :| 0 <= i < |earlier| && earlier[i] == x;
        assert s[i] == x && s[|s| - 1] == last;
      }
      DistinctBound(earlier, universe - {last});
    }
  }

  /**
   * However many draws are made, at most |KeySpace| distinct keys come out:
   * a run asking for more never accepts enough of them.
   */
  lemma AcceptedWithinKeySpace(max: int, durationCap: int, draws: seq<Entropy>)
    ensures |Dedup(DrawnKeys(max, durationCap, draws))| <= |KeySpace(max, durationCap)|
  {
    var accepted := Dedup(DrawnKeys(max, durationCap, draws));
    DistinctBound(accepted, KeySpace(max, durationCap));
  }
}
