/** Bounded, order-preserving de-duplication: the merge discipline shared by the profile archive
    (`_merge_values`) and the parameter aggregation (`_append_unique`). Both compare values by a
    dedupe key, given here as the function `key`. */
module Distinct {

  ghost function Keys<V, K>(s: seq<V>, key: V -> K): set<K> {
    set x | x in s :: key(x)
  }

  /** Every value of `s` whose key did not occur before it, in order. */
  ghost function Dedup<V, K>(s: seq<V>, key: V -> K): (r: seq<V>)
  {
    if s == [] then []
    else
      var front, last := s[..|s| - 1], s[|s| - 1];
      Dedup(front, key) + if key(last) in Keys(front, key) then [] else [last]
  }

  ghost function Take<V>(s: seq<V>, n: nat): seq<V> {
    if |s| <= n then s else s[..n]
  }

  /** The first `limit` key-distinct values of `s`. */
  ghost function FirstDistinct<V, K>(s: seq<V>, key: V -> K, limit: nat): seq<V> {
    Take(Dedup(s, key), limit)
  }

  ghost predicate DistinctKeys<V, K>(s: seq<V>, key: V -> K) {
    forall i, j | 0 <= i < j < |s| :: key(s[i]) != key(s[j])
  }

  lemma KeysAppend<V, K>(s: seq<V>, t: seq<V>, key: V -> K)
    ensures Keys(s + t, key) == Keys(s, key) + Keys(t, key)
  {
    forall k | k in Keys(s, key) + Keys(t, key) ensures k in Keys(s + t, key) {
      var x :| (x in s || x in t) && key(x) == k;
      assert x in s + t;
    }
  }

  lemma {:induction false} DedupFacts<V, K>(s: seq<V>, key: V -> K)
    ensures Keys(Dedup(s, key), key) == Keys(s, key)
    ensures DistinctKeys(Dedup(s, key), key)
    ensures forall x | x in Dedup(s, key) :: x in s
  {
    if s != [] {
      var front, last := s[..|s| - 1], s[|s| - 1];
      DedupFacts(front, key);
      assert s == front + [last];
      KeysAppend(front, [last], key);
      var d := Dedup(front, key);
      if key(last) in Keys(front, key) {
        assert Keys([last], key) == {key(last)};
        assert Dedup(s, key) == d;
      } else {
        KeysAppend(d, [last], key);
        forall i, j | 0 <= i < j < |d + [last]| ensures key((d + [last])[i]) != key((d + [last])[j]) {
          if j == |d| {
            assert d[i] in d;
            assert key(d[i]) in Keys(d, key);
          }
        }
      }
    }
  }

  lemma DedupSnoc<V, K>(s: seq<V>, x: V, key: V -> K)
    ensures Dedup(s + [x], key) == Dedup(s, key) + if key(x) in Keys(s, key) then [] else [x]
  {
    assert (s + [x])[..|s|] == s;
  }

  /** One loop step: extend the kept prefix unless it is full or the key was seen. */
  lemma FirstDistinctSnoc<V, K>(s: seq<V>, x: V, key: V -> K, limit: nat)
    ensures var r := FirstDistinct(s, key, limit);
            FirstDistinct(s + [x], key, limit)
            == if |r| < limit && key(x) !in Keys(r, key) then r + [x] else r
  {
    DedupSnoc(s, x, key);
    DedupFacts(s, key);
  }

  /** What `t` adds to a stream whose keys so far are `seen`. */
  ghost function Fresh<V, K>(seen: set<K>, t: seq<V>, key: V -> K): seq<V> {
    if t == [] then []
    else
      var front, last := t[..|t| - 1], t[|t| - 1];
      Fresh(seen, front, key) + if key(last) in seen + Keys(front, key) then [] else [last]
  }

  lemma {:induction false} DedupAppend<V, K>(s: seq<V>, t: seq<V>, key: V -> K)
    ensures Dedup(s + t, key) == Dedup(s, key) + Fresh(Keys(s, key), t, key)
  {
    if t == [] {
      assert s + t == s;
    } else {
      var front, last := t[..|t| - 1], t[|t| - 1];
      DedupAppend(s, front, key);
      KeysAppend(s, front, key);
      assert s + t == (s + front) + [last];
      DedupSnoc(s + front, last, key);
    }
  }

  lemma {:induction false} DedupOfDistinct<V, K>(s: seq<V>, key: V -> K)
    requires DistinctKeys(s, key)
    ensures Dedup(s, key) == s
  {
    if s != [] {
      var front, last := s[..|s| - 1], s[|s| - 1];
      DedupOfDistinct(front, key);
      assert s == front + [last];
      assert key(last) !in Keys(front, key);
    }
  }

  lemma {:induction false} DedupAbsorbs<V, K>(s: seq<V>, t: seq<V>, key: V -> K)
    requires Keys(t, key) <= Keys(s, key)
    ensures Dedup(s + t, key) == Dedup(s, key)
  {
    if t == [] {
      assert s + t == s;
    } else {
      var front, last := t[..|t| - 1], t[|t| - 1];
      assert t == front + [last];
      KeysAppend(front, [last], key);
      DedupAbsorbs(s, front, key);
      KeysAppend(s, front, key);
      assert s + t == (s + front) + [last];
      DedupSnoc(s + front, last, key);
      assert last in [last];
      assert key(last) in Keys([last], key);
    }
  }

  lemma FirstDistinctFixed<V, K>(s: seq<V>, key: V -> K, limit: nat)
    requires DistinctKeys(s, key) && |s| <= limit
    ensures FirstDistinct(s, key, limit) == s
  {
    DedupOfDistinct(s, key);
  }

  /** Merging into an already merged, bounded prefix gives what one merge of everything gives. */
  lemma FirstDistinctResume<V, K>(s: seq<V>, t: seq<V>, key: V -> K, limit: nat)
    ensures FirstDistinct(FirstDistinct(s, key, limit) + t, key, limit) == FirstDistinct(s + t, key, limit)
  {
    var r := FirstDistinct(s, key, limit);
    hide Dedup, Fresh, Keys;
    DedupFacts(s, key);
    DedupOfDistinct(r, key);
    DedupAppend(s, t, key);
    DedupAppend(r, t, key);
  }

  /** Idempotence of the merge: adding the same additions again changes nothing. */
  lemma MergeIdempotent<V, K>(existing: seq<V>, additions: seq<V>, key: V -> K, limit: nat)
    ensures var once := FirstDistinct(existing + additions, key, limit);
            FirstDistinct(once + additions, key, limit) == once
  {
    var all := existing + additions;
    FirstDistinctResume(all, additions, key, limit);
    KeysAppend(existing, additions, key);
    DedupAbsorbs(all, additions, key);
  }

  /** What the bounded merge promises a reader: no duplicates, nothing invented, and a value is
      missing only because its key is already there or because the bound is reached. */
  lemma FirstDistinctMeaning<V, K>(s: seq<V>, key: V -> K, limit: nat)
    ensures var r := FirstDistinct(s, key, limit);
            && |r| <= limit && DistinctKeys(r, key)
            && (forall x | x in r :: x in s)
            && (|r| < limit ==> Keys(r, key) == Keys(s, key))
  {
    DedupFacts(s, key);
  }

  /** The archive's merge loop: it stops as soon as the bound is reached. */
  method MergeValues<V, K(==)>(existing: seq<V>, additions: seq<V>, key: V -> K, limit: nat) returns (result: seq<V>)
    requires 1 <= limit
    ensures result == FirstDistinct(existing + additions, key, limit)
  {
    result := [];
    var seen: set<K> := {};
    var values := existing + additions;
    var i := 0;
    while i < |values|
      invariant 0 <= i <= |values|
      invariant result == FirstDistinct(values[..i], key, limit)
      invariant |result| < limit
      invariant seen == Keys(result, key)
    {
      var value := values[i];
      assert values[..i + 1] == values[..i] + [value];
      FirstDistinctSnoc(values[..i], value, key, limit);
      i := i + 1;
      if key(value) in seen {
        continue;
      }
      KeysAppend(result, [value], key);
      assert Keys([value], key) == {key(value)};
      seen := seen + {key(value)};
      result := result + [value];
      if |result| >= limit {
        assert values == values[..i] + values[i..];
        FullPrefix(values[..i], values[i..], key, limit);
        return;
      }
    }
    assert values[..i] == values;
  }

  lemma FullPrefix<V, K>(s: seq<V>, t: seq<V>, key: V -> K, limit: nat)
    requires |FirstDistinct(s, key, limit)| == limit
    ensures FirstDistinct(s + t, key, limit) == FirstDistinct(s, key, limit)
  {
    DedupAppend(s, t, key);
  }

  /** `_append_unique` over a stream of values: it keeps reading, but adds nothing once full. */
  method AppendUnique<V(==), K(==)>(values: seq<V>, additions: seq<V>, key: V -> K, limit: nat) returns (result: seq<V>)
    requires |values| <= limit && DistinctKeys(values, key)
    ensures result == FirstDistinct(values + additions, key, limit)
  {
    FirstDistinctFixed(values, key, limit);
    hide FirstDistinct, DistinctKeys;
    result := values;
    var seen: set<K> := set x | x in values :: key(x);
    assert values + additions[..0] == values;
    for i := 0 to |additions|
      invariant result == FirstDistinct(values + additions[..i], key, limit)
      invariant seen == Keys(result, key)
    {
      var value := additions[i];
      assert values + additions[..i + 1] == (values + additions[..i]) + [value];
      FirstDistinctSnoc(values + additions[..i], value, key, limit);
      if |result| < limit && key(value) !in seen {
        KeysAppend(result, [value], key);
        assert Keys([value], key) == {key(value)};
        result := result + [value];
        seen := seen + {key(value)};
      }
    }
    assert additions[..|additions|] == additions;
  }
}
