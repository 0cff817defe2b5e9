/** The sum of the values of a map. */
module Sums {

  ghost function Sum<K(!new)>(counts: map<K, int>): int
    decreases |counts|
  {
    if counts == map[] then 0
    else
      var key :| key in counts;
      assert |(counts - {key}).Keys| == |counts.Keys| - 1 by { assert (counts - {key}).Keys == counts.Keys - {key}; }
      counts[key] + Sum(counts - {key})
  }

  lemma {:induction false} SumWithout<K(!new)>(counts: map<K, int>, key: K)
    requires key in counts
    ensures Sum(counts) == counts[key] + Sum(counts - {key})
    decreases |counts|
  {
    var first :| first in counts && Sum(counts) == counts[first] + Sum(counts - {first});
    if first != key {
      assert (counts - {first}).Keys == counts.Keys - {first};
      SumWithout(counts - {first}, key);
      assert (counts - {key}).Keys == counts.Keys - {key};
      SumWithout(counts - {key}, first);
      assert counts - {first} - {key} == counts - {key} - {first};
    }
  }

  lemma SumSet<K(!new)>(counts: map<K, int>, key: K, value: int)
    ensures Sum(counts[key := value]) == Sum(counts) - (if key in counts then counts[key] else 0) + value
  {
    SumWithout(counts[key := value], key);
    assert counts[key := value] - {key} == counts - {key};
    if key in counts {
      SumWithout(counts, key);
    } else {
      assert counts - {key} == counts;
    }
  }

  lemma {:induction false} SumNonNegative<K(!new)>(counts: map<K, int>)
    requires forall key :: key in counts ==> counts[key] >= 0
    ensures Sum(counts) >= 0
    decreases |counts|
  {
    if counts != map[] {
      var key :| key in counts;
      SumWithout(counts, key);
      assert (counts - {key}).Keys == counts.Keys - {key};
      SumNonNegative(counts - {key});
    }
  }
}
