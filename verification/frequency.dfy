/**
 The counting idiom `map.put(k, map.getOrDefault(k, 0) + 1)` applied to a
 sequence of keys in order, and the pick of an entry with maximal count.
 */
module Frequency {
  import opened Wrappers

  /** The count of `k` in `m`, zero when `k` is absent (`getOrDefault(k, 0)`). */
  function CountOf<K>(m: map<K, nat>, k: K): nat
  {
    if k in m then m[k] else 0
  }

  /** One increment: `m.put(k, m.getOrDefault(k, 0) + 1)`. */
  function Bump<K>(m: map<K, nat>, k: K): map<K, nat>
  {
    m[k := CountOf(m, k) + 1]
  }

  /**
   The map left by incrementing each key of `keys` in turn, starting empty.
   A key is present iff it occurs in `keys`, and its count is its number of
   occurrences, so no present key has count zero.
   */
  function Tally<K(!new)>(keys: seq<K>): (counts: map<K, nat>)
    ensures forall k :: k in counts <==> k in keys
    ensures forall k :: k in counts ==> counts[k] == multiset(keys)[k] && counts[k] >= 1
  {
    if |keys| == 0 then map[]
    else
      var init := keys[..|keys| - 1];
      assert keys == init + [keys[|keys| - 1]];
      Bump(Tally(init), keys[|keys| - 1])
  }

  /** The sum of all counts of a map, taken in an arbitrary key order. */
  ghost function Total<K>(m: map<K, nat>): nat
    decreases |m|
  {
    if |m| == 0 then 0
    else
      var k :| k in m;
      m[k] + Total(m - {k})
  }

  /** Removing a present key shrinks a map by one. */
  lemma RemoveSize<K>(m: map<K, nat>, k: K)
    requires k in m
    ensures |m - {k}| == |m| - 1
  {
    assert (m - {k}).Keys == m.Keys - {k};
  }

  /** The sum does not depend on which key is taken first. */
  lemma {:induction false} TotalRemove<K>(m: map<K, nat>, k: K)
    requires k in m
    ensures Total(m) == m[k] + Total(m - {k})
    decreases |m|
  {
    var j := TotalSplit(m);
    if j != k {
      var mj := m - {j};
      var mk := m - {k};
      RemoveSize(m, j);
      RemoveSize(m, k);
      assert k in mj && mj[k] == m[k];
      TotalRemove(mj, k);
      assert j in mk && mk[j] == m[j];
      TotalRemove(mk, j);
      assert mj - {k} == mk - {j};
    }
  }

  /** The key the definition of `Total` takes first. */
  lemma TotalSplit<K>(m: map<K, nat>) returns (j: K)
    requires |m| > 0
    ensures j in m && Total(m) == m[j] + Total(m - {j})
  {
    j :| j in m && Total(m) == m[j] + Total(m - {j});
  }

  /** One increment adds exactly one to the sum of counts. */
  lemma TotalBump<K>(m: map<K, nat>, k: K)
    ensures Total(Bump(m, k)) == Total(m) + 1
  {
    var b := Bump(m, k);
    TotalRemove(b, k);
    if k in m {
      TotalRemove(m, k);
      assert b - {k} == m - {k};
    } else {
      assert b - {k} == m;
    }
  }

  /** Each key adds one increment, so the counts of a tally sum to the number of keys. */
  lemma {:induction false} TallyTotal<K(!new)>(keys: seq<K>)
    ensures Total(Tally(keys)) == |keys|
  {
    if |keys| > 0 {
      TallyTotal(keys[..|keys| - 1]);
      TotalBump(Tally(keys[..|keys| - 1]), keys[|keys| - 1]);
    }
  }

  /**
   `entrySet().stream().max(comparingByValue())`: an entry whose value no other
   value exceeds, or the exception message `noData` on an empty map. The map's
   iteration order is unspecified, so the scan order (and thereby the entry
   chosen among equal maxima) is left open; as in the source, a later entry
   replaces the current best only when strictly greater.
   */
  method MaxByValue<K>(counts: map<K, nat>, noData: string) returns (r: Result<(K, nat), string>)
    ensures r.Failure? <==> |counts| == 0
    ensures r.Failure? ==> r.error == noData
    ensures r.Success? ==> r.value.0 in counts && r.value.1 == counts[r.value.0]
    ensures r.Success? ==> forall k :: k in counts ==> counts[k] <= r.value.1
  {
    if |counts| == 0 {
      return Failure(noData);
    }
    var todo := counts.Keys;
    var best :| best in todo;
    todo := todo - {best};
    while todo != {}
      invariant todo <= counts.Keys
      invariant best in counts
      invariant forall k :: k in counts && k !in todo ==> counts[k] <= counts[best]
      decreases todo
    {
      var k :| k in todo;
      if counts[k] > counts[best] {
        best := k;
      }
      todo := todo - {k};
    }
    return Success((best, counts[best]));
  }

  /**
   `new ArrayList<>(m.entrySet())`: every entry of the map exactly once, in the
   map's iteration order, which is unspecified and so left open here.
   */
  method EntryList<K>(m: map<K, nat>) returns (s: seq<(K, nat)>)
    ensures |s| == |m|
    ensures forall p :: p in s <==> p.0 in m && m[p.0] == p.1
  {
    var todo := m.Keys;
    s := [];
    while todo != {}
      invariant todo <= m.Keys
      invariant |s| + |todo| == |m|
      invariant forall p :: p in s <==> p.0 in m && p.0 !in todo && m[p.0] == p.1
      decreases todo
    {
      var k :| k in todo;
      s := s + [(k, m[k])];
      todo := todo - {k};
    }
  }
}
