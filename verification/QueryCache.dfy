/** The query result cache: least recently used first, bounded in entries and in total row
    weight, with a time to live per entry. Times are readings of a monotonic clock. */
module QueryCache {
  import opened Options

  /** A result with more rows than this is never cached. */
  const MAX_CACHED_ROWS: nat := 10_000

  datatype Entry<K, R> = Entry(key: K, at: int, result: R, weight: nat)

  function Weight<K, R>(es: seq<Entry<K, R>>): nat {
    if es == [] then 0 else es[0].weight + Weight(es[1..])
  }

  lemma {:induction false} WeightConcat<K, R>(a: seq<Entry<K, R>>, b: seq<Entry<K, R>>)
    ensures Weight(a + b) == Weight(a) + Weight(b)
  {
    if a == [] {
      assert a + b == b;
    } else {
      assert (a + b)[1..] == a[1..] + b;
      WeightConcat(a[1..], b);
    }
  }

  predicate UniqueKeys<K(==), R>(es: seq<Entry<K, R>>) {
    forall i, j :: 0 <= i < j < |es| ==> es[i].key != es[j].key
  }

  /** The entry with the key, if there is one. */
  function Find<K(==), R>(es: seq<Entry<K, R>>, key: K): (e: Option<Entry<K, R>>)
    ensures e.Some? ==> e.value in es && e.value.key == key
    ensures e.None? ==> forall d :: d in es ==> d.key != key
  {
    if es == [] then None
    else if es[0].key == key then Some(es[0])
    else
      assert forall d :: d in es ==> d == es[0] || d in es[1..];
      Find(es[1..], key)
  }

  /** The entries without the one for the key. */
  function Removed<K(==), R>(es: seq<Entry<K, R>>, key: K): seq<Entry<K, R>> {
    if es == [] then []
    else if es[0].key == key then es[1..]
    else [es[0]] + Removed(es[1..], key)
  }

  lemma {:induction false} RemovedMember<K, R>(es: seq<Entry<K, R>>, key: K, e: Entry<K, R>)
    requires UniqueKeys(es)
    ensures e in Removed(es, key) <==> e in es && e.key != key
  {
    if es != [] {
      RemovedMember(es[1..], key, e);
      assert e in es <==> e == es[0] || e in es[1..];
    }
  }

  lemma {:induction false} RemovedUnique<K, R>(es: seq<Entry<K, R>>, key: K)
    requires UniqueKeys(es)
    ensures UniqueKeys(Removed(es, key)) && |Removed(es, key)| == |es| - if Find(es, key).Some? then 1 else 0
  {
    if es != [] {
      if es[0].key != key {
        RemovedUnique(es[1..], key);
        var r := Removed(es[1..], key);
        forall i | 0 <= i < |r|
          ensures r[i].key != es[0].key
        {
          RemovedMember(es[1..], key, r[i]);
        }
      }
    }
  }

  lemma {:induction false} RemovedWeight<K, R>(es: seq<Entry<K, R>>, key: K)
    ensures Weight(Removed(es, key)) == Weight(es) - (if Find(es, key).Some? then Find(es, key).value.weight else 0)
  {
    if es != [] && es[0].key != key {
      RemovedWeight(es[1..], key);
      assert ([es[0]] + Removed(es[1..], key))[1..] == Removed(es[1..], key);
    }
  }

  /** Removing by key removes that key's entry, its weight, and nothing else. */
  lemma RemovedKeys<K(!new), R(!new)>(es: seq<Entry<K, R>>, key: K)
    requires UniqueKeys(es)
    ensures forall e :: e in Removed(es, key) <==> e in es && e.key != key
    ensures UniqueKeys(Removed(es, key)) && |Removed(es, key)| == |es| - if Find(es, key).Some? then 1 else 0
    ensures Weight(Removed(es, key)) == Weight(es) - (if Find(es, key).Some? then Find(es, key).value.weight else 0)
  {
    forall e
      ensures e in Removed(es, key) <==> e in es && e.key != key
    {
      RemovedMember(es, key, e);
    }
    RemovedUnique(es, key);
    RemovedWeight(es, key);
  }

  /** Removing takes the entry out of its place and leaves the order of the others. */
  lemma {:induction false} RemovedInPlace<K, R>(a: seq<Entry<K, R>>, e: Entry<K, R>, b: seq<Entry<K, R>>)
    requires UniqueKeys(a + [e] + b)
    ensures Removed(a + [e] + b, e.key) == a + b
  {
    var all := a + [e] + b;
    if a == [] {
      assert all[1..] == b;
    } else {
      assert all[0] == a[0] && all[|a|] == e;
      assert all[1..] == a[1..] + [e] + b;
      assert forall i :: 0 <= i < |all| - 1 ==> all[1..][i] == all[i + 1];
      RemovedInPlace(a[1..], e, b);
      assert [a[0]] + (a[1..] + b) == a + b;
    }
  }

  lemma {:induction false} RemovedAbsent<K, R>(es: seq<Entry<K, R>>, key: K)
    requires Find(es, key).None?
    ensures Removed(es, key) == es
  {
    if es != [] {
      RemovedAbsent(es[1..], key);
    }
  }

  predicate WithinBounds<K, R>(es: seq<Entry<K, R>>, maxSize: int, maxWeight: int) {
    |es| <= maxSize && Weight(es) <= maxWeight
  }

  /** How many entries go: the fewest from the front that bring both bounds about. */
  ghost predicate EvictsJust<K, R>(es: seq<Entry<K, R>>, k: nat, maxSize: int, maxWeight: int) {
    && k <= |es|
    && (es[k..] == [] || WithinBounds(es[k..], maxSize, maxWeight))
    && forall j :: 0 <= j < k ==> !WithinBounds(es[j..], maxSize, maxWeight)
  }

  ghost predicate Evicted<K, R>(all: seq<Entry<K, R>>, kept: seq<Entry<K, R>>, maxSize: int, maxWeight: int) {
    exists k: nat :: EvictsJust(all, k, maxSize, maxWeight) && kept == all[k..]
  }

  /** The eviction loop: from the least recently used end, while a bound is exceeded. */
  method Evict<K, R>(all: seq<Entry<K, R>>, maxSize: int, maxWeight: int) returns (kept: seq<Entry<K, R>>, k: nat)
    ensures EvictsJust(all, k, maxSize, maxWeight) && kept == all[k..]
    ensures Evicted(all, kept, maxSize, maxWeight)
    ensures all != [] && maxSize >= 1 && all[|all| - 1].weight <= maxWeight ==> kept != []
  {
    kept, k := all, 0;
    var weight := Weight(all);
    while kept != [] && (|kept| > maxSize || weight > maxWeight)
      invariant k <= |all| && kept == all[k..] && weight == Weight(kept)
      invariant forall j :: 0 <= j < k ==> !WithinBounds(all[j..], maxSize, maxWeight)
      invariant all != [] && maxSize >= 1 && all[|all| - 1].weight <= maxWeight ==> kept != []
      decreases |kept|
    {
      weight := weight - kept[0].weight;
      kept, k := kept[1..], k + 1;
    }
  }

  class QueryResultCache<K(==, !new), R(!new)> {
    const maxSize: int
    const maxWeight: int
    const ttl: int
    var entries: seq<Entry<K, R>>
    var weight: int
    var hits: nat
    var misses: nat
    var oversizeSkips: nat
    var evictedWeight: nat

    /** Every result ever stored, with its key and time. */
    ghost var log: set<Entry<K, R>>

    constructor (maxSize: int, ttl: int, maxWeight: int)
      ensures Valid() && entries == [] && log == {}
      ensures this.maxSize == maxSize && this.ttl == ttl && this.maxWeight == maxWeight
    {
      this.maxSize, this.ttl, this.maxWeight := maxSize, ttl, maxWeight;
      entries, weight, hits, misses, oversizeSkips, evictedWeight := [], 0, 0, 0, 0, 0;
      log := {};
    }

    /** The stored weight is the sum of the entry weights, both bounds hold (an empty cache
        aside), keys are unique, and every entry is a result that was stored. */
    ghost predicate Valid()
      reads this
    {
      && weight == Weight(entries)
      && (entries == [] || WithinBounds(entries, maxSize, maxWeight))
      && UniqueKeys(entries)
      && forall e :: e in entries ==> e in log
    }

    /** A hit is a result stored under the key no longer than the time to live ago, and it
        becomes the most recently used entry; an expired entry is removed and missed. */
    method Get(key: K, now: int) returns (r: Option<R>)
      requires Valid()
      modifies this
      ensures Valid() && log == old(log)
      ensures r.Some? ==> exists e :: e in log && e.key == key && e.result == r.value && now - e.at <= ttl
      ensures r.Some? <==> exists e :: e in old(entries) && e.key == key && now - e.at <= ttl
      ensures r.Some? ==> entries != [] && entries[|entries| - 1].key == key
      ensures forall e :: e in entries <==> e in old(entries) && (e.key != key || now - e.at <= ttl)
      ensures entries == Removed(old(entries), key) + if r.Some? then [Find(old(entries), key).value] else []
      ensures hits == old(hits) + (if r.Some? then 1 else 0) && misses == old(misses) + (if r.Some? then 0 else 1)
      ensures oversizeSkips == old(oversizeSkips) && evictedWeight == old(evictedWeight)
    {
      var found := Find(entries, key);
      if found.None? {
        RemovedAbsent(entries, key);
        misses := misses + 1;
        return None;
      }
      var e := found.value;
      RemovedKeys(entries, key);
      MovedToEnd(entries, key);
      if now - e.at > ttl {
        entries := Removed(entries, key);
        weight := weight - e.weight;
        misses := misses + 1;
        return None;
      }
      entries := Removed(entries, key) + [e];
      hits := hits + 1;
      return Some(e.result);
    }

    /** Storing a result: an oversize one is skipped, otherwise it replaces the entry of its
        key and the least recently used entries go, no more than needed. A stored result
        survives its own eviction loop whenever one entry is allowed at all. */
    method Put(key: K, result: R, w: nat, now: int)
      requires Valid()
      modifies this
      ensures Valid()
      ensures hits == old(hits) && misses == old(misses)
      ensures w > MAX_CACHED_ROWS || w > maxWeight ==>
                && entries == old(entries) && log == old(log)
                && oversizeSkips == old(oversizeSkips) + 1 && evictedWeight == old(evictedWeight)
      ensures !(w > MAX_CACHED_ROWS || w > maxWeight) ==>
                var all := Removed(old(entries), key) + [Entry(key, now, result, w)];
                && log == old(log) + {Entry(key, now, result, w)}
                && Evicted(all, entries, maxSize, maxWeight)
                && oversizeSkips == old(oversizeSkips) && evictedWeight + weight == old(evictedWeight) + Weight(all)
                && (maxSize >= 1 ==> entries != [] && entries[|entries| - 1] == Entry(key, now, result, w))
    {
      if w > MAX_CACHED_ROWS || w > maxWeight {
        oversizeSkips := oversizeSkips + 1;
        return;
      }
      var e := Entry(key, now, result, w);
      var all := Removed(entries, key) + [e];
      Replaced(entries, e);
      var kept, k := Evict(all, maxSize, maxWeight);
      SuffixKeeps(all, k);
      WeightConcat(all[..k], all[k..]);
      assert all == all[..k] + all[k..];
      evictedWeight := evictedWeight + Weight(all[..k]);
      entries, weight, log := kept, Weight(kept), log + {e};
    }

    method Clear()
      modifies this
      ensures Valid() && entries == [] && log == old(log) && hits == old(hits) && misses == old(misses)
      ensures oversizeSkips == old(oversizeSkips) && evictedWeight == old(evictedWeight)
    {
      entries, weight := [], 0;
    }

    /** The query handler's use of the cache: it answers with a stored result for an equal key
        that is no older than the time to live at the lookup, or with the answer it computes,
        which is stamped with a later reading of the clock. Error answers are not stored. */
    method Serve(key: K, now: int, computed: R, w: nat, isError: bool, later: int) returns (answer: R)
      requires Valid() && now <= later
      modifies this
      ensures Valid()
      ensures (exists e :: e in old(entries) && e.key == key && now - e.at <= ttl) ==>
                && (exists e :: e in old(log) && e.key == key && e.result == answer && now - e.at <= ttl)
                && log == old(log) && hits == old(hits) + 1 && misses == old(misses)
      ensures !(exists e :: e in old(entries) && e.key == key && now - e.at <= ttl) ==>
                && answer == computed && hits == old(hits) && misses == old(misses) + 1
                && log == old(log) + (if isError || w > MAX_CACHED_ROWS || w > maxWeight then {} else {Entry(key, later, computed, w)})
    {
      var cached := Get(key, now);
      if cached.Some? {
        return cached.value;
      }
      if !isError {
        Put(key, computed, w, later);
      }
      return computed;
    }
  }

  /** `move_to_end` keeps the entries, their number and their weight. */
  lemma MovedToEnd<K(!new), R(!new)>(es: seq<Entry<K, R>>, key: K)
    requires UniqueKeys(es) && Find(es, key).Some?
    ensures var e := Find(es, key).value;
            var moved := Removed(es, key) + [e];
            && UniqueKeys(moved) && Weight(moved) == Weight(es) && |moved| == |es|
            && (forall d :: d in moved <==> d in es)
            && (forall d :: d in es && d.key == key ==> d == e)
  {
    var e := Find(es, key).value;
    RemovedKeys(es, key);
    AppendNew(Removed(es, key), e);
    forall d | d in es && d.key == key
      ensures d == e
    {
      var i :| 0 <= i < |es| && es[i] == d;
      var j :| 0 <= j < |es| && es[j] == e;
    }
  }

  lemma Replaced<K(!new), R(!new)>(es: seq<Entry<K, R>>, e: Entry<K, R>)
    requires UniqueKeys(es)
    ensures UniqueKeys(Removed(es, e.key) + [e])
    ensures forall d :: d in Removed(es, e.key) + [e] ==> d in es || d == e
  {
    RemovedKeys(es, e.key);
    AppendNew(Removed(es, e.key), e);
  }

  lemma SuffixKeeps<K, R>(es: seq<Entry<K, R>>, k: nat)
    requires UniqueKeys(es) && k <= |es|
    ensures UniqueKeys(es[k..]) && forall d :: d in es[k..] ==> d in es
    ensures es[k..] != [] ==> es[k..][|es[k..]| - 1] == es[|es| - 1]
  {}

  lemma AppendNew<K, R>(es: seq<Entry<K, R>>, e: Entry<K, R>)
    requires UniqueKeys(es) && forall d :: d in es ==> d.key != e.key
    ensures UniqueKeys(es + [e]) && Weight(es + [e]) == Weight(es) + e.weight
    ensures forall d :: d in es + [e] <==> d in es || d == e
  {
    WeightConcat(es, [e]);
    assert [e][1..] == [];
  }
}
