/** The browser's per-query result cache with a five-minute time-to-live (js/script.js:375-384),
    and the keys the two search boxes file their results under (js/script.js:405, 443-451).
    The clock (`Date.now()`) is a parameter `now`, in milliseconds. */
module QueryCache {
  import opened Wrappers
  import opened Text
  import opened Recipes

  /** `CACHE_TTL_MS`: five minutes. */
  const TtlMs: int := 5 * 60 * 1000

  /** `{ value, at }`: a cached result and the time it was stored. */
  datatype Stamped<V> = Stamped(value: V, at: int)

  /** What `getQueryCache(key)` answers at time `now`: the stored value while it is at most
      `TtlMs` old, nothing otherwise. */
  function Lookup<V>(m: map<string, Stamped<V>>, key: string, now: int): (r: Option<V>)
    ensures r.Some? <==> key in m && now - m[key].at <= TtlMs
    ensures r.Some? ==> r.value == m[key].value
  {
    if key in m && now - m[key].at <= TtlMs then Some(m[key].value) else None
  }

  /** The map after `getQueryCache(key)` at time `now`: an expired entry for `key` is deleted and
      nothing else changes. */
  function Pruned<V>(m: map<string, Stamped<V>>, key: string, now: int): (m': map<string, Stamped<V>>)
    ensures key in m' <==> key in m && now - m[key].at <= TtlMs
    ensures forall k :: k in m' ==> k in m && m'[k] == m[k]
    ensures forall k :: k in m && k != key ==> k in m'
  {
    if key in m && now - m[key].at > TtlMs then m - {key} else m
  }

  /** The module-level `queryCache`. */
  class ResultCache<V> {
    var entries: map<string, Stamped<V>>

    constructor()
      ensures entries == map[]
    {
      entries := map[];
    }

    /** `setQueryCache(key, value)`: value and time stamp are both replaced. */
    method Set(key: string, value: V, now: int)
      modifies this
      ensures entries == old(entries)[key := Stamped(value, now)]
    {
      entries := entries[key := Stamped(value, now)];
    }

    /** `getQueryCache(key)`. */
    method Get(key: string, now: int) returns (r: Option<V>)
      modifies this
      ensures r == Lookup(old(entries), key, now)
      ensures entries == Pruned(old(entries), key, now)
    {
      if key !in entries {
        return None;
      }
      var item := entries[key];
      if now - item.at > TtlMs {
        entries := entries - {key};
        return None;
      }
      r := Some(item.value);
    }
  }

  // ================================================================ expiry

  /** A value just stored is returned for exactly `TtlMs` milliseconds after it was stored. */
  lemma LookupAfterSet<V>(m: map<string, Stamped<V>>, key: string, value: V, at: int, now: int)
    ensures Lookup(m[key := Stamped(value, at)], key, now) == if now - at <= TtlMs then Some(value) else None
  {
  }

  /** Storing under one key does not change what another key answers. */
  lemma LookupOtherKey<V>(m: map<string, Stamped<V>>, key: string, value: V, at: int, other: string, now: int)
    requires other != key
    ensures Lookup(m[key := Stamped(value, at)], other, now) == Lookup(m, other, now)
  {
  }

  /** Once expired, an entry stays expired: time only moves forward. */
  lemma ExpiredStaysExpired<V>(m: map<string, Stamped<V>>, key: string, now: int, later: int)
    requires now <= later && Lookup(m, key, now).None?
    ensures Lookup(m, key, later).None?
  {
  }

  /** The deletion `getQueryCache` performs cannot be observed: from then on every key answers
      as it would have without it. */
  lemma PruneUnobservable<V>(m: map<string, Stamped<V>>, key: string, now: int, other: string, later: int)
    requires now <= later
    ensures Lookup(Pruned(m, key, now), other, later) == Lookup(m, other, later)
  {
    if other == key && key in m && now - m[key].at > TtlMs {
      assert later - m[key].at > TtlMs;
    }
  }

  /** Asking twice at the same moment gives the same answer. */
  lemma LookupStable<V>(m: map<string, Stamped<V>>, key: string, now: int)
    ensures Lookup(Pruned(m, key, now), key, now) == Lookup(m, key, now)
  {
    PruneUnobservable(m, key, now, key, now);
  }

  // ================================================================ keys

  /** `search:${q.toLowerCase()}` with `q = (qRaw || "").trim()`; no key when `q` is empty (the
      search returns before consulting the cache). */
  function SearchKey(qRaw: string): (k: Option<string>)
    ensures k.None? <==> AllSpace(qRaw)
    ensures k.Some? ==> IsPrefix("search:", k.value)
  {
    if AllSpace(qRaw) then None
    else
      var q := FilterText(qRaw);
      assert ("search:" + q)[..7] == "search:";
      Some("search:" + q)
  }

  /** `ing:${q.toLowerCase()}` with `q` the parsed ingredient list joined with `", "`; no key when
      the list is empty. */
  function IngredientsKey(raw: string): (k: Option<string>)
    ensures k.None? <==> ParseCommaList(raw) == []
    ensures k.Some? ==> IsPrefix("ing:", k.value)
  {
    var list := ParseCommaList(raw);
    if list == [] then None
    else
      var q := Lower(Join(list, ", "));
      assert ("ing:" + q)[..4] == "ing:";
      Some("ing:" + q)
  }

  /** A text search and an ingredient search never share a cache entry. */
  lemma KeysDisjoint(qRaw: string, raw: string)
    requires SearchKey(qRaw).Some? && IngredientsKey(raw).Some?
    ensures SearchKey(qRaw).value != IngredientsKey(raw).value
  {
    assert SearchKey(qRaw).value[0] == 's';
    assert IngredientsKey(raw).value[0] == 'i';
  }

  /** White space around the query does not change its key. */
  lemma SearchKeyPadded(pad: string, q: string, tail: string)
    requires AllSpace(pad) && AllSpace(tail) && q != [] && Trimmed(q)
    ensures SearchKey(pad + q + tail) == SearchKey(q)
  {
    TrimSurrounded(pad, q, tail);
  }

  /** Typing back the normalised ingredient list (`list.join(", ")`) finds the same entry. */
  lemma IngredientsKeyReparse(raw: string)
    ensures IngredientsKey(Join(ParseCommaList(raw), ", ")) == IngredientsKey(raw)
  {
    ParseCommaListIdempotent(raw);
  }
}
