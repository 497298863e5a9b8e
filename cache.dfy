/**
 * The request cache of proj2_nps.py: an in-memory dict from request keys to
 * responses, loaded once from disk, consulted before every network call and
 * written back to disk in full after every miss.
 */
module Cache {
  import opened Wrappers

  /**
   * One get-or-fetch step on the dict alone: `response` is what the network
   * would return for `key`. The result is the returned value and the new dict.
   */
  function GetOrFetch<V>(m: map<string, V>, key: string, response: V): (r: (V, map<string, V>))
    ensures r.1.Keys == m.Keys + {key}
    ensures forall k :: k in m ==> r.1[k] == m[k]
    ensures key in m ==> r.1 == m
    ensures key !in m ==> r.1[key] == response
    ensures r.0 == r.1[key]
  {
    if key in m then (m[key], m) else (response, m[key := response])
  }

  /**
   * Repeating a request is a hit: whatever the network would answer the
   * second time, the same value comes back and the dict does not change.
   */
  lemma GetOrFetchIdempotent<V>(m: map<string, V>, key: string, first: V, second: V)
    ensures GetOrFetch(GetOrFetch(m, key, first).1, key, second) == GetOrFetch(m, key, first)
  {
  }

  class RequestCache<V> {
    /** `CACHE_DICT`: every response fetched so far, under its key. */
    var entries: map<string, V>
    /** The keys fetched through the cache in this run, in order (one entry per miss). */
    ghost var fetched: seq<string>
    /** What the last `save_cache` wrote to disk; None before the first save of this run. */
    ghost var saved: Option<map<string, V>>

    /**
     * Each key is fetched at most once, whatever was fetched is held, and
     * once anything was saved the file mirrors memory.
     */
    ghost predicate Valid()
      reads this
    {
      && (forall i, j :: 0 <= i < j < |fetched| ==> fetched[i] != fetched[j])
      && (forall i :: 0 <= i < |fetched| ==> fetched[i] in entries)
      && (saved.Some? <==> |fetched| > 0)
      && (saved.Some? ==> saved.value == entries)
    }

    /**
     * `load_cache`: the dict read back from the file, or an empty dict when
     * reading or decoding the file failed (`file` is None).
     */
    constructor Load(file: Option<map<string, V>>)
      ensures Valid()
      ensures entries == (if file.Some? then file.value else map[])
      ensures fetched == [] && saved == None
    {
      entries := if file.Some? then file.value else map[];
      fetched := [];
      saved := None;
    }

    /**
     * Get-or-fetch, as in make_url_request_using_cache and in the copy of it
     * inside get_nearby_places. On a hit the stored value is returned and
     * nothing changes; on a miss `fetch` is called once, its value stored
     * under `key`, the whole dict saved, and the stored value returned.
     */
    method Request(key: string, fetch: () -> V) returns (v: V)
      requires Valid()
      modifies this
      ensures Valid()
      ensures (v, entries) == GetOrFetch(old(entries), key, fetch())
      ensures key in old(entries) ==> fetched == old(fetched) && saved == old(saved)
      ensures key !in old(entries) ==> fetched == old(fetched) + [key] && saved == Some(entries)
    {
      if key in entries {
        v := entries[key];
      } else {
        entries := entries[key := fetch()];
        fetched := fetched + [key];
        saved := Some(entries);
        v := entries[key];
      }
    }

    /** make_url_request_using_cache: the key is the URL itself, the fetch a GET of it. */
    method RequestUrl(url: string, get: string -> V) returns (v: V)
      requires Valid()
      modifies this
      ensures Valid()
      ensures url in old(entries) ==> v == old(entries)[url] && entries == old(entries) && fetched == old(fetched)
      ensures url !in old(entries) ==> v == get(url) && entries == old(entries)[url := v]
      ensures url !in old(entries) ==> fetched == old(fetched) + [url]
    {
      v := Request(url, () => get(url));
    }

    /**
     * Two requests with the same key in a row: the second is a hit, so the
     * network is called at most once and both calls return the same value.
     */
    method RequestTwice(key: string, fetch: () -> V) returns (first: V, second: V)
      requires Valid()
      modifies this
      ensures Valid()
      ensures (first, entries) == GetOrFetch(old(entries), key, fetch())
      ensures first == second && key in entries && entries[key] == first
      ensures fetched == if key in old(entries) then old(fetched) else old(fetched) + [key]
      ensures saved == if key in old(entries) then old(saved) else Some(entries)
    {
      first := Request(key, fetch);
      second := Request(key, fetch);
    }
  }
}
