/**
 * The nearby-places client of proj2_nps.py (get_nearby_places) and the
 * per-place defaults applied when the results are listed. The API key is a
 * parameter; the MapQuest request is the parameter `query`.
 */
module Nearby {
  import opened Text
  import opened CacheKey
  import opened Cache
  import opened Site
  import Directory

  const Endpoint := "http://www.mapquestapi.com/search/v2/radius"

  /** The keys of `params` in the order get_nearby_places assigns them. */
  const AssignedNames := ["key", "origin", "maxMatches", "ambiguities", "radius", "units", "outFormat"]

  /** The contents of `params` (the integer 10 formats as "10"). */
  function ParamValues(apiKey: string, zipcode: string): map<string, string> {
    map["key" := apiKey, "origin" := zipcode, "maxMatches" := "10", "ambiguities" := "ignore",
        "radius" := "10", "units" := "m", "outFormat" := "json"]
  }

  /** The `params` dict of get_nearby_places after its seven assignments. */
  function NearbyParams(apiKey: string, zipcode: string): (d: Dict)
    ensures d.Valid()
  {
    assert "origin" != "radius" by { assert "origin"[0] != "radius"[0]; }
    Dict(AssignedNames, ParamValues(apiKey, zipcode))
  }

  /** The name "origin" differs from every other parameter name. */
  lemma OriginDistinct()
    ensures forall i :: 0 <= i < |AssignedNames| && i != 1 ==> AssignedNames[i] != "origin"
  {
    assert "radius"[0] != "origin"[0];
    assert "outFormat"[1] != "origin"[1];
  }

  /** The dict for one zipcode is the dict for another with "origin" reassigned. */
  lemma OnlyOriginDiffers(apiKey: string, zip1: string, zip2: string)
    ensures "origin" in NearbyParams(apiKey, zip1).values
    ensures NearbyParams(apiKey, zip2) == Assign(NearbyParams(apiKey, zip1), "origin", zip2)
  {
    OriginDistinct();
    var m1, m2 := ParamValues(apiKey, zip1), ParamValues(apiKey, zip2);
    assert m1["origin" := zip2].Keys == m2.Keys;
    forall k | k in m2 ensures m1["origin" := zip2][k] == m2[k] {
      if k != "origin" {
        assert m1[k] == m2[k];
      }
    }
    assert m1["origin" := zip2] == m2;
  }

  /**
   * For a fixed API key, every nearby-places key is one fixed prefix, then
   * the zipcode, then one fixed suffix.
   */
  lemma NearbyKeyForm(apiKey: string) returns (pre: string, post: string)
    ensures forall zipcode :: CanonicalKey(Endpoint, NearbyParams(apiKey, zipcode)) == pre + zipcode + post
  {
    var p := NearbyParams(apiKey, "");
    assert "origin" in p.values by { OnlyOriginDiffers(apiKey, "", ""); }
    pre, post := KeyFraming(Endpoint, p, "origin");
    forall zipcode ensures CanonicalKey(Endpoint, NearbyParams(apiKey, zipcode)) == pre + zipcode + post {
      assert NearbyParams(apiKey, zipcode) == Assign(p, "origin", zipcode) by {
        OnlyOriginDiffers(apiKey, "", zipcode);
      }
    }
  }

  /** Two different zipcodes always give two different cache keys. */
  lemma NearbyKeyInjective(apiKey: string, zip1: string, zip2: string)
    requires zip1 != zip2
    ensures CanonicalKey(Endpoint, NearbyParams(apiKey, zip1)) != CanonicalKey(Endpoint, NearbyParams(apiKey, zip2))
  {
    var pre, post := NearbyKeyForm(apiKey);
    Framed(pre, zip1, zip2, post);
  }

  /**
   * The nearby-places entries and the page entries share one cache dict; a
   * key built on the MapQuest endpoint (`http:`) never equals a page URL
   * (`https:`), so neither kind of entry overwrites the other.
   */
  lemma NearbyKeyIsNotPageUrl(params: Dict, href: string)
    requires params.Valid()
    ensures CanonicalKey(Endpoint, params) != Directory.BaseUrl + href
  {
    KeyStartsWithEndpoint(Endpoint, params);
    SchemesDiffer();
  }

  lemma SchemesDiffer()
    ensures Endpoint[4] != Directory.BaseUrl[4]
  {
  }

  /**
   * The request half of get_nearby_places for any parameter dict: build the
   * key, then get-or-fetch it in the shared cache; a miss calls the API
   * with the endpoint and the parameter dict.
   */
  method RequestWithParams<V>(cache: RequestCache<V>, params: Dict, query: (string, Dict) -> V)
    returns (places: V)
    requires cache.Valid() && params.Valid()
    modifies cache
    ensures cache.Valid()
    ensures var key := CanonicalKey(Endpoint, params);
            && places == GetOrFetch(old(cache.entries), key, query(Endpoint, params)).0
            && cache.entries == GetOrFetch(old(cache.entries), key, query(Endpoint, params)).1
            && cache.fetched == if key in old(cache.entries) then old(cache.fetched) else old(cache.fetched) + [key]
  {
    var uniqUrl := BuildKey(Endpoint, params);
    places := cache.Request(uniqUrl, () => query(Endpoint, params));
  }

  /**
   * get_nearby_places: the request for the site's zipcode. The
   * `load_cache()` call at its start has no effect (its result is dropped),
   * so it is not modelled.
   */
  method GetNearbyPlaces<V>(cache: RequestCache<V>, apiKey: string, site: NationalSite, query: (string, Dict) -> V)
    returns (places: V)
    requires cache.Valid()
    modifies cache
    ensures cache.Valid()
    ensures var params := NearbyParams(apiKey, site.zipcode);
            var key := CanonicalKey(Endpoint, params);
            && places == GetOrFetch(old(cache.entries), key, query(Endpoint, params)).0
            && cache.entries == GetOrFetch(old(cache.entries), key, query(Endpoint, params)).1
            && cache.fetched == if key in old(cache.entries) then old(cache.fetched) else old(cache.fetched) + [key]
  {
    places := RequestWithParams(cache, NearbyParams(apiKey, site.zipcode), query);
  }

  /** The four `fields` of a search result: name, group_sic_code_name_ext, address, city. */
  datatype Place = Place(name: string, category: string, address: string, city: string)

  function OrDefault(s: string, sentinel: string): string {
    if s == "" then sentinel else s
  }

  /** The defaults the listing applies: each empty field becomes `no <field>`. */
  function WithDefaults(p: Place): (r: Place)
    ensures r.name != "" && r.category != "" && r.address != "" && r.city != ""
    ensures p.name != "" ==> r.name == p.name
    ensures p.category != "" ==> r.category == p.category
    ensures p.address != "" ==> r.address == p.address
    ensures p.city != "" ==> r.city == p.city
    ensures p.name == "" ==> r.name == "no name"
    ensures p.category == "" ==> r.category == "no category"
    ensures p.address == "" ==> r.address == "no street address"
    ensures p.city == "" ==> r.city == "no city"
  {
    Place(OrDefault(p.name, "no name"), OrDefault(p.category, "no category"),
          OrDefault(p.address, "no street address"), OrDefault(p.city, "no city"))
  }

  /** Applying the defaults twice is applying them once. */
  lemma WithDefaultsIdempotent(p: Place)
    ensures WithDefaults(WithDefaults(p)) == WithDefaults(p)
  {
  }

  /** The API response as the listing reads it: its number of top-level keys and its searchResults. */
  datatype Response = Response(keyCount: nat, searchResults: seq<Place>)

  /**
   * The listing loop, as written: it runs `len(nearby_places)` times (the
   * number of top-level keys of the response, not the number of results),
   * indexing `searchResults`; an index past the results raises (failed).
   */
  method ListedPlaces(response: Response) returns (shown: seq<Place>, failed: bool)
    ensures failed <==> response.keyCount > |response.searchResults|
    ensures |shown| == if failed then |response.searchResults| else response.keyCount
    ensures forall i :: 0 <= i < |shown| ==> shown[i] == WithDefaults(response.searchResults[i])
  {
    shown, failed := [], false;
    for p := 0 to response.keyCount
      invariant |shown| == p <= |response.searchResults|
      invariant forall i :: 0 <= i < p ==> shown[i] == WithDefaults(response.searchResults[i])
    {
      if p >= |response.searchResults| {
        failed := true;
        return;
      }
      shown := shown + [WithDefaults(response.searchResults[p])];
    }
  }
}
