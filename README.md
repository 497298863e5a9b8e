# National parks scraper: request cache, cache keys and field extraction

This project models the deterministic core of `proj2_nps.py`. That script scrapes the National Park Service
site, lists the national sites of a state, and asks the MapQuest search API for places near a chosen site.
The detail pages and the MapQuest responses go through one request cache, `CACHE_DICT`, which is persisted to
`cache.json`. The state-list page, the state pages and the direct GET of each detail page bypass it.

The model covers five parts of the script.

1. **The request cache** (module `Cache`).
   - `make_url_request_using_cache`, and its inline copy in `get_nearby_places`, are a get-or-fetch on a class
     `RequestCache` with a `map` field.
   - The network call is a parameter.
   - `save_cache` is a ghost snapshot of what this cache last wrote, so the invariant "the file mirrors memory after
     the first miss" can be stated.
   - A ghost log of the fetches made through the cache shows that the cache fetches each key at most once.
     It does not log the direct GET of `get_site_instance`; that GET is counted separately (see 4).
2. **The canonical cache key** (module `CacheKey`, with `Sorting` and `Text`).
   - A Python dict is its insertion order plus its contents. The key loop is a method, proved equal to a
     specification function.
   - The properties:
     - the key does not depend on insertion order;
     - the key begins with the endpoint;
     - with everything else fixed, the key is a fixed prefix, then one parameter's value, then a fixed suffix, so
       it is injective in that one value;
     - values that contain the separators `_` and `-` can make two different dicts share a key.
3. **The field extractors** (module `Site`).
   - A detail page is the outcome of each lookup chain the `extract_*` methods walk, each an `Option` (None when
     a `find` comes back empty and the chain raises).
   - Each extractor's contract states its fallbacks: the name prefers the long title and falls back to the plain
     title; the address is all or nothing; the zipcode and the phone have their sentinels.
   - Lemmas state that the phone and address lookups cannot affect the other fields.
4. **The directory and list builders** (module `Directory`).
   - The state dict built from the drop-down links: lowered text maps to the absolute URL, and a later duplicate
     wins.
   - The order-preserving site-URL list.
   - `get_site_instance` as written: a direct GET on every call (so a cached page is still downloaded), a second
     GET on a cache miss, and the cached page text stored as the site's `url`. The method body counts the GETs of
     the site page in a ghost `gets`, where they happen: one for the direct GET, plus the fetches the cache logs
     during the call. Its contract states the total: one on a hit, two on a miss.
   - `get_sites_for_state` and its loop over the site URLs. The fetch log grows by exactly the keys the cache
     gains, so the count of site-page GETs is exact. On failure the contract names the first page that fails;
     the URLs up to and including it have been requested, and no later one.
5. **The nearby-places request and listing** (module `Nearby`).
   - The seven MapQuest parameters.
   - A proof that two zipcodes never share a key.
   - A proof that such a key never equals a page URL, so the two kinds of entries in the shared cache cannot
     overwrite each other.
   - The listing loop as written, driven by `len(nearby_places)`.
   - The per-field defaults `"no name"`, `"no category"`, `"no street address"` and `"no city"`.

**A promise the code does not keep.** The comment `# construct unique key` and the name `uniq_url`
(proj2_nps.py:265, 271) present the key as unique to its parameter mapping: two mappings that differ in at least
one value would never share a key. The code does not guarantee this, because a value may contain `_` and `-`. `CacheKey.KeyCollision` exhibits two such dicts with one key; for instance `{a: "1_b-2",
b: "3"}` and `{a: "1", b: "2_b-3"}` both give `e_a-1_b-2_b-3`. The model follows the code. What does hold is
injectivity in any one value with the others fixed (`CacheKey.KeyInjectiveInValue`). This covers the only use in
the script, where only the zipcode varies (`Nearby.NearbyKeyInjective`).

## Model

| member | source | states |
|---|---|---|
| Cache.GetOrFetch | proj2_nps.py:174-183 | A hit returns the stored value and keeps the map. A miss stores the response under the key and returns it. Every other key keeps its value, and the key set grows by at most the key. |
| Cache.GetOrFetchIdempotent | proj2_nps.py:175-177 | A second get-or-fetch of the same key is a hit. It returns the first value and changes nothing, whatever the network would now answer. |
| Cache.RequestCache.Load | proj2_nps.py:157-165 | The cache starts as the file's dict, or empty when reading or decoding fails. Nothing is fetched or saved yet. |
| Cache.RequestCache.Request | proj2_nps.py:174-183 | Get-or-fetch on the cache field. A hit leaves the map, the fetch log and the saved file alone. A miss fetches once, logs the key and saves the whole new map. The invariant (each key fetched at most once, the file mirrors memory) is preserved. |
| Cache.RequestCache.RequestUrl | proj2_nps.py:174-183 | make_url_request_using_cache: a hit returns `cache[url]` unchanged. A miss stores and returns `get(url)` and logs one fetch of `url`. |
| Cache.RequestCache.RequestTwice | proj2_nps.py:175-183 | Two requests for one key: the first is a get-or-fetch (a hit returns the stored value, a miss stores `fetch()`, other keys keep their values), and the second is a hit returning the same value. The log gains the key only on a miss, and the file is saved only then. |
| Text.Trim | proj2_nps.py:68-72 | `strip()`: the result is no longer than the input, and neither starts nor ends with whitespace. |
| Text.TrimIdempotent | proj2_nps.py:68-72 | Stripping twice is stripping once. |
| Text.TrimIsSlice | proj2_nps.py:68-72 | The stripped text is the slice of the input between two margins made only of whitespace. |
| Text.Lower | proj2_nps.py:153 | `lower()` keeps the length and lowers each character in place. |
| Text.LowerIdempotent | proj2_nps.py:153 | Lowering twice is lowering once. |
| Text.LowerHasNoUpper | proj2_nps.py:153 | A lowered text has no upper-case ASCII letter. |
| Text.LeTotal | proj2_nps.py:266 | Python's string order compares any two strings. |
| Text.LeAntisymmetric | proj2_nps.py:266 | Two strings that are each at most the other are equal. |
| Text.LeTransitive | proj2_nps.py:266 | The string order is transitive. |
| Text.JoinAround | proj2_nps.py:271 | `"_".join` around one part: what precedes and follows that part depends only on the other parts. |
| Sorting.Sort | proj2_nps.py:266 | `sorted`: the result is ordered and is a permutation of the input. |
| Sorting.InsertSorted | proj2_nps.py:266 | Inserting into a sorted list keeps it sorted. |
| Sorting.SortedUnique | proj2_nps.py:266 | Two sorted permutations of one multiset are the same list. |
| Sorting.SortOrderIndependent | proj2_nps.py:266 | Sorting two permutations of each other gives the same list. |
| CacheKey.Assign | proj2_nps.py:256-263 | `params[k] = v`: the content gains or replaces `k`. A new key goes to the end of the insertion order; an old key keeps its place. |
| CacheKey.ParamStrings | proj2_nps.py:267-270 | The loop appends one `name-value` string per sorted name, in order. |
| CacheKey.BuildKey | proj2_nps.py:265-271 | The key the code builds is the endpoint, `_`, then the sorted `name-value` pairs joined with `_`. |
| CacheKey.KeyStartsWithEndpoint | proj2_nps.py:271 | The key is longer than the endpoint and begins with it. |
| CacheKey.KeyOrderIndependent | proj2_nps.py:266-271 | Two dicts with the same contents give one key, whatever their insertion orders. |
| CacheKey.TwoParameterKey | proj2_nps.py:266-271 | The key of a two-parameter dict with sorted names `a` < `b` is `endpoint_a-va_b-vb`. |
| CacheKey.KeyCollision | proj2_nps.py:269-271 | Two valid dicts whose contents differ can share a key, when a value contains `_` and `-`. |
| CacheKey.KeyFraming | proj2_nps.py:265-271 | With the other parameters fixed, the key is a fixed prefix, then the value of one named parameter, then a fixed suffix. |
| CacheKey.KeyInjectiveInValue | proj2_nps.py:265-271 | Two different values for one parameter, with nothing else changed, give two different keys. |
| Site.ExtractCategory | proj2_nps.py:67-72 | The category fails exactly when the designation lookup fails. Otherwise it is the stripped designation, and stripping it again changes nothing. |
| Site.MakeSite | proj2_nps.py:59-65 | `NationalSite(url, soup)`: the construction succeeds exactly when the category and the name both succeed. Each field is then its extractor's result, and `url` is the argument. |
| Site.Info | proj2_nps.py:120-121 | The summary has the length of name, category, address and zipcode plus six separator characters. It begins with the name and ` (`. |
| Site.ExtractName | proj2_nps.py:74-80 | The name fails exactly when both the long title and the plain title lookups fail. It is the stripped long title when that exists, and otherwise the stripped plain title. |
| Site.NamePrefersLongTitle | proj2_nps.py:74-80 | When the long title exists, the name is the stripped long title, whatever the plain title holds. |
| Site.ExtractAddress | proj2_nps.py:82-96 | The address is `"No address"` exactly when the locality or the region lookup fails. Otherwise it is `city, state` of the stripped parts. |
| Site.ExtractZipcode | proj2_nps.py:98-107 | The zipcode is the stripped postal code, or `"No zipcode"` when that lookup fails. |
| Site.ExtractPhone | proj2_nps.py:109-118 | The phone is the stripped tel text, or `"No phone number"` when that lookup fails. |
| Site.MissingAddressContainer | proj2_nps.py:82-107 | A page without its address container still yields a site, with both the address and the zipcode sentinels. |
| Site.PhoneIsolated | proj2_nps.py:59-65 | Changing or losing the phone lookup cannot make the construction fail, and changes no field but the phone. |
| Site.AddressIsolated | proj2_nps.py:59-65 | The address and postal-code lookups cannot make the construction fail, and change only the address and the zipcode. |
| Site.InfoOmitsPhone | proj2_nps.py:120-121 | The summary does not depend on the phone. |
| Directory.BuildStateUrlDict | proj2_nps.py:149-153 | The loop builds the state dict of the links, or fails (None) on a link without `href`. |
| Directory.StateUrlsFailurePersists | proj2_nps.py:151-152 | A link without `href` makes the whole construction fail. |
| Directory.StateUrlsDefined | proj2_nps.py:149-153 | The state dict exists exactly when every link has an `href`. |
| Directory.StateUrlsKeys | proj2_nps.py:153 | The keys of the state dict are exactly the lowered link texts. |
| Directory.StateUrlsLastWins | proj2_nps.py:152-153 | A key maps to `BASE_URL + href` of the last link with that lowered text, so a later duplicate overwrites an earlier one. |
| Directory.StateUrlsSingle | proj2_nps.py:149-153 | One link gives the one-entry dict from its lowered text to `BASE_URL + href`. |
| Directory.MichiganExample | proj2_nps.py:133-135 | The Michigan link gives `{'michigan': 'https://www.nps.gov/state/mi/index.htm'}`. |
| Directory.SiteUrls | proj2_nps.py:226-230 | The URL list exists exactly when every `h3` has an `href`. It then has one entry per `h3`, in order, and entry `i` is `BASE_URL + href_i`. |
| Directory.GetSiteInstance | proj2_nps.py:185-201 | The page is get-or-fetched in the cache: a hit logs no fetch, a miss logs one fetch of the URL. The site is built from the directly fetched page, with the cached page text as its `url`. The page is downloaded once on a hit and twice on a miss. |
| Directory.SiteRound | proj2_nps.py:233-234 | One round of the loop: the site of URL `i` is built from its cached text and page, and no cache entry changes. The fetch log gains URL `i` exactly when it was not cached, and the download count grows by 1 on a hit and 2 on a miss, so the loop's progress moves on by exactly that URL. |
| Directory.SiteInstances | proj2_nps.py:232-235 | No earlier cache entry changes. The only keys added are URLs of the list, each holding the page `get` returns. The fetch log keeps its old entries and gains exactly the added keys, one entry each. The result is one site per URL, in order, or failure exactly when some page lacks its category or name. On success the new keys are exactly the URLs of the list. On failure at the first such page `f`, the new keys are exactly the URLs up to and including `f`. Either way the site pages were downloaded once per requested URL plus once per miss. |
| Directory.GetSitesForState | proj2_nps.py:203-235 | A link without `href` fails before any request, leaving the cache alone. Otherwise the outcome is that of the loop on `BASE_URL + href_i`: the sites exist exactly when every page has a category and a name; the cache and the fetch log grow by exactly the requested pages, up to and including the first failing one; and the site-page download count is exact. |
| Nearby.NearbyParams | proj2_nps.py:256-263 | The seven parameters form a well-formed dict: no repeated names, and contents and order agree. |
| Nearby.OnlyOriginDiffers | proj2_nps.py:256-263 | The dicts for two zipcodes differ only in `origin`. One is the other with `origin` reassigned. |
| Nearby.NearbyKeyForm | proj2_nps.py:256-271 | For a fixed API key, every nearby-places key is one fixed prefix, then the zipcode, then one fixed suffix. |
| Nearby.NearbyKeyInjective | proj2_nps.py:256-271 | Two different zipcodes always give two different keys. |
| Nearby.NearbyKeyIsNotPageUrl | proj2_nps.py:271-273 | A MapQuest key (`http:`) never equals a page URL (`https:`), so the two kinds of entry in the shared cache never overwrite each other. |
| Nearby.RequestWithParams | proj2_nps.py:265-282 | For any parameter dict: get-or-fetch of its canonical key. A miss queries the endpoint with the dict and logs one fetch. |
| Nearby.GetNearbyPlaces | proj2_nps.py:238-282 | get_nearby_places: get-or-fetch of the key of the site's zipcode. A hit returns the cached response and changes nothing; a miss queries once. |
| Nearby.WithDefaults | proj2_nps.py:369-376 | A non-empty field is kept as is. An empty name, category, street address or city becomes `"no name"`, `"no category"`, `"no street address"` or `"no city"`, so every field is non-empty. |
| Nearby.WithDefaultsIdempotent | proj2_nps.py:369-376 | Applying the defaults twice is applying them once. |
| Nearby.ListedPlaces | proj2_nps.py:362-376 | The loop runs once per top-level key of the response. It fails exactly when there are more keys than results. Otherwise it shows that many places, each with the defaults applied, in result order. |

## Left out

- HTTP requests, the request headers and the HTML parse are parameters: `fetch`, `get`, `query` and `parse`, so
  their results are not modelled.
- A failing request is not modelled. `requests.get` can raise (connection error, timeout), but `get`, `fetch`
  and `query` always return a value, so no operation fails for that reason.
- The GET of the state page in `get_sites_for_state` (proj2_nps.py:220-221) is the parameter `hrefs`: the
  model starts from the `href` of each `h3` link, and `gets` counts only the site-page GETs. A detail page is represented by the outcome of each lookup chain. BeautifulSoup's
  `find`/`next_element` semantics are not reproduced, nor its multi-valued `class_` matching. `next_element` is
  taken to be text.
- JSON reading and writing (`load_cache`, `save_cache` and the file write in `get_nearby_places`) are I/O and a
  foreign serialiser. The file is the ghost snapshot `saved`; a failed read is a None argument to
  `RequestCache.Load`. Nothing is claimed about the JSON formats, such as `indent=2` versus none.
- The `load_cache()` call at the start of `get_nearby_places` is not modelled, because its result is discarded and
  it changes nothing.
- Cache: `CACHE_DICT` holds page texts and decoded JSON responses in one dict. The model gives the pages a
  `RequestCache<string>` and the nearby requests a `RequestCache<V>`. `Nearby.NearbyKeyIsNotPageUrl` shows that the
  two kinds of key never meet in the shared dict.
- Directory.GetSiteInstance: `get` is one pure function, so the direct GET and the cached GET of a page return the
  same text on a miss. In the script they are two separate network calls, which could disagree. The direct GET is
  counted in the ghost result `gets`, not in the cache's fetch log.
- Cache.RequestCache: `saved` is each instance's own snapshot. In the script there is one file, which `save_cache`
  and the write in `get_nearby_places` both overwrite with the whole shared dict, pages and nearby responses
  together. With the two caches of the model, neither snapshot is that file.
- The interactive menu (proj2_nps.py:288-379 outside the listing loop) is console I/O and is not modelled:
  - `input`, `print` and the "Using cache"/"Fetching" messages;
  - the state-name lookup;
  - the range check on the chosen number. That check does not reject `"0"`, which selects the last site through
    index -1.
- The listing loop's KeyError on a missing `fields` entry of a result is not modelled; every result is taken to
  have its four fields.
- Nearby.ListedPlaces: a response without a `"searchResults"` key makes proj2_nps.py:363 raise KeyError in the
  first round whenever the response has any key. `Nearby.Response` always holds a `searchResults` list, so that
  case is not represented.
- `secrets.API_KEY` is the parameter `apiKey`. The integer parameters `10` are held as the text `"10"`, which is
  what `"{}-{}".format` writes.
- Text.Lower: handles ASCII letters only; Python's `str.lower()` also lowers other Unicode letters.
- Nearby.NearbyKeyForm: gives its prefix and suffix as values the lemma returns, not as literal text.
- Site.Info: states the summary's length and its leading name, not the whole layout. `Site.InfoOmitsPhone` states
  that the phone is absent.
