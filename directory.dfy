/**
 * The site-directory client of proj2_nps.py: build_state_url_dict,
 * get_site_instance and get_sites_for_state. The HTTP GETs and the HTML
 * parse are parameters: `get` maps a URL to the page text, `parse` maps page
 * text to the lookups of a detail page, and the link lists stand for what
 * `find_all` returns on the directory and state pages.
 */
module Directory {
  import opened Wrappers
  import opened Text
  import opened Site
  import opened Cache

  const BaseUrl := "https://www.nps.gov"

  /** An `<a>` of the state drop-down: its first text node and its `href` (None when absent). */
  datatype Link = Link(text: string, href: Option<string>)

  /**
   * The dict build_state_url_dict returns, link by link: the lowered link
   * text maps to the absolute URL; a missing `href` makes
   * `BASE_URL + None` raise (None).
   */
  function StateUrls(links: seq<Link>): Option<map<string, string>>
  {
    if links == [] then Some(map[])
    else
      var last := links[|links| - 1];
      match StateUrls(links[..|links| - 1])
      case None => None
      case Some(m) =>
        if last.href.Some? then Some(m[Lower(last.text) := BaseUrl + last.href.value]) else None
  }

  /** build_state_url_dict's loop over the state links. */
  method BuildStateUrlDict(links: seq<Link>) returns (states: Option<map<string, string>>)
    ensures states == StateUrls(links)
  {
    var m: map<string, string> := map[];
    for i := 0 to |links|
      invariant StateUrls(links[..i]) == Some(m)
    {
      assert links[..i + 1][..i] == links[..i];
      if links[i].href.None? {
        StateUrlsFailurePersists(links, i + 1);
        return None;
      }
      m := m[Lower(links[i].text) := BaseUrl + links[i].href.value];
    }
    assert links[..|links|] == links;
    states := Some(m);
  }

  /** Once a prefix of the links has failed, the whole list fails. */
  lemma {:induction false} StateUrlsFailurePersists(links: seq<Link>, n: nat)
    requires n <= |links| && StateUrls(links[..n]).None?
    ensures StateUrls(links).None?
    decreases |links| - n
  {
    if n < |links| {
      assert links[..n + 1][..n] == links[..n];
      StateUrlsFailurePersists(links, n + 1);
    } else {
      assert links[..n] == links;
    }
  }

  /** The state dict exists exactly when every link has an `href`. */
  lemma {:induction false} StateUrlsDefined(links: seq<Link>)
    ensures StateUrls(links).Some? <==> forall i :: 0 <= i < |links| ==> links[i].href.Some?
  {
    if links != [] {
      var n := |links| - 1;
      StateUrlsDefined(links[..n]);
      assert forall i :: 0 <= i < n ==> links[..n][i] == links[i];
    }
  }

  /** The keys of the state dict are exactly the lowered link texts. */
  lemma {:induction false} StateUrlsKeys(links: seq<Link>)
    requires StateUrls(links).Some?
    ensures forall k :: k in StateUrls(links).value <==> exists i :: 0 <= i < |links| && Lower(links[i].text) == k
  {
    if links != [] {
      var n := |links| - 1;
      var init := links[..n];
      StateUrlsKeys(init);
      var m, m' := StateUrls(init).value, StateUrls(links).value;
      assert m' == m[Lower(links[n].text) := BaseUrl + links[n].href.value];
      forall k ensures k in m' <==> exists i :: 0 <= i < |links| && Lower(links[i].text) == k {
        if k in m {
          var i :| 0 <= i < n && Lower(init[i].text) == k;
          assert init[i] == links[i];
        }
        if exists i :: 0 <= i < |links| && Lower(links[i].text) == k {
          var i :| 0 <= i < |links| && Lower(links[i].text) == k;
          if i < n {
            assert init[i] == links[i];
          }
        }
      }
    }
  }

  /**
   * Each key maps to the URL of the LAST link with that lowered text: a
   * later duplicate overwrites an earlier one.
   */
  lemma {:induction false} StateUrlsLastWins(links: seq<Link>, i: nat)
    requires StateUrls(links).Some?
    requires i < |links|
    requires forall j :: i < j < |links| ==> Lower(links[j].text) != Lower(links[i].text)
    ensures links[i].href.Some?
    ensures Lower(links[i].text) in StateUrls(links).value
    ensures StateUrls(links).value[Lower(links[i].text)] == BaseUrl + links[i].href.value
  {
    var n := |links| - 1;
    var init := links[..n];
    if i < n {
      assert init[i] == links[i];
      assert forall j :: i < j < |init| ==> init[j] == links[j];
      StateUrlsLastWins(init, i);
    }
  }

  /** A single link gives a one-entry dict. */
  lemma StateUrlsSingle(text: string, href: string)
    ensures StateUrls([Link(text, Some(href))]) == Some(map[Lower(text) := BaseUrl + href])
  {
    assert [Link(text, Some(href))][..0] == [];
  }

  /** The Michigan link of the directory page. */
  lemma MichiganExample()
    ensures StateUrls([Link("Michigan", Some("/state/mi/index.htm"))])
         == Some(map["michigan" := BaseUrl + "/state/mi/index.htm"])
  {
    StateUrlsSingle("Michigan", "/state/mi/index.htm");
    LowerMichigan();
  }

  lemma LowerMichigan()
    ensures Lower("Michigan") == "michigan"
  {
    assert "Michigan" == ['M'] + "ichigan";
    LowerKeepsLower("ichigan");
    assert "michigan" == ['m'] + "ichigan";
  }

  /**
   * get_sites_for_state's first loop: one absolute URL per `h3`, in page
   * order; an `h3` without a link, or a link without an `href`, raises (None).
   */
  method SiteUrls(hrefs: seq<Option<string>>) returns (urls: Option<seq<string>>)
    ensures urls.Some? <==> forall i :: 0 <= i < |hrefs| ==> hrefs[i].Some?
    ensures urls.Some? ==> |urls.value| == |hrefs|
    ensures urls.Some? ==> forall i :: 0 <= i < |hrefs| ==> urls.value[i] == BaseUrl + hrefs[i].value
  {
    var stateSiteUrls: seq<string> := [];
    for i := 0 to |hrefs|
      invariant |stateSiteUrls| == i
      invariant forall k :: 0 <= k < i ==> hrefs[k].Some? && stateSiteUrls[k] == BaseUrl + hrefs[k].value
    {
      if hrefs[i].None? {
        return None;
      }
      stateSiteUrls := stateSiteUrls + [BaseUrl + hrefs[i].value];
    }
    urls := Some(stateSiteUrls);
  }

  /**
   * get_site_instance, as written: the page is fetched directly AND through
   * the cache; the direct response is parsed, and the text the cache returns
   * is what becomes the instance's `url` field. `gets` counts the GETs of the
   * page: the direct one happens on every call, a cache miss adds a second.
   */
  method GetSiteInstance(cache: RequestCache<string>, siteUrl: string, get: string -> string, parse: string -> DetailDoc)
    returns (site: Option<NationalSite>, ghost gets: nat)
    requires cache.Valid()
    modifies cache
    ensures cache.Valid()
    ensures cache.entries == GetOrFetch(old(cache.entries), siteUrl, get(siteUrl)).1
    ensures siteUrl in cache.entries && site == MakeSite(cache.entries[siteUrl], parse(get(siteUrl)))
    ensures siteUrl in old(cache.entries) ==> cache.fetched == old(cache.fetched) && gets == 1
    ensures siteUrl !in old(cache.entries) ==> cache.fetched == old(cache.fetched) + [siteUrl] && gets == 2
  {
    var response := get(siteUrl);
    gets := 1;
    ghost var logged := |cache.fetched|;
    var urlText := cache.RequestUrl(siteUrl, get);
    gets := gets + (|cache.fetched| - logged);
    var soup := parse(response);
    site := MakeSite(urlText, soup);
  }

  /** Every entry of `m` is still in `m'` with the same value. */
  ghost predicate Kept(m: map<string, string>, m': map<string, string>) {
    forall k :: k in m ==> k in m' && m'[k] == m[k]
  }

  /** Every entry of `m'` that is not in `m` holds the page `get` returns for its URL. */
  ghost predicate AddedPages(m: map<string, string>, m': map<string, string>, get: string -> string) {
    forall u :: u in m' && u !in m ==> m'[u] == get(u)
  }

  /** The elements of a list, as a set. */
  ghost function Members(s: seq<string>): set<string> {
    set u | u in s
  }

  lemma MembersSnoc(s: seq<string>, x: string)
    ensures Members(s + [x]) == Members(s) + {x}
  {
  }

  /** The fetch log grew from `log0` to `log` by exactly the keys the cache gained from `m0` to `m`. */
  ghost predicate LogMatches(m0: map<string, string>, m: map<string, string>, log0: seq<string>, log: seq<string>) {
    && |log0| <= |log| && log[..|log0|] == log0
    && Members(log[|log0|..]) == m.Keys - m0.Keys
  }

  /** No element occurs twice. */
  ghost predicate NoRepeats(s: seq<string>) {
    forall i, j :: 0 <= i < j < |s| ==> s[i] != s[j]
  }

  /** A list without repeats has as many members as elements. */
  lemma {:induction false} NoRepeatsMembers(s: seq<string>)
    requires NoRepeats(s)
    ensures |Members(s)| == |s|
  {
    if s != [] {
      var p := s[..|s| - 1];
      assert s == p + [s[|s| - 1]];
      assert NoRepeats(p);
      NoRepeatsMembers(p);
      MembersSnoc(p, s[|s| - 1]);
      assert s[|s| - 1] !in Members(p);
    }
  }

  /**
   * When the log repeats no key, the log matched to the cache gained one
   * entry per added key.
   */
  lemma LogCount(m0: map<string, string>, m: map<string, string>, log0: seq<string>, log: seq<string>)
    requires LogMatches(m0, m, log0, log) && NoRepeats(log)
    ensures |log| - |log0| == |m.Keys - m0.Keys|
  {
    var added := log[|log0|..];
    assert NoRepeats(added) by {
      forall i, j | 0 <= i < j < |added| ensures added[i] != added[j] {
        assert added[i] == log[|log0| + i] && added[j] == log[|log0| + j];
      }
    }
    NoRepeatsMembers(added);
  }

  /** A get-or-fetch of `key` keeps the log matched to the cache. */
  lemma LogStep(m0: map<string, string>, before: map<string, string>, after: map<string, string>,
                log0: seq<string>, log: seq<string>, log': seq<string>, key: string)
    requires LogMatches(m0, before, log0, log)
    requires m0.Keys <= before.Keys && after.Keys == before.Keys + {key}
    requires log' == if key in before then log else log + [key]
    ensures LogMatches(m0, after, log0, log')
  {
    if key !in before {
      AppendAfterPrefix(log0, log, key);
      MembersSnoc(log[|log0|..], key);
      AddNewKey(m0.Keys, before.Keys, key);
    } else {
      assert after.Keys == before.Keys;
    }
  }

  /** Appending to a log that extends `log0` appends to the part after `log0`. */
  lemma AppendAfterPrefix(log0: seq<string>, log: seq<string>, key: string)
    requires |log0| <= |log| && log[..|log0|] == log0
    ensures (log + [key])[..|log0|] == log0
    ensures (log + [key])[|log0|..] == log[|log0|..] + [key]
  {
    assert (log + [key])[..|log0|] == log[..|log0|];
  }

  /** Adding a new key to `b` adds it to what `b` gained over `a`. */
  lemma AddNewKey(a: set<string>, b: set<string>, key: string)
    requires a <= b && key !in b
    ensures (b + {key}) - a == (b - a) + {key}
  {
  }

  /**
   * The cache grew from `m0` to `m` by pages of `pages` only: nothing cached
   * before changed, every added entry holds what `get` returns, and the
   * fetch log gained exactly the added keys, one entry each.
   */
  ghost predicate CacheGrew(m0: map<string, string>, m: map<string, string>, log0: seq<string>, log: seq<string>,
                            pages: set<string>, get: string -> string) {
    && Kept(m0, m)
    && AddedPages(m0, m, get)
    && m.Keys <= m0.Keys + pages
    && LogMatches(m0, m, log0, log)
  }

  /**
   * Where the instances loop stands after the first `i` URLs: the cache grew
   * by pages of `urls` only, exactly those first `i` URLs were added where
   * missing, and `gets` counts one direct download per URL plus one per miss.
   */
  ghost predicate Progress(urls: seq<string>, get: string -> string, m0: map<string, string>, m: map<string, string>,
                           log0: seq<string>, log: seq<string>, i: nat, gets: nat) {
    && i <= |urls|
    && CacheGrew(m0, m, log0, log, Members(urls), get)
    && m.Keys == m0.Keys + Members(urls[..i])
    && gets == i + |log| - |log0|
  }

  /**
   * One round of the instances loop keeps its invariant: `before`, `log` and
   * `gets` are the cache, the fetch log and the download count before
   * get-or-fetching `urls[i]`.
   */
  lemma SiteStep(urls: seq<string>, get: string -> string, m0: map<string, string>,
                 before: map<string, string>, after: map<string, string>,
                 log0: seq<string>, log: seq<string>, log': seq<string>, i: nat, gets: nat, gets': nat)
    requires i < |urls|
    requires Progress(urls, get, m0, before, log0, log, i, gets)
    requires after == GetOrFetch(before, urls[i], get(urls[i])).1
    requires log' == if urls[i] in before then log else log + [urls[i]]
    requires gets' == gets + if urls[i] in before then 1 else 2
    ensures Kept(before, after)
    ensures Progress(urls, get, m0, after, log0, log', i + 1, gets')
  {
    PageStep(m0, before, after, urls, i, get);
    LogStep(m0, before, after, log0, log, log', urls[i]);
  }

  /** The cache half of `SiteStep`. */
  lemma PageStep(m0: map<string, string>, before: map<string, string>, after: map<string, string>,
                 urls: seq<string>, i: nat, get: string -> string)
    requires i < |urls|
    requires Kept(m0, before) && AddedPages(m0, before, get)
    requires before.Keys == m0.Keys + Members(urls[..i])
    requires after == GetOrFetch(before, urls[i], get(urls[i])).1
    ensures Kept(before, after) && Kept(m0, after) && AddedPages(m0, after, get)
    ensures after.Keys <= m0.Keys + Members(urls)
    ensures m0.Keys <= before.Keys && after.Keys == before.Keys + {urls[i]}
    ensures after.Keys == m0.Keys + Members(urls[..i + 1])
  {
    assert Members(urls[..i + 1]) == Members(urls[..i]) + {urls[i]} by {
      assert urls[..i + 1] == urls[..i] + [urls[i]];
      MembersSnoc(urls[..i], urls[i]);
    }
    MembersPrefix(urls, i + 1);
  }

  /** A prefix has no members the whole list lacks. */
  lemma MembersPrefix(s: seq<string>, n: nat)
    requires n <= |s|
    ensures Members(s[..n]) <= Members(s)
  {
    forall u | u in Members(s[..n]) ensures u in Members(s) {
      var k :| 0 <= k < n && s[..n][k] == u;
      assert s[k] == u;
    }
  }

  /** Each of `sites` is the instance built from the cached text and the document of its URL. */
  ghost predicate Listed(sites: seq<NationalSite>, urls: seq<string>, m: map<string, string>,
                         get: string -> string, parse: string -> DetailDoc) {
    && |sites| <= |urls|
    && forall k :: 0 <= k < |sites| ==> urls[k] in m && Some(sites[k]) == MakeSite(m[urls[k]], parse(get(urls[k])))
  }

  /** Appending the next instance keeps the list listed, as long as the cache only grew. */
  lemma ListedExtend(urls: seq<string>, get: string -> string, parse: string -> DetailDoc,
                     before: map<string, string>, after: map<string, string>,
                     sites: seq<NationalSite>, site: NationalSite)
    requires Listed(sites, urls, before, get, parse) && |sites| < |urls|
    requires Kept(before, after)
    requires urls[|sites|] in after && Some(site) == MakeSite(after[urls[|sites|]], parse(get(urls[|sites|])))
    ensures Listed(sites + [site], urls, after, get, parse)
  {
    var t := sites + [site];
    forall k | 0 <= k < |t| ensures urls[k] in after && Some(t[k]) == MakeSite(after[urls[k]], parse(get(urls[k]))) {
      if k < |sites| {
        assert t[k] == sites[k];
        assert urls[k] in before;
      }
    }
  }

  /**
   * What get_sites_for_state's second loop leaves behind, from the cache
   * `m0` and fetch log `log0` it started with:
   * - the cache grew by pages of `urls` only, and the fetch log by exactly
   *   the added keys, one entry each (`CacheGrew` and the length clause);
   * - on success, one site per URL in order, built from the cached text and
   *   the page of that URL; every URL is a key, and the pages were
   *   downloaded once per URL plus once per miss;
   * - on failure, `f` is the first URL whose page lacks a category or a
   *   name: the URLs up to and including it were requested (and are now
   *   keys), the later ones were not.
   */
  ghost predicate InstancesBuilt(urls: seq<string>, get: string -> string, parse: string -> DetailDoc,
                                 m0: map<string, string>, m: map<string, string>, log0: seq<string>, log: seq<string>,
                                 sites: Option<seq<NationalSite>>, gets: nat) {
    && CacheGrew(m0, m, log0, log, Members(urls), get)
    && |log| - |log0| == |m.Keys - m0.Keys|
    && (sites.Some? <==> forall i :: 0 <= i < |urls| ==> Constructible(parse(get(urls[i]))))
    && (sites.Some? ==>
          && m.Keys == m0.Keys + Members(urls)
          && gets == |urls| + |log| - |log0|
          && |sites.value| == |urls|
          && forall i :: 0 <= i < |urls| ==>
               urls[i] in m && Some(sites.value[i]) == MakeSite(m[urls[i]], parse(get(urls[i]))))
    && (sites.None? ==>
          exists f :: 0 <= f < |urls| && !Constructible(parse(get(urls[f])))
            && (forall k :: 0 <= k < f ==> Constructible(parse(get(urls[k]))))
            && m.Keys == m0.Keys + Members(urls[..f + 1])
            && gets == f + 1 + |log| - |log0|)
  }

  /** The loop stopped at `urls[f]`, the first page that is not constructible. */
  lemma FailedAt(urls: seq<string>, get: string -> string, parse: string -> DetailDoc,
                 m0: map<string, string>, m: map<string, string>, log0: seq<string>, log: seq<string>,
                 sites: seq<NationalSite>, before: map<string, string>, f: nat, gets: nat)
    requires f < |urls| && !Constructible(parse(get(urls[f])))
    requires |sites| == f && Listed(sites, urls, before, get, parse)
    requires Progress(urls, get, m0, m, log0, log, f + 1, gets) && NoRepeats(log)
    ensures InstancesBuilt(urls, get, parse, m0, m, log0, log, None, gets)
  {
    LogCount(m0, m, log0, log);
  }

  /** The loop went through all of `urls`. */
  lemma BuiltAll(urls: seq<string>, get: string -> string, parse: string -> DetailDoc,
                 m0: map<string, string>, m: map<string, string>, log0: seq<string>, log: seq<string>,
                 sites: seq<NationalSite>, gets: nat)
    requires Progress(urls, get, m0, m, log0, log, |urls|, gets) && NoRepeats(log)
    requires |sites| == |urls| && Listed(sites, urls, m, get, parse)
    ensures InstancesBuilt(urls, get, parse, m0, m, log0, log, Some(sites), gets)
  {
    assert urls[..|urls|] == urls;
    LogCount(m0, m, log0, log);
  }

  /**
   * One round of get_sites_for_state's second loop: the instance of
   * `urls[i]`, with the cache and the download count moved on by one URL.
   */
  method SiteRound(cache: RequestCache<string>, urls: seq<string>, i: nat, get: string -> string, parse: string -> DetailDoc,
                   ghost m0: map<string, string>, ghost log0: seq<string>, ghost gets: nat)
    returns (site: Option<NationalSite>, ghost gets': nat)
    requires cache.Valid() && i < |urls|
    requires Progress(urls, get, m0, cache.entries, log0, cache.fetched, i, gets)
    modifies cache
    ensures cache.Valid()
    ensures Progress(urls, get, m0, cache.entries, log0, cache.fetched, i + 1, gets')
    ensures Kept(old(cache.entries), cache.entries)
    ensures urls[i] in cache.entries && site == MakeSite(cache.entries[urls[i]], parse(get(urls[i])))
    ensures cache.fetched == if urls[i] in old(cache.entries) then old(cache.fetched) else old(cache.fetched) + [urls[i]]
    ensures gets' == gets + if urls[i] in old(cache.entries) then 1 else 2
  {
    ghost var before, log := cache.entries, cache.fetched;
    ghost var g;
    site, g := GetSiteInstance(cache, urls[i], get, parse);
    gets' := gets + g;
    SiteStep(urls, get, m0, before, cache.entries, log0, log, cache.fetched, i, gets, gets');
  }

  /** get_sites_for_state's second loop: one instance per URL, in order, through the cache. */
  method SiteInstances(cache: RequestCache<string>, urls: seq<string>, get: string -> string, parse: string -> DetailDoc)
    returns (sites: Option<seq<NationalSite>>, ghost gets: nat)
    requires cache.Valid()
    modifies cache
    ensures cache.Valid()
    ensures InstancesBuilt(urls, get, parse, old(cache.entries), cache.entries, old(cache.fetched), cache.fetched, sites, gets)
  {
    gets := 0;
    var siteInstances: seq<NationalSite> := [];
    for i := 0 to |urls|
      invariant cache.Valid()
      invariant Progress(urls, get, old(cache.entries), cache.entries, old(cache.fetched), cache.fetched, i, gets)
      invariant |siteInstances| == i
      invariant Listed(siteInstances, urls, cache.entries, get, parse)
    {
      ghost var before := cache.entries;
      var site;
      site, gets := SiteRound(cache, urls, i, get, parse, old(cache.entries), old(cache.fetched), gets);
      if site.None? {
        FailedAt(urls, get, parse, old(cache.entries), cache.entries, old(cache.fetched), cache.fetched,
                 siteInstances, before, i, gets);
        return None, gets;
      }
      ListedExtend(urls, get, parse, before, cache.entries, siteInstances, site.value);
      siteInstances := siteInstances + [site.value];
    }
    BuiltAll(urls, get, parse, old(cache.entries), cache.entries, old(cache.fetched), cache.fetched, siteInstances, gets);
    sites := Some(siteInstances);
  }

  /** The absolute URLs of the `h3` links, in page order, when every one has an `href`. */
  ghost function PageUrls(hrefs: seq<Option<string>>): seq<string>
    requires forall i :: 0 <= i < |hrefs| ==> hrefs[i].Some?
  {
    seq(|hrefs|, i requires 0 <= i < |hrefs| => BaseUrl + hrefs[i].value)
  }

  /**
   * get_sites_for_state: the site URLs from the `h3` links, then their
   * instances. A link without an `href` fails before any request is made;
   * otherwise the outcome is that of the instances loop on the URLs.
   */
  method GetSitesForState(cache: RequestCache<string>, hrefs: seq<Option<string>>, get: string -> string, parse: string -> DetailDoc)
    returns (sites: Option<seq<NationalSite>>, ghost gets: nat)
    requires cache.Valid()
    modifies cache
    ensures cache.Valid()
    ensures (exists i :: 0 <= i < |hrefs| && hrefs[i].None?) ==>
              sites.None? && cache.entries == old(cache.entries) && cache.fetched == old(cache.fetched) && gets == 0
    ensures (forall i :: 0 <= i < |hrefs| ==> hrefs[i].Some?) ==>
              InstancesBuilt(PageUrls(hrefs), get, parse, old(cache.entries), cache.entries, old(cache.fetched), cache.fetched, sites, gets)
  {
    var urls := SiteUrls(hrefs);
    if urls.None? {
      return None, 0;
    }
    assert urls.value == PageUrls(hrefs);
    sites, gets := SiteInstances(cache, urls.value, get, parse);
  }
}
