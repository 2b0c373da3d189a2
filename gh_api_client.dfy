/** `classGitHubApiClient`: the release list of a GitHub repository, fetched
    page by page and cached in the persistent store for five minutes. The
    store is a map field here; `fetch` and the clock are parameters. */
module GitHubApiClient {
  import opened Wrappers
  import opened JsString

  datatype Credentials = Credentials(owner: string, repo: string, apiUrl: string)

  /** An asset and a release as the API sends them; `other` stands for the
      fields the client drops. */
  datatype RawAsset = RawAsset(name: string, browserDownloadUrl: string, other: map<string, string>)
  datatype RawRelease = RawRelease(tagName: string, publishedAt: string, assets: seq<RawAsset>,
                                   other: map<string, string>)

  /** What the client keeps of them. */
  datatype Asset = Asset(name: string, browserDownloadUrl: string)
  datatype Release = Release(tagName: string, publishedAt: string, assets: seq<Asset>)

  /** A response: its status, its JSON body as a release list, and the
      `message` field of the body, if any. */
  datatype Response = Response(status: nat, body: seq<RawRelease>, message: Option<string>)

  /** `getCacheObject` */
  datatype CacheObject = CacheObject(data: seq<Release>, expiration: int)

  /** `1000 * 60 * 5` */
  const CacheLifetime := 300000
  const PerPage := 100
  const CacheId := "ListOfReleases"
  /** What a thrown `Response` object reads as. */
  const ResponseThrown := "[object Response]"

  /** `expiration || Date.now() + 1000 * 60 * 5` */
  function ExpirationOf(expiration: Option<int>, now: int): (r: int)
    ensures expiration.Some? && expiration.value != 0 ==> r == expiration.value
    ensures expiration.None? || expiration.value == 0 ==> r == now + CacheLifetime
  {
    if expiration.Some? && expiration.value != 0 then expiration.value else now + CacheLifetime
  }

  /** `Date.now() > (cache?.value?.expiration || 0)` */
  predicate Expired(cache: map<string, CacheObject>, id: string, now: int) {
    now > (if id in cache then cache[id].expiration else 0)
  }

  /** What `getCache` returns. */
  function CacheLookup(cache: map<string, CacheObject>, id: string, now: int): (r: Option<seq<Release>>)
    ensures r.Some? <==> id in cache && now <= cache[id].expiration
    ensures r.Some? ==> r.value == cache[id].data
  {
    if Expired(cache, id, now) || id !in cache then None else Some(cache[id].data)
  }

  /** The store after `getCache`: an expired or absent key is removed. */
  function AfterLookup(cache: map<string, CacheObject>, id: string, now: int): map<string, CacheObject> {
    if Expired(cache, id, now) then cache - {id} else cache
  }

  function Project(r: RawRelease): (p: Release)
    ensures p.tagName == r.tagName && p.publishedAt == r.publishedAt && |p.assets| == |r.assets|
    ensures forall i :: 0 <= i < |r.assets| ==>
      p.assets[i] == Asset(r.assets[i].name, r.assets[i].browserDownloadUrl)
  {
    Release(r.tagName, r.publishedAt,
            seq(|r.assets|, i requires 0 <= i < |r.assets| => Asset(r.assets[i].name, r.assets[i].browserDownloadUrl)))
  }

  function ProjectAll(rs: seq<RawRelease>): (ps: seq<Release>)
    ensures |ps| == |rs| && forall i :: 0 <= i < |rs| ==> ps[i] == Project(rs[i])
  {
    seq(|rs|, i requires 0 <= i < |rs| => Project(rs[i]))
  }

  /** The URL of page `page`. */
  function PageUrl(github: Credentials, page: nat): string {
    github.apiUrl + "/repos/" + github.owner + "/" + github.repo + "/releases?per_page="
    + NatToString(PerPage) + "&page=" + NatToString(page)
  }

  /** `req.status.toString().slice(0, 1) == '2'`: the status is written with
      a leading 2. */
  predicate IsSuccess(status: nat) {
    NatToString(status)[0] == '2'
  }

  /** `(await req.json())?.message || req` */
  function ErrorOf(r: Response): string {
    if r.message.Some? && r.message.value != "" then r.message.value else ResponseThrown
  }

  /** Page `page` ends the loop: it fails or it is not full. */
  predicate Stops(fetch: string -> Response, github: Credentials, page: nat) {
    var r := fetch(PageUrl(github, page));
    !IsSuccess(r.status) || |r.body| < PerPage
  }

  /** The releases of pages `1 .. n - 1`, in page order. */
  function Collected(fetch: string -> Response, github: Credentials, n: nat): seq<Release>
    requires n >= 1
  {
    if n == 1 then [] else Collected(fetch, github, n - 1) + ProjectAll(fetch(PageUrl(github, n - 1)).body)
  }

  /** Page `n` is the first page that ends the loop. */
  predicate LastPage(fetch: string -> Response, github: Credentials, n: nat) {
    n >= 1 && Stops(fetch, github, n) && forall k :: 1 <= k < n ==> !Stops(fetch, github, k)
  }

  /** The first release with exactly that tag. */
  function FindTag(releases: seq<Release>, tagName: string): Option<Release> {
    FindFirst(releases, (r: Release) => r.tagName, tagName)
  }

  /** `releases.push` of every projected release of a page. */
  method AppendProjected(releases: seq<Release>, json: seq<RawRelease>) returns (out: seq<Release>)
    ensures out == releases + ProjectAll(json)
  {
    out := releases;
    for i := 0 to |json|
      invariant out == releases + ProjectAll(json[..i])
    {
      assert ProjectAll(json[..i + 1]) == ProjectAll(json[..i]) + [Project(json[i])];
      out := out + [Project(json[i])];
    }
    assert json[..|json|] == json;
  }

  /** The `while (true)` loop of `fetchReleases`: pages 1, 2, ... up to the
      first that fails or is not full. */
  method FetchPages(github: Credentials, fetch: string -> Response) returns (r: Result<seq<Release>>, pages: nat)
    requires exists n: nat :: n >= 1 && Stops(fetch, github, n)
    ensures LastPage(fetch, github, pages)
    ensures var last := fetch(PageUrl(github, pages));
      if IsSuccess(last.status) then r == Ok(Collected(fetch, github, pages) + ProjectAll(last.body))
      else r == Err(ErrorOf(last))
  {
    ghost var w: nat :| w >= 1 && Stops(fetch, github, w);
    var releases: seq<Release> := [];
    var page: nat := 1;
    while true
      invariant 1 <= page <= w
      invariant releases == Collected(fetch, github, page)
      invariant forall k :: 1 <= k < page ==> !Stops(fetch, github, k)
      decreases w - page
    {
      var req := fetch(PageUrl(github, page));
      if !IsSuccess(req.status) {
        assert Stops(fetch, github, page);
        return Err(ErrorOf(req)), page;
      }
      releases := AppendProjected(releases, req.body);
      if |req.body| < PerPage {
        assert Stops(fetch, github, page);
        return Ok(releases), page;
      }
      ghost var stopped := Stops(fetch, github, page);
      assert !stopped;
      assert page != w;
      assert releases == Collected(fetch, github, page + 1);
      forall k | 1 <= k < page + 1
        ensures !Stops(fetch, github, k)
      {
        if k == page {
          assert !stopped;
        }
      }
      page := page + 1;
    }
  }

  class Client {
    const github: Credentials
    var cache: map<string, CacheObject>

    /** `args.github || GH_API_CLIENT_CREDENTIALS`, over the given store. */
    constructor(github: Option<Credentials>, defaultCredentials: Credentials, store: map<string, CacheObject>)
      ensures this.github == github.GetOr(defaultCredentials) && cache == store
    {
      this.github := github.GetOr(defaultCredentials);
      cache := store;
    }

    /** `addCache` */
    method AddCache(id: string, data: seq<Release>, expiration: Option<int>, now: int)
      modifies this
      ensures cache == old(cache)[id := CacheObject(data, ExpirationOf(expiration, now))]
    {
      var value := CacheObject(data, if expiration.Some? && expiration.value != 0 then expiration.value else now + CacheLifetime);
      cache := cache[id := value];
    }

    /** `getCache` */
    method GetCache(id: string, now: int) returns (r: Option<seq<Release>>)
      modifies this
      ensures r == CacheLookup(old(cache), id, now)
      ensures cache == AfterLookup(old(cache), id, now)
    {
      var expiration := if id in cache then cache[id].expiration else 0;
      if now > expiration {
        cache := cache - {id};
        return None;
      }
      r := if id in cache then Some(cache[id].data) else None;
    }

    /** `fetchReleases`: the cached list while it is fresh, otherwise every
        page up to the first that is not full, cached at `later`. A failing
        page throws before anything is cached. The loop only ends at such a
        page, so one must exist. */
    method FetchReleases(fetch: string -> Response, now: int, later: int) returns (r: Result<seq<Release>>, pages: nat)
      requires exists n: nat :: n >= 1 && Stops(fetch, github, n)
      modifies this
      ensures CacheLookup(old(cache), CacheId, now).Some? ==>
        r == Ok(CacheLookup(old(cache), CacheId, now).value) && pages == 0 && cache == old(cache)
      ensures CacheLookup(old(cache), CacheId, now).None? ==>
        && LastPage(fetch, github, pages)
        && var last := fetch(PageUrl(github, pages));
           var releases := Collected(fetch, github, pages) + ProjectAll(last.body);
           if IsSuccess(last.status) then
             r == Ok(releases)
             && cache == AfterLookup(old(cache), CacheId, now)[CacheId := CacheObject(releases, later + CacheLifetime)]
           else r == Err(ErrorOf(last)) && cache == AfterLookup(old(cache), CacheId, now)
    {
      var cached := GetCache(CacheId, now);
      if cached.Some? {
        return Ok(cached.value), 0;
      }
      var fetched;
      fetched, pages := FetchPages(github, fetch);
      if fetched.Err? {
        return Err(fetched.error), pages;
      }
      var releases := fetched.value;
      AddCache(CacheId, releases, None, later);
      r := Ok(releases);
    }

    /** `fetchReleaseByTagName` */
    method FetchReleaseByTagName(tagName: string, fetch: string -> Response, now: int, later: int)
      returns (r: Result<Option<Release>>)
      requires exists n: nat :: n >= 1 && Stops(fetch, github, n)
      modifies this
      ensures CacheLookup(old(cache), CacheId, now).Some? ==>
        r == Ok(FindTag(CacheLookup(old(cache), CacheId, now).value, tagName)) && cache == old(cache)
      ensures CacheLookup(old(cache), CacheId, now).None? ==>
        exists n: nat :: LastPage(fetch, github, n) &&
          var last := fetch(PageUrl(github, n));
          var releases := Collected(fetch, github, n) + ProjectAll(last.body);
          if IsSuccess(last.status) then
            r == Ok(FindTag(releases, tagName))
            && cache == AfterLookup(old(cache), CacheId, now)[CacheId := CacheObject(releases, later + CacheLifetime)]
          else r == Err(ErrorOf(last)) && cache == AfterLookup(old(cache), CacheId, now)
    {
      var releases, pages := FetchReleases(fetch, now, later);
      if releases.Err? {
        r := Err(releases.error);
      } else {
        r := Ok(FindTag(releases.value, tagName));
      }
      assert CacheLookup(old(cache), CacheId, now).None? ==> LastPage(fetch, github, pages);
    }
  }

  // ---- properties ----

  /** A stored entry reads back until it expires, and not after. */
  lemma CacheRoundTrip(cache: map<string, CacheObject>, id: string, data: seq<Release>,
                       expiration: Option<int>, stored: int, now: int)
    ensures var c := cache[id := CacheObject(data, ExpirationOf(expiration, stored))];
      CacheLookup(c, id, now) == if now <= ExpirationOf(expiration, stored) then Some(data) else None
  {
  }

  /** With no expiration given, an entry is fresh for five minutes after it
      was stored. */
  lemma DefaultLifetime(cache: map<string, CacheObject>, id: string, data: seq<Release>, stored: int, now: int)
    ensures var c := cache[id := CacheObject(data, ExpirationOf(None, stored))];
      CacheLookup(c, id, now).Some? <==> now <= stored + 300000
  {
  }

  /** Every page before the last is full, so they hold a hundred releases
      each. */
  lemma {:induction false} FullPages(fetch: string -> Response, github: Credentials, n: nat)
    requires n >= 1
    requires forall k :: 1 <= k < n ==> !Stops(fetch, github, k)
    ensures |Collected(fetch, github, n)| >= PerPage * (n - 1)
  {
    if n > 1 {
      FullPages(fetch, github, n - 1);
      assert !Stops(fetch, github, n - 1);
    }
  }

  /** The most significant decimal digit. */
  function LeadingDigit(n: nat): (d: nat)
    ensures d < 10
  {
    if n < 10 then n else LeadingDigit(n / 10)
  }

  lemma {:induction false} FirstCharIsLeadingDigit(n: nat)
    ensures NatToString(n)[0] == DigitChar(LeadingDigit(n))
    decreases n
  {
    if n >= 10 {
      FirstCharIsLeadingDigit(n / 10);
    }
  }

  /** A status passes exactly when its leading digit is 2. */
  lemma SuccessIff(status: nat)
    ensures IsSuccess(status) <==> LeadingDigit(status) == 2
  {
    FirstCharIsLeadingDigit(status);
    if IsSuccess(status) {
      DigitCharInjective(LeadingDigit(status), 2);
    }
  }

  /** For a three-digit HTTP status, that is the 2xx range. */
  lemma HttpSuccess(status: nat)
    requires 100 <= status < 1000
    ensures IsSuccess(status) <==> 200 <= status < 300
  {
    SuccessIff(status);
    assert LeadingDigit(status) == status / 100 by {
      assert 10 <= status / 10 < 100;
      assert LeadingDigit(status / 10) == LeadingDigit(status / 10 / 10);
      assert status / 10 / 10 == status / 100;
    }
  }
}
