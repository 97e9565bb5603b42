/**
 * The stateful part of the port.hu adapter: the detail-hint cache, row enrichment, the
 * catalog pipeline (seed pages, enrichment, `toMeta`, dedupe, filters, slice, meta cache),
 * the meta lookup with its type fallback, and the stream built from a found meta.
 * HTTP is not modelled: a page fetch and a detail fetch are functions of the URL in `Env`.
 */
module Catalog {
  import opened Wrappers
  import opened Text
  import opened JsValues
  import opened Ids
  import opened Records
  import opened Dedupe
  import opened Extract

  const SourceName := "port.hu"
  /** At most this many rows are enriched per catalog request. */
  const EnrichQuota := 50
  /** The `limit` `fetchMeta` asks `fetchCatalog` for. */
  const LookupLimit := 120

  /** The three seed pages of a content type; any type but `series` uses the movie seeds. */
  function CatalogUrls(kind: string): seq<string> {
    if kind == "series" then ["https://port.hu/sorozat", "https://port.hu/tv", "https://port.hu"]
    else ["https://port.hu/film", "https://port.hu/mozi", "https://port.hu"]
  }

  /** A fetched catalog page: its JSON-LD script texts and, per card selector, the matched cards. */
  datatype PageResult = Loaded(blocks: seq<string>, groups: seq<seq<Card>>) | Failed(message: string)

  /**
   * What a fetched details page offers: the `og:image`, `og:description`, `description`
   * and `og:title` meta contents and the text of the first `<h1>` ("" when absent).
   */
  datatype DetailPage = DetailPage(ogImage: string, ogDescription: string, metaDescription: string,
                                   ogTitle: string, heading: string)

  /** The libraries and the network, as functions: a fetch that throws yields `Failed`/`None`. */
  datatype Env = Env(urls: UrlApi, sha1: string -> HexDigest, parseJson: string -> Option<Value>,
                     fetchPage: string -> PageResult, fetchDetail: string -> Option<DetailPage>)

  /** A detail hint; the empty object `{}` is the hint with three absent ("") fields. */
  datatype Hint = Hint(poster: string, description: string, name: string)

  const EmptyHint := Hint("", "", "")

  /** The hint read from a fetched details page at canonical URL `url`. */
  function PageHint(urls: UrlApi, url: string, page: DetailPage): (h: Hint)
    ensures Clean(h.description) && Clean(h.name)
    ensures page.ogImage == "" ==> h.poster == ""
    ensures page.ogDescription == "" && page.metaDescription == "" ==> h.description == ""
  {
    SanitizeIsClean(OrText(page.ogDescription, page.metaDescription));
    SanitizeIsClean(OrText(page.ogTitle, page.heading));
    Hint(
      poster := Absolutize(urls, url, Str(page.ogImage)),
      description := Sanitize(OrText(page.ogDescription, page.metaDescription)),
      name := Sanitize(OrText(page.ogTitle, page.heading)))
  }

  /** The hint of the canonical URL `url`: the empty hint when the fetch fails. */
  function DetailHint(env: Env, url: string): Hint {
    match env.fetchDetail(url)
    case None => EmptyHint
    case Some(page) => PageHint(env.urls, url, page)
  }

  /** What `fetchDetailHints(detailUrl)` resolves to; a URL that canonicalises to nothing gives `{}`. */
  function HintFor(env: Env, detailUrl: string): Hint {
    var url := CanonicalizeUrl(env.urls, detailUrl);
    if url == "" then EmptyHint else DetailHint(env, url)
  }

  /** The three gap-filling rules `enrichRows` applies to one row. */
  function Patch(row: RawRow, hint: Hint): RawRow {
    row.(
      poster := if row.poster == "" && IsPosterUrl(hint.poster) then hint.poster else row.poster,
      description := if row.description == "" && hint.description != "" then hint.description else row.description,
      name := if (row.name == "" || |row.name| < 2) && hint.name != "" then hint.name else row.name)
  }

  /** A row after the hint of its URL has filled its gaps. */
  function Fill(env: Env, row: RawRow): RawRow {
    Patch(row, HintFor(env, row.url))
  }

  /** A row `enrichRows` selects: no poster, but a URL. */
  predicate NeedsDetail(row: RawRow) {
    row.poster == "" && row.url != ""
  }

  /** The indices of the rows that need details, in order (`rows.filter(...)`). */
  function NeedyIndices(rows: seq<RawRow>): (r: seq<nat>)
    ensures |r| <= |rows|
    decreases |rows|
  {
    if rows == [] then []
    else NeedyIndices(rows[..|rows| - 1]) + (if NeedsDetail(rows[|rows| - 1]) then [|rows| - 1] else [])
  }

  /** `rows.filter(...).slice(0, 50)`, as indices. */
  function Selected(rows: seq<RawRow>): seq<nat> {
    var all := NeedyIndices(rows);
    if |all| <= EnrichQuota then all else all[..EnrichQuota]
  }

  /** The rows after `enrichRows`: the selected rows are filled in order, each with the hint of its URL. */
  function Enriched(env: Env, rows: seq<RawRow>): (r: seq<RawRow>)
    ensures |r| == |rows|
  {
    Steps(env, rows, Selected(rows))
  }

  /** The rows after the loop of `enrichRows` has filled the rows at `idxs`, in turn. */
  function Steps(env: Env, rows: seq<RawRow>, idxs: seq<nat>): (r: seq<RawRow>)
    ensures |r| == |rows|
    decreases |idxs|
  {
    if idxs == [] then rows
    else
      var pre := Steps(env, rows, idxs[..|idxs| - 1]);
      var i := idxs[|idxs| - 1];
      if i < |pre| then pre[i := Fill(env, pre[i])] else pre
  }

  /** The rows of one seed page: a failing fetch or a JSON-LD `TypeError` fails the whole page. */
  function PageRows(env: Env, url: string): Result<seq<RawRow>, string> {
    match env.fetchPage(url)
    case Failed(message) => Failure(message)
    case Loaded(blocks, groups) =>
      match JsonLdRows(env.urls, env.parseJson, url, blocks)
      case Failure(e) => Failure(e)
      case Success(jsonLd) => Success(jsonLd + DomRows(env.urls, url, groups))
  }

  /** The rows and the warnings gathered from the seed pages. */
  datatype Gathered = Gathered(rows: seq<RawRow>, errors: seq<string>)

  /** `fetchOneCatalogPage` as a function of the URL. */
  function Loader(env: Env): string -> Result<seq<RawRow>, string> {
    url => PageRows(env, url)
  }

  /** The seed loop of `fetchCatalog`, for a page loader `load`. */
  function SeedRows(load: string -> Result<seq<RawRow>, string>, seeds: seq<string>): Gathered
    decreases |seeds|
  {
    if seeds == [] then Gathered([], [])
    else
      var pre := SeedRows(load, seeds[..|seeds| - 1]);
      var url := seeds[|seeds| - 1];
      match load(url)
      case Success(part) => Gathered(pre.rows + part, pre.errors)
      case Failure(message) => Gathered(pre.rows, pre.errors + [url + ": " + message])
  }

  /** `xs.filter(p)`. */
  function Filter<T>(xs: seq<T>, p: T -> bool): (r: seq<T>)
    ensures |r| <= |xs|
    decreases |xs|
  {
    if xs == [] then []
    else Filter(xs[..|xs| - 1], p) + (if p(xs[|xs| - 1]) then [xs[|xs| - 1]] else [])
  }

  function Max(a: int, b: int): int { if a >= b then a else b }
  function Min(a: int, b: int): int { if a <= b then a else b }

  /** `Array.prototype.slice(start, end)` on integer arguments: negative ones count from the end. */
  function JsSlice<T>(xs: seq<T>, start: int, end: int): seq<T> {
    var s := if start < 0 then Max(|xs| + start, 0) else Min(start, |xs|);
    var e := if end < 0 then Max(|xs| + end, 0) else Min(end, |xs|);
    if s >= e then [] else xs[s..e]
  }

  /** The genre filter: no genre keeps everything, otherwise some genre contains it (ASCII case-insensitively). */
  predicate GenreMatches(genre: string, m: Meta) {
    genre == "" ||
    var gs := m.genres.GetOr([]);
    exists k | 0 <= k < |gs| :: Contains(Lower(gs[k]), Lower(genre))
  }

  predicate HasPoster(m: Meta) {
    m.poster != ""
  }

  /** The records `toMeta` builds from the enriched rows, nulls included. */
  function Candidates(env: Env, kind: string, rows: seq<RawRow>): (r: seq<Option<Meta>>)
    ensures |r| == |rows|
  {
    seq(|rows|, i requires 0 <= i < |rows| => ToMeta(env.urls, env.sha1, kind, rows[i]))
  }

  /** Every record of the catalog before slicing: deduped, then the genre and poster filters. */
  function Listed(env: Env, kind: string, genre: string): seq<Meta> {
    var rows := Enriched(env, SeedRows(Loader(env), CatalogUrls(kind)).rows);
    var present := Filter(Candidates(env, kind, rows), (o: Option<Meta>) => o.Some?);
    Filter(Filter(Dedupe.Dedupe(present), (m: Meta) => GenreMatches(genre, m)), HasPoster)
  }

  /** The `metas` of `fetchCatalog({type, genre, skip, limit})`. */
  function CatalogMetas(env: Env, kind: string, genre: string, skip: int, limit: int): seq<Meta> {
    JsSlice(Listed(env, kind, genre), skip, skip + limit)
  }

  /** `warnings`: absent when every seed page loaded. */
  function Warnings(errors: seq<string>): Option<seq<string>> {
    if errors == [] then None else Some(errors)
  }

  /** The object `fetchCatalog` resolves to. */
  datatype CatalogResponse = CatalogResponse(source: string, kind: string, genre: string, skip: int, limit: int,
                                             metas: seq<Meta>, warnings: Option<seq<string>>)

  /** `META_CACHE` after `META_CACHE.set(meta.id, meta)` for each of `metas` in turn. */
  function CacheAll(cache: map<string, Meta>, metas: seq<Meta>): map<string, Meta>
    decreases |metas|
  {
    if metas == [] then cache
    else
      var m := metas[|metas| - 1];
      CacheAll(cache, metas[..|metas| - 1])[m.id := m]
  }

  ghost predicate DistinctIds(ms: seq<Meta>) {
    forall i, j :: 0 <= i < j < |ms| ==> ms[i].id != ms[j].id
  }

  /** The first record with the id, as `Array.prototype.find` returns it. */
  function FindById(metas: seq<Meta>, id: string): (r: Option<Meta>)
    ensures r.Some? ==> r.value.id == id && r.value in metas
    ensures r.None? <==> forall k :: 0 <= k < |metas| ==> metas[k].id != id
  {
    if metas == [] then None
    else if metas[0].id == id then Some(metas[0])
    else
      var r := FindById(metas[1..], id);
      assert forall k :: 1 <= k < |metas| ==> metas[k] == metas[1..][k - 1];
      r
  }

  /** The type `fetchMeta` tries first (`type || 'movie'`) and the one it falls back to. */
  function PrimaryType(kind: string): string {
    if kind == "" then "movie" else kind
  }

  function SecondaryType(kind: string): string {
    if kind == "series" then "movie" else "series"
  }

  /** The lookup of `fetchMeta` on a cache miss: the primary catalog, then the secondary one. */
  function LookupFresh(env: Env, kind: string, id: string): Option<Meta> {
    LookupIn(CatalogMetas(env, PrimaryType(kind), "", 0, LookupLimit), CatalogMetas(env, SecondaryType(kind), "", 0, LookupLimit), id)
  }

  /** The record with the id in the primary listing, else in the secondary one. */
  function LookupIn(primary: seq<Meta>, secondary: seq<Meta>, id: string): Option<Meta> {
    var found := FindById(primary, id);
    if found.Some? then found else FindById(secondary, id)
  }

  /** `META_CACHE` after a lookup miss: the primary catalog cached, then the secondary one if the id was not found. */
  function LookupCache(env: Env, cache: map<string, Meta>, kind: string, id: string): map<string, Meta> {
    var primary := CatalogMetas(env, PrimaryType(kind), "", 0, LookupLimit);
    var afterPrimary := CacheAll(cache, primary);
    if FindById(primary, id).Some? then afterPrimary
    else CacheAll(afterPrimary, CatalogMetas(env, SecondaryType(kind), "", 0, LookupLimit))
  }

  /** The stream object `fetchStreams` returns for a meta. */
  datatype Stream = Stream(name: string, title: string, externalUrl: string)

  /** `fetchStreams` given what `fetchMeta` found: one stream opening the meta's website, if it has one. */
  function StreamsOf(meta: Option<Meta>): seq<Stream> {
    if meta.None? || meta.value.website == "" then []
    else [Stream("Port.hu", "Open on Port.hu", meta.value.website)]
  }

  /** The adapter's module state: `META_CACHE` and `DETAIL_CACHE`. */
  class Adapter {
    const env: Env
    var metaCache: map<string, Meta>
    var detailCache: map<string, Hint>

    /**
     * Every cached hint is the one its URL's page yields, and every cached record is
     * stored under its own id and is well formed.
     */
    ghost predicate Valid()
      reads this
    {
      && (forall url :: url in detailCache ==> detailCache[url] == DetailHint(env, url))
      && (forall id :: id in metaCache ==> metaCache[id].id == id && WellFormed(metaCache[id]))
    }

    constructor (env: Env)
      ensures Valid()
      ensures this.env == env && metaCache == map[] && detailCache == map[]
    {
      this.env := env;
      metaCache := map[];
      detailCache := map[];
    }

    /** `fetchDetailHints(detailUrl)`: served from the cache, else fetched and cached (an empty hint on failure). */
    method FetchDetailHints(detailUrl: string) returns (hint: Hint)
      requires Valid()
      modifies this
      ensures Valid()
      ensures hint == HintFor(env, detailUrl)
      ensures var url := CanonicalizeUrl(env.urls, detailUrl);
              url != "" && url in old(detailCache) ==> hint == old(detailCache)[url]
      ensures metaCache == old(metaCache)
      ensures var url := CanonicalizeUrl(env.urls, detailUrl);
              detailCache == if url == "" then old(detailCache) else old(detailCache)[url := hint]
    {
      var url := CanonicalizeUrl(env.urls, detailUrl);
      if url == "" {
        return EmptyHint;
      }
      if url in detailCache {
        hint := detailCache[url];
        assert detailCache == detailCache[url := hint];
        return;
      }
      var page := env.fetchDetail(url);
      if page.None? {
        hint := EmptyHint;
      } else {
        hint := PageHint(env.urls, url, page.value);
      }
      detailCache := detailCache[url := hint];
    }

    /** `enrichRows(rows)`: the rows are updated in place, one selected row at a time. */
    method EnrichRows(rows: array<RawRow>)
      requires Valid()
      modifies this, rows
      ensures Valid()
      ensures rows[..] == Enriched(env, old(rows[..]))
      ensures metaCache == old(metaCache) && old(detailCache).Keys <= detailCache.Keys
    {
      ghost var orig := rows[..];
      var missing := Selected(rows[..]);
      SelectedIncreasing(orig);
      for k := 0 to |missing|
        invariant Valid() && metaCache == old(metaCache) && old(detailCache).Keys <= detailCache.Keys
        invariant rows[..] == Steps(env, orig, missing[..k])
      {
        var idx := missing[k];
        StepsNext(env, orig, missing, k);
        EnrichOne(rows, idx);
      }
      assert missing[..|missing|] == missing;
    }

    /** One iteration of the `enrichRows` loop: fetch the hint of row `idx` and fill its gaps. */
    method EnrichOne(rows: array<RawRow>, idx: nat)
      requires Valid() && idx < rows.Length
      modifies this, rows
      ensures Valid() && metaCache == old(metaCache) && old(detailCache).Keys <= detailCache.Keys
      ensures rows[..] == old(rows[..])[idx := Fill(env, old(rows[idx]))]
    {
      var hint := FetchDetailHints(rows[idx].url);
      var row := PatchRow(rows[idx], hint);
      rows[idx] := row;
    }

    /** The three conditional assignments of the `enrichRows` loop body. */
    static method PatchRow(row: RawRow, hint: Hint) returns (r: RawRow)
      ensures r == Patch(row, hint)
    {
      r := row;
      if r.poster == "" && IsPosterUrl(hint.poster) {
        r := r.(poster := hint.poster);
      }
      if r.description == "" && hint.description != "" {
        r := r.(description := hint.description);
      }
      if (r.name == "" || |r.name| < 2) && hint.name != "" {
        r := r.(name := hint.name);
      }
    }

    /** `fetchOneCatalogPage(url)`: the JSON-LD rows, then the DOM card rows. */
    method FetchOneCatalogPage(url: string) returns (r: Result<seq<RawRow>, string>)
      ensures r == PageRows(env, url)
    {
      var page := env.fetchPage(url);
      if page.Failed? {
        return Failure(page.message);
      }
      var jsonLd := ParseJsonLdBlocks(env.urls, env.parseJson, url, page.blocks);
      if jsonLd.Failure? {
        return Failure(jsonLd.error);
      }
      var dom := ParseDomCards(env.urls, url, page.groups);
      r := Success(jsonLd.value + dom);
    }

    /** The seed loop of `fetchCatalog`: the rows of every page that loads, a warning for every one that fails. */
    method GatherSeeds(seeds: seq<string>) returns (g: Gathered)
      ensures g == SeedRows(Loader(env), seeds)
    {
      var rows: seq<RawRow> := [];
      var errors: seq<string> := [];
      for i := 0 to |seeds|
        invariant SeedRows(Loader(env), seeds[..i]) == Gathered(rows, errors)
      {
        assert seeds[..i + 1][..i] == seeds[..i];
        var part := FetchOneCatalogPage(seeds[i]);
        if part.Success? {
          rows := rows + part.value;
        } else {
          errors := errors + [seeds[i] + ": " + part.error];
        }
      }
      assert seeds[..|seeds|] == seeds;
      g := Gathered(rows, errors);
    }

    /** The cache loop of `fetchCatalog`: `META_CACHE.set(meta.id, meta)` for each returned record. */
    method CacheMetas(metas: seq<Meta>)
      requires Valid()
      requires forall k :: 0 <= k < |metas| ==> WellFormed(metas[k])
      modifies this
      ensures Valid()
      ensures metaCache == CacheAll(old(metaCache), metas)
      ensures detailCache == old(detailCache)
    {
      for i := 0 to |metas|
        invariant Valid() && detailCache == old(detailCache)
        invariant metaCache == CacheAll(old(metaCache), metas[..i])
      {
        CacheAllNext(old(metaCache), metas, i);
        metaCache := metaCache[metas[i].id := metas[i]];
      }
      assert metas[..|metas|] == metas;
    }

    /** `fetchCatalog({type, genre, skip, limit})`; "" stands for an absent genre. */
    method FetchCatalog(kind: string, genre: string, skip: int, limit: int) returns (res: CatalogResponse)
      requires Valid()
      modifies this
      ensures Valid()
      ensures res == CatalogResponse(SourceName, kind, genre, skip, limit, CatalogMetas(env, kind, genre, skip, limit),
                                     Warnings(SeedRows(Loader(env), CatalogUrls(kind)).errors))
      ensures metaCache == CacheAll(old(metaCache), res.metas)
      ensures old(detailCache).Keys <= detailCache.Keys
    {
      var gathered := GatherSeeds(CatalogUrls(kind));
      var rows := gathered.rows;
      var buffer := new RawRow[|rows|](i requires 0 <= i < |rows| => rows[i]);
      assert buffer[..] == rows;
      EnrichRows(buffer);
      var candidates := Candidates(env, kind, buffer[..]);
      var deduped := DedupeMetas(Filter(candidates, (o: Option<Meta>) => o.Some?));
      var listed := Filter(Filter(deduped, (m: Meta) => GenreMatches(genre, m)), HasPoster);
      assert listed == Listed(env, kind, genre);
      var metas := JsSlice(listed, skip, skip + limit);
      assert metas == CatalogMetas(env, kind, genre, skip, limit);
      CatalogMetasWellFormed(env, kind, genre, skip, limit);
      CacheMetas(metas);
      res := CatalogResponse(SourceName, kind, genre, skip, limit, metas, Warnings(gathered.errors));
    }

    /** `fetchMeta({type, id})`: the cached record, else the primary catalog, else the other type's. */
    method FetchMeta(kind: string, id: string) returns (meta: Option<Meta>)
      requires Valid()
      modifies this
      ensures Valid()
      ensures meta.Some? ==> meta.value.id == id && WellFormed(meta.value)
      ensures id in old(metaCache) ==> meta == Some(old(metaCache)[id]) && metaCache == old(metaCache)
      ensures id !in old(metaCache) ==> meta == LookupFresh(env, kind, id) && metaCache == LookupCache(env, old(metaCache), kind, id)
      ensures old(detailCache).Keys <= detailCache.Keys
    {
      if id in metaCache {
        return Some(metaCache[id]);
      }
      var primary := FetchCatalog(PrimaryType(kind), "", 0, LookupLimit);
      CatalogMetasWellFormed(env, PrimaryType(kind), "", 0, LookupLimit);
      meta := FindById(primary.metas, id);
      if meta.Some? {
        return;
      }
      var secondary := FetchCatalog(SecondaryType(kind), "", 0, LookupLimit);
      CatalogMetasWellFormed(env, SecondaryType(kind), "", 0, LookupLimit);
      meta := FindById(secondary.metas, id);
    }

    /** `fetchStreams({type, id})`. */
    method FetchStreams(kind: string, id: string) returns (streams: seq<Stream>)
      requires Valid()
      modifies this
      ensures Valid()
      ensures id in old(metaCache) ==>
                streams == [Stream("Port.hu", "Open on Port.hu", old(metaCache)[id].website)] && metaCache == old(metaCache)
      ensures id !in old(metaCache) ==>
                streams == StreamsOf(LookupFresh(env, kind, id)) && metaCache == LookupCache(env, old(metaCache), kind, id)
      ensures old(detailCache).Keys <= detailCache.Keys
    {
      var meta := FetchMeta(kind, id);
      if meta.None? || meta.value.website == "" {
        return [];
      }
      streams := [Stream("Port.hu", "Open on Port.hu", meta.value.website)];
    }
  }

  // ---------------------------------------------------------------------------------------
  // Properties

  /** `r` lists, in increasing order, exactly the indices of the rows that need details. */
  ghost predicate NeedyList(rows: seq<RawRow>, r: seq<nat>) {
    && (forall k :: 0 <= k < |r| ==> r[k] < |rows| && NeedsDetail(rows[r[k]]))
    && (forall k, l :: 0 <= k < l < |r| ==> r[k] < r[l])
    && (forall i :: 0 <= i < |rows| && NeedsDetail(rows[i]) ==> i in r)
  }

  /** One more row: its index joins the list when it needs details. */
  lemma NeedySnoc(pre: seq<RawRow>, x: RawRow, p: seq<nat>)
    requires NeedyList(pre, p)
    ensures NeedyList(pre + [x], p + (if NeedsDetail(x) then [|pre|] else []))
  {
    NeedySnocPoints(pre, x, p);
    NeedySnocIncreasing(pre, x, p);
    NeedySnocComplete(pre, x, p);
  }

  lemma NeedySnocPoints(pre: seq<RawRow>, x: RawRow, p: seq<nat>)
    requires forall k :: 0 <= k < |p| ==> p[k] < |pre| && NeedsDetail(pre[p[k]])
    ensures var rows, r := pre + [x], p + (if NeedsDetail(x) then [|pre|] else []);
            forall k :: 0 <= k < |r| ==> r[k] < |rows| && NeedsDetail(rows[r[k]])
  {
    var rows, r := pre + [x], p + (if NeedsDetail(x) then [|pre|] else []);
    forall k | 0 <= k < |r| ensures r[k] < |rows| && NeedsDetail(rows[r[k]]) {
      if k < |p| {
        assert r[k] == p[k] && rows[p[k]] == pre[p[k]];
      }
    }
  }

  lemma NeedySnocIncreasing(pre: seq<RawRow>, x: RawRow, p: seq<nat>)
    requires forall k :: 0 <= k < |p| ==> p[k] < |pre|
    requires forall k, l :: 0 <= k < l < |p| ==> p[k] < p[l]
    ensures var r := p + (if NeedsDetail(x) then [|pre|] else []);
            forall k, l :: 0 <= k < l < |r| ==> r[k] < r[l]
  {
    var r := p + (if NeedsDetail(x) then [|pre|] else []);
    forall k, l | 0 <= k < l < |r| ensures r[k] < r[l] {
      assert r[k] == p[k];
      if l < |p| {
        assert r[l] == p[l];
      }
    }
  }

  lemma NeedySnocComplete(pre: seq<RawRow>, x: RawRow, p: seq<nat>)
    requires forall i :: 0 <= i < |pre| && NeedsDetail(pre[i]) ==> i in p
    ensures var rows, r := pre + [x], p + (if NeedsDetail(x) then [|pre|] else []);
            forall i :: 0 <= i < |rows| && NeedsDetail(rows[i]) ==> i in r
  {
    var rows, r := pre + [x], p + (if NeedsDetail(x) then [|pre|] else []);
    forall i | 0 <= i < |rows| && NeedsDetail(rows[i]) ensures i in r {
      if i < |pre| {
        assert rows[i] == pre[i] && i in p;
        var k :| 0 <= k < |p| && p[k] == i;
        assert r[k] == i;
      } else {
        assert r[|p|] == i;
      }
    }
  }

  /** The needy indices are increasing, point at rows that need details, and miss none of them. */
  lemma {:induction false} NeedyIndicesSpec(rows: seq<RawRow>)
    ensures var r := NeedyIndices(rows);
            && (forall k :: 0 <= k < |r| ==> r[k] < |rows| && NeedsDetail(rows[r[k]]))
            && (forall k, l :: 0 <= k < l < |r| ==> r[k] < r[l])
            && (forall i :: 0 <= i < |rows| && NeedsDetail(rows[i]) ==> i in r)
    decreases |rows|
  {
    if rows != [] {
      var pre := rows[..|rows| - 1];
      NeedyIndicesSpec(pre);
      assert NeedyList(pre, NeedyIndices(pre));
      assert rows == pre + [rows[|rows| - 1]];
      NeedySnoc(pre, rows[|rows| - 1], NeedyIndices(pre));
      assert NeedyList(rows, NeedyIndices(rows));
    }
  }

  /** Extending the rows by one extends the needy indices by at most that row's index. */
  lemma NeedyStep(rows: seq<RawRow>, j: nat)
    requires j < |rows|
    ensures NeedyIndices(rows[..j + 1]) == NeedyIndices(rows[..j]) + (if NeedsDetail(rows[j]) then [j] else [])
  {
    assert rows[..j + 1][..j] == rows[..j];
  }

  lemma SelectedIncreasing(rows: seq<RawRow>)
    ensures forall j :: 0 <= j < |Selected(rows)| ==> Selected(rows)[j] < |rows|
    ensures forall j, l :: 0 <= j < l < |Selected(rows)| ==> Selected(rows)[j] < Selected(rows)[l]
  {
    NeedyIndicesSpec(rows);
    var all := NeedyIndices(rows);
    var sel := Selected(rows);
    forall j | 0 <= j < |sel| ensures sel[j] < |rows| {
      assert sel[j] == all[j];
    }
    forall j, l | 0 <= j < l < |sel| ensures sel[j] < sel[l] {
      assert sel[j] == all[j] && sel[l] == all[l];
    }
  }

  /** Caching one more record. */
  lemma CacheAllNext(cache: map<string, Meta>, metas: seq<Meta>, i: nat)
    requires i < |metas|
    ensures CacheAll(cache, metas[..i + 1]) == CacheAll(cache, metas[..i])[metas[i].id := metas[i]]
  {
    assert metas[..i + 1][..i] == metas[..i];
  }

  /** One more step of the loop fills the row at the next index. */
  lemma StepsNext(env: Env, rows: seq<RawRow>, idxs: seq<nat>, k: nat)
    requires k < |idxs| && idxs[k] < |rows|
    ensures var pre := Steps(env, rows, idxs[..k]);
            Steps(env, rows, idxs[..k + 1]) == pre[idxs[k] := Fill(env, pre[idxs[k]])]
  {
    assert idxs[..k + 1][..k] == idxs[..k];
  }

  /** `r` is `rows` with exactly the rows at `idxs` filled. */
  ghost predicate FilledAt(env: Env, rows: seq<RawRow>, idxs: seq<nat>, r: seq<RawRow>) {
    |r| == |rows| && forall i :: 0 <= i < |rows| ==> r[i] == if i in idxs then Fill(env, rows[i]) else rows[i]
  }

  /** Filling one more row, not filled before. */
  lemma FilledSnoc(env: Env, rows: seq<RawRow>, idxs: seq<nat>, pre: seq<RawRow>)
    requires |idxs| > 0
    requires FilledAt(env, rows, idxs[..|idxs| - 1], pre) && idxs[|idxs| - 1] !in idxs[..|idxs| - 1]
    ensures var last := idxs[|idxs| - 1];
            FilledAt(env, rows, idxs, if last < |pre| then pre[last := Fill(env, pre[last])] else pre)
  {
    var front, last := idxs[..|idxs| - 1], idxs[|idxs| - 1];
    assert idxs == front + [last];
    var post := if last < |pre| then pre[last := Fill(env, pre[last])] else pre;
    forall i | 0 <= i < |rows|
      ensures post[i] == if i in idxs then Fill(env, rows[i]) else rows[i]
    {
      assert i in idxs <==> i in front || i == last;
    }
  }

  /** Filling distinct rows one at a time fills each of them once and leaves the others alone. */
  lemma {:induction false} StepsFill(env: Env, rows: seq<RawRow>, idxs: seq<nat>)
    requires forall j, l :: 0 <= j < l < |idxs| ==> idxs[j] != idxs[l]
    ensures FilledAt(env, rows, idxs, Steps(env, rows, idxs))
    decreases |idxs|
  {
    if idxs != [] {
      var front := idxs[..|idxs| - 1];
      var last := idxs[|idxs| - 1];
      StepsFill(env, rows, front);
      assert last !in front by {
        forall j | 0 <= j < |front| ensures front[j] != last {
          assert front[j] == idxs[j];
        }
      }
      FilledSnoc(env, rows, idxs, Steps(env, rows, front));
    }
  }

  /** `enrichRows` fills exactly the selected rows, each once, and leaves every other row as it was. */
  lemma EnrichedRows(env: Env, rows: seq<RawRow>)
    ensures forall i :: 0 <= i < |rows| ==>
              Enriched(env, rows)[i] == if i in Selected(rows) then Fill(env, rows[i]) else rows[i]
  {
    SelectedIncreasing(rows);
    StepsFill(env, rows, Selected(rows));
  }

  /** `filter` keeps exactly the elements satisfying the predicate, in order. */
  lemma {:induction false} FilterSpec<T>(xs: seq<T>, p: T -> bool)
    ensures forall k :: 0 <= k < |Filter(xs, p)| ==> p(Filter(xs, p)[k]) && Filter(xs, p)[k] in xs
    ensures forall k :: 0 <= k < |xs| && p(xs[k]) ==> xs[k] in Filter(xs, p)
    decreases |xs|
  {
    if xs != [] {
      var pre := xs[..|xs| - 1];
      FilterSpec(pre, p);
      assert forall k :: 0 <= k < |pre| ==> xs[k] == pre[k];
    }
  }

  /** A slice holds only elements of the sliced list. */
  lemma SliceWithin<T>(xs: seq<T>, start: int, end: int)
    ensures forall k :: 0 <= k < |JsSlice(xs, start, end)| ==> JsSlice(xs, start, end)[k] in xs
  {
  }

  /** Every record the catalog lists before slicing is well formed. */
  lemma ListedWellFormed(env: Env, kind: string, genre: string)
    ensures AllWellFormed(Listed(env, kind, genre))
  {
    var rows := Enriched(env, SeedRows(Loader(env), CatalogUrls(kind)).rows);
    var candidates := Candidates(env, kind, rows);
    forall k | 0 <= k < |candidates| && candidates[k].Some? ensures WellFormed(candidates[k].value) {
      ToMetaSpec(env.urls, env.sha1, kind, rows[k]);
    }
    var present := Filter(candidates, (o: Option<Meta>) => o.Some?);
    FilterSpec(candidates, (o: Option<Meta>) => o.Some?);
    DedupeWellFormed(present);
    var deduped := Dedupe.Dedupe(present);
    var byGenre := Filter(deduped, (m: Meta) => GenreMatches(genre, m));
    FilterSpec(deduped, (m: Meta) => GenreMatches(genre, m));
    FilterSpec(byGenre, HasPoster);
  }

  /** Every record the catalog returns is well formed. */
  lemma CatalogMetasWellFormed(env: Env, kind: string, genre: string, skip: int, limit: int)
    ensures AllWellFormed(CatalogMetas(env, kind, genre, skip, limit))
  {
    ListedWellFormed(env, kind, genre);
    SliceWellFormed(Listed(env, kind, genre), skip, skip + limit);
  }

  /** A slice of well-formed records holds only well-formed records. */
  lemma SliceWellFormed(all: seq<Meta>, start: int, end: int)
    requires AllWellFormed(all)
    ensures AllWellFormed(JsSlice(all, start, end))
  {
    SliceWithin(all, start, end);
  }

  /**
   * The gap-filling rules: a present poster or description is never replaced, a poster is
   * only ever filled with a URL `isPosterUrl` accepts, a name of two characters or more is
   * kept, a gap is filled whenever the hint has a usable value, and the other fields stay.
   */
  lemma PatchSpec(row: RawRow, hint: Hint)
    ensures var r := Patch(row, hint);
            && (row.poster != "" ==> r.poster == row.poster)
            && (r.poster != row.poster ==> r.poster == hint.poster && IsPosterUrl(r.poster))
            && (row.poster == "" && IsPosterUrl(hint.poster) ==> r.poster == hint.poster)
            && (row.description != "" ==> r.description == row.description)
            && (row.description == "" ==> r.description == hint.description)
            && (|row.name| >= 2 ==> r.name == row.name)
            && (r.name != row.name ==> r.name == hint.name && |row.name| < 2)
            && (|row.name| < 2 && hint.name != "" ==> r.name == hint.name)
            && r.url == row.url && r.releaseInfo == row.releaseInfo && r.genre == row.genre
  {
  }

  /** The needy indices of a prefix are a prefix of the needy indices; the rest lie beyond the prefix. */
  lemma {:induction false} NeedyPrefix(rows: seq<RawRow>, j: nat)
    requires j <= |rows|
    ensures |NeedyIndices(rows[..j])| <= |NeedyIndices(rows)|
    ensures NeedyIndices(rows[..j]) == NeedyIndices(rows)[..|NeedyIndices(rows[..j])|]
    ensures forall k :: |NeedyIndices(rows[..j])| <= k < |NeedyIndices(rows)| ==> NeedyIndices(rows)[k] >= j
    decreases |rows| - j
  {
    if j == |rows| {
      assert rows[..j] == rows;
    } else {
      NeedyPrefix(rows, j + 1);
      NeedyStep(rows, j);
      var all := NeedyIndices(rows);
      var before := NeedyIndices(rows[..j]);
      var upto := NeedyIndices(rows[..j + 1]);
      assert before == upto[..|before|];
      assert upto == all[..|upto|];
      forall k | |before| <= k < |all| ensures all[k] >= j {
        if k < |upto| {
          assert all[k] == upto[k] == j;
        }
      }
    }
  }

  /** `enrichRows` selects a row exactly when it needs details and fewer than 50 needy rows precede it. */
  lemma SelectedSpec(rows: seq<RawRow>)
    ensures |Selected(rows)| <= EnrichQuota
    ensures forall i :: i in Selected(rows) <==>
              0 <= i < |rows| && NeedsDetail(rows[i]) && |NeedyIndices(rows[..i])| < EnrichQuota
  {
    forall i ensures i in Selected(rows) <==>
                     0 <= i < |rows| && NeedsDetail(rows[i]) && |NeedyIndices(rows[..i])| < EnrichQuota
    {
      SelectedAt(rows, i);
    }
  }

  lemma SelectedAt(rows: seq<RawRow>, i: int)
    ensures i in Selected(rows) <==> 0 <= i < |rows| && NeedsDetail(rows[i]) && |NeedyIndices(rows[..i])| < EnrichQuota
  {
    var all := NeedyIndices(rows);
    var sel := Selected(rows);
    NeedyIndicesSpec(rows);
    assert forall k :: 0 <= k < |sel| ==> sel[k] == all[k];
    if 0 <= i < |rows| && NeedsDetail(rows[i]) {
      NeedyPrefix(rows, i);
      NeedyPrefix(rows, i + 1);
      NeedyStep(rows, i);
      var before := NeedyIndices(rows[..i]);
      assert all[|before|] == i;
      if i in sel {
        var k :| 0 <= k < |sel| && sel[k] == i;
        assert k == |before|;
      }
    } else {
      forall k | 0 <= k < |sel| ensures sel[k] != i {
        assert sel[k] == all[k] && all[k] < |rows| && NeedsDetail(rows[all[k]]);
      }
    }
  }

  /** The elements of a sequence form a set no larger than the sequence. */
  lemma {:induction false} ElementsBound(xs: seq<nat>)
    ensures |set x: nat | x in xs| <= |xs|
    decreases |xs|
  {
    if xs != [] {
      ElementsBound(xs[1..]);
      var rest := set x: nat | x in xs[1..];
      var all := set x: nat | x in xs;
      assert all == rest + {xs[0]} by {
        forall x ensures x in all <==> x in rest || x == xs[0] {
          if x in xs && x != xs[0] {
            var k :| 0 <= k < |xs| && xs[k] == x;
            assert xs[1..][k - 1] == x;
          }
        }
      }
      assert |rest| <= |xs| - 1;
      if xs[0] in rest {
        assert rest + {xs[0]} == rest;
      } else {
        assert |rest + {xs[0]}| == |rest| + 1;
      }
    }
  }

  /**
   * `enrichRows` changes only rows without a poster but with a URL, among the first 50 such
   * rows, and a changed row is that row with its gaps filled from its hint.
   */
  lemma EnrichQuotaSpec(env: Env, rows: seq<RawRow>)
    ensures forall i :: 0 <= i < |rows| && Enriched(env, rows)[i] != rows[i] ==>
              && i in Selected(rows)
              && NeedsDetail(rows[i]) && |NeedyIndices(rows[..i])| < EnrichQuota
              && Enriched(env, rows)[i] == Fill(env, rows[i])
  {
    EnrichedRows(env, rows);
    SelectedSpec(rows);
  }

  /** `enrichRows` changes at most 50 rows. */
  lemma EnrichChangesAtMostQuota(env: Env, rows: seq<RawRow>)
    ensures |set i | 0 <= i < |rows| && Enriched(env, rows)[i] != rows[i]| <= EnrichQuota
  {
    EnrichQuotaSpec(env, rows);
    SelectedSpec(rows);
    var changed := set i | 0 <= i < |rows| && Enriched(env, rows)[i] != rows[i];
    var picked := set x: nat | x in Selected(rows);
    assert changed <= picked;
    ElementsBound(Selected(rows));
    SubsetCardinality(changed, picked);
  }

  lemma SubsetCardinality(a: set<nat>, b: set<nat>)
    requires a <= b
    ensures |a| <= |b|
  {
    assert b == a + (b - a);
  }

  /** Every row of a loaded page has its text fields in sanitised form. */
  lemma PageRowsClean(env: Env, url: string)
    ensures PageRows(env, url).Success? ==>
              forall k :: 0 <= k < |PageRows(env, url).value| ==> CleanRow(PageRows(env, url).value[k])
    ensures env.fetchPage(url).Loaded? && JsonLdRows(env.urls, env.parseJson, url, env.fetchPage(url).blocks).Failure? ==>
              PageRows(env, url).Failure?
  {
    if PageRows(env, url).Success? {
      var page := env.fetchPage(url);
      JsonLdRowsClean(env.urls, env.parseJson, url, page.blocks);
      DomRowsShape(env.urls, url, page.groups);
      var jsonLd := JsonLdRows(env.urls, env.parseJson, url, page.blocks).value;
      var dom := DomRows(env.urls, url, page.groups);
      forall k | 0 <= k < |jsonLd + dom| ensures CleanRow((jsonLd + dom)[k]) {
        if k >= |jsonLd| {
          assert (jsonLd + dom)[k] == dom[k - |jsonLd|];
        }
      }
    }
  }

  /** There is at most one warning per seed page. */
  lemma {:induction false} SeedWarningsBound(load: string -> Result<seq<RawRow>, string>, seeds: seq<string>)
    ensures |SeedRows(load, seeds).errors| <= |seeds|
    decreases |seeds|
  {
    if seeds != [] {
      SeedWarningsBound(load, seeds[..|seeds| - 1]);
    }
  }

  /** No warning is reported exactly when every seed page loads. */
  lemma {:induction false} SeedWarningsNone(load: string -> Result<seq<RawRow>, string>, seeds: seq<string>)
    ensures SeedRows(load, seeds).errors == [] <==> forall k :: 0 <= k < |seeds| ==> load(seeds[k]).Success?
    decreases |seeds|
  {
    if seeds != [] {
      var pre := seeds[..|seeds| - 1];
      SeedWarningsNone(load, pre);
      assert forall k :: 0 <= k < |pre| ==> pre[k] == seeds[k];
    }
  }

  /** With a non-negative `skip` and `limit`, the result is the window `[skip, skip + limit)` of the list. */
  /** The records from position `skip` on, at most `limit` of them. */
  function Window<T>(xs: seq<T>, skip: nat, limit: nat): seq<T> {
    xs[Min(skip, |xs|)..Min(skip + limit, |xs|)]
  }

  lemma SliceWindow<T>(xs: seq<T>, skip: int, limit: int)
    requires 0 <= skip && 0 <= limit
    ensures JsSlice(xs, skip, skip + limit) == Window(xs, skip, limit)
    ensures |JsSlice(xs, skip, skip + limit)| <= limit
  {
  }

  /**
   * What `fetchCatalog` returns: records with a poster, each matching the genre when one is
   * given, with pairwise distinct ids, forming the window `[skip, skip + limit)` of the listing.
   */
  lemma CatalogSpec(env: Env, kind: string, genre: string, skip: int, limit: int)
    ensures var out := CatalogMetas(env, kind, genre, skip, limit);
            && (forall k :: 0 <= k < |out| ==> out[k].poster != "" && GenreMatches(genre, out[k]))
            && DistinctIds(out)
    ensures 0 <= skip && 0 <= limit ==>
              CatalogMetas(env, kind, genre, skip, limit) == Window(Listed(env, kind, genre), skip, limit)
              && |CatalogMetas(env, kind, genre, skip, limit)| <= limit
  {
    var all := Listed(env, kind, genre);
    ListedSpec(env, kind, genre);
    WindowSpec(all, genre, skip, limit);
    assert CatalogMetas(env, kind, genre, skip, limit) == JsSlice(all, skip, skip + limit);
  }

  /** The window `slice(skip, skip + limit)` of a listing keeps its posters, genre matches and distinct ids. */
  lemma WindowSpec(all: seq<Meta>, genre: string, skip: int, limit: int)
    requires forall k :: 0 <= k < |all| ==> HasPoster(all[k]) && GenreMatches(genre, all[k])
    requires DistinctIds(all)
    ensures var out := JsSlice(all, skip, skip + limit);
            && (forall k :: 0 <= k < |out| ==> out[k].poster != "" && GenreMatches(genre, out[k]))
            && DistinctIds(out)
    ensures 0 <= skip && 0 <= limit ==>
              JsSlice(all, skip, skip + limit) == Window(all, skip, limit)
              && |JsSlice(all, skip, skip + limit)| <= limit
  {
    SliceWithin(all, skip, skip + limit);
    SliceDistinct(all, skip, skip + limit);
    var out := JsSlice(all, skip, skip + limit);
    forall k | 0 <= k < |out|
      ensures HasPoster(out[k]) && GenreMatches(genre, out[k])
    {
      var j :| 0 <= j < |all| && all[j] == out[k];
    }
    if 0 <= skip && 0 <= limit {
      SliceWindow(all, skip, limit);
    }
  }

  /** Every listed record has a poster and matches the genre, and the listed ids are pairwise distinct. */
  lemma ListedSpec(env: Env, kind: string, genre: string)
    ensures var all := Listed(env, kind, genre);
            && (forall k :: 0 <= k < |all| ==> HasPoster(all[k]) && GenreMatches(genre, all[k]))
            && DistinctIds(all)
  {
    var rows := Enriched(env, SeedRows(Loader(env), CatalogUrls(kind)).rows);
    var present := Filter(Candidates(env, kind, rows), (o: Option<Meta>) => o.Some?);
    var deduped := Dedupe.Dedupe(present);
    DedupeIds(present);
    var byGenre := Filter(deduped, (m: Meta) => GenreMatches(genre, m));
    FilterSpec(deduped, (m: Meta) => GenreMatches(genre, m));
    FilterDistinct(deduped, (m: Meta) => GenreMatches(genre, m));
    var all := Filter(byGenre, HasPoster);
    FilterSpec(byGenre, HasPoster);
    FilterDistinct(byGenre, HasPoster);
    assert all == Listed(env, kind, genre);
  }

  /** Filtering keeps ids pairwise distinct. */
  lemma {:induction false} FilterDistinct(xs: seq<Meta>, p: Meta -> bool)
    requires DistinctIds(xs)
    ensures DistinctIds(Filter(xs, p))
    decreases |xs|
  {
    if xs != [] {
      var pre := xs[..|xs| - 1];
      var last := xs[|xs| - 1];
      FilterDistinct(pre, p);
      FilterSpec(pre, p);
      var f := Filter(pre, p);
      forall k | 0 <= k < |f| ensures f[k].id != last.id {
        var j :| 0 <= j < |pre| && pre[j] == f[k];
      }
    }
  }

  /** Slicing keeps ids pairwise distinct. */
  lemma SliceDistinct(xs: seq<Meta>, start: int, end: int)
    requires DistinctIds(xs)
    ensures DistinctIds(JsSlice(xs, start, end))
  {
  }

  /**
   * `META_CACHE` after the cache loop: each returned id maps to its record, and every
   * other key keeps its old entry (or stays absent).
   */
  lemma {:induction false} CacheAllSpec(cache: map<string, Meta>, metas: seq<Meta>)
    requires DistinctIds(metas)
    ensures forall k :: 0 <= k < |metas| ==> metas[k].id in CacheAll(cache, metas) && CacheAll(cache, metas)[metas[k].id] == metas[k]
    ensures forall id :: (forall k :: 0 <= k < |metas| ==> metas[k].id != id) ==>
              (id in CacheAll(cache, metas) <==> id in cache)
              && (id in cache ==> CacheAll(cache, metas)[id] == cache[id])
    decreases |metas|
  {
    if metas != [] {
      var pre, m := metas[..|metas| - 1], metas[|metas| - 1];
      assert forall k :: 0 <= k < |pre| ==> pre[k] == metas[k];
      CacheAllSpec(cache, pre);
      var before, after := CacheAll(cache, pre), CacheAll(cache, metas);
      assert after == before[m.id := m];
      forall k | 0 <= k < |metas| ensures metas[k].id in after && after[metas[k].id] == metas[k] {
        if k < |pre| {
          assert pre[k] == metas[k] && metas[k].id != m.id;
        }
      }
      forall id | forall k :: 0 <= k < |metas| ==> metas[k].id != id
        ensures (id in after <==> id in cache) && (id in cache ==> after[id] == cache[id])
      {
        assert id != m.id;
        assert forall k :: 0 <= k < |pre| ==> pre[k].id != id;
      }
    }
  }

  /** A record the lookup finds has the requested id, is well formed, and so always yields one stream. */
  lemma LookupYieldsStream(env: Env, kind: string, id: string)
    ensures var found := LookupFresh(env, kind, id);
            found.Some? ==>
              found.value.id == id && WellFormed(found.value)
              && StreamsOf(found) == [Stream("Port.hu", "Open on Port.hu", found.value.website)]
    ensures LookupFresh(env, kind, id).None? ==> StreamsOf(LookupFresh(env, kind, id)) == []
  {
    var primary := CatalogMetas(env, PrimaryType(kind), "", 0, LookupLimit);
    var secondary := CatalogMetas(env, SecondaryType(kind), "", 0, LookupLimit);
    CatalogMetasWellFormed(env, PrimaryType(kind), "", 0, LookupLimit);
    CatalogMetasWellFormed(env, SecondaryType(kind), "", 0, LookupLimit);
    LookupInStream(primary, secondary, id);
  }

  lemma LookupInStream(primary: seq<Meta>, secondary: seq<Meta>, id: string)
    requires AllWellFormed(primary) && AllWellFormed(secondary)
    ensures var found := LookupIn(primary, secondary, id);
            found.Some? ==>
              found.value.id == id && WellFormed(found.value)
              && StreamsOf(found) == [Stream("Port.hu", "Open on Port.hu", found.value.website)]
    ensures LookupIn(primary, secondary, id).None? ==> StreamsOf(LookupIn(primary, secondary, id)) == []
  {
    FoundWellFormed(primary, id);
    FoundWellFormed(secondary, id);
  }

  /** What `find` returns from well-formed records is well formed, and so has a website. */
  lemma FoundWellFormed(metas: seq<Meta>, id: string)
    requires AllWellFormed(metas)
    ensures FindById(metas, id).Some? ==> WellFormed(FindById(metas, id).value)
  {
    var r := FindById(metas, id);
    if r.Some? {
      var k :| 0 <= k < |metas| && metas[k] == r.value;
    }
  }
}
