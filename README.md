# port.hu catalog addon — Dafny model

This is a Dafny model of the port.hu catalog addon for Stremio. The addon scrapes the Hungarian
TV and cinema guide port.hu and serves it to a media-centre client as two catalogs, `porthu-movie`
and `porthu-series`. The model covers three parts of that addon:

- **The adapter** (`src/porthuAdapter.js`):
  - text sanitising, URL canonicalisation and entity-id/meta-id derivation;
  - the JSON-LD extractor, over a JSON value datatype;
  - the DOM-card heuristic extractor, over abstract cards;
  - `normalizeType` and `toMeta`;
  - `dedupeMetas`;
  - the detail-hint cache and row enrichment;
  - the `fetchCatalog` pipeline (seed pages, enrichment, mapping, dedupe, genre and poster filters, slice, meta cache);
  - `fetchMeta`, with its cache and its type fallback;
  - `fetchStreams`.
- **The HTTP handler** (`api/index.js`):
  - `parseExtraString`, `parseExtraFromQuery` and the merge of the two extra objects;
  - `isValidCatalog`;
  - the two catalog route patterns;
  - the clamping of `limit` and `skip`, including the `NaN` cases;
  - the status and Cache-Control of every reply.
- **The configuration codec** (`src/config.js`): `defaultConfig`, `normalizeConfig`, `encodeConfig`
  and `decodeConfig`.

Modules, one per file:

- `Wrappers`: `Option` and `Result`.
- `Text`: whitespace, `sanitizeText`, lower-casing, substring search, `split`/`join`.
- `JsValues`: JavaScript values, truthiness and `||`.
- `Ids`: `canonicalizeUrl`, `absolutize`, `extractEntityId`, `makeMetaId`.
- `Records`: rows, metas, `isPosterUrl`, `normalizeType`, `toMeta`.
- `Dedupe`: `dedupeMetas`.
- `Extract`: the JSON-LD and DOM extractors.
- `Catalog`: the stateful adapter class `Adapter`, whose fields are the two module-level caches.
- `Api`: the request handler.
- `Config`: the configuration codec.

Library code the source calls is passed in as function-valued parameters, and the model assumes
only what a lemma's `requires` states about it:

- the WHATWG URL parser and resolver (`UrlApi`, `Host.parseRequest`);
- SHA-1 (`sha1`, returning 40 hex digits);
- `JSON.parse` (`parseJson`, `Codec.parse`) and `JSON.stringify`;
- base64url with UTF-8 (`Codec`);
- `decodeURIComponent` (`Host.decodeComponent`, `None` when it throws);
- `Number(...)` on a string (`Host.toNumber`);
- the network: `Env.fetchPage` and `Env.fetchDetail`, each a function of the URL;
- the DOM queries of cheerio: a page is given as its cards, grouped by selector.

In the model, "" stands for a null, undefined or empty string field. Where JavaScript truthiness
decides, the JSON `Value` datatype keeps the distinction.

Three behaviours of the code are easy to miss, and the model follows the code in each:

- A row without a URL gets the canonical URL `urn:porthu:<name>`. That string, not the bare name, is what the id hash is keyed on.
- A non-empty genre string made only of commas and spaces gives an empty but present `genres` list. The list is not omitted.
- The 350-item cap of the DOM extractor is checked only after a whole selector's matches have been added, so more than 350 rows can be returned.

## Model

| member | source | states |
|---|---|---|
| Text.SkipSpacesSpec | src/porthuAdapter.js:30 | the leading-whitespace trim drops exactly the maximal run of `\s` at the start |
| Text.TrimEndSpec | src/porthuAdapter.js:30 | the trailing trim drops exactly the maximal run of `\s` at the end |
| Text.CollapseIsCollapsed | src/porthuAdapter.js:30 | after `replace(/\s+/g, ' ')` no whitespace but single spaces remains and no two spaces are adjacent |
| Text.SanitizeIsClean | src/porthuAdapter.js:29-31 | `sanitizeText` output has no leading, trailing or doubled space and no other whitespace |
| Text.SanitizeFixesClean | src/porthuAdapter.js:29-31 | clean text is left unchanged by `sanitizeText` |
| Text.SanitizeIdempotent | src/porthuAdapter.js:29-31 | sanitising twice is sanitising once |
| Text.SanitizeEmptyIff | src/porthuAdapter.js:29-31 | the sanitised text is empty exactly when the input is all whitespace |
| Text.LowerConcat | src/porthuAdapter.js:192 | lower-casing the concatenated type-detection text is lower-casing each part |
| Text.LowerIdempotent | src/porthuAdapter.js:303 | lower-casing twice is lower-casing once |
| Text.SplitSpec | src/porthuAdapter.js:212 | `split(c)` gives at least one field, none containing `c`; the first field is the text before the first `c`; one field exactly when `c` does not occur |
| Text.JoinSplit | src/porthuAdapter.js:212 | joining the fields of a split with the separator gives the text back |
| Text.SplitHeadBefore | src/porthuAdapter.js:41 | the first field of `a + c + b` is `a` when `a` has no `c` |
| JsValues.Or | src/porthuAdapter.js:101 | `a \|\| b` is truthy exactly when one of its operands is |
| Ids.FallbackCanonical | src/porthuAdapter.js:41 | the fallback keeps the longest prefix free of `#` and `?`, stopping at one of them |
| Ids.CanonicalizeUrl | src/porthuAdapter.js:33-43 | empty input gives nothing; a parsable URL gives the parser's canonical form; otherwise a prefix without `#` and `?` |
| Ids.FallbackIgnoresQueryAndFragment | src/porthuAdapter.js:40-42 | whatever follows the first `#` or `?` does not affect the fallback |
| Ids.Absolutize | src/porthuAdapter.js:45-52 | a falsy relative reference gives nothing |
| Ids.DigitRunEnd | src/porthuAdapter.js:56 | `[0-9]+` runs to the end of the maximal digit run |
| Ids.FirstWord | src/porthuAdapter.js:56 | the case-insensitive search finds the leftmost `word-<digit>` occurrence, or reports there is none |
| Ids.MatchWordSpec | src/porthuAdapter.js:56-61 | one pattern match succeeds exactly when the text contains `word-<digit>` (any case) and yields the leftmost occurrence with all its digits |
| Ids.EntityIdPriority | src/porthuAdapter.js:54-63 | movie beats episode beats event; no id exactly when none of the three patterns matches |
| Ids.EntityIdShape | src/porthuAdapter.js:54-63 | an entity id is `movie-`, `episode-` or `event-` followed by digits |
| Ids.MetaIdForms | src/porthuAdapter.js:65-74 | `porthu:<type>:<entity id>` when the URL holds one; otherwise `porthu:<type>:h-` plus the first 24 hex digits of SHA-1 of `<type>:<url or name>` |
| Ids.MetaIdsSeparateTypes | src/porthuAdapter.js:65-74 | a movie id never equals a series id |
| Records.NormalizeType | src/porthuAdapter.js:188-197 | the result is always `movie` or `series` |
| Records.NormalizeTypeSpec | src/porthuAdapter.js:188-197 | a requested type wins; otherwise `series` exactly when the lower-cased URL, name and genre text contains `sorozat` or `series` |
| Records.GenreList | src/porthuAdapter.js:212 | the genre list holds only non-empty sanitised entries |
| Records.ToMetaSpec | src/porthuAdapter.js:199-215 | no meta exactly when the name is blank; otherwise a well-formed meta whose name, type, id, website (urn fallback), genres and copied fields are as `toMeta` builds them |
| Dedupe.DedupeMetas | src/porthuAdapter.js:217-239 | the loop computes `Dedupe`; ids are distinct and each comes from the input |
| Dedupe.DedupeIds | src/porthuAdapter.js:217-239 | output ids are pairwise distinct and are exactly the ids of the present inputs |
| Dedupe.BuildConsistent | src/porthuAdapter.js:218-224 | the map's keys and the insertion order agree and are exactly the present ids |
| Dedupe.BuildKeysAreIds | src/porthuAdapter.js:221-227 | every map entry is stored under its own id |
| Dedupe.BuildOrderFirstSeen | src/porthuAdapter.js:219-224 | the insertion order is the order of first occurrence |
| Dedupe.DedupeFirstSeenOrder | src/porthuAdapter.js:217-239 | output records appear in the order their ids first occur in the input |
| Dedupe.BuildIsGroupMerge | src/porthuAdapter.js:219-236 | each map entry is the left fold of `Merge` over all inputs with that id, in input order |
| Dedupe.MergeAllText | src/porthuAdapter.js:230-234 | after merging a group, each optional text field is its first present value in the group |
| Dedupe.MergeAllGenres | src/porthuAdapter.js:233 | the merged genres are the first present genre list in the group |
| Dedupe.MergeAllName | src/porthuAdapter.js:229 | the merged name is the first of the longest names in the group |
| Dedupe.MergeAllIdentity | src/porthuAdapter.js:227-228 | id and type come from the first record of the group |
| Dedupe.DedupeMergePolicy | src/porthuAdapter.js:217-239 | each output record is its group's merge: first id and type, first longest name, first present genres and text fields |
| Dedupe.MergeWellFormed | src/porthuAdapter.js:227-235 | merging two well-formed metas gives a well-formed meta |
| Dedupe.DedupeWellFormed | src/porthuAdapter.js:217-239 | dedupe keeps well-formedness |
| Extract.SanitizeValue | src/porthuAdapter.js:29-31 | `sanitizeText` on any JSON value is clean, and empty for a falsy value |
| Extract.GenreText | src/porthuAdapter.js:106 | the genre text (array joined by `, ` or the value itself) is clean |
| Extract.ListRowsFailure | src/porthuAdapter.js:97-108 | once reading an `itemListElement` entry throws, the whole list throws with that error |
| Extract.EntriesRowsFailure | src/porthuAdapter.js:93-123 | once an entry of a block throws, the block throws with that error |
| Extract.JsonLdRowsFailure | src/porthuAdapter.js:80-124 | a throwing block aborts the whole scan with its error |
| Extract.ListElementRows | src/porthuAdapter.js:97-108 | the loop over `itemListElement` computes `ListRows` |
| Extract.EntryListRows | src/porthuAdapter.js:93-123 | the loop over a block's entries computes `EntriesRows` |
| Extract.ParseJsonLdBlocks | src/porthuAdapter.js:76-127 | the loop over script blocks computes `JsonLdRows` |
| Extract.ItemRowClean | src/porthuAdapter.js:100-107 | every text field of an extracted row is sanitised |
| Extract.ElementRowsClean | src/porthuAdapter.js:97-107 | a non-nullish list element yields rows, all clean |
| Extract.JsonLdRowsClean | src/porthuAdapter.js:76-127 | all rows of a successful JSON-LD scan are clean |
| Extract.BlockFailures | src/porthuAdapter.js:91-98 | a block parsing to `null` throws a read of a nullish value; a truthy `@graph` that is neither an array nor a string throws "not iterable" |
| Extract.ElementWithoutItem | src/porthuAdapter.js:98 | a list element without `item` is itself the item |
| Extract.SingleMovieBlock | src/porthuAdapter.js:111-121 | a block holding one `Movie` object yields exactly that object's row |
| Extract.FirstPoster | src/porthuAdapter.js:155-166 | the picked poster is empty or passes `isPosterUrl` |
| Extract.PickPoster | src/porthuAdapter.js:155-166 | the image loop yields the first candidate that passes `isPosterUrl`, taken from one of the images |
| Extract.DomCapStops | src/porthuAdapter.js:182 | once 350 rows are collected after a selector, later selectors add nothing |
| Extract.CardToRow | src/porthuAdapter.js:141-179 | one card's processing computes `CardRow` |
| Extract.SelectorRows | src/porthuAdapter.js:141-180 | the loop over one selector's matches computes `GroupRows` |
| Extract.ParseDomCards | src/porthuAdapter.js:136-186 | the loop over the selectors computes `DomRows` |
| Extract.DomRowsShape | src/porthuAdapter.js:136-186 | every DOM row has an `/adatlap/` URL, a clean name of at least 2 characters, an empty or poster-like poster, clean text fields and no genre |
| Extract.CardRowIff | src/porthuAdapter.js:143-153 | a card yields a row exactly when its URL resolves to an `/adatlap/` URL and its sanitised name has at least 2 characters |
| Catalog.PageHint | src/porthuAdapter.js:249-256 | detail hints are sanitised; a missing `og:image` gives no poster; missing descriptions give none |
| Catalog.NeedyIndicesSpec | src/porthuAdapter.js:267 | the indices needing detail are exactly the rows without poster but with a URL, in increasing order |
| Catalog.SelectedSpec | src/porthuAdapter.js:267 | at most 50 rows are enriched: exactly the needy rows preceded by fewer than 50 needy rows |
| Catalog.EnrichedRows | src/porthuAdapter.js:266-274 | enrichment fills each selected row with its hint and leaves every other row alone |
| Catalog.StepsFill | src/porthuAdapter.js:268-273 | applying the per-row patches one index at a time fills exactly those indices |
| Catalog.FilterSpec | src/porthuAdapter.js:300-306 | a filter keeps exactly the elements satisfying its predicate |
| Catalog.SliceWithin | src/porthuAdapter.js:307 | a slice holds only elements of the list |
| Catalog.SliceWindow | src/porthuAdapter.js:307 | for non-negative skip and limit the slice is the window `[skip, skip+limit)` clipped to the list |
| Catalog.ListedWellFormed | src/porthuAdapter.js:300-306 | every listed meta is well-formed |
| Catalog.CatalogMetasWellFormed | src/porthuAdapter.js:300-307 | every returned meta is well-formed |
| Catalog.Adapter.PatchRow | src/porthuAdapter.js:270-272 | the in-place patch of a row computes `Patch`, whose rules `PatchSpec` states |
| Catalog.PatchSpec | src/porthuAdapter.js:270-272 | a patch fills the poster only when missing (and only with a poster URL), the description only when empty, the name only when shorter than 2; other fields unchanged |
| Catalog.EnrichQuotaSpec | src/porthuAdapter.js:266-274 | a row changed by enrichment was selected and is its filled form |
| Catalog.EnrichChangesAtMostQuota | src/porthuAdapter.js:267 | at most 50 rows change |
| Catalog.PageRowsClean | src/porthuAdapter.js:276-282 | rows of a loaded page are clean; a throwing JSON-LD scan fails the page |
| Catalog.SeedWarningsBound | src/porthuAdapter.js:289-296 | there is at most one warning per seed page |
| Catalog.SeedWarningsNone | src/porthuAdapter.js:289-296 | no warnings exactly when every seed page loads |
| Catalog.ListedSpec | src/porthuAdapter.js:300-306 | every listed meta has a poster and matches the genre filter, and the listed ids are pairwise distinct |
| Catalog.WindowSpec | src/porthuAdapter.js:307 | the slice of such a listing keeps posters, genre matches and distinct ids; for non-negative arguments it is the window, at most `limit` long |
| Catalog.CatalogSpec | src/porthuAdapter.js:284-322 | every returned meta has a poster and matches the genre filter case-insensitively; ids are distinct; the result is the requested window of the filtered list, at most `limit` long |
| Catalog.CacheAllSpec | src/porthuAdapter.js:309-311 | after caching, each returned meta is stored under its id and every other entry is unchanged |
| Catalog.FindById | src/porthuAdapter.js:328 | `find` by id returns a listed meta with that id, or nothing exactly when no listed meta has it |
| Catalog.LookupInStream | src/porthuAdapter.js:324-352 | a meta found in well-formed listings has the asked id and yields one stream opening its website |
| Catalog.LookupYieldsStream | src/porthuAdapter.js:339-352 | a found meta has the asked id and yields one stream opening its website; no meta yields no stream |
| Catalog.Adapter.constructor | src/porthuAdapter.js:15-16 | both caches start empty |
| Catalog.Adapter.FetchDetailHints | src/porthuAdapter.js:241-264 | returns the hint of the canonical URL (the empty hint when the fetch fails or the URL canonicalises to nothing); a cached hint is returned as cached; the hint is cached under the canonical URL; the meta cache is untouched |
| Catalog.Adapter.EnrichRows | src/porthuAdapter.js:266-274 | the rows array becomes `Enriched` of its old contents; the detail cache only grows |
| Catalog.Adapter.EnrichOne | src/porthuAdapter.js:268-273 | exactly one array slot becomes its filled form |
| Catalog.Adapter.FetchOneCatalogPage | src/porthuAdapter.js:276-282 | the page yields JSON-LD rows then DOM rows, or the fetch or parse error |
| Catalog.Adapter.GatherSeeds | src/porthuAdapter.js:289-296 | the seed loop concatenates the rows of the pages that load and collects one error per page that fails |
| Catalog.Adapter.CacheMetas | src/porthuAdapter.js:309-311 | the meta cache becomes `CacheAll` of the old cache; the detail cache is unchanged |
| Catalog.Adapter.FetchCatalog | src/porthuAdapter.js:284-322 | the response carries `CatalogMetas` and the seed warnings; the returned metas are added to the meta cache |
| Catalog.Adapter.FetchMeta | src/porthuAdapter.js:324-337 | a cache hit returns the cached meta; a miss looks in the primary type then the other type and caches what it fetched; a result has the asked id |
| Catalog.Adapter.FetchStreams | src/porthuAdapter.js:339-352 | one `Port.hu` stream to the found meta's website, none otherwise, with the same cache effect as `FetchMeta` |
| Api.PairEntry | api/index.js:14-16 | an entry is skipped exactly when its raw key is empty; a failure is `URI malformed` |
| Api.DecodePairs | api/index.js:13-18 | failures are `URI malformed`; there are no more entries than pairs |
| Api.MergeExtra | api/index.js:58 | query keys override path keys; keys are the union |
| Api.ParseExtraString | api/index.js:11-19 | the reduce loop computes `ParseExtra` |
| Api.ParseExtraFromQuery | api/index.js:21-25 | the loop assigns the query entries in order |
| Api.DecodePairsSpec | api/index.js:13-18 | parsing throws exactly when some pair fails to decode |
| Api.AssignSpec | api/index.js:16 | a key is present exactly when some entry has it and it is not `__proto__`; its value is the last entry's |
| Api.AssignKeys | api/index.js:16 | a key is present after the assignments exactly when some entry has it and it is not `__proto__` |
| Api.AssignLast | api/index.js:16 | a present key holds the value of the last entry with that key |
| Api.PairFieldsKeyOnly | api/index.js:14 | `k` without `=` gives key `k` and value `""` |
| Api.PairFieldsKeyValue | api/index.js:14 | `k=v...` gives key `k` and value `v`; later `=` fields are dropped |
| Api.FormattedPairEntry | api/index.js:14-16 | a `key=value` pair formatted with an inverse encoder decodes to that entry |
| Api.DecodeEach | api/index.js:13-18 | when each pair decodes to an entry, the pairs decode to those entries in order |
| Api.ExtraRoundTrip | api/index.js:11-19 | formatting non-empty-keyed entries with an inverse encoder and parsing them back gives the assigned object |
| Api.MatchWithExtraSpec | api/index.js:55 | the extra pattern matches exactly `/catalog/<type>/<id>/<extra>.json` with slash-free segments and a non-empty extra without line terminators |
| Api.MatchWithExtraSound | api/index.js:55 | a match's captures rebuild the path |
| Api.MatchWithExtraOf | api/index.js:55 | every such path matches with those captures |
| Api.MatchPlainOf | api/index.js:62 | `/catalog/<type>/<id>.json` matches the plain pattern |
| Api.MatchPlainSpec | api/index.js:62 | the plain pattern matches exactly such paths, and only when the extra pattern does not |
| Api.IsValidCatalog | api/index.js:27-29 | valid exactly for `movie`/`porthu-movie` and `series`/`porthu-series` |
| Api.LimitOf | api/index.js:34 | the limit is at most 100, 50 when unset, `NaN` exactly when the setting is not numeric |
| Api.SkipOf | api/index.js:35 | skip is never negative, 0 when absent, `NaN` exactly when the given value is not numeric |
| Api.SliceArgs | api/index.js:34-38 | the integer slice bounds handed to the adapter give the same slice as JavaScript's `slice(skip, skip + limit)` on the numbers, `NaN` included |
| Api.CatalogReply | api/index.js:31-44 | a catalog reply has status 200 and a metas body |
| Api.HandleCatalog | api/index.js:31-44 | replies `CatalogReply`; an unknown catalog leaves both caches alone; the meta cache gains the returned metas |
| Api.RouteRequest | api/index.js:47-66 | the routing steps compute `RouteOf` |
| Api.Serve | api/index.js:46-75 | the handler replies `Reply`; non-catalog routes leave the caches alone |
| Api.ReplyStatus | api/index.js:46-75 | 500 exactly when the URL does not parse or the extra segment fails to decode; 404 exactly when no route matches; 200 otherwise |
| Api.CatalogReplySpec | api/index.js:31-44 | unknown catalog gives no metas; metas have posters and distinct ids; at most `limit` ≤ 100 of them; none when skip or limit is `NaN` |
| Api.QueryOverridesPath | api/index.js:58 | a query parameter overrides the same key in the path's extra segment |
| Config.Normalize | src/config.js:10-18 | input without a `sources` object gives the defaults |
| Config.Decode | src/config.js:25-33 | an empty token or one whose JSON does not parse gives the defaults |
| Config.NormalizeFlags | src/config.js:10-18 | inside a `sources` object a missing flag takes its own default (`mafab` on, `porthu` off) and a present flag is its truthiness |
| Config.NormalizeSamples | src/config.js:14-15 | `{sources: {porthu: true}}` keeps `mafab` on; `{sources: {mafab: 0}}` turns it off |
| Config.NormalizeAsValue | src/config.js:10-18 | normalising a configuration's own object form gives it back |
| Config.NormalizeIdempotent | src/config.js:10-18 | normalising is idempotent |
| Config.DecodeEncode | src/config.js:20-33 | decoding an encoded configuration gives its normalised form |
| Config.DecodeStable | src/config.js:20-33 | re-encoding a decoded token decodes to the same settings |

## Left out

- HTTP, `axios` options (timeouts, headers, status validation) and async scheduling: a page or detail fetch is a function of its URL (`Env.fetchPage`, `Env.fetchDetail`), and the fetches of one request run in sequence.
- Cheerio: the DOM is abstracted into cards (href, title, aria-label, heading, text, images, description, time and date text), grouped by selector. A link that matches several selectors appears once per group, as in the source.
- Selector matching, `closest` and `find`: not modelled. Each card field is what its query yields: the first match for `attr`, the joined text of every match for `.text()` (the time text), every match for the images.
- SHA-1, the WHATWG URL parser, JSON, base64url/UTF-8, `decodeURIComponent` and `Number(...)`: passed in as parameters. `Number` is modelled only as `NaN` or an integer; fractional values and `Infinity` are left out.
- JSON numbers that are not integers: a JSON value's number holds an integer only, so a field such as `"name": 1.5` cannot be represented, nor its text "1.5" after `sanitizeText`.
- Catalog.Adapter.FetchDetailHints: the detail cache is not observable in the model. Page fetches are a pure function of the URL, so an empty hint cached after a failed fetch equals what fetching again would give; the model therefore does not show that a failed detail page is never retried, and later catalog results do not depend on earlier failures.
- `toLowerCase` and the regex `i` flag: fold ASCII letters only.
- String lengths: counted in characters, not UTF-16 code units.
- `CATALOG_URLS[type]` for a type naming an `Object.prototype` member (such as `constructor`): the source would throw. The model treats every type other than `series` as `movie`.
- The `catch` branch of `handleCatalog` (`public, max-age=60`): never reached. `fetchCatalog` turns seed failures into warnings, and a JSON-LD scan that throws fails only its own page.
- Error messages of the JavaScript engine: modelled as constants.
- Console logging, the `Content-Type` header and the JSON serialisation of replies: not modelled.
- `src/manifest.js` and `src/addonInterface.js` are not part of this model. The manifest reply is the constant body `ManifestBody`.
- `getRequestOrigin`, which the test file exercises: `api/index.js` does not define it, so it is not part of this model.
- A negative `CATALOG_LIMIT`: gives the source's slice with a negative end, which `Api.SliceArgs` reproduces. `Api.CatalogReplySpec` states the length bound only for a non-negative limit.
- Api.ExtraRoundTrip: assumes an encoder that never emits `&` or `=` and inverts `decodeURIComponent`. Real `encodeURIComponent` has these properties, but it is not modelled.
- Config.DecodeEncode: assumes the `Lawful` laws of `JSON` and base64url: parse inverts stringify on configuration objects, the JSON text is non-empty, and decoding inverts encoding.
