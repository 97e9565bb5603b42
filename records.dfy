/**
 * Candidate rows, canonical `Meta` records and the row-level logic of the adapter:
 * `isPosterUrl`, `normalizeType` and `toMeta`.
 */
module Records {
  import opened Wrappers
  import opened Text
  import opened JsValues
  import opened Ids

  /** A candidate row as the extractors emit it; "" stands for a missing or null field. */
  datatype RawRow = RawRow(name: string, url: string, poster: string, description: string,
                           releaseInfo: string, genre: string)

  /**
   * The canonical record. `kind` is the source's `type` field. An absent poster, description,
   * releaseInfo or website is "" (the source maps "" to `undefined` with `|| undefined`);
   * `genres` is an option because an empty list is present and truthy in the source.
   */
  datatype Meta = Meta(id: string, kind: string, name: string, poster: string, description: string,
                       releaseInfo: string, genres: Option<seq<string>>, website: string)

  const ImageExtensions: seq<string> := ["jpg", "jpeg", "png", "webp"]

  /** `/\.(jpg|jpeg|png|webp)(\?|$)/i` matches with its dot at index `i` and extension `ext`. */
  predicate ExtensionAt(u: string, ext: string, i: int) {
    0 <= i && i + 1 + |ext| <= |u| && u[i] == '.' && Lower(u[i + 1..i + 1 + |ext|]) == ext
    && (i + 1 + |ext| == |u| || u[i + 1 + |ext|] == '?')
  }

  predicate HasImageExtension(u: string) {
    exists i, ext | 0 <= i < |u| && ext in ImageExtensions :: ExtensionAt(u, ext, i)
  }

  /** `isPosterUrl(url)`. */
  predicate IsPosterUrl(u: string) {
    u != "" && !Contains(u, "/img/agelimit/") && (HasImageExtension(u) || Contains(u, "/images/"))
  }

  /** `normalizeType(targetType, row)`; an absent target type is "". */
  function NormalizeType(targetType: string, row: RawRow): (r: string)
    ensures r == "movie" || r == "series"
  {
    if targetType == "series" then "series"
    else if targetType == "movie" then "movie"
    else
      var bucket := Lower(row.url + " " + row.name + " " + row.genre);
      if Contains(bucket, "/adatlap/sorozat/") || Contains(bucket, "sorozat") || Contains(bucket, "series")
      then "series" else "movie"
  }

  /**
   * An explicit target type always wins; otherwise a row is a series exactly when its
   * lower-cased url, name and genre mention `sorozat` or `series` (the `/adatlap/sorozat/`
   * test is subsumed by the `sorozat` one).
   */
  lemma NormalizeTypeSpec(targetType: string, row: RawRow)
    ensures targetType == "movie" || targetType == "series" ==> NormalizeType(targetType, row) == targetType
    ensures targetType != "movie" && targetType != "series" ==>
              var bucket := Lower(row.url + " " + row.name + " " + row.genre);
              (NormalizeType(targetType, row) == "series" <==> Contains(bucket, "sorozat") || Contains(bucket, "series"))
  {
    var bucket := Lower(row.url + " " + row.name + " " + row.genre);
    if Contains(bucket, "/adatlap/sorozat/") {
      SeriesPathMentionsSorozat(bucket);
    }
  }

  /** A string containing `/adatlap/sorozat/` contains `sorozat`. */
  lemma SeriesPathMentionsSorozat(s: string)
    requires Contains(s, "/adatlap/sorozat/")
    ensures Contains(s, "sorozat")
  {
    var i :| 0 <= i <= |s| - 17 && OccursAt(s, "/adatlap/sorozat/", i);
    assert s[i + 9..i + 16] == s[i..i + 17][9..16] == "sorozat";
    assert OccursAt(s, "sorozat", i + 9);
  }

  /** The genre list of `toMeta`: split on commas, sanitise each field, drop empty ones. */
  function GenreList(parts: seq<string>): (r: seq<string>)
    ensures |r| <= |parts|
    ensures forall k :: 0 <= k < |r| ==> r[k] != "" && Clean(r[k])
  {
    if parts == [] then []
    else
      var g := Sanitize(parts[0]);
      var rest := GenreList(parts[1..]);
      if g == "" then rest
      else
        SanitizeIsClean(parts[0]);
        assert forall k :: 1 <= k <= |rest| ==> ([g] + rest)[k] == rest[k - 1];
        [g] + rest
  }

  /** `toMeta(targetType, row)`. */
  function ToMeta(urls: UrlApi, sha1: string -> HexDigest, targetType: string, row: RawRow): Option<Meta> {
    var canonical := CanonicalizeUrl(urls, row.url);
    var canonicalUrl := if canonical != "" then canonical else "urn:porthu:" + row.name;
    var kind := NormalizeType(targetType, row);
    var name := Sanitize(row.name);
    if name == "" then None
    else
      Some(Meta(
        id := MakeMetaId(sha1, kind, canonicalUrl, name),
        kind := kind,
        name := name,
        poster := row.poster,
        description := row.description,
        releaseInfo := row.releaseInfo,
        genres := if row.genre != "" then Some(GenreList(Split(row.genre, ','))) else None,
        website := canonicalUrl))
  }

  /** The well-formedness every record `toMeta` builds has. */
  predicate WellFormed(m: Meta) {
    && (m.kind == "movie" || m.kind == "series")
    && m.name != "" && Clean(m.name)
    && IsPrefix("porthu:" + m.kind + ":", m.id)
    && m.website != ""
    && (m.genres.Some? ==> forall k :: 0 <= k < |m.genres.value| ==> m.genres.value[k] != "" && Clean(m.genres.value[k]))
  }

  predicate AllWellFormed(ms: seq<Meta>) {
    forall k :: 0 <= k < |ms| ==> WellFormed(ms[k])
  }

  /** `toMeta` drops exactly the rows whose name is blank, and what it builds is well formed. */
  lemma ToMetaSpec(urls: UrlApi, sha1: string -> HexDigest, targetType: string, row: RawRow)
    ensures ToMeta(urls, sha1, targetType, row).None? <==> forall i :: 0 <= i < |row.name| ==> IsSpace(row.name[i])
    ensures ToMeta(urls, sha1, targetType, row).Some? ==>
              var m := ToMeta(urls, sha1, targetType, row).value;
              && WellFormed(m)
              && m.name == Sanitize(row.name)
              && m.id == MakeMetaId(sha1, m.kind, m.website, m.name)
              && (targetType == "movie" || targetType == "series" ==> m.kind == targetType)
              && (CanonicalizeUrl(urls, row.url) != "" ==> m.website == CanonicalizeUrl(urls, row.url))
              && (CanonicalizeUrl(urls, row.url) == "" ==> m.website == "urn:porthu:" + row.name)
              && (m.genres.None? <==> row.genre == "")
              && m.poster == row.poster && m.description == row.description && m.releaseInfo == row.releaseInfo
  {
    SanitizeEmptyIff(row.name);
    SanitizeIsClean(row.name);
    NormalizeTypeSpec(targetType, row);
    var m := ToMeta(urls, sha1, targetType, row);
    if m.Some? {
      MetaIdForms(sha1, m.value.kind, m.value.website, m.value.name);
    }
  }
}
