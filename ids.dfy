/**
 * URL canonicalisation and content-id derivation of the port.hu adapter
 * (`canonicalizeUrl`, `absolutize`, `extractEntityId`, `makeMetaId`).
 * The WHATWG URL parser and SHA-1 are parameters: `UrlApi` and a digest function.
 */
module Ids {
  import opened Wrappers
  import opened Text
  import opened JsValues

  /**
   * The URL library the adapter calls:
   * `parse(v)` is `new URL(v)` with `hash` and `search` cleared, serialised (None when it throws);
   * `resolve(rel, base)` is `new URL(rel, base).toString()` (None when it throws).
   */
  datatype UrlApi = UrlApi(parse: string -> Option<string>, resolve: (string, string) -> Option<string>)

  /** A lowercase hexadecimal SHA-1 digest. */
  type HexDigest = s: string | |s| == 40 && forall i :: 0 <= i < |s| ==> IsHexDigit(s[i])
    witness "0000000000000000000000000000000000000000"

  /** The catch branch of `canonicalizeUrl`: `value.split('#')[0].split('?')[0]`. */
  function FallbackCanonical(value: string): (r: string)
    ensures IsPrefix(r, value) && '#' !in r && '?' !in r
    ensures |r| < |value| ==> value[|r|] == '#' || value[|r|] == '?'
  {
    var h := Split(value, '#')[0];
    SplitSpec(value, '#');
    var r := Split(h, '?')[0];
    SplitSpec(h, '?');
    assert forall k | 0 <= k < |r| :: r[k] == h[k];
    r
  }

  /** `canonicalizeUrl(value)`; the empty string stands for `null`. */
  function CanonicalizeUrl(urls: UrlApi, value: string): (r: string)
    ensures value == "" ==> r == ""
    ensures value != "" && urls.parse(value).Some? ==> r == urls.parse(value).value
    ensures value != "" && urls.parse(value).None? ==> IsPrefix(r, value) && '#' !in r && '?' !in r
  {
    if value == "" then ""
    else
      match urls.parse(value)
      case Some(u) => u
      case None => FallbackCanonical(value)
  }

  /** On the fallback path a query string or fragment appended to a clean URL is ignored. */
  lemma FallbackIgnoresQueryAndFragment(s: string, c: char, t: string)
    requires '#' !in s && '?' !in s
    requires c == '#' || c == '?'
    ensures FallbackCanonical(s + [c] + t) == s
  {
    var v := s + [c] + t;
    if c == '#' {
      SplitHeadBefore(s, '#', t);
      SplitNoSeparator(s, '?');
    } else {
      var h := Split(v, '#')[0];
      SplitSpec(v, '#');
      assert v[..|s| + 1] == s + ['?'];
      assert |h| > |s|;
      assert h == s + ['?'] + h[|s| + 1..] by {
        assert h == v[..|h|];
      }
      SplitHeadBefore(s, '?', h[|s| + 1..]);
    }
  }

  /** `absolutize(base, v)`: resolve against the page URL, then canonicalise; "" stands for `null`. */
  function Absolutize(urls: UrlApi, base: string, v: Value): (r: string)
    ensures !Truthy(v) ==> r == ""
  {
    if !Truthy(v) then ""
    else
      match urls.resolve(ToStr(v), base)
      case None => ""
      case Some(u) => CanonicalizeUrl(urls, u)
  }

  /** `/<word>-([0-9]+)/i` matches starting at index `i` (ASCII case folding, as the non-unicode `i` flag does). */
  predicate WordAt(s: string, word: string, i: int) {
    0 <= i && i + |word| + 2 <= |s|
    && Lower(s[i..i + |word|]) == word && s[i + |word|] == '-' && IsDigit(s[i + |word| + 1])
  }

  /** The end of the run of digits that starts at `j` (the greedy `[0-9]+`). */
  function DigitRunEnd(s: string, j: nat): (r: nat)
    requires j <= |s|
    ensures j <= r <= |s|
    ensures forall k :: j <= k < r ==> IsDigit(s[k])
    ensures r == |s| || !IsDigit(s[r])
    decreases |s| - j
  {
    if j < |s| && IsDigit(s[j]) then DigitRunEnd(s, j + 1) else j
  }

  /** The start of the leftmost match at or after `from`. */
  function FirstWord(s: string, word: string, from: nat): (r: Option<nat>)
    ensures r.Some? ==> from <= r.value && WordAt(s, word, r.value)
    ensures r.Some? ==> forall k :: from <= k < r.value ==> !WordAt(s, word, k)
    ensures r.None? ==> forall k :: from <= k ==> !WordAt(s, word, k)
    decreases |s| - from
  {
    if from + |word| + 2 > |s| then None
    else if WordAt(s, word, from) then Some(from)
    else FirstWord(s, word, from + 1)
  }

  /** `<word>-<digits>` built from the leftmost match of `word`. */
  function MatchWord(s: string, word: string): Option<string> {
    match FirstWord(s, word, 0)
    case None => None
    case Some(i) =>
      var d := i + |word| + 1;
      Some(word + "-" + s[d..DigitRunEnd(s, d)])
  }

  /** `extractEntityId(url)`: `movie-` before `episode-` before `event-`. */
  function ExtractEntityId(url: string): Option<string> {
    var movie := MatchWord(url, "movie");
    if movie.Some? then movie
    else
      var episode := MatchWord(url, "episode");
      if episode.Some? then episode else MatchWord(url, "event")
  }

  predicate Matches(s: string, word: string) {
    exists i | 0 <= i < |s| :: WordAt(s, word, i)
  }

  /** The entity id of the leftmost match of `word`: the word, a dash and the whole digit run after it. */
  ghost predicate IsLeftmostEntityId(s: string, word: string, e: string) {
    exists i :: WordAt(s, word, i) && (forall k :: 0 <= k < i ==> !WordAt(s, word, k))
      && e == word + "-" + s[i + |word| + 1..DigitRunEnd(s, i + |word| + 1)]
  }

  lemma MatchWordSpec(s: string, word: string)
    ensures MatchWord(s, word).None? <==> !Matches(s, word)
    ensures MatchWord(s, word).Some? ==> IsLeftmostEntityId(s, word, MatchWord(s, word).value)
  {
    match FirstWord(s, word, 0)
    case None =>
    case Some(i) =>
  }

  /** The priority order of `extractEntityId` and what each result is built from. */
  lemma EntityIdPriority(url: string)
    ensures ExtractEntityId(url).None? <==>
              !Matches(url, "movie") && !Matches(url, "episode") && !Matches(url, "event")
    ensures Matches(url, "movie") ==>
              ExtractEntityId(url).Some? && IsLeftmostEntityId(url, "movie", ExtractEntityId(url).value)
    ensures !Matches(url, "movie") && Matches(url, "episode") ==>
              ExtractEntityId(url).Some? && IsLeftmostEntityId(url, "episode", ExtractEntityId(url).value)
    ensures !Matches(url, "movie") && !Matches(url, "episode") && Matches(url, "event") ==>
              ExtractEntityId(url).Some? && IsLeftmostEntityId(url, "event", ExtractEntityId(url).value)
  {
    MatchWordSpec(url, "movie");
    MatchWordSpec(url, "episode");
    MatchWordSpec(url, "event");
  }

  lemma MatchWordShape(s: string, word: string)
    requires MatchWord(s, word).Some?
    ensures exists digits :: MatchWord(s, word).value == word + "-" + digits
              && digits != "" && forall k :: 0 <= k < |digits| ==> IsDigit(digits[k])
  {
    var i := FirstWord(s, word, 0).value;
    assert WordAt(s, word, i);
    var d := i + |word| + 1;
    var e := DigitRunEnd(s, d);
    assert IsDigit(s[d]) && d < e;
    var digits := s[d..e];
    assert MatchWord(s, word).value == word + "-" + digits;
    assert forall k :: 0 <= k < |digits| ==> IsDigit(digits[k]);
  }

  /** Every entity id is one of the three words, a dash and a non-empty run of digits. */
  lemma EntityIdShape(url: string)
    requires ExtractEntityId(url).Some?
    ensures exists word, digits ::
              (word == "movie" || word == "episode" || word == "event")
              && ExtractEntityId(url).value == word + "-" + digits
              && digits != "" && forall k :: 0 <= k < |digits| ==> IsDigit(digits[k])
  {
    if MatchWord(url, "movie").Some? {
      MatchWordShape(url, "movie");
    } else if MatchWord(url, "episode").Some? {
      MatchWordShape(url, "episode");
    } else {
      MatchWordShape(url, "event");
    }
  }

  /** `makeMetaId(type, canonicalUrl, name)`. */
  function MakeMetaId(sha1: string -> HexDigest, kind: string, canonicalUrl: string, name: string): string {
    match ExtractEntityId(canonicalUrl)
    case Some(entity) => "porthu:" + kind + ":" + entity
    case None =>
      var key := kind + ":" + (if canonicalUrl != "" then canonicalUrl else name);
      "porthu:" + kind + ":h-" + sha1(key)[..24]
  }

  /** The two id tiers: the entity id when the URL has one, else `h-` and 24 hex digits of the digest. */
  lemma MetaIdForms(sha1: string -> HexDigest, kind: string, canonicalUrl: string, name: string)
    ensures var id := MakeMetaId(sha1, kind, canonicalUrl, name);
            var prefix := "porthu:" + kind + ":";
            && IsPrefix(prefix, id)
            && (ExtractEntityId(canonicalUrl).Some? ==> id == prefix + ExtractEntityId(canonicalUrl).value)
            && (ExtractEntityId(canonicalUrl).None? ==>
                  var h := id[|prefix| + 2..];
                  && id == prefix + "h-" + h
                  && h == sha1(kind + ":" + (if canonicalUrl != "" then canonicalUrl else name))[..24]
                  && |h| == 24 && forall k :: 0 <= k < 24 ==> IsHexDigit(h[k]))
  {
  }

  /** Ids of the two content types never coincide, so dedupe never merges a movie with a series. */
  lemma MetaIdsSeparateTypes(sha1: string -> HexDigest, url1: string, name1: string, url2: string, name2: string)
    ensures MakeMetaId(sha1, "movie", url1, name1) != MakeMetaId(sha1, "series", url2, name2)
  {
    MetaIdForms(sha1, "movie", url1, name1);
    MetaIdForms(sha1, "series", url2, name2);
    assert MakeMetaId(sha1, "movie", url1, name1)[7] == 'm';
    assert MakeMetaId(sha1, "series", url2, name2)[7] == 's';
  }
}
