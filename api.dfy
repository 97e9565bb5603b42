/**
 * The serverless HTTP entry point: parsing the `extra` segment of a catalog path,
 * the two catalog routes, the `skip`/`limit` clamping and the response for each route.
 * The WHATWG URL parser, `decodeURIComponent` and `Number(...)` are parameters (`Host`);
 * the response is the status, the payload and the `Cache-Control` header ("" when none is set).
 */
module Api {
  import opened Wrappers
  import opened Text
  import opened Records
  import opened Catalog

  /** The message of the `URIError` that `decodeURIComponent` throws. */
  const UriMalformed := "URI malformed"

  /** Assigning this key on a plain object changes its prototype instead of adding a property. */
  const ProtoKey := "__proto__"

  const CatalogCacheControl := "public, s-maxage=300, stale-while-revalidate=600"
  const ManifestCacheControl := "public, max-age=300"

  /** A JavaScript number as `Number(...)` yields it: `NaN` or an integer. */
  datatype Number = NaN | Int(n: int)

  /** `new URL(req.url, 'http://localhost')`: the path and the decoded query entries, in order. */
  datatype RequestUrl = RequestUrl(pathname: string, query: seq<(string, string)>)

  /**
   * The runtime the handler calls: the URL parser (a failure carries the thrown message),
   * `decodeURIComponent` (None when it throws), `Number(s)`, and `process.env.CATALOG_LIMIT`
   * ("" when unset).
   */
  datatype Host = Host(parseRequest: string -> Result<RequestUrl, string>,
                       decodeComponent: string -> Option<string>,
                       toNumber: string -> Number,
                       catalogLimit: string)

  // ---------------------------------------------------------------------------
  // The `extra` object

  /** `obj[key] = value` on a plain object of strings. */
  function Store(extra: map<string, string>, key: string, value: string): map<string, string> {
    if key == ProtoKey then extra else extra[key := value]
  }

  /** Assigning the entries in order, as `parseExtraFromQuery` does; later entries win. */
  function Assign(entries: seq<(string, string)>): map<string, string>
    decreases |entries|
  {
    if entries == [] then map[]
    else
      var last := entries[|entries| - 1];
      Store(Assign(entries[..|entries| - 1]), last.0, last.1)
  }

  /** `const [rawKey, rawValue = ''] = pair.split('=')`: the first two fields, the rest dropped. */
  function PairFields(pair: string): (string, string) {
    var fields := Split(pair, '=');
    (fields[0], if |fields| > 1 then fields[1] else "")
  }

  /** One pair of the extra segment: skipped (None) when its raw key is empty, else both halves decoded. */
  function PairEntry(decode: string -> Option<string>, pair: string): (r: Result<Option<(string, string)>, string>)
    ensures r.Failure? ==> r.error == UriMalformed
    ensures r == Success(None) <==> PairFields(pair).0 == ""
  {
    var (rawKey, rawValue) := PairFields(pair);
    if rawKey == "" then Success(None)
    else
      match decode(rawKey)
      case None => Failure(UriMalformed)
      case Some(key) =>
        match decode(rawValue)
        case None => Failure(UriMalformed)
        case Some(value) => Success(Some((key, value)))
  }

  /** The decoded entries of the pairs, in order; the first pair that fails to decode fails them all. */
  function DecodePairs(decode: string -> Option<string>, pairs: seq<string>): (r: Result<seq<(string, string)>, string>)
    ensures r.Failure? ==> r.error == UriMalformed
    ensures r.Success? ==> |r.value| <= |pairs|
    decreases |pairs|
  {
    if pairs == [] then Success([])
    else
      match DecodePairs(decode, pairs[..|pairs| - 1])
      case Failure(e) => Failure(e)
      case Success(entries) =>
        match PairEntry(decode, pairs[|pairs| - 1])
        case Failure(e) => Failure(e)
        case Success(None) => Success(entries)
        case Success(Some(kv)) => Success(entries + [kv])
  }

  /** `parseExtraString(extraStr)`; a failure is the `URIError` it throws. */
  function ParseExtra(decode: string -> Option<string>, s: string): Result<map<string, string>, string> {
    if s == "" then Success(map[])
    else
      match DecodePairs(decode, Split(s, '&'))
      case Failure(e) => Failure(e)
      case Success(entries) => Success(Assign(entries))
  }

  /** `{ ...pathExtra, ...queryExtra }`: the query string overrides the path. */
  function MergeExtra(pathExtra: map<string, string>, queryExtra: map<string, string>): (r: map<string, string>)
    ensures forall k :: k in r <==> k in pathExtra || k in queryExtra
    ensures forall k :: k in queryExtra ==> r[k] == queryExtra[k]
    ensures forall k :: k in pathExtra && k !in queryExtra ==> r[k] == pathExtra[k]
  {
    pathExtra + queryExtra
  }

  /** `parseExtraString(extraStr)`: the `reduce` over the `&`-separated pairs, updating one object. */
  method ParseExtraString(decode: string -> Option<string>, s: string) returns (r: Result<map<string, string>, string>)
    ensures r == ParseExtra(decode, s)
  {
    if s == "" {
      return Success(map[]);
    }
    var pairs := Split(s, '&');
    var acc: map<string, string> := map[];
    var i := 0;
    while i < |pairs|
      invariant 0 <= i <= |pairs|
      invariant DecodePairs(decode, pairs[..i]).Success?
      invariant acc == Assign(DecodePairs(decode, pairs[..i]).value)
    {
      DecodePairsNext(decode, pairs, i);
      var (rawKey, rawValue) := PairFields(pairs[i]);
      if rawKey != "" {
        var key := decode(rawKey);
        var value := decode(rawValue);
        if key.None? || value.None? {
          assert PairEntry(decode, pairs[i]).Failure?;
          DecodeFailurePersists(decode, pairs, i + 1);
          assert pairs[..|pairs|] == pairs;
          return Failure(UriMalformed);
        }
        assert PairEntry(decode, pairs[i]) == Success(Some((key.value, value.value)));
        AssignNext(DecodePairs(decode, pairs[..i]).value, (key.value, value.value));
        acc := Store(acc, key.value, value.value);
      } else {
        assert PairEntry(decode, pairs[i]) == Success(None);
      }
      i := i + 1;
    }
    assert pairs[..i] == pairs;
    r := Success(acc);
  }

  /** `parseExtraFromQuery(searchParams)`. */
  method ParseExtraFromQuery(entries: seq<(string, string)>) returns (extra: map<string, string>)
    ensures extra == Assign(entries)
  {
    extra := map[];
    for i := 0 to |entries|
      invariant extra == Assign(entries[..i])
    {
      assert entries[..i + 1][..i] == entries[..i];
      extra := Store(extra, entries[i].0, entries[i].1);
    }
    assert entries[..|entries|] == entries;
  }

  /** The decoded entries of one more pair. */
  lemma DecodePairsNext(decode: string -> Option<string>, pairs: seq<string>, i: nat)
    requires i < |pairs|
    ensures DecodePairs(decode, pairs[..i + 1]) ==
              match DecodePairs(decode, pairs[..i])
              case Failure(e) => Failure(e)
              case Success(entries) =>
                match PairEntry(decode, pairs[i])
                case Failure(e) => Failure(e)
                case Success(None) => Success(entries)
                case Success(Some(kv)) => Success(entries + [kv])
  {
    assert pairs[..i + 1][..i] == pairs[..i];
  }

  /** Assigning one more entry. */
  lemma AssignNext(entries: seq<(string, string)>, kv: (string, string))
    ensures Assign(entries + [kv]) == Store(Assign(entries), kv.0, kv.1)
  {
    assert (entries + [kv])[..|entries|] == entries;
  }

  /** Once a prefix of the pairs fails to decode, so do the pairs. */
  lemma {:induction false} DecodeFailurePersists(decode: string -> Option<string>, pairs: seq<string>, n: nat)
    requires n <= |pairs|
    requires DecodePairs(decode, pairs[..n]).Failure?
    ensures DecodePairs(decode, pairs[..|pairs|]).Failure?
    decreases |pairs| - n
  {
    if n < |pairs| {
      assert pairs[..n + 1][..n] == pairs[..n];
      DecodeFailurePersists(decode, pairs, n + 1);
    }
  }

  /** Decoding fails exactly when some pair with a non-empty raw key fails to decode. */
  lemma {:induction false} DecodePairsSpec(decode: string -> Option<string>, pairs: seq<string>)
    ensures DecodePairs(decode, pairs).Failure? <==>
              exists j :: 0 <= j < |pairs| && PairEntry(decode, pairs[j]).Failure?
    decreases |pairs|
  {
    if pairs != [] {
      var pre := pairs[..|pairs| - 1];
      DecodePairsSpec(decode, pre);
      assert forall j :: 0 <= j < |pre| ==> pre[j] == pairs[j];
    }
  }

  /**
   * The object built from entries: a key is present exactly when some entry has it (and it is not
   * `__proto__`), and its value is that of the last entry with that key.
   */
  lemma AssignSpec(entries: seq<(string, string)>, k: string)
    ensures k in Assign(entries) <==> k != ProtoKey && exists j :: 0 <= j < |entries| && entries[j].0 == k
    ensures k in Assign(entries) ==>
              exists j :: 0 <= j < |entries| && entries[j] == (k, Assign(entries)[k])
                && forall j' :: j < j' < |entries| ==> entries[j'].0 != k
  {
    AssignKeys(entries, k);
    if k in Assign(entries) {
      AssignLast(entries, k);
    }
  }

  lemma {:induction false} AssignKeys(entries: seq<(string, string)>, k: string)
    ensures k in Assign(entries) <==> k != ProtoKey && exists j :: 0 <= j < |entries| && entries[j].0 == k
    decreases |entries|
  {
    if entries != [] {
      var n := |entries| - 1;
      var pre := entries[..n];
      AssignKeys(pre, k);
      assert forall j :: 0 <= j < n ==> pre[j] == entries[j];
      assert Assign(entries) == Store(Assign(pre), entries[n].0, entries[n].1);
    }
  }

  lemma {:induction false} AssignLast(entries: seq<(string, string)>, k: string)
    requires k in Assign(entries)
    ensures exists j :: 0 <= j < |entries| && entries[j] == (k, Assign(entries)[k])
              && forall j' :: j < j' < |entries| ==> entries[j'].0 != k
    decreases |entries|
  {
    AssignKeys(entries, k);
    var n := |entries| - 1;
    var pre := entries[..n];
    assert Assign(entries) == Store(Assign(pre), entries[n].0, entries[n].1);
    if entries[n].0 == k && k != ProtoKey {
      assert entries[n] == (k, Assign(entries)[k]);
    } else {
      AssignLast(pre, k);
      var j :| 0 <= j < n && pre[j] == (k, Assign(pre)[k]) && forall j' :: j < j' < n ==> pre[j'].0 != k;
      assert entries[j] == pre[j];
      assert forall j' :: j < j' < n ==> entries[j'] == pre[j'];
    }
  }

  /** A pair without `=` is a key with an empty value. */
  lemma PairFieldsKeyOnly(k: string)
    requires '=' !in k
    ensures PairFields(k) == (k, "")
  {
    SplitNoSeparator(k, '=');
  }

  /** With `=`, the text before the first `=` is the key and the text up to the next `=` (if any) is the value. */
  lemma PairFieldsKeyValue(k: string, v: string, rest: string)
    requires '=' !in k && '=' !in v
    requires rest == "" || rest[0] == '='
    ensures PairFields(k + "=" + v + rest) == (k, v)
  {
    var tail := v + rest;
    assert k + "=" + v + rest == k + ['='] + tail;
    SplitCons(k, '=', tail);
    var second := Split(tail, '=');
    if rest == "" {
      assert tail == v;
      SplitNoSeparator(v, '=');
    } else {
      assert tail == v + ['='] + rest[1..];
      SplitHeadBefore(v, '=', rest[1..]);
    }
    assert second[0] == v;
    assert Split(k + "=" + v + rest, '=') == [k] + second;
  }

  /** `&`-joined `key=value` pairs, each half encoded: what a client puts in the extra segment. */
  function FormatExtra(encode: string -> string, entries: seq<(string, string)>): string {
    if entries == [] then ""
    else Join(seq(|entries|, j requires 0 <= j < |entries| => FormatPair(encode, entries[j])), '&')
  }

  /** One `key=value` pair with both halves encoded. */
  function FormatPair(encode: string -> string, entry: (string, string)): string {
    encode(entry.0) + "=" + encode(entry.1)
  }

  /** Splitting joined fields that are free of the separator gives the fields back. */
  lemma {:induction false} SplitJoin(parts: seq<string>, c: char)
    requires |parts| >= 1
    requires forall j :: 0 <= j < |parts| ==> c !in parts[j]
    ensures Split(Join(parts, c), c) == parts
    decreases |parts|
  {
    if |parts| == 1 {
      SplitNoSeparator(parts[0], c);
    } else {
      SplitJoin(parts[1..], c);
      SplitCons(parts[0], c, Join(parts[1..], c));
    }
  }

  /** An entry the encoder formats faithfully: both halves decode back, contain no `=`, and the key is not empty. */
  ghost predicate Formattable(decode: string -> Option<string>, encode: string -> string, entry: (string, string)) {
    && decode(encode(entry.0)) == Some(entry.0) && decode(encode(entry.1)) == Some(entry.1)
    && '=' !in encode(entry.0) && '=' !in encode(entry.1) && encode(entry.0) != ""
  }

  /** A formatted pair decodes to its entry. */
  lemma FormattedPairEntry(decode: string -> Option<string>, encode: string -> string, entry: (string, string))
    requires Formattable(decode, encode, entry)
    ensures PairEntry(decode, FormatPair(encode, entry)) == Success(Some(entry))
  {
    PairFieldsKeyValue(encode(entry.0), encode(entry.1), "");
    assert FormatPair(encode, entry) == encode(entry.0) + "=" + encode(entry.1) + "";
  }

  /** Pairs that each decode to an entry decode to those entries, in order. */
  lemma {:induction false} DecodeEach(decode: string -> Option<string>, pairs: seq<string>, entries: seq<(string, string)>)
    requires |pairs| == |entries|
    requires forall j :: 0 <= j < |pairs| ==> PairEntry(decode, pairs[j]) == Success(Some(entries[j]))
    ensures DecodePairs(decode, pairs) == Success(entries)
    decreases |pairs|
  {
    if pairs != [] {
      var n := |pairs| - 1;
      DecodeEach(decode, pairs[..n], entries[..n]);
      DecodePairsNext(decode, pairs, n);
      assert pairs[..n + 1] == pairs;
      assert entries[..n] + [entries[n]] == entries;
    }
  }

  /**
   * Round trip: an extra segment built from entries with non-empty keys by an encoder that
   * `decodeURIComponent` inverts (and whose output has no `&` or `=`) parses to those entries.
   */
  lemma ExtraRoundTrip(decode: string -> Option<string>, encode: string -> string, entries: seq<(string, string)>)
    requires forall x :: decode(encode(x)) == Some(x)
    requires forall x :: '&' !in encode(x) && '=' !in encode(x)
    requires forall x :: x != "" ==> encode(x) != ""
    requires forall j :: 0 <= j < |entries| ==> entries[j].0 != ""
    ensures ParseExtra(decode, FormatExtra(encode, entries)) == Success(Assign(entries))
  {
    if entries != [] {
      var pairs := seq(|entries|, j requires 0 <= j < |entries| => FormatPair(encode, entries[j]));
      assert forall j :: 0 <= j < |pairs| ==> '&' !in pairs[j] by {
        forall j | 0 <= j < |pairs|
          ensures '&' !in pairs[j]
        {
          assert '&' !in encode(entries[j].0) && '&' !in encode(entries[j].1);
        }
      }
      SplitJoin(pairs, '&');
      forall j | 0 <= j < |pairs|
        ensures PairEntry(decode, pairs[j]) == Success(Some(entries[j]))
      {
        FormattedPairEntry(decode, encode, entries[j]);
      }
      DecodeEach(decode, pairs, entries);
    }
  }

  // ---------------------------------------------------------------------------
  // Routes

  const CatalogPrefix := "/catalog/"
  const JsonSuffix := ".json"

  /** The characters the regular expression `.` does not match. */
  predicate IsLineTerminator(c: char) {
    c == '\n' || c == '\r' || c == '\U{2028}' || c == '\U{2029}'
  }

  predicate NoLineTerminator(s: string) {
    forall k | 0 <= k < |s| :: !IsLineTerminator(s[k])
  }

  /** What `[^/]+` matches. */
  predicate Segment(s: string) {
    s != "" && '/' !in s
  }

  /** The text before the first `c` and the text after it. */
  function Cut(s: string, c: char): (r: Option<(string, string)>)
    ensures r.None? <==> c !in s
    ensures r.Some? ==> c !in r.value.0 && s == r.value.0 + [c] + r.value.1
  {
    var head := Split(s, c)[0];
    SplitSpec(s, c);
    if |head| == |s| then
      assert head == s;
      None
    else
      assert s == head + [c] + s[|head| + 1..];
      Some((head, s[|head| + 1..]))
  }

  lemma CutAt(a: string, c: char, b: string)
    requires c !in a
    ensures Cut(a + [c] + b, c) == Some((a, b))
  {
    SplitHeadBefore(a, c, b);
  }

  /** The text between a leading `/catalog/` and a trailing `.json`. */
  function CatalogBody(path: string): (r: Option<string>)
    ensures r.Some? ==> path == CatalogPrefix + r.value + JsonSuffix
  {
    if |path| >= |CatalogPrefix| + |JsonSuffix| && path[..|CatalogPrefix|] == CatalogPrefix
       && path[|path| - |JsonSuffix|..] == JsonSuffix
    then
      var body := path[|CatalogPrefix|..|path| - |JsonSuffix|];
      assert path == path[..|CatalogPrefix|] + body + path[|path| - |JsonSuffix|..];
      Some(body)
    else None
  }

  lemma CatalogBodyOf(body: string)
    ensures CatalogBody(CatalogPrefix + body + JsonSuffix) == Some(body)
  {
    var path := CatalogPrefix + body + JsonSuffix;
    assert path[..|CatalogPrefix|] == CatalogPrefix;
    assert path[|path| - |JsonSuffix|..] == JsonSuffix;
    assert path[|CatalogPrefix|..|path| - |JsonSuffix|] == body;
  }

  /** The `type` and `id` groups of a catalog path. */
  datatype CatalogPath = CatalogPath(kind: string, id: string)

  /** `path.match(/^\/catalog\/([^/]+)\/([^/]+)\/(.+)\.json$/)`: the groups, or None. */
  function MatchWithExtra(path: string): Option<(CatalogPath, string)> {
    match CatalogBody(path)
    case None => None
    case Some(body) =>
      match Cut(body, '/')
      case None => None
      case Some((kind, rest)) =>
        match Cut(rest, '/')
        case None => None
        case Some((id, extra)) =>
          if kind != "" && id != "" && extra != "" && NoLineTerminator(extra) then Some((CatalogPath(kind, id), extra))
          else None
  }

  /** `path.match(/^\/catalog\/([^/]+)\/([^/]+)\.json$/)`: the groups, or None. */
  function MatchPlain(path: string): Option<CatalogPath> {
    match CatalogBody(path)
    case None => None
    case Some(body) =>
      match Cut(body, '/')
      case None => None
      case Some((kind, id)) => if Segment(kind) && Segment(id) then Some(CatalogPath(kind, id)) else None
  }

  /** The groups of a path `/catalog/<type>/<id>/<extra>.json`. */
  lemma MatchWithExtraOf(kind: string, id: string, extra: string)
    requires Segment(kind) && Segment(id) && extra != "" && NoLineTerminator(extra)
    ensures MatchWithExtra(CatalogPrefix + kind + "/" + id + "/" + extra + JsonSuffix)
              == Some((CatalogPath(kind, id), extra))
  {
    var rest := id + "/" + extra;
    var body := kind + "/" + rest;
    assert CatalogPrefix + kind + "/" + id + "/" + extra + JsonSuffix == CatalogPrefix + body + JsonSuffix;
    CatalogBodyOf(body);
    assert body == kind + ['/'] + rest;
    CutAt(kind, '/', rest);
    assert rest == id + ['/'] + extra;
    CutAt(id, '/', extra);
  }

  /** The first pattern matches exactly the paths `/catalog/<type>/<id>/<extra>.json`, with these groups. */
  lemma MatchWithExtraSpec(path: string, kind: string, id: string, extra: string)
    ensures MatchWithExtra(path) == Some((CatalogPath(kind, id), extra)) <==>
              Segment(kind) && Segment(id) && extra != "" && NoLineTerminator(extra)
              && path == CatalogPrefix + kind + "/" + id + "/" + extra + JsonSuffix
  {
    if Segment(kind) && Segment(id) && extra != "" && NoLineTerminator(extra)
       && path == CatalogPrefix + kind + "/" + id + "/" + extra + JsonSuffix
    {
      MatchWithExtraOf(kind, id, extra);
    }
    if MatchWithExtra(path) == Some((CatalogPath(kind, id), extra)) {
      MatchWithExtraSound(path);
    }
  }

  /** Whatever the first pattern matches is a path `/catalog/<type>/<id>/<extra>.json` with those groups. */
  lemma MatchWithExtraSound(path: string)
    requires MatchWithExtra(path).Some?
    ensures var (p, extra) := MatchWithExtra(path).value;
            Segment(p.kind) && Segment(p.id) && extra != "" && NoLineTerminator(extra)
            && path == CatalogPrefix + p.kind + "/" + p.id + "/" + extra + JsonSuffix
  {
    var body := CatalogBody(path).value;
    var (kind, rest) := Cut(body, '/').value;
    var (id, extra) := Cut(rest, '/').value;
    assert MatchWithExtra(path) == Some((CatalogPath(kind, id), extra));
    assert path == CatalogPrefix + (kind + ['/'] + (id + ['/'] + extra)) + JsonSuffix;
    ExtraPathParts(kind, id, extra);
  }

  lemma ExtraPathParts(kind: string, id: string, extra: string)
    ensures CatalogPrefix + kind + "/" + id + "/" + extra + JsonSuffix
            == CatalogPrefix + (kind + ['/'] + (id + ['/'] + extra)) + JsonSuffix
  {
  }

  /** The groups of a path `/catalog/<type>/<id>.json`. */
  lemma MatchPlainOf(kind: string, id: string)
    requires Segment(kind) && Segment(id)
    ensures MatchPlain(CatalogPrefix + kind + "/" + id + JsonSuffix) == Some(CatalogPath(kind, id))
  {
    var body := kind + "/" + id;
    assert CatalogPrefix + kind + "/" + id + JsonSuffix == CatalogPrefix + body + JsonSuffix;
    CatalogBodyOf(body);
    assert body == kind + ['/'] + id;
    CutAt(kind, '/', id);
  }

  /**
   * The second pattern matches exactly the paths `/catalog/<type>/<id>.json`, with these groups,
   * and never a path the first pattern matches.
   */
  lemma MatchPlainSpec(path: string, kind: string, id: string)
    ensures MatchPlain(path) == Some(CatalogPath(kind, id)) <==>
              Segment(kind) && Segment(id) && path == CatalogPrefix + kind + "/" + id + JsonSuffix
    ensures MatchPlain(path).Some? ==> MatchWithExtra(path).None?
  {
    if Segment(kind) && Segment(id) && path == CatalogPrefix + kind + "/" + id + JsonSuffix {
      MatchPlainOf(kind, id);
    }
    if MatchPlain(path) == Some(CatalogPath(kind, id)) {
      var body := CatalogBody(path).value;
      assert body == kind + "/" + id;
    }
  }

  /** `isValidCatalog(type, id)`. */
  function IsValidCatalog(kind: string, id: string): (r: bool)
    ensures r <==> (kind == "movie" || kind == "series") && id == "porthu-" + kind
  {
    (kind == "movie" && id == "porthu-movie") || (kind == "series" && id == "porthu-series")
  }

  // ---------------------------------------------------------------------------
  // Paging

  /** `Math.min(Number(process.env.CATALOG_LIMIT || 50), 100)`. */
  function LimitOf(host: Host): (r: Number)
    ensures r.Int? ==> r.n <= 100
    ensures host.catalogLimit == "" ==> r == Int(50)
    ensures r.NaN? <==> host.catalogLimit != "" && host.toNumber(host.catalogLimit).NaN?
  {
    var n := if host.catalogLimit == "" then Int(50) else host.toNumber(host.catalogLimit);
    if n.NaN? then NaN else Int(Min(n.n, 100))
  }

  /** `Math.max(Number(extra.skip || 0), 0)`. */
  function SkipOf(toNumber: string -> Number, extra: map<string, string>): (r: Number)
    ensures r.Int? ==> r.n >= 0
    ensures "skip" !in extra ==> r == Int(0)
    ensures r.NaN? <==> "skip" in extra && extra["skip"] != "" && toNumber(extra["skip"]).NaN?
  {
    var n := if "skip" in extra && extra["skip"] != "" then toNumber(extra["skip"]) else Int(0);
    if n.NaN? then NaN else Int(Max(n.n, 0))
  }

  /** `extra.genre`, "" when absent (the catalog treats both alike). */
  function Genre(extra: map<string, string>): string {
    if "genre" in extra then extra["genre"] else ""
  }

  /** `ToIntegerOrInfinity` as `slice` applies it: `NaN` is 0. */
  function ToInteger(x: Number): int {
    if x.NaN? then 0 else x.n
  }

  /** `a + b` on numbers. */
  function Plus(a: Number, b: Number): Number {
    if a.Int? && b.Int? then Int(a.n + b.n) else NaN
  }

  /** `xs.slice(skip, skip + limit)` on JavaScript numbers. */
  function NumberSlice<T>(xs: seq<T>, skip: Number, limit: Number): seq<T> {
    JsSlice(xs, ToInteger(skip), ToInteger(Plus(skip, limit)))
  }

  /** The integer `skip` and `limit` that give the same slice: a `NaN` in either makes it empty. */
  function SliceArgs(skip: Number, limit: Number): (r: (int, int))
    ensures forall xs: seq<Meta> :: JsSlice(xs, r.0, r.0 + r.1) == NumberSlice(xs, skip, limit)
  {
    if skip.Int? && limit.Int? then (skip.n, limit.n) else (0, 0)
  }

  // ---------------------------------------------------------------------------
  // Responses

  /** The JSON payloads the handler sends. */
  datatype Body =
    | ManifestBody
    | MetasBody(metas: seq<Meta>)
    | NotFoundBody
    | ServerErrorBody(message: string)

  datatype Response = Response(status: int, body: Body, cacheControl: string)

  /** What the handler makes of a request URL before any catalog is fetched. */
  datatype Route =
    | ManifestRoute
    | CatalogRoute(kind: string, id: string, extra: map<string, string>)
    | NotFoundRoute
    | ErrorRoute(message: string)

  function RouteOf(host: Host, requestUrl: string): Route {
    match host.parseRequest(requestUrl)
    case Failure(message) => ErrorRoute(message)
    case Success(url) =>
      var path := url.pathname;
      if path == "/" || path == "/manifest.json" then ManifestRoute
      else
        match MatchWithExtra(path)
        case Some((p, extraEncoded)) =>
          (match ParseExtra(host.decodeComponent, extraEncoded)
           case Failure(message) => ErrorRoute(message)
           case Success(pathExtra) => CatalogRoute(p.kind, p.id, MergeExtra(pathExtra, Assign(url.query))))
        case None =>
          match MatchPlain(path)
          case Some(p) => CatalogRoute(p.kind, p.id, Assign(url.query))
          case None => NotFoundRoute
  }

  /** `handleCatalog(type, id, extra, res)`. */
  function CatalogReply(env: Env, host: Host, kind: string, id: string, extra: map<string, string>): (r: Response)
    ensures r.status == 200 && r.body.MetasBody?
  {
    if !IsValidCatalog(kind, id) then Response(200, MetasBody([]), "")
    else
      var args := SliceArgs(SkipOf(host.toNumber, extra), LimitOf(host));
      Response(200, MetasBody(CatalogMetas(env, kind, Genre(extra), args.0, args.1)), CatalogCacheControl)
  }

  /** The response to a request. */
  function Reply(env: Env, host: Host, requestUrl: string): Response {
    match RouteOf(host, requestUrl)
    case ManifestRoute => Response(200, ManifestBody, ManifestCacheControl)
    case CatalogRoute(kind, id, extra) => CatalogReply(env, host, kind, id, extra)
    case NotFoundRoute => Response(404, NotFoundBody, "")
    case ErrorRoute(message) => Response(500, ServerErrorBody(message), "")
  }

  /** `handleCatalog`: an unknown catalog is an empty list; otherwise the catalog page, cached by the CDN. */
  method HandleCatalog(host: Host, adapter: Adapter, kind: string, id: string, extra: map<string, string>)
    returns (resp: Response)
    requires adapter.Valid()
    modifies adapter
    ensures adapter.Valid()
    ensures resp == CatalogReply(adapter.env, host, kind, id, extra) && resp.body.MetasBody?
    ensures !IsValidCatalog(kind, id) ==>
              adapter.metaCache == old(adapter.metaCache) && adapter.detailCache == old(adapter.detailCache)
    ensures adapter.metaCache == CacheAll(old(adapter.metaCache), resp.body.metas)
  {
    if !IsValidCatalog(kind, id) {
      return Response(200, MetasBody([]), "");
    }
    var limit := LimitOf(host);
    var skip := SkipOf(host.toNumber, extra);
    var args := SliceArgs(skip, limit);
    var result := adapter.FetchCatalog(kind, Genre(extra), args.0, args.1);
    resp := Response(200, MetasBody(result.metas), CatalogCacheControl);
  }

  /** The routing part of the request handler: the URL, the path patterns and the `extra` object. */
  method RouteRequest(host: Host, requestUrl: string) returns (route: Route)
    ensures route == RouteOf(host, requestUrl)
  {
    var parsed := host.parseRequest(requestUrl);
    if parsed.Failure? {
      return ErrorRoute(parsed.error);
    }
    var path := parsed.value.pathname;
    if path == "/" || path == "/manifest.json" {
      return ManifestRoute;
    }
    var withExtra := MatchWithExtra(path);
    if withExtra.Some? {
      var (p, extraEncoded) := withExtra.value;
      var pathExtra := ParseExtraString(host.decodeComponent, extraEncoded);
      if pathExtra.Failure? {
        return ErrorRoute(pathExtra.error);
      }
      var queryExtra := ParseExtraFromQuery(parsed.value.query);
      return CatalogRoute(p.kind, p.id, MergeExtra(pathExtra.value, queryExtra));
    }
    var withoutExtra := MatchPlain(path);
    if withoutExtra.Some? {
      var queryExtra := ParseExtraFromQuery(parsed.value.query);
      return CatalogRoute(withoutExtra.value.kind, withoutExtra.value.id, queryExtra);
    }
    route := NotFoundRoute;
  }

  /** The request handler exported by `api/index.js`. */
  method Serve(host: Host, adapter: Adapter, requestUrl: string) returns (resp: Response)
    requires adapter.Valid()
    modifies adapter
    ensures adapter.Valid()
    ensures resp == Reply(adapter.env, host, requestUrl)
    ensures !RouteOf(host, requestUrl).CatalogRoute? ==>
              adapter.metaCache == old(adapter.metaCache) && adapter.detailCache == old(adapter.detailCache)
  {
    var route := RouteRequest(host, requestUrl);
    match route
    case ManifestRoute =>
      resp := Response(200, ManifestBody, ManifestCacheControl);
    case CatalogRoute(kind, id, extra) =>
      resp := HandleCatalog(host, adapter, kind, id, extra);
    case NotFoundRoute =>
      resp := Response(404, NotFoundBody, "");
    case ErrorRoute(message) =>
      resp := Response(500, ServerErrorBody(message), "");
  }

  // ---------------------------------------------------------------------------
  // Properties of the handler

  /**
   * The status codes: 500 exactly when the URL does not parse or a catalog path's extra segment
   * does not decode, 404 exactly when the path is neither the manifest nor a catalog, 200 otherwise.
   */
  lemma ReplyStatus(env: Env, host: Host, requestUrl: string)
    ensures var parsed := host.parseRequest(requestUrl);
            var status := Reply(env, host, requestUrl).status;
            && (status == 500 <==>
                  parsed.Failure?
                  || (parsed.value.pathname != "/" && parsed.value.pathname != "/manifest.json"
                      && MatchWithExtra(parsed.value.pathname).Some?
                      && ParseExtra(host.decodeComponent, MatchWithExtra(parsed.value.pathname).value.1).Failure?))
            && (status == 404 <==>
                  parsed.Success? && parsed.value.pathname != "/" && parsed.value.pathname != "/manifest.json"
                  && MatchWithExtra(parsed.value.pathname).None? && MatchPlain(parsed.value.pathname).None?)
            && (status == 200 || status == 404 || status == 500)
  {
    match RouteOf(host, requestUrl)
    case ManifestRoute =>
    case CatalogRoute(kind, id, extra) =>
      assert Reply(env, host, requestUrl) == CatalogReply(env, host, kind, id, extra);
    case NotFoundRoute =>
    case ErrorRoute(message) =>
  }

  /**
   * A catalog reply: an unknown catalog gives no records; a known one gives records with posters and
   * distinct ids, at most `limit` of them when the limit is not negative, and none when `skip` or the
   * limit is not a number.
   */
  lemma CatalogReplySpec(env: Env, host: Host, kind: string, id: string, extra: map<string, string>)
    ensures var metas := CatalogReply(env, host, kind, id, extra).body.metas;
            && (!IsValidCatalog(kind, id) ==> metas == [])
            && (forall k :: 0 <= k < |metas| ==> metas[k].poster != "")
            && DistinctIds(metas)
            && (LimitOf(host).Int? && LimitOf(host).n >= 0 ==> |metas| <= LimitOf(host).n <= 100)
            && (SkipOf(host.toNumber, extra).NaN? || LimitOf(host).NaN? ==> metas == [])
  {
    if IsValidCatalog(kind, id) {
      var skip := SkipOf(host.toNumber, extra);
      var limit := LimitOf(host);
      var args := SliceArgs(skip, limit);
      CatalogSpec(env, kind, Genre(extra), args.0, args.1);
    }
  }

  /** In a catalog path with an extra segment, a query parameter overrides the same key in the path. */
  lemma QueryOverridesPath(host: Host, requestUrl: string, key: string)
    requires host.parseRequest(requestUrl).Success?
    requires MatchWithExtra(host.parseRequest(requestUrl).value.pathname).Some?
    requires RouteOf(host, requestUrl).CatalogRoute?
    ensures var query := host.parseRequest(requestUrl).value.query;
            key in Assign(query) ==> RouteOf(host, requestUrl).extra[key] == Assign(query)[key]
  {
  }
}
