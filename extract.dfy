/**
 * Row extraction from one catalog page: `parseJsonLdBlocks` over parsed JSON-LD values and
 * `parseDomCards` over candidate cards. The HTML parser and CSS selector engine are not
 * modelled: a page is given as the text of its JSON-LD script blocks and, per card selector,
 * the attributes and texts the selector queries would read for each matched link.
 */
module Extract {
  import opened Wrappers
  import opened Text
  import opened JsValues
  import opened Ids
  import opened Records

  /** The message of the `TypeError` thrown when a property of `null` or `undefined` is read. */
  const ReadOfNullish := "Cannot read properties of null or undefined"
  /** The message of the `TypeError` thrown when `for ... of` meets a truthy non-iterable `@graph`. */
  const NotIterable := "@graph is not iterable"

  /** `sanitizeText(v)` of an arbitrary value: `String(v || '')`, collapsed and trimmed. */
  function SanitizeValue(v: Value): (r: string)
    ensures Clean(r)
    ensures !Truthy(v) ==> r == ""
  {
    var s := if Truthy(v) then ToStr(v) else "";
    SanitizeIsClean(s);
    Sanitize(s)
  }

  /** The genre field: an array is joined with ", " before sanitising. */
  function GenreText(v: Value): (r: string)
    ensures Clean(r)
  {
    SanitizeValue(if v.Arr? then Str(JoinStrings(ItemStrings(v.items), ", ")) else v)
  }

  /**
   * The row pushed for a JSON-LD `item`; `outer` is the list element it came from, whose
   * `name` and `url` are the fallbacks (for a top-level entry, `outer` is the entry itself).
   */
  function ItemRow(urls: UrlApi, pageUrl: string, item: Value, outer: Value): RawRow {
    RawRow(
      name := SanitizeValue(Or(Get(item, "name"), Get(outer, "name"))),
      url := Absolutize(urls, pageUrl, Or(Get(item, "url"), Get(outer, "url"))),
      poster := Absolutize(urls, pageUrl, Get(item, "image")),
      description := SanitizeValue(Get(item, "description")),
      releaseInfo := SanitizeValue(Or(Get(item, "datePublished"), Get(item, "releaseDate"))),
      genre := GenreText(Get(item, "genre")))
  }

  /** The text fields of an extracted row are in the normal form of `sanitizeText`. */
  predicate CleanRow(r: RawRow) {
    Clean(r.name) && Clean(r.description) && Clean(r.releaseInfo) && Clean(r.genre)
  }

  /** One of the `@type` values the extractor accepts. */
  predicate IsCreativeType(t: Value) {
    t == Str("Movie") || t == Str("TVSeries") || t == Str("CreativeWork")
  }

  /** `types.some(t => [...].includes(t))`. */
  predicate SomeCreativeType(types: seq<Value>) {
    types != [] && (IsCreativeType(types[0]) || SomeCreativeType(types[1..]))
  }

  /** `@type` (a single value or an array) names `Movie`, `TVSeries` or `CreativeWork`. */
  predicate IsCreativeWork(entry: Value) {
    var t := Get(entry, "@type");
    if t.Arr? then SomeCreativeType(t.items) else IsCreativeType(t)
  }

  /** Concatenates two partial results; the first failure wins. */
  function Chain(a: Result<seq<RawRow>, string>, b: Result<seq<RawRow>, string>): (r: Result<seq<RawRow>, string>)
    ensures r.Success? <==> a.Success? && b.Success?
    ensures r.Success? ==> r.value == a.value + b.value
    ensures a.Failure? ==> r == a
    ensures a == Success([]) ==> r == b
    ensures b == Success([]) ==> r == a
  {
    match a
    case Failure(e) => Failure(e)
    case Success(x) =>
      match b
      case Failure(e) => Failure(e)
      case Success(y) =>
        assert x == [] ==> x + y == y;
        assert y == [] ==> x + y == x;
        Success(x + y)
  }

  /** The rows of one element of `itemListElement`; reading `.item` of a nullish element throws. */
  function ElementRows(urls: UrlApi, pageUrl: string, el: Value): Result<seq<RawRow>, string> {
    if IsNullish(el) then Failure(ReadOfNullish)
    else
      var item := Or(Get(el, "item"), el);
      if IsObject(item) then Success([ItemRow(urls, pageUrl, item, el)]) else Success([])
  }

  function ListRows(urls: UrlApi, pageUrl: string, els: seq<Value>): Result<seq<RawRow>, string>
    decreases |els|
  {
    if els == [] then Success([])
    else Chain(ListRows(urls, pageUrl, els[..|els| - 1]), ElementRows(urls, pageUrl, els[|els| - 1]))
  }

  /** The row an entry contributes for itself: one when it is a creative work. */
  function OwnRows(urls: UrlApi, pageUrl: string, entry: Value): seq<RawRow> {
    if IsCreativeWork(entry) then [ItemRow(urls, pageUrl, entry, entry)] else []
  }

  /** The rows of one entry: its list elements first, then the entry itself. */
  function EntryRows(urls: UrlApi, pageUrl: string, entry: Value): Result<seq<RawRow>, string> {
    if !IsObject(entry) then Success([])
    else
      var list := Get(entry, "itemListElement");
      Chain(if list.Arr? then ListRows(urls, pageUrl, list.items) else Success([]), Success(OwnRows(urls, pageUrl, entry)))
  }

  function EntriesRows(urls: UrlApi, pageUrl: string, entries: seq<Value>): Result<seq<RawRow>, string>
    decreases |entries|
  {
    if entries == [] then Success([])
    else Chain(EntriesRows(urls, pageUrl, entries[..|entries| - 1]), EntryRows(urls, pageUrl, entries[|entries| - 1]))
  }

  /**
   * The entries of a parsed block: an array itself, else a truthy `@graph`, else the value alone.
   * A string `@graph` iterates its characters, none of which is an object, so it yields no entry.
   */
  function BlockEntries(parsed: Value): Result<seq<Value>, string> {
    if parsed.Arr? then Success(parsed.items)
    else if IsNullish(parsed) then Failure(ReadOfNullish)
    else
      var graph := Get(parsed, "@graph");
      if !Truthy(graph) then Success([parsed])
      else if graph.Arr? then Success(graph.items)
      else if graph.Str? then Success([])
      else Failure(NotIterable)
  }

  /** The rows of one script block; empty blocks and blocks `JSON.parse` rejects are skipped. */
  function BlockRows(urls: UrlApi, parseJson: string -> Option<Value>, pageUrl: string, raw: string)
    : Result<seq<RawRow>, string>
  {
    if raw == "" then Success([])
    else
      match parseJson(raw)
      case None => Success([])
      case Some(parsed) =>
        match BlockEntries(parsed)
        case Failure(e) => Failure(e)
        case Success(entries) => EntriesRows(urls, pageUrl, entries)
  }

  /** `parseJsonLdBlocks($, pageUrl)`: a failure is the `TypeError` that aborts the page. */
  function JsonLdRows(urls: UrlApi, parseJson: string -> Option<Value>, pageUrl: string, blocks: seq<string>)
    : Result<seq<RawRow>, string>
    decreases |blocks|
  {
    if blocks == [] then Success([])
    else Chain(JsonLdRows(urls, parseJson, pageUrl, blocks[..|blocks| - 1]),
               BlockRows(urls, parseJson, pageUrl, blocks[|blocks| - 1]))
  }

  lemma {:induction false} ListRowsFailure(urls: UrlApi, pageUrl: string, els: seq<Value>, i: nat)
    requires i <= |els| && ListRows(urls, pageUrl, els[..i]).Failure?
    ensures ListRows(urls, pageUrl, els) == ListRows(urls, pageUrl, els[..i])
    decreases |els| - i
  {
    if i < |els| {
      assert els[..i + 1][..i] == els[..i];
      ListRowsFailure(urls, pageUrl, els, i + 1);
    } else {
      assert els[..i] == els;
    }
  }

  lemma {:induction false} EntriesRowsFailure(urls: UrlApi, pageUrl: string, entries: seq<Value>, i: nat)
    requires i <= |entries| && EntriesRows(urls, pageUrl, entries[..i]).Failure?
    ensures EntriesRows(urls, pageUrl, entries) == EntriesRows(urls, pageUrl, entries[..i])
    decreases |entries| - i
  {
    if i < |entries| {
      assert entries[..i + 1][..i] == entries[..i];
      EntriesRowsFailure(urls, pageUrl, entries, i + 1);
    } else {
      assert entries[..i] == entries;
    }
  }

  lemma {:induction false} JsonLdRowsFailure(urls: UrlApi, parseJson: string -> Option<Value>, pageUrl: string,
                                             blocks: seq<string>, i: nat)
    requires i <= |blocks| && JsonLdRows(urls, parseJson, pageUrl, blocks[..i]).Failure?
    ensures JsonLdRows(urls, parseJson, pageUrl, blocks) == JsonLdRows(urls, parseJson, pageUrl, blocks[..i])
    decreases |blocks| - i
  {
    if i < |blocks| {
      assert blocks[..i + 1][..i] == blocks[..i];
      JsonLdRowsFailure(urls, parseJson, pageUrl, blocks, i + 1);
    } else {
      assert blocks[..i] == blocks;
    }
  }

  /** The innermost loop of `parseJsonLdBlocks`, over the elements of one `itemListElement` array. */
  method ListElementRows(urls: UrlApi, pageUrl: string, els: seq<Value>) returns (r: Result<seq<RawRow>, string>)
    ensures r == ListRows(urls, pageUrl, els)
  {
    var items: seq<RawRow> := [];
    var k := 0;
    while k < |els|
      invariant 0 <= k <= |els|
      invariant ListRows(urls, pageUrl, els[..k]).Success?
      invariant ListRows(urls, pageUrl, els[..k]).value == items
    {
      assert els[..k + 1][..k] == els[..k];
      var el := els[k];
      if IsNullish(el) {
        r := Failure(ReadOfNullish);
        ListRowsFailure(urls, pageUrl, els, k + 1);
        return;
      }
      var item := Or(Get(el, "item"), el);
      if IsObject(item) {
        items := items + [ItemRow(urls, pageUrl, item, el)];
      }
      k := k + 1;
    }
    assert els[..k] == els;
    r := Success(items);
  }

  /** The middle loop of `parseJsonLdBlocks`, over the entries of one block. */
  method EntryListRows(urls: UrlApi, pageUrl: string, entries: seq<Value>) returns (r: Result<seq<RawRow>, string>)
    ensures r == EntriesRows(urls, pageUrl, entries)
  {
    var items: seq<RawRow> := [];
    var e := 0;
    while e < |entries|
      invariant 0 <= e <= |entries|
      invariant EntriesRows(urls, pageUrl, entries[..e]) == Success(items)
    {
      var entry := entries[e];
      var got: seq<RawRow> := [];
      if IsObject(entry) {
        var list := Get(entry, "itemListElement");
        if list.Arr? {
          var listRows := ListElementRows(urls, pageUrl, list.items);
          if listRows.Failure? {
            r := Failure(listRows.error);
            EntriesRowsNext(urls, pageUrl, entries, e);
            EntriesRowsFailure(urls, pageUrl, entries, e + 1);
            return;
          }
          got := listRows.value;
        }
        if IsCreativeWork(entry) {
          got := got + [ItemRow(urls, pageUrl, entry, entry)];
        }
      }
      assert EntryRows(urls, pageUrl, entry) == Success(got);
      EntriesRowsStep(urls, pageUrl, entries, e, items, got);
      items := items + got;
      e := e + 1;
    }
    assert entries[..e] == entries;
    r := Success(items);
  }

  /** `parseJsonLdBlocks`: its outer loop over the script blocks, each parsed on its own. */
  method ParseJsonLdBlocks(urls: UrlApi, parseJson: string -> Option<Value>, pageUrl: string, blocks: seq<string>)
    returns (r: Result<seq<RawRow>, string>)
    ensures r == JsonLdRows(urls, parseJson, pageUrl, blocks)
  {
    var items: seq<RawRow> := [];
    var b := 0;
    while b < |blocks|
      invariant 0 <= b <= |blocks|
      invariant JsonLdRows(urls, parseJson, pageUrl, blocks[..b]).Success?
      invariant JsonLdRows(urls, parseJson, pageUrl, blocks[..b]).value == items
    {
      JsonLdRowsNext(urls, parseJson, pageUrl, blocks, b);
      var raw := blocks[b];
      var parsed := if raw == "" then None else parseJson(raw);
      if parsed.Some? {
        var arr := BlockEntries(parsed.value);
        if arr.Failure? {
          assert BlockRows(urls, parseJson, pageUrl, raw) == Failure(arr.error);
          r := Failure(arr.error);
          JsonLdRowsFailure(urls, parseJson, pageUrl, blocks, b + 1);
          return;
        }
        var rows := EntryListRows(urls, pageUrl, arr.value);
        assert BlockRows(urls, parseJson, pageUrl, raw) == rows;
        if rows.Failure? {
          r := Failure(rows.error);
          JsonLdRowsFailure(urls, parseJson, pageUrl, blocks, b + 1);
          return;
        }
        items := items + rows.value;
      } else {
        assert BlockRows(urls, parseJson, pageUrl, raw) == Success([]);
      }
      b := b + 1;
    }
    assert blocks[..b] == blocks;
    r := Success(items);
  }

  /** The rows of one more block. */
  lemma JsonLdRowsNext(urls: UrlApi, parseJson: string -> Option<Value>, pageUrl: string, blocks: seq<string>, b: nat)
    requires b < |blocks|
    ensures JsonLdRows(urls, parseJson, pageUrl, blocks[..b + 1]) ==
              Chain(JsonLdRows(urls, parseJson, pageUrl, blocks[..b]), BlockRows(urls, parseJson, pageUrl, blocks[b]))
  {
    assert blocks[..b + 1][..b] == blocks[..b];
  }

  /** The rows of one more entry. */
  lemma EntriesRowsNext(urls: UrlApi, pageUrl: string, entries: seq<Value>, e: nat)
    requires e < |entries|
    ensures EntriesRows(urls, pageUrl, entries[..e + 1]) ==
              Chain(EntriesRows(urls, pageUrl, entries[..e]), EntryRows(urls, pageUrl, entries[e]))
  {
    assert entries[..e + 1][..e] == entries[..e];
  }

  /** One more entry whose rows are `got`. */
  lemma EntriesRowsStep(urls: UrlApi, pageUrl: string, entries: seq<Value>, e: nat, items: seq<RawRow>, got: seq<RawRow>)
    requires e < |entries|
    requires EntriesRows(urls, pageUrl, entries[..e]) == Success(items)
    requires EntryRows(urls, pageUrl, entries[e]) == Success(got)
    ensures EntriesRows(urls, pageUrl, entries[..e + 1]) == Success(items + got)
  {
    EntriesRowsNext(urls, pageUrl, entries, e);
  }

  lemma ItemRowClean(urls: UrlApi, pageUrl: string, item: Value, outer: Value)
    ensures CleanRow(ItemRow(urls, pageUrl, item, outer))
  {
  }

  lemma ElementRowsClean(urls: UrlApi, pageUrl: string, el: Value)
    requires !IsNullish(el)
    ensures ElementRows(urls, pageUrl, el).Success?
    ensures forall k :: 0 <= k < |ElementRows(urls, pageUrl, el).value| ==> CleanRow(ElementRows(urls, pageUrl, el).value[k])
  {
    var item := Or(Get(el, "item"), el);
    if IsObject(item) {
      ItemRowClean(urls, pageUrl, item, el);
      assert ElementRows(urls, pageUrl, el).value == [ItemRow(urls, pageUrl, item, el)];
    } else {
      assert ElementRows(urls, pageUrl, el).value == [];
    }
  }

  /** If every row of two lists is clean, so is every row of their concatenation. */
  lemma AppendClean(xs: seq<RawRow>, ys: seq<RawRow>)
    requires forall k :: 0 <= k < |xs| ==> CleanRow(xs[k])
    requires forall k :: 0 <= k < |ys| ==> CleanRow(ys[k])
    ensures forall k :: 0 <= k < |xs + ys| ==> CleanRow((xs + ys)[k])
  {
    forall k | 0 <= k < |xs + ys| ensures CleanRow((xs + ys)[k]) {
      if k < |xs| {
        assert (xs + ys)[k] == xs[k];
      } else {
        assert (xs + ys)[k] == ys[k - |xs|];
      }
    }
  }

  lemma {:induction false} ListRowsClean(urls: UrlApi, pageUrl: string, els: seq<Value>)
    requires ListRows(urls, pageUrl, els).Success?
    ensures forall k :: 0 <= k < |ListRows(urls, pageUrl, els).value| ==> CleanRow(ListRows(urls, pageUrl, els).value[k])
    decreases |els|
  {
    if els != [] {
      var init := els[..|els| - 1];
      var el := els[|els| - 1];
      if !IsNullish(el) {
        ListRowsClean(urls, pageUrl, init);
        ElementRowsClean(urls, pageUrl, el);
        AppendClean(ListRows(urls, pageUrl, init).value, ElementRows(urls, pageUrl, el).value);
      }
    }
  }

  lemma OwnRowsClean(urls: UrlApi, pageUrl: string, entry: Value)
    ensures forall k :: 0 <= k < |OwnRows(urls, pageUrl, entry)| ==> CleanRow(OwnRows(urls, pageUrl, entry)[k])
  {
    ItemRowClean(urls, pageUrl, entry, entry);
  }

  lemma EntryRowsClean(urls: UrlApi, pageUrl: string, entry: Value)
    requires EntryRows(urls, pageUrl, entry).Success?
    ensures forall k :: 0 <= k < |EntryRows(urls, pageUrl, entry).value| ==> CleanRow(EntryRows(urls, pageUrl, entry).value[k])
  {
    if IsObject(entry) {
      var list := Get(entry, "itemListElement");
      var listRows := if list.Arr? then ListRows(urls, pageUrl, list.items) else Success([]);
      if list.Arr? {
        ListRowsClean(urls, pageUrl, list.items);
      }
      OwnRowsClean(urls, pageUrl, entry);
      AppendClean(listRows.value, OwnRows(urls, pageUrl, entry));
    }
  }

  lemma {:induction false} EntriesRowsClean(urls: UrlApi, pageUrl: string, entries: seq<Value>)
    requires EntriesRows(urls, pageUrl, entries).Success?
    ensures forall k :: 0 <= k < |EntriesRows(urls, pageUrl, entries).value| ==>
              CleanRow(EntriesRows(urls, pageUrl, entries).value[k])
    decreases |entries|
  {
    if entries != [] {
      var init := entries[..|entries| - 1];
      var entry := entries[|entries| - 1];
      EntriesRowsClean(urls, pageUrl, init);
      EntryRowsClean(urls, pageUrl, entry);
      AppendClean(EntriesRows(urls, pageUrl, init).value, EntryRows(urls, pageUrl, entry).value);
    }
  }

  lemma BlockRowsClean(urls: UrlApi, parseJson: string -> Option<Value>, pageUrl: string, raw: string)
    requires BlockRows(urls, parseJson, pageUrl, raw).Success?
    ensures forall k :: 0 <= k < |BlockRows(urls, parseJson, pageUrl, raw).value| ==>
              CleanRow(BlockRows(urls, parseJson, pageUrl, raw).value[k])
  {
    if raw != "" && parseJson(raw).Some? && BlockEntries(parseJson(raw).value).Success? {
      EntriesRowsClean(urls, pageUrl, BlockEntries(parseJson(raw).value).value);
    }
  }

  /** Every text field of a JSON-LD row is sanitised: collapsed whitespace, nothing to trim. */
  lemma {:induction false} JsonLdRowsClean(urls: UrlApi, parseJson: string -> Option<Value>, pageUrl: string,
                                           blocks: seq<string>)
    requires JsonLdRows(urls, parseJson, pageUrl, blocks).Success?
    ensures forall k :: 0 <= k < |JsonLdRows(urls, parseJson, pageUrl, blocks).value| ==>
              CleanRow(JsonLdRows(urls, parseJson, pageUrl, blocks).value[k])
    decreases |blocks|
  {
    if blocks != [] {
      var init := blocks[..|blocks| - 1];
      var raw := blocks[|blocks| - 1];
      JsonLdRowsClean(urls, parseJson, pageUrl, init);
      BlockRowsClean(urls, parseJson, pageUrl, raw);
      AppendClean(JsonLdRows(urls, parseJson, pageUrl, init).value, BlockRows(urls, parseJson, pageUrl, raw).value);
    }
  }

  /**
   * The shapes of a parsed block that abort the page: a `null` document, a truthy `@graph`
   * that is neither an array nor a string, and a nullish element of an `itemListElement` array.
   */
  lemma BlockFailures(urls: UrlApi, parseJson: string -> Option<Value>, pageUrl: string, raw: string)
    ensures raw != "" && parseJson(raw) == Some(Null) ==> BlockRows(urls, parseJson, pageUrl, raw) == Failure(ReadOfNullish)
    ensures raw != "" && parseJson(raw).Some? && parseJson(raw).value.Obj?
            && Truthy(Get(parseJson(raw).value, "@graph"))
            && !Get(parseJson(raw).value, "@graph").Arr? && !Get(parseJson(raw).value, "@graph").Str?
            ==> BlockRows(urls, parseJson, pageUrl, raw) == Failure(NotIterable)
  {
  }

  /** A list element whose `item` is absent contributes a row read from the element itself. */
  lemma ElementWithoutItem(urls: UrlApi, pageUrl: string, fields: map<string, Value>)
    requires "item" !in fields
    ensures ElementRows(urls, pageUrl, Obj(fields)) == Success([ItemRow(urls, pageUrl, Obj(fields), Obj(fields))])
  {
    assert Or(Get(Obj(fields), "item"), Obj(fields)) == Obj(fields);
  }

  /** One object typed `Movie`, without a list and without a graph, yields exactly its own row. */
  lemma SingleMovieBlock(urls: UrlApi, parseJson: string -> Option<Value>, pageUrl: string, raw: string,
                         fields: map<string, Value>)
    requires raw != "" && parseJson(raw) == Some(Obj(fields))
    requires "@graph" !in fields && "itemListElement" !in fields
    requires "@type" in fields && fields["@type"] == Str("Movie")
    ensures BlockRows(urls, parseJson, pageUrl, raw) == Success([ItemRow(urls, pageUrl, Obj(fields), Obj(fields))])
  {
    var entry := Obj(fields);
    assert BlockEntries(Obj(fields)) == Success([entry]);
    assert IsCreativeWork(entry);
    var own := [ItemRow(urls, pageUrl, entry, entry)];
    assert OwnRows(urls, pageUrl, entry) == own;
    assert !Get(entry, "itemListElement").Arr?;
    assert EntryRows(urls, pageUrl, entry) == Success(own);
    assert [entry][..0] == [];
    assert EntriesRows(urls, pageUrl, [entry]) == Success(own);
  }

  // ---------------------------------------------------------------------------------------
  // DOM cards

  /** The four attributes of an `<img>` the poster lookup reads ("" when absent). */
  datatype Image = Image(src: string, dataSrc: string, dataOriginal: string, dataLazy: string)

  /**
   * A link matched by a card selector, with what the extractor reads around it: the link's
   * `href`, `title`, `aria-label` and text, and from its closest card container the first
   * heading's text, the images, the first description-like element's text, and the
   * `<time>` attribute/text and the first year/date element's text ("" when absent).
   */
  datatype Card = Card(href: string, title: string, ariaLabel: string, heading: string, text: string,
                       images: seq<Image>, descriptionText: string,
                       timeDatetime: string, timeText: string, dateText: string)

  /** The selectors are tried in order and stop after the one that brings the list to this size. */
  const DomCap := 350

  /** `src || data-src || data-original || data-lazy`. */
  function ImageSource(img: Image): string {
    OrText(img.src, OrText(img.dataSrc, OrText(img.dataOriginal, img.dataLazy)))
  }

  function ImageCandidate(urls: UrlApi, pageUrl: string, img: Image): string {
    Absolutize(urls, pageUrl, Str(ImageSource(img)))
  }

  /** The first image whose absolutised source is a poster URL; "" (`null`) when none is. */
  function FirstPoster(urls: UrlApi, pageUrl: string, imgs: seq<Image>): (r: string)
    ensures r == "" || IsPosterUrl(r)
  {
    if imgs == [] then ""
    else
      var c := ImageCandidate(urls, pageUrl, imgs[0]);
      if IsPosterUrl(c) then c else FirstPoster(urls, pageUrl, imgs[1..])
  }

  /** The poster loop of `parseDomCards`, which stops at the first accepted candidate. */
  method PickPoster(urls: UrlApi, pageUrl: string, imgs: seq<Image>) returns (poster: string)
    ensures poster == FirstPoster(urls, pageUrl, imgs)
    ensures poster != "" ==> exists i | 0 <= i < |imgs| :: poster == ImageCandidate(urls, pageUrl, imgs[i])
  {
    poster := "";
    var i := 0;
    while i < |imgs|
      invariant 0 <= i <= |imgs|
      invariant FirstPoster(urls, pageUrl, imgs) == FirstPoster(urls, pageUrl, imgs[i..])
    {
      var candidate := ImageCandidate(urls, pageUrl, imgs[i]);
      if IsPosterUrl(candidate) {
        poster := candidate;
        break;
      }
      assert imgs[i..][1..] == imgs[i + 1..];
      i := i + 1;
    }
  }

  /** The row a card yields, if its link is a details page and its name has two characters or more. */
  function CardRow(urls: UrlApi, pageUrl: string, c: Card): Option<RawRow> {
    var canonical := Absolutize(urls, pageUrl, Str(c.href));
    if canonical == "" || !Contains(canonical, "/adatlap/") then None
    else
      var name := Sanitize(OrText(c.title, OrText(c.ariaLabel, OrText(c.heading, c.text))));
      if name == "" || |name| < 2 then None
      else
        Some(RawRow(
          name := name,
          url := canonical,
          poster := FirstPoster(urls, pageUrl, c.images),
          description := Sanitize(c.descriptionText),
          releaseInfo := Sanitize(OrText(c.timeDatetime, OrText(c.timeText, c.dateText))),
          genre := ""))
  }

  function CardRows(urls: UrlApi, pageUrl: string, c: Card): seq<RawRow> {
    match CardRow(urls, pageUrl, c)
    case None => []
    case Some(row) => [row]
  }

  function GroupRows(urls: UrlApi, pageUrl: string, cards: seq<Card>): seq<RawRow>
    decreases |cards|
  {
    if cards == [] then []
    else GroupRows(urls, pageUrl, cards[..|cards| - 1]) + CardRows(urls, pageUrl, cards[|cards| - 1])
  }

  /** `parseDomCards($, pageUrl)`, one card list per selector. */
  function DomRows(urls: UrlApi, pageUrl: string, groups: seq<seq<Card>>): seq<RawRow>
    decreases |groups|
  {
    if groups == [] then []
    else
      var before := DomRows(urls, pageUrl, groups[..|groups| - 1]);
      if |before| >= DomCap then before else before + GroupRows(urls, pageUrl, groups[|groups| - 1])
  }

  /** Once the list has reached the cap after some selector, later selectors add nothing. */
  lemma {:induction false} DomCapStops(urls: UrlApi, pageUrl: string, groups: seq<seq<Card>>, i: nat)
    requires i <= |groups| && |DomRows(urls, pageUrl, groups[..i])| >= DomCap
    ensures DomRows(urls, pageUrl, groups) == DomRows(urls, pageUrl, groups[..i])
    decreases |groups| - i
  {
    if i < |groups| {
      assert groups[..i + 1][..i] == groups[..i];
      DomCapStops(urls, pageUrl, groups, i + 1);
    } else {
      assert groups[..i] == groups;
    }
  }

  /** The body of the per-card callback of `parseDomCards`. */
  method CardToRow(urls: UrlApi, pageUrl: string, card: Card) returns (row: Option<RawRow>)
    ensures row == CardRow(urls, pageUrl, card)
  {
    var canonical := Absolutize(urls, pageUrl, Str(card.href));
    if canonical == "" || !Contains(canonical, "/adatlap/") {
      return None;
    }
    var name := Sanitize(OrText(card.title, OrText(card.ariaLabel, OrText(card.heading, card.text))));
    if name == "" || |name| < 2 {
      return None;
    }
    var poster := PickPoster(urls, pageUrl, card.images);
    row := Some(RawRow(
      name := name,
      url := canonical,
      poster := poster,
      description := Sanitize(card.descriptionText),
      releaseInfo := Sanitize(OrText(card.timeDatetime, OrText(card.timeText, card.dateText))),
      genre := ""));
  }

  /** The inner loop of `parseDomCards`, over the links one selector matched. */
  method SelectorRows(urls: UrlApi, pageUrl: string, cards: seq<Card>) returns (rows: seq<RawRow>)
    ensures rows == GroupRows(urls, pageUrl, cards)
  {
    rows := [];
    var j := 0;
    while j < |cards|
      invariant 0 <= j <= |cards|
      invariant rows == GroupRows(urls, pageUrl, cards[..j])
    {
      assert cards[..j + 1][..j] == cards[..j];
      var row := CardToRow(urls, pageUrl, cards[j]);
      if row.Some? {
        rows := rows + [row.value];
      }
      j := j + 1;
    }
    assert cards[..j] == cards;
  }

  /** The loops of `parseDomCards`: each selector's matches in order, then the cap test. */
  method ParseDomCards(urls: UrlApi, pageUrl: string, groups: seq<seq<Card>>) returns (items: seq<RawRow>)
    ensures items == DomRows(urls, pageUrl, groups)
  {
    items := [];
    var s := 0;
    while s < |groups|
      invariant 0 <= s <= |groups|
      invariant items == DomRows(urls, pageUrl, groups[..s])
      invariant |items| < DomCap || s == 0
    {
      assert groups[..s + 1][..s] == groups[..s];
      var rows := SelectorRows(urls, pageUrl, groups[s]);
      items := items + rows;
      s := s + 1;
      if |items| >= DomCap {
        DomCapStops(urls, pageUrl, groups, s);
        return;
      }
    }
    assert groups[..s] == groups;
  }

  /** What every card row satisfies. */
  predicate DomRowShape(r: RawRow) {
    && Contains(r.url, "/adatlap/")
    && |r.name| >= 2 && Clean(r.name)
    && (r.poster == "" || IsPosterUrl(r.poster))
    && Clean(r.description) && Clean(r.releaseInfo)
    && r.genre == ""
  }

  lemma CardRowsShape(urls: UrlApi, pageUrl: string, c: Card)
    ensures forall k :: 0 <= k < |CardRows(urls, pageUrl, c)| ==> DomRowShape(CardRows(urls, pageUrl, c)[k])
  {
    SanitizeIsClean(OrText(c.title, OrText(c.ariaLabel, OrText(c.heading, c.text))));
    SanitizeIsClean(c.descriptionText);
    SanitizeIsClean(OrText(c.timeDatetime, OrText(c.timeText, c.dateText)));
  }

  lemma AppendShape(xs: seq<RawRow>, ys: seq<RawRow>)
    requires forall k :: 0 <= k < |xs| ==> DomRowShape(xs[k])
    requires forall k :: 0 <= k < |ys| ==> DomRowShape(ys[k])
    ensures forall k :: 0 <= k < |xs + ys| ==> DomRowShape((xs + ys)[k])
  {
    forall k | 0 <= k < |xs + ys| ensures DomRowShape((xs + ys)[k]) {
      if k < |xs| {
        assert (xs + ys)[k] == xs[k];
      } else {
        assert (xs + ys)[k] == ys[k - |xs|];
      }
    }
  }

  lemma {:induction false} GroupRowsShape(urls: UrlApi, pageUrl: string, cards: seq<Card>)
    ensures forall k :: 0 <= k < |GroupRows(urls, pageUrl, cards)| ==> DomRowShape(GroupRows(urls, pageUrl, cards)[k])
    decreases |cards|
  {
    if cards != [] {
      GroupRowsShape(urls, pageUrl, cards[..|cards| - 1]);
      CardRowsShape(urls, pageUrl, cards[|cards| - 1]);
      AppendShape(GroupRows(urls, pageUrl, cards[..|cards| - 1]), CardRows(urls, pageUrl, cards[|cards| - 1]));
    }
  }

  /**
   * Every card row links to a details page (`/adatlap/`), has a sanitised name of two or more
   * characters, a poster that is absent or a poster URL, sanitised texts and no genre.
   */
  lemma {:induction false} DomRowsShape(urls: UrlApi, pageUrl: string, groups: seq<seq<Card>>)
    ensures forall k :: 0 <= k < |DomRows(urls, pageUrl, groups)| ==> DomRowShape(DomRows(urls, pageUrl, groups)[k])
    decreases |groups|
  {
    if groups != [] {
      var pre := DomRows(urls, pageUrl, groups[..|groups| - 1]);
      var more := GroupRows(urls, pageUrl, groups[|groups| - 1]);
      DomRowsShape(urls, pageUrl, groups[..|groups| - 1]);
      GroupRowsShape(urls, pageUrl, groups[|groups| - 1]);
      AppendShape(pre, more);
    }
  }

  /** A card yields a row exactly when its link is a details page and its name is long enough. */
  lemma CardRowIff(urls: UrlApi, pageUrl: string, c: Card)
    ensures var canonical := Absolutize(urls, pageUrl, Str(c.href));
            var name := Sanitize(OrText(c.title, OrText(c.ariaLabel, OrText(c.heading, c.text))));
            CardRow(urls, pageUrl, c).Some? <==> canonical != "" && Contains(canonical, "/adatlap/") && |name| >= 2
  {
  }
}
