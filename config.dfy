/**
 * The user configuration carried in the install URL: which sources are enabled, normalised
 * from arbitrary JSON and packed as base64url JSON. `JSON.stringify`, `JSON.parse` and the
 * base64url/UTF-8 conversions of `Buffer` are parameters (`Codec`).
 */
module Config {
  import opened Wrappers
  import opened JsValues

  /** `{ sources: { mafab, porthu } }`. */
  datatype Settings = Settings(mafab: bool, porthu: bool)

  /** `defaultConfig()`. */
  const Default := Settings(true, false)

  /** The object form of the settings, as `normalizeConfig` builds it. */
  function AsValue(c: Settings): Value {
    Obj(map["sources" := Obj(map["mafab" := Bool(c.mafab), "porthu" := Bool(c.porthu)])])
  }

  /** `input?.sources?.<name>`. */
  function SourceFlag(input: Value, name: string): Value {
    Get(Get(input, "sources"), name)
  }

  /** One flag: the default when the field is `undefined`, else its truthiness. */
  function FlagOr(v: Value, default: bool): bool {
    if v.Undefined? then default else Truthy(v)
  }

  /** `normalizeConfig(input)`. */
  function Normalize(input: Value): (r: Settings)
    ensures !IsObject(Get(input, "sources")) ==> r == Default
  {
    Settings(FlagOr(SourceFlag(input, "mafab"), Default.mafab), FlagOr(SourceFlag(input, "porthu"), Default.porthu))
  }

  /**
   * The library calls: `JSON.stringify`, `JSON.parse` (None when it throws),
   * `Buffer.from(s, 'utf8').toString('base64url')` and `Buffer.from(t, 'base64url').toString('utf8')`
   * (which never throws: invalid input decodes to some string).
   */
  datatype Codec = Codec(stringify: Value -> string, parse: string -> Option<Value>,
                         toBase64Url: string -> string, fromBase64Url: string -> string)

  /** The properties of the libraries the round trip relies on. */
  ghost predicate Lawful(codec: Codec) {
    && (forall c: Settings :: codec.parse(codec.stringify(AsValue(c))) == Some(AsValue(c)))
    && (forall c: Settings :: codec.stringify(AsValue(c)) != "")
    && (forall s :: codec.fromBase64Url(codec.toBase64Url(s)) == s)
    && codec.fromBase64Url("") == ""
  }

  /** `encodeConfig(config)`. */
  function Encode(codec: Codec, config: Value): string {
    codec.toBase64Url(codec.stringify(AsValue(Normalize(config))))
  }

  /** `decodeConfig(token)`: the defaults for an empty token or one whose JSON does not parse. */
  function Decode(codec: Codec, token: string): (r: Settings)
    ensures token == "" ==> r == Default
    ensures token != "" && codec.parse(codec.fromBase64Url(token)).None? ==> r == Default
  {
    if token == "" then Default
    else
      match codec.parse(codec.fromBase64Url(token))
      case None => Default
      case Some(v) => Normalize(v)
  }

  /**
   * Inside a `sources` object each flag is read on its own: a missing (or `undefined`) flag
   * takes its default, `mafab` on and `porthu` off, and a present one is coerced by truthiness.
   */
  lemma NormalizeFlags(input: Value)
    ensures Get(input, "sources").Obj? ==>
              var f := Get(input, "sources").fields;
              var r := Normalize(input);
              && ("mafab" !in f || f["mafab"].Undefined? ==> r.mafab)
              && ("mafab" in f && !f["mafab"].Undefined? ==> r.mafab == Truthy(f["mafab"]))
              && ("porthu" !in f || f["porthu"].Undefined? ==> !r.porthu)
              && ("porthu" in f && !f["porthu"].Undefined? ==> r.porthu == Truthy(f["porthu"]))
  {
  }

  /** Two sample inputs: a lone `porthu: true` keeps the `mafab` default, and `mafab: 0` turns it off. */
  lemma NormalizeSamples()
    ensures Normalize(Obj(map["sources" := Obj(map["porthu" := Bool(true)])])) == Settings(true, true)
    ensures Normalize(Obj(map["sources" := Obj(map["mafab" := Num(0)])])) == Settings(false, false)
  {
    NormalizeFlags(Obj(map["sources" := Obj(map["porthu" := Bool(true)])]));
    NormalizeFlags(Obj(map["sources" := Obj(map["mafab" := Num(0)])]));
  }

  /** Normalising the object form of settings gives those settings back. */
  lemma NormalizeAsValue(c: Settings)
    ensures Normalize(AsValue(c)) == c
  {
    assert SourceFlag(AsValue(c), "mafab") == Bool(c.mafab);
    assert SourceFlag(AsValue(c), "porthu") == Bool(c.porthu);
  }

  /** Normalising is idempotent. */
  lemma NormalizeIdempotent(input: Value)
    ensures Normalize(AsValue(Normalize(input))) == Normalize(input)
  {
    NormalizeAsValue(Normalize(input));
  }

  /** Decoding an encoded configuration gives its normalised settings. */
  lemma DecodeEncode(codec: Codec, config: Value)
    requires Lawful(codec)
    ensures Decode(codec, Encode(codec, config)) == Normalize(config)
  {
    var c := Normalize(config);
    var json := codec.stringify(AsValue(c));
    var token := codec.toBase64Url(json);
    assert codec.fromBase64Url(token) == json;
    assert token != "" by {
      assert json != "";
    }
    NormalizeAsValue(c);
  }

  /** A token decodes to settings whose encoding decodes to the same settings. */
  lemma DecodeStable(codec: Codec, token: string)
    requires Lawful(codec)
    ensures Decode(codec, Encode(codec, AsValue(Decode(codec, token)))) == Decode(codec, token)
  {
    DecodeEncode(codec, AsValue(Decode(codec, token)));
    NormalizeAsValue(Decode(codec, token));
  }
}
