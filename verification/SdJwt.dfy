/** One SD-JWT: its parts, the key it verifies under, its resolved claims and its key-binding record, as build and verify
    both compute them. Library calls are arbitrary functions. */
module SdJwt {
  import opened Octets
  import opened Values
  import opened Base64
  import opened ClosedObjects
  import opened Jwk
  import Resolution

  /** What a JWKS endpoint gave for a header. */
  datatype Fetched = Fetched(jwk: Json, digest: string, at: string)

  /** The calls this code makes. `load`: UTF-8 and the strict reader of a token segment, under one reading of integral
      floats; `sha`: SHA-256 of ASCII text; `blank`: the characters strip() removes; `es256`: the signature check for a key
      and 64 bytes, None for a key off the curve; `leaf`: the key of the first certificate of a chain; `fingerprint`: the
      SHA-256 of a certificate, in hexadecimal; `fetch`: the JWKS choice, None when refused. */
  datatype Library = Library(
    load: Bytes -> Option<Json>,
    sha: string -> Bytes,
    blank: char -> bool,
    es256: (string, string, string, Bytes) -> Option<bool>,
    leaf: Json -> Option<Json>,
    fingerprint: Bytes -> string,
    fetch: (string, Json) -> Option<Fetched>)

  // ------------------------------------------------------------------ the parts

  function TrimLeft(lib: Library, s: string): string {
    if s != "" && lib.blank(s[0]) then TrimLeft(lib, s[1..]) else s
  }

  function TrimRight(lib: Library, s: string): string {
    if s != "" && lib.blank(s[|s| - 1]) then TrimRight(lib, s[..|s| - 1]) else s
  }

  /** str.strip. */
  function Trim(lib: Library, s: string): string { TrimRight(lib, TrimLeft(lib, s)) }

  /** str.split on one character. */
  function Split(s: string, sep: char): (parts: seq<string>)
    ensures parts != []
  {
    if s == "" then [""]
    else
      var rest := Split(s[1..], sep);
      if s[0] == sep then [""] + rest else [[s[0]] + rest[0]] + rest[1..]
  }

  function NonEmpty(ss: seq<string>): seq<string> {
    if ss == [] then [] else (if ss[0] == "" then [] else [ss[0]]) + NonEmpty(ss[1..])
  }

  datatype Parsed = Parsed(compact: string, header: Json, payload: Json, signature: Bytes, signingInput: string,
                           disclosures: seq<string>, kb: string)

  function LoadSegment(lib: Library, seg: string): Option<Json> {
    match B64UrlDecode(seg) case None => None case Some(b) => lib.load(b)
  }

  /** parse_sd_jwt. */
  function Parse(lib: Library, text: string): Option<Parsed> {
    var compact := Trim(lib, text);
    var parts := Split(compact, '~');
    var seg := Split(parts[0], '.');
    if |seg| != 3 || LoadSegment(lib, seg[0]).None? || LoadSegment(lib, seg[1]).None? || B64UrlDecode(seg[2]).None? then None
    else
      Some(Parsed(compact, LoadSegment(lib, seg[0]).value, LoadSegment(lib, seg[1]).value, B64UrlDecode(seg[2]).value,
                  seg[0] + "." + seg[1],
                  if |parts| == 1 then [] else NonEmpty(parts[1..|parts| - 1]),
                  if |parts| == 1 then "" else parts[|parts| - 1]))
  }

  function DecodeDisclosure(lib: Library): string -> Option<Json> { (d: string) => LoadSegment(lib, d) }

  function DigestOf(lib: Library): string -> string { (d: string) => Encode(UrlSafe, lib.sha(d)) }

  function CodecOf(lib: Library): Resolution.Codec { Resolution.Codec(DecodeDisclosure(lib), DigestOf(lib)) }

  /** The claims of a token whose payload is an object. */
  function ResolvedClaims(lib: Library, p: Parsed): Option<Json> {
    if !p.payload.Obj? then None
    else
      match Resolution.Resolve(CodecOf(lib), p.payload.members, p.disclosures)
      case Ok((claims, _)) => Some(claims)
      case Err(_) => None
  }

  // ------------------------------------------------------------------ the key

  function Coordinate(v: Option<Json>): Option<string> {
    match v
    case Some(Str(s)) => if B64UrlDecode(s).Some? && |B64UrlDecode(s).value| == 32 then Some(s) else None
    case _ => None
  }

  /** verify_es256: None when it raises. */
  function Es256(lib: Library, input: string, signature: Bytes, jwk: Json): Option<bool> {
    if |signature| != 64 || Field(jwk, KTY) != Some(Str("EC")) || Field(jwk, CRV) != Some(Str("P-256")) then None
    else
      match (Coordinate(Field(jwk, X)), Coordinate(Field(jwk, Y)))
      case (Some(x), Some(y)) => lib.es256(x, y, input, signature)
      case _ => None
  }

  /** The signature of the token itself. */
  function VerifyEs256(lib: Library, p: Parsed, jwk: Json): Option<bool> { Es256(lib, p.signingInput, p.signature, jwk) }

  const SUPPLIED: string := "supplied"
  const FROM_X5C: string := "x5c_header"
  const FROM_JWK: string := "jwk_header"
  const FETCHED: string := "jwks_fetched"
  const CLASSES: seq<string> := [SUPPLIED, FROM_X5C, FROM_JWK, FETCHED]

  predicate Chain(v: Json) { v.Arr? && v.items != [] && v.items[0].Str? }

  /** The header jwk is that key. */
  predicate JwkNames(header: Json, jwk: Json) { Field(header, JWK).Some? && SameKey(Field(header, JWK).value, jwk) }

  /** The first certificate of the header x5c is for that key. */
  predicate ChainNames(lib: Library, header: Json, jwk: Json) {
    Field(header, X5C).Some? &&
    var x5c := Field(header, X5C).value;
    Chain(x5c) && lib.leaf(x5c).Some? && SameKey(lib.leaf(x5c).value, jwk)
  }

  /** A header key that is not the source of the snapshotted one must name the same key. */
  predicate Reconciles(lib: Library, header: Json, jwk: Json, cls: string) {
    && (Field(header, JWK).Some? && cls != FROM_JWK ==> JwkNames(header, jwk))
    && (Field(header, X5C).Some? && cls != FROM_X5C ==> ChainNames(lib, header, jwk))
  }

  /** A class derived from the header is reconciled with it. */
  predicate ProvenanceHolds(lib: Library, header: Json, jwk: Json, cls: string) {
    (cls == FROM_JWK ==> JwkNames(header, jwk)) && (cls == FROM_X5C ==> ChainNames(lib, header, jwk))
  }

  const JWK: string := "jwk"
  const X5C: string := "x5c"
  const PROVENANCE: string := "provenance_class"

  const KEY: Schema :=
    [Key(JWK, AnObject, true), Key(PROVENANCE, AString, true), Key("note", AString, false),
     Key("x5c_chain_sha256", Strings, false), Key("jwks_url", AString, false), Key("jwks_sha256", AString, false),
     Key("fetched_utc", AString, false)]

  const JWK_COPY: Schema := [Key(KTY, Anything, false), Key(CRV, Anything, false), Key(X, Anything, false), Key(Y, Anything, false)]

  /** The four members of a header jwk that are copied, those it has. */
  function Picked(jwk: Json): Json {
    Obj(Fill(JWK_COPY, [Field(jwk, KTY), Field(jwk, CRV), Field(jwk, X), Field(jwk, Y)]))
  }

  function KeyObject(jwk: Json, cls: string, chain: Option<Json>, url: Option<Json>, digest: Option<Json>, at: Option<Json>): Json {
    Obj(Fill(KEY, [Some(jwk), Some(Str(cls)), Some(Str("how the key was obtained")), chain, url, digest, at]))
  }

  datatype KeySource = FromHeader | Supplied(jwk: Json) | FromUrl(url: string)

  predicate StrictChain(x5c: Json) {
    x5c.Arr? && 0 < |x5c.items| <= 10 && forall i :: 0 <= i < |x5c.items| ==> x5c.items[i].Str? && Unb64(x5c.items[i].s).Some?
  }

  function Fingerprints(lib: Library, x5c: Json): Json
    requires StrictChain(x5c)
  {
    Arr(seq(|x5c.items|, i requires 0 <= i < |x5c.items| => Str(lib.fingerprint(Unb64(x5c.items[i].s).value))))
  }

  /** _snapshot_key: the key the caller names, else the chain of the header, else its jwk. */
  function SnapshotKey(lib: Library, header: Json, source: KeySource): Option<Json> {
    if Field(header, "alg") != Some(Str("ES256")) then None
    else
      match source
      case Supplied(jwk) => if jwk.Obj? && jwk.members != [] then Some(KeyObject(jwk, SUPPLIED, None, None, None, None)) else None
      case FromUrl(url) =>
        if Field(header, "kid").Some? && !Field(header, "kid").value.Str? then None
        else
          (match lib.fetch(url, header)
           case None => None
           case Some(f) => Some(KeyObject(f.jwk, FETCHED, None, Some(Str(url)), Some(Str(f.digest)), Some(Str(f.at)))))
      case FromHeader =>
        match Field(header, X5C)
        case Some(x5c) =>
          if !StrictChain(x5c) || lib.leaf(x5c).None? then None
          else Some(KeyObject(lib.leaf(x5c).value, FROM_X5C, Some(Fingerprints(lib, x5c)), None, None, None))
        case None =>
          match Field(header, JWK)
          case Some(jwk) => if jwk.Obj? then Some(KeyObject(Picked(jwk), FROM_JWK, None, None, None, None)) else None
          case None => None
  }

  // ------------------------------------------------------------------ the key-binding JWT

  /** A key-binding JWT that reads: with an unknown holder key, or checked. */
  datatype KbRead = HolderKeyMissing(claims: Json) | HolderKeyFound(signatureOk: bool, sdHashOk: bool, claims: Json)

  datatype Kb = NoKb | WithKb(read: KbRead)

  const CNF: string := "cnf"
  const IAT: string := "iat"
  const AUD: string := "aud"
  const NONCE: string := "nonce"
  const SD_HASH: string := "sd_hash"

  predicate KbHeaderOk(header: Json) {
    header.Obj? && Field(header, "alg") == Some(Str("ES256")) && Field(header, "typ") == Some(Str("kb+jwt"))
    && Field(header, "crit").None?
  }

  predicate IsString(v: Option<Json>) { v.Some? && v.value.Str? }

  /** The four required claims have their types; their values are recorded and not judged. */
  predicate KbClaimsOk(payload: Json) {
    && payload.Obj? && Field(payload, IAT).Some? && Field(payload, IAT).value.Num?
    && IsString(Field(payload, AUD)) && IsString(Field(payload, NONCE)) && IsString(Field(payload, SD_HASH))
  }

  const RECORDED_CLAIMS: Schema := [Key(AUD, AString, true), Key(NONCE, AString, true), Key(IAT, Anything, true)]

  function Recorded(payload: Json): Json {
    Obj(Fill(RECORDED_CLAIMS, [Field(payload, AUD), Field(payload, NONCE), Field(payload, IAT)]))
  }

  /** What stands before the last `sep`: rsplit(sep, 1)[0]. */
  function BeforeLast(s: string, sep: char): string {
    if sep !in s then s
    else if s[|s| - 1] == sep then s[..|s| - 1]
    else BeforeLast(s[..|s| - 1], sep)
  }

  /** What sd_hash commits to: the presentation without its key-binding JWT. */
  function Presentation(compact: string): string { BeforeLast(compact, '~') + "~" }

  /** verify_kb_jwt: None when it raises. */
  function CheckKb(lib: Library, p: Parsed, resolved: Json): Option<Kb> {
    var seg := Split(p.kb, '.');
    if p.kb == "" then Some(NoKb)
    else if |seg| != 3 then None
    else
      match (LoadSegment(lib, seg[0]), LoadSegment(lib, seg[1]), B64UrlDecode(seg[2]))
      case (Some(header), Some(payload), Some(signature)) =>
        if !KbHeaderOk(header) || !KbClaimsOk(payload) || (Field(resolved, CNF).Some? && !Field(resolved, CNF).value.Obj?) then None
        else
          (match (if Field(resolved, CNF).Some? then Field(Field(resolved, CNF).value, JWK) else None)
           case None => Some(WithKb(HolderKeyMissing(Recorded(payload))))
           case Some(jwk) =>
             if !jwk.Obj? then None
             else
               match Es256(lib, seg[0] + "." + seg[1], signature, jwk)
               case None => None
               case Some(signed) =>
                 Some(WithKb(HolderKeyFound(signed, StrAt(payload, SD_HASH) == DigestOf(lib)(Presentation(p.compact)),
                                            Recorded(payload)))))
      case _ => None
  }

  const PRESENT: string := "present"
  const VERIFIED: string := "verified"
  const SIGNATURE_OK: string := "signature_ok"
  const SD_HASH_OK: string := "sd_hash_ok"
  const RECORDED: string := "claims_recorded_not_validated"

  const KB_COPY: Schema :=
    [Key(PRESENT, ABool, true), Key(VERIFIED, BoolOrNull, false), Key(SIGNATURE_OK, ABool, false), Key(SD_HASH_OK, ABool, false),
     Key("note", StringOrNull, false), Key(RECORDED, AnObject, false)]

  const RECOMPUTED: seq<string> := [VERIFIED, SIGNATURE_OK, SD_HASH_OK, RECORDED]

  /** The record of the check, as it is written and as it is recomputed. */
  function KbRecord(kb: Kb): Json {
    Obj(Fill(KB_COPY, match kb
                      case NoKb => [Some(Bool(false)), None, None, None, None, None]
                      case WithKb(HolderKeyMissing(c)) =>
                        [Some(Bool(true)), Some(Null), None, None, Some(Str("holder key unknown")), Some(c)]
                      case WithKb(HolderKeyFound(s, h, c)) =>
                        [Some(Bool(true)), Some(Bool(s && h)), Some(Bool(s)), Some(Bool(h)), Some(Null), Some(c)]))
  }

  predicate KbRefuted(kb: Kb) { kb.WithKb? && kb.read.HolderKeyFound? && !(kb.read.signatureOk && kb.read.sdHashOk) }
}
