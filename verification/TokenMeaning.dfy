/** What is measured of one token, told from its text and from the library calls themselves. */
module TokenMeaning {
  import opened Octets
  import opened Values
  import opened CanonicalJson
  import opened Base64
  import opened ClosedObjects
  import opened Jwk
  import opened SdJwt
  import opened SdJwtLaws
  import opened Pack
  import opened PackFormat
  import opened PackLaws
  import opened Build
  import opened BuildLaws
  import Bindings
  import Resolution
  import Verdict

  // ------------------------------------------------------------------ the text

  /** A JWT of three segments. */
  ghost predicate Segments(jwt: string, h: string, q: string, s: string) {
    jwt == h + ("." + (q + ("." + s))) && '.' !in h && '.' !in q && '.' !in s
  }

  /** The issuer's JWT of a presentation: what stands before the first tilde. */
  ghost predicate IssuerPart(text: string, jwt: string) { '~' !in jwt && (text == jwt || jwt + "~" <= text) }

  /** The key-binding part: what stands behind the last tilde, nothing without one. */
  ghost predicate KbPart(text: string, kb: string) {
    if '~' in text then '~' !in kb && |kb| < |text| && text[|text| - |kb| - 1..] == "~" + kb else kb == ""
  }

  lemma SegmentsAre(jwt: string)
    requires |Split(jwt, '.')| == 3
    ensures Segments(jwt, Split(jwt, '.')[0], Split(jwt, '.')[1], Split(jwt, '.')[2])
  {
    hide Split, Join;
    var seg := Split(jwt, '.');
    JoinOfSplit(jwt, '.');
    PartsHaveNoSeparator(jwt, '.');
    JoinThree(seg);
  }

  lemma JoinThree(seg: seq<string>)
    requires |seg| == 3
    ensures Join(seg, '.') == seg[0] + ("." + (seg[1] + ("." + seg[2])))
  {
    assert seg[1..][0] == seg[1] && seg[1..][1..] == [seg[2]] && Join([seg[2]], '.') == seg[2];
    assert Join(seg[1..], '.') == seg[1] + (['.'] + seg[2]);
  }

  lemma FirstPart(text: string)
    ensures IssuerPart(text, Split(text, '~')[0])
  {
    hide Split, Join;
    JoinOfSplit(text, '~');
    PartsHaveNoSeparator(text, '~');
    JoinHead(Split(text, '~'), '~');
  }

  lemma JoinHead(parts: seq<string>, sep: char)
    requires parts != []
    ensures Join(parts, sep) == parts[0] || parts[0] + [sep] <= Join(parts, sep)
  {}

  lemma LastPartIs(text: string)
    ensures var parts := Split(text, '~');
            KbPart(text, if |parts| == 1 then "" else parts[|parts| - 1])
  {
    hide Split, BeforeLast;
    if '~' in text {
      SplitsAtSeparator(text, '~');
      LastPart(text, '~');
      PartsHaveNoSeparator(text, '~');
      var n := |BeforeLast(text, '~')|;
      assert text[n..] == "~" + text[n + 1..];
    } else {
      SplitOfPart(text, '~');
    }
  }

  /** Reading a token: its header and payload are what its first two segments load to, its signature is what the third
      decodes to, and what is signed is the first two joined by a dot. */
  lemma ParseMeans(lib: Library, text: string, p: Parsed) returns (jwt: string, h: string, q: string, s: string)
    requires Parse(lib, text) == Some(p)
    ensures p.compact == Trim(lib, text) && IssuerPart(p.compact, jwt) && Segments(jwt, h, q, s)
    ensures B64UrlDecode(h).Some? && lib.load(B64UrlDecode(h).value) == Some(p.header)
    ensures B64UrlDecode(q).Some? && lib.load(B64UrlDecode(q).value) == Some(p.payload)
    ensures B64UrlDecode(s) == Some(p.signature) && p.signingInput == h + "." + q && KbPart(p.compact, p.kb)
  {
    hide B64UrlDecode, Trim, Split, NonEmpty;
    jwt := Split(p.compact, '~')[0];
    var seg := Split(jwt, '.');
    h, q, s := seg[0], seg[1], seg[2];
    FirstPart(p.compact);
    SegmentsAre(jwt);
    LastPartIs(p.compact);
  }

  // ------------------------------------------------------------------ the signature

  ghost predicate Is32Bytes(x: string) { B64UrlDecode(x).Some? && |B64UrlDecode(x).value| == 32 }

  /** The library's check of a signature, over the first two segments of a JWT, by the coordinates of a P-256 key and the 64
      bytes of the third segment, has this outcome. */
  ghost predicate CallGives(lib: Library, key: Json, h: string, q: string, s: string, outcome: bool) {
    && Field(key, "kty") == Some(Str("EC")) && Field(key, "crv") == Some(Str("P-256"))
    && HasText(key, "x") && Is32Bytes(StrAt(key, "x")) && HasText(key, "y") && Is32Bytes(StrAt(key, "y"))
    && B64UrlDecode(s).Some? && |B64UrlDecode(s).value| == 64
    && lib.es256(StrAt(key, "x"), StrAt(key, "y"), h + "." + q, B64UrlDecode(s).value) == Some(outcome)
  }

  ghost predicate SignatureChecked(lib: Library, jwt: string, key: Json, outcome: bool) {
    exists h, q, s :: Segments(jwt, h, q, s) && CallGives(lib, key, h, q, s, outcome)
  }

  lemma EsMeans(lib: Library, h: string, q: string, s: string, signature: Bytes, key: Json, outcome: bool)
    requires B64UrlDecode(s) == Some(signature)
    ensures Es256(lib, h + "." + q, signature, key) == Some(outcome) <==> CallGives(lib, key, h, q, s, outcome)
  {
    hide B64UrlDecode, Field;
  }

  /** The segments of a JWT are determined by its text, and so is the outcome. */
  lemma SignatureIsOne(lib: Library, jwt: string, key: Json, a: bool, b: bool)
    requires SignatureChecked(lib, jwt, key, a) && SignatureChecked(lib, jwt, key, b)
    ensures a == b
  {
    hide CallGives, Segments;
    var h, q, s :| Segments(jwt, h, q, s) && CallGives(lib, key, h, q, s, a);
    var h', q', s' :| Segments(jwt, h', q', s') && CallGives(lib, key, h', q', s', b);
    SegmentsUnique(jwt, h, q, s);
    SegmentsUnique(jwt, h', q', s');
    assert [h, q, s][0] == [h', q', s'][0] && [h, q, s][1] == [h', q', s'][1] && [h, q, s][2] == [h', q', s'][2];
    OneOutcome(lib, key, h, q, s, a, b);
  }

  lemma OneOutcome(lib: Library, key: Json, h: string, q: string, s: string, a: bool, b: bool)
    requires CallGives(lib, key, h, q, s, a) && CallGives(lib, key, h, q, s, b)
    ensures a == b
  {}

  lemma SegmentsUnique(jwt: string, h: string, q: string, s: string)
    requires Segments(jwt, h, q, s)
    ensures Split(jwt, '.') == [h, q, s]
  {
    hide Split, Join;
    var seg := [h, q, s];
    JoinThree(seg);
    SplitOfJoin(seg, '.');
  }

  // ------------------------------------------------------------------ the key

  /** The jwk of the header is that key. */
  ghost predicate HeaderKeyIs(header: Json, key: Json) { Field(header, "jwk").Some? && OneKey(Field(header, "jwk").value, key) }

  /** The first certificate of the header's chain is for that key. */
  ghost predicate HeaderChainIs(lib: Library, header: Json, key: Json) {
    Field(header, "x5c").Some? &&
    var x5c := Field(header, "x5c").value;
    && x5c.Arr? && x5c.items != [] && x5c.items[0].Str?
    && lib.leaf(x5c).Some? && OneKey(lib.leaf(x5c).value, key)
  }

  /** The key is that of every source the header names, and of the one its class claims. */
  ghost predicate NamesItsKey(lib: Library, header: Json, key: Json, cls: string) {
    && (cls == "jwk_header" || Field(header, "jwk").Some? ==> HeaderKeyIs(header, key))
    && (cls == "x5c_header" || Field(header, "x5c").Some? ==> HeaderChainIs(lib, header, key))
  }

  /** The same for the sources the key was not taken from. */
  ghost predicate OthersAgree(lib: Library, header: Json, key: Json, cls: string) {
    && (cls != "jwk_header" && Field(header, "jwk").Some? ==> HeaderKeyIs(header, key))
    && (cls != "x5c_header" && Field(header, "x5c").Some? ==> HeaderChainIs(lib, header, key))
  }

  lemma ProvenanceIs(lib: Library, header: Json, key: Json, cls: string)
    ensures ProvenanceHolds(lib, header, key, cls) && Reconciles(lib, header, key, cls) <==> NamesItsKey(lib, header, key, cls)
    ensures Reconciles(lib, header, key, cls) <==> OthersAgree(lib, header, key, cls)
  {
    hide SameKey, OneKey, Field;
    if Field(header, "jwk").Some? { SameKeyIsOneKey(Field(header, "jwk").value, key); }
    if Field(header, "x5c").Some? && lib.leaf(Field(header, "x5c").value).Some? {
      SameKeyIsOneKey(lib.leaf(Field(header, "x5c").value).value, key);
    }
  }

  /** A key as it is written: what each member of a key object holds. */
  ghost predicate KeyWritten(o: Json, key: Json, cls: string, url: Option<Json>, digest: Option<Json>, at: Option<Json>) {
    && Only(o, ["jwk", "provenance_class", "note", "x5c_chain_sha256", "jwks_url", "jwks_sha256", "fetched_utc"])
    && Field(o, "jwk") == Some(key) && Field(o, "provenance_class") == Some(Str(cls))
    && Field(o, "jwks_url") == url && Field(o, "jwks_sha256") == digest && Field(o, "fetched_utc") == at
  }

  lemma KeyObjectWritten(key: Json, cls: string, chain: Option<Json>, url: Option<Json>, digest: Option<Json>, at: Option<Json>)
    ensures var o := KeyObject(key, cls, chain, url, digest, at);
            KeyWritten(o, key, cls, url, digest, at) && Field(o, "x5c_chain_sha256") == chain
  {
    hide Fill, Lookup, Distinct;
    var vals := [Some(key), Some(Str(cls)), Some(Str("how the key was obtained")), chain, url, digest, at];
    KeyDistinct();
    FillReads(KEY, vals, 0);
    FillReads(KEY, vals, 1);
    FillReads(KEY, vals, 3);
    FillReads(KEY, vals, 4);
    FillReads(KEY, vals, 5);
    FillReads(KEY, vals, 6);
    forall k | Field(KeyObject(key, cls, chain, url, digest, at), k).Some?
      ensures k in ["jwk", "provenance_class", "note", "x5c_chain_sha256", "jwks_url", "jwks_sha256", "fetched_utc"]
    {
      FillHas(KEY, vals, k);
    }
  }

  /** A header jwk as it is copied: its four key members and no other. */
  ghost predicate CopiesKey(copy: Json, jwk: Json) {
    && Only(copy, ["kty", "crv", "x", "y"])
    && Field(copy, "kty") == Field(jwk, "kty") && Field(copy, "crv") == Field(jwk, "crv")
    && Field(copy, "x") == Field(jwk, "x") && Field(copy, "y") == Field(jwk, "y")
  }

  lemma PickedCopies(jwk: Json)
    ensures CopiesKey(Picked(jwk), jwk)
  {
    hide Fill, Lookup;
    PickedReads(jwk);
    assert KEY_FIELDS[0] == "kty" && KEY_FIELDS[1] == "crv" && KEY_FIELDS[2] == "x" && KEY_FIELDS[3] == "y";
    var vals := [Field(jwk, KTY), Field(jwk, CRV), Field(jwk, X), Field(jwk, Y)];
    forall k | Field(Picked(jwk), k).Some? ensures k in ["kty", "crv", "x", "y"] { FillHas(JWK_COPY, vals, k); }
  }

  /** A chain of one to ten certificates, each in strict base64. */
  ghost predicate WellFormedChain(x5c: Json) {
    x5c.Arr? && 1 <= |x5c.items| <= 10 &&
    forall i :: 0 <= i < |x5c.items| ==> x5c.items[i].Str? && Unb64(x5c.items[i].s).Some?
  }

  /** The fingerprint of each certificate of a chain. */
  ghost predicate PrintsOf(lib: Library, x5c: Json, prints: Option<Json>)
    requires WellFormedChain(x5c)
  {
    prints.Some? && prints.value.Arr? && |prints.value.items| == |x5c.items| &&
    forall i :: 0 <= i < |x5c.items| ==> prints.value.items[i] == Str(lib.fingerprint(Unb64(x5c.items[i].s).value))
  }

  /** Where a key comes from: what the caller gave, what the URL serves, the header's chain before its jwk. */
  ghost predicate TakenFrom(lib: Library, header: Json, source: KeySource, o: Json) {
    match source
    case Supplied(key) => key.Obj? && key.members != [] && KeyWritten(o, key, "supplied", None, None, None)
    case FromUrl(url) =>
      && (Field(header, "kid").Some? ==> Field(header, "kid").value.Str?)
      && lib.fetch(url, header).Some?
      && var f := lib.fetch(url, header).value;
         KeyWritten(o, f.jwk, "jwks_fetched", Some(Str(url)), Some(Str(f.digest)), Some(Str(f.at)))
    case FromHeader =>
      if Field(header, "x5c").Some? then
        var x5c := Field(header, "x5c").value;
        && WellFormedChain(x5c) && lib.leaf(x5c).Some?
        && KeyWritten(o, lib.leaf(x5c).value, "x5c_header", None, None, None)
        && PrintsOf(lib, x5c, Field(o, "x5c_chain_sha256"))
      else
        && HasObject(header, "jwk") && HasObject(o, "jwk") && CopiesKey(Field(o, "jwk").value, Field(header, "jwk").value)
        && KeyWritten(o, Field(o, "jwk").value, "jwk_header", None, None, None)
  }

  /** The snapshot, for every source: refused unless the header says ES256 and the source gives a key. */
  lemma SnapshotExactly(lib: Library, header: Json, source: KeySource)
    ensures match SnapshotKey(lib, header, source)
            case Some(o) => Field(header, "alg") == Some(Str("ES256")) && TakenFrom(lib, header, source, o)
            case None => Field(header, "alg") != Some(Str("ES256")) || forall o :: !TakenFrom(lib, header, source, o)
  {
    hide Lookup, Fill, KeyObject, Unb64, Picked, CopiesKey, Only;
    match source {
      case Supplied(key) => KeyObjectWritten(key, "supplied", None, None, None, None);
      case FromUrl(url) =>
        if lib.fetch(url, header).Some? {
          var f := lib.fetch(url, header).value;
          KeyObjectWritten(f.jwk, "jwks_fetched", None, Some(Str(url)), Some(Str(f.digest)), Some(Str(f.at)));
        }
      case FromHeader =>
        if Field(header, "x5c").Some? {
          var x5c := Field(header, "x5c").value;
          if StrictChain(x5c) && lib.leaf(x5c).Some? {
            KeyObjectWritten(lib.leaf(x5c).value, "x5c_header", Some(Fingerprints(lib, x5c)), None, None, None);
          }
        } else if Field(header, "jwk").Some? {
          PickedCopies(Field(header, "jwk").value);
          KeyObjectWritten(Picked(Field(header, "jwk").value), "jwk_header", None, None, None, None);
          PickedIsObject(Field(header, "jwk").value);
        }
    }
  }

  lemma PickedIsObject(jwk: Json)
    ensures Picked(jwk).Obj?
  {}

  // ------------------------------------------------------------------ the key-binding JWT

  /** A key-binding JWT that can be read: its header and payload have the types section 4.3 of RFC 9901 asks for. */
  ghost predicate KbReads(lib: Library, kb: string, payload: Json) {
    exists h, q, s :: Segments(kb, h, q, s) && KbLoads(lib, h, q, s, payload)
  }

  ghost predicate KbLoads(lib: Library, h: string, q: string, s: string, payload: Json) {
    && B64UrlDecode(h).Some? && lib.load(B64UrlDecode(h).value).Some?
    && B64UrlDecode(q).Some? && lib.load(B64UrlDecode(q).value) == Some(payload)
    && B64UrlDecode(s).Some?
    && var header := lib.load(B64UrlDecode(h).value).value;
       && Field(header, "alg") == Some(Str("ES256")) && Field(header, "typ") == Some(Str("kb+jwt")) && Missing(header, "crit")
       && Field(payload, "iat").Some? && Field(payload, "iat").value.Num?
       && HasText(payload, "aud") && HasText(payload, "nonce") && HasText(payload, "sd_hash")
  }

  /** The holder's key among the claims: the jwk of `cnf`. */
  function HolderKey(claims: Json): Option<Json> {
    match Field(claims, "cnf") case None => None case Some(cnf) => Field(cnf, "jwk")
  }

  /** What is kept of the payload. */
  ghost predicate Keeps(record: Json, payload: Json) {
    && Only(record, ["aud", "nonce", "iat"])
    && Field(record, "aud") == Field(payload, "aud") && Field(record, "nonce") == Field(payload, "nonce")
    && Field(record, "iat") == Field(payload, "iat")
  }

  lemma RecordedKeeps(payload: Json)
    ensures Keeps(Recorded(payload), payload)
  {
    hide Fill, Lookup;
    var vals := [Field(payload, AUD), Field(payload, NONCE), Field(payload, IAT)];
    assert Distinct(RECORDED_CLAIMS);
    FillReads(RECORDED_CLAIMS, vals, 0);
    FillReads(RECORDED_CLAIMS, vals, 1);
    FillReads(RECORDED_CLAIMS, vals, 2);
    forall k | Field(Recorded(payload), k).Some? ensures k in ["aud", "nonce", "iat"] { FillHas(RECORDED_CLAIMS, vals, k); }
  }

  /** What the check of a key-binding part comes to, for the claims `claims` of its presentation `text`. */
  ghost predicate KbMeans(lib: Library, text: string, claims: Json, part: string, kb: Kb)
    requires KbPart(text, part)
  {
    match kb
    case NoKb => part == ""
    case WithKb(read) =>
      && part != ""
      && (Missing(claims, "cnf") || HasObject(claims, "cnf"))
      && exists payload :: KbReads(lib, part, payload) && Keeps(read.claims, payload) &&
           match read
           case HolderKeyMissing(_) => HolderKey(claims).None?
           case HolderKeyFound(signatureOk, sdHashOk, _) =>
             && HolderKey(claims).Some? && HolderKey(claims).value.Obj?
             && SignatureChecked(lib, part, HolderKey(claims).value, signatureOk)
             && (sdHashOk <==> StrAt(payload, "sd_hash") == Encode(UrlSafe, lib.sha(text[..|text| - |part|])))
  }

  lemma LoadIs(lib: Library, seg: string)
    ensures LoadSegment(lib, seg).Some? <==> B64UrlDecode(seg).Some? && lib.load(B64UrlDecode(seg).value).Some?
    ensures LoadSegment(lib, seg).Some? ==> LoadSegment(lib, seg) == lib.load(B64UrlDecode(seg).value)
  {
    hide B64UrlDecode;
  }

  /** The key-binding check reports the outcome of the library's call under `cnf.jwk`, over the KB-JWT's own segments, and
      whether sd_hash is the digest of everything up to the last tilde. */
  lemma KbCheckMeans(lib: Library, p: Parsed, claims: Json)
    requires KbPart(p.compact, p.kb) && CheckKb(lib, p, claims).Some?
    ensures KbMeans(lib, p.compact, claims, p.kb, CheckKb(lib, p, claims).value)
  {
    hide B64UrlDecode, Split, Field, Fill, Es256, Presentation, DigestOf, LoadSegment, SignatureChecked, KbReads, Keeps, Only, Segments;
    if p.kb != "" {
      var seg := Split(p.kb, '.');
      SegmentsAre(p.kb);
      LoadIs(lib, seg[0]);
      LoadIs(lib, seg[1]);
      var payload := LoadSegment(lib, seg[1]).value;
      KbIsRead(lib, p.kb, seg[0], seg[1], seg[2], payload);
      RecordedKeeps(payload);
      PresentationIs(lib, p);
      var key := HolderKey(claims);
      if key.Some? {
        KbSignature(lib, p.kb, seg[0], seg[1], seg[2], key.value);
      }
    }
  }

  lemma KbIsRead(lib: Library, kb: string, h: string, q: string, s: string, payload: Json)
    requires Segments(kb, h, q, s) && LoadSegment(lib, h).Some? && LoadSegment(lib, q) == Some(payload) && B64UrlDecode(s).Some?
    requires KbHeaderOk(LoadSegment(lib, h).value) && KbClaimsOk(payload)
    ensures KbReads(lib, kb, payload)
  {
    hide B64UrlDecode, Lookup, Segments;
    assert KbLoads(lib, h, q, s, payload);
  }

  lemma KbSignature(lib: Library, kb: string, h: string, q: string, s: string, key: Json)
    requires Segments(kb, h, q, s) && B64UrlDecode(s).Some?
    ensures var r := Es256(lib, h + "." + q, B64UrlDecode(s).value, key);
            r.Some? ==> SignatureChecked(lib, kb, key, r.value)
  {
    hide B64UrlDecode, Es256, Segments;
    var r := Es256(lib, h + "." + q, B64UrlDecode(s).value, key);
    if r.Some? { EsMeans(lib, h, q, s, B64UrlDecode(s).value, key, r.value); }
  }

  lemma PresentationIs(lib: Library, p: Parsed)
    requires KbPart(p.compact, p.kb) && p.kb != ""
    ensures Presentation(p.compact) == p.compact[..|p.compact| - |p.kb|]
    ensures DigestOf(lib)(Presentation(p.compact)) == Encode(UrlSafe, lib.sha(p.compact[..|p.compact| - |p.kb|]))
  {
    hide BeforeLast;
    BeforeLastIs(p.compact, '~');
    var b, n := BeforeLast(p.compact, '~'), |p.compact| - |p.kb| - 1;
    assert p.compact[n] == '~' by { assert p.compact[n..][0] == '~'; }
    assert p.compact[n + 1..] == p.kb by { assert p.compact[n..][1..] == p.kb; }
    assert |b| == n;
    assert p.compact[..n + 1] == p.compact[..n] + "~";
  }

  /** The key-binding part can be judged: there is none, or it reads, and the holder's key is unknown or gives an outcome. */
  ghost predicate KbJudged(lib: Library, claims: Json, part: string) {
    part != "" ==>
    && (exists payload :: KbReads(lib, part, payload))
    && (Missing(claims, "cnf") || HasObject(claims, "cnf"))
    && (HolderKey(claims).Some? ==>
          HolderKey(claims).value.Obj? && exists outcome :: SignatureChecked(lib, part, HolderKey(claims).value, outcome))
  }

  lemma KbErrorExactly(lib: Library, p: Parsed, claims: Json)
    requires KbPart(p.compact, p.kb)
    ensures CheckKb(lib, p, claims).Some? <==> KbJudged(lib, claims, p.kb)
  {
    hide B64UrlDecode, Split, Field, Fill, Es256, Presentation, DigestOf, LoadSegment, SignatureChecked, KbReads, Segments, Recorded;
    if CheckKb(lib, p, claims).Some? {
      KbCheckMeans(lib, p, claims);
    } else if KbJudged(lib, claims, p.kb) {
      var payload :| KbReads(lib, p.kb, payload);
      var h, q, s := KbSplits(lib, p.kb, payload);
      var key := HolderKey(claims);
      if key.Some? {
        var outcome :| SignatureChecked(lib, p.kb, key.value, outcome);
        SignatureCalls(lib, p.kb, h, q, s, key.value, outcome);
      }
    }
  }

  lemma KbSplits(lib: Library, kb: string, payload: Json) returns (h: string, q: string, s: string)
    requires KbReads(lib, kb, payload)
    ensures Split(kb, '.') == [h, q, s] && kb != "" && Segments(kb, h, q, s) && B64UrlDecode(s).Some?
    ensures LoadSegment(lib, h).Some? && LoadSegment(lib, q) == Some(payload)
    ensures KbHeaderOk(LoadSegment(lib, h).value) && KbClaimsOk(payload)
  {
    hide B64UrlDecode, Split, Lookup, Segments;
    h, q, s :| Segments(kb, h, q, s) && KbLoads(lib, h, q, s, payload);
    SegmentsUnique(kb, h, q, s);
    assert kb != "" by { NoSegments(h, q, s); }
    var header := LoadSegment(lib, h).value;
    assert header.Obj? && payload.Obj?;
  }

  lemma NoSegments(h: string, q: string, s: string)
    ensures !Segments("", h, q, s)
  {
    assert |h + ("." + (q + ("." + s)))| >= 2;
  }

  lemma SignatureCalls(lib: Library, jwt: string, h: string, q: string, s: string, key: Json, outcome: bool)
    requires Segments(jwt, h, q, s) && B64UrlDecode(s).Some? && SignatureChecked(lib, jwt, key, outcome)
    ensures Es256(lib, h + "." + q, B64UrlDecode(s).value, key) == Some(outcome)
  {
    hide B64UrlDecode, Es256, CallGives, Segments;
    var h', q', s' :| Segments(jwt, h', q', s') && CallGives(lib, key, h', q', s', outcome);
    SegmentsUnique(jwt, h, q, s);
    SegmentsUnique(jwt, h', q', s');
    assert [h, q, s][0] == [h', q', s'][0] && [h, q, s][1] == [h', q', s'][1] && [h, q, s][2] == [h', q', s'][2];
    EsMeans(lib, h, q, s, B64UrlDecode(s).value, key, outcome);
  }

  // ------------------------------------------------------------------ one artifact

  /** The key an entry records. */
  function RecordedKey(a: Json): Json { FieldOr(FieldOr(a, "key"), "jwk") }

  /** What is written of a key-binding check. */
  ghost predicate RecordWritten(record: Json, kb: Kb) {
    && Only(record, ["present", "verified", "signature_ok", "sd_hash_ok", "note", "claims_recorded_not_validated"])
    && Field(record, "present") == Some(Bool(kb.WithKb?))
    && match kb
       case NoKb =>
         && Missing(record, "verified") && Missing(record, "signature_ok") && Missing(record, "sd_hash_ok")
         && Missing(record, "claims_recorded_not_validated")
       case WithKb(HolderKeyMissing(claims)) =>
         && Field(record, "verified") == Some(Null) && Missing(record, "signature_ok") && Missing(record, "sd_hash_ok")
         && Field(record, "claims_recorded_not_validated") == Some(claims)
       case WithKb(HolderKeyFound(s, h, claims)) =>
         && Field(record, "verified") == Some(Bool(s && h)) && Field(record, "signature_ok") == Some(Bool(s))
         && Field(record, "sd_hash_ok") == Some(Bool(h)) && Field(record, "claims_recorded_not_validated") == Some(claims)
  }

  lemma KbRecordWritten(kb: Kb)
    ensures RecordWritten(KbRecord(kb), kb)
  {
    hide Fill, Lookup;
    KbDistinct();
    var vals := KbValues(kb);
    FillReads(KB_COPY, vals, 0);
    FillReads(KB_COPY, vals, 1);
    FillReads(KB_COPY, vals, 2);
    FillReads(KB_COPY, vals, 3);
    FillReads(KB_COPY, vals, 5);
    forall k | Field(KbRecord(kb), k).Some?
      ensures k in ["present", "verified", "signature_ok", "sd_hash_ok", "note", "claims_recorded_not_validated"]
    {
      FillHas(KB_COPY, vals, k);
    }
  }

  /** A recorded member, when it is there, has the value recomputed. */
  ghost predicate Says(record: Json, recomputed: Json, k: string) {
    Field(record, k).Some? ==> CanonOf(Field(record, k)) == CanonOf(Field(recomputed, k))
  }

  ghost predicate SaysAll(record: Json, recomputed: Json) {
    && Says(record, recomputed, "verified") && Says(record, recomputed, "signature_ok") && Says(record, recomputed, "sd_hash_ok")
    && Says(record, recomputed, "claims_recorded_not_validated")
  }

  lemma AgreesIs(record: Json, recomputed: Json)
    ensures RecordAgrees(record, recomputed) <==> SaysAll(record, recomputed)
  {
    hide Canon, Field;
    if RecordAgrees(record, recomputed) {
      assert RECOMPUTED[0] == "verified" && RECOMPUTED[1] == "signature_ok" && RECOMPUTED[2] == "sd_hash_ok"
          && RECOMPUTED[3] == "claims_recorded_not_validated";
    }
  }

  /** The objects of an entry have the members of the format. */
  ghost predicate EntryShaped(a: Json) {
    ArtifactShaped(a) && KeyShaped(FieldOr(a, "key")) && KbShaped(FieldOr(a, "kb_jwt"))
    && AttestationShaped(FieldOr(a, "verified_at_build"))
  }

  lemma EntryIsShaped(a: Json)
    ensures EntryClosed(a) <==> EntryShaped(a)
  {
    hide Closed, ArtifactShaped, KeyShaped, KbShaped, AttestationShaped, FieldOr;
    ArtifactKeys(a);
    KeyKeys(FieldOr(a, "key"));
    KbKeys(FieldOr(a, "kb_jwt"));
    AttestationKeys(FieldOr(a, "verified_at_build"));
  }

  /** What an entry copies from its token, before the signature is looked at. */
  ghost predicate CopiesHold(lib: Library, a: Json, p: Parsed) {
    && StrAt(FieldOr(a, "key"), "provenance_class") in ["supplied", "x5c_header", "jwk_header", "jwks_fetched"]
    && p.payload.Obj? && p.header.Obj? && Missing(p.header, "crit")
    && Canon(FieldOr(a, "header")) == Canon(p.header)
    && Field(FieldOr(a, "kb_jwt"), "present") == Some(Bool(p.kb != ""))
    && NamesItsKey(lib, p.header, RecordedKey(a), StrAt(FieldOr(a, "key"), "provenance_class"))
  }

  lemma CopiesAre(lib: Library, a: Json, p: Parsed)
    ensures CopiesAgree(lib, a, p) <==> CopiesHold(lib, a, p)
  {
    hide Canon, Field, FieldOr, StrAt, Reconciles, ProvenanceHolds, NamesItsKey;
    ProvenanceIs(lib, p.header, RecordedKey(a), StrAt(FieldOr(a, "key"), "provenance_class"));
  }

  /** The holder's check as the verdict reads it. */
  ghost predicate HolderSays(h: Verdict.HolderCheck, kb: Kb) {
    match kb
    case NoKb => h == Verdict.NoKbJwt
    case WithKb(HolderKeyMissing(_)) => h == Verdict.HolderUnknown
    case WithKb(HolderKeyFound(s, d, _)) => h == Verdict.HolderChecked(s, d)
  }

  /** An entry that is no error: its token reads, its objects and copies are as the format says, and each outcome measured is
      that of the library's call on the token's own text. */
  ghost predicate Measures(lib: Library, a: Json, p: Parsed, jwt: string, claims: Json, kb: Kb, r: Verdict.ArtifactResult) {
    && Parse(lib, StrAt(a, "sd_jwt_compact")) == Some(p) && p.compact == StrAt(a, "sd_jwt_compact")
    && (forall i :: 0 <= i < |p.compact| ==> p.compact[i] as int < 128)
    && EntryShaped(a) && CopiesHold(lib, a, p)
    && IssuerPart(p.compact, jwt) && KbPart(p.compact, p.kb)
    && ResolvedClaims(lib, p) == Some(claims)
    && KbMeans(lib, p.compact, claims, p.kb, kb) && SaysAll(FieldOr(a, "kb_jwt"), KbRecord(kb)) && RecordWritten(KbRecord(kb), kb)
    && r.ArtifactChecked? && SignatureChecked(lib, jwt, RecordedKey(a), r.signatureOk)
    && (r.claimsMatch <==> Canon(claims) == Canon(FieldOr(a, "resolved_claims")))
    && HolderSays(r.kb, kb)
    && (r.x5c <==> StrAt(FieldOr(a, "key"), "provenance_class") == "x5c_header")
  }

  /** The claims of a token are those the resolver gives for its payload and its disclosures; a disclosure reads as its
      base64url bytes load, and its digest is the base64url SHA-256 of its text. */
  lemma ClaimsAre(lib: Library, p: Parsed, claims: Json)
    ensures ResolvedClaims(lib, p) == Some(claims)
       <==> && p.payload.Obj?
            && exists census :: Resolution.Resolve(CodecOf(lib), p.payload.members, p.disclosures) == Resolution.Ok((claims, census))
    ensures forall d, j :: CodecOf(lib).decode(d) == Some(j)
                      <==> B64UrlDecode(d).Some? && lib.load(B64UrlDecode(d).value) == Some(j)
    ensures forall d :: CodecOf(lib).digest(d) == Encode(UrlSafe, lib.sha(d))
  {
    hide Resolution.Resolve, B64UrlDecode;
  }

  lemma SignatureMeans(lib: Library, text: string, p: Parsed, key: Json) returns (jwt: string)
    requires Parse(lib, text) == Some(p)
    ensures IssuerPart(p.compact, jwt) && KbPart(p.compact, p.kb) && p.compact == Trim(lib, text)
    ensures forall b :: VerifyEs256(lib, p, key) == Some(b) <==> SignatureChecked(lib, jwt, key, b)
  {
    hide B64UrlDecode, Es256, CallGives, Segments, IssuerPart, KbPart, Parse, Trim;
    var h, q, s;
    jwt, h, q, s := ParseMeans(lib, text, p);
    forall b ensures VerifyEs256(lib, p, key) == Some(b) <==> SignatureChecked(lib, jwt, key, b) {
      EsMeans(lib, h, q, s, p.signature, key, b);
      if SignatureChecked(lib, jwt, key, b) { SignatureCalls(lib, jwt, h, q, s, key, b); }
    }
  }

  /** What is measured of an entry is what the library says of its token. */
  lemma ArtifactMeasured(lib: Library, a: Json) returns (p: Parsed, jwt: string, claims: Json, kb: Kb)
    requires CheckArtifact(lib, a).Some?
    ensures Measures(lib, a, p, jwt, claims, kb, CheckArtifact(lib, a).value.0)
    ensures CheckArtifact(lib, a).value.1 == Bindings.Artifact(StrAt(a, "name"), StrAt(a, "sd_jwt_compact"), claims)
  {
    hide Canon, Field, FieldOr, StrAt, EntryClosed, RecordAgrees, VerifyEs256, CheckKb, ResolvedClaims, Parse, Trim,
         EntryShaped, CopiesAgree, CopiesHold, SignatureChecked, KbMeans, RecordWritten, SaysAll, KbRecord, IssuerPart, KbPart;
    var text := StrAt(a, "sd_jwt_compact");
    p := Parse(lib, text).value;
    claims := ResolvedClaims(lib, p).value;
    kb := CheckKb(lib, p, claims).value;
    jwt := SignatureMeans(lib, text, p, RecordedKey(a));
    EntryIsShaped(a);
    CopiesAre(lib, a, p);
    AgreesIs(FieldOr(a, "kb_jwt"), KbRecord(kb));
    KbRecordWritten(kb);
    KbCheckMeans(lib, p, claims);
  }

  /** All an entry needs not to be an error. */
  ghost predicate Sound(lib: Library, a: Json) {
    var text := StrAt(a, "sd_jwt_compact");
    && EntryShaped(a) && Trim(lib, text) == text && (forall i :: 0 <= i < |text| ==> text[i] as int < 128)
    && Parse(lib, text).Some?
    && var p := Parse(lib, text).value;
       && CopiesHold(lib, a, p)
       && (exists jwt, b :: IssuerPart(text, jwt) && SignatureChecked(lib, jwt, RecordedKey(a), b))
       && ResolvedClaims(lib, p).Some?
       && var claims := ResolvedClaims(lib, p).value;
          && KbJudged(lib, claims, p.kb)
          && forall kb :: CheckKb(lib, p, claims) == Some(kb) ==> SaysAll(FieldOr(a, "kb_jwt"), KbRecord(kb))
  }

  lemma IssuerPartUnique(text: string, jwt: string)
    requires IssuerPart(text, jwt)
    ensures Split(text, '~')[0] == jwt
  {
    if text == jwt {
      SplitOfPart(jwt, '~');
    } else {
      var rest := text[|jwt| + 1..];
      assert text == jwt + (['~'] + rest);
      SplitFirst(jwt, rest, '~');
    }
  }

  /** An entry is an error exactly when one of these fails. */
  lemma ArtifactErrorExactly(lib: Library, a: Json)
    ensures CheckArtifact(lib, a).Some? <==> Sound(lib, a)
  {
    hide Canon, Field, FieldOr, StrAt, EntryClosed, RecordAgrees, VerifyEs256, CheckKb, ResolvedClaims, Parse, Trim, EntryShaped,
         CopiesAgree, CopiesHold, SignatureChecked, SaysAll, KbRecord, IssuerPart, KbPart, KbJudged, Split, KbMeans;
    var text := StrAt(a, "sd_jwt_compact");
    EntryIsShaped(a);
    if Parse(lib, text).Some? {
      var p := Parse(lib, text).value;
      CopiesAre(lib, a, p);
      var jwt := SignatureMeans(lib, text, p, RecordedKey(a));
      if ResolvedClaims(lib, p).Some? {
        var claims := ResolvedClaims(lib, p).value;
        KbErrorExactly(lib, p, claims);
        forall kb ensures RecordAgrees(FieldOr(a, "kb_jwt"), KbRecord(kb)) <==> SaysAll(FieldOr(a, "kb_jwt"), KbRecord(kb)) {
          AgreesIs(FieldOr(a, "kb_jwt"), KbRecord(kb));
        }
      }
      if jwt', b :| p.compact == text && IssuerPart(text, jwt') && SignatureChecked(lib, jwt', RecordedKey(a), b) {
        IssuerPartUnique(text, jwt);
        IssuerPartUnique(text, jwt');
      }
    }
  }

  /** A good artifact whose class names the header as its source has the very key the header names, member by member, and so
      has any other whose header names a key. */
  lemma GoodProvenance(lib: Library, a: Json) returns (p: Parsed)
    requires Verdict.Good(ResultOf(lib, a))
    ensures Parse(lib, StrAt(a, "sd_jwt_compact")) == Some(p)
    ensures var cls := StrAt(FieldOr(a, "key"), "provenance_class");
            && (cls == "jwk_header" || Field(p.header, "jwk").Some? ==> HeaderKeyIs(p.header, RecordedKey(a)))
            && (cls == "x5c_header" || Field(p.header, "x5c").Some? ==> HeaderChainIs(lib, p.header, RecordedKey(a)))
  {
    hide CheckArtifact, Parse, RecordedKey, HeaderKeyIs, HeaderChainIs, KbMeans, EntryShaped;
    var jwt, claims, kb;
    p, jwt, claims, kb := ArtifactMeasured(lib, a);
  }

  // ------------------------------------------------------------------ sealing

  /** All a build needs of one artifact. */
  ghost predicate Sealable(lib: Library, x: Input, p: Parsed, key: Json, claims: Json) {
    && Parse(lib, x.text) == Some(p) && p.header.Obj? && p.payload.Obj? && Missing(p.header, "crit")
    && SnapshotKey(lib, p.header, x.source) == Some(key)
    && (exists jwt :: IssuerPart(Trim(lib, x.text), jwt) && SignatureChecked(lib, jwt, FieldOr(key, "jwk"), true))
    && OthersAgree(lib, p.header, FieldOr(key, "jwk"), StrAt(key, "provenance_class"))
    && ResolvedClaims(lib, p) == Some(claims)
    && CheckKb(lib, p, claims).Some?
    && forall s, h, c :: CheckKb(lib, p, claims).value == WithKb(HolderKeyFound(s, h, c)) ==> s && h
  }

  /** The entry written: the seven members, and the three objects in it. */
  ghost predicate EntryWritten(lib: Library, x: Input, e: Json, p: Parsed, key: Json, claims: Json) {
    && Only(e, ["name", "sd_jwt_compact", "header", "key", "resolved_claims", "kb_jwt", "verified_at_build"])
    && Field(e, "name") == Some(Str(x.name)) && Field(e, "sd_jwt_compact") == Some(Str(Trim(lib, x.text)))
    && Field(e, "header") == Some(p.header) && Field(e, "key") == Some(key) && Field(e, "resolved_claims") == Some(claims)
    && CheckKb(lib, p, claims).Some? && Field(e, "kb_jwt").Some?
    && RecordWritten(Field(e, "kb_jwt").value, CheckKb(lib, p, claims).value)
    && Field(e, "verified_at_build").Some?
    && Only(Field(e, "verified_at_build").value, ["signature_ok", "disclosures_ok"])
    && Field(Field(e, "verified_at_build").value, "signature_ok") == Some(Bool(true))
    && Field(Field(e, "verified_at_build").value, "disclosures_ok") == Some(Bool(true))
  }

  lemma EntryIsWritten(lib: Library, x: Input, p: Parsed, key: Json, claims: Json, kb: Kb)
    requires p.compact == Trim(lib, x.text) && CheckKb(lib, p, claims) == Some(kb)
    ensures EntryWritten(lib, x, EntryJson(x.name, p, key, claims, kb), p, key, claims)
  {
    hide Fill, Lookup, CheckKb, Trim, KbRecord, RecordWritten;
    ArtifactDistinct();
    KbRecordWritten(kb);
    AttestationWritten();
    var vals := [Some(Str(x.name)), Some(Str(p.compact)), Some(p.header), Some(key), Some(claims), Some(KbRecord(kb)), Some(Attestation())];
    FillReads(ARTIFACT, vals, 0);
    FillReads(ARTIFACT, vals, 1);
    FillReads(ARTIFACT, vals, 2);
    FillReads(ARTIFACT, vals, 3);
    FillReads(ARTIFACT, vals, 4);
    FillReads(ARTIFACT, vals, 5);
    FillReads(ARTIFACT, vals, 6);
    forall k | Field(EntryJson(x.name, p, key, claims, kb), k).Some?
      ensures k in ["name", "sd_jwt_compact", "header", "key", "resolved_claims", "kb_jwt", "verified_at_build"]
    {
      FillHas(ARTIFACT, vals, k);
    }
  }

  lemma AttestationWritten()
    ensures Only(Attestation(), ["signature_ok", "disclosures_ok"])
    ensures Field(Attestation(), "signature_ok") == Some(Bool(true)) && Field(Attestation(), "disclosures_ok") == Some(Bool(true))
  {
    hide Fill, Lookup;
    KbDistinct();
    var vals := [Some(Bool(true)), Some(Bool(true))];
    FillReads(ATTESTATION, vals, 0);
    FillReads(ATTESTATION, vals, 1);
    forall k | Field(Attestation(), k).Some? ensures k in ["signature_ok", "disclosures_ok"] { FillHas(ATTESTATION, vals, k); }
  }

  /** Build seals an artifact exactly when it is sealable, the library's check of its signature answering true among the
      rest, and then writes this entry. */
  lemma SealExactly(lib: Library, x: Input)
    ensures match Seal(lib, x)
            case None => forall p, key, claims :: !Sealable(lib, x, p, key, claims)
            case Some(s) => exists p, key, claims :: Sealable(lib, x, p, key, claims) && EntryWritten(lib, x, s.entry, p, key, claims)
                                                     && s.art == Bindings.Artifact(x.name, Trim(lib, x.text), claims)
  {
    hide Canon, Field, FieldOr, StrAt, VerifyEs256, CheckKb, ResolvedClaims, Parse, Trim, SnapshotKey, SignatureChecked, KbRecord,
         IssuerPart, KbPart, OthersAgree, Reconciles, EntryJson, EntryWritten, Split;
    if Parse(lib, x.text).Some? {
      var p := Parse(lib, x.text).value;
      if SnapshotKey(lib, p.header, x.source).Some? {
        var key := SnapshotKey(lib, p.header, x.source).value;
        ProvenanceIs(lib, p.header, FieldOr(key, "jwk"), StrAt(key, "provenance_class"));
        var jwt := SignatureMeans(lib, x.text, p, FieldOr(key, "jwk"));
        forall j | IssuerPart(Trim(lib, x.text), j) ensures j == jwt {
          IssuerPartUnique(Trim(lib, x.text), j);
          IssuerPartUnique(Trim(lib, x.text), jwt);
        }
        if ResolvedClaims(lib, p).Some? && CheckKb(lib, p, ResolvedClaims(lib, p).value).Some? {
          EntryIsWritten(lib, x, p, key, ResolvedClaims(lib, p).value, CheckKb(lib, p, ResolvedClaims(lib, p).value).value);
        }
      }
    }
  }
}
