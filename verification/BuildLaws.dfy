/** Whatever build writes, verify accepts. */
module BuildLaws {
  import opened Octets
  import opened Values
  import opened CanonicalJson
  import opened CanonicalLaws
  import opened CanonicalSame
  import opened RawJson
  import opened Jwk
  import opened CanonicalOrder
  import opened Base64
  import opened ClosedObjects
  import opened SdJwt
  import opened Pack
  import opened PackLaws
  import opened Build
  import Bindings
  import Der
  import ProducerBlock
  import Resolution
  import ResolverLaws
  import Restriction
  import Verdict

  /** What is known of the library: strict loading gives dicts, a key is an object, and so is what a key-binding record
      keeps. */
  ghost predicate Lawful(lib: Library) {
    && (forall b :: lib.load(b).Some? ==> Valid(lib.load(b).value))
    && (forall x :: lib.leaf(x).Some? ==> lib.leaf(x).value.Obj? && Valid(lib.leaf(x).value))
    && (forall u, h :: lib.fetch(u, h).Some? ==> lib.fetch(u, h).value.jwk.Obj? && Valid(lib.fetch(u, h).value.jwk))
  }

  ghost predicate SourcesValid(xs: seq<Input>) {
    forall i :: 0 <= i < |xs| && xs[i].source.Supplied? ==> Valid(xs[i].source.jwk)
  }

  // ------------------------------------------------------------------ the key lists name no key twice

  lemma TopDistinct()
    ensures Distinct(TOP)
  {}

  lemma ArtifactDistinct()
    ensures Distinct(ARTIFACT)
  {}

  lemma KeyDistinct()
    ensures Distinct(KEY) && Distinct(JWK_COPY)
  {}

  lemma KbDistinct()
    ensures Distinct(KB_COPY) && Distinct(ATTESTATION)
  {}

  lemma SmallDistinct()
    ensures Distinct(TIMESTAMP_BLOCK) && Distinct(ANCHOR) && Distinct(BINDING)
  {}

  // ------------------------------------------------------------------ trimming and characters

  lemma {:induction false} TrimRightEnds(lib: Library, s: string)
    ensures var t := TrimRight(lib, s);
            && t <= s && (t != "" ==> !lib.blank(t[|t| - 1])) && TrimRight(lib, t) == t
    decreases |s|
  {
    if s != "" && lib.blank(s[|s| - 1]) { TrimRightEnds(lib, s[..|s| - 1]); }
  }

  lemma {:induction false} TrimLeftEnds(lib: Library, s: string)
    ensures var t := TrimLeft(lib, s); t == "" || !lib.blank(t[0])
    decreases |s|
  {
    if s != "" && lib.blank(s[0]) { TrimLeftEnds(lib, s[1..]); }
  }

  /** Stripping twice is stripping once. */
  lemma TrimTwice(lib: Library, s: string)
    ensures Trim(lib, Trim(lib, s)) == Trim(lib, s)
  {
    var left := TrimLeft(lib, s);
    TrimLeftEnds(lib, s);
    TrimRightEnds(lib, left);
    var t := TrimRight(lib, left);
    if t != "" { assert t[0] == left[0]; }
    assert TrimLeft(lib, t) == t;
  }

  lemma {:induction false} SplitAscii(s: string, sep: char)
    requires sep as int < 128 && forall i :: 0 <= i < |Split(s, sep)| ==> Ascii(Split(s, sep)[i])
    ensures Ascii(s)
    decreases |s|
  {
    if s != "" {
      var rest, parts := Split(s[1..], sep), Split(s, sep);
      assert rest[1..] == if s[0] == sep then parts[2..] else parts[1..] by {
        if s[0] == sep { assert parts == [""] + rest; assert parts[1..] == rest; }
      }
      forall i | 0 <= i < |rest| ensures Ascii(rest[i]) {
        if s[0] == sep {
          assert rest[i] == parts[i + 1];
        } else if i > 0 {
          assert rest[i] == parts[i];
        } else {
          assert Ascii(parts[0]);
          assert parts[0][1..] == rest[0];
        }
      }
      SplitAscii(s[1..], sep);
      if s[0] != sep { assert Ascii(parts[0]) && parts[0][0] == s[0]; }
      assert s == [s[0]] + s[1..];
    }
  }

  lemma UrlSafeIsAscii(s: string)
    requires B64UrlDecode(s).Some?
    ensures Ascii(s)
  {}

  lemma {:induction false} NonEmptyHolds(ss: seq<string>, s: string)
    ensures s in NonEmpty(ss) <==> s in ss && s != ""
    decreases |ss|
  {
    if ss != [] {
      NonEmptyHolds(ss[1..], s);
      assert ss == [ss[0]] + ss[1..];
    }
  }

  /** A JWT of three segments that decode is ASCII. */
  lemma JwtIsAscii(jwt: string)
    requires var seg := Split(jwt, '.');
             |seg| == 3 && B64UrlDecode(seg[0]).Some? && B64UrlDecode(seg[1]).Some? && B64UrlDecode(seg[2]).Some?
    ensures Ascii(jwt)
  {
    hide B64UrlDecode, Ascii;
    var seg := Split(jwt, '.');
    UrlSafeIsAscii(seg[0]);
    UrlSafeIsAscii(seg[1]);
    UrlSafeIsAscii(seg[2]);
    SplitAscii(jwt, '.');
  }

  lemma DisclosuresDecode(lib: Library, p: Parsed)
    requires ResolvedClaims(lib, p).Some?
    ensures forall i :: 0 <= i < |p.disclosures| ==> B64UrlDecode(p.disclosures[i]).Some?
  {
    hide B64UrlDecode, Resolution.Walk, Resolution.BuildTable;
    var c := CodecOf(lib);
    ResolverLaws.BuildTableIndexes(c, p.disclosures);
    forall i | 0 <= i < |p.disclosures| ensures B64UrlDecode(p.disclosures[i]).Some? {
      assert ResolverLaws.Decodes(c, p.disclosures[i]);
    }
  }

  /** A presentation whose every part was read is ASCII: the parts that were dropped are empty. */
  lemma BuiltIsAscii(lib: Library, text: string, p: Parsed, resolved: Json)
    requires Parse(lib, text) == Some(p) && ResolvedClaims(lib, p) == Some(resolved) && CheckKb(lib, p, resolved).Some?
    ensures Ascii(p.compact)
  {
    hide B64UrlDecode, ResolvedClaims, Split, Trim, Ascii, CheckKb;
    var parts := Split(p.compact, '~');
    JwtIsAscii(parts[0]);
    DisclosuresDecode(lib, p);
    KbIsAscii(lib, p, resolved);
    var n := |parts| - 1;
    forall i | 0 <= i < |parts| && !(0 < i == n) ensures Ascii(parts[i]) {
      if i > 0 {
        PartIsAscii(parts[1..n], i - 1, p.disclosures);
      }
    }
    SplitAscii(p.compact, '~');
  }

  lemma KbIsAscii(lib: Library, p: Parsed, resolved: Json)
    requires CheckKb(lib, p, resolved).Some?
    ensures Ascii(p.kb)
  {
    hide B64UrlDecode, Split, Ascii, Es256, Recorded, Presentation, DigestOf;
    if p.kb == "" { EmptyIsAscii(); } else { JwtIsAscii(p.kb); }
  }

  lemma EmptyIsAscii()
    ensures Ascii("")
  {}

  lemma PartIsAscii(ss: seq<string>, i: nat, ds: seq<string>)
    requires i < |ss| && ds == NonEmpty(ss) && forall j :: 0 <= j < |ds| ==> B64UrlDecode(ds[j]).Some?
    ensures Ascii(ss[i])
  {
    hide B64UrlDecode, Ascii;
    NonEmptyHolds(ss, ss[i]);
    if ss[i] == "" {
      EmptyIsAscii();
    } else {
      var j :| 0 <= j < |ds| && ds[j] == ss[i];
      UrlSafeIsAscii(ds[j]);
    }
  }

  // ------------------------------------------------------------------ the key

  /** What the seven values of a key object are. */
  lemma KeyObjectReads(jwk: Json, cls: string, chain: Option<Json>, url: Option<Json>, digest: Option<Json>, at: Option<Json>)
    ensures var k := KeyObject(jwk, cls, chain, url, digest, at);
            k.Obj? && Field(k, JWK) == Some(jwk) && Field(k, PROVENANCE) == Some(Str(cls))
    ensures jwk.Obj? && (chain.Some? ==> IsOf(Strings, chain.value)) && (url.Some? ==> url.value.Str?)
            && (digest.Some? ==> digest.value.Str?) && (at.Some? ==> at.value.Str?) ==>
              Closed(KeyObject(jwk, cls, chain, url, digest, at), KEY)
  {
    hide Fill, Lookup, Closed, Distinct;
    var vals := [Some(jwk), Some(Str(cls)), Some(Str("how the key was obtained")), chain, url, digest, at];
    KeyDistinct();
    FillReads(KEY, vals, 0);
    FillReads(KEY, vals, 1);
    if jwk.Obj? && (chain.Some? ==> IsOf(Strings, chain.value)) && (url.Some? ==> url.value.Str?)
       && (digest.Some? ==> digest.value.Str?) && (at.Some? ==> at.value.Str?) {
      FillIsClosed(KEY, vals);
    }
  }

  lemma KeyObjectValid(jwk: Json, cls: string, chain: Option<Json>, url: Option<Json>, digest: Option<Json>, at: Option<Json>)
    requires Valid(jwk) && (chain.Some? ==> Valid(chain.value)) && (url.Some? ==> Valid(url.value))
    requires (digest.Some? ==> Valid(digest.value)) && (at.Some? ==> Valid(at.value))
    ensures Valid(KeyObject(jwk, cls, chain, url, digest, at))
  {
    hide Fill, Distinct;
    KeyDistinct();
    FillIsValid(KEY, [Some(jwk), Some(Str(cls)), Some(Str("how the key was obtained")), chain, url, digest, at]);
  }

  lemma PickedReads(jwk: Json)
    ensures forall i :: 0 <= i < |KEY_FIELDS| ==> Field(Picked(jwk), KEY_FIELDS[i]) == Field(jwk, KEY_FIELDS[i])
    ensures Valid(jwk) ==> Valid(Picked(jwk))
  {
    hide Fill, Lookup, Distinct, Valid;
    var vals := [Field(jwk, KTY), Field(jwk, CRV), Field(jwk, X), Field(jwk, Y)];
    KeyDistinct();
    FillReads(JWK_COPY, vals, 0);
    FillReads(JWK_COPY, vals, 1);
    FillReads(JWK_COPY, vals, 2);
    FillReads(JWK_COPY, vals, 3);
    if Valid(jwk) {
      forall i | 0 <= i < |vals| && vals[i].Some? ensures Valid(vals[i].value) { FieldIsValid(jwk, KEY_FIELDS[i]); }
      FillIsValid(JWK_COPY, vals);
    }
  }

  lemma FieldIsValid(a: Json, k: string)
    requires Valid(a) && Field(a, k).Some?
    ensures Valid(Field(a, k).value)
  {
    var i :| 0 <= i < |a.members| && a.members[i] == Member(k, Field(a, k).value);
  }

  /** A snapshotted key passes verify's checks of it: closed, of a known class, and reconciled with the header it came from. */
  lemma SnapshotHolds(lib: Library, header: Json, source: KeySource, key: Json)
    requires Lawful(lib) && SnapshotKey(lib, header, source) == Some(key)
    ensures Closed(key, KEY) && key.Obj? && FieldOr(key, JWK).Obj? && StrAt(key, PROVENANCE) in CLASSES
    ensures ProvenanceHolds(lib, header, FieldOr(key, JWK), StrAt(key, PROVENANCE))
  {
    hide Closed, KeyObject, Fingerprints, SameKey, Picked;
    match source {
      case Supplied(jwk) => KeyObjectReads(jwk, SUPPLIED, None, None, None, None);
      case FromUrl(url) =>
        var f := lib.fetch(url, header).value;
        KeyObjectReads(f.jwk, FETCHED, None, Some(Str(url)), Some(Str(f.digest)), Some(Str(f.at)));
      case FromHeader =>
        if Field(header, X5C).Some? {
          var x5c := Field(header, X5C).value;
          FingerprintsAreStrings(lib, x5c);
          KeyObjectReads(lib.leaf(x5c).value, FROM_X5C, Some(Fingerprints(lib, x5c)), None, None, None);
          SameKeySelf(lib.leaf(x5c).value);
        } else {
          var jwk := Field(header, JWK).value;
          KeyObjectReads(Picked(jwk), FROM_JWK, None, None, None, None);
          PickedSame(jwk);
        }
    }
  }

  lemma FingerprintsAreStrings(lib: Library, x5c: Json)
    requires StrictChain(x5c)
    ensures IsOf(Strings, Fingerprints(lib, x5c)) && Valid(Fingerprints(lib, x5c))
  {}

  lemma SameKeySelf(a: Json)
    requires a.Obj?
    ensures SameKey(a, a)
  {}

  lemma PickedSame(jwk: Json)
    requires jwk.Obj?
    ensures Picked(jwk).Obj? && SameKey(jwk, Picked(jwk))
  {
    PickedReads(jwk);
  }

  lemma SnapshotValid(lib: Library, header: Json, source: KeySource, key: Json)
    requires Lawful(lib) && Valid(header) && SnapshotKey(lib, header, source) == Some(key)
    requires source.Supplied? ==> Valid(source.jwk)
    ensures Valid(key)
  {
    hide KeyObject, Fingerprints, Picked;
    match source {
      case Supplied(jwk) => KeyObjectValid(jwk, SUPPLIED, None, None, None, None);
      case FromUrl(url) =>
        var f := lib.fetch(url, header).value;
        KeyObjectValid(f.jwk, FETCHED, None, Some(Str(url)), Some(Str(f.digest)), Some(Str(f.at)));
      case FromHeader =>
        if Field(header, X5C).Some? {
          FingerprintsAreStrings(lib, Field(header, X5C).value);
          KeyObjectValid(lib.leaf(Field(header, X5C).value).value, FROM_X5C, Some(Fingerprints(lib, Field(header, X5C).value)),
                         None, None, None);
        } else {
          FieldIsValid(header, JWK);
          PickedReads(Field(header, JWK).value);
          KeyObjectValid(Picked(Field(header, JWK).value), FROM_JWK, None, None, None, None);
        }
    }
  }

  // ------------------------------------------------------------------ the key-binding record

  function KbValues(kb: Kb): (vals: seq<Option<Json>>)
    ensures |vals| == |KB_COPY| && KbRecord(kb) == Obj(Fill(KB_COPY, vals))
  {
    match kb
    case NoKb => [Some(Bool(false)), None, None, None, None, None]
    case WithKb(HolderKeyMissing(c)) => [Some(Bool(true)), Some(Null), None, None, Some(Str("holder key unknown")), Some(c)]
    case WithKb(HolderKeyFound(s, h, c)) => [Some(Bool(true)), Some(Bool(s && h)), Some(Bool(s)), Some(Bool(h)), Some(Null), Some(c)]
  }

  lemma KbRecordHolds(kb: Kb)
    requires kb.WithKb? ==> kb.read.claims.Obj?
    ensures Closed(KbRecord(kb), KB_COPY) && KbRecord(kb).Obj? && Field(KbRecord(kb), PRESENT) == Some(Bool(kb.WithKb?))
    ensures RecordAgrees(KbRecord(kb), KbRecord(kb))
    ensures (kb.WithKb? ==> Valid(kb.read.claims)) ==> Valid(KbRecord(kb))
  {
    hide Fill, Lookup, Closed, Distinct, Valid, Canon;
    KbDistinct();
    var vals := KbValues(kb);
    FillReads(KB_COPY, vals, 0);
    assert forall i :: 0 <= i < |KB_COPY| ==> Fits(KB_COPY[i], vals[i]);
    FillIsClosed(KB_COPY, vals);
    if kb.WithKb? ==> Valid(kb.read.claims) { KbValuesValid(kb); FillIsValid(KB_COPY, vals); }
  }

  lemma KbValuesValid(kb: Kb)
    requires kb.WithKb? ==> Valid(kb.read.claims)
    ensures forall i :: 0 <= i < |KbValues(kb)| && KbValues(kb)[i].Some? ==> Valid(KbValues(kb)[i].value)
  {}

  lemma AttestationHolds()
    ensures Closed(Attestation(), ATTESTATION) && Attestation().Obj? && Valid(Attestation())
  {
    hide Fill, Closed, Distinct;
    KbDistinct();
    var vals := [Some(Bool(true)), Some(Bool(true))];
    FillIsClosed(ATTESTATION, vals);
    FillIsValid(ATTESTATION, vals);
  }

  // ------------------------------------------------------------------ the entry

  lemma EntryReads(name: string, p: Parsed, key: Json, resolved: Json, kb: Kb)
    requires p.header.Obj? && key.Obj? && KbRecord(kb).Obj?
    ensures var e := EntryJson(name, p, key, resolved, kb);
            && e.Obj? && Closed(e, ARTIFACT)
            && Field(e, NAME) == Some(Str(name)) && Field(e, SD_JWT) == Some(Str(p.compact)) && Field(e, HEADER) == Some(p.header)
            && Field(e, KEY_COPY) == Some(key) && Field(e, CLAIMS) == Some(resolved) && Field(e, KB_JWT) == Some(KbRecord(kb))
            && Field(e, ATTESTED) == Some(Attestation())
    ensures Valid(p.header) && Valid(key) && Valid(resolved) && Valid(KbRecord(kb)) ==> Valid(EntryJson(name, p, key, resolved, kb))
  {
    hide Fill, Lookup, Closed, Distinct, Valid, KbRecord, Attestation;
    ArtifactDistinct();
    AttestationHolds();
    var vals := [Some(Str(name)), Some(Str(p.compact)), Some(p.header), Some(key), Some(resolved), Some(KbRecord(kb)), Some(Attestation())];
    FillReads(ARTIFACT, vals, 0);
    FillReads(ARTIFACT, vals, 1);
    FillReads(ARTIFACT, vals, 2);
    FillReads(ARTIFACT, vals, 3);
    FillReads(ARTIFACT, vals, 4);
    FillReads(ARTIFACT, vals, 5);
    FillReads(ARTIFACT, vals, 6);
    FillIsClosed(ARTIFACT, vals);
    EntryValid(name, p, key, resolved, kb);
  }

  lemma EntryValid(name: string, p: Parsed, key: Json, resolved: Json, kb: Kb)
    ensures Valid(p.header) && Valid(key) && Valid(resolved) && Valid(KbRecord(kb)) ==> Valid(EntryJson(name, p, key, resolved, kb))
  {
    hide Fill, Distinct, Valid, KbRecord, Attestation;
    ArtifactDistinct();
    AttestationHolds();
    var vals := [Some(Str(name)), Some(Str(p.compact)), Some(p.header), Some(key), Some(resolved), Some(KbRecord(kb)), Some(Attestation())];
    if Valid(p.header) && Valid(key) && Valid(resolved) && Valid(KbRecord(kb)) {
      StringsAreValid(name);
      StringsAreValid(p.compact);
      FillIsValid(ARTIFACT, vals);
    }
  }

  lemma StringsAreValid(s: string)
    ensures Valid(Str(s)) && InProfile(Str(s))
  {}

  /** What one turn of build found out. */
  ghost predicate SealedAs(lib: Library, x: Input, s: Sealed, p: Parsed, key: Json, resolved: Json, kb: Kb) {
    && Parse(lib, x.text) == Some(p) && p.header.Obj? && p.payload.Obj? && Field(p.header, "crit").None?
    && SnapshotKey(lib, p.header, x.source) == Some(key)
    && VerifyEs256(lib, p, FieldOr(key, JWK)) == Some(true)
    && Reconciles(lib, p.header, FieldOr(key, JWK), StrAt(key, PROVENANCE))
    && ResolvedClaims(lib, p) == Some(resolved) && CheckKb(lib, p, resolved) == Some(kb) && !KbRefuted(kb)
    && s == Sealed(EntryJson(x.name, p, key, resolved, kb), Bindings.Artifact(x.name, p.compact, resolved))
  }

  lemma SealMeans(lib: Library, x: Input, s: Sealed) returns (p: Parsed, key: Json, resolved: Json, kb: Kb)
    requires Seal(lib, x) == Some(s)
    ensures SealedAs(lib, x, s, p, key, resolved, kb)
  {
    hide Parse, SnapshotKey, VerifyEs256, Reconciles, ResolvedClaims, CheckKb, EntryJson;
    p := Parse(lib, x.text).value;
    key := SnapshotKey(lib, p.header, x.source).value;
    resolved := ResolvedClaims(lib, p).value;
    kb := CheckKb(lib, p, resolved).value;
  }

  lemma KbOfCheck(lib: Library, p: Parsed, resolved: Json)
    requires Lawful(lib) && CheckKb(lib, p, resolved).Some?
    ensures var kb := CheckKb(lib, p, resolved).value;
            (kb.WithKb? <==> p.kb != "") && (kb.WithKb? ==> kb.read.claims.Obj? && Valid(kb.read.claims))
  {
    hide Split, B64UrlDecode, Recorded, Fill, Field, Es256, Presentation, DigestOf;
    var seg := Split(p.kb, '.');
    if p.kb != "" { RecordedIsValid(LoadSegment(lib, seg[1]).value); }
  }

  lemma RecordedIsValid(payload: Json)
    requires Valid(payload) && KbClaimsOk(payload)
    ensures Recorded(payload).Obj? && Valid(Recorded(payload))
  {
    hide Fill, Field, Valid;
    FieldIsValid(payload, AUD);
    FieldIsValid(payload, NONCE);
    FieldIsValid(payload, IAT);
    FillIsValid(RECORDED_CLAIMS, [Field(payload, AUD), Field(payload, NONCE), Field(payload, IAT)]);
  }

  lemma ParseTrimmed(lib: Library, text: string, p: Parsed)
    requires Parse(lib, text) == Some(p)
    ensures Trim(lib, p.compact) == p.compact && Parse(lib, p.compact) == Some(p)
  {
    hide Split, B64UrlDecode, LoadSegment, NonEmpty;
    TrimTwice(lib, text);
  }

  /** The copies in a sealed entry agree with its token. */
  lemma SealedCopiesAgree(lib: Library, x: Input, s: Sealed, p: Parsed, key: Json, resolved: Json, kb: Kb)
    requires Lawful(lib) && SealedAs(lib, x, s, p, key, resolved, kb)
    ensures EntryClosed(s.entry) && CopiesAgree(lib, s.entry, p)
  {
    hide Closed, Canon, Reconciles, ProvenanceHolds, KbRecord, EntryJson, Lawful, Attestation, Lookup, SnapshotKey, VerifyEs256,
         ResolvedClaims, CheckKb, Parse;
    KbOfCheck(lib, p, resolved);
    KbRecordHolds(kb);
    SnapshotHolds(lib, p.header, x.source, key);
    EntryReads(x.name, p, key, resolved, kb);
    AttestationHolds();
  }

  /** Verify measures of a sealed entry what build measured: a good artifact, with the claims build recorded. */
  lemma SealedVerifies(lib: Library, x: Input, s: Sealed)
    requires Lawful(lib) && Seal(lib, x) == Some(s)
    ensures CheckArtifact(lib, s.entry).Some? && Verdict.Good(CheckArtifact(lib, s.entry).value.0)
    ensures CheckArtifact(lib, s.entry).value.1 == s.art
    ensures EntryKnown(s.entry) && s.entry.Obj? && Field(s.entry, NAME) == Some(Str(x.name))
  {
    hide Closed, Canon, Reconciles, ProvenanceHolds, KbRecord, EntryJson, Lawful, Attestation, Lookup, SnapshotKey, VerifyEs256,
         ResolvedClaims, CheckKb, Parse, EntryClosed, CopiesAgree, RecordAgrees, Trim, Ascii, Seal;
    var p, key, resolved, kb := SealMeans(lib, x, s);
    SealedCopiesAgree(lib, x, s, p, key, resolved, kb);
    KbOfCheck(lib, p, resolved);
    KbRecordHolds(kb);
    SnapshotHolds(lib, p.header, x.source, key);
    EntryReads(x.name, p, key, resolved, kb);
    ParseTrimmed(lib, x.text, p);
    BuiltIsAscii(lib, x.text, p, resolved);
    ClosedIsKnown(s.entry);
  }

  lemma ClosedIsKnown(a: Json)
    requires EntryClosed(a)
    ensures EntryKnown(a)
  {
    hide NoneUnknown, FieldOr;
  }

  lemma SealedIsValid(lib: Library, x: Input, s: Sealed)
    requires Lawful(lib) && Seal(lib, x) == Some(s) && (x.source.Supplied? ==> Valid(x.source.jwk))
    ensures Valid(s.entry)
  {
    hide Closed, Reconciles, KbRecord, EntryJson, Lookup, SnapshotKey, VerifyEs256, ResolvedClaims, CheckKb, Parse, Seal, Valid, Lawful;
    var p, key, resolved, kb := SealMeans(lib, x, s);
    KbOfCheck(lib, p, resolved);
    KbRecordHolds(kb);
    SnapshotHolds(lib, p.header, x.source, key);
    PartsAreValid(lib, x.text, p);
    SnapshotValid(lib, p.header, x.source, key);
    ClaimsAreValid(lib, p, resolved);
    EntryReads(x.name, p, key, resolved, kb);
  }

  lemma PartsAreValid(lib: Library, text: string, p: Parsed)
    requires Lawful(lib) && Parse(lib, text) == Some(p)
    ensures Valid(p.header) && Valid(p.payload)
  {
    hide Valid, Split, B64UrlDecode, Trim, NonEmpty;
  }

  lemma ClaimsAreValid(lib: Library, p: Parsed, resolved: Json)
    requires Lawful(lib) && Valid(p.payload) && ResolvedClaims(lib, p) == Some(resolved)
    ensures Valid(resolved)
  {
    hide B64UrlDecode, Resolution.Resolve, ResolverLaws.Clean;
    var c := CodecOf(lib);
    assert ResolverLaws.ParsesStrictly(c, p.disclosures);
    ResolverLaws.ResolutionGuarantees(c, p.payload.members, p.disclosures);
    CleanIsValid(resolved);
  }

  lemma CleanIsValid(j: Json)
    requires ResolverLaws.Clean(j, Resolution.MAX_JSON_DEPTH)
    ensures Valid(j)
  {}

  // ------------------------------------------------------------------ what the digest covers

  /** The values whose keys the digest covers. */
  function Covered(schema: Schema, vals: seq<Option<Json>>): (r: seq<Option<Json>>)
    requires |schema| == |vals|
    ensures |r| == |vals|
  {
    seq(|vals|, i requires 0 <= i < |vals| => if schema[i].name in EXCLUDED then None else vals[i])
  }

  lemma {:induction false} KeptFill(schema: Schema, vals: seq<Option<Json>>)
    requires |schema| == |vals|
    ensures Kept(Fill(schema, vals)) == Fill(schema, Covered(schema, vals))
    decreases |schema|
  {
    if schema != [] {
      KeptFill(schema[1..], vals[1..]);
      assert Covered(schema, vals)[1..] == Covered(schema[1..], vals[1..]);
      var ms, rest := Fill(schema, vals), Fill(schema[1..], vals[1..]);
      if vals[0].Some? { assert ms[1..] == rest; } else { assert ms == rest; }
    }
  }

  lemma TopCovered(req: Request, ss: seq<Sealed>, found: seq<Bindings.Binding>, d: Option<Json>, t: Option<Json>, a: Option<Json>)
    ensures Covered(TOP, PackValues(req, ss, found, d, t, a)) == PackValues(req, ss, found, None, None, None)
  {
    var vals, core := PackValues(req, ss, found, d, t, a), PackValues(req, ss, found, None, None, None);
    forall i | 0 <= i < |TOP| ensures Covered(TOP, vals)[i] == core[i] {
      assert TOP[i].name in EXCLUDED <==> i in {6, 7, 8, 9} by { ExcludedPlaces(i); }
    }
  }

  lemma ExcludedPlaces(i: nat)
    requires i < |TOP|
    ensures TOP[i].name in EXCLUDED <==> i >= 6
  {}

  /** The digest of the finished pack is the digest build took before it added what it does not cover. */
  lemma DigestIsOfCore(lib: Library, req: Request, ss: seq<Sealed>, found: seq<Bindings.Binding>, d: Option<Json>, t: Option<Json>,
                       a: Option<Json>)
    ensures Recompute(lib, Obj(Fill(TOP, PackValues(req, ss, found, d, t, a)))) == lib.sha(Canon(Core(req, ss, found)))
  {
    hide Fill, Kept, Canon, Covered;
    KeptFill(TOP, PackValues(req, ss, found, d, t, a));
    TopCovered(req, ss, found, d, t, a);
  }

  // ------------------------------------------------------------------ the fields of the pack

  lemma PackReads(req: Request, ss: seq<Sealed>, found: seq<Bindings.Binding>, d: Option<Json>, t: Option<Json>, a: Option<Json>)
    ensures var ev := Obj(Fill(TOP, PackValues(req, ss, found, d, t, a)));
            && Field(ev, FORMAT) == Some(Str(req.format)) && Field(ev, CREATED) == Some(Str(req.now))
            && Field(ev, SCOPE) == Some(Str(req.scope)) && Field(ev, ARTIFACTS) == Some(Arr(EntriesOf(ss)))
            && Field(ev, BINDINGS) == Some(Arr(BindingsJson(found))) && Field(ev, DIGEST) == d && Field(ev, TIMESTAMP) == t
            && Field(ev, SIGNATURES) == None && Field(ev, ANCHORS) == a
  {
    hide Fill, Lookup, Distinct;
    TopDistinct();
    var vals := PackValues(req, ss, found, d, t, a);
    FillReads(TOP, vals, 0);
    FillReads(TOP, vals, 2);
    FillReads(TOP, vals, 3);
    FillReads(TOP, vals, 4);
    FillReads(TOP, vals, 5);
    FillReads(TOP, vals, 6);
    FillReads(TOP, vals, 7);
    FillReads(TOP, vals, 8);
    FillReads(TOP, vals, 9);
  }

  lemma PackIsClosed(req: Request, ss: seq<Sealed>, found: seq<Bindings.Binding>, d: string, t: Json, anchors: seq<Json>)
    requires t.Obj?
    ensures Closed(Obj(Fill(TOP, PackValues(req, ss, found, Some(Str(d)), Some(t), AnchorsMember(anchors)))), TOP)
  {
    hide Fill, Closed, Distinct;
    TopDistinct();
    FillIsClosed(TOP, PackValues(req, ss, found, Some(Str(d)), Some(t), AnchorsMember(anchors)));
  }

  // ------------------------------------------------------------------ the bindings

  lemma BindingHolds(b: Bindings.Binding)
    ensures Closed(BindingJson(b), BINDING) && Valid(BindingJson(b))
  {
    hide Fill, Closed, Distinct;
    SmallDistinct();
    var vals := [Some(Str(b.holder)), Some(Str(b.claim)), Some(Str(b.commitsTo)),
                 Some(Str(if b.encoding.HexForm? then "hex" else "b64url"))];
    FillIsClosed(BINDING, vals);
    FillIsValid(BINDING, vals);
  }

  lemma {:induction false} MeasuredSealed(lib: Library, xs: seq<Input>, ss: seq<Sealed>)
    requires Lawful(lib) && SealAll(lib, xs) == Some(ss)
    ensures |ss| == |xs| && Measured(lib, EntriesOf(ss)) == ArtsOf(ss)
    ensures forall i :: 0 <= i < |xs| ==> Seal(lib, xs[i]) == Some(ss[i])
    decreases |xs|
  {
    hide Seal, CheckArtifact, Lawful, Verdict.Good, EntryKnown, Field;
    if xs != [] {
      var n := |xs| - 1;
      var done := SealAll(lib, xs[..n]).value;
      MeasuredSealed(lib, xs[..n], done);
      SealedVerifies(lib, xs[n], ss[n]);
      assert ss[..n] == done;
      assert EntriesOf(ss)[..n] == EntriesOf(done) && ArtsOf(ss) == ArtsOf(done) + [ss[n].art];
    } else {
      assert EntriesOf(ss) == [] && ArtsOf(ss) == [];
    }
  }

  lemma BindingsHold(lib: Library, xs: seq<Input>, ss: seq<Sealed>)
    requires Lawful(lib) && SealAll(lib, xs) == Some(ss)
    ensures var found := Bindings.AllBindings(lib.sha, ArtsOf(ss), ArtsOf(ss));
            BindingsMatch(lib, EntriesOf(ss), BindingsJson(found)) && AllClosed(BindingsJson(found), BINDING)
            && forall i :: 0 <= i < |found| ==> Valid(BindingsJson(found)[i])
  {
    hide Bindings.AllBindings, Lawful, SealAll, Measured, Canons, BindingJson, Closed, Valid;
    MeasuredSealed(lib, xs, ss);
    var found := Bindings.AllBindings(lib.sha, ArtsOf(ss), ArtsOf(ss));
    forall i | 0 <= i < |found| ensures Closed(BindingsJson(found)[i], BINDING) && Valid(BindingsJson(found)[i]) {
      BindingHolds(found[i]);
    }
  }

  // ------------------------------------------------------------------ the anchors

  /** A stamp that build accepted is a token verify finds bound to the digest. */
  lemma StampBinds(tsa: Authority, digest: Bytes, url: string)
    requires Stamp(tsa, digest, url).Some?
    ensures Verdict.Binds(TokenOf(Stamp(tsa, digest, url).value, digest))
  {
    hide Der.ParseResponse, Unb64, EncodePadded;
    var reply := tsa(digest, url).value;
    assert reply != [] by { NoEmptyResponse(); }
    Unb64IsInverse(EncodePadded(reply), reply);
    StatusOfResponse(reply);
  }

  lemma NoEmptyResponse()
    ensures Der.ParseResponse([]).Err?
  {
    assert Der.DerTlv([], 0).Err?;
  }

  lemma StatusOfResponse(reply: Bytes)
    requires Der.ParseResponse(reply).Ok?
    ensures Der.ReadStatus(reply).Ok? && Der.ReadStatus(reply).value.0 == Der.ParseResponse(reply).value.granted
  {
    hide Der.ReadStatus, Der.FindTst, Der.ReadTst;
  }

  lemma TimestampHolds(tsa: Authority, digest: Bytes, url: Option<string>)
    ensures var t := Timestamp(tsa, digest, url);
            && t.Obj? && Closed(t, TIMESTAMP_BLOCK) && Strict(t) && Depth(t) <= 1
            && (BlockOf(Some(t), digest).NotAnchored?
                || (BlockOf(Some(t), digest).Stamped? && Verdict.Binds(BlockOf(Some(t), digest).token)))
  {
    hide Fill, Closed, Distinct, Stamp, Lookup, TokenOf, Verdict.Binds, Strict;
    SmallDistinct();
    var stamp := if url.Some? then Stamp(tsa, digest, url.value) else None;
    var vals: seq<Option<Json>> :=
      if url.None? then [Some(Bool(false)), None, None, None, Some(Str("no TSA provided"))]
      else if stamp.Some? then [Some(Bool(true)), Some(Str(stamp.value)), Some(Str(url.value)), None, None]
      else [Some(Bool(false)), None, Some(Str(url.value)), None, Some(Str("not stamped"))];
    assert Timestamp(tsa, digest, url) == Obj(Fill(TIMESTAMP_BLOCK, vals));
    FillReads(TIMESTAMP_BLOCK, vals, 0);
    FillReads(TIMESTAMP_BLOCK, vals, 1);
    FillIsClosed(TIMESTAMP_BLOCK, vals);
    FlatIsStrict(TIMESTAMP_BLOCK, vals);
    if stamp.Some? { StampBinds(tsa, digest, url.value); }
  }

  /** An object of strings and booleans. */
  lemma FlatIsStrict(schema: Schema, vals: seq<Option<Json>>)
    requires |schema| == |vals| && Distinct(schema)
    requires forall i :: 0 <= i < |vals| && vals[i].Some? ==> vals[i].value.Str? || vals[i].value.Bool?
    ensures Strict(Obj(Fill(schema, vals))) && Depth(Obj(Fill(schema, vals))) <= 1
  {
    hide Fill, Distinct;
    FillIsValid(schema, vals);
    FillInProfile(schema, vals);
    FillDepth(schema, vals, 0);
  }

  lemma AnchorHolds(url: string, tsr: string)
    ensures var a := AnchorJson(url, tsr); Closed(a, ANCHOR) && Field(a, TSR) == Some(Str(tsr)) && Strict(a) && Depth(a) <= 1
  {
    hide Fill, Closed, Distinct, Lookup, Strict;
    SmallDistinct();
    var vals := [Some(Str("rfc3161")), Some(Str(tsr)), Some(Str(url)), None];
    FillReads(ANCHOR, vals, 1);
    FillIsClosed(ANCHOR, vals);
    FlatIsStrict(ANCHOR, vals);
  }

  lemma {:induction false} AnchorsHold(tsa: Authority, digest: Bytes, urls: seq<string>)
    ensures var anchors := MoreAnchors(tsa, digest, urls);
            && AllClosed(anchors, ANCHOR)
            && (forall i :: 0 <= i < |anchors| ==> Strict(anchors[i]) && Depth(anchors[i]) <= 1)
            && forall i :: 0 <= i < |anchors| ==> Verdict.Binds(TokenOf(StrAt(anchors[i], TSR), digest))
    decreases |urls|
  {
    hide Closed, Strict, Stamp, AnchorJson, TokenOf, Verdict.Binds;
    if urls != [] {
      var n := |urls| - 1;
      AnchorsHold(tsa, digest, urls[..n]);
      if Stamp(tsa, digest, urls[n]).Some? {
        StampBinds(tsa, digest, urls[n]);
        AnchorHolds(urls[n], Stamp(tsa, digest, urls[n]).value);
      }
    }
  }

  // ------------------------------------------------------------------ the whole pack

  /** Verify with no policy input. */
  const NO_POLICY: Verdict.Policy := Verdict.Policy(false, false, false, None, None, false, false, false)

  /** The request names a clock reading and keys that are JSON objects without a repeated name. */
  ghost predicate Proper(req: Request) {
    Restriction.Matches(req.now, Restriction.DATE_TIME) && SourcesValid(req.inputs)
  }

  lemma NamesHold(lib: Library, xs: seq<Input>, ss: seq<Sealed>)
    requires Lawful(lib) && SealAll(lib, xs) == Some(ss) && NamesGiven(xs)
    ensures NamesOk(EntriesOf(ss)) && forall i :: 0 <= i < |ss| ==> EntryKnown(EntriesOf(ss)[i])
  {
    hide Seal, CheckArtifact, Lawful, SealAll, EntryKnown, Lookup;
    MeasuredSealed(lib, xs, ss);
    forall i | 0 <= i < |xs|
      ensures EntryKnown(ss[i].entry) && ss[i].entry.Obj? && Field(ss[i].entry, NAME) == Some(Str(xs[i].name))
    {
      SealedVerifies(lib, xs[i], ss[i]);
    }
  }

  lemma ResultsGood(lib: Library, xs: seq<Input>, ss: seq<Sealed>)
    requires Lawful(lib) && SealAll(lib, xs) == Some(ss)
    ensures |ss| == |xs| && forall i :: 0 <= i < |ss| ==> Verdict.Good(Results(lib, EntriesOf(ss))[i])
  {
    hide Seal, CheckArtifact, Lawful, SealAll, Verdict.Good;
    MeasuredSealed(lib, xs, ss);
    forall i | 0 <= i < |xs| ensures Verdict.Good(Results(lib, EntriesOf(ss))[i]) { SealedVerifies(lib, xs[i], ss[i]); }
  }

  lemma CoreOfValid(req: Request, ss: seq<Sealed>, found: seq<Bindings.Binding>)
    requires forall i :: 0 <= i < |ss| ==> Valid(EntriesOf(ss)[i])
    requires forall i :: 0 <= i < |found| ==> Valid(BindingsJson(found)[i])
    ensures Valid(Core(req, ss, found))
  {
    hide Fill, Distinct, EntriesOf, BindingsJson;
    TopDistinct();
    var vals := PackValues(req, ss, found, None, None, None);
    forall i | 0 <= i < |vals| && vals[i].Some? ensures Valid(vals[i].value) { if i == 3 || i == 4 {} }
    FillIsValid(TOP, vals);
  }

  lemma CoreIsValid(lib: Library, req: Request, ss: seq<Sealed>, found: seq<Bindings.Binding>)
    requires Lawful(lib) && SealAll(lib, req.inputs) == Some(ss) && SourcesValid(req.inputs)
    requires found == Bindings.AllBindings(lib.sha, ArtsOf(ss), ArtsOf(ss))
    ensures Valid(Core(req, ss, found))
  {
    hide Seal, SealAll, Lawful, Bindings.AllBindings, BindingsJson, Core, Valid, BindingsMatch, AllClosed;
    MeasuredSealed(lib, req.inputs, ss);
    forall i | 0 <= i < |ss| ensures Valid(EntriesOf(ss)[i]) { SealedIsValid(lib, req.inputs[i], ss[i]); }
    BindingsHold(lib, req.inputs, ss);
    CoreOfValid(req, ss, found);
  }

  /** The blocks added after the digest keep the pack within the profile. */
  lemma PackIsStrict(req: Request, ss: seq<Sealed>, found: seq<Bindings.Binding>, d: string, t: Json, anchors: seq<Json>)
    requires Strict(Core(req, ss, found)) && Depth(Core(req, ss, found)) <= MAX_JSON_DEPTH
    requires Strict(t) && Depth(t) <= 1 && forall i :: 0 <= i < |anchors| ==> Strict(anchors[i]) && Depth(anchors[i]) <= 1
    ensures var ev := Obj(Fill(TOP, PackValues(req, ss, found, Some(Str(d)), Some(t), AnchorsMember(anchors))));
            Strict(ev) && Depth(ev) <= MAX_JSON_DEPTH
  {
    hide Fill, Distinct, BindingsJson, EntriesOf;
    TopDistinct();
    var core, vals := PackValues(req, ss, found, None, None, None), PackValues(req, ss, found, Some(Str(d)), Some(t), AnchorsMember(anchors));
    CoreMembers(req, ss, found);
    assert forall i :: 0 <= i < 6 ==> vals[i] == core[i];
    ShallowList(anchors);
    forall i | 0 <= i < |vals| && vals[i].Some?
      ensures Valid(vals[i].value) && InProfile(vals[i].value) && Depth(vals[i].value) <= MAX_JSON_DEPTH - 1
    {
      if i < 6 { assert vals[i] == core[i]; }
    }
    FillIsValid(TOP, vals);
    FillInProfile(TOP, vals);
    FillDepth(TOP, vals, MAX_JSON_DEPTH - 1);
  }

  lemma ShallowList(anchors: seq<Json>)
    requires forall i :: 0 <= i < |anchors| ==> Strict(anchors[i]) && Depth(anchors[i]) <= 1
    ensures Strict(Arr(anchors)) && Depth(Arr(anchors)) <= 2
  {
    ResolverLaws.ShallowItemsIsDepth(anchors, 1);
  }

  lemma CoreMembers(req: Request, ss: seq<Sealed>, found: seq<Bindings.Binding>)
    requires Strict(Core(req, ss, found)) && Depth(Core(req, ss, found)) <= MAX_JSON_DEPTH
    ensures var core := PackValues(req, ss, found, None, None, None);
            forall i :: 0 <= i < 6 ==>
              Valid(core[i].value) && InProfile(core[i].value) && Depth(core[i].value) <= MAX_JSON_DEPTH - 1
  {
    hide Fill, Distinct, BindingsJson, EntriesOf;
    var core := PackValues(req, ss, found, None, None, None);
    FillInProfile(TOP, core);
    FillDepth(TOP, core, MAX_JSON_DEPTH - 1);
    FillMembers(TOP, core);
    var ms := Fill(TOP, core);
    forall i | 0 <= i < 6 ensures Valid(core[i].value) {
      assert core[i].Some?;
      var j :| 0 <= j < |ms| && ms[j] == Member(TOP[i].name, core[i].value);
    }
  }

  function FoundIn(lib: Library, ss: seq<Sealed>): seq<Bindings.Binding> {
    Bindings.AllBindings(lib.sha, ArtsOf(ss), ArtsOf(ss))
  }

  function DigestOfCore(lib: Library, req: Request, ss: seq<Sealed>): Bytes { lib.sha(Canon(Core(req, ss, FoundIn(lib, ss)))) }

  function Finished(req: Request, ss: seq<Sealed>, found: seq<Bindings.Binding>, digest: Bytes, t: Json, anchors: seq<Json>): Json {
    Obj(Fill(TOP, PackValues(req, ss, found, Some(Str(Bindings.Hex(digest))), Some(t), AnchorsMember(anchors))))
  }

  lemma BuiltIsFinished(lib: Library, tsa: Authority, req: Request, ev: Json) returns (ss: seq<Sealed>)
    requires Built(lib, tsa, req) == Some(ev)
    ensures SealAll(lib, req.inputs) == Some(ss) && NamesGiven(req.inputs)
    ensures LoadsStrict(Canon(Core(req, ss, FoundIn(lib, ss)))).Some?
    ensures var digest := DigestOfCore(lib, req, ss);
            ev == Finished(req, ss, FoundIn(lib, ss), digest, Timestamp(tsa, digest, req.tsa), MoreAnchors(tsa, digest, req.more))
  {
    hide SealAll, LoadsStrict, Canon, Core, PackValues, Fill, Bindings.AllBindings, Timestamp, MoreAnchors, Bindings.Hex;
    ss := SealAll(lib, req.inputs).value;
  }

  lemma FinishedReads(req: Request, ss: seq<Sealed>, found: seq<Bindings.Binding>, digest: Bytes, t: Json, anchors: seq<Json>)
    ensures var ev := Finished(req, ss, found, digest, t, anchors);
            && StrAt(ev, FORMAT) == req.format && StrAt(ev, CREATED) == req.now && StrAt(ev, SCOPE) == req.scope
            && ListAt(ev, ARTIFACTS) == EntriesOf(ss) && ListAt(ev, BINDINGS) == BindingsJson(found)
            && Field(ev, DIGEST) == Some(Str(Bindings.Hex(digest))) && Field(ev, TIMESTAMP) == Some(t)
            && Field(ev, SIGNATURES) == None && ListAt(ev, ANCHORS) == anchors
  {
    hide Fill, Lookup, BindingsJson, EntriesOf, Bindings.Hex;
    PackReads(req, ss, found, Some(Str(Bindings.Hex(digest))), Some(t), AnchorsMember(anchors));
  }

  lemma FinishedIsAdmitted(lib: Library, tsa: Authority, req: Request, ss: seq<Sealed>, digest: Bytes)
    requires Lawful(lib) && Proper(req) && SealAll(lib, req.inputs) == Some(ss) && NamesGiven(req.inputs)
    ensures Admitted(lib, req.format, req.scope,
                     Finished(req, ss, FoundIn(lib, ss), digest, Timestamp(tsa, digest, req.tsa), MoreAnchors(tsa, digest, req.more)))
  {
    hide Field, StrAt, ListAt, Lawful, SealAll, FoundIn, Timestamp, MoreAnchors, Closed, NamesOk, EntryKnown, AllClosed, EntriesOf,
         BindingsJson, SourcesValid, Finished, NamesGiven, Strict, NoneUnknown, BlockOf, Verdict.Binds, Bindings.Hex, TokenOf;
    var t, anchors, found := Timestamp(tsa, digest, req.tsa), MoreAnchors(tsa, digest, req.more), FoundIn(lib, ss);
    FinishedReads(req, ss, found, digest, t, anchors);
    TimestampHolds(tsa, digest, req.tsa);
    AnchorsHold(tsa, digest, req.more);
    FinishedIsClosed(req, ss, found, digest, t, anchors);
    NamesHold(lib, req.inputs, ss);
    BindingsHold(lib, req.inputs, ss);
    assert AllClosed(BindingsJson(found), BINDING) by { FoundIsAll(lib, ss); }
    NoFields();
  }

  lemma FoundIsAll(lib: Library, ss: seq<Sealed>)
    ensures FoundIn(lib, ss) == Bindings.AllBindings(lib.sha, ArtsOf(ss), ArtsOf(ss))
  {}

  lemma FinishedIsClosed(req: Request, ss: seq<Sealed>, found: seq<Bindings.Binding>, digest: Bytes, t: Json, anchors: seq<Json>)
    requires t.Obj?
    ensures Closed(Finished(req, ss, found, digest, t, anchors), TOP)
  {
    hide Fill, Closed, PackValues, Bindings.Hex;
    PackIsClosed(req, ss, found, Bindings.Hex(digest), t, anchors);
  }

  lemma FinishedFacts(lib: Library, tsa: Authority, req: Request, ss: seq<Sealed>, verify: ProducerBlock.Verifier)
    requires Lawful(lib) && SealAll(lib, req.inputs) == Some(ss)
    ensures var digest := DigestOfCore(lib, req, ss);
            var ev := Finished(req, ss, FoundIn(lib, ss), digest, Timestamp(tsa, digest, req.tsa), MoreAnchors(tsa, digest, req.more));
            var f := FactsOf(lib, verify, ev);
            && f.producer == None && (f.artifacts == [] <==> req.inputs == [])
            && (req.inputs != [] ==> Verdict.AllGood(f, NO_POLICY, None))
  {
    hide Field, StrAt, ListAt, Lawful, SealAll, Timestamp, MoreAnchors, Closed, AllClosed, EntriesOf, BindingsJson, Finished, Strict,
         BlockOf, Verdict.Binds, Bindings.Hex, TokenOf, Recompute, Results, AnchorTokens, BindingsMatch, Verdict.Good, Core, Canon,
         Bindings.AllBindings, ArtsOf;
    var digest, found := DigestOfCore(lib, req, ss), FoundIn(lib, ss);
    var t, anchors := Timestamp(tsa, digest, req.tsa), MoreAnchors(tsa, digest, req.more);
    FinishedReads(req, ss, found, digest, t, anchors);
    TimestampHolds(tsa, digest, req.tsa);
    AnchorsHold(tsa, digest, req.more);
    TokensBind(anchors, digest);
    FinishedDigest(lib, req, ss, found, digest, t, anchors);
    BindingsHold(lib, req.inputs, ss);
    ResultsGood(lib, req.inputs, ss);
  }

  lemma FinishedDigest(lib: Library, req: Request, ss: seq<Sealed>, found: seq<Bindings.Binding>, digest: Bytes, t: Json,
                       anchors: seq<Json>)
    ensures Recompute(lib, Finished(req, ss, found, digest, t, anchors)) == lib.sha(Canon(Core(req, ss, found)))
  {
    hide Fill, PackValues, Bindings.Hex, Recompute, Core, Canon;
    DigestIsOfCore(lib, req, ss, found, Some(Str(Bindings.Hex(digest))), Some(t), AnchorsMember(anchors));
  }

  lemma FinishedIsStrict(lib: Library, tsa: Authority, req: Request, ss: seq<Sealed>, digest: Bytes)
    requires Lawful(lib) && SourcesValid(req.inputs) && SealAll(lib, req.inputs) == Some(ss)
    requires LoadsStrict(Canon(Core(req, ss, FoundIn(lib, ss)))).Some?
    ensures var ev := Finished(req, ss, FoundIn(lib, ss), digest, Timestamp(tsa, digest, req.tsa), MoreAnchors(tsa, digest, req.more));
            Strict(ev) && Depth(ev) <= MAX_JSON_DEPTH
  {
    hide Lawful, SealAll, Timestamp, MoreAnchors, Closed, AllClosed, Strict, BlockOf, Verdict.Binds, Bindings.Hex, TokenOf, Core, Canon,
         Bindings.AllBindings, ArtsOf, LoadsStrict, SourcesValid, PackValues, Fill, Norm;
    var found := FoundIn(lib, ss);
    CoreIsValid(lib, req, ss, found);
    CanonRoundTrip(Core(req, ss, found));
    ValidInProfile(Core(req, ss, found));
    TimestampHolds(tsa, digest, req.tsa);
    AnchorsHold(tsa, digest, req.more);
    PackIsStrict(req, ss, found, Bindings.Hex(digest), Timestamp(tsa, digest, req.tsa), MoreAnchors(tsa, digest, req.more));
  }

  /** The pack build wrote, before it is read back: within the profile, admitted, and every fact of it good. */
  lemma BuiltHolds(lib: Library, tsa: Authority, req: Request, verify: ProducerBlock.Verifier, ev: Json)
    requires Lawful(lib) && Proper(req) && Built(lib, tsa, req) == Some(ev)
    ensures Strict(ev) && Depth(ev) <= MAX_JSON_DEPTH && Admitted(lib, req.format, req.scope, ev)
    ensures var f := FactsOf(lib, verify, ev); (req.inputs != [] ==> Verdict.AllGood(f, NO_POLICY, None)) && f.producer == None
    ensures req.inputs == [] ==> FactsOf(lib, verify, ev).artifacts == []
  {
    hide Lawful, SealAll, Admitted, FactsOf, Verdict.AllGood, Finished, Strict, Built, DigestOfCore, LoadsStrict;
    var ss := BuiltIsFinished(lib, tsa, req, ev);
    var digest := DigestOfCore(lib, req, ss);
    FinishedIsStrict(lib, tsa, req, ss, digest);
    FinishedIsAdmitted(lib, tsa, req, ss, digest);
    FinishedFacts(lib, tsa, req, ss, verify);
  }

  lemma ValidInProfile(j: Json)
    requires Valid(j) && InProfile(j)
    ensures Strict(j)
  {}

  lemma NoFields()
    ensures ListAt(Null, "signatures") == []
  {}

  lemma TokensBind(anchors: seq<Json>, digest: Bytes)
    requires forall i :: 0 <= i < |anchors| ==> Verdict.Binds(TokenOf(StrAt(anchors[i], TSR), digest))
    ensures forall i :: 0 <= i < |anchors| ==> Verdict.Binds(AnchorTokens(anchors, digest)[i])
  {}

  /** Whatever build writes, the strict reader reads back, in the raw spelling of the file as in the canonical one, and
      verify with no policy input admits it; the receipt is valid exactly when there was an artifact to seal. The library is
      the same on both sides, and with it the reading of integral floats. */
  lemma WhatBuildWritesVerifies(lib: Library, tsa: Authority, req: Request, verify: ProducerBlock.Verifier, ev: Json)
    requires Lawful(lib) && Proper(req) && Built(lib, tsa, req) == Some(ev)
    ensures LoadsStrict(Raw(Norm(ev))) == LoadsStrict(Canon(ev))
    ensures var back := LoadsStrict(Raw(Norm(ev)));
            && back.Some? && Admitted(lib, req.format, req.scope, back.value)
            && forall r: Verdict.Receipt :: Verdict.Reports(r, FactsOf(lib, verify, back.value), NO_POLICY) ==>
                 (r.valid <==> req.inputs != [])
  {
    hide Raw, Canon, Built, Admitted, FactsOf, LoadsStrict, Verdict.Reports, Norm, Lawful, Proper, Valid, InProfile, Verdict.AllGood;
    BuiltHolds(lib, tsa, req, verify, ev);
    StrictParts(ev);
    CanonRoundTrip(ev);
    RawLoadsAsCanon(ev);
    ReadBackIsAlike(ev);
    var back := Norm(ev);
    ValidInProfile(back);
    KeyOrderDoesNotMatter(lib, verify, req.format, req.scope, ev, back);
    var f := FactsOf(lib, verify, back);
    assert f == FactsOf(lib, verify, ev);
    forall r: Verdict.Receipt | Verdict.Reports(r, f, NO_POLICY) ensures r.valid <==> req.inputs != [] {
      ReceiptWithoutPolicy(r, f);
    }
  }

  lemma EmptyCoreIsStrict(req: Request)
    ensures Valid(Core(req, [], [])) && InProfile(Core(req, [], [])) && Depth(Core(req, [], [])) <= 2
  {
    hide Distinct, Fill;
    var vals := PackValues(req, [], [], None, None, None);
    TopDistinct();
    forall i | 0 <= i < |vals| && vals[i].Some?
      ensures Valid(vals[i].value) && InProfile(vals[i].value) && Depth(vals[i].value) <= 1
    {
    }
    FillIsValid(TOP, vals);
    FillInProfile(TOP, vals);
    FillDepth(TOP, vals, 1);
  }

  /** Build accepts an empty list of artifacts, whatever else is asked: the pack is written and admitted, and verify finds it
      not valid. */
  lemma EmptyListIsBuilt(lib: Library, tsa: Authority, req: Request, verify: ProducerBlock.Verifier) returns (ev: Json)
    requires Lawful(lib) && Proper(req) && req.inputs == []
    ensures Built(lib, tsa, req) == Some(ev)
    ensures var back := LoadsStrict(Raw(Norm(ev)));
            && back.Some? && Admitted(lib, req.format, req.scope, back.value)
            && forall r: Verdict.Receipt :: Verdict.Reports(r, FactsOf(lib, verify, back.value), NO_POLICY) ==> !r.valid
  {
    hide Raw, Canon, Core, Admitted, FactsOf, LoadsStrict, Verdict.Reports, Lawful, Proper, Valid, InProfile, Fill, PackValues, Depth;
    assert Bindings.AllBindings(lib.sha, ArtsOf([]), ArtsOf([])) == [];
    EmptyCoreIsStrict(req);
    CanonRoundTrip(Core(req, [], []));
    ev := Built(lib, tsa, req).value;
    WhatBuildWritesVerifies(lib, tsa, req, verify, ev);
  }

  lemma StrictParts(j: Json)
    requires Strict(j)
    ensures Valid(j) && InProfile(j)
  {}

  lemma ReceiptWithoutPolicy(r: Verdict.Receipt, f: Verdict.Facts)
    requires Verdict.Reports(r, f, NO_POLICY) && f.producer == None
    ensures r.valid <==> Verdict.AllGood(f, NO_POLICY, None)
    ensures f.artifacts == [] ==> !r.valid
  {
    hide Verdict.StatesOf, Verdict.Identities;
  }
}
