/** A pack told by the names of its members: when it is admitted, which facts are measured of it, and what build writes. */
module PackMeaning {
  import opened Octets
  import opened Values
  import opened CanonicalJson
  import opened Base64
  import opened ClosedObjects
  import opened SdJwt
  import opened Pack
  import opened PackFormat
  import opened Build
  import opened BuildLaws
  import Bindings
  import Der
  import DerLaws
  import DerReading
  import ProducerBlock
  import Restriction
  import RestrictionProfile
  import Verdict

  // ------------------------------------------------------------------ admission

  /** A clock reading: the digits and signs of a date and a time. */
  ghost predicate ReadsAsClock(s: string) {
    && |s| == 20 && s[4] == '-' && s[7] == '-' && s[10] == 'T' && s[13] == ':' && s[16] == ':' && s[19] == 'Z'
    && RestrictionProfile.TwoDigits(s, 0) && RestrictionProfile.TwoDigits(s, 2) && RestrictionProfile.TwoDigits(s, 5)
    && RestrictionProfile.TwoDigits(s, 8) && RestrictionProfile.TwoDigits(s, 11) && RestrictionProfile.TwoDigits(s, 14)
    && RestrictionProfile.TwoDigits(s, 17)
  }

  lemma ClockIs(s: string)
    ensures Restriction.Matches(s, Restriction.DATE_TIME) <==> ReadsAsClock(s)
  {}

  /** Every artifact has a name of its own. */
  ghost predicate Named(arts: seq<Json>) {
    && (forall i :: 0 <= i < |arts| ==> HasText(arts[i], "name") && Field(arts[i], "name") != Some(Str("")))
    && forall i, j :: 0 <= i < j < |arts| ==> Field(arts[i], "name") != Field(arts[j], "name")
  }

  lemma NamesAre(arts: seq<Json>)
    ensures NamesOk(arts) <==> Named(arts)
  {
    hide Lookup;
  }

  /** No key the format does not know, in an entry and in the three objects it holds. */
  ghost predicate EntryHasNoOther(a: Json) {
    && (a.Obj? ==> Only(a, ["name", "sd_jwt_compact", "header", "key", "resolved_claims", "kb_jwt", "verified_at_build"]))
    && (HasObject(a, "key") ==>
          Only(Field(a, "key").value, ["jwk", "provenance_class", "note", "x5c_chain_sha256", "jwks_url", "jwks_sha256", "fetched_utc"]))
    && (HasObject(a, "kb_jwt") ==>
          Only(Field(a, "kb_jwt").value,
               ["present", "verified", "signature_ok", "sd_hash_ok", "note", "claims_recorded_not_validated"]))
    && (HasObject(a, "verified_at_build") ==> Only(Field(a, "verified_at_build").value, ["signature_ok", "disclosures_ok"]))
  }

  lemma EntryKnownIs(a: Json)
    ensures EntryKnown(a) <==> EntryHasNoOther(a)
  {
    hide NoneUnknown, Only, Lookup;
    ArtifactKeys(a);
    KeyKeys(FieldOr(a, "key"));
    KbKeys(FieldOr(a, "kb_jwt"));
    AttestationKeys(FieldOr(a, "verified_at_build"));
    NotAnObject(a, ARTIFACT);
    NotAnObject(FieldOr(a, "key"), KEY);
    NotAnObject(FieldOr(a, "kb_jwt"), KB_COPY);
    NotAnObject(FieldOr(a, "verified_at_build"), ATTESTATION);
  }

  lemma NotAnObject(o: Json, schema: Schema)
    ensures !o.Obj? ==> NoneUnknown(o, schema)
  {}

  /** What a pack needs to be verified at all. */
  ghost predicate MayBeVerified(lib: Library, format: string, scope: string, ev: Json) {
    && TopShaped(ev)
    && Field(ev, "evidence_format") == Some(Str(format))
    && ReadsAsClock(StrAt(ev, "created_utc"))
    && lib.sha(StrAt(ev, "honest_scope")) == lib.sha(scope)
    && Named(ListAt(ev, "artifacts"))
    && (Field(ev, "rfc3161_timestamp").Some? ==> TimestampShaped(Field(ev, "rfc3161_timestamp").value))
    && (Field(ev, "producer_signatures").Some? ==> ProducerShaped(Field(ev, "producer_signatures").value))
    && (forall i :: 0 <= i < |ListAt(ev, "bindings")| ==> BindingShaped(ListAt(ev, "bindings")[i]))
    && (forall i :: 0 <= i < |ListAt(ev, "anchors")| ==> AnchorShaped(ListAt(ev, "anchors")[i]))
    && (forall i :: 0 <= i < |ListAt(ev, "artifacts")| ==> EntryHasNoOther(ListAt(ev, "artifacts")[i]))
    && forall i :: 0 <= i < |Entries(ev)| && Entries(ev)[i].Obj? ==>
         Only(Entries(ev)[i], ["sig_alg", "public_key_b64", "signature_b64", "post_quantum"])
  }

  /** The entries of the producer block. */
  function Entries(ev: Json): seq<Json> {
    match Field(ev, "producer_signatures") case None => [] case Some(block) => ListAt(block, "signatures")
  }

  lemma EntriesAre(ev: Json)
    ensures ListAt(FieldOr(ev, SIGNATURES), "signatures") == Entries(ev)
  {}

  lemma EntryNames(o: Json)
    ensures NoneUnknown(o, ENTRY) <==> (o.Obj? ==> Only(o, ["sig_alg", "public_key_b64", "signature_b64", "post_quantum"]))
  {
    hide Field, Only;
    assert NamesOf(ENTRY) == ["sig_alg", "public_key_b64", "signature_b64", "post_quantum"];
    ClosedIs(o, ENTRY, NamesOf(ENTRY));
    if !o.Obj? { NotAnObject(o, ENTRY); }
  }

  /** A pack is admitted exactly then; every other one is refused. */
  lemma AdmittedExactly(lib: Library, format: string, scope: string, ev: Json)
    ensures Admitted(lib, format, scope, ev) <==> MayBeVerified(lib, format, scope, ev)
  {
    hide Lookup, Field, StrAt, ListAt, FieldOr, Entries, Closed, TopShaped, TimestampShaped, ProducerShaped, BindingShaped, AnchorShaped,
         NoneUnknown, Only, NamesOk, Named, EntryKnown, EntryHasNoOther, ReadsAsClock, Restriction.Matches;
    TopKeys(ev);
    ClockIs(StrAt(ev, "created_utc"));
    NamesAre(ListAt(ev, "artifacts"));
    if TopShaped(ev) { FormatIs(ev, format); }
    if Field(ev, "rfc3161_timestamp").Some? { TimestampKeys(Field(ev, "rfc3161_timestamp").value); }
    if Field(ev, "producer_signatures").Some? { ProducerKeys(Field(ev, "producer_signatures").value); }
    EntriesAre(ev);
    forall i | 0 <= i < |ListAt(ev, "bindings")|
      ensures Closed(ListAt(ev, "bindings")[i], BINDING) <==> BindingShaped(ListAt(ev, "bindings")[i])
    {
      BindingKeys(ListAt(ev, "bindings")[i]);
    }
    forall i | 0 <= i < |ListAt(ev, "anchors")|
      ensures Closed(ListAt(ev, "anchors")[i], ANCHOR) <==> AnchorShaped(ListAt(ev, "anchors")[i])
    {
      AnchorKeys(ListAt(ev, "anchors")[i]);
    }
    forall i | 0 <= i < |ListAt(ev, "artifacts")|
      ensures EntryKnown(ListAt(ev, "artifacts")[i]) <==> EntryHasNoOther(ListAt(ev, "artifacts")[i])
    {
      EntryKnownIs(ListAt(ev, "artifacts")[i]);
    }
    forall i | 0 <= i < |Entries(ev)|
      ensures NoneUnknown(Entries(ev)[i], ENTRY)
         <==> (Entries(ev)[i].Obj? ==> Only(Entries(ev)[i], ["sig_alg", "public_key_b64", "signature_b64", "post_quantum"]))
    {
      EntryNames(Entries(ev)[i]);
    }
  }

  lemma FormatIs(ev: Json, format: string)
    requires TopShaped(ev)
    ensures StrAt(ev, FORMAT) == format <==> Field(ev, "evidence_format") == Some(Str(format))
  {
    hide Lookup, Only;
  }

  // ------------------------------------------------------------------ the facts

  predicate IsCovered(k: string) {
    k !in ["evidence_digest_sha256", "rfc3161_timestamp", "producer_signatures", "anchors"]
  }

  /** The members the digest is over, in their order. */
  function CoveredOnly(ms: seq<Member>): seq<Member> {
    if ms == [] then [] else (if IsCovered(ms[0].key) then [ms[0]] else []) + CoveredOnly(ms[1..])
  }

  lemma {:induction false} KeptIsCovered(ms: seq<Member>)
    ensures Kept(ms) == CoveredOnly(ms)
    decreases |ms|
  {
    if ms != [] { KeptIsCovered(ms[1..]); }
  }

  /** What is measured of the token in a member: nothing when it is no strict base64. */
  ghost predicate TokenRead(tsr: string, expected: Bytes, t: Verdict.Token) {
    match Unb64(tsr)
    case None => t == Verdict.Token(None, None, None, [])
    case Some(b) =>
      && t.tsaVerified == None
      && (forall g :: t.granted == Some(g) <==> exists kids :: DerReading.HasStatus(b, g, kids))
      && (t.imprintOk == Some(true) <==> exists g, f, w :: DerReading.Responds(b, g, f, w) && f.imprint == expected)
      && (t.imprintOk == Some(false) <==> exists g, f, w :: DerReading.Responds(b, g, f, w) && f.imprint != expected)
      && (forall g, f, w :: DerReading.Responds(b, g, f, w) ==> t.identity == w)
      && ((forall g, f, w :: !DerReading.Responds(b, g, f, w)) ==> t.identity == b)
  }

  lemma TokenIsRead(tsr: string, expected: Bytes)
    ensures TokenRead(tsr, expected, TokenOf(tsr, expected))
  {
    hide Unb64, DerLaws.Measure, DerReading.HasStatus, DerReading.Responds;
    if Unb64(tsr).Some? { DerReading.MeasuredExactly(Unb64(tsr).value, expected, None); }
  }

  /** The anchor block: not anchored unless it says so, without a token unless it holds one. */
  ghost predicate BlockRead(block: Option<Json>, expected: Bytes, b: Verdict.TimeBlock) {
    if block.None? || Field(block.value, "anchored") != Some(Bool(true)) then b == Verdict.NotAnchored
    else if HasText(block.value, "tsr_b64") then b.Stamped? && TokenRead(StrAt(block.value, "tsr_b64"), expected, b.token)
    else b == Verdict.TokenAbsent
  }

  lemma BlockIsRead(block: Option<Json>, expected: Bytes)
    ensures BlockRead(block, expected, BlockOf(block, expected))
  {
    hide Lookup, TokenRead, TokenOf;
    if block.Some? && HasText(block.value, "tsr_b64") { TokenIsRead(StrAt(block.value, "tsr_b64"), expected); }
  }

  /** A binding as it is recorded. */
  ghost predicate BindingWritten(o: Json, b: Bindings.Binding) {
    && Only(o, ["in", "claim", "commits_to", "encoding"])
    && Field(o, "in") == Some(Str(b.holder)) && Field(o, "claim") == Some(Str(b.claim))
    && Field(o, "commits_to") == Some(Str(b.commitsTo))
    && Field(o, "encoding") == Some(Str(if b.encoding == Bindings.HexForm then "hex" else "b64url"))
  }

  lemma BindingIsWritten(b: Bindings.Binding)
    ensures BindingWritten(BindingJson(b), b)
  {
    hide Fill, Lookup;
    SmallDistinct();
    var vals := [Some(Str(b.holder)), Some(Str(b.claim)), Some(Str(b.commitsTo)),
                 Some(Str(if b.encoding.HexForm? then "hex" else "b64url"))];
    FillReads(BINDING, vals, 0);
    FillReads(BINDING, vals, 1);
    FillReads(BINDING, vals, 2);
    FillReads(BINDING, vals, 3);
    forall k | Field(BindingJson(b), k).Some? ensures k in ["in", "claim", "commits_to", "encoding"] { FillHas(BINDING, vals, k); }
  }

  /** The artifacts measured, one for each entry, and the bindings found among them, each as it is recorded. */
  ghost predicate Rebinds(lib: Library, arts: seq<Json>, measured: seq<Bindings.Artifact>, written: seq<Json>) {
    var found := Bindings.AllBindings(lib.sha, measured, measured);
    && |measured| == |arts|
    && (forall i :: 0 <= i < |arts| ==> CheckArtifact(lib, arts[i]).Some? && CheckArtifact(lib, arts[i]).value.1 == measured[i])
    && |written| == |found| && forall i :: 0 <= i < |found| ==> BindingWritten(written[i], found[i])
  }

  lemma {:induction false} MeasuredIs(lib: Library, arts: seq<Json>)
    ensures |Measured(lib, arts)| <= |arts|
    ensures |Measured(lib, arts)| == |arts| <==> forall i :: 0 <= i < |arts| ==> CheckArtifact(lib, arts[i]).Some?
    ensures |Measured(lib, arts)| == |arts| ==>
              forall i :: 0 <= i < |arts| ==> CheckArtifact(lib, arts[i]).value.1 == Measured(lib, arts)[i]
    decreases |arts|
  {
    hide CheckArtifact;
    if arts != [] {
      var n := |arts| - 1;
      MeasuredIs(lib, arts[..n]);
      assert forall i :: 0 <= i < n ==> arts[..n][i] == arts[i];
    }
  }

  /** The recorded bindings are those found again, each canonical form as often. */
  ghost predicate BindingsHeld(lib: Library, arts: seq<Json>, recorded: seq<Json>) {
    exists measured, written :: Rebinds(lib, arts, measured, written) && multiset(Canons(written)) == multiset(Canons(recorded))
  }

  lemma BindingsMatchExactly(lib: Library, arts: seq<Json>, recorded: seq<Json>)
    ensures BindingsMatch(lib, arts, recorded) ==> BindingsHeld(lib, arts, recorded)
    ensures !BindingsMatch(lib, arts, recorded) ==>
              || (exists i :: 0 <= i < |arts| && CheckArtifact(lib, arts[i]).None?)
              || exists measured, written :: Rebinds(lib, arts, measured, written)
                                             && multiset(Canons(written)) != multiset(Canons(recorded))
  {
    hide CheckArtifact, Bindings.AllBindings, Canons, BindingJson, BindingWritten, Measured;
    var m := Measured(lib, arts);
    MeasuredIs(lib, arts);
    if |m| == |arts| {
      var found := Bindings.AllBindings(lib.sha, m, m);
      var written := BindingsJson(found);
      forall i | 0 <= i < |found| ensures BindingWritten(written[i], found[i]) { BindingIsWritten(found[i]); }
      assert Rebinds(lib, arts, m, written);
    }
  }

  /** The facts measured on a pack, each from the members it is read from. */
  lemma FactsAre(lib: Library, verify: ProducerBlock.Verifier, ev: Json)
    requires ev.Obj?
    ensures var f, expected := FactsOf(lib, verify, ev), lib.sha(Canon(Obj(CoveredOnly(ev.members))));
            && (f.digestOk <==> Field(ev, "evidence_digest_sha256") == Some(Str(Bindings.Hex(expected))))
            && BlockRead(Field(ev, "rfc3161_timestamp"), expected, f.block)
            && |f.anchors| == |ListAt(ev, "anchors")|
            && (forall i :: 0 <= i < |f.anchors| ==> TokenRead(StrAt(ListAt(ev, "anchors")[i], "tsr_b64"), expected, f.anchors[i]))
            && |f.artifacts| == |ListAt(ev, "artifacts")|
            && (forall i :: 0 <= i < |f.artifacts| ==>
                  match CheckArtifact(lib, ListAt(ev, "artifacts")[i])
                  case None => f.artifacts[i] == Verdict.ArtifactError
                  case Some((r, _)) => f.artifacts[i] == r)
            && (f.bindingsMatch <==> BindingsMatch(lib, ListAt(ev, "artifacts"), ListAt(ev, "bindings")))
            && f.producer == Field(ev, "producer_signatures") && f.verify == verify
  {
    hide Lookup, Field, StrAt, ListAt, TokenRead, TokenOf, CheckArtifact, BlockOf, BlockRead, BindingsMatch, Canon, Kept, CoveredOnly,
         Bindings.Hex;
    KeptIsCovered(ev.members);
    var expected := Recompute(lib, ev);
    BlockIsRead(Field(ev, "rfc3161_timestamp"), expected);
    forall i | 0 <= i < |ListAt(ev, "anchors")|
      ensures TokenRead(StrAt(ListAt(ev, "anchors")[i], "tsr_b64"), expected, AnchorTokens(ListAt(ev, "anchors"), expected)[i])
    {
      TokenIsRead(StrAt(ListAt(ev, "anchors")[i], "tsr_b64"), expected);
    }
  }

  // ------------------------------------------------------------------ what build writes

  /** The authority's reply is a granted token for this digest, and `tsr` spells it. */
  ghost predicate Stamps(tsa: Authority, digest: Bytes, url: string, tsr: string) {
    tsa(digest, url).Some? && tsr == EncodePadded(tsa(digest, url).value) &&
    exists f, w :: DerReading.Responds(tsa(digest, url).value, true, f, w) && f.imprint == digest
  }

  lemma StampExactly(tsa: Authority, digest: Bytes, url: string, tsr: string)
    ensures Stamp(tsa, digest, url) == Some(tsr) <==> Stamps(tsa, digest, url, tsr)
  {
    hide Der.ParseResponse, DerReading.Responds, EncodePadded;
    if tsa(digest, url).Some? {
      var reply := tsa(digest, url).value;
      forall g, f, w ensures Der.ParseResponse(reply) == Der.Ok(Der.Response(g, Some((f, w)))) <==> DerReading.Responds(reply, g, f, w) {
        DerReading.ResponseExactly(reply, g, f, w);
      }
    }
  }

  /** The anchor block: a token and where it is from, or that there is none. */
  ghost predicate TimestampWritten(tsa: Authority, digest: Bytes, url: Option<string>, o: Json) {
    && Only(o, ["anchored", "tsr_b64", "tsa_url", "tsa", "note"])
    && Field(o, "tsa_url") == (match url case None => None case Some(u) => Some(Str(u)))
    && if url.Some? && exists tsr :: Stamps(tsa, digest, url.value, tsr) then
         && Field(o, "anchored") == Some(Bool(true)) && HasText(o, "tsr_b64") && Stamps(tsa, digest, url.value, StrAt(o, "tsr_b64"))
       else Field(o, "anchored") == Some(Bool(false)) && Missing(o, "tsr_b64")
  }

  lemma TimestampIsWritten(tsa: Authority, digest: Bytes, url: Option<string>)
    ensures TimestampWritten(tsa, digest, url, Timestamp(tsa, digest, url))
  {
    hide Fill, Lookup, Stamp, Stamps;
    SmallDistinct();
    var stamp := if url.Some? then Stamp(tsa, digest, url.value) else None;
    if url.Some? {
      forall tsr ensures Stamp(tsa, digest, url.value) == Some(tsr) <==> Stamps(tsa, digest, url.value, tsr) {
        StampExactly(tsa, digest, url.value, tsr);
      }
    }
    var vals: seq<Option<Json>> :=
      if url.None? then [Some(Bool(false)), None, None, None, Some(Str("no TSA provided"))]
      else if stamp.Some? then [Some(Bool(true)), Some(Str(stamp.value)), Some(Str(url.value)), None, None]
      else [Some(Bool(false)), None, Some(Str(url.value)), None, Some(Str("not stamped"))];
    var o := Timestamp(tsa, digest, url);
    assert o == Obj(Fill(TIMESTAMP_BLOCK, vals));
    FillReads(TIMESTAMP_BLOCK, vals, 0);
    FillReads(TIMESTAMP_BLOCK, vals, 1);
    FillReads(TIMESTAMP_BLOCK, vals, 2);
    forall k | Field(o, k).Some? ensures k in ["anchored", "tsr_b64", "tsa_url", "tsa", "note"] { FillHas(TIMESTAMP_BLOCK, vals, k); }
  }

  ghost predicate AnchorWritten(o: Json, url: string, tsr: string) {
    && Only(o, ["mechanism", "tsr_b64", "tsa_url", "note"])
    && Field(o, "mechanism") == Some(Str("rfc3161")) && Field(o, "tsr_b64") == Some(Str(tsr)) && Field(o, "tsa_url") == Some(Str(url))
  }

  lemma AnchorIsWritten(url: string, tsr: string)
    ensures AnchorWritten(AnchorJson(url, tsr), url, tsr)
  {
    hide Fill, Lookup;
    SmallDistinct();
    var vals := [Some(Str("rfc3161")), Some(Str(tsr)), Some(Str(url)), None];
    FillReads(ANCHOR, vals, 0);
    FillReads(ANCHOR, vals, 1);
    FillReads(ANCHOR, vals, 2);
    forall k | Field(AnchorJson(url, tsr), k).Some? ensures k in ["mechanism", "tsr_b64", "tsa_url", "note"] { FillHas(ANCHOR, vals, k); }
  }

  /** The anchors written are those of the authorities that stamp, in the order they are asked. */
  ghost predicate Anchors(tsa: Authority, digest: Bytes, urls: seq<string>, anchors: seq<Json>) {
    if urls == [] then anchors == []
    else if exists tsr :: Stamps(tsa, digest, urls[0], tsr) then
      anchors != [] && HasText(anchors[0], "tsr_b64") && Stamps(tsa, digest, urls[0], StrAt(anchors[0], "tsr_b64"))
      && AnchorWritten(anchors[0], urls[0], StrAt(anchors[0], "tsr_b64")) && Anchors(tsa, digest, urls[1..], anchors[1..])
    else Anchors(tsa, digest, urls[1..], anchors)
  }

  lemma {:induction false} AnchorsInOrder(tsa: Authority, digest: Bytes, urls: seq<string>)
    ensures Anchors(tsa, digest, urls, MoreAnchors(tsa, digest, urls))
    decreases |urls|
  {
    hide AnchorJson, Stamp, Stamps, AnchorWritten, Lookup;
    if urls != [] {
      AnchorsInOrder(tsa, digest, urls[1..]);
      MoreFromFront(tsa, digest, urls);
      forall tsr ensures Stamp(tsa, digest, urls[0]) == Some(tsr) <==> Stamps(tsa, digest, urls[0], tsr) {
        StampExactly(tsa, digest, urls[0], tsr);
      }
      if Stamp(tsa, digest, urls[0]).Some? {
        var tsr := Stamp(tsa, digest, urls[0]).value;
        AnchorIsWritten(urls[0], tsr);
        AnchorText(AnchorJson(urls[0], tsr), urls[0], tsr);
        assert MoreAnchors(tsa, digest, urls)[1..] == MoreAnchors(tsa, digest, urls[1..]);
      } else {
        assert MoreAnchors(tsa, digest, urls) == MoreAnchors(tsa, digest, urls[1..]);
      }
    }
  }

  lemma AnchorText(o: Json, url: string, tsr: string)
    requires AnchorWritten(o, url, tsr)
    ensures HasText(o, "tsr_b64") && StrAt(o, "tsr_b64") == tsr
  {}

  function One(tsa: Authority, digest: Bytes, url: string): seq<Json> {
    match Stamp(tsa, digest, url) case None => [] case Some(tsr) => [AnchorJson(url, tsr)]
  }

  lemma {:induction false} MoreFromFront(tsa: Authority, digest: Bytes, urls: seq<string>)
    requires urls != []
    ensures MoreAnchors(tsa, digest, urls) == One(tsa, digest, urls[0]) + MoreAnchors(tsa, digest, urls[1..])
    decreases |urls|
  {
    hide AnchorJson, Stamp;
    var n := |urls| - 1;
    if n == 0 {
      assert urls[..0] == [] && urls[1..] == [];
    } else {
      MoreFromFront(tsa, digest, urls[..n]);
      assert urls[..n][0] == urls[0] && urls[..n][1..] == urls[1..][..n - 1] && urls[1..][n - 1] == urls[n];
    }
  }

  /** The pack written of these sealed artifacts. */
  ghost predicate PackWritten(lib: Library, tsa: Authority, req: Request, ss: seq<Sealed>, ev: Json) {
    && Only(ev, ["evidence_format", "subject", "created_utc", "artifacts", "bindings", "honest_scope", "evidence_digest_sha256",
                 "rfc3161_timestamp", "anchors"])
    && Field(ev, "evidence_format") == Some(Str(req.format)) && Field(ev, "subject") == Some(Str(req.subject))
    && Field(ev, "created_utc") == Some(Str(req.now)) && Field(ev, "honest_scope") == Some(Str(req.scope))
    && HasList(ev, "artifacts") && |ListAt(ev, "artifacts")| == |ss|
    && (forall i :: 0 <= i < |ss| ==> ListAt(ev, "artifacts")[i] == ss[i].entry)
    && HasList(ev, "bindings")
    && (var found := Bindings.AllBindings(lib.sha, ArtsOf(ss), ArtsOf(ss));
        |ListAt(ev, "bindings")| == |found| && forall i :: 0 <= i < |found| ==> BindingWritten(ListAt(ev, "bindings")[i], found[i]))
    && (var digest := lib.sha(Canon(Obj(CoveredOnly(ev.members))));
        && Field(ev, "evidence_digest_sha256") == Some(Str(Bindings.Hex(digest)))
        && Field(ev, "rfc3161_timestamp").Some? && TimestampWritten(tsa, digest, req.tsa, Field(ev, "rfc3161_timestamp").value)
        && Anchors(tsa, digest, req.more, ListAt(ev, "anchors"))
        && (Field(ev, "anchors").Some? <==> ListAt(ev, "anchors") != []))
  }

  /** Every artifact was sealed. */
  ghost predicate AllSealed(lib: Library, req: Request, ss: seq<Sealed>) {
    |ss| == |req.inputs| && forall i :: 0 <= i < |ss| ==> Seal(lib, req.inputs[i]) == Some(ss[i])
  }

  /** Every artifact has a name, and no two the same. */
  ghost predicate NamedApart(req: Request) {
    && (forall i :: 0 <= i < |req.inputs| ==> req.inputs[i].name != "")
    && forall i, j :: 0 <= i < j < |req.inputs| ==> req.inputs[i].name != req.inputs[j].name
  }

  lemma {:induction false} SealAllExactly(lib: Library, xs: seq<Input>, ss: seq<Sealed>)
    ensures SealAll(lib, xs) == Some(ss) <==> |ss| == |xs| && forall i :: 0 <= i < |xs| ==> Seal(lib, xs[i]) == Some(ss[i])
    decreases |xs|
  {
    hide Seal;
    if xs != [] {
      var n := |xs| - 1;
      assert forall i :: 0 <= i < n ==> xs[..n][i] == xs[i];
      if ss != [] {
        SealAllExactly(lib, xs[..n], ss[..|ss| - 1]);
        assert ss == ss[..|ss| - 1] + [ss[|ss| - 1]];
      }
      if SealAll(lib, xs) == Some(ss) {
        SealAllExactly(lib, xs[..n], SealAll(lib, xs[..n]).value);
      }
    }
  }

  lemma FinishedIsWritten(lib: Library, tsa: Authority, req: Request, ss: seq<Sealed>)
    ensures var digest := DigestOfCore(lib, req, ss);
            PackWritten(lib, tsa, req, ss,
                        Finished(req, ss, FoundIn(lib, ss), digest, Timestamp(tsa, digest, req.tsa), MoreAnchors(tsa, digest, req.more)))
  {
    hide Field, StrAt, ListAt, Timestamp, MoreAnchors, Finished, Bindings.Hex, Core, Canon, Only, CoveredOnly, Kept,
         Bindings.AllBindings, BindingWritten, TimestampWritten, Anchors, EntriesOf, BindingsJson, ArtsOf;
    var digest, found := DigestOfCore(lib, req, ss), FoundIn(lib, ss);
    var t, anchors := Timestamp(tsa, digest, req.tsa), MoreAnchors(tsa, digest, req.more);
    var ev := Finished(req, ss, found, digest, t, anchors);
    FinishedMembers(req, ss, found, digest, t, anchors);
    FinishedDigest(lib, req, ss, found, digest, t, anchors);
    KeptIsCovered(ev.members);
    TimestampIsWritten(tsa, digest, req.tsa);
    AnchorsInOrder(tsa, digest, req.more);
    BindingsWritten(found);
    EntriesWritten(ss);
  }

  lemma BindingsWritten(found: seq<Bindings.Binding>)
    ensures |BindingsJson(found)| == |found| && forall i :: 0 <= i < |found| ==> BindingWritten(BindingsJson(found)[i], found[i])
  {
    hide BindingJson, BindingWritten;
    forall i | 0 <= i < |found| ensures BindingWritten(BindingsJson(found)[i], found[i]) { BindingIsWritten(found[i]); }
  }

  lemma EntriesWritten(ss: seq<Sealed>)
    ensures forall i :: 0 <= i < |ss| ==> EntriesOf(ss)[i] == ss[i].entry
  {}

  lemma FinishedMembers(req: Request, ss: seq<Sealed>, found: seq<Bindings.Binding>, digest: Bytes, t: Json, anchors: seq<Json>)
    ensures var ev := Finished(req, ss, found, digest, t, anchors);
            && ev.Obj?
            && Only(ev, ["evidence_format", "subject", "created_utc", "artifacts", "bindings", "honest_scope", "evidence_digest_sha256",
                         "rfc3161_timestamp", "anchors"])
            && Field(ev, "evidence_format") == Some(Str(req.format)) && Field(ev, "subject") == Some(Str(req.subject))
            && Field(ev, "created_utc") == Some(Str(req.now)) && Field(ev, "honest_scope") == Some(Str(req.scope))
            && HasList(ev, "artifacts") && ListAt(ev, "artifacts") == EntriesOf(ss)
            && HasList(ev, "bindings") && ListAt(ev, "bindings") == BindingsJson(found)
            && Field(ev, "evidence_digest_sha256") == Some(Str(Bindings.Hex(digest))) && Field(ev, "rfc3161_timestamp") == Some(t)
            && ListAt(ev, "anchors") == anchors && (Field(ev, "anchors").Some? <==> anchors != [])
  {
    hide Fill, Lookup, BindingsJson, EntriesOf, Bindings.Hex;
    TopDistinct();
    var vals := PackValues(req, ss, found, Some(Str(Bindings.Hex(digest))), Some(t), AnchorsMember(anchors));
    PackReads(req, ss, found, Some(Str(Bindings.Hex(digest))), Some(t), AnchorsMember(anchors));
    FillReads(TOP, vals, 1);
    var ev := Finished(req, ss, found, digest, t, anchors);
    forall k | Field(ev, k).Some?
      ensures k in ["evidence_format", "subject", "created_utc", "artifacts", "bindings", "honest_scope", "evidence_digest_sha256",
                    "rfc3161_timestamp", "anchors"]
    {
      FillHas(TOP, vals, k);
    }
  }

  /** Build writes a pack exactly when every artifact has a name of its own and is sealed, and what the digest is over can be
      read back; and this is the pack. */
  lemma BuiltExactly(lib: Library, tsa: Authority, req: Request)
    ensures match Built(lib, tsa, req)
            case Some(ev) =>
              NamedApart(req) && exists ss :: AllSealed(lib, req, ss) && PackWritten(lib, tsa, req, ss, ev)
                                              && LoadsStrict(Canon(Obj(CoveredOnly(ev.members)))).Some?
            case None =>
              || !NamedApart(req) || (exists i :: 0 <= i < |req.inputs| && Seal(lib, req.inputs[i]).None?)
              || exists ss :: AllSealed(lib, req, ss) && LoadsStrict(Canon(Core(req, ss, FoundIn(lib, ss)))).None?
  {
    hide SealAll, Seal, Canon, LoadsStrict, Timestamp, MoreAnchors, Bindings.AllBindings, Core, PackValues, Fill, PackWritten, CoveredOnly,
         Kept, Bindings.Hex;
    if Built(lib, tsa, req).Some? {
      var ev := Built(lib, tsa, req).value;
      var ss := BuiltIsFinished(lib, tsa, req, ev);
      SealAllExactly(lib, req.inputs, ss);
      FinishedIsWritten(lib, tsa, req, ss);
      assert PackWritten(lib, tsa, req, ss, ev);
      CoreIsCovered(lib, tsa, req, ss, ev);
    } else {
      SomeRefused(lib, req.inputs);
      if SealAll(lib, req.inputs).Some? && NamedApart(req) {
        var ss := SealAll(lib, req.inputs).value;
        SealAllExactly(lib, req.inputs, ss);
        assert AllSealed(lib, req, ss);
        assert FoundIn(lib, ss) == Bindings.AllBindings(lib.sha, ArtsOf(ss), ArtsOf(ss));
        assert LoadsStrict(Canon(Core(req, ss, FoundIn(lib, ss)))).None?;
      }
    }
  }

  lemma CoreIsCovered(lib: Library, tsa: Authority, req: Request, ss: seq<Sealed>, ev: Json)
    requires var digest := DigestOfCore(lib, req, ss);
             ev == Finished(req, ss, FoundIn(lib, ss), digest, Timestamp(tsa, digest, req.tsa), MoreAnchors(tsa, digest, req.more))
    ensures ev.Obj? && Obj(CoveredOnly(ev.members)) == Core(req, ss, FoundIn(lib, ss))
  {
    hide Fill, Kept, Covered, CoveredOnly, Timestamp, MoreAnchors, Bindings.Hex, Bindings.AllBindings, Canon;
    var digest := DigestOfCore(lib, req, ss);
    var d, t := Some(Str(Bindings.Hex(digest))), Some(Timestamp(tsa, digest, req.tsa));
    var a := AnchorsMember(MoreAnchors(tsa, digest, req.more));
    KeptFill(TOP, PackValues(req, ss, FoundIn(lib, ss), d, t, a));
    TopCovered(req, ss, FoundIn(lib, ss), d, t, a);
    KeptIsCovered(ev.members);
  }

  lemma {:induction false} SomeRefused(lib: Library, xs: seq<Input>)
    ensures SealAll(lib, xs).None? ==> exists i :: 0 <= i < |xs| && Seal(lib, xs[i]).None?
    decreases |xs|
  {
    hide Seal;
    if xs != [] {
      var n := |xs| - 1;
      SomeRefused(lib, xs[..n]);
      if i :| 0 <= i < n && Seal(lib, xs[..n][i]).None? { assert Seal(lib, xs[i]).None?; }
    }
  }
}
