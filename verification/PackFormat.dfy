/** The objects of a pack told by their names: what a closed object is, key by key, and what build writes in each. */
module PackFormat {
  import opened Values
  import opened CanonicalJson
  import opened ClosedObjects
  import opened SdJwt
  import opened Pack

  // ------------------------------------------------------------------ closed objects

  /** An object with no other key than these. */
  ghost predicate Only(o: Json, names: seq<string>) { o.Obj? && forall k :: Field(o, k).Some? ==> k in names }

  ghost predicate HasText(o: Json, k: string) { Field(o, k).Some? && Field(o, k).value.Str? }

  ghost predicate HasObject(o: Json, k: string) { Field(o, k).Some? && Field(o, k).value.Obj? }

  ghost predicate HasList(o: Json, k: string) { Field(o, k).Some? && Field(o, k).value.Arr? }

  ghost predicate HasFlag(o: Json, k: string) { Field(o, k).Some? && Field(o, k).value.Bool? }

  ghost predicate HasTexts(o: Json, k: string) {
    HasList(o, k) && forall i :: 0 <= i < |Field(o, k).value.items| ==> Field(o, k).value.items[i].Str?
  }

  ghost predicate Missing(o: Json, k: string) { Field(o, k).None? }

  function NamesOf(schema: Schema): (r: seq<string>)
    ensures |r| == |schema| && forall i :: 0 <= i < |schema| ==> r[i] == schema[i].name
  {
    seq(|schema|, i requires 0 <= i < |schema| => schema[i].name)
  }

  /** The check of a closed object is: no other key, and each key as its line of the list says. */
  lemma ClosedIs(o: Json, schema: Schema, names: seq<string>)
    requires names == NamesOf(schema)
    ensures Closed(o, schema) <==> Only(o, names) && forall i :: 0 <= i < |schema| ==> KeyOk(o, schema[i])
    ensures o.Obj? ==> (NoneUnknown(o, schema) <==> Only(o, names))
  {
    hide KeyOk, Field;
    if o.Obj? {
      UnknownIsByField(o, schema);
      forall k ensures Knows(schema, k) <==> k in names {
        if Knows(schema, k) { var i :| 0 <= i < |schema| && schema[i].name == k; assert names[i] == k; }
      }
    }
  }

  /** The entry of an artifact. */
  ghost predicate ArtifactShaped(o: Json) {
    && Only(o, ["name", "sd_jwt_compact", "header", "key", "resolved_claims", "kb_jwt", "verified_at_build"])
    && HasText(o, "name") && HasText(o, "sd_jwt_compact") && HasObject(o, "header") && HasObject(o, "key")
    && !Missing(o, "resolved_claims") && HasObject(o, "kb_jwt") && HasObject(o, "verified_at_build")
  }

  lemma ArtifactShapedNames()
    ensures NamesOf(ARTIFACT) == ["name", "sd_jwt_compact", "header", "key", "resolved_claims", "kb_jwt", "verified_at_build"]
  {}

  /** The lines of the list, one by one. */
  lemma ArtifactShapedLines(o: Json)
    requires Only(o, ["name", "sd_jwt_compact", "header", "key", "resolved_claims", "kb_jwt", "verified_at_build"])
    ensures (forall i :: 0 <= i < |ARTIFACT| ==> KeyOk(o, ARTIFACT[i])) <==> ArtifactShaped(o)
  {
    hide Field, Only, NamesOf;
    assert ARTIFACT[0] == Key("name", ClosedObjects.AString, true);
    assert ARTIFACT[1] == Key("sd_jwt_compact", ClosedObjects.AString, true);
    assert ARTIFACT[2] == Key("header", AnObject, true);
    assert ARTIFACT[3] == Key("key", AnObject, true);
    assert ARTIFACT[4] == Key("resolved_claims", Anything, true);
    assert ARTIFACT[5] == Key("kb_jwt", AnObject, true);
    assert ARTIFACT[6] == Key("verified_at_build", AnObject, true);
  }

  lemma ArtifactKeys(o: Json)
    ensures Closed(o, ARTIFACT) <==> ArtifactShaped(o)
    ensures o.Obj? ==> (NoneUnknown(o, ARTIFACT) <==>
                        Only(o, ["name", "sd_jwt_compact", "header", "key", "resolved_claims", "kb_jwt", "verified_at_build"]))
  {
    hide Field, Only, Closed, NoneUnknown, NamesOf, KeyOk, ArtifactShaped;
    ArtifactShapedNames();
    ClosedIs(o, ARTIFACT, NamesOf(ARTIFACT));
    if Only(o, ["name", "sd_jwt_compact", "header", "key", "resolved_claims", "kb_jwt", "verified_at_build"]) { ArtifactShapedLines(o); }
    if ArtifactShaped(o) { ArtifactShapedOnly(o); }
  }

  lemma ArtifactShapedOnly(o: Json)
    requires ArtifactShaped(o)
    ensures Only(o, ["name", "sd_jwt_compact", "header", "key", "resolved_claims", "kb_jwt", "verified_at_build"])
  {}

  /** The key of an entry. */
  ghost predicate KeyShaped(o: Json) {
    && Only(o, ["jwk", "provenance_class", "note", "x5c_chain_sha256", "jwks_url", "jwks_sha256", "fetched_utc"])
    && HasObject(o, "jwk") && HasText(o, "provenance_class") && (Missing(o, "note") || HasText(o, "note"))
    && (Missing(o, "x5c_chain_sha256") || HasTexts(o, "x5c_chain_sha256"))
    && (Missing(o, "jwks_url") || HasText(o, "jwks_url")) && (Missing(o, "jwks_sha256") || HasText(o, "jwks_sha256"))
    && (Missing(o, "fetched_utc") || HasText(o, "fetched_utc"))
  }

  lemma KeyShapedNames()
    ensures NamesOf(KEY) == ["jwk", "provenance_class", "note", "x5c_chain_sha256", "jwks_url", "jwks_sha256", "fetched_utc"]
  {}

  /** The lines of the list, one by one. */
  lemma KeyShapedLines(o: Json)
    requires Only(o, ["jwk", "provenance_class", "note", "x5c_chain_sha256", "jwks_url", "jwks_sha256", "fetched_utc"])
    ensures (forall i :: 0 <= i < |KEY| ==> KeyOk(o, KEY[i])) <==> KeyShaped(o)
  {
    hide Field, Only, NamesOf;
    assert KEY[0] == Key("jwk", AnObject, true);
    assert KEY[1] == Key("provenance_class", ClosedObjects.AString, true);
    assert KEY[2] == Key("note", ClosedObjects.AString, false);
    assert KEY[3] == Key("x5c_chain_sha256", ClosedObjects.Strings, false);
    assert KEY[4] == Key("jwks_url", ClosedObjects.AString, false);
    assert KEY[5] == Key("jwks_sha256", ClosedObjects.AString, false);
    assert KEY[6] == Key("fetched_utc", ClosedObjects.AString, false);
  }

  lemma KeyKeys(o: Json)
    ensures Closed(o, KEY) <==> KeyShaped(o)
    ensures o.Obj? ==> (NoneUnknown(o, KEY) <==>
                        Only(o, ["jwk", "provenance_class", "note", "x5c_chain_sha256", "jwks_url", "jwks_sha256", "fetched_utc"]))
  {
    hide Field, Only, Closed, NoneUnknown, NamesOf, KeyOk, KeyShaped;
    KeyShapedNames();
    ClosedIs(o, KEY, NamesOf(KEY));
    if Only(o, ["jwk", "provenance_class", "note", "x5c_chain_sha256", "jwks_url", "jwks_sha256", "fetched_utc"]) { KeyShapedLines(o); }
    if KeyShaped(o) { KeyShapedOnly(o); }
  }

  lemma KeyShapedOnly(o: Json)
    requires KeyShaped(o)
    ensures Only(o, ["jwk", "provenance_class", "note", "x5c_chain_sha256", "jwks_url", "jwks_sha256", "fetched_utc"])
  {}

  /** The key-binding record of an entry. */
  ghost predicate KbShaped(o: Json) {
    && Only(o, ["present", "verified", "signature_ok", "sd_hash_ok", "note", "claims_recorded_not_validated"])
    && HasFlag(o, "present") && (Missing(o, "verified") || (HasFlag(o, "verified") || Field(o, "verified") == Some(Null)))
    && (Missing(o, "signature_ok") || HasFlag(o, "signature_ok")) && (Missing(o, "sd_hash_ok") || HasFlag(o, "sd_hash_ok"))
    && (Missing(o, "note") || (HasText(o, "note") || Field(o, "note") == Some(Null)))
    && (Missing(o, "claims_recorded_not_validated") || HasObject(o, "claims_recorded_not_validated"))
  }

  lemma KbKeys(o: Json)
    ensures Closed(o, KB_COPY) <==> KbShaped(o)
    ensures o.Obj? ==> (NoneUnknown(o, KB_COPY) <==>
                        Only(o, ["present", "verified", "signature_ok", "sd_hash_ok", "note", "claims_recorded_not_validated"]))
  {
    hide Field, Only;
    assert NamesOf(KB_COPY) == ["present", "verified", "signature_ok", "sd_hash_ok", "note", "claims_recorded_not_validated"];
    ClosedIs(o, KB_COPY, NamesOf(KB_COPY));
    assert KB_COPY[0] == Key("present", ABool, true);
    assert KB_COPY[1] == Key("verified", BoolOrNull, false);
    assert KB_COPY[2] == Key("signature_ok", ABool, false);
    assert KB_COPY[3] == Key("sd_hash_ok", ABool, false);
    assert KB_COPY[4] == Key("note", StringOrNull, false);
    assert KB_COPY[5] == Key("claims_recorded_not_validated", AnObject, false);
  }

  /** The attestation of an entry. */
  ghost predicate AttestationShaped(o: Json) {
    && Only(o, ["signature_ok", "disclosures_ok"])
    && Field(o, "signature_ok") == Some(Bool(true)) && Field(o, "disclosures_ok") == Some(Bool(true))
  }

  lemma AttestationKeys(o: Json)
    ensures Closed(o, ATTESTATION) <==> AttestationShaped(o)
    ensures o.Obj? ==> (NoneUnknown(o, ATTESTATION) <==> Only(o, ["signature_ok", "disclosures_ok"]))
  {
    hide Field, Only;
    assert NamesOf(ATTESTATION) == ["signature_ok", "disclosures_ok"];
    ClosedIs(o, ATTESTATION, NamesOf(ATTESTATION));
    assert ATTESTATION[0] == Key("signature_ok", IsTrue, true);
    assert ATTESTATION[1] == Key("disclosures_ok", IsTrue, true);
  }

  /** The pack itself. */
  ghost predicate TopShaped(o: Json) {
    && Only(o, ["evidence_format", "subject", "created_utc", "artifacts", "bindings", "honest_scope",
                "evidence_digest_sha256", "rfc3161_timestamp", "producer_signatures", "anchors"])
    && HasText(o, "evidence_format") && HasText(o, "subject") && HasText(o, "created_utc") && HasList(o, "artifacts")
    && (Missing(o, "bindings") || HasList(o, "bindings")) && HasText(o, "honest_scope") && HasText(o, "evidence_digest_sha256")
    && (Missing(o, "rfc3161_timestamp") || HasObject(o, "rfc3161_timestamp"))
    && (Missing(o, "producer_signatures") || HasObject(o, "producer_signatures"))
    && (Missing(o, "anchors") || (HasList(o, "anchors") && Field(o, "anchors").value.items != []))
  }

  lemma TopKeysInOrder(o: Json)
    ensures (forall i :: 0 <= i < |TOP| ==> KeyOk(o, TOP[i])) <==>
            && KeyOk(o, TOP[0]) && KeyOk(o, TOP[1]) && KeyOk(o, TOP[2]) && KeyOk(o, TOP[3]) && KeyOk(o, TOP[4])
            && KeyOk(o, TOP[5]) && KeyOk(o, TOP[6]) && KeyOk(o, TOP[7]) && KeyOk(o, TOP[8]) && KeyOk(o, TOP[9])
  {
    hide KeyOk;
    assert |TOP| == 10;
  }

  lemma TopKeysAre()
    ensures TOP[0] == Key("evidence_format", ClosedObjects.AString, true)
    ensures TOP[1] == Key("subject", ClosedObjects.AString, true)
    ensures TOP[2] == Key("created_utc", ClosedObjects.AString, true)
    ensures TOP[3] == Key("artifacts", AList, true)
    ensures TOP[4] == Key("bindings", AList, false)
    ensures TOP[5] == Key("honest_scope", ClosedObjects.AString, true)
    ensures TOP[6] == Key("evidence_digest_sha256", ClosedObjects.AString, true)
    ensures TOP[7] == Key("rfc3161_timestamp", AnObject, false)
    ensures TOP[8] == Key("producer_signatures", AnObject, false)
    ensures TOP[9] == Key("anchors", SomeList, false)
    ensures NamesOf(TOP) == ["evidence_format", "subject", "created_utc", "artifacts", "bindings", "honest_scope",
                             "evidence_digest_sha256", "rfc3161_timestamp", "producer_signatures", "anchors"]
  {}

  lemma TopKeys(o: Json)
    ensures Closed(o, TOP) <==> TopShaped(o)
  {
    hide Field, Only, TOP, Closed;
    ClosedIs(o, TOP, NamesOf(TOP));
    TopKeysAre();
    TopKeysInOrder(o);
  }

  /** The anchor block. */
  ghost predicate TimestampShaped(o: Json) {
    && Only(o, ["anchored", "tsr_b64", "tsa_url", "tsa", "note"])
    && HasFlag(o, "anchored") && (Missing(o, "tsr_b64") || HasText(o, "tsr_b64"))
    && (Missing(o, "tsa_url") || HasText(o, "tsa_url")) && (Missing(o, "tsa") || HasText(o, "tsa"))
    && (Missing(o, "note") || HasText(o, "note"))
  }

  lemma TimestampKeys(o: Json)
    ensures Closed(o, TIMESTAMP_BLOCK) <==> TimestampShaped(o)
  {
    hide Field, Only;
    assert NamesOf(TIMESTAMP_BLOCK) == ["anchored", "tsr_b64", "tsa_url", "tsa", "note"];
    ClosedIs(o, TIMESTAMP_BLOCK, NamesOf(TIMESTAMP_BLOCK));
    assert TIMESTAMP_BLOCK[0] == Key("anchored", ABool, true);
    assert TIMESTAMP_BLOCK[1] == Key("tsr_b64", ClosedObjects.AString, false);
    assert TIMESTAMP_BLOCK[2] == Key("tsa_url", ClosedObjects.AString, false);
    assert TIMESTAMP_BLOCK[3] == Key("tsa", ClosedObjects.AString, false);
    assert TIMESTAMP_BLOCK[4] == Key("note", ClosedObjects.AString, false);
  }

  /** One further anchor. */
  ghost predicate AnchorShaped(o: Json) {
    && Only(o, ["mechanism", "tsr_b64", "tsa_url", "note"])
    && Field(o, "mechanism") == Some(Str("rfc3161")) && HasText(o, "tsr_b64")
    && (Missing(o, "tsa_url") || HasText(o, "tsa_url")) && (Missing(o, "note") || HasText(o, "note"))
  }

  lemma AnchorKeys(o: Json)
    ensures Closed(o, ANCHOR) <==> AnchorShaped(o)
  {
    hide Field, Only;
    assert NamesOf(ANCHOR) == ["mechanism", "tsr_b64", "tsa_url", "note"];
    ClosedIs(o, ANCHOR, NamesOf(ANCHOR));
    assert ANCHOR[0] == Key("mechanism", OneOf(["rfc3161"]), true);
    assert ANCHOR[1] == Key("tsr_b64", ClosedObjects.AString, true);
    assert ANCHOR[2] == Key("tsa_url", ClosedObjects.AString, false);
    assert ANCHOR[3] == Key("note", ClosedObjects.AString, false);
  }

  /** One binding. */
  ghost predicate BindingShaped(o: Json) {
    && Only(o, ["in", "claim", "commits_to", "encoding"])
    && HasText(o, "in") && HasText(o, "claim") && HasText(o, "commits_to")
    && HasText(o, "encoding") && Field(o, "encoding").value.s in ["hex", "b64url"]
  }

  lemma BindingKeys(o: Json)
    ensures Closed(o, BINDING) <==> BindingShaped(o)
  {
    hide Field, Only;
    assert NamesOf(BINDING) == ["in", "claim", "commits_to", "encoding"];
    ClosedIs(o, BINDING, NamesOf(BINDING));
    assert BINDING[0] == Key("in", ClosedObjects.AString, true);
    assert BINDING[1] == Key("claim", ClosedObjects.AString, true);
    assert BINDING[2] == Key("commits_to", ClosedObjects.AString, true);
    assert BINDING[3] == Key("encoding", OneOf(["hex", "b64url"]), true);
  }

  /** The producer block. */
  ghost predicate ProducerShaped(o: Json) {
    && Only(o, ["scheme", "over", "signatures"])
    && HasText(o, "scheme") && Field(o, "scheme").value.s in ["hybrid", "classical-only"]
    && Field(o, "over") == Some(Str("evidence_digest_sha256")) && HasList(o, "signatures")
  }

  lemma ProducerKeys(o: Json)
    ensures Closed(o, PRODUCER) <==> ProducerShaped(o)
  {
    hide Field, Only;
    assert NamesOf(PRODUCER) == ["scheme", "over", "signatures"];
    ClosedIs(o, PRODUCER, NamesOf(PRODUCER));
    assert PRODUCER[0] == Key("scheme", OneOf(["hybrid", "classical-only"]), true);
    assert PRODUCER[1] == Key("over", OneOf(["evidence_digest_sha256"]), true);
    assert PRODUCER[2] == Key("signatures", AList, true);
  }
}
