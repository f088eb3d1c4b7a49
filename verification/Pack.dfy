/** An evidence pack as verify reads it: the closed objects, the admission rules and the facts the verdict is derived from. */
module Pack {
  import opened Octets
  import opened Values
  import opened CanonicalJson
  import opened Base64
  import opened ClosedObjects
  import opened SdJwt
  import opened DerLaws
  import Bindings
  import ProducerBlock
  import Restriction
  import Verdict

  // ------------------------------------------------------------------ the objects of the format

  const FORMAT: string := "evidence_format"
  const SUBJECT: string := "subject"
  const CREATED: string := "created_utc"
  const ARTIFACTS: string := "artifacts"
  const BINDINGS: string := "bindings"
  const SCOPE: string := "honest_scope"
  const DIGEST: string := "evidence_digest_sha256"
  const TIMESTAMP: string := "rfc3161_timestamp"
  const SIGNATURES: string := "producer_signatures"
  const ANCHORS: string := "anchors"

  const TOP: Schema :=
    [Key(FORMAT, AString, true), Key(SUBJECT, AString, true), Key(CREATED, AString, true), Key(ARTIFACTS, AList, true),
     Key(BINDINGS, AList, false), Key(SCOPE, AString, true), Key(DIGEST, AString, true), Key(TIMESTAMP, AnObject, false),
     Key(SIGNATURES, AnObject, false), Key(ANCHORS, SomeList, false)]

  /** The members the digest does not cover. */
  const EXCLUDED: seq<string> := [DIGEST, TIMESTAMP, SIGNATURES, ANCHORS]

  const NAME: string := "name"
  const SD_JWT: string := "sd_jwt_compact"
  const HEADER: string := "header"
  const KEY_COPY: string := "key"
  const CLAIMS: string := "resolved_claims"
  const KB_JWT: string := "kb_jwt"
  const ATTESTED: string := "verified_at_build"

  const ARTIFACT: Schema :=
    [Key(NAME, AString, true), Key(SD_JWT, AString, true), Key(HEADER, AnObject, true), Key(KEY_COPY, AnObject, true),
     Key(CLAIMS, Anything, true), Key(KB_JWT, AnObject, true), Key(ATTESTED, AnObject, true)]

  const ATTESTATION: Schema := [Key("signature_ok", IsTrue, true), Key("disclosures_ok", IsTrue, true)]

  const ANCHORED: string := "anchored"
  const TSR: string := "tsr_b64"

  const TIMESTAMP_BLOCK: Schema :=
    [Key(ANCHORED, ABool, true), Key(TSR, AString, false), Key("tsa_url", AString, false), Key("tsa", AString, false),
     Key("note", AString, false)]

  const ANCHOR: Schema :=
    [Key("mechanism", OneOf(["rfc3161"]), true), Key(TSR, AString, true), Key("tsa_url", AString, false), Key("note", AString, false)]

  const BINDING: Schema :=
    [Key("in", AString, true), Key("claim", AString, true), Key("commits_to", AString, true),
     Key("encoding", OneOf(["hex", "b64url"]), true)]

  const PRODUCER: Schema :=
    [Key("scheme", OneOf(["hybrid", "classical-only"]), true), Key("over", OneOf([DIGEST]), true), Key("signatures", AList, true)]

  const ENTRY: Schema :=
    [Key("sig_alg", Anything, true), Key("public_key_b64", Anything, true), Key("signature_b64", Anything, true),
     Key("post_quantum", Anything, true)]

  // ------------------------------------------------------------------ one artifact

  predicate Ascii(s: string) { forall i :: 0 <= i < |s| ==> s[i] as int < 128 }

  /** Every recomputed member the record has says what the recomputation says. */
  predicate RecordAgrees(record: Json, recomputed: Json) {
    forall i :: 0 <= i < |RECOMPUTED| && Field(record, RECOMPUTED[i]).Some? ==>
      CanonOf(Field(record, RECOMPUTED[i])) == CanonOf(Field(recomputed, RECOMPUTED[i]))
  }

  function HolderOf(kb: Kb): Verdict.HolderCheck {
    match kb
    case NoKb => Verdict.NoKbJwt
    case WithKb(HolderKeyMissing(_)) => Verdict.HolderUnknown
    case WithKb(HolderKeyFound(s, h, _)) => Verdict.HolderChecked(s, h)
  }

  function FieldOr(o: Json, k: string): Json { match Field(o, k) case Some(v) => v case None => Null }

  /** The objects of an artifact entry are closed. */
  predicate EntryClosed(a: Json) {
    && Closed(a, ARTIFACT) && Closed(FieldOr(a, KEY_COPY), KEY) && Closed(FieldOr(a, KB_JWT), KB_COPY)
    && Closed(FieldOr(a, ATTESTED), ATTESTATION)
  }

  /** What the entry records agrees with what its token says, before the signature is checked. */
  predicate CopiesAgree(lib: Library, a: Json, p: Parsed) {
    var jwk, cls := FieldOr(FieldOr(a, KEY_COPY), JWK), StrAt(FieldOr(a, KEY_COPY), PROVENANCE);
    && cls in CLASSES && p.payload.Obj? && p.header.Obj?
    && Canon(FieldOr(a, HEADER)) == Canon(p.header)
    && Field(FieldOr(a, KB_JWT), PRESENT) == Some(Bool(p.kb != ""))
    && Field(p.header, "crit").None?
    && ProvenanceHolds(lib, p.header, jwk, cls) && Reconciles(lib, p.header, jwk, cls)
  }

  /** The checks of one artifact entry: None when it is an error, else what was measured and what its claims are. */
  function CheckArtifact(lib: Library, a: Json): Option<(Verdict.ArtifactResult, Bindings.Artifact)> {
    var compact := StrAt(a, SD_JWT);
    if !EntryClosed(a) || Trim(lib, compact) != compact || !Ascii(compact) then None
    else
      match Parse(lib, compact)
      case None => None
      case Some(p) =>
        if !CopiesAgree(lib, a, p) then None
        else
          match (VerifyEs256(lib, p, FieldOr(FieldOr(a, KEY_COPY), JWK)), ResolvedClaims(lib, p))
          case (Some(signed), Some(resolved)) =>
            (match CheckKb(lib, p, resolved)
             case None => None
             case Some(kb) =>
               if !RecordAgrees(FieldOr(a, KB_JWT), KbRecord(kb)) then None
               else
                 Some((Verdict.ArtifactChecked(signed, Canon(resolved) == Canon(FieldOr(a, CLAIMS)), HolderOf(kb),
                                               StrAt(FieldOr(a, KEY_COPY), PROVENANCE) == FROM_X5C, None, false),
                       Bindings.Artifact(StrAt(a, NAME), p.compact, resolved))))
          case _ => None
  }

  function ResultOf(lib: Library, a: Json): Verdict.ArtifactResult {
    match CheckArtifact(lib, a) case None => Verdict.ArtifactError case Some((r, _)) => r
  }

  // ------------------------------------------------------------------ the pack

  function BindingJson(b: Bindings.Binding): Json {
    Obj(Fill(BINDING, [Some(Str(b.holder)), Some(Str(b.claim)), Some(Str(b.commitsTo)),
                       Some(Str(if b.encoding.HexForm? then "hex" else "b64url"))]))
  }

  function BindingsJson(bs: seq<Bindings.Binding>): (r: seq<Json>)
    ensures |r| == |bs|
  {
    seq(|bs|, i requires 0 <= i < |bs| => BindingJson(bs[i]))
  }

  function Canons(xs: seq<Json>): (r: seq<Text>)
    ensures |r| == |xs|
  {
    seq(|xs|, i requires 0 <= i < |xs| => Canon(xs[i]))
  }

  /** The artifacts that are no error, in pack order. */
  function Measured(lib: Library, arts: seq<Json>): seq<Bindings.Artifact> {
    if arts == [] then []
    else
      Measured(lib, arts[..|arts| - 1])
      + (match CheckArtifact(lib, arts[|arts| - 1]) case None => [] case Some((_, m)) => [m])
  }

  /** The recomputed bindings are those of the pack, as a set with repetitions. */
  predicate BindingsMatch(lib: Library, arts: seq<Json>, recorded: seq<Json>) {
    var m := Measured(lib, arts);
    |m| == |arts| && multiset(Canons(BindingsJson(Bindings.AllBindings(lib.sha, m, m)))) == multiset(Canons(recorded))
  }

  /** The members the digest covers. */
  function Kept(ms: seq<Member>): seq<Member> {
    if ms == [] then [] else (if ms[0].key in EXCLUDED then [] else [ms[0]]) + Kept(ms[1..])
  }

  function Recompute(lib: Library, ev: Json): Bytes {
    if ev.Obj? then lib.sha(Canon(Obj(Kept(ev.members)))) else []
  }

  function TokenOf(tsr: string, expected: Bytes): Verdict.Token {
    match Unb64(tsr) case None => Verdict.Token(None, None, None, []) case Some(b) => Measure(b, expected, None)
  }

  function BlockOf(block: Option<Json>, expected: Bytes): Verdict.TimeBlock {
    match block
    case None => Verdict.NotAnchored
    case Some(b) =>
      if Field(b, ANCHORED) != Some(Bool(true)) then Verdict.NotAnchored
      else match Field(b, TSR) case Some(Str(s)) => Verdict.Stamped(TokenOf(s, expected)) case _ => Verdict.TokenAbsent
  }

  function AnchorTokens(anchors: seq<Json>, expected: Bytes): (r: seq<Verdict.Token>)
    ensures |r| == |anchors|
  {
    seq(|anchors|, i requires 0 <= i < |anchors| => TokenOf(StrAt(anchors[i], TSR), expected))
  }

  function Results(lib: Library, arts: seq<Json>): (r: seq<Verdict.ArtifactResult>)
    ensures |r| == |arts|
  {
    seq(|arts|, i requires 0 <= i < |arts| => ResultOf(lib, arts[i]))
  }

  /** The facts of an admitted pack, with no certificate of an authority given. */
  function FactsOf(lib: Library, verify: ProducerBlock.Verifier, ev: Json): Verdict.Facts {
    var expected := Recompute(lib, ev);
    Verdict.Facts(
      Field(ev, DIGEST) == Some(Str(Bindings.Hex(expected))),
      BlockOf(Field(ev, TIMESTAMP), expected),
      AnchorTokens(ListAt(ev, ANCHORS), expected),
      Results(lib, ListAt(ev, ARTIFACTS)),
      BindingsMatch(lib, ListAt(ev, ARTIFACTS), ListAt(ev, BINDINGS)),
      Field(ev, SIGNATURES),
      verify)
  }

  // ------------------------------------------------------------------ admission

  predicate NamesOk(arts: seq<Json>) {
    && (forall i :: 0 <= i < |arts| ==>
          arts[i].Obj? && Field(arts[i], NAME).Some? && Field(arts[i], NAME).value.Str? && StrAt(arts[i], NAME) != "")
    && forall i, j :: 0 <= i < j < |arts| ==> StrAt(arts[i], NAME) != StrAt(arts[j], NAME)
  }

  predicate AllClosed(xs: seq<Json>, schema: Schema) { forall i :: 0 <= i < |xs| ==> Closed(xs[i], schema) }

  predicate OptionClosed(v: Option<Json>, schema: Schema) { v.Some? ==> Closed(v.value, schema) }

  /** No unknown key in an entry or in the objects inside it. */
  predicate EntryKnown(a: Json) {
    && NoneUnknown(a, ARTIFACT) && NoneUnknown(FieldOr(a, KEY_COPY), KEY) && NoneUnknown(FieldOr(a, KB_JWT), KB_COPY)
    && NoneUnknown(FieldOr(a, ATTESTED), ATTESTATION)
  }

  /** The pack is verified at all: every other one is a refusal. `scope` and `format` are those of this revision. */
  predicate Admitted(lib: Library, format: string, scope: string, ev: Json) {
    && Closed(ev, TOP)
    && StrAt(ev, FORMAT) == format
    && Restriction.Matches(StrAt(ev, CREATED), Restriction.DATE_TIME)
    && lib.sha(StrAt(ev, SCOPE)) == lib.sha(scope)
    && NamesOk(ListAt(ev, ARTIFACTS))
    && OptionClosed(Field(ev, TIMESTAMP), TIMESTAMP_BLOCK)
    && OptionClosed(Field(ev, SIGNATURES), PRODUCER)
    && AllClosed(ListAt(ev, BINDINGS), BINDING)
    && AllClosed(ListAt(ev, ANCHORS), ANCHOR)
    && (forall i :: 0 <= i < |ListAt(ev, ARTIFACTS)| ==> EntryKnown(ListAt(ev, ARTIFACTS)[i]))
    && var entries := ListAt(FieldOr(ev, SIGNATURES), "signatures");
       forall i :: 0 <= i < |entries| ==> NoneUnknown(entries[i], ENTRY)
  }
}
