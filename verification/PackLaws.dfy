/** Verification reads a pack only up to the order of its keys: admission and every fact are the same. */
module PackLaws {
  import opened Octets
  import opened Values
  import opened CanonicalJson
  import opened CanonicalLaws
  import opened CanonicalSame
  import opened Jwk
  import opened CanonicalOrder
  import opened Rearrangements
  import ResolverOrder
  import opened Base64
  import opened ClosedObjects
  import opened SdJwt
  import opened Pack
  import Bindings
  import ProducerBlock
  import Verdict

  // ------------------------------------------------------------------ fields

  lemma FieldOrSame(a: Json, b: Json, k: string)
    requires Same(a, b)
    ensures Same(FieldOr(a, k), FieldOr(b, k))
  {
    SameField(a, b, k);
  }

  lemma CanonFieldSame(a: Json, b: Json, k: string)
    requires Same(a, b)
    ensures CanonOf(Field(a, k)) == CanonOf(Field(b, k))
  {
    hide Same, Field, Canon;
    SameField(a, b, k);
    if Field(a, k).Some? { CanonSameForward(Field(a, k).value, Field(b, k).value); }
  }

  /** A field that holds no container is the same value. */
  lemma ScalarFieldSame(a: Json, b: Json, k: string)
    requires Same(a, b)
    ensures forall v: Json :: !IsContainer(v) ==> (Field(a, k) == Some(v) <==> Field(b, k) == Some(v))
    ensures Coordinate(Field(a, k)) == Coordinate(Field(b, k))
  {
    hide Same, Field, B64UrlDecode;
    SameField(a, b, k);
    if Field(a, k).Some? { SameKind(Field(a, k).value, Field(b, k).value); }
  }

  // ------------------------------------------------------------------ one artifact

  lemma EntryClosedSame(a: Json, b: Json)
    requires Same(a, b)
    ensures EntryClosed(a) <==> EntryClosed(b)
    ensures EntryKnown(a) <==> EntryKnown(b)
  {
    hide Same, Closed, NoneUnknown, FieldOr;
    ClosedSame(a, b, ARTIFACT);
    NoneUnknownSame(a, b, ARTIFACT);
    FieldOrSame(a, b, KEY_COPY);
    FieldOrSame(a, b, KB_JWT);
    FieldOrSame(a, b, ATTESTED);
    ClosedSame(FieldOr(a, KEY_COPY), FieldOr(b, KEY_COPY), KEY);
    ClosedSame(FieldOr(a, KB_JWT), FieldOr(b, KB_JWT), KB_COPY);
    ClosedSame(FieldOr(a, ATTESTED), FieldOr(b, ATTESTED), ATTESTATION);
    NoneUnknownSame(FieldOr(a, KEY_COPY), FieldOr(b, KEY_COPY), KEY);
    NoneUnknownSame(FieldOr(a, KB_JWT), FieldOr(b, KB_JWT), KB_COPY);
    NoneUnknownSame(FieldOr(a, ATTESTED), FieldOr(b, ATTESTED), ATTESTATION);
  }

  lemma SameKeySame(k: Json, a: Json, b: Json)
    requires Same(a, b)
    ensures SameKey(k, a) <==> SameKey(k, b)
  {
    hide Same, Field, Canon;
    SameKind(a, b);
    forall i | 0 <= i < |KEY_FIELDS| ensures CanonOf(Field(a, KEY_FIELDS[i])) == CanonOf(Field(b, KEY_FIELDS[i])) {
      CanonFieldSame(a, b, KEY_FIELDS[i]);
    }
  }

  lemma NamesKeySame(lib: Library, header: Json, a: Json, b: Json)
    requires Same(a, b)
    ensures JwkNames(header, a) <==> JwkNames(header, b)
    ensures ChainNames(lib, header, a) <==> ChainNames(lib, header, b)
  {
    hide Same, SameKey, Field, Chain;
    if Field(header, JWK).Some? { SameKeySame(Field(header, JWK).value, a, b); }
    if Field(header, X5C).Some? && lib.leaf(Field(header, X5C).value).Some? {
      SameKeySame(lib.leaf(Field(header, X5C).value).value, a, b);
    }
  }

  lemma ReconcilesSame(lib: Library, header: Json, a: Json, b: Json, cls: string)
    requires Same(a, b)
    ensures Reconciles(lib, header, a, cls) <==> Reconciles(lib, header, b, cls)
    ensures ProvenanceHolds(lib, header, a, cls) <==> ProvenanceHolds(lib, header, b, cls)
  {
    hide JwkNames, ChainNames, Field, Same;
    NamesKeySame(lib, header, a, b);
  }

  lemma EsSame(lib: Library, p: Parsed, a: Json, b: Json)
    requires Same(a, b)
    ensures VerifyEs256(lib, p, a) == VerifyEs256(lib, p, b)
  {
    hide Same, Field, Coordinate;
    ScalarFieldSame(a, b, KTY);
    ScalarFieldSame(a, b, CRV);
    ScalarFieldSame(a, b, X);
    ScalarFieldSame(a, b, Y);
  }

  lemma CopiesSame(lib: Library, a: Json, b: Json, p: Parsed)
    requires Same(a, b)
    ensures CopiesAgree(lib, a, p) <==> CopiesAgree(lib, b, p)
  {
    hide Same, Canon, Field, FieldOr, StrAt, Reconciles, ProvenanceHolds;
    FieldOrSame(a, b, KEY_COPY);
    FieldOrSame(a, b, HEADER);
    FieldOrSame(a, b, KB_JWT);
    var ka, kb := FieldOr(a, KEY_COPY), FieldOr(b, KEY_COPY);
    FieldOrSame(ka, kb, JWK);
    SameReads(ka, kb, PROVENANCE);
    CanonSameForward(FieldOr(a, HEADER), FieldOr(b, HEADER));
    ScalarFieldSame(FieldOr(a, KB_JWT), FieldOr(b, KB_JWT), PRESENT);
    ReconcilesSame(lib, p.header, FieldOr(ka, JWK), FieldOr(kb, JWK), StrAt(ka, PROVENANCE));
  }

  lemma RecordSame(a: Json, b: Json, recomputed: Json)
    requires Same(a, b)
    ensures RecordAgrees(a, recomputed) <==> RecordAgrees(b, recomputed)
  {
    hide Same, Canon, Field;
    forall i | 0 <= i < |RECOMPUTED|
      ensures Field(a, RECOMPUTED[i]).Some? <==> Field(b, RECOMPUTED[i]).Some?
      ensures CanonOf(Field(a, RECOMPUTED[i])) == CanonOf(Field(b, RECOMPUTED[i]))
    {
      SameField(a, b, RECOMPUTED[i]);
      CanonFieldSame(a, b, RECOMPUTED[i]);
    }
  }

  lemma CheckArtifactSame(lib: Library, a: Json, b: Json)
    requires Same(a, b)
    ensures CheckArtifact(lib, a) == CheckArtifact(lib, b)
  {
    hide Same, Canon, Field, FieldOr, StrAt, EntryClosed, CopiesAgree, RecordAgrees, VerifyEs256, CheckKb, Parse, ResolvedClaims,
         Trim, Ascii, KbRecord, HolderOf;
    EntryClosedSame(a, b);
    SameReads(a, b, SD_JWT);
    SameReads(a, b, NAME);
    FieldOrSame(a, b, KEY_COPY);
    FieldOrSame(a, b, KB_JWT);
    FieldOrSame(a, b, CLAIMS);
    var ka, kb := FieldOr(a, KEY_COPY), FieldOr(b, KEY_COPY);
    FieldOrSame(ka, kb, JWK);
    SameReads(ka, kb, PROVENANCE);
    CanonSameForward(FieldOr(a, CLAIMS), FieldOr(b, CLAIMS));
    var parsed := Parse(lib, StrAt(a, SD_JWT));
    if parsed.Some? {
      CopiesSame(lib, a, b, parsed.value);
      EsSame(lib, parsed.value, FieldOr(ka, JWK), FieldOr(kb, JWK));
      var resolved := ResolvedClaims(lib, parsed.value);
      if resolved.Some? && CheckKb(lib, parsed.value, resolved.value).Some? {
        RecordSame(FieldOr(a, KB_JWT), FieldOr(b, KB_JWT), KbRecord(CheckKb(lib, parsed.value, resolved.value).value));
      }
    }
  }

  // ------------------------------------------------------------------ the lists

  ghost predicate SameList(xs: seq<Json>, ys: seq<Json>) {
    |xs| == |ys| && forall i :: 0 <= i < |xs| ==> Same(xs[i], ys[i])
  }

  lemma ListsSame(a: Json, b: Json, k: string)
    requires Same(a, b)
    ensures SameList(ListAt(a, k), ListAt(b, k))
  {
    SameReads(a, b, k);
  }

  lemma {:induction false} MeasuredSame(lib: Library, xs: seq<Json>, ys: seq<Json>)
    requires SameList(xs, ys)
    ensures Measured(lib, xs) == Measured(lib, ys)
    decreases |xs|
  {
    hide Same, CheckArtifact;
    if xs != [] {
      var n := |xs| - 1;
      MeasuredSame(lib, xs[..n], ys[..n]);
      CheckArtifactSame(lib, xs[n], ys[n]);
    }
  }

  lemma ResultsSame(lib: Library, xs: seq<Json>, ys: seq<Json>)
    requires SameList(xs, ys)
    ensures Results(lib, xs) == Results(lib, ys)
  {
    hide Same, CheckArtifact;
    forall i | 0 <= i < |xs| ensures Results(lib, xs)[i] == Results(lib, ys)[i] { CheckArtifactSame(lib, xs[i], ys[i]); }
  }

  lemma CanonsSame(xs: seq<Json>, ys: seq<Json>)
    requires SameList(xs, ys)
    ensures Canons(xs) == Canons(ys)
  {
    hide Same, Canon;
    forall i | 0 <= i < |xs| ensures Canons(xs)[i] == Canons(ys)[i] { CanonSameForward(xs[i], ys[i]); }
  }

  lemma TokensSame(xs: seq<Json>, ys: seq<Json>, expected: Bytes)
    requires SameList(xs, ys)
    ensures AnchorTokens(xs, expected) == AnchorTokens(ys, expected)
  {
    hide Same, TokenOf, StrAt;
    forall i | 0 <= i < |xs| ensures AnchorTokens(xs, expected)[i] == AnchorTokens(ys, expected)[i] {
      SameReads(xs[i], ys[i], TSR);
    }
  }

  lemma AllClosedSame(xs: seq<Json>, ys: seq<Json>, schema: Schema)
    requires SameList(xs, ys)
    ensures AllClosed(xs, schema) <==> AllClosed(ys, schema)
    ensures (forall i :: 0 <= i < |xs| ==> NoneUnknown(xs[i], schema)) <==> (forall i :: 0 <= i < |ys| ==> NoneUnknown(ys[i], schema))
  {
    hide Same, Closed, NoneUnknown;
    forall i | 0 <= i < |xs|
      ensures (Closed(xs[i], schema) <==> Closed(ys[i], schema)) && (NoneUnknown(xs[i], schema) <==> NoneUnknown(ys[i], schema))
    {
      ClosedSame(xs[i], ys[i], schema);
      NoneUnknownSame(xs[i], ys[i], schema);
    }
  }

  lemma NamesSame(xs: seq<Json>, ys: seq<Json>)
    requires SameList(xs, ys)
    ensures NamesOk(xs) <==> NamesOk(ys)
    ensures (forall i :: 0 <= i < |xs| ==> EntryKnown(xs[i])) <==> (forall i :: 0 <= i < |ys| ==> EntryKnown(ys[i]))
  {
    hide Same, EntryKnown, Field, StrAt;
    forall i | 0 <= i < |xs|
      ensures xs[i].Obj? <==> ys[i].Obj?
      ensures Field(xs[i], NAME).Some? <==> Field(ys[i], NAME).Some?
      ensures Field(xs[i], NAME).Some? ==> (Field(xs[i], NAME).value.Str? <==> Field(ys[i], NAME).value.Str?)
      ensures StrAt(xs[i], NAME) == StrAt(ys[i], NAME) && (EntryKnown(xs[i]) <==> EntryKnown(ys[i]))
    {
      SameKind(xs[i], ys[i]);
      SameField(xs[i], ys[i], NAME);
      if Field(xs[i], NAME).Some? { SameKind(Field(xs[i], NAME).value, Field(ys[i], NAME).value); }
      SameReads(xs[i], ys[i], NAME);
      EntryClosedSame(xs[i], ys[i]);
    }
  }

  // ------------------------------------------------------------------ the digest

  lemma {:induction false} KeptCounts(ms: seq<Member>, m: Member)
    ensures multiset(Kept(ms))[m] == if m.key in EXCLUDED then 0 else multiset(ms)[m]
    decreases |ms|
  {
    if ms != [] {
      KeptCounts(ms[1..], m);
      assert multiset(ms) == multiset{ms[0]} + multiset(ms[1..]) by { assert ms == [ms[0]] + ms[1..]; }
    }
  }

  lemma {:induction false} KeptNorms(ms: seq<Member>)
    ensures NormMembers(Kept(ms)) == Kept(NormMembers(ms))
    decreases |ms|
  {
    hide Norm;
    if ms != [] {
      KeptNorms(ms[1..]);
      assert NormMembers(ms)[1..] == NormMembers(ms[1..]);
      if ms[0].key !in EXCLUDED {
        assert Kept(ms)[1..] == Kept(ms[1..]);
      } else {
        assert Kept(ms) == Kept(ms[1..]);
        assert Kept(NormMembers(ms)) == Kept(NormMembers(ms[1..]));
      }
    }
  }

  lemma KeptIsStrict(ms: seq<Member>)
    requires Strict(Obj(ms))
    ensures Strict(Obj(Kept(ms)))
  {
    hide Kept;
    NoDuplicatesIsMultiset(ms);
    KeptIsUnique(ms);
    forall i | 0 <= i < |Kept(ms)| ensures Strict(Kept(ms)[i].val) {
      KeptCounts(ms, Kept(ms)[i]);
      assert Kept(ms)[i] in multiset(Kept(ms));
      var j :| 0 <= j < |ms| && ms[j] == Kept(ms)[i];
    }
  }

  lemma {:induction false} KeptIsUnique(ms: seq<Member>)
    requires UniqueKeys(ms)
    ensures UniqueKeys(Kept(ms))
    decreases |ms|
  {
    if ms != [] {
      TailIsUnique(ms);
      KeptIsUnique(ms[1..]);
      var rest := Kept(ms[1..]);
      if ms[0].key !in EXCLUDED {
        forall i | 0 <= i < |rest| ensures rest[i].key != ms[0].key {
          KeptCounts(ms[1..], rest[i]);
          assert rest[i] in multiset(rest);
          var j :| 0 <= j < |ms[1..]| && ms[1..][j] == rest[i];
        }
        assert Kept(ms) == [ms[0]] + rest;
        HeadIsUnique(ms[0], rest);
      }
    }
  }

  lemma HeadIsUnique(m: Member, rest: seq<Member>)
    requires UniqueKeys(rest) && forall i :: 0 <= i < |rest| ==> rest[i].key != m.key
    ensures UniqueKeys([m] + rest)
  {
    var ms := [m] + rest;
    forall p, q | 0 <= p < q < |ms| ensures KeySeq(ms)[p] != KeySeq(ms)[q] {
      assert ms[q] == rest[q - 1];
      if p > 0 { assert ms[p] == rest[p - 1] && KeySeq(rest)[p - 1] != KeySeq(rest)[q - 1]; }
    }
  }

  /** Members equal up to order and normal form stay so without those the digest does not cover. */
  lemma KeptSame(a: seq<Member>, b: seq<Member>)
    requires Same(Obj(a), Obj(b))
    ensures Same(Obj(Kept(a)), Obj(Kept(b)))
  {
    hide Kept, Norm, Sort;
    KeptIsStrict(a);
    KeptIsStrict(b);
    assert multiset(NormMembers(a)) == multiset(NormMembers(b)) by { NormOfObjects(a, b); }
    var x, y := NormMembers(a), NormMembers(b);
    forall m ensures multiset(Kept(x))[m] == multiset(Kept(y))[m] {
      KeptCounts(x, m);
      KeptCounts(y, m);
    }
    assert multiset(Kept(x)) == multiset(Kept(y));
    KeptNorms(a);
    KeptNorms(b);
    UniqueAfterNorm(Kept(a));
    SortForgetsOrder(NormMembers(Kept(a)), NormMembers(Kept(b)));
    NormIsSort(Kept(a));
    NormIsSort(Kept(b));
  }

  lemma NormIsSort(ms: seq<Member>)
    ensures Norm(Obj(ms)) == Obj(Sort(NormMembers(ms)))
  {}

  lemma NormOfObjects(a: seq<Member>, b: seq<Member>)
    requires Norm(Obj(a)) == Norm(Obj(b))
    ensures multiset(NormMembers(a)) == multiset(NormMembers(b))
  {
    assert multiset(Sort(NormMembers(a))) == multiset(Sort(NormMembers(b)));
  }

  lemma RecomputeSame(lib: Library, a: Json, b: Json)
    requires Same(a, b)
    ensures Recompute(lib, a) == Recompute(lib, b)
  {
    hide Same, Kept, Canon;
    SameKind(a, b);
    if a.Obj? {
      KeptSame(a.members, b.members);
      CanonSameForward(Obj(Kept(a.members)), Obj(Kept(b.members)));
    }
  }

  // ------------------------------------------------------------------ the facts

  lemma BlockSame(x: Option<Json>, y: Option<Json>, expected: Bytes)
    requires x.Some? <==> y.Some?
    requires x.Some? ==> Same(x.value, y.value)
    ensures BlockOf(x, expected) == BlockOf(y, expected)
  {
    hide Same, Field, TokenOf;
    if x.Some? {
      ScalarFieldSame(x.value, y.value, ANCHORED);
      ScalarFieldSame(x.value, y.value, TSR);
      SameField(x.value, y.value, TSR);
      if Field(x.value, TSR).Some? { SameKind(Field(x.value, TSR).value, Field(y.value, TSR).value); }
    }
  }

  /** What a fact reads of the producer block does not depend on key order either; the block itself is kept as read. */
  ghost predicate SameFacts(f: Verdict.Facts, g: Verdict.Facts) {
    f.(producer := None) == g.(producer := None) && (f.producer.Some? <==> g.producer.Some?)
    && (f.producer.Some? ==> Same(f.producer.value, g.producer.value))
  }

  lemma FactsSame(lib: Library, verify: ProducerBlock.Verifier, a: Json, b: Json)
    requires Same(a, b)
    ensures SameFacts(FactsOf(lib, verify, a), FactsOf(lib, verify, b))
  {
    hide Same, Field, ListAt, Recompute, BlockOf, AnchorTokens, Results, BindingsMatch;
    RecomputeSame(lib, a, b);
    ScalarFieldSame(a, b, DIGEST);
    SameField(a, b, TIMESTAMP);
    BlockSame(Field(a, TIMESTAMP), Field(b, TIMESTAMP), Recompute(lib, a));
    ListsSame(a, b, ANCHORS);
    TokensSame(ListAt(a, ANCHORS), ListAt(b, ANCHORS), Recompute(lib, a));
    ListsSame(a, b, ARTIFACTS);
    ResultsSame(lib, ListAt(a, ARTIFACTS), ListAt(b, ARTIFACTS));
    ListsSame(a, b, BINDINGS);
    MatchSame(lib, ListAt(a, ARTIFACTS), ListAt(b, ARTIFACTS), ListAt(a, BINDINGS), ListAt(b, BINDINGS));
    SameField(a, b, SIGNATURES);
  }

  lemma MatchSame(lib: Library, xs: seq<Json>, ys: seq<Json>, bs: seq<Json>, cs: seq<Json>)
    requires SameList(xs, ys) && SameList(bs, cs)
    ensures BindingsMatch(lib, xs, bs) <==> BindingsMatch(lib, ys, cs)
  {
    hide Same, Measured, Canons;
    MeasuredSame(lib, xs, ys);
    CanonsSame(bs, cs);
  }

  lemma OptionClosedSame(x: Option<Json>, y: Option<Json>, schema: Schema)
    requires x.Some? <==> y.Some?
    requires x.Some? ==> Same(x.value, y.value)
    ensures OptionClosed(x, schema) <==> OptionClosed(y, schema)
  {
    hide Same, Closed;
    if x.Some? { ClosedSame(x.value, y.value, schema); }
  }

  lemma AdmittedSame(lib: Library, format: string, scope: string, a: Json, b: Json)
    requires Same(a, b)
    ensures Admitted(lib, format, scope, a) <==> Admitted(lib, format, scope, b)
  {
    hide Same, Field, ListAt, StrAt, FieldOr, Closed, NamesOk, AllClosed, OptionClosed, EntryKnown, NoneUnknown;
    ClosedSame(a, b, TOP);
    SameReads(a, b, FORMAT);
    SameReads(a, b, CREATED);
    SameReads(a, b, SCOPE);
    ListsSame(a, b, ARTIFACTS);
    NamesSame(ListAt(a, ARTIFACTS), ListAt(b, ARTIFACTS));
    SameField(a, b, TIMESTAMP);
    OptionClosedSame(Field(a, TIMESTAMP), Field(b, TIMESTAMP), TIMESTAMP_BLOCK);
    SameField(a, b, SIGNATURES);
    OptionClosedSame(Field(a, SIGNATURES), Field(b, SIGNATURES), PRODUCER);
    ListsSame(a, b, BINDINGS);
    AllClosedSame(ListAt(a, BINDINGS), ListAt(b, BINDINGS), BINDING);
    ListsSame(a, b, ANCHORS);
    AllClosedSame(ListAt(a, ANCHORS), ListAt(b, ANCHORS), ANCHOR);
    FieldOrSame(a, b, SIGNATURES);
    ListsSame(FieldOr(a, SIGNATURES), FieldOr(b, SIGNATURES), "signatures");
    AllClosedSame(ListAt(FieldOr(a, SIGNATURES), "signatures"), ListAt(FieldOr(b, SIGNATURES), "signatures"), ENTRY);
  }

  /** Two packs that are the same JSON value up to the order of keys are admitted together and give the same facts. */
  lemma KeyOrderDoesNotMatter(lib: Library, verify: ProducerBlock.Verifier, format: string, scope: string, a: Json, b: Json)
    requires Strict(a) && Strict(b) && ResolverOrder.Alike(false, a, b)
    ensures Admitted(lib, format, scope, a) <==> Admitted(lib, format, scope, b)
    ensures SameFacts(FactsOf(lib, verify, a), FactsOf(lib, verify, b))
  {
    hide Admitted, FactsOf;
    CanonIsUpToKeyOrder(a, b);
    CanonSame(a, b);
    AdmittedSame(lib, format, scope, a, b);
    FactsSame(lib, verify, a, b);
  }

  // ------------------------------------------------------------------ what a good artifact and a good digest establish

  /** What verify established of a good artifact: closed objects, an exact ASCII presentation without critical extensions,
      a signature under the recorded key, that key reconciled with the header, and copies that say what the token says. */
  lemma GoodArtifactMeans(lib: Library, a: Json) returns (p: Parsed, resolved: Json, kb: Kb)
    requires Verdict.Good(ResultOf(lib, a))
    ensures EntryClosed(a) && Ascii(StrAt(a, SD_JWT)) && Field(p.header, "crit").None? && p.header.Obj? && p.payload.Obj?
    ensures var jwk, cls := FieldOr(FieldOr(a, KEY_COPY), JWK), StrAt(FieldOr(a, KEY_COPY), PROVENANCE);
            && cls in CLASSES
            && (cls == FROM_JWK || Field(p.header, JWK).Some? ==> JwkNames(p.header, jwk))
            && (cls == FROM_X5C || Field(p.header, X5C).Some? ==> ChainNames(lib, p.header, jwk))
    ensures Parse(lib, StrAt(a, SD_JWT)) == Some(p) && p.compact == StrAt(a, SD_JWT)
    ensures VerifyEs256(lib, p, FieldOr(FieldOr(a, KEY_COPY), JWK)) == Some(true)
    ensures ResolvedClaims(lib, p) == Some(resolved) && CheckKb(lib, p, resolved) == Some(kb) && !KbRefuted(kb)
    ensures Canon(FieldOr(a, HEADER)) == Canon(p.header) && Canon(FieldOr(a, CLAIMS)) == Canon(resolved)
    ensures Field(FieldOr(a, KB_JWT), PRESENT) == Some(Bool(p.kb != "")) && RecordAgrees(FieldOr(a, KB_JWT), KbRecord(kb))
  {
    hide Canon, Field, StrAt, FieldOr, EntryClosed, RecordAgrees, VerifyEs256, CheckKb, ResolvedClaims, Ascii, JwkNames, ChainNames,
         Split, B64UrlDecode, LoadSegment, NonEmpty, KbRecord;
    p := Parse(lib, StrAt(a, SD_JWT)).value;
    resolved := ResolvedClaims(lib, p).value;
    kb := CheckKb(lib, p, resolved).value;
  }

  /** The copies an entry keeps are determined by its token: two good entries of one token, in any two packs, record the same
      header, the same claims and the same key-binding facts, up to the order of keys. */
  lemma CopiesAreDetermined(lib: Library, a: Json, b: Json, i: nat)
    requires Strict(a) && Strict(b) && StrAt(a, SD_JWT) == StrAt(b, SD_JWT)
    requires Verdict.Good(ResultOf(lib, a)) && Verdict.Good(ResultOf(lib, b))
    ensures ResolverOrder.Alike(false, FieldOr(a, HEADER), FieldOr(b, HEADER))
    ensures ResolverOrder.Alike(false, FieldOr(a, CLAIMS), FieldOr(b, CLAIMS))
    ensures Field(FieldOr(a, KB_JWT), PRESENT) == Field(FieldOr(b, KB_JWT), PRESENT)
    ensures i < |RECOMPUTED| && Field(FieldOr(a, KB_JWT), RECOMPUTED[i]).Some? && Field(FieldOr(b, KB_JWT), RECOMPUTED[i]).Some? ==>
              ResolverOrder.Alike(false, FieldOr(FieldOr(a, KB_JWT), RECOMPUTED[i]), FieldOr(FieldOr(b, KB_JWT), RECOMPUTED[i]))
  {
    hide Canon, Field, StrAt, ResultOf, VerifyEs256, CheckKb, ResolvedClaims, Parse, ResolverOrder.Alike, Strict, KbRecord;
    var p, resolved, kb := GoodArtifactMeans(lib, a);
    var q, resolved', kb' := GoodArtifactMeans(lib, b);
    StrictFieldOr(a, HEADER);
    StrictFieldOr(b, HEADER);
    CanonAlike(FieldOr(a, HEADER), FieldOr(b, HEADER));
    StrictFieldOr(a, CLAIMS);
    StrictFieldOr(b, CLAIMS);
    CanonAlike(FieldOr(a, CLAIMS), FieldOr(b, CLAIMS));
    StrictFieldOr(a, KB_JWT);
    StrictFieldOr(b, KB_JWT);
    var ka, kc := FieldOr(a, KB_JWT), FieldOr(b, KB_JWT);
    if i < |RECOMPUTED| && Field(ka, RECOMPUTED[i]).Some? && Field(kc, RECOMPUTED[i]).Some? {
      var k := RECOMPUTED[i];
      StrictFieldOr(ka, k);
      StrictFieldOr(kc, k);
      assert CanonOf(Field(ka, k)) == CanonOf(Field(KbRecord(kb), k)) == CanonOf(Field(kc, k));
      CanonAlike(FieldOr(ka, k), FieldOr(kc, k));
    }
  }

  lemma StrictFieldOr(a: Json, k: string)
    requires Strict(a)
    ensures Strict(FieldOr(a, k))
  {
    if Field(a, k).Some? { FieldIsStrict(a, k); }
  }

  lemma CanonAlike(a: Json, b: Json)
    requires Strict(a) && Strict(b) && Canon(a) == Canon(b)
    ensures ResolverOrder.Alike(false, a, b)
  {
    CanonIsUpToKeyOrder(a, b);
  }

  lemma {:induction false} HexIsInjective(a: Bytes, b: Bytes)
    requires Bindings.Hex(a) == Bindings.Hex(b)
    ensures a == b
    decreases |a|
  {
    assert |Bindings.Hex(a)| == 2 * |a| && |Bindings.Hex(b)| == 2 * |b|;
    if a != [] {
      var s, t := Bindings.Hex(a), Bindings.Hex(b);
      assert s[2..] == Bindings.Hex(a[1..]) && t[2..] == Bindings.Hex(b[1..]);
      HexIsInjective(a[1..], b[1..]);
      HexDigits(a[0], b[0]);
      assert s[0] == t[0] && s[1] == t[1];
      assert a == [a[0]] + a[1..] && b == [b[0]] + b[1..];
    }
  }

  lemma HexDigits(x: Byte, y: Byte)
    ensures HexChar(x / 16) == HexChar(y / 16) && HexChar(x % 16) == HexChar(y % 16) ==> x == y
  {
    HexCharReads(x / 16);
    HexCharReads(y / 16);
    HexCharReads(x % 16);
    HexCharReads(y % 16);
  }

  /** The recorded digest binds everything it covers: two packs that both carry the one recomputed for them, and carry the
      same, are the same up to key order outside the four members it leaves out, or are a collision of the hash. */
  lemma DigestBinds(lib: Library, verify: ProducerBlock.Verifier, a: Json, b: Json)
    requires Strict(a) && Strict(b) && a.Obj? && b.Obj? && Field(a, DIGEST) == Field(b, DIGEST)
    requires FactsOf(lib, verify, a).digestOk && FactsOf(lib, verify, b).digestOk
    ensures var x, y := Obj(Kept(a.members)), Obj(Kept(b.members));
            ResolverOrder.Alike(false, x, y) || (Canon(x) != Canon(y) && lib.sha(Canon(x)) == lib.sha(Canon(y)))
  {
    hide Kept, Canon, Field, ResolverOrder.Alike, Strict, Bindings.Hex, Measured, Results, BlockOf, AnchorTokens;
    KeptIsStrict(a.members);
    KeptIsStrict(b.members);
    HexIsInjective(Recompute(lib, a), Recompute(lib, b));
    var x, y := Obj(Kept(a.members)), Obj(Kept(b.members));
    if Canon(x) == Canon(y) { CanonAlike(x, y); }
  }
}
