/** The two verdicts of one verification: `valid`, and the states of five subjects with the policy. The facts measured
    on an admitted pack (signatures, certificates, tokens, recomputed digests) are inputs. */
module Verdict {
  import opened Octets
  import opened Values
  import opened ProducerBlock

  // ------------------------------------------------------------------ the measured facts

  /** A KB-JWT: absent, present with an unknown holder key, or checked. */
  datatype HolderCheck = NoKbJwt | HolderUnknown | HolderChecked(signatureOk: bool, sdHashOk: bool)

  datatype ArtifactResult =
    | ArtifactError
    | ArtifactChecked(signatureOk: bool, claimsMatch: bool, kb: HolderCheck, x5c: bool, chain: Option<bool>, broken: bool)

  /** One RFC 3161 token; `identity` is the TSTInfo the authority signed. */
  datatype Token = Token(granted: Option<bool>, imprintOk: Option<bool>, tsaVerified: Option<bool>, identity: Bytes)

  datatype TimeBlock = NotAnchored | TokenAbsent | Stamped(token: Token)

  datatype Facts = Facts(digestOk: bool, block: TimeBlock, anchors: seq<Token>, artifacts: seq<ArtifactResult>,
                         bindingsMatch: bool, producer: Option<Json>, verify: Verifier)

  datatype Policy = Policy(requireProducer: bool, requirePq: bool, requireAnchor: bool, minAnchors: Option<int>,
                           trusted: Option<TrustSet>, trustSetComplete: bool, tsaRequested: bool, trustAnchorGiven: bool)

  predicate Binds(t: Token) { t.granted == Some(true) && t.imprintOk == Some(true) }

  /** `verified` of a KB record: None when there is none or the holder key is unknown. */
  function KbVerified(kb: HolderCheck): Option<bool> {
    match kb case HolderChecked(s, h) => Some(s && h) case _ => None
  }

  // ------------------------------------------------------------------ subjects and their elements

  datatype State = Contradicted | NotEvaluated | Verified

  datatype Reason =
    | DigestMismatch | ArtifactInvalid | BindingMismatch
    | KbSignatureInvalid | SdHashMismatch | HolderKeyUnknown | NotPresent
    | TokenInvalid | TokenMissing | TsaNotChecked | TsaInvalid | InstrumentFailure
    | SignatureInvalid | BackendMissing | SelfAsserted | KeyUnresolved
    | NoTrustAnchor | CaCertified | ChainBroken | ChainUnresolved

  datatype Element = Element(state: State, reason: Option<Reason>)
  datatype Subject = Subject(state: State, reasons: seq<Reason>)

  const Fine := Element(Verified, None)
  function Bad(r: Reason): Element { Element(Contradicted, Some(r)) }
  function Open(r: Reason): Element { Element(NotEvaluated, Some(r)) }

  function Rank(e: Element): nat {
    if e.state == Contradicted then 3
    else if e.reason == Some(InstrumentFailure) then 2
    else if e.state == NotEvaluated then 1 else 0
  }

  /** The first element of the highest rank. */
  function Top(es: seq<Element>): (e: Element)
    requires es != []
    ensures e in es && forall x :: x in es ==> Rank(x) <= Rank(e)
  {
    if |es| == 1 then es[0]
    else
      assert es == [es[0]] + es[1..];
      var t := Top(es[1..]);
      if Rank(t) > Rank(es[0]) then t else es[0]
  }

  function Reasons(es: seq<Element>, verified: bool): seq<Reason> {
    if es == [] then []
    else
      (if es[0].reason.Some? && (verified || es[0].state != Verified) then [es[0].reason.value] else [])
      + Reasons(es[1..], verified)
  }

  function SubjectOf(es: seq<Element>): Subject
    requires es != []
  {
    Subject(Top(es).state, Reasons(es, Top(es).state == Verified))
  }

  /** Elements as the derivation builds them: an instrument failure is never a verified element, and what is not
      verified says why. */
  predicate Proper(es: seq<Element>) {
    forall e :: e in es ==> (e.reason == Some(InstrumentFailure) ==> e.state == NotEvaluated) && (e.state != Verified ==> e.reason.Some?)
  }

  /** The precedence of the states, both ways: one contradicted element contradicts the subject and nothing else does;
      it is verified exactly when every element is. */
  lemma SubjectPrecedence(es: seq<Element>)
    requires es != [] && Proper(es)
    ensures SubjectOf(es).state == Contradicted <==> exists e :: e in es && e.state == Contradicted
    ensures SubjectOf(es).state == Verified <==> forall e :: e in es ==> e.state == Verified
  {
    var t := Top(es);
    if e :| e in es && e.state == Contradicted { assert Rank(e) == 3; }
    if t.state == Verified {
      forall e | e in es ensures e.state == Verified { assert Rank(e) <= Rank(t); }
    }
  }

  lemma {:induction false} ReasonListed(es: seq<Element>, verified: bool, r: Reason)
    requires !verified
    ensures r in Reasons(es, verified) <==> exists e :: e in es && e.state != Verified && e.reason == Some(r)
    decreases |es|
  {
    if es != [] {
      ReasonListed(es[1..], verified, r);
      assert es == [es[0]] + es[1..];
      assert es[0] in es;
    }
  }

  /** The reason an element gives, if it speaks. */
  function Told(e: Element, verified: bool): seq<Reason> {
    if e.reason.Some? && (verified || e.state != Verified) then [e.reason.value] else []
  }

  lemma ReasonsStep(es: seq<Element>, verified: bool)
    requires es != []
    ensures Reasons(es, verified) == Told(es[0], verified) + Reasons(es[1..], verified)
  {}

  /** The reasons of a list follow its elements, in their order: an element gives its own reason or none, and those of two
      parts are the one's and then the other's. */
  lemma {:induction false} ReasonsInOrder(a: seq<Element>, b: seq<Element>, verified: bool)
    ensures Reasons(a + b, verified) == Reasons(a, verified) + Reasons(b, verified)
    ensures |a| == 1 ==> Reasons(a, verified) == Told(a[0], verified)
    decreases |a|
  {
    if a == [] {
      assert a + b == b;
    } else {
      hide Reasons, Told;
      assert (a + b)[0] == a[0] && (a + b)[1..] == a[1..] + b;
      ReasonsStep(a + b, verified);
      ReasonsStep(a, verified);
      ReasonsInOrder(a[1..], b, verified);
      if |a| == 1 { NoReasons(a[1..], verified); }
    }
  }

  lemma NoReasons(es: seq<Element>, verified: bool)
    requires es == []
    ensures Reasons(es, verified) == []
  {}

  function AnchorElement(t: Token, tsaRequested: bool): Element {
    if !Binds(t) then Bad(if t.imprintOk == Some(false) then BindingMismatch else TokenInvalid)
    else if !tsaRequested then Open(TsaNotChecked)
    else
      match t.tsaVerified
      case Some(true) => Fine
      case Some(false) => Open(TsaInvalid)
      case None => Open(InstrumentFailure)
  }

  function ArtifactElement(a: ArtifactResult): Element {
    if a.ArtifactError? || !a.signatureOk || !a.claimsMatch then Bad(ArtifactInvalid) else Fine
  }

  /** The element of a KB-JWT, none for an artifact without one or that is an error. */
  function HolderElement(a: ArtifactResult): seq<Element> {
    if a.ArtifactError? then []
    else
      match a.kb
      case NoKbJwt => []
      case HolderUnknown => [Open(HolderKeyUnknown)]
      case HolderChecked(s, h) => [if s && h then Fine else Bad(if s then SdHashMismatch else KbSignatureInvalid)]
  }

  function IssuerElement(a: ArtifactResult, trustAnchorGiven: bool): seq<Element> {
    if a.ArtifactError? then []
    else if !a.x5c then [Open(SelfAsserted)]
    else if !trustAnchorGiven then [Open(NoTrustAnchor)]
    else
      match a.chain
      case Some(true) => [Element(Verified, Some(CaCertified))]
      case Some(false) => [if a.broken then Bad(ChainBroken) else Open(ChainUnresolved)]
      case None => [Open(InstrumentFailure)]
  }

  function RowElement(r: Row, pinned: bool): Element {
    if r.status == FAIL then Bad(SignatureInvalid)
    else if r.status == SKIP then Open(BackendMissing)
    else if !pinned then Open(SelfAsserted)
    else if r.keyTrusted == Some(true) then Fine
    else Open(KeyUnresolved)
  }

  /** The element functions as values. */
  function ForArtifact(): ArtifactResult -> seq<Element> { (a: ArtifactResult) => [ArtifactElement(a)] }
  function ForHolder(): ArtifactResult -> seq<Element> { (a: ArtifactResult) => HolderElement(a) }
  function ForIssuer(trustAnchorGiven: bool): ArtifactResult -> seq<Element> {
    (a: ArtifactResult) => IssuerElement(a, trustAnchorGiven)
  }
  function ForToken(tsaRequested: bool): Token -> seq<Element> { (t: Token) => [AnchorElement(t, tsaRequested)] }
  function ForRow(pinned: bool): Row -> seq<Element> { (r: Row) => [RowElement(r, pinned)] }

  function Each<A>(xs: seq<A>, f: A -> seq<Element>): seq<Element> {
    if xs == [] then [] else Each(xs[..|xs| - 1], f) + f(xs[|xs| - 1])
  }

  lemma {:induction false} EachMembers<A>(xs: seq<A>, f: A -> seq<Element>, e: Element)
    ensures e in Each(xs, f) <==> exists i :: 0 <= i < |xs| && e in f(xs[i])
    decreases |xs|
  {
    if xs != [] {
      var init := xs[..|xs| - 1];
      EachMembers(init, f, e);
      if e in Each(init, f) { var i :| 0 <= i < |init| && e in f(init[i]); assert e in f(xs[i]); }
      if exists i :: 0 <= i < |xs| && e in f(xs[i]) {
        var i :| 0 <= i < |xs| && e in f(xs[i]);
        if i < |init| { assert e in f(init[i]); }
      }
    }
  }

  function OrAbsent(es: seq<Element>): (r: seq<Element>)
    ensures r != []
  {
    if es == [] then [Open(NotPresent)] else es
  }

  /** The binding set is recomputed only over artifacts whose signature and claims all verified. */
  function BindingSetMatch(f: Facts): Option<bool> {
    if f.artifacts != [] && forall i :: 0 <= i < |f.artifacts| ==> ArtifactElement(f.artifacts[i]) == Fine
    then Some(f.bindingsMatch) else None
  }

  function SealedElements(f: Facts): (r: seq<Element>)
    ensures r != []
  {
    [if f.digestOk then Fine else Bad(DigestMismatch)]
    + (if f.artifacts == [] then [Bad(ArtifactInvalid)] else [])
    + Each(f.artifacts, ForArtifact())
    + (match BindingSetMatch(f) case None => [] case Some(b) => [if b then Fine else Bad(BindingMismatch)])
  }

  function TimeElements(f: Facts, tsaRequested: bool): seq<Element> {
    (match f.block
     case NotAnchored => []
     case TokenAbsent => [Bad(TokenMissing)]
     case Stamped(t) => [AnchorElement(t, tsaRequested)])
    + Each(f.anchors, ForToken(tsaRequested))
  }

  function ProducerElements(v: Option<BlockVerdict>, pinned: bool): (r: seq<Element>)
    ensures r != []
  {
    match v
    case None => [Open(NotPresent)]
    case Some(b) =>
      Each(b.rows, ForRow(pinned))
      + (if b.rows == [] || !b.schemeOk then [Bad(SignatureInvalid)] else [])
  }

  datatype States = States(sealedContent: Subject, holderBinding: Subject, timeAnchor: Subject,
                           producerSignature: Subject, issuerIdentity: Subject)

  function StatesOf(f: Facts, p: Policy, v: Option<BlockVerdict>): States {
    States(SubjectOf(SealedElements(f)),
           SubjectOf(OrAbsent(Each(f.artifacts, ForHolder()))),
           SubjectOf(OrAbsent(TimeElements(f, p.tsaRequested))),
           SubjectOf(ProducerElements(v, p.trusted.Some?)),
           SubjectOf(OrAbsent(Each(f.artifacts, ForIssuer(p.trustAnchorGiven)))))
  }

  // ------------------------------------------------------------------ the receipt

  datatype Unmet = UnmetProducer | UnmetPq | UnmetAnchor | UnmetMinAnchors | UnmetTrustedKeys | UnmetTrustSetComplete

  datatype Receipt = Receipt(valid: bool, states: States, policyOk: bool, unmet: seq<Unmet>, anchorsVerified: nat,
                             producer: Option<BlockVerdict>)

  predicate Counts(t: Token, p: Policy) { Binds(t) && (!p.tsaRequested || t.tsaVerified == Some(true)) }

  function ClaimedTokens(f: Facts): seq<Token> {
    (match f.block case Stamped(t) => [t] case _ => []) + f.anchors
  }

  /** Distinct signed TSTInfos among the tokens that count. */
  function Identities(ts: seq<Token>, p: Policy): set<Bytes> {
    set t | t in ts && Counts(t, p) :: t.identity
  }

  /** The four requirements that make up `policy_ok`. */
  function UnmetPolicy(p: Policy, v: Option<BlockVerdict>, anchorsVerified: nat): seq<Unmet> {
    (if p.requireProducer && !(v.Some? && v.value.ok) then [UnmetProducer] else [])
    + (if p.requirePq && !(v.Some? && v.value.pqProtected && v.value.trusted == Some(true)) then [UnmetPq] else [])
    + (if p.requireAnchor && anchorsVerified < 1 then [UnmetAnchor] else [])
    + (if p.minAnchors.Some? && anchorsVerified < p.minAnchors.value then [UnmetMinAnchors] else [])
  }

  function UnmetTrust(p: Policy, v: Option<BlockVerdict>, s: States): seq<Unmet> {
    (if p.trusted.Some? && v.Some? && v.value.trusted != Some(true) then [UnmetTrustedKeys] else [])
    + (if p.trustSetComplete && KeyUnresolved in s.producerSignature.reasons then [UnmetTrustSetComplete] else [])
  }

  /** Everything `valid` asks of the content: every part checked and good. */
  ghost predicate AllGood(f: Facts, p: Policy, v: Option<BlockVerdict>) {
    && f.artifacts != [] && f.digestOk && f.bindingsMatch
    && (forall i :: 0 <= i < |f.artifacts| ==> Good(f.artifacts[i]))
    && (f.block.NotAnchored? || (f.block.Stamped? && Binds(f.block.token)))
    && (forall i :: 0 <= i < |f.anchors| ==> Binds(f.anchors[i]))
    && (v.Some? ==> v.value.ok && (p.trusted.Some? ==> v.value.trusted == Some(true)))
  }

  predicate Good(a: ArtifactResult) {
    a.ArtifactChecked? && a.signatureOk && a.claimsMatch && KbVerified(a.kb) != Some(false)
  }

  /** `v` is the verdict on the producer block, when there is one. */
  ghost predicate ProducerOf(f: Facts, p: Policy, v: Option<BlockVerdict>) {
    (v.Some? <==> f.producer.Some?) &&
    (v.Some? ==> Describes(v.value, Scheme(f.producer.value), Rows(Entries(f.producer.value), f.verify, p.trusted), p.trusted.Some?))
  }

  /** What a receipt says about the facts under a policy. */
  ghost predicate Reports(r: Receipt, f: Facts, p: Policy) {
    && ProducerOf(f, p, r.producer)
    && r.anchorsVerified == |Identities(ClaimedTokens(f), p)|
    && r.states == StatesOf(f, p, r.producer)
    && r.unmet == UnmetPolicy(p, r.producer, r.anchorsVerified) + UnmetTrust(p, r.producer, r.states)
    && (r.policyOk <==> UnmetPolicy(p, r.producer, r.anchorsVerified) == [])
    && (r.valid <==> AllGood(f, p, r.producer) && r.policyOk)
  }

  /** The flags of the verification, put together, are the verdict. */
  lemma FlagsDecide(f: Facts, p: Policy, v: Option<BlockVerdict>, artsOk: bool, anchorsOk: bool, valid: bool, policyOk: bool)
    requires artsOk <==> forall i :: 0 <= i < |f.artifacts| ==> Good(f.artifacts[i])
    requires anchorsOk <==> (f.block.NotAnchored? || (f.block.Stamped? && Binds(f.block.token))) &&
                            forall i :: 0 <= i < |f.anchors| ==> Binds(f.anchors[i])
    requires valid <==> f.artifacts != [] && f.digestOk && f.bindingsMatch && artsOk && anchorsOk && policyOk &&
                        (v.Some? ==> v.value.ok && (p.trusted.Some? ==> v.value.trusted == Some(true)))
    ensures valid <==> AllGood(f, p, v) && policyOk
  {}

  /** The verification itself. A minimum below one is an error of the caller: None. */
  method VerifyEvidence(f: Facts, p: Policy) returns (receipt: Option<Receipt>)
    ensures receipt.Some? <==> (p.minAnchors.Some? ==> p.minAnchors.value >= 1)
    ensures receipt.Some? ==> Reports(receipt.value, f, p)
  {
    hide StatesOf, Good, Binds, Identities, ProducerOf, UnmetPolicy, UnmetTrust, AllGood, ArtifactElement;
    if p.minAnchors.Some? && p.minAnchors.value < 1 { return None; }
    var counted := CountAnchors(ClaimedTokens(f), p);
    var anchorsVerified := |counted|;
    var rfcFalse := RfcRefuted(f);
    var allOk, allSealed := CheckArtifacts(f.artifacts);
    ghost var artsOk := allOk;
    var bindingSetMatch := if f.artifacts != [] && allSealed then Some(f.bindingsMatch) else None;
    var bindingsOk := allOk && f.bindingsMatch;
    var producer := CheckProducer(f, p);
    if producer.Some? {
      if !producer.value.ok { allOk := false; }
      if p.trusted.Some? && producer.value.trusted != Some(true) { allOk := false; }
    }
    var unmet := UnmetPolicy(p, producer, anchorsVerified);
    var policyOk := unmet == [];
    var states := DeriveStates(f, p, bindingSetMatch, producer);
    unmet := unmet + UnmetTrust(p, producer, states);
    var valid := f.artifacts != [] && f.digestOk && allOk && bindingsOk && !rfcFalse && policyOk;
    FlagsDecide(f, p, producer, artsOk, !rfcFalse, valid, policyOk);
    receipt := Some(Receipt(valid, states, policyOk, unmet, anchorsVerified, producer));
  }

  method CheckProducer(f: Facts, p: Policy) returns (producer: Option<BlockVerdict>)
    ensures ProducerOf(f, p, producer)
  {
    if f.producer.None? { return None; }
    var v := VerifyProducerBlock(f.producer.value, f.verify, p.trusted);
    producer := Some(v);
  }

  method CountAnchors(ts: seq<Token>, p: Policy) returns (counted: set<Bytes>)
    ensures counted == Identities(ts, p)
  {
    counted := {};
    for i := 0 to |ts|
      invariant counted == Identities(ts[..i], p)
    {
      assert ts[..i + 1] == ts[..i] + [ts[i]];
      if Counts(ts[i], p) { counted := counted + {ts[i].identity}; }
    }
    assert ts[..|ts|] == ts;
  }

  /** `verified` of the anchor block after the aggregate over `anchors` is False. */
  method RfcRefuted(f: Facts) returns (refuted: bool)
    ensures !refuted <==> (f.block.NotAnchored? || (f.block.Stamped? && Binds(f.block.token))) &&
                          forall i :: 0 <= i < |f.anchors| ==> Binds(f.anchors[i])
  {
    var blockVerified := match f.block case NotAnchored => None case TokenAbsent => Some(false) case Stamped(t) => Some(Binds(t));
    var anyFails := false;
    for i := 0 to |f.anchors|
      invariant anyFails <==> exists j :: 0 <= j < i && !Binds(f.anchors[j])
    {
      if !Binds(f.anchors[i]) { anyFails := true; }
    }
    if f.anchors != [] { blockVerified := Some(blockVerified != Some(false) && !anyFails); }
    refuted := blockVerified == Some(false);
  }

  /** The artifact loop: `all_ok`, and whether every signature and claim verified. */
  method CheckArtifacts(arts: seq<ArtifactResult>) returns (allOk: bool, allSealed: bool)
    ensures allOk <==> forall i :: 0 <= i < |arts| ==> Good(arts[i])
    ensures allSealed <==> forall i :: 0 <= i < |arts| ==> ArtifactElement(arts[i]) == Fine
  {
    allOk, allSealed := true, true;
    for i := 0 to |arts|
      invariant allOk <==> forall j :: 0 <= j < i ==> Good(arts[j])
      invariant allSealed <==> forall j :: 0 <= j < i ==> ArtifactElement(arts[j]) == Fine
    {
      var a := arts[i];
      if a.ArtifactError? {
        allOk, allSealed := false, false;
      } else {
        allOk := allOk && a.signatureOk && a.claimsMatch && KbVerified(a.kb) != Some(false);
        allSealed := allSealed && a.signatureOk && a.claimsMatch;
      }
    }
  }

  /** The five subjects, each from its list of elements. */
  method DeriveStates(f: Facts, p: Policy, bindingSetMatch: Option<bool>, producer: Option<BlockVerdict>) returns (s: States)
    requires bindingSetMatch == BindingSetMatch(f)
    ensures s == StatesOf(f, p, producer)
  {
    var sealedList := DeriveSealed(f, bindingSetMatch);
    var holder := Collect(f.artifacts, ForHolder());
    var time := DeriveTime(f, p.tsaRequested);
    var prod := DeriveProducer(producer, p.trusted.Some?);
    var issuer := Collect(f.artifacts, ForIssuer(p.trustAnchorGiven));
    s := States(SubjectOf(sealedList), SubjectOf(OrAbsent(holder)), SubjectOf(OrAbsent(time)), SubjectOf(prod),
                SubjectOf(OrAbsent(issuer)));
  }

  method DeriveSealed(f: Facts, bindingSetMatch: Option<bool>) returns (es: seq<Element>)
    requires bindingSetMatch == BindingSetMatch(f)
    ensures es == SealedElements(f)
  {
    es := [if f.digestOk then Fine else Bad(DigestMismatch)];
    if f.artifacts == [] { es := es + [Bad(ArtifactInvalid)]; }
    var more := Collect(f.artifacts, ForArtifact());
    es := es + more;
    if bindingSetMatch.Some? { es := es + [if bindingSetMatch.value then Fine else Bad(BindingMismatch)]; }
  }

  method DeriveTime(f: Facts, tsaRequested: bool) returns (es: seq<Element>)
    ensures es == TimeElements(f, tsaRequested)
  {
    es := [];
    match f.block {
      case NotAnchored =>
      case TokenAbsent => es := es + [Bad(TokenMissing)];
      case Stamped(t) => es := es + [AnchorElement(t, tsaRequested)];
    }
    var more := Collect(f.anchors, ForToken(tsaRequested));
    es := es + more;
  }

  method DeriveProducer(producer: Option<BlockVerdict>, pinned: bool) returns (es: seq<Element>)
    ensures es == ProducerElements(producer, pinned)
  {
    if producer.None? { return [Open(NotPresent)]; }
    es := Collect(producer.value.rows, ForRow(pinned));
    if producer.value.rows == [] || !producer.value.schemeOk { es := es + [Bad(SignatureInvalid)]; }
  }

  method Collect<A>(xs: seq<A>, f: A -> seq<Element>) returns (es: seq<Element>)
    ensures es == Each(xs, f)
  {
    es := [];
    for i := 0 to |xs|
      invariant es == Each(xs[..i], f)
    {
      assert xs[..i + 1][..i] == xs[..i];
      es := es + f(xs[i]);
    }
    assert xs[..|xs|] == xs;
  }
}
