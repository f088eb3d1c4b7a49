/** What a receipt says of each subject, told from the facts alone: the state and every reason listed. */
module VerdictReasons {
  import opened Octets
  import opened Values
  import opened ProducerBlock
  import opened Verdict
  import opened VerdictLaws

  // ------------------------------------------------------------------ from elements to a subject

  /** A reason is listed for an element that is not verified, and for any element of a verified subject. */
  lemma {:induction false} ReasonIsListed(es: seq<Element>, verified: bool, r: Reason)
    ensures r in Reasons(es, verified) <==> exists e :: e in es && e.reason == Some(r) && (verified || e.state != State.Verified)
    decreases |es|
  {
    if es != [] {
      ReasonIsListed(es[1..], verified, r);
      assert es == [es[0]] + es[1..];
      if e :| e in es && e.reason == Some(r) && (verified || e.state != State.Verified) { assert e == es[0] || e in es[1..]; }
      if e :| e in es[1..] && e.reason == Some(r) && (verified || e.state != State.Verified) { assert e in es; }
      assert es[0] in es;
    }
  }

  /** A subject whose only element with the reason `r`, when it has one, is `e`. */
  lemma ListedBy(es: seq<Element>, e: Element, r: Reason)
    requires es != [] && e.reason == Some(r) && e.state != State.Verified
    requires forall x :: x in es && x.reason == Some(r) ==> x == e
    ensures r in SubjectOf(es).reasons <==> e in es
  {
    ReasonIsListed(es, SubjectOf(es).state == State.Verified, r);
  }

  lemma WrongIsListed(es: seq<Element>, e: Element)
    requires e in es && e.reason.Some? && e.state != State.Verified
    ensures e.reason.value in SubjectOf(es).reasons
  {
    ReasonIsListed(es, SubjectOf(es).state == State.Verified, e.reason.value);
  }

  lemma NotListed(es: seq<Element>, r: Reason)
    requires es != [] && forall x :: x in es ==> x.reason != Some(r)
    ensures r !in SubjectOf(es).reasons
  {
    ReasonIsListed(es, SubjectOf(es).state == State.Verified, r);
  }

  // ------------------------------------------------------------------ issuer_identity

  /** The artifacts whose key came from a certificate, with what their chain came to. */
  ghost predicate Certified(f: Facts, i: int, chain: Option<bool>) {
    0 <= i < |f.artifacts| && f.artifacts[i].ArtifactChecked? && f.artifacts[i].x5c && f.artifacts[i].chain == chain
  }

  ghost predicate Uncertified(f: Facts, i: int) {
    0 <= i < |f.artifacts| && f.artifacts[i].ArtifactChecked? && !f.artifacts[i].x5c
  }

  ghost predicate IssuerHas(f: Facts, given: bool, e: Element) {
    || (e == Element(NotEvaluated, Some(SelfAsserted)) && exists i :: Uncertified(f, i))
    || (e == Element(NotEvaluated, Some(NoTrustAnchor)) && !given && exists i, c :: Certified(f, i, c))
    || (e == Element(State.Verified, Some(CaCertified)) && given && exists i :: Certified(f, i, Some(true)))
    || (e == Element(Contradicted, Some(ChainBroken)) && given && exists i :: Certified(f, i, Some(false)) && f.artifacts[i].broken)
    || (e == Element(NotEvaluated, Some(ChainUnresolved)) && given &&
        exists i :: Certified(f, i, Some(false)) && !f.artifacts[i].broken)
    || (e == Element(NotEvaluated, Some(InstrumentFailure)) && given && exists i :: Certified(f, i, None))
    || (e == Element(NotEvaluated, Some(NotPresent)) && forall i :: 0 <= i < |f.artifacts| ==> f.artifacts[i].ArtifactError?)
  }

  function IssuerList(f: Facts, given: bool): seq<Element> { OrAbsent(Each(f.artifacts, ForIssuer(given))) }

  lemma IssuerElements(f: Facts, given: bool, e: Element)
    ensures e in IssuerList(f, given) <==> IssuerHas(f, given, e)
  {
    var es := Each(f.artifacts, ForIssuer(given));
    EachMembers(f.artifacts, ForIssuer(given), e);
    EmptyEach(f.artifacts, ForIssuer(given));
    forall i | 0 <= i < |f.artifacts|
      ensures ForIssuer(given)(f.artifacts[i]) == [] <==> f.artifacts[i].ArtifactError?
      ensures e in ForIssuer(given)(f.artifacts[i]) ==> IssuerHas(f, given, e)
    {
      assert f.artifacts[i].ArtifactChecked? && f.artifacts[i].x5c ==> Certified(f, i, f.artifacts[i].chain);
      assert f.artifacts[i].ArtifactChecked? && !f.artifacts[i].x5c ==> Uncertified(f, i);
    }
    if IssuerHas(f, given, e) && e.reason != Some(NotPresent) {
      var i :| 0 <= i < |f.artifacts| && e in ForIssuer(given)(f.artifacts[i]);
    }
  }

  lemma IssuerProper(f: Facts, given: bool)
    ensures IssuerList(f, given) != [] && Proper(IssuerList(f, given))
  {
    EachProper(f.artifacts, ForIssuer(given));
  }

  ghost predicate AllCertified(f: Facts) {
    && (exists i :: 0 <= i < |f.artifacts| && f.artifacts[i].ArtifactChecked?)
    && forall i :: 0 <= i < |f.artifacts| && f.artifacts[i].ArtifactChecked? ==>
         f.artifacts[i].x5c && f.artifacts[i].chain == Some(true)
  }

  ghost predicate SomeBroken(f: Facts) {
    exists i :: 0 <= i < |f.artifacts| && f.artifacts[i].ArtifactChecked? && f.artifacts[i].x5c
                && f.artifacts[i].chain == Some(false) && f.artifacts[i].broken
  }

  lemma IssuerState(f: Facts, given: bool)
    ensures SubjectOf(IssuerList(f, given)).state == State.Verified <==> given && AllCertified(f)
    ensures SubjectOf(IssuerList(f, given)).state == Contradicted <==> given && SomeBroken(f)
  {
    hide SubjectOf, IssuerList;
    var es := IssuerList(f, given);
    IssuerProper(f, given);
    SubjectPrecedence(es);
    forall e ensures e in es <==> IssuerHas(f, given, e) { IssuerElements(f, given, e); }
    if forall e :: e in es ==> e.state == State.Verified { IssuerAllCertified(f, given); }
    if given && AllCertified(f) { assert forall e :: IssuerHas(f, given, e) ==> e == Element(State.Verified, Some(CaCertified)); }
    if given && SomeBroken(f) { assert IssuerHas(f, given, Element(Contradicted, Some(ChainBroken))); }
  }

  lemma IssuerAllCertified(f: Facts, given: bool)
    requires forall e :: IssuerHas(f, given, e) ==> e.state == State.Verified
    ensures given && AllCertified(f)
  {
    assert !IssuerHas(f, given, Element(NotEvaluated, Some(NotPresent)));
    assert !IssuerHas(f, given, Element(NotEvaluated, Some(SelfAsserted)));
    assert !IssuerHas(f, given, Element(NotEvaluated, Some(NoTrustAnchor)));
    assert !IssuerHas(f, given, Element(Contradicted, Some(ChainBroken)));
    assert !IssuerHas(f, given, Element(NotEvaluated, Some(ChainUnresolved)));
    assert !IssuerHas(f, given, Element(NotEvaluated, Some(InstrumentFailure)));
    forall i | 0 <= i < |f.artifacts| && f.artifacts[i].ArtifactChecked?
      ensures given && f.artifacts[i].x5c && f.artifacts[i].chain == Some(true)
    {
      assert !Uncertified(f, i);
      assert Certified(f, i, f.artifacts[i].chain);
      assert given;
      match f.artifacts[i].chain {
        case None =>
        case Some(b) => if !b { assert Certified(f, i, Some(false)); }
      }
    }
  }

  lemma IssuerIs(f: Facts, p: Policy, r: Receipt)
    requires Reports(r, f, p)
    ensures r.states.issuerIdentity == SubjectOf(IssuerList(f, p.trustAnchorGiven))
  {}

  /** issuer_identity is verified exactly when an anchor was given, some artifact was checked, and the key of every one
      that was comes from a certificate whose chain verified. */
  lemma IssuerVerified(f: Facts, p: Policy, r: Receipt)
    requires Reports(r, f, p)
    ensures r.states.issuerIdentity.state == State.Verified
       <==> && p.trustAnchorGiven && (exists i :: 0 <= i < |f.artifacts| && f.artifacts[i].ArtifactChecked?)
            && forall i :: 0 <= i < |f.artifacts| && f.artifacts[i].ArtifactChecked? ==>
                 f.artifacts[i].x5c && f.artifacts[i].chain == Some(true)
  {
    hide Reports, SubjectOf, IssuerList;
    IssuerIs(f, p, r);
    IssuerState(f, p.trustAnchorGiven);
  }

  /** It is contradicted exactly when an anchor was given and some checked artifact's chain is broken. */
  lemma IssuerContradicted(f: Facts, p: Policy, r: Receipt)
    requires Reports(r, f, p)
    ensures r.states.issuerIdentity.state == Contradicted
       <==> && p.trustAnchorGiven
            && exists i :: 0 <= i < |f.artifacts| && f.artifacts[i].ArtifactChecked? && f.artifacts[i].x5c &&
                           f.artifacts[i].chain == Some(false) && f.artifacts[i].broken
  {
    hide Reports, SubjectOf, IssuerList;
    IssuerIs(f, p, r);
    IssuerState(f, p.trustAnchorGiven);
  }

  lemma IssuerListedMeans(f: Facts, given: bool)
    ensures var listed := SubjectOf(IssuerList(f, given)).reasons;
            && (SelfAsserted in listed <==> exists i :: Uncertified(f, i))
            && (NoTrustAnchor in listed <==> !given && exists i, c :: Certified(f, i, c))
            && (ChainBroken in listed <==> given && exists i :: Certified(f, i, Some(false)) && f.artifacts[i].broken)
            && (ChainUnresolved in listed <==> given && exists i :: Certified(f, i, Some(false)) && !f.artifacts[i].broken)
            && (InstrumentFailure in listed <==> given && exists i :: Certified(f, i, None))
            && (NotPresent in listed <==> forall i :: 0 <= i < |f.artifacts| ==> f.artifacts[i].ArtifactError?)
  {
    hide SubjectOf, IssuerList, Uncertified, Certified;
    var es := IssuerList(f, given);
    IssuerProper(f, given);
    forall e ensures e in es <==> IssuerHas(f, given, e) { IssuerElements(f, given, e); }
    ListedBy(es, Element(NotEvaluated, Some(SelfAsserted)), SelfAsserted);
    ListedBy(es, Element(NotEvaluated, Some(NoTrustAnchor)), NoTrustAnchor);
    ListedBy(es, Element(Contradicted, Some(ChainBroken)), ChainBroken);
    ListedBy(es, Element(NotEvaluated, Some(ChainUnresolved)), ChainUnresolved);
    ListedBy(es, Element(NotEvaluated, Some(InstrumentFailure)), InstrumentFailure);
    ListedBy(es, Element(NotEvaluated, Some(NotPresent)), NotPresent);
  }

  lemma IssuerListsNoOther(f: Facts, given: bool, x: Reason)
    requires x in SubjectOf(IssuerList(f, given)).reasons
    ensures x in {SelfAsserted, NoTrustAnchor, ChainBroken, ChainUnresolved, InstrumentFailure, CaCertified, NotPresent}
  {
    hide SubjectOf, IssuerList, Uncertified, Certified;
    IssuerProper(f, given);
    var e := ListedHas(IssuerList(f, given), x);
    IssuerElements(f, given, e);
  }

  /** Each reason it lists, from the artifacts: no other is listed. */
  lemma IssuerReasons(f: Facts, p: Policy, r: Receipt)
    requires Reports(r, f, p)
    ensures var given, listed := p.trustAnchorGiven, r.states.issuerIdentity.reasons;
            && (SelfAsserted in listed <==> exists i :: Uncertified(f, i))
            && (NoTrustAnchor in listed <==> !given && exists i, c :: Certified(f, i, c))
            && (ChainBroken in listed <==> given && exists i :: Certified(f, i, Some(false)) && f.artifacts[i].broken)
            && (ChainUnresolved in listed <==> given && exists i :: Certified(f, i, Some(false)) && !f.artifacts[i].broken)
            && (InstrumentFailure in listed <==> given && exists i :: Certified(f, i, None))
            && (CaCertified in listed <==> given && AllCertified(f))
            && (NotPresent in listed <==> forall i :: 0 <= i < |f.artifacts| ==> f.artifacts[i].ArtifactError?)
            && forall x :: x in listed ==>
                 x in {SelfAsserted, NoTrustAnchor, ChainBroken, ChainUnresolved, InstrumentFailure, CaCertified, NotPresent}
  {
    hide Reports, SubjectOf, IssuerList, Uncertified, Certified, AllCertified;
    var given := p.trustAnchorGiven;
    IssuerIs(f, p, r);
    IssuerListedMeans(f, given);
    CaListed(f, given);
    forall x | x in r.states.issuerIdentity.reasons
      ensures x in {SelfAsserted, NoTrustAnchor, ChainBroken, ChainUnresolved, InstrumentFailure, CaCertified, NotPresent}
    {
      IssuerListsNoOther(f, given, x);
    }
  }

  lemma ListedHas(es: seq<Element>, x: Reason) returns (e: Element)
    requires es != [] && x in SubjectOf(es).reasons
    ensures e in es && e.reason == Some(x) && (SubjectOf(es).state == State.Verified || e.state != State.Verified)
  {
    ReasonIsListed(es, SubjectOf(es).state == State.Verified, x);
    e :| e in es && e.reason == Some(x) && (SubjectOf(es).state == State.Verified || e.state != State.Verified);
  }

  lemma CaListed(f: Facts, given: bool)
    ensures CaCertified in SubjectOf(IssuerList(f, given)).reasons <==> given && AllCertified(f)
  {
    hide Top, Reasons, IssuerList;
    var es, e := IssuerList(f, given), Element(State.Verified, Some(CaCertified));
    IssuerProper(f, given);
    IssuerState(f, given);
    ReasonIsListed(es, SubjectOf(es).state == State.Verified, CaCertified);
    forall x ensures x in es <==> IssuerHas(f, given, x) { IssuerElements(f, given, x); }
    if CaCertified in SubjectOf(es).reasons { var x := ListedHas(es, CaCertified); }
    if given && AllCertified(f) {
      var i :| 0 <= i < |f.artifacts| && f.artifacts[i].ArtifactChecked?;
      assert Certified(f, i, Some(true));
      assert e in es;
    }
  }

  // ------------------------------------------------------------------ the other subjects, whose reasons all say what is wrong

  /** The state of a subject whose elements with a reason are none of them verified. */
  lemma StateOfTable(es: seq<Element>)
    requires es != [] && Proper(es) && forall e :: e in es && e.reason.Some? ==> e.state != State.Verified
    ensures SubjectOf(es).state == Contradicted <==> exists e :: e in es && e.reason.Some? && e.state == Contradicted
    ensures SubjectOf(es).state == State.Verified <==> forall e :: e in es ==> e.reason.None?
  {
    hide SubjectOf;
    SubjectPrecedence(es);
  }

  // ------------------------------------------------------------------ sealed_content

  /** An artifact that is an error, or whose signature or claims did not verify. */
  ghost predicate Spoiled(f: Facts, i: int) {
    0 <= i < |f.artifacts| && (f.artifacts[i].ArtifactChecked? ==> !f.artifacts[i].signatureOk || !f.artifacts[i].claimsMatch)
  }

  ghost predicate SealedHas(f: Facts, e: Element) {
    || (e == Element(Contradicted, Some(DigestMismatch)) && !f.digestOk)
    || (e == Element(Contradicted, Some(ArtifactInvalid)) && (f.artifacts == [] || exists i :: Spoiled(f, i)))
    || (e == Element(Contradicted, Some(BindingMismatch)) && f.artifacts != [] && (forall i :: !Spoiled(f, i)) && !f.bindingsMatch)
  }

  lemma SealedTable(f: Facts, e: Element)
    requires e.reason.Some?
    ensures e in SealedElements(f) <==> SealedHas(f, e)
  {
    EachMembers(f.artifacts, ForArtifact(), e);
    forall i | 0 <= i < |f.artifacts|
      ensures ArtifactElement(f.artifacts[i]) == (if Spoiled(f, i) then Element(Contradicted, Some(ArtifactInvalid)) else Fine)
      ensures e in ForArtifact()(f.artifacts[i]) <==> e == ArtifactElement(f.artifacts[i])
    {}
    if i :| Spoiled(f, i) { assert ArtifactElement(f.artifacts[i]) != Fine; }
    assert BindingSetMatch(f) == if f.artifacts != [] && forall i :: !Spoiled(f, i) then Some(f.bindingsMatch) else None;
    if e == Element(Contradicted, Some(ArtifactInvalid)) && exists i :: Spoiled(f, i) {
      var i :| Spoiled(f, i);
      assert e in ForArtifact()(f.artifacts[i]);
    }
  }

  lemma SealedListedMeans(f: Facts)
    ensures var listed := SubjectOf(SealedElements(f)).reasons;
            && (DigestMismatch in listed <==> !f.digestOk)
            && (ArtifactInvalid in listed <==> f.artifacts == [] || exists i :: Spoiled(f, i))
            && (BindingMismatch in listed <==> f.artifacts != [] && (forall i :: !Spoiled(f, i)) && !f.bindingsMatch)
  {
    hide SubjectOf, SealedElements, Spoiled;
    var es := SealedElements(f);
    forall e: Element | e.reason.Some? ensures e in es <==> SealedHas(f, e) { SealedTable(f, e); }
    ListedBy(es, Element(Contradicted, Some(DigestMismatch)), DigestMismatch);
    ListedBy(es, Element(Contradicted, Some(ArtifactInvalid)), ArtifactInvalid);
    ListedBy(es, Element(Contradicted, Some(BindingMismatch)), BindingMismatch);
  }

  lemma SealedStates(f: Facts, e: Element)
    requires SealedHas(f, e)
    ensures e.state == Contradicted && e.reason in {Some(DigestMismatch), Some(ArtifactInvalid), Some(BindingMismatch)}
  {}

  lemma SealedIs(f: Facts, p: Policy, r: Receipt)
    requires Reports(r, f, p)
    ensures r.states.sealedContent == SubjectOf(SealedElements(f)) && Proper(SealedElements(f))
  {
    hide SubjectOf, SealedElements, AllGood;
    SealedContradicted(f);
  }

  /** sealed_content and its reasons: the digest, the artifacts, and the bindings when every artifact is sound. */
  lemma SealedReasons(f: Facts, p: Policy, r: Receipt)
    requires Reports(r, f, p)
    ensures var s := r.states.sealedContent;
            && (DigestMismatch in s.reasons <==> !f.digestOk)
            && (ArtifactInvalid in s.reasons <==> f.artifacts == [] || exists i :: Spoiled(f, i))
            && (BindingMismatch in s.reasons <==> f.artifacts != [] && (forall i :: !Spoiled(f, i)) && !f.bindingsMatch)
            && (forall x :: x in s.reasons ==> x in {DigestMismatch, ArtifactInvalid, BindingMismatch})
            && s.state == if s.reasons == [] then State.Verified else Contradicted
  {
    hide Reports, SubjectOf, SealedElements, SealedHas, Spoiled;
    var es := SealedElements(f);
    SealedIs(f, p, r);
    SealedListedMeans(f);
    forall e: Element | e.reason.Some? && e in es
      ensures e.state == Contradicted && e.reason in {Some(DigestMismatch), Some(ArtifactInvalid), Some(BindingMismatch)}
    {
      SealedTable(f, e);
      SealedStates(f, e);
    }
    StateOfTable(es);
    NoReasonLeft(es);
    forall x | x in SubjectOf(es).reasons ensures x in {DigestMismatch, ArtifactInvalid, BindingMismatch} { var e := ListedHas(es, x); }
  }

  // ------------------------------------------------------------------ holder_binding

  ghost predicate KbAs(f: Facts, i: int, kb: HolderCheck) {
    0 <= i < |f.artifacts| && f.artifacts[i].ArtifactChecked? && f.artifacts[i].kb == kb
  }

  function HolderList(f: Facts): seq<Element> { OrAbsent(Each(f.artifacts, ForHolder())) }

  ghost predicate HolderHas(f: Facts, e: Element) {
    || (e == Element(Contradicted, Some(KbSignatureInvalid)) && exists i, h :: KbAs(f, i, HolderChecked(false, h)))
    || (e == Element(Contradicted, Some(SdHashMismatch)) && exists i :: KbAs(f, i, HolderChecked(true, false)))
    || (e == Element(NotEvaluated, Some(HolderKeyUnknown)) && exists i :: KbAs(f, i, HolderUnknown))
    || (e == Element(NotEvaluated, Some(NotPresent)) && forall i, kb :: KbAs(f, i, kb) ==> kb == NoKbJwt)
  }

  lemma HolderTable(f: Facts, e: Element)
    requires e.reason.Some?
    ensures e in HolderList(f) <==> HolderHas(f, e)
  {
    var es := Each(f.artifacts, ForHolder());
    EachMembers(f.artifacts, ForHolder(), e);
    EmptyEach(f.artifacts, ForHolder());
    forall i | 0 <= i < |f.artifacts|
      ensures e in ForHolder()(f.artifacts[i]) ==> HolderHas(f, e)
      ensures ForHolder()(f.artifacts[i]) == [] <==> forall kb :: KbAs(f, i, kb) ==> kb == NoKbJwt
    {
      if f.artifacts[i].ArtifactChecked? {
        var kb := f.artifacts[i].kb;
        assert KbAs(f, i, kb);
        if kb.HolderChecked? { assert kb == HolderChecked(kb.signatureOk, kb.sdHashOk); }
      }
    }
    if HolderHas(f, e) && e.reason != Some(NotPresent) {
      var i :| 0 <= i < |f.artifacts| && e in ForHolder()(f.artifacts[i]);
    }
  }

  lemma HolderListedMeans(f: Facts)
    requires HolderList(f) != []
    ensures var listed := SubjectOf(HolderList(f)).reasons;
            && (KbSignatureInvalid in listed <==> exists i, h :: KbAs(f, i, HolderChecked(false, h)))
            && (SdHashMismatch in listed <==> exists i :: KbAs(f, i, HolderChecked(true, false)))
            && (HolderKeyUnknown in listed <==> exists i :: KbAs(f, i, HolderUnknown))
            && (NotPresent in listed <==> forall i, kb :: KbAs(f, i, kb) ==> kb == NoKbJwt)
  {
    hide SubjectOf, HolderList, KbAs;
    var es := HolderList(f);
    forall e: Element | e.reason.Some? ensures e in es <==> HolderHas(f, e) { HolderTable(f, e); }
    ListedBy(es, Element(Contradicted, Some(KbSignatureInvalid)), KbSignatureInvalid);
    ListedBy(es, Element(Contradicted, Some(SdHashMismatch)), SdHashMismatch);
    ListedBy(es, Element(NotEvaluated, Some(HolderKeyUnknown)), HolderKeyUnknown);
    ListedBy(es, Element(NotEvaluated, Some(NotPresent)), NotPresent);
  }

  lemma HolderStates(f: Facts, e: Element)
    requires HolderHas(f, e)
    ensures e == Element(if e.reason in {Some(KbSignatureInvalid), Some(SdHashMismatch)} then Contradicted else NotEvaluated, e.reason)
    ensures e.reason in {Some(KbSignatureInvalid), Some(SdHashMismatch), Some(HolderKeyUnknown), Some(NotPresent)}
  {}

  /** holder_binding and its reasons: each KB-JWT of a checked artifact. */
  lemma HolderReasons(f: Facts, p: Policy, r: Receipt)
    requires Reports(r, f, p)
    ensures var s := r.states.holderBinding;
            && (KbSignatureInvalid in s.reasons <==> exists i, h :: KbAs(f, i, HolderChecked(false, h)))
            && (SdHashMismatch in s.reasons <==> exists i :: KbAs(f, i, HolderChecked(true, false)))
            && (HolderKeyUnknown in s.reasons <==> exists i :: KbAs(f, i, HolderUnknown))
            && (NotPresent in s.reasons <==> forall i, kb :: KbAs(f, i, kb) ==> kb == NoKbJwt)
            && (forall x :: x in s.reasons ==> x in {KbSignatureInvalid, SdHashMismatch, HolderKeyUnknown, NotPresent})
            && s.state == if KbSignatureInvalid in s.reasons || SdHashMismatch in s.reasons then Contradicted
                          else if s.reasons == [] then State.Verified else NotEvaluated
  {
    hide Reports, SubjectOf, HolderList, HolderHas, KbAs;
    var es := HolderList(f);
    HolderIs(f, p, r);
    HolderListedMeans(f);
    forall e: Element | e.reason.Some? && e in es
      ensures e == Element(if e.reason in {Some(KbSignatureInvalid), Some(SdHashMismatch)} then Contradicted else NotEvaluated, e.reason)
      ensures e.reason in {Some(KbSignatureInvalid), Some(SdHashMismatch), Some(HolderKeyUnknown), Some(NotPresent)}
    {
      HolderTable(f, e);
      HolderStates(f, e);
    }
    StateOfTable(es);
    if KbSignatureInvalid in SubjectOf(es).reasons {
      var e := ListedHas(es, KbSignatureInvalid);
      assert e.state == Contradicted;
    }
    if SdHashMismatch in SubjectOf(es).reasons {
      var e := ListedHas(es, SdHashMismatch);
      assert e.state == Contradicted;
    }
    if e :| e in es && e.reason.Some? && e.state == Contradicted { WrongIsListed(es, e); }
    forall x | x in SubjectOf(es).reasons ensures x in {KbSignatureInvalid, SdHashMismatch, HolderKeyUnknown, NotPresent} {
      var e := ListedHas(es, x);
    }
    NoReasonLeft(es);
  }

  lemma HolderIs(f: Facts, p: Policy, r: Receipt)
    requires Reports(r, f, p)
    ensures HolderList(f) != [] && Proper(HolderList(f)) && r.states.holderBinding == SubjectOf(HolderList(f))
  {
    HolderProper(f.artifacts);
  }

  // ------------------------------------------------------------------ time_anchor

  ghost predicate Claimed(f: Facts, t: Token) { f.block == Stamped(t) || t in f.anchors }

  /** A token the authority granted over this digest. */
  ghost predicate Bound(t: Token) { t.granted == Some(true) && t.imprintOk == Some(true) }

  function TimeList(f: Facts, asked: bool): seq<Element> { OrAbsent(TimeElements(f, asked)) }

  ghost predicate TimeHas(f: Facts, asked: bool, e: Element) {
    || (e == Element(Contradicted, Some(TokenMissing)) && f.block == TokenAbsent)
    || (e == Element(Contradicted, Some(BindingMismatch)) && exists t :: Claimed(f, t) && t.imprintOk == Some(false))
    || (e == Element(Contradicted, Some(TokenInvalid)) && exists t :: Claimed(f, t) && !Bound(t) && t.imprintOk != Some(false))
    || (e == Element(NotEvaluated, Some(TsaNotChecked)) && !asked && exists t :: Claimed(f, t) && Bound(t))
    || (e == Element(NotEvaluated, Some(TsaInvalid)) && asked && exists t :: Claimed(f, t) && Bound(t) && t.tsaVerified == Some(false))
    || (e == Element(NotEvaluated, Some(InstrumentFailure)) && asked && exists t :: Claimed(f, t) && Bound(t) && t.tsaVerified == None)
    || (e == Element(NotEvaluated, Some(NotPresent)) && f.block == NotAnchored && f.anchors == [])
  }

  lemma TimeElementsOf(f: Facts, asked: bool, e: Element)
    ensures e in TimeElements(f, asked) <==>
            || (e == Element(Contradicted, Some(TokenMissing)) && f.block == TokenAbsent)
            || exists t :: Claimed(f, t) && e == AnchorElement(t, asked)
    ensures TimeElements(f, asked) == [] <==> f.block == NotAnchored && f.anchors == []
  {
    hide AnchorElement;
    EachMembers(f.anchors, ForToken(asked), e);
    EmptyEach(f.anchors, ForToken(asked));
    if f.anchors != [] { assert ForToken(asked)(f.anchors[0]) != []; }
    if i :| 0 <= i < |f.anchors| && e in ForToken(asked)(f.anchors[i]) { assert Claimed(f, f.anchors[i]); }
    if t :| Claimed(f, t) && e == AnchorElement(t, asked) {
      if t in f.anchors {
        var i :| 0 <= i < |f.anchors| && f.anchors[i] == t;
        assert e in ForToken(asked)(f.anchors[i]);
      }
    }
    if f.block.Stamped? { assert Claimed(f, f.block.token); }
  }

  /** What one token comes to. */
  lemma TokenIs(t: Token, asked: bool)
    ensures AnchorElement(t, asked) ==
            if !Bound(t) then Element(Contradicted, Some(if t.imprintOk == Some(false) then BindingMismatch else TokenInvalid))
            else if !asked then Element(NotEvaluated, Some(TsaNotChecked))
            else if t.tsaVerified == None then Element(NotEvaluated, Some(InstrumentFailure))
            else if t.tsaVerified == Some(false) then Element(NotEvaluated, Some(TsaInvalid)) else Fine
  {}

  lemma TimeTable(f: Facts, asked: bool, e: Element)
    requires e.reason.Some?
    ensures e in TimeList(f, asked) <==> TimeHas(f, asked, e)
  {
    hide AnchorElement, TimeElements;
    TimeElementsOf(f, asked, e);
    TimeElementsOf(f, asked, Open(NotPresent));
    if t :| Claimed(f, t) && e == AnchorElement(t, asked) {
      TokenIs(t, asked);
      assert TimeHas(f, asked, e);
    }
    if TimeHas(f, asked, e) && e.reason !in {Some(NotPresent), Some(TokenMissing)} {
      var t := TokenOf(f, asked, e);
      assert e in TimeElements(f, asked);
    }
    if t :| Claimed(f, t) && Open(NotPresent) == AnchorElement(t, asked) { TokenIs(t, asked); }
  }

  lemma TokenOf(f: Facts, asked: bool, e: Element) returns (t: Token)
    requires TimeHas(f, asked, e) && e.reason !in {Some(NotPresent), Some(TokenMissing)}
    ensures Claimed(f, t) && e == AnchorElement(t, asked)
  {
    hide AnchorElement;
    if e.reason == Some(BindingMismatch) { t :| Claimed(f, t) && t.imprintOk == Some(false); }
    else if e.reason == Some(TokenInvalid) { t :| Claimed(f, t) && !Bound(t) && t.imprintOk != Some(false); }
    else if e.reason == Some(TsaNotChecked) { t :| Claimed(f, t) && Bound(t); }
    else if e.reason == Some(TsaInvalid) { t :| Claimed(f, t) && Bound(t) && t.tsaVerified == Some(false); }
    else { t :| Claimed(f, t) && Bound(t) && t.tsaVerified == None; }
    TokenIs(t, asked);
  }

  lemma TimeIs(f: Facts, p: Policy, r: Receipt)
    requires Reports(r, f, p)
    ensures TimeList(f, p.tsaRequested) != [] && Proper(TimeList(f, p.tsaRequested))
    ensures r.states.timeAnchor == SubjectOf(TimeList(f, p.tsaRequested))
  {
    TimeContradicted(f, p.tsaRequested);
  }

  predicate TimeRefutes(x: Reason) { x in {TokenMissing, BindingMismatch, TokenInvalid} }

  /** The reason `x` has an element. */
  ghost predicate TimeIsListed(f: Facts, asked: bool, x: Reason) {
    TimeHas(f, asked, Element(if TimeRefutes(x) then Contradicted else NotEvaluated, Some(x)))
  }

  lemma TimeSubject(f: Facts, p: Policy, r: Receipt)
    requires Reports(r, f, p)
    ensures forall x :: x in r.states.timeAnchor.reasons <==> TimeIsListed(f, p.tsaRequested, x)
    ensures r.states.timeAnchor.state ==
            if exists x :: TimeIsListed(f, p.tsaRequested, x) && TimeRefutes(x) then Contradicted
            else if r.states.timeAnchor.reasons == [] then State.Verified else NotEvaluated
  {
    hide SubjectOf, TimeList, TimeHas, Reports;
    var asked := p.tsaRequested;
    var es := TimeList(f, asked);
    TimeIs(f, p, r);
    forall e: Element | e.reason.Some?
      ensures e in es <==> TimeHas(f, asked, e)
      ensures e in es ==> e.state == if TimeRefutes(e.reason.value) then Contradicted else NotEvaluated
    {
      TimeTable(f, asked, e);
      TimeStates(f, asked, e);
    }
    StateOfTable(es);
    forall x ensures x in SubjectOf(es).reasons <==> TimeIsListed(f, asked, x) {
      ListedBy(es, Element(if TimeRefutes(x) then Contradicted else NotEvaluated, Some(x)), x);
    }
    NoReasonLeft(es);
    if e :| e in es && e.reason.Some? && e.state == Contradicted { assert TimeIsListed(f, asked, e.reason.value); }
  }

  lemma TimeStates(f: Facts, asked: bool, e: Element)
    requires e.reason.Some?
    ensures TimeHas(f, asked, e) ==> e.state == if TimeRefutes(e.reason.value) then Contradicted else NotEvaluated
  {}

  /** No reason is listed exactly when no element that is not verified has one. */
  lemma NoReasonLeft(es: seq<Element>)
    requires es != [] && forall e :: e in es && e.reason.Some? ==> e.state != State.Verified
    ensures SubjectOf(es).reasons == [] <==> forall e :: e in es ==> e.reason.None?
  {
    hide Top;
    var reasons := SubjectOf(es).reasons;
    if reasons != [] { var e := ListedHas(es, reasons[0]); }
    if e :| e in es && e.reason.Some? { ReasonIsListed(es, SubjectOf(es).state == State.Verified, e.reason.value); }
  }

  lemma TimeListedMeans(f: Facts, asked: bool)
    ensures TimeIsListed(f, asked, TokenMissing) <==> f.block == TokenAbsent
    ensures TimeIsListed(f, asked, BindingMismatch) <==> exists t :: Claimed(f, t) && t.imprintOk == Some(false)
    ensures TimeIsListed(f, asked, TokenInvalid) <==> exists t :: Claimed(f, t) && !Bound(t) && t.imprintOk != Some(false)
    ensures TimeIsListed(f, asked, TsaNotChecked) <==> !asked && exists t :: Claimed(f, t) && Bound(t)
    ensures TimeIsListed(f, asked, TsaInvalid) <==> asked && exists t :: Claimed(f, t) && Bound(t) && t.tsaVerified == Some(false)
    ensures TimeIsListed(f, asked, InstrumentFailure) <==> asked && exists t :: Claimed(f, t) && Bound(t) && t.tsaVerified == None
    ensures TimeIsListed(f, asked, NotPresent) <==> f.block == NotAnchored && f.anchors == []
    ensures forall x :: TimeIsListed(f, asked, x) ==>
              x in {TokenMissing, BindingMismatch, TokenInvalid, TsaNotChecked, TsaInvalid, InstrumentFailure, NotPresent}
  {
    hide Claimed, Bound;
  }

  /** time_anchor and its reasons: each token claimed, in the block or among the anchors. */
  lemma TimeReasons(f: Facts, p: Policy, r: Receipt)
    requires Reports(r, f, p)
    ensures var s, asked := r.states.timeAnchor, p.tsaRequested;
            && (TokenMissing in s.reasons <==> f.block == TokenAbsent)
            && (BindingMismatch in s.reasons <==> exists t :: Claimed(f, t) && t.imprintOk == Some(false))
            && (TokenInvalid in s.reasons <==> exists t :: Claimed(f, t) && !Bound(t) && t.imprintOk != Some(false))
            && (TsaNotChecked in s.reasons <==> !asked && exists t :: Claimed(f, t) && Bound(t))
            && (TsaInvalid in s.reasons <==> asked && exists t :: Claimed(f, t) && Bound(t) && t.tsaVerified == Some(false))
            && (InstrumentFailure in s.reasons <==> asked && exists t :: Claimed(f, t) && Bound(t) && t.tsaVerified == None)
            && (NotPresent in s.reasons <==> f.block == NotAnchored && f.anchors == [])
            && (forall x :: x in s.reasons ==>
                  x in {TokenMissing, BindingMismatch, TokenInvalid, TsaNotChecked, TsaInvalid, InstrumentFailure, NotPresent})
            && s.state == if TokenMissing in s.reasons || BindingMismatch in s.reasons || TokenInvalid in s.reasons then Contradicted
                          else if s.reasons == [] then State.Verified else NotEvaluated
  {
    hide SubjectOf, TimeIsListed, Bound, Claimed;
    var es := TimeList(f, p.tsaRequested);
    TimeSubject(f, p, r);
    assert forall x :: x in r.states.timeAnchor.reasons <==> TimeIsListed(f, p.tsaRequested, x);
    TimeListedMeans(f, p.tsaRequested);
  }

  // ------------------------------------------------------------------ producer_signature

  ghost predicate RowAs(r: Receipt, i: int, s: Status) {
    r.producer.Some? && 0 <= i < |r.producer.value.rows| && r.producer.value.rows[i].status == s
  }

  ghost predicate ProducerHas(r: Receipt, pinned: bool, e: Element) {
    || (e == Element(Contradicted, Some(SignatureInvalid)) && r.producer.Some? &&
        (r.producer.value.rows == [] || !r.producer.value.schemeOk || exists i :: RowAs(r, i, FAIL)))
    || (e == Element(NotEvaluated, Some(BackendMissing)) && exists i :: RowAs(r, i, SKIP))
    || (e == Element(NotEvaluated, Some(SelfAsserted)) && !pinned && exists i :: RowAs(r, i, PASS))
    || (e == Element(NotEvaluated, Some(KeyUnresolved)) && pinned &&
        exists i :: RowAs(r, i, PASS) && r.producer.value.rows[i].keyTrusted != Some(true))
    || (e == Element(NotEvaluated, Some(NotPresent)) && r.producer.None?)
  }

  lemma ProducerTable(r: Receipt, pinned: bool, e: Element)
    requires e.reason.Some?
    ensures e in ProducerElements(r.producer, pinned) <==> ProducerHas(r, pinned, e)
  {
    if r.producer.Some? {
      var rows := r.producer.value.rows;
      EachMembers(rows, ForRow(pinned), e);
      forall i | 0 <= i < |rows|
        ensures RowAs(r, i, rows[i].status)
        ensures e in ForRow(pinned)(rows[i]) <==> e == RowElement(rows[i], pinned)
      {}
      if ProducerHas(r, pinned, e) && rows != [] && r.producer.value.schemeOk {
        var i := RowOfElement(r, pinned, e);
      }
    }
  }

  lemma RowOfElement(r: Receipt, pinned: bool, e: Element) returns (i: int)
    requires ProducerHas(r, pinned, e) && r.producer.Some? && r.producer.value.rows != [] && r.producer.value.schemeOk
    ensures 0 <= i < |r.producer.value.rows| && e == RowElement(r.producer.value.rows[i], pinned)
  {
    if e.reason == Some(SignatureInvalid) { i :| RowAs(r, i, FAIL); }
    else if e.reason == Some(BackendMissing) { i :| RowAs(r, i, SKIP); }
    else if e.reason == Some(SelfAsserted) { i :| RowAs(r, i, PASS); }
    else { i :| RowAs(r, i, PASS) && r.producer.value.rows[i].keyTrusted != Some(true); }
  }

  ghost predicate ProducerIsListed(r: Receipt, pinned: bool, x: Reason) {
    ProducerHas(r, pinned, Element(if x == SignatureInvalid then Contradicted else NotEvaluated, Some(x)))
  }

  lemma ProducerSubject(f: Facts, p: Policy, r: Receipt)
    requires Reports(r, f, p)
    ensures forall x :: x in r.states.producerSignature.reasons <==> ProducerIsListed(r, p.trusted.Some?, x)
    ensures r.states.producerSignature.state ==
            if ProducerIsListed(r, p.trusted.Some?, SignatureInvalid) then Contradicted
            else if r.states.producerSignature.reasons == [] then State.Verified else NotEvaluated
  {
    hide SubjectOf, ProducerElements, ProducerHas;
    var pinned := p.trusted.Some?;
    var es := ProducerElements(r.producer, pinned);
    assert r.states.producerSignature == SubjectOf(es);
    SubjectOccursOf(r.producer, pinned);
    forall e: Element | e.reason.Some?
      ensures e in es <==> ProducerHas(r, pinned, e)
      ensures e in es ==> e.state == if e.reason == Some(SignatureInvalid) then Contradicted else NotEvaluated
    {
      ProducerTable(r, pinned, e);
      ProducerStates(r, pinned, e);
    }
    StateOfTable(es);
    forall x ensures x in SubjectOf(es).reasons <==> ProducerIsListed(r, pinned, x) {
      ListedBy(es, Element(if x == SignatureInvalid then Contradicted else NotEvaluated, Some(x)), x);
    }
    NoReasonLeft(es);
    if e :| e in es && e.reason.Some? && e.state == Contradicted { assert ProducerIsListed(r, pinned, e.reason.value); }
  }

  lemma ProducerStates(r: Receipt, pinned: bool, e: Element)
    requires e.reason.Some?
    ensures ProducerHas(r, pinned, e) ==> e.state == if e.reason == Some(SignatureInvalid) then Contradicted else NotEvaluated
  {}

  lemma ProducerListedMeans(r: Receipt, pinned: bool)
    ensures ProducerIsListed(r, pinned, SignatureInvalid) <==>
            r.producer.Some? && (r.producer.value.rows == [] || !r.producer.value.schemeOk || exists i :: RowAs(r, i, FAIL))
    ensures ProducerIsListed(r, pinned, BackendMissing) <==> exists i :: RowAs(r, i, SKIP)
    ensures ProducerIsListed(r, pinned, SelfAsserted) <==> !pinned && exists i :: RowAs(r, i, PASS)
    ensures ProducerIsListed(r, pinned, KeyUnresolved) <==>
            pinned && exists i :: RowAs(r, i, PASS) && r.producer.value.rows[i].keyTrusted != Some(true)
    ensures ProducerIsListed(r, pinned, NotPresent) <==> r.producer.None?
    ensures forall x :: ProducerIsListed(r, pinned, x) ==>
              x in {SignatureInvalid, BackendMissing, SelfAsserted, KeyUnresolved, NotPresent}
  {}

  /** producer_signature and its reasons: each entry of the block. */
  lemma ProducerReasons(f: Facts, p: Policy, r: Receipt)
    requires Reports(r, f, p)
    ensures var s, pinned := r.states.producerSignature, p.trusted.Some?;
            && (SignatureInvalid in s.reasons <==>
                r.producer.Some? && (r.producer.value.rows == [] || !r.producer.value.schemeOk || exists i :: RowAs(r, i, FAIL)))
            && (BackendMissing in s.reasons <==> exists i :: RowAs(r, i, SKIP))
            && (SelfAsserted in s.reasons <==> !pinned && exists i :: RowAs(r, i, PASS))
            && (KeyUnresolved in s.reasons <==>
                pinned && exists i :: RowAs(r, i, PASS) && r.producer.value.rows[i].keyTrusted != Some(true))
            && (NotPresent in s.reasons <==> r.producer.None?)
            && (forall x :: x in s.reasons ==> x in {SignatureInvalid, BackendMissing, SelfAsserted, KeyUnresolved, NotPresent})
            && s.state == if SignatureInvalid in s.reasons then Contradicted
                          else if s.reasons == [] then State.Verified else NotEvaluated
  {
    hide SubjectOf, RowAs, ProducerIsListed;
    ProducerSubject(f, p, r);
    ProducerListedMeans(r, p.trusted.Some?);
  }

  // ------------------------------------------------------------------ the policy and `valid`

  /** The distinct TSTInfos of the tokens that bind and, when the authority was asked for, verified against it. */
  ghost function Anchored(f: Facts, p: Policy): set<Bytes> {
    (if f.block.Stamped? && Bound(f.block.token) && (p.tsaRequested ==> f.block.token.tsaVerified == Some(true))
     then {f.block.token.identity} else {})
    + set t | t in f.anchors && Bound(t) && (p.tsaRequested ==> t.tsaVerified == Some(true)) :: t.identity
  }

  ghost predicate BlockPasses(f: Facts) {
    f.producer.Some? &&
    var es := ListAt(f.producer.value, "signatures");
    && es != [] && (forall i :: 0 <= i < |es| ==> Checked(es[i], f.verify, Some(true)))
    && SchemeNamed(Field(f.producer.value, "scheme"), es)
  }

  ghost predicate SchemeNamed(scheme: Option<Json>, es: seq<Json>) {
    || (scheme == Some(Str("hybrid")) && (exists i :: 0 <= i < |es| && Names(es[i], "ml-dsa-65")) &&
        exists i :: 0 <= i < |es| && (Names(es[i], "ed25519") || Names(es[i], "ecdsa-p256")))
    || (scheme == Some(Str("classical-only")) && forall i :: 0 <= i < |es| ==> !Names(es[i], "ml-dsa-65"))
  }

  /** Every entry of the block is under a pinned key. */
  ghost predicate AllPinned(f: Facts, p: Policy) {
    f.producer.Some? && p.trusted.Some? &&
    var es := ListAt(f.producer.value, "signatures");
    forall i :: 0 <= i < |es| ==> PinnedKey(es[i], p.trusted.value)
  }

  ghost predicate SomePostQuantum(f: Facts) {
    f.producer.Some? &&
    var es := ListAt(f.producer.value, "signatures");
    exists i :: 0 <= i < |es| && Names(es[i], "ml-dsa-65")
  }

  ghost predicate SomePassesUnpinned(f: Facts, p: Policy) {
    f.producer.Some? && p.trusted.Some? &&
    var es := ListAt(f.producer.value, "signatures");
    exists i :: 0 <= i < |es| && Checked(es[i], f.verify, Some(true)) && !PinnedKey(es[i], p.trusted.value)
  }

  lemma IdentitiesAre(f: Facts, p: Policy)
    ensures Identities(ClaimedTokens(f), p) == Anchored(f, p)
  {
    var ts := ClaimedTokens(f);
    forall x ensures x in Identities(ts, p) <==> x in Anchored(f, p) {
      if x in Identities(ts, p) {
        var t :| t in ts && Counts(t, p) && t.identity == x;
        assert t in f.anchors || f.block == Stamped(t);
      }
      if t :| t in f.anchors && Bound(t) && (p.tsaRequested ==> t.tsaVerified == Some(true)) && t.identity == x {
        assert t in ts && Counts(t, p);
      }
      if f.block.Stamped? { assert f.block.token in ts; }
    }
  }

  lemma BlockIs(f: Facts, p: Policy, r: Receipt)
    requires ProducerOf(f, p, r.producer)
    ensures r.producer.Some? <==> f.producer.Some?
    ensures f.producer.None? ==> !BlockPasses(f) && !SomePassesUnpinned(f, p)
    ensures r.producer.Some? ==>
              && (r.producer.value.ok <==> BlockPasses(f))
              && (r.producer.value.trusted == Some(true) <==> BlockPasses(f) && AllPinned(f, p))
              && (r.producer.value.pqProtected && r.producer.value.trusted == Some(true)
                  <==> BlockPasses(f) && AllPinned(f, p) && SomePostQuantum(f))
    ensures p.trusted.Some? && SomeUnresolvedRow(r) <==> SomePassesUnpinned(f, p)
  {
    hide Names, Checked, PinnedKey, RowOf, Describes, Rows;
    if r.producer.Some? {
      var block, v := f.producer.value, r.producer.value;
      BlockMeans(block, f.verify, p.trusted, v);
      UnpinnedRows(block, f.verify, p.trusted, v);
    }
  }

  ghost predicate SomeUnresolvedRow(r: Receipt) {
    r.producer.Some? && exists i :: 0 <= i < |r.producer.value.rows| && r.producer.value.rows[i].status == PASS &&
                                    r.producer.value.rows[i].keyTrusted != Some(true)
  }

  lemma UnpinnedRows(block: Json, verify: Verifier, trusted: Option<TrustSet>, v: BlockVerdict)
    requires Describes(v, Scheme(block), Rows(Entries(block), verify, trusted), trusted.Some?)
    ensures var es := ListAt(block, "signatures");
            |v.rows| == |es| && forall i :: 0 <= i < |es| ==>
              && (v.rows[i].status == PASS <==> Checked(es[i], verify, Some(true)))
              && (v.rows[i].keyTrusted == Some(true) <==> trusted.Some? && PinnedKey(es[i], trusted.value))
  {
    hide Names, Checked, PinnedKey, RowOf;
    var es := ListAt(block, "signatures");
    assert Entries(block) == es;
    forall i | 0 <= i < |es| ensures Tells(v.rows[i], es[i], verify, trusted) { RowMeans(es[i], verify, trusted); }
  }

  /** Each requirement of the relying party that is named unmet, from the facts. */
  lemma PolicyExactly(f: Facts, p: Policy, r: Receipt)
    requires Reports(r, f, p)
    ensures r.anchorsVerified == |Anchored(f, p)|
    ensures UnmetProducer in r.unmet <==> p.requireProducer && !BlockPasses(f)
    ensures UnmetPq in r.unmet <==> p.requirePq && !(BlockPasses(f) && AllPinned(f, p) && SomePostQuantum(f))
    ensures UnmetAnchor in r.unmet <==> p.requireAnchor && Anchored(f, p) == {}
    ensures UnmetMinAnchors in r.unmet <==> p.minAnchors.Some? && |Anchored(f, p)| < p.minAnchors.value
    ensures UnmetTrustedKeys in r.unmet <==> p.trusted.Some? && f.producer.Some? && !(BlockPasses(f) && AllPinned(f, p))
    ensures UnmetTrustSetComplete in r.unmet <==> p.trustSetComplete && SomePassesUnpinned(f, p)
    ensures r.policyOk <==> forall u :: u in r.unmet ==> u == UnmetTrustedKeys || u == UnmetTrustSetComplete
  {
    hide Reports, BlockPasses, AllPinned, SomePostQuantum, SomePassesUnpinned, Anchored, UnmetPolicy, UnmetTrust;
    PolicyIs(f, p, r);
    assert Anchored(f, p) == {} <==> |Anchored(f, p)| < 1;
    UnmetIs(p, r);
    var n, b := r.anchorsVerified, r.producer;
    assert Lacks(p, b, n, r.states, UnmetTrustSetComplete) <==> p.trustSetComplete && SomePassesUnpinned(f, p);
  }

  /** What the requirements are about. */
  lemma PolicyIs(f: Facts, p: Policy, r: Receipt)
    requires Reports(r, f, p)
    ensures r.anchorsVerified == |Anchored(f, p)|
    ensures r.unmet == UnmetPolicy(p, r.producer, r.anchorsVerified) + UnmetTrust(p, r.producer, r.states)
    ensures r.policyOk <==> UnmetPolicy(p, r.producer, r.anchorsVerified) == []
    ensures r.producer.Some? <==> f.producer.Some?
    ensures f.producer.None? ==> !BlockPasses(f)
    ensures r.producer.Some? ==>
              && (r.producer.value.ok <==> BlockPasses(f))
              && (r.producer.value.trusted == Some(true) <==> BlockPasses(f) && AllPinned(f, p))
              && (r.producer.value.pqProtected && r.producer.value.trusted == Some(true)
                  <==> BlockPasses(f) && AllPinned(f, p) && SomePostQuantum(f))
    ensures KeyUnresolved in r.states.producerSignature.reasons <==> SomePassesUnpinned(f, p)
  {
    hide BlockPasses, AllPinned, SomePostQuantum, SomePassesUnpinned, Anchored, Identities, StatesOf, ProducerOf, AllGood, UnmetPolicy,
         UnmetTrust;
    IdentitiesAre(f, p);
    BlockIs(f, p, r);
    ProducerReasons(f, p, r);
    assert SomeUnresolvedRow(r) <==> exists i :: RowAs(r, i, PASS) && r.producer.value.rows[i].keyTrusted != Some(true);
  }

  /** What each name in the list stands for, from the verdict on the block and the number of anchors. */
  ghost predicate Lacks(p: Policy, b: Option<BlockVerdict>, n: nat, s: States, u: Unmet) {
    match u
    case UnmetProducer => p.requireProducer && !(b.Some? && b.value.ok)
    case UnmetPq => p.requirePq && !(b.Some? && b.value.pqProtected && b.value.trusted == Some(true))
    case UnmetAnchor => p.requireAnchor && n < 1
    case UnmetMinAnchors => p.minAnchors.Some? && n < p.minAnchors.value
    case UnmetTrustedKeys => p.trusted.Some? && b.Some? && b.value.trusted != Some(true)
    case UnmetTrustSetComplete => p.trustSetComplete && KeyUnresolved in s.producerSignature.reasons
  }

  predicate AboutTrust(u: Unmet) { u == UnmetTrustedKeys || u == UnmetTrustSetComplete }

  lemma UnmetIs(p: Policy, r: Receipt)
    requires r.unmet == UnmetPolicy(p, r.producer, r.anchorsVerified) + UnmetTrust(p, r.producer, r.states)
    ensures forall u :: u in r.unmet <==> Lacks(p, r.producer, r.anchorsVerified, r.states, u)
    ensures UnmetPolicy(p, r.producer, r.anchorsVerified) == [] <==> forall u :: u in r.unmet ==> AboutTrust(u)
  {
    hide UnmetPolicy, UnmetTrust;
    var a, b := UnmetPolicy(p, r.producer, r.anchorsVerified), UnmetTrust(p, r.producer, r.states);
    forall u
      ensures u in r.unmet <==> Lacks(p, r.producer, r.anchorsVerified, r.states, u)
      ensures u in a <==> u in r.unmet && !AboutTrust(u)
    {
      InPolicy(p, r.producer, r.anchorsVerified, r.states, u);
      InTrust(p, r.producer, r.anchorsVerified, r.states, u);
      assert u in r.unmet <==> u in a || u in b;
    }
    if a != [] { assert a[0] in a; }
  }

  lemma InPolicy(p: Policy, b: Option<BlockVerdict>, n: nat, s: States, u: Unmet)
    ensures u in UnmetPolicy(p, b, n) <==> Lacks(p, b, n, s, u) && !AboutTrust(u)
  {
    var all := UnmetPolicy(p, b, n);
    var x := if p.requireProducer && !(b.Some? && b.value.ok) then [UnmetProducer] else [];
    var y := if p.requirePq && !(b.Some? && b.value.pqProtected && b.value.trusted == Some(true)) then [UnmetPq] else [];
    var z := if p.requireAnchor && n < 1 then [UnmetAnchor] else [];
    var w := if p.minAnchors.Some? && n < p.minAnchors.value then [UnmetMinAnchors] else [];
    assert all == x + y + z + w;
    assert u in all <==> u in x || u in y || u in z || u in w;
  }

  lemma InTrust(p: Policy, b: Option<BlockVerdict>, n: nat, s: States, u: Unmet)
    ensures u in UnmetTrust(p, b, s) <==> Lacks(p, b, n, s, u) && AboutTrust(u)
  {}

  /** `valid`, from the facts: every artifact sound with no failed key binding, the digest and the bindings recomputed, every
      token claimed bound, the producer block passing under pinned keys when there are any, and the policy met. */
  lemma ValidExactly(f: Facts, p: Policy, r: Receipt)
    requires Reports(r, f, p)
    ensures r.valid <==>
            && f.artifacts != [] && f.digestOk && f.bindingsMatch
            && (forall i :: 0 <= i < |f.artifacts| ==> !Spoiled(f, i))
            && (forall i, s, h :: KbAs(f, i, HolderChecked(s, h)) ==> s && h)
            && f.block != TokenAbsent && (forall t :: Claimed(f, t) ==> Bound(t))
            && (f.producer.Some? ==> BlockPasses(f) && (p.trusted.Some? ==> AllPinned(f, p)))
            && (p.requireProducer ==> BlockPasses(f))
            && (p.requirePq ==> BlockPasses(f) && AllPinned(f, p) && SomePostQuantum(f))
            && (p.requireAnchor ==> Anchored(f, p) != {})
            && (p.minAnchors.Some? ==> |Anchored(f, p)| >= p.minAnchors.value)
  {
    hide BlockPasses, AllPinned, SomePostQuantum, SomePassesUnpinned, Anchored, Identities, StatesOf, UnmetPolicy, UnmetTrust, ProducerOf;
    PolicyExactly(f, p, r);
    BlockIs(f, p, r);
    UnmetIs(p, r);
    ArtifactsSound(f);
    TokensBound(f);
  }

  lemma ArtifactsSound(f: Facts)
    ensures (forall i :: 0 <= i < |f.artifacts| ==> Good(f.artifacts[i]))
       <==> (forall i :: 0 <= i < |f.artifacts| ==> !Spoiled(f, i)) && forall i, s, h :: KbAs(f, i, HolderChecked(s, h)) ==> s && h
  {
    forall i | 0 <= i < |f.artifacts|
      ensures Good(f.artifacts[i]) <==> !Spoiled(f, i) && forall s, h :: KbAs(f, i, HolderChecked(s, h)) ==> s && h
    {
      if f.artifacts[i].ArtifactChecked? {
        var kb := f.artifacts[i].kb;
        assert KbAs(f, i, kb);
        if kb.HolderChecked? { assert kb == HolderChecked(kb.signatureOk, kb.sdHashOk); }
      }
    }
  }

  lemma TokensBound(f: Facts)
    ensures (f.block.NotAnchored? || (f.block.Stamped? && Binds(f.block.token))) && (forall i :: 0 <= i < |f.anchors| ==> Binds(f.anchors[i]))
       <==> f.block != TokenAbsent && forall t :: Claimed(f, t) ==> Bound(t)
  {
    if f.block != TokenAbsent && forall t :: Claimed(f, t) ==> Bound(t) {
      assert f.block.Stamped? ==> Claimed(f, f.block.token);
      assert forall i :: 0 <= i < |f.anchors| ==> Claimed(f, f.anchors[i]);
    }
  }
}
