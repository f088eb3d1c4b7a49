/** The two verdicts agree, no state claims more than was checked, and pinning keys
    contradicts nothing. */
module VerdictLaws {
  import opened Values
  import opened ProducerBlock
  import opened Verdict

  predicate ElementProper(e: Element) {
    (e.reason == Some(InstrumentFailure) ==> e.state == NotEvaluated) && (e.state != Verified ==> e.reason.Some?)
  }

  lemma EachProper<A>(xs: seq<A>, f: A -> seq<Element>)
    requires forall x, e :: e in f(x) ==> ElementProper(e)
    ensures Proper(Each(xs, f))
  {
    forall e | e in Each(xs, f) ensures ElementProper(e) { EachMembers(xs, f, e); }
  }

  ghost predicate Occurs(es: seq<Element>, s: State) { exists e :: e in es && e.state == s }

  lemma OccursConcat(a: seq<Element>, b: seq<Element>, s: State)
    ensures Occurs(a + b, s) <==> Occurs(a, s) || Occurs(b, s)
  {
    if Occurs(a, s) { var e :| e in a && e.state == s; assert e in a + b; }
    if Occurs(b, s) { var e :| e in b && e.state == s; assert e in a + b; }
    if Occurs(a + b, s) { var e :| e in a + b && e.state == s; assert e in a || e in b; }
  }

  lemma OccursOne(e: Element, s: State)
    ensures Occurs([e], s) <==> e.state == s
  {
    assert e in [e];
  }

  lemma EachOccurs<A>(xs: seq<A>, f: A -> seq<Element>, s: State)
    ensures Occurs(Each(xs, f), s) <==> exists i :: 0 <= i < |xs| && Occurs(f(xs[i]), s)
  {
    if Occurs(Each(xs, f), s) {
      var e :| e in Each(xs, f) && e.state == s;
      EachMembers(xs, f, e);
      var i :| 0 <= i < |xs| && e in f(xs[i]);
      assert Occurs(f(xs[i]), s);
    }
    if exists i :: 0 <= i < |xs| && Occurs(f(xs[i]), s) {
      var i :| 0 <= i < |xs| && Occurs(f(xs[i]), s);
      var e :| e in f(xs[i]) && e.state == s;
      EachMembers(xs, f, e);
    }
  }

  /** A subject of proper elements: contradicted, verified, and which reasons it lists. */
  lemma SubjectOccurs(es: seq<Element>)
    requires es != [] && Proper(es)
    ensures SubjectOf(es).state == Contradicted <==> Occurs(es, Contradicted)
    ensures SubjectOf(es).state == Verified <==> !Occurs(es, Contradicted) && !Occurs(es, NotEvaluated)
  {
    SubjectPrecedence(es);
  }

  // ------------------------------------------------------------------ when each subject is contradicted

  lemma SealedContradicted(f: Facts)
    ensures Proper(SealedElements(f))
    ensures SubjectOf(SealedElements(f)).state == Contradicted
       <==> !(f.digestOk && f.artifacts != [] && f.bindingsMatch &&
              forall i :: 0 <= i < |f.artifacts| ==> ArtifactElement(f.artifacts[i]) == Fine)
    ensures SubjectOf(SealedElements(f)).state != NotEvaluated
  {
    var a := [if f.digestOk then Fine else Bad(DigestMismatch)];
    var b := if f.artifacts == [] then [Bad(ArtifactInvalid)] else [];
    var c := Each(f.artifacts, ForArtifact());
    var d := match BindingSetMatch(f) case None => [] case Some(x) => [if x then Fine else Bad(BindingMismatch)];
    EachProper(f.artifacts, ForArtifact());
    SubjectOccurs(SealedElements(f));
    forall s | s != Verified ensures Occurs(SealedElements(f), s) <==> Occurs(a, s) || Occurs(b, s) || Occurs(c, s) || Occurs(d, s) {
      OccursConcat(a, b, s);
      OccursConcat(a + b, c, s);
      OccursConcat(a + b + c, d, s);
    }
    ArtifactsOccur(f.artifacts);
    OccursOne(a[0], Contradicted);
    OccursOne(a[0], NotEvaluated);
    OccursOne(Bad(ArtifactInvalid), Contradicted);
    OccursOne(if f.bindingsMatch then Fine else Bad(BindingMismatch), Contradicted);
  }

  lemma ArtifactsOccur(arts: seq<ArtifactResult>)
    ensures Occurs(Each(arts, ForArtifact()), Contradicted) <==> exists i :: 0 <= i < |arts| && ArtifactElement(arts[i]) != Fine
    ensures !Occurs(Each(arts, ForArtifact()), NotEvaluated)
  {
    EachOccurs(arts, ForArtifact(), Contradicted);
    EachOccurs(arts, ForArtifact(), NotEvaluated);
    forall i | 0 <= i < |arts|
      ensures Occurs(ForArtifact()(arts[i]), Contradicted) <==> ArtifactElement(arts[i]) != Fine
      ensures !Occurs(ForArtifact()(arts[i]), NotEvaluated)
    {
      OccursOne(ArtifactElement(arts[i]), Contradicted);
      OccursOne(ArtifactElement(arts[i]), NotEvaluated);
    }
  }

  /** A KB-JWT that was checked and failed. */
  predicate KbRefuted(a: ArtifactResult) { a.ArtifactChecked? && KbVerified(a.kb) == Some(false) }

  lemma HolderOccurs(a: ArtifactResult)
    ensures Occurs(ForHolder()(a), Contradicted) <==> KbRefuted(a)
  {
    var h := HolderElement(a);
    if h != [] {
      assert h == [h[0]];
      OccursOne(h[0], Contradicted);
    }
  }

  lemma HolderProper(arts: seq<ArtifactResult>)
    ensures Proper(OrAbsent(Each(arts, ForHolder())))
  {
    EachProper(arts, ForHolder());
  }

  lemma AbsentIsNot(es: seq<Element>)
    ensures Occurs(OrAbsent(es), Contradicted) <==> Occurs(es, Contradicted)
  {
    OccursOne(Open(NotPresent), Contradicted);
  }

  lemma HolderContradicted(arts: seq<ArtifactResult>)
    ensures SubjectOf(OrAbsent(Each(arts, ForHolder()))).state == Contradicted
       <==> exists i :: 0 <= i < |arts| && KbRefuted(arts[i])
  {
    var es := Each(arts, ForHolder());
    HolderProper(arts);
    SubjectOccurs(OrAbsent(es));
    AbsentIsNot(es);
    EachOccurs(arts, ForHolder(), Contradicted);
    forall i | 0 <= i < |arts| ensures Occurs(ForHolder()(arts[i]), Contradicted) <==> KbRefuted(arts[i]) {
      HolderOccurs(arts[i]);
    }
  }

  lemma TimeContradicted(f: Facts, tsaRequested: bool)
    ensures Proper(OrAbsent(TimeElements(f, tsaRequested)))
    ensures SubjectOf(OrAbsent(TimeElements(f, tsaRequested))).state == Contradicted
       <==> !((f.block.NotAnchored? || (f.block.Stamped? && Binds(f.block.token))) &&
              forall i :: 0 <= i < |f.anchors| ==> Binds(f.anchors[i]))
  {
    var b := match f.block
      case NotAnchored => [] case TokenAbsent => [Bad(TokenMissing)] case Stamped(t) => [AnchorElement(t, tsaRequested)];
    var es := Each(f.anchors, ForToken(tsaRequested));
    EachProper(f.anchors, ForToken(tsaRequested));
    SubjectOccurs(OrAbsent(TimeElements(f, tsaRequested)));
    OccursConcat(b, es, Contradicted);
    EachOccurs(f.anchors, ForToken(tsaRequested), Contradicted);
    OccursOne(Open(NotPresent), Contradicted);
    if b != [] { assert b == [b[0]]; OccursOne(b[0], Contradicted); }
    forall i | 0 <= i < |f.anchors|
      ensures Occurs(ForToken(tsaRequested)(f.anchors[i]), Contradicted) <==> !Binds(f.anchors[i])
    {
      OccursOne(AnchorElement(f.anchors[i], tsaRequested), Contradicted);
    }
  }

  lemma ProducerContradicted(v: Option<BlockVerdict>, pinned: bool)
    ensures Proper(ProducerElements(v, pinned))
    ensures SubjectOf(ProducerElements(v, pinned)).state == Contradicted
       <==> v.Some? && (v.value.rows == [] || !v.value.schemeOk || Any(v.value.rows, Fails))
  {
    SubjectOccursOf(v, pinned);
    if v.Some? {
      var rows := v.value.rows;
      var tail := if rows == [] || !v.value.schemeOk then [Bad(SignatureInvalid)] else [];
      OccursConcat(Each(rows, ForRow(pinned)), tail, Contradicted);
      if tail != [] { OccursOne(tail[0], Contradicted); }
      EachOccurs(rows, ForRow(pinned), Contradicted);
      forall i | 0 <= i < |rows| ensures Occurs(ForRow(pinned)(rows[i]), Contradicted) <==> Fails(rows[i]) {
        OccursOne(RowElement(rows[i], pinned), Contradicted);
      }
    } else {
      OccursOne(Open(NotPresent), Contradicted);
    }
  }

  lemma SubjectOccursOf(v: Option<BlockVerdict>, pinned: bool)
    ensures Proper(ProducerElements(v, pinned))
    ensures var es := ProducerElements(v, pinned);
            (SubjectOf(es).state == Contradicted <==> Occurs(es, Contradicted)) &&
            (SubjectOf(es).state == Verified <==> !Occurs(es, Contradicted) && !Occurs(es, NotEvaluated))
  {
    if v.Some? {
      EachProper(v.value.rows, ForRow(pinned));
    }
    SubjectOccurs(ProducerElements(v, pinned));
  }

  ghost predicate SomeUnresolved(rows: seq<Row>) { exists i :: 0 <= i < |rows| && Passes(rows[i]) && Untrusted(rows[i]) }

  lemma ProducerElementIn(v: BlockVerdict, pinned: bool, e: Element)
    requires e.reason == Some(KeyUnresolved)
    ensures e in ProducerElements(Some(v), pinned) <==> exists i :: 0 <= i < |v.rows| && e == RowElement(v.rows[i], pinned)
  {
    hide RowElement;
    EachMembers(v.rows, ForRow(pinned), e);
    if i :| 0 <= i < |v.rows| && e == RowElement(v.rows[i], pinned) { assert e in ForRow(pinned)(v.rows[i]); }
  }

  lemma UnresolvedRow(r: Row, pinned: bool)
    ensures RowElement(r, pinned).reason == Some(KeyUnresolved) <==> pinned && Passes(r) && Untrusted(r)
    ensures pinned && Passes(r) && Untrusted(r) ==> RowElement(r, pinned) == Open(KeyUnresolved)
  {}

  lemma UnresolvedIsListed(v: BlockVerdict)
    requires SomeUnresolved(v.rows)
    ensures KeyUnresolved in SubjectOf(ProducerElements(Some(v), true)).reasons
  {
    hide Each, RowElement, ProducerElements, Reasons;
    var es := ProducerElements(Some(v), true);
    var i :| 0 <= i < |v.rows| && Passes(v.rows[i]) && Untrusted(v.rows[i]);
    UnresolvedRow(v.rows[i], true);
    ProducerElementIn(v, true, Open(KeyUnresolved));
    assert Open(KeyUnresolved) in es;
    SubjectOccursOf(Some(v), true);
    assert Occurs(es, NotEvaluated);
    ReasonListed(es, false, KeyUnresolved);
  }

  lemma ListedIsUnresolved(v: BlockVerdict, pinned: bool, verified: bool)
    requires KeyUnresolved in Reasons(ProducerElements(Some(v), pinned), verified)
    ensures pinned && SomeUnresolved(v.rows)
  {
    hide Each, RowElement, ProducerElements, SubjectOf, Reasons;
    var es := ProducerElements(Some(v), pinned);
    ReasonKnown(es, verified, KeyUnresolved);
    var e :| e in es && e.reason == Some(KeyUnresolved);
    ProducerElementIn(v, pinned, e);
    var i :| 0 <= i < |v.rows| && e == RowElement(v.rows[i], pinned);
    UnresolvedRow(v.rows[i], pinned);
  }

  /** A pinned, verified signature by an unpinned key is named in the reasons, and only that is. */
  lemma KeyUnresolvedListed(v: BlockVerdict, pinned: bool)
    ensures KeyUnresolved in SubjectOf(ProducerElements(Some(v), pinned)).reasons
       <==> pinned && exists i :: 0 <= i < |v.rows| && Passes(v.rows[i]) && Untrusted(v.rows[i])
  {
    hide Each, RowElement, ProducerElements, Reasons;
    var es := ProducerElements(Some(v), pinned);
    if pinned && SomeUnresolved(v.rows) { UnresolvedIsListed(v); }
    if KeyUnresolved in SubjectOf(es).reasons { ListedIsUnresolved(v, pinned, SubjectOf(es).state == Verified); }
  }

  lemma {:induction false} ReasonKnown(es: seq<Element>, verified: bool, r: Reason)
    requires r in Reasons(es, verified)
    ensures exists e :: e in es && e.reason == Some(r)
    decreases |es|
  {
    if es != [] {
      assert es == [es[0]] + es[1..];
      if r in Reasons(es[1..], verified) {
        ReasonKnown(es[1..], verified, r);
        var e :| e in es[1..] && e.reason == Some(r);
        assert e in es;
      } else {
        assert es[0] in es && es[0].reason == Some(r);
      }
    }
  }

  // ------------------------------------------------------------------ the equation

  predicate NoneButIssuerContradicted(s: States) {
    s.sealedContent.state != Contradicted && s.holderBinding.state != Contradicted &&
    s.timeAnchor.state != Contradicted && s.producerSignature.state != Contradicted
  }

  predicate NoSkip(v: Option<BlockVerdict>) { v.Some? ==> !Any(v.value.rows, Skips) }

  /** What a block that nobody contradicts and that skips nothing amounts to. */
  lemma BlockOkIffUncontradicted(f: Facts, p: Policy, v: Option<BlockVerdict>)
    requires ProducerOf(f, p, v)
    ensures SubjectOf(ProducerElements(v, p.trusted.Some?)).state != Contradicted && NoSkip(v) <==> v.Some? ==> v.value.ok
  {
    ProducerContradicted(v, p.trusted.Some?);
    if v.Some? { AllPassOrNot(v.value.rows); }
  }

  /** A block that is ok with a pinned set: trusted when, and only when, no key is left unresolved. */
  lemma TrustedIffResolved(f: Facts, p: Policy, v: BlockVerdict)
    requires ProducerOf(f, p, Some(v)) && v.ok && p.trusted.Some?
    ensures v.trusted == Some(true)
       <==> KeyUnresolved !in SubjectOf(ProducerElements(Some(v), true)).reasons
  {
    KeyUnresolvedListed(v, true);
  }

  /** The content that `AllGood` asks for, but the producer block. */
  ghost predicate ContentGood(f: Facts) {
    && f.artifacts != [] && f.digestOk && f.bindingsMatch
    && (forall i :: 0 <= i < |f.artifacts| ==> Good(f.artifacts[i]))
    && (f.block.NotAnchored? || (f.block.Stamped? && Binds(f.block.token)))
    && (forall i :: 0 <= i < |f.anchors| ==> Binds(f.anchors[i]))
  }

  lemma ContentIffUncontradicted(f: Facts, tsaRequested: bool)
    ensures ContentGood(f) <==>
              SubjectOf(SealedElements(f)).state != Contradicted &&
              SubjectOf(OrAbsent(Each(f.artifacts, ForHolder()))).state != Contradicted &&
              SubjectOf(OrAbsent(TimeElements(f, tsaRequested))).state != Contradicted
  {
    SealedContradicted(f);
    HolderContradicted(f.artifacts);
    TimeContradicted(f, tsaRequested);
    ArtifactsGood(f.artifacts);
  }

  /** What the policy says about trust is met by every good block under its pinned set. */
  lemma TrustFollows(f: Facts, p: Policy, r: Receipt)
    requires ProducerOf(f, p, r.producer) && r.states.producerSignature == SubjectOf(ProducerElements(r.producer, p.trusted.Some?))
    requires r.producer.Some? ==> r.producer.value.ok
    ensures (r.producer.Some? && p.trusted.Some? ==> r.producer.value.trusted == Some(true))
       <==> UnmetTrust(p, r.producer, r.states) == []
  {
    if r.producer.Some? {
      KeyUnresolvedListed(r.producer.value, p.trusted.Some?);
      if p.trusted.Some? { TrustedIffResolved(f, p, r.producer.value); }
    } else {
      var es := ProducerElements(None, p.trusted.Some?);
      if KeyUnresolved in SubjectOf(es).reasons { ReasonKnown(es, SubjectOf(es).state == Verified, KeyUnresolved); }
    }
  }

  /** `valid` holds exactly when no subject other than issuer_identity is contradicted, no producer entry is SKIP and
      the policy is met: over any number of artifacts, anchors and signature entries. */
  lemma ValidEquation(f: Facts, p: Policy, r: Receipt)
    requires Reports(r, f, p)
    ensures r.valid <==> NoneButIssuerContradicted(r.states) && NoSkip(r.producer) && r.unmet == []
  {
    ContentIffUncontradicted(f, p.tsaRequested);
    BlockOkIffUncontradicted(f, p, r.producer);
    var content, blockOk := ContentGood(f), r.producer.Some? ==> r.producer.value.ok;
    var pinsOk := r.producer.Some? && p.trusted.Some? ==> r.producer.value.trusted == Some(true);
    assert AllGood(f, p, r.producer) <==> content && blockOk && pinsOk;
    assert NoneButIssuerContradicted(r.states) && NoSkip(r.producer) <==> content && blockOk;
    assert r.unmet == [] <==> r.policyOk && UnmetTrust(p, r.producer, r.states) == [];
    if blockOk { TrustFollows(f, p, r); }
  }

  lemma ArtifactsGood(arts: seq<ArtifactResult>)
    ensures (forall i :: 0 <= i < |arts| ==> Good(arts[i]))
       <==> (forall i :: 0 <= i < |arts| ==> ArtifactElement(arts[i]) == Fine) && !exists i :: 0 <= i < |arts| && KbRefuted(arts[i])
  {
    forall i | 0 <= i < |arts| ensures Good(arts[i]) <==> ArtifactElement(arts[i]) == Fine && !KbRefuted(arts[i]) {}
  }

  // ------------------------------------------------------------------ verified means checked

  ghost predicate AllVerified(es: seq<Element>) { forall e :: e in es ==> e.state == Verified }

  lemma EachVerified<A>(xs: seq<A>, f: A -> seq<Element>)
    ensures AllVerified(Each(xs, f)) <==> forall i :: 0 <= i < |xs| ==> AllVerified(f(xs[i]))
  {
    if AllVerified(Each(xs, f)) {
      forall i, e | 0 <= i < |xs| && e in f(xs[i]) ensures e.state == Verified { EachMembers(xs, f, e); }
    }
    if forall i :: 0 <= i < |xs| ==> AllVerified(f(xs[i])) {
      forall e | e in Each(xs, f) ensures e.state == Verified {
        EachMembers(xs, f, e);
        var i :| 0 <= i < |xs| && e in f(xs[i]);
        assert AllVerified(f(xs[i]));
      }
    }
  }

  lemma VerifiedConcat(a: seq<Element>, b: seq<Element>)
    ensures AllVerified(a + b) <==> AllVerified(a) && AllVerified(b)
  {
    if AllVerified(a + b) {
      forall e | e in a ensures e.state == Verified { assert e in a + b; }
      forall e | e in b ensures e.state == Verified { assert e in a + b; }
    }
  }

  lemma VerifiedOne(e: Element)
    ensures AllVerified([e]) <==> e.state == Verified
  {
    assert e in [e];
  }

  predicate TokenVerified(t: Token, tsaRequested: bool) { Binds(t) && tsaRequested && t.tsaVerified == Some(true) }

  lemma {:induction false} EachConcat<A>(a: seq<A>, b: seq<A>, f: A -> seq<Element>)
    ensures Each(a + b, f) == Each(a, f) + Each(b, f)
    decreases |b|
  {
    if b == [] {
      assert a + b == a;
    } else {
      assert (a + b)[..|a + b| - 1] == a + b[..|b| - 1];
      EachConcat(a, b[..|b| - 1], f);
    }
  }

  lemma {:induction false} EmptyEach<A>(xs: seq<A>, f: A -> seq<Element>)
    ensures Each(xs, f) == [] <==> forall i :: 0 <= i < |xs| ==> f(xs[i]) == []
    decreases |xs|
  {
    if xs != [] {
      var n := |xs| - 1;
      EmptyEach(xs[..n], f);
      EmptySplits(xs, n, f);
      assert Each(xs, f) == [] <==> Each(xs[..n], f) == [] && f(xs[n]) == [];
    }
  }

  lemma EmptySplits<A>(xs: seq<A>, n: nat, f: A -> seq<Element>)
    requires |xs| == n + 1
    ensures (forall i :: 0 <= i < |xs| ==> f(xs[i]) == []) <==> (forall i :: 0 <= i < n ==> f(xs[..n][i]) == []) && f(xs[n]) == []
  {
    assert forall i :: 0 <= i < n ==> xs[..n][i] == xs[i];
    if (forall i :: 0 <= i < n ==> f(xs[..n][i]) == []) && f(xs[n]) == [] {
      forall i | 0 <= i < |xs| ensures f(xs[i]) == [] { if i < n { assert f(xs[..n][i]) == []; } }
    }
  }

  /** With a token for every claim, the elements are those of the tokens. */
  lemma TimeIsTokens(f: Facts, tsaRequested: bool)
    requires !f.block.TokenAbsent?
    ensures TimeElements(f, tsaRequested) == Each(ClaimedTokens(f), ForToken(tsaRequested))
  {
    hide AnchorElement;
    if f.block.Stamped? {
      var one := [f.block.token];
      EachConcat(one, f.anchors, ForToken(tsaRequested));
      assert one[..0] == [];
      assert Each(one, ForToken(tsaRequested)) == Each([], ForToken(tsaRequested)) + [AnchorElement(f.block.token, tsaRequested)];
    } else {
      assert [] + f.anchors == f.anchors;
      assert [] + Each(f.anchors, ForToken(tsaRequested)) == Each(f.anchors, ForToken(tsaRequested));
    }
  }

  /** time_anchor is verified exactly when the authority was checked for every token claimed, and there is one. */
  lemma TimeVerified(f: Facts, tsaRequested: bool)
    ensures SubjectOf(OrAbsent(TimeElements(f, tsaRequested))).state == Verified
       <==> ClaimedTokens(f) != [] && !f.block.TokenAbsent? &&
            forall i :: 0 <= i < |ClaimedTokens(f)| ==> TokenVerified(ClaimedTokens(f)[i], tsaRequested)
  {
    var es, ts := TimeElements(f, tsaRequested), ClaimedTokens(f);
    TimeContradicted(f, tsaRequested);
    if !f.block.TokenAbsent? {
      TimeIsTokens(f, tsaRequested);
      SubjectPrecedence(OrAbsent(es));
      EachVerified(ts, ForToken(tsaRequested));
      EmptyEach(ts, ForToken(tsaRequested));
      VerifiedOne(Open(NotPresent));
      TokensVerified(ts, tsaRequested);
    }
  }

  lemma TokensVerified(ts: seq<Token>, tsaRequested: bool)
    ensures forall i :: 0 <= i < |ts| ==>
              (AllVerified(ForToken(tsaRequested)(ts[i])) <==> TokenVerified(ts[i], tsaRequested)) &&
              ForToken(tsaRequested)(ts[i]) != []
  {
    forall i | 0 <= i < |ts|
      ensures (AllVerified(ForToken(tsaRequested)(ts[i])) <==> TokenVerified(ts[i], tsaRequested)) &&
              ForToken(tsaRequested)(ts[i]) != []
    {
      VerifiedOne(AnchorElement(ts[i], tsaRequested));
    }
  }

  /** producer_signature is verified exactly when every entry passes under a pinned key and the scheme is theirs. */
  lemma ProducerVerified(v: Option<BlockVerdict>, pinned: bool)
    ensures SubjectOf(ProducerElements(v, pinned)).state == Verified
       <==> pinned && v.Some? && v.value.rows != [] && v.value.schemeOk &&
            forall i :: 0 <= i < |v.value.rows| ==> Passes(v.value.rows[i]) && !Untrusted(v.value.rows[i])
  {
    var es := ProducerElements(v, pinned);
    SubjectOccursOf(v, pinned);
    SubjectPrecedence(es);
    if v.Some? {
      var rows := v.value.rows;
      var tail := if rows == [] || !v.value.schemeOk then [Bad(SignatureInvalid)] else [];
      VerifiedConcat(Each(rows, ForRow(pinned)), tail);
      if tail != [] { VerifiedOne(tail[0]); }
      EachVerified(rows, ForRow(pinned));
      forall i | 0 <= i < |rows|
        ensures AllVerified(ForRow(pinned)(rows[i])) <==> pinned && Passes(rows[i]) && !Untrusted(rows[i])
      {
        VerifiedOne(RowElement(rows[i], pinned));
      }
    } else {
      VerifiedOne(Open(NotPresent));
    }
  }

  /** A KB-JWT was presented and its holder binding verified. */
  predicate KbProven(a: ArtifactResult) { a.ArtifactChecked? && KbVerified(a.kb) == Some(true) }
  predicate KbPresent(a: ArtifactResult) { a.ArtifactChecked? && !a.kb.NoKbJwt? }

  lemma HolderShape(a: ArtifactResult)
    ensures AllVerified(ForHolder()(a)) <==> (KbPresent(a) ==> KbProven(a))
    ensures ForHolder()(a) == [] <==> !KbPresent(a)
  {
    var h := HolderElement(a);
    if h != [] {
      assert h == [h[0]];
      VerifiedOne(h[0]);
    }
  }

  /** holder_binding is verified exactly when some KB-JWT was presented and every one presented verified. */
  lemma HolderVerified(arts: seq<ArtifactResult>)
    ensures SubjectOf(OrAbsent(Each(arts, ForHolder()))).state == Verified
       <==> (exists i :: 0 <= i < |arts| && KbPresent(arts[i])) && forall i :: 0 <= i < |arts| && KbPresent(arts[i]) ==> KbProven(arts[i])
  {
    var es := Each(arts, ForHolder());
    HolderProper(arts);
    SubjectPrecedence(OrAbsent(es));
    EachVerified(arts, ForHolder());
    EmptyEach(arts, ForHolder());
    VerifiedOne(Open(NotPresent));
    forall i | 0 <= i < |arts|
      ensures (AllVerified(ForHolder()(arts[i])) <==> (KbPresent(arts[i]) ==> KbProven(arts[i]))) &&
              (ForHolder()(arts[i]) == [] <==> !KbPresent(arts[i]))
    {
      HolderShape(arts[i]);
    }
  }

  // ------------------------------------------------------------------ pinned sets

  function Level(s: State): nat { match s case Contradicted => 0 case NotEvaluated => 1 case Verified => 2 }

  /** Whatever is pinned, the same subjects are contradicted, and the four subjects that are not the producer's keep
      their whole state. */
  lemma PinsContradictNothing(f: Facts, p: Policy, trusted: Option<TrustSet>, r: Receipt, s: Receipt)
    requires Reports(r, f, p) && Reports(s, f, p.(trusted := trusted))
    ensures r.states.producerSignature.state == Contradicted <==> s.states.producerSignature.state == Contradicted
    ensures r.states.sealedContent == s.states.sealedContent && r.states.holderBinding == s.states.holderBinding
    ensures r.states.timeAnchor == s.states.timeAnchor && r.states.issuerIdentity == s.states.issuerIdentity
  {
    PinsAndProducer(f, p, trusted, r.producer, s.producer);
  }

  lemma PinsAndProducer(f: Facts, p: Policy, trusted: Option<TrustSet>, v: Option<BlockVerdict>, w: Option<BlockVerdict>)
    requires ProducerOf(f, p, v) && ProducerOf(f, p.(trusted := trusted), w)
    ensures SubjectOf(ProducerElements(v, p.trusted.Some?)).state == Contradicted
       <==> SubjectOf(ProducerElements(w, trusted.Some?)).state == Contradicted
  {
    ProducerContradicted(v, p.trusted.Some?);
    ProducerContradicted(w, trusted.Some?);
    if f.producer.Some? {
      PinsOnlyChangeKeys(f.producer.value, f.verify, p.trusted, trusted, v.value, w.value);
      SameButKeysSameOk(Scheme(f.producer.value), v.value.rows, w.value.rows);
    }
  }

  /** Every key pinned in `t` is pinned in `u`; no set at all is the smallest. */
  ghost predicate PinsAtLeast(u: Option<TrustSet>, t: Option<TrustSet>) {
    t.Some? ==> u.Some? && forall alg, key :: KeyAllowed(t.value, alg, key) ==> KeyAllowed(u.value, alg, key)
  }

  /** Enlarging the pinned set never lowers the state of the producer signature. */
  lemma PinningMoreNeverLowers(f: Facts, p: Policy, trusted: Option<TrustSet>, r: Receipt, s: Receipt)
    requires Reports(r, f, p) && Reports(s, f, p.(trusted := trusted)) && PinsAtLeast(trusted, p.trusted)
    ensures Level(r.states.producerSignature.state) <= Level(s.states.producerSignature.state)
  {
    PinsAndProducer(f, p, trusted, r.producer, s.producer);
    ProducerVerified(r.producer, p.trusted.Some?);
    ProducerVerified(s.producer, trusted.Some?);
    if r.states.producerSignature.state == Verified {
      MorePinsKeepTrust(f.producer.value, f.verify, p.trusted, trusted, r.producer.value, s.producer.value);
    }
  }

  lemma MorePinsKeepTrust(block: Json, verify: Verifier, t: Option<TrustSet>, u: Option<TrustSet>, v: BlockVerdict, w: BlockVerdict)
    requires t.Some? && PinsAtLeast(u, t)
    requires Describes(v, Scheme(block), Rows(Entries(block), verify, t), t.Some?)
    requires Describes(w, Scheme(block), Rows(Entries(block), verify, u), u.Some?)
    ensures SameButKeys(v.rows, w.rows) && v.schemeOk == w.schemeOk
    ensures forall i :: 0 <= i < |v.rows| && !Untrusted(v.rows[i]) ==> !Untrusted(w.rows[i])
  {
    PinsOnlyChangeKeys(block, verify, t, u, v, w);
    forall i | 0 <= i < |v.rows| && !Untrusted(v.rows[i]) ensures !Untrusted(w.rows[i]) {
      assert v.rows[i] == RowOf(Entries(block)[i], verify, t) && w.rows[i] == RowOf(Entries(block)[i], verify, u);
    }
  }
}
