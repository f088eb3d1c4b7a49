/** A verified record admits no history its original refuses, and exactly when that can fail. */
module RestrictionLaws {
  import opened Values
  import opened CanonicalJson
  import opened CanonicalLaws
  import opened CanonicalOrder
  import opened CanonicalSame
  import opened Jwk
  import opened Restriction
  import opened RestrictionMeaning

  /** The constraints of a mandate's content. */
  function Terms(content: seq<Member>): seq<Json> {
    if ConstraintsIn(content).Arr? then ConstraintsIn(content).items else []
  }

  /** `c` is met by one requirement of R at least as strict. */
  ghost predicate Backed(c: Json, rc: seq<Json>) {
    || Canon(c) in CanonSet(rc)
    || (ShapeOf(c).WellFormed? && exists i :: 0 <= i < |rc| && Meets(c, rc[i], Some(true)))
  }

  /** The branch that skips `c`: nothing meets it, but a constraint of its type in R has an unknown name. */
  ghost predicate Masked(c: Json, rc: seq<Json>) {
    && !IsRef(c) && Canon(c) !in CanonSet(rc) && ShapeOf(c).WellFormed?
    && (forall i :: 0 <= i < |rc| ==> !Meets(c, rc[i], Some(true)))
    && exists i :: 0 <= i < |rc| && SameType(c, rc[i]) && ShapeOf(rc[i]).UnknownName?
  }

  ghost predicate Unmasked(oc: seq<Json>, rc: seq<Json>) { forall i :: 0 <= i < |oc| ==> !Masked(oc[i], rc) }

  // ------------------------------------------------------------------ no reason, at every place

  lemma {:induction false} OriginalsClear(oc: seq<Json>, rc: seq<Json>, base: string)
    ensures OriginalReasons(oc, rc, base) == []
       <==> forall i :: 0 <= i < |oc| ==> MeetReasons(oc[i], ConstraintPlace(base, i), rc) == []
    decreases |oc|
  {
    hide MeetReasons, ConstraintPlace, IsRef, CanonSet, Canon;
    if oc != [] {
      var n := |oc| - 1;
      OriginalsClear(oc[..n], rc, base);
      assert forall i :: 0 <= i < n ==> oc[..n][i] == oc[i];
    }
  }

  lemma {:induction false} AddedClear(rc: seq<Json>, oc: seq<Json>, base: string)
    ensures AllAdded(rc, oc, base).0 == []
       <==> forall j :: 0 <= j < |rc| ==> AddedReasons(rc[j], AddedPlace(base, j), oc) == []
    decreases |rc|
  {
    hide AddedReasons, AddedPlace, AddedReport;
    if rc != [] {
      var n := |rc| - 1;
      AddedClear(rc[..n], oc, base);
      assert forall i :: 0 <= i < n ==> rc[..n][i] == rc[i];
    }
  }

  lemma {:induction false} KeysClear(ks: seq<string>, o: seq<Member>, r: seq<Member>, rules: Rules, prefix: string)
    ensures KeysReasons(ks, o, r, rules, prefix) == []
       <==> forall i :: 0 <= i < |ks| ==> KeyReasons(rules.For(ks[i]), ks[i], Lookup(o, ks[i]), Lookup(r, ks[i]), prefix) == []
    decreases |ks|
  {
    hide KeyReasons, Rules.For, Lookup;
    if ks != [] {
      var n := |ks| - 1;
      KeysClear(ks[..n], o, r, rules, prefix);
      assert forall i :: 0 <= i < n ==> ks[..n][i] == ks[i];
    }
  }

  lemma {:induction false} MissingHolds(r: seq<Member>, o: seq<Member>, m: Member)
    ensures m in Missing(r, o) <==> m in r && !Has(o, m.key)
    decreases |r|
  {
    hide Has;
    if r != [] {
      MissingHolds(r[1..], o, m);
      assert r == [r[0]] + r[1..];
    }
  }

  /** The keys compared are the keys either object has. */
  lemma UnionIsEither(o: seq<Member>, r: seq<Member>, k: string)
    ensures k in UnionKeys(o, r) <==> Lookup(o, k).Some? || Lookup(r, k).Some?
  {
    var all := o + Missing(r, o);
    var sorted := Sort(all);
    if k in UnionKeys(o, r) {
      var i :| 0 <= i < |sorted| && sorted[i].key == k;
      assert sorted[i] in multiset(all);
      MissingHolds(r, o, sorted[i]);
    }
    if Lookup(o, k).Some? || Lookup(r, k).Some? {
      var m := Member(k, if Lookup(o, k).Some? then Lookup(o, k).value else Lookup(r, k).value);
      MissingHolds(r, o, m);
      assert m in multiset(all);
      var i :| 0 <= i < |sorted| && sorted[i] == m;
      assert UnionKeys(o, r)[i] == k;
    }
  }

  lemma {:induction false} MissingIsUnique(r: seq<Member>, o: seq<Member>)
    requires UniqueKeys(r)
    ensures UniqueKeys(Missing(r, o))
    decreases |r|
  {
    if r != [] {
      TailIsUnique(r);
      MissingIsUnique(r[1..], o);
      var rest := Missing(r[1..], o);
      forall j | 0 <= j < |rest| ensures rest[j].key != r[0].key {
        MissingHolds(r[1..], o, rest[j]);
        var i :| 0 <= i < |r[1..]| && r[1..][i] == rest[j];
      }
    }
  }

  /** They are compared in code point order, each once. */
  lemma UnionIsInOrder(o: seq<Member>, r: seq<Member>)
    requires UniqueKeys(o) && UniqueKeys(r)
    ensures forall i, j :: 0 <= i < j < |UnionKeys(o, r)| ==> Below(UnionKeys(o, r)[i], UnionKeys(o, r)[j])
  {
    var all := o + Missing(r, o);
    MissingIsUnique(r, o);
    forall i, j | 0 <= i < j < |all| ensures KeySeq(all)[i] != KeySeq(all)[j] {
      if j < |o| {
        assert KeySeq(o)[i] != KeySeq(o)[j];
      } else {
        var k := j - |o|;
        MissingHolds(r, o, all[j]);
        if i >= |o| { assert KeySeq(Missing(r, o))[i - |o|] != KeySeq(Missing(r, o))[k]; }
      }
    }
    SortSorts(all);
  }

  // ------------------------------------------------------------------ the constraints

  /** Where the first pass finds nothing, a constraint is backed unless the skip was taken. */
  lemma MetMeansBacked(c: Json, at: string, rc: seq<Json>)
    requires !IsRef(c) && MeetReasons(c, at, rc) == []
    ensures Backed(c, rc) <==> !Masked(c, rc)
  {
    hide ShapeOf, Within, CanonSet, Canon, TypeOf;
  }

  /** The skip leans on a constraint the second pass let through, which is a copy of one of O. */
  lemma MaskIsACopy(c: Json, oc: seq<Json>, rc: seq<Json>, base: string) returns (x: Json)
    requires Masked(c, rc) && AllAdded(rc, oc, base).0 == []
    ensures x in rc && SameType(c, x) && ShapeOf(x).UnknownName? && Canon(x) in CanonSet(oc)
  {
    hide ShapeOf, Within, CanonSet, Canon, TypeOf, AddedPlace;
    var i :| 0 <= i < |rc| && SameType(c, rc[i]) && ShapeOf(rc[i]).UnknownName?;
    x := rc[i];
    AddedClear(rc, oc, base);
    assert AddedReasons(x, AddedPlace(base, i), oc) == [];
    TypeIsNoRef(c, x);
  }

  lemma TypeIsNoRef(c: Json, x: Json)
    requires SameType(c, x) && !IsRef(c)
    ensures !IsRef(x)
  {}

  lemma BackedAdmits(w: World, c: Json, rc: seq<Json>, h: History)
    requires Ordered(w) && Strict(c) && (forall i :: 0 <= i < |rc| ==> Strict(rc[i]))
    requires !IsRef(c) && Backed(c, rc) && AllAdmit(w, rc, h)
    ensures Admits(w, c, h)
  {
    hide ShapeOf, Within, Canon, TypeOf, FamilyOf, Satisfies, Strict, IsRef;
    if Canon(c) in CanonSet(rc) {
      var x :| x in rc && Canon(x) == Canon(c);
      var i :| 0 <= i < |rc| && rc[i] == x;
      CanonRef(x, c);
      CanonicallyEqualAdmit(w, x, c, h);
    } else {
      var i :| 0 <= i < |rc| && Meets(c, rc[i], Some(true));
      TypeIsNoRef(c, rc[i]);
      WellFormedType(c);
      WithinIsSound(w, FamilyOf(TypeOf(c).value).value, c, rc[i], h);
    }
  }

  lemma CanonRef(a: Json, b: Json)
    requires Strict(a) && Strict(b) && Canon(a) == Canon(b)
    ensures IsRef(a) <==> IsRef(b)
  {
    CanonSame(a, b);
    TypeSame(a, b);
  }

  /** When neither pass finds a reason, every term of O is backed by one term of R exactly when the skip hid none, and then
      R admits no history O refuses. */
  lemma ClearConstraintsAdmitNoMore(w: World, oc: seq<Json>, rc: seq<Json>, base: string, h: History)
    requires Ordered(w) && (forall i :: 0 <= i < |oc| ==> Strict(oc[i])) && (forall i :: 0 <= i < |rc| ==> Strict(rc[i]))
    requires OriginalReasons(oc, rc, base) == []
    ensures Unmasked(oc, rc) <==> forall i :: 0 <= i < |oc| && !IsRef(oc[i]) ==> Backed(oc[i], rc)
    ensures Unmasked(oc, rc) && AllAdmit(w, rc, h) ==> AllAdmit(w, oc, h)
  {
    hide Backed, Masked, Strict, Admits, MeetReasons, IsRef, ConstraintPlace;
    OriginalsClear(oc, rc, base);
    forall i | 0 <= i < |oc| ensures !Masked(oc[i], rc) <==> (IsRef(oc[i]) || Backed(oc[i], rc)) {
      if IsRef(oc[i]) { RefIsNotMasked(oc[i], rc); } else { MetMeansBacked(oc[i], ConstraintPlace(base, i), rc); }
    }
    if Unmasked(oc, rc) && AllAdmit(w, rc, h) {
      forall i | 0 <= i < |oc| && !IsRef(oc[i]) ensures Admits(w, oc[i], h) { BackedAdmits(w, oc[i], rc, h); }
    }
  }

  lemma RefIsNotMasked(c: Json, rc: seq<Json>)
    requires IsRef(c)
    ensures !Masked(c, rc)
  {}

  // ------------------------------------------------------------------ the keys

  lemma KeyAdmitsNoMore(w: World, rule: Rule, k: string, vo: Option<Json>, vr: Option<Json>, prefix: string, h: History)
    requires KeyReasons(rule, k, vo, vr, prefix) == [] || (vo.None? && vr.None?)
    requires ClaimAdmits(w, rule, k, vr, h)
    ensures ClaimAdmits(w, rule, k, vo, h)
  {
    hide Canon;
  }

  lemma KeysAdmitNoMore(w: World, rules: Rules, o: seq<Member>, r: seq<Member>, prefix: string, h: History)
    requires KeysReasons(UnionKeys(o, r), o, r, rules, prefix) == [] && ClaimsAdmit(w, rules, r, h)
    ensures ClaimsAdmit(w, rules, o, h)
  {
    hide KeyReasons, ClaimAdmits, UnionKeys, Rules.For, Lookup;
    KeysClear(UnionKeys(o, r), o, r, rules, prefix);
    forall k ensures ClaimAdmits(w, rules.For(k), k, Lookup(o, k), h) {
      UnionIsEither(o, r, k);
      assert ClaimAdmits(w, rules.For(k), k, Lookup(r, k), h);
      KeyAdmitsNoMore(w, rules.For(k), k, Lookup(o, k), Lookup(r, k), prefix, h);
    }
  }

  // ------------------------------------------------------------------ the whole record

  lemma TermsAreStrict(content: seq<Member>)
    requires Strict(Obj(content))
    ensures forall i :: 0 <= i < |Terms(content)| ==> Strict(Terms(content)[i])
  {
    if Lookup(content, "constraints").Some? { FieldIsStrict(Obj(content), "constraints"); }
  }

  lemma SameContent(w: World, co: seq<Member>, cr: seq<Member>, h: History)
    requires Ordered(w) && Strict(Obj(co)) && Strict(Obj(cr)) && Canon(Obj(co)) == Canon(Obj(cr))
    ensures SupportedKeys(co) == SupportedKeys(cr)
    ensures ConstraintsIn(co).Arr? <==> ConstraintsIn(cr).Arr?
    ensures |Terms(co)| == |Terms(cr)|
    ensures forall i :: 0 <= i < |Terms(co)| ==> Same(Terms(co)[i], Terms(cr)[i])
  {
    hide Same, Strict, Canon, OpenContentKeys;
    var a, b := Obj(co), Obj(cr);
    CanonSame(a, b);
    SameField(a, b, "vct");
    if Field(a, "vct").Some? { SameKind(Field(a, "vct").value, Field(b, "vct").value); }
    SameReads(a, b, "constraints");
    SameField(a, b, "constraints");
    if Field(a, "constraints").Some? { SameKind(Field(a, "constraints").value, Field(b, "constraints").value); }
    assert Terms(co) == ListAt(a, "constraints") && Terms(cr) == ListAt(b, "constraints");
  }

  lemma SameTermsAdmit(w: World, oc: seq<Json>, rc: seq<Json>, h: History)
    requires Ordered(w) && |oc| == |rc| && (forall i :: 0 <= i < |oc| ==> Same(oc[i], rc[i])) && AllAdmit(w, rc, h)
    ensures AllAdmit(w, oc, h)
  {
    hide Admits, IsRef;
    forall i | 0 <= i < |oc| && !IsRef(oc[i]) ensures Admits(w, oc[i], h) {
      TypeSame(oc[i], rc[i]);
      CanonSameForward(oc[i], rc[i]);
      CanonicallyEqualAdmit(w, rc[i], oc[i], h);
    }
  }

  /** The evaluation, or a part of it, came to its end without a reason. */
  predicate Clear(found: Option<Findings>) { found.Some? && found.value.0 == [] }

  lemma ContentAdmitsNoMore(w: World, form: Form, co: seq<Member>, cr: seq<Member>, h: History)
    requires Ordered(w) && Strict(Obj(co)) && Strict(Obj(cr))
    requires Clear(ContentFindings(form, co, cr)) && Unmasked(Terms(co), Terms(cr)) && ContentAdmits(w, form, cr, h)
    ensures ContentAdmits(w, form, co, h)
  {
    hide Strict, Same, AllAdmit, ClaimsAdmit, Unmasked, KeysReasons, UnionKeys, OriginalReasons, AllAdded, Canon, OpenContentKeys;
    if SupportedKeys(co).None? {
      SameContent(w, co, cr, h);
      if ConstraintsIn(co).Arr? { SameTermsAdmit(w, Terms(co), Terms(cr), h); }
    } else {
      var known, base := SupportedKeys(co).value, Base(form);
      assert SupportedKeys(cr) == SupportedKeys(co);
      KeysAdmitNoMore(w, ContentRules(form, known), co, cr, base, h);
      TermsAreStrict(co);
      TermsAreStrict(cr);
      ClearConstraintsAdmitNoMore(w, Terms(co), Terms(cr), base, h);
    }
  }

  lemma NoReasonMeans(o: Artifact, r: Artifact)
    requires Outcome(o, r) == Some(Verified)
    ensures OneKey(o.jwk, r.jwk) && o.hidden == r.hidden == Some(0) && !o.disclosable
    ensures MandateForm(o.claims).Some? && MandateForm(r.claims).Some?
    ensures MandateForm(o.claims).value.0 == MandateForm(r.claims).value.0
    ensures PayloadReasons(MandateForm(o.claims).value.0, o.claims, r.claims) == []
    ensures Clear(ContentFindings(MandateForm(o.claims).value.0, MandateForm(o.claims).value.1, MandateForm(r.claims).value.1))
  {
    hide ContentFindings, PayloadReasons, MandateForm, SameKey, OneKey;
    SameKeyIsOneKey(o.jwk, r.jwk);
  }

  lemma ContentIsStrict(claims: seq<Member>)
    requires Strict(Obj(claims)) && MandateForm(claims).Some?
    ensures Strict(Obj(MandateForm(claims).value.1))
  {
    if Lookup(claims, "delegate_payload").Some? {
      FieldIsStrict(Obj(claims), "delegate_payload");
      var dp := Lookup(claims, "delegate_payload").value;
      assert Strict(dp.items[0]);
    }
  }

  ghost predicate ContentsUnmasked(o: seq<Member>, r: seq<Member>) {
    MandateForm(o).Some? && MandateForm(r).Some? ==> Unmasked(Terms(MandateForm(o).value.1), Terms(MandateForm(r).value.1))
  }

  /** A record found verified, with no constraint hidden by the skip, admits only what its original admits: over the claims
      of the payload, the values of the content and every constraint but the references. */
  lemma VerifiedAdmitsNoMore(w: World, o: Artifact, r: Artifact, h: History)
    requires Ordered(w) && Strict(Obj(o.claims)) && Strict(Obj(r.claims))
    requires Outcome(o, r) == Some(Verified) && ContentsUnmasked(o.claims, r.claims)
    requires MandateAdmits(w, r.claims, h)
    ensures MandateAdmits(w, o.claims, h)
  {
    hide Outcome, ContentFindings, ContentAdmits, ClaimsAdmit, MandateForm, Unmasked, Strict, KeysReasons, UnionKeys;
    NoReasonMeans(o, r);
    var (form, co) := MandateForm(o.claims).value;
    var cr := MandateForm(r.claims).value.1;
    ContentIsStrict(o.claims);
    ContentIsStrict(r.claims);
    ContentAdmitsNoMore(w, form, co, cr, h);
    if form.InDelegate? { KeysAdmitNoMore(w, PayloadRules, o.claims, r.claims, "", h); }
  }

  /** Exactly when a verified record backs every term of its original with a term of its own: when the skip hid none. */
  lemma VerifiedBacksUnlessMasked(o: Artifact, r: Artifact)
    requires Strict(Obj(o.claims)) && Strict(Obj(r.claims)) && Outcome(o, r) == Some(Verified)
    ensures MandateForm(o.claims).Some? && MandateForm(r.claims).Some?
    ensures var oc, rc := Terms(MandateForm(o.claims).value.1), Terms(MandateForm(r.claims).value.1);
            ContentsUnmasked(o.claims, r.claims) <==> forall i :: 0 <= i < |oc| && !IsRef(oc[i]) ==> Backed(oc[i], rc)
  {
    hide Outcome, ContentFindings, MandateForm, Strict, Backed, Masked, IsRef;
    NoReasonMeans(o, r);
    ContentIsStrict(o.claims);
    ContentIsStrict(r.claims);
    var (form, co) := MandateForm(o.claims).value;
    ContentIsExact(Lenient(), form, co, MandateForm(r.claims).value.1);
  }

  lemma ContentIsExact(w: World, form: Form, co: seq<Member>, cr: seq<Member>)
    requires Ordered(w) && Strict(Obj(co)) && Strict(Obj(cr)) && Clear(ContentFindings(form, co, cr))
    ensures Unmasked(Terms(co), Terms(cr))
       <==> forall i :: 0 <= i < |Terms(co)| && !IsRef(Terms(co)[i]) ==> Backed(Terms(co)[i], Terms(cr))
  {
    hide Strict, Same, Backed, Masked, IsRef, KeysReasons, UnionKeys, OriginalReasons, AllAdded, Canon, OpenContentKeys;
    if SupportedKeys(co).None? {
      SameContent(w, co, cr, []);
      forall i | 0 <= i < |Terms(co)| ensures Backed(Terms(co)[i], Terms(cr)) && !Masked(Terms(co)[i], Terms(cr)) {
        CanonSameForward(Terms(co)[i], Terms(cr)[i]);
        CopyIsBacked(Terms(co)[i], Terms(cr), i);
      }
    } else {
      TermsAreStrict(co);
      TermsAreStrict(cr);
      ClearConstraintsAdmitNoMore(w, Terms(co), Terms(cr), Base(form), []);
    }
  }

  lemma CopyIsBacked(c: Json, rc: seq<Json>, i: nat)
    requires i < |rc| && Canon(rc[i]) == Canon(c)
    ensures Backed(c, rc) && !Masked(c, rc)
  {
    assert rc[i] in rc;
    assert Canon(c) in CanonSet(rc);
  }

  // ------------------------------------------------------------------ a restated mandate is verified

  /** A value of the type its rule reads. */
  ghost predicate RightType(rule: Rule, v: Json) {
    match rule
    case NotAfter => v.Num?
    case NotBefore => v.Num?
    case Typed(kind) => IsKind(kind, v)
    case _ => true
  }

  /** `r` gives every key of `o` a rule reads with a canonically equal value, and no other. */
  ghost predicate Restates(rules: Rules, o: seq<Member>, r: seq<Member>) {
    forall k :: rules.For(k) == Ignored || (
      && CanonOf(Lookup(o, k)) == CanonOf(Lookup(r, k))
      && (Lookup(o, k).Some? ==> RightType(rules.For(k), Lookup(o, k).value)))
  }

  lemma RestatedKey(rule: Rule, k: string, vo: Option<Json>, vr: Option<Json>, prefix: string)
    requires rule == Ignored || (vo.Some? && vr.Some? && Same(vo.value, vr.value) && RightType(rule, vo.value))
    ensures KeyReasons(rule, k, vo, vr, prefix) == []
  {
    hide Canon, Same;
    if rule != Ignored {
      SameKind(vo.value, vr.value);
      CanonSameForward(vo.value, vr.value);
      if rule.Typed? { IsKindSame(rule.kind, vo.value, vr.value); }
    }
  }

  lemma RestatedKeys(rules: Rules, o: seq<Member>, r: seq<Member>, prefix: string)
    requires Strict(Obj(o)) && Strict(Obj(r)) && Restates(rules, o, r)
    ensures KeysReasons(UnionKeys(o, r), o, r, rules, prefix) == []
  {
    hide KeyReasons, Rules.For, Lookup, UnionKeys, Canon, Strict, Same, RightType;
    var ks := UnionKeys(o, r);
    forall i | 0 <= i < |ks| ensures KeyReasons(rules.For(ks[i]), ks[i], Lookup(o, ks[i]), Lookup(r, ks[i]), prefix) == [] {
      UnionIsEither(o, r, ks[i]);
      var vo, vr := Lookup(o, ks[i]), Lookup(r, ks[i]);
      if rules.For(ks[i]) != Ignored {
        FieldIsStrict(Obj(o), ks[i]);
        FieldIsStrict(Obj(r), ks[i]);
        CanonSame(vo.value, vr.value);
      }
      RestatedKey(rules.For(ks[i]), ks[i], vo, vr, prefix);
    }
    KeysClear(ks, o, r, rules, prefix);
  }

  /** `rc` keeps a copy of every term of `oc`, and adds references and constraints of unknown types only. */
  ghost predicate KeepsTerms(oc: seq<Json>, rc: seq<Json>) {
    && (forall i :: 0 <= i < |oc| ==> IsRef(oc[i]) || Canon(oc[i]) in CanonSet(rc))
    && (forall j :: 0 <= j < |rc| ==> IsRef(rc[j]) || Canon(rc[j]) in CanonSet(oc) || ShapeOf(rc[j]).UnknownType?)
  }

  lemma KeptTermsAreClear(oc: seq<Json>, rc: seq<Json>, base: string)
    requires KeepsTerms(oc, rc)
    ensures OriginalReasons(oc, rc, base) == [] && AllAdded(rc, oc, base).0 == []
  {
    hide ShapeOf, IsRef, Canon, CanonSet, ConstraintPlace, AddedPlace;
    OriginalsClear(oc, rc, base);
    AddedClear(rc, oc, base);
  }

  /** The other direction of soundness: a record that restates its original, under the same key and with nothing hidden, and
      adds its reference or constraints of unknown types, is verified, unless the original cannot be evaluated: then even a
      copy of it is not. */
  lemma RestatedIsVerified(o: Artifact, r: Artifact, form: Form, co: seq<Member>, cr: seq<Member>)
    requires Strict(Obj(o.claims)) && Strict(Obj(r.claims)) && Strict(Obj(co)) && Strict(Obj(cr))
    requires OneKey(o.jwk, r.jwk) && o.hidden == r.hidden == Some(0) && !o.disclosable
    requires MandateForm(o.claims) == Some((form, co)) && MandateForm(r.claims) == Some((form, cr))
    requires form.InDelegate? ==> Restates(PayloadRules, o.claims, r.claims)
    requires SupportedKeys(co).Some? && Lookup(co, "vct") == Lookup(cr, "vct")
    requires Restates(ContentRules(form, SupportedKeys(co).value), co, cr)
    requires ConstraintsIn(co).Arr? && ConstraintsIn(cr).Arr? && KeepsTerms(Terms(co), Terms(cr))
    ensures Outcome(o, r) == if Hashable(Terms(co)) then Some(Verified) else None
  {
    hide Hashable, Strict, SameKey, OneKey, MandateForm, SupportedKeys, ConstraintsIn, Restates, KeepsTerms, KeysReasons,
         UnionKeys, OriginalReasons, AllAdded, Lookup;
    SameKeyIsOneKey(o.jwk, r.jwk);
    RestatedKeys(ContentRules(form, SupportedKeys(co).value), co, cr, Base(form));
    KeptTermsAreClear(Terms(co), Terms(cr), Base(form));
    if form.InDelegate? { RestatedKeys(PayloadRules, o.claims, r.claims, ""); }
  }

  // ------------------------------------------------------------------ what is found not within is broader

  /** The world that refuses nothing by a rule of its own. */
  function Lenient(): World {
    World((_, _, _) => true, (_, _) => true, true, _ => 0, _ => 0, (_, _, _) => true, (_, _) => true, (_, _, _) => true,
          (_, _) => true)
  }

  function OneUse(currency: string, amount: int, reference: string): History { [Use(currency, amount, 0, reference, map[], [])] }

  lemma TotalOfOne(currency: string, amount: int)
    ensures Total(OneUse(currency, amount, "")) == amount
  {
    assert OneUse(currency, amount, "")[1..] == [];
  }

  /** A range that is not empty and not within another admits an amount the other refuses. */
  lemma RangeIsExact(o: Json, r: Json) returns (h: History)
    requires Within(AmountRange, o, r) == Some(false) && (Field(r, "min").Some? ==> IntAt(r, "min") <= IntAt(r, "max"))
    ensures Satisfies(Lenient(), AmountRange, r, h) && !Satisfies(Lenient(), AmountRange, o, h)
  {
    hide IntAt, StrAt, Field;
    var top := IntAt(r, "max");
    var low := if Field(r, "min").Some? then IntAt(r, "min") else if top < IntAt(o, "min") then top else IntAt(o, "min") - 1;
    var wide := StrAt(r, "currency") != StrAt(o, "currency") || top > IntAt(o, "max");
    h := OneUse(StrAt(r, "currency"), if wide then top else low, "");
    assert InRange(r, h[0]);
    assert !InRange(o, h[0]);
  }

  lemma BudgetIsExact(o: Json, r: Json) returns (h: History)
    requires Within(Budget, o, r) == Some(false)
    ensures Satisfies(Lenient(), Budget, r, h) && !Satisfies(Lenient(), Budget, o, h)
  {
    hide IntAt, StrAt, Field, Total;
    h := OneUse(StrAt(r, "currency"), IntAt(r, "max"), "");
    TotalOfOne(StrAt(r, "currency"), IntAt(r, "max"));
    assert h[0].currency == StrAt(r, "currency");
  }

  lemma ReferenceIsExact(o: Json, r: Json) returns (h: History)
    requires Within(Reference, o, r) == Some(false)
    ensures Satisfies(Lenient(), Reference, r, h) && !Satisfies(Lenient(), Reference, o, h)
  {
    hide StrAt;
    h := OneUse("", 0, StrAt(r, "conditional_transaction_id"));
    assert h[0].reference == StrAt(r, "conditional_transaction_id");
  }

  /** The world in which an element names exactly the party that carries its canonical form as its reference. */
  function Literal(): World { Lenient().(matches := (_, x: Text, u: Use) => x == u.reference) }

  lemma AllowedIsExact(o: Json, r: Json) returns (h: History)
    requires Within(Allowed, o, r) == Some(false)
    ensures Satisfies(Literal(), Allowed, r, h) && !Satisfies(Literal(), Allowed, o, h)
  {
    hide Canon, ListAt, StrAt;
    var rs, os := ListAt(r, "allowed"), ListAt(o, "allowed");
    var i :| 0 <= i < |rs| && Canon(rs[i]) !in CanonSet(os);
    h := OneUse("", 0, Canon(rs[i]));
    assert Literal().matches(StrAt(r, "type"), Canon(rs[i]), h[0]);
    assert Listed(Literal(), r, h[0]);
    forall j | 0 <= j < |os| ensures Canon(os[j]) in CanonSet(os) { assert os[j] in os; }
    assert !Listed(Literal(), o, h[0]);
  }

  /** The world in which uses of frequency `i` are `i` apart. */
  function Apart(): World { Lenient().(gap := (i: nat) => i) }

  function Regular(n: nat, g: nat): History {
    seq(n, i requires 0 <= i < n => Use("", 0, i * g, "", map[], []))
  }

  lemma RegularGaps(n: nat, g: nat)
    ensures forall i :: 0 < i < n ==> Regular(n, g)[i].moment - Regular(n, g)[i - 1].moment == g
  {
    forall i | 0 < i < n ensures i * g - (i - 1) * g == g {}
  }

  /** A recurrence that allows two uses and is not within another admits uses more frequent, or more, than the other. */
  lemma RecurrenceIsExact(o: Json, r: Json) returns (h: History)
    requires Within(Recurrence, o, r) == Some(false)
    requires Field(r, "max_occurrences").Some? ==> IntAt(r, "max_occurrences") >= 2
    ensures Ordered(Apart()) && Satisfies(Apart(), Recurrence, r, h) && !Satisfies(Apart(), Recurrence, o, h)
  {
    hide IntAt, StrAt, Field, FREQ_ORDER, Regular;
    var g := IndexOf(StrAt(r, "frequency"), FREQ_ORDER);
    var most := IntAt(o, "max_occurrences");
    var n: int := if g < IndexOf(StrAt(o, "frequency"), FREQ_ORDER) then 2
                  else if Field(r, "max_occurrences").Some? then IntAt(r, "max_occurrences")
                  else if most < 2 then 2 else most + 1;
    h := Regular(n, g);
    RegularLength(n, g);
    RegularGaps(n, g);
    assert Spaced(Apart(), r, h);
    if g < IndexOf(StrAt(o, "frequency"), FREQ_ORDER) { assert h[1].moment - h[0].moment == g; }
  }

  lemma RegularLength(n: nat, g: nat)
    ensures |Regular(n, g)| == n
  {}

  /** The world whose calendar stands still. */
  function Frozen(at: nat): World { Lenient().(calendar := (_: int) => at) }

  /** A comparable bound that is not within another admits the very day, or second, it names, which the other refuses. */
  lemma BoundIsExact(o: Json, r: Json, bound: string, isLower: bool) returns (at: nat)
    requires Field(o, bound).Some? && Field(r, bound).Some? && BoundWithin(o, r, bound, isLower) == Some(false)
    ensures BoundAdmits(Frozen(at), r, bound, isLower, OneUse("", 0, "")[0])
    ensures !BoundAdmits(Frozen(at), o, bound, isLower, OneUse("", 0, "")[0])
  {
    hide FormOf, Reading, Below, StrAt, Field;
    var so, sr := StrAt(o, bound), StrAt(r, bound);
    FormOrder(so, sr);
    FormOrder(sr, so);
    at := Reading(sr) * if FormOf(sr).value.DateOnly? then 1000000 else 1;
  }

  // ------------------------------------------------------------------ exactly when a record is verified

  /** What the rule of one key demands of the values in O and R, one of which is there. */
  ghost predicate KeyMet(rule: Rule, vo: Option<Json>, vr: Option<Json>) {
    match rule
    case Ignored => true
    case NotAfter =>
      (vo.Some? ==> vo.value.Num?) && (vr.Some? ==> vr.value.Num?) && (vo.Some? ==> vr.Some? && vr.value.n <= vo.value.n)
    case NotBefore =>
      (vo.Some? ==> vo.value.Num?) && (vr.Some? ==> vr.value.Num?) && (vo.Some? ==> vr.Some? && vo.value.n <= vr.value.n)
    case Equal(_) => CanonOf(vo) == CanonOf(vr)
    case Typed(kind) => (vo.Some? ==> IsKind(kind, vo.value)) && (vr.Some? ==> IsKind(kind, vr.value))
    case Preset => vo.Some? ==> CanonOf(vo) == CanonOf(vr)
    case Unlisted => vo.Some? && CanonOf(vo) == CanonOf(vr)
  }

  ghost predicate KeysMet(rules: Rules, o: seq<Member>, r: seq<Member>) {
    forall k :: Lookup(o, k).Some? || Lookup(r, k).Some? ==> KeyMet(rules.For(k), Lookup(o, k), Lookup(r, k))
  }

  /** Every term of O is backed, or the skip hides it; what R adds is a reference, a copy, of an unknown type, or well-formed
      and no recurrence where O has none. */
  ghost predicate TermsMet(oc: seq<Json>, rc: seq<Json>) {
    && (forall i :: 0 <= i < |oc| ==> IsRef(oc[i]) || Backed(oc[i], rc) || Masked(oc[i], rc))
    && (forall j :: 0 <= j < |rc| ==>
          || IsRef(rc[j]) || Canon(rc[j]) in CanonSet(oc) || ShapeOf(rc[j]).UnknownType?
          || (ShapeOf(rc[j]).WellFormed? && AddsNoReuse(rc[j], oc)))
  }

  ghost predicate AddsNoReuse(x: Json, oc: seq<Json>) {
    TypeOf(x) == Some("payment.agent_recurrence") ==> exists i :: 0 <= i < |oc| && TypeOf(oc[i]) == TypeOf(x)
  }

  ghost predicate ContentsMet(form: Form, co: seq<Member>, cr: seq<Member>) {
    match SupportedKeys(co)
    case None => Canon(Obj(co)) == Canon(Obj(cr))
    case Some(known) =>
      && Lookup(co, "vct") == Lookup(cr, "vct") && KeysMet(ContentRules(form, known), co, cr)
      && ConstraintsIn(co).Arr? && ConstraintsIn(cr).Arr? && Hashable(Terms(co)) && TermsMet(Terms(co), Terms(cr))
  }

  /** The record as a whole: one key, nothing hidden, one reading and form, every key rule and every term met. */
  ghost predicate NoBroader(o: Artifact, r: Artifact) {
    && OneKey(o.jwk, r.jwk) && o.hidden == r.hidden == Some(0) && !o.disclosable
    && MandateForm(o.claims).Some? && MandateForm(r.claims).Some?
    && MandateForm(o.claims).value.0 == MandateForm(r.claims).value.0
    && (MandateForm(o.claims).value.0.InDelegate? ==> KeysMet(PayloadRules, o.claims, r.claims))
    && ContentsMet(MandateForm(o.claims).value.0, MandateForm(o.claims).value.1, MandateForm(r.claims).value.1)
  }

  lemma KeyMetIsClear(rule: Rule, k: string, vo: Option<Json>, vr: Option<Json>, prefix: string)
    requires vo.Some? || vr.Some?
    ensures KeyReasons(rule, k, vo, vr, prefix) == [] <==> KeyMet(rule, vo, vr)
  {
    hide Canon, IsKind;
  }

  lemma KeysMetIsClear(rules: Rules, o: seq<Member>, r: seq<Member>, prefix: string)
    ensures KeysReasons(UnionKeys(o, r), o, r, rules, prefix) == [] <==> KeysMet(rules, o, r)
  {
    hide KeyReasons, KeyMet, UnionKeys, Rules.For, Lookup;
    var ks := UnionKeys(o, r);
    KeysClear(ks, o, r, rules, prefix);
    forall k | Lookup(o, k).Some? || Lookup(r, k).Some?
      ensures k in ks && (KeyReasons(rules.For(k), k, Lookup(o, k), Lookup(r, k), prefix) == []
                          <==> KeyMet(rules.For(k), Lookup(o, k), Lookup(r, k)))
    {
      UnionIsEither(o, r, k);
      KeyMetIsClear(rules.For(k), k, Lookup(o, k), Lookup(r, k), prefix);
    }
    forall i | 0 <= i < |ks| ensures Lookup(o, ks[i]).Some? || Lookup(r, ks[i]).Some? { UnionIsEither(o, r, ks[i]); }
  }

  lemma MeetIsClear(c: Json, at: string, rc: seq<Json>)
    ensures MeetReasons(c, at, rc) == [] <==> IsRef(c) || Backed(c, rc) || Masked(c, rc)
  {
    hide ShapeOf, Within, CanonSet, Canon, TypeOf, IsRef;
  }

  lemma AddedIsClear(x: Json, at: string, oc: seq<Json>)
    ensures AddedReasons(x, at, oc) == []
       <==> || IsRef(x) || Canon(x) in CanonSet(oc) || ShapeOf(x).UnknownType?
            || (ShapeOf(x).WellFormed? && AddsNoReuse(x, oc))
  {
    hide ShapeOf, CanonSet, Canon, TypeOf, IsRef;
  }

  lemma TermsMetIsClear(oc: seq<Json>, rc: seq<Json>, base: string)
    ensures OriginalReasons(oc, rc, base) == [] && AllAdded(rc, oc, base).0 == [] <==> TermsMet(oc, rc)
  {
    hide MeetReasons, AddedReasons, Backed, Masked, IsRef, Canon, CanonSet, ShapeOf, AddsNoReuse, ConstraintPlace, AddedPlace;
    OriginalsClear(oc, rc, base);
    AddedClear(rc, oc, base);
    forall i | 0 <= i < |oc| { MeetIsClear(oc[i], ConstraintPlace(base, i), rc); }
    forall j | 0 <= j < |rc| { AddedIsClear(rc[j], AddedPlace(base, j), oc); }
  }

  lemma ContentsMetIsClear(form: Form, co: seq<Member>, cr: seq<Member>)
    ensures Clear(ContentFindings(form, co, cr)) <==> ContentsMet(form, co, cr)
  {
    hide Hashable, KeysReasons, UnionKeys, OriginalReasons, AllAdded, Canon, OpenContentKeys, Lookup, KeysMet, TermsMet;
    if SupportedKeys(co).Some? {
      KeysMetIsClear(ContentRules(form, SupportedKeys(co).value), co, cr, Base(form));
      TermsMetIsClear(Terms(co), Terms(cr), Base(form));
    }
  }

  /** A record is verified exactly when it is bound, shown whole, meets every rule, and its original can be evaluated: no order
      of checks and no early end matters. */
  lemma VerifiedExactly(o: Artifact, r: Artifact)
    ensures Outcome(o, r) == Some(Verified) <==> NoBroader(o, r)
  {
    hide ContentFindings, ContentsMet, KeysReasons, UnionKeys, KeysMet, SameKey, OneKey, MandateForm;
    SameKeyIsOneKey(o.jwk, r.jwk);
    if MandateForm(o.claims).Some? && MandateForm(r.claims).Some? {
      var (form, co) := MandateForm(o.claims).value;
      ContentsMetIsClear(form, co, MandateForm(r.claims).value.1);
      KeysMetIsClear(PayloadRules, o.claims, r.claims, "");
    }
  }

  // ------------------------------------------------------------------ when there is no verdict

  /** The second pass over the constraints is reached: nothing hidden or refused, both mandates readable in one form, of one
      supported kind, each with a list of constraints. */
  ghost predicate ReachesAdded(o: Artifact, r: Artifact) {
    && o.hidden == r.hidden == Some(0) && !o.disclosable && MandateForm(o.claims).Some? && MandateForm(r.claims).Some?
    && MandateForm(o.claims).value.0 == MandateForm(r.claims).value.0
    && var co, cr := MandateForm(o.claims).value.1, MandateForm(r.claims).value.1;
       && SupportedKeys(co).Some? && Lookup(co, "vct") == Lookup(cr, "vct") && ConstraintsIn(co).Arr? && ConstraintsIn(cr).Arr?
  }

  /** The evaluation raises exactly when that pass is reached and some constraint of O is an object whose `type` is a list or
      an object, whatever the record and its key are. */
  lemma RaisesExactly(o: Artifact, r: Artifact)
    ensures Outcome(o, r) == None
       <==> && ReachesAdded(o, r)
            && exists i :: 0 <= i < |ConstraintsIn(MandateForm(o.claims).value.1).items| &&
                 var c := ConstraintsIn(MandateForm(o.claims).value.1).items[i];
                 c.Obj? && Lookup(c.members, "type").Some? && IsContainer(Lookup(c.members, "type").value)
  {
    hide KeysReasons, UnionKeys, OriginalReasons, AllAdded, MandateForm, SameKey, Canon, OpenContentKeys, StateOf, Lookup;
  }

  /** So a mandate with a constraint `{"type": []}` gives no verdict even against a record that copies it, under the same key,
      and adds its reference; and then no other record of the pack, on whichever side, has one either. */
  lemma CopyRaises(jwk: Json, ref: Json, before: seq<(Artifact, Artifact)>, after: seq<(Artifact, Artifact)>)
    returns (m: Artifact, record: Artifact)
    requires Strict(ref)
    ensures var c := Obj([Member("type", Arr([]))]);
            m == Artifact(jwk, Some(0), false, Mandate([c])) && record == Artifact(jwk, Some(0), false, Mandate([c, ref]))
    ensures Strict(Obj(m.claims)) && Strict(Obj(record.claims)) && Outcome(m, record) == None
    ensures forall states :: EvaluatedTogether(before + [(m, record)] + after, states) ==> states == None
  {
    hide Outcome, MandateForm, Mandate, ConstraintsIn, SupportedKeys, Lookup, Strict;
    var c := Obj([Member("type", Arr([]))]);
    m, record := Artifact(jwk, Some(0), false, Mandate([c])), Artifact(jwk, Some(0), false, Mandate([c, ref]));
    MandateReads([c]);
    MandateReads([c, ref]);
    ListTyped();
    assert Arr([c]).items[0] == c;
    RaisesExactly(m, record);
    MandateIsStrict([c]);
    MandateIsStrict([c, ref]);
    var all := before + [(m, record)] + after;
    assert all[|before|] == (m, record);
  }

  lemma ListTyped()
    ensures Lookup([Member("type", Arr([]))], "type") == Some(Arr([])) && Strict(Obj([Member("type", Arr([]))]))
  {
    var t := Member("type", Arr([]));
    assert Strict(t.val) && Obj([t]).members == [t];
  }

  lemma MandateIsStrict(cs: seq<Json>)
    requires forall i :: 0 <= i < |cs| ==> Strict(cs[i])
    ensures Strict(Obj(Mandate(cs)))
  {
    var ms := Mandate(cs);
    assert Strict(Arr(cs));
    assert ms[0].val == Str("mandate.checkout.open.1") && Strict(ms[0].val) && ms[1].val == Arr(cs);
    assert |KeySeq(ms)[0]| != |KeySeq(ms)[1]|;
  }

  // ------------------------------------------------------------------ who is to blame

  /** What is not met by R, or malformed in R. */
  predicate Faults(why: Why) {
    why in {IssuerKeyDiffers, Malformed, TimeWidened, CnfDiffers, ClaimChanged, PresetChanged, ConstraintRemoved, ConstraintWidened}
  }

  /** Every reason either contradicts R for a fault of R, or leaves open what cannot be judged. */
  ghost predicate Fair(reasons: seq<Reason>) {
    forall i :: 0 <= i < |reasons| ==> reasons[i].verdict == if Faults(reasons[i].why) then Contradicted else NotEvaluated
  }

  lemma KeyIsFair(rule: Rule, k: string, vo: Option<Json>, vr: Option<Json>, prefix: string)
    requires rule.Equal? ==> Faults(rule.why)
    ensures Fair(KeyReasons(rule, k, vo, vr, prefix))
  {
    hide Canon, IsKind;
  }

  lemma RuleIsFair(rules: Rules, k: string)
    ensures rules.For(k).Equal? ==> Faults(rules.For(k).why)
  {}

  lemma {:induction false} KeysAreFair(ks: seq<string>, o: seq<Member>, r: seq<Member>, rules: Rules, prefix: string)
    ensures Fair(KeysReasons(ks, o, r, rules, prefix))
    decreases |ks|
  {
    hide KeyReasons, Rules.For, Lookup, Faults;
    if ks != [] {
      var k := ks[|ks| - 1];
      KeysAreFair(ks[..|ks| - 1], o, r, rules, prefix);
      RuleIsFair(rules, k);
      KeyIsFair(rules.For(k), k, Lookup(o, k), Lookup(r, k), prefix);
    }
  }

  lemma MeetIsFair(c: Json, at: string, rc: seq<Json>)
    ensures Fair(MeetReasons(c, at, rc))
  {
    hide ShapeOf, Within, CanonSet, Canon, TypeOf, IsRef;
  }

  lemma AddedIsFair(x: Json, at: string, oc: seq<Json>)
    ensures Fair(AddedReasons(x, at, oc))
  {
    hide ShapeOf, CanonSet, Canon, TypeOf, IsRef;
  }

  lemma {:induction false} OriginalsAreFair(oc: seq<Json>, rc: seq<Json>, base: string)
    ensures Fair(OriginalReasons(oc, rc, base))
    decreases |oc|
  {
    hide MeetReasons, Faults, ConstraintPlace;
    if oc != [] {
      OriginalsAreFair(oc[..|oc| - 1], rc, base);
      MeetIsFair(oc[|oc| - 1], ConstraintPlace(base, |oc| - 1), rc);
    }
  }

  lemma {:induction false} AddedAreFair(rc: seq<Json>, oc: seq<Json>, base: string)
    ensures Fair(AllAdded(rc, oc, base).0)
    decreases |rc|
  {
    hide AddedReasons, AddedReport, AddedPlace, Faults;
    if rc != [] {
      AddedAreFair(rc[..|rc| - 1], oc, base);
      AddedIsFair(rc[|rc| - 1], AddedPlace(base, |rc| - 1), oc);
    }
  }

  lemma ContentIsFair(form: Form, co: seq<Member>, cr: seq<Member>)
    ensures ContentFindings(form, co, cr).Some? ==> Fair(ContentFindings(form, co, cr).value.0)
  {
    hide KeysReasons, UnionKeys, OriginalReasons, AllAdded, Canon, OpenContentKeys, Lookup;
    var base := Base(form);
    if SupportedKeys(co).Some? {
      var rules := ContentRules(form, SupportedKeys(co).value);
      KeysAreFair(UnionKeys(co, cr), co, cr, rules, base);
      OriginalsAreFair(Terms(co), Terms(cr), base);
      AddedAreFair(Terms(cr), Terms(co), base);
    }
  }

  /** A record is contradicted exactly when some reason is a fault of R: what is wrong with O, or what the profile cannot
      judge, never contradicts it. */
  lemma ContradictionBlamesTheRecord(o: Artifact, r: Artifact)
    ensures match RestrictionFindings(o, r)
            case None => Outcome(o, r) == None
            case Some((reasons, _)) =>
              && Fair(reasons) && Outcome(o, r).Some?
              && (Outcome(o, r) == Some(Contradicted) <==> exists i :: 0 <= i < |reasons| && Faults(reasons[i].why))
              && (Outcome(o, r) == Some(NotEvaluated) <==> reasons != [] && forall i :: 0 <= i < |reasons| ==> !Faults(reasons[i].why))
              && (Outcome(o, r) == Some(Verified) <==> reasons == [])
  {
    hide RestrictionFindings, Faults;
    FindingsAreFair(o, r);
  }

  lemma FairJoin(a: seq<Reason>, b: seq<Reason>)
    requires Fair(a) && Fair(b)
    ensures Fair(a + b)
  {}

  lemma EarlyIsFair(o: Artifact, r: Artifact)
    ensures Fair(EarlyReasons(o, r).0)
  {
    hide SameKey;
  }

  lemma FormsAreFair()
    ensures Fair(No(NotEvaluated, OriginalDisclosable, "original")) && Fair(No(NotEvaluated, FormDiffers, "restriction"))
    ensures Fair(No(NotEvaluated, FormUnsupported, "restriction")) && Fair(No(NotEvaluated, FormUnsupported, "original"))
  {}

  lemma FindingsAreFair(o: Artifact, r: Artifact)
    ensures RestrictionFindings(o, r).Some? ==> Fair(RestrictionFindings(o, r).value.0)
  {
    hide ContentFindings, KeysReasons, UnionKeys, EarlyReasons, MandateForm, Fair, No, Faults;
    var early := EarlyReasons(o, r).0;
    var unsupported := No(NotEvaluated, FormUnsupported, "original");
    EarlyIsFair(o, r);
    FormsAreFair();
    FairJoin(early, No(NotEvaluated, OriginalDisclosable, "original"));
    FairJoin(early, No(NotEvaluated, FormDiffers, "restriction"));
    FairJoin(early, No(NotEvaluated, FormUnsupported, "restriction"));
    FairJoin(early, unsupported);
    FairJoin(early + unsupported, No(NotEvaluated, FormUnsupported, "restriction"));
    if MandateForm(o.claims).Some? && MandateForm(r.claims).Some? {
      var (form, co) := MandateForm(o.claims).value;
      var found := ContentFindings(form, co, MandateForm(r.claims).value.1);
      ContentIsFair(form, co, MandateForm(r.claims).value.1);
      PayloadIsFair(form, o.claims, r.claims);
      FairJoin(early, PayloadReasons(form, o.claims, r.claims));
      if found.Some? { FairJoin(early + PayloadReasons(form, o.claims, r.claims), found.value.0); }
    }
  }

  lemma PayloadIsFair(form: Form, o: seq<Member>, r: seq<Member>)
    ensures Fair(PayloadReasons(form, o, r))
  {
    hide KeysReasons, UnionKeys, Faults;
    KeysAreFair(UnionKeys(o, r), o, r, PayloadRules, "");
  }

  // ------------------------------------------------------------------ where it fails

  /** A payload that is a checkout mandate with these constraints. */
  function Mandate(cs: seq<Json>): seq<Member> {
    [Member("vct", Str("mandate.checkout.open.1")), Member("constraints", Arr(cs))]
  }

  lemma MandateReads(cs: seq<Json>)
    ensures MandateForm(Mandate(cs)) == Some((InPayload, Mandate(cs)))
    ensures SupportedKeys(Mandate(cs)) == OpenContentKeys("mandate.checkout.open.1") && SupportedKeys(Mandate(cs)).Some?
    ensures ConstraintsIn(Mandate(cs)) == Arr(cs) && Terms(Mandate(cs)) == cs
    ensures forall k :: Lookup(Mandate(cs), k).Some? <==> k == "vct" || k == "constraints"
    ensures Lookup(Mandate(cs), "vct") == Some(Str("mandate.checkout.open.1"))
  {
    var m := Mandate(cs);
    assert m[1..][0] == m[1] && m[1..][1..] == [];
    forall k ensures Lookup(m, k).Some? <==> k == "vct" || k == "constraints" {
      assert Lookup(m[1..], k).Some? <==> k == "constraints";
    }
  }

  lemma MandateKeysClear(oc: seq<Json>, rc: seq<Json>, known: seq<string>)
    ensures KeysReasons(UnionKeys(Mandate(oc), Mandate(rc)), Mandate(oc), Mandate(rc), ContentRules(InPayload, known), "") == []
  {
    hide UnionKeys, Lookup, TopRule, Mandate;
    var o, r, rules := Mandate(oc), Mandate(rc), ContentRules(InPayload, known);
    MandateReads(oc);
    MandateReads(rc);
    var ks := UnionKeys(o, r);
    forall i | 0 <= i < |ks| ensures KeyReasons(rules.For(ks[i]), ks[i], Lookup(o, ks[i]), Lookup(r, ks[i]), "") == [] {
      UnionIsEither(o, r, ks[i]);
      assert ks[i] in ks;
    }
    KeysClear(ks, o, r, rules, "");
  }

  /** What no rule of the evaluation interprets refuses nothing. */
  ghost predicate Silent(w: World, h: History) {
    (forall k, v :: w.otherClaim(k, v, h)) && (forall t :: w.otherConstraint(t, h)) && forall t :: w.otherContent(t, h)
  }

  /** Then such a mandate admits what its terms do. */
  lemma MandateIsItsTerms(w: World, cs: seq<Json>, h: History)
    requires Silent(w, h)
    ensures MandateAdmits(w, Mandate(cs), h) <==> AllAdmit(w, cs, h)
  {
    hide AllAdmit, Lookup, TopRule, Mandate, OpenContentKeys, Canon;
    MandateReads(cs);
    var rules := ContentRules(InPayload, SupportedKeys(Mandate(cs)).value);
    forall k ensures ClaimAdmits(w, rules.For(k), k, Lookup(Mandate(cs), k), h) {}
  }

  // What a well-formed constraint refuses somewhere.

  /** A date constraint restrains unless it only has a lower bound that reads zero; the others always do. */
  ghost predicate Restrains(c: Json) {
    TypeOf(c).Some? && FamilyOf(TypeOf(c).value) == Some(ExecutionDate) ==>
      || Field(c, "not_after").Some?
      || (Field(c, "not_before").Some? && (FormOf(StrAt(c, "not_before")).None? || Reading(StrAt(c, "not_before")) > 0))
  }

  /** A world that names no party, fits no line, wants uses one apart, stands at one moment, and refuses every bound it cannot
      read. */
  function Strange(at: nat): World {
    World((_, _, _) => false, (_, _) => false, false, _ => 1, _ => at, (_, _, _) => false, (_, _) => true, (_, _, _) => true,
          (_, _) => true)
  }

  lemma StrangeIsSilent(at: nat, h: History)
    ensures Silent(Strange(at), h) && Ordered(Strange(at))
  {}

  /** A use with another currency and another reference, of one line. */
  function Odd(c: Json): Use {
    Use(StrAt(c, "currency") + "?", 0, 0, StrAt(c, "conditional_transaction_id") + "?", map[], [Line([], 1)])
  }

  lemma {:induction false} NothingFlows(flow: seq<seq<nat>>)
    requires forall i :: 0 <= i < |flow| ==> |flow[i]| == 1 && flow[i][0] == 0
    ensures Sum(Column(flow, 0)) == 0
    decreases |flow|
  {
    if flow != [] {
      NothingFlows(flow[1..]);
      assert Column(flow, 0)[1..] == Column(flow[1..], 0);
    }
  }

  lemma StrangeFillsNothing(c: Json, at: nat)
    ensures !Fills(Strange(at), c, Odd(c))
  {
    var w, u, items := Strange(at), Odd(c), ListAt(c, "items");
    forall flow ensures !Saturates(w, items, u.checkout, flow) {
      if Saturates(w, items, u.checkout, flow) {
        forall i | 0 <= i < |flow| ensures |flow[i]| == 1 && flow[i][0] == 0 {
          assert !Acceptable(w, items[i], u.checkout[0]);
        }
        NothingFlows(flow);
      }
    }
  }

  /** The moment at which a date constraint refuses. */
  function Outside(c: Json): nat {
    if Field(c, "not_after").Some? then (Reading(StrAt(c, "not_after")) + 1) * 1000000 else 0
  }

  lemma StrangeIsOutside(c: Json)
    requires Field(c, "not_after").Some? || Restrains(c)
    requires TypeOf(c).Some? && FamilyOf(TypeOf(c).value) == Some(ExecutionDate)
    ensures var w := Strange(Outside(c));
            !(BoundAdmits(w, c, "not_before", true, Odd(c)) && BoundAdmits(w, c, "not_after", false, Odd(c)))
  {
    hide Reading, FormOf, StrAt;
    if Field(c, "not_after").Some? {
      var n := Reading(StrAt(c, "not_after"));
      assert (n + 1) * 1000000 / 1000000 == n + 1;
    } else {
      assert 0 / 1000000 == 0;
    }
  }

  lemma RestrainedRefuses(c: Json)
    requires ShapeOf(c).WellFormed? && Restrains(c)
    ensures !Admits(Strange(Outside(c)), c, [Odd(c), Odd(c)])
  {
    hide ShapeOf, Spaced, Listed, InRange, BoundAdmits, Fills, FormOf, Reading, StrAt, IntAt, Field;
    WellFormedType(c);
    var w, u := Strange(Outside(c)), Odd(c);
    var h := [u, u];
    assert h[0] == u && h[1] == u;
    match FamilyOf(TypeOf(c).value).value
    case AmountRange => OddIsNotInRange(c);
    case Budget => OddIsElsewhere(c);
    case Recurrence => OddIsNotSpaced(c);
    case Allowed => assert !Listed(w, c, u) by { StrangeListsNothing(c, Outside(c)); }
    case ExecutionDate => StrangeIsOutside(c);
    case Reference => OddIsElsewhere(c);
    case LineItems => StrangeFillsNothing(c, Outside(c));
  }

  lemma StrangeListsNothing(c: Json, at: nat)
    ensures !Listed(Strange(at), c, Odd(c))
  {}

  lemma OddIsElsewhere(c: Json)
    ensures Odd(c).currency != StrAt(c, "currency") && Odd(c).reference != StrAt(c, "conditional_transaction_id")
  {
    assert |Odd(c).currency| == |StrAt(c, "currency")| + 1;
    assert |Odd(c).reference| == |StrAt(c, "conditional_transaction_id")| + 1;
  }

  lemma OddIsNotInRange(c: Json)
    ensures !InRange(c, Odd(c))
  {
    OddIsElsewhere(c);
  }

  lemma OddIsNotSpaced(c: Json)
    ensures !Spaced(Strange(Outside(c)), c, [Odd(c), Odd(c)])
  {
    hide StrAt, Field, Reading;
    var h := [Odd(c), Odd(c)];
    assert h[1].moment - h[0].moment == 0;
  }

  lemma UnrestrainedAdmits(c: Json, w: World, h: History)
    requires ShapeOf(c).WellFormed? && !Restrains(c)
    ensures Admits(w, c, h)
  {
    hide ShapeOf, FormOf, Reading, StrAt, Field;
  }

  lemma FamilyIsNoRef(c: Json)
    requires TypeOf(c).Some? && FamilyOf(TypeOf(c).value).Some?
    ensures !IsRef(c)
  {
    assert FamilyOf(RESTRICTS).None?;
  }

  /** The skip, for every well-formed `c` of O: put beside it in both O and R a constraint `x` of its type with an unknown name,
      drop `c` from R, and R is verified. It admits every history the rest of the world lets pass, while O refuses those that
      `c` refuses. */
  lemma SkipAdmitsMore(c: Json, x: Json, jwk: Json, w: World, h: History)
    requires Strict(c) && Strict(x) && jwk.Obj?
    requires ShapeOf(c).WellFormed? && SameType(c, x) && ShapeOf(x).UnknownName? && Silent(w, h)
    ensures var o, r := Original(c, x, jwk), Copied(x, jwk);
            && Outcome(o, r) == Some(Verified)
            && MandateAdmits(w, r.claims, h)
            && (MandateAdmits(w, o.claims, h) <==> Admits(w, c, h))
  {
    hide Outcome, MandateAdmits, Admits, IsRef, Strict, ShapeOf, Original, Copied, Silent, Satisfies, TypeOf, FamilyOf;
    SkipIsVerified(c, x, jwk);
    SkippedTerms(c, x, jwk, w, h);
  }

  lemma SkipIsVerified(c: Json, x: Json, jwk: Json)
    requires Strict(c) && Strict(x) && jwk.Obj? && ShapeOf(c).WellFormed? && SameType(c, x) && ShapeOf(x).UnknownName?
    ensures Outcome(Original(c, x, jwk), Copied(x, jwk)) == Some(Verified)
  {
    hide ShapeOf, Strict, Canon, Mandate, UnionKeys, KeysReasons, OriginalReasons, AllAdded, FamilyOf, OpenContentKeys, IsRef, Hashable;
    WellFormedType(c);
    SkipFindsNothing(c, x);
    MandateReads([c, x]);
    MandateReads([x]);
    MandateKeysClear([c, x], [x], OpenContentKeys("mandate.checkout.open.1").value);
    TypesAreHashable([c, x]);
  }

  lemma TypesAreHashable(cs: seq<Json>)
    requires forall i :: 0 <= i < |cs| ==> TypeOf(cs[i]).Some?
    ensures Hashable(cs)
  {}

  lemma SkippedTerms(c: Json, x: Json, jwk: Json, w: World, h: History)
    requires ShapeOf(c).WellFormed? && SameType(c, x) && ShapeOf(x).UnknownName? && Silent(w, h)
    ensures MandateAdmits(w, Copied(x, jwk).claims, h)
    ensures MandateAdmits(w, Original(c, x, jwk).claims, h) <==> Admits(w, c, h)
  {
    hide ShapeOf, Canon, Satisfies, MandateAdmits, Mandate, FamilyOf, TypeOf, IsRef, Silent;
    WellFormedType(c);
    FamilyIsNoRef(c);
    FamilyIsNoRef(x);
    MandateIsItsTerms(w, [x], h);
    MandateIsItsTerms(w, [c, x], h);
    TermsAdmit(w, c, x, h);
  }

  lemma TermsAdmit(w: World, c: Json, x: Json, h: History)
    requires ShapeOf(x).UnknownName? && Silent(w, h) && !IsRef(c) && !IsRef(x)
    ensures AllAdmit(w, [x], h) && (AllAdmit(w, [c, x], h) <==> Admits(w, c, h))
  {
    hide ShapeOf, Canon, Satisfies, IsRef;
    assert [c, x][0] == c && [c, x][1] == x && [x][0] == x;
  }

  function Original(c: Json, x: Json, jwk: Json): Artifact { Artifact(jwk, Some(0), false, Mandate([c, x])) }

  function Copied(x: Json, jwk: Json): Artifact { Artifact(jwk, Some(0), false, Mandate([x])) }

  /** So such a verified record is broader than its original, in a world where everything else lets pass, exactly when the
      constraint it dropped restrains at all: always, but for a date constraint whose only bound is a lower one reading zero. */
  lemma SkipIsBroader(c: Json, x: Json, jwk: Json)
    requires Strict(c) && Strict(x) && jwk.Obj?
    requires ShapeOf(c).WellFormed? && SameType(c, x) && ShapeOf(x).UnknownName?
    ensures Outcome(Original(c, x, jwk), Copied(x, jwk)) == Some(Verified)
    ensures Restrains(c) <==>
              exists w, h :: Ordered(w) && Silent(w, h) && MandateAdmits(w, Copied(x, jwk).claims, h)
                             && !MandateAdmits(w, Original(c, x, jwk).claims, h)
  {
    hide ShapeOf, Strict, Admits, MandateAdmits, Original, Copied, Outcome, Restrains, Silent, Ordered, SameType, Strange,
         Outside;
    var w, h := Strange(Outside(c)), [Odd(c), Odd(c)];
    StrangeIsSilent(Outside(c), h);
    SkipAdmitsMore(c, x, jwk, w, h);
    if Restrains(c) {
      RestrainedRefuses(c);
    } else {
      forall w, h | Silent(w, h) ensures MandateAdmits(w, Original(c, x, jwk).claims, h) {
        SkipAdmitsMore(c, x, jwk, w, h);
        UnrestrainedAdmits(c, w, h);
      }
    }
  }

  lemma SkipFindsNothing(c: Json, x: Json)
    requires Strict(c) && Strict(x)
    requires ShapeOf(c).WellFormed? && SameType(c, x) && ShapeOf(x).UnknownName?
    ensures OriginalReasons([c, x], [x], "") == [] && AllAdded([x], [c, x], "").0 == []
  {
    hide ShapeOf, Strict, Canon, Within, TypeOf, IsRef, ConstraintPlace, AddedPlace, Same;
    var oc, rc := [c, x], [x];
    if Canon(c) == Canon(x) {
      CanonSame(c, x);
      ShapeSame(c, x);
      assert false;
    }
    assert x in rc && x in oc && Canon(x) in CanonSet(rc) && Canon(x) in CanonSet(oc) && Canon(c) !in CanonSet(rc);
    assert SameType(c, rc[0]) && ShapeOf(rc[0]).UnknownName?;
    assert forall i :: 0 <= i < |rc| ==> !Meets(c, rc[i], Some(true));
    OriginalsClear(oc, rc, "");
    AddedClear(rc, oc, "");
  }

  /** One such record: a range up to 10 beside one up to 100 with an unknown name, which R alone keeps, admits 50. */
  lemma SkipAdmitsFifty()
    ensures var c := Obj([Member("type", Str("payment.amount_range")), Member("currency", Str("USD")), Member("max", Num(10))]);
            var x := Obj([Member("type", Str("payment.amount_range")), Member("currency", Str("USD")), Member("max", Num(100)),
                          Member("note", Null)]);
            var h := [Use("USD", 50, 0, "", map[], [])];
            var o := Artifact(Obj([]), Some(0), false, Mandate([c, x]));
            var r := Artifact(Obj([]), Some(0), false, Mandate([x]));
            Outcome(o, r) == Some(Verified)
            && MandateAdmits(Lenient(), r.claims, h) && !MandateAdmits(Lenient(), o.claims, h)
  {
    hide MandateAdmits, Outcome, Mandate, OpenContentKeys, ShapeOf, Admits, Strict, IntAt, TypeOf;
    var t, m := Member("type", Str("payment.amount_range")), Member("currency", Str("USD"));
    var c := Obj([t, m, Member("max", Num(10))]);
    var x := Obj([t, m, Member("max", Num(100)), Member("note", Null)]);
    var h := [Use("USD", 50, 0, "", map[], [])];
    RangeShape([t, m, Member("max", Num(10))], 10);
    RangeShape([t, m, Member("max", Num(100)), Member("note", Null)], 100);
    FiftyIsRefused(c, h);
    SkipAdmitsMore(c, x, Obj([]), Lenient(), h);
  }

  lemma FiftyIsRefused(c: Json, h: History)
    requires ShapeOf(c).WellFormed? && TypeOf(c) == Some("payment.amount_range") && IntAt(c, "max") == 10
    requires |h| == 1 && h[0].amount == 50
    ensures !Admits(Lenient(), c, h)
  {
    hide ShapeOf, TypeOf, IntAt;
    assert !InRange(c, h[0]);
  }

  ghost predicate Range(ms: seq<Member>, max: int) {
    && 3 <= |ms| <= 4 && -SAFE_INT <= max <= SAFE_INT
    && ms[0] == Member("type", Str("payment.amount_range")) && ms[1] == Member("currency", Str("USD"))
    && ms[2] == Member("max", Num(max)) && (|ms| == 4 ==> ms[3] == Member("note", Null))
  }

  lemma RangeIsStrict(ms: seq<Member>, max: int)
    requires Range(ms, max)
    ensures Strict(Obj(ms))
  {
    forall i, j | 0 <= i < j < |ms| ensures KeySeq(ms)[i] != KeySeq(ms)[j] {
      assert |ms[0].key| == 4 && |ms[1].key| == 8 && |ms[2].key| == 3;
      assert |ms| == 4 ==> ms[3].key[0] != ms[0].key[0];
    }
  }

  lemma RangeReads(ms: seq<Member>, max: int)
    requires Range(ms, max)
    ensures Lookup(ms, "type") == Some(Str("payment.amount_range")) && Lookup(ms, "currency") == Some(Str("USD"))
    ensures Lookup(ms, "max") == Some(Num(max)) && Lookup(ms, "min") == None
    ensures forall k :: Lookup(ms, k).Some? <==> k in ["type", "currency", "max"] || (|ms| == 4 && k == "note")
  {
    hide Lookup;
    RangeIsStrict(ms, max);
    LookupUnique(ms, ms[0]);
    LookupUnique(ms, ms[1]);
    LookupUnique(ms, ms[2]);
    forall k ensures Lookup(ms, k).Some? <==> k in ["type", "currency", "max"] || (|ms| == 4 && k == "note") {
      RangeKeys(ms, k);
    }
    assert "min" !in ["type", "currency", "max"];
  }

  lemma RangeShape(ms: seq<Member>, max: int)
    requires Range(ms, max)
    ensures Strict(Obj(ms)) && TypeOf(Obj(ms)) == Some("payment.amount_range") && IntAt(Obj(ms), "max") == max
    ensures if |ms| == 3 then ShapeOf(Obj(ms)).WellFormed? else ShapeOf(Obj(ms)).UnknownName?
  {
    hide Lookup, Strict, ShapeOf;
    var c := Obj(ms);
    RangeIsStrict(ms, max);
    RangeReads(ms, max);
    assert TypesRight(c, AmountRange);
    RangeNames(ms, max);
    ShapeMeans(c, "payment.amount_range", AmountRange);
  }

  lemma RangeNames(ms: seq<Member>, max: int)
    requires Range(ms, max)
    ensures Known(Obj(ms), AmountRange) <==> |ms| == 3
  {
    hide Lookup;
    RangeReads(ms, max);
    assert KnownNames(AmountRange) == ["type", "currency", "max", "min"];
    assert "note" !in KnownNames(AmountRange);
    assert |ms| == 4 ==> Field(Obj(ms), "note").Some?;
  }

  lemma RangeKeys(ms: seq<Member>, k: string)
    requires 3 <= |ms| <= 4 && ms[0].key == "type" && ms[1].key == "currency" && ms[2].key == "max" && (|ms| == 4 ==> ms[3].key == "note")
    ensures Lookup(ms, k).Some? <==> k in ["type", "currency", "max"] || (|ms| == 4 && k == "note")
  {
    hide Lookup;
    if Lookup(ms, k).Some? {
      var i :| 0 <= i < |ms| && ms[i].key == k;
    } else {
      assert forall i :: 0 <= i < |ms| ==> ms[i].key != k;
    }
  }
}
