/** The restriction profile as its tables state it, name by name, and the proof that the evaluation gives exactly the
    reasons and the reports they prescribe. */
module RestrictionProfile {
  import opened Values
  import opened CanonicalJson
  import opened CanonicalOrder
  import opened Jwk
  import opened Restriction
  import opened RestrictionMeaning
  import opened RestrictionLaws

  // ------------------------------------------------------------------ the rules of the keys

  ghost predicate Equals(vo: Option<Json>, vr: Option<Json>) { CanonOf(vo) == CanonOf(vr) }

  /** A registered claim that is there with a value of another type. */
  ghost predicate Mistyped(k: string, v: Option<Json>) {
    v.Some? && if k == "jti" then !v.value.Str? else k in {"exp", "nbf", "iat"} && !v.value.Num?
  }

  /** A later end, or an earlier start, than the original's. */
  ghost predicate Widens(k: string, vo: Option<Json>, vr: Option<Json>)
    requires k in {"exp", "nbf"} && !Mistyped(k, vo) && !Mistyped(k, vr)
  {
    vo.Some? && (vr.None? || if k == "exp" then vo.value.n < vr.value.n else vr.value.n < vo.value.n)
  }

  /** A name without a rule: the claim must be there on both sides, and equal. */
  ghost predicate UnknownSays(at: string, vo: Option<Json>, vr: Option<Json>, x: Reason) {
    x == Reason(NotEvaluated, UnknownNameFound, (if vo.Some? then "original." else "restriction.") + at)
    && !(vo.Some? && vr.Some? && Equals(vo, vr))
  }

  /** What is said of one claim of the payload. */
  ghost predicate ClaimSays(k: string, at: string, vo: Option<Json>, vr: Option<Json>, x: Reason) {
    || (x == Reason(NotEvaluated, OriginalMalformed, "original." + at) && Mistyped(k, vo))
    || (x == Reason(Contradicted, Malformed, "restriction." + at) && Mistyped(k, vr)
        && (k in {"exp", "nbf"} ==> !Mistyped(k, vo)))
    || (x == Reason(Contradicted, TimeWidened, "restriction." + at)
        && k in {"exp", "nbf"} && !Mistyped(k, vo) && !Mistyped(k, vr) && Widens(k, vo, vr))
    || (x == Reason(Contradicted, CnfDiffers, "restriction." + at) && k == "cnf" && !Equals(vo, vr))
    || (x == Reason(Contradicted, ClaimChanged, "restriction." + at) && k in {"iss", "sub", "aud", "vct"} && !Equals(vo, vr))
    || (k !in {"exp", "nbf", "cnf", "iss", "sub", "aud", "vct", "iat", "jti"} && UnknownSays(at, vo, vr, x))
  }

  /** What is said of one value of the Mandate Content, whose kind is `vct`. */
  ghost predicate ContentSays(form: Form, vct: string, k: string, at: string, vo: Option<Json>, vr: Option<Json>, x: Reason) {
    if k in {"vct", "constraints"} then false
    else if k in {"cnf", "exp", "iat"} then ClaimSays(k, at, vo, vr, x)
    else if vct == "mandate.payment.open.1"
            && k in {"payee", "payment_amount", "payment_instrument", "pisp", "execution_date", "risk_data"} then
      x == Reason(Contradicted, PresetChanged, "restriction." + at) && vo.Some? && !Equals(vo, vr)
    else if form.InPayload? then ClaimSays(k, at, vo, vr, x)
    else UnknownSays(at, vo, vr, x)
  }

  lemma TimeRuleSays(k: string, vo: Option<Json>, vr: Option<Json>, prefix: string, x: Reason)
    requires k == "exp" || k == "nbf"
    ensures x in KeyReasons(TopRule(k), k, vo, vr, prefix) <==> ClaimSays(k, prefix + k, vo, vr, x)
  {
    hide CanonOf;
    assert "original." + prefix + k == "original." + (prefix + k);
    assert "restriction." + prefix + k == "restriction." + (prefix + k);
  }

  lemma EqualRuleSays(k: string, vo: Option<Json>, vr: Option<Json>, prefix: string, x: Reason)
    requires k in {"cnf", "iss", "sub", "aud", "vct"}
    ensures x in KeyReasons(TopRule(k), k, vo, vr, prefix) <==> ClaimSays(k, prefix + k, vo, vr, x)
  {
    hide Canon, IsKind;
    assert "original." + prefix + k == "original." + (prefix + k);
    assert "restriction." + prefix + k == "restriction." + (prefix + k);
  }

  lemma TypedRuleSays(k: string, vo: Option<Json>, vr: Option<Json>, prefix: string, x: Reason)
    requires k == "iat" || k == "jti"
    ensures x in KeyReasons(TopRule(k), k, vo, vr, prefix) <==> ClaimSays(k, prefix + k, vo, vr, x)
  {
    hide CanonOf;
    assert "original." + prefix + k == "original." + (prefix + k);
    assert "restriction." + prefix + k == "restriction." + (prefix + k);
  }

  lemma NoRuleSays(k: string, vo: Option<Json>, vr: Option<Json>, prefix: string, x: Reason)
    requires k !in {"exp", "nbf", "cnf", "iss", "sub", "aud", "vct", "iat", "jti"}
    ensures x in KeyReasons(TopRule(k), k, vo, vr, prefix) <==> ClaimSays(k, prefix + k, vo, vr, x)
  {
    hide Canon, IsKind;
    assert "original." + prefix + k == "original." + (prefix + k);
    assert "restriction." + prefix + k == "restriction." + (prefix + k);
  }

  lemma ClaimRuleSays(k: string, vo: Option<Json>, vr: Option<Json>, prefix: string, x: Reason)
    ensures x in KeyReasons(TopRule(k), k, vo, vr, prefix) <==> ClaimSays(k, prefix + k, vo, vr, x)
  {
    hide KeyReasons, TopRule, ClaimSays;
    if k == "exp" || k == "nbf" {
      TimeRuleSays(k, vo, vr, prefix, x);
    } else if k in {"cnf", "iss", "sub", "aud", "vct"} {
      EqualRuleSays(k, vo, vr, prefix, x);
    } else if k == "iat" || k == "jti" {
      TypedRuleSays(k, vo, vr, prefix, x);
    } else {
      NoRuleSays(k, vo, vr, prefix, x);
    }
  }

  lemma PayloadKeySays(k: string, vo: Option<Json>, vr: Option<Json>, prefix: string, x: Reason)
    ensures x in KeyReasons(PayloadRules.For(k), k, vo, vr, prefix)
       <==> k != "delegate_payload" && ClaimSays(k, prefix + k, vo, vr, x)
  {
    hide Canon, TopRule;
    ClaimRuleSays(k, vo, vr, prefix, x);
  }

  lemma KnownContent(vct: string, k: string)
    requires OpenContentKeys(vct).Some?
    ensures vct == "mandate.payment.open.1" || vct == "mandate.checkout.open.1"
    ensures k in OpenContentKeys(vct).value <==>
            || k in {"vct", "constraints", "cnf", "exp", "iat"}
            || (vct == "mandate.payment.open.1" &&
                k in {"payee", "payment_amount", "payment_instrument", "pisp", "execution_date", "risk_data"})
  {}

  lemma ContentKeySays(form: Form, vct: string, k: string, vo: Option<Json>, vr: Option<Json>, prefix: string, x: Reason)
    requires OpenContentKeys(vct).Some?
    ensures x in KeyReasons(ContentRules(form, OpenContentKeys(vct).value).For(k), k, vo, vr, prefix)
       <==> ContentSays(form, vct, k, prefix + k, vo, vr, x)
  {
    hide Canon, OpenContentKeys, TopRule, ClaimSays;
    KnownContent(vct, k);
    ClaimRuleSays(k, vo, vr, prefix, x);
    assert "original." + prefix + k == "original." + (prefix + k);
    assert "restriction." + prefix + k == "restriction." + (prefix + k);
  }

  lemma {:induction false} KeysSay(ks: seq<string>, o: seq<Member>, r: seq<Member>, rules: Rules, prefix: string, x: Reason)
    ensures x in KeysReasons(ks, o, r, rules, prefix)
       <==> exists i :: 0 <= i < |ks| && x in KeyReasons(rules.For(ks[i]), ks[i], Lookup(o, ks[i]), Lookup(r, ks[i]), prefix)
    decreases |ks|
  {
    hide KeyReasons, Rules.For, Lookup;
    if ks != [] {
      var n := |ks| - 1;
      KeysSay(ks[..n], o, r, rules, prefix, x);
      assert forall i :: 0 <= i < n ==> ks[..n][i] == ks[i];
    }
  }

  /** The keys either object has, each once. */
  lemma UnionSays(o: seq<Member>, r: seq<Member>, rules: Rules, prefix: string, x: Reason)
    ensures x in KeysReasons(UnionKeys(o, r), o, r, rules, prefix)
       <==> exists k :: (Has(o, k) || Has(r, k)) && x in KeyReasons(rules.For(k), k, Lookup(o, k), Lookup(r, k), prefix)
  {
    hide KeyReasons, Rules.For, UnionKeys;
    var ks := UnionKeys(o, r);
    KeysSay(ks, o, r, rules, prefix, x);
    forall k ensures k in ks <==> Has(o, k) || Has(r, k) { UnionIsEither(o, r, k); }
    if i :| 0 <= i < |ks| && x in KeyReasons(rules.For(ks[i]), ks[i], Lookup(o, ks[i]), Lookup(r, ks[i]), prefix) {
      assert ks[i] in ks;
    }
    if k :| (Has(o, k) || Has(r, k)) && x in KeyReasons(rules.For(k), k, Lookup(o, k), Lookup(r, k), prefix) {
      assert k in ks;
    }
  }

  // ------------------------------------------------------------------ the shape of a constraint

  predicate IsText(c: Json, k: string) { Field(c, k).Some? && Field(c, k).value.Str? }

  predicate IsWhole(c: Json, k: string) { Field(c, k).Some? && Field(c, k).value.Num? }

  predicate IsObjects(c: Json, k: string) {
    Field(c, k).Some? && Field(c, k).value.Arr? &&
    forall i :: 0 <= i < |Field(c, k).value.items| ==> Field(c, k).value.items[i].Obj?
  }

  predicate IsAbsent(c: Json, k: string) { Field(c, k).None? }

  /** The first name whose check fails. */
  function FirstOf(checks: seq<(string, bool)>): Option<string> {
    if checks == [] then None else if !checks[0].1 then Some(checks[0].0) else FirstOf(checks[1..])
  }

  /** How rare the uses of a frequency are, from 0 on; None: no frequency. */
  function Rarity(f: string): Option<nat> {
    if f == "ON_DEMAND" then Some(0) else if f == "DAILY" then Some(1) else if f == "WEEKLY" then Some(2)
    else if f == "BIWEEKLY" then Some(3) else if f == "MONTHLY" then Some(4) else if f == "QUARTERLY" then Some(5)
    else if f == "ANNUALLY" then Some(6) else None
  }

  predicate IsFrequency(c: Json, k: string) { IsText(c, k) && Rarity(Field(c, k).value.s).Some? }

  predicate IsPartyList(t: string) {
    t in {"payment.allowed_payees", "payment.allowed_payment_instruments", "payment.allowed_pisps", "checkout.allowed_merchants"}
  }

  predicate IsConstraint(t: string) {
    IsPartyList(t) ||
    t in {"payment.amount_range", "payment.budget", "payment.agent_recurrence", "payment.execution_date", "payment.reference",
          "checkout.line_items"}
  }

  /** The names a constraint may have beside `type`, in the order they are checked, each with its check. */
  function Checks(t: string, c: Json): seq<(string, bool)> {
    if t == "payment.amount_range" then
      [("currency", IsText(c, "currency")), ("max", IsWhole(c, "max")), ("min", IsAbsent(c, "min") || IsWhole(c, "min"))]
    else if t == "payment.budget" then [("currency", IsText(c, "currency")), ("max", IsWhole(c, "max"))]
    else if t == "payment.agent_recurrence" then
      [("frequency", IsFrequency(c, "frequency")),
       ("max_occurrences", IsAbsent(c, "max_occurrences") || IsWhole(c, "max_occurrences"))]
    else if t == "payment.execution_date" then
      [("not_before", IsAbsent(c, "not_before") || IsText(c, "not_before")),
       ("not_after", IsAbsent(c, "not_after") || IsText(c, "not_after"))]
    else if t == "payment.reference" then [("conditional_transaction_id", IsText(c, "conditional_transaction_id"))]
    else if t == "checkout.line_items" then [("items", IsObjects(c, "items") && Field(c, "items").value.items != [])]
    else [("allowed", IsObjects(c, "allowed"))]
  }

  function Lines(t: string, c: Json): seq<Json> { if t == "checkout.line_items" then ListAt(c, "items") else [] }

  predicate LineOk(it: Json) {
    IsText(it, "id") && IsObjects(it, "acceptable_items") && IsWhole(it, "quantity") && Field(it, "quantity").value.n > 0
  }

  function LinePlace(i: nat): string { "items[" + PrintNat(i) + "]" }

  ghost predicate FirstBadLine(lines: seq<Json>, i: nat) {
    i < |lines| && !LineOk(lines[i]) && forall j :: 0 <= j < i ==> LineOk(lines[j])
  }

  ghost predicate Unknown(c: Json, t: string, k: string) {
    Field(c, k).Some? && k != "type" && forall i :: 0 <= i < |Checks(t, c)| ==> Checks(t, c)[i].0 != k
  }

  ghost predicate UnknownInLine(it: Json, k: string) { Field(it, k).Some? && k !in {"acceptable_items", "id", "quantity"} }

  ghost predicate FirstUnknown(c: Json, t: string, k: string) {
    Unknown(c, t, k) && forall l :: Unknown(c, t, l) ==> !Below(l, k)
  }

  ghost predicate FirstUnknownLine(lines: seq<Json>, i: nat, k: string) {
    && i < |lines| && UnknownInLine(lines[i], k) && (forall l :: UnknownInLine(lines[i], l) ==> !Below(l, k))
    && forall j, l :: 0 <= j < i ==> !UnknownInLine(lines[j], l)
  }

  /** The shape the table gives a constraint: its type, the first check that fails, the first line that is wrong, the
      first unknown name in code point order, the first line with one. */
  ghost predicate Shaped(c: Json, s: Shape) {
    if !IsText(c, "type") then s == Misformed("type")
    else
      var t := Field(c, "type").value.s;
      if !IsConstraint(t) then s == UnknownType(t)
      else
        match s
        case UnknownType(_) => false
        case Misformed(what) =>
          if FirstOf(Checks(t, c)).Some? then what == FirstOf(Checks(t, c)).value
          else exists i :: FirstBadLine(Lines(t, c), i) && what == LinePlace(i)
        case UnknownName(what) =>
          && FirstOf(Checks(t, c)).None? && (forall i :: 0 <= i < |Lines(t, c)| ==> LineOk(Lines(t, c)[i]))
          && (|| FirstUnknown(c, t, what)
              || ((forall k :: !Unknown(c, t, k)) &&
                  exists i, k :: FirstUnknownLine(Lines(t, c), i, k) && what == LinePlace(i) + "." + k))
        case WellFormed =>
          && FirstOf(Checks(t, c)).None? && (forall i :: 0 <= i < |Lines(t, c)| ==> LineOk(Lines(t, c)[i]))
          && (forall k :: !Unknown(c, t, k))
          && forall i, k :: 0 <= i < |Lines(t, c)| ==> !UnknownInLine(Lines(t, c)[i], k)
  }

  lemma FrequencyIndex(f: string)
    ensures f in FREQ_ORDER <==> Rarity(f).Some?
    ensures Rarity(f).Some? ==> IndexOf(f, FREQ_ORDER) == Rarity(f).value
  {
    var all := ["ON_DEMAND", "DAILY", "WEEKLY", "BIWEEKLY", "MONTHLY", "QUARTERLY", "ANNUALLY"];
    assert FREQ_ORDER == all;
    assert f in all <==> f == all[0] || f == all[1] || f == all[2] || f == all[3] || f == all[4] || f == all[5] || f == all[6];
    assert IndexOf(f, all[7..]) == 0;
    assert all[6..][1..] == all[7..] && all[5..][1..] == all[6..] && all[4..][1..] == all[5..];
    assert all[3..][1..] == all[4..] && all[2..][1..] == all[3..] && all[1..][1..] == all[2..];
    assert IndexOf(f, all[6..]) == if f == all[6] then 0 else 1;
    assert IndexOf(f, all[5..]) == if f == all[5] then 0 else 1 + IndexOf(f, all[6..]);
    assert IndexOf(f, all[4..]) == if f == all[4] then 0 else 1 + IndexOf(f, all[5..]);
    assert IndexOf(f, all[3..]) == if f == all[3] then 0 else 1 + IndexOf(f, all[4..]);
    assert IndexOf(f, all[2..]) == if f == all[2] then 0 else 1 + IndexOf(f, all[3..]);
    assert IndexOf(f, all[1..]) == if f == all[1] then 0 else 1 + IndexOf(f, all[2..]);
  }

  lemma TypeTable(t: string)
    ensures FamilyOf(t).Some? <==> IsConstraint(t)
    ensures FamilyOf(t) == Some(LineItems) <==> t == "checkout.line_items"
  {}

  /** A list of checks and a list of keys of the schema say the same. */
  ghost predicate Aligned(c: Json, cs: seq<(string, bool)>, ks: Keys, required: bool) {
    |cs| == |ks| && forall i :: 0 <= i < |cs| ==> cs[i] == (ks[i].0, !BadAt(c, ks[i], required))
  }

  lemma FamilyNames(t: string, f: Family)
    requires FamilyOf(t) == Some(f)
    ensures match f
            case AmountRange => t == "payment.amount_range"
            case Budget => t == "payment.budget"
            case Recurrence => t == "payment.agent_recurrence"
            case Allowed => IsPartyList(t)
            case ExecutionDate => t == "payment.execution_date"
            case Reference => t == "payment.reference"
            case LineItems => t == "checkout.line_items"
  {}

  /** The row of each type: its checks are those of the schema of its family. */
  ghost predicate Row(t: string, c: Json, f: Family) {
    && |RequiredKeys(f)| <= |Checks(t, c)|
    && Aligned(c, Checks(t, c)[..|RequiredKeys(f)|], RequiredKeys(f), true)
    && Aligned(c, Checks(t, c)[|RequiredKeys(f)|..], OptionalKeys(f), false)
  }

  lemma AmountRangeRow(c: Json)
    ensures Row("payment.amount_range", c, AmountRange)
  {
    hide Field;
  }

  lemma BudgetRow(c: Json)
    ensures Row("payment.budget", c, Budget)
  {
    hide Field;
  }

  lemma RecurrenceRow(c: Json)
    ensures Row("payment.agent_recurrence", c, Recurrence)
  {
    hide Field, FREQ_ORDER, Rarity;
    if IsText(c, "frequency") { FrequencyIndex(Field(c, "frequency").value.s); }
  }

  lemma AllowedRow(t: string, c: Json)
    requires IsPartyList(t)
    ensures Row(t, c, Allowed)
  {
    hide IsPartyList, Field;
    PartyListIs(t);
    assert Checks(t, c) == [("allowed", IsObjects(c, "allowed"))];
  }

  lemma ExecutionDateRow(c: Json)
    ensures Row("payment.execution_date", c, ExecutionDate)
  {
    hide Field;
  }

  lemma ReferenceRow(c: Json)
    ensures Row("payment.reference", c, Reference)
  {
    hide Field;
  }

  lemma LineItemsRow(c: Json)
    ensures Row("checkout.line_items", c, LineItems)
  {
    hide Field;
  }

  lemma TableAligned(t: string, c: Json, f: Family)
    requires FamilyOf(t) == Some(f)
    ensures Row(t, c, f)
  {
    hide Row, IsPartyList, FamilyOf;
    FamilyNames(t, f);
    match f {
      case AmountRange => AmountRangeRow(c);
      case Budget => BudgetRow(c);
      case Recurrence => RecurrenceRow(c);
      case Allowed => AllowedRow(t, c);
      case ExecutionDate => ExecutionDateRow(c);
      case Reference => ReferenceRow(c);
      case LineItems => LineItemsRow(c);
    }
  }

  lemma {:induction false} FirstAligned(c: Json, cs: seq<(string, bool)>, ks: Keys, required: bool, rest: seq<(string, bool)>)
    requires Aligned(c, cs, ks, required)
    ensures FirstOf(cs + rest) == match FirstBad(c, ks, required) case Some(k) => Some(k) case None => FirstOf(rest)
    decreases |cs|
  {
    hide BadAt;
    if cs == [] {
      assert cs + rest == rest;
    } else {
      assert (cs + rest)[1..] == cs[1..] + rest;
      FirstAligned(c, cs[1..], ks[1..], required, rest);
    }
  }

  /** The checks in their order are those of the required keys, then those of the optional ones. */
  lemma ChecksInOrder(t: string, c: Json, f: Family)
    requires FamilyOf(t) == Some(f)
    ensures FirstOf(Checks(t, c)) ==
            match FirstBad(c, RequiredKeys(f), true) case Some(k) => Some(k) case None => FirstBad(c, OptionalKeys(f), false)
  {
    hide Checks, RequiredKeys, OptionalKeys, Aligned;
    TableAligned(t, c, f);
    var cs, n := Checks(t, c), |RequiredKeys(f)|;
    assert cs == cs[..n] + cs[n..] && cs[n..] == cs[n..] + [];
    FirstAligned(c, cs[..n], RequiredKeys(f), true, cs[n..]);
    FirstAligned(c, cs[n..], OptionalKeys(f), false, []);
  }

  lemma NamesInOrder(t: string, c: Json, f: Family, k: string)
    requires FamilyOf(t) == Some(f)
    ensures k in KnownNames(f) <==> k == "type" || exists i :: 0 <= i < |Checks(t, c)| && Checks(t, c)[i].0 == k
  {
    hide Checks, RequiredKeys, OptionalKeys, BadAt;
    TableAligned(t, c, f);
    var cs, ks := Checks(t, c), RequiredKeys(f) + OptionalKeys(f);
    assert KnownNames(f) == ["type"] + Names(ks);
    forall i | 0 <= i < |cs| ensures cs[i].0 == Names(ks)[i] {
      if i < |RequiredKeys(f)| { assert cs[i] == cs[..|RequiredKeys(f)|][i]; }
      else { assert cs[i] == cs[|RequiredKeys(f)|..][i - |RequiredKeys(f)|]; }
    }
    if i :| 0 <= i < |cs| && cs[i].0 == k { assert KnownNames(f)[i + 1] == k; }
  }

  lemma {:induction false} StrangeMembers(ms: seq<Member>, known: seq<string>, k: string)
    requires UniqueKeys(ms)
    ensures UniqueKeys(Restriction.Strange(ms, known))
    ensures Has(Restriction.Strange(ms, known), k) <==> Has(ms, k) && k !in known
    decreases |ms|
  {
    if ms != [] {
      TailIsUnique(ms);
      StrangeMembers(ms[1..], known, k);
      StrangeMembers(ms[1..], known, ms[0].key);
      HasHead(ms, k);
      var rest := Restriction.Strange(ms[1..], known);
      if ms[0].key !in known {
        assert Restriction.Strange(ms, known) == [ms[0]] + rest;
        HasHead([ms[0]] + rest, k);
        forall i | 0 <= i < |rest| ensures rest[i].key != ms[0].key { assert Has(rest, rest[i].key); }
        UniqueCons(ms[0], rest);
      }
    }
  }

  lemma HasHead(ms: seq<Member>, k: string)
    requires ms != []
    ensures Has(ms, k) <==> ms[0].key == k || Has(ms[1..], k)
  {
    if i :| 0 < i < |ms| && ms[i].key == k { assert ms[1..][i - 1].key == k; }
    if i :| 0 <= i < |ms[1..]| && ms[1..][i].key == k { assert ms[i + 1].key == k; }
  }

  lemma UniqueCons(m: Member, ms: seq<Member>)
    requires UniqueKeys(ms) && forall i :: 0 <= i < |ms| ==> ms[i].key != m.key
    ensures UniqueKeys([m] + ms)
  {
    var all := [m] + ms;
    forall i, j | 0 <= i < j < |all| ensures KeySeq(all)[i] != KeySeq(all)[j] {
      if i > 0 { assert KeySeq(ms)[i - 1] != KeySeq(ms)[j - 1]; }
    }
  }

  /** The unknown name reported is the least one in code point order. */
  lemma StrangeIsLeast(c: Json, known: seq<string>)
    requires Valid(c)
    ensures match StrangeName(c, known)
            case None => forall k :: Field(c, k).Some? ==> k in known
            case Some(k) => Field(c, k).Some? && k !in known && forall l :: Field(c, l).Some? && l !in known ==> !Below(l, k)
  {
    hide Below, Sort;
    if c.Obj? {
      var ms := Restriction.Strange(c.members, known);
      forall k ensures Has(ms, k) <==> Field(c, k).Some? && k !in known { StrangeMembers(c.members, known, k); }
      if ms == [] {
        forall k | Field(c, k).Some? ensures k in known { assert !Has(ms, k); }
      } else {
        StrangeMembers(c.members, known, "");
        LeastOfSorted(ms);
      }
    }
  }

  lemma LeastOfSorted(ms: seq<Member>)
    requires UniqueKeys(ms) && ms != []
    ensures Has(ms, Sort(ms)[0].key) && forall l :: Has(ms, l) ==> !Below(l, Sort(ms)[0].key)
  {
    hide Below;
    SortSorts(ms);
    var s := Sort(ms);
    assert s[0] in multiset(ms);
    forall l | Has(ms, l) ensures !Below(l, s[0].key) {
      var i :| 0 <= i < |ms| && ms[i].key == l;
      assert ms[i] in multiset(s);
      var j :| 0 <= j < |s| && s[j] == ms[i];
      BelowIsTotal(l, s[0].key);
      assert j > 0 ==> Below(s[0].key, l);
    }
  }

  lemma {:induction false} BadLineFound(lines: seq<Json>, i: nat)
    requires forall j :: 0 <= j < i && j < |lines| ==> LineOk(lines[j])
    ensures match FirstBadItem(lines, i)
            case None => forall j :: 0 <= j < |lines| ==> LineOk(lines[j])
            case Some(place) => exists j :: FirstBadLine(lines, j) && place == LinePlace(j)
    decreases |lines| - i
  {
    hide LineOk, ItemOk, PrintNat;
    if i < |lines| {
      LineIsItem(lines[i]);
      if LineOk(lines[i]) { BadLineFound(lines, i + 1); } else { assert FirstBadLine(lines, i); }
    }
  }

  lemma LineIsItem(it: Json)
    ensures LineOk(it) <==> ItemOk(it)
  {
    hide Lookup;
  }

  lemma {:induction false} UnknownLineFound(lines: seq<Json>, i: nat)
    requires forall j :: 0 <= j < |lines| ==> Valid(lines[j])
    requires forall j, k :: 0 <= j < i && j < |lines| ==> !UnknownInLine(lines[j], k)
    ensures match FirstStrangeItem(lines, i)
            case None => forall j, k :: 0 <= j < |lines| ==> !UnknownInLine(lines[j], k)
            case Some(what) => exists j, k :: FirstUnknownLine(lines, j, k) && what == LinePlace(j) + "." + k
    decreases |lines| - i
  {
    hide PrintNat, Below, Field, StrangeName, Valid;
    if i < |lines| {
      StrangeIsLeast(lines[i], LINE_ITEM_KEYS);
      match StrangeName(lines[i], LINE_ITEM_KEYS)
      case Some(k) =>
        assert FirstUnknownLine(lines, i, k);
      case None =>
        forall k ensures !UnknownInLine(lines[i], k) {}
        UnknownLineFound(lines, i + 1);
    }
  }

  /** The constraint is judged as the table says. */
  lemma ShapeIsTheTable(c: Json)
    requires Valid(c)
    ensures Shaped(c, ShapeOf(c))
  {
    hide FirstBad, FirstBadItem, StrangeName, FirstStrangeItem, Checks, FirstOf, LineOk, FamilyOf, IsConstraint, Below,
         FirstBadLine, FirstUnknownLine, UnknownInLine, PrintNat, KnownNames, Lookup;
    if IsText(c, "type") {
      var t := Field(c, "type").value.s;
      TypeTable(t);
      if IsConstraint(t) {
        var f := FamilyOf(t).value;
        ChecksInOrder(t, c, f);
        var lines := Lines(t, c);
        BadLineFound(lines, 0);
        StrangeIsLeast(c, KnownNames(f));
        forall k ensures Unknown(c, t, k) <==> Field(c, k).Some? && k !in KnownNames(f) { NamesInOrder(t, c, f, k); }
        LinesAreValid(t, c);
        UnknownLineFound(lines, 0);
      }
    }
  }

  lemma LinesAreValid(t: string, c: Json)
    requires Valid(c)
    ensures forall i :: 0 <= i < |Lines(t, c)| ==> Valid(Lines(t, c)[i])
  {
    if t == "checkout.line_items" && Field(c, "items").Some? {
      assert Member("items", Field(c, "items").value) in c.members;
    }
  }

  // ------------------------------------------------------------------ within

  /** The number two characters spell. */
  function Two(s: string, i: nat): int
    requires i + 1 < |s|
  {
    (s[i] as int - '0' as int) * 10 + (s[i + 1] as int - '0' as int)
  }

  predicate TwoDigits(s: string, i: nat) { i + 1 < |s| && '0' <= s[i] <= '9' && '0' <= s[i + 1] <= '9' }

  /** A day of the calendar, as in 2026-02-28. */
  predicate SpellsDay(s: string) {
    && |s| == 10 && s[4] == '-' && s[7] == '-'
    && TwoDigits(s, 0) && TwoDigits(s, 2) && TwoDigits(s, 5) && TwoDigits(s, 8)
    && var year, month := Two(s, 0) * 100 + Two(s, 2), Two(s, 5);
       && 1 <= year && 1 <= month <= 12
       && var february := if year % 4 == 0 && (year % 100 != 0 || year % 400 == 0) then 29 else 28;
          1 <= Two(s, 8) <= [31, february, 31, 30, 31, 30, 31, 31, 30, 31, 30, 31][month - 1]
  }

  /** A second of the calendar, as in 2026-02-28T23:59:59Z. */
  predicate SpellsSecond(s: string) {
    && |s| == 20 && SpellsDay(s[..10]) && s[10] == 'T' && s[13] == ':' && s[16] == ':' && s[19] == 'Z'
    && TwoDigits(s, 11) && TwoDigits(s, 14) && TwoDigits(s, 17)
    && Two(s, 11) <= 23 && Two(s, 14) <= 59 && Two(s, 17) <= 59
  }

  lemma ReadsTwo(s: string)
    requires |s| == 2 && TwoDigits(s, 0)
    ensures Reading(s) == Two(s, 0)
  {
    assert s[..1][..0] == [] && s[..1][0] == s[0] && Reading([]) == 0;
    assert Reading(s[..1]) == DigitValue(s[0]);
  }

  lemma ReadsFour(s: string)
    requires |s| == 4 && TwoDigits(s, 0) && TwoDigits(s, 2)
    ensures Reading(s) == Two(s, 0) * 100 + Two(s, 2)
  {
    ReadsTwo(s[..2]);
    assert s[..3][..2] == s[..2];
  }

  lemma DayMatches(s: string)
    ensures Matches(s, DATE) <==>
            |s| == 10 && s[4] == '-' && s[7] == '-' && TwoDigits(s, 0) && TwoDigits(s, 2) && TwoDigits(s, 5) && TwoDigits(s, 8)
    ensures SpellsDay(s) ==> Matches(s, DATE)
  {}

  lemma SecondMatches(s: string)
    ensures Matches(s, DATE_TIME) <==>
            && |s| == 20 && Matches(s[..10], DATE) && s[10] == 'T' && s[13] == ':' && s[16] == ':' && s[19] == 'Z'
            && TwoDigits(s, 11) && TwoDigits(s, 14) && TwoDigits(s, 17)
  {}

  lemma DayIsReal(s: string)
    requires Matches(s, DATE)
    ensures RealDate(Reading(s[..4]), Reading(s[5..7]), Reading(s[8..10])) <==> SpellsDay(s)
  {
    hide Reading, Matches;
    DayMatches(s);
    ReadsFour(s[..4]);
    ReadsTwo(s[5..7]);
    ReadsTwo(s[8..10]);
  }

  lemma SecondIsReal(s: string)
    requires Matches(s, DATE_TIME)
    ensures RealTime(Reading(s[11..13]), Reading(s[14..16]), Reading(s[17..19]))
       <==> Two(s, 11) <= 23 && Two(s, 14) <= 59 && Two(s, 17) <= 59
  {
    hide Reading, Matches;
    SecondMatches(s);
    ReadsTwo(s[11..13]);
    ReadsTwo(s[14..16]);
    ReadsTwo(s[17..19]);
  }

  /** The two comparable forms of a bound are the days and the seconds of the calendar. */
  lemma FormsAreDates(s: string)
    ensures FormOf(s) == Some(DateOnly) <==> SpellsDay(s)
    ensures FormOf(s) == Some(DateTime) <==> SpellsSecond(s)
  {
    hide Reading, Matches, RealDate, RealTime, SpellsDay, TwoDigits;
    DayMatches(s);
    SecondMatches(s);
    if Matches(s, DATE) { DayIsReal(s); }
    if |s| == 20 { DayMatches(s[..10]); }
    if Matches(s, DATE_TIME) {
      DayIsReal(s[..10]);
      SecondIsReal(s);
      assert s[..10][..4] == s[..4] && s[..10][5..7] == s[5..7] && s[..10][8..10] == s[8..10];
    }
  }

  function RarityAt(c: Json): nat { match Rarity(StrAt(c, "frequency")) case Some(n) => n case None => 7 }

  ghost predicate HasCopy(x: Json, xs: seq<Json>) { exists j :: 0 <= j < |xs| && Canon(xs[j]) == Canon(x) }

  /** Every element of one list has an equal one in the other. */
  ghost predicate NamedIn(narrow: seq<Json>, wide: seq<Json>) {
    forall i :: 0 <= i < |narrow| ==> HasCopy(narrow[i], wide)
  }

  ghost predicate SameForm(a: string, b: string) { (SpellsDay(a) && SpellsDay(b)) || (SpellsSecond(a) && SpellsSecond(b)) }

  ghost predicate Drops(o: Json, r: Json, bound: string) { Field(o, bound).Some? && Field(r, bound).None? }

  ghost predicate Keeps(o: Json, r: Json, bound: string) { Field(o, bound).Some? && Field(r, bound).Some? }

  /** A date constraint that drops a bound, or moves one the wrong way. */
  ghost predicate DatesWiden(o: Json, r: Json) {
    || Drops(o, r, "not_before") || Drops(o, r, "not_after")
    || (Keeps(o, r, "not_before") && SameForm(StrAt(o, "not_before"), StrAt(r, "not_before"))
        && Reading(StrAt(r, "not_before")) < Reading(StrAt(o, "not_before")))
    || (Keeps(o, r, "not_after") && SameForm(StrAt(o, "not_after"), StrAt(r, "not_after"))
        && Reading(StrAt(o, "not_after")) < Reading(StrAt(r, "not_after")))
  }

  /** A bound that cannot be compared with the original's. */
  ghost predicate DatesUnlike(o: Json, r: Json, bound: string) {
    Keeps(o, r, bound) && !SameForm(StrAt(o, bound), StrAt(r, bound))
  }

  ghost predicate LineNoWider(o: Json, r: Json) {
    && StrAt(r, "id") == StrAt(o, "id") && IntAt(r, "quantity") == IntAt(o, "quantity")
    && (ListAt(r, "acceptable_items") == [] ==> ListAt(o, "acceptable_items") == [])
    && NamedIn(ListAt(r, "acceptable_items"), ListAt(o, "acceptable_items"))
  }

  /** The row of each type in the table of narrowings. */
  ghost predicate NoWider(t: string, o: Json, r: Json) {
    if t == "payment.amount_range" then
      && StrAt(r, "currency") == StrAt(o, "currency") && IntAt(r, "max") <= IntAt(o, "max")
      && (Field(o, "min").Some? ==> Field(r, "min").Some? && IntAt(o, "min") <= IntAt(r, "min"))
    else if t == "payment.budget" then StrAt(r, "currency") == StrAt(o, "currency") && IntAt(r, "max") <= IntAt(o, "max")
    else if t == "payment.agent_recurrence" then
      && RarityAt(o) <= RarityAt(r)
      && (Field(o, "max_occurrences").Some? ==>
            Field(r, "max_occurrences").Some? && IntAt(r, "max_occurrences") <= IntAt(o, "max_occurrences"))
    else if t == "payment.reference" then
      StrAt(r, "conditional_transaction_id") == StrAt(o, "conditional_transaction_id")
    else if t == "payment.execution_date" then
      !DatesWiden(o, r) && !DatesUnlike(o, r, "not_before") && !DatesUnlike(o, r, "not_after")
    else if t == "checkout.line_items" then
      && |ListAt(r, "items")| == |ListAt(o, "items")|
      && forall i :: 0 <= i < |ListAt(r, "items")| ==> LineNoWider(ListAt(o, "items")[i], ListAt(r, "items")[i])
    else NamedIn(ListAt(r, "allowed"), ListAt(o, "allowed"))
  }

  ghost predicate Undecided(t: string, o: Json, r: Json) {
    t == "payment.execution_date" && !DatesWiden(o, r) && (DatesUnlike(o, r, "not_before") || DatesUnlike(o, r, "not_after"))
  }

  lemma SubsetIsNamedIn(narrow: seq<Json>, wide: seq<Json>)
    ensures Subset(narrow, wide) <==> NamedIn(narrow, wide)
  {
    hide Canon, CanonSet;
    forall i | 0 <= i < |narrow| ensures Canon(narrow[i]) in CanonSet(wide) <==> HasCopy(narrow[i], wide) {
      CopyInSet(narrow[i], wide);
    }
  }

  lemma CopyInSet(x: Json, xs: seq<Json>)
    ensures Canon(x) in CanonSet(xs) <==> HasCopy(x, xs)
  {
    hide Canon;
    if j :| 0 <= j < |xs| && Canon(xs[j]) == Canon(x) { assert xs[j] in xs; }
  }

  lemma RarityIsIndex(c: Json)
    ensures IndexOf(StrAt(c, "frequency"), FREQ_ORDER) == RarityAt(c)
  {
    hide StrAt;
    FrequencyIndex(StrAt(c, "frequency"));
    if Rarity(StrAt(c, "frequency")).None? { NotAmong(StrAt(c, "frequency"), FREQ_ORDER); }
  }

  lemma {:induction false} NotAmong(s: string, xs: seq<string>)
    requires s !in xs
    ensures IndexOf(s, xs) == |xs|
    decreases |xs|
  {
    if xs != [] { NotAmong(s, xs[1..]); }
  }

  lemma FormsDiffer(s: string)
    ensures !(SpellsDay(s) && SpellsSecond(s))
  {}

  lemma BoundIs(o: Json, r: Json, bound: string, isLower: bool)
    ensures BoundWithin(o, r, bound, isLower) == None <==> DatesUnlike(o, r, bound)
    ensures BoundWithin(o, r, bound, isLower) == Some(false)
       <==> || Drops(o, r, bound)
            || (Keeps(o, r, bound) && SameForm(StrAt(o, bound), StrAt(r, bound)) &&
                if isLower then Reading(StrAt(r, bound)) < Reading(StrAt(o, bound))
                else Reading(StrAt(o, bound)) < Reading(StrAt(r, bound)))
  {
    hide Field, StrAt, FormOf, SpellsDay, SpellsSecond, Reading, Below;
    var so, sr := StrAt(o, bound), StrAt(r, bound);
    FormsAreDates(so);
    FormsAreDates(sr);
    FormsDiffer(so);
    FormsDiffer(sr);
    if FormOf(so).Some? { assert FormOf(so).value.DateOnly? || FormOf(so).value.DateTime?; }
    assert SameForm(so, sr) <==> FormOf(so).Some? && FormOf(so) == FormOf(sr);
    if FormOf(so).Some? && FormOf(so) == FormOf(sr) {
      FormOrder(so, sr);
      FormOrder(sr, so);
    }
  }

  ghost predicate AsTheRow(t: string, f: Family, o: Json, r: Json) {
    (Within(f, o, r) == Some(true) <==> NoWider(t, o, r)) && (Within(f, o, r) == None <==> Undecided(t, o, r))
  }

  lemma AmountAsTheRow(o: Json, r: Json)
    ensures AsTheRow("payment.amount_range", AmountRange, o, r)
  {
    hide Field, StrAt, IntAt;
  }

  lemma BudgetAsTheRow(o: Json, r: Json)
    ensures AsTheRow("payment.budget", Budget, o, r)
  {
    hide Field, StrAt, IntAt;
  }

  lemma ReferenceAsTheRow(o: Json, r: Json)
    ensures AsTheRow("payment.reference", Reference, o, r)
  {
    hide Field, StrAt, IntAt;
  }

  lemma RecurrenceAsTheRow(o: Json, r: Json)
    ensures AsTheRow("payment.agent_recurrence", Recurrence, o, r)
  {
    hide Field, StrAt, IntAt, RarityAt, IndexOf, FREQ_ORDER;
    RarityIsIndex(o);
    RarityIsIndex(r);
  }

  /** A party list is of no other type. */
  lemma PartyListIs(t: string)
    requires IsPartyList(t)
    ensures t !in {"payment.amount_range", "payment.budget", "payment.agent_recurrence", "payment.execution_date",
                   "payment.reference", "checkout.line_items"}
  {}

  lemma AllowedAsTheRow(t: string, o: Json, r: Json)
    requires IsPartyList(t)
    ensures AsTheRow(t, Allowed, o, r)
  {
    hide IsPartyList, Field, StrAt, IntAt, ListAt, Subset, NamedIn, DatesWiden, DatesUnlike, LineNoWider, RarityAt;
    PartyListIs(t);
    SubsetIsNamedIn(ListAt(r, "allowed"), ListAt(o, "allowed"));
  }

  lemma DatesAsTheRow(o: Json, r: Json)
    ensures AsTheRow("payment.execution_date", ExecutionDate, o, r)
  {
    hide Field, StrAt, BoundWithin, SameForm, Reading;
    BoundIs(o, r, "not_before", true);
    BoundIs(o, r, "not_after", false);
  }

  lemma LinesAsTheRow(o: Json, r: Json)
    ensures AsTheRow("checkout.line_items", LineItems, o, r)
  {
    hide StrAt, IntAt, ListAt, Subset, NamedIn, DatesWiden, DatesUnlike;
    var os, rs := ListAt(o, "items"), ListAt(r, "items");
    forall i | 0 <= i < |rs| && |rs| == |os| ensures LineWithin(os[i], rs[i]) <==> LineNoWider(os[i], rs[i]) {
      SubsetIsNamedIn(ListAt(rs[i], "acceptable_items"), ListAt(os[i], "acceptable_items"));
    }
  }

  /** The comparison of two constraints of one type is the row of that type. */
  lemma WithinIsTheTable(t: string, o: Json, r: Json)
    requires FamilyOf(t).Some?
    ensures Within(FamilyOf(t).value, o, r) == Some(true) <==> NoWider(t, o, r)
    ensures Within(FamilyOf(t).value, o, r) == None <==> Undecided(t, o, r)
  {
    hide FamilyOf, IsPartyList, Within, NoWider, Undecided;
    FamilyNames(t, FamilyOf(t).value);
    match FamilyOf(t).value {
      case AmountRange => AmountAsTheRow(o, r);
      case Budget => BudgetAsTheRow(o, r);
      case Reference => ReferenceAsTheRow(o, r);
      case Recurrence => RecurrenceAsTheRow(o, r);
      case Allowed => AllowedAsTheRow(t, o, r);
      case ExecutionDate => DatesAsTheRow(o, r);
      case LineItems => LinesAsTheRow(o, r);
    }
  }

  // ------------------------------------------------------------------ the terms

  ghost predicate Refers(c: Json) {
    c.Obj? && Lookup(c.members, "type") == Some(Str("io.github.robertolocatelli81.restricts"))
  }

  ghost predicate SharesType(c: Json, x: Json) { IsText(c, "type") && Field(x, "type") == Field(c, "type") }

  function Dotted(what: string): string { if what == "" then "" else "." + what }

  /** A requirement of the original that no constraint of its type in the record meets, or may be found to meet. */
  ghost predicate Unmet(c: Json, rc: seq<Json>)
    requires IsText(c, "type")
  {
    forall j :: 0 <= j < |rc| && SharesType(c, rc[j]) ==>
      !ShapeOf(rc[j]).UnknownName? && (ShapeOf(rc[j]).WellFormed? ==> !NoWider(Field(c, "type").value.s, c, rc[j]))
  }

  ghost predicate SomeUndecided(c: Json, rc: seq<Json>)
    requires IsText(c, "type")
  {
    exists j :: 0 <= j < |rc| && SharesType(c, rc[j]) && ShapeOf(rc[j]).WellFormed? && Undecided(Field(c, "type").value.s, c, rc[j])
  }

  /** What is said of one constraint of the original. */
  ghost predicate TermSays(c: Json, at: string, rc: seq<Json>, x: Reason) {
    !Refers(c) && !HasCopy(c, rc) &&
    match ShapeOf(c)
    case UnknownType(_) => x == Reason(NotEvaluated, UnknownNameFound, "original." + at)
    case Misformed(what) => x == Reason(NotEvaluated, OriginalMalformed, "original." + at + Dotted(what))
    case UnknownName(what) => x == Reason(NotEvaluated, OriginalMalformed, "original." + at + Dotted(what))
    case WellFormed =>
      if forall j :: 0 <= j < |rc| ==> !SharesType(c, rc[j]) then x == Reason(Contradicted, ConstraintRemoved, "original." + at)
      else
        IsText(c, "type") && Unmet(c, rc) &&
        x == if SomeUndecided(c, rc) then Reason(NotEvaluated, DateForms, "original." + at)
             else Reason(Contradicted, ConstraintWidened, "original." + at)
  }

  /** What is said of one constraint the record adds. */
  ghost predicate AddedSays(c: Json, at: string, oc: seq<Json>, x: Reason) {
    !Refers(c) && !HasCopy(c, oc) &&
    match ShapeOf(c)
    case UnknownType(_) => false
    case Misformed(what) => x == Reason(Contradicted, Malformed, at + Dotted(what))
    case UnknownName(what) => x == Reason(NotEvaluated, UnknownNameFound, at + "." + what)
    case WellFormed =>
      && x == Reason(NotEvaluated, RecurrenceAdded, at)
      && Field(c, "type") == Some(Str("payment.agent_recurrence"))
      && forall i :: 0 <= i < |oc| ==> Field(oc[i], "type") != Some(Str("payment.agent_recurrence"))
  }

  function Place(base: string, i: nat): string { base + "constraints[" + PrintNat(i) + "]" }

  ghost predicate TermsSay(oc: seq<Json>, rc: seq<Json>, base: string, x: Reason) {
    || (exists i :: 0 <= i < |oc| && TermSays(oc[i], Place(base, i), rc, x))
    || (exists j :: 0 <= j < |rc| && AddedSays(rc[j], "restriction." + Place(base, j), oc, x))
  }

  /** Where an accepted constraint of an unknown type is reported. */
  ghost predicate TermsReport(oc: seq<Json>, rc: seq<Json>, base: string, at: string) {
    exists j :: 0 <= j < |rc| && ShapeOf(rc[j]).UnknownType? && !Refers(rc[j]) && !HasCopy(rc[j], oc)
                && at == "restriction." + Place(base, j)
  }

  lemma MeetsIs(c: Json, x: Json)
    requires ShapeOf(c).WellFormed?
    ensures IsText(c, "type") && (SameType(c, x) <==> SharesType(c, x))
    ensures Meets(c, x, Some(true)) <==> SharesType(c, x) && ShapeOf(x).WellFormed? && NoWider(Field(c, "type").value.s, c, x)
    ensures Meets(c, x, None) <==> SharesType(c, x) && ShapeOf(x).WellFormed? && Undecided(Field(c, "type").value.s, c, x)
  {
    hide ShapeOf, Within, NoWider, Undecided, FamilyOf;
    WellFormedType(c);
    WithinIsTheTable(TypeOf(c).value, c, x);
  }

  lemma RefersIs(c: Json)
    ensures Refers(c) <==> IsRef(c)
  {}

  lemma TermSaysIt(c: Json, at: string, rc: seq<Json>, x: Reason)
    ensures x in MeetReasons(c, at, rc) <==> TermSays(c, at, rc, x)
  {
    hide ShapeOf, Within, NoWider, Undecided, FamilyOf, Meets, SharesType, SameType, Refers, IsRef, Canon, HasCopy, CanonSet;
    RefersIs(c);
    CopyInSet(c, rc);
    if ShapeOf(c).WellFormed? {
      MeetsIs(c, c);
      forall j | 0 <= j < |rc| { MeetsIs(c, rc[j]); }
    }
  }

  lemma AddedSaysIt(c: Json, at: string, oc: seq<Json>, x: Reason)
    ensures x in AddedReasons(c, at, oc) <==> AddedSays(c, at, oc, x)
    ensures AddedReport(c, at, oc) == if ShapeOf(c).UnknownType? && !Refers(c) && !HasCopy(c, oc) then [at] else []
  {
    hide ShapeOf, Refers, IsRef, Canon, HasCopy, CanonSet, Field;
    RefersIs(c);
    CopyInSet(c, oc);
    assert TypeOf(c) == Some("payment.agent_recurrence") <==> Field(c, "type") == Some(Str("payment.agent_recurrence"));
    forall i | 0 <= i < |oc|
      ensures TypeOf(oc[i]) == Some("payment.agent_recurrence") <==> Field(oc[i], "type") == Some(Str("payment.agent_recurrence"))
    {}
  }

  lemma {:induction false} OriginalsSay(oc: seq<Json>, rc: seq<Json>, base: string, x: Reason)
    ensures x in OriginalReasons(oc, rc, base) <==> exists i :: 0 <= i < |oc| && TermSays(oc[i], Place(base, i), rc, x)
    decreases |oc|
  {
    hide MeetReasons, TermSays, PrintNat;
    if oc != [] {
      var n := |oc| - 1;
      OriginalsSay(oc[..n], rc, base, x);
      TermSaysIt(oc[n], Place(base, n), rc, x);
      assert forall i :: 0 <= i < n ==> oc[..n][i] == oc[i];
    }
  }

  lemma {:induction false} AddedSay(rc: seq<Json>, oc: seq<Json>, base: string, x: Reason, at: string)
    ensures x in AllAdded(rc, oc, base).0
       <==> exists j :: 0 <= j < |rc| && AddedSays(rc[j], "restriction." + Place(base, j), oc, x)
    ensures at in AllAdded(rc, oc, base).1 <==> TermsReport(oc, rc, base, at)
    decreases |rc|
  {
    hide AddedReasons, AddedReport, AddedSays, PrintNat, ShapeOf, HasCopy, Refers;
    if rc != [] {
      var n := |rc| - 1;
      AddedSay(rc[..n], oc, base, x, at);
      AddedSaysIt(rc[n], "restriction." + Place(base, n), oc, x);
      assert AddedPlace(base, n) == "restriction." + Place(base, n);
      assert forall i :: 0 <= i < n ==> rc[..n][i] == rc[i];
    }
  }

  // ------------------------------------------------------------------ the mandates

  /** A `delegate_payload` that is not a list of one object. */
  ghost predicate Unreadable(claims: seq<Member>) {
    Has(claims, "delegate_payload") &&
    var dp := Lookup(claims, "delegate_payload").value;
    !(dp.Arr? && |dp.items| == 1 && dp.items[0].Obj?)
  }

  function Delegated(claims: seq<Member>): seq<Member>
    requires Has(claims, "delegate_payload") && !Unreadable(claims)
  {
    Lookup(claims, "delegate_payload").value.items[0].members
  }

  ghost predicate NoList(content: seq<Member>) {
    Lookup(content, "constraints").Some? && !Lookup(content, "constraints").value.Arr?
  }

  ghost predicate Supported(content: seq<Member>) {
    Lookup(content, "vct") in [Some(Str("mandate.payment.open.1")), Some(Str("mandate.checkout.open.1"))]
  }

  function Prefix(form: Form): string { if form.InDelegate? then "delegate_payload[0]." else "" }

  /** The constraints are compared: one supported kind, and two lists. */
  ghost predicate Comparable(co: seq<Member>, cr: seq<Member>) {
    Supported(co) && Lookup(cr, "vct") == Lookup(co, "vct") && !NoList(co) && !NoList(cr)
  }

  ghost predicate ContentsSay(form: Form, co: seq<Member>, cr: seq<Member>, x: Reason) {
    var base := Prefix(form);
    if !Supported(co) then
      x == Reason(NotEvaluated, VctNotSupported, "original." + base + "vct") && Canon(Obj(co)) != Canon(Obj(cr))
    else if Lookup(cr, "vct") != Lookup(co, "vct") then x == Reason(Contradicted, ClaimChanged, "restriction." + base + "vct")
    else
      || (exists k :: (Has(co, k) || Has(cr, k)) &&
                      ContentSays(form, Lookup(co, "vct").value.s, k, base + k, Lookup(co, k), Lookup(cr, k), x))
      || if NoList(co) then x == Reason(NotEvaluated, OriginalMalformed, "original." + base + "constraints")
         else if NoList(cr) then x == Reason(Contradicted, Malformed, "restriction." + base + "constraints")
         else TermsSay(Terms(co), Terms(cr), base, x)
  }

  ghost predicate ClaimsSay(o: seq<Member>, r: seq<Member>, x: Reason) {
    exists k :: (Has(o, k) || Has(r, k)) && k != "delegate_payload" && ClaimSays(k, k, Lookup(o, k), Lookup(r, k), x)
  }

  ghost predicate MandatesSay(o: seq<Member>, r: seq<Member>, x: Reason) {
    if Unreadable(o) || Unreadable(r) then
      || (x == Reason(NotEvaluated, FormUnsupported, "original") && Unreadable(o))
      || (x == Reason(NotEvaluated, FormUnsupported, "restriction") && Unreadable(r))
    else if Has(o, "delegate_payload") != Has(r, "delegate_payload") then x == Reason(NotEvaluated, FormDiffers, "restriction")
    else if Has(o, "delegate_payload") then ClaimsSay(o, r, x) || ContentsSay(InDelegate, Delegated(o), Delegated(r), x)
    else ContentsSay(InPayload, o, r, x)
  }

  /** The reasons the profile gives for a record `r` of an original `o`. */
  ghost predicate ProfileSays(o: Artifact, r: Artifact, x: Reason) {
    || (x == Reason(Contradicted, IssuerKeyDiffers, "restriction") && !OneKey(o.jwk, r.jwk))
    || (x == Reason(NotEvaluated, OriginalMalformed, "original") && o.hidden.None?)
    || (x == Reason(NotEvaluated, UndisclosedDigests, "original") && o.hidden.Some? && o.hidden.value > 0)
    || (x == Reason(Contradicted, Malformed, "restriction") && r.hidden.None?)
    || (x == Reason(NotEvaluated, UndisclosedDigests, "restriction") && r.hidden.Some? && r.hidden.value > 0)
    || (o.hidden == r.hidden == Some(0) &&
        if o.disclosable then x == Reason(NotEvaluated, OriginalDisclosable, "original") else MandatesSay(o.claims, r.claims, x))
  }

  /** Where a constraint of an unknown type is reported: the constraints are reached and compared. */
  ghost predicate ProfileReports(o: Artifact, r: Artifact, at: string) {
    && o.hidden == r.hidden == Some(0) && !o.disclosable && !Unreadable(o.claims) && !Unreadable(r.claims)
    && Has(o.claims, "delegate_payload") == Has(r.claims, "delegate_payload")
    && if Has(o.claims, "delegate_payload") then
         Comparable(Delegated(o.claims), Delegated(r.claims)) &&
         TermsReport(Terms(Delegated(o.claims)), Terms(Delegated(r.claims)), "delegate_payload[0].", at)
       else Comparable(o.claims, r.claims) && TermsReport(Terms(o.claims), Terms(r.claims), "", at)
  }

  lemma FormIs(claims: seq<Member>)
    ensures MandateForm(claims) ==
            if Unreadable(claims) then None
            else if Has(claims, "delegate_payload") then Some((InDelegate, Delegated(claims))) else Some((InPayload, claims))
  {}

  lemma SupportedIs(content: seq<Member>)
    ensures SupportedKeys(content).Some? <==> Supported(content)
    ensures Supported(content) ==>
              && Lookup(content, "vct").Some? && Lookup(content, "vct").value.Str?
              && SupportedKeys(content) == OpenContentKeys(Lookup(content, "vct").value.s)
  {}

  lemma ContentsSayIt(form: Form, co: seq<Member>, cr: seq<Member>, x: Reason, at: string)
    requires ContentFindings(form, co, cr).Some?
    ensures x in ContentFindings(form, co, cr).value.0 <==> ContentsSay(form, co, cr, x)
    ensures at in ContentFindings(form, co, cr).value.1
       <==> Comparable(co, cr) && TermsReport(Terms(co), Terms(cr), Prefix(form), at)
  {
    hide KeysReasons, UnionKeys, OriginalReasons, AllAdded, Canon, OpenContentKeys, Hashable, Lookup, KeyReasons, Rules.For,
         ContentSays, TermSays, AddedSays, TermsReport, Place, Supported, SupportedKeys;
    SupportedIs(co);
    if Supported(co) {
      var vct, base := Lookup(co, "vct").value.s, Base(form);
      var rules := ContentRules(form, OpenContentKeys(vct).value);
      UnionSays(co, cr, rules, base, x);
      forall k ensures x in KeyReasons(rules.For(k), k, Lookup(co, k), Lookup(cr, k), base)
                  <==> ContentSays(form, vct, k, base + k, Lookup(co, k), Lookup(cr, k), x)
      {
        ContentKeySays(form, vct, k, Lookup(co, k), Lookup(cr, k), base, x);
      }
      OriginalsSay(Terms(co), Terms(cr), base, x);
      AddedSay(Terms(cr), Terms(co), base, x, at);
    }
  }

  lemma PayloadSaysIt(o: seq<Member>, r: seq<Member>, x: Reason)
    ensures x in PayloadReasons(InDelegate, o, r) <==> ClaimsSay(o, r, x)
  {
    hide KeysReasons, UnionKeys, KeyReasons, Rules.For, Lookup, ClaimSays;
    UnionSays(o, r, PayloadRules, "", x);
    forall k ensures x in KeyReasons(PayloadRules.For(k), k, Lookup(o, k), Lookup(r, k), "")
                <==> k != "delegate_payload" && ClaimSays(k, k, Lookup(o, k), Lookup(r, k), x)
    {
      PayloadKeySays(k, Lookup(o, k), Lookup(r, k), "", x);
      assert "" + k == k;
    }
  }

  lemma EarlySays(o: Artifact, r: Artifact, x: Reason)
    ensures EarlyReasons(o, r).1 <==> !(o.hidden == r.hidden == Some(0))
    ensures x in EarlyReasons(o, r).0 <==>
            || (x == Reason(Contradicted, IssuerKeyDiffers, "restriction") && !OneKey(o.jwk, r.jwk))
            || (x == Reason(NotEvaluated, OriginalMalformed, "original") && o.hidden.None?)
            || (x == Reason(NotEvaluated, UndisclosedDigests, "original") && o.hidden.Some? && o.hidden.value > 0)
            || (x == Reason(Contradicted, Malformed, "restriction") && r.hidden.None?)
            || (x == Reason(NotEvaluated, UndisclosedDigests, "restriction") && r.hidden.Some? && r.hidden.value > 0)
  {
    hide SameKey, OneKey;
    SameKeyIsOneKey(o.jwk, r.jwk);
  }

  /** The evaluation, when it does not raise, gives exactly the reasons of the profile and its reports. */
  lemma FoundExactly(o: Artifact, r: Artifact, x: Reason, at: string)
    requires RestrictionFindings(o, r).Some?
    ensures x in RestrictionFindings(o, r).value.0 <==> ProfileSays(o, r, x)
    ensures at in RestrictionFindings(o, r).value.1 <==> ProfileReports(o, r, at)
  {
    hide ContentFindings, KeysReasons, UnionKeys, MandateForm, OneKey, Unreadable, Delegated, ClaimsSay, ContentsSay,
         TermsReport, Comparable, Terms, EarlyReasons;
    EarlySays(o, r, x);
    FormIs(o.claims);
    FormIs(r.claims);
    if MandateForm(o.claims).Some? && MandateForm(r.claims).Some? {
      var (form, co) := MandateForm(o.claims).value;
      var cr := MandateForm(r.claims).value.1;
      if ContentFindings(form, co, cr).Some? { ContentsSayIt(form, co, cr, x, at); }
      PayloadSaysIt(o.claims, r.claims, x);
    }
  }

  /** So a record in another key than its original's is contradicted, whatever else it holds, and one that is verified
      names the same four members. */
  lemma KeyDecides(o: Artifact, r: Artifact)
    ensures Outcome(o, r) == Some(Verified) ==> OneKey(o.jwk, r.jwk)
    ensures !OneKey(o.jwk, r.jwk) && Outcome(o, r).Some? ==> Outcome(o, r) == Some(Contradicted)
  {
    hide RestrictionFindings, OneKey, MandatesSay;
    var x := Reason(Contradicted, IssuerKeyDiffers, "restriction");
    if Outcome(o, r).Some? { FoundExactly(o, r, x, ""); }
  }
}
