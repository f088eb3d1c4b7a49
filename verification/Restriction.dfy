/** The restriction record R against the mandate O it restricts: what makes R not shown to be within O, reason by reason.
    Resolved claims come from the strict reader; what stays hidden was counted by the resolver's census. */
module Restriction {
  import opened Values
  import opened CanonicalJson
  import opened Jwk

  datatype Verdict = Contradicted | NotEvaluated | Verified

  datatype Why =
    | IssuerKeyDiffers | Malformed | OriginalMalformed | UndisclosedDigests | OriginalDisclosable
    | FormUnsupported | FormDiffers | TimeWidened | CnfDiffers | ClaimChanged | UnknownNameFound
    | VctNotSupported | PresetChanged | ConstraintRemoved | ConstraintWidened | DateForms | RecurrenceAdded

  datatype Reason = Reason(verdict: Verdict, why: Why, at: string)

  // ------------------------------------------------------------------ the shape of a constraint

  datatype Family = AmountRange | Budget | Recurrence | Allowed | ExecutionDate | Reference | LineItems

  function FamilyOf(t: string): Option<Family> {
    if t == "payment.amount_range" then Some(AmountRange)
    else if t == "payment.budget" then Some(Budget)
    else if t == "payment.agent_recurrence" then Some(Recurrence)
    else if t == "payment.allowed_payees" || t == "payment.allowed_payment_instruments"
         || t == "payment.allowed_pisps" || t == "checkout.allowed_merchants" then Some(Allowed)
    else if t == "payment.execution_date" then Some(ExecutionDate)
    else if t == "payment.reference" then Some(Reference)
    else if t == "checkout.line_items" then Some(LineItems)
    else None
  }

  const FREQ_ORDER: seq<string> :=
    ["ON_DEMAND", "DAILY", "WEEKLY", "BIWEEKLY", "MONTHLY", "QUARTERLY", "ANNUALLY"]

  /** list.index: the first place of `s`, or the length when there is none. */
  function IndexOf(s: string, xs: seq<string>): nat {
    if xs == [] || xs[0] == s then 0 else 1 + IndexOf(s, xs[1..])
  }

  datatype Kind = AString | AnInteger | Objects | SomeObjects | AFrequency

  predicate AllObjects(xs: seq<Json>) { forall i :: 0 <= i < |xs| ==> xs[i].Obj? }

  predicate IsKind(kind: Kind, v: Json) {
    match kind
    case AString => v.Str?
    case AnInteger => v.Num?
    case Objects => v.Arr? && AllObjects(v.items)
    case SomeObjects => v.Arr? && v.items != [] && AllObjects(v.items)
    case AFrequency => v.Str? && v.s in FREQ_ORDER
  }

  type Keys = seq<(string, Kind)>

  function RequiredKeys(f: Family): Keys {
    match f
    case AmountRange => [("currency", AString), ("max", AnInteger)]
    case Budget => [("currency", AString), ("max", AnInteger)]
    case Recurrence => [("frequency", AFrequency)]
    case Allowed => [("allowed", Objects)]
    case ExecutionDate => []
    case Reference => [("conditional_transaction_id", AString)]
    case LineItems => [("items", SomeObjects)]
  }

  function OptionalKeys(f: Family): Keys {
    match f
    case AmountRange => [("min", AnInteger)]
    case Recurrence => [("max_occurrences", AnInteger)]
    case ExecutionDate => [("not_before", AString), ("not_after", AString)]
    case _ => []
  }

  function Names(ks: Keys): (r: seq<string>)
    ensures |r| == |ks|
  {
    seq(|ks|, i requires 0 <= i < |ks| => ks[i].0)
  }

  function KnownNames(f: Family): seq<string> { ["type"] + Names(RequiredKeys(f)) + Names(OptionalKeys(f)) }

  const LINE_ITEM_KEYS: seq<string> := ["acceptable_items", "id", "quantity"]

  datatype Shape = WellFormed | UnknownType(what: string) | Misformed(what: string) | UnknownName(what: string)

  predicate BadAt(c: Json, key: (string, Kind), required: bool) {
    match Field(c, key.0) case None => required case Some(v) => !IsKind(key.1, v)
  }

  /** The first key of the schema that is missing, when it is required, or of a wrong type. */
  function FirstBad(c: Json, ks: Keys, required: bool): Option<string> {
    if ks == [] then None
    else if BadAt(c, ks[0], required) then Some(ks[0].0)
    else FirstBad(c, ks[1..], required)
  }

  predicate ItemOk(it: Json) {
    && Field(it, "id").Some? && IsKind(AString, Field(it, "id").value)
    && Field(it, "acceptable_items").Some? && IsKind(Objects, Field(it, "acceptable_items").value)
    && Field(it, "quantity").Some? && IsKind(AnInteger, Field(it, "quantity").value) && IntAt(it, "quantity") > 0
  }

  function ItemPlace(i: nat): string { "items[" + PrintNat(i) + "]" }

  function FirstBadItem(items: seq<Json>, i: nat): Option<string>
    decreases |items| - i
  {
    if i >= |items| then None
    else if !ItemOk(items[i]) then Some(ItemPlace(i))
    else FirstBadItem(items, i + 1)
  }

  /** The members no schema knows. */
  function Strange(ms: seq<Member>, known: seq<string>): seq<Member> {
    if ms == [] then []
    else if ms[0].key in known then Strange(ms[1..], known)
    else [ms[0]] + Strange(ms[1..], known)
  }

  /** The first, in code point order, of the keys no schema knows. */
  function StrangeName(c: Json, known: seq<string>): Option<string> {
    if !c.Obj? || Strange(c.members, known) == [] then None else Some(Sort(Strange(c.members, known))[0].key)
  }

  function FirstStrangeItem(items: seq<Json>, i: nat): Option<string>
    decreases |items| - i
  {
    if i >= |items| then None
    else
      match StrangeName(items[i], LINE_ITEM_KEYS)
      case Some(k) => Some(ItemPlace(i) + "." + k)
      case None => FirstStrangeItem(items, i + 1)
  }

  function TypeOf(c: Json): Option<string> {
    match Field(c, "type") case Some(Str(t)) => Some(t) case _ => None
  }

  /** A wrong type or a missing key is looked for before an unknown key. */
  function ShapeOf(c: Json): Shape {
    match TypeOf(c)
    case None => Misformed("type")
    case Some(t) =>
      match FamilyOf(t)
      case None => UnknownType(t)
      case Some(f) =>
        var items := if f.LineItems? then ListAt(c, "items") else [];
        match FirstBad(c, RequiredKeys(f), true)
        case Some(k) => Misformed(k)
        case None =>
          match FirstBad(c, OptionalKeys(f), false)
          case Some(k) => Misformed(k)
          case None =>
            match FirstBadItem(items, 0)
            case Some(place) => Misformed(place)
            case None =>
              match StrangeName(c, KnownNames(f))
              case Some(k) => UnknownName(k)
              case None => match FirstStrangeItem(items, 0) case Some(k) => UnknownName(k) case None => WellFormed
  }

  // ------------------------------------------------------------------ within

  datatype DateForm = DateOnly | DateTime

  predicate Matches(s: string, pattern: string) {
    |s| == |pattern| && forall i :: 0 <= i < |s| ==> if pattern[i] == '9' then IsDigit(s[i]) else s[i] == pattern[i]
  }

  /** The decimal number its digits spell, other characters skipped. */
  function Reading(s: string): nat
  {
    if s == [] then 0
    else Reading(s[..|s| - 1]) * (if IsDigit(s[|s| - 1]) then 10 else 1)
         + if IsDigit(s[|s| - 1]) then DigitValue(s[|s| - 1]) else 0
  }

  predicate Leap(y: nat) { y % 4 == 0 && (y % 100 != 0 || y % 400 == 0) }

  function DaysIn(y: nat, m: nat): nat {
    if m == 2 then (if Leap(y) then 29 else 28) else if m in {4, 6, 9, 11} then 30 else 31
  }

  predicate RealDate(y: nat, m: nat, d: nat) { y >= 1 && 1 <= m <= 12 && 1 <= d <= DaysIn(y, m) }

  predicate RealTime(h: nat, m: nat, s: nat) { h < 24 && m < 60 && s < 60 }

  const DATE: string := "9999-99-99"
  const DATE_TIME: string := "9999-99-99T99:99:99Z"

  /** The two comparable forms of a date bound. */
  function FormOf(s: string): Option<DateForm> {
    if Matches(s, DATE) then
      if RealDate(Reading(s[..4]), Reading(s[5..7]), Reading(s[8..10])) then Some(DateOnly) else None
    else if Matches(s, DATE_TIME) then
      if RealDate(Reading(s[..4]), Reading(s[5..7]), Reading(s[8..10]))
         && RealTime(Reading(s[11..13]), Reading(s[14..16]), Reading(s[17..19])) then Some(DateTime) else None
    else None
  }

  /** Every element of `narrow` canonically equal to an element of `wide`. */
  predicate Subset(narrow: seq<Json>, wide: seq<Json>) {
    var w := CanonSet(wide);
    forall i :: 0 <= i < |narrow| ==> Canon(narrow[i]) in w
  }

  /** One bound of an execution date; None: not comparable. */
  function BoundWithin(o: Json, r: Json, bound: string, laterIsNarrower: bool): Option<bool> {
    if Field(o, bound).None? then Some(true)
    else if Field(r, bound).None? then Some(false)
    else
      var so, sr := StrAt(o, bound), StrAt(r, bound);
      if FormOf(so).None? || FormOf(so) != FormOf(sr) then None
      else Some(!if laterIsNarrower then Below(sr, so) else Below(so, sr))
  }

  predicate LineWithin(o: Json, r: Json) {
    && StrAt(r, "id") == StrAt(o, "id")
    && IntAt(r, "quantity") == IntAt(o, "quantity")
    && (ListAt(r, "acceptable_items") == [] ==> ListAt(o, "acceptable_items") == [])
    && Subset(ListAt(r, "acceptable_items"), ListAt(o, "acceptable_items"))
  }

  /** Is the well-formed `r` within the well-formed `o` of the same type? None: not comparable. */
  function Within(f: Family, o: Json, r: Json): Option<bool> {
    match f
    case AmountRange =>
      Some(&& StrAt(r, "currency") == StrAt(o, "currency")
           && IntAt(r, "max") <= IntAt(o, "max")
           && (Field(o, "min").Some? ==> Field(r, "min").Some? && IntAt(r, "min") >= IntAt(o, "min")))
    case Budget =>
      Some(StrAt(r, "currency") == StrAt(o, "currency") && IntAt(r, "max") <= IntAt(o, "max"))
    case Recurrence =>
      Some(&& IndexOf(StrAt(r, "frequency"), FREQ_ORDER) >= IndexOf(StrAt(o, "frequency"), FREQ_ORDER)
           && (Field(o, "max_occurrences").Some? ==>
                 && Field(r, "max_occurrences").Some?
                 && IntAt(r, "max_occurrences") <= IntAt(o, "max_occurrences")))
    case Allowed => Some(Subset(ListAt(r, "allowed"), ListAt(o, "allowed")))
    case Reference => Some(StrAt(r, "conditional_transaction_id") == StrAt(o, "conditional_transaction_id"))
    case ExecutionDate =>
      var from, to := BoundWithin(o, r, "not_before", true), BoundWithin(o, r, "not_after", false);
      if from == Some(false) || to == Some(false) then Some(false)
      else if from.None? || to.None? then None
      else Some(true)
    case LineItems =>
      var os, rs := ListAt(o, "items"), ListAt(r, "items");
      Some(|rs| == |os| && forall i :: 0 <= i < |rs| ==> LineWithin(os[i], rs[i]))
  }

  // ------------------------------------------------------------------ the rules for one key

  datatype Rule = NotAfter | NotBefore | Equal(why: Why) | Typed(kind: Kind) | Preset | Ignored | Unlisted

  function TopRule(k: string): Rule {
    if k == "exp" then NotAfter
    else if k == "nbf" then NotBefore
    else if k == "cnf" then Equal(CnfDiffers)
    else if k in ["iss", "sub", "aud", "vct"] then Equal(ClaimChanged)
    else if k == "iat" then Typed(AnInteger)
    else if k == "jti" then Typed(AString)
    else Unlisted
  }

  /** The payload beside `delegate_payload`. */
  function PayloadRule(k: string): Rule { if k == "delegate_payload" then Ignored else TopRule(k) }

  function OpenContentKeys(vct: string): Option<seq<string>> {
    if vct == "mandate.payment.open.1" then
      Some(["vct", "constraints", "cnf", "payee", "payment_amount", "payment_instrument", "pisp",
            "execution_date", "risk_data", "iat", "exp"])
    else if vct == "mandate.checkout.open.1" then Some(["vct", "constraints", "cnf", "iat", "exp"])
    else None
  }

  datatype Form = InPayload | InDelegate

  function ContentRule(form: Form, known: seq<string>, k: string): Rule {
    if k == "vct" || k == "constraints" then Ignored
    else if k == "cnf" || k == "exp" || k == "iat" then TopRule(k)
    else if k in known then Preset
    else if form.InPayload? then TopRule(k)
    else Unlisted
  }

  function No(verdict: Verdict, why: Why, at: string): seq<Reason> { [Reason(verdict, why, at)] }

  /** What a rule says about the two values of one key. */
  function KeyReasons(rule: Rule, k: string, vo: Option<Json>, vr: Option<Json>, prefix: string): seq<Reason> {
    var ino, inr := "original." + prefix + k, "restriction." + prefix + k;
    match rule
    case Ignored => []
    case NotAfter =>
      if vo.Some? && !vo.value.Num? then No(NotEvaluated, OriginalMalformed, ino)
      else if vr.Some? && !vr.value.Num? then No(Contradicted, Malformed, inr)
      else if vo.Some? && (vr.None? || vr.value.n > vo.value.n) then No(Contradicted, TimeWidened, inr)
      else []
    case NotBefore =>
      if vo.Some? && !vo.value.Num? then No(NotEvaluated, OriginalMalformed, ino)
      else if vr.Some? && !vr.value.Num? then No(Contradicted, Malformed, inr)
      else if vo.Some? && (vr.None? || vr.value.n < vo.value.n) then No(Contradicted, TimeWidened, inr)
      else []
    case Equal(why) => if CanonOf(vo) != CanonOf(vr) then No(Contradicted, why, inr) else []
    case Typed(kind) =>
      (if vo.Some? && !IsKind(kind, vo.value) then No(NotEvaluated, OriginalMalformed, ino) else [])
      + (if vr.Some? && !IsKind(kind, vr.value) then No(Contradicted, Malformed, inr) else [])
    case Preset => if vo.Some? && CanonOf(vo) != CanonOf(vr) then No(Contradicted, PresetChanged, inr) else []
    case Unlisted =>
      if vo.None? || vr.None? || Canon(vo.value) != Canon(vr.value)
      then No(NotEvaluated, UnknownNameFound, if vo.Some? then ino else inr)
      else []
  }

  /** The rules for the keys of a payload or of a Mandate Content. */
  datatype Rules = PayloadRules | ContentRules(form: Form, known: seq<string>) {
    function For(k: string): Rule {
      match this case PayloadRules => PayloadRule(k) case ContentRules(form, known) => ContentRule(form, known, k)
    }
  }

  /** The members of `r` whose key `o` does not have. */
  function Missing(r: seq<Member>, o: seq<Member>): seq<Member> {
    if r == [] then [] else (if Has(o, r[0].key) then [] else [r[0]]) + Missing(r[1..], o)
  }

  /** The keys of either object, in code point order. */
  function UnionKeys(o: seq<Member>, r: seq<Member>): seq<string> { KeySeq(Sort(o + Missing(r, o))) }

  function KeysReasons(ks: seq<string>, o: seq<Member>, r: seq<Member>, rules: Rules, prefix: string): seq<Reason> {
    if ks == [] then []
    else
      KeysReasons(ks[..|ks| - 1], o, r, rules, prefix)
      + (var k := ks[|ks| - 1]; KeyReasons(rules.For(k), k, Lookup(o, k), Lookup(r, k), prefix))
  }

  /** compare_keys. */
  method CompareKeys(o: seq<Member>, r: seq<Member>, rules: Rules, prefix: string) returns (reasons: seq<Reason>)
    ensures reasons == KeysReasons(UnionKeys(o, r), o, r, rules, prefix)
  {
    hide KeyReasons, UnionKeys, Lookup, Rules.For;
    reasons := [];
    var ks := UnionKeys(o, r);
    for i := 0 to |ks|
      invariant reasons == KeysReasons(ks[..i], o, r, rules, prefix)
    {
      assert ks[..i + 1][..i] == ks[..i];
      reasons := reasons + KeyReasons(rules.For(ks[i]), ks[i], Lookup(o, ks[i]), Lookup(r, ks[i]), prefix);
    }
    assert ks[..|ks|] == ks;
  }

  // ------------------------------------------------------------------ the constraints

  const RESTRICTS: string := "io.github.robertolocatelli81.restricts"

  predicate IsRef(c: Json) { c.Obj? && Lookup(c.members, "type") == Some(Str(RESTRICTS)) }

  predicate SameType(c: Json, x: Json) { TypeOf(c).Some? && TypeOf(x) == TypeOf(c) }

  predicate Meets(c: Json, x: Json, v: Option<bool>)
    requires ShapeOf(c).WellFormed?
  {
    SameType(c, x) && ShapeOf(x).WellFormed? && Within(FamilyOf(TypeOf(c).value).value, c, x) == v
  }

  function ConstraintPlace(base: string, i: nat): string { base + "constraints[" + PrintNat(i) + "]" }

  /** What is not met of constraint `c` of O. */
  function MeetReasons(c: Json, at: string, rc: seq<Json>): seq<Reason> {
    if IsRef(c) || Canon(c) in CanonSet(rc) then []
    else
      match ShapeOf(c)
      case UnknownType(_) => No(NotEvaluated, UnknownNameFound, "original." + at)
      case Misformed(what) => No(NotEvaluated, OriginalMalformed, "original." + at + Suffix(what))
      case UnknownName(what) => No(NotEvaluated, OriginalMalformed, "original." + at + Suffix(what))
      case WellFormed =>
        if forall i :: 0 <= i < |rc| ==> !SameType(c, rc[i]) then No(Contradicted, ConstraintRemoved, "original." + at)
        else if exists i :: 0 <= i < |rc| && Meets(c, rc[i], Some(true)) then []
        else if exists i :: 0 <= i < |rc| && SameType(c, rc[i]) && ShapeOf(rc[i]).UnknownName? then []
        else if exists i :: 0 <= i < |rc| && Meets(c, rc[i], None) then No(NotEvaluated, DateForms, "original." + at)
        else No(Contradicted, ConstraintWidened, "original." + at)
  }

  function Suffix(what: string): string { if what == "" then "" else "." + what }

  function OriginalReasons(oc: seq<Json>, rc: seq<Json>, base: string): seq<Reason> {
    if oc == [] then []
    else
      OriginalReasons(oc[..|oc| - 1], rc, base)
      + MeetReasons(oc[|oc| - 1], ConstraintPlace(base, |oc| - 1), rc)
  }

  /** One pass over the constraints of R for one of O, whose family is `family`. */
  method Compare(c: Json, family: Family, rc: seq<Json>)
    returns (removed: bool, met: bool, unknown: bool, incomparable: bool)
    requires ShapeOf(c).WellFormed? && family == FamilyOf(TypeOf(c).value).value
    ensures removed <==> forall k :: 0 <= k < |rc| ==> !SameType(c, rc[k])
    ensures met <==> exists k :: 0 <= k < |rc| && Meets(c, rc[k], Some(true))
    ensures unknown <==> exists k :: 0 <= k < |rc| && SameType(c, rc[k]) && ShapeOf(rc[k]).UnknownName?
    ensures incomparable <==> exists k :: 0 <= k < |rc| && Meets(c, rc[k], None)
  {
    hide Within, ShapeOf, TypeOf, FamilyOf;
    removed, met, unknown, incomparable := true, false, false, false;
    for j := 0 to |rc|
      invariant removed <==> forall k :: 0 <= k < j ==> !SameType(c, rc[k])
      invariant met <==> exists k :: 0 <= k < j && Meets(c, rc[k], Some(true))
      invariant unknown <==> exists k :: 0 <= k < j && SameType(c, rc[k]) && ShapeOf(rc[k]).UnknownName?
      invariant incomparable <==> exists k :: 0 <= k < j && Meets(c, rc[k], None)
    {
      if !SameType(c, rc[j]) { continue; }
      var shape := ShapeOf(rc[j]);
      removed, unknown := false, unknown || shape.UnknownName?;
      if shape.WellFormed? {
        var verdict := Within(family, c, rc[j]);
        met, incomparable := met || verdict == Some(true), incomparable || verdict == None;
      }
    }
  }

  /** The body of the first loop. */
  method CheckOriginal(c: Json, at: string, rc: seq<Json>, rcanon: set<Text>) returns (reasons: seq<Reason>)
    requires rcanon == CanonSet(rc)
    ensures reasons == MeetReasons(c, at, rc)
  {
    hide Within, ShapeOf, FamilyOf, CanonSet, Canon;
    reasons := [];
    if IsRef(c) || Canon(c) in rcanon { return; }
    match ShapeOf(c) {
      case UnknownType(_) => reasons := No(NotEvaluated, UnknownNameFound, "original." + at);
      case Misformed(what) => reasons := No(NotEvaluated, OriginalMalformed, "original." + at + Suffix(what));
      case UnknownName(what) => reasons := No(NotEvaluated, OriginalMalformed, "original." + at + Suffix(what));
      case WellFormed =>
        WellFormedType(c);
        var removed, met, unknown, incomparable := Compare(c, FamilyOf(TypeOf(c).value).value, rc);
        if removed {
          reasons := No(Contradicted, ConstraintRemoved, "original." + at);
        } else if !met && !unknown {
          reasons := if incomparable then No(NotEvaluated, DateForms, "original." + at)
                     else No(Contradicted, ConstraintWidened, "original." + at);
        }
    }
  }

  lemma WellFormedType(c: Json)
    requires ShapeOf(c).WellFormed?
    ensures TypeOf(c).Some? && FamilyOf(TypeOf(c).value).Some?
  {}

  /** The first loop: every requirement of O is met by one of R. */
  method CheckOriginals(oc: seq<Json>, rc: seq<Json>, base: string) returns (reasons: seq<Reason>)
    ensures reasons == OriginalReasons(oc, rc, base)
  {
    reasons := [];
    var rcanon := CanonSet(rc);
    for i := 0 to |oc|
      invariant reasons == OriginalReasons(oc[..i], rc, base)
    {
      assert oc[..i + 1][..i] == oc[..i];
      var found := CheckOriginal(oc[i], ConstraintPlace(base, i), rc, rcanon);
      reasons := reasons + found;
    }
    assert oc[..|oc|] == oc;
  }

  /** What constraint `x` of R is reported for, or refused for. */
  function AddedReasons(x: Json, at: string, oc: seq<Json>): seq<Reason> {
    if IsRef(x) || Canon(x) in CanonSet(oc) then []
    else
      match ShapeOf(x)
      case UnknownType(_) => []
      case Misformed(what) => No(Contradicted, Malformed, at + Suffix(what))
      case UnknownName(what) => No(NotEvaluated, UnknownNameFound, at + "." + what)
      case WellFormed =>
        if TypeOf(x) == Some("payment.agent_recurrence") && forall i :: 0 <= i < |oc| ==> TypeOf(oc[i]) != TypeOf(x)
        then No(NotEvaluated, RecurrenceAdded, at)
        else []
  }

  /** An added constraint of an unknown type is accepted and reported. */
  function AddedReport(x: Json, at: string, oc: seq<Json>): seq<string> {
    if !IsRef(x) && Canon(x) !in CanonSet(oc) && ShapeOf(x).UnknownType? then [at] else []
  }

  function AddedPlace(base: string, j: nat): string { "restriction." + ConstraintPlace(base, j) }

  /** What was found: the reasons, and what was accepted but named. */
  type Findings = (seq<Reason>, seq<string>)

  function AllAdded(rc: seq<Json>, oc: seq<Json>, base: string): Findings {
    if rc == [] then ([], [])
    else
      var (reasons, reported) := AllAdded(rc[..|rc| - 1], oc, base);
      var at := AddedPlace(base, |rc| - 1);
      (reasons + AddedReasons(rc[|rc| - 1], at, oc), reported + AddedReport(rc[|rc| - 1], at, oc))
  }

  /** A `type` that is a list or an object, which Python cannot put in a set. */
  predicate Unhashable(c: Json) { Field(c, "type").Some? && IsContainer(Field(c, "type").value) }

  predicate Hashable(oc: seq<Json>) { forall i :: 0 <= i < |oc| ==> !Unhashable(oc[i]) }

  /** The set of the types of O's constraints; None when it cannot be built. */
  method CollectTypes(oc: seq<Json>) returns (types: Option<set<Option<Json>>>)
    ensures types.Some? <==> Hashable(oc)
    ensures types.Some? ==> forall t :: Some(Str(t)) in types.value <==> exists i :: 0 <= i < |oc| && TypeOf(oc[i]) == Some(t)
  {
    var found: set<Option<Json>> := {};
    for i := 0 to |oc|
      invariant forall j :: 0 <= j < i ==> !Unhashable(oc[j])
      invariant forall t :: Some(Str(t)) in found <==> exists j :: 0 <= j < i && TypeOf(oc[j]) == Some(t)
    {
      if oc[i].Obj? {
        if Unhashable(oc[i]) { return None; }
        found := found + {Field(oc[i], "type")};
      }
    }
    return Some(found);
  }

  /** The second pass over the constraints: every one R adds. It fails when the types of O's cannot be collected. */
  method CheckAdded(rc: seq<Json>, oc: seq<Json>, base: string) returns (added: Option<Findings>)
    ensures added == if Hashable(oc) then Some(AllAdded(rc, oc, base)) else None
  {
    hide ShapeOf, CanonSet, Canon, AddedPlace, Hashable;
    var reasons: seq<Reason>, reported: seq<string> := [], [];
    var ocanon := CanonSet(oc);
    var types := CollectTypes(oc);
    if types.None? { return None; }
    for j := 0 to |rc|
      invariant (reasons, reported) == AllAdded(rc[..j], oc, base)
    {
      assert rc[..j + 1][..j] == rc[..j];
      var x, at := rc[j], AddedPlace(base, j);
      var found: seq<Reason>, named: seq<string> := [], [];
      if !IsRef(x) && Canon(x) !in ocanon {
        match ShapeOf(x) {
          case UnknownType(_) => named := [at];
          case Misformed(what) => found := No(Contradicted, Malformed, at + Suffix(what));
          case UnknownName(what) => found := No(NotEvaluated, UnknownNameFound, at + "." + what);
          case WellFormed =>
            if TypeOf(x) == Some("payment.agent_recurrence") && Some(Str("payment.agent_recurrence")) !in types.value {
              found := No(NotEvaluated, RecurrenceAdded, at);
            }
        }
      }
      assert found == AddedReasons(x, at, oc) && named == AddedReport(x, at, oc);
      reasons, reported := reasons + found, reported + named;
    }
    assert rc[..|rc|] == rc;
    return Some((reasons, reported));
  }

  // ------------------------------------------------------------------ the whole evaluation

  /** An artifact that verified in a valid pack. `hidden` is the resolver's census, None when the resolver refused;
      `disclosable`: `delegate_payload` is itself a disclosure of the payload. */
  datatype Artifact = Artifact(jwk: Json, hidden: Option<nat>, disclosable: bool, claims: seq<Member>)

  function MandateForm(claims: seq<Member>): Option<(Form, seq<Member>)> {
    match Lookup(claims, "delegate_payload")
    case None => Some((InPayload, claims))
    case Some(dp) => if dp.Arr? && |dp.items| == 1 && dp.items[0].Obj? then Some((InDelegate, dp.items[0].members)) else None
  }

  function HiddenReasons(hidden: Option<nat>, refused: Reason, side: string): seq<Reason> {
    match hidden
    case None => [refused]
    case Some(n) => if n > 0 then No(NotEvaluated, UndisclosedDigests, side) else []
  }

  function Base(form: Form): string { if form.InDelegate? then "delegate_payload[0]." else "" }

  /** The two constraint lists of the contents; None when the second pass fails. */
  function ConstraintFindings(co: seq<Member>, cr: seq<Member>, base: string): Option<Findings> {
    var oc, rc := ConstraintsIn(co), ConstraintsIn(cr);
    if !oc.Arr? then Some((No(NotEvaluated, OriginalMalformed, "original." + base + "constraints"), []))
    else if !rc.Arr? then Some((No(Contradicted, Malformed, "restriction." + base + "constraints"), []))
    else if !Hashable(oc.items) then None
    else
      var added := AllAdded(rc.items, oc.items, base);
      Some((OriginalReasons(oc.items, rc.items, base) + added.0, added.1))
  }

  /** Findings after these reasons. */
  function Following(before: seq<Reason>, found: Option<Findings>): Option<Findings> {
    match found case None => None case Some((reasons, reported)) => Some((before + reasons, reported))
  }

  /** The value of `constraints`, a list unless it is there and something else. */
  function ConstraintsIn(content: seq<Member>): Json {
    match Lookup(content, "constraints") case Some(v) => v case None => Arr([])
  }

  function SupportedKeys(content: seq<Member>): Option<seq<string>> {
    match Lookup(content, "vct") case Some(Str(vct)) => OpenContentKeys(vct) case _ => None
  }

  /** The Mandate Contents, key by key and constraint by constraint. */
  function ContentFindings(form: Form, co: seq<Member>, cr: seq<Member>): Option<Findings> {
    var base := Base(form);
    match SupportedKeys(co)
    case None =>
      Some((if Canon(Obj(co)) != Canon(Obj(cr)) then No(NotEvaluated, VctNotSupported, "original." + base + "vct") else [], []))
    case Some(known) =>
      if Lookup(cr, "vct") != Lookup(co, "vct") then Some((No(Contradicted, ClaimChanged, "restriction." + base + "vct"), []))
      else Following(KeysReasons(UnionKeys(co, cr), co, cr, ContentRules(form, known), base), ConstraintFindings(co, cr, base))
  }

  function PayloadReasons(form: Form, o: seq<Member>, r: seq<Member>): seq<Reason> {
    if form.InDelegate? then KeysReasons(UnionKeys(o, r), o, r, PayloadRules, "") else []
  }

  /** The reasons that end the evaluation before the claims are read. */
  function EarlyReasons(o: Artifact, r: Artifact): (seq<Reason>, bool) {
    var key := if SameKey(o.jwk, r.jwk) then [] else No(Contradicted, IssuerKeyDiffers, "restriction");
    var hidden := HiddenReasons(o.hidden, Reason(NotEvaluated, OriginalMalformed, "original"), "original")
                  + HiddenReasons(r.hidden, Reason(Contradicted, Malformed, "restriction"), "restriction");
    (key + hidden, hidden != [])
  }

  /** What the evaluation finds; None when it raises a TypeError. */
  function RestrictionFindings(o: Artifact, r: Artifact): Option<Findings> {
    var (early, stop) := EarlyReasons(o, r);
    if stop then Some((early, []))
    else if o.disclosable then Some((early + No(NotEvaluated, OriginalDisclosable, "original"), []))
    else
      match (MandateForm(o.claims), MandateForm(r.claims))
      case (Some((fo, co)), Some((fr, cr))) =>
        if fo != fr then Some((early + No(NotEvaluated, FormDiffers, "restriction"), []))
        else Following(early + PayloadReasons(fo, o.claims, r.claims), ContentFindings(fo, co, cr))
      case (Some(_), None) => Some((early + No(NotEvaluated, FormUnsupported, "restriction"), []))
      case (None, Some(_)) => Some((early + No(NotEvaluated, FormUnsupported, "original"), []))
      case (None, None) =>
        Some((early + No(NotEvaluated, FormUnsupported, "original") + No(NotEvaluated, FormUnsupported, "restriction"), []))
  }

  /** The state is the highest among the reasons; without one the record is verified. */
  function StateOf(reasons: seq<Reason>): Verdict {
    if exists i :: 0 <= i < |reasons| && reasons[i].verdict == Contradicted then Contradicted
    else if reasons != [] then NotEvaluated
    else Verified
  }

  /** The verdict of the evaluation, when it gives one. */
  function Outcome(o: Artifact, r: Artifact): Option<Verdict> {
    match RestrictionFindings(o, r) case None => None case Some((reasons, _)) => Some(StateOf(reasons))
  }

  /** The Mandate Contents: the keys, then the two passes over the constraints. */
  method CompareContents(form: Form, co: seq<Member>, cr: seq<Member>) returns (found: Option<Findings>)
    ensures found == ContentFindings(form, co, cr)
  {
    hide UnionKeys, KeysReasons, OriginalReasons, AllAdded, Canon, OpenContentKeys, Hashable;
    var base := Base(form);
    var supported := SupportedKeys(co);
    if supported.None? {
      return Some((if Canon(Obj(co)) != Canon(Obj(cr)) then No(NotEvaluated, VctNotSupported, "original." + base + "vct") else [], []));
    }
    if Lookup(cr, "vct") != Lookup(co, "vct") { return Some((No(Contradicted, ClaimChanged, "restriction." + base + "vct"), [])); }
    var reasons := CompareKeys(co, cr, ContentRules(form, supported.value), base);
    var oc, rc := ConstraintsIn(co), ConstraintsIn(cr);
    if !oc.Arr? { return Some((reasons + No(NotEvaluated, OriginalMalformed, "original." + base + "constraints"), [])); }
    if !rc.Arr? { return Some((reasons + No(Contradicted, Malformed, "restriction." + base + "constraints"), [])); }
    var unmet := CheckOriginals(oc.items, rc.items, base);
    var added := CheckAdded(rc.items, oc.items, base);
    return Following(reasons, Following(unmet, added));
  }

  /** evaluate_restriction: the state, the reasons and the reports, or nothing when it raises. */
  method EvaluateRestriction(original: Artifact, restriction: Artifact) returns (state: Option<Verdict>, found: Option<Findings>)
    ensures found == RestrictionFindings(original, restriction)
    ensures state == Outcome(original, restriction)
  {
    hide ContentFindings, KeysReasons, UnionKeys, StateOf;
    var reasons := if SameKey(original.jwk, restriction.jwk) then [] else No(Contradicted, IssuerKeyDiffers, "restriction");
    var hidden := HiddenReasons(original.hidden, Reason(NotEvaluated, OriginalMalformed, "original"), "original")
                  + HiddenReasons(restriction.hidden, Reason(Contradicted, Malformed, "restriction"), "restriction");
    reasons := reasons + hidden;
    if hidden != [] { return Some(StateOf(reasons)), Some((reasons, [])); }
    if original.disclosable {
      reasons := reasons + No(NotEvaluated, OriginalDisclosable, "original");
      return Some(StateOf(reasons)), Some((reasons, []));
    }
    var o, r := MandateForm(original.claims), MandateForm(restriction.claims);
    if o.None? || r.None? {
      if o.None? { reasons := reasons + No(NotEvaluated, FormUnsupported, "original"); }
      if r.None? { reasons := reasons + No(NotEvaluated, FormUnsupported, "restriction"); }
      return Some(StateOf(reasons)), Some((reasons, []));
    }
    if o.value.0 != r.value.0 {
      reasons := reasons + No(NotEvaluated, FormDiffers, "restriction");
      return Some(StateOf(reasons)), Some((reasons, []));
    }
    var beside: seq<Reason> := [];
    if o.value.0.InDelegate? { beside := CompareKeys(original.claims, restriction.claims, PayloadRules, ""); }
    found := CompareContents(o.value.0, o.value.1, r.value.1);
    found := Following(reasons + beside, found);
    state := if found.None? then None else Some(StateOf(found.value.0));
  }

  /** What the run over all records of a pack gives: a verdict for each, or, when one raises, none at all. */
  ghost predicate EvaluatedTogether(pairs: seq<(Artifact, Artifact)>, states: Option<seq<Verdict>>) {
    && (states.Some? <==> forall i :: 0 <= i < |pairs| ==> Outcome(pairs[i].0, pairs[i].1).Some?)
    && (states.Some? ==> |states.value| == |pairs| &&
                         forall i :: 0 <= i < |pairs| ==> Some(states.value[i]) == Outcome(pairs[i].0, pairs[i].1))
  }

  /** The records of one pack, one after the other, each against its original. */
  method EvaluateRecords(pairs: seq<(Artifact, Artifact)>) returns (states: Option<seq<Verdict>>)
    ensures EvaluatedTogether(pairs, states)
  {
    hide Outcome, RestrictionFindings, StateOf;
    var done: seq<Verdict> := [];
    for i := 0 to |pairs|
      invariant |done| == i && forall j :: 0 <= j < i ==> Some(done[j]) == Outcome(pairs[j].0, pairs[j].1)
    {
      var state, _ := EvaluateRestriction(pairs[i].0, pairs[i].1);
      if state.None? { return None; }
      done := done + [state.value];
    }
    return Some(done);
  }
}
