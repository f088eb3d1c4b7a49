/** What a mandate admits, and the proof that a record found within its original admits no more. */
module RestrictionMeaning {
  import opened Values
  import opened CanonicalJson
  import opened CanonicalSame
  import opened Restriction

  // ------------------------------------------------------------------ the meaning

  /** A line of a checkout. */
  datatype Line = Line(item: Text, quantity: nat)

  /** One presentation of the mandate: what is paid, when, for what, and the values the closed mandate carries. */
  datatype Use = Use(currency: string, amount: int, moment: int, reference: string,
                     carried: map<string, Text>, checkout: seq<Line>)

  /** All the uses made so far, in order. */
  type History = seq<Use>

  /** What AP2 leaves to its implementations, taken as arbitrary. `matches`: an allowed element names the party of a use;
      `fits`: an acceptable item is the one of a line; `emptyFitsAll`: an empty list of acceptable items is a wildcard;
      `gap`: how far apart the uses of each frequency are; `calendar`: a moment as the number YYYYMMDDhhmmss. The rest are
      the meanings of what no rule of the evaluation interprets: they may depend only on the canonical form. */
  datatype World = World(
    matches: (string, Text, Use) -> bool,
    fits: (Text, Line) -> bool,
    emptyFitsAll: bool,
    gap: nat -> int,
    calendar: int -> nat,
    otherBound: (string, string, int) -> bool,
    otherConstraint: (Text, History) -> bool,
    otherClaim: (string, Option<Text>, History) -> bool,
    otherContent: (Text, History) -> bool)

  /** The order of frequencies is from the least to the most separated. */
  ghost predicate Ordered(w: World) { forall i: nat, j: nat :: i <= j ==> w.gap(i) <= w.gap(j) }

  function Total(h: History): int { if h == [] then 0 else h[0].amount + Total(h[1..]) }

  ghost predicate InRange(c: Json, u: Use) {
    && u.currency == StrAt(c, "currency")
    && u.amount <= IntAt(c, "max")
    && (Field(c, "min").Some? ==> u.amount >= IntAt(c, "min"))
  }

  ghost predicate Spaced(w: World, c: Json, h: History) {
    forall i :: 0 < i < |h| ==> h[i].moment - h[i - 1].moment >= w.gap(IndexOf(StrAt(c, "frequency"), FREQ_ORDER))
  }

  ghost predicate Listed(w: World, c: Json, u: Use) {
    exists j :: 0 <= j < |ListAt(c, "allowed")| && w.matches(StrAt(c, "type"), Canon(ListAt(c, "allowed")[j]), u)
  }

  /** One bound of an execution date: its day, or its second, against the moment of the use. */
  ghost predicate BoundAdmits(w: World, c: Json, bound: string, isLower: bool, u: Use) {
    Field(c, bound).Some? ==>
      var s := StrAt(c, bound);
      match FormOf(s)
      case None => w.otherBound(bound, s, u.moment)
      case Some(form) =>
        var at := w.calendar(u.moment) / if form.DateOnly? then 1000000 else 1;
        if isLower then Reading(s) <= at else at <= Reading(s)
  }

  ghost predicate Acceptable(w: World, it: Json, line: Line) {
    var xs := ListAt(it, "acceptable_items");
    (xs == [] && w.emptyFitsAll) || exists k :: 0 <= k < |xs| && w.fits(Canon(xs[k]), line)
  }

  function Sum(xs: seq<nat>): nat { if xs == [] then 0 else xs[0] + Sum(xs[1..]) }

  /** The quantities of one line over all the items. */
  function Column(flow: seq<seq<nat>>, j: nat): seq<nat>
    requires forall i :: 0 <= i < |flow| ==> j < |flow[i]|
  {
    seq(|flow|, i requires 0 <= i < |flow| => flow[i][j])
  }

  /** A flow between the constraint's items and the lines that uses up both. */
  ghost predicate Saturates(w: World, items: seq<Json>, lines: seq<Line>, flow: seq<seq<nat>>) {
    && |flow| == |items|
    && (forall i :: 0 <= i < |flow| ==> |flow[i]| == |lines| && Sum(flow[i]) == IntAt(items[i], "quantity"))
    && (forall j :: 0 <= j < |lines| ==> Sum(Column(flow, j)) == lines[j].quantity)
    && (forall i, j :: 0 <= i < |flow| && 0 <= j < |lines| && flow[i][j] > 0 ==> Acceptable(w, items[i], lines[j]))
  }

  ghost predicate Fills(w: World, c: Json, u: Use) {
    exists flow :: Saturates(w, ListAt(c, "items"), u.checkout, flow)
  }

  /** The histories a well-formed constraint admits. */
  ghost predicate Satisfies(w: World, f: Family, c: Json, h: History) {
    match f
    case AmountRange => forall i :: 0 <= i < |h| ==> InRange(c, h[i])
    case Budget =>
      (forall i :: 0 <= i < |h| ==> h[i].currency == StrAt(c, "currency")) && Total(h) <= IntAt(c, "max")
    case Recurrence =>
      (Field(c, "max_occurrences").Some? ==> |h| <= IntAt(c, "max_occurrences")) && Spaced(w, c, h)
    case Allowed => forall i :: 0 <= i < |h| ==> Listed(w, c, h[i])
    case ExecutionDate =>
      forall i :: 0 <= i < |h| ==>
        BoundAdmits(w, c, "not_before", true, h[i]) && BoundAdmits(w, c, "not_after", false, h[i])
    case Reference => forall i :: 0 <= i < |h| ==> h[i].reference == StrAt(c, "conditional_transaction_id")
    case LineItems => forall i :: 0 <= i < |h| ==> Fills(w, c, h[i])
  }

  /** The histories a constraint admits: one the evaluation does not understand means something unknown. */
  ghost predicate Admits(w: World, c: Json, h: History) {
    if ShapeOf(c).WellFormed? then Satisfies(w, FamilyOf(TypeOf(c).value).value, c, h)
    else w.otherConstraint(Canon(c), h)
  }

  /** The reference to the original binds the record; it is no term. */
  ghost predicate AllAdmit(w: World, cs: seq<Json>, h: History) {
    forall i :: 0 <= i < |cs| && !IsRef(cs[i]) ==> Admits(w, cs[i], h)
  }

  ghost predicate ClaimAdmits(w: World, rule: Rule, k: string, v: Option<Json>, h: History) {
    match rule
    case NotAfter =>
      if v.Some? && v.value.Num? then forall i :: 0 <= i < |h| ==> h[i].moment < v.value.n
      else v.Some? ==> w.otherClaim(k, CanonOf(v), h)
    case NotBefore =>
      if v.Some? && v.value.Num? then forall i :: 0 <= i < |h| ==> h[i].moment >= v.value.n
      else v.Some? ==> w.otherClaim(k, CanonOf(v), h)
    case Preset =>
      v.Some? ==> forall i :: 0 <= i < |h| ==> k in h[i].carried && h[i].carried[k] == Canon(v.value)
    case Equal(_) => w.otherClaim(k, CanonOf(v), h)
    case Unlisted => w.otherClaim(k, CanonOf(v), h)
    case Typed(_) => true
    case Ignored => true
  }

  ghost predicate ClaimsAdmit(w: World, rules: Rules, ms: seq<Member>, h: History) {
    forall k :: ClaimAdmits(w, rules.For(k), k, Lookup(ms, k), h)
  }

  ghost predicate ContentAdmits(w: World, form: Form, content: seq<Member>, h: History) {
    && (match SupportedKeys(content)
        case None => w.otherContent(Canon(Obj(content)), h)
        case Some(known) =>
          && ClaimsAdmit(w, ContentRules(form, known), content, h)
          && w.otherClaim("vct", CanonOf(Lookup(content, "vct")), h))
    && (ConstraintsIn(content).Arr? ==> AllAdmit(w, ConstraintsIn(content).items, h))
  }

  /** The histories a mandate admits. */
  ghost predicate MandateAdmits(w: World, claims: seq<Member>, h: History) {
    match MandateForm(claims)
    case None => w.otherContent(Canon(Obj(claims)), h)
    case Some((form, content)) =>
      && (form.InDelegate? ==> ClaimsAdmit(w, PayloadRules, claims, h))
      && ContentAdmits(w, form, content, h)
  }

  // ------------------------------------------------------------------ dates: text order is calendar order

  lemma {:induction false} BelowSnoc(a: string, b: string, x: char, y: char)
    requires |a| == |b|
    ensures Below(a + [x], b + [y]) <==> Below(a, b) || (a == b && x < y)
    decreases |a|
  {
    if a == [] {
      assert a + [x] == [x] && b + [y] == [y] && [x][1..] == [y][1..] == [];
    } else {
      assert (a + [x])[1..] == a[1..] + [x] && (b + [y])[1..] == b[1..] + [y];
      BelowSnoc(a[1..], b[1..], x, y);
      assert a == b <==> a[0] == b[0] && a[1..] == b[1..] by {
        assert a == [a[0]] + a[1..] && b == [b[0]] + b[1..];
      }
    }
  }

  /** Among texts of one pattern, code point order is the order of the numbers their digits spell. */
  lemma {:induction false} PatternOrder(a: string, b: string, pattern: string)
    requires Matches(a, pattern) && Matches(b, pattern)
    ensures Below(a, b) <==> Reading(a) < Reading(b)
    ensures a == b <==> Reading(a) == Reading(b)
    decreases |a|
  {
    if a != [] {
      hide Below;
      var n := |a| - 1;
      assert a == a[..n] + [a[n]] && b == b[..n] + [b[n]];
      assert Matches(a[..n], pattern[..n]) && Matches(b[..n], pattern[..n]);
      PatternOrder(a[..n], b[..n], pattern[..n]);
      BelowSnoc(a[..n], b[..n], a[n], b[n]);
    }
  }

  lemma FormOrder(a: string, b: string)
    requires FormOf(a).Some? && FormOf(a) == FormOf(b)
    ensures Below(a, b) <==> Reading(a) < Reading(b)
  {
    hide Reading, Below;
    if Matches(a, DATE) {
      PatternOrder(a, b, DATE);
    } else {
      PatternOrder(a, b, DATE_TIME);
    }
  }

  // ------------------------------------------------------------------ within is sound, family by family

  lemma SubsetNames(narrow: seq<Json>, wide: seq<Json>, i: nat) returns (j: nat)
    requires Subset(narrow, wide) && i < |narrow|
    ensures j < |wide| && Canon(wide[j]) == Canon(narrow[i])
  {
    assert Canon(narrow[i]) in CanonSet(wide);
    var x :| x in wide && Canon(x) == Canon(narrow[i]);
    j :| 0 <= j < |wide| && wide[j] == x;
  }

  lemma AllowedSound(w: World, o: Json, r: Json, u: Use)
    requires TypeOf(o).Some? && TypeOf(r) == TypeOf(o)
    requires Subset(ListAt(r, "allowed"), ListAt(o, "allowed")) && Listed(w, r, u)
    ensures Listed(w, o, u)
  {
    hide Canon;
    var i :| 0 <= i < |ListAt(r, "allowed")| && w.matches(StrAt(r, "type"), Canon(ListAt(r, "allowed")[i]), u);
    var j := SubsetNames(ListAt(r, "allowed"), ListAt(o, "allowed"), i);
  }

  lemma BoundSound(w: World, o: Json, r: Json, bound: string, isLower: bool, u: Use)
    requires BoundWithin(o, r, bound, isLower) == Some(true) && BoundAdmits(w, r, bound, isLower, u)
    ensures BoundAdmits(w, o, bound, isLower, u)
  {
    hide FormOf, Reading, Below;
    if Field(o, bound).Some? {
      FormOrder(StrAt(o, bound), StrAt(r, bound));
      FormOrder(StrAt(r, bound), StrAt(o, bound));
    }
  }

  lemma BothBounds(o: Json, r: Json)
    requires Within(ExecutionDate, o, r) == Some(true)
    ensures BoundWithin(o, r, "not_before", true) == BoundWithin(o, r, "not_after", false) == Some(true)
  {
    hide BoundWithin;
    var from, to := BoundWithin(o, r, "not_before", true), BoundWithin(o, r, "not_after", false);
    assert from.Some? && from.value && to.Some? && to.value;
  }

  lemma AcceptableSound(w: World, o: Json, r: Json, line: Line)
    requires LineWithin(o, r) && Acceptable(w, r, line)
    ensures Acceptable(w, o, line)
  {
    hide Canon;
    var rs, os := ListAt(r, "acceptable_items"), ListAt(o, "acceptable_items");
    if rs != [] {
      var k :| 0 <= k < |rs| && w.fits(Canon(rs[k]), line);
      var j := SubsetNames(rs, os, k);
    }
  }

  lemma FillsSound(w: World, o: Json, r: Json, u: Use)
    requires Within(LineItems, o, r) == Some(true) && Fills(w, r, u)
    ensures Fills(w, o, u)
  {
    hide Acceptable, Sum, Column, Subset;
    var os, rs := ListAt(o, "items"), ListAt(r, "items");
    var flow :| Saturates(w, rs, u.checkout, flow);
    forall i, j | 0 <= i < |flow| && 0 <= j < |u.checkout| && flow[i][j] > 0 ensures Acceptable(w, os[i], u.checkout[j]) {
      AcceptableSound(w, os[i], rs[i], u.checkout[j]);
    }
    assert Saturates(w, os, u.checkout, flow);
  }

  lemma SpacedSound(w: World, o: Json, r: Json, h: History)
    requires Ordered(w) && Spaced(w, r, h)
    requires IndexOf(StrAt(r, "frequency"), FREQ_ORDER) >= IndexOf(StrAt(o, "frequency"), FREQ_ORDER)
    ensures Spaced(w, o, h)
  {}

  /** A constraint within another admits no history the other refuses. */
  lemma WithinIsSound(w: World, f: Family, o: Json, r: Json, h: History)
    requires Ordered(w) && TypeOf(o).Some? && TypeOf(r) == TypeOf(o)
    requires Within(f, o, r) == Some(true) && Satisfies(w, f, r, h)
    ensures Satisfies(w, f, o, h)
  {
    hide Listed, Fills, Spaced, BoundAdmits, Subset, TypeOf, LineWithin, BoundWithin;
    match f {
      case AmountRange =>
      case Budget =>
      case Reference =>
      case Recurrence => SpacedSound(w, o, r, h);
      case Allowed =>
        forall i | 0 <= i < |h| ensures Listed(w, o, h[i]) { AllowedSound(w, o, r, h[i]); }
      case ExecutionDate =>
        BothBounds(o, r);
        forall i | 0 <= i < |h|
          ensures BoundAdmits(w, o, "not_before", true, h[i]) && BoundAdmits(w, o, "not_after", false, h[i])
        {
          assert BoundAdmits(w, r, "not_before", true, h[i]) && BoundAdmits(w, r, "not_after", false, h[i]);
          BoundSound(w, o, r, "not_before", true, h[i]);
          BoundSound(w, o, r, "not_after", false, h[i]);
        }
      case LineItems =>
        forall i | 0 <= i < |h| ensures Fills(w, o, h[i]) { FillsSound(w, o, r, h[i]); }
    }
  }

  // ------------------------------------------------------------------ the shape, said without an order of checks

  ghost predicate TypesRight(c: Json, f: Family) {
    && (forall i :: 0 <= i < |RequiredKeys(f)| ==> !BadAt(c, RequiredKeys(f)[i], true))
    && (forall i :: 0 <= i < |OptionalKeys(f)| ==> !BadAt(c, OptionalKeys(f)[i], false))
    && (f.LineItems? ==> forall i :: 0 <= i < |ListAt(c, "items")| ==> ItemOk(ListAt(c, "items")[i]))
  }

  ghost predicate OnlyNames(c: Json, known: seq<string>) { forall k :: Field(c, k).Some? ==> k in known }

  ghost predicate Known(c: Json, f: Family) {
    && OnlyNames(c, KnownNames(f))
    && (f.LineItems? ==> forall i :: 0 <= i < |ListAt(c, "items")| ==> OnlyNames(ListAt(c, "items")[i], LINE_ITEM_KEYS))
  }

  lemma {:induction false} FirstBadFinds(c: Json, ks: Keys, required: bool)
    ensures FirstBad(c, ks, required).None? <==> forall i :: 0 <= i < |ks| ==> !BadAt(c, ks[i], required)
    decreases |ks|
  {
    hide BadAt;
    if ks != [] {
      FirstBadFinds(c, ks[1..], required);
      assert forall i :: 0 <= i < |ks[1..]| ==> ks[1..][i] == ks[i + 1];
      assert forall i :: 1 <= i < |ks| ==> ks[i] == ks[1..][i - 1];
    }
  }

  lemma {:induction false} FirstBadItemFinds(items: seq<Json>, i: nat)
    ensures FirstBadItem(items, i).None? <==> forall j :: i <= j < |items| ==> ItemOk(items[j])
    decreases |items| - i
  {
    hide ItemOk;
    if i < |items| { FirstBadItemFinds(items, i + 1); }
  }

  lemma {:induction false} StrangeFinds(ms: seq<Member>, known: seq<string>)
    ensures Strange(ms, known) == [] <==> forall k :: Lookup(ms, k).Some? ==> k in known
    decreases |ms|
  {
    if ms != [] {
      StrangeFinds(ms[1..], known);
      assert Lookup(ms, ms[0].key).Some?;
      forall k ensures Lookup(ms, k).Some? <==> k == ms[0].key || Lookup(ms[1..], k).Some? {}
    }
  }

  lemma StrangeNameFinds(c: Json, known: seq<string>)
    ensures StrangeName(c, known).None? <==> OnlyNames(c, known)
  {
    if c.Obj? {
      StrangeFinds(c.members, known);
      assert forall k :: Field(c, k) == Lookup(c.members, k);
    }
  }

  lemma {:induction false} FirstStrangeItemFinds(items: seq<Json>, i: nat)
    ensures FirstStrangeItem(items, i).None? <==> forall j :: i <= j < |items| ==> OnlyNames(items[j], LINE_ITEM_KEYS)
    decreases |items| - i
  {
    hide OnlyNames, StrangeName;
    if i < |items| {
      StrangeNameFinds(items[i], LINE_ITEM_KEYS);
      FirstStrangeItemFinds(items, i + 1);
    }
  }

  /** Types first, then names: a constraint is well-formed when both are right, and one with an unknown name is right in
      every type. */
  lemma ShapeMeans(c: Json, t: string, f: Family)
    requires TypeOf(c) == Some(t) && FamilyOf(t) == Some(f)
    ensures ShapeOf(c).WellFormed? <==> TypesRight(c, f) && Known(c, f)
    ensures ShapeOf(c).UnknownName? <==> TypesRight(c, f) && !Known(c, f)
    ensures ShapeOf(c).Misformed? <==> !TypesRight(c, f)
  {
    hide FirstBad, BadAt, ItemOk, FirstBadItem, StrangeName, OnlyNames, FirstStrangeItem, TypeOf, FamilyOf;
    FirstBadFinds(c, RequiredKeys(f), true);
    FirstBadFinds(c, OptionalKeys(f), false);
    var items := if f.LineItems? then ListAt(c, "items") else [];
    FirstBadItemFinds(items, 0);
    StrangeNameFinds(c, KnownNames(f));
    FirstStrangeItemFinds(items, 0);
  }

  // ------------------------------------------------------------------ canonically equal constraints mean the same

  lemma AllObjectsSame(a: Json, b: Json)
    requires Same(a, b) && a.Arr? && b.Arr?
    ensures AllObjects(a.items) <==> AllObjects(b.items)
  {
    hide Same;
    forall i | 0 <= i < |a.items| ensures |a.items| == |b.items| && (a.items[i].Obj? <==> b.items[i].Obj?) {
      SameItems(a, b, i);
      SameKind(a.items[i], b.items[i]);
    }
    SameKind(a, b);
  }

  lemma IsKindSame(kind: Kind, a: Json, b: Json)
    requires Same(a, b)
    ensures IsKind(kind, a) <==> IsKind(kind, b)
  {
    hide Same;
    SameKind(a, b);
    if a.Arr? { AllObjectsSame(a, b); }
  }

  lemma BadAtSame(a: Json, b: Json, key: (string, Kind), required: bool)
    requires Same(a, b)
    ensures BadAt(a, key, required) <==> BadAt(b, key, required)
  {
    hide Same, Field, IsKind;
    SameField(a, b, key.0);
    if Field(a, key.0).Some? { IsKindSame(key.1, Field(a, key.0).value, Field(b, key.0).value); }
  }

  lemma ItemOkSame(a: Json, b: Json)
    requires Same(a, b)
    ensures ItemOk(a) <==> ItemOk(b)
  {
    hide Same, Field, IsKind, IntAt;
    SameReads(a, b, "quantity");
    BadAtSame(a, b, ("id", AString), true);
    BadAtSame(a, b, ("acceptable_items", Objects), true);
    BadAtSame(a, b, ("quantity", AnInteger), true);
  }

  lemma OnlyNamesSame(a: Json, b: Json, known: seq<string>)
    requires Same(a, b)
    ensures OnlyNames(a, known) <==> OnlyNames(b, known)
  {
    hide Same, Field;
    forall k ensures Field(a, k).Some? <==> Field(b, k).Some? { SameField(a, b, k); }
  }

  lemma KeysSame(a: Json, b: Json, ks: Keys, required: bool)
    requires Same(a, b) && forall i :: 0 <= i < |ks| ==> !BadAt(a, ks[i], required)
    ensures forall i :: 0 <= i < |ks| ==> !BadAt(b, ks[i], required)
  {
    hide Same, BadAt;
    forall i | 0 <= i < |ks| ensures !BadAt(b, ks[i], required) { BadAtSame(a, b, ks[i], required); }
  }

  lemma ItemsSame(a: Json, b: Json)
    requires Same(a, b)
    ensures |ListAt(a, "items")| == |ListAt(b, "items")|
    ensures forall i :: 0 <= i < |ListAt(a, "items")| ==>
              && (ItemOk(ListAt(a, "items")[i]) <==> ItemOk(ListAt(b, "items")[i]))
              && (OnlyNames(ListAt(a, "items")[i], LINE_ITEM_KEYS) <==> OnlyNames(ListAt(b, "items")[i], LINE_ITEM_KEYS))
  {
    hide Same, ItemOk, OnlyNames, ListAt;
    SameReads(a, b, "items");
    var xs, ys := ListAt(a, "items"), ListAt(b, "items");
    forall i | 0 <= i < |xs|
      ensures (ItemOk(xs[i]) <==> ItemOk(ys[i])) && (OnlyNames(xs[i], LINE_ITEM_KEYS) <==> OnlyNames(ys[i], LINE_ITEM_KEYS))
    {
      ItemOkSame(xs[i], ys[i]);
      OnlyNamesSame(xs[i], ys[i], LINE_ITEM_KEYS);
    }
  }

  lemma TypedSame(a: Json, b: Json, f: Family)
    requires Same(a, b)
    ensures TypesRight(a, f) ==> TypesRight(b, f)
    ensures Known(a, f) ==> Known(b, f)
  {
    hide Same, BadAt, ItemOk, OnlyNames, ListAt, RequiredKeys, OptionalKeys, KnownNames;
    if TypesRight(a, f) {
      KeysSame(a, b, RequiredKeys(f), true);
      KeysSame(a, b, OptionalKeys(f), false);
    }
    OnlyNamesSame(a, b, KnownNames(f));
    ItemsSame(a, b);
  }

  lemma TypeSame(a: Json, b: Json)
    requires Same(a, b)
    ensures TypeOf(a) == TypeOf(b) && (IsRef(a) <==> IsRef(b))
  {
    hide Same, Lookup;
    SameField(a, b, "type");
    if Field(a, "type").Some? { SameKind(Field(a, "type").value, Field(b, "type").value); }
  }

  lemma ShapeSame(a: Json, b: Json)
    requires Same(a, b)
    ensures ShapeOf(a).WellFormed? <==> ShapeOf(b).WellFormed?
  {
    hide Same, TypesRight, Known, TypeOf, FamilyOf;
    TypeSame(a, b);
    if TypeOf(a).Some? && FamilyOf(TypeOf(a).value).Some? {
      var t, f := TypeOf(a).value, FamilyOf(TypeOf(a).value).value;
      ShapeMeans(a, t, f);
      ShapeMeans(b, t, f);
      TypedSame(a, b, f);
      SameSym(a, b);
      TypedSame(b, a, f);
    }
  }

  /** A copy is within the original: every value of R canonically equal to the value of O meets it. */
  lemma CopyLists(a: Json, b: Json, k: string)
    requires Same(a, b)
    ensures Subset(ListAt(a, k), ListAt(b, k))
  {
    hide Same, ListAt;
    SameReads(a, b, k);
    var xs, ys := ListAt(a, k), ListAt(b, k);
    forall i | 0 <= i < |xs| ensures Canon(xs[i]) in CanonSet(ys) {
      CanonSameForward(xs[i], ys[i]);
      assert ys[i] in ys;
    }
  }

  lemma BoundSame(w: World, a: Json, b: Json, bound: string, isLower: bool, u: Use)
    requires Same(a, b) && BoundAdmits(w, a, bound, isLower, u)
    ensures BoundAdmits(w, b, bound, isLower, u)
  {
    hide Same, StrAt, Field, FormOf, Reading;
    SameReads(a, b, bound);
  }

  lemma LineWithinSame(a: Json, b: Json)
    requires Same(a, b)
    ensures LineWithin(a, b)
  {
    hide Same, StrAt, ListAt, IntAt, Subset;
    SameSym(a, b);
    SameReads(b, a, "id");
    SameReads(b, a, "quantity");
    SameReads(b, a, "acceptable_items");
    CopyLists(b, a, "acceptable_items");
  }

  lemma SatisfiesSame(w: World, f: Family, a: Json, b: Json, h: History)
    requires Ordered(w) && Same(a, b) && TypeOf(a).Some? && Satisfies(w, f, a, h)
    ensures Satisfies(w, f, b, h)
  {
    hide Same, Listed, Fills, Spaced, BoundAdmits, Subset, TypeOf, LineWithin, BoundWithin, StrAt, IntAt, ListAt, Field;
    TypeSame(a, b);
    if f.ExecutionDate? {
      forall i | 0 <= i < |h|
        ensures BoundAdmits(w, b, "not_before", true, h[i]) && BoundAdmits(w, b, "not_after", false, h[i])
      {
        BoundSame(w, a, b, "not_before", true, h[i]);
        BoundSame(w, a, b, "not_after", false, h[i]);
      }
    } else {
      CopyIsWithin(f, a, b);
      WithinIsSound(w, f, b, a, h);
    }
  }

  lemma CopyIsWithin(f: Family, a: Json, b: Json)
    requires Same(a, b) && !f.ExecutionDate?
    ensures Within(f, b, a) == Some(true)
  {
    hide Same, Subset, LineWithin, BoundWithin, StrAt, IntAt, ListAt, Field;
    match f {
      case AmountRange => SameReads(a, b, "currency"); SameReads(a, b, "max"); SameReads(a, b, "min");
      case Budget => SameReads(a, b, "currency"); SameReads(a, b, "max");
      case Recurrence => SameReads(a, b, "frequency"); SameReads(a, b, "max_occurrences");
      case Allowed => CopyLists(a, b, "allowed");
      case Reference => SameReads(a, b, "conditional_transaction_id");
      case LineItems =>
        SameReads(a, b, "items");
        forall i | 0 <= i < |ListAt(a, "items")| ensures LineWithin(ListAt(b, "items")[i], ListAt(a, "items")[i]) {
          SameSym(ListAt(a, "items")[i], ListAt(b, "items")[i]);
          LineWithinSame(ListAt(b, "items")[i], ListAt(a, "items")[i]);
        }
    }
  }

  /** Canonically equal constraints admit the same histories. */
  lemma CanonicallyEqualAdmit(w: World, a: Json, b: Json, h: History)
    requires Ordered(w) && Strict(a) && Strict(b) && Canon(a) == Canon(b) && Admits(w, a, h)
    ensures Admits(w, b, h)
  {
    hide Satisfies, Same, Strict, ShapeOf, FamilyOf;
    CanonSame(a, b);
    ShapeSame(a, b);
    TypeSame(a, b);
    if ShapeOf(a).WellFormed? {
      WellFormedType(a);
      SatisfiesSame(w, FamilyOf(TypeOf(a).value).value, a, b, h);
    }
  }
}
