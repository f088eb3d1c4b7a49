/** Section 7.1 of RFC 9901 as a plain recursive rule, without any state threaded through the walk, and the proof
    that the resolver computes it. */
module DisclosureRule {
  import opened Values
  import opened Resolution

  /** What a value becomes: the disclosed value and every digest met in it, in order, repetitions included. */
  datatype Expansion = Expansion(value: Json, met: seq<string>)
  datatype Claims = Claims(members: seq<Member>, met: seq<string>)
  datatype Elements = Elements(items: seq<Json>, met: seq<string>)

  /** The expansion of `node` when it may still nest `room` levels deep. */
  ghost function Expand(t: Table, room: nat, node: Json): Option<Expansion>
    decreases room, 1, 0
  {
    if !IsContainer(node) then Some(Expansion(node, []))
    else if room == 0 then None
    else if node.Arr? then
      match ExpandItems(t, room - 1, node.items)
      case None => None
      case Some(e) => Some(Expansion(Arr(e.items), e.met))
    else Assemble(ExpandMembers(t, room - 1, node.members), ExpandDigests(t, room - 1, DigestsOf(node.members)))
  }

  /** An object from its open and its disclosed claims, none of which may share a name. */
  ghost function Assemble(open: Option<Claims>, hidden: Option<Claims>): Option<Expansion> {
    match (open, hidden)
    case (Some(p), Some(d)) =>
      if UniqueKeys(p.members + d.members) then Some(Expansion(Obj(p.members + d.members), p.met + d.met)) else None
    case _ => None
  }

  /** The claims written in the open. */
  ghost function ExpandMembers(t: Table, room: nat, ms: seq<Member>): Option<Claims>
    decreases room, 2, |ms|
  {
    if ms == [] then Some(Claims([], []))
    else
      match (ExpandMember(t, room, ms[0]), ExpandMembers(t, room, ms[1..]))
      case (Some(a), Some(b)) => Some(Claims(a.members + b.members, a.met + b.met))
      case _ => None
  }

  ghost function ExpandMember(t: Table, room: nat, m: Member): Option<Claims>
    decreases room, 2, 0
  {
    if m.key == "_sd" || m.key == "_sd_alg" then Some(Claims([], []))
    else
      match Expand(t, room, m.val)
      case None => None
      case Some(e) => Some(Claims([Member(m.key, e.value)], e.met))
  }

  /** The claims behind the digests of `_sd`. */
  ghost function ExpandDigests(t: Table, room: nat, digests: Option<seq<string>>): Option<Claims>
    decreases room, 3, match digests case None => 0 case Some(ds) => |ds|
  {
    match digests
    case None => None
    case Some(ds) =>
      if ds == [] then Some(Claims([], []))
      else
        match (ExpandDigest(t, room, ds[0]), ExpandDigests(t, room, Some(ds[1..])))
        case (Some(a), Some(b)) => Some(Claims(a.members + b.members, a.met + b.met))
        case _ => None
  }

  predicate WellNamed(arr: seq<Json>) {
    |arr| == 3 && arr[1].Str? && arr[1].s != "_sd" && arr[1].s != "..."
  }

  ghost function ExpandDigest(t: Table, room: nat, d: string): Option<Claims>
    decreases room, 2, 0
  {
    if d !in t then Some(Claims([], [d]))
    else if !WellNamed(t[d]) then None
    else
      match Expand(t, room, t[d][2])
      case None => None
      case Some(e) => Some(Claims([Member(t[d][1].s, e.value)], [d] + e.met))
  }

  ghost function ExpandItems(t: Table, room: nat, xs: seq<Json>): Option<Elements>
    decreases room, 3, |xs|
  {
    if xs == [] then Some(Elements([], []))
    else
      match (ExpandItem(t, room, xs[0]), ExpandItems(t, room, xs[1..]))
      case (Some(a), Some(b)) => Some(Elements(a.items + b.items, a.met + b.met))
      case _ => None
  }

  /** A list element: an undisclosed placeholder disappears, a disclosed one is replaced by its value. */
  ghost function ExpandItem(t: Table, room: nat, x: Json): Option<Elements>
    decreases room, 2, 0
  {
    if !(x.Obj? && |x.members| == 1 && x.members[0].key == "...") then
      match Expand(t, room, x)
      case None => None
      case Some(e) => Some(Elements([e.value], e.met))
    else if !x.members[0].val.Str? then None
    else
      var d := x.members[0].val.s;
      if d !in t then Some(Elements([], [d]))
      else if |t[d]| != 2 then None
      else
        match Expand(t, room, t[d][1])
        case None => None
        case Some(e) => Some(Elements([e.value], [d] + e.met))
  }

  /** No digest occurs twice in `met`, and none was met before. */
  ghost predicate Once(met: seq<string>, seen: set<string>) {
    NoDuplicates(met) && forall i :: 0 <= i < |met| ==> met[i] !in seen
  }

  ghost function Elems(s: seq<string>): set<string> {
    set x | x in s
  }

  /** The ledger after meeting `met`. */
  ghost function Advance(t: Table, led: Ledger, met: seq<string>): Ledger {
    Ledger(led.seen + Elems(met), led.encountered + met, led.used + Elems(met) * t.Keys)
  }

  lemma OnceConcat(a: seq<string>, b: seq<string>, seen: set<string>)
    ensures Once(a + b, seen) <==> Once(a, seen) && Once(b, seen + Elems(a))
  {
    var c := a + b;
    if Once(c, seen) {
      forall i, j | 0 <= i < j < |a| ensures a[i] != a[j] { assert c[i] != c[j]; }
      forall i | 0 <= i < |a| ensures a[i] !in seen { assert c[i] !in seen; }
      forall i, j | 0 <= i < j < |b| ensures b[i] != b[j] { assert c[|a| + i] != c[|a| + j]; }
      forall i | 0 <= i < |b| ensures b[i] !in seen + Elems(a) {
        assert c[|a| + i] !in seen;
        assert forall k :: 0 <= k < |a| ==> c[k] != c[|a| + i];
        assert forall k :: 0 <= k < |a| ==> a[k] == c[k];
      }
    }
    if Once(a, seen) && Once(b, seen + Elems(a)) {
      forall i, j | 0 <= i < j < |c| ensures c[i] != c[j] {
        if i < |a| <= j { assert b[j - |a|] !in Elems(a) && a[i] in Elems(a); }
      }
    }
  }

  /** Meeting `a` and then `b` is meeting `a + b`. */
  lemma Chain(t: Table, led: Ledger, a: seq<string>, b: seq<string>)
    ensures Once(a + b, led.seen) <==> Once(a, led.seen) && Once(b, Advance(t, led, a).seen)
    ensures Advance(t, Advance(t, led, a), b) == Advance(t, led, a + b)
  {
    OnceConcat(a, b, led.seen);
    assert led.encountered + a + b == led.encountered + (a + b);
    assert Elems(a + b) == Elems(a) + Elems(b);
  }

  lemma MeetNone(t: Table, led: Ledger)
    ensures Once([], led.seen) && Advance(t, led, []) == led
  {
    assert led.encountered + [] == led.encountered;
  }

  lemma MeetOne(t: Table, led: Ledger, d: string)
    ensures Once([d], led.seen) <==> d !in led.seen
    ensures d !in t ==> Advance(t, led, [d]) == Noted(led, d)
  {
    assert [d][0] == d;
    assert Elems([d]) == {d};
  }

  /** `x` is what the walk says about an expansion `e` with the members or items in front already done. */
  ghost predicate Matches(t: Table, walked: Result<(Json, Ledger)>, e: Option<Expansion>, led: Ledger) {
    (walked.Ok? <==> e.Some? && Once(e.value.met, led.seen)) &&
    (walked.Ok? ==> walked.value == (e.value.value, Advance(t, led, e.value.met)))
  }

  ghost predicate ValidTable(t: Table) {
    forall d :: d in t ==> forall i :: 0 <= i < |t[d]| ==> Valid(t[d][i])
  }

  /** The walk that threads the ledger is the rule, plus: no digest met twice. */
  lemma {:induction false} WalkIsExpand(t: Table, node: Json, depth: nat, led: Ledger)
    requires Valid(node) && ValidTable(t)
    ensures Matches(t, Walk(t, node, depth, led), Expand(t, Room(depth), node), led)
    decreases Room(depth), 4, 0
  {
    MeetNone(t, led);
    if IsContainer(node) && depth <= MAX_JSON_DEPTH {
      if node.Obj? {
        assert forall k :: !Has([], k);
        MembersAreExpanded(t, node.members, node.members, [], depth, led);
        var p := ExpandMembers(t, Room(depth) - 1, node.members);
        if p.Some? { assert [] + p.value.members == p.value.members; }
      } else {
        ItemsAreExpanded(t, node.items, [], depth, led);
        var e := ExpandItems(t, Room(depth) - 1, node.items);
        if e.Some? { assert [] + e.value.items == e.value.items; }
      }
    }
  }

  /** A disclosed value: noting its digest, resolving it and marking it used is expanding it behind its digest. */
  lemma {:induction false} HiddenIsExpanded(t: Table, d: string, value: Json, depth: nat, led: Ledger)
    requires d in t && Valid(value) && ValidTable(t)
    ensures var w, e := Walk(t, value, depth, Noted(led, d)), Expand(t, Room(depth), value);
            (d !in led.seen && w.Ok? <==> e.Some? && Once([d] + e.value.met, led.seen)) &&
            (d !in led.seen && w.Ok? ==>
               w.value.0 == e.value.value && Spent(w.value.1, d) == Advance(t, led, [d] + e.value.met))
    decreases Room(depth), 5, 0
  {
    WalkIsExpand(t, value, depth, Noted(led, d));
    var e := Expand(t, Room(depth), value);
    MeetOne(t, led, d);
    if e.Some? {
      Chain(t, led, [d], e.value.met);
      assert Elems([d]) == {d};
      assert Elems([d] + e.value.met) == {d} + Elems(e.value.met);
      assert led.encountered + [d] + e.value.met == led.encountered + ([d] + e.value.met);
    }
  }

  /** The object whose members `out` are done while those behind `digests` are not. */
  ghost function RemainingDigests(t: Table, room: nat, out: seq<Member>, digests: Option<seq<string>>): Option<Expansion>
  {
    match ExpandDigests(t, room, digests)
    case None => None
    case Some(d) =>
      if UniqueKeys(out + d.members) then Some(Expansion(Obj(out + d.members), d.met)) else None
  }

  /** The object whose members `out` are done while `rest` and those behind `digests` are not. */
  ghost function RemainingMembers(t: Table, room: nat, out: seq<Member>, rest: seq<Member>, digests: Option<seq<string>>)
    : Option<Expansion>
  {
    match (ExpandMembers(t, room, rest), ExpandDigests(t, room, digests))
    case (Some(p), Some(d)) =>
      if UniqueKeys(out + p.members + d.members)
      then Some(Expansion(Obj(out + p.members + d.members), p.met + d.met)) else None
    case _ => None
  }

  ghost function RemainingItems(t: Table, room: nat, out: seq<Json>, rest: seq<Json>): Option<Expansion> {
    match ExpandItems(t, room, rest)
    case None => None
    case Some(e) => Some(Expansion(Arr(out + e.items), e.met))
  }

  lemma UniquePrefix(a: seq<Member>, b: seq<Member>)
    requires UniqueKeys(a + b)
    ensures UniqueKeys(a)
  {
    forall i, j | 0 <= i < j < |a| ensures KeySeq(a)[i] != KeySeq(a)[j] {
      assert KeySeq(a + b)[i] != KeySeq(a + b)[j];
    }
  }

  lemma UniqueTail(ms: seq<Member>)
    requires ms != [] && UniqueKeys(ms)
    ensures UniqueKeys(ms[1..])
  {
    forall i, j | 0 <= i < j < |ms| - 1 ensures KeySeq(ms[1..])[i] != KeySeq(ms[1..])[j] {
      assert KeySeq(ms)[i + 1] != KeySeq(ms)[j + 1];
    }
  }

  lemma UniqueSnoc(out: seq<Member>, m: Member)
    requires UniqueKeys(out)
    ensures UniqueKeys(out + [m]) <==> !Has(out, m.key)
  {
    var all := out + [m];
    if Has(out, m.key) {
      var i :| 0 <= i < |out| && out[i].key == m.key;
      assert KeySeq(all)[i] == KeySeq(all)[|out|];
    } else {
      forall i, j | 0 <= i < j < |all| ensures KeySeq(all)[i] != KeySeq(all)[j] {
        assert j < |out| ==> KeySeq(out)[i] != KeySeq(out)[j];
        assert all[i] == out[i];
      }
    }
  }

  lemma HasSnoc(out: seq<Member>, m: Member, k: string)
    ensures Has(out + [m], k) <==> Has(out, k) || m.key == k
  {
    if Has(out, k) { var i :| 0 <= i < |out| && out[i].key == k; assert (out + [m])[i].key == k; }
    if m.key == k { assert (out + [m])[|out|].key == k; }
  }

  /** The members still to be copied do not occur among those already there. */
  ghost predicate Apart(out: seq<Member>, rest: seq<Member>) {
    UniqueKeys(out) && UniqueKeys(rest) && forall i :: 0 <= i < |rest| ==> !Has(out, rest[i].key)
  }

  lemma ApartStep(out: seq<Member>, rest: seq<Member>, v: Json)
    requires rest != [] && Apart(out, rest)
    ensures Apart(out, rest[1..])
    ensures Apart(out + [Member(rest[0].key, v)], rest[1..])
    ensures Put(out, rest[0].key, v) == out + [Member(rest[0].key, v)]
  {
    var m := Member(rest[0].key, v);
    UniqueTail(rest);
    UniqueSnoc(out, m);
    forall i | 0 <= i < |rest| - 1 ensures !Has(out, rest[1..][i].key) && !Has(out + [m], rest[1..][i].key) {
      assert KeySeq(rest)[0] != KeySeq(rest)[i + 1];
      assert !Has(out, rest[i + 1].key);
      HasSnoc(out, m, rest[i + 1].key);
    }
  }

  lemma {:induction false} MemberIsExpanded(t: Table, m: Member, out: seq<Member>, depth: nat, led: Ledger)
    requires depth <= MAX_JSON_DEPTH && ValidTable(t) && Valid(m.val) && !Has(out, m.key)
    ensures var w, e := WalkMember(t, m, out, depth, led), ExpandMember(t, Room(depth) - 1, m);
            (w.Ok? <==> e.Some? && Once(e.value.met, led.seen)) &&
            (w.Ok? ==> w.value == (out + e.value.members, Advance(t, led, e.value.met)))
    decreases Room(depth), 0, 0
  {
    MeetNone(t, led);
    assert out + [] == out;
    if !IsReserved(m.key) { WalkIsExpand(t, m.val, depth + 1, led); }
  }

  /** Doing one member moves its claim to `out` and its digests in front. */
  lemma RemainingStep(t: Table, room: nat, out: seq<Member>, rest: seq<Member>, digests: Option<seq<string>>)
    requires rest != []
    ensures RemainingMembers(t, room, out, rest, digests)
         == match ExpandMember(t, room, rest[0])
            case None => None
            case Some(a) =>
              match RemainingMembers(t, room, out + a.members, rest[1..], digests)
              case None => None
              case Some(e) => Some(Expansion(e.value, a.met + e.met))
  {
    var a, p := ExpandMember(t, room, rest[0]), ExpandMembers(t, room, rest[1..]);
    var d := ExpandDigests(t, room, digests);
    if a.Some? && p.Some? && d.Some? {
      assert out + (a.value.members + p.value.members) == (out + a.value.members) + p.value.members;
      assert (a.value.met + p.value.met) + d.value.met == a.value.met + (p.value.met + d.value.met);
    }
  }

  lemma RemainingLast(t: Table, room: nat, out: seq<Member>, digests: Option<seq<string>>)
    ensures RemainingMembers(t, room, out, [], digests) == RemainingDigests(t, room, out, digests)
  {
    var d := ExpandDigests(t, room, digests);
    assert out + [] == out;
    if d.Some? { assert [] + d.value.met == d.value.met; }
  }

  lemma {:induction false} MembersAreExpanded(t: Table, all: seq<Member>, rest: seq<Member>, out: seq<Member>,
                                              depth: nat, led: Ledger)
    requires depth <= MAX_JSON_DEPTH && ValidTable(t) && Apart(out, rest)
    requires forall i :: 0 <= i < |rest| ==> Valid(rest[i].val)
    ensures Matches(t, WalkMembers(t, all, rest, out, depth, led),
                    RemainingMembers(t, Room(depth) - 1, out, rest, DigestsOf(all)), led)
    decreases Room(depth), 2, |rest|
  {
    var room := Room(depth) - 1;
    if rest == [] {
      RemainingLast(t, room, out, DigestsOf(all));
      if DigestsOf(all).Some? { DigestsAreExpanded(t, DigestsOf(all).value, out, depth, led); }
    } else {
      RemainingStep(t, room, out, rest, DigestsOf(all));
      MemberIsExpanded(t, rest[0], out, depth, led);
      var a := ExpandMember(t, room, rest[0]);
      if a.Some? {
        var out' := out + a.value.members;
        if Once(a.value.met, led.seen) {
          ApartStep(out, rest, if IsReserved(rest[0].key) then Null else a.value.members[0].val);
          assert out + [] == out;
          MembersAreExpanded(t, all, rest[1..], out', depth, Advance(t, led, a.value.met));
        }
        var e := RemainingMembers(t, room, out', rest[1..], DigestsOf(all));
        if e.Some? { Chain(t, led, a.value.met, e.value.met); }
      }
    }
  }

  lemma {:induction false} DigestIsExpanded(t: Table, d: string, out: seq<Member>, depth: nat, led: Ledger)
    requires depth <= MAX_JSON_DEPTH && ValidTable(t) && UniqueKeys(out)
    ensures var w, e := WalkDigest(t, d, out, depth, led), ExpandDigest(t, Room(depth) - 1, d);
            (w.Ok? <==> e.Some? && Once(e.value.met, led.seen) && UniqueKeys(out + e.value.members)) &&
            (w.Ok? ==> w.value == (out + e.value.members, Advance(t, led, e.value.met)))
    decreases Room(depth), 0, 0
  {
    MeetOne(t, led, d);
    assert out + [] == out;
    if d in t && WellNamed(t[d]) {
      HiddenIsExpanded(t, d, t[d][2], depth + 1, led);
      var e := Expand(t, Room(depth) - 1, t[d][2]);
      if e.Some? { UniqueSnoc(out, Member(t[d][1].s, e.value.value)); }
    }
  }

  lemma {:induction false} DigestsAreExpanded(t: Table, digests: seq<string>, out: seq<Member>, depth: nat, led: Ledger)
    requires depth <= MAX_JSON_DEPTH && ValidTable(t) && UniqueKeys(out)
    ensures Matches(t, WalkDigests(t, digests, out, depth, led),
                    RemainingDigests(t, Room(depth) - 1, out, Some(digests)), led)
    decreases Room(depth), 1, |digests|
  {
    hide Once, Advance, ExpandDigest, WalkDigest;
    var room := Room(depth) - 1;
    if digests == [] {
      MeetNone(t, led);
      assert out + [] == out;
    } else {
      DigestIsExpanded(t, digests[0], out, depth, led);
      var a, q := ExpandDigest(t, room, digests[0]), ExpandDigests(t, room, Some(digests[1..]));
      if a.Some? {
        var out' := out + a.value.members;
        if Once(a.value.met, led.seen) && UniqueKeys(out') {
          DigestsAreExpanded(t, digests[1..], out', depth, Advance(t, led, a.value.met));
        }
        if q.Some? {
          Chain(t, led, a.value.met, q.value.met);
          assert out + (a.value.members + q.value.members) == out' + q.value.members;
          if UniqueKeys(out' + q.value.members) { UniquePrefix(out', q.value.members); }
        }
      }
    }
  }

  lemma {:induction false} ItemIsExpanded(t: Table, x: Json, depth: nat, led: Ledger)
    requires depth <= MAX_JSON_DEPTH && ValidTable(t) && Valid(x)
    ensures var w, e := WalkItem(t, x, depth, led), ExpandItem(t, Room(depth) - 1, x);
            (w.Ok? <==> e.Some? && Once(e.value.met, led.seen)) &&
            (w.Ok? ==> w.value == (e.value.items, Advance(t, led, e.value.met)))
    decreases Room(depth), 0, 0
  {
    if !IsPlaceholder(x) {
      WalkIsExpand(t, x, depth + 1, led);
    } else if x.members[0].val.Str? {
      var d := x.members[0].val.s;
      MeetOne(t, led, d);
      if d in t && |t[d]| == 2 {
        HiddenIsExpanded(t, d, t[d][1], depth + 1, led);
      }
    }
  }

  lemma {:induction false} ItemsAreExpanded(t: Table, rest: seq<Json>, out: seq<Json>, depth: nat, led: Ledger)
    requires depth <= MAX_JSON_DEPTH && ValidTable(t)
    requires forall i :: 0 <= i < |rest| ==> Valid(rest[i])
    ensures Matches(t, WalkItems(t, rest, out, depth, led), RemainingItems(t, Room(depth) - 1, out, rest), led)
    decreases Room(depth), 1, |rest|
  {
    var room := Room(depth) - 1;
    if rest == [] {
      MeetNone(t, led);
      assert out + [] == out;
    } else {
      ItemIsExpanded(t, rest[0], depth, led);
      var a, q := ExpandItem(t, room, rest[0]), ExpandItems(t, room, rest[1..]);
      if a.Some? {
        if Once(a.value.met, led.seen) {
          ItemsAreExpanded(t, rest[1..], out + a.value.items, depth, Advance(t, led, a.value.met));
        }
        if q.Some? {
          Chain(t, led, a.value.met, q.value.met);
          assert out + (a.value.items + q.value.items) == (out + a.value.items) + q.value.items;
        }
      }
    }
  }
}
