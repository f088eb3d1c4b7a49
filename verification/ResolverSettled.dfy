/** When resolving again gives a resolved value back, told from the payload and the disclosures alone. */
module ResolverSettled {
  import opened Values
  import opened Resolution
  import opened DisclosureRule
  import opened ResolverLaws
  import opened ResolverOrder

  // ------------------------------------------------------------------ the condition on the inputs

  /** The names an object shows in the open. */
  function OpenNames(ms: seq<Member>): seq<string> {
    if ms == [] then [] else (if IsReserved(ms[0].key) then [] else [ms[0].key]) + OpenNames(ms[1..])
  }

  /** None of the object's digests is that of a disclosure; `known` are the digests of those supplied. */
  predicate NothingDisclosed(known: set<string>, ms: seq<Member>) {
    match DigestsOf(ms) case None => true case Some(ds) => forall i :: 0 <= i < |ds| ==> ds[i] !in known
  }

  /** An object that shows `...` alone and in which nothing is disclosed: what is left of it is a placeholder. */
  predicate LeavesPlaceholder(known: set<string>, j: Json) {
    j.Obj? && OpenNames(j.members) == ["..."] && NothingDisclosed(known, j.members)
  }

  /** No list in the value holds, beside its placeholders, an element that leaves one. */
  predicate Tame(known: set<string>, j: Json) {
    match j
    case Arr(xs) => TameItems(known, xs)
    case Obj(ms) => TameMembers(known, ms)
    case _ => true
  }

  predicate TameItem(known: set<string>, x: Json) { !LeavesPlaceholder(known, x) && Tame(known, x) }

  predicate TameItems(known: set<string>, xs: seq<Json>) {
    xs != [] ==> (IsPlaceholder(xs[0]) || (!LeavesPlaceholder(known, xs[0]) && Tame(known, xs[0]))) && TameItems(known, xs[1..])
  }

  predicate TameMembers(known: set<string>, ms: seq<Member>) {
    ms != [] ==> (IsReserved(ms[0].key) || Tame(known, ms[0].val)) && TameMembers(known, ms[1..])
  }

  /** A disclosed claim is not named `_sd_alg`, a disclosed element leaves no placeholder, and both are tame. */
  predicate TameParts(known: set<string>, parts: seq<Json>) {
    if |parts| == 3 then parts[1] != Str("_sd_alg") && Tame(known, parts[2])
    else |parts| == 2 ==> TameItem(known, parts[1])
  }

  // ------------------------------------------------------------------ what is left of an element

  ghost predicate AllTame(t: Table, met: seq<string>) {
    forall i :: 0 <= i < |met| && met[i] in t ==> TameParts(t.Keys, t[met[i]])
  }

  lemma AllTameConcat(t: Table, a: seq<string>, b: seq<string>)
    ensures AllTame(t, a + b) <==> AllTame(t, a) && AllTame(t, b)
  {
    var c := a + b;
    if AllTame(t, c) {
      forall i | 0 <= i < |a| && a[i] in t ensures TameParts(t.Keys, t[a[i]]) { assert c[i] == a[i]; }
      forall i | 0 <= i < |b| && b[i] in t ensures TameParts(t.Keys, t[b[i]]) { assert c[|a| + i] == b[i]; }
    }
  }

  lemma AllTameOne(t: Table, d: string)
    ensures AllTame(t, [d]) <==> (d in t ==> TameParts(t.Keys, t[d]))
  {
    assert [d][0] == d;
  }

  lemma {:induction false} SettledConcat(a: seq<Member>, b: seq<Member>)
    ensures SettledMembers(a + b) <==> SettledMembers(a) && SettledMembers(b)
    decreases |a|
  {
    if a == [] {
      assert a + b == b;
    } else {
      assert (a + b)[0] == a[0] && (a + b)[1..] == a[1..] + b;
      SettledConcat(a[1..], b);
    }
  }

  lemma {:induction false} SettledItemsConcat(a: seq<Json>, b: seq<Json>)
    ensures SettledItems(a + b) <==> SettledItems(a) && SettledItems(b)
    decreases |a|
  {
    if a == [] {
      assert a + b == b;
    } else {
      assert (a + b)[0] == a[0] && (a + b)[1..] == a[1..] + b;
      SettledItemsConcat(a[1..], b);
    }
  }

  lemma SettledOne(m: Member)
    ensures SettledMembers([m]) <==> !IsReserved(m.key) && Settled(m.val)
    ensures SettledItems([m.val]) <==> !IsPlaceholder(m.val) && Settled(m.val)
  {
    assert [m][1..] == [] && [m.val][1..] == [];
  }

  lemma {:induction false} OpenNamesKept(t: Table, room: nat, ms: seq<Member>)
    requires ExpandMembers(t, room, ms).Some?
    ensures KeySeq(ExpandMembers(t, room, ms).value.members) == OpenNames(ms)
    decreases |ms|
  {
    hide Expand;
    if ms != [] {
      OpenNamesKept(t, room, ms[1..]);
      var a, b := ExpandMember(t, room, ms[0]).value.members, ExpandMembers(t, room, ms[1..]).value.members;
      assert KeySeq(a + b) == KeySeq(a) + KeySeq(b);
    }
  }

  lemma {:induction false} DisclosedNames(t: Table, room: nat, digests: seq<string>)
    requires ExpandDigests(t, room, Some(digests)).Some?
    ensures var ms := ExpandDigests(t, room, Some(digests)).value.members;
            && (ms == [] <==> forall i :: 0 <= i < |digests| ==> digests[i] !in t)
            && forall i :: 0 <= i < |ms| ==> ms[i].key != "..."
    decreases |digests|
  {
    hide Expand;
    if digests != [] {
      DisclosedNames(t, room, digests[1..]);
      assert forall i :: 0 < i < |digests| ==> digests[i] == digests[1..][i - 1];
    }
  }

  /** An element that is no placeholder becomes one exactly when it leaves one. */
  lemma PlaceholderLeft(t: Table, room: nat, x: Json)
    requires Expand(t, room, x).Some?
    ensures IsPlaceholder(Expand(t, room, x).value.value) <==> LeavesPlaceholder(t.Keys, x)
  {
    hide ExpandMembers, ExpandDigests, DigestsOf, OpenNames;
    if x.Obj? {
      var open, hidden := ExpandMembers(t, room - 1, x.members).value.members,
                          ExpandDigests(t, room - 1, DigestsOf(x.members)).value.members;
      OpenNamesKept(t, room - 1, x.members);
      assert DigestsOf(x.members).Some? by { DigestsThere(t, room - 1, DigestsOf(x.members)); }
      DisclosedNames(t, room - 1, DigestsOf(x.members).value);
      OnlyDots(open, hidden);
    }
  }

  lemma DigestsThere(t: Table, room: nat, digests: Option<seq<string>>)
    requires ExpandDigests(t, room, digests).Some?
    ensures digests.Some?
  {}

  lemma OnlyDots(open: seq<Member>, hidden: seq<Member>)
    requires forall i :: 0 <= i < |hidden| ==> hidden[i].key != "..."
    ensures IsPlaceholder(Obj(open + hidden)) <==> KeySeq(open) == ["..."] && hidden == []
  {
    var all := open + hidden;
    assert open == [] ==> all == hidden;
    if IsPlaceholder(Obj(all)) {
      assert all[0] == open[0] && KeySeq(open) == [open[0].key];
    }
    if KeySeq(open) == ["..."] && hidden == [] {
      assert all == open && KeySeq(open)[0] == open[0].key;
    }
  }

  // ------------------------------------------------------------------ settled exactly when tame

  /** The expansion of a value is settled exactly when the value is tame and so is every disclosure met in it. */
  lemma {:induction false} SettledIffTame(t: Table, room: nat, node: Json)
    requires Expand(t, room, node).Some?
    ensures var e := Expand(t, room, node).value;
            Settled(e.value) <==> Tame(t.Keys, node) && AllTame(t, e.met)
    decreases room, 1, 0
  {
    hide AllTame;
    if node.Arr? {
      ItemsTame(t, room - 1, node.items);
    } else if node.Obj? {
      MembersTame(t, room - 1, node.members);
      DigestsThere(t, room - 1, DigestsOf(node.members));
      DigestsTame(t, room - 1, DigestsOf(node.members).value);
      var p, d := ExpandMembers(t, room - 1, node.members).value, ExpandDigests(t, room - 1, DigestsOf(node.members)).value;
      SettledConcat(p.members, d.members);
      AllTameConcat(t, p.met, d.met);
    } else {
      NothingMet(t);
    }
  }

  lemma NothingMet(t: Table)
    ensures AllTame(t, [])
  {}

  lemma {:induction false} MembersTame(t: Table, room: nat, ms: seq<Member>)
    requires ExpandMembers(t, room, ms).Some?
    ensures var e := ExpandMembers(t, room, ms).value;
            SettledMembers(e.members) <==> TameMembers(t.Keys, ms) && AllTame(t, e.met)
    decreases room, 2, |ms|
  {
    hide AllTame, Expand, Settled, Tame;
    NothingMet(t);
    if ms != [] {
      var a, b := ExpandMember(t, room, ms[0]).value, ExpandMembers(t, room, ms[1..]).value;
      MembersTame(t, room, ms[1..]);
      if !IsReserved(ms[0].key) {
        SettledIffTame(t, room, ms[0].val);
        SettledOne(a.members[0]);
      }
      SettledConcat(a.members, b.members);
      AllTameConcat(t, a.met, b.met);
    }
  }

  lemma {:induction false} DigestsTame(t: Table, room: nat, digests: seq<string>)
    requires ExpandDigests(t, room, Some(digests)).Some?
    ensures var e := ExpandDigests(t, room, Some(digests)).value;
            SettledMembers(e.members) <==> AllTame(t, e.met)
    decreases room, 3, |digests|
  {
    hide AllTame, Expand, Settled, Tame;
    NothingMet(t);
    if digests != [] {
      var d := digests[0];
      var a, b := ExpandDigest(t, room, d).value, ExpandDigests(t, room, Some(digests[1..])).value;
      DigestsTame(t, room, digests[1..]);
      AllTameOne(t, d);
      if d in t {
        var e := Expand(t, room, t[d][2]).value;
        SettledIffTame(t, room, t[d][2]);
        SettledOne(a.members[0]);
        AllTameConcat(t, [d], e.met);
      }
      SettledConcat(a.members, b.members);
      AllTameConcat(t, a.met, b.met);
    }
  }

  lemma {:induction false} ItemsTame(t: Table, room: nat, xs: seq<Json>)
    requires ExpandItems(t, room, xs).Some?
    ensures var e := ExpandItems(t, room, xs).value;
            SettledItems(e.items) <==> TameItems(t.Keys, xs) && AllTame(t, e.met)
    decreases room, 3, |xs|
  {
    hide AllTame, Expand, Settled, Tame, LeavesPlaceholder;
    NothingMet(t);
    if xs != [] {
      var a, b := ExpandItem(t, room, xs[0]).value, ExpandItems(t, room, xs[1..]).value;
      ItemsTame(t, room, xs[1..]);
      ItemTame(t, room, xs[0]);
      SettledItemsConcat(a.items, b.items);
      AllTameConcat(t, a.met, b.met);
    }
  }

  lemma {:induction false} ItemTame(t: Table, room: nat, x: Json)
    requires ExpandItem(t, room, x).Some?
    ensures var e := ExpandItem(t, room, x).value;
            SettledItems(e.items) <==> (IsPlaceholder(x) || TameItem(t.Keys, x)) && AllTame(t, e.met)
    decreases room, 2, 0
  {
    hide AllTame, Expand, Settled, Tame, LeavesPlaceholder;
    if !IsPlaceholder(x) {
      SettledIffTame(t, room, x);
      PlaceholderLeft(t, room, x);
      SettledOne(Member("", Expand(t, room, x).value.value));
    } else {
      var d := x.members[0].val.s;
      AllTameOne(t, d);
      if d in t {
        var e := Expand(t, room, t[d][1]).value;
        SettledIffTame(t, room, t[d][1]);
        PlaceholderLeft(t, room, t[d][1]);
        SettledOne(Member("", e.value));
        AllTameConcat(t, [d], e.met);
      }
    }
  }

  // ------------------------------------------------------------------ resolving again

  /** The condition on what a caller holds: the payload, and each disclosure. */
  ghost predicate TameInputs(c: Codec, payload: seq<Member>, ds: seq<string>) {
    var known := Elems(Digests(c, ds));
    && Tame(known, Obj(payload))
    && forall i :: 0 <= i < |ds| ==> Decodes(c, ds[i]) ==> TameParts(known, c.decode(ds[i]).value.items)
  }

  /** Resolved claims, resolved again with nothing to disclose, come back as they are exactly when the inputs were tame: no
      element of a list leaves a placeholder, and no disclosed claim is named `_sd_alg`. */
  lemma IdempotentIffTame(c: Codec, payload: seq<Member>, ds: seq<string>)
    requires Valid(Obj(payload)) && ParsesStrictly(c, ds) && Resolve(c, payload, ds).Ok?
    ensures var v := Resolve(c, payload, ds).value.0;
            v.Obj? && (TameInputs(c, payload, ds) <==> Resolve(c, v.members, []).Ok? && Resolve(c, v.members, []).value.0 == v)
  {
    hide Resolve, Settled, Tame, TameParts, Expand;
    IdempotentIffSettled(c, payload, ds);
    var t, e := ResolveIsTheRule(c, payload, ds);
    SettledIffTame(t, MAX_JSON_DEPTH, Obj(payload));
    var met := e.value.met;
    if TameInputs(c, payload, ds) {
      forall i | 0 <= i < |met| && met[i] in t ensures TameParts(t.Keys, t[met[i]]) {
        var j :| 0 <= j < |ds| && Digests(c, ds)[j] == met[i];
        assert Decodes(c, ds[j]);
      }
    }
    if AllTame(t, met) {
      forall i | 0 <= i < |ds| ensures TameParts(t.Keys, c.decode(ds[i]).value.items) {
        assert c.digest(ds[i]) in t && c.digest(ds[i]) in Elems(met);
        var j :| 0 <= j < |met| && met[j] == c.digest(ds[i]);
      }
    }
  }
}
