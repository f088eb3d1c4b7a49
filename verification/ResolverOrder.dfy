/** The outcome of a resolution does not depend on the order of disclosures, object keys or `_sd` entries, and which
    values resolve to themselves. */
module ResolverOrder {
  import opened Values
  import opened Resolution
  import opened DisclosureRule
  import opened ResolverLaws
  import opened Rearrangements

  /** The same JSON value up to the order of object keys; with `loose`, also up to the order inside `_sd` lists. */
  ghost predicate Alike(loose: bool, a: Json, b: Json)
    decreases Size(a), 0
  {
    match (a, b)
    case (Arr(xs), Arr(ys)) => AlikeItems(loose, xs, ys)
    case (Obj(ms), Obj(ns)) => Reordered(loose, ms, ns)
    case _ => a == b
  }

  ghost predicate AlikeItems(loose: bool, xs: seq<Json>, ys: seq<Json>)
    decreases ItemsSize(xs), 1
  {
    |xs| == |ys| && (xs != [] ==> Alike(loose, xs[0], ys[0]) && AlikeItems(loose, xs[1..], ys[1..]))
  }

  /** `ns` is `ms` in some order, member by member alike. */
  ghost predicate Reordered(loose: bool, ms: seq<Member>, ns: seq<Member>)
    decreases MembersSize(ms), 2
  {
    |ms| == |ns| &&
    (ms != [] ==> exists j :: 0 <= j < |ns| && AlikeMember(loose, ms[0], ns[j]) && Reordered(loose, ms[1..], Without(ns, j)))
  }

  ghost predicate AlikeMember(loose: bool, m: Member, n: Member)
    decreases Size(m.val), 1
  {
    m.key == n.key && (Alike(loose, m.val, n.val) || (loose && m.key == "_sd" && SameDigests(m.val, n.val)))
  }

  ghost predicate SameDigests(a: Json, b: Json) {
    a.Arr? && b.Arr? && AllStrings(a.items) && AllStrings(b.items) &&
    multiset(Strings(a.items)) == multiset(Strings(b.items))
  }

  lemma {:induction false} AlikeSelf(loose: bool, a: Json)
    ensures Alike(loose, a, a)
    decreases Size(a), 0
  {
    match a {
      case Arr(xs) => AlikeItemsSelf(loose, xs);
      case Obj(ms) => ReorderedSelf(loose, ms);
      case _ =>
    }
  }

  lemma {:induction false} AlikeItemsSelf(loose: bool, xs: seq<Json>)
    ensures AlikeItems(loose, xs, xs)
    decreases ItemsSize(xs), 1
  {
    if xs != [] {
      AlikeSelf(loose, xs[0]);
      AlikeItemsSelf(loose, xs[1..]);
    }
  }

  lemma {:induction false} ReorderedSelf(loose: bool, ms: seq<Member>)
    ensures Reordered(loose, ms, ms)
    decreases MembersSize(ms), 2
  {
    if ms != [] {
      AlikeSelf(loose, ms[0].val);
      ReorderedSelf(loose, ms[1..]);
      assert Without(ms, 0) == ms[1..];
      assert AlikeMember(loose, ms[0], ms[0]);
    }
  }

  lemma Partner(loose: bool, ms: seq<Member>, ns: seq<Member>) returns (j: nat)
    requires Reordered(loose, ms, ns) && ms != []
    ensures j < |ns| == |ms| && AlikeMember(loose, ms[0], ns[j]) && Reordered(loose, ms[1..], Without(ns, j))
  {
    j :| 0 <= j < |ns| && AlikeMember(loose, ms[0], ns[j]) && Reordered(loose, ms[1..], Without(ns, j));
  }

  lemma Partnered(loose: bool, ms: seq<Member>, ns: seq<Member>, j: nat)
    requires ms != [] && j < |ns| && AlikeMember(loose, ms[0], ns[j]) && Reordered(loose, ms[1..], Without(ns, j))
    ensures Reordered(loose, ms, ns)
  {}

  ghost predicate AllValid(ms: seq<Member>) {
    forall i :: 0 <= i < |ms| ==> Valid(ms[i].val)
  }

  // ------------------------------------------------------------------ keys

  lemma {:induction false} ReorderedKeys(loose: bool, ms: seq<Member>, ns: seq<Member>)
    requires Reordered(loose, ms, ns)
    ensures multiset(KeySeq(ms)) == multiset(KeySeq(ns))
    decreases |ms|
  {
    if ms == [] {
      assert KeySeq(ms) == KeySeq(ns);
    } else {
      var j := Partner(loose, ms, ns);
      hide Alike;
      ReorderedKeys(loose, ms[1..], Without(ns, j));
      KeysWithout(ns, j);
      KeysWithout(ms, 0);
      assert Without(ms, 0) == ms[1..];
    }
  }

  lemma ReorderedUnique(loose: bool, ms: seq<Member>, ns: seq<Member>)
    requires Reordered(loose, ms, ns)
    ensures UniqueKeys(ms) <==> UniqueKeys(ns)
  {
    ReorderedKeys(loose, ms, ns);
    NoDuplicatesIsMultiset(KeySeq(ms));
    NoDuplicatesIsMultiset(KeySeq(ns));
  }

  lemma UniqueWithout(ns: seq<Member>, j: nat)
    requires j < |ns| && UniqueKeys(ns)
    ensures UniqueKeys(Without(ns, j))
  {
    NoDuplicatesIsMultiset(KeySeq(ns));
    NoDuplicatesIsMultiset(KeySeq(Without(ns, j)));
    assert KeySeq(Without(ns, j)) == Without(KeySeq(ns), j);
    MultisetWithout(KeySeq(ns), j);
    forall x ensures multiset(KeySeq(Without(ns, j)))[x] <= 1 { assert multiset(KeySeq(ns))[x] <= 1; }
  }

  lemma {:induction false} LookupAt(ms: seq<Member>, j: nat)
    requires j < |ms| && UniqueKeys(ms)
    ensures Lookup(ms, ms[j].key) == Some(ms[j].val)
    decreases |ms|
  {
    if j > 0 {
      assert KeySeq(ms)[0] != KeySeq(ms)[j];
      UniqueTail(ms);
      LookupAt(ms[1..], j - 1);
    }
  }

  lemma {:induction false} LookupWithout(ms: seq<Member>, j: nat, k: string)
    requires j < |ms| && ms[j].key != k
    ensures Lookup(Without(ms, j), k) == Lookup(ms, k)
    decreases |ms|
  {
    if j == 0 {
      assert Without(ms, 0) == ms[1..];
    } else {
      LookupWithout(ms[1..], j - 1, k);
      assert Without(ms, j)[1..] == Without(ms[1..], j - 1);
      assert Without(ms, j)[0] == ms[0];
    }
  }

  /** Looking a key up in a reordered object finds an alike member, or none in both. */
  lemma {:induction false} LookupReordered(loose: bool, ms: seq<Member>, ns: seq<Member>, k: string)
    requires Reordered(loose, ms, ns) && UniqueKeys(ms) && UniqueKeys(ns)
    ensures Lookup(ms, k).Some? <==> Lookup(ns, k).Some?
    ensures Lookup(ms, k).Some? ==> AlikeMember(loose, Member(k, Lookup(ms, k).value), Member(k, Lookup(ns, k).value))
    decreases |ms|
  {
    if ms != [] {
      var j := Partner(loose, ms, ns);
      if ms[0].key == k {
        LookupAt(ns, j);
      } else {
        UniqueTail(ms);
        UniqueWithout(ns, j);
        LookupReordered(loose, ms[1..], Without(ns, j), k);
        LookupWithout(ns, j, k);
      }
    }
  }

  // ------------------------------------------------------------------ expansions of reordered parts

  function Join(a: Option<Claims>, b: Option<Claims>): Option<Claims> {
    match (a, b)
    case (Some(x), Some(y)) => Some(Claims(x.members + y.members, x.met + y.met))
    case _ => None
  }

  lemma JoinAssociative(a: Option<Claims>, b: Option<Claims>, c: Option<Claims>)
    ensures Join(Join(a, b), c) == Join(a, Join(b, c))
  {
    if a.Some? && b.Some? && c.Some? {
      assert (a.value.members + b.value.members) + c.value.members == a.value.members + (b.value.members + c.value.members);
      assert (a.value.met + b.value.met) + c.value.met == a.value.met + (b.value.met + c.value.met);
    }
  }

  lemma JoinNothing(a: Option<Claims>)
    ensures Join(Some(Claims([], [])), a) == a
  {
    if a.Some? { assert [] + a.value.members == a.value.members && [] + a.value.met == a.value.met; }
  }

  lemma {:induction false} MembersConcat(t: Table, room: nat, xs: seq<Member>, ys: seq<Member>)
    ensures ExpandMembers(t, room, xs + ys) == Join(ExpandMembers(t, room, xs), ExpandMembers(t, room, ys))
    decreases |xs|
  {
    if xs == [] {
      assert xs + ys == ys;
      JoinNothing(ExpandMembers(t, room, ys));
    } else {
      assert (xs + ys)[1..] == xs[1..] + ys;
      MembersConcat(t, room, xs[1..], ys);
      JoinAssociative(ExpandMember(t, room, xs[0]), ExpandMembers(t, room, xs[1..]), ExpandMembers(t, room, ys));
    }
  }

  lemma {:induction false} DigestsConcat(t: Table, room: nat, xs: seq<string>, ys: seq<string>)
    ensures ExpandDigests(t, room, Some(xs + ys)) == Join(ExpandDigests(t, room, Some(xs)), ExpandDigests(t, room, Some(ys)))
    decreases |xs|
  {
    if xs == [] {
      assert xs + ys == ys;
      JoinNothing(ExpandDigests(t, room, Some(ys)));
    } else {
      assert (xs + ys)[1..] == xs[1..] + ys;
      DigestsConcat(t, room, xs[1..], ys);
      JoinAssociative(ExpandDigest(t, room, xs[0]), ExpandDigests(t, room, Some(xs[1..])), ExpandDigests(t, room, Some(ys)));
    }
  }

  /** Two expansions of the same thing: alike claims in some order, the same digests met. */
  ghost predicate SameClaims(a: Option<Claims>, b: Option<Claims>) {
    (a.Some? <==> b.Some?) &&
    (a.Some? ==> Reordered(false, a.value.members, b.value.members) && multiset(a.value.met) == multiset(b.value.met))
  }

  /** Taking one part from the middle to the front changes neither the claims nor the digests. */
  lemma SameClaimsInsert(a: Option<Claims>, tail: Option<Claims>, x: Option<Claims>, pre: Option<Claims>, post: Option<Claims>)
    requires SameClaims(a, x) && SameClaims(tail, Join(pre, post))
    requires a.Some? ==> |a.value.members| <= 1
    ensures SameClaims(Join(a, tail), Join(pre, Join(x, post)))
  {
    hide AlikeMember, Alike, Reordered;
    if a.Some? && tail.Some? {
      MembersInserted(a.value.members, tail.value.members, x.value.members, pre.value.members, post.value.members);
    }
  }

  lemma MembersInserted(a: seq<Member>, tail: seq<Member>, x: seq<Member>, pre: seq<Member>, post: seq<Member>)
    requires Reordered(false, a, x) && Reordered(false, tail, pre + post) && |a| <= 1
    ensures Reordered(false, a + tail, pre + (x + post))
  {
    hide AlikeMember, Alike;
    var ms, ns := a + tail, pre + (x + post);
    if a == [] {
      assert ms == tail && ns == pre + post;
    } else {
      var j := |pre|;
      assert Without(ns, j) == pre + post;
      assert ms[1..] == tail;
      var k := Partner(false, a, x);
      assert k == 0 && ns[j] == x[k];
      Partnered(false, ms, ns, j);
    }
  }

  lemma {:induction false} SameClaimsSelf(a: Option<Claims>)
    ensures SameClaims(a, a)
  {
    if a.Some? { ReorderedSelf(false, a.value.members); }
  }

  lemma ReorderedOne(loose: bool, m: Member, n: Member)
    requires AlikeMember(loose, m, n)
    ensures Reordered(loose, [m], [n])
  {
    assert Without([n], 0) == [] && [m][1..] == [] && [n][0] == n;
    assert Reordered(loose, [m][1..], Without([n], 0));
  }

  lemma {:induction false} ReorderedConcat(a: seq<Member>, b: seq<Member>, a': seq<Member>, b': seq<Member>)
    requires Reordered(false, a, a') && Reordered(false, b, b')
    ensures Reordered(false, a + b, a' + b')
    decreases |a|
  {
    if a == [] {
      assert a + b == b && a' + b' == b';
    } else {
      var j := Partner(false, a, a');
      ReorderedConcat(a[1..], b, Without(a', j), b');
      WithoutConcat(a, b, 0);
      WithoutConcat(a', b', j);
      Partnered(false, a + b, a' + b', j);
    }
  }

  /** The rule gives alike values and the same digests on alike inputs. */
  lemma {:induction false} ExpandAlike(t: Table, room: nat, a: Json, b: Json)
    requires Valid(a) && Valid(b) && Alike(true, a, b)
    ensures SameExpansion(Expand(t, room, a), Expand(t, room, b))
    decreases Size(a), 0
  {
    if a.Arr? && room > 0 {
      ItemsAlike(t, room - 1, a.items, b.items);
    } else if a.Obj? && room > 0 {
      var p, q := ExpandMembers(t, room - 1, a.members), ExpandMembers(t, room - 1, b.members);
      var u, v := ExpandDigests(t, room - 1, DigestsOf(a.members)), ExpandDigests(t, room - 1, DigestsOf(b.members));
      assert SameClaims(p, q) by { MembersAlike(t, room - 1, a.members, b.members); }
      assert SameClaims(u, v) by {
        DigestsOfAlike(a.members, b.members);
        if DigestsOf(a.members).Some? {
          DigestsAlike(t, room - 1, DigestsOf(a.members).value, DigestsOf(b.members).value);
        }
      }
      AssembleAlike(p, q, u, v);
    } else if a.Obj? {
      assert b.Obj?;
    }
  }

  ghost predicate SameExpansion(e: Option<Expansion>, f: Option<Expansion>) {
    (e.Some? <==> f.Some?) &&
    (e.Some? ==> Alike(false, e.value.value, f.value.value) && multiset(e.value.met) == multiset(f.value.met))
  }

  lemma AssembleAlike(p: Option<Claims>, q: Option<Claims>, u: Option<Claims>, v: Option<Claims>)
    requires SameClaims(p, q) && SameClaims(u, v)
    ensures SameExpansion(Assemble(p, u), Assemble(q, v))
  {
    if p.Some? && u.Some? {
      var ms, ns := p.value.members + u.value.members, q.value.members + v.value.members;
      ReorderedConcat(p.value.members, u.value.members, q.value.members, v.value.members);
      ReorderedUnique(false, ms, ns);
      assert Alike(false, Obj(ms), Obj(ns));
    }
  }

  lemma DigestsOfAlike(ms: seq<Member>, ns: seq<Member>)
    requires Reordered(true, ms, ns) && UniqueKeys(ms) && UniqueKeys(ns)
    ensures DigestsOf(ms).Some? <==> DigestsOf(ns).Some?
    ensures DigestsOf(ms).Some? ==> multiset(DigestsOf(ms).value) == multiset(DigestsOf(ns).value)
  {
    LookupReordered(true, ms, ns, "_sd");
    var a, b := Lookup(ms, "_sd"), Lookup(ns, "_sd");
    if a.Some? && a.value.Arr? && Alike(true, a.value, b.value) {
      AlikeStrings(a.value.items, b.value.items);
    }
  }

  lemma {:induction false} AlikeStrings(xs: seq<Json>, ys: seq<Json>)
    requires AlikeItems(true, xs, ys)
    ensures AllStrings(xs) <==> AllStrings(ys)
    ensures AllStrings(xs) ==> Strings(xs) == Strings(ys)
    decreases |xs|
  {
    if xs != [] {
      AlikeStrings(xs[1..], ys[1..]);
      assert AllStrings(xs) <==> xs[0].Str? && AllStrings(xs[1..]) by {
        if xs[0].Str? && AllStrings(xs[1..]) {
          forall i | 0 <= i < |xs| ensures xs[i].Str? { assert i > 0 ==> xs[i] == xs[1..][i - 1]; }
        }
      }
      assert AllStrings(ys) <==> ys[0].Str? && AllStrings(ys[1..]) by {
        if ys[0].Str? && AllStrings(ys[1..]) {
          forall i | 0 <= i < |ys| ensures ys[i].Str? { assert i > 0 ==> ys[i] == ys[1..][i - 1]; }
        }
      }
      if AllStrings(xs) {
        assert Strings(xs) == [xs[0].s] + Strings(xs[1..]) && Strings(ys) == [ys[0].s] + Strings(ys[1..]);
      }
    }
  }

  lemma MembersAround(t: Table, room: nat, ns: seq<Member>, j: nat)
    requires j < |ns|
    ensures ExpandMembers(t, room, ns) == Join(ExpandMembers(t, room, ns[..j]),
                                               Join(ExpandMember(t, room, ns[j]), ExpandMembers(t, room, ns[j + 1..])))
    ensures ExpandMembers(t, room, Without(ns, j)) == Join(ExpandMembers(t, room, ns[..j]), ExpandMembers(t, room, ns[j + 1..]))
  {
    MembersConcat(t, room, ns[..j], ns[j + 1..]);
    assert ns == ns[..j] + ns[j..] && ns[j..][1..] == ns[j + 1..];
    MembersConcat(t, room, ns[..j], ns[j..]);
  }

  lemma {:induction false} MembersAlike(t: Table, room: nat, ms: seq<Member>, ns: seq<Member>)
    requires Reordered(true, ms, ns) && AllValid(ms) && AllValid(ns)
    ensures SameClaims(ExpandMembers(t, room, ms), ExpandMembers(t, room, ns))
    decreases MembersSize(ms), 2
  {
    if ms == [] {
      SameClaimsSelf(ExpandMembers(t, room, ms));
    } else {
      var j := Partner(true, ms, ns);
      MemberAlike(t, room, ms[0], ns[j]);
      assert AllValid(ms[1..]) && AllValid(Without(ns, j));
      MembersAlike(t, room, ms[1..], Without(ns, j));
      SameClaimsMembers(t, room, ms, ns, j);
    }
  }

  lemma SameClaimsMembers(t: Table, room: nat, ms: seq<Member>, ns: seq<Member>, j: nat)
    requires ms != [] && j < |ns| && SameClaims(ExpandMember(t, room, ms[0]), ExpandMember(t, room, ns[j]))
    requires SameClaims(ExpandMembers(t, room, ms[1..]), ExpandMembers(t, room, Without(ns, j)))
    ensures SameClaims(ExpandMembers(t, room, ms), ExpandMembers(t, room, ns))
  {
    MembersAround(t, room, ns, j);
    SameClaimsInsert(ExpandMember(t, room, ms[0]), ExpandMembers(t, room, ms[1..]), ExpandMember(t, room, ns[j]),
                     ExpandMembers(t, room, ns[..j]), ExpandMembers(t, room, ns[j + 1..]));
    MembersHead(t, room, ms);
  }

  lemma MembersHead(t: Table, room: nat, ms: seq<Member>)
    requires ms != []
    ensures ExpandMembers(t, room, ms) == Join(ExpandMember(t, room, ms[0]), ExpandMembers(t, room, ms[1..]))
  {}

  lemma {:induction false} MemberAlike(t: Table, room: nat, m: Member, n: Member)
    requires AlikeMember(true, m, n) && Valid(m.val) && Valid(n.val)
    ensures SameClaims(ExpandMember(t, room, m), ExpandMember(t, room, n))
    decreases Size(m.val), 1
  {
    if IsReserved(m.key) {
      SameClaimsSelf(ExpandMember(t, room, m));
    } else {
      ExpandAlike(t, room, m.val, n.val);
      var e, f := Expand(t, room, m.val), Expand(t, room, n.val);
      if e.Some? { ReorderedOne(false, Member(m.key, e.value.value), Member(n.key, f.value.value)); }
    }
  }

  lemma DigestsAround(t: Table, room: nat, fs: seq<string>, j: nat)
    requires j < |fs|
    ensures ExpandDigests(t, room, Some(fs))
         == Join(ExpandDigests(t, room, Some(fs[..j])), Join(ExpandDigest(t, room, fs[j]), ExpandDigests(t, room, Some(fs[j + 1..]))))
    ensures ExpandDigests(t, room, Some(Without(fs, j)))
         == Join(ExpandDigests(t, room, Some(fs[..j])), ExpandDigests(t, room, Some(fs[j + 1..])))
  {
    DigestsConcat(t, room, fs[..j], fs[j + 1..]);
    assert fs == fs[..j] + fs[j..] && fs[j..][1..] == fs[j + 1..];
    DigestsConcat(t, room, fs[..j], fs[j..]);
  }

  lemma DigestsHead(t: Table, room: nat, ds: seq<string>)
    requires ds != []
    ensures ExpandDigests(t, room, Some(ds)) == Join(ExpandDigest(t, room, ds[0]), ExpandDigests(t, room, Some(ds[1..])))
  {}

  lemma {:induction false} DigestsAlike(t: Table, room: nat, ds: seq<string>, fs: seq<string>)
    requires multiset(ds) == multiset(fs)
    ensures SameClaims(ExpandDigests(t, room, Some(ds)), ExpandDigests(t, room, Some(fs)))
    decreases |ds|
  {
    if ds == [] {
      EmptyMultiset(fs);
      SameClaimsSelf(ExpandDigests(t, room, Some(ds)));
    } else {
      var j := Occurrence(ds, fs);
      DigestsAlike(t, room, ds[1..], Without(fs, j));
      SameClaimsDigests(t, room, ds, fs, j);
    }
  }

  lemma SameClaimsDigests(t: Table, room: nat, ds: seq<string>, fs: seq<string>, j: nat)
    requires ds != [] && j < |fs| && fs[j] == ds[0]
    requires SameClaims(ExpandDigests(t, room, Some(ds[1..])), ExpandDigests(t, room, Some(Without(fs, j))))
    ensures SameClaims(ExpandDigests(t, room, Some(ds)), ExpandDigests(t, room, Some(fs)))
  {
    DigestsAround(t, room, fs, j);
    DigestsHead(t, room, ds);
    SameClaimsSelf(ExpandDigest(t, room, ds[0]));
    SameClaimsInsert(ExpandDigest(t, room, ds[0]), ExpandDigests(t, room, Some(ds[1..])), ExpandDigest(t, room, fs[j]),
                     ExpandDigests(t, room, Some(fs[..j])), ExpandDigests(t, room, Some(fs[j + 1..])));
  }

  lemma {:induction false} ItemsAlike(t: Table, room: nat, xs: seq<Json>, ys: seq<Json>)
    requires AlikeItems(true, xs, ys)
    requires forall i :: 0 <= i < |xs| ==> Valid(xs[i])
    requires forall i :: 0 <= i < |ys| ==> Valid(ys[i])
    ensures var e, f := ExpandItems(t, room, xs), ExpandItems(t, room, ys);
            (e.Some? <==> f.Some?) &&
            (e.Some? ==> AlikeItems(false, e.value.items, f.value.items) && multiset(e.value.met) == multiset(f.value.met))
    decreases ItemsSize(xs), 2
  {
    if xs != [] {
      ItemAlike(t, room, xs[0], ys[0]);
      ItemsAlike(t, room, xs[1..], ys[1..]);
      var a, b := ExpandItem(t, room, xs[0]), ExpandItems(t, room, xs[1..]);
      var c, d := ExpandItem(t, room, ys[0]), ExpandItems(t, room, ys[1..]);
      if a.Some? && b.Some? { AlikeItemsConcat(a.value.items, b.value.items, c.value.items, d.value.items); }
    }
  }

  lemma {:induction false} AlikeItemsConcat(a: seq<Json>, b: seq<Json>, a': seq<Json>, b': seq<Json>)
    requires AlikeItems(false, a, a') && AlikeItems(false, b, b')
    ensures AlikeItems(false, a + b, a' + b')
    decreases |a|
  {
    if a == [] {
      assert a + b == b && a' + b' == b';
    } else {
      AlikeItemsConcat(a[1..], b, a'[1..], b');
      assert (a + b)[1..] == a[1..] + b && (a' + b')[1..] == a'[1..] + b';
    }
  }

  lemma {:induction false} ItemAlike(t: Table, room: nat, x: Json, y: Json)
    requires Alike(true, x, y) && Valid(x) && Valid(y)
    ensures var e, f := ExpandItem(t, room, x), ExpandItem(t, room, y);
            (e.Some? <==> f.Some?) &&
            (e.Some? ==> AlikeItems(false, e.value.items, f.value.items) && multiset(e.value.met) == multiset(f.value.met))
    decreases Size(x), 1
  {
    PlaceholderAlike(x, y);
    if !IsPlaceholder(x) {
      ExpandAlike(t, room, x, y);
    } else {
      var e := ExpandItem(t, room, x);
      if e.Some? { AlikeItemsSelf(false, e.value.items); }
    }
  }

  lemma PlaceholderAlike(x: Json, y: Json)
    requires Alike(true, x, y)
    ensures IsPlaceholder(x) <==> IsPlaceholder(y)
    ensures IsPlaceholder(x) ==> (x.members[0].val.Str? <==> y.members[0].val.Str?)
    ensures IsPlaceholder(x) && x.members[0].val.Str? ==> x == y
  {
    if x.Obj? && |x.members| == 1 {
      var j := Partner(true, x.members, y.members);
      assert j == 0 && y.members == [y.members[0]] && x.members == [x.members[0]];
      assert x.members[0].key == "..." ==> Alike(true, x.members[0].val, y.members[0].val);
      assert x.members[0].val.Str? && Alike(true, x.members[0].val, y.members[0].val) ==> x.members[0] == y.members[0];
    }
  }

  /** Resolving alike payloads with the disclosures in any order succeeds in both cases or fails in both, and gives
      the same claims as JSON values. */
  lemma OrderDoesNotMatter(c: Codec, payload: seq<Member>, payload': seq<Member>, ds: seq<string>, ds': seq<string>)
    requires Valid(Obj(payload)) && Valid(Obj(payload')) && ParsesStrictly(c, ds) && ParsesStrictly(c, ds')
    requires Alike(true, Obj(payload), Obj(payload')) && multiset(ds) == multiset(ds')
    ensures var r, r' := Resolve(c, payload, ds), Resolve(c, payload', ds');
            (r.Ok? <==> r'.Ok?) && (r.Ok? ==> Alike(false, r.value.0, r'.value.0))
  {
    IndexableAnyOrder(c, ds, ds');
    var t, e := ResolveIsTheRule(c, payload, ds);
    var t', e' := ResolveIsTheRule(c, payload', ds');
    if e.Some? && Resolvable(c, payload, ds, t, e.value) {
      var f' := Carries(c, payload, payload', ds, ds', t, e.value);
    } else if e'.Some? && Resolvable(c, payload', ds', t', e'.value) {
      var f := CarriesBack(c, payload, payload', ds, ds', t', e'.value);
    }
  }

  lemma SameAlg(payload: seq<Member>, payload': seq<Member>)
    requires Valid(Obj(payload)) && Valid(Obj(payload')) && Reordered(true, payload, payload')
    ensures Sha256Only(payload) <==> Sha256Only(payload')
  {
    LookupReordered(true, payload, payload', "_sd_alg");
    AlgIsSha256(payload);
    AlgIsSha256(payload');
  }

  lemma MetAnyOrder(met: seq<string>, met': seq<string>)
    requires multiset(met) == multiset(met')
    ensures NoDuplicates(met) <==> NoDuplicates(met')
    ensures Elems(met) == Elems(met')
  {
    NoDuplicatesIsMultiset(met);
    NoDuplicatesIsMultiset(met');
    assert forall x :: x in met <==> x in multiset(met);
    assert forall x :: x in met' <==> x in multiset(met');
  }

  lemma Carries(c: Codec, payload: seq<Member>, payload': seq<Member>, ds: seq<string>, ds': seq<string>,
                t: Table, e: Expansion) returns (f: Expansion)
    requires Valid(Obj(payload)) && Valid(Obj(payload')) && Alike(true, Obj(payload), Obj(payload'))
    requires multiset(ds) == multiset(ds') && Resolvable(c, payload, ds, t, e)
    ensures Resolvable(c, payload', ds', t, f) && Alike(false, e.value, f.value)
  {
    SameAlg(payload, payload');
    IndexableAnyOrder(c, ds, ds');
    IndexesAnyOrder(c, ds, ds', t);
    ExpandAlike(t, MAX_JSON_DEPTH, Obj(payload), Obj(payload'));
    f := Expand(t, MAX_JSON_DEPTH, Obj(payload')).value;
    MetAnyOrder(e.met, f.met);
  }

  lemma CarriesBack(c: Codec, payload: seq<Member>, payload': seq<Member>, ds: seq<string>, ds': seq<string>,
                    t: Table, f: Expansion) returns (e: Expansion)
    requires Valid(Obj(payload)) && Valid(Obj(payload')) && Alike(true, Obj(payload), Obj(payload'))
    requires multiset(ds) == multiset(ds') && Resolvable(c, payload', ds', t, f)
    ensures Resolvable(c, payload, ds, t, e) && Alike(false, e.value, f.value)
  {
    SameAlg(payload, payload');
    IndexableAnyOrder(c, ds, ds');
    IndexesAnyOrder(c, ds', ds, t);
    ExpandAlike(t, MAX_JSON_DEPTH, Obj(payload), Obj(payload'));
    e := Expand(t, MAX_JSON_DEPTH, Obj(payload)).value;
    MetAnyOrder(e.met, f.met);
  }

  lemma {:induction false} DigestsMultiset(c: Codec, ds: seq<string>, ds': seq<string>)
    requires multiset(ds) == multiset(ds')
    ensures multiset(Digests(c, ds)) == multiset(Digests(c, ds'))
    decreases |ds|
  {
    if ds == [] {
      EmptyMultiset(ds');
    } else {
      var j := Occurrence(ds, ds');
      DigestsMultiset(c, ds[1..], Without(ds', j));
      DigestsWithout(c, ds', j);
      assert Digests(c, ds) == [c.digest(ds[0])] + Digests(c, ds[1..]);
    }
  }

  lemma DigestsWithout(c: Codec, ds: seq<string>, j: nat)
    requires j < |ds|
    ensures multiset(Digests(c, ds)) == multiset(Digests(c, Without(ds, j))) + multiset{c.digest(ds[j])}
  {
    assert Digests(c, Without(ds, j)) == Without(Digests(c, ds), j);
    MultisetWithout(Digests(c, ds), j);
  }

  lemma IndexableAnyOrder(c: Codec, ds: seq<string>, ds': seq<string>)
    requires multiset(ds) == multiset(ds')
    ensures Indexable(c, ds) <==> Indexable(c, ds')
  {
    DigestsMultiset(c, ds, ds');
    NoDuplicatesIsMultiset(Digests(c, ds));
    NoDuplicatesIsMultiset(Digests(c, ds'));
    if Indexable(c, ds) {
      forall i | 0 <= i < |ds'| ensures Decodes(c, ds'[i]) { assert ds'[i] in multiset(ds); }
    }
    if Indexable(c, ds') {
      forall i | 0 <= i < |ds| ensures Decodes(c, ds[i]) { assert ds[i] in multiset(ds'); }
    }
  }

  lemma IndexesAnyOrder(c: Codec, ds: seq<string>, ds': seq<string>, t: Table)
    requires multiset(ds) == multiset(ds') && Indexes(c, ds, t)
    ensures Indexes(c, ds', t)
  {
    DigestsMultiset(c, ds, ds');
    assert forall x :: x in Digests(c, ds) <==> x in multiset(Digests(c, ds));
    assert forall x :: x in Digests(c, ds') <==> x in multiset(Digests(c, ds'));
    forall i | 0 <= i < |ds'|
      ensures Decodes(c, ds'[i]) && c.digest(ds'[i]) in t && t[c.digest(ds'[i])] == c.decode(ds'[i]).value.items
    {
      assert ds'[i] in multiset(ds);
    }
  }

  // ------------------------------------------------------------------ values that resolve to themselves

  /** Nothing left to resolve or to drop: no `_sd`, no `_sd_alg`, no placeholder in a list. */
  predicate Settled(j: Json) {
    match j
    case Arr(xs) => SettledItems(xs)
    case Obj(ms) => SettledMembers(ms)
    case _ => true
  }

  predicate SettledItems(xs: seq<Json>) {
    xs != [] ==> !IsPlaceholder(xs[0]) && Settled(xs[0]) && SettledItems(xs[1..])
  }

  predicate SettledMembers(ms: seq<Member>) {
    ms != [] ==> !IsReserved(ms[0].key) && Settled(ms[0].val) && SettledMembers(ms[1..])
  }

  lemma {:induction false} SettledIsFixed(room: nat, j: Json)
    requires Valid(j)
    ensures var e := Expand(map[], room, j);
            (e.Some? && e.value.value == j <==> Settled(j) && Depth(j) <= room) &&
            (Settled(j) && Depth(j) <= room ==> e.value.met == [])
    decreases room, 1, 0
  {
    if IsContainer(j) && room > 0 {
      if j.Arr? {
        FixedItems(room - 1, j.items);
      } else {
        FixedMembers(room - 1, j.members);
        HiddenAddNothing(room - 1, DigestsOf(j.members));
        var p := ExpandMembers(map[], room - 1, j.members);
        if p.Some? { assert p.value.members + [] == p.value.members; }
        if SettledMembers(j.members) { SettledHasNoSd(j.members); }
      }
    }
  }

  lemma {:induction false} SettledHasNoSd(ms: seq<Member>)
    requires SettledMembers(ms)
    ensures Lookup(ms, "_sd").None?
    decreases |ms|
  {
    if ms != [] { SettledHasNoSd(ms[1..]); }
  }

  lemma {:induction false} HiddenAddNothing(room: nat, digests: Option<seq<string>>)
    ensures var e := ExpandDigests(map[], room, digests); e.Some? ==> e.value.members == []
    decreases match digests case None => 0 case Some(ds) => |ds|
  {
    if digests.Some? && digests.value != [] { HiddenAddNothing(room, Some(digests.value[1..])); }
  }

  /** The expansion with nothing disclosed gives the list back. */
  ghost predicate KeepsItems(room: nat, xs: seq<Json>) {
    ExpandItems(map[], room, xs).Some? && ExpandItems(map[], room, xs).value.items == xs
  }

  ghost predicate KeepsMembers(room: nat, ms: seq<Member>) {
    ExpandMembers(map[], room, ms).Some? && ExpandMembers(map[], room, ms).value.members == ms
  }

  lemma KeepsItemsStep(room: nat, xs: seq<Json>)
    requires xs != []
    requires var e := ExpandItems(map[], room, xs[1..]); e.Some? ==> |e.value.items| < |xs|
    ensures var x := Expand(map[], room, xs[0]);
            KeepsItems(room, xs) <==> !IsPlaceholder(xs[0]) && x.Some? && x.value.value == xs[0] && KeepsItems(room, xs[1..])
    ensures var e := ExpandItems(map[], room, xs); e.Some? ==> |e.value.items| <= |xs|
  {
    var a, b := ExpandItem(map[], room, xs[0]), ExpandItems(map[], room, xs[1..]);
    if a.Some? && b.Some? {
      assert xs == [xs[0]] + xs[1..];
      if !IsPlaceholder(xs[0]) {
        var v := a.value.items[0];
        assert a.value.items + b.value.items == xs <==> v == xs[0] && b.value.items == xs[1..] by {
          assert (a.value.items + b.value.items)[0] == v && (a.value.items + b.value.items)[1..] == b.value.items;
        }
      }
    }
  }

  lemma KeepsMembersStep(room: nat, ms: seq<Member>)
    requires ms != []
    requires var e := ExpandMembers(map[], room, ms[1..]); e.Some? ==> |e.value.members| < |ms|
    ensures var x := Expand(map[], room, ms[0].val);
            KeepsMembers(room, ms) <==> !IsReserved(ms[0].key) && x.Some? && x.value.value == ms[0].val && KeepsMembers(room, ms[1..])
    ensures var e := ExpandMembers(map[], room, ms); e.Some? ==> |e.value.members| <= |ms|
  {
    var a, b := ExpandMember(map[], room, ms[0]), ExpandMembers(map[], room, ms[1..]);
    if a.Some? && b.Some? {
      assert ms == [ms[0]] + ms[1..];
      if !IsReserved(ms[0].key) {
        var m := a.value.members[0];
        assert a.value.members + b.value.members == ms <==> m == ms[0] && b.value.members == ms[1..] by {
          assert (a.value.members + b.value.members)[0] == m && (a.value.members + b.value.members)[1..] == b.value.members;
        }
      }
    }
  }

  lemma {:induction false} FixedItems(room: nat, xs: seq<Json>)
    requires forall i :: 0 <= i < |xs| ==> Valid(xs[i])
    ensures var e := ExpandItems(map[], room, xs); e.Some? ==> |e.value.items| <= |xs|
    ensures KeepsItems(room, xs) <==> SettledItems(xs) && ItemsDepth(xs) <= room
    ensures KeepsItems(room, xs) ==> ExpandItems(map[], room, xs).value.met == []
    decreases room, 3, |xs|
  {
    if xs != [] {
      SettledIsFixed(room, xs[0]);
      FixedItems(room, xs[1..]);
      KeepsItemsStep(room, xs);
    }
  }

  lemma {:induction false} FixedMembers(room: nat, ms: seq<Member>)
    requires forall i :: 0 <= i < |ms| ==> Valid(ms[i].val)
    ensures var e := ExpandMembers(map[], room, ms); e.Some? ==> |e.value.members| <= |ms|
    ensures KeepsMembers(room, ms) <==> SettledMembers(ms) && MembersDepth(ms) <= room
    ensures KeepsMembers(room, ms) ==> ExpandMembers(map[], room, ms).value.met == []
    decreases room, 2, |ms|
  {
    if ms != [] {
      SettledIsFixed(room, ms[0].val);
      FixedMembers(room, ms[1..]);
      KeepsMembersStep(room, ms);
    }
  }

  /** Resolving a resolved value again, with nothing disclosed, gives it back exactly when it is settled: nothing else
      about how it was obtained matters. */
  lemma IdempotentIffSettled(c: Codec, payload: seq<Member>, ds: seq<string>)
    requires Valid(Obj(payload)) && ParsesStrictly(c, ds) && Resolve(c, payload, ds).Ok?
    ensures var v := Resolve(c, payload, ds).value.0;
            v.Obj? && (Settled(v) <==> Resolve(c, v.members, []).Ok? && Resolve(c, v.members, []).value.0 == v)
  {
    hide Resolve, Settled, Expand;
    ResolutionGuarantees(c, payload, ds);
    ResolvedIsObject(c, payload, ds);
    var v := Resolve(c, payload, ds).value.0;
    ResolvedAlone(c, v.members);
  }

  lemma ResolvedIsObject(c: Codec, payload: seq<Member>, ds: seq<string>)
    requires Valid(Obj(payload)) && ParsesStrictly(c, ds) && Resolve(c, payload, ds).Ok?
    ensures Resolve(c, payload, ds).value.0.Obj?
  {
    hide Resolve;
    var _, _ := ResolveIsTheRule(c, payload, ds);
  }

  /** A value within the bound, resolved with nothing disclosed. */
  lemma ResolvedAlone(c: Codec, ms: seq<Member>)
    requires Valid(Obj(ms)) && Depth(Obj(ms)) <= MAX_JSON_DEPTH
    ensures Settled(Obj(ms)) <==> Resolve(c, ms, []).Ok? && Resolve(c, ms, []).value.0 == Obj(ms)
  {
    hide Resolve, Expand, Valid;
    var v := Obj(ms);
    SettledIsFixed(MAX_JSON_DEPTH, v);
    var t, e := ResolveIsTheRule(c, ms, []);
    BuildTableIndexes(c, []);
    assert Indexable(c, []) && Indexes(c, [], map[]);
    if Settled(v) {
      SettledNoAlg(ms);
      assert Resolvable(c, ms, [], map[], Expansion(v, []));
    }
  }

  lemma {:induction false} SettledNoAlg(ms: seq<Member>)
    requires SettledMembers(ms)
    ensures Lookup(ms, "_sd_alg").None?
    decreases |ms|
  {
    if ms != [] { SettledNoAlg(ms[1..]); }
  }

  /** An input element `{"...": "x", "_sd": []}` is no placeholder, yet becomes one: the result is not settled. */
  lemma UnsettledResult(c: Codec)
    ensures var hidden := Obj([Member("...", Str("x")), Member("_sd", Arr([]))]);
            var r := Resolve(c, [Member("a", Arr([hidden]))], []);
            r.Ok? && r.value.0 == Obj([Member("a", Arr([Obj([Member("...", Str("x"))])]))]) && !Settled(r.value.0)
  {
    var left := Obj([Member("...", Str("x"))]);
    var hidden := Obj([Member("...", Str("x")), Member("_sd", Arr([]))]);
    var payload := [Member("a", Arr([hidden]))];
    assert BuildTable(c, [], map[]) == Ok(map[]);
    assert Lookup(payload, "_sd_alg") == None && DigestsOf(payload) == Some([]) by { assert payload[1..] == []; }
    assert DigestsOf(hidden.members) == Some([]) by {
      assert hidden.members[1..] == [Member("_sd", Arr([]))];
    }
    assert Walk(map[], hidden, 3, Blank) == Ok((left, Blank)) by {
      var ms := hidden.members;
      assert ms[1..][1..] == [];
      calc {
        WalkMembers(map[], ms, ms, [], 3, Blank);
        WalkMembers(map[], ms, ms[1..], [Member("...", Str("x"))], 3, Blank);
        WalkMembers(map[], ms, ms[1..][1..], [Member("...", Str("x"))], 3, Blank);
        Ok((left, Blank));
      }
    }
    assert Walk(map[], Arr([hidden]), 2, Blank) == Ok((Arr([left]), Blank)) by {
      assert [hidden][1..] == [] && [] + [left] == [left];
      assert WalkItem(map[], hidden, 2, Blank) == Ok(([left], Blank));
    }
    assert payload[1..] == [];
    assert WalkMember(map[], payload[0], [], 1, Blank) == Ok(([Member("a", Arr([left]))], Blank));
    assert Walk(map[], Obj(payload), 1, Blank) == Ok((Obj([Member("a", Arr([left]))]), Blank));
    assert IsPlaceholder([left][0]);
  }
}
