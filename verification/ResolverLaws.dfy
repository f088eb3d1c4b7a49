/** What the resolver promises, stated with the stateless rule: when it succeeds, what it returns, how deep, and
    what it records. */
module ResolverLaws {
  import opened Values
  import opened Resolution
  import opened DisclosureRule

  /** The strict parser refuses an object with a repeated key. */
  ghost predicate ParsesStrictly(c: Codec, ds: seq<string>) {
    forall i :: 0 <= i < |ds| && c.decode(ds[i]).Some? ==> Valid(c.decode(ds[i]).value)
  }

  predicate Decodes(c: Codec, d: string) {
    c.decode(d).Some? && c.decode(d).value.Arr? && |c.decode(d).value.items| in {2, 3}
  }

  function Digests(c: Codec, ds: seq<string>): (r: seq<string>)
    ensures |r| == |ds| && forall i :: 0 <= i < |ds| ==> r[i] == c.digest(ds[i])
  {
    seq(|ds|, i requires 0 <= i < |ds| => c.digest(ds[i]))
  }

  /** The disclosures can be indexed: each decodes to two or three parts and no two share a digest. */
  ghost predicate Indexable(c: Codec, ds: seq<string>) {
    (forall i :: 0 <= i < |ds| ==> Decodes(c, ds[i])) && NoDuplicates(Digests(c, ds))
  }

  /** `t` holds exactly the supplied disclosures, each under its digest. */
  ghost predicate Indexes(c: Codec, ds: seq<string>, t: Table) {
    t.Keys == Elems(Digests(c, ds)) &&
    forall i :: 0 <= i < |ds| ==> Decodes(c, ds[i]) && c.digest(ds[i]) in t && t[c.digest(ds[i])] == c.decode(ds[i]).value.items
  }

  /** One more disclosure in the table. */
  lemma IndexOneMore(c: Codec, done: seq<string>, d: string, t: Table)
    requires Indexable(c, done) && Indexes(c, done, t) && Decodes(c, d) && c.digest(d) !in t
    ensures Indexable(c, done + [d]) && Indexes(c, done + [d], t[c.digest(d) := c.decode(d).value.items])
  {
    var done', t' := done + [d], t[c.digest(d) := c.decode(d).value.items];
    assert Indexable(c, done') by {
      forall i, j | 0 <= i < j < |done'| ensures Digests(c, done')[i] != Digests(c, done')[j] {
        assert Digests(c, done)[i] in t;
        if j < |done| { assert Digests(c, done)[i] != Digests(c, done)[j]; }
      }
    }
    assert Indexes(c, done', t') by {
      assert Digests(c, done') == Digests(c, done) + [c.digest(d)];
      forall i | 0 <= i < |done'|
        ensures Decodes(c, done'[i]) && c.digest(done'[i]) in t' && t'[c.digest(done'[i])] == c.decode(done'[i]).value.items
      {
        if i < |done| { assert Digests(c, done)[i] != c.digest(d); }
      }
    }
  }

  lemma NoneMore(c: Codec, done: seq<string>, d: string, t: Table)
    requires Indexes(c, done, t) && !(Decodes(c, d) && c.digest(d) !in t)
    ensures !Indexable(c, done + [d])
  {
    var all := done + [d];
    assert all[|done|] == d;
    if c.digest(d) in t {
      var i :| 0 <= i < |done| && Digests(c, done)[i] == c.digest(d);
      assert Digests(c, all)[i] == Digests(c, all)[|done|];
    }
  }

  lemma IndexablePrefix(c: Codec, ds: seq<string>, n: nat)
    requires n <= |ds| && Indexable(c, ds)
    ensures Indexable(c, ds[..n])
  {
    assert Digests(c, ds[..n]) == Digests(c, ds)[..n];
  }

  lemma {:induction false} BuildTableFrom(c: Codec, done: seq<string>, rest: seq<string>, t: Table)
    requires Indexable(c, done) && Indexes(c, done, t)
    ensures BuildTable(c, rest, t).Ok? <==> Indexable(c, done + rest)
    ensures BuildTable(c, rest, t).Ok? ==> Indexes(c, done + rest, BuildTable(c, rest, t).value)
    decreases |rest|
  {
    if rest == [] {
      assert done + rest == done;
    } else {
      var d, done', all := rest[0], done + [rest[0]], done + rest;
      assert all == done' + rest[1..];
      assert all[..|done| + 1] == done';
      if Decodes(c, d) && c.digest(d) !in t {
        var t' := t[c.digest(d) := c.decode(d).value.items];
        IndexOneMore(c, done, d, t);
        BuildTableFrom(c, done', rest[1..], t');
      } else {
        NoneMore(c, done, d, t);
        if Indexable(c, all) { IndexablePrefix(c, all, |done| + 1); }
      }
    }
  }

  lemma BuildTableIndexes(c: Codec, ds: seq<string>)
    ensures BuildTable(c, ds, map[]).Ok? <==> Indexable(c, ds)
    ensures BuildTable(c, ds, map[]).Ok? ==> Indexes(c, ds, BuildTable(c, ds, map[]).value)
  {
    BuildTableFrom(c, [], ds, map[]);
    assert [] + ds == ds;
  }

  lemma IndexedIsValid(c: Codec, ds: seq<string>, t: Table)
    requires ParsesStrictly(c, ds) && Indexes(c, ds, t)
    ensures ValidTable(t)
  {
    forall d | d in t ensures forall i :: 0 <= i < |t[d]| ==> Valid(t[d][i]) {
      var k :| 0 <= k < |ds| && Digests(c, ds)[k] == d;
      assert t[d] == c.decode(ds[k]).value.items;
    }
  }

  /** A payload that names no hash algorithm, or names SHA-256. */
  ghost predicate Sha256Only(payload: seq<Member>) {
    forall i :: 0 <= i < |payload| && payload[i].key == "_sd_alg" ==> payload[i].val == Str("sha-256")
  }

  /** The outcome the rule prescribes: the supplied disclosures are indexed, the payload expands within the depth
      bound, no digest is met twice, and no disclosure is left over. */
  ghost predicate Resolvable(c: Codec, payload: seq<Member>, ds: seq<string>, t: Table, e: Expansion) {
    Sha256Only(payload) && Indexable(c, ds) && Indexes(c, ds, t) &&
    Expand(t, 512, Obj(payload)) == Some(e) && NoDuplicates(e.met) && t.Keys <= Elems(e.met)
  }

  lemma AlgIsSha256(payload: seq<Member>)
    requires UniqueKeys(payload)
    ensures AlgAccepted(payload) <==> Sha256Only(payload)
  {
    if r :| r in payload && r.key == "_sd_alg" { UniqueLookup(payload, r); }
  }

  /** In an object whose keys differ, every member is the one its name finds. */
  lemma {:induction false} UniqueLookup(ms: seq<Member>, m: Member)
    requires UniqueKeys(ms) && m in ms
    ensures Lookup(ms, m.key) == Some(m.val)
    decreases |ms|
  {
    if ms[0] != m {
      UniqueTail(ms);
      var i :| 0 <= i < |ms| && ms[i] == m;
      assert KeySeq(ms)[0] != KeySeq(ms)[i];
      assert ms[1..][i - 1] == m;
      UniqueLookup(ms[1..], m);
    }
  }

  /** `i` is the first disclosure that cannot be indexed, and `e` says why. */
  ghost predicate StopsAt(c: Codec, ds: seq<string>, i: nat, e: Error) {
    i < |ds| && Indexable(c, ds[..i]) &&
    match e
    case MalformedDisclosure => c.decode(ds[i]) == None
    case DisclosureArity => c.decode(ds[i]).Some? && !Decodes(c, ds[i])
    case DuplicateDisclosure => Decodes(c, ds[i]) && c.digest(ds[i]) in Digests(c, ds[..i])
    case _ => false
  }

  /** All is well but for a disclosure that no digest met stands for. */
  ghost predicate LeavesOver(c: Codec, payload: seq<Member>, ds: seq<string>, t: Table, e: Expansion) {
    Sha256Only(payload) && Indexable(c, ds) && Indexes(c, ds, t) &&
    Expand(t, 512, Obj(payload)) == Some(e) && NoDuplicates(e.met) && !(t.Keys <= Elems(e.met))
  }

  /** A refusal outside the walk comes from the algorithm, else from the table, else from what the walk left over. */
  lemma RefusalComesFrom(c: Codec, payload: seq<Member>, ds: seq<string>, e: Error)
    requires !WalkFault(e)
    ensures Resolve(c, payload, ds) == Err(e) <==>
            if !AlgAccepted(payload) then e == UnsupportedAlg
            else
              match BuildTable(c, ds, map[])
              case Err(f) => e == f
              case Ok(t) =>
                var w := Walk(t, Obj(payload), 1, Blank);
                e == UnmatchedDisclosures && w.Ok? && t.Keys - w.value.1.used != {}
  {
    hide Walk, BuildTable, AlgAccepted;
  }

  lemma UnsupportedExactly(c: Codec, payload: seq<Member>, ds: seq<string>)
    requires Valid(Obj(payload))
    ensures Resolve(c, payload, ds) == Err(UnsupportedAlg) <==> !Sha256Only(payload)
  {
    hide Resolve, Walk, AlgAccepted, Sha256Only, Lookup;
    RefusalComesFrom(c, payload, ds, UnsupportedAlg);
    AlgIsSha256(payload);
  }

  lemma RefusedByTable(c: Codec, payload: seq<Member>, ds: seq<string>, e: Error)
    requires Valid(Obj(payload)) && e in {MalformedDisclosure, DisclosureArity, DuplicateDisclosure}
    ensures Resolve(c, payload, ds) == Err(e) <==> Sha256Only(payload) && exists i :: StopsAt(c, ds, i, e)
  {
    hide Resolve, Walk, AlgAccepted, Sha256Only, Lookup, StopsAt, BuildTable;
    RefusalComesFrom(c, payload, ds, e);
    AlgIsSha256(payload);
    TableRefusedExactly(c, [], ds, map[], e);
    assert [] + ds == ds;
  }

  lemma RefusedAfterWalk(c: Codec, payload: seq<Member>, ds: seq<string>)
    requires Valid(Obj(payload)) && ParsesStrictly(c, ds)
    ensures Resolve(c, payload, ds) == Err(UnmatchedDisclosures) <==> exists t, x :: LeavesOver(c, payload, ds, t, x)
  {
    hide Resolve, Walk, AlgAccepted, Sha256Only, Lookup, BuildTable, Expand, Indexable, Indexes, ParsesStrictly;
    RefusalComesFrom(c, payload, ds, UnmatchedDisclosures);
    AlgIsSha256(payload);
    BuildTableIndexes(c, ds);
    var b := BuildTable(c, ds, map[]);
    if b.Ok? { LeftOver(c, payload, ds, b.value); }
  }

  /** Each refusal outside the walk: another hash algorithm, the first disclosure that is no part list or repeats a
      digest, or a disclosure left over. */
  lemma RefusedExactly(c: Codec, payload: seq<Member>, ds: seq<string>, e: Error)
    requires Valid(Obj(payload)) && ParsesStrictly(c, ds)
    requires e in {UnsupportedAlg, MalformedDisclosure, DisclosureArity, DuplicateDisclosure, UnmatchedDisclosures}
    ensures Resolve(c, payload, ds) == Err(e) <==>
            if e == UnsupportedAlg then
              exists i :: 0 <= i < |payload| && payload[i].key == "_sd_alg" && payload[i].val != Str("sha-256")
            else if e == UnmatchedDisclosures then exists t, x :: LeavesOver(c, payload, ds, t, x)
            else Sha256Only(payload) && exists i :: StopsAt(c, ds, i, e)
  {
    hide Resolve, StopsAt, LeavesOver, ParsesStrictly;
    UnsupportedExactly(c, payload, ds);
    RefusedAfterWalk(c, payload, ds);
    if e in {MalformedDisclosure, DisclosureArity, DuplicateDisclosure} { RefusedByTable(c, payload, ds, e); }
  }

  lemma LeftOver(c: Codec, payload: seq<Member>, ds: seq<string>, t: Table)
    requires Valid(Obj(payload)) && ParsesStrictly(c, ds) && Indexable(c, ds) && Indexes(c, ds, t)
    ensures var w := Walk(t, Obj(payload), 1, Blank);
            Sha256Only(payload) && w.Ok? && t.Keys - w.value.1.used != {} <==> exists u, e :: LeavesOver(c, payload, ds, u, e)
  {
    IndexedIsValid(c, ds, t);
    WalkIsExpand(t, Obj(payload), 1, Blank);
    var e := Expand(t, 512, Obj(payload));
    if e.Some? {
      assert Advance(t, Blank, e.value.met).used == Elems(e.value.met) * t.Keys;
      assert t.Keys - Elems(e.value.met) * t.Keys == {} <==> t.Keys <= Elems(e.value.met) by {
        forall d | d in t.Keys ensures d in t.Keys - Elems(e.value.met) * t.Keys <==> d !in Elems(e.value.met) {}
      }
      if Sha256Only(payload) && NoDuplicates(e.value.met) && !(t.Keys <= Elems(e.value.met)) {
        assert LeavesOver(c, payload, ds, t, e.value);
      }
    }
    forall u, x | LeavesOver(c, payload, ds, u, x) ensures u == t && e == Some(x) { IndexUnique(c, ds, t, u); }
  }

  lemma DoneDoesNotStop(c: Codec, done: seq<string>, i: nat, e: Error)
    requires i < |done| && Indexable(c, done)
    ensures !StopsAt(c, done, i, e)
  {
    assert Decodes(c, done[i]);
    assert Digests(c, done[..i]) == Digests(c, done)[..i] && Digests(c, done)[i] == c.digest(done[i]);
  }

  lemma TableGoesOn(c: Codec, rest: seq<string>, t: Table)
    requires rest != [] && Decodes(c, rest[0]) && c.digest(rest[0]) !in t
    ensures BuildTable(c, rest, t) == BuildTable(c, rest[1..], t[c.digest(rest[0]) := c.decode(rest[0]).value.items])
  {}

  /** The disclosure that cannot be indexed is where the table stops. */
  lemma TableStopsHere(c: Codec, done: seq<string>, rest: seq<string>, t: Table, e: Error)
    requires rest != [] && Indexable(c, done) && Indexes(c, done, t) && !(Decodes(c, rest[0]) && c.digest(rest[0]) !in t)
    ensures BuildTable(c, rest, t) == Err(e) <==> StopsAt(c, done + rest, |done|, e)
  {
    var all := done + rest;
    assert all[..|done|] == done && all[|done|] == rest[0];
    assert c.digest(rest[0]) in t <==> c.digest(rest[0]) in Digests(c, done);
  }

  lemma NothingStopsLater(c: Codec, all: seq<string>, n: nat, i: nat, e: Error)
    requires n < i && n < |all| && !Indexable(c, all[..n + 1])
    ensures !StopsAt(c, all, i, e)
  {
    hide Indexable, Decodes, Digests;
    if i < |all| {
      assert all[..i][..n + 1] == all[..n + 1];
      if Indexable(c, all[..i]) { IndexablePrefix(c, all[..i], n + 1); }
    }
  }

  lemma NothingStopsBefore(c: Codec, done: seq<string>, all: seq<string>, i: nat, e: Error)
    requires i < |done| && Indexable(c, done) && done <= all
    ensures !StopsAt(c, all, i, e)
  {
    hide Indexable, Decodes, Digests;
    DoneDoesNotStop(c, done, i, e);
    assert all[..i] == done[..i];
  }

  /** The fault of the first disclosure that cannot be indexed. */
  lemma {:induction false} TableRefusedExactly(c: Codec, done: seq<string>, rest: seq<string>, t: Table, e: Error)
    requires Indexable(c, done) && Indexes(c, done, t)
    ensures BuildTable(c, rest, t) == Err(e) <==> exists i :: StopsAt(c, done + rest, i, e)
    decreases |rest|
  {
    var all := done + rest;
    if rest == [] {
      assert all == done;
      forall i: nat ensures !StopsAt(c, all, i, e) { if i < |done| { DoneDoesNotStop(c, done, i, e); } }
    } else {
      hide Indexable, Indexes, StopsAt, BuildTable, Digests;
      var done' := done + [rest[0]];
      assert all == done' + rest[1..] && all[..|done| + 1] == done';
      if Decodes(c, rest[0]) && c.digest(rest[0]) !in t {
        TableGoesOn(c, rest, t);
        IndexOneMore(c, done, rest[0], t);
        TableRefusedExactly(c, done', rest[1..], t[c.digest(rest[0]) := c.decode(rest[0]).value.items], e);
      } else {
        NoneMore(c, done, rest[0], t);
        TableStopsHere(c, done, rest, t, e);
        forall i: nat | i != |done| ensures !StopsAt(c, all, i, e) {
          if i < |done| { NothingStopsBefore(c, done, all, i, e); } else { NothingStopsLater(c, all, |done|, i, e); }
        }
      }
    }
  }

  /** The stack driver succeeds exactly when the rule does, and then returns its expansion. */
  lemma ResolveIsTheRule(c: Codec, payload: seq<Member>, ds: seq<string>) returns (t: Table, e: Option<Expansion>)
    requires Valid(Obj(payload)) && ParsesStrictly(c, ds)
    ensures var r := Resolve(c, payload, ds);
            (r.Ok? <==> e.Some? && Resolvable(c, payload, ds, t, e.value)) &&
            (r.Ok? ==> r.value.0 == e.value.value && r.value.1 == Ledger(Elems(e.value.met), e.value.met, t.Keys))
    ensures forall t', e' | Resolvable(c, payload, ds, t', e') :: e == Some(e') && t == t'
  {
    AlgIsSha256(payload);
    BuildTableIndexes(c, ds);
    var b := BuildTable(c, ds, map[]);
    t, e := map[], None;
    if b.Ok? {
      t := b.value;
      IndexedIsValid(c, ds, t);
      WalkIsExpand(t, Obj(payload), 1, Blank);
      e := Expand(t, 512, Obj(payload));
      if e.Some? {
        assert Advance(t, Blank, e.value.met).encountered == e.value.met;
        assert Advance(t, Blank, e.value.met).used == Elems(e.value.met) * t.Keys;
      }
    }
    forall t', e' | Resolvable(c, payload, ds, t', e') ensures e == Some(e') && t == t' {
      IndexUnique(c, ds, t, t');
    }
  }

  lemma IndexUnique(c: Codec, ds: seq<string>, t: Table, t': Table)
    requires Indexes(c, ds, t) && Indexes(c, ds, t')
    ensures t == t'
  {
    forall d | d in t ensures t[d] == t'[d] {
      var k :| 0 <= k < |ds| && Digests(c, ds)[k] == d;
    }
  }

  // ------------------------------------------------------------------ the shape of the result

  /** No object inside has a key `_sd`. */
  ghost predicate NoSd(j: Json) {
    match j
    case Arr(xs) => forall i :: 0 <= i < |xs| ==> NoSd(xs[i])
    case Obj(ms) => forall i :: 0 <= i < |ms| ==> ms[i].key != "_sd" && NoSd(ms[i].val)
    case _ => true
  }

  /** What every resolved value is: a well-formed value without `_sd`, at most `room` levels deep. */
  ghost predicate Clean(j: Json, room: nat) { Valid(j) && NoSd(j) && Depth(j) <= room }

  ghost predicate CleanMembers(ms: seq<Member>, room: nat) {
    forall i :: 0 <= i < |ms| ==> ms[i].key != "_sd" && Clean(ms[i].val, room)
  }

  ghost predicate CleanItems(xs: seq<Json>, room: nat) {
    forall i :: 0 <= i < |xs| ==> Clean(xs[i], room)
  }

  lemma {:induction false} ExpandIsClean(t: Table, room: nat, node: Json)
    ensures var e := Expand(t, room, node); e.Some? ==> Clean(e.value.value, room)
    decreases room, 1, 0
  {
    hide ExpandMembers, ExpandDigests, ExpandItems, DigestsOf;
    if IsContainer(node) && room > 0 {
      if node.Arr? {
        ItemsAreClean(t, room - 1, node.items);
        var e := ExpandItems(t, room - 1, node.items);
        if e.Some? { ShallowItemsIsDepth(e.value.items, room - 1); }
      } else {
        MembersAreClean(t, room - 1, node.members);
        DigestsAreClean(t, room - 1, DigestsOf(node.members));
        var e := Expand(t, room, node);
        if e.Some? { ShallowIsDepth(e.value.value.members, room - 1); }
      }
    }
  }

  lemma {:induction false} MembersAreClean(t: Table, room: nat, ms: seq<Member>)
    ensures var e := ExpandMembers(t, room, ms); e.Some? ==> CleanMembers(e.value.members, room)
    decreases room, 2, |ms|
  {
    if ms != [] {
      ExpandIsClean(t, room, ms[0].val);
      MembersAreClean(t, room, ms[1..]);
    }
  }

  lemma {:induction false} DigestsAreClean(t: Table, room: nat, digests: Option<seq<string>>)
    ensures var e := ExpandDigests(t, room, digests); e.Some? ==> CleanMembers(e.value.members, room)
    decreases room, 3, match digests case None => 0 case Some(ds) => |ds|
  {
    if digests.Some? && digests.value != [] {
      var d := digests.value[0];
      if d in t && WellNamed(t[d]) { ExpandIsClean(t, room, t[d][2]); }
      DigestsAreClean(t, room, Some(digests.value[1..]));
    }
  }

  lemma {:induction false} ItemsAreClean(t: Table, room: nat, xs: seq<Json>)
    ensures var e := ExpandItems(t, room, xs); e.Some? ==> CleanItems(e.value.items, room)
    decreases room, 3, |xs|
  {
    if xs != [] {
      var x := xs[0];
      if !IsPlaceholder(x) {
        ExpandIsClean(t, room, x);
      } else if x.members[0].val.Str? && x.members[0].val.s in t && |t[x.members[0].val.s]| == 2 {
        ExpandIsClean(t, room, t[x.members[0].val.s][1]);
      }
      ItemsAreClean(t, room, xs[1..]);
    }
  }

  // ------------------------------------------------------------------ the depth bound

  ghost predicate Shallow(ms: seq<Member>, room: nat) {
    forall i :: 0 <= i < |ms| ==> Depth(ms[i].val) <= room
  }

  ghost predicate ShallowItems(xs: seq<Json>, room: nat) {
    forall i :: 0 <= i < |xs| ==> Depth(xs[i]) <= room
  }

  lemma ShallowIsDepth(ms: seq<Member>, room: nat)
    ensures Shallow(ms, room) <==> MembersDepth(ms) <= room
  {
    if ms != [] {
      ShallowIsDepth(ms[1..], room);
      ShallowConcat([ms[0]], ms[1..], room);
      assert [ms[0]] + ms[1..] == ms;
      assert Shallow([ms[0]], room) <==> Depth([ms[0]][0].val) <= room;
    }
  }

  lemma ShallowItemsIsDepth(xs: seq<Json>, room: nat)
    ensures ShallowItems(xs, room) <==> ItemsDepth(xs) <= room
  {
    if xs != [] {
      ShallowItemsIsDepth(xs[1..], room);
      ShallowItemsConcat([xs[0]], xs[1..], room);
      assert [xs[0]] + xs[1..] == xs;
      assert ShallowItems([xs[0]], room) <==> Depth([xs[0]][0]) <= room;
    }
  }

  lemma ShallowConcat(a: seq<Member>, b: seq<Member>, room: nat)
    ensures Shallow(a + b, room) <==> Shallow(a, room) && Shallow(b, room)
  {
    if Shallow(a + b, room) {
      forall i | 0 <= i < |a| ensures Depth(a[i].val) <= room { assert (a + b)[i] == a[i]; }
      forall i | 0 <= i < |b| ensures Depth(b[i].val) <= room { assert (a + b)[|a| + i] == b[i]; }
    }
  }

  lemma ShallowItemsConcat(a: seq<Json>, b: seq<Json>, room: nat)
    ensures ShallowItems(a + b, room) <==> ShallowItems(a, room) && ShallowItems(b, room)
  {
    if ShallowItems(a + b, room) {
      forall i | 0 <= i < |a| ensures Depth(a[i]) <= room { assert (a + b)[i] == a[i]; }
      forall i | 0 <= i < |b| ensures Depth(b[i]) <= room { assert (a + b)[|a| + i] == b[i]; }
    }
  }

  /** `e` is `f` cut at a bound: there exactly when `f` is and fits. */
  ghost predicate CutClaims(e: Option<Claims>, f: Option<Claims>, room: nat) {
    (e.Some? <==> f.Some? && Shallow(f.value.members, room)) && (e.Some? ==> e == f)
  }

  ghost predicate CutElements(e: Option<Elements>, f: Option<Elements>, room: nat) {
    (e.Some? <==> f.Some? && ShallowItems(f.value.items, room)) && (e.Some? ==> e == f)
  }

  /** The bound is a bound on the nesting of the result and nothing else: under any two bounds the expansion is the
      same one, and it exists under the smaller exactly when it exists under the larger and fits. */
  lemma {:induction false} BoundIsDepth(t: Table, low: nat, high: nat, node: Json)
    requires low <= high
    ensures var e, f := Expand(t, low, node), Expand(t, high, node);
            (e.Some? <==> f.Some? && Depth(f.value.value) <= low) && (e.Some? ==> e == f)
    decreases low, 1, 0
  {
    if IsContainer(node) && low > 0 {
      if node.Arr? {
        BoundOnItems(t, low - 1, high - 1, node.items);
        var f := ExpandItems(t, high - 1, node.items);
        if f.Some? { ShallowItemsIsDepth(f.value.items, low - 1); }
      } else {
        BoundOnMembers(t, low - 1, high - 1, node.members);
        BoundOnDigests(t, low - 1, high - 1, DigestsOf(node.members));
        AssembleCut(ExpandMembers(t, low - 1, node.members), ExpandMembers(t, high - 1, node.members),
                    ExpandDigests(t, low - 1, DigestsOf(node.members)), ExpandDigests(t, high - 1, DigestsOf(node.members)),
                    low);
      }
    }
  }

  lemma AssembleCut(p: Option<Claims>, q: Option<Claims>, u: Option<Claims>, v: Option<Claims>, low: nat)
    requires low > 0 && CutClaims(p, q, low - 1) && CutClaims(u, v, low - 1)
    ensures var e, f := Assemble(p, u), Assemble(q, v);
            (e.Some? <==> f.Some? && Depth(f.value.value) <= low) && (e.Some? ==> e == f)
  {
    if q.Some? && v.Some? {
      ShallowConcat(q.value.members, v.value.members, low - 1);
      ShallowIsDepth(q.value.members + v.value.members, low - 1);
    }
  }

  lemma CutConcat(a: Option<Claims>, b: Option<Claims>, a': Option<Claims>, b': Option<Claims>, room: nat)
    requires CutClaims(a, a', room) && CutClaims(b, b', room)
    ensures a.Some? && b.Some? <==> a'.Some? && b'.Some? && Shallow(a'.value.members + b'.value.members, room)
  {
    if a'.Some? && b'.Some? { ShallowConcat(a'.value.members, b'.value.members, room); }
  }

  lemma {:induction false} BoundOnMember(t: Table, low: nat, high: nat, m: Member)
    requires low <= high
    ensures CutClaims(ExpandMember(t, low, m), ExpandMember(t, high, m), low)
    decreases low, 2, 0
  {
    BoundIsDepth(t, low, high, m.val);
    var a := ExpandMember(t, high, m);
    if a.Some? { ShallowIsDepth(a.value.members, low); }
  }

  lemma {:induction false} BoundOnMembers(t: Table, low: nat, high: nat, ms: seq<Member>)
    requires low <= high
    ensures CutClaims(ExpandMembers(t, low, ms), ExpandMembers(t, high, ms), low)
    decreases low, 2, |ms|
  {
    if ms != [] {
      BoundOnMember(t, low, high, ms[0]);
      BoundOnMembers(t, low, high, ms[1..]);
      CutConcat(ExpandMember(t, low, ms[0]), ExpandMembers(t, low, ms[1..]),
                ExpandMember(t, high, ms[0]), ExpandMembers(t, high, ms[1..]), low);
    }
  }

  lemma {:induction false} BoundOnDigest(t: Table, low: nat, high: nat, d: string)
    requires low <= high
    ensures CutClaims(ExpandDigest(t, low, d), ExpandDigest(t, high, d), low)
    decreases low, 2, 0
  {
    if d in t && WellNamed(t[d]) { BoundIsDepth(t, low, high, t[d][2]); }
    var a := ExpandDigest(t, high, d);
    if a.Some? { ShallowIsDepth(a.value.members, low); }
  }

  lemma {:induction false} BoundOnDigests(t: Table, low: nat, high: nat, digests: Option<seq<string>>)
    requires low <= high
    ensures CutClaims(ExpandDigests(t, low, digests), ExpandDigests(t, high, digests), low)
    decreases low, 3, match digests case None => 0 case Some(ds) => |ds|
  {
    if digests.Some? && digests.value != [] {
      var d, tail := digests.value[0], Some(digests.value[1..]);
      BoundOnDigest(t, low, high, d);
      BoundOnDigests(t, low, high, tail);
      CutConcat(ExpandDigest(t, low, d), ExpandDigests(t, low, tail),
                ExpandDigest(t, high, d), ExpandDigests(t, high, tail), low);
    }
  }

  lemma {:induction false} BoundOnItem(t: Table, low: nat, high: nat, x: Json)
    requires low <= high
    ensures CutElements(ExpandItem(t, low, x), ExpandItem(t, high, x), low)
    decreases low, 2, 0
  {
    if !IsPlaceholder(x) {
      BoundIsDepth(t, low, high, x);
    } else if x.members[0].val.Str? && x.members[0].val.s in t && |t[x.members[0].val.s]| == 2 {
      BoundIsDepth(t, low, high, t[x.members[0].val.s][1]);
    }
    var a := ExpandItem(t, high, x);
    if a.Some? { ShallowItemsIsDepth(a.value.items, low); }
  }

  lemma {:induction false} BoundOnItems(t: Table, low: nat, high: nat, xs: seq<Json>)
    requires low <= high
    ensures CutElements(ExpandItems(t, low, xs), ExpandItems(t, high, xs), low)
    decreases low, 3, |xs|
  {
    if xs != [] {
      var a, b := ExpandItem(t, high, xs[0]), ExpandItems(t, high, xs[1..]);
      BoundOnItem(t, low, high, xs[0]);
      BoundOnItems(t, low, high, xs[1..]);
      if a.Some? && b.Some? { ShallowItemsConcat(a.value.items, b.value.items, low); }
    }
  }

  /** A successful resolution: a clean value, every disclosure expanded exactly once, and the hidden digests of the
      census are the digests met beyond the disclosures supplied. */
  lemma ResolutionGuarantees(c: Codec, payload: seq<Member>, ds: seq<string>)
    requires Valid(Obj(payload)) && ParsesStrictly(c, ds) && Resolve(c, payload, ds).Ok?
    ensures var (v, led) := Resolve(c, payload, ds).value;
            && Clean(v, 512)
            && NoDuplicates(led.encountered)
            && (forall i :: 0 <= i < |ds| ==> multiset(led.encountered)[c.digest(ds[i])] == 1)
            && |Elems(led.encountered) - led.used| == |led.encountered| - |ds|
  {
    var t, e := ResolveIsTheRule(c, payload, ds);
    ExpandIsClean(t, 512, Obj(payload));
    var met := e.value.met;
    forall i | 0 <= i < |ds| ensures multiset(met)[c.digest(ds[i])] == 1 {
      var d := c.digest(ds[i]);
      assert d in t.Keys && d in met;
      OnceInMultiset(met, d);
    }
    ElemsSize(met);
    ElemsSize(Digests(c, ds));
    DifferenceSize(Elems(met), t.Keys);
  }

  lemma OnceInMultiset(s: seq<string>, x: string)
    requires NoDuplicates(s) && x in s
    ensures multiset(s)[x] == 1
  {
    var i :| 0 <= i < |s| && s[i] == x;
    assert s == s[..i] + [x] + s[i + 1..];
    assert x !in s[..i] && x !in s[i + 1..];
  }

  lemma ElemsSize(s: seq<string>)
    requires NoDuplicates(s)
    ensures |Elems(s)| == |s|
  {
    if s != [] {
      assert NoDuplicates(s[1..]);
      ElemsSize(s[1..]);
      assert Elems(s) == {s[0]} + Elems(s[1..]);
      assert s[0] !in s[1..];
    }
  }

  lemma DifferenceSize(a: set<string>, b: set<string>)
    requires b <= a
    ensures |a - b| == |a| - |b|
  {
    assert a == b + (a - b);
  }
}
