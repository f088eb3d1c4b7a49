/** Canonical forms forget the order of object keys and nothing else. */
module CanonicalOrder {
  import opened Values
  import opened CanonicalJson
  import opened CanonicalLaws
  import opened Rearrangements
  import opened ResolverOrder

  // ------------------------------------------------------------------ code point order

  lemma {:induction false} BelowIsTotal(a: string, b: string)
    ensures Below(a, b) || a == b || Below(b, a)
    ensures !(Below(a, b) && Below(b, a)) && !Below(a, a)
    decreases |a|
  {
    if a != [] && b != [] {
      BelowIsTotal(a[1..], b[1..]);
      BelowIsTotal(a[1..], a[1..]);
      assert a == [a[0]] + a[1..] && b == [b[0]] + b[1..];
    } else if a != [] {
      BelowIsTotal(a[1..], a[1..]);
    }
  }

  lemma {:induction false} BelowIsTransitive(a: string, b: string, c: string)
    requires Below(a, b) && Below(b, c)
    ensures Below(a, c)
    decreases |a|
  {
    if a != [] && a[0] == b[0] == c[0] { BelowIsTransitive(a[1..], b[1..], c[1..]); }
  }

  // ------------------------------------------------------------------ sorting

  ghost predicate Sorted(ms: seq<Member>) { forall i, j :: 0 <= i < j < |ms| ==> Below(ms[i].key, ms[j].key) }

  lemma {:induction false} InsertSorts(m: Member, ms: seq<Member>)
    requires Sorted(ms) && !Has(ms, m.key)
    ensures Sorted(Insert(m, ms))
    decreases |ms|
  {
    hide Below;
    if ms != [] {
      BelowIsTotal(m.key, ms[0].key);
      assert ms[0].key != m.key;
      if Below(m.key, ms[0].key) {
        forall j | 0 < j < |ms| ensures Below(m.key, ms[j].key) { BelowIsTransitive(m.key, ms[0].key, ms[j].key); }
      } else {
        NotInTail(ms, m.key);
        InsertSorts(m, ms[1..]);
        var rest := Insert(m, ms[1..]);
        forall j | 0 <= j < |rest| ensures Below(ms[0].key, rest[j].key) {
          assert rest[j] in multiset(rest);
          assert rest[j] in multiset(ms[1..]) || rest[j] == m;
        }
      }
    }
  }

  lemma NotInTail(ms: seq<Member>, k: string)
    requires ms != [] && !Has(ms, k)
    ensures !Has(ms[1..], k)
  {
    forall i | 0 <= i < |ms| - 1 ensures ms[1..][i].key != k { assert ms[i + 1].key != k; }
  }

  lemma TailIsUnique(ms: seq<Member>)
    requires ms != [] && UniqueKeys(ms)
    ensures UniqueKeys(ms[1..]) && !Has(ms[1..], ms[0].key)
  {
    forall p, q | 0 <= p < q < |ms| - 1 ensures KeySeq(ms[1..])[p] != KeySeq(ms[1..])[q] {
      assert KeySeq(ms)[p + 1] != KeySeq(ms)[q + 1];
    }
    forall i | 0 <= i < |ms| - 1 ensures ms[1..][i].key != ms[0].key { assert KeySeq(ms)[0] != KeySeq(ms)[i + 1]; }
  }

  lemma {:induction false} SortSorts(ms: seq<Member>)
    requires UniqueKeys(ms)
    ensures Sorted(Sort(ms))
    decreases |ms|
  {
    if ms != [] {
      TailIsUnique(ms);
      SortSorts(ms[1..]);
      var rest := Sort(ms[1..]);
      forall i | 0 <= i < |rest| ensures rest[i].key != ms[0].key {
        assert rest[i] in multiset(rest);
        var j :| 0 <= j < |ms[1..]| && ms[1..][j] == rest[i];
      }
      InsertSorts(ms[0], rest);
    }
  }

  /** The first member of a sorted object has the least key. */
  lemma LeastIsFirst(a: seq<Member>, b: seq<Member>)
    requires Sorted(a) && Sorted(b) && multiset(a) == multiset(b) && a != [] && b != []
    ensures a[0] == b[0]
  {
    hide Below;
    assert a[0] in multiset(b) && b[0] in multiset(a);
    var j :| 0 <= j < |b| && b[j] == a[0];
    var i :| 0 <= i < |a| && a[i] == b[0];
    BelowIsTotal(a[0].key, b[0].key);
    assert i > 0 ==> Below(a[0].key, b[0].key);
    assert j > 0 ==> Below(b[0].key, a[0].key);
  }

  lemma SortedTail(a: seq<Member>)
    requires Sorted(a) && a != []
    ensures Sorted(a[1..]) && a == [a[0]] + a[1..]
  {
    hide Below;
  }

  /** A sorted object is determined by its members. */
  lemma {:induction false} SortedIsUnique(a: seq<Member>, b: seq<Member>)
    requires Sorted(a) && Sorted(b) && multiset(a) == multiset(b)
    ensures a == b
    decreases |a|
  {
    hide Below, Sorted;
    if a == [] {
      EmptyMultiset(b);
    } else if b == [] {
      EmptyMultiset(a);
    } else {
      LeastIsFirst(a, b);
      TakenOut(a, b, 0);
      assert Without(b, 0) == b[1..];
      SortedTail(a);
      SortedTail(b);
      SortedIsUnique(a[1..], b[1..]);
    }
  }

  lemma SortForgetsOrder(ms: seq<Member>, ns: seq<Member>)
    requires UniqueKeys(ms) && multiset(ms) == multiset(ns)
    ensures Sort(ms) == Sort(ns)
  {
    KeysOfRearranged(ms, ns);
    SortSorts(ms);
    SortSorts(ns);
    SortedIsUnique(Sort(ms), Sort(ns));
  }

  // ------------------------------------------------------------------ the same value up to key order

  lemma {:induction false} AlikeNorms(a: Json, b: Json)
    requires Valid(a) && Valid(b) && Alike(false, a, b)
    ensures Norm(a) == Norm(b)
    decreases Size(a), 0
  {
    match (a, b) {
      case (Arr(xs), Arr(ys)) => AlikeItemsNorm(xs, ys);
      case (Obj(ms), Obj(ns)) =>
        ReorderedNorms(ms, ns);
        UniqueAfterNorm(ms);
        SortForgetsOrder(NormMembers(ms), NormMembers(ns));
      case _ =>
    }
  }

  lemma {:induction false} AlikeItemsNorm(xs: seq<Json>, ys: seq<Json>)
    requires AlikeItems(false, xs, ys)
    requires (forall i :: 0 <= i < |xs| ==> Valid(xs[i])) && forall i :: 0 <= i < |ys| ==> Valid(ys[i])
    ensures NormItems(xs) == NormItems(ys)
    decreases ItemsSize(xs), 1
  {
    hide Norm, Valid, Alike;
    if xs != [] {
      AlikeNorms(xs[0], ys[0]);
      AlikeItemsNorm(xs[1..], ys[1..]);
    }
  }

  lemma {:induction false} NormWithout(ns: seq<Member>, j: nat)
    requires j < |ns|
    ensures NormMembers(Without(ns, j)) == Without(NormMembers(ns), j)
    ensures multiset(NormMembers(ns)) == multiset(NormMembers(Without(ns, j))) + multiset{Member(ns[j].key, Norm(ns[j].val))}
  {
    hide Norm;
    var ws, vs := NormMembers(Without(ns, j)), Without(NormMembers(ns), j);
    forall i | 0 <= i < |ns| - 1 ensures ws[i] == vs[i] {
      NormMembersAt(Without(ns, j), i);
      NormMembersAt(ns, if i < j then i else i + 1);
    }
    assert ws == vs;
    NormMembersAt(ns, j);
    MultisetWithout(NormMembers(ns), j);
  }

  lemma WithoutIsValid(ns: seq<Member>, j: nat)
    requires j < |ns| && forall i :: 0 <= i < |ns| ==> Valid(ns[i].val)
    ensures forall i :: 0 <= i < |Without(ns, j)| ==> Valid(Without(ns, j)[i].val)
  {}

  lemma {:induction false} ReorderedNorms(ms: seq<Member>, ns: seq<Member>)
    requires Reordered(false, ms, ns)
    requires (forall i :: 0 <= i < |ms| ==> Valid(ms[i].val)) && forall i :: 0 <= i < |ns| ==> Valid(ns[i].val)
    ensures multiset(NormMembers(ms)) == multiset(NormMembers(ns))
    decreases MembersSize(ms), 2
  {
    hide Norm, Valid, Alike;
    if ms != [] {
      var j :| 0 <= j < |ns| && AlikeMember(false, ms[0], ns[j]) && Reordered(false, ms[1..], Without(ns, j));
      AlikeNorms(ms[0].val, ns[j].val);
      WithoutIsValid(ns, j);
      ReorderedNorms(ms[1..], Without(ns, j));
      NormWithout(ns, j);
      NormMembersAt(ns, j);
      NormMembersAt(ms, 0);
      assert NormMembers(ms)[1..] == NormMembers(ms[1..]);
      PutBack(NormMembers(ms), NormMembers(ns), j);
    }
  }

  lemma {:induction false} NormsAlike(a: Json, b: Json)
    requires Norm(a) == Norm(b)
    ensures Alike(false, a, b)
    decreases Size(a), 0
  {
    match (a, b) {
      case (Arr(xs), Arr(ys)) => NormsAlikeItems(xs, ys);
      case (Obj(ms), Obj(ns)) => NormsReordered(ms, ns);
      case _ =>
    }
  }

  lemma {:induction false} NormsAlikeItems(xs: seq<Json>, ys: seq<Json>)
    requires NormItems(xs) == NormItems(ys)
    ensures AlikeItems(false, xs, ys)
    decreases ItemsSize(xs), 1
  {
    hide Norm, Alike;
    assert |xs| == |NormItems(xs)| == |ys|;
    if xs != [] {
      assert NormItems(xs)[0] == Norm(xs[0]) && NormItems(ys)[0] == Norm(ys[0]);
      assert NormItems(xs)[1..] == NormItems(xs[1..]) && NormItems(ys)[1..] == NormItems(ys[1..]);
      NormsAlike(xs[0], ys[0]);
      NormsAlikeItems(xs[1..], ys[1..]);
    }
  }

  lemma {:induction false} NormsReordered(ms: seq<Member>, ns: seq<Member>)
    requires multiset(NormMembers(ms)) == multiset(NormMembers(ns))
    ensures Reordered(false, ms, ns)
    decreases MembersSize(ms), 2
  {
    hide Norm, Alike;
    if ms == [] {
      EmptyMultiset(NormMembers(ns));
    } else {
      var j := Occurrence(NormMembers(ms), NormMembers(ns));
      NormMembersAt(ms, 0);
      NormMembersAt(ns, j);
      NormsAlike(ms[0].val, ns[j].val);
      NormWithout(ns, j);
      TakenOut(NormMembers(ms), NormMembers(ns), j);
      assert NormMembers(ms)[1..] == NormMembers(ms[1..]);
      NormsReordered(ms[1..], Without(ns, j));
    }
  }

  /** Two values have one canonical form exactly when they are the same JSON value up to the order of keys. */
  lemma CanonIsUpToKeyOrder(a: Json, b: Json)
    requires Valid(a) && Valid(b) && InProfile(a) && InProfile(b)
    ensures Canon(a) == Canon(b) <==> Alike(false, a, b)
  {
    CanonIsInjective(a, b);
    if Norm(a) == Norm(b) { NormsAlike(a, b); }
    if Alike(false, a, b) { AlikeNorms(a, b); }
  }

  // ------------------------------------------------------------------ normal forms are fixed

  lemma {:induction false} NormTwice(j: Json)
    requires Valid(j)
    ensures Norm(Norm(j)) == Norm(j)
    decreases j, 0
  {
    match j {
      case Arr(xs) =>
        var ns := NormItems(xs);
        forall i | 0 <= i < |ns| ensures NormItems(ns)[i] == ns[i] {
          NormItemsAt(xs, i);
          NormItemsAt(ns, i);
          NormTwice(xs[i]);
        }
        assert NormItems(ns) == ns;
      case Obj(ms) => NormTwiceObject(ms);
      case _ =>
    }
  }

  lemma {:induction false} NormTwiceObject(ms: seq<Member>)
    requires Valid(Obj(ms))
    ensures Norm(Norm(Obj(ms))) == Norm(Obj(ms))
    decreases ms, 1
  {
    hide Sort, Valid;
    var ns := Sort(NormMembers(ms));
    assert UniqueKeys(ms) && forall i :: 0 <= i < |ms| ==> Valid(ms[i].val) by { ValidMembers(ms); }
    UniqueAfterNorm(ms);
    forall k | 0 <= k < |ns| ensures NormMembers(ns)[k] == ns[k] {
      var i := SortedMember(ms, ns[k]);
      NormMembersAt(ns, k);
      NormTwice(ms[i].val);
    }
    assert NormMembers(ns) == ns;
    SortSorts(NormMembers(ms));
    SortSorts(ns);
    SortedIsUnique(Sort(ns), ns);
  }

  lemma ValidMembers(ms: seq<Member>)
    requires Valid(Obj(ms))
    ensures UniqueKeys(ms) && forall i :: 0 <= i < |ms| ==> Valid(ms[i].val)
  {}

  /** A value and what the strict reader gives back for it differ in the order of keys only. */
  lemma ReadBackIsAlike(j: Json)
    requires Valid(j)
    ensures Valid(Norm(j)) && (InProfile(j) <==> InProfile(Norm(j))) && Alike(false, j, Norm(j))
  {
    NormIsValid(j);
    NormTwice(j);
    NormsAlike(j, Norm(j));
  }
}
