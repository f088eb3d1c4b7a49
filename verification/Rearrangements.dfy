/** Sequences in another order. */
module Rearrangements {
  import opened Values

  function Without<T>(s: seq<T>, j: nat): seq<T>
    requires j < |s|
  {
    s[..j] + s[j + 1..]
  }

  lemma WithoutConcat<T>(a: seq<T>, b: seq<T>, j: nat)
    requires j < |a|
    ensures Without(a + b, j) == Without(a, j) + b && (a + b)[j] == a[j]
    ensures (a + b)[0] == a[0] && (a + b)[1..] == a[1..] + b
  {}

  /** An occurrence of the first element of `s` in a rearrangement of `s`, and what is left without it. */
  lemma Occurrence<T>(s: seq<T>, r: seq<T>) returns (j: nat)
    requires multiset(s) == multiset(r) && s != []
    ensures j < |r| && r[j] == s[0] && multiset(s[1..]) == multiset(Without(r, j))
  {
    assert s[0] in multiset(r);
    j :| 0 <= j < |r| && r[j] == s[0];
    MultisetWithout(r, j);
    assert s == [s[0]] + s[1..];
    assert multiset(s[1..]) == multiset(s) - multiset{s[0]} == multiset(Without(r, j));
  }

  /** Taking the same element out of two rearrangements leaves rearrangements. */
  lemma TakenOut<T>(s: seq<T>, r: seq<T>, j: nat)
    requires multiset(s) == multiset(r) && s != [] && j < |r| && r[j] == s[0]
    ensures multiset(s[1..]) == multiset(Without(r, j)) && |s| == |r|
  {
    MultisetWithout(r, j);
    MultisetWithout(s, 0);
    assert Without(s, 0) == s[1..];
    forall x ensures multiset(s[1..])[x] == multiset(Without(r, j))[x] {
      assert multiset(s)[x] == multiset(r)[x];
    }
    assert |multiset(s)| == |s| && |multiset(r)| == |r|;
  }

  lemma PutBack<T>(s: seq<T>, r: seq<T>, j: nat)
    requires s != [] && j < |r| && r[j] == s[0] && multiset(s[1..]) == multiset(Without(r, j))
    ensures multiset(s) == multiset(r)
  {
    MultisetWithout(r, j);
    MultisetWithout(s, 0);
    assert Without(s, 0) == s[1..];
  }

  lemma EmptyMultiset<T>(r: seq<T>)
    requires multiset(r) == multiset{}
    ensures r == []
  {
    assert |multiset(r)| == |r|;
  }

  lemma MultisetWithout<T>(s: seq<T>, j: nat)
    requires j < |s|
    ensures multiset(s) == multiset(Without(s, j)) + multiset{s[j]}
  {
    assert s == s[..j] + [s[j]] + s[j + 1..];
  }

  lemma NoDuplicatesIsMultiset<T>(s: seq<T>)
    ensures NoDuplicates(s) <==> forall x :: multiset(s)[x] <= 1
  {
    if s != [] {
      NoDuplicatesIsMultiset(s[1..]);
      assert s == [s[0]] + s[1..];
      assert multiset(s) == multiset{s[0]} + multiset(s[1..]);
      if NoDuplicates(s) {
        assert NoDuplicates(s[1..]) by {
          forall i, j | 0 <= i < j < |s| - 1 ensures s[1..][i] != s[1..][j] { assert s[i + 1] != s[j + 1]; }
        }
        assert s[0] !in s[1..];
      }
      if forall x :: multiset(s)[x] <= 1 {
        assert multiset(s)[s[0]] <= 1;
        assert s[0] !in multiset(s[1..]);
        forall x ensures multiset(s[1..])[x] <= 1 { assert multiset(s)[x] <= 1; }
        forall i, j | 0 <= i < j < |s| ensures s[i] != s[j] {
          if i == 0 { assert s[j] == s[1..][j - 1]; } else { assert s[1..][i - 1] != s[1..][j - 1]; }
        }
      }
    }
  }

  lemma KeysWithout(ns: seq<Member>, j: nat)
    requires j < |ns|
    ensures multiset(KeySeq(ns)) == multiset(KeySeq(Without(ns, j))) + multiset{ns[j].key}
  {
    assert KeySeq(Without(ns, j)) == Without(KeySeq(ns), j);
    MultisetWithout(KeySeq(ns), j);
  }

  /** The same members in another order have the same keys. */
  lemma {:induction false} KeysOfRearranged(ms: seq<Member>, ns: seq<Member>)
    requires multiset(ms) == multiset(ns)
    ensures multiset(KeySeq(ms)) == multiset(KeySeq(ns))
    ensures UniqueKeys(ms) <==> UniqueKeys(ns)
    decreases |ms|
  {
    hide NoDuplicates;
    if ms == [] {
      EmptyMultiset(ns);
    } else {
      var j := Occurrence(ms, ns);
      KeysOfRearranged(ms[1..], Without(ns, j));
      KeysWithout(ns, j);
      KeysWithout(ms, 0);
      assert Without(ms, 0) == ms[1..];
    }
    NoDuplicatesIsMultiset(KeySeq(ms));
    NoDuplicatesIsMultiset(KeySeq(ns));
  }
}
