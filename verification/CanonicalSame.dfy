/** Values that are equal up to the order of keys: every field of one reads like the field of the other. */
module CanonicalSame {
  import opened Values
  import opened CanonicalJson
  import opened CanonicalLaws

  /** What the strict reader can produce. */
  ghost predicate Strict(j: Json) { Valid(j) && InProfile(j) }

  /** Two values the strict reader gives, equal up to the order of keys. */
  ghost predicate Same(a: Json, b: Json) { Strict(a) && Strict(b) && Norm(a) == Norm(b) }

  lemma CanonSame(a: Json, b: Json)
    requires Strict(a) && Strict(b)
    ensures Canon(a) == Canon(b) <==> Same(a, b)
  {
    CanonIsInjective(a, b);
  }

  lemma SameField(a: Json, b: Json, k: string)
    requires Same(a, b)
    ensures Field(a, k).Some? <==> Field(b, k).Some?
    ensures Field(a, k).Some? ==> Same(Field(a, k).value, Field(b, k).value)
  {
    hide Canon, Print, InProfile, Lookup;
    if a.Obj? && b.Obj? {
      NormLookup(a.members, k);
      NormLookup(b.members, k);
      if Field(a, k).Some? {
        FieldIsStrict(a, k);
        FieldIsStrict(b, k);
      }
    }
  }

  lemma FieldIsStrict(a: Json, k: string)
    requires Strict(a) && Field(a, k).Some?
    ensures Strict(Field(a, k).value)
  {
    var i :| 0 <= i < |a.members| && a.members[i] == Member(k, Field(a, k).value);
  }

  lemma SameItems(a: Json, b: Json, i: nat)
    requires Same(a, b) && a.Arr? && b.Arr? && i < |a.items|
    ensures |a.items| == |b.items| && Same(a.items[i], b.items[i])
  {
    NormItemsAt(a.items, i);
    assert |NormItems(a.items)| == |NormItems(b.items)|;
    NormItemsAt(b.items, i);
  }

  lemma SameKind(a: Json, b: Json)
    requires Same(a, b)
    ensures a.Arr? <==> b.Arr?
    ensures a.Obj? <==> b.Obj?
    ensures !IsContainer(a) || !IsContainer(b) ==> a == b
    ensures a.Arr? ==> |a.items| == |b.items|
  {
    hide Valid, InProfile;
    assert a.Arr? ==> |NormItems(a.items)| == |a.items|;
    assert b.Arr? ==> |NormItems(b.items)| == |b.items|;
  }

  /** Everything the rules read in a field is the same. */
  lemma SameReads(a: Json, b: Json, k: string)
    requires Same(a, b)
    ensures (Field(a, k).Some? <==> Field(b, k).Some?) && StrAt(a, k) == StrAt(b, k) && IntAt(a, k) == IntAt(b, k)
    ensures |ListAt(a, k)| == |ListAt(b, k)|
    ensures forall i :: 0 <= i < |ListAt(a, k)| ==> Same(ListAt(a, k)[i], ListAt(b, k)[i])
  {
    hide Same, Strict, Lookup;
    SameField(a, b, k);
    if Field(a, k).Some? {
      var x, y := Field(a, k).value, Field(b, k).value;
      SameKind(x, y);
      if x.Arr? {
        forall i | 0 <= i < |x.items| ensures Same(x.items[i], y.items[i]) { SameItems(x, y, i); }
      }
    }
  }

  lemma SameSym(a: Json, b: Json)
    requires Same(a, b)
    ensures Same(b, a)
  {}

  lemma CanonSameForward(a: Json, b: Json)
    requires Same(a, b)
    ensures Canon(a) == Canon(b)
  {}
}
