/** Public keys as JSON objects: what makes two of them the same key. */
module Jwk {
  import opened Values
  import opened CanonicalJson

  const KTY: string := "kty"
  const CRV: string := "crv"
  const X: string := "x"
  const Y: string := "y"
  const KEY_FIELDS: seq<string> := [KTY, CRV, X, Y]

  /** Two objects equal on kty, crv, x and y. */
  predicate SameKey(a: Json, b: Json) {
    a.Obj? && b.Obj? &&
    forall i :: 0 <= i < |KEY_FIELDS| ==> CanonOf(Field(a, KEY_FIELDS[i])) == CanonOf(Field(b, KEY_FIELDS[i]))
  }

  /** The same, member by member, as the laws about keys state it. */
  ghost predicate OneKey(a: Json, b: Json) {
    && a.Obj? && b.Obj?
    && CanonOf(Lookup(a.members, "kty")) == CanonOf(Lookup(b.members, "kty"))
    && CanonOf(Lookup(a.members, "crv")) == CanonOf(Lookup(b.members, "crv"))
    && CanonOf(Lookup(a.members, "x")) == CanonOf(Lookup(b.members, "x"))
    && CanonOf(Lookup(a.members, "y")) == CanonOf(Lookup(b.members, "y"))
  }

  lemma SameKeyIsOneKey(a: Json, b: Json)
    ensures SameKey(a, b) <==> OneKey(a, b)
  {
    hide Canon;
    if SameKey(a, b) {
      assert KEY_FIELDS[0] == "kty" && KEY_FIELDS[1] == "crv" && KEY_FIELDS[2] == "x" && KEY_FIELDS[3] == "y";
    }
  }
}
