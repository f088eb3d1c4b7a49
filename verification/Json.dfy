/** JSON values as the evidence tool holds them after a strict parse: integers only, and an object is a
    Python dict, that is, a list of members in insertion order with pairwise different keys. */
module Values {

  datatype Option<+T> = None | Some(value: T)

  datatype Json =
    | Null
    | Bool(b: bool)
    | Num(n: int)
    | Str(s: string)
    | Arr(items: seq<Json>)
    | Obj(members: seq<Member>)

  datatype Member = Member(key: string, val: Json)

  predicate IsContainer(j: Json) { j.Arr? || j.Obj? }

  predicate Has(ms: seq<Member>, k: string) {
    exists i :: 0 <= i < |ms| && ms[i].key == k
  }

  /** dict.get: the value of the first member named `k`. */
  function Lookup(ms: seq<Member>, k: string): (r: Option<Json>)
    ensures r.Some? <==> Has(ms, k)
    ensures r.Some? ==> Member(k, r.value) in ms
  {
    if ms == [] then None
    else if ms[0].key == k then Some(ms[0].val)
    else
      var r := Lookup(ms[1..], k);
      assert r.Some? ==> Has(ms, k) by {
        if r.Some? {
          var i :| 0 <= i < |ms[1..]| && ms[1..][i].key == k;
          assert ms[i + 1].key == k;
        }
      }
      assert Has(ms, k) ==> Has(ms[1..], k) by {
        if Has(ms, k) {
          var i :| 0 <= i < |ms| && ms[i].key == k;
          assert ms[1..][i - 1].key == k;
        }
      }
      r
  }

  // The fields of an object, read with a default for what is missing or of another type.

  function Field(c: Json, k: string): (v: Option<Json>)
    ensures v.Some? <==> c.Obj? && Has(c.members, k)
    ensures v.Some? ==> Member(k, v.value) in c.members
  {
    if c.Obj? then Lookup(c.members, k) else None
  }

  function IntAt(c: Json, k: string): (n: int)
    ensures Field(c, k).Some? && Field(c, k).value.Num? ==> Field(c, k) == Some(Num(n))
  {
    match Field(c, k) case Some(Num(n)) => n case _ => 0
  }

  function StrAt(c: Json, k: string): (s: string)
    ensures Field(c, k).Some? && Field(c, k).value.Str? ==> Field(c, k) == Some(Str(s))
  {
    match Field(c, k) case Some(Str(s)) => s case _ => ""
  }

  function ListAt(c: Json, k: string): (xs: seq<Json>)
    ensures Field(c, k).Some? && Field(c, k).value.Arr? ==> Field(c, k) == Some(Arr(xs))
  {
    match Field(c, k) case Some(Arr(xs)) => xs case _ => []
  }

  /** dict assignment: the value of an existing key is replaced in place, a new key goes last. */
  function Put(ms: seq<Member>, k: string, v: Json): (r: seq<Member>)
    ensures !Has(ms, k) ==> r == ms + [Member(k, v)]
  {
    if ms == [] then [Member(k, v)]
    else if ms[0].key == k then
      assert Has(ms, k);
      [Member(k, v)] + ms[1..]
    else
      assert Has(ms[1..], k) ==> Has(ms, k) by {
        if Has(ms[1..], k) {
          var i :| 0 <= i < |ms[1..]| && ms[1..][i].key == k;
          assert ms[i + 1].key == k;
        }
      }
      [ms[0]] + Put(ms[1..], k, v)
  }

  function KeySeq(ms: seq<Member>): (r: seq<string>)
    ensures |r| == |ms| && forall i :: 0 <= i < |ms| ==> r[i] == ms[i].key
  {
    seq(|ms|, i requires 0 <= i < |ms| => ms[i].key)
  }

  ghost predicate NoDuplicates<T>(s: seq<T>) {
    forall i, j :: 0 <= i < j < |s| ==> s[i] != s[j]
  }

  ghost predicate UniqueKeys(ms: seq<Member>) {
    NoDuplicates(KeySeq(ms))
  }

  /** A value a strict parse can produce: no object has two members with one key. */
  ghost predicate Valid(j: Json) {
    match j
    case Arr(xs) => forall i :: 0 <= i < |xs| ==> Valid(xs[i])
    case Obj(ms) => UniqueKeys(ms) && forall i :: 0 <= i < |ms| ==> Valid(ms[i].val)
    case _ => true
  }

  /** Nesting depth: the number of containers on the longest way from the root. */
  function Depth(j: Json): nat {
    match j
    case Arr(xs) => 1 + ItemsDepth(xs)
    case Obj(ms) => 1 + MembersDepth(ms)
    case _ => 0
  }

  function ItemsDepth(xs: seq<Json>): nat {
    if xs == [] then 0 else Max(Depth(xs[0]), ItemsDepth(xs[1..]))
  }

  function MembersDepth(ms: seq<Member>): nat {
    if ms == [] then 0 else Max(Depth(ms[0].val), MembersDepth(ms[1..]))
  }

  function Max(a: nat, b: nat): nat { if a < b then b else a }

  /** The number of JSON values inside `j`, itself included. */
  function Size(j: Json): (n: nat)
    ensures n >= 1
  {
    match j
    case Arr(xs) => 1 + ItemsSize(xs)
    case Obj(ms) => 1 + MembersSize(ms)
    case _ => 1
  }

  function ItemsSize(xs: seq<Json>): nat {
    if xs == [] then 0 else Size(xs[0]) + ItemsSize(xs[1..])
  }

  function MembersSize(ms: seq<Member>): nat {
    if ms == [] then 0 else Size(ms[0].val) + MembersSize(ms[1..])
  }
}
