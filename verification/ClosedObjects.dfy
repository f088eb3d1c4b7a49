/** Objects with an exhaustive list of keys: how they are written, and how they are checked. */
module ClosedObjects {
  import opened Values
  import opened CanonicalLaws
  import opened CanonicalSame

  datatype Kind = AString | ABool | AnObject | AList | SomeList | Strings | IsTrue | StringOrNull | BoolOrNull | Anything
    | OneOf(words: seq<string>)

  predicate IsOf(kind: Kind, v: Json) {
    match kind
    case AString => v.Str?
    case ABool => v.Bool?
    case AnObject => v.Obj?
    case AList => v.Arr?
    case SomeList => v.Arr? && v.items != []
    case Strings => v.Arr? && forall i :: 0 <= i < |v.items| ==> v.items[i].Str?
    case IsTrue => v == Bool(true)
    case StringOrNull => v.Null? || v.Str?
    case BoolOrNull => v.Null? || v.Bool?
    case Anything => true
    case OneOf(words) => v.Str? && v.s in words
  }

  datatype Key = Key(name: string, kind: Kind, required: bool)
  type Schema = seq<Key>

  predicate Knows(schema: Schema, k: string) { exists i :: 0 <= i < |schema| && schema[i].name == k }

  predicate KeyOk(obj: Json, key: Key) {
    match Field(obj, key.name) case None => !key.required case Some(v) => IsOf(key.kind, v)
  }

  /** No key outside the list. */
  predicate NoneUnknown(obj: Json, schema: Schema) {
    obj.Obj? ==> forall i :: 0 <= i < |obj.members| ==> Knows(schema, obj.members[i].key)
  }

  /** An object, no key outside the list, every value of its kind, no required key missing. */
  predicate Closed(obj: Json, schema: Schema) {
    obj.Obj? && NoneUnknown(obj, schema) && forall i :: 0 <= i < |schema| ==> KeyOk(obj, schema[i])
  }

  /** The object with these values, in the order of the list; None leaves a key out. */
  function Fill(schema: Schema, vals: seq<Option<Json>>): seq<Member>
    requires |schema| == |vals|
  {
    if schema == [] then []
    else (match vals[0] case None => [] case Some(v) => [Member(schema[0].name, v)]) + Fill(schema[1..], vals[1..])
  }

  ghost predicate Distinct(schema: Schema) { forall i, j :: 0 <= i < j < |schema| ==> schema[i].name != schema[j].name }

  // ------------------------------------------------------------------ the check reads fields only

  lemma {:induction false} UnknownIsByField(obj: Json, schema: Schema)
    requires obj.Obj?
    ensures NoneUnknown(obj, schema) <==> forall k :: Field(obj, k).Some? ==> Knows(schema, k)
  {
    hide Knows;
    if NoneUnknown(obj, schema) {
      forall k | Field(obj, k).Some? ensures Knows(schema, k) {
        var i :| 0 <= i < |obj.members| && obj.members[i].key == k;
      }
    }
    if forall k :: Field(obj, k).Some? ==> Knows(schema, k) {
      forall i | 0 <= i < |obj.members| ensures Knows(schema, obj.members[i].key) {
        assert Has(obj.members, obj.members[i].key);
        assert Field(obj, obj.members[i].key).Some?;
      }
    }
  }

  lemma IsOfSame(kind: Kind, a: Json, b: Json)
    requires Same(a, b)
    ensures IsOf(kind, a) <==> IsOf(kind, b)
  {
    SameKind(a, b);
    if a.Arr? {
      forall i | 0 <= i < |a.items| ensures a.items[i].Str? <==> b.items[i].Str? {
        SameItems(a, b, i);
        SameKind(a.items[i], b.items[i]);
      }
    }
  }

  lemma KeyOkSame(a: Json, b: Json, key: Key)
    requires Same(a, b)
    ensures KeyOk(a, key) <==> KeyOk(b, key)
  {
    hide Same, Field, IsOf;
    SameField(a, b, key.name);
    if Field(a, key.name).Some? { IsOfSame(key.kind, Field(a, key.name).value, Field(b, key.name).value); }
  }

  lemma NoneUnknownSame(a: Json, b: Json, schema: Schema)
    requires Same(a, b)
    ensures NoneUnknown(a, schema) <==> NoneUnknown(b, schema)
  {
    hide Same, Field, Knows;
    SameKind(a, b);
    if a.Obj? {
      UnknownIsByField(a, schema);
      UnknownIsByField(b, schema);
      forall k ensures Field(a, k).Some? <==> Field(b, k).Some? { SameField(a, b, k); }
    }
  }

  /** Two objects equal up to the order of keys are closed together. */
  lemma ClosedSame(a: Json, b: Json, schema: Schema)
    requires Same(a, b)
    ensures Closed(a, schema) <==> Closed(b, schema)
  {
    hide Same, KeyOk, NoneUnknown;
    SameKind(a, b);
    NoneUnknownSame(a, b, schema);
    forall i | 0 <= i < |schema| ensures KeyOk(a, schema[i]) <==> KeyOk(b, schema[i]) { KeyOkSame(a, b, schema[i]); }
  }

  // ------------------------------------------------------------------ what is written passes

  lemma {:induction false} FillHas(schema: Schema, vals: seq<Option<Json>>, k: string)
    requires |schema| == |vals|
    ensures Lookup(Fill(schema, vals), k).Some? <==> exists i :: 0 <= i < |schema| && schema[i].name == k && vals[i].Some?
    decreases |schema|
  {
    if schema != [] {
      FillHas(schema[1..], vals[1..], k);
      var ms, rest := Fill(schema, vals), Fill(schema[1..], vals[1..]);
      if vals[0].Some? { assert ms[1..] == rest; } else { assert ms == rest; }
      if i :| 0 <= i < |schema| && schema[i].name == k && vals[i].Some? {
        if i > 0 { assert schema[1..][i - 1].name == k && vals[1..][i - 1].Some?; }
      }
      if j :| 0 <= j < |schema[1..]| && schema[1..][j].name == k && vals[1..][j].Some? {
        assert schema[j + 1].name == k && vals[j + 1].Some?;
      }
    }
  }

  /** Each key of the list has the value given for it. */
  lemma {:induction false} FillReads(schema: Schema, vals: seq<Option<Json>>, i: nat)
    requires |schema| == |vals| && Distinct(schema) && i < |schema|
    ensures Lookup(Fill(schema, vals), schema[i].name) == vals[i]
    decreases |schema|
  {
    var ms, rest := Fill(schema, vals), Fill(schema[1..], vals[1..]);
    if vals[0].Some? { assert ms[1..] == rest; } else { assert ms == rest; }
    if i > 0 {
      assert schema[1..][i - 1] == schema[i] && vals[1..][i - 1] == vals[i];
      FillReads(schema[1..], vals[1..], i - 1);
    } else if vals[0].None? {
      FillHas(schema[1..], vals[1..], schema[0].name);
      assert forall j :: 0 <= j < |schema[1..]| ==> schema[1..][j].name != schema[0].name by {
        assert forall j :: 0 <= j < |schema[1..]| ==> schema[1..][j] == schema[j + 1];
      }
    }
  }

  ghost predicate Fits(key: Key, val: Option<Json>) {
    match val case None => !key.required case Some(v) => IsOf(key.kind, v)
  }

  /** An object written from its list passes the check of its list. */
  lemma FillIsClosed(schema: Schema, vals: seq<Option<Json>>)
    requires |schema| == |vals| && Distinct(schema) && forall i :: 0 <= i < |schema| ==> Fits(schema[i], vals[i])
    ensures Closed(Obj(Fill(schema, vals)), schema)
  {
    hide Fill, Lookup, IsOf, Distinct;
    var o := Obj(Fill(schema, vals));
    forall k | Field(o, k).Some? ensures Knows(schema, k) { FillHas(schema, vals, k); }
    UnknownIsByField(o, schema);
    forall i | 0 <= i < |schema| ensures KeyOk(o, schema[i]) {
      FillReads(schema, vals, i);
      assert Fits(schema[i], vals[i]);
    }
  }

  /** What holds of every value of a written object. */
  lemma {:induction false} FillMembers(schema: Schema, vals: seq<Option<Json>>)
    requires |schema| == |vals|
    ensures forall m :: m in Fill(schema, vals) ==> exists i :: 0 <= i < |vals| && vals[i] == Some(m.val) && schema[i].name == m.key
    ensures forall i :: 0 <= i < |vals| && vals[i].Some? ==> Member(schema[i].name, vals[i].value) in Fill(schema, vals)
    decreases |schema|
  {
    if schema != [] {
      FillMembers(schema[1..], vals[1..]);
      var ms, rest := Fill(schema, vals), Fill(schema[1..], vals[1..]);
      forall m | m in ms ensures exists i :: 0 <= i < |vals| && vals[i] == Some(m.val) && schema[i].name == m.key {
        if m in rest {
          var j :| 0 <= j < |vals[1..]| && vals[1..][j] == Some(m.val) && schema[1..][j].name == m.key;
          assert vals[j + 1] == Some(m.val) && schema[j + 1].name == m.key;
        } else {
          assert vals[0] == Some(m.val) && schema[0].name == m.key;
        }
      }
      forall i | 0 <= i < |vals| && vals[i].Some? ensures Member(schema[i].name, vals[i].value) in ms {
        if i > 0 { assert vals[1..][i - 1] == vals[i] && schema[1..][i - 1] == schema[i]; }
      }
    }
  }

  lemma {:induction false} FillIsUnique(schema: Schema, vals: seq<Option<Json>>)
    requires |schema| == |vals| && Distinct(schema)
    ensures UniqueKeys(Fill(schema, vals))
    decreases |schema|
  {
    if schema != [] {
      FillIsUnique(schema[1..], vals[1..]);
      var ms, rest := Fill(schema, vals), Fill(schema[1..], vals[1..]);
      if vals[0].Some? {
        FillMembers(schema[1..], vals[1..]);
        forall j | 0 <= j < |rest| ensures rest[j].key != schema[0].name {
          assert rest[j] in rest;
          var i :| 0 <= i < |vals[1..]| && schema[1..][i].name == rest[j].key;
          assert schema[i + 1].name == rest[j].key;
        }
        forall p, q | 0 <= p < q < |ms| ensures KeySeq(ms)[p] != KeySeq(ms)[q] {
          assert ms[q] == rest[q - 1];
          if p > 0 { assert ms[p] == rest[p - 1] && KeySeq(rest)[p - 1] != KeySeq(rest)[q - 1]; }
        }
      } else {
        assert ms == rest;
      }
    }
  }

  /** A written object is a value the strict reader could give, when its values are. */
  lemma FillIsValid(schema: Schema, vals: seq<Option<Json>>)
    requires |schema| == |vals| && Distinct(schema)
    requires forall i :: 0 <= i < |vals| && vals[i].Some? ==> Valid(vals[i].value)
    ensures Valid(Obj(Fill(schema, vals)))
  {
    hide Fill;
    FillIsUnique(schema, vals);
    FillMembers(schema, vals);
    var ms := Fill(schema, vals);
    forall i | 0 <= i < |ms| ensures Valid(ms[i].val) { assert ms[i] in ms; }
  }

  lemma FillInProfile(schema: Schema, vals: seq<Option<Json>>)
    requires |schema| == |vals|
    ensures InProfile(Obj(Fill(schema, vals))) <==> forall i :: 0 <= i < |vals| && vals[i].Some? ==> InProfile(vals[i].value)
  {
    hide Fill;
    FillMembers(schema, vals);
    var ms := Fill(schema, vals);
    forall i | 0 <= i < |vals| && vals[i].Some? ensures InProfile(Obj(ms)) ==> InProfile(vals[i].value) {
      var j :| 0 <= j < |ms| && ms[j] == Member(schema[i].name, vals[i].value);
    }
    forall j | 0 <= j < |ms|
      ensures (forall i :: 0 <= i < |vals| && vals[i].Some? ==> InProfile(vals[i].value)) ==> InProfile(ms[j].val)
    {
      assert ms[j] in ms;
    }
  }

  lemma {:induction false} FillDepth(schema: Schema, vals: seq<Option<Json>>, d: nat)
    requires |schema| == |vals|
    ensures MembersDepth(Fill(schema, vals)) <= d <==> forall i :: 0 <= i < |vals| && vals[i].Some? ==> Depth(vals[i].value) <= d
    decreases |schema|
  {
    if schema != [] {
      FillDepth(schema[1..], vals[1..], d);
      var ms, rest := Fill(schema, vals), Fill(schema[1..], vals[1..]);
      if vals[0].Some? { assert ms[1..] == rest; } else { assert ms == rest; }
      assert forall i :: 0 <= i < |vals| - 1 ==> vals[1..][i] == vals[i + 1];
      assert forall i :: 1 <= i < |vals| ==> vals[i] == vals[1..][i - 1];
    }
  }
}
