/** Commitments of one artifact to another: the claims that spell another artifact's digest, found with an inverse index. */
module Bindings {
  import opened Octets
  import opened Values
  import opened Base64
  import opened CanonicalJson

  /** SHA-256 over the characters of a compact serialization, as an arbitrary function. */
  type Sha = string -> Bytes

  datatype Artifact = Artifact(name: string, compact: string, claims: Json)

  datatype Encoding = HexForm | Base64Form

  datatype Binding = Binding(holder: string, claim: string, commitsTo: string, encoding: Encoding)

  function Hex(b: Bytes): (s: string)
    ensures |s| == 2 * |b|
  {
    if b == [] then "" else [HexChar(b[0] / 16), HexChar(b[0] % 16)] + Hex(b[1..])
  }

  /** Two lower-case digits at place `i` of `s`, the high one first. */
  ghost predicate Lower(s: string, i: nat, n: Byte) {
    && 2 * i + 1 < |s|
    && s[2 * i] == "0123456789abcdef"[n / 16]
    && s[2 * i + 1] == "0123456789abcdef"[n % 16]
  }

  /** Every byte is spelled by its own two digits. */
  lemma {:induction false} HexSpells(b: Bytes, i: nat)
    requires i < |b|
    ensures Lower(Hex(b), i, b[i])
    decreases |b|
  {
    if i > 0 {
      HexSpells(b[1..], i - 1);
      assert Hex(b)[2..] == Hex(b[1..]);
    } else {
      DigitIs(b[0] / 16);
      DigitIs(b[0] % 16);
    }
  }

  lemma DigitIs(d: nat)
    requires d < 16
    ensures HexChar(d) == "0123456789abcdef"[d]
  {}

  function HexDigest(sha: Sha, a: Artifact): string { Hex(sha(a.compact)) }

  function Base64Digest(sha: Sha, a: Artifact): string { Encode(UrlSafe, sha(a.compact)) }

  // ------------------------------------------------------------------ the naive scan

  /** What the string `s` commits to: every artifact whose digest it spells, in pack order, hexadecimal first. */
  function Commits(sha: Sha, arts: seq<Artifact>, s: string): seq<(string, Encoding)> {
    if arts == [] then []
    else
      var a := arts[|arts| - 1];
      Commits(sha, arts[..|arts| - 1], s)
      + (if s == HexDigest(sha, a) then [(a.name, HexForm)] else [])
      + (if s == Base64Digest(sha, a) then [(a.name, Base64Form)] else [])
  }

  /** `s` spells the digest of `a`, named and encoded as `e` says. */
  predicate Spells(sha: Sha, a: Artifact, s: string, e: (string, Encoding)) {
    a.name == e.0 && s == if e.1.HexForm? then Hex(sha(a.compact)) else Encode(UrlSafe, sha(a.compact))
  }

  /** The commitments of one leaf to the others. */
  function LeafBindings(es: seq<(string, Encoding)>, path: string, holder: string): seq<Binding> {
    if es == [] then []
    else
      LeafBindings(es[..|es| - 1], path, holder)
      + (var (other, enc) := es[|es| - 1]; if other == holder then [] else [Binding(holder, path, other, enc)])
  }

  function KeyPath(path: string, k: string): string { if path == "" then k else path + "." + k }

  function IndexPath(path: string, i: nat): string { path + "[" + PrintNat(i) + "]" }

  /** Every string leaf of `node`, in order, against every other artifact. */
  function Naive(sha: Sha, arts: seq<Artifact>, node: Json, path: string, holder: string): seq<Binding>
    decreases node, 0
  {
    match node
    case Obj(ms) => NaiveMembers(sha, arts, ms, path, holder)
    case Arr(xs) => NaiveItems(sha, arts, xs, path, holder)
    case Str(s) => LeafBindings(Commits(sha, arts, s), path, holder)
    case _ => []
  }

  function NaiveMembers(sha: Sha, arts: seq<Artifact>, ms: seq<Member>, path: string, holder: string): seq<Binding>
    decreases ms, 1
  {
    if ms == [] then []
    else
      NaiveMembers(sha, arts, ms[..|ms| - 1], path, holder)
      + Naive(sha, arts, ms[|ms| - 1].val, KeyPath(path, ms[|ms| - 1].key), holder)
  }

  function NaiveItems(sha: Sha, arts: seq<Artifact>, xs: seq<Json>, path: string, holder: string): seq<Binding>
    decreases xs, 1
  {
    if xs == [] then []
    else
      NaiveItems(sha, arts, xs[..|xs| - 1], path, holder)
      + Naive(sha, arts, xs[|xs| - 1], IndexPath(path, |xs| - 1), holder)
  }

  /** The claims of each artifact in pack order. */
  function AllBindings(sha: Sha, arts: seq<Artifact>, scanned: seq<Artifact>): seq<Binding> {
    if scanned == [] then []
    else
      AllBindings(sha, arts, scanned[..|scanned| - 1])
      + Naive(sha, arts, scanned[|scanned| - 1].claims, "", scanned[|scanned| - 1].name)
  }

  // ------------------------------------------------------------------ the inverse index

  type Index = map<string, seq<(string, Encoding)>>

  function Get(index: Index, s: string): seq<(string, Encoding)> { if s in index then index[s] else [] }

  /** The index answers what the naive scan of the artifacts would. */
  ghost predicate Indexes(index: Index, sha: Sha, arts: seq<Artifact>) {
    forall s :: Get(index, s) == Commits(sha, arts, s)
  }

  /** The scan: the index, and the list it appends to. */
  class Finder {
    const sha: Sha
    var byValue: Index
    var found: seq<Binding>

    constructor (sha: Sha)
      ensures this.sha == sha && byValue == map[] && found == []
    {
      this.sha := sha;
      byValue := map[];
      found := [];
    }

    /** setdefault and append. */
    method Add(key: string, entry: (string, Encoding))
      modifies this`byValue
      ensures forall s :: Get(byValue, s) == old(Get(byValue, s)) + if s == key then [entry] else []
    {
      byValue := byValue[key := Get(byValue, key) + [entry]];
    }

    method BuildIndex(arts: seq<Artifact>)
      requires byValue == map[]
      modifies this`byValue
      ensures Indexes(byValue, sha, arts)
    {
      for i := 0 to |arts|
        invariant Indexes(byValue, sha, arts[..i])
      {
        assert arts[..i + 1][..i] == arts[..i];
        Add(HexDigest(sha, arts[i]), (arts[i].name, HexForm));
        Add(Base64Digest(sha, arts[i]), (arts[i].name, Base64Form));
      }
      assert arts[..|arts|] == arts;
    }

    method Scan(node: Json, path: string, holder: string, ghost arts: seq<Artifact>)
      requires Indexes(byValue, sha, arts)
      modifies this`found
      ensures found == old(found) + Naive(sha, arts, node, path, holder)
      decreases node, 0
    {
      match node {
        case Obj(ms) => ScanMembers(ms, path, holder, arts);
        case Arr(xs) => ScanItems(xs, path, holder, arts);
        case Str(s) => ScanLeaf(Get(byValue, s), path, holder);
        case _ => assert found + [] == found;
      }
    }

    method ScanMembers(ms: seq<Member>, path: string, holder: string, ghost arts: seq<Artifact>)
      requires Indexes(byValue, sha, arts)
      modifies this`found
      ensures found == old(found) + NaiveMembers(sha, arts, ms, path, holder)
      decreases ms, 1
    {
      hide Indexes, Naive;
      ghost var before := found;
      for i := 0 to |ms|
        invariant found == before + NaiveMembers(sha, arts, ms[..i], path, holder)
      {
        assert ms[..i + 1][..i] == ms[..i] && ms[i] in ms;
        Scan(ms[i].val, KeyPath(path, ms[i].key), holder, arts);
      }
      assert ms[..|ms|] == ms;
    }

    method ScanItems(xs: seq<Json>, path: string, holder: string, ghost arts: seq<Artifact>)
      requires Indexes(byValue, sha, arts)
      modifies this`found
      ensures found == old(found) + NaiveItems(sha, arts, xs, path, holder)
      decreases xs, 1
    {
      hide Indexes, Naive;
      ghost var before := found;
      for i := 0 to |xs|
        invariant found == before + NaiveItems(sha, arts, xs[..i], path, holder)
      {
        assert xs[..i + 1][..i] == xs[..i] && xs[i] in xs;
        Scan(xs[i], IndexPath(path, i), holder, arts);
      }
      assert xs[..|xs|] == xs;
    }

    method ScanLeaf(es: seq<(string, Encoding)>, path: string, holder: string)
      modifies this`found
      ensures found == old(found) + LeafBindings(es, path, holder)
    {
      ghost var before := found;
      for i := 0 to |es|
        invariant found == before + LeafBindings(es[..i], path, holder)
      {
        assert es[..i + 1][..i] == es[..i];
        var (other, enc) := es[i];
        if other != holder { found := found + [Binding(holder, path, other, enc)]; }
      }
      assert es[..|es|] == es;
    }
  }

  /** find_bindings: exactly the naive scan of every string leaf against every other artifact, in the same order. */
  method FindBindings(sha: Sha, arts: seq<Artifact>) returns (found: seq<Binding>)
    ensures found == AllBindings(sha, arts, arts)
  {
    var f := new Finder(sha);
    f.BuildIndex(arts);
    for i := 0 to |arts|
      invariant Indexes(f.byValue, sha, arts) && f.sha == sha
      invariant f.found == AllBindings(sha, arts, arts[..i])
    {
      assert arts[..i + 1][..i] == arts[..i];
      f.Scan(arts[i].claims, "", arts[i].name, arts);
    }
    assert arts[..|arts|] == arts;
    return f.found;
  }

  // ------------------------------------------------------------------ what a binding says

  lemma {:induction false} CommitsMeans(sha: Sha, arts: seq<Artifact>, s: string, e: (string, Encoding))
    ensures e in Commits(sha, arts, s)
       <==> exists i :: 0 <= i < |arts| && Spells(sha, arts[i], s, e)
    decreases |arts|
  {
    hide Hex, Encode;
    if arts != [] {
      var n := |arts| - 1;
      CommitsMeans(sha, arts[..n], s, e);
      assert forall i :: 0 <= i < n ==> arts[..n][i] == arts[i];
      assert e in Commits(sha, arts, s) <==> e in Commits(sha, arts[..n], s) || Spells(sha, arts[n], s, e) by {
        assert e == (e.0, e.1);
      }
    }
  }

  lemma {:induction false} LeafBindingsMean(es: seq<(string, Encoding)>, path: string, holder: string, b: Binding)
    ensures b in LeafBindings(es, path, holder)
       <==> b.holder == holder && b.claim == path && b.commitsTo != holder && (b.commitsTo, b.encoding) in es
    decreases |es|
  {
    if es != [] {
      var n := |es| - 1;
      LeafBindingsMean(es[..n], path, holder, b);
      var e := (b.commitsTo, b.encoding);
      var (other, enc) := es[n];
      assert e in es <==> e in es[..n] || e == es[n] by { assert es == es[..n] + [es[n]]; }
      assert e == es[n] <==> b.commitsTo == other && b.encoding == enc;
    }
  }

  /** Found or absent, never guessed: a leaf is bound to another artifact exactly when it spells that artifact's digest in
      the form the binding names. */
  lemma LeafIsBoundExactly(sha: Sha, arts: seq<Artifact>, s: string, path: string, holder: string, b: Binding)
    ensures b in Naive(sha, arts, Str(s), path, holder)
       <==> && b.holder == holder && b.claim == path && b.commitsTo != holder
            && exists i :: 0 <= i < |arts| && Spells(sha, arts[i], s, (b.commitsTo, b.encoding))
  {
    hide Commits, LeafBindings, HexDigest, Base64Digest;
    LeafBindingsMean(Commits(sha, arts, s), path, holder, b);
    CommitsMeans(sha, arts, s, (b.commitsTo, b.encoding));
  }

  /** The leaf at the end of a way down `node`, place by place, and the path written on the way. */
  function LeafAt(node: Json, path: string, way: seq<nat>): Option<(string, string)>
    decreases |way|
  {
    if way == [] then (if node.Str? then Some((path, node.s)) else None)
    else
      match node
      case Obj(ms) =>
        if way[0] >= |ms| then None
        else
          var k := ms[way[0]].key;
          LeafAt(ms[way[0]].val, if path == "" then k else path + "." + k, way[1..])
      case Arr(xs) =>
        if way[0] < |xs| then LeafAt(xs[way[0]], path + "[" + PrintNat(way[0]) + "]", way[1..]) else None
      case _ => None
  }

  ghost predicate BoundAt(sha: Sha, arts: seq<Artifact>, node: Json, path: string, holder: string, b: Binding, way: seq<nat>) {
    LeafAt(node, path, way).Some? &&
    var (p, s) := LeafAt(node, path, way).value;
    b in LeafBindings(Commits(sha, arts, s), p, holder)
  }

  /** Bound at the end of a way that begins at place `i`. */
  ghost predicate BoundVia(sha: Sha, arts: seq<Artifact>, node: Json, path: string, holder: string, b: Binding, i: nat, way: seq<nat>) {
    BoundAt(sha, arts, node, path, holder, b, [i] + way)
  }

  lemma BoundBelow(sha: Sha, arts: seq<Artifact>, node: Json, path: string, holder: string, b: Binding, i: nat, way: seq<nat>)
    requires (node.Obj? && i < |node.members|) || (node.Arr? && i < |node.items|)
    ensures var child := if node.Obj? then node.members[i].val else node.items[i];
            var below := if node.Obj? then KeyPath(path, node.members[i].key) else IndexPath(path, i);
            BoundVia(sha, arts, node, path, holder, b, i, way) <==> BoundAt(sha, arts, child, below, holder, b, way)
  {
    hide Commits, LeafBindings;
    assert ([i] + way)[1..] == way;
  }

  /** The scan finds the bindings of the leaves, each under the path that leads to it, and no others. */
  lemma {:induction false} ScanFindsLeaves(sha: Sha, arts: seq<Artifact>, node: Json, path: string, holder: string, b: Binding)
    ensures b in Naive(sha, arts, node, path, holder) <==> exists way :: BoundAt(sha, arts, node, path, holder, b, way)
    decreases node, 0
  {
    hide Commits, LeafBindings, LeafAt, NaiveMembers, NaiveItems;
    match node {
      case Obj(ms) =>
        MembersFindLeaves(sha, arts, node, ms, path, holder, b);
        EveryWay(sha, arts, node, path, holder, b);
      case Arr(xs) =>
        ItemsFindLeaves(sha, arts, node, xs, path, holder, b);
        EveryWay(sha, arts, node, path, holder, b);
      case Str(s) => OnlyHere(sha, arts, node, path, holder, b);
      case _ => OnlyHere(sha, arts, node, path, holder, b);
    }
  }

  lemma OnlyHere(sha: Sha, arts: seq<Artifact>, node: Json, path: string, holder: string, b: Binding)
    requires !IsContainer(node)
    ensures forall way :: BoundAt(sha, arts, node, path, holder, b, way) ==> way == [] && node.Str?
    ensures node.Str? ==> (BoundAt(sha, arts, node, path, holder, b, []) <==> b in LeafBindings(Commits(sha, arts, node.s), path, holder))
  {
    hide Commits, LeafBindings;
  }

  /** Every way down a container begins with one of its places. */
  lemma EveryWay(sha: Sha, arts: seq<Artifact>, node: Json, path: string, holder: string, b: Binding)
    requires IsContainer(node)
    ensures forall way :: BoundAt(sha, arts, node, path, holder, b, way) ==>
              && way != [] && way[0] < (if node.Obj? then |node.members| else |node.items|)
              && BoundVia(sha, arts, node, path, holder, b, way[0], way[1..])
  {
    hide Commits, LeafBindings;
    forall way | BoundAt(sha, arts, node, path, holder, b, way)
      ensures way != [] && BoundVia(sha, arts, node, path, holder, b, way[0], way[1..])
    {
      assert way == [way[0]] + way[1..];
    }
  }

  lemma {:induction false} MembersFindLeaves(sha: Sha, arts: seq<Artifact>, node: Json, ms: seq<Member>, path: string, holder: string,
                                             b: Binding)
    requires node.Obj? && ms <= node.members
    ensures b in NaiveMembers(sha, arts, ms, path, holder)
       <==> exists i: nat, way :: i < |ms| && BoundVia(sha, arts, node, path, holder, b, i, way)
    decreases ms, 1
  {
    hide Commits, LeafBindings, LeafAt, Naive, BoundAt, BoundVia;
    if ms != [] {
      var n := |ms| - 1;
      assert ms[n] in ms;
      MembersFindLeaves(sha, arts, node, ms[..n], path, holder, b);
      ScanFindsLeaves(sha, arts, ms[n].val, KeyPath(path, ms[n].key), holder, b);
      forall way
        ensures BoundVia(sha, arts, node, path, holder, b, n, way)
           <==> BoundAt(sha, arts, ms[n].val, KeyPath(path, ms[n].key), holder, b, way)
      {
        BoundBelow(sha, arts, node, path, holder, b, n, way);
      }
    }
  }

  lemma {:induction false} ItemsFindLeaves(sha: Sha, arts: seq<Artifact>, node: Json, xs: seq<Json>, path: string, holder: string,
                                           b: Binding)
    requires node.Arr? && xs <= node.items
    ensures b in NaiveItems(sha, arts, xs, path, holder)
       <==> exists i: nat, way :: i < |xs| && BoundVia(sha, arts, node, path, holder, b, i, way)
    decreases xs, 1
  {
    hide Commits, LeafBindings, LeafAt, Naive, BoundAt, BoundVia;
    if xs != [] {
      var n := |xs| - 1;
      assert xs[n] in xs;
      ItemsFindLeaves(sha, arts, node, xs[..n], path, holder, b);
      ScanFindsLeaves(sha, arts, xs[n], IndexPath(path, n), holder, b);
      forall way
        ensures BoundVia(sha, arts, node, path, holder, b, n, way)
           <==> BoundAt(sha, arts, xs[n], IndexPath(path, n), holder, b, way)
      {
        BoundBelow(sha, arts, node, path, holder, b, n, way);
      }
    }
  }

  /** With 32-byte digests a leaf spells a digest in one form only, known by its length. */
  lemma LengthTellsTheForm(sha: Sha, arts: seq<Artifact>, s: string, path: string, holder: string, b: Binding)
    requires (forall x :: |sha(x)| == 32) && b in Naive(sha, arts, Str(s), path, holder)
    ensures b.encoding == if |s| == 64 then HexForm else Base64Form
  {
    hide Naive, Sextets, Hex;
    LeafIsBoundExactly(sha, arts, s, path, holder, b);
    var i :| 0 <= i < |arts| && Spells(sha, arts[i], s, (b.commitsTo, b.encoding));
    var digest := sha(arts[i].compact);
    SextetsLength(digest);
    assert |digest| == 32;
    assert |HexDigest(sha, arts[i])| == 64;
    assert |Base64Digest(sha, arts[i])| == 43;
  }
}
