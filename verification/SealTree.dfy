/** The tagged seal tree: a level-by-level fold that promotes the odd node, inclusion paths, and the recursive tree
    they are proved against. */
module SealTree {
  import opened Values

  import opened Octets

  /** SHA3-256 as an arbitrary function. */
  type Hash = Bytes -> Bytes

  datatype Sibling = Sibling(hash: Bytes, isRight: bool)

  function SealNode(sha3: Hash, tag: Bytes, left: Bytes, right: Bytes): Bytes {
    sha3(tag + left + right)
  }

  /** The largest power of two below `n`. */
  function Split(n: nat): (k: nat)
    requires n >= 2
    ensures 1 <= k < n <= 2 * k
  {
    if n == 2 then 1 else 2 * Split((n + 1) / 2)
  }

  lemma {:induction false} SplitIsPowerOfTwo(n: nat)
    requires n >= 2
    ensures exists e: nat :: Split(n) == Pow2(e)
    decreases n
  {
    if n == 2 {
      assert Split(n) == Pow2(0);
    } else {
      SplitIsPowerOfTwo((n + 1) / 2);
      var e: nat :| Split((n + 1) / 2) == Pow2(e);
      assert Split(n) == Pow2(e + 1);
    }
  }

  function Pow2(e: nat): (r: nat)
    ensures r >= 1
  {
    if e == 0 then 1 else 2 * Pow2(e - 1)
  }

  /** The tree of section 2.1 of RFC 6962 over raw leaves: split at the largest power of two below the count. */
  function TreeHead(sha3: Hash, tag: Bytes, leaves: seq<Bytes>): Bytes
    requires leaves != []
    decreases |leaves|
  {
    if |leaves| == 1 then leaves[0]
    else
      var k := Split(|leaves|);
      sha3(tag + TreeHead(sha3, tag, leaves[..k]) + TreeHead(sha3, tag, leaves[k..]))
  }

  /** One level up: neighbours paired, an odd last node promoted unchanged. */
  function Level(sha3: Hash, tag: Bytes, nodes: seq<Bytes>): (r: seq<Bytes>)
    ensures |r| == (|nodes| + 1) / 2
  {
    if |nodes| <= 1 then nodes
    else [SealNode(sha3, tag, nodes[0], nodes[1])] + Level(sha3, tag, nodes[2..])
  }

  lemma {:induction false} LevelConcat(sha3: Hash, tag: Bytes, a: seq<Bytes>, b: seq<Bytes>)
    requires |a| % 2 == 0
    ensures Level(sha3, tag, a + b) == Level(sha3, tag, a) + Level(sha3, tag, b)
    decreases |a|
  {
    if a == [] {
      assert a + b == b;
    } else {
      assert (a + b)[2..] == a[2..] + b;
      LevelConcat(sha3, tag, a[2..], b);
    }
  }

  lemma SplitHalf(n: nat)
    requires n > 2
    ensures Split((n + 1) / 2) == Split(n) / 2 && Split(n) % 2 == 0
  {}

  lemma HeadConcat(sha3: Hash, tag: Bytes, a: seq<Bytes>, b: seq<Bytes>)
    requires a != [] && b != [] && |a| == Split(|a + b|)
    ensures TreeHead(sha3, tag, a + b) == sha3(tag + TreeHead(sha3, tag, a) + TreeHead(sha3, tag, b))
  {
    assert (a + b)[..|a|] == a && (a + b)[|a|..] == b;
  }

  /** Folding one level leaves the head of the tree as it is. */
  lemma {:induction false} LevelKeepsHead(sha3: Hash, tag: Bytes, nodes: seq<Bytes>)
    requires |nodes| >= 1
    ensures TreeHead(sha3, tag, Level(sha3, tag, nodes)) == TreeHead(sha3, tag, nodes)
    decreases |nodes|
  {
    if |nodes| == 2 {
      assert nodes[2..] == [] && nodes[..1] == [nodes[0]] && nodes[1..] == [nodes[1]];
      assert Level(sha3, tag, nodes) == [SealNode(sha3, tag, nodes[0], nodes[1])];
    } else if |nodes| > 2 {
      var k := Split(|nodes|);
      var a, b := nodes[..k], nodes[k..];
      SplitHalf(|nodes|);
      LevelConcat(sha3, tag, a, b);
      assert nodes == a + b;
      HeadConcat(sha3, tag, a, b);
      HeadConcat(sha3, tag, Level(sha3, tag, a), Level(sha3, tag, b));
      LevelKeepsHead(sha3, tag, a);
      LevelKeepsHead(sha3, tag, b);
    }
  }

  lemma LevelFrom(sha3: Hash, tag: Bytes, nxt: seq<Bytes>, nodes: seq<Bytes>, i: nat)
    requires i + 1 < |nodes|
    ensures nxt + [SealNode(sha3, tag, nodes[i], nodes[i + 1])] + Level(sha3, tag, nodes[i + 2..])
         == nxt + Level(sha3, tag, nodes[i..])
  {
    assert nodes[i..][2..] == nodes[i + 2..];
  }

  lemma LevelEnd(sha3: Hash, tag: Bytes, nxt: seq<Bytes>, nodes: seq<Bytes>, i: nat)
    requires i <= |nodes| <= i + 1
    ensures nxt + Level(sha3, tag, nodes[i..]) == if i < |nodes| then nxt + [nodes[i]] else nxt
  {
    if i < |nodes| { assert nodes[i..] == [nodes[i]]; } else { assert nxt + [] == nxt; }
  }

  /** The inner loop: one level folded into the next. */
  method NextLevel(sha3: Hash, tag: Bytes, level: seq<Bytes>) returns (nxt: seq<Bytes>)
    ensures nxt == Level(sha3, tag, level)
  {
    nxt := [];
    var i := 0;
    assert level[0..] == level && [] + Level(sha3, tag, level) == Level(sha3, tag, level);
    while i + 1 < |level|
      invariant 0 <= i <= |level|
      invariant nxt + Level(sha3, tag, level[i..]) == Level(sha3, tag, level)
    {
      LevelFrom(sha3, tag, nxt, level, i);
      nxt := nxt + [SealNode(sha3, tag, level[i], level[i + 1])];
      i := i + 2;
    }
    LevelEnd(sha3, tag, nxt, level, i);
    if i < |level| {
      nxt := nxt + [level[i]];
    }
  }

  /** seal_fold_tree. None without a leaf: there is no first element to return. */
  method SealFoldTree(sha3: Hash, tag: Bytes, leaves: seq<Bytes>) returns (root: Option<Bytes>)
    ensures root == if leaves == [] then None else Some(TreeHead(sha3, tag, leaves))
  {
    var level := leaves;
    while |level| > 1
      invariant level == [] <==> leaves == []
      invariant leaves != [] ==> TreeHead(sha3, tag, level) == TreeHead(sha3, tag, leaves)
      decreases |level|
    {
      LevelKeepsHead(sha3, tag, level);
      level := NextLevel(sha3, tag, level);
    }
    root := if level == [] then None else Some(level[0]);
  }

  /** What is hashed when the current node meets a sibling. */
  function Joined(tag: Bytes, cur: Bytes, s: Sibling): Bytes {
    if s.isRight then tag + cur + s.hash else tag + s.hash + cur
  }

  function FoldPath(sha3: Hash, tag: Bytes, leaf: Bytes, path: seq<Sibling>): Bytes {
    if path == [] then leaf
    else sha3(Joined(tag, FoldPath(sha3, tag, leaf, path[..|path| - 1]), path[|path| - 1]))
  }

  method SealFoldIncl(sha3: Hash, tag: Bytes, leaf: Bytes, siblings: seq<Sibling>) returns (cur: Bytes)
    ensures cur == FoldPath(sha3, tag, leaf, siblings)
  {
    cur := leaf;
    for i := 0 to |siblings|
      invariant cur == FoldPath(sha3, tag, leaf, siblings[..i])
    {
      assert siblings[..i + 1][..i] == siblings[..i];
      var s := siblings[i];
      cur := if s.isRight then SealNode(sha3, tag, cur, s.hash) else SealNode(sha3, tag, s.hash, cur);
    }
    assert siblings[..|siblings|] == siblings;
  }

  /** The siblings of leaf `i` on its way to the root, leaf side first. */
  function PathOf(sha3: Hash, tag: Bytes, leaves: seq<Bytes>, i: nat): seq<Sibling>
    requires i < |leaves|
    decreases |leaves|
  {
    if |leaves| == 1 then []
    else
      var k := Split(|leaves|);
      if i < k then PathOf(sha3, tag, leaves[..k], i) + [Sibling(TreeHead(sha3, tag, leaves[k..]), true)]
      else PathOf(sha3, tag, leaves[k..], i - k) + [Sibling(TreeHead(sha3, tag, leaves[..k]), false)]
  }

  /** Two different inputs with one hash. */
  ghost predicate Collision(sha3: Hash, a: Bytes, b: Bytes) {
    a != b && sha3(a) == sha3(b)
  }

  ghost predicate SameSides(p: seq<Sibling>, q: seq<Sibling>) {
    |p| == |q| && forall i :: 0 <= i < |p| ==> p[i].isRight == q[i].isRight
  }

  lemma JoinedInjective(tag: Bytes, f: Bytes, s: Sibling, g: Bytes, o: Sibling)
    requires Joined(tag, f, s) == Joined(tag, g, o) && |f| == |g| && s.isRight == o.isRight
    ensures f == g && s == o
  {
    var x, y := Joined(tag, f, s), Joined(tag, g, o);
    var n, m := |tag|, if s.isRight then |tag| + |f| else |tag| + |s.hash|;
    assert |x| == |tag| + |f| + |s.hash| && |y| == |tag| + |g| + |o.hash|;
    if s.isRight {
      assert x[n..m] == f && y[n..m] == g && x[m..] == s.hash && y[m..] == o.hash;
    } else {
      assert x[n..m] == s.hash && y[n..m] == o.hash && x[m..] == f && y[m..] == g;
    }
  }

  /** The part of the tree that holds leaf `i`, its place there, and the sibling of that part. */
  lemma TopOfPath(sha3: Hash, tag: Bytes, leaves: seq<Bytes>, i: nat) returns (part: seq<Bytes>, j: nat, o: Sibling)
    requires i < |leaves| && |leaves| > 1
    ensures j < |part| < |leaves| && part[j] == leaves[i]
    ensures PathOf(sha3, tag, leaves, i) == PathOf(sha3, tag, part, j) + [o]
    ensures TreeHead(sha3, tag, leaves) == sha3(Joined(tag, TreeHead(sha3, tag, part), o))
  {
    var k := Split(|leaves|);
    if i < k {
      part, j, o := leaves[..k], i, Sibling(TreeHead(sha3, tag, leaves[k..]), true);
    } else {
      part, j, o := leaves[k..], i - k, Sibling(TreeHead(sha3, tag, leaves[..k]), false);
    }
  }

  lemma FoldSnoc(sha3: Hash, tag: Bytes, leaf: Bytes, path: seq<Sibling>, o: Sibling)
    ensures FoldPath(sha3, tag, leaf, path + [o]) == sha3(Joined(tag, FoldPath(sha3, tag, leaf, path), o))
  {
    assert (path + [o])[..|path|] == path && (path + [o])[|path|] == o;
  }

  /** Every leaf has a path that folds to the head of the tree. */
  lemma {:induction false} PathFoldsToHead(sha3: Hash, tag: Bytes, leaves: seq<Bytes>, i: nat)
    requires i < |leaves|
    ensures FoldPath(sha3, tag, leaves[i], PathOf(sha3, tag, leaves, i)) == TreeHead(sha3, tag, leaves)
    decreases |leaves|
  {
    if |leaves| > 1 {
      var part, j, o := TopOfPath(sha3, tag, leaves, i);
      PathFoldsToHead(sha3, tag, part, j);
      FoldSnoc(sha3, tag, leaves[i], PathOf(sha3, tag, part, j), o);
    }
  }

  /** Nodes of two trees on the same way up have one length: that of the leaf, or that of a hash. */
  lemma SameLength(sha3: Hash, tag: Bytes, leaves: seq<Bytes>, i: nat, x: Bytes, p: seq<Sibling>)
    requires i < |leaves| && |x| == |leaves[i]| && |p| == |PathOf(sha3, tag, leaves, i)|
    requires forall y :: |sha3(y)| == 32
    ensures |FoldPath(sha3, tag, x, p)| == |TreeHead(sha3, tag, leaves)|
  {
    if |leaves| > 1 { var _, _, _ := TopOfPath(sha3, tag, leaves, i); }
  }

  lemma SidesBelow(p: seq<Sibling>, q: seq<Sibling>, o: Sibling)
    requires SameSides(p, q + [o])
    ensures p != [] && SameSides(p[..|p| - 1], q) && p[|p| - 1].isRight == o.isRight
    ensures p == p[..|p| - 1] + [p[|p| - 1]]
  {
    assert (q + [o])[|q|] == o && forall m :: 0 <= m < |q| ==> (q + [o])[m] == q[m];
  }

  /** Whoever folds another leaf, or other siblings, to the same head at the place of leaf `i` holds a hash collision. */
  lemma {:induction false} PathBinds(sha3: Hash, tag: Bytes, leaves: seq<Bytes>, i: nat, x: Bytes, p: seq<Sibling>)
    returns (a: Bytes, b: Bytes)
    requires i < |leaves| && |x| == |leaves[i]|
    requires forall y :: |sha3(y)| == 32
    requires SameSides(p, PathOf(sha3, tag, leaves, i))
    requires FoldPath(sha3, tag, x, p) == TreeHead(sha3, tag, leaves)
    ensures (x == leaves[i] && p == PathOf(sha3, tag, leaves, i)) || Collision(sha3, a, b)
    decreases |leaves|
  {
    a, b := [], [];
    if |leaves| > 1 {
      var part, j, o := TopOfPath(sha3, tag, leaves, i);
      SidesBelow(p, PathOf(sha3, tag, part, j), o);
      var below, s := p[..|p| - 1], p[|p| - 1];
      var f, g := FoldPath(sha3, tag, x, below), TreeHead(sha3, tag, part);
      SameLength(sha3, tag, part, j, x, below);
      a, b := Joined(tag, f, s), Joined(tag, g, o);
      if a == b {
        JoinedInjective(tag, f, s, g, o);
        a, b := PathBinds(sha3, tag, part, j, x, below);
      }
    }
  }
}
