/** The 256-level sparse account tree and the fold of a compressed membership proof: a bitmap of the depths with a
    non-empty sibling and the list of those siblings, deepest first. */
module SparseTree {
  import opened Octets
  import opened SealTree

  type Accounts = map<Bytes, Bytes>

  const DEPTH: nat := 256

  /** SHA3-256 gives 32 bytes; nothing else is known of it. */
  ghost predicate Hash32(sha3: Hash) {
    forall x :: |sha3(x)| == 32
  }

  function Empty(sha3: Hash): Bytes { sha3([]) }

  function Leaf(sha3: Hash, key: Bytes, value: Bytes): Bytes { sha3([0] + key + value) }

  function Interior(sha3: Hash, left: Bytes, right: Bytes): Bytes { sha3([1] + left + right) }

  /** The low `w` bits of `n`, most significant first; those of a negative number as shifting it right gives them. */
  function BitsOf(n: int, w: nat): (r: seq<bool>)
    ensures |r| == w
    decreases if n < 0 then -n else n, w
  {
    if w == 0 then [] else BitsOf(n / 2, w - 1) + [n % 2 == 1]
  }

  function FromBits(bits: seq<bool>): (n: nat)
    ensures n < Pow2(|bits|)
  {
    if bits == [] then 0 else 2 * FromBits(bits[..|bits| - 1]) + (if bits[|bits| - 1] then 1 else 0)
  }

  /** Shifting right by `k` and then by one is shifting by `k + 1`. */
  lemma HalveShift(n: int, k: nat)
    ensures n / 2 / Pow2(k) == n / Pow2(k + 1)
  {
    var p := Pow2(k);
    var q := n / 2 / p;
    assert n / 2 == q * p + n / 2 % p && n == 2 * (n / 2) + n % 2;
    assert n == q * (2 * p) + (2 * (n / 2 % p) + n % 2);
    Quotient(q, 2 * p, 2 * (n / 2 % p) + n % 2);
  }

  lemma Quotient(q: int, p: nat, low: nat)
    requires low < p
    ensures (q * p + low) / p == q
  {
    var n := q * p + low;
    var e := n / p;
    assert e * p <= n < (e + 1) * p;
    Times(e + 1, q, p);
    Times(q + 1, e, p);
  }

  lemma Times(a: int, b: int, p: nat)
    ensures a <= b ==> a * p <= b * p
  {}

  /** Bit `d` of `w`, counted from the most significant, is `n` shifted right by `w - 1 - d`, modulo 2. */
  lemma {:induction false} BitsOfAt(n: int, w: nat, d: nat)
    requires d < w
    ensures BitsOf(n, w)[d] <==> n / Pow2(w - 1 - d) % 2 == 1
    decreases w
  {
    if d < w - 1 {
      BitsOfAt(n / 2, w - 1, d);
      HalveShift(n, w - 2 - d);
    }
  }

  /** Writing bits as an integer and reading them again gives them back, and the other way round. */
  lemma {:induction false} BitsRoundTrip(bits: seq<bool>)
    ensures BitsOf(FromBits(bits), |bits|) == bits
    decreases |bits|
  {
    if bits != [] { BitsRoundTrip(bits[..|bits| - 1]); }
  }

  lemma {:induction false} NumberRoundTrip(n: nat, w: nat)
    requires n < Pow2(w)
    ensures FromBits(BitsOf(n, w)) == n
    decreases w
  {
    if w > 0 {
      NumberRoundTrip(n / 2, w - 1);
      assert BitsOf(n, w)[..w - 1] == BitsOf(n / 2, w - 1);
    }
  }

  /** The bits of a path, byte by byte, most significant first. */
  function PathBits(path: Bytes): (r: seq<bool>)
    ensures |r| == 8 * |path|
  {
    if path == [] then [] else BitsOf(path[0], 8) + PathBits(path[1..])
  }

  lemma {:induction false} PathBitsAt(path: Bytes, d: nat)
    requires d < 8 * |path|
    ensures PathBits(path)[d] <==> path[d / 8] / Pow2(7 - d % 8) % 2 == 1
    decreases |path|
  {
    if d < 8 {
      BitsOfAt(path[0], 8, d);
    } else {
      PathBitsAt(path[1..], d - 8);
      assert (d - 8) / 8 == d / 8 - 1 && (d - 8) % 8 == d % 8;
    }
  }

  lemma {:induction false} BitsAreThePath(p: Bytes, q: Bytes)
    requires |p| == |q| && PathBits(p) == PathBits(q)
    ensures p == q
    decreases |p|
  {
    if p != [] {
      assert PathBits(p)[..8] == BitsOf(p[0], 8) && PathBits(q)[..8] == BitsOf(q[0], 8);
      assert PathBits(p)[8..] == PathBits(p[1..]) && PathBits(q)[8..] == PathBits(q[1..]);
      assert Pow2(8) == 2 * Pow2(7) && Pow2(7) == 2 * Pow2(6) && Pow2(6) == 2 * Pow2(5) && Pow2(5) == 2 * Pow2(4);
      assert Pow2(4) == 16;
      NumberRoundTrip(p[0], 8);
      NumberRoundTrip(q[0], 8);
      BitsAreThePath(p[1..], q[1..]);
    }
  }

  /** The 256 low bits of the bitmap, which may be a negative number. */
  function Marks(present: int): (r: seq<bool>)
    ensures |r| == DEPTH
  {
    BitsOf(present, DEPTH)
  }

  /** How many of the first `d` marks are set. */
  function Count(marks: seq<bool>, d: nat): (n: nat)
    requires d <= |marks|
    ensures n <= d
  {
    if d == 0 then 0 else Count(marks, d - 1) + (if marks[d - 1] then 1 else 0)
  }

  lemma CountMonotone(marks: seq<bool>, d: nat, e: nat)
    requires d <= e <= |marks|
    ensures Count(marks, d) <= Count(marks, e)
    decreases e
  {
    if d < e { CountMonotone(marks, d, e - 1); }
  }

  lemma CountStrict(marks: seq<bool>, d: nat, e: nat)
    requires d < e <= |marks| && marks[d]
    ensures Count(marks, d) < Count(marks, e)
  {
    CountMonotone(marks, d + 1, e);
  }

  /** A set mark is known by the number of marks before it. */
  lemma CountInjective(marks: seq<bool>, d: nat, e: nat)
    requires d < |marks| && e < |marks| && marks[d] && marks[e] && Count(marks, d) == Count(marks, e)
    ensures d == e
  {
    if d < e { CountStrict(marks, d, e); }
    if e < d { CountStrict(marks, e, d); }
  }

  function Climb(sha3: Hash, right: bool, cur: Bytes, sibling: Bytes): Bytes {
    if right then Interior(sha3, sibling, cur) else Interior(sha3, cur, sibling)
  }

  /** The fold from depth `d` to the root that takes the head of the list at each marked depth. */
  function Stream(sha3: Hash, path: seq<bool>, marks: seq<bool>, d: nat, cur: Bytes, siblings: seq<Bytes>): Bytes
    requires d <= |path| == |marks| && |siblings| == Count(marks, d)
  {
    if d == 0 then cur
    else if marks[d - 1] then
      Stream(sha3, path, marks, d - 1, Climb(sha3, path[d - 1], cur, siblings[0]), siblings[1..])
    else
      Stream(sha3, path, marks, d - 1, Climb(sha3, path[d - 1], cur, Empty(sha3)), siblings)
  }

  datatype FoldResult = Root(root: Bytes) | TooManySiblings | CountMismatch

  /** `depths` are the marked depths below `d`, ascending. */
  ghost predicate Lists(depths: seq<nat>, marks: seq<bool>, d: nat)
    requires d <= |marks|
  {
    |depths| == Count(marks, d) &&
    forall k :: 0 <= k < |depths| ==> depths[k] < d && marks[depths[k]] && Count(marks, depths[k]) == k
  }

  /** The dictionary holds, for the `i` deepest marked depths, the first `i` siblings. */
  ghost predicate Zipped(dict: map<nat, Bytes>, marks: seq<bool>, siblings: seq<Bytes>, i: nat)
    requires i <= |siblings| == Count(marks, |marks|)
  {
    (forall x :: x in dict ==> x < |marks| && marks[x] && |siblings| - i <= Count(marks, x) < |siblings|) &&
    (forall x :: 0 <= x < |marks| && marks[x] && |siblings| - i <= Count(marks, x) < |siblings| ==> x in dict) &&
    (forall x :: x in dict ==> dict[x] == siblings[|siblings| - 1 - Count(marks, x)])
  }

  lemma ZipOne(dict: map<nat, Bytes>, marks: seq<bool>, siblings: seq<Bytes>, i: nat, s: nat)
    requires i < |siblings| == Count(marks, |marks|) && Zipped(dict, marks, siblings, i)
    requires s < |marks| && marks[s] && Count(marks, s) == |siblings| - 1 - i
    ensures Zipped(dict[s := siblings[i]], marks, siblings, i + 1)
  {
    forall x | 0 <= x < |marks| && marks[x] && |siblings| - (i + 1) <= Count(marks, x) < |siblings|
      ensures x in dict[s := siblings[i]]
    {
      if Count(marks, x) == Count(marks, s) { CountInjective(marks, x, s); }
    }
  }

  /** smt_fold: the siblings go into a dictionary by depth, which the fold from the leaf up then reads. */
  method SmtFold(sha3: Hash, accountId: Bytes, stateHash: Bytes, present: int, siblings: seq<Bytes>)
    returns (r: FoldResult)
    requires Hash32(sha3)
    ensures r == if |siblings| > 256 then TooManySiblings
                 else if |siblings| != Count(Marks(present), DEPTH) then CountMismatch
                 else Root(Stream(sha3, PathBits(sha3(accountId)), Marks(present), DEPTH,
                                  Leaf(sha3, accountId, stateHash), siblings))
  {
    var path := sha3(accountId);
    if |siblings| > 256 { return TooManySiblings; }
    ghost var marks := Marks(present);
    var setDepths: seq<nat> := [];
    for d := 0 to DEPTH
      invariant Lists(setDepths, marks, d)
    {
      BitsOfAt(present, DEPTH, d);
      if present / Pow2(255 - d) % 2 == 1 { setDepths := setDepths + [d]; }
    }
    if |setDepths| != |siblings| { return CountMismatch; }
    var n := |siblings|;
    var depthSib: map<nat, Bytes> := map[];
    for i := 0 to n
      invariant Zipped(depthSib, marks, siblings, i)
    {
      var s := setDepths[n - 1 - i];
      ZipOne(depthSib, marks, siblings, i, s);
      depthSib := depthSib[s := siblings[i]];
    }
    var root := FoldUp(sha3, path, marks, depthSib, Leaf(sha3, accountId, stateHash), siblings);
    return Root(root);
  }

  lemma ZippedRead(dict: map<nat, Bytes>, marks: seq<bool>, siblings: seq<Bytes>, d: nat)
    requires |siblings| == Count(marks, |marks|) && Zipped(dict, marks, siblings, |siblings|) && d < |marks|
    ensures d in dict <==> marks[d]
    ensures Count(marks, d + 1) <= |siblings|
    ensures marks[d] ==> dict[d] == siblings[|siblings| - Count(marks, d + 1)]
  {
    CountMonotone(marks, d + 1, |marks|);
  }

  /** One step of the streaming fold: the sibling taken, and the list it leaves. */
  lemma StreamStep(sha3: Hash, path: seq<bool>, marks: seq<bool>, d: nat, cur: Bytes, siblings: seq<Bytes>)
    returns (sib: Bytes, rest: seq<Bytes>)
    requires 0 < d <= |path| == |marks| && |siblings| == Count(marks, d)
    ensures |rest| == Count(marks, d - 1) && (marks[d - 1] ==> |siblings| > 0)
    ensures if marks[d - 1] then sib == siblings[0] && rest == siblings[1..] else sib == Empty(sha3) && rest == siblings
    ensures Stream(sha3, path, marks, d, cur, siblings)
         == Stream(sha3, path, marks, d - 1, Climb(sha3, path[d - 1], cur, sib), rest)
  {
    if marks[d - 1] { sib, rest := siblings[0], siblings[1..]; } else { sib, rest := Empty(sha3), siblings; }
  }

  /** The fold from the leaf up to the root. */
  method FoldUp(sha3: Hash, path: Bytes, ghost marks: seq<bool>, depthSib: map<nat, Bytes>, leaf: Bytes, ghost siblings: seq<Bytes>)
    returns (cur: Bytes)
    requires |path| == 32 && |marks| == DEPTH && |siblings| == Count(marks, |marks|)
    requires Zipped(depthSib, marks, siblings, |siblings|)
    ensures cur == Stream(sha3, PathBits(path), marks, DEPTH, leaf, siblings)
  {
    cur := leaf;
    var d := DEPTH;
    ghost var rest := siblings;
    ghost var bits := PathBits(path);
    ghost var root := Stream(sha3, bits, marks, DEPTH, leaf, siblings);
    while d > 0
      invariant 0 <= d <= DEPTH && Count(marks, d) <= |siblings|
      invariant rest == siblings[|siblings| - Count(marks, d)..]
      invariant Stream(sha3, bits, marks, d, cur, rest) == root
    {
      hide Stream, Count, PathBits, Zipped;
      ghost var taken, left := StreamStep(sha3, bits, marks, d, cur, rest);
      d := d - 1;
      ZippedRead(depthSib, marks, siblings, d);
      PathBitsAt(path, d);
      var sib := if d in depthSib then depthSib[d] else Empty(sha3);
      assert sib == taken;
      cur := if path[d / 8] / Pow2(7 - d % 8) % 2 == 1 then Interior(sha3, sib, cur) else Interior(sha3, cur, sib);
      rest := left;
    }
  }

  // ------------------------------------------------------------------ the tree itself

  ghost predicate Turns(sha3: Hash, key: Bytes, d: nat, b: bool)
    requires d < DEPTH && Hash32(sha3)
  {
    PathBits(sha3(key))[d] == b
  }

  /** The accounts whose path has bit `b` at depth `d`. */
  ghost function Side(sha3: Hash, m: Accounts, d: nat, b: bool): Accounts
    requires d < DEPTH && Hash32(sha3)
  {
    map k | k in m && Turns(sha3, k, d, b) :: m[k]
  }

  /** The hash of the subtree at depth `d` that holds `m`. */
  ghost function Tree(sha3: Hash, m: Accounts, d: nat): (h: Bytes)
    requires d <= DEPTH && Hash32(sha3)
    ensures |h| == 32
    decreases DEPTH - d
  {
    if m == map[] then sha3([])
    else if d == 256 then (var k :| k in m; sha3([0] + k + m[k]))
    else sha3([1] + Tree(sha3, Side(sha3, m, d, false), d + 1) + Tree(sha3, Side(sha3, m, d, true), d + 1))
  }

  /** The root of the tree that holds `m`. */
  ghost function TreeRoot(sha3: Hash, m: Accounts): Bytes
    requires Hash32(sha3)
  {
    Tree(sha3, m, 0)
  }

  /** The subtree at depth `d` on the way of `path`. */
  ghost function Sub(sha3: Hash, m: Accounts, path: seq<bool>, d: nat): Accounts
    requires d <= |path| == DEPTH && Hash32(sha3)
  {
    if d == 0 then m else Side(sha3, Sub(sha3, m, path, d - 1), d - 1, path[d - 1])
  }

  /** Its sibling one level below depth `d`. */
  ghost function Beside(sha3: Hash, m: Accounts, path: seq<bool>, d: nat): Accounts
    requires d < |path| == DEPTH && Hash32(sha3)
  {
    Side(sha3, Sub(sha3, m, path, d), d, !path[d])
  }

  /** Marked where the sibling is not empty. */
  ghost function MarksOf(sha3: Hash, m: Accounts, path: seq<bool>): (r: seq<bool>)
    requires |path| == DEPTH && Hash32(sha3)
    ensures |r| == DEPTH
  {
    seq(DEPTH, d requires 0 <= d < DEPTH => Beside(sha3, m, path, d) != map[])
  }

  /** The hashes of the non-empty siblings at depths below `d`, deepest first. */
  ghost function SiblingsBelow(sha3: Hash, m: Accounts, path: seq<bool>, d: nat): (r: seq<Bytes>)
    requires d <= |path| == DEPTH && Hash32(sha3)
    ensures |r| == Count(MarksOf(sha3, m, path), d)
  {
    if d == 0 then []
    else if MarksOf(sha3, m, path)[d - 1] then
      [Tree(sha3, Beside(sha3, m, path, d - 1), d)] + SiblingsBelow(sha3, m, path, d - 1)
    else SiblingsBelow(sha3, m, path, d - 1)
  }

  lemma {:induction false} KeyStaysOnPath(sha3: Hash, m: Accounts, key: Bytes, d: nat)
    requires key in m && d <= DEPTH && Hash32(sha3)
    ensures key in Sub(sha3, m, PathBits(sha3(key)), d) && Sub(sha3, m, PathBits(sha3(key)), d)[key] == m[key]
  {
    if d > 0 { KeyStaysOnPath(sha3, m, key, d - 1); }
  }

  lemma {:induction false} SubMembers(sha3: Hash, m: Accounts, path: seq<bool>, d: nat, k: Bytes)
    requires d <= |path| == DEPTH && Hash32(sha3) && k in Sub(sha3, m, path, d)
    ensures k in m && Sub(sha3, m, path, d)[k] == m[k]
    ensures PathBits(sha3(k))[..d] == path[..d]
  {
    if d > 0 {
      SubMembers(sha3, m, path, d - 1, k);
      assert path[..d] == path[..d - 1] + [path[d - 1]];
      assert PathBits(sha3(k))[..d] == PathBits(sha3(k))[..d - 1] + [path[d - 1]];
    }
  }

  ghost predicate DistinctPaths(sha3: Hash, m: Accounts) {
    forall j, k :: j in m && k in m && sha3(j) == sha3(k) ==> j == k
  }

  /** The proof read off the tree, its bitmap written as an integer, folds to the root. */
  lemma ProofFoldsToRoot(sha3: Hash, m: Accounts, key: Bytes)
    requires key in m && DistinctPaths(sha3, m) && Hash32(sha3)
    ensures var path := PathBits(sha3(key));
            var present, siblings := FromBits(MarksOf(sha3, m, path)), SiblingsBelow(sha3, m, path, DEPTH);
            present < Pow2(256) && |siblings| == Count(Marks(present), DEPTH) &&
            Stream(sha3, path, Marks(present), DEPTH, Leaf(sha3, key, m[key]), siblings) == TreeRoot(sha3, m)
  {
    var path := PathBits(sha3(key));
    BitsRoundTrip(MarksOf(sha3, m, path));
    var sub := Sub(sha3, m, path, DEPTH);
    KeyStaysOnPath(sha3, m, key, DEPTH);
    forall k | k in sub ensures k == key { OnlyOneOnPath(sha3, m, key, k); }
    assert Tree(sha3, sub, DEPTH) == Leaf(sha3, key, m[key]);
    StreamsToRoot(sha3, m, key, DEPTH);
  }

  lemma OnlyOneOnPath(sha3: Hash, m: Accounts, key: Bytes, k: Bytes)
    requires Hash32(sha3) && k in Sub(sha3, m, PathBits(sha3(key)), DEPTH)
    ensures k in m && Sub(sha3, m, PathBits(sha3(key)), DEPTH)[k] == m[k] && sha3(k) == sha3(key)
  {
    var path := PathBits(sha3(key));
    SubMembers(sha3, m, path, DEPTH, k);
    assert path[..DEPTH] == path && PathBits(sha3(k))[..DEPTH] == PathBits(sha3(k));
    BitsAreThePath(sha3(k), sha3(key));
  }

  /** A non-empty subtree hashes the two subtrees below it, the one on the way and the one beside it. */
  lemma TreeClimbs(sha3: Hash, m: Accounts, path: seq<bool>, d: nat)
    requires d < |path| == DEPTH && Hash32(sha3) && Sub(sha3, m, path, d) != map[]
    ensures Tree(sha3, Sub(sha3, m, path, d), d)
         == Climb(sha3, path[d], Tree(sha3, Sub(sha3, m, path, d + 1), d + 1), Tree(sha3, Beside(sha3, m, path, d), d + 1))
  {}

  /** One step of the fold takes up the sibling on the way. */
  lemma SiblingStep(sha3: Hash, m: Accounts, path: seq<bool>, d: nat, cur: Bytes)
    requires 0 < d <= |path| == DEPTH && Hash32(sha3)
    ensures Stream(sha3, path, MarksOf(sha3, m, path), d, cur, SiblingsBelow(sha3, m, path, d))
         == Stream(sha3, path, MarksOf(sha3, m, path), d - 1,
                   Climb(sha3, path[d - 1], cur, Tree(sha3, Beside(sha3, m, path, d - 1), d)), SiblingsBelow(sha3, m, path, d - 1))
  {
    hide Sub, Beside, Climb, Count, Side;
    var s, rest := SiblingsBelow(sha3, m, path, d), SiblingsBelow(sha3, m, path, d - 1);
    if MarksOf(sha3, m, path)[d - 1] {
      assert s[1..] == rest && s[0] == Tree(sha3, Beside(sha3, m, path, d - 1), d);
    } else {
      assert Beside(sha3, m, path, d - 1) == map[];
      EmptyTree(sha3, d);
    }
  }

  lemma EmptyTree(sha3: Hash, d: nat)
    requires d <= DEPTH && Hash32(sha3)
    ensures Tree(sha3, map[], d) == Empty(sha3)
  {}

  lemma StreamEnds(sha3: Hash, m: Accounts, path: seq<bool>, marks: seq<bool>, cur: Bytes)
    requires |path| == |marks| == DEPTH && Hash32(sha3)
    ensures Stream(sha3, path, marks, 0, cur, []) == cur && Sub(sha3, m, path, 0) == m
  {}

  lemma RootIsTop(sha3: Hash, m: Accounts, d: nat)
    requires d == 0 && Hash32(sha3)
    ensures TreeRoot(sha3, m) == Tree(sha3, m, d)
  {}

  lemma {:induction false} StreamsToRoot(sha3: Hash, m: Accounts, key: Bytes, d: nat)
    requires key in m && d <= DEPTH && Hash32(sha3)
    ensures var path := PathBits(sha3(key));
            Stream(sha3, path, MarksOf(sha3, m, path), d, Tree(sha3, Sub(sha3, m, path, d), d),
                   SiblingsBelow(sha3, m, path, d)) == TreeRoot(sha3, m)
    decreases d
  {
    hide Sub, Beside, Climb, PathBits, Stream, Tree, Count, TreeRoot;
    var path := PathBits(sha3(key));
    if d > 0 {
      KeyStaysOnPath(sha3, m, key, d - 1);
      TreeClimbs(sha3, m, path, d - 1);
      StreamsToRoot(sha3, m, key, d - 1);
      SiblingStep(sha3, m, path, d, Tree(sha3, Sub(sha3, m, path, d), d));
    } else {
      StreamEnds(sha3, m, path, MarksOf(sha3, m, path), TreeRoot(sha3, m));
      RootIsTop(sha3, m, d);
    }
  }

  /** Whoever folds a leaf of `key` to the root of the tree, with any bitmap and siblings, shows that the tree stores
      exactly that value under `key`, or holds a hash collision. */
  lemma ProofBinds(sha3: Hash, m: Accounts, key: Bytes, value: Bytes, present: int, siblings: seq<Bytes>)
    returns (a: Bytes, b: Bytes)
    requires Hash32(sha3) && |siblings| == Count(Marks(present), DEPTH)
    requires Stream(sha3, PathBits(sha3(key)), Marks(present), DEPTH, Leaf(sha3, key, value), siblings) == TreeRoot(sha3, m)
    ensures (key in m && m[key] == value) || Collision(sha3, a, b)
  {
    var path := PathBits(sha3(key));
    a, b := StreamBinds(sha3, m, path, Marks(present), DEPTH, Leaf(sha3, key, value), siblings);
    if !Collision(sha3, a, b) { a, b := LeafBinds(sha3, m, key, value); }
  }

  lemma LeafBinds(sha3: Hash, m: Accounts, key: Bytes, value: Bytes) returns (a: Bytes, b: Bytes)
    requires Hash32(sha3) && Leaf(sha3, key, value) == Tree(sha3, Sub(sha3, m, PathBits(sha3(key)), DEPTH), DEPTH)
    ensures (key in m && m[key] == value) || Collision(sha3, a, b)
  {
    var sub := Sub(sha3, m, PathBits(sha3(key)), DEPTH);
    if sub == map[] {
      a, b := [0] + key + value, [];
      assert |a| > 0;
    } else {
      var k :| k in sub && Tree(sha3, sub, DEPTH) == Leaf(sha3, k, sub[k]);
      OnlyOneOnPath(sha3, m, key, k);
      a, b := k, key;
      if k == key {
        a, b := [0] + key + value, [0] + key + m[key];
        assert sha3(a) == Leaf(sha3, key, value);
        assert sha3(b) == Leaf(sha3, key, m[key]);
        if a == b { SameTail([0] + key, value, m[key]); }
      }
    }
  }

  lemma SameTail(a: Bytes, x: Bytes, y: Bytes)
    requires a + x == a + y
    ensures x == y
  {
    assert (a + x)[|a|..] == x && (a + y)[|a|..] == y;
  }

  lemma {:induction false} StreamBinds(sha3: Hash, m: Accounts, path: seq<bool>, marks: seq<bool>, d: nat, cur: Bytes,
                                       siblings: seq<Bytes>)
    returns (a: Bytes, b: Bytes)
    requires Hash32(sha3) && |cur| == 32 && d <= |path| == |marks| == DEPTH && |siblings| == Count(marks, d)
    requires Stream(sha3, path, marks, d, cur, siblings) == TreeRoot(sha3, m)
    ensures cur == Tree(sha3, Sub(sha3, m, path, d), d) || Collision(sha3, a, b)
    decreases d
  {
    hide Stream, Tree, Sub, Count, TreeRoot;
    a, b := [], [];
    if d == 0 {
      StreamEnds(sha3, m, path, marks, cur);
      RootIsTop(sha3, m, d);
    } else {
      var sib, rest := StreamStep(sha3, path, marks, d, cur, siblings);
      a, b := StreamBinds(sha3, m, path, marks, d - 1, Climb(sha3, path[d - 1], cur, sib), rest);
      if !Collision(sha3, a, b) {
        a, b := ClimbBinds(sha3, m, path, d - 1, cur, sib);
      }
    }
  }

  lemma ClimbBinds(sha3: Hash, m: Accounts, path: seq<bool>, d: nat, cur: Bytes, sib: Bytes)
    returns (a: Bytes, b: Bytes)
    requires Hash32(sha3) && |cur| == 32 && d < |path| == DEPTH
    requires Climb(sha3, path[d], cur, sib) == Tree(sha3, Sub(sha3, m, path, d), d)
    ensures cur == Tree(sha3, Sub(sha3, m, path, d + 1), d + 1) || Collision(sha3, a, b)
  {
    var own, side := Tree(sha3, Sub(sha3, m, path, d + 1), d + 1), Tree(sha3, Beside(sha3, m, path, d), d + 1);
    var s, o := Sibling(sib, !path[d]), Sibling(side, !path[d]);
    a, b := Joined([1], cur, s), [];
    if Sub(sha3, m, path, d) != map[] {
      TreeClimbs(sha3, m, path, d);
      b := Joined([1], own, o);
      if a == b { JoinedInjective([1], cur, s, own, o); }
    }
  }
}
