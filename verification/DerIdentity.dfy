/** Where the elements of a response end, and exactly when its signed bytes fix what it states. */
module DerIdentity {
  import opened Octets
  import opened Values
  import opened Der
  import opened DerLaws

  // ------------------------------------------------------------------ children that stay inside

  lemma TlvStays(buf: Bytes, lo: nat, hi: nat, off: nat)
    requires lo <= hi <= |buf| && DerTlv(buf, lo + off).Ok?
    ensures DerTlv(buf[lo..hi], off).Ok? <==> DerTlv(buf, lo + off).value.end <= hi
  {
    hide BigEndian;
    var part := buf[lo..hi];
    if DerTlv(part, off).Ok? { TlvInPart(buf, lo, hi, off); }
    if DerTlv(buf, lo + off).value.end <= hi && part[off + 1] >= 128 {
      var n := part[off + 1] - 128;
      SliceOfSlice(buf, lo, hi, off + 2, off + 2 + n);
      assert lo + (off + 2) == lo + off + 2;
    }
  }

  ghost predicate EndWithin(kids: seq<Tlv>, hi: nat) { forall i :: 0 <= i < |kids| ==> kids[i].end <= hi }

  /** The children of an element are found in a part of the buffer exactly when each of them ends there. */
  lemma {:induction false} ChildrenStay(buf: Bytes, lo: nat, hi: nat, start: nat, end: nat)
    requires lo <= hi <= |buf| && Children(buf, lo + start, lo + end).Ok?
    ensures Children(buf[lo..hi], start, end).Ok? <==> EndWithin(Children(buf, lo + start, lo + end).value, hi)
    decreases |buf| - start
  {
    hide DerTlv;
    if start < end {
      var t := DerTlv(buf, lo + start).value;
      TlvStays(buf, lo, hi, start);
      var rest := Children(buf, t.end, lo + end).value;
      assert EndWithin([t] + rest, hi) <==> t.end <= hi && EndWithin(rest, hi) by { EndWithinCons(t, rest, hi); }
      if t.end <= hi {
        TlvInPart(buf, lo, hi, start);
        ChildrenStay(buf, lo, hi, t.end - lo, end);
      }
    }
  }

  lemma EndWithinCons(t: Tlv, rest: seq<Tlv>, hi: nat)
    ensures EndWithin([t] + rest, hi) <==> t.end <= hi && EndWithin(rest, hi)
  {
    var all := [t] + rest;
    assert all[0] == t && forall i :: 0 <= i < |rest| ==> all[i + 1] == rest[i];
  }

  /** The children of an element stay inside it exactly when the last of them ends where it ends, and exactly when they
      would be found in the buffer cut off there. */
  lemma ChildrenStayInside(buf: Bytes, start: nat, end: nat)
    requires start <= end <= |buf| && Children(buf, start, end).Ok?
    ensures var kids := Children(buf, start, end).value;
            && (EndWithin(kids, end) <==> Children(buf[..end], start, end).Ok?)
            && (EndWithin(kids, end) <==> kids == [] || kids[|kids| - 1].end == end)
  {
    hide DerTlv, Children, EndWithin;
    ChildrenStay(buf, 0, end, start, end);
    assert buf[0..end] == buf[..end];
    assert 0 + start == start && 0 + end == end;
    ChildrenFollow(buf, start, end);
    LastDecides(Children(buf, start, end).value, start, end, |buf|);
  }

  lemma {:induction false} LastDecides(kids: seq<Tlv>, start: nat, end: nat, size: nat)
    requires start <= end && Follow(kids, start, end, size)
    ensures EndWithin(kids, end) <==> kids == [] || kids[|kids| - 1].end == end
    decreases |kids|
  {
    if |kids| > 1 {
      LastDecides(kids[1..], kids[0].end, end, size);
      assert kids == [kids[0]] + kids[1..];
      EndWithinCons(kids[0], kids[1..], end);
    }
  }

  // ------------------------------------------------------------------ the elements of a TSTInfo

  /** The elements of the TSTInfo at `off`, and those of its messageImprint. */
  function Parts(buf: Bytes, off: nat): (r: seq<Tlv>)
    requires ReadTst(buf, off).Ok?
    ensures |r| >= 3
  {
    var tst := DerTlv(buf, off).value;
    Children(buf, tst.start, tst.end).value
  }

  function ImprintParts(buf: Bytes, off: nat): (r: seq<Tlv>)
    requires ReadTst(buf, off).Ok?
    ensures |r| >= 2 && r[1].tag == 4
  {
    Children(buf, Parts(buf, off)[2].start, Parts(buf, off)[2].end).value
  }

  /** The OCTET STRING that is the imprint, and where its tag stands. */
  function Hash(buf: Bytes, off: nat): Tlv
    requires ReadTst(buf, off).Ok?
  {
    ImprintParts(buf, off)[1]
  }

  function HashTag(buf: Bytes, off: nat): nat
    requires ReadTst(buf, off).Ok?
  {
    ImprintParts(buf, off)[0].end
  }

  /** What reading a TSTInfo does, step by step. */
  lemma TstSteps(buf: Bytes, off: nat)
    requires ReadTst(buf, off).Ok?
    ensures DerTlv(buf, off).Ok?
    ensures var tst := DerTlv(buf, off).value; Children(buf, tst.start, tst.end) == Ok(Parts(buf, off))
    ensures var imp := Parts(buf, off)[2]; Children(buf, imp.start, imp.end) == Ok(ImprintParts(buf, off))
    ensures Inside(buf, Hash(buf, off)) && ReadTst(buf, off).value.imprint == Content(buf, Hash(buf, off))
    ensures |Parts(buf, off)| >= 5 ==> Inside(buf, Parts(buf, off)[4])
    ensures ReadTst(buf, off).value.genTime == ReadGenTime(buf, Parts(buf, off))
  {
    hide DerTlv, Children, Content, ReadGenTime;
    var tst, tstc := DerTlv(buf, off).value, Parts(buf, off);
    TstChildren(buf, off);
    TstAt(buf, off, tst, tstc);
    ImprintChildren(buf, tstc[2]);
    ImprintAt(buf, tstc[2], ImprintParts(buf, off));
  }

  /** The TSTInfo, its elements and those of its imprint all end at `hi` or before it. */
  ghost predicate EndsWithin(buf: Bytes, off: nat, hi: nat)
    requires ReadTst(buf, off).Ok?
  {
    TstSteps(buf, off);
    DerTlv(buf, off).value.end <= hi && EndWithin(Parts(buf, off), hi) && EndWithin(ImprintParts(buf, off), hi)
  }

  /** A TSTInfo that was read in a buffer reads on its own, out of the part from `lo` to `hi`, exactly when all of it that
      is walked ends there. */
  lemma ReadsInPart(buf: Bytes, lo: nat, hi: nat)
    requires lo <= hi <= |buf| && ReadTst(buf, lo).Ok?
    ensures ReadTst(buf[lo..hi], 0).Ok? <==> EndsWithin(buf, lo, hi)
  {
    hide DerTlv, Children, ReadTst, ReadImprint, EndWithin, Parts, ImprintParts;
    var part := buf[lo..hi];
    TstSteps(buf, lo);
    TlvStays(buf, lo, hi, 0);
    if ReadTst(part, 0).Ok? { TstSteps(part, 0); }
    if DerTlv(part, 0).Ok? {
      TlvInPart(buf, lo, hi, 0);
      var tst := DerTlv(part, 0).value;
      ChildrenStay(buf, lo, hi, tst.start, tst.end);
      if Children(part, tst.start, tst.end).Ok? {
        ChildrenInPart(buf, lo, hi, tst.start, tst.end);
        ReadsInPartFrom(buf, lo, hi, tst, Children(part, tst.start, tst.end).value);
      }
    }
  }

  lemma ReadsInPartFrom(buf: Bytes, lo: nat, hi: nat, tst: Tlv, kids: seq<Tlv>)
    requires lo <= hi <= |buf| && ReadTst(buf, lo).Ok?
    requires DerTlv(buf[lo..hi], 0) == Ok(tst) && Children(buf[lo..hi], tst.start, tst.end) == Ok(kids)
    requires Parts(buf, lo) == AllShifted(kids, lo)
    ensures ReadTst(buf[lo..hi], 0).Ok? <==> EndWithin(ImprintParts(buf, lo), hi)
  {
    hide DerTlv, Children, ReadTst, ReadImprint, EndWithin, Parts, ImprintParts;
    var part, imp := buf[lo..hi], kids[2];
    TstSteps(buf, lo);
    TstAt(part, 0, tst, kids);
    ChildrenStay(buf, lo, hi, imp.start, imp.end);
    if ReadTst(part, 0).Ok? { ImprintChildren(part, imp); }
    if Children(part, imp.start, imp.end).Ok? {
      var mic := Children(part, imp.start, imp.end).value;
      ChildrenInPart(buf, lo, hi, imp.start, imp.end);
      ImprintAt(part, imp, mic);
    }
  }

  /** What counts is the end of the part, not that of the TSTInfo: its last element may pass its end and be read all the same. */
  lemma PassesTstInfoAlone() returns (w: Bytes)
    ensures ReadTst(w, 0).Ok? && DerTlv(w, 0).value.end == 11 && Parts(w, 0)[2].end == 12 == |w|
  {
    hide DerTlv, Children, ReadTst, ReadImprint, ReadGenTime, Parts;
    w := [0x30, 9, 2, 0, 6, 0, 0x30, 4, 0x30, 0, 4, 0];
    var p, q, m, h := Tlv(6, 6, 6), Tlv(0x30, 8, 12), Tlv(0x30, 10, 10), Tlv(4, 12, 12);
    OneChild(w, 10, 12);
    NextChild(w, 8, 12, [h], [m, h]);
    ImprintAt(w, q, [m, h]);
    Short(w, 6);
    ElementMayPassEnd(w, 6, 11);
    NextChild(w, 4, 11, [q], [p, q]);
    NextChild(w, 2, 11, [p, q], [Tlv(2, 4, 4), p, q]);
    Short(w, 0);
    TstAt(w, 0, Tlv(0x30, 2, 11), [Tlv(2, 4, 4), p, q]);
    TstSteps(w, 0);
  }

  // ------------------------------------------------------------------ responses that hold a token

  predicate HasToken(a: Bytes) { ParseResponse(a).Ok? && ParseResponse(a).value.token.Some? }

  function Facts(a: Bytes): TstFacts
    requires HasToken(a)
  {
    ParseResponse(a).value.token.value.0
  }

  /** The bytes the authority signed. */
  function Identity(a: Bytes): Bytes
    requires HasToken(a)
  {
    ParseResponse(a).value.token.value.1
  }

  /** The OCTET STRING that holds them. */
  function Signed(a: Bytes): (r: Tlv)
    requires HasToken(a)
    ensures r.start <= r.end <= |a| && Identity(a) == a[r.start..r.end]
    ensures ReadTst(a, r.start).Ok? && ReadTst(a, r.start).value == Facts(a)
  {
    FindTst(a, ReadStatus(a).value.1[1]).value
  }

  /** The signed bytes of a response read on their own exactly when the TSTInfo, its elements and those of its imprint end
      within them. */
  lemma IdentityReadsOnItsOwn(a: Bytes)
    requires HasToken(a)
    ensures ReadTst(Identity(a), 0).Ok? <==> EndsWithin(a, Signed(a).start, Signed(a).end)
  {
    ReadsInPart(a, Signed(a).start, Signed(a).end);
  }

  // ------------------------------------------------------------------ what agreeing bytes say

  /** The `n` bytes of `a` from `la` on are those of `b` from `lb` on. */
  predicate Agree(a: Bytes, la: nat, b: Bytes, lb: nat, n: nat) {
    la + n <= |a| && lb + n <= |b| && a[la..la + n] == b[lb..lb + n]
  }

  lemma AgreeSlice(a: Bytes, la: nat, b: Bytes, lb: nat, n: nat, i: nat, j: nat)
    requires Agree(a, la, b, lb, n) && i <= j <= n
    ensures a[la + i..la + j] == b[lb + i..lb + j]
  {
    SliceOfSlice(a, la, la + n, i, j);
    SliceOfSlice(b, lb, lb + n, i, j);
  }

  lemma AgreeAt(a: Bytes, la: nat, b: Bytes, lb: nat, n: nat, i: nat)
    requires Agree(a, la, b, lb, n) && i < n
    ensures a[la + i] == b[lb + i]
  {
    assert a[la..la + n][i] == b[lb..lb + n][i];
  }

  /** `t` of one buffer is `u` of the other. */
  predicate Alike(t: Tlv, la: nat, u: Tlv, lb: nat) { u.tag == t.tag && u.start + la == t.start + lb && u.end + la == t.end + lb }

  /** Two elements whose headers agree are alike. */
  lemma TlvAgree(a: Bytes, la: nat, b: Bytes, lb: nat, n: nat, off: nat)
    requires Agree(a, la, b, lb, n) && DerTlv(a, la + off).Ok? && DerTlv(b, lb + off).Ok?
    requires DerTlv(a, la + off).value.start <= la + n
    ensures Alike(DerTlv(a, la + off).value, la, DerTlv(b, lb + off).value, lb)
  {
    hide BigEndian, Agree;
    AgreeAt(a, la, b, lb, n, off);
    AgreeAt(a, la, b, lb, n, off + 1);
    assert la + (off + 1) == la + off + 1 && lb + (off + 1) == lb + off + 1;
    if a[la + off + 1] >= 128 {
      var k := a[la + off + 1] - 128;
      AgreeSlice(a, la, b, lb, n, off + 2, off + 2 + k);
      assert a[la + off + 2..la + off + 2 + k] == b[lb + off + 2..lb + off + 2 + k];
    }
  }

  /** So are the children up to the last whose header agrees. */
  lemma {:induction false} KidsAgree(a: Bytes, la: nat, b: Bytes, lb: nat, n: nat, start: nat, end: nat, i: nat)
    requires Agree(a, la, b, lb, n)
    requires Children(a, la + start, la + end).Ok? && Children(b, lb + start, lb + end).Ok?
    requires i < |Children(a, la + start, la + end).value| && Children(a, la + start, la + end).value[i].start <= la + n
    ensures i < |Children(b, lb + start, lb + end).value|
    ensures Alike(Children(a, la + start, la + end).value[i], la, Children(b, lb + start, lb + end).value[i], lb)
    decreases i
  {
    hide DerTlv, Agree;
    var t := DerTlv(a, la + start).value;
    var rest := Children(a, t.end, la + end).value;
    if i > 0 {
      ChildrenFollow(a, t.end, la + end);
      FollowAt(rest, t.end, la + end, |a|, i - 1);
      BeginsAfter(rest, t.end, la + end, |a|, i - 1);
    }
    TlvAgree(a, la, b, lb, n, start);
    if i > 0 { KidsAgree(a, la, b, lb, n, t.end - la, end, i - 1); }
  }

  lemma {:induction false} BeginsAfter(kids: seq<Tlv>, start: nat, end: nat, size: nat, i: nat)
    requires Follow(kids, start, end, size) && i < |kids|
    ensures start <= Begins(kids, start, i)
    decreases i
  {
    if i > 0 {
      BeginsAfter(kids[1..], kids[0].end, end, size, i - 1);
    }
  }

  // ------------------------------------------------------------------ what is fixed

  /** Where the elements that state the imprint stand, in order. */
  lemma HashOrder(buf: Bytes, off: nat)
    requires ReadTst(buf, off).Ok?
    ensures off < DerTlv(buf, off).value.start <= Parts(buf, off)[2].start
    ensures Parts(buf, off)[2].start < ImprintParts(buf, off)[0].start <= HashTag(buf, off)
    ensures HashTag(buf, off) + 2 <= Hash(buf, off).start <= Hash(buf, off).end
    ensures HashTag(buf, off) < Parts(buf, off)[2].end
  {
    hide DerTlv, Children, ReadTst, Parts, ImprintParts;
    TstSteps(buf, off);
    var tst, parts, mic := DerTlv(buf, off).value, Parts(buf, off), ImprintParts(buf, off);
    ChildrenFollow(buf, tst.start, tst.end);
    FollowAt(parts, tst.start, tst.end, |buf|, 2);
    BeginsAfter(parts, tst.start, tst.end, |buf|, 2);
    var imp := parts[2];
    ChildrenFollow(buf, imp.start, imp.end);
    FollowAt(mic, imp.start, imp.end, |buf|, 0);
    FollowAt(mic, imp.start, imp.end, |buf|, 1);
  }

  /** An element of the TSTInfo whose header agrees is an element of both. */
  lemma PartAgrees(a: Bytes, la: nat, b: Bytes, lb: nat, n: nat, i: nat)
    requires Agree(a, la, b, lb, n) && ReadTst(a, la).Ok? && ReadTst(b, lb).Ok?
    requires i < |Parts(a, la)| && Parts(a, la)[i].start <= la + n
    ensures i < |Parts(b, lb)| && Alike(Parts(a, la)[i], la, Parts(b, lb)[i], lb)
  {
    hide DerTlv, Children, ReadTst, Parts, Agree;
    TstSteps(a, la);
    TstSteps(b, lb);
    var t, u := DerTlv(a, la).value, DerTlv(b, lb).value;
    ChildrenFollow(a, t.start, t.end);
    FollowAt(Parts(a, la), t.start, t.end, |a|, i);
    BeginsAfter(Parts(a, la), t.start, t.end, |a|, i);
    TlvAgree(a, la, b, lb, n, 0);
    KidsAgree(a, la, b, lb, n, t.start - la, t.end - la, i);
  }

  /** So is the hash, when its header agrees. */
  lemma HashAgrees(a: Bytes, la: nat, b: Bytes, lb: nat, n: nat)
    requires Agree(a, la, b, lb, n) && ReadTst(a, la).Ok? && ReadTst(b, lb).Ok?
    requires Hash(a, la).start <= la + n
    ensures Alike(Hash(a, la), la, Hash(b, lb), lb)
  {
    hide DerTlv, Children, ReadTst, Parts, ImprintParts, Agree;
    TstSteps(a, la);
    TstSteps(b, lb);
    HashOrder(a, la);
    PartAgrees(a, la, b, lb, n, 2);
    var t, u := Parts(a, la)[2], Parts(b, lb)[2];
    KidsAgree(a, la, b, lb, n, t.start - la, t.end - la, 1);
  }

  lemma ContentAgrees(a: Bytes, la: nat, b: Bytes, lb: nat, n: nat, t: Tlv, u: Tlv)
    requires Agree(a, la, b, lb, n) && Alike(t, la, u, lb) && la <= t.start <= t.end <= la + n
    ensures Inside(a, t) && Inside(b, u) && Content(a, t) == Content(b, u)
  {
    AgreeSlice(a, la, b, lb, n, t.start - la, t.end - la);
  }

  /** An imprint whose element ends within the agreeing bytes is the imprint of both. */
  lemma ImprintAgrees(a: Bytes, la: nat, b: Bytes, lb: nat, n: nat)
    requires Agree(a, la, b, lb, n) && ReadTst(a, la).Ok? && ReadTst(b, lb).Ok? && Hash(a, la).end <= la + n
    ensures ReadTst(b, lb).value.imprint == ReadTst(a, la).value.imprint
  {
    hide DerTlv, ReadTst, Parts, ImprintParts, Agree, Content;
    TstSteps(a, la);
    TstSteps(b, lb);
    HashOrder(a, la);
    HashAgrees(a, la, b, lb, n);
    ContentAgrees(a, la, b, lb, n, Hash(a, la), Hash(b, lb));
  }

  /** The element that states the time. */
  function Time(buf: Bytes, off: nat): Tlv
    requires ReadTst(buf, off).Ok? && ReadTst(buf, off).value.genTime.Some?
  {
    TstSteps(buf, off);
    Parts(buf, off)[4]
  }

  /** A time whose element ends within the agreeing bytes is the time of both. */
  lemma TimeAgrees(a: Bytes, la: nat, b: Bytes, lb: nat, n: nat)
    requires Agree(a, la, b, lb, n) && ReadTst(a, la).Ok? && ReadTst(b, lb).Ok?
    requires ReadTst(a, la).value.genTime.Some? && Time(a, la).end <= la + n
    ensures ReadTst(b, lb).value.genTime == ReadTst(a, la).value.genTime
  {
    hide DerTlv, ReadTst, Parts, Agree, Content, IsGenTime;
    TstSteps(a, la);
    TstSteps(b, lb);
    TimeOrder(a, la);
    PartAgrees(a, la, b, lb, n, 4);
    ContentAgrees(a, la, b, lb, n, Parts(a, la)[4], Parts(b, lb)[4]);
  }

  lemma TimeOrder(buf: Bytes, off: nat)
    requires ReadTst(buf, off).Ok? && ReadTst(buf, off).value.genTime.Some?
    ensures |Parts(buf, off)| >= 5 && Time(buf, off).tag == 0x18
    ensures off < Parts(buf, off)[2].end <= Time(buf, off).start <= Time(buf, off).end - 15 && Time(buf, off).end <= |buf|
    ensures HashTag(buf, off) < Time(buf, off).start
    ensures IsGenTime(Content(buf, Time(buf, off)))
    ensures ReadTst(buf, off).value.genTime == Some(Content(buf, Time(buf, off)))
  {
    hide DerTlv, Children, ReadTst, Parts, ImprintParts, Content;
    TstSteps(buf, off);
    HashOrder(buf, off);
    var tst, parts := DerTlv(buf, off).value, Parts(buf, off);
    ChildrenFollow(buf, tst.start, tst.end);
    FollowAt(parts, tst.start, tst.end, |buf|, 3);
    FollowAt(parts, tst.start, tst.end, |buf|, 4);
    assert Begins(parts, tst.start, 3) == parts[2].end && Begins(parts, tst.start, 4) == parts[3].end;
    assert |Content(buf, parts[4])| == parts[4].end - parts[4].start by { ContentLength(buf, parts[4]); }
  }

  lemma ContentLength(buf: Bytes, t: Tlv)
    requires Inside(buf, t)
    ensures |Content(buf, t)| == t.end - t.start
  {}

  // ------------------------------------------------------------------ what is not fixed

  /** Room past the original: one byte among zeros can be the first of four length bytes. */
  const ROOM: nat := 0x100_0003

  /** `a` up to `m`, then zeros with one byte `x` among them. */
  function Completed(a: Bytes, m: nat, p: nat, x: Byte): (b: Bytes)
    requires m <= |a|
    ensures |b| == |a| + ROOM && b[..m] == a[..m]
    ensures forall i :: m <= i < |b| ==> b[i] == if i == p then x else 0
  {
    a[..m] + seq(|a| + ROOM - m, i => if m + i == p then x else 0)
  }

  /** `b` is as `a` up to `m`, and from there on zero but for a one at `p`. */
  predicate Completes(a: Bytes, b: Bytes, m: nat, p: nat) {
    |b| == |a| + ROOM && Agree(a, 0, b, 0, m) && forall i :: m <= i < |b| ==> b[i] <= if i == p then 1 else 0
  }

  /** Bytes no larger, but for a one at place `j`. */
  predicate AlmostBelow(y: Bytes, x: Bytes, j: int) {
    |y| == |x| && forall i :: 0 <= i < |y| ==> y[i] as int <= x[i] as int + if i == j then 1 else 0
  }

  /** They are a number larger by that one at most. */
  lemma {:induction false} BigEndianBelow(y: Bytes, x: Bytes, j: int)
    requires AlmostBelow(y, x, j)
    ensures BigEndian(y) <= BigEndian(x) + if 0 <= j < |y| then Pow256(|y| - 1 - j) else 0
    decreases |y|
  {
    if y != [] {
      var n := |y| - 1;
      BigEndianBelow(y[..n], x[..n], j);
      if 0 <= j < n { assert Pow256(n - j) == 256 * Pow256(n - 1 - j); }
    }
  }

  lemma FourBytes(y: Bytes, x: Bytes, j: int)
    requires |y| <= 4 && AlmostBelow(y, x, j)
    ensures BigEndian(y) <= BigEndian(x) + 0x100_0000
  {
    BigEndianBelow(y, x, j);
    assert Pow256(3) == 0x100_0000 && Pow256(2) == 0x1_0000 && Pow256(1) == 0x100 && Pow256(0) == 1;
  }

  /** The length bytes of an element whose header crosses `m`. */
  lemma LengthCompleted(a: Bytes, b: Bytes, m: nat, p: nat, lo: nat, hi: nat)
    requires Completes(a, b, m, p) && lo <= hi <= lo + 4 && hi <= |a|
    ensures BigEndian(b[lo..hi]) <= BigEndian(a[lo..hi]) + 0x100_0000
    ensures hi <= m ==> b[lo..hi] == a[lo..hi]
  {
    hide BigEndian, Agree;
    forall i | 0 <= i < hi - lo ensures b[lo..hi][i] as int <= a[lo..hi][i] as int + if i == p - lo then 1 else 0 {
      if lo + i < m { AgreeAt(a, 0, b, 0, m, lo + i); }
    }
    FourBytes(b[lo..hi], a[lo..hi], p - lo);
    if hi <= m { AgreeSlice(a, 0, b, 0, m, lo, hi); }
  }

  /** An element that was read is read still, up to where it is completed, and runs past that place if its header does. */
  lemma TlvCompleted(a: Bytes, b: Bytes, m: nat, p: nat, off: nat)
    requires Completes(a, b, m, p) && (off < m ==> DerTlv(a, off).Ok?) && off <= |a|
    ensures DerTlv(b, off).Ok? && (off < m && DerTlv(b, off) != DerTlv(a, off) ==> DerTlv(b, off).value.start > m)
    ensures off < m && DerTlv(a, off).value.start <= m ==> DerTlv(b, off) == DerTlv(a, off)
  {
    hide BigEndian, Agree;
    if off < m { AgreeAt(a, 0, b, 0, m, off); }
    if off + 1 < m {
      AgreeAt(a, 0, b, 0, m, off + 1);
      if b[off + 1] >= 128 { LengthCompleted(a, b, m, p, off + 2, off + 2 + (b[off + 1] - 128)); }
    }
  }

  /** So the elements read before are read again, and those after are short ones. */
  lemma {:induction false} ChildrenCompleted(a: Bytes, b: Bytes, m: nat, p: nat, start: nat, end: nat)
    requires Completes(a, b, m, p) && end <= |a| && (start < m ==> Children(a, start, end).Ok?)
    ensures Children(b, start, end).Ok?
    decreases |b| - start
  {
    hide DerTlv, Agree;
    if start < end {
      TlvCompleted(a, b, m, p, start);
      ChildrenCompleted(a, b, m, p, DerTlv(b, start).value.end, end);
    }
  }

  lemma KidStarts(buf: Bytes, start: nat, end: nat, i: nat)
    requires Children(buf, start, end).Ok? && i < |Children(buf, start, end).value|
    ensures var t := Children(buf, start, end).value[i]; start + 2 <= t.start <= t.end <= |buf|
  {
    hide Children;
    ChildrenFollow(buf, start, end);
    FollowAt(Children(buf, start, end).value, start, end, |buf|, i);
    BeginsAfter(Children(buf, start, end).value, start, end, |buf|, i);
  }

  lemma KidSame(a: Bytes, b: Bytes, m: nat, start: nat, end: nat, i: nat)
    requires Agree(a, 0, b, 0, m) && Children(a, start, end).Ok? && Children(b, start, end).Ok?
    requires i < |Children(a, start, end).value| && Children(a, start, end).value[i].start <= m
    ensures i < |Children(b, start, end).value| && Children(b, start, end).value[i] == Children(a, start, end).value[i]
  {
    hide Children, Agree;
    assert 0 + start == start && 0 + end == end && 0 + m == m;
    KidsAgree(a, 0, b, 0, m, start, end, i);
  }

  lemma CompletesAgree(a: Bytes, b: Bytes, m: nat, p: nat)
    requires Completes(a, b, m, p)
    ensures Agree(a, 0, b, 0, m)
  {}

  /** A child whose header lies before `m` is kept. */
  lemma KidKept(a: Bytes, b: Bytes, m: nat, p: nat, start: nat, end: nat, i: nat)
    requires Completes(a, b, m, p) && end <= |a| && Children(a, start, end).Ok?
    requires i < |Children(a, start, end).value| && Children(a, start, end).value[i].start <= m
    ensures Children(b, start, end).Ok? && i < |Children(b, start, end).value|
    ensures Children(b, start, end).value[i] == Children(a, start, end).value[i]
  {
    hide Children, Agree, Completes;
    ChildrenCompleted(a, b, m, p, start, end);
    CompletesAgree(a, b, m, p);
    KidSame(a, b, m, start, end, i);
  }

  lemma FoundCompleted(a: Bytes, b: Bytes, m: nat, p: nat, t: Tlv)
    requires Completes(a, b, m, p) && t.end <= |a| && FindTst(a, t).Ok? && FindTst(a, t).value.start <= m
    ensures t.start < FindTst(a, t).value.start && FindTst(b, t) == FindTst(a, t)
  {
    hide Children, Agree, Completes;
    var ci := Children(a, t.start, t.end).value;
    KidStarts(a, t.start, t.end, 1);
    var sdl := Children(a, ci[1].start, ci[1].end).value;
    KidStarts(a, ci[1].start, ci[1].end, 0);
    var sdc := Children(a, sdl[0].start, sdl[0].end).value;
    KidStarts(a, sdl[0].start, sdl[0].end, 2);
    var eci := Children(a, sdc[2].start, sdc[2].end).value;
    KidStarts(a, sdc[2].start, sdc[2].end, 1);
    KidStarts(a, eci[1].start, eci[1].end, 0);
    KidKept(a, b, m, p, t.start, t.end, 1);
    KidKept(a, b, m, p, ci[1].start, ci[1].end, 0);
    KidKept(a, b, m, p, sdl[0].start, sdl[0].end, 2);
    KidKept(a, b, m, p, sdc[2].start, sdc[2].end, 1);
    KidKept(a, b, m, p, eci[1].start, eci[1].end, 0);
  }

  lemma StatusCompleted(a: Bytes, b: Bytes, m: nat, p: nat)
    requires Completes(a, b, m, p) && ReadStatus(a).Ok? && |ReadStatus(a).value.1| >= 2 && ReadStatus(a).value.1[1].start <= m
    ensures ReadStatus(a).value.1[1].end <= |a|
    ensures ReadStatus(b).Ok? && |ReadStatus(b).value.1| >= 2 && ReadStatus(b).value.1[1] == ReadStatus(a).value.1[1]
  {
    hide DerTlv, Children, Content, Agree;
    var outer := DerTlv(a, 0).value;
    var kids := Children(a, outer.start, outer.end).value;
    KidStarts(a, outer.start, outer.end, 0);
    KidStarts(a, outer.start, outer.end, 1);
    SecondBegins(a, outer.start, outer.end);
    TlvCompleted(a, b, m, p, 0);
    KidKept(a, b, m, p, outer.start, outer.end, 0);
    KidKept(a, b, m, p, outer.start, outer.end, 1);
    ChildrenCompleted(a, b, m, p, kids[0].start, kids[0].end);
    FirstTag(a, kids[0].start, kids[0].end);
    FirstTag(b, kids[0].start, kids[0].end);
    AgreeAt(a, 0, b, 0, m, kids[0].start);
  }

  lemma SecondBegins(buf: Bytes, start: nat, end: nat)
    requires Children(buf, start, end).Ok? && |Children(buf, start, end).value| >= 2
    ensures Children(buf, start, end).value[0].end + 2 <= Children(buf, start, end).value[1].start
  {
    hide Children;
    ChildrenFollow(buf, start, end);
    FollowAt(Children(buf, start, end).value, start, end, |buf|, 1);
  }

  lemma FirstTag(buf: Bytes, start: nat, end: nat)
    requires Children(buf, start, end).Ok?
    ensures Children(buf, start, end).value == [] <==> start >= end
    ensures start < end ==> start < |buf| && Children(buf, start, end).value[0].tag == buf[start]
  {}

  lemma SecondAt(buf: Bytes, start: nat, end: nat)
    requires Children(buf, start, end).Ok? && Children(buf, start, end).value != []
    requires Children(buf, start, end).value[0].end < end
    ensures |Children(buf, start, end).value| >= 2
    ensures DerTlv(buf, Children(buf, start, end).value[0].end) == Ok(Children(buf, start, end).value[1])
  {
    hide DerTlv;
    var t := DerTlv(buf, start).value;
    assert Children(buf, t.end, end).value[0] == DerTlv(buf, t.end).value;
  }

  /** The second child keeps its tag when that stands before `m`, whatever becomes of its length. */
  lemma SecondCompleted(a: Bytes, b: Bytes, m: nat, p: nat, start: nat, end: nat)
    requires Completes(a, b, m, p) && end <= |a| && Children(a, start, end).Ok? && |Children(a, start, end).value| >= 2
    requires Children(a, start, end).value[0].end < m && Children(a, start, end).value[0].end < end
    ensures Children(b, start, end).Ok? && |Children(b, start, end).value| >= 2
    ensures Children(b, start, end).value[1].tag == Children(a, start, end).value[1].tag
    ensures DerTlv(b, Children(a, start, end).value[0].end) == Ok(Children(b, start, end).value[1])
  {
    hide DerTlv, Children, Agree;
    KidStarts(a, start, end, 0);
    KidKept(a, b, m, p, start, end, 0);
    SecondAt(a, start, end);
    SecondAt(b, start, end);
    AgreeAt(a, 0, b, 0, m, Children(a, start, end).value[0].end);
  }

  /** The TSTInfo is read again when the tag of its hash is kept; the hash is the element that stands there. */
  lemma TstCompleted(a: Bytes, b: Bytes, m: nat, p: nat, off: nat)
    requires Completes(a, b, m, p) && ReadTst(a, off).Ok? && HashTag(a, off) < m
    ensures ReadTst(b, off).Ok? && DerTlv(b, HashTag(a, off)) == Ok(Hash(b, off))
  {
    hide DerTlv, Children, ReadTst, ReadImprint, Parts, ImprintParts, Agree, Completes;
    TstSteps(a, off);
    HashOrder(a, off);
    var tst, parts, mic := DerTlv(a, off).value, Parts(a, off), ImprintParts(a, off);
    TlvCompleted(a, b, m, p, off);
    KidKept(a, b, m, p, tst.start, tst.end, 2);
    var imp, kids := parts[2], Children(b, tst.start, tst.end).value;
    KidStarts(a, tst.start, tst.end, 2);
    SecondCompleted(a, b, m, p, imp.start, imp.end);
    TstAt(b, off, tst, kids);
    ImprintAt(b, imp, Children(b, imp.start, imp.end).value);
    TstSteps(b, off);
  }

  /** The completed response holds a token of the same identity, with the hash that stands where it stood. */
  lemma TokenCompleted(a: Bytes, b: Bytes, m: nat, p: nat)
    requires HasToken(a) && Completes(a, b, m, p)
    requires Signed(a).end <= m && HashTag(a, Signed(a).start) < m
    ensures HasToken(b) && Signed(b) == Signed(a) && Identity(b) == Identity(a)
    ensures DerTlv(b, HashTag(a, Signed(a).start)) == Ok(Hash(b, Signed(a).start))
  {
    hide DerTlv, ReadTst, ReadStatus, FindTst, Agree, Hash, HashTag;
    var kid := ReadStatus(a).value.1[1];
    assert FindTst(a, kid) == Ok(Signed(a));
    KidInside(a);
    FoundCompleted(a, b, m, p, kid);
    StatusCompleted(a, b, m, p);
    TstCompleted(a, b, m, p, Signed(a).start);
    SameIdentity(a, b, m, p, Signed(a));
  }

  lemma KidInside(a: Bytes)
    requires ReadStatus(a).Ok? && |ReadStatus(a).value.1| >= 2
    ensures ReadStatus(a).value.1[1].end <= |a|
  {
    hide DerTlv, Children, Content;
    var outer := DerTlv(a, 0).value;
    KidStarts(a, outer.start, outer.end, 1);
  }

  lemma SameIdentity(a: Bytes, b: Bytes, m: nat, p: nat, t: Tlv)
    requires Completes(a, b, m, p) && t.start <= t.end <= m
    ensures t.end <= |a| && t.end <= |b| && a[t.start..t.end] == b[t.start..t.end]
  {
    AgreeSlice(a, 0, b, 0, m, t.start, t.end);
  }

  lemma HashStands(buf: Bytes, off: nat)
    requires ReadTst(buf, off).Ok?
    ensures DerTlv(buf, HashTag(buf, off)) == Ok(Hash(buf, off))
  {
    hide DerTlv, Children, ReadTst, Parts, ImprintParts;
    TstSteps(buf, off);
    HashOrder(buf, off);
    SecondAt(buf, Parts(buf, off)[2].start, Parts(buf, off)[2].end);
  }

  /** An empty element whose last length byte becomes one holds one byte. */
  lemma EmptyGrows(a: Bytes, b: Bytes, off: nat, t: Tlv)
    requires DerTlv(a, off) == Ok(t) && t.start == t.end
    requires Completes(a, b, t.start - 1, t.start - 1) && b[t.start - 1] == 1
    ensures DerTlv(b, off) == Ok(Tlv(t.tag, t.start, t.start + 1))
  {
    hide Agree;
    var m := t.start - 1;
    AgreeAt(a, 0, b, 0, m, off);
    if off + 1 < m {
      AgreeAt(a, 0, b, 0, m, off + 1);
      AgreeSlice(a, 0, b, 0, m, off + 2, m);
      assert t.start == m + 1;
      LastLengthByte(a, b, off + 2, m);
    }
  }

  lemma LastLengthByte(a: Bytes, b: Bytes, lo: nat, m: nat)
    requires lo <= m < |a| && m < |b| && a[lo..m] == b[lo..m] && BigEndian(a[lo..m + 1]) == 0 && b[m] == 1
    ensures BigEndian(b[lo..m + 1]) == 1
  {
    var x, y := a[lo..m + 1], b[lo..m + 1];
    SliceOfSlice(a, lo, m + 1, 0, m - lo);
    SliceOfSlice(b, lo, m + 1, 0, m - lo);
    assert x[..|x| - 1] == a[lo..m] == b[lo..m] == y[..|y| - 1];
  }

  /** A hash with content that passes the signed bytes: its last byte can be another. */
  lemma LastByteChanged(a: Bytes) returns (b: Bytes)
    requires HasToken(a) && Hash(a, Signed(a).start).end > Signed(a).end
    requires Hash(a, Signed(a).start).start < Hash(a, Signed(a).start).end
    ensures HasToken(b) && Identity(b) == Identity(a) && Facts(b).imprint != Facts(a).imprint && |b| == |a| + ROOM
  {
    hide DerTlv, ReadTst, ParseResponse, HasToken, Facts, Identity, Signed, Hash, HashTag, Agree, Content, Completed, Completes;
    var lo, h, tag := Signed(a).start, Hash(a, Signed(a).start), HashTag(a, Signed(a).start);
    HashOrder(a, lo);
    HashStands(a, lo);
    TstSteps(a, lo);
    var p, m := h.end - 1, if Signed(a).end < h.start then h.start else Signed(a).end;
    var x := if a[p] == 0 then 1 else 0;
    b := Completed(a, m, p, x);
    CompletedCompletes(a, m, p, x);
    TokenCompleted(a, b, m, p);
    TlvCompleted(a, b, m, p, tag);
    TstSteps(b, lo);
    ContentAt(a, h, p);
    ContentAt(b, h, p);
  }

  lemma ContentAt(buf: Bytes, t: Tlv, p: nat)
    requires Inside(buf, t) && t.start <= p < t.end
    ensures |Content(buf, t)| == t.end - t.start && Content(buf, t)[p - t.start] == buf[p]
  {}

  /** An empty one: it can hold a byte. */
  lemma EmptyChanged(a: Bytes) returns (b: Bytes)
    requires HasToken(a) && Hash(a, Signed(a).start).end > Signed(a).end
    requires Hash(a, Signed(a).start).start == Hash(a, Signed(a).start).end
    ensures HasToken(b) && Identity(b) == Identity(a) && Facts(b).imprint != Facts(a).imprint && |b| == |a| + ROOM
  {
    hide DerTlv, ReadTst, ParseResponse, HasToken, Facts, Identity, Signed, Hash, HashTag, Agree, Content, Completes;
    var lo, h, tag := Signed(a).start, Hash(a, Signed(a).start), HashTag(a, Signed(a).start);
    HashOrder(a, lo);
    HashStands(a, lo);
    TstSteps(a, lo);
    var p := h.end - 1;
    b := Completed(a, p, p, 1);
    CompletedCompletes(a, p, p, 1);
    TokenCompleted(a, b, p, p);
    EmptyGrows(a, b, tag, h);
    TstSteps(b, lo);
    ContentLength(a, h);
    ContentLength(b, Hash(b, lo));
  }

  /** A hash that passes the signed bytes: another response has the same identity and another imprint. */
  lemma OtherImprint(a: Bytes) returns (b: Bytes)
    requires HasToken(a) && Hash(a, Signed(a).start).end > Signed(a).end
    ensures HasToken(b) && Identity(b) == Identity(a) && Facts(b).imprint != Facts(a).imprint && |b| == |a| + ROOM
  {
    hide *;
    HashOrder(a, Signed(a).start);
    if Hash(a, Signed(a).start).start < Hash(a, Signed(a).start).end { b := LastByteChanged(a); } else { b := EmptyChanged(a); }
  }

  lemma CompletedCompletes(a: Bytes, m: nat, p: nat, x: Byte)
    requires m <= |a| && x <= 1
    ensures Completes(a, Completed(a, m, p, x), m, p)
  {
    var b := Completed(a, m, p, x);
    assert a[0..0 + m] == a[..m] && b[0..0 + m] == b[..m];
  }

  /** A time that passes them: another response has the same identity and no time. */
  lemma OtherTime(a: Bytes) returns (b: Bytes)
    requires HasToken(a) && Facts(a).genTime.Some? && Time(a, Signed(a).start).end > Signed(a).end
    ensures HasToken(b) && Identity(b) == Identity(a) && Facts(b).genTime != Facts(a).genTime && |b| == |a| + ROOM
  {
    hide DerTlv, ReadTst, ParseResponse, HasToken, Facts, Identity, Signed, Hash, HashTag, Agree, Parts;
    var lo := Signed(a).start;
    var t := Time(a, lo);
    TimeOrder(a, lo);
    var p := t.end - 1;
    b := Completed(a, p, p, 0);
    CompletedCompletes(a, p, p, 0);
    TokenCompleted(a, b, p, p);
    CompletesAgree(a, b, p, p);
    AgreeHere(a, b, p, lo);
    PartAgrees(a, lo, b, lo, p - lo, 4);
    TstSteps(b, lo);
    assert Content(b, t)[p - t.start] == b[p] == 0;
  }

  lemma AgreeHere(a: Bytes, b: Bytes, m: nat, lo: nat)
    requires Agree(a, 0, b, 0, m) && lo <= m
    ensures Agree(a, lo, b, lo, m - lo)
  {
    AgreeSlice(a, 0, b, 0, m, lo, m);
  }

  lemma SameBytes(a: Bytes, b: Bytes)
    requires HasToken(a) && HasToken(b) && Identity(a) == Identity(b)
    ensures Agree(a, Signed(a).start, b, Signed(b).start, Signed(a).end - Signed(a).start)
  {}

  /** The imprint belongs to the identity exactly when the hash ends within the signed bytes: then every response with that
      identity states this imprint, and otherwise one about 16 MiB longer states another. */
  lemma ImprintBelongs(a: Bytes)
    requires HasToken(a)
    ensures (forall b :: HasToken(b) && Identity(b) == Identity(a) ==> Facts(b).imprint == Facts(a).imprint)
       <==> Hash(a, Signed(a).start).end <= Signed(a).end
    ensures Hash(a, Signed(a).start).end > Signed(a).end ==>
              exists b :: |b| == |a| + ROOM && HasToken(b) && Identity(b) == Identity(a) && Facts(b).imprint != Facts(a).imprint
  {
    hide ReadTst, ParseResponse, HasToken, Facts, Identity, Signed, Hash, Agree;
    var lo, hi := Signed(a).start, Signed(a).end;
    if Hash(a, lo).end <= hi {
      forall b | HasToken(b) && Identity(b) == Identity(a) ensures Facts(b).imprint == Facts(a).imprint {
        SameBytes(a, b);
        ImprintAgrees(a, lo, b, Signed(b).start, hi - lo);
      }
    } else {
      var b := OtherImprint(a);
    }
  }

  /** A time that is stated belongs to the identity exactly when it ends within the signed bytes; otherwise a response about
      16 MiB longer states none. */
  lemma TimeBelongs(a: Bytes)
    requires HasToken(a) && Facts(a).genTime.Some?
    ensures (forall b :: HasToken(b) && Identity(b) == Identity(a) ==> Facts(b).genTime == Facts(a).genTime)
       <==> Time(a, Signed(a).start).end <= Signed(a).end
    ensures Time(a, Signed(a).start).end > Signed(a).end ==>
              exists b :: |b| == |a| + ROOM && HasToken(b) && Identity(b) == Identity(a) && Facts(b).genTime != Facts(a).genTime
  {
    hide ReadTst, ParseResponse, HasToken, Facts, Identity, Signed, Time, Agree;
    var lo, hi := Signed(a).start, Signed(a).end;
    if Time(a, lo).end <= hi {
      forall b | HasToken(b) && Identity(b) == Identity(a) ensures Facts(b).genTime == Facts(a).genTime {
        SameBytes(a, b);
        TimeAgrees(a, lo, b, Signed(b).start, hi - lo);
      }
    } else {
      var b := OtherTime(a);
    }
  }

  // ------------------------------------------------------------------ a time that is not stated

  /** What stands in the place of the time is settled by the signed bytes: there is no fifth element and the header of the last
      is within them, or the tag of the fifth is and is another, or the whole fifth is. */
  predicate TimeSettled(buf: Bytes, off: nat, hi: nat)
    requires ReadTst(buf, off).Ok?
  {
    var parts := Parts(buf, off);
    if |parts| < 5 then parts[|parts| - 1].start <= hi
    else parts[3].end < hi && (parts[4].tag != 0x18 || parts[4].end <= hi)
  }

  lemma {:induction false} LastReaches(kids: seq<Tlv>, start: nat, end: nat, size: nat, i: nat)
    requires Follow(kids, start, end, size) && i < |kids|
    ensures i == |kids| - 1 <==> kids[i].end >= end
    decreases |kids|
  {
    if i > 0 { LastReaches(kids[1..], kids[0].end, end, size, i - 1); }
  }

  lemma {:induction false} NextAt(buf: Bytes, start: nat, end: nat, i: nat)
    requires Children(buf, start, end).Ok? && i + 1 < |Children(buf, start, end).value|
    ensures var kids := Children(buf, start, end).value; DerTlv(buf, kids[i].end) == Ok(kids[i + 1])
    decreases i
  {
    hide DerTlv;
    var t := DerTlv(buf, start).value;
    if i > 0 {
      NextAt(buf, t.end, end, i - 1);
    } else {
      assert Children(buf, t.end, end).value[0] == DerTlv(buf, t.end).value;
    }
  }

  /** An element of one TSTInfo whose header agrees is the last of its list together with its like in the other. */
  lemma LastAgrees(a: Bytes, la: nat, b: Bytes, lb: nat, n: nat, i: nat)
    requires Agree(a, la, b, lb, n) && ReadTst(a, la).Ok? && ReadTst(b, lb).Ok?
    requires i < |Parts(a, la)| && Parts(a, la)[i].start <= la + n
    ensures i < |Parts(b, lb)| && Alike(Parts(a, la)[i], la, Parts(b, lb)[i], lb)
    ensures i == |Parts(a, la)| - 1 <==> i == |Parts(b, lb)| - 1
  {
    hide DerTlv, Children, ReadTst, Parts, Agree;
    PartAgrees(a, la, b, lb, n, i);
    TstSteps(a, la);
    TstSteps(b, lb);
    var t, u := DerTlv(a, la).value, DerTlv(b, lb).value;
    ChildrenFollow(a, t.start, t.end);
    ChildrenFollow(b, u.start, u.end);
    FollowAt(Parts(a, la), t.start, t.end, |a|, i);
    BeginsAfter(Parts(a, la), t.start, t.end, |a|, i);
    TlvAgree(a, la, b, lb, n, 0);
    LastReaches(Parts(a, la), t.start, t.end, |a|, i);
    LastReaches(Parts(b, lb), u.start, u.end, |b|, i);
  }

  /** The tag of an element stands where the one before it ends. */
  lemma TagStands(buf: Bytes, off: nat, i: nat)
    requires ReadTst(buf, off).Ok? && i + 1 < |Parts(buf, off)|
    ensures off <= Parts(buf, off)[i].end < |buf| && buf[Parts(buf, off)[i].end] == Parts(buf, off)[i + 1].tag
    ensures Parts(buf, off)[i].start <= Parts(buf, off)[i].end
  {
    hide Children, ReadTst, Parts;
    TstSteps(buf, off);
    var t := DerTlv(buf, off).value;
    NextAt(buf, t.start, t.end, i);
    ChildrenFollow(buf, t.start, t.end);
    FollowAt(Parts(buf, off), t.start, t.end, |buf|, i);
    BeginsAfter(Parts(buf, off), t.start, t.end, |buf|, i);
  }

  lemma NoTimeAgrees(a: Bytes, la: nat, b: Bytes, lb: nat, n: nat)
    requires Agree(a, la, b, lb, n) && ReadTst(a, la).Ok? && ReadTst(b, lb).Ok?
    requires ReadTst(a, la).value.genTime.None? && TimeSettled(a, la, la + n)
    ensures ReadTst(b, lb).value.genTime.None?
  {
    hide DerTlv, Children, ReadTst, Parts, Agree, Content, IsGenTime;
    TstSteps(a, la);
    TstSteps(b, lb);
    var ka, kb := Parts(a, la), Parts(b, lb);
    if |ka| < 5 {
      LastAgrees(a, la, b, lb, n, |ka| - 1);
    } else {
      TagStands(a, la, 3);
      LastAgrees(a, la, b, lb, n, 3);
      TagStands(b, lb, 3);
      AgreeAt(a, la, b, lb, n, ka[3].end - la);
      if ka[4].tag == 0x18 {
        ElementInside(a, la, 4);
        LastAgrees(a, la, b, lb, n, 4);
        ContentAgrees(a, la, b, lb, n, ka[4], kb[4]);
      }
    }
  }

  lemma ElementInside(buf: Bytes, off: nat, i: nat)
    requires ReadTst(buf, off).Ok? && i < |Parts(buf, off)|
    ensures off <= Parts(buf, off)[i].start <= Parts(buf, off)[i].end
  {
    hide Children, ReadTst, Parts;
    TstSteps(buf, off);
    var t := DerTlv(buf, off).value;
    ChildrenFollow(buf, t.start, t.end);
    FollowAt(Parts(buf, off), t.start, t.end, |buf|, i);
    BeginsAfter(Parts(buf, off), t.start, t.end, |buf|, i);
  }

  /** When it is settled, no response with the identity of one that states no time states one. */
  lemma NoTimeBelongs(a: Bytes, b: Bytes)
    requires HasToken(a) && Facts(a).genTime.None? && TimeSettled(a, Signed(a).start, Signed(a).end)
    requires HasToken(b) && Identity(b) == Identity(a)
    ensures Facts(b).genTime.None?
  {
    hide ReadTst, ParseResponse, HasToken, Facts, Identity, Signed, Agree, TimeSettled;
    SameBytes(a, b);
    NoTimeAgrees(a, Signed(a).start, b, Signed(b).start, Signed(a).end - Signed(a).start);
  }
}
