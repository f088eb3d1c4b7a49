/** Exactly which bytes are read as an element, as a list of elements and as a response, and what is measured of them. */
module DerReading {
  import opened Octets
  import opened Values
  import opened Der
  import opened DerLaws
  import Verdict

  // ------------------------------------------------------------------ one element

  /** `t` is the element whose encoding stands at `off`. */
  ghost predicate Encodes(buf: Bytes, off: nat, t: Tlv, x: Item) {
    && Encodable(x) && off + |Enc(x)| <= |buf| && buf[off..off + |Enc(x)|] == Enc(x)
    && t == Tlv(x.tag, off + |Head(x)|, off + |Enc(x)|)
  }

  lemma {:induction false} BigEndianFits(b: Bytes)
    ensures BigEndian(b) < Pow256(|b|)
    decreases |b|
  {
    if b != [] {
      BigEndianFits(b[..|b| - 1]);
      assert Pow256(|b|) == 256 * Pow256(|b| - 1);
    }
  }

  lemma {:induction false} LengthBytesOf(b: Bytes)
    ensures BigEndian(b) < Pow256(|b|) && LengthBytes(BigEndian(b), |b|) == b
    decreases |b|
  {
    BigEndianFits(b);
    if b != [] {
      var front, last := b[..|b| - 1], b[|b| - 1];
      LengthBytesOf(front);
      BigEndianFits(front);
      assert BigEndian(b) / 256 == BigEndian(front) && BigEndian(b) % 256 == last;
      assert b == front + [last];
    }
  }

  /** An element is found exactly where its encoding stands, in the short form or with one to four bytes of length. */
  lemma TlvExactly(buf: Bytes, off: nat, t: Tlv)
    ensures DerTlv(buf, off) == Ok(t) <==> exists x :: Encodes(buf, off, t, x)
  {
    if x :| Encodes(buf, off, t, x) { TlvReads(buf, off, x); }
    if DerTlv(buf, off) == Ok(t) {
      var width := if buf[off + 1] < 128 then 0 else buf[off + 1] - 128;
      var x := Item(t.tag, width, buf[t.start..t.end]);
      ElementEncodes(buf, off, t, width, x);
    }
  }

  lemma ElementEncodes(buf: Bytes, off: nat, t: Tlv, width: nat, x: Item)
    requires DerTlv(buf, off) == Ok(t) && width == if buf[off + 1] < 128 then 0 else buf[off + 1] - 128
    requires x == Item(t.tag, width, buf[t.start..t.end])
    ensures Encodes(buf, off, t, x)
  {
    hide BigEndian, Pow256, LengthBytes;
    if width > 0 {
      var n := buf[off + 2..off + 2 + width];
      LengthBytesOf(n);
      assert buf[off..t.start] == [buf[off], buf[off + 1]] + n;
    } else {
      assert buf[off..t.start] == [buf[off], buf[off + 1]];
    }
    assert Encodable(x) && Head(x) == buf[off..t.start];
    assert buf[off..t.end] == buf[off..t.start] + buf[t.start..t.end];
  }

  // ------------------------------------------------------------------ a list of elements

  /** The elements stand one behind the other from `start`, each begins before `end` and the last reaches it. */
  ghost predicate Row(buf: Bytes, start: nat, end: nat, kids: seq<Tlv>) {
    && (forall i :: 0 <= i < |kids| ==> Begins(kids, start, i) < end && DerTlv(buf, Begins(kids, start, i)) == Ok(kids[i]))
    && (if kids == [] then start else kids[|kids| - 1].end) >= end
  }

  lemma {:induction false} ChildrenExactly(buf: Bytes, start: nat, end: nat, kids: seq<Tlv>)
    ensures Children(buf, start, end) == Ok(kids) <==> Row(buf, start, end, kids)
    decreases |buf| - start
  {
    hide DerTlv;
    if start < end {
      var first := DerTlv(buf, start);
      if Children(buf, start, end) == Ok(kids) {
        assert kids[1..] == Children(buf, first.value.end, end).value;
      }
      if Row(buf, start, end, kids) {
        assert kids != [] && Begins(kids, start, 0) == start;
      }
      if kids != [] && first == Ok(kids[0]) {
        ChildrenExactly(buf, kids[0].end, end, kids[1..]);
        RowTail(buf, start, end, kids);
        assert [kids[0]] + kids[1..] == kids;
      }
    } else if kids != [] {
      assert Begins(kids, start, 0) == start;
    }
  }

  lemma RowTail(buf: Bytes, start: nat, end: nat, kids: seq<Tlv>)
    requires kids != [] && start < end && DerTlv(buf, start) == Ok(kids[0])
    ensures Row(buf, start, end, kids) <==> Row(buf, kids[0].end, end, kids[1..])
  {
    hide DerTlv;
    var tail := kids[1..];
    forall i | 0 <= i < |tail| ensures Begins(tail, kids[0].end, i) == Begins(kids, start, i + 1) {}
    if Row(buf, start, end, kids) {
      forall i | 0 <= i < |tail|
        ensures Begins(tail, kids[0].end, i) < end && DerTlv(buf, Begins(tail, kids[0].end, i)) == Ok(tail[i])
      {
        assert DerTlv(buf, Begins(kids, start, i + 1)) == Ok(kids[i + 1]);
      }
    }
    if Row(buf, kids[0].end, end, tail) {
      forall i | 0 <= i < |kids| ensures Begins(kids, start, i) < end && DerTlv(buf, Begins(kids, start, i)) == Ok(kids[i]) {
        if i > 0 { assert DerTlv(buf, Begins(tail, kids[0].end, i - 1)) == Ok(tail[i - 1]); }
      }
    }
  }

  // ------------------------------------------------------------------ a response

  /** The elements inside an element. */
  ghost predicate Holding(buf: Bytes, t: Tlv, kids: seq<Tlv>) { Children(buf, t.start, t.end) == Ok(kids) }

  /** The status: an INTEGER, granted when it is 0 or 1 in one byte. */
  ghost predicate StatusIs(tsr: Bytes, outer: Tlv, kids: seq<Tlv>, sk: seq<Tlv>, granted: bool) {
    && DerTlv(tsr, 0) == Ok(outer) && outer.tag == 0x30 && Holding(tsr, outer, kids)
    && |kids| >= 1 && Holding(tsr, kids[0], sk) && |sk| >= 1 && sk[0].tag == 0x02
    && sk[0].start <= sk[0].end <= |tsr|
    && (granted <==> tsr[sk[0].start..sk[0].end] in [[0], [1]])
  }

  ghost predicate HasStatus(tsr: Bytes, granted: bool, kids: seq<Tlv>) {
    exists outer, sk :: StatusIs(tsr, outer, kids, sk, granted)
  }

  /** The way from the ContentInfo to the OCTET STRING. */
  ghost predicate LeadsTo(tsr: Bytes, info: Tlv, wrap: Tlv, ci: seq<Tlv>, sdl: seq<Tlv>, sdc: seq<Tlv>, eci: seq<Tlv>, wl: seq<Tlv>) {
    && Holding(tsr, info, ci) && |ci| >= 2 && Holding(tsr, ci[1], sdl)
    && |sdl| >= 1 && Holding(tsr, sdl[0], sdc)
    && |sdc| >= 3 && Holding(tsr, sdc[2], eci)
    && |eci| >= 2 && Holding(tsr, eci[1], wl)
    && |wl| >= 1 && wl[0] == wrap && wrap.tag == 0x04
  }

  ghost predicate HasContent(tsr: Bytes, info: Tlv, wrap: Tlv) {
    exists ci, sdl, sdc, eci, wl :: LeadsTo(tsr, info, wrap, ci, sdl, sdc, eci, wl)
  }

  predicate Digits(b: Bytes) { forall i :: 0 <= i < |b| ==> 0x30 <= b[i] <= 0x39 }

  /** Fourteen digits, perhaps a point and more digits, and Z. */
  ghost predicate SpellsTime(g: Bytes, digits: Bytes, fraction: Bytes) {
    && g == digits + fraction + [0x5A] && |digits| == 14 && Digits(digits)
    && (fraction == [] || (|fraction| >= 2 && fraction[0] == 0x2E && Digits(fraction[1..])))
  }

  lemma TimeIsSpelled(g: Bytes)
    ensures IsGenTime(g) <==> exists digits, fraction :: SpellsTime(g, digits, fraction)
  {
    if IsGenTime(g) {
      var digits, fraction := g[..14], g[14..|g| - 1];
      assert g == digits + fraction + [0x5A];
      assert SpellsTime(g, digits, fraction);
    }
    if digits, fraction :| SpellsTime(g, digits, fraction) {
      forall i | 0 <= i < 14 ensures IsDigitByte(g[i]) { assert g[i] == digits[i]; }
      if fraction != [] {
        assert g[14] == fraction[0];
        forall i | 15 <= i < |g| - 1 ensures IsDigitByte(g[i]) { assert g[i] == fraction[1..][i - 15]; }
      }
    }
  }

  /** What a TSTInfo states: the OCTET STRING of its imprint, and its time when the fifth element is one. */
  ghost predicate Stating(tsr: Bytes, off: nat, facts: TstFacts, tst: Tlv, tstc: seq<Tlv>, mic: seq<Tlv>) {
    && DerTlv(tsr, off) == Ok(tst) && Holding(tsr, tst, tstc)
    && |tstc| >= 3 && Holding(tsr, tstc[2], mic) && |mic| >= 2 && mic[1].tag == 0x04
    && mic[1].start <= mic[1].end <= |tsr| && facts.imprint == tsr[mic[1].start..mic[1].end]
    && (if |tstc| >= 5 && tstc[4].tag == 0x18 && tstc[4].start <= tstc[4].end <= |tsr|
           && exists digits, fraction :: SpellsTime(tsr[tstc[4].start..tstc[4].end], digits, fraction)
        then facts.genTime == Some(tsr[tstc[4].start..tstc[4].end]) else facts.genTime == None)
  }

  ghost predicate States(tsr: Bytes, off: nat, facts: TstFacts) { exists tst, tstc, mic :: Stating(tsr, off, facts, tst, tstc, mic) }

  lemma StatusExactly(tsr: Bytes, granted: bool, kids: seq<Tlv>)
    ensures ReadStatus(tsr) == Ok((granted, kids)) <==> HasStatus(tsr, granted, kids)
  {
    hide DerTlv, Children;
    if ReadStatus(tsr) == Ok((granted, kids)) {
      var outer := DerTlv(tsr, 0).value;
      var sk := Children(tsr, kids[0].start, kids[0].end).value;
      ChildrenRun(tsr, kids[0].start, kids[0].end);
      StatusByteIs(tsr[sk[0].start..sk[0].end]);
      assert StatusIs(tsr, outer, kids, sk, granted);
    }
    if outer: Tlv, sk: seq<Tlv> :| StatusIs(tsr, outer, kids, sk, granted) { StatusByteIs(tsr[sk[0].start..sk[0].end]); }
  }

  lemma StatusByteIs(b: Bytes)
    ensures |b| == 1 && b[0] <= 1 <==> b in [[0], [1]]
  {
    if |b| == 1 && b[0] <= 1 { assert b == [b[0]]; }
  }

  lemma ContentExactly(tsr: Bytes, info: Tlv, wrap: Tlv)
    ensures FindTst(tsr, info) == Ok(wrap) <==> HasContent(tsr, info, wrap)
  {
    hide DerTlv, Children;
    if FindTst(tsr, info) == Ok(wrap) {
      var ci := Children(tsr, info.start, info.end).value;
      var sdl := Children(tsr, ci[1].start, ci[1].end).value;
      var sdc := Children(tsr, sdl[0].start, sdl[0].end).value;
      var eci := Children(tsr, sdc[2].start, sdc[2].end).value;
      var wl := Children(tsr, eci[1].start, eci[1].end).value;
      assert LeadsTo(tsr, info, wrap, ci, sdl, sdc, eci, wl);
    }
  }

  lemma StatesExactly(tsr: Bytes, off: nat, facts: TstFacts)
    ensures ReadTst(tsr, off) == Ok(facts) <==> States(tsr, off, facts)
  {
    hide DerTlv, Children, IsGenTime, SpellsTime, ReadTst, ReadImprint;
    if ReadTst(tsr, off) == Ok(facts) {
      TstChildren(tsr, off);
      var tst := DerTlv(tsr, off).value;
      var tstc := Children(tsr, tst.start, tst.end).value;
      TstAt(tsr, off, tst, tstc);
      ImprintChildren(tsr, tstc[2]);
      var mic := Children(tsr, tstc[2].start, tstc[2].end).value;
      ImprintAt(tsr, tstc[2], mic);
      if |tstc| >= 5 { TimeIsSpelled(Content(tsr, tstc[4])); }
      assert Stating(tsr, off, facts, tst, tstc, mic);
    }
    if tst: Tlv, tstc: seq<Tlv>, mic: seq<Tlv> :| Stating(tsr, off, facts, tst, tstc, mic) {
      TstAt(tsr, off, tst, tstc);
      ImprintAt(tsr, tstc[2], mic);
      if |tstc| >= 5 { TimeIsSpelled(Content(tsr, tstc[4])); }
    }
  }

  /** A response with a token: its status, the facts of its TSTInfo, and the bytes of that. */
  ghost predicate Responds(tsr: Bytes, granted: bool, facts: TstFacts, identity: Bytes) {
    exists kids, wrap :: RespondsBy(tsr, granted, facts, identity, kids, wrap)
  }

  ghost predicate RespondsBy(tsr: Bytes, granted: bool, facts: TstFacts, identity: Bytes, kids: seq<Tlv>, wrap: Tlv) {
    && HasStatus(tsr, granted, kids) && |kids| >= 2 && HasContent(tsr, kids[1], wrap)
    && wrap.start <= wrap.end <= |tsr| && States(tsr, wrap.start, facts) && identity == tsr[wrap.start..wrap.end]
  }

  /** What a response is read as: a status only, or the token it leads to. */
  lemma ResponseExactly(tsr: Bytes, granted: bool, facts: TstFacts, identity: Bytes)
    ensures ParseResponse(tsr) == Ok(Response(granted, None)) <==> exists kids :: HasStatus(tsr, granted, kids) && |kids| == 1
    ensures ParseResponse(tsr) == Ok(Response(granted, Some((facts, identity)))) <==> Responds(tsr, granted, facts, identity)
  {
    hide ReadStatus, FindTst, ReadTst, HasStatus, HasContent, States;
    forall g, kids ensures ReadStatus(tsr) == Ok((g, kids)) <==> HasStatus(tsr, g, kids) { StatusExactly(tsr, g, kids); }
    if ReadStatus(tsr).Ok? {
      var (g, kids) := ReadStatus(tsr).value;
      assert HasStatus(tsr, g, kids);
      assert |kids| >= 1 by { StatusHasOne(tsr, g, kids); }
      if |kids| >= 2 {
        forall wrap ensures FindTst(tsr, kids[1]) == Ok(wrap) <==> HasContent(tsr, kids[1], wrap) { ContentExactly(tsr, kids[1], wrap); }
        if FindTst(tsr, kids[1]).Ok? {
          var wrap := FindTst(tsr, kids[1]).value;
          StatesExactly(tsr, wrap.start, facts);
          if ParseResponse(tsr) == Ok(Response(granted, Some((facts, identity)))) {
            assert RespondsBy(tsr, granted, facts, identity, kids, wrap);
          }
        }
      }
    }
    if kids: seq<Tlv>, wrap: Tlv :| RespondsBy(tsr, granted, facts, identity, kids, wrap) { StatesExactly(tsr, wrap.start, facts); }
  }

  lemma StatusHasOne(tsr: Bytes, granted: bool, kids: seq<Tlv>)
    requires HasStatus(tsr, granted, kids)
    ensures |kids| >= 1
  {}

  /** What is measured of a token: its status when it has one, whether it states this digest or another one, and the identity
      of its TSTInfo, its own bytes without one. */
  lemma MeasuredExactly(tsr: Bytes, expected: Bytes, tsa: Option<bool>)
    ensures var t := Measure(tsr, expected, tsa);
            && (forall g :: t.granted == Some(g) <==> exists kids :: HasStatus(tsr, g, kids))
            && (t.imprintOk == Some(true) <==> exists g, f, w :: Responds(tsr, g, f, w) && f.imprint == expected)
            && (t.imprintOk == Some(false) <==> exists g, f, w :: Responds(tsr, g, f, w) && f.imprint != expected)
            && t.tsaVerified == tsa
            && (forall g, f, w :: Responds(tsr, g, f, w) ==> t.identity == w)
            && ((forall g, f, w :: !Responds(tsr, g, f, w)) ==> t.identity == tsr)
  {
    hide ReadStatus, ParseResponse, HasStatus, Responds;
    forall g, kids ensures ReadStatus(tsr) == Ok((g, kids)) <==> HasStatus(tsr, g, kids) { StatusExactly(tsr, g, kids); }
    forall g, f, w ensures ParseResponse(tsr) == Ok(Response(g, Some((f, w)))) <==> Responds(tsr, g, f, w) {
      ResponseExactly(tsr, g, f, w);
    }
  }
}
