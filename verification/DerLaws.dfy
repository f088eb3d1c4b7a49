/** The facts of a token belong to the bytes its authority signed: however those are wrapped, imprint, time and identity
    are the same, and a copy never counts as a second anchor. */
module DerLaws {
  import opened Octets
  import opened Values
  import opened Der
  import Verdict

  // ------------------------------------------------------------------ the signed bytes read on their own

  lemma SliceOfSlice<T>(s: seq<T>, lo: nat, hi: nat, a: nat, b: nat)
    requires lo <= hi <= |s| && a <= b <= hi - lo
    ensures s[lo..hi][a..b] == s[lo + a..lo + b]
  {
    var whole, part := s[lo + a..lo + b], s[lo..hi];
    assert |part[a..b]| == |whole|;
    forall i | 0 <= i < b - a ensures part[a..b][i] == whole[i] {
      assert part[a..b][i] == part[a + i] == s[lo + (a + i)] == s[(lo + a) + i];
    }
  }

  function Shifted(t: Tlv, lo: nat): Tlv { Tlv(t.tag, t.start + lo, t.end + lo) }

  function AllShifted(ts: seq<Tlv>, lo: nat): (r: seq<Tlv>)
    ensures |r| == |ts| && forall i :: 0 <= i < |ts| ==> r[i] == Shifted(ts[i], lo)
  {
    seq(|ts|, i requires 0 <= i < |ts| => Shifted(ts[i], lo))
  }

  /** An element found in a part of the buffer is found there in the whole. */
  lemma TlvInPart(buf: Bytes, lo: nat, hi: nat, off: nat)
    requires lo <= hi <= |buf| && DerTlv(buf[lo..hi], off).Ok?
    ensures DerTlv(buf, lo + off) == Ok(Shifted(DerTlv(buf[lo..hi], off).value, lo))
  {
    hide BigEndian;
    var part := buf[lo..hi];
    if part[off + 1] >= 128 {
      var n := part[off + 1] - 128;
      SliceOfSlice(buf, lo, hi, off + 2, off + 2 + n);
      assert lo + (off + 2) == lo + off + 2;
    }
  }

  lemma {:induction false} ChildrenInPart(buf: Bytes, lo: nat, hi: nat, start: nat, end: nat)
    requires lo <= hi <= |buf| && Children(buf[lo..hi], start, end).Ok?
    ensures Children(buf, lo + start, lo + end) == Ok(AllShifted(Children(buf[lo..hi], start, end).value, lo))
    decreases hi - lo - start
  {
    hide DerTlv;
    var part := buf[lo..hi];
    if start < end {
      var t := DerTlv(part, start).value;
      TlvInPart(buf, lo, hi, start);
      ChildrenInPart(buf, lo, hi, t.end, end);
      var rest := Children(part, t.end, end).value;
      assert AllShifted([t] + rest, lo) == [Shifted(t, lo)] + AllShifted(rest, lo);
    }
  }

  lemma ContentInPart(buf: Bytes, lo: nat, hi: nat, t: Tlv)
    requires lo <= hi <= |buf| && t.start <= t.end <= hi - lo
    ensures Content(buf, Shifted(t, lo)) == Content(buf[lo..hi], t)
  {
    SliceOfSlice(buf, lo, hi, t.start, t.end);
  }

  lemma ImprintAt(buf: Bytes, t: Tlv, mic: seq<Tlv>)
    requires Children(buf, t.start, t.end) == Ok(mic)
    ensures |mic| >= 2 ==> Inside(buf, mic[1])
    ensures ReadImprint(buf, t).Ok? <==> |mic| >= 2 && mic[1].tag == 4
    ensures |mic| >= 2 && mic[1].tag == 4 ==> ReadImprint(buf, t) == Ok(Content(buf, mic[1]))
  {
    hide Content, Children;
    ChildrenRun(buf, t.start, t.end);
  }

  lemma ImprintInPart(buf: Bytes, lo: nat, hi: nat, t: Tlv)
    requires lo <= hi <= |buf| && ReadImprint(buf[lo..hi], t).Ok?
    ensures ReadImprint(buf, Shifted(t, lo)) == ReadImprint(buf[lo..hi], t)
  {
    hide Content, ReadImprint;
    assert Children(buf[lo..hi], t.start, t.end).Ok? by { ImprintChildren(buf[lo..hi], t); }
    var mic := Children(buf[lo..hi], t.start, t.end).value;
    hide Children;
    ImprintAt(buf[lo..hi], t, mic);
    ChildrenInPart(buf, lo, hi, t.start, t.end);
    ImprintAt(buf, Shifted(t, lo), AllShifted(mic, lo));
    ContentInPart(buf, lo, hi, mic[1]);
  }

  lemma ImprintChildren(buf: Bytes, t: Tlv)
    requires ReadImprint(buf, t).Ok?
    ensures Children(buf, t.start, t.end).Ok?
  {}

  lemma TstAt(buf: Bytes, off: nat, tst: Tlv, tstc: seq<Tlv>)
    requires DerTlv(buf, off) == Ok(tst) && Children(buf, tst.start, tst.end) == Ok(tstc)
    ensures |tstc| >= 5 ==> Inside(buf, tstc[4])
    ensures ReadTst(buf, off).Ok? <==> |tstc| >= 3 && ReadImprint(buf, tstc[2]).Ok?
    ensures |tstc| >= 3 && ReadImprint(buf, tstc[2]).Ok? ==>
              ReadTst(buf, off) == Ok(TstFacts(ReadImprint(buf, tstc[2]).value, ReadGenTime(buf, tstc)))
  {
    hide DerTlv, Children, ReadImprint, ReadGenTime;
    ChildrenRun(buf, tst.start, tst.end);
  }

  lemma TstChildren(buf: Bytes, off: nat)
    requires ReadTst(buf, off).Ok?
    ensures DerTlv(buf, off).Ok? && Children(buf, DerTlv(buf, off).value.start, DerTlv(buf, off).value.end).Ok?
  {
    hide DerTlv, Children, ReadImprint, ReadGenTime;
  }

  /** A TSTInfo that reads on its own reads the same inside any response. */
  lemma TstInPart(buf: Bytes, lo: nat, hi: nat)
    requires lo <= hi <= |buf| && ReadTst(buf[lo..hi], 0).Ok?
    ensures ReadTst(buf, lo) == ReadTst(buf[lo..hi], 0)
  {
    hide DerTlv, Children, Content, ReadImprint, ReadTst, IsGenTime;
    var w := buf[lo..hi];
    TstChildren(w, 0);
    var tst := DerTlv(w, 0).value;
    var tstc := Children(w, tst.start, tst.end).value;
    TstAt(w, 0, tst, tstc);
    TlvInPart(buf, lo, hi, 0);
    ChildrenInPart(buf, lo, hi, tst.start, tst.end);
    TstAt(buf, lo, Shifted(tst, lo), AllShifted(tstc, lo));
    ImprintInPart(buf, lo, hi, tstc[2]);
    if |tstc| >= 5 { ContentInPart(buf, lo, hi, tstc[4]); }
  }

  /** Two responses with one identity that reads on its own state the same imprint and time, whatever is around it. */
  lemma FactsBelongToIdentity(a: Bytes, b: Bytes)
    requires ParseResponse(a).Ok? && ParseResponse(a).value.token.Some?
    requires ParseResponse(b).Ok? && ParseResponse(b).value.token.Some?
    requires var (fa, wa) := ParseResponse(a).value.token.value;
             var (fb, wb) := ParseResponse(b).value.token.value;
             wa == wb && ReadTst(wa, 0).Ok?
    ensures ParseResponse(a).value.token == ParseResponse(b).value.token
  {
    TokenReadsOnItsOwn(a);
    TokenReadsOnItsOwn(b);
  }

  lemma TokenReadsOnItsOwn(a: Bytes)
    requires ParseResponse(a).Ok? && ParseResponse(a).value.token.Some? && ReadTst(ParseResponse(a).value.token.value.1, 0).Ok?
    ensures ReadTst(ParseResponse(a).value.token.value.1, 0) == Ok(ParseResponse(a).value.token.value.0)
  {
    hide ReadTst, ReadStatus, FindTst;
    var wrap := FindTst(a, ReadStatus(a).value.1[1]).value;
    TstInPart(a, wrap.start, wrap.end);
  }

  // ------------------------------------------------------------------ every wrapping is read

  /** An element as it may be encoded: `width` bytes of length, none for the short form. */
  datatype Item = Item(tag: Byte, width: nat, content: Bytes)

  function Pow256(n: nat): nat { if n == 0 then 1 else 256 * Pow256(n - 1) }

  predicate Encodable(x: Item) {
    if x.width == 0 then |x.content| < 128 else x.width <= 4 && |x.content| < Pow256(x.width)
  }

  /** A length in `n` bytes, big-endian. */
  function LengthBytes(len: nat, n: nat): (r: Bytes)
    requires len < Pow256(n)
    ensures |r| == n && BigEndian(r) == len
  {
    if n == 0 then []
    else
      var front := LengthBytes(len / 256, n - 1);
      var all := front + [len % 256];
      assert all[..|all| - 1] == front;
      all
  }

  function Head(x: Item): Bytes
    requires Encodable(x)
  {
    if x.width == 0 then [x.tag, |x.content|] else [x.tag, 128 + x.width] + LengthBytes(|x.content|, x.width)
  }

  function Enc(x: Item): Bytes
    requires Encodable(x)
  {
    Head(x) + x.content
  }

  predicate AllEncodable(xs: seq<Item>) { forall i :: 0 <= i < |xs| ==> Encodable(xs[i]) }

  function EncAll(xs: seq<Item>): Bytes
    requires AllEncodable(xs)
  {
    if xs == [] then [] else Enc(xs[0]) + EncAll(xs[1..])
  }

  /** The header of an element, read where its encoding stands. */
  lemma HeadReads(buf: Bytes, off: nat, x: Item)
    requires Encodable(x) && off + |Head(x)| + |x.content| <= |buf|
    requires buf[off] == x.tag && buf[off + 1] == (if x.width == 0 then |x.content| else 128 + x.width)
    requires x.width > 0 ==> buf[off + 2..off + 2 + x.width] == LengthBytes(|x.content|, x.width)
    ensures DerTlv(buf, off) == Ok(Tlv(x.tag, off + |Head(x)|, off + |Head(x)| + |x.content|))
  {
    hide BigEndian, Pow256, LengthBytes;
  }

  /** The element whose encoding stands at `off`. */
  lemma TlvReads(buf: Bytes, off: nat, x: Item)
    requires Encodable(x) && off + |Enc(x)| <= |buf| && buf[off..off + |Enc(x)|] == Enc(x)
    ensures DerTlv(buf, off) == Ok(Tlv(x.tag, off + |Head(x)|, off + |Enc(x)|))
    ensures buf[off + |Head(x)|..off + |Enc(x)|] == x.content
  {
    hide BigEndian, Pow256, LengthBytes, DerTlv;
    var e, end := Enc(x), off + |Enc(x)|;
    assert forall i :: 0 <= i < |e| ==> buf[off..end][i] == buf[off + i] == e[i];
    assert e[|Head(x)|..] == x.content;
    assert buf[off + |Head(x)|..end] == buf[off..end][|Head(x)|..];
    assert buf[off] == e[0] && buf[off + 1] == e[1];
    if x.width > 0 {
      assert buf[off + 2..off + 2 + x.width] == buf[off..end][2..2 + x.width];
      assert e[2..2 + x.width] == LengthBytes(|x.content|, x.width);
    }
    HeadReads(buf, off, x);
  }

  /** The elements whose encodings fill a part of the buffer are its children, with their contents. */
  lemma {:induction false} ChildrenRead(buf: Bytes, start: nat, end: nat, xs: seq<Item>)
    requires AllEncodable(xs) && start <= end <= |buf| && buf[start..end] == EncAll(xs)
    ensures Children(buf, start, end).Ok? && |Children(buf, start, end).value| == |xs|
    ensures forall i :: 0 <= i < |xs| ==>
              var t := Children(buf, start, end).value[i];
              t.tag == xs[i].tag && t.start <= t.end <= |buf| && Content(buf, t) == xs[i].content
    decreases |xs|
  {
    hide DerTlv, Enc, Head, Encodable;
    if xs != [] {
      var e, tail := Enc(xs[0]), EncAll(xs[1..]);
      var mid := start + |e|;
      assert buf[start..mid] == buf[start..end][..|e|] == e;
      assert buf[mid..end] == buf[start..end][|e|..] == tail;
      TlvReads(buf, start, xs[0]);
      EncIsLong(xs[0]);
      ChildrenRead(buf, mid, end, xs[1..]);
      var kids, rest := Children(buf, start, end).value, Children(buf, mid, end).value;
      hide Children;
      assert kids[0] == DerTlv(buf, start).value && forall i :: 1 <= i < |xs| ==> kids[i] == rest[i - 1];
    }
  }

  lemma EncIsLong(x: Item)
    requires Encodable(x)
    ensures |Enc(x)| >= |Head(x)| + |x.content| && |Head(x)| >= 2
  {}

  /** The elements around a signed TSTInfo: at each level the lists that may hold anything else beside what leads to it. */
  datatype Wrapping = Wrapping(outerWidth: nat, kids: seq<Item>, status: seq<Item>, info: seq<Item>, signed: seq<Item>,
                               data: seq<Item>, content: seq<Item>, wrap: seq<Item>, trailing: Bytes)

  predicate Holds(x: Item, xs: seq<Item>) { AllEncodable(xs) && x.content == EncAll(xs) }

  /** The lists are nested as a response nests them, down to the bytes `w`. */
  predicate Wraps(p: Wrapping, w: Bytes) {
    && AllEncodable(p.kids) && Encodable(Outer(p))
    && |p.kids| >= 2 && Holds(p.kids[0], p.status) && p.status != [] && p.status[0].tag == 2
    && Holds(p.kids[1], p.info) && |p.info| >= 2
    && Holds(p.info[1], p.signed) && p.signed != []
    && Holds(p.signed[0], p.data) && |p.data| >= 3
    && Holds(p.data[2], p.content) && |p.content| >= 2
    && Holds(p.content[1], p.wrap) && p.wrap != []
    && p.wrap[0].tag == 4 && p.wrap[0].content == w
  }

  function Outer(p: Wrapping): Item
    requires AllEncodable(p.kids)
  {
    Item(0x30, p.outerWidth, EncAll(p.kids))
  }

  /** The response, and whatever follows it. */
  function Wrapped(p: Wrapping, w: Bytes): Bytes
    requires Wraps(p, w)
  {
    Enc(Outer(p)) + p.trailing
  }

  function Granted(status: Bytes): bool { |status| == 1 && status[0] <= 1 }

  lemma StatusReads(p: Wrapping, w: Bytes)
    requires Wraps(p, w)
    ensures var tsr := Wrapped(p, w);
            && ReadStatus(tsr).Ok? && ReadStatus(tsr).value.0 == Granted(p.status[0].content)
            && |ReadStatus(tsr).value.1| == |p.kids|
            && var t := ReadStatus(tsr).value.1[1];
               t.start <= t.end <= |tsr| && Content(tsr, t) == p.kids[1].content
  {
    hide DerTlv, Children, Enc, Head, EncAll, Encodable, AllEncodable;
    var tsr := Wrapped(p, w);
    assert tsr[0..0 + |Enc(Outer(p))|] == Enc(Outer(p));
    TlvReads(tsr, 0, Outer(p));
    var outer := DerTlv(tsr, 0).value;
    ChildrenRead(tsr, outer.start, outer.end, p.kids);
    var kids := Children(tsr, outer.start, outer.end).value;
    ChildrenRead(tsr, kids[0].start, kids[0].end, p.status);
  }

  lemma TstFound(tsr: Bytes, t: Tlv, p: Wrapping, w: Bytes)
    requires Wraps(p, w) && t.start <= t.end <= |tsr| && Content(tsr, t) == p.kids[1].content
    ensures FindTst(tsr, t).Ok? && Content(tsr, FindTst(tsr, t).value) == w
  {
    hide DerTlv, Children, Enc, Head, EncAll, Encodable, AllEncodable;
    ChildrenRead(tsr, t.start, t.end, p.info);
    var ci := Children(tsr, t.start, t.end).value;
    ChildrenRead(tsr, ci[1].start, ci[1].end, p.signed);
    var sdl := Children(tsr, ci[1].start, ci[1].end).value;
    ChildrenRead(tsr, sdl[0].start, sdl[0].end, p.data);
    var sdc := Children(tsr, sdl[0].start, sdl[0].end).value;
    ChildrenRead(tsr, sdc[2].start, sdc[2].end, p.content);
    var eci := Children(tsr, sdc[2].start, sdc[2].end).value;
    ChildrenRead(tsr, eci[1].start, eci[1].end, p.wrap);
  }

  /** However a TSTInfo that reads on its own is wrapped, with longer lengths, extra elements at any level, another status
      or bytes after the response, the response states the same facts and has the same identity. */
  lemma WrappedReads(p: Wrapping, w: Bytes)
    requires Wraps(p, w) && ReadTst(w, 0).Ok?
    ensures ParseResponse(Wrapped(p, w)) == Ok(Response(Granted(p.status[0].content), Some((ReadTst(w, 0).value, w))))
  {
    hide ReadStatus, FindTst, ReadTst, Wrapped, Wraps;
    var tsr := Wrapped(p, w);
    StatusReads(p, w);
    assert |p.kids| >= 2 by { KidsOf(p, w); }
    var t := ReadStatus(tsr).value.1[1];
    TstFound(tsr, t, p, w);
    var wrap := FindTst(tsr, t).value;
    TstInPart(tsr, wrap.start, wrap.end);
  }

  lemma KidsOf(p: Wrapping, w: Bytes)
    requires Wraps(p, w)
    ensures |p.kids| >= 2
  {}

  // ------------------------------------------------------------------ a TSTInfo that reaches past its own bytes

  lemma Short(buf: Bytes, off: nat)
    requires off + 2 <= |buf| && buf[off + 1] < 128 && off + 2 + buf[off + 1] <= |buf|
    ensures DerTlv(buf, off) == Ok(Tlv(buf[off], off + 2, off + 2 + buf[off + 1]))
  {}

  lemma OneChild(buf: Bytes, off: nat, end: nat)
    requires off + 2 <= |buf| && buf[off + 1] < 128 && off + 2 + buf[off + 1] == end <= |buf|
    ensures Children(buf, off, end) == Ok([Tlv(buf[off], off + 2, end)])
  {
    assert [Tlv(buf[off], off + 2, end)] + [] == [Tlv(buf[off], off + 2, end)];
  }

  /** A short element before the children `kids`. */
  lemma NextChild(buf: Bytes, off: nat, end: nat, kids: seq<Tlv>, all: seq<Tlv>)
    requires off + 2 <= |buf| && buf[off + 1] < 128 && off + 2 + buf[off + 1] < end <= |buf|
    requires Children(buf, off + 2 + buf[off + 1], end) == Ok(kids)
    requires |all| == |kids| + 1 && all[0] == Tlv(buf[off], off + 2, off + 2 + buf[off + 1]) && all[1..] == kids
    ensures Children(buf, off, end) == Ok(all)
  {
    assert all == [all[0]] + kids;
  }

  /** A response of 29 bytes whose OCTET STRING holds the two bytes of a header, and after it what that header announces. */
  function OpenToken(t: Bytes): Bytes
    requires |t| < 128
  {
    seq(29, i requires 0 <= i < 29 => OpenByte(i, |t|)) + t
  }

  function OpenByte(i: nat, n: Byte): Byte {
    if i in {0, 2, 7, 13, 19, 27} then 0x30
    else if i == 1 then 27
    else if i == 3 then 3
    else if i in {4, 15, 26} then 2
    else if i == 5 then 1
    else if i == 8 then 20
    else if i in {9, 21} then 6
    else if i in {11, 23} then 0xA0
    else if i == 12 then 16
    else if i == 14 then 14
    else if i == 17 then 0x31
    else if i == 20 then 8
    else if i in {24, 25} then 4
    else if i == 28 then n
    else 0
  }

  lemma OpenBytes(t: Bytes)
    requires |t| < 128
    ensures var b := OpenToken(t);
            && |b| == 29 + |t| && b[0] == 0x30 && b[1] == 27 && b[2] == 0x30 && b[3] == 3 && b[4] == 2 && b[5] == 1
            && b[6] == 0 && b[7] == 0x30 && b[8] == 20 && b[9] == 6 && b[10] == 0 && b[11] == 0xA0 && b[12] == 16
            && b[13] == 0x30 && b[14] == 14 && b[15] == 2 && b[16] == 0 && b[17] == 0x31 && b[18] == 0 && b[19] == 0x30
            && b[20] == 8 && b[21] == 6 && b[22] == 0 && b[23] == 0xA0 && b[24] == 4 && b[25] == 4 && b[26] == 2
            && b[27] == 0x30 && b[28] == |t| && forall j :: 0 <= j < |t| ==> b[29 + j] == t[j]
  {}

  /** The elements of a TSTInfo that state `x`. */
  function Stating(x: Bytes): Bytes
    requires |x| < 118
  {
    [2, 0, 6, 0, 0x30, 4 + |x|, 0x30, 0, 4, |x|] + x
  }

  lemma OpenAt(t: Bytes, j: nat)
    requires |t| < 128 && j < |t|
    ensures OpenToken(t)[29 + j] == t[j]
  {}

  lemma StatingAt(x: Bytes, t: Bytes)
    requires |x| < 118 && Stating(x) <= t
    ensures t[0] == 2 && t[1] == 0 && t[2] == 6 && t[3] == 0 && t[4] == 0x30 && t[5] == 4 + |x| && t[6] == 0x30 && t[7] == 0
    ensures t[8] == 4 && t[9] == |x| && t[10..10 + |x|] == x
  {
    var s := Stating(x);
    assert s == t[..|s|] && s[10..] == x;
    assert t[10..10 + |x|] == t[..|s|][10..];
  }

  /** The imprint of such a TSTInfo, when more elements may follow. */
  lemma OpenImprint(x: Bytes, t: Bytes)
    requires |x| < 118 && |t| < 128 && Stating(x) <= t
    ensures ReadImprint(OpenToken(t), Tlv(0x30, 35, 39 + |x|)) == Ok(x)
    ensures var b := OpenToken(t);
            |b| == 29 + |t| && b[29] == 2 && b[30] == 0 && b[31] == 6 && b[32] == 0 && b[33] == 0x30 && b[34] == 4 + |x|
  {
    hide Children, ReadTst, DerTlv, ReadImprint, OpenToken;
    var b, e := OpenToken(t), 39 + |x|;
    OpenBytes(t);
    StatingAt(x, t);
    forall j | 0 <= j < 10 ensures b[29 + j] == t[j] { OpenAt(t, j); }
    assert b[29 + 0] == 2 && b[29 + 1] == 0 && b[29 + 2] == 6 && b[29 + 3] == 0 && b[29 + 4] == 0x30 && b[29 + 5] == 4 + |x|;
    assert b[29 + 6] == 0x30 && b[29 + 7] == 0 && b[29 + 8] == 4 && b[29 + 9] == |x|;
    var m, h := Tlv(0x30, 37, 37), Tlv(4, 39, e);
    OneChild(b, 37, e);
    NextChild(b, 35, e, [h], [m, h]);
    ImprintAt(b, Tlv(0x30, 35, e), [m, h]);
    forall i | 0 <= i < |x| ensures b[39 + i] == x[i] {
      OpenAt(t, 10 + i);
      assert t[10..10 + |x|][i] == t[10 + i];
    }
    assert Content(b, h) == x;
  }

  lemma OpenTst(x: Bytes)
    requires |x| < 118
    ensures ReadTst(OpenToken(Stating(x)), 27) == Ok(TstFacts(x, None))
  {
    hide Children, ReadTst, DerTlv, ReadImprint, ReadGenTime, OpenToken;
    var b, e := OpenToken(Stating(x)), 39 + |x|;
    OpenBytes(Stating(x));
    OpenImprint(x, Stating(x));
    var p, q := Tlv(6, 33, 33), Tlv(0x30, 35, e);
    OneChild(b, 33, e);
    NextChild(b, 31, e, [q], [p, q]);
    NextChild(b, 29, e, [p, q], [Tlv(2, 31, 31), p, q]);
    Short(b, 27);
    var tstc := [Tlv(2, 31, 31), p, q];
    TstAt(b, 27, Tlv(0x30, 29, e), tstc);
    NoGenTime(b, tstc);
  }

  lemma NoGenTime(b: Bytes, tstc: seq<Tlv>)
    requires |tstc| < 5
    ensures ReadGenTime(b, tstc) == None
  {}

  const MIDNIGHT: Bytes := [0x32, 0x30, 0x32, 0x36, 0x30, 0x31, 0x30, 0x31, 0x30, 0x30, 0x30, 0x30, 0x30, 0x30, 0x5A]

  /** Those elements, a serial number and fifteen bytes that spell a time under this tag. */
  function Dated(tag: Byte): Bytes { Stating([]) + [2, 0, tag, 15] + MIDNIGHT }

  lemma OpenDated(tag: Byte)
    ensures |Dated(tag)| == 29
    ensures ReadTst(OpenToken(Dated(tag)), 27) == Ok(TstFacts([], if tag == 0x18 then Some(MIDNIGHT) else None))
  {
    hide Children, ReadTst, DerTlv, ReadImprint, ReadGenTime, OpenToken;
    var t, b := Dated(tag), OpenToken(Dated(tag));
    OpenBytes(t);
    OpenImprint([], t);
    DatedBytes(tag);
    forall j | 10 <= j < 29 ensures b[29 + j] == t[j] { OpenAt(t, j); }
    assert b[29 + 10] == 2 && b[29 + 11] == 0 && b[29 + 12] == tag && b[29 + 13] == 15;
    var v, p, q, s, g := Tlv(2, 31, 31), Tlv(6, 33, 33), Tlv(0x30, 35, 39), Tlv(2, 41, 41), Tlv(tag, 43, 58);
    OneChild(b, 41, 58);
    NextChild(b, 39, 58, [g], [s, g]);
    NextChild(b, 33, 58, [s, g], [q, s, g]);
    NextChild(b, 31, 58, [q, s, g], [p, q, s, g]);
    NextChild(b, 29, 58, [p, q, s, g], [v, p, q, s, g]);
    Short(b, 27);
    TstAt(b, 27, Tlv(0x30, 29, 58), [v, p, q, s, g]);
    assert Content(b, g) == MIDNIGHT by { forall i | 0 <= i < 15 ensures b[43 + i] == MIDNIGHT[i] { assert b[29 + (14 + i)] == t[14 + i] == t[14..][i]; } }
    DatedTime(b, [v, p, q, s, g]);
  }

  lemma DatedBytes(tag: Byte)
    ensures var t := Dated(tag);
            |t| == 29 && Stating([]) <= t && t[10] == 2 && t[11] == 0 && t[12] == tag && t[13] == 15 && t[14..] == MIDNIGHT
  {
    assert |Stating([])| == 10;
    assert Dated(tag) == Stating([]) + ([2, 0, tag, 15] + MIDNIGHT);
  }

  lemma DatedTime(b: Bytes, kids: seq<Tlv>)
    requires |kids| == 5 && Inside(b, kids[4]) && Content(b, kids[4]) == MIDNIGHT
    ensures ReadGenTime(b, kids) == if kids[4].tag == 0x18 then Some(MIDNIGHT) else None
  {}

  lemma OpenInfo(x: Bytes)
    requires |x| < 128
    ensures Children(OpenToken(x), 9, 29) == Ok([Tlv(6, 11, 11), Tlv(0xA0, 13, 29)])
    ensures Children(OpenToken(x), 13, 29) == Ok([Tlv(0x30, 15, 29)])
  {
    hide Children, DerTlv, OpenToken;
    var b := OpenToken(x);
    OpenBytes(x);
    OneChild(b, 11, 29);
    NextChild(b, 9, 29, [Tlv(0xA0, 13, 29)], [Tlv(6, 11, 11), Tlv(0xA0, 13, 29)]);
    OneChild(b, 13, 29);
  }

  lemma OpenSignedData(x: Bytes)
    requires |x| < 128
    ensures Children(OpenToken(x), 15, 29) == Ok([Tlv(2, 17, 17), Tlv(0x31, 19, 19), Tlv(0x30, 21, 29)])
  {
    hide Children, DerTlv, OpenToken;
    var b := OpenToken(x);
    OpenBytes(x);
    var d, e := Tlv(0x31, 19, 19), Tlv(0x30, 21, 29);
    OneChild(b, 19, 29);
    NextChild(b, 17, 29, [e], [d, e]);
    NextChild(b, 15, 29, [d, e], [Tlv(2, 17, 17), d, e]);
  }

  lemma OpenContent(x: Bytes)
    requires |x| < 128
    ensures Children(OpenToken(x), 21, 29) == Ok([Tlv(6, 23, 23), Tlv(0xA0, 25, 29)])
    ensures Children(OpenToken(x), 25, 29) == Ok([Tlv(4, 27, 29)])
  {
    hide Children, DerTlv, OpenToken;
    var b := OpenToken(x);
    OpenBytes(x);
    OneChild(b, 23, 29);
    NextChild(b, 21, 29, [Tlv(0xA0, 25, 29)], [Tlv(6, 23, 23), Tlv(0xA0, 25, 29)]);
    OneChild(b, 25, 29);
  }

  lemma OpenFound(x: Bytes)
    requires |x| < 128
    ensures FindTst(OpenToken(x), Tlv(0x30, 9, 29)) == Ok(Tlv(4, 27, 29))
  {
    hide Children, DerTlv, OpenToken;
    OpenInfo(x);
    OpenSignedData(x);
    OpenContent(x);
  }

  lemma OpenKids(x: Bytes)
    requires |x| < 128
    ensures DerTlv(OpenToken(x), 0) == Ok(Tlv(0x30, 2, 29))
    ensures Children(OpenToken(x), 2, 29) == Ok([Tlv(0x30, 4, 7), Tlv(0x30, 9, 29)])
    ensures Children(OpenToken(x), 4, 7) == Ok([Tlv(2, 6, 7)])
  {
    hide Children, DerTlv, OpenToken;
    var b := OpenToken(x);
    OpenBytes(x);
    Short(b, 0);
    OneChild(b, 7, 29);
    NextChild(b, 2, 29, [Tlv(0x30, 9, 29)], [Tlv(0x30, 4, 7), Tlv(0x30, 9, 29)]);
    OneChild(b, 4, 7);
  }

  lemma OpenStatus(x: Bytes)
    requires |x| < 128
    ensures ReadStatus(OpenToken(x)) == Ok((true, [Tlv(0x30, 4, 7), Tlv(0x30, 9, 29)]))
  {
    hide Children, DerTlv, Content, OpenToken;
    OpenKids(x);
    StatusByte(x);
  }

  lemma StatusByte(x: Bytes)
    requires |x| < 128
    ensures |OpenToken(x)| == 29 + |x| && Granted(Content(OpenToken(x), Tlv(2, 6, 7)))
  {
    hide OpenToken;
    OpenBytes(x);
  }

  lemma OpenParses(t: Bytes, facts: TstFacts)
    requires |t| < 128 && ReadTst(OpenToken(t), 27) == Ok(facts)
    ensures ParseResponse(OpenToken(t)) == Ok(Response(true, Some((facts, [0x30, |t|]))))
  {
    hide ReadStatus, FindTst, ReadTst, OpenToken;
    OpenStatus(t);
    OpenFound(t);
    OpenBytes(t);
    assert OpenToken(t)[27..29] == [0x30, |t|];
  }

  /** Without it the facts do not belong to the identity: the same two signed bytes, with other bytes after the response,
      state any imprint of that length, one of 32 bytes among them. */
  lemma OpenTokenStatesAnything(x: Bytes)
    requires |x| < 118
    ensures ParseResponse(OpenToken(Stating(x))) == Ok(Response(true, Some((TstFacts(x, None), [0x30, 10 + |x|]))))
    ensures ReadTst([0x30, 10 + |x|], 0).Err?
  {
    hide ReadTst, OpenToken;
    OpenTst(x);
    OpenParses(Stating(x), TstFacts(x, None));
    NotOnItsOwn(10 + |x|);
  }

  /** And a response that states no time has the identity of one that states one. */
  lemma TimeMayAppear()
    ensures ParseResponse(OpenToken(Dated(0x17))) == Ok(Response(true, Some((TstFacts([], None), [0x30, 29]))))
    ensures ParseResponse(OpenToken(Dated(0x18))) == Ok(Response(true, Some((TstFacts([], Some(MIDNIGHT)), [0x30, 29]))))
  {
    hide ReadTst, OpenToken;
    OpenDated(0x17);
    OpenDated(0x18);
    OpenParses(Dated(0x17), TstFacts([], None));
    OpenParses(Dated(0x18), TstFacts([], Some(MIDNIGHT)));
  }

  lemma NotOnItsOwn(n: Byte)
    requires n > 0
    ensures ReadTst([0x30, n], 0).Err?
  {
    var w: Bytes := [0x30, n];
    assert DerTlv(w, 0).Err?;
  }

  // ------------------------------------------------------------------ the count of anchors

  /** What the token check measures of a response; `tsa` is the outcome of the check against the authority's certificate. */
  function Measure(tsr: Bytes, expected: Bytes, tsa: Option<bool>): Verdict.Token {
    var granted := match ReadStatus(tsr) case Ok((g, _)) => Some(g) case Err(_) => None;
    match ParseResponse(tsr)
    case Ok(Response(_, Some((facts, w)))) => Verdict.Token(granted, Some(facts.imprint == expected), tsa, w)
    case _ => Verdict.Token(granted, None, tsa, tsr)
  }

  /** A wrapped copy of an anchor binds the pack digest when its status is granted and the anchor's imprint matches, and it
      never changes the number of anchors, whatever its wrapping and its own outcome. */
  lemma CopyIsNoSecondAnchor(ts: seq<Verdict.Token>, p: Wrapping, q: Wrapping, w: Bytes, expected: Bytes,
                             tsaP: Option<bool>, tsaQ: Option<bool>, policy: Verdict.Policy)
    requires Wraps(p, w) && Wraps(q, w) && ReadTst(w, 0).Ok?
    requires var t := Measure(Wrapped(p, w), expected, tsaP); t in ts && Verdict.Counts(t, policy)
    ensures var copy := Measure(Wrapped(q, w), expected, tsaQ);
            && Verdict.Identities(ts + [copy], policy) == Verdict.Identities(ts, policy)
            && (Verdict.Binds(copy) <==> Granted(q.status[0].content))
  {
    hide ReadTst, Wrapped, Wraps, ReadStatus;
    WrappedReads(p, w);
    WrappedReads(q, w);
    StatusReads(q, w);
    var t, copy := Measure(Wrapped(p, w), expected, tsaP), Measure(Wrapped(q, w), expected, tsaQ);
    assert t.identity == copy.identity == w;
  }
}
