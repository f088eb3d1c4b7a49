/** The DER walk over an RFC 3161 response: which facts a token states, and which bytes are its identity. */
module Der {
  import opened Octets
  import opened Values

  datatype Fault =
    | Truncated | BadLength | Overrun
    | NotAResponse | EmptyResponse | NoStatus | NoSignedData | EmptySignedData | ShortSignedData
    | NoContent | EmptyContent | NotOctets | ShortTstInfo | NoImprint

  datatype Parse<+T> = Ok(value: T) | Err(fault: Fault) {
    predicate IsFailure() { Err? }

    function PropagateFailure<U>(): Parse<U>
      requires Err?
    {
      Err(fault)
    }

    function Extract(): T
      requires Ok?
    {
      value
    }
  }

  /** An element: its tag, and where its content starts and ends. */
  datatype Tlv = Tlv(tag: Byte, start: nat, end: nat)

  function Demand(b: bool, fault: Fault): Parse<()> { if b then Ok(()) else Err(fault) }

  /** int.from_bytes, big-endian. */
  function BigEndian(b: Bytes): nat { if b == [] then 0 else BigEndian(b[..|b| - 1]) * 256 + b[|b| - 1] }

  /** _der_tlv: the element at `off`. */
  function DerTlv(buf: Bytes, off: nat): (r: Parse<Tlv>)
    ensures r.Ok? ==> off + 2 <= r.value.start <= r.value.end <= |buf| && r.value.tag == buf[off]
  {
    if off + 2 > |buf| then Err(Truncated)
    else if buf[off + 1] < 128 then
      if off + 2 + buf[off + 1] > |buf| then Err(Overrun) else Ok(Tlv(buf[off], off + 2, off + 2 + buf[off + 1]))
    else
      var n := buf[off + 1] - 128;
      if n == 0 || n > 4 || off + 2 + n > |buf| then Err(BadLength)
      else
        var len := BigEndian(buf[off + 2..off + 2 + n]);
        if off + 2 + n + len > |buf| then Err(Overrun) else Ok(Tlv(buf[off], off + 2 + n, off + 2 + n + len))
  }

  /** The elements from `start` on, until one ends at `end` or past it. */
  function Children(buf: Bytes, start: nat, end: nat): Parse<seq<Tlv>>
    decreases |buf| - start
  {
    if start >= end then Ok([])
    else
      var t :- DerTlv(buf, start);
      var rest :- Children(buf, t.end, end);
      Ok([t] + rest)
  }

  /** The elements read so far, and those still to come. */
  function After(out: seq<Tlv>, rest: Parse<seq<Tlv>>): Parse<seq<Tlv>> {
    match rest case Err(f) => Err(f) case Ok(kids) => Ok(out + kids)
  }

  /** _der_children: the loop. */
  method DerChildren(buf: Bytes, start: nat, end: nat) returns (r: Parse<seq<Tlv>>)
    ensures r == Children(buf, start, end)
  {
    var out: seq<Tlv>, o := [], start;
    assert Children(buf, start, end).Ok? ==> [] + Children(buf, start, end).value == Children(buf, start, end).value;
    while o < end
      invariant Children(buf, start, end) == After(out, Children(buf, o, end))
      decreases |buf| - o
    {
      var t := DerTlv(buf, o);
      if t.Err? { return Err(t.fault); }
      Advance(buf, o, end, out);
      out, o := out + [t.value], t.value.end;
    }
    assert out + [] == out;
    return Ok(out);
  }

  lemma Advance(buf: Bytes, o: nat, end: nat, out: seq<Tlv>)
    requires o < end && DerTlv(buf, o).Ok?
    ensures After(out, Children(buf, o, end))
         == After(out + [DerTlv(buf, o).value], Children(buf, DerTlv(buf, o).value.end, end))
  {
    var t := DerTlv(buf, o).value;
    var tail := Children(buf, t.end, end);
    if tail.Ok? { assert out + ([t] + tail.value) == (out + [t]) + tail.value; }
  }

  // ------------------------------------------------------------------ where the children lie

  /** Element `i` begins where the one before it ends, the first at `start`. */
  function Begins(kids: seq<Tlv>, start: nat, i: nat): nat
    requires i < |kids|
  {
    if i == 0 then start else kids[i - 1].end
  }

  /** The same, child by child. */
  ghost predicate Follow(kids: seq<Tlv>, start: nat, end: nat, size: nat) {
    if kids == [] then start >= end
    else start < end && start + 2 <= kids[0].start <= kids[0].end <= size && Follow(kids[1..], kids[0].end, end, size)
  }

  lemma {:induction false} ChildrenFollow(buf: Bytes, start: nat, end: nat)
    requires Children(buf, start, end).Ok?
    ensures Follow(Children(buf, start, end).value, start, end, |buf|)
    decreases |buf| - start
  {
    hide DerTlv;
    if start < end {
      var t := DerTlv(buf, start).value;
      ChildrenFollow(buf, t.end, end);
      assert ([t] + Children(buf, t.end, end).value)[1..] == Children(buf, t.end, end).value;
    }
  }

  lemma {:induction false} FollowAt(kids: seq<Tlv>, start: nat, end: nat, size: nat, i: nat)
    requires Follow(kids, start, end, size) && i < |kids|
    ensures Begins(kids, start, i) + 2 <= kids[i].start <= kids[i].end <= size && Begins(kids, start, i) < end
    decreases |kids|
  {
    if i > 0 { FollowAt(kids[1..], kids[0].end, end, size, i - 1); }
  }

  lemma {:induction false} FollowEnds(kids: seq<Tlv>, start: nat, end: nat, size: nat)
    requires Follow(kids, start, end, size)
    ensures if kids == [] then start >= end else kids[|kids| - 1].end >= end
    decreases |kids|
  {
    if kids != [] { FollowEnds(kids[1..], kids[0].end, end, size); }
  }

  /** Nothing is read outside the buffer; the children follow each other without gap from `start`, each at least two bytes
      long, and stop at the first that reaches `end`: only the last one may pass it. */
  lemma ChildrenRun(buf: Bytes, start: nat, end: nat)
    requires Children(buf, start, end).Ok?
    ensures var kids := Children(buf, start, end).value;
            && (forall i :: 0 <= i < |kids| ==>
                  Begins(kids, start, i) + 2 <= kids[i].start <= kids[i].end <= |buf| && Begins(kids, start, i) < end)
            && (if kids == [] then start >= end else kids[|kids| - 1].end >= end)
  {
    hide Children, Follow, Begins;
    var kids := Children(buf, start, end).value;
    ChildrenFollow(buf, start, end);
    FollowEnds(kids, start, end, |buf|);
    forall i | 0 <= i < |kids|
      ensures Begins(kids, start, i) + 2 <= kids[i].start <= kids[i].end <= |buf| && Begins(kids, start, i) < end
    {
      FollowAt(kids, start, end, |buf|, i);
    }
  }

  /** The last child may pass `end`: the overrun is checked against the buffer, and only against it. Whatever starts before
      `end` is taken, however far past it the element reaches. */
  lemma ElementMayPassEnd(buf: Bytes, start: nat, end: nat)
    requires DerTlv(buf, start).Ok? && start < end <= DerTlv(buf, start).value.end
    ensures Children(buf, start, end) == Ok([DerTlv(buf, start).value])
  {
    var t := DerTlv(buf, start).value;
    assert Children(buf, t.end, end) == Ok([]);
    assert [t] + [] == [t];
  }

  /** Two bytes that hold an element ending three bytes past them. */
  lemma LastChildPassesEnd() returns (buf: Bytes, start: nat, end: nat, kid: Tlv)
    ensures Children(buf, start, end) == Ok([kid]) && kid.end == end + 3 <= |buf|
  {
    buf, start, end, kid := [4, 3, 7, 7, 7], 0, 2, Tlv(4, 2, 5);
    assert DerTlv(buf, start) == Ok(kid);
    ElementMayPassEnd(buf, start, end);
  }

  // ------------------------------------------------------------------ the response

  predicate IsDigitByte(b: Byte) { 0x30 <= b <= 0x39 }

  /** YYYYMMDDhhmmss, an optional fraction, Z. */
  predicate IsGenTime(g: Bytes) {
    && |g| >= 15 && (forall i :: 0 <= i < 14 ==> IsDigitByte(g[i])) && g[|g| - 1] == 0x5A
    && (|g| > 15 ==> |g| > 16 && g[14] == 0x2E && forall i :: 15 <= i < |g| - 1 ==> IsDigitByte(g[i]))
  }

  /** messageImprint hash and genTime. */
  datatype TstFacts = TstFacts(imprint: Bytes, genTime: Option<Bytes>)

  function Content(buf: Bytes, t: Tlv): Bytes
    requires t.start <= t.end <= |buf|
  {
    buf[t.start..t.end]
  }

  predicate Inside(buf: Bytes, t: Tlv) { t.start <= t.end <= |buf| }

  /** The hash of a messageImprint: its second element, an OCTET STRING. */
  function ReadImprint(buf: Bytes, t: Tlv): Parse<Bytes> {
    var mic :- Children(buf, t.start, t.end);
    var _ :- Demand(|mic| >= 2 && mic[1].tag == 4, NoImprint);
    ChildrenRun(buf, t.start, t.end);
    Ok(Content(buf, mic[1]))
  }

  function ReadGenTime(buf: Bytes, tstc: seq<Tlv>): Option<Bytes>
    requires |tstc| >= 5 ==> Inside(buf, tstc[4])
  {
    if |tstc| >= 5 && tstc[4].tag == 0x18 && IsGenTime(Content(buf, tstc[4])) then Some(Content(buf, tstc[4])) else None
  }

  /** What the TSTInfo at `off` states. */
  function ReadTst(buf: Bytes, off: nat): Parse<TstFacts> {
    var tst :- DerTlv(buf, off);
    var tstc :- Children(buf, tst.start, tst.end);
    var _ :- Demand(|tstc| >= 3, ShortTstInfo);
    ChildrenRun(buf, tst.start, tst.end);
    var imprint :- ReadImprint(buf, tstc[2]);
    Ok(TstFacts(imprint, ReadGenTime(buf, tstc)))
  }

  /** The elements of the response, and whether its status is granted. */
  function ReadStatus(tsr: Bytes): Parse<(bool, seq<Tlv>)> {
    var outer :- DerTlv(tsr, 0);
    var _ :- Demand(outer.tag == 0x30, NotAResponse);
    var kids :- Children(tsr, outer.start, outer.end);
    var _ :- Demand(kids != [], EmptyResponse);
    var sk :- Children(tsr, kids[0].start, kids[0].end);
    var _ :- Demand(sk != [] && sk[0].tag == 2, NoStatus);
    ChildrenRun(tsr, kids[0].start, kids[0].end);
    var status := Content(tsr, sk[0]);
    Ok((|status| == 1 && status[0] <= 1, kids))
  }

  /** From the ContentInfo to the OCTET STRING that holds the TSTInfo. */
  function FindTst(tsr: Bytes, contentInfo: Tlv): (r: Parse<Tlv>)
    ensures r.Ok? ==> r.value.start <= r.value.end <= |tsr|
  {
    var ci :- Children(tsr, contentInfo.start, contentInfo.end);
    var _ :- Demand(|ci| >= 2, NoSignedData);
    var sdl :- Children(tsr, ci[1].start, ci[1].end);
    var _ :- Demand(sdl != [], EmptySignedData);
    var sdc :- Children(tsr, sdl[0].start, sdl[0].end);
    var _ :- Demand(|sdc| >= 3, ShortSignedData);
    var eci :- Children(tsr, sdc[2].start, sdc[2].end);
    var _ :- Demand(|eci| >= 2, NoContent);
    var wl :- Children(tsr, eci[1].start, eci[1].end);
    var _ :- Demand(wl != [], EmptyContent);
    ChildrenRun(tsr, eci[1].start, eci[1].end);
    var _ :- Demand(wl[0].tag == 4, NotOctets);
    Ok(wl[0])
  }

  /** `token` is None when the response holds a status only. */
  datatype Response = Response(granted: bool, token: Option<(TstFacts, Bytes)>)

  /** parse_timestamp_resp. */
  function ParseResponse(tsr: Bytes): Parse<Response> {
    var (granted, kids) :- ReadStatus(tsr);
    if |kids| < 2 then Ok(Response(granted, None))
    else
      var wrap :- FindTst(tsr, kids[1]);
      var facts :- ReadTst(tsr, wrap.start);
      Ok(Response(granted, Some((facts, Content(tsr, wrap)))))
  }
}
