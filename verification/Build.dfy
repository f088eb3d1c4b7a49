/** Building a pack: every artifact is verified, its key and claims are recorded, and nothing is written over a failure. */
module Build {
  import opened Octets
  import opened Values
  import opened CanonicalJson
  import opened Base64
  import opened ClosedObjects
  import Der
  import opened SdJwt
  import opened Pack
  import Bindings

  /** One artifact to seal, and the source of its key. */
  datatype Input = Input(name: string, text: string, source: KeySource)

  /** `now` is the clock; `tsa` and `more` are the time-stamping authorities to ask. */
  datatype Request = Request(inputs: seq<Input>, subject: string, now: string, tsa: Option<string>, more: seq<string>,
                             format: string, scope: string)

  /** What an authority replies to a digest, None when it cannot be asked. */
  type Authority = (Bytes, string) -> Option<Bytes>

  /** A sealed artifact: its entry, and what the bindings are searched in. */
  datatype Sealed = Sealed(entry: Json, art: Bindings.Artifact)

  function Attestation(): Json { Obj(Fill(ATTESTATION, [Some(Bool(true)), Some(Bool(true))])) }

  function EntryJson(name: string, p: Parsed, key: Json, resolved: Json, kb: Kb): Json {
    Obj(Fill(ARTIFACT, [Some(Str(name)), Some(Str(p.compact)), Some(p.header), Some(key), Some(resolved), Some(KbRecord(kb)),
                        Some(Attestation())]))
  }

  /** One turn of the artifact loop: None when the build is refused. */
  function Seal(lib: Library, x: Input): Option<Sealed> {
    match Parse(lib, x.text)
    case None => None
    case Some(p) =>
      if !p.header.Obj? || !p.payload.Obj? || Field(p.header, "crit").Some? then None
      else
        match SnapshotKey(lib, p.header, x.source)
        case None => None
        case Some(key) =>
          var jwk := FieldOr(key, JWK);
          if VerifyEs256(lib, p, jwk) != Some(true) || !Reconciles(lib, p.header, jwk, StrAt(key, PROVENANCE)) then None
          else
            match ResolvedClaims(lib, p)
            case None => None
            case Some(resolved) =>
              match CheckKb(lib, p, resolved)
              case None => None
              case Some(kb) =>
                if KbRefuted(kb) then None
                else Some(Sealed(EntryJson(x.name, p, key, resolved, kb), Bindings.Artifact(x.name, p.compact, resolved)))
  }

  function SealAll(lib: Library, xs: seq<Input>): Option<seq<Sealed>> {
    if xs == [] then Some([])
    else
      match (SealAll(lib, xs[..|xs| - 1]), Seal(lib, xs[|xs| - 1]))
      case (Some(done), Some(s)) => Some(done + [s])
      case _ => None
  }

  predicate NamesGiven(xs: seq<Input>) {
    (forall i :: 0 <= i < |xs| ==> xs[i].name != "") && forall i, j :: 0 <= i < j < |xs| ==> xs[i].name != xs[j].name
  }

  function EntriesOf(ss: seq<Sealed>): (r: seq<Json>)
    ensures |r| == |ss|
  {
    seq(|ss|, i requires 0 <= i < |ss| => ss[i].entry)
  }

  function ArtsOf(ss: seq<Sealed>): (r: seq<Bindings.Artifact>)
    ensures |r| == |ss|
  {
    seq(|ss|, i requires 0 <= i < |ss| => ss[i].art)
  }

  /** The values of a pack in the order of its keys; the last four are what the digest does not cover. */
  function PackValues(req: Request, ss: seq<Sealed>, found: seq<Bindings.Binding>, digest: Option<Json>, timestamp: Option<Json>,
                      anchors: Option<Json>): (vals: seq<Option<Json>>)
    ensures |vals| == |TOP|
  {
    [Some(Str(req.format)), Some(Str(req.subject)), Some(Str(req.now)), Some(Arr(EntriesOf(ss))), Some(Arr(BindingsJson(found))),
     Some(Str(req.scope)), digest, timestamp, None, anchors]
  }

  /** The token of a granted reply for this digest. */
  function Stamp(tsa: Authority, digest: Bytes, url: string): Option<string> {
    match tsa(digest, url)
    case None => None
    case Some(reply) =>
      match Der.ParseResponse(reply)
      case Ok(Response(true, Some((facts, _)))) => if facts.imprint == digest then Some(EncodePadded(reply)) else None
      case _ => None
  }

  function Timestamp(tsa: Authority, digest: Bytes, url: Option<string>): Json {
    match url
    case None => Obj(Fill(TIMESTAMP_BLOCK, [Some(Bool(false)), None, None, None, Some(Str("no TSA provided"))]))
    case Some(u) =>
      match Stamp(tsa, digest, u)
      case Some(tsr) => Obj(Fill(TIMESTAMP_BLOCK, [Some(Bool(true)), Some(Str(tsr)), Some(Str(u)), None, None]))
      case None => Obj(Fill(TIMESTAMP_BLOCK, [Some(Bool(false)), None, Some(Str(u)), None, Some(Str("not stamped"))]))
  }

  function AnchorJson(url: string, tsr: string): Json {
    Obj(Fill(ANCHOR, [Some(Str("rfc3161")), Some(Str(tsr)), Some(Str(url)), None]))
  }

  /** The anchors that could be obtained. */
  function MoreAnchors(tsa: Authority, digest: Bytes, urls: seq<string>): seq<Json> {
    if urls == [] then []
    else
      var u := urls[|urls| - 1];
      MoreAnchors(tsa, digest, urls[..|urls| - 1])
      + (match Stamp(tsa, digest, u) case None => [] case Some(tsr) => [AnchorJson(u, tsr)])
  }

  function AnchorsMember(anchors: seq<Json>): Option<Json> { if anchors == [] then None else Some(Arr(anchors)) }

  /** The pack before the digest: what the digest is over. */
  function Core(req: Request, ss: seq<Sealed>, found: seq<Bindings.Binding>): Json {
    Obj(Fill(TOP, PackValues(req, ss, found, None, None, None)))
  }

  /** The pack written, None when the build is refused. */
  function Built(lib: Library, tsa: Authority, req: Request): Option<Json> {
    match SealAll(lib, req.inputs)
    case None => None
    case Some(ss) =>
      var found := Bindings.AllBindings(lib.sha, ArtsOf(ss), ArtsOf(ss));
      var canonical := Canon(Core(req, ss, found));
      if !NamesGiven(req.inputs) || LoadsStrict(canonical).None? then None
      else
        var digest := lib.sha(canonical);
        Some(Obj(Fill(TOP, PackValues(req, ss, found, Some(Str(Bindings.Hex(digest))), Some(Timestamp(tsa, digest, req.tsa)),
                                      AnchorsMember(MoreAnchors(tsa, digest, req.more))))))
  }

  /** _build_evidence. */
  method BuildEvidence(lib: Library, tsa: Authority, req: Request) returns (pack: Option<Json>)
    ensures pack == Built(lib, tsa, req)
  {
    hide Seal, Fill, Canon;
    if !NamesGiven(req.inputs) { return None; }
    var sealed: seq<Sealed> := [];
    for i := 0 to |req.inputs|
      invariant SealAll(lib, req.inputs[..i]) == Some(sealed)
    {
      assert req.inputs[..i + 1][..i] == req.inputs[..i];
      var s := Seal(lib, req.inputs[i]);
      if s.None? {
        RefusedStays(lib, req.inputs, i + 1);
        return None;
      }
      sealed := sealed + [s.value];
    }
    assert req.inputs[..|req.inputs|] == req.inputs;
    var found := Bindings.FindBindings(lib.sha, ArtsOf(sealed));
    var canonical := Canon(Core(req, sealed, found));
    if LoadsStrict(canonical).None? { return None; }
    var digest := lib.sha(canonical);
    var anchors := CollectAnchors(tsa, digest, req.more);
    return Some(Obj(Fill(TOP, PackValues(req, sealed, found, Some(Str(Bindings.Hex(digest))), Some(Timestamp(tsa, digest, req.tsa)),
                                         AnchorsMember(anchors)))));
  }

  method CollectAnchors(tsa: Authority, digest: Bytes, urls: seq<string>) returns (added: seq<Json>)
    ensures added == MoreAnchors(tsa, digest, urls)
  {
    hide AnchorJson, Stamp;
    added := [];
    for i := 0 to |urls|
      invariant added == MoreAnchors(tsa, digest, urls[..i])
    {
      assert urls[..i + 1][..i] == urls[..i];
      var tsr := Stamp(tsa, digest, urls[i]);
      if tsr.Some? { added := added + [AnchorJson(urls[i], tsr.value)]; }
    }
    assert urls[..|urls|] == urls;
  }

  lemma {:induction false} RefusedStays(lib: Library, xs: seq<Input>, n: nat)
    requires n <= |xs| && SealAll(lib, xs[..n]).None?
    ensures SealAll(lib, xs).None?
    decreases |xs| - n
  {
    hide Seal;
    if n == |xs| {
      assert xs[..n] == xs;
    } else {
      assert xs[..n + 1][..n] == xs[..n];
      RefusedStays(lib, xs, n + 1);
    }
  }
}
