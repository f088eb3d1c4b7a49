/** What concurrent stamping does to a verified pack: it stays admitted, and every verdict that was valid stays valid. */
module StampLaws {
  import opened Octets
  import opened Values
  import opened ClosedObjects
  import opened SdJwt
  import opened Pack
  import Build
  import BuildLaws
  import ProducerBlock
  import Stamp
  import Verdict

  // ------------------------------------------------------------------ the file as a pack

  function AnchorsMember(p: Stamp.Pack): seq<Member> {
    match p.anchors case None => [] case Some(a) => [Member(ANCHORS, Arr(a))]
  }

  /** The pack a file holds; in which place its anchors stand does not matter to verify. */
  function FileJson(p: Stamp.Pack): (ev: Json)
    requires p.rest.Obj?
    ensures ev.Obj?
  {
    Obj(p.rest.members + AnchorsMember(p))
  }

  predicate IsFile(p: Stamp.Pack) { p.rest.Obj? && !Has(p.rest.members, ANCHORS) }

  lemma {:induction false} LookupLast(ms: seq<Member>, m: Member, k: string)
    ensures Lookup(ms + [m], k) == if Has(ms, k) then Lookup(ms, k) else if m.key == k then Some(m.val) else None
    decreases |ms|
  {
    if ms == [] {
      assert ms + [m] == [m] && [m][1..] == [];
    } else {
      assert (ms + [m])[0] == ms[0] && (ms + [m])[1..] == ms[1..] + [m];
      LookupLast(ms[1..], m, k);
    }
  }

  lemma FileFields(p: Stamp.Pack)
    requires IsFile(p)
    ensures forall k :: k != ANCHORS ==> Field(FileJson(p), k) == Field(p.rest, k)
    ensures Field(FileJson(p), ANCHORS) == match p.anchors case None => None case Some(a) => Some(Arr(a))
  {
    if p.anchors.Some? {
      forall k ensures Field(FileJson(p), k) == if k == ANCHORS then Some(Arr(p.anchors.value)) else Field(p.rest, k) {
        LookupLast(p.rest.members, Member(ANCHORS, Arr(p.anchors.value)), k);
      }
    } else {
      assert p.rest.members + [] == p.rest.members;
    }
  }

  lemma {:induction false} KeptLast(ms: seq<Member>, m: Member)
    requires m.key in EXCLUDED
    ensures Kept(ms + [m]) == Kept(ms)
    decreases |ms|
  {
    if ms == [] {
      assert ms + [m] == [m] && [m][1..] == [];
    } else {
      assert (ms + [m])[0] == ms[0] && (ms + [m])[1..] == ms[1..] + [m];
      KeptLast(ms[1..], m);
    }
  }

  /** The digest is over what no stamper touches. */
  lemma DigestOfRest(lib: Library, p: Stamp.Pack)
    requires IsFile(p)
    ensures Recompute(lib, FileJson(p)) == Recompute(lib, p.rest)
  {
    if p.anchors.Some? {
      KeptLast(p.rest.members, Member(ANCHORS, Arr(p.anchors.value)));
    } else {
      assert p.rest.members + [] == p.rest.members;
    }
  }

  // ------------------------------------------------------------------ anchors that were obtained

  /** An entry made of a reply the stamper accepted for this digest. */
  ghost predicate Genuine(tsa: Build.Authority, digest: Bytes, a: Json) {
    exists url :: Build.Stamp(tsa, digest, url).Some? && a == Build.AnchorJson(url, Build.Stamp(tsa, digest, url).value)
  }

  ghost predicate AllGenuine(tsa: Build.Authority, digest: Bytes, added: seq<Json>) {
    forall i :: 0 <= i < |added| ==> Genuine(tsa, digest, added[i])
  }

  lemma GenuineBinds(tsa: Build.Authority, digest: Bytes, a: Json)
    requires Genuine(tsa, digest, a)
    ensures Closed(a, ANCHOR) && Verdict.Binds(TokenOf(StrAt(a, TSR), digest))
  {
    hide Build.Stamp, Build.AnchorJson, Closed, TokenOf, Verdict.Binds;
    var url :| Build.Stamp(tsa, digest, url).Some? && a == Build.AnchorJson(url, Build.Stamp(tsa, digest, url).value);
    BuildLaws.AnchorHolds(url, Build.Stamp(tsa, digest, url).value);
    BuildLaws.StampBinds(tsa, digest, url);
  }

  /** The pack with more anchors. */
  function Anchored(p: Stamp.Pack, added: seq<Json>): (q: Stamp.Pack)
    ensures q.rest == p.rest
  {
    if added == [] then p else Stamp.Pack(p.rest, Some(Stamp.AnchorsOf(p) + added))
  }

  lemma AnchoredIsClosed(p: Stamp.Pack, added: seq<Json>)
    requires IsFile(p) && Closed(FileJson(p), TOP)
    ensures Closed(FileJson(Anchored(p, added)), TOP)
  {
    hide Knows, KeyOk, FileJson, Field, NoneUnknown;
    if added != [] {
      FileFields(p);
      FileFields(Anchored(p, added));
      TopKnowsAnchors();
      ClosedWithAnchors(FileJson(p), FileJson(Anchored(p, added)), TOP);
    }
  }

  lemma ClosedWithAnchors(a: Json, b: Json, schema: Schema)
    requires a.Obj? && b.Obj? && Closed(a, schema) && Knows(schema, ANCHORS)
    requires forall i :: 0 <= i < |schema| && schema[i].name == ANCHORS ==> schema[i].kind == SomeList
    requires forall k :: k != ANCHORS ==> Field(a, k) == Field(b, k)
    requires Field(b, ANCHORS).Some? && IsOf(SomeList, Field(b, ANCHORS).value)
    ensures Closed(b, schema)
  {
    hide Knows, KeyOk, Field, NoneUnknown, IsOf;
    UnknownIsByField(a, schema);
    UnknownIsByField(b, schema);
    forall i | 0 <= i < |schema| ensures KeyOk(b, schema[i]) { AnchoredKey(a, b, schema[i]); }
  }

  lemma TopKnowsAnchors()
    ensures Knows(TOP, ANCHORS) && TOP[9] == Key(ANCHORS, SomeList, false)
    ensures forall i :: 0 <= i < |TOP| && TOP[i].name == ANCHORS ==> TOP[i].kind == SomeList
  {
    assert TOP[9].name == ANCHORS;
  }

  lemma AnchoredKey(a: Json, b: Json, key: Key)
    requires KeyOk(a, key) && (key.name != ANCHORS ==> Field(a, key.name) == Field(b, key.name))
    requires key.name == ANCHORS ==> key.kind == SomeList
    requires Field(b, ANCHORS).Some? && IsOf(SomeList, Field(b, ANCHORS).value)
    ensures KeyOk(b, key)
  {}

  lemma AnchoredFields(p: Stamp.Pack, added: seq<Json>)
    requires IsFile(p)
    ensures forall k :: k != ANCHORS ==> Field(FileJson(Anchored(p, added)), k) == Field(FileJson(p), k)
    ensures ListAt(FileJson(p), ANCHORS) == Stamp.AnchorsOf(p)
    ensures ListAt(FileJson(Anchored(p, added)), ANCHORS) == Stamp.AnchorsOf(p) + added
  {
    hide FileJson;
    FileFields(p);
    FileFields(Anchored(p, added));
    assert Stamp.AnchorsOf(p) + [] == Stamp.AnchorsOf(p);
  }

  /** Anchors that were obtained for its digest keep a pack admitted. */
  lemma AnchoredIsAdmitted(lib: Library, tsa: Build.Authority, format: string, scope: string, p: Stamp.Pack, added: seq<Json>)
    requires IsFile(p) && Admitted(lib, format, scope, FileJson(p))
    requires AllGenuine(tsa, Recompute(lib, p.rest), added)
    ensures Admitted(lib, format, scope, FileJson(Anchored(p, added)))
  {
    hide Closed, FileJson, Anchored, Field, NamesOk, EntryKnown, NoneUnknown, OptionClosed, Genuine;
    var a, b := FileJson(p), FileJson(Anchored(p, added));
    AnchoredFields(p, added);
    AnchoredIsClosed(p, added);
    forall i | 0 <= i < |ListAt(b, ANCHORS)| ensures Closed(ListAt(b, ANCHORS)[i], ANCHOR) {
      var n := |Stamp.AnchorsOf(p)|;
      if i < n {
        assert ListAt(b, ANCHORS)[i] == ListAt(a, ANCHORS)[i];
      } else {
        assert ListAt(b, ANCHORS)[i] == added[i - n];
        GenuineBinds(tsa, Recompute(lib, p.rest), added[i - n]);
      }
    }
    NamesDiffer();
  }

  lemma NamesDiffer()
    ensures ANCHORS !in [FORMAT, SUBJECT, CREATED, ARTIFACTS, BINDINGS, SCOPE, DIGEST, TIMESTAMP, SIGNATURES]
  {}

  /** They add tokens that bind, and change no other fact. */
  lemma AnchoredFacts(lib: Library, tsa: Build.Authority, verify: ProducerBlock.Verifier, p: Stamp.Pack, added: seq<Json>)
    requires IsFile(p) && AllGenuine(tsa, Recompute(lib, p.rest), added)
    ensures var f, g := FactsOf(lib, verify, FileJson(p)), FactsOf(lib, verify, FileJson(Anchored(p, added)));
            var tokens := AnchorTokens(added, Recompute(lib, p.rest));
            && g == f.(anchors := f.anchors + tokens)
            && forall i :: 0 <= i < |tokens| ==> Verdict.Binds(tokens[i])
  {
    hide FileJson, Field, Genuine, TokenOf, Verdict.Binds, BlockOf, Results, BindingsMatch, Recompute;
    var e := Recompute(lib, p.rest);
    AnchoredFields(p, added);
    DigestOfRest(lib, p);
    DigestOfRest(lib, Anchored(p, added));
    NamesDiffer();
    var first := Stamp.AnchorsOf(p);
    assert AnchorTokens(first + added, e) == AnchorTokens(first, e) + AnchorTokens(added, e);
    forall i | 0 <= i < |added| ensures Verdict.Binds(AnchorTokens(added, e)[i]) { GenuineBinds(tsa, e, added[i]); }
  }

  // ------------------------------------------------------------------ the verdict with more tokens

  lemma ProducerIsOne(f: Verdict.Facts, p: Verdict.Policy, v: Option<ProducerBlock.BlockVerdict>, w: Option<ProducerBlock.BlockVerdict>)
    requires Verdict.ProducerOf(f, p, v) && Verdict.ProducerOf(f, p, w)
    ensures v == w
  {}

  lemma MoreIdentities(f: Verdict.Facts, g: Verdict.Facts, p: Verdict.Policy, tokens: seq<Verdict.Token>)
    requires g == f.(anchors := f.anchors + tokens)
    ensures |Verdict.Identities(Verdict.ClaimedTokens(f), p)| <= |Verdict.Identities(Verdict.ClaimedTokens(g), p)|
  {
    var a, b := Verdict.Identities(Verdict.ClaimedTokens(f), p), Verdict.Identities(Verdict.ClaimedTokens(g), p);
    assert Verdict.ClaimedTokens(g) == Verdict.ClaimedTokens(f) + tokens;
    Subset(a, b);
  }

  lemma Subset<T>(a: set<T>, b: set<T>)
    requires a <= b
    ensures |a| <= |b|
  {
    assert b == a + (b - a);
  }

  /** More tokens that bind: nothing good becomes bad, the count does not fall, and under every policy a valid verdict stays
      valid. */
  lemma MoreTokens(f: Verdict.Facts, g: Verdict.Facts, p: Verdict.Policy, tokens: seq<Verdict.Token>, r: Verdict.Receipt,
                   s: Verdict.Receipt)
    requires g == f.(anchors := f.anchors + tokens) && forall i :: 0 <= i < |tokens| ==> Verdict.Binds(tokens[i])
    requires Verdict.Reports(r, f, p) && Verdict.Reports(s, g, p)
    ensures s.anchorsVerified >= r.anchorsVerified && s.producer == r.producer
    ensures Verdict.AllGood(g, p, s.producer) <==> Verdict.AllGood(f, p, r.producer)
    ensures r.valid ==> s.valid
  {
    hide Verdict.StatesOf, Verdict.Identities, Verdict.ProducerOf, Verdict.Binds, Verdict.ClaimedTokens, Verdict.UnmetTrust;
    assert Verdict.ProducerOf(f, p, s.producer) by { SameProducer(f, g, p, s.producer); }
    ProducerIsOne(f, p, r.producer, s.producer);
    MoreIdentities(f, g, p, tokens);
    assert forall i :: 0 <= i < |f.anchors| ==> g.anchors[i] == f.anchors[i];
    assert forall i :: 0 <= i < |tokens| ==> g.anchors[|f.anchors| + i] == tokens[i];
  }

  lemma SameProducer(f: Verdict.Facts, g: Verdict.Facts, p: Verdict.Policy, v: Option<ProducerBlock.BlockVerdict>)
    requires g == f.(anchors := g.anchors) && Verdict.ProducerOf(g, p, v)
    ensures Verdict.ProducerOf(f, p, v)
  {}

  // ------------------------------------------------------------------ runs

  ghost predicate Obtains(tsa: Build.Authority, digest: Bytes, actions: seq<Stamp.Action>) {
    forall i :: 0 <= i < |actions| && actions[i].Obtain? ==> Genuine(tsa, digest, actions[i].anchor)
  }

  /** What a stamper holds on to was obtained. */
  ghost predicate HoldsGenuine(tsa: Build.Authority, digest: Bytes, stage: Stamp.Stage) {
    (stage.Obtained? || stage.Written?) ==> Genuine(tsa, digest, stage.anchor)
  }

  ghost predicate GenuineSystem(tsa: Build.Authority, digest: Bytes, s: Stamp.System) {
    && (forall k :: 0 <= k < |s.log| ==> Genuine(tsa, digest, s.log[k].anchor))
    && forall pid :: pid in s.stages ==> HoldsGenuine(tsa, digest, s.stages[pid])
  }

  lemma {:induction false} RunIsGenuine(tsa: Build.Authority, digest: Bytes, c: Stamp.Checks, initial: Stamp.Pack,
                                        actions: seq<Stamp.Action>)
    requires Obtains(tsa, digest, actions)
    ensures var r := Stamp.Run(c, true, Stamp.Start(initial), actions); r.Some? ==> GenuineSystem(tsa, digest, r.value)
    decreases |actions|
  {
    hide Genuine, GenuineSystem;
    if actions == [] {
      assert GenuineSystem(tsa, digest, Stamp.Start(initial)) by { StartIsGenuine(tsa, digest, initial); }
    } else {
      var n := |actions| - 1;
      RunIsGenuine(tsa, digest, c, initial, actions[..n]);
      var r := Stamp.Run(c, true, Stamp.Start(initial), actions[..n]);
      if r.Some? && Stamp.Step(c, true, r.value, actions[n]).Some? { StepIsGenuine(tsa, digest, c, r.value, actions[n]); }
    }
  }

  lemma StartIsGenuine(tsa: Build.Authority, digest: Bytes, initial: Stamp.Pack)
    ensures GenuineSystem(tsa, digest, Stamp.Start(initial))
  {}

  lemma StepIsGenuine(tsa: Build.Authority, digest: Bytes, c: Stamp.Checks, s: Stamp.System, a: Stamp.Action)
    requires GenuineSystem(tsa, digest, s) && Stamp.Step(c, true, s, a).Some?
    requires a.Obtain? ==> Genuine(tsa, digest, a.anchor)
    ensures GenuineSystem(tsa, digest, Stamp.Step(c, true, s, a).value)
  {
    hide Genuine;
    var t := Stamp.Step(c, true, s, a).value;
    assert a.pid in s.stages ==> HoldsGenuine(tsa, digest, s.stages[a.pid]);
    assert forall pid :: pid in s.stages && pid != a.pid ==> t.stages[pid] == s.stages[pid];
  }

  lemma {:induction false} LoggedGenuine(tsa: Build.Authority, digest: Bytes, log: seq<Stamp.Entry>)
    requires forall k :: 0 <= k < |log| ==> Genuine(tsa, digest, log[k].anchor)
    ensures AllGenuine(tsa, digest, Stamp.Logged(log))
    decreases |log|
  {
    hide Genuine;
    if log != [] { LoggedGenuine(tsa, digest, log[..|log| - 1]); }
  }

  /** Whatever any number of stampers do to a verified pack, and whatever fails, as long as each appends what an authority
      granted it for the digest: the file is admitted, no count of anchors has fallen, and every verdict that was valid, under
      any policy, is valid still. */
  lemma StampedStaysValid(lib: Library, tsa: Build.Authority, format: string, scope: string, verify: ProducerBlock.Verifier,
                          c: Stamp.Checks, initial: Stamp.Pack, actions: seq<Stamp.Action>)
    requires IsFile(initial) && Admitted(lib, format, scope, FileJson(initial))
    requires Stamp.Run(c, true, Stamp.Start(initial), actions).Some? && Obtains(tsa, Recompute(lib, initial.rest), actions)
    ensures var file := Stamp.Run(c, true, Stamp.Start(initial), actions).value.file;
            && IsFile(file) && Admitted(lib, format, scope, FileJson(file))
            && forall p, r, s :: Verdict.Reports(r, FactsOf(lib, verify, FileJson(initial)), p)
                                 && Verdict.Reports(s, FactsOf(lib, verify, FileJson(file)), p) ==>
                 s.anchorsVerified >= r.anchorsVerified && (r.valid ==> s.valid)
  {
    hide Genuine, Admitted, FactsOf, FileJson, Verdict.Reports, Recompute, Stamp.Run, AnchorTokens;
    var system := Stamp.Run(c, true, Stamp.Start(initial), actions).value;
    var digest := Recompute(lib, initial.rest);
    Stamp.RunsKeep(c, initial, actions);
    RunIsGenuine(tsa, digest, c, initial, actions);
    var added := Stamp.Logged(system.log);
    LoggedGenuine(tsa, digest, system.log);
    assert system.file == Anchored(initial, added);
    AnchoredIsAdmitted(lib, tsa, format, scope, initial, added);
    AnchoredFacts(lib, tsa, verify, initial, added);
    var f, g := FactsOf(lib, verify, FileJson(initial)), FactsOf(lib, verify, FileJson(system.file));
    forall p, r, s | Verdict.Reports(r, f, p) && Verdict.Reports(s, g, p)
      ensures s.anchorsVerified >= r.anchorsVerified && (r.valid ==> s.valid)
    {
      MoreTokens(f, g, p, AnchorTokens(added, digest), r, s);
    }
  }
}
