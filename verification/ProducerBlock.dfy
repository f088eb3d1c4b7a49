/** The producer signature block: every entry checked, fail-closed, with an optional pinned key set. */
module ProducerBlock {
  import opened Values

  /** The signature check of one entry: algorithm, public key, signature to a verdict, None when the class is unknown or
      its backend is missing. The message is fixed by the caller. */
  type Verifier = (string, string, string) -> Option<bool>

  datatype Status = PASS | FAIL | SKIP

  /** A row of `results`. */
  datatype Row = Row(alg: Option<string>, status: Status, postQuantum: bool, keyTrusted: Option<bool>)

  /** The keys a relying party pins for one algorithm: one key or a list. */
  datatype Pinned = One(key: string) | Many(keys: seq<string>)
  type TrustSet = map<string, Pinned>

  datatype BlockVerdict = BlockVerdict(ok: bool, incomplete: bool, pqProtected: bool, trusted: Option<bool>,
                                       rows: seq<Row>, schemeOk: bool)

  predicate PostQuantum(alg: string) { alg == "ml-dsa-65" }
  predicate Classical(alg: string) { alg == "ed25519" || alg == "ecdsa-p256" }

  const ENTRY_KEYS: set<string> := {"sig_alg", "public_key_b64", "signature_b64", "post_quantum"}

  function KeySet(ms: seq<Member>): set<string> { set m | m in ms :: m.key }

  predicate IsStr(v: Option<Json>) { v.Some? && v.value.Str? }

  /** The closed shape of an entry whose `sig_alg` is `alg`. */
  predicate ClosedEntry(ms: seq<Member>, alg: string) {
    KeySet(ms) == ENTRY_KEYS && IsStr(Lookup(ms, "public_key_b64")) && IsStr(Lookup(ms, "signature_b64")) &&
    Lookup(ms, "post_quantum") == Some(Bool(PostQuantum(alg)))
  }

  predicate KeyAllowed(trusted: TrustSet, alg: string, key: string) {
    alg in trusted && match trusted[alg] case One(k) => k == key case Many(ks) => key in ks
  }

  /** What one entry comes to. */
  function RowOf(entry: Json, verify: Verifier, trusted: Option<TrustSet>): Row {
    if !entry.Obj? then Row(None, FAIL, false, None)
    else
      match Lookup(entry.members, "sig_alg")
      case Some(Str(alg)) =>
        if !ClosedEntry(entry.members, alg) then Row(Some(alg), FAIL, PostQuantum(alg), None)
        else
          var key := Lookup(entry.members, "public_key_b64").value.s;
          var v := verify(alg, key, Lookup(entry.members, "signature_b64").value.s);
          Row(Some(alg), match v case None => SKIP case Some(b) => if b then PASS else FAIL, PostQuantum(alg),
              match trusted case None => None case Some(t) => Some(KeyAllowed(t, alg, key)))
      case _ => Row(None, FAIL, false, None)
  }

  function Rows(entries: seq<Json>, verify: Verifier, trusted: Option<TrustSet>): (r: seq<Row>)
    ensures |r| == |entries|
  {
    seq(|entries|, i requires 0 <= i < |entries| => RowOf(entries[i], verify, trusted))
  }

  /** The entries of a block: none unless `signatures` is a list. */
  function Entries(block: Json): seq<Json> {
    if block.Obj? then
      match Lookup(block.members, "signatures") case Some(Arr(xs)) => xs case _ => []
    else []
  }

  function Scheme(block: Json): Option<Json> {
    if block.Obj? then Lookup(block.members, "scheme") else None
  }

  predicate IsPq(r: Row) { r.alg.Some? && PostQuantum(r.alg.value) }
  predicate IsClassical(r: Row) { r.alg.Some? && Classical(r.alg.value) }
  predicate Passes(r: Row) { r.status == PASS }
  predicate Skips(r: Row) { r.status == SKIP }
  predicate Fails(r: Row) { r.status == FAIL }
  predicate Untrusted(r: Row) { r.keyTrusted != Some(true) }

  /** A post-quantum signature that verified, with a pinned key when keys are pinned. */
  predicate Protects(r: Row, pinned: bool) { r.postQuantum && Passes(r) && (pinned ==> !Untrusted(r)) }

  function Protector(pinned: bool): Row -> bool { (r: Row) => Protects(r, pinned) }

  predicate Any(rows: seq<Row>, p: Row -> bool) { exists i :: 0 <= i < |rows| && p(rows[i]) }

  /** "hybrid" names a block with a classical and a post-quantum entry, "classical-only" one without the latter. */
  predicate SchemeMatches(scheme: Option<Json>, rows: seq<Row>) {
    (scheme == Some(Str("hybrid")) && Any(rows, IsPq) && Any(rows, IsClassical)) ||
    (scheme == Some(Str("classical-only")) && !Any(rows, IsPq))
  }

  /** The verdict of a block from its rows alone: some entry, every entry a pass, the scheme theirs. */
  predicate BlockOk(scheme: Option<Json>, rows: seq<Row>) {
    rows != [] && (forall i :: 0 <= i < |rows| ==> Passes(rows[i])) && SchemeMatches(scheme, rows)
  }

  ghost predicate Describes(v: BlockVerdict, scheme: Option<Json>, rows: seq<Row>, pinned: bool) {
    && v.rows == rows
    && (v.schemeOk <==> SchemeMatches(scheme, rows))
    && (v.ok <==> BlockOk(scheme, rows))
    && (v.incomplete <==> Any(rows, Skips) && !Any(rows, Fails))
    && v.trusted == (if pinned && v.ok then Some(!Any(rows, Untrusted)) else None)
    && (v.pqProtected <==> v.ok && Any(rows, Protector(pinned)))
  }

  lemma AnySnoc(rows: seq<Row>, row: Row, p: Row -> bool)
    ensures Any(rows + [row], p) <==> Any(rows, p) || p(row)
  {
    if p(row) { assert p((rows + [row])[|rows|]); }
    if Any(rows, p) {
      var i :| 0 <= i < |rows| && p(rows[i]);
      assert p((rows + [row])[i]);
    }
  }

  /** What the counters and flags of the loop stand for after the rows so far. */
  ghost predicate Tally(rows: seq<Row>, pinned: bool, nPass: int, nFail: int, nSkip: int, allKeysPinned: bool, pq: bool) {
    && nPass >= 0 && nFail >= 0 && nSkip >= 0 && nPass + nFail + nSkip == |rows|
    && (nFail > 0 <==> Any(rows, Fails))
    && (nSkip > 0 <==> Any(rows, Skips))
    && (allKeysPinned <==> pinned && !Any(rows, Untrusted))
    && (pq <==> Any(rows, Protector(pinned)))
  }

  lemma TallyNothing(pinned: bool)
    ensures Tally([], pinned, 0, 0, 0, pinned, false)
  {}

  lemma TallySnoc(rows: seq<Row>, pinned: bool, nPass: int, nFail: int, nSkip: int, allKeysPinned: bool, pq: bool, row: Row)
    requires Tally(rows, pinned, nPass, nFail, nSkip, allKeysPinned, pq)
    ensures Tally(rows + [row], pinned, nPass + (if Passes(row) then 1 else 0), nFail + (if Fails(row) then 1 else 0),
                  nSkip + (if Skips(row) then 1 else 0), allKeysPinned && !Untrusted(row), pq || Protects(row, pinned))
  {
    AnySnoc(rows, row, Fails);
    AnySnoc(rows, row, Skips);
    AnySnoc(rows, row, Untrusted);
    AnySnoc(rows, row, Protector(pinned));
  }

  lemma RowsSnoc(entries: seq<Json>, verify: Verifier, trusted: Option<TrustSet>, i: nat)
    requires i < |entries|
    ensures Rows(entries, verify, trusted)[..i + 1]
         == Rows(entries, verify, trusted)[..i] + [RowOf(entries[i], verify, trusted)]
  {}

  /** verify_producer_block: the entries one by one, then the block. */
  method VerifyProducerBlock(block: Json, verify: Verifier, trusted: Option<TrustSet>) returns (v: BlockVerdict)
    ensures Describes(v, Scheme(block), Rows(Entries(block), verify, trusted), trusted.Some?)
  {
    var results, nPass, nFail, nSkip, allKeysPinned, pq := CheckEntries(Entries(block), verify, trusted);
    var schemeOk := SchemeMatches(Scheme(block), results);
    var ok := nPass >= 1 && nFail == 0 && nSkip == 0 && schemeOk;
    TallyDecides(Scheme(block), results, nPass, nFail, nSkip);
    v := BlockVerdict(ok, nSkip > 0 && nFail == 0, pq && ok, if trusted.None? || !ok then None else Some(allKeysPinned),
                      results, schemeOk);
  }

  /** The loop: counters and flags updated entry by entry. */
  method CheckEntries(sigs: seq<Json>, verify: Verifier, trusted: Option<TrustSet>)
    returns (results: seq<Row>, nPass: int, nFail: int, nSkip: int, allKeysPinned: bool, pq: bool)
    ensures results == Rows(sigs, verify, trusted)
    ensures Tally(results, trusted.Some?, nPass, nFail, nSkip, allKeysPinned, pq)
  {
    hide RowOf, Rows, WellShaped, SignatureOf, SigAlg, KeyAllowed, PostQuantum, Tally;
    results, pq, allKeysPinned := [], false, trusted.Some?;
    TallyNothing(trusted.Some?);
    nPass, nFail, nSkip := 0, 0, 0;
    for i := 0 to |sigs|
      invariant results == Rows(sigs, verify, trusted)[..i]
      invariant Tally(results, trusted.Some?, nPass, nFail, nSkip, allKeysPinned, pq)
    {
      var row := CheckEntry(sigs[i], verify, trusted);
      RowsSnoc(sigs, verify, trusted, i);
      TallySnoc(results, trusted.Some?, nPass, nFail, nSkip, allKeysPinned, pq, row);
      nPass := nPass + (if row.status == PASS then 1 else 0);
      nFail := nFail + (if row.status == FAIL then 1 else 0);
      nSkip := nSkip + (if row.status == SKIP then 1 else 0);
      allKeysPinned := allKeysPinned && row.keyTrusted == Some(true);
      pq := pq || (row.status == PASS && row.postQuantum && (trusted.None? || row.keyTrusted == Some(true)));
      results := results + [row];
    }
  }

  /** The counters decide the verdict: fail-closed means a pass, no failure and nothing skipped. */
  lemma TallyDecides(scheme: Option<Json>, rows: seq<Row>, nPass: int, nFail: int, nSkip: int)
    requires nPass >= 0 && nFail >= 0 && nSkip >= 0 && nPass + nFail + nSkip == |rows|
    requires (nFail > 0 <==> Any(rows, Fails)) && (nSkip > 0 <==> Any(rows, Skips))
    ensures BlockOk(scheme, rows) <==> nPass >= 1 && nFail == 0 && nSkip == 0 && SchemeMatches(scheme, rows)
  {
    AllPassOrNot(rows);
  }

  lemma AllPassOrNot(rows: seq<Row>)
    ensures (forall i :: 0 <= i < |rows| ==> Passes(rows[i])) <==> !Any(rows, Fails) && !Any(rows, Skips)
  {
    assert forall i :: 0 <= i < |rows| ==> (Passes(rows[i]) <==> !Fails(rows[i]) && !Skips(rows[i]));
  }

  /** The algorithm an entry names. */
  function SigAlg(s: Json): Option<string> {
    match Field(s, "sig_alg") case Some(Str(alg)) => Some(alg) case _ => None
  }

  /** An object with exactly the four keys, each of its type, that says of itself what its algorithm is. */
  predicate WellShaped(s: Json) { s.Obj? && SigAlg(s).Some? && ClosedEntry(s.members, SigAlg(s).value) }

  /** What its signature check says. */
  function SignatureOf(s: Json, verify: Verifier): Option<bool>
    requires WellShaped(s)
  {
    verify(SigAlg(s).value, StrAt(s, "public_key_b64"), StrAt(s, "signature_b64"))
  }

  /** The body of the loop: a malformed entry fails, one that verifies passes, one that cannot be checked is skipped, and a key
      is judged only for a well-formed entry against a pinned set. */
  method CheckEntry(s: Json, verify: Verifier, trusted: Option<TrustSet>) returns (row: Row)
    ensures row == RowOf(s, verify, trusted)
    ensures row.alg == SigAlg(s) && (row.postQuantum <==> row.alg.Some? && PostQuantum(row.alg.value))
    ensures Passes(row) <==> WellShaped(s) && SignatureOf(s, verify) == Some(true)
    ensures Skips(row) <==> WellShaped(s) && SignatureOf(s, verify) == None
    ensures row.keyTrusted.Some? <==> WellShaped(s) && trusted.Some?
    ensures row.keyTrusted == Some(true)
       <==> WellShaped(s) && trusted.Some? && KeyAllowed(trusted.value, SigAlg(s).value, StrAt(s, "public_key_b64"))
  {
    if !s.Obj? { return Row(None, FAIL, false, None); }
    var a := Lookup(s.members, "sig_alg");
    if a.None? || !a.value.Str? { return Row(None, FAIL, false, None); }
    var alg := a.value.s;
    if !ClosedEntry(s.members, alg) { return Row(Some(alg), FAIL, PostQuantum(alg), None); }
    var pub := Lookup(s.members, "public_key_b64").value.s;
    var v := verify(alg, pub, Lookup(s.members, "signature_b64").value.s);
    var status := if v == Some(true) then PASS else if v == None then SKIP else FAIL;
    var keyTrusted := None;
    if trusted.Some? {
      var allowed := if alg !in trusted.value then [] else
        match trusted.value[alg] case One(k) => [k] case Many(ks) => ks;
      keyTrusted := Some(pub in allowed);
    }
    return Row(Some(alg), status, PostQuantum(alg), keyTrusted);
  }

  // ------------------------------------------------------------------ what does not matter

  /** Every row of one list is a row of the other. */
  ghost predicate Covers(a: seq<Row>, b: seq<Row>) {
    forall i :: 0 <= i < |a| ==> a[i] in b
  }

  lemma RowsCovered(a: seq<Json>, b: seq<Json>, verify: Verifier, trusted: Option<TrustSet>)
    requires multiset(a) == multiset(b)
    ensures Covers(Rows(a, verify, trusted), Rows(b, verify, trusted))
  {
    forall i | 0 <= i < |a| ensures Rows(a, verify, trusted)[i] in Rows(b, verify, trusted) {
      assert a[i] in multiset(b);
      var j :| 0 <= j < |b| && b[j] == a[i];
      assert Rows(b, verify, trusted)[j] == Rows(a, verify, trusted)[i];
    }
  }

  lemma AnyCovered(a: seq<Row>, b: seq<Row>, p: Row -> bool)
    requires Covers(a, b) && Any(a, p)
    ensures Any(b, p)
  {
    var i :| 0 <= i < |a| && p(a[i]);
    assert a[i] in b;
    var j :| 0 <= j < |b| && b[j] == a[i];
    assert p(b[j]);
  }

  lemma AnySameRows(a: seq<Row>, b: seq<Row>, p: Row -> bool)
    requires Covers(a, b) && Covers(b, a)
    ensures Any(a, p) <==> Any(b, p)
  {
    if Any(a, p) { AnyCovered(a, b, p); }
    if Any(b, p) { AnyCovered(b, a, p); }
  }

  /** Two verdicts over the same entries in another order, under the same scheme and pins, say the same. */
  lemma EntryOrderDoesNotMatter(a: seq<Json>, b: seq<Json>, scheme: Option<Json>, verify: Verifier,
                                trusted: Option<TrustSet>, v: BlockVerdict, w: BlockVerdict)
    requires multiset(a) == multiset(b)
    requires Describes(v, scheme, Rows(a, verify, trusted), trusted.Some?)
    requires Describes(w, scheme, Rows(b, verify, trusted), trusted.Some?)
    ensures v.ok == w.ok && v.incomplete == w.incomplete && v.pqProtected == w.pqProtected
    ensures v.trusted == w.trusted && v.schemeOk == w.schemeOk
  {
    RowsCovered(a, b, verify, trusted);
    RowsCovered(b, a, verify, trusted);
    assert |multiset(a)| == |a| && |multiset(b)| == |b|;
    var pinned := trusted.Some?;
    AnySameRows(v.rows, w.rows, IsPq);
    AnySameRows(v.rows, w.rows, IsClassical);
    AnySameRows(v.rows, w.rows, Fails);
    AnySameRows(v.rows, w.rows, Skips);
    AnySameRows(v.rows, w.rows, Untrusted);
    AnySameRows(v.rows, w.rows, Protector(pinned));
    AllPassOrNot(v.rows);
    AllPassOrNot(w.rows);
  }

  /** Rows that differ in the key column only. */
  ghost predicate SameButKeys(a: seq<Row>, b: seq<Row>) {
    |a| == |b| && forall i :: 0 <= i < |a| ==> a[i].(keyTrusted := None) == b[i].(keyTrusted := None)
  }

  lemma AnySameButKeys(a: seq<Row>, b: seq<Row>, p: Row -> bool)
    requires SameButKeys(a, b) && forall r :: p(r) == p(r.(keyTrusted := None))
    ensures Any(a, p) <==> Any(b, p)
  {
    forall i | 0 <= i < |a| ensures p(a[i]) <==> p(b[i]) {
      assert p(a[i]) == p(a[i].(keyTrusted := None)) && p(b[i]) == p(b[i].(keyTrusted := None));
    }
  }

  lemma SameButKeysSameOk(scheme: Option<Json>, a: seq<Row>, b: seq<Row>)
    requires SameButKeys(a, b)
    ensures SchemeMatches(scheme, a) <==> SchemeMatches(scheme, b)
    ensures BlockOk(scheme, a) <==> BlockOk(scheme, b)
    ensures Any(a, Skips) <==> Any(b, Skips)
    ensures Any(a, Fails) <==> Any(b, Fails)
  {
    AnySameButKeys(a, b, IsPq);
    AnySameButKeys(a, b, IsClassical);
    AnySameButKeys(a, b, Fails);
    AnySameButKeys(a, b, Skips);
    AllPassOrNot(a);
    AllPassOrNot(b);
  }

  /** A pinned set changes nothing but the key column: the same statuses and the same `ok`. */
  lemma PinsOnlyChangeKeys(block: Json, verify: Verifier, t: Option<TrustSet>, u: Option<TrustSet>, v: BlockVerdict, w: BlockVerdict)
    requires Describes(v, Scheme(block), Rows(Entries(block), verify, t), t.Some?)
    requires Describes(w, Scheme(block), Rows(Entries(block), verify, u), u.Some?)
    ensures SameButKeys(v.rows, w.rows) && v.ok == w.ok && v.schemeOk == w.schemeOk
  {
    SameButKeysSameOk(Scheme(block), v.rows, w.rows);
  }

  // ------------------------------------------------------------------ the block told from its entries

  /** A closed entry: four members and no other, saying of itself whether its algorithm is post-quantum. */
  ghost predicate Spells(s: Json, alg: string, key: string, signature: string) {
    && s.Obj?
    && (forall i :: 0 <= i < |s.members| ==> s.members[i].key in ["sig_alg", "public_key_b64", "signature_b64", "post_quantum"])
    && Lookup(s.members, "sig_alg") == Some(Str(alg))
    && Lookup(s.members, "public_key_b64") == Some(Str(key))
    && Lookup(s.members, "signature_b64") == Some(Str(signature))
    && Lookup(s.members, "post_quantum") == Some(Bool(alg == "ml-dsa-65"))
  }

  ghost predicate Names(s: Json, alg: string) { s.Obj? && Lookup(s.members, "sig_alg") == Some(Str(alg)) }

  /** The outcome of the signature check of a closed entry. */
  ghost predicate Checked(s: Json, verify: Verifier, outcome: Option<bool>) {
    exists alg, key, signature :: Spells(s, alg, key, signature) && verify(alg, key, signature) == outcome
  }

  ghost predicate PinnedKey(s: Json, trusted: TrustSet) {
    exists alg, key, signature :: Spells(s, alg, key, signature) && alg in trusted &&
                                  (trusted[alg] == One(key) || exists keys :: trusted[alg] == Many(keys) && key in keys)
  }

  lemma ClosedSpells(ms: seq<Member>, alg: string)
    requires Lookup(ms, "sig_alg") == Some(Str(alg))
    ensures ClosedEntry(ms, alg) <==> exists key, signature :: Spells(Obj(ms), alg, key, signature)
  {
    if ClosedEntry(ms, alg) {
      forall i | 0 <= i < |ms| ensures ms[i].key in ["sig_alg", "public_key_b64", "signature_b64", "post_quantum"] {
        assert ms[i] in ms && ms[i].key in KeySet(ms);
      }
      assert Spells(Obj(ms), alg, Lookup(ms, "public_key_b64").value.s, Lookup(ms, "signature_b64").value.s);
    }
    if key, signature :| Spells(Obj(ms), alg, key, signature) {
      forall k | k in ENTRY_KEYS ensures k in KeySet(ms) {
        assert Member(k, Lookup(ms, k).value) in ms;
      }
      assert KeySet(ms) <= ENTRY_KEYS;
    }
  }

  /** What a row says of an entry. */
  ghost predicate Tells(row: Row, s: Json, verify: Verifier, trusted: Option<TrustSet>) {
    && (forall alg :: row.alg == Some(alg) <==> Names(s, alg))
    && (row.postQuantum <==> Names(s, "ml-dsa-65"))
    && (row.status == PASS <==> Checked(s, verify, Some(true)))
    && (row.status == SKIP <==> Checked(s, verify, None))
    && (row.keyTrusted == Some(true) <==> trusted.Some? && PinnedKey(s, trusted.value))
  }

  /** What one entry comes to, member by member. */
  lemma RowMeans(s: Json, verify: Verifier, trusted: Option<TrustSet>)
    ensures Tells(RowOf(s, verify, trusted), s, verify, trusted)
  {
    hide ClosedEntry, Lookup;
    if s.Obj? && Lookup(s.members, "sig_alg").Some? && Lookup(s.members, "sig_alg").value.Str? {
      var alg := Lookup(s.members, "sig_alg").value.s;
      ClosedSpells(s.members, alg);
      if ClosedEntry(s.members, alg) {
        var key, signature :| Spells(s, alg, key, signature);
        if trusted.Some? { KeyAllowedPins(trusted.value, alg, key); }
      }
    }
  }

  lemma KeyAllowedPins(t: TrustSet, alg: string, key: string)
    ensures KeyAllowed(t, alg, key) <==> alg in t && (t[alg] == One(key) || exists keys :: t[alg] == Many(keys) && key in keys)
  {}

  /** The verdict on a block, from its members and its entries. */
  lemma BlockMeans(block: Json, verify: Verifier, trusted: Option<TrustSet>, v: BlockVerdict)
    requires Describes(v, Scheme(block), Rows(Entries(block), verify, trusted), trusted.Some?)
    ensures var es, scheme := ListAt(block, "signatures"), Field(block, "scheme");
            && |v.rows| == |es|
            && (v.schemeOk <==>
                || (scheme == Some(Str("hybrid")) && (exists i :: 0 <= i < |es| && Names(es[i], "ml-dsa-65")) &&
                    exists i :: 0 <= i < |es| && (Names(es[i], "ed25519") || Names(es[i], "ecdsa-p256")))
                || (scheme == Some(Str("classical-only")) && forall i :: 0 <= i < |es| ==> !Names(es[i], "ml-dsa-65")))
            && (v.ok <==> es != [] && (forall i :: 0 <= i < |es| ==> Checked(es[i], verify, Some(true))) && v.schemeOk)
            && (v.incomplete <==>
                && (exists i :: 0 <= i < |es| && Checked(es[i], verify, None))
                && forall i :: 0 <= i < |es| ==> Checked(es[i], verify, Some(true)) || Checked(es[i], verify, None))
            && (v.trusted.Some? <==> trusted.Some? && v.ok)
            && (v.trusted == Some(true) <==> trusted.Some? && v.ok && forall i :: 0 <= i < |es| ==> PinnedKey(es[i], trusted.value))
            && (v.pqProtected <==> v.ok && exists i :: 0 <= i < |es| && Names(es[i], "ml-dsa-65") &&
                                               (trusted.Some? ==> PinnedKey(es[i], trusted.value)))
  {
    hide Names, Checked, PinnedKey, RowOf;
    var es := ListAt(block, "signatures");
    assert Entries(block) == es && Scheme(block) == Field(block, "scheme");
    forall i | 0 <= i < |es| ensures Tells(v.rows[i], es[i], verify, trusted) { RowMeans(es[i], verify, trusted); }
    forall i | 0 <= i < |es|
      ensures IsPq(v.rows[i]) <==> Names(es[i], "ml-dsa-65")
      ensures IsClassical(v.rows[i]) <==> Names(es[i], "ed25519") || Names(es[i], "ecdsa-p256")
    {
      assert Tells(v.rows[i], es[i], verify, trusted);
      assert v.rows[i].alg.Some? ==> Names(es[i], v.rows[i].alg.value);
    }
  }
}
