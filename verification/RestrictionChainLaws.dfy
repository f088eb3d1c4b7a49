/** What the chain rule is for: a record still verified after it admits no more than any mandate up its chain. */
module RestrictionChainLaws {
  import opened Values
  import opened CanonicalSame
  import opened Restriction
  import opened RestrictionMeaning
  import opened RestrictionLaws
  import opened RestrictionChain

  /** Record `i` is the mandate `own[i]`, evaluated against `original[i]`, which is the mandate of the record it links to. */
  ghost predicate Evaluated(rs: seq<Record>, s: seq<Verdict>, own: seq<Artifact>, original: seq<Artifact>)
    requires |rs| == |s| == |own| == |original|
  {
    && (forall i :: 0 <= i < |rs| && Up(rs, i).Some? ==> original[i] == own[Up(rs, i).value])
    && (forall i :: 0 <= i < |rs| ==> Strict(Obj(own[i].claims)) && Strict(Obj(original[i].claims)))
    && (forall i :: 0 <= i < |rs| && s[i] == Verified ==> Outcome(original[i], own[i]) == Some(Verified))
  }

  /** No record of the list hides a term by the skip. */
  ghost predicate NoneMasked(own: seq<Artifact>, original: seq<Artifact>)
    requires |own| == |original|
  {
    forall i :: 0 <= i < |own| ==> ContentsUnmasked(original[i].claims, own[i].claims)
  }

  lemma {:induction false} ChainAdmits(w: World, rs: seq<Record>, s: seq<Verdict>, own: seq<Artifact>, original: seq<Artifact>,
                                       i: nat, j: nat, n: nat, h: History)
    requires |rs| == |s| == |own| == |original| && i < |rs| && j < |rs|
    requires Ordered(w) && Evaluated(rs, s, own, original) && NoneMasked(own, original)
    requires AllAbove(rs, s, i) && Reaches(rs, i, j, n) && MandateAdmits(w, own[i].claims, h)
    ensures MandateAdmits(w, original[j].claims, h)
    decreases n
  {
    hide MandateAdmits, ContentsUnmasked, Strict, Outcome, Up;
    assert Reaches(rs, i, i, 0);
    VerifiedAdmitsNoMore(w, original[i], own[i], h);
    if n > 0 {
      var u := Up(rs, i).value;
      forall k: nat, m: nat | k < |rs| && Reaches(rs, u, k, m) ensures s[k] == Verified { assert Reaches(rs, i, k, m + 1); }
      ChainAdmits(w, rs, s, own, original, u, j, n - 1, h);
    }
  }

  /** A record verified at the end of the loop admits no history refused by the original of any record above it, however
      many links away. */
  lemma VerifiedChainAdmitsNoMore(w: World, rs: seq<Record>, s: seq<Verdict>, own: seq<Artifact>, original: seq<Artifact>,
                                  i: nat, j: nat, n: nat, h: History)
    requires |rs| == |s| == |own| == |original| && i < |rs| && j < |rs|
    requires Ordered(w) && Evaluated(rs, s, own, original) && NoneMasked(own, original)
    requires Weakest(rs, s)[i] == Verified && Reaches(rs, i, j, n) && MandateAdmits(w, own[i].claims, h)
    ensures MandateAdmits(w, original[j].claims, h)
  {
    WeakestLink(rs, s, i);
    ChainAdmits(w, rs, s, own, original, i, j, n, h);
  }
}
